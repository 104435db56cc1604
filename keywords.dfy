/**
 * The keyword predicates of the search command. Each one asks whether some keyword occurs,
 * ignoring case, inside one field of the record; there is no other normalisation.
 */
module Keywords {
  import opened JavaString
  import Patients
  import Persons

  /** `keywords.stream().anyMatch(k -> field.toLowerCase().contains(k.toLowerCase()))`. */
  predicate AnyKeywordIn(field: string, keywords: seq<string>)
    decreases |keywords|
  {
    keywords != [] && (Contains(ToLower(field), ToLower(keywords[0])) || AnyKeywordIn(field, keywords[1..]))
  }

  /** Some tag name, lowercased, contains the lowercased keyword. */
  predicate KeywordInSomeTag(tags: set<string>, keyword: string) {
    exists t :: t in tags && Contains(ToLower(t), ToLower(keyword))
  }

  /** The nested `anyMatch` over keywords and then over tags. */
  predicate AnyKeywordInTags(tags: set<string>, keywords: seq<string>)
    decreases |keywords|
  {
    keywords != [] && (KeywordInSomeTag(tags, keywords[0]) || AnyKeywordInTags(tags, keywords[1..]))
  }

  /** A keyword match is a keyword of the list occurring, lowercased, in the lowercased field. */
  lemma {:induction false} AnyKeywordInIff(field: string, keywords: seq<string>)
    ensures AnyKeywordIn(field, keywords)
        <==> exists i :: 0 <= i < |keywords| && Contains(ToLower(field), ToLower(keywords[i]))
    decreases |keywords|
  {
    if keywords != [] {
      AnyKeywordInIff(field, keywords[1..]);
      if AnyKeywordIn(field, keywords[1..]) {
        var i :| 0 <= i < |keywords[1..]| && Contains(ToLower(field), ToLower(keywords[1..][i]));
        assert keywords[i + 1] == keywords[1..][i];
      }
      if exists i :: 0 <= i < |keywords| && Contains(ToLower(field), ToLower(keywords[i])) {
        var i :| 0 <= i < |keywords| && Contains(ToLower(field), ToLower(keywords[i]));
        if i > 0 {
          assert keywords[1..][i - 1] == keywords[i];
        }
      }
    }
  }

  /** A tag match is a keyword of the list occurring in some tag name, ignoring case. */
  lemma {:induction false} AnyKeywordInTagsIff(tags: set<string>, keywords: seq<string>)
    ensures AnyKeywordInTags(tags, keywords)
        <==> exists i, t :: 0 <= i < |keywords| && t in tags && Contains(ToLower(t), ToLower(keywords[i]))
    decreases |keywords|
  {
    if keywords != [] {
      AnyKeywordInTagsIff(tags, keywords[1..]);
      if AnyKeywordInTags(tags, keywords[1..]) {
        var i, t :| 0 <= i < |keywords[1..]| && t in tags && Contains(ToLower(t), ToLower(keywords[1..][i]));
        assert keywords[i + 1] == keywords[1..][i];
      }
      if exists i, t :: 0 <= i < |keywords| && t in tags && Contains(ToLower(t), ToLower(keywords[i])) {
        var i, t :| 0 <= i < |keywords| && t in tags && Contains(ToLower(t), ToLower(keywords[i]));
        if i > 0 {
          assert keywords[1..][i - 1] == keywords[i];
        }
      }
    }
  }

  /** An empty keyword list never matches, whatever the field or the tags. */
  lemma NoKeywordsNoMatch(field: string, tags: set<string>)
    ensures !AnyKeywordIn(field, []) && !AnyKeywordInTags(tags, [])
  {
  }

  /** With no tags there is nothing to match. */
  lemma {:induction false} NoTagsNoMatch(keywords: seq<string>)
    ensures !AnyKeywordInTags({}, keywords)
    decreases |keywords|
  {
    if keywords != [] {
      NoTagsNoMatch(keywords[1..]);
    }
  }

  /** Adding keywords, before or after, can only turn a miss into a match. */
  lemma KeywordsMonotone(field: string, tags: set<string>, ks: seq<string>, before: seq<string>, after: seq<string>)
    ensures AnyKeywordIn(field, ks) ==> AnyKeywordIn(field, before + ks + after)
    ensures AnyKeywordInTags(tags, ks) ==> AnyKeywordInTags(tags, before + ks + after)
  {
    var all := before + ks + after;
    AnyKeywordInIff(field, ks);
    AnyKeywordInIff(field, all);
    AnyKeywordInTagsIff(tags, ks);
    AnyKeywordInTagsIff(tags, all);
    if AnyKeywordIn(field, ks) {
      var i :| 0 <= i < |ks| && Contains(ToLower(field), ToLower(ks[i]));
      assert all[|before| + i] == ks[i];
    }
    if AnyKeywordInTags(tags, ks) {
      var i, t :| 0 <= i < |ks| && t in tags && Contains(ToLower(t), ToLower(ks[i]));
      assert all[|before| + i] == ks[i];
    }
  }

  /** Adding tags can only turn a miss into a match. */
  lemma TagsMonotone(tags: set<string>, more: set<string>, ks: seq<string>)
    ensures AnyKeywordInTags(tags, ks) ==> AnyKeywordInTags(tags + more, ks)
  {
    AnyKeywordInTagsIff(tags, ks);
    AnyKeywordInTagsIff(tags + more, ks);
  }

  /** A keyword occurring at position `i` of the lowercased field matches: partial words count. */
  lemma PartialMatch(field: string, keyword: string, i: nat)
    requires i + |keyword| <= |field| && ToLower(field)[i..i + |keyword|] == ToLower(keyword)
    ensures AnyKeywordIn(field, [keyword])
  {
    var h, n := ToLower(field), ToLower(keyword);
    assert |n| == |keyword| && h[i..i + |n|] == n;
    ContainsAt(h, n, i);
    OneKeywordIn(field, keyword);
  }

  lemma OneKeywordIn(field: string, keyword: string)
    requires Contains(ToLower(field), ToLower(keyword))
    ensures AnyKeywordIn(field, [keyword])
  {
    assert [keyword][0] == keyword;
  }

  /**
   * No normalisation: a keyword whose first character, lowercased, never occurs in the lowercased
   * field cannot match, so "+65" misses "65123456".
   */
  lemma NoNormalisation(field: string, keyword: string)
    requires keyword != []
    requires forall j :: 0 <= j < |field| ==> LowerChar(field[j]) != LowerChar(keyword[0])
    ensures !AnyKeywordIn(field, [keyword])
  {
    NotContainsFirstChar(ToLower(field), ToLower(keyword));
  }

  /** The predicates the search command can install, each holding its keyword list verbatim. */
  datatype KeywordPredicate =
    | NameKeywords(keywords: seq<string>)
    | PhoneKeywords(keywords: seq<string>)
    | EmailKeywords(keywords: seq<string>)
    | TagKeywords(keywords: seq<string>)

  /** `PhoneContainsKeywordsPredicate.test` on a patient: only the raw phone text is examined. */
  predicate PhoneTest(keywords: seq<string>, p: Patients.Patient) {
    AnyKeywordIn(p.phone.value, keywords)
  }

  /** `EmailContainsKeywordsPredicate.test` on a patient. */
  predicate EmailTest(keywords: seq<string>, p: Patients.Patient) {
    AnyKeywordIn(p.email, keywords)
  }

  /** `TagContainsKeywordsPredicate.test` on a patient. */
  predicate TagTest(keywords: seq<string>, p: Patients.Patient) {
    AnyKeywordInTags(p.tags, keywords)
  }

  /** The person-package `EmailContainsKeywordsPredicate.test`. */
  predicate PersonEmailTest(keywords: seq<string>, p: Persons.Person) {
    AnyKeywordIn(p.email, keywords)
  }

  /** The person-package `TagContainsKeywordsPredicate.test`. */
  predicate PersonTagTest(keywords: seq<string>, p: Persons.Person) {
    AnyKeywordInTags(p.tags, keywords)
  }

  /**
   * The test a predicate applies to a patient. `NameContainsKeywordsPredicate` is not part of this
   * model's sources, so its test is the parameter `nameTest`.
   */
  predicate Test(pred: KeywordPredicate, nameTest: (seq<string>, Patients.Patient) -> bool, p: Patients.Patient) {
    match pred
    case NameKeywords(ks) => nameTest(ks, p)
    case PhoneKeywords(ks) => PhoneTest(ks, p)
    case EmailKeywords(ks) => EmailTest(ks, p)
    case TagKeywords(ks) => TagTest(ks, p)
  }

  /** Each patient predicate looks at its own field and no other. */
  lemma OnlyOwnField(ks: seq<string>, p: Patients.Patient, q: Patients.Patient)
    ensures p.phone == q.phone ==> PhoneTest(ks, p) == PhoneTest(ks, q)
    ensures p.email == q.email ==> EmailTest(ks, p) == EmailTest(ks, q)
    ensures p.tags == q.tags ==> TagTest(ks, p) == TagTest(ks, q)
  {
  }
}
