/** A person's name: the hand-written name regex, verbatim storage and normalised equality. */
module Name {
  import opened JavaString

  /** `\p{Alnum}` without the UNICODE_CHARACTER_CLASS flag: the ASCII letters and digits. */
  predicate IsAlnum(c: char) {
    'a' <= c <= 'z' || 'A' <= c <= 'Z' || '0' <= c <= '9'
  }

  /** The single-character alternative `[\p{Alnum} .'-]` of the repeated group. */
  predicate IsNameChar(c: char) {
    IsAlnum(c) || c == ' ' || c == '.' || c == '\'' || c == '-'
  }

  /** A lower-case "s/o" or "d/o" at the start of `s`. */
  predicate LowerHonorificAt(s: string) {
    |s| >= 3 && (s[0] == 's' || s[0] == 'd') && s[1] == '/' && s[2] == 'o'
  }

  /** An upper-case "S/O" or "D/O" followed by a space at the start of `s`. */
  predicate UpperHonorificAt(s: string) {
    |s| >= 4 && (s[0] == 'S' || s[0] == 'D') && s[1] == '/' && s[2] == 'O' && s[3] == ' '
  }

  /**
   * The repeated group `([\p{Alnum} .'-]|(([sd]/o)|([SD]/O) ))*`: a name character, a
   * lower-case "s/o" or "d/o", or an upper-case "S/O" or "D/O" that must be followed by a space.
   */
  predicate NameTail(s: string)
    decreases |s|
  {
    if s == [] then true
    else
      || (IsNameChar(s[0]) && NameTail(s[1..]))
      || (LowerHonorificAt(s) && NameTail(s[3..]))
      || (UpperHonorificAt(s) && NameTail(s[4..]))
  }

  /** `Name.isValidName`: the whole string matches `[\p{Alnum}](…)*`. */
  predicate IsValidName(s: string) {
    |s| >= 1 && IsAlnum(s[0]) && NameTail(s[1..])
  }

  /** `Name`: the text is kept exactly as given in `fullName`. */
  datatype Name = Name(fullName: string)

  /** The constructor refuses an invalid name and stores a valid one verbatim, un-normalised. */
  function MakeName(s: string): (n: Name)
    requires IsValidName(s)
    ensures n.fullName == s && IsValidName(n.fullName)
  {
    Name(s)
  }

  /** A valid name is never empty and never starts with whitespace, so "" and " " are refused. */
  lemma ValidNameNotBlank(s: string)
    requires IsValidName(s)
    ensures s != [] && !IsRegexSpace(s[0]) && !IsTrimmable(s[0])
  {
  }

  lemma BlankNamesInvalid()
    ensures !IsValidName("") && !IsValidName(" ") && !IsValidName(" Alice")
  {
  }

  /** Without any '/', the group accepts exactly the strings made of name characters. */
  lemma {:induction false} NameTailWithoutSlash(s: string)
    requires forall i :: 0 <= i < |s| ==> s[i] != '/'
    ensures NameTail(s) <==> forall i :: 0 <= i < |s| ==> IsNameChar(s[i])
    decreases |s|
  {
    if s != [] {
      NameTailWithoutSlash(s[1..]);
      assert (forall i :: 0 <= i < |s| ==> IsNameChar(s[i]))
        <==> IsNameChar(s[0]) && (forall i :: 0 <= i < |s[1..]| ==> IsNameChar(s[1..][i]));
    }
  }

  /** One alternative of the group, of width `n`, followed by accepted text is accepted. */
  lemma NameTailStep(c: string, n: nat)
    requires 1 <= n <= |c|
    requires n == 1 ==> IsNameChar(c[0])
    requires n == 3 ==> LowerHonorificAt(c)
    requires n == 4 ==> UpperHonorificAt(c)
    requires n == 1 || n == 3 || n == 4
    requires NameTail(c[n..])
    ensures NameTail(c)
  {
  }

  /** Text accepted by the repeated group can be concatenated. */
  lemma {:induction false} NameTailConcat(a: string, b: string)
    requires NameTail(a) && NameTail(b)
    ensures NameTail(a + b)
    decreases |a|, 1
  {
    if a == [] {
      assert a + b == b;
    } else if IsNameChar(a[0]) && NameTail(a[1..]) {
      AlternativeThenConcat(a, b, 1);
    } else if LowerHonorificAt(a) && NameTail(a[3..]) {
      AlternativeThenConcat(a, b, 3);
    } else {
      AlternativeThenConcat(a, b, 4);
    }
  }

  /** The step of the concatenation: `a` opens with an alternative of width `n`. */
  lemma {:induction false} AlternativeThenConcat(a: string, b: string, n: nat)
    requires 1 <= n <= |a| && NameTail(a[n..]) && NameTail(b)
    requires n == 1 ==> IsNameChar(a[0])
    requires n == 3 ==> LowerHonorificAt(a)
    requires n == 4 ==> UpperHonorificAt(a)
    requires n == 1 || n == 3 || n == 4
    ensures NameTail(a + b)
    decreases |a|, 0
  {
    NameTailConcat(a[n..], b);
    var c := a + b;
    assert c[n..] == a[n..] + b;
    assert forall k :: 0 <= k < n ==> c[k] == a[k];
    NameTailStep(c, n);
  }


  /** A string ending in an upper-case "S/O" or "D/O" */
  predicate EndsWithUpperHonorific(u: string) {
    |u| >= 3 && (u[|u| - 3] == 'S' || u[|u| - 3] == 'D') && u[|u| - 2] == '/' && u[|u| - 1] == 'O'
  }

  /** A name that ends in an upper-case "S/O" or "D/O" is refused: the regex wants a space after it. */
  lemma {:induction false} NoTrailingUpperHonorific(u: string)
    requires EndsWithUpperHonorific(u)
    ensures !NameTail(u)
    decreases |u|
  {
    if |u| == 3 {
      assert !NameTail(u[1..]) by {
        assert u[1..] != [] && !IsNameChar(u[1..][0]);
        assert !LowerHonorificAt(u[1..]) && !UpperHonorificAt(u[1..]);
      }
      assert !LowerHonorificAt(u) && !UpperHonorificAt(u);
    } else {
      assert EndsWithUpperHonorific(u[1..]);
      NoTrailingUpperHonorific(u[1..]);
      if LowerHonorificAt(u) || UpperHonorificAt(u) {
        if |u| < 6 {
          assert false;
        }
        assert EndsWithUpperHonorific(u[3..]);
        NoTrailingUpperHonorific(u[3..]);
        if UpperHonorificAt(u) {
          if |u| < 7 {
            assert false;
          }
          assert EndsWithUpperHonorific(u[4..]);
          NoTrailingUpperHonorific(u[4..]);
        }
      }
    }
  }

  /** Lower-case "s/o" and "d/o" may end a name; upper-case "S/O" and "D/O" may not. */
  lemma HonorificCase(n: string)
    requires IsValidName(n)
    ensures IsValidName(n + " s/o") && IsValidName(n + " d/o")
    ensures !IsValidName(n + " S/O") && !IsValidName(n + " D/O")
  {
    assert NameTail(" s/o") by {
      assert " s/o"[1..] == "s/o";
      assert NameTail("s/o"[3..]);
    }
    assert NameTail(" d/o") by {
      assert " d/o"[1..] == "d/o";
      assert NameTail("d/o"[3..]);
    }
    ValidThenTail(n, " s/o");
    ValidThenTail(n, " d/o");
    assert !IsValidName(n + " S/O") by {
      assert (n + " S/O")[1..] == n[1..] + " S/O";
      NoTrailingUpperHonorific(n[1..] + " S/O");
    }
    assert !IsValidName(n + " D/O") by {
      assert (n + " D/O")[1..] == n[1..] + " D/O";
      NoTrailingUpperHonorific(n[1..] + " D/O");
    }
  }

  /** A valid name followed by text the repeated group accepts is a valid name. */
  lemma ValidThenTail(n: string, t: string)
    requires IsValidName(n) && NameTail(t)
    ensures IsValidName(n + t)
  {
    NameTailConcat(n[1..], t);
    assert (n + t)[1..] == n[1..] + t;
  }

  /** Length of the leading run of `\s` characters. */
  function SpaceRunLength(s: string): (n: nat)
    ensures n <= |s|
    ensures forall i :: 0 <= i < n ==> IsRegexSpace(s[i])
    ensures n == |s| || !IsRegexSpace(s[n])
  {
    if s != [] && IsRegexSpace(s[0]) then 1 + SpaceRunLength(s[1..]) else 0
  }

  /** `replaceAll("\\s+", " ")`: every maximal run of `\s` becomes one space. */
  function CollapseSpaces(s: string): (r: string)
    ensures forall j :: 0 <= j < |r| ==> r[j] == ' ' || r[j] in s
    decreases |s|
  {
    if s == [] then []
    else if IsRegexSpace(s[0]) then
      var n := SpaceRunLength(s);
      [' '] + CollapseSpaces(s[n..])
    else [s[0]] + CollapseSpaces(s[1..])
  }

  /** Every `\s` character is a plain space and is followed by a non-`\s` character or the end. */
  predicate Collapsed(s: string) {
    forall i :: 0 <= i < |s| && IsRegexSpace(s[i]) ==> s[i] == ' ' && (i + 1 == |s| || !IsRegexSpace(s[i + 1]))
  }

  lemma {:induction false} CollapseSpacesCollapsed(s: string)
    ensures Collapsed(CollapseSpaces(s))
    ensures s != [] && !IsRegexSpace(s[0]) ==> CollapseSpaces(s)[0] == s[0]
    decreases |s|
  {
    if s != [] {
      if IsRegexSpace(s[0]) {
        var n := SpaceRunLength(s);
        CollapseSpacesCollapsed(s[n..]);
      } else {
        CollapseSpacesCollapsed(s[1..]);
      }
    }
  }

  lemma {:induction false} CollapsedFixpoint(s: string)
    requires Collapsed(s)
    ensures CollapseSpaces(s) == s
    decreases |s|
  {
    if s != [] {
      if IsRegexSpace(s[0]) {
        assert SpaceRunLength(s) == 1 by {
          if |s| > 1 {
            assert !IsRegexSpace(s[1]);
          }
        }
      }
      assert Collapsed(s[1..]) by {
        forall i | 0 <= i < |s[1..]| && IsRegexSpace(s[1..][i])
          ensures s[1..][i] == ' ' && (i + 1 == |s[1..]| || !IsRegexSpace(s[1..][i + 1]))
        {
          assert s[1..][i] == s[i + 1];
        }
      }
      CollapsedFixpoint(s[1..]);
    }
  }

  lemma CollapsedSlice(s: string, a: nat, b: nat)
    requires Collapsed(s) && a <= b <= |s|
    ensures Collapsed(s[a..b])
  {
    forall i | 0 <= i < b - a && IsRegexSpace(s[a..b][i])
      ensures s[a..b][i] == ' ' && (i + 1 == b - a || !IsRegexSpace(s[a..b][i + 1]))
    {
      assert s[a..b][i] == s[a + i];
      if i + 1 < b - a {
        assert s[a..b][i + 1] == s[a + i + 1];
      }
    }
  }

  /** The normal form `equals` compares: lower case, whitespace runs collapsed, then trimmed. */
  function Normalized(s: string): string {
    Trim(CollapseSpaces(ToLower(s)))
  }

  predicate IsLowerCase(s: string) {
    forall i :: 0 <= i < |s| ==> LowerChar(s[i]) == s[i]
  }

  lemma ToLowerIsLowerCase(s: string)
    ensures IsLowerCase(ToLower(s))
  {
  }

  lemma LowerCaseFixpoint(s: string)
    requires IsLowerCase(s)
    ensures ToLower(s) == s
  {
  }

  /** Collapsing whitespace introduces only plain spaces, so lower case is kept. */
  lemma {:induction false} CollapseKeepsLowerCase(s: string)
    requires IsLowerCase(s)
    ensures IsLowerCase(CollapseSpaces(s))
    decreases |s|
  {
    if s != [] {
      if IsRegexSpace(s[0]) {
        var n := SpaceRunLength(s);
        assert IsLowerCase(s[n..]) by {
          forall i | 0 <= i < |s[n..]| ensures LowerChar(s[n..][i]) == s[n..][i] {
            assert s[n..][i] == s[n + i];
          }
        }
        CollapseKeepsLowerCase(s[n..]);
      } else {
        assert IsLowerCase(s[1..]) by {
          forall i | 0 <= i < |s[1..]| ensures LowerChar(s[1..][i]) == s[1..][i] {
            assert s[1..][i] == s[1 + i];
          }
        }
        CollapseKeepsLowerCase(s[1..]);
      }
    }
  }

  lemma TrimKeepsShape(c: string)
    requires IsLowerCase(c) && Collapsed(c)
    ensures IsLowerCase(Trim(c)) && Collapsed(Trim(c))
  {
    var n := Trim(c);
    var a := TrimSlice(c);
    forall i | 0 <= i < |n| ensures LowerChar(n[i]) == n[i] {
      assert n[i] == c[a + i];
    }
    CollapsedSlice(c, a, a + |n|);
  }

  /** Normalising a normalised name changes nothing. */
  lemma NormalizedIdempotent(s: string)
    ensures Normalized(Normalized(s)) == Normalized(s)
  {
    var l := ToLower(s);
    var c := CollapseSpaces(l);
    var n := Trim(c);
    ToLowerIsLowerCase(s);
    CollapseKeepsLowerCase(l);
    CollapseSpacesCollapsed(l);
    TrimKeepsShape(c);
    LowerCaseFixpoint(n);
    CollapsedFixpoint(n);
    TrimIdempotent(c);
  }

  /** `Name.equals`: the normalised forms are equal. */
  predicate Equal(a: Name, b: Name) {
    Normalized(a.fullName) == Normalized(b.fullName)
  }

  /** `Name.hashCode`: the string hash of the normalised form. */
  function HashCode(n: Name): int {
    JavaString.HashCode(Normalized(n.fullName))
  }

  /** `equals` is an equivalence relation and `hashCode` agrees with it. */
  lemma EqualIsEquivalence(a: Name, b: Name, c: Name)
    ensures Equal(a, a)
    ensures Equal(a, b) ==> Equal(b, a)
    ensures Equal(a, b) && Equal(b, c) ==> Equal(a, c)
    ensures Equal(a, b) ==> HashCode(a) == HashCode(b)
  {
  }

  /** Letter case is ignored: a name equals its lower-case spelling. */
  lemma CaseIgnored(s: string)
    ensures Equal(Name(s), Name(ToLower(s)))
  {
    ToLowerIdempotent(s);
  }

  lemma LowerKeepsSpaces(s: string)
    ensures AllRegexSpace(s) ==> AllRegexSpace(ToLower(s))
    ensures NoRegexSpace(s) ==> NoRegexSpace(ToLower(s))
  {
  }

  lemma ToLowerConcat(a: string, b: string)
    ensures ToLower(a + b) == ToLower(a) + ToLower(b)
  {
  }

  /** A word, a whitespace run and a word collapse to the two words joined by one space. */
  lemma CollapseTwoWords(w1: string, sp: string, w2: string)
    requires NoRegexSpace(w1) && NoRegexSpace(w2) && w2 != []
    requires sp != [] && AllRegexSpace(sp)
    ensures CollapseSpaces(w1 + sp + w2) == w1 + " " + w2
  {
    assert Collapsed(w2);
    CollapsedFixpoint(w2);
    CollapseSpaceRun(sp, w2);
    assert w1 + sp + w2 == w1 + (sp + w2);
    CollapsePrefixWord(w1, sp + w2);
  }

  /** The amount and kind of whitespace between two words is ignored, as "VALID  NAME" equals "Valid Name". */
  lemma SpacingIgnored(w1: string, sp: string, w2: string)
    requires w1 != [] && NoRegexSpace(w1) && NoRegexSpace(w2) && w2 != []
    requires sp != [] && AllRegexSpace(sp)
    ensures Equal(Name(w1 + sp + w2), Name(w1 + " " + w2))
  {
    var l1, ls, l2 := ToLower(w1), ToLower(sp), ToLower(w2);
    ToLowerConcat(w1 + sp, w2);
    ToLowerConcat(w1, sp);
    ToLowerConcat(w1 + " ", w2);
    ToLowerConcat(w1, " ");
    assert ToLower(" ") == " ";
    LowerKeepsSpaces(w1);
    LowerKeepsSpaces(sp);
    LowerKeepsSpaces(w2);
    CollapseTwoWords(l1, ls, l2);
    CollapseTwoWords(l1, " ", l2);
  }

  /** A leading word without whitespace passes through the collapse unchanged. */
  lemma {:induction false} CollapsePrefixWord(w: string, rest: string)
    requires NoRegexSpace(w)
    ensures CollapseSpaces(w + rest) == w + CollapseSpaces(rest)
    decreases |w|
  {
    if w == [] {
      assert w + rest == rest;
    } else {
      assert (w + rest)[1..] == w[1..] + rest;
      assert (w + rest)[0] == w[0];
      CollapsePrefixWord(w[1..], rest);
    }
  }

  lemma {:induction false} SpaceRunOfSpaces(sp: string, rest: string)
    requires AllRegexSpace(sp)
    requires rest == [] || !IsRegexSpace(rest[0])
    ensures SpaceRunLength(sp + rest) == |sp|
    decreases |sp|
  {
    if sp != [] {
      assert (sp + rest)[1..] == sp[1..] + rest;
      SpaceRunOfSpaces(sp[1..], rest);
    } else {
      assert sp + rest == rest;
    }
  }

  /** A run of whitespace followed by a non-whitespace character collapses to one space. */
  lemma CollapseSpaceRun(sp: string, rest: string)
    requires sp != [] && AllRegexSpace(sp)
    requires rest == [] || !IsRegexSpace(rest[0])
    ensures CollapseSpaces(sp + rest) == [' '] + CollapseSpaces(rest)
  {
    SpaceRunOfSpaces(sp, rest);
    assert (sp + rest)[|sp|..] == rest;
  }

  /** A lower-case word of visible characters is its own normal form, so two different such words are different names. */
  lemma LowerWordsDistinguished(a: string, b: string)
    requires IsLowerCase(a) && forall i :: 0 <= i < |a| ==> !IsTrimmable(a[i])
    requires IsLowerCase(b) && forall i :: 0 <= i < |b| ==> !IsTrimmable(b[i])
    ensures Equal(Name(a), Name(b)) <==> a == b
  {
    LowerVisibleWordNormal(a);
    LowerVisibleWordNormal(b);
  }

  lemma LowerVisibleWordNormal(a: string)
    requires IsLowerCase(a) && forall i :: 0 <= i < |a| ==> !IsTrimmable(a[i])
    ensures Normalized(a) == a
  {
    LowerCaseFixpoint(a);
    assert Collapsed(a);
    CollapsedFixpoint(a);
    TrimFixpoint(a);
  }
}
