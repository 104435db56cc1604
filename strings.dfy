/** The few `java.lang.String` operations and regex character classes the tracker relies on. */
module JavaString {

  /** Java's regex class `\s`: space, tab, newline, vertical tab, form feed and carriage return. */
  predicate IsRegexSpace(c: char) {
    c == ' ' || c == '\t' || c == '\n' || c == '\r' || c as int == 11 || c as int == 12
  }

  /** The line terminators that the regex `.` refuses to match. */
  predicate IsLineTerminator(c: char) {
    c == '\n' || c == '\r' || c as int == 0x85 || c as int == 0x2028 || c as int == 0x2029
  }

  /** `String.trim` removes leading and trailing characters whose code is at most U+0020. */
  predicate IsTrimmable(c: char) {
    c as int <= 32
  }

  lemma RegexSpaceIsTrimmable(c: char)
    ensures IsRegexSpace(c) ==> IsTrimmable(c)
  {
  }

  function TrimLeft(s: string): (r: string)
    ensures |r| <= |s|
    ensures forall i :: 0 <= i < |s| - |r| ==> IsTrimmable(s[i])
    ensures r == [] || !IsTrimmable(r[0])
  {
    if s != [] && IsTrimmable(s[0]) then TrimLeft(s[1..]) else s
  }

  function TrimRight(s: string): (r: string)
    ensures |r| <= |s| && forall i :: 0 <= i < |r| ==> r[i] == s[i]
    ensures forall i :: |r| <= i < |s| ==> IsTrimmable(s[i])
    ensures r == [] || !IsTrimmable(r[|r| - 1])
  {
    if s != [] && IsTrimmable(s[|s| - 1]) then TrimRight(s[..|s| - 1]) else s
  }

  /** `String.trim`. */
  function Trim(s: string): (r: string)
    ensures |r| <= |s|
    ensures r == [] || (!IsTrimmable(r[0]) && !IsTrimmable(r[|r| - 1]))
  {
    TrimRight(TrimLeft(s))
  }

  /** A string is its own trim exactly when it is empty or starts and ends above U+0020. */
  lemma {:induction false} TrimFixpoint(s: string)
    ensures Trim(s) == s <==> (s == [] || (!IsTrimmable(s[0]) && !IsTrimmable(s[|s| - 1])))
  {
    if s != [] && !IsTrimmable(s[0]) && !IsTrimmable(s[|s| - 1]) {
      assert TrimLeft(s) == s;
      assert TrimRight(s) == s;
    }
  }

  lemma TrimIdempotent(s: string)
    ensures Trim(Trim(s)) == Trim(s)
  {
    TrimFixpoint(Trim(s));
  }

  lemma {:induction false} TrimLeftSlice(s: string)
    ensures TrimLeft(s) == s[|s| - |TrimLeft(s)|..]
  {
    if s != [] && IsTrimmable(s[0]) {
      TrimLeftSlice(s[1..]);
    }
  }

  /** What `Trim` keeps is the contiguous slice of `s` starting at `a`. */
  lemma TrimSlice(s: string) returns (a: nat)
    ensures a + |Trim(s)| <= |s| && Trim(s) == s[a..a + |Trim(s)|]
  {
    var l := TrimLeft(s);
    TrimLeftSlice(s);
    a := |s| - |l|;
    assert Trim(s) == l[..|Trim(s)|];
  }

  /** `Character.toLowerCase` on the ASCII letters; every other character is left as it is. */
  function LowerChar(c: char): char {
    if 'A' <= c <= 'Z' then (c as int + 32) as char else c
  }

  /** `String.toLowerCase`, restricted to ASCII letters. */
  function ToLower(s: string): (r: string)
    ensures |r| == |s|
  {
    seq(|s|, i requires 0 <= i < |s| => LowerChar(s[i]))
  }

  lemma ToLowerIdempotent(s: string)
    ensures ToLower(ToLower(s)) == ToLower(s)
  {
  }

  /** `String.contains`: `needle` occurs somewhere in `hay`. */
  predicate Contains(hay: string, needle: string)
    decreases |hay|
  {
    needle <= hay || (hay != [] && Contains(hay[1..], needle))
  }

  /** An occurrence at position `i` is enough for `Contains`. */
  lemma {:induction false} ContainsAt(hay: string, needle: string, i: nat)
    requires i + |needle| <= |hay| && hay[i..i + |needle|] == needle
    ensures Contains(hay, needle)
    decreases i
  {
    if i > 0 {
      assert hay[1..][i - 1..i - 1 + |needle|] == needle;
      ContainsAt(hay[1..], needle, i - 1);
    }
  }

  /** `Contains` holds only when some position carries an occurrence. */
  lemma {:induction false} ContainsWitness(hay: string, needle: string) returns (i: nat)
    requires Contains(hay, needle)
    ensures i + |needle| <= |hay| && hay[i..i + |needle|] == needle
    decreases |hay|
  {
    if needle <= hay {
      i := 0;
    } else {
      var j := ContainsWitness(hay[1..], needle);
      i := j + 1;
      assert hay[i..i + |needle|] == hay[1..][j..j + |needle|];
    }
  }

  /** A needle whose first character never occurs in the haystack is not contained in it. */
  lemma {:induction false} NotContainsFirstChar(hay: string, needle: string)
    requires needle != []
    requires forall i :: 0 <= i < |hay| ==> hay[i] != needle[0]
    ensures !Contains(hay, needle)
    decreases |hay|
  {
    if hay != [] {
      assert hay[0] != needle[0];
      assert !(needle <= hay);
      assert forall i :: 0 <= i < |hay[1..]| ==> hay[1..][i] == hay[i + 1];
      NotContainsFirstChar(hay[1..], needle);
    }
  }

  /** `String.startsWith`: `p` is a prefix of `s`. */
  predicate StartsWith(s: string, p: string) {
    |p| <= |s| && s[..|p|] == p
  }

  /** Length of the leading run of non-`\s` characters. */
  function TokenLength(s: string): (n: nat)
    ensures n <= |s|
    ensures forall i :: 0 <= i < n ==> !IsRegexSpace(s[i])
    ensures n == |s| || IsRegexSpace(s[n])
  {
    if s == [] || IsRegexSpace(s[0]) then 0 else 1 + TokenLength(s[1..])
  }

  predicate NoRegexSpace(w: string) {
    forall i :: 0 <= i < |w| ==> !IsRegexSpace(w[i])
  }

  /** The maximal runs of non-`\s` characters of `s`, in order. */
  function Words(s: string): (r: seq<string>)
    ensures forall k :: 0 <= k < |r| ==> r[k] != [] && NoRegexSpace(r[k])
    decreases |s|
  {
    if s == [] then []
    else if IsRegexSpace(s[0]) then Words(s[1..])
    else
      var n := TokenLength(s);
      [s[..n]] + Words(s[n..])
  }

  predicate AllRegexSpace(s: string) {
    forall i :: 0 <= i < |s| ==> IsRegexSpace(s[i])
  }

  /** A string made only of `\s` characters has no words, and any other string has at least one. */
  lemma {:induction false} WordsEmpty(s: string)
    ensures Words(s) == [] <==> AllRegexSpace(s)
    decreases |s|
  {
    if s != [] && IsRegexSpace(s[0]) {
      WordsEmpty(s[1..]);
      assert AllRegexSpace(s) <==> AllRegexSpace(s[1..]);
    }
  }

  /**
   * `String.split("\\s+")`: the pieces between runs of `\s`, with trailing empty pieces dropped,
   * a leading empty piece when the string starts with `\s`, and `[""]` for the empty string.
   */
  function Split(s: string): seq<string> {
    if s == [] then [""]
    else if Words(s) == [] then []
    else if IsRegexSpace(s[0]) then [""] + Words(s)
    else Words(s)
  }

  /** On a trimmed string `split` yields exactly its words, or `[""]` when the string is empty. */
  lemma SplitTrimmed(s: string)
    requires Trim(s) == s
    ensures s == [] ==> Split(s) == [""]
    ensures s != [] ==> Split(s) == Words(s) && |Words(s)| >= 1
  {
    if s != [] {
      TrimFixpoint(s);
      RegexSpaceIsTrimmable(s[0]);
      WordsEmpty(s);
      assert !AllRegexSpace(s) by { assert !IsRegexSpace(s[0]); }
    }
  }

  /** Two words joined by one space are already trimmed, and `split` gives back exactly the two. */
  lemma SplitTwoWords(a: string, b: string)
    requires a != [] && b != [] && NoRegexSpace(a) && NoRegexSpace(b)
    requires !IsTrimmable(a[0]) && !IsTrimmable(b[|b| - 1])
    ensures Trim(a + " " + b) == a + " " + b
    ensures Split(a + " " + b) == [a, b]
  {
    var s := a + " " + b;
    assert Trim(s) == s by {
      assert s[0] == a[0] && s[|s| - 1] == b[|b| - 1];
      TrimFixpoint(s);
    }
    SplitTrimmed(s);
    WordsOfTwoWords(a, b);
  }

  lemma WordsOfTwoWords(a: string, b: string)
    requires a != [] && b != [] && NoRegexSpace(a) && NoRegexSpace(b)
    ensures Words(a + " " + b) == [a, b]
  {
    var t := " " + b;
    assert Words(t) == [b] by {
      assert t[1..] == b && b + [] == b;
      WordsOfWordThenRest(b, []);
    }
    assert a + " " + b == a + t;
    WordsOfWordThenRest(a, t);
  }

  /** A space in front of a text makes no difference to `trim`. */
  lemma TrimLeadingSpace(s: string)
    ensures Trim(" " + s) == Trim(s)
  {
    assert (" " + s)[1..] == s;
    assert TrimLeft(" " + s) == TrimLeft(s);
  }

  /** Any number of spaces in front of a text make no difference to `trim`. */
  lemma {:induction false} LeadingSpaces(lead: string, s: string)
    requires forall i :: 0 <= i < |lead| ==> lead[i] == ' '
    ensures Trim(lead + s) == Trim(s)
    decreases |lead|
  {
    if lead != [] {
      var rest := lead[1..] + s;
      assert lead + s == " " + rest;
      TrimLeadingSpace(rest);
      assert forall i :: 0 <= i < |lead[1..]| ==> lead[1..][i] == ' ';
      LeadingSpaces(lead[1..], s);
      assert Trim(lead + s) == Trim(rest);
    } else {
      assert lead + s == s;
    }
  }

  /**
   * A word, then nothing or one space, then a trimmed non-empty text: the whole is trimmed, starts
   * with the word, and what follows the word trims to the text.
   */
  lemma WordGapText(p: string, gap: string, a: string)
    requires p != [] && !IsTrimmable(p[0]) && (gap == "" || gap == " ") && a != [] && Trim(a) == a
    ensures Trim(p + gap + a) == p + gap + a && StartsWith(p + gap + a, p)
    ensures (p + gap + a)[|p|..] == gap + a && Trim(gap + a) == a
  {
    var s := p + gap + a;
    assert Trim(s) == s by {
      TrimFixpoint(a);
      assert s[0] == p[0] && s[|s| - 1] == a[|a| - 1];
      TrimFixpoint(s);
    }
    assert StartsWith(s, p) && s[|p|..] == gap + a by {
      assert s == p + (gap + a);
      assert s[..|p|] == p;
    }
    assert Trim(gap + a) == a by {
      if gap == "" {
        assert gap + a == a;
      } else {
        TrimLeadingSpace(a);
      }
    }
  }

  /** A trimmed text that `split` cuts into one piece is that piece. */
  lemma OnePieceIsWhole(s: string)
    requires Trim(s) == s && |Split(s)| == 1
    ensures Split(s) == [s]
  {
    SplitTrimmed(s);
    if s != [] {
      TrimFixpoint(s);
      RegexSpaceIsTrimmable(s[0]);
      var n := TokenLength(s);
      assert Words(s) == [s[..n]] + Words(s[n..]);
      assert Words(s[n..]) == [];
      WordsEmpty(s[n..]);
      if n < |s| {
        assert s[n..][|s| - n - 1] == s[|s| - 1];
        RegexSpaceIsTrimmable(s[|s| - 1]);
        assert false;
      }
      assert s[..n] == s;
    }
  }

  /** A keyword in the sense of the search command: not empty, and no character at or below U+0020. */
  predicate IsPlainWord(w: string) {
    w != [] && forall i :: 0 <= i < |w| ==> !IsTrimmable(w[i])
  }

  /** The words joined by single spaces. */
  function Unwords(ws: seq<string>): (s: string)
    decreases |ws|
  {
    if |ws| == 0 then "" else if |ws| == 1 then ws[0] else ws[0] + " " + Unwords(ws[1..])
  }

  /**
   * Plain words joined by single spaces form a trimmed text whose words are exactly those words,
   * so `split` gives them back.
   */
  lemma UnwordsRoundTrip(ws: seq<string>)
    requires ws != [] && forall k :: 0 <= k < |ws| ==> IsPlainWord(ws[k])
    ensures Unwords(ws) != [] && Trim(Unwords(ws)) == Unwords(ws)
    ensures Words(Unwords(ws)) == ws && Split(Unwords(ws)) == ws
  {
    UnwordsEnds(ws);
    UnwordsWords(ws);
    TrimFixpoint(Unwords(ws));
    SplitTrimmed(Unwords(ws));
  }

  lemma PlainWordsTail(ws: seq<string>)
    requires ws != [] && forall k :: 0 <= k < |ws| ==> IsPlainWord(ws[k])
    ensures forall k :: 0 <= k < |ws[1..]| ==> IsPlainWord(ws[1..][k])
  {
    forall k | 0 <= k < |ws[1..]| ensures IsPlainWord(ws[1..][k]) { assert ws[1..][k] == ws[k + 1]; }
  }

  lemma PlainWordHasNoRegexSpace(w: string)
    requires IsPlainWord(w)
    ensures NoRegexSpace(w)
  {
    forall i | 0 <= i < |w| ensures !IsRegexSpace(w[i]) { RegexSpaceIsTrimmable(w[i]); }
  }

  lemma {:induction false} UnwordsEnds(ws: seq<string>)
    requires ws != [] && forall k :: 0 <= k < |ws| ==> IsPlainWord(ws[k])
    ensures Unwords(ws) != []
    ensures !IsTrimmable(Unwords(ws)[0]) && !IsTrimmable(Unwords(ws)[|Unwords(ws)| - 1])
    decreases |ws|
  {
    assert IsPlainWord(ws[0]);
    if |ws| > 1 {
      PlainWordsTail(ws);
      UnwordsEnds(ws[1..]);
      var rest := Unwords(ws[1..]);
      assert Unwords(ws) == ws[0] + " " + rest;
      assert Unwords(ws)[|Unwords(ws)| - 1] == rest[|rest| - 1];
    }
  }

  lemma {:induction false} UnwordsWords(ws: seq<string>)
    requires ws != [] && forall k :: 0 <= k < |ws| ==> IsPlainWord(ws[k])
    ensures Words(Unwords(ws)) == ws
    decreases |ws|
  {
    var w := ws[0];
    assert IsPlainWord(w);
    PlainWordHasNoRegexSpace(w);
    if |ws| == 1 {
      assert w + [] == w;
      WordsOfWordThenRest(w, []);
    } else {
      PlainWordsTail(ws);
      UnwordsWords(ws[1..]);
      var rest := Unwords(ws[1..]);
      assert Unwords(ws) == w + (" " + rest);
      WordsOfWordThenRest(w, " " + rest);
      assert (" " + rest)[1..] == rest;
      assert [w] + ws[1..] == ws;
    }
  }

  /** A non-empty run of ASCII digits is a word with no trimmable end. */
  lemma DigitsAreWord(s: string)
    requires s != [] && AllDigits(s)
    ensures NoRegexSpace(s) && !IsTrimmable(s[0]) && !IsTrimmable(s[|s| - 1])
  {
  }

  /** The first word of `s` is the characters after its leading `\s` run, up to the next `\s`. */
  lemma {:induction false} WordsOfWordThenRest(w: string, rest: string)
    requires w != [] && NoRegexSpace(w)
    requires rest == [] || IsRegexSpace(rest[0])
    ensures Words(w + rest) == [w] + Words(rest)
  {
    TokenLengthOfWord(w, rest);
    assert (w + rest)[..|w|] == w;
    assert (w + rest)[|w|..] == rest;
  }

  lemma {:induction false} TokenLengthOfWord(w: string, rest: string)
    requires NoRegexSpace(w)
    requires rest == [] || IsRegexSpace(rest[0])
    ensures TokenLength(w + rest) == |w|
    decreases |w|
  {
    if w != [] {
      assert (w + rest)[1..] == w[1..] + rest;
      TokenLengthOfWord(w[1..], rest);
    }
  }

  predicate IsAsciiDigit(c: char) {
    '0' <= c <= '9'
  }

  predicate AllDigits(s: string) {
    forall i :: 0 <= i < |s| ==> IsAsciiDigit(s[i])
  }

  function DigitValue(c: char): nat
    requires IsAsciiDigit(c)
  {
    c as int - '0' as int
  }

  function DigitChar(d: nat): (c: char)
    requires d < 10
    ensures IsAsciiDigit(c) && DigitValue(c) == d
  {
    ('0' as int + d) as char
  }

  function Pow10(k: nat): (r: nat)
    ensures r >= 1
  {
    if k == 0 then 1 else 10 * Pow10(k - 1)
  }

  /** The value of a string of decimal digits, leading zeros allowed. */
  function DigitsValue(s: string): nat
    requires AllDigits(s)
  {
    if s == [] then 0 else 10 * DigitsValue(s[..|s| - 1]) + DigitValue(s[|s| - 1])
  }

  /** The decimal digits of `n`, without leading zeros (`"0"` for zero). */
  function NatToDigits(n: nat): (r: string)
    ensures r != [] && AllDigits(r)
    ensures r[0] != '0' || n == 0
  {
    if n < 10 then [DigitChar(n)] else NatToDigits(n / 10) + [DigitChar(n % 10)]
  }

  lemma {:induction false} NatToDigitsValue(n: nat)
    ensures DigitsValue(NatToDigits(n)) == n
  {
    if n >= 10 {
      NatToDigitsValue(n / 10);
      var r := NatToDigits(n);
      assert r[..|r| - 1] == NatToDigits(n / 10);
    }
  }

  lemma {:induction false} DigitsValueConcat(a: string, b: string)
    requires AllDigits(a) && AllDigits(b)
    ensures AllDigits(a + b)
    ensures DigitsValue(a + b) == DigitsValue(a) * Pow10(|b|) + DigitsValue(b)
    decreases |b|
  {
    if b == [] {
      assert a + b == a;
    } else {
      var b' := b[..|b| - 1];
      var d := DigitValue(b[|b| - 1]);
      assert (a + b)[..|a + b| - 1] == a + b' && (a + b)[|a + b| - 1] == b[|b| - 1];
      DigitsValueConcat(a, b');
      var va, vb', p := DigitsValue(a), DigitsValue(b'), Pow10(|b'|);
      assert DigitsValue(a + b) == 10 * (va * p + vb') + d;
      assert Pow10(|b|) == 10 * p && DigitsValue(b) == 10 * vb' + d;
      ShiftDigit(va, vb', p, d);
    }
  }

  lemma ShiftDigit(va: int, vb: int, p: int, d: int)
    ensures 10 * (va * p + vb) + d == va * (10 * p) + (10 * vb + d)
  {
  }

  function Zeros(k: nat): (r: string)
    ensures |r| == k && AllDigits(r)
    ensures forall i :: 0 <= i < k ==> r[i] == '0'
  {
    if k == 0 then [] else Zeros(k - 1) + ['0']
  }

  lemma {:induction false} ZerosValue(k: nat)
    ensures DigitsValue(Zeros(k)) == 0
  {
    if k > 0 {
      assert Zeros(k)[..k - 1] == Zeros(k - 1);
      ZerosValue(k - 1);
    }
  }

  /** Zeros in front of a digit string leave its value unchanged. */
  lemma ZerosPrefixValue(k: nat, s: string)
    requires AllDigits(s)
    ensures AllDigits(Zeros(k) + s) && DigitsValue(Zeros(k) + s) == DigitsValue(s)
  {
    var z := Zeros(k);
    DigitsValueConcat(z, s);
    ZerosValue(k);
    var p := Pow10(|s|);
    assert DigitsValue(z) * p == 0;
  }

  /** `String.hashCode`: the polynomial hash in base 31, kept in 32 bits as Java's `int` arithmetic does. */
  function HashCode(s: string): (h: int)
    ensures 0 <= h < 0x1_0000_0000
  {
    if s == [] then 0 else (31 * HashCode(s[..|s| - 1]) + s[|s| - 1] as int) % 0x1_0000_0000
  }
}
