/** The handful of Python `str` operations the processor relies on, over
    `seq<char>`: lower(), replace() of one character, strip(), isdigit(),
    title(), str() of an integer, endswith() and the ordering `<` of strings.
    Letter case is that of ASCII; other characters have no case here. */
module Text {

  predicate IsUpper(c: char) { 'A' <= c <= 'Z' }

  predicate IsLower(c: char) { 'a' <= c <= 'z' }

  /** A character that has a case: the only kind `title()` capitalises. */
  predicate IsCased(c: char) { IsUpper(c) || IsLower(c) }

  function ToLower(c: char): char
  {
    if IsUpper(c) then (c as int + 32) as char else c
  }

  function ToUpper(c: char): char
  {
    if IsLower(c) then (c as int - 32) as char else c
  }

  /** `s.lower()` */
  function Lower(s: string): string
  {
    seq(|s|, i requires 0 <= i < |s| => ToLower(s[i]))
  }

  /** `s.replace(a, b)` for one-character `a` and `b` */
  function Replace(s: string, a: char, b: char): string
  {
    seq(|s|, i requires 0 <= i < |s| => if s[i] == a then b else s[i])
  }

  /** Lower-casing leaves no upper-case letter, so doing it twice is doing it
      once, and it changes only upper-case letters. */
  lemma LowerFacts(s: string)
    ensures |Lower(s)| == |s| && Lower(Lower(s)) == Lower(s)
    ensures forall i :: 0 <= i < |s| ==> !IsUpper(Lower(s)[i]) && (Lower(s)[i] != s[i] ==> IsUpper(s[i]))
  {
  }

  /** Replacing `a` by `b` leaves no `a` behind, and when `b` did not occur,
      replacing `b` back by `a` gives the original. */
  lemma ReplaceRoundTrip(s: string, a: char, b: char)
    requires a != b
    ensures |Replace(s, a, b)| == |s| && a !in Replace(s, a, b)
    ensures b !in s ==> Replace(Replace(s, a, b), b, a) == s
  {
    var r := Replace(s, a, b);
    if b !in s {
      forall i | 0 <= i < |s| ensures Replace(r, b, a)[i] == s[i] {
        assert s[i] in s;
      }
    }
  }

  /** The characters Python's `str.isspace()` accepts, which `strip()` removes. */
  predicate IsSpace(c: char)
  {
    || c == ' '
    || '\t' <= c <= '\r'
    || '\U{1C}' <= c <= '\U{1F}'
    || c == '\U{85}' || c == '\U{A0}' || c == '\U{1680}'
    || '\U{2000}' <= c <= '\U{200A}'
    || c == '\U{2028}' || c == '\U{2029}' || c == '\U{202F}'
    || c == '\U{205F}' || c == '\U{3000}'
  }

  /** `s.lstrip()`: drops the leading whitespace and nothing else. */
  function StripLeft(s: string): (r: string)
    ensures |r| <= |s| && r == s[|s| - |r|..]
    ensures forall k :: 0 <= k < |s| - |r| ==> IsSpace(s[k])
    ensures r != [] ==> !IsSpace(r[0])
  {
    if s != [] && IsSpace(s[0]) then
      var r := StripLeft(s[1..]);
      assert s[|s| - |r|..] == s[1..][|s| - 1 - |r|..];
      assert forall k :: 1 <= k < |s| - |r| ==> s[k] == s[1..][k - 1];
      r
    else s
  }

  /** `s.rstrip()`: drops the trailing whitespace and nothing else. */
  function StripRight(s: string): (r: string)
    ensures |r| <= |s| && r == s[..|r|]
    ensures forall k :: |r| <= k < |s| ==> IsSpace(s[k])
    ensures r != [] ==> !IsSpace(r[|r| - 1])
  {
    if s != [] && IsSpace(s[|s| - 1]) then StripRight(s[..|s| - 1]) else s
  }

  /** `s.strip()`: the longest infix that neither starts nor ends with whitespace. */
  function Strip(s: string): (r: string)
    ensures exists i :: TrimmedAt(s, r, i)
    ensures r != [] ==> !IsSpace(r[0]) && !IsSpace(r[|r| - 1])
  {
    var l := StripLeft(s);
    var r := StripRight(l);
    TrimmedOfParts(s, l, r);
    r
  }

  /** Dropping leading whitespace and then trailing whitespace leaves an infix
      with only whitespace around it. */
  lemma TrimmedOfParts(s: string, l: string, r: string)
    requires |l| <= |s| && l == s[|s| - |l|..]
    requires forall k :: 0 <= k < |s| - |l| ==> IsSpace(s[k])
    requires |r| <= |l| && r == l[..|r|]
    requires forall k :: |r| <= k < |l| ==> IsSpace(l[k])
    ensures TrimmedAt(s, r, |s| - |l|)
  {
    var i := |s| - |l|;
    assert r == s[i..i + |r|];
    forall k | i + |r| <= k < |s| ensures IsSpace(s[k]) {
      assert s[k] == l[k - i];
    }
  }

  /** `r` is the part of `s` that starts at `i`, and only whitespace of `s`
      lies before and after it. */
  predicate TrimmedAt(s: string, r: string, i: int)
  {
    && 0 <= i <= |s| - |r| && r == s[i..i + |r|]
    && (forall k :: 0 <= k < i ==> IsSpace(s[k]))
    && (forall k :: i + |r| <= k < |s| ==> IsSpace(s[k]))
  }

  /** No ASCII upper-case letter and no blank: the shape of a normalised label. */
  predicate Lowered(s: string)
  {
    forall c :: c in s ==> !IsUpper(c) && c != ' '
  }

  predicate IsDigitChar(c: char) { '0' <= c <= '9' }

  /** `s.isdigit()`: non-empty and made of decimal digits only. */
  predicate IsDigits(s: string)
  {
    |s| > 0 && forall i :: 0 <= i < |s| ==> IsDigitChar(s[i])
  }

  function Digit(d: nat): (c: char)
    requires d < 10
    ensures IsDigitChar(c)
  {
    ('0' as int + d) as char
  }

  /** `str(n)` for a natural number: its decimal digits, no leading zero. */
  function NatString(n: nat): (s: string)
    ensures IsDigits(s)
    ensures |s| > 1 ==> s[0] != '0'
    decreases n
  {
    if n < 10 then [Digit(n)] else NatString(n / 10) + [Digit(n % 10)]
  }

  /** `str(n)` for an integer: a minus sign before the digits of a negative one,
      so that exactly the non-negative integers render as all digits. */
  function IntString(n: int): (s: string)
    ensures IsDigits(s) <==> n >= 0
    ensures n < 0 ==> |s| > 0 && s[0] == '-'
  {
    if n < 0 then
      var s := "-" + NatString(-n);
      assert !IsDigitChar(s[0]);
      s
    else NatString(n)
  }

  /** `s.endswith(suffix)` */
  predicate EndsWith(s: string, suffix: string)
  {
    |suffix| <= |s| && s[|s| - |suffix|..] == suffix
  }

  /** `title()` of `s` when the character before it was (`prevCased`) or was not
      a cased character. */
  function TitleFrom(s: string, prevCased: bool): (r: string)
    ensures |r| == |s|
  {
    if s == [] then []
    else [if prevCased then ToLower(s[0]) else ToUpper(s[0])] + TitleFrom(s[1..], IsCased(s[0]))
  }

  /** `s.title()`: every cased character that follows an uncased one (or starts
      the string) is upper-cased, every other cased character lower-cased. */
  function Title(s: string): (r: string)
    ensures |r| == |s|
  {
    TitleFrom(s, false)
  }

  /** Character `i` of `TitleFrom(s, p)` depends only on `s[i]` and on whether
      the character before it is cased. */
  lemma {:induction false} TitleFromAt(s: string, p: bool, i: nat)
    requires i < |s|
    ensures TitleFrom(s, p)[i]
         == if (if i == 0 then p else IsCased(s[i - 1])) then ToLower(s[i]) else ToUpper(s[i])
  {
    if i > 0 {
      TitleFromAt(s[1..], IsCased(s[0]), i - 1);
    }
  }

  /** What `title()` promises: a letter that starts a word becomes upper-case, a
      letter inside a word lower-case, and every other character is kept. */
  lemma TitleAt(s: string, i: nat)
    requires i < |s|
    ensures IsCased(s[i]) && (i == 0 || !IsCased(s[i - 1])) ==> IsUpper(Title(s)[i])
    ensures IsCased(s[i]) && i > 0 && IsCased(s[i - 1]) ==> IsLower(Title(s)[i])
    ensures !IsCased(s[i]) ==> Title(s)[i] == s[i]
    ensures ToLower(Title(s)[i]) == ToLower(s[i])
  {
    TitleFromAt(s, false, i);
  }

  /** `title()` only changes case: lower-casing undoes it. */
  lemma TitleKeepsLetters(s: string)
    ensures Lower(Title(s)) == Lower(s)
  {
    forall i | 0 <= i < |s|
      ensures Lower(Title(s))[i] == Lower(s)[i]
    {
      TitleAt(s, i);
    }
  }

  /** Python's `a < b` on strings: code-point order, a proper prefix first. */
  predicate LexLess(a: string, b: string)
    decreases |a|
  {
    |b| > 0 && (|a| == 0 || a[0] < b[0] || (a[0] == b[0] && LexLess(a[1..], b[1..])))
  }

  lemma {:induction false} LexIrreflexive(a: string)
    ensures !LexLess(a, a)
    decreases |a|
  {
    if |a| > 0 {
      LexIrreflexive(a[1..]);
    }
  }

  /** String order is a strict total order: of two different strings exactly
      one is less than the other. */
  lemma {:induction false} LexTotal(a: string, b: string)
    ensures a != b <==> LexLess(a, b) || LexLess(b, a)
    ensures !(LexLess(a, b) && LexLess(b, a))
    decreases |a|
  {
    if a == b {
      LexIrreflexive(a);
    } else if |a| > 0 && |b| > 0 {
      LexTotal(a[1..], b[1..]);
    }
  }

  /** String order is transitive. */
  lemma {:induction false} LexTransitive(a: string, b: string, c: string)
    requires LexLess(a, b) && LexLess(b, c)
    ensures LexLess(a, c)
    decreases |a|
  {
    if |a| > 0 && a[0] == b[0] && b[0] == c[0] {
      LexTransitive(a[1..], b[1..], c[1..]);
    }
  }

  /** Comparing two equal-length strings extended by one character each. */
  lemma {:induction false} LexSnoc(a: string, b: string, x: char, y: char)
    requires |a| == |b|
    ensures LexLess(a + [x], b + [y]) <==> LexLess(a, b) || (a == b && x < y)
    decreases |a|
  {
    if |a| == 0 {
      assert a == b;
    } else {
      assert (a + [x])[1..] == a[1..] + [x];
      assert (b + [y])[1..] == b[1..] + [y];
      LexSnoc(a[1..], b[1..], x, y);
      if a[0] == b[0] && a[1..] == b[1..] {
        assert a == [a[0]] + a[1..] && b == [b[0]] + b[1..];
      }
    }
  }

  /** Two strings that start with different prefixes of one length compare as
      those prefixes do, whatever follows. */
  lemma {:induction false} LexPrefixDecides(a: string, b: string, s: string, t: string)
    requires |a| == |b| && a != b
    ensures LexLess(a + s, b + t) <==> LexLess(a, b)
    decreases |a|
  {
    assert |a| > 0;
    if a[0] == b[0] {
      assert a == [a[0]] + a[1..] && b == [b[0]] + b[1..];
      assert (a + s)[1..] == a[1..] + s;
      assert (b + t)[1..] == b[1..] + t;
      LexPrefixDecides(a[1..], b[1..], s, t);
    }
  }
}
