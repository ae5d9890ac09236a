/** The string operations the scripts rely on: `str.lower`, the `in` substring test,
    `str.replace`, `", ".join` and decimal formatting of counts. */
module Strings {

  /** ASCII lower-casing of one character. */
  function LowerChar(c: char): char {
    if 'A' <= c <= 'Z' then (c as int + 32) as char else c
  }

  /** `s.lower()`, restricted to the ASCII letters. */
  function Lower(s: string): (r: string)
    ensures |r| == |s|
  {
    seq(|s|, i requires 0 <= i < |s| => LowerChar(s[i]))
  }

  lemma LowerAppend(a: string, b: string)
    ensures Lower(a + b) == Lower(a) + Lower(b)
  {
    assert forall i :: 0 <= i < |a| + |b| ==> Lower(a + b)[i] == (Lower(a) + Lower(b))[i];
  }

  lemma LowerAppend3(a: string, b: string, c: string)
    ensures Lower(a + b + c) == Lower(a) + (Lower(b) + Lower(c))
  {
    LowerAppend(a + b, c);
    LowerAppend(a, b);
  }

  /** Python's `pat in s` for strings: `pat` occurs as a contiguous block of `s`. */
  predicate Contains(s: string, pat: string) {
    |pat| <= |s| && (pat <= s || Contains(s[1..], pat))
  }

  /** An occurrence at a known position is an occurrence. */
  lemma {:induction false} ContainsAt(s: string, pat: string, i: nat)
    requires i + |pat| <= |s| && s[i..i + |pat|] == pat
    ensures Contains(s, pat)
  {
    if i > 0 {
      assert s[1..][i - 1..i - 1 + |pat|] == s[i..i + |pat|];
      ContainsAt(s[1..], pat, i - 1);
    }
  }

  /** Every occurrence has a position: the converse of ContainsAt. */
  lemma {:induction false} ContainsHasPosition(s: string, pat: string) returns (i: nat)
    requires Contains(s, pat)
    ensures i + |pat| <= |s| && s[i..i + |pat|] == pat
  {
    if pat <= s {
      i := 0;
    } else {
      var k := ContainsHasPosition(s[1..], pat);
      i := k + 1;
      assert s[i..i + |pat|] == s[1..][k..k + |pat|];
    }
  }

  /** What a part contains, the whole contains. */
  lemma ContainsWithin(a: string, b: string, c: string, pat: string)
    requires Contains(b, pat)
    ensures Contains(a + b + c, pat)
  {
    var i := ContainsHasPosition(b, pat);
    var s := a + b + c;
    assert s[|a| + i..|a| + i + |pat|] == b[i..i + |pat|];
    ContainsAt(s, pat, |a| + i);
  }

  /** A non-empty pattern whose first character never occurs in `s` does not occur in `s`. */
  lemma {:induction false} ContainsNeedsFirst(s: string, pat: string)
    requires |pat| > 0 && pat[0] !in s
    ensures !Contains(s, pat)
  {
    if |pat| <= |s| {
      assert s[0] in s;
      ContainsNeedsFirst(s[1..], pat);
    }
  }

  /** A prefix free of the pattern's first character can be skipped. */
  lemma {:induction false} ContainsSkip(a: string, b: string, pat: string)
    requires |pat| > 0 && pat[0] !in a
    ensures Contains(a + b, pat) <==> Contains(b, pat)
  {
    if a == [] {
      assert a + b == b;
    } else {
      assert a[0] in a;
      assert (a + b)[1..] == a[1..] + b;
      ContainsSkip(a[1..], b, pat);
    }
  }

  /** An occurrence cannot start at a character that begins the pattern but is followed
      by the wrong one, nor anywhere the pattern's first character is absent. */
  lemma NotContainsAfterFalseStart(a: string, b: string, c: string, pat: string)
    requires |pat| >= 2 && |b| >= 2
    requires pat[0] !in a && pat[0] !in c
    requires b[0] == pat[0] && b[1] != pat[1] && pat[0] !in b[1..]
    ensures !Contains(a + (b + c), pat)
  {
    var t := b + c;
    ContainsNeedsFirst(c, pat);
    ContainsSkip(b[1..], c, pat);
    assert t[1..] == b[1..] + c;
    FalseStart(t, pat);
    ContainsSkip(a, t, pat);
  }

  lemma FalseStart(t: string, pat: string)
    requires |pat| >= 2 && |t| >= 2 && t[1] != pat[1] && !Contains(t[1..], pat)
    ensures !Contains(t, pat)
  {
  }

  /** Python's `s.replace(old, new)` for single characters. */
  function ReplaceChar(s: string, from: char, to: char): (r: string)
    ensures |r| == |s|
    ensures from != to ==> from !in r
    ensures forall i :: 0 <= i < |s| ==> r[i] == (if s[i] == from then to else s[i])
  {
    if s == [] then [] else [if s[0] == from then to else s[0]] + ReplaceChar(s[1..], from, to)
  }

  /** Python's `s.replace(pat, "")`: every non-overlapping occurrence of `pat`,
      scanned from the left, is removed. */
  function RemoveAll(s: string, pat: string): (r: string)
    requires |pat| > 0
    ensures |r| <= |s|
    decreases |s|
  {
    if |s| < |pat| then s
    else if pat <= s then RemoveAll(s[|pat|..], pat)
    else [s[0]] + RemoveAll(s[1..], pat)
  }

  /** A suffix `pat` is stripped from a stem that cannot start an occurrence. */
  lemma {:induction false} RemoveAllSuffix(stem: string, pat: string)
    requires |pat| > 0 && pat[0] !in stem
    ensures RemoveAll(stem + pat, pat) == stem
  {
    if stem == [] {
      assert pat[|pat|..] == [];
    } else {
      assert stem[0] in stem;
      assert (stem + pat)[0] == stem[0] != pat[0];
      assert (stem + pat)[1..] == stem[1..] + pat;
      RemoveAllSuffix(stem[1..], pat);
    }
  }

  /** `sep.join(parts)`. */
  function Join(parts: seq<string>, sep: string): string {
    if parts == [] then ""
    else if |parts| == 1 then parts[0]
    else parts[0] + sep + Join(parts[1..], sep)
  }

  /** Every part of a join occurs in the joined string. */
  lemma {:induction false} JoinContains(parts: seq<string>, sep: string, k: nat)
    requires k < |parts|
    ensures Contains(Join(parts, sep), parts[k])
  {
    var s := Join(parts, sep);
    if |parts| == 1 {
      ContainsAt(s, parts[0], 0);
    } else if k == 0 {
      assert s[0..|parts[0]|] == parts[0];
      ContainsAt(s, parts[0], 0);
    } else {
      JoinContains(parts[1..], sep, k - 1);
      var rest := Join(parts[1..], sep);
      var j := ContainsHasPosition(rest, parts[k]);
      var off := |parts[0] + sep|;
      assert s == (parts[0] + sep) + rest;
      assert s[off + j..off + j + |parts[k]|] == rest[j..j + |parts[k]|];
      ContainsAt(s, parts[k], off + j);
    }
  }

  predicate IsDigit(c: char) {
    '0' <= c <= '9'
  }

  function DigitChar(d: nat): (c: char)
    requires d < 10
    ensures IsDigit(c)
  {
    ('0' as int + d) as char
  }

  /** Decimal rendering of a count, as an f-string renders a Python or NumPy integer. */
  function NatToString(n: nat): (s: string)
    ensures |s| > 0
    ensures forall i :: 0 <= i < |s| ==> IsDigit(s[i])
  {
    if n < 10 then [DigitChar(n)] else NatToString(n / 10) + [DigitChar(n % 10)]
  }

  /** The value of a string of decimal digits. */
  function ParseDecimal(s: string): nat
    requires forall i :: 0 <= i < |s| ==> IsDigit(s[i])
  {
    if s == [] then 0
    else
      assert IsDigit(s[|s| - 1]);
      ParseDecimal(s[..|s| - 1]) * 10 + (s[|s| - 1] as int - '0' as int)
  }

  /** The decimal rendering loses nothing: reading it back gives the count. */
  lemma {:induction false} NatToStringRoundTrip(n: nat)
    ensures ParseDecimal(NatToString(n)) == n
  {
    if n >= 10 {
      var s := NatToString(n);
      assert s[..|s| - 1] == NatToString(n / 10);
      NatToStringRoundTrip(n / 10);
    }
  }

  /** Hence distinct counts render as distinct strings. */
  lemma NatToStringInjective(m: nat, n: nat)
    requires NatToString(m) == NatToString(n)
    ensures m == n
  {
    NatToStringRoundTrip(m);
    NatToStringRoundTrip(n);
  }
}
