/** String helpers the probes' output relies on: Python's `str()` of an
    integer, `str.replace(pat, '')`, and reading a line back field by field
    the way a collector does. */
module Text {
  import opened Wrappers

  predicate IsDigit(c: char) {
    '0' <= c <= '9'
  }

  predicate AllDigits(s: string) {
    forall i :: 0 <= i < |s| ==> IsDigit(s[i])
  }

  function DigitChar(d: nat): (c: char)
    requires d < 10
    ensures IsDigit(c)
  {
    (d + '0' as int) as char
  }

  function DigitValue(c: char): (d: nat)
    requires IsDigit(c)
    ensures d < 10
  {
    (c as int) - ('0' as int)
  }

  /** Decimal rendering of a natural number, most significant digit first. */
  function NatToString(n: nat): (s: string)
    ensures |s| > 0 && AllDigits(s) && ' ' !in s
    ensures n < 10 ==> |s| == 1
    decreases n
  {
    if n < 10 then [DigitChar(n)] else NatToString(n / 10) + [DigitChar(n % 10)]
  }

  /** Python's `str()` of an int: a minus sign, then the digits of the magnitude. */
  function IntToString(i: int): (s: string)
    ensures |s| > 0 && ' ' !in s
  {
    if i < 0 then "-" + NatToString(-i) else NatToString(i)
  }

  function DigitsValue(s: string): nat
    requires AllDigits(s)
  {
    if |s| == 0 then 0 else DigitsValue(s[..|s| - 1]) * 10 + DigitValue(s[|s| - 1])
  }

  /** Reads an unsigned decimal; fails on the empty string and on any non-digit. */
  function ParseNat(s: string): (r: Option<nat>)
    ensures r.Some? <==> |s| > 0 && AllDigits(s)
  {
    if |s| > 0 && AllDigits(s) then Some(DigitsValue(s)) else None
  }

  /** Reads an optionally negative decimal, as Python's `int()` of `str()` output. */
  function ParseInt(s: string): Option<int> {
    if |s| > 0 && s[0] == '-' then
      match ParseNat(s[1..])
      case Some(n) => if n == 0 then None else Some(0 - n)
      case None => None
    else
      match ParseNat(s)
      case Some(n) => Some(n)
      case None => None
  }

  /** Rendering a natural number and reading it back gives the number. */
  lemma {:induction false} ParseNatToString(n: nat)
    ensures ParseNat(NatToString(n)) == Some(n)
    decreases n
  {
    var s := NatToString(n);
    if n < 10 {
      assert DigitsValue(s) == DigitsValue(s[..0]) * 10 + DigitValue(s[0]);
    } else {
      ParseNatToString(n / 10);
      var p := NatToString(n / 10);
      assert s == p + [DigitChar(n % 10)];
      assert s[..|s| - 1] == p;
      assert DigitsValue(s) == DigitsValue(p) * 10 + n % 10;
    }
  }

  /** `str()` of an int reads back as the same int, negative ones included. */
  lemma ParseIntToString(i: int)
    ensures ParseInt(IntToString(i)) == Some(i)
  {
    if i < 0 {
      ParseNatToString(-i);
      assert IntToString(i)[1..] == NatToString(-i);
    } else {
      ParseNatToString(i);
    }
  }

  /** Every character of `s` except occurrences of `c`, in order. */
  function Without(s: string, c: char): (r: string)
    ensures c !in r
    ensures |r| <= |s|
  {
    if |s| == 0 then "" else (if s[0] == c then "" else [s[0]]) + Without(s[1..], c)
  }

  predicate EndsWith(s: string, suffix: string) {
    |suffix| <= |s| && s[|s| - |suffix|..] == suffix
  }

  lemma EndsWithAppend(a: string, b: string)
    ensures EndsWith(a + b, b)
  {
  }

  lemma EndsWithTrans(s: string, t: string, u: string)
    requires EndsWith(s, t) && EndsWith(t, u)
    ensures EndsWith(s, u)
  {
  }

  /** Whether `pat` occurs somewhere in `s`. */
  predicate Contains(s: string, pat: string) {
    pat <= s || (|s| > 0 && Contains(s[1..], pat))
  }

  /** Python's `s.replace(pat, '')`: scan left to right and drop every
      non-overlapping occurrence of `pat`. */
  function RemoveAll(s: string, pat: string): (r: string)
    requires |pat| > 0
    ensures |r| <= |s|
    decreases |s|
  {
    if |s| == 0 then ""
    else if pat <= s then RemoveAll(s[|pat|..], pat)
    else [s[0]] + RemoveAll(s[1..], pat)
  }

  /** Removing a one-character pattern deletes exactly that character and keeps
      every other one in order. */
  lemma {:induction false} RemoveAllChar(s: string, c: char)
    ensures RemoveAll(s, [c]) == Without(s, c)
    ensures c !in RemoveAll(s, [c])
  {
    if |s| > 0 {
      RemoveAllChar(s[1..], c);
      if [c] <= s {
        assert s[0] == c;
      } else {
        assert s[0] != c;
      }
    }
  }

  /** A string that does not contain the pattern comes back unchanged. */
  lemma {:induction false} RemoveAllAbsent(s: string, pat: string)
    requires |pat| > 0
    requires !Contains(s, pat)
    ensures RemoveAll(s, pat) == s
    decreases |s|
  {
    if |s| > 0 {
      RemoveAllAbsent(s[1..], pat);
      assert [s[0]] + s[1..] == s;
    }
  }

  /** A leading occurrence of the pattern is dropped and scanning resumes after it. */
  lemma RemoveAllLeading(pat: string, rest: string)
    requires |pat| > 0
    ensures RemoveAll(pat + rest, pat) == RemoveAll(rest, pat)
  {
  }

  /** A string shorter than the pattern cannot contain it. */
  lemma {:induction false} ShortAbsent(s: string, pat: string)
    requires |s| < |pat|
    ensures !Contains(s, pat)
    decreases |s|
  {
    if |s| > 0 {
      ShortAbsent(s[1..], pat);
    }
  }

  /** Removal is a single left-to-right pass: an occurrence that only forms once
      another has been cut out is kept. */
  lemma SinglePass(pat: string)
    requires |pat| > 0
    requires !(pat <= [pat[0]] + pat)
    ensures RemoveAll([pat[0]] + pat + pat[1..], pat) == pat
  {
    var rest := pat + pat[1..];
    assert !(pat <= [pat[0]] + rest) by {
      assert ([pat[0]] + rest)[..|pat|] == ([pat[0]] + pat)[..|pat|];
    }
    assert RemoveAll([pat[0]] + rest, pat) == [pat[0]] + RemoveAll(rest, pat) by {
      assert ([pat[0]] + rest)[1..] == rest;
    }
    assert RemoveAll(rest, pat) == pat[1..] by {
      RemoveAllLeading(pat, pat[1..]);
      ShortAbsent(pat[1..], pat);
      RemoveAllAbsent(pat[1..], pat);
    }
    assert [pat[0]] + pat + pat[1..] == [pat[0]] + rest;
    assert [pat[0]] + pat[1..] == pat;
  }

  /** With the `https://` pattern, the endpoint `hhttps://ttps://` comes back
      as `https://`, as Python's `replace` returns it. */
  lemma SinglePassScheme()
    ensures RemoveAll("hhttps://ttps://", "https://") == "https://"
  {
    var pat := "https://";
    assert ([pat[0]] + pat)[1] != pat[1];
    SinglePass(pat);
    assert [pat[0]] + pat + pat[1..] == "hhttps://ttps://";
  }

  /** The characters before the first space: the first field of a report line. */
  function FirstField(s: string): (f: string)
    ensures ' ' !in f
    ensures f <= s
  {
    if |s| == 0 || s[0] == ' ' then "" else [s[0]] + FirstField(s[1..])
  }

  /** The characters after the last space: the last field of a report line. */
  function LastField(s: string): (f: string)
    ensures ' ' !in f
    ensures |f| <= |s| && f == s[|s| - |f|..]
  {
    if |s| == 0 || s[|s| - 1] == ' ' then "" else LastField(s[..|s| - 1]) + [s[|s| - 1]]
  }

  lemma {:induction false} FirstFieldOf(a: string, b: string)
    requires ' ' !in a
    ensures FirstField(a + " " + b) == a
    decreases |a|
  {
    if |a| > 0 {
      FirstFieldOf(a[1..], b);
      assert (a + " " + b)[1..] == a[1..] + " " + b;
    }
  }

  lemma {:induction false} LastFieldOf(a: string, b: string)
    requires ' ' !in b
    ensures LastField(a + " " + b) == b
    decreases |b|
  {
    var s := a + " " + b;
    if |b| > 0 {
      var b' := b[..|b| - 1];
      LastFieldOf(a, b');
      assert s[..|s| - 1] == a + " " + b';
      assert s[|s| - 1] == b[|b| - 1] != ' ';
      assert LastField(s) == LastField(a + " " + b') + [b[|b| - 1]];
      assert b' + [b[|b| - 1]] == b;
    } else {
      assert s[|s| - 1] == ' ';
    }
  }
}
