/**
 * Text helpers shared by the modules: decimal rendering of integers (JavaScript `'' + n`,
 * C# interpolation of an `int`), clamped prefixes (`substr`/`substring`), padding, and
 * per-character replacement (`String.Replace` with a one-character pattern).
 */
module Text {

  /** The decimal digit for 0 <= d < 10. */
  function DigitChar(d: nat): (c: char)
    requires d < 10
    ensures '0' <= c <= '9'
    ensures c as int - '0' as int == d
  {
    "0123456789"[d]
  }

  /** Decimal text of a natural number, most significant digit first, no leading zeros. */
  function NatToString(n: nat): (s: string)
    ensures |s| >= 1
    ensures '0' <= s[0] <= '9'
    decreases n
  {
    if n < 10 then [DigitChar(n)] else NatToString(n / 10) + [DigitChar(n % 10)]
  }

  /** Every character of `s` is a decimal digit. */
  predicate AllDigits(s: string)
  {
    forall i :: 0 <= i < |s| ==> '0' <= s[i] <= '9'
  }

  /** The text NatToString produces is all digits, with no leading zero. */
  lemma {:induction false} NatToStringDigits(n: nat)
    ensures AllDigits(NatToString(n))
    ensures |NatToString(n)| > 1 ==> NatToString(n)[0] != '0'
    decreases n
  {
    if n >= 10 {
      NatToStringDigits(n / 10);
    }
  }

  /** Decimal text of an integer: a leading '-' for negative numbers. */
  function IntToString(i: int): (s: string)
    ensures |s| >= 1
    ensures (i < 0) == (s[0] == '-')
  {
    if i < 0 then "-" + NatToString(-i) else NatToString(i)
  }

  /** Value of a nonempty run of decimal digits; the inverse of NatToString. */
  function ParseNat(s: string): nat
    requires AllDigits(s)
    decreases |s|
  {
    if |s| == 0 then 0 else ParseNat(s[..|s| - 1]) * 10 + (s[|s| - 1] as int - '0' as int)
  }

  /** Digits, optionally after a leading '-': the shape of the text IntToString produces. */
  predicate IntText(s: string)
  {
    |s| >= 1 && AllDigits(if s[0] == '-' then s[1..] else s)
  }

  /** Value of the text IntToString produces: the inverse of IntToString. */
  function ParseInt(s: string): int
    requires IntText(s)
  {
    if s[0] == '-' then 0 - ParseNat(s[1..]) else ParseNat(s)
  }

  lemma {:induction false} ParseNatToString(n: nat)
    ensures AllDigits(NatToString(n)) && ParseNat(NatToString(n)) == n
    decreases n
  {
    NatToStringDigits(n);
    if n >= 10 {
      var s := NatToString(n);
      ParseNatToString(n / 10);
      assert s[..|s| - 1] == NatToString(n / 10);
    }
  }

  /** Decimal rendering loses nothing: the integer can be read back from its text. */
  lemma IntToStringRoundTrip(i: int)
    ensures IntText(IntToString(i))
    ensures ParseInt(IntToString(i)) == i
  {
    var s := IntToString(i);
    if i < 0 {
      ParseNatToString(-i);
      assert s == "-" + NatToString(-i);
      assert s[1..] == NatToString(-i);
      assert ParseInt(s) == 0 - ParseNat(NatToString(-i));
    } else {
      ParseNatToString(i);
      assert s == NatToString(i);
      assert ParseInt(s) == ParseNat(NatToString(i));
    }
  }

  /** Different integers render as different texts. */
  lemma IntToStringInjective(i: int, j: int)
    requires IntToString(i) == IntToString(j)
    ensures i == j
  {
    IntToStringRoundTrip(i);
    IntToStringRoundTrip(j);
  }

  /** `n` copies of `c` (C# `new string(c, n)`). */
  function Repeat(c: char, n: nat): (s: string)
    ensures |s| == n
    ensures forall i :: 0 <= i < n ==> s[i] == c
  {
    seq(n, _ => c)
  }

  /** The first `n` characters, with `n` clamped into [0, |s|] (JavaScript `substr(0, n)` and `substring(0, n)`). */
  function Prefix(s: string, n: int): (p: string)
    ensures |p| == if n < 0 then 0 else if n > |s| then |s| else n
    ensures p <= s
  {
    if n < 0 then [] else if n > |s| then s else s[..n]
  }

  /** Every occurrence of the character `c` replaced by `rep`, left to right. */
  function ReplaceChar(s: string, c: char, rep: string): (r: string)
    decreases |s|
  {
    if |s| == 0 then [] else (if s[0] == c then rep else [s[0]]) + ReplaceChar(s[1..], c, rep)
  }

  lemma {:induction false} ReplaceCharAppend(s: string, t: string, c: char, rep: string)
    ensures ReplaceChar(s + t, c, rep) == ReplaceChar(s, c, rep) + ReplaceChar(t, c, rep)
    decreases |s|
  {
    if |s| == 0 {
      assert s + t == t;
    } else {
      var head := if s[0] == c then rep else [s[0]];
      assert (s + t)[0] == s[0] && (s + t)[1..] == s[1..] + t;
      ReplaceCharAppend(s[1..], t, c, rep);
      calc {
        ReplaceChar(s + t, c, rep);
        head + ReplaceChar(s[1..] + t, c, rep);
        head + (ReplaceChar(s[1..], c, rep) + ReplaceChar(t, c, rep));
        (head + ReplaceChar(s[1..], c, rep)) + ReplaceChar(t, c, rep);
      }
    }
  }

  /** A text without `c` is left as it is. */
  lemma {:induction false} ReplaceCharAbsent(s: string, c: char, rep: string)
    requires forall i :: 0 <= i < |s| ==> s[i] != c
    ensures ReplaceChar(s, c, rep) == s
    decreases |s|
  {
    if |s| > 0 {
      ReplaceCharAbsent(s[1..], c, rep);
    }
  }

  /** ASCII upper-casing of one character. */
  function UpperChar(c: char): (u: char)
    ensures 'a' <= c <= 'z' ==> u as int == c as int - 32
    ensures !('a' <= c <= 'z') ==> u == c
  {
    if 'a' <= c <= 'z' then (c as int - 32) as char else c
  }

  /** ASCII upper-casing of a text (C# `ToUpper`, restricted to ASCII letters). */
  function ToUpper(s: string): (u: string)
    ensures |u| == |s|
    ensures forall i :: 0 <= i < |s| ==> u[i] == UpperChar(s[i])
  {
    seq(|s|, i requires 0 <= i < |s| => UpperChar(s[i]))
  }

  /** The elements joined with `sep` between consecutive ones. */
  function Join(parts: seq<string>, sep: string): (r: string)
    decreases |parts|
  {
    if |parts| == 0 then [] else if |parts| == 1 then parts[0] else parts[0] + sep + Join(parts[1..], sep)
  }

  lemma {:induction false} JoinAppend(a: seq<string>, b: seq<string>, sep: string)
    requires |a| >= 1 && |b| >= 1
    ensures Join(a + b, sep) == Join(a, sep) + sep + Join(b, sep)
    decreases |a|
  {
    assert (a + b)[0] == a[0];
    if |a| == 1 {
      assert (a + b)[1..] == b;
    } else {
      assert (a + b)[1..] == a[1..] + b;
      JoinAppend(a[1..], b, sep);
      assert Join(a + b, sep) == a[0] + sep + (Join(a[1..], sep) + sep + Join(b, sep));
    }
  }
}
