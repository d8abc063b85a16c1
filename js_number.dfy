/**
  JavaScript's global `parseInt(string)` with no radix argument, on integers: leading white
  space is skipped, one `+` or `-` sign is read, a `0x`/`0X` prefix switches to base 16, and
  the longest run of digits that follows is read; a string with no such digits gives NaN
  (`None` here). `Decimal` is `String(n)` for an integer `n` written in plain decimal digits
  (in JavaScript, `|n| < 10^21`), and `parseInt` is its inverse.
 */
module JsNumber {
  import opened Wrappers

  /** The characters ECMAScript counts as white space or line terminators. */
  predicate IsWhiteSpace(c: char) {
    var n := c as int;
    || (0x9 <= n <= 0xD) || n == 0x20 || n == 0xA0 || n == 0x1680
    || (0x2000 <= n <= 0x200A) || n == 0x2028 || n == 0x2029
    || n == 0x202F || n == 0x205F || n == 0x3000 || n == 0xFEFF
  }

  /** The string without its leading white space. */
  function TrimStart(s: string): (r: string)
    ensures |r| <= |s| && r == s[|s| - |r|..]
    ensures r == [] || !IsWhiteSpace(r[0])
    ensures forall i :: 0 <= i < |s| - |r| ==> IsWhiteSpace(s[i])
  {
    if s != [] && IsWhiteSpace(s[0]) then TrimStart(s[1..]) else s
  }

  /** The value of `c` as a digit of base 36 (`0`-`9`, then `a`-`z` in either case), or 36. */
  function DigitValue(c: char): (d: nat)
    ensures d <= 36
    ensures d < 10 <==> '0' <= c <= '9'
  {
    if '0' <= c <= '9' then c as int - '0' as int
    else if 'a' <= c <= 'z' then c as int - 'a' as int + 10
    else if 'A' <= c <= 'Z' then c as int - 'A' as int + 10
    else 36
  }

  /** The length of the longest prefix of `s` made of digits of base `radix`. */
  function DigitRun(s: string, radix: nat): (n: nat)
    ensures n <= |s|
    ensures forall i :: 0 <= i < n ==> DigitValue(s[i]) < radix
    ensures n < |s| ==> DigitValue(s[n]) >= radix
  {
    if s != [] && DigitValue(s[0]) < radix then 1 + DigitRun(s[1..], radix) else 0
  }

  /** The number that the digits `ds` denote in base `radix`, most significant first. */
  function ValueOf(ds: string, radix: nat): nat {
    if ds == [] then 0 else ValueOf(ds[..|ds| - 1], radix) * radix + DigitValue(ds[|ds| - 1])
  }

  function ParseInt(s: string): Option<int> {
    ParseSigned(TrimStart(s))
  }

  /**
    `parseInt` gives a number only when, after the white space and an optional sign, a decimal
    digit comes first (a `0x` prefix starts with one), and a negative number only after a `-`.
   */
  lemma ParseIntShape(s: string)
    ensures ParseInt(s).Some? ==> var t := TrimStart(s);
      var u := if t != [] && (t[0] == '-' || t[0] == '+') then t[1..] else t;
      u != [] && '0' <= u[0] <= '9'
    ensures ParseInt(s).Some? && ParseInt(s).value < 0 ==> TrimStart(s)[0] == '-'
  {
  }

  /** `parseInt` after the white space: an optional sign, then the magnitude. */
  function ParseSigned(t: string): Option<int> {
    if t != [] && t[0] == '-' then
      match ParseMagnitude(t[1..])
      case None => None
      case Some(m) => var v: int := m; Some(-v)
    else if t != [] && t[0] == '+' then ParseMagnitude(t[1..])
    else ParseMagnitude(t)
  }

  /** The unsigned part of `parseInt`: an optional `0x`/`0X` prefix, then the digit run. */
  function ParseMagnitude(u: string): Option<nat> {
    var hex := |u| >= 2 && u[0] == '0' && (u[1] == 'x' || u[1] == 'X');
    var radix := if hex then 16 else 10;
    var body := if hex then u[2..] else u;
    var n := DigitRun(body, radix);
    if n == 0 then None else Some(ValueOf(body[..n], radix))
  }

  function DigitChar(d: nat): (c: char)
    requires d < 10
    ensures '0' <= c <= '9' && DigitValue(c) == d
  {
    ('0' as int + d) as char
  }

  /** The decimal digits of `n`, without leading zeros ("0" for zero). */
  function Digits(n: nat): (s: string)
    ensures |s| >= 1
    ensures forall i :: 0 <= i < |s| ==> '0' <= s[i] <= '9'
    ensures n >= 10 ==> |s| >= 2
  {
    if n < 10 then [DigitChar(n)] else Digits(n / 10) + [DigitChar(n % 10)]
  }

  /** `String(n)` for an integer `n`, in plain decimal digits as JavaScript writes `|n| < 10^21`. */
  function Decimal(n: int): string {
    if n < 0 then "-" + Digits(-n) else Digits(n)
  }

  lemma {:induction false} ValueOfDigits(n: nat)
    ensures ValueOf(Digits(n), 10) == n
  {
    if n >= 10 {
      var s := Digits(n);
      assert s[..|s| - 1] == Digits(n / 10);
      ValueOfDigits(n / 10);
    }
  }

  lemma {:induction false} TrimStartSkips(ws: string, s: string)
    requires forall i :: 0 <= i < |ws| ==> IsWhiteSpace(ws[i])
    requires s == [] || !IsWhiteSpace(s[0])
    ensures TrimStart(ws + s) == s
  {
    if ws != [] {
      assert (ws + s)[1..] == ws[1..] + s;
      TrimStartSkips(ws[1..], s);
    }
  }

  lemma {:induction false} DigitRunOfDigits(ds: string, tail: string)
    requires forall i :: 0 <= i < |ds| ==> '0' <= ds[i] <= '9'
    requires tail == [] || DigitValue(tail[0]) >= 10
    ensures DigitRun(ds + tail, 10) == |ds|
  {
    if ds != [] {
      assert (ds + tail)[1..] == ds[1..] + tail;
      DigitRunOfDigits(ds[1..], tail);
    }
  }

  lemma MagnitudeOfDigits(m: nat, tail: string)
    requires tail == [] || (DigitValue(tail[0]) >= 10 && tail[0] != 'x' && tail[0] != 'X')
    ensures ParseMagnitude(Digits(m) + tail) == Some(m)
  {
    var ds := Digits(m);
    var u := ds + tail;
    assert !(|u| >= 2 && u[0] == '0' && (u[1] == 'x' || u[1] == 'X')) by {
      if |ds| >= 2 { assert u[1] == ds[1]; } else if |u| >= 2 { assert u[1] == tail[0]; }
    }
    DigitRunOfDigits(ds, tail);
    assert u[..|ds|] == ds;
    ValueOfDigits(m);
  }

  /** The sign and digits of a negative `String(n)`, then text that cannot continue it. */
  lemma SignedNegative(n: int, tail: string)
    requires n < 0
    requires tail == [] || (DigitValue(tail[0]) >= 10 && tail[0] != 'x' && tail[0] != 'X')
    ensures ParseSigned(Decimal(n) + tail) == Some(n)
  {
    var m: nat := -n;
    var u := Digits(m) + tail;
    assert Decimal(n) + tail == ['-'] + u;
    MagnitudeOfDigits(m, tail);
    NegativeSign(u, m);
  }

  lemma NegativeSign(u: string, m: nat)
    requires ParseMagnitude(u) == Some(m)
    ensures ParseSigned(['-'] + u) == Some(-(m as int))
  {
    assert (['-'] + u)[1..] == u;
  }

  /** The digits of a non-negative `String(n)`, then text that cannot continue it. */
  lemma SignedUnsigned(n: int, tail: string)
    requires n >= 0
    requires tail == [] || (DigitValue(tail[0]) >= 10 && tail[0] != 'x' && tail[0] != 'X')
    ensures ParseSigned(Decimal(n) + tail) == Some(n)
  {
    var t := Decimal(n) + tail;
    assert t == Digits(n) + tail;
    assert t[0] == Digits(n)[0];
    MagnitudeOfDigits(n, tail);
  }

  /**
    `parseInt` reads back what `String(n)` writes, also with leading white space and with
    trailing text that is neither a digit nor an `x` (which after a lone `0` would mean hex).
   */
  lemma ParseDecimal(ws: string, n: int, tail: string)
    requires forall i :: 0 <= i < |ws| ==> IsWhiteSpace(ws[i])
    requires tail == [] || (DigitValue(tail[0]) >= 10 && tail[0] != 'x' && tail[0] != 'X')
    ensures ParseInt(ws + Decimal(n) + tail) == Some(n)
  {
    var t := Decimal(n) + tail;
    assert ws + Decimal(n) + tail == ws + t;
    assert t[0] == Decimal(n)[0];
    assert t[0] == '-' || '0' <= t[0] <= '9';
    TrimStartSkips(ws, t);
    if n < 0 {
      SignedNegative(n, tail);
    } else {
      SignedUnsigned(n, tail);
    }
  }

  /** `String(n)` read back: the round trip without surrounding text. */
  lemma DecimalRoundTrip(n: int)
    ensures ParseInt(Decimal(n)) == Some(n)
  {
    ParseDecimal("", n, "");
    assert "" + Decimal(n) + "" == Decimal(n);
  }

  lemma NoDigitsMagnitude(u: string)
    requires forall i :: 0 <= i < |u| ==> DigitValue(u[i]) >= 16
    ensures ParseMagnitude(u) == None
  {
    if u != [] {
      assert DigitValue(u[0]) >= 16;
    }
  }

  lemma SignedNoDigits(t: string)
    requires forall i :: 0 <= i < |t| ==> DigitValue(t[i]) >= 16
    ensures ParseSigned(t) == None
  {
    NoDigitsMagnitude(t);
    if t != [] {
      assert forall i :: 0 <= i < |t[1..]| ==> t[1..][i] == t[i + 1];
      NoDigitsMagnitude(t[1..]);
    }
  }

  /** A string without any digit of base 16 cannot parse, whatever its sign or white space. */
  lemma NoDigitsIsNaN(s: string)
    requires forall i :: 0 <= i < |s| ==> DigitValue(s[i]) >= 16
    ensures ParseInt(s) == None
  {
    var t := TrimStart(s);
    assert forall i :: 0 <= i < |t| ==> t[i] == s[|s| - |t| + i];
    SignedNoDigits(t);
  }
}
