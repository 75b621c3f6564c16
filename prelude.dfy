/** Vocabulary shared by every module of the model: optional values, bytes, and the
    handful of Python built-ins whose exact behaviour the driver relies on
    (`max(lo, min(hi, x))` clamping, `int()` of a non-negative float, `round()`,
    `str()` of an int, `format(n, "04x")`, `str.join` and `str.split`). */
module Prelude {

  datatype Option<T> = None | Some(value: T) {
    /** `d.get(key, default)` once the lookup has produced an Option. */
    function GetOr(default: T): T {
      if Some? then value else default
    }
  }

  /** One element of a Python `bytes` object. */
  type byte = x: int | 0 <= x < 256

  function Max(a: int, b: int): int { if a < b then b else a }
  function Min(a: int, b: int): int { if a < b then a else b }

  /** Python `max(lo, min(hi, x))`. */
  function Clamp(x: int, lo: int, hi: int): (r: int)
    requires lo <= hi
    ensures lo <= r <= hi
    ensures lo <= x <= hi ==> r == x
    ensures x <= lo ==> r == lo
    ensures hi <= x ==> r == hi
  {
    Max(lo, Min(hi, x))
  }

  /** Python `max(lo, min(hi, x))` on floats, modelled on reals. */
  function ClampReal(x: real, lo: real, hi: real): (r: real)
    requires lo <= hi
    ensures lo <= r <= hi
    ensures lo <= x <= hi ==> r == x
    ensures x <= lo ==> r == lo
    ensures hi <= x ==> r == hi
  {
    if x < lo then lo else if hi < x then hi else x
  }

  /** Python `round(n / d)` for a positive denominator: the nearest integer, ties
      going to the even neighbour (banker's rounding). */
  function RoundHalfEven(n: int, d: int): (r: int)
    requires d > 0
    ensures -d <= 2 * (r * d - n) <= d
    ensures (2 * (r * d - n) == d || 2 * (r * d - n) == -d) ==> r % 2 == 0
  {
    var q, m := n / d, n % d;
    assert n == q * d + m;
    assert (q + 1) * d == q * d + d;
    if 2 * m < d then q
    else if 2 * m > d then q + 1
    else if q % 2 == 0 then q
    else q + 1
  }

  /** Python `int(n / d)` for a positive d: the exact quotient truncated toward zero. */
  function TruncDiv(n: int, d: int): (q: int)
    requires d > 0
    ensures 0 <= n ==> 0 <= q * d <= n < q * d + d
    ensures n < 0 ==> q * d - d < n <= q * d <= 0
  {
    if n >= 0 then
      DivisionBounds(n, d);
      n / d
    else
      DivisionBounds(-n, d);
      -((-n) / d)
  }

  lemma DivisionBounds(n: nat, d: int)
    requires d > 0
    ensures 0 <= (n / d) * d <= n < (n / d) * d + d
  {
    assert n == d * (n / d) + n % d;
  }

  // ---- Decimal text (`str(n)`, f"{n}") ----

  function DigitChar(d: int): (c: char)
    requires 0 <= d < 10
    ensures '0' <= c <= '9' && c as int - '0' as int == d
  {
    ('0' as int + d) as char
  }

  predicate IsDigits(s: string) {
    forall i :: 0 <= i < |s| ==> '0' <= s[i] <= '9'
  }

  function NatToString(n: nat): (s: string)
    ensures |s| >= 1 && IsDigits(s)
    decreases n
  {
    if n < 10 then [DigitChar(n)] else NatToString(n / 10) + [DigitChar(n % 10)]
  }

  /** Python `str(i)` for an int. */
  function IntToString(i: int): (s: string)
    ensures |s| >= 1
    ensures i < 0 <==> s[0] == '-'
  {
    if i < 0 then "-" + NatToString(-i) else NatToString(i)
  }

  /** The number a string of decimal digits denotes (the reading of `NatToString`). */
  function DecimalValue(s: string): nat
    requires IsDigits(s)
    decreases |s|
  {
    if s == [] then 0
    else 10 * DecimalValue(s[..|s| - 1]) + (s[|s| - 1] as int - '0' as int)
  }

  /** Python `int(s)` on what `str(i)` produces. */
  function ParseIntText(s: string): int
    requires |s| >= 1
    requires s[0] == '-' ==> IsDigits(s[1..])
    requires s[0] != '-' ==> IsDigits(s)
  {
    if s[0] == '-' then -(DecimalValue(s[1..]) as int) else DecimalValue(s)
  }

  lemma {:induction false} NatToStringRoundTrip(n: nat)
    ensures DecimalValue(NatToString(n)) == n
    decreases n
  {
    if n >= 10 {
      NatToStringRoundTrip(n / 10);
      var s := NatToString(n);
      assert s[..|s| - 1] == NatToString(n / 10);
    }
  }

  /** `int(str(i)) == i`: the decimal text of an int denotes that int. */
  lemma IntToStringRoundTrip(i: int)
    ensures ParseIntText(IntToString(i)) == i
  {
    if i < 0 {
      var digits := NatToString(-i);
      assert IntToString(i) == "-" + digits;
      assert ("-" + digits)[1..] == digits;
      NatToStringRoundTrip(-i);
    } else {
      NatToStringRoundTrip(i);
    }
  }

  // ---- Hexadecimal text (`f"{n:04x}"`) ----

  function HexDigitChar(d: int): (c: char)
    requires 0 <= d < 16
    ensures '0' <= c <= '9' || 'a' <= c <= 'f'
    ensures HexDigitValue(c) == d
  {
    if d < 10 then ('0' as int + d) as char else ('a' as int + d - 10) as char
  }

  predicate IsLowerHex(s: string) {
    forall i :: 0 <= i < |s| ==> ('0' <= s[i] <= '9' || 'a' <= s[i] <= 'f')
  }

  function HexDigitValue(c: char): int {
    if '0' <= c <= '9' then c as int - '0' as int
    else if 'a' <= c <= 'f' then c as int - 'a' as int + 10
    else 0
  }

  function HexDigits(n: nat): (s: string)
    ensures |s| >= 1 && IsLowerHex(s)
    decreases n
  {
    if n < 16 then [HexDigitChar(n)] else HexDigits(n / 16) + [HexDigitChar(n % 16)]
  }

  /** `format(n, "04x")`: lower-case hexadecimal, zero-padded to at least four digits. */
  function Hex04(n: nat): (s: string)
    ensures IsLowerHex(s)
    ensures |s| >= 4
  {
    var h := HexDigits(n);
    if |h| < 4 then seq(4 - |h|, _ => '0') + h else h
  }

  /** The number a string of hexadecimal digits denotes. */
  function HexValue(s: string): nat
    decreases |s|
  {
    if s == [] then 0
    else 16 * HexValue(s[..|s| - 1]) + HexDigitValue(s[|s| - 1])
  }

  lemma {:induction false} HexDigitsRoundTrip(n: nat)
    ensures HexValue(HexDigits(n)) == n
    decreases n
  {
    if n >= 16 {
      HexDigitsRoundTrip(n / 16);
      var s := HexDigits(n);
      assert s[..|s| - 1] == HexDigits(n / 16);
    }
  }

  lemma {:induction false} LeadingZerosAddNothing(k: nat, h: string)
    ensures HexValue(seq(k, _ => '0') + h) == HexValue(h)
    decreases |h|
  {
    if h == [] {
      assert seq(k, _ => '0') + h == seq(k, _ => '0');
      AllZerosValue(k);
    } else {
      var s := seq(k, _ => '0') + h;
      assert s[..|s| - 1] == seq(k, _ => '0') + h[..|h| - 1];
      LeadingZerosAddNothing(k, h[..|h| - 1]);
    }
  }

  lemma {:induction false} AllZerosValue(k: nat)
    ensures HexValue(seq(k, _ => '0')) == 0
  {
    if k > 0 {
      var s := seq(k, _ => '0');
      assert s[..|s| - 1] == seq(k - 1, _ => '0');
      AllZerosValue(k - 1);
    }
  }

  /** `int(format(n, "04x"), 16) == n`, and four digits suffice below 0x10000. */
  lemma Hex04RoundTrip(n: nat)
    ensures HexValue(Hex04(n)) == n
    ensures n < 0x1_0000 ==> |Hex04(n)| == 4
  {
    HexDigitsRoundTrip(n);
    var h := HexDigits(n);
    if |h| < 4 {
      LeadingZerosAddNothing(4 - |h|, h);
    } else if n < 0x1_0000 {
      HexDigitsShort(n);
    }
  }

  lemma {:induction false} HexDigitsShort(n: nat)
    ensures n < 0x10 ==> |HexDigits(n)| == 1
    ensures n < 0x100 ==> |HexDigits(n)| <= 2
    ensures n < 0x1000 ==> |HexDigits(n)| <= 3
    ensures n < 0x1_0000 ==> |HexDigits(n)| <= 4
    decreases n
  {
    if n >= 16 {
      HexDigitsShort(n / 16);
    }
  }

  // ---- str.join / str.split ----

  /** Python `sep.join(parts)`. */
  function Join(parts: seq<string>, sep: string): string
    decreases |parts|
  {
    if parts == [] then ""
    else if |parts| == 1 then parts[0]
    else parts[0] + sep + Join(parts[1..], sep)
  }

  /** Python `s.split(c)` for a one-character separator: never empty, and the pieces
      between separators in order. */
  function Split(s: string, c: char): (parts: seq<string>)
    ensures |parts| >= 1
    decreases |s|
  {
    if s == [] then [""]
    else
      var rest := Split(s[1..], c);
      if s[0] == c then [""] + rest else [[s[0]] + rest[0]] + rest[1..]
  }

  lemma {:induction false} SplitWithoutSeparator(s: string, c: char)
    requires c !in s
    ensures Split(s, c) == [s]
    decreases |s|
  {
    if s != [] {
      SplitWithoutSeparator(s[1..], c);
      assert [s[0]] + s[1..] == s;
    }
  }

  lemma {:induction false} SplitAtSeparator(a: string, c: char, b: string)
    requires c !in a
    ensures Split(a + [c] + b, c) == [a] + Split(b, c)
    decreases |a|
  {
    if a == [] {
      assert a + [c] + b == [c] + b;
      assert ([c] + b)[1..] == b;
    } else {
      var s := a + [c] + b;
      assert s[1..] == a[1..] + [c] + b;
      SplitAtSeparator(a[1..], c, b);
      assert [a[0]] + a[1..] == a;
    }
  }

  /** Splitting a join on its separator gives back the parts, provided no part
      contains the separator. */
  lemma {:induction false} SplitJoin(parts: seq<string>, c: char)
    requires |parts| >= 1
    requires forall i :: 0 <= i < |parts| ==> c !in parts[i]
    ensures Split(Join(parts, [c]), c) == parts
    decreases |parts|
  {
    if |parts| == 1 {
      SplitWithoutSeparator(parts[0], c);
    } else {
      SplitJoin(parts[1..], c);
      SplitAtSeparator(parts[0], c, Join(parts[1..], [c]));
      assert [parts[0]] + parts[1..] == parts;
    }
  }

  lemma {:induction false} JoinSnoc(parts: seq<string>, sep: string, last: string)
    requires |parts| >= 1
    ensures Join(parts + [last], sep) == Join(parts, sep) + sep + last
    decreases |parts|
  {
    if |parts| == 1 {
      assert (parts + [last])[1..] == [last];
    } else {
      assert (parts + [last])[1..] == parts[1..] + [last];
      JoinSnoc(parts[1..], sep, last);
    }
  }
}
