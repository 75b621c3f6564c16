/** Python's `bytes.decode("utf-8", "replace")` and, as its reference partner, the UTF-8
    encoding of a string (`str.encode("utf-8")`). Well-formed sequences follow Table 3-7
    of the Unicode Standard (section 3.9); an ill-formed stretch is replaced by one U+FFFD
    per maximal subpart, the practice of section 3.9 ("U+FFFD Substitution of Maximal
    Subparts") that CPython's decoder follows. */
module Utf8 {
  import opened Prelude

  /** U+FFFD REPLACEMENT CHARACTER. */
  const Replacement: char := '�'

  /** A continuation byte, 10xxxxxx. */
  predicate IsContinuation(b: byte) {
    0x80 <= b <= 0xBF
  }

  /** The length of the well-formed sequence `lead` starts, or 0 when `lead` starts none
      (0x80..0xC1 and 0xF5..0xFF). */
  function SequenceLength(lead: byte): (n: nat)
    ensures n <= 4
    ensures n == 0 <==> (0x80 <= lead <= 0xC1 || 0xF5 <= lead)
    ensures n == 1 <==> lead < 0x80
  {
    if lead < 0x80 then 1
    else if 0xC2 <= lead <= 0xDF then 2
    else if 0xE0 <= lead <= 0xEF then 3
    else if 0xF0 <= lead <= 0xF4 then 4
    else 0
  }

  /** The bounds of the byte after a multi-byte lead. They are narrower than a
      continuation byte after 0xE0 and 0xF0 (overlong forms), 0xED (surrogates) and 0xF4
      (values above U+10FFFF). */
  function SecondLow(lead: byte): (lo: byte)
    ensures 0x80 <= lo <= 0xA0
  {
    if lead == 0xE0 then 0xA0 else if lead == 0xF0 then 0x90 else 0x80
  }

  function SecondHigh(lead: byte): (hi: byte)
    ensures 0x8F <= hi <= 0xBF
  {
    if lead == 0xED then 0x9F else if lead == 0xF4 then 0x8F else 0xBF
  }

  /** How many bytes at the start of `b` begin a well-formed sequence: the whole sequence
      when it is complete, otherwise its maximal subpart, and 0 when the first byte starts
      none. */
  function WellFormedPrefix(b: seq<byte>): (k: nat)
    requires |b| > 0
    ensures k <= SequenceLength(b[0]) && k <= |b|
    ensures SequenceLength(b[0]) > 0 ==> k > 0
    ensures k > 1 ==> SecondLow(b[0]) <= b[1] <= SecondHigh(b[0])
    ensures k > 2 ==> IsContinuation(b[2])
    ensures k > 3 ==> IsContinuation(b[3])
    ensures k == 1 && SequenceLength(b[0]) > 1 ==> |b| == 1 || !(SecondLow(b[0]) <= b[1] <= SecondHigh(b[0]))
    ensures k == 2 && SequenceLength(b[0]) > 2 ==> |b| == 2 || !IsContinuation(b[2])
    ensures k == 3 && SequenceLength(b[0]) > 3 ==> |b| == 3 || !IsContinuation(b[3])
  {
    var n := SequenceLength(b[0]);
    if n <= 1 then n
    else if |b| < 2 || !(SecondLow(b[0]) <= b[1] <= SecondHigh(b[0])) then 1
    else if n == 2 then 2
    else if |b| < 3 || !IsContinuation(b[2]) then 2
    else if n == 3 then 3
    else if |b| < 4 || !IsContinuation(b[3]) then 3
    else 4
  }

  /** Whether `b` starts with a complete well-formed sequence. */
  predicate StartsComplete(b: seq<byte>) {
    |b| > 0 && SequenceLength(b[0]) > 0 && WellFormedPrefix(b) == SequenceLength(b[0])
  }

  /** The scalar value of the complete sequence at the start of `b`. */
  function ScalarAt(b: seq<byte>): (c: char)
    requires StartsComplete(b)
  {
    var n := SequenceLength(b[0]);
    var b0: int := b[0];
    if n == 1 then b0 as char
    else
      var b1: int := b[1];
      if n == 2 then ((b0 - 0xC0) * 0x40 + (b1 - 0x80)) as char
      else
        var b2: int := b[2];
        if n == 3 then ((b0 - 0xE0) * 0x1000 + (b1 - 0x80) * 0x40 + (b2 - 0x80)) as char
        else
          var b3: int := b[3];
          ((b0 - 0xF0) * 0x40000 + (b1 - 0x80) * 0x1000 + (b2 - 0x80) * 0x40 + (b3 - 0x80)) as char
  }

  /** `bytes.decode("utf-8", "replace")`: a complete sequence becomes its scalar value;
      otherwise the maximal subpart, or the single byte that starts no sequence, becomes
      one U+FFFD and decoding resumes after it. */
  function Decode(b: seq<byte>): (s: string)
    ensures |s| <= |b|
    ensures |s| == 0 <==> |b| == 0
    decreases |b|
  {
    if |b| == 0 then ""
    else if StartsComplete(b) then [ScalarAt(b)] + Decode(b[SequenceLength(b[0])..])
    else
      var k := WellFormedPrefix(b);
      [Replacement] + Decode(b[if k == 0 then 1 else k..])
  }

  /** The UTF-8 encoding of one scalar value. */
  function EncodeChar(c: char): (b: seq<byte>)
    ensures 1 <= |b| <= 4
  {
    var v := c as int;
    if v < 0x80 then [v]
    else if v < 0x800 then [0xC0 + v / 0x40, 0x80 + v % 0x40]
    else if v < 0x10000 then [0xE0 + v / 0x1000, 0x80 + v / 0x40 % 0x40, 0x80 + v % 0x40]
    else [0xF0 + v / 0x40000, 0x80 + v / 0x1000 % 0x40, 0x80 + v / 0x40 % 0x40, 0x80 + v % 0x40]
  }

  /** `str.encode("utf-8")`. */
  function Encode(s: string): (b: seq<byte>)
    ensures |s| <= |b| <= 4 * |s|
  {
    if |s| == 0 then [] else EncodeChar(s[0]) + Encode(s[1..])
  }

  /** Whether every byte is ASCII. */
  predicate IsAscii(b: seq<byte>) {
    forall i :: 0 <= i < |b| ==> b[i] < 0x80
  }

  /** The encoding of a scalar value is a complete sequence, whatever follows it, and it
      decodes back to that value. */
  lemma EncodeCharIsComplete(c: char, rest: seq<byte>)
    ensures var b := EncodeChar(c) + rest;
      StartsComplete(b) && SequenceLength(b[0]) == |EncodeChar(c)| && ScalarAt(b) == c
  {
    var v := c as int;
    var e := EncodeChar(c);
    var b := e + rest;
    if v < 0x80 {
    } else if v < 0x800 {
      TwoByteDecodes(v);
      assert b[0] == e[0] && b[1] == e[1];
    } else if v < 0x10000 {
      ThreeByteDecodes(v);
      assert b[0] == e[0] && b[1] == e[1] && b[2] == e[2];
    } else {
      FourByteDecodes(v);
      assert b[0] == e[0] && b[1] == e[1] && b[2] == e[2] && b[3] == e[3];
    }
  }

  lemma TwoByteDecodes(v: int)
    requires 0x80 <= v < 0x800
    ensures 0xC2 <= 0xC0 + v / 0x40 <= 0xDF
    ensures v == v / 0x40 * 0x40 + v % 0x40
  {
  }

  lemma ThreeByteDecodes(v: int)
    requires 0x800 <= v < 0x10000 && (v < 0xD800 || 0xE000 <= v)
    ensures var b0, b1 := 0xE0 + v / 0x1000, 0x80 + v / 0x40 % 0x40;
      0xE0 <= b0 <= 0xEF && SecondLow(b0) <= b1 <= SecondHigh(b0) &&
      v == (b0 - 0xE0) * 0x1000 + (b1 - 0x80) * 0x40 + v % 0x40
  {
    var x, y := v / 0x1000, v / 0x40 % 0x40;
    assert v / 0x40 == x * 0x40 + y;
  }

  lemma FourByteDecodes(v: int)
    requires 0x10000 <= v < 0x110000
    ensures var b0, b1, b2 := 0xF0 + v / 0x40000, 0x80 + v / 0x1000 % 0x40, 0x80 + v / 0x40 % 0x40;
      0xF0 <= b0 <= 0xF4 && SecondLow(b0) <= b1 <= SecondHigh(b0) &&
      v == (b0 - 0xF0) * 0x40000 + (b1 - 0x80) * 0x1000 + (b2 - 0x80) * 0x40 + v % 0x40
  {
    var w, x, y := v / 0x40000, v / 0x1000 % 0x40, v / 0x40 % 0x40;
    assert v / 0x1000 == w * 0x40 + x;
    assert v / 0x40 == (w * 0x40 + x) * 0x40 + y;
  }

  /** Encoding the scalar value of a complete sequence gives back its bytes. */
  lemma ScalarAtEncodes(b: seq<byte>)
    requires StartsComplete(b)
    ensures EncodeChar(ScalarAt(b)) == b[..SequenceLength(b[0])]
  {
    var n := SequenceLength(b[0]);
    if n == 2 {
      TwoByteEncodes(b[0], b[1]);
    } else if n == 3 {
      ThreeByteEncodes(b[0], b[1], b[2]);
    } else if n == 4 {
      FourByteEncodes(b[0], b[1], b[2], b[3]);
    }
  }

  lemma TwoByteEncodes(b0: int, b1: int)
    requires 0xC2 <= b0 <= 0xDF && 0x80 <= b1 <= 0xBF
    ensures var v := (b0 - 0xC0) * 0x40 + (b1 - 0x80);
      0x80 <= v < 0x800 && v / 0x40 == b0 - 0xC0 && v % 0x40 == b1 - 0x80
  {
  }

  lemma ThreeByteEncodes(b0: int, b1: int, b2: int)
    requires 0xE0 <= b0 <= 0xEF && SecondLow(b0) <= b1 <= SecondHigh(b0) && 0x80 <= b2 <= 0xBF
    ensures var v := (b0 - 0xE0) * 0x1000 + (b1 - 0x80) * 0x40 + (b2 - 0x80);
      0x800 <= v < 0x10000 && (v < 0xD800 || 0xE000 <= v) &&
      v / 0x1000 == b0 - 0xE0 && v / 0x40 % 0x40 == b1 - 0x80 && v % 0x40 == b2 - 0x80
  {
    var x, y, z := b0 - 0xE0, b1 - 0x80, b2 - 0x80;
    var v := x * 0x1000 + y * 0x40 + z;
    assert v % 0x40 == z && v / 0x40 == x * 0x40 + y;
  }

  lemma FourByteEncodes(b0: int, b1: int, b2: int, b3: int)
    requires 0xF0 <= b0 <= 0xF4 && SecondLow(b0) <= b1 <= SecondHigh(b0)
    requires 0x80 <= b2 <= 0xBF && 0x80 <= b3 <= 0xBF
    ensures var v := (b0 - 0xF0) * 0x40000 + (b1 - 0x80) * 0x1000 + (b2 - 0x80) * 0x40 + (b3 - 0x80);
      0x10000 <= v < 0x110000 && v / 0x40000 == b0 - 0xF0 && v / 0x1000 % 0x40 == b1 - 0x80 &&
      v / 0x40 % 0x40 == b2 - 0x80 && v % 0x40 == b3 - 0x80
  {
    var w, x, y, z := b0 - 0xF0, b1 - 0x80, b2 - 0x80, b3 - 0x80;
    var v := w * 0x40000 + x * 0x1000 + y * 0x40 + z;
    assert v % 0x40 == z && v / 0x40 == w * 0x1000 + x * 0x40 + y;
    assert v / 0x1000 == w * 0x40 + x;
  }

  /** Decoding consumes an encoded scalar value and nothing after it. */
  lemma DecodeEncodedPrefix(c: char, rest: seq<byte>)
    ensures Decode(EncodeChar(c) + rest) == [c] + Decode(rest)
  {
    var b := EncodeChar(c) + rest;
    EncodeCharIsComplete(c, rest);
    assert b[|EncodeChar(c)|..] == rest;
  }

  /** Decoding inverts encoding: every string comes back from its UTF-8 bytes. */
  lemma {:induction false} DecodeEncode(s: string)
    ensures Decode(Encode(s)) == s
  {
    if |s| > 0 {
      DecodeEncodedPrefix(s[0], Encode(s[1..]));
      DecodeEncode(s[1..]);
    }
  }

  /** Encoding a string that starts with `c` starts with the encoding of `c`. */
  lemma EncodeCons(c: char, t: string)
    ensures Encode([c] + t) == EncodeChar(c) + Encode(t)
  {
    assert ([c] + t)[0] == c && ([c] + t)[1..] == t;
  }

  /** One step of decoding: a complete sequence at the start gives its scalar value
      first, anything else a U+FFFD. */
  lemma DecodeStep(b: seq<byte>)
    requires |b| > 0
    ensures StartsComplete(b) ==> Decode(b) == [ScalarAt(b)] + Decode(b[SequenceLength(b[0])..])
    ensures !StartsComplete(b) ==> Decode(b)[0] == Replacement
  {
  }

  /** Encoding inverts decoding when nothing was replaced: bytes that decode without a
      U+FFFD are exactly the encoding of their decoding. */
  lemma {:induction false} EncodeDecode(b: seq<byte>)
    requires Replacement !in Decode(b)
    ensures Encode(Decode(b)) == b
  {
    if |b| > 0 {
      DecodeStep(b);
      if StartsComplete(b) {
        var n := SequenceLength(b[0]);
        var t := Decode(b[n..]);
        assert Replacement !in t by {
          assert forall x :: x in t ==> x in [ScalarAt(b)] + t;
        }
        EncodeDecode(b[n..]);
        EncodeCompleteStep(b, t);
      }
    }
  }

  /** The inductive step of `EncodeDecode`: the encoded first scalar value followed by
      the bytes the rest decodes from is the whole input. */
  lemma EncodeCompleteStep(b: seq<byte>, t: string)
    requires StartsComplete(b) && Encode(t) == b[SequenceLength(b[0])..]
    ensures Encode([ScalarAt(b)] + t) == b
  {
    var n := SequenceLength(b[0]);
    ScalarAtEncodes(b);
    EncodeCons(ScalarAt(b), t);
    assert b == b[..n] + b[n..];
  }

  /** An ASCII byte string decodes one character per byte, each to itself. */
  lemma {:induction false} DecodeAscii(b: seq<byte>)
    requires IsAscii(b)
    ensures |Decode(b)| == |b|
    ensures forall i :: 0 <= i < |b| ==> Decode(b)[i] as int == b[i]
  {
    if |b| > 0 {
      assert StartsComplete(b) && SequenceLength(b[0]) == 1;
      assert IsAscii(b[1..]) by {
        forall i | 0 <= i < |b| - 1 ensures b[1..][i] < 0x80 {
          assert b[1..][i] == b[i + 1];
        }
      }
      DecodeAscii(b[1..]);
      forall i | 0 <= i < |b| ensures Decode(b)[i] as int == b[i] {
        if i > 0 {
          assert Decode(b)[i] == Decode(b[1..])[i - 1];
          assert b[1..][i - 1] == b[i];
        }
      }
    }
  }

  /** The bytes of an ASCII string, one per character. */
  function AsciiBytes(s: string): (b: seq<byte>)
    requires forall i :: 0 <= i < |s| ==> s[i] as int < 0x80
    ensures |b| == |s| && IsAscii(b)
  {
    seq(|s|, i requires 0 <= i < |s| => s[i] as int)
  }

  /** An ASCII string comes back from its bytes. */
  lemma DecodeAsciiBytes(s: string)
    requires forall i :: 0 <= i < |s| ==> s[i] as int < 0x80
    ensures Decode(AsciiBytes(s)) == s
  {
    DecodeAscii(AsciiBytes(s));
  }

  /** A two-byte sequence decodes to one character: 0xC3 0xA9 is "é". */
  lemma DecodeTwoByte()
    ensures Decode([0xC3, 0xA9]) == "é"
  {
    var b: seq<byte> := [0xC3, 0xA9];
    assert StartsComplete(b) && b[2..] == [];
  }

  /** Ill-formed input, one U+FFFD per maximal subpart: 0xE0 0x80 is an overlong start,
      so each byte is replaced; 0xE1 0x80 is a truncated three-byte sequence, replaced
      once; the surrogate start 0xED 0xA0 0x80 is replaced byte by byte; a truncated
      four-byte sequence 0xF0 0x90 0x80 followed by "A" gives one U+FFFD, then "A". */
  lemma DecodeMaximalSubparts()
    ensures Decode([0xE0, 0x80]) == "��"
    ensures Decode([0xE1, 0x80]) == "�"
    ensures Decode([0xED, 0xA0, 0x80]) == "���"
    ensures Decode([0xF0, 0x90, 0x80, 0x41]) == "�A"
    ensures Decode([0xFF]) == "�"
  {
    var a: seq<byte> := [0xE0, 0x80];
    assert WellFormedPrefix(a) == 1 && a[1..] == [0x80];
    var a1: seq<byte> := [0x80];
    assert WellFormedPrefix(a1) == 0 && a1[1..] == [];
    var b: seq<byte> := [0xE1, 0x80];
    assert WellFormedPrefix(b) == 2 && b[2..] == [];
    var c: seq<byte> := [0xED, 0xA0, 0x80];
    assert WellFormedPrefix(c) == 1 && c[1..] == [0xA0, 0x80];
    var c1: seq<byte> := [0xA0, 0x80];
    assert WellFormedPrefix(c1) == 0 && c1[1..] == [0x80];
    var d: seq<byte> := [0xF0, 0x90, 0x80, 0x41];
    assert WellFormedPrefix(d) == 3 && d[3..] == [0x41];
    var d1: seq<byte> := [0x41];
    assert StartsComplete(d1) && d1[1..] == [];
    var f: seq<byte> := [0xFF];
    assert WellFormedPrefix(f) == 0 && f[1..] == [];
  }
}
