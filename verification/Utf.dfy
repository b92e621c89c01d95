/**
  What `TextEncoder` and `TextDecoder('utf-8', { fatal: true })` do to a JavaScript
  string, which is a list of UTF-16 code units and need not be well formed.
 */
module Utf {
  import opened Wrappers

  type Unit = u: int | 0 <= u < 0x10000
  type Byte = b: int | 0 <= b < 0x100
  type Scalar = c: int | 0 <= c < 0xD800 || 0xE000 <= c < 0x110000

  /** The value of a hex digit, in either case. */
  function HexValue(u: int): Option<nat> {
    if '0' as int <= u <= '9' as int then Some(u - '0' as int)
    else if 'A' as int <= u <= 'F' as int then Some(u - 'A' as int + 10)
    else if 'a' as int <= u <= 'f' as int then Some(u - 'a' as int + 10)
    else None
  }

  const REPLACEMENT: Scalar := 0xFFFD
  const BOM: Unit := 0xFEFF

  // ---------------------------------------------------------------- UTF-16

  predicate IsHigh(u: Unit) { 0xD800 <= u < 0xDC00 }
  predicate IsLow(u: Unit) { 0xDC00 <= u < 0xE000 }

  predicate StartsWithPair(units: seq<Unit>) {
    |units| >= 2 && IsHigh(units[0]) && IsLow(units[1])
  }

  /** A surrogate without its partner is read as U+FFFD. */
  function ToScalars(units: seq<Unit>): seq<Scalar> {
    if units == [] then []
    else if StartsWithPair(units) then
      [0x10000 + (units[0] - 0xD800) * 0x400 + (units[1] - 0xDC00)] + ToScalars(units[2..])
    else if IsHigh(units[0]) || IsLow(units[0]) then [REPLACEMENT] + ToScalars(units[1..])
    else [units[0]] + ToScalars(units[1..])
  }

  function UnitsOf(c: Scalar): seq<Unit> {
    if c < 0x10000 then [c] else [0xD800 + (c - 0x10000) / 0x400, 0xDC00 + (c - 0x10000) % 0x400]
  }

  function ToUnits(scalars: seq<Scalar>): seq<Unit> {
    if scalars == [] then [] else UnitsOf(scalars[0]) + ToUnits(scalars[1..])
  }

  /** Every surrogate has its partner. */
  predicate WellFormed(units: seq<Unit>) {
    units == []
    || (if StartsWithPair(units) then WellFormed(units[2..])
        else !IsHigh(units[0]) && !IsLow(units[0]) && WellFormed(units[1..]))
  }

  /** Reading and writing scalars is the identity on exactly the well-formed strings. */
  lemma {:induction false} ScalarsRoundTrip(units: seq<Unit>)
    ensures ToUnits(ToScalars(units)) == units <==> WellFormed(units)
    decreases |units|
  {
    if units == [] {
    } else if StartsWithPair(units) {
      ScalarsRoundTrip(units[2..]);
      var c := ToScalars(units)[0];
      assert ToScalars(units)[1..] == ToScalars(units[2..]);
      assert UnitsOf(c) == units[..2];
      assert units == units[..2] + units[2..];
      assert ToUnits(ToScalars(units))[2..] == ToUnits(ToScalars(units[2..]));
    } else {
      ScalarsRoundTrip(units[1..]);
      assert ToScalars(units)[1..] == ToScalars(units[1..]);
      assert ToUnits(ToScalars(units))[1..] == ToUnits(ToScalars(units[1..]));
      assert units == [units[0]] + units[1..];
    }
  }

  // ---------------------------------------------------------------- UTF-8

  function EncodeScalar(c: Scalar): (bytes: seq<Byte>) {
    if c < 0x80 then [c]
    else if c < 0x800 then [0xC0 + c / 64, 0x80 + c % 64]
    else if c < 0x10000 then [0xE0 + c / 4096, 0x80 + c / 64 % 64, 0x80 + c % 64]
    else [0xF0 + c / 262144, 0x80 + c / 4096 % 64, 0x80 + c / 64 % 64, 0x80 + c % 64]
  }

  function Encode(scalars: seq<Scalar>): seq<Byte> {
    if scalars == [] then [] else EncodeScalar(scalars[0]) + Encode(scalars[1..])
  }

  predicate IsContinuation(b: Byte) { 0x80 <= b < 0xC0 }

  /** The scalar a byte string starts with, in its shortest form. */
  function DecodeScalar(bytes: seq<Byte>): (r: Option<(Scalar, nat)>)
    ensures r.Some? ==> 1 <= r.value.1 <= |bytes|
  {
    if bytes == [] then None
    else if bytes[0] < 0x80 then Some((bytes[0], 1))
    else if 0xC2 <= bytes[0] < 0xE0 && |bytes| >= 2 && IsContinuation(bytes[1]) then
      Some((64 * Low(bytes[0], 0xC0) + Low(bytes[1], 0x80), 2))
    else if 0xE0 <= bytes[0] < 0xF0 && |bytes| >= 3 && IsContinuation(bytes[1]) && IsContinuation(bytes[2]) then
      var v := 4096 * Low(bytes[0], 0xE0) + 64 * Low(bytes[1], 0x80) + Low(bytes[2], 0x80);
      if v < 0x800 || 0xD800 <= v < 0xE000 then None else Some((v, 3))
    else if 0xF0 <= bytes[0] < 0xF5 && |bytes| >= 4
            && IsContinuation(bytes[1]) && IsContinuation(bytes[2]) && IsContinuation(bytes[3]) then
      var high := 262144 * Low(bytes[0], 0xF0) + 4096 * Low(bytes[1], 0x80);
      var v := high + 64 * Low(bytes[2], 0x80) + Low(bytes[3], 0x80);
      if v < 0x10000 || v >= 0x110000 then None else Some((v, 4))
    else None
  }

  /** The payload of a byte above its marker bits. */
  function Low(b: Byte, marker: int): int {
    b - marker
  }

  function Decode(bytes: seq<Byte>): Option<seq<Scalar>>
    decreases |bytes|
  {
    if bytes == [] then Some([])
    else
      var first := DecodeScalar(bytes);
      if first.None? then None
      else
        var rest := Decode(bytes[first.value.1..]);
        if rest.None? then None else Some([first.value.0] + rest.value)
  }

  lemma FourBytes(c: int)
    requires 0 <= c < 0x110000
    ensures c == 262144 * (c / 262144) + 4096 * (c / 4096 % 64) + 64 * (c / 64 % 64) + c % 64
  {}

  lemma ThreeBytes(c: int)
    requires 0 <= c < 0x10000
    ensures c == 4096 * (c / 4096) + 64 * (c / 64 % 64) + c % 64
  {}

  lemma DecodeTwo(c: Scalar, rest: seq<Byte>)
    requires 0x80 <= c < 0x800
    ensures DecodeScalar([0xC0 + c / 64, 0x80 + c % 64] + rest) == Some((c, 2))
  {
    var bytes := [0xC0 + c / 64, 0x80 + c % 64] + rest;
    assert bytes[0] == 0xC0 + c / 64 && bytes[1] == 0x80 + c % 64;
  }

  lemma DecodeThree(c: Scalar, rest: seq<Byte>)
    requires 0x800 <= c < 0x10000
    ensures DecodeScalar([0xE0 + c / 4096, 0x80 + c / 64 % 64, 0x80 + c % 64] + rest) == Some((c, 3))
  {
    ThreeBytes(c);
    var bytes := [0xE0 + c / 4096, 0x80 + c / 64 % 64, 0x80 + c % 64] + rest;
    assert bytes[0] == 0xE0 + c / 4096 && bytes[1] == 0x80 + c / 64 % 64 && bytes[2] == 0x80 + c % 64;
  }

  lemma DecodeFour(c: Scalar, rest: seq<Byte>)
    requires c >= 0x10000
    ensures DecodeScalar([0xF0 + c / 262144, 0x80 + c / 4096 % 64, 0x80 + c / 64 % 64, 0x80 + c % 64] + rest)
         == Some((c, 4))
  {
    FourBytes(c);
    var bytes := [0xF0 + c / 262144, 0x80 + c / 4096 % 64, 0x80 + c / 64 % 64, 0x80 + c % 64] + rest;
    assert bytes[0] == 0xF0 + c / 262144 && bytes[1] == 0x80 + c / 4096 % 64;
    assert bytes[2] == 0x80 + c / 64 % 64 && bytes[3] == 0x80 + c % 64;
  }

  lemma DecodeEncodeScalar(c: Scalar, rest: seq<Byte>)
    ensures DecodeScalar(EncodeScalar(c) + rest) == Some((c, |EncodeScalar(c)|))
  {
    if c < 0x80 {
      assert ([c] + rest)[0] == c;
    } else if c < 0x800 {
      DecodeTwo(c, rest);
    } else if c < 0x10000 {
      DecodeThree(c, rest);
    } else {
      DecodeFour(c, rest);
    }
  }

  lemma {:induction false} DecodeEncode(scalars: seq<Scalar>)
    ensures Decode(Encode(scalars)) == Some(scalars)
  {
    if scalars == [] {
    } else {
      var head, rest := EncodeScalar(scalars[0]), Encode(scalars[1..]);
      DecodeEncodeScalar(scalars[0], rest);
      DecodeEncode(scalars[1..]);
      assert (head + rest)[|head|..] == rest;
      assert scalars == [scalars[0]] + scalars[1..];
    }
  }

  // ---------------------------------------------------------------- the two platform calls

  function TextEncode(units: seq<Unit>): seq<Byte> {
    Encode(ToScalars(units))
  }

  const BOM_BYTES: seq<Byte> := [0xEF, 0xBB, 0xBF]

  /** Strict, and without a leading byte-order mark. */
  function TextDecode(bytes: seq<Byte>): Option<seq<Unit>> {
    var body := if BOM_BYTES <= bytes then bytes[3..] else bytes;
    var scalars := Decode(body);
    if scalars.None? then None else Some(ToUnits(scalars.value))
  }

  predicate StartsWithBom(units: seq<Unit>) {
    units != [] && units[0] == BOM
  }

  lemma BomBytes(scalars: seq<Scalar>)
    ensures BOM_BYTES <= Encode(scalars) <==> scalars != [] && scalars[0] == BOM
    ensures scalars != [] && scalars[0] == BOM ==> Encode(scalars)[3..] == Encode(scalars[1..])
  {
    if scalars != [] {
      var c, rest := scalars[0], Encode(scalars[1..]);
      var bytes := EncodeScalar(c) + rest;
      DecodeEncodeScalar(c, rest);
      if BOM_BYTES <= bytes {
        assert bytes[0] == BOM_BYTES[0] && bytes[1] == BOM_BYTES[1] && bytes[2] == BOM_BYTES[2];
      }
      if c == BOM { assert EncodeScalar(c) == BOM_BYTES; }
    }
  }

  lemma {:induction false} ScalarsLength(units: seq<Unit>)
    ensures |ToUnits(ToScalars(units))| == |units|
    decreases |units|
  {
    if StartsWithPair(units) {
      ScalarsLength(units[2..]);
      assert ToScalars(units)[1..] == ToScalars(units[2..]);
    } else if units != [] {
      ScalarsLength(units[1..]);
      assert ToScalars(units)[1..] == ToScalars(units[1..]);
    }
  }

  /** Decoding what was encoded gives it back if and only if it is well formed and starts with no byte-order mark. */
  lemma TextRoundTrip(units: seq<Unit>)
    ensures TextDecode(TextEncode(units)) == Some(units) <==> WellFormed(units) && !StartsWithBom(units)
  {
    var scalars := ToScalars(units);
    BomBytes(scalars);
    ScalarsRoundTrip(units);
    ScalarsLength(units);
    if scalars != [] && scalars[0] == BOM {
      DecodeEncode(scalars[1..]);
      assert |ToUnits(scalars)| == 1 + |ToUnits(scalars[1..])|;
      assert StartsWithBom(units);
    } else {
      DecodeEncode(scalars);
    }
  }
}
