/**
  The bound-id path projection (conformance/src/lib/bound-id.ts): every byte of the id
  outside the passthrough set becomes `~` and two hex digits.
 */
module BoundId {
  import opened Wrappers
  import opened Utf

  const TILDE: Unit := '~' as int

  predicate IsPassthrough(b: int) {
    'A' as int <= b <= 'Z' as int || 'a' as int <= b <= 'z' as int || '0' as int <= b <= '9' as int
    || b == '.' as int || b == '_' as int || b == '-' as int
  }

  /** The unreserved set of section 2.3 of RFC 3986. */
  predicate IsUnreserved(u: Unit) {
    IsPassthrough(u) || u == TILDE
  }

  function UpperHex(n: int): Unit
    requires 0 <= n < 16
  {
    if n < 10 then '0' as int + n else 'A' as int + n - 10
  }

  // ---------------------------------------------------------------- encoding

  function EscapeByte(b: Byte): seq<Unit> {
    if IsPassthrough(b) then [b] else [TILDE, UpperHex(b / 16), UpperHex(b % 16)]
  }

  function Escape(bytes: seq<Byte>): seq<Unit> {
    if bytes == [] then [] else EscapeByte(bytes[0]) + Escape(bytes[1..])
  }

  method ProjectBoundId(id: seq<Unit>) returns (out: seq<Unit>)
    ensures out == Escape(TextEncode(id))
  {
    out := [];
    var bytes := TextEncode(id);
    for k := 0 to |bytes|
      invariant out + Escape(bytes[k..]) == Escape(bytes)
    {
      assert bytes[k..][1..] == bytes[k + 1..];
      out := out + EscapeByte(bytes[k]);
    }
  }

  // ---------------------------------------------------------------- decoding

  datatype DecodeError = BadEscape(index: nat) | NotUtf8

  /** At `i`, `~` is followed by two hex digits. */
  predicate IsEscape(segment: seq<Unit>, i: nat) {
    i + 2 < |segment| && segment[i] == TILDE && HexValue(segment[i + 1]).Some? && HexValue(segment[i + 2]).Some?
  }

  function EscapedByte(segment: seq<Unit>, i: nat): Byte
    requires IsEscape(segment, i)
  {
    HexValue(segment[i + 1]).value * 16 + HexValue(segment[i + 2]).value
  }

  /** Where the first `~` that starts no escape is, reading from `i`. */
  function FirstBadEscape(segment: seq<Unit>, i: nat): (r: Option<nat>)
    ensures r.Some? ==> i <= r.value < |segment| && segment[r.value] == TILDE && !IsEscape(segment, r.value)
    decreases |segment| - i
  {
    if i >= |segment| then None
    else if segment[i] != TILDE then FirstBadEscape(segment, i + 1)
    else if IsEscape(segment, i) then FirstBadEscape(segment, i + 3)
    else Some(i)
  }

  /** The bytes from `i` on; a unit that is not an escape stands for its own encoding. */
  function BytesFrom(segment: seq<Unit>, i: nat): seq<Byte>
    requires FirstBadEscape(segment, i).None?
    decreases |segment| - i
  {
    if i >= |segment| then []
    else if segment[i] == TILDE then [EscapedByte(segment, i)] + BytesFrom(segment, i + 3)
    else TextEncode([segment[i]]) + BytesFrom(segment, i + 1)
  }

  /** What decoding a segment gives. */
  function Decoded(segment: seq<Unit>): Result<seq<Unit>, DecodeError> {
    if FirstBadEscape(segment, 0).Some? then Err(BadEscape(FirstBadEscape(segment, 0).value))
    else
      var id := TextDecode(BytesFrom(segment, 0));
      if id.None? then Err(NotUtf8) else Ok(id.value)
  }

  /** The first loop. */
  method Validate(segment: seq<Unit>) returns (bad: Option<nat>)
    ensures bad == FirstBadEscape(segment, 0)
  {
    var i := 0;
    while i < |segment|
      invariant FirstBadEscape(segment, 0) == FirstBadEscape(segment, i)
      decreases |segment| - i
    {
      if segment[i] != TILDE { i := i + 1; continue; }
      if !IsEscape(segment, i) { return Some(i); }
      i := i + 3;
    }
    bad := None;
  }

  /** What is collected up to `i`, the rest still to come. */
  ghost predicate Collected(segment: seq<Unit>, i: nat, bytes: seq<Byte>) {
    FirstBadEscape(segment, 0).None? && FirstBadEscape(segment, i).None?
    && bytes + BytesFrom(segment, i) == BytesFrom(segment, 0)
  }

  /** A unit, or an escape and the two digits after it, becomes its bytes. */
  lemma CollectNext(segment: seq<Unit>, i: nat, bytes: seq<Byte>)
    requires Collected(segment, i, bytes) && i < |segment|
    ensures segment[i] == TILDE ==> IsEscape(segment, i)
    ensures segment[i] == TILDE ==> Collected(segment, i + 3, bytes + [EscapedByte(segment, i)])
    ensures segment[i] != TILDE ==> Collected(segment, i + 1, bytes + TextEncode([segment[i]]))
  {
    if segment[i] == TILDE {
      Reassociate(bytes, [EscapedByte(segment, i)], BytesFrom(segment, i + 3));
    } else {
      Reassociate(bytes, TextEncode([segment[i]]), BytesFrom(segment, i + 1));
    }
  }

  lemma Reassociate(a: seq<Byte>, b: seq<Byte>, c: seq<Byte>)
    ensures (a + b) + c == a + (b + c)
  {}

  /** The second loop: it meets `~` only where the first one found an escape. */
  method CollectBytes(segment: seq<Unit>) returns (bytes: seq<Byte>)
    requires FirstBadEscape(segment, 0).None?
    ensures bytes == BytesFrom(segment, 0)
  {
    bytes := [];
    var i := 0;
    while i < |segment|
      invariant Collected(segment, i, bytes)
      decreases |segment| - i
    {
      CollectNext(segment, i, bytes);
      if segment[i] == TILDE {
        bytes := bytes + [EscapedByte(segment, i)];
        i := i + 3;
      } else {
        bytes := bytes + TextEncode([segment[i]]);
        i := i + 1;
      }
    }
  }

  method UnprojectBoundId(segment: seq<Unit>) returns (r: Result<seq<Unit>, DecodeError>)
    ensures r == Decoded(segment)
  {
    var bad := Validate(segment);
    if bad.Some? { return Err(BadEscape(bad.value)); }
    var bytes := CollectBytes(segment);
    var id := TextDecode(bytes);
    r := if id.None? then Err(NotUtf8) else Ok(id.value);
  }

  // ---------------------------------------------------------------- round trip

  lemma PassthroughEncodes(b: Byte)
    requires IsPassthrough(b)
    ensures TextEncode([b]) == [b]
  {
    assert ToScalars([b]) == [b];
    assert Encode([b]) == EncodeScalar(b) + Encode([]);
  }

  /** The segment is valid and stands for these bytes. */
  ghost predicate Reads(segment: seq<Unit>, bytes: seq<Byte>) {
    FirstBadEscape(segment, 0).None? && BytesFrom(segment, 0) == bytes
  }

  lemma EscapeShifts(s: seq<Unit>, w: nat, i: nat)
    requires w <= |s|
    ensures IsEscape(s, w + i) <==> IsEscape(s[w..], i)
    ensures IsEscape(s, w + i) ==> EscapedByte(s, w + i) == EscapedByte(s[w..], i)
  {
    if w + i + 2 < |s| {
      assert s[w..][i] == s[w + i] && s[w..][i + 1] == s[w + i + 1] && s[w..][i + 2] == s[w + i + 2];
    }
  }

  lemma {:induction false} ValidityShifts(s: seq<Unit>, w: nat, i: nat)
    requires w <= |s|
    ensures FirstBadEscape(s, w + i).None? <==> FirstBadEscape(s[w..], i).None?
    decreases |s| - i
  {
    if w + i >= |s| {
    } else {
      assert s[w..][i] == s[w + i];
      EscapeShifts(s, w, i);
      ValidityShifts(s, w, i + 1);
      ValidityShifts(s, w, i + 3);
    }
  }

  lemma {:induction false} BytesShift(s: seq<Unit>, w: nat, i: nat)
    requires w <= |s| && FirstBadEscape(s, w + i).None? && FirstBadEscape(s[w..], i).None?
    ensures BytesFrom(s, w + i) == BytesFrom(s[w..], i)
    decreases |s| - i
  {
    if w + i >= |s| {
    } else {
      assert s[w..][i] == s[w + i];
      if s[w + i] == TILDE {
        EscapeShifts(s, w, i);
        BytesShift(s, w, i + 3);
      } else {
        BytesShift(s, w, i + 1);
      }
    }
  }

  lemma ReadByte(b: Byte, tail: seq<Unit>, bytes: seq<Byte>)
    requires Reads(tail, bytes)
    ensures Reads(EscapeByte(b) + tail, [b] + bytes)
  {
    var s := EscapeByte(b) + tail;
    var w := |EscapeByte(b)|;
    assert s[w..] == tail;
    ValidityShifts(s, w, 0);
    BytesShift(s, w, 0);
    if IsPassthrough(b) {
      PassthroughEncodes(b);
    } else {
      assert IsEscape(s, 0);
      assert HexValue(UpperHex(b / 16)) == Some(b / 16) && HexValue(UpperHex(b % 16)) == Some(b % 16);
    }
  }

  /** Every byte string survives, whatever it holds. */
  lemma {:induction false} BytesRoundTrip(bytes: seq<Byte>)
    ensures Reads(Escape(bytes), bytes)
  {
    if bytes == [] {
    } else {
      BytesRoundTrip(bytes[1..]);
      ReadByte(bytes[0], Escape(bytes[1..]), bytes[1..]);
      assert [bytes[0]] + bytes[1..] == bytes;
    }
  }

  /** The codec gives the id back if and only if it is well-formed UTF-16 without a leading byte-order mark. */
  lemma BoundIdRoundTrip(id: seq<Unit>)
    ensures Decoded(Escape(TextEncode(id))) == Ok(id) <==> WellFormed(id) && !StartsWithBom(id)
  {
    BytesRoundTrip(TextEncode(id));
    TextRoundTrip(id);
  }

  /** Ids with one projection have one encoding, and are one id when both are well formed. */
  lemma ProjectionInjective(id: seq<Unit>, other: seq<Unit>)
    requires Escape(TextEncode(id)) == Escape(TextEncode(other))
    ensures TextEncode(id) == TextEncode(other)
    ensures WellFormed(id) && WellFormed(other) ==> id == other
  {
    BytesRoundTrip(TextEncode(id));
    BytesRoundTrip(TextEncode(other));
    DecodeEncode(ToScalars(id));
    DecodeEncode(ToScalars(other));
    ScalarsRoundTrip(id);
    ScalarsRoundTrip(other);
  }

  /** A projection is one path segment: nothing in it is reserved. */
  lemma {:induction false} ProjectionIsOneSegment(bytes: seq<Byte>)
    ensures forall u | u in Escape(bytes) :: IsUnreserved(u)
  {
    if bytes == [] {
    } else {
      ProjectionIsOneSegment(bytes[1..]);
    }
  }
}
