/** Bytes, the fixed-width integers of the wire, and their little-endian form
    (encode.go, decode.go). */
module Bytes {

  type byte = x: int | 0 <= x < 0x100
  type bytes = seq<byte>

  type uint8 = x: int | 0 <= x < 0x100
  type uint16 = x: int | 0 <= x < 0x1_0000
  type uint32 = x: int | 0 <= x < 0x1_0000_0000
  type uint64 = x: int | 0 <= x < 0x1_0000_0000_0000_0000

  /** The number of values a field of `width` bytes can hold. */
  function Span(width: nat): (s: nat)
    ensures s > 0
  {
    if width == 0 then 1 else 0x100 * Span(width - 1)
  }

  lemma SpanOfWidths()
    ensures Span(1) == 0x100
    ensures Span(2) == 0x1_0000
    ensures Span(4) == 0x1_0000_0000
    ensures Span(8) == 0x1_0000_0000_0000_0000
  {
    assert Span(4) == 0x100 * (0x100 * Span(2));
    assert Span(8) == 0x100 * (0x100 * (0x100 * (0x100 * Span(4))));
  }

  /** The low `width` bytes of v, least significant first. A value too large for the width
      loses its high bytes, as the unsigned conversions in the source do. */
  function LittleEndian(v: nat, width: nat): (b: bytes)
    ensures |b| == width
    decreases v, width
  {
    if width == 0 then [] else [v % 0x100] + LittleEndian(v / 0x100, width - 1)
  }

  function FromLittleEndian(b: bytes): nat
  {
    if b == [] then 0 else b[0] + 0x100 * FromLittleEndian(b[1..])
  }

  /** A value that fits its width survives; what is read back always fits. */
  lemma {:induction false} DecodeEncodeInt(v: nat, width: nat)
    requires v < Span(width)
    ensures FromLittleEndian(LittleEndian(v, width)) == v
    decreases width
  {
    if width > 0 {
      DecodeEncodeInt(v / 0x100, width - 1);
      assert LittleEndian(v, width)[1..] == LittleEndian(v / 0x100, width - 1);
    }
  }

  lemma {:induction false} EncodeDecodeInt(b: bytes)
    ensures FromLittleEndian(b) < Span(|b|)
    ensures LittleEndian(FromLittleEndian(b), |b|) == b
  {
    if b != [] {
      EncodeDecodeInt(b[1..]);
      var v := FromLittleEndian(b);
      assert v / 0x100 == FromLittleEndian(b[1..]) && v % 0x100 == b[0];
      assert b == [b[0]] + b[1..];
    }
  }

  datatype Option<+T> = None | Some(value: T)

  /** The protocol-level failures of errors.go, and the stream failures of io.ReadFull. */
  datatype Error =
    | Truncated
    | TrailingBytes
    | TooLarge
    | UnknownType
    | TooManyElements
    | EndOfStream
    | UnexpectedEnd

  datatype Result<+T> = Ok(value: T) | Err(error: Error)
  {
    predicate IsFailure() { Err? }

    function PropagateFailure<U>(): Result<U>
      requires Err?
    {
      Err(error)
    }

    function Extract(): T
      requires Ok?
    {
      value
    }
  }
}
