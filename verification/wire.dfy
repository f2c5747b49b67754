/** Byte-level vocabulary shared by every decoder: bytes, the 32-bit integer
    encodings BinaryReader uses (little-endian, two's complement), doubles
    carried as opaque bytes, one-byte-per-char ASCII text, and the failure
    type a decoder returns instead of throwing. */
module Wire {

  newtype byte = x: int | 0 <= x < 0x100

  /** An IEEE-754 double as its eight little-endian bytes. The model never
      computes with doubles, so their bits are carried unchanged. */
  type Double = s: seq<byte> | |s| == 8 witness [0, 0, 0, 0, 0, 0, 0, 0]

  /** The bytes of 0.0, the value a field keeps when it is never read. */
  const ZeroDouble: Double := [0, 0, 0, 0, 0, 0, 0, 0]

  predicate IsUInt32(n: int) { 0 <= n < 0x1_0000_0000 }

  predicate IsInt32(n: int) { -0x8000_0000 <= n < 0x8000_0000 }

  /** C# `int` arithmetic in an unchecked context: the exact result reduced
      to the 32-bit two's complement range. */
  function Wrap32(x: int): (r: int)
    ensures IsInt32(r)
    ensures (x - r) % 0x1_0000_0000 == 0
    ensures IsInt32(x) ==> r == x
  {
    (x + 0x8000_0000) % 0x1_0000_0000 - 0x8000_0000
  }

  /** The unsigned value of four little-endian bytes (BinaryReader.ReadUInt32). */
  function UInt32Of(b: seq<byte>): (n: nat)
    requires |b| == 4
    ensures IsUInt32(n)
  {
    b[0] as nat + 0x100 * b[1] as nat + 0x1_0000 * b[2] as nat + 0x100_0000 * b[3] as nat
  }

  /** The four little-endian bytes of an unsigned 32-bit value. */
  function UInt32Bytes(n: nat): (b: seq<byte>)
    requires IsUInt32(n)
    ensures |b| == 4
    ensures UInt32Of(b) == n
  {
    var b0 := n % 0x100;
    var q1 := n / 0x100;
    var b1 := q1 % 0x100;
    var q2 := q1 / 0x100;
    var b2 := q2 % 0x100;
    var b3 := q2 / 0x100;
    assert n == b0 + 0x100 * (b1 + 0x100 * (b2 + 0x100 * b3));
    [b0 as byte, b1 as byte, b2 as byte, b3 as byte]
  }

  /** Division by 256 splits off the low byte. */
  lemma SplitLowByte(x: int, low: int, high: int)
    requires 0 <= low < 0x100
    requires x == low + 0x100 * high
    ensures x % 0x100 == low
    ensures x / 0x100 == high
  {
  }

  /** Reading four bytes and writing them back gives the same four bytes. */
  lemma UInt32BytesOf(b: seq<byte>)
    requires |b| == 4
    ensures UInt32Bytes(UInt32Of(b)) == b
  {
    var n := UInt32Of(b);
    var h2 := b[2] as int + 0x100 * b[3] as int;
    var h1 := b[1] as int + 0x100 * h2;
    SplitLowByte(n, b[0] as int, h1);
    SplitLowByte(h1, b[1] as int, h2);
    SplitLowByte(h2, b[2] as int, b[3] as int);
    var c := UInt32Bytes(n);
    assert c[0] == b[0] && c[1] == b[1] && c[2] == b[2] && c[3] == b[3];
  }

  /** The signed value of four little-endian bytes (BinaryReader.ReadInt32). */
  function Int32Of(b: seq<byte>): (i: int)
    requires |b| == 4
    ensures IsInt32(i)
  {
    var u := UInt32Of(b);
    if u < 0x8000_0000 then u else u - 0x1_0000_0000
  }

  /** The four little-endian two's complement bytes of a signed 32-bit value. */
  function Int32Bytes(i: int): (b: seq<byte>)
    requires IsInt32(i)
    ensures |b| == 4
    ensures Int32Of(b) == i
  {
    UInt32Bytes(if i < 0 then i + 0x1_0000_0000 else i)
  }

  lemma Int32BytesOf(b: seq<byte>)
    requires |b| == 4
    ensures Int32Bytes(Int32Of(b)) == b
  {
    UInt32BytesOf(b);
  }

  /** BinaryReader reads chars as UTF-8. Below 0x80 one byte is one char;
      the model only decodes that range. */
  predicate IsAsciiByte(b: byte) { b < 0x80 }

  predicate IsAsciiChar(c: char) { c < 0x80 as char }

  predicate IsAscii(s: string) { forall i :: 0 <= i < |s| ==> IsAsciiChar(s[i]) }

  predicate AllAsciiBytes(b: seq<byte>) { forall i :: 0 <= i < |b| ==> IsAsciiByte(b[i]) }

  /** The char a byte stands for when each byte is read as one char. */
  function CharOf(b: byte): char
  {
    b as int as char
  }

  /** A boolean written as one byte: 1 for true, 0 for false. The records
      read it back either as `ReadByte() == 1` or as a char tested `> 0`. */
  function FlagByte(flag: bool): byte
  {
    if flag then 1 else 0
  }

  lemma FlagCharOf(flag: bool)
    ensures IsAsciiByte(FlagByte(flag))
    ensures CharOf(FlagByte(flag)) > 0 as char <==> flag
  {
  }

  function ByteOf(c: char): byte
    requires IsAsciiChar(c)
  {
    c as int as byte
  }

  /** Bytes read one char per byte; on ASCII bytes this is what UTF-8 gives. */
  function TextOf(b: seq<byte>): (s: string)
    ensures |s| == |b|
    ensures forall i :: 0 <= i < |b| ==> s[i] == CharOf(b[i])
  {
    seq(|b|, i requires 0 <= i < |b| => CharOf(b[i]))
  }

  function BytesOf(s: string): (b: seq<byte>)
    requires IsAscii(s)
    ensures |b| == |s|
    ensures forall i :: 0 <= i < |s| ==> b[i] == ByteOf(s[i])
  {
    seq(|s|, i requires 0 <= i < |s| => ByteOf(s[i]))
  }

  /** ASCII text survives the trip to bytes and back. */
  lemma TextOfBytesOf(s: string)
    requires IsAscii(s)
    ensures AllAsciiBytes(BytesOf(s))
    ensures TextOf(BytesOf(s)) == s
  {
  }

  /** ASCII bytes survive the trip to text and back. */
  lemma BytesOfTextOf(b: seq<byte>)
    requires AllAsciiBytes(b)
    ensures IsAscii(TextOf(b))
    ensures BytesOf(TextOf(b)) == b
  {
  }

  /** Why a decode produced no record. EndOfStream is the source's
      EndOfStreamException (or an index past the end of the buffer);
      NonAsciiChar marks a char slot holding a byte of 0x80 or more, which
      BinaryReader would decode as a multi-byte UTF-8 sequence and which
      the model does not follow; NegativeCount is the
      ArgumentOutOfRangeException of ReadChars given a count that became
      negative when cast from uint to int. */
  datatype DecodeError = EndOfStream | NonAsciiChar | NegativeCount

  datatype Result<+T> = Ok(value: T) | Err(error: DecodeError) {

    predicate IsFailure() { Err? }

    function PropagateFailure<U>(): Result<U>
      requires Err?
    {
      Err(error)
    }

    function Extract(): T
      requires Ok?
    {
      value
    }
  }

  datatype Option<+T> = None | Some(value: T)
}
