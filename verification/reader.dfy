/** The BinaryReader calls the record constructors make, each reading from
    the front of the buffer and returning its value with the unread rest.
    A read past the end fails, as BinaryReader throws EndOfStreamException. */
module Reader {
  import opened Wire

  function ReadByte(data: seq<byte>): (r: Result<(byte, seq<byte>)>)
    ensures r.Ok? <==> |data| >= 1
    ensures r.Ok? ==> r.value == (data[0], data[1..])
  {
    if |data| < 1 then Err(EndOfStream) else Ok((data[0], data[1..]))
  }

  /** ReadChar on an ASCII byte; any other byte starts a multi-byte UTF-8
      char, which the model does not decode. */
  function ReadChar(data: seq<byte>): (r: Result<(char, seq<byte>)>)
    ensures |data| < 1 ==> r == Err(EndOfStream)
    ensures r.Ok? <==> |data| >= 1 && IsAsciiByte(data[0])
    ensures r.Ok? ==> r.value == (CharOf(data[0]), data[1..])
  {
    if |data| < 1 then Err(EndOfStream)
    else if !IsAsciiByte(data[0]) then Err(NonAsciiChar)
    else Ok((CharOf(data[0]), data[1..]))
  }

  function ReadUInt32(data: seq<byte>): (r: Result<(nat, seq<byte>)>)
    ensures r.Ok? <==> |data| >= 4
    ensures r.Ok? ==> r.value == (UInt32Of(data[..4]), data[4..])
  {
    if |data| < 4 then Err(EndOfStream) else Ok((UInt32Of(data[..4]), data[4..]))
  }

  function ReadInt32(data: seq<byte>): (r: Result<(int, seq<byte>)>)
    ensures r.Ok? <==> |data| >= 4
    ensures r.Ok? ==> r.value == (Int32Of(data[..4]), data[4..])
  {
    if |data| < 4 then Err(EndOfStream) else Ok((Int32Of(data[..4]), data[4..]))
  }

  function ReadDouble(data: seq<byte>): (r: Result<(Double, seq<byte>)>)
    ensures r.Ok? <==> |data| >= 8
    ensures r.Ok? ==> r.value == (data[..8], data[8..])
  {
    if |data| < 8 then Err(EndOfStream) else Ok((data[..8], data[8..]))
  }

  /** ReadChars(n) on ASCII bytes. With fewer than n bytes left BinaryReader
      returns a shorter array instead of throwing, but every ReadChars in the
      record constructors is followed by another read, which then throws; the
      model fails at the ReadChars itself. */
  function ReadChars(n: nat, data: seq<byte>): (r: Result<(string, seq<byte>)>)
    ensures |data| < n ==> r == Err(EndOfStream)
    ensures r.Ok? <==> |data| >= n && AllAsciiBytes(data[..n])
    ensures r.Ok? ==> r.value == (TextOf(data[..n]), data[n..])
  {
    if |data| < n then Err(EndOfStream)
    else if !AllAsciiBytes(data[..n]) then Err(NonAsciiChar)
    else Ok((TextOf(data[..n]), data[n..]))
  }

  /** `n` consecutive ReadDouble calls. */
  function ReadDoubles(n: nat, data: seq<byte>): (r: Result<(seq<Double>, seq<byte>)>)
    ensures r.Ok? <==> |data| >= 8 * n
    ensures r.Ok? ==> |r.value.0| == n && r.value.1 == data[8 * n..]
    decreases n
  {
    if n == 0 then Ok(([], data))
    else
      var first :- ReadDouble(data);
      var more :- ReadDoubles(n - 1, first.1);
      Ok(([first.0] + more.0, more.1))
  }

  /** The bytes of consecutive doubles, as a writer emits them. */
  function DoublesBytes(ds: seq<Double>): (b: seq<byte>)
    ensures |b| == 8 * |ds|
  {
    if |ds| == 0 then [] else ds[0] + DoublesBytes(ds[1..])
  }

  /** Reading back written doubles recovers them and stops where they end. */
  lemma {:induction false} ReadDoublesBytes(ds: seq<Double>, rest: seq<byte>)
    ensures ReadDoubles(|ds|, DoublesBytes(ds) + rest) == Ok((ds, rest))
    decreases |ds|
  {
    if |ds| > 0 {
      var data := DoublesBytes(ds) + rest;
      assert data == ds[0] + (DoublesBytes(ds[1..]) + rest);
      ReadDoublesBytes(ds[1..], rest);
      assert [ds[0]] + ds[1..] == ds;
    }
  }

  /** Writing back read doubles gives the bytes they were read from. */
  lemma {:induction false} DoublesBytesRead(n: nat, data: seq<byte>)
    requires |data| >= 8 * n
    ensures DoublesBytes(ReadDoubles(n, data).value.0) == data[..8 * n]
    decreases n
  {
    if n > 0 {
      var ds := ReadDoubles(n, data).value.0;
      DoublesBytesRead(n - 1, data[8..]);
      assert ds[1..] == ReadDoubles(n - 1, data[8..]).value.0;
      assert data[..8 * n] == data[..8] + data[8..][..8 * (n - 1)];
    }
  }

  /** The writer-side counterpart of ReadChars for ASCII text. */
  lemma ReadCharsBytes(s: string, rest: seq<byte>)
    requires IsAscii(s)
    ensures ReadChars(|s|, BytesOf(s) + rest) == Ok((s, rest))
  {
    var data := BytesOf(s) + rest;
    assert data[..|s|] == BytesOf(s);
    TextOfBytesOf(s);
  }

  /** Each single-value reader undoes the matching writer and leaves the rest. */
  lemma ReadByteBytes(b: byte, rest: seq<byte>)
    ensures ReadByte([b] + rest) == Ok((b, rest))
  {
    assert ([b] + rest)[1..] == rest;
  }

  lemma ReadUInt32Bytes(n: nat, rest: seq<byte>)
    requires IsUInt32(n)
    ensures ReadUInt32(UInt32Bytes(n) + rest) == Ok((n, rest))
  {
    var data := UInt32Bytes(n) + rest;
    assert data[..4] == UInt32Bytes(n) && data[4..] == rest;
  }

  lemma ReadInt32Bytes(n: int, rest: seq<byte>)
    requires IsInt32(n)
    ensures ReadInt32(Int32Bytes(n) + rest) == Ok((n, rest))
  {
    var data := Int32Bytes(n) + rest;
    assert data[..4] == Int32Bytes(n) && data[4..] == rest;
  }

  lemma ReadDoubleBytes(d: Double, rest: seq<byte>)
    ensures ReadDouble(d + rest) == Ok((d, rest))
  {
    assert (d + rest)[..8] == d && (d + rest)[8..] == rest;
  }

  /** Dropping a prefix and then another is dropping both at once. */
  lemma DropDrop(data: seq<byte>, a: nat, b: nat)
    requires a + b <= |data|
    ensures data[a..][b..] == data[a + b..]
  {
  }
}
