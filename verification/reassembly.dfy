/** The framing both notification handlers share. A response starts with a
    header notification `<Key>=<hex length>\n<first bytes>`; while the
    declared length is not yet covered, later notifications are raw
    continuation chunks that are appended to the buffer. */
module Reassembly {
  import opened Wire
  import opened Text

  /** `parts[1]` of Split('=') and then `[0]` of Split('\n'): the text
      between the first '=' and the next '=' or newline. None where the
      source indexes past the end of `parts`. */
  function HeaderField(text: string): (r: Option<string>)
    ensures r.Some? ==> '\n' !in r.value && '=' !in r.value
    ensures r.None? <==> '=' !in text
  {
    var parts := Split(text, '=');
    if |parts| < 2 then
      JoinSplit(text, '=');
      None
    else
      assert parts == [parts[0]] + parts[1..];
      Some(Split(parts[1], '\n')[0])
  }

  /** Convert.ToInt32(field, 16) on the header field. */
  function DeclaredLength(text: string): (r: Option<int>)
    ensures r.Some? ==> IsInt32(r.value)
  {
    match HeaderField(text)
    case None => None
    case Some(field) => ParseInt32(field, Hex)
  }

  /** data.Skip(parts[0].Length + 1) with parts = text.Split('\n'): the bytes
      after the first newline, or nothing when there is no newline. */
  function InitialBytes(bytes: seq<byte>): (r: seq<byte>)
    ensures IndexOf(TextOf(bytes), '\n').None? ==> r == []
    ensures IndexOf(TextOf(bytes), '\n').Some? ==> r == bytes[IndexOf(TextOf(bytes), '\n').value + 1..]
  {
    var text := TextOf(bytes);
    var skip := |Split(text, '\n')[0]| + 1;
    FirstPiece(text, '\n');
    if skip <= |bytes| then bytes[skip..] else []
  }

  /** The first piece of a split ends at the first separator. */
  lemma FirstPiece(s: string, sep: char)
    ensures IndexOf(s, sep).None? ==> Split(s, sep)[0] == s
    ensures IndexOf(s, sep).Some? ==> Split(s, sep)[0] == s[..IndexOf(s, sep).value]
  {
  }

  /** How a call of a notification handler ends: it returns its
      `processed` flag, or an exception escapes it. Either way the state
      keeps every assignment made before that point. */
  datatype Handled<S> = Returned(state: S, processed: bool) | Raised(state: S)

  /** The reassembly registers: `_aggregrateDataInValueChanged`,
      `_aggregrateDataLengthRemaining` and `_aggregateDataArray`. */
  datatype Assembly = Assembly(active: bool, remaining: int, buffer: seq<byte>)

  const Idle := Assembly(false, 0, [])

  predicate Valid(a: Assembly)
  {
    IsInt32(a.remaining)
  }

  /** The header branch: the buffer restarts with the initial bytes and the
      remaining count is the declared length less their number (in int
      arithmetic). The active flag is set when bytes remain and is never
      cleared here. */
  function Begin(a: Assembly, declared: int, initial: seq<byte>): (r: Assembly)
    requires IsInt32(declared)
    ensures Valid(r) && r.buffer == initial
    ensures r.active <==> a.active || r.remaining > 0
    ensures IsInt32(declared - |initial|) ==> r.remaining == declared - |initial|
  {
    var remaining := Wrap32(declared - |initial|);
    Assembly(a.active || remaining > 0, remaining, initial)
  }

  /** The continuation branch: the chunk is appended verbatim, the remaining
      count drops by its length, and the flag stays set only while bytes
      remain. */
  function Append(a: Assembly, chunk: seq<byte>): (r: Assembly)
    ensures Valid(r) && r.buffer == a.buffer + chunk
    ensures r.active <==> r.remaining > 0
    ensures IsInt32(a.remaining - |chunk|) ==> r.remaining == a.remaining - |chunk|
  {
    var remaining := Wrap32(a.remaining - |chunk|);
    Assembly(remaining > 0, remaining, a.buffer + chunk)
  }

  function Concat(chunks: seq<seq<byte>>): (r: seq<byte>)
  {
    if |chunks| == 0 then [] else chunks[0] + Concat(chunks[1..])
  }

  /** A run of chunks the count reaches only at the last one. */
  predicate ReachedAtLast(remaining: int, chunks: seq<seq<byte>>)
    decreases |chunks|
  {
    && remaining > 0 && |chunks| >= 1
    && if |chunks| == 1 then |chunks[0]| >= remaining
       else ReachedAtLast(remaining - |chunks[0]|, chunks[1..])
  }

  function AppendAll(a: Assembly, chunks: seq<seq<byte>>): Assembly
    decreases |chunks|
  {
    if |chunks| == 0 then a else AppendAll(Append(a, chunks[0]), chunks[1..])
  }

  /** Where the chunk boundaries fall does not matter: appending the chunks
      one by one ends in the same registers as appending their
      concatenation at once, as long as the count does not wrap around. */
  lemma {:induction false} AppendAllConcat(a: Assembly, chunks: seq<seq<byte>>)
    requires |chunks| >= 1
    requires Valid(a) && IsInt32(a.remaining - |Concat(chunks)|)
    ensures AppendAll(a, chunks) == Append(a, Concat(chunks))
    decreases |chunks|
  {
    var first := Append(a, chunks[0]);
    assert |Concat(chunks)| == |chunks[0]| + |Concat(chunks[1..])|;
    if |chunks| > 1 {
      AppendAllConcat(first, chunks[1..]);
      assert a.buffer + chunks[0] + Concat(chunks[1..]) == a.buffer + Concat(chunks);
    } else {
      assert Concat(chunks) == chunks[0];
    }
  }

  // ---- the header as the other side writes it ----

  /** A header line followed by whatever text comes after it. */
  function HeaderText(key: string, field: string, rest: string): string
  {
    key + ['='] + field + ['\n'] + rest
  }

  /** `<key>=<hex length>\n` followed by the first payload bytes. */
  function Frame(key: string, declared: nat, payload: seq<byte>): seq<byte>
    requires IsAscii(key)
  {
    HexIsAscii(declared);
    BytesOf(HeaderText(key, FormatHex(declared), "")) + payload
  }

  lemma TextOfConcat(a: seq<byte>, b: seq<byte>)
    ensures TextOf(a + b) == TextOf(a) + TextOf(b)
  {
  }

  lemma HexIsAscii(n: nat)
    ensures IsAscii(FormatHex(n))
    ensures '=' !in FormatHex(n) && '\n' !in FormatHex(n)
  {
    var s := FormatHex(n);
    forall i | 0 <= i < |s|
      ensures IsAsciiChar(s[i]) && s[i] != '=' && s[i] != '\n'
    {
      assert IsDigit(s[i], Hex);
    }
  }

  /** A separator-free prefix only lengthens the first piece. */
  lemma SplitPrefix(a: string, b: string, sep: char)
    requires sep !in a
    ensures Split(a + b, sep)[0] == a + Split(b, sep)[0]
  {
    var s := a + b;
    assert s[..|a|] == a && s[|a|..] == b;
    FirstPiece(s, sep);
    FirstPiece(b, sep);
    match IndexOf(b, sep)
    case None =>
      assert sep !in s;
    case Some(j) =>
      assert s[|a| + j] == sep;
      assert s[..|a| + j] == a + b[..j];
      assert sep !in s[..|a| + j];
      var i := IndexOf(s, sep).value;
      assert i == |a| + j;
  }

  /** The text of a frame: its header line, then the payload read as text. */
  lemma FrameText(key: string, declared: nat, payload: seq<byte>)
    requires IsAscii(key)
    ensures TextOf(Frame(key, declared, payload)) == HeaderText(key, FormatHex(declared), TextOf(payload))
  {
    var hex := FormatHex(declared);
    HexIsAscii(declared);
    var line := HeaderText(key, hex, "");
    assert IsAscii(line) by {
      forall i | 0 <= i < |line| ensures IsAsciiChar(line[i]) {
        if i < |key| { assert line[i] == key[i]; }
        else if i == |key| { }
        else if i <= |key| + |hex| { assert line[i] == hex[i - |key| - 1]; }
      }
    }
    TextOfConcat(BytesOf(line), payload);
    TextOfBytesOf(line);
    assert line + TextOf(payload) == HeaderText(key, hex, TextOf(payload));
  }

  /** The field of a header line is the text between '=' and the newline. */
  lemma FieldOfHeader(key: string, field: string, rest: string)
    requires '=' !in key && '=' !in field && '\n' !in field
    ensures HeaderField(HeaderText(key, field, rest)) == Some(field)
  {
    var text := HeaderText(key, field, rest);
    var after := field + ['\n'] + rest;
    assert text == key + ['='] + after;
    IndexOfJoined(key, '=', after);
    assert text[..|key|] == key && text[|key| + 1..] == after;
    var parts := Split(text, '=');
    assert parts[1] == Split(after, '=')[0];
    SplitPrefix(field + ['\n'], rest, '=');
    var piece := Split(rest, '=')[0];
    assert parts[1] == field + ['\n'] + piece;
    IndexOfJoined(field, '\n', piece);
    FirstPiece(parts[1], '\n');
    assert parts[1][..|field|] == field;
  }

  /** The first newline of a header is the one that ends its line. */
  lemma NewlineOfHeader(key: string, field: string, rest: string)
    requires '\n' !in key && '\n' !in field
    ensures IndexOf(HeaderText(key, field, rest), '\n') == Some(|key| + 1 + |field|)
  {
    var head := key + ['='] + field;
    assert '\n' !in head;
    IndexOfJoined(head, '\n', rest);
  }

  /** The declared length of a well-formed header is the hex value
      between '=' and the newline, read as a signed int. */
  lemma FrameDeclaredLength(key: string, declared: nat, payload: seq<byte>)
    requires IsAscii(key) && '=' !in key
    requires IsUInt32(declared)
    ensures DeclaredLength(TextOf(Frame(key, declared, payload))) == Some(Wrap32(declared))
  {
    var hex := FormatHex(declared);
    HexIsAscii(declared);
    FrameText(key, declared, payload);
    FieldOfHeader(key, hex, TextOf(payload));
    ParseFormatHex(declared);
  }

  /** The buffer of a well-formed header starts with exactly the bytes after
      the newline, whatever those bytes are. */
  lemma FrameInitialBytes(key: string, declared: nat, payload: seq<byte>)
    requires IsAscii(key) && '\n' !in key
    ensures InitialBytes(Frame(key, declared, payload)) == payload
  {
    var hex := FormatHex(declared);
    HexIsAscii(declared);
    FrameText(key, declared, payload);
    NewlineOfHeader(key, hex, TextOf(payload));
    var line := BytesOf(HeaderText(key, hex, ""));
    var frame := Frame(key, declared, payload);
    assert |line| == |key| + 1 + |hex| + 1;
    assert frame == line + payload;
    assert frame[|line|..] == payload;
  }

  // ---- answers carrying decimal numbers ----

  /** `<key>=<x>,<y>\n`, the form of the counts and sync-range answers. */
  function PairText(key: string, x: int, y: int): string
  {
    HeaderText(key, FormatDecimal(x) + [','] + FormatDecimal(y), "")
  }

  /** `<key>=<x>\n`: such an answer with its second number missing. */
  function SingleText(key: string, x: int): string
  {
    HeaderText(key, FormatDecimal(x), "")
  }

  lemma PairTextIsAscii(key: string, x: int, y: int)
    requires IsAscii(key)
    ensures IsAscii(PairText(key, x, y)) && IsAscii(SingleText(key, x))
  {
    DecimalIsAscii(x);
    DecimalIsAscii(y);
    var t, u := PairText(key, x, y), SingleText(key, x);
    var a, b := FormatDecimal(x), FormatDecimal(y);
    var k := |key| + 1;
    forall i | 0 <= i < |t| ensures IsAsciiChar(t[i]) {
      if i < |key| { assert t[i] == key[i]; }
      else if k <= i < k + |a| { assert t[i] == a[i - k]; }
      else if k + |a| < i < k + |a| + 1 + |b| { assert t[i] == b[i - k - |a| - 1]; }
    }
    forall i | 0 <= i < |u| ensures IsAsciiChar(u[i]) {
      if i < |key| { assert u[i] == key[i]; }
      else if k <= i < k + |a| { assert u[i] == a[i - k]; }
    }
  }

  function PairNotification(key: string, x: int, y: int): seq<byte>
    requires IsAscii(key)
  {
    PairTextIsAscii(key, x, y);
    BytesOf(PairText(key, x, y))
  }

  function SingleNotification(key: string, x: int): seq<byte>
    requires IsAscii(key)
  {
    PairTextIsAscii(key, x, 0);
    BytesOf(SingleText(key, x))
  }

  /** The two numbers of a pair answer come back as the two pieces of its
      field. */
  lemma PairFields(key: string, x: int, y: int)
    requires IsAscii(key) && '=' !in key
    ensures var text := TextOf(PairNotification(key, x, y));
            && StartsWith(text, key + "=")
            && HeaderField(text).Some?
            && Split(HeaderField(text).value, ',') == [FormatDecimal(x), FormatDecimal(y)]
  {
    var a, b := FormatDecimal(x), FormatDecimal(y);
    var field := a + [','] + b;
    PairTextIsAscii(key, x, y);
    var text := PairText(key, x, y);
    TextOfBytesOf(text);
    assert text[..|key| + 1] == key + "=";
    FormatDecimalAvoids(x, '='); FormatDecimalAvoids(x, '\n'); FormatDecimalAvoids(x, ',');
    FormatDecimalAvoids(y, '='); FormatDecimalAvoids(y, '\n'); FormatDecimalAvoids(y, ',');
    assert '=' !in field && '\n' !in field by {
      forall i | 0 <= i < |field| ensures field[i] != '=' && field[i] != '\n' {
        if i < |a| { assert field[i] == a[i]; }
        else if i > |a| { assert field[i] == b[i - |a| - 1]; }
      }
    }
    FieldOfHeader(key, field, "");
    assert Join([a, b], ',') == field;
    SplitJoin([a, b], ',');
  }

  /** The field of an answer with one number splits into that number alone. */
  lemma SingleField(key: string, x: int)
    requires IsAscii(key) && '=' !in key
    ensures var text := TextOf(SingleNotification(key, x));
            && StartsWith(text, key + "=")
            && HeaderField(text).Some?
            && Split(HeaderField(text).value, ',') == [FormatDecimal(x)]
  {
    var a := FormatDecimal(x);
    PairTextIsAscii(key, x, 0);
    var text := SingleText(key, x);
    TextOfBytesOf(text);
    assert text[..|key| + 1] == key + "=";
    FormatDecimalAvoids(x, '='); FormatDecimalAvoids(x, '\n'); FormatDecimalAvoids(x, ',');
    FieldOfHeader(key, a, "");
    assert Split(a, ',') == [a];
  }

  /** `after` is `before` or `before` with one more element. */
  predicate GrowsByOne<T(==)>(before: seq<T>, after: seq<T>)
  {
    after == before || (|after| == |before| + 1 && after == before + [after[|before|]])
  }
}
