/** The string operations the notification handlers apply to the text of a
    notification: prefix tests, String.Split on one char, and
    Convert.ToInt32(string, fromBase) for bases 10 and 16, together with the
    formatting the other side of the link uses. */
module Text {
  import opened Wire

  predicate StartsWith(s: string, prefix: string)
  {
    |prefix| <= |s| && s[..|prefix|] == prefix
  }

  /** Two prefixes that differ at a position both reach cannot both open
      the same text. */
  lemma PrefixesExclusive(s: string, a: string, b: string, k: nat)
    requires k < |a| && k < |b| && a[k] != b[k]
    ensures !(StartsWith(s, a) && StartsWith(s, b))
  {
    if StartsWith(s, a) && |b| <= |s| {
      assert s[..|b|][k] == s[k] == s[..|a|][k] == a[k];
    }
  }

  /** The position of the first `c` in `s`. */
  function IndexOf(s: string, c: char): (r: Option<nat>)
    ensures r.Some? ==> r.value < |s| && s[r.value] == c && c !in s[..r.value]
    ensures r.None? <==> c !in s
  {
    if |s| == 0 then None
    else if s[0] == c then Some(0)
    else
      match IndexOf(s[1..], c)
      case None => None
      case Some(i) =>
        assert s[..i + 1] == [s[0]] + s[1..][..i];
        Some(i + 1)
  }

  /** String.Split(sep): the pieces between occurrences of `sep`. */
  function Split(s: string, sep: char): (parts: seq<string>)
    ensures |parts| >= 1
    ensures forall k :: 0 <= k < |parts| ==> sep !in parts[k]
    decreases |s|
  {
    match IndexOf(s, sep)
    case None => [s]
    case Some(i) => [s[..i]] + Split(s[i + 1..], sep)
  }

  /** String.Join: the pieces with `sep` between them. */
  function Join(parts: seq<string>, sep: char): string
    requires |parts| >= 1
  {
    if |parts| == 1 then parts[0] else parts[0] + [sep] + Join(parts[1..], sep)
  }

  /** Splitting loses nothing: joining the pieces gives the string back. */
  lemma {:induction false} JoinSplit(s: string, sep: char)
    ensures Join(Split(s, sep), sep) == s
    decreases |s|
  {
    match IndexOf(s, sep)
    case None =>
    case Some(i) =>
      var parts := Split(s, sep);
      var tail := Split(s[i + 1..], sep);
      assert parts == [s[..i]] + tail;
      assert parts[1..] == tail;
      JoinSplit(s[i + 1..], sep);
      calc {
        Join(parts, sep);
        parts[0] + [sep] + Join(tail, sep);
        s[..i] + [sep] + s[i + 1..];
        s;
      }
  }

  lemma IndexOfJoined(a: string, c: char, b: string)
    requires c !in a
    ensures IndexOf(a + [c] + b, c) == Some(|a|)
  {
    var s := a + [c] + b;
    var r := IndexOf(s, c);
    assert s[|a|] == c;
    assert s[..|a|] == a;
  }

  /** A piece free of `sep` followed by `sep` splits off as the first piece. */
  lemma SplitCons(a: string, sep: char, rest: string)
    requires sep !in a
    ensures Split(a + [sep] + rest, sep) == [a] + Split(rest, sep)
  {
    var s := a + [sep] + rest;
    IndexOfJoined(a, sep, rest);
    assert s[..|a|] == a;
    assert s[|a| + 1..] == rest;
  }

  /** Pieces free of `sep` are exactly what splitting their join returns. */
  lemma {:induction false} SplitJoin(parts: seq<string>, sep: char)
    requires |parts| >= 1
    requires forall k :: 0 <= k < |parts| ==> sep !in parts[k]
    ensures Split(Join(parts, sep), sep) == parts
  {
    if |parts| == 1 {
      assert sep !in parts[0];
    } else {
      var tail := parts[1..];
      assert sep !in parts[0];
      SplitCons(parts[0], sep, Join(tail, sep));
      assert forall k :: 0 <= k < |tail| ==> sep !in tail[k] by {
        forall k | 0 <= k < |tail| ensures sep !in tail[k] {
          assert tail[k] == parts[k + 1];
        }
      }
      SplitJoin(tail, sep);
      assert [parts[0]] + tail == parts;
    }
  }

  // ---- Convert.ToInt32(string, fromBase) ----

  datatype Radix = Decimal | Hex

  function Base(r: Radix): (b: nat)
    ensures b == 10 || b == 16
  {
    match r
    case Decimal => 10
    case Hex => 16
  }

  /** The value .NET gives a digit in any base up to 36. */
  function DigitValue(c: char): (v: Option<nat>)
    ensures v.Some? ==> v.value < 36
  {
    if '0' <= c <= '9' then Some(c as nat - '0' as nat)
    else if 'A' <= c <= 'Z' then Some(c as nat - 'A' as nat + 10)
    else if 'a' <= c <= 'z' then Some(c as nat - 'a' as nat + 10)
    else None
  }

  predicate IsDigit(c: char, radix: Radix)
  {
    DigitValue(c).Some? && DigitValue(c).value < Base(radix)
  }

  predicate AllDigits(s: string, radix: Radix)
  {
    forall i :: 0 <= i < |s| ==> IsDigit(s[i], radix)
  }

  /** The number the digits spell, most significant first. */
  function DigitsValue(s: string, radix: Radix): nat
    requires AllDigits(s, radix)
  {
    if |s| == 0 then 0
    else DigitsValue(s[..|s| - 1], radix) * Base(radix) + DigitValue(s[|s| - 1]).value
  }

  /** Convert.ToInt32(s, 10) and Convert.ToInt32(s, 16), None where they
      throw. No white space is accepted. A leading '-' is allowed only in
      base 10 and '+' in both; base 16 skips one "0x" or "0X" when at
      least one more char follows the '0'. At least one digit must remain
      and nothing else may follow the digits. Base 10 accepts values in the
      int range; base 16 accepts up to 0xFFFFFFFF and reinterprets the bits
      as a signed int. */
  function ParseInt32(s: string, radix: Radix): (r: Option<int>)
    ensures r.Some? ==> IsInt32(r.value)
    ensures |s| == 0 ==> r.None?
  {
    if |s| == 0 then None
    else
      var negative := s[0] == '-';
      var i := if s[0] == '-' || s[0] == '+' then 1 else 0;
      if negative && radix != Decimal then None
      else
        var start := if radix == Hex && i + 1 < |s| && s[i] == '0' && (s[i + 1] == 'x' || s[i + 1] == 'X')
                     then i + 2 else i;
        var digits := s[start..];
        if |digits| == 0 || !AllDigits(digits, radix) then None
        else
          var v := DigitsValue(digits, radix);
          if radix == Decimal then
            var n: int := if negative then -(v as int) else v;
            if IsInt32(n) then Some(n) else None
          else if v <= 0xFFFF_FFFF then Some(Wrap32(v))
          else None
  }

  // ---- formatting ----

  /** Digits as the other side writes them: '0'-'9' then lower-case letters. */
  function DigitChar(d: nat): (c: char)
    requires d < 16
    ensures DigitValue(c) == Some(d)
  {
    if d < 10 then (d + '0' as nat) as char else (d - 10 + 'a' as nat) as char
  }

  /** Division by the base, written out per base so the solver sees
      constants. */
  function Quotient(n: nat, radix: Radix): (q: nat)
    ensures n == q * Base(radix) + Remainder(n, radix)
    ensures n >= Base(radix) ==> q < n
  {
    match radix
    case Decimal => n / 10
    case Hex => n / 16
  }

  function Remainder(n: nat, radix: Radix): (d: nat)
    ensures d < Base(radix)
  {
    match radix
    case Decimal => n % 10
    case Hex => n % 16
  }

  function Digits(n: nat, radix: Radix): (s: string)
    ensures |s| >= 1 && AllDigits(s, radix)
    ensures forall i :: 0 <= i < |s| ==> s[i] != '-' && s[i] != '+' && s[i] != 'x' && s[i] != 'X'
    decreases n
  {
    if n < Base(radix) then [DigitChar(n)]
    else Digits(Quotient(n, radix), radix) + [DigitChar(Remainder(n, radix))]
  }

  /** Digits followed by reading them back gives the number. */
  lemma {:induction false} DigitsValueOf(n: nat, radix: Radix)
    ensures DigitsValue(Digits(n, radix), radix) == n
    decreases n
  {
    var s := Digits(n, radix);
    if n >= Base(radix) {
      var q := Quotient(n, radix);
      DigitsValueOf(q, radix);
      assert s[..|s| - 1] == Digits(q, radix);
    }
  }

  /** Int32.ToString(): an optional '-' and the decimal digits. */
  function FormatDecimal(n: int): (s: string)
    ensures |s| >= 1
  {
    if n < 0 then "-" + Digits(-n, Decimal) else Digits(n, Decimal)
  }

  /** A non-negative number in hex, as a response header carries it. */
  function FormatHex(n: nat): (s: string)
    ensures |s| >= 1
  {
    Digits(n, Hex)
  }

  /** Every int survives printing and parsing in base 10. */
  lemma ParseFormatDecimal(n: int)
    requires IsInt32(n)
    ensures ParseInt32(FormatDecimal(n), Decimal) == Some(n)
  {
    if n < 0 {
      var d := Digits(-n, Decimal);
      assert FormatDecimal(n)[1..] == d;
      DigitsValueOf(-n, Decimal);
    } else {
      DigitsValueOf(n, Decimal);
    }
  }

  /** Every 32-bit pattern survives printing and parsing in base 16; the
      parse reads it as a signed int. */
  lemma ParseFormatHex(n: nat)
    requires IsUInt32(n)
    ensures ParseInt32(FormatHex(n), Hex) == Some(Wrap32(n))
  {
    var s := FormatHex(n);
    DigitsValueOf(n, Hex);
    assert s[0..] == s;
  }

  /** Decimal text is a '-' and digits, all ASCII. */
  lemma DecimalIsAscii(n: int)
    ensures IsAscii(FormatDecimal(n))
  {
    var s := FormatDecimal(n);
    var d := if n < 0 then Digits(-n, Decimal) else Digits(n, Decimal);
    forall i | 0 <= i < |s| ensures IsAsciiChar(s[i]) {
      if n >= 0 {
        assert IsDigit(d[i], Decimal);
      } else if i > 0 {
        assert s[i] == d[i - 1];
        assert IsDigit(d[i - 1], Decimal);
      }
    }
  }

  /** The decimal text of a number never contains `c` unless `c` is a
      digit or '-'. */
  lemma FormatDecimalAvoids(n: int, c: char)
    requires !IsDigit(c, Decimal) && c != '-'
    ensures c !in FormatDecimal(n)
  {
  }
}
