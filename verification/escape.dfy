/**
 The decoding `s.encode().decode('unicode_escape')` the client applies to a token
 found by the second method: the text is encoded as UTF-8, then every byte that is
 not part of a backslash escape becomes the character with that byte's value
 (Latin-1), and the escapes are decoded as CPython's `unicode_escape` codec does.
 */
module UnicodeEscape {
  import opened Py

  newtype byte = b: int | 0 <= b < 256

  /** The byte of an ASCII character. */
  function B(c: char): byte
    requires (c as int) < 128
  {
    (c as int) as byte
  }

  /** The UTF-8 encoding of one character, as `str.encode()` writes it. */
  function Utf8(c: char): (bs: seq<byte>)
    ensures 1 <= |bs| <= 4
    ensures |bs| == 1 <==> (c as int) < 0x80
    ensures |bs| == 1 ==> bs[0] as int == c as int
    ensures |bs| > 1 ==> forall i | 0 <= i < |bs| :: bs[i] >= 0x80
  {
    var x := c as int;
    if x < 0x80 then [x as byte]
    else if x < 0x800 then [(0xC0 + x / 64) as byte, (0x80 + x % 64) as byte]
    else if x < 0x1_0000 then [(0xE0 + x / 4096) as byte, (0x80 + (x / 64) % 64) as byte, (0x80 + x % 64) as byte]
    else
      [(0xF0 + x / 262144) as byte, (0x80 + (x / 4096) % 64) as byte,
       (0x80 + (x / 64) % 64) as byte, (0x80 + x % 64) as byte]
  }

  /** `s.encode()` */
  function Utf8Encode(s: string): (bs: seq<byte>)
    ensures |bs| >= |s|
  {
    if |s| == 0 then [] else Utf8(s[0]) + Utf8Encode(s[1..])
  }

  lemma {:induction false} Utf8EncodeAppend(a: string, b: string)
    ensures Utf8Encode(a + b) == Utf8Encode(a) + Utf8Encode(b)
  {
    if |a| > 0 {
      assert (a + b)[1..] == a[1..] + b;
      Utf8EncodeAppend(a[1..], b);
    } else {
      assert a + b == b;
    }
  }

  /** A byte outside an escape becomes the character with that code (Latin-1). */
  function Latin1(b: byte): char {
    (b as int) as char
  }

  /** Whether `v` is a code point a Dafny character can hold (no surrogates). */
  predicate IsScalar(v: int) {
    (0 <= v < 0xD800) || (0xE000 <= v < 0x11_0000)
  }

  /** The character a one-letter escape such as `\n` stands for. */
  function SimpleEscape(c: byte): Option<char> {
    if c == B('\\') then Some('\\')
    else if c == B('\'') then Some('\'')
    else if c == B('"') then Some('"')
    else if c == B('b') then Some(8 as char)
    else if c == B('f') then Some(12 as char)
    else if c == B('t') then Some(9 as char)
    else if c == B('n') then Some(10 as char)
    else if c == B('r') then Some(13 as char)
    else if c == B('v') then Some(11 as char)
    else if c == B('a') then Some(7 as char)
    else None
  }

  predicate IsOctal(c: byte) {
    B('0') <= c <= B('7')
  }

  function HexValue(c: byte): Option<nat> {
    if B('0') <= c <= B('9') then Some((c - B('0')) as nat)
    else if B('a') <= c <= B('f') then Some((c - B('a')) as nat + 10)
    else if B('A') <= c <= B('F') then Some((c - B('A')) as nat + 10)
    else None
  }

  /** The number a run of hexadecimal digit bytes denotes, or `None` if one is not a digit. */
  function ReadHex(bs: seq<byte>): Option<nat> {
    if |bs| == 0 then Some(0)
    else match (ReadHex(bs[..|bs| - 1]), HexValue(bs[|bs| - 1]))
      case (Some(high), Some(low)) => Some(16 * high + low)
      case _ => None
  }

  /** How many of the (at most two) octal digits that may follow the first one are present. */
  function OctalTail(rest: seq<byte>): (n: nat)
    ensures n <= 2 && n <= |rest|
  {
    if |rest| >= 1 && IsOctal(rest[0]) then (if |rest| >= 2 && IsOctal(rest[1]) then 2 else 1) else 0
  }

  function OctalValue(ds: seq<byte>): (v: nat)
    requires forall i | 0 <= i < |ds| :: IsOctal(ds[i])
    ensures v < Pow8(|ds|)
  {
    if |ds| == 0 then 0
    else
      var high := OctalValue(ds[..|ds| - 1]);
      assert IsOctal(ds[|ds| - 1]);
      var low := ds[|ds| - 1] as int - '0' as int;
      assert 0 <= low < 8;
      8 * high + low
  }

  function Pow8(n: nat): nat {
    if n == 0 then 1 else 8 * Pow8(n - 1)
  }

  function Prepend(p: string, r: Result<string>): Result<string> {
    match r
    case Ok(s) => Ok(p + s)
    case Err(e) => Err(e)
  }

  /** `bytes.decode('unicode_escape')`; every failure is a UnicodeDecodeError. */
  function Decode(bs: seq<byte>): (r: Result<string>)
    decreases |bs|
    ensures r.Err? ==> r.error == Escaped(UnicodeDecodeError)
  {
    if |bs| == 0 then Ok([])
    else if bs[0] != B('\\') then Prepend([Latin1(bs[0])], Decode(bs[1..]))
    else if |bs| == 1 then Err(Escaped(UnicodeDecodeError))   // a backslash at the end
    else
      var c, rest := bs[1], bs[2..];
      if c == B('\n') then Decode(rest)
      else if SimpleEscape(c).Some? then Prepend([SimpleEscape(c).value], Decode(rest))
      else if IsOctal(c) then
        var n := OctalTail(rest);
        var v := OctalValue([c] + rest[..n]);
        assert v < 512 by { assert Pow8(|[c] + rest[..n]|) <= 512; }
        Prepend([v as char], Decode(rest[n..]))
      else if c == B('x') || c == B('u') || c == B('U') then
        var count := if c == B('x') then 2 else if c == B('u') then 4 else 8;
        if |rest| < count then Err(Escaped(UnicodeDecodeError))
        else match ReadHex(rest[..count])
          case None => Err(Escaped(UnicodeDecodeError))
          case Some(v) =>
            if IsScalar(v) then Prepend([v as char], Decode(rest[count..]))
            else Err(Escaped(UnicodeDecodeError))
      else if c == B('N') then Err(Escaped(UnicodeDecodeError))
      else Prepend(['\\', Latin1(c)], Decode(rest))
  }

  /** `text.encode().decode('unicode_escape')` */
  function Unescape(text: string): Result<string> {
    Decode(Utf8Encode(text))
  }

  // ---------------------------------------------------------------------------
  // The partner of `Unescape`: writing every character as `\uXXXX` or
  // `\UXXXXXXXX`, the form a page embeds a JSON-escaped token in.

  function Pow16(n: nat): nat {
    if n == 0 then 1 else 16 * Pow16(n - 1)
  }

  function HexDigit(d: nat): (c: char)
    requires d < 16
    ensures (c as int) < 128 && c != ','
  {
    if d < 10 then ('0' as int + d) as char else ('A' as int + d - 10) as char
  }

  /** A hexadecimal digit encodes as one byte, which reads back as its value. */
  lemma HexDigitReads(d: nat)
    requires d < 16
    ensures Utf8Encode([HexDigit(d)]) == [B(HexDigit(d))]
    ensures HexValue(B(HexDigit(d))) == Some(d)
  {
    var c := HexDigit(d);
    assert Utf8(c) == [B(c)];
    assert [c][1..] == [];
  }

  /** `n` as exactly `width` upper-case hexadecimal digits. */
  function Hex(n: nat, width: nat): (s: string)
    requires n < Pow16(width)
    ensures |s| == width
    ensures forall i | 0 <= i < |s| :: (s[i] as int) < 128 && s[i] != ','
  {
    if width == 0 then [] else Hex(n / 16, width - 1) + [HexDigit(n % 16)]
  }

  /** The escape of one character. */
  function EscapeChar(c: char): (s: string)
    ensures |s| == 6 || |s| == 10
    ensures forall i | 0 <= i < |s| :: (s[i] as int) < 128 && s[i] != ','
  {
    assert Pow16(4) == 0x1_0000 && Pow16(8) == 0x1_0000_0000;
    if (c as int) < 0x1_0000 then "\\u" + Hex(c as int, 4)
    else "\\U" + Hex(c as int, 8)
  }

  function EscapeAll(t: string): (s: string)
    ensures |s| >= |t|
    ensures forall i | 0 <= i < |s| :: (s[i] as int) < 128 && s[i] != ','
  {
    if |t| == 0 then [] else EscapeChar(t[0]) + EscapeAll(t[1..])
  }

  /** ASCII text encodes byte for byte. */
  lemma {:induction false} Utf8Ascii(s: string)
    requires forall i | 0 <= i < |s| :: (s[i] as int) < 128
    ensures |Utf8Encode(s)| == |s|
    ensures forall i | 0 <= i < |s| :: Utf8Encode(s)[i] as int == s[i] as int
  {
    if |s| > 0 {
      Utf8Ascii(s[1..]);
    }
  }

  lemma {:induction false} ReadHexOfHex(n: nat, width: nat)
    requires n < Pow16(width)
    ensures ReadHex(Utf8Encode(Hex(n, width))) == Some(n)
  {
    if width > 0 {
      var high := Hex(n / 16, width - 1);
      var d := HexDigit(n % 16);
      Utf8EncodeAppend(high, [d]);
      HexDigitReads(n % 16);
      var bs := Utf8Encode(Hex(n, width));
      assert bs == Utf8Encode(high) + [B(d)];
      assert bs[..|bs| - 1] == Utf8Encode(high);
      ReadHexOfHex(n / 16, width - 1);
    }
  }

  /** A `\\u` or `\\U` escape with its digits decodes to the character they denote. */
  lemma HexEscapeDecodes(letter: byte, digits: seq<byte>, v: nat, more: seq<byte>)
    requires (letter == B('u') && |digits| == 4) || (letter == B('U') && |digits| == 8)
    requires ReadHex(digits) == Some(v) && IsScalar(v)
    ensures Decode([B('\\'), letter] + digits + more) == Prepend([v as char], Decode(more))
  {
    var bs := [B('\\'), letter] + digits + more;
    assert bs[0] == B('\\') && bs[1] == letter;
    assert bs[2..] == digits + more;
    assert (digits + more)[..|digits|] == digits;
    assert (digits + more)[|digits|..] == more;
  }

  /** Decoding the escape of `c` in front of more input yields `c` in front of that input's decoding. */
  lemma EscapeCharDecodes(c: char, more: seq<byte>)
    ensures Decode(Utf8Encode(EscapeChar(c)) + more) == Prepend([c], Decode(more))
  {
    assert Pow16(4) == 0x1_0000 && Pow16(8) == 0x1_0000_0000;
    var wide := (c as int) >= 0x1_0000;
    var width := if wide then 8 else 4;
    var letter := if wide then 'U' else 'u';
    var h := Hex(c as int, width);
    assert EscapeChar(c) == ['\\', letter] + h;
    Utf8EncodeAppend(['\\', letter], h);
    Utf8Ascii(h);
    assert Utf8Encode(['\\', letter]) == [B('\\'), B(letter)];
    ReadHexOfHex(c as int, width);
    HexEscapeDecodes(B(letter), Utf8Encode(h), c as int, more);
  }

  /** Escaping every character and unescaping gives the text back. */
  lemma {:induction false} EscapeRoundTrip(t: string)
    ensures Unescape(EscapeAll(t)) == Ok(t)
  {
    if |t| > 0 {
      Utf8EncodeAppend(EscapeChar(t[0]), EscapeAll(t[1..]));
      EscapeCharDecodes(t[0], Utf8Encode(EscapeAll(t[1..])));
      EscapeRoundTrip(t[1..]);
      assert [t[0]] + t[1..] == t;
    }
  }

  /** ASCII text without a backslash comes through unescaping unchanged. */
  lemma {:induction false} PlainAsciiUnchanged(t: string)
    requires forall i | 0 <= i < |t| :: (t[i] as int) < 128 && t[i] != '\\'
    ensures Unescape(t) == Ok(t)
  {
    if |t| > 0 {
      PlainAsciiUnchanged(t[1..]);
      assert [t[0]] + t[1..] == t;
    }
  }

  /** Bytes read one for one as Latin-1 characters. */
  function Latin1All(bs: seq<byte>): (s: string)
    ensures |s| == |bs|
    ensures forall i | 0 <= i < |bs| :: s[i] == Latin1(bs[i])
  {
    seq(|bs|, i requires 0 <= i < |bs| => Latin1(bs[i]))
  }

  /** Without a backslash byte there is nothing to unescape: every byte becomes its Latin-1 character. */
  lemma {:induction false} DecodeWithoutBackslash(bs: seq<byte>)
    requires forall i | 0 <= i < |bs| :: bs[i] != B('\\')
    ensures Decode(bs) == Ok(Latin1All(bs))
  {
    if |bs| > 0 {
      DecodeWithoutBackslash(bs[1..]);
      assert [Latin1(bs[0])] + Latin1All(bs[1..]) == Latin1All(bs);
    }
  }

  /** A text without a backslash encodes to bytes without one: a multi-byte
      character's bytes all lie above the ASCII range. */
  lemma {:induction false} Utf8WithoutBackslash(t: string)
    requires forall i | 0 <= i < |t| :: t[i] != '\\'
    ensures forall i | 0 <= i < |Utf8Encode(t)| :: Utf8Encode(t)[i] != B('\\')
  {
    if |t| > 0 {
      Utf8WithoutBackslash(t[1..]);
      var head := Utf8(t[0]);
      assert Utf8Encode(t) == head + Utf8Encode(t[1..]);
      forall i | 0 <= i < |head| ensures head[i] != B('\\') {
        if |head| == 1 {
          assert head[0] as int == t[0] as int;
        }
      }
    }
  }

  /** A text without a backslash comes back as the Latin-1 reading of its
      UTF-8 bytes, so every non-ASCII character is replaced by two to four
      characters: `'é'` becomes `'Ã©'`. */
  lemma NonAsciiBecomesLatin1(t: string)
    requires forall i | 0 <= i < |t| :: t[i] != '\\'
    ensures Unescape(t) == Ok(Latin1All(Utf8Encode(t)))
  {
    Utf8WithoutBackslash(t);
    DecodeWithoutBackslash(Utf8Encode(t));
  }
}
