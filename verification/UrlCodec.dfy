/** url_encode (src/html_render.c) and url_decode (src/util.c). */
module UrlCodec {
  import opened Buffers

  /** A C character. */
  type Byte = c: char | c as int < 256 witness 'a'

  const NUL: char := '\0'

  /** The characters that section 2.3 of RFC 3986 leaves alone, and the slash. */
  predicate Kept(c: char) {
    'A' <= c <= 'Z' || 'a' <= c <= 'z' || '0' <= c <= '9' || c == '/' || c == '-' || c == '_' || c == '.' || c == '~'
  }

  /** An upper-case hexadecimal digit. */
  function Hex(n: int): (c: char)
    requires 0 <= n < 16
    ensures HexValue(c) == n
  {
    if n < 10 then ('0' as int + n) as char else ('A' as int + (n - 10)) as char
  }

  /** hex_digit: -1 for everything else. */
  function HexValue(c: char): (n: int)
    ensures -1 <= n < 16
  {
    if '0' <= c <= '9' then c as int - '0' as int
    else if 'a' <= c <= 'f' then c as int - 'a' as int + 10
    else if 'A' <= c <= 'F' then c as int - 'A' as int + 10
    else -1
  }

  function EncodeByte(c: Byte): string {
    if Kept(c) then [c] else ['%', Hex(c as int / 16), Hex(c as int % 16)]
  }

  function Encode(s: seq<Byte>): string {
    if s == [] then "" else EncodeByte(s[0]) + Encode(s[1..])
  }

  /** What url_decode writes; the caller sees it up to the first NUL. */
  function Decode(s: string): string {
    if s == "" then ""
    else if s[0] == '%' && |s| > 2 && HexValue(s[1]) >= 0 && HexValue(s[2]) >= 0 then
      [(HexValue(s[1]) * 16 + HexValue(s[2])) as char] + Decode(s[3..])
    else
      [if s[0] == '+' then ' ' else s[0]] + Decode(s[1..])
  }

  /** A buffer read as a C string. */
  function CString(s: string): (r: string)
    ensures r <= s && NUL !in r && (r == s || s[|r|] == NUL)
  {
    if s == "" || s[0] == NUL then "" else [s[0]] + CString(s[1..])
  }

  lemma {:induction false} EncodeSnoc(s: seq<Byte>, i: nat)
    requires i < |s|
    ensures Encode(s[..i + 1]) == Encode(s[..i]) + EncodeByte(s[i])
  {
    if i == 0 {
      assert s[..1] == [s[0]] && Encode(s[..1][1..]) == "";
    } else {
      EncodeSnoc(s[1..], i - 1);
      assert s[1..][..i] == s[..i + 1][1..] && s[1..][..i - 1] == s[..i][1..];
    }
  }

  /** The encoder: at most three characters for each byte, and a NUL. */
  method UrlEncode(s: seq<Byte>) returns (out: string)
    ensures out == Encode(s)
  {
    var buf := new char[|s| * 3 + 1](_ => NUL);
    var p := 0;
    assert s[..0] == [];
    for i := 0 to |s|
      invariant 0 <= p <= 3 * i && buf[..p] == Encode(s[..i])
    {
      EncodeSnoc(s, i);
      hide Encode, Hex;
      var c := s[i];
      if Kept(c) {
        p := Append(buf, p, [c]);
      } else {
        p := Append(buf, p, ['%', Hex(c as int / 16), Hex(c as int % 16)]);
      }
    }
    assert s[..|s|] == s;
    buf[p] := NUL;
    out := buf[..p];
  }

  /** One round of the decoder. */
  function DecodeHead(s: string): (r: (char, nat))
    requires s != ""
    ensures 0 < r.1 <= |s|
  {
    if s[0] == '%' && |s| > 2 && HexValue(s[1]) >= 0 && HexValue(s[2]) >= 0 then
      ((HexValue(s[1]) * 16 + HexValue(s[2])) as char, 3)
    else (if s[0] == '+' then ' ' else s[0], 1)
  }

  lemma DecodeStep(done: string, src: string, i: nat)
    requires i < |src|
    ensures var (c, n) := DecodeHead(src[i..]);
            done + Decode(src[i..]) == (done + [c]) + Decode(src[i + n..])
  {
    var (c, n) := DecodeHead(src[i..]);
    assert src[i..][n..] == src[i + n..];
    assert done + ([c] + Decode(src[i + n..])) == (done + [c]) + Decode(src[i + n..]);
  }

  /** The decoder: never more characters out than in. */
  method UrlDecode(src: string) returns (out: string)
    ensures out == Decode(src)
  {
    hide Decode, HexValue;
    var len := |src|;
    var buf := new char[len + 1](_ => NUL);
    var i, j := 0, 0;
    assert src[0..] == src && buf[..0] + Decode(src) == Decode(src);
    while i < len
      invariant j <= i <= len && buf[..j] + Decode(src[i..]) == Decode(src)
    {
      DecodeStep(buf[..j], src, i);
      ghost var before := buf[..j];
      if src[i] == '%' && i + 2 < len && HexValue(src[i + 1]) >= 0 && HexValue(src[i + 2]) >= 0 {
        buf[j] := (HexValue(src[i + 1]) * 16 + HexValue(src[i + 2])) as char;
        i := i + 3;
      } else {
        buf[j] := if src[i] == '+' then ' ' else src[i];
        i := i + 1;
      }
      j := j + 1;
      assert buf[..j] == before + [buf[j - 1]];
    }
    buf[j] := NUL;
    out := buf[..j];
    DecodeNothing();
    assert src[len..] == "";
  }

  lemma DecodeNothing()
    ensures Decode("") == ""
  {
  }

  lemma DecodeEncodedByte(c: Byte, rest: string)
    ensures Decode(EncodeByte(c) + rest) == [c] + Decode(rest)
  {
    var t := EncodeByte(c) + rest;
    if Kept(c) {
      assert t[1..] == rest;
    } else {
      assert t[1] == Hex(c as int / 16) && t[2] == Hex(c as int % 16) && t[3..] == rest;
    }
  }

  /** Decoding what was encoded returns the bytes, all 256 of them. */
  lemma {:induction false} DecodeEncode(s: seq<Byte>)
    ensures Decode(Encode(s)) == s
  {
    if s != [] {
      DecodeEncodedByte(s[0], Encode(s[1..]));
      DecodeEncode(s[1..]);
    }
  }

  // ----- what browsers print -----

  /** `h` is a hexadecimal digit of value `n`, in either case. */
  predicate HexOf(h: char, n: nat) {
    n < 16 && (h == "0123456789abcdef"[n] || h == "0123456789ABCDEF"[n])
  }

  lemma HexOfValue(h: char, n: nat)
    requires HexOf(h, n)
    ensures HexValue(h) == n && h !in {'&', '=', '+', '%', NUL}
  {
  }

  /** A triple stands in front for the byte. */
  predicate TripleFor(text: string, c: Byte) {
    |text| > 2 && text[0] == '%' && HexOf(text[1], c as int / 16) && HexOf(text[2], c as int % 16)
  }

  /** The text is a form encoding of the value: a blank as a plus sign or a triple, every other byte as a triple or,
      unless it has a meaning in forms, as itself. */
  ghost predicate Prints(text: string, value: seq<Byte>) {
    if value == [] then text == ""
    else
      var c, rest := value[0], value[1..];
      (text != "" && text[0] == c && c !in {'%', '+', '&', NUL} && Prints(text[1..], rest))
      || (text != "" && text[0] == '+' && c == ' ' && Prints(text[1..], rest))
      || (TripleFor(text, c) && Prints(text[3..], rest))
  }

  lemma DecodeTriple(s: string, high: nat, low: nat)
    requires |s| > 2 && s[0] == '%' && HexOf(s[1], high) && HexOf(s[2], low)
    ensures Decode(s) == [(high * 16 + low) as char] + Decode(s[3..])
  {
    HexOfValue(s[1], high);
    HexOfValue(s[2], low);
    hide HexOf, HexValue;
  }

  lemma DecodeOther(s: string)
    requires s != "" && s[0] != '%'
    ensures Decode(s) == [if s[0] == '+' then ' ' else s[0]] + Decode(s[1..])
  {
    hide HexValue;
  }

  lemma DecodeTripleFor(text: string, c: Byte)
    requires TripleFor(text, c)
    ensures Decode(text) == [c] + Decode(text[3..])
  {
    DecodeTriple(text, c as int / 16, c as int % 16);
    hide HexOf, Decode;
  }

  /** How an encoding goes on. */
  lemma PrintsStep(text: string, value: seq<Byte>) returns (n: nat)
    requires Prints(text, value) && value != []
    ensures 0 < n <= |text| && Prints(text[n..], value[1..]) && Decode(text) == [value[0]] + Decode(text[n..])
    ensures '&' !in text[..n] && NUL !in text[..n]
  {
    if TripleFor(text, value[0]) && Prints(text[3..], value[1..]) {
      n := 3;
      DecodeTripleFor(text, value[0]);
      HexOfValue(text[1], value[0] as int / 16);
      HexOfValue(text[2], value[0] as int % 16);
      hide HexOf, Decode, Prints, HexValue;
      assert text[..3] == [text[0], text[1], text[2]];
    } else {
      n := 1;
      DecodeOther(text);
      hide HexOf, Decode, HexValue;
      assert text[..1] == [text[0]];
    }
  }

  /** Decoding any form encoding returns the value. */
  lemma {:induction false} DecodePrints(text: string, value: seq<Byte>)
    requires Prints(text, value)
    ensures Decode(text) == value
    decreases value
  {
    if value != [] {
      var n := PrintsStep(text, value);
      DecodePrints(text[n..], value[1..]);
      hide *;
      assert value == [value[0]] + value[1..];
    } else {
      DecodeNothing();
    }
  }

  /** A form encoding has neither an ampersand nor a NUL. */
  lemma {:induction false} PrintsIsSafe(text: string, value: seq<Byte>)
    requires Prints(text, value)
    ensures '&' !in text && NUL !in text
    decreases value
  {
    if value != [] {
      var n := PrintsStep(text, value);
      PrintsIsSafe(text[n..], value[1..]);
      hide *;
      assert text == text[..n] + text[n..];
    }
  }

  lemma HexIsHexOf(n: int)
    requires 0 <= n < 16
    ensures HexOf(Hex(n), n)
  {
  }

  /** url_encode prints such an encoding too. */
  lemma {:induction false} EncodePrints(s: seq<Byte>)
    ensures Prints(Encode(s), s)
  {
    if s != [] {
      var c, rest := s[0], Encode(s[1..]);
      EncodePrints(s[1..]);
      HexIsHexOf(c as int / 16);
      HexIsHexOf(c as int % 16);
      hide Hex, HexOf;
      var text := EncodeByte(c) + rest;
      assert text[|EncodeByte(c)|..] == rest;
    }
  }

  /** A hexadecimal digit, as section 2.1 of RFC 3986 has them. */
  predicate IsHex(c: char) {
    '0' <= c <= '9' || 'a' <= c <= 'f' || 'A' <= c <= 'F'
  }

  /** A percent sign that starts no triple is kept. */
  lemma MalformedIsKept(s: string)
    requires |s| < 2 || !IsHex(s[0]) || !IsHex(s[1])
    ensures Decode("%" + s) == "%" + Decode(s)
  {
    assert ("%" + s)[1..] == s;
  }

  /** The encoded text has none of the characters that forms and query strings use. */
  lemma {:induction false} EncodeIsSafe(s: seq<Byte>)
    ensures var e := Encode(s); '&' !in e && '=' !in e && '+' !in e && '?' !in e && NUL !in e
  {
    if s != [] {
      EncodeIsSafe(s[1..]);
      EncodeByteIsSafe(s[0]);
      hide EncodeByte;
    }
  }

  lemma EncodeByteIsSafe(c: Byte)
    ensures var e := EncodeByte(c); '&' !in e && '=' !in e && '+' !in e && '?' !in e && NUL !in e
  {
    HexIsSafe(c as int / 16);
    HexIsSafe(c as int % 16);
  }

  lemma HexIsSafe(n: int)
    requires 0 <= n < 16
    ensures Hex(n) !in {'&', '=', '+', '?', NUL}
  {
  }

  lemma {:induction false} CStringWhole(s: string)
    requires NUL !in s
    ensures CString(s) == s
  {
    if s != "" {
      CStringWhole(s[1..]);
    }
  }
}
