/** base64_decode (src/util.c), whose 32-bit accumulator wraps.

    The specification is a stream: each character of the alphabet gives six bits, and the stream is cut into bytes.  The
    program keeps the bits in one 32-bit word that it shifts left without ever masking it, so from the sixth character on
    bits fall out at the top.  The proof shows that only bits are lost that have been written out already. */
module Base64 {

  type Byte = n: int | 0 <= n < 256
  type Sextet = n: int | 0 <= n < 64

  /** b64_table: characters outside the alphabet read as 0. */
  function Value(c: char): Sextet {
    if 'A' <= c <= 'Z' then c as int - 'A' as int
    else if 'a' <= c <= 'z' then c as int - 'a' as int + 26
    else if '0' <= c <= '9' then c as int - '0' as int + 52
    else if c == '+' then 62
    else if c == '/' then 63
    else 0
  }

  predicate Skipped(c: char) {
    c == '=' || c == '\n' || c == '\r' || c == ' '
  }

  function Sextets(s: string): seq<Sextet> {
    if s == "" then []
    else if Skipped(s[0]) then Sextets(s[1..])
    else [Value(s[0])] + Sextets(s[1..])
  }

  /** Two to the number of pending bits. */
  function Pow(bits: int): (p: int)
    ensures p > 0
  {
    if bits == 0 then 1 else if bits == 2 then 4 else if bits == 4 then 16 else 64
  }

  predicate Pending(bits: int) {
    bits == 0 || bits == 2 || bits == 4 || bits == 6
  }

  /** The byte stream of a sextet stream, behind `bits` pending bits of value `acc`. */
  function Bytes(v: seq<Sextet>, acc: int, bits: int): seq<Byte>
    requires Pending(bits) && 0 <= acc < Pow(bits)
  {
    if v == [] then []
    else
      var joined := acc * 64 + v[0];
      if bits == 0 then Bytes(v[1..], joined, 6)
      else [joined / Pow(bits - 2)] + Bytes(v[1..], joined % Pow(bits - 2), bits - 2)
  }

  function DecodeSpec(s: string): seq<Byte> {
    Bytes(Sextets(s), 0, 0)
  }

  const WORD: int := 0x1_0000_0000

  /** `(buf << 6) | value` in 32 bits: the low six bits of the shifted word are free. */
  function Shift(buf: int, value: Sextet): (r: int)
    requires 0 <= buf < WORD
    ensures 0 <= r < WORD
  {
    buf * 64 % WORD + value
  }

  /** What is dropped is a multiple of the word size, hence of every smaller power of two. */
  lemma ShiftDrops(buf: int, value: Sextet) returns (q: int)
    requires 0 <= buf < WORD
    ensures buf * 64 + value == Shift(buf, value) + 0x1_0000_0000 * q
  {
    q := buf * 64 / WORD;
  }

  lemma Wraps64(buf: int, value: Sextet)
    requires 0 <= buf < WORD
    ensures Shift(buf, value) % 64 == (buf * 64 + value) % 64
  {
    var q := ShiftDrops(buf, value);
    hide Shift;
    var t := 67108864 * q;
    assert buf * 64 + value == Shift(buf, value) + 64 * t;
  }

  lemma Wraps256(buf: int, value: Sextet)
    requires 0 <= buf < WORD
    ensures Shift(buf, value) % 256 == (buf * 64 + value) % 256
  {
    var q := ShiftDrops(buf, value);
    hide Shift;
    var t := 16777216 * q;
    assert buf * 64 + value == Shift(buf, value) + 256 * t;
  }

  lemma Wraps1024(buf: int, value: Sextet)
    requires 0 <= buf < WORD
    ensures Shift(buf, value) % 1024 == (buf * 64 + value) % 1024
  {
    var q := ShiftDrops(buf, value);
    hide Shift;
    var t := 4194304 * q;
    assert buf * 64 + value == Shift(buf, value) + 1024 * t;
  }

  lemma Wraps4096(buf: int, value: Sextet)
    requires 0 <= buf < WORD
    ensures Shift(buf, value) % 4096 == (buf * 64 + value) % 4096
  {
    var q := ShiftDrops(buf, value);
    hide Shift;
    var t := 1048576 * q;
    assert buf * 64 + value == Shift(buf, value) + 4096 * t;
  }

  lemma Mod256(q: int, r: int)
    requires 0 <= r < 256
    ensures (256 * q + r) % 256 == r
  {
  }

  lemma Mod1024(q: int, r: int)
    requires 0 <= r < 1024
    ensures (1024 * q + r) % 1024 == r
  {
  }

  lemma Mod4096(q: int, r: int)
    requires 0 <= r < 4096
    ensures (4096 * q + r) % 4096 == r
  {
  }

  lemma Exact2(buf: int, value: Sextet)
    requires buf >= 0
    ensures (buf * 64 + value) % 256 == buf % 4 * 64 + value
  {
    var q, m := buf / 4, buf % 4;
    assert buf * 64 + value == 256 * q + (m * 64 + value);
    Mod256(q, m * 64 + value);
  }

  lemma Exact4(buf: int, value: Sextet)
    requires buf >= 0
    ensures (buf * 64 + value) % 1024 == buf % 16 * 64 + value
  {
    var q, m := buf / 16, buf % 16;
    assert buf * 64 + value == 1024 * q + (m * 64 + value);
    Mod1024(q, m * 64 + value);
  }

  lemma Exact6(buf: int, value: Sextet)
    requires buf >= 0
    ensures (buf * 64 + value) % 4096 == buf % 64 * 64 + value
  {
    var q, m := buf / 64, buf % 64;
    assert buf * 64 + value == 4096 * q + (m * 64 + value);
    Mod4096(q, m * 64 + value);
  }

  /** Byte and pending bits of a word depend on its low bits only. */
  lemma Low4(word: int, joined: int)
    requires 0 <= joined < 1024 && word % 1024 == joined && word >= 0
    ensures word / 4 % 256 == joined / 4 && word % 4 == joined % 4
  {
    var k := word / 1024;
    assert word == 4 * (256 * k + joined / 4) + joined % 4;
    assert word / 4 == 256 * k + joined / 4;
  }

  lemma Low6(word: int, joined: int)
    requires 0 <= joined < 4096 && word % 4096 == joined && word >= 0
    ensures word / 16 % 256 == joined / 16 && word % 16 == joined % 16
  {
    var k := word / 4096;
    assert word == 16 * (256 * k + joined / 16) + joined % 16;
    assert word / 16 == 256 * k + joined / 16;
  }

  /** The bits that count survive the wrap-around: a byte taken from the wrapped word is the byte of
      the exact stream, and so are the bits left pending. */
  lemma WrapKeepsPending(buf: int, value: Sextet, bits: int)
    requires 0 <= buf < WORD && Pending(bits)
    ensures var word, joined := Shift(buf, value), buf % Pow(bits) * 64 + value;
            && (bits == 0 ==> word % Pow(6) == joined)
            && (bits > 0 ==> word / Pow(bits - 2) % 256 == joined / Pow(bits - 2)
                             && word % Pow(bits - 2) == joined % Pow(bits - 2))
  {
    hide Shift;
    if bits == 0 {
      Keeps0(buf, value);
    } else if bits == 2 {
      Keeps2(buf, value);
    } else if bits == 4 {
      Keeps4(buf, value);
    } else {
      Keeps6(buf, value);
    }
  }

  lemma Keeps0(buf: int, value: Sextet)
    requires 0 <= buf < WORD
    ensures Shift(buf, value) % 64 == value
  {
    Wraps64(buf, value);
    hide Shift;
  }

  lemma Keeps2(buf: int, value: Sextet)
    requires 0 <= buf < WORD
    ensures Shift(buf, value) % 256 == buf % 4 * 64 + value
  {
    Wraps256(buf, value);
    hide Shift;
    Exact2(buf, value);
  }

  lemma Keeps4(buf: int, value: Sextet)
    requires 0 <= buf < WORD
    ensures var word, joined := Shift(buf, value), buf % 16 * 64 + value;
            word / 4 % 256 == joined / 4 && word % 4 == joined % 4
  {
    Wraps1024(buf, value);
    hide Shift;
    Exact4(buf, value);
    Low4(Shift(buf, value), buf % 16 * 64 + value);
  }

  lemma Keeps6(buf: int, value: Sextet)
    requires 0 <= buf < WORD
    ensures var word, joined := Shift(buf, value), buf % 64 * 64 + value;
            word / 16 % 256 == joined / 16 && word % 16 == joined % 16
  {
    Wraps4096(buf, value);
    hide Shift;
    Exact6(buf, value);
    Low6(Shift(buf, value), buf % 64 * 64 + value);
  }

  /** One round of the exact stream. */
  lemma BytesStep(v: seq<Sextet>, acc: int, bits: int)
    requires Pending(bits) && 0 <= acc < Pow(bits) && v != []
    ensures var joined := acc * 64 + v[0];
            if bits == 0 then Bytes(v, acc, bits) == Bytes(v[1..], joined, 6)
            else Bytes(v, acc, bits) == [joined / Pow(bits - 2)] + Bytes(v[1..], joined % Pow(bits - 2), bits - 2)
  {
  }

  /** The bytes written so far, and those of the rest behind the pending bits, are all bytes. */
  ghost predicate Upto(src: string, i: nat, done: seq<Byte>, buf: int, bits: int) {
    && i <= |src| && 0 <= buf < WORD && Pending(bits)
    && done + Bytes(Sextets(src[i..]), buf % Pow(bits), bits) == DecodeSpec(src)
  }

  lemma SextetsStep(src: string, i: nat)
    requires i < |src|
    ensures Sextets(src[i..]) == (if Skipped(src[i]) then [] else [Value(src[i])]) + Sextets(src[i + 1..])
  {
    assert src[i..][1..] == src[i + 1..];
    hide Value;
  }

  lemma SkipRound(src: string, i: nat, done: seq<Byte>, buf: int, bits: int)
    requires Upto(src, i, done, buf, bits) && i < |src| && Skipped(src[i])
    ensures Upto(src, i + 1, done, buf, bits)
  {
    SextetsStep(src, i);
    hide Bytes, Sextets, DecodeSpec, Pow;
    assert [] + Sextets(src[i + 1..]) == Sextets(src[i + 1..]);
  }

  /** A sextet after a whole byte only becomes pending. */
  lemma FirstRound(src: string, i: nat, done: seq<Byte>, buf: int)
    requires Upto(src, i, done, buf, 0) && i < |src| && !Skipped(src[i])
    ensures Upto(src, i + 1, done, Shift(buf, Value(src[i])), 6)
  {
    var value, v := Value(src[i]), Sextets(src[i + 1..]);
    SextetsStep(src, i);
    WrapKeepsPending(buf, value, 0);
    hide Bytes, Sextets, Value, DecodeSpec, Shift;
    BytesStep([value] + v, 0, 0);
    assert ([value] + v)[1..] == v;
  }

  /** Every other sextet completes a byte. */
  lemma ByteRound(src: string, i: nat, done: seq<Byte>, buf: int, bits: int)
    requires Upto(src, i, done, buf, bits) && i < |src| && !Skipped(src[i]) && bits > 0
    ensures var word := Shift(buf, Value(src[i]));
            Upto(src, i + 1, done + [word / Pow(bits - 2) % 256], word, bits - 2)
  {
    var value, v := Value(src[i]), Sextets(src[i + 1..]);
    SextetsStep(src, i);
    WrapKeepsPending(buf, value, bits);
    hide Bytes, Sextets, Value, DecodeSpec, Shift, Pow;
    BytesStep([value] + v, buf % Pow(bits), bits);
    assert ([value] + v)[1..] == v;
    var word := Shift(buf, value);
    Shove(done, word / Pow(bits - 2) % 256, Bytes(v, word % Pow(bits - 2), bits - 2));
  }

  lemma UptoStart(src: string)
    ensures Upto(src, 0, [], 0, 0)
  {
    assert src[0..] == src && [] + DecodeSpec(src) == DecodeSpec(src);
    hide Bytes, Sextets;
  }

  lemma UptoEnd(src: string, done: seq<Byte>, buf: int, bits: int)
    requires Upto(src, |src|, done, buf, bits)
    ensures done == DecodeSpec(src)
  {
    assert src[|src|..] == "";
    NothingLeft(buf % Pow(bits), bits);
  }

  lemma UptoFacts(src: string, i: nat, done: seq<Byte>, buf: int, bits: int)
    requires Upto(src, i, done, buf, bits)
    ensures 0 <= buf < WORD && Pending(bits) && 0 <= bits <= 6 && bits % 2 == 0
  {
    hide Bytes;
  }

  method Decode(src: string) returns (out: seq<Byte>)
    ensures out == DecodeSpec(src)
  {
    var buffer := new Byte[|src| / 4 * 3 + 4](_ => 0);
    var j, buf, bits := 0, 0, 0;
    ghost var taken := 0;
    UptoStart(src);
    assert buffer[..0] == [];
    hide *;
    for i := 0 to |src|
      invariant 8 * j + bits == 6 * taken && 0 <= taken <= i && 0 <= j < buffer.Length && 0 <= bits
      invariant Upto(src, i, buffer[..j], buf, bits)
    {
      var c := src[i];
      ghost var done := buffer[..j];
      UptoFacts(src, i, done, buf, bits);
      if Skipped(c) {
        SkipRound(src, i, done, buf, bits);
      } else {
        taken := taken + 1;
        if bits == 0 {
          FirstRound(src, i, done, buf);
        } else {
          ByteRound(src, i, done, buf, bits);
        }
        buf := Shift(buf, Value(c));
        bits := bits + 6;
        if bits >= 8 {
          bits := bits - 8;
          buffer[j] := buf / Pow(bits) % 256;
          j := j + 1;
          assert buffer[..j] == done + [buffer[j - 1]];
        }
      }
    }
    out := buffer[..j];
    UptoEnd(src, out, buf, bits);
  }

  lemma Shove(a: seq<Byte>, x: Byte, b: seq<Byte>)
    ensures a + ([x] + b) == (a + [x]) + b
  {
  }

  lemma NothingLeft(acc: int, bits: int)
    requires Pending(bits) && 0 <= acc < Pow(bits)
    ensures Bytes([], acc, bits) == []
  {
  }

  // ----- section 4 of RFC 4648 -----

  function Digit(n: Sextet): (c: char)
    ensures Value(c) == n && !Skipped(c)
  {
    if n < 26 then ('A' as int + n) as char
    else if n < 52 then ('a' as int + (n - 26)) as char
    else if n < 62 then ('0' as int + (n - 52)) as char
    else if n == 62 then '+'
    else '/'
  }

  /** Three bytes become four digits; a last group of one or two bytes is padded. */
  function Encode(b: seq<Byte>): string {
    if |b| == 0 then ""
    else if |b| == 1 then [Digit(b[0] / 4), Digit(b[0] % 4 * 16), '=', '=']
    else if |b| == 2 then [Digit(b[0] / 4), Digit(b[0] % 4 * 16 + b[1] / 16), Digit(b[1] % 16 * 4), '=']
    else
      [Digit(b[0] / 4), Digit(b[0] % 4 * 16 + b[1] / 16), Digit(b[1] % 16 * 4 + b[2] / 64), Digit(b[2] % 64)]
      + Encode(b[3..])
  }

  lemma FirstSextet(x: Sextet, v: seq<Sextet>)
    ensures Bytes([x] + v, 0, 0) == Bytes(v, x, 6)
  {
    BytesStep([x] + v, 0, 0);
  }

  lemma SecondSextet(x: Sextet, y: Sextet, v: seq<Sextet>)
    ensures Bytes([y] + v, x, 6) == [x * 4 + y / 16] + Bytes(v, y % 16, 4)
  {
    BytesStep([y] + v, x, 6);
    hide Bytes;
    assert x * 64 + y == 16 * (x * 4 + y / 16) + y % 16;
    Div16(x * 4 + y / 16, y % 16);
  }

  lemma Div16(q: int, m: int)
    requires 0 <= m < 16
    ensures (16 * q + m) / 16 == q && (16 * q + m) % 16 == m
  {
  }

  lemma ThirdSextet(acc: int, z: Sextet, v: seq<Sextet>)
    requires 0 <= acc < 16
    ensures Bytes([z] + v, acc, 4) == [acc * 16 + z / 4] + Bytes(v, z % 4, 2)
  {
    BytesStep([z] + v, acc, 4);
    hide Bytes;
  }

  lemma FourthSextet(acc: int, u: Sextet, v: seq<Sextet>)
    requires 0 <= acc < 4
    ensures Bytes([u] + v, acc, 2) == [acc * 64 + u] + Bytes(v, 0, 0)
  {
    BytesStep([u] + v, acc, 2);
    hide Bytes;
  }

  /** A whole group of four sextets is three bytes. */
  lemma GroupOfFour(x: Sextet, y: Sextet, z: Sextet, u: Sextet, v: seq<Sextet>)
    ensures Bytes([x, y, z, u] + v, 0, 0) ==
            [x * 4 + y / 16, y % 16 * 16 + z / 4, z % 4 * 64 + u] + Bytes(v, 0, 0)
  {
    assert [x, y, z, u] + v == [x] + ([y] + ([z] + ([u] + v)));
    hide *;
    FirstSextet(x, [y] + ([z] + ([u] + v)));
    SecondSextet(x, y, [z] + ([u] + v));
    ThirdSextet(y % 16, z, [u] + v);
    FourthSextet(z % 4, u, v);
  }

  lemma SextetsDigit(n: Sextet, rest: string)
    ensures Sextets([Digit(n)] + rest) == [n] + Sextets(rest)
  {
    assert ([Digit(n)] + rest)[1..] == rest;
  }

  lemma SextetsFour(x: Sextet, y: Sextet, z: Sextet, u: Sextet, rest: string)
    ensures Sextets([Digit(x), Digit(y), Digit(z), Digit(u)] + rest) == [x, y, z, u] + Sextets(rest)
  {
    hide Digit, Sextets;
    SextetsDigit(u, rest);
    SextetsDigit(z, [Digit(u)] + rest);
    SextetsDigit(y, [Digit(z)] + ([Digit(u)] + rest));
    SextetsDigit(x, [Digit(y)] + ([Digit(z)] + ([Digit(u)] + rest)));
    assert [Digit(x), Digit(y), Digit(z), Digit(u)] + rest
        == [Digit(x)] + ([Digit(y)] + ([Digit(z)] + ([Digit(u)] + rest)));
    assert [x, y, z, u] + Sextets(rest) == [x] + ([y] + ([z] + ([u] + Sextets(rest))));
  }

  lemma PaddingReadsNothing()
    ensures Sextets("=") == [] && Sextets("==") == []
  {
    assert "=="[1..] == "=" && "="[1..] == "";
  }

  lemma SextetsOfOne(x: Sextet, y: Sextet)
    ensures Sextets([Digit(x), Digit(y), '=', '=']) == [x, y]
  {
    hide Digit, Sextets;
    PaddingReadsNothing();
    SextetsDigit(y, "==");
    SextetsDigit(x, [Digit(y)] + "==");
    assert [Digit(x), Digit(y), '=', '='] == [Digit(x)] + ([Digit(y)] + "==");
  }

  lemma SextetsOfTwo(x: Sextet, y: Sextet, z: Sextet)
    ensures Sextets([Digit(x), Digit(y), Digit(z), '=']) == [x, y, z]
  {
    hide Digit, Sextets;
    PaddingReadsNothing();
    SextetsDigit(z, "=");
    SextetsDigit(y, [Digit(z)] + "=");
    SextetsDigit(x, [Digit(y)] + ([Digit(z)] + "="));
    assert [Digit(x), Digit(y), Digit(z), '='] == [Digit(x)] + ([Digit(y)] + ([Digit(z)] + "="));
  }

  lemma TailOfOne(x: Sextet, y: Sextet)
    ensures Bytes([x, y], 0, 0) == [x * 4 + y / 16]
  {
    BytesStep([x, y], 0, 0);
    BytesStep([x, y][1..], x, 6);
    assert [x, y][2..] == [];
    NothingLeft(y % 16, 4);
  }

  lemma TailOfTwo(x: Sextet, y: Sextet, z: Sextet)
    ensures Bytes([x, y, z], 0, 0) == [x * 4 + y / 16, y % 16 * 16 + z / 4]
  {
    BytesStep([x, y, z], 0, 0);
    BytesStep([x, y, z][1..], x, 6);
    BytesStep([x, y, z][2..], y % 16, 4);
    assert [x, y, z][3..] == [];
    NothingLeft(z % 4, 2);
  }

  lemma OneByte(b: seq<Byte>)
    requires |b| == 1
    ensures DecodeSpec(Encode(b)) == b
  {
    hide Digit, Sextets, Bytes;
    SextetsOfOne(b[0] / 4, b[0] % 4 * 16);
    TailOfOne(b[0] / 4, b[0] % 4 * 16);
    GroupOfThree(b[0], 0, 0);
  }

  lemma TwoBytes(b: seq<Byte>)
    requires |b| == 2
    ensures DecodeSpec(Encode(b)) == b
  {
    assert b == [b[0], b[1]];
    hide *;
    TwoDecode(b[0], b[1]);
  }

  lemma TwoDecode(p: Byte, q: Byte)
    ensures DecodeSpec(Encode([p, q])) == [p, q]
  {
    hide Digit, DecodeSpec;
    GroupOfThree(p, q, 0);
    TwoDigits(p / 4, p % 4 * 16 + q / 16, q % 16 * 4, p, q);
  }

  lemma TwoDigits(x: Sextet, y: Sextet, z: Sextet, p: Byte, q: Byte)
    requires p == x * 4 + y / 16 && q == y % 16 * 16 + z / 4
    ensures DecodeSpec([Digit(x), Digit(y), Digit(z), '=']) == [p, q]
  {
    DecodeSpecIs([Digit(x), Digit(y), Digit(z), '=']);
    hide *;
    SextetsOfTwo(x, y, z);
    TailOfTwo(x, y, z);
  }

  lemma DecodeSpecIs(s: string)
    ensures DecodeSpec(s) == Bytes(Sextets(s), 0, 0)
  {
  }

  lemma GroupOfThree(p: Byte, q: Byte, r: Byte)
    ensures var x, y, z, u := p / 4, p % 4 * 16 + q / 16, q % 16 * 4 + r / 64, r % 64;
            x * 4 + y / 16 == p && y % 16 * 16 + z / 4 == q && z % 4 * 64 + u == r
  {
  }

  /** Decoding what section 4 of RFC 4648 encodes returns the bytes. */
  lemma {:induction false} DecodeEncode(b: seq<Byte>)
    ensures DecodeSpec(Encode(b)) == b
    decreases |b|
  {
    hide *;
    if |b| == 0 {
      NoBytes(b);
    } else if |b| == 1 {
      OneByte(b);
    } else if |b| == 2 {
      TwoBytes(b);
    } else {
      DecodeEncode(b[3..]);
      ThreeBytes(b);
    }
  }

  lemma NoBytes(b: seq<Byte>)
    requires b == []
    ensures DecodeSpec(Encode(b)) == b
  {
  }

  lemma ThreeBytes(b: seq<Byte>)
    requires |b| > 2 && DecodeSpec(Encode(b[3..])) == b[3..]
    ensures DecodeSpec(Encode(b)) == b
  {
    hide *;
    FirstThree(b);
    GroupDecodes(b[0], b[1], b[2], b[3..]);
  }

  lemma GroupDecodes(p: Byte, q: Byte, r: Byte, rest: seq<Byte>)
    requires DecodeSpec(Encode(rest)) == rest
    ensures DecodeSpec(Encode([p, q, r] + rest)) == [p, q, r] + rest
  {
    hide *;
    EncodesGroup(p, q, r, rest);
    GroupReads(p, q, r, Encode(rest));
  }

  lemma EncodesGroup(p: Byte, q: Byte, r: Byte, rest: seq<Byte>)
    ensures Encode([p, q, r] + rest)
         == [Digit(p / 4), Digit(p % 4 * 16 + q / 16), Digit(q % 16 * 4 + r / 64), Digit(r % 64)] + Encode(rest)
  {
    var b := [p, q, r] + rest;
    assert b[3..] == rest && b[0] == p && b[1] == q && b[2] == r;
    hide Digit;
  }

  /** One group of digits is read as its three bytes. */
  lemma GroupReads(p: Byte, q: Byte, r: Byte, rest: string)
    ensures DecodeSpec([Digit(p / 4), Digit(p % 4 * 16 + q / 16), Digit(q % 16 * 4 + r / 64), Digit(r % 64)] + rest)
         == [p, q, r] + DecodeSpec(rest)
  {
    hide *;
    GroupOfThree(p, q, r);
    FourDigits(p / 4, p % 4 * 16 + q / 16, q % 16 * 4 + r / 64, r % 64, rest, p, q, r);
  }

  lemma FirstThree(b: seq<Byte>)
    requires |b| > 2
    ensures b == [b[0], b[1], b[2]] + b[3..]
  {
  }

  lemma FourDigits(x: Sextet, y: Sextet, z: Sextet, u: Sextet, rest: string, p: Byte, q: Byte, r: Byte)
    requires p == x * 4 + y / 16 && q == y % 16 * 16 + z / 4 && r == z % 4 * 64 + u
    ensures DecodeSpec([Digit(x), Digit(y), Digit(z), Digit(u)] + rest) == [p, q, r] + DecodeSpec(rest)
  {
    DecodeSpecIs(rest);
    DecodeSpecIs([Digit(x), Digit(y), Digit(z), Digit(u)] + rest);
    hide *;
    SextetsFour(x, y, z, u, rest);
    GroupOfFour(x, y, z, u, Sextets(rest));
  }

  /** Without the line breaks, blanks and equal signs that may stand anywhere. */
  function Unwrapped(s: string): string {
    if s == "" then ""
    else if s[0] in {'\n', '\r', ' ', '='} then Unwrapped(s[1..])
    else [s[0]] + Unwrapped(s[1..])
  }

  lemma {:induction false} WrappingIsSkipped(s: string)
    ensures Sextets(Unwrapped(s)) == Sextets(s)
  {
    if s != "" {
      WrappingIsSkipped(s[1..]);
      assert ([s[0]] + Unwrapped(s[1..]))[1..] == Unwrapped(s[1..]);
    }
  }

  /** However the encoded text is wrapped and padded, the original bytes come back. */
  lemma DecodeWrapped(s: string, b: seq<Byte>)
    requires Unwrapped(s) == Unwrapped(Encode(b))
    ensures DecodeSpec(s) == b
  {
    WrappingIsSkipped(s);
    WrappingIsSkipped(Encode(b));
    DecodeEncode(b);
  }

  /** The 64 letters of the alphabet and the four characters that are passed over. */
  predicate Known(c: char) {
    'A' <= c <= 'Z' || 'a' <= c <= 'z' || '0' <= c <= '9' || c in {'+', '/', '=', '\n', '\r', ' '}
  }

  /** Any other character is not refused: it counts as an 'A'. */
  function AsLetters(s: string): string {
    if s == "" then "" else [if Known(s[0]) then s[0] else 'A'] + AsLetters(s[1..])
  }

  lemma {:induction false} SextetsOfLetters(s: string)
    ensures Sextets(AsLetters(s)) == Sextets(s)
  {
    if s != "" {
      var c := if Known(s[0]) then s[0] else 'A';
      SextetsOfLetters(s[1..]);
      assert ([c] + AsLetters(s[1..]))[1..] == AsLetters(s[1..]);
      assert Skipped(c) == Skipped(s[0]) && Value(c) == Value(s[0]);
    }
  }

  /** So no text fails to decode. */
  lemma UnknownIsA(s: string)
    ensures DecodeSpec(s) == DecodeSpec(AsLetters(s))
  {
    SextetsOfLetters(s);
  }

  /** For every text, encoded or not, the bytes and the NUL behind them fit the allocated buffer. */
  lemma {:induction false} OutputFits(v: seq<Sextet>, acc: int, bits: int)
    requires Pending(bits) && 0 <= acc < Pow(bits)
    ensures 8 * |Bytes(v, acc, bits)| <= 6 * |v| + bits
    decreases |v|
  {
    if v != [] {
      var joined := acc * 64 + v[0];
      if bits == 0 {
        OutputFits(v[1..], joined, 6);
      } else {
        OutputFits(v[1..], joined % Pow(bits - 2), bits - 2);
      }
    }
  }

  lemma {:induction false} SextetsShorter(s: string)
    ensures |Sextets(s)| <= |s|
  {
    if s != "" {
      SextetsShorter(s[1..]);
    }
  }

  lemma DecodeFits(s: string)
    ensures |DecodeSpec(s)| + 1 <= |s| / 4 * 3 + 4
  {
    OutputFits(Sextets(s), 0, 0);
    SextetsShorter(s);
  }
}
