/** UTF-8 as the response carries it: Go writes the encoded bytes, and the browser's
    `TextDecoder` in streaming mode decodes them chunk by chunk, keeping an unfinished
    character between chunks (the UTF-8 decoder of the WHATWG Encoding Standard, section 8.1.1). */
module Utf8 {
  import opened Seqs

  type Byte = b: int | 0 <= b < 256

  const REPLACEMENT: char := '\U{FFFD}'

  function EncodeChar(c: char): seq<Byte> {
    var p := c as int;
    var q := p / 64;
    var r := q / 64;
    if p < 0x80 then [p]
    else if p < 0x800 then [0xC0 + q, 0x80 + p % 64]
    else if p < 0x10000 then [0xE0 + r, 0x80 + q % 64, 0x80 + p % 64]
    else [0xF0 + r / 64, 0x80 + r % 64, 0x80 + q % 64, 0x80 + p % 64]
  }

  function Encode(text: string): seq<Byte> {
    if text == "" then [] else EncodeChar(text[0]) + Encode(text[1..])
  }

  lemma {:induction false} EncodeAppend(a: string, b: string)
    ensures Encode(a + b) == Encode(a) + Encode(b)
  {
    if a == "" {
      assert a + b == b;
    } else {
      EncodeAppend(a[1..], b);
      assert (a + b)[1..] == a[1..] + b;
      Regroup(EncodeChar(a[0]), Encode(a[1..]), Encode(b));
    }
  }

  predicate IsScalar(p: int) {
    0 <= p < 0xD800 || 0xE000 <= p < 0x110000
  }

  /** The decoder's memory: continuation bytes still needed, the code point so far, and the
      range the next byte must lie in. */
  datatype Decoder = Decoder(needed: nat, point: nat, lower: Byte, upper: Byte)

  const START := Decoder(0, 0, 0x80, 0xBF)

  /** The states the decoder reaches: whatever it finishes with is a Unicode scalar value. */
  predicate Sound(d: Decoder) {
    && 0x80 <= d.lower && d.upper <= 0xBF
    && match d.needed
       case 0 => d == START
       case 1 => 2 <= d.point < 0x4400 && !(0x360 <= d.point < 0x380) && d.lower == 0x80 && d.upper == 0xBF
       case 2 => d.point < 0x110 && (d.point == 0 ==> d.lower == 0xA0) && (d.point == 13 ==> d.upper == 0x9F)
       case 3 => d.point < 5 && (d.point == 0 ==> d.lower == 0x90) && (d.point == 4 ==> d.upper == 0x8F)
       case _ => false
  }

  function Lead(b: Byte): (r: (string, Decoder))
    ensures Sound(r.1)
  {
    if b < 0x80 then ([b as char], START)
    else if 0xC2 <= b < 0xE0 then ("", Decoder(1, b - 0xC0, 0x80, 0xBF))
    else if 0xE0 <= b < 0xF0 then
      ("", Decoder(2, b - 0xE0, if b == 0xE0 then 0xA0 else 0x80, if b == 0xED then 0x9F else 0xBF))
    else if 0xF0 <= b < 0xF5 then
      ("", Decoder(3, b - 0xF0, if b == 0xF0 then 0x90 else 0x80, if b == 0xF4 then 0x8F else 0xBF))
    else ([REPLACEMENT], START)
  }

  /** One byte: the characters it releases and the new memory. A byte outside the expected
      range yields a replacement character and is then read again as a lead byte. */
  function Step(d: Decoder, b: Byte): (r: (string, Decoder))
    requires Sound(d)
    ensures Sound(r.1)
  {
    if d.needed == 0 then Lead(b)
    else if b < d.lower || d.upper < b then
      var again := Lead(b);
      ([REPLACEMENT] + again.0, again.1)
    else
      var point := d.point * 64 + (b - 0x80);
      if d.needed == 1 then ([point as char], START) else ("", Decoder(d.needed - 1, point, 0x80, 0xBF))
  }

  /** `decoder.decode(bytes, {stream: true})`. */
  function Decode(d: Decoder, bytes: seq<Byte>): (r: (string, Decoder))
    requires Sound(d)
    ensures Sound(r.1)
    decreases |bytes|
  {
    if bytes == [] then ("", d)
    else
      var (text, next) := Step(d, bytes[0]);
      Ahead(text, Decode(next, bytes[1..]))
  }

  function Ahead(text: string, later: (string, Decoder)): (string, Decoder) {
    (text + later.0, later.1)
  }

  lemma NothingAhead(later: (string, Decoder))
    ensures Ahead("", later) == later
  {
    assert "" + later.0 == later.0;
  }

  lemma AheadBoth(a: string, b: string, later: (string, Decoder))
    ensures Ahead(a, Ahead(b, later)) == Ahead(a + b, later)
  {
    Regroup(a, b, later.0);
  }

  /** Cutting the bytes anywhere, even inside a character, does not change the decoded text. */
  lemma {:induction false} DecodeAppend(d: Decoder, a: seq<Byte>, b: seq<Byte>)
    requires Sound(d)
    ensures var (text, mid) := Decode(d, a);
            Decode(d, a + b) == Ahead(text, Decode(mid, b))
    decreases |a|
  {
    if a == [] {
      assert a + b == b;
      NothingAhead(Decode(d, b));
    } else {
      var (head, next) := Step(d, a[0]);
      var (tail, mid) := Decode(next, a[1..]);
      DecodeAppend(next, a[1..], b);
      DecodeStep(d, a);
      DecodeStep(d, a + b);
      assert (a + b)[1..] == a[1..] + b;
      AheadBoth(head, tail, Decode(mid, b));
    }
  }

  lemma DecodeStep(d: Decoder, bytes: seq<Byte>)
    requires Sound(d) && bytes != []
    ensures var (text, next) := Step(d, bytes[0]);
            Decode(d, bytes) == Ahead(text, Decode(next, bytes[1..]))
  {
  }

  lemma DecodeChar(c: char)
    ensures Decode(START, EncodeChar(c)) == ([c], START)
  {
    var p := c as int;
    var q := p / 64;
    if p < 0x80 {
      DecodeFirst(START, p, []);
    } else if p < 0x800 {
      DecodeTwo(q, p % 64);
    } else {
      DecodeLong(c);
    }
  }

  lemma DecodeLong(c: char)
    requires 0x800 <= c as int
    ensures Decode(START, EncodeChar(c)) == ([c], START)
  {
    var p := c as int;
    var q := p / 64;
    var r := q / 64;
    if p < 0x10000 {
      DecodeThree(r, q % 64, p % 64);
    } else {
      DecodeFour(r / 64, r % 64, q % 64, p % 64);
    }
  }

  lemma DecodeTwo(x: int, y: int)
    requires 2 <= x < 32 && 0 <= y < 64
    ensures Decode(START, [0xC0 + x, 0x80 + y]) == ([(x * 64 + y) as char], START)
  {
    DecodeFirst(START, 0xC0 + x, [0x80 + y]);
    DecodeFirst(Lead(0xC0 + x).1, 0x80 + y, []);
  }

  lemma DecodeThree(x: int, y: int, z: int)
    requires 0 <= x < 16 && 0 <= y < 64 && 0 <= z < 64
    requires IsScalar((x * 64 + y) * 64 + z) && 0x800 <= (x * 64 + y) * 64 + z
    ensures Decode(START, [0xE0 + x, 0x80 + y, 0x80 + z]) == ([((x * 64 + y) * 64 + z) as char], START)
  {
    DecodeFirst(START, 0xE0 + x, [0x80 + y, 0x80 + z]);
    ContinueTwo(Lead(0xE0 + x).1, y, z);
  }

  lemma DecodeFour(w: int, x: int, y: int, z: int)
    requires 0 <= w < 5 && 0 <= x < 64 && 0 <= y < 64 && 0 <= z < 64
    requires 0x10000 <= ((w * 64 + x) * 64 + y) * 64 + z < 0x110000
    ensures Decode(START, [0xF0 + w, 0x80 + x, 0x80 + y, 0x80 + z]) == ([(((w * 64 + x) * 64 + y) * 64 + z) as char], START)
  {
    DecodeFirst(START, 0xF0 + w, [0x80 + x, 0x80 + y, 0x80 + z]);
    ContinueThree(Lead(0xF0 + w).1, x, y, z);
  }

  lemma ContinueThree(d: Decoder, x: int, y: int, z: int)
    requires Sound(d) && d.needed == 3 && 0 <= x < 64 && 0 <= y < 64 && 0 <= z < 64
    requires d.lower <= 0x80 + x <= d.upper && IsScalar(((d.point * 64 + x) * 64 + y) * 64 + z)
    ensures Decode(d, [0x80 + x, 0x80 + y, 0x80 + z]) == ([(((d.point * 64 + x) * 64 + y) * 64 + z) as char], START)
  {
    DecodeFirst(d, 0x80 + x, [0x80 + y, 0x80 + z]);
    StepThree(d, x);
    ContinueTwo(Decoder(2, d.point * 64 + x, 0x80, 0xBF), y, z);
  }

  lemma StepThree(d: Decoder, x: int)
    requires Sound(d) && d.needed == 3 && 0 <= x < 64 && d.lower <= 0x80 + x <= d.upper
    ensures Step(d, 0x80 + x) == ("", Decoder(2, d.point * 64 + x, 0x80, 0xBF))
    ensures Sound(Decoder(2, d.point * 64 + x, 0x80, 0xBF))
  {
  }

  lemma DecodeFirst(d: Decoder, b: Byte, rest: seq<Byte>)
    requires Sound(d)
    ensures Decode(d, [b] + rest) == (Step(d, b).0 + Decode(Step(d, b).1, rest).0, Decode(Step(d, b).1, rest).1)
    ensures Step(d, b).0 == "" ==> Decode(d, [b] + rest) == Decode(Step(d, b).1, rest)
    ensures rest == [] ==> Decode(d, [b]) == Step(d, b)
  {
    assert "" + Decode(Step(d, b).1, rest).0 == Decode(Step(d, b).1, rest).0;
    assert rest == [] ==> Step(d, b).0 + "" == Step(d, b).0 && [b] + rest == [b];
    assert ([b] + rest)[1..] == rest;
  }

  lemma ContinueTwo(d: Decoder, y: int, z: int)
    requires Sound(d) && d.needed == 2 && 0 <= y < 64 && 0 <= z < 64
    requires d.lower <= 0x80 + y <= d.upper && IsScalar((d.point * 64 + y) * 64 + z)
    ensures Decode(d, [0x80 + y, 0x80 + z]) == ([((d.point * 64 + y) * 64 + z) as char], START)
  {
    DecodeFirst(d, 0x80 + y, [0x80 + z]);
    DecodeFirst(Step(d, 0x80 + y).1, 0x80 + z, []);
  }

  /** Decoding undoes encoding, and nothing is left waiting. */
  lemma {:induction false} DecodeEncode(text: string)
    ensures Decode(START, Encode(text)) == (text, START)
  {
    if text != "" {
      DecodeChar(text[0]);
      DecodeEncode(text[1..]);
      DecodeAppend(START, EncodeChar(text[0]), Encode(text[1..]));
      assert text == [text[0]] + text[1..];
    }
  }

  // ----- Nothing but UTF-8 is decoded without a replacement character

  function Continued(d: Decoder, b: Byte): (next: Decoder)
    requires Sound(d) && d.needed > 1 && d.lower <= b <= d.upper
    ensures Sound(next) && next.needed == d.needed - 1
  {
    Step(d, b).1
  }

  predicate InRange(d: Decoder, b: Byte) {
    d.lower <= b <= d.upper
  }

  /** These are the first bytes of a character, and the decoder has taken them in. */
  predicate Opened(d: Decoder, prefix: seq<Byte>) {
    match |prefix|
    case 0 => d == START
    case 1 => d.needed > 0 && Lead(prefix[0]) == ("", d)
    case 2 =>
      var first := Lead(prefix[0]).1;
      first.needed > 1 && InRange(first, prefix[1]) && d == Continued(first, prefix[1])
    case 3 =>
      var first := Lead(prefix[0]).1;
      && first.needed == 3 && InRange(first, prefix[1])
      && var second := Continued(first, prefix[1]); InRange(second, prefix[2]) && d == Continued(second, prefix[2])
    case _ => false
  }

  lemma ClosedTwo(a: Byte, b: Byte)
    requires Lead(a).1.needed == 1 && InRange(Lead(a).1, b)
    ensures EncodeChar(((a - 0xC0) * 64 + (b - 0x80)) as char) == [a, b]
  {
  }

  lemma ClosedThree(a: Byte, b: Byte, c: Byte)
    requires Lead(a).1.needed == 2 && InRange(Lead(a).1, b) && 0x80 <= c <= 0xBF
    requires IsScalar(((a - 0xE0) * 64 + (b - 0x80)) * 64 + (c - 0x80))
    ensures EncodeChar((((a - 0xE0) * 64 + (b - 0x80)) * 64 + (c - 0x80)) as char) == [a, b, c]
  {
    var p := ((a - 0xE0) * 64 + (b - 0x80)) * 64 + (c - 0x80);
    assert p / 64 == (a - 0xE0) * 64 + (b - 0x80) && p % 64 == c - 0x80;
    assert p / 64 / 64 == a - 0xE0 && p / 64 % 64 == b - 0x80;
  }

  lemma ClosedFour(a: Byte, b: Byte, c: Byte, e: Byte)
    requires Lead(a).1.needed == 3 && InRange(Lead(a).1, b) && 0x80 <= c <= 0xBF && 0x80 <= e <= 0xBF
    requires IsScalar((((a - 0xF0) * 64 + (b - 0x80)) * 64 + (c - 0x80)) * 64 + (e - 0x80))
    ensures EncodeChar(((((a - 0xF0) * 64 + (b - 0x80)) * 64 + (c - 0x80)) * 64 + (e - 0x80)) as char) == [a, b, c, e]
  {
    var r := (a - 0xF0) * 64 + (b - 0x80);
    var q := r * 64 + (c - 0x80);
    var p := q * 64 + (e - 0x80);
    assert p / 64 == q && p % 64 == e - 0x80;
    assert q / 64 == r && q % 64 == c - 0x80;
    assert r / 64 == a - 0xF0 && r % 64 == b - 0x80;
  }

  /** The last byte of a character completes its encoding. */
  lemma Closed(d: Decoder, prefix: seq<Byte>, b: Byte)
    requires Sound(d) && Opened(d, prefix) && d.needed == 1 && InRange(d, b)
    ensures |Step(d, b).0| == 1 && EncodeChar(Step(d, b).0[0]) == prefix + [b] && Step(d, b).1 == START
  {
    if |prefix| == 1 {
      ClosedTwo(prefix[0], b);
    } else if |prefix| == 2 {
      ClosedThree(prefix[0], prefix[1], b);
    } else {
      ClosedFour(prefix[0], prefix[1], prefix[2], b);
    }
  }

  lemma OpenedMore(d: Decoder, prefix: seq<Byte>, b: Byte)
    requires Sound(d) && Opened(d, prefix) && d.needed > 1 && InRange(d, b)
    ensures Step(d, b).0 == "" && Opened(Step(d, b).1, prefix + [b])
  {
  }

  /** Decoded to the end without a replacement character. */
  predicate Clean(d: Decoder, bytes: seq<Byte>)
    requires Sound(d)
  {
    Decode(d, bytes).1 == START && REPLACEMENT !in Decode(d, bytes).0
  }

  lemma CleanStep(d: Decoder, bytes: seq<Byte>)
    requires Sound(d) && Clean(d, bytes) && bytes != []
    ensures REPLACEMENT !in Step(d, bytes[0]).0 && Clean(Step(d, bytes[0]).1, bytes[1..])
  {
    DecodeStep(d, bytes);
  }

  lemma SilentStep(d: Decoder, bytes: seq<Byte>)
    requires Sound(d) && bytes != [] && Step(d, bytes[0]).0 == ""
    ensures Decode(d, bytes) == Decode(Step(d, bytes[0]).1, bytes[1..])
  {
    DecodeStep(d, bytes);
    NothingAhead(Decode(Step(d, bytes[0]).1, bytes[1..]));
  }

  lemma EncodeFirst(c: char, rest: string)
    ensures Encode([c] + rest) == EncodeChar(c) + Encode(rest)
  {
    assert ([c] + rest)[1..] == rest;
  }

  lemma CharStep(d: Decoder, bytes: seq<Byte>, c: char)
    requires Sound(d) && bytes != [] && Step(d, bytes[0]) == ([c], START)
    ensures Encode(Decode(d, bytes).0) == EncodeChar(c) + Encode(Decode(START, bytes[1..]).0)
  {
    DecodeStep(d, bytes);
    EncodeFirst(c, Decode(START, bytes[1..]).0);
  }

  lemma SecondPart(prefix: seq<Byte>, bytes: seq<Byte>)
    requires bytes != []
    ensures prefix + [bytes[0]] + bytes[1..] == prefix + bytes
  {
    assert bytes == [bytes[0]] + bytes[1..];
    Regroup(prefix, [bytes[0]], bytes[1..]);
  }

  /** The decoded text encodes to the bytes, those of a character under way in front. */
  predicate Recovered(d: Decoder, prefix: seq<Byte>, bytes: seq<Byte>)
    requires Sound(d)
  {
    Encode(Decode(d, bytes).0) == prefix + bytes
  }

  lemma RecoveredOn(d: Decoder, prefix: seq<Byte>, bytes: seq<Byte>)
    requires Sound(d) && bytes != [] && Step(d, bytes[0]).0 == ""
    requires Recovered(Step(d, bytes[0]).1, prefix + [bytes[0]], bytes[1..])
    ensures Recovered(d, prefix, bytes)
  {
    SilentStep(d, bytes);
    SecondPart(prefix, bytes);
  }

  lemma RecoveredChar(d: Decoder, prefix: seq<Byte>, bytes: seq<Byte>, c: char)
    requires Sound(d) && bytes != [] && Step(d, bytes[0]) == ([c], START) && EncodeChar(c) == prefix + [bytes[0]]
    requires Recovered(START, [], bytes[1..])
    ensures Recovered(d, prefix, bytes)
  {
    CharStep(d, bytes, c);
    assert [] + bytes[1..] == bytes[1..];
    SecondPart(prefix, bytes);
  }

  lemma ReplacementShows(d: Decoder, b: Byte)
    requires Sound(d)
    ensures d.needed > 0 && !InRange(d, b) ==> REPLACEMENT in Step(d, b).0
    ensures d.needed == 0 && 0x80 <= b && Step(d, b).0 != "" ==> REPLACEMENT in Step(d, b).0
  {
    assert REPLACEMENT in [REPLACEMENT] + Lead(b).0;
  }

  lemma {:induction false} DecodedIsEncoded(d: Decoder, prefix: seq<Byte>, bytes: seq<Byte>)
    requires Sound(d) && Opened(d, prefix) && Clean(d, bytes)
    ensures Recovered(d, prefix, bytes)
    decreases |bytes|
  {
    if bytes == [] {
      assert prefix == [];
    } else {
      var b := bytes[0];
      CleanStep(d, bytes);
      ReplacementShows(d, b);
      if d.needed > 1 {
        OpenedMore(d, prefix, b);
        DecodedIsEncoded(Step(d, b).1, prefix + [b], bytes[1..]);
        RecoveredOn(d, prefix, bytes);
      } else if d.needed == 1 {
        Closed(d, prefix, b);
        DecodedIsEncoded(START, [], bytes[1..]);
        RecoveredChar(d, prefix, bytes, Step(d, b).0[0]);
      } else if b < 0x80 {
        DecodedIsEncoded(START, [], bytes[1..]);
        RecoveredChar(d, prefix, bytes, b as char);
      } else {
        DecodedIsEncoded(Step(d, b).1, prefix + [b], bytes[1..]);
        RecoveredOn(d, prefix, bytes);
      }
    }
  }

  /** Bytes are the encoding of some text without a replacement character if and only if they decode to
      their end without one: everything that is not UTF-8 shows. */
  lemma EncodedExactly(bytes: seq<Byte>)
    ensures (exists text :: REPLACEMENT !in text && Encode(text) == bytes)
       <==> Clean(START, bytes)
  {
    if text :| REPLACEMENT !in text && Encode(text) == bytes {
      DecodeEncode(text);
    }
    if Clean(START, bytes) {
      DecodedIsEncoded(START, [], bytes);
      assert Encode(Decode(START, bytes).0) == bytes;
    }
  }

  /** The examples of section 7 of RFC 3629 that tell the lengths apart. */
  lemma Examples()
    ensures EncodeChar('A') == [0x41] && EncodeChar('\U{0391}') == [0xCE, 0x91]
    ensures EncodeChar('\U{2262}') == [0xE2, 0x89, 0xA2] && EncodeChar('\U{233B4}') == [0xF0, 0xA3, 0x8E, 0xB4]
  {
  }
}
