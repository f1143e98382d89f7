/** Base64 as section 4 of RFC 4648 defines it and as Go's `base64.StdEncoding` codes it: the decoder
    skips line breaks, wants padding, and does not look at the bits the last digit leaves over. */
module Base64 {
  import opened Seqs
  import opened Utf8

  const PAD: Byte := 61

  function Digit(v: int): (b: Byte)
    requires 0 <= v < 64
  {
    if v < 26 then 65 + v else if v < 52 then 71 + v else if v < 62 then v - 4 else if v == 62 then 43 else 47
  }

  function Value(b: Byte): (v: int)
    ensures -1 <= v < 64
  {
    if 65 <= b <= 90 then b - 65
    else if 97 <= b <= 122 then b - 71
    else if 48 <= b <= 57 then b + 4
    else if b == 43 then 62
    else if b == 47 then 63
    else -1
  }

  function Letters(first: char, n: nat): string
    requires first as int + n < 128
  {
    seq(n, i requires 0 <= i < n => (first as int + i) as char)
  }

  /** Table 1 of RFC 4648. */
  const ALPHABET := Letters('A', 26) + Letters('a', 26) + Letters('0', 10) + "+/"

  lemma DigitsAreAlphabet(v: int)
    requires 0 <= v < 64
    ensures |ALPHABET| == 64 && Digit(v) == ALPHABET[v] as int
  {
  }

  predicate LineBreak(b: Byte) {
    b == 10 || b == 13
  }

  lemma DigitValue(v: int)
    requires 0 <= v < 64
    ensures Value(Digit(v)) == v && Digit(v) != PAD && !LineBreak(Digit(v))
  {
  }

  /** One group of three bytes, or the one or two that remain at the end. */
  function Group(data: seq<Byte>): (text: seq<Byte>)
    requires data != []
    ensures |text| == 4
  {
    var a := data[0];
    if |data| == 1 then [Digit(a / 4), Digit(a % 4 * 16), PAD, PAD]
    else
      var b := data[1];
      if |data| == 2 then [Digit(a / 4), Digit(a % 4 * 16 + b / 16), Digit(b % 16 * 4), PAD]
      else
        var c := data[2];
        [Digit(a / 4), Digit(a % 4 * 16 + b / 16), Digit(b % 16 * 4 + c / 64), Digit(c % 64)]
  }

  function Encode(data: seq<Byte>): (text: seq<Byte>) {
    if data == [] then [] else Group(data) + if |data| <= 3 then [] else Encode(data[3..])
  }

  function WithoutBreaks(text: seq<Byte>): seq<Byte> {
    Filter(text, b => !LineBreak(b))
  }

  function Decode(text: seq<Byte>): Option<seq<Byte>> {
    DecodeDigits(WithoutBreaks(text))
  }

  /** One group of four digits; padding may stand for the last or the last two of them. */
  function Ungroup(p: Byte, q: Byte, r: Byte, t: Byte): (data: Option<seq<Byte>>)
    ensures data.Some? ==> 1 <= |data.value| <= 3
  {
    var v, w, x, y := Value(p), Value(q), Value(r), Value(t);
    if v == -1 || w == -1 then None
    else if r == PAD then (if t == PAD then Some([v * 4 + w / 16]) else None)
    else if x == -1 then None
    else if t == PAD then Some([v * 4 + w / 16, w % 16 * 16 + x / 4])
    else if y == -1 then None
    else Some([v * 4 + w / 16, w % 16 * 16 + x / 4, x % 4 * 64 + y])
  }

  /** Only the last group may be padded. */
  function DecodeDigits(s: seq<Byte>): Option<seq<Byte>> {
    if s == [] then Some([])
    else if |s| < 4 then None
    else
      var data := Ungroup(s[0], s[1], s[2], s[3]);
      if data.None? then None
      else if |s| == 4 then data
      else if |data.value| < 3 then None
      else
        match DecodeDigits(s[4..])
        case None => None
        case Some(rest) => Some(data.value + rest)
  }

  /** A line feed or carriage return anywhere in a code makes no difference. */
  lemma BreaksIgnored(before: seq<Byte>, b: Byte, after: seq<Byte>)
    requires b == 10 || b == 13
    ensures Decode(before + [b] + after) == Decode(before + after)
  {
    FilterAppend(before + [b], after, b => !LineBreak(b));
    FilterPush(before, b, b => !LineBreak(b));
    FilterAppend(before, after, b => !LineBreak(b));
    assert WithoutBreaks(before) + [] == WithoutBreaks(before);
  }

  predicate Ungroups(text: seq<Byte>, data: seq<Byte>)
    requires |text| == 4
  {
    Ungroup(text[0], text[1], text[2], text[3]) == Some(data)
  }

  /** So many digits and then padding, the digits read as a number to the base 64. */
  predicate ReadsAs(text: seq<Byte>, digits: nat, n: int) {
    && |text| == 4 && (forall k :: digits <= k < 4 ==> text[k] == PAD)
    && match digits
       case 2 => Value(text[0]) * 64 + Value(text[1]) == n
       case 3 => (Value(text[0]) * 64 + Value(text[1])) * 64 + Value(text[2]) == n
       case 4 => ((Value(text[0]) * 64 + Value(text[1])) * 64 + Value(text[2])) * 64 + Value(text[3]) == n
       case _ => false
  }

  /** The digits of a group read as the number that its bytes are to the base 256, filled up with zero
      bits to whole digits. */
  lemma GroupIsNumber(a: int, b: int, c: int)
    requires 0 <= a < 256 && 0 <= b < 256 && 0 <= c < 256
    ensures ReadsAs(Group([a]), 2, a * 16) && ReadsAs(Group([a, b]), 3, (a * 256 + b) * 4)
    ensures ReadsAs(Group([a, b, c]), 4, (a * 256 + b) * 256 + c)
  {
    DigitValue(a / 4);
    DigitValue(a % 4 * 16);
    DigitValue(a % 4 * 16 + b / 16);
    DigitValue(b % 16 * 4);
    DigitValue(b % 16 * 4 + c / 64);
    DigitValue(c % 64);
  }

  lemma OneByte(a: Byte)
    ensures Ungroups(Group([a]), [a])
  {
    DigitValue(a / 4);
    DigitValue(a % 4 * 16);
  }

  lemma TwoBytes(a: Byte, b: Byte)
    ensures Ungroups(Group([a, b]), [a, b])
  {
    var v, w, x := a / 4, a % 4 * 16 + b / 16, b % 16 * 4;
    assert v * 4 + w / 16 == a && w % 16 * 16 + x / 4 == b;
    TwoDigits(v, w, x);
  }

  lemma TwoDigits(v: int, w: int, x: int)
    requires 0 <= v < 64 && 0 <= w < 64 && 0 <= x < 64
    ensures Ungroup(Digit(v), Digit(w), Digit(x), PAD) == Some([v * 4 + w / 16, w % 16 * 16 + x / 4])
  {
    DigitValue(v);
    DigitValue(w);
    DigitValue(x);
  }

  lemma DigitsOf(a: Byte, b: Byte, c: Byte) returns (v: int, w: int, x: int, y: int)
    ensures 0 <= v < 64 && 0 <= w < 64 && 0 <= x < 64 && 0 <= y < 64
    ensures v * 4 + w / 16 == a && w % 16 * 16 + x / 4 == b && x % 4 * 64 + y == c
    ensures Group([a, b, c]) == [Digit(v), Digit(w), Digit(x), Digit(y)]
  {
    v, w, x, y := a / 4, a % 4 * 16 + b / 16, b % 16 * 4 + c / 64, c % 64;
  }

  lemma FourDigits(v: int, w: int, x: int, y: int)
    requires 0 <= v < 64 && 0 <= w < 64 && 0 <= x < 64 && 0 <= y < 64
    ensures Ungroup(Digit(v), Digit(w), Digit(x), Digit(y)) == Some([v * 4 + w / 16, w % 16 * 16 + x / 4, x % 4 * 64 + y])
  {
    DigitValue(v);
    DigitValue(w);
    DigitValue(x);
    DigitValue(y);
  }

  lemma ThreeBytes(a: Byte, b: Byte, c: Byte)
    ensures Ungroups(Group([a, b, c]), [a, b, c])
  {
    var v, w, x, y := DigitsOf(a, b, c);
    FourDigits(v, w, x, y);
  }

  /** A group gives back its bytes, with or without padding. */
  lemma GroupBack(data: seq<Byte>)
    requires 1 <= |data| <= 3
    ensures Ungroups(Group(data), data)
  {
    if |data| == 1 {
      assert data == [data[0]];
      OneByte(data[0]);
    } else if |data| == 2 {
      assert data == [data[0], data[1]];
      TwoBytes(data[0], data[1]);
    } else {
      assert data == [data[0], data[1], data[2]];
      ThreeBytes(data[0], data[1], data[2]);
    }
  }

  lemma InFront(text: seq<Byte>, data: seq<Byte>, rest: seq<Byte>)
    requires |text| == 4 && |data| == 3 && Ungroups(text, data) && DecodeDigits(rest).Some?
    ensures DecodeDigits(text + rest) == Some(data + DecodeDigits(rest).value)
  {
    assert (text + rest)[4..] == rest;
    if rest == [] {
      assert text + rest == text && data + [] == data;
    }
  }

  lemma GroupOfThree(data: seq<Byte>)
    requires |data| > 3
    ensures Group(data) == Group(data[..3])
  {
  }

  lemma {:induction false} DigitsBack(data: seq<Byte>)
    ensures DecodeDigits(Encode(data)) == Some(data)
  {
    if data == [] {
    } else if |data| <= 3 {
      GroupBack(data);
      assert Encode(data) == Group(data);
    } else {
      DigitsBack(data[3..]);
      GroupOfThree(data);
      GroupBack(data[..3]);
      InFront(Group(data), data[..3], Encode(data[3..]));
      assert data == data[..3] + data[3..];
    }
  }

  lemma {:induction false} NoLineBreaks(data: seq<Byte>)
    ensures forall b :: b in Encode(data) ==> !LineBreak(b)
  {
    if data != [] {
      assert forall k :: 0 <= k < 4 ==> !LineBreak(Group(data)[k]);
      if |data| > 3 {
        NoLineBreaks(data[3..]);
      }
    }
  }

  /** Decoding undoes encoding, for byte strings of every length. */
  lemma RoundTrip(data: seq<Byte>)
    ensures Decode(Encode(data)) == Some(data)
  {
    DigitsBack(data);
    NoLineBreaks(data);
    FilterAll(Encode(data), b => !LineBreak(b));
  }

  /** The length of the text: four digits for every three bytes begun. */
  lemma {:induction false} EncodedLength(data: seq<Byte>)
    ensures |Encode(data)| == (|data| + 2) / 3 * 4
  {
    if |data| > 3 {
      EncodedLength(data[3..]);
      assert (|data| + 2) / 3 == (|data[3..]| + 2) / 3 + 1;
    }
  }

  // ----- Which texts decode

  /** The last `n` bytes are padding and all others digits. */
  predicate Padded(s: seq<Byte>, n: nat) {
    && n <= |s| && (forall i :: 0 <= i < |s| - n ==> Value(s[i]) != -1)
    && forall i :: |s| - n <= i < |s| ==> s[i] == PAD
  }

  /** Whole groups of four, and at most two bytes of padding at the very end. */
  predicate WellFormed(s: seq<Byte>) {
    |s| % 4 == 0 && (Padded(s, 0) || Padded(s, 1) || Padded(s, 2))
  }

  lemma LastGroup(s: seq<Byte>)
    requires |s| == 4
    ensures Ungroup(s[0], s[1], s[2], s[3]).Some? <==> Padded(s, 0) || Padded(s, 1) || Padded(s, 2)
  {
  }

  predicate FourDigitsFirst(s: seq<Byte>)
    requires |s| >= 4
  {
    Value(s[0]) != -1 && Value(s[1]) != -1 && Value(s[2]) != -1 && Value(s[3]) != -1
  }

  lemma FullGroup(s: seq<Byte>)
    requires |s| >= 4
    ensures FourDigitsFirst(s)
       <==> Ungroup(s[0], s[1], s[2], s[3]).Some? && |Ungroup(s[0], s[1], s[2], s[3]).value| == 3
  {
  }

  lemma PaddedLater(s: seq<Byte>, n: nat)
    requires |s| >= 8 && n <= 2
    ensures Padded(s, n) <==> FourDigitsFirst(s) && Padded(s[4..], n)
  {
    assert forall i :: 0 <= i < |s| - 4 ==> s[4..][i] == s[i + 4];
    if FourDigitsFirst(s) && Padded(s[4..], n) {
      forall i | 4 <= i < |s|
        ensures if i < |s| - n then Value(s[i]) != -1 else s[i] == PAD
      {
        assert s[i] == s[4..][i - 4];
      }
    }
  }

  lemma FormedLater(s: seq<Byte>)
    requires |s| >= 8
    ensures WellFormed(s) <==> FourDigitsFirst(s) && WellFormed(s[4..])
  {
    PaddedLater(s, 0);
    PaddedLater(s, 1);
    PaddedLater(s, 2);
  }

  lemma DecodesLater(s: seq<Byte>)
    requires |s| > 4
    ensures DecodeDigits(s).Some? <==> FourDigitsFirst(s) && DecodeDigits(s[4..]).Some?
  {
    FullGroup(s);
  }

  lemma {:induction false} DigitsExactly(s: seq<Byte>)
    ensures DecodeDigits(s).Some? <==> WellFormed(s)
  {
    if |s| == 4 {
      LastGroup(s);
    } else if |s| > 4 {
      DecodesLater(s);
      if |s| >= 8 {
        FormedLater(s);
        DigitsExactly(s[4..]);
      }
    }
  }

  /** A text decodes if and only if, line breaks left out, it is well formed. */
  lemma DecodesExactly(text: seq<Byte>)
    ensures Decode(text).Some? <==> WellFormed(WithoutBreaks(text))
  {
    DigitsExactly(WithoutBreaks(text));
  }

  lemma {:induction false} DigitsShorter(s: seq<Byte>)
    requires DecodeDigits(s).Some?
    ensures |DecodeDigits(s).value| <= |s| && (s != [] ==> |DecodeDigits(s).value| < |s|)
  {
    if |s| > 4 {
      DigitsShorter(s[4..]);
    }
  }

  lemma {:induction false} FilterShorter<T>(s: seq<T>, keep: T -> bool)
    ensures |Filter(s, keep)| <= |s|
  {
    if s != [] {
      FilterShorter(s[..|s| - 1], keep);
    }
  }

  /** No text decodes to itself but the empty one: what is decoded is shorter. */
  lemma DecodedShorter(text: seq<Byte>)
    requires Decode(text).Some? && text != []
    ensures |Decode(text).value| < |text|
  {
    DigitsShorter(WithoutBreaks(text));
    FilterShorter(text, b => !LineBreak(b));
  }
}
