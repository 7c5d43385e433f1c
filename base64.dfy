/** `base64.urlsafe_b64encode`: the base 64 encoding with the URL and
    filename safe alphabet of section 5 of RFC 4648 ('-' and '_' for 62 and
    63), padded with '=' to a multiple of four characters. */
module Base64Url {
  import opened Wrappers
  import opened Utf8

  type Digit = d: int | 0 <= d < 64

  /** The alphabet: A-Z, a-z, 0-9, '-', '_'. */
  function DigitChar(d: Digit): char {
    if d < 26 then ('A' as int + d) as char
    else if d < 52 then ('a' as int + d - 26) as char
    else if d < 62 then ('0' as int + d - 52) as char
    else if d == 62 then '-'
    else '_'
  }

  function CharDigit(c: char): (r: Option<Digit>)
    ensures r.Some? ==> DigitChar(r.value) == c
  {
    if 'A' <= c <= 'Z' then Some(c as int - 'A' as int)
    else if 'a' <= c <= 'z' then Some(c as int - 'a' as int + 26)
    else if '0' <= c <= '9' then Some(c as int - '0' as int + 52)
    else if c == '-' then Some(62)
    else if c == '_' then Some(63)
    else None
  }

  lemma CharDigitOf(d: Digit)
    ensures CharDigit(DigitChar(d)) == Some(d)
  {
  }

  /** Three bytes as four digits. */
  function Quad(b0: Byte, b1: Byte, b2: Byte): string {
    [DigitChar(b0 / 4), DigitChar((b0 % 4) * 16 + b1 / 16), DigitChar((b1 % 16) * 4 + b2 / 64), DigitChar(b2 % 64)]
  }

  /** The last one or two bytes, padded with "==" or "=" to four
      characters. */
  function Padded(bs: seq<Byte>): (s: string)
    requires 1 <= |bs| <= 2
    ensures |s| == 4
  {
    if |bs| == 1 then [DigitChar(bs[0] / 4), DigitChar((bs[0] % 4) * 16)] + "=="
    else [DigitChar(bs[0] / 4), DigitChar((bs[0] % 4) * 16 + bs[1] / 16), DigitChar((bs[1] % 16) * 4)] + "="
  }

  /** The encoding: whole groups of three bytes, then a last group of one
      or two bytes padded. */
  function Encode(bs: seq<Byte>): string
    decreases |bs|
  {
    if |bs| == 0 then ""
    else if |bs| < 3 then Padded(bs)
    else Quad(bs[0], bs[1], bs[2]) + Encode(bs[3..])
  }

  /** Four characters for every started group of three bytes. */
  lemma {:induction false} EncodeLength(bs: seq<Byte>)
    ensures |Encode(bs)| == 4 * ((|bs| + 2) / 3)
    decreases |bs|
  {
    if |bs| >= 3 {
      EncodeLength(bs[3..]);
      assert (|bs| + 2) / 3 == (|bs[3..]| + 2) / 3 + 1;
    }
  }

  /** The encoding is plain text: only alphabet characters and '='. */
  lemma {:induction false} EncodeAlphabet(bs: seq<Byte>)
    ensures forall i :: 0 <= i < |Encode(bs)| ==> Encode(bs)[i] == '=' || CharDigit(Encode(bs)[i]).Some?
    decreases |bs|
  {
    if |bs| >= 3 {
      EncodeAlphabet(bs[3..]);
      var s := Encode(bs);
      assert s == Quad(bs[0], bs[1], bs[2]) + Encode(bs[3..]);
      forall i | 0 <= i < |s|
        ensures s[i] == '=' || CharDigit(s[i]).Some?
      {
        if i < 4 {
          var d: Digit :| s[i] == DigitChar(d) by {
            if i == 0 { assert s[0] == DigitChar(bs[0] / 4); }
            else if i == 1 { assert s[1] == DigitChar((bs[0] % 4) * 16 + bs[1] / 16); }
            else if i == 2 { assert s[2] == DigitChar((bs[1] % 16) * 4 + bs[2] / 64); }
            else { assert s[3] == DigitChar(bs[2] % 64); }
          }
          CharDigitOf(d);
        } else {
          assert s[i] == Encode(bs[3..])[i - 4];
        }
      }
    } else if |bs| > 0 {
      var s := Encode(bs);
      assert s == Padded(bs);
      forall i | 0 <= i < |s|
        ensures s[i] == '=' || CharDigit(s[i]).Some?
      {
        var d: Digit;
        if i == 0 { d := bs[0] / 4; }
        else if i == 1 { d := if |bs| == 1 then (bs[0] % 4) * 16 else (bs[0] % 4) * 16 + bs[1] / 16; }
        else if i == 2 && |bs| == 2 { d := (bs[1] % 16) * 4; }
        else { d := 0; }
        CharDigitOf(d);
      }
    }
  }

  /** The bytes four digits a, b, c, d stand for: the high six bits of the
      first byte are a, and so on. */
  function High(a: Digit, b: Digit): Byte {
    a * 4 + b / 16
  }

  function Mid(b: Digit, c: Digit): Byte {
    (b % 16) * 16 + c / 4
  }

  function Low(c: Digit, d: Digit): Byte {
    (c % 4) * 64 + d
  }

  /** The three bytes of a group of four digits; None when one of them is
      not in the alphabet. */
  function GroupBytes(c0: char, c1: char, c2: char, c3: char): Option<seq<Byte>> {
    var d0, d1, d2, d3 := CharDigit(c0), CharDigit(c1), CharDigit(c2), CharDigit(c3);
    if d0.None? || d1.None? || d2.None? || d3.None? then None
    else Some([High(d0.value, d1.value), Mid(d1.value, d2.value), Low(d2.value, d3.value)])
  }

  /** The one or two bytes of a last group ending in "==" or "=": `c2` is
      '=' or the third digit. */
  function PaddedBytes(c0: char, c1: char, c2: char): Option<seq<Byte>> {
    var d0, d1, d2 := CharDigit(c0), CharDigit(c1), CharDigit(c2);
    if d0.None? || d1.None? then None
    else if c2 == '=' then Some([High(d0.value, d1.value)])
    else if d2.None? then None
    else Some([High(d0.value, d1.value), Mid(d1.value, d2.value)])
  }

  /** `base64.urlsafe_b64decode`, on well-formed padded input; None where
      the text is not of that form. */
  function Decode(s: string): Option<seq<Byte>>
    decreases |s|
  {
    if |s| == 0 then Some([])
    else if |s| < 4 then None
    else if |s| == 4 && s[3] == '=' then PaddedBytes(s[0], s[1], s[2])
    else
      match GroupBytes(s[0], s[1], s[2], s[3])
      case None => None
      case Some(group) =>
        match Decode(s[4..])
        case None => None
        case Some(rest) => Some(group + rest)
  }

  /** The last one or two bytes come back from their padded group. */
  lemma DecodeTail(bs: seq<Byte>)
    requires 1 <= |bs| <= 2
    ensures Decode(Encode(bs)) == Some(bs)
  {
    assert Encode(bs) == Padded(bs);
    if |bs| == 1 {
      DecodeSingle(bs[0]);
      assert bs == [bs[0]];
    } else {
      DecodePair(bs[0], bs[1]);
      assert bs == [bs[0], bs[1]];
    }
  }

  lemma DecodeSingle(b0: Byte)
    ensures Decode(Padded([b0])) == Some([b0])
  {
    var i0, i1 := b0 / 4, (b0 % 4) * 16;
    CharDigitOf(i0);
    CharDigitOf(i1);
    var s := Padded([b0]);
    assert s == [DigitChar(i0), DigitChar(i1), '=', '='];
    assert High(i0, i1) == b0;
  }

  lemma DecodePair(b0: Byte, b1: Byte)
    ensures Decode(Padded([b0, b1])) == Some([b0, b1])
  {
    var i0, i1, i2 := b0 / 4, (b0 % 4) * 16 + b1 / 16, (b1 % 16) * 4;
    CharDigitOf(i0);
    CharDigitOf(i1);
    CharDigitOf(i2);
    DigitNotPad(i2);
    var s := Padded([b0, b1]);
    assert s == [DigitChar(i0), DigitChar(i1), DigitChar(i2), '='];
    assert High(i0, i1) == b0;
    assert Mid(i1, i2) == b1;
  }

  /** No digit is written as the padding character. */
  lemma DigitNotPad(d: Digit)
    ensures DigitChar(d) != '='
  {
  }

  /** Four digits give back the three bytes they were made of. */
  lemma DecodeQuad(b0: Byte, b1: Byte, b2: Byte)
    ensures var q := Quad(b0, b1, b2);
            q[3] != '=' && GroupBytes(q[0], q[1], q[2], q[3]) == Some([b0, b1, b2])
  {
    var d0, d1, d2, d3 := b0 / 4, (b0 % 4) * 16 + b1 / 16, (b1 % 16) * 4 + b2 / 64, b2 % 64;
    CharDigitOf(d0);
    CharDigitOf(d1);
    CharDigitOf(d2);
    CharDigitOf(d3);
    DigitNotPad(d3);
    HighBack(b0, b1);
    MidBack(b0, b1, b2);
    LowBack(b1, b2);
    assert [High(d0, d1), Mid(d1, d2), Low(d2, d3)] == [b0, b1, b2];
  }

  lemma HighBack(b0: Byte, b1: Byte)
    ensures High(b0 / 4, (b0 % 4) * 16 + b1 / 16) == b0
  {
  }

  lemma MidBack(b0: Byte, b1: Byte, b2: Byte)
    ensures Mid((b0 % 4) * 16 + b1 / 16, (b1 % 16) * 4 + b2 / 64) == b1
  {
    assert ((b0 % 4) * 16 + b1 / 16) % 16 == b1 / 16;
    assert ((b1 % 16) * 4 + b2 / 64) / 4 == b1 % 16;
  }

  lemma LowBack(b1: Byte, b2: Byte)
    ensures Low((b1 % 16) * 4 + b2 / 64, b2 % 64) == b2
  {
  }

  /** A group of four characters not ending in '=' in front of more text. */
  lemma DecodeFront(q: string, tail: string)
    requires |q| == 4 && q[3] != '='
    ensures Decode(q + tail) == match GroupBytes(q[0], q[1], q[2], q[3])
                                case None => None
                                case Some(group) =>
                                  match Decode(tail)
                                  case None => None
                                  case Some(rest) => Some(group + rest)
  {
    var s := q + tail;
    assert s[..4] == q && s[4..] == tail;
  }

  /** Decoding undoes encoding. */
  lemma {:induction false} DecodeEncode(bs: seq<Byte>)
    ensures Decode(Encode(bs)) == Some(bs)
    decreases |bs|
  {
    if 1 <= |bs| <= 2 {
      DecodeTail(bs);
    } else if |bs| >= 3 {
      var q, tail := Quad(bs[0], bs[1], bs[2]), Encode(bs[3..]);
      assert Encode(bs) == q + tail;
      DecodeQuad(bs[0], bs[1], bs[2]);
      DecodeFront(q, tail);
      DecodeEncode(bs[3..]);
      assert [bs[0], bs[1], bs[2]] + bs[3..] == bs;
    }
  }

  /** Distinct byte strings have distinct encodings. */
  lemma EncodeInjective(a: seq<Byte>, b: seq<Byte>)
    requires Encode(a) == Encode(b)
    ensures a == b
  {
    DecodeEncode(a);
    DecodeEncode(b);
  }
}
