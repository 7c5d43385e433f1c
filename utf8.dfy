/** `str.encode("utf-8")` and its inverse. A Dafny `char` is a Unicode
    scalar value, so every string encodes (Python raises on a lone
    surrogate, which a `char` cannot hold). */
module Utf8 {
  import opened Wrappers

  type Byte = b: int | 0 <= b < 256

  /** The one to four bytes of a scalar value. */
  function EncodeChar(c: char): (bs: seq<Byte>)
    ensures 1 <= |bs| <= 4
  {
    var n := c as int;
    if n < 0x80 then [n]
    else if n < 0x800 then [0xC0 + n / 64, 0x80 + n % 64]
    else if n < 0x10000 then [0xE0 + n / 4096, 0x80 + (n / 64) % 64, 0x80 + n % 64]
    else [0xF0 + n / 262144, 0x80 + (n / 4096) % 64, 0x80 + (n / 64) % 64, 0x80 + n % 64]
  }

  function Encode(s: string): seq<Byte> {
    if s == [] then [] else EncodeChar(s[0]) + Encode(s[1..])
  }

  /** The length of the sequence a leading byte announces; 0 for a byte
      that cannot lead one. */
  function SequenceLength(b: Byte): nat {
    if b < 0x80 then 1
    else if 0xC0 <= b < 0xE0 then 2
    else if 0xE0 <= b < 0xF0 then 3
    else if 0xF0 <= b < 0xF8 then 4
    else 0
  }

  predicate Continuation(b: Byte) {
    0x80 <= b < 0xC0
  }

  predicate IsScalar(n: int) {
    0 <= n < 0xD800 || 0xE000 <= n < 0x110000
  }

  /** Decodes one whole sequence, refusing overlong forms, surrogates and
      values past U+10FFFF. */
  function DecodeChar(bs: seq<Byte>): Option<char>
    requires 1 <= |bs| <= 4 && SequenceLength(bs[0]) == |bs|
  {
    if |bs| == 1 then Some(bs[0] as char)
    else if exists i :: 1 <= i < |bs| && !Continuation(bs[i]) then None
    else
      var n :=
        if |bs| == 2 then (bs[0] as int - 0xC0) * 64 + (bs[1] as int - 0x80)
        else if |bs| == 3 then (bs[0] as int - 0xE0) * 4096 + (bs[1] as int - 0x80) * 64 + (bs[2] as int - 0x80)
        else (bs[0] as int - 0xF0) * 262144 + (bs[1] as int - 0x80) * 4096 + (bs[2] as int - 0x80) * 64 + (bs[3] as int - 0x80);
      var least := if |bs| == 2 then 0x80 else if |bs| == 3 then 0x800 else 0x10000;
      if least <= n && IsScalar(n) then Some(n as char) else None
  }

  /** `bytes.decode("utf-8")`, None where Python raises. */
  function Decode(bs: seq<Byte>): Option<string>
    decreases |bs|
  {
    if bs == [] then Some([])
    else
      var k := SequenceLength(bs[0]);
      if k == 0 || k > |bs| then None
      else
        match DecodeChar(bs[..k])
        case None => None
        case Some(c) =>
          match Decode(bs[k..])
          case None => None
          case Some(rest) => Some([c] + rest)
  }

  /** Each character's bytes announce their own length and decode back to it. */
  lemma DecodeEncodeChar(c: char)
    ensures SequenceLength(EncodeChar(c)[0]) == |EncodeChar(c)|
    ensures DecodeChar(EncodeChar(c)) == Some(c)
  {
    var n := c as int;
    if n < 0x80 {
    } else if n < 0x800 {
      DecodeTwo(c);
    } else if n < 0x10000 {
      DecodeThree(c);
    } else {
      DecodeFour(c);
    }
  }

  lemma DecodeTwo(c: char)
    requires 0x80 <= c as int < 0x800
    ensures SequenceLength(EncodeChar(c)[0]) == 2
    ensures DecodeChar(EncodeChar(c)) == Some(c)
  {
    var n := c as int;
    var bs := EncodeChar(c);
    assert bs[0] as int - 0xC0 == n / 64 && bs[1] as int - 0x80 == n % 64;
  }

  /** `(n / 64) / 64 == n / 4096` and the like, for the digits of base 64. */
  lemma Base64Digits(n: nat)
    ensures n == (n / 64) * 64 + n % 64
    ensures n / 64 == (n / 4096) * 64 + (n / 64) % 64
    ensures n / 4096 == (n / 262144) * 64 + (n / 4096) % 64
  {
    var m := n / 64;
    var k := n / 4096;
    assert m / 64 == k;
    assert k / 64 == n / 262144;
  }

  lemma DecodeThree(c: char)
    requires 0x800 <= c as int < 0x10000
    ensures SequenceLength(EncodeChar(c)[0]) == 3
    ensures DecodeChar(EncodeChar(c)) == Some(c)
  {
    var n := c as int;
    var bs := EncodeChar(c);
    Base64Digits(n);
    var d0, d1, d2 := n / 4096, (n / 64) % 64, n % 64;
    assert bs[0] as int - 0xE0 == d0 && bs[1] as int - 0x80 == d1 && bs[2] as int - 0x80 == d2;
    assert d0 * 4096 + d1 * 64 + d2 == n;
  }

  lemma DecodeFour(c: char)
    requires 0x10000 <= c as int
    ensures SequenceLength(EncodeChar(c)[0]) == 4
    ensures DecodeChar(EncodeChar(c)) == Some(c)
  {
    var n := c as int;
    var bs := EncodeChar(c);
    Base64Digits(n);
    var d0, d1, d2, d3 := n / 262144, (n / 4096) % 64, (n / 64) % 64, n % 64;
    assert d0 < 5;
    assert bs[0] as int - 0xF0 == d0 && bs[1] as int - 0x80 == d1;
    assert bs[2] as int - 0x80 == d2 && bs[3] as int - 0x80 == d3;
    assert d0 * 262144 + d1 * 4096 + d2 * 64 + d3 == n;
  }

  /** Decoding undoes encoding. */
  lemma {:induction false} DecodeEncode(s: string)
    ensures Decode(Encode(s)) == Some(s)
  {
    if s != [] {
      var head := EncodeChar(s[0]);
      var bs := Encode(s);
      assert bs == head + Encode(s[1..]);
      DecodeEncodeChar(s[0]);
      assert bs[..|head|] == head;
      assert bs[|head|..] == Encode(s[1..]);
      DecodeEncode(s[1..]);
      assert [s[0]] + s[1..] == s;
    }
  }

  /** Distinct strings have distinct encodings. */
  lemma EncodeInjective(s: string, t: string)
    requires Encode(s) == Encode(t)
    ensures s == t
  {
    DecodeEncode(s);
    DecodeEncode(t);
  }
}
