/** UTF-8 as Rust's `String::from_utf8` and `String::into_bytes` use it
    (RFC 3629; the well-formed byte sequences of table 3-7 of the Unicode
    standard, chapter 3). Dafny's `char` is a Unicode scalar value, as Rust's is. */
module Utf8 {
  import opened Wrappers

  newtype byte = b: int | 0 <= b < 0x100

  /** The encoding of one scalar value: one to four bytes. */
  function EncodeChar(c: char): (bs: seq<byte>)
    ensures 1 <= |bs| <= 4
  {
    var n := c as int;
    if n < 0x80 then
      [n as byte]
    else if n < 0x800 then
      [(0xC0 + n / 0x40) as byte, (0x80 + n % 0x40) as byte]
    else if n < 0x1_0000 then
      [(0xE0 + n / 0x1000) as byte, (0x80 + n / 0x40 % 0x40) as byte, (0x80 + n % 0x40) as byte]
    else
      [(0xF0 + n / 0x4_0000) as byte, (0x80 + n / 0x1000 % 0x40) as byte,
       (0x80 + n / 0x40 % 0x40) as byte, (0x80 + n % 0x40) as byte]
  }

  /** `String::into_bytes`: the UTF-8 encoding of a string. */
  function Encode(s: string): (bs: seq<byte>)
    ensures |s| <= |bs| <= 4 * |s|
  {
    if s == [] then [] else EncodeChar(s[0]) + Encode(s[1..])
  }

  predicate InRange(b: byte, lo: int, hi: int) {
    lo <= b as int <= hi
  }

  /** The scalar value encoded by the well-formed sequence at the start of
      `bs`, with the number of bytes it takes; None when `bs` does not start
      with a well-formed sequence (a stray continuation byte, an overlong
      form, a surrogate, a value above U+10FFFF or a truncated sequence). */
  function DecodeFirst(bs: seq<byte>): (r: Option<(char, nat)>)
    ensures r.Some? ==> 1 <= r.value.1 <= |bs| && r.value.1 <= 4
  {
    if |bs| == 0 then None
    else
      var b0 := bs[0] as int;
      if b0 < 0x80 then
        Some((b0 as char, 1))
      else if b0 < 0xC2 then
        None
      else if b0 < 0xE0 then
        if |bs| >= 2 && InRange(bs[1], 0x80, 0xBF) then
          Some((((b0 - 0xC0) * 0x40 + (bs[1] as int - 0x80)) as char, 2))
        else None
      else if b0 < 0xF0 then
        var lo := if b0 == 0xE0 then 0xA0 else 0x80;
        var hi := if b0 == 0xED then 0x9F else 0xBF;
        if |bs| >= 3 && InRange(bs[1], lo, hi) && InRange(bs[2], 0x80, 0xBF) then
          Some((((b0 - 0xE0) * 0x1000 + (bs[1] as int - 0x80) * 0x40 + (bs[2] as int - 0x80)) as char, 3))
        else None
      else if b0 < 0xF5 then
        var lo := if b0 == 0xF0 then 0x90 else 0x80;
        var hi := if b0 == 0xF4 then 0x8F else 0xBF;
        if |bs| >= 4 && InRange(bs[1], lo, hi) && InRange(bs[2], 0x80, 0xBF) && InRange(bs[3], 0x80, 0xBF) then
          Some((((b0 - 0xF0) * 0x4_0000 + (bs[1] as int - 0x80) * 0x1000
                 + (bs[2] as int - 0x80) * 0x40 + (bs[3] as int - 0x80)) as char, 4))
        else None
      else None
  }

  /** `String::from_utf8`: the string `bs` encodes, or None when `bs` is not
      well-formed UTF-8. */
  function Decode(bs: seq<byte>): Option<string>
    decreases |bs|
  {
    if bs == [] then Some([])
    else
      match DecodeFirst(bs)
      case None => None
      case Some((c, k)) =>
        match Decode(bs[k..])
        case None => None
        case Some(rest) => Some([c] + rest)
  }

  /** The decoder reads back, from the front of any byte string, the
      character whose encoding stands there. */
  lemma DecodeFirstEncodeChar(c: char, rest: seq<byte>)
    ensures DecodeFirst(EncodeChar(c) + rest) == Some((c, |EncodeChar(c)|))
  {
    var n := c as int;
    if n < 0x80 {
    } else if n < 0x800 {
      DecodeFirstTwo(c, rest);
    } else if n < 0x1_0000 {
      DecodeFirstThree(c, rest);
    } else {
      DecodeFirstFour(c, rest);
    }
  }

  lemma DecodeFirstTwo(c: char, rest: seq<byte>)
    requires 0x80 <= c as int < 0x800
    ensures DecodeFirst(EncodeChar(c) + rest) == Some((c, 2))
  {
    var n := c as int;
    var bs := EncodeChar(c) + rest;
    var q, r := n / 0x40, n % 0x40;
    assert n == q * 0x40 + r && 2 <= q < 0x20 && 0 <= r < 0x40;
    assert bs[0] as int == 0xC0 + q && bs[1] as int == 0x80 + r;
  }

  lemma DecodeFirstThree(c: char, rest: seq<byte>)
    requires 0x800 <= c as int < 0x1_0000
    ensures DecodeFirst(EncodeChar(c) + rest) == Some((c, 3))
  {
    var n := c as int;
    var bs := EncodeChar(c) + rest;
    var q0, q1, r := n / 0x1000, n / 0x40 % 0x40, n % 0x40;
    assert n == q0 * 0x1000 + q1 * 0x40 + r;
    assert bs[0] as int == 0xE0 + q0 && bs[1] as int == 0x80 + q1 && bs[2] as int == 0x80 + r;
  }

  lemma DecodeFirstFour(c: char, rest: seq<byte>)
    requires 0x1_0000 <= c as int
    ensures DecodeFirst(EncodeChar(c) + rest) == Some((c, 4))
  {
    var n := c as int;
    var bs := EncodeChar(c) + rest;
    var n1, r := n / 0x40, n % 0x40;
    var n2, q2 := n1 / 0x40, n1 % 0x40;
    var q0, q1 := n2 / 0x40, n2 % 0x40;
    assert n == n1 * 0x40 + r && n1 == n2 * 0x40 + q2 && n2 == q0 * 0x40 + q1;
    assert n2 == n / 0x1000 && q0 == n / 0x4_0000;
    assert q0 <= 4 && (q0 == 0 ==> q1 >= 0x10) && (q0 == 4 ==> q1 <= 0xF);
    assert bs[0] as int == 0xF0 + q0 && bs[1] as int == 0x80 + q1;
    assert bs[2] as int == 0x80 + q2 && bs[3] as int == 0x80 + r;
  }

  /** The arithmetic behind the two-byte case: the scalar value the decoder
      builds from a lead and a continuation byte splits back into them. */
  lemma SplitTwo(b0: int, b1: int)
    requires 0xC2 <= b0 <= 0xDF && 0x80 <= b1 <= 0xBF
    ensures var n := (b0 - 0xC0) * 0x40 + (b1 - 0x80);
            0x80 <= n < 0x800 && 0xC0 + n / 0x40 == b0 && 0x80 + n % 0x40 == b1
  {
  }

  lemma SplitThree(b0: int, b1: int, b2: int)
    requires 0xE0 <= b0 <= 0xEF && 0x80 <= b1 <= 0xBF && 0x80 <= b2 <= 0xBF
    requires b0 == 0xE0 ==> 0xA0 <= b1
    ensures var n := (b0 - 0xE0) * 0x1000 + (b1 - 0x80) * 0x40 + (b2 - 0x80);
            && 0x800 <= n < 0x1_0000
            && 0xE0 + n / 0x1000 == b0 && 0x80 + n / 0x40 % 0x40 == b1 && 0x80 + n % 0x40 == b2
  {
    var n := (b0 - 0xE0) * 0x1000 + (b1 - 0x80) * 0x40 + (b2 - 0x80);
    assert n / 0x40 == (b0 - 0xE0) * 0x40 + (b1 - 0x80);
  }

  lemma SplitFour(b0: int, b1: int, b2: int, b3: int)
    requires 0xF0 <= b0 <= 0xF4 && 0x80 <= b1 <= 0xBF && 0x80 <= b2 <= 0xBF && 0x80 <= b3 <= 0xBF
    requires b0 == 0xF0 ==> 0x90 <= b1
    ensures var n := (b0 - 0xF0) * 0x4_0000 + (b1 - 0x80) * 0x1000 + (b2 - 0x80) * 0x40 + (b3 - 0x80);
            && 0x1_0000 <= n
            && 0xF0 + n / 0x4_0000 == b0 && 0x80 + n / 0x1000 % 0x40 == b1
            && 0x80 + n / 0x40 % 0x40 == b2 && 0x80 + n % 0x40 == b3
  {
    var n := (b0 - 0xF0) * 0x4_0000 + (b1 - 0x80) * 0x1000 + (b2 - 0x80) * 0x40 + (b3 - 0x80);
    assert n / 0x40 == (b0 - 0xF0) * 0x1000 + (b1 - 0x80) * 0x40 + (b2 - 0x80);
    assert n / 0x1000 == (b0 - 0xF0) * 0x40 + (b1 - 0x80);
  }

  /** Whatever well-formed sequence the decoder accepts is exactly the
      encoding of the character it returns: there is one way to write each
      character. */
  lemma EncodeCharDecodeFirst(bs: seq<byte>)
    requires DecodeFirst(bs).Some?
    ensures bs[..DecodeFirst(bs).value.1] == EncodeChar(DecodeFirst(bs).value.0)
  {
    var k := DecodeFirst(bs).value.1;
    if k == 1 {
      assert bs[..1] == [bs[0]];
    } else if k == 2 {
      EncodedTwo(bs);
    } else if k == 3 {
      EncodedThree(bs);
    } else {
      EncodedFour(bs);
    }
  }

  lemma EncodedTwo(bs: seq<byte>)
    requires DecodeFirst(bs).Some? && DecodeFirst(bs).value.1 == 2
    ensures bs[..2] == EncodeChar(DecodeFirst(bs).value.0)
  {
    var c := DecodeFirst(bs).value.0;
    var b0, b1 := bs[0] as int, bs[1] as int;
    assert c as int == (b0 - 0xC0) * 0x40 + (b1 - 0x80);
    SplitTwo(b0, b1);
    assert EncodeChar(c) == [bs[0], bs[1]];
    assert bs[..2] == [bs[0], bs[1]];
  }

  lemma EncodedThree(bs: seq<byte>)
    requires DecodeFirst(bs).Some? && DecodeFirst(bs).value.1 == 3
    ensures bs[..3] == EncodeChar(DecodeFirst(bs).value.0)
  {
    var c := DecodeFirst(bs).value.0;
    var b0, b1, b2 := bs[0] as int, bs[1] as int, bs[2] as int;
    assert c as int == (b0 - 0xE0) * 0x1000 + (b1 - 0x80) * 0x40 + (b2 - 0x80);
    SplitThree(b0, b1, b2);
    assert EncodeChar(c) == [bs[0], bs[1], bs[2]];
    assert bs[..3] == [bs[0], bs[1], bs[2]];
  }

  lemma EncodedFour(bs: seq<byte>)
    requires DecodeFirst(bs).Some? && DecodeFirst(bs).value.1 == 4
    ensures bs[..4] == EncodeChar(DecodeFirst(bs).value.0)
  {
    var c := DecodeFirst(bs).value.0;
    var b0, b1, b2, b3 := bs[0] as int, bs[1] as int, bs[2] as int, bs[3] as int;
    assert c as int == (b0 - 0xF0) * 0x4_0000 + (b1 - 0x80) * 0x1000 + (b2 - 0x80) * 0x40 + (b3 - 0x80);
    SplitFour(b0, b1, b2, b3);
    assert EncodeChar(c) == [bs[0], bs[1], bs[2], bs[3]];
    assert bs[..4] == [bs[0], bs[1], bs[2], bs[3]];
  }

  /** Decoding the encoding of a string gives the string back. */
  lemma {:induction false} DecodeEncode(s: string)
    ensures Decode(Encode(s)) == Some(s)
  {
    if s != [] {
      var e := EncodeChar(s[0]);
      DecodeFirstEncodeChar(s[0], Encode(s[1..]));
      assert (e + Encode(s[1..]))[|e|..] == Encode(s[1..]);
      DecodeEncode(s[1..]);
      assert [s[0]] + s[1..] == s;
    }
  }

  /** A byte string that decodes is the encoding of what it decodes to. */
  lemma {:induction false} EncodeDecode(bs: seq<byte>)
    requires Decode(bs).Some?
    ensures Encode(Decode(bs).value) == bs
  {
    if bs != [] {
      var (c, k) := DecodeFirst(bs).value;
      var rest := bs[k..];
      var tail := Decode(rest).value;
      assert Decode(bs).value == [c] + tail;
      EncodeCharDecodeFirst(bs);
      EncodeDecode(rest);
      assert ([c] + tail)[0] == c && ([c] + tail)[1..] == tail;
      assert Encode([c] + tail) == EncodeChar(c) + Encode(tail);
      SplitAt(bs, k);
    }
  }

  lemma SplitAt(bs: seq<byte>, k: nat)
    requires k <= |bs|
    ensures bs[..k] + bs[k..] == bs
  {
  }

  /** `String::from_utf8(bs)` succeeds with `s` exactly when `bs` is the
      UTF-8 encoding of `s`. */
  lemma DecodeIsInverseOfEncode(bs: seq<byte>, s: string)
    ensures Decode(bs) == Some(s) <==> bs == Encode(s)
  {
    if Decode(bs) == Some(s) {
      EncodeDecode(bs);
    }
    if bs == Encode(s) {
      DecodeEncode(s);
    }
  }
}
