/**
 * UTF-8 as defined in section 3 of RFC 3629: a scalar value becomes one to
 * four octets. `unescape(encodeURIComponent(s))` yields exactly these octets
 * (one character per octet), and `decodeURIComponent(escape(b))` decodes them
 * back, throwing a URIError on any octet sequence that is not well-formed.
 */
module Utf8 {
  import opened Wrappers
  import opened Unicode

  predicate IsContinuation(b: Byte) { 0x80 <= b < 0xC0 }

  function EncodeScalar(c: Scalar): (r: seq<Byte>)
    ensures 1 <= |r| <= 4
  {
    if c < 0x80 then [c]
    else if c < 0x800 then [0xC0 + c / 0x40, 0x80 + c % 0x40]
    else if c < 0x1_0000 then [0xE0 + c / 0x1000, 0x80 + (c / 0x40) % 0x40, 0x80 + c % 0x40]
    else [0xF0 + c / 0x4_0000, 0x80 + (c / 0x1000) % 0x40, 0x80 + (c / 0x40) % 0x40, 0x80 + c % 0x40]
  }

  function Encode(cs: seq<Scalar>): (r: seq<Byte>)
    ensures |cs| <= |r| <= 4 * |cs|
  {
    if cs == [] then [] else EncodeScalar(cs[0]) + Encode(cs[1..])
  }

  /**
   * The first scalar value of `bs` and the number of octets that encode it, or
   * None when the octets do not start with a well-formed encoding: a stray
   * continuation octet, a lead octet 0xF8 or above, a missing continuation
   * octet, an overlong form, a surrogate or a value above U+10FFFF.
   */
  function DecodeFirst(bs: seq<Byte>): (r: Option<(Scalar, nat)>)
    requires bs != []
    ensures r.Some? ==> 1 <= r.value.1 <= |bs| && r.value.1 <= 4
  {
    var b0 := bs[0] as int;
    if b0 < 0x80 then Some((b0, 1))
    else if b0 < 0xC0 then None
    else if b0 < 0xE0 then
      if |bs| < 2 || !IsContinuation(bs[1]) then None
      else
        var c := (b0 - 0xC0) * 0x40 + (bs[1] as int - 0x80);
        if c < 0x80 then None else Some((c, 2))
    else if b0 < 0xF0 then
      if |bs| < 3 || !IsContinuation(bs[1]) || !IsContinuation(bs[2]) then None
      else
        var c := (b0 - 0xE0) * 0x1000 + (bs[1] as int - 0x80) * 0x40 + (bs[2] as int - 0x80);
        if c < 0x800 || (0xD800 <= c < 0xE000) then None else Some((c, 3))
    else if b0 < 0xF8 then
      if |bs| < 4 || !IsContinuation(bs[1]) || !IsContinuation(bs[2]) || !IsContinuation(bs[3]) then None
      else
        var c := (b0 - 0xF0) * 0x4_0000 + (bs[1] as int - 0x80) * 0x1000 + (bs[2] as int - 0x80) * 0x40 + (bs[3] as int - 0x80);
        if c < 0x1_0000 || c >= 0x11_0000 then None else Some((c, 4))
    else None
  }

  /** The scalar values of well-formed UTF-8; None on any ill-formed octet sequence. */
  function Decode(bs: seq<Byte>): (r: Option<seq<Scalar>>)
    ensures r.Some? ==> |r.value| <= |bs| <= 4 * |r.value|
    decreases |bs|
  {
    if bs == [] then Some([])
    else
      match DecodeFirst(bs)
      case None => None
      case Some((c, n)) =>
        match Decode(bs[n..])
        case None => None
        case Some(rest) => Some([c] + rest)
  }

  /** ASCII text is its own UTF-8 form. */
  lemma {:induction false} EncodeAscii(cs: seq<Scalar>)
    requires forall i :: 0 <= i < |cs| ==> cs[i] < 0x80
    ensures Encode(cs) == cs
  {
    if cs != [] {
      EncodeAscii(cs[1..]);
      assert [cs[0] as Byte] + cs[1..] == cs;
    }
  }

  /** The octets of one scalar value, followed by anything, decode to that value first. */
  lemma DecodeFirstEncodeScalar(c: Scalar, rest: seq<Byte>)
    ensures DecodeFirst(EncodeScalar(c) + rest) == Some((c, |EncodeScalar(c)|))
  {
    if c < 0x80 {
      assert (EncodeScalar(c) + rest)[0] == c;
    } else if c < 0x800 {
      DecodeFirstTwo(c, rest);
    } else if c < 0x1_0000 {
      DecodeFirstThree(c, rest);
    } else {
      DecodeFirstFour(c, rest);
    }
  }

  lemma DecodeFirstTwo(c: Scalar, rest: seq<Byte>)
    requires 0x80 <= c < 0x800
    ensures DecodeFirst(EncodeScalar(c) + rest) == Some((c, 2))
  {
    var bs := EncodeScalar(c) + rest;
    var d0, d1 := c / 0x40, c % 0x40;
    assert bs[0] == 0xC0 + d0 && bs[1] == 0x80 + d1;
    assert c == d0 * 0x40 + d1;
  }

  lemma DecodeFirstThree(c: Scalar, rest: seq<Byte>)
    requires 0x800 <= c < 0x1_0000
    ensures DecodeFirst(EncodeScalar(c) + rest) == Some((c, 3))
  {
    var bs := EncodeScalar(c) + rest;
    var q := c / 0x40;
    var d0, d1, d2 := q / 0x40, q % 0x40, c % 0x40;
    assert c / 0x1000 == d0;
    assert bs[0] == 0xE0 + d0 && bs[1] == 0x80 + d1 && bs[2] == 0x80 + d2;
    assert c == q * 0x40 + d2 && q == d0 * 0x40 + d1;
    assert c == d0 * 0x1000 + d1 * 0x40 + d2;
  }

  lemma DecodeFirstFour(c: Scalar, rest: seq<Byte>)
    requires 0x1_0000 <= c
    ensures DecodeFirst(EncodeScalar(c) + rest) == Some((c, 4))
  {
    var bs := EncodeScalar(c) + rest;
    var q := c / 0x40;
    var p := q / 0x40;
    var d0, d1, d2, d3 := p / 0x40, p % 0x40, q % 0x40, c % 0x40;
    assert c / 0x1000 == p && c / 0x4_0000 == d0;
    assert bs[0] == 0xF0 + d0 && bs[1] == 0x80 + d1 && bs[2] == 0x80 + d2 && bs[3] == 0x80 + d3;
    assert c == q * 0x40 + d3 && q == p * 0x40 + d2 && p == d0 * 0x40 + d1;
    assert c == d0 * 0x4_0000 + d1 * 0x1000 + d2 * 0x40 + d3;
  }

  /** Base-64 digit arithmetic: a value built from 6-bit digits splits back into them. */
  lemma Digits2(d0: int, d1: int)
    requires 0 <= d1 < 0x40
    ensures (d0 * 0x40 + d1) / 0x40 == d0 && (d0 * 0x40 + d1) % 0x40 == d1
  {
  }

  lemma Digits3(d0: int, d1: int, d2: int)
    requires 0 <= d1 < 0x40 && 0 <= d2 < 0x40
    ensures var x := d0 * 0x1000 + d1 * 0x40 + d2;
      x / 0x40 == d0 * 0x40 + d1 && x % 0x40 == d2 && x / 0x1000 == d0
  {
    Digits2(d0 * 0x40 + d1, d2);
    Digits2(d0, d1);
    var x := d0 * 0x1000 + d1 * 0x40 + d2;
    assert x / 0x40 / 0x40 == x / 0x1000;
  }

  lemma Digits4(d0: int, d1: int, d2: int, d3: int)
    requires 0 <= d1 < 0x40 && 0 <= d2 < 0x40 && 0 <= d3 < 0x40
    ensures var x := d0 * 0x4_0000 + d1 * 0x1000 + d2 * 0x40 + d3;
      x / 0x40 == d0 * 0x1000 + d1 * 0x40 + d2 && x % 0x40 == d3 &&
      x / 0x1000 == d0 * 0x40 + d1 && x / 0x4_0000 == d0
  {
    var x := d0 * 0x4_0000 + d1 * 0x1000 + d2 * 0x40 + d3;
    Digits2(d0 * 0x1000 + d1 * 0x40 + d2, d3);
    Digits3(d0, d1, d2);
    assert x / 0x40 / 0x40 == x / 0x1000;
    assert x / 0x40 / 0x1000 == x / 0x4_0000;
  }

  lemma EncodeTwo(b0: Byte, b1: Byte)
    requires 0xC0 <= b0 < 0xE0 && IsContinuation(b1)
    requires var c := (b0 - 0xC0) * 0x40 + (b1 - 0x80); 0x80 <= c
    ensures EncodeScalar((b0 - 0xC0) * 0x40 + (b1 - 0x80)) == [b0, b1]
  {
    Digits2(b0 - 0xC0, b1 - 0x80);
  }

  lemma EncodeThree(b0: Byte, b1: Byte, b2: Byte)
    requires 0xE0 <= b0 < 0xF0 && IsContinuation(b1) && IsContinuation(b2)
    requires var c := (b0 - 0xE0) * 0x1000 + (b1 - 0x80) * 0x40 + (b2 - 0x80);
      0x800 <= c && !(0xD800 <= c < 0xE000)
    ensures EncodeScalar((b0 - 0xE0) * 0x1000 + (b1 - 0x80) * 0x40 + (b2 - 0x80)) == [b0, b1, b2]
  {
    var d0, d1, d2 := b0 as int - 0xE0, b1 as int - 0x80, b2 as int - 0x80;
    var c := d0 * 0x1000 + d1 * 0x40 + d2;
    Digits3(d0, d1, d2);
    Digits2(d0, d1);
    assert c / 0x1000 == d0 && (c / 0x40) % 0x40 == d1 && c % 0x40 == d2;
  }

  lemma EncodeFour(b0: Byte, b1: Byte, b2: Byte, b3: Byte)
    requires 0xF0 <= b0 < 0xF8 && IsContinuation(b1) && IsContinuation(b2) && IsContinuation(b3)
    requires var c := (b0 - 0xF0) * 0x4_0000 + (b1 - 0x80) * 0x1000 + (b2 - 0x80) * 0x40 + (b3 - 0x80);
      0x1_0000 <= c < 0x11_0000
    ensures EncodeScalar((b0 - 0xF0) * 0x4_0000 + (b1 - 0x80) * 0x1000 + (b2 - 0x80) * 0x40 + (b3 - 0x80))
      == [b0, b1, b2, b3]
  {
    var d0, d1, d2, d3 := b0 as int - 0xF0, b1 as int - 0x80, b2 as int - 0x80, b3 as int - 0x80;
    var c := d0 * 0x4_0000 + d1 * 0x1000 + d2 * 0x40 + d3;
    Digits4(d0, d1, d2, d3);
    Digits3(d0, d1, d2);
    Digits2(d0, d1);
    assert c / 0x4_0000 == d0 && (c / 0x1000) % 0x40 == d1 && (c / 0x40) % 0x40 == d2 && c % 0x40 == d3;
  }

  /** A successful first-step decode reads back exactly the encoding of the value found. */
  lemma EncodeScalarDecodeFirst(bs: seq<Byte>)
    requires bs != [] && DecodeFirst(bs).Some?
    ensures var (c, n) := DecodeFirst(bs).value; bs[..n] == EncodeScalar(c)
  {
    if bs[0] < 0x80 {
      assert bs[..1] == [bs[0]];
    } else if bs[0] < 0xE0 {
      EncodeTwo(bs[0], bs[1]);
      assert bs[..2] == [bs[0], bs[1]];
    } else if bs[0] < 0xF0 {
      EncodeThree(bs[0], bs[1], bs[2]);
      assert bs[..3] == [bs[0], bs[1], bs[2]];
    } else {
      EncodeFour(bs[0], bs[1], bs[2], bs[3]);
      assert bs[..4] == [bs[0], bs[1], bs[2], bs[3]];
    }
  }

  /** Decoding the UTF-8 form of any scalar sequence gives it back. */
  lemma {:induction false} DecodeEncode(cs: seq<Scalar>)
    ensures Decode(Encode(cs)) == Some(cs)
  {
    if cs != [] {
      var e := EncodeScalar(cs[0]);
      var tail := Encode(cs[1..]);
      DecodeFirstEncodeScalar(cs[0], tail);
      assert (e + tail)[|e|..] == tail;
      DecodeEncode(cs[1..]);
      assert [cs[0]] + cs[1..] == cs;
    }
  }

  /** One step of a successful decode: the first value, then the decode of what follows it. */
  lemma DecodeStep(bs: seq<Byte>)
    requires bs != [] && Decode(bs).Some?
    ensures DecodeFirst(bs).Some?
    ensures var n := DecodeFirst(bs).value.1;
      Decode(bs[n..]).Some? && Decode(bs).value == [DecodeFirst(bs).value.0] + Decode(bs[n..]).value
  {
  }

  /** A successful decode is undone by encoding: well-formed UTF-8 has exactly one reading. */
  lemma {:induction false} EncodeDecode(bs: seq<Byte>, cs: seq<Scalar>)
    requires Decode(bs) == Some(cs)
    ensures Encode(cs) == bs
    decreases |bs|
  {
    if bs != [] {
      DecodeStep(bs);
      var c := DecodeFirst(bs).value.0;
      var n := DecodeFirst(bs).value.1;
      var rest := Decode(bs[n..]).value;
      SplitFirst(bs);
      EncodeDecode(bs[n..], rest);
      EncodeCons(c, rest);
      assert cs == [c] + rest;
    }
  }

  /** A well-formed first encoding splits the octets into that encoding and the rest. */
  lemma SplitFirst(bs: seq<Byte>)
    requires bs != [] && DecodeFirst(bs).Some?
    ensures bs == EncodeScalar(DecodeFirst(bs).value.0) + bs[DecodeFirst(bs).value.1..]
  {
    EncodeScalarDecodeFirst(bs);
    var n := DecodeFirst(bs).value.1;
    assert bs == bs[..n] + bs[n..];
  }

  lemma EncodeCons(c: Scalar, rest: seq<Scalar>)
    ensures Encode([c] + rest) == EncodeScalar(c) + Encode(rest)
  {
    assert ([c] + rest)[1..] == rest;
  }

  /**
   * Decoding fails exactly on the octet sequences that are not the UTF-8 form
   * of any text. The statement has the same shape as its UTF-16 counterpart,
   * but it is about a different codec and rests on this module's own round
   * trips, so each module states and proves it for its own decoder.
   */
  lemma DecodeFailsIffIllFormed(bs: seq<Byte>)
    ensures Decode(bs).None? <==> forall cs :: Encode(cs) != bs
  {
    if Decode(bs).Some? {
      EncodeDecode(bs, Decode(bs).value);
    } else {
      forall cs | Encode(cs) == bs ensures false {
        DecodeEncode(cs);
      }
    }
  }
}
