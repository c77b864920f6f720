/**
 * UTF-16, the representation of JavaScript strings: a scalar value below
 * U+10000 is one code unit, any other is a high surrogate followed by a low
 * surrogate. Decoding fails on a surrogate that is not part of such a pair,
 * which is where `encodeURIComponent` throws a URIError.
 */
module Utf16 {
  import opened Wrappers
  import opened Unicode

  predicate IsHighSurrogate(u: int) { 0xD800 <= u < 0xDC00 }
  predicate IsLowSurrogate(u: int) { 0xDC00 <= u < 0xE000 }

  function EncodeScalar(c: Scalar): (r: seq<CodeUnit>)
    ensures 1 <= |r| <= 2
    ensures |r| == 1 <==> c < 0x1_0000
  {
    if c < 0x1_0000 then [c]
    else [0xD800 + (c - 0x1_0000) / 0x400, 0xDC00 + (c - 0x1_0000) % 0x400]
  }

  /** The code units of a sequence of scalar values. */
  function Encode(cs: seq<Scalar>): (r: JsString)
    ensures |cs| <= |r| <= 2 * |cs|
  {
    if cs == [] then [] else EncodeScalar(cs[0]) + Encode(cs[1..])
  }

  /** The JavaScript string holding the text of a Dafny string. */
  function FromString(s: string): JsString
  {
    Encode(Scalars(s))
  }

  /** The scalar values of a well-formed JavaScript string; None on a lone surrogate. */
  function Decode(us: JsString): (r: Option<seq<Scalar>>)
    ensures r.Some? ==> |r.value| <= |us| <= 2 * |r.value|
    decreases |us|
  {
    if us == [] then Some([])
    else if IsHighSurrogate(us[0]) then
      if |us| >= 2 && IsLowSurrogate(us[1]) then
        match Decode(us[2..])
        case None => None
        case Some(rest) => Some([0x1_0000 + (us[0] - 0xD800) * 0x400 + (us[1] - 0xDC00)] + rest)
      else None
    else if IsLowSurrogate(us[0]) then None
    else
      match Decode(us[1..])
      case None => None
      case Some(rest) => Some([us[0]] + rest)
  }

  lemma {:induction false} EncodeAppend(a: seq<Scalar>, b: seq<Scalar>)
    ensures Encode(a + b) == Encode(a) + Encode(b)
  {
    if a == [] {
      assert a + b == b;
    } else {
      assert (a + b)[1..] == a[1..] + b;
      EncodeAppend(a[1..], b);
    }
  }

  /** The JavaScript `length` of a Dafny string adds up over concatenation. */
  lemma FromStringAppend(a: string, b: string)
    ensures FromString(a + b) == FromString(a) + FromString(b)
  {
    ScalarsAppend(a, b);
    EncodeAppend(Scalars(a), Scalars(b));
  }

  /** A character of the Basic Multilingual Plane is one of the code units of the string. */
  lemma FromStringHas(s: string, i: nat)
    requires i < |s| && s[i] as int < 0x1_0000
    ensures s[i] as int in FromString(s)
  {
    var before, after := s[..i], s[i + 1..];
    assert s == before + ([s[i]] + after);
    FromStringAppend(before, [s[i]] + after);
    FromStringAppend([s[i]], after);
    assert Scalars([s[i]]) == [s[i] as int];
    assert Encode([s[i] as int]) == [s[i] as int] + Encode([]);
  }

  /** Text in the Basic Multilingual Plane is its own UTF-16 form. */
  lemma {:induction false} EncodeBmp(cs: seq<Scalar>)
    requires forall i :: 0 <= i < |cs| ==> cs[i] < 0x1_0000
    ensures Encode(cs) == cs
  {
    if cs != [] {
      EncodeBmp(cs[1..]);
      assert [cs[0]] + cs[1..] == cs;
    }
  }

  /** A scalar value above the Basic Multilingual Plane becomes a high and a low surrogate that combine back to it. */
  lemma PairOf(c: Scalar)
    requires c >= 0x1_0000
    ensures var e := EncodeScalar(c);
      IsHighSurrogate(e[0]) && IsLowSurrogate(e[1]) &&
      0x1_0000 + (e[0] as int - 0xD800) * 0x400 + (e[1] as int - 0xDC00) == c
  {
    var d := c as int - 0x1_0000;
    assert d == (d / 0x400) * 0x400 + d % 0x400;
  }

  /** A high and a low surrogate combine to a scalar value whose encoding is that pair. */
  lemma PairEncodes(hi: CodeUnit, lo: CodeUnit)
    requires IsHighSurrogate(hi) && IsLowSurrogate(lo)
    ensures var c := 0x1_0000 + (hi as int - 0xD800) * 0x400 + (lo as int - 0xDC00);
      0x1_0000 <= c < 0x11_0000 && EncodeScalar(c) == [hi, lo]
  {
    var c := 0x1_0000 + (hi as int - 0xD800) * 0x400 + (lo as int - 0xDC00);
    var d := c - 0x1_0000;
    assert d / 0x400 == hi as int - 0xD800 && d % 0x400 == lo as int - 0xDC00;
  }

  /** Decoding the UTF-16 form of any scalar sequence gives it back. */
  lemma {:induction false} DecodeEncode(cs: seq<Scalar>)
    ensures Decode(Encode(cs)) == Some(cs)
  {
    if cs != [] {
      var c := cs[0];
      var tail := Encode(cs[1..]);
      DecodeEncode(cs[1..]);
      var us := Encode(cs);
      assert us == EncodeScalar(c) + tail;
      assert [c] + cs[1..] == cs;
      if c < 0x1_0000 {
        assert us[0] == c && us[1..] == tail;
      } else {
        PairOf(c);
        var e := EncodeScalar(c);
        assert us[0] == e[0] && us[1] == e[1] && us[2..] == tail;
      }
    }
  }

  /** A successful decode is undone by encoding: the decoded text is the only one with these code units. */
  lemma {:induction false} EncodeDecode(us: JsString, cs: seq<Scalar>)
    requires Decode(us) == Some(cs)
    ensures Encode(cs) == us
    decreases |us|
  {
    if us != [] {
      if IsHighSurrogate(us[0]) {
        DecodePairStep(us);
        var rest := Decode(us[2..]).value;
        EncodeDecode(us[2..], rest);
        PairGlue(us, rest);
      } else {
        DecodeSingleStep(us);
        var rest := Decode(us[1..]).value;
        EncodeDecode(us[1..], rest);
        SingleGlue(us, rest);
      }
    }
  }

  /** A surrogate pair in front of the encoding of `rest` is the encoding of its value and `rest`. */
  lemma PairGlue(us: JsString, rest: seq<Scalar>)
    requires |us| >= 2 && IsHighSurrogate(us[0]) && IsLowSurrogate(us[1]) && Encode(rest) == us[2..]
    ensures 0x1_0000 + (us[0] as int - 0xD800) * 0x400 + (us[1] as int - 0xDC00) < 0x11_0000
    ensures Encode([0x1_0000 + (us[0] as int - 0xD800) * 0x400 + (us[1] as int - 0xDC00)] + rest) == us
  {
    PairEncodes(us[0], us[1]);
    var c: Scalar := 0x1_0000 + (us[0] as int - 0xD800) * 0x400 + (us[1] as int - 0xDC00);
    EncodeCons(c, rest);
    assert us == [us[0], us[1]] + us[2..];
  }

  /** A code unit outside the surrogates in front of the encoding of `rest` is the encoding of its value and `rest`. */
  lemma SingleGlue(us: JsString, rest: seq<Scalar>)
    requires us != [] && !IsHighSurrogate(us[0]) && !IsLowSurrogate(us[0]) && Encode(rest) == us[1..]
    ensures Encode([us[0] as int] + rest) == us
  {
    EncodeCons(us[0], rest);
    assert us == [us[0]] + us[1..];
  }

  /** A successful decode that starts with a high surrogate reads a pair, then decodes the rest. */
  lemma DecodePairStep(us: JsString)
    requires us != [] && IsHighSurrogate(us[0]) && Decode(us).Some?
    ensures |us| >= 2 && IsLowSurrogate(us[1]) && Decode(us[2..]).Some?
    ensures Decode(us).value ==
      [0x1_0000 + (us[0] as int - 0xD800) * 0x400 + (us[1] as int - 0xDC00)] + Decode(us[2..]).value
  {
  }

  /** A successful decode that starts with any other code unit reads it as a scalar value, then decodes the rest. */
  lemma DecodeSingleStep(us: JsString)
    requires us != [] && !IsHighSurrogate(us[0]) && Decode(us).Some?
    ensures !IsLowSurrogate(us[0]) && Decode(us[1..]).Some?
    ensures Decode(us).value == [us[0] as int] + Decode(us[1..]).value
  {
  }

  lemma EncodeCons(c: Scalar, rest: seq<Scalar>)
    ensures Encode([c] + rest) == EncodeScalar(c) + Encode(rest)
  {
    assert ([c] + rest)[1..] == rest;
  }

  /**
   * Decoding fails exactly on the strings that are not the UTF-16 form of any
   * text. Utf8 states the same fact for its own codec; the two are separate
   * theorems, each following from its module's round trips.
   */
  lemma DecodeFailsIffIllFormed(us: JsString)
    ensures Decode(us).None? <==> forall cs :: Encode(cs) != us
  {
    if Decode(us).Some? {
      EncodeDecode(us, Decode(us).value);
    } else {
      forall cs | Encode(cs) == us ensures false {
        DecodeEncode(cs);
      }
    }
  }
}
