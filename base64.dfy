/**
 * Base64 over octets. `btoa` produces the encoding of section 4 of RFC 4648
 * (the 64-character alphabet, output padded with `=` to a multiple of four);
 * `atob` runs the "forgiving-base64 decode" of the WHATWG Infra standard,
 * which drops ASCII white space, accepts the padding or its absence, and
 * ignores the unused low bits of the last character.
 */
module Base64 {
  import opened Wrappers
  import opened Unicode

  type Sextet = x: int | 0 <= x < 64

  const Pad: CodeUnit := '=' as int

  /** The character of the 64-character alphabet (RFC 4648, Table 1) for a 6-bit value. */
  function Alphabet(v: Sextet): (u: CodeUnit)
    ensures u != Pad
  {
    if v < 26 then 'A' as int + v
    else if v < 52 then 'a' as int + (v - 26)
    else if v < 62 then '0' as int + (v - 52)
    else if v == 62 then '+' as int
    else '/' as int
  }

  /** The 6-bit value of an alphabet character; None for every other code unit. */
  function ValueOf(u: CodeUnit): (r: Option<Sextet>)
    ensures r.Some? ==> Alphabet(r.value) == u
  {
    if 'A' as int <= u <= 'Z' as int then Some(u - 'A' as int)
    else if 'a' as int <= u <= 'z' as int then Some(u - 'a' as int + 26)
    else if '0' as int <= u <= '9' as int then Some(u - '0' as int + 52)
    else if u == '+' as int then Some(62)
    else if u == '/' as int then Some(63)
    else None
  }

  predicate IsAlphabetChar(u: CodeUnit) { ValueOf(u).Some? }

  lemma ValueOfAlphabet(v: Sextet)
    ensures ValueOf(Alphabet(v)) == Some(v)
  {
  }

  /**
   * The 6-bit groups of the octets, most significant first: four for each
   * full three-octet group, two for a final single octet and three for a
   * final pair, the missing low bits being zero (RFC 4648, section 4).
   */
  function ToSextets(bs: seq<Byte>): (r: seq<Sextet>)
    ensures |r| == SextetCount(|bs|)
    decreases |bs|
  {
    if |bs| == 0 then []
    else if |bs| == 1 then [bs[0] / 4, (bs[0] % 4) * 16]
    else if |bs| == 2 then [bs[0] / 4, (bs[0] % 4) * 16 + bs[1] / 16, (bs[1] % 16) * 4]
    else EncodeGroup(bs[0], bs[1], bs[2]) + ToSextets(bs[3..])
  }

  /** The four sextets of a full group of three octets. */
  function EncodeGroup(b0: Byte, b1: Byte, b2: Byte): (r: seq<Sextet>)
    ensures |r| == 4
  {
    [b0 / 4, (b0 % 4) * 16 + b1 / 16, (b1 % 16) * 4 + b2 / 64, b2 % 64]
  }

  /** The number of characters before the padding: 4, 2 or 3 per group of 3, 1 or 2 octets. */
  function SextetCount(n: nat): (k: nat)
    ensures k % 4 != 1
  {
    if n == 0 then 0 else if n == 1 then 2 else if n == 2 then 3 else 4 + SextetCount(n - 3)
  }

  lemma {:induction false} SextetCountPadded(n: nat)
    ensures SextetCount(n) + |Padding(n)| == 4 * ((n + 2) / 3)
  {
    if n >= 3 {
      SextetCountPadded(n - 3);
      ShiftByThree(n - 3);
      ShiftByThree(n - 1);
      assert Padding(n) == Padding(n - 3);
    }
  }

  /** The padded encoding fills whole groups of four characters. */
  lemma {:induction false} PaddedToGroups(n: nat)
    ensures (SextetCount(n) + |Padding(n)|) % 4 == 0
  {
    if n >= 3 {
      PaddedToGroups(n - 3);
      ShiftByThree(n - 3);
      assert Padding(n) == Padding(n - 3);
      ShiftByGroup(SextetCount(n - 3) + |Padding(n - 3)|);
    }
  }

  lemma ShiftByThree(m: nat)
    ensures (m + 3) / 3 == m / 3 + 1 && (m + 3) % 3 == m % 3
  {
  }

  function Chars(vs: seq<Sextet>): (r: seq<CodeUnit>)
    ensures |r| == |vs|
    ensures forall i :: 0 <= i < |vs| ==> r[i] == Alphabet(vs[i])
  {
    seq(|vs|, i requires 0 <= i < |vs| => Alphabet(vs[i]))
  }

  /** The padding that brings the encoding of `n` octets to a multiple of four characters. */
  function Padding(n: nat): seq<CodeUnit>
  {
    if n % 3 == 1 then [Pad, Pad] else if n % 3 == 2 then [Pad] else []
  }

  /** `btoa` of a binary string: the padded Base64 encoding of its octets. */
  function Encode(bs: seq<Byte>): (r: seq<CodeUnit>)
    ensures |r| % 4 == 0
    ensures r == [] <==> bs == []
  {
    PaddedToGroups(|bs|);
    Chars(ToSextets(bs)) + Padding(|bs|)
  }

  predicate IsAsciiWhiteSpace(u: CodeUnit)
  {
    u == 0x09 || u == 0x0A || u == 0x0C || u == 0x0D || u == 0x20
  }

  function RemoveAsciiWhiteSpace(s: seq<CodeUnit>): (r: seq<CodeUnit>)
    ensures |r| <= |s|
    ensures forall i :: 0 <= i < |r| ==> !IsAsciiWhiteSpace(r[i])
  {
    if s == [] then []
    else if IsAsciiWhiteSpace(s[0]) then RemoveAsciiWhiteSpace(s[1..])
    else [s[0]] + RemoveAsciiWhiteSpace(s[1..])
  }

  /** Step 2 of the forgiving decode: drop one or two final `=` when the length is a multiple of four. */
  function StripPadding(s: seq<CodeUnit>): (r: seq<CodeUnit>)
    ensures |s| - 2 <= |r| <= |s| && r == s[..|r|]
    ensures forall i :: |r| <= i < |s| ==> s[i] == Pad
  {
    if |s| % 4 != 0 then s
    else if |s| >= 2 && s[|s| - 1] == Pad && s[|s| - 2] == Pad then s[..|s| - 2]
    else if |s| >= 1 && s[|s| - 1] == Pad then s[..|s| - 1]
    else s
  }

  /** The 6-bit values of the characters, or None if one is not in the alphabet. */
  function Values(s: seq<CodeUnit>): (r: Option<seq<Sextet>>)
    ensures r.Some? ==> |r.value| == |s|
  {
    if s == [] then Some([])
    else
      match ValueOf(s[0])
      case None => None
      case Some(v) =>
        match Values(s[1..])
        case None => None
        case Some(rest) => Some([v] + rest)
  }

  /** Step 5 of the forgiving decode: 24-bit groups become three octets; a final 12 or 18 bits give one or two. */
  function FromSextets(vs: seq<Sextet>): (r: seq<Byte>)
    requires |vs| % 4 != 1
    ensures 4 * |r| <= 3 * |vs|
    decreases |vs|
  {
    if |vs| == 0 then []
    else
      var v0, v1 := vs[0] as int, vs[1] as int;
      if |vs| == 2 then [v0 * 4 + v1 / 16]
      else
        var v2 := vs[2] as int;
        if |vs| == 3 then [v0 * 4 + v1 / 16, (v1 % 16) * 16 + v2 / 4]
        else DecodeGroup(vs[0], vs[1], vs[2], vs[3]) + FromSextets(vs[4..])
  }

  /** The three octets of a full group of four sextets. */
  function DecodeGroup(v0: Sextet, v1: Sextet, v2: Sextet, v3: Sextet): (r: seq<Byte>)
    ensures |r| == 3
  {
    [v0 * 4 + v1 / 16, (v1 % 16) * 16 + v2 / 4, (v2 % 4) * 64 + v3]
  }

  /** `atob`: the forgiving-base64 decode; None where it returns failure. */
  function Decode(data: seq<CodeUnit>): (r: Option<seq<Byte>>)
    ensures r.Some? ==> 4 * |r.value| <= 3 * |data|
    ensures RemoveAsciiWhiteSpace(data) == [] ==> r == Some([])
  {
    var s := StripPadding(RemoveAsciiWhiteSpace(data));
    if |s| % 4 == 1 then None
    else
      match Values(s)
      case None => None
      case Some(vs) => Some(FromSextets(vs))
  }

  /** Every character of an encoding is in the alphabet or is padding, and its length is 4 * ceil(n / 3). */
  lemma EncodeShape(bs: seq<Byte>)
    ensures |Encode(bs)| == 4 * ((|bs| + 2) / 3)
    ensures forall i :: 0 <= i < |Encode(bs)| ==> IsAlphabetChar(Encode(bs)[i]) || Encode(bs)[i] == Pad
  {
    SextetCountPadded(|bs|);
    var e := Encode(bs);
    var vs := ToSextets(bs);
    forall i | 0 <= i < |e| ensures IsAlphabetChar(e[i]) || e[i] == Pad {
      if i < |vs| {
        ValueOfAlphabet(vs[i]);
      }
    }
  }

  /** Decoding the sextets of a group sequence gives back its octets. */
  lemma {:induction false} FromToSextets(bs: seq<Byte>)
    ensures |ToSextets(bs)| % 4 != 1
    ensures FromSextets(ToSextets(bs)) == bs
    decreases |bs|
  {
    if |bs| >= 3 {
      var head, tail := [bs[0], bs[1], bs[2]], bs[3..];
      assert bs == head + tail;
      ToSextetsSplit(head, tail);
      FromToThree(bs[0], bs[1], bs[2]);
      FromToSextets(tail);
      FromSextetsSplit(ToSextets(head), ToSextets(tail));
    } else if |bs| == 2 {
      FromToTwo(bs[0], bs[1]);
      assert bs == [bs[0], bs[1]];
    } else if |bs| == 1 {
      FromToOne(bs[0]);
      assert bs == [bs[0]];
    }
  }

  lemma ToSextetsUnfold(bs: seq<Byte>)
    requires |bs| >= 3
    ensures ToSextets(bs) == EncodeGroup(bs[0], bs[1], bs[2]) + ToSextets(bs[3..])
  {
    assert |bs| != 0 && |bs| != 1 && |bs| != 2;
  }

  /** A full group of three octets is encoded on its own, ahead of the rest. */
  lemma ToSextetsSplit(head: seq<Byte>, tail: seq<Byte>)
    requires |head| == 3
    ensures ToSextets(head + tail) == ToSextets(head) + ToSextets(tail)
  {
    var bs := head + tail;
    assert bs[3..] == tail;
    assert head[3..] == [];
    assert bs[0] == head[0] && bs[1] == head[1] && bs[2] == head[2];
    ToSextetsUnfold(bs);
    ToSextetsUnfold(head);
  }

  lemma FromSextetsUnfold(vs: seq<Sextet>)
    requires |vs| >= 4 && |vs| % 4 != 1
    ensures FromSextets(vs) == DecodeGroup(vs[0], vs[1], vs[2], vs[3]) + FromSextets(vs[4..])
  {
  }

  /** A full group of four sextets is decoded on its own, ahead of the rest. */
  lemma FromSextetsSplit(group: seq<Sextet>, rest: seq<Sextet>)
    requires |group| == 4 && |rest| % 4 != 1
    ensures FromSextets(group + rest) == FromSextets(group) + FromSextets(rest)
  {
    var vs := group + rest;
    ShiftByGroup(|rest|);
    assert vs[4..] == rest;
    assert group[4..] == [];
    assert vs[0] == group[0] && vs[1] == group[1] && vs[2] == group[2] && vs[3] == group[3];
    FromSextetsUnfold(vs);
    FromSextetsUnfold(group);
  }

  lemma ShiftByGroup(n: nat)
    ensures (n + 4) % 4 == n % 4
  {
  }

  /** Decoding a full group undoes its encoding. */
  lemma DecodeEncodeGroup(b0: Byte, b1: Byte, b2: Byte)
    ensures var g := EncodeGroup(b0, b1, b2); DecodeGroup(g[0], g[1], g[2], g[3]) == [b0, b1, b2]
  {
    var g := EncodeGroup(b0, b1, b2);
    RejoinFirst(b0, b1);
    RejoinSecond(b1, b2);
    RejoinThird(b1, b2);
    assert g[0] as int * 4 + g[1] as int / 16 == b0;
    assert (g[1] as int % 16) * 16 + g[2] as int / 4 == b1;
    assert (g[2] as int % 4) * 64 + g[3] as int == b2;
  }

  /** The first octet is its six high bits and the two bits that start the second sextet. */
  lemma RejoinFirst(b0: Byte, b1: Byte)
    ensures (b0 / 4) * 4 + ((b0 % 4) * 16 + b1 / 16) / 16 == b0
  {
    assert ((b0 % 4) * 16 + b1 / 16) / 16 == b0 % 4;
  }

  lemma RejoinSecond(b1: Byte, b2: Byte)
    ensures ((b1 % 16) * 4 + b2 / 64) / 4 == b1 % 16
  {
  }

  lemma RejoinThird(b1: Byte, b2: Byte)
    ensures ((b1 % 16) * 4 + b2 / 64) % 4 == b2 / 64
  {
  }

  lemma FromToThree(b0: Byte, b1: Byte, b2: Byte)
    ensures FromSextets(ToSextets([b0, b1, b2])) == [b0, b1, b2]
  {
    var bs := [b0, b1, b2];
    ToSextetsUnfold(bs);
    assert bs[3..] == [];
    var vs := ToSextets(bs);
    assert vs == EncodeGroup(b0, b1, b2);
    FromSextetsUnfold(vs);
    assert vs[4..] == [];
    DecodeEncodeGroup(b0, b1, b2);
  }

  lemma FromToTwo(b0: Byte, b1: Byte)
    ensures FromSextets(ToSextets([b0, b1])) == [b0, b1]
  {
    assert (b0 / 4) * 4 + ((b0 % 4) * 16 + b1 / 16) / 16 == b0;
    assert (((b0 % 4) * 16 + b1 / 16) % 16) * 16 + ((b1 % 16) * 4) / 4 == b1;
  }

  lemma FromToOne(b0: Byte)
    ensures FromSextets(ToSextets([b0])) == [b0]
  {
    assert (b0 / 4) * 4 + ((b0 % 4) * 16) / 16 == b0;
  }

  lemma {:induction false} ValuesChars(vs: seq<Sextet>)
    ensures Values(Chars(vs)) == Some(vs)
  {
    if vs != [] {
      ValueOfAlphabet(vs[0]);
      assert Chars(vs)[1..] == Chars(vs[1..]);
      ValuesChars(vs[1..]);
      assert [vs[0]] + vs[1..] == vs;
    }
  }

  lemma {:induction false} RemoveAsciiWhiteSpaceNone(s: seq<CodeUnit>)
    requires forall i :: 0 <= i < |s| ==> !IsAsciiWhiteSpace(s[i])
    ensures RemoveAsciiWhiteSpace(s) == s
  {
    if s != [] {
      RemoveAsciiWhiteSpaceNone(s[1..]);
      assert [s[0]] + s[1..] == s;
    }
  }

  lemma {:induction false} RemoveAsciiWhiteSpaceKeeps(s: seq<CodeUnit>, x: CodeUnit)
    requires x in s && !IsAsciiWhiteSpace(x)
    ensures x in RemoveAsciiWhiteSpace(s)
  {
    if s[0] != x {
      RemoveAsciiWhiteSpaceKeeps(s[1..], x);
    }
  }

  lemma {:induction false} ValuesRejects(s: seq<CodeUnit>, x: CodeUnit)
    requires x in s && ValueOf(x).None?
    ensures Values(s).None?
  {
    if s[0] != x {
      ValuesRejects(s[1..], x);
    }
  }

  /** `atob` fails on a string holding a character that is not white space, padding or in the alphabet. */
  lemma DecodeRejectsForeign(data: seq<CodeUnit>, x: CodeUnit)
    requires x in data && !IsAsciiWhiteSpace(x) && x != Pad && !IsAlphabetChar(x)
    ensures Decode(data).None?
  {
    var t := RemoveAsciiWhiteSpace(data);
    RemoveAsciiWhiteSpaceKeeps(data, x);
    var s := StripPadding(t);
    assert x in s by {
      var i :| 0 <= i < |t| && t[i] == x;
      if s != t {
        assert i < |s| && s[i] == x;
      }
    }
    if |s| % 4 != 1 {
      ValuesRejects(s, x);
    }
  }

  /** An encoding holds no white space, so the forgiving decode keeps all of it. */
  lemma EncodeKeepsAll(bs: seq<Byte>)
    ensures RemoveAsciiWhiteSpace(Encode(bs)) == Encode(bs)
  {
    var e := Encode(bs);
    EncodeShape(bs);
    forall i | 0 <= i < |e| ensures !IsAsciiWhiteSpace(e[i]) {
      assert IsAlphabetChar(e[i]) || e[i] == Pad;
    }
    RemoveAsciiWhiteSpaceNone(e);
  }

  /** Stripping the padding of an encoding leaves exactly its alphabet characters. */
  lemma StripEncodePadding(bs: seq<Byte>)
    ensures StripPadding(Encode(bs)) == Chars(ToSextets(bs))
  {
    var cs := Chars(ToSextets(bs));
    PaddedToGroups(|bs|);
    assert cs == [] || cs[|cs| - 1] != Pad;
    StripPaddingOf(cs, Padding(|bs|));
  }

  /** Step 2 of the forgiving decode removes exactly the padding of a padded text. */
  lemma StripPaddingOf(cs: seq<CodeUnit>, pad: seq<CodeUnit>)
    requires |cs + pad| % 4 == 0
    requires pad == [] || pad == [Pad] || pad == [Pad, Pad]
    requires cs == [] || cs[|cs| - 1] != Pad
    ensures StripPadding(cs + pad) == cs
  {
    var e := cs + pad;
    if pad == [Pad, Pad] {
      assert e[|e| - 1] == Pad && e[|e| - 2] == Pad;
      assert e[..|e| - 2] == cs;
    } else if pad == [Pad] {
      assert e[|e| - 1] == Pad;
      assert |e| < 2 || e[|e| - 2] != Pad;
      assert e[..|e| - 1] == cs;
    } else {
      assert e == cs;
    }
  }

  /** `atob(btoa(b)) == b`: the forgiving decode inverts the padded encoding. */
  lemma DecodeEncode(bs: seq<Byte>)
    ensures Decode(Encode(bs)) == Some(bs)
  {
    var vs := ToSextets(bs);
    EncodeKeepsAll(bs);
    StripEncodePadding(bs);
    FromToSextets(bs);
    ValuesChars(vs);
  }
}
