/** Value types shared by the UTF-8 and UTF-16 layers. */
module Unicode {

  /** A Unicode scalar value: a code point that is not a surrogate. */
  type Scalar = x: int | 0 <= x < 0xD800 || 0xE000 <= x < 0x11_0000

  /** One UTF-16 code unit, the element of a JavaScript string. */
  type CodeUnit = x: int | 0 <= x < 0x1_0000

  /** One octet. */
  type Byte = x: int | 0 <= x < 0x100

  /** A JavaScript string: a sequence of UTF-16 code units, possibly ill-formed. */
  type JsString = seq<CodeUnit>

  /** The scalar values of a Dafny string (Dafny characters are scalar values). */
  function Scalars(s: string): (r: seq<Scalar>)
    ensures |r| == |s|
    ensures forall i :: 0 <= i < |s| ==> r[i] == s[i] as int
  {
    seq(|s|, i requires 0 <= i < |s| => s[i] as int)
  }

  lemma ScalarsAppend(a: string, b: string)
    ensures Scalars(a + b) == Scalars(a) + Scalars(b)
  {
  }
}
