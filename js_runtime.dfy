/**
 * The few JavaScript built-ins the tools rely on: `String.prototype.trim`,
 * `length` (counted in UTF-16 code units), `Math.floor(Math.random() * n)`
 * and `Math.round`.
 */
module JsRuntime {
  import opened Unicode
  import Utf16

  /** ECMAScript WhiteSpace and LineTerminator code points, the set `trim` removes. */
  predicate IsWhiteSpaceCode(x: int)
  {
    x == 0x09 || x == 0x0A || x == 0x0B || x == 0x0C || x == 0x0D || x == 0x20 || x == 0xA0
    || x == 0x1680 || (0x2000 <= x <= 0x200A) || x == 0x2028 || x == 0x2029 || x == 0x202F
    || x == 0x205F || x == 0x3000 || x == 0xFEFF
  }

  predicate IsWhiteSpace(c: char) { IsWhiteSpaceCode(c as int) }

  /** `!s.trim()`: the string is empty or white space only. */
  predicate IsBlank(s: string)
  {
    forall i :: 0 <= i < |s| ==> IsWhiteSpace(s[i])
  }

  /** `!s.trim()` on a string held as code units (no white space character is a surrogate). */
  predicate IsBlankUnits(s: JsString)
  {
    forall i :: 0 <= i < |s| ==> IsWhiteSpaceCode(s[i])
  }

  function TrimStart(s: string): (r: string)
    ensures |r| <= |s| && r == s[|s| - |r|..]
    ensures r == [] || !IsWhiteSpace(r[0])
  {
    if s == [] || !IsWhiteSpace(s[0]) then s else TrimStart(s[1..])
  }

  /** Everything `TrimStart` drops is white space. */
  lemma {:induction false} TrimStartDropsWhiteSpace(s: string)
    ensures IsBlank(s[..|s| - |TrimStart(s)|])
  {
    if s != [] && IsWhiteSpace(s[0]) {
      var k := |s| - |TrimStart(s)|;
      TrimStartDropsWhiteSpace(s[1..]);
      assert s[..k] == [s[0]] + s[1..][..k - 1];
    }
  }

  function TrimEnd(s: string): (r: string)
    ensures |r| <= |s| && r == s[..|r|]
    ensures r == [] || !IsWhiteSpace(r[|r| - 1])
  {
    if s == [] || !IsWhiteSpace(s[|s| - 1]) then s else TrimEnd(s[..|s| - 1])
  }

  /** Everything `TrimEnd` drops is white space. */
  lemma {:induction false} TrimEndDropsWhiteSpace(s: string)
    ensures IsBlank(s[|TrimEnd(s)|..])
    decreases |s|
  {
    if s != [] && IsWhiteSpace(s[|s| - 1]) {
      var shorter := s[..|s| - 1];
      var n := |TrimEnd(s)|;
      TrimEndDropsWhiteSpace(shorter);
      assert s[n..] == shorter[n..] + [s[|s| - 1]];
    }
  }

  /**
   * `s.trim()`: `s` without its leading and trailing white space, removed one
   * character at a time. The result neither starts nor ends with white space;
   * TrimIsStartThenEnd relates it to `trimStart` and `trimEnd`, and
   * TrimBlankAround shows that only white space lies outside it.
   */
  function Trim(s: string): (r: string)
    ensures |r| <= |s|
    ensures r == [] || (!IsWhiteSpace(r[0]) && !IsWhiteSpace(r[|r| - 1]))
    decreases |s|
  {
    if s == [] then []
    else if IsWhiteSpace(s[0]) then Trim(s[1..])
    else if IsWhiteSpace(s[|s| - 1]) then Trim(s[..|s| - 1])
    else s
  }

  /** `trim` is `trimEnd` after `trimStart`. */
  lemma {:induction false} TrimIsStartThenEnd(s: string)
    ensures Trim(s) == TrimEnd(TrimStart(s))
    decreases |s|
  {
    if s == [] {
    } else if IsWhiteSpace(s[0]) {
      TrimIsStartThenEnd(s[1..]);
    } else if IsWhiteSpace(s[|s| - 1]) {
      var shorter := s[..|s| - 1];
      assert shorter != [] && shorter[0] == s[0];
      TrimIsStartThenEnd(shorter);
    }
  }

  /**
   * `trim` cuts the string into three pieces: white space, the result, and
   * white space again; the first cut is where `trimStart` stops.
   */
  lemma TrimBlankAround(s: string)
    ensures var k := |s| - |TrimStart(s)|; var n := |Trim(s)|;
      k + n <= |s| && s == s[..k] + Trim(s) + s[k + n..] &&
      IsBlank(s[..k]) && IsBlank(s[k + n..])
  {
    var t := TrimStart(s);
    var n := |Trim(s)|;
    TrimPieces(s);
    TrimStartDropsWhiteSpace(s);
    TrimEndDropsWhiteSpace(t);
    assert IsBlank(t[n..]);
  }

  /** The three pieces, as slices of `s` and of the result of `trimStart`. */
  lemma TrimPieces(s: string)
    ensures var t := TrimStart(s); var k := |s| - |t|; var n := |Trim(s)|;
      n == |TrimEnd(t)| && k + n <= |s| &&
      s == s[..k] + Trim(s) + s[k + n..] && t[n..] == s[k + n..]
  {
    var t := TrimStart(s);
    var k := |s| - |t|;
    var n := |TrimEnd(t)|;
    TrimIsStartThenEnd(s);
    SliceOfSlice(s, k, n);
    ThreePieces(s, k, n);
  }

  lemma SliceOfSlice(s: string, k: nat, n: nat)
    requires k + n <= |s|
    ensures s[k..][..n] == s[k..k + n] && s[k..][n..] == s[k + n..]
  {
  }

  lemma ThreePieces(s: string, k: nat, n: nat)
    requires k + n <= |s|
    ensures s == s[..k] + s[k..k + n] + s[k + n..]
  {
  }

  /** The trimmed string is empty exactly when the string is blank. */
  lemma {:induction false} TrimEmptyIffBlank(s: string)
    ensures Trim(s) == [] <==> IsBlank(s)
    decreases |s|
  {
    if s == [] {
    } else if IsWhiteSpace(s[0]) {
      TrimEmptyIffBlank(s[1..]);
      assert IsBlank(s) <==> IsBlank(s[1..]) by {
        if IsBlank(s[1..]) {
          forall i | 0 <= i < |s| ensures IsWhiteSpace(s[i]) {
            if i > 0 { assert s[i] == s[1..][i - 1]; }
          }
        }
      }
    } else if IsWhiteSpace(s[|s| - 1]) {
      var shorter := s[..|s| - 1];
      assert shorter[0] == s[0];
      TrimEmptyIffBlank(shorter);
    }
  }

  /** A string that neither starts nor ends with white space is its own trim. */
  lemma TrimNoOp(s: string)
    requires s == [] || (!IsWhiteSpace(s[0]) && !IsWhiteSpace(s[|s| - 1]))
    ensures Trim(s) == s
  {
  }

  /** Trimming twice is trimming once. */
  lemma TrimIdempotent(s: string)
    ensures Trim(Trim(s)) == Trim(s)
  {
    TrimNoOp(Trim(s));
  }

  /** White space after a non-blank string is all removed by `trimStart` and kept in place. */
  lemma {:induction false} TrimStartAppend(s: string, pad: string)
    requires !IsBlank(s)
    ensures TrimStart(s + pad) == TrimStart(s) + pad
  {
    if IsWhiteSpace(s[0]) {
      assert (s + pad)[1..] == s[1..] + pad;
      TrimStartAppend(s[1..], pad);
    }
  }

  /** Trailing white space is what `trimEnd` removes. */
  lemma {:induction false} TrimEndBlank(s: string, pad: string)
    requires IsBlank(pad)
    ensures TrimEnd(s + pad) == TrimEnd(s)
    decreases |pad|
  {
    if pad != [] {
      var shorter := pad[..|pad| - 1];
      assert (s + pad)[..|s + pad| - 1] == s + shorter;
      TrimEndBlank(s, shorter);
    } else {
      assert s + pad == s;
    }
  }

  /** Appending white space to a non-blank string does not change its trim. */
  lemma TrimAppendBlank(s: string, pad: string)
    requires !IsBlank(s) && IsBlank(pad)
    ensures Trim(s + pad) == Trim(s)
  {
    TrimIsStartThenEnd(s);
    TrimIsStartThenEnd(s + pad);
    TrimStartAppend(s, pad);
    TrimEndBlank(TrimStart(s), pad);
  }

  /** The UTF-16 code units a character takes: two outside the Basic Multilingual Plane. */
  function UnitsOf(c: char): nat
  {
    if c as int < 0x1_0000 then 1 else 2
  }

  /** A string's `length`, counted in UTF-16 code units. */
  function Length(s: string): (n: nat)
    ensures |s| <= n <= 2 * |s|
  {
    if s == [] then 0 else UnitsOf(s[0]) + Length(s[1..])
  }

  /** `length` is the length of the string's UTF-16 form. */
  lemma {:induction false} LengthIsUtf16(s: string)
    ensures Length(s) == |Utf16.FromString(s)|
  {
    if s != [] {
      LengthIsUtf16(s[1..]);
      assert s == [s[0]] + s[1..];
      Utf16.FromStringAppend([s[0]], s[1..]);
      assert Scalars([s[0]]) == [s[0] as int];
      assert Utf16.FromString([s[0]]) == Utf16.EncodeScalar(s[0] as int);
    }
  }

  /** `length` adds up over concatenation, so appending never shortens a string. */
  lemma {:induction false} LengthAppend(a: string, b: string)
    ensures Length(a + b) == Length(a) + Length(b)
  {
    if a == [] {
      assert a + b == b;
    } else {
      assert (a + b)[1..] == a[1..] + b;
      LengthAppend(a[1..], b);
    }
  }

  /** Outside the supplementary planes a string is as long as it has characters. */
  lemma {:induction false} LengthBmp(s: string)
    requires forall i :: 0 <= i < |s| ==> s[i] as int < 0x1_0000
    ensures Length(s) == |s|
  {
    if s != [] {
      LengthBmp(s[1..]);
    }
  }

  /** `Math.floor(r * n)` for a value `r` returned by `Math.random()`, which lies in [0, 1). */
  function RandomIndex(r: real, n: nat): (i: nat)
    requires 0.0 <= r < 1.0 && n > 0
    ensures i < n
  {
    assert r * (n as real) < n as real;
    (r * n as real).Floor
  }

  /** `Math.round(p / q)` for exact rationals: the nearest integer, halves rounded up. */
  function RoundDiv(p: int, q: int): (r: int)
    requires q > 0
    ensures r * q * 2 <= 2 * p + q < (r + 1) * q * 2
  {
    (2 * p + q) / (2 * q)
  }

  /** Whole ratios are not rounded. */
  lemma RoundDivOfMultiple(k: int, q: int)
    requires q > 0
    ensures RoundDiv(k * q, q) == k
  {
    var r := RoundDiv(k * q, q);
    var d := q * 2;
    assert r * d <= k * d + q < (r + 1) * d;
    CancelFactor(r, k + 1, d);
    CancelFactor(k, r + 1, d);
  }

  /** Rounding keeps the order of the ratios it rounds. */
  lemma RoundDivMonotone(p1: int, p2: int, q: int)
    requires q > 0 && p1 <= p2
    ensures RoundDiv(p1, q) <= RoundDiv(p2, q)
  {
    var r1, r2 := RoundDiv(p1, q), RoundDiv(p2, q);
    var d := q * 2;
    assert r1 * d <= 2 * p1 + q <= 2 * p2 + q < (r2 + 1) * d;
    CancelFactor(r1, r2 + 1, d);
  }

  lemma CancelFactor(a: int, b: int, c: int)
    requires c > 0 && a * c < b * c
    ensures a < b
  {
  }
}
