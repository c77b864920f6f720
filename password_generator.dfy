/**
 * The password generator (src/app/araclar/sifre-ureteci/PasswordGenerator.tsx):
 * a character set built from four toggles, an optional filter of look-alike
 * characters, `length` random draws from the set, and a strength score
 * mapped to four levels with their colours and labels.
 */
module PasswordGenerator {
  import JsRuntime

  const Uppercase := "ABCDEFGHJKLMNPQRSTUVWXYZ"
  const Lowercase := "abcdefghjkmnpqrstuvwxyz"
  const Numbers := "0123456789"
  const Symbols := "!@#$%^&*()_+-=[]{}|;:,.<>?"
  const Ambiguous := "0O1lI"

  datatype StrengthLevel = Zayif | Orta | Guclu | CokGuclu

  /** The position of a level on the strength bar, weakest first. */
  function Rank(level: StrengthLevel): nat
  {
    match level
    case Zayif => 0
    case Orta => 1
    case Guclu => 2
    case CokGuclu => 3
  }

  /** The Tailwind colour of a level, shared by its text and its bar. */
  function Hue(level: StrengthLevel): string
  {
    match level
    case Zayif => "red-500"
    case Orta => "yellow-500"
    case Guclu => "green-500"
    case CokGuclu => "emerald-600"
  }

  /**
   * `getStrengthColor` and `getStrengthBg` side by side: the text class and
   * the bar class of a level, both built on the level's hue.
   */
  function StrengthClasses(level: StrengthLevel): (classes: (string, string))
    ensures classes.0 == "text-" + Hue(level)
    ensures classes.1 == "bg-" + Hue(level)
  {
    match level
    case Zayif => ("text-red-500", "bg-red-500")
    case Orta => ("text-yellow-500", "bg-yellow-500")
    case Guclu => ("text-green-500", "bg-green-500")
    case CokGuclu => ("text-emerald-600", "bg-emerald-600")
  }

  /** The text colour of a level. */
  function StrengthColor(level: StrengthLevel): string
  {
    StrengthClasses(level).0
  }

  /** The colour of the strength bar. */
  function StrengthBg(level: StrengthLevel): string
  {
    StrengthClasses(level).1
  }

  /** The Turkish name shown for a level. */
  function StrengthLabel(level: StrengthLevel): (name: string)
    ensures name != ""
  {
    match level
    case Zayif => "Zayıf"
    case Orta => "Orta"
    case Guclu => "Güçlü"
    case CokGuclu => "Çok Güçlü"
  }

  /** No two levels share a colour, a bar colour or a label. */
  lemma StrengthDisplayInjective(a: StrengthLevel, b: StrengthLevel)
    requires StrengthColor(a) == StrengthColor(b) || StrengthBg(a) == StrengthBg(b) || StrengthLabel(a) == StrengthLabel(b)
    ensures a == b
  {
  }

  predicate HasLower(p: string) { exists i :: 0 <= i < |p| && 'a' <= p[i] <= 'z' }
  predicate HasUpper(p: string) { exists i :: 0 <= i < |p| && 'A' <= p[i] <= 'Z' }
  predicate HasDigit(p: string) { exists i :: 0 <= i < |p| && '0' <= p[i] <= '9' }

  /** `/[^a-zA-Z0-9]/`: some character is not an ASCII letter or digit. */
  predicate HasOther(p: string)
  {
    exists i :: 0 <= i < |p| && !('a' <= p[i] <= 'z' || 'A' <= p[i] <= 'Z' || '0' <= p[i] <= '9')
  }

  /** One point for each of the thresholds 8, 12, 16 and 20 that a length reaches. */
  function LengthPoints(n: nat): (points: nat)
    ensures points <= 4
    ensures points == 0 <==> n < 8
  {
    (if n >= 8 then 1 else 0) + (if n >= 12 then 1 else 0) + (if n >= 16 then 1 else 0) + (if n >= 20 then 1 else 0)
  }

  /** The score: length points, one point each for a lower-case letter, an upper-case letter and a digit, two for any other character. */
  function Score(p: string): (score: nat)
    ensures score <= 9
  {
    LengthPoints(JsRuntime.Length(p))
    + (if HasLower(p) then 1 else 0) + (if HasUpper(p) then 1 else 0)
    + (if HasDigit(p) then 1 else 0) + (if HasOther(p) then 2 else 0)
  }

  /** The level of a score: 7 and up, 5 and up, 3 and up, below 3. */
  function LevelOf(score: int): (level: StrengthLevel)
    ensures level == CokGuclu <==> score >= 7
    ensures level == Guclu <==> 5 <= score < 7
    ensures level == Orta <==> 3 <= score < 5
    ensures level == Zayif <==> score < 3
  {
    if score >= 7 then CokGuclu else if score >= 5 then Guclu else if score >= 3 then Orta else Zayif
  }

  /** The strength shown for a password; the empty password is weak. */
  function Strength(p: string): (level: StrengthLevel)
    ensures level == Zayif <==> p == "" || Score(p) < 3
    ensures level == CokGuclu <==> p != "" && Score(p) >= 7
  {
    if p == "" then Zayif else LevelOf(Score(p))
  }

  /** `calculateStrength`, accumulating the score step by step. */
  method CalculateStrength(password: string) returns (level: StrengthLevel)
    ensures level == Strength(password)
  {
    if password == "" {
      return Zayif;
    }
    var score := 0;
    var n := JsRuntime.Length(password);
    if n >= 8 { score := score + 1; }
    if n >= 12 { score := score + 1; }
    if n >= 16 { score := score + 1; }
    if n >= 20 { score := score + 1; }
    if HasLower(password) { score := score + 1; }
    if HasUpper(password) { score := score + 1; }
    if HasDigit(password) { score := score + 1; }
    if HasOther(password) { score := score + 2; }
    if score >= 7 {
      level := CokGuclu;
    } else if score >= 5 {
      level := Guclu;
    } else if score >= 3 {
      level := Orta;
    } else {
      level := Zayif;
    }
  }

  /** The early return for the empty password agrees with the score, which is 0 there. */
  lemma StrengthIsLevelOfScore(p: string)
    ensures Strength(p) == LevelOf(Score(p))
  {
    if p == "" {
      assert !HasLower(p) && !HasUpper(p) && !HasDigit(p) && !HasOther(p);
    }
  }

  lemma LevelOfMonotone(a: int, b: int)
    requires a <= b
    ensures Rank(LevelOf(a)) <= Rank(LevelOf(b))
  {
  }

  /** Appending characters never lowers the score: every term only grows with the string. */
  lemma ScoreMonotone(p: string, q: string)
    ensures Score(p) <= Score(p + q)
  {
    JsRuntime.LengthAppend(p, q);
    LengthPointsMonotone(JsRuntime.Length(p), JsRuntime.Length(p + q));
    KeepsClasses(p, q);
  }

  lemma LengthPointsMonotone(m: nat, n: nat)
    requires m <= n
    ensures LengthPoints(m) <= LengthPoints(n)
  {
  }

  /** A character class present in `p` is still present after appending. */
  lemma KeepsClasses(p: string, q: string)
    ensures HasLower(p) ==> HasLower(p + q)
    ensures HasUpper(p) ==> HasUpper(p + q)
    ensures HasDigit(p) ==> HasDigit(p + q)
    ensures HasOther(p) ==> HasOther(p + q)
  {
    forall i | 0 <= i < |p| ensures (p + q)[i] == p[i] {
    }
  }

  /** The strength level never decreases when characters are appended. */
  lemma StrengthMonotone(p: string, q: string)
    ensures Rank(Strength(p)) <= Rank(Strength(p + q))
  {
    StrengthIsLevelOfScore(p);
    StrengthIsLevelOfScore(p + q);
    ScoreMonotone(p, q);
    LevelOfMonotone(Score(p), Score(p + q));
  }

  /** A non-empty password scores at least its length points plus one for the class of its first character. */
  lemma ScoreLowerBound(p: string)
    requires p != ""
    ensures Score(p) >= LengthPoints(JsRuntime.Length(p)) + 1
  {
    var c := p[0];
    if 'a' <= c <= 'z' {
      assert HasLower(p);
    } else if 'A' <= c <= 'Z' {
      assert HasUpper(p);
    } else if '0' <= c <= '9' {
      assert HasDigit(p);
    } else {
      assert HasOther(p);
    }
  }

  /** With the default length of 16, every generated password is at least "Orta". */
  lemma DefaultLengthAtLeastOrta(p: string)
    requires |p| == 16
    ensures Rank(Strength(p)) >= Rank(Orta)
  {
    ScoreLowerBound(p);
  }

  /** `chars.split("").filter((c) => !AMBIGUOUS.includes(c)).join("")`. */
  function RemoveAmbiguous(s: string): (r: string)
    ensures |r| <= |s|
    ensures forall i :: 0 <= i < |r| ==> r[i] !in Ambiguous
  {
    if s == "" then ""
    else if s[0] in Ambiguous then RemoveAmbiguous(s[1..])
    else [s[0]] + RemoveAmbiguous(s[1..])
  }

  /** The filter keeps exactly the characters that are not look-alikes. */
  lemma {:induction false} RemoveAmbiguousMembers(s: string, c: char)
    ensures c in RemoveAmbiguous(s) <==> c in s && c !in Ambiguous
  {
    if s != "" {
      RemoveAmbiguousMembers(s[1..], c);
      assert c in s <==> c == s[0] || c in s[1..];
    }
  }

  lemma {:induction false} RemoveAmbiguousAppend(a: string, b: string)
    ensures RemoveAmbiguous(a + b) == RemoveAmbiguous(a) + RemoveAmbiguous(b)
  {
    if a == "" {
      assert a + b == b;
    } else {
      assert (a + b)[1..] == a[1..] + b;
      RemoveAmbiguousAppend(a[1..], b);
    }
  }

  /** No character of `s` is a look-alike. */
  predicate Unambiguous(s: string)
  {
    forall i :: 0 <= i < |s| ==> s[i] !in Ambiguous
  }

  lemma {:induction false} RemoveAmbiguousNone(s: string)
    requires Unambiguous(s)
    ensures RemoveAmbiguous(s) == s
  {
    if s != "" {
      RemoveAmbiguousNone(s[1..]);
      assert [s[0]] + s[1..] == s;
    }
  }

  /**
   * The filter only ever removes `0` and `1`: the letter sets already leave
   * out `O`, `I` and `l`, and the symbols hold none of the five.
   */
  lemma UppercaseUnambiguous()
    ensures Unambiguous(Uppercase)
  {
    forall i | 0 <= i < |Uppercase| ensures Uppercase[i] !in Ambiguous {
      AmbiguousChars(Uppercase[i]);
    }
  }

  lemma LowercaseUnambiguous()
    ensures Unambiguous(Lowercase)
  {
    forall i | 0 <= i < |Lowercase| ensures Lowercase[i] !in Ambiguous {
      AmbiguousChars(Lowercase[i]);
    }
  }

  lemma SymbolsUnambiguous()
    ensures Unambiguous(Symbols)
  {
    forall i | 0 <= i < |Symbols| ensures Symbols[i] !in Ambiguous {
      AmbiguousChars(Symbols[i]);
    }
  }

  /** The five look-alikes, one by one. */
  lemma AmbiguousChars(c: char)
    ensures c in Ambiguous <==> c == '0' || c == 'O' || c == '1' || c == 'l' || c == 'I'
  {
    var a := Ambiguous;
    assert a == ['0', 'O', '1', 'l', 'I'];
  }

  lemma NumbersFiltered()
    ensures RemoveAmbiguous(Numbers) == "23456789"
  {
    var n := Numbers;
    assert n[0] in Ambiguous && n[1] in Ambiguous;
    assert n[1..][1..] == "23456789";
    RemoveAmbiguousNone("23456789");
  }

  /** The enabled sets, concatenated in the order upper case, lower case, digits, symbols. */
  function Pool(useUppercase: bool, useLowercase: bool, useNumbers: bool, useSymbols: bool): string
  {
    (if useUppercase then Uppercase else "") + (if useLowercase then Lowercase else "")
    + (if useNumbers then Numbers else "") + (if useSymbols then Symbols else "")
  }

  /** The set passwords are drawn from: the pool, filtered if asked, with the lower-case set as fallback. */
  function CharSet(useUppercase: bool, useLowercase: bool, useNumbers: bool, useSymbols: bool, excludeAmbiguous: bool): (chars: string)
    ensures chars != ""
  {
    var pool := Pool(useUppercase, useLowercase, useNumbers, useSymbols);
    var filtered := if excludeAmbiguous then RemoveAmbiguous(pool) else pool;
    if filtered == "" then Lowercase else filtered
  }

  /** With the look-alikes excluded, the set holds none of them, the fallback included. */
  lemma CharSetUnambiguous(useUppercase: bool, useLowercase: bool, useNumbers: bool, useSymbols: bool)
    ensures Unambiguous(CharSet(useUppercase, useLowercase, useNumbers, useSymbols, true))
  {
    LowercaseUnambiguous();
  }

  /** Each set keeps at least one character after filtering. */
  lemma FilteredSetsNonEmpty()
    ensures RemoveAmbiguous(Uppercase) != "" && RemoveAmbiguous(Lowercase) != ""
    ensures RemoveAmbiguous(Numbers) != "" && RemoveAmbiguous(Symbols) != ""
  {
    UppercaseUnambiguous();
    LowercaseUnambiguous();
    SymbolsUnambiguous();
    RemoveAmbiguousNone(Uppercase);
    RemoveAmbiguousNone(Lowercase);
    RemoveAmbiguousNone(Symbols);
    NumbersFiltered();
  }

  /** The fallback is taken exactly when no set is enabled: filtering never empties an enabled set. */
  lemma FallbackIffNoneEnabled(useUppercase: bool, useLowercase: bool, useNumbers: bool, useSymbols: bool, excludeAmbiguous: bool)
    ensures var pool := Pool(useUppercase, useLowercase, useNumbers, useSymbols);
      (if excludeAmbiguous then RemoveAmbiguous(pool) else pool) == "" <==>
      !useUppercase && !useLowercase && !useNumbers && !useSymbols
  {
    var u, l := if useUppercase then Uppercase else "", if useLowercase then Lowercase else "";
    var n, s := if useNumbers then Numbers else "", if useSymbols then Symbols else "";
    var pool := Pool(useUppercase, useLowercase, useNumbers, useSymbols);
    assert pool == u + l + n + s;
    if excludeAmbiguous {
      FilteredSetsNonEmpty();
      FilteredLength(u, l, n, s);
    }
  }

  /** Filtering four pieces one after the other keeps what filtering each keeps. */
  lemma FilteredLength(u: string, l: string, n: string, s: string)
    ensures |RemoveAmbiguous(u + l + n + s)| ==
      |RemoveAmbiguous(u)| + |RemoveAmbiguous(l)| + |RemoveAmbiguous(n)| + |RemoveAmbiguous(s)|
  {
    RemoveAmbiguousAppend(u + l + n, s);
    RemoveAmbiguousAppend(u + l, n);
    RemoveAmbiguousAppend(u, l);
  }

  /** A character can be drawn exactly when it is in an enabled set and not filtered out, or, with no set enabled, is lower case. */
  lemma CharSetMembers(useUppercase: bool, useLowercase: bool, useNumbers: bool, useSymbols: bool, excludeAmbiguous: bool, c: char)
    ensures !useUppercase && !useLowercase && !useNumbers && !useSymbols ==>
      (c in CharSet(useUppercase, useLowercase, useNumbers, useSymbols, excludeAmbiguous) <==> c in Lowercase)
    ensures useUppercase || useLowercase || useNumbers || useSymbols ==>
      (c in CharSet(useUppercase, useLowercase, useNumbers, useSymbols, excludeAmbiguous) <==>
       !(excludeAmbiguous && c in Ambiguous) &&
       ((useUppercase && c in Uppercase) || (useLowercase && c in Lowercase)
        || (useNumbers && c in Numbers) || (useSymbols && c in Symbols)))
  {
    FallbackIffNoneEnabled(useUppercase, useLowercase, useNumbers, useSymbols, excludeAmbiguous);
    RemoveAmbiguousMembers(Pool(useUppercase, useLowercase, useNumbers, useSymbols), c);
    var u, l := if useUppercase then Uppercase else "", if useLowercase then Lowercase else "";
    var n, s := if useNumbers then Numbers else "", if useSymbols then Symbols else "";
    assert c in u + l + n + s <==> c in u || c in l || c in n || c in s;
  }

  /** The characters drawn by the values `rnd` of `Math.random()`, one per position. */
  ghost function Draw(chars: string, rnd: seq<real>): (password: string)
    requires chars != "" && forall i :: 0 <= i < |rnd| ==> 0.0 <= rnd[i] < 1.0
  {
    seq(|rnd|, i requires 0 <= i < |rnd| => chars[JsRuntime.RandomIndex(rnd[i], |chars|)])
  }

  /** Every drawn character is a member of the set. */
  lemma DrawFromSet(chars: string, rnd: seq<real>)
    requires chars != "" && forall i :: 0 <= i < |rnd| ==> 0.0 <= rnd[i] < 1.0
    ensures |Draw(chars, rnd)| == |rnd|
    ensures forall i :: 0 <= i < |rnd| ==> Draw(chars, rnd)[i] in chars
  {
  }

  /** The first half of `generatePassword`: the character set, built up one enabled set at a time. */
  method BuildCharSet(useUppercase: bool, useLowercase: bool, useNumbers: bool, useSymbols: bool, excludeAmbiguous: bool)
      returns (chars: string)
    ensures chars == CharSet(useUppercase, useLowercase, useNumbers, useSymbols, excludeAmbiguous)
  {
    ghost var u, l := if useUppercase then Uppercase else "", if useLowercase then Lowercase else "";
    ghost var n, s := if useNumbers then Numbers else "", if useSymbols then Symbols else "";
    chars := "";
    if useUppercase { chars := chars + Uppercase; }
    assert chars == u;
    if useLowercase { chars := chars + Lowercase; }
    assert chars == u + l;
    if useNumbers { chars := chars + Numbers; }
    assert chars == u + l + n;
    if useSymbols { chars := chars + Symbols; }
    assert chars == u + l + n + s == Pool(useUppercase, useLowercase, useNumbers, useSymbols);
    if excludeAmbiguous {
      chars := RemoveAmbiguous(chars);
    }
    if chars == "" {
      chars := Lowercase;
    }
  }

  /**
   * `generatePassword`, with the `length` values of `Math.random()` supplied
   * by the caller. Every character set is ASCII, so `chars.length` is `|chars|`.
   */
  method GeneratePassword(length: nat, useUppercase: bool, useLowercase: bool, useNumbers: bool,
                          useSymbols: bool, excludeAmbiguous: bool, rnd: seq<real>)
      returns (password: string)
    requires |rnd| == length && forall i :: 0 <= i < |rnd| ==> 0.0 <= rnd[i] < 1.0
    ensures password == Draw(CharSet(useUppercase, useLowercase, useNumbers, useSymbols, excludeAmbiguous), rnd)
    ensures |password| == length
  {
    var chars := BuildCharSet(useUppercase, useLowercase, useNumbers, useSymbols, excludeAmbiguous);
    password := DrawCharacters(chars, rnd);
  }

  /** The loop of `generatePassword`: one character of `chars` per value of `Math.random()`. */
  method DrawCharacters(chars: string, rnd: seq<real>) returns (password: string)
    requires chars != "" && forall i :: 0 <= i < |rnd| ==> 0.0 <= rnd[i] < 1.0
    ensures password == Draw(chars, rnd)
  {
    password := "";
    for i := 0 to |rnd|
      invariant |password| == i
      invariant forall k :: 0 <= k < i ==> password[k] == chars[JsRuntime.RandomIndex(rnd[k], |chars|)]
    {
      password := password + [chars[JsRuntime.RandomIndex(rnd[i], |chars|)]];
    }
    DrawIs(chars, rnd, password);
  }

  /** A string holding the drawn character at each position is the draw. */
  lemma DrawIs(chars: string, rnd: seq<real>, password: string)
    requires chars != "" && forall i :: 0 <= i < |rnd| ==> 0.0 <= rnd[i] < 1.0
    requires |password| == |rnd|
    requires forall k :: 0 <= k < |rnd| ==> password[k] == chars[JsRuntime.RandomIndex(rnd[k], |chars|)]
    ensures password == Draw(chars, rnd)
  {
  }

  /**
   * What `generatePassword` promises: `length` characters, all from the
   * character set, and none of them a look-alike when those are excluded.
   */
  lemma GeneratedCharacters(useUppercase: bool, useLowercase: bool, useNumbers: bool,
                            useSymbols: bool, excludeAmbiguous: bool, rnd: seq<real>)
    requires forall i :: 0 <= i < |rnd| ==> 0.0 <= rnd[i] < 1.0
    ensures var chars := CharSet(useUppercase, useLowercase, useNumbers, useSymbols, excludeAmbiguous);
      var password := Draw(chars, rnd);
      |password| == |rnd| &&
      (forall i :: 0 <= i < |password| ==> password[i] in chars) &&
      (excludeAmbiguous ==> forall i :: 0 <= i < |password| ==> password[i] !in Ambiguous)
  {
    var chars := CharSet(useUppercase, useLowercase, useNumbers, useSymbols, excludeAmbiguous);
    DrawFromSet(chars, rnd);
    if excludeAmbiguous {
      CharSetUnambiguous(useUppercase, useLowercase, useNumbers, useSymbols);
      forall i | 0 <= i < |rnd| ensures Draw(chars, rnd)[i] !in Ambiguous {
        var k :| 0 <= k < |chars| && chars[k] == Draw(chars, rnd)[i];
      }
    }
  }
}
