/**
 * The URL shortener (src/app/araclar/url-kisalt/UrlShortener.tsx): the input
 * is trimmed and given an `https://` prefix when it has no http(s) scheme,
 * checked with the URL parser, given a random six-character code, and put at
 * the front of a history capped at ten records that is mirrored into local
 * storage. The code does not look for an earlier record of the same URL and
 * does not compare a new code with the codes already in the history.
 */
module UrlShortener {
  import opened Wrappers
  import JsRuntime

  datatype ShortenedUrl = ShortenedUrl(id: string, originalUrl: string, shortCode: string, createdAt: int)

  const CodeAlphabet := "abcdefghijklmnopqrstuvwxyzABCDEFGHIJKLMNOPQRSTUVWXYZ0123456789"
  const CodeLength := 6
  const MaxHistory := 10
  const EmptyUrlMessage := "Lütfen bir URL girin"
  const InvalidUrlMessage := "Geçerli bir URL girin (http:// veya https://)"

  /** The code drawn from the six values returned by `Math.random()`. */
  ghost function CodeFrom(rnd: seq<real>): (code: string)
    requires |rnd| == CodeLength && forall i :: 0 <= i < |rnd| ==> 0.0 <= rnd[i] < 1.0
  {
    seq(CodeLength, i requires 0 <= i < CodeLength => CodeAlphabet[JsRuntime.RandomIndex(rnd[i], |CodeAlphabet|)])
  }

  /** `generateShortCode`, with the values of `Math.random()` supplied by the caller. */
  method GenerateShortCode(rnd: seq<real>) returns (code: string)
    requires |rnd| == CodeLength && forall i :: 0 <= i < |rnd| ==> 0.0 <= rnd[i] < 1.0
    ensures code == CodeFrom(rnd)
    ensures |code| == CodeLength
    ensures forall i :: 0 <= i < |code| ==> code[i] in CodeAlphabet
  {
    code := "";
    for i := 0 to CodeLength
      invariant |code| == i
      invariant forall k :: 0 <= k < i ==> code[k] == CodeAlphabet[JsRuntime.RandomIndex(rnd[k], |CodeAlphabet|)]
    {
      code := code + [CodeAlphabet[JsRuntime.RandomIndex(rnd[i], |CodeAlphabet|)]];
    }
  }

  /** ASCII case folding, which is all the `i` flag does to the letters of `/^https?:\/\//i`. */
  function LowerAscii(c: char): char
  {
    if 'A' <= c <= 'Z' then (c as int + 32) as char else c
  }

  /** `s` starts with the lower-case string `p`, ignoring ASCII case. */
  predicate StartsWithIgnoringCase(s: string, p: string)
  {
    |p| <= |s| && forall i :: 0 <= i < |p| ==> LowerAscii(s[i]) == p[i]
  }

  /** The test `/^https?:\/\//i`. */
  predicate HasHttpScheme(s: string)
    ensures HasHttpScheme(s) ==> 7 <= |s| && StartsWithIgnoringCase(s, "http")
  {
    StartsWithIgnoringCase(s, "http://") || StartsWithIgnoringCase(s, "https://")
  }

  /**
   * The candidate URL built from the input: None for blank input, otherwise
   * the trimmed input, prefixed with `https://` when it has no http(s) scheme.
   */
  function Normalize(input: string): (r: Option<string>)
    ensures r.None? <==> JsRuntime.IsBlank(input)
    ensures r.Some? ==> HasHttpScheme(r.value)
  {
    JsRuntime.TrimEmptyIffBlank(input);
    var candidate := JsRuntime.Trim(input);
    if candidate == "" then None
    else if HasHttpScheme(candidate) then Some(candidate)
    else Some("https://" + candidate)
  }

  /** An input that already carries a scheme is only trimmed. */
  lemma NormalizeKeepsScheme(input: string)
    requires HasHttpScheme(JsRuntime.Trim(input))
    ensures Normalize(input) == Some(JsRuntime.Trim(input))
  {
  }

  /** `https://` is prepended exactly when the trimmed, non-blank input has no http(s) scheme. */
  lemma NormalizePrependsExactlyWhenMissing(input: string)
    requires !JsRuntime.IsBlank(input)
    ensures Normalize(input) == Some("https://" + JsRuntime.Trim(input)) <==> !HasHttpScheme(JsRuntime.Trim(input))
  {
    var t := JsRuntime.Trim(input);
    if HasHttpScheme(t) {
      assert |"https://" + t| != |t|;
    }
  }

  /** A normalised URL normalises to itself. */
  lemma NormalizeIdempotent(input: string)
    requires Normalize(input).Some?
    ensures Normalize(Normalize(input).value) == Normalize(input)
  {
    var r := Normalize(input).value;
    var t := JsRuntime.Trim(input);
    assert r[0] == 'h' || r[0] == 'H';
    assert r[|r| - 1] == t[|t| - 1];
    JsRuntime.TrimNoOp(r);
  }

  /** An input without a scheme shortens like the same input written with `https://` in front. */
  lemma NormalizeAsIfPrefixed(input: string)
    requires !JsRuntime.IsBlank(input) && !HasHttpScheme(JsRuntime.Trim(input))
    ensures Normalize("https://" + JsRuntime.Trim(input)) == Normalize(input)
  {
    NormalizeIdempotent(input);
  }

  /** `isValidUrl`, with the URL parser abstracted to the protocol it reports, or None where it throws. */
  function IsValidUrl(url: string, parse: string -> Option<string>): (ok: bool)
    ensures ok <==> parse(url) in {Some("http:"), Some("https:")}
  {
    match parse(url)
    case None => false
    case Some(protocol) => protocol == "http:" || protocol == "https:"
  }

  function Min(a: int, b: int): int { if a <= b then a else b }

  /** `[newUrl, ...history].slice(0, 10)`. */
  function AddToHistory(rec: ShortenedUrl, history: seq<ShortenedUrl>): (r: seq<ShortenedUrl>)
    ensures |r| == Min(|history| + 1, MaxHistory)
    ensures r[0] == rec
    ensures r[1..] == history[..Min(|history|, MaxHistory - 1)]
  {
    var n := Min(|history| + 1, MaxHistory);
    ConsPrefix(rec, history, n);
    ([rec] + history)[..n]
  }

  /** A prefix of `[x] + h` is `x` followed by the prefix of `h` one shorter. */
  lemma ConsPrefix<T>(x: T, h: seq<T>, n: nat)
    requires 1 <= n <= |h| + 1
    ensures ([x] + h)[..n][0] == x && ([x] + h)[..n][1..] == h[..n - 1]
  {
  }

  function Reverse<T>(s: seq<T>): (r: seq<T>)
    ensures |r| == |s|
  {
    if s == [] then [] else Reverse(s[1..]) + [s[0]]
  }

  /** The history after adding the records `recs` one after the other. */
  function AddAllToHistory(recs: seq<ShortenedUrl>, history: seq<ShortenedUrl>): seq<ShortenedUrl>
    decreases |recs|
  {
    if recs == [] then history else AddAllToHistory(recs[1..], AddToHistory(recs[0], history))
  }

  /**
   * After any number of successful shortens the history holds the most recent
   * ten of all records, newest first: older ones fall off the end. (A
   * history read back from storage is only cut to ten by the first add.)
   */
  lemma {:induction false} AddAllKeepsMostRecent(recs: seq<ShortenedUrl>, history: seq<ShortenedUrl>)
    requires recs != [] || |history| <= MaxHistory
    ensures AddAllToHistory(recs, history) ==
      (Reverse(recs) + history)[..Min(|recs| + |history|, MaxHistory)]
    decreases |recs|
  {
    if recs != [] {
      var h1 := AddToHistory(recs[0], history);
      AddAllKeepsMostRecent(recs[1..], h1);
      var lhs := (Reverse(recs[1..]) + h1)[..Min(|recs| - 1 + |h1|, MaxHistory)];
      var rhs := (Reverse(recs) + history)[..Min(|recs| + |history|, MaxHistory)];
      assert Reverse(recs) == Reverse(recs[1..]) + [recs[0]];
      assert |lhs| == |rhs|;
      forall i | 0 <= i < |lhs| ensures lhs[i] == rhs[i] {
        var n := |recs| - 1;
        if i < n {
          assert lhs[i] == Reverse(recs[1..])[i] == rhs[i];
        } else if i == n {
          assert lhs[i] == h1[0] == recs[0] == rhs[i];
        } else {
          assert h1[1..] == history[..Min(|history|, MaxHistory - 1)];
          assert lhs[i] == h1[i - n] == h1[1..][i - n - 1] == history[i - n - 1] == rhs[i];
        }
      }
      assert lhs == rhs;
    }
  }

  /** `history.filter((item) => item.id !== id)`. */
  function RemoveId(history: seq<ShortenedUrl>, id: string): (r: seq<ShortenedUrl>)
    ensures |r| <= |history|
    ensures forall x :: x in r <==> x in history && x.id != id
  {
    if history == [] then []
    else if history[0].id != id then [history[0]] + RemoveId(history[1..], id)
    else RemoveId(history[1..], id)
  }

  /** Filtering works piecewise, so the records that stay keep their relative order. */
  lemma {:induction false} RemoveIdAppend(a: seq<ShortenedUrl>, b: seq<ShortenedUrl>, id: string)
    ensures RemoveId(a + b, id) == RemoveId(a, id) + RemoveId(b, id)
  {
    if a == [] {
      assert a + b == b;
    } else {
      assert (a + b)[1..] == a[1..] + b;
      RemoveIdAppend(a[1..], b, id);
    }
  }

  /** Deleting an id that no record has leaves the history as it is. */
  lemma {:induction false} RemoveIdAbsent(history: seq<ShortenedUrl>, id: string)
    requires forall i :: 0 <= i < |history| ==> history[i].id != id
    ensures RemoveId(history, id) == history
  {
    if history != [] {
      RemoveIdAbsent(history[1..], id);
      assert [history[0]] + history[1..] == history;
    }
  }

  /** Deleting twice is deleting once. */
  lemma RemoveIdIdempotent(history: seq<ShortenedUrl>, id: string)
    ensures RemoveId(RemoveId(history, id), id) == RemoveId(history, id)
  {
    var r := RemoveId(history, id);
    forall i | 0 <= i < |r| ensures r[i].id != id {
      assert r[i] in r;
    }
    RemoveIdAbsent(r, id);
  }

  /** `getShortUrl`: the display link `<origin>/go/<code>`. */
  function ShortUrl(origin: string, code: string): (url: string)
    ensures |url| == |origin| + 4 + |code|
    ensures url[..|origin|] == origin && url[|origin|..|origin| + 4] == "/go/" && url[|origin| + 4..] == code
  {
    origin + "/go/" + code
  }

  /** Different codes give different short links on the same origin. */
  lemma ShortUrlInjective(origin: string, a: string, b: string)
    requires ShortUrl(origin, a) == ShortUrl(origin, b)
    ensures a == b
  {
    assert ShortUrl(origin, a)[|origin| + 4..] == a;
  }

  /** The page state: the text box, the message line, the last result, the history and its stored copy. */
  class UrlShortenerPage {
    var input: string
    var error: string
    var shortenedUrl: Option<ShortenedUrl>
    var history: seq<ShortenedUrl>
    var isLoading: bool
    /** The last value passed to `saveHistory`, None before the first save. */
    var saved: Option<seq<ShortenedUrl>>

    /** Every save writes the history as it is at that moment, so the stored copy never lags behind. */
    ghost predicate Persisted()
      reads this
    {
      saved.Some? ==> saved.value == history
    }

    /**
     * Mounting: with the list read back from local storage (None when the key
     * is absent or unreadable) as the initial history; nothing is saved yet.
     */
    constructor (stored: Option<seq<ShortenedUrl>>)
      ensures Persisted()
      ensures input == "" && error == "" && shortenedUrl == None && !isLoading && saved == None
      ensures history == (if stored.Some? then stored.value else [])
    {
      input, error, shortenedUrl, isLoading, saved := "", "", None, false, None;
      history := if stored.Some? then stored.value else [];
    }

    method SetInput(s: string)
      modifies this
      ensures input == s
      ensures error == old(error) && shortenedUrl == old(shortenedUrl) && history == old(history)
      ensures saved == old(saved) && isLoading == old(isLoading)
    {
      input := s;
    }

    /**
     * `shortenUrl`, with its 500 ms delay taken as immediate: the parser, the
     * six `Math.random()` values and `Date.now()` are supplied by the caller.
     */
    method Shorten(parse: string -> Option<string>, rnd: seq<real>, now: int)
      requires |rnd| == CodeLength && forall i :: 0 <= i < |rnd| ==> 0.0 <= rnd[i] < 1.0
      requires Persisted()
      modifies this
      ensures Persisted() && input == old(input)
      ensures Normalize(input).None? ==>
        error == EmptyUrlMessage && shortenedUrl == None && history == old(history) &&
        saved == old(saved) && isLoading == old(isLoading)
      ensures Normalize(input).Some? && !IsValidUrl(Normalize(input).value, parse) ==>
        error == InvalidUrlMessage && shortenedUrl == None && history == old(history) &&
        saved == old(saved) && isLoading == old(isLoading)
      ensures Normalize(input).Some? && IsValidUrl(Normalize(input).value, parse) ==>
        var rec := ShortenedUrl(CodeFrom(rnd), Normalize(input).value, CodeFrom(rnd), now);
        error == "" && shortenedUrl == Some(rec) && !isLoading &&
        history == AddToHistory(rec, old(history)) && saved == Some(history)
    {
      error := "";
      shortenedUrl := None;
      JsRuntime.TrimEmptyIffBlank(input);
      if JsRuntime.IsBlank(input) {
        error := EmptyUrlMessage;
        return;
      }
      var urlToShorten := JsRuntime.Trim(input);
      if !HasHttpScheme(urlToShorten) {
        urlToShorten := "https://" + urlToShorten;
      }
      if !IsValidUrl(urlToShorten, parse) {
        error := InvalidUrlMessage;
        return;
      }
      isLoading := true;
      var shortCode := GenerateShortCode(rnd);
      var newUrl := ShortenedUrl(shortCode, urlToShorten, shortCode, now);
      shortenedUrl := Some(newUrl);
      var updatedHistory := AddToHistory(newUrl, history);
      history := updatedHistory;
      saved := Some(updatedHistory);
      isLoading := false;
    }

    /** `clearInput`: empty the text box, the message and the last result; the history stays. */
    method ClearInput()
      modifies this
      ensures input == "" && error == "" && shortenedUrl == None
      ensures history == old(history) && saved == old(saved) && isLoading == old(isLoading)
    {
      input := "";
      error := "";
      shortenedUrl := None;
    }

    /** `deleteFromHistory`: drop every record with this id and save the result. */
    method DeleteFromHistory(id: string)
      modifies this
      ensures Persisted()
      ensures history == RemoveId(old(history), id) && saved == Some(history)
      ensures input == old(input) && error == old(error) && shortenedUrl == old(shortenedUrl)
      ensures isLoading == old(isLoading)
    {
      var updatedHistory := RemoveId(history, id);
      history := updatedHistory;
      saved := Some(updatedHistory);
    }

    /** `clearHistory`: empty the history and save the empty list. */
    method ClearHistory()
      modifies this
      ensures Persisted()
      ensures history == [] && saved == Some([])
      ensures input == old(input) && error == old(error) && shortenedUrl == old(shortenedUrl)
      ensures isLoading == old(isLoading)
    {
      history := [];
      saved := Some([]);
    }
  }
}
