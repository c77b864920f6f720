/**
 * The Base64 tool (src/app/araclar/base64/Base64Encoder.tsx): a text box, a
 * mode switch and a convert button. Encoding is
 * `btoa(unescape(encodeURIComponent(input)))`, that is UTF-16 to scalar
 * values to UTF-8 octets to Base64; decoding is
 * `decodeURIComponent(escape(atob(input)))`, the same steps reversed.
 */
module Base64Encoder {
  import opened Wrappers
  import opened Unicode
  import JsRuntime
  import Utf16
  import Utf8
  import Base64

  datatype Mode = Encode | Decode

  const EmptyInputMessage := "Lütfen bir metin girin"
  const InvalidBase64Message := "Geçersiz Base64 formatı. Lütfen doğru bir Base64 kodu girin."
  const ConversionErrorMessage := "Dönüştürme hatası. Lütfen farklı bir metin deneyin."

  /** The encode branch of `convert`; None where `encodeURIComponent` throws (a lone surrogate). */
  function EncodeText(input: JsString): (r: Option<JsString>)
    ensures r.Some? ==> |r.value| % 4 == 0
  {
    match Utf16.Decode(input)
    case None => None
    case Some(text) => Some(Base64.Encode(Utf8.Encode(text)))
  }

  /**
   * The decode branch of `convert`; None where `atob` rejects the input or the
   * octets it yields are not well-formed UTF-8.
   */
  function DecodeText(input: JsString): (r: Option<JsString>)
    ensures r.Some? ==> Utf16.Decode(r.value).Some?
  {
    match Base64.Decode(input)
    case None => None
    case Some(octets) =>
      match Utf8.Decode(octets)
      case None => None
      case Some(text) =>
        Utf16.DecodeEncode(text);
        Some(Utf16.Encode(text))
  }

  /** Encoding fails exactly on a string that is not well-formed UTF-16. */
  lemma EncodeTextFailsIffIllFormed(input: JsString)
    ensures EncodeText(input).None? <==> forall text :: Utf16.Encode(text) != input
  {
    Utf16.DecodeFailsIffIllFormed(input);
  }

  /**
   * The output of encoding is the RFC 4648 encoding of the UTF-8 octets of the
   * input: only alphabet characters and `=`, 4 * ceil(n / 3) characters long.
   */
  lemma EncodeTextShape(input: JsString)
    requires EncodeText(input).Some?
    ensures var n := |Utf8.Encode(Utf16.Decode(input).value)|;
      var out := EncodeText(input).value;
      |out| == 4 * ((n + 2) / 3) &&
      forall i :: 0 <= i < |out| ==> Base64.IsAlphabetChar(out[i]) || out[i] == Base64.Pad
  {
    Base64.EncodeShape(Utf8.Encode(Utf16.Decode(input).value));
  }

  /** Decoding what encoding produced gives back the original text. */
  lemma RoundTrip(input: JsString)
    requires EncodeText(input).Some?
    ensures DecodeText(EncodeText(input).value) == Some(input)
  {
    var text := Utf16.Decode(input).value;
    var octets := Utf8.Encode(text);
    Base64.DecodeEncode(octets);
    Utf8.DecodeEncode(text);
    Utf16.EncodeDecode(input, text);
  }

  /** Decoding fails exactly when `atob` fails or its octets are not the UTF-8 form of any text. */
  lemma DecodeTextFails(input: JsString)
    ensures DecodeText(input).None? <==>
      Base64.Decode(input).None? || forall text :: Utf8.Encode(text) != Base64.Decode(input).value
  {
    if Base64.Decode(input).Some? {
      Utf8.DecodeFailsIffIllFormed(Base64.Decode(input).value);
    }
  }

  /** The scalar values of "Hello" are ASCII, so they are their own UTF-16 and UTF-8 forms. */
  lemma HelloScalars()
    ensures Utf16.Encode([72, 101, 108, 108, 111]) == [72, 101, 108, 108, 111]
    ensures Utf8.Encode([72, 101, 108, 108, 111]) == [72, 101, 108, 108, 111]
  {
    var hello: seq<Scalar> := [72, 101, 108, 108, 111];
    assert forall i :: 0 <= i < |hello| ==> hello[i] < 0x80;
    Utf16.EncodeBmp(hello);
    Utf8.EncodeAscii(hello);
  }

  lemma HelloUnits()
    ensures Utf16.FromString("Hello") == [72, 101, 108, 108, 111]
  {
    assert Scalars("Hello") == [72, 101, 108, 108, 111];
    HelloScalars();
  }

  lemma EncodedHelloUnits()
    ensures Utf16.FromString("SGVsbG8=") == [83, 71, 86, 115, 98, 71, 56, 61]
  {
    var encoded := Scalars("SGVsbG8=");
    assert encoded == [83, 71, 86, 115, 98, 71, 56, 61];
    Utf16.EncodeBmp(encoded);
  }

  lemma HelloOctets()
    ensures Base64.Encode([72, 101, 108, 108, 111]) == [83, 71, 86, 115, 98, 71, 56, 61]
  {
    var octets: seq<Byte> := [72, 101, 108, 108, 111];
    assert octets[3..] == [108, 111];
    assert Base64.ToSextets([108, 111]) == [27, 6, 60];
    var vs := Base64.ToSextets(octets);
    assert vs == [18, 6, 21, 44, 27, 6, 60];
    assert Base64.Chars(vs) == [83, 71, 86, 115, 98, 71, 56];
  }

  /** The example checked in the component's tests: "Hello" encodes to "SGVsbG8=". */
  lemma HelloEncodes()
    ensures EncodeText(Utf16.FromString("Hello")) == Some(Utf16.FromString("SGVsbG8="))
  {
    HelloUnits();
    EncodedHelloUnits();
    HelloOctets();
    HelloScalars();
    Utf16.DecodeEncode([72, 101, 108, 108, 111]);
  }

  /** The example checked in the component's tests: "SGVsbG8=" decodes to "Hello". */
  lemma HelloDecodes()
    ensures DecodeText(Utf16.FromString("SGVsbG8=")) == Some(Utf16.FromString("Hello"))
  {
    HelloEncodes();
    HelloUnits();
    RoundTrip([72, 101, 108, 108, 111]);
  }

  /** A text with a character outside the alphabet, such as `-`, is rejected by decoding. */
  lemma InvalidExample()
    ensures DecodeText(Utf16.FromString("not-valid-base64!!!")) == None
  {
    var s := "not-valid-base64!!!";
    assert s[3] == '-';
    RejectsForeignChar(s, 3);
  }

  /** Decoding rejects every text holding a character that is not white space, padding or in the alphabet. */
  lemma RejectsForeignChar(s: string, i: nat)
    requires i < |s| && s[i] as int < 0x1_0000
    requires !Base64.IsAsciiWhiteSpace(s[i] as int) && s[i] as int != Base64.Pad && !Base64.IsAlphabetChar(s[i] as int)
    ensures DecodeText(Utf16.FromString(s)) == None
  {
    Utf16.FromStringHas(s, i);
    Base64.DecodeRejectsForeign(Utf16.FromString(s), s[i] as int);
  }

  lemma AlphabetNotWhiteSpace(u: CodeUnit)
    requires Base64.IsAlphabetChar(u) || u == Base64.Pad
    ensures !JsRuntime.IsWhiteSpaceCode(u)
  {
  }

  /** The encoding of a non-blank text is not blank, so decode mode accepts it. */
  lemma EncodeTextNotBlank(input: JsString)
    requires !JsRuntime.IsBlankUnits(input) && EncodeText(input).Some?
    ensures !JsRuntime.IsBlankUnits(EncodeText(input).value)
  {
    var text := Utf16.Decode(input).value;
    Utf16.EncodeDecode(input, text);
    assert text != [];
    var octets := Utf8.Encode(text);
    var out := EncodeText(input).value;
    Base64.EncodeShape(octets);
    assert |out| > 0;
    AlphabetNotWhiteSpace(out[0]);
  }

  /** The state of the component: its mode, the two text areas and the error line. */
  class Base64Tool {
    var mode: Mode
    var input: JsString
    var output: JsString
    var error: string

    constructor ()
      ensures mode == Encode && input == [] && output == [] && error == ""
    {
      mode, input, output, error := Encode, [], [], "";
    }

    /** Typing into the input area. */
    method SetInput(s: JsString)
      modifies this
      ensures input == s && mode == old(mode) && output == old(output) && error == old(error)
    {
      input := s;
    }

    /** The Encode and Decode tabs set the mode and clear nothing. */
    method SetMode(m: Mode)
      modifies this
      ensures mode == m && input == old(input) && output == old(output) && error == old(error)
    {
      mode := m;
    }

    /**
     * `convert`: clear both results, reject blank input, then run the
     * conversion of the current mode; a failure leaves the output empty and
     * shows the message of that mode.
     */
    method Convert()
      modifies this
      ensures mode == old(mode) && input == old(input)
      ensures error != "" ==> output == []
      ensures JsRuntime.IsBlankUnits(input) ==> error == EmptyInputMessage && output == []
      ensures !JsRuntime.IsBlankUnits(input) && mode == Encode ==>
        match EncodeText(input)
        case Some(out) => output == out && error == ""
        case None => output == [] && error == ConversionErrorMessage
      ensures !JsRuntime.IsBlankUnits(input) && mode == Decode ==>
        match DecodeText(input)
        case Some(out) => output == out && error == ""
        case None => output == [] && error == InvalidBase64Message
    {
      error := "";
      output := [];
      if JsRuntime.IsBlankUnits(input) {
        error := EmptyInputMessage;
        return;
      }
      var result := if mode == Encode then EncodeText(input) else DecodeText(input);
      if result.Some? {
        output := result.value;
      } else {
        error := if mode == Decode then InvalidBase64Message else ConversionErrorMessage;
      }
    }

    /** `clearAll`: empty input, output and error; keep the mode. */
    method ClearAll()
      modifies this
      ensures input == [] && output == [] && error == "" && mode == old(mode)
    {
      input := [];
      output := [];
      error := "";
    }

    /** `swapMode`: flip the mode and clear output and error; keep the input. */
    method SwapMode()
      modifies this
      ensures mode == (if old(mode) == Encode then Decode else Encode)
      ensures output == [] && error == "" && input == old(input)
    {
      mode := if mode == Encode then Decode else Encode;
      output := [];
      error := "";
    }
  }

  /** Encoding a text and converting the result in decode mode shows the text again. */
  method EncodeThenDecode(text: JsString) returns (encoded: JsString, shown: JsString, error: string)
    requires !JsRuntime.IsBlankUnits(text) && Utf16.Decode(text).Some?
    ensures EncodeText(text) == Some(encoded)
    ensures shown == text && error == ""
  {
    var tool := new Base64Tool();
    tool.SetInput(text);
    tool.Convert();
    RoundTrip(text);
    assert tool.error == "";
    encoded := tool.output;
    EncodeTextNotBlank(text);
    tool.SetMode(Decode);
    tool.SetInput(encoded);
    tool.Convert();
    shown, error := tool.output, tool.error;
  }
}
