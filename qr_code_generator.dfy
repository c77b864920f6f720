/**
 * The QR code generator (src/app/araclar/qr-kod/QRCodeGenerator.tsx): the
 * text is turned into a PNG data URL and an SVG document by the `qrcode`
 * library, behind two gates: blank text clears the outputs, and text longer
 * than 2000 code units is refused. The blank test looks at the trimmed text,
 * the length test at the text as typed.
 */
module QrCodeGenerator {
  import opened Wrappers
  import JsRuntime

  const MaxInputLength := 2000
  const TooLongMessage := "Metin çok uzun. Maksimum 2000 karakter."
  const GenerationFailedMessage := "QR kod oluşturulurken bir hata oluştu."

  /** The three ways `generateQR` can go. */
  datatype Gate = Blank | TooLong | Encode

  function GateOf(input: string): (g: Gate)
    ensures g == Blank <==> JsRuntime.IsBlank(input)
    ensures g == TooLong <==> !JsRuntime.IsBlank(input) && JsRuntime.Length(input) > MaxInputLength
    ensures g == Encode <==> !JsRuntime.IsBlank(input) && JsRuntime.Length(input) <= MaxInputLength
  {
    JsRuntime.TrimEmptyIffBlank(input);
    if JsRuntime.Trim(input) == "" then Blank
    else if JsRuntime.Length(input) > MaxInputLength then TooLong
    else Encode
  }

  /** The limit is inclusive. */
  lemma ExactLimitPasses(input: string)
    requires !JsRuntime.IsBlank(input) && JsRuntime.Length(input) == MaxInputLength
    ensures GateOf(input) == Encode
  {
  }

  /**
   * Trailing white space counts against the limit even though the blank test
   * ignores it: the same trimmed text can pass or be refused.
   */
  lemma TrailingWhiteSpaceCounts(text: string, pad: string)
    requires !JsRuntime.IsBlank(text) && JsRuntime.IsBlank(pad)
    requires JsRuntime.Length(text) <= MaxInputLength < JsRuntime.Length(text) + JsRuntime.Length(pad)
    ensures JsRuntime.Trim(text + pad) == JsRuntime.Trim(text)
    ensures GateOf(text) == Encode && GateOf(text + pad) == TooLong
  {
    JsRuntime.TrimAppendBlank(text, pad);
    JsRuntime.LengthAppend(text, pad);
    assert !JsRuntime.IsBlank(text + pad) by {
      var i :| 0 <= i < |text| && !JsRuntime.IsWhiteSpace(text[i]);
      assert (text + pad)[i] == text[i];
    }
  }

  /**
   * The component state; `encoderCalls` counts the calls to the `qrcode`
   * library (one `Promise.all` of `toDataURL` and `toString` counts once).
   */
  class QrGenerator {
    var input: string
    var qrDataUrl: string
    var qrSvg: string
    var error: string
    var isGenerating: bool
    var encoderCalls: nat

    constructor ()
      ensures input == "" && qrDataUrl == "" && qrSvg == "" && error == "" && !isGenerating && encoderCalls == 0
    {
      input, qrDataUrl, qrSvg, error, isGenerating, encoderCalls := "", "", "", "", false, 0;
    }

    method SetInput(s: string)
      modifies this
      ensures input == s
      ensures qrDataUrl == old(qrDataUrl) && qrSvg == old(qrSvg) && error == old(error)
      ensures isGenerating == old(isGenerating) && encoderCalls == old(encoderCalls)
    {
      input := s;
    }

    /**
     * `generateQR`, once its 300 ms debounce has fired: the two early returns
     * are the gates GateOf tells apart. `encode` stands for the two `qrcode`
     * calls: the PNG data URL and the SVG text, or None where either rejects.
     */
    method GenerateQr(encode: string -> Option<(string, string)>)
      modifies this
      ensures input == old(input)
      ensures GateOf(input) == Blank ==>
        qrDataUrl == "" && qrSvg == "" && error == "" &&
        isGenerating == old(isGenerating) && encoderCalls == old(encoderCalls)
      ensures GateOf(input) == TooLong ==>
        error == TooLongMessage && qrDataUrl == old(qrDataUrl) && qrSvg == old(qrSvg) &&
        isGenerating == old(isGenerating) && encoderCalls == old(encoderCalls)
      ensures GateOf(input) == Encode ==> !isGenerating && encoderCalls == old(encoderCalls) + 1
      ensures GateOf(input) == Encode && encode(input).Some? ==>
        qrDataUrl == encode(input).value.0 && qrSvg == encode(input).value.1 && error == ""
      ensures GateOf(input) == Encode && encode(input).None? ==>
        error == GenerationFailedMessage && qrDataUrl == old(qrDataUrl) && qrSvg == old(qrSvg)
    {
      var gate := GateOf(input);
      if gate == Blank {
        qrDataUrl := "";
        qrSvg := "";
        error := "";
        return;
      }
      if gate == TooLong {
        error := TooLongMessage;
        return;
      }
      isGenerating := true;
      error := "";
      var result := encode(input);
      encoderCalls := encoderCalls + 1;
      if result.Some? {
        qrDataUrl := result.value.0;
        qrSvg := result.value.1;
      } else {
        error := GenerationFailedMessage;
      }
      isGenerating := false;
    }

    /** `clearInput`. */
    method ClearInput()
      modifies this
      ensures input == "" && qrDataUrl == "" && qrSvg == "" && error == ""
      ensures isGenerating == old(isGenerating) && encoderCalls == old(encoderCalls)
    {
      input := "";
      qrDataUrl := "";
      qrSvg := "";
      error := "";
    }

    /** `downloadPNG`: the link target, or None (nothing happens) while there is no PNG. */
    method DownloadPng() returns (href: Option<string>)
      ensures href.None? <==> qrDataUrl == ""
      ensures href.Some? ==> href.value == qrDataUrl
    {
      if qrDataUrl == "" {
        return None;
      }
      return Some(qrDataUrl);
    }

    /** `downloadSVG`: the content of the SVG blob, or None while there is no SVG. */
    method DownloadSvg() returns (content: Option<string>)
      ensures content.None? <==> qrSvg == ""
      ensures content.Some? ==> content.value == qrSvg
    {
      if qrSvg == "" {
        return None;
      }
      return Some(qrSvg);
    }
  }

  /** Neither download does anything on a fresh page, and clearing returns the page to that state. */
  method DownloadsDisabledUntilGenerated() returns (png: Option<string>, svg: Option<string>,
                                                   pngAfterClear: Option<string>, inputAfterClear: string)
    ensures png.None? && svg.None?
    ensures pngAfterClear.None? && inputAfterClear == ""
  {
    var page := new QrGenerator();
    png := page.DownloadPng();
    svg := page.DownloadSvg();
    page.SetInput("test text");
    page.ClearInput();
    pngAfterClear := page.DownloadPng();
    inputAfterClear := page.input;
  }
}
