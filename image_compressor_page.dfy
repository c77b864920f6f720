/**
 * The second image compressor, src/app/araclar/gorsel-sikistirma/ImageCompressor.tsx:
 * two type checks that report through `alert`, compression at the quality of
 * the slider, the saving shown as a rounded percentage, and a reset that
 * revokes the object URLs of the result.
 */
module ImageCompressorPage {
  import opened Wrappers
  import opened BrowserFile
  import JsRuntime

  const ImagePrefix := "image/"
  const NotImageMessage := "Lütfen bir görsel dosyası seçin."
  const FormatMessage := "Desteklenen formatlar: JPG, PNG, WebP"
  const CompressionFailedMessage := "Görsel sıkıştırılırken bir hata oluştu."

  datatype CompressedImage = CompressedImage(
    originalFile: File, originalUrl: ObjectUrl, originalSize: nat,
    compressedUrl: ObjectUrl, compressedSize: nat, compressedFile: File)

  predicate IsImageType(mimeType: string)
  {
    |ImagePrefix| <= |mimeType| && mimeType[..|ImagePrefix|] == ImagePrefix
  }

  /** The alert `handleFile` raises before compressing, or None when the file goes on to compression. */
  function TypeCheck(mimeType: string): (r: Option<string>)
    ensures r.None? <==> mimeType in AcceptedFormats
    ensures r == Some(NotImageMessage) <==> !IsImageType(mimeType)
    ensures r == Some(FormatMessage) <==> IsImageType(mimeType) && mimeType !in AcceptedFormats
  {
    if !IsImageType(mimeType) then Some(NotImageMessage)
    else if mimeType !in AcceptedFormats then Some(FormatMessage)
    else None
  }

  /** Every accepted format already passes the first check, so the checks never overlap. */
  lemma AcceptedAreImages(mimeType: string)
    requires mimeType in AcceptedFormats
    ensures IsImageType(mimeType)
  {
  }

  /**
   * `calculateCompressionRatio`: `Math.round((o - c) / o * 100)` over exact
   * rationals. None for `o == 0`, where the division gives NaN or an infinity.
   */
  function CompressionRatio(original: nat, compressed: nat): (r: Option<int>)
    ensures r.None? <==> original == 0
    ensures r.Some? ==> JsRuntime.RoundDiv(100 * (original - compressed), original) == r.value
  {
    if original == 0 then None else Some(JsRuntime.RoundDiv(100 * (original - compressed), original))
  }

  /** No saving is 0 %, a compressed size of 0 is 100 %. */
  lemma RatioEndpoints(original: nat)
    requires original > 0
    ensures CompressionRatio(original, original) == Some(0)
    ensures CompressionRatio(original, 0) == Some(100)
  {
    JsRuntime.RoundDivOfMultiple(0, original);
    JsRuntime.RoundDivOfMultiple(100, original);
  }

  /** A file that did not grow shows a saving between 0 and 100 percent. */
  lemma RatioInRange(original: nat, compressed: nat)
    requires original > 0 && compressed <= original
    ensures 0 <= CompressionRatio(original, compressed).value <= 100
  {
    RatioAntitone(original, compressed, original);
    RatioAntitone(original, 0, compressed);
    RatioEndpoints(original);
  }

  /** The ratio never increases as the compressed size grows. */
  lemma RatioAntitone(original: nat, c1: nat, c2: nat)
    requires original > 0 && c1 <= c2
    ensures CompressionRatio(original, c2).value <= CompressionRatio(original, c1).value
  {
    JsRuntime.RoundDivMonotone(100 * (original - c2), 100 * (original - c1), original);
  }

  /**
   * The page state. `alerts` lists the messages passed to `alert`, oldest
   * first; `compressorCalls` counts the calls to the compression library and
   * `revoked` the object URLs passed to `URL.revokeObjectURL`.
   */
  class CompressorPage {
    var compressedImage: Option<CompressedImage>
    var quality: int
    var isCompressing: bool
    var dragActive: bool
    var alerts: seq<string>
    var compressorCalls: nat
    var revoked: seq<ObjectUrl>

    constructor ()
      ensures compressedImage == None && quality == 80 && !isCompressing && !dragActive
      ensures alerts == [] && compressorCalls == 0 && revoked == []
    {
      compressedImage, quality, isCompressing, dragActive := None, 80, false, false;
      alerts, compressorCalls, revoked := [], 0, [];
    }

    /**
     * `handleFile`. The library is `compress`, called with the file and
     * `quality / 100` (None where it throws), and the two object URLs it would
     * create are supplied by the caller. Only the three accepted formats reach
     * the library, and only then is the busy flag raised.
     */
    method HandleFile(file: File, compress: (File, real) -> Option<File>,
                      originalUrl: ObjectUrl, compressedUrl: ObjectUrl)
      modifies this
      ensures quality == old(quality) && dragActive == old(dragActive) && revoked == old(revoked)
      ensures TypeCheck(file.mimeType).Some? ==>
        alerts == old(alerts) + [TypeCheck(file.mimeType).value] &&
        compressedImage == old(compressedImage) && isCompressing == old(isCompressing) &&
        compressorCalls == old(compressorCalls)
      ensures TypeCheck(file.mimeType).None? ==> !isCompressing && compressorCalls == old(compressorCalls) + 1
      ensures TypeCheck(file.mimeType).None? && compress(file, quality as real / 100.0).Some? ==>
        var out := compress(file, quality as real / 100.0).value;
        alerts == old(alerts) &&
        compressedImage == Some(CompressedImage(file, originalUrl, file.size, compressedUrl, out.size, out))
      ensures TypeCheck(file.mimeType).None? && compress(file, quality as real / 100.0).None? ==>
        alerts == old(alerts) + [CompressionFailedMessage] && compressedImage == old(compressedImage)
    {
      if !IsImageType(file.mimeType) {
        alerts := alerts + [NotImageMessage];
        return;
      }
      if file.mimeType !in AcceptedFormats {
        alerts := alerts + [FormatMessage];
        return;
      }
      isCompressing := true;
      var result := compress(file, quality as real / 100.0);
      compressorCalls := compressorCalls + 1;
      if result.Some? {
        var out := result.value;
        compressedImage := Some(CompressedImage(file, originalUrl, file.size, compressedUrl, out.size, out));
      } else {
        alerts := alerts + [CompressionFailedMessage];
      }
      isCompressing := false;
    }

    /** `handleDrop` and `handleFileChange`: handle the first file, if there is one. */
    method SelectFile(file: Option<File>, dropped: bool, compress: (File, real) -> Option<File>,
                      originalUrl: ObjectUrl, compressedUrl: ObjectUrl)
      modifies this
      ensures dragActive == (if dropped then false else old(dragActive))
      ensures file.None? ==>
        compressedImage == old(compressedImage) && alerts == old(alerts) &&
        isCompressing == old(isCompressing) && compressorCalls == old(compressorCalls)
      ensures file.Some? ==>
        compressorCalls == old(compressorCalls) + (if TypeCheck(file.value.mimeType).None? then 1 else 0)
      ensures file.Some? && TypeCheck(file.value.mimeType).Some? ==>
        alerts == old(alerts) + [TypeCheck(file.value.mimeType).value] &&
        compressedImage == old(compressedImage) && isCompressing == old(isCompressing)
      ensures file.Some? && TypeCheck(file.value.mimeType).None? ==> !isCompressing
      ensures file.Some? && TypeCheck(file.value.mimeType).None? && compress(file.value, quality as real / 100.0).Some? ==>
        var out := compress(file.value, quality as real / 100.0).value;
        alerts == old(alerts) &&
        compressedImage == Some(CompressedImage(file.value, originalUrl, file.value.size, compressedUrl, out.size, out))
      ensures file.Some? && TypeCheck(file.value.mimeType).None? && compress(file.value, quality as real / 100.0).None? ==>
        alerts == old(alerts) + [CompressionFailedMessage] && compressedImage == old(compressedImage)
      ensures quality == old(quality) && revoked == old(revoked)
    {
      if dropped {
        dragActive := false;
      }
      if file.Some? {
        HandleFile(file.value, compress, originalUrl, compressedUrl);
      }
    }

    /** The slider's `onChange`: the new percentage, 10 to 100 in steps of 5 as the slider offers them. */
    method SetQuality(q: int)
      modifies this
      ensures quality == q
      ensures compressedImage == old(compressedImage) && isCompressing == old(isCompressing) && dragActive == old(dragActive)
      ensures alerts == old(alerts) && compressorCalls == old(compressorCalls) && revoked == old(revoked)
    {
      quality := q;
    }

    /**
     * `handleQualityChange`, run when the slider is released, after `onChange`
     * has stored the new quality: the original file of the current result is
     * compressed again at that quality. There is no type check here, a failure
     * is only logged (no alert) and keeps the old result, and the object URLs
     * of a replaced result are not revoked.
     */
    method HandleQualityChange(compress: (File, real) -> Option<File>,
                               originalUrl: ObjectUrl, compressedUrl: ObjectUrl)
      modifies this
      ensures quality == old(quality) && dragActive == old(dragActive) && revoked == old(revoked) && alerts == old(alerts)
      ensures old(compressedImage).None? ==>
        compressedImage == None && isCompressing == old(isCompressing) && compressorCalls == old(compressorCalls)
      ensures old(compressedImage).Some? ==> !isCompressing && compressorCalls == old(compressorCalls) + 1
      ensures old(compressedImage).Some? ==>
        var file := old(compressedImage).value.originalFile;
        match compress(file, quality as real / 100.0)
        case Some(out) =>
          compressedImage == Some(CompressedImage(file, originalUrl, file.size, compressedUrl, out.size, out))
        case None => compressedImage == old(compressedImage)
    {
      if compressedImage.Some? {
        var file := compressedImage.value.originalFile;
        isCompressing := true;
        var result := compress(file, quality as real / 100.0);
        compressorCalls := compressorCalls + 1;
        if result.Some? {
          var out := result.value;
          compressedImage := Some(CompressedImage(file, originalUrl, file.size, compressedUrl, out.size, out));
        }
        isCompressing := false;
      }
    }

    /** `handleDragOver` and `handleDragLeave`. */
    method SetDragActive(over: bool)
      modifies this
      ensures dragActive == over
      ensures compressedImage == old(compressedImage) && quality == old(quality) && isCompressing == old(isCompressing)
      ensures alerts == old(alerts) && compressorCalls == old(compressorCalls) && revoked == old(revoked)
    {
      dragActive := over;
    }

    /** `handleReset`: revoke the two URLs of the current result and drop it. */
    method HandleReset()
      modifies this
      ensures compressedImage == None
      ensures revoked == old(revoked) +
        (if old(compressedImage).Some? then [old(compressedImage).value.originalUrl, old(compressedImage).value.compressedUrl] else [])
      ensures quality == old(quality) && isCompressing == old(isCompressing) && dragActive == old(dragActive)
      ensures alerts == old(alerts) && compressorCalls == old(compressorCalls)
    {
      if compressedImage.Some? {
        revoked := revoked + [compressedImage.value.originalUrl];
        revoked := revoked + [compressedImage.value.compressedUrl];
      }
      compressedImage := None;
    }
  }
}
