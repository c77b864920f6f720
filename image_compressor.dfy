/**
 * The image compressor of src/app/araclar/gorsel-sikistir/ImageCompressor.tsx:
 * a file is checked for its format and size, handed to the compression
 * library, and the result is kept together with the two object URLs that
 * show it; clearing revokes those URLs.
 */
module ImageCompressor {
  import opened Wrappers
  import opened BrowserFile

  const MaxFileSizeMb := 10
  const MaxFileSize := MaxFileSizeMb * 1024 * 1024
  const FormatMessage := "Sadece JPG, PNG ve WebP formatları desteklenir."
  const SizeMessage := "Dosya boyutu 10MB'dan küçük olmalıdır."
  const CompressionFailedMessage := "Görsel sıkıştırılırken bir hata oluştu."

  datatype CompressedImage = CompressedImage(
    originalFile: File, compressedFile: File,
    originalSize: nat, compressedSize: nat,
    originalUrl: ObjectUrl, compressedUrl: ObjectUrl)

  /** `validateFile`: the message to show, or None when the file may be compressed. */
  function ValidateFile(file: File): (r: Option<string>)
    ensures r == Some(FormatMessage) <==> file.mimeType !in AcceptedFormats
    ensures r == Some(SizeMessage) <==> file.mimeType in AcceptedFormats && file.size > MaxFileSize
    ensures r == None <==> file.mimeType in AcceptedFormats && file.size <= MaxFileSize
  {
    if file.mimeType !in AcceptedFormats then Some(FormatMessage)
    else if file.size > MaxFileSize then Some(SizeMessage)
    else None
  }

  /** The size limit is inclusive: 10 MiB passes, one byte more does not. */
  lemma SizeLimitInclusive(name: string, mimeType: string)
    requires mimeType in AcceptedFormats
    ensures ValidateFile(File(name, mimeType, 10_485_760)) == None
    ensures ValidateFile(File(name, mimeType, 10_485_761)) == Some(SizeMessage)
  {
  }

  /** The format is checked first: a wrong type reports the format message whatever the size. */
  lemma FormatCheckedFirst(file: File, size: nat)
    requires file.mimeType !in AcceptedFormats
    ensures ValidateFile(file.(size := size)) == Some(FormatMessage)
  {
  }

  /**
   * The component state. `quality` is handed to the compression library
   * unchanged; `compressorCalls` counts the calls to it and `revoked` lists
   * the object URLs passed to `URL.revokeObjectURL`, oldest first.
   */
  class ImageCompressorPage {
    var compressedImage: Option<CompressedImage>
    var isCompressing: bool
    var error: string
    var quality: real
    var isDragging: bool
    var compressorCalls: nat
    var revoked: seq<ObjectUrl>

    constructor ()
      ensures compressedImage == None && !isCompressing && error == "" && quality == 0.8
      ensures !isDragging && compressorCalls == 0 && revoked == []
    {
      compressedImage, isCompressing, error, quality := None, false, "", 0.8;
      isDragging, compressorCalls, revoked := false, 0, [];
    }

    /**
     * `compressImage`. The library is `compress` (None where it throws) and
     * the two object URLs it would create are supplied by the caller. A file
     * that fails validation only sets the error: the library is not called
     * and the busy flag is not touched.
     */
    method CompressImage(file: File, compress: (File, real) -> Option<File>,
                         originalUrl: ObjectUrl, compressedUrl: ObjectUrl)
      modifies this
      ensures quality == old(quality) && isDragging == old(isDragging) && revoked == old(revoked)
      ensures ValidateFile(file).Some? ==>
        error == ValidateFile(file).value && compressedImage == old(compressedImage) &&
        isCompressing == old(isCompressing) && compressorCalls == old(compressorCalls)
      ensures ValidateFile(file).None? ==> !isCompressing && compressorCalls == old(compressorCalls) + 1
      ensures ValidateFile(file).None? && compress(file, quality).Some? ==>
        var out := compress(file, quality).value;
        error == "" &&
        compressedImage == Some(CompressedImage(file, out, file.size, out.size, originalUrl, compressedUrl))
      ensures ValidateFile(file).None? && compress(file, quality).None? ==>
        error == CompressionFailedMessage && compressedImage == old(compressedImage)
    {
      CompressAt(file, quality, compress, originalUrl, compressedUrl);
    }

    /** The body of `compressImage`, with the quality its closure captured as `q`. */
    method CompressAt(file: File, q: real, compress: (File, real) -> Option<File>,
                      originalUrl: ObjectUrl, compressedUrl: ObjectUrl)
      modifies this
      ensures quality == old(quality) && isDragging == old(isDragging) && revoked == old(revoked)
      ensures ValidateFile(file).Some? ==>
        error == ValidateFile(file).value && compressedImage == old(compressedImage) &&
        isCompressing == old(isCompressing) && compressorCalls == old(compressorCalls)
      ensures ValidateFile(file).None? ==> !isCompressing && compressorCalls == old(compressorCalls) + 1
      ensures ValidateFile(file).None? && compress(file, q).Some? ==>
        var out := compress(file, q).value;
        error == "" &&
        compressedImage == Some(CompressedImage(file, out, file.size, out.size, originalUrl, compressedUrl))
      ensures ValidateFile(file).None? && compress(file, q).None? ==>
        error == CompressionFailedMessage && compressedImage == old(compressedImage)
    {
      var validationError := ValidateFile(file);
      if validationError.Some? {
        error := validationError.value;
        return;
      }
      isCompressing := true;
      error := "";
      var result := compress(file, q);
      compressorCalls := compressorCalls + 1;
      if result.Some? {
        var out := result.value;
        compressedImage := Some(CompressedImage(file, out, file.size, out.size, originalUrl, compressedUrl));
      } else {
        error := CompressionFailedMessage;
      }
      isCompressing := false;
    }

    /** `handleFileSelect` and `handleDrop`: compress the first file, if there is one. */
    method SelectFile(file: Option<File>, dropped: bool, compress: (File, real) -> Option<File>,
                      originalUrl: ObjectUrl, compressedUrl: ObjectUrl)
      modifies this
      ensures isDragging == (if dropped then false else old(isDragging))
      ensures file.None? ==>
        compressedImage == old(compressedImage) && error == old(error) &&
        isCompressing == old(isCompressing) && compressorCalls == old(compressorCalls)
      ensures file.Some? ==> compressorCalls == old(compressorCalls) + (if ValidateFile(file.value).None? then 1 else 0)
      ensures file.Some? && ValidateFile(file.value).Some? ==>
        error == ValidateFile(file.value).value && compressedImage == old(compressedImage) &&
        isCompressing == old(isCompressing)
      ensures file.Some? && ValidateFile(file.value).None? ==> !isCompressing
      ensures file.Some? && ValidateFile(file.value).None? && compress(file.value, quality).Some? ==>
        var out := compress(file.value, quality).value;
        error == "" &&
        compressedImage == Some(CompressedImage(file.value, out, file.value.size, out.size, originalUrl, compressedUrl))
      ensures file.Some? && ValidateFile(file.value).None? && compress(file.value, quality).None? ==>
        error == CompressionFailedMessage && compressedImage == old(compressedImage)
      ensures quality == old(quality) && revoked == old(revoked)
    {
      if dropped {
        isDragging := false;
      }
      if file.Some? {
        CompressImage(file.value, compress, originalUrl, compressedUrl);
      }
    }

    /**
     * `handleQualityChange`: store the new slider value and, when there is a
     * result, compress its original file again. The `compressImage` the
     * handler holds was created with the quality before the change, so the
     * library receives the previous quality, not `newQuality`; the object URLs
     * of the replaced result are not revoked.
     */
    method HandleQualityChange(newQuality: real, compress: (File, real) -> Option<File>,
                               originalUrl: ObjectUrl, compressedUrl: ObjectUrl)
      modifies this
      ensures quality == newQuality && isDragging == old(isDragging) && revoked == old(revoked)
      ensures old(compressedImage).None? ==>
        compressedImage == None && error == old(error) &&
        isCompressing == old(isCompressing) && compressorCalls == old(compressorCalls)
      ensures old(compressedImage).Some? ==>
        var file := old(compressedImage).value.originalFile;
        (ValidateFile(file).Some? ==>
          error == ValidateFile(file).value && compressedImage == old(compressedImage) &&
          isCompressing == old(isCompressing) && compressorCalls == old(compressorCalls)) &&
        (ValidateFile(file).None? ==> !isCompressing && compressorCalls == old(compressorCalls) + 1) &&
        (ValidateFile(file).None? && compress(file, old(quality)).Some? ==>
          var out := compress(file, old(quality)).value;
          error == "" &&
          compressedImage == Some(CompressedImage(file, out, file.size, out.size, originalUrl, compressedUrl))) &&
        (ValidateFile(file).None? && compress(file, old(quality)).None? ==>
          error == CompressionFailedMessage && compressedImage == old(compressedImage))
    {
      var previous := quality;
      var image := compressedImage;
      quality := newQuality;
      if image.Some? {
        CompressAt(image.value.originalFile, previous, compress, originalUrl, compressedUrl);
      }
    }

    /** `handleDragOver` and `handleDragLeave`. */
    method SetDragging(over: bool)
      modifies this
      ensures isDragging == over
      ensures compressedImage == old(compressedImage) && error == old(error) && isCompressing == old(isCompressing)
      ensures quality == old(quality) && compressorCalls == old(compressorCalls) && revoked == old(revoked)
    {
      isDragging := over;
    }

    /** `clearImage`: revoke the two URLs of the current result, drop it and clear the error. */
    method ClearImage()
      modifies this
      ensures compressedImage == None && error == ""
      ensures revoked == old(revoked) +
        (if old(compressedImage).Some? then [old(compressedImage).value.originalUrl, old(compressedImage).value.compressedUrl] else [])
      ensures isCompressing == old(isCompressing) && quality == old(quality)
      ensures isDragging == old(isDragging) && compressorCalls == old(compressorCalls)
    {
      if compressedImage.Some? {
        revoked := revoked + [compressedImage.value.originalUrl];
        revoked := revoked + [compressedImage.value.compressedUrl];
      }
      compressedImage := None;
      error := "";
    }
  }
}
