# online-tools: the logic of six browser tools, in Dafny

The online-tools site is a set of Turkish-language tools that run only in the browser. Most of each component is JSX, but six of them also hold a small piece of stateful logic. This project models that logic and proves what the components promise about it:

- **URL shortener** (`url-kisalt`). The input is trimmed and gets `https://` when it has no http(s) scheme. It is then checked with the URL parser and given a random six-character code. The new record goes to the front of a history capped at ten, and the history is mirrored into local storage.
- **Password generator** (`sifre-ureteci`). It builds a character set from four toggles, with an optional filter for the confusable characters `0O1lI` and a lower-case fallback. It draws `length` characters from that set, and scores a password on a 0..9 point scale mapped to four strength levels.
- **Base64 tool** (`base64`). It encodes text as `btoa(unescape(encodeURIComponent(s)))`, which is UTF-8 (RFC 3629, section 3) followed by Base64 (RFC 4648, section 4). It decodes with the reverse chain, and has a mode switch and three fixed error messages.
- **Image compressor** (`gorsel-sikistir`). A MIME allow-list is checked before a 10 MiB size limit. A file that fails is never handed to the compression library, and clearing the page revokes both object URLs. Moving the quality slider recompresses the current file, but the memoised `compressImage` the handler holds still carries the quality from before the move.
- **Image compressor page** (`gorsel-sikistirma`). An `image/` prefix check comes before the allow-list, the saving is shown as a rounded percentage, and a reset revokes the object URLs. Releasing the quality slider recompresses the current file at the new quality.
- **QR code generator** (`qr-kod`). Blank text clears the outputs, text over 2000 UTF-16 code units is refused, and anything else goes to the encoder. The blank test looks at the trimmed text; the length test looks at the text as typed.

The state of each component except the password generator is a `class` whose methods mirror its event handlers. The computations are functions, and the properties are lemmas about those functions. The language runtime the components lean on has its own modules, each written from its standard:

- `JsRuntime`: ECMAScript white space and `trim`, `.length` in UTF-16 code units, `Math.floor(Math.random() * n)` and `Math.round`.
- `Utf16` and `Utf8`: the two encodings, with both round trips and a characterisation of ill-formed input.
- `Base64`: RFC 4648 encoding, and the WHATWG forgiving-base64 decoding that `atob` performs.

The environment enters as parameters. These are the values `Math.random()` returns (reals in [0, 1)), `Date.now()`, the URL parser (reduced to the protocol it reports), the image-compression library, the QR library, and the history read back from local storage. Counter fields (`compressorCalls`, `encoderCalls`) and the lists `revoked` and `alerts` record which library or browser calls a handler makes.

The URL shortener does not reuse the record of a URL submitted twice and does not move it to the front of the history. It also never compares a new code with the codes already stored, so two records may share a code (`src/app/araclar/url-kisalt/UrlShortener.tsx:107-118`).

## Model

| member | source | states |
|---|---|---|
| UrlShortener.GenerateShortCode | src/app/araclar/url-kisalt/UrlShortener.tsx:25-32 | the code is exactly 6 characters, each the alphabet character at `floor(r * 62)` for its random value `r`, so every character comes from the 62-character alphabet |
| UrlShortener.Normalize | src/app/araclar/url-kisalt/UrlShortener.tsx:86-96 | None exactly when the input is blank (ECMAScript white space only); otherwise the result starts with `http://` or `https://`, ignoring case |
| UrlShortener.NormalizeKeepsScheme | src/app/araclar/url-kisalt/UrlShortener.tsx:91-96 | a trimmed input that already has an http(s) scheme is used only trimmed |
| UrlShortener.NormalizePrependsExactlyWhenMissing | src/app/araclar/url-kisalt/UrlShortener.tsx:91-96 | for non-blank input, `https://` is prepended if and only if the trimmed input has no http(s) scheme, ignoring case |
| UrlShortener.NormalizeIdempotent | src/app/araclar/url-kisalt/UrlShortener.tsx:91-96 | normalising a normalised URL changes nothing |
| UrlShortener.NormalizeAsIfPrefixed | src/app/araclar/url-kisalt/UrlShortener.tsx:91-96 | an input without a scheme gives the same candidate as the same input typed with `https://` in front |
| UrlShortener.HasHttpScheme | src/app/araclar/url-kisalt/UrlShortener.tsx:94 | a string that passes `/^https?:\/\//i` has at least 7 characters and starts with `http`, ignoring case |
| UrlShortener.IsValidUrl | src/app/araclar/url-kisalt/UrlShortener.tsx:34-41 | true exactly when the parser succeeds and reports protocol `http:` or `https:`; a parse failure is false |
| UrlShortener.AddToHistory | src/app/araclar/url-kisalt/UrlShortener.tsx:118 | the new history has length min(old + 1, 10), the new record first, then the first min(old, 9) old records in their order |
| UrlShortener.AddAllKeepsMostRecent | src/app/araclar/url-kisalt/UrlShortener.tsx:118 | after any sequence of adds the history is the ten most recent records, newest first, followed by older history, cut to ten |
| UrlShortener.RemoveId | src/app/araclar/url-kisalt/UrlShortener.tsx:143 | a record stays if and only if its id differs from the deleted one; the list never grows |
| UrlShortener.RemoveIdAppend | src/app/araclar/url-kisalt/UrlShortener.tsx:143 | deletion works piecewise over concatenation, so the kept records keep their relative order |
| UrlShortener.RemoveIdAbsent | src/app/araclar/url-kisalt/UrlShortener.tsx:142-146 | deleting an id that no record has leaves the history unchanged |
| UrlShortener.RemoveIdIdempotent | src/app/araclar/url-kisalt/UrlShortener.tsx:142-146 | deleting the same id twice is the same as deleting it once |
| UrlShortener.ShortUrl | src/app/araclar/url-kisalt/UrlShortener.tsx:153-155 | the link starts with the origin and ends with the code, with `/go/` between them |
| UrlShortener.ShortUrlInjective | src/app/araclar/url-kisalt/UrlShortener.tsx:153-155 | different codes give different links on the same origin |
| UrlShortener.UrlShortenerPage.constructor | src/app/araclar/url-kisalt/UrlShortener.tsx:61-71 | the history is the stored list when one was read back, empty otherwise, and nothing has been saved yet |
| UrlShortener.UrlShortenerPage.SetInput | src/app/araclar/url-kisalt/UrlShortener.tsx:209 | typing sets the input and changes nothing else |
| UrlShortener.UrlShortenerPage.Shorten | src/app/araclar/url-kisalt/UrlShortener.tsx:82-124 | blank input sets "Lütfen bir URL girin" and changes neither history nor storage. A candidate the parser rejects sets the invalid-URL message and changes neither. Otherwise the record has id = short code = the generated code and the normalised URL, the history becomes AddToHistory of it, and the stored copy equals the history |
| UrlShortener.UrlShortenerPage.ClearInput | src/app/araclar/url-kisalt/UrlShortener.tsx:136-140 | input, message and last result are cleared; history and storage are untouched |
| UrlShortener.UrlShortenerPage.DeleteFromHistory | src/app/araclar/url-kisalt/UrlShortener.tsx:142-146 | the history becomes RemoveId of the old one and the same list is saved |
| UrlShortener.UrlShortenerPage.ClearHistory | src/app/araclar/url-kisalt/UrlShortener.tsx:148-151 | the history is empty and the empty list is saved |
| PasswordGenerator.StrengthDisplayInjective | src/app/araclar/sifre-ureteci/PasswordGenerator.tsx:24-48 | the colour, background and label mappings are each one-to-one over the four levels |
| PasswordGenerator.StrengthClasses | src/app/araclar/sifre-ureteci/PasswordGenerator.tsx:24-48 | the text class of a level is `text-` and its bar class `bg-`, each followed by the same hue of that level |
| PasswordGenerator.StrengthLabel | src/app/araclar/sifre-ureteci/PasswordGenerator.tsx:148-159 | every level has a non-empty label; StrengthDisplayInjective shows no two share one |
| PasswordGenerator.Strength | src/app/araclar/sifre-ureteci/PasswordGenerator.tsx:50-69 | weak exactly for the empty password or a score below 3; very strong exactly for a non-empty password scoring 7 or more |
| PasswordGenerator.LengthPoints | src/app/araclar/sifre-ureteci/PasswordGenerator.tsx:55-58 | at most 4 points, and none exactly below length 8 |
| PasswordGenerator.Score | src/app/araclar/sifre-ureteci/PasswordGenerator.tsx:53-63 | the score lies in 0..9 |
| PasswordGenerator.LevelOf | src/app/araclar/sifre-ureteci/PasswordGenerator.tsx:65-68 | cok_guclu if and only if score ≥ 7, guclu for 5..6, orta for 3..4, zayif below 3 |
| PasswordGenerator.CalculateStrength | src/app/araclar/sifre-ureteci/PasswordGenerator.tsx:50-69 | the imperatively accumulated score gives the level Strength defines: zayif for the empty password, otherwise LevelOf(Score) |
| PasswordGenerator.StrengthIsLevelOfScore | src/app/araclar/sifre-ureteci/PasswordGenerator.tsx:50-69 | the level of every password, the empty one included, is LevelOf of its score |
| PasswordGenerator.LevelOfMonotone | src/app/araclar/sifre-ureteci/PasswordGenerator.tsx:65-68 | a higher score never gives a lower level |
| PasswordGenerator.ScoreMonotone | src/app/araclar/sifre-ureteci/PasswordGenerator.tsx:55-63 | appending characters never lowers the score |
| PasswordGenerator.StrengthMonotone | src/app/araclar/sifre-ureteci/PasswordGenerator.tsx:50-69 | appending characters never lowers the strength level |
| PasswordGenerator.ScoreLowerBound | src/app/araclar/sifre-ureteci/PasswordGenerator.tsx:55-63 | a non-empty password scores at least its length points plus one |
| PasswordGenerator.DefaultLengthAtLeastOrta | src/app/araclar/sifre-ureteci/PasswordGenerator.tsx:105 | every password of the default length 16 is at least orta |
| PasswordGenerator.RemoveAmbiguous | src/app/araclar/sifre-ureteci/PasswordGenerator.tsx:86-91 | the filtered set is no longer and holds none of `0O1lI` |
| PasswordGenerator.RemoveAmbiguousMembers | src/app/araclar/sifre-ureteci/PasswordGenerator.tsx:86-91 | a character survives the filter if and only if it was there and is not one of `0O1lI` |
| PasswordGenerator.RemoveAmbiguousAppend | src/app/araclar/sifre-ureteci/PasswordGenerator.tsx:86-91 | filtering a concatenation filters each part |
| PasswordGenerator.RemoveAmbiguousNone | src/app/araclar/sifre-ureteci/PasswordGenerator.tsx:86-91 | a set without confusable characters is left unchanged |
| PasswordGenerator.UppercaseUnambiguous | src/app/araclar/sifre-ureteci/PasswordGenerator.tsx:16 | the upper-case set has no confusable character |
| PasswordGenerator.LowercaseUnambiguous | src/app/araclar/sifre-ureteci/PasswordGenerator.tsx:17 | the lower-case set has no confusable character |
| PasswordGenerator.SymbolsUnambiguous | src/app/araclar/sifre-ureteci/PasswordGenerator.tsx:19 | the symbol set has no confusable character |
| PasswordGenerator.NumbersFiltered | src/app/araclar/sifre-ureteci/PasswordGenerator.tsx:18-20 | the filter turns the digits into `23456789` |
| PasswordGenerator.FilteredSetsNonEmpty | src/app/araclar/sifre-ureteci/PasswordGenerator.tsx:16-20 | each of the four sets keeps at least one character after filtering |
| PasswordGenerator.CharSet | src/app/araclar/sifre-ureteci/PasswordGenerator.tsx:79-93 | the character set is never empty |
| PasswordGenerator.CharSetUnambiguous | src/app/araclar/sifre-ureteci/PasswordGenerator.tsx:86-93 | with the filter on, the set holds none of `0O1lI`, the lower-case fallback included |
| PasswordGenerator.FallbackIffNoneEnabled | src/app/araclar/sifre-ureteci/PasswordGenerator.tsx:86-93 | the lower-case fallback is taken if and only if no set is enabled |
| PasswordGenerator.CharSetMembers | src/app/araclar/sifre-ureteci/PasswordGenerator.tsx:79-93 | with no set enabled the characters are exactly the lower-case set; otherwise a character is in the set if and only if an enabled set has it and the filter does not remove it |
| PasswordGenerator.BuildCharSet | src/app/araclar/sifre-ureteci/PasswordGenerator.tsx:79-93 | the string built by the appends equals CharSet |
| PasswordGenerator.GeneratePassword | src/app/araclar/sifre-ureteci/PasswordGenerator.tsx:71-102 | the password is the draw from CharSet of the options, one character per random value, and has exactly `length` characters |
| PasswordGenerator.DrawCharacters | src/app/araclar/sifre-ureteci/PasswordGenerator.tsx:95-101 | the loop appends, for each random value r, the character at `floor(r * chars.length)`, giving exactly the draw |
| PasswordGenerator.GeneratedCharacters | src/app/araclar/sifre-ureteci/PasswordGenerator.tsx:71-102 | a generated password has one character per random value, every character is in the character set, and with the filter on none is one of `0O1lI` |
| Utf16.DecodeEncode | src/app/araclar/base64/Base64Encoder.tsx:35 | decoding the UTF-16 form of any scalar sequence gives it back |
| Utf16.EncodeDecode | src/app/araclar/base64/Base64Encoder.tsx:35 | a string that decodes re-encodes to itself |
| Utf16.DecodeFailsIffIllFormed | src/app/araclar/base64/Base64Encoder.tsx:35 | decoding (the step where `encodeURIComponent` throws) fails if and only if the string is not the UTF-16 form of any text |
| Utf16.Encode | src/app/araclar/base64/Base64Encoder.tsx:35 | each scalar value takes one or two code units |
| Utf16.Decode | src/app/araclar/base64/Base64Encoder.tsx:35 | a successful decode yields one value per one or two code units |
| Utf8.DecodeEncode | src/app/araclar/base64/Base64Encoder.tsx:35 | decoding the UTF-8 octets of any text gives it back |
| Utf8.EncodeDecode | src/app/araclar/base64/Base64Encoder.tsx:39 | octets that decode are the UTF-8 form of the decoded text |
| Utf8.DecodeFailsIffIllFormed | src/app/araclar/base64/Base64Encoder.tsx:39 | decoding fails if and only if the octets are not the UTF-8 form of any text |
| Utf8.Encode | src/app/araclar/base64/Base64Encoder.tsx:35 | each scalar value takes one to four octets |
| Utf8.Decode | src/app/araclar/base64/Base64Encoder.tsx:39 | a successful decode yields one value per one to four octets |
| Base64.EncodeShape | src/app/araclar/base64/Base64Encoder.tsx:35 | the output has 4 * ceil(n / 3) characters, each from the 64-character alphabet or `=` |
| Base64.DecodeEncode | src/app/araclar/base64/Base64Encoder.tsx:35-39 | `atob` of `btoa` of any octets gives the octets back |
| Base64.DecodeRejectsForeign | src/app/araclar/base64/Base64Encoder.tsx:39 | input holding a character that is not white space, `=` or an alphabet character is rejected |
| Base64.Encode | src/app/araclar/base64/Base64Encoder.tsx:35 | `btoa` output fills whole groups of four characters, and is empty exactly for no octets |
| Base64.StripPadding | src/app/araclar/base64/Base64Encoder.tsx:39 | `atob` removes at most two characters, only from the end, and only `=` |
| Base64.Decode | src/app/araclar/base64/Base64Encoder.tsx:39 | a successful `atob` yields at most three octets per four characters; input that is white space only gives no octets |
| Base64Encoder.EncodeTextFailsIffIllFormed | src/app/araclar/base64/Base64Encoder.tsx:35 | the encode step fails if and only if the input has a lone surrogate |
| Base64Encoder.EncodeTextShape | src/app/araclar/base64/Base64Encoder.tsx:35 | the encoded text uses only the alphabet and `=`, and has 4 * ceil(n / 3) characters for n UTF-8 octets |
| Base64Encoder.RoundTrip | src/app/araclar/base64/Base64Encoder.tsx:35-39 | decoding the encoding of any text that encodes gives the text back |
| Base64Encoder.DecodeTextFails | src/app/araclar/base64/Base64Encoder.tsx:39-46 | decoding fails if and only if `atob` rejects the input or its octets are not UTF-8 |
| Base64Encoder.EncodeText | src/app/araclar/base64/Base64Encoder.tsx:33-36 | a successful encode has a length that is a multiple of four |
| Base64Encoder.DecodeText | src/app/araclar/base64/Base64Encoder.tsx:37-40 | a successful decode is well-formed UTF-16, with no lone surrogate |
| Base64Encoder.HelloEncodes | src/app/araclar/base64/__tests__/Base64Encoder.test.tsx:36-47 | "Hello" encodes to "SGVsbG8=" |
| Base64Encoder.HelloDecodes | src/app/araclar/base64/__tests__/Base64Encoder.test.tsx:49-66 | "SGVsbG8=" decodes to "Hello" |
| Base64Encoder.EncodeThenDecode | src/app/araclar/base64/__tests__/Base64Encoder.test.tsx:36-66 | on a fresh tool, converting a well-formed non-blank text shows its Base64 form, and converting that form in decode mode shows the text again with no error |
| Base64Encoder.RejectsForeignChar | src/app/araclar/base64/Base64Encoder.tsx:39 | any text holding a BMP character that is not white space, `=` or an alphabet character fails to decode |
| Base64Encoder.EncodeTextNotBlank | src/app/araclar/base64/Base64Encoder.tsx:27-36 | the encoding of a non-blank text is itself non-blank, so it passes the blank check in decode mode |
| Base64Encoder.InvalidExample | src/app/araclar/base64/__tests__/Base64Encoder.test.tsx:68-84 | "not-valid-base64!!!" is rejected by decoding |
| Base64Encoder.Base64Tool.constructor | src/app/araclar/base64/Base64Encoder.tsx:17-20 | the tool starts in encode mode with empty input, output and error |
| Base64Encoder.Base64Tool.SetInput | src/app/araclar/base64/Base64Encoder.tsx:161 | typing sets the input and changes nothing else |
| Base64Encoder.Base64Tool.Convert | src/app/araclar/base64/Base64Encoder.tsx:23-49 | blank input gives "Lütfen bir metin girin". Otherwise the output is the conversion of the current mode, or empty with that mode's message when it fails. Any error leaves the output empty, and mode and input are kept |
| Base64Encoder.Base64Tool.SetMode | src/app/araclar/base64/Base64Encoder.tsx:116-127 | the mode tabs change only the mode |
| Base64Encoder.Base64Tool.ClearAll | src/app/araclar/base64/Base64Encoder.tsx:62-66 | input, output and error are emptied; the mode is kept |
| Base64Encoder.Base64Tool.SwapMode | src/app/araclar/base64/Base64Encoder.tsx:68-72 | the mode flips, output and error are emptied, the input is kept |
| ImageCompressor.ValidateFile | src/app/araclar/gorsel-sikistir/ImageCompressor.tsx:36-44 | the format message if and only if the type is not accepted; the size message if and only if the type is accepted and the size exceeds 10 MiB; no message exactly otherwise |
| ImageCompressor.SizeLimitInclusive | src/app/araclar/gorsel-sikistir/ImageCompressor.tsx:40-43 | an accepted file of 10 485 760 bytes passes; one byte more gives the size message |
| ImageCompressor.FormatCheckedFirst | src/app/araclar/gorsel-sikistir/ImageCompressor.tsx:37-42 | a wrong type reports the format message whatever the size |
| ImageCompressor.ImageCompressorPage.constructor | src/app/araclar/gorsel-sikistir/ImageCompressor.tsx:29-33 | no result, not busy, no error, quality 0.8, not dragging, and no library or revoke call yet |
| ImageCompressor.ImageCompressorPage.CompressImage | src/app/araclar/gorsel-sikistir/ImageCompressor.tsx:46-86 | a file that fails validation sets the message and leaves the busy flag, the result and the library untouched. Otherwise the library is called once, the result or the failure message is recorded, and the busy flag ends false |
| ImageCompressor.ImageCompressorPage.CompressAt | src/app/araclar/gorsel-sikistir/ImageCompressor.tsx:46-86 | the body of `compressImage` for the quality it captured: validation first, then one library call at that quality, recording the result or the failure message |
| ImageCompressor.ImageCompressorPage.HandleQualityChange | src/app/araclar/gorsel-sikistir/ImageCompressor.tsx:114-120 | the new quality is stored; with a result, its original file is compressed again at the quality from before the change, and without one nothing else changes |
| ImageCompressor.ImageCompressorPage.SelectFile | src/app/araclar/gorsel-sikistir/ImageCompressor.tsx:88-102 | without a file nothing happens; a drop ends dragging; with a file the state is that of `compressImage` on it: a validation message leaves the result, otherwise the library runs once at the current quality and its output becomes the result with the error cleared, or its failure sets the error |
| ImageCompressor.ImageCompressorPage.SetDragging | src/app/araclar/gorsel-sikistir/ImageCompressor.tsx:104-112 | drag over and leave change only the dragging flag |
| ImageCompressor.ImageCompressorPage.ClearImage | src/app/araclar/gorsel-sikistir/ImageCompressor.tsx:133-143 | the result is dropped, the error cleared, and both object URLs of the old result revoked if there was one |
| ImageCompressorPage.TypeCheck | src/app/araclar/gorsel-sikistirma/ImageCompressor.tsx:60-69 | "Lütfen bir görsel dosyası seçin." if and only if the type does not start with `image/`; the format message if and only if it does but is not accepted; no alert exactly for the three accepted types |
| ImageCompressorPage.AcceptedAreImages | src/app/araclar/gorsel-sikistirma/ImageCompressor.tsx:60-66 | every accepted type passes the prefix check, so the checks never overlap |
| ImageCompressorPage.CompressionRatio | src/app/araclar/gorsel-sikistirma/ImageCompressor.tsx:33-35 | undefined exactly for an original size of 0; otherwise 100 * (o - c) / o rounded half up |
| ImageCompressorPage.RatioEndpoints | src/app/araclar/gorsel-sikistirma/ImageCompressor.tsx:33-35 | no saving is 0 %, a compressed size of 0 is 100 % |
| ImageCompressorPage.RatioInRange | src/app/araclar/gorsel-sikistirma/ImageCompressor.tsx:33-35 | for 0 ≤ c ≤ o and o > 0 the ratio lies in 0..100 |
| ImageCompressorPage.RatioAntitone | src/app/araclar/gorsel-sikistirma/ImageCompressor.tsx:33-35 | a larger compressed size never shows a larger saving |
| ImageCompressorPage.CompressorPage.constructor | src/app/araclar/gorsel-sikistirma/ImageCompressor.tsx:19-22 | no result, quality 80, not busy, no drag, and no alert, library or revoke call yet |
| ImageCompressorPage.CompressorPage.HandleFile | src/app/araclar/gorsel-sikistirma/ImageCompressor.tsx:59-81 | a rejected type raises its alert and leaves the busy flag, the result and the library untouched. Only accepted types call the library (with quality / 100), and that call records the result or raises the failure alert; the busy flag ends false |
| ImageCompressorPage.CompressorPage.SelectFile | src/app/araclar/gorsel-sikistirma/ImageCompressor.tsx:83-109 | without a file nothing happens; a drop ends the drag state; with a file the state is that of `handleFile` on it: a rejected type adds its alert and keeps the result, otherwise the library runs once at quality / 100 and its output becomes the result, or its failure adds the failure alert |
| ImageCompressorPage.CompressorPage.SetDragActive | src/app/araclar/gorsel-sikistirma/ImageCompressor.tsx:93-103 | drag over and leave change only the drag flag |
| ImageCompressorPage.CompressorPage.SetQuality | src/app/araclar/gorsel-sikistirma/ImageCompressor.tsx:223 | the slider's `onChange` sets the quality and changes nothing else |
| ImageCompressorPage.CompressorPage.HandleQualityChange | src/app/araclar/gorsel-sikistirma/ImageCompressor.tsx:111-123 | without a result nothing changes; with one, its original file is compressed once more at the current quality / 100, and a success replaces the result while a failure keeps it with no alert; the busy flag ends false |
| ImageCompressorPage.CompressorPage.HandleReset | src/app/araclar/gorsel-sikistirma/ImageCompressor.tsx:136-145 | the result is dropped and both its object URLs revoked if there was one |
| QrCodeGenerator.GateOf | src/app/araclar/qr-kod/QRCodeGenerator.tsx:18-28 | blank if and only if the input is white space only; refused if and only if it is not blank and over 2000 code units; encoded exactly otherwise |
| QrCodeGenerator.ExactLimitPasses | src/app/araclar/qr-kod/QRCodeGenerator.tsx:25 | a non-blank input of exactly 2000 code units goes to the encoder |
| QrCodeGenerator.TrailingWhiteSpaceCounts | src/app/araclar/qr-kod/QRCodeGenerator.tsx:18-25 | text within the limit plus trailing white space over it trims to the same text, yet the first is encoded and the second refused |
| QrCodeGenerator.QrGenerator.constructor | src/app/araclar/qr-kod/QRCodeGenerator.tsx:10-15 | empty input, outputs and error, not generating, and no encoder call yet |
| QrCodeGenerator.QrGenerator.SetInput | src/app/araclar/qr-kod/QRCodeGenerator.tsx:165 | typing sets the input and changes nothing else |
| QrCodeGenerator.QrGenerator.GenerateQr | src/app/araclar/qr-kod/QRCodeGenerator.tsx:17-60 | blank input clears both outputs and the error without calling the encoder. Input that is too long sets "Metin çok uzun…" and keeps both outputs. Otherwise the encoder is called once, and either both outputs are set or the failure message is shown with the outputs kept; the busy flag ends false |
| QrCodeGenerator.QrGenerator.ClearInput | src/app/araclar/qr-kod/QRCodeGenerator.tsx:107-112 | input, both outputs and the error are emptied |
| QrCodeGenerator.QrGenerator.DownloadPng | src/app/araclar/qr-kod/QRCodeGenerator.tsx:70-79 | no download exactly while there is no PNG; otherwise the link points at the PNG data URL |
| QrCodeGenerator.QrGenerator.DownloadSvg | src/app/araclar/qr-kod/QRCodeGenerator.tsx:81-93 | no download exactly while there is no SVG; otherwise the blob holds the SVG text |
| QrCodeGenerator.DownloadsDisabledUntilGenerated | src/app/araclar/qr-kod/__tests__/QRCodeGenerator.test.tsx:61-85 | a fresh page offers neither download, and after typing and clearing the input is empty and there is still no PNG |
| JsRuntime.Trim | src/app/araclar/url-kisalt/UrlShortener.tsx:86-91 | the result is no longer than the input, and neither starts nor ends with white space |
| JsRuntime.TrimStartDropsWhiteSpace | src/app/araclar/url-kisalt/UrlShortener.tsx:86-91 | everything cut off by `trimStart` is white space |
| JsRuntime.TrimEndDropsWhiteSpace | src/app/araclar/url-kisalt/UrlShortener.tsx:86-91 | everything cut off by `trimEnd` is white space |
| JsRuntime.TrimIsStartThenEnd | src/app/araclar/url-kisalt/UrlShortener.tsx:86-91 | `trim` equals `trimEnd` after `trimStart` |
| JsRuntime.TrimBlankAround | src/app/araclar/url-kisalt/UrlShortener.tsx:86-91 | the input is white space, then the trimmed text, then white space: the result is a contiguous part of the input and only white space lies outside it |
| JsRuntime.TrimNoOp | src/app/araclar/url-kisalt/UrlShortener.tsx:91 | a string that neither starts nor ends with white space is its own trim |
| JsRuntime.TrimEmptyIffBlank | src/app/araclar/qr-kod/QRCodeGenerator.tsx:18 | the trimmed text is empty if and only if the text is white space only |
| JsRuntime.TrimIdempotent | src/app/araclar/url-kisalt/UrlShortener.tsx:91 | trimming twice is trimming once |
| JsRuntime.TrimAppendBlank | src/app/araclar/qr-kod/QRCodeGenerator.tsx:18 | trailing white space after non-blank text does not change the trimmed text |
| JsRuntime.Length | src/app/araclar/qr-kod/QRCodeGenerator.tsx:25 | `.length` counts UTF-16 code units: between one and two per character |
| JsRuntime.LengthIsUtf16 | src/app/araclar/qr-kod/QRCodeGenerator.tsx:25 | `.length` is the number of code units in the UTF-16 form of the string |
| JsRuntime.LengthAppend | src/app/araclar/qr-kod/QRCodeGenerator.tsx:25 | the length of a concatenation is the sum of the lengths |
| JsRuntime.RandomIndex | src/app/araclar/sifre-ureteci/PasswordGenerator.tsx:97 | `Math.floor(Math.random() * n)` is a valid index below n |
| JsRuntime.RoundDiv | src/app/araclar/gorsel-sikistirma/ImageCompressor.tsx:34 | `Math.round(p / q)` is the integer r with r - 1/2 ≤ p / q < r + 1/2 |
| JsRuntime.RoundDivMonotone | src/app/araclar/gorsel-sikistirma/ImageCompressor.tsx:34 | rounding keeps the order: p1 ≤ p2 gives round(p1 / q) ≤ round(p2 / q) |
| JsRuntime.RoundDivOfMultiple | src/app/araclar/gorsel-sikistirma/ImageCompressor.tsx:34 | rounding an exact quotient gives it back |

## Left out

- JSX rendering, styling and icons (`getStrengthIcon`), which are layout only.
- Clipboard copying and the `copied` flags with their 2 s timers: these are browser I/O.
- The timers are collapsed into single steps. The 500 ms delay of the URL shortener and the 300 ms debounce that triggers the QR generator each become one sequential handler. The brief `true` phase of `isLoading`, `isCompressing` and `isGenerating` is therefore not observable; only their final values are stated.
- `localStorage` and JSON encoding. The history read on mount is an `Option` parameter of the constructor, and each save is recorded as the list passed to it.
- The WHATWG URL parser, `browser-image-compression` and `qrcode` are foreign libraries. Each is an oracle parameter that succeeds with a value or fails.
- `URL.createObjectURL`, `Blob` and the anchor downloads are browser I/O. Object URLs are supplied by the caller, and revocation is recorded in `revoked`.
- `formatBytes`, `formatFileSize` and `formatDate` are floating-point or locale formatting for display. So is the floating-point `compressionRatio` stored by the first image compressor.
- The slider's text value is taken as already converted: `parseFloat` in the first compressor, whose quality is a fraction starting at 0.8, and `Number` in the second, whose quality is a whole percentage starting at 80 that the slider keeps to 10..100 in steps of 5. Neither range is enforced by the model.
- The password generator component state, and the effect that regenerates on every option change, are left out. The page only calls the modelled `generatePassword` and `calculateStrength`; the length range 8..64 is enforced by the slider, not by the function.
- The QR text box's `maxLength` attribute is left out: the gate in `generateQR` is modelled on its own.
- ImageCompressorPage.CompressionRatio: the model rounds the exact quotient 100 * (o - c) / o. The source computes it in IEEE doubles, which can land just below an exact half and then round one lower (o = 200, c = 143 shows 28 there, 29 here).
- The URL, password and QR inputs are Dafny strings of Unicode scalar values, so a JavaScript string holding a lone surrogate cannot be given to them; only the Base64 tool works on UTF-16 code units. None of their checks depend on such strings.
- Async ordering: handlers run to completion one at a time; overlapping compressions or QR generations are not modelled.
