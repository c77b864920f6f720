/** The parts of a browser `File` the image tools look at. */
module BrowserFile {
  datatype File = File(name: string, mimeType: string, size: nat)

  /** An object URL handed out by `URL.createObjectURL`, kept only as its text. */
  type ObjectUrl = string

  /** The formats both image tools accept. */
  const AcceptedFormats: seq<string> := ["image/jpeg", "image/png", "image/webp"]
}
