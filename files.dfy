/** The browser `File` a page receives from its file input, and the size and
    MIME-type gate that Register.jsx and Verify.jsx both apply to it. */
module Files {
  import opened Wrappers
  import opened Js

  newtype byte = x: int | 0 <= x < 256

  /** What a FileReader produces for the file: its bytes, or the error
      event it fires instead. */
  datatype ReadOutcome = Loaded(bytes: seq<byte>) | ReadFailed(event: Thrown)

  /** A selected file: name, reported size in bytes, MIME type, content. */
  datatype File = File(name: string, size: nat, mimeType: string, content: ReadOutcome)

  /** 10 MiB, the largest accepted size. */
  const MaxFileSize: nat := 10 * 1024 * 1024

  const ValidTypes: seq<string> := ["image/jpeg", "image/png", "image/gif", "image/webp"]

  /** The two reasons a selected file is refused. */
  datatype Refusal = TooLarge | NotAnImage

  /** The message shown for each refusal. */
  function RefusalText(r: Refusal): string {
    match r
    case TooLarge => "File size must be less than 10MB"
    case NotAnImage => "Please select a valid image file (JPEG, PNG, GIF, WEBP)"
  }

  /** Why a selected file is refused, or None when it is accepted. The size
      test comes first, so an oversized file of a wrong type is refused as
      too large. */
  function SelectionError(f: File): (r: Option<Refusal>)
    ensures r == Some(TooLarge) <==> f.size > MaxFileSize
    ensures r == Some(NotAnImage) <==> f.size <= MaxFileSize && f.mimeType !in ValidTypes
    ensures r == None <==> f.size <= MaxFileSize && f.mimeType in ValidTypes
  {
    if f.size > MaxFileSize then Some(TooLarge)
    else if f.mimeType !in ValidTypes then Some(NotAnImage)
    else None
  }

  /** The limit is inclusive: a file of exactly 10 MiB passes, one byte
      more does not. */
  lemma SizeBoundary(f: File)
    requires f.mimeType in ValidTypes
    ensures f.size == 10485760 ==> SelectionError(f) == None
    ensures f.size == 10485761 ==> SelectionError(f) == Some(TooLarge)
  {
  }
}
