/**
 * `guess_mediatype`: classifies an uploaded file by its extension and, when
 * Telegram reports one, its MIME type, into one of four kinds.
 */
module Media {
  import opened Wrappers

  /** `str.lower()` on one character, for the ASCII letters. */
  function LowerChar(c: char): char
  {
    if 'A' <= c <= 'Z' then (c as int - 'A' as int + 'a' as int) as char else c
  }

  /** `s.lower()`. */
  function Lower(s: string): (r: string)
    ensures |r| == |s|
    ensures forall i :: 0 <= i < |s| ==> r[i] == LowerChar(s[i])
  {
    if s == [] then [] else [LowerChar(s[0])] + Lower(s[1..])
  }

  /** Lowering twice is lowering once. */
  lemma LowerIdempotent(s: string)
    ensures Lower(Lower(s)) == Lower(s)
  {
    var once := Lower(s);
    var twice := Lower(once);
    forall i | 0 <= i < |s| ensures twice[i] == once[i] {
    }
  }

  /** `needle in haystack` for strings. */
  predicate Contains(haystack: string, needle: string)
    decreases |haystack|
  {
    (|needle| <= |haystack| && haystack[..|needle|] == needle)
    || (haystack != [] && Contains(haystack[1..], needle))
  }

  const ImageExtensions: seq<string> := [".png", ".jpg", ".jpeg", ".webp", ".tif", ".tiff"]

  /** The four kinds the rest of the bot dispatches on. */
  const Kinds: set<string> := {"pdf", "docx", "image", "bin"}

  /** `mime and "pdf" in mime`: a MIME type is given, is not empty and mentions pdf. */
  predicate MimeSaysPdf(mime: Option<string>)
  {
    mime.Some? && mime.value != [] && Contains(mime.value, "pdf")
  }

  /** `guess_mediatype(ext, mime)`. */
  function GuessMediatype(ext: string, mime: Option<string>): (kind: string)
    ensures kind in Kinds
  {
    var e := Lower(ext);
    if MimeSaysPdf(mime) then "pdf"
    else if e in [".pdf"] then "pdf"
    else if e in [".docx"] then "docx"
    else if e in ImageExtensions then "image"
    else "bin"
  }

  /** The known extensions, as a table from lower-case extension to kind. */
  const KnownExtensions: map<string, string> :=
    map[".pdf" := "pdf", ".docx" := "docx", ".png" := "image", ".jpg" := "image",
        ".jpeg" := "image", ".webp" := "image", ".tif" := "image", ".tiff" := "image"]

  /**
   * The classification read as a table lookup: a MIME type mentioning pdf
   * decides, whatever the extension; otherwise the lower-cased extension is
   * looked up, and anything not in the table is `bin`.
   */
  lemma GuessMediatypeIsLookup(ext: string, mime: Option<string>)
    ensures MimeSaysPdf(mime) ==> GuessMediatype(ext, mime) == "pdf"
    ensures !MimeSaysPdf(mime) && Lower(ext) in KnownExtensions ==>
              GuessMediatype(ext, mime) == KnownExtensions[Lower(ext)]
    ensures !MimeSaysPdf(mime) && Lower(ext) !in KnownExtensions ==> GuessMediatype(ext, mime) == "bin"
  {
  }

  /** A MIME type that mentions pdf gives `pdf`, whatever the extension. */
  lemma PdfMimeDecides(ext: string, mime: string)
    requires Contains(mime, "pdf")
    ensures GuessMediatype(ext, Some(mime)) == "pdf"
  {
  }

  /** The extension is matched without regard to case. */
  lemma GuessIgnoresCase(ext: string, mime: Option<string>)
    ensures GuessMediatype(Lower(ext), mime) == GuessMediatype(ext, mime)
  {
    LowerIdempotent(ext);
  }
}
