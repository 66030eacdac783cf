/**
 * Serving archive content to the web view (`CHMURLSchemeHandler`,
 * Sources/CHMReader/CHMURLSchemeHandler.swift): the request path is
 * recovered from the URL, the entry extracted, text content stripped of a
 * UTF-8 byte-order mark and labelled with its encoding, and everything
 * typed by the MIME table.
 */
module UrlScheme {

  import opened Common
  import opened Strings
  import opened ChmFile
  import Paths

  // ---------------------------------------------------------------------
  // MIME types
  // ---------------------------------------------------------------------

  /** The MIME table, keyed by lower-cased extension. */
  function MimeForExtension(ext: string): string {
    if ext == "htm" || ext == "html" then "text/html"
    else if ext == "css" then "text/css"
    else if ext == "js" then "application/javascript"
    else if ext == "png" then "image/png"
    else if ext == "jpg" || ext == "jpeg" then "image/jpeg"
    else if ext == "gif" then "image/gif"
    else if ext == "bmp" then "image/bmp"
    else if ext == "svg" then "image/svg+xml"
    else if ext == "ico" then "image/x-icon"
    else if ext == "xml" then "application/xml"
    else if ext == "txt" then "text/plain"
    else "application/octet-stream"
  }

  /** `mimeType(for:)`: the table entry of the path's lower-cased extension. */
  function MimeType(path: string): string {
    MimeForExtension(Lower(Paths.PathExtension(path)))
  }

  /** The text types, the only ones whose byte-order mark is stripped, are pages, style sheets and plain text. */
  lemma TextTypes(ext: string)
    ensures HasPrefix(MimeForExtension(ext), "text/") <==> ext in ["htm", "html", "css", "txt"]
  {
    var m := MimeForExtension(ext);
    if ext in ["htm", "html", "css", "txt"] {
      assert m[..5] == "text/";
    } else {
      assert m[0] == 'a' || m[0] == 'i';
      assert m[..5][0] != 't';
    }
  }

  /** The type of `dir/base.ext` is the table entry of `ext` lower-cased: `.HTM` and `.htm` are both pages. */
  lemma MimeTypeOfName(dir: string, base: string, ext: string)
    requires base != [] && '/' !in base && '/' !in ext && '.' !in ext && ext != []
    ensures MimeType(dir + "/" + base + "." + ext) == MimeForExtension(Lower(ext))
  {
    Paths.PathExtensionOfName(dir, base, ext);
  }

  // ---------------------------------------------------------------------
  // The request path
  // ---------------------------------------------------------------------

  /** The URL path with a leading "/content" dropped, as the handler does it: by characters, not by segment. */
  function ContentPathAsWritten(urlPath: string): (r: string)
    ensures r != ""
  {
    var p := if HasPrefix(urlPath, "/content") then urlPath[8..] else urlPath;
    if p == "" then "/" else p
  }

  /**
   * The web view asks for `/contents.htm` (host "content", path
   * "/contents.htm"); dropping "/content" by characters leaves "s.htm",
   * which names no entry.
   */
  lemma ContentsPageMisrouted()
    ensures ContentPathAsWritten("/contents.htm") == "s.htm"
  {
    assert "/contents.htm"[..8] == "/content";
    assert "/contents.htm"[8..] == "s.htm";
  }

  /** The URL path begins with the whole segment "/content". */
  predicate HasContentSegment(urlPath: string) {
    HasPrefix(urlPath, "/content") && (|urlPath| == 8 || urlPath[8] == '/')
  }

  /** The URL path with a leading "/content" segment dropped; an empty path is the root. */
  function ContentPath(urlPath: string): (r: string)
    ensures r != ""
  {
    var p := if HasContentSegment(urlPath) then urlPath[8..] else urlPath;
    if p == "" then "/" else p
  }

  /**
   * Every archive path that does not itself lie under "/content/" is
   * served as itself, and one under the "/content" segment with that
   * segment dropped.
   */
  lemma ContentPathKeepsArchivePaths(q: string)
    requires HasPrefix(q, "/")
    ensures !HasContentSegment(q) ==> ContentPath(q) == q
    ensures ContentPath("/content" + q) == q
  {
    var p := "/content" + q;
    assert p[..8] == "/content" && p[8] == '/';
    assert p[8..] == q;
  }

  /** The two rules agree except on paths that begin with "/content" followed by something other than "/". */
  lemma ContentPathAgrees(urlPath: string)
    requires !HasPrefix(urlPath, "/content") || HasContentSegment(urlPath)
    ensures ContentPath(urlPath) == ContentPathAsWritten(urlPath)
  {
  }

  /** The path that is extracted: the content path, percent-decoded when that succeeds. */
  function RequestPath(urlPath: string, unescape: string -> Option<string>): string {
    var p := ContentPath(urlPath);
    unescape(p).GetOr(p)
  }

  // ---------------------------------------------------------------------
  // Responses
  // ---------------------------------------------------------------------

  const BOM: Bytes := [0xEF, 0xBB, 0xBF]

  predicate HasBOM(data: Bytes) {
    |data| >= 3 && data[..3] == BOM
  }

  /** The data with a leading UTF-8 byte-order mark removed. */
  function StripBOM(data: Bytes): (r: Bytes)
    ensures HasBOM(data) ==> BOM + r == data
    ensures !HasBOM(data) ==> r == data
  {
    if HasBOM(data) then
      assert data == data[..3] + data[3..];
      data[3..]
    else data
  }

  /** What the handler reports and sends. */
  datatype Response = Response(mimeType: string, expectedContentLength: nat, textEncodingName: Option<string>, body: Bytes)

  /**
   * The handler's `start` for a request whose URL path is `urlPath` (None
   * when the request has no URL that `URLComponents` accepts).
   */
  method Serve(a: Archive, utf8: Bytes -> Option<string>, unescape: string -> Option<string>, urlPath: Option<string>)
    returns (r: Result<Response, ChmError>)
    ensures urlPath.None? ==> r == Err(InvalidData)
    ensures urlPath.Some? ==>
              var path := RequestPath(urlPath.value, unescape);
              (r.Err? <==> ExtractDataAt(a, path).Err?) &&
              (r.Err? ==> r.error == ExtractDataAt(a, path).error) &&
              (r.Ok? ==>
                 var data := ExtractDataAt(a, path).value;
                 var text := HasPrefix(MimeType(path), "text/");
                 r.value.mimeType == MimeType(path) &&
                 r.value.body == (if text then StripBOM(data) else data) &&
                 r.value.textEncodingName == (if !text then None
                                              else if utf8(r.value.body).Some? then Some("utf-8")
                                              else Some("windows-1252")))
    ensures r.Ok? ==> r.value.expectedContentLength == |r.value.body|
  {
    if urlPath.None? {
      return Err(InvalidData);
    }
    var path := urlPath.value;
    if HasContentSegment(path) {
      path := path[8..];
    }
    if path == "" {
      path := "/";
    }
    path := unescape(path).GetOr(path);
    var extracted := ExtractDataAt(a, path);
    if extracted.Err? {
      return Err(extracted.error);
    }
    var data := extracted.value;
    var mimeType := MimeType(path);
    var encoding: Option<string> := None;
    if HasPrefix(mimeType, "text/") {
      if |data| >= 3 && data[..3] == BOM {
        data := data[3..];
      }
      if utf8(data).Some? {
        encoding := Some("utf-8");
      } else {
        encoding := Some("windows-1252");
      }
    }
    return Ok(Response(mimeType, |data|, encoding, data));
  }

  /** Only text with a mark loses bytes, and exactly the three of the mark. */
  lemma BodyIsDataLessMark(mimeType: string, data: Bytes)
    ensures var body := if HasPrefix(mimeType, "text/") then StripBOM(data) else data;
            (HasPrefix(mimeType, "text/") && HasBOM(data) ==> |body| == |data| - 3 && BOM + body == data) &&
            (!(HasPrefix(mimeType, "text/") && HasBOM(data)) ==> body == data)
  {
  }
}
