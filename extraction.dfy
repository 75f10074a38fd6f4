/**
 * Text extraction at submission time (server/server.js): the extension of the
 * stored upload is taken with Node's `path.extname`, lower-cased, and
 * `extractTextFromBuffer` dispatches on it. The DOCX converter and the PDF
 * parser are foreign libraries; they are passed in as functions that either
 * produce the document's text or fail.
 */
module Extraction {
  import opened Wrappers
  import opened Text

  type Bytes = seq<bv8>

  /** A document converter: the extracted text, or None when it throws. */
  type Parser = Bytes -> Option<string>

  datatype FileKind = Docx | Pdf

  datatype ExtractError = UnsupportedFileType | ExtractionFailed

  /** Index of the last occurrence of `c` in `s`. */
  function LastIndexOf(s: string, c: char): (r: Option<nat>)
    ensures r.Some? ==> r.value < |s| && s[r.value] == c
    ensures r.Some? ==> forall k :: r.value < k < |s| ==> s[k] != c
    ensures r.None? ==> forall k :: 0 <= k < |s| ==> s[k] != c
  {
    if s == [] then None
    else if s[|s| - 1] == c then Some(|s| - 1)
    else LastIndexOf(s[..|s| - 1], c)
  }

  /** The path without its trailing separators. */
  function TrimTrailingSlashes(p: string): (r: string)
    ensures r <= p
    ensures r == [] || r[|r| - 1] != '/'
  {
    if p != [] && p[|p| - 1] == '/' then TrimTrailingSlashes(p[..|p| - 1]) else p
  }

  /** The last component of a path (after trailing separators are ignored). */
  function BaseName(p: string): (r: string)
    ensures forall k :: 0 <= k < |r| ==> r[k] != '/'
  {
    var q := TrimTrailingSlashes(p);
    match LastIndexOf(q, '/')
    case None => q
    case Some(i) => q[i + 1..]
  }

  /**
   * Node's POSIX `path.extname`: from the last '.' of the last component to
   * its end; empty when that component has no '.', when its only leading
   * characters before the last '.' are absent (a dot-file such as ".env"),
   * or when the component is "..".
   */
  function ExtName(p: string): (r: string)
    ensures r == [] || (r[0] == '.' && forall k :: 0 < k < |r| ==> r[k] != '.' && r[k] != '/')
  {
    var b := BaseName(p);
    match LastIndexOf(b, '.')
    case None => ""
    case Some(j) => if j == 0 || b == ".." then "" else b[j..]
  }

  /** `extractTextFromBuffer`'s choice of converter, on an extension as given. */
  function Dispatch(ext: string): (r: Result<FileKind, ExtractError>)
    ensures r == Success(Docx) <==> ext == ".docx"
    ensures r == Success(Pdf) <==> ext == ".pdf"
    ensures r.Failure? <==> ext != ".docx" && ext != ".pdf"
    ensures r.Failure? ==> r.error == UnsupportedFileType
  {
    if ext == ".docx" then Success(Docx)
    else if ext == ".pdf" then Success(Pdf)
    else Failure(UnsupportedFileType)
  }

  /** `extractTextFromBuffer(buffer, ext)`: dispatch, then run the chosen converter. */
  function ExtractText(buffer: Bytes, ext: string, docx: Parser, pdf: Parser): (r: Result<string, ExtractError>)
    ensures r == Failure(UnsupportedFileType) <==> Dispatch(ext).Failure?
    ensures r.Success? <==> (ext == ".docx" && docx(buffer).Some?) || (ext == ".pdf" && pdf(buffer).Some?)
    ensures r.Success? && ext == ".docx" ==> r.value == docx(buffer).value
    ensures r.Success? && ext == ".pdf" ==> r.value == pdf(buffer).value
  {
    match Dispatch(ext)
    case Failure(e) => Failure(e)
    case Success(kind) =>
      var out := if kind == Docx then docx(buffer) else pdf(buffer);
      if out.Some? then Success(out.value) else Failure(ExtractionFailed)
  }

  /** The extension the submit handler dispatches on: `path.extname(filePath).toLowerCase()`. */
  function UploadExtension(path: string): (r: string)
    ensures |r| == |ExtName(path)|
    ensures r == [] || (r[0] == '.' && forall k :: 0 < k < |r| ==> r[k] != '.' && r[k] != '/')
    ensures forall k :: 0 <= k < |r| ==> !IsUpper(r[k])
  {
    ToLower(ExtName(path))
  }

  /**
   * Dispatch after lower-casing is case-insensitive: extensions that differ
   * only in case (".PDF" and ".pdf", ".Docx" and ".docx") select the same
   * converter, and an extension is accepted exactly when its lower-case form
   * is ".docx" or ".pdf".
   */
  lemma DispatchIgnoresCase(e1: string, e2: string)
    requires EqualIgnoringCase(e1, e2)
    ensures Dispatch(ToLower(e1)) == Dispatch(ToLower(e2))
    ensures Dispatch(ToLower(e1)).Success? <==> ToLower(e1) == ".docx" || ToLower(e1) == ".pdf"
  {
    ToLowerIgnoresCase(e1, e2);
  }

  /** Upper-case extensions are accepted. */
  lemma UpperCaseExtensionsAccepted()
    ensures Dispatch(ToLower(".PDF")) == Success(Pdf)
    ensures Dispatch(ToLower(".DOCX")) == Success(Docx)
    ensures Dispatch(ToLower(".Txt")) == Failure(UnsupportedFileType)
  {
    assert ToLower(".PDF") == ".pdf";
    assert ToLower(".DOCX") == ".docx";
    assert ToLower(".Txt") == ".txt";
  }

  /**
   * The stored upload is named `<stem><ext>` where the stem is
   * `<original base name>-<Date.now()>` and `ext` the original extension.
   * Whatever directory it sits in, `path.extname` of that path gives back the
   * original extension, so the dispatch sees what the applicant uploaded.
   */
  lemma {:induction false} ExtNameOfStoredUpload(stem: string, ext: string)
    requires stem != [] && stem[|stem| - 1] != '/' && stem[|stem| - 1] != '.'
    requires |ext| >= 1 && ext[0] == '.'
    requires forall k :: 1 <= k < |ext| ==> ext[k] != '.' && ext[k] != '/'
    ensures ExtName(stem + ext) == ext
  {
    var p := stem + ext;
    forall k | |stem| - 1 <= k < |p| ensures p[k] != '/' {
      if k >= |stem| { assert p[k] == ext[k - |stem|]; }
    }
    var b := BaseName(p);
    BaseNameKeepsTail(p, |stem| - 1);
    var j := |b| - |ext|;
    assert b[j - 1..] == p[|stem| - 1..];
    assert b[j - 1] == stem[|stem| - 1];
    forall k | j <= k < |b| ensures b[k] == ext[k - j] {
      assert b[k] == b[j - 1..][k - j + 1] == p[|stem| - 1..][k - j + 1];
    }
    assert b[j..] == ext;
    ExtNameAtLastDot(p, j);
  }

  /** A dot in the base name, preceded by a non-dot and followed by no dot, starts the extension. */
  lemma ExtNameAtLastDot(p: string, j: nat)
    requires 0 < j < |BaseName(p)|
    requires BaseName(p)[j] == '.' && BaseName(p)[j - 1] != '.'
    requires forall k :: j < k < |BaseName(p)| ==> BaseName(p)[k] != '.'
    ensures ExtName(p) == BaseName(p)[j..]
  {
    LastDotIsUnique(BaseName(p), j);
  }

  /** A slash-free tail of a path stays inside its base name. */
  lemma BaseNameKeepsTail(p: string, t: nat)
    requires t < |p|
    requires forall k :: t <= k < |p| ==> p[k] != '/'
    ensures |BaseName(p)| >= |p| - t && BaseName(p)[|BaseName(p)| - (|p| - t)..] == p[t..]
  {
    assert TrimTrailingSlashes(p) == p;
    var slash := LastIndexOf(p, '/');
    assert slash.Some? ==> slash.value < t;
  }

  /** A position holding `c` with no `c` after it is the last index of `c`. */
  lemma {:induction false} LastDotIsUnique(s: string, j: nat)
    requires j < |s| && s[j] == '.'
    requires forall k :: j < k < |s| ==> s[k] != '.'
    ensures LastIndexOf(s, '.') == Some(j)
  {
    if j < |s| - 1 {
      LastDotIsUnique(s[..|s| - 1], j);
    }
  }
}
