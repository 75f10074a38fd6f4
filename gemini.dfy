/**
 * The text-and-image helper `geminiTextImage` (server/gemini-config.js):
 * the content parts sent to the model and the removal of a leading
 * `data:image/<type>;base64,` from the image string. The model call itself is
 * passed in as a function.
 */
module Gemini {
  import opened Wrappers

  /** The JSON values a request body can hold in `prompt` and `image`. */
  datatype JsValue = Undefined | Null | Bool(b: bool) | Num(n: int) | Str(s: string)

  /** JavaScript truthiness. */
  predicate Truthy(v: JsValue) {
    match v
    case Undefined => false
    case Null => false
    case Bool(b) => b
    case Num(n) => n != 0
    case Str(s) => s != ""
  }

  /** A content part: `{ text }` or `{ inlineData: { mimeType, data } }`. */
  datatype Part = TextPart(text: JsValue) | InlineData(mimeType: string, data: string)

  datatype GeminiError =
    | NotAString              // `image.replace` is not a function
    | ServiceError(message: string)

  /** What the helper resolves to: the model's text, or the caught error value. */
  datatype Answer = Answer(text: string) | ErrorValue(error: GeminiError)

  /** `model.generateContent(...)` followed by `response.text()`. */
  type Generator = seq<Part> -> Result<string, string>

  const Scheme := "data:image/"
  const Marker := ";base64,"
  const JpegMime := "image/jpeg"

  /** The regular-expression class `\w` (without the Unicode flag). */
  predicate WordChar(c: char) {
    'a' <= c <= 'z' || 'A' <= c <= 'Z' || '0' <= c <= '9' || c == '_'
  }

  /** Strings the pattern `data:image\/\w+;base64,` matches in full. */
  ghost predicate IsDataUriPrefix(p: string) {
    && |p| > |Scheme| + |Marker|
    && p[..|Scheme|] == Scheme
    && p[|p| - |Marker|..] == Marker
    && forall i :: |Scheme| <= i < |p| - |Marker| ==> WordChar(p[i])
  }

  /** Length of the run of word characters starting at `i`. */
  function WordRun(s: string, i: nat): (r: nat)
    requires i <= |s|
    ensures i + r <= |s|
    ensures forall k :: i <= k < i + r ==> WordChar(s[k])
    ensures i + r == |s| || !WordChar(s[i + r])
    decreases |s| - i
  {
    if i < |s| && WordChar(s[i]) then 1 + WordRun(s, i + 1) else 0
  }

  /** A run of word characters ended by a non-word character or the end is the run `WordRun` finds. */
  lemma {:induction false} WordRunExact(s: string, i: nat, j: nat)
    requires i <= j <= |s|
    requires forall k :: i <= k < j ==> WordChar(s[k])
    requires j == |s| || !WordChar(s[j])
    ensures WordRun(s, i) == j - i
    decreases j - i
  {
    if i < j {
      WordRunExact(s, i + 1, j);
    }
  }

  /** Length of the leading match of `^data:image\/\w+;base64,`, if there is one. */
  function DataUriPrefixLength(s: string): Option<nat> {
    if |s| >= |Scheme| && s[..|Scheme|] == Scheme then
      var k := WordRun(s, |Scheme|);
      var end := |Scheme| + k + |Marker|;
      if k > 0 && end <= |s| && s[|Scheme| + k..end] == Marker then Some(end) else None
    else None
  }

  /** `image.replace(/^data:image\/\w+;base64,/, '')`. */
  function StripDataUriPrefix(image: string): (r: string)
    ensures |r| <= |image|
    ensures r == image[|image| - |r|..]
  {
    match DataUriPrefixLength(image)
    case Some(n) => image[n..]
    case None => image
  }

  /**
   * The leading match is exact: a prefix of `s` matches the pattern in full
   * exactly when it is the one `DataUriPrefixLength` finds. In particular
   * at most one prefix of any string matches (the ';' that ends the type
   * cannot be part of it).
   */
  lemma PrefixLengthMatchesPattern(s: string, n: nat)
    requires n <= |s|
    ensures IsDataUriPrefix(s[..n]) <==> DataUriPrefixLength(s) == Some(n)
  {
    if IsDataUriPrefix(s[..n]) {
      var p := s[..n];
      assert s[..|Scheme|] == p[..|Scheme|];
      forall k | |Scheme| <= k < n - |Marker| ensures WordChar(s[k]) {
        assert s[k] == p[k];
      }
      assert s[n - |Marker|] == p[n - |Marker|] == ';';
      WordRunExact(s, |Scheme|, n - |Marker|);
      assert s[n - |Marker|..n] == p[n - |Marker|..];
    }
    if DataUriPrefixLength(s) == Some(n) {
      var p := s[..n];
      var k := WordRun(s, |Scheme|);
      assert n == |Scheme| + k + |Marker|;
      assert p[n - |Marker|..] == s[|Scheme| + k..n];
      forall i | |Scheme| <= i < n - |Marker| ensures WordChar(p[i]) {
        assert p[i] == s[i];
      }
    }
  }

  /** A leading data-URI prefix is removed, and only it. */
  lemma StripRemovesLeadingPrefix(p: string, rest: string)
    requires IsDataUriPrefix(p)
    ensures StripDataUriPrefix(p + rest) == rest
  {
    var s := p + rest;
    assert s[..|p|] == p;
    PrefixLengthMatchesPattern(s, |p|);
  }

  /** A string that does not start with a data-URI prefix is sent unchanged. */
  lemma StripKeepsUnprefixedImage(s: string)
    requires forall n :: 0 <= n <= |s| ==> !IsDataUriPrefix(s[..n])
    ensures StripDataUriPrefix(s) == s
  {
    if DataUriPrefixLength(s).Some? {
      var n := DataUriPrefixLength(s).value;
      PrefixLengthMatchesPattern(s, n);
    }
  }

  /**
   * Only one occurrence is removed, so stripping is not idempotent: an
   * image string carrying the prefix twice keeps the second copy, which a
   * second strip would remove.
   */
  lemma StripNotIdempotentOnDoubledPrefix(p: string, rest: string)
    requires IsDataUriPrefix(p)
    ensures StripDataUriPrefix(p + p + rest) == p + rest
    ensures StripDataUriPrefix(StripDataUriPrefix(p + p + rest)) == rest
    ensures StripDataUriPrefix(p + p + rest) != StripDataUriPrefix(StripDataUriPrefix(p + p + rest))
  {
    assert p + p + rest == p + (p + rest);
    StripRemovesLeadingPrefix(p, p + rest);
    StripRemovesLeadingPrefix(p, rest);
  }

  /**
   * The pattern is anchored: a prefix behind any text that does not start
   * with 'd' is not removed.
   */
  lemma StripOnlyAtStart(q: string, p: string)
    requires q != [] && q[0] != 'd'
    requires IsDataUriPrefix(p)
    ensures StripDataUriPrefix(q + p) == q + p
  {
    var s := q + p;
    forall n | 0 <= n <= |s| ensures !IsDataUriPrefix(s[..n]) {
      if |s[..n]| > |Scheme| { assert s[..n][0] == q[0]; }
    }
    StripKeepsUnprefixedImage(s);
  }

  /**
   * The parts `geminiTextImage` sends: a text part when the prompt is
   * truthy, then an inline JPEG part when the image is truthy. A truthy
   * image that is not a string makes `replace` throw.
   */
  function ContentParts(prompt: JsValue, image: JsValue): (r: Result<seq<Part>, GeminiError>)
    ensures r.Failure? <==> Truthy(image) && !image.Str?
    ensures r.Failure? ==> r.error == NotAString
    ensures r.Success? ==> |r.value| == (if Truthy(prompt) then 1 else 0) + (if Truthy(image) then 1 else 0)
    ensures r.Success? && Truthy(prompt) ==> r.value[0] == TextPart(prompt)
    ensures r.Success? && Truthy(image) ==> r.value[|r.value| - 1] == InlineData(JpegMime, StripDataUriPrefix(image.s))
    ensures r.Success? ==> forall i :: 0 <= i < |r.value| ==> (r.value[i].TextPart? <==> i == 0 && Truthy(prompt))
  {
    var text := if Truthy(prompt) then [TextPart(prompt)] else [];
    if !Truthy(image) then Success(text)
    else if image.Str? then Success(text + [InlineData(JpegMime, StripDataUriPrefix(image.s))])
    else Failure(NotAString)
  }

  /** The conditional pushes that build `parts`. */
  method BuildParts(prompt: JsValue, image: JsValue) returns (r: Result<seq<Part>, GeminiError>)
    ensures r == ContentParts(prompt, image)
  {
    var parts: seq<Part> := [];
    if Truthy(prompt) {
      parts := parts + [TextPart(prompt)];
    }
    assert parts == if Truthy(prompt) then [TextPart(prompt)] else [];
    if Truthy(image) {
      if !image.Str? {
        return Failure(NotAString);
      }
      var base64Data := StripDataUriPrefix(image.s);
      parts := parts + [InlineData(JpegMime, base64Data)];
    }
    r := Success(parts);
  }

  /**
   * `geminiTextImage(prompt, image)`: every failure, whether building the
   * parts or calling the model, is caught and returned as a value.
   */
  method GeminiTextImage(prompt: JsValue, image: JsValue, generate: Generator) returns (answer: Answer)
    ensures ContentParts(prompt, image).Failure? ==> answer == ErrorValue(NotAString)
    ensures ContentParts(prompt, image).Success? ==>
      var sent := generate(ContentParts(prompt, image).value);
      answer == if sent.Success? then Answer(sent.value) else ErrorValue(ServiceError(sent.error))
  {
    var parts := BuildParts(prompt, image);
    if parts.Failure? {
      return ErrorValue(parts.error);
    }
    var result := generate(parts.value);
    if result.Failure? {
      return ErrorValue(ServiceError(result.error));
    }
    answer := Answer(result.value);
  }
}
