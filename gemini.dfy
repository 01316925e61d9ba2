/**
 * The transformation client: the request sent to the image model and the
 * interpretation of its response as a PNG data URL or a thrown error.
 * The SDK call itself is an opaque function from request to response or
 * transport error.
 */
module Gemini {
  import opened Wrappers

  // ---------------------------------------------------------------------
  // The response, as far as it is read
  // ---------------------------------------------------------------------

  datatype InlineData = InlineData(mimeType: Option<string>, data: Option<string>)

  /** A content part; absent fields are `None`. */
  datatype Part = Part(inlineData: Option<InlineData>, text: Option<string>)

  datatype Content = Content(parts: Option<seq<Part>>)

  datatype Candidate = Candidate(content: Option<Content>)

  datatype Response = Response(candidates: Option<seq<Candidate>>)

  /** `response.candidates?.[0]?.content?.parts`. */
  function ResponseParts(response: Response): (parts: Option<seq<Part>>)
    ensures parts.Some? <==>
      response.candidates.Some? && |response.candidates.value| > 0 &&
      response.candidates.value[0].content.Some? &&
      response.candidates.value[0].content.value.parts.Some?
    ensures parts.Some? ==> parts.value == response.candidates.value[0].content.value.parts.value
  {
    match response.candidates
    case None => None
    case Some(cs) =>
      if |cs| == 0 then None
      else match cs[0].content
        case None => None
        case Some(content) => content.parts
  }

  // ---------------------------------------------------------------------
  // The request
  // ---------------------------------------------------------------------

  datatype RequestPart = TextPart(text: string) | InlineDataPart(mimeType: string, data: Option<string>)

  datatype Request = Request(model: string, parts: seq<RequestPart>, aspectRatio: string)

  const ModelName: string := "gemini-2.5-flash-image"

  const DefaultAspectRatio: string := "1:1"

  /** The fixed style instruction; its wording is data, not behaviour. */
  const MangaPrompt: string

  /**
   * The request of `transformImageToManga`: the style instruction, then the
   * image inline with its MIME type; the aspect ratio defaults to "1:1"
   * when the caller passes none. The payload is whatever the encoder gave,
   * possibly `undefined`.
   */
  function BuildRequest(base64Image: Option<string>, mimeType: string, aspectRatio: Option<string>): (req: Request)
    ensures req.model == ModelName
    ensures |req.parts| == 2
    ensures req.parts[0] == TextPart(MangaPrompt)
    ensures req.parts[1] == InlineDataPart(mimeType, base64Image)
    ensures aspectRatio.Some? ==> req.aspectRatio == aspectRatio.value
    ensures aspectRatio.None? ==> req.aspectRatio == DefaultAspectRatio
  {
    Request(ModelName, [TextPart(MangaPrompt), InlineDataPart(mimeType, base64Image)], aspectRatio.GetOr(DefaultAspectRatio))
  }

  // ---------------------------------------------------------------------
  // Interpreting the parts
  // ---------------------------------------------------------------------

  const PngDataUrlPrefix: string := "data:image/png;base64,"

  const NoContentError: string := "No content received from Gemini."

  const RefusalPrefix: string := "Model refused to generate image: "

  const NoImageError: string := "No valid image data found in response."

  /** `part.inlineData && part.inlineData.data`: present and non-empty. */
  predicate HasImage(part: Part) {
    part.inlineData.Some? && part.inlineData.value.data.Some? && part.inlineData.value.data.value != ""
  }

  function ImageData(part: Part): string
    requires HasImage(part)
  {
    part.inlineData.value.data.value
  }

  /** `p.text`: present and non-empty. */
  predicate HasText(part: Part) {
    part.text.Some? && part.text.value != ""
  }

  /** Reference for the image scan: the data of the first image part. */
  function FirstImage(parts: seq<Part>): (d: Option<string>)
    ensures d.Some? <==> exists i :: 0 <= i < |parts| && HasImage(parts[i])
    ensures d.Some? ==> d.value != ""
  {
    if parts == [] then None
    else if HasImage(parts[0]) then Some(ImageData(parts[0]))
    else FirstImage(parts[1..])
  }

  /** `parts.find(p => p.text)`, reduced to the text it found. */
  function FirstText(parts: seq<Part>): (t: Option<string>)
    ensures t.Some? <==> exists i :: 0 <= i < |parts| && HasText(parts[i])
    ensures t.Some? ==> t.value != ""
  {
    if parts == [] then None
    else if HasText(parts[0]) then Some(parts[0].text.value)
    else FirstText(parts[1..])
  }

  /**
   * What the response parts amount to: the image of the first image part as
   * a PNG data URL, else a refusal carrying the first text, else one of the
   * two "nothing usable" errors.
   */
  function Interpret(parts: Option<seq<Part>>): (r: Result<string, string>)
    ensures parts.None? ==> r == Err(NoContentError)
    ensures parts.Some? ==> (r.Ok? <==> exists i :: 0 <= i < |parts.value| && HasImage(parts.value[i]))
    ensures r.Ok? ==> |r.value| > |PngDataUrlPrefix| && r.value[..|PngDataUrlPrefix|] == PngDataUrlPrefix
  {
    match parts
    case None => Err(NoContentError)
    case Some(ps) =>
      match FirstImage(ps)
      case Some(data) => Ok(PngDataUrlPrefix + data)
      case None =>
        match FirstText(ps)
        case Some(text) => Err(RefusalPrefix + text)
        case None => Err(NoImageError)
  }

  /** The response-part scan as the client runs it: a loop with early return, then the text fallback. */
  method InterpretParts(parts: Option<seq<Part>>) returns (r: Result<string, string>)
    ensures r == Interpret(parts)
  {
    if parts.None? {
      return Err(NoContentError);
    }
    var ps := parts.value;
    for i := 0 to |ps|
      invariant FirstImage(ps[i..]) == FirstImage(ps)
    {
      var part := ps[i];
      assert ps[i..] == [part] + ps[i + 1..];
      if part.inlineData.Some? && part.inlineData.value.data.Some? && part.inlineData.value.data.value != "" {
        return Ok(PngDataUrlPrefix + part.inlineData.value.data.value);
      }
    }
    var textPart := FirstText(ps);
    if textPart.Some? {
      return Err(RefusalPrefix + textPart.value);
    }
    return Err(NoImageError);
  }

  /**
   * `transformImageToManga`: build the request, send it, and interpret the
   * parts of the response; a transport error is rethrown unchanged.
   */
  method TransformImageToManga(base64Image: Option<string>, mimeType: string, aspectRatio: Option<string>,
                               generateContent: Request -> Result<Response, string>)
    returns (r: Result<string, string>)
    ensures r == TransformOutcome(base64Image, mimeType, aspectRatio, generateContent)
  {
    var response := generateContent(BuildRequest(base64Image, mimeType, aspectRatio));
    if response.Err? {
      return Err(response.error);
    }
    r := InterpretParts(ResponseParts(response.value));
  }

  /**
   * The outcome of one transformation as a value: only the composition of
   * `BuildRequest`, the SDK call and `Interpret`, which the method above
   * runs step by step. A transport error is passed on unchanged.
   */
  function TransformOutcome(base64Image: Option<string>, mimeType: string, aspectRatio: Option<string>,
                            generateContent: Request -> Result<Response, string>): (r: Result<string, string>)
    ensures generateContent(BuildRequest(base64Image, mimeType, aspectRatio)).Err? ==>
      r == Err(generateContent(BuildRequest(base64Image, mimeType, aspectRatio)).error)
    ensures generateContent(BuildRequest(base64Image, mimeType, aspectRatio)).Ok? ==>
      r == Interpret(ResponseParts(generateContent(BuildRequest(base64Image, mimeType, aspectRatio)).value))
    ensures r.Ok? ==> |r.value| > |PngDataUrlPrefix| && r.value[..|PngDataUrlPrefix|] == PngDataUrlPrefix
  {
    match generateContent(BuildRequest(base64Image, mimeType, aspectRatio))
    case Err(e) => Err(e)
    case Ok(response) => Interpret(ResponseParts(response))
  }

  // ---------------------------------------------------------------------
  // Properties of the interpretation
  // ---------------------------------------------------------------------

  /** Missing parts (no candidate, no content or no parts) is the "no content" error. */
  lemma AbsentPartsIsNoContent(response: Response)
    requires ResponseParts(response).None?
    ensures Interpret(ResponseParts(response)) == Err(NoContentError)
  {
  }

  /** The first part that carries image data decides the result; later parts are not looked at. */
  lemma {:induction false} FirstImagePartWins(ps: seq<Part>, i: nat)
    requires i < |ps| && HasImage(ps[i])
    requires forall j :: 0 <= j < i ==> !HasImage(ps[j])
    ensures Interpret(Some(ps)) == Ok(PngDataUrlPrefix + ImageData(ps[i]))
  {
    FirstImageAt(ps, i);
  }

  lemma {:induction false} FirstImageAt(ps: seq<Part>, i: nat)
    requires i < |ps| && HasImage(ps[i])
    requires forall j :: 0 <= j < i ==> !HasImage(ps[j])
    ensures FirstImage(ps) == Some(ImageData(ps[i]))
  {
    if i > 0 {
      assert !HasImage(ps[0]);
      FirstImageAt(ps[1..], i - 1);
    }
  }

  /** An image part anywhere wins over every text part, also over one that comes earlier. */
  lemma ImageBeatsText(ps: seq<Part>, i: nat)
    requires i < |ps| && HasImage(ps[i])
    ensures Interpret(Some(ps)).Ok?
    ensures FirstImage(ps).Some?
  {
  }

  /** Anything after a part that carries an image is irrelevant. */
  lemma {:induction false} LaterPartsIgnored(ps: seq<Part>, rest: seq<Part>)
    requires FirstImage(ps).Some?
    ensures Interpret(Some(ps + rest)) == Interpret(Some(ps))
  {
    LaterPartsIgnoredScan(ps, rest);
  }

  lemma {:induction false} LaterPartsIgnoredScan(ps: seq<Part>, rest: seq<Part>)
    requires FirstImage(ps).Some?
    ensures FirstImage(ps + rest) == FirstImage(ps)
  {
    assert (ps + rest)[0] == ps[0];
    if !HasImage(ps[0]) {
      assert (ps + rest)[1..] == ps[1..] + rest;
      LaterPartsIgnoredScan(ps[1..], rest);
    }
  }

  /** No image part at all leaves the image scan empty. */
  lemma NoImagePart(ps: seq<Part>)
    requires forall j :: 0 <= j < |ps| ==> !HasImage(ps[j])
    ensures FirstImage(ps) == None
  {
  }

  lemma {:induction false} FirstTextAt(ps: seq<Part>, i: nat)
    requires i < |ps| && HasText(ps[i])
    requires forall j :: 0 <= j < i ==> !HasText(ps[j])
    ensures FirstText(ps) == Some(ps[i].text.value)
  {
    if i > 0 {
      assert !HasText(ps[0]);
      FirstTextAt(ps[1..], i - 1);
    }
  }

  lemma NoTextPart(ps: seq<Part>)
    requires forall j :: 0 <= j < |ps| ==> !HasText(ps[j])
    ensures FirstText(ps) == None
  {
  }

  /** Without an image part, the first non-empty text becomes the refusal message. */
  lemma RefusalCarriesFirstText(ps: seq<Part>, i: nat)
    requires forall j :: 0 <= j < |ps| ==> !HasImage(ps[j])
    requires i < |ps| && HasText(ps[i])
    requires forall j :: 0 <= j < i ==> !HasText(ps[j])
    ensures Interpret(Some(ps)) == Err(RefusalPrefix + ps[i].text.value)
  {
    NoImagePart(ps);
    FirstTextAt(ps, i);
  }

  /** Present parts with neither image data nor text, the empty list included, give "no valid image data", not "no content". */
  lemma NothingUsableIsNoImageData(ps: seq<Part>)
    requires forall j :: 0 <= j < |ps| ==> !HasImage(ps[j]) && !HasText(ps[j])
    ensures Interpret(Some(ps)) == Err(NoImageError)
    ensures Interpret(Some(ps)) != Interpret(None)
  {
  }

  /** Every outcome is one of the four kinds, and a success is always a PNG data URL with a payload. */
  lemma OutcomeKinds(parts: Option<seq<Part>>)
    ensures var r := Interpret(parts);
      (r.Ok? && |r.value| > |PngDataUrlPrefix| && r.value[..|PngDataUrlPrefix|] == PngDataUrlPrefix) ||
      r == Err(NoContentError) || r == Err(NoImageError) ||
      (r.Err? && |r.error| > |RefusalPrefix| && r.error[..|RefusalPrefix|] == RefusalPrefix)
  {
  }

  /** A text-only response "unsafe content" is a refusal carrying that text. */
  lemma UnsafeContentRefusal()
    ensures Interpret(Some([Part(None, Some("unsafe content"))])) ==
      Err("Model refused to generate image: unsafe content")
  {
    var ps := [Part(None, Some("unsafe content"))];
    FirstTextAt(ps, 0);
    NoImagePart(ps);
    assert RefusalPrefix + "unsafe content" == "Model refused to generate image: unsafe content";
  }

  /** An image part followed by a text part is a success with the image's data. */
  lemma ImageThenText(data: string, text: string)
    requires data != ""
    ensures Interpret(Some([Part(Some(InlineData(Some("image/png"), Some(data))), None), Part(None, Some(text))])) ==
      Ok(PngDataUrlPrefix + data)
  {
  }
}
