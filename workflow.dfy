/**
 * The app's workflow: five pieces of state updated by the file-selection,
 * generate and reset handlers. Generating is asynchronous, so it is split
 * into a synchronous start and a completion fed with the outcome.
 */
module Workflow {
  import opened Wrappers
  import Upload
  import AspectRatio
  import DataUrl
  import Gemini

  datatype AppState = Idle | Processing | Success | Error

  const DefaultErrorMessage: string := "Something went wrong during transformation."

  /** The marker that makes the error panel point at the API key configuration. */
  const ApiKeyMarker: string := "API Key"

  /** `error.message || "Something went wrong during transformation."`. */
  function ErrorMessageFor(message: string): (m: string)
    ensures m != ""
    ensures message != "" ==> m == message
    ensures message == "" ==> m == DefaultErrorMessage
  {
    if message != "" then message else DefaultErrorMessage
  }

  /** `sub` occurs in `s` starting at position `i`. */
  ghost predicate OccursAt(s: string, sub: string, i: int) {
    0 <= i && i + |sub| <= |s| && s[i..i + |sub|] == sub
  }

  /** An occurrence is at the start, or it is an occurrence in the tail shifted by one. */
  lemma OccursHeadOrTail(s: string, sub: string)
    requires |s| > 0
    ensures (exists i :: OccursAt(s, sub, i)) <==> OccursAt(s, sub, 0) || exists i :: OccursAt(s[1..], sub, i)
  {
    forall i | OccursAt(s[1..], sub, i)
      ensures OccursAt(s, sub, i + 1)
    {
      assert s[1..][i..i + |sub|] == s[i + 1..i + 1 + |sub|];
    }
    forall i | OccursAt(s, sub, i) && i > 0
      ensures OccursAt(s[1..], sub, i - 1)
    {
      assert s[1..][i - 1..i - 1 + |sub|] == s[i..i + |sub|];
    }
  }

  /** JavaScript's `s.includes(sub)`: `sub` occurs at some position of `s`. */
  function Includes(s: string, sub: string): (b: bool)
    ensures b <==> exists i :: OccursAt(s, sub, i)
    decreases |s|
  {
    if |s| < |sub| then false
    else if s[..|sub|] == sub then assert OccursAt(s, sub, 0); true
    else OccursHeadOrTail(s, sub); Includes(s[1..], sub)
  }

  /** A string that lacks the first character of `sub` does not include `sub`. */
  lemma {:induction false} NotIncludedWithoutFirstChar(s: string, sub: string)
    requires |sub| > 0 && sub[0] !in s
    ensures !Includes(s, sub)
    decreases |s|
  {
    if |s| >= |sub| {
      assert s[0] != sub[0];
      NotIncludedWithoutFirstChar(s[1..], sub);
    }
  }

  /** The default message never mentions the key, so the hint follows the thrown message exactly. */
  lemma ApiKeyHintFollowsThrownMessage(message: string)
    ensures Includes(ErrorMessageFor(message), ApiKeyMarker) <==> Includes(message, ApiKeyMarker)
  {
    if message == "" {
      NotIncludedWithoutFirstChar(DefaultErrorMessage, ApiKeyMarker);
    }
  }

  /**
   * The request the generate handler sends: the payload of the reader's
   * data URL, the file's MIME type and the tag of the decoded image.
   */
  function GenerationRequest(file: Upload.File, dataUrl: string, width: nat, height: nat): (req: Gemini.Request)
    requires height > 0
    ensures req.parts == [Gemini.TextPart(Gemini.MangaPrompt), Gemini.InlineDataPart(file.mimeType, DataUrl.Payload(dataUrl))]
    ensures req.aspectRatio == AspectRatio.GetAspectRatio(width, height)
    ensures req.aspectRatio in {"1:1", "3:4", "4:3", "9:16", "16:9"}
    ensures forall mimeType, payload ::
      dataUrl == DataUrl.DataUrlOf(mimeType, payload) && ',' !in mimeType &&
      (forall i :: 0 <= i < |payload| ==> DataUrl.IsBase64Char(payload[i])) ==>
      req.parts[1] == Gemini.InlineDataPart(file.mimeType, Some(payload))
  {
    forall mimeType, payload |
      dataUrl == DataUrl.DataUrlOf(mimeType, payload) && ',' !in mimeType &&
      (forall i :: 0 <= i < |payload| ==> DataUrl.IsBase64Char(payload[i]))
      ensures DataUrl.Payload(dataUrl) == Some(payload)
    {
      DataUrl.PayloadOfDataUrl(mimeType, payload);
    }
    Gemini.BuildRequest(DataUrl.Payload(dataUrl), file.mimeType, Some(AspectRatio.GetAspectRatio(width, height)))
  }

  /**
   * The outcome the generate handler feeds to its completion: only the
   * composition of `GenerationRequest`, the SDK call and the client's
   * interpretation, which `HandleGenerate` runs step by step.
   */
  function GenerationOutcome(file: Upload.File, dataUrl: string, width: nat, height: nat,
                             generateContent: Gemini.Request -> Result<Gemini.Response, string>): (r: Result<string, string>)
    requires height > 0
    ensures generateContent(GenerationRequest(file, dataUrl, width, height)).Err? ==>
      r == Err(generateContent(GenerationRequest(file, dataUrl, width, height)).error)
    ensures generateContent(GenerationRequest(file, dataUrl, width, height)).Ok? ==>
      r == Gemini.Interpret(Gemini.ResponseParts(generateContent(GenerationRequest(file, dataUrl, width, height)).value))
  {
    Gemini.TransformOutcome(DataUrl.Payload(dataUrl), file.mimeType,
                            Some(AspectRatio.GetAspectRatio(width, height)), generateContent)
  }

  class App {
    var appState: AppState
    /** The preview object URL of the selected file. */
    var originalImage: Option<string>
    var originalFile: Option<Upload.File>
    var generatedImage: Option<string>
    var errorMessage: string

    /**
     * The invariant the handlers keep: a generated image only in SUCCESS,
     * SUCCESS always with an image and no error, ERROR always with a
     * message, PROCESSING with neither, and a selected file (with its
     * preview) whenever the workflow has left IDLE.
     */
    ghost predicate Valid()
      reads this
    {
      (generatedImage.Some? ==> appState == Success) &&
      (appState == Success ==> generatedImage.Some? && errorMessage == "") &&
      (appState == Error ==> errorMessage != "") &&
      (appState == Processing ==> generatedImage.None? && errorMessage == "") &&
      (appState != Idle ==> originalFile.Some?) &&
      (originalFile.Some? <==> originalImage.Some?)
    }

    /** The initial state of the component. */
    constructor ()
      ensures Valid()
      ensures appState == Idle && originalImage == None && originalFile == None
      ensures generatedImage == None && errorMessage == ""
    {
      appState := Idle;
      originalImage := None;
      originalFile := None;
      generatedImage := None;
      errorMessage := "";
    }

    /** `handleFileSelected`: a fresh workflow around the new file and its preview URL. */
    method HandleFileSelected(file: Upload.File, objectUrl: string)
      modifies this
      ensures Valid()
      ensures appState == Idle && errorMessage == "" && generatedImage == None
      ensures originalFile == Some(file) && originalImage == Some(objectUrl)
    {
      appState := Idle;
      errorMessage := "";
      generatedImage := None;
      originalFile := Some(file);
      originalImage := Some(objectUrl);
    }

    /**
     * The synchronous part of `handleGenerate`. Without a file nothing
     * changes. Otherwise PROCESSING with the error cleared; the previous
     * image is cleared only when the state was SUCCESS. The handler does not
     * look at the state otherwise: a second start while PROCESSING starts
     * again.
     */
    method StartGenerate() returns (started: bool)
      modifies this
      ensures started <==> old(originalFile).Some?
      ensures !started ==> unchanged(this)
      ensures started ==> appState == Processing && errorMessage == ""
      ensures started ==> generatedImage == if old(appState) == Success then None else old(generatedImage)
      ensures originalFile == old(originalFile) && originalImage == old(originalImage)
      ensures old(Valid()) ==> Valid()
    {
      if originalFile.None? {
        return false;
      }
      var wasSuccess := appState == Success;
      appState := Processing;
      errorMessage := "";
      if wasSuccess {
        generatedImage := None;
      }
      started := true;
    }

    /**
     * The completion of `handleGenerate`: a result is stored and the state
     * becomes SUCCESS; an error moves to ERROR with its message, or the
     * default one when the message is empty. Nothing here checks which
     * state the completion arrives in; the invariant is kept when it
     * arrives in PROCESSING.
     */
    method CompleteGenerate(outcome: Result<string, string>)
      modifies this
      ensures outcome.Ok? ==> appState == Success && generatedImage == Some(outcome.value) && errorMessage == old(errorMessage)
      ensures outcome.Err? ==> appState == Error && errorMessage == ErrorMessageFor(outcome.error) && generatedImage == old(generatedImage)
      ensures originalFile == old(originalFile) && originalImage == old(originalImage)
      ensures old(Valid()) && old(appState) == Processing ==> Valid()
    {
      match outcome
      case Ok(resultImage) =>
        generatedImage := Some(resultImage);
        appState := Success;
      case Err(message) =>
        appState := Error;
        errorMessage := ErrorMessageFor(message);
    }

    /**
     * `handleGenerate` run to completion without interleaving: start, encode
     * the file, measure the image, call the client, complete. The reader's
     * data URL, the decoded dimensions and the SDK call are inputs.
     */
    method HandleGenerate(dataUrl: string, width: nat, height: nat,
                          generateContent: Gemini.Request -> Result<Gemini.Response, string>)
      returns (started: bool)
      requires height > 0
      modifies this
      ensures started <==> old(originalFile).Some?
      ensures !started ==> unchanged(this)
      ensures started ==>
        var outcome := GenerationOutcome(old(originalFile).value, dataUrl, width, height, generateContent);
        (outcome.Ok? ==> appState == Success && generatedImage == Some(outcome.value) && errorMessage == "") &&
        (outcome.Err? ==> appState == Error && errorMessage == ErrorMessageFor(outcome.error) &&
                          generatedImage == if old(appState) == Success then None else old(generatedImage))
      ensures originalFile == old(originalFile) && originalImage == old(originalImage)
      ensures old(Valid()) ==> Valid()
    {
      started := StartGenerate();
      if !started {
        return;
      }
      var file := originalFile.value;
      var base64Data := DataUrl.Payload(dataUrl);
      var aspectRatio := AspectRatio.GetAspectRatio(width, height);
      var outcome := Gemini.TransformImageToManga(base64Data, file.mimeType, Some(aspectRatio), generateContent);
      CompleteGenerate(outcome);
    }

    /** `handleReset`: back to IDLE with everything cleared. */
    method HandleReset()
      modifies this
      ensures Valid()
      ensures appState == Idle && originalImage == None && originalFile == None
      ensures generatedImage == None && errorMessage == ""
    {
      appState := Idle;
      originalImage := None;
      originalFile := None;
      generatedImage := None;
      errorMessage := "";
    }

    /**
     * The error panel's configuration hint: the panel exists only in the
     * workspace, which needs a preview, and only in ERROR; the hint needs
     * the message to mention the API key.
     */
    function ShowsApiKeyHint(): (shown: bool)
      reads this
      ensures shown <==> originalImage.Some? && appState == Error && exists i :: OccursAt(errorMessage, ApiKeyMarker, i)
    {
      originalImage.Some? && appState == Error && Includes(errorMessage, ApiKeyMarker)
    }
  }

  /** A text-only refusal travels through the workflow into ERROR with the prefixed text. */
  method RefusalScenario(file: Upload.File, objectUrl: string)
  {
    var app := new App();
    app.HandleFileSelected(file, objectUrl);
    var started := app.StartGenerate();
    assert started && app.appState == Processing;
    var parts := [Gemini.Part(None, Some("unsafe content"))];
    Gemini.UnsafeContentRefusal();
    app.CompleteGenerate(Gemini.Interpret(Some(parts)));
    assert app.appState == Error;
    assert app.errorMessage == "Model refused to generate image: unsafe content";
    assert app.Valid();
  }

  /** A late failure after a reset lands in ERROR without a preview; no panel, so no hint. */
  method LateFailureAfterResetScenario(file: Upload.File, objectUrl: string)
  {
    var app := new App();
    app.HandleFileSelected(file, objectUrl);
    var started := app.StartGenerate();
    app.HandleReset();
    app.CompleteGenerate(Err("API Key not valid"));
    assert app.appState == Error && app.originalImage == None;
    assert !app.ShowsApiKeyHint();
  }
}
