# MangaMorph transformation pipeline, modelled in Dafny

MangaMorph is a small browser app. The user uploads a photo, the app sends it to
Google's Gemini image model with a fixed manga-style instruction, and the app
shows the returned illustration. This project models the app's logic apart from
rendering:

- **Upload** (`upload.dfy`). The upload zone accepts a dropped or chosen file
  only if its MIME type starts with `image/` and its size is at most 5 MiB. Only
  the first file of a list is looked at. A drop does nothing while the zone is
  disabled.
- **AspectRatio** (`aspect_ratio.dfy`). The picker takes the image's
  width/height ratio and chooses one of five tags: 1:1, 3:4, 4:3, 9:16, 16:9. It
  does this with a `reduce` over fixed `(id, val)` anchors. The fold is a
  recursive function. It is proved to return the earliest anchor of minimal
  distance, so a tie goes to the anchor listed first.
- **DataUrl** (`data_url.dfy`). The encoder takes the payload of a data URL
  with `split(',')[1]`. `Split` models JavaScript's `split` for one separator
  character and is proved to be inverted by `Join`.
- **Gemini** (`gemini.dfy`). This is the request sent to the model and the
  reading of its response:
  - the first image part becomes a PNG data URL;
  - failing that, the first text part becomes a refusal error;
  - a response with no parts is the "no content" error;
  - a response whose parts hold neither image nor text is the "no valid image
    data" error.

  The scan is a method with a loop, proved equal to a first-match reference
  function. The SDK call is an opaque function parameter. A transport error it
  returns is rethrown unchanged.
- **Workflow** (`workflow.dfy`). The app component is a class with the fields
  `appState`, `originalImage`, `originalFile`, `generatedImage` and
  `errorMessage`. Its methods are the file-selection, generate and reset
  handlers. Because generating is asynchronous, it is split into a synchronous
  start and a completion that receives the outcome. `HandleGenerate` runs the two
  steps back to back. `Valid()` is the invariant the handlers keep: a generated
  image only in SUCCESS, and a non-empty message in ERROR.

Inputs the browser would provide are parameters:
- the file's preview object URL;
- the reader's data URL;
- the decoded pixel width and height;
- the SDK call.

Behaviour of the code worth knowing:
- The refusal error carries `"Model refused to generate image: " + text`, not
  the text alone (services/geminiService.ts:66).
- The generate handler does not check the state. A second start while
  PROCESSING starts a second attempt instead of doing nothing.
- There is no attempt token. A completion is applied in whatever state it
  arrives, so a reset during PROCESSING does not discard a late result.
- There is no decode-error path. An image that fails to load never resolves
  the ratio. At height 0 every distance is Infinity or NaN, no `<` holds, and
  the reduce returns "1:1"; the model excludes a zero height by precondition.

Two client methods in `workflow.dfy` exercise the specifications as examples:
- `RefusalScenario` follows a text-only refusal into ERROR.
- `LateFailureAfterResetScenario` shows that a failure arriving after a reset
  gives ERROR with no preview, and so no configuration hint.


## Model

| member | source | states |
|---|---|---|
| Upload.StartsWith | components/UploadZone.tsx:39 | `startsWith` holds iff the prefix is no longer than the string and agrees with it character by character |
| Upload.ValidateAndPassFile | components/UploadZone.tsx:38-49 | the file is forwarded iff its type starts with `image/` and its size is at most 5·1024·1024; a wrong type gets the type alert whatever its size; an image over the ceiling gets the size alert |
| Upload.HandleDrop | components/UploadZone.tsx:22-30 | something is validated iff the zone is enabled and the drop holds a non-empty list, and then exactly the first file |
| Upload.HandleFileChange | components/UploadZone.tsx:32-36 | something is validated iff the input holds a non-empty list, and then exactly the first file |
| Upload.DropForwardsExactlyValidFirstFile | components/UploadZone.tsx:22-49 | a drop hands `f` to `onFileSelected` iff the zone is enabled, `f` is the first file and `f` passes both checks; a rejected file never gets there |
| Upload.ChangeForwardsExactlyValidFirstFile | components/UploadZone.tsx:32-49 | the file input hands `f` on iff `f` is the first chosen file and passes both checks |
| Upload.OnlyFirstFileCounts | components/UploadZone.tsx:27-34 | files after the first never change what a drop or change does |
| Upload.SizeBoundary | components/UploadZone.tsx:44 | an image of exactly 5242880 bytes is forwarded; one of 5242881 bytes gets the size alert |
| AspectRatio.Nearer | App.tsx:32 | the callback returns the accumulator or the current anchor, never farther than either; on equal distance it keeps the accumulator |
| AspectRatio.Reduce | App.tsx:31-33 | the fold's result is at least as near to the ratio as its start value and as every later anchor |
| AspectRatio.Closest | App.tsx:31-33 | the reduce returns one of the anchors, and no anchor is nearer |
| AspectRatio.FirstNearestUnique | App.tsx:31-33 | at most one position is the earliest one of minimal distance |
| AspectRatio.NearerExtendsFirstNearest | App.tsx:32 | one callback step turns the earliest nearest of the first `i` anchors into the earliest nearest of the first `i + 1` (strict `<` keeps the earlier one on a tie) |
| AspectRatio.ReduceKeepsFirstNearest | App.tsx:31-33 | the fold started at the earliest nearest prefix position ends at the earliest nearest position of the whole list |
| AspectRatio.ClosestIsFirstNearest | App.tsx:31-33 | the reduce returns the entry at the earliest position of minimal distance: nearest overall and strictly nearer than every earlier entry |
| AspectRatio.ExactRatioPicksAnchor | App.tsx:22-33 | for distinct anchor values, a ratio equal to an anchor's value picks that anchor |
| AspectRatio.NearestId | App.tsx:22-35 | the chosen id is one of "1:1", "3:4", "4:3", "9:16", "16:9" |
| AspectRatio.GetAspectRatio | App.tsx:18-35 | for a positive height, the id chosen for width/height is one of the five tags |
| AspectRatio.NearestIdIsFirstNearest | App.tsx:22-35 | the id chosen for any ratio is that of the earliest of the five anchors of minimal distance |
| AspectRatio.ExactAnchorRatios | App.tsx:22-33 | the ratios 1, 0.75, 1.333, 0.5625 and 1.777 give their own ids |
| AspectRatio.TieGoesToEarlierEntry | App.tsx:31-33 | 7:8 is equidistant from 1:1 and 3:4, and the earlier "1:1" is chosen |
| AspectRatio.SlightlyWide | App.tsx:22-35 | a ratio of 1.05 gives "1:1" |
| AspectRatio.FullHdLandscape | App.tsx:18-35 | a 1920×1080 image gives "16:9" |
| AspectRatio.FullHdPortrait | App.tsx:18-35 | a 1080×1920 image gives "9:16" |
| AspectRatio.PhotoLandscape | App.tsx:18-35 | a 4000×3000 image gives "4:3" |
| AspectRatio.PhotoPortrait | App.tsx:18-35 | a 3000×4000 image gives "3:4" |
| DataUrl.Split | services/geminiService.ts:13 | `split` gives at least one piece, exactly one iff there is no separator, and no piece contains the separator |
| DataUrl.JoinSplit | services/geminiService.ts:13 | joining the pieces with the separator restores the string |
| DataUrl.SplitAtFirst | services/geminiService.ts:13 | a comma-free head followed by the separator is split off as the first piece |
| DataUrl.Payload | services/geminiService.ts:11-14 | `split(',')[1]` is defined iff the string has a comma, and it contains no comma |
| DataUrl.PayloadBetweenFirstCommas | services/geminiService.ts:13 | the payload is exactly the text between the first comma and the second comma or the end |
| DataUrl.PayloadOfDataUrl | services/geminiService.ts:12-13 | for `"data:" + mime + ";base64," + p` with a comma-free MIME type and base64 text `p`, the payload is `p` |
| Gemini.ResponseParts | services/geminiService.ts:50 | parts are present iff there is a first candidate with content holding parts, and then they are those parts |
| Gemini.BuildRequest | services/geminiService.ts:28-47 | the request names the model and holds exactly two parts in order, the style prompt and then the image inline with the given MIME type and payload; the aspect ratio is the given one, or "1:1" if none is given |
| Gemini.FirstImage | services/geminiService.ts:57-61 | the scan finds something iff some part carries non-empty image data, and what it finds is non-empty |
| Gemini.FirstText | services/geminiService.ts:64 | `find` finds something iff some part has non-empty text, and what it finds is non-empty |
| Gemini.Interpret | services/geminiService.ts:50-69 | absent parts give the no-content error; present parts give a success iff some part carries an image; a success is a PNG data URL with a payload |
| Gemini.InterpretParts | services/geminiService.ts:50-69 | the loop with early return and the text fallback give exactly the first-match interpretation |
| Gemini.TransformOutcome | services/geminiService.ts:25-73 | the composition of request, SDK call and interpretation: a failed SDK call is rethrown with its message unchanged, an answer is interpreted, and a success is a PNG data URL |
| Gemini.TransformImageToManga | services/geminiService.ts:25-73 | the client sends the built request once; a transport error comes back unchanged, and otherwise the response's parts are interpreted |
| Gemini.AbsentPartsIsNoContent | services/geminiService.ts:50-54 | a response without a first candidate, content or parts gives "No content received from Gemini." |
| Gemini.FirstImagePartWins | services/geminiService.ts:57-61 | when part `i` is the first with non-empty image data, the result is exactly `"data:image/png;base64," + data` of part `i` |
| Gemini.FirstImageAt | services/geminiService.ts:57-61 | the image scan finds the data of the first part that has image data |
| Gemini.ImageBeatsText | services/geminiService.ts:57-66 | an image part anywhere makes the result a success, even after an earlier text part |
| Gemini.LaterPartsIgnored | services/geminiService.ts:57-61 | once the parts hold an image, appending more parts does not change the result |
| Gemini.LaterPartsIgnoredScan | services/geminiService.ts:57-61 | appending parts after an image part does not change what the image scan finds |
| Gemini.NoImagePart | services/geminiService.ts:57-61 | without any image part the scan finds nothing |
| Gemini.FirstTextAt | services/geminiService.ts:64 | `find` returns the text of the first part with non-empty text |
| Gemini.NoTextPart | services/geminiService.ts:64 | without any text part `find` finds nothing |
| Gemini.RefusalCarriesFirstText | services/geminiService.ts:63-67 | with no image part, the first non-empty text gives the error `"Model refused to generate image: " + text` |
| Gemini.NothingUsableIsNoImageData | services/geminiService.ts:50-69 | present parts with neither image nor text, the empty list included, give "No valid image data found in response." and not the "no content" error |
| Gemini.OutcomeKinds | services/geminiService.ts:50-69 | every interpretation is a PNG data URL with a payload, a refusal, or one of the two fixed errors |
| Gemini.UnsafeContentRefusal | services/geminiService.ts:63-67 | a single text part "unsafe content" gives the error "Model refused to generate image: unsafe content" |
| Gemini.ImageThenText | services/geminiService.ts:57-61 | an image part followed by a text part gives the image, and the text is ignored |
| Workflow.ErrorMessageFor | App.tsx:84 | the stored message is never empty: the error's own message when it has one, otherwise "Something went wrong during transformation." |
| Workflow.Includes | App.tsx:188 | `includes` holds iff the marker occurs at some position |
| Workflow.NotIncludedWithoutFirstChar | App.tsx:188 | a string that lacks the marker's first character does not include the marker |
| Workflow.ApiKeyHintFollowsThrownMessage | App.tsx:184-192 | the stored message mentions "API Key" iff the thrown message does, because the default message does not |
| Workflow.GenerationRequest | App.tsx:71-77 | the request the handler sends carries the prompt, then the file's MIME type with the data URL's payload (the base64 text itself for a reader-style data URL), and one of the five tags: the one chosen for the image's dimensions |
| Workflow.GenerationOutcome | App.tsx:70-77 | the outcome fed to the completion is the SDK's transport error unchanged, or the interpretation of its answer to that request |
| Workflow.App.Valid | App.tsx:42-94 | the state invariant: a generated image only in SUCCESS; SUCCESS with an image and no message; ERROR with a message; PROCESSING with neither; a file whenever the state is not IDLE; a preview exactly when there is a file |
| Workflow.App.constructor | App.tsx:7-11 | the component starts IDLE with no file, no preview, no result and an empty message, and the invariant holds |
| Workflow.App.HandleFileSelected | App.tsx:42-51 | IDLE, empty message, no generated image, the new file and its preview stored, from any state; the invariant holds afterwards |
| Workflow.App.StartGenerate | App.tsx:60-68 | without a file nothing changes; otherwise PROCESSING with the message cleared and the previous image cleared only if the state was SUCCESS; the invariant is kept |
| Workflow.App.CompleteGenerate | App.tsx:77-85 | a result is stored with state SUCCESS; an error gives ERROR with its message or the default one; the file and preview stay; the invariant is kept for a completion arriving in PROCESSING |
| Workflow.App.HandleGenerate | App.tsx:60-86 | without a file nothing changes; otherwise the final state is the completion of the outcome for the file's payload, MIME type and aspect ratio; the invariant is kept |
| Workflow.App.HandleReset | App.tsx:88-94 | IDLE with no file, preview or result and an empty message, from any state; the invariant holds afterwards |
| Workflow.App.ShowsApiKeyHint | App.tsx:138-192 | the configuration hint shows iff a preview exists (the workspace is rendered), the state is ERROR and the message contains "API Key" |

## Left out

- Rendering is not modelled: JSX, CSS classes, the `isDragging` highlight and the buttons' `disabled` attributes. The button gating is not a guard inside the handlers, because the handlers do not check it.
- Image decoding is not modelled: `new Image()` and `onload`. The pixel width and height are inputs. The source sets no `onerror`, so an image that fails to load leaves the ratio promise pending and the state in PROCESSING; the model has no decode error.
- `URL.createObjectURL`, `URL.revokeObjectURL` and the `useEffect` cleanup are browser resource handling. The preview URL is an input.
- `FileReader` is I/O. The reader's data URL is an input, so the base64 round trip is the browser's and is not modelled. A reader error rejects with an event that has no message, which the completion would turn into the default message.
- The `GoogleGenAI` construction, the `API_KEY` injected by `vite.config.ts` and the network call are external. The SDK call is a function parameter; retries and transport errors beyond "rethrown unchanged" are not modelled.
- `alert` and `console.error` are side effects. An alert is modelled as the message it would show; logging is dropped.
- IEEE floating point and `Math.abs` are not modelled. The ratio is a `real` and the anchors are exact decimals. A zero height is excluded by a precondition; in the source it makes every distance Infinity or NaN, and the reduce then returns "1:1".
- Workflow.App.HandleGenerate: requires a positive height also on the path without a file, where the source measures nothing; the dimensions are inputs of the whole run.
- Async interleaving is not modelled: `HandleGenerate` runs start and completion back to back. `CompleteGenerate` accepts a completion in any state, as the source does, since there is no attempt token.
- `MANGA_PROMPT` is an opaque constant whose wording is not reproduced. `TransformationConfig` and the `AIStudio` global are declared but never used.
- Workflow.App.CompleteGenerate: the invariant is promised only for a completion that arrives in PROCESSING. A failure that arrives after a success would leave the old image stored next to the ERROR state, because the source never clears it on that path.
