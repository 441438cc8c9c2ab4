# Upload form: a verified Dafny model

This project models the logic of a small React upload form. The user types a
name, a surname and an email address and picks an MP4 video. The form then
posts the values and the video to a fixed Make.com webhook. The project has
five Dafny modules:

- `Common` (`common.dfy`) holds the shared values: `Option`, `Result`, bytes,
  the browser `File` and the JavaScript whitespace set.
- `Validation` (`validation.dfy`) models `validateEmail` and `validateName`.
  Both are pure predicates on strings. The email regular expression is
  decided by a left-to-right automaton, and lemmas characterise exactly which
  strings each validator accepts.
- `FileUpload` (`file_upload.dfy`) models `uploadToMakeWebhook`:
  - the guard on missing data;
  - the multipart body, built by four `append` calls on a `MultipartBody`
    object;
  - the one POST to the fixed URL;
  - how the server's answer becomes a result or an error message.

  The network is a parameter: the answer arrives as a `Response` value. The
  method returns the request it would send.
- `Form` (`upload_form.dfy`) models the `UploadForm` component as a class.
  The record `formData` and the `errors` record are its fields. So are the
  `isUploading` flag and the `uploadStatus` banner, which the enclosing `App`
  owns and hands down as setters. `handleInputChange`, `handleFileChange`,
  `validateForm` and `handleSubmit` are methods that update these fields.
- `MediaConverter` (`media_converter.dfy`) models the deterministic parts of
  `convertVideoToMP3`:
  - the `.mp4`/`.mov` → `.mp3` rename;
  - the buffer of recorded chunks;
  - the stop guard;
  - the settle-once promise and the release of the object URL in every
    handler that settles it.

  The browser's media objects are not modelled. Each callback the source
  installs is a method of the `Conversion` class, called when its event
  arrives.

The page's own text (`src/App.jsx:13` and `src/App.jsx:29`) promises
MP4/MOV uploads and says the application extracts MP3 audio and sends both
the video and the audio to the webhook. The model follows what the code
does:

- the request has four parts (`name`, `surname`, `email`, `file`) and no
  audio part (`src/utils/fileUpload.js:15-19`);
- only `video/mp4` is admitted (`src/components/UploadForm.jsx:48`), so a
  MOV file is refused;
- nothing in the form calls the converter, so conversion is modelled on its
  own.

A behaviour the model makes visible (`EarlyTimerScenario`): the stop timer is
armed by `onloadeddata`, and it can fire before the play promise resolves. In
that case the guard sees an inactive recorder and stops nothing. The recorder
then starts with no timer left, so the conversion stays pending and keeps its
object URL until an error event arrives.

## Model

| member | source | states |
|---|---|---|
| Validation.ValidateEmail | src/utils/validation.js:6-12 | the empty (falsy) string is rejected before the regular expression is tried |
| Validation.ScanMeaning | src/utils/validation.js:10-11 | each automaton state is tied to a fact about the prefix read: nothing, a local part, `local@`, or a split at `@` whose domain flags are right |
| Validation.InteriorDotSnoc | src/utils/validation.js:10 | appending a character gives the domain an interior dot exactly when it had one already or ended in a dot after at least one character |
| Validation.ScanLocal | src/utils/validation.js:10 | a non-empty run of non-space, non-`@` characters leaves the automaton in the local-part state |
| Validation.ScanDomain | src/utils/validation.js:10-11 | after `local@domain`, the state records whether the domain ends in a dot and whether it has an interior dot |
| Validation.EmailCharacterization | src/utils/validation.js:10-11 | validateEmail(s) iff s splits at some `@` into a non-empty local part and a domain, neither holding whitespace or `@`, with a `.` at an index 1..\|domain\|-2 of the domain |
| Validation.EmailOfParts | src/utils/validation.js:10-11 | validateEmail(local + "@" + domain) iff the parts satisfy that same condition |
| Validation.AcceptedEmailShape | src/utils/validation.js:10 | an accepted address holds exactly one `@` and no whitespace |
| Validation.EmailsAccepted | src/utils/validation.js:10-11 | "a@b.com" and "a@b..c" are accepted |
| Validation.EmailDomainsRejected | src/utils/validation.js:10-11 | "a@b", "a@.com" and "a@b." are rejected |
| Validation.EmailCharactersRejected | src/utils/validation.js:7-11 | "a b@c.d", "a@b@c.d" and "" are rejected |
| Validation.ValidateName | src/utils/validation.js:19-24 | the empty (falsy) string is rejected before trimming and matching |
| Validation.NamePatternAll | src/utils/validation.js:23 | `^[A-Za-z\s'-]+$` matches iff the string is non-empty and every character is in the class |
| Validation.TrimStartSlice | src/utils/validation.js:23 | trimming the start removes exactly the leading whitespace, and a kept first character is not whitespace |
| Validation.TrimEndSlice | src/utils/validation.js:23 | trimming the end removes exactly the trailing whitespace, and a kept last character is not whitespace |
| Validation.TrimmedLengthAtLeastTwo | src/utils/validation.js:23 | trim(s) has length at least 2 iff s has two non-whitespace characters |
| Validation.NameCharacterization | src/utils/validation.js:23 | validateName(s) iff \|trim(s)\| >= 2 and every character of s is an ASCII letter, whitespace, `'` or `-` |
| Validation.NameRejections | src/utils/validation.js:23 | a name holding any other character is rejected, and so is one with fewer than two non-whitespace characters (an all-whitespace name among them) |
| Validation.NamesAccepted | src/utils/validation.js:23 | "Ada" and "--" are accepted; no letter is required |
| Validation.LongNameAccepted | src/utils/validation.js:23 | "Lovelace" is accepted |
| Validation.NamesRejected | src/utils/validation.js:20-23 | "Ada1", "A", " A " and "   " are rejected |
| FileUpload.MultipartBody.constructor | src/utils/fileUpload.js:15 | a new body has no parts |
| FileUpload.MultipartBody.Append | src/utils/fileUpload.js:16-19 | `append` adds one part at the end and keeps the earlier parts in order |
| FileUpload.DecimalString | src/utils/fileUpload.js:34 | the status is rendered as a non-empty run of decimal digits with no leading zero unless the status is 0 |
| FileUpload.DecimalRoundTrip | src/utils/fileUpload.js:34 | reading the rendered digits back gives the status |
| FileUpload.Rethrown | src/utils/fileUpload.js:41 | the rethrown message is never empty: a non-empty caught message is kept, and an empty one is replaced by the fallback |
| FileUpload.ResponseOutcome | src/utils/fileUpload.js:32-42 | success iff the response is ok, and then `{success: true, message: 'Upload successful'}` whatever the body; a non-ok response fails with `Server responded with <status>: <body>`; a network error fails with its own message, or with the fallback when that is empty |
| FileUpload.UploadToWebhook | src/utils/fileUpload.js:7-43 | a request is sent iff every field is present (truthy); otherwise it fails with 'Missing required form data'. A request goes to the fixed URL with POST, and its body is exactly the parts name, surname, email, file, in that order. The result is the outcome of the response |
| FileUpload.StatusThenColon | src/utils/fileUpload.js:34 | in a server error message the status digits sit at a fixed offset and are followed by `: ` and the body |
| FileUpload.ServerErrorMessageInjective | src/utils/fileUpload.js:34 | two server answers with the same error message have the same status and body |
| FileUpload.ResponseExamples | src/utils/fileUpload.js:32-42 | the exact outcomes for 500 "boom", for 404 with an empty body, for a network error with an empty message, and for an ok response |
| Form.WithText | src/components/UploadForm.jsx:21-26 | a text input sets its own field, and the file and the other text fields are unchanged |
| Form.ValidFormHasRequiredData | src/components/UploadForm.jsx:106-114 | a form that passes `validateForm` also passes the client's missing-data guard |
| Form.UploadForm.constructor | src/components/UploadForm.jsx:7-19 | a mounted form has empty fields, no file, every error set to '', no upload running and no banner |
| Form.UploadForm.HandleInputChange | src/components/UploadForm.jsx:21-35 | the typed field gets the value, and nothing else in the record changes; that field's error is cleared iff it was set (non-empty), and the other errors are unchanged |
| Form.UploadForm.HandleFileChange | src/components/UploadForm.jsx:37-73 | checked in order (no file, then a type other than video/mp4, then more than 100 MiB): each failure sets only the file error to its message and keeps the record, including the file stored earlier; an admitted file (exactly 100 MiB included) is stored, its error cleared and nothing else changed. Only admissible files ever sit in the record |
| Form.UploadForm.ValidateForm | src/components/UploadForm.jsx:75-101 | the error record is replaced by a fresh one with an entry exactly for each failing check, holding that check's message, so earlier errors are dropped; the result is true iff all four checks pass, iff the new record is empty |
| Form.UploadForm.HandleSubmit | src/components/UploadForm.jsx:103-139 | an invalid form sends nothing and leaves the record, the flag and the banner alone. A valid form sends one request with its four parts. Success shows 'File uploaded successfully!' and empties the record; failure shows 'Upload failed: ' + the client's message and keeps the record; the flag ends clear either way |
| Form.SubmitFilledForm | src/components/UploadForm.jsx:103-139 | on a fresh form, typing valid values, picking an admissible file and submitting sends exactly those values and that file. Success empties the form, and failure keeps every value |
| MediaConverter.HasVideoSuffixCases | src/utils/mediaConverter.js:75 | `/\.(mp4\|mov)$/i` matches iff the name ends in `.`, then `m` or `M`, then either `p` or `P` followed by `4`, or `o` or `O` followed by `v` or `V`: for this ASCII pattern, matching under `/i` is the same as comparing ASCII-lower-cased text |
| MediaConverter.Mp3FileNameOfVideo | src/utils/mediaConverter.js:75 | base + "." + ext becomes base + ".mp3" when ext is mp4 or mov in any letter case |
| MediaConverter.Mp3FileNameChangesIffVideo | src/utils/mediaConverter.js:75 | the name changes iff it ends in a video suffix, and its length never changes |
| MediaConverter.Mp3FileNameIdempotent | src/utils/mediaConverter.js:75 | renaming twice is renaming once |
| MediaConverter.Mp3FileNameLastSuffixOnly | src/utils/mediaConverter.js:75 | "a.mp4.mov" becomes "a.mp4.mp3": only the final suffix is rewritten |
| MediaConverter.Mp3FileNameExamples | src/utils/mediaConverter.js:75 | "clip.MP4" becomes "clip.mp3" and "holiday.Mov" becomes "holiday.mp3" |
| MediaConverter.Mp3FileNameKept | src/utils/mediaConverter.js:75 | "video.avi" and "mp4" are kept unchanged |
| MediaConverter.NonEmpty | src/utils/mediaConverter.js:52-56 | keeping only the non-empty blobs leaves no empty blob |
| MediaConverter.NonEmptyAppend | src/utils/mediaConverter.js:52-56 | a new blob extends the kept list iff it is non-empty, and the blobs kept before are untouched |
| MediaConverter.ConcatAppend | src/utils/mediaConverter.js:69 | the bytes of a list with one more blob are the earlier bytes followed by that blob's |
| MediaConverter.ConcatNonEmpty | src/utils/mediaConverter.js:52-69 | dropping empty blobs does not change the bytes of the list |
| MediaConverter.ConcatPair | src/utils/mediaConverter.js:69 | the bytes of two blobs are the first's followed by the second's |
| MediaConverter.TimerDelay | src/utils/mediaConverter.js:105 | the delay is the duration when it is known and non-zero, and 10000 ms otherwise; it is always positive |
| MediaConverter.AudioFile | src/utils/mediaConverter.js:69-76 | the resolved file has type audio/mpeg and the renamed video name |
| MediaConverter.Conversion.constructor | src/utils/mediaConverter.js:13-32 | a new conversion has its URL unreleased, nothing wired, recorded or armed, and is unsettled |
| MediaConverter.Conversion.Settle | src/utils/mediaConverter.js:13 | only the first resolve or reject settles the promise |
| MediaConverter.Conversion.OnLoadedMetadata | src/utils/mediaConverter.js:35-37 | playback is requested |
| MediaConverter.Conversion.OnPlayResolved | src/utils/mediaConverter.js:37-48 | on the first resolution the audio source is created and connected and the recorder started once. A later resolution fails in `createMediaElementSource`, leaves the source and the recorder as they were, releases the URL and rejects with 'Failed to process video file'. No other field changes |
| MediaConverter.Conversion.OnPlayRejected | src/utils/mediaConverter.js:44-48 | the URL is released and the conversion rejected with 'Failed to process video file' unless it was already settled |
| MediaConverter.Conversion.OnDataAvailable | src/utils/mediaConverter.js:52-56 | a blob is appended iff it is non-empty, and the buffered blobs are untouched; the buffer never holds an empty blob |
| MediaConverter.Conversion.OnLoadedData | src/utils/mediaConverter.js:99-106 | one stop timer is armed, with the delay `TimerDelay` gives |
| MediaConverter.Conversion.OnTimer | src/utils/mediaConverter.js:101-104 | the recorder ends inactive, and `stop` is called only if it was not already inactive |
| MediaConverter.Conversion.OnStop | src/utils/mediaConverter.js:59-78 | fired only once the recorder is inactive: the URL is released, the video paused and the audio source disconnected. The conversion resolves, unless already settled, with an audio/mpeg file named after the video that holds the buffered blobs in order |
| MediaConverter.Conversion.OnRecorderError | src/utils/mediaConverter.js:86-90 | the recorder is inactive afterwards (the browser stopped it, with no `stop()` call of the converter); the URL is released and the conversion rejected with 'Error recording audio from video' unless it was already settled |
| MediaConverter.Conversion.OnVideoError | src/utils/mediaConverter.js:92-96 | the URL is released and the conversion rejected with 'Error loading video file' unless it was already settled |
| MediaConverter.StartedConversion | src/utils/mediaConverter.js:35-43 | after metadata and a resolved play, the recorder runs, with nothing buffered, armed or settled |
| MediaConverter.BufferAroundEmpty | src/utils/mediaConverter.js:52-56 | two non-empty blobs with an empty one between them add exactly the two to the buffer, in order |
| MediaConverter.StopByTwoTimers | src/utils/mediaConverter.js:99-106 | when two timers are armed and both fire, the recorder is stopped exactly once |
| MediaConverter.RecordingScenario | src/utils/mediaConverter.js:12-108 | a complete run calls `stop` once, releases the URL, and resolves with an audio/mpeg file named after the video that holds the non-empty blobs' bytes in arrival order |
| MediaConverter.EarlyTimerScenario | src/utils/mediaConverter.js:99-106 | a timer that fires before playback starts calls `stop()` zero times: the recorder then runs with no timer left, unsettled, and keeps its URL |
| MediaConverter.RecorderErrorScenario | src/utils/mediaConverter.js:86-104 | after a recorder error, the following `onstop` leaves the conversion rejected with 'Error recording audio from video', and a timer firing later calls `stop()` zero times |

Every terminal path that runs through an event handler releases the object
URL: this is the invariant `Conversion.Valid()` (a settled conversion has
released its URL), and every event method keeps it. A failure while the
promise executor is still setting up is a terminal path that does not; see
`Conversion.constructor` under "Left out".

## Left out

- `src/App.jsx`, `src/components/FormInput.jsx` and the JSX render of the
  form are presentation only and are not part of this model.
- The DOM reset of the file input after a successful upload, and all
  `console.error` logging, are side effects with no state of the form's own.
- `fetch` is not modelled. The server's answer is the `Response` parameter.
  A failure of `response.text()` lands in the same `catch` block as any
  network error, so a `NetworkError` with that message stands for it.
- The validators take strings only. Inputs that are `null`, `undefined` or
  not strings are not modelled; the empty string stands for every falsy
  value.
- Strings are sequences of Unicode code points. JavaScript measures length in
  UTF-16 units, so `trim().length` differs for characters outside the Basic
  Multilingual Plane. Such characters never match the name class, so
  `validateName`'s verdict is unaffected.
- `isMediaConversionSupported` detects browser features and has no logic to
  prove.
- Form.UploadForm.HandleSubmit: the request is one atomic step. The
  intermediate state (flag set, banner cleared, request pending) and edits
  made while a request is pending are not modelled. The single request in
  flight is a precondition (`!isUploading`), which the disabled submit button
  provides.
- MediaConverter.TimerDelay: the duration is a whole number of milliseconds
  or absent. The floating-point product `video.duration * 1000`, and its NaN
  and infinite cases, are not modelled.
- MediaConverter.Conversion.OnStop: the `catch` path that rejects with
  'Failed to convert video to MP3' is not modelled. Building the blob and the
  file cannot fail in the model.
- MediaConverter.Conversion.constructor: the executor cannot fail in the
  model. In the source, `new AudioContext()` (`src/utils/mediaConverter.js:23`)
  or `new MediaRecorder(…, {mimeType: 'audio/webm'})` (line 28, which throws
  where `audio/webm` is unsupported, the condition line 117 tests) can throw
  after the object URL was created at line 15. The promise then rejects with
  that error and the URL is never revoked. This leak is not modelled.
- MediaConverter.Conversion.OnPlayResolved: only the failure of a second
  `createMediaElementSource` is modelled. Other exceptions thrown by
  `connect` or `start` are not.
- MediaConverter.Conversion: the class does not record the history of
  blobs it received. `OnDataAvailable` states the step of `NonEmpty`, and the
  lemmas `NonEmptyAppend` and `ConcatNonEmpty` say what any sequence of such
  steps keeps.
- MediaConverter.RecordingScenario: both recorded blobs are non-empty; the
  empty blob between them is part of the run.
- The actual audio is not modelled. The bytes are whatever blobs the recorder
  delivers; no WebM container and no encoding is modelled.
- `convertVideoToMP3` is modelled on its own, because nothing in the form
  calls it and the upload sends the video as its only file part.
