/** The deterministic parts of the video-to-audio converter
    (`src/utils/mediaConverter.js`, `convertVideoToMP3`).

    The browser objects the converter drives (the object URL, the `<video>`
    element, the audio graph, the `MediaRecorder` and the timer) are not
    modelled; what they report reaches the converter as events, one method per
    callback the source installs. The promise the converter returns is the
    field `outcome`: the first `resolve` or `reject` settles it and later ones
    are ignored. */
module MediaConverter {
  import opened Common

  const AudioType: string := "audio/mpeg"
  const PlayFailedMessage: string := "Failed to process video file"
  const RecorderErrorMessage: string := "Error recording audio from video"
  const VideoErrorMessage: string := "Error loading video file"

  /** The recording time used when the video reports no usable duration. */
  const FallbackDelay: nat := 10000

  // ---------------------------------------------------------------------------
  // The output file name
  // ---------------------------------------------------------------------------

  function LowerAscii(s: string): (r: string)
    ensures |r| == |s|
    ensures forall i :: 0 <= i < |s| ==> r[i] == ToLowerAscii(s[i])
  {
    seq(|s|, i requires 0 <= i < |s| => ToLowerAscii(s[i]))
  }

  /** The pattern `/\.(mp4|mov)$/i` matches at the end of `name`. */
  predicate HasVideoSuffix(name: string)
  {
    |name| >= 4 && name[|name| - 4] == '.'
    && var ext := LowerAscii(name[|name| - 3..]); ext == "mp4" || ext == "mov"
  }

  /** What the case-insensitive match means character by character: for the
      ASCII pattern `mp4|mov`, matching under `/i` is the same as comparing the
      ASCII-lower-cased text, so each letter of the suffix may be in either
      case and the digit must be `4`. */
  lemma HasVideoSuffixCases(name: string)
    ensures HasVideoSuffix(name) <==>
      (|name| >= 4 && name[|name| - 4] == '.' && name[|name| - 3] in "mM"
       && ((name[|name| - 2] in "pP" && name[|name| - 1] == '4')
           || (name[|name| - 2] in "oO" && name[|name| - 1] in "vV")))
  {
    if |name| >= 4 {
      var e := LowerAscii(name[|name| - 3..]);
      assert e[0] == ToLowerAscii(name[|name| - 3]);
      assert e[1] == ToLowerAscii(name[|name| - 2]);
      assert e[2] == ToLowerAscii(name[|name| - 1]);
    }
  }

  /** `name.replace(/\.(mp4|mov)$/i, '.mp3')`. */
  function Mp3FileName(name: string): string
  {
    if HasVideoSuffix(name) then name[..|name| - 4] + ".mp3" else name
  }

  /** A trailing ".mp4" or ".mov", in any letter case, becomes ".mp3" and the
      rest of the name is kept; any other name is returned unchanged. */
  lemma Mp3FileNameOfVideo(base: string, ext: string)
    requires |ext| == 3 && (LowerAscii(ext) == "mp4" || LowerAscii(ext) == "mov")
    ensures Mp3FileName(base + "." + ext) == base + ".mp3"
  {
    var name := base + "." + ext;
    assert name[|name| - 3..] == ext;
    assert name[..|name| - 4] == base;
  }

  /** The name changes exactly when it has a video suffix. */
  lemma Mp3FileNameChangesIffVideo(name: string)
    ensures Mp3FileName(name) != name <==> HasVideoSuffix(name)
    ensures |Mp3FileName(name)| == |name|
  {
    if HasVideoSuffix(name) {
      var r := Mp3FileName(name);
      assert r[|r| - 1] == '3';
      var last := ToLowerAscii(name[|name| - 1]);
      assert last == LowerAscii(name[|name| - 3..])[2];
      assert last == '4' || last == 'v';
    }
  }

  /** Rewriting twice is rewriting once: ".mp3" is no video suffix. */
  lemma Mp3FileNameIdempotent(name: string)
    ensures Mp3FileName(Mp3FileName(name)) == Mp3FileName(name)
  {
    var r := Mp3FileName(name);
    if HasVideoSuffix(name) {
      assert r[|r| - 3..] == "mp3";
      assert LowerAscii(r[|r| - 3..])[2] == '3';
    }
  }

  /** Only the final suffix is rewritten. */
  lemma Mp3FileNameLastSuffixOnly()
    ensures Mp3FileName("a.mp4.mov") == "a.mp4.mp3"
  {
    Mp3FileNameOfVideo("a.mp4", "mov");
    assert "a.mp4" + "." + "mov" == "a.mp4.mov";
  }

  /** The suffix is matched in any letter case. */
  lemma Mp3FileNameExamples()
    ensures Mp3FileName("clip.MP4") == "clip.mp3"
    ensures Mp3FileName("holiday.Mov") == "holiday.mp3"
  {
    Mp3FileNameOfVideo("clip", "MP4");
    assert "clip" + "." + "MP4" == "clip.MP4";
    Mp3FileNameOfVideo("holiday", "Mov");
    assert "holiday" + "." + "Mov" == "holiday.Mov";
  }

  /** Names without a video suffix are kept: another extension, or the
      letters of a suffix with no dot. */
  lemma Mp3FileNameKept()
    ensures Mp3FileName("video.avi") == "video.avi"
    ensures Mp3FileName("mp4") == "mp4"
  {
    var avi := "video.avi";
    assert LowerAscii(avi[|avi| - 3..])[0] == 'a';
  }

  // ---------------------------------------------------------------------------
  // Recorded chunks
  // ---------------------------------------------------------------------------

  /** The bytes of a list of blobs, one after the other. */
  function Concat(blobs: seq<seq<Byte>>): seq<Byte>
    decreases |blobs|
  {
    if blobs == [] then [] else Concat(blobs[..|blobs| - 1]) + blobs[|blobs| - 1]
  }

  /** The blobs of a list that are not empty, in their order. */
  function NonEmpty(blobs: seq<seq<Byte>>): (r: seq<seq<Byte>>)
    ensures forall i :: 0 <= i < |r| ==> |r[i]| > 0
    decreases |blobs|
  {
    if blobs == [] then []
    else NonEmpty(blobs[..|blobs| - 1]) + (if |blobs[|blobs| - 1]| > 0 then [blobs[|blobs| - 1]] else [])
  }

  lemma NonEmptyAppend(blobs: seq<seq<Byte>>, b: seq<Byte>)
    ensures NonEmpty(blobs + [b]) == NonEmpty(blobs) + (if |b| > 0 then [b] else [])
  {
    assert (blobs + [b])[..|blobs|] == blobs;
  }

  lemma ConcatAppend(blobs: seq<seq<Byte>>, b: seq<Byte>)
    ensures Concat(blobs + [b]) == Concat(blobs) + b
  {
    assert (blobs + [b])[..|blobs|] == blobs;
  }

  /** Leaving out the empty blobs does not change the bytes. */
  lemma {:induction false} ConcatNonEmpty(blobs: seq<seq<Byte>>)
    ensures Concat(NonEmpty(blobs)) == Concat(blobs)
    decreases |blobs|
  {
    if blobs != [] {
      var init, last := blobs[..|blobs| - 1], blobs[|blobs| - 1];
      ConcatNonEmpty(init);
      if |last| > 0 {
        ConcatAppend(NonEmpty(init), last);
      } else {
        assert NonEmpty(blobs) == NonEmpty(init);
        assert Concat(blobs) == Concat(init) + last && last == [];
      }
    }
  }

  /** The delay of the stop timer, `(video.duration * 1000) || 10000`, with
      the duration given in whole milliseconds: an unknown or zero duration
      falls back to ten seconds. */
  function TimerDelay(durationMs: Option<nat>): (r: nat)
    ensures r > 0
    ensures durationMs.Some? && durationMs.value > 0 ==> r == durationMs.value
    ensures durationMs.None? || durationMs.value == 0 ==> r == FallbackDelay
  {
    match durationMs
    case None => FallbackDelay
    case Some(d) => if d == 0 then FallbackDelay else d
  }

  // ---------------------------------------------------------------------------
  // The conversion as an event machine
  // ---------------------------------------------------------------------------

  /** `MediaRecorder.state` as far as the converter drives it. */
  datatype RecorderState = Inactive | Recording

  /** How the returned promise settled. */
  datatype Settlement = Resolved(file: File) | Rejected(message: string)

  /** The file the `onstop` handler resolves with. */
  function AudioFile(videoName: string, chunks: seq<seq<Byte>>): (f: File)
    ensures f.mimeType == AudioType && f.name == Mp3FileName(videoName)
  {
    File(Mp3FileName(videoName), AudioType, Concat(chunks))
  }

  class Conversion {
    /** The video being converted. */
    const video: File

    var urlRevoked: bool
    var videoPaused: bool
    var playPending: bool
    var audioSourceCreated: bool
    var audioSourceConnected: bool
    var recorder: RecorderState
    var startCalls: nat
    var stopCalls: nat
    /** How often the browser stopped the recorder by itself (on an error). */
    var browserStops: nat
    var chunks: seq<seq<Byte>>
    var timerDelays: seq<nat>
    var timersFired: nat
    var outcome: Option<Settlement>

    /** The invariant: a settled conversion has released its object URL and a
        resolved one is an audio/mpeg file named after the video; the buffer
        holds no empty blob; the recorder is stopped, by `stop()` or by the
        browser, only after it was started, and the audio source is connected
        only after it was created. */
    ghost predicate Valid()
      reads this
    {
      && (outcome.Some? ==> urlRevoked)
      && (outcome.Some? && outcome.value.Resolved? ==>
            outcome.value.file.mimeType == AudioType && outcome.value.file.name == Mp3FileName(video.name))
      && (forall i :: 0 <= i < |chunks| ==> |chunks[i]| > 0)
      && timersFired <= |timerDelays|
      && (audioSourceConnected ==> audioSourceCreated)
      && (recorder == Recording ==> audioSourceCreated)
      && startCalls <= 1
      && (startCalls > 0 ==> audioSourceCreated)
      && (recorder == Recording <==> startCalls == stopCalls + browserStops + 1)
      && (recorder == Inactive <==> startCalls == stopCalls + browserStops)
    }

    /** The promise executor up to the point where it waits for events: the
        object URL is created and nothing is recorded or settled yet. */
    constructor (videoFile: File)
      ensures Valid() && video == videoFile
      ensures !urlRevoked && !videoPaused && !playPending
      ensures !audioSourceCreated && !audioSourceConnected && recorder == Inactive
      ensures startCalls == 0 && stopCalls == 0 && browserStops == 0
      ensures chunks == [] && timerDelays == [] && timersFired == 0
      ensures outcome == None
    {
      video := videoFile;
      urlRevoked, videoPaused, playPending := false, false, false;
      audioSourceCreated, audioSourceConnected := false, false;
      recorder := Inactive;
      startCalls, stopCalls, browserStops := 0, 0, 0;
      chunks, timerDelays, timersFired := [], [], 0;
      outcome := None;
    }

    /** `resolve` / `reject`: only the first call settles the promise. */
    method Settle(s: Settlement)
      modifies this`outcome
      ensures outcome == if old(outcome).None? then Some(s) else old(outcome)
    {
      if outcome.None? {
        outcome := Some(s);
      }
    }

    /** `onloadedmetadata`: asks the video to play. */
    method OnLoadedMetadata()
      requires Valid()
      modifies this`playPending
      ensures Valid() && playPending
    {
      playPending := true;
    }

    /** The play promise resolved: the audio source is created and connected
        and the recorder started. A second resolution finds the element
        already wired, so `createMediaElementSource` throws and the chained
        `catch` takes the play-failure path. */
    method OnPlayResolved()
      requires Valid() && playPending
      modifies this`playPending, this`urlRevoked, this`outcome, this`audioSourceCreated
      modifies this`audioSourceConnected, this`recorder, this`startCalls
      ensures Valid() && !playPending
      ensures !old(audioSourceCreated) ==>
        audioSourceCreated && audioSourceConnected && recorder == Recording
        && startCalls == old(startCalls) + 1 && stopCalls == old(stopCalls)
        && outcome == old(outcome) && urlRevoked == old(urlRevoked)
      ensures old(audioSourceCreated) ==>
        urlRevoked && recorder == old(recorder) && startCalls == old(startCalls)
        && audioSourceCreated && audioSourceConnected == old(audioSourceConnected)
        && outcome == (if old(outcome).None? then Some(Rejected(PlayFailedMessage)) else old(outcome))
    {
      playPending := false;
      if audioSourceCreated {
        urlRevoked := true;
        Settle(Rejected(PlayFailedMessage));
        return;
      }
      audioSourceCreated := true;
      audioSourceConnected := true;
      recorder := Recording;
      startCalls := startCalls + 1;
    }

    /** The play promise rejected: the URL is revoked and the conversion
        rejected with the play-failure message. */
    method OnPlayRejected()
      requires Valid() && playPending
      modifies this`playPending, this`urlRevoked, this`outcome
      ensures Valid() && !playPending && urlRevoked
      ensures outcome == if old(outcome).None? then Some(Rejected(PlayFailedMessage)) else old(outcome)
    {
      playPending := false;
      urlRevoked := true;
      Settle(Rejected(PlayFailedMessage));
    }

    /** `ondataavailable`: a blob is appended iff it is not empty; the blobs
        already buffered are untouched. This is the step of `NonEmpty`
        (`NonEmptyAppend`), so after any sequence of blobs the buffer is the
        `NonEmpty` of that sequence and holds all of its bytes
        (`ConcatNonEmpty`). */
    method OnDataAvailable(data: seq<Byte>)
      requires Valid()
      modifies this`chunks
      ensures Valid()
      ensures chunks == if |data| > 0 then old(chunks) + [data] else old(chunks)
    {
      if |data| > 0 {
        chunks := chunks + [data];
      }
    }

    /** `onloadeddata`: arms a stop timer for the video's duration. */
    method OnLoadedData(durationMs: Option<nat>)
      requires Valid()
      modifies this`timerDelays
      ensures Valid()
      ensures timerDelays == old(timerDelays) + [TimerDelay(durationMs)]
    {
      timerDelays := timerDelays + [TimerDelay(durationMs)];
    }

    /** An armed timer fires: the recorder is stopped only if it is not
        already inactive, so a second stop request changes nothing. */
    method OnTimer()
      requires Valid() && timersFired < |timerDelays|
      modifies this`timersFired, this`recorder, this`stopCalls
      ensures Valid() && timersFired == old(timersFired) + 1
      ensures recorder == Inactive
      ensures stopCalls == if old(recorder) == Inactive then old(stopCalls) else old(stopCalls) + 1
    {
      timersFired := timersFired + 1;
      if recorder != Inactive {
        recorder := Inactive;
        stopCalls := stopCalls + 1;
      }
    }

    /** `onstop`, which the browser fires once the recorder is inactive: the
        URL is revoked, the video paused, the audio source
        disconnected if it was created, and the conversion resolved with an
        audio/mpeg file named after the video that holds the buffered blobs
        one after the other. */
    method OnStop()
      requires Valid() && recorder == Inactive
      modifies this`urlRevoked, this`videoPaused, this`audioSourceConnected, this`outcome
      ensures Valid() && urlRevoked && videoPaused && !audioSourceConnected
      ensures outcome == if old(outcome).None? then Some(Resolved(AudioFile(video.name, chunks))) else old(outcome)
    {
      urlRevoked := true;
      videoPaused := true;
      if audioSourceCreated {
        audioSourceConnected := false;
      }
      Settle(Resolved(AudioFile(video.name, chunks)));
    }

    /** `MediaRecorder.onerror`: the browser has already made a running
        recorder inactive (without a `stop()` call of the converter); the URL
        is revoked and the conversion rejected with the recording-error
        message. */
    method OnRecorderError()
      requires Valid()
      modifies this`urlRevoked, this`outcome, this`recorder, this`browserStops
      ensures Valid() && urlRevoked && recorder == Inactive
      ensures browserStops == if old(recorder) == Recording then old(browserStops) + 1 else old(browserStops)
      ensures outcome == if old(outcome).None? then Some(Rejected(RecorderErrorMessage)) else old(outcome)
    {
      if recorder == Recording {
        recorder := Inactive;
        browserStops := browserStops + 1;
      }
      urlRevoked := true;
      Settle(Rejected(RecorderErrorMessage));
    }

    /** The video element's `onerror`: the URL is revoked and the conversion
        rejected with the loading-error message. */
    method OnVideoError()
      requires Valid()
      modifies this`urlRevoked, this`outcome
      ensures Valid() && urlRevoked
      ensures outcome == if old(outcome).None? then Some(Rejected(VideoErrorMessage)) else old(outcome)
    {
      urlRevoked := true;
      Settle(Rejected(VideoErrorMessage));
    }
  }

  /** A conversion whose playback has started: recording, nothing buffered,
      no timer armed, nothing settled. */
  method StartedConversion(video: File) returns (c: Conversion)
    ensures fresh(c) && c.Valid() && c.video == video
    ensures c.recorder == Recording && c.stopCalls == 0 && c.chunks == []
    ensures c.timerDelays == [] && c.timersFired == 0 && c.outcome == None
  {
    c := new Conversion(video);
    c.OnLoadedMetadata();
    c.OnPlayResolved();
  }

  /** Two stop timers are armed and both fire: the recorder is stopped once,
      and the buffer and the outcome are untouched. */
  method StopByTwoTimers(c: Conversion, durationMs: Option<nat>)
    requires c.Valid() && c.recorder == Recording && c.timersFired == |c.timerDelays|
    modifies c
    ensures c.Valid() && c.recorder == Inactive && c.stopCalls == old(c.stopCalls) + 1
    ensures c.chunks == old(c.chunks) && c.outcome == old(c.outcome)
  {
    c.OnLoadedData(durationMs);
    c.OnLoadedData(durationMs);
    c.OnTimer();
    c.OnTimer();
  }

  /** Two non-empty blobs arrive with an empty one between them: the
      buffer gains exactly the two, in order; nothing else changes. */
  method BufferAroundEmpty(c: Conversion, first: seq<Byte>, second: seq<Byte>)
    requires c.Valid() && |first| > 0 && |second| > 0
    modifies c
    ensures c.Valid() && c.chunks == old(c.chunks) + [first, second]
    ensures c.recorder == old(c.recorder) && c.stopCalls == old(c.stopCalls) && c.outcome == old(c.outcome)
    ensures c.timerDelays == old(c.timerDelays) && c.timersFired == old(c.timersFired)
  {
    c.OnDataAvailable(first);
    c.OnDataAvailable([]);
    c.OnDataAvailable(second);
  }

  /** A conversion that runs to its end: playback starts, three blobs arrive
      (the middle one empty), two stop timers are armed and fire. The
      recorder is stopped once, and the conversion resolves with an
      audio/mpeg file named after the video holding the bytes of the two
      non-empty blobs in arrival order. */
  method RecordingScenario(video: File, first: seq<Byte>, second: seq<Byte>, durationMs: Option<nat>)
    returns (outcome: Option<Settlement>, stops: nat, revoked: bool)
    requires |first| > 0 && |second| > 0
    ensures outcome == Some(Resolved(File(Mp3FileName(video.name), AudioType, first + second)))
    ensures stops == 1 && revoked
  {
    var c := StartedConversion(video);
    BufferAroundEmpty(c, first, second);
    StopByTwoTimers(c, durationMs);
    assert c.chunks == [first, second];
    ConcatPair(first, second);
    c.OnStop();
    outcome, stops, revoked := c.outcome, c.stopCalls, c.urlRevoked;
  }

  /** The bytes of two blobs are the first's followed by the second's. */
  lemma ConcatPair(a: seq<Byte>, b: seq<Byte>)
    ensures Concat([a, b]) == a + b
  {
    ConcatAppend([], a);
    ConcatAppend([a], b);
    assert [] + [a] == [a] && [a] + [b] == [a, b];
  }

  /** The stop timer armed by `onloadeddata` can fire before the play promise
      resolves. The guard then finds the recorder inactive and stops nothing;
      when playback starts afterwards the recorder runs with no timer left,
      so the conversion stays unsettled and its URL unreleased until an error
      event arrives. */
  method EarlyTimerScenario(video: File, durationMs: Option<nat>)
    returns (outcome: Option<Settlement>, recording: bool, stops: nat, timersLeft: nat, revoked: bool)
    ensures stops == 0
    ensures outcome.None? && recording && timersLeft == 0 && !revoked
  {
    var c := new Conversion(video);
    c.OnLoadedMetadata();
    c.OnLoadedData(durationMs);
    c.OnTimer();
    c.OnPlayResolved();
    outcome, recording, stops := c.outcome, c.recorder == Recording, c.stopCalls;
    timersLeft, revoked := |c.timerDelays| - c.timersFired, c.urlRevoked;
  }

  /** The recorder fails while recording and a stop timer is still armed:
      the browser makes the recorder inactive and fires `onstop` after
      `onerror`, so the conversion stays rejected with the recording-error
      message, and the timer that fires afterwards finds the recorder
      inactive and calls `stop()` no more. */
  method RecorderErrorScenario(video: File, durationMs: Option<nat>)
    returns (outcome: Option<Settlement>, stops: nat, revoked: bool)
    ensures outcome == Some(Rejected(RecorderErrorMessage))
    ensures stops == 0 && revoked
  {
    var c := StartedConversion(video);
    c.OnLoadedData(durationMs);
    c.OnRecorderError();
    c.OnStop();
    c.OnTimer();
    outcome, stops, revoked := c.outcome, c.stopCalls, c.urlRevoked;
  }
}
