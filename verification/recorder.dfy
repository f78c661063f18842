/** The recorder hook: whether a recording is running, the unsaved clip (the
    object URL of the last finished recording), the error message shown above
    the player, and the MediaRecorder the hook keeps in a ref. The camera
    request and the bridge's reply to a save are inputs; the browser's media
    objects become chunk sequences and a clip holding their bytes. */
module Recorder {
  import opened Types
  import Bridge

  /** One `dataavailable` payload of the MediaRecorder. */
  type Chunk = Bytes

  /** The Blob an unsaved recording's object URL refers to. */
  datatype Clip = Clip(data: Bytes)

  /** The MediaRecorder behind the ref, with the chunks its handlers have
      collected: none yet, one that is capturing, or one that was told to stop
      and whose `stop` event has not fired yet. */
  datatype Media = Inactive | Capturing(chunks: seq<Chunk>) | Stopping(chunks: seq<Chunk>)

  datatype Hook = Hook(isRecording: bool, unsaved: Option<Clip>, error: Option<string>, media: Media)

  /** The outcome of asking for the camera: a stream, or an exception whose
      message is given. */
  datatype Acquire = Granted | Denied(message: string)

  /** A save's effect on the hook, and the video the hook hands back to the
      page (`undefined` unless the bridge returned a record). */
  datatype SaveResult = SaveResult(recorder: Hook, video: Option<Video>)

  const StartErrorPrefix: string := "Failed to start recording: "
  const SaveErrorPrefix: string := "Failed to save video: "

  /** The hook's state on mount: all three `useState` defaults, an empty ref. */
  const Initial: Hook := Hook(false, None, None, Inactive)

  /** The bytes of a Blob built from chunks: the chunks' bytes in order. */
  function Concat(chunks: seq<Chunk>): Bytes {
    if |chunks| == 0 then [] else chunks[0] + Concat(chunks[1..])
  }

  /** A chunk that arrives later is placed after everything that came before it. */
  lemma {:induction false} ConcatAppend(chunks: seq<Chunk>, c: Chunk)
    ensures Concat(chunks + [c]) == Concat(chunks) + c
  {
    if |chunks| > 0 {
      assert (chunks + [c])[1..] == chunks[1..] + [c];
      ConcatAppend(chunks[1..], c);
    }
  }

  /** `deleteRecording`: revoke and forget the unsaved clip, if there is one. */
  function DeleteRecording(r: Hook): (r': Hook)
    ensures r'.unsaved.None?
    ensures r'.isRecording == r.isRecording && r'.error == r.error && r'.media == r.media
    ensures r.unsaved.None? ==> r' == r
  {
    if r.unsaved.Some? then r.(unsaved := None) else r
  }

  /** `startRecording`: discard any unsaved clip, then ask for the camera. On
      success a fresh MediaRecorder starts with an empty chunk list; on failure
      the hook is idle and shows the prefixed error message. */
  function StartRecording(r: Hook, acquire: Acquire): (r': Hook)
    ensures r'.unsaved.None?
    ensures acquire.Granted? ==> r'.isRecording && r'.media == Capturing([]) && r'.error == r.error
    ensures acquire.Denied? ==>
      && !r'.isRecording && r'.media == r.media
      && r'.error == Some(StartErrorPrefix + acquire.message)
  {
    var cleared := DeleteRecording(r);
    match acquire
    case Granted => cleared.(isRecording := true, media := Capturing([]))
    case Denied(message) =>
      cleared.(isRecording := false, unsaved := None, error := Some(StartErrorPrefix + message))
  }

  /** The `dataavailable` handler: the payload is pushed onto the chunk list of
      the running (or stopping) MediaRecorder. */
  function DataAvailable(r: Hook, c: Chunk): (r': Hook)
    ensures r'.isRecording == r.isRecording && r'.unsaved == r.unsaved && r'.error == r.error
    ensures r.media.Capturing? ==> r'.media == Capturing(r.media.chunks + [c])
    ensures r.media.Stopping? ==> r'.media == Stopping(r.media.chunks + [c])
    ensures r.media.Inactive? ==> r' == r
  {
    match r.media
    case Inactive => r
    case Capturing(chunks) => r.(media := Capturing(chunks + [c]))
    case Stopping(chunks) => r.(media := Stopping(chunks + [c]))
  }

  /** `stopRecording`: tell the MediaRecorder (if any) to stop and mark the hook
      as not recording. The clip appears only when the `stop` event fires. */
  function StopRecording(r: Hook): (r': Hook)
    ensures !r'.isRecording && r'.unsaved == r.unsaved && r'.error == r.error
    ensures r.media.Capturing? ==> r'.media == Stopping(r.media.chunks)
    ensures !r.media.Capturing? ==> r'.media == r.media
  {
    match r.media
    case Capturing(chunks) => r.(isRecording := false, media := Stopping(chunks))
    case _ => r.(isRecording := false)
  }

  /** The `stop` handler: the collected chunks become the unsaved clip and the
      MediaRecorder is done. It fires after a stop request, and also when the
      camera's track ends by itself during a recording (the device is unplugged
      or access is revoked). The handler does not touch `isRecording`, so in
      that second case the hook still says it is recording, now with a clip. */
  function RecorderStopped(r: Hook): (r': Hook)
    ensures !r.media.Inactive? ==>
      && r'.unsaved == Some(Clip(Concat(r.media.chunks)))
      && r'.media == Inactive
      && r'.isRecording == r.isRecording && r'.error == r.error
    ensures r.media.Inactive? ==> r' == r
  {
    match r.media
    case Inactive => r
    case Capturing(chunks) => r.(unsaved := Some(Clip(Concat(chunks))), media := Inactive)
    case Stopping(chunks) => r.(unsaved := Some(Clip(Concat(chunks))), media := Inactive)
  }

  /** `saveRecording` given the bridge's reply: without an unsaved clip nothing
      happens and nothing is returned; a returned record clears the clip and is
      handed back; a cancel keeps the clip; a rejection keeps the clip and shows
      the prefixed error message. */
  function SaveRecording(r: Hook, reply: Bridge.SaveReply): (out: SaveResult)
    ensures r.unsaved.None? ==> out == SaveResult(r, None)
    ensures out.video.Some? <==> r.unsaved.Some? && reply.Returned?
    ensures out.video.Some? ==> out.video.value == reply.video && out.recorder.unsaved.None?
    ensures out.video.None? ==> out.recorder.unsaved == r.unsaved
    ensures r.unsaved.Some? && reply.Rejected? ==> out.recorder.error == Some(SaveErrorPrefix + reply.message)
    ensures !(r.unsaved.Some? && reply.Rejected?) ==> out.recorder.error == r.error
    ensures out.recorder.isRecording == r.isRecording && out.recorder.media == r.media
  {
    if r.unsaved.None? then SaveResult(r, None)
    else
      match reply
      case Returned(video) => SaveResult(r.(unsaved := None), Some(video))
      case Cancelled => SaveResult(r, None)
      case Rejected(message) => SaveResult(r.(error := Some(SaveErrorPrefix + message)), None)
  }

  /** The hook's flags agree with its MediaRecorder: while one is capturing the
      hook says it is recording and holds no unsaved clip, and once one was
      told to stop the hook says it is not recording. With no MediaRecorder
      running the hook may still say it is recording: after the camera ended
      the recording by itself, until Stop is pressed. */
  predicate Coherent(r: Hook) {
    && (r.media.Capturing? ==> r.isRecording && r.unsaved.None?)
    && (r.media.Stopping? ==> !r.isRecording)
  }

  /** An error message, once shown, stays: nothing sets `error` back to null. */
  predicate KeepsError(r: Hook, r': Hook) {
    r.error.Some? ==> r'.error.Some?
  }

  /** Starting keeps a shown error, and keeps the hook coherent when it was not
      recording already (the page offers Start only then): a failed start during
      a recording would leave the old MediaRecorder capturing while the hook says
      it is not. */
  lemma StartKeepsCoherent(r: Hook, acquire: Acquire)
    requires Coherent(r)
    ensures KeepsError(r, StartRecording(r, acquire))
    ensures !r.isRecording ==> Coherent(StartRecording(r, acquire))
  {
  }

  /** A chunk arriving keeps the hook coherent and a shown error shown. */
  lemma ChunkKeepsCoherent(r: Hook, c: Chunk)
    requires Coherent(r)
    ensures Coherent(DataAvailable(r, c)) && KeepsError(r, DataAvailable(r, c))
  {
  }

  /** Asking the MediaRecorder to stop keeps the hook coherent and a shown
      error shown. */
  lemma StopKeepsCoherent(r: Hook)
    requires Coherent(r)
    ensures Coherent(StopRecording(r)) && KeepsError(r, StopRecording(r))
  {
  }

  /** The `stop` event keeps the hook coherent and a shown error shown, whether
      it follows a stop request or the camera ended the recording by itself. */
  lemma StoppedKeepsCoherent(r: Hook)
    requires Coherent(r)
    ensures Coherent(RecorderStopped(r)) && KeepsError(r, RecorderStopped(r))
  {
  }

  /** Discarding the unsaved clip keeps the hook coherent and a shown error shown. */
  lemma DiscardKeepsCoherent(r: Hook)
    requires Coherent(r)
    ensures Coherent(DeleteRecording(r)) && KeepsError(r, DeleteRecording(r))
  {
  }

  /** Saving, whatever the bridge replies, keeps the hook coherent and a shown
      error shown. */
  lemma SaveKeepsCoherent(r: Hook, reply: Bridge.SaveReply)
    requires Coherent(r)
    ensures Coherent(SaveRecording(r, reply).recorder) && KeepsError(r, SaveRecording(r, reply).recorder)
  {
  }

  /** Starting is the same whether or not an unsaved clip was discarded first. */
  lemma StartDiscardsFirst(r: Hook, acquire: Acquire)
    ensures StartRecording(r, acquire) == StartRecording(DeleteRecording(r), acquire)
  {
  }

  /** Every chunk of a sequence delivered, in order, to the `dataavailable` handler. */
  function Feed(r: Hook, chunks: seq<Chunk>): Hook
    decreases |chunks|
  {
    if |chunks| == 0 then r else Feed(DataAvailable(r, chunks[0]), chunks[1..])
  }

  /** Feeding a capturing recorder appends the chunks to its list and changes nothing else. */
  lemma {:induction false} FeedAppends(r: Hook, chunks: seq<Chunk>)
    requires r.media.Capturing?
    ensures Feed(r, chunks) == r.(media := Capturing(r.media.chunks + chunks))
    decreases |chunks|
  {
    if |chunks| > 0 {
      var r1 := DataAvailable(r, chunks[0]);
      FeedAppends(r1, chunks[1..]);
      assert r1.media.chunks + chunks[1..] == r.media.chunks + chunks;
    }
  }

  /** One recording cycle: a granted start, the chunks in arrival order, a stop
      and its `stop` event leave an idle hook whose unsaved clip holds exactly
      the chunks' bytes in arrival order. */
  lemma RecordingCycle(r: Hook, chunks: seq<Chunk>)
    ensures var r' := RecorderStopped(StopRecording(Feed(StartRecording(r, Granted), chunks)));
      && r'.unsaved == Some(Clip(Concat(chunks)))
      && !r'.isRecording && r'.media == Inactive && r'.error == r.error
  {
    FeedAppends(StartRecording(r, Granted), chunks);
    assert [] + chunks == chunks;
  }

  /** A recording the camera ends by itself: a granted start and the chunks in
      arrival order, then the `stop` event with no stop request, leave a clip
      of exactly those bytes while the hook still says it is recording. A later
      Stop press only clears that flag: the MediaRecorder is already inactive,
      so its `stop()` does nothing, and the clip stays. */
  lemma TrackEndCycle(r: Hook, chunks: seq<Chunk>)
    ensures var r' := RecorderStopped(Feed(StartRecording(r, Granted), chunks));
      && r'.unsaved == Some(Clip(Concat(chunks)))
      && r'.isRecording && r'.media == Inactive && r'.error == r.error
      && StopRecording(r') == r'.(isRecording := false)
  {
    FeedAppends(StartRecording(r, Granted), chunks);
    assert [] + chunks == chunks;
  }
}
