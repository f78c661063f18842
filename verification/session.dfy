/** The whole application as one state machine: the page, the recorder hook and
    the disk, driven by user clicks and browser events. Each event runs its
    handler to completion and the page then re-renders, which sorts the page's
    list in place. The invariant `Good` says every listed video is backed by a
    file of its size, paths are unique, the list is newest first, a selection
    is a listed video, and the hook is coherent; every event the page offers
    keeps it. */
module Session {
  import opened Types
  import FileNames
  import Bridge
  import Recorder
  import VideoList
  import App

  datatype World = World(page: App.Page, recorder: Recorder.Hook, fs: Bridge.FileSystem)

  /** A click or a browser event, with the outcome of whatever foreign call its
      handler makes (camera request, save dialog and clock, write or unlink). */
  datatype Event =
    | PressCreateNew
    | PressStart(acquire: Recorder.Acquire)
    | PressStop
    | ChunkArrives(chunk: Recorder.Chunk)
    | RecorderStops
    | PressDiscard
    | PressSave(chosen: string, now: int, io: Bridge.Io)
    | PressDelete(io: Bridge.Io)
    | PickRow(index: nat)

  /** A fresh launch: empty page, idle hook, whatever files are on disk. */
  function Launch(fs: Bridge.FileSystem): World {
    World(App.Initial, Recorder.Initial, fs)
  }

  /** Whether the page can produce the event now: a click needs its button to
      be shown (a row, to exist); browser events can always arrive. */
  predicate Offered(w: World, e: Event) {
    match e
    case PressCreateNew => App.Shown(w.page, w.recorder, App.CreateNew)
    case PressStart(_) => App.Shown(w.page, w.recorder, App.Start)
    case PressStop => App.Shown(w.page, w.recorder, App.Stop)
    case ChunkArrives(_) => true
    case RecorderStops => true
    case PressDiscard => App.Shown(w.page, w.recorder, App.Discard)
    case PressSave(_, _, _) => App.Shown(w.page, w.recorder, App.Save)
    case PressDelete(_) => App.Shown(w.page, w.recorder, App.DeleteSaved)
    case PickRow(i) => i < |w.page.videos|
  }

  /** "Save Recording": the hook sends the unsaved clip's bytes to the bridge,
      takes the reply, and the page upserts and selects what comes back. */
  function SaveClip(w: World, chosen: string, now: int, io: Bridge.Io): World {
    match w.recorder.unsaved
    case None => w
    case Some(clip) =>
      var saved := Bridge.SaveVideo(w.fs, chosen, clip.data, now, io);
      var result := Recorder.SaveRecording(w.recorder, saved.reply);
      World(App.HandleSaveRecording(w.page, result.video), result.recorder, saved.fs)
  }

  /** "Delete" under the selected video: unlink it, then update the page only
      if the unlink went through. */
  function DeleteSelected(w: World, io: Bridge.Io): World {
    match w.page.selected
    case None => w
    case Some(v) =>
      match Bridge.DeleteVideo(w.fs, v.path, io)
      case Unlinked(fs) => World(App.HandleDeleteVideo(w.page, v, true), w.recorder, fs)
      case Refused(_) => World(App.HandleDeleteVideo(w.page, v, false), w.recorder, w.fs)
  }

  /** The handler of one event. */
  function Handle(w: World, e: Event): World {
    match e
    case PressCreateNew => w.(page := App.CreateNewRecording(w.page))
    case PressStart(acquire) => w.(recorder := Recorder.StartRecording(w.recorder, acquire))
    case PressStop => w.(recorder := Recorder.StopRecording(w.recorder))
    case ChunkArrives(c) => w.(recorder := Recorder.DataAvailable(w.recorder, c))
    case RecorderStops => w.(recorder := Recorder.RecorderStopped(w.recorder))
    case PressDiscard => w.(recorder := Recorder.DeleteRecording(w.recorder))
    case PressSave(chosen, now, io) => SaveClip(w, chosen, now, io)
    case PressDelete(io) => DeleteSelected(w, io)
    case PickRow(i) =>
      if i < |w.page.videos| then w.(page := App.SelectVideo(w.page, w.page.videos[i])) else w
  }

  /** The render that follows: the list panel sorts the page's array in place. */
  function Rerender(w: World): World {
    w.(page := w.page.(videos := VideoList.Render(w.page.videos, w.page.selected).videos))
  }

  function Step(w: World, e: Event): World {
    Rerender(Handle(w, e))
  }

  function Run(w: World, events: seq<Event>): World
    decreases |events|
  {
    if |events| == 0 then w else Run(Step(w, events[0]), events[1..])
  }

  /** Every event of the sequence is offered in the state it arrives in. */
  predicate Admissible(w: World, events: seq<Event>)
    decreases |events|
  {
    |events| == 0 || (Offered(w, events[0]) && Admissible(Step(w, events[0]), events[1..]))
  }

  /** Every listed video has a file on disk of its size, and its name is its
      path's last segment. */
  predicate Backed(vs: seq<Video>, fs: Bridge.FileSystem) {
    forall v :: v in vs ==> v.path in fs && |fs[v.path]| == v.size && v.name == FileNames.FileName(v.path)
  }

  /** The invariant, apart from the order the render restores. */
  predicate Consistent(w: World) {
    && UniquePaths(w.page.videos)
    && Backed(w.page.videos, w.fs)
    && (w.page.selected.Some? ==> w.page.selected.value in w.page.videos)
    && Recorder.Coherent(w.recorder)
  }

  predicate Good(w: World) {
    Consistent(w) && VideoList.NewerFirst(w.page.videos)
  }

  lemma LaunchIsGood(fs: Bridge.FileSystem)
    ensures Good(Launch(fs))
  {
  }

  /** The render keeps the list's members and makes it newest first; on a list
      that is already newest first it changes nothing. */
  lemma RerenderRestoresOrder(w: World)
    requires Consistent(w)
    ensures Good(Rerender(w))
    ensures forall v :: v in Rerender(w).page.videos <==> v in w.page.videos
    ensures |Rerender(w).page.videos| == |w.page.videos|
    ensures Paths(Rerender(w).page.videos) == Paths(w.page.videos)
    ensures VideoList.NewerFirst(w.page.videos) ==> Rerender(w) == w
  {
    var vs := w.page.videos;
    VideoList.SortKeepsMembers(vs);
    VideoList.SortKeepsPathsUnique(vs);
    if VideoList.NewerFirst(vs) {
      VideoList.SortKeepsSorted(vs);
      assert w.page.(videos := vs) == w.page;
    }
  }

  lemma SaveClipKeepsConsistent(w: World, chosen: string, now: int, io: Bridge.Io)
    requires Consistent(w)
    ensures Consistent(SaveClip(w, chosen, now, io))
  {
    if w.recorder.unsaved.Some? {
      var clip := w.recorder.unsaved.value;
      var saved := Bridge.SaveVideo(w.fs, chosen, clip.data, now, io);
      var result := Recorder.SaveRecording(w.recorder, saved.reply);
      Recorder.SaveKeepsCoherent(w.recorder, saved.reply);
      if result.video.Some? {
        var v := result.video.value;
        var vs := w.page.videos;
        App.UpsertKeepsPathsUnique(vs, v);
        var r := App.Upsert(vs, v);
        forall x | x in r
          ensures x.path in saved.fs && |saved.fs[x.path]| == x.size && x.name == FileNames.FileName(x.path)
        {
          App.UpsertMembers(vs, v, x);
        }
      }
    }
  }

  lemma DeleteSelectedKeepsConsistent(w: World, io: Bridge.Io)
    requires Consistent(w)
    ensures Consistent(DeleteSelected(w, io))
  {
    if w.page.selected.Some? {
      var v := w.page.selected.value;
      App.WithoutPathKeepsOrder(w.page.videos, v.path);
    }
  }

  /** Every offered event's handler keeps the invariant apart from the order.
      Start is the one that needs to be offered: pressed during a recording, a
      refused camera would leave the old MediaRecorder capturing while the page
      believes it stopped. */
  lemma HandleKeepsConsistent(w: World, e: Event)
    requires Consistent(w) && Offered(w, e)
    ensures Consistent(Handle(w, e))
  {
    match e
    case PressStart(acquire) =>
      Recorder.StartKeepsCoherent(w.recorder, acquire);
    case ChunkArrives(c) =>
      Recorder.ChunkKeepsCoherent(w.recorder, c);
    case PressStop =>
      Recorder.StopKeepsCoherent(w.recorder);
    case RecorderStops =>
      Recorder.StoppedKeepsCoherent(w.recorder);
    case PressDiscard =>
      Recorder.DiscardKeepsCoherent(w.recorder);
    case PressSave(chosen, now, io) => SaveClipKeepsConsistent(w, chosen, now, io);
    case PressDelete(io) => DeleteSelectedKeepsConsistent(w, io);
    case PressCreateNew =>
    case PickRow(i) =>
  }

  /** Every offered event keeps the invariant. */
  lemma StepKeepsGood(w: World, e: Event)
    requires Good(w) && Offered(w, e)
    ensures Good(Step(w, e))
  {
    HandleKeepsConsistent(w, e);
    RerenderRestoresOrder(Handle(w, e));
  }

  /** No handler clears a shown error message. */
  lemma HandleKeepsError(w: World, e: Event)
    ensures Recorder.KeepsError(w.recorder, Step(w, e).recorder)
  {
  }

  /** Every run of offered events from a good state ends in a good state; in
      particular every run from a fresh launch does. */
  lemma {:induction false} RunKeepsGood(w: World, events: seq<Event>)
    requires Good(w) && Admissible(w, events)
    ensures Good(Run(w, events))
    decreases |events|
  {
    if |events| > 0 {
      StepKeepsGood(w, events[0]);
      RunKeepsGood(Step(w, events[0]), events[1..]);
    }
  }

  /** Once an error message is shown, no sequence of events, offered or not,
      clears it. */
  lemma {:induction false} ErrorIsNeverCleared(w: World, events: seq<Event>)
    requires w.recorder.error.Some?
    ensures Run(w, events).recorder.error.Some?
    decreases |events|
  {
    if |events| > 0 {
      var e := events[0];
      HandleKeepsError(w, e);
      ErrorIsNeverCleared(Step(w, e), events[1..]);
    }
  }

  /** The save handler's part of a successful save, before the render. */
  lemma SaveClipSucceeds(w: World, chosen: string, now: int)
    requires Consistent(w) && w.recorder.unsaved.Some? && chosen != ""
    ensures var h := SaveClip(w, chosen, now, Bridge.Succeeds);
      var data := w.recorder.unsaved.value.data;
      && h.fs == w.fs[chosen := data]
      && h.page.selected == Some(Bridge.RecordFor(chosen, data, now))
      && h.page.selected.value in h.page.videos
      && Paths(h.page.videos) == Paths(w.page.videos) + {chosen}
      && |h.page.videos| == |w.page.videos| + (if chosen in Paths(w.page.videos) then 0 else 1)
      && h.recorder.unsaved.None?
  {
    var data := w.recorder.unsaved.value.data;
    App.UpsertKeepsPathsUnique(w.page.videos, Bridge.RecordFor(chosen, data, now));
  }

  /** A successful save: the clip's bytes are on disk at the chosen path, the
      page lists and selects a record of that path, size and time, the list
      grew by one exactly when the path was new, and the clip is gone. */
  lemma SaveSucceeds(w: World, chosen: string, now: int)
    requires Good(w) && w.recorder.unsaved.Some? && chosen != ""
    ensures var w' := Step(w, PressSave(chosen, now, Bridge.Succeeds));
      var data := w.recorder.unsaved.value.data;
      && chosen in w'.fs && w'.fs[chosen] == data
      && w'.fs.Keys == w.fs.Keys + {chosen}
      && w'.page.selected.Some?
      && w'.page.selected.value.path == chosen
      && w'.page.selected.value.size == |data|
      && w'.page.selected.value.createdAt == now
      && w'.page.selected.value in w'.page.videos
      && Paths(w'.page.videos) == Paths(w.page.videos) + {chosen}
      && |w'.page.videos| == |w.page.videos| + (if chosen in Paths(w.page.videos) then 0 else 1)
      && w'.recorder.unsaved.None?
  {
    var h := Handle(w, PressSave(chosen, now, Bridge.Succeeds));
    SaveClipKeepsConsistent(w, chosen, now, Bridge.Succeeds);
    SaveClipSucceeds(w, chosen, now);
    RerenderRestoresOrder(h);
  }

  /** A save that yields no video (no clip, a cancelled dialog, a failed
      write) leaves the list, the selection, the disk and the clip alone. */
  lemma SaveWithoutVideoChangesNothing(w: World, chosen: string, now: int, io: Bridge.Io)
    requires Good(w)
    requires w.recorder.unsaved.None? || chosen == "" || io.Fails?
    ensures var w' := Step(w, PressSave(chosen, now, io));
      && w'.page == w.page && w'.fs == w.fs
      && w'.recorder.unsaved == w.recorder.unsaved
      && w'.recorder.isRecording == w.recorder.isRecording
  {
    var h := Handle(w, PressSave(chosen, now, io));
    assert h.page == w.page;
    assert Consistent(h);
    RerenderRestoresOrder(h);
  }

  /** A save to a new path at a time no earlier than every listed video goes
      to the front, ahead of the list as it was. */
  lemma NewestSaveGoesFirst(w: World, chosen: string, now: int)
    requires Good(w) && w.recorder.unsaved.Some? && chosen != ""
    requires chosen !in Paths(w.page.videos)
    requires forall v :: v in w.page.videos ==> now >= v.createdAt
    ensures var w' := Step(w, PressSave(chosen, now, Bridge.Succeeds));
      w'.page.videos == [w'.page.selected.value] + w.page.videos
  {
    var h := Handle(w, PressSave(chosen, now, Bridge.Succeeds));
    var v := h.page.selected.value;
    assert h.page.videos == [v] + w.page.videos;
    VideoList.NewerFirstCons(v, w.page.videos);
    SaveClipKeepsConsistent(w, chosen, now, Bridge.Succeeds);
    RerenderRestoresOrder(h);
  }

  /** A delete that goes through: the file and every list entry with its path
      are gone, the rest of the list and the disk are as before, and the
      selection is the newest remaining video, or none. */
  lemma DeleteSucceeds(w: World)
    requires Good(w) && w.page.selected.Some?
    ensures var v := w.page.selected.value;
      var w' := Step(w, PressDelete(Bridge.Succeeds));
      && w'.fs == w.fs - {v.path}
      && w'.page.videos == App.WithoutPath(w.page.videos, v.path)
      && v.path !in Paths(w'.page.videos)
      && (w'.page.selected.None? <==> |w'.page.videos| == 0)
      && (w'.page.selected.Some? ==>
            && w'.page.selected.value == w'.page.videos[0]
            && forall x :: x in w'.page.videos ==> w'.page.selected.value.createdAt >= x.createdAt)
  {
    var v := w.page.selected.value;
    var h := Handle(w, PressDelete(Bridge.Succeeds));
    DeleteSelectedKeepsConsistent(w, Bridge.Succeeds);
    App.DeleteSelectsNewest(w.page, v);
    RerenderRestoresOrder(h);
  }

  /** A delete the disk refuses changes nothing at all. */
  lemma DeleteFailureChangesNothing(w: World, io: Bridge.Io)
    requires Good(w) && io.Fails?
    ensures Step(w, PressDelete(io)) == w
  {
    var h := Handle(w, PressDelete(io));
    assert h == w;
    RerenderRestoresOrder(h);
  }

  /** The camera ends a recording by itself: after a start, a chunk and the
      `stop` event with no Stop press, the run was offered throughout and the
      state is still good, the chunk's bytes are the unsaved clip, and the page
      shows Stop together with Save and Discard. Pressing Stop then leaves the
      clip and hides Stop. */
  lemma TrackEndShowsStopWithSave(fs: Bridge.FileSystem, c: Recorder.Chunk)
    ensures var events := [PressStart(Recorder.Granted), ChunkArrives(c), RecorderStops];
      var w := Run(Launch(fs), events);
      && Admissible(Launch(fs), events)
      && Good(w)
      && w.recorder.unsaved == Some(Recorder.Clip(c))
      && App.Shown(w.page, w.recorder, App.Stop)
      && App.Shown(w.page, w.recorder, App.Save)
      && App.Shown(w.page, w.recorder, App.Discard)
      && Offered(w, PressStop)
      && Step(w, PressStop).recorder.unsaved == w.recorder.unsaved
      && !App.Shown(Step(w, PressStop).page, Step(w, PressStop).recorder, App.Stop)
  {
    var w0 := Launch(fs);
    var w1 := Step(w0, PressStart(Recorder.Granted));
    var w2 := Step(w1, ChunkArrives(c));
    var w3 := Step(w2, RecorderStops);
    assert VideoList.Render([], None).videos == [];
    assert w1 == World(App.Initial, Recorder.Hook(true, None, None, Recorder.Capturing([])), fs);
    assert w2 == World(App.Initial, Recorder.Hook(true, None, None, Recorder.Capturing([c])), fs);
    assert Recorder.Concat([c]) == c by {
      assert [c][1..] == [];
    }
    assert w3 == World(App.Initial, Recorder.Hook(true, Some(Recorder.Clip(c)), None, Recorder.Inactive), fs);
    var events := [PressStart(Recorder.Granted), ChunkArrives(c), RecorderStops];
    assert events[1..] == [ChunkArrives(c), RecorderStops];
    assert events[1..][1..] == [RecorderStops];
    assert Admissible(w2, [RecorderStops]) && Run(w2, [RecorderStops]) == w3;
    assert Admissible(w1, events[1..]) && Run(w1, events[1..]) == w3;
    assert Admissible(w0, events) && Run(w0, events) == w3;
    LaunchIsGood(fs);
    StepKeepsGood(w0, PressStart(Recorder.Granted));
    StepKeepsGood(w1, ChunkArrives(c));
    StepKeepsGood(w2, RecorderStops);
  }
}
