# Video recorder: saved-video list, recorder hook and persistence bridge in Dafny

The application records a clip from the camera, lets the user save it to a path
chosen in a save dialog or discard it, and keeps a list of the videos saved in
this session, newest first, one of which can be selected, viewed and deleted.
Under the Electron and React plumbing sit a few pure state transitions. This
project models them as pure functions over immutable state:

- `FileNames` (`file_names.dfy`): the `save-video` handler's display name, the last `/`-separated segment of the chosen path.
- `Bridge` (`bridge.dfy`): the `save-video` and `delete-video` IPC handlers of the main
  process, over a disk seen as `map<string, seq<byte>>`.
- `Recorder` (`recorder.dfy`): the `useVideoRecorder` hook. Its state is `isRecording`,
  the unsaved clip, the error message, and the MediaRecorder with the chunks it collected.
- `VideoList` (`video_list.dfy`): the list panel's in-place stable sort, newest first.
  It also draws one row per video, marks the selected path, and shows a placeholder when empty.
- `App` (`app.dfy`): the page's `videos` and `selectedVideo`, covering the save upsert,
  the delete filter and reselection, "Create New Recording", row selection, and which
  buttons are shown.
- `Session` (`session.dfy`): the whole application as one state machine over page,
  hook and disk. Each event runs its handler and then the render, which sorts the page's
  array in place. It states the invariant every offered event keeps, and proves
  end-to-end save and delete properties.
- `Types` (`types.dfy`): bytes, `Option`, the `Video` record, and path uniqueness.

Foreign calls become inputs: the save dialog's path (empty when cancelled), the clock
(`createdAt` is the millisecond count), the operating system's verdict on a write or an
unlink (`Bridge.Io`), and the camera request (`Recorder.Acquire`).

Four behaviours of the code are easy to misread:

- `handleDeleteVideo` awaits the bridge's delete before it touches the list. A rejected
  unlink therefore leaves the list and the selection unchanged. Nothing is removed optimistically.
- After a successful delete the selection always moves to the new first entry, or to
  none. It does not stay put when another video was deleted. The page can only delete
  the selected video anyway, because the list panel ignores its `onDelete`.
- A save to a listed path replaces that entry at its index. Only the next render moves
  it, through the sort.
- A MediaRecorder also stops by itself when the camera's track ends, for example when
  the device is unplugged. Its `stop` handler then sets the unsaved clip but leaves
  `isRecording` true, so the page shows Stop Recording together with Save and Delete
  Recording. Pressing Stop then only clears the flag, because the MediaStream Recording
  specification makes `stop()` on an inactive recorder do nothing.

## Model

| member | source | states |
|---|---|---|
| FileNames.Split | packages/main/src/index.ts:75 | `split('/')` gives at least one segment, and no segment contains `/` |
| FileNames.JoinSplit | packages/main/src/index.ts:75 | joining the segments with `/` gives the path back |
| FileNames.SplitJoin | packages/main/src/index.ts:75 | splitting the join of `/`-free segments gives the segments back |
| FileNames.FileNameIsLastSegment | packages/main/src/index.ts:75 | the name has no `/`, ends the path, and is the whole path or follows a `/` |
| FileNames.FileNameOfPlainName | packages/main/src/index.ts:75 | a path without `/` is its own name |
| Bridge.RecordFor | packages/main/src/index.ts:79-84 | the record has the chosen path, the buffer's length as size, the current time, and the path's last segment as name |
| Bridge.SaveVideo | packages/main/src/index.ts:69-87 | an empty path writes nothing and replies null. Otherwise a record comes back exactly when the write succeeds, and then the disk holds the buffer at that path with every other file unchanged. A failed write rejects with its message and leaves the disk alone |
| Bridge.DeleteVideo | packages/main/src/index.ts:89-92 | resolves exactly when the file exists and the unlink succeeds, and then exactly that path is gone. A missing file rejects with not-found, and a refused unlink rejects with the OS message |
| Bridge.SaveThenDelete | packages/main/src/index.ts:69-92 | deleting a just-saved file leaves every other file as before; deleting it again finds nothing |
| Recorder.ConcatAppend | packages/renderer/src/hooks/useVideoRecorder.ts:22-25 | a chunk that arrives later comes after all earlier bytes in the clip |
| Recorder.DeleteRecording | packages/renderer/src/hooks/useVideoRecorder.ts:61-66 | discarding leaves no unsaved clip and changes nothing else; with no clip it is a no-op |
| Recorder.StartRecording | packages/renderer/src/hooks/useVideoRecorder.ts:11-39 | any unsaved clip is dropped. Success means recording with a fresh, empty MediaRecorder. Failure means not recording, with error "Failed to start recording: " plus the message |
| Recorder.StartDiscardsFirst | packages/renderer/src/hooks/useVideoRecorder.ts:12-15 | starting behaves the same as discarding first and then starting |
| Recorder.DataAvailable | packages/renderer/src/hooks/useVideoRecorder.ts:22 | a chunk is appended to the live MediaRecorder's list and nothing else changes |
| Recorder.StopRecording | packages/renderer/src/hooks/useVideoRecorder.ts:56-59 | the hook is no longer recording, and a capturing MediaRecorder is now stopping with its chunks |
| Recorder.RecorderStopped | packages/renderer/src/hooks/useVideoRecorder.ts:23-29 | the stop event, whether it follows a stop request or the camera ended the recording, makes the unsaved clip the concatenation of the collected chunks and leaves `isRecording` as it was |
| Recorder.SaveRecording | packages/renderer/src/hooks/useVideoRecorder.ts:41-54 | with no clip: no change and no result. A video comes back exactly when the bridge returned one, and only then is the clip cleared. A cancel keeps the clip. A rejection keeps it and sets "Failed to save video: " plus the message |
| Recorder.StartKeepsCoherent | packages/renderer/src/hooks/useVideoRecorder.ts:11-39 | a start never clears a shown error. From a hook that is not recording it keeps the hook coherent (a capturing MediaRecorder means recording with no clip; a stopping one means not recording), whether the camera is granted or refused |
| Recorder.ChunkKeepsCoherent | packages/renderer/src/hooks/useVideoRecorder.ts:20-22 | a chunk arriving keeps the hook coherent and a shown error shown |
| Recorder.StopKeepsCoherent | packages/renderer/src/hooks/useVideoRecorder.ts:56-59 | stopping keeps the hook coherent and a shown error shown |
| Recorder.StoppedKeepsCoherent | packages/renderer/src/hooks/useVideoRecorder.ts:23-29 | the `stop` event keeps the hook coherent and a shown error shown, also when it comes from a recorder that was still capturing |
| Recorder.DiscardKeepsCoherent | packages/renderer/src/hooks/useVideoRecorder.ts:61-66 | discarding the clip keeps the hook coherent and a shown error shown |
| Recorder.SaveKeepsCoherent | packages/renderer/src/hooks/useVideoRecorder.ts:41-54 | a save, whatever the bridge replies, keeps the hook coherent and a shown error shown |
| Recorder.FeedAppends | packages/renderer/src/hooks/useVideoRecorder.ts:20-22 | delivering chunks to a capturing recorder appends them in order |
| Recorder.RecordingCycle | packages/renderer/src/hooks/useVideoRecorder.ts:11-59 | start, chunks, stop and the stop event leave an idle hook whose clip is the chunks' bytes in arrival order |
| Recorder.TrackEndCycle | packages/renderer/src/hooks/useVideoRecorder.ts:11-59 | a granted start and chunks followed by the stop event, with no Stop press, leave the chunks' bytes as the clip while the hook still says it is recording; a later Stop only clears that flag |
| VideoList.SortNewestFirst | packages/renderer/src/components/VideoList.tsx:25 | the sorted list has the same length and the same multiset of videos, and `createdAt` never increases along it |
| VideoList.SortIsStable | packages/renderer/src/components/VideoList.tsx:25 | videos with equal timestamps keep their relative order |
| VideoList.StableOrderIsUnique | packages/renderer/src/components/VideoList.tsx:25 | two newest-first lists that order every timestamp's videos alike are equal, so any stable sort gives this result |
| VideoList.SortKeepsSorted | packages/renderer/src/components/VideoList.tsx:25 | sorting a newest-first list leaves it unchanged, so sorting again changes nothing |
| VideoList.SortKeepsPathsUnique | packages/renderer/src/components/VideoList.tsx:25 | sorting keeps paths unique |
| VideoList.SortKeepsMembers | packages/renderer/src/components/VideoList.tsx:25 | sorting keeps the same entries and paths |
| VideoList.Render | packages/renderer/src/components/VideoList.tsx:24-77 | the array is left sorted. Placeholder "No videos saved yet!" exactly when the list is empty; otherwise one row per video in sorted order, marked exactly when its path equals the selected video's |
| VideoList.MarkedRows | packages/renderer/src/components/VideoList.tsx:43 | with unique paths, at most one row is marked. None is marked without a selection, and one is when the selected path is listed |
| App.FindIndex | packages/renderer/src/App.tsx:31 | -1 exactly when no entry has the path; otherwise the first index holding it |
| App.Upsert | packages/renderer/src/App.tsx:30-38 | a listed path keeps the length, puts the video at that index and leaves every other index alone. A new path prepends it, with the old list as the tail |
| App.HandleSaveRecording | packages/renderer/src/App.tsx:27-41 | no video leaves the page unchanged; a video is upserted and becomes the selection |
| App.UpsertKeepsPathsUnique | packages/renderer/src/App.tsx:30-39 | after the upsert the video is listed, the paths are the old ones plus its path, and paths stay unique |
| App.UpsertMembers | packages/renderer/src/App.tsx:32-35 | every entry after the upsert is the saved video or an old entry with a different path |
| App.WithoutPath | packages/renderer/src/App.tsx:45 | an entry is kept exactly when it was listed with a different path |
| App.WithoutPathConcat | packages/renderer/src/App.tsx:45 | the filter distributes over concatenation, so kept entries keep their relative order |
| App.WithoutAbsentPath | packages/renderer/src/App.tsx:45 | filtering out an unlisted path changes nothing |
| App.WithoutPathKeepsOrder | packages/renderer/src/App.tsx:45 | the filter keeps a newest-first list newest first and unique paths unique |
| App.HandleDeleteVideo | packages/renderer/src/App.tsx:43-48 | a rejected delete changes nothing. A resolved one drops every entry with the path and selects the new head, or none |
| App.DeleteSelectsNewest | packages/renderer/src/App.tsx:45-47 | on a newest-first list the new selection is the newest remaining video |
| App.CreateNewRecording | packages/renderer/src/App.tsx:80 | the selection is cleared and the list is kept |
| App.SelectVideo | packages/renderer/src/App.tsx:170 | the clicked video becomes the selection and the list is kept |
| App.ControlsPartition | packages/renderer/src/App.tsx:74-162 | with a selection only "Create New Recording" and "Delete" show. Without one, Save and Discard come together, some recorder button shows, and Start shows alone. Stop shows with Save exactly when the hook says it is recording and holds a clip, and then its MediaRecorder has stopped |
| Session.RerenderRestoresOrder | packages/renderer/src/components/VideoList.tsx:25 | the render keeps the entries, their count and their paths, and leaves the list newest first. It changes nothing on a list that is already sorted |
| Session.SaveClipKeepsConsistent | packages/renderer/src/App.tsx:27-41 | a save keeps paths unique, every listed video backed by a file of its size, and the selection listed |
| Session.DeleteSelectedKeepsConsistent | packages/renderer/src/App.tsx:43-48 | a delete keeps the same invariant |
| Session.HandleKeepsConsistent | packages/renderer/src/App.tsx:100-141 | every handler the page offers keeps the invariant |
| Session.StepKeepsGood | packages/renderer/src/App.tsx:13-177 | every offered event, render included, keeps the invariant and the newest-first order |
| Session.RunKeepsGood | packages/renderer/src/App.tsx:13-177 | every run of offered events from a good state ends in a good state |
| Session.LaunchIsGood | packages/renderer/src/App.tsx:14-15 | a fresh launch satisfies the invariant, whatever files are on disk |
| Session.HandleKeepsError | packages/renderer/src/hooks/useVideoRecorder.ts:7 | no event clears a shown error |
| Session.ErrorIsNeverCleared | packages/renderer/src/hooks/useVideoRecorder.ts:7 | once set, the error stays set across any sequence of events |
| Session.SaveClipSucceeds | packages/renderer/src/App.tsx:27-41 | a successful save writes the clip's bytes, then lists and selects its record, and clears the clip |
| Session.SaveSucceeds | packages/renderer/src/App.tsx:27-41 | after the render: the disk holds the clip at the path, and the selection has that path, size and time and is listed. The list grows by one exactly when the path is new, and the clip is gone |
| Session.SaveWithoutVideoChangesNothing | packages/renderer/src/App.tsx:28-29 | no clip, a cancel or a failed write leaves the list, the selection, the disk and the clip unchanged |
| Session.NewestSaveGoesFirst | packages/renderer/src/App.tsx:36-37 | a new path saved no earlier than every listed video ends up first, followed by the list as it was |
| Session.DeleteSucceeds | packages/renderer/src/App.tsx:43-48 | the file and every entry with its path are gone, and the rest is unchanged. The selection is the newest remaining video, or none exactly when the list is empty |
| Session.DeleteFailureChangesNothing | packages/renderer/src/App.tsx:44 | a refused unlink changes nothing at all |
| Session.TrackEndShowsStopWithSave | packages/renderer/src/App.tsx:105-141 | from a launch, a start, a chunk and a stop event with no Stop press are all offered and keep the invariant. The page then shows Stop with Save and Discard, and a Stop press keeps the clip and hides Stop |

## Left out

- Electron lifecycle: the single-instance lock, windows, hardware acceleration and the auto-updater. These are platform side effects.
- The `media://` protocol handler. It relies on the URL parser and `net.fetch`, which are foreign calls.
- `getUserMedia`, `MediaRecorder`, `Blob` and object URLs. A clip is modelled by its bytes, a stream by `Recorder.Acquire`, and URL revocation only frees memory, so it is not modelled.
- The preload bridge. It is a fetch-and-forward wrapper; the model passes the clip's bytes straight to `Bridge.SaveVideo`.
- React rendering beyond the list order and row marking: the `<video>` element's source, the layout and the styling.
- The MB display and `toLocaleString`, which are floating point and locale formatting.
- Interleaving of overlapping async handlers and stale `videos` closures. Each event runs to completion. The model also keeps only the newest MediaRecorder, so a stop event from an older one after a new start is not modelled.
- An undefined dialog path. Cancellation is modelled as the empty path; an undefined value would make `split` throw.
- Bridge.SaveVideo: a failed write is modelled as leaving the disk unchanged. A partially written file is not modelled.
- Bridge.DeleteVideo: a refused unlink carries the operating system's message as it stands; the page never reads it, so nothing downstream depends on it.
- Session.SaveClip: a failed write's message reaches `Recorder.SaveRecording` as the write's own message. The wrapping that Electron's IPC layer adds to an error thrown in the main process, before the renderer sees it, is not modelled.
- Recorder.StartKeepsCoherent: coherence after a start is promised only when no recording is running, because Start is offered only then. A refused start during a recording leaves the old MediaRecorder capturing.
