/** The page component: the list of saved videos, the selected video, what
    happens to them when a save or a delete completes, and which buttons the
    page offers in a given state. */
module App {
  import opened Types
  import Recorder
  import VideoList

  /** The page's own state: `videos` and `selectedVideo`. */
  datatype Page = Page(videos: seq<Video>, selected: Option<Video>)

  /** On mount: no videos, nothing selected. */
  const Initial: Page := Page([], None)

  /** `Array.prototype.findIndex` looking for a path: the first index holding
      it, or -1 when no entry does. */
  function FindIndex(vs: seq<Video>, path: string): (i: int)
    ensures -1 <= i < |vs|
    ensures i == -1 <==> path !in Paths(vs)
    ensures 0 <= i ==> vs[i].path == path && forall k :: 0 <= k < i ==> vs[k].path != path
  {
    if |vs| == 0 then -1
    else if vs[0].path == path then 0
    else
      assert vs == [vs[0]] + vs[1..];
      var j := FindIndex(vs[1..], path);
      if j == -1 then -1 else j + 1
  }

  /** The list update of `handleSaveRecording`: a video whose path is listed
      replaces that entry where it stands; any other video goes in front. */
  function Upsert(vs: seq<Video>, v: Video): (r: seq<Video>)
    ensures v.path in Paths(vs) ==>
      && |r| == |vs|
      && r[FindIndex(vs, v.path)] == v
      && forall k :: 0 <= k < |vs| && k != FindIndex(vs, v.path) ==> r[k] == vs[k]
    ensures v.path !in Paths(vs) ==> |r| == |vs| + 1 && r[0] == v && r[1..] == vs
  {
    var i := FindIndex(vs, v.path);
    if i != -1 then vs[i := v] else [v] + vs
  }

  /** `handleSaveRecording` once the hook has answered: no video leaves the page
      as it was; a video is upserted into the list and becomes the selection. */
  function HandleSaveRecording(p: Page, saved: Option<Video>): (p': Page)
    ensures saved.None? ==> p' == p
    ensures saved.Some? ==> p'.selected == saved && p'.videos == Upsert(p.videos, saved.value)
  {
    match saved
    case None => p
    case Some(v) => Page(Upsert(p.videos, v), Some(v))
  }

  /** After an upsert the saved video is listed, the listed paths are the old
      ones plus its path, and paths that were unique stay unique. */
  lemma UpsertKeepsPathsUnique(vs: seq<Video>, v: Video)
    requires UniquePaths(vs)
    ensures v in Upsert(vs, v)
    ensures Paths(Upsert(vs, v)) == Paths(vs) + {v.path}
    ensures UniquePaths(Upsert(vs, v))
  {
    var r := Upsert(vs, v);
    if v.path in Paths(vs) {
      var i := FindIndex(vs, v.path);
      forall a, b | 0 <= a < b < |r| ensures r[a].path != r[b].path {
        if a != i && b != i {
          assert r[a] == vs[a] && r[b] == vs[b];
        } else if a == i {
          assert r[b] == vs[b];
        } else {
          assert r[a] == vs[a];
        }
      }
      forall x | x in Paths(r) ensures x in Paths(vs) + {v.path} {
        var w :| w in r && w.path == x;
        var k :| 0 <= k < |r| && r[k] == w;
        if k != i {
          assert vs[k] == w;
        }
      }
      forall x | x in Paths(vs) + {v.path} ensures x in Paths(r) {
        if x != v.path {
          var w :| w in vs && w.path == x;
          var k :| 0 <= k < |vs| && vs[k] == w;
          assert k != i;
          assert r[k] == w;
        }
      }
    } else {
      assert r == [v] + vs;
      UniquePathsCons(v, vs);
      assert v.path in Paths(r);
      forall x | x in Paths(r) ensures x in Paths(vs) + {v.path} {
        var w :| w in r && w.path == x;
        assert w == v || w in vs;
      }
    }
  }

  /** Every entry after an upsert is the saved video or an old entry with
      another path: the entry the saved video replaced is gone. */
  lemma UpsertMembers(vs: seq<Video>, v: Video, x: Video)
    requires UniquePaths(vs) && x in Upsert(vs, v)
    ensures x == v || (x in vs && x.path != v.path)
  {
    var r := Upsert(vs, v);
    var k :| 0 <= k < |r| && r[k] == x;
    if v.path in Paths(vs) {
      var i := FindIndex(vs, v.path);
      if k != i {
        assert x == vs[k];
        assert vs[i].path == v.path;
      }
    } else {
      if k > 0 {
        assert x == r[1..][k - 1];
        assert x in vs;
      }
    }
  }

  /** `Array.prototype.filter` keeping the entries whose path is not `path`. */
  function WithoutPath(vs: seq<Video>, path: string): (r: seq<Video>)
    ensures |r| <= |vs|
    ensures forall v :: v in r <==> v in vs && v.path != path
  {
    if |vs| == 0 then []
    else
      assert vs == [vs[0]] + vs[1..];
      var rest := WithoutPath(vs[1..], path);
      if vs[0].path == path then rest else [vs[0]] + rest
  }

  /** Filtering keeps relative order: it distributes over concatenation. */
  lemma {:induction false} WithoutPathConcat(a: seq<Video>, b: seq<Video>, path: string)
    ensures WithoutPath(a + b, path) == WithoutPath(a, path) + WithoutPath(b, path)
  {
    if |a| > 0 {
      assert (a + b)[0] == a[0];
      assert (a + b)[1..] == a[1..] + b;
      WithoutPathConcat(a[1..], b, path);
    } else {
      assert a + b == b;
    }
  }

  /** Filtering out a path no entry has changes nothing. */
  lemma {:induction false} WithoutAbsentPath(vs: seq<Video>, path: string)
    requires path !in Paths(vs)
    ensures WithoutPath(vs, path) == vs
  {
    if |vs| > 0 {
      assert vs == [vs[0]] + vs[1..];
      assert vs[0] in vs;
      assert path !in Paths(vs[1..]) by {
        forall w | w in vs[1..] ensures w.path != path {
          assert w in vs;
        }
      }
      WithoutAbsentPath(vs[1..], path);
    }
  }

  /** Filtering keeps a newest-first list newest first and unique paths unique. */
  lemma {:induction false} WithoutPathKeepsOrder(vs: seq<Video>, path: string)
    ensures VideoList.NewerFirst(vs) ==> VideoList.NewerFirst(WithoutPath(vs, path))
    ensures UniquePaths(vs) ==> UniquePaths(WithoutPath(vs, path))
  {
    if |vs| > 0 {
      var rest := WithoutPath(vs[1..], path);
      assert vs == [vs[0]] + vs[1..];
      WithoutPathKeepsOrder(vs[1..], path);
      UniquePathsCons(vs[0], vs[1..]);
      VideoList.NewerFirstCons(vs[0], vs[1..]);
      if vs[0].path != path {
        UniquePathsCons(vs[0], rest);
        VideoList.NewerFirstCons(vs[0], rest);
        if UniquePaths(vs) {
          assert vs[0].path !in Paths(rest) by {
            forall w | w in rest ensures w.path != vs[0].path {
              assert w in vs[1..];
            }
          }
        }
      }
    }
  }

  /** `handleDeleteVideo`: the bridge's delete is awaited first, so a rejected
      delete leaves the page as it was; a resolved one drops every entry with
      the video's path, keeping the others in order, and selects the new first
      entry, or nothing when the list is empty. */
  function HandleDeleteVideo(p: Page, video: Video, resolved: bool): (p': Page)
    ensures !resolved ==> p' == p
    ensures resolved ==>
      && p'.videos == WithoutPath(p.videos, video.path)
      && video.path !in Paths(p'.videos)
      && (|p'.videos| == 0 ==> p'.selected.None?)
      && (|p'.videos| > 0 ==> p'.selected == Some(p'.videos[0]))
  {
    if !resolved then p
    else
      var remaining := WithoutPath(p.videos, video.path);
      Page(remaining, if |remaining| > 0 then Some(remaining[0]) else None)
  }

  /** On a newest-first list, the selection a delete leaves is the newest
      remaining video, and the list stays newest first. */
  lemma DeleteSelectsNewest(p: Page, video: Video)
    requires VideoList.NewerFirst(p.videos)
    ensures var p' := HandleDeleteVideo(p, video, true);
      && VideoList.NewerFirst(p'.videos)
      && (p'.selected.Some? ==> forall v :: v in p'.videos ==> p'.selected.value.createdAt >= v.createdAt)
  {
    var p' := HandleDeleteVideo(p, video, true);
    WithoutPathKeepsOrder(p.videos, video.path);
    if |p'.videos| > 0 {
      assert p'.videos == [p'.videos[0]] + p'.videos[1..];
      VideoList.NewerFirstCons(p'.videos[0], p'.videos[1..]);
    }
  }

  /** The "Create New Recording" button: back to the recorder view. */
  function CreateNewRecording(p: Page): (p': Page)
    ensures p'.selected.None? && p'.videos == p.videos
  {
    p.(selected := None)
  }

  /** Clicking a row of the list panel selects its video. */
  function SelectVideo(p: Page, v: Video): (p': Page)
    ensures p'.selected == Some(v) && p'.videos == p.videos
  {
    p.(selected := Some(v))
  }

  /** The buttons of the page. */
  datatype Control =
    | CreateNew       // "Create New Recording", visible only with a selection
    | Start           // "Start Recording"
    | Stop            // "Stop Recording"
    | Discard         // "Delete Recording" (the unsaved clip)
    | Save            // "Save Recording"
    | DeleteSaved     // "Delete" under the selected video's details

  /** Whether the page offers a control: with a selection it shows the video's
      details and the two buttons about it; without one it shows the recorder
      buttons that the hook's state allows. */
  predicate Shown(p: Page, r: Recorder.Hook, c: Control) {
    match c
    case CreateNew => p.selected.Some?
    case DeleteSaved => p.selected.Some?
    case Start => p.selected.None? && !r.isRecording && r.unsaved.None?
    case Stop => p.selected.None? && r.isRecording
    case Discard => p.selected.None? && r.unsaved.Some?
    case Save => p.selected.None? && r.unsaved.Some?
  }

  /** The recorder buttons: hidden while a video is selected. Otherwise Save
      and Discard come together, some recorder button is always shown, and
      Start is shown alone. Stop shows together with Save and Discard only for
      a hook whose MediaRecorder is no longer running: the camera ended the
      recording by itself and the hook still says it is recording. */
  lemma ControlsPartition(p: Page, r: Recorder.Hook)
    requires Recorder.Coherent(r)
    ensures p.selected.Some? ==>
      && Shown(p, r, CreateNew) && Shown(p, r, DeleteSaved)
      && !Shown(p, r, Start) && !Shown(p, r, Stop) && !Shown(p, r, Discard) && !Shown(p, r, Save)
    ensures p.selected.None? ==>
      && !Shown(p, r, CreateNew) && !Shown(p, r, DeleteSaved)
      && (Shown(p, r, Save) <==> Shown(p, r, Discard))
      && (Shown(p, r, Start) || Shown(p, r, Stop) || Shown(p, r, Save))
      && (Shown(p, r, Start) ==> !Shown(p, r, Stop) && !Shown(p, r, Save))
      && (Shown(p, r, Stop) && Shown(p, r, Save) <==> r.isRecording && r.unsaved.Some?)
      && (Shown(p, r, Stop) && Shown(p, r, Save) ==> r.media.Inactive?)
  {
  }
}
