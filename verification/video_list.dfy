/** The saved-videos panel: it sorts the page's list in place, newest first,
    with `Array.prototype.sort` (a stable sort) and the comparator
    `b.createdAt - a.createdAt`, then renders one row per video, marking the row
    whose path is the selected video's, or a placeholder when the list is empty. */
module VideoList {
  import opened Types

  /** Newest first: `createdAt` never increases along the list. */
  predicate NewerFirst(vs: seq<Video>) {
    forall i, j :: 0 <= i < j < |vs| ==> vs[i].createdAt >= vs[j].createdAt
  }

  /** A list is newest first when its head is no older than the rest and the rest is newest first. */
  lemma NewerFirstCons(x: Video, vs: seq<Video>)
    ensures NewerFirst([x] + vs) <==> (forall y :: y in vs ==> x.createdAt >= y.createdAt) && NewerFirst(vs)
  {
    var s := [x] + vs;
    if (forall y :: y in vs ==> x.createdAt >= y.createdAt) && NewerFirst(vs) {
      forall i, j | 0 <= i < j < |s| ensures s[i].createdAt >= s[j].createdAt {
        assert s[j] == vs[j - 1];
        if i > 0 {
          assert s[i] == vs[i - 1];
        }
      }
    }
    if NewerFirst(s) {
      forall y | y in vs ensures x.createdAt >= y.createdAt {
        var k :| 0 <= k < |vs| && vs[k] == y;
        assert s[0] == x && s[k + 1] == y;
        assert s[0].createdAt >= s[k + 1].createdAt;
      }
      forall i, j | 0 <= i < j < |vs| ensures vs[i].createdAt >= vs[j].createdAt {
        assert s[i + 1] == vs[i] && s[j + 1] == vs[j];
      }
    }
  }

  /** Put `v` in front of the first entry that is not newer than it. */
  function Insert(v: Video, vs: seq<Video>): (r: seq<Video>)
    ensures |r| == |vs| + 1
    ensures multiset(r) == multiset(vs) + multiset{v}
  {
    if |vs| == 0 || vs[0].createdAt <= v.createdAt then [v] + vs
    else
      assert vs == [vs[0]] + vs[1..];
      [vs[0]] + Insert(v, vs[1..])
  }

  /** Inserting into a newest-first list keeps it newest first. */
  lemma {:induction false} InsertKeepsNewerFirst(v: Video, vs: seq<Video>)
    requires NewerFirst(vs)
    ensures NewerFirst(Insert(v, vs))
  {
    if |vs| == 0 || vs[0].createdAt <= v.createdAt {
      NewerFirstCons(v, vs);
    } else {
      assert vs == [vs[0]] + vs[1..];
      NewerFirstCons(vs[0], vs[1..]);
      InsertKeepsNewerFirst(v, vs[1..]);
      var rest := Insert(v, vs[1..]);
      forall y | y in rest ensures vs[0].createdAt >= y.createdAt {
        assert y in multiset(rest);
      }
      NewerFirstCons(vs[0], rest);
    }
  }

  /** The order the panel shows: a stable sort by `createdAt`, newest first. */
  function SortNewestFirst(vs: seq<Video>): (r: seq<Video>)
    ensures |r| == |vs|
    ensures multiset(r) == multiset(vs)
    ensures NewerFirst(r)
  {
    if |vs| == 0 then []
    else
      assert vs == [vs[0]] + vs[1..];
      var rest := SortNewestFirst(vs[1..]);
      InsertKeepsNewerFirst(vs[0], rest);
      Insert(vs[0], rest)
  }

  /** The entries created at time `t`, in list order. */
  function AtTime(vs: seq<Video>, t: int): seq<Video> {
    if |vs| == 0 then []
    else if vs[0].createdAt == t then [vs[0]] + AtTime(vs[1..], t)
    else AtTime(vs[1..], t)
  }

  lemma {:induction false} InsertAtTime(v: Video, vs: seq<Video>, t: int)
    ensures AtTime(Insert(v, vs), t) == (if v.createdAt == t then [v] else []) + AtTime(vs, t)
  {
    if |vs| == 0 || vs[0].createdAt <= v.createdAt {
      assert ([v] + vs)[1..] == vs;
    } else {
      var rest := Insert(v, vs[1..]);
      InsertAtTime(v, vs[1..], t);
      assert ([vs[0]] + rest)[1..] == rest;
    }
  }

  /** The sort is stable: videos with the same timestamp keep their relative order. */
  lemma {:induction false} SortIsStable(vs: seq<Video>, t: int)
    ensures AtTime(SortNewestFirst(vs), t) == AtTime(vs, t)
  {
    if |vs| > 0 {
      SortIsStable(vs[1..], t);
      InsertAtTime(vs[0], SortNewestFirst(vs[1..]), t);
    }
  }

  lemma {:induction false} AtTimeHasEvery(vs: seq<Video>, k: nat)
    requires k < |vs|
    ensures AtTime(vs, vs[k].createdAt) != []
  {
    if k > 0 && vs[0].createdAt != vs[k].createdAt {
      AtTimeHasEvery(vs[1..], k - 1);
    }
  }

  lemma {:induction false} AtTimeFromList(vs: seq<Video>, t: int)
    requires AtTime(vs, t) != []
    ensures exists k :: 0 <= k < |vs| && vs[k].createdAt == t
  {
    if vs[0].createdAt != t {
      AtTimeFromList(vs[1..], t);
      var k :| 0 <= k < |vs[1..]| && vs[1..][k].createdAt == t;
      assert vs[k + 1].createdAt == t;
    }
  }

  /** Two newest-first lists that agree on the order of every timestamp's
      videos are the same list: a stable newest-first order is unique, so any
      stable sort with this comparator yields `SortNewestFirst`. */
  lemma {:induction false} StableOrderIsUnique(a: seq<Video>, b: seq<Video>)
    requires NewerFirst(a) && NewerFirst(b)
    requires forall t :: AtTime(a, t) == AtTime(b, t)
    ensures a == b
    decreases |a|
  {
    if |a| == 0 {
      if |b| > 0 {
        assert false;
      }
    } else if |b| == 0 {
      AtTimeHasEvery(a, 0);
      assert false;
    } else {
      var T := a[0].createdAt;
      var U := b[0].createdAt;
      AtTimeHasEvery(b, 0);
      AtTimeFromList(a, U);
      AtTimeHasEvery(a, 0);
      AtTimeFromList(b, T);
      assert T == U;
      var restA := AtTime(a[1..], T);
      var restB := AtTime(b[1..], T);
      assert AtTime(a, T) == [a[0]] + restA;
      assert AtTime(b, T) == [b[0]] + restB;
      assert ([a[0]] + restA)[0] == ([b[0]] + restB)[0];
      assert ([a[0]] + restA)[1..] == restA && ([b[0]] + restB)[1..] == restB;
      assert restA == restB;
      forall t
        ensures AtTime(a[1..], t) == AtTime(b[1..], t)
      {
        if t != T {
          assert AtTime(a, t) == AtTime(a[1..], t);
          assert AtTime(b, t) == AtTime(b[1..], t);
        }
      }
      StableOrderIsUnique(a[1..], b[1..]);
      assert a == [a[0]] + a[1..] && b == [b[0]] + b[1..];
    }
  }

  /** A list already newest first is left as it is, so sorting twice is sorting once. */
  lemma SortKeepsSorted(vs: seq<Video>)
    requires NewerFirst(vs)
    ensures SortNewestFirst(vs) == vs
  {
    forall t
      ensures AtTime(SortNewestFirst(vs), t) == AtTime(vs, t)
    {
      SortIsStable(vs, t);
    }
    StableOrderIsUnique(SortNewestFirst(vs), vs);
  }

  lemma {:induction false} InsertKeepsPathsUnique(v: Video, vs: seq<Video>)
    requires UniquePaths(vs) && v.path !in Paths(vs)
    ensures UniquePaths(Insert(v, vs))
  {
    if |vs| == 0 || vs[0].createdAt <= v.createdAt {
      UniquePathsCons(v, vs);
    } else {
      assert vs == [vs[0]] + vs[1..];
      UniquePathsCons(vs[0], vs[1..]);
      InsertKeepsPathsUnique(v, vs[1..]);
      var rest := Insert(v, vs[1..]);
      assert forall x :: x in rest ==> x == v || x in vs[1..] by {
        forall x | x in rest ensures x == v || x in vs[1..] {
          assert x in multiset(rest);
        }
      }
      assert vs[0].path !in Paths(rest);
      UniquePathsCons(vs[0], rest);
    }
  }

  /** Sorting keeps the paths of the list unique. */
  lemma {:induction false} SortKeepsPathsUnique(vs: seq<Video>)
    requires UniquePaths(vs)
    ensures UniquePaths(SortNewestFirst(vs))
  {
    if |vs| > 0 {
      assert vs == [vs[0]] + vs[1..];
      UniquePathsCons(vs[0], vs[1..]);
      SortKeepsPathsUnique(vs[1..]);
      var sorted := SortNewestFirst(vs[1..]);
      assert forall x :: x in sorted <==> x in vs[1..] by {
        forall x ensures x in sorted <==> x in vs[1..] {
          assert x in sorted <==> x in multiset(sorted);
        }
      }
      InsertKeepsPathsUnique(vs[0], sorted);
    }
  }

  /** Sorting keeps the list's entries and so its set of paths. */
  lemma SortKeepsMembers(vs: seq<Video>)
    ensures forall v :: v in SortNewestFirst(vs) <==> v in vs
    ensures Paths(SortNewestFirst(vs)) == Paths(vs)
  {
    var sorted := SortNewestFirst(vs);
    forall v ensures v in sorted <==> v in vs {
      assert v in sorted <==> v in multiset(sorted);
    }
  }

  /** One row of the panel. */
  datatype Row = Row(video: Video, selected: bool)

  /** What the panel shows: the placeholder, or the rows. */
  datatype View = Placeholder(text: string) | Rows(rows: seq<Row>)

  const EmptyText: string := "No videos saved yet!"

  /** The page's list after rendering (sorted in place), and what was drawn. */
  datatype Rendered = Rendered(videos: seq<Video>, view: View)

  /** A row is marked when there is a selection and it has the row's path. */
  predicate Marked(selected: Option<Video>, v: Video) {
    selected.Some? && selected.value.path == v.path
  }

  /** Render the panel: sort the list in place, then draw its rows in that
      order, or the placeholder for an empty list. */
  function Render(videos: seq<Video>, selected: Option<Video>): (out: Rendered)
    ensures out.videos == SortNewestFirst(videos)
    ensures multiset(out.videos) == multiset(videos) && NewerFirst(out.videos)
    ensures out.view.Placeholder? <==> |videos| == 0
    ensures out.view.Placeholder? ==> out.view.text == EmptyText
    ensures out.view.Rows? ==>
      && |out.view.rows| == |out.videos|
      && forall i :: 0 <= i < |out.view.rows| ==>
           && out.view.rows[i].video == out.videos[i]
           && (out.view.rows[i].selected <==> selected.Some? && selected.value.path == out.videos[i].path)
  {
    var sorted := SortNewestFirst(videos);
    if |sorted| > 0 then
      Rendered(sorted, Rows(seq(|sorted|, i requires 0 <= i < |sorted| => Row(sorted[i], Marked(selected, sorted[i])))))
    else
      Rendered(sorted, Placeholder(EmptyText))
  }

  /** With unique paths, at most one row is marked; none is without a
      selection; and one is whenever the selected path is listed. */
  lemma MarkedRows(videos: seq<Video>, selected: Option<Video>)
    requires UniquePaths(videos)
    ensures var out := Render(videos, selected);
      out.view.Rows? ==>
        && (forall i, j :: 0 <= i < j < |out.view.rows| ==> !(out.view.rows[i].selected && out.view.rows[j].selected))
        && (selected.None? ==> forall i :: 0 <= i < |out.view.rows| ==> !out.view.rows[i].selected)
        && (selected.Some? && selected.value.path in Paths(videos) ==>
              exists i :: 0 <= i < |out.view.rows| && out.view.rows[i].selected)
  {
    var out := Render(videos, selected);
    SortKeepsPathsUnique(videos);
    if out.view.Rows? && selected.Some? && selected.value.path in Paths(videos) {
      var v :| v in videos && v.path == selected.value.path;
      assert v in multiset(out.videos);
      var i :| 0 <= i < |out.videos| && out.videos[i] == v;
      assert out.view.rows[i].selected;
    }
  }
}
