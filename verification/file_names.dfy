/** The file-name derivation of the `save-video` handler: the chosen path is
    split on `/` and the last segment becomes the record's display name. */
module FileNames {

  const Separator: char := '/'

  /** JavaScript's `s.split('/')`: the segments between separators, in order.
      There is always at least one segment, and `""` splits into `[""]`.
      Defined from the end of the string so that appending a character
      extends the last segment or opens a new one. */
  function Split(s: string): (parts: seq<string>)
    ensures |parts| >= 1
    ensures forall i :: 0 <= i < |parts| ==> Separator !in parts[i]
  {
    if |s| == 0 then [""]
    else
      var init := Split(s[..|s| - 1]);
      var c := s[|s| - 1];
      if c == Separator then init + [""]
      else init[..|init| - 1] + [init[|init| - 1] + [c]]
  }

  /** JavaScript's `parts.join('/')`, the inverse of `Split`. */
  function Join(parts: seq<string>): string
    requires |parts| >= 1
  {
    if |parts| == 1 then parts[0]
    else Join(parts[..|parts| - 1]) + [Separator] + parts[|parts| - 1]
  }

  /** `Array.prototype.pop` on the result of `split`: the last segment. */
  function FileName(path: string): string {
    var parts := Split(path);
    parts[|parts| - 1]
  }

  /** Extending the last segment extends the joined string. */
  lemma JoinExtendLast(parts: seq<string>, c: char)
    requires |parts| >= 1
    ensures Join(parts[..|parts| - 1] + [parts[|parts| - 1] + [c]]) == Join(parts) + [c]
  {
    var ext := parts[..|parts| - 1] + [parts[|parts| - 1] + [c]];
    assert ext[..|ext| - 1] == parts[..|parts| - 1];
  }

  /** Opening an empty last segment appends a separator. */
  lemma JoinOpenSegment(parts: seq<string>)
    requires |parts| >= 1
    ensures Join(parts + [""]) == Join(parts) + [Separator]
  {
    assert (parts + [""])[..|parts|] == parts;
  }

  /** Joining the segments of a path gives the path back. */
  lemma {:induction false} JoinSplit(s: string)
    ensures Join(Split(s)) == s
  {
    if |s| > 0 {
      var t := s[..|s| - 1];
      var c := s[|s| - 1];
      JoinSplit(t);
      if c == Separator {
        JoinOpenSegment(Split(t));
      } else {
        JoinExtendLast(Split(t), c);
      }
      assert s == t + [c];
    }
  }

  /** A string without separators is a single segment. */
  lemma {:induction false} SplitSegment(w: string)
    requires Separator !in w
    ensures Split(w) == [w]
  {
    if |w| > 0 {
      var t := w[..|w| - 1];
      assert Separator !in t by {
        forall k | 0 <= k < |t| ensures t[k] != Separator {
          assert t[k] == w[k];
        }
      }
      SplitSegment(t);
      assert w == t + [w[|w| - 1]];
    }
  }

  /** Appending a separator and one more segment appends that segment. */
  lemma {:induction false} SplitAppendSegment(a: string, w: string)
    requires Separator !in w
    ensures Split(a + [Separator] + w) == Split(a) + [w]
  {
    var s := a + [Separator] + w;
    if |w| == 0 {
      assert s[..|s| - 1] == a;
    } else {
      var w' := w[..|w| - 1];
      var c := w[|w| - 1];
      assert Separator !in w' by {
        forall k | 0 <= k < |w'| ensures w'[k] != Separator {
          assert w'[k] == w[k];
        }
      }
      SplitAppendSegment(a, w');
      assert s[..|s| - 1] == a + [Separator] + w';
      assert s[|s| - 1] == c;
      var init := Split(a) + [w'];
      assert init[..|init| - 1] == Split(a);
      assert w' + [c] == w;
    }
  }

  /** Splitting the join of separator-free segments gives the segments back. */
  lemma {:induction false} SplitJoin(parts: seq<string>)
    requires |parts| >= 1
    requires forall i :: 0 <= i < |parts| ==> Separator !in parts[i]
    ensures Split(Join(parts)) == parts
  {
    if |parts| == 1 {
      SplitSegment(parts[0]);
    } else {
      var init := parts[..|parts| - 1];
      SplitJoin(init);
      SplitAppendSegment(Join(init), parts[|parts| - 1]);
      assert init + [parts[|parts| - 1]] == parts;
    }
  }

  /** The name is exactly the text after the last separator of the path: it
      contains no separator, it ends the path, and it is either the whole path
      or preceded by a separator. */
  lemma {:induction false} FileNameIsLastSegment(path: string)
    ensures Separator !in FileName(path)
    ensures |FileName(path)| <= |path|
    ensures path[|path| - |FileName(path)|..] == FileName(path)
    ensures |FileName(path)| == |path| || path[|path| - |FileName(path)| - 1] == Separator
  {
    if |path| > 0 {
      var t := path[..|path| - 1];
      var c := path[|path| - 1];
      FileNameIsLastSegment(t);
      if c != Separator {
        var n := FileName(t);
        assert FileName(path) == n + [c];
        assert path == t + [c];
        assert path[|path| - |n| - 1..] == t[|t| - |n|..] + [c];
        if |n| < |t| {
          assert path[|path| - |n| - 2] == t[|t| - |n| - 1];
        }
      }
    }
  }

  /** A path without separators is its own name. */
  lemma FileNameOfPlainName(path: string)
    requires Separator !in path
    ensures FileName(path) == path
  {
    SplitSegment(path);
  }
}
