/** The layer loop: the extracted images are globbed, sorted by name and
    appended one by one (SL1_to_Photon.py:110-114, SL1_to_Photon_gui.py:163-169).

    Extraction writes files into a scratch folder; the model takes the
    folder's listing (the names `glob` sees there, in whatever order the
    file system returns them) as its input. Rotating and appending an image
    belong to foreign libraries and are represented by the file name
    alone. */
module Layers {
  import opened Strings
  import opened Ordering
  import Reader

  /** The glob pattern `*.png` ... */
  const LayerSuffix: string := ".png"

  /** ... matches a name ending in `.png` that does not start with a dot:
      `glob` leaves hidden files out unless the pattern itself starts with
      one. */
  function GlobMatch(name: string): (m: bool)
    ensures m ==> |name| > |LayerSuffix|
  {
    EndsWith(name, LayerSuffix) && name[0] != '.'
  }

  /** The listing entries the glob matches, in listing order. */
  function Matching(listing: seq<string>): (m: seq<string>)
    ensures |m| <= |listing|
    ensures forall i :: 0 <= i < |m| ==> GlobMatch(m[i])
    decreases |listing|
  {
    if listing == [] then []
    else
      var rest := Matching(listing[..|listing| - 1]);
      if GlobMatch(listing[|listing| - 1]) then rest + [listing[|listing| - 1]] else rest
  }

  /** `sorted(glob.glob(os.path.join(dir, '*.png')))`, as names within
      the folder (see FolderPrefixKeepsOrder for why the folder can be
      dropped). */
  function LayerOrder(listing: seq<string>): (r: seq<string>)
    ensures Sorted(r)
    ensures forall i :: 0 <= i < |r| ==> GlobMatch(r[i])
  {
    var m := Matching(listing);
    var r := Sort(m);
    AllFromMatches(r, m);
    r
  }

  /** A rearrangement of glob matches holds only glob matches. */
  lemma AllFromMatches(r: seq<string>, m: seq<string>)
    requires multiset(r) == multiset(m)
    requires forall i :: 0 <= i < |m| ==> GlobMatch(m[i])
    ensures forall i :: 0 <= i < |r| ==> GlobMatch(r[i])
  {
    forall i | 0 <= i < |r|
      ensures GlobMatch(r[i])
    {
      assert r[i] in multiset(m);
      var j :| 0 <= j < |m| && m[j] == r[i];
    }
  }

  /** The glob keeps every matching entry as often as it is listed, and
      nothing else. */
  lemma {:induction false} MatchingCounts(listing: seq<string>)
    ensures forall x :: multiset(Matching(listing))[x] == if GlobMatch(x) then multiset(listing)[x] else 0
    decreases |listing|
  {
    if listing != [] {
      var init := listing[..|listing| - 1];
      MatchingCounts(init);
      assert listing == init + [listing[|listing| - 1]];
    }
  }

  /** The layers come out in ascending name order, and they are exactly the
      matching entries of the listing, each as often as it is listed. */
  lemma LayerOrderSpec(listing: seq<string>)
    ensures Sorted(LayerOrder(listing))
    ensures forall x :: multiset(LayerOrder(listing))[x] == if GlobMatch(x) then multiset(listing)[x] else 0
  {
    MatchingCounts(listing);
  }

  /** The order in which the file system lists the folder does not matter:
      two listings of the same entries give the same layer order. */
  lemma LayerOrderIgnoresListingOrder(a: seq<string>, b: seq<string>)
    requires multiset(a) == multiset(b)
    ensures LayerOrder(a) == LayerOrder(b)
  {
    MatchingCounts(a);
    MatchingCounts(b);
    assert multiset(Matching(a)) == multiset(Matching(b));
    SortListingOrder(Matching(a), Matching(b));
  }

  /** `glob` returns full paths `dir/name`; sorting those orders the names
      exactly as sorting the bare names does. */
  lemma {:induction false} FolderPrefixKeepsOrder(dir: string, a: string, b: string)
    ensures StrLe(dir + a, dir + b) <==> StrLe(a, b)
    decreases |dir|
  {
    if dir != [] {
      var x, y := dir + a, dir + b;
      assert x != [] && y != [] && x[0] == y[0];
      assert x[1..] == dir[1..] + a;
      assert y[1..] == dir[1..] + b;
      assert StrLe(x, y) == StrLe(x[1..], y[1..]);
      FolderPrefixKeepsOrder(dir[1..], a, b);
    } else {
      assert dir + a == a && dir + b == b;
    }
  }

  /** A name the glob matches contains `.png`, so the reader counted it. */
  lemma GlobMatchIsCounted(name: string)
    requires GlobMatch(name)
    ensures Contains(name, Reader.LayerMarker)
  {
    assert OccursAt(name, Reader.LayerMarker, |name| - |LayerSuffix|);
    ContainsAt(name, Reader.LayerMarker);
  }

  /** A collection of distinct `.png` names drawn from the archive is no
      larger than the reader's layer count. */
  lemma {:induction false} DistinctBound(m: multiset<string>, names: seq<string>)
    requires forall x :: m[x] <= 1
    requires forall x :: x in m ==> x in names && Contains(x, Reader.LayerMarker)
    ensures |m| <= Reader.CountLayers(names)
    decreases |names|
  {
    if names == [] {
      assert m == multiset{} by {
        forall x
          ensures m[x] == 0
        {
          assert x !in names;
        }
      }
    } else {
      var init := names[..|names| - 1];
      var n := names[|names| - 1];
      var rest := m[n := 0];
      forall x | x in rest
        ensures x in init && Contains(x, Reader.LayerMarker)
      {
        assert x != n && x in names;
        assert names == init + [n];
      }
      DistinctBound(rest, init);
      if n in m {
        assert m == rest + multiset{n};
      } else {
        assert m == rest;
      }
    }
  }

  /** The progress bar never overflows: when every listed file was
      extracted from an archive name, the number of layers appended is at
      most the reader's `n_layers`, the bar's maximum. (It can be smaller:
      `n_layers` also counts names in sub-folders and names such as
      `a.png.bak`, which the glob does not return.) */
  lemma LayersWithinCount(listing: seq<string>, names: seq<string>)
    requires forall i, j :: 0 <= i < j < |listing| ==> listing[i] != listing[j]
    requires forall i :: 0 <= i < |listing| ==> listing[i] in names
    ensures |LayerOrder(listing)| <= Reader.CountLayers(names)
  {
    var m := multiset(LayerOrder(listing));
    LayerOrderSpec(listing);
    DistinctOnce(listing);
    forall x | x in m
      ensures x in names && Contains(x, Reader.LayerMarker)
    {
      GlobMatchIsCounted(x);
    }
    DistinctBound(m, names);
  }

  /** A list without repeats holds each element at most once. */
  lemma {:induction false} DistinctOnce(s: seq<string>)
    requires forall i, j :: 0 <= i < j < |s| ==> s[i] != s[j]
    ensures forall x :: multiset(s)[x] <= 1
    decreases |s|
  {
    if s != [] {
      var init := s[..|s| - 1];
      DistinctOnce(init);
      assert s == init + [s[|s| - 1]];
      assert s[|s| - 1] !in init;
    }
  }

  /** `appended` is what a loop over `files` that consults `stop(k)`
      after its `k`-th layer appends: a prefix of the files, cut right
      after the first `k` at which the flag is set, if any. Even a stop
      requested before the start lets the first layer through, since the
      flag is read only after a layer. */
  predicate StoppedPrefix(files: seq<string>, appended: seq<string>, stop: nat -> bool) {
    && |appended| <= |files| && appended == files[..|appended|]
    && (forall k :: 0 < k < |appended| ==> !stop(k))
    && (|appended| < |files| ==> 0 < |appended| && stop(|appended|))
  }

  /** The progress values reported after each of `n` layers: `i + 1`
      after layer `i`. */
  predicate ProgressCounts(progress: seq<nat>, n: nat) {
    |progress| == n && forall i :: 0 <= i < |progress| ==> progress[i] == i + 1
  }

  /** The loop body, repeated: append the layers in order, report `i + 1`
      after layer `i`, and after each layer consult the stop request.
      `stop(k)` is the state of the window's stop flag once `k` layers are
      in; the command line never stops, which is `stop` returning false
      everywhere. */
  method AppendLayers(files: seq<string>, stop: nat -> bool) returns (appended: seq<string>, progress: seq<nat>)
    ensures StoppedPrefix(files, appended, stop)
    ensures ProgressCounts(progress, |appended|)
    ensures (forall k :: 0 < k < |files| ==> !stop(k)) ==> appended == files
  {
    appended := [];
    progress := [];
    var i := 0;
    while i < |files|
      invariant 0 <= i <= |files|
      invariant appended == files[..i]
      invariant |progress| == i && forall j :: 0 <= j < i ==> progress[j] == j + 1
      invariant forall k :: 0 < k <= i ==> !stop(k)
    {
      appended := appended + [files[i]];
      progress := progress + [i + 1];
      i := i + 1;
      if stop(i) {
        break;
      }
    }
  }
}
