/**
 The file enumeration of util.go: the extension filter applied to every
 entry of a directory walk, `filepath.Ext` on '/'-separated paths, and the
 element-wise conversion of a configuration list to strings.
 */
module Util {

  /** One entry visited by the directory walk: its path and whether it is a directory. */
  datatype WalkEntry = WalkEntry(path: string, isDir: bool)

  /**
   `filepath.Ext`: scanning backwards from position `i`, the suffix of `path`
   that starts at the last '.' after the last '/' before `i`, or "" when a '/'
   or the start comes first.
   */
  function ExtBefore(path: string, i: nat): (e: string)
    requires i <= |path|
    ensures e != [] ==>
      && |path| - i < |e| <= |path|
      && e == path[|path| - |e|..]
      && e[0] == '.'
      && forall j :: |path| - |e| < j < i ==> path[j] != '.' && path[j] != '/'
    ensures e == [] ==>
      forall j :: 0 <= j < i && path[j] == '.' ==> exists k :: j < k < i && path[k] == '/'
    decreases i
  {
    if i == 0 || path[i - 1] == '/' then ""
    else if path[i - 1] == '.' then path[i - 1..]
    else ExtBefore(path, i - 1)
  }

  /**
   The extension of `path`: empty, or a suffix of `path` that starts with its
   only '.' and holds no '/'. It is empty exactly when no '.' follows the
   last '/'.
   */
  function Ext(path: string): (e: string)
    ensures e != [] ==>
      && |e| <= |path|
      && e == path[|path| - |e|..]
      && e[0] == '.'
      && forall j :: 0 < j < |e| ==> e[j] != '.' && e[j] != '/'
    ensures e == [] ==>
      forall j :: 0 <= j < |path| && path[j] == '.' ==> exists k :: j < k < |path| && path[k] == '/'
  {
    var e := ExtBefore(path, |path|);
    e
  }

  /** The walk callback's test: a non-directory entry whose extension equals `ext` exactly. */
  predicate Kept(e: WalkEntry, ext: string) {
    !e.isDir && Ext(e.path) == ext
  }

  /** The paths of the entries of `walk` that are kept, in walk order. */
  function Filtered(walk: seq<WalkEntry>, ext: string): seq<string>
  {
    if walk == [] then []
    else
      var last := walk[|walk| - 1];
      Filtered(walk[..|walk| - 1], ext) + (if Kept(last, ext) then [last.path] else [])
  }

  /**
   `filesWithExtension`: visits the walk entries in order and appends the
   path of every non-directory entry whose extension equals `ext`. The walk
   callback never returns an error, so every entry the walk reports is visited.
   */
  method FilesWithExtension(ext: string, walk: seq<WalkEntry>) returns (files: seq<string>)
    ensures files == Filtered(walk, ext)
    ensures forall p :: p in files ==> exists e :: e in walk && !e.isDir && e.path == p && Ext(p) == ext
    ensures forall e :: e in walk && !e.isDir && Ext(e.path) == ext ==> e.path in files
  {
    files := [];
    for i := 0 to |walk|
      invariant files == Filtered(walk[..i], ext)
    {
      var f := walk[i];
      if !f.isDir {
        if Ext(f.path) == ext {
          files := files + [f.path];
        }
      }
      assert walk[..i + 1][..i] == walk[..i];
    }
    assert walk[..|walk|] == walk;
    FilteredSound(walk, ext);
    FilteredComplete(walk, ext);
  }

  /** Every path kept comes from a non-directory entry whose extension is exactly `ext`. */
  lemma {:induction false} FilteredSound(walk: seq<WalkEntry>, ext: string)
    ensures forall p :: p in Filtered(walk, ext) ==>
      exists e :: e in walk && !e.isDir && e.path == p && Ext(p) == ext
  {
    if walk != [] {
      var init := walk[..|walk| - 1];
      FilteredSound(init, ext);
      assert forall e :: e in init ==> e in walk;
    }
  }

  /** Every non-directory entry whose extension is exactly `ext` has its path kept. */
  lemma {:induction false} FilteredComplete(walk: seq<WalkEntry>, ext: string)
    ensures forall e :: e in walk && !e.isDir && Ext(e.path) == ext ==> e.path in Filtered(walk, ext)
  {
    if walk != [] {
      var init := walk[..|walk| - 1];
      FilteredComplete(init, ext);
      assert walk == init + [walk[|walk| - 1]];
    }
  }

  /**
   The filter keeps walk order: filtering two consecutive stretches of a walk
   gives the paths of the first stretch before those of the second.
   */
  lemma {:induction false} FilteredAppend(a: seq<WalkEntry>, b: seq<WalkEntry>, ext: string)
    ensures Filtered(a + b, ext) == Filtered(a, ext) + Filtered(b, ext)
  {
    if b == [] {
      assert a + b == a;
    } else {
      var init, last := b[..|b| - 1], b[|b| - 1];
      var tail := if Kept(last, ext) then [last.path] else [];
      FilteredAppend(a, init, ext);
      assert (a + b)[..|a + b| - 1] == a + init;
      assert (a + b)[|a + b| - 1] == last;
      calc {
        Filtered(a + b, ext);
        Filtered(a + init, ext) + tail;
        Filtered(a, ext) + Filtered(init, ext) + tail;
        Filtered(a, ext) + Filtered(b, ext);
      }
    }
  }

  /** No two entries of the walk share a path. */
  predicate DistinctPaths(walk: seq<WalkEntry>) {
    forall i, j :: 0 <= i < j < |walk| ==> walk[i].path != walk[j].path
  }

  /** No two elements of `s` are equal. */
  predicate NoDuplicates(s: seq<string>) {
    forall i, j :: 0 <= i < j < |s| ==> s[i] != s[j]
  }

  /** In a sequence without duplicates every element occurs at most once. */
  lemma {:induction false} NoDuplicatesCount(s: seq<string>, x: string)
    requires NoDuplicates(s)
    ensures multiset(s)[x] <= 1
  {
    if s != [] {
      var init, last := s[..|s| - 1], s[|s| - 1];
      assert NoDuplicates(init);
      NoDuplicatesCount(init, x);
      assert s == init + [last];
      if x == last {
        assert x !in init;
      }
    }
  }

  /** An element found at two positions occurs at least twice. */
  lemma DuplicateCount(s: seq<string>, i: nat, j: nat)
    requires i < j < |s| && s[i] == s[j]
    ensures multiset(s)[s[i]] >= 2
  {
    assert s == s[..j] + [s[j]] + s[j + 1..];
    assert s[i] == s[..j][i];
  }

  /** Reordering a sequence without duplicates gives a sequence without duplicates. */
  lemma NoDuplicatesPermutation(s: seq<string>, t: seq<string>)
    requires multiset(s) == multiset(t) && NoDuplicates(t)
    ensures NoDuplicates(s)
  {
    forall i, j | 0 <= i < j < |s| ensures s[i] != s[j] {
      if s[i] == s[j] {
        DuplicateCount(s, i, j);
        NoDuplicatesCount(t, s[i]);
      }
    }
  }

  /** A walk that visits every path once yields every path once. */
  lemma {:induction false} FilteredDistinct(walk: seq<WalkEntry>, ext: string)
    requires DistinctPaths(walk)
    ensures NoDuplicates(Filtered(walk, ext))
  {
    if walk != [] {
      var init := walk[..|walk| - 1];
      var last := walk[|walk| - 1];
      assert DistinctPaths(init);
      FilteredDistinct(init, ext);
      FilteredSound(init, ext);
      var prefix := Filtered(init, ext);
      assert last.path !in prefix;
      if Kept(last, ext) {
        var files := prefix + [last.path];
        assert Filtered(walk, ext) == files;
        forall i, j | 0 <= i < j < |files| ensures files[i] != files[j] {
          assert files[i] == prefix[i] && prefix[i] in prefix;
          if j < |prefix| {
            assert files[j] == prefix[j];
          }
        }
      } else {
        assert Filtered(walk, ext) == prefix;
      }
    }
  }

  /** The element-wise string form of a configuration list. */
  function Stringified<T>(arr: seq<T>, toString: T -> string): seq<string>
  {
    seq(|arr|, i requires 0 <= i < |arr| => toString(arr[i]))
  }

  /**
   `convertArray`: allocates a slice of the same length and fills slot `i`
   with the string form of element `i`.
   */
  method ConvertArray<T>(arr: seq<T>, toString: T -> string) returns (s: seq<string>)
    ensures |s| == |arr|
    ensures forall i :: 0 <= i < |arr| ==> s[i] == toString(arr[i])
  {
    var a := new string[|arr|];
    for i := 0 to |arr|
      invariant forall k :: 0 <= k < i ==> a[k] == toString(arr[k])
    {
      a[i] := toString(arr[i]);
    }
    s := a[..];
  }
}
