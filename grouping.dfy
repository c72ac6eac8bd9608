/** Resource keys (scan.js:82-87) and the grouping of discovered files by key (scan.js:206-211). */
module Grouping {
  import opened Text
  import opened Paths

  /** `parts.indexOf(x)`: the first index holding `x`, or -1. */
  function IndexOf(parts: seq<string>, x: string): (r: int)
    ensures -1 <= r < |parts|
    ensures r >= 0 ==> parts[r] == x
    ensures forall i :: 0 <= i < |parts| && (r < 0 || i < r) ==> parts[i] != x
  {
    if parts == [] then -1
    else if parts[0] == x then 0
    else
      var r := IndexOf(parts[1..], x);
      if r < 0 then -1 else r + 1
  }

  /** `getUniqueResourceKey`: everything before the first "stream" segment, unless that
      segment's index is below 1, in which case the directory of the file followed by
      "unknown_resource". The path is taken as already resolved. */
  function ResourceKey(absPath: string): string
  {
    var parts := Split(absPath, Sep);
    var idx := IndexOf(parts, "stream");
    if idx < 1 then PathJoin(Dirname(absPath), "unknown_resource")
    else Join(parts[..idx], Sep)
  }

  lemma IndexOfAfterRoot(p: seq<string>, x: string)
    requires x != ""
    ensures IndexOf([""] + p, x) == if IndexOf(p, x) < 0 then -1 else IndexOf(p, x) + 1
  {
    assert ([""] + p)[1..] == p;
  }

  /** For a resolved path, the root piece of the split is empty, so index 0 never holds
      "stream": the key is the path before the first "stream" segment (the empty string when
      that is the first segment), or, with no "stream" segment, the file's directory followed
      by "unknown_resource". */
  lemma ResourceKeyOfResolved(dir: seq<string>, n: string)
    requires AllNames(dir) && IsName(n)
    ensures var p, k := dir + [n], IndexOf(dir + [n], "stream");
      ResourceKey(Render(p)) ==
        if k < 0 then Render(dir + ["unknown_resource"])
        else if k == 0 then ""
        else Render(p[..k])
  {
    var p := dir + [n];
    assert AllNames(p);
    SplitRender(p);
    IndexOfAfterRoot(p, "stream");
    if IndexOf(p, "stream") < 0 {
      KeyWithoutStream(dir, n);
    } else {
      KeyBeforeStream(p, IndexOf(p, "stream"));
    }
  }

  lemma KeyWithoutStream(dir: seq<string>, n: string)
    requires AllNames(dir) && IsName(n)
    requires IndexOf(Split(Render(dir + [n]), Sep), "stream") < 0
    ensures ResourceKey(Render(dir + [n])) == Render(dir + ["unknown_resource"])
  {
    DirnameRender(dir, n);
    PathJoinRender(dir, "unknown_resource");
  }

  lemma KeyBeforeStream(p: seq<string>, k: nat)
    requires k < |p| && Split(Render(p), Sep) == [""] + p
    requires IndexOf([""] + p, "stream") == k + 1
    ensures ResourceKey(Render(p)) == if k == 0 then "" else Render(p[..k])
  {
    var before := p[..k];
    KeyAtIndex(Render(p), [""] + p, k + 1);
    PrefixAfterRoot(p, k);
    JoinAfterRoot(before);
    assert |before| == k;
  }

  lemma PrefixAfterRoot(p: seq<string>, k: nat)
    requires k <= |p|
    ensures ([""] + p)[..k + 1] == [""] + p[..k]
  {
  }

  /** The key when a "stream" piece is found at an index of at least 1. */
  lemma KeyAtIndex(absPath: string, parts: seq<string>, idx: int)
    requires Split(absPath, Sep) == parts && IndexOf(parts, "stream") == idx && 1 <= idx <= |parts|
    ensures ResourceKey(absPath) == Join(parts[..idx], Sep)
  {
  }

  /** Joining the pieces of a resolved path with its empty root piece renders it. */
  lemma JoinAfterRoot(q: seq<string>)
    ensures Join([""] + q, Sep) == if q == [] then "" else Render(q)
  {
    if q != [] {
      assert ([""] + q)[1..] == q;
    }
  }

  /** An insertion-ordered dictionary from resource key to the files under it: `order` holds
      the keys in the order they were first assigned. */
  datatype Groups = Groups(order: seq<string>, files: map<string, seq<string>>)

  // The grouping is described for any key function; the scanner uses ResourceKey.

  /** The distinct keys of `paths`, in order of first appearance. */
  function FirstSeenKeys(paths: seq<string>, key: string -> string): seq<string>
  {
    if paths == [] then []
    else
      var ks := FirstSeenKeys(paths[..|paths| - 1], key);
      var k := key(paths[|paths| - 1]);
      if k in ks then ks else ks + [k]
  }

  /** The files of `paths` whose key is `k`, in scan order. */
  function FilesWithKey(paths: seq<string>, key: string -> string, k: string): seq<string>
  {
    if paths == [] then []
    else
      FilesWithKey(paths[..|paths| - 1], key, k) +
        if key(paths[|paths| - 1]) == k then [paths[|paths| - 1]] else []
  }

  /** The grouping the loop builds, described directly. */
  function Grouped(paths: seq<string>, key: string -> string): Groups
  {
    var ks := FirstSeenKeys(paths, key);
    Groups(ks, map k | k in ks :: FilesWithKey(paths, key, k))
  }

  lemma {:induction false} NoFilesForUnseenKey(paths: seq<string>, key: string -> string, k: string)
    requires k !in FirstSeenKeys(paths, key)
    ensures FilesWithKey(paths, key, k) == []
  {
    if paths != [] {
      NoFilesForUnseenKey(paths[..|paths| - 1], key, k);
    }
  }

  /** One step of the grouping loop. */
  lemma GroupedSnoc(paths: seq<string>, key: string -> string, x: string)
    ensures var g, k := Grouped(paths, key), key(x);
      Grouped(paths + [x], key) ==
        Groups(if k in g.files then g.order else g.order + [k],
               g.files[k := (if k in g.files then g.files[k] else []) + [x]])
  {
    var p := paths + [x];
    assert p[..|p| - 1] == paths;
    var g, k := Grouped(paths, key), key(x);
    var g' := Grouped(p, key);
    var m := g.files[k := (if k in g.files then g.files[k] else []) + [x]];
    if k !in g.files {
      NoFilesForUnseenKey(paths, key, k);
    }
    assert g'.files.Keys == m.Keys;
    forall j | j in m ensures g'.files[j] == m[j] {
    }
    assert g'.files == m;
  }

  /** The grouping loop of scan.js:206-211. */
  method GroupByResource(paths: seq<string>) returns (g: Groups)
    ensures g == Grouped(paths, ResourceKey)
  {
    g := Groups([], map[]);
    var i := 0;
    while i < |paths|
      invariant 0 <= i <= |paths|
      invariant g == Grouped(paths[..i], ResourceKey)
    {
      assert paths[..i + 1] == paths[..i] + [paths[i]];
      GroupedSnoc(paths[..i], ResourceKey, paths[i]);
      var k := ResourceKey(paths[i]);
      var list := if k in g.files then g.files[k] else [];
      var order := if k in g.files then g.order else g.order + [k];
      g := Groups(order, g.files[k := list + [paths[i]]]);
      i := i + 1;
    }
    assert paths[..i] == paths;
  }

  // ---------------------------------------------------------------------------------------
  // What the grouping guarantees.

  /** The index of the first file with key `k`, or -1. */
  function FirstWithKey(paths: seq<string>, key: string -> string, k: string): (r: int)
    ensures -1 <= r < |paths|
    ensures r >= 0 ==> key(paths[r]) == k
    ensures forall i :: 0 <= i < |paths| && (r < 0 || i < r) ==> key(paths[i]) != k
  {
    if paths == [] then -1
    else if key(paths[0]) == k then 0
    else
      var r := FirstWithKey(paths[1..], key, k);
      if r < 0 then -1 else r + 1
  }

  lemma FirstWithKeySnoc(paths: seq<string>, key: string -> string, x: string, k: string)
    ensures FirstWithKey(paths + [x], key, k) ==
      if FirstWithKey(paths, key, k) >= 0 then FirstWithKey(paths, key, k)
      else if key(x) == k then |paths| else -1
  {
    var p := paths + [x];
    assert forall i :: 0 <= i < |paths| ==> p[i] == paths[i];
    assert p[|paths|] == x;
  }

  /** The keys are exactly the keys of the files, each listed once, in the order in which
      each first occurs among the files. */
  lemma FirstSeenKeysOrder(paths: seq<string>, key: string -> string)
    ensures var ks := FirstSeenKeys(paths, key);
      && (forall a, b :: 0 <= a < b < |ks| ==> ks[a] != ks[b])
      && (forall k :: k in ks <==> FirstWithKey(paths, key, k) >= 0)
      && (forall a, b :: 0 <= a < b < |ks| ==> FirstWithKey(paths, key, ks[a]) < FirstWithKey(paths, key, ks[b]))
  {
    FirstSeenKeysDistinct(paths, key);
    forall k {
      FirstSeenKeysMembers(paths, key, k);
    }
    FirstSeenKeysOrdered(paths, key);
  }

  lemma {:induction false} FirstSeenKeysMembers(paths: seq<string>, key: string -> string, k: string)
    ensures k in FirstSeenKeys(paths, key) <==> FirstWithKey(paths, key, k) >= 0
  {
    if paths != [] {
      var init, x := paths[..|paths| - 1], paths[|paths| - 1];
      assert init + [x] == paths;
      FirstSeenKeysMembers(init, key, k);
      FirstWithKeySnoc(init, key, x, k);
    }
  }

  lemma {:induction false} FirstSeenKeysDistinct(paths: seq<string>, key: string -> string)
    ensures forall a, b :: 0 <= a < b < |FirstSeenKeys(paths, key)| ==> FirstSeenKeys(paths, key)[a] != FirstSeenKeys(paths, key)[b]
  {
    if paths != [] {
      var init, x := paths[..|paths| - 1], paths[|paths| - 1];
      FirstSeenKeysDistinct(init, key);
      var ks0, ks := FirstSeenKeys(init, key), FirstSeenKeys(paths, key);
      assert forall a, b :: 0 <= a < b < |ks0| ==> ks0[a] != ks0[b];
      if key(x) in ks0 {
        assert ks == ks0;
      } else {
        assert ks == ks0 + [key(x)];
        forall a, b | 0 <= a < b < |ks| ensures ks[a] != ks[b] {
          assert ks[a] == ks0[a] && ks0[a] in ks0;
          if b < |ks0| {
            assert ks[b] == ks0[b];
          }
        }
      }
    }
  }

  lemma {:induction false} FirstSeenKeysOrdered(paths: seq<string>, key: string -> string)
    ensures var ks := FirstSeenKeys(paths, key);
      forall a, b :: 0 <= a < b < |ks| ==> FirstWithKey(paths, key, ks[a]) < FirstWithKey(paths, key, ks[b])
  {
    if paths != [] {
      var init, x := paths[..|paths| - 1], paths[|paths| - 1];
      assert init + [x] == paths;
      FirstSeenKeysOrdered(init, key);
      var ks0, ks := FirstSeenKeys(init, key), FirstSeenKeys(paths, key);
      forall a, b | 0 <= a < b < |ks| ensures FirstWithKey(paths, key, ks[a]) < FirstWithKey(paths, key, ks[b]) {
        assert ks[a] == ks0[a] && ks0[a] in ks0;
        FirstSeenKeysMembers(init, key, ks[a]);
        FirstWithKeySnoc(init, key, x, ks[a]);
        FirstWithKeySnoc(init, key, x, ks[b]);
        if b < |ks0| {
          assert ks[b] == ks0[b] && ks0[b] in ks0;
          FirstSeenKeysMembers(init, key, ks[b]);
        } else {
          FirstSeenKeysMembers(init, key, key(x));
        }
      }
    }
  }

  /** A file belongs to the group under a key exactly when it is one of the files and its key
      is that key: every file lands in the group of its own key and in no other. */
  lemma {:induction false} FilesWithKeyMembers(paths: seq<string>, key: string -> string, k: string, f: string)
    ensures f in FilesWithKey(paths, key, k) <==> f in paths && key(f) == k
  {
    if paths != [] {
      var init := paths[..|paths| - 1];
      FilesWithKeyMembers(init, key, k, f);
      assert paths == init + [paths[|paths| - 1]];
    }
  }

  function SumSizes(order: seq<string>, files: map<string, seq<string>>): nat
    requires forall k :: k in order ==> k in files
  {
    if order == [] then 0 else |files[order[0]]| + SumSizes(order[1..], files)
  }

  lemma {:induction false} SumSizesUpdate(order: seq<string>, files: map<string, seq<string>>, k: string, v: seq<string>)
    requires forall j :: j in order ==> j in files
    requires forall a, b :: 0 <= a < b < |order| ==> order[a] != order[b]
    requires k in order
    ensures SumSizes(order, files[k := v]) + |files[k]| == SumSizes(order, files) + |v|
  {
    if order[0] == k {
      assert k !in order[1..];
      SumSizesOther(order[1..], files, k, v);
    } else {
      SumSizesUpdate(order[1..], files, k, v);
    }
  }

  lemma {:induction false} SumSizesOther(order: seq<string>, files: map<string, seq<string>>, k: string, v: seq<string>)
    requires forall j :: j in order ==> j in files
    requires k !in order
    ensures SumSizes(order, files[k := v]) == SumSizes(order, files)
  {
    if order != [] {
      SumSizesOther(order[1..], files, k, v);
    }
  }

  lemma {:induction false} SumSizesSnoc(order: seq<string>, files: map<string, seq<string>>, k: string)
    requires forall j :: j in order ==> j in files
    requires k in files
    ensures SumSizes(order + [k], files) == SumSizes(order, files) + |files[k]|
  {
    if order == [] {
      assert ([k])[1..] == [];
    } else {
      assert (order + [k])[1..] == order[1..] + [k];
      SumSizesSnoc(order[1..], files, k);
    }
  }

  /** No file is lost or counted twice: the group sizes add up to the number of files. */
  lemma {:induction false} GroupSizesAddUp(paths: seq<string>, key: string -> string)
    ensures var g := Grouped(paths, key); SumSizes(g.order, g.files) == |paths|
  {
    if paths != [] {
      var init, x := paths[..|paths| - 1], paths[|paths| - 1];
      assert init + [x] == paths;
      GroupSizesAddUp(init, key);
      GroupedSnoc(init, key, x);
      FirstSeenKeysOrder(init, key);
      assert Grouped(init, key).order == FirstSeenKeys(init, key);
      var g, k := Grouped(init, key), key(x);
      var v := (if k in g.files then g.files[k] else []) + [x];
      if k in g.files {
        SumSizesUpdate(g.order, g.files, k, v);
      } else {
        SumSizesOther(g.order, g.files, k, v);
        SumSizesSnoc(g.order, g.files[k := v], k);
      }
    }
  }
}
