/** The parts of Node's POSIX `path` module the scanner uses: `join`, `resolve`, `dirname`,
    `basename` (with and without a suffix) and `extname`. A resolved absolute path is
    represented by its segments: its text is "/" followed by the segments joined by "/". */
module Paths {
  import opened Text

  const Sep: char := '/'

  /** A directory-entry name as `readdir` reports it. */
  predicate IsName(n: string)
  {
    n != "" && Sep !in n && n != "." && n != ".."
  }

  predicate AllNames(segs: seq<string>)
  {
    forall i :: 0 <= i < |segs| ==> IsName(segs[i])
  }

  /** The text of the resolved absolute path with the given segments. */
  function Render(segs: seq<string>): string
  {
    [Sep] + Join(segs, Sep)
  }

  /** The index of the last `c` in `s`, or -1. */
  function LastIndexOf(s: string, c: char): (r: int)
    ensures -1 <= r < |s|
    ensures r >= 0 ==> s[r] == c
    ensures forall i :: r < i < |s| ==> s[i] != c
  {
    if s == [] then -1
    else if s[|s| - 1] == c then |s| - 1
    else LastIndexOf(s[..|s| - 1], c)
  }

  /** `path.dirname` of a normalized path without a trailing separator. */
  function Dirname(p: string): string
  {
    var i := LastIndexOf(p, Sep);
    if i < 0 then "." else if i == 0 then [Sep] else p[..i]
  }

  /** `path.join(dir, name)` for a normalized `dir` and an entry name, already normalized. */
  function PathJoin(dir: string, name: string): string
  {
    if dir == "" || dir == "." then name
    else if dir[|dir| - 1] == Sep then dir + name
    else dir + [Sep] + name
  }

  /** `path.basename(p)` of a path without a trailing separator: its last segment. */
  function Basename(p: string): string
  {
    p[LastIndexOf(p, Sep) + 1..]
  }

  /** `path.basename(p, suffix)`: the last segment, less `suffix` when it ends with it
      (compared case-sensitively) and is not exactly `suffix`. */
  function BasenameWithout(p: string, suffix: string): string
  {
    var b := Basename(p);
    if p == suffix then ""
    else if EndsWith(b, suffix) && b != suffix then b[..|b| - |suffix|]
    else b
  }

  /** `path.extname(name)` for an entry name: from the last dot on, except that a name
      whose only dot is its first character, and the name "..", have no extension. */
  function ExtName(name: string): string
  {
    var d := LastIndexOf(name, '.');
    if d <= 0 || name == ".." then "" else name[d..]
  }

  /** The test `path.extname(name).toLowerCase() === '.ymap'` (scan.js:62). */
  predicate IsYmapName(name: string)
  {
    ToLower(ExtName(name)) == ".ymap"
  }

  /** An entry is a placement file exactly when its name is longer than ".ymap" and ends,
      ignoring letter case, with ".ymap": a file called ".ymap" is not one. */
  lemma YmapNameIff(name: string)
    ensures IsYmapName(name) <==> |name| > 5 && ToLower(name[|name| - 5..]) == ".ymap"
  {
    var d := LastIndexOf(name, '.');
    if |name| > 5 && ToLower(name[|name| - 5..]) == ".ymap" {
      var tail := name[|name| - 5..];
      assert LowerChar(tail[0]) == '.';
      forall i | |name| - 5 < i < |name| ensures name[i] != '.' {
        assert LowerChar(tail[i - (|name| - 5)]) != '.';
      }
      assert d == |name| - 5;
    }
    if IsYmapName(name) {
      assert |ExtName(name)| == 5;
      assert d == |name| - 5;
    }
  }

  lemma {:induction false} JoinSnoc(ps: seq<string>, n: string, c: char)
    ensures Join(ps + [n], c) == if ps == [] then n else Join(ps, c) + [c] + n
  {
    if |ps| == 1 {
      assert ps + [n] == [ps[0], n];
      assert [ps[0], n][1..] == [n];
    } else if |ps| > 1 {
      JoinSnoc(ps[1..], n, c);
      assert (ps + [n])[1..] == ps[1..] + [n];
      assert (ps + [n])[0] == ps[0];
    }
  }

  lemma RenderSnoc(segs: seq<string>, n: string)
    ensures Render(segs + [n]) == (if segs == [] then [Sep] else Render(segs) + [Sep]) + n
  {
    JoinSnoc(segs, n, Sep);
  }

  /** `path.resolve(path.join(dir, name))` for a resolved `dir`: the path one segment deeper. */
  lemma PathJoinRender(segs: seq<string>, n: string)
    requires AllNames(segs) && IsName(n)
    ensures PathJoin(Render(segs), n) == Render(segs + [n])
  {
    RenderSnoc(segs, n);
    if segs != [] {
      var init, last := segs[..|segs| - 1], segs[|segs| - 1];
      assert init + [last] == segs;
      RenderSnoc(init, last);
      var p := Render(segs);
      assert IsName(last);
      assert p[|p| - 1] == last[|last| - 1];
    }
  }

  /** In a path one segment below `segs`, the last separator is the one before that segment. */
  lemma LastSepOfRender(segs: seq<string>, n: string)
    requires IsName(n)
    ensures LastIndexOf(Render(segs + [n]), Sep) == if segs == [] then 0 else |Render(segs)|
  {
    RenderSnoc(segs, n);
    var p := Render(segs + [n]);
    var k := if segs == [] then 0 else |Render(segs)|;
    assert p[k] == Sep;
    forall i | k < i < |p| ensures p[i] != Sep {
      assert p[i] == n[i - k - 1];
    }
  }

  lemma DirnameRender(segs: seq<string>, n: string)
    requires IsName(n)
    ensures Dirname(Render(segs + [n])) == Render(segs)
  {
    LastSepOfRender(segs, n);
    RenderSnoc(segs, n);
  }

  lemma BasenameRender(segs: seq<string>, n: string)
    requires IsName(n)
    ensures Basename(Render(segs + [n])) == n
  {
    LastSepOfRender(segs, n);
    RenderSnoc(segs, n);
  }

  /** `path.basename` with a suffix, of a resolved path: the entry name, less the suffix when
      the name ends with it case-sensitively and is not the suffix itself. */
  lemma BasenameWithoutRender(segs: seq<string>, n: string, suffix: string)
    requires IsName(n) && (suffix == [] || suffix[0] != Sep)
    ensures BasenameWithout(Render(segs + [n]), suffix) ==
      if EndsWith(n, suffix) && n != suffix then n[..|n| - |suffix|] else n
  {
    BasenameRender(segs, n);
    assert Render(segs + [n])[0] == Sep;
  }

  /** The separator-split of a resolved path is an empty root piece followed by its segments. */
  lemma SplitRender(segs: seq<string>)
    requires |segs| >= 1 && AllNames(segs)
    ensures Split(Render(segs), Sep) == [""] + segs
  {
    SplitJoin(segs, Sep);
    assert Render(segs) == [] + [Sep] + Join(segs, Sep);
    SplitConcat([], Join(segs, Sep), Sep);
  }
}
