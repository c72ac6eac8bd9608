/** File discovery (scan.js:56-79): a depth-first walk over a directory tree that keeps the
    regular files whose lower-cased extension is ".ymap", and the gathering of several roots. */
module Discovery {
  import opened Wrappers
  import opened Paths

  /** A directory entry as `readdir(dir, { withFileTypes: true })` reports it. `Special`
      stands for every entry that is neither a directory nor a regular file (symbolic links,
      sockets, devices), which the walk skips. */
  datatype Node =
    | File(name: string)
    | Special(name: string)
    | Dir(name: string, listing: Listing)

  /** What `readdir` gives for a directory: its entries, in order, or an error. */
  datatype Listing = Unreadable | Listed(entries: seq<Node>)

  /** A configured root: its resolved path and what reading it gives. */
  datatype Root = Root(path: seq<string>, listing: Listing)

  /** `walkDir(dir)` as a value: `None` when it throws (some `readdir` below `dir` fails),
      else the resolved paths it returns. */
  function Walk(dir: seq<string>, l: Listing): Option<seq<string>>
    decreases l
  {
    match l
    case Unreadable => None
    case Listed(es) => WalkEntries(dir, es)
  }

  /** The loop of `walkDir` over the entries `es` of `dir`. */
  function WalkEntries(dir: seq<string>, es: seq<Node>): Option<seq<string>>
    decreases es
  {
    if es == [] then Some([])
    else
      match WalkEntries(dir, es[..|es| - 1])
      case None => None
      case Some(files) =>
        match es[|es| - 1]
        case Dir(n, sub) =>
          (match Walk(dir + [n], sub)
           case None => None
           case Some(more) => Some(files + more))
        case File(n) => if IsYmapName(n) then Some(files + [Render(dir + [n])]) else Some(files)
        case Special(_) => Some(files)
  }

  /** Once the walk of a prefix of the entries has failed, the walk of all of them fails. */
  lemma {:induction false} WalkFailurePersists(dir: seq<string>, es: seq<Node>, k: nat)
    requires k <= |es| && WalkEntries(dir, es[..k]) == None
    ensures WalkEntries(dir, es) == None
    decreases |es| - k
  {
    if k < |es| {
      assert es[..k + 1][..k] == es[..k];
      WalkFailurePersists(dir, es, k + 1);
    } else {
      assert es[..k] == es;
    }
  }

  method WalkDir(dir: seq<string>, listing: Listing) returns (r: Option<seq<string>>)
    ensures r == Walk(dir, listing)
    decreases listing
  {
    if listing.Unreadable? {
      return None;
    }
    var es := listing.entries;
    var files: seq<string> := [];
    var i := 0;
    while i < |es|
      invariant 0 <= i <= |es|
      invariant WalkEntries(dir, es[..i]) == Some(files)
    {
      assert es[..i + 1][..i] == es[..i];
      match es[i] {
        case Dir(n, sub) =>
          var more := WalkDir(dir + [n], sub);
          if more.None? {
            WalkFailurePersists(dir, es, i + 1);
            return None;
          }
          files := files + more.value;
        case File(n) =>
          if IsYmapName(n) {
            files := files + [Render(dir + [n])];
          }
        case Special(_) =>
      }
      i := i + 1;
    }
    assert es[..i] == es;
    r := Some(files);
  }

  /** `gatherAllYmapFiles` as a value: a root whose walk throws contributes nothing. */
  function Gathered(roots: seq<Root>): seq<string>
  {
    if roots == [] then []
    else
      var r := roots[|roots| - 1];
      Gathered(roots[..|roots| - 1]) +
        match Walk(r.path, r.listing) case None => [] case Some(files) => files
  }

  method GatherAllYmapFiles(roots: seq<Root>) returns (all: seq<string>)
    ensures all == Gathered(roots)
  {
    all := [];
    var i := 0;
    while i < |roots|
      invariant 0 <= i <= |roots|
      invariant all == Gathered(roots[..i])
    {
      assert roots[..i + 1][..i] == roots[..i];
      var files := WalkDir(roots[i].path, roots[i].listing);
      if files.Some? {
        all := all + files.value;
      }
      i := i + 1;
    }
    assert roots[..i] == roots;
  }

  // ---------------------------------------------------------------------------------------
  // A reference description of the walk, entry by entry from the front: whether every
  // directory in a tree can be read, and the placement files of the tree in depth-first order.

  predicate TreeReadable(l: Listing)
    decreases l
  {
    match l
    case Unreadable => false
    case Listed(es) => EntriesReadable(es)
  }

  predicate EntriesReadable(es: seq<Node>)
    decreases es
  {
    es == [] ||
    ((es[0].Dir? ==> TreeReadable(es[0].listing)) && EntriesReadable(es[1..]))
  }

  /** The placement files below `dir`, depth-first, whether or not every directory is readable. */
  function TreeYmaps(dir: seq<string>, l: Listing): seq<string>
    decreases l
  {
    match l
    case Unreadable => []
    case Listed(es) => EntriesYmaps(dir, es)
  }

  function EntriesYmaps(dir: seq<string>, es: seq<Node>): seq<string>
    decreases es
  {
    if es == [] then [] else EntryYmaps(dir, es[0]) + EntriesYmaps(dir, es[1..])
  }

  /** The placement files one entry of `dir` contributes. */
  function EntryYmaps(dir: seq<string>, e: Node): seq<string>
    decreases e
  {
    match e
    case Dir(n, sub) => TreeYmaps(dir + [n], sub)
    case File(n) => if IsYmapName(n) then [Render(dir + [n])] else []
    case Special(_) => []
  }

  lemma {:induction false} EntriesReadableSnoc(es: seq<Node>, e: Node)
    ensures EntriesReadable(es + [e]) == (EntriesReadable(es) && (e.Dir? ==> TreeReadable(e.listing)))
    decreases |es|
  {
    if es != [] {
      assert (es + [e])[1..] == es[1..] + [e];
      EntriesReadableSnoc(es[1..], e);
    } else {
      assert ([e])[1..] == [];
    }
  }

  lemma {:induction false} EntriesYmapsSnoc(dir: seq<string>, es: seq<Node>, e: Node)
    ensures EntriesYmaps(dir, es + [e]) == EntriesYmaps(dir, es) + EntryYmaps(dir, e)
    decreases |es|
  {
    if es != [] {
      assert (es + [e])[0] == es[0];
      assert (es + [e])[1..] == es[1..] + [e];
      EntriesYmapsSnoc(dir, es[1..], e);
    } else {
      assert es + [e] == [e];
      assert [e][1..] == [];
    }
  }

  /** The walk throws exactly when some directory of the tree cannot be read, and otherwise
      returns every placement file of the tree, depth-first in entry order. */
  lemma {:induction false} WalkIsReadableYmaps(dir: seq<string>, l: Listing)
    ensures Walk(dir, l) == if TreeReadable(l) then Some(TreeYmaps(dir, l)) else None
    decreases l
  {
    if l.Listed? {
      WalkEntriesIsReadableYmaps(dir, l.entries);
    }
  }

  lemma {:induction false} WalkEntriesIsReadableYmaps(dir: seq<string>, es: seq<Node>)
    ensures WalkEntries(dir, es) == if EntriesReadable(es) then Some(EntriesYmaps(dir, es)) else None
    decreases es
  {
    if es != [] {
      var init, e := es[..|es| - 1], es[|es| - 1];
      assert init + [e] == es;
      WalkEntriesIsReadableYmaps(dir, init);
      EntriesReadableSnoc(init, e);
      EntriesYmapsSnoc(dir, init, e);
      assert [e][1..] == [];
      assert EntriesReadable([e]) == (e.Dir? ==> TreeReadable(e.listing));
      if e.Dir? {
        WalkIsReadableYmaps(dir + [e.name], e.listing);
        if EntriesReadable(es) {
          assert WalkEntries(dir, init) == Some(EntriesYmaps(dir, init));
          assert Walk(dir + [e.name], e.listing) == Some(TreeYmaps(dir + [e.name], e.listing));
          assert WalkEntries(dir, es) == Some(EntriesYmaps(dir, init) + TreeYmaps(dir + [e.name], e.listing));
        } else if EntriesReadable(init) {
          assert Walk(dir + [e.name], e.listing) == None;
          assert WalkEntries(dir, es) == None;
        } else {
          assert WalkEntries(dir, es) == None;
        }
      } else {
        var own := if e.File? && IsYmapName(e.name) then [Render(dir + [e.name])] else [];
        assert EntryYmaps(dir, e) == own;
        assert EntriesReadable(es) == EntriesReadable(init);
        if EntriesReadable(init) {
          assert WalkEntries(dir, init) == Some(EntriesYmaps(dir, init));
          assert EntriesYmaps(dir, init) + [] == EntriesYmaps(dir, init);
        }
      }
    }
  }

  /** The same description of the gathering: the placement files of the readable roots, in
      root order. */
  function ReadableRootsYmaps(roots: seq<Root>): seq<string>
  {
    if roots == [] then []
    else
      (if TreeReadable(roots[0].listing) then TreeYmaps(roots[0].path, roots[0].listing) else []) +
      ReadableRootsYmaps(roots[1..])
  }

  lemma {:induction false} ReadableRootsYmapsSnoc(roots: seq<Root>, r: Root)
    ensures ReadableRootsYmaps(roots + [r]) == ReadableRootsYmaps(roots) + ReadableRootsYmaps([r])
    decreases |roots|
  {
    if roots != [] {
      assert (roots + [r])[1..] == roots[1..] + [r];
      ReadableRootsYmapsSnoc(roots[1..], r);
    } else {
      assert roots + [r] == [r];
    }
  }

  /** A root with an unreadable directory anywhere below it drops out whole; the other roots
      still contribute all their placement files, in order. */
  lemma {:induction false} GatheredIsReadableRoots(roots: seq<Root>)
    ensures Gathered(roots) == ReadableRootsYmaps(roots)
    decreases |roots|
  {
    if roots != [] {
      var init, r := roots[..|roots| - 1], roots[|roots| - 1];
      assert init + [r] == roots;
      GatheredIsReadableRoots(init);
      ReadableRootsYmapsSnoc(init, r);
      WalkIsReadableYmaps(r.path, r.listing);
      assert [r][1..] == [];
    }
  }
}
