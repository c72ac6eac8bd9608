/** The analysis of each placement file, each resource folder and the whole scan
    (scan.js:175-281). The external checker's runs, the folder listings, `parseFloat` and the
    distance are parameters. */
module Analysis {
  import opened Wrappers
  import opened Text
  import opened Paths
  import opened Discovery
  import opened Grouping
  import opened Inspection
  import opened BaseGame
  import opened Geometry
  import opened Checker
  import opened Postal

  /** What the scan consults besides the directory trees: the postal-code list, the distance,
      `parseFloat`, the checker's run on each path and the listing of each resource folder. */
  datatype Env = Env(
    postals: seq<PostalCode>,
    dist: Distance,
    num: string -> real,
    run: string -> CheckerRun,
    listDir: string -> Option<seq<string>>)

  /** The analysis of a non-empty set of positions: the 2D median, the highest height, the
      centre made of the two, and the postal code nearest to the median. */
  datatype Summary = Summary(median2D: Point2D, maxZ: real, center: Coord, closestPostalCode: string)

  function SummaryOf(cs: seq<Coord>, env: Env): Summary
    requires cs != []
  {
    var m := Median2D(cs, env.dist);
    var z := MaxZ(cs);
    Summary(m, z, Coord(m.x, m.y, z), ClosestCode(env.postals, m, env.dist))
  }

  /** The branch `if (coords.length > 0)` of `processYmapFile`, and the same steps for a whole
      resource (scan.js:253-256). */
  method Summarize(cs: seq<Coord>, env: Env) returns (s: Summary)
    requires cs != []
    ensures s == SummaryOf(cs, env)
  {
    var median2D := GeometricMedian(cs, env.dist);
    var maxZ := MaxZ(cs);
    var finalCoordinate := Coord(median2D.x, median2D.y, maxZ);
    var closestPostalCode := FindClosestPostalCode(env.postals, median2D, env.dist);
    s := Summary(median2D, maxZ, finalCoordinate, closestPostalCode);
  }

  /** The centre stands above the median at the highest height of the positions; the code is
      "N/A" without postal codes, else that of an entry no farther from the median than any
      other. */
  lemma SummaryFacts(cs: seq<Coord>, env: Env)
    requires cs != []
    ensures var s := SummaryOf(cs, env);
      && s.center == Coord(s.median2D.x, s.median2D.y, s.maxZ)
      && (forall i :: 0 <= i < |cs| ==> cs[i].z <= s.maxZ)
      && (exists i :: 0 <= i < |cs| && cs[i].z == s.maxZ)
      && (env.postals == [] ==> s.closestPostalCode == NoCode)
      && (env.postals != [] ==>
            exists i :: 0 <= i < |env.postals| && s.closestPostalCode == env.postals[i].code && NoNearer(env, s.median2D, i))
  {
    var s := SummaryOf(cs, env);
    if env.postals != [] {
      var i := NearestIndex(env.postals, s.median2D, env.dist);
      assert s.closestPostalCode == env.postals[i].code;
    }
  }

  /** No postal code is nearer to `m` than the `i`-th. */
  predicate NoNearer(env: Env, m: Point2D, i: nat)
    requires i < |env.postals|
  {
    forall j :: 0 <= j < |env.postals| ==> env.dist(m, Where(env.postals[i])) <= env.dist(m, Where(env.postals[j]))
  }

  /** The centre lies over the box of the positions whatever the distance function. */
  lemma SummaryInBox(cs: seq<Coord>, env: Env, lo: Point2D, hi: Point2D)
    requires cs != [] && AllInBox(cs, lo, hi)
    ensures InBox(SummaryOf(cs, env).median2D, lo, hi)
    ensures lo.x <= SummaryOf(cs, env).center.x <= hi.x && lo.y <= SummaryOf(cs, env).center.y <= hi.y
  {
    MedianInBox(cs, env.dist, lo, hi);
  }

  // ---------------------------------------------------------------------------------------
  // One placement file (scan.js:175-199)

  /** The `result` of `processYmapFile`: the object count, and the summary when there is at
      least one position. */
  datatype FileResult = FileResult(objectCount: nat, geometry: Option<Summary>)

  /** `{ coords, result }`. */
  datatype FileOutcome = FileOutcome(coords: seq<Coord>, result: FileResult)

  function FileResultOf(cs: seq<Coord>, env: Env): FileResult
  {
    FileResult(|cs|, if cs == [] then None else Some(SummaryOf(cs, env)))
  }

  /** `processYmapFile(filePath)`: the rejection of the checker when it fails, else the
      positions and their analysis. */
  function ProcessedFile(path: string, env: Env): Result<FileOutcome, CheckerError>
  {
    match CheckerOutput(env.run(path), env.num)
    case Failure(e) => Failure(e)
    case Success(cs) => Success(FileOutcome(cs, FileResultOf(cs, env)))
  }

  /** A way of processing one file. */
  type Process = string -> Result<FileOutcome, CheckerError>

  /** `processYmapFile` as a value, so that the loop over a resource's files can be stated for
      any way of processing one file. */
  function Processor(env: Env): Process
  {
    f => ProcessedFile(f, env)
  }

  method ProcessYmapFile(path: string, env: Env) returns (r: Result<FileOutcome, CheckerError>)
    ensures r == ProcessedFile(path, env)
  {
    var out := RunYmapChecker(env.run(path), env.num);
    if out.Failure? {
      return Failure(out.error);
    }
    var coords := out.value;
    var result := FileResult(|coords|, None);
    if |coords| > 0 {
      var s := Summarize(coords, env);
      result := result.(geometry := Some(s));
    }
    r := Success(FileOutcome(coords, result));
  }

  /** A file's result has a summary exactly when its checker reported a position, and then
      its object count is that number of positions. */
  lemma FileResultFacts(path: string, env: Env)
    ensures ProcessedFile(path, env).Success? <==> env.run(path).exit == Some(0)
    ensures ProcessedFile(path, env).Success? ==>
      var o := ProcessedFile(path, env).value;
      && o.coords == AllCoords(env.run(path).chunks, Reader(env.num))
      && o.result.objectCount == |o.coords|
      && (o.result.geometry.Some? <==> o.result.objectCount > 0)
  {
  }

  // ---------------------------------------------------------------------------------------
  // One resource folder (scan.js:214-271)

  /** `path.basename(filePath, '.ymap')`. */
  function YmapBaseName(f: string): string
  {
    BasenameWithout(f, ".ymap")
  }

  /** The base name of a discovered file: its entry name, less ".ymap" when it ends with
      exactly that and is not ".ymap" itself. */
  lemma YmapBaseNameRender(dir: seq<string>, n: string)
    requires IsName(n)
    ensures YmapBaseName(Render(dir + [n])) ==
      if EndsWith(n, ".ymap") && n != ".ymap" then n[..|n| - 5] else n
  {
    BasenameWithoutRender(dir, n, ".ymap");
  }

  /** The extension test ignores letter case but the strip does not: "FOO.YMAP" is a
      placement file whose base name keeps its extension, so it is skipped only when the
      base-game list holds "FOO.YMAP" itself, and never because the list holds "FOO". */
  lemma UpperCaseExtensionKept(baseSet: set<string>)
    ensures IsYmapName("FOO.YMAP")
    ensures YmapBaseName(Render(["r", "stream", "FOO.YMAP"])) == "FOO.YMAP"
    ensures IsBaseGameYmap(baseSet, YmapBaseName(Render(["r", "stream", "FOO.YMAP"]))) <==> "FOO.YMAP" in baseSet
  {
    UpperCaseIsYmap();
    UpperCaseNotStripped();
  }

  lemma UpperCaseIsYmap()
    ensures IsYmapName("FOO.YMAP")
  {
    YmapNameIff("FOO.YMAP");
    assert "FOO.YMAP"[3..] == ".YMAP";
    UpperExtensionLowers(".YMAP");
  }

  lemma UpperExtensionLowers(e: string)
    requires e == ".YMAP"
    ensures ToLower(e) == ".ymap"
  {
    var l := ToLower(e);
    assert l[0] == '.' && l[1] == 'y' && l[2] == 'm' && l[3] == 'a' && l[4] == 'p';
  }

  lemma UpperCaseNotStripped()
    ensures YmapBaseName(Render(["r", "stream", "FOO.YMAP"])) == "FOO.YMAP"
  {
    YmapBaseNameRender(["r", "stream"], "FOO.YMAP");
    assert ["r", "stream"] + ["FOO.YMAP"] == ["r", "stream", "FOO.YMAP"];
    assert "FOO.YMAP"[3..] != ".ymap";
  }

  /** What the loop over the files of a resource has built so far: the skipped base-game
      names, the custom results by base name, and every custom position. */
  datatype Partial = Partial(baseGame: seq<string>, custom: map<string, FileResult>, coords: seq<Coord>)

  /** The loop of scan.js:237-248 over `files`: a base-game file is listed and skipped; any
      other file is processed, its result stored under its base name (a later file with the
      same base name replaces it) and its positions appended. A failing file ends the loop, and
      with it the whole scan. */
  function ScanFiles(files: seq<string>, baseSet: set<string>, process: Process)
    : Result<Partial, CheckerError>
  {
    if files == [] then Success(Partial([], map[], []))
    else
      match ScanFiles(files[..|files| - 1], baseSet, process)
      case Failure(e) => Failure(e)
      case Success(acc) =>
        var f := files[|files| - 1];
        var b := YmapBaseName(f);
        if IsBaseGameYmap(baseSet, b) then Success(acc.(baseGame := acc.baseGame + [b]))
        else
          match process(f)
          case Failure(e) => Failure(e)
          case Success(o) => Success(Partial(acc.baseGame, acc.custom[b := o.result], acc.coords + o.coords))
  }

  /** The `resourceData` object. */
  datatype ResourceReport = ResourceReport(
    path: string,
    ymapCount: nat,
    hasEscrow: bool,
    scriptFile: Option<string>,
    baseGame: seq<string>,
    custom: map<string, FileResult>,
    totalObjects: nat,
    resourceWide: Option<Summary>)

  /** The body of the loop over the groups, for the group of `key`. */
  function ResourceOf(key: string, files: seq<string>, baseSet: set<string>, env: Env): Result<ResourceReport, CheckerError>
  {
    var insp := CheckResourceFiles(env.listDir(key));
    match ScanFiles(files, baseSet, Processor(env))
    case Failure(e) => Failure(e)
    case Success(p) =>
      Success(ResourceReport(key, |files|, insp.escrow, insp.scriptFile, p.baseGame, p.custom, |p.coords|,
                             if p.coords == [] then None else Some(SummaryOf(p.coords, env))))
  }

  lemma ScanFilesSnoc(files: seq<string>, i: nat, baseSet: set<string>, process: Process)
    requires i < |files|
    ensures ScanFiles(files[..i + 1], baseSet, process) ==
      match ScanFiles(files[..i], baseSet, process)
      case Failure(e) => Failure(e)
      case Success(acc) =>
        var b := YmapBaseName(files[i]);
        if IsBaseGameYmap(baseSet, b) then Success(acc.(baseGame := acc.baseGame + [b]))
        else
          match process(files[i])
          case Failure(e) => Failure(e)
          case Success(o) => Success(Partial(acc.baseGame, acc.custom[b := o.result], acc.coords + o.coords))
  {
    assert files[..i + 1][..i] == files[..i];
  }

  lemma {:induction false} ScanFailurePersists(files: seq<string>, k: nat, baseSet: set<string>, process: Process)
    requires k <= |files| && ScanFiles(files[..k], baseSet, process).Failure?
    ensures ScanFiles(files, baseSet, process) == ScanFiles(files[..k], baseSet, process)
    decreases |files| - k
  {
    if k < |files| {
      ScanFilesSnoc(files, k, baseSet, process);
      ScanFailurePersists(files, k + 1, baseSet, process);
    } else {
      assert files[..k] == files;
    }
  }

  /** The loop of scan.js:214-271 for one group. */
  method AnalyzeResource(key: string, files: seq<string>, baseSet: set<string>, env: Env)
    returns (r: Result<ResourceReport, CheckerError>)
    ensures r == ResourceOf(key, files, baseSet, env)
  {
    var insp := CheckResourceFiles(env.listDir(key));
    var baseGame: seq<string> := [];
    var custom: map<string, FileResult> := map[];
    var allCoords: seq<Coord> := [];
    var i := 0;
    while i < |files|
      invariant 0 <= i <= |files|
      invariant ScanFiles(files[..i], baseSet, Processor(env)) == Success(Partial(baseGame, custom, allCoords))
    {
      ScanFilesSnoc(files, i, baseSet, Processor(env));
      var baseName := YmapBaseName(files[i]);
      if IsBaseGameYmap(baseSet, baseName) {
        baseGame := baseGame + [baseName];
      } else {
        var out := ProcessYmapFile(files[i], env);
        assert out == Processor(env)(files[i]);
        if out.Failure? {
          ScanFailurePersists(files, i + 1, baseSet, Processor(env));
          return Failure(out.error);
        }
        custom := custom[baseName := out.value.result];
        allCoords := allCoords + out.value.coords;
      }
      i := i + 1;
    }
    assert files[..i] == files;
    var resourceWide: Option<Summary> := None;
    if |allCoords| > 0 {
      var s := Summarize(allCoords, env);
      resourceWide := Some(s);
    }
    r := Success(ResourceReport(key, |files|, insp.escrow, insp.scriptFile, baseGame, custom, |allCoords|, resourceWide));
  }

  // ---------------------------------------------------------------------------------------
  // What a resource's report says

  /** A file that is processed, and whose processing fails. */
  predicate Fails(f: string, baseSet: set<string>, process: Process)
  {
    !IsBaseGameYmap(baseSet, YmapBaseName(f)) && process(f).Failure?
  }

  /** The loop fails exactly when some file that is not a base-game file fails to be
      processed. */
  lemma ScanFailsIff(files: seq<string>, baseSet: set<string>, process: Process)
    ensures ScanFiles(files, baseSet, process).Failure? <==> exists i :: 0 <= i < |files| && Fails(files[i], baseSet, process)
  {
    if ScanFiles(files, baseSet, process).Failure? {
      var i := FailingFile(files, baseSet, process);
    }
    if exists i :: 0 <= i < |files| && Fails(files[i], baseSet, process) {
      var i :| 0 <= i < |files| && Fails(files[i], baseSet, process);
      FailingFileFails(files, baseSet, process, i);
    }
  }

  /** A failing loop has met a failing file. */
  lemma {:induction false} FailingFile(files: seq<string>, baseSet: set<string>, process: Process) returns (i: nat)
    requires ScanFiles(files, baseSet, process).Failure?
    ensures i < |files| && Fails(files[i], baseSet, process)
  {
    var init := files[..|files| - 1];
    ScanFailsStep(files, baseSet, process);
    if ScanFiles(init, baseSet, process).Failure? {
      i := FailingFile(init, baseSet, process);
      assert files[i] == init[i];
    } else {
      i := |files| - 1;
    }
  }

  /** A failing file makes the loop fail. */
  lemma {:induction false} FailingFileFails(files: seq<string>, baseSet: set<string>, process: Process, i: nat)
    requires i < |files| && Fails(files[i], baseSet, process)
    ensures ScanFiles(files, baseSet, process).Failure?
  {
    var init := files[..|files| - 1];
    ScanFailsStep(files, baseSet, process);
    if i < |init| {
      assert files[i] == init[i];
      FailingFileFails(init, baseSet, process, i);
    }
  }

  lemma ScanFailsStep(files: seq<string>, baseSet: set<string>, process: Process)
    requires files != []
    ensures ScanFiles(files, baseSet, process).Failure? <==>
      ScanFiles(files[..|files| - 1], baseSet, process).Failure? || Fails(files[|files| - 1], baseSet, process)
  {
  }

  /** One step of the loop that does not fail. */
  lemma ScanSuccessStep(files: seq<string>, baseSet: set<string>, process: Process)
    requires files != [] && ScanFiles(files, baseSet, process).Success?
    ensures ScanFiles(files[..|files| - 1], baseSet, process).Success?
    ensures var p0, p := ScanFiles(files[..|files| - 1], baseSet, process).value, ScanFiles(files, baseSet, process).value;
      var f := files[|files| - 1];
      var b := YmapBaseName(f);
      if IsBaseGameYmap(baseSet, b) then p == p0.(baseGame := p0.baseGame + [b])
      else process(f).Success? && p == Partial(p0.baseGame, p0.custom[b := process(f).value.result], p0.coords + process(f).value.coords)
  {
  }

  /** What one step of the loop adds to the skipped names and to the custom names. */
  lemma ScanNamesStep(files: seq<string>, baseSet: set<string>, process: Process)
    requires files != [] && ScanFiles(files, baseSet, process).Success?
    ensures ScanFiles(files[..|files| - 1], baseSet, process).Success?
    ensures var p0, p := ScanFiles(files[..|files| - 1], baseSet, process).value, ScanFiles(files, baseSet, process).value;
      var b := YmapBaseName(files[|files| - 1]);
      && (forall n :: n in p.baseGame <==> n in p0.baseGame || (SkippedAt(files, |files| - 1, baseSet) && n == b))
      && (forall n :: n in p.custom <==> n in p0.custom || (!SkippedAt(files, |files| - 1, baseSet) && n == b))
  {
    ScanSuccessStep(files, baseSet, process);
  }

  /** The base name of the `i`-th file is a base-game name. */
  predicate SkippedAt(files: seq<string>, i: int, baseSet: set<string>)
    requires 0 <= i < |files|
  {
    IsBaseGameYmap(baseSet, YmapBaseName(files[i]))
  }

  /** No file after the `i`-th has the same base name. */
  predicate LastOfName(files: seq<string>, i: int)
    requires 0 <= i < |files|
  {
    forall j :: i < j < |files| ==> YmapBaseName(files[j]) != YmapBaseName(files[i])
  }

  /** Some base-game file has base name `b`. */
  predicate SkippedName(files: seq<string>, baseSet: set<string>, b: string)
  {
    exists i :: 0 <= i < |files| && SkippedAt(files, i, baseSet) && b == YmapBaseName(files[i])
  }

  /** The base name of the `i`-th file is not a base-game name. */
  predicate CustomAt(files: seq<string>, i: int, baseSet: set<string>)
    requires 0 <= i < |files|
  {
    YmapBaseName(files[i]) !in baseSet
  }

  /** Some file that is not a base-game file has base name `b`. */
  predicate CustomName(files: seq<string>, baseSet: set<string>, b: string)
  {
    exists i :: 0 <= i < |files| && CustomAt(files, i, baseSet) && b == YmapBaseName(files[i])
  }

  /** Some file that `keep` selects has name `b`. */
  predicate Named(files: seq<string>, keep: string -> bool, name: string -> string, b: string)
  {
    exists i :: 0 <= i < |files| && keep(files[i]) && b == name(files[i])
  }

  lemma NamedSnoc(files: seq<string>, keep: string -> bool, name: string -> string, b: string)
    requires files != []
    ensures Named(files, keep, name, b) <==>
      Named(files[..|files| - 1], keep, name, b) || (keep(files[|files| - 1]) && b == name(files[|files| - 1]))
  {
    var init := files[..|files| - 1];
    if Named(files, keep, name, b) {
      var i :| 0 <= i < |files| && keep(files[i]) && b == name(files[i]);
      if i < |init| {
        assert init[i] == files[i];
      }
    }
    if Named(init, keep, name, b) {
      var i :| 0 <= i < |init| && keep(init[i]) && b == name(init[i]);
      assert init[i] == files[i];
    }
  }

  lemma SkippedNameSnoc(files: seq<string>, baseSet: set<string>, b: string)
    requires files != []
    ensures SkippedName(files, baseSet, b) <==>
      SkippedName(files[..|files| - 1], baseSet, b) ||
      (SkippedAt(files, |files| - 1, baseSet) && b == YmapBaseName(files[|files| - 1]))
  {
    var keep := (f: string) => IsBaseGameYmap(baseSet, YmapBaseName(f));
    SkippedNameIsNamed(files, baseSet, b);
    SkippedNameIsNamed(files[..|files| - 1], baseSet, b);
    NamedSnoc(files, keep, YmapBaseName, b);
  }

  lemma SkippedNameIsNamed(files: seq<string>, baseSet: set<string>, b: string)
    ensures SkippedName(files, baseSet, b) <==> Named(files, (f: string) => IsBaseGameYmap(baseSet, YmapBaseName(f)), YmapBaseName, b)
  {
    var keep := (f: string) => IsBaseGameYmap(baseSet, YmapBaseName(f));
    forall i | 0 <= i < |files| ensures SkippedAt(files, i, baseSet) <==> keep(files[i]) {
    }
  }

  lemma CustomNameSnoc(files: seq<string>, baseSet: set<string>, b: string)
    requires files != []
    ensures CustomName(files, baseSet, b) <==>
      CustomName(files[..|files| - 1], baseSet, b) ||
      (!SkippedAt(files, |files| - 1, baseSet) && b == YmapBaseName(files[|files| - 1]))
  {
    var keep := (f: string) => YmapBaseName(f) !in baseSet;
    CustomNameIsNamed(files, baseSet, b);
    CustomNameIsNamed(files[..|files| - 1], baseSet, b);
    NamedSnoc(files, keep, YmapBaseName, b);
  }

  lemma CustomNameIsNamed(files: seq<string>, baseSet: set<string>, b: string)
    ensures CustomName(files, baseSet, b) <==> Named(files, (f: string) => YmapBaseName(f) !in baseSet, YmapBaseName, b)
  {
    var keep := (f: string) => YmapBaseName(f) !in baseSet;
    forall i | 0 <= i < |files| ensures CustomAt(files, i, baseSet) <==> keep(files[i]) {
    }
  }

  /** The skipped names are exactly the base names of the base-game files. */
  lemma {:induction false} ScanBaseGame(files: seq<string>, baseSet: set<string>, process: Process)
    requires ScanFiles(files, baseSet, process).Success?
    ensures forall b :: b in ScanFiles(files, baseSet, process).value.baseGame <==> SkippedName(files, baseSet, b)
  {
    if files != [] {
      ScanNamesStep(files, baseSet, process);
      ScanBaseGame(files[..|files| - 1], baseSet, process);
      forall b ensures b in ScanFiles(files, baseSet, process).value.baseGame <==> SkippedName(files, baseSet, b)
      {
        SkippedNameSnoc(files, baseSet, b);
      }
    }
  }

  /** The custom results are keyed by the base names of the files that are not base-game
      files. */
  lemma {:induction false} ScanCustomKeys(files: seq<string>, baseSet: set<string>, process: Process)
    requires ScanFiles(files, baseSet, process).Success?
    ensures forall b :: b in ScanFiles(files, baseSet, process).value.custom <==> CustomName(files, baseSet, b)
  {
    if files != [] {
      ScanNamesStep(files, baseSet, process);
      ScanCustomKeys(files[..|files| - 1], baseSet, process);
      forall b ensures b in ScanFiles(files, baseSet, process).value.custom <==> CustomName(files, baseSet, b)
      {
        CustomNameSnoc(files, baseSet, b);
      }
    }
  }

  /** The base names of the base-game files, in file order. */
  function SkippedNames(files: seq<string>, baseSet: set<string>): seq<string>
  {
    if files == [] then []
    else
      SkippedNames(files[..|files| - 1], baseSet) +
        if SkippedAt(files, |files| - 1, baseSet) then [YmapBaseName(files[|files| - 1])] else []
  }

  /** The positions of the files that are not base-game files, concatenated in file order. */
  function CustomCoords(files: seq<string>, baseSet: set<string>, process: Process): seq<Coord>
  {
    if files == [] then []
    else
      var f := files[|files| - 1];
      CustomCoords(files[..|files| - 1], baseSet, process) +
        if !SkippedAt(files, |files| - 1, baseSet) && process(f).Success? then process(f).value.coords else []
  }

  /** A loop that does not fail lists the base-game names in file order, one entry per file
      (a name listed twice in the group is skipped twice), and gathers every position of the
      other files in file order. */
  lemma {:induction false} ScanListsInOrder(files: seq<string>, baseSet: set<string>, process: Process)
    requires ScanFiles(files, baseSet, process).Success?
    ensures ScanFiles(files, baseSet, process).value.baseGame == SkippedNames(files, baseSet)
    ensures ScanFiles(files, baseSet, process).value.coords == CustomCoords(files, baseSet, process)
  {
    if files != [] {
      ScanSuccessStep(files, baseSet, process);
      ScanListsInOrder(files[..|files| - 1], baseSet, process);
    }
  }

  /** The result under a custom name is that of the last processed file with that name: a
      later file with the same base name replaces an earlier one. */
  lemma {:induction false} ScanCustomLastWins(files: seq<string>, baseSet: set<string>, process: Process, i: nat)
    requires ScanFiles(files, baseSet, process).Success?
    requires i < |files| && !SkippedAt(files, i, baseSet) && LastOfName(files, i)
    ensures process(files[i]).Success?
    ensures YmapBaseName(files[i]) in ScanFiles(files, baseSet, process).value.custom
    ensures ScanFiles(files, baseSet, process).value.custom[YmapBaseName(files[i])] == process(files[i]).value.result
  {
    var init, f := files[..|files| - 1], files[|files| - 1];
    ScanSuccessStep(files, baseSet, process);
    if i < |init| {
      assert files[i] == init[i];
      assert YmapBaseName(f) != YmapBaseName(files[i]);
      assert LastOfName(init, i);
      ScanCustomLastWins(init, baseSet, process, i);
    }
  }

  /** For the scanner's own processing: a resource fails exactly when the checker exits with
      a code other than 0 on one of its files that is not a base-game file. */
  lemma ResourceFailsIff(key: string, files: seq<string>, baseSet: set<string>, env: Env)
    ensures ResourceOf(key, files, baseSet, env).Failure? <==>
      exists i :: 0 <= i < |files| && !SkippedAt(files, i, baseSet) && env.run(files[i]).exit != Some(0)
  {
    var process := Processor(env);
    ScanFailsIff(files, baseSet, process);
    forall i | 0 <= i < |files|
      ensures Fails(files[i], baseSet, process) <==> (!SkippedAt(files, i, baseSet) && env.run(files[i]).exit != Some(0))
    {
      FileResultFacts(files[i], env);
    }
  }

  /** For the scanner's own processing: the custom result under a name is the object count
      and summary of the positions the checker reported for the last file with that name. */
  lemma ResourceCustomLastWins(key: string, files: seq<string>, baseSet: set<string>, env: Env, i: nat)
    requires ResourceOf(key, files, baseSet, env).Success?
    requires i < |files| && !SkippedAt(files, i, baseSet) && LastOfName(files, i)
    ensures env.run(files[i]).exit == Some(0)
    ensures YmapBaseName(files[i]) in ResourceOf(key, files, baseSet, env).value.custom
    ensures ResourceOf(key, files, baseSet, env).value.custom[YmapBaseName(files[i])] ==
      FileResultOf(AllCoords(env.run(files[i]).chunks, Reader(env.num)), env)
  {
    ScanCustomLastWins(files, baseSet, Processor(env), i);
    FileResultFacts(files[i], env);
  }

  /** A resource's report: its path and file count, what its folder listing shows, the
      base-game names in file order, the number of positions of the custom files, and the
      resource-wide summary of all those positions, present exactly when there is one. */
  lemma ReportFacts(key: string, files: seq<string>, baseSet: set<string>, env: Env)
    requires ResourceOf(key, files, baseSet, env).Success?
    ensures var rep := ResourceOf(key, files, baseSet, env).value;
      && rep.path == key && rep.ymapCount == |files|
      && rep.hasEscrow == CheckResourceFiles(env.listDir(key)).escrow
      && rep.scriptFile == CheckResourceFiles(env.listDir(key)).scriptFile
      && (rep.resourceWide.Some? <==> rep.totalObjects > 0)
      && rep.baseGame == SkippedNames(files, baseSet)
      && rep.totalObjects == |CustomCoords(files, baseSet, Processor(env))|
      && rep.resourceWide == (var cs := CustomCoords(files, baseSet, Processor(env));
                              if cs == [] then None else Some(SummaryOf(cs, env)))
  {
    ScanListsInOrder(files, baseSet, Processor(env));
  }

  // ---------------------------------------------------------------------------------------
  // The whole scan (scan.js:202-281)

  /** The loop over the groups in insertion order: each report is stored under the last
      segment of its key, replacing an earlier resource with the same folder name. */
  function AllReports(order: seq<string>, groups: map<string, seq<string>>, analyze: Analyze)
    : Result<map<string, ResourceReport>, CheckerError>
    requires forall k :: k in order ==> k in groups
  {
    if order == [] then Success(map[])
    else
      var key := order[|order| - 1];
      match AllReports(order[..|order| - 1], groups, analyze)
      case Failure(e) => Failure(e)
      case Success(out) =>
        match analyze(key, groups[key])
        case Failure(e) => Failure(e)
        case Success(rep) => Success(out[Basename(key) := rep])
  }

  /** A way of analysing one group from its key and its files. */
  type Analyze = (string, seq<string>) -> Result<ResourceReport, CheckerError>

  /** `ResourceOf` as a value. */
  function Analyzer(baseSet: set<string>, env: Env): Analyze
  {
    (key, files) => ResourceOf(key, files, baseSet, env)
  }

  /** `processAllResources`: the base-game list is parsed from its file (when readable), the
      roots are walked, the files grouped by resource and every group analysed; a failure
      leaves no output. */
  function Scan(roots: seq<Root>, baseFile: Option<string>, env: Env): Result<map<string, ResourceReport>, CheckerError>
  {
    var g := Grouped(Gathered(roots), ResourceKey);
    AllReports(g.order, g.files, Analyzer(LoadBaseGameYmapNames(baseFile), env))
  }

  lemma AllReportsSnoc(order: seq<string>, i: nat, groups: map<string, seq<string>>, analyze: Analyze)
    requires i < |order| && forall k :: k in order ==> k in groups
    ensures order[i] in groups
    ensures forall k :: k in order[..i] ==> k in groups
    ensures AllReports(order[..i + 1], groups, analyze) ==
      match AllReports(order[..i], groups, analyze)
      case Failure(e) => Failure(e)
      case Success(out) =>
        match analyze(order[i], groups[order[i]])
        case Failure(e) => Failure(e)
        case Success(rep) => Success(out[Basename(order[i]) := rep])
  {
    assert order[..i + 1][..i] == order[..i];
    assert order[i] in order;
  }

  lemma {:induction false} ReportsFailurePersists(order: seq<string>, k: nat, groups: map<string, seq<string>>, analyze: Analyze)
    requires k <= |order| && forall j :: j in order ==> j in groups
    requires forall j :: j in order[..k] ==> j in groups
    requires AllReports(order[..k], groups, analyze).Failure?
    ensures AllReports(order, groups, analyze) == AllReports(order[..k], groups, analyze)
    decreases |order| - k
  {
    if k < |order| {
      AllReportsSnoc(order, k, groups, analyze);
      assert forall j :: j in order[..k + 1] ==> j in order;
      ReportsFailurePersists(order, k + 1, groups, analyze);
    } else {
      assert order[..k] == order;
    }
  }

  method ProcessAllResources(roots: seq<Root>, baseFile: Option<string>, env: Env)
    returns (r: Result<map<string, ResourceReport>, CheckerError>)
    ensures r == Scan(roots, baseFile, env)
  {
    var baseGameYmaps := LoadBaseGameYmapNames(baseFile);
    ghost var analyze := Analyzer(baseGameYmaps, env);
    var ymapFiles := GatherAllYmapFiles(roots);
    var g := GroupByResource(ymapFiles);
    var jsonOutput: map<string, ResourceReport> := map[];
    var i := 0;
    while i < |g.order|
      invariant 0 <= i <= |g.order|
      invariant forall k :: k in g.order ==> k in g.files
      invariant forall k :: k in g.order[..i] ==> k in g.files
      invariant AllReports(g.order[..i], g.files, analyze) == Success(jsonOutput)
    {
      AllReportsSnoc(g.order, i, g.files, analyze);
      var resourceDir := g.order[i];
      var folderName := Basename(resourceDir);
      var resourceData := AnalyzeResource(resourceDir, g.files[resourceDir], baseGameYmaps, env);
      assert resourceData == analyze(resourceDir, g.files[resourceDir]);
      if resourceData.Failure? {
        assert forall k :: k in g.order[..i + 1] ==> k in g.order;
        ReportsFailurePersists(g.order, i + 1, g.files, analyze);
        return Failure(resourceData.error);
      }
      jsonOutput := jsonOutput[folderName := resourceData.value];
      i := i + 1;
    }
    assert g.order[..i] == g.order;
    r := Success(jsonOutput);
  }

  // ---------------------------------------------------------------------------------------
  // What the output says

  /** One step of the loop over the groups. */
  lemma ReportsStep(order: seq<string>, groups: map<string, seq<string>>, analyze: Analyze)
    requires order != [] && forall k :: k in order ==> k in groups
    ensures forall k :: k in order[..|order| - 1] ==> k in groups
    ensures var key := order[|order| - 1];
      && (AllReports(order, groups, analyze).Failure? <==>
            AllReports(order[..|order| - 1], groups, analyze).Failure? || analyze(key, groups[key]).Failure?)
      && (AllReports(order, groups, analyze).Success? ==>
            AllReports(order, groups, analyze).value ==
              AllReports(order[..|order| - 1], groups, analyze).value[Basename(key) := analyze(key, groups[key]).value])
  {
    assert forall k :: k in order[..|order| - 1] ==> k in order;
  }

  /** The `i`-th group's analysis fails. */
  predicate GroupFails(order: seq<string>, groups: map<string, seq<string>>, analyze: Analyze, i: int)
    requires 0 <= i < |order| && order[i] in groups
  {
    analyze(order[i], groups[order[i]]).Failure?
  }

  /** The scan fails exactly when the analysis of some group fails. */
  lemma ReportsFailIff(order: seq<string>, groups: map<string, seq<string>>, analyze: Analyze)
    requires forall k :: k in order ==> k in groups
    ensures AllReports(order, groups, analyze).Failure? <==>
      exists i :: 0 <= i < |order| && GroupFails(order, groups, analyze, i)
  {
    if AllReports(order, groups, analyze).Failure? {
      var i := FailingGroup(order, groups, analyze);
    }
    if exists i :: 0 <= i < |order| && GroupFails(order, groups, analyze, i) {
      var i :| 0 <= i < |order| && GroupFails(order, groups, analyze, i);
      FailingGroupFails(order, groups, analyze, i);
    }
  }

  lemma {:induction false} FailingGroup(order: seq<string>, groups: map<string, seq<string>>, analyze: Analyze) returns (i: nat)
    requires forall k :: k in order ==> k in groups
    requires AllReports(order, groups, analyze).Failure?
    ensures i < |order| && GroupFails(order, groups, analyze, i)
  {
    var init := order[..|order| - 1];
    ReportsStep(order, groups, analyze);
    if AllReports(init, groups, analyze).Failure? {
      i := FailingGroup(init, groups, analyze);
      assert order[i] == init[i];
    } else {
      i := |order| - 1;
    }
  }

  lemma {:induction false} FailingGroupFails(order: seq<string>, groups: map<string, seq<string>>, analyze: Analyze, i: nat)
    requires forall k :: k in order ==> k in groups
    requires i < |order| && GroupFails(order, groups, analyze, i)
    ensures AllReports(order, groups, analyze).Failure?
  {
    var init := order[..|order| - 1];
    ReportsStep(order, groups, analyze);
    if i < |init| {
      assert order[i] == init[i];
      FailingGroupFails(init, groups, analyze, i);
    }
  }

  /** The output is keyed by the folder names of the groups. */
  lemma {:induction false} ReportsKeys(order: seq<string>, groups: map<string, seq<string>>, analyze: Analyze)
    requires forall k :: k in order ==> k in groups
    requires AllReports(order, groups, analyze).Success?
    ensures forall n :: n in AllReports(order, groups, analyze).value <==>
      exists i :: 0 <= i < |order| && n == Basename(order[i])
  {
    if order != [] {
      var init := order[..|order| - 1];
      ReportsStep(order, groups, analyze);
      ReportsKeys(init, groups, analyze);
      var out0, out := AllReports(init, groups, analyze).value, AllReports(order, groups, analyze).value;
      forall n ensures n in out <==> exists i :: 0 <= i < |order| && n == Basename(order[i])
      {
        if n in out {
          if n in out0 {
            var i :| 0 <= i < |init| && n == Basename(init[i]);
            assert order[i] == init[i];
          } else {
            assert n == Basename(order[|order| - 1]);
          }
        }
        if exists i :: 0 <= i < |order| && n == Basename(order[i]) {
          var i :| 0 <= i < |order| && n == Basename(order[i]);
          if i < |init| {
            assert order[i] == init[i];
          }
        }
      }
    }
  }

  /** No group after the `i`-th has the same folder name. */
  predicate LastOfFolder(order: seq<string>, i: int)
    requires 0 <= i < |order|
  {
    forall j :: i < j < |order| ==> Basename(order[j]) != Basename(order[i])
  }

  /** The report under a folder name is that of the last group with that folder name: a later
      resource replaces an earlier one with the same name. */
  lemma {:induction false} ReportsLastWins(order: seq<string>, groups: map<string, seq<string>>, analyze: Analyze, i: nat)
    requires forall k :: k in order ==> k in groups
    requires AllReports(order, groups, analyze).Success?
    requires i < |order| && LastOfFolder(order, i)
    ensures analyze(order[i], groups[order[i]]).Success?
    ensures Basename(order[i]) in AllReports(order, groups, analyze).value
    ensures AllReports(order, groups, analyze).value[Basename(order[i])] == analyze(order[i], groups[order[i]]).value
  {
    var init := order[..|order| - 1];
    ReportsStep(order, groups, analyze);
    if i < |init| {
      assert order[i] == init[i];
      assert Basename(order[|order| - 1]) != Basename(order[i]);
      assert LastOfFolder(init, i);
      ReportsLastWins(init, groups, analyze, i);
    }
  }

  /** Some file's key has folder name `n`. */
  predicate KeyedFolder(files: seq<string>, key: string -> string, n: string)
  {
    exists i :: 0 <= i < |files| && n == Basename(key(files[i]))
  }

  /** Grouping loses no resource: the folder names of the output are those of the keys of
      the files, for any key function. */
  lemma GroupsCovered(files: seq<string>, key: string -> string, analyze: Analyze)
    requires var g := Grouped(files, key); AllReports(g.order, g.files, analyze).Success?
    ensures var g := Grouped(files, key);
      forall n :: n in AllReports(g.order, g.files, analyze).value <==> KeyedFolder(files, key, n)
  {
    var g := Grouped(files, key);
    FirstSeenKeysOrder(files, key);
    ReportsKeys(g.order, g.files, analyze);
    forall n ensures n in AllReports(g.order, g.files, analyze).value <==> KeyedFolder(files, key, n)
    {
      if KeyedFolder(files, key, n) {
        var i :| 0 <= i < |files| && n == Basename(key(files[i]));
        assert FirstWithKey(files, key, key(files[i])) >= 0;
        var j :| 0 <= j < |g.order| && g.order[j] == key(files[i]);
      }
      if n in AllReports(g.order, g.files, analyze).value {
        var j :| 0 <= j < |g.order| && n == Basename(g.order[j]);
        assert g.order[j] in g.order;
        var f := FirstWithKey(files, key, g.order[j]);
        assert n == Basename(key(files[f]));
      }
    }
  }

  /** Every discovered file's resource appears in the output under its folder name, and
      nothing else does. */
  lemma ScanCoversGroups(roots: seq<Root>, baseFile: Option<string>, env: Env)
    requires Scan(roots, baseFile, env).Success?
    ensures forall n :: n in Scan(roots, baseFile, env).value <==> KeyedFolder(Gathered(roots), ResourceKey, n)
  {
    var files := Gathered(roots);
    var g := Grouped(files, ResourceKey);
    var analyze := Analyzer(LoadBaseGameYmapNames(baseFile), env);
    assert Scan(roots, baseFile, env) == AllReports(g.order, g.files, analyze);
    GroupsCovered(files, ResourceKey, analyze);
  }

  /** The checker run on `f` would fail the scan: `f` is not base-game content and the
      checker does not exit with 0 on it. */
  predicate CheckerFails(f: string, baseSet: set<string>, env: Env)
  {
    !IsBaseGameYmap(baseSet, YmapBaseName(f)) && env.run(f).exit != Some(0)
  }

  /** A failing group holds a file on which the checker fails. */
  lemma GroupFailureHasFile(files: seq<string>, baseSet: set<string>, env: Env, i: nat)
    requires var g := Grouped(files, ResourceKey); i < |g.order| && g.order[i] in g.files
    requires var g := Grouped(files, ResourceKey); GroupFails(g.order, g.files, Analyzer(baseSet, env), i)
    ensures exists f :: f in files && CheckerFails(f, baseSet, env)
  {
    var g := Grouped(files, ResourceKey);
    var group := g.files[g.order[i]];
    ResourceFailsIff(g.order[i], group, baseSet, env);
    var j :| 0 <= j < |group| && !SkippedAt(group, j, baseSet) && env.run(group[j]).exit != Some(0);
    FilesWithKeyMembers(files, ResourceKey, g.order[i], group[j]);
    assert CheckerFails(group[j], baseSet, env);
  }

  /** A file on which the checker fails makes its group fail. */
  lemma FileFailsItsGroup(files: seq<string>, baseSet: set<string>, env: Env, f: string) returns (i: nat)
    requires f in files && CheckerFails(f, baseSet, env)
    ensures var g := Grouped(files, ResourceKey); i < |g.order| && g.order[i] in g.files
    ensures var g := Grouped(files, ResourceKey); GroupFails(g.order, g.files, Analyzer(baseSet, env), i)
  {
    var g := Grouped(files, ResourceKey);
    var k := ResourceKey(f);
    FirstSeenKeysOrder(files, ResourceKey);
    var n :| 0 <= n < |files| && files[n] == f;
    assert FirstWithKey(files, ResourceKey, k) >= 0;
    i :| 0 <= i < |g.order| && g.order[i] == k;
    var group := g.files[k];
    FilesWithKeyMembers(files, ResourceKey, k, f);
    var j :| 0 <= j < |group| && group[j] == f;
    assert !SkippedAt(group, j, baseSet);
    ResourceFailsIff(k, group, baseSet, env);
  }

  /** The whole run fails exactly when the checker exits with a code other than 0 on some
      discovered file that is not base-game content. */
  lemma RunFailsIff(roots: seq<Root>, baseFile: Option<string>, env: Env)
    ensures Scan(roots, baseFile, env).Failure? <==>
      exists f :: f in Gathered(roots) && CheckerFails(f, LoadBaseGameYmapNames(baseFile), env)
  {
    var files := Gathered(roots);
    var baseSet := LoadBaseGameYmapNames(baseFile);
    var g := Grouped(files, ResourceKey);
    var analyze := Analyzer(baseSet, env);
    assert Scan(roots, baseFile, env) == AllReports(g.order, g.files, analyze);
    ReportsFailIff(g.order, g.files, analyze);
    if AllReports(g.order, g.files, analyze).Failure? {
      var i :| 0 <= i < |g.order| && GroupFails(g.order, g.files, analyze, i);
      GroupFailureHasFile(files, baseSet, env, i);
    }
    if exists f :: f in files && CheckerFails(f, baseSet, env) {
      var f :| f in files && CheckerFails(f, baseSet, env);
      var i := FileFailsItsGroup(files, baseSet, env, f);
    }
  }
}
