# Placement-file scanner, modelled in Dafny

`scan.js` is a command-line scanner for FiveM map resources. It walks a set of root
directories and collects every `.ymap` placement file. It groups the files by the resource
folder above their `stream` directory. For each resource it inspects the folder for an
escrow marker (`.fxap`) and a resource script. Each placement file whose base name is not
a known base-game name goes to an external checker program. The scanner reads the object
positions the checker prints. From them it computes a 2D geometric median, the highest
height and the nearest postal code, per file and per resource. The results go into one
report keyed by folder name.

This project models that pipeline. Every external dependency becomes an input:

- **Directory trees** (`Discovery.Node`, `Listing`, `Root`). A directory's listing is
  its entries in `readdir` order, or `Unreadable` when `readdir` throws.
- **Checker runs** (`Checker.CheckerRun`). A run is the sequence of standard-output chunks
  and the exit code, as `spawn` delivers them. `Analysis.Env.run` gives the run for each
  path.
- **Resource-folder listings** (`Analysis.Env.listDir`). `None` means `readdir` failed.
- **`parseFloat`** (`num`) and **the Euclidean distance** (`dist`) are parameters.
  Arithmetic is over exact reals.
- **The contents of the base-game list file** (`Option<string>`). **The postal-code
  list** (`Env.postals`).

Paths are resolved POSIX paths. A path is modelled by its segments: the text for segments
`s` is `"/" + join(s, "/")` (`Paths.Render`).

The loops of the source are methods with loop invariants. Each is proved equal to a
function that states the same computation as a value:

| method | function |
|---|---|
| `Discovery.WalkDir` | `Walk` |
| `Discovery.GatherAllYmapFiles` | `Gathered` |
| `Grouping.GroupByResource` | `Grouped` |
| `Checker.ReadChunk` | `ChunkCoords` |
| `Checker.RunYmapChecker` | `CheckerOutput` |
| `Geometry.GeometricMedian` | `Median2D` |
| `Postal.FindClosestPostalCode` | `ClosestCode` |
| `Analysis.ProcessYmapFile` | `ProcessedFile` |
| `Analysis.AnalyzeResource` | `ResourceOf` |
| `Analysis.ProcessAllResources` | `Scan` |

Lemmas then state what those functions guarantee. Some lemmas compare a function with an
independent reference description, for example the walk against a front-to-back
description of the tree. Others state membership, order, "last one wins" or failure
conditions as if-and-only-if facts.

The model follows the code as written at these points:

- **Exact match only.** A file is base-game content only when its base name is in the
  base-game set (scan.js:53). `BaseGame.ExactMatchOnly` shows that "foobar" is not
  matched by the list "foo".
- **No reassembly across chunks.** Lines are not joined across standard-output chunk
  boundaries (scan.js:112-118). What a cut does depends on where it falls:
  - A line cut after its first non-space character and before the first digit of its Z
    numeral is lost. `Checker.SplitLineIsLost` shows one such cut, after `X=1,`.
  - A cut inside the line's leading white space is harmless. Each piece is trimmed
    (scan.js:116-117), so the blank first piece is skipped and the second holds the whole
    line (`Checker.LeadingSpaceCutIsHarmless`).
  - A line cut inside its Z numeral is misread. The pattern (scan.js:119) ends with that
    numeral, so the first chunk matches with a shortened Z, and the rest of the numeral
    matches nothing (`Checker.CutInsideZ`, with the instance `Checker.CutZIsMisread`). The
    wrong height then flows into `maxZ` and the centre (scan.js:181-182, 254-255).
  - A line cut after its Z numeral is read whole.

  The chunking is harmless when every chunk but the last ends with a line feed
  (`Checker.AllCoordsOfAlignedChunks`).
- **A non-zero exit aborts the whole scan.** The checker rejects on a non-zero exit code
  (scan.js:124). Nothing catches the rejection in the file loop (scan.js:245), so it ends
  the whole run at scan.js:278 and no report is written. The model returns `Failure` for
  the whole scan.
- **The key fallback also covers a leading `stream`.** It applies when the `stream`
  segment's index is below 1 (scan.js:86). For a resolved path, index 0 is the empty root
  piece, so the fallback happens exactly when there is no `stream` segment. A `stream`
  directly under the root gives the key `""` (`Grouping.ResourceKeyOfResolved`).
- **The extension test ignores case, the strip does not.** A file is a placement file when
  its extension, lower-cased, is ".ymap" (scan.js:62). Its base name drops only an exact
  ".ymap" (scan.js:238). So "FOO.YMAP" is scanned under the base name "FOO.YMAP". It never
  matches the base-game name "FOO", and its custom key keeps the extension
  (`Analysis.UpperCaseExtensionKept`).

## Model

| member | source | states |
|---|---|---|
| Text.TrimmedHasNoOuterSpace | scan.js:116 | `trim` leaves no white space at either end, and trimming twice equals trimming once |
| Text.ToLower | scan.js:62 | the lower-cased text has the same length and lower-cases each character on its own |
| Text.JoinSplit | scan.js:84-86 | joining the pieces of a split with the separator gives back the text |
| Text.SplitJoin | scan.js:84-86 | splitting a join of separator-free pieces gives back the pieces |
| Text.SplitLinesIsSplitLessCR | scan.js:34 | splitting on `\r?\n` gives the pieces of a split on `\n`, each less at most one final carriage return |
| Text.TrimDropsCR | scan.js:34 | a carriage return at the end of a line makes no difference once the line is trimmed |
| Paths.LastIndexOf | scan.js:86 | the index found holds the separator and no later index does, or -1 when there is none |
| Paths.YmapNameIff | scan.js:62 | the extension test holds exactly when the name is longer than ".ymap" and ends with ".ymap" ignoring case |
| Paths.PathJoinRender | scan.js:60 | `path.join` of a directory and an entry name is the path of the child segment |
| Paths.DirnameRender | scan.js:86 | `path.dirname` of a file's path is its directory's path |
| Paths.BasenameRender | scan.js:215 | `path.basename` of a path is its last segment |
| Paths.BasenameWithoutRender | scan.js:238 | `path.basename` with a suffix gives the entry name, less the suffix exactly when the name ends with it case-sensitively and is not the suffix itself |
| Paths.SplitRender | scan.js:84 | splitting a resolved path at the separator gives the empty root piece followed by its segments |
| Discovery.WalkDir | scan.js:56-66 | the walk's loop computes `Walk`; it fails as soon as some directory below fails to be read |
| Discovery.WalkFailurePersists | scan.js:58-61 | once a sub-walk has thrown, the rest of the entries cannot undo the failure |
| Discovery.WalkIsReadableYmaps | scan.js:56-66 | the walk fails exactly when some directory of the tree is unreadable; otherwise it returns every `.ymap` regular file of the tree as a resolved path, depth-first in entry order |
| Discovery.GatherAllYmapFiles | scan.js:69-79 | the gathering loop computes `Gathered`: the roots' results concatenated in order, and a failing root contributes nothing |
| Discovery.GatheredIsReadableRoots | scan.js:69-79 | the gathered files are the placement files of exactly the fully readable roots, in root order |
| Grouping.IndexOf | scan.js:85 | `indexOf` gives the first index holding the value, or -1 when no index does |
| Grouping.ResourceKeyOfResolved | scan.js:82-87 | the key of a file is the path before its first `stream` segment; it is `""` when that segment is first; with no `stream` segment it is the file's directory followed by `unknown_resource` |
| Grouping.GroupByResource | scan.js:206-211 | the grouping loop computes `Grouped`: the keys in first-seen order, and each key's files in scan order |
| Grouping.GroupedSnoc | scan.js:207-210 | one file appends to its key's list, and adds the key at the end of the order when the key is new |
| Grouping.FirstSeenKeysOrder | scan.js:206-214 | the keys are distinct; a key is present exactly when some file has it; keys are ordered by their first file |
| Grouping.FilesWithKeyMembers | scan.js:207-210 | a file is in the group of a key exactly when it is one of the files and has that key |
| Grouping.GroupSizesAddUp | scan.js:206-211 | the group sizes add up to the number of files, so no file is lost or counted twice |
| Inspection.HasFxap | scan.js:93 | true exactly when some entry name, lower-cased, ends with ".fxap" |
| Inspection.ScriptFile | scan.js:94-98 | a script is reported exactly when one of the two names is present, with "__resource.lua" preferred |
| Inspection.CheckResourceFiles | scan.js:90-103 | an unreadable folder gives no escrow and no script; otherwise escrow means some ".fxap" entry, the script is a present entry and one of the two names, and "__resource.lua" wins |
| Inspection.MarkerCaseButScriptExact | scan.js:93-98 | one listing, ["X.FXAP", "FXManifest.lua"], shows that the ".fxap" test ignores letter case but the script names must match exactly: it has escrow and no script |
| BaseGame.ParseBaseList | scan.js:34 | the set holds exactly the non-empty trimmed lines of the text; none is empty or holds a line feed |
| BaseGame.LoadBaseGameYmapNames | scan.js:31-39 | an unreadable list file gives the empty set; otherwise the set parsed from its text |
| BaseGame.LineEndingsDoNotMatter | scan.js:34 | splitting on `\r?\n` gives the same set as a plain split on `\n` followed by the trim |
| BaseGame.ExactMatchOnly | scan.js:53 | a list holding "foo" on a Windows line matches "foo" but not "foobar" |
| Checker.Span | scan.js:119 | the greedy prefix length: every character before it satisfies the class, and the next one does not |
| Checker.MatchField | scan.js:119 | a matched field is white space, the tag, a non-empty numeral and a rest that does not continue the numeral, and together they are the input |
| Checker.MatchObject | scan.js:119 | a matched line has the `Object:` shape with the three numerals and is the input rebuilt |
| Checker.MatchObjectOfText | scan.js:119 | every line of that shape is matched, with those same numerals; with `MatchObject`, a line matches exactly when it has the shape |
| Checker.ReadChunk | scan.js:112-121 | the loop over one chunk's pieces collects, in order, the position of each trimmed, non-empty piece that matches |
| Checker.RunYmapChecker | scan.js:106-125 | exit code 0 yields every chunk's positions in order, possibly none; any other exit is a rejection carrying the code |
| Checker.AllCoordsFrom | scan.js:112-120 | every position reported comes from a matching trimmed piece of some chunk, read with `parseFloat` |
| Checker.ReaderSkipsEmpty | scan.js:117 | an empty piece contributes no position |
| Checker.AllCoordsOfAlignedChunks | scan.js:112-118 | when every chunk but the last ends with a line feed, reading the chunks equals reading their concatenation |
| Checker.SplitLineIsLost | scan.js:112-118 | one example of a cut before the Z numeral, after `X=1,`: neither chunk yields a position, though the same text in one chunk yields its position |
| Checker.CutInsideZ | scan.js:112-119 | a position line cut inside its Z numeral yields the position with the shortened Z, and the rest of the numeral yields nothing; the whole line in one chunk yields the full Z |
| Checker.LeadingSpaceCutIsHarmless | scan.js:112-119 | "  " followed by the chunk "Object: X=1, Y=2, Z=3" yields that line's position once: a cut inside leading white space loses nothing |
| Checker.CutZIsMisread | scan.js:112-119 | "Object: X=1, Y=2, Z=3" followed by the chunk "4" is read with Z = 3, where the joined line gives Z = 34 |
| Geometry.ScanPoints | scan.js:144-151 | a pass that returns early returns one of the input points; otherwise its total weight is positive for a non-empty input |
| Geometry.HitPersists | scan.js:146 | once a point is closer than the tolerance, the rest of the pass does not change the outcome |
| Geometry.GeometricMedian | scan.js:138-157 | the loops compute `Median2D`: the origin for no points, the point for one, else at most 100 Weiszfeld rounds from the mean with both early exits |
| Geometry.MeanInBox | scan.js:128-132 | the mean of points inside a box lies inside the box |
| Geometry.MedianInBox | scan.js:138-157 | the median lies inside any box holding all the points, whatever the distance function |
| Geometry.MedianOfIdenticalPoints | scan.js:139-146 | points that all have the same horizontal position have that position as their median |
| Geometry.MaxZ | scan.js:181 | `Math.max` of the heights is at least every height and equals one of them |
| Postal.NearestIndex | scan.js:164-170 | no entry is nearer than the chosen one, and every earlier entry is strictly farther, so the first entry wins ties |
| Postal.NearestIsUnique | scan.js:164-170 | those two properties determine the chosen entry |
| Postal.ClosestOrderFree | scan.js:160-172 | when no two entries at the same distance carry different codes, reordering the list does not change the code found |
| Postal.FindClosestPostalCode | scan.js:160-172 | "N/A" for an empty list; otherwise the code of the nearest entry, with the first entry winning ties |
| Analysis.Summarize | scan.js:180-183 | computes the median, the highest height, the centre and the nearest postal code of the positions |
| Analysis.SummaryFacts | scan.js:180-194 | the centre is the median with the highest height; that height bounds and attains the heights; "N/A" without postal codes, else the code of an entry no other entry is nearer than |
| Analysis.SummaryInBox | scan.js:180-182 | the median and the centre lie over any box holding the positions |
| Analysis.ProcessYmapFile | scan.js:175-199 | runs the checker and builds the file's result |
| Analysis.FileResultFacts | scan.js:175-199 | a file succeeds exactly when the checker exits with 0; then the positions are the checker's, the object count is their number, and the summary is present exactly when the count is positive |
| Analysis.AnalyzeResource | scan.js:214-271 | the per-resource loop computes `ResourceOf`, stopping at the first failing file |
| Analysis.ScanFailurePersists | scan.js:245 | once a file has failed, the rest of the loop cannot undo the failure |
| Analysis.ScanFailsIff | scan.js:237-248 | the file loop fails exactly when some file that is not base-game content fails to be processed |
| Analysis.YmapBaseNameRender | scan.js:238 | the base name of a discovered file is its entry name, less ".ymap" exactly when the name ends with ".ymap", compared case-sensitively, and is longer than that |
| Analysis.UpperCaseExtensionKept | scan.js:238 | "FOO.YMAP" passes the case-blind extension test of scan.js:62 but keeps its extension as base name, so it is skipped exactly when the list holds "FOO.YMAP" |
| Analysis.ScanBaseGame | scan.js:239-242 | the skipped names are exactly the base names of the base-game files |
| Analysis.ScanCustomKeys | scan.js:244-246 | the custom results are keyed exactly by the base names of the other files |
| Analysis.ScanListsInOrder | scan.js:237-248 | a loop that does not fail lists one base-game name per base-game file, in file order, and gathers the other files' positions in file order |
| Analysis.ScanCustomLastWins | scan.js:246 | the result under a custom name is that of the last processed file with that name |
| Analysis.ResourceFailsIff | scan.js:237-248 | a resource fails exactly when the checker exits with a code other than 0 on one of its non-base-game files |
| Analysis.ResourceCustomLastWins | scan.js:245-246 | the custom result under a name is the count and summary of the checker's positions for the last such file |
| Analysis.ReportFacts | scan.js:224-267 | the report carries the resource's path, file count, escrow flag and script, and the base-game names in file order; `totalObjects` is the number of positions of the custom files; `resourceWide` is absent when there are none and otherwise the summary of all of them |
| Analysis.ProcessAllResources | scan.js:202-281 | loads the list, walks, groups and analyses every group in order; the result is `Scan`, and any failure leaves no output |
| Analysis.ReportsFailurePersists | scan.js:245 | once a group has failed, the rest of the groups cannot undo the failure |
| Analysis.ReportsFailIff | scan.js:214-272 | the scan fails exactly when the analysis of some group fails |
| Analysis.RunFailsIff | scan.js:202-281 | the whole run fails exactly when the checker exits with a code other than 0 on some discovered file that is not base-game content |
| Analysis.ReportsKeys | scan.js:215 | the output is keyed exactly by the folder names of the groups |
| Analysis.ReportsLastWins | scan.js:271 | the report under a folder name is that of the last group with that folder name |
| Analysis.GroupsCovered | scan.js:206-271 | for any key function, the output's folder names are exactly those of the files' keys |
| Analysis.ScanCoversGroups | scan.js:205-271 | every discovered file's resource appears under its folder name, and nothing else does |

## Left out

- File system, process and console I/O are left out: `fs.readdir`, `readFile`, `writeFile`, `spawn` and every `console` call. Directory trees, listings, file texts and checker runs are inputs instead.
- Selecting the checker executable by platform, and the shell quoting of `spawn` (scan.js:16-28, 111), are outside the model: only the run's output and exit code are used.
- `Promise.all` and any concurrency are left out: the two loads are independent and are modelled in sequence.
- Standard error is only logged by the source, so it is not modelled.
- Writing the report as JSON (scan.js:275) is left out; `Scan` returns the report map itself.
- Floating-point behaviour is not modelled. Arithmetic is over exact reals, so `NaN`, `Infinity`, rounding and `toFixed` are outside the model.
- `parseFloat` and `Math.sqrt` are parameters (`num` and `dist`): their values on given inputs are not modelled.
- Geometry.GeometricMedian: convergence and optimality are not claimed, including that the result's sum of distances is at most the mean's; with `dist` a parameter this cannot be proved. Only the loop structure and where the result lies are proved.
- The decoding of each chunk by `Buffer.toString` is not modelled: a chunk is given as text, so a multi-byte character cut by a chunk boundary is also outside the model.
- `loadPostalCodes` (scan.js:42-50) is not modelled. Its `JSON.parse` is a library call, so the postal-code list is an input; a list that cannot be read is the empty list.
- The report and `custom` objects are modelled as maps, so the order of their keys is not modelled at all. `JSON.stringify` (scan.js:275) writes keys in first-insertion order, and a folder name or base name stored again (scan.js:246, 271) keeps its first position; none of that order is captured. JavaScript's special `__proto__` key is left out too.
- Geometry.MaxZ: `Math.max(...)` over a very large spread can exceed the engine's argument limit; the model has no such limit.
- Only POSIX path behaviour is modelled. On win32 (scan.js:19-20) `path.sep` is `\` and the first piece of a resolved path is the drive (`C:`), so the keys of scan.js:84-86 differ from the ones modelled here.
- Paths are taken as already resolved by `path.resolve`: the configured roots are given as segment lists, relative to nothing. So `directoriesToCheck` and the working directory are outside the model.
- `Analysis.Env.run` makes the checker a function of the path: every run on a path is taken to give the same output chunks and exit code. When roots overlap, the same file is gathered twice and the source runs the checker on it twice; the model cannot give those two runs different results.
- The tree is not checked for consistency with `Env.listDir`: the resource-folder listing is an independent input.
- `Text.ToLower` lowers ASCII letters only. The tests it serves compare against ".ymap" and ".fxap"; no non-ASCII character lower-cases to one of those ASCII characters, so only non-ASCII names are affected.
- `ymaps.js`, the client that downloads the base-game list, is not part of this model.
