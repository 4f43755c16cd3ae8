# Project-reference replacer, modelled in Dafny

The publishing tool `publish/project-parser/init.js` is run with
`--version {version} {file1} {file2} ...` before packing a set of .NET projects.
It reads every project file and collects its ProjectReference elements. Each one
becomes a *dependency*: the absolute path it points at, plus a *setter* bound to
the item group and the `Include` it came from.

It then peels the dependency graph from its leaves. It repeatedly takes the first
file with no remaining dependency (the *head*). If the head has a PackageId, every
other file fires the setters of its edges to the head, last edge first, and drops
those edges. Firing a setter removes the ProjectReference and pushes
`{Include: packageId, Version: version}` onto the item group labelled
`DependencyReplace`; that group is created when it does not exist yet. Every
file's first property group gets the version as its `Version`. When no file is
without dependencies, the run stops with "Not all dependencies are contained in
tree".

The model has these parts:

- `Common`: `Option`, `Result`, `Outcome` and the tool's fatal errors.
- `Document` holds the parsed project as values.
  - Item groups carry a unique `id` that stands for their object identity.
  - The removal and push operations are functions on the document (`Remove`, `AddToMarker`, `Replace`).
- `DocumentFacts` states what those operations do over three views of the document:
  - its tagged project references;
  - its package references;
  - its marker groups.
- `Extraction`: the dependencies of a document (`Edges`), and the loop that computes them.
- `Peeling` holds the topological peeling of `processFiles` as functions on values.
  - `ResolveDeps` is the reverse loop over one dependant.
  - `Step` is one head.
  - `Peel` is the whole recursion.
- `PeelingFacts`: what a run guarantees about the whole working set.
- `Rewriting`: what a successful run does to each document's references.
- `Paths`: `trim`, the de-duplicating reduce, and `ensureAbsolute`.
- `Cli`: the command-line guard, as written and as corrected.
- `ProjectFiles`: the class `ProjectFile`, whose fields (document, package name, dependencies) are updated in place.
  - Its methods are the original's functions and closures.
  - Each method is proved against the function that specifies it.
- `Orchestrator`: `processFiles` and `execute` as methods over a sequence of `ProjectFile` objects.
  - They are proved against `Peel` and the other functions.
  - `States(files)` is the value view of the objects.

Three things are parameters. Reading and parsing a file is the function `read`.
`path.resolve(path.parse(file).dir, include)` is the function `resolve`. The
version is a string.

## Model

| member | source | states |
|---|---|---|
| Cli.ParseArgsAsWritten | publish/project-parser/init.js:11-18 | the guard as written: it fails with the usage error exactly when `--version` is absent |
| Cli.LengthGuardIsDead | publish/project-parser/init.js:12-13 | the position `indexOf` returns is -1 or below the length, so `vFlag >= args.length` never holds |
| Cli.TrailingVersionAccepted | publish/project-parser/init.js:12-18 | `["C:/a.csproj", "--version"]` passes the guard with no version and one path |
| Cli.ParseArgs | publish/project-parser/init.js:11-18 | succeeds iff the first `--version` has a value after it; then the version is that value and the paths are all other arguments in order; otherwise the usage error |
| Cli.ParseArgsAgrees | publish/project-parser/init.js:11-18 | the corrected parser accepts exactly the inputs the written guard gives a version for, and returns the same version and paths there |
| Paths.Trim | publish/project-parser/init.js:21 | the result neither starts nor ends with ECMAScript whitespace |
| Paths.TrimIsSlice | publish/project-parser/init.js:21 | the trimmed string is a slice of the input, between a prefix and a suffix made only of whitespace |
| Paths.TrimIdempotent | publish/project-parser/init.js:21 | trimming twice is trimming once |
| Paths.IndexOf | publish/project-parser/init.js:12 | -1 iff the element is absent; otherwise the position of its first occurrence |
| Paths.Dedup | publish/project-parser/init.js:22 | no duplicates; exactly the input's elements; kept in the order of their first occurrence |
| Paths.MatchUsesLetterRun | publish/project-parser/init.js:64 | the regex can match only with its letter run ending at the first non-letter |
| Paths.EnsureAbsolute | publish/project-parser/init.js:63-66 | returns the path iff it matches `^[a-zA-Z]+:(\\|/)`; otherwise the error naming the path |
| Document.GroupIndex | publish/project-parser/init.js:138 | the first position holding the group with that identity, or none when no group has it |
| Document.FirstMatch | publish/project-parser/init.js:129-131 | the first reference whose `Include` equals the reference sought, or none |
| Document.FirstMarker | publish/project-parser/init.js:106-111 | the first item group labelled `DependencyReplace`, or none |
| DocumentFacts.RemoveSucceedsIff | publish/project-parser/init.js:124-161 | `remover` succeeds iff its group still holds a reference with that `Include` |
| DocumentFacts.RemoveSpec | publish/project-parser/init.js:124-161 | removes exactly one (group, `Include`) pair from the document's references; package references, marker groups, property groups and id uniqueness are unchanged |
| DocumentFacts.RemoveOrder | publish/project-parser/init.js:124-161 | the document's reference sequence loses exactly its first occurrence of (group, `Include`), at a position `j` before which that pair does not occur; every other reference keeps its order |
| DocumentFacts.RemoveGroup | publish/project-parser/init.js:124-161 | only group `id` changes: it loses its first reference with that `Include` and keeps its other keys and the order of the rest; an emptied ProjectReference list deletes the key; the group is spliced out exactly when no key is left; every other item group stays, in order |
| DocumentFacts.AddToMarkerSucceedsIff | publish/project-parser/init.js:96-122 | the push succeeds iff there is no marker group or the first one has a PackageReference list |
| DocumentFacts.AddToMarkerSpec | publish/project-parser/init.js:96-122 | one package reference more, in the first marker group, which is created (with a fresh id) only when none exists; project references and property groups are unchanged |
| DocumentFacts.ReplaceSucceedsIff | publish/project-parser/init.js:91-103 | `replacer` succeeds iff its reference is in its group and the marker group can take a push |
| DocumentFacts.ReplaceSpec | publish/project-parser/init.js:91-103 | trades one project reference for one `{Include: packageName, Version: packageVersion}` package reference in the marker group; property groups and id uniqueness are unchanged |
| DocumentFacts.TwoReplacementsShareMarker | publish/project-parser/init.js:105-122 | two replacements on a document with no marker group create one marker group, which holds both packages in call order |
| Extraction.EdgesOf | publish/project-parser/init.js:69-89 | succeeds iff every reference has a truthy `Include`; one dependency per reference, in order, with the resolved path and the setter bound to its group and `Include`; otherwise the file's error |
| Extraction.EdgesMatchReferences | publish/project-parser/init.js:69-89 | the extracted setters look for exactly the document's project references, in document order |
| Extraction.ExtractDependencies | publish/project-parser/init.js:69-89 | the reduce with its inner loop returns exactly `Edges` of the document |
| Extraction.RejectedReference | publish/project-parser/init.js:76-81 | any reference without a truthy `Include` makes extraction fail with the file's error |
| Peeling.Keep | publish/project-parser/init.js:176-182 | the kept edges name other files; every such edge is kept; they form a sub-multiset of the input |
| Peeling.Matching | publish/project-parser/init.js:176-182 | the fired edges name the target; together with the kept edges they are a permutation of the input |
| Peeling.ResolveDepsSpec | publish/project-parser/init.js:176-182 | the reverse loop fires the setter of every edge naming the head exactly once, last edge first, and keeps the others in order; it fails iff that sequence of setters fails |
| Peeling.FirstLeaf | publish/project-parser/init.js:170 | the first file without dependencies; none when every file has some |
| Peeling.ResolveTail | publish/project-parser/init.js:175-183 | succeeds iff every dependant's loop succeeds; each dependant's state is its own loop's result |
| Peeling.Without | publish/project-parser/init.js:172 | the list with the head's position removed, order kept |
| Peeling.Step | publish/project-parser/init.js:174-186 | dealing with a head keeps every other file's path and package name, in order |
| Peeling.Peel | publish/project-parser/init.js:167-189 | a non-empty set without a leaf fails with "not in tree"; a successful run yields one state per file |
| Peeling.PeelAt | publish/project-parser/init.js:167-189 | one round of `processFiles`: the head's failure, the rest's failure, or the rest's result with the head put back |
| Peeling.PeelKeepsIdentity | publish/project-parser/init.js:167-189 | a successful run keeps every file's path and package name at its position |
| Peeling.PeelEmptiesAll | publish/project-parser/init.js:167-189 | a successful run leaves no file with a remaining dependency |
| PeelingFacts.PeelNeedsNamedTargets | publish/project-parser/init.js:170-186 | in a successful run, every edge points at a file of the set that has a package name |
| PeelingFacts.NamelessTargetFails | publish/project-parser/init.js:174-186 | an edge whose target files all lack a package name makes the run fail |
| PeelingFacts.DanglingReferenceFails | publish/project-parser/init.js:170-171 | an edge to a path outside the set makes the run fail |
| PeelingFacts.FireOne | publish/project-parser/init.js:91-103 | firing an edge whose reference is present succeeds and keeps the other edges' references present |
| PeelingFacts.ResolveDepsTotal | publish/project-parser/init.js:176-182 | on a consistent dependant, the reverse loop never fails and leaves the kept edges' references in the document |
| PeelingFacts.ResolveTailTotal | publish/project-parser/init.js:175-183 | on consistent dependants the `forEach` succeeds and keeps them consistent |
| PeelingFacts.PeelFailsOnlyOutsideTree | publish/project-parser/init.js:167-189 | on consistent files, the only error a run can end with is "Not all dependencies are contained in tree" |
| PeelingFacts.ExtractedConsistent | publish/project-parser/init.js:68-89 | extracted setters find each of their references in the document, once per edge |
| PeelingFacts.ReplaceKeepsProperties | publish/project-parser/init.js:91-103 | a setter leaves the property groups unchanged |
| PeelingFacts.ResolveDepsKeepsProperties | publish/project-parser/init.js:176-182 | the reverse loop leaves the property groups unchanged |
| PeelingFacts.PeelKeepsProperties | publish/project-parser/init.js:167-189 | a successful run leaves every file's property groups (PackageId, stamped Version) unchanged |
| ProjectFiles.ProjectFile.constructor | publish/project-parser/init.js:26-30 | a file read from its path, with no package name and no dependencies yet |
| ProjectFiles.ProjectFile.MakeProjectReferencesAbsolute | publish/project-parser/init.js:68-89 | the document and package name are unchanged; dependencies become `Edges` of the document, or the error when a reference is not understood |
| ProjectFiles.ProjectFile.AddPackageName | publish/project-parser/init.js:48-53 | the package name becomes the first PackageId of the first property group; a document without property groups fails |
| ProjectFiles.ProjectFile.AddVersion | publish/project-parser/init.js:55-61 | only the first property group's Version changes, and it becomes the given version; without a property group nothing changes |
| ProjectFiles.ProjectFile.FindGroup | publish/project-parser/init.js:138 | the loop returns `GroupIndex` |
| ProjectFiles.FindReference | publish/project-parser/init.js:129-144 | the loop returns `FirstMatch` |
| ProjectFiles.ProjectFile.Remover | publish/project-parser/init.js:124-161 | the document becomes `Remove`; on failure it is left alone and the error names the reference |
| ProjectFiles.ProjectFile.NewItemGroupFinder | publish/project-parser/init.js:105-122 | the position of the first marker group, the document unchanged; else a new empty marker group is appended with a fresh id and its position returned |
| ProjectFiles.ProjectFile.Replacer | publish/project-parser/init.js:91-103 | the document becomes `Replace`, or the run fails with its error |
| ProjectFiles.ProjectFile.Visit | publish/project-parser/init.js:177-181 | one turn of the reverse loop keeps the loop invariant: a fired edge is spliced out, a kept one stays |
| ProjectFiles.ProjectFile.Fire | publish/project-parser/init.js:178-180 | an edge naming the head has its setter run; on success it is spliced out and the loop invariant holds one position lower; a failing setter's error is the error `ResolveDeps` reports |
| ProjectFiles.ProjectFile.ResolveDependencies | publish/project-parser/init.js:176-182 | the document and the remaining dependencies become `ResolveDeps`, or the run fails with its error |
| ProjectFiles.KeepCons | publish/project-parser/init.js:176-182 | seen from the front, the first edge is kept exactly when it names another file |
| Orchestrator.FindHead | publish/project-parser/init.js:170 | the loop finds `FirstLeaf` of the files' states |
| Orchestrator.ResolveAll | publish/project-parser/init.js:175-183 | the dependants' states become `ResolveTail`, or the first failure is returned |
| Orchestrator.StepHead | publish/project-parser/init.js:172-186 | the head is unchanged; the other files' states become `Step` |
| Orchestrator.ProcessFiles | publish/project-parser/init.js:167-189 | the files' final states are those `Peel` computes; a failure is the error `Peel` reports |
| Orchestrator.ProcessFrom | publish/project-parser/init.js:170-188 | `processFiles` once its head is found, against `Peel` |
| Orchestrator.CheckPaths | publish/project-parser/init.js:23 | passes iff every path is absolute; otherwise fails on the first one that is not |
| Orchestrator.OpenFiles | publish/project-parser/init.js:24-31 | one fresh object per path, in order, holding the document read from it |
| Orchestrator.ExtractAll | publish/project-parser/init.js:33 | documents and names unchanged; on success, each file's dependencies are `Edges` of its document; on failure, the extraction error of the first file, in list order, whose extraction fails |
| Orchestrator.NameAll | publish/project-parser/init.js:34 | passes iff every file has a property group; then each package name is its first PackageId |
| Orchestrator.StampAll | publish/project-parser/init.js:35 | every file's document becomes `Stamp` of its old one: the first property group gets the version as its Version and nothing else in it changes, the other property groups, the item groups, the names and the dependencies are unchanged, and a document without property groups is left alone |
| Orchestrator.Prepare | publish/project-parser/init.js:20-35 | passes iff every file's references extract and every file has a property group; then one fresh file per path whose state is `PreparedFile`: the stamped document, the first PackageId as package name, `Edges` as dependencies; a failure is the first file's extraction error in list order or, when all extract, the missing property group |
| Orchestrator.Run | publish/project-parser/init.js:41 | passes iff `Peel` of the prepared states succeeds, and then the files hold exactly `Peel`'s result; otherwise the error `Peel` reports; on success no file keeps a dependency, every Version stays stamped and every well-formed file is `ConvertedFile`; on ready documents no setter fails |
| Orchestrator.PreparedPeel | publish/project-parser/init.js:20-41 | the peeling of prepared files: on ready documents it never ends in a setter's error; when it succeeds, no dependency is left, every Version is in place and every well-formed file is converted |
| Orchestrator.PreparedSettersSucceed | publish/project-parser/init.js:20-41 | on documents with unique group ids and a usable marker group, a failing peeling of the prepared files fails only with "Not all dependencies are contained in tree" |
| Orchestrator.PreparedPeelEnds | publish/project-parser/init.js:20-41 | a successful peeling of prepared files leaves no dependency and every Version as stamped |
| Orchestrator.PeelConverts | publish/project-parser/init.js:20-41 | after a successful peeling, every well-formed file has no ProjectReference left and its PackageReferences are those it had plus one per edge, naming the target's package with the run's version |
| Orchestrator.PreparedStates | publish/project-parser/init.js:20-35 | the prepared objects hold exactly the prepared working set, and their paths are distinct |
| Orchestrator.PrepareAndRun | publish/project-parser/init.js:20-41 | passes iff every file prepares and the peeling of the prepared working set succeeds; the files then hold the peeled states, in path order, without dependencies, stamped and converted; a failure carries `Prepare`'s error (the first failing extraction in list order, else the missing property group) or, when every file prepares, the error `Peel` stops with |
| Orchestrator.Launch | publish/project-parser/init.js:20-41 | as `PrepareAndRun`, preceded by the absolute-path check: passes iff every path is absolute, every file prepares and the peeling succeeds; a failure carries `NotAbsolute` of the first path that is not absolute or, when all are, `PrepareAndRun`'s error |
| Orchestrator.Execute | publish/project-parser/init.js:7-46 | a command line the corrected guard rejects fails with the usage error; passes iff the command line parses, every trimmed de-duplicated path is absolute, every file prepares and `Peel` of the prepared working set succeeds; then the files hold exactly `Peel`'s result, one per path in order, without dependencies, with the version stamped, and every well-formed file converted; on ready documents no setter fails; once the command line parses, a failure carries `Launch`'s error for the trimmed de-duplicated paths |
| Rewriting.ResolveDepsEffect | publish/project-parser/init.js:176-182 | one dependant's reverse loop removes exactly the references of the edges naming the head and adds one `{Include: head's package, Version}` PackageReference per such edge; well-formedness is kept |
| Rewriting.SetterRefsSplit | publish/project-parser/init.js:176-182 | the references of the fired and of the kept edges together are those of all edges |
| Rewriting.PackagesForSplit | publish/project-parser/init.js:176-182 | the PackageReferences of the fired and of the kept edges together are those of all edges |
| Rewriting.PeelKeepsTargets | publish/project-parser/init.js:167-189 | a successful run names every edge's target as the initial working set does |
| Rewriting.PeelRewrites | publish/project-parser/init.js:167-189 | on distinct, well-formed files, a successful run takes from each file exactly the ProjectReferences of its edges and gives it one PackageReference per edge, naming the target's package with the run's version |

## Left out

- Reading and writing files, and the markup parser and builder (xml2js). A document is what `read` returns for a path. The tool writes each file back after `processFiles`; the model ends with the objects' final state.
- `path.resolve(path.parse(file).dir, include)` is the parameter `resolve`; path normalisation is not modelled.
- Console output, including the warning for a head without a package name.
- Promise concurrency: the files are read, extracted, named and stamped in list order, one stage after the other, as `Promise.all` followed by the three `map`s does.
- The raw `file` text and the `split` array of each file object, which nothing reads.
- Orchestrator.Execute: runs the corrected guard `Cli.ParseArgs`, so a trailing `--version` such as `["C:/a.csproj", "--version"]`, which the original accepts and runs with an undefined version, fails here with the usage error (see Findings).
- Orchestrator.Execute: does not return early on an empty file list (lines 37-39). `processFiles` on no files does nothing, so only the writing of no files differs, and writing is not modelled.
- The document shape is fixed:
  - `PropertyGroup` and `ItemGroup` are always lists; an absent key is read as an empty list;
  - a `PackageReference` key that is present is always a list;
  - the other children of a group are only counted.
- A missing `PropertyGroup[0]` is the error `NoPropertyGroup`; in JavaScript it is a TypeError.
- A project without any `ItemGroup` makes the original throw a TypeError at line 69 (`reduce` of `undefined`); the model reads the absent key as an empty list, so extraction succeeds with no dependencies.
- A push onto a marker group without a `PackageReference` list is the error `NoPackageReferenceList`; in JavaScript it is a TypeError.
- ProjectFiles.ProjectFile.MakeProjectReferencesAbsolute: updates the file object in place. The original returns a shallow copy with the dependencies (line 164). The setter closures (lines 92, 106, 120, 138, 153) keep reading `file.path` and `file.fileXml` of the old object; the copy shares that `fileXml`, so both see the same document.
- ProjectFiles.ProjectFile.Replacer: does not state the document left behind when the push fails after the removal.
- ProjectFiles.ProjectFile.ResolveDependencies: on failure, states only the error, not the partly rewritten document.
- Orchestrator.ProcessFiles: on failure, states only the error, not the files' partial state.
- Orchestrator.Run: on failure, states only the error, not the files' partial state.
- Orchestrator.Execute: on failure, states which error is returned but not what the files hold at that point, since `execute` writes nothing on a failed run.
- Object identity of item groups is an `id` unique within a document. A setter whose group was spliced out finds no group and fails, as the original fails on the emptied group.

## Findings

| source | as written | input that shows it | evidently intended | confidence | as-written member | corrected member |
|---|---|---|---|---|---|---|
| publish/project-parser/init.js:13 | `vFlag >= args.length` can never hold, so a trailing `--version` passes the guard and the version is `undefined` | `["C:/a.csproj", "--version"]` | reject when no value follows the flag: `vFlag + 1 >= args.length` | not executed | Cli.ParseArgsAsWritten, Cli.TrailingVersionAccepted | Cli.ParseArgs |
