/**
 * The orchestrator: `execute` reads the command line, opens every project file,
 * extracts and names them, and `processFiles` peels the dependency graph from its
 * leaves, turning each ProjectReference to a named project into a PackageReference.
 */
module Orchestrator {
  import opened Common
  import opened Document
  import opened DocumentFacts
  import opened Extraction
  import opened Peeling
  import opened PeelingFacts
  import opened Paths
  import opened Cli
  import opened ProjectFiles
  import opened Rewriting

  /** The files' fields as values, in list order. */
  function States(files: seq<ProjectFile>): (r: seq<FileState>)
    reads files
    ensures |r| == |files|
    ensures forall k :: 0 <= k < |files| ==> r[k] == files[k].State()
  {
    if files == [] then [] else [files[0].State()] + States(files[1..])
  }

  /** The list holds distinct objects, as the array of files built by `execute` does. */
  predicate Distinct(files: seq<ProjectFile>) {
    forall i, j :: 0 <= i < j < |files| ==> files[i] != files[j]
  }

  /** The states of the list without its head are the states of the list, without the head's. */
  lemma StatesWithout(files: seq<ProjectFile>, h: nat)
    requires h < |files|
    ensures States(files[..h] + files[h + 1..]) == Without(States(files), h)
  {
    var tail := files[..h] + files[h + 1..];
    var all := States(files);
    var w := Without(all, h);
    forall k | 0 <= k < |tail|
      ensures States(tail)[k] == w[k]
    {
      if k < h {
        assert tail[k] == files[k];
      } else {
        assert tail[k] == files[k + 1];
      }
    }
  }

  /** Putting the head's state back at its position gives the states of the whole list. */
  lemma StatesReinsert(files: seq<ProjectFile>, h: nat)
    requires h < |files|
    ensures States(files) == Reinsert(States(files[..h] + files[h + 1..]), h, files[h].State())
  {
    var tail := files[..h] + files[h + 1..];
    var back := Reinsert(States(tail), h, files[h].State());
    forall k | 0 <= k < |files|
      ensures States(files)[k] == back[k]
    {
      if k < h {
        assert tail[k] == files[k];
      } else if k > h {
        assert tail[k - 1] == files[k];
      }
    }
  }

  /** The list without its head holds distinct objects, none of them the head. */
  lemma DistinctWithout(files: seq<ProjectFile>, h: nat)
    requires Distinct(files) && h < |files|
    ensures Distinct(files[..h] + files[h + 1..]) && files[h] !in files[..h] + files[h + 1..]
  {
    var tail := files[..h] + files[h + 1..];
    forall i, j | 0 <= i < j < |tail|
      ensures tail[i] != tail[j]
    {
      var i' := if i < h then i else i + 1;
      var j' := if j < h then j else j + 1;
      assert tail[i] == files[i'] && tail[j] == files[j'];
    }
  }

  /** When every dependant before position `i` resolves and the one at `i` fails, the `forEach` fails with its error. */
  lemma {:induction false} ResolveTailFirstError(tail: seq<FileState>, head: FileState, i: nat)
    requires Named(head.packageName) && i < |tail|
    requires forall k :: 0 <= k < i ==> ResolveFile(tail[k], head).Ok?
    requires ResolveFile(tail[i], head).Err?
    ensures ResolveTail(tail, head) == Err(ResolveFile(tail[i], head).error)
    decreases |tail|
  {
    var pre := tail[..|tail| - 1];
    if i < |tail| - 1 {
      ResolveTailFirstError(pre, head, i);
    } else {
      assert forall k :: 0 <= k < |pre| ==> ResolveFile(pre[k], head).Ok?;
    }
  }

  /** `files.filter(x => !x.dependencies.length)[0]`: the position of the first file without dependencies. */
  method FindHead(files: seq<ProjectFile>) returns (h: Option<nat>)
    ensures h == FirstLeaf(States(files))
  {
    var i := 0;
    while i < |files|
      invariant 0 <= i <= |files|
      invariant forall k :: 0 <= k < i ==> files[k].dependencies != []
    {
      if files[i].dependencies == [] {
        return Some(i);
      }
      i := i + 1;
    }
    return None;
  }

  /**
   * `tail.forEach(...)` for a named head: every dependant in list order runs its
   * loop against the head; the first failure ends the run.
   */
  method ResolveAll(tail: seq<ProjectFile>, head: ProjectFile) returns (r: Outcome)
    requires Distinct(tail) && head !in tail && Named(head.packageName)
    modifies tail
    ensures ResolveTail(old(States(tail)), head.State()).Ok? ==>
      r == Pass && States(tail) == ResolveTail(old(States(tail)), head.State()).value
    ensures ResolveTail(old(States(tail)), head.State()).Err? ==>
      r == Fail(ResolveTail(old(States(tail)), head.State()).error)
  {
    ghost var tail0 := States(tail);
    ghost var target := head.State();
    var i := 0;
    while i < |tail|
      invariant 0 <= i <= |tail|
      invariant head.State() == target
      invariant forall k :: 0 <= k < i ==>
        ResolveFile(tail0[k], target).Ok? && tail[k].State() == ResolveFile(tail0[k], target).value
      invariant forall k :: i <= k < |tail| ==> tail[k].State() == tail0[k]
    {
      r := tail[i].ResolveDependencies(head.path, head.packageName.value);
      if r.Fail? {
        ResolveTailFirstError(tail0, target, i);
        return;
      }
      i := i + 1;
    }
    assert States(tail) == ResolveTail(tail0, target).value;
    r := Pass;
  }

  /**
   * The head's turn in `processFiles`: when it has a package name every other file
   * is resolved against it, otherwise (a test project) nothing changes.
   */
  method StepHead(files: seq<ProjectFile>, h: nat) returns (r: Outcome)
    requires Distinct(files) && h < |files|
    modifies files
    ensures files[h].State() == old(files[h].State())
    ensures Step(old(States(files)), h).Ok? ==>
      r == Pass && States(files[..h] + files[h + 1..]) == Step(old(States(files)), h).value
    ensures Step(old(States(files)), h).Err? ==> r == Fail(Step(old(States(files)), h).error)
  {
    var head := files[h];
    var tail := files[..h] + files[h + 1..];
    StatesWithout(files, h);
    DistinctWithout(files, h);
    if Named(head.packageName) {
      r := ResolveAll(tail, head);
    } else {
      r := Pass;
    }
  }

  /**
   * `processFiles`: takes the first file without dependencies as the head, deals
   * with it, then recurses on the others.  The final states are those `Peel`
   * computes, and a failure is the one it reports.
   */
  method ProcessFiles(files: seq<ProjectFile>) returns (r: Outcome)
    requires Distinct(files)
    modifies files
    ensures Peel(old(States(files))).Ok? ==> r == Pass && States(files) == Peel(old(States(files))).value
    ensures Peel(old(States(files))).Err? ==> r == Fail(Peel(old(States(files))).error)
    decreases |files|, 1
  {
    if |files| == 0 {
      return Pass;
    }
    var found := FindHead(files);
    if found.None? {
      return Fail(NotInTree);
    }
    r := ProcessFrom(files, found.value);
  }

  /** `processFiles` once its head has been found at position `h`. */
  method ProcessFrom(files: seq<ProjectFile>, h: nat) returns (r: Outcome)
    requires Distinct(files) && h < |files| && FirstLeaf(States(files)) == Some(h)
    modifies files
    ensures Peel(old(States(files))).Ok? ==> r == Pass && States(files) == Peel(old(States(files))).value
    ensures Peel(old(States(files))).Err? ==> r == Fail(Peel(old(States(files))).error)
    decreases |files|, 0
  {
    ghost var before := States(files);
    PeelAt(before, h);
    r := StepHead(files, h);
    if r.Fail? {
      return;
    }
    var tail := files[..h] + files[h + 1..];
    DistinctWithout(files, h);
    r := ProcessFiles(tail);
    StatesReinsert(files, h);
  }

  /** `e` is the error of the first path, in list order, that is not absolute. */
  ghost predicate FirstNotAbsolute(paths: seq<string>, e: Error) {
    exists k :: (0 <= k < |paths| && e == NotAbsolute(paths[k])
                 && !MatchesAbsolute(paths[k]) && forall j :: 0 <= j < k ==> MatchesAbsolute(paths[j]))
  }

  /** `.map(ensureAbsolute)`: every path must be absolute; the first one that is not ends the run. */
  method CheckPaths(paths: seq<string>) returns (r: Outcome)
    ensures r == Pass <==> forall k :: 0 <= k < |paths| ==> MatchesAbsolute(paths[k])
    ensures r.Fail? ==> FirstNotAbsolute(paths, r.error)
  {
    var i := 0;
    while i < |paths|
      invariant 0 <= i <= |paths|
      invariant forall k :: 0 <= k < i ==> MatchesAbsolute(paths[k])
    {
      var checked := EnsureAbsolute(paths[i]);
      if checked.Err? {
        return Fail(checked.error);
      }
      i := i + 1;
    }
    r := Pass;
  }

  /** Reads every file and makes one object per path, with no package name and no dependencies yet. */
  method OpenFiles(paths: seq<string>, read: string -> Project) returns (files: seq<ProjectFile>)
    ensures |files| == |paths| && Distinct(files)
    ensures forall k :: 0 <= k < |files| ==> fresh(files[k])
    ensures forall k :: 0 <= k < |files| ==> files[k].State() == FileState(paths[k], read(paths[k]), None, [])
  {
    files := [];
    var i := 0;
    while i < |paths|
      invariant 0 <= i <= |paths| && |files| == i && Distinct(files)
      invariant forall k :: 0 <= k < i ==> fresh(files[k])
      invariant forall k :: 0 <= k < i ==> files[k].State() == FileState(paths[k], read(paths[k]), None, [])
    {
      var f := new ProjectFile(paths[i], read(paths[i]));
      files := files + [f];
      i := i + 1;
    }
  }

  /** `.map(x => makeProjectReferencesAbsolute(x, packageVersion))` over all files, in order. */
  method ExtractAll(files: seq<ProjectFile>, packageVersion: string, resolve: (string, string) -> string) returns (r: Outcome)
    requires Distinct(files)
    modifies files
    ensures forall k :: 0 <= k < |files| ==>
      files[k].doc == old(files[k].doc) && files[k].packageName == old(files[k].packageName)
    ensures r == Pass ==> forall k :: 0 <= k < |files| ==>
      Edges(files[k].path, files[k].doc, packageVersion, resolve) == Ok(files[k].dependencies)
    ensures r.Fail? ==> exists k ::
      && 0 <= k < |files|
      && Edges(files[k].path, files[k].doc, packageVersion, resolve) == Err(r.error)
      && (forall j :: 0 <= j < k ==> Edges(files[j].path, files[j].doc, packageVersion, resolve).Ok?)
  {
    var i := 0;
    while i < |files|
      invariant 0 <= i <= |files|
      invariant forall k :: 0 <= k < |files| ==>
        files[k].doc == old(files[k].doc) && files[k].packageName == old(files[k].packageName)
      invariant forall k :: 0 <= k < i ==>
        Edges(files[k].path, files[k].doc, packageVersion, resolve) == Ok(files[k].dependencies)
    {
      r := files[i].MakeProjectReferencesAbsolute(packageVersion, resolve);
      if r.Fail? {
        return;
      }
      i := i + 1;
    }
    r := Pass;
  }

  /** `.map(addPackageName)` over all files, in order. */
  method NameAll(files: seq<ProjectFile>) returns (r: Outcome)
    requires Distinct(files)
    modifies files
    ensures forall k :: 0 <= k < |files| ==>
      files[k].doc == old(files[k].doc) && files[k].dependencies == old(files[k].dependencies)
    ensures r == Pass <==> forall k :: 0 <= k < |files| ==> files[k].doc.propertyGroups != []
    ensures r == Pass ==> forall k :: 0 <= k < |files| ==>
      files[k].packageName == FirstPackageId(files[k].doc.propertyGroups[0])
    ensures r.Fail? ==> r.error == NoPropertyGroup
  {
    var i := 0;
    while i < |files|
      invariant 0 <= i <= |files|
      invariant forall k :: 0 <= k < |files| ==>
        files[k].doc == old(files[k].doc) && files[k].dependencies == old(files[k].dependencies)
      invariant forall k :: 0 <= k < i ==>
        files[k].doc.propertyGroups != [] && files[k].packageName == FirstPackageId(files[k].doc.propertyGroups[0])
    {
      r := files[i].AddPackageName();
      if r.Fail? {
        return;
      }
      i := i + 1;
    }
    r := Pass;
  }

  /** `.map(x => addVersion(x, packageVersion))` over all files. */
  method StampAll(files: seq<ProjectFile>, packageVersion: string)
    requires Distinct(files)
    modifies files
    ensures forall k :: 0 <= k < |files| ==>
      files[k].packageName == old(files[k].packageName) && files[k].dependencies == old(files[k].dependencies)
    ensures forall k :: 0 <= k < |files| ==>
      files[k].doc.itemGroups == old(files[k].doc.itemGroups) && files[k].doc.nextId == old(files[k].doc.nextId)
    ensures forall k :: 0 <= k < |files| ==>
      (files[k].doc.propertyGroups == []) == (old(files[k].doc.propertyGroups) == [])
    ensures forall k :: 0 <= k < |files| && files[k].doc.propertyGroups != [] ==>
      files[k].doc.propertyGroups[0].version == Some(packageVersion)
    ensures forall k :: 0 <= k < |files| ==> |files[k].doc.propertyGroups| == |old(files[k].doc.propertyGroups)|
    ensures forall k :: 0 <= k < |files| && files[k].doc.propertyGroups != [] ==>
      && files[k].doc.propertyGroups[0] == old(files[k].doc.propertyGroups[0]).(version := Some(packageVersion))
      && files[k].doc.propertyGroups[1..] == old(files[k].doc.propertyGroups[1..])
    ensures forall k :: 0 <= k < |files| ==> files[k].doc == Stamp(old(files[k].doc), packageVersion)
  {
    var i := 0;
    while i < |files|
      invariant 0 <= i <= |files|
      invariant forall k :: 0 <= k < |files| ==>
        files[k].packageName == old(files[k].packageName) && files[k].dependencies == old(files[k].dependencies)
      invariant forall k :: 0 <= k < i ==> files[k].doc == Stamp(old(files[k].doc), packageVersion)
      invariant forall k :: i <= k < |files| ==> files[k].doc == old(files[k].doc)
    {
      files[i].AddVersion(packageVersion);
      i := i + 1;
    }
  }

  /** A document the setters can work on: item group ids are unique, and the marker group, if any, has a list. */
  ghost predicate Ready(doc: Project) {
    WellFormed(doc) && MarkerReady(doc)
  }

  /** Consistency depends on the item groups only: stamping the Version keeps it. */
  lemma ConsistentAfterStamp(f: FileState, doc: Project)
    requires Consistent(f)
    requires doc.itemGroups == f.doc.itemGroups && doc.nextId == f.doc.nextId
    ensures Consistent(f.(doc := doc))
  {
    assert ProjectRefsOf(doc) == ProjectRefsOf(f.doc);
    assert MarkersOf(doc) == MarkersOf(f.doc);
  }

  /** What the preparation stages demand of every file: its references extract and it has a property group. */
  predicate Preparable(paths: seq<string>, packageVersion: string, read: string -> Project,
                       resolve: (string, string) -> string) {
    forall k :: 0 <= k < |paths| ==>
      Edges(paths[k], read(paths[k]), packageVersion, resolve).Ok? && read(paths[k]).propertyGroups != []
  }

  /** The file at `path` once read, extracted, named and stamped. */
  function PreparedFile(path: string, packageVersion: string, read: string -> Project,
                        resolve: (string, string) -> string): FileState
    requires Edges(path, read(path), packageVersion, resolve).Ok? && read(path).propertyGroups != []
  {
    FileState(path, Stamp(read(path), packageVersion), FirstPackageId(read(path).propertyGroups[0]),
              Edges(path, read(path), packageVersion, resolve).value)
  }

  /** The working set handed to `processFiles`, in the order of the paths. */
  function Prepared(paths: seq<string>, packageVersion: string, read: string -> Project,
                    resolve: (string, string) -> string): seq<FileState>
    requires Preparable(paths, packageVersion, read, resolve)
  {
    seq(|paths|, k requires 0 <= k < |paths| => PreparedFile(paths[k], packageVersion, read, resolve))
  }

  /**
   * `e` is the error the preparation stages stop with: the extraction error of the
   * first file, in list order, whose references do not extract or, when every
   * file's do, the missing property group.
   */
  ghost predicate PrepareFailure(paths: seq<string>, packageVersion: string, read: string -> Project,
                                 resolve: (string, string) -> string, e: Error) {
    || (exists k ::
          && 0 <= k < |paths|
          && Edges(paths[k], read(paths[k]), packageVersion, resolve) == Err(e)
          && (forall j :: 0 <= j < k ==> Edges(paths[j], read(paths[j]), packageVersion, resolve).Ok?))
    || ((forall k :: 0 <= k < |paths| ==> Edges(paths[k], read(paths[k]), packageVersion, resolve).Ok?)
          && e == NoPropertyGroup)
  }

  /**
   * The part of `execute` between the path checks and `processFiles`: reads the
   * files, then extracts, names and stamps each of them, stage after stage.  It
   * succeeds exactly when every file's references extract and every file has a
   * property group; otherwise it reports the first extraction failure in list
   * order or, when every extraction succeeded, the missing property group.
   */
  method Prepare(paths: seq<string>, packageVersion: string, read: string -> Project,
                 resolve: (string, string) -> string) returns (r: Outcome, files: seq<ProjectFile>)
    ensures r == Pass <==> Preparable(paths, packageVersion, read, resolve)
    ensures r == Pass ==> |files| == |paths| && Distinct(files)
    ensures r == Pass ==> forall k :: 0 <= k < |files| ==> fresh(files[k])
    ensures r == Pass ==> forall k :: 0 <= k < |files| ==>
      files[k].State() == PreparedFile(paths[k], packageVersion, read, resolve)
    ensures r.Fail? ==> PrepareFailure(paths, packageVersion, read, resolve, r.error)
  {
    files := OpenFiles(paths, read);
    r := ExtractAll(files, packageVersion, resolve);
    if r.Fail? {
      var k :| 0 <= k < |files| && Edges(files[k].path, files[k].doc, packageVersion, resolve) == Err(r.error)
        && forall j :: 0 <= j < k ==> Edges(files[j].path, files[j].doc, packageVersion, resolve).Ok?;
      assert !Edges(paths[k], read(paths[k]), packageVersion, resolve).Ok?;
      return;
    }
    r := NameAll(files);
    if r.Fail? {
      var k :| 0 <= k < |files| && files[k].doc.propertyGroups == [];
      assert read(paths[k]).propertyGroups == [];
      return;
    }
    StampAll(files, packageVersion);
  }

  /**
   * The last part of `execute`: `processFiles` over the prepared files.  It
   * succeeds exactly when the peeling of the prepared working set does, and then
   * leaves every file in its peeled state: no dependency left, its Version kept,
   * and, when the documents read were well formed, every ProjectReference
   * converted into a PackageReference to the target's package.  When every
   * document read was ready, no setter can fail.
   */
  method Run(files: seq<ProjectFile>, packageVersion: string, read: string -> Project,
             resolve: (string, string) -> string) returns (r: Outcome)
    requires Distinct(files) && DistinctPaths(States(files))
    requires forall k :: 0 <= k < |files| ==>
      Edges(files[k].path, read(files[k].path), packageVersion, resolve).Ok? && read(files[k].path).propertyGroups != []
    requires forall k :: 0 <= k < |files| ==>
      files[k].State() == PreparedFile(files[k].path, packageVersion, read, resolve)
    modifies files
    ensures Peel(old(States(files))).Ok? ==> r == Pass && States(files) == Peel(old(States(files))).value
    ensures Peel(old(States(files))).Err? ==> r == Fail(Peel(old(States(files))).error)
    ensures r == Pass ==> forall k :: 0 <= k < |files| ==> files[k].dependencies == []
    ensures r == Pass ==> forall k :: 0 <= k < |files| ==>
      files[k].doc.propertyGroups != [] && files[k].doc.propertyGroups[0].version == Some(packageVersion)
    ensures (forall k :: 0 <= k < |files| ==> Ready(read(files[k].path))) && r.Fail? ==>
      !r.error.CannotFindReference? && !r.error.NoPackageReferenceList?
    ensures (forall k :: 0 <= k < |files| ==> WellFormed(read(files[k].path))) && r == Pass ==>
      forall k :: 0 <= k < |files| ==>
        ConvertedFile(files[k].doc, files[k].path, packageVersion, read, resolve, States(files))
  {
    ghost var ready := States(files);
    PreparedPeel(ready, packageVersion, read, resolve);
    r := ProcessFiles(files);
  }

  /**
   * The file at `path`, whose document is now `fin`, had its references extracted
   * and has every one of them converted, the targets named as in `files`.
   */
  ghost predicate ConvertedFile(fin: Project, path: string, packageVersion: string, read: string -> Project,
                                resolve: (string, string) -> string, files: seq<FileState>) {
    && Edges(path, read(path), packageVersion, resolve).Ok?
    && Converted(fin, read(path), Edges(path, read(path), packageVersion, resolve).value, files)
  }

  /**
   * The peeling of a prepared working set: when every document read was ready no
   * setter fails; when it succeeds no file has a dependency left, every file keeps
   * its Version and, for well-formed documents, each file has lost all its
   * ProjectReferences and gained one PackageReference per reference it had,
   * naming the target's package with the version of the run.
   */
  lemma PreparedPeel(init: seq<FileState>, packageVersion: string, read: string -> Project,
                     resolve: (string, string) -> string)
    requires DistinctPaths(init)
    requires forall k :: 0 <= k < |init| ==>
      Edges(init[k].path, read(init[k].path), packageVersion, resolve).Ok? && read(init[k].path).propertyGroups != []
    requires forall k :: 0 <= k < |init| ==> init[k] == PreparedFile(init[k].path, packageVersion, read, resolve)
    ensures (forall k :: 0 <= k < |init| ==> Ready(read(init[k].path))) && Peel(init).Err? ==>
      !Peel(init).error.CannotFindReference? && !Peel(init).error.NoPackageReferenceList?
    ensures Peel(init).Ok? ==> forall k :: 0 <= k < |init| ==>
      && Peel(init).value[k].deps == []
      && Peel(init).value[k].doc.propertyGroups != []
      && Peel(init).value[k].doc.propertyGroups[0].version == Some(packageVersion)
    ensures Peel(init).Ok? && (forall k :: 0 <= k < |init| ==> WellFormed(read(init[k].path))) ==>
      forall k :: 0 <= k < |init| ==>
        ConvertedFile(Peel(init).value[k].doc, init[k].path, packageVersion, read, resolve, Peel(init).value)
  {
    if forall k :: 0 <= k < |init| ==> Ready(read(init[k].path)) {
      PreparedSettersSucceed(init, packageVersion, read, resolve);
    }
    if Peel(init).Ok? {
      PreparedPeelEnds(init, packageVersion, read, resolve);
      if forall k :: 0 <= k < |init| ==> WellFormed(read(init[k].path)) {
        PeelConverts(init, packageVersion, read, resolve);
      }
    }
  }

  /** The prepared files are consistent when every document read was ready, so no setter fails. */
  lemma {:induction false} PreparedSettersSucceed(init: seq<FileState>, packageVersion: string, read: string -> Project,
                                                  resolve: (string, string) -> string)
    requires forall k :: 0 <= k < |init| ==>
      Edges(init[k].path, read(init[k].path), packageVersion, resolve).Ok? && read(init[k].path).propertyGroups != []
    requires forall k :: 0 <= k < |init| ==> init[k] == PreparedFile(init[k].path, packageVersion, read, resolve)
    requires forall k :: 0 <= k < |init| ==> Ready(read(init[k].path))
    ensures Peel(init).Err? ==> !Peel(init).error.CannotFindReference? && !Peel(init).error.NoPackageReferenceList?
  {
    forall k | 0 <= k < |init| ensures Consistent(init[k]) {
      var f := init[k];
      var doc := read(f.path);
      ExtractedConsistent(f.path, doc, packageVersion, resolve, f.packageName);
      ConsistentAfterStamp(FileState(f.path, doc, f.packageName, f.deps), f.doc);
    }
    PeelFailsOnlyOutsideTree(init);
  }

  /** A peeling of prepared files that succeeds leaves no dependency and every Version in place. */
  lemma PreparedPeelEnds(init: seq<FileState>, packageVersion: string, read: string -> Project,
                         resolve: (string, string) -> string)
    requires Peel(init).Ok?
    requires forall k :: 0 <= k < |init| ==>
      Edges(init[k].path, read(init[k].path), packageVersion, resolve).Ok? && read(init[k].path).propertyGroups != []
    requires forall k :: 0 <= k < |init| ==> init[k] == PreparedFile(init[k].path, packageVersion, read, resolve)
    ensures forall k :: 0 <= k < |init| ==>
      && Peel(init).value[k].deps == []
      && Peel(init).value[k].doc.propertyGroups != []
      && Peel(init).value[k].doc.propertyGroups[0].version == Some(packageVersion)
  {
    PeelEmptiesAll(init);
    PeelKeepsProperties(init);
  }

  /** Every ProjectReference of a prepared, well-formed file is converted by a peeling that succeeds. */
  lemma PeelConverts(init: seq<FileState>, packageVersion: string, read: string -> Project,
                     resolve: (string, string) -> string)
    requires DistinctPaths(init) && Peel(init).Ok?
    requires forall k :: 0 <= k < |init| ==>
      Edges(init[k].path, read(init[k].path), packageVersion, resolve).Ok? && read(init[k].path).propertyGroups != []
    requires forall k :: 0 <= k < |init| ==> init[k] == PreparedFile(init[k].path, packageVersion, read, resolve)
    requires forall k :: 0 <= k < |init| ==> WellFormed(read(init[k].path))
    ensures forall k :: 0 <= k < |init| ==>
      ConvertedFile(Peel(init).value[k].doc, init[k].path, packageVersion, read, resolve, Peel(init).value)
  {
    forall k | 0 <= k < |init| ensures WellFormed(init[k].doc) {
      assert init[k].doc.itemGroups == read(init[k].path).itemGroups;
    }
    PeelRewrites(init);
    forall k | 0 <= k < |init|
      ensures ConvertedFile(Peel(init).value[k].doc, init[k].path, packageVersion, read, resolve, Peel(init).value)
    {
      var doc := read(init[k].path);
      var deps := Edges(init[k].path, doc, packageVersion, resolve).value;
      var fin := Peel(init).value[k].doc;
      assert init[k].doc.itemGroups == doc.itemGroups && init[k].deps == deps;
      EdgesMatchReferences(init[k].path, doc, packageVersion, resolve);
      PeelKeepsTargets(init, deps);
      assert multiset(ProjectRefsOf(fin)) == multiset{};
    }
  }

  /** The trimmed, de-duplicated paths of the command line. */
  function ArgPaths(invocation: Invocation): seq<string> {
    Dedup(TrimAll(invocation.paths))
  }

  /** Everything `execute` checks of the paths before `processFiles`: each is absolute and each file prepares. */
  ghost predicate Admitted(paths: seq<string>, packageVersion: string, read: string -> Project,
                           resolve: (string, string) -> string) {
    && (forall k :: 0 <= k < |paths| ==> MatchesAbsolute(paths[k]))
    && Preparable(paths, packageVersion, read, resolve)
  }

  /** Everything `execute` checks before `processFiles`: the command line, the paths and the preparation stages. */
  ghost predicate Launchable(args: seq<string>, read: string -> Project, resolve: (string, string) -> string) {
    && ParseArgs(args).Ok?
    && Admitted(ArgPaths(ParseArgs(args).value), ParseArgs(args).value.packageVersion, read, resolve)
  }

  /** The working set `execute` hands to `processFiles`. */
  ghost function Launched(args: seq<string>, read: string -> Project, resolve: (string, string) -> string): seq<FileState>
    requires Launchable(args, read, resolve)
  {
    Prepared(ArgPaths(ParseArgs(args).value), ParseArgs(args).value.packageVersion, read, resolve)
  }

  /** The prepared objects hold the prepared working set, with distinct paths when the paths were distinct. */
  lemma {:induction false} PreparedStates(files: seq<ProjectFile>, paths: seq<string>, packageVersion: string, read: string -> Project,
                                          resolve: (string, string) -> string)
    requires Preparable(paths, packageVersion, read, resolve) && NoDuplicates(paths) && |files| == |paths|
    requires forall k :: 0 <= k < |files| ==> files[k].State() == PreparedFile(paths[k], packageVersion, read, resolve)
    ensures States(files) == Prepared(paths, packageVersion, read, resolve)
    ensures DistinctPaths(States(files))
  {
  }

  /** `e` is the error `execute` stops with once the paths are checked: a preparation stage's, or that of `processFiles`. */
  ghost predicate PrepareAndRunFailure(paths: seq<string>, packageVersion: string, read: string -> Project,
                                       resolve: (string, string) -> string, e: Error) {
    if !Preparable(paths, packageVersion, read, resolve) then PrepareFailure(paths, packageVersion, read, resolve, e)
    else Peel(Prepared(paths, packageVersion, read, resolve)) == Err(e)
  }

  /** `e` is the error `execute` stops with once the command line is parsed: the path check's, or a later one. */
  ghost predicate LaunchFailure(paths: seq<string>, packageVersion: string, read: string -> Project,
                                resolve: (string, string) -> string, e: Error) {
    if !(forall k :: 0 <= k < |paths| ==> MatchesAbsolute(paths[k])) then FirstNotAbsolute(paths, e)
    else PrepareAndRunFailure(paths, packageVersion, read, resolve, e)
  }

  /**
   * `execute` once the command line is parsed: checks the paths, prepares the
   * files and runs `processFiles`.
   */
  method Launch(paths: seq<string>, packageVersion: string, read: string -> Project,
                resolve: (string, string) -> string) returns (r: Outcome, files: seq<ProjectFile>)
    requires NoDuplicates(paths)
    ensures r == Pass <==>
      Admitted(paths, packageVersion, read, resolve) && Peel(Prepared(paths, packageVersion, read, resolve)).Ok?
    ensures r == Pass ==>
      Admitted(paths, packageVersion, read, resolve)
      && States(files) == Peel(Prepared(paths, packageVersion, read, resolve)).value
    ensures r.Fail? ==> LaunchFailure(paths, packageVersion, read, resolve, r.error)
    ensures r == Pass ==> |files| == |paths| && forall k :: 0 <= k < |files| ==> files[k].path == paths[k]
    ensures r == Pass ==> forall k :: 0 <= k < |files| ==>
      && files[k].dependencies == []
      && files[k].doc.propertyGroups != []
      && files[k].doc.propertyGroups[0].version == Some(packageVersion)
    ensures (forall p :: p in paths ==> Ready(read(p))) && r.Fail? ==>
      !r.error.CannotFindReference? && !r.error.NoPackageReferenceList?
    ensures (forall k :: 0 <= k < |files| ==> WellFormed(read(files[k].path))) && r == Pass ==>
      forall k :: 0 <= k < |files| ==>
        ConvertedFile(files[k].doc, files[k].path, packageVersion, read, resolve, States(files))
  {
    files := [];
    r := CheckPaths(paths);
    if r.Fail? {
      return;
    }
    r, files := PrepareAndRun(paths, packageVersion, read, resolve);
  }

  /** `execute` once the paths are checked: prepares the files and runs `processFiles`. */
  method PrepareAndRun(paths: seq<string>, packageVersion: string, read: string -> Project,
                       resolve: (string, string) -> string) returns (r: Outcome, files: seq<ProjectFile>)
    requires NoDuplicates(paths)
    ensures r == Pass <==>
      Preparable(paths, packageVersion, read, resolve) && Peel(Prepared(paths, packageVersion, read, resolve)).Ok?
    ensures r == Pass ==>
      Preparable(paths, packageVersion, read, resolve)
      && States(files) == Peel(Prepared(paths, packageVersion, read, resolve)).value
    ensures r.Fail? ==> PrepareAndRunFailure(paths, packageVersion, read, resolve, r.error)
    ensures r == Pass ==> |files| == |paths| && forall k :: 0 <= k < |files| ==> files[k].path == paths[k]
    ensures r == Pass ==> forall k :: 0 <= k < |files| ==>
      && files[k].dependencies == []
      && files[k].doc.propertyGroups != []
      && files[k].doc.propertyGroups[0].version == Some(packageVersion)
    ensures (forall p :: p in paths ==> Ready(read(p))) && r.Fail? ==>
      !r.error.CannotFindReference? && !r.error.NoPackageReferenceList?
    ensures (forall k :: 0 <= k < |files| ==> WellFormed(read(files[k].path))) && r == Pass ==>
      forall k :: 0 <= k < |files| ==>
        ConvertedFile(files[k].doc, files[k].path, packageVersion, read, resolve, States(files))
  {
    r, files := Prepare(paths, packageVersion, read, resolve);
    if r.Fail? {
      return;
    }
    PreparedStates(files, paths, packageVersion, read, resolve);
    r := Run(files, packageVersion, read, resolve);
  }

  /**
   * `execute`: parses the command line, trims and de-duplicates the paths, checks
   * that each is absolute, reads each file (`read` stands for reading and parsing
   * it), extracts, names and stamps every file, then runs `processFiles`.  It
   * succeeds exactly when every check passes and the peeling of the prepared
   * working set succeeds; the files are then left in their peeled states, every
   * ProjectReference of a well-formed document converted into a PackageReference.
   */
  method Execute(args: seq<string>, read: string -> Project, resolve: (string, string) -> string)
    returns (r: Outcome, files: seq<ProjectFile>)
    ensures ParseArgs(args).Err? ==> r == Fail(UsageError)
    ensures ParseArgs(args).Ok? && r.Fail? ==>
      LaunchFailure(ArgPaths(ParseArgs(args).value), ParseArgs(args).value.packageVersion, read, resolve, r.error)
    ensures r == Pass <==> Launchable(args, read, resolve) && Peel(Launched(args, read, resolve)).Ok?
    ensures r == Pass ==> States(files) == Peel(Launched(args, read, resolve)).value
    ensures r == Pass ==> |files| == |ArgPaths(ParseArgs(args).value)|
    ensures r == Pass ==> forall k :: 0 <= k < |files| ==>
      files[k].path == ArgPaths(ParseArgs(args).value)[k] && MatchesAbsolute(files[k].path)
    ensures r == Pass ==> forall k :: 0 <= k < |files| ==> files[k].dependencies == []
    ensures r == Pass ==> forall k :: 0 <= k < |files| ==> files[k].doc.propertyGroups != []
    ensures r == Pass ==> forall k :: 0 <= k < |files| ==>
      files[k].doc.propertyGroups[0].version == Some(ParseArgs(args).value.packageVersion)
    ensures ParseArgs(args).Ok? && (forall p :: p in ArgPaths(ParseArgs(args).value) ==> Ready(read(p))) && r.Fail? ==>
      !r.error.CannotFindReference? && !r.error.NoPackageReferenceList?
    ensures (forall k :: 0 <= k < |files| ==> WellFormed(read(files[k].path))) && r == Pass ==>
      forall k :: 0 <= k < |files| ==>
        ConvertedFile(files[k].doc, files[k].path, ParseArgs(args).value.packageVersion, read, resolve, States(files))
  {
    files := [];
    var invocation := ParseArgs(args);
    if invocation.Err? {
      return Fail(UsageError), files;
    }
    var paths := ArgPaths(invocation.value);
    assert Launchable(args, read, resolve) <==> Admitted(paths, invocation.value.packageVersion, read, resolve);
    r, files := Launch(paths, invocation.value.packageVersion, read, resolve);
  }
}
