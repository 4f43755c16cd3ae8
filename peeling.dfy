/**
 * The topological peeling of `processFiles`, stated on values: the file list is a
 * sequence of `FileState`s and a run either fails or yields every file's final state.
 */
module Peeling {
  import opened Common
  import opened Document
  import opened DocumentFacts
  import opened Extraction

  /** One file of the working set: its path, document, package name and remaining dependencies. */
  datatype FileState = FileState(path: string, doc: Project, packageName: Option<string>, deps: seq<Dependency>)

  /** The JavaScript truthiness of `head.packageName`: present and not empty. */
  predicate Named(packageName: Option<string>) {
    packageName.Some? && packageName.value != ""
  }

  /** The dependencies that do not point at `target`, in their original order. */
  function Keep(deps: seq<Dependency>, target: string): (r: seq<Dependency>)
    ensures forall k :: 0 <= k < |r| ==> r[k].name != target
    ensures forall k :: 0 <= k < |deps| && deps[k].name != target ==> deps[k] in r
    ensures multiset(r) <= multiset(deps)
    decreases |deps|
  {
    if deps == [] then []
    else
      var last, pre := deps[|deps| - 1], deps[..|deps| - 1];
      assert deps == pre + [last];
      Keep(pre, target) + (if last.name != target then [last] else [])
  }

  /** The dependencies that point at `target`, in their original order. */
  function Matching(deps: seq<Dependency>, target: string): (r: seq<Dependency>)
    ensures forall k :: 0 <= k < |r| ==> r[k].name == target
    ensures multiset(r) + multiset(Keep(deps, target)) == multiset(deps)
    decreases |deps|
  {
    if deps == [] then []
    else
      var last, pre := deps[|deps| - 1], deps[..|deps| - 1];
      assert deps == pre + [last];
      Matching(pre, target) + (if last.name == target then [last] else [])
  }

  function Reversed<T>(s: seq<T>): (r: seq<T>)
    ensures |r| == |s|
    ensures forall k :: 0 <= k < |s| ==> r[k] == s[|s| - 1 - k]
  {
    if s == [] then [] else [s[|s| - 1]] + Reversed(s[..|s| - 1])
  }

  /** Fires the setters of `deps` one after the other with `packageName`; the first failure stops the run. */
  function ApplySetters(doc: Project, deps: seq<Dependency>, packageName: string): Result<Project>
    decreases |deps|
  {
    if deps == [] then Ok(doc)
    else match Replace(doc, deps[0].setter, packageName)
      case Err(e) => Err(e)
      case Ok(d) => ApplySetters(d, deps[1..], packageName)
  }

  /**
   * The loop `for (i = deps.length - 1; i >= 0; i--)` of `processFiles` over one
   * dependant: each edge naming `target` has its setter fired and is spliced out.
   */
  function ResolveDeps(doc: Project, deps: seq<Dependency>, target: string, packageName: string)
    : Result<(Project, seq<Dependency>)>
    decreases |deps|
  {
    if deps == [] then Ok((doc, []))
    else
      var last := deps[|deps| - 1];
      if last.name == target then
        match Replace(doc, last.setter, packageName)
        case Err(e) => Err(e)
        case Ok(d) => ResolveDeps(d, deps[..|deps| - 1], target, packageName)
      else
        match ResolveDeps(doc, deps[..|deps| - 1], target, packageName)
        case Err(e) => Err(e)
        case Ok(p) => Ok((p.0, p.1 + [last]))
  }

  /** The loop's outcome as a function of the edges it fires and the edges it keeps. */
  predicate ResolvesAs(doc: Project, deps: seq<Dependency>, target: string, packageName: string) {
    && (ResolveDeps(doc, deps, target, packageName).Ok?
        <==> ApplySetters(doc, Reversed(Matching(deps, target)), packageName).Ok?)
    && (ResolveDeps(doc, deps, target, packageName).Ok? ==>
        ResolveDeps(doc, deps, target, packageName).value
          == (ApplySetters(doc, Reversed(Matching(deps, target)), packageName).value, Keep(deps, target)))
  }

  lemma ReversedSnoc<T>(m: seq<T>, x: T)
    ensures Reversed(m + [x]) == [x] + Reversed(m)
  {
    assert (m + [x])[..|m|] == m;
  }

  /** The last edge names the target: its setter fires first. */
  lemma ResolveMatchingLast(doc: Project, deps: seq<Dependency>, target: string, packageName: string)
    requires deps != [] && deps[|deps| - 1].name == target
    requires forall d :: Replace(doc, deps[|deps| - 1].setter, packageName) == Ok(d) ==>
      ResolvesAs(d, deps[..|deps| - 1], target, packageName)
    ensures ResolvesAs(doc, deps, target, packageName)
  {
    var last, pre := deps[|deps| - 1], deps[..|deps| - 1];
    var m := Matching(pre, target);
    assert Matching(deps, target) == m + [last];
    assert Keep(deps, target) == Keep(pre, target);
    ReversedSnoc(m, last);
    assert ([last] + Reversed(m))[1..] == Reversed(m);
  }

  /** The last edge names another file: it is kept, after the others. */
  lemma ResolveOtherLast(doc: Project, deps: seq<Dependency>, target: string, packageName: string)
    requires deps != [] && deps[|deps| - 1].name != target
    requires ResolvesAs(doc, deps[..|deps| - 1], target, packageName)
    ensures ResolvesAs(doc, deps, target, packageName)
  {
    var last, pre := deps[|deps| - 1], deps[..|deps| - 1];
    assert Matching(deps, target) == Matching(pre, target);
    assert Keep(deps, target) == Keep(pre, target) + [last];
  }

  /**
   * The reverse-order loop fires the setter of every edge naming `target` exactly
   * once, with `packageName`, last edge first, and keeps every other edge in its
   * original relative order.
   */
  lemma {:induction false} ResolveDepsSpec(doc: Project, deps: seq<Dependency>, target: string, packageName: string)
    ensures ResolveDeps(doc, deps, target, packageName).Ok?
      <==> ApplySetters(doc, Reversed(Matching(deps, target)), packageName).Ok?
    ensures ResolveDeps(doc, deps, target, packageName).Ok? ==>
      ResolveDeps(doc, deps, target, packageName).value
        == (ApplySetters(doc, Reversed(Matching(deps, target)), packageName).value, Keep(deps, target))
    decreases |deps|
  {
    if deps != [] {
      var pre := deps[..|deps| - 1];
      if deps[|deps| - 1].name == target {
        forall d | Replace(doc, deps[|deps| - 1].setter, packageName) == Ok(d)
          ensures ResolvesAs(d, pre, target, packageName)
        {
          ResolveDepsSpec(d, pre, target, packageName);
        }
        ResolveMatchingLast(doc, deps, target, packageName);
      } else {
        ResolveDepsSpec(doc, pre, target, packageName);
        ResolveOtherLast(doc, deps, target, packageName);
      }
    }
  }

  /** The first file in list order without remaining dependencies: `files.filter(x => !x.dependencies.length)[0]`. */
  function FirstLeaf(files: seq<FileState>): (r: Option<nat>)
    ensures r.Some? ==> r.value < |files| && files[r.value].deps == []
    ensures r.Some? ==> forall k :: 0 <= k < r.value ==> files[k].deps != []
    ensures r.None? ==> forall k :: 0 <= k < |files| ==> files[k].deps != []
  {
    if files == [] then None
    else if files[0].deps == [] then Some(0)
    else match FirstLeaf(files[1..])
      case None => None
      case Some(k) => Some(k + 1)
  }

  /** The body of `tail.forEach(...)` for one dependant of the named head. */
  function ResolveFile(f: FileState, head: FileState): Result<FileState>
    requires Named(head.packageName)
  {
    match ResolveDeps(f.doc, f.deps, head.path, head.packageName.value)
    case Err(e) => Err(e)
    case Ok(p) => Ok(f.(doc := p.0, deps := p.1))
  }

  /** `tail.forEach(...)`: every dependant in order; the first failure stops the run. */
  function ResolveTail(tail: seq<FileState>, head: FileState): (r: Result<seq<FileState>>)
    requires Named(head.packageName)
    ensures r.Ok? <==> forall k :: 0 <= k < |tail| ==> ResolveFile(tail[k], head).Ok?
    ensures r.Ok? ==> |r.value| == |tail|
    ensures r.Ok? ==> forall k :: 0 <= k < |tail| ==> r.value[k] == ResolveFile(tail[k], head).value
    decreases |tail|
  {
    if tail == [] then Ok([])
    else match ResolveTail(tail[..|tail| - 1], head)
      case Err(e) => Err(e)
      case Ok(done) =>
        match ResolveFile(tail[|tail| - 1], head)
        case Err(e) => Err(e)
        case Ok(f) => Ok(done + [f])
  }

  /** The list without position `h`: `files.filter(x => x !== head)` for distinct files. */
  function Without<T>(s: seq<T>, h: nat): (r: seq<T>)
    requires h < |s|
    ensures |r| == |s| - 1
    ensures forall k :: 0 <= k < h ==> r[k] == s[k]
    ensures forall k :: h <= k < |r| ==> r[k] == s[k + 1]
  {
    s[..h] + s[h + 1..]
  }

  /** `tail` after the head has been dealt with: resolved when the head is named, untouched otherwise. */
  function Step(files: seq<FileState>, h: nat): (r: Result<seq<FileState>>)
    requires h < |files|
    ensures r.Ok? ==> |r.value| == |files| - 1
    ensures r.Ok? ==> forall k :: 0 <= k < |r.value| ==>
      r.value[k].path == Without(files, h)[k].path && r.value[k].packageName == Without(files, h)[k].packageName
  {
    if Named(files[h].packageName) then ResolveTail(Without(files, h), files[h]) else Ok(Without(files, h))
  }

  /**
   * `processFiles`: the final state of every file, in list order, or the error
   * that stopped the run.  The head is put back at its position in the result.
   */
  function Peel(files: seq<FileState>): (r: Result<seq<FileState>>)
    ensures |files| > 0 && FirstLeaf(files).None? ==> r == Err(NotInTree)
    ensures r.Ok? ==> |r.value| == |files|
    decreases |files|
  {
    if files == [] then Ok([])
    else match FirstLeaf(files)
      case None => Err(NotInTree)
      case Some(h) =>
        match Step(files, h)
        case Err(e) => Err(e)
        case Ok(tail) =>
          match Peel(tail)
          case Err(e) => Err(e)
          case Ok(rest) => Ok(Reinsert(rest, h, files[h]))
  }

  /** `rest` with `x` put back at position `h`. */
  function Reinsert<T>(rest: seq<T>, h: nat, x: T): (r: seq<T>)
    requires h <= |rest|
    ensures |r| == |rest| + 1
    ensures forall k :: 0 <= k < h ==> r[k] == rest[k]
    ensures r[h] == x
    ensures forall k :: h < k < |r| ==> r[k] == rest[k - 1]
  {
    rest[..h] + [x] + rest[h..]
  }

  /** `Peel` unfolded once at its leaf `h`. */
  lemma PeelAt(files: seq<FileState>, h: nat)
    requires files != [] && FirstLeaf(files) == Some(h)
    ensures Step(files, h).Err? ==> Peel(files) == Err(Step(files, h).error)
    ensures Step(files, h).Ok? && Peel(Step(files, h).value).Err? ==>
      Peel(files) == Err(Peel(Step(files, h).value).error)
    ensures Step(files, h).Ok? && Peel(Step(files, h).value).Ok? ==>
      Peel(files) == Ok(Reinsert(Peel(Step(files, h).value).value, h, files[h]))
  {
  }

  /** Peeling keeps every file's path and package name at its position. */
  lemma {:induction false} PeelKeepsIdentity(files: seq<FileState>)
    requires Peel(files).Ok?
    ensures forall k :: 0 <= k < |files| ==>
      Peel(files).value[k].path == files[k].path && Peel(files).value[k].packageName == files[k].packageName
    decreases |files|
  {
    if files != [] {
      var h := FirstLeaf(files).value;
      PeelAt(files, h);
      var tail := Step(files, h).value;
      PeelKeepsIdentity(tail);
      var rest := Peel(tail).value;
      forall k | 0 <= k < |files|
        ensures Peel(files).value[k].path == files[k].path && Peel(files).value[k].packageName == files[k].packageName
      {
        if k < h {
          assert Peel(files).value[k] == rest[k];
        } else if k > h {
          assert Peel(files).value[k] == rest[k - 1];
        }
      }
    }
  }

  /** A run that returns normally leaves no file with a remaining dependency: every edge was fired and removed. */
  lemma {:induction false} PeelEmptiesAll(files: seq<FileState>)
    requires Peel(files).Ok?
    ensures forall k :: 0 <= k < |files| ==> Peel(files).value[k].deps == []
    decreases |files|
  {
    if files != [] {
      var h := FirstLeaf(files).value;
      PeelAt(files, h);
      var tail := Step(files, h).value;
      PeelEmptiesAll(tail);
    }
  }
}
