/**
 * What a run that returns normally does to the documents: every ProjectReference
 * whose edge is resolved leaves its file, and in its place the file gains one
 * PackageReference naming the target's package id with the version of the run.
 */
module Rewriting {
  import opened Common
  import opened Document
  import opened DocumentFacts
  import opened Extraction
  import opened Peeling
  import opened PeelingFacts

  /** No two files of the working set share a path (the command line is de-duplicated). */
  predicate DistinctPaths(files: seq<FileState>) {
    forall i, j :: 0 <= i < j < |files| ==> files[i].path != files[j].path
  }

  /** The package name as the original writes it into an `Include`: empty when there is none. */
  function NameText(packageName: Option<string>): string {
    if packageName.Some? then packageName.value else ""
  }

  /** Position of the first file whose path is `path`. */
  function PathIndex(files: seq<FileState>, path: string): (r: Option<nat>)
    ensures r.Some? ==> r.value < |files| && files[r.value].path == path
    ensures r.Some? ==> forall j :: 0 <= j < r.value ==> files[j].path != path
    ensures r.None? ==> forall j :: 0 <= j < |files| ==> files[j].path != path
  {
    if files == [] then None
    else if files[0].path == path then Some(0)
    else match PathIndex(files[1..], path)
      case None => None
      case Some(g) => Some(g + 1)
  }

  /** The package name of the file an edge points at (empty when no file has that path). */
  function TargetName(files: seq<FileState>, path: string): string {
    match PathIndex(files, path)
    case None => ""
    case Some(g) => NameText(files[g].packageName)
  }

  /** The PackageReferences the edges `deps` become: the target's package name with the setter's version. */
  function PackagesFor(files: seq<FileState>, deps: seq<Dependency>): seq<Element> {
    seq(|deps|, k requires 0 <= k < |deps| => PackageElement(TargetName(files, deps[k].name), deps[k].setter.packageVersion))
  }

  /**
   * `fin` is `doc` with every ProjectReference gone and, in their place, one
   * PackageReference per edge of `deps`, naming the package of the edge's target in `files`.
   */
  ghost predicate Converted(fin: Project, doc: Project, deps: seq<Dependency>, files: seq<FileState>) {
    && ProjectRefsOf(fin) == []
    && multiset(PackageRefsOf(fin)) == multiset(PackageRefsOf(doc)) + multiset(PackagesFor(files, deps))
  }

  lemma TargetNameAt(files: seq<FileState>, g: nat)
    requires DistinctPaths(files) && g < |files|
    ensures TargetName(files, files[g].path) == NameText(files[g].packageName)
  {
  }

  lemma PackagesForSnoc(files: seq<FileState>, deps: seq<Dependency>, last: Dependency)
    ensures PackagesFor(files, deps + [last])
      == PackagesFor(files, deps) + [PackageElement(TargetName(files, last.name), last.setter.packageVersion)]
  {
  }

  /** Two working sets that agree on the targets of `deps` turn them into the same PackageReferences. */
  lemma PackagesForAgree(a: seq<FileState>, b: seq<FileState>, deps: seq<Dependency>)
    requires forall j :: 0 <= j < |deps| ==> TargetName(a, deps[j].name) == TargetName(b, deps[j].name)
    ensures PackagesFor(a, deps) == PackagesFor(b, deps)
  {
  }

  lemma MultisetDiffDiff<T>(a: multiset<T>, b: multiset<T>, c: multiset<T>)
    ensures a - b - c == a - (b + c)
  {
    assert forall x :: (a - b - c)[x] == (a - (b + c))[x];
  }

  lemma RemoveThenRest<T>(a: multiset<T>, ad: multiset<T>, ar: multiset<T>, sm: multiset<T>, x: T)
    requires ad == a - multiset{x} && ar == ad - sm
    ensures ar == a - (sm + multiset{x})
  {
    MultisetDiffDiff(a, multiset{x}, sm);
  }

  lemma AddThenRest<T>(p: multiset<T>, pd: multiset<T>, pr: multiset<T>, pm: multiset<T>, e: T)
    requires pd == p + multiset{e} && pr == pd + pm
    ensures pr == p + (pm + multiset{e})
  {
  }

  lemma AddOne<T>(a: multiset<T>, b: multiset<T>, c: multiset<T>, x: T)
    requires a + b == c
    ensures (a + multiset{x}) + b == c + multiset{x}
    ensures a + (b + multiset{x}) == c + multiset{x}
  {
  }

  /** Splitting the edges by target splits the references their setters look for. */
  lemma {:induction false} SetterRefsSplit(deps: seq<Dependency>, target: string)
    ensures multiset(SetterRefs(Matching(deps, target))) + multiset(SetterRefs(Keep(deps, target)))
      == multiset(SetterRefs(deps))
    decreases |deps|
  {
    if deps != [] {
      var pre, last := deps[..|deps| - 1], deps[|deps| - 1];
      assert deps == pre + [last];
      var m, k := Matching(pre, target), Keep(pre, target);
      SetterRefsSplit(pre, target);
      SetterRefsSnoc(pre, last);
      AddOne(multiset(SetterRefs(m)), multiset(SetterRefs(k)), multiset(SetterRefs(pre)), SetterRef(last));
      if last.name == target {
        assert Matching(deps, target) == m + [last] && Keep(deps, target) == k;
        SetterRefsSnoc(m, last);
      } else {
        assert Keep(deps, target) == k + [last] && Matching(deps, target) == m;
        SetterRefsSnoc(k, last);
      }
    }
  }

  /** Splitting the edges by target splits the PackageReferences they become. */
  lemma {:induction false} PackagesForSplit(files: seq<FileState>, deps: seq<Dependency>, target: string)
    ensures multiset(PackagesFor(files, Matching(deps, target))) + multiset(PackagesFor(files, Keep(deps, target)))
      == multiset(PackagesFor(files, deps))
    decreases |deps|
  {
    if deps != [] {
      var pre, last := deps[..|deps| - 1], deps[|deps| - 1];
      assert deps == pre + [last];
      var m, k := Matching(pre, target), Keep(pre, target);
      var e := PackageElement(TargetName(files, last.name), last.setter.packageVersion);
      PackagesForSplit(files, pre, target);
      PackagesForSnoc(files, pre, last);
      AddOne(multiset(PackagesFor(files, m)), multiset(PackagesFor(files, k)), multiset(PackagesFor(files, pre)), e);
      if last.name == target {
        assert Matching(deps, target) == m + [last] && Keep(deps, target) == k;
        PackagesForSnoc(files, m, last);
      } else {
        assert Keep(deps, target) == k + [last] && Matching(deps, target) == m;
        PackagesForSnoc(files, k, last);
      }
    }
  }

  /**
   * Resolving one dependant against a target named `packageName` removes the
   * references of exactly the edges naming the target and adds one
   * PackageReference per such edge.
   */
  lemma {:induction false} ResolveDepsEffect(doc: Project, deps: seq<Dependency>, target: string, packageName: string,
                                            files: seq<FileState>)
    requires WellFormed(doc) && ResolveDeps(doc, deps, target, packageName).Ok?
    requires TargetName(files, target) == packageName
    ensures WellFormed(ResolveDeps(doc, deps, target, packageName).value.0)
    ensures multiset(ProjectRefsOf(ResolveDeps(doc, deps, target, packageName).value.0))
      == multiset(ProjectRefsOf(doc)) - multiset(SetterRefs(Matching(deps, target)))
    ensures multiset(PackageRefsOf(ResolveDeps(doc, deps, target, packageName).value.0))
      == multiset(PackageRefsOf(doc)) + multiset(PackagesFor(files, Matching(deps, target)))
    decreases |deps|
  {
    if deps != [] {
      var pre, last := deps[..|deps| - 1], deps[|deps| - 1];
      if last.name == target {
        var d := Replace(doc, last.setter, packageName).value;
        var res := ResolveDeps(d, pre, target, packageName).value.0;
        assert ResolveDeps(doc, deps, target, packageName).value.0 == res;
        ReplaceSpec(doc, last.setter, packageName);
        ResolveDepsEffect(d, pre, target, packageName, files);
        var m := Matching(pre, target);
        assert Matching(deps, target) == m + [last];
        SetterRefsSnoc(m, last);
        PackagesForSnoc(files, m, last);
        RemoveThenRest(multiset(ProjectRefsOf(doc)), multiset(ProjectRefsOf(d)), multiset(ProjectRefsOf(res)),
                       multiset(SetterRefs(m)), SetterRef(last));
        AddThenRest(multiset(PackageRefsOf(doc)), multiset(PackageRefsOf(d)), multiset(PackageRefsOf(res)),
                    multiset(PackagesFor(files, m)), PackageElement(packageName, last.setter.packageVersion));
      } else {
        ResolveDepsEffect(doc, pre, target, packageName, files);
        assert Matching(deps, target) == Matching(pre, target);
      }
    }
  }

  /** Two working sets with the same paths and package names, position by position, name every path alike. */
  lemma TargetNameKept(a: seq<FileState>, b: seq<FileState>, path: string)
    requires |a| == |b|
    requires forall k :: 0 <= k < |a| ==> a[k].path == b[k].path && a[k].packageName == b[k].packageName
    ensures TargetName(a, path) == TargetName(b, path)
  {
    assert forall j :: 0 <= j < |a| ==> (a[j].path == path <==> b[j].path == path);
  }

  /** Peeling keeps paths and names, so the edges of the run name the same packages before and after it. */
  lemma PeelKeepsTargets(files: seq<FileState>, deps: seq<Dependency>)
    requires Peel(files).Ok?
    ensures PackagesFor(Peel(files).value, deps) == PackagesFor(files, deps)
  {
    PeelKeepsIdentity(files);
    forall j | 0 <= j < |deps| ensures TargetName(Peel(files).value, deps[j].name) == TargetName(files, deps[j].name) {
      TargetNameKept(Peel(files).value, files, deps[j].name);
    }
    PackagesForAgree(Peel(files).value, files, deps);
  }

  /** The tail keeps the paths of the others, so it keeps them distinct. */
  lemma StepDistinct(files: seq<FileState>, h: nat)
    requires DistinctPaths(files) && h < |files| && Step(files, h).Ok?
    ensures DistinctPaths(Step(files, h).value)
  {
    var tail := Step(files, h).value;
    forall i, j | 0 <= i < j < |tail| ensures tail[i].path != tail[j].path {
      var i', j' := if i < h then i else i + 1, if j < h then j else j + 1;
      assert tail[i].path == files[i'].path && tail[j].path == files[j'].path;
    }
  }

  /**
   * The tail names every path the way the whole set does, except the head's path
   * when the head carries a name (the head is no longer in the tail).
   */
  lemma StepTargetName(files: seq<FileState>, h: nat, path: string)
    requires DistinctPaths(files) && h < |files| && Step(files, h).Ok?
    requires path != files[h].path || !Named(files[h].packageName)
    ensures TargetName(Step(files, h).value, path) == TargetName(files, path)
  {
    var tail := Step(files, h).value;
    StepDistinct(files, h);
    match PathIndex(files, path)
    case None =>
      forall j | 0 <= j < |tail| ensures tail[j].path != path {
        assert tail[j].path == files[if j < h then j else j + 1].path;
      }
    case Some(g) =>
      if g == h {
        forall j | 0 <= j < |tail| ensures tail[j].path != path {
          assert tail[j].path == files[if j < h then j else j + 1].path;
        }
      } else {
        var g' := if g < h then g else g - 1;
        assert tail[g'].path == path && tail[g'].packageName == files[g].packageName;
        TargetNameAt(tail, g');
      }
  }

  /** The documents of the tail stay well formed. */
  lemma StepWellFormed(files: seq<FileState>, h: nat)
    requires DistinctPaths(files) && h < |files| && Step(files, h).Ok?
    requires forall k :: 0 <= k < |files| ==> WellFormed(files[k].doc)
    ensures forall i :: 0 <= i < |files| - 1 ==> WellFormed(Step(files, h).value[i].doc)
  {
    if Named(files[h].packageName) {
      var w := Without(files, h);
      TargetNameAt(files, h);
      forall i | 0 <= i < |w| ensures WellFormed(Step(files, h).value[i].doc) {
        ResolveDepsEffect(w[i].doc, w[i].deps, files[h].path, files[h].packageName.value, files);
      }
    }
  }

  /** The rewriting relation of one file carries over from the tail to the whole set. */
  lemma StepTransfer(files: seq<FileState>, h: nat, i: nat, fin: Project)
    requires DistinctPaths(files) && h < |files| && Step(files, h).Ok? && i < |files| - 1
    requires WellFormed(Without(files, h)[i].doc)
    requires multiset(ProjectRefsOf(fin))
      == multiset(ProjectRefsOf(Step(files, h).value[i].doc)) - multiset(SetterRefs(Step(files, h).value[i].deps))
    requires multiset(PackageRefsOf(fin))
      == multiset(PackageRefsOf(Step(files, h).value[i].doc))
        + multiset(PackagesFor(Step(files, h).value, Step(files, h).value[i].deps))
    ensures multiset(ProjectRefsOf(fin))
      == multiset(ProjectRefsOf(Without(files, h)[i].doc)) - multiset(SetterRefs(Without(files, h)[i].deps))
    ensures multiset(PackageRefsOf(fin))
      == multiset(PackageRefsOf(Without(files, h)[i].doc)) + multiset(PackagesFor(files, Without(files, h)[i].deps))
  {
    var tail := Step(files, h).value;
    var w := Without(files, h)[i];
    var hp := files[h].path;
    StepKeeps(files, h, i);
    if Named(files[h].packageName) {
      var name := files[h].packageName.value;
      TargetNameAt(files, h);
      assert tail[i].doc == ResolveDeps(w.doc, w.deps, hp, name).value.0;
      ResolveDepsEffect(w.doc, w.deps, hp, name, files);
      var m, kept := Matching(w.deps, hp), Keep(w.deps, hp);
      SetterRefsSplit(w.deps, hp);
      PackagesForSplit(files, w.deps, hp);
      forall j | 0 <= j < |kept| ensures TargetName(tail, kept[j].name) == TargetName(files, kept[j].name) {
        StepTargetName(files, h, kept[j].name);
      }
      PackagesForAgree(tail, files, kept);
      MultisetDiffDiff(multiset(ProjectRefsOf(w.doc)), multiset(SetterRefs(m)), multiset(SetterRefs(kept)));
    } else {
      forall j | 0 <= j < |w.deps| ensures TargetName(tail, w.deps[j].name) == TargetName(files, w.deps[j].name) {
        StepTargetName(files, h, w.deps[j].name);
      }
      PackagesForAgree(tail, files, w.deps);
    }
  }

  /**
   * A run over distinct, well-formed files that returns normally removes from each
   * file exactly the ProjectReferences its edges were extracted from, and adds one
   * PackageReference per edge, carrying the package name of the file the edge
   * points at and the version of the run.
   */
  lemma {:induction false} PeelRewrites(files: seq<FileState>)
    requires Peel(files).Ok? && DistinctPaths(files)
    requires forall k :: 0 <= k < |files| ==> WellFormed(files[k].doc)
    ensures forall k :: 0 <= k < |files| ==>
      multiset(ProjectRefsOf(Peel(files).value[k].doc))
        == multiset(ProjectRefsOf(files[k].doc)) - multiset(SetterRefs(files[k].deps))
    ensures forall k :: 0 <= k < |files| ==>
      multiset(PackageRefsOf(Peel(files).value[k].doc))
        == multiset(PackageRefsOf(files[k].doc)) + multiset(PackagesFor(files, files[k].deps))
    decreases |files|
  {
    if files != [] {
      var h := FirstLeaf(files).value;
      PeelAt(files, h);
      var tail := Step(files, h).value;
      StepDistinct(files, h);
      StepWellFormed(files, h);
      PeelRewrites(tail);
      var rest := Peel(tail).value;
      forall k | 0 <= k < |files|
        ensures multiset(ProjectRefsOf(Peel(files).value[k].doc))
          == multiset(ProjectRefsOf(files[k].doc)) - multiset(SetterRefs(files[k].deps))
        ensures multiset(PackageRefsOf(Peel(files).value[k].doc))
          == multiset(PackageRefsOf(files[k].doc)) + multiset(PackagesFor(files, files[k].deps))
      {
        if k == h {
          assert Peel(files).value[k] == files[h];
        } else {
          var i := if k < h then k else k - 1;
          assert Peel(files).value[k] == rest[i];
          assert Without(files, h)[i] == files[k];
          StepTransfer(files, h, i, rest[i].doc);
        }
      }
    }
  }
}
