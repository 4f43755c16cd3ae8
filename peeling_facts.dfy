/**
 * What a run of `processFiles` guarantees about the working set as a whole.
 */
module PeelingFacts {
  import opened Common
  import opened Document
  import opened DocumentFacts
  import opened Extraction
  import opened Peeling

  /** Some file of the working set has path `name` and a package name. */
  ghost predicate HasNamedTarget(files: seq<FileState>, name: string) {
    exists g :: 0 <= g < |files| && files[g].path == name && Named(files[g].packageName)
  }

  /** Every remaining edge points at a file of the set that has a package name. */
  ghost predicate TargetsNamed(files: seq<FileState>) {
    forall i, j :: 0 <= i < |files| && 0 <= j < |files[i].deps| ==> HasNamedTarget(files, files[i].deps[j].name)
  }

  /** The dependant at position `i'` of the tail keeps the edges that do not name the head. */
  lemma StepKeeps(files: seq<FileState>, h: nat, i': nat)
    requires h < |files| && Step(files, h).Ok? && i' < |files| - 1
    ensures Named(files[h].packageName) ==>
      Step(files, h).value[i'].deps == Keep(Without(files, h)[i'].deps, files[h].path)
    ensures !Named(files[h].packageName) ==> Step(files, h).value[i'] == Without(files, h)[i']
  {
    if Named(files[h].packageName) {
      var w := Without(files, h)[i'];
      ResolveDepsSpec(w.doc, w.deps, files[h].path, files[h].packageName.value);
    }
  }

  /** A named target in the tail is a named target in the whole set. */
  lemma TailTarget(files: seq<FileState>, h: nat, name: string)
    requires h < |files| && Step(files, h).Ok? && HasNamedTarget(Step(files, h).value, name)
    ensures HasNamedTarget(files, name)
  {
    var tail := Step(files, h).value;
    var g' :| 0 <= g' < |tail| && tail[g'].path == name && Named(tail[g'].packageName);
    var g := if g' < h then g' else g' + 1;
    assert files[g] == Without(files, h)[g'];
  }

  /** One edge of a dependant other than the head still has a named target. */
  lemma StepTargetOne(files: seq<FileState>, h: nat, i: nat, j: nat)
    requires h < |files| && files[h].deps == []
    requires Step(files, h).Ok? && TargetsNamed(Step(files, h).value)
    requires i < |files| && j < |files[i].deps|
    ensures HasNamedTarget(files, files[i].deps[j].name)
  {
    var tail := Step(files, h).value;
    var d := files[i].deps[j];
    var i' := if i < h then i else i - 1;
    assert Without(files, h)[i'] == files[i];
    if Named(files[h].packageName) && d.name == files[h].path {
      assert files[h].path == d.name;
    } else {
      StepKeeps(files, h, i');
      assert d in tail[i'].deps;
      var j' :| 0 <= j' < |tail[i'].deps| && tail[i'].deps[j'] == d;
      assert HasNamedTarget(tail, tail[i'].deps[j'].name);
      TailTarget(files, h, d.name);
    }
  }

  /** Dealing with a leaf keeps "every edge has a named target" from the tail back to the whole set. */
  lemma StepTargets(files: seq<FileState>, h: nat)
    requires h < |files| && files[h].deps == []
    requires Step(files, h).Ok? && TargetsNamed(Step(files, h).value)
    ensures TargetsNamed(files)
  {
    forall i, j | 0 <= i < |files| && 0 <= j < |files[i].deps|
      ensures HasNamedTarget(files, files[i].deps[j].name)
    {
      StepTargetOne(files, h, i, j);
    }
  }

  /**
   * A run that returns normally had, for every edge, a file with that path and a
   * package name: an edge to a nameless file (a test project) or to a path
   * outside the set ends the run with an error.
   */
  lemma {:induction false} PeelNeedsNamedTargets(files: seq<FileState>)
    requires Peel(files).Ok?
    ensures TargetsNamed(files)
    decreases |files|
  {
    if files != [] {
      var h := FirstLeaf(files).value;
      PeelNeedsNamedTargets(Step(files, h).value);
      StepTargets(files, h);
    }
  }

  /** An edge to a path whose files all lack a package name makes the run fail. */
  lemma NamelessTargetFails(files: seq<FileState>, i: nat, j: nat)
    requires i < |files| && j < |files[i].deps|
    requires forall g :: 0 <= g < |files| && files[g].path == files[i].deps[j].name ==> !Named(files[g].packageName)
    ensures Peel(files).Err?
  {
    if Peel(files).Ok? {
      PeelNeedsNamedTargets(files);
      assert false;
    }
  }

  /** An edge to a path that is not in the working set makes the run fail. */
  lemma DanglingReferenceFails(files: seq<FileState>, i: nat, j: nat)
    requires i < |files| && j < |files[i].deps|
    requires forall g :: 0 <= g < |files| ==> files[g].path != files[i].deps[j].name
    ensures Peel(files).Err?
  {
    NamelessTargetFails(files, i, j);
  }

  /** A file whose setters can all still find their references in its document. */
  ghost predicate Consistent(f: FileState) {
    && WellFormed(f.doc)
    && MarkerReady(f.doc)
    && multiset(SetterRefs(f.deps)) <= multiset(ProjectRefsOf(f.doc))
  }

  /** The (group, Include) pair the setter of `d` looks for. */
  function SetterRef(d: Dependency): (GroupId, Option<string>) {
    (d.setter.group, Some(d.setter.reference))
  }

  lemma SetterRefsSnoc(pre: seq<Dependency>, last: Dependency)
    ensures multiset(SetterRefs(pre + [last])) == multiset(SetterRefs(pre)) + multiset{SetterRef(last)}
  {
    assert SetterRefs(pre + [last]) == SetterRefs(pre) + [SetterRef(last)];
  }

  /** The budget of references for `deps` covers all but its last edge with that edge's reference set aside. */
  lemma SnocBudget(deps: seq<Dependency>, extra: multiset<(GroupId, Option<string>)>, m: multiset<(GroupId, Option<string>)>)
    requires deps != [] && multiset(SetterRefs(deps)) + extra <= m
    ensures multiset(SetterRefs(deps[..|deps| - 1])) + multiset{SetterRef(deps[|deps| - 1])} + extra <= m
    ensures multiset(SetterRefs(deps[..|deps| - 1])) + (multiset{SetterRef(deps[|deps| - 1])} + extra) <= m
  {
    SetterRefsLast(deps);
  }

  lemma SetterRefsLast(deps: seq<Dependency>)
    requires deps != []
    ensures multiset(SetterRefs(deps)) == multiset(SetterRefs(deps[..|deps| - 1])) + multiset{SetterRef(deps[|deps| - 1])}
  {
    var n := |deps| - 1;
    assert SetterRefs(deps[..n]) == SetterRefs(deps)[..n];
    MultisetLast(SetterRefs(deps));
  }

  lemma MultisetLast<T>(s: seq<T>)
    requires s != []
    ensures multiset(s) == multiset(s[..|s| - 1]) + multiset{s[|s| - 1]}
  {
    assert s == s[..|s| - 1] + [s[|s| - 1]];
  }

  /** Firing an edge whose reference is in the document keeps the other edges' references there. */
  lemma FireOne(doc: Project, pre: seq<Dependency>, last: Dependency, packageName: string,
                extra: multiset<(GroupId, Option<string>)>)
    requires WellFormed(doc) && MarkerReady(doc)
    requires multiset(SetterRefs(pre)) + multiset{SetterRef(last)} + extra <= multiset(ProjectRefsOf(doc))
    ensures Replace(doc, last.setter, packageName).Ok?
    ensures WellFormed(Replace(doc, last.setter, packageName).value)
    ensures MarkerReady(Replace(doc, last.setter, packageName).value)
    ensures multiset(SetterRefs(pre)) + extra <= multiset(ProjectRefsOf(Replace(doc, last.setter, packageName).value))
  {
    var p := SetterRef(last);
    assert p in multiset(ProjectRefsOf(doc));
    ReplaceSucceedsIff(doc, last.setter, packageName);
    ReplaceSpec(doc, last.setter, packageName);
  }

  /** The loop over `deps` succeeds and leaves the references of the kept edges, plus `extra`, in the document. */
  ghost predicate Total(doc: Project, deps: seq<Dependency>, target: string, packageName: string,
                        extra: multiset<(GroupId, Option<string>)>) {
    && ResolveDeps(doc, deps, target, packageName).Ok?
    && WellFormed(ResolveDeps(doc, deps, target, packageName).value.0)
    && MarkerReady(ResolveDeps(doc, deps, target, packageName).value.0)
    && multiset(SetterRefs(ResolveDeps(doc, deps, target, packageName).value.1)) + extra
         <= multiset(ProjectRefsOf(ResolveDeps(doc, deps, target, packageName).value.0))
  }

  lemma TotalMatchingLast(doc: Project, deps: seq<Dependency>, target: string, packageName: string,
                          extra: multiset<(GroupId, Option<string>)>)
    requires deps != [] && deps[|deps| - 1].name == target
    requires Replace(doc, deps[|deps| - 1].setter, packageName).Ok?
    requires Total(Replace(doc, deps[|deps| - 1].setter, packageName).value, deps[..|deps| - 1], target, packageName, extra)
    ensures Total(doc, deps, target, packageName, extra)
  {
  }

  lemma TotalOtherLast(doc: Project, deps: seq<Dependency>, target: string, packageName: string,
                       extra: multiset<(GroupId, Option<string>)>)
    requires deps != [] && deps[|deps| - 1].name != target
    requires Total(doc, deps[..|deps| - 1], target, packageName, multiset{SetterRef(deps[|deps| - 1])} + extra)
    ensures Total(doc, deps, target, packageName, extra)
  {
    var last := deps[|deps| - 1];
    var r := ResolveDeps(doc, deps[..|deps| - 1], target, packageName).value;
    SetterRefsSnoc(r.1, last);
    assert ResolveDeps(doc, deps, target, packageName).value == (r.0, r.1 + [last]);
  }

  /**
   * The reverse loop over a dependant never meets "Cannot find reference" while its
   * edges' references (plus `extra`, reserved for edges kept later) are in the document.
   */
  lemma {:induction false} ResolveDepsTotal(doc: Project, deps: seq<Dependency>, target: string, packageName: string,
                                            extra: multiset<(GroupId, Option<string>)>)
    requires WellFormed(doc) && MarkerReady(doc)
    requires multiset(SetterRefs(deps)) + extra <= multiset(ProjectRefsOf(doc))
    ensures Total(doc, deps, target, packageName, extra)
    decreases |deps|
  {
    if deps != [] {
      var last, pre := deps[|deps| - 1], deps[..|deps| - 1];
      SnocBudget(deps, extra, multiset(ProjectRefsOf(doc)));
      if last.name == target {
        FireOne(doc, pre, last, packageName, extra);
        ResolveDepsTotal(Replace(doc, last.setter, packageName).value, pre, target, packageName, extra);
        TotalMatchingLast(doc, deps, target, packageName, extra);
      } else {
        ResolveDepsTotal(doc, pre, target, packageName, multiset{SetterRef(last)} + extra);
        TotalOtherLast(doc, deps, target, packageName, extra);
      }
    }
  }

  lemma ResolveTailTotal(tail: seq<FileState>, head: FileState)
    requires Named(head.packageName)
    requires forall k :: 0 <= k < |tail| ==> Consistent(tail[k])
    ensures ResolveTail(tail, head).Ok?
    ensures forall k :: 0 <= k < |tail| ==> Consistent(ResolveTail(tail, head).value[k])
  {
    forall k | 0 <= k < |tail|
      ensures ResolveFile(tail[k], head).Ok? && Consistent(ResolveFile(tail[k], head).value)
    {
      ResolveDepsTotal(tail[k].doc, tail[k].deps, head.path, head.packageName.value, multiset{});
    }
  }

  /**
   * On files whose dependencies were extracted from their own documents, the only
   * way a run can fail is "Not all dependencies are contained in tree": the
   * internal-consistency error of the setters never happens.
   */
  lemma {:induction false} PeelFailsOnlyOutsideTree(files: seq<FileState>)
    requires forall k :: 0 <= k < |files| ==> Consistent(files[k])
    ensures Peel(files).Err? ==> Peel(files).error == NotInTree
    decreases |files|
  {
    if files != [] && FirstLeaf(files).Some? {
      var h := FirstLeaf(files).value;
      PeelAt(files, h);
      var w := Without(files, h);
      forall k | 0 <= k < |w| ensures Consistent(w[k]) {
        if k >= h {
          assert w[k] == files[k + 1];
        }
      }
      if Named(files[h].packageName) {
        ResolveTailTotal(w, files[h]);
        assert Step(files, h) == ResolveTail(w, files[h]);
      } else {
        assert Step(files, h) == Ok(w);
      }
      PeelFailsOnlyOutsideTree(Step(files, h).value);
    }
  }

  /** Extraction yields consistent files: every setter's reference is in the document, once per edge. */
  lemma ExtractedConsistent(filePath: string, doc: Project, packageVersion: string, resolve: (string, string) -> string,
                            packageName: Option<string>)
    requires WellFormed(doc) && MarkerReady(doc)
    requires Edges(filePath, doc, packageVersion, resolve).Ok?
    ensures Consistent(FileState(filePath, doc, packageName, Edges(filePath, doc, packageVersion, resolve).value))
  {
    EdgesMatchReferences(filePath, doc, packageVersion, resolve);
  }

  /** A setter touches item groups only: the property groups (PackageId, Version) stay as they were. */
  lemma ReplaceKeepsProperties(doc: Project, s: Setter, packageName: string)
    requires Replace(doc, s, packageName).Ok?
    ensures Replace(doc, s, packageName).value.propertyGroups == doc.propertyGroups
  {
  }

  lemma {:induction false} ResolveDepsKeepsProperties(doc: Project, deps: seq<Dependency>, target: string, packageName: string)
    requires ResolveDeps(doc, deps, target, packageName).Ok?
    ensures ResolveDeps(doc, deps, target, packageName).value.0.propertyGroups == doc.propertyGroups
    decreases |deps|
  {
    if deps != [] {
      var last, pre := deps[|deps| - 1], deps[..|deps| - 1];
      if last.name == target {
        ReplaceKeepsProperties(doc, last.setter, packageName);
        ResolveDepsKeepsProperties(Replace(doc, last.setter, packageName).value, pre, target, packageName);
      } else {
        ResolveDepsKeepsProperties(doc, pre, target, packageName);
      }
    }
  }

  lemma StepKeepsProperties(files: seq<FileState>, h: nat)
    requires h < |files| && Step(files, h).Ok?
    ensures forall k :: 0 <= k < |files| - 1 ==>
      Step(files, h).value[k].doc.propertyGroups == Without(files, h)[k].doc.propertyGroups
  {
    if Named(files[h].packageName) {
      var w := Without(files, h);
      forall k | 0 <= k < |w|
        ensures Step(files, h).value[k].doc.propertyGroups == w[k].doc.propertyGroups
      {
        ResolveDepsKeepsProperties(w[k].doc, w[k].deps, files[h].path, files[h].packageName.value);
      }
    }
  }

  /** A run that returns normally leaves every file's property groups, and so its stamped Version, as they were. */
  lemma {:induction false} PeelKeepsProperties(files: seq<FileState>)
    requires Peel(files).Ok?
    ensures forall k :: 0 <= k < |files| ==> Peel(files).value[k].doc.propertyGroups == files[k].doc.propertyGroups
    decreases |files|
  {
    if files != [] {
      var h := FirstLeaf(files).value;
      PeelAt(files, h);
      var tail := Step(files, h).value;
      StepKeepsProperties(files, h);
      PeelKeepsProperties(tail);
      var rest := Peel(tail).value;
      forall k | 0 <= k < |files|
        ensures Peel(files).value[k].doc.propertyGroups == files[k].doc.propertyGroups
      {
        if k < h {
          assert Peel(files).value[k] == rest[k];
          assert tail[k].doc.propertyGroups == files[k].doc.propertyGroups;
        } else if k > h {
          assert Peel(files).value[k] == rest[k - 1];
          assert tail[k - 1].doc.propertyGroups == files[k].doc.propertyGroups;
        }
      }
    }
  }
}
