/**
 * One project file of a run, as an object whose fields the orchestrator updates in
 * place: `makeProjectReferencesAbsolute` fills its dependencies, `addPackageName`
 * and `addVersion` read and stamp its first property group, and the setters and the
 * dependency loop of `processFiles` rewrite its document and splice its dependencies.
 */
module ProjectFiles {
  import opened Common
  import opened Document
  import opened DocumentFacts
  import opened Extraction
  import opened Peeling

  /** The outcome of the reverse loop, extended by edges kept after the part it has still to visit. */
  function Extend(res: Result<(Project, seq<Dependency>)>, kept: seq<Dependency>): Result<(Project, seq<Dependency>)> {
    match res
    case Err(e) => Err(e)
    case Ok(p) => Ok((p.0, p.1 + kept))
  }

  lemma ExtendNil(res: Result<(Project, seq<Dependency>)>)
    ensures Extend(res, []) == res
  {
    if res.Ok? {
      assert res.value.1 + [] == res.value.1;
    }
  }

  /** `Keep` unfolded once at the back. */
  lemma KeepSnoc(pre: seq<Dependency>, last: Dependency, target: string)
    ensures Keep(pre + [last], target) == Keep(pre, target) + (if last.name != target then [last] else [])
  {
    assert (pre + [last])[..|pre|] == pre;
  }

  /** `Keep` seen from the front: the first edge survives exactly when it names another file. */
  lemma {:induction false} KeepCons(x: Dependency, s: seq<Dependency>, target: string)
    ensures Keep([x] + s, target) == (if x.name != target then [x] else []) + Keep(s, target)
    decreases |s|
  {
    if s == [] {
      KeepSnoc([], x, target);
      assert [x] + s == [] + [x];
    } else {
      var pre, last := s[..|s| - 1], s[|s| - 1];
      var front := if x.name != target then [x] else [];
      var back := if last.name != target then [last] else [];
      assert s == pre + [last];
      calc {
        Keep([x] + s, target);
        { assert [x] + s == ([x] + pre) + [last]; }
        Keep(([x] + pre) + [last], target);
        { KeepSnoc([x] + pre, last, target); }
        Keep([x] + pre, target) + back;
        { KeepCons(x, pre, target); }
        (front + Keep(pre, target)) + back;
        front + (Keep(pre, target) + back);
        { KeepSnoc(pre, last, target); }
        front + Keep(s, target);
      }
    }
  }

  lemma ExtendAppend(res: Result<(Project, seq<Dependency>)>, a: seq<Dependency>, b: seq<Dependency>)
    ensures Extend(Extend(res, a), b) == Extend(res, a + b)
  {
    if res.Ok? {
      assert (res.value.1 + a) + b == res.value.1 + (a + b);
    }
  }

  /** `ResolveDeps` unfolded once on a last edge naming another file. */
  lemma ResolveKeptLast(doc: Project, deps: seq<Dependency>, target: string, packageId: string)
    requires deps != [] && deps[|deps| - 1].name != target
    ensures ResolveDeps(doc, deps, target, packageId)
      == Extend(ResolveDeps(doc, deps[..|deps| - 1], target, packageId), [deps[|deps| - 1]])
  {
  }

  /** The kept part after visiting position `i` of an edge naming another file. */
  lemma KeptPart(deps: seq<Dependency>, i: nat, target: string)
    requires i < |deps| && deps[i].name != target
    ensures Keep(deps[i..], target) == [deps[i]] + Keep(deps[i + 1..], target)
  {
    assert deps[i..] == [deps[i]] + deps[i + 1..];
    KeepCons(deps[i], deps[i + 1..], target);
  }

  lemma ShiftOne<T>(s: seq<T>, i: nat, rest: seq<T>)
    requires i < |s|
    ensures s[..i + 1] + rest == s[..i] + ([s[i]] + rest)
  {
    assert s[..i + 1] == s[..i] + [s[i]];
  }

  /** Visiting position `i` of an edge naming another file: the edge moves to the kept part. */
  lemma ResolveStepKept(doc: Project, deps: seq<Dependency>, i: nat, target: string, packageId: string,
                        kept: seq<Dependency>)
    requires i < |deps| && deps[i].name != target
    ensures Extend(ResolveDeps(doc, deps[..i + 1], target, packageId), kept)
      == Extend(ResolveDeps(doc, deps[..i], target, packageId), [deps[i]] + kept)
  {
    var front := deps[..i + 1];
    assert front[..|front| - 1] == deps[..i];
    ResolveKeptLast(doc, front, target, packageId);
    ExtendAppend(ResolveDeps(doc, deps[..i], target, packageId), [deps[i]], kept);
  }

  /** One turn of the loop on an edge naming another file: nothing fires and the edge joins the kept part. */
  lemma KeptStep(doc: Project, deps: seq<Dependency>, i: nat, target: string, packageId: string)
    requires i < |deps| && deps[i].name != target
    ensures deps[..i + 1] + Keep(deps[i + 1..], target) == deps[..i] + Keep(deps[i..], target)
    ensures Extend(ResolveDeps(doc, deps[..i + 1], target, packageId), Keep(deps[i + 1..], target))
      == Extend(ResolveDeps(doc, deps[..i], target, packageId), Keep(deps[i..], target))
  {
    KeptPart(deps, i, target);
    ShiftOne(deps, i, Keep(deps[i + 1..], target));
    ResolveStepKept(doc, deps, i, target, packageId, Keep(deps[i + 1..], target));
  }

  /** Deleting position `i` of `deps[..i + 1] + kept` leaves `deps[..i] + kept`. */
  lemma SplicedAt<T>(cur: seq<T>, deps: seq<T>, i: nat, kept: seq<T>)
    requires i < |deps| && cur == deps[..i + 1] + kept
    ensures cur[..i] + cur[i + 1..] == deps[..i] + kept
  {
    assert cur[..i] == deps[..i];
    assert cur[i + 1..] == kept;
  }

  /** `ResolveDeps` unfolded once on a last edge naming the target. */
  lemma ResolveFiredLast(doc: Project, deps: seq<Dependency>, target: string, packageId: string, res: Result<Project>)
    requires deps != [] && deps[|deps| - 1].name == target
    requires res == Replace(doc, deps[|deps| - 1].setter, packageId)
    ensures res.Err? ==> ResolveDeps(doc, deps, target, packageId) == Err(res.error)
    ensures res.Ok? ==> ResolveDeps(doc, deps, target, packageId) == ResolveDeps(res.value, deps[..|deps| - 1], target, packageId)
  {
  }

  /** Visiting position `i` of an edge naming the target: its setter fires, and the rest runs on the new document. */
  lemma ResolveStepFired(doc: Project, deps: seq<Dependency>, i: nat, target: string, packageId: string, res: Result<Project>)
    requires i < |deps| && deps[i].name == target
    requires res == Replace(doc, deps[i].setter, packageId)
    ensures Keep(deps[i..], target) == Keep(deps[i + 1..], target)
    ensures res.Err? ==>
      Extend(ResolveDeps(doc, deps[..i + 1], target, packageId), Keep(deps[i + 1..], target)) == Err(res.error)
    ensures res.Ok? ==>
      Extend(ResolveDeps(doc, deps[..i + 1], target, packageId), Keep(deps[i + 1..], target))
        == Extend(ResolveDeps(res.value, deps[..i], target, packageId), Keep(deps[i..], target))
  {
    var front := deps[..i + 1];
    assert front[..|front| - 1] == deps[..i];
    ResolveFiredLast(doc, front, target, packageId, res);
    assert Keep(deps[i..], target) == Keep(deps[i + 1..], target) by {
      assert deps[i..] == [deps[i]] + deps[i + 1..];
      KeepCons(deps[i], deps[i + 1..], target);
    }
  }

  /** `PackageId?.[0]` of a property group: its first PackageId, or none when it has no PackageId child. */
  function FirstPackageId(props: PropertyGroup): (r: Option<string>)
    // the ensures clauses below only unfold the body, for the proofs that use it
    ensures r.Some? <==> props.packageIds != []
    ensures r.Some? ==> r.value == props.packageIds[0] && r.value in props.packageIds
  {
    if props.packageIds == [] then None else Some(props.packageIds[0])
  }

  /** The document `addVersion` leaves: the Version of the first property group set, when there is one. */
  function Stamp(doc: Project, packageVersion: string): Project {
    if doc.propertyGroups == [] then doc
    else doc.(propertyGroups := doc.propertyGroups[0 := doc.propertyGroups[0].(version := Some(packageVersion))])
  }

  /** The loop of `remover` over an array of references: the first whose `Include` is `reference`. */
  method FindReference(prs: seq<Element>, reference: string) returns (i: Option<nat>)
    ensures i == FirstMatch(prs, reference)
  {
    var j := 0;
    while j < |prs|
      invariant 0 <= j <= |prs|
      invariant forall l :: 0 <= l < j ==> IncludeOf(prs[l]) != Some(reference)
    {
      if IncludeOf(prs[j]) == Some(reference) {
        return Some(j);
      }
      j := j + 1;
    }
    return None;
  }

  class ProjectFile {
    const path: string
    var doc: Project
    var packageName: Option<string>
    var dependencies: seq<Dependency>

    /** A file just read from `path`, with no package name and no dependencies yet. */
    constructor(path: string, doc: Project)
      ensures this.path == path && this.doc == doc
      ensures packageName == None && dependencies == []
    {
      this.path := path;
      this.doc := doc;
      packageName := None;
      dependencies := [];
    }

    /** The file's fields as a value. */
    function State(): FileState
      reads this
    {
      FileState(path, doc, packageName, dependencies)
    }

    /**
     * `makeProjectReferencesAbsolute`: one dependency per ProjectReference, each
     * with the setter bound to its item group and reference; a reference without a
     * truthy `Include` fails the file.
     */
    method MakeProjectReferencesAbsolute(packageVersion: string, resolve: (string, string) -> string) returns (r: Outcome)
      modifies this
      ensures doc == old(doc) && packageName == old(packageName)
      ensures Edges(path, doc, packageVersion, resolve).Ok? ==>
        r == Pass && dependencies == Edges(path, doc, packageVersion, resolve).value
      ensures Edges(path, doc, packageVersion, resolve).Err? ==>
        r == Fail(Edges(path, doc, packageVersion, resolve).error) && dependencies == old(dependencies)
    {
      var edges := ExtractDependencies(path, doc, packageVersion, resolve);
      if edges.Err? {
        return Fail(edges.error);
      }
      dependencies := edges.value;
      r := Pass;
    }

    /**
     * `addPackageName`: the first PackageId of the first property group, or none; a
     * document without property groups makes the read fail.
     */
    method AddPackageName() returns (r: Outcome)
      modifies this
      ensures doc == old(doc) && dependencies == old(dependencies)
      ensures doc.propertyGroups == [] ==> r == Fail(NoPropertyGroup) && packageName == old(packageName)
      ensures doc.propertyGroups != [] ==> r == Pass && packageName == FirstPackageId(doc.propertyGroups[0])
    {
      if doc.propertyGroups == [] {
        return Fail(NoPropertyGroup);
      }
      var ids := doc.propertyGroups[0].packageIds;
      packageName := if ids == [] then None else Some(ids[0]);
      r := Pass;
    }

    /** `addVersion`: sets the Version of the first property group, if there is one; nothing else changes. */
    method AddVersion(packageVersion: string)
      modifies this
      ensures packageName == old(packageName) && dependencies == old(dependencies)
      ensures doc.itemGroups == old(doc.itemGroups) && doc.nextId == old(doc.nextId)
      ensures |doc.propertyGroups| == |old(doc.propertyGroups)|
      ensures doc.propertyGroups != [] ==>
        doc.propertyGroups[0] == old(doc).propertyGroups[0].(version := Some(packageVersion))
      ensures doc.propertyGroups != [] ==> doc.propertyGroups[1..] == old(doc).propertyGroups[1..]
      ensures doc == Stamp(old(doc), packageVersion)
    {
      if doc.propertyGroups != [] {
        var props := doc.propertyGroups[0];
        doc := doc.(propertyGroups := doc.propertyGroups[0 := props.(version := Some(packageVersion))]);
      }
    }

    /** `ItemGroup.indexOf(itemGroup)`: the position of the item group with identity `id`. */
    method FindGroup(id: GroupId) returns (k: Option<nat>)
      ensures k == GroupIndex(doc.itemGroups, id)
    {
      var i := 0;
      while i < |doc.itemGroups|
        invariant 0 <= i <= |doc.itemGroups|
        invariant forall j :: 0 <= j < i ==> doc.itemGroups[j].id != id
      {
        if doc.itemGroups[i].id == id {
          return Some(i);
        }
        i := i + 1;
      }
      return None;
    }

    /**
     * `remover`: deletes the first ProjectReference of item group `id` whose `Include`
     * is `reference`, and the group itself when no key is left; otherwise fails with
     * "Cannot find reference" and leaves the document alone.
     */
    method Remover(reference: string, id: GroupId) returns (r: Outcome)
      modifies this
      ensures packageName == old(packageName) && dependencies == old(dependencies)
      ensures Remove(old(doc), id, reference).Ok? ==> r == Pass && doc == Remove(old(doc), id, reference).value
      ensures Remove(old(doc), id, reference).Err? ==> r == Fail(CannotFindReference(reference)) && doc == old(doc)
    {
      var k := FindGroup(id);
      if k.None? {
        return Fail(CannotFindReference(reference));
      }
      var itemGroup := doc.itemGroups[k.value];
      var i: Option<nat>;
      match itemGroup.projectRefs {
        case None =>
          return Fail(CannotFindReference(reference));
        case Some(Many(prs)) =>
          i := FindReference(prs, reference);
        case Some(One(pr)) =>
          assert [pr][1..] == [];
          i := if IncludeOf(pr) == Some(reference) then Some(0) else None;
      }
      if i.None? {
        return Fail(CannotFindReference(reference));
      }
      doc := doc.(itemGroups := Put(doc.itemGroups, k.value, WithoutEntry(itemGroup, i.value)));
      r := Pass;
    }

    /**
     * `newItemGroupFinder`: the position of the first item group labelled
     * "DependencyReplace", after appending a fresh one with an empty PackageReference
     * list when there is none.
     */
    method NewItemGroupFinder() returns (k: nat)
      modifies this
      ensures packageName == old(packageName) && dependencies == old(dependencies)
      ensures k < |doc.itemGroups| && IsMarker(doc.itemGroups[k])
      ensures FirstMarker(old(doc).itemGroups).Some? ==>
        doc == old(doc) && k == FirstMarker(old(doc).itemGroups).value
      ensures FirstMarker(old(doc).itemGroups).None? ==> k == |old(doc).itemGroups|
      ensures FirstMarker(old(doc).itemGroups).None? ==>
        doc == old(doc).(itemGroups := old(doc).itemGroups + [EmptyMarker(old(doc).nextId)], nextId := old(doc).nextId + 1)
    {
      var i := 0;
      while i < |doc.itemGroups|
        invariant 0 <= i <= |doc.itemGroups|
        invariant unchanged(this)
        invariant forall j :: 0 <= j < i ==> !IsMarker(doc.itemGroups[j])
      {
        if IsMarker(doc.itemGroups[i]) {
          return i;
        }
        i := i + 1;
      }
      k := |doc.itemGroups|;
      doc := doc.(itemGroups := doc.itemGroups + [EmptyMarker(doc.nextId)], nextId := doc.nextId + 1);
    }

    /**
     * `replacer`: removes the project reference the setter is bound to, then pushes
     * `{Include: packageId, Version: packageVersion}` onto the marker group's list.
     */
    method Replacer(setter: Setter, packageId: string) returns (r: Outcome)
      modifies this
      ensures packageName == old(packageName) && dependencies == old(dependencies)
      ensures Replace(old(doc), setter, packageId).Ok? ==> r == Pass && doc == Replace(old(doc), setter, packageId).value
      ensures Replace(old(doc), setter, packageId).Err? ==> r == Fail(Replace(old(doc), setter, packageId).error)
    {
      r := Remover(setter.reference, setter.group);
      if r.Fail? {
        return;
      }
      ghost var removed := doc;
      var k := NewItemGroupFinder();
      var ig := doc.itemGroups[k];
      if ig.packageRefs.None? {
        return Fail(NoPackageReferenceList);
      }
      var pkg := PackageElement(packageId, setter.packageVersion);
      doc := doc.(itemGroups := doc.itemGroups[k := ig.(packageRefs := Some(ig.packageRefs.value + [pkg]))]);
      if FirstMarker(removed.itemGroups).None? {
        assert ig == EmptyMarker(removed.nextId);
        assert ig.packageRefs.value + [pkg] == [pkg];
        assert doc.itemGroups == removed.itemGroups + [NewMarker(removed.nextId, pkg)];
      }
    }

    /**
     * One turn of the loop below: the dependency at position `i` (still at `i`, since
     * only later positions have been spliced) is fired and removed when it names `target`.
     */
    method Visit(i: nat, target: string, packageId: string, ghost deps: seq<Dependency>) returns (r: Outcome)
      requires i < |deps| && dependencies == deps[..i + 1] + Keep(deps[i + 1..], target)
      modifies this
      ensures packageName == old(packageName)
      ensures r == Pass ==> dependencies == deps[..i] + Keep(deps[i..], target)
      ensures r == Pass ==>
        Extend(ResolveDeps(old(doc), deps[..i + 1], target, packageId), Keep(deps[i + 1..], target))
          == Extend(ResolveDeps(doc, deps[..i], target, packageId), Keep(deps[i..], target))
      ensures r.Fail? ==>
        Extend(ResolveDeps(old(doc), deps[..i + 1], target, packageId), Keep(deps[i + 1..], target)) == Err(r.error)
    {
      assert dependencies[i] == deps[i];
      if dependencies[i].name == target {
        r := Fire(i, target, packageId, deps);
      } else {
        KeptStep(doc, deps, i, target, packageId);
        r := Pass;
      }
    }

    /** The fired case of `Visit`: the setter at `i` names `target`, runs and, when it succeeds, is spliced out. */
    method Fire(i: nat, target: string, packageId: string, ghost deps: seq<Dependency>) returns (r: Outcome)
      requires i < |deps| && dependencies == deps[..i + 1] + Keep(deps[i + 1..], target)
      requires deps[i].name == target
      modifies this
      ensures packageName == old(packageName)
      ensures r == Pass ==> dependencies == deps[..i] + Keep(deps[i..], target)
      ensures r == Pass ==>
        Extend(ResolveDeps(old(doc), deps[..i + 1], target, packageId), Keep(deps[i + 1..], target))
          == Extend(ResolveDeps(doc, deps[..i], target, packageId), Keep(deps[i..], target))
      ensures r.Fail? ==>
        Extend(ResolveDeps(old(doc), deps[..i + 1], target, packageId), Keep(deps[i + 1..], target)) == Err(r.error)
    {
      assert dependencies[i] == deps[i];
      ghost var res := Replace(doc, deps[i].setter, packageId);
      ResolveStepFired(doc, deps, i, target, packageId, res);
      r := Replacer(dependencies[i].setter, packageId);
      if r.Fail? {
        return;
      }
      SplicedAt(dependencies, deps, i, Keep(deps[i + 1..], target));
      dependencies := dependencies[..i] + dependencies[i + 1..];
    }

    /**
     * The loop of `processFiles` over this dependant: from the last dependency to the
     * first, every one naming `target` has its setter fired with `packageId` and is
     * spliced out; the first failing setter ends the loop.
     */
    method ResolveDependencies(target: string, packageId: string) returns (r: Outcome)
      modifies this
      ensures packageName == old(packageName)
      ensures ResolveDeps(old(doc), old(dependencies), target, packageId).Ok? ==>
        r == Pass && (doc, dependencies) == ResolveDeps(old(doc), old(dependencies), target, packageId).value
      ensures ResolveDeps(old(doc), old(dependencies), target, packageId).Err? ==>
        r == Fail(ResolveDeps(old(doc), old(dependencies), target, packageId).error)
    {
      ghost var deps := dependencies;
      ghost var goal := ResolveDeps(doc, deps, target, packageId);
      var i := |dependencies| - 1;
      assert deps[..i + 1] == deps && deps[i + 1..] == [];
      assert Keep([], target) == [];
      ExtendNil(goal);
      while i >= 0
        invariant -1 <= i < |deps|
        invariant packageName == old(packageName)
        invariant dependencies == deps[..i + 1] + Keep(deps[i + 1..], target)
        invariant goal == Extend(ResolveDeps(doc, deps[..i + 1], target, packageId), Keep(deps[i + 1..], target))
      {
        r := Visit(i, target, packageId, deps);
        if r.Fail? {
          return;
        }
        i := i - 1;
      }
      assert deps[..0] == [];
      r := Pass;
    }
  }
}
