/**
 * Reference extraction (`makeProjectReferencesAbsolute`): one dependency per
 * ProjectReference element, over all item groups in document order.  The node
 * `path.resolve(path.parse(file).dir, include)` is the parameter `resolve`.
 */
module Extraction {
  import opened Common
  import opened Document
  import opened DocumentFacts

  /** An edge of the dependency graph: the absolute path it points at and the setter bound to its reference. */
  datatype Dependency = Dependency(name: string, setter: Setter)

  /** A reference the extractor accepts: `pr.$ && pr.$.Include` is truthy. */
  predicate Understood(p: (GroupId, Option<string>)) {
    p.1.Some? && p.1.value != ""
  }

  /** The dependency built from one tagged reference. */
  function EdgeOf(filePath: string, p: (GroupId, Option<string>), packageVersion: string,
                  resolve: (string, string) -> string): Dependency
    requires Understood(p)
  {
    Dependency(resolve(filePath, p.1.value), Replacer(p.0, p.1.value, packageVersion))
  }

  /**
   * The dependencies of a list of tagged references; the first reference without
   * a truthy `Include` makes it fail.
   */
  function EdgesOf(filePath: string, refs: seq<(GroupId, Option<string>)>, packageVersion: string,
                   resolve: (string, string) -> string): (r: Result<seq<Dependency>>)
    ensures r.Ok? <==> forall k :: 0 <= k < |refs| ==> Understood(refs[k])
    ensures r.Err? ==> r.error == UnknownProjectReference(filePath)
    ensures r.Ok? ==> |r.value| == |refs|
    ensures r.Ok? ==> forall k :: 0 <= k < |refs| ==> r.value[k] == EdgeOf(filePath, refs[k], packageVersion, resolve)
    decreases |refs|
  {
    if refs == [] then Ok([])
    else
      var last := refs[|refs| - 1];
      match EdgesOf(filePath, refs[..|refs| - 1], packageVersion, resolve)
      case Err(e) => Err(e)
      case Ok(edges) =>
        if Understood(last) then Ok(edges + [EdgeOf(filePath, last, packageVersion, resolve)])
        else Err(UnknownProjectReference(filePath))
  }

  /** What `makeProjectReferencesAbsolute` computes for a document. */
  function Edges(filePath: string, doc: Project, packageVersion: string, resolve: (string, string) -> string): Result<seq<Dependency>> {
    EdgesOf(filePath, ProjectRefsOf(doc), packageVersion, resolve)
  }

  /** The (group, Include) pairs that the setters of `deps` will look for. */
  function SetterRefs(deps: seq<Dependency>): (r: seq<(GroupId, Option<string>)>)
    ensures |r| == |deps|
    ensures forall k :: 0 <= k < |deps| ==> r[k] == (deps[k].setter.group, Some(deps[k].setter.reference))
  {
    if deps == [] then [] else [(deps[0].setter.group, Some(deps[0].setter.reference))] + SetterRefs(deps[1..])
  }

  /**
   * Extraction yields exactly one dependency per ProjectReference, in document
   * order, and its setters between them look for exactly the references the
   * document holds.
   */
  lemma EdgesMatchReferences(filePath: string, doc: Project, packageVersion: string, resolve: (string, string) -> string)
    requires Edges(filePath, doc, packageVersion, resolve).Ok?
    ensures SetterRefs(Edges(filePath, doc, packageVersion, resolve).value) == ProjectRefsOf(doc)
  {
  }

  /** One more reference: one more dependency, or the failure. */
  lemma EdgesOfSnoc(filePath: string, refs: seq<(GroupId, Option<string>)>, p: (GroupId, Option<string>),
                    packageVersion: string, resolve: (string, string) -> string)
    requires EdgesOf(filePath, refs, packageVersion, resolve).Ok?
    ensures EdgesOf(filePath, refs + [p], packageVersion, resolve)
      == if Understood(p)
         then Ok(EdgesOf(filePath, refs, packageVersion, resolve).value + [EdgeOf(filePath, p, packageVersion, resolve)])
         else Err(UnknownProjectReference(filePath))
  {
    assert (refs + [p])[..|refs|] == refs;
  }

  lemma InnerStep(done: seq<(GroupId, Option<string>)>, id: GroupId, prs: seq<Element>, i: nat)
    requires i < |prs|
    ensures done + Tagged(id, prs[..i + 1]) == (done + Tagged(id, prs[..i])) + [(id, IncludeOf(prs[i]))]
  {
    TaggedAppend(id, prs[..i], [prs[i]]);
    assert prs[..i + 1] == prs[..i] + [prs[i]];
  }

  lemma OuterStep(gs: seq<ItemGroup>, n: nat)
    requires n < |gs|
    ensures FlatMap(gs[..n + 1], RefsOf) == FlatMap(gs[..n], RefsOf) + Tagged(gs[n].id, Entries(gs[n].projectRefs)[..])
  {
    FlatMapAppend(gs[..n], [gs[n]], RefsOf);
    assert gs[..n + 1] == gs[..n] + [gs[n]];
    assert Entries(gs[n].projectRefs)[..] == Entries(gs[n].projectRefs);
  }

  /**
   * The reduce over `Project.ItemGroup` with its inner loop over the normalised
   * `ProjectReference` list.  The document is a value, so it is not modified.
   */
  method ExtractDependencies(filePath: string, doc: Project, packageVersion: string,
                             resolve: (string, string) -> string) returns (r: Result<seq<Dependency>>)
    ensures r == Edges(filePath, doc, packageVersion, resolve)
  {
    var gs := doc.itemGroups;
    var dependencies: seq<Dependency> := [];
    var n := 0;
    while n < |gs|
      invariant 0 <= n <= |gs|
      invariant EdgesOf(filePath, FlatMap(gs[..n], RefsOf), packageVersion, resolve) == Ok(dependencies)
    {
      var itemGroup := gs[n];
      var prs := Entries(itemGroup.projectRefs);
      ghost var before := FlatMap(gs[..n], RefsOf);
      var i := 0;
      assert before + Tagged(itemGroup.id, prs[..0]) == before;
      while i < |prs|
        invariant 0 <= i <= |prs|
        invariant EdgesOf(filePath, before + Tagged(itemGroup.id, prs[..i]), packageVersion, resolve) == Ok(dependencies)
      {
        var pr := prs[i];
        InnerStep(before, itemGroup.id, prs, i);
        EdgesOfSnoc(filePath, before + Tagged(itemGroup.id, prs[..i]), (itemGroup.id, IncludeOf(pr)), packageVersion, resolve);
        if !HasInclude(pr) {
          RejectedReference(filePath, doc, n, i, packageVersion, resolve);
          return Err(UnknownProjectReference(filePath));
        }
        dependencies := dependencies + [Dependency(resolve(filePath, IncludeOf(pr).value), Replacer(itemGroup.id, IncludeOf(pr).value, packageVersion))];
        i := i + 1;
      }
      assert prs[..i] == Entries(gs[n].projectRefs)[..];
      OuterStep(gs, n);
      n := n + 1;
    }
    assert gs[..n] == gs;
    r := Ok(dependencies);
  }

  /** A reference without a truthy `Include` anywhere in the document makes extraction fail. */
  lemma RejectedReference(filePath: string, doc: Project, n: nat, i: nat, packageVersion: string,
                          resolve: (string, string) -> string)
    requires n < |doc.itemGroups| && i < |Entries(doc.itemGroups[n].projectRefs)|
    requires !HasInclude(Entries(doc.itemGroups[n].projectRefs)[i])
    ensures Edges(filePath, doc, packageVersion, resolve) == Err(UnknownProjectReference(filePath))
  {
    var g := doc.itemGroups[n];
    var p := (g.id, IncludeOf(Entries(g.projectRefs)[i]));
    TaggedMembers(g.id, Entries(g.projectRefs), p);
    FlatMapAt(doc.itemGroups, n, RefsOf);
    var refs := ProjectRefsOf(doc);
    assert p in refs;
    var k :| 0 <= k < |refs| && refs[k] == p;
    assert !Understood(refs[k]);
  }
}
