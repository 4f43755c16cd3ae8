/**
 * Views of a document used to state what the setters do: the project references
 * of every item group, tagged by group; all package references; and the marker
 * groups with their package-reference lists.  And the facts about `Remove`,
 * `AddToMarker` and `Replace` stated over these views.
 */
module DocumentFacts {
  import opened Common
  import opened Document

  /** Concatenation of `f` over the item groups, in document order. */
  function FlatMap<T>(gs: seq<ItemGroup>, f: ItemGroup -> seq<T>): seq<T> {
    if gs == [] then [] else f(gs[0]) + FlatMap(gs[1..], f)
  }

  /** Each element's `Include` (if any), tagged with the group it sits in. */
  function Tagged(id: GroupId, es: seq<Element>): seq<(GroupId, Option<string>)> {
    if es == [] then [] else [(id, IncludeOf(es[0]))] + Tagged(id, es[1..])
  }

  function RefsOf(g: ItemGroup): seq<(GroupId, Option<string>)> {
    Tagged(g.id, Entries(g.projectRefs))
  }

  function PackagesOf(g: ItemGroup): seq<Element> {
    if g.packageRefs.Some? then g.packageRefs.value else []
  }

  function MarkerOf(g: ItemGroup): seq<(GroupId, Option<seq<Element>>)> {
    if IsMarker(g) then [(g.id, g.packageRefs)] else []
  }

  /** Every project reference of the document as (item group, Include). */
  function ProjectRefsOf(doc: Project): seq<(GroupId, Option<string>)> {
    FlatMap(doc.itemGroups, RefsOf)
  }

  /** Every package reference of the document, in document order. */
  function PackageRefsOf(doc: Project): seq<Element> {
    FlatMap(doc.itemGroups, PackagesOf)
  }

  /** The marker groups of the document, in order, with their package-reference lists. */
  function MarkersOf(doc: Project): seq<(GroupId, Option<seq<Element>>)> {
    FlatMap(doc.itemGroups, MarkerOf)
  }

  lemma {:induction false} FlatMapAppend<T>(a: seq<ItemGroup>, b: seq<ItemGroup>, f: ItemGroup -> seq<T>)
    ensures FlatMap(a + b, f) == FlatMap(a, f) + FlatMap(b, f)
  {
    if a != [] {
      assert (a + b)[1..] == a[1..] + b;
      FlatMapAppend(a[1..], b, f);
    } else {
      assert a + b == b;
    }
  }

  lemma FlatMapOne<T>(g: ItemGroup, f: ItemGroup -> seq<T>)
    ensures FlatMap([g], f) == f(g)
  {
    assert [g][1..] == [];
  }

  lemma FlatMapAround<T>(pre: seq<ItemGroup>, g: ItemGroup, post: seq<ItemGroup>, f: ItemGroup -> seq<T>)
    ensures FlatMap(pre + [g] + post, f) == FlatMap(pre, f) + f(g) + FlatMap(post, f)
  {
    FlatMapAppend(pre + [g], post, f);
    FlatMapAppend(pre, [g], f);
    FlatMapOne(g, f);
  }

  lemma FlatMapAt<T>(gs: seq<ItemGroup>, k: nat, f: ItemGroup -> seq<T>)
    requires k < |gs|
    ensures FlatMap(gs, f) == FlatMap(gs[..k], f) + f(gs[k]) + FlatMap(gs[k + 1..], f)
  {
    SplitAt(gs, k);
    FlatMapAround(gs[..k], gs[k], gs[k + 1..], f);
  }

  lemma SplitAt<T>(s: seq<T>, k: nat)
    requires k < |s|
    ensures s == s[..k] + [s[k]] + s[k + 1..]
  {
  }

  /** Writing a group back, or splicing out an empty one, changes the view only at that group. */
  lemma PutFlat<T>(gs: seq<ItemGroup>, k: nat, g: ItemGroup, f: ItemGroup -> seq<T>)
    requires k < |gs|
    requires KeyCount(g) == 0 ==> f(g) == []
    ensures FlatMap(Put(gs, k, g), f) == FlatMap(gs[..k], f) + f(g) + FlatMap(gs[k + 1..], f)
  {
    if KeyCount(g) == 0 {
      FlatMapAppend(gs[..k], gs[k + 1..], f);
    } else {
      var gs' := gs[k := g];
      FlatMapAt(gs', k, f);
      assert gs'[..k] == gs[..k] && gs'[k + 1..] == gs[k + 1..];
    }
  }

  lemma {:induction false} TaggedAppend(id: GroupId, a: seq<Element>, b: seq<Element>)
    ensures Tagged(id, a + b) == Tagged(id, a) + Tagged(id, b)
  {
    if a != [] {
      assert (a + b)[1..] == a[1..] + b;
      TaggedAppend(id, a[1..], b);
    } else {
      assert a + b == b;
    }
  }

  lemma {:induction false} TaggedMembers(id: GroupId, es: seq<Element>, p: (GroupId, Option<string>))
    ensures p in Tagged(id, es) <==> p.0 == id && exists i :: 0 <= i < |es| && IncludeOf(es[i]) == p.1
  {
    if es != [] {
      TaggedMembers(id, es[1..], p);
      if p.0 == id && IncludeOf(es[0]) != p.1 && (exists i :: 0 <= i < |es| && IncludeOf(es[i]) == p.1) {
        var i :| 0 <= i < |es| && IncludeOf(es[i]) == p.1;
        assert IncludeOf(es[1..][i - 1]) == p.1;
      }
    }
  }

  /** A tagged reference belongs to a group with that id. */
  lemma {:induction false} RefOwner(gs: seq<ItemGroup>, p: (GroupId, Option<string>))
    requires p in FlatMap(gs, RefsOf)
    ensures exists k :: 0 <= k < |gs| && gs[k].id == p.0
  {
    if p in RefsOf(gs[0]) {
      TaggedMembers(gs[0].id, Entries(gs[0].projectRefs), p);
      assert gs[0].id == p.0;
    } else {
      RefOwner(gs[1..], p);
      var k :| 0 <= k < |gs[1..]| && gs[1..][k].id == p.0;
      assert gs[k + 1].id == p.0;
    }
  }

  lemma NotOwned(gs: seq<ItemGroup>, p: (GroupId, Option<string>))
    requires forall k :: 0 <= k < |gs| ==> gs[k].id != p.0
    ensures p !in FlatMap(gs, RefsOf)
  {
    if p in FlatMap(gs, RefsOf) {
      RefOwner(gs, p);
    }
  }

  /** Deleting the `i`-th reference removes exactly its (group, Include) pair. */
  lemma WithoutEntryRefs(g: ItemGroup, i: nat)
    requires i < |Entries(g.projectRefs)|
    ensures multiset(RefsOf(WithoutEntry(g, i)))
      == multiset(RefsOf(g)) - multiset{(g.id, IncludeOf(Entries(g.projectRefs)[i]))}
    ensures (g.id, IncludeOf(Entries(g.projectRefs)[i])) in RefsOf(g)
  {
    var es := Entries(g.projectRefs);
    assert es == es[..i] + ([es[i]] + es[i + 1..]);
    TaggedAppend(g.id, es[..i], [es[i]] + es[i + 1..]);
    assert ([es[i]] + es[i + 1..])[1..] == es[i + 1..];
    TaggedAppend(g.id, es[..i], es[i + 1..]);
    assert Entries(WithoutEntry(g, i).projectRefs) == es[..i] + es[i + 1..];
  }

  lemma PutWellFormed(doc: Project, k: nat, g: ItemGroup)
    requires WellFormed(doc) && k < |doc.itemGroups| && g.id == doc.itemGroups[k].id
    ensures WellFormed(doc.(itemGroups := Put(doc.itemGroups, k, g)))
  {
    var gs := doc.itemGroups;
    if KeyCount(g) == 0 {
      var gs' := gs[..k] + gs[k + 1..];
      forall a, b | 0 <= a < b < |gs'| ensures gs'[a].id != gs'[b].id {
        var a' := if a < k then a else a + 1;
        var b' := if b < k then b else b + 1;
        assert gs'[a] == gs[a'] && gs'[b] == gs[b'];
      }
    }
  }

  /** Ids of the groups before and after position `k` all differ from the id at `k`. */
  lemma OthersNotOwned(doc: Project, k: nat, p: (GroupId, Option<string>))
    requires WellFormed(doc) && k < |doc.itemGroups| && doc.itemGroups[k].id == p.0
    ensures p !in FlatMap(doc.itemGroups[..k], RefsOf)
    ensures p !in FlatMap(doc.itemGroups[k + 1..], RefsOf)
  {
    NotOwned(doc.itemGroups[..k], p);
    NotOwned(doc.itemGroups[k + 1..], p);
  }

  /** `remover` succeeds exactly when its group still holds a reference with that `Include`. */
  lemma RemoveSucceedsIff(doc: Project, id: GroupId, reference: string)
    requires WellFormed(doc)
    ensures Remove(doc, id, reference).Ok? <==> (id, Some(reference)) in ProjectRefsOf(doc)
  {
    var gs := doc.itemGroups;
    var p := (id, Some(reference));
    match GroupIndex(gs, id)
    case None =>
      NotOwned(gs, p);
    case Some(k) =>
      FlatMapAt(gs, k, RefsOf);
      OthersNotOwned(doc, k, p);
      TaggedMembers(id, Entries(gs[k].projectRefs), p);
  }

  /** The shape of a successful `remover` call. */
  lemma RemoveFound(doc: Project, id: GroupId, reference: string) returns (k: nat, i: nat)
    requires Remove(doc, id, reference).Ok?
    ensures k < |doc.itemGroups| && doc.itemGroups[k].id == id
    ensures i < |Entries(doc.itemGroups[k].projectRefs)|
    ensures IncludeOf(Entries(doc.itemGroups[k].projectRefs)[i]) == Some(reference)
    ensures Remove(doc, id, reference).value
      == doc.(itemGroups := Put(doc.itemGroups, k, WithoutEntry(doc.itemGroups[k], i)))
  {
    k := GroupIndex(doc.itemGroups, id).value;
    i := FirstMatch(Entries(doc.itemGroups[k].projectRefs), reference).value;
  }

  /** The views of a group written back after losing its `i`-th reference. */
  lemma WithoutEntryViews(gs: seq<ItemGroup>, k: nat, i: nat)
    requires k < |gs| && i < |Entries(gs[k].projectRefs)|
    ensures FlatMap(Put(gs, k, WithoutEntry(gs[k], i)), PackagesOf) == FlatMap(gs, PackagesOf)
    ensures FlatMap(Put(gs, k, WithoutEntry(gs[k], i)), MarkerOf) == FlatMap(gs, MarkerOf)
  {
    var g' := WithoutEntry(gs[k], i);
    PutFlat(gs, k, g', PackagesOf);
    FlatMapAt(gs, k, PackagesOf);
    PutFlat(gs, k, g', MarkerOf);
    FlatMapAt(gs, k, MarkerOf);
  }

  lemma SpliceOut<T>(a: seq<T>, b: seq<T>, b': seq<T>, c: seq<T>, x: T)
    requires multiset(b') == multiset(b) - multiset{x} && x in b
    ensures multiset(a + b' + c) == multiset(a + b + c) - multiset{x}
  {
  }

  lemma WithoutEntryProjectRefs(gs: seq<ItemGroup>, k: nat, i: nat)
    requires k < |gs| && i < |Entries(gs[k].projectRefs)|
    ensures multiset(FlatMap(Put(gs, k, WithoutEntry(gs[k], i)), RefsOf))
      == multiset(FlatMap(gs, RefsOf)) - multiset{(gs[k].id, IncludeOf(Entries(gs[k].projectRefs)[i]))}
  {
    var g' := WithoutEntry(gs[k], i);
    WithoutEntryRefs(gs[k], i);
    PutFlat(gs, k, g', RefsOf);
    FlatMapAt(gs, k, RefsOf);
    SpliceOut(FlatMap(gs[..k], RefsOf), RefsOf(gs[k]), RefsOf(g'), FlatMap(gs[k + 1..], RefsOf),
      (gs[k].id, IncludeOf(Entries(gs[k].projectRefs)[i])));
  }

  /**
   * A successful `remover` call takes away exactly one reference with that
   * `Include` and changes nothing else the tool reads: package references,
   * marker groups, property groups.
   */
  lemma RemoveSpec(doc: Project, id: GroupId, reference: string)
    requires WellFormed(doc)
    requires Remove(doc, id, reference).Ok?
    ensures multiset(ProjectRefsOf(Remove(doc, id, reference).value))
      == multiset(ProjectRefsOf(doc)) - multiset{(id, Some(reference))}
    ensures PackageRefsOf(Remove(doc, id, reference).value) == PackageRefsOf(doc)
    ensures MarkersOf(Remove(doc, id, reference).value) == MarkersOf(doc)
    ensures Remove(doc, id, reference).value.propertyGroups == doc.propertyGroups
    ensures Remove(doc, id, reference).value.nextId == doc.nextId
    ensures WellFormed(Remove(doc, id, reference).value)
  {
    var k, i := RemoveFound(doc, id, reference);
    WithoutEntryProjectRefs(doc.itemGroups, k, i);
    WithoutEntryViews(doc.itemGroups, k, i);
    PutWellFormed(doc, k, WithoutEntry(doc.itemGroups[k], i));
  }

  /** The item groups other than group `id`, as a view: each contributes itself, group `id` nothing. */
  function Others(id: GroupId): ItemGroup -> seq<ItemGroup> {
    (g: ItemGroup) => if g.id == id then [] else [g]
  }

  /** Cutting the first occurrence of `x` out of a sequence cut into pieces around it. */
  lemma CutFirst<T>(all: seq<T>, res: seq<T>, a: seq<T>, b: seq<T>, x: T, c: seq<T>, d: seq<T>) returns (j: nat)
    requires all == a + (b + [x] + c) + d && res == a + (b + c) + d
    requires x !in a && x !in b
    ensures j < |all| && all[j] == x
    ensures x !in all[..j]
    ensures res == all[..j] + all[j + 1..]
  {
    j := |a| + |b|;
    assert all[..j] == a + b;
    assert all[j + 1..] == c + d;
  }

  /**
   * `remover` takes out the first occurrence of `(id, reference)` in the document's
   * sequence of project references and keeps all the others in their order.
   */
  lemma RemoveOrder(doc: Project, id: GroupId, reference: string) returns (j: nat)
    requires WellFormed(doc)
    requires Remove(doc, id, reference).Ok?
    ensures j < |ProjectRefsOf(doc)| && ProjectRefsOf(doc)[j] == (id, Some(reference))
    ensures (id, Some(reference)) !in ProjectRefsOf(doc)[..j]
    ensures ProjectRefsOf(Remove(doc, id, reference).value) == ProjectRefsOf(doc)[..j] + ProjectRefsOf(doc)[j + 1..]
  {
    var gs := doc.itemGroups;
    var k := GroupIndex(gs, id).value;
    var i := FirstMatch(Entries(gs[k].projectRefs), reference).value;
    var p := (id, Some(reference));
    OthersNotOwned(doc, k, p);
    TaggedMembers(id, Entries(gs[k].projectRefs)[..i], p);
    j := GroupsCut(gs, k, i, p);
  }

  /** Deleting the `i`-th reference of group `k`, the first occurrence of `p`, cuts `p` out of the view at `j`. */
  lemma GroupsCut(gs: seq<ItemGroup>, k: nat, i: nat, p: (GroupId, Option<string>)) returns (j: nat)
    requires k < |gs| && i < |Entries(gs[k].projectRefs)|
    requires p == (gs[k].id, IncludeOf(Entries(gs[k].projectRefs)[i]))
    requires p !in FlatMap(gs[..k], RefsOf) && p !in Tagged(gs[k].id, Entries(gs[k].projectRefs)[..i])
    ensures j < |FlatMap(gs, RefsOf)| && FlatMap(gs, RefsOf)[j] == p
    ensures p !in FlatMap(gs, RefsOf)[..j]
    ensures FlatMap(Put(gs, k, WithoutEntry(gs[k], i)), RefsOf) == FlatMap(gs, RefsOf)[..j] + FlatMap(gs, RefsOf)[j + 1..]
  {
    var a, before, after, c := ViewAround(gs, k, i);
    j := CutFirst(FlatMap(gs, RefsOf), FlatMap(Put(gs, k, WithoutEntry(gs[k], i)), RefsOf), a, before, p, after, c);
  }

  /** The view of the groups around the `i`-th reference of group `k`, before and after it is deleted. */
  lemma ViewAround(gs: seq<ItemGroup>, k: nat, i: nat)
      returns (a: seq<(GroupId, Option<string>)>, before: seq<(GroupId, Option<string>)>,
               after: seq<(GroupId, Option<string>)>, c: seq<(GroupId, Option<string>)>)
    requires k < |gs| && i < |Entries(gs[k].projectRefs)|
    ensures a == FlatMap(gs[..k], RefsOf) && before == Tagged(gs[k].id, Entries(gs[k].projectRefs)[..i])
    ensures FlatMap(gs, RefsOf) == a + (before + [(gs[k].id, IncludeOf(Entries(gs[k].projectRefs)[i]))] + after) + c
    ensures FlatMap(Put(gs, k, WithoutEntry(gs[k], i)), RefsOf) == a + (before + after) + c
  {
    var es := Entries(gs[k].projectRefs);
    a, before, after, c := FlatMap(gs[..k], RefsOf), Tagged(gs[k].id, es[..i]), Tagged(gs[k].id, es[i + 1..]), FlatMap(gs[k + 1..], RefsOf);
    WithoutEntryTagged(gs[k], i);
    FlatMapAt(gs, k, RefsOf);
    PutFlat(gs, k, WithoutEntry(gs[k], i), RefsOf);
  }

  /** The tagged view of a group around its `i`-th reference, before and after that reference is deleted. */
  lemma WithoutEntryTagged(g: ItemGroup, i: nat)
    requires i < |Entries(g.projectRefs)|
    ensures var es := Entries(g.projectRefs);
      RefsOf(g) == Tagged(g.id, es[..i]) + [(g.id, IncludeOf(es[i]))] + Tagged(g.id, es[i + 1..])
    ensures var es := Entries(g.projectRefs);
      RefsOf(WithoutEntry(g, i)) == Tagged(g.id, es[..i]) + Tagged(g.id, es[i + 1..])
  {
    var es := Entries(g.projectRefs);
    assert Entries(WithoutEntry(g, i).projectRefs) == es[..i] + es[i + 1..];
    TaggedSplit(g.id, es, i);
  }

  /** The tagged view around position `i`, before and after the `i`-th element is deleted. */
  lemma TaggedSplit(id: GroupId, es: seq<Element>, i: nat)
    requires i < |es|
    ensures Tagged(id, es) == Tagged(id, es[..i]) + [(id, IncludeOf(es[i]))] + Tagged(id, es[i + 1..])
    ensures Tagged(id, es[..i] + es[i + 1..]) == Tagged(id, es[..i]) + Tagged(id, es[i + 1..])
  {
    assert es == es[..i] + ([es[i]] + es[i + 1..]);
    TaggedAppend(id, es[..i], [es[i]] + es[i + 1..]);
    TaggedAppend(id, [es[i]], es[i + 1..]);
    assert Tagged(id, [es[i]]) == [(id, IncludeOf(es[i]))];
    TaggedAppend(id, es[..i], es[i + 1..]);
  }

  /**
   * `remover` touches only group `id`: it deletes that group's first reference
   * whose `Include` is `reference`, keeps the group's other keys and the order of
   * the remaining references, and deletes the group itself only when it has no key
   * left; every other item group stays as it was, in its order.
   */
  lemma RemoveGroup(doc: Project, id: GroupId, reference: string) returns (k: nat, i: nat)
    requires Remove(doc, id, reference).Ok?
    ensures k < |doc.itemGroups| && doc.itemGroups[k].id == id
    ensures i < |Entries(doc.itemGroups[k].projectRefs)|
    ensures IncludeOf(Entries(doc.itemGroups[k].projectRefs)[i]) == Some(reference)
    ensures forall l :: 0 <= l < i ==> IncludeOf(Entries(doc.itemGroups[k].projectRefs)[l]) != Some(reference)
    ensures FlatMap(Remove(doc, id, reference).value.itemGroups, Others(id)) == FlatMap(doc.itemGroups, Others(id))
    ensures var g, g' := doc.itemGroups[k], Remove(doc, id, reference).value.itemGroups;
      var rest := Entries(g.projectRefs)[..i] + Entries(g.projectRefs)[i + 1..];
      |g'| == |doc.itemGroups| ==>
        && g'[k].id == id && g'[k].attrs == g.attrs && g'[k].packageRefs == g.packageRefs
        && g'[k].otherKeys == g.otherKeys && Entries(g'[k].projectRefs) == rest
        && (rest == [] ==> g'[k].projectRefs.None?)
    ensures var g, g' := doc.itemGroups[k], Remove(doc, id, reference).value.itemGroups;
      var rest := Entries(g.projectRefs)[..i] + Entries(g.projectRefs)[i + 1..];
      (rest == [] && g.attrs.None? && g.packageRefs.None? && g.otherKeys == 0) <==> |g'| == |doc.itemGroups| - 1
    ensures var g' := Remove(doc, id, reference).value.itemGroups;
      |g'| == |doc.itemGroups| || |g'| == |doc.itemGroups| - 1
  {
    var gs := doc.itemGroups;
    k := GroupIndex(gs, id).value;
    i := FirstMatch(Entries(gs[k].projectRefs), reference).value;
    var g' := WithoutEntry(gs[k], i);
    PutFlat(gs, k, g', Others(id));
    FlatMapAt(gs, k, Others(id));
  }

  lemma {:induction false} NoMarkers(gs: seq<ItemGroup>)
    requires forall k :: 0 <= k < |gs| ==> !IsMarker(gs[k])
    ensures FlatMap(gs, MarkerOf) == []
  {
    if gs != [] {
      NoMarkers(gs[1..]);
    }
  }

  /** The group `newItemGroupFinder` returns is the first entry of the marker view. */
  lemma FirstMarkerView(gs: seq<ItemGroup>)
    ensures FirstMarker(gs).None? <==> FlatMap(gs, MarkerOf) == []
    ensures FirstMarker(gs).Some? ==>
      FlatMap(gs, MarkerOf)
        == [(gs[FirstMarker(gs).value].id, gs[FirstMarker(gs).value].packageRefs)]
           + FlatMap(gs[FirstMarker(gs).value + 1..], MarkerOf)
  {
    match FirstMarker(gs)
    case None => NoMarkers(gs);
    case Some(k) =>
      FlatMapAt(gs, k, MarkerOf);
      NoMarkers(gs[..k]);
  }

  /** The marker view after one more package reference: the first marker's list grows, or a new marker appears. */
  function WithPackage(ms: seq<(GroupId, Option<seq<Element>>)>, newId: GroupId, pkg: Element): seq<(GroupId, Option<seq<Element>>)>
    requires ms == [] || ms[0].1.Some?
  {
    if ms == [] then [(newId, Some([pkg]))] else [(ms[0].0, Some(ms[0].1.value + [pkg]))] + ms[1..]
  }

  /** The marker group can take a push: there is none yet, or the first one has a PackageReference list. */
  predicate MarkerReady(doc: Project) {
    MarkersOf(doc) == [] || MarkersOf(doc)[0].1.Some?
  }

  lemma AddToMarkerSucceedsIff(doc: Project, pkg: Element)
    ensures AddToMarker(doc, pkg).Ok? <==> MarkerReady(doc)
  {
    FirstMarkerView(doc.itemGroups);
  }

  /** The marker group at `k` with `pkg` pushed onto its PackageReference list. */
  function Pushed(gs: seq<ItemGroup>, k: nat, pkg: Element): seq<ItemGroup>
    requires k < |gs| && gs[k].packageRefs.Some?
  {
    gs[k := gs[k].(packageRefs := Some(gs[k].packageRefs.value + [pkg]))]
  }

  lemma PushedAt<T>(gs: seq<ItemGroup>, k: nat, pkg: Element, f: ItemGroup -> seq<T>)
    requires k < |gs| && gs[k].packageRefs.Some?
    ensures FlatMap(Pushed(gs, k, pkg), f) == FlatMap(gs[..k], f) + f(Pushed(gs, k, pkg)[k]) + FlatMap(gs[k + 1..], f)
    ensures FlatMap(gs, f) == FlatMap(gs[..k], f) + f(gs[k]) + FlatMap(gs[k + 1..], f)
  {
    var gs' := Pushed(gs, k, pkg);
    assert gs'[..k] == gs[..k] && gs'[k + 1..] == gs[k + 1..];
    FlatMapAt(gs, k, f);
    FlatMapAt(gs', k, f);
  }

  lemma PushedPackages(gs: seq<ItemGroup>, k: nat, pkg: Element)
    requires k < |gs| && gs[k].packageRefs.Some?
    ensures multiset(FlatMap(Pushed(gs, k, pkg), PackagesOf)) == multiset(FlatMap(gs, PackagesOf)) + multiset{pkg}
  {
    PushedAt(gs, k, pkg, PackagesOf);
    var A, B := multiset(FlatMap(gs[..k], PackagesOf)), multiset(FlatMap(gs[k + 1..], PackagesOf));
    assert multiset(FlatMap(gs, PackagesOf)) == A + multiset(gs[k].packageRefs.value) + B;
  }

  lemma PushedRefs(gs: seq<ItemGroup>, k: nat, pkg: Element)
    requires k < |gs| && gs[k].packageRefs.Some?
    ensures FlatMap(Pushed(gs, k, pkg), RefsOf) == FlatMap(gs, RefsOf)
  {
    PushedAt(gs, k, pkg, RefsOf);
  }

  lemma DropEmpty<T>(a: seq<T>, b: seq<T>, c: seq<T>)
    requires a == []
    ensures a + b + c == b + c
  {
    assert a + b == b;
  }

  lemma PushedMarkers(gs: seq<ItemGroup>, k: nat, pkg: Element)
    requires k < |gs| && gs[k].packageRefs.Some?
    requires FirstMarker(gs) == Some(k)
    ensures FlatMap(Pushed(gs, k, pkg), MarkerOf)
      == [(gs[k].id, Some(gs[k].packageRefs.value + [pkg]))] + FlatMap(gs[k + 1..], MarkerOf)
  {
    PushedAt(gs, k, pkg, MarkerOf);
    var g' := Pushed(gs, k, pkg)[k];
    assert g'.attrs == gs[k].attrs && g'.id == gs[k].id;
    assert MarkerOf(g') == [(gs[k].id, Some(gs[k].packageRefs.value + [pkg]))];
    assert forall j :: 0 <= j < k ==> gs[..k][j] == gs[j];
    NoMarkers(gs[..k]);
    DropEmpty(FlatMap(gs[..k], MarkerOf), MarkerOf(g'), FlatMap(gs[k + 1..], MarkerOf));
  }

  /** Appending a fresh marker group. */
  lemma AppendMarker(doc: Project, pkg: Element)
    requires FirstMarker(doc.itemGroups).None?
    requires MarkerReady(doc)
    ensures var gs' := doc.itemGroups + [NewMarker(doc.nextId, pkg)];
      && multiset(FlatMap(gs', PackagesOf)) == multiset(PackageRefsOf(doc)) + multiset{pkg}
      && FlatMap(gs', RefsOf) == ProjectRefsOf(doc)
      && FlatMap(gs', MarkerOf) == WithPackage(MarkersOf(doc), doc.nextId, pkg)
  {
    var gs := doc.itemGroups;
    var m := NewMarker(doc.nextId, pkg);
    FirstMarkerView(gs);
    FlatMapAppend(gs, [m], RefsOf);
    FlatMapAppend(gs, [m], PackagesOf);
    FlatMapAppend(gs, [m], MarkerOf);
    assert FlatMap([m], RefsOf) == [];
    assert FlatMap([m], PackagesOf) == [pkg];
    assert FlatMap([m], MarkerOf) == [(doc.nextId, Some([pkg]))];
  }

  /** The push onto an existing marker group at `k`, the first one. */
  lemma PushSpec(doc: Project, k: nat, pkg: Element)
    requires WellFormed(doc)
    requires FirstMarker(doc.itemGroups) == Some(k) && doc.itemGroups[k].packageRefs.Some?
    ensures MarkerReady(doc)
    ensures var d := doc.(itemGroups := Pushed(doc.itemGroups, k, pkg));
      && multiset(PackageRefsOf(d)) == multiset(PackageRefsOf(doc)) + multiset{pkg}
      && ProjectRefsOf(d) == ProjectRefsOf(doc)
      && MarkersOf(d) == WithPackage(MarkersOf(doc), doc.nextId, pkg)
      && WellFormed(d)
  {
    var gs := doc.itemGroups;
    FirstMarkerView(gs);
    PushedPackages(gs, k, pkg);
    PushedRefs(gs, k, pkg);
    PushedMarkers(gs, k, pkg);
    assert forall j :: 0 <= j < |gs| ==> Pushed(gs, k, pkg)[j].id == gs[j].id;
  }

  /** The fresh marker group appended when there is none. */
  lemma AppendSpec(doc: Project, pkg: Element)
    requires WellFormed(doc)
    requires FirstMarker(doc.itemGroups).None?
    ensures MarkerReady(doc)
    ensures var d := doc.(itemGroups := doc.itemGroups + [NewMarker(doc.nextId, pkg)], nextId := doc.nextId + 1);
      && multiset(PackageRefsOf(d)) == multiset(PackageRefsOf(doc)) + multiset{pkg}
      && ProjectRefsOf(d) == ProjectRefsOf(doc)
      && MarkersOf(d) == WithPackage(MarkersOf(doc), doc.nextId, pkg)
      && WellFormed(d)
  {
    FirstMarkerView(doc.itemGroups);
    AppendMarker(doc, pkg);
    AppendWellFormed(doc, NewMarker(doc.nextId, pkg));
  }

  /** A group appended under the next fresh id keeps the ids below the counter and distinct. */
  lemma AppendWellFormed(doc: Project, g: ItemGroup)
    requires WellFormed(doc) && g.id == doc.nextId
    ensures WellFormed(doc.(itemGroups := doc.itemGroups + [g], nextId := doc.nextId + 1))
  {
    var gs := doc.itemGroups + [g];
    assert forall k :: 0 <= k < |doc.itemGroups| ==> gs[k] == doc.itemGroups[k];
  }

  /**
   * `newItemGroupFinder` and the push: one package reference more, in the first
   * marker group, which is created only when there is none; nothing else changes.
   */
  lemma AddToMarkerSpec(doc: Project, pkg: Element)
    requires WellFormed(doc)
    requires AddToMarker(doc, pkg).Ok?
    ensures MarkerReady(doc)
    ensures multiset(PackageRefsOf(AddToMarker(doc, pkg).value)) == multiset(PackageRefsOf(doc)) + multiset{pkg}
    ensures ProjectRefsOf(AddToMarker(doc, pkg).value) == ProjectRefsOf(doc)
    ensures MarkersOf(AddToMarker(doc, pkg).value) == WithPackage(MarkersOf(doc), doc.nextId, pkg)
    ensures AddToMarker(doc, pkg).value.propertyGroups == doc.propertyGroups
    ensures WellFormed(AddToMarker(doc, pkg).value)
  {
    AddToMarkerSucceedsIff(doc, pkg);
    match FirstMarker(doc.itemGroups)
    case Some(k) =>
      PushSpec(doc, k, pkg);
    case None =>
      AppendSpec(doc, pkg);
  }

  /**
   * The `replacer` closure succeeds exactly when the reference is still in its
   * group and the marker group can take a push.
   */
  lemma ReplaceSucceedsIff(doc: Project, s: Setter, packageName: string)
    requires WellFormed(doc)
    ensures Replace(doc, s, packageName).Ok? <==>
      (s.group, Some(s.reference)) in ProjectRefsOf(doc) && MarkerReady(doc)
  {
    RemoveSucceedsIff(doc, s.group, s.reference);
    if Remove(doc, s.group, s.reference).Ok? {
      RemoveSpec(doc, s.group, s.reference);
      AddToMarkerSucceedsIff(Remove(doc, s.group, s.reference).value, PackageElement(packageName, s.packageVersion));
    }
  }

  /**
   * A successful `replacer` call trades one project reference for one package
   * reference `{Include: packageName, Version: packageVersion}`, which lands in
   * the first marker group (created only when there is none).
   */
  lemma ReplaceSpec(doc: Project, s: Setter, packageName: string)
    requires WellFormed(doc)
    requires Replace(doc, s, packageName).Ok?
    ensures multiset(ProjectRefsOf(Replace(doc, s, packageName).value))
      == multiset(ProjectRefsOf(doc)) - multiset{(s.group, Some(s.reference))}
    ensures multiset(PackageRefsOf(Replace(doc, s, packageName).value))
      == multiset(PackageRefsOf(doc)) + multiset{PackageElement(packageName, s.packageVersion)}
    ensures MarkerReady(doc)
    ensures MarkersOf(Replace(doc, s, packageName).value)
      == WithPackage(MarkersOf(doc), doc.nextId, PackageElement(packageName, s.packageVersion))
    ensures Replace(doc, s, packageName).value.propertyGroups == doc.propertyGroups
    ensures WellFormed(Replace(doc, s, packageName).value)
  {
    var d := Remove(doc, s.group, s.reference).value;
    RemoveSpec(doc, s.group, s.reference);
    AddToMarkerSpec(d, PackageElement(packageName, s.packageVersion));
  }

  lemma WithPackageTwice(id1: GroupId, id2: GroupId, p1: Element, p2: Element)
    ensures WithPackage(WithPackage([], id1, p1), id2, p2) == [(id1, Some([p1, p2]))]
  {
    assert [p1] + [p2] == [p1, p2];
  }

  /**
   * Two replacements on a document without a marker group share one marker
   * group, which holds both package references in the order they were made.
   */
  lemma TwoReplacementsShareMarker(doc: Project, s1: Setter, n1: string, d1: Project, s2: Setter, n2: string, d2: Project)
    requires WellFormed(doc) && MarkersOf(doc) == []
    requires Replace(doc, s1, n1) == Ok(d1)
    requires Replace(d1, s2, n2) == Ok(d2)
    ensures MarkersOf(d2)
      == [(doc.nextId, Some([PackageElement(n1, s1.packageVersion), PackageElement(n2, s2.packageVersion)]))]
  {
    var p1, p2 := PackageElement(n1, s1.packageVersion), PackageElement(n2, s2.packageVersion);
    ReplaceSpec(doc, s1, n1);
    ReplaceSpec(d1, s2, n2);
    WithPackageTwice(doc.nextId, d1.nextId, p1, p2);
  }
}
