/**
 * The parsed project document, as the markup parser hands it over: a `Project`
 * root with an array of property groups and an array of item groups.  An item
 * group is an object whose keys are `$` (its attributes), `ProjectReference`,
 * `PackageReference` and any number of other children, which the tool never
 * looks into.  Item groups are held by reference in the original; here each
 * carries an `id` that is unique within its document.
 */
module Document {
  import opened Common

  type GroupId = nat

  /** The `$` object of an element: attribute name to value. */
  type Attributes = map<string, string>

  /** A ProjectReference or PackageReference element; only its attributes matter. */
  datatype Element = Element(attrs: Option<Attributes>)

  /** The ProjectReference key of an item group: a lone element or an array of them. */
  datatype ProjectRefs = One(entry: Element) | Many(entries: seq<Element>)

  datatype ItemGroup = ItemGroup(
    id: GroupId,
    attrs: Option<Attributes>,
    projectRefs: Option<ProjectRefs>,
    packageRefs: Option<seq<Element>>,
    otherKeys: nat)

  /** A property group: its PackageId values, its Version and the children the tool ignores. */
  datatype PropertyGroup = PropertyGroup(packageIds: seq<string>, version: Option<string>, otherKeys: nat)

  /** The document root; `nextId` is larger than every item group id in use. */
  datatype Project = Project(propertyGroups: seq<PropertyGroup>, itemGroups: seq<ItemGroup>, nextId: GroupId)

  /** What a setter is bound to: its item group, the relative path it was read from, and the run's version. */
  datatype Setter = Replacer(group: GroupId, reference: string, packageVersion: string)

  const MarkerLabel: string := "DependencyReplace"

  /** Item group ids are unique and below `nextId`, as object identities are. */
  ghost predicate WellFormed(doc: Project) {
    && (forall k :: 0 <= k < |doc.itemGroups| ==> doc.itemGroups[k].id < doc.nextId)
    && (forall k, l :: 0 <= k < l < |doc.itemGroups| ==> doc.itemGroups[k].id != doc.itemGroups[l].id)
  }

  /** A ProjectReference key normalised to a list: a lone element is a list of one, an absent key is empty. */
  function Entries(refs: Option<ProjectRefs>): (es: seq<Element>)
    // the ensures clauses below only unfold the match, for the proofs that use it
    ensures refs.None? ==> es == []
    ensures refs.Some? && refs.value.One? ==> es == [refs.value.entry]
    ensures refs.Some? && refs.value.Many? ==> es == refs.value.entries
  {
    match refs
    case None => []
    case Some(One(e)) => [e]
    case Some(Many(es)) => es
  }

  /** `e.$.Include`, when both `$` and its `Include` exist. */
  function IncludeOf(e: Element): Option<string> {
    if e.attrs.Some? && "Include" in e.attrs.value then Some(e.attrs.value["Include"]) else None
  }

  /** The JavaScript test `pr.$ && pr.$.Include`: present and not the empty string. */
  predicate HasInclude(e: Element) {
    IncludeOf(e).Some? && IncludeOf(e).value != ""
  }

  /** The test `ig.$ && ig.$.Label === "DependencyReplace"`. */
  predicate IsMarker(g: ItemGroup) {
    g.attrs.Some? && "Label" in g.attrs.value && g.attrs.value["Label"] == MarkerLabel
  }

  /** `Object.keys(itemGroup).length`. */
  function KeyCount(g: ItemGroup): nat {
    (if g.attrs.Some? then 1 else 0) + (if g.projectRefs.Some? then 1 else 0)
      + (if g.packageRefs.Some? then 1 else 0) + g.otherKeys
  }

  /** The package reference element `{$: {Include: packageName, Version: packageVersion}}`. */
  function PackageElement(packageName: string, packageVersion: string): Element {
    Element(Some(map["Include" := packageName, "Version" := packageVersion]))
  }

  /** Position of the item group with identity `id` (the `indexOf` of the original). */
  function GroupIndex(gs: seq<ItemGroup>, id: GroupId): (r: Option<nat>)
    ensures r.Some? ==> r.value < |gs| && gs[r.value].id == id
    ensures r.Some? ==> forall k :: 0 <= k < r.value ==> gs[k].id != id
    ensures r.None? ==> forall k :: 0 <= k < |gs| ==> gs[k].id != id
  {
    if gs == [] then None
    else if gs[0].id == id then Some(0)
    else match GroupIndex(gs[1..], id)
      case None => None
      case Some(k) => Some(k + 1)
  }

  /** Position of the first element whose `Include` is `reference`. */
  function FirstMatch(es: seq<Element>, reference: string): (r: Option<nat>)
    ensures r.Some? ==> r.value < |es| && IncludeOf(es[r.value]) == Some(reference)
    ensures r.Some? ==> forall i :: 0 <= i < r.value ==> IncludeOf(es[i]) != Some(reference)
    ensures r.None? ==> forall i :: 0 <= i < |es| ==> IncludeOf(es[i]) != Some(reference)
  {
    if es == [] then None
    else if IncludeOf(es[0]) == Some(reference) then Some(0)
    else match FirstMatch(es[1..], reference)
      case None => None
      case Some(i) => Some(i + 1)
  }

  /** Position of the first item group labelled as the marker group. */
  function FirstMarker(gs: seq<ItemGroup>): (r: Option<nat>)
    ensures r.Some? ==> r.value < |gs| && IsMarker(gs[r.value])
    ensures r.Some? ==> forall k :: 0 <= k < r.value ==> !IsMarker(gs[k])
    ensures r.None? ==> forall k :: 0 <= k < |gs| ==> !IsMarker(gs[k])
  {
    if gs == [] then None
    else if IsMarker(gs[0]) then Some(0)
    else match FirstMarker(gs[1..])
      case None => None
      case Some(k) => Some(k + 1)
  }

  /** Writes back group `k`, or splices it out when it has no keys left. */
  function Put(gs: seq<ItemGroup>, k: nat, g: ItemGroup): seq<ItemGroup>
    requires k < |gs|
  {
    if KeyCount(g) == 0 then gs[..k] + gs[k + 1..] else gs[k := g]
  }

  /** The group after deleting its `i`-th reference; the key goes when the list empties. */
  function WithoutEntry(g: ItemGroup, i: nat): ItemGroup
    requires i < |Entries(g.projectRefs)|
  {
    var es := Entries(g.projectRefs);
    var rest := es[..i] + es[i + 1..];
    g.(projectRefs := if rest == [] then None else Some(Many(rest)))
  }

  /**
   * The `remover` closure: deletes from item group `id` the first ProjectReference
   * whose `Include` is `reference`; fails when there is none (or the group is gone).
   */
  function Remove(doc: Project, id: GroupId, reference: string): Result<Project> {
    match GroupIndex(doc.itemGroups, id)
    case None => Err(CannotFindReference(reference))
    case Some(k) =>
      match FirstMatch(Entries(doc.itemGroups[k].projectRefs), reference)
      case None => Err(CannotFindReference(reference))
      case Some(i) => Ok(doc.(itemGroups := Put(doc.itemGroups, k, WithoutEntry(doc.itemGroups[k], i))))
  }

  /** The item group `newItemGroupFinder` creates: labelled as the marker, with an empty PackageReference list. */
  function EmptyMarker(id: GroupId): ItemGroup {
    ItemGroup(id, Some(map["Label" := MarkerLabel]), None, Some([]), 0)
  }

  /** The new marker item group, holding its first package reference. */
  function NewMarker(id: GroupId, pkg: Element): ItemGroup {
    EmptyMarker(id).(packageRefs := Some([pkg]))
  }

  /** `newItemGroupFinder` followed by the push: appends `pkg` to the first marker group, creating one if needed. */
  function AddToMarker(doc: Project, pkg: Element): Result<Project> {
    match FirstMarker(doc.itemGroups)
    case Some(k) =>
      var g := doc.itemGroups[k];
      if g.packageRefs.None? then Err(NoPackageReferenceList)
      else Ok(doc.(itemGroups := doc.itemGroups[k := g.(packageRefs := Some(g.packageRefs.value + [pkg]))]))
    case None =>
      Ok(doc.(itemGroups := doc.itemGroups + [NewMarker(doc.nextId, pkg)], nextId := doc.nextId + 1))
  }

  /** The `replacer` closure: removes the project reference, then adds the package reference. */
  function Replace(doc: Project, s: Setter, packageName: string): Result<Project> {
    match Remove(doc, s.group, s.reference)
    case Err(e) => Err(e)
    case Ok(d) => AddToMarker(d, PackageElement(packageName, s.packageVersion))
  }
}
