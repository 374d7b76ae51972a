/**
 * The values the fuel-switch module works with: a part resource, one resource
 * selection (a RESOURCE_OPTION of the part config) and the per-part-type set of
 * selections. The set of selections is consumed through its interface only:
 * its operations are function-valued fields, so nothing is assumed about how
 * it cycles, chooses its default or finds a linked variant.
 */
module SwitchableResources {

  datatype Option<T> = None | Some(value: T)

  /**
   * One resource on a part: the four values a PartResource carries and a
   * RESOURCE node is built from. Amounts are only ever copied, never computed
   * with, so a mathematical real stands in for the host's double.
   */
  datatype Resource = Resource(resourceName: string, amount: real, maxAmount: real, flowState: bool)

  /** One selectable configuration: its id, its menu name and its resources, in order. */
  datatype Selection = Selection(resourcesId: string, displayName: string, resources: seq<Resource>)
  {
    /** The selection has a resource named `name` (its TryFind(name) is not null). */
    predicate Lists(name: string)
    {
      exists k :: 0 <= k < |resources| && resources[k].resourceName == name
    }
  }

  /**
   * The set of selections available for one part type. `lookup` is the indexer
   * (null becomes None), `nextResourcesId` the manual-switch cycle,
   * `tryFindLinkedVariant` the selection tied to a variant name, if any.
   */
  datatype SwitchableResourceSet = SwitchableResourceSet(
    selectorFieldName: string,
    defaultResourcesId: string,
    lookup: string -> Option<Selection>,
    nextResourcesId: string -> string,
    tryFindLinkedVariant: string -> Option<Selection>)

  /** The placeholder id a part starts with when its config names no selection. */
  const DefaultFlag: string := "_default"

  /** The id a module settles on: the placeholder becomes the set's default id. */
  function Resolve(resourceSet: SwitchableResourceSet, id: string): (r: string)
    ensures id != DefaultFlag ==> r == id
    ensures r == DefaultFlag ==> resourceSet.defaultResourcesId == DefaultFlag
  {
    if id == DefaultFlag then resourceSet.defaultResourcesId else id
  }

  /** Resolving an id that was already resolved changes nothing. */
  lemma ResolveIdempotent(resourceSet: SwitchableResourceSet, id: string)
    ensures Resolve(resourceSet, Resolve(resourceSet, id)) == Resolve(resourceSet, id)
  {
  }

  /** The menu text of the switch button: "<selector>: <selection name>". */
  function Label(resourceSet: SwitchableResourceSet, selection: Selection): (r: string)
    ensures |r| == |resourceSet.selectorFieldName| + 2 + |selection.displayName|
    ensures r[..|resourceSet.selectorFieldName|] == resourceSet.selectorFieldName
    ensures r[|resourceSet.selectorFieldName|..|resourceSet.selectorFieldName| + 2] == ": "
    ensures r[|r| - |selection.displayName|..] == selection.displayName
  {
    resourceSet.selectorFieldName + ": " + selection.displayName
  }
}
