# SimpleFuelSwitch: the resource-switching part module, in Dafny

This project models `ModuleSimpleFuelSwitch`, the part module of the
SimpleFuelSwitch mod. In the vehicle editor, the module lets a part switch
between several resource configurations ("selections"). The model covers:

- applying a selection to a part: the `"_default"` placeholder is resolved,
  the part's resource list is replaced by the selection's, and the same id is
  pushed one level out to the symmetry counterparts that carry the module;
- the manual switch button and the variant-driven switch;
- the load-time clean-up, run over every part of a loaded ship. It removes
  resources the active selection does not list, except that an unlisted
  resource directly after a removed one is kept (see Findings below);
- the attach-time sanitising of a part tree and of its symmetry counterparts;
- the module lookup `TryFind` and the populate-once resource-set cache.

Files:

- `resources.dfy` (module `SwitchableResources`) holds the values. A part
  resource, a selection and the set of selections for one part type are
  datatypes. The set of selections is known only through its interface: its
  operations (lookup by id, next id, default id, linked variant) are
  function-valued fields.
- `loadstrip.dfy` (module `LoadStrip`) states, as functions on sequences, what
  the load-time clean-up leaves. `Strip` is the index walk as written.
  `Listed` is the intended result. Lemmas relate the two.
- `fuelswitch.dfy` (module `SimpleFuelSwitch`) holds the imperative model.
  `Part` and `ModuleSimpleFuelSwitch` are classes. The handlers are methods
  that change the fields in place and are proved against the predicates
  `Shows`, `CounterpartsShow` and `LoadedInEditor` and the functions of
  `LoadStrip`.

The host's `SwitchableResourceSet.ForPart` is the parameter `forPart`. It is a
total function from part name to set of selections.

## Model

| member | source | states |
|---|---|---|
| SwitchableResources.ResolveIdempotent | src/ModuleSimpleFuelSwitch.cs:211-215 | resolving the placeholder is idempotent: a resolved id resolves to itself |
| SwitchableResources.Resolve | src/ModuleSimpleFuelSwitch.cs:211-213 | any id other than the placeholder is kept; the result is the placeholder only when the set's default id is itself the placeholder |
| SwitchableResources.Label | src/ModuleSimpleFuelSwitch.cs:218-221 | the button text is the selector field name, then ": ", then the selection's display name |
| LoadStrip.Strip | src/ModuleSimpleFuelSwitch.cs:122-131 | the as-written walk's result on the original list, never longer than the list; what it keeps and drops is stated by the Strip lemmas below |
| LoadStrip.Listed | src/ModuleSimpleFuelSwitch.cs:122-131 | the intended clean-up result is no longer than the input and holds only resources the selection lists |
| LoadStrip.StripIsSubsequence | src/ModuleSimpleFuelSwitch.cs:122-131 | the index walk only deletes: the survivors keep their relative order |
| LoadStrip.StripKeepsListed | src/ModuleSimpleFuelSwitch.cs:122-131 | the index walk never removes a resource the selection lists, and keeps those in order |
| LoadStrip.StripShrinksIffStray | src/ModuleSimpleFuelSwitch.cs:122-131 | the walk shortens the list exactly when the list holds at least one resource the selection does not list |
| LoadStrip.StripCompleteWithoutAdjacentStrays | src/ModuleSimpleFuelSwitch.cs:122-131 | when no two unlisted resources are adjacent, the walk leaves exactly the listed resources |
| LoadStrip.StripCompleteOnlyWithoutAdjacentStrays | src/ModuleSimpleFuelSwitch.cs:122-131 | conversely, when the walk leaves exactly the listed resources, no two unlisted resources are adjacent; so the walk misses an unlisted resource exactly when two of them stand next to each other |
| LoadStrip.StrayAfterRemovedStraySurvives | src/ModuleSimpleFuelSwitch.cs:122-131 | an unlisted resource directly after the first removed one survives, at that resource's former index, so the walk's result differs from the listed resources |
| LoadStrip.ListedShrinksIffStray | src/ModuleSimpleFuelSwitch.cs:122-131 | the intended clean-up shortens the list exactly when the list holds an unlisted resource |
| SimpleFuelSwitch.FirstSwitch | src/ModuleSimpleFuelSwitch.cs:261-270 | there is no result exactly when no entry is a fuel-switch module; otherwise the result is the module at the first such entry |
| SimpleFuelSwitch.TryFind | src/ModuleSimpleFuelSwitch.cs:261-270 | a null part gives null; otherwise the first fuel-switch module of the module list, or null when there is none |
| SimpleFuelSwitch.SanitizeResources | src/ModuleSimpleFuelSwitch.cs:278-304 | returns whether the part has the module; the resource list ends equal to the original element by element (name, amount, maxAmount, flowState, in order); the simulation is reset only when the part has the module |
| SimpleFuelSwitch.OnTreeAttached | src/ModuleSimpleFuelSwitch.cs:146-155 | returns true exactly when some part of the subtree has the module; every part of the subtree keeps its resources, and exactly the ones with the module get a simulation reset |
| SimpleFuelSwitch.OnPartAttached | src/ModuleSimpleFuelSwitch.cs:69-78 | the attached tree is always sanitised; a counterpart's tree is sanitised only when the attached tree holds the module; resources are unchanged everywhere |
| SimpleFuelSwitch.AttachCounterparts | src/ModuleSimpleFuelSwitch.cs:73-76 | every part of every counterpart's tree keeps its resources, and exactly those with the module are reset |
| SimpleFuelSwitch.SwitchPair | src/ModuleSimpleFuelSwitch.cs:207-246 | on a tank and one counterpart, both attached by the host and carrying the module, switching the tank with propagation makes both modules show the selection, so both parts hold its resources and were reset |
| SimpleFuelSwitch.SwitchAndLoadPair | src/ModuleSimpleFuelSwitch.cs:84-92 | after that switch, the load-time clean-up of the ship made of the two parts leaves both holding exactly the selection's resources, since none is stray |
| SimpleFuelSwitch.OnShipLoaded | src/ModuleSimpleFuelSwitch.cs:84-92 | every part of the ship ends as the load-time clean-up leaves it: unchanged without the module; otherwise the module's cache is loaded, its id and label are kept, and the part is stripped by the index walk when the id names a selection and unchanged when it does not |
| SimpleFuelSwitch.LoadNext | src/ModuleSimpleFuelSwitch.cs:86-91 | one iteration of the ship loop: part i ends as the load-time clean-up leaves it, the parts before it stay cleaned up, and every later part is as it was |
| SimpleFuelSwitch.LoadPart | src/ModuleSimpleFuelSwitch.cs:88-90 | one part of a loaded ship ends as the load-time clean-up leaves it (id and label kept), and nothing outside that part and its module changes |
| SimpleFuelSwitch.ModuleSimpleFuelSwitch.constructor | src/ModuleSimpleFuelSwitch.cs:15-27 | a new module has no cached resource set, the placeholder id and the button label "Switch Resources" |
| SimpleFuelSwitch.ModuleSimpleFuelSwitch.InitializeAvailableResources | src/ModuleSimpleFuelSwitch.cs:248-254 | afterwards the cache holds the set it held before, or, when it was empty, the loader's set for the part's name; an existing cache is kept |
| SimpleFuelSwitch.ModuleSimpleFuelSwitch.ApplySelection | src/ModuleSimpleFuelSwitch.cs:209-230 | the module ends showing its id resolved in its resource set: cache loaded, id resolved, resources exactly the selection's, simulation reset, label "<selector>: <selection name>" |
| SimpleFuelSwitch.ModuleSimpleFuelSwitch.ReplaceResources | src/ModuleSimpleFuelSwitch.cs:224-229 | the part's resource list ends equal to the selection's resources, in order, whatever it held before |
| SimpleFuelSwitch.ModuleSimpleFuelSwitch.UpdateSelectedResources | src/ModuleSimpleFuelSwitch.cs:207-246 | the module ends showing the resolved id: cache loaded, id resolved, resources exactly the selection's, simulation reset, label set. With propagation on: every counterpart with the module shows that id in its own resource set; counterparts without the module are unchanged; a counterpart whose resource set is the primary's ends with the primary's id and the primary's resources |
| SimpleFuelSwitch.ModuleSimpleFuelSwitch.PropagateToCounterparts | src/ModuleSimpleFuelSwitch.cs:233-245 | every counterpart with the module is given the id and shows it, resolved in its own set, which updates only itself; when the id is already resolved in the caller's set, a counterpart whose set is the caller's gets that id and that selection's resources |
| SimpleFuelSwitch.ModuleSimpleFuelSwitch.PropagateTo | src/ModuleSimpleFuelSwitch.cs:237-243 | one step of the loop: a counterpart with the module takes the id and shows it, resolved in the resource set it had before; a counterpart without the module is not touched |
| SimpleFuelSwitch.ModuleSimpleFuelSwitch.OnPartCreated | src/ModuleSimpleFuelSwitch.cs:59-62 | the part ends showing its resolved selection, and no counterpart is touched |
| SimpleFuelSwitch.ModuleSimpleFuelSwitch.DoSwitchResourcesEvent | src/ModuleSimpleFuelSwitch.cs:30-37 | the module ends showing the set's next id after the old id (resolved), and every counterpart with the module shows it too |
| SimpleFuelSwitch.ModuleSimpleFuelSwitch.OnVariantApplied | src/ModuleSimpleFuelSwitch.cs:161-180 | the cache is loaded. With no linked selection, or when the linked one is already current: id, label, part and counterparts are unchanged. Otherwise the module and its counterparts show the linked selection |
| SimpleFuelSwitch.ModuleSimpleFuelSwitch.OnEditorLoad | src/ModuleSimpleFuelSwitch.cs:97-137 | the cache is loaded first; when the id names no selection, nothing else changes. Otherwise the resources become the index walk's result `Strip`; `isDirty` holds exactly when something was removed, which is exactly when an unlisted resource was present; the simulation is reset when dirty |
| SimpleFuelSwitch.ModuleSimpleFuelSwitch.StripResources | src/ModuleSimpleFuelSwitch.cs:121-131 | the index walk as written leaves `Strip` of the original list, and its flag holds exactly when the list got shorter |
| SimpleFuelSwitch.ModuleSimpleFuelSwitch.ListedResources | src/ModuleSimpleFuelSwitch.cs:121-131 | the corrected walk leaves exactly the listed resources, and its flag holds exactly when the list got shorter |
| SimpleFuelSwitch.ModuleSimpleFuelSwitch.OnEditorLoadCorrected | src/ModuleSimpleFuelSwitch.cs:122-131 | the corrected walk: the resources become exactly the listed ones, in order, so every remaining one is listed; `isDirty` holds exactly when an unlisted resource was present |
| SimpleFuelSwitch.ModuleSimpleFuelSwitch.UpdateSelectedResourcesTwice | src/ModuleSimpleFuelSwitch.cs:207-230 | applying twice leaves exactly what applying once leaves |
| SimpleFuelSwitch.ModuleSimpleFuelSwitch.OnVariantAppliedTwice | src/ModuleSimpleFuelSwitch.cs:161-180 | applying the same variant twice ends in the state a single application leaves, including for a linked selection whose id is the placeholder |

## Left out

- UI and events are not modelled: logging (lines 33 and 174-176), `OnStart` and its button hiding (lines 41-52), and `OnResourcesSwitched` (lines 186-200) with its window refresh and ship-modified event. They are host side effects with nothing to check. The button label is kept as the field `guiName`.
- `SimulationResources.Clear()` and `ResetSimulation()` are host calls. They are recorded only as the flag `Part.simulationReset`.
- `CreateResourceNode` and `ConfigNode` are not modelled. A resource node is the resource's four values, so re-adding a node adds an equal `Resource`.
- The internals of `SwitchableResourceSet` (its cycling order, its default, its variant lookup) are not part of this model. Its operations are uninterpreted function fields, and `ForPart` is the parameter `forPart`, taken to be total.
- `amount` and `maxAmount` are doubles in the source. They are only copied, so they are `real` here and no floating-point behaviour is modelled.
- A null `part.children` (line 149) is modelled as an empty child sequence. A part's modules, counterparts and children are constant fields, because no handler changes them. A module's `part` is a variable: the host sets it when it attaches the module (`AttachNewPart`), and no handler changes it.
- `Remove(resource)` at line 128 is modelled as removing index `i`, with the later elements shifting down as in a list. Duplicate resource objects are not modelled.
- The host's structural guarantees are preconditions, not modelled behaviour:
  - a module belongs to the part it is found on (`WellLinked`);
  - a part is not its own symmetry counterpart (`SymmetryWellFormed`);
  - the parts of a ship are distinct;
  - child trees are finite (the ghost height `h` of `Tree`).
  Aliasing beyond these guarantees is not modelled.
- UpdateSelectedResources, DoSwitchResourcesEvent and OnVariantApplied: the source dereferences the looked-up selection without a null check (lines 215-221, 33 and 176). The model requires the resolved id to name a selection, for the primary and for each counterpart.
- DoSwitchResourcesEvent: requires the resource set to be loaded already. The source relies on `OnStart` having loaded it (line 44) and dereferences it at line 32.
- UpdateSelectedResources: the promise that a counterpart ends with the primary's id and resources is stated only for a counterpart whose resource set equals the primary's. Each counterpart resolves the id in its own set, and nothing in the model ties the two sets together.

- OnVariantAppliedTwice: when the linked selection's id is the placeholder `"_default"`, the second call switches again. The first call stores `"_default"`, which UpdateSelectedResources resolves to the default id (lines 211-213). Line 170 then compares `"_default"` with that default id, finds them different, and switches. The contract states only that the end state equals that of one call, not that the second call does nothing.

## Findings

| source | as written | input that shows it | evidently intended | confidence | as-written member | corrected member |
|---|---|---|---|---|---|---|
| src/ModuleSimpleFuelSwitch.cs:122-131 | after removing the resource at index `i`, the loop still increments `i`, so the resource that moved into slot `i` is never examined | a part holding two adjacent resources the selection does not list, e.g. resources [A, B, C] with only A listed: B is removed, C moves to index 1 and is skipped, leaving [A, C] | remove every resource the selection does not list, leaving [A] | not executed | SimpleFuelSwitch.ModuleSimpleFuelSwitch.OnEditorLoad, LoadStrip.StrayAfterRemovedStraySurvives, LoadStrip.StripCompleteOnlyWithoutAdjacentStrays | SimpleFuelSwitch.ModuleSimpleFuelSwitch.OnEditorLoadCorrected |

`OnShipLoaded` calls the as-written `OnEditorLoad`, so what the ship-level
contract states is what the source does.
