/**
 * ModuleSimpleFuelSwitch: the part module that lets a part in the vehicle
 * editor switch between resource selections. A `Part` is the host object the
 * module sits on; its resource list and its "simulation reset" mark are the
 * state the module changes. Which modules a part has, its symmetry
 * counterparts and its child parts are fixed while any of these handlers runs,
 * so they are constant fields here. The link back from a module to its part
 * is a variable: the host sets it when it attaches the module, and no handler
 * here changes it.
 *
 * `forPart` stands for the process-wide lookup SwitchableResourceSet.ForPart:
 * the set of selections for a part name.
 */
module SimpleFuelSwitch {
  import opened SwitchableResources
  import opened LoadStrip

  /** One entry of a part's module list: a fuel-switch module or some other module. */
  datatype PartModule = FuelSwitch(switchModule: ModuleSimpleFuelSwitch) | OtherModule(moduleName: string)

  class Part {
    const name: string
    const modules: seq<PartModule>
    const symmetryCounterparts: seq<Part>
    const children: seq<Part>
    var resources: seq<Resource>
    /** Set once the host's resource simulation has been cleared and reset. */
    var simulationReset: bool

    constructor (name: string, modules: seq<PartModule>, symmetryCounterparts: seq<Part>,
                 children: seq<Part>, resources: seq<Resource>)
      ensures this.name == name && this.modules == modules
      ensures this.symmetryCounterparts == symmetryCounterparts && this.children == children
      ensures this.resources == resources && !simulationReset
    {
      this.name := name;
      this.modules := modules;
      this.symmetryCounterparts := symmetryCounterparts;
      this.children := children;
      this.resources := resources;
      simulationReset := false;
    }
  }

  /** The first fuel-switch module of a module list, if there is one. */
  function FirstSwitch(modules: seq<PartModule>): (r: Option<ModuleSimpleFuelSwitch>)
    ensures r.None? <==> forall k :: 0 <= k < |modules| ==> !modules[k].FuelSwitch?
    ensures r.Some? ==> exists k :: 0 <= k < |modules| && modules[k] == FuelSwitch(r.value)
                                 && forall j :: 0 <= j < k ==> !modules[j].FuelSwitch?
  {
    if modules == [] then None
    else if modules[0].FuelSwitch? then Some(modules[0].switchModule)
    else FirstSwitch(modules[1..])
  }

  predicate HasSwitch(p: Part)
  {
    FirstSwitch(p.modules).Some?
  }

  /** The fuel-switch module found on `p`, as a set: empty when there is none. */
  function SwitchOf(p: Part): (r: set<ModuleSimpleFuelSwitch>)
  {
    if HasSwitch(p) then {FirstSwitch(p.modules).value} else {}
  }

  /** The module found on a part belongs to that part. */
  predicate WellLinked(p: Part)
    reads SwitchOf(p)`part
  {
    HasSwitch(p) ==> FirstSwitch(p.modules).value.part == p
  }

  /** The host's symmetry structure: a part is not its own counterpart, and counterparts are well linked. */
  predicate SymmetryWellFormed(p: Part)
    reads CounterpartModules(p)`part
  {
    && p !in p.symmetryCounterparts
    && forall j :: 0 <= j < |p.symmetryCounterparts| ==> WellLinked(p.symmetryCounterparts[j])
  }

  /** The counterparts that carry the module: whose resources propagation may change. */
  function CounterpartParts(p: Part): (r: set<Part>)
  {
    set j | 0 <= j < |p.symmetryCounterparts| && HasSwitch(p.symmetryCounterparts[j]) :: p.symmetryCounterparts[j]
  }

  /** The modules of those counterparts: whose selection state propagation may change. */
  function CounterpartModules(p: Part): (r: set<ModuleSimpleFuelSwitch>)
  {
    set j | 0 <= j < |p.symmetryCounterparts| && HasSwitch(p.symmetryCounterparts[j])
          :: FirstSwitch(p.symmetryCounterparts[j].modules).value
  }

  /** Both together: everything propagation reads and writes. */
  function CounterpartFrame(p: Part): (r: set<object>)
  {
    CounterpartParts(p) + CounterpartModules(p)
  }

  /** Neither a module nor its part is changed by propagating from that part. */
  lemma NotInCounterpartFrame(m: ModuleSimpleFuelSwitch)
    requires SymmetryWellFormed(m.part)
    ensures m !in CounterpartFrame(m.part) && m.part !in CounterpartFrame(m.part)
  {
  }

  /** `p`'s child tree is finite and acyclic: every path from `p` has fewer than `h` steps. */
  ghost predicate Tree(p: Part, h: nat)
    decreases h
  {
    forall j :: 0 <= j < |p.children| ==> h > 0 && Tree(p.children[j], h - 1)
  }

  /** The parts of the tree below and including `p`, followed to depth `h`. */
  ghost function Subtree(p: Part, h: nat): (r: set<Part>)
    decreases h, 0
  {
    {p} + (if h == 0 then {} else Forest(p.children, h - 1))
  }

  /** The parts of the trees rooted at `ps`. */
  ghost function Forest(ps: seq<Part>, h: nat): (r: set<Part>)
    decreases h, |ps| + 1
  {
    if ps == [] then {} else Forest(ps[..|ps| - 1], h) + Subtree(ps[|ps| - 1], h)
  }

  lemma ForestSnoc(ps: seq<Part>, i: nat, h: nat)
    requires i < |ps|
    ensures Forest(ps[..i + 1], h) == Forest(ps[..i], h) + Subtree(ps[i], h)
  {
    assert ps[..i + 1][..i] == ps[..i];
  }

  lemma {:induction false} SubtreeInForest(ps: seq<Part>, i: nat, h: nat)
    requires i < |ps|
    ensures Subtree(ps[i], h) <= Forest(ps, h)
    decreases |ps|
  {
    if i < |ps| - 1 {
      SubtreeInForest(ps[..|ps| - 1], i, h);
    }
  }

  /** A tree of height below `h` is the root plus the trees of its children. */
  lemma SubtreeUnfold(p: Part, h: nat)
    requires Tree(p, h)
    ensures Subtree(p, h) == {p} + Forest(p.children, if h == 0 then 0 else h - 1)
  {
  }

  /** Some part of `parts` carries the module. */
  ghost predicate AnySwitch(parts: set<Part>)
  {
    exists q :: q in parts && HasSwitch(q)
  }

  /**
   * TryFind: the first fuel-switch module on the part, or null (also for a null part).
   */
  method TryFind(part: Part?) returns (m: ModuleSimpleFuelSwitch?)
    ensures part == null ==> m == null
    ensures part != null ==> (m == null <==> FirstSwitch(part.modules).None?)
    ensures part != null && m != null ==> FirstSwitch(part.modules).value == m
  {
    if part == null {
      return null;
    }
    var i := 0;
    while i < |part.modules|
      invariant 0 <= i <= |part.modules|
      invariant FirstSwitch(part.modules) == FirstSwitch(part.modules[i..])
    {
      assert part.modules[i..][1..] == part.modules[i + 1..];
      if part.modules[i].FuelSwitch? {
        return part.modules[i].switchModule;
      }
      i := i + 1;
    }
    return null;
  }

  /**
   * SanitizeResources: on a part with the module, rebuild the resource list
   * from copies of its entries (name, amount, maxAmount, flowState) and reset
   * the simulation; report whether the part has the module.
   */
  method SanitizeResources(part: Part) returns (result: bool)
    modifies part
    ensures result == HasSwitch(part)
    ensures part.resources == old(part.resources)
    ensures part.simulationReset == (old(part.simulationReset) || result)
  {
    var switchModule := TryFind(part);
    if switchModule == null {
      return false;
    }
    var nodes := new Resource[|part.resources|];
    var i := 0;
    while i < nodes.Length
      modifies nodes
      invariant 0 <= i <= nodes.Length
      invariant forall k :: 0 <= k < i ==> nodes[k] == part.resources[k]
    {
      var resource := part.resources[i];
      nodes[i] := Resource(resource.resourceName, resource.amount, resource.maxAmount, resource.flowState);
      i := i + 1;
    }
    ghost var before := part.resources;
    part.resources := [];
    i := 0;
    while i < nodes.Length
      modifies part`resources
      invariant 0 <= i <= nodes.Length
      invariant part.resources == nodes[..i]
    {
      part.resources := part.resources + [nodes[i]];
      i := i + 1;
    }
    assert nodes[..] == before;
    part.simulationReset := true;
    return true;
  }

  /**
   * OnTreeAttached: sanitize every part of the attached tree, depth first, and
   * report whether any of them has the module.
   */
  method OnTreeAttached(part: Part, ghost h: nat) returns (result: bool)
    requires Tree(part, h)
    requires forall q :: q in Subtree(part, h) ==> allocated(q)
    modifies Subtree(part, h)
    ensures result <==> AnySwitch(Subtree(part, h))
    ensures forall q :: q in Subtree(part, h) ==> q.resources == old(q.resources)
    ensures forall q :: q in Subtree(part, h) ==> q.simulationReset == (old(q.simulationReset) || HasSwitch(q))
    decreases h
  {
    ghost var below: nat := if h == 0 then 0 else h - 1;
    SubtreeUnfold(part, h);
    result := SanitizeResources(part);
    ghost var done: set<Part> := {part};
    var i := 0;
    while i < |part.children|
      invariant 0 <= i <= |part.children|
      invariant done == {part} + Forest(part.children[..i], below)
      invariant done <= Subtree(part, h)
      invariant result <==> AnySwitch(done)
      invariant forall q :: q in Subtree(part, h) ==> q.resources == old(q.resources)
      invariant forall q :: q in Subtree(part, h) ==>
        q.simulationReset == (old(q.simulationReset) || (HasSwitch(q) && q in done))
    {
      ForestSnoc(part.children, i, below);
      SubtreeInForest(part.children, i, below);
      ghost var next := Subtree(part.children[i], below);
      assert next <= Subtree(part, h);
      var childResult := OnTreeAttached(part.children[i], below);
      assert AnySwitch(done + next) <==> AnySwitch(done) || AnySwitch(next);
      result := result || childResult;
      done := done + next;
      i := i + 1;
    }
    assert part.children[..i] == part.children;
  }

  /**
   * OnPartAttached: process the attached part's tree and, only when that tree
   * holds the module somewhere, the trees of the part's symmetry counterparts.
   */
  method OnPartAttached(part: Part, ghost h: nat)
    requires Tree(part, h)
    requires forall j :: 0 <= j < |part.symmetryCounterparts| ==> Tree(part.symmetryCounterparts[j], h)
    requires forall q :: q in Subtree(part, h) + Forest(part.symmetryCounterparts, h) ==> allocated(q)
    modifies Subtree(part, h), Forest(part.symmetryCounterparts, h)
    ensures forall q :: q in Subtree(part, h) + Forest(part.symmetryCounterparts, h) ==>
      q.resources == old(q.resources)
    ensures forall q :: q in Subtree(part, h) + Forest(part.symmetryCounterparts, h) ==>
      q.simulationReset == (old(q.simulationReset) ||
        (HasSwitch(q) && (q in Subtree(part, h) ||
                          (AnySwitch(Subtree(part, h)) && q in Forest(part.symmetryCounterparts, h)))))
  {
    assert Subtree(part, h) <= Subtree(part, h) + Forest(part.symmetryCounterparts, h);
    var attached := OnTreeAttached(part, h);
    if attached {
      AttachCounterparts(part.symmetryCounterparts, h);
    }
  }

  /** The counterpart step of OnPartAttached: process the tree of every counterpart in turn. */
  method AttachCounterparts(counterparts: seq<Part>, ghost h: nat)
    requires forall j :: 0 <= j < |counterparts| ==> Tree(counterparts[j], h)
    requires forall q :: q in Forest(counterparts, h) ==> allocated(q)
    modifies Forest(counterparts, h)
    ensures forall q :: q in Forest(counterparts, h) ==> q.resources == old(q.resources)
    ensures forall q :: q in Forest(counterparts, h) ==> q.simulationReset == (old(q.simulationReset) || HasSwitch(q))
  {
    ghost var done: set<Part> := {};
    var i := 0;
    while i < |counterparts|
      invariant 0 <= i <= |counterparts|
      invariant done == Forest(counterparts[..i], h)
      invariant forall q :: q in Forest(counterparts, h) ==> q.resources == old(q.resources)
      invariant forall q :: q in Forest(counterparts, h) ==>
        q.simulationReset == (old(q.simulationReset) || (HasSwitch(q) && q in done))
    {
      ForestSnoc(counterparts, i, h);
      SubtreeInForest(counterparts, i, h);
      var counterpartResult := OnTreeAttached(counterparts[i], h);
      done := done + Subtree(counterparts[i], h);
      i := i + 1;
    }
    assert counterparts[..i] == counterparts;
  }

  /** What the load-time clean-up of one part may change: the part and its module, if it has one. */
  function LoadFrame(p: Part): (r: set<object>)
  {
    if HasSwitch(p) then {p, FirstSwitch(p.modules).value} else {}
  }

  /** The parts of a ship that carry the module. */
  function SwitchParts(ship: seq<Part>): (r: set<Part>)
  {
    set i | 0 <= i < |ship| && HasSwitch(ship[i]) :: ship[i]
  }

  /** The modules of those parts. */
  function SwitchModules(ship: seq<Part>): (r: set<ModuleSimpleFuelSwitch>)
  {
    set i | 0 <= i < |ship| && HasSwitch(ship[i]) :: FirstSwitch(ship[i].modules).value
  }

  /** Distinct well-linked parts have disjoint clean-up frames. */
  lemma LoadFramesDisjoint(p: Part, q: Part)
    requires WellLinked(p) && WellLinked(q) && p != q
    ensures LoadFrame(p) !! LoadFrame(q)
  {
  }

  /**
   * OnShipLoaded: run the load-time clean-up on the module of every part of
   * the loaded ship that has one.
   */
  method OnShipLoaded(ship: seq<Part>, forPart: string -> SwitchableResourceSet)
    requires forall i, j :: 0 <= i < j < |ship| ==> ship[i] != ship[j]
    requires forall i :: 0 <= i < |ship| ==> WellLinked(ship[i])
    modifies SwitchParts(ship), SwitchModules(ship)`availableResources
    ensures forall i :: 0 <= i < |ship| ==> LoadedInEditor(ship[i], forPart)
  {
    ghost var before := seq(|ship|, j requires 0 <= j < |ship|
      reads if 0 <= j < |ship| then {ship[j]} + SwitchOf(ship[j]) else {} => Snap(ship[j]));
    var i := 0;
    while i < |ship|
      invariant 0 <= i <= |ship|
      invariant forall j :: 0 <= j < i ==> Loaded(ship[j], before[j], forPart)
      invariant forall j :: i <= j < |ship| ==> Snap(ship[j]) == before[j] && WellLinked(ship[j])
    {
      assert SwitchOf(ship[i]) <= SwitchModules(ship);
      LoadNext(ship, i, before, forPart);
      i := i + 1;
    }
  }

  /** The loop body of OnShipLoaded: clean up part i and leave every other part as it was. */
  method LoadNext(ship: seq<Part>, i: nat, ghost before: seq<LoadState>, forPart: string -> SwitchableResourceSet)
    requires forall a, b :: 0 <= a < b < |ship| ==> ship[a] != ship[b]
    requires forall j :: i <= j < |ship| ==> WellLinked(ship[j])
    requires i < |ship| == |before|
    requires forall j :: 0 <= j < i ==> Loaded(ship[j], before[j], forPart)
    requires forall j :: i <= j < |ship| ==> Snap(ship[j]) == before[j]
    modifies if HasSwitch(ship[i]) then {ship[i]} else {}, SwitchOf(ship[i])`availableResources
    ensures forall j :: 0 <= j <= i ==> Loaded(ship[j], before[j], forPart)
    ensures forall j :: i < j < |ship| ==> Snap(ship[j]) == before[j] && WellLinked(ship[j])
  {
    LoadPart(ship[i], forPart);
  }

  /** One step of OnShipLoaded: the clean-up of one part, if it has the module. */
  method LoadPart(part: Part, forPart: string -> SwitchableResourceSet)
    requires WellLinked(part)
    modifies if HasSwitch(part) then {part} else {}, SwitchOf(part)`availableResources
    ensures LoadedInEditor(part, forPart)
  {
    var switchModule := TryFind(part);
    if switchModule != null {
      var isDirty := switchModule.OnEditorLoad(forPart);
    }
  }

  /** What the load-time clean-up reads of a part and of its module, if it has one. */
  datatype LoadState = LoadState(
    resources: seq<Resource>, simulationReset: bool,
    cache: Option<SwitchableResourceSet>, currentResourcesId: string, guiName: string)

  /** The current LoadState of a part; the module entries are empty when it has no module. */
  function Snap(p: Part): (r: LoadState)
    reads p, SwitchOf(p)
  {
    match FirstSwitch(p.modules)
    case None => LoadState(p.resources, p.simulationReset, None, "", "")
    case Some(m) => LoadState(p.resources, p.simulationReset, m.availableResources, m.currentResourcesId, m.guiName)
  }

  /**
   * What the load-time clean-up leaves on a part that stood at `before`:
   * nothing changes without the module; with it, the module's resource set is
   * loaded, its id and label are kept, and if the id names a selection the
   * strays are stripped as the index walk strips them.
   */
  ghost predicate Loaded(p: Part, before: LoadState, forPart: string -> SwitchableResourceSet)
    reads p, SwitchOf(p)
  {
    match FirstSwitch(p.modules)
    case None => p.resources == before.resources && p.simulationReset == before.simulationReset
    case Some(m) =>
      var resourceSet := match before.cache case Some(s) => s case None => forPart(m.part.name);
      && m.availableResources == Some(resourceSet)
      && m.currentResourcesId == before.currentResourcesId
      && m.guiName == before.guiName
      && match resourceSet.lookup(m.currentResourcesId)
         case None => p.resources == before.resources && p.simulationReset == before.simulationReset
         case Some(selection) =>
           && p.resources == Strip(before.resources, selection)
           && p.simulationReset == (before.simulationReset || exists k :: 0 <= k < |before.resources| && Stray(selection, before.resources[k]))
  }

  /** The load-time clean-up of `p`, from the state before to the state now. */
  twostate predicate LoadedInEditor(p: Part, forPart: string -> SwitchableResourceSet)
    reads p, SwitchOf(p)
  {
    Loaded(p, old(Snap(p)), forPart)
  }

  /**
   * The host attaching a new module to a new part: the module is created, the
   * part is created with it in its module list, and the module's part is set.
   */
  method AttachNewPart(name: string, counterparts: seq<Part>) returns (p: Part, m: ModuleSimpleFuelSwitch)
    ensures fresh(p) && fresh(m)
    ensures p.name == name && p.modules == [FuelSwitch(m)] && p.symmetryCounterparts == counterparts
    ensures p.children == [] && p.resources == [] && !p.simulationReset
    ensures m.part == p && m.availableResources == None && m.currentResourcesId == DefaultFlag
  {
    var unattached := new Part("", [], [], [], []);
    m := new ModuleSimpleFuelSwitch(unattached);
    p := new Part(name, [FuelSwitch(m)], counterparts, [], []);
    m.part := p;
  }

  /** A liquid-fuel-and-oxidizer selection and a set of selections holding only it. */
  const LfoResources: seq<Resource> := [Resource("LiquidFuel", 90.0, 90.0, true), Resource("Oxidizer", 110.0, 110.0, true)]
  const Lfo: Selection := Selection("lfo", "LF/O", LfoResources)
  const LfoSet: SwitchableResourceSet :=
    SwitchableResourceSet("Fuel", "lfo", id => if id == "lfo" then Some(Lfo) else None, id => "lfo", variant => None)

  /**
   * A tank and its one symmetry counterpart, both attached by the host.
   * Switching on the tank with propagation makes both modules show the
   * selection: both parts hold its resources and had their simulation reset.
   */
  method SwitchPair() returns (tank: Part, counterpart: Part)
    ensures fresh(tank) && fresh(counterpart) && fresh(SwitchOf(tank)) && fresh(SwitchOf(counterpart))
    ensures tank != counterpart && WellLinked(tank) && WellLinked(counterpart)
    ensures HasSwitch(tank) && FirstSwitch(tank.modules).value.Shows(LfoSet, "lfo")
    ensures HasSwitch(counterpart) && FirstSwitch(counterpart.modules).value.Shows(LfoSet, "lfo")
  {
    var forPart := name => LfoSet;
    var counterpartModule, tankModule;
    counterpart, counterpartModule := AttachNewPart("tank", []);
    tank, tankModule := AttachNewPart("tank", [counterpart]);
    assert Resolve(LfoSet, DefaultFlag) == "lfo" && LfoSet.lookup("lfo") == Some(Lfo);
    assert counterpartModule.CanShow(forPart, "lfo");
    label switching:
    tankModule.UpdateSelectedResources(true, forPart);
    assert tank.symmetryCounterparts[0] == counterpart && FirstSwitch(counterpart.modules) == Some(counterpartModule);
    assert tankModule.CounterpartsShow@switching(forPart, "lfo");
    assert old@switching(counterpartModule.ResourceSet(forPart)) == LfoSet;
  }

  /**
   * The pair above, then the load-time clean-up of the ship made of the two:
   * nothing is stray, so both parts keep the selection's resources.
   */
  method SwitchAndLoadPair() returns (tank: Part, counterpart: Part)
    ensures tank.resources == LfoResources && counterpart.resources == LfoResources
    ensures tank.simulationReset && counterpart.simulationReset
  {
    tank, counterpart := SwitchPair();
    assert Lfo.Lists("LiquidFuel") && Lfo.Lists("Oxidizer") by {
      assert Lfo.resources[0].resourceName == "LiquidFuel" && Lfo.resources[1].resourceName == "Oxidizer";
    }
    assert Strip(LfoResources, Lfo) == LfoResources by {
      assert LfoResources[1..][1..] == [];
    }
    var ship, forPart := [tank, counterpart], name => LfoSet;
    label loading:
    OnShipLoaded(ship, forPart);
    assert LoadedInEditor@loading(ship[0], forPart) && LoadedInEditor@loading(ship[1], forPart);
  }

  class ModuleSimpleFuelSwitch {
    /** The part the module is attached to; set by the host when it attaches the module. */
    var part: Part
    /** The cached set of selections; None until first needed. */
    var availableResources: Option<SwitchableResourceSet>
    /** The persisted id of the current selection, or the placeholder. */
    var currentResourcesId: string
    /** The menu text of the switch button. */
    var guiName: string

    constructor (part: Part)
      ensures this.part == part && availableResources == None && currentResourcesId == DefaultFlag
      ensures guiName == "Switch Resources"
    {
      this.part := part;
      availableResources := None;
      currentResourcesId := DefaultFlag;
      guiName := "Switch Resources";
    }

    /** The set of selections the module uses: its cache, or what the loader returns for its part. */
    function ResourceSet(forPart: string -> SwitchableResourceSet): (r: SwitchableResourceSet)
      reads this
    {
      match availableResources
      case Some(s) => s
      case None => forPart(part.name)
    }

    /** Applying id `id` can dereference its selection: the resolved id names one. */
    ghost predicate CanShow(forPart: string -> SwitchableResourceSet, id: string)
      reads this
    {
      ResourceSet(forPart).lookup(Resolve(ResourceSet(forPart), id)).Some?
    }

    /**
     * The state UpdateSelectedResources leaves: the resource set is cached, the
     * id is `id`, the part holds exactly the selection's resources in order,
     * its simulation was reset and the button shows the selection's name.
     */
    ghost predicate Shows(resourceSet: SwitchableResourceSet, id: string)
      reads this, part
    {
      && availableResources == Some(resourceSet)
      && currentResourcesId == id
      && resourceSet.lookup(id).Some?
      && part.resources == resourceSet.lookup(id).value.resources
      && part.simulationReset
      && guiName == Label(resourceSet, resourceSet.lookup(id).value)
    }

    /** Every counterpart that carries the module can show id `id`. */
    ghost predicate CounterpartsCanShow(forPart: string -> SwitchableResourceSet, id: string)
      reads this`part, CounterpartFrame(part)
    {
      forall j :: 0 <= j < |part.symmetryCounterparts| && HasSwitch(part.symmetryCounterparts[j]) ==>
        FirstSwitch(part.symmetryCounterparts[j].modules).value.CanShow(forPart, id)
    }

    /**
     * Every counterpart that carries the module was given id `id` and shows
     * it, resolved in its own resource set as it stood before.
     */
    twostate predicate CounterpartsShow(forPart: string -> SwitchableResourceSet, id: string)
      requires SymmetryWellFormed(part)
      reads this`part, CounterpartParts(part), CounterpartModules(part)
    {
      && part == old(part)
      && forall j :: 0 <= j < |part.symmetryCounterparts| && HasSwitch(part.symmetryCounterparts[j]) ==>
        var m := FirstSwitch(part.symmetryCounterparts[j].modules).value;
        m.Shows(old(m.ResourceSet(forPart)), Resolve(old(m.ResourceSet(forPart)), id))
    }

    /** InitializeAvailableResources: load the resource set once and keep it. */
    method InitializeAvailableResources(forPart: string -> SwitchableResourceSet)
      modifies this`availableResources
      ensures availableResources == Some(old(ResourceSet(forPart)))
      // The "kept" half of the clause above, spelled out: a loaded cache is never replaced.
      ensures old(availableResources).Some? ==> availableResources == old(availableResources)
    {
      if availableResources.None? {
        availableResources := Some(forPart(part.name));
      }
    }

    /**
     * UpdateSelectedResources: resolve the placeholder id, replace the part's
     * resources by the selection's, and, when asked, give every counterpart
     * with the module the same id and update it without further propagation.
     */
    method UpdateSelectedResources(affectSymCounterparts: bool, forPart: string -> SwitchableResourceSet)
      requires CanShow(forPart, currentResourcesId)
      requires affectSymCounterparts ==> SymmetryWellFormed(part)
      requires affectSymCounterparts ==>
        CounterpartsCanShow(forPart, Resolve(ResourceSet(forPart), currentResourcesId))
      modifies this`availableResources, this`currentResourcesId, this`guiName, part
      modifies if affectSymCounterparts then CounterpartParts(part) else {}
      modifies (if affectSymCounterparts then CounterpartModules(part) else {})`availableResources
      modifies (if affectSymCounterparts then CounterpartModules(part) else {})`currentResourcesId
      modifies (if affectSymCounterparts then CounterpartModules(part) else {})`guiName
      ensures Shows(old(ResourceSet(forPart)), Resolve(old(ResourceSet(forPart)), old(currentResourcesId)))
      ensures affectSymCounterparts ==> CounterpartsShow(forPart, currentResourcesId)
      ensures affectSymCounterparts ==>
        forall j :: 0 <= j < |part.symmetryCounterparts| && !HasSwitch(part.symmetryCounterparts[j]) ==>
          unchanged(part.symmetryCounterparts[j])
      ensures affectSymCounterparts ==>
        forall j :: 0 <= j < |part.symmetryCounterparts| && HasSwitch(part.symmetryCounterparts[j]) ==>
          var m := FirstSwitch(part.symmetryCounterparts[j].modules).value;
          old(m.ResourceSet(forPart)) == old(ResourceSet(forPart)) ==>
            m.currentResourcesId == currentResourcesId && m.part.resources == part.resources
      decreases if affectSymCounterparts then 3 else 0
    {
      ApplySelection(forPart);
      if affectSymCounterparts {
        NotInCounterpartFrame(this);
        PropagateToCounterparts(currentResourcesId, forPart);
        ResolveIdempotent(availableResources.value, currentResourcesId);
      }
    }

    /**
     * The module's own step of UpdateSelectedResources: load the resource set,
     * resolve the placeholder, set the button label and replace the part's
     * resources by the selection's.
     */
    method ApplySelection(forPart: string -> SwitchableResourceSet)
      requires CanShow(forPart, currentResourcesId)
      modifies this`availableResources, this`currentResourcesId, this`guiName, part`resources, part`simulationReset
      ensures Shows(old(ResourceSet(forPart)), Resolve(old(ResourceSet(forPart)), old(currentResourcesId)))
    {
      InitializeAvailableResources(forPart);
      if currentResourcesId == DefaultFlag {
        currentResourcesId := availableResources.value.defaultResourcesId;
      }
      var selection := availableResources.value.lookup(currentResourcesId).value;
      guiName := Label(availableResources.value, selection);

      ReplaceResources(part, selection);
      part.simulationReset := true;
    }

    /**
     * The resource step of UpdateSelectedResources: clear the part's resources
     * and add a copy of each resource of the selection, in order.
     */
    static method ReplaceResources(part: Part, selection: Selection)
      modifies part`resources
      ensures part.resources == selection.resources
    {
      part.resources := [];
      var i := 0;
      while i < |selection.resources|
        invariant 0 <= i <= |selection.resources|
        invariant part.resources == selection.resources[..i]
      {
        part.resources := part.resources + [selection.resources[i]];
        i := i + 1;
      }
    }

    /**
     * The counterpart step of UpdateSelectedResources: every symmetry
     * counterpart that has the module is given id `id` and updates itself
     * with propagation switched off.
     */
    method PropagateToCounterparts(id: string, forPart: string -> SwitchableResourceSet)
      requires SymmetryWellFormed(part)
      requires CounterpartsCanShow(forPart, id)
      modifies CounterpartParts(part)
      modifies CounterpartModules(part)`availableResources, CounterpartModules(part)`currentResourcesId
      modifies CounterpartModules(part)`guiName
      ensures CounterpartsShow(forPart, id)
      ensures var resourceSet := ResourceSet(forPart);
        Resolve(resourceSet, id) == id ==>
          forall j :: 0 <= j < |part.symmetryCounterparts| && HasSwitch(part.symmetryCounterparts[j]) ==>
            var m := FirstSwitch(part.symmetryCounterparts[j].modules).value;
            old(m.ResourceSet(forPart)) == resourceSet ==>
              m.currentResourcesId == id && resourceSet.lookup(id).Some?
              && m.part.resources == resourceSet.lookup(id).value.resources
      decreases 2
    {
      NotInCounterpartFrame(this);
      var counterparts := part.symmetryCounterparts;
      var i := 0;
      while i < |counterparts|
        invariant 0 <= i <= |counterparts|
        invariant forall j :: 0 <= j < |counterparts| && HasSwitch(counterparts[j]) ==>
          var m := FirstSwitch(counterparts[j].modules).value;
          if counterparts[j] in counterparts[..i]
          then m.Shows(old(m.ResourceSet(forPart)), Resolve(old(m.ResourceSet(forPart)), id))
          else m.availableResources == old(m.availableResources)
      {
        var symCounterpart := counterparts[i];
        PropagateTo(symCounterpart, id, forPart);
        assert counterparts[..i + 1] == counterparts[..i] + [symCounterpart];
        i := i + 1;
      }
      assert counterparts[..i] == counterparts;
    }

    /** One step of PropagateToCounterparts: a counterpart with the module takes id `id` and updates alone. */
    static method PropagateTo(symCounterpart: Part, id: string, forPart: string -> SwitchableResourceSet)
      requires WellLinked(symCounterpart)
      requires HasSwitch(symCounterpart) ==> FirstSwitch(symCounterpart.modules).value.CanShow(forPart, id)
      modifies if HasSwitch(symCounterpart) then {symCounterpart} else {}
      modifies SwitchOf(symCounterpart)`availableResources, SwitchOf(symCounterpart)`currentResourcesId
      modifies SwitchOf(symCounterpart)`guiName
      ensures HasSwitch(symCounterpart) ==>
        var m := FirstSwitch(symCounterpart.modules).value;
        m.Shows(old(m.ResourceSet(forPart)), Resolve(old(m.ResourceSet(forPart)), id))
      decreases 1
    {
      var switchModule := TryFind(symCounterpart);
      if switchModule != null {
        switchModule.currentResourcesId := id;
        switchModule.UpdateSelectedResources(false, forPart);
      }
    }

    /** OnPartCreated: a part spawned from the parts panel applies its selection, alone. */
    method OnPartCreated(forPart: string -> SwitchableResourceSet)
      requires CanShow(forPart, currentResourcesId)
      modifies this`availableResources, this`currentResourcesId, this`guiName, part
      ensures Shows(old(ResourceSet(forPart)), Resolve(old(ResourceSet(forPart)), old(currentResourcesId)))
    {
      UpdateSelectedResources(false, forPart);
    }

    /**
     * DoSwitchResourcesEvent: the switch button moves to the next id of the
     * (already loaded) resource set and applies it with propagation.
     */
    method DoSwitchResourcesEvent(forPart: string -> SwitchableResourceSet)
      requires availableResources.Some?
      requires availableResources.value.lookup(availableResources.value.nextResourcesId(currentResourcesId)).Some?
      requires CanShow(forPart, availableResources.value.nextResourcesId(currentResourcesId))
      requires SymmetryWellFormed(part)
      requires CounterpartsCanShow(forPart, Resolve(availableResources.value, availableResources.value.nextResourcesId(currentResourcesId)))
      modifies this`availableResources, this`currentResourcesId, this`guiName, part
      modifies CounterpartParts(part)
      modifies CounterpartModules(part)`availableResources, CounterpartModules(part)`currentResourcesId
      modifies CounterpartModules(part)`guiName
      ensures var resourceSet := old(availableResources.value);
              Shows(resourceSet, Resolve(resourceSet, resourceSet.nextResourcesId(old(currentResourcesId))))
      ensures CounterpartsShow(forPart, currentResourcesId)
    {
      currentResourcesId := availableResources.value.nextResourcesId(currentResourcesId);
      UpdateSelectedResources(true, forPart);
    }

    /**
     * OnVariantApplied: a variant with a linked selection that is not the
     * current one switches to it, with propagation; any other variant only
     * loads the resource set.
     */
    method OnVariantApplied(variantName: string, forPart: string -> SwitchableResourceSet)
      requires var linked := ResourceSet(forPart).tryFindLinkedVariant(variantName);
        linked.Some? && linked.value.resourcesId != currentResourcesId ==>
          && ResourceSet(forPart).lookup(linked.value.resourcesId).Some?
          && CanShow(forPart, linked.value.resourcesId)
          && SymmetryWellFormed(part)
          && CounterpartsCanShow(forPart, Resolve(ResourceSet(forPart), linked.value.resourcesId))
      modifies this`availableResources, this`currentResourcesId, this`guiName, part
      modifies CounterpartParts(part)
      modifies CounterpartModules(part)`availableResources, CounterpartModules(part)`currentResourcesId
      modifies CounterpartModules(part)`guiName
      ensures availableResources == Some(old(ResourceSet(forPart)))
      ensures var resourceSet := old(ResourceSet(forPart));
              var linked := resourceSet.tryFindLinkedVariant(variantName);
              if linked.None? || linked.value.resourcesId == old(currentResourcesId) then
                && currentResourcesId == old(currentResourcesId) && guiName == old(guiName)
                && unchanged(part) && unchanged(CounterpartFrame(part) - {this})
              else
                && Shows(resourceSet, Resolve(resourceSet, linked.value.resourcesId))
                && CounterpartsShow(forPart, currentResourcesId)
    {
      InitializeAvailableResources(forPart);
      var selection := availableResources.value.tryFindLinkedVariant(variantName);
      if selection.None? {
        return;
      }
      if selection.value.resourcesId == currentResourcesId {
        return;
      }
      currentResourcesId := selection.value.resourcesId;
      UpdateSelectedResources(true, forPart);
    }

    /**
     * OnEditorLoad: load the resource set and, if the current id names a
     * selection, walk the part's resources removing those the selection does
     * not list; reset the simulation if anything was removed. `isDirty` is the
     * walk's own flag.
     */
    method OnEditorLoad(forPart: string -> SwitchableResourceSet) returns (isDirty: bool)
      modifies this`availableResources, part`resources, part`simulationReset
      ensures availableResources == Some(old(ResourceSet(forPart)))
      ensures match old(ResourceSet(forPart)).lookup(currentResourcesId)
        case None =>
          && !isDirty && part.resources == old(part.resources)
          && part.simulationReset == old(part.simulationReset)
        case Some(selection) =>
          && part.resources == Strip(old(part.resources), selection)
          && (isDirty <==> |part.resources| < |old(part.resources)|)
          && (isDirty <==> exists k :: 0 <= k < |old(part.resources)| && Stray(selection, old(part.resources)[k]))
          && part.simulationReset == (old(part.simulationReset) || isDirty)
    {
      InitializeAvailableResources(forPart);
      var found := availableResources.value.lookup(currentResourcesId);
      if found.None? {
        return false;
      }
      var selection := found.value;
      ghost var original := part.resources;
      isDirty := StripResources(part, selection);
      StripShrinksIffStray(original, selection);
      if isDirty {
        part.simulationReset := true;
      }
    }

    /**
     * The walk of OnEditorLoad: index `i` runs over the part's resources; a
     * resource the selection does not list is removed, and `i` advances in
     * every case. The flag records whether anything was removed.
     */
    static method StripResources(part: Part, selection: Selection) returns (isDirty: bool)
      modifies part`resources
      ensures part.resources == Strip(old(part.resources), selection)
      ensures isDirty <==> |part.resources| < |old(part.resources)|
    {
      ghost var original := part.resources;
      isDirty := false;
      var i := 0;
      while i < |part.resources|
        invariant i <= |part.resources| + 1
        invariant |part.resources| <= |original|
        invariant i <= |part.resources| ==>
          part.resources[..i] + Strip(part.resources[i..], selection) == Strip(original, selection)
        invariant i == |part.resources| + 1 ==> part.resources == Strip(original, selection)
        invariant isDirty <==> |part.resources| < |original|
        decreases |part.resources| - i
      {
        var resource := part.resources[i];
        StripStep(part.resources, i, selection);
        if !selection.Lists(resource.resourceName) {
          part.resources := part.resources[..i] + part.resources[i + 1..];
          isDirty := true;
        }
        i := i + 1;
      }
      if i == |part.resources| {
        assert part.resources[..i] == part.resources;
      }
    }

    /**
     * The clean-up as evidently intended: the index only advances past a
     * resource that stays, so every stray is removed.
     */
    method OnEditorLoadCorrected(forPart: string -> SwitchableResourceSet) returns (isDirty: bool)
      modifies this`availableResources, part`resources, part`simulationReset
      ensures availableResources == Some(old(ResourceSet(forPart)))
      ensures match old(ResourceSet(forPart)).lookup(currentResourcesId)
        case None =>
          && !isDirty && part.resources == old(part.resources)
          && part.simulationReset == old(part.simulationReset)
        case Some(selection) =>
          && part.resources == Listed(old(part.resources), selection)
          && (forall k :: 0 <= k < |part.resources| ==> selection.Lists(part.resources[k].resourceName))
          && (isDirty <==> exists k :: 0 <= k < |old(part.resources)| && Stray(selection, old(part.resources)[k]))
          && part.simulationReset == (old(part.simulationReset) || isDirty)
    {
      InitializeAvailableResources(forPart);
      var found := availableResources.value.lookup(currentResourcesId);
      if found.None? {
        return false;
      }
      var selection := found.value;
      ghost var original := part.resources;
      isDirty := ListedResources(part, selection);
      ListedShrinksIffStray(original, selection);
      if isDirty {
        part.simulationReset := true;
      }
    }

    /** The corrected walk: index `i` advances only past a resource that stays. */
    static method ListedResources(part: Part, selection: Selection) returns (isDirty: bool)
      modifies part`resources
      ensures part.resources == Listed(old(part.resources), selection)
      ensures isDirty <==> |part.resources| < |old(part.resources)|
    {
      ghost var original := part.resources;
      isDirty := false;
      var i := 0;
      while i < |part.resources|
        invariant i <= |part.resources| <= |original|
        invariant part.resources[..i] + Listed(part.resources[i..], selection) == Listed(original, selection)
        invariant isDirty <==> |part.resources| < |original|
        decreases |part.resources| - i
      {
        var resource := part.resources[i];
        ListedStep(part.resources, i, selection);
        if !selection.Lists(resource.resourceName) {
          part.resources := part.resources[..i] + part.resources[i + 1..];
          isDirty := true;
        } else {
          i := i + 1;
        }
      }
      assert part.resources[..i] == part.resources;
    }

    /**
     * Applying twice leaves what applying once leaves: whatever the part held
     * before, it ends with exactly the selection's resources.
     */
    method UpdateSelectedResourcesTwice(forPart: string -> SwitchableResourceSet)
      requires CanShow(forPart, currentResourcesId)
      modifies this`availableResources, this`currentResourcesId, this`guiName, part
      ensures Shows(old(ResourceSet(forPart)), Resolve(old(ResourceSet(forPart)), old(currentResourcesId)))
    {
      UpdateSelectedResources(false, forPart);
      ResolveIdempotent(availableResources.value, currentResourcesId);
      UpdateSelectedResources(false, forPart);
    }

    /**
     * Applying the same variant twice ends where applying it once ends. When
     * the linked id is not the placeholder, the second call finds the linked
     * selection already active and changes nothing further; when it is the
     * placeholder, the second call compares it with the resolved default,
     * switches again, and lands in the same state.
     */
    method OnVariantAppliedTwice(variantName: string, forPart: string -> SwitchableResourceSet)
      requires var linked := ResourceSet(forPart).tryFindLinkedVariant(variantName);
        linked.Some? && linked.value.resourcesId != currentResourcesId ==>
          && ResourceSet(forPart).lookup(linked.value.resourcesId).Some?
          && CanShow(forPart, linked.value.resourcesId)
          && SymmetryWellFormed(part)
          && CounterpartsCanShow(forPart, Resolve(ResourceSet(forPart), linked.value.resourcesId))
      modifies this`availableResources, this`currentResourcesId, this`guiName, part
      modifies CounterpartParts(part)
      modifies CounterpartModules(part)`availableResources, CounterpartModules(part)`currentResourcesId
      modifies CounterpartModules(part)`guiName
      ensures availableResources == Some(old(ResourceSet(forPart)))
      ensures var resourceSet := old(ResourceSet(forPart));
              var linked := resourceSet.tryFindLinkedVariant(variantName);
              if linked.None? || linked.value.resourcesId == old(currentResourcesId) then
                && currentResourcesId == old(currentResourcesId) && guiName == old(guiName)
                && unchanged(part) && unchanged(CounterpartFrame(part) - {this})
              else
                && Shows(resourceSet, Resolve(resourceSet, linked.value.resourcesId))
                && CounterpartsShow(forPart, currentResourcesId)
    {
      OnVariantApplied(variantName, forPart);
      ResolveIdempotent(availableResources.value, currentResourcesId);
      OnVariantApplied(variantName, forPart);
    }
  }
}
