/**
 The whole system as an interleaving of atomic steps: any number of OriginPools,
 each with the history of its stored versions, a cached copy that may lag behind
 and at most one reconcile in flight; one XC store; users, lost replies, crashes and
 outside edits of XC objects.
 */
module Protocol {
  import opened Wrappers
  import opened XcApi
  import opened OriginPoolTypes
  import opened Discovery
  import opened Reconciler
  import Mapper = OriginPoolMapper

  /** What the last status write that reported Synced=True stood for. */
  datatype Claim = Claim(generation: nat, spec: OriginPoolSpec, origins: Origins)

  /**
   One pool. `hist` lists the versions the API server stored, oldest first, `None`
   when there is no such object; the position is the resourceVersion. A reconcile
   works on version `base`. `claim` and `dirty` are bookkeeping for the proofs and
   influence no step: `dirty` holds from an applied write to XC to the next status
   write that reports Synced=True.
   */
  datatype Cell = Cell(hist: seq<Option<CR>>, cached: nat, base: nat, pc: Pc, claim: Option<Claim>, dirty: bool)

  datatype World = World(cells: map<Name, Cell>, store: Store)

  /**
   Environment assumptions. `keys`: the XC key each pool keeps; with `fixedKeys`
   every version of a pool names that key. With `monotoneCache` a cached copy never
   goes back to an older version, not even over a restart.
   */
  datatype Rules = Rules(keys: map<Name, XcKey>, fixedKeys: bool, monotoneCache: bool)

  datatype Event =
    | Read(id: Name, found: DiscoveryResult, refsPermitted: bool)
    | Proceed(id: Name, fault: Fault)
    | Crash(id: Name)
    | CacheMoves(id: Name, to: nat)
    | UserWrites(id: Name, version: Option<CR>)
    | OutsideEdit(key: XcKey, edited: Option<XcObject>)

  function Last(hist: seq<Option<CR>>): Option<CR>
    requires hist != []
  {
    hist[|hist| - 1]
  }

  /** The version exists and carries the operator's finalizer. */
  predicate Holding(v: Option<CR>) {
    v.Some? && FINALIZER in v.value.finalizers
  }

  /** A reconcile reading this version may create the XC object. */
  predicate Live(v: Option<CR>) {
    Holding(v) && !v.value.deleting
  }

  // ----- Steps of the operator -----

  /** A write of the object or its status replaces what it covers; an object being deleted goes with its last finalizer. */
  function Landed(v: CR, pc: Pc): Option<CR>
    requires pc.WritingObject? || pc.WritingStatus?
  {
    if pc.WritingStatus? then Some(v.(status := pc.cr.status))
    else if v.deleting && pc.cr.finalizers == {} then None
    else Some(v.(finalizers := pc.cr.finalizers))
  }

  /** Storing an identical object makes no new version. */
  function Append(hist: seq<Option<CR>>, v: Option<CR>): seq<Option<CR>>
    requires hist != []
  {
    if v == Last(hist) then hist else hist + [v]
  }

  predicate Applied(fault: Fault) {
    fault.NoFault? || fault.applied
  }

  /** Optimistic concurrency: a write lands only on the version it was computed from. */
  predicate Lands(c: Cell, fault: Fault) {
    c.base + 1 == |c.hist| && c.hist[c.base].Some? && Applied(fault)
  }

  function ReadStep(c: Cell, found: DiscoveryResult, refsPermitted: bool): Cell
    requires c.cached < |c.hist|
  {
    c.(base := c.cached, pc := Start(c.hist[c.cached], found, refsPermitted))
  }

  function XcStep(c: Cell, store: Store, fault: Fault): (Cell, Store)
    requires TalksToXc(c.pc)
  {
    var (store', reply) := Serve(store, XcRequest(c.pc), fault);
    (c.(pc := AfterXc(c.pc, reply), dirty := c.dirty || store' != store), store')
  }

  function WriteStep(c: Cell, fault: Fault): Cell
    requires c.pc.WritingObject? || c.pc.WritingStatus?
    requires c.hist != []
  {
    var lands := Lands(c, fault);
    var answered := c.(pc := AfterWrite(c.pc, lands && fault.NoFault?));
    if !lands then answered
    else
      var stored := answered.(hist := Append(c.hist, Landed(c.hist[c.base].value, c.pc)));
      if c.pc.WritingStatus? && c.pc.matched.Some? then
        stored.(claim := Some(Claim(c.pc.cr.generation, c.pc.cr.spec, c.pc.matched.value)), dirty := false)
      else stored
  }

  /** Every answered call brings the reconcile closer to its end. */
  function ProceedStep(c: Cell, store: Store, fault: Fault): (r: (Cell, Store))
    requires !c.pc.Idle? && c.hist != []
    ensures r.0.hist != [] && Rank(r.0.pc) < Rank(c.pc)
  {
    if TalksToXc(c.pc) then XcStep(c, store, fault) else (WriteStep(c, fault), store)
  }

  // ----- What may happen -----

  /**
   What a user's write may do to the stored object. It leaves the operator's
   finalizer and the status alone, cannot undo a deletion, and a changed spec gets a
   new generation; an object goes away only without the operator's finalizer.
   */
  predicate UserMay(before: Option<CR>, after: Option<CR>) {
    match (before, after)
    case (None, None) => false
    case (None, Some(a)) => a.status == EMPTY_STATUS && !a.deleting
    case (Some(b), None) => FINALIZER !in b.finalizers
    case (Some(b), Some(a)) =>
      && (FINALIZER in a.finalizers <==> FINALIZER in b.finalizers)
      && a.status == b.status
      && (b.deleting ==> a.deleting && a.finalizers <= b.finalizers)
      && (a.deleting ==> a.finalizers != {})
      && a.generation >= b.generation
      && (a.spec != b.spec ==> a.generation > b.generation)
  }

  predicate KeptKey(rules: Rules, id: Name, v: Option<CR>)
    requires id in rules.keys
  {
    v.Some? ==> v.value.id == id && (rules.fixedKeys ==> KeyOf(v.value) == rules.keys[id])
  }

  /** Discovery finds an origin for every discover entry, and for nothing else, exactly when it says it is complete. */
  predicate MayFind(v: Option<CR>, found: DiscoveryResult) {
    v.Some? ==> (found.allResolved <==> Mapper.Aligned(v.value.spec, found.origins))
  }

  predicate Enabled(rules: Rules, w: World, ev: Event) {
    match ev
    case Read(id, found, _) =>
      && id in w.cells && w.cells[id].pc.Idle? && w.cells[id].cached < |w.cells[id].hist|
      && MayFind(w.cells[id].hist[w.cells[id].cached], found)
    case Proceed(id, fault) =>
      && id in w.cells && !w.cells[id].pc.Idle? && w.cells[id].hist != []
      && (fault.Fail? ==> fault.error != NotFound)
    case Crash(id) => id in w.cells
    case CacheMoves(id, to) =>
      id in w.cells && to < |w.cells[id].hist| && (rules.monotoneCache ==> w.cells[id].cached <= to)
    case UserWrites(id, v) =>
      && id in w.cells && id in rules.keys && w.cells[id].hist != []
      && UserMay(Last(w.cells[id].hist), v) && KeptKey(rules, id, v)
    case OutsideEdit(key, _) => key in w.store
  }

  function Next(rules: Rules, w: World, ev: Event): World
    requires Enabled(rules, w, ev)
  {
    match ev
    case Read(id, found, permitted) =>
      w.(cells := w.cells[id := ReadStep(w.cells[id], found, permitted)])
    case Proceed(id, fault) =>
      var (c, store) := ProceedStep(w.cells[id], w.store, fault);
      World(w.cells[id := c], store)
    case Crash(id) =>
      w.(cells := w.cells[id := w.cells[id].(pc := Idle(Finished))])
    case CacheMoves(id, to) =>
      w.(cells := w.cells[id := w.cells[id].(cached := to)])
    case UserWrites(id, v) =>
      w.(cells := w.cells[id := w.cells[id].(hist := w.cells[id].hist + [v])])
    case OutsideEdit(key, edited) =>
      w.(store := if edited.None? then w.store - {key} else w.store[key := edited.value])
  }

  /** No pool exists yet and XC holds nothing under the managed keys. */
  predicate Initial(rules: Rules, w: World) {
    && w.cells.Keys == rules.keys.Keys
    && (forall id | id in w.cells :: w.cells[id] == Cell([None], 0, 0, Idle(Finished), None, false))
    && (forall id | id in rules.keys :: rules.keys[id] !in w.store)
  }

  /** Different pools keep different XC keys. */
  predicate DistinctKeys(rules: Rules) {
    forall i, j | i in rules.keys && j in rules.keys && rules.keys[i] == rules.keys[j] :: i == j
  }

  predicate IsRun(rules: Rules, w: World, evs: seq<Event>)
    decreases evs
  {
    evs == [] || (Enabled(rules, w, evs[0]) && IsRun(rules, Next(rules, w, evs[0]), evs[1..]))
  }

  function After(rules: Rules, w: World, evs: seq<Event>): World
    requires IsRun(rules, w, evs)
    decreases evs
  {
    if evs == [] then w else After(rules, Next(rules, w, evs[0]), evs[1..])
  }

  // ----- Frame -----

  /** A call to XC changes the store under its own key only. */
  lemma ServeFrame(store: Store, call: XcCall, fault: Fault, other: XcKey)
    requires other != call.key
    ensures other in Serve(store, call, fault).0 <==> other in store
    ensures other in store ==> Serve(store, call, fault).0[other] == store[other]
  {
  }
}
