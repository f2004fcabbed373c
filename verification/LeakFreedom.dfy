/**
 Leak-freedom: an XC object under a pool's key exists only while the pool's stored
 object carries the operator's finalizer, unless the pool was let go under the
 orphan policy.
 */
module LeakFreedom {
  import opened Wrappers
  import opened XcApi
  import opened OriginPoolTypes
  import opened Discovery
  import opened Reconciler
  import opened Protocol

  /** The operator's most recent release of the finalizer was of a version with the orphan policy. */
  predicate ReleasedAsOrphan(hist: seq<Option<CR>>) {
    if |hist| < 2 then false
    else if Holding(hist[|hist| - 2]) && !Holding(hist[|hist| - 1]) then hist[|hist| - 2].value.deletionPolicy == ORPHAN
    else ReleasedAsOrphan(hist[..|hist| - 1])
  }

  /** The object in memory is the version read, up to its status. */
  predicate CopyOf(cr: CR, v: Option<CR>) {
    v.Some? && cr == v.value.(status := cr.status)
  }

  /** What the reconcile in flight relies on. */
  predicate InFlightOk(c: Cell, key: XcKey, store: Store)
    requires c.base < |c.hist|
  {
    var v := c.hist[c.base];
    match c.pc
    case Idle(_) => true
    case Getting(cr, _) => CopyOf(cr, v) && Live(v) && Holding(Last(c.hist))
    case Creating(cr, _) => CopyOf(cr, v) && Live(v) && Holding(Last(c.hist))
    case Replacing(cr, _, _) => CopyOf(cr, v) && Live(v) && Holding(Last(c.hist))
    case Deleting(cr) => v == Some(cr) && Holding(v) && cr.deleting
    case WritingStatus(cr, _, _, _) => CopyOf(cr, v)
    case WritingObject(cr) =>
      && v.Some?
      && if v.value.deleting
         then cr == Released(v.value) && Holding(v) && (v.value.deletionPolicy == ORPHAN || key !in store)
         else cr == v.value.(finalizers := v.value.finalizers + {FINALIZER})
  }

  /** Once the finalizer is gone, no version the cache may still show allows a create. */
  predicate NothingLiveAhead(c: Cell) {
    forall j | c.cached <= j < |c.hist| :: !Live(c.hist[j])
  }

  predicate CellOk(c: Cell, id: Name, key: XcKey, store: Store) {
    && c.base <= c.cached < |c.hist|
    && (forall j | 0 <= j < |c.hist| && c.hist[j].Some? :: c.hist[j].value.id == id && KeyOf(c.hist[j].value) == key)
    && (!Holding(Last(c.hist)) ==> NothingLiveAhead(c))
    && InFlightOk(c, key, store)
    && (key in store ==> Holding(Last(c.hist)) || ReleasedAsOrphan(c.hist))
  }

  predicate WorldOk(rules: Rules, w: World) {
    && w.cells.Keys == rules.keys.Keys
    && forall id | id in w.cells :: CellOk(w.cells[id], id, rules.keys[id], w.store)
  }

  predicate StandingRules(rules: Rules) {
    rules.fixedKeys && rules.monotoneCache && DistinctKeys(rules)
  }

  // ----- One pool -----

  lemma ReadKeeps(c: Cell, id: Name, key: XcKey, store: Store, found: DiscoveryResult, permitted: bool)
    requires CellOk(c, id, key, store) && c.pc.Idle?
    ensures CellOk(ReadStep(c, found, permitted), id, key, store)
  {
    var v := c.hist[c.cached];
    if Live(v) {
      assert Holding(Last(c.hist));
    }
  }

  /** What the served call means for the pool's own key. */
  lemma ServeOwnKey(store: Store, call: XcCall, fault: Fault)
    ensures call.GetPool? ==> Serve(store, call, fault).0 == store
    ensures call.DeletePool? ==> (call.key in Serve(store, call, fault).0 ==> call.key in store)
    ensures call.DeletePool? && (Serve(store, call, fault).1.Deleted? || (Serve(store, call, fault).1 == Failed(NotFound) && fault.NoFault?)) ==>
              call.key !in Serve(store, call, fault).0
  {
  }

  /** What an answered XC call must leave true; the history is not touched. */
  lemma XcAnswerKeeps(c: Cell, c': Cell, id: Name, key: XcKey, store: Store, store': Store)
    requires CellOk(c, id, key, store)
    requires c'.hist == c.hist && c'.base == c.base && c'.cached == c.cached
    requires InFlightOk(c', key, store')
    requires key in store' ==> key in store || Holding(Last(c.hist))
    ensures CellOk(c', id, key, store')
  {
    assert NothingLiveAhead(c) == NothingLiveAhead(c');
  }

  lemma GetStepKeeps(c: Cell, id: Name, key: XcKey, store: Store, fault: Fault)
    requires CellOk(c, id, key, store) && c.pc.Getting?
    ensures var (c', store') := XcStep(c, store, fault); CellOk(c', id, key, store')
  {
    var (c', store') := XcStep(c, store, fault);
    assert InFlightOk(c', key, store');
    XcAnswerKeeps(c, c', id, key, store, store');
  }

  lemma MutationKeeps(c: Cell, id: Name, key: XcKey, store: Store, fault: Fault)
    requires CellOk(c, id, key, store) && (c.pc.Creating? || c.pc.Replacing?)
    ensures var (c', store') := XcStep(c, store, fault); CellOk(c', id, key, store')
  {
    var (c', store') := XcStep(c, store, fault);
    MutationLeadsToReport(c, store, fault);
    ReportInFlight(c, c', key, store, store');
    XcAnswerKeeps(c, c', id, key, store, store');
  }

  lemma MutationLeadsToReport(c: Cell, store: Store, fault: Fault)
    requires c.pc.Creating? || c.pc.Replacing?
    ensures var c' := XcStep(c, store, fault).0;
            && c'.hist == c.hist && c'.base == c.base && c'.cached == c.cached
            && c'.pc.WritingStatus? && c'.pc.cr == c.pc.cr.(status := c'.pc.cr.status)
  {
    AfterMutation(c.pc, Serve(store, XcRequest(c.pc), fault).1);
  }

  lemma ReportInFlight(c: Cell, c': Cell, key: XcKey, store: Store, store': Store)
    requires c.base < |c.hist| && InFlightOk(c, key, store) && (c.pc.Creating? || c.pc.Replacing?)
    requires c'.hist == c.hist && c'.base == c.base
    requires c'.pc.WritingStatus? && c'.pc.cr == c.pc.cr.(status := c'.pc.cr.status)
    ensures InFlightOk(c', key, store')
  {
  }

  lemma DeleteStepKeeps(c: Cell, id: Name, key: XcKey, store: Store, fault: Fault)
    requires CellOk(c, id, key, store) && c.pc.Deleting?
    requires fault.Fail? ==> fault.error != NotFound
    ensures var (c', store') := XcStep(c, store, fault); CellOk(c', id, key, store')
  {
    var (c', store') := XcStep(c, store, fault);
    ServeOwnKey(store, XcRequest(c.pc), fault);
    assert InFlightOk(c', key, store');
    XcAnswerKeeps(c, c', id, key, store, store');
  }

  lemma XcStepKeeps(c: Cell, id: Name, key: XcKey, store: Store, fault: Fault)
    requires CellOk(c, id, key, store) && TalksToXc(c.pc)
    requires fault.Fail? ==> fault.error != NotFound
    ensures var (c', store') := XcStep(c, store, fault); CellOk(c', id, key, store')
    ensures XcRequest(c.pc).key == key
  {
    if c.pc.Deleting? {
      DeleteStepKeeps(c, id, key, store, fault);
    } else if c.pc.Getting? {
      GetStepKeeps(c, id, key, store, fault);
    } else {
      MutationKeeps(c, id, key, store, fault);
    }
  }

  /** What a landed write leaves of the version it replaces. */
  predicate Succeeds(v: CR, next: Option<CR>, key: XcKey, store: Store) {
    && (next.Some? ==> next.value.id == v.id && KeyOf(next.value) == KeyOf(v) && next.value.deleting == v.deleting)
    && (next.None? ==> v.deleting)
    && (Holding(Some(v)) && !Holding(next) ==> v.deleting && (v.deletionPolicy == ORPHAN || key !in store))
  }

  lemma LandedSucceeds(c: Cell, id: Name, key: XcKey, store: Store)
    requires CellOk(c, id, key, store) && (c.pc.WritingObject? || c.pc.WritingStatus?)
    ensures c.hist[c.base].Some?
    ensures Succeeds(c.hist[c.base].value, Landed(c.hist[c.base].value, c.pc), key, store)
  {
  }

  lemma AppendKeeps(c: Cell, c': Cell, id: Name, key: XcKey, store: Store, next: Option<CR>)
    requires CellOk(c, id, key, store)
    requires c.base + 1 == |c.hist| && Last(c.hist).Some? && Succeeds(Last(c.hist).value, next, key, store)
    requires c'.base == c.base && c'.cached == c.cached && c'.pc.Idle? && c'.hist == c.hist + [next]
    ensures CellOk(c', id, key, store)
  {
    var n := |c.hist|;
    assert c'.hist[..n] == c.hist;
    assert c.cached == n - 1;
    assert c'.hist[n - 1] == Last(c.hist) && c'.hist[n] == Last(c'.hist) == next;
    assert ReleasedAsOrphan(c'.hist) == if Holding(Last(c.hist)) && !Holding(next) then Last(c.hist).value.deletionPolicy == ORPHAN else ReleasedAsOrphan(c.hist);
  }

  lemma WriteStepKeeps(c: Cell, id: Name, key: XcKey, store: Store, fault: Fault)
    requires CellOk(c, id, key, store) && (c.pc.WritingObject? || c.pc.WritingStatus?)
    ensures CellOk(WriteStep(c, fault), id, key, store)
  {
    LandedSucceeds(c, id, key, store);
    var c' := WriteStep(c, fault);
    if c'.hist != c.hist {
      AppendKeeps(c, c', id, key, store, Landed(c.hist[c.base].value, c.pc));
    } else {
      assert NothingLiveAhead(c) == NothingLiveAhead(c');
    }
  }

  lemma UserKeeps(c: Cell, id: Name, key: XcKey, store: Store, v: Option<CR>)
    requires CellOk(c, id, key, store) && UserMay(Last(c.hist), v)
    requires v.Some? ==> v.value.id == id && KeyOf(v.value) == key
    ensures CellOk(c.(hist := c.hist + [v]), id, key, store)
  {
    var c' := c.(hist := c.hist + [v]);
    assert c'.hist[..|c.hist|] == c.hist;
    assert Holding(Last(c.hist)) ==> Holding(v);
    assert c'.hist[|c.hist| - 1] == Last(c.hist);
  }

  /** Other pools and outside edits of existing objects cannot put anything under this pool's key. */
  lemma StoreShrinksHere(c: Cell, id: Name, key: XcKey, store: Store, store': Store)
    requires CellOk(c, id, key, store)
    requires key in store' ==> key in store
    ensures CellOk(c, id, key, store')
  {
  }

  // ----- The whole system -----

  /** A step of one pool leaves the store as it was under every other pool's key. */
  lemma OthersKeepTheStore(rules: Rules, w: World, i: Name, fault: Fault, id: Name)
    requires StandingRules(rules) && WorldOk(rules, w) && Enabled(rules, w, Proceed(i, fault))
    requires id in w.cells && i != id
    ensures var store' := ProceedStep(w.cells[i], w.store, fault).1; var key := rules.keys[id];
            (key in store' <==> key in w.store) && (key in w.store ==> store'[key] == w.store[key])
  {
    var c := w.cells[i];
    assert CellOk(c, i, rules.keys[i], w.store);
    if TalksToXc(c.pc) {
      XcStepKeeps(c, i, rules.keys[i], w.store, fault);
      ServeFrame(w.store, XcRequest(c.pc), fault, rules.keys[id]);
    }
  }

  lemma OwnStepKeeps(c: Cell, id: Name, key: XcKey, store: Store, fault: Fault)
    requires CellOk(c, id, key, store) && !c.pc.Idle?
    requires fault.Fail? ==> fault.error != NotFound
    ensures var (c', store') := ProceedStep(c, store, fault); CellOk(c', id, key, store')
  {
    if TalksToXc(c.pc) {
      XcStepKeeps(c, id, key, store, fault);
    } else {
      WriteStepKeeps(c, id, key, store, fault);
    }
  }

  lemma StepKeeps(rules: Rules, w: World, ev: Event)
    requires StandingRules(rules) && WorldOk(rules, w) && Enabled(rules, w, ev)
    ensures WorldOk(rules, Next(rules, w, ev))
  {
    var w' := Next(rules, w, ev);
    forall id | id in w'.cells
      ensures CellOk(w'.cells[id], id, rules.keys[id], w'.store)
    {
      CellStepKeeps(rules, w, ev, id);
    }
  }

  lemma CellStepKeeps(rules: Rules, w: World, ev: Event, id: Name)
    requires StandingRules(rules) && WorldOk(rules, w) && Enabled(rules, w, ev) && id in w.cells
    ensures CellOk(Next(rules, w, ev).cells[id], id, rules.keys[id], Next(rules, w, ev).store)
  {
    var c, key := w.cells[id], rules.keys[id];
    assert CellOk(c, id, key, w.store);
    match ev
    case Read(i, found, permitted) =>
      if i == id { ReadKeeps(c, id, key, w.store, found, permitted); }
    case Proceed(i, fault) =>
      if i == id {
        OwnStepKeeps(c, id, key, w.store, fault);
      } else {
        OthersKeepTheStore(rules, w, i, fault, id);
        StoreShrinksHere(c, id, key, w.store, Next(rules, w, ev).store);
      }
    case Crash(i) =>
    case CacheMoves(i, to) =>
    case UserWrites(i, v) =>
      if i == id { UserKeeps(c, id, key, w.store, v); }
    case OutsideEdit(k, edited) =>
      StoreShrinksHere(c, id, key, w.store, Next(rules, w, ev).store);
  }

  lemma InitiallyWorldOk(rules: Rules, w: World)
    requires Initial(rules, w)
    ensures WorldOk(rules, w)
  {
  }

  lemma {:induction false} RunKeeps(rules: Rules, w: World, evs: seq<Event>)
    requires StandingRules(rules) && WorldOk(rules, w) && IsRun(rules, w, evs)
    ensures WorldOk(rules, After(rules, w, evs))
    decreases evs
  {
    if evs != [] {
      StepKeeps(rules, w, evs[0]);
      RunKeeps(rules, Next(rules, w, evs[0]), evs[1..]);
    }
  }

  /**
   Leak-freedom. Through any interleaving of reconciles of any number of pools with
   user edits, deletions and re-creations, API errors, lost replies, crashes, a
   lagging cache and outside edits of XC objects: if XC holds an object under a
   pool's key, the stored pool carries the operator's finalizer, or the operator let
   go of it under the orphan policy.
   */
  lemma NoLeak(rules: Rules, w: World, evs: seq<Event>, id: Name)
    requires StandingRules(rules) && Initial(rules, w) && IsRun(rules, w, evs) && id in rules.keys
    ensures var w' := After(rules, w, evs);
            id in w'.cells && w'.cells[id].hist != []
            && (rules.keys[id] in w'.store ==> Holding(Last(w'.cells[id].hist)) || ReleasedAsOrphan(w'.cells[id].hist))
  {
    InitiallyWorldOk(rules, w);
    RunKeeps(rules, w, evs);
    assert CellOk(After(rules, w, evs).cells[id], id, rules.keys[id], After(rules, w, evs).store);
  }

  predicate NeverOrphaned(hist: seq<Option<CR>>) {
    forall j | 0 <= j < |hist| && hist[j].Some? :: hist[j].value.deletionPolicy != ORPHAN
  }

  lemma {:induction false} NeverReleasedAsOrphan(hist: seq<Option<CR>>)
    requires NeverOrphaned(hist)
    ensures !ReleasedAsOrphan(hist)
    decreases |hist|
  {
    if |hist| >= 2 {
      NeverReleasedAsOrphan(hist[..|hist| - 1]);
    }
  }

  /** Once a pool that never asked to be orphaned is gone, so is its XC object. */
  lemma GoneMeansGone(rules: Rules, w: World, evs: seq<Event>, id: Name)
    requires StandingRules(rules) && Initial(rules, w) && IsRun(rules, w, evs) && id in rules.keys
    requires id in After(rules, w, evs).cells
    requires var hist := After(rules, w, evs).cells[id].hist; hist != [] && Last(hist).None? && NeverOrphaned(hist)
    ensures rules.keys[id] !in After(rules, w, evs).store
  {
    NoLeak(rules, w, evs, id);
    NeverReleasedAsOrphan(After(rules, w, evs).cells[id].hist);
  }
}
