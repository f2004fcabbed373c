/**
 What a reader of a pool can rely on, from the pool alone: when a live pool reports
 Synced=True for its current generation, XC holds the payload of its current spec, and
 when it reports an older generation, the payload of that version or a later one.
 */
module CurrentStatus {
  import opened Wrappers
  import opened XcApi
  import opened OriginPoolTypes
  import opened Discovery
  import opened Reconciler
  import opened Protocol
  import opened LeakFreedom
  import opened TruthfulStatus
  import Mapper = OriginPoolMapper

  /** A live pool that says Synced=True, for the generation it has now. */
  predicate ReportsCurrentSpec(v: Option<CR>) {
    Stands(v) && v.value.status.synced.value.observedGeneration == v.value.generation
  }

  /** What completed discoveries of this pool have found in the course of a run. */
  function OriginsRead(evs: seq<Event>, id: Name): set<Origins> {
    set k | 0 <= k < |evs| && evs[k].Read? && evs[k].id == id && evs[k].found.allResolved :: evs[k].found.origins
  }

  /** Origins some discovery found, standing for the discover entries of this spec and for nothing else. */
  predicate OriginsFit(spec: OriginPoolSpec, origins: Origins, read: set<Origins>) {
    if HasDiscover(spec) then Mapper.Aligned(spec, origins) && origins in read else origins == []
  }

  /** XC holds the payload of this spec, its discover entries, if it has any, resolved as some discovery did. */
  predicate HoldsSpec(store: Store, key: XcKey, spec: OriginPoolSpec, read: set<Origins>) {
    exists origins | origins in read + {[]} :: OriginsFit(spec, origins, read) && InSync(store, key, spec, origins)
  }

  predicate FlightFits(pc: Pc, read: set<Origins>) {
    match pc
    case Getting(cr, origins) => OriginsFit(cr.spec, origins, read)
    case Creating(cr, origins) => OriginsFit(cr.spec, origins, read)
    case Replacing(cr, origins, _) => OriginsFit(cr.spec, origins, read)
    case WritingStatus(cr, _, _, matched) => matched.Some? ==> OriginsFit(cr.spec, matched.value, read)
    case _ => true
  }

  /** No version the cache may still show, nor the one in flight, has another spec. */
  predicate OneSpecAhead(c: Cell, spec: OriginPoolSpec)
    requires c.base < |c.hist|
  {
    && (forall j | c.cached <= j < |c.hist| && c.hist[j].Some? :: c.hist[j].value.spec == spec)
    && (!c.pc.Idle? && c.hist[c.base].Some? ==> c.hist[c.base].value.spec == spec)
  }

  predicate CurrentOk(c: Cell, key: XcKey, store: Store, read: set<Origins>)
    requires c.base < |c.hist|
  {
    && FlightFits(c.pc, read)
    && (ReportsCurrentSpec(Last(c.hist)) ==>
          HoldsSpec(store, key, Last(c.hist).value.spec, read) && OneSpecAhead(c, Last(c.hist).value.spec))
  }

  function ReportedGeneration(v: Option<CR>): nat
    requires Stands(v)
  {
    v.value.status.synced.value.observedGeneration
  }

  /** Version j is of generation g or later, and XC holds its spec. */
  predicate HoldsVersion(c: Cell, j: nat, g: nat, key: XcKey, store: Store, read: set<Origins>) {
    j < |c.hist| && c.hist[j].Some? && c.hist[j].value.generation >= g && HoldsSpec(store, key, c.hist[j].value.spec, read)
  }

  /** While a report for generation g stands, XC holds a version not older than g, and no older one is to be read or in flight. */
  predicate NotOlder(c: Cell, key: XcKey, store: Store, read: set<Origins>)
    requires c.base < |c.hist|
  {
    Stands(Last(c.hist)) ==>
      var g := ReportedGeneration(Last(c.hist));
      && (exists j: nat | j < |c.hist| :: HoldsVersion(c, j, g, key, store, read))
      && (forall j | c.cached <= j < |c.hist| && c.hist[j].Some? :: c.hist[j].value.generation >= g)
      && (!c.pc.Idle? && c.hist[c.base].Some? ==> c.hist[c.base].value.generation >= g)
  }

  predicate AllOk(c: Cell, id: Name, key: XcKey, store: Store, read: set<Origins>) {
    CellOk(c, id, key, store) && ReportOk(c, key, store) && CurrentOk(c, key, store, read) && NotOlder(c, key, store, read)
  }

  // ----- One pool -----

  lemma MoreIsRead(c: Cell, key: XcKey, store: Store, read: set<Origins>, read': set<Origins>)
    requires c.base < |c.hist| && CurrentOk(c, key, store, read) && read <= read'
    ensures CurrentOk(c, key, store, read')
  {
  }

  lemma ReadKeepsCurrent(c: Cell, id: Name, key: XcKey, store: Store, read: set<Origins>, found: DiscoveryResult, permitted: bool)
    requires AllOk(c, id, key, store, read) && c.pc.Idle? && MayFind(c.hist[c.cached], found)
    requires found.allResolved ==> found.origins in read
    ensures CurrentOk(ReadStep(c, found, permitted), key, store, read)
  {
    assert FlightFits(Start(c.hist[c.cached], found, permitted), read);
  }

  lemma XcStepKeepsFit(c: Cell, store: Store, read: set<Origins>, fault: Fault)
    requires TalksToXc(c.pc) && FlightFits(c.pc, read)
    ensures FlightFits(XcStep(c, store, fault).0.pc, read)
  {
  }

  lemma GetKeepsStore(c: Cell, store: Store, fault: Fault)
    requires c.pc.Getting?
    ensures XcStep(c, store, fault).1 == store
  {
  }

  /** An applied replace stores the payload of the spec it was computed from. */
  lemma ReplaceHolds(c: Cell, id: Name, key: XcKey, store: Store, read: set<Origins>, fault: Fault)
    requires AllOk(c, id, key, store, read) && c.pc.Replacing?
    ensures var store' := XcStep(c, store, fault).1;
            store' == store || HoldsSpec(store', key, c.pc.cr.spec, read)
  {
    ServedReplaceHolds(store, key, c.pc.resourceVersion, c.pc.cr.spec, c.pc.origins, fault);
  }

  lemma ServedReplaceHolds(store: Store, key: XcKey, resourceVersion: string, spec: OriginPoolSpec, origins: Origins, fault: Fault)
    ensures var store' := Serve(store, ReplacePool(key, resourceVersion, Mapper.Payload(spec, origins)), fault).0;
            store' == store || InSync(store', key, spec, origins)
  {
    Mapper.PayloadDecodes(spec, origins);
  }

  /** Under a current report a pool neither creates nor deletes, and what it replaces it replaces by its current spec. */
  lemma CurrentOnlyReplaces(c: Cell, id: Name, key: XcKey, store: Store, read: set<Origins>)
    requires AllOk(c, id, key, store, read) && TalksToXc(c.pc) && ReportsCurrentSpec(Last(c.hist))
    ensures c.pc.Getting? || c.pc.Replacing?
    ensures c.pc.cr.spec == Last(c.hist).value.spec
  {
    assert key in store;
  }

  lemma XcStepKeepsCurrent(c: Cell, id: Name, key: XcKey, store: Store, read: set<Origins>, fault: Fault)
    requires AllOk(c, id, key, store, read) && TalksToXc(c.pc)
    ensures var (c', store') := XcStep(c, store, fault); CurrentOk(c', key, store', read)
  {
    XcStepKeepsFit(c, store, read, fault);
    if ReportsCurrentSpec(Last(c.hist)) {
      CurrentOnlyReplaces(c, id, key, store, read);
      if c.pc.Getting? {
        GetKeepsStore(c, store, fault);
      } else {
        ReplaceHolds(c, id, key, store, read, fault);
      }
    }
  }

  /** What the landed write reports as current, XC holds. */
  lemma LandedHolds(c: Cell, id: Name, key: XcKey, store: Store, read: set<Origins>)
    requires AllOk(c, id, key, store, read) && (c.pc.WritingObject? || c.pc.WritingStatus?)
    requires c.base + 1 == |c.hist| && c.hist[c.base].Some?
    ensures var v := c.hist[c.base].value; var next := Landed(v, c.pc);
            && (next.Some? ==> next.value.spec == v.spec)
            && (ReportsCurrentSpec(next) ==> HoldsSpec(store, key, v.spec, read))
  {
    if c.pc.WritingStatus? && c.pc.matched.Some? {
      MatchReportsFit(c, id, key, store);
    } else {
      OtherWritesKeepTheReport(c, id, key, store);
    }
  }

  lemma NewVersionKeepsCurrent(c: Cell, c': Cell, key: XcKey, store: Store, read: set<Origins>, v: CR, next: Option<CR>)
    requires c.base + 1 == |c.hist| && c.hist[c.base] == Some(v) && c.cached == c.base
    requires c'.base == c.base && c'.cached == c.cached && c'.pc.Idle? && c'.hist == Append(c.hist, next)
    requires next.Some? ==> next.value.spec == v.spec
    requires ReportsCurrentSpec(next) ==> HoldsSpec(store, key, v.spec, read)
    ensures CurrentOk(c', key, store, read)
  {
    assert Last(c'.hist) == next;
    assert forall j | c'.cached <= j < |c'.hist| :: c'.hist[j] == Some(v) || c'.hist[j] == next;
  }

  lemma WriteStepKeepsCurrent(c: Cell, id: Name, key: XcKey, store: Store, read: set<Origins>, fault: Fault)
    requires AllOk(c, id, key, store, read) && (c.pc.WritingObject? || c.pc.WritingStatus?)
    ensures WriteStep(c, fault).base < |WriteStep(c, fault).hist|
    ensures CurrentOk(WriteStep(c, fault), key, store, read)
  {
    if Lands(c, fault) {
      LandedHolds(c, id, key, store, read);
      var v := c.hist[c.base].value;
      NewVersionKeepsCurrent(c, WriteStep(c, fault), key, store, read, v, Landed(v, c.pc));
    }
  }

  /** A user's write that keeps the generation keeps the spec. */
  lemma UserKeepsCurrent(c: Cell, id: Name, key: XcKey, store: Store, read: set<Origins>, v: Option<CR>)
    requires AllOk(c, id, key, store, read) && UserMay(Last(c.hist), v)
    ensures CurrentOk(c.(hist := c.hist + [v]), key, store, read)
  {
    var c' := c.(hist := c.hist + [v]);
    assert c'.hist[c.base] == c.hist[c.base];
    if ReportsCurrentSpec(v) {
      assert Stands(Last(c.hist));
      assert v.value.spec == Last(c.hist).value.spec;
    }
  }

  // ----- One pool, reports for any generation -----

  lemma MoreIsReadNotOlder(c: Cell, key: XcKey, store: Store, read: set<Origins>, read': set<Origins>)
    requires c.base < |c.hist| && NotOlder(c, key, store, read) && read <= read'
    ensures NotOlder(c, key, store, read')
  {
    if Stands(Last(c.hist)) {
      var g := ReportedGeneration(Last(c.hist));
      var j: nat :| j < |c.hist| && HoldsVersion(c, j, g, key, store, read);
      assert HoldsVersion(c, j, g, key, store, read);
      assert HoldsVersion(c, j, g, key, store, read');
    }
  }

  /** A step that stores no version and leaves the pool's object as it was. */
  lemma SameVersionsNotOlder(c: Cell, c': Cell, key: XcKey, store: Store, store': Store, read: set<Origins>)
    requires c.base < |c.hist| && NotOlder(c, key, store, read)
    requires c'.hist == c.hist && c'.base < |c.hist| && c.cached <= c'.cached
    requires c'.pc.Idle? || c'.base == c.cached || (c'.base == c.base && !c.pc.Idle?)
    requires (key in store' <==> key in store) && (key in store ==> store'[key] == store[key])
    ensures NotOlder(c', key, store', read)
  {
    if Stands(Last(c.hist)) {
      var g := ReportedGeneration(Last(c.hist));
      var j: nat :| j < |c.hist| && HoldsVersion(c, j, g, key, store, read);
      assert HoldsVersion(c, j, g, key, store, read);
      assert HoldsVersion(c', j, g, key, store', read);
    }
  }

  /** A step that puts the spec of the version in flight into XC. */
  lemma NewObjectNotOlder(c: Cell, c': Cell, key: XcKey, store: Store, store': Store, read: set<Origins>)
    requires c.base < |c.hist| && NotOlder(c, key, store, read) && !c.pc.Idle?
    requires c'.hist == c.hist && c'.base == c.base && c'.cached == c.cached
    requires c.hist[c.base].Some? && HoldsSpec(store', key, c.hist[c.base].value.spec, read)
    ensures NotOlder(c', key, store', read)
  {
    if Stands(Last(c.hist)) {
      assert HoldsVersion(c', c.base, ReportedGeneration(Last(c.hist)), key, store', read);
    }
  }

  lemma ReplacedNotOlder(c: Cell, id: Name, key: XcKey, store: Store, read: set<Origins>, fault: Fault)
    requires AllOk(c, id, key, store, read) && c.pc.Replacing?
    ensures var (c', store') := XcStep(c, store, fault); NotOlder(c', key, store', read)
  {
    var (c', store') := XcStep(c, store, fault);
    ReplaceHolds(c, id, key, store, read, fault);
    if store' == store {
      SameVersionsNotOlder(c, c', key, store, store', read);
    } else {
      NewObjectNotOlder(c, c', key, store, store', read);
    }
  }

  lemma StandingOnlyReplaces(c: Cell, id: Name, key: XcKey, store: Store, read: set<Origins>)
    requires AllOk(c, id, key, store, read) && TalksToXc(c.pc) && Stands(Last(c.hist))
    ensures c.pc.Getting? || c.pc.Replacing?
  {
    var j: nat :| j < |c.hist| && HoldsVersion(c, j, ReportedGeneration(Last(c.hist)), key, store, read);
    assert HoldsVersion(c, j, ReportedGeneration(Last(c.hist)), key, store, read);
    assert key in store;
  }

  lemma XcStepNotOlder(c: Cell, id: Name, key: XcKey, store: Store, read: set<Origins>, fault: Fault)
    requires AllOk(c, id, key, store, read) && TalksToXc(c.pc)
    ensures var (c', store') := XcStep(c, store, fault); NotOlder(c', key, store', read)
  {
    var (c', store') := XcStep(c, store, fault);
    if Stands(Last(c.hist)) {
      StandingOnlyReplaces(c, id, key, store, read);
      if c.pc.Getting? {
        GetKeepsStore(c, store, fault);
        SameVersionsNotOlder(c, c', key, store, store', read);
      } else {
        ReplacedNotOlder(c, id, key, store, read, fault);
      }
    }
  }

  /** What a landed write reports: the generation it worked on, or what stood before. */
  lemma LandedReports(c: Cell, id: Name, key: XcKey, store: Store, read: set<Origins>)
    requires AllOk(c, id, key, store, read) && (c.pc.WritingObject? || c.pc.WritingStatus?)
    requires c.base + 1 == |c.hist| && c.hist[c.base].Some?
    ensures var v := c.hist[c.base].value; var next := Landed(v, c.pc);
            && (next.Some? ==> next.value.generation == v.generation)
            && (Stands(next) ==>
                  || (ReportedGeneration(next) == v.generation && HoldsSpec(store, key, v.spec, read))
                  || (Stands(Some(v)) && ReportedGeneration(next) == ReportedGeneration(Some(v))))
  {
    if c.pc.WritingStatus? && c.pc.matched.Some? {
      MatchReportsFit(c, id, key, store);
    } else {
      OtherWritesKeepTheReport(c, id, key, store);
    }
  }

  lemma NewVersionNotOlder(c: Cell, c': Cell, key: XcKey, store: Store, read: set<Origins>, v: CR, next: Option<CR>)
    requires c.base + 1 == |c.hist| && c.hist[c.base] == Some(v) && c.cached == c.base && NotOlder(c, key, store, read)
    requires c'.base == c.base && c'.cached == c.cached && c'.pc.Idle? && c'.hist == Append(c.hist, next)
    requires next.Some? ==> next.value.generation == v.generation
    requires Stands(next) ==>
               || (ReportedGeneration(next) == v.generation && HoldsSpec(store, key, v.spec, read))
               || (Stands(Some(v)) && ReportedGeneration(next) == ReportedGeneration(Some(v)))
    ensures NotOlder(c', key, store, read)
  {
    assert Last(c'.hist) == next && c'.hist[c.base] == Some(v);
    assert forall j | c'.cached <= j < |c'.hist| :: c'.hist[j] == Some(v) || c'.hist[j] == next;
    if Stands(next) {
      var g := ReportedGeneration(next);
      if g == v.generation && HoldsSpec(store, key, v.spec, read) {
        assert HoldsVersion(c', c.base, g, key, store, read);
      } else {
        var j: nat :| j < |c.hist| && HoldsVersion(c, j, g, key, store, read);
        assert HoldsVersion(c, j, g, key, store, read);
        assert c'.hist[j] == c.hist[j];
        assert HoldsVersion(c', j, g, key, store, read);
      }
    }
  }

  lemma WriteStepNotOlder(c: Cell, id: Name, key: XcKey, store: Store, read: set<Origins>, fault: Fault)
    requires AllOk(c, id, key, store, read) && (c.pc.WritingObject? || c.pc.WritingStatus?)
    ensures WriteStep(c, fault).base < |WriteStep(c, fault).hist|
    ensures NotOlder(WriteStep(c, fault), key, store, read)
  {
    if Lands(c, fault) {
      LandedReports(c, id, key, store, read);
      var v := c.hist[c.base].value;
      NewVersionNotOlder(c, WriteStep(c, fault), key, store, read, v, Landed(v, c.pc));
    } else {
      SameVersionsNotOlder(c, WriteStep(c, fault), key, store, store, read);
    }
  }

  /** A user's write leaves the report as it is, under a generation no smaller. */
  lemma UserNotOlder(c: Cell, id: Name, key: XcKey, store: Store, read: set<Origins>, v: Option<CR>)
    requires AllOk(c, id, key, store, read) && UserMay(Last(c.hist), v)
    ensures NotOlder(c.(hist := c.hist + [v]), key, store, read)
  {
    var c' := c.(hist := c.hist + [v]);
    if Stands(v) {
      assert Stands(Last(c.hist));
      var g := ReportedGeneration(Last(c.hist));
      var j: nat :| j < |c.hist| && HoldsVersion(c, j, g, key, store, read);
      assert HoldsVersion(c, j, g, key, store, read);
      assert c'.hist[j] == c.hist[j] && c'.hist[c.base] == c.hist[c.base];
      assert HoldsVersion(c', j, g, key, store, read);
    }
  }

  // ----- The whole system -----

  /** The invariant after the events `past`. */
  predicate SystemOk(rules: Rules, w: World, past: seq<Event>) {
    && WorldOk(rules, w)
    && ReportsOk(rules, w)
    && forall id | id in w.cells :: AllOk(w.cells[id], id, rules.keys[id], w.store, OriginsRead(past, id))
  }

  lemma ProceedKeepsCurrent(rules: Rules, w: World, past: seq<Event>, i: Name, fault: Fault, id: Name)
    requires StandingRules(rules) && SystemOk(rules, w, past) && Enabled(rules, w, Proceed(i, fault)) && id in w.cells
    ensures var w' := Next(rules, w, Proceed(i, fault)); var c := w'.cells[id];
            c.base < |c.hist| && CurrentOk(c, rules.keys[id], w'.store, OriginsRead(past, id))
            && NotOlder(c, rules.keys[id], w'.store, OriginsRead(past, id))
  {
    var c, key, read := w.cells[id], rules.keys[id], OriginsRead(past, id);
    assert AllOk(c, id, key, w.store, read);
    if i != id {
      OtherProceedKeepsCurrent(rules, w, i, fault, id, read);
    } else {
      OwnProceedKeepsCurrent(c, id, key, w.store, read, fault);
    }
  }

  lemma OwnProceedKeepsCurrent(c: Cell, id: Name, key: XcKey, store: Store, read: set<Origins>, fault: Fault)
    requires AllOk(c, id, key, store, read) && !c.pc.Idle?
    ensures var (c', store') := ProceedStep(c, store, fault);
            c'.base < |c'.hist| && CurrentOk(c', key, store', read) && NotOlder(c', key, store', read)
  {
    if TalksToXc(c.pc) {
      XcStepKeepsCurrent(c, id, key, store, read, fault);
      XcStepNotOlder(c, id, key, store, read, fault);
    } else {
      WriteStepKeepsCurrent(c, id, key, store, read, fault);
      WriteStepNotOlder(c, id, key, store, read, fault);
    }
  }

  lemma OtherProceedKeepsCurrent(rules: Rules, w: World, i: Name, fault: Fault, id: Name, read: set<Origins>)
    requires StandingRules(rules) && WorldOk(rules, w) && Enabled(rules, w, Proceed(i, fault)) && id in w.cells && i != id
    requires AllOk(w.cells[id], id, rules.keys[id], w.store, read)
    ensures var w' := Next(rules, w, Proceed(i, fault));
            w'.cells[id] == w.cells[id]
            && CurrentOk(w.cells[id], rules.keys[id], w'.store, read) && NotOlder(w.cells[id], rules.keys[id], w'.store, read)
  {
    OthersKeepTheStore(rules, w, i, fault, id);
    SameVersionsNotOlder(w.cells[id], w.cells[id], rules.keys[id], w.store, Next(rules, w, Proceed(i, fault)).store, read);
  }

  lemma QuietStepKeepsCurrent(rules: Rules, w: World, past: seq<Event>, ev: Event, id: Name)
    requires StandingRules(rules) && SystemOk(rules, w, past) && Enabled(rules, w, ev) && id in w.cells
    requires !ev.OutsideEdit? && !ev.Proceed?
    ensures var w' := Next(rules, w, ev); var c := w'.cells[id];
            c.base < |c.hist| && CurrentOk(c, rules.keys[id], w'.store, OriginsRead(past + [ev], id))
            && NotOlder(c, rules.keys[id], w'.store, OriginsRead(past + [ev], id))
  {
    var c, key, read := w.cells[id], rules.keys[id], OriginsRead(past + [ev], id);
    ReadsGrow(past, ev, id);
    MoreIsRead(c, key, w.store, OriginsRead(past, id), read);
    MoreIsReadNotOlder(c, key, w.store, OriginsRead(past, id), read);
    if ev.id == id {
      OwnQuietStepKeepsCurrent(rules, w, c, id, key, read, ev);
    } else {
      assert Next(rules, w, ev).cells[id] == c;
    }
  }

  lemma OwnQuietStepKeepsCurrent(rules: Rules, w: World, c: Cell, id: Name, key: XcKey, read: set<Origins>, ev: Event)
    requires Enabled(rules, w, ev) && !ev.OutsideEdit? && !ev.Proceed? && ev.id == id
    requires id in w.cells && w.cells[id] == c && AllOk(c, id, key, w.store, read)
    requires rules.monotoneCache
    requires ev.Read? && ev.found.allResolved ==> ev.found.origins in read
    ensures var c' := Next(rules, w, ev).cells[id];
            c'.base < |c'.hist| && CurrentOk(c', key, w.store, read) && NotOlder(c', key, w.store, read)
  {
    if ev.UserWrites? {
      UserKeepsCurrent(c, id, key, w.store, read, ev.version);
      UserNotOlder(c, id, key, w.store, read, ev.version);
    } else {
      if ev.Read? {
        ReadKeepsCurrent(c, id, key, w.store, read, ev.found, ev.refsPermitted);
      }
      SameVersionsNotOlder(c, Next(rules, w, ev).cells[id], key, w.store, w.store, read);
    }
  }

  lemma ReadsGrow(past: seq<Event>, ev: Event, id: Name)
    ensures OriginsRead(past, id) <= OriginsRead(past + [ev], id)
    ensures ev.Read? && ev.id == id && ev.found.allResolved ==> ev.found.origins in OriginsRead(past + [ev], id)
  {
    var all := past + [ev];
    assert all[|past|] == ev;
    forall o | o in OriginsRead(past, id)
      ensures o in OriginsRead(all, id)
    {
      var k := ReadBy(past, id, o);
      assert all[k] == past[k];
    }
  }

  lemma StepKeepsSystem(rules: Rules, w: World, past: seq<Event>, ev: Event)
    requires StandingRules(rules) && SystemOk(rules, w, past) && Enabled(rules, w, ev) && !ev.OutsideEdit?
    ensures SystemOk(rules, Next(rules, w, ev), past + [ev])
  {
    StepKeepsReports(rules, w, ev);
    forall id | id in Next(rules, w, ev).cells
      ensures AllOk(Next(rules, w, ev).cells[id], id, rules.keys[id], Next(rules, w, ev).store, OriginsRead(past + [ev], id))
    {
      if ev.Proceed? {
        ProceedKeepsCurrent(rules, w, past, ev.id, ev.fault, id);
        ReadsGrow(past, ev, id);
        MoreIsRead(Next(rules, w, ev).cells[id], rules.keys[id], Next(rules, w, ev).store, OriginsRead(past, id), OriginsRead(past + [ev], id));
        MoreIsReadNotOlder(Next(rules, w, ev).cells[id], rules.keys[id], Next(rules, w, ev).store, OriginsRead(past, id), OriginsRead(past + [ev], id));
      } else {
        QuietStepKeepsCurrent(rules, w, past, ev, id);
      }
    }
  }

  lemma {:induction false} RunKeepsSystem(rules: Rules, w: World, past: seq<Event>, evs: seq<Event>)
    requires StandingRules(rules) && SystemOk(rules, w, past) && IsRun(rules, w, evs) && NoOutsideEdits(evs)
    ensures SystemOk(rules, After(rules, w, evs), past + evs)
    decreases evs
  {
    if evs == [] {
      assert past + evs == past;
    } else {
      StepKeepsSystem(rules, w, past, evs[0]);
      assert NoOutsideEdits(evs[1..]);
      RunKeepsSystem(rules, Next(rules, w, evs[0]), past + [evs[0]], evs[1..]);
      Regrouped(past, evs);
    }
  }

  lemma Regrouped(past: seq<Event>, evs: seq<Event>)
    requires evs != []
    ensures past + [evs[0]] + evs[1..] == past + evs
  {
  }

  /** The event is a completed discovery of this pool, with an origin for each discover entry of the spec and for nothing else. */
  predicate FoundBy(ev: Event, id: Name, spec: OriginPoolSpec) {
    ev.Read? && ev.id == id && ev.found.allResolved && Mapper.Aligned(spec, ev.found.origins)
  }

  /** XC holds the spec's payload, its discover entries, if any, replaced by what an event of the run found. */
  predicate HoldsAsFound(store: Store, key: XcKey, spec: OriginPoolSpec, evs: seq<Event>, id: Name) {
    if HasDiscover(spec)
    then exists k | 0 <= k < |evs| :: FoundBy(evs[k], id, spec) && InSync(store, key, spec, evs[k].found.origins)
    else InSync(store, key, spec, [])
  }

  lemma ReadBy(evs: seq<Event>, id: Name, origins: Origins) returns (k: nat)
    requires origins in OriginsRead(evs, id)
    ensures k < |evs| && evs[k].Read? && evs[k].id == id && evs[k].found.allResolved && evs[k].found.origins == origins
  {
    k :| 0 <= k < |evs| && evs[k].Read? && evs[k].id == id && evs[k].found.allResolved && evs[k].found.origins == origins;
  }

  lemma HeldAsFound(store: Store, key: XcKey, spec: OriginPoolSpec, evs: seq<Event>, id: Name)
    requires HoldsSpec(store, key, spec, OriginsRead(evs, id))
    ensures HoldsAsFound(store, key, spec, evs, id)
  {
    var read := OriginsRead(evs, id);
    var origins :| origins in read + {[]} && OriginsFit(spec, origins, read) && InSync(store, key, spec, origins);
    if HasDiscover(spec) {
      assert OriginsFit(spec, origins, read);
      assert origins in read;
      var k := ReadBy(evs, id, origins);
      assert FoundBy(evs[k], id, spec);
    }
  }

  /**
   Truthful status. In every reachable state without outside edits, whatever failed,
   crashed or was read late: if a live pool reports Synced=True and the condition's
   generation is the pool's, XC holds the payload of the pool's spec. If that has
   discover entries, they are replaced, one by one, by the origins that a completed
   discovery of this pool found earlier in the run.
   */
  lemma CurrentReportsAreTrue(rules: Rules, w: World, evs: seq<Event>, id: Name)
    requires StandingRules(rules) && Initial(rules, w) && IsRun(rules, w, evs) && NoOutsideEdits(evs) && id in rules.keys
    ensures var w' := After(rules, w, evs);
            id in w'.cells && w'.cells[id].hist != []
            && var v := Last(w'.cells[id].hist);
               ReportsCurrentSpec(v) ==> HoldsAsFound(w'.store, rules.keys[id], v.value.spec, evs, id)
  {
    InitiallyReportsOk(rules, w);
    RunKeepsSystem(rules, w, [], evs);
    assert [] + evs == evs;
    var w' := After(rules, w, evs);
    assert AllOk(w'.cells[id], id, rules.keys[id], w'.store, OriginsRead(evs, id));
    if ReportsCurrentSpec(Last(w'.cells[id].hist)) {
      HeldAsFound(w'.store, rules.keys[id], Last(w'.cells[id].hist).value.spec, evs, id);
    }
  }

  /** XC holds, as found, the payload of a stored version of generation g or later. */
  predicate HoldsSince(hist: seq<Option<CR>>, g: nat, store: Store, key: XcKey, evs: seq<Event>, id: Name) {
    exists j | 0 <= j < |hist| && hist[j].Some? :: hist[j].value.generation >= g && HoldsAsFound(store, key, hist[j].value.spec, evs, id)
  }

  lemma HeldSince(c: Cell, key: XcKey, store: Store, evs: seq<Event>, id: Name)
    requires c.base < |c.hist| && Stands(Last(c.hist)) && NotOlder(c, key, store, OriginsRead(evs, id))
    ensures HoldsSince(c.hist, ReportedGeneration(Last(c.hist)), store, key, evs, id)
  {
    var g := ReportedGeneration(Last(c.hist));
    var j: nat :| j < |c.hist| && HoldsVersion(c, j, g, key, store, OriginsRead(evs, id));
    assert HoldsVersion(c, j, g, key, store, OriginsRead(evs, id));
    HeldAsFound(store, key, c.hist[j].value.spec, evs, id);
  }

  /**
   The same for a report of any generation: as long as a live pool reports Synced=True
   for generation g, XC holds, as found, the payload of a stored version of generation
   g or later. A report is at worst behind XC, never ahead of it.
   */
  lemma ReportsAreNeverAhead(rules: Rules, w: World, evs: seq<Event>, id: Name)
    requires StandingRules(rules) && Initial(rules, w) && IsRun(rules, w, evs) && NoOutsideEdits(evs) && id in rules.keys
    ensures var w' := After(rules, w, evs);
            id in w'.cells && w'.cells[id].hist != []
            && var hist := w'.cells[id].hist;
               Stands(Last(hist)) ==> HoldsSince(hist, ReportedGeneration(Last(hist)), w'.store, rules.keys[id], evs, id)
  {
    InitiallyReportsOk(rules, w);
    RunKeepsSystem(rules, w, [], evs);
    assert [] + evs == evs;
    var w' := After(rules, w, evs);
    assert AllOk(w'.cells[id], id, rules.keys[id], w'.store, OriginsRead(evs, id));
    if Stands(Last(w'.cells[id].hist)) {
      HeldSince(w'.cells[id], rules.keys[id], w'.store, evs, id);
    }
  }
}
