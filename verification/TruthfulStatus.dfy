/**
 Truthful status: when a live pool reports Synced=True for generation g, does XC
 hold the payload of that generation? Not in every reachable state: a replace is
 applied before the status can say so. This module proves exactly when the report
 is true, in runs without outside edits.
 */
module TruthfulStatus {
  import opened Wrappers
  import opened XcApi
  import opened OriginPoolTypes
  import opened Discovery
  import opened Reconciler
  import opened Protocol
  import opened LeakFreedom
  import Mapper = OriginPoolMapper
  import Diff

  predicate ReportsSynced(s: Status) {
    s.synced.Some? && s.synced.value.status
  }

  /** The report stands: a pool that is not being deleted says Synced=True. */
  predicate Stands(v: Option<CR>) {
    v.Some? && !v.value.deleting && ReportsSynced(v.value.status)
  }

  /** XC holds, up to what the drift comparison ignores, the payload of this spec and these origins. */
  predicate InSync(store: Store, key: XcKey, spec: OriginPoolSpec, origins: Origins) {
    key in store && Diff.CompareStored(store[key].spec, Mapper.Payload(spec, origins)) == Ok(false)
  }

  predicate Truthful(c: Cell, key: XcKey, store: Store)
    requires c.hist != []
  {
    Stands(Last(c.hist)) ==> c.claim.Some? && InSync(store, key, c.claim.value.spec, c.claim.value.origins)
  }

  /** The claim on record is the one the status names: its generation, and that generation's spec. */
  predicate ClaimFits(v: Option<CR>, claim: Option<Claim>) {
    Stands(v) ==>
      && claim.Some?
      && claim.value.generation == v.value.status.synced.value.observedGeneration <= v.value.generation
      && (claim.value.generation == v.value.generation ==> claim.value.spec == v.value.spec)
  }

  /** What the reconcile in flight knows about XC and about the report. */
  predicate KnowsXc(c: Cell, key: XcKey, store: Store)
    requires c.base < |c.hist|
  {
    var v := c.hist[c.base];
    match c.pc
    case Getting(cr, _) => v.Some? && cr.status.synced == v.value.status.synced
    case Creating(cr, _) => key !in store
    case Replacing(cr, origins, _) =>
      key in store && Diff.CompareStored(store[key].spec, Mapper.Payload(cr.spec, origins)) == Ok(true)
    case WritingStatus(cr, _, _, matched) =>
      if matched.Some?
      then && ReportsSynced(cr.status) && cr.status.synced.value.observedGeneration == cr.generation
           && InSync(store, key, cr.spec, matched.value)
      else v.Some? && (cr.status.synced == v.value.status.synced || (cr.status.synced.Some? && !ReportsSynced(cr.status)))
    case _ => true
  }

  /** While a report stands, no version that is being deleted lies ahead of the cache or in flight. */
  predicate NoDeletionAhead(c: Cell)
    requires c.base < |c.hist|
  {
    Stands(Last(c.hist)) ==>
      && (forall j | c.cached <= j < |c.hist| && c.hist[j].Some? :: !c.hist[j].value.deleting)
      && (!c.pc.Idle? && c.hist[c.base].Some? ==> !c.hist[c.base].value.deleting)
  }

  predicate ReportOk(c: Cell, key: XcKey, store: Store)
    requires c.base < |c.hist|
  {
    && KnowsXc(c, key, store)
    && ClaimFits(Last(c.hist), c.claim)
    && NoDeletionAhead(c)
    && (c.dirty || Truthful(c, key, store))
  }

  predicate ReportsOk(rules: Rules, w: World)
    requires WorldOk(rules, w)
  {
    forall id | id in w.cells :: CellOk(w.cells[id], id, rules.keys[id], w.store) && ReportOk(w.cells[id], rules.keys[id], w.store)
  }

  // ----- One pool -----

  lemma ReadKeepsReport(c: Cell, id: Name, key: XcKey, store: Store, found: DiscoveryResult, permitted: bool)
    requires CellOk(c, id, key, store) && ReportOk(c, key, store) && c.pc.Idle?
    ensures ReportOk(ReadStep(c, found, permitted), key, store)
  {
  }

  lemma GetKeepsReport(c: Cell, id: Name, key: XcKey, store: Store, fault: Fault)
    requires CellOk(c, id, key, store) && ReportOk(c, key, store) && c.pc.Getting?
    requires fault.Fail? ==> fault.error != NotFound
    ensures var (c', store') := XcStep(c, store, fault); ReportOk(c', key, store')
  {
    var (c', store') := XcStep(c, store, fault);
    assert store' == store;
    assert KeyOf(c.pc.cr) == key;
    assert KnowsXc(c', key, store);
  }

  lemma CreateKeepsReport(c: Cell, id: Name, key: XcKey, store: Store, fault: Fault)
    requires CellOk(c, id, key, store) && ReportOk(c, key, store) && c.pc.Creating?
    ensures var (c', store') := XcStep(c, store, fault); ReportOk(c', key, store')
  {
    var (c', store') := XcStep(c, store, fault);
    assert KeyOf(c.pc.cr) == key;
    assert KnowsXc(c', key, store');
  }

  lemma ReplaceKeepsReport(c: Cell, id: Name, key: XcKey, store: Store, fault: Fault)
    requires CellOk(c, id, key, store) && ReportOk(c, key, store) && c.pc.Replacing?
    ensures var (c', store') := XcStep(c, store, fault); ReportOk(c', key, store')
  {
    var (c', store') := XcStep(c, store, fault);
    assert KeyOf(c.pc.cr) == key;
    assert KnowsXc(c', key, store');
  }

  lemma DeleteKeepsReport(c: Cell, id: Name, key: XcKey, store: Store, fault: Fault)
    requires CellOk(c, id, key, store) && ReportOk(c, key, store) && c.pc.Deleting?
    ensures var (c', store') := XcStep(c, store, fault); ReportOk(c', key, store')
  {
  }

  lemma XcStepKeepsReport(c: Cell, id: Name, key: XcKey, store: Store, fault: Fault)
    requires CellOk(c, id, key, store) && ReportOk(c, key, store) && TalksToXc(c.pc)
    requires fault.Fail? ==> fault.error != NotFound
    ensures var (c', store') := XcStep(c, store, fault); ReportOk(c', key, store')
  {
    if c.pc.Getting? {
      GetKeepsReport(c, id, key, store, fault);
    } else if c.pc.Deleting? {
      DeleteKeepsReport(c, id, key, store, fault);
    } else if c.pc.Creating? {
      CreateKeepsReport(c, id, key, store, fault);
    } else {
      ReplaceKeepsReport(c, id, key, store, fault);
    }
  }

  /** A landed write that is not a match report leaves a standing report as it was, or ends it. */
  lemma OtherWritesKeepTheReport(c: Cell, id: Name, key: XcKey, store: Store)
    requires CellOk(c, id, key, store) && ReportOk(c, key, store)
    requires c.pc.WritingObject? || (c.pc.WritingStatus? && c.pc.matched.None?)
    requires c.base + 1 == |c.hist|
    ensures c.hist[c.base].Some?
    ensures var v := c.hist[c.base].value; var next := Landed(v, c.pc);
            Stands(next) ==>
              && Stands(Some(v)) && next.value.status.synced == v.status.synced
              && next.value.generation == v.generation && next.value.spec == v.spec
  {
  }

  /** A landed match report stands for exactly what it claims. */
  lemma MatchReportsFit(c: Cell, id: Name, key: XcKey, store: Store)
    requires CellOk(c, id, key, store) && ReportOk(c, key, store)
    requires c.pc.WritingStatus? && c.pc.matched.Some?
    ensures c.hist[c.base].Some?
    ensures var next := Landed(c.hist[c.base].value, c.pc);
            && ClaimFits(next, Some(Claim(c.pc.cr.generation, c.pc.cr.spec, c.pc.matched.value)))
            && InSync(store, key, c.pc.cr.spec, c.pc.matched.value)
            && next.value.deleting == c.hist[c.base].value.deleting
  {
  }

  lemma NewVersionKeepsReport(c: Cell, c': Cell, id: Name, key: XcKey, store: Store, next: Option<CR>)
    requires CellOk(c, id, key, store)
    requires c.base + 1 == |c.hist| && c'.base == c.base && c'.cached == c.cached && c'.pc.Idle?
    requires c'.hist == Append(c.hist, next)
    requires Stands(next) ==> Last(c.hist).Some? && !Last(c.hist).value.deleting
    requires ClaimFits(next, c'.claim)
    requires c'.dirty || (Stands(next) ==> InSync(store, key, c'.claim.value.spec, c'.claim.value.origins))
    ensures ReportOk(c', key, store)
  {
    assert c.cached == |c.hist| - 1;
    assert Last(c'.hist) == next;
    assert forall j | c.cached <= j < |c'.hist| :: c'.hist[j] == Last(c.hist) || c'.hist[j] == next;
  }

  lemma LandedWriteKeepsReport(c: Cell, id: Name, key: XcKey, store: Store, fault: Fault)
    requires CellOk(c, id, key, store) && ReportOk(c, key, store) && (c.pc.WritingObject? || c.pc.WritingStatus?)
    requires Lands(c, fault)
    ensures ReportOk(WriteStep(c, fault), key, store)
  {
    assert Last(c.hist) == c.hist[c.base];
    if c.pc.WritingStatus? && c.pc.matched.Some? {
      MatchReportsFit(c, id, key, store);
    } else {
      OtherWritesKeepTheReport(c, id, key, store);
    }
    NewVersionKeepsReport(c, WriteStep(c, fault), id, key, store, Landed(c.hist[c.base].value, c.pc));
  }

  lemma WriteStepKeepsReport(c: Cell, id: Name, key: XcKey, store: Store, fault: Fault)
    requires CellOk(c, id, key, store) && ReportOk(c, key, store) && (c.pc.WritingObject? || c.pc.WritingStatus?)
    ensures WriteStep(c, fault).base < |WriteStep(c, fault).hist|
    ensures ReportOk(WriteStep(c, fault), key, store)
  {
    if Lands(c, fault) {
      LandedWriteKeepsReport(c, id, key, store, fault);
    }
  }

  lemma UserKeepsReport(c: Cell, id: Name, key: XcKey, store: Store, v: Option<CR>)
    requires CellOk(c, id, key, store) && ReportOk(c, key, store) && UserMay(Last(c.hist), v)
    ensures ReportOk(c.(hist := c.hist + [v]), key, store)
  {
    var c' := c.(hist := c.hist + [v]);
    assert c'.hist[c.base] == c.hist[c.base];
    assert Stands(v) ==> Stands(Last(c.hist));
  }

  lemma OtherStoreKeepsReport(c: Cell, id: Name, key: XcKey, store: Store, store': Store)
    requires CellOk(c, id, key, store) && ReportOk(c, key, store)
    requires key in store' <==> key in store
    requires key in store ==> store'[key] == store[key]
    ensures ReportOk(c, key, store')
  {
  }

  // ----- The whole system -----

  lemma OwnStepKeepsReport(c: Cell, id: Name, key: XcKey, store: Store, fault: Fault)
    requires CellOk(c, id, key, store) && ReportOk(c, key, store) && !c.pc.Idle?
    requires fault.Fail? ==> fault.error != NotFound
    ensures var (c', store') := ProceedStep(c, store, fault); c'.base < |c'.hist| && ReportOk(c', key, store')
  {
    OwnStepKeeps(c, id, key, store, fault);
    if TalksToXc(c.pc) {
      XcStepKeepsReport(c, id, key, store, fault);
    } else {
      WriteStepKeepsReport(c, id, key, store, fault);
    }
  }

  lemma IdleKeepsReport(c: Cell, key: XcKey, store: Store)
    requires c.base < |c.hist| && ReportOk(c, key, store)
    ensures ReportOk(c.(pc := Idle(Finished)), key, store)
  {
  }

  lemma NewerCacheKeepsReport(c: Cell, key: XcKey, store: Store, to: nat)
    requires c.base < |c.hist| && ReportOk(c, key, store) && c.cached <= to < |c.hist|
    ensures ReportOk(c.(cached := to), key, store)
  {
  }

  lemma QuietStepKeepsReport(rules: Rules, w: World, ev: Event, id: Name)
    requires StandingRules(rules) && WorldOk(rules, w) && ReportsOk(rules, w) && Enabled(rules, w, ev) && id in w.cells
    requires !ev.OutsideEdit? && !ev.Proceed?
    ensures Next(rules, w, ev).store == w.store
    ensures var c' := Next(rules, w, ev).cells[id]; c'.base < |c'.hist| && ReportOk(c', rules.keys[id], w.store)
  {
    var c, key := w.cells[id], rules.keys[id];
    assert CellOk(c, id, key, w.store) && ReportOk(c, key, w.store);
    if ev.id == id {
      match ev
      case Read(_, found, permitted) => ReadKeepsReport(c, id, key, w.store, found, permitted);
      case Crash(_) => IdleKeepsReport(c, key, w.store);
      case CacheMoves(_, to) => NewerCacheKeepsReport(c, key, w.store, to);
      case UserWrites(_, v) => UserKeepsReport(c, id, key, w.store, v);
    } else {
      assert Next(rules, w, ev).cells[id] == c;
    }
  }

  lemma ProceedKeepsReport(rules: Rules, w: World, i: Name, fault: Fault, id: Name)
    requires StandingRules(rules) && WorldOk(rules, w) && ReportsOk(rules, w) && Enabled(rules, w, Proceed(i, fault)) && id in w.cells
    ensures var (c', store') := ProceedStep(w.cells[i], w.store, fault);
            var c := if i == id then c' else w.cells[id];
            c.base < |c.hist| && ReportOk(c, rules.keys[id], store')
  {
    var c, key := w.cells[id], rules.keys[id];
    assert CellOk(c, id, key, w.store) && ReportOk(c, key, w.store);
    if i == id {
      OwnStepKeepsReport(c, id, key, w.store, fault);
    } else {
      OthersKeepTheStore(rules, w, i, fault, id);
      OtherStoreKeepsReport(c, id, key, w.store, ProceedStep(w.cells[i], w.store, fault).1);
    }
  }

  lemma CellStepKeepsReport(rules: Rules, w: World, ev: Event, id: Name)
    requires StandingRules(rules) && WorldOk(rules, w) && ReportsOk(rules, w) && Enabled(rules, w, ev) && id in w.cells
    requires !ev.OutsideEdit?
    ensures var w' := Next(rules, w, ev); var c' := w'.cells[id];
            c'.base < |c'.hist| && ReportOk(c', rules.keys[id], w'.store)
  {
    if ev.Proceed? {
      ProceedKeepsReport(rules, w, ev.id, ev.fault, id);
    } else {
      QuietStepKeepsReport(rules, w, ev, id);
    }
  }

  lemma StepKeepsReports(rules: Rules, w: World, ev: Event)
    requires StandingRules(rules) && WorldOk(rules, w) && ReportsOk(rules, w) && Enabled(rules, w, ev)
    requires !ev.OutsideEdit?
    ensures WorldOk(rules, Next(rules, w, ev)) && ReportsOk(rules, Next(rules, w, ev))
  {
    StepKeeps(rules, w, ev);
    forall id | id in Next(rules, w, ev).cells
      ensures ReportOk(Next(rules, w, ev).cells[id], rules.keys[id], Next(rules, w, ev).store)
    {
      CellStepKeepsReport(rules, w, ev, id);
    }
  }

  predicate NoOutsideEdits(evs: seq<Event>) {
    forall i | 0 <= i < |evs| :: !evs[i].OutsideEdit?
  }

  lemma {:induction false} RunKeepsReports(rules: Rules, w: World, evs: seq<Event>)
    requires StandingRules(rules) && WorldOk(rules, w) && ReportsOk(rules, w) && IsRun(rules, w, evs) && NoOutsideEdits(evs)
    ensures WorldOk(rules, After(rules, w, evs)) && ReportsOk(rules, After(rules, w, evs))
    decreases evs
  {
    if evs != [] {
      StepKeepsReports(rules, w, evs[0]);
      RunKeepsReports(rules, Next(rules, w, evs[0]), evs[1..]);
    }
  }

  lemma InitiallyReportsOk(rules: Rules, w: World)
    requires Initial(rules, w)
    ensures WorldOk(rules, w) && ReportsOk(rules, w)
  {
  }

  /**
   In every reachable state without outside edits: if a live pool reports
   Synced=True for generation g and no write to XC has been applied since a report
   last landed, then XC holds the payload the report stood for; and when g is the
   pool's current generation, that is the payload of its current spec.
   */
  lemma SyncedReportsAreTrue(rules: Rules, w: World, evs: seq<Event>, id: Name)
    requires StandingRules(rules) && Initial(rules, w) && IsRun(rules, w, evs) && NoOutsideEdits(evs) && id in rules.keys
    ensures var w' := After(rules, w, evs);
            id in w'.cells && w'.cells[id].hist != []
            && var c := w'.cells[id]; var v := Last(c.hist);
            Stands(v) ==>
              && c.claim.Some?
              && c.claim.value.generation == v.value.status.synced.value.observedGeneration
              && (!c.dirty ==> InSync(w'.store, rules.keys[id], c.claim.value.spec, c.claim.value.origins))
              && (!c.dirty && v.value.generation == v.value.status.synced.value.observedGeneration ==>
                    InSync(w'.store, rules.keys[id], v.value.spec, c.claim.value.origins))
  {
    InitiallyReportsOk(rules, w);
    RunKeepsReports(rules, w, evs);
    var w' := After(rules, w, evs);
    assert CellOk(w'.cells[id], id, rules.keys[id], w'.store) && ReportOk(w'.cells[id], rules.keys[id], w'.store);
  }

  // ----- The exact step that breaks a report -----

  /** The step is a replace of this pool's object that takes effect. */
  predicate AppliesReplace(w: World, ev: Event, id: Name)
    requires id in w.cells
  {
    ev.Proceed? && ev.id == id && w.cells[id].pc.Replacing? && Applied(ev.fault)
  }

  lemma XcStepBreaksOnlyByReplace(c: Cell, id: Name, key: XcKey, store: Store, fault: Fault)
    requires CellOk(c, id, key, store) && ReportOk(c, key, store) && TalksToXc(c.pc)
    requires fault.Fail? ==> fault.error != NotFound
    requires Stands(Last(c.hist)) && Truthful(c, key, store)
    ensures var (c', store') := XcStep(c, store, fault);
            Truthful(c', key, store') <==> !(c.pc.Replacing? && Applied(fault))
  {
    assert XcRequest(c.pc).key == key by { XcStepKeeps(c, id, key, store, fault); }
    assert !c.pc.Creating? && !c.pc.Deleting?;
  }

  lemma WriteStepKeepsTruth(c: Cell, id: Name, key: XcKey, store: Store, fault: Fault)
    requires CellOk(c, id, key, store) && ReportOk(c, key, store) && (c.pc.WritingObject? || c.pc.WritingStatus?)
    requires Stands(Last(c.hist)) && Truthful(c, key, store)
    ensures WriteStep(c, fault).hist != [] && Truthful(WriteStep(c, fault), key, store)
  {
    if Lands(c, fault) {
      assert Last(WriteStep(c, fault).hist) == Landed(c.hist[c.base].value, c.pc);
      if c.pc.WritingStatus? && c.pc.matched.Some? {
        MatchReportsFit(c, id, key, store);
      }
    }
  }

  lemma OwnStepBreaksOnlyByReplace(c: Cell, id: Name, key: XcKey, store: Store, fault: Fault)
    requires CellOk(c, id, key, store) && ReportOk(c, key, store) && !c.pc.Idle?
    requires fault.Fail? ==> fault.error != NotFound
    requires Stands(Last(c.hist)) && Truthful(c, key, store)
    ensures var (c', store') := ProceedStep(c, store, fault);
            Truthful(c', key, store') <==> !(c.pc.Replacing? && Applied(fault))
  {
    if TalksToXc(c.pc) {
      XcStepBreaksOnlyByReplace(c, id, key, store, fault);
    } else {
      WriteStepKeepsTruth(c, id, key, store, fault);
    }
  }

  lemma QuietStepKeepsTruth(rules: Rules, w: World, ev: Event, id: Name)
    requires WorldOk(rules, w) && Enabled(rules, w, ev) && id in w.cells
    requires !ev.OutsideEdit? && !ev.Proceed?
    requires w.cells[id].hist != [] && Stands(Last(w.cells[id].hist)) && Truthful(w.cells[id], rules.keys[id], w.store)
    ensures var w' := Next(rules, w, ev);
            w'.cells[id].hist != [] && Truthful(w'.cells[id], rules.keys[id], w'.store)
  {
  }

  lemma OtherStepKeepsTruth(rules: Rules, w: World, i: Name, fault: Fault, id: Name)
    requires StandingRules(rules) && WorldOk(rules, w) && Enabled(rules, w, Proceed(i, fault)) && id in w.cells && i != id
    requires w.cells[id].hist != [] && Truthful(w.cells[id], rules.keys[id], w.store)
    ensures var w' := Next(rules, w, Proceed(i, fault));
            w'.cells[id] == w.cells[id] && Truthful(w'.cells[id], rules.keys[id], w'.store)
  {
    OthersKeepTheStore(rules, w, i, fault, id);
  }

  /**
   From a reachable state in which a standing report is true, a step of the system
   (outside edits aside) makes it untrue if and only if it is a replace of the
   pool's object that takes effect, whether or not its answer gets back.
   */
  lemma OnlyReplaceBreaksAReport(rules: Rules, w: World, ev: Event, id: Name)
    requires StandingRules(rules) && WorldOk(rules, w) && ReportsOk(rules, w) && Enabled(rules, w, ev) && id in w.cells
    requires !ev.OutsideEdit?
    requires Stands(Last(w.cells[id].hist)) && Truthful(w.cells[id], rules.keys[id], w.store)
    ensures var w' := Next(rules, w, ev);
            w'.cells[id].hist != [] && (Truthful(w'.cells[id], rules.keys[id], w'.store) <==> !AppliesReplace(w, ev, id))
  {
    var c, key := w.cells[id], rules.keys[id];
    assert CellOk(c, id, key, w.store) && ReportOk(c, key, w.store);
    if ev.Proceed? && ev.id == id {
      OwnStepBreaksOnlyByReplace(c, id, key, w.store, ev.fault);
    } else if ev.Proceed? {
      OtherStepKeepsTruth(rules, w, ev.id, ev.fault, id);
    } else {
      QuietStepKeepsTruth(rules, w, ev, id);
    }
  }

  /** Conversely, every status write that reports a match, once it lands, makes the report true again. */
  lemma LandedReportIsTrue(c: Cell, id: Name, key: XcKey, store: Store, fault: Fault)
    requires CellOk(c, id, key, store) && ReportOk(c, key, store)
    requires c.pc.WritingStatus? && c.pc.matched.Some? && Lands(c, fault)
    ensures var c' := WriteStep(c, fault);
            c'.hist != [] && !c'.dirty && Truthful(c', key, store) && ReportsSynced(Last(c'.hist).value.status)
  {
  }
}
