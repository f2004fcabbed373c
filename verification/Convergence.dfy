/**
 Convergence and quiescence: whole reconciles of one pool whose spec, references and
 resolved origins stay fixed, with any failing calls, crashes and stale reads among
 them. The steps are those of the interleaving model.
 */
module Convergence {
  import opened Wrappers
  import opened XcApi
  import opened OriginPoolTypes
  import opened Reconciler
  import opened Protocol
  import opened TruthfulStatus
  import opened CurrentStatus
  import Mapper = OriginPoolMapper

  /** Where a reconcile ended, how many of its calls failed, and what it asked of XC. */
  datatype Outcome = Outcome(cell: Cell, store: Store, failures: nat, calls: seq<XcCall>)

  function FirstFault(faults: seq<Fault>): Fault {
    if faults == [] then NoFault else faults[0]
  }

  function RestFaults(faults: seq<Fault>): seq<Fault> {
    if faults == [] then [] else faults[1..]
  }

  function Failures(f: Fault): nat {
    if f.Fail? then 1 else 0
  }

  /** The rest of a reconcile, its calls meeting these faults in order. */
  function Drive(c: Cell, store: Store, faults: seq<Fault>): Outcome
    requires c.hist != []
    decreases Rank(c.pc)
  {
    if c.pc.Idle? then Outcome(c, store, 0, [])
    else
      var f := FirstFault(faults);
      var (c', store') := ProceedStep(c, store, f);
      var rest := Drive(c', store', RestFaults(faults));
      rest.(failures := rest.failures + Failures(f),
            calls := (if TalksToXc(c.pc) then [XcRequest(c.pc)] else []) + rest.calls)
  }

  /** A whole reconcile whose cached copy is version `at`. */
  function ReconcileAt(c: Cell, store: Store, found: DiscoveryResult, at: nat, faults: seq<Fault>): Outcome
    requires at < |c.hist|
  {
    Drive(ReadStep(c.(cached := at), found, true), store, faults)
  }

  /** A whole reconcile from the latest version. */
  function OneReconcile(c: Cell, store: Store, found: DiscoveryResult, faults: seq<Fault>): Outcome
    requires c.hist != []
  {
    ReconcileAt(c, store, found, |c.hist| - 1, faults)
  }

  function OriginsOf(spec: OriginPoolSpec, found: DiscoveryResult): Origins {
    if HasDiscover(spec) then found.origins else []
  }

  /** A live pool whose discovery is complete. */
  predicate Workable(c: Cell, found: DiscoveryResult) {
    && c.hist != [] && Last(c.hist).Some? && !Last(c.hist).value.deleting
    && (HasDiscover(Last(c.hist).value.spec) ==> found.allResolved)
  }

  /** The object under the key, if there is one, decodes into the client's types and has a spec. */
  predicate Readable(store: Store, key: XcKey) {
    key in store ==> Decodes(store[key]) && store[key].spec.Some?
  }

  predicate Steady(c: Cell, store: Store, found: DiscoveryResult) {
    Workable(c, found) && Readable(store, KeyOf(Last(c.hist).value))
  }

  predicate HoldsPayload(cr: CR, store: Store, found: DiscoveryResult) {
    InSync(store, KeyOf(cr), cr.spec, OriginsOf(cr.spec, found))
  }

  /** 3: no finalizer yet; 2: XC lacks the payload; 1: XC holds it. */
  function Stage(c: Cell, store: Store, found: DiscoveryResult): nat
    requires Steady(c, store, found)
  {
    var cr := Last(c.hist).value;
    if FINALIZER !in cr.finalizers then 3 else if HoldsPayload(cr, store, found) then 1 else 2
  }

  function Seen(cr: CR, found: DiscoveryResult): CR {
    if HasDiscover(cr.spec) then cr.(status := cr.status.(discovered := found.discovered)) else cr
  }

  /** Synced=True/UpToDate for the current generation, exactly as a further reconcile would report it. */
  predicate IsUpToDate(c: Cell, store: Store, found: DiscoveryResult) {
    c.hist != [] && Last(c.hist).Some?
    && var cr := Last(c.hist).value;
       HoldsPayload(cr, store, found) && cr == Reported(Seen(cr, found), UpToDate, store[KeyOf(cr)])
  }

  // ----- One reconcile -----

  /** A later version of the same pool: only finalizers and status may differ. */
  predicate SamePool(a: CR, b: CR) {
    a == b.(finalizers := a.finalizers, status := a.status)
  }

  /** The reconcile works on the latest version and carries a copy of it. */
  predicate OnLatest(c: Cell, cr: CR) {
    && c.hist != [] && c.base + 1 == |c.hist|
    && Last(c.hist).Some? && !Last(c.hist).value.deleting
    && cr == Last(c.hist).value.(status := cr.status)
    && FINALIZER in cr.finalizers
  }

  lemma StatusWriteEnds(c: Cell, store: Store, faults: seq<Fault>)
    requires c.pc.WritingStatus? && OnLatest(c, c.pc.cr)
    ensures var o := Drive(c, store, faults); var f := FirstFault(faults);
            && o.cell.pc == AfterWrite(c.pc, f.NoFault?) && o.store == store && o.calls == []
            && o.failures == Failures(f)
            && o.cell.hist == (if Applied(f) then Append(c.hist, Some(c.pc.cr)) else c.hist)
  {
  }

  /** Asking XC for a write: the payload is never lost, and a served call stores it. */
  lemma MutationStores(c: Cell, store: Store, found: DiscoveryResult, f: Fault)
    requires c.pc.Creating? || c.pc.Replacing?
    requires c.pc.origins == OriginsOf(c.pc.cr.spec, found)
    requires Readable(store, KeyOf(c.pc.cr))
    ensures var store' := XcStep(c, store, f).1;
            && Readable(store', KeyOf(c.pc.cr))
            && (HoldsPayload(c.pc.cr, store, found) ==> HoldsPayload(c.pc.cr, store', found))
            && (f.NoFault? && (c.pc.Creating? <==> KeyOf(c.pc.cr) !in store) ==> HoldsPayload(c.pc.cr, store', found))
  {
    Mapper.PayloadDecodes(c.pc.cr.spec, c.pc.origins);
  }

  /** Either way the reconcile goes on to write a status of the same pool. */
  lemma MutationReports(c: Cell, store: Store, f: Fault)
    requires c.pc.Creating? || c.pc.Replacing?
    requires OnLatest(c, c.pc.cr)
    ensures var c' := XcStep(c, store, f).0;
            && c'.pc.WritingStatus? && OnLatest(c', c'.pc.cr) && c'.hist == c.hist && c'.base == c.base
  {
    AfterMutation(c.pc, Serve(store, XcRequest(c.pc), f).1);
  }

  lemma AppendedLast(c: Cell, cr: CR, end: Cell)
    requires OnLatest(c, cr)
    requires end.hist == c.hist || end.hist == Append(c.hist, Some(cr))
    ensures end.hist != [] && Last(end.hist).Some?
    ensures Last(end.hist).value == Last(c.hist).value.(status := Last(end.hist).value.status)
  {
  }

  lemma MutationEnds(c: Cell, store: Store, found: DiscoveryResult, faults: seq<Fault>)
    requires c.pc.Creating? || c.pc.Replacing?
    requires OnLatest(c, c.pc.cr)
    ensures var o := Drive(c, store, faults); var f := FirstFault(faults);
            && o.cell.pc.Idle? && o.cell.hist != [] && Last(o.cell.hist).Some?
            && Last(o.cell.hist).value == Last(c.hist).value.(status := Last(o.cell.hist).value.status)
            && o.store == XcStep(c, store, f).1
            && (o.failures == 0 ==> f.NoFault?)
  {
    var (c', store') := XcStep(c, store, FirstFault(faults));
    MutationReports(c, store, FirstFault(faults));
    StatusWriteEnds(c', store', RestFaults(faults));
    var rest := Drive(c', store', RestFaults(faults));
    assert Drive(c, store, faults).cell == rest.cell;
    AppendedLast(c, c'.pc.cr, rest.cell);
  }

  predicate Progresses(c: Cell, store: Store, found: DiscoveryResult, o: Outcome)
    requires Steady(c, store, found)
  {
    && o.cell.pc.Idle? && Steady(o.cell, o.store, found)
    && SamePool(Last(o.cell.hist).value, Last(c.hist).value)
    && Stage(o.cell, o.store, found) <= Stage(c, store, found)
    && (o.failures == 0 ==>
          if Stage(c, store, found) == 1 then IsUpToDate(o.cell, o.store, found)
          else Stage(o.cell, o.store, found) < Stage(c, store, found))
  }

  /** What a GET leads to. A status write follows only when XC holds the payload, or after an error. */
  lemma GettingSplits(c: Cell, store: Store, found: DiscoveryResult, f: Fault)
    requires Steady(c, store, found)
    requires c.pc.Getting? && OnLatest(c, c.pc.cr) && c.pc.origins == OriginsOf(c.pc.cr.spec, found)
    requires c.pc.cr == Seen(Last(c.hist).value, found)
    ensures var (c', store') := XcStep(c, store, f); var cr := c.pc.cr;
            && store' == store && c'.hist == c.hist && OnLatest(c', c'.pc.cr) && KeyOf(c'.pc.cr) == KeyOf(cr)
            && match c'.pc
               case WritingStatus(_, _, _, _) =>
                 f.NoFault? ==> HoldsPayload(cr, store, found) && c'.pc.cr == Reported(cr, UpToDate, store[KeyOf(cr)])
               case Creating(cr', origins) => cr' == cr && origins == c.pc.origins && (f.NoFault? ==> KeyOf(cr) !in store)
               case Replacing(cr', origins, _) =>
                 cr' == cr && origins == c.pc.origins && KeyOf(cr) in store && !HoldsPayload(cr, store, found)
               case _ => false
  {
  }

  lemma GettingProgresses(c: Cell, store: Store, found: DiscoveryResult, faults: seq<Fault>)
    requires Steady(c, store, found)
    requires c.pc.Getting? && OnLatest(c, c.pc.cr) && c.pc.origins == OriginsOf(c.pc.cr.spec, found)
    requires c.pc.cr == Seen(Last(c.hist).value, found)
    ensures Progresses(c, store, found, Drive(c, store, faults))
  {
    var f := FirstFault(faults);
    var (c', store') := XcStep(c, store, f);
    GettingSplits(c, store, found, f);
    var o, rest := Drive(c, store, faults), Drive(c', store', RestFaults(faults));
    assert o.cell == rest.cell && o.store == rest.store && o.failures == rest.failures + Failures(f);
    if c'.pc.WritingStatus? {
      StatusWriteEnds(c', store, RestFaults(faults));
      VerdictProgresses(c, c', store, found, f, o, rest);
    } else {
      MutationEnds(c', store, found, RestFaults(faults));
      MutationStores(c', store, found, FirstFault(RestFaults(faults)));
      MutationProgresses(c, store, found, f, o, rest);
    }
  }

  /** The status write after a GET: nothing is lost, and without failures it says "up to date". */
  lemma VerdictProgresses(c: Cell, c': Cell, store: Store, found: DiscoveryResult, f: Fault, o: Outcome, rest: Outcome)
    requires Steady(c, store, found) && FINALIZER in Last(c.hist).value.finalizers
    requires c'.pc.WritingStatus? && OnLatest(c', c'.pc.cr) && c'.hist == c.hist
    requires f.NoFault? ==>
               var cr := Seen(Last(c.hist).value, found);
               HoldsPayload(cr, store, found) && c'.pc.cr == Reported(cr, UpToDate, store[KeyOf(cr)])
    requires rest.cell.pc.Idle? && rest.store == store
    requires rest.cell.hist == Append(c.hist, Some(c'.pc.cr)) || (rest.failures > 0 && rest.cell.hist == c.hist)
    requires o.cell == rest.cell && o.store == rest.store && o.failures == rest.failures + Failures(f)
    ensures Progresses(c, store, found, o)
  {
    assert Last(o.cell.hist) == Some(c'.pc.cr) || (o.failures > 0 && Last(o.cell.hist) == Last(c.hist));
  }

  lemma MutationProgresses(c: Cell, store: Store, found: DiscoveryResult, f: Fault, o: Outcome, rest: Outcome)
    requires Steady(c, store, found) && FINALIZER in Last(c.hist).value.finalizers
    requires rest.cell.pc.Idle? && rest.cell.hist != [] && Last(rest.cell.hist).Some?
    requires Last(rest.cell.hist).value == Last(c.hist).value.(status := Last(rest.cell.hist).value.status)
    requires Readable(rest.store, KeyOf(Last(c.hist).value))
    requires HoldsPayload(Last(c.hist).value, store, found) ==> HoldsPayload(Last(c.hist).value, rest.store, found)
    requires o.failures == 0 ==> !HoldsPayload(Last(c.hist).value, store, found) && HoldsPayload(Last(c.hist).value, rest.store, found)
    requires o.cell == rest.cell && o.store == rest.store && o.failures == rest.failures + Failures(f)
    ensures Progresses(c, store, found, o)
  {
  }

  lemma AddingFinalizerProgresses(c: Cell, store: Store, found: DiscoveryResult, faults: seq<Fault>)
    requires Steady(c, store, found) && c.base + 1 == |c.hist|
    requires FINALIZER !in Last(c.hist).value.finalizers
    requires c.pc == WritingObject(Last(c.hist).value.(finalizers := Last(c.hist).value.finalizers + {FINALIZER}))
    ensures Progresses(c, store, found, Drive(c, store, faults))
  {
    var f := FirstFault(faults);
    var c' := WriteStep(c, f);
    assert Drive(c, store, faults).cell == c';
    assert Last(c'.hist) == if Applied(f) then Some(c.pc.cr) else Last(c.hist);
  }

  /**
   One reconcile from the latest version: a failed call, applied or not, never loses
   progress; without failures it moves on a stage, and from the last stage it ends
   up to date.
   */
  lemma OneReconcileProgresses(c: Cell, store: Store, found: DiscoveryResult, faults: seq<Fault>)
    requires Steady(c, store, found)
    ensures Progresses(c, store, found, OneReconcile(c, store, found, faults))
  {
    var read := ReadStep(c.(cached := |c.hist| - 1), found, true);
    if read.pc.Getting? {
      GettingProgresses(read, store, found, faults);
    } else {
      AddingFinalizerProgresses(read, store, found, faults);
    }
    assert Stage(read, store, found) == Stage(c, store, found);
  }

  // ----- A stale read -----

  /** The reconcile works on an earlier version of the same pool, so none of its writes can land. */
  predicate OnStale(c: Cell, cr: CR, found: DiscoveryResult) {
    && c.base + 1 < |c.hist| && Last(c.hist).Some?
    && SamePool(cr, Last(c.hist).value)
    && (c.pc.Getting? || c.pc.Creating? || c.pc.Replacing? ==> c.pc.origins == OriginsOf(cr.spec, found))
  }

  /** A reconcile that stored nothing and did XC no harm. */
  predicate Harmless(c: Cell, store: Store, found: DiscoveryResult, o: Outcome)
    requires c.hist != [] && Last(c.hist).Some?
  {
    var cr := Last(c.hist).value;
    && o.cell.pc.Idle? && o.cell.hist == c.hist
    && (Readable(store, KeyOf(cr)) ==> Readable(o.store, KeyOf(cr)))
    && (HoldsPayload(cr, store, found) ==> HoldsPayload(cr, o.store, found))
  }

  lemma StaleWriteIsRefused(c: Cell, store: Store, found: DiscoveryResult, faults: seq<Fault>)
    requires (c.pc.WritingObject? || c.pc.WritingStatus?) && OnStale(c, c.pc.cr, found)
    ensures Harmless(c, store, found, Drive(c, store, faults)) && Drive(c, store, faults).store == store
  {
    assert !Lands(c, FirstFault(faults));
  }

  lemma StaleMutationReports(c: Cell, store: Store, found: DiscoveryResult, f: Fault)
    requires (c.pc.Creating? || c.pc.Replacing?) && OnStale(c, c.pc.cr, found)
    ensures var c' := XcStep(c, store, f).0;
            c'.pc.WritingStatus? && OnStale(c', c'.pc.cr, found) && c'.hist == c.hist && KeyOf(c'.pc.cr) == KeyOf(c.pc.cr)
  {
    AfterMutation(c.pc, Serve(store, XcRequest(c.pc), f).1);
  }

  lemma StaleMutationIsHarmless(c: Cell, store: Store, found: DiscoveryResult, faults: seq<Fault>)
    requires (c.pc.Creating? || c.pc.Replacing?) && OnStale(c, c.pc.cr, found)
    requires Readable(store, KeyOf(c.pc.cr))
    ensures Harmless(c, store, found, Drive(c, store, faults))
  {
    var (c', store') := XcStep(c, store, FirstFault(faults));
    MutationStores(c, store, found, FirstFault(faults));
    StaleMutationReports(c, store, found, FirstFault(faults));
    StaleWriteIsRefused(c', store', found, RestFaults(faults));
    assert Drive(c, store, faults).cell == Drive(c', store', RestFaults(faults)).cell;
  }

  lemma StaleGettingIsHarmless(c: Cell, store: Store, found: DiscoveryResult, faults: seq<Fault>)
    requires c.pc.Getting? && OnStale(c, c.pc.cr, found)
    requires Readable(store, KeyOf(c.pc.cr))
    ensures Harmless(c, store, found, Drive(c, store, faults))
  {
    var (c', store') := XcStep(c, store, FirstFault(faults));
    assert store' == store && c'.hist == c.hist;
    if c'.pc.WritingStatus? {
      StaleWriteIsRefused(c', store, found, RestFaults(faults));
    } else if !c'.pc.Idle? {
      StaleMutationIsHarmless(c', store, found, RestFaults(faults));
    }
  }

  /**
   A reconcile that starts from an earlier version of the same pool, with any failures,
   stores no version and never raises the stage: what it may write to XC is the payload.
   */
  lemma StaleReadsDoNoHarm(c: Cell, store: Store, found: DiscoveryResult, at: nat, faults: seq<Fault>)
    requires Steady(c, store, found) && at + 1 < |c.hist|
    requires c.hist[at].Some? && SamePool(c.hist[at].value, Last(c.hist).value)
    ensures var o := ReconcileAt(c, store, found, at, faults);
            o.cell.hist == c.hist && Steady(o.cell, o.store, found)
            && Stage(o.cell, o.store, found) <= Stage(c, store, found)
  {
    var read := ReadStep(c.(cached := at), found, true);
    assert OnStale(read, read.pc.cr, found);
    if read.pc.Getting? {
      StaleGettingIsHarmless(read, store, found, faults);
    } else {
      StaleWriteIsRefused(read, store, found, faults);
    }
  }

  // ----- Any number of reconciles -----

  /** A reconcile whose cached copy is `lag` versions old, what its calls meet, and after how many of them the process dies, if it does. */
  datatype Attempt = Attempt(lag: nat, faults: seq<Fault>, dies: Option<nat>)

  /** The rest of a reconcile in a process that dies before its next call but `after`; dying in mid-reconcile is one failure. */
  function Interrupted(c: Cell, store: Store, faults: seq<Fault>, after: nat): Outcome
    requires c.hist != []
    decreases Rank(c.pc)
  {
    if c.pc.Idle? then Outcome(c, store, 0, [])
    else if after == 0 then Outcome(c.(pc := Idle(Finished)), store, 1, [])
    else
      var f := FirstFault(faults);
      var (c', store') := ProceedStep(c, store, f);
      var rest := Interrupted(c', store', RestFaults(faults), after - 1);
      rest.(failures := rest.failures + Failures(f),
            calls := (if TalksToXc(c.pc) then [XcRequest(c.pc)] else []) + rest.calls)
  }

  const LOST := Fail(OtherError, false)

  /** Calls that all get lost change nothing. */
  lemma LostCallsChangeNothing(c: Cell, store: Store)
    requires c.hist != []
    ensures var o := Drive(c, store, [LOST, LOST]); o.cell.hist == c.hist && o.store == store
  {
    if TalksToXc(c.pc) {
      var (c', store') := XcStep(c, store, LOST);
      assert c'.pc.WritingStatus? && c'.hist == c.hist && store' == store;
      assert RestFaults([LOST, LOST]) == [LOST];
      var o, rest := Drive(c, store, [LOST, LOST]), Drive(c', store', [LOST]);
      assert o.cell == rest.cell && o.store == rest.store;
      var last := WriteStep(c', LOST);
      assert last.pc.Idle? && RestFaults([LOST]) == [];
      assert Drive(last, store', []) == Outcome(last, store', 0, []);
      assert rest.cell == last && rest.store == store';
    }
  }

  /** The two ended with the same versions stored and the same store, and a failure in the second is one in the first. */
  predicate SameEnd(o: Outcome, d: Outcome) {
    && o.cell.hist == d.cell.hist && o.store == d.store
    && o.cell.pc.Idle?
    && (o.failures == 0 ==> d.failures == 0)
  }

  lemma DriveFirst(c: Cell, store: Store, f: Fault, rest: seq<Fault>)
    requires c.hist != [] && !c.pc.Idle?
    ensures var (c', store') := ProceedStep(c, store, f); var o, d := Drive(c, store, [f] + rest), Drive(c', store', rest);
            o.cell == d.cell && o.store == d.store && o.failures == d.failures + Failures(f)
  {
    assert FirstFault([f] + rest) == f && RestFaults([f] + rest) == rest;
  }

  /** The first `after` faults, and then only lost calls. */
  function LostAfter(faults: seq<Fault>, after: nat): seq<Fault> {
    if after == 0 then [LOST, LOST] else [FirstFault(faults)] + LostAfter(RestFaults(faults), after - 1)
  }

  predicate DrawnFrom(like: seq<Fault>, faults: seq<Fault>) {
    forall f | f in like :: f in faults || f == LOST || f == NoFault
  }

  lemma {:induction false} LostAfterIsDrawn(faults: seq<Fault>, after: nat)
    ensures DrawnFrom(LostAfter(faults, after), faults)
  {
    if after > 0 {
      LostAfterIsDrawn(RestFaults(faults), after - 1);
    }
  }

  predicate DiesLikeLosing(c: Cell, store: Store, faults: seq<Fault>, after: nat)
    requires c.hist != []
  {
    SameEnd(Interrupted(c, store, faults, after), Drive(c, store, LostAfter(faults, after)))
  }

  lemma DyingNow(c: Cell, store: Store, faults: seq<Fault>)
    requires c.hist != []
    ensures DiesLikeLosing(c, store, faults, 0)
  {
    LostCallsChangeNothing(c, store);
  }

  /** One call further on, the claim is the same claim about what that call leads to. */
  lemma DyingLater(c: Cell, store: Store, faults: seq<Fault>, after: nat) returns (c': Cell, store': Store)
    requires c.hist != [] && !c.pc.Idle? && after > 0
    ensures c'.hist != []
    ensures DiesLikeLosing(c', store', RestFaults(faults), after - 1) ==> DiesLikeLosing(c, store, faults, after)
  {
    var step := ProceedStep(c, store, FirstFault(faults));
    c', store' := step.0, step.1;
    DriveFirst(c, store, FirstFault(faults), LostAfter(RestFaults(faults), after - 1));
  }

  /** A process that dies leaves things as one all of whose remaining calls get lost. */
  lemma {:induction false} DyingIsLosing(c: Cell, store: Store, faults: seq<Fault>, after: nat)
    requires c.hist != []
    ensures DiesLikeLosing(c, store, faults, after)
    decreases after
  {
    if after == 0 {
      DyingNow(c, store, faults);
    } else if !c.pc.Idle? {
      var c', store' := DyingLater(c, store, faults, after);
      DyingIsLosing(c', store', RestFaults(faults), after - 1);
    }
  }

  /** Since version `from` only the operator has written to the pool. */
  predicate SettledSince(c: Cell, from: nat) {
    && from < |c.hist| && Last(c.hist).Some?
    && forall j | from <= j < |c.hist| :: c.hist[j].Some? && SamePool(c.hist[j].value, Last(c.hist).value)
  }

  /** The version read; caches are monotone, so it is never one from before `from`. */
  function ReadAt(c: Cell, from: nat, lag: nat): (at: nat)
    requires from < |c.hist|
    ensures from <= at < |c.hist|
  {
    if from + lag < |c.hist| then |c.hist| - 1 - lag else from
  }

  function Attempted(c: Cell, store: Store, found: DiscoveryResult, from: nat, a: Attempt): Outcome
    requires from < |c.hist|
  {
    var at := ReadAt(c, from, a.lag);
    if a.dies.None? then ReconcileAt(c, store, found, at, a.faults)
    else Interrupted(ReadStep(c.(cached := at), found, true), store, a.faults, a.dies.value)
  }

  lemma {:induction false} DriveEnds(c: Cell, store: Store, faults: seq<Fault>)
    requires c.hist != []
    ensures Drive(c, store, faults).cell.pc.Idle?
    decreases Rank(c.pc)
  {
    if !c.pc.Idle? {
      var (c', store') := ProceedStep(c, store, FirstFault(faults));
      DriveEnds(c', store', RestFaults(faults));
    }
  }

  /** Every attempt ends like a whole reconcile. */
  lemma AttemptEndsLike(c: Cell, store: Store, found: DiscoveryResult, from: nat, a: Attempt) returns (like: seq<Fault>)
    requires from < |c.hist|
    ensures SameEnd(Attempted(c, store, found, from, a), ReconcileAt(c, store, found, ReadAt(c, from, a.lag), like))
    ensures DrawnFrom(like, a.faults)
  {
    var read := ReadStep(c.(cached := ReadAt(c, from, a.lag)), found, true);
    if a.dies.None? {
      like := a.faults;
      DriveEnds(read, store, like);
    } else {
      like := LostAfter(a.faults, a.dies.value);
      DyingIsLosing(read, store, a.faults, a.dies.value);
      LostAfterIsDrawn(a.faults, a.dies.value);
    }
  }

  predicate IsStale(c: Cell, from: nat, a: Attempt)
    requires from < |c.hist|
  {
    ReadAt(c, from, a.lag) + 1 < |c.hist|
  }

  /** A reconcile stores at most one version, after those there are. */
  lemma {:induction false} DriveAppends(c: Cell, store: Store, faults: seq<Fault>)
    requires c.hist != []
    ensures var o := Drive(c, store, faults);
            o.cell.hist == c.hist || (o.cell.hist != [] && o.cell.hist == c.hist + [Last(o.cell.hist)])
    decreases Rank(c.pc)
  {
    if !c.pc.Idle? {
      var (c', store') := ProceedStep(c, store, FirstFault(faults));
      DriveAppends(c', store', RestFaults(faults));
      assert c'.hist == c.hist || c'.pc.Idle?;
    }
  }

  lemma GrownStaysSettled(c: Cell, c': Cell, from: nat)
    requires SettledSince(c, from)
    requires c'.hist == c.hist || (c'.hist != [] && c'.hist == c.hist + [Last(c'.hist)])
    requires c'.hist != [] && Last(c'.hist).Some? && SamePool(Last(c'.hist).value, Last(c.hist).value)
    ensures SettledSince(c', from)
  {
  }

  lemma StaleAttemptDoesNoHarm(c: Cell, store: Store, found: DiscoveryResult, from: nat, a: Attempt)
    requires Steady(c, store, found) && SettledSince(c, from) && IsStale(c, from, a)
    ensures var o := Attempted(c, store, found, from, a);
            && o.cell.hist == c.hist && Steady(o.cell, o.store, found)
            && Stage(o.cell, o.store, found) <= Stage(c, store, found)
  {
    var like := AttemptEndsLike(c, store, found, from, a);
    StaleReadsDoNoHarm(c, store, found, ReadAt(c, from, a.lag), like);
  }

  lemma EndProgresses(c: Cell, store: Store, found: DiscoveryResult, o: Outcome, d: Outcome)
    requires Steady(c, store, found) && Progresses(c, store, found, d) && SameEnd(o, d)
    ensures Progresses(c, store, found, o)
  {
  }

  lemma LatestAttemptProgresses(c: Cell, store: Store, found: DiscoveryResult, from: nat, a: Attempt)
    requires Steady(c, store, found) && SettledSince(c, from) && !IsStale(c, from, a)
    ensures var o := Attempted(c, store, found, from, a);
            Progresses(c, store, found, o) && SettledSince(o.cell, from)
  {
    var like := AttemptEndsLike(c, store, found, from, a);
    OneReconcileProgresses(c, store, found, like);
    EndProgresses(c, store, found, Attempted(c, store, found, from, a), OneReconcile(c, store, found, like));
    AttemptAppends(c, store, found, from, a);
    GrownStaysSettled(c, Attempted(c, store, found, from, a).cell, from);
  }

  lemma AttemptAppends(c: Cell, store: Store, found: DiscoveryResult, from: nat, a: Attempt)
    requires from < |c.hist|
    ensures var o := Attempted(c, store, found, from, a);
            o.cell.hist == c.hist || (o.cell.hist != [] && o.cell.hist == c.hist + [Last(o.cell.hist)])
  {
    var like := AttemptEndsLike(c, store, found, from, a);
    DriveAppends(ReadStep(c.(cached := ReadAt(c, from, a.lag)), found, true), store, like);
  }

  /** Either a stale read, which does no harm, or progress. */
  lemma AttemptProgresses(c: Cell, store: Store, found: DiscoveryResult, from: nat, a: Attempt)
    requires Steady(c, store, found) && SettledSince(c, from)
    ensures var o := Attempted(c, store, found, from, a);
            && Steady(o.cell, o.store, found) && SettledSince(o.cell, from)
            && Stage(o.cell, o.store, found) <= Stage(c, store, found)
            && (!IsStale(c, from, a) ==> Progresses(c, store, found, o))
  {
    if IsStale(c, from, a) {
      StaleAttemptDoesNoHarm(c, store, found, from, a);
    } else {
      LatestAttemptProgresses(c, store, found, from, a);
    }
  }

  /**
   The state after the reconciles of the script, the failing calls and crashes and the
   stale reads among them, and how many did not end up to date.
   */
  datatype Tally = Tally(cell: Cell, store: Store, failures: nat, stale: nat, unfinished: nat)

  function Reconciles(c: Cell, store: Store, found: DiscoveryResult, from: nat, script: seq<Attempt>): Tally
    requires from < |c.hist|
    decreases script
  {
    if script == [] then Tally(c, store, 0, 0, 0)
    else
      AttemptAppends(c, store, found, from, script[0]);
      var o := Attempted(c, store, found, from, script[0]);
      var rest := Reconciles(o.cell, o.store, found, from, script[1..]);
      rest.(failures := o.failures + rest.failures,
            stale := rest.stale + (if IsStale(c, from, script[0]) then 1 else 0),
            unfinished := rest.unfinished + if IsUpToDate(o.cell, o.store, found) then 0 else 1)
  }

  /**
   Convergence with a measure: with N failing calls, crashes and stale reads in all, at
   most N + 2 reconciles do not end at Synced=True/UpToDate for the current generation,
   however many are run and wherever these fall. In particular N + 3 reconciles reach it.
   */
  lemma {:induction false} Converges(c: Cell, store: Store, found: DiscoveryResult, from: nat, script: seq<Attempt>)
    requires Steady(c, store, found) && SettledSince(c, from)
    ensures var t := Reconciles(c, store, found, from, script);
            && t.unfinished <= t.failures + t.stale + Stage(c, store, found) - 1
            && t.unfinished <= t.failures + t.stale + 2
            && (|script| >= t.failures + t.stale + 3 ==> t.unfinished < |script|)
    decreases script
  {
    if script != [] {
      AttemptProgresses(c, store, found, from, script[0]);
      var o := Attempted(c, store, found, from, script[0]);
      Converges(o.cell, o.store, found, from, script[1..]);
    }
  }

  // ----- Quiescence, and who wakes the operator up -----

  /**
   Once up to date, a further reconcile without failures asks XC one GET and nothing
   else, and its status write stores nothing new: no version, no event, no change.
   */
  lemma Quiescent(c: Cell, store: Store, found: DiscoveryResult)
    requires Steady(c, store, found) && IsUpToDate(c, store, found)
    requires FINALIZER in Last(c.hist).value.finalizers
    ensures var o := OneReconcile(c, store, found, []);
            && o.calls == [GetPool(KeyOf(Last(c.hist).value))]
            && o.store == store && o.cell.hist == c.hist && o.cell.pc == Idle(Finished)
  {
    var read := ReadStep(c.(cached := |c.hist| - 1), found, true);
    GettingSplits(read, store, found, NoFault);
    var next := XcStep(read, store, NoFault).0;
    StatusWriteEnds(next, store, []);
  }

  // ----- An object the operator cannot read -----

  /** A create or replace that XC has room for ends the reconcile well. */
  lemma MutationFinishes(c: Cell, store: Store)
    requires c.pc.Creating? || c.pc.Replacing?
    requires OnLatest(c, c.pc.cr)
    requires c.pc.Creating? <==> KeyOf(c.pc.cr) !in store
    ensures Drive(c, store, []).cell.pc == Idle(Finished)
  {
    Mapper.PayloadDecodes(c.pc.cr.spec, c.pc.origins);
    MutationReports(c, store, NoFault);
    var (last, store') := XcStep(c, store, NoFault);
    assert last.pc.landed == Finished;
    StatusWriteEnds(last, store', []);
  }

  /** A reconcile of the latest version that is about to ask for its object. */
  predicate Asks(c: Cell, found: DiscoveryResult) {
    && c.pc.Getting? && OnLatest(c, c.pc.cr) && Workable(c, found)
    && c.pc.origins == OriginsOf(c.pc.cr.spec, found)
    && c.pc.cr == Seen(Last(c.hist).value, found)
  }

  lemma ReadableFinishes(c: Cell, store: Store, found: DiscoveryResult)
    requires Asks(c, found) && Readable(store, KeyOf(c.pc.cr))
    ensures Drive(c, store, []).cell.pc == Idle(Finished)
  {
    GettingSplits(c, store, found, NoFault);
    var next := XcStep(c, store, NoFault).0;
    if next.pc.WritingStatus? {
      StatusWriteEnds(next, store, []);
    } else {
      MutationFinishes(next, store);
    }
  }

  lemma UndecodableIsReported(c: Cell, store: Store, found: DiscoveryResult)
    requires Asks(c, found) && KeyOf(c.pc.cr) in store && !Decodes(store[KeyOf(c.pc.cr)])
    ensures var o := Drive(c, store, []);
            && o.cell.pc == Idle(RequeueAfter(10)) && o.calls == [GetPool(KeyOf(c.pc.cr))] && o.store == store
            && o.cell.hist == Append(c.hist, Some(OnError(c.pc.cr, OtherError, GetOp).cr))
  {
    var (next, store') := XcStep(c, store, NoFault);
    assert next.pc == OnError(c.pc.cr, OtherError, GetOp) && store' == store;
    StatusWriteEnds(next, store, []);
    assert Drive(c, store, []).cell == Drive(next, store, []).cell;
  }

  lemma MissingSpecGivesUp(c: Cell, store: Store, found: DiscoveryResult)
    requires Asks(c, found) && KeyOf(c.pc.cr) in store
    requires Decodes(store[KeyOf(c.pc.cr)]) && store[KeyOf(c.pc.cr)].spec.None?
    ensures var o := Drive(c, store, []);
            && o.cell.pc == Idle(ReturnError) && o.calls == [GetPool(KeyOf(c.pc.cr))] && o.store == store
            && o.cell.hist == c.hist
  {
    var (next, store') := XcStep(c, store, NoFault);
    assert next.pc == Idle(ReturnError) && store' == store && next.hist == c.hist;
    assert Drive(next, store, []) == Outcome(next, store, 0, []);
  }

  /** A live pool with its finalizer starts by asking for its object. */
  lemma LiveStart(c: Cell, found: DiscoveryResult)
    requires Workable(c, found) && FINALIZER in Last(c.hist).value.finalizers
    ensures var read := ReadStep(c.(cached := |c.hist| - 1), found, true);
            && Asks(read, found) && read.hist == c.hist && KeyOf(read.pc.cr) == KeyOf(Last(c.hist).value)
            && read.pc.cr == Seen(Last(c.hist).value, found)
  {
  }

  lemma ReadableObjectFinishes(c: Cell, store: Store, found: DiscoveryResult)
    requires Steady(c, store, found) && FINALIZER in Last(c.hist).value.finalizers
    ensures OneReconcile(c, store, found, []).cell.pc == Idle(Finished)
  {
    LiveStart(c, found);
    ReadableFinishes(ReadStep(c.(cached := |c.hist| - 1), found, true), store, found);
  }

  lemma UnreadableObjectStops(c: Cell, store: Store, found: DiscoveryResult)
    requires Workable(c, found) && FINALIZER in Last(c.hist).value.finalizers
    requires !Readable(store, KeyOf(Last(c.hist).value))
    ensures var o := OneReconcile(c, store, found, []); var cr := Last(c.hist).value;
            && o.calls == [GetPool(KeyOf(cr))] && o.store == store
            && if Decodes(store[KeyOf(cr)]) then o.cell.pc == Idle(ReturnError) && o.cell.hist == c.hist
               else && o.cell.pc == Idle(RequeueAfter(10))
                    && o.cell.hist == Append(c.hist, Some(OnError(Seen(cr, found), OtherError, GetOp).cr))
  {
    LiveStart(c, found);
    var read := ReadStep(c.(cached := |c.hist| - 1), found, true);
    if Decodes(store[KeyOf(Last(c.hist).value)]) {
      MissingSpecGivesUp(read, store, found);
    } else {
      UndecodableIsReported(read, store, found);
    }
  }

  /**
   Without failures, a reconcile of a live pool ends well unless XC holds an object
   that does not decode into the client's types or has no spec. It then sends the one
   GET and leaves XC alone. What does not decode is reported as Synced=False/CreateFailed
   and tried again after ten seconds; a missing spec ends in an error and no report.
   */
  lemma UnreadableObjectBlocks(c: Cell, store: Store, found: DiscoveryResult)
    requires Workable(c, found) && FINALIZER in Last(c.hist).value.finalizers
    ensures var o := OneReconcile(c, store, found, []); var cr := Last(c.hist).value;
            if Readable(store, KeyOf(cr)) then o.cell.pc == Idle(Finished)
            else && o.calls == [GetPool(KeyOf(cr))] && o.store == store
                 && if Decodes(store[KeyOf(cr)]) then o.cell.pc == Idle(ReturnError) && o.cell.hist == c.hist
                    else && o.cell.pc == Idle(RequeueAfter(10))
                         && o.cell.hist == Append(c.hist, Some(OnError(Seen(cr, found), OtherError, GetOp).cr))
    ensures OnError(Seen(Last(c.hist).value, found), OtherError, GetOp).cr.status.synced
         == Some(Condition(false, CreateFailed, Last(c.hist).value.generation))
  {
    if Readable(store, KeyOf(Last(c.hist).value)) {
      ReadableObjectFinishes(c, store, found);
    } else {
      UnreadableObjectStops(c, store, found);
    }
  }

  /** XC holds an object for this pool that the operator cannot read, and the status does not say all is well. */
  predicate Blocked(c: Cell, store: Store, found: DiscoveryResult, from: nat) {
    && SettledSince(c, from) && Workable(c, found)
    && !Readable(store, KeyOf(Last(c.hist).value))
    && !IsUpToDate(c, store, found)
  }

  /** A reconcile on its way to a failure report, or to adding the finalizer. */
  predicate Refused(c: Cell) {
    && c.base < |c.hist| && c.hist[c.base].Some?
    && match c.pc
       case WritingStatus(cr, _, _, _) =>
         cr == c.hist[c.base].value.(status := cr.status) && cr.status.synced.Some? && !cr.status.synced.value.status
       case WritingObject(cr) => cr == c.hist[c.base].value.(finalizers := cr.finalizers)
       case _ => false
  }

  lemma RefusalLands(c: Cell)
    requires Refused(c) && c.base + 1 == |c.hist| && !c.hist[c.base].value.deleting
    ensures var v, next := c.hist[c.base].value, Landed(c.hist[c.base].value, c.pc);
            next == Some(c.pc.cr) && SamePool(c.pc.cr, v)
            && (c.pc.cr.status == v.status || (c.pc.cr.status.synced.Some? && !c.pc.cr.status.synced.value.status))
  {
  }

  lemma FailedVersionStaysBlocked(c: Cell, c': Cell, store: Store, found: DiscoveryResult, from: nat, next: CR)
    requires Blocked(c, store, found, from) && c'.hist == Append(c.hist, Some(next))
    requires SamePool(next, Last(c.hist).value)
    requires next.status == Last(c.hist).value.status || (next.status.synced.Some? && !next.status.synced.value.status)
    ensures Blocked(c', store, found, from)
  {
    assert Last(c'.hist) == Some(next);
    GrownStaysSettled(c, c', from);
    StatusDecides(c, c', store, found);
  }

  lemma WriteEndsDrive(c: Cell, store: Store, faults: seq<Fault>)
    requires c.hist != [] && (c.pc.WritingObject? || c.pc.WritingStatus?)
    ensures Drive(c, store, faults).cell == WriteStep(c, FirstFault(faults)) && Drive(c, store, faults).store == store
  {
  }

  lemma RefusalStaysBlocked(c: Cell, store: Store, found: DiscoveryResult, from: nat, faults: seq<Fault>)
    requires Blocked(c, store, found, from) && Refused(c)
    ensures var o := Drive(c, store, faults); o.store == store && Blocked(o.cell, store, found, from)
  {
    var f := FirstFault(faults);
    var c' := WriteStep(c, f);
    WriteEndsDrive(c, store, faults);
    if Lands(c, f) {
      RefusalLands(c);
      FailedVersionStaysBlocked(c, c', store, found, from, c.pc.cr);
    } else {
      assert c'.hist == c.hist;
    }
  }

  /** Whether a pool is up to date shows in its status alone. */
  lemma StatusDecides(c: Cell, c': Cell, store: Store, found: DiscoveryResult)
    requires c.hist != [] && Last(c.hist).Some? && c'.hist != [] && Last(c'.hist).Some?
    requires SamePool(Last(c'.hist).value, Last(c.hist).value)
    requires !IsUpToDate(c, store, found)
    requires var status := Last(c'.hist).value.status;
             status == Last(c.hist).value.status || (status.synced.Some? && !status.synced.value.status)
    ensures !IsUpToDate(c', store, found)
  {
  }

  lemma CreateOverUnreadable(c: Cell, store: Store, f: Fault)
    requires c.pc.Creating? && KeyOf(c.pc.cr) in store
    requires c.base < |c.hist| && c.hist[c.base].Some? && c.pc.cr == c.hist[c.base].value.(status := c.pc.cr.status)
    ensures var (c', store') := XcStep(c, store, f); store' == store && c'.hist == c.hist && Refused(c')
  {
    Mapper.PayloadDecodes(c.pc.cr.spec, c.pc.origins);
  }

  lemma GetOverUnreadable(c: Cell, store: Store, f: Fault)
    requires c.pc.Getting? && !Readable(store, KeyOf(c.pc.cr))
    requires c.base < |c.hist| && c.hist[c.base].Some? && c.pc.cr == c.hist[c.base].value.(status := c.pc.cr.status)
    ensures var (c', store') := XcStep(c, store, f);
            && store' == store && c'.hist == c.hist && c'.base == c.base
            && (Refused(c') || c'.pc.Idle? || (c'.pc.Creating? && c'.pc.cr == c.pc.cr))
  {
  }

  lemma GettingStaysBlocked(c: Cell, store: Store, found: DiscoveryResult, from: nat, faults: seq<Fault>)
    requires Blocked(c, store, found, from) && c.pc.Getting?
    requires c.base < |c.hist| && c.hist[c.base].Some? && c.pc.cr == c.hist[c.base].value.(status := c.pc.cr.status)
    requires KeyOf(c.pc.cr) == KeyOf(Last(c.hist).value)
    ensures var o := Drive(c, store, faults); o.store == store && Blocked(o.cell, store, found, from)
  {
    GetOverUnreadable(c, store, FirstFault(faults));
    var c1 := XcStep(c, store, FirstFault(faults)).0;
    var faults1 := RestFaults(faults);
    assert Drive(c, store, faults).cell == Drive(c1, store, faults1).cell;
    if c1.pc.Creating? {
      CreateOverUnreadable(c1, store, FirstFault(faults1));
      var c2 := XcStep(c1, store, FirstFault(faults1)).0;
      assert Drive(c1, store, faults1).cell == Drive(c2, store, RestFaults(faults1)).cell;
      RefusalStaysBlocked(c2, store, found, from, RestFaults(faults1));
    } else if !c1.pc.Idle? {
      RefusalStaysBlocked(c1, store, found, from, faults1);
    }
  }

  lemma ReconcileStaysBlocked(c: Cell, store: Store, found: DiscoveryResult, from: nat, at: nat, faults: seq<Fault>)
    requires Blocked(c, store, found, from) && from <= at < |c.hist|
    ensures var o := ReconcileAt(c, store, found, at, faults); o.store == store && Blocked(o.cell, store, found, from)
  {
    assert SamePool(c.hist[at].value, Last(c.hist).value);
    var read := ReadStep(c.(cached := at), found, true);
    if read.pc.Getting? {
      GettingStaysBlocked(read, store, found, from, faults);
    } else {
      RefusalStaysBlocked(read, store, found, from, faults);
    }
  }

  lemma AttemptStaysBlocked(c: Cell, store: Store, found: DiscoveryResult, from: nat, a: Attempt)
    requires Blocked(c, store, found, from)
    ensures var o := Attempted(c, store, found, from, a); o.store == store && Blocked(o.cell, store, found, from)
  {
    var like := AttemptEndsLike(c, store, found, from, a);
    ReconcileStaysBlocked(c, store, found, from, ReadAt(c, from, a.lag), like);
  }

  /** No number of reconciles, failing or not, gets past an object the operator cannot read. */
  lemma {:induction false} BlockedForEver(c: Cell, store: Store, found: DiscoveryResult, from: nat, script: seq<Attempt>)
    requires Blocked(c, store, found, from)
    ensures var t := Reconciles(c, store, found, from, script); t.unfinished == |script| && t.store == store
    decreases script
  {
    if script != [] {
      AttemptStaysBlocked(c, store, found, from, script[0]);
      BlockedForEver(Attempted(c, store, found, from, script[0]).cell, store, found, from, script[1..]);
    }
  }

  /**
   When convergence happens: a live pool with permitted references and complete
   discovery that is not up to date yet gets there within three reconciles more than
   there are failing calls, crashes and stale reads, if and only if the object XC holds
   for it at the start, if any, decodes and has a spec.
   */
  lemma ConvergesExactlyWhenReadable(c: Cell, store: Store, found: DiscoveryResult, from: nat, script: seq<Attempt>)
    requires Workable(c, found) && SettledSince(c, from) && !IsUpToDate(c, store, found)
    requires var t := Reconciles(c, store, found, from, script); |script| >= t.failures + t.stale + 3
    ensures Reconciles(c, store, found, from, script).unfinished < |script| <==> Readable(store, KeyOf(Last(c.hist).value))
  {
    if Readable(store, KeyOf(Last(c.hist).value)) {
      Converges(c, store, found, from, script);
    } else {
      BlockedForEver(c, store, found, from, script);
    }
  }

  // ----- Nothing is forgotten -----

  predicate NoAuthFailure(faults: seq<Fault>) {
    forall i | 0 <= i < |faults| :: faults[i].Fail? ==> faults[i].error != AuthError
  }

  /** The reconcile asks to be run again, or stored a new version, which triggers another. */
  predicate ComesBack(c: Cell, o: Outcome) {
    o.cell.pc != Idle(Finished) || o.cell.hist != c.hist
  }

  lemma StatusWriteComesBack(c: Cell, store: Store, found: DiscoveryResult, faults: seq<Fault>)
    requires c.pc.WritingStatus? && OnLatest(c, c.pc.cr)
    requires c.pc.landed == Finished ==>
               c.pc.lost == ReturnError && HoldsPayload(c.pc.cr, store, found)
               && ReportsSynced(c.pc.cr.status) && c.pc.cr.status.synced.value.observedGeneration == c.pc.cr.generation
    requires c.pc.landed != Finished ==> c.pc.lost != Finished
    ensures var o := Drive(c, store, faults);
            ComesBack(c, o) || (HoldsPayload(Last(c.hist).value, o.store, found) && ReportsCurrentSpec(Last(c.hist)))
  {
    StatusWriteEnds(c, store, faults);
  }

  lemma MutationComesBack(c: Cell, store: Store, found: DiscoveryResult, f: Fault)
    requires c.pc.Creating? || c.pc.Replacing?
    requires OnLatest(c, c.pc.cr) && c.pc.origins == OriginsOf(c.pc.cr.spec, found)
    requires f.Fail? ==> f.error != AuthError
    ensures var (c', store') := XcStep(c, store, f); var pc := c'.pc;
            && pc.WritingStatus? && OnLatest(c', pc.cr) && c'.hist == c.hist
            && (pc.landed == Finished ==>
                  pc.lost == ReturnError && HoldsPayload(pc.cr, store', found)
                  && ReportsSynced(pc.cr.status) && pc.cr.status.synced.value.observedGeneration == pc.cr.generation)
            && (pc.landed != Finished ==> pc.lost != Finished)
  {
    AfterMutation(c.pc, Serve(store, XcRequest(c.pc), f).1);
  }

  lemma GettingComesBack(c: Cell, store: Store, found: DiscoveryResult, f: Fault)
    requires Steady(c, store, found)
    requires c.pc.Getting? && OnLatest(c, c.pc.cr) && c.pc.origins == OriginsOf(c.pc.cr.spec, found)
    requires f.Fail? ==> f.error != AuthError
    ensures var pc := XcStep(c, store, f).0.pc;
            pc.WritingStatus? ==>
              && (pc.landed == Finished ==>
                    pc.lost == ReturnError && HoldsPayload(pc.cr, store, found)
                    && ReportsSynced(pc.cr.status) && pc.cr.status.synced.value.observedGeneration == pc.cr.generation)
              && (pc.landed != Finished ==> pc.lost != Finished)
  {
  }

  lemma MutationStopsWhenDone(c: Cell, store: Store, found: DiscoveryResult, faults: seq<Fault>)
    requires c.pc.Creating? || c.pc.Replacing?
    requires OnLatest(c, c.pc.cr) && c.pc.origins == OriginsOf(c.pc.cr.spec, found)
    requires NoAuthFailure(faults)
    ensures var o := Drive(c, store, faults);
            ComesBack(c, o) || (HoldsPayload(Last(c.hist).value, o.store, found) && ReportsCurrentSpec(Last(c.hist)))
  {
    var f := FirstFault(faults);
    MutationComesBack(c, store, found, f);
    var (c', store') := XcStep(c, store, f);
    StatusWriteComesBack(c', store', found, RestFaults(faults));
    var o, rest := Drive(c, store, faults), Drive(c', store', RestFaults(faults));
    assert o.cell == rest.cell && o.store == rest.store;
  }

  lemma GettingStopsWhenDone(c: Cell, store: Store, found: DiscoveryResult, faults: seq<Fault>)
    requires Steady(c, store, found) && NoAuthFailure(faults)
    requires c.pc.Getting? && OnLatest(c, c.pc.cr) && c.pc.origins == OriginsOf(c.pc.cr.spec, found)
    requires c.pc.cr == Seen(Last(c.hist).value, found)
    ensures var o := Drive(c, store, faults);
            ComesBack(c, o) || (HoldsPayload(Last(c.hist).value, o.store, found) && ReportsCurrentSpec(Last(c.hist)))
  {
    var f := FirstFault(faults);
    GettingSplits(c, store, found, f);
    GettingComesBack(c, store, found, f);
    var (c', store') := XcStep(c, store, f);
    if c'.pc.WritingStatus? {
      StatusWriteComesBack(c', store, found, RestFaults(faults));
    } else {
      MutationStopsWhenDone(c', store, found, RestFaults(faults));
    }
    var o, rest := Drive(c, store, faults), Drive(c', store', RestFaults(faults));
    assert o.cell == rest.cell && o.store == rest.store;
  }

  /**
   Nothing is forgotten: unless an authentication failure occurs, a reconcile that
   neither asks to be run again nor stores a new version leaves XC holding the
   payload and the status already reporting Synced=True for the current generation.
   */
  lemma StopsOnlyWhenDone(c: Cell, store: Store, found: DiscoveryResult, faults: seq<Fault>)
    requires Steady(c, store, found) && NoAuthFailure(faults)
    ensures var o := OneReconcile(c, store, found, faults);
            ComesBack(c, o) || (HoldsPayload(Last(c.hist).value, o.store, found) && ReportsCurrentSpec(Last(c.hist)))
  {
    var read := ReadStep(c.(cached := |c.hist| - 1), found, true);
    if read.pc.Getting? {
      GettingStopsWhenDone(read, store, found, faults);
    } else {
      var c' := WriteStep(read, FirstFault(faults));
      assert read.pc.WritingObject?;
      assert Drive(read, store, faults).cell == c';
      assert |Append(c.hist, Landed(Last(c.hist).value, read.pc))| == |c.hist| + 1;
    }
  }
}
