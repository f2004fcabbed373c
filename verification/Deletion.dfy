/**
 Deletion finishes: whole reconciles of one pool that is being deleted, with any
 failing calls, crashes and stale reads among them. The steps are those of the
 interleaving model.
 */
module Deletion {
  import opened Wrappers
  import opened XcApi
  import opened OriginPoolTypes
  import opened Reconciler
  import opened Protocol
  import opened Convergence

  /** Since version `from` the pool is being deleted, and only the operator writes to it. */
  predicate DeletedSince(c: Cell, from: nat, pool: CR) {
    && pool.deleting && from < |c.hist|
    && forall j | from <= j < |c.hist| && c.hist[j].Some? :: SamePool(c.hist[j].value, pool)
  }

  /** The operator has let go of the pool only if its XC object is absent or to be orphaned. */
  predicate Doomed(c: Cell, store: Store, from: nat, pool: CR) {
    && DeletedSince(c, from, pool)
    && (Holding(Last(c.hist)) || pool.deletionPolicy == ORPHAN || KeyOf(pool) !in store)
  }

  /** What a reconcile, or the rest of one, may do: let go at most, and touch the pool's own object only. */
  predicate Advances(c: Cell, store: Store, from: nat, pool: CR, o: Outcome) {
    && from < |c.hist|
    && Doomed(o.cell, o.store, from, pool)
    && (Holding(Last(o.cell.hist)) ==> Holding(Last(c.hist)))
    && (o.store == store || o.store == store - {KeyOf(pool)})
  }

  /** The reconcile works on a version that carries the finalizer. */
  predicate Deletes(c: Cell, from: nat, pool: CR) {
    && DeletedSince(c, from, pool) && from <= c.base < |c.hist| && Holding(c.hist[c.base])
    && !c.pc.Idle? && c.pc.cr == c.hist[c.base].value.(status := c.pc.cr.status, finalizers := c.pc.cr.finalizers)
  }

  lemma GrownStaysDeleted(c: Cell, c': Cell, from: nat, pool: CR, next: Option<CR>)
    requires DeletedSince(c, from, pool)
    requires c'.hist == Append(c.hist, next) && (next.Some? ==> SamePool(next.value, pool))
    ensures DeletedSince(c', from, pool) && Last(c'.hist) == next
  {
  }

  /** Removing the finalizer: whatever the answer, it lands exactly on the latest version. */
  lemma ReleaseEnds(c: Cell, store: Store, from: nat, pool: CR, faults: seq<Fault>)
    requires Deletes(c, from, pool) && c.pc == WritingObject(Released(c.hist[c.base].value))
    requires pool.deletionPolicy == ORPHAN || KeyOf(pool) !in store
    ensures var o := Drive(c, store, faults);
            && Advances(c, store, from, pool, o) && o.store == store
            && (c.base + 1 == |c.hist| && Applied(FirstFault(faults)) ==> !Holding(Last(o.cell.hist)))
            && o.failures == Failures(FirstFault(faults))
  {
    var f := FirstFault(faults);
    var c' := WriteStep(c, f);
    assert Drive(c, store, faults).cell == c';
    if Lands(c, f) {
      GrownStaysDeleted(c, c', from, pool, Landed(c.hist[c.base].value, c.pc));
    } else {
      assert c'.hist == c.hist;
    }
  }

  /** Reporting a failed deletion keeps the finalizer. */
  lemma ReportEnds(c: Cell, store: Store, from: nat, pool: CR, faults: seq<Fault>)
    requires Deletes(c, from, pool) && Doomed(c, store, from, pool)
    requires c.pc.WritingStatus? && c.pc.cr.finalizers == c.hist[c.base].value.finalizers
    ensures Advances(c, store, from, pool, Drive(c, store, faults)) && Drive(c, store, faults).store == store
  {
    var f := FirstFault(faults);
    var c' := WriteStep(c, f);
    assert Drive(c, store, faults).cell == c';
    if Lands(c, f) {
      GrownStaysDeleted(c, c', from, pool, Landed(c.hist[c.base].value, c.pc));
    } else {
      assert c'.hist == c.hist;
    }
  }

  /** What the DELETE leads to: the removal of the finalizer once the object is known to be gone, else a report. */
  lemma DeleteSplits(c: Cell, store: Store, from: nat, pool: CR, f: Fault)
    requires Deletes(c, from, pool) && Doomed(c, store, from, pool)
    requires c.pc.Deleting? && c.pc.cr == c.hist[c.base].value
    requires f.Fail? ==> f.error != NotFound
    ensures var (c', store') := XcStep(c, store, f);
            && (store' == store || store' == store - {KeyOf(pool)})
            && c'.hist == c.hist && Deletes(c', from, pool) && Doomed(c', store', from, pool)
            && if f.NoFault? then c'.pc == WritingObject(Released(c.hist[c.base].value)) && KeyOf(pool) !in store'
               else c'.pc.WritingStatus? && c'.pc.cr.finalizers == c.hist[c.base].value.finalizers
  {
    assert KeyOf(c.pc.cr) == KeyOf(pool);
    var store' := XcStep(c, store, f).1;
    assert KeyOf(pool) !in store ==> store' == store;
  }

  lemma DeletingAdvances(c: Cell, store: Store, from: nat, pool: CR, faults: seq<Fault>)
    requires Deletes(c, from, pool) && Doomed(c, store, from, pool)
    requires c.pc.Deleting? && c.pc.cr == c.hist[c.base].value
    requires Honest(faults)
    ensures var o := Drive(c, store, faults);
            && Advances(c, store, from, pool, o)
            && (c.base + 1 == |c.hist| && o.failures == 0 ==> !Holding(Last(o.cell.hist)))
  {
    var f, rest := FirstFault(faults), RestFaults(faults);
    DeleteSplits(c, store, from, pool, f);
    var (c', store') := XcStep(c, store, f);
    var o, o' := Drive(c, store, faults), Drive(c', store', rest);
    assert o.cell == o'.cell && o.store == o'.store && o.failures == o'.failures + Failures(f);
    if f.NoFault? {
      ReleaseEnds(c', store', from, pool, rest);
    } else {
      ReportEnds(c', store', from, pool, rest);
    }
  }

  /** XC never answers "not found" wrongly. */
  predicate Honest(faults: seq<Fault>) {
    forall i | 0 <= i < |faults| :: faults[i].Fail? ==> faults[i].error != NotFound
  }

  /** A whole reconcile, from whatever version: from the latest one and without failures it lets go. */
  lemma ReconcileAdvances(c: Cell, store: Store, found: DiscoveryResult, from: nat, pool: CR, at: nat, faults: seq<Fault>)
    requires Doomed(c, store, from, pool) && from <= at < |c.hist| && Honest(faults)
    ensures var o := ReconcileAt(c, store, found, at, faults);
            && Advances(c, store, from, pool, o)
            && (at + 1 == |c.hist| && o.failures == 0 ==> !Holding(Last(o.cell.hist)))
  {
    var read := ReadStep(c.(cached := at), found, true);
    if Holding(c.hist[at]) {
      assert Deletes(read, from, pool);
      if pool.deletionPolicy == ORPHAN {
        ReleaseEnds(read, store, from, pool, faults);
      } else {
        DeletingAdvances(read, store, from, pool, faults);
      }
    } else {
      assert read.pc == Idle(Finished);
    }
  }

  lemma AttemptAdvances(c: Cell, store: Store, found: DiscoveryResult, from: nat, pool: CR, a: Attempt)
    requires Doomed(c, store, from, pool) && Honest(a.faults)
    ensures var o := Attempted(c, store, found, from, a);
            && Advances(c, store, from, pool, o)
            && (!IsStale(c, from, a) && o.failures == 0 ==> !Holding(Last(o.cell.hist)))
  {
    var like := AttemptEndsLike(c, store, found, from, a);
    forall i | 0 <= i < |like| && like[i].Fail? ensures like[i].error != NotFound {
      assert like[i] in like;
    }
    ReconcileAdvances(c, store, found, from, pool, ReadAt(c, from, a.lag), like);
  }

  /** The state after the script, its failing calls and crashes, its stale reads, and the reconciles after which the finalizer was still there. */
  datatype DeletionTally = DeletionTally(cell: Cell, store: Store, failures: nat, stale: nat, unfinished: nat)

  function Deletions(c: Cell, store: Store, found: DiscoveryResult, from: nat, script: seq<Attempt>): DeletionTally
    requires from < |c.hist|
    decreases script
  {
    if script == [] then DeletionTally(c, store, 0, 0, 0)
    else
      AttemptAppends(c, store, found, from, script[0]);
      var o := Attempted(c, store, found, from, script[0]);
      var rest := Deletions(o.cell, o.store, found, from, script[1..]);
      rest.(failures := o.failures + rest.failures,
            stale := rest.stale + (if IsStale(c, from, script[0]) then 1 else 0),
            unfinished := rest.unfinished + if Holding(Last(o.cell.hist)) then 1 else 0)
  }

  /**
   Deletion converges: with N failing calls, crashes and stale reads in all, at most N
   reconciles of a deleted pool leave its finalizer in place, however many are run. One
   reconcile more and the operator has let go, its XC object absent unless it was to be
   orphaned, and no other object touched.
   */
  lemma {:induction false} DeletionConverges(c: Cell, store: Store, found: DiscoveryResult, from: nat, pool: CR, script: seq<Attempt>)
    requires Doomed(c, store, from, pool)
    requires forall i | 0 <= i < |script| :: Honest(script[i].faults)
    ensures var t := Deletions(c, store, found, from, script);
            && t.unfinished <= t.failures + t.stale
            && Doomed(t.cell, t.store, from, pool)
            && (t.store == store || t.store == store - {KeyOf(pool)})
            && (Holding(Last(t.cell.hist)) ==> Holding(Last(c.hist)) && t.unfinished == |script|)
            && (|script| > t.failures + t.stale ==>
                  !Holding(Last(t.cell.hist)) && (pool.deletionPolicy == ORPHAN || KeyOf(pool) !in t.store))
    decreases script
  {
    if script != [] {
      AttemptAdvances(c, store, found, from, pool, script[0]);
      AttemptAppends(c, store, found, from, script[0]);
      var o := Attempted(c, store, found, from, script[0]);
      DeletionConverges(o.cell, o.store, found, from, pool, script[1..]);
    }
  }

  // ----- Nothing is forgotten -----

  lemma FailedDeleteComesBack(c: Cell, store: Store, faults: seq<Fault>)
    requires c.hist != [] && c.pc.Deleting? && c.base + 1 == |c.hist| && Last(c.hist) == Some(c.pc.cr) && Holding(Last(c.hist))
    requires c.pc.cr.deleting && NoAuthFailure(faults)
    ensures ComesBack(c, Drive(c, store, faults))
  {
    var (c', store') := XcStep(c, store, FirstFault(faults));
    var rest := RestFaults(faults);
    assert c'.hist == c.hist && Drive(c, store, faults).cell == Drive(c', store', rest).cell;
    if c'.pc.WritingObject? {
      ReleaseComesBack(c', store', rest);
    } else {
      assert c'.pc.landed == c'.pc.lost != Finished;
      assert Drive(c', store', rest).cell == WriteStep(c', FirstFault(rest));
    }
  }

  lemma ReleaseComesBack(c: Cell, store: Store, faults: seq<Fault>)
    requires c.hist != [] && c.base + 1 == |c.hist| && Holding(Last(c.hist))
    requires c.pc == WritingObject(Released(Last(c.hist).value))
    ensures ComesBack(c, Drive(c, store, faults))
  {
    var c' := WriteStep(c, FirstFault(faults));
    assert Drive(c, store, faults).cell == c';
    assert Landed(Last(c.hist).value, c.pc) != Last(c.hist);
    assert c'.hist == c.hist ==> c'.pc == Idle(ReturnError);
  }

  /**
   No unfinished deletion is forgotten: unless an authentication failure occurs, a
   reconcile of a pool being deleted that neither asks to be run again nor stores a
   version found the finalizer already gone.
   */
  lemma DeletionStopsOnlyWhenDone(c: Cell, store: Store, found: DiscoveryResult, faults: seq<Fault>)
    requires c.hist != [] && Last(c.hist).Some? && Last(c.hist).value.deleting && NoAuthFailure(faults)
    ensures ComesBack(c, OneReconcile(c, store, found, faults)) || !Holding(Last(c.hist))
  {
    var read := ReadStep(c.(cached := |c.hist| - 1), found, true);
    if Holding(Last(c.hist)) {
      if read.pc.Deleting? {
        FailedDeleteComesBack(read, store, faults);
      } else {
        ReleaseComesBack(read, store, faults);
      }
    }
  }
}
