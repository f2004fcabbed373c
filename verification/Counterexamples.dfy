/**
 Runs that show which assumptions the system needs. Leak-freedom fails when a pool's
 XC namespace is edited, and when a cache goes back in time; a report
 for the current generation can be false when two pools share an XC key; and a report
 for an older generation is, for a moment of every successful edit, not true. Last, a
 run into a state from which no number of reconciles converges.
 */
module Counterexamples {
  import opened Wrappers
  import opened XcApi
  import opened OriginPoolTypes
  import opened Discovery
  import opened Reconciler
  import opened Protocol
  import opened LeakFreedom
  import opened TruthfulStatus
  import opened CurrentStatus
  import opened Convergence
  import opened Json
  import Mapper = OriginPoolMapper
  import Diff

  const ID := Name("apps", "pool")
  const OTHER := Name("web", "pool")
  const NOTHING_FOUND := DiscoveryResult([], [], true)

  function PlainSpec(xcNamespace: string, port: SafeInt): OriginPoolSpec {
    OriginPoolSpec(xcNamespace, [], port, "", [], None, false)
  }

  /** A pool without discover entries, as its user creates it and once it carries the finalizer. */
  function Bare(id: Name): CR {
    CR(id, 1, false, {}, "", PlainSpec("a", 80), EMPTY_STATUS)
  }

  function Held(id: Name): CR {
    Bare(id).(finalizers := {FINALIZER})
  }

  const POOL := Held(ID)
  const BORN := [None, Some(Bare(ID)), Some(POOL)]
  const KEY := XcKey("a", "pool")
  const OBJECT := XcObject("a", "1", Uid(KEY), Some(Mapper.Payload(POOL.spec, [])), true)
  const STORED: Store := map[KEY := OBJECT]
  const SYNCED := Reported(POOL, CreateSucceeded, OBJECT)
  const REPORTED := BORN + [Some(SYNCED)]
  const CLAIM := Some(Claim(1, POOL.spec, []))

  const FRESH := Cell([None], 0, 0, Idle(Finished), None, false)
  const ALONE := map[ID := FRESH]
  const BOTH := map[ID := FRESH, OTHER := FRESH]

  /** The rules for one pool. */
  function TheRules(fixedKeys: bool, monotoneCache: bool): Rules {
    Rules(map[ID := KEY], fixedKeys, monotoneCache)
  }

  /** Two pools in different Kubernetes namespaces, under one XC key. */
  const SHARED := Rules(map[ID := KEY, OTHER := KEY], true, true)

  // ----- Runs -----

  /** One more step of a run. */
  lemma {:induction false} Extend(rules: Rules, w: World, evs: seq<Event>, ev: Event)
    requires IsRun(rules, w, evs) && Enabled(rules, After(rules, w, evs), ev)
    ensures IsRun(rules, w, evs + [ev])
    ensures After(rules, w, evs + [ev]) == Next(rules, After(rules, w, evs), ev)
    decreases evs
  {
    if evs == [] {
      assert evs + [ev] == [ev];
      assert [ev][1..] == [];
    } else {
      Extend(rules, Next(rules, w, evs[0]), evs[1..], ev);
      assert (evs + [ev])[1..] == evs[1..] + [ev];
    }
  }

  function Begin(rules: Rules): World {
    World(map id | id in rules.keys :: FRESH, map[])
  }

  /** The run is at this world, in which pool `id` is `c` and the other pools are as in `rest`. */
  ghost predicate At(rules: Rules, evs: seq<Event>, rest: map<Name, Cell>, id: Name, c: Cell, store: Store) {
    IsRun(rules, Begin(rules), evs) && After(rules, Begin(rules), evs) == World(rest[id := c], store)
  }

  lemma Moves(rules: Rules, evs: seq<Event>, rest: map<Name, Cell>, id: Name, c: Cell, store: Store, ev: Event, c': Cell, store': Store)
    requires At(rules, evs, rest, id, c, store)
    requires Enabled(rules, World(rest[id := c], store), ev)
    requires Next(rules, World(rest[id := c], store), ev) == World(rest[id := c][id := c'], store')
    ensures At(rules, evs + [ev], rest, id, c', store')
  {
    Extend(rules, Begin(rules), evs, ev);
    assert rest[id := c][id := c'] == rest[id := c'];
  }

  lemma UserMove(rules: Rules, evs: seq<Event>, rest: map<Name, Cell>, id: Name, c: Cell, store: Store, v: Option<CR>, hist: seq<Option<CR>>)
    requires At(rules, evs, rest, id, c, store) && id in rules.keys
    requires c.hist != [] && UserMay(Last(c.hist), v) && KeptKey(rules, id, v) && hist == c.hist + [v]
    ensures At(rules, evs + [UserWrites(id, v)], rest, id, c.(hist := hist), store)
  {
    Moves(rules, evs, rest, id, c, store, UserWrites(id, v), c.(hist := hist), store);
  }

  lemma CacheMove(rules: Rules, evs: seq<Event>, rest: map<Name, Cell>, id: Name, c: Cell, store: Store, to: nat)
    requires At(rules, evs, rest, id, c, store)
    requires to < |c.hist| && (rules.monotoneCache ==> c.cached <= to)
    ensures At(rules, evs + [CacheMoves(id, to)], rest, id, c.(cached := to), store)
  {
    Moves(rules, evs, rest, id, c, store, CacheMoves(id, to), c.(cached := to), store);
  }

  lemma ReadMove(rules: Rules, evs: seq<Event>, rest: map<Name, Cell>, id: Name, c: Cell, store: Store, pc: Pc)
    requires At(rules, evs, rest, id, c, store)
    requires c.pc.Idle? && c.cached < |c.hist| && pc == Start(c.hist[c.cached], NOTHING_FOUND, true)
    requires c.hist[c.cached].Some? ==> c.hist[c.cached].value.spec.originServers == []
    ensures At(rules, evs + [Read(id, NOTHING_FOUND, true)], rest, id, c.(base := c.cached, pc := pc), store)
  {
    Moves(rules, evs, rest, id, c, store, Read(id, NOTHING_FOUND, true), c.(base := c.cached, pc := pc), store);
  }

  lemma CallMove(rules: Rules, evs: seq<Event>, rest: map<Name, Cell>, id: Name, c: Cell, store: Store, c': Cell, store': Store)
    requires At(rules, evs, rest, id, c, store)
    requires !c.pc.Idle? && c.hist != []
    requires var (next, after) := ProceedStep(c, store, NoFault);
             next == c'.(hist := next.hist) && next.hist == c'.hist && after == store'
    ensures At(rules, evs + [Proceed(id, NoFault)], rest, id, c', store')
  {
    Moves(rules, evs, rest, id, c, store, Proceed(id, NoFault), c', store');
  }

  /** Nothing goes wrong: no failed call, no crash, no outside edit. */
  predicate Faultless(evs: seq<Event>) {
    forall i | 0 <= i < |evs| ::
      !evs[i].OutsideEdit? && !evs[i].Crash? && (evs[i].Proceed? ==> evs[i].fault.NoFault?)
  }

  // ----- How every run begins -----

  /** A user creates the pool, and its first reconcile adds the finalizer. */
  lemma PoolGetsFinalizer(rules: Rules, before: seq<Event>, rest: map<Name, Cell>, id: Name, store: Store) returns (evs: seq<Event>)
    requires At(rules, before, rest, id, FRESH, store) && Faultless(before)
    requires id in rules.keys && id.name == "pool" && rules.keys[id] == KEY
    ensures At(rules, evs, rest, id, Cell([None, Some(Bare(id)), Some(Held(id))], 1, 1, Idle(Finished), None, false), store)
    ensures Faultless(evs)
  {
    evs := before;
    var c1 := FRESH.(hist := [None, Some(Bare(id))]);
    UserMove(rules, evs, rest, id, FRESH, store, Some(Bare(id)), c1.hist);
    evs := evs + [UserWrites(id, Some(Bare(id)))];
    var c2 := c1.(cached := 1);
    CacheMove(rules, evs, rest, id, c1, store, 1);
    evs := evs + [CacheMoves(id, 1)];
    var c3 := c2.(base := 1, pc := WritingObject(Held(id)));
    assert Bare(id).finalizers + {FINALIZER} == {FINALIZER};
    ReadMove(rules, evs, rest, id, c2, store, c3.pc);
    evs := evs + [Read(id, NOTHING_FOUND, true)];
    var c4 := c3.(pc := Idle(Finished), hist := [None, Some(Bare(id)), Some(Held(id))]);
    assert Held(id).finalizers != Bare(id).finalizers;
    CallMove(rules, evs, rest, id, c3, store, c4, store);
    evs := evs + [Proceed(id, NoFault)];
  }

  /** The pool's next reconcile creates its XC object. */
  lemma PoolIsCreated(rules: Rules, rest: map<Name, Cell>) returns (evs: seq<Event>)
    requires ID in rules.keys && rules.keys[ID] == KEY && ID in rest && Begin(rules) == World(rest, map[]) && rest[ID] == FRESH
    ensures At(rules, evs, rest, ID, Cell(BORN, 2, 2, WritingStatus(SYNCED, Finished, ReturnError, Some([])), None, true), STORED)
    ensures Faultless(evs)
  {
    assert rest[ID := FRESH] == rest;
    evs := PoolGetsFinalizer(rules, [], rest, ID, map[]);
    var c1 := Cell(BORN, 1, 1, Idle(Finished), None, false);
    var c2 := c1.(cached := 2);
    CacheMove(rules, evs, rest, ID, c1, map[], 2);
    evs := evs + [CacheMoves(ID, 2)];
    var c3 := c2.(base := 2, pc := Getting(POOL, []));
    ReadMove(rules, evs, rest, ID, c2, map[], c3.pc);
    evs := evs + [Read(ID, NOTHING_FOUND, true)];
    var c4 := c3.(pc := Creating(POOL, []));
    CallMove(rules, evs, rest, ID, c3, map[], c4, map[]);
    evs := evs + [Proceed(ID, NoFault)];
    CreateSucceeds(rules, evs, rest, POOL, c4);
    evs := evs + [Proceed(ID, NoFault)];
  }

  lemma CreateSucceeds(rules: Rules, evs: seq<Event>, rest: map<Name, Cell>, cr: CR, c: Cell)
    requires cr.id == ID && cr.spec == POOL.spec
    requires c.hist != [] && c.pc == Creating(cr, []) && At(rules, evs, rest, ID, c, map[])
    ensures At(rules, evs + [Proceed(ID, NoFault)], rest, ID,
               c.(pc := WritingStatus(Reported(cr, CreateSucceeded, OBJECT), Finished, ReturnError, Some([])), dirty := true), STORED)
  {
    Mapper.PayloadDecodes(POOL.spec, []);
    CallMove(rules, evs, rest, ID, c, map[],
             c.(pc := WritingStatus(Reported(cr, CreateSucceeded, OBJECT), Finished, ReturnError, Some([])), dirty := true), STORED);
  }

  /** The status write lands: Synced=True for generation 1. */
  lemma PoolIsReported(rules: Rules, rest: map<Name, Cell>) returns (evs: seq<Event>)
    requires ID in rules.keys && rules.keys[ID] == KEY && ID in rest && Begin(rules) == World(rest, map[]) && rest[ID] == FRESH
    ensures At(rules, evs, rest, ID, Cell(REPORTED, 2, 2, Idle(Finished), CLAIM, false), STORED)
    ensures Faultless(evs)
  {
    evs := PoolIsCreated(rules, rest);
    var c0 := Cell(BORN, 2, 2, WritingStatus(SYNCED, Finished, ReturnError, Some([])), None, true);
    var c1 := Cell(REPORTED, 2, 2, Idle(Finished), CLAIM, false);
    assert SYNCED.status.synced.Some? && POOL.status.synced.None?;
    CallMove(rules, evs, rest, ID, c0, STORED, c1, STORED);
    evs := evs + [Proceed(ID, NoFault)];
  }

  /** A pool's XC object without the pool: what leak-freedom rules out. */
  ghost predicate Leaks(rules: Rules, evs: seq<Event>) {
    && IsRun(rules, Begin(rules), evs)
    && ID in After(rules, Begin(rules), evs).cells
    && var w := After(rules, Begin(rules), evs); var c := w.cells[ID];
       c.hist != [] && KEY in w.store && Last(c.hist).None? && !ReleasedAsOrphan(c.hist)
  }

  lemma BeginIsInitial(rules: Rules)
    ensures Initial(rules, Begin(rules))
    ensures rules.keys == map[ID := KEY] ==> DistinctKeys(rules) && Begin(rules) == World(ALONE, map[])
  {
  }

  // ----- An edited XC namespace -----

  const MOVED := SYNCED.(generation := 2, spec := PlainSpec("b", 80))
  const MOVED_DELETING := MOVED.(generation := 3, deleting := true)
  const MOVED_AWAY := REPORTED + [Some(MOVED), Some(MOVED_DELETING)]

  /**
   Editing `spec.xcNamespace` leaks: the deletion asks for the object under the new
   namespace, finds nothing there, and lets the pool go.
   */
  lemma NamespaceEditLeaks() returns (evs: seq<Event>)
    ensures var rules := TheRules(false, true);
            Initial(rules, Begin(rules)) && DistinctKeys(rules) && Leaks(rules, evs) && Faultless(evs)
  {
    var rules := TheRules(false, true);
    BeginIsInitial(rules);
    evs := PoolIsReported(rules, ALONE);
    var c0 := Cell(REPORTED, 2, 2, Idle(Finished), CLAIM, false);
    var c1 := c0.(hist := REPORTED + [Some(MOVED)]);
    UserMove(rules, evs, ALONE, ID, c0, STORED, Some(MOVED), c1.hist);
    evs := evs + [UserWrites(ID, Some(MOVED))];
    var c2 := c1.(hist := MOVED_AWAY);
    UserMove(rules, evs, ALONE, ID, c1, STORED, Some(MOVED_DELETING), c2.hist);
    evs := evs + [UserWrites(ID, Some(MOVED_DELETING))];
    evs := MovedPoolIsReleased(rules, evs, c2);
  }

  lemma MovedPoolIsReleased(rules: Rules, before: seq<Event>, c: Cell) returns (evs: seq<Event>)
    requires rules == TheRules(false, true) && At(rules, before, ALONE, ID, c, STORED) && Faultless(before)
    requires c == Cell(MOVED_AWAY, 2, 2, Idle(Finished), CLAIM, false)
    ensures Leaks(rules, evs) && Faultless(evs)
  {
    evs := before;
    var c1 := c.(cached := 5);
    CacheMove(rules, evs, ALONE, ID, c, STORED, 5);
    evs := evs + [CacheMoves(ID, 5)];
    var c2 := c1.(base := 5, pc := Deleting(MOVED_DELETING));
    ReadMove(rules, evs, ALONE, ID, c1, STORED, c2.pc);
    evs := evs + [Read(ID, NOTHING_FOUND, true)];
    var c3 := c2.(pc := WritingObject(Released(MOVED_DELETING)));
    assert KeyOf(MOVED_DELETING) !in STORED;
    CallMove(rules, evs, ALONE, ID, c2, STORED, c3, STORED);
    evs := evs + [Proceed(ID, NoFault)];
    evs := DeletedPoolGoes(rules, evs, c3, MOVED_DELETING, STORED);
  }

  /** The last finalizer is removed, and nobody asked for an orphan. */
  lemma DeletedPoolGoes(rules: Rules, before: seq<Event>, c: Cell, cr: CR, store: Store) returns (evs: seq<Event>)
    requires At(rules, before, ALONE, ID, c, store) && Faultless(before)
    requires |c.hist| == c.base + 1 && c.hist[c.base] == Some(cr) && c.pc == WritingObject(Released(cr))
    requires cr.deleting && cr.finalizers == {FINALIZER} && cr.deletionPolicy != ORPHAN
    ensures At(rules, evs, ALONE, ID, c.(pc := Idle(Finished), hist := c.hist + [None]), store) && Faultless(evs)
    ensures !ReleasedAsOrphan(c.hist + [None])
    ensures KEY in store ==> Leaks(rules, evs)
  {
    var c1 := c.(pc := Idle(Finished), hist := c.hist + [None]);
    assert Released(cr).finalizers == {};
    CallMove(rules, before, ALONE, ID, c, store, c1, store);
    evs := before + [Proceed(ID, NoFault)];
    assert Holding(c1.hist[c.base]) && !Holding(c1.hist[c.base + 1]);
  }

  // ----- A cache that goes back in time -----

  const DELETING := SYNCED.(generation := 2, deleting := true)
  const GONE := REPORTED + [Some(DELETING), None]

  /**
   A cache that goes back to an older version leaks: the pool was deleted
   properly, but the old copy is still live, and the operator creates its object again.
   */
  lemma OldCacheLeaks() returns (evs: seq<Event>)
    ensures var rules := TheRules(true, false);
            Initial(rules, Begin(rules)) && DistinctKeys(rules) && Leaks(rules, evs) && Faultless(evs)
  {
    var rules := TheRules(true, false);
    BeginIsInitial(rules);
    evs := PoolIsReported(rules, ALONE);
    var c0 := Cell(REPORTED, 2, 2, Idle(Finished), CLAIM, false);
    var c1 := c0.(hist := REPORTED + [Some(DELETING)]);
    UserMove(rules, evs, ALONE, ID, c0, STORED, Some(DELETING), c1.hist);
    evs := evs + [UserWrites(ID, Some(DELETING))];
    var c2 := c1.(cached := 4);
    CacheMove(rules, evs, ALONE, ID, c1, STORED, 4);
    evs := evs + [CacheMoves(ID, 4)];
    var c3 := c2.(base := 4, pc := Deleting(DELETING));
    ReadMove(rules, evs, ALONE, ID, c2, STORED, c3.pc);
    evs := evs + [Read(ID, NOTHING_FOUND, true)];
    evs := DeletedPoolComesBack(rules, evs, c3);
  }

  lemma DeletedPoolComesBack(rules: Rules, before: seq<Event>, c: Cell) returns (evs: seq<Event>)
    requires rules == TheRules(true, false) && At(rules, before, ALONE, ID, c, STORED) && Faultless(before)
    requires c == Cell(REPORTED + [Some(DELETING)], 4, 4, Deleting(DELETING), CLAIM, false)
    ensures Leaks(rules, evs) && Faultless(evs)
  {
    var c1 := c.(pc := WritingObject(Released(DELETING)), dirty := true);
    CallMove(rules, before, ALONE, ID, c, STORED, c1, map[]);
    evs := before + [Proceed(ID, NoFault)];
    evs := GoneAndBack(rules, evs, c1);
  }

  lemma GoneAndBack(rules: Rules, before: seq<Event>, c1: Cell) returns (evs: seq<Event>)
    requires rules == TheRules(true, false) && At(rules, before, ALONE, ID, c1, map[]) && Faultless(before)
    requires c1 == Cell(REPORTED + [Some(DELETING)], 4, 4, WritingObject(Released(DELETING)), CLAIM, true)
    ensures Leaks(rules, evs) && Faultless(evs)
  {
    evs := DeletedPoolGoes(rules, before, c1, DELETING, map[]);
    var c2 := c1.(pc := Idle(Finished), hist := c1.hist + [None]);
    assert c2.hist == GONE;
    var c3 := c2.(cached := 3);
    CacheMove(rules, evs, ALONE, ID, c2, map[], 3);
    evs := evs + [CacheMoves(ID, 3)];
    evs := OldCopyCreates(rules, evs, c3);
  }

  lemma OldCopyCreates(rules: Rules, before: seq<Event>, c: Cell) returns (evs: seq<Event>)
    requires rules == TheRules(true, false) && At(rules, before, ALONE, ID, c, map[]) && Faultless(before)
    requires c == Cell(GONE, 3, 4, Idle(Finished), CLAIM, true) && !ReleasedAsOrphan(GONE)
    ensures Leaks(rules, evs) && Faultless(evs)
  {
    evs := before;
    var c1 := c.(base := 3, pc := Getting(SYNCED, []));
    ReadMove(rules, evs, ALONE, ID, c, map[], c1.pc);
    evs := evs + [Read(ID, NOTHING_FOUND, true)];
    var c2 := c1.(pc := Creating(SYNCED, []));
    CallMove(rules, evs, ALONE, ID, c1, map[], c2, map[]);
    evs := evs + [Proceed(ID, NoFault)];
    CreateSucceeds(rules, evs, ALONE, SYNCED, c2);
    evs := evs + [Proceed(ID, NoFault)];
  }

  // ----- Two pools under one XC key -----

  const OTHER_DELETING := Held(OTHER).(generation := 2, deleting := true)

  /**
   Two pools of one name in different Kubernetes namespaces, with one `xcNamespace`:
   deleting the one that never created anything deletes the other's XC object, and the
   other, live and undisturbed, goes on reporting Synced=True for its current spec.
   */
  lemma SharedKeyBelies() returns (evs: seq<Event>)
    ensures Initial(SHARED, Begin(SHARED)) && IsRun(SHARED, Begin(SHARED), evs) && Faultless(evs)
    ensures var w := After(SHARED, Begin(SHARED), evs);
            && ID in w.cells && w.cells[ID].hist != [] && KEY !in w.store
            && ReportsCurrentSpec(Last(w.cells[ID].hist))
  {
    BeginIsInitial(SHARED);
    assert Begin(SHARED) == World(BOTH, map[]);
    evs := PoolIsReported(SHARED, BOTH);
    var c := Cell(REPORTED, 2, 2, Idle(Finished), CLAIM, false);
    var rest := BOTH[ID := c];
    assert rest[OTHER := FRESH] == rest;
    evs := PoolGetsFinalizer(SHARED, evs, rest, OTHER, STORED);
    evs := OtherPoolIsDeleted(evs, rest);
    assert After(SHARED, Begin(SHARED), evs).cells[ID] == c;
  }

  lemma OtherPoolIsDeleted(before: seq<Event>, rest: map<Name, Cell>) returns (evs: seq<Event>)
    requires At(SHARED, before, rest, OTHER, Cell([None, Some(Bare(OTHER)), Some(Held(OTHER))], 1, 1, Idle(Finished), None, false), STORED)
    requires Faultless(before)
    ensures IsRun(SHARED, Begin(SHARED), evs) && Faultless(evs)
    ensures After(SHARED, Begin(SHARED), evs).store == map[]
    ensures forall id | id in rest && id != OTHER ::
              id in After(SHARED, Begin(SHARED), evs).cells && After(SHARED, Begin(SHARED), evs).cells[id] == rest[id]
  {
    evs := before;
    var c := Cell([None, Some(Bare(OTHER)), Some(Held(OTHER))], 1, 1, Idle(Finished), None, false);
    var c1 := c.(hist := c.hist + [Some(OTHER_DELETING)]);
    UserMove(SHARED, evs, rest, OTHER, c, STORED, Some(OTHER_DELETING), c1.hist);
    evs := evs + [UserWrites(OTHER, Some(OTHER_DELETING))];
    var c2 := c1.(cached := 3);
    CacheMove(SHARED, evs, rest, OTHER, c1, STORED, 3);
    evs := evs + [CacheMoves(OTHER, 3)];
    var c3 := c2.(base := 3, pc := Deleting(OTHER_DELETING));
    ReadMove(SHARED, evs, rest, OTHER, c2, STORED, c3.pc);
    evs := evs + [Read(OTHER, NOTHING_FOUND, true)];
    var c4 := c3.(pc := WritingObject(Released(OTHER_DELETING)), dirty := true);
    CallMove(SHARED, evs, rest, OTHER, c3, STORED, c4, map[]);
    evs := evs + [Proceed(OTHER, NoFault)];
  }

  // ----- A report for an older generation -----

  const EDITED := SYNCED.(generation := 2, spec := PlainSpec("a", 81))
  const EDITED_OBJECT := XcObject("a", "1", Uid(KEY), Some(Mapper.Payload(EDITED.spec, [])), true)

  /** The two generations have different payloads, and the comparison sees it. */
  lemma EditIsSeen()
    ensures Diff.Compare(Mapper.Payload(POOL.spec, []), Mapper.Payload(EDITED.spec, [])) == Ok(true)
    ensures Diff.Compare(Mapper.Payload(EDITED.spec, []), Mapper.Payload(POOL.spec, [])) == Ok(true)
  {
    Mapper.DriftComparisonIsExact(Mapper.MapSpec(POOL.spec, []), Mapper.MapSpec(EDITED.spec, []));
    Mapper.DriftComparisonIsExact(Mapper.MapSpec(EDITED.spec, []), Mapper.MapSpec(POOL.spec, []));
  }

  /** The report stands, and XC does not hold what it stood for. */
  predicate Belied(c: Cell, store: Store) {
    c.hist != [] && Stands(Last(c.hist)) && !Truthful(c, KEY, store)
  }

  /**
   Under all assumptions and with nothing going wrong, a reachable state reports
   Synced=True for generation 1 while XC already holds generation 2.
   */
  lemma ReportLagsBehindReplace() returns (evs: seq<Event>)
    ensures var rules := TheRules(true, true);
            && StandingRules(rules) && Initial(rules, Begin(rules))
            && IsRun(rules, Begin(rules), evs) && Faultless(evs)
            && var w := After(rules, Begin(rules), evs);
               ID in w.cells && Belied(w.cells[ID], w.store)
  {
    var rules := TheRules(true, true);
    BeginIsInitial(rules);
    evs := PoolIsReported(rules, ALONE);
    var c0 := Cell(REPORTED, 2, 2, Idle(Finished), CLAIM, false);
    var c1 := c0.(hist := REPORTED + [Some(EDITED)]);
    UserMove(rules, evs, ALONE, ID, c0, STORED, Some(EDITED), c1.hist);
    evs := evs + [UserWrites(ID, Some(EDITED))];
    var c2 := c1.(cached := 4);
    CacheMove(rules, evs, ALONE, ID, c1, STORED, 4);
    evs := evs + [CacheMoves(ID, 4)];
    var c3 := c2.(base := 4, pc := Getting(EDITED, []));
    ReadMove(rules, evs, ALONE, ID, c2, STORED, c3.pc);
    evs := evs + [Read(ID, NOTHING_FOUND, true)];
    var c4: Cell;
    evs, c4 := ReplaceIsApplied(rules, evs, c3);
    ShownBelied(rules, evs, c4);
  }

  lemma ReplaceIsApplied(rules: Rules, before: seq<Event>, c: Cell) returns (evs: seq<Event>, c': Cell)
    requires At(rules, before, ALONE, ID, c, STORED) && Faultless(before)
    requires c.hist != [] && c.pc == Getting(EDITED, [])
    ensures At(rules, evs, ALONE, ID, c', map[KEY := EDITED_OBJECT]) && Faultless(evs)
    ensures c' == c.(pc := c'.pc, dirty := true)
  {
    EditIsFetched(rules, before, c);
    evs := before + [Proceed(ID, NoFault)];
    var pc := PutSucceeds(rules, evs, c.(pc := Replacing(EDITED, [], "1")));
    evs := evs + [Proceed(ID, NoFault)];
    c' := c.(pc := pc, dirty := true);
  }

  lemma ShownBelied(rules: Rules, evs: seq<Event>, c: Cell)
    requires At(rules, evs, ALONE, ID, c, map[KEY := EDITED_OBJECT])
    requires c.hist != [] && Last(c.hist) == Some(EDITED) && c.claim == CLAIM
    ensures var w := After(rules, Begin(rules), evs); ID in w.cells && Belied(w.cells[ID], w.store)
  {
    EditIsSeen();
    assert SYNCED.status == EDITED.status;
    assert Belied(c, map[KEY := EDITED_OBJECT]);
  }

  lemma EditIsFetched(rules: Rules, evs: seq<Event>, c: Cell)
    requires At(rules, evs, ALONE, ID, c, STORED)
    requires c.hist != [] && c.pc == Getting(EDITED, [])
    ensures At(rules, evs + [Proceed(ID, NoFault)], ALONE, ID, c.(pc := Replacing(EDITED, [], "1")), STORED)
  {
    EditIsSeen();
    Mapper.PayloadDecodes(POOL.spec, []);
    CallMove(rules, evs, ALONE, ID, c, STORED, c.(pc := Replacing(EDITED, [], "1")), STORED);
  }

  lemma PutIsServed()
    ensures Serve(STORED, ReplacePool(KEY, "1", Mapper.Payload(EDITED.spec, [])), NoFault)
         == (map[KEY := EDITED_OBJECT], Got(EDITED_OBJECT))
    ensures map[KEY := EDITED_OBJECT] != STORED
  {
    EditIsSeen();
    Mapper.PayloadDecodes(EDITED.spec, []);
    assert STORED[KEY := EDITED_OBJECT] == map[KEY := EDITED_OBJECT];
    assert map[KEY := EDITED_OBJECT][KEY] != STORED[KEY];
  }

  lemma PutSucceeds(rules: Rules, evs: seq<Event>, c: Cell) returns (pc: Pc)
    requires At(rules, evs, ALONE, ID, c, STORED)
    requires c.hist != [] && c.pc == Replacing(EDITED, [], "1")
    ensures At(rules, evs + [Proceed(ID, NoFault)], ALONE, ID, c.(pc := pc, dirty := true), map[KEY := EDITED_OBJECT])
  {
    PutIsServed();
    pc := WritingStatus(Reported(EDITED, UpdateSucceeded, EDITED_OBJECT), Finished, ReturnError, Some([]));
    CallMove(rules, evs, ALONE, ID, c, STORED, c.(pc := pc, dirty := true), map[KEY := EDITED_OBJECT]);
  }

  // ----- An object the operator cannot read -----

  /** Somebody wrote the port as text; the reference server stores such a spec. */
  const BROKEN := XcObject("a", "1", Uid(KEY), Some(JObj(map["port" := JStr("eighty")])), true)
  const BROKEN_STORE: Store := map[KEY := BROKEN]

  lemma TextPortDoesNotDecode()
    ensures !Decodes(BROKEN)
    ensures Apply(STORED, ReplacePool(KEY, "1", BROKEN.spec.value)).0 == BROKEN_STORE
  {
    assert STORED[KEY := BROKEN] == BROKEN_STORE;
  }

  /**
   After one outside edit, from the initial state and with nothing having failed, the
   operator is stuck: whatever reconciles follow, failing or not, none ends up to date
   and none changes XC.
   */
  lemma OutsideEditBlocks() returns (evs: seq<Event>)
    ensures var rules := TheRules(true, true);
            && StandingRules(rules) && Initial(rules, Begin(rules)) && IsRun(rules, Begin(rules), evs)
            && var w := After(rules, Begin(rules), evs);
               && ID in w.cells && w.store == BROKEN_STORE
               && w.cells[ID].hist == REPORTED
    ensures var w := After(TheRules(true, true), Begin(TheRules(true, true)), evs);
            && Blocked(w.cells[ID], w.store, NOTHING_FOUND, 3)
            && forall script: seq<Attempt> ::
                 var t := Reconciles(w.cells[ID], w.store, NOTHING_FOUND, 3, script);
                 t.unfinished == |script| && t.store == BROKEN_STORE
  {
    var rules := TheRules(true, true);
    BeginIsInitial(rules);
    evs := PoolIsReported(rules, ALONE);
    var c := Cell(REPORTED, 2, 2, Idle(Finished), CLAIM, false);
    assert STORED[KEY := BROKEN] == BROKEN_STORE;
    assert ALONE[ID := c][ID := c] == ALONE[ID := c];
    Moves(rules, evs, ALONE, ID, c, STORED, OutsideEdit(KEY, Some(BROKEN)), c, BROKEN_STORE);
    evs := evs + [OutsideEdit(KEY, Some(BROKEN))];
    BrokenIsBlocked(c);
    forall script: seq<Attempt>
      ensures var t := Reconciles(c, BROKEN_STORE, NOTHING_FOUND, 3, script);
              t.unfinished == |script| && t.store == BROKEN_STORE
    {
      BlockedForEver(c, BROKEN_STORE, NOTHING_FOUND, 3, script);
    }
  }

  lemma BrokenIsBlocked(c: Cell)
    requires c.hist == REPORTED
    ensures Blocked(c, BROKEN_STORE, NOTHING_FOUND, 3)
  {
    TextPortDoesNotDecode();
    assert SYNCED.status.synced.value.reason == CreateSucceeded;
    assert !IsUpToDate(c, BROKEN_STORE, NOTHING_FOUND);
  }
}
