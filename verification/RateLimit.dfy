/**
 internal/xcclient/ratelimit.go: one limiter per endpoint, created on first use by
 any number of concurrent callers. `Load` and `LoadOrStore` are atomic; anything may
 happen between them.
 */
module RateLimit {

  datatype Limit = Limit(rps: real, burst: int)

  datatype Config = Config(defaults: Limit, overrides: map<string, Limit>)

  /** A limiter: its identity (allocation order) and the parameters it was built with. */
  datatype Limiter = Limiter(id: nat, limit: Limit)

  function LimitFor(config: Config, endpoint: string): Limit {
    if endpoint in config.overrides then config.overrides[endpoint] else config.defaults
  }

  /** Where a call of `getLimiter(endpoint)` stands. */
  datatype Caller =
    | Loading(endpoint: string)
    | Allocating(endpoint: string)
    | Storing(endpoint: string, candidate: Limiter)
    | Done(endpoint: string, limiter: Limiter)

  /** `made` logs the endpoint each limiter was allocated for, in allocation order. */
  datatype State = State(limiters: map<string, Limiter>, made: seq<string>, callers: seq<Caller>)

  datatype Event = Start(endpoint: string) | Step(caller: nat)

  function Init(): State {
    State(map[], [], [])
  }

  function Advance(config: Config, s: State, c: Caller): (State, Caller) {
    match c
    case Loading(e) =>
      (s, if e in s.limiters then Done(e, s.limiters[e]) else Allocating(e))
    case Allocating(e) =>
      (s.(made := s.made + [e]), Storing(e, Limiter(|s.made|, LimitFor(config, e))))
    case Storing(e, l) =>
      if e in s.limiters then (s, Done(e, s.limiters[e])) else (s.(limiters := s.limiters[e := l]), Done(e, l))
    case Done(_, _) => (s, c)
  }

  function Next(config: Config, s: State, ev: Event): State {
    match ev
    case Start(e) => s.(callers := s.callers + [Loading(e)])
    case Step(i) =>
      if i < |s.callers| then
        var (s', c') := Advance(config, s, s.callers[i]);
        s'.(callers := s.callers[i := c'])
      else s
  }

  function Run(config: Config, s: State, evs: seq<Event>): State
    decreases evs
  {
    if evs == [] then s else Run(config, Next(config, s, evs[0]), evs[1..])
  }

  /** The limiter was made for this endpoint, with this endpoint's parameters. */
  predicate MadeFor(config: Config, made: seq<string>, endpoint: string, l: Limiter) {
    l.id < |made| && made[l.id] == endpoint && l.limit == LimitFor(config, endpoint)
  }

  predicate CallerOk(config: Config, s: State, c: Caller) {
    match c
    case Storing(e, l) => MadeFor(config, s.made, e, l)
    case Done(e, l) => e in s.limiters && s.limiters[e] == l
    case _ => true
  }

  predicate Invariant(config: Config, s: State) {
    && (forall e | e in s.limiters :: MadeFor(config, s.made, e, s.limiters[e]))
    && (forall i | 0 <= i < |s.callers| :: CallerOk(config, s, s.callers[i]))
  }

  /** Nothing published or made is ever forgotten. */
  predicate Grows(s: State, t: State) {
    && s.made <= t.made
    && forall e | e in s.limiters :: e in t.limiters && t.limiters[e] == s.limiters[e]
  }

  lemma AdvanceKeeps(config: Config, s: State, c: Caller)
    requires Invariant(config, s) && CallerOk(config, s, c)
    ensures var (s', c') := Advance(config, s, c); Invariant(config, s') && CallerOk(config, s', c') && Grows(s, s')
  {
    var (s', c') := Advance(config, s, c);
    assert Grows(s, s');
    forall i | 0 <= i < |s'.callers| ensures CallerOk(config, s', s'.callers[i]) {
      assert CallerOk(config, s, s.callers[i]);
    }
  }

  lemma StepKeepsInvariant(config: Config, s: State, ev: Event)
    requires Invariant(config, s)
    ensures Invariant(config, Next(config, s, ev)) && Grows(s, Next(config, s, ev))
  {
    if ev.Step? && ev.caller < |s.callers| {
      AdvanceKeeps(config, s, s.callers[ev.caller]);
    }
  }

  /** A published limiter is never replaced, through any interleaving. */
  lemma {:induction false} PublishedForever(config: Config, s: State, evs: seq<Event>)
    requires Invariant(config, s)
    ensures Invariant(config, Run(config, s, evs))
    ensures Grows(s, Run(config, s, evs))
    decreases evs
  {
    if evs != [] {
      StepKeepsInvariant(config, s, evs[0]);
      PublishedForever(config, Next(config, s, evs[0]), evs[1..]);
    }
  }

  /**
   Whatever the interleaving of any number of callers: two finished calls hold the
   same limiter iff they asked for the same endpoint, and it was built with the
   endpoint's override if there is one, else with the defaults.
   */
  lemma OneLimiterPerEndpoint(config: Config, evs: seq<Event>, i: nat, j: nat)
    requires var s := Run(config, Init(), evs);
             i < |s.callers| && j < |s.callers| && s.callers[i].Done? && s.callers[j].Done?
    ensures var s := Run(config, Init(), evs);
            && (s.callers[i].limiter.id == s.callers[j].limiter.id <==> s.callers[i].endpoint == s.callers[j].endpoint)
            && (s.callers[i].endpoint == s.callers[j].endpoint ==> s.callers[i].limiter == s.callers[j].limiter)
            && s.callers[i].limiter.limit ==
                 (if s.callers[i].endpoint in config.overrides then config.overrides[s.callers[i].endpoint] else config.defaults)
  {
    PublishedForever(config, Init(), evs);
  }

  /** The same code run by one caller, in the source's own form. */
  class EndpointRateLimiter {
    const config: Config
    var limiters: map<string, Limiter>
    var made: seq<string>

    constructor (config: Config)
      ensures this.config == config && limiters == map[] && made == []
    {
      this.config := config;
      limiters, made := map[], [];
    }

    method LoadOrStore(endpoint: string, l: Limiter) returns (actual: Limiter)
      modifies this`limiters
      ensures endpoint in limiters && actual == limiters[endpoint]
      ensures limiters == if endpoint in old(limiters) then old(limiters) else old(limiters)[endpoint := l]
    {
      if endpoint !in limiters {
        limiters := limiters[endpoint := l];
      }
      actual := limiters[endpoint];
    }

    /** Three or fewer machine steps of one caller, uninterrupted. */
    method GetLimiter(endpoint: string) returns (l: Limiter)
      modifies this
      ensures var s := State(old(limiters), old(made), [Loading(endpoint)]);
              Run(config, s, [Step(0), Step(0), Step(0)]) == State(limiters, made, [Done(endpoint, l)])
    {
      ghost var s := State(limiters, made, [Loading(endpoint)]);
      ghost var s1 := Next(config, s, Step(0));
      ghost var s2 := Next(config, s1, Step(0));
      ghost var s3 := Next(config, s2, Step(0));
      ThreeSteps(config, s);
      if endpoint in limiters {
        return limiters[endpoint];
      }
      var limit := config.defaults;
      if endpoint in config.overrides {
        limit := config.overrides[endpoint];
      }
      var candidate := Limiter(|made|, limit);
      made := made + [endpoint];
      l := LoadOrStore(endpoint, candidate);
    }
  }

  lemma ThreeSteps(config: Config, s: State)
    ensures Run(config, s, [Step(0), Step(0), Step(0)])
         == Next(config, Next(config, Next(config, s, Step(0)), Step(0)), Step(0))
  {
    var evs := [Step(0), Step(0), Step(0)];
    assert evs[1..] == [Step(0), Step(0)];
    assert evs[1..][1..] == [Step(0)];
    assert evs[1..][1..][1..] == [];
  }
}
