/**
 The retry loop and backoff of internal/xcclient/client.go, run against the
 reference server over a network that may lose or rewrite messages.
 */
module RetryClient {
  import opened Wrappers
  import opened XcApi
  import opened FakeServer

  /** What the network does to one attempt. */
  datatype Net =
    | Deliver
    | LoseRequest
    | LoseReply
    | Substitute(status: nat)

  /** `doOnce`: no error (with the decoded answer) or a typed error. */
  datatype Outcome = Success(content: Content) | Failure(error: XcError)

  datatype CallResult = Returned(outcome: Outcome) | Cancelled

  /** One call of `do`: what it returns, and the answers to its requests in order. */
  datatype Trace = Trace(result: CallResult, outcomes: seq<Outcome>)

  /** `accepts`: the answers that decode into the caller's result type. An empty body is never decoded. */
  function OutcomeOf(r: Response, accepts: Content -> bool): (o: Outcome)
    ensures 200 <= r.status < 300 && (r.content.Nothing? || accepts(r.content)) ==> o == Success(r.content)
    ensures 200 <= r.status < 300 && !(r.content.Nothing? || accepts(r.content)) ==> o == Failure(OtherError)
    ensures !(200 <= r.status < 300) ==> o.Failure? && IsErrorFor(r.status, o.error)
  {
    if !(200 <= r.status < 300) then Failure(StatusToError(r.status))
    else if r.content.Nothing? || accepts(r.content) then Success(r.content)
    else Failure(OtherError)
  }

  /** One round trip. */
  function Attempt(s: ServerState, r: Request, accepts: Content -> bool, net: Net): (ServerState, Outcome) {
    match net
    case Deliver => var (s', response) := Handled(s, r); (s', OutcomeOf(response, accepts))
    case LoseRequest => (s, Failure(OtherError))
    case LoseReply => (Handled(s, r).0, Failure(OtherError))
    case Substitute(status) => (s, OutcomeOf(Response(status, Nothing), accepts))
  }

  predicate IsRateLimited(o: Outcome) {
    o == Failure(RateLimitedError)
  }

  /**
   The loop from attempt |outcomes| on; `cancelled(k)`: the context ends while
   waiting before attempt k (for k = 0: in the rate limiter).
   */
  function Attempts(s: ServerState, r: Request, accepts: Content -> bool, net: nat -> Net, cancelled: nat -> bool, maxRetries: nat, outcomes: seq<Outcome>): (ServerState, Trace)
    requires |outcomes| <= maxRetries
    decreases maxRetries - |outcomes|
  {
    var k := |outcomes|;
    if cancelled(k) then (s, Trace(Cancelled, outcomes))
    else
      var (s1, o) := Attempt(s, r, accepts, net(k));
      if !IsRateLimited(o) || k == maxRetries then (s1, Trace(Returned(o), outcomes + [o]))
      else Attempts(s1, r, accepts, net, cancelled, maxRetries, outcomes + [o])
  }

  /** A negative limit makes the loop body unreachable: nothing is sent and no error is returned. */
  function Call(s: ServerState, r: Request, accepts: Content -> bool, net: nat -> Net, cancelled: nat -> bool, maxRetries: int): (ServerState, Trace) {
    if cancelled(0) then (s, Trace(Cancelled, []))
    else if maxRetries < 0 then (s, Trace(Returned(Success(Nothing)), []))
    else Attempts(s, r, accepts, net, cancelled, maxRetries, [])
  }

  /** How many answers were 429. */
  function Hits(outcomes: seq<Outcome>): nat {
    if outcomes == [] then 0
    else Hits(outcomes[..|outcomes| - 1]) + if IsRateLimited(outcomes[|outcomes| - 1]) then 1 else 0
  }

  const INT64_MODULUS := 0x1_0000_0000_0000_0000
  const SECOND := 1_000_000_000
  const DEFAULT_JITTER := 500_000_000

  /** Two's-complement value of an int64 computation. */
  function Wrap64(x: int): int {
    var m := x % INT64_MODULUS;
    if m > INT64_MAX then m - INT64_MODULUS else m
  }

  function Pow2(n: nat): nat {
    if n == 0 then 1 else 2 * Pow2(n - 1)
  }

  function Max(a: int, b: int): int {
    if a > b then a else b
  }

  function Sign(a: int): int {
    if a < 0 then -1 else if a == 0 then 0 else 1
  }

  class Client {
    const maxRetries: int
    var baseDelay: int
    var jitterMax: int
    var retriesTotal: nat
    var rateLimitHits: nat
    var tokensTaken: nat

    constructor (maxRetries: int)
      ensures this.maxRetries == maxRetries && baseDelay == 1_000_000_000 && jitterMax == 500_000_000
      ensures retriesTotal == rateLimitHits == tokensTaken == 0
    {
      this.maxRetries := maxRetries;
      baseDelay, jitterMax := SECOND, DEFAULT_JITTER;
      retriesTotal, rateLimitHits, tokensTaken := 0, 0, 0;
    }

    /** Durations are integers of nanoseconds; Go halves toward zero. */
    method SetBaseDelay(d: int)
      modifies this`baseDelay, this`jitterMax
      ensures baseDelay == d && (d == 2 * jitterMax || d == 2 * jitterMax + Sign(d))
    {
      baseDelay := d;
      jitterMax := if d >= 0 then d / 2 else -(-d / 2);
    }

    /** `draw` is the random number: somewhere below the cap. */
    method BackoffDelay(attempt: nat, draw: nat) returns (delay: int)
      requires attempt >= 1
      requires draw < Max(jitterMax, 1)
      ensures delay == Wrap64(baseDelay * Pow2(attempt - 1) + draw)
    {
      var exp := Wrap64(baseDelay);
      WrapIdentity(baseDelay);
      assert baseDelay * Pow2(0) == baseDelay;
      for i := 1 to attempt
        invariant exp == Wrap64(baseDelay * Pow2(i - 1))
      {
        WrapDouble(baseDelay * Pow2(i - 1));
        DoubleExponent(baseDelay, i);
        exp := Wrap64(exp * 2);
      }
      WrapAdd(baseDelay * Pow2(attempt - 1), draw);
      delay := Wrap64(exp + draw);
    }

    method DoOnce(server: FakeXCServer, r: Request, accepts: Content -> bool, net: Net) returns (o: Outcome)
      modifies server
      ensures (server.State(), o) == Attempt(old(server.State()), r, accepts, net)
    {
      match net {
        case Deliver =>
          var response := server.Handle(Readable(r));
          o := OutcomeOf(response, accepts);
        case LoseRequest => o := Failure(OtherError);
        case LoseReply =>
          var _ := server.Handle(Readable(r));
          o := Failure(OtherError);
        case Substitute(status) => o := OutcomeOf(Response(status, Nothing), accepts);
      }
    }

    /** One token per call, however many attempts follow. */
    method Do(server: FakeXCServer, r: Request, accepts: Content -> bool, net: nat -> Net, cancelled: nat -> bool) returns (result: CallResult, ghost trace: Trace)
      modifies this`retriesTotal, this`rateLimitHits, this`tokensTaken, server
      ensures (server.State(), trace) == Call(old(server.State()), r, accepts, net, cancelled, maxRetries)
      ensures result == trace.result
      ensures retriesTotal == old(retriesTotal) + Max(|trace.outcomes| - 1, 0)
      ensures rateLimitHits == old(rateLimitHits) + Hits(trace.outcomes)
      ensures tokensTaken == old(tokensTaken) + if cancelled(0) then 0 else 1
    {
      if cancelled(0) {
        return Cancelled, Trace(Cancelled, []);
      }
      tokensTaken := tokensTaken + 1;
      ghost var goal := Call(server.State(), r, accepts, net, cancelled, maxRetries);
      var last := Success(Nothing);
      var attempt := 0;
      ghost var outcomes := [];
      while attempt <= maxRetries
        invariant attempt == |outcomes| && (attempt == 0 || attempt <= maxRetries + 1)
        invariant tokensTaken == old(tokensTaken) + 1
        invariant retriesTotal == old(retriesTotal) + Max(attempt - 1, 0)
        invariant rateLimitHits == old(rateLimitHits) + Hits(outcomes)
        invariant if 0 <= maxRetries && attempt <= maxRetries
                  then Attempts(server.State(), r, accepts, net, cancelled, maxRetries, outcomes) == goal
                  else (server.State(), Trace(Returned(last), outcomes)) == goal
      {
        if attempt > 0 {
          if cancelled(attempt) {
            return Cancelled, Trace(Cancelled, outcomes);
          }
          retriesTotal := retriesTotal + 1;
        }
        ghost var state := server.State();
        last := DoOnce(server, r, accepts, net(attempt));
        AttemptsStep(state, r, accepts, net, cancelled, maxRetries, outcomes, server.State(), last);
        HitsStep(outcomes, last);
        outcomes := outcomes + [last];
        if !IsRateLimited(last) {
          return Returned(last), Trace(Returned(last), outcomes);
        }
        rateLimitHits := rateLimitHits + 1;
        attempt := attempt + 1;
      }
      return Returned(last), Trace(Returned(last), outcomes);
    }
  }

  /** The loop of the specification takes the same turn as the loop of the method. */
  lemma AttemptsStep(s: ServerState, r: Request, accepts: Content -> bool, net: nat -> Net, cancelled: nat -> bool, maxRetries: nat, outcomes: seq<Outcome>, s1: ServerState, o: Outcome)
    requires |outcomes| <= maxRetries && !cancelled(|outcomes|)
    requires (s1, o) == Attempt(s, r, accepts, net(|outcomes|))
    ensures Attempts(s, r, accepts, net, cancelled, maxRetries, outcomes)
         == if !IsRateLimited(o) || |outcomes| == maxRetries then (s1, Trace(Returned(o), outcomes + [o]))
            else Attempts(s1, r, accepts, net, cancelled, maxRetries, outcomes + [o])
  {
  }

  lemma HitsStep(outcomes: seq<Outcome>, o: Outcome)
    ensures Hits(outcomes + [o]) == Hits(outcomes) + if IsRateLimited(o) then 1 else 0
  {
    assert (outcomes + [o])[..|outcomes|] == outcomes;
  }

  // ----- Wrap-around arithmetic -----

  lemma WrapIdentity(x: int)
    ensures Wrap64(Wrap64(x)) == Wrap64(x)
    ensures -INT64_MAX - 1 <= x <= INT64_MAX ==> Wrap64(x) == x
  {
  }

  lemma WrapCongruent(x: int) returns (q: int)
    ensures Wrap64(x) == x + q * INT64_MODULUS
  {
    q := -(x / INT64_MODULUS) - if x % INT64_MODULUS > INT64_MAX then 1 else 0;
  }

  lemma WrapShift(x: int, q: int)
    ensures Wrap64(x + q * INT64_MODULUS) == Wrap64(x)
  {
    ModShift(x, q);
  }

  lemma {:induction false} ModShift(x: int, q: int)
    ensures (x + q * INT64_MODULUS) % INT64_MODULUS == x % INT64_MODULUS
    decreases if q < 0 then -q else q
  {
    if q > 0 {
      ModShift(x, q - 1);
      assert x + q * INT64_MODULUS == (x + (q - 1) * INT64_MODULUS) + INT64_MODULUS;
    } else if q < 0 {
      ModShift(x, q + 1);
      assert x + q * INT64_MODULUS == (x + (q + 1) * INT64_MODULUS) - INT64_MODULUS;
    }
  }

  lemma WrapDouble(x: int)
    ensures Wrap64(Wrap64(x) * 2) == Wrap64(x * 2)
  {
    var q := WrapCongruent(x);
    WrapShift(x * 2, 2 * q);
    assert Wrap64(x) * 2 == x * 2 + (2 * q) * INT64_MODULUS;
  }

  lemma WrapAdd(x: int, y: int)
    ensures Wrap64(Wrap64(x) + y) == Wrap64(x + y)
  {
    var q := WrapCongruent(x);
    WrapShift(x + y, q);
    assert Wrap64(x) + y == (x + y) + q * INT64_MODULUS;
  }

  lemma DoubleExponent(base: int, i: nat)
    requires i >= 1
    ensures base * Pow2(i - 1) * 2 == base * Pow2(i)
  {
    assert Pow2(i) == 2 * Pow2(i - 1);
  }

  // ----- Retry accounting -----

  predicate AllRateLimited(outcomes: seq<Outcome>) {
    forall i | 0 <= i < |outcomes| :: IsRateLimited(outcomes[i])
  }

  lemma {:induction false} HitsOfAllRateLimited(outcomes: seq<Outcome>)
    requires AllRateLimited(outcomes)
    ensures Hits(outcomes) == |outcomes|
  {
    if outcomes != [] {
      HitsOfAllRateLimited(outcomes[..|outcomes| - 1]);
    }
  }

  /** Every answer but the last was a 429, and the loop stopped for the reason its result states. */
  predicate WellAccounted(t: Trace, maxRetries: nat) {
    && |t.outcomes| <= maxRetries + 1
    && match t.result
       case Cancelled => AllRateLimited(t.outcomes) && |t.outcomes| <= maxRetries && Hits(t.outcomes) == |t.outcomes|
       case Returned(o) =>
         && t.outcomes != []
         && AllRateLimited(t.outcomes[..|t.outcomes| - 1])
         && t.outcomes[|t.outcomes| - 1] == o
         && (IsRateLimited(o) ==> |t.outcomes| == maxRetries + 1)
         && Hits(t.outcomes) == |t.outcomes| - if IsRateLimited(o) then 0 else 1
  }

  lemma {:induction false} AttemptsWellAccounted(s: ServerState, r: Request, accepts: Content -> bool, net: nat -> Net, cancelled: nat -> bool, maxRetries: nat, outcomes: seq<Outcome>)
    requires |outcomes| <= maxRetries && AllRateLimited(outcomes)
    ensures WellAccounted(Attempts(s, r, accepts, net, cancelled, maxRetries, outcomes).1, maxRetries)
    ensures outcomes <= Attempts(s, r, accepts, net, cancelled, maxRetries, outcomes).1.outcomes
    decreases maxRetries - |outcomes|
  {
    HitsOfAllRateLimited(outcomes);
    var k := |outcomes|;
    if !cancelled(k) {
      var (s1, o) := Attempt(s, r, accepts, net(k));
      var longer := outcomes + [o];
      assert longer[..|longer| - 1] == outcomes;
      if IsRateLimited(o) && k < maxRetries {
        AttemptsWellAccounted(s1, r, accepts, net, cancelled, maxRetries, longer);
      }
    }
  }

  /**
   For any server, network and cancellation: at most maxRetries + 1 requests, only
   a 429 is followed by another request, exhaustion means all maxRetries + 1 were
   429, and with a negative limit nothing is sent although no error is reported.
   */
  lemma RetryAccounting(s: ServerState, r: Request, accepts: Content -> bool, net: nat -> Net, cancelled: nat -> bool, maxRetries: int)
    ensures maxRetries >= 0 ==> WellAccounted(Call(s, r, accepts, net, cancelled, maxRetries).1, maxRetries)
    ensures maxRetries < 0 && !cancelled(0) ==>
              Call(s, r, accepts, net, cancelled, maxRetries) == (s, Trace(Returned(Success(Nothing)), []))
  {
    if maxRetries >= 0 && !cancelled(0) {
      AttemptsWellAccounted(s, r, accepts, net, cancelled, maxRetries, []);
    }
  }

  // ----- Effect of a call -----

  lemma DispatchNeverRateLimits(objects: map<ObjectKey, StoredObject>, r: Request, accepts: Content -> bool)
    ensures !IsRateLimited(OutcomeOf(Dispatch(objects, r).1, accepts))
  {
  }

  /** Whatever the server was told to inject and the network does, the operation takes effect at most once. */
  lemma {:induction false} AtMostOnce(s: ServerState, r: Request, accepts: Content -> bool, net: nat -> Net, cancelled: nat -> bool, maxRetries: nat, outcomes: seq<Outcome>)
    requires |outcomes| <= maxRetries
    ensures Attempts(s, r, accepts, net, cancelled, maxRetries, outcomes).0.objects in {s.objects, Dispatch(s.objects, r).0}
    decreases maxRetries - |outcomes|
  {
    var k := |outcomes|;
    if !cancelled(k) {
      var (s1, o) := Attempt(s, r, accepts, net(k));
      if IsRateLimited(o) && k < maxRetries {
        assert s1.objects == s.objects by { DispatchNeverRateLimits(s.objects, r, accepts); }
        AtMostOnce(s1, r, accepts, net, cancelled, maxRetries, outcomes + [o]);
      }
    }
  }

  /** The status that reaches the client, if any does: a rewritten one, an injected one, or the handler's. */
  function StatusSeen(s: ServerState, r: Request, net: Net): Option<nat> {
    match net
    case Substitute(status) => Some(status)
    case Deliver => Some(if KeyOf(r) in s.errors then s.errors[KeyOf(r)].status else Dispatch(s.objects, r).1.status)
    case _ => None
  }

  /** One attempt ends as the status that reached the client says, and without one in an unclassified error. */
  lemma AttemptByStatus(s: ServerState, r: Request, accepts: Content -> bool, net: Net)
    ensures var o := Attempt(s, r, accepts, net).1;
            match StatusSeen(s, r, net)
            case None => o == Failure(OtherError)
            case Some(status) =>
              if 200 <= status < 300 then o.Success? || o == Failure(OtherError) else o.Failure? && IsErrorFor(status, o.error)
  {
  }

  /** An error with this status is injected often enough to meet every attempt. */
  predicate Injected(s: ServerState, key: ErrorKey, status: nat, attempts: nat) {
    key in s.errors && s.errors[key].status == status && (s.errors[key].remaining <= 0 || s.errors[key].remaining >= attempts)
  }

  lemma {:induction false} InjectedAttempts(s: ServerState, r: Request, accepts: Content -> bool, net: nat -> Net, cancelled: nat -> bool, maxRetries: nat, outcomes: seq<Outcome>, status: nat)
    requires |outcomes| <= maxRetries
    requires Injected(s, KeyOf(r), status, maxRetries + 1 - |outcomes|) && !(200 <= status < 300)
    requires forall i :: net(i) == Deliver && !cancelled(i)
    ensures var (s', t) := Attempts(s, r, accepts, net, cancelled, maxRetries, outcomes);
            && s'.objects == s.objects
            && (match t.result case Returned(Failure(e)) => IsErrorFor(status, e) case _ => false)
            && |t.outcomes| == if status == 429 then maxRetries + 1 else |outcomes| + 1
    decreases maxRetries - |outcomes|
  {
    var k := |outcomes|;
    assert net(k) == Deliver && !cancelled(k);
    var (s1, o) := Attempt(s, r, accepts, net(k));
    if status == 429 && k < maxRetries {
      InjectedAttempts(s1, r, accepts, net, cancelled, maxRetries, outcomes + [o], status);
    }
  }

  /** m injected 429s are pending on the request's operation. */
  predicate Throttled(s: ServerState, r: Request, m: nat) {
    m > 0 && KeyOf(r) in s.errors && s.errors[KeyOf(r)] == ErrorEntry(429, m)
  }

  lemma {:induction false} ThrottledAttempts(s: ServerState, r: Request, accepts: Content -> bool, net: nat -> Net, cancelled: nat -> bool, maxRetries: nat, outcomes: seq<Outcome>, m: nat)
    requires Throttled(s, r, m)
    requires forall i :: net(i) == Deliver && !cancelled(i)
    requires |outcomes| <= maxRetries
    ensures var (s', t) := Attempts(s, r, accepts, net, cancelled, maxRetries, outcomes);
            var left := maxRetries - |outcomes|;
            if m <= left
            then && s'.objects == Dispatch(s.objects, r).0
                 && t.result == Returned(OutcomeOf(Dispatch(s.objects, r).1, accepts))
                 && |t.outcomes| == |outcomes| + m + 1
                 && |s'.requests| == |s.requests| + m + 1
                 && KeyOf(r) !in s'.errors
            else && s'.objects == s.objects
                 && t.result == Returned(Failure(RateLimitedError))
                 && |t.outcomes| == maxRetries + 1
                 && |s'.requests| == |s.requests| + left + 1
                 && (m == left + 1 || Throttled(s', r, m - left - 1))
    decreases maxRetries - |outcomes|
  {
    var k := |outcomes|;
    assert net(k) == Deliver && !cancelled(k);
    var (s1, o) := Attempt(s, r, accepts, net(k));
    assert IsRateLimited(o) && s1.objects == s.objects && |s1.requests| == |s.requests| + 1;
    if k < maxRetries {
      if m > 1 {
        ThrottledAttempts(s1, r, accepts, net, cancelled, maxRetries, outcomes + [o], m - 1);
      } else {
        assert KeyOf(r) !in s1.errors;
        assert net(k + 1) == Deliver && !cancelled(k + 1);
        DispatchNeverRateLimits(s1.objects, r, accepts);
      }
    }
  }

  /**
   Against m > 0 injected 429s: the call gets past them iff m <= maxRetries, sends
   min(m, maxRetries) + 1 requests, and then the operation has taken effect exactly
   once; on exhaustion it reports "rate limited" and the store is untouched.
   */
  lemma ExactlyOnce(s: ServerState, r: Request, accepts: Content -> bool, net: nat -> Net, cancelled: nat -> bool, maxRetries: nat, m: nat)
    requires Throttled(s, r, m)
    requires forall i :: net(i) == Deliver && !cancelled(i)
    ensures var (s', t) := Call(s, r, accepts, net, cancelled, maxRetries);
            && (t.result == Returned(Failure(RateLimitedError)) <==> m > maxRetries)
            && |s'.requests| == |s.requests| + (if m <= maxRetries then m else maxRetries) + 1
            && (m <= maxRetries ==> t.result == Returned(OutcomeOf(Dispatch(s.objects, r).1, accepts)))
            && s'.objects == (if m <= maxRetries then Dispatch(s.objects, r).0 else s.objects)
  {
    ThrottledAttempts(s, r, accepts, net, cancelled, maxRetries, [], m);
    DispatchNeverRateLimits(s.objects, r, accepts);
  }

  // ----- Backoff -----

  /** The mathematical delay before retry n, given its random draw. */
  function Delay(base: nat, n: nat, draw: nat): nat
    requires n >= 1
  {
    base * Pow2(n - 1) + draw
  }

  lemma {:induction false} Pow2Monotone(a: nat, b: nat)
    requires a <= b
    ensures 1 <= Pow2(a) <= Pow2(b)
    decreases b
  {
    if a < b {
      Pow2Monotone(a, b - 1);
    } else if a > 0 {
      Pow2Monotone(a - 1, b - 1);
    }
  }

  /** With base >= 1 ns and jitter at most half the base, each delay exceeds the one before, whatever is drawn. */
  lemma DelaysIncrease(base: nat, jitterMax: nat, n: nat, draw: nat, next: nat)
    requires base >= 1 && jitterMax <= base / 2 && n >= 1
    requires draw < Max(jitterMax, 1) && next < Max(jitterMax, 1)
    ensures Delay(base, n, draw) < Delay(base, n + 1, next)
  {
    Pow2Monotone(0, n - 1);
    DoubleExponent(base, n);
    assert base * Pow2(n - 1) >= base by { MulMonotone(base, 1, Pow2(n - 1)); }
  }

  lemma MulMonotone(base: nat, a: nat, b: nat)
    requires a <= b
    ensures base * a <= base * b
  {
  }

  function TotalDelay(base: nat, draws: seq<nat>): nat {
    if draws == [] then 0
    else TotalDelay(base, draws[..|draws| - 1]) + Delay(base, |draws|, draws[|draws| - 1])
  }

  /** n retries sleep between base*(2^n - 1) and base*(2^n - 1) + n*(cap - 1), cap the jitter cap. */
  lemma {:induction false} TotalDelayBounds(base: nat, cap: nat, draws: seq<nat>)
    requires cap >= 1
    requires forall i | 0 <= i < |draws| :: draws[i] < cap
    ensures base * (Pow2(|draws|) - 1) <= TotalDelay(base, draws) <= base * (Pow2(|draws|) - 1) + |draws| * (cap - 1)
  {
    if draws != [] {
      var init := draws[..|draws| - 1];
      TotalDelayBounds(base, cap, init);
      DelaysAddUp(base, Pow2(|init|), cap, |init|);
      assert TotalDelay(base, draws) == TotalDelay(base, init) + base * Pow2(|init|) + draws[|draws| - 1];
    }
  }

  lemma DelaysAddUp(base: nat, p: int, cap: int, n: nat)
    ensures base * (p - 1) + base * p == base * (2 * p - 1)
    ensures n * (cap - 1) + (cap - 1) == (n + 1) * (cap - 1)
  {
  }

  /** The default delays (1 s base, 500 ms jitter) fit an int64 up to the 34th retry, and no later one does. */
  lemma DefaultDelayFits(n: nat, draw: nat)
    requires n >= 1 && draw < DEFAULT_JITTER
    ensures Wrap64(SECOND * Pow2(n - 1) + draw) == Delay(SECOND, n, draw) <==> n <= 34
  {
    PowerOf33();
    if n <= 34 {
      Pow2Monotone(n - 1, 33);
      MulMonotone(SECOND, Pow2(n - 1), Pow2(33));
    } else {
      Pow2Monotone(34, n - 1);
      MulMonotone(SECOND, Pow2(34), Pow2(n - 1));
    }
  }

  lemma PowerOf33()
    ensures Pow2(33) == 8589934592 && Pow2(34) == 17179869184
  {
    assert Pow2(4) == 16;
    assert Pow2(8) == 256;
    assert Pow2(12) == 4096;
    assert Pow2(16) == 65536;
    assert Pow2(20) == 1048576;
    assert Pow2(24) == 16777216;
    assert Pow2(28) == 268435456;
    assert Pow2(32) == 4294967296;
  }
}
