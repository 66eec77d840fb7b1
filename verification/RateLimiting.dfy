/** The per-session token bucket. Times are seconds and tokens are reals: the
    rounding of the source's floating point is not modelled.
 */
module RateLimiting {

  type SessionId = nat

  const DEFAULT_BURST_CAPACITY := 10
  const DEFAULT_SUSTAINED_RATE := 2.0
  const MIN_BURST_CAPACITY := 1
  const MIN_SUSTAINED_RATE := 0.1

  datatype Limits = Limits(burst: int, rate: real) {
    predicate Valid() {
      burst >= MIN_BURST_CAPACITY && rate >= MIN_SUSTAINED_RATE
    }
  }

  datatype Bucket = Bucket(tokens: real, lastCheck: real)

  type Sessions = map<SessionId, Bucket>

  datatype Answer = Answer(allowed: bool, cooldownMs: int)

  // The clamping in newRateLimiter.
  function Clamped(burst: int, rate: real): (l: Limits)
    ensures l.Valid()
    ensures l.burst == if burst > 0 then burst else 10
    ensures rate <= 0.0 ==> l.rate == 2.0
    ensures 0.0 < rate ==> l.rate == if rate < 0.1 then 0.1 else rate
  {
    var b := if burst <= 0 then DEFAULT_BURST_CAPACITY else burst;
    var r := if rate <= 0.0 then DEFAULT_SUSTAINED_RATE else rate;
    Limits(if b < MIN_BURST_CAPACITY then MIN_BURST_CAPACITY else b,
           if r < MIN_SUSTAINED_RATE then MIN_SUSTAINED_RATE else r)
  }

  function Refilled(l: Limits, b: Bucket, now: real): real {
    var tokens := b.tokens + (now - b.lastCheck) * l.rate;
    if tokens > l.burst as real then l.burst as real else tokens
  }

  // What a session could draw on at a time: an unknown session has a full bucket.
  function Level(l: Limits, ss: Sessions, id: SessionId, now: real): real {
    if id in ss then Refilled(l, ss[id], now) else l.burst as real
  }

  function CooldownMs(l: Limits, level: real): int
    requires l.Valid()
  {
    ((1.0 - level) / l.rate * 1000.0).Floor
  }

  function Reply(l: Limits, level: real): Answer
    requires l.Valid()
  {
    if level >= 1.0 then Answer(true, 0) else Answer(false, CooldownMs(l, level))
  }

  function AfterCall(l: Limits, ss: Sessions, id: SessionId, now: real): Sessions {
    var level := Level(l, ss, id, now);
    ss[id := Bucket(if level >= 1.0 then level - 1.0 else level, now)]
  }

  function AfterCleanup(ss: Sessions, maxAge: real, now: real): Sessions {
    map id | id in ss && !(ss[id].lastCheck < now - maxAge) :: ss[id]
  }

  /** One call on the fields: an unknown session starts with a full bucket and is allowed;
      a known one is refilled for the time since its last call, up to the burst, and
      allowed with a token or more, which it then spends; a denial tells the wait for
      the missing part of a token.
   */
  lemma CallMeans(l: Limits, ss: Sessions, id: SessionId, now: real)
    requires l.Valid()
    ensures var after, r := AfterCall(l, ss, id, now), Reply(l, Level(l, ss, id, now));
            if id !in ss then
              r == Answer(true, 0) && after == ss[id := Bucket(l.burst as real - 1.0, now)]
            else
              var refilled := ss[id].tokens + (now - ss[id].lastCheck) * l.rate;
              var level := if refilled > l.burst as real then l.burst as real else refilled;
              if level >= 1.0 then r == Answer(true, 0) && after == ss[id := Bucket(level - 1.0, now)]
              else
                && r == Answer(false, ((1.0 - level) / l.rate * 1000.0).Floor)
                && after == ss[id := Bucket(level, now)]
  {
    assert l.burst as real >= 1.0;
    if id in ss {
      var refilled := ss[id].tokens + (now - ss[id].lastCheck) * l.rate;
      var level := if refilled > l.burst as real then l.burst as real else refilled;
      assert Level(l, ss, id, now) == level;
      assert Reply(l, level) == if level >= 1.0 then Answer(true, 0) else Answer(false, CooldownMs(l, level));
    }
  }

  class RateLimiter {
    var sessions: Sessions
    const limits: Limits

    constructor (burst: int, rate: real)
      ensures sessions == map[] && limits == Clamped(burst, rate)
    {
      sessions := map[];
      limits := Clamped(burst, rate);
    }

    method Allow(id: SessionId, now: real) returns (allowed: bool, cooldownMs: int)
      requires limits.Valid()
      modifies this
      ensures Answer(allowed, cooldownMs) == Reply(limits, Level(limits, old(sessions), id, now))
      ensures sessions == AfterCall(limits, old(sessions), id, now)
    {
      if id !in sessions {
        sessions := sessions[id := Bucket(limits.burst as real, now)];
      }
      var bucket := sessions[id];
      var tokens := bucket.tokens + (now - bucket.lastCheck) * limits.rate;
      assert bucket.lastCheck == now ==> (now - bucket.lastCheck) * limits.rate == 0.0;
      if tokens > limits.burst as real { tokens := limits.burst as real; }
      if tokens >= 1.0 {
        sessions := sessions[id := Bucket(tokens - 1.0, now)];
        return true, 0;
      }
      sessions := sessions[id := Bucket(tokens, now)];
      var deficit := 1.0 - tokens;
      var cooldownSeconds := deficit / limits.rate;
      return false, (cooldownSeconds * 1000.0).Floor;
    }

    method Cleanup(maxAge: real, now: real)
      modifies this
      ensures sessions == AfterCleanup(old(sessions), maxAge, now)
      ensures forall id :: id in sessions <==> id in old(sessions) && old(sessions)[id].lastCheck >= now - maxAge
      ensures forall id :: id in sessions ==> sessions[id] == old(sessions)[id]
    {
      var threshold := now - maxAge;
      var left := sessions.Keys;
      while left != {}
        invariant left <= old(sessions).Keys
        invariant sessions.Keys <= old(sessions).Keys
        invariant forall id :: id in sessions ==> sessions[id] == old(sessions)[id]
        invariant forall id :: id in old(sessions) ==>
          (id in sessions <==> id in left || !(old(sessions)[id].lastCheck < threshold))
        decreases left
      {
        var id :| id in left;
        if sessions[id].lastCheck < threshold { sessions := sessions - {id}; }
        left := left - {id};
      }
    }
  }

  // ---------------------------------------------------------------------- runs

  datatype Event = Call(id: SessionId, now: real) | Sweep(maxAge: real, now: real)

  function After(l: Limits, ss: Sessions, e: Event): Sessions {
    match e
    case Call(id, now) => AfterCall(l, ss, id, now)
    case Sweep(maxAge, now) => AfterCleanup(ss, maxAge, now)
  }

  function Run(l: Limits, ss: Sessions, es: seq<Event>): Sessions
    decreases |es|
  {
    if |es| == 0 then ss else Run(l, After(l, ss, es[0]), es[1..])
  }

  function Answers(l: Limits, ss: Sessions, es: seq<Event>): seq<Answer>
    requires l.Valid()
    decreases |es|
  {
    if |es| == 0 then []
    else
      (match es[0]
       case Call(id, now) => [Reply(l, Level(l, ss, id, now))]
       case Sweep(_, _) => [])
      + Answers(l, After(l, ss, es[0]), es[1..])
  }

  function CallsOnly(es: seq<Event>): seq<Event> {
    if |es| == 0 then [] else (if es[0].Call? then [es[0]] else []) + CallsOnly(es[1..])
  }

  predicate TimedFrom(es: seq<Event>, t: real)
    decreases |es|
  {
    |es| == 0 || (t <= es[0].now && TimedFrom(es[1..], es[0].now))
  }

  // A session idle for maxAge would have refilled completely.
  predicate LongEnough(l: Limits, maxAge: real) {
    maxAge * l.rate >= l.burst as real
  }

  predicate SweepsLongEnough(l: Limits, es: seq<Event>) {
    forall i :: 0 <= i < |es| && es[i].Sweep? ==> LongEnough(l, es[i].maxAge)
  }

  ghost predicate NonNegative(ss: Sessions) {
    forall id :: id in ss ==> ss[id].tokens >= 0.0
  }

  // Indistinguishable by any call from time t on.
  ghost predicate SameLevels(l: Limits, a: Sessions, b: Sessions, t: real) {
    forall id, now :: now >= t ==> Level(l, a, id, now) == Level(l, b, id, now)
  }

  lemma LevelNonNegative(l: Limits, ss: Sessions, id: SessionId, now: real)
    requires l.Valid() && NonNegative(ss) && (id in ss ==> ss[id].lastCheck <= now)
    ensures 0.0 <= Level(l, ss, id, now) <= l.burst as real
  {
    if id in ss { RefilledBounds(l, ss[id], now); }
  }

  lemma RefilledBounds(l: Limits, b: Bucket, now: real)
    requires l.Valid() && b.tokens >= 0.0 && b.lastCheck <= now
    ensures 0.0 <= Refilled(l, b, now) <= l.burst as real
  {
    var cap, refill := l.burst as real, (now - b.lastCheck) * l.rate;
    assert cap >= 1.0;
    RefillNonNegative(now, b.lastCheck, l.rate);
    assert Refilled(l, b, now) == if b.tokens + refill > cap then cap else b.tokens + refill;
  }

  lemma RefillNonNegative(now: real, last: real, rate: real)
    requires last <= now && rate >= 0.0
    ensures (now - last) * rate >= 0.0
  {
    ProductNonNegative(now - last, rate);
  }

  lemma RefilledAtCheck(l: Limits, b: Bucket)
    requires b.tokens <= l.burst as real
    ensures Refilled(l, b, b.lastCheck) == b.tokens
  {
    ProductZero(b.lastCheck - b.lastCheck, l.rate);
  }

  lemma ProductZero(a: real, b: real)
    requires a == 0.0
    ensures a * b == 0.0
  {
  }

  lemma ProductNonNegative(a: real, b: real)
    requires a >= 0.0 && b >= 0.0
    ensures a * b >= 0.0
  {
  }

  lemma ProductMonotone(a: real, b: real, r: real)
    requires a <= b && r >= 0.0
    ensures a * r <= b * r
  {
    ProductNonNegative(b - a, r);
    assert (b - a) * r == b * r - a * r;
  }

  lemma Distribute(a: real, b: real, r: real)
    ensures (a + b) * r == a * r + b * r
  {
  }

  // Nothing was checked in the future.
  ghost predicate Past(ss: Sessions, t: real) {
    forall id :: id in ss ==> ss[id].lastCheck <= t
  }

  // Evicting a long-idle session replaces a full bucket by a full bucket.
  lemma CleanupKeepsLevel(l: Limits, ss: Sessions, maxAge: real, now: real, id: SessionId, later: real)
    requires l.Valid() && NonNegative(ss) && LongEnough(l, maxAge) && later >= now
    ensures Level(l, AfterCleanup(ss, maxAge, now), id, later) == Level(l, ss, id, later)
  {
    if id in ss && ss[id].lastCheck < now - maxAge {
      ProductMonotone(maxAge, later - ss[id].lastCheck, l.rate);
      assert id !in AfterCleanup(ss, maxAge, now);
      assert ss[id].tokens + (later - ss[id].lastCheck) * l.rate >= l.burst as real;
    }
  }

  lemma CallKeepsGood(l: Limits, ss: Sessions, id: SessionId, now: real)
    requires l.Valid() && NonNegative(ss) && Past(ss, now)
    ensures NonNegative(AfterCall(l, ss, id, now)) && Past(AfterCall(l, ss, id, now), now)
  {
    LevelNonNegative(l, ss, id, now);
  }

  lemma {:induction false} EvictionUnseen(l: Limits, a: Sessions, b: Sessions, es: seq<Event>, t: real)
    requires l.Valid() && NonNegative(a) && Past(a, t) && SameLevels(l, a, b, t)
    requires TimedFrom(es, t) && SweepsLongEnough(l, es)
    ensures Answers(l, a, es) == Answers(l, b, CallsOnly(es))
    decreases |es|
  {
    if |es| > 0 {
      var e := es[0];
      var a' := After(l, a, e);
      match e
      case Call(id, now) =>
        CallKeepsGood(l, a, id, now);
        var b' := After(l, b, e);
        assert Level(l, a, id, now) == Level(l, b, id, now);
        forall other, later | later >= now ensures Level(l, a', other, later) == Level(l, b', other, later) {
          assert Level(l, a, other, later) == Level(l, b, other, later);
        }
        EvictionUnseen(l, a', b', es[1..], now);
        assert CallsOnly(es)[1..] == CallsOnly(es[1..]);
      case Sweep(maxAge, now) =>
        forall id, later | later >= now ensures Level(l, a', id, later) == Level(l, b, id, later) {
          CleanupKeepsLevel(l, a, maxAge, now, id, later);
        }
        EvictionUnseen(l, a', b, es[1..], now);
        assert CallsOnly(es) == CallsOnly(es[1..]);
    }
  }

  ghost predicate AllSweeps(es: seq<Event>, maxAge: real) {
    forall i :: 0 <= i < |es| && es[i].Sweep? ==> es[i].maxAge == maxAge
  }

  // No caller can tell a limiter that cleans up with maxAge from one that never does.
  ghost predicate Unobservable(l: Limits, maxAge: real)
    requires l.Valid()
  {
    forall es, t :: TimedFrom(es, t) && AllSweeps(es, maxAge) ==>
      Answers(l, map[], es) == Answers(l, map[], CallsOnly(es))
  }

  function Burst(id: SessionId, now: real, n: nat): seq<Event> {
    seq(n, _ => Call(id, now))
  }

  lemma {:induction false} AnswersAppend(l: Limits, ss: Sessions, a: seq<Event>, b: seq<Event>)
    requires l.Valid()
    ensures Answers(l, ss, a + b) == Answers(l, ss, a) + Answers(l, Run(l, ss, a), b)
    decreases |a|
  {
    if |a| == 0 {
      assert a + b == b;
    } else {
      assert (a + b)[1..] == a[1..] + b;
      AnswersAppend(l, After(l, ss, a[0]), a[1..], b);
    }
  }

  lemma LevelAfterCall(l: Limits, ss: Sessions, id: SessionId, now: real)
    requires l.Valid() && Level(l, ss, id, now) <= l.burst as real
    ensures var level := Level(l, ss, id, now);
            Level(l, AfterCall(l, ss, id, now), id, now) == if level >= 1.0 then level - 1.0 else level
  {
    RefilledAtCheck(l, AfterCall(l, ss, id, now)[id]);
  }

  // Of n calls at one instant the last is allowed exactly when the level covers all n.
  lemma {:induction false} BurstLastAnswer(l: Limits, ss: Sessions, id: SessionId, now: real, n: nat)
    requires l.Valid() && n > 0
    ensures var answers := Answers(l, ss, Burst(id, now, n));
            |answers| == n && (answers[n - 1].allowed <==> Level(l, ss, id, now) >= n as real)
    decreases n
  {
    var es := Burst(id, now, n);
    assert es[1..] == Burst(id, now, n - 1);
    LevelAfterCall(l, ss, id, now);
    if n > 1 { BurstLastAnswer(l, After(l, ss, es[0]), id, now, n - 1); }
  }

  lemma {:induction false} BurstDrains(l: Limits, ss: Sessions, id: SessionId, now: real, n: nat)
    requires l.Valid() && n > 0 && Level(l, ss, id, now) >= n as real
    ensures var after := Run(l, ss, Burst(id, now, n));
            id in after && after[id] == Bucket(Level(l, ss, id, now) - n as real, now)
    decreases n
  {
    var es := Burst(id, now, n);
    assert es[1..] == Burst(id, now, n - 1);
    LevelAfterCall(l, ss, id, now);
    if n > 1 { BurstDrains(l, After(l, ss, es[0]), id, now, n - 1); }
  }

  lemma {:induction false} BurstTimed(id: SessionId, now: real, n: nat, t: real, rest: seq<Event>)
    requires t <= now && TimedFrom(rest, now)
    ensures TimedFrom(Burst(id, now, n) + rest, t)
    decreases n
  {
    var es := Burst(id, now, n) + rest;
    if n > 0 {
      assert es[1..] == Burst(id, now, n - 1) + rest;
      BurstTimed(id, now, n - 1, now, rest);
    } else {
      assert es == rest;
    }
  }

  lemma {:induction false} CallsOnlyAppend(a: seq<Event>, b: seq<Event>)
    ensures CallsOnly(a + b) == CallsOnly(a) + CallsOnly(b)
  {
    if |a| == 0 {
      assert a + b == b;
    } else {
      assert (a + b)[1..] == a[1..] + b;
      CallsOnlyAppend(a[1..], b);
      var head := if a[0].Call? then [a[0]] else [];
      assert (a + b)[0] == a[0];
      assert head + (CallsOnly(a[1..]) + CallsOnly(b)) == (head + CallsOnly(a[1..])) + CallsOnly(b);
    }
  }

  lemma {:induction false} CallsOnlyBurst(id: SessionId, now: real, n: nat)
    ensures CallsOnly(Burst(id, now, n)) == Burst(id, now, n)
    decreases n
  {
    if n > 0 {
      assert Burst(id, now, n)[1..] == Burst(id, now, n - 1);
      CallsOnlyBurst(id, now, n - 1);
      assert [Call(id, now)] + Burst(id, now, n - 1) == Burst(id, now, n);
    }
  }

  // Empty the bucket, clean up at t, and try to empty it again.
  function DrainTwice(l: Limits, maxAge: real, t: real): seq<Event>
    requires l.Valid()
  {
    Burst(0, 0.0, l.burst) + ([Sweep(maxAge, t)] + Burst(0, t, l.burst))
  }

  lemma DrainTwiceTimed(l: Limits, maxAge: real, t: real)
    requires l.Valid() && t >= 0.0
    ensures TimedFrom(DrainTwice(l, maxAge, t), 0.0) && AllSweeps(DrainTwice(l, maxAge, t), maxAge)
    ensures CallsOnly(DrainTwice(l, maxAge, t)) == Burst(0, 0.0, l.burst) + Burst(0, t, l.burst)
  {
    var second := Burst(0, t, l.burst);
    var tail := [Sweep(maxAge, t)] + second;
    BurstTimed(0, t, l.burst, t, []);
    assert second + [] == second;
    assert tail[1..] == second;
    BurstTimed(0, 0.0, l.burst, 0.0, tail);
    CallsOnlyAppend(Burst(0, 0.0, l.burst), tail);
    CallsOnlyAppend([Sweep(maxAge, t)], second);
    CallsOnlyBurst(0, 0.0, l.burst);
    CallsOnlyBurst(0, t, l.burst);
  }

  lemma EvictionSeen(l: Limits, maxAge: real, t: real)
    requires l.Valid() && t >= 0.0 && t > maxAge && t * l.rate < l.burst as real
    ensures var es := DrainTwice(l, maxAge, t);
            Answers(l, map[], es) != Answers(l, map[], CallsOnly(es))
  {
    var b := l.burst;
    var first, second := Burst(0, 0.0, b), Burst(0, t, b);
    DrainTwiceTimed(l, maxAge, t);
    BurstDrains(l, map[], 0, 0.0, b);
    var drained := Run(l, map[], first);
    assert (t - 0.0) * l.rate == t * l.rate;
    assert Level(l, drained, 0, t) < b as real;
    AnswersAppend(l, map[], first, second);
    BurstLastAnswer(l, drained, 0, t, b);
    var tail := [Sweep(maxAge, t)] + second;
    AnswersAppend(l, map[], first, tail);
    assert tail[1..] == second;
    var swept := AfterCleanup(drained, maxAge, t);
    assert Answers(l, drained, tail) == Answers(l, swept, second);
    BurstLastAnswer(l, swept, 0, t, b);
    assert 0 !in swept;
    var cleaned, plain := Answers(l, map[], first + tail), Answers(l, map[], first + second);
    assert cleaned[|cleaned| - 1].allowed && !plain[|plain| - 1].allowed;
  }

  /** Cleaning up is invisible to every caller exactly when a session idle for
      maxAge would have refilled to the burst capacity anyway. */
  lemma EvictionUnobservableIff(l: Limits, maxAge: real)
    requires l.Valid()
    ensures Unobservable(l, maxAge) <==> LongEnough(l, maxAge)
  {
    if LongEnough(l, maxAge) {
      forall es, t | TimedFrom(es, t) && AllSweeps(es, maxAge)
        ensures Answers(l, map[], es) == Answers(l, map[], CallsOnly(es))
      {
        EvictionUnseen(l, map[], map[], es, t);
      }
    } else {
      var cap := l.burst as real;
      var low := if maxAge > 0.0 then maxAge else 0.0;
      var t := (low + cap / l.rate) / 2.0;
      Midpoint(low, cap, l.rate);
      EvictionSeen(l, maxAge, t);
      DrainTwiceTimed(l, maxAge, t);
    }
  }

  lemma Midpoint(low: real, cap: real, rate: real)
    requires rate > 0.0 && low >= 0.0 && low * rate < cap
    ensures var t := (low + cap / rate) / 2.0; t > low && t * rate < cap
  {
    var q := cap / rate;
    assert q * rate == cap;
    if q <= low { ProductMonotone(q, low, rate); }
    var t := (low + q) / 2.0;
    assert t * rate == (low * rate + q * rate) / 2.0;
  }

  // ------------------------------------------------------------ window bound

  function AllowedCount(l: Limits, ss: Sessions, es: seq<Event>, id: SessionId): nat
    requires l.Valid()
    decreases |es|
  {
    if |es| == 0 then 0
    else
      Drawn(l, ss, es[0], id) + AllowedCount(l, After(l, ss, es[0]), es[1..], id)
  }

  // The tokens of one session that an event takes.
  function Drawn(l: Limits, ss: Sessions, e: Event, id: SessionId): nat {
    if e.Call? && e.id == id && Level(l, ss, id, e.now) >= 1.0 then 1 else 0
  }

  lemma EventTakesDrawn(l: Limits, ss: Sessions, e: Event, id: SessionId)
    requires l.Valid() && NonNegative(ss) && Past(ss, e.now) && (e.Sweep? ==> LongEnough(l, e.maxAge))
    ensures Level(l, After(l, ss, e), id, e.now) + Drawn(l, ss, e, id) as real == Level(l, ss, id, e.now)
  {
    if e.Sweep? {
      CleanupKeepsLevel(l, ss, e.maxAge, e.now, id, e.now);
    } else if e.id == id {
      LevelNonNegative(l, ss, id, e.now);
      LevelAfterCall(l, ss, id, e.now);
    }
  }

  predicate Until(es: seq<Event>, t: real) {
    forall i :: 0 <= i < |es| ==> es[i].now <= t
  }

  lemma LevelGrowth(l: Limits, ss: Sessions, id: SessionId, s: real, t: real)
    requires l.Valid() && s <= t
    ensures Level(l, ss, id, t) <= Level(l, ss, id, s) + (t - s) * l.rate
  {
    ProductNonNegative(t - s, l.rate);
    if id in ss { Distribute(s - ss[id].lastCheck, t - s, l.rate); }
  }

  lemma AfterKeepsGood(l: Limits, ss: Sessions, e: Event, t: real)
    requires l.Valid() && NonNegative(ss) && Past(ss, t) && t <= e.now
    ensures NonNegative(After(l, ss, e)) && Past(After(l, ss, e), e.now)
  {
    if e.Call? { CallKeepsGood(l, ss, e.id, e.now); }
  }

  // What was allowed plus what is left never exceeds what was there plus what came in.
  lemma {:induction false} Budget(l: Limits, ss: Sessions, es: seq<Event>, id: SessionId, s: real, t: real)
    requires l.Valid() && NonNegative(ss) && Past(ss, s) && s <= t
    requires TimedFrom(es, s) && Until(es, t) && SweepsLongEnough(l, es)
    ensures AllowedCount(l, ss, es, id) as real <= Level(l, ss, id, s) + (t - s) * l.rate
    decreases |es|
  {
    if |es| == 0 {
      LevelNonNegative(l, ss, id, s);
      ProductNonNegative(t - s, l.rate);
    } else {
      var e := es[0];
      var u := e.now;
      assert u <= t;
      AfterKeepsGood(l, ss, e, s);
      assert Until(es[1..], t) && SweepsLongEnough(l, es[1..]);
      Budget(l, After(l, ss, e), es[1..], id, u, t);
      LevelGrowth(l, ss, id, s, u);
      Distribute(u - s, t - u, l.rate);
      EventTakesDrawn(l, ss, e, id);
    }
  }

  lemma {:induction false} RunKeepsGood(l: Limits, ss: Sessions, es: seq<Event>, t: real, end: real)
    requires l.Valid() && NonNegative(ss) && Past(ss, t) && TimedFrom(es, t) && Until(es, end) && t <= end
    ensures NonNegative(Run(l, ss, es)) && Past(Run(l, ss, es), end)
    decreases |es|
  {
    if |es| > 0 {
      AfterKeepsGood(l, ss, es[0], t);
      assert es[0].now <= end;
      RunKeepsGood(l, After(l, ss, es[0]), es[1..], es[0].now, end);
    }
  }

  /** In any window [s, t] of any run, one session is allowed at most
      burst + rate * (t - s) calls, however clean-ups and other sessions interleave. */
  lemma WindowBound(l: Limits, before: seq<Event>, window: seq<Event>, id: SessionId, start: real, s: real, t: real)
    requires l.Valid() && start <= s <= t
    requires TimedFrom(before, start) && Until(before, s)
    requires TimedFrom(window, s) && Until(window, t) && SweepsLongEnough(l, window)
    ensures AllowedCount(l, Run(l, map[], before), window, id) as real <= l.burst as real + (t - s) * l.rate
  {
    RunKeepsGood(l, map[], before, start, s);
    var ss := Run(l, map[], before);
    Budget(l, ss, window, id, s, t);
    LevelNonNegative(l, ss, id, s);
  }

  // ---------------------------------------------------------------- cooldown

  // The reported cooldown is the true waiting time, cut off to whole milliseconds.
  lemma CooldownExact(l: Limits, level: real, wait: real)
    requires l.Valid() && level < 1.0
    ensures var c := CooldownMs(l, level);
            && (wait < c as real / 1000.0 ==> level + wait * l.rate < 1.0)
            && (wait >= (c + 1) as real / 1000.0 ==> level + wait * l.rate >= 1.0)
  {
    var exact := (1.0 - level) / l.rate;
    assert exact * l.rate == 1.0 - level;
    var c := CooldownMs(l, level);
    assert c as real <= exact * 1000.0 < (c + 1) as real;
    if wait < c as real / 1000.0 {
      if wait * l.rate >= exact * l.rate { StrictProduct(wait, exact, l.rate); }
    }
    if wait >= (c + 1) as real / 1000.0 { ProductMonotone(exact, wait, l.rate); }
  }

  lemma StrictProduct(a: real, b: real, r: real)
    requires a < b && r > 0.0
    ensures a * r < b * r
  {
    assert (b - a) * r > 0.0;
  }

  // Being refused costs nothing: what the session can draw later is unchanged.
  lemma DenialIsFree(l: Limits, ss: Sessions, id: SessionId, now: real, later: real)
    requires l.Valid() && Level(l, ss, id, now) < 1.0 && now <= later
    ensures Level(l, AfterCall(l, ss, id, now), id, later) == Level(l, ss, id, later)
  {
    assert l.burst as real >= 1.0;
    assert id in ss;
    Distribute(now - ss[id].lastCheck, later - now, l.rate);
  }

  lemma {:induction false} DenialsAreFree(l: Limits, ss: Sessions, es: seq<Event>, id: SessionId, t: real, later: real)
    requires l.Valid() && NonNegative(ss) && Past(ss, t)
    requires TimedFrom(es, t) && Until(es, later) && SweepsLongEnough(l, es) && t <= later
    requires AllowedCount(l, ss, es, id) == 0
    ensures Level(l, Run(l, ss, es), id, later) == Level(l, ss, id, later)
    decreases |es|
  {
    if |es| > 0 {
      var e := es[0];
      assert e.now <= later;
      AfterKeepsGood(l, ss, e, t);
      assert Until(es[1..], later) && SweepsLongEnough(l, es[1..]);
      DenialsAreFree(l, After(l, ss, e), es[1..], id, e.now, later);
      if e.Sweep? {
        CleanupKeepsLevel(l, ss, e.maxAge, e.now, id, later);
      } else if e.id == id {
        DenialIsFree(l, ss, id, e.now, later);
      }
    }
  }

  lemma WaitDecides(l: Limits, level: real, now: real, next: real)
    requires l.Valid() && level < 1.0
    ensures var c := CooldownMs(l, level);
            && (next < now + c as real / 1000.0 ==> Refilled(l, Bucket(level, now), next) < 1.0)
            && (next >= now + (c + 1) as real / 1000.0 ==> Refilled(l, Bucket(level, now), next) >= 1.0)
  {
    var wait, cap := next - now, l.burst as real;
    CooldownExact(l, level, wait);
    assert cap >= 1.0;
    var tokens := level + wait * l.rate;
    assert Refilled(l, Bucket(level, now), next) == if tokens > cap then cap else tokens;
  }

  /** After a denial at `now` that reports c milliseconds, and however many further
      denied polls (with clean-ups and other sessions in between): a call before
      now + c ms is denied, a call from now + (c + 1) ms on is allowed. */
  lemma CooldownIsHonest(l: Limits, ss: Sessions, id: SessionId, now: real, polls: seq<Event>, next: real)
    requires l.Valid() && NonNegative(ss) && Past(ss, now)
    requires !Reply(l, Level(l, ss, id, now)).allowed
    requires TimedFrom(polls, now) && Until(polls, next) && SweepsLongEnough(l, polls) && now <= next
    requires AllowedCount(l, AfterCall(l, ss, id, now), polls, id) == 0
    ensures var c := Reply(l, Level(l, ss, id, now)).cooldownMs;
            var reply := Reply(l, Level(l, Run(l, AfterCall(l, ss, id, now), polls), id, next));
            && (next < now + c as real / 1000.0 ==> !reply.allowed)
            && (next >= now + (c + 1) as real / 1000.0 ==> reply.allowed)
  {
    var level := Level(l, ss, id, now);
    var after := AfterCall(l, ss, id, now);
    CallKeepsGood(l, ss, id, now);
    DenialsAreFree(l, after, polls, id, now, next);
    assert after[id] == Bucket(level, now);
    assert Level(l, Run(l, after, polls), id, next) == Refilled(l, after[id], next);
    WaitDecides(l, level, now, next);
  }
}
