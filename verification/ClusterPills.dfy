/** The pill rate limit over whole runs: any number of ProbeAndPill calls may be in
    flight at once.
 */
module ClusterPills {
  import opened ClusterRegistry

  // When the calls for one (member, reason) claimed their slot.
  function TimesOf(claims: seq<Claim>, key: PillKey): seq<Time> {
    if |claims| == 0 then []
    else
      var last := claims[|claims| - 1];
      TimesOf(claims[..|claims| - 1], key) + (if last.key == key then [last.at] else [])
  }

  function SpentOn(claims: seq<Claim>, key: PillKey): nat {
    if |claims| == 0 then 0
    else
      var last := claims[|claims| - 1];
      SpentOn(claims[..|claims| - 1], key) + (if last.key == key && last.spent then 1 else 0)
  }

  function PillsOn(pills: seq<PillKey>, key: PillKey): nat {
    if |pills| == 0 then 0 else PillsOn(pills[..|pills| - 1], key) + (if pills[|pills| - 1] == key then 1 else 0)
  }

  ghost predicate Spaced(ts: seq<Time>, gap: Time) {
    forall i, j :: 0 <= i < j < |ts| ==> ts[j] - ts[i] >= gap
  }

  ghost predicate KeyOk(cfg: Config, s: State, key: PillKey) {
    var ts := TimesOf(s.claims, key);
    && Spaced(ts, cfg.pillRateLimit)
    && (|ts| > 0 ==> key in s.rate && forall i :: 0 <= i < |ts| ==> ts[i] <= s.rate[key])
    && PillsOn(s.pills, key) == SpentOn(s.claims, key)
  }

  ghost predicate PendingOk(s: State) {
    forall c :: c in s.pending ==> c < |s.claims| && !s.claims[c].spent
  }

  ghost predicate PillInv(cfg: Config, s: State) {
    PendingOk(s) && forall key :: KeyOk(cfg, s, key)
  }

  lemma ClaimCounts(claims: seq<Claim>, c: Claim, key: PillKey)
    ensures TimesOf(claims + [c], key) == TimesOf(claims, key) + (if c.key == key then [c.at] else [])
    ensures SpentOn(claims + [c], key) == SpentOn(claims, key) + (if c.key == key && c.spent then 1 else 0)
  {
    assert (claims + [c])[..|claims|] == claims;
  }

  lemma {:induction false} SpendCounts(claims: seq<Claim>, i: nat, key: PillKey)
    requires i < |claims| && !claims[i].spent
    ensures var after := claims[i := claims[i].(spent := true)];
            && TimesOf(after, key) == TimesOf(claims, key)
            && SpentOn(after, key) == SpentOn(claims, key) + (if claims[i].key == key then 1 else 0)
  {
    var after := claims[i := claims[i].(spent := true)];
    var n := |claims| - 1;
    if i == n {
      assert after[..n] == claims[..n];
    } else {
      SpendCounts(claims[..n], i, key);
      assert after[..n] == claims[..n][i := claims[i].(spent := true)];
    }
  }

  lemma {:induction false} SpentWithinClaims(claims: seq<Claim>, key: PillKey)
    ensures SpentOn(claims, key) <= |TimesOf(claims, key)|
  {
    if |claims| > 0 { SpentWithinClaims(claims[..|claims| - 1], key); }
  }

  lemma SpacedPush(ts: seq<Time>, at: Time, gap: Time)
    requires Spaced(ts, gap) && forall i :: 0 <= i < |ts| ==> at - ts[i] >= gap
    ensures Spaced(ts + [at], gap)
  {
  }

  lemma StartKeepsKey(cfg: Config, s: State, key: PillKey, checkedAt: Time, claimedAt: Time, other: PillKey)
    requires cfg.Valid() && KeyOk(cfg, s, other)
    ensures KeyOk(cfg, OnProbeStart(cfg, s, key, checkedAt, claimedAt), other)
  {
    var t := OnProbeStart(cfg, s, key, checkedAt, claimedAt);
    if t != s {
      ClaimCounts(s.claims, Claim(key, claimedAt, false), other);
      if key == other {
        var ts := TimesOf(s.claims, key);
        forall i | 0 <= i < |ts| ensures claimedAt - ts[i] >= cfg.pillRateLimit { assert ts[i] <= s.rate[key]; }
        SpacedPush(ts, claimedAt, cfg.pillRateLimit);
      }
    }
  }

  lemma UnansweredKeepsKey(cfg: Config, s: State, call: nat, published: bool, other: PillKey)
    requires KeyOk(cfg, s, other) && call < |s.claims| && !s.claims[call].spent
    ensures KeyOk(cfg, OnProbeUnanswered(s, call, published), other)
  {
    if published {
      SpendCounts(s.claims, call, other);
      PillCounts(s.pills, s.claims[call].key, other);
    }
  }

  lemma PillCounts(pills: seq<PillKey>, p: PillKey, key: PillKey)
    ensures PillsOn(pills + [p], key) == PillsOn(pills, key) + (if p == key then 1 else 0)
  {
    assert (pills + [p])[..|pills|] == pills;
  }

  lemma StepKeepsKey(cfg: Config, s: State, e: Event, key: PillKey)
    requires cfg.Valid() && PendingOk(s) && KeyOk(cfg, s, key)
    ensures KeyOk(cfg, Step(cfg, s, e), key)
  {
    match e
    case ProbeStart(k, checkedAt, claimedAt) => StartKeepsKey(cfg, s, k, checkedAt, claimedAt, key);
    case ProbeUnanswered(call, published) =>
      if call in s.pending { UnansweredKeepsKey(cfg, s, call, published, key); }
    case _ => assert Step(cfg, s, e).claims == s.claims && Step(cfg, s, e).pills == s.pills;
  }

  lemma StepKeepsPending(cfg: Config, s: State, e: Event)
    requires PendingOk(s)
    ensures PendingOk(Step(cfg, s, e))
  {
  }

  lemma StepKeepsPillInv(cfg: Config, s: State, e: Event)
    requires cfg.Valid() && PillInv(cfg, s)
    ensures PillInv(cfg, Step(cfg, s, e))
  {
    StepKeepsPending(cfg, s, e);
    forall key ensures KeyOk(cfg, Step(cfg, s, e), key) { StepKeepsKey(cfg, s, e, key); }
  }

  lemma {:induction false} RunKeepsPillInv(cfg: Config, s: State, es: seq<Event>)
    requires cfg.Valid() && PillInv(cfg, s)
    ensures PillInv(cfg, Run(cfg, s, es))
    decreases |es|
  {
    if |es| > 0 {
      StepKeepsPillInv(cfg, s, es[0]);
      RunKeepsPillInv(cfg, Step(cfg, s, es[0]), es[1..]);
    }
  }

  lemma {:induction false} SpacedSpan(ts: seq<Time>, gap: Time)
    requires Spaced(ts, gap) && |ts| > 0
    ensures ts[|ts| - 1] - ts[0] >= (|ts| - 1) * gap
  {
    if |ts| > 1 {
      var front := ts[..|ts| - 1];
      SpacedSpan(front, gap);
      assert ts[|ts| - 1] - front[|front| - 1] >= gap;
      assert (|ts| - 1) * gap == (|front| - 1) * gap + gap;
    }
  }

  lemma SignOfProduct(a: int, gap: int)
    requires gap > 0
    ensures a <= 0 ==> a * gap <= 0
  {
  }

  lemma QuotientAtLeast(k: nat, gap: int, span: int)
    requires gap > 0 && k * gap <= span
    ensures k <= span / gap
  {
    var q := span / gap;
    assert span == q * gap + span % gap;
    assert (q - k + 1) * gap == q * gap - k * gap + gap;
    SignOfProduct(q - k + 1, gap);
  }

  lemma SpacedCount(ts: seq<Time>, gap: Time, now: Time)
    requires gap > 0 && Spaced(ts, gap) && |ts| > 0 && ts[|ts| - 1] <= now
    ensures |ts| <= 1 + (now - ts[0]) / gap
  {
    SpacedSpan(ts, gap);
    QuotientAtLeast(|ts| - 1, gap, now - ts[0]);
  }

  /** In every run, however ProbeAndPill calls overlap: the claims for one (member,
      reason) are at least PillRateLimit apart, every published poison is charged to
      a claim of its own, and so the poisons published by time `now` number at most
      1 + (now - first claim) / PillRateLimit. */
  lemma PillRateBound(cfg: Config, self: MemberId, startedAt: Time, version: string, es: seq<Event>, key: PillKey,
                      now: Time)
    requires cfg.Valid()
    requires var ts := TimesOf(Run(cfg, NewRegistry(self, startedAt, version), es).claims, key);
             |ts| > 0 ==> ts[|ts| - 1] <= now
    ensures var s := Run(cfg, NewRegistry(self, startedAt, version), es);
            var ts := TimesOf(s.claims, key);
            && Spaced(ts, cfg.pillRateLimit)
            && PillsOn(s.pills, key) <= |ts|
            && (|ts| > 0 ==> PillsOn(s.pills, key) <= 1 + (now - ts[0]) / cfg.pillRateLimit)
  {
    var s0 := NewRegistry(self, startedAt, version);
    RunKeepsPillInv(cfg, s0, es);
    var s := Run(cfg, s0, es);
    var ts := TimesOf(s.claims, key);
    assert KeyOk(cfg, s, key);
    SpentWithinClaims(s.claims, key);
    if |ts| > 0 {
      SpacedCount(ts, cfg.pillRateLimit, now);
    }
  }
}
