/** What every run of the registry keeps. */
module ClusterProperties {
  import opened Options
  import opened ClusterRegistry

  // --------------------------------------------------------------- membership

  ghost predicate Inv(s: State) {
    && s.self in s.members
    && (forall id :: id in s.members ==> s.members[id].status == Alive)
    && (forall i :: 0 <= i < |s.claims| ==> s.claims[i].key.member != s.self)
    && (forall k :: k in s.pills ==> k.member != s.self)
  }

  lemma StepKeepsInv(cfg: Config, s: State, e: Event)
    requires Inv(s)
    ensures Inv(Step(cfg, s, e)) && Step(cfg, s, e).self == s.self
  {
  }

  lemma {:induction false} RunKeepsInv(cfg: Config, s: State, es: seq<Event>)
    requires Inv(s)
    ensures Inv(Run(cfg, s, es)) && Run(cfg, s, es).self == s.self
    decreases |es|
  {
    if |es| > 0 {
      StepKeepsInv(cfg, s, es[0]);
      RunKeepsInv(cfg, Step(cfg, s, es[0]), es[1..]);
    }
  }

  function Peers(s: State): set<MemberId> {
    s.members.Keys - {s.self}
  }

  /** Self is always a live member, everyone known is live, and no poison was ever
      aimed at self: the live count is one plus the number of peers. */
  lemma SelfAlwaysLive(cfg: Config, self: MemberId, startedAt: Time, version: string, es: seq<Event>)
    ensures var s := Run(cfg, NewRegistry(self, startedAt, version), es);
            && self in Live(s) && Live(s) == s.members.Keys
            && |Live(s)| == 1 + |Peers(s)|
            && (forall k :: k in s.pills ==> k.member != self)
  {
    RunKeepsInv(cfg, NewRegistry(self, startedAt, version), es);
    var s := Run(cfg, NewRegistry(self, startedAt, version), es);
    assert Live(s) == s.members.Keys;
    assert s.members.Keys == Peers(s) + {self};
  }

  // ---------------------------------------------------------------- callbacks

  function Noted(known: set<MemberId>, c: Callback): set<MemberId> {
    if c.Joined? then known + {c.id} else if c.Left? then known - {c.id} else known
  }

  // What an observer concludes that starts from a set of peers.
  function Fold(start: set<MemberId>, cs: seq<Callback>): set<MemberId> {
    if |cs| == 0 then start else Noted(Fold(start, cs[..|cs| - 1]), cs[|cs| - 1])
  }

  lemma {:induction false} FoldAppend(start: set<MemberId>, a: seq<Callback>, b: seq<Callback>)
    ensures Fold(start, a + b) == Fold(Fold(start, a), b)
    decreases |b|
  {
    if |b| == 0 {
      assert a + b == a;
    } else {
      assert (a + b)[..|a + b| - 1] == a + b[..|b| - 1];
      FoldAppend(start, a, b[..|b| - 1]);
    }
  }

  lemma {:induction false} FoldTimeouts(start: set<MemberId>, order: seq<MemberId>)
    ensures Fold(start, Timeouts(order)) == start - IdSet(order)
  {
    if |order| > 0 {
      var front := order[..|order| - 1];
      assert Timeouts(order)[..|order| - 1] == Timeouts(front);
      FoldTimeouts(start, front);
      assert order == front + [order[|order| - 1]];
    }
  }

  // The callbacks that a step adds.
  function Emitted(cfg: Config, s: State, e: Event): seq<Callback> {
    var t := Step(cfg, s, e);
    if |s.callbacks| <= |t.callbacks| then t.callbacks[|s.callbacks|..] else []
  }

  lemma StepEmits(cfg: Config, s: State, e: Event)
    ensures Step(cfg, s, e).callbacks == s.callbacks + Emitted(cfg, s, e)
  {
  }

  lemma FoldOne(start: set<MemberId>, c: Callback)
    ensures Fold(start, [c]) == Noted(start, c)
  {
    assert [c][..0] == [];
  }

  lemma StepFolds(cfg: Config, s: State, e: Event)
    requires Inv(s)
    ensures Fold(Peers(s), Emitted(cfg, s, e)) == Peers(Step(cfg, s, e))
  {
    StepEmits(cfg, s, e);
    var t := Step(cfg, s, e);
    var cs := Emitted(cfg, s, e);
    if |cs| == 1 { FoldOne(Peers(s), cs[0]); }
    if e.SweepTick? && IsSweepOrder(cfg, s, e.now, e.order) {
      assert cs == Timeouts(e.order);
      FoldTimeouts(Peers(s), e.order);
    }
  }

  /** An observer that knows the peers at some point of a run and folds the callbacks
      from there on knows the peers at every later point. */
  lemma {:induction false} CallbacksRebuildPeers(cfg: Config, s: State, es: seq<Event>)
    requires Inv(s)
    ensures var t := Run(cfg, s, es);
            s.callbacks <= t.callbacks && Fold(Peers(s), t.callbacks[|s.callbacks|..]) == Peers(t)
    decreases |es|
  {
    if |es| == 0 {
      assert s.callbacks[|s.callbacks|..] == [];
    } else {
      var u := Step(cfg, s, es[0]);
      var t := Run(cfg, s, es);
      StepKeepsInv(cfg, s, es[0]);
      StepEmits(cfg, s, es[0]);
      StepFolds(cfg, s, es[0]);
      CallbacksRebuildPeers(cfg, u, es[1..]);
      var first, rest := Emitted(cfg, s, es[0]), t.callbacks[|u.callbacks|..];
      assert t.callbacks[|s.callbacks|..] == first + rest;
      FoldAppend(Peers(s), first, rest);
    }
  }

  // A member is announced only while it is not one.
  ghost predicate JoinsAreNew(start: set<MemberId>, cs: seq<Callback>) {
    forall i :: 0 <= i < |cs| && cs[i].Joined? ==> cs[i].id !in Fold(start, cs[..i])
  }

  lemma StepJoinsAreNew(cfg: Config, s: State, e: Event)
    requires Inv(s)
    ensures JoinsAreNew(Peers(s), Emitted(cfg, s, e))
  {
    StepEmits(cfg, s, e);
    var cs := Emitted(cfg, s, e);
    forall i | 0 <= i < |cs| && cs[i].Joined? ensures cs[i].id !in Fold(Peers(s), cs[..i]) {
      assert e.AliveMsg? && i == 0;
      assert cs[..0] == [];
    }
  }

  lemma {:induction false} RunJoinsAreNew(cfg: Config, s: State, es: seq<Event>)
    requires Inv(s)
    ensures s.callbacks <= Run(cfg, s, es).callbacks
    ensures JoinsAreNew(Peers(s), Run(cfg, s, es).callbacks[|s.callbacks|..])
    decreases |es|
  {
    if |es| > 0 {
      var u := Step(cfg, s, es[0]);
      var t := Run(cfg, s, es);
      StepKeepsInv(cfg, s, es[0]);
      StepEmits(cfg, s, es[0]);
      StepFolds(cfg, s, es[0]);
      StepJoinsAreNew(cfg, s, es[0]);
      RunJoinsAreNew(cfg, u, es[1..]);
      var first, rest := Emitted(cfg, s, es[0]), t.callbacks[|u.callbacks|..];
      assert t.callbacks[|s.callbacks|..] == first + rest;
      JoinsAreNewAppend(Peers(s), first, rest);
    }
  }

  lemma JoinsAreNewAppend(start: set<MemberId>, a: seq<Callback>, b: seq<Callback>)
    requires JoinsAreNew(start, a) && JoinsAreNew(Fold(start, a), b)
    ensures JoinsAreNew(start, a + b)
  {
    var cs := a + b;
    forall i | 0 <= i < |cs| && cs[i].Joined? ensures cs[i].id !in Fold(start, cs[..i]) {
      if i < |a| {
        assert cs[..i] == a[..i];
      } else {
        assert cs[..i] == a + b[..i - |a|];
        FoldAppend(start, a, b[..i - |a|]);
      }
    }
  }

  lemma {:induction false} FoldKeepsUnlessLeft(start: set<MemberId>, cs: seq<Callback>, id: MemberId)
    requires id in start && forall i :: 0 <= i < |cs| ==> !(cs[i].Left? && cs[i].id == id)
    ensures id in Fold(start, cs)
  {
    if |cs| > 0 { FoldKeepsUnlessLeft(start, cs[..|cs| - 1], id); }
  }

  /** Between two announcements that the same member joined there is one that it left. */
  lemma NoJoinTwice(cfg: Config, self: MemberId, startedAt: Time, version: string, es: seq<Event>, i: nat, j: nat)
    requires var cs := Run(cfg, NewRegistry(self, startedAt, version), es).callbacks;
             i < j < |cs| && cs[i].Joined? && cs[j].Joined? && cs[i].id == cs[j].id
    ensures var cs := Run(cfg, NewRegistry(self, startedAt, version), es).callbacks;
            exists k :: i < k < j && cs[k].Left? && cs[k].id == cs[i].id
  {
    var s := NewRegistry(self, startedAt, version);
    var cs := Run(cfg, s, es).callbacks;
    RunJoinsAreNew(cfg, s, es);
    assert cs[|s.callbacks|..] == cs;
    LeftBetweenJoins(Peers(s), cs, i, j);
  }

  lemma LeftBetweenJoins(start: set<MemberId>, cs: seq<Callback>, i: nat, j: nat)
    requires JoinsAreNew(start, cs) && i < j < |cs| && cs[i].Joined? && cs[j].Joined? && cs[i].id == cs[j].id
    ensures exists k :: i < k < j && cs[k].Left? && cs[k].id == cs[i].id
  {
    var id := cs[i].id;
    var upTo, between := cs[..i + 1], cs[i + 1..j];
    assert upTo[..i] == cs[..i];
    assert id in Fold(start, upTo);
    FoldAppend(start, upTo, between);
    assert cs[..j] == upTo + between;
    assert forall m :: 0 <= m < |between| ==> between[m] == cs[i + 1 + m];
    if forall k :: i < k < j ==> !(cs[k].Left? && cs[k].id == id) {
      FoldKeepsUnlessLeft(Fold(start, upTo), between, id);
    }
  }

  /** The converse does not hold: a member is announced as gone exactly as often as
      it is removed, except that a pill is announced even for a stranger. */
  lemma LeftNamesPeerIff(cfg: Config, s: State, e: Event, i: nat)
    requires Inv(s) && i < |Emitted(cfg, s, e)| && Emitted(cfg, s, e)[i].Left?
    ensures Emitted(cfg, s, e)[i].id in Peers(s)
       <==> !(e.ProbeUnanswered? && s.claims[e.call].key.member !in s.members)
  {
    StepEmits(cfg, s, e);
    if e.SweepTick? {
      assert Emitted(cfg, s, e) == Timeouts(e.order);
      assert e.order[i] in IdSet(e.order);
      assert Expired(cfg, s, e.order[i], e.now);
    }
  }

  // From a new registry: probe an id that never sent a heartbeat, and get no answer.
  lemma StrangerCanBeAnnounced(cfg: Config, self: MemberId, startedAt: Time, version: string, key: PillKey, now: Time)
    requires key.member != self
    ensures var es := [ProbeStart(key, now, now), ProbeUnanswered(0, true)];
            var s := Run(cfg, NewRegistry(self, startedAt, version), es);
            s.callbacks == [Left(key.member, LeftPilled)] && s.pills == [key] && Peers(s) == {}
  {
    var s0 := NewRegistry(self, startedAt, version);
    var es := [ProbeStart(key, now, now), ProbeUnanswered(0, true)];
    var s1 := Step(cfg, s0, es[0]);
    assert s1.claims == [Claim(key, now, false)] && s1.pending == {0};
    var s2 := Step(cfg, s1, es[1]);
    assert s2.members.Keys == {self};
    assert es[1..][1..] == [];
    assert Run(cfg, s0, es) == Run(cfg, s1, es[1..]) == s2;
  }

  // ------------------------------------------------------------------- poisons

  // The poisons of this cluster among the events, in order.
  function OwnPoisons(cfg: Config, es: seq<Event>): seq<(PillReason, MemberId)> {
    if |es| == 0 then []
    else
      (if es[0].PoisonMsg? && es[0].clusterId == cfg.clusterId then [(es[0].reason, es[0].coordinator)] else [])
      + OwnPoisons(cfg, es[1..])
  }

  /** A run triggers the pill action once for each poison of this cluster, in order, and
      never for anything else: no probe, sweep, bye or foreign poison triggers it.
   */
  lemma {:induction false} TriggeredAreOwnPoisons(cfg: Config, s: State, es: seq<Event>)
    ensures Run(cfg, s, es).triggered == s.triggered + OwnPoisons(cfg, es)
    decreases |es|
  {
    if |es| > 0 {
      var head := OwnPoisons(cfg, [es[0]]);
      var t := Step(cfg, s, es[0]);
      StepTriggers(cfg, s, es[0]);
      TriggeredAreOwnPoisons(cfg, t, es[1..]);
      assert s.triggered + head + OwnPoisons(cfg, es[1..]) == s.triggered + (head + OwnPoisons(cfg, es[1..]));
      assert [es[0]][1..] == [];
    }
  }

  lemma StepTriggers(cfg: Config, s: State, e: Event)
    ensures Step(cfg, s, e).triggered == s.triggered + OwnPoisons(cfg, [e])
  {
    assert [e][1..] == [];
    assert s.triggered + [] == s.triggered;
  }

  // -------------------------------------------------------- remote clocks

  function ErasedMember(m: Member): Member {
    m.(lastPublishedAt := 0, skew := 0)
  }

  function ErasedCallback(c: Callback): Callback {
    if c.Joined? then c.(member := ErasedMember(c.member)) else c
  }

  // Everything but the remote publication stamps and what is computed from them.
  function Erased(s: State): State {
    s.(members := map id | id in s.members :: ErasedMember(s.members[id]),
       callbacks := ErasedCallbacks(s.callbacks))
  }

  function ErasedCallbacks(cs: seq<Callback>): seq<Callback> {
    seq(|cs|, i requires 0 <= i < |cs| => ErasedCallback(cs[i]))
  }

  function ErasedEvent(e: Event): Event {
    if e.AliveMsg? then e.(beat := e.beat.(publishedAt := 0)) else e
  }

  predicate SameButPublication(a: seq<Event>, b: seq<Event>) {
    |a| == |b| && forall i :: 0 <= i < |a| ==> ErasedEvent(a[i]) == ErasedEvent(b[i])
  }

  lemma ErasedPut(s: State, id: MemberId, m: Member, cs: seq<Callback>)
    ensures Erased(s.(members := s.members[id := m], callbacks := s.callbacks + cs))
            == Erased(s).(members := Erased(s).members[id := ErasedMember(m)],
                          callbacks := ErasedCallbacks(s.callbacks) + ErasedCallbacks(cs))
  {
    var t := s.(members := s.members[id := m], callbacks := s.callbacks + cs);
    assert Erased(t).members == Erased(s).members[id := ErasedMember(m)];
    assert ErasedCallbacks(s.callbacks + cs) == ErasedCallbacks(s.callbacks) + ErasedCallbacks(cs);
  }

  // A first heartbeat, a later one, and one that is dropped.
  lemma ErasedAlive(cfg: Config, s: State, b: Heartbeat, now: Time)
    ensures Erased(OnAlive(cfg, s, b, now)) == Erased(OnAlive(cfg, Erased(s), b.(publishedAt := 0), now))
  {
    ErasedTwice(s);
    var b0, s0 := b.(publishedAt := 0), Erased(s);
    if b.clusterId != cfg.clusterId || b.member == s.self || IsDuplicate(s, b) {
    } else if b.member !in s.members {
      var m := Member(Alive, b.startedAt, now, b.publishedAt, b.version, b.seqNo, Abs(now - b.publishedAt));
      var m0 := m.(lastPublishedAt := 0, skew := Abs(now));
      ErasedPut(s, b.member, m, [Joined(b.member, m)]);
      ErasedPut(s0, b.member, m0, [Joined(b.member, m0)]);
      assert ErasedCallbacks([Joined(b.member, m)]) == ErasedCallbacks([Joined(b.member, m0)]);
    } else {
      var t, u := OnAlive(cfg, s, b, now), OnAlive(cfg, s0, b0, now);
      var cs := t.callbacks[|s.callbacks|..];
      ErasedPut(s, b.member, t.members[b.member], cs);
      ErasedPut(s0, b.member, u.members[b.member], cs);
    }
  }

  lemma ErasedSweep(cfg: Config, s: State, now: Time, order: seq<MemberId>)
    ensures Erased(OnSweep(cfg, s, now, order)) == Erased(OnSweep(cfg, Erased(s), now, order))
  {
    assert ExpiredSet(cfg, Erased(s), now) == ExpiredSet(cfg, s, now);
    var t, u := OnSweep(cfg, s, now, order), OnSweep(cfg, Erased(s), now, order);
    assert Erased(t).members == Erased(u).members;
    assert Erased(t).callbacks == Erased(u).callbacks;
  }

  lemma ErasedBye(cfg: Config, s: State, clusterId: string, id: MemberId)
    ensures Erased(OnBye(cfg, s, clusterId, id)) == Erased(OnBye(cfg, Erased(s), clusterId, id))
  {
    var t, u := OnBye(cfg, s, clusterId, id), OnBye(cfg, Erased(s), clusterId, id);
    assert Erased(t).members == Erased(u).members;
    assert Erased(t).callbacks == Erased(u).callbacks;
  }

  lemma ErasedReply(s: State, call: nat, seqNo: Option<nat>, now: Time)
    requires call < |s.claims|
    ensures Erased(OnProbeReplied(s, call, seqNo, now)) == Erased(OnProbeReplied(Erased(s), call, seqNo, now))
  {
    var t, u := OnProbeReplied(s, call, seqNo, now), OnProbeReplied(Erased(s), call, seqNo, now);
    assert Erased(t).members == Erased(u).members && Erased(t).callbacks == Erased(u).callbacks;
  }

  lemma ErasedPill(s: State, call: nat, published: bool)
    requires call < |s.claims|
    ensures Erased(OnProbeUnanswered(s, call, published)) == Erased(OnProbeUnanswered(Erased(s), call, published))
  {
    var t, u := OnProbeUnanswered(s, call, published), OnProbeUnanswered(Erased(s), call, published);
    assert Erased(t).members == Erased(u).members && Erased(t).callbacks == Erased(u).callbacks;
  }

  lemma ErasedTwice(s: State)
    ensures Erased(Erased(s)) == Erased(s)
  {
    assert Erased(Erased(s)).members == Erased(s).members;
    assert Erased(Erased(s)).callbacks == Erased(s).callbacks;
  }

  // The protocol takes the same step whether or not it can see publication stamps.
  lemma StepErases(cfg: Config, s: State, e: Event)
    ensures Erased(Step(cfg, s, e)) == Erased(Step(cfg, Erased(s), ErasedEvent(e)))
  {
    ErasedTwice(s);
    match e
    case AliveMsg(b, now) => ErasedAlive(cfg, s, b, now);
    case ByeMsg(clusterId, id) => ErasedBye(cfg, s, clusterId, id);
    case PoisonMsg(_, _, _) =>
    case SweepTick(now, order) => ErasedSweep(cfg, s, now, order);
    case ProbeStart(_, _, _) =>
    case ProbeReplied(call, seqNo, now) => if call < |s.claims| { ErasedReply(s, call, seqNo, now); }
    case ProbeFailed(_) =>
    case ProbeUnanswered(call, published) => if call < |s.claims| { ErasedPill(s, call, published); }
  }

  /** Membership never depends on remote clocks: two runs whose heartbeats differ only
      in their publication stamps agree, at every step, on members, statuses, start
      and heartbeat times, on the callbacks, on claims and on pills. */
  lemma {:induction false} RemoteClocksDoNotMatter(cfg: Config, s: State, t: State, a: seq<Event>, b: seq<Event>)
    requires Erased(s) == Erased(t) && SameButPublication(a, b)
    ensures Erased(Run(cfg, s, a)) == Erased(Run(cfg, t, b))
    decreases |a|
  {
    if |a| > 0 {
      StepErases(cfg, s, a[0]);
      StepErases(cfg, t, b[0]);
      RemoteClocksDoNotMatter(cfg, Step(cfg, s, a[0]), Step(cfg, t, b[0]), a[1..], b[1..]);
    }
  }

  // ----------------------------------------------------------- bounded staleness

  // An event by which the registry hears from a member, and when.
  function Heard(cfg: Config, s: State, e: Event, id: MemberId): Option<Time> {
    match e
    case AliveMsg(b, now) =>
      if b.member == id && id != s.self && b.clusterId == cfg.clusterId && !IsDuplicate(s, b) then Some(now) else None
    case ProbeReplied(call, seqNo, now) =>
      if call in s.pending && call < |s.claims| && s.claims[call].key.member == id && seqNo.Some? && id in s.members
      then Some(now) else None
    case _ => None
  }

  // The last time, along a run, that the registry heard from a member.
  function LastHeard(cfg: Config, s: State, es: seq<Event>, id: MemberId, so: Time): Time
    decreases |es|
  {
    if |es| == 0 then so
    else
      LastHeard(cfg, Step(cfg, s, es[0]), es[1..], id,
                if Heard(cfg, s, es[0], id).Some? then Heard(cfg, s, es[0], id).value else so)
  }

  // The stored heartbeat time is the last time the member was heard.
  lemma {:induction false} HeartbeatTimeIsLastHeard(cfg: Config, s: State, es: seq<Event>, id: MemberId, so: Time)
    requires Inv(s) && id != s.self && (id in s.members ==> s.members[id].lastHeartbeatAt == so)
    ensures var t := Run(cfg, s, es);
            id in t.members ==> t.members[id].lastHeartbeatAt == LastHeard(cfg, s, es, id, so)
    decreases |es|
  {
    if |es| > 0 {
      var u := Step(cfg, s, es[0]);
      StepKeepsInv(cfg, s, es[0]);
      var heard := Heard(cfg, s, es[0], id);
      var next := if heard.Some? then heard.value else so;
      assert id in u.members ==> u.members[id].lastHeartbeatAt == next;
      HeartbeatTimeIsLastHeard(cfg, u, es[1..], id, next);
    }
  }

  // At every sweep the member had been heard from recently enough.
  predicate HeardBeforeSweeps(cfg: Config, s: State, es: seq<Event>, id: MemberId, so: Time)
    decreases |es|
  {
    |es| == 0
    || (&& (es[0].SweepTick? ==> es[0].now - so <= cfg.evictAfterMissed * cfg.heartbeatInterval)
        && HeardBeforeSweeps(cfg, Step(cfg, s, es[0]), es[1..], id,
                             if Heard(cfg, s, es[0], id).Some? then Heard(cfg, s, es[0], id).value else so))
  }

  /** A peer heard from within EvictAfterMissed heartbeat intervals of every sweep is
      never reported as timed out. */
  lemma {:induction false} HeardPeersStay(cfg: Config, s: State, es: seq<Event>, id: MemberId, so: Time)
    requires Inv(s) && id != s.self && (id in s.members ==> s.members[id].lastHeartbeatAt == so)
    requires HeardBeforeSweeps(cfg, s, es, id, so)
    ensures s.callbacks <= Run(cfg, s, es).callbacks
    ensures Left(id, HeartbeatTimeout) !in Run(cfg, s, es).callbacks[|s.callbacks|..]
    decreases |es|
  {
    if |es| > 0 {
      var e := es[0];
      var u := Step(cfg, s, e);
      StepKeepsInv(cfg, s, e);
      StepEmits(cfg, s, e);
      var next := if Heard(cfg, s, e, id).Some? then Heard(cfg, s, e, id).value else so;
      assert id in u.members ==> u.members[id].lastHeartbeatAt == next;
      HeardPeersStay(cfg, u, es[1..], id, next);
      NoTimeoutEmitted(cfg, s, e, id);
      var t := Run(cfg, s, es);
      assert t.callbacks[|s.callbacks|..] == Emitted(cfg, s, e) + t.callbacks[|u.callbacks|..];
    }
  }

  lemma NoTimeoutEmitted(cfg: Config, s: State, e: Event, id: MemberId)
    requires id in s.members && e.SweepTick? ==>
      e.now - s.members[id].lastHeartbeatAt <= cfg.evictAfterMissed * cfg.heartbeatInterval
    ensures Left(id, HeartbeatTimeout) !in Emitted(cfg, s, e)
  {
    StepEmits(cfg, s, e);
    if e.SweepTick? && IsSweepOrder(cfg, s, e.now, e.order) {
      assert Emitted(cfg, s, e) == Timeouts(e.order);
      assert id !in ExpiredSet(cfg, s, e.now);
      assert id !in IdSet(e.order);
    }
  }

  function EventTime(e: Event, otherwise: Time): Time {
    match e
    case AliveMsg(_, now) => now
    case SweepTick(now, _) => now
    case ProbeStart(_, _, claimedAt) => claimedAt
    case ProbeReplied(_, _, now) => now
    case _ => otherwise
  }

  // The clock never goes back, and sweeps walk the whole map.
  predicate Timely(cfg: Config, s: State, es: seq<Event>, t: Time)
    decreases |es|
  {
    |es| == 0
    || (&& t <= EventTime(es[0], t)
        && (es[0].SweepTick? ==> IsSweepOrder(cfg, s, es[0].now, es[0].order))
        && Timely(cfg, Step(cfg, s, es[0]), es[1..], EventTime(es[0], t)))
  }

  // The time of the last sweep of a run.
  function LastSweep(es: seq<Event>, before: Time): Time
    decreases |es|
  {
    if |es| == 0 then before else LastSweep(es[1..], if es[0].SweepTick? then es[0].now else before)
  }

  // No peer is older than the last sweep allows.
  ghost predicate SweptAt(cfg: Config, s: State, swept: Time) {
    forall id :: id in s.members && id != s.self ==> s.members[id].lastHeartbeatAt >= Threshold(cfg, swept)
  }

  lemma StepKeepsSwept(cfg: Config, s: State, e: Event, t: Time, swept: Time)
    requires cfg.Valid() && Inv(s) && SweptAt(cfg, s, swept) && swept <= t <= EventTime(e, t)
    requires e.SweepTick? ==> IsSweepOrder(cfg, s, e.now, e.order)
    ensures SweptAt(cfg, Step(cfg, s, e), if e.SweepTick? then e.now else swept)
  {
    assert cfg.evictAfterMissed * cfg.heartbeatInterval >= 0;
  }

  /** When a sweep has run within the last heartbeat interval, no peer that has been
      silent for longer than EvictAfterMissed + 1 intervals is still a member. */
  lemma {:induction false} NoLongSilentPeer(cfg: Config, s: State, es: seq<Event>, start: Time, swept: Time, now: Time,
                                            id: MemberId)
    requires cfg.Valid() && Inv(s) && SweptAt(cfg, s, swept) && swept <= start
    requires Timely(cfg, s, es, start)
    requires now - LastSweep(es, swept) <= cfg.heartbeatInterval
    requires id != s.self && id in Run(cfg, s, es).members
    ensures Run(cfg, s, es).members[id].lastHeartbeatAt >= now - (cfg.evictAfterMissed + 1) * cfg.heartbeatInterval
    decreases |es|
  {
    if |es| > 0 {
      var e := es[0];
      StepKeepsInv(cfg, s, e);
      StepKeepsSwept(cfg, s, e, start, swept);
      var last := if e.SweepTick? then e.now else swept;
      NoLongSilentPeer(cfg, Step(cfg, s, e), es[1..], EventTime(e, start), last, now, id);
    } else {
      assert (cfg.evictAfterMissed + 1) * cfg.heartbeatInterval
          == cfg.evictAfterMissed * cfg.heartbeatInterval + cfg.heartbeatInterval;
    }
  }

  // No callback from position `from` on says that the member left.
  ghost predicate NotLeft(cs: seq<Callback>, from: nat, id: MemberId) {
    forall i :: from <= i < |cs| ==> !(cs[i].Left? && cs[i].id == id)
  }

  lemma GoneMeansLeft(cfg: Config, s: State, e: Event, id: MemberId)
    requires id in s.members && id !in Step(cfg, s, e).members
    ensures !NotLeft(Step(cfg, s, e).callbacks, |s.callbacks|, id)
  {
    var cs := Step(cfg, s, e).callbacks;
    if e.SweepTick? {
      assert id in IdSet(e.order);
      var i :| 0 <= i < |e.order| && e.order[i] == id;
      assert cs[|s.callbacks| + i] == Left(id, HeartbeatTimeout);
    } else {
      assert cs[|s.callbacks|].Left? && cs[|s.callbacks|].id == id;
    }
  }

  /** The first-seen identity sticks: as long as a member has not left, its start time
      stays what it was. */
  lemma {:induction false} IdentitySticks(cfg: Config, s: State, es: seq<Event>, id: MemberId)
    requires Inv(s) && id in s.members && NotLeft(Run(cfg, s, es).callbacks, |s.callbacks|, id)
    ensures id in Run(cfg, s, es).members && Run(cfg, s, es).members[id].startedAt == s.members[id].startedAt
    decreases |es|
  {
    if |es| > 0 {
      var e := es[0];
      var u := Step(cfg, s, e);
      StepKeepsInv(cfg, s, e);
      StepEmits(cfg, s, e);
      CallbacksRebuildPeers(cfg, u, es[1..]);
      var cs := Run(cfg, s, es).callbacks;
      assert u.callbacks <= cs;
      assert NotLeft(u.callbacks, |s.callbacks|, id) by {
        forall i | |s.callbacks| <= i < |u.callbacks| ensures !(u.callbacks[i].Left? && u.callbacks[i].id == id) {
          assert u.callbacks[i] == cs[i];
        }
      }
      if id !in u.members { GoneMeansLeft(cfg, s, e, id); }
      IdentitySticks(cfg, u, es[1..], id);
    }
  }

  // The run without the heartbeats that, when they arrive, claim another start time.
  function WithoutDuplicates(cfg: Config, s: State, es: seq<Event>): seq<Event>
    decreases |es|
  {
    if |es| == 0 then []
    else
      (if es[0].AliveMsg? && IsDuplicate(s, es[0].beat) then [] else [es[0]])
      + WithoutDuplicates(cfg, Step(cfg, s, es[0]), es[1..])
  }

  /** Duplicate-id heartbeats extend nothing: a run with them, anywhere in it, ends
      exactly where the run without them does.
   */
  lemma {:induction false} DuplicatesAreInvisible(cfg: Config, s: State, es: seq<Event>)
    ensures Run(cfg, s, WithoutDuplicates(cfg, s, es)) == Run(cfg, s, es)
    decreases |es|
  {
    if |es| > 0 {
      var t := Step(cfg, s, es[0]);
      DuplicatesAreInvisible(cfg, t, es[1..]);
      var rest := WithoutDuplicates(cfg, t, es[1..]);
      if es[0].AliveMsg? && IsDuplicate(s, es[0].beat) {
        assert [] + rest == rest;
      } else {
        assert ([es[0]] + rest)[1..] == rest;
      }
    }
  }
}
