/** The registry as it runs: a mutable member map under one lock, and the readers. */
module ClusterService {
  import opened Options
  import opened ClusterRegistry

  datatype ProbeOutcome = Replied(seqNo: Option<nat>, at: Time) | Failed | Unanswered(publishOk: bool)

  datatype PillResult =
    | CannotPillSelf | PillRateLimited | ProbeSucceeded | ProbeError | PublishFailed | PillIssued

  class Registry {
    const cfg: Config
    const self: MemberId
    var members: map<MemberId, Member>
    var rate: map<PillKey, Time>
    var claims: seq<Claim>
    var pending: set<nat>
    var pills: seq<PillKey>
    var triggered: seq<(PillReason, MemberId)>
    var callbacks: seq<Callback>

    ghost function View(): State
      reads this
    {
      State(self, members, rate, claims, pending, pills, triggered, callbacks)
    }

    constructor (cfg: Config, self: MemberId, startedAt: Time, version: string)
      ensures this.cfg == Defaults(cfg) && this.self == self
      ensures members == map[self := Member(Alive, startedAt, 0, 0, version, 0, 0)]
      ensures rate == map[] && claims == [] && pending == {} && pills == [] && triggered == [] && callbacks == []
      ensures View() == NewRegistry(self, startedAt, version)
    {
      this.cfg, this.self := Defaults(cfg), self;
      members := map[self := Member(Alive, startedAt, 0, 0, version, 0, 0)];
      rate, claims, pending := map[], [], {};
      pills, triggered, callbacks := [], [], [];
    }

    method Notify(c: Callback)
      modifies this`callbacks
      ensures callbacks == old(callbacks) + [c]
    {
      callbacks := callbacks + [c];
    }

    method HandleAlive(b: Heartbeat, now: Time)
      modifies this
      ensures unchanged(`rate, `claims, `pending, `pills, `triggered)
      ensures b.clusterId != cfg.clusterId || b.member == self ==> unchanged(this)
      ensures b.clusterId == cfg.clusterId && b.member != self && b.member !in old(members) ==>
        var m := Member(Alive, b.startedAt, now, b.publishedAt, b.version, b.seqNo, Abs(now - b.publishedAt));
        members == old(members)[b.member := m] && callbacks == old(callbacks) + [Joined(b.member, m)]
      ensures b.clusterId == cfg.clusterId && b.member != self && b.member in old(members) ==>
        var was := old(members)[b.member];
        if was.startedAt != 0 && was.startedAt != b.startedAt then unchanged(this)
        else
          var status := if was.status == Stale || was.status == Evicted then Alive else was.status;
          && members == old(members)[b.member := Member(status, was.startedAt, now, b.publishedAt, b.version, b.seqNo,
                                                        Abs(now - b.publishedAt))]
          && callbacks == old(callbacks) + (if status == was.status then [] else [StatusChanged(b.member, Alive)])
      ensures View() == Step(cfg, old(View()), AliveMsg(b, now))
    {
      if b.clusterId != cfg.clusterId { return; }
      if b.member == self { return; }
      var skew := Abs(now - b.publishedAt);
      var present := b.member in members;
      if present && members[b.member].startedAt != 0 && b.startedAt != members[b.member].startedAt { return; }
      if !present {
        var m := Member(Alive, b.startedAt, now, b.publishedAt, b.version, b.seqNo, skew);
        members := members[b.member := m];
        Notify(Joined(b.member, m));
        return;
      }
      var prev := members[b.member].status;
      var m := members[b.member].(lastHeartbeatAt := now, lastPublishedAt := b.publishedAt, version := b.version,
                                  lastInvalidationSeq := b.seqNo, skew := skew);
      if m.status == Stale || m.status == Evicted { m := m.(status := Alive); }
      members := members[b.member := m];
      if prev != m.status { Notify(StatusChanged(b.member, Alive)); }
    }

    method HandleBye(clusterId: string, id: MemberId)
      modifies this
      ensures if clusterId == cfg.clusterId && id != self && id in old(members)
              then members == old(members) - {id} && callbacks == old(callbacks) + [Left(id, GracefulBye)]
              else unchanged(this)
      ensures View() == Step(cfg, old(View()), ByeMsg(clusterId, id))
    {
      if clusterId != cfg.clusterId { return; }
      if id == self { return; }
      if id !in members { return; }
      members := members - {id};
      Notify(Left(id, GracefulBye));
    }

    method HandlePoison(clusterId: string, reason: PillReason, coordinator: MemberId)
      modifies this
      ensures triggered == old(triggered) + (if clusterId == cfg.clusterId then [(reason, coordinator)] else [])
      ensures View() == Step(cfg, old(View()), PoisonMsg(clusterId, reason, coordinator))
    {
      if clusterId != cfg.clusterId { return; }
      triggered := triggered + [(reason, coordinator)];
    }

    // The locked part of the sweep: walk the map in some order, drop what has expired.
    method DropExpired(now: Time) returns (order: seq<MemberId>)
      modifies this`members
      ensures forall id :: id in members <==>
        && id in old(members)
        && !(id != self && old(members)[id].lastHeartbeatAt < now - cfg.evictAfterMissed * cfg.heartbeatInterval
             && (old(members)[id].status == Alive || old(members)[id].status == Stale))
      ensures forall id :: id in members ==> members[id] == old(members)[id]
      ensures forall id :: id in order <==> id in old(members) && id !in members
      ensures forall i, j :: 0 <= i < j < |order| ==> order[i] != order[j]
      ensures IsSweepOrder(cfg, old(View()), now, order)
      ensures members == old(members) - ExpiredSet(cfg, old(View()), now)
    {
      ghost var before := View();
      order := [];
      var threshold := now - cfg.evictAfterMissed * cfg.heartbeatInterval;
      var left := members.Keys;
      while left != {}
        invariant left <= before.members.Keys
        invariant forall id :: id in order <==> id !in left && Expired(cfg, before, id, now)
        invariant forall i, j :: 0 <= i < j < |order| ==> order[i] != order[j]
        invariant members == map id | id in before.members && id !in order :: before.members[id]
        decreases left
      {
        var id :| id in left;
        var m := members[id];
        if id != self && m.lastHeartbeatAt < threshold && (m.status == Alive || m.status == Stale) {
          members := members - {id};
          order := order + [id];
        }
        left := left - {id};
      }
    }

    method SweepEvictions(now: Time) returns (order: seq<MemberId>)
      modifies this
      ensures forall id :: id in members <==>
        && id in old(members)
        && !(id != self && old(members)[id].lastHeartbeatAt < now - cfg.evictAfterMissed * cfg.heartbeatInterval
             && (old(members)[id].status == Alive || old(members)[id].status == Stale))
      ensures forall id :: id in members ==> members[id] == old(members)[id]
      ensures forall id :: id in order <==> id in old(members) && id !in members
      ensures |callbacks| == |old(callbacks)| + |order| && old(callbacks) <= callbacks
      ensures forall i :: 0 <= i < |order| ==> callbacks[|old(callbacks)| + i] == Left(order[i], HeartbeatTimeout)
      ensures IsSweepOrder(cfg, old(View()), now, order)
      ensures View() == Step(cfg, old(View()), SweepTick(now, order))
    {
      order := DropExpired(now);
      for i := 0 to |order|
        invariant callbacks == old(callbacks) + Timeouts(order[..i])
        invariant members == old(members) - ExpiredSet(cfg, old(View()), now)
        invariant unchanged(`rate, `claims, `pending, `pills, `triggered)
      {
        Notify(Left(order[i], HeartbeatTimeout));
        assert Timeouts(order[..i + 1]) == Timeouts(order[..i]) + [Left(order[i], HeartbeatTimeout)];
      }
      assert order[..|order|] == order;
    }

    // The claim: check the window and write the timestamp under one lock.
    method ClaimPill(key: PillKey, checkedAt: Time, claimedAt: Time) returns (refusal: Option<PillResult>, call: nat)
      requires checkedAt <= claimedAt
      modifies this
      ensures refusal.None? <==>
        key.member != self && (key in old(rate) ==> checkedAt - old(rate)[key] >= cfg.pillRateLimit)
      ensures refusal.None? ==>
        && rate == old(rate)[key := claimedAt] && claims == old(claims) + [Claim(key, claimedAt, false)]
        && pending == old(pending) + {|old(claims)|}
      ensures refusal.Some? ==> unchanged(this)
      ensures unchanged(`members, `pills, `triggered, `callbacks)
      ensures View() == Step(cfg, old(View()), ProbeStart(key, checkedAt, claimedAt))
      ensures refusal == Some(CannotPillSelf) <==> key.member == self
      ensures refusal == Some(PillRateLimited) <==> key.member != self && RateLimited(cfg, old(View()), key, checkedAt)
      ensures refusal.None? ==> call == |old(claims)| && call in pending && call < |claims| && claims[call].key == key
      ensures refusal.Some? ==> refusal.value == CannotPillSelf || refusal.value == PillRateLimited
    {
      call := |claims|;
      if key.member == self { return Some(CannotPillSelf), call; }
      if key in rate && checkedAt - rate[key] < cfg.pillRateLimit { return Some(PillRateLimited), call; }
      rate := rate[key := claimedAt];
      claims := claims + [Claim(key, claimedAt, false)];
      pending := pending + {call};
      return None, call;
    }

    // The rest of ProbeAndPill, once the probe has come back.
    method FinishProbe(call: nat, o: ProbeOutcome) returns (r: PillResult)
      requires call in pending && call < |claims|
      modifies this
      ensures pending == old(pending) - {call} && unchanged(`rate, `triggered)
      ensures o.Failed? ==> r == ProbeError && unchanged(`members, `pills, `claims, `callbacks)
      ensures o.Replied? ==>
        var id := old(claims)[call].key.member;
        && r == ProbeSucceeded && unchanged(`pills, `claims, `callbacks)
        && (o.seqNo.None? || id !in old(members) ==> members == old(members))
        && (o.seqNo.Some? && id in old(members) ==>
              var was := old(members)[id];
              members == old(members)[id := was.(lastHeartbeatAt := o.at, lastInvalidationSeq := o.seqNo.value,
                                                 status := if was.status == Stale then Alive else was.status)])
      ensures o == Unanswered(false) ==> r == PublishFailed && unchanged(`members, `pills, `claims, `callbacks)
      ensures o == Unanswered(true) ==>
        var key := old(claims)[call].key;
        && r == PillIssued && pills == old(pills) + [key] && members == old(members) - {key.member}
        && callbacks == old(callbacks) + [Left(key.member, LeftPilled)]
        && claims == old(claims)[call := old(claims)[call].(spent := true)]
      ensures View() == Step(cfg, old(View()), match o
        case Replied(seqNo, at) => ProbeReplied(call, seqNo, at)
        case Failed => ProbeFailed(call)
        case Unanswered(ok) => ProbeUnanswered(call, ok))
      ensures r == PillIssued <==> o == Unanswered(true)
      ensures r == PillIssued <==> |pills| == |old(pills)| + 1
    {
      pending := pending - {call};
      var id := claims[call].key.member;
      match o
      case Replied(seqNo, at) =>
        if seqNo.Some? && id in members {
          var m := members[id].(lastHeartbeatAt := at, lastInvalidationSeq := seqNo.value);
          if m.status == Stale { m := m.(status := Alive); }
          members := members[id := m];
        }
        return ProbeSucceeded;
      case Failed => return ProbeError;
      case Unanswered(publishOk) =>
        if !publishOk { return PublishFailed; }
        pills := pills + [claims[call].key];
        claims := claims[call := claims[call].(spent := true)];
        members := members - {id};
        Notify(Left(id, LeftPilled));
        return PillIssued;
    }

    // Each live member once: as many as LiveCount says.
    method LiveMembers() returns (out: seq<MemberId>)
      ensures forall id :: id in out <==> id in members && (members[id].status == Alive || members[id].status == Stale)
      ensures |out| == |set id | id in members && (members[id].status == Alive || members[id].status == Stale)|
      ensures IdSet(out) == Live(View()) && |out| == |Live(View())|
    {
      out := [];
      ghost var seen: set<MemberId> := {};
      var left := members.Keys;
      while left != {}
        invariant left <= members.Keys
        invariant seen == set id | id in members && id !in left && IsLive(members[id])
        invariant |out| == |seen| && forall id :: id in out <==> id in seen
        decreases left
      {
        var id :| id in left;
        if members[id].status == Alive || members[id].status == Stale {
          out := out + [id];
          seen := seen + {id};
        }
        left := left - {id};
      }
      assert seen == Live(View());
      assert seen == set id | id in members && (members[id].status == Alive || members[id].status == Stale);
    }

    method LiveCount() returns (n: nat)
      ensures n == |set id | id in members && (members[id].status == Alive || members[id].status == Stale)|
      ensures n == |Live(View())|
    {
      n := 0;
      ghost var seen: set<MemberId> := {};
      var left := members.Keys;
      while left != {}
        invariant left <= members.Keys
        invariant seen == set id | id in members && id !in left && IsLive(members[id])
        invariant n == |seen|
        decreases left
      {
        var id :| id in left;
        if members[id].status == Alive || members[id].status == Stale {
          n := n + 1;
          seen := seen + {id};
        }
        left := left - {id};
      }
      assert seen == Live(View());
      assert seen == set id | id in members && (members[id].status == Alive || members[id].status == Stale);
    }
  }
}
