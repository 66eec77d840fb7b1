/** What the registry owes a peer, said of the messages that it received. */
module ClusterPeers {
  import opened Options
  import opened ClusterRegistry
  import opened ClusterProperties

  lemma {:induction false} RunThen(cfg: Config, s: State, es: seq<Event>, e: Event)
    ensures Run(cfg, s, es + [e]) == Step(cfg, Run(cfg, s, es), e)
    decreases |es|
  {
    if |es| == 0 {
      assert es + [e] == [e] && [e][1..] == [];
      assert Run(cfg, Step(cfg, s, e), []) == Step(cfg, s, e);
    } else {
      assert (es + [e])[1..] == es[1..] + [e];
      RunThen(cfg, Step(cfg, s, es[0]), es[1..], e);
    }
  }

  lemma RunUpTo(cfg: Config, s: State, es: seq<Event>, n: nat)
    requires n < |es|
    ensures Run(cfg, s, es[..n + 1]) == Step(cfg, Run(cfg, s, es[..n]), es[n])
  {
    assert es[..n + 1] == es[..n] + [es[n]];
    RunThen(cfg, s, es[..n], es[n]);
  }

  // A heartbeat of this member, in this cluster.
  predicate BeatOf(cfg: Config, e: Event, id: MemberId) {
    e.AliveMsg? && e.beat.clusterId == cfg.clusterId && e.beat.member == id
  }

  // ------------------------------------------------------------------ who joined

  // After n events the member is the one that joined with the k-th of them.
  ghost predicate JoinedBy(cfg: Config, s: State, es: seq<Event>, id: MemberId, n: nat, k: nat)
    requires n <= |es|
  {
    && k < n && BeatOf(cfg, es[k], id)
    && id in Run(cfg, s, es[..n]).members
    && Run(cfg, s, es[..n]).members[id].startedAt == es[k].beat.startedAt
    && id !in Run(cfg, s, es[..k]).members
    && (exists m :: Run(cfg, s, es[..k + 1]).callbacks == Run(cfg, s, es[..k]).callbacks + [Joined(id, m)]
                    && m.startedAt == es[k].beat.startedAt)
    && forall j :: k < j <= n ==> id in Run(cfg, s, es[..j]).members
  }

  /** In every run a peer is who its joining heartbeat said: it has the start time of the
      heartbeat that its joined callback answered, and has been a member ever since.
   */
  lemma {:induction false} PeerIsWhoJoined(cfg: Config, s: State, es: seq<Event>, id: MemberId, n: nat) returns (k: nat)
    requires n <= |es| && Inv(s) && id !in s.members && id in Run(cfg, s, es[..n]).members
    ensures JoinedBy(cfg, s, es, id, n, k)
    decreases n
  {
    assert es[..0] == [];
    if n == 0 { assert false; }
    var before, after := Run(cfg, s, es[..n - 1]), Run(cfg, s, es[..n]);
    RunUpTo(cfg, s, es, n - 1);
    RunKeepsInv(cfg, s, es[..n - 1]);
    if id in before.members {
      k := PeerIsWhoJoined(cfg, s, es, id, n - 1);
      StartStays(cfg, before, es[n - 1], id);
    } else {
      k := n - 1;
      JoinIsBeat(cfg, before, es[k], id);
    }
  }

  lemma StartStays(cfg: Config, s: State, e: Event, id: MemberId)
    requires Inv(s) && id in s.members && id in Step(cfg, s, e).members
    ensures Step(cfg, s, e).members[id].startedAt == s.members[id].startedAt
  {
  }

  lemma JoinIsBeat(cfg: Config, s: State, e: Event, id: MemberId)
    requires id !in s.members && id in Step(cfg, s, e).members
    ensures BeatOf(cfg, e, id)
    ensures var t := Step(cfg, s, e);
            && t.members[id].startedAt == e.beat.startedAt
            && t.callbacks == s.callbacks + [Joined(id, t.members[id])]
  {
  }

  // ------------------------------------------------------------------ timely peers

  // All heartbeats of the member tell the same start time.
  predicate OneStart(cfg: Config, es: seq<Event>, id: MemberId, startedAt: Time) {
    forall i :: 0 <= i < |es| && BeatOf(cfg, es[i], id) ==> es[i].beat.startedAt == startedAt
  }

  // The local clock does not go back between the messages that are stamped with it.
  predicate Clocked(es: seq<Event>) {
    forall i, j :: 0 <= i < j < |es| && es[i].AliveMsg? && (es[j].AliveMsg? || es[j].ProbeReplied?) ==>
      es[i].now <= es[j].now
  }

  // Once the member has sent a heartbeat, each sweep comes soon enough after one of them.
  ghost predicate BeatsInTime(cfg: Config, es: seq<Event>, id: MemberId) {
    forall i, k :: 0 <= k < i < |es| && es[i].SweepTick? && BeatOf(cfg, es[k], id) ==>
      exists j :: 0 <= j < i && BeatOf(cfg, es[j], id)
                  && es[i].now - es[j].now <= cfg.evictAfterMissed * cfg.heartbeatInterval
  }

  // Nobody says bye for the member in this cluster, and nobody probes it.
  predicate NeverDismissed(cfg: Config, es: seq<Event>, id: MemberId) {
    forall i :: 0 <= i < |es| ==>
      && !(es[i].ByeMsg? && es[i].clusterId == cfg.clusterId && es[i].member == id)
      && !(es[i].ProbeStart? && es[i].key.member == id)
  }

  // After n events: the member has its one start time, and is as fresh as its heartbeats.
  ghost predicate Fresh(cfg: Config, s: State, es: seq<Event>, id: MemberId, startedAt: Time, n: nat)
    requires n <= |es|
  {
    var t := Run(cfg, s, es[..n]);
    && Left(id, HeartbeatTimeout) !in t.callbacks
    && (id in t.members ==>
          && t.members[id].startedAt == startedAt
          && (exists k :: 0 <= k < n && BeatOf(cfg, es[k], id))
          && forall j :: 0 <= j < n && BeatOf(cfg, es[j], id) ==> t.members[id].lastHeartbeatAt >= es[j].now)
  }

  lemma FreshNext(cfg: Config, s: State, es: seq<Event>, id: MemberId, startedAt: Time, n: nat)
    requires n < |es| && Inv(s) && id != s.self && Fresh(cfg, s, es, id, startedAt, n)
    requires OneStart(cfg, es, id, startedAt) && Clocked(es) && BeatsInTime(cfg, es, id)
    ensures Fresh(cfg, s, es, id, startedAt, n + 1)
  {
    var t, e := Run(cfg, s, es[..n]), es[n];
    RunUpTo(cfg, s, es, n);
    RunKeepsInv(cfg, s, es[..n]);
    if e.SweepTick? && id in t.members { SweepSpares(cfg, s, es, id, startedAt, n); }
    NoTimeout(cfg, t, e, id);
    if id in Step(cfg, t, e).members {
      if id in t.members {
        FreshStep(cfg, t, e, id);
      } else {
        JoinIsBeat(cfg, t, e, id);
      }
    }
  }

  lemma SweepSpares(cfg: Config, s: State, es: seq<Event>, id: MemberId, startedAt: Time, n: nat)
    requires n < |es| && Fresh(cfg, s, es, id, startedAt, n) && BeatsInTime(cfg, es, id)
    requires es[n].SweepTick? && id in Run(cfg, s, es[..n]).members
    ensures es[n].now - Run(cfg, s, es[..n]).members[id].lastHeartbeatAt <= cfg.evictAfterMissed * cfg.heartbeatInterval
  {
    var k :| 0 <= k < n && BeatOf(cfg, es[k], id);
    var j :| 0 <= j < n && BeatOf(cfg, es[j], id)
             && es[n].now - es[j].now <= cfg.evictAfterMissed * cfg.heartbeatInterval;
  }

  lemma NoTimeout(cfg: Config, t: State, e: Event, id: MemberId)
    requires Left(id, HeartbeatTimeout) !in t.callbacks
    requires id in t.members && e.SweepTick? ==>
      e.now - t.members[id].lastHeartbeatAt <= cfg.evictAfterMissed * cfg.heartbeatInterval
    ensures Left(id, HeartbeatTimeout) !in Step(cfg, t, e).callbacks
  {
    NoTimeoutEmitted(cfg, t, e, id);
    StepEmits(cfg, t, e);
  }

  // A heartbeat counts when it tells the stored start time; a probe reply counts; nothing
  // else touches the heartbeat time.
  lemma FreshStep(cfg: Config, t: State, e: Event, id: MemberId)
    requires Inv(t) && id != t.self && id in t.members && id in Step(cfg, t, e).members
    ensures var u := Step(cfg, t, e);
            && u.members[id].startedAt == t.members[id].startedAt
            && (BeatOf(cfg, e, id) && e.beat.startedAt == t.members[id].startedAt ==>
                  u.members[id].lastHeartbeatAt == e.now)
            && (u.members[id].lastHeartbeatAt == t.members[id].lastHeartbeatAt
                || ((e.AliveMsg? || e.ProbeReplied?) && u.members[id].lastHeartbeatAt == e.now))
  {
  }

  lemma {:induction false} AlwaysFresh(cfg: Config, s: State, es: seq<Event>, id: MemberId, startedAt: Time, n: nat)
    requires n <= |es| && Inv(s) && id != s.self && id !in s.members && s.callbacks == []
    requires OneStart(cfg, es, id, startedAt) && Clocked(es) && BeatsInTime(cfg, es, id)
    ensures Fresh(cfg, s, es, id, startedAt, n)
    decreases n
  {
    if n == 0 {
      assert es[..0] == [];
    } else {
      AlwaysFresh(cfg, s, es, id, startedAt, n - 1);
      FreshNext(cfg, s, es, id, startedAt, n - 1);
    }
  }

  /** A peer that reports in time is never timed out: if all its heartbeats tell one start
      time and each sweep comes within EvictAfterMissed heartbeat intervals of one of
      them, no callback ever says that it did.
   */
  lemma TimelyPeerStays(cfg: Config, self: MemberId, selfStart: Time, version: string, es: seq<Event>,
                        id: MemberId, startedAt: Time)
    requires id != self && OneStart(cfg, es, id, startedAt) && Clocked(es) && BeatsInTime(cfg, es, id)
    ensures Left(id, HeartbeatTimeout) !in Run(cfg, NewRegistry(self, selfStart, version), es).callbacks
  {
    var s := NewRegistry(self, selfStart, version);
    AlwaysFresh(cfg, s, es, id, startedAt, |es|);
    assert es[..|es|] == es;
  }

  // After n events the member is there if it ever reported, and no call is out to pill it.
  ghost predicate Present(cfg: Config, s: State, es: seq<Event>, id: MemberId, n: nat)
    requires n <= |es|
  {
    var t := Run(cfg, s, es[..n]);
    && (forall i :: 0 <= i < |t.claims| ==> t.claims[i].key.member != id)
    && ((exists k :: 0 <= k < n && BeatOf(cfg, es[k], id)) ==> id in t.members)
  }

  lemma PresentNext(cfg: Config, s: State, es: seq<Event>, id: MemberId, startedAt: Time, n: nat)
    requires n < |es| && Inv(s) && id != s.self && Fresh(cfg, s, es, id, startedAt, n) && Present(cfg, s, es, id, n)
    requires OneStart(cfg, es, id, startedAt) && BeatsInTime(cfg, es, id) && NeverDismissed(cfg, es, id)
    ensures Present(cfg, s, es, id, n + 1)
  {
    var t, e := Run(cfg, s, es[..n]), es[n];
    RunUpTo(cfg, s, es, n);
    RunKeepsInv(cfg, s, es[..n]);
    if id in t.members {
      if e.SweepTick? { SweepSpares(cfg, s, es, id, startedAt, n); }
      NotDropped(cfg, t, e, id);
    } else if BeatOf(cfg, e, id) {
      assert id in Step(cfg, t, e).members;
    }
  }

  lemma NotDropped(cfg: Config, t: State, e: Event, id: MemberId)
    requires id in t.members && (forall i :: 0 <= i < |t.claims| ==> t.claims[i].key.member != id)
    requires !(e.ByeMsg? && e.clusterId == cfg.clusterId && e.member == id)
    requires e.SweepTick? ==> e.now - t.members[id].lastHeartbeatAt <= cfg.evictAfterMissed * cfg.heartbeatInterval
    ensures id in Step(cfg, t, e).members
  {
  }

  lemma {:induction false} AlwaysPresent(cfg: Config, s: State, es: seq<Event>, id: MemberId, startedAt: Time, n: nat)
    requires n <= |es| && Inv(s) && id != s.self && id !in s.members && s.callbacks == [] && s.claims == []
    requires OneStart(cfg, es, id, startedAt) && Clocked(es) && BeatsInTime(cfg, es, id) && NeverDismissed(cfg, es, id)
    ensures Present(cfg, s, es, id, n)
    decreases n
  {
    assert es[..0] == [];
    if n > 0 {
      AlwaysPresent(cfg, s, es, id, startedAt, n - 1);
      AlwaysFresh(cfg, s, es, id, startedAt, n - 1);
      PresentNext(cfg, s, es, id, startedAt, n - 1);
    }
  }

  lemma ReportedIsThere(cfg: Config, s: State, es: seq<Event>, id: MemberId, startedAt: Time, k: nat)
    requires k < |es| && BeatOf(cfg, es[k], id)
    requires Fresh(cfg, s, es, id, startedAt, |es|) && Present(cfg, s, es, id, |es|)
    ensures var t := Run(cfg, s, es);
            id in t.members && t.members[id].startedAt == startedAt && t.members[id].lastHeartbeatAt >= es[k].now
  {
    assert es[..|es|] == es;
  }

  /** And it is a member from its first heartbeat on, with that start time, as long as
      nobody dismisses or probes it.
   */
  lemma TimelyPeerIsMember(cfg: Config, self: MemberId, selfStart: Time, version: string, es: seq<Event>,
                           id: MemberId, startedAt: Time, k: nat)
    requires id != self && OneStart(cfg, es, id, startedAt) && Clocked(es) && BeatsInTime(cfg, es, id)
    requires NeverDismissed(cfg, es, id) && k < |es| && BeatOf(cfg, es[k], id)
    ensures var t := Run(cfg, NewRegistry(self, selfStart, version), es);
            id in t.members && t.members[id].startedAt == startedAt && t.members[id].lastHeartbeatAt >= es[k].now
  {
    var s := NewRegistry(self, selfStart, version);
    AlwaysPresent(cfg, s, es, id, startedAt, |es|);
    AlwaysFresh(cfg, s, es, id, startedAt, |es|);
    ReportedIsThere(cfg, s, es, id, startedAt, k);
  }
}
