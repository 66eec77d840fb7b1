/** The cluster membership registry: heartbeats, byes, eviction sweeps, probes and
    poison pills. Each handler is one step; times are nanoseconds of the local
    monotonic clock, except the remote stamps that a heartbeat carries.
 */
module ClusterRegistry {
  import opened Options

  type MemberId = string
  type Time = int

  datatype Status = Unknown | Alive | Stale | Evicted | Pilled

  datatype Member = Member(
    status: Status,
    startedAt: Time,
    lastHeartbeatAt: Time,
    lastPublishedAt: Time,
    version: string,
    lastInvalidationSeq: nat,
    skew: int)

  datatype LeaveReason = GracefulBye | HeartbeatTimeout | LeftPilled

  datatype PillReason = MissedInvalidationAck | MissedProbeResponse | OperatorEvict | ClusterIdMismatch

  datatype PillKey = PillKey(member: MemberId, reason: PillReason)

  datatype Callback =
    | Joined(id: MemberId, member: Member)
    | Left(id: MemberId, why: LeaveReason)
    | StatusChanged(id: MemberId, status: Status)

  // One ProbeAndPill call that passed the rate limit: when it claimed its slot, and
  // whether it went on to publish a poison.
  datatype Claim = Claim(key: PillKey, at: Time, spent: bool)

  datatype Config = Config(clusterId: string, heartbeatInterval: Time, evictAfterMissed: int, pillRateLimit: Time) {
    predicate Valid() {
      heartbeatInterval > 0 && evictAfterMissed > 0 && pillRateLimit > 0
    }
  }

  const SECOND: Time := 1_000_000_000

  function Defaults(cfg: Config): (d: Config)
    ensures d.Valid() && d.clusterId == cfg.clusterId
    ensures d.heartbeatInterval == if cfg.heartbeatInterval > 0 then cfg.heartbeatInterval else 5_000_000_000
    ensures d.evictAfterMissed == if cfg.evictAfterMissed > 0 then cfg.evictAfterMissed else 3
    ensures d.pillRateLimit == if cfg.pillRateLimit > 0 then cfg.pillRateLimit else 60_000_000_000
  {
    cfg.(heartbeatInterval := if cfg.heartbeatInterval <= 0 then 5 * SECOND else cfg.heartbeatInterval,
         evictAfterMissed := if cfg.evictAfterMissed <= 0 then 3 else cfg.evictAfterMissed,
         pillRateLimit := if cfg.pillRateLimit <= 0 then 60 * SECOND else cfg.pillRateLimit)
  }

  // `claims` and `pending` stand for the ProbeAndPill calls so far and those still
  // waiting for their probe; a call is named by its position in `claims`.
  datatype State = State(
    self: MemberId,
    members: map<MemberId, Member>,
    rate: map<PillKey, Time>,
    claims: seq<Claim>,
    pending: set<nat>,
    pills: seq<PillKey>,
    triggered: seq<(PillReason, MemberId)>,
    callbacks: seq<Callback>)

  function NewRegistry(self: MemberId, startedAt: Time, version: string): State {
    State(self, map[self := Member(Alive, startedAt, 0, 0, version, 0, 0)], map[], [], {}, [], [], [])
  }

  predicate IsLive(m: Member) {
    m.status == Alive || m.status == Stale
  }

  function Live(s: State): set<MemberId> {
    set id | id in s.members && IsLive(s.members[id])
  }

  datatype Heartbeat = Heartbeat(
    clusterId: string, member: MemberId, startedAt: Time, publishedAt: Time, version: string, seqNo: nat)

  datatype Event =
    | AliveMsg(beat: Heartbeat, now: Time)
    | ByeMsg(clusterId: string, member: MemberId)
    | PoisonMsg(clusterId: string, reason: PillReason, coordinator: MemberId)
    | SweepTick(now: Time, order: seq<MemberId>)
    | ProbeStart(key: PillKey, checkedAt: Time, claimedAt: Time)
    | ProbeReplied(call: nat, seqNo: Option<nat>, now: Time)
    | ProbeFailed(call: nat)
    | ProbeUnanswered(call: nat, published: bool)

  // ------------------------------------------------------------------- handlers

  function Abs(x: int): int {
    if x < 0 then -x else x
  }

  // A different process re-using a member id that is already known.
  predicate IsDuplicate(s: State, b: Heartbeat) {
    b.member in s.members && s.members[b.member].startedAt != 0 && b.startedAt != s.members[b.member].startedAt
  }

  function OnAlive(cfg: Config, s: State, b: Heartbeat, now: Time): State {
    if b.clusterId != cfg.clusterId || b.member == s.self || IsDuplicate(s, b) then s
    else
      var skew := Abs(now - b.publishedAt);
      if b.member !in s.members then
        var m := Member(Alive, b.startedAt, now, b.publishedAt, b.version, b.seqNo, skew);
        s.(members := s.members[b.member := m], callbacks := s.callbacks + [Joined(b.member, m)])
      else
        var known := s.members[b.member];
        var revived := known.status == Stale || known.status == Evicted;
        var m := known.(lastHeartbeatAt := now, lastPublishedAt := b.publishedAt, version := b.version,
                        lastInvalidationSeq := b.seqNo, skew := skew,
                        status := if revived then Alive else known.status);
        s.(members := s.members[b.member := m],
           callbacks := s.callbacks + (if revived then [StatusChanged(b.member, Alive)] else []))
  }

  function OnBye(cfg: Config, s: State, clusterId: string, id: MemberId): State {
    if clusterId != cfg.clusterId || id == s.self || id !in s.members then s
    else s.(members := s.members - {id}, callbacks := s.callbacks + [Left(id, GracefulBye)])
  }

  function OnPoison(cfg: Config, s: State, clusterId: string, reason: PillReason, coordinator: MemberId): State {
    if clusterId != cfg.clusterId then s else s.(triggered := s.triggered + [(reason, coordinator)])
  }

  function Threshold(cfg: Config, now: Time): Time {
    now - cfg.evictAfterMissed * cfg.heartbeatInterval
  }

  predicate Expired(cfg: Config, s: State, id: MemberId, now: Time) {
    id in s.members && id != s.self && s.members[id].lastHeartbeatAt < Threshold(cfg, now)
    && (s.members[id].status == Alive || s.members[id].status == Stale)
  }

  function ExpiredSet(cfg: Config, s: State, now: Time): set<MemberId> {
    set id | id in s.members && Expired(cfg, s, id, now)
  }

  function IdSet(ids: seq<MemberId>): set<MemberId> {
    set id | id in ids
  }

  // The order in which the map iteration meets the expired members.
  predicate IsSweepOrder(cfg: Config, s: State, now: Time, order: seq<MemberId>) {
    && (forall i, j :: 0 <= i < j < |order| ==> order[i] != order[j])
    && IdSet(order) == ExpiredSet(cfg, s, now)
  }

  function Timeouts(order: seq<MemberId>): seq<Callback> {
    seq(|order|, i requires 0 <= i < |order| => Left(order[i], HeartbeatTimeout))
  }

  function OnSweep(cfg: Config, s: State, now: Time, order: seq<MemberId>): State {
    if !IsSweepOrder(cfg, s, now, order) then s
    else s.(members := s.members - ExpiredSet(cfg, s, now), callbacks := s.callbacks + Timeouts(order))
  }

  predicate RateLimited(cfg: Config, s: State, key: PillKey, checkedAt: Time) {
    key in s.rate && checkedAt - s.rate[key] < cfg.pillRateLimit
  }

  // The check and the claim are one critical section; the clock is read twice in it.
  function OnProbeStart(cfg: Config, s: State, key: PillKey, checkedAt: Time, claimedAt: Time): State {
    if key.member == s.self || claimedAt < checkedAt || RateLimited(cfg, s, key, checkedAt) then s
    else s.(rate := s.rate[key := claimedAt],
            claims := s.claims + [Claim(key, claimedAt, false)],
            pending := s.pending + {|s.claims|})
  }

  function OnProbeReplied(s: State, call: nat, seqNo: Option<nat>, now: Time): State
    requires call < |s.claims|
  {
    var id := s.claims[call].key.member;
    var done := s.(pending := s.pending - {call});
    if seqNo.None? || id !in s.members then done
    else
      var known := s.members[id];
      done.(members := s.members[id := known.(lastHeartbeatAt := now, lastInvalidationSeq := seqNo.value,
                                              status := if known.status == Stale then Alive else known.status)])
  }

  // No answer: publish the poison, then evict and announce. The announcement is made
  // whether or not the target was a member.
  function OnProbeUnanswered(s: State, call: nat, published: bool): State
    requires call < |s.claims|
  {
    var key := s.claims[call].key;
    var done := s.(pending := s.pending - {call});
    if !published then done
    else done.(claims := s.claims[call := s.claims[call].(spent := true)],
               pills := s.pills + [key],
               members := s.members - {key.member},
               callbacks := s.callbacks + [Left(key.member, LeftPilled)])
  }

  function Step(cfg: Config, s: State, e: Event): State {
    match e
    case AliveMsg(b, now) => OnAlive(cfg, s, b, now)
    case ByeMsg(clusterId, id) => OnBye(cfg, s, clusterId, id)
    case PoisonMsg(clusterId, reason, coordinator) => OnPoison(cfg, s, clusterId, reason, coordinator)
    case SweepTick(now, order) => OnSweep(cfg, s, now, order)
    case ProbeStart(key, checkedAt, claimedAt) => OnProbeStart(cfg, s, key, checkedAt, claimedAt)
    case ProbeReplied(call, seqNo, now) =>
      if call in s.pending && call < |s.claims| then OnProbeReplied(s, call, seqNo, now) else s
    case ProbeFailed(call) => s.(pending := s.pending - {call})
    case ProbeUnanswered(call, published) =>
      if call in s.pending && call < |s.claims| then OnProbeUnanswered(s, call, published) else s
  }

  function Run(cfg: Config, s: State, es: seq<Event>): State
    decreases |es|
  {
    if |es| == 0 then s else Run(cfg, Step(cfg, s, es[0]), es[1..])
  }
}
