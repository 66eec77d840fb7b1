/** Guest character genesis and reaping as a transition system.

    Any number of genesis transactions, reap runs, player creations and edits
    interleave. An attempted action that is blocked or does not apply leaves the
    world as it is, so every sequence of actions is a run.

    Genesis is split at its statements. The guard reads the player row FOR UPDATE
    and keeps that lock until the transaction ends; when the row is missing it
    passes without a lock. The insert checks the foreign key and pins the row
    against deletion. What a transaction wrote is invisible until it commits.
 */
module GuestProtocol {
  import opened CharacterDb
  import opened Naturals

  type TxId = nat
  type RunId = nat

  datatype Stage = Begun | Guarded | Inserted | Enveloped

  // `locked`: the guard found the player row and holds its lock.
  datatype Genesis = Genesis(owner: PlayerId, character: CharacterId, bind: bool, stage: Stage, locked: bool)

  datatype ReapStage = Marked | Listed(todo: seq<(CharacterId, nat)>)

  datatype Reap = Reap(player: PlayerId, stage: ReapStage)

  // `created` and `minted` are the identifiers handed out so far (identifiers are
  // never reused). `early` collects the characters whose genesis was begun for a
  // player that had not been created yet; `cascaded` those that a player delete
  // removed through the foreign key.
  datatype World = World(
    db: Db,
    genesis: map<TxId, Genesis>,
    reaps: map<RunId, Reap>,
    created: set<PlayerId>,
    minted: set<CharacterId>,
    early: set<CharacterId>,
    cascaded: set<CharacterId>)

  const INITIAL := World(EMPTY_DB, map[], map[], {}, {}, {}, {})

  datatype Action =
    | CreatePlayer(player: PlayerId, guest: bool)
    | BeginGenesis(tx: TxId, owner: PlayerId, character: CharacterId, bind: bool)
    | Guard(tx: TxId)
    | Insert(tx: TxId)
    | WriteEnvelope(tx: TxId)
    | CommitTx(tx: TxId)
    | AbortTx(tx: TxId)
    | MarkReaping(run: RunId, player: PlayerId)
    | ListCharacters(run: RunId, todo: seq<(CharacterId, nat)>)
    | ReapNext(run: RunId)
    | DeletePlayer(run: RunId)
    | FailReap(run: RunId)
    | EditCharacter(character: CharacterId)
    | SetProperty(character: CharacterId, name: string)

  // A transaction other than `tx` holds the player row FOR UPDATE.
  predicate RowLocked(w: World, p: PlayerId, tx: TxId) {
    exists t :: t in w.genesis && t != tx && w.genesis[t].owner == p && w.genesis[t].locked
  }

  // A transaction pins the player row against deletion.
  predicate RowPinned(w: World, p: PlayerId) {
    exists t :: t in w.genesis && w.genesis[t].owner == p
             && (w.genesis[t].locked || w.genesis[t].stage in {Inserted, Enveloped})
  }

  predicate AnyRowLock(w: World, p: PlayerId) {
    exists t :: t in w.genesis && w.genesis[t].owner == p && w.genesis[t].locked
  }

  // A complete listing: every character of the player once, at its stored version.
  predicate IsListing(db: Db, p: PlayerId, todo: seq<(CharacterId, nat)>) {
    && (forall i :: 0 <= i < |todo| ==>
          todo[i].0 in CharactersOf(db, p) && todo[i].1 == db.characters[todo[i].0].version)
    && (forall i, j :: 0 <= i < j < |todo| ==> todo[i].0 != todo[j].0)
    && (forall c :: c in CharactersOf(db, p) ==> c in Ids(todo))
  }

  function Ids(todo: seq<(CharacterId, nat)>): set<CharacterId> {
    set i | 0 <= i < |todo| :: todo[i].0
  }

  function DropTx(w: World, tx: TxId): World {
    w.(genesis := w.genesis - {tx})
  }

  function DropRun(w: World, run: RunId): World {
    w.(reaps := w.reaps - {run})
  }

  function AtStage(w: World, tx: TxId, g: Genesis): World {
    w.(genesis := w.genesis[tx := g])
  }

  function GuardStep(w: World, tx: TxId): World
    requires tx in w.genesis
  {
    var g := w.genesis[tx];
    if g.stage != Begun || RowLocked(w, g.owner, tx) then w
    else if g.owner !in w.db.players then AtStage(w, tx, g.(stage := Guarded))
    else if w.db.players[g.owner].reaping then DropTx(w, tx)
    else AtStage(w, tx, g.(stage := Guarded, locked := true))
  }

  function InsertStep(w: World, tx: TxId): World
    requires tx in w.genesis
  {
    var g := w.genesis[tx];
    if g.stage != Guarded || RowLocked(w, g.owner, tx) then w
    else if g.owner !in w.db.players then DropTx(w, tx)
    else AtStage(w, tx, g.(stage := Inserted))
  }

  function CommitStep(w: World, tx: TxId): World
    requires tx in w.genesis
  {
    var g := w.genesis[tx];
    if g.stage != Enveloped then w
    else DropTx(w, tx).(db := CommitGenesis(w.db, g.character, g.owner, g.bind))
  }

  function MarkStep(w: World, run: RunId, p: PlayerId): World {
    if run in w.reaps || p !in w.db.players || !w.db.players[p].guest || AnyRowLock(w, p) then w
    else w.(db := CommitMark(w.db, p), reaps := w.reaps[run := Reap(p, Marked)])
  }

  function ReapNextStep(w: World, run: RunId): World
    requires run in w.reaps
  {
    var r := w.reaps[run];
    if r.stage.Marked? || r.stage.todo == [] then w
    else
      var (c, version) := r.stage.todo[0];
      if VersionMatches(w.db, c, version) then
        w.(db := CommitReap(w.db, c), reaps := w.reaps[run := Reap(r.player, Listed(r.stage.todo[1..]))])
      else DropRun(w, run)
  }

  function DeletePlayerStep(w: World, run: RunId): World
    requires run in w.reaps
  {
    var r := w.reaps[run];
    if r.stage != Listed([]) || RowPinned(w, r.player) then w
    else if r.player !in w.db.players || !w.db.players[r.player].guest then DropRun(w, run)
    else DropRun(w, run).(
         db := CommitPlayerDelete(w.db, r.player),
         cascaded := w.cascaded + CharactersOf(w.db, r.player))
  }

  function Apply(w: World, a: Action): World {
    match a
    case CreatePlayer(p, guest) =>
      if p in w.created then w
      else w.(db := w.db.(players := w.db.players[p := Player(guest, false)]), created := w.created + {p})
    case BeginGenesis(tx, p, c, bind) =>
      if tx in w.genesis || c in w.minted then w
      else w.(genesis := w.genesis[tx := Genesis(p, c, bind, Begun, false)],
              minted := w.minted + {c},
              early := w.early + (if p in w.created then {} else {c}))
    case Guard(tx) => if tx in w.genesis then GuardStep(w, tx) else w
    case Insert(tx) => if tx in w.genesis then InsertStep(w, tx) else w
    case WriteEnvelope(tx) =>
      if tx in w.genesis && w.genesis[tx].stage == Inserted
      then AtStage(w, tx, w.genesis[tx].(stage := Enveloped)) else w
    case CommitTx(tx) => if tx in w.genesis then CommitStep(w, tx) else w
    case AbortTx(tx) => DropTx(w, tx)
    case MarkReaping(run, p) => MarkStep(w, run, p)
    case ListCharacters(run, todo) =>
      if run in w.reaps && w.reaps[run].stage.Marked? && IsListing(w.db, w.reaps[run].player, todo)
      then w.(reaps := w.reaps[run := w.reaps[run].(stage := Listed(todo))]) else w
    case ReapNext(run) => if run in w.reaps then ReapNextStep(w, run) else w
    case DeletePlayer(run) => if run in w.reaps then DeletePlayerStep(w, run) else w
    case FailReap(run) => DropRun(w, run)
    case EditCharacter(c) =>
      if c !in w.db.characters then w
      else
        var ch := w.db.characters[c];
        w.(db := w.db.(characters := w.db.characters[c := ch.(version := ch.version + 1)]))
    case SetProperty(c, name) =>
      if c !in w.db.characters then w
      else w.(db := w.db.(properties := w.db.properties + {(c, name)}))
  }

  function Run(w: World, acts: seq<Action>): World
    decreases |acts|
  {
    if |acts| == 0 then w else Run(Apply(w, acts[0]), acts[1..])
  }

  // ---------------------------------------------------------------- invariant

  ghost predicate Unused(w: World, c: CharacterId) {
    c in w.minted && c !in w.db.characters && c !in w.cascaded
  }

  // Identifiers: an open genesis owns its character id alone.
  ghost predicate IdsFresh(w: World) {
    && w.db.characters.Keys <= w.minted
    && w.cascaded <= w.minted && w.early <= w.minted
    && (forall t :: t in w.genesis ==> Unused(w, w.genesis[t].character))
    && (forall t, u :: t in w.genesis && u in w.genesis && t != u ==>
          w.genesis[t].character != w.genesis[u].character)
  }

  // A character row exists exactly when its history is genesis only, unless a
  // player delete took the row away.
  ghost predicate HistoryOk(w: World, c: CharacterId) {
    var h := History(w.db.outbox, c);
    && LawfulHistory(h)
    && (h == [CharacterGenesis] <==> c in w.db.characters || c in w.cascaded)
    && !(c in w.db.characters && c in w.cascaded)
    && (c !in w.minted ==> h == [])
  }

  ghost predicate Histories(w: World) {
    && (forall c :: HistoryOk(w, c))
    && (forall t :: t in w.genesis ==> History(w.db.outbox, w.genesis[t].character) == [])
  }

  ghost predicate RowsOk(w: World) {
    && w.db.players.Keys <= w.created
    && (forall c :: c in w.db.characters ==>
          w.db.characters[c].owner in w.db.players && w.db.characters[c].version >= FIRST_VERSION)
  }

  // The lock protects an unmarked row; whoever has inserted still has its player.
  ghost predicate LockOk(w: World, g: Genesis) {
    && (g.stage == Begun ==> !g.locked)
    && (g.locked ==> g.owner in w.db.players && !w.db.players[g.owner].reaping)
    && (g.stage in {Inserted, Enveloped} ==> g.owner in w.db.players)
  }

  ghost predicate LocksOk(w: World) {
    forall t :: t in w.genesis ==> LockOk(w, w.genesis[t])
  }

  // A genesis begun in time either holds the lock or has lost its player for good.
  ghost predicate InTime(w: World, g: Genesis) {
    g.character !in w.early ==>
      && g.owner in w.created
      && (g.stage == Guarded ==> g.locked || g.owner !in w.db.players)
      && (g.stage in {Inserted, Enveloped} ==> g.locked)
  }

  ghost predicate TimelyOk(w: World) {
    forall t :: t in w.genesis ==> InTime(w, w.genesis[t])
  }

  // A running reap left its mark, and has listed all but early characters.
  ghost predicate ReapsOk(w: World) {
    forall r :: r in w.reaps ==>
      var p := w.reaps[r].player;
      && p in w.created
      && (p in w.db.players ==> w.db.players[p].reaping)
      && (w.reaps[r].stage.Listed? ==> Covered(w, p, w.reaps[r].stage.todo))
  }

  ghost predicate Covered(w: World, p: PlayerId, todo: seq<(CharacterId, nat)>) {
    CharactersOf(w.db, p) <= Ids(todo) + w.early
  }

  ghost predicate Inv(w: World) {
    IdsFresh(w) && Histories(w) && RowsOk(w) && LocksOk(w) && TimelyOk(w) && ReapsOk(w) && w.cascaded <= w.early
  }

  // ------------------------------------------------------ one step keeps it

  lemma ApplyKeepsIds(w: World, a: Action)
    requires Inv(w)
    ensures IdsFresh(Apply(w, a))
  {
    var v := Apply(w, a);
    forall t | t in v.genesis ensures Unused(v, v.genesis[t].character) { ApplyKeepsUnused(w, a, t); }
    forall t, u | t in v.genesis && u in v.genesis && t != u
      ensures v.genesis[t].character != v.genesis[u].character
    {
      ApplyKeepsApart(w, a, t, u);
    }
    ApplyKeepsMinted(w, a);
  }

  lemma ApplyKeepsMinted(w: World, a: Action)
    requires IdsFresh(w)
    ensures var v := Apply(w, a);
            v.db.characters.Keys <= v.minted && v.cascaded <= v.minted && v.early <= v.minted
  {
  }

  lemma ApplyKeepsUnused(w: World, a: Action, t: TxId)
    requires IdsFresh(w) && t in Apply(w, a).genesis
    ensures Unused(Apply(w, a), Apply(w, a).genesis[t].character)
  {
    if t in w.genesis { assert Unused(w, w.genesis[t].character); }
  }

  lemma ApplyKeepsApart(w: World, a: Action, t: TxId, u: TxId)
    requires IdsFresh(w) && t in Apply(w, a).genesis && u in Apply(w, a).genesis && t != u
    ensures Apply(w, a).genesis[t].character != Apply(w, a).genesis[u].character
  {
    if t in w.genesis { assert Unused(w, w.genesis[t].character); }
    if u in w.genesis { assert Unused(w, w.genesis[u].character); }
  }

  lemma ApplyKeepsRows(w: World, a: Action)
    requires Inv(w)
    ensures RowsOk(Apply(w, a))
  {
  }

  // Deleting and marking wait for whoever locked or pinned the row.
  lemma ApplyKeepsLock(w: World, a: Action, t: TxId)
    requires RowsOk(w) && LocksOk(w) && t in Apply(w, a).genesis
    ensures LockOk(Apply(w, a), Apply(w, a).genesis[t])
  {
    if t in w.genesis {
      assert LockOk(w, w.genesis[t]);
    }
  }

  lemma ApplyKeepsLocks(w: World, a: Action)
    requires Inv(w)
    ensures LocksOk(Apply(w, a))
  {
    forall t | t in Apply(w, a).genesis ensures LockOk(Apply(w, a), Apply(w, a).genesis[t]) {
      ApplyKeepsLock(w, a, t);
    }
  }

  lemma ApplyKeepsTimely(w: World, a: Action)
    requires Inv(w)
    ensures TimelyOk(Apply(w, a))
  {
    forall t | t in Apply(w, a).genesis ensures InTime(Apply(w, a), Apply(w, a).genesis[t]) {
      ApplyKeepsInTime(w, a, t);
    }
  }

  lemma ApplyKeepsInTime(w: World, a: Action, t: TxId)
    requires IdsFresh(w) && TimelyOk(w) && t in Apply(w, a).genesis
    ensures InTime(Apply(w, a), Apply(w, a).genesis[t])
  {
    if t in w.genesis {
      assert InTime(w, w.genesis[t]);
      assert Unused(w, w.genesis[t].character);
    }
  }

  // A commit under the lock cannot slip past a listing: the lock says the row
  // was unmarked, the listing says it was marked.
  lemma CommitKeepsCovered(w: World, tx: TxId, r: RunId)
    requires Inv(w) && tx in w.genesis && r in w.reaps && w.reaps[r].stage.Listed?
    ensures Covered(CommitStep(w, tx), w.reaps[r].player, w.reaps[r].stage.todo)
  {
    var g := w.genesis[tx];
    var p := w.reaps[r].player;
    assert Covered(w, p, w.reaps[r].stage.todo);
    if g.stage == Enveloped {
      assert CharactersOf(CommitStep(w, tx).db, p)
          <= CharactersOf(w.db, p) + (if g.owner == p then {g.character} else {});
    }
  }

  lemma ReapNextKeepsCovered(w: World, run: RunId, r: RunId)
    requires Inv(w) && run in w.reaps && r in ReapNextStep(w, run).reaps
    ensures var v := ReapNextStep(w, run);
            v.reaps[r].stage.Listed? ==> Covered(v, v.reaps[r].player, v.reaps[r].stage.todo)
  {
    var v := ReapNextStep(w, run);
    if v.reaps[r].stage.Listed? {
      var p := w.reaps[r].player;
      assert Covered(w, p, w.reaps[r].stage.todo);
      assert CharactersOf(v.db, p) <= CharactersOf(w.db, p);
      if r == run && v.reaps[r] != w.reaps[r] {
        var todo := w.reaps[r].stage.todo;
        assert todo == [todo[0]] + todo[1..];
        assert forall c :: c in Ids(todo) && c != todo[0].0 ==> c in Ids(todo[1..]) by {
          forall c | c in Ids(todo) && c != todo[0].0 ensures c in Ids(todo[1..]) {
            var i :| 0 <= i < |todo| && todo[i].0 == c;
            assert todo[1..][i - 1].0 == c;
          }
        }
        assert todo[0].0 !in CharactersOf(v.db, p);
      }
    }
  }

  lemma OtherKeepsCovered(w: World, a: Action, r: RunId)
    requires Inv(w) && !a.CommitTx? && !a.ReapNext? && !a.ListCharacters?
    requires r in w.reaps && r in Apply(w, a).reaps && w.reaps[r].stage.Listed?
    ensures Covered(Apply(w, a), w.reaps[r].player, w.reaps[r].stage.todo)
  {
    assert Covered(w, w.reaps[r].player, w.reaps[r].stage.todo);
    assert CharactersOf(Apply(w, a).db, w.reaps[r].player) <= CharactersOf(w.db, w.reaps[r].player);
  }

  lemma ListKeepsCovered(w: World, a: Action, r: RunId)
    requires Inv(w) && a.ListCharacters? && r in Apply(w, a).reaps && Apply(w, a).reaps[r].stage.Listed?
    ensures Covered(Apply(w, a), Apply(w, a).reaps[r].player, Apply(w, a).reaps[r].stage.todo)
  {
    if w.reaps[r].stage.Listed? { assert Covered(w, w.reaps[r].player, w.reaps[r].stage.todo); }
  }

  lemma ApplyKeepsCovered(w: World, a: Action, r: RunId)
    requires Inv(w) && r in Apply(w, a).reaps && Apply(w, a).reaps[r].stage.Listed?
    ensures Covered(Apply(w, a), Apply(w, a).reaps[r].player, Apply(w, a).reaps[r].stage.todo)
  {
    match a
    case CommitTx(tx) =>
      if tx in w.genesis { CommitKeepsCovered(w, tx, r); }
      else { assert Covered(w, w.reaps[r].player, w.reaps[r].stage.todo); }
    case ReapNext(run) =>
      if run in w.reaps { ReapNextKeepsCovered(w, run, r); }
      else { assert Covered(w, w.reaps[r].player, w.reaps[r].stage.todo); }
    case ListCharacters(_, _) => ListKeepsCovered(w, a, r);
    case _ => OtherKeepsCovered(w, a, r);
  }

  lemma ApplyKeepsMark(w: World, a: Action, r: RunId)
    requires Inv(w) && r in Apply(w, a).reaps
    ensures var p := Apply(w, a).reaps[r].player;
            && p in Apply(w, a).created
            && (p in Apply(w, a).db.players ==> Apply(w, a).db.players[p].reaping)
  {
  }

  lemma ApplyKeepsReaps(w: World, a: Action)
    requires Inv(w)
    ensures ReapsOk(Apply(w, a))
  {
    forall r | r in Apply(w, a).reaps
      ensures var v := Apply(w, a);
              var p := v.reaps[r].player;
              && p in v.created
              && (p in v.db.players ==> v.db.players[p].reaping)
              && (v.reaps[r].stage.Listed? ==> Covered(v, p, v.reaps[r].stage.todo))
    {
      ApplyKeepsMark(w, a, r);
      if Apply(w, a).reaps[r].stage.Listed? { ApplyKeepsCovered(w, a, r); }
    }
  }

  // When a reap reaches the player delete, everything it would cascade to was
  // begun before the player existed.
  lemma ApplyKeepsCascaded(w: World, a: Action)
    requires Inv(w)
    ensures Apply(w, a).cascaded <= Apply(w, a).early
  {
    if a.DeletePlayer? && a.run in w.reaps && w.reaps[a.run].stage == Listed([]) {
      assert Covered(w, w.reaps[a.run].player, []);
    }
  }

  // The envelopes that an action adds to the feed.
  function Emitted(w: World, a: Action): seq<Envelope> {
    match a
    case CommitTx(tx) =>
      if tx in w.genesis && w.genesis[tx].stage == Enveloped
      then [GenesisEnvelope(w.genesis[tx].character, w.genesis[tx].owner)] else []
    case ReapNext(run) =>
      if run in w.reaps && w.reaps[run].stage.Listed? && w.reaps[run].stage.todo != []
         && VersionMatches(w.db, w.reaps[run].stage.todo[0].0, w.reaps[run].stage.todo[0].1)
      then [Tombstone(w.reaps[run].stage.todo[0].0)] else []
    case _ => []
  }

  lemma ApplyAppends(w: World, a: Action)
    ensures Apply(w, a).db.outbox == w.db.outbox + Emitted(w, a)
  {
  }

  lemma ApplyHistory(w: World, a: Action, c: CharacterId)
    ensures History(Apply(w, a).db.outbox, c) == History(w.db.outbox, c)
            + (if Emitted(w, a) != [] && Emitted(w, a)[0].character == c then [Emitted(w, a)[0].kind] else [])
  {
    ApplyAppends(w, a);
    if Emitted(w, a) != [] { HistoryAppend(w.db.outbox, Emitted(w, a)[0], c); }
  }

  lemma CommitKeepsHistoryOf(w: World, tx: TxId, c: CharacterId)
    requires IdsFresh(w) && Histories(w) && tx in w.genesis
    ensures HistoryOk(CommitStep(w, tx), c)
  {
    assert HistoryOk(w, c);
    ApplyHistory(w, CommitTx(tx), c);
  }

  lemma ReapKeepsHistoryOf(w: World, run: RunId, c: CharacterId)
    requires IdsFresh(w) && Histories(w) && run in w.reaps
    ensures HistoryOk(ReapNextStep(w, run), c)
  {
    assert HistoryOk(w, c);
    ApplyHistory(w, ReapNext(run), c);
    if Emitted(w, ReapNext(run)) == [] {
      assert ReapNextStep(w, run).db == w.db;
    } else {
      assert ReapNextStep(w, run).db.characters == w.db.characters - {Emitted(w, ReapNext(run))[0].character};
    }
  }

  lemma ApplyKeepsHistoryOf(w: World, a: Action, c: CharacterId)
    requires IdsFresh(w) && Histories(w)
    ensures HistoryOk(Apply(w, a), c)
  {
    assert HistoryOk(w, c);
    match a
    case CommitTx(tx) => if tx in w.genesis { CommitKeepsHistoryOf(w, tx, c); }
    case ReapNext(run) => if run in w.reaps { ReapKeepsHistoryOf(w, run, c); }
    case _ => assert Apply(w, a).db.outbox == w.db.outbox;
  }

  lemma ApplyKeepsUnwritten(w: World, a: Action, t: TxId)
    requires IdsFresh(w) && Histories(w) && t in Apply(w, a).genesis
    ensures History(Apply(w, a).db.outbox, Apply(w, a).genesis[t].character) == []
  {
    var c := Apply(w, a).genesis[t].character;
    assert HistoryOk(w, c);
    EmittedElsewhere(w, a, t);
    ApplyHistory(w, a, c);
  }

  // Nothing is emitted about a character whose genesis stays open.
  lemma EmittedElsewhere(w: World, a: Action, t: TxId)
    requires IdsFresh(w) && Histories(w) && t in Apply(w, a).genesis
    ensures var c := Apply(w, a).genesis[t].character;
            && (if t in w.genesis then w.genesis[t].character == c else c !in w.minted)
            && (Emitted(w, a) != [] ==> Emitted(w, a)[0].character != c)
  {
    if t in w.genesis { assert Unused(w, w.genesis[t].character); }
  }

  lemma ApplyKeepsHistories(w: World, a: Action)
    requires IdsFresh(w) && Histories(w)
    ensures Histories(Apply(w, a))
  {
    forall c ensures HistoryOk(Apply(w, a), c) { ApplyKeepsHistoryOf(w, a, c); }
    forall t | t in Apply(w, a).genesis
      ensures History(Apply(w, a).db.outbox, Apply(w, a).genesis[t].character) == []
    {
      ApplyKeepsUnwritten(w, a, t);
    }
  }

  lemma ApplyKeepsInv(w: World, a: Action)
    requires Inv(w)
    ensures Inv(Apply(w, a))
  {
    ApplyKeepsIds(w, a);
    ApplyKeepsRows(w, a);
    ApplyKeepsLocks(w, a);
    ApplyKeepsTimely(w, a);
    ApplyKeepsReaps(w, a);
    ApplyKeepsCascaded(w, a);
    ApplyKeepsHistories(w, a);
  }

  lemma {:induction false} RunKeepsInv(w: World, acts: seq<Action>)
    requires Inv(w)
    ensures Inv(Run(w, acts))
    decreases |acts|
  {
    if |acts| > 0 {
      ApplyKeepsInv(w, acts[0]);
      RunKeepsInv(Apply(w, acts[0]), acts[1..]);
    }
  }

  // ------------------------------------------------------------ main results

  lemma InitialInv()
    ensures Inv(INITIAL)
  {
  }

  /** In every run the feed of every character is empty, genesis only, or genesis
      then one deletion, and every row has its genesis and no tombstone. A genesis
      without tombstone whose row is gone can only come from a genesis that was
      begun before its player existed. */
  lemma FeedIsLawful(acts: seq<Action>, c: CharacterId)
    ensures var w := Run(INITIAL, acts);
            var h := History(w.db.outbox, c);
            && LawfulHistory(h)
            && (c in w.db.characters ==> h == [CharacterGenesis])
            && (h == [CharacterGenesis] && c !in w.db.characters ==> c in w.cascaded)
            && (c in w.cascaded ==> c in w.early)
  {
    InitialInv();
    RunKeepsInv(INITIAL, acts);
    assert HistoryOk(Run(INITIAL, acts), c);
  }

  /** At the moment a reap deletes the player row, the foreign-key cascade reaches
      only characters whose genesis was begun before the player existed. */
  lemma CascadeOnlyTakesEarly(acts: seq<Action>, run: RunId)
    ensures var w := Run(INITIAL, acts);
            run in w.reaps && w.reaps[run].stage == Listed([]) ==>
              CharactersOf(w.db, w.reaps[run].player) <= w.early
  {
    InitialInv();
    RunKeepsInv(INITIAL, acts);
    var w := Run(INITIAL, acts);
    if run in w.reaps && w.reaps[run].stage == Listed([]) {
      assert Covered(w, w.reaps[run].player, []);
    }
  }

  // What a caller of genesis can ensure: it has created the player beforehand.
  predicate PlayersFirst(created: set<PlayerId>, acts: seq<Action>)
    decreases |acts|
  {
    |acts| == 0
    || match acts[0]
       case CreatePlayer(p, _) => PlayersFirst(created + {p}, acts[1..])
       case BeginGenesis(_, p, _, _) => p in created && PlayersFirst(created, acts[1..])
       case _ => PlayersFirst(created, acts[1..])
  }

  lemma {:induction false} PlayersFirstNeverEarly(w: World, acts: seq<Action>)
    requires w.early == {} && PlayersFirst(w.created, acts)
    ensures Run(w, acts).early == {}
    decreases |acts|
  {
    if |acts| > 0 {
      var v := Apply(w, acts[0]);
      if acts[0].CreatePlayer? { assert v.created == w.created + {acts[0].player}; }
      PlayersFirstNeverEarly(v, acts[1..]);
    }
  }

  /** Callers that create the player before they ask for a character: no run ever
      cascades to a character, and a row exists exactly when its feed is genesis
      only, however many reapers and creators race. */
  lemma PlayersFirstNeverCascade(acts: seq<Action>, c: CharacterId)
    requires PlayersFirst({}, acts)
    ensures var w := Run(INITIAL, acts);
            && w.cascaded == {}
            && (c in w.db.characters <==> History(w.db.outbox, c) == [CharacterGenesis])
  {
    PlayersFirstNeverEarly(INITIAL, acts);
    FeedIsLawful(acts, c);
    InitialInv();
    RunKeepsInv(INITIAL, acts);
    assert HistoryOk(Run(INITIAL, acts), c);
  }

  // ---------------------------------------------- when is a genesis safe from it

  // The guard's missing-row branch is not harmless on its own: the row may appear
  // before the insert checks the foreign key, and a reap may list before the commit.
  // For that, no other genesis of the player has locked or pinned its row.
  ghost predicate NoOtherHold(w: World, tx: TxId, p: PlayerId) {
    forall t :: t in w.genesis && t != tx && w.genesis[t].owner == p ==>
      !w.genesis[t].locked && w.genesis[t].stage !in {Inserted, Enveloped}
  }

  lemma NoPlayerNoHold(w: World, tx: TxId, p: PlayerId)
    requires Inv(w) && p !in w.created
    ensures NoOtherHold(w, tx, p) && p !in w.db.players && CharactersOf(w.db, p) == {}
  {
    forall t | t in w.genesis && t != tx && w.genesis[t].owner == p
      ensures !w.genesis[t].locked && w.genesis[t].stage !in {Inserted, Enveloped}
    {
      assert LockOk(w, w.genesis[t]);
    }
  }

  lemma RunThen(w: World, acts: seq<Action>, a: Action)
    ensures Run(w, acts + [a]) == Apply(Run(w, acts), a)
  {
    RunAppend(w, acts, [a]);
    assert [a][1..] == [];
  }

  // Guard without the row, create the player, insert, write the envelope.
  lemma SlipsIn(w: World, tx: TxId) returns (acts: seq<Action>)
    requires tx in w.genesis && w.genesis[tx].stage == Begun && !w.genesis[tx].locked
    requires var p := w.genesis[tx].owner;
             p !in w.created && p !in w.db.players && NoOtherHold(w, tx, p)
    ensures var g := w.genesis[tx];
            Run(w, acts) == w.(genesis := w.genesis[tx := g.(stage := Enveloped)], created := w.created + {g.owner},
                               db := w.db.(players := w.db.players[g.owner := Player(true, false)]))
  {
    var g := w.genesis[tx];
    acts := [Guard(tx)];
    assert acts == [] + [Guard(tx)];
    RunThen(w, [], Guard(tx));
    var w1 := AtStage(w, tx, g.(stage := Guarded));
    assert Run(w, acts) == w1;
    RunThen(w, acts, CreatePlayer(g.owner, true));
    acts := acts + [CreatePlayer(g.owner, true)];
    var w2 := w1.(created := w.created + {g.owner},
                  db := w.db.(players := w.db.players[g.owner := Player(true, false)]));
    assert Run(w, acts) == w2;
    RunThen(w, acts, Insert(tx));
    acts := acts + [Insert(tx)];
    assert Run(w, acts) == AtStage(w2, tx, g.(stage := Inserted)) by { assert !RowLocked(w2, g.owner, tx); }
    RunThen(w, acts, WriteEnvelope(tx));
    acts := acts + [WriteEnvelope(tx)];
    assert Run(w, acts).genesis == w.genesis[tx := g.(stage := Enveloped)];
  }

  // Mark, list before the commit, commit, and delete the player.
  lemma ReapedAround(w: World, tx: TxId, run: RunId) returns (acts: seq<Action>)
    requires tx in w.genesis && w.genesis[tx].stage == Enveloped && !w.genesis[tx].locked && run !in w.reaps
    requires var p := w.genesis[tx].owner;
             && p in w.db.players && w.db.players[p].guest && NoOtherHold(w, tx, p) && CharactersOf(w.db, p) == {}
    ensures w.genesis[tx].character in Run(w, acts).cascaded
  {
    var g := w.genesis[tx];
    var p := g.owner;
    acts := [MarkReaping(run, p)];
    assert acts == [] + [MarkReaping(run, p)];
    RunThen(w, [], MarkReaping(run, p));
    var w1 := w.(db := CommitMark(w.db, p), reaps := w.reaps[run := Reap(p, Marked)]);
    assert Run(w, acts) == w1;
    RunThen(w, acts, ListCharacters(run, []));
    acts := acts + [ListCharacters(run, [])];
    var w2 := w1.(reaps := w1.reaps[run := Reap(p, Listed([]))]);
    assert Run(w, acts) == w2 by { assert CharactersOf(w1.db, p) == CharactersOf(w.db, p); }
    RunThen(w, acts, CommitTx(tx));
    acts := acts + [CommitTx(tx)];
    var w3 := DropTx(w2, tx).(db := CommitGenesis(w2.db, g.character, p, g.bind));
    assert Run(w, acts) == w3;
    RunThen(w, acts, DeletePlayer(run));
    acts := acts + [DeletePlayer(run)];
    assert g.character in CharactersOf(w3.db, p);
    assert !RowPinned(w3, p);
  }

  lemma FreshRun(w: World) returns (run: RunId)
    ensures run !in w.reaps
  {
    run := Above(w.reaps.Keys);
  }

  lemma {:induction false} TimelyStaysTimely(w: World, acts: seq<Action>, c: CharacterId)
    requires c in w.minted && c !in w.early
    ensures c !in Run(w, acts).early
    decreases |acts|
  {
    if |acts| > 0 { TimelyStaysTimely(Apply(w, acts[0]), acts[1..], c); }
  }

  /** At any point of any run: a genesis begun now is safe from the cascade, whatever
      happens later, exactly when its player has been created by now.
   */
  lemma SafeIffPlayerFirst(acts: seq<Action>, tx: TxId, p: PlayerId, c: CharacterId, bind: bool)
    requires tx !in Run(INITIAL, acts).genesis && c !in Run(INITIAL, acts).minted
    ensures var w := Run(INITIAL, acts);
            var begun := Apply(w, BeginGenesis(tx, p, c, bind));
            (forall later :: c !in Run(begun, later).cascaded) <==> p in w.created
  {
    var w := Run(INITIAL, acts);
    var begun := Apply(w, BeginGenesis(tx, p, c, bind));
    InitialInv();
    RunKeepsInv(INITIAL, acts);
    ApplyKeepsInv(w, BeginGenesis(tx, p, c, bind));
    if p in w.created {
      forall later ensures c !in Run(begun, later).cascaded { CreatedIsSafe(begun, later, c); }
    } else {
      var later := UncreatedIsUnsafe(begun, tx);
      assert c in Run(begun, later).cascaded;
    }
  }

  lemma CreatedIsSafe(w: World, later: seq<Action>, c: CharacterId)
    requires Inv(w) && c in w.minted && c !in w.early
    ensures c !in Run(w, later).cascaded
  {
    TimelyStaysTimely(w, later, c);
    RunKeepsInv(w, later);
  }

  lemma UncreatedIsUnsafe(w: World, tx: TxId) returns (later: seq<Action>)
    requires Inv(w) && tx in w.genesis && w.genesis[tx].stage == Begun && w.genesis[tx].owner !in w.created
    ensures w.genesis[tx].character in Run(w, later).cascaded
  {
    var g := w.genesis[tx];
    var p := g.owner;
    assert LockOk(w, g);
    NoPlayerNoHold(w, tx, p);
    var first := SlipsIn(w, tx);
    var v := Run(w, first);
    var run := FreshRun(v);
    assert CharactersOf(v.db, p) == CharactersOf(w.db, p);
    var second := ReapedAround(v, tx, run);
    later := first + second;
    RunAppend(w, first, second);
  }

  // A run from the start in which character 1 of guest 7 is created, and its row is gone
  // without a tombstone.
  lemma EarlyGenesisCanCascade() returns (acts: seq<Action>)
    ensures var w := Run(INITIAL, acts);
            1 in w.cascaded && 1 !in w.db.characters && History(w.db.outbox, 1) == [CharacterGenesis]
  {
    InitialInv();
    var begin := BeginGenesis(0, 7, 1, false);
    var begun := Apply(INITIAL, begin);
    ApplyKeepsInv(INITIAL, begin);
    var later := UncreatedIsUnsafe(begun, 0);
    acts := [begin] + later;
    assert acts[1..] == later;
    RunKeepsInv(INITIAL, acts);
    assert HistoryOk(Run(INITIAL, acts), 1);
  }

  /** From the mark on: the mark stays for as long as the row does, the feed only
      grows (committed tombstones survive an aborted reap), and the player gains
      no character other than early ones. */
  lemma {:induction false} MarkIsFinal(w: World, acts: seq<Action>, p: PlayerId)
    requires Inv(w) && p in w.created && (p in w.db.players ==> w.db.players[p].reaping)
    ensures var v := Run(w, acts);
            && (p in v.db.players ==> v.db.players[p].reaping)
            && w.db.outbox <= v.db.outbox
            && CharactersOf(v.db, p) <= CharactersOf(w.db, p) + v.early
            && w.early <= v.early
    decreases |acts|
  {
    if |acts| > 0 {
      var v, u := Apply(w, acts[0]), Run(w, acts);
      ApplyAppends(w, acts[0]);
      ApplyKeepsInv(w, acts[0]);
      MarkedStays(w, acts[0], p);
      MarkedGainsNothing(w, acts[0], p);
      MarkIsFinal(v, acts[1..], p);
      Chain(CharactersOf(w.db, p), CharactersOf(v.db, p), CharactersOf(u.db, p), w.early, v.early, u.early);
    }
  }

  lemma MarkedStays(w: World, a: Action, p: PlayerId)
    requires Inv(w) && p in w.created && (p in w.db.players ==> w.db.players[p].reaping)
    ensures p in Apply(w, a).created && (p in Apply(w, a).db.players ==> Apply(w, a).db.players[p].reaping)
  {
  }

  lemma MarkedGainsNothing(w: World, a: Action, p: PlayerId)
    requires Inv(w) && p in w.created && (p in w.db.players ==> w.db.players[p].reaping)
    ensures CharactersOf(Apply(w, a).db, p) <= CharactersOf(w.db, p) + w.early
    ensures w.early <= Apply(w, a).early
  {
  }

  lemma Chain(a: set<CharacterId>, b: set<CharacterId>, c: set<CharacterId>,
              x: set<CharacterId>, y: set<CharacterId>, z: set<CharacterId>)
    requires b <= a + x && c <= b + z && x <= y <= z
    ensures c <= a + z && x <= z
  {
  }

  function Times(n: nat, a: Action): seq<Action> {
    seq(n, _ => a)
  }

  // A reap that meets no failure and no interference.
  function ReapScript(run: RunId, p: PlayerId, todo: seq<(CharacterId, nat)>): seq<Action> {
    [MarkReaping(run, p), ListCharacters(run, todo)] + (Times(|todo|, ReapNext(run)) + [DeletePlayer(run)])
  }

  function IdSeq(todo: seq<(CharacterId, nat)>): seq<CharacterId> {
    seq(|todo|, i requires 0 <= i < |todo| => todo[i].0)
  }

  lemma RunAppend(w: World, a: seq<Action>, b: seq<Action>)
    ensures Run(w, a + b) == Run(Run(w, a), b)
    decreases |a|
  {
    if |a| == 0 {
      assert a + b == b;
    } else {
      assert (a + b)[1..] == a[1..] + b;
      RunAppend(Apply(w, a[0]), a[1..], b);
    }
  }

  lemma ReapFirst(w: World, run: RunId, p: PlayerId, todo: seq<(CharacterId, nat)>)
    requires run in w.reaps && w.reaps[run] == Reap(p, Listed(todo)) && todo != []
    requires VersionMatches(w.db, todo[0].0, todo[0].1)
    ensures Apply(w, ReapNext(run))
         == w.(db := CommitReap(w.db, todo[0].0), reaps := w.reaps[run := Reap(p, Listed(todo[1..]))])
  {
  }

  lemma {:induction false} DrainTodo(w: World, run: RunId, p: PlayerId, todo: seq<(CharacterId, nat)>)
    requires run in w.reaps && w.reaps[run] == Reap(p, Listed(todo))
    requires forall i :: 0 <= i < |todo| ==>
      todo[i].0 in w.db.characters && todo[i].1 == w.db.characters[todo[i].0].version
    requires forall i, j :: 0 <= i < j < |todo| ==> todo[i].0 != todo[j].0
    ensures Run(w, Times(|todo|, ReapNext(run)))
         == w.(db := ReapAll(w.db, IdSeq(todo)), reaps := w.reaps[run := Reap(p, Listed([]))])
    decreases |todo|
  {
    if |todo| > 0 {
      var acts := Times(|todo|, ReapNext(run));
      var v := Apply(w, acts[0]);
      ReapFirst(w, run, p, todo);
      assert acts[1..] == Times(|todo| - 1, ReapNext(run));
      DrainTodo(v, run, p, todo[1..]);
      ReapAllFirst(w.db, IdSeq(todo));
      assert IdSeq(todo)[1..] == IdSeq(todo[1..]);
    } else {
      assert w.reaps[run := Reap(p, Listed([]))] == w.reaps;
    }
  }

  lemma {:induction false} ReapAllFirst(db: Db, cs: seq<CharacterId>)
    requires |cs| > 0
    ensures ReapAll(db, cs) == ReapAll(CommitReap(db, cs[0]), cs[1..])
    decreases |cs|
  {
    if |cs| == 1 {
      assert cs[..0] == [] && cs[1..] == [];
    } else {
      ReapAllFirst(db, cs[..|cs| - 1]);
      assert cs[..|cs| - 1][1..] == cs[1..][..|cs| - 2];
    }
  }

  lemma ListingIds(db: Db, p: PlayerId, todo: seq<(CharacterId, nat)>)
    requires IsListing(db, p, todo)
    ensures IdSet(IdSeq(todo)) == CharactersOf(db, p)
  {
    forall c | c in CharactersOf(db, p) ensures c in IdSeq(todo) {
      var i :| 0 <= i < |todo| && todo[i].0 == c;
      assert IdSeq(todo)[i] == c;
    }
  }

  // The database after an undisturbed reap.
  function Reaped(db: Db, p: PlayerId, todo: seq<(CharacterId, nat)>): Db
    requires p in db.players
  {
    CommitPlayerDelete(ReapAll(CommitMark(db, p), IdSeq(todo)), p)
  }

  lemma ReapedEffect(db: Db, p: PlayerId, todo: seq<(CharacterId, nat)>)
    requires p in db.players && IsListing(db, p, todo)
    ensures CharactersOf(ReapAll(CommitMark(db, p), IdSeq(todo)), p) == {}
    ensures var after := Reaped(db, p, todo);
            && after.players == db.players - {p}
            && after.characters == db.characters - CharactersOf(db, p)
            && after.outbox == db.outbox + Tombstones(IdSeq(todo))
            && after.properties == (set r | r in db.properties && r.0 !in CharactersOf(db, p))
            && after.bindings == (set b | b in db.bindings && b.0 != p && b.1 !in CharactersOf(db, p))
  {
    var drained := ReapAll(CommitMark(db, p), IdSeq(todo));
    ReapAllEffect(CommitMark(db, p), IdSeq(todo));
    ListingIds(db, p, todo);
    assert drained.characters == db.characters - CharactersOf(db, p);
    forall c ensures c in IdSeq(todo) <==> c in CharactersOf(db, p) {
      assert c in IdSeq(todo) <==> c in IdSet(IdSeq(todo));
    }
    assert CharactersOf(drained, p) == {};
  }

  lemma QuietStart(w: World, run: RunId, p: PlayerId, todo: seq<(CharacterId, nat)>)
    requires p in w.db.players && w.db.players[p].guest && !RowPinned(w, p) && run !in w.reaps
    requires IsListing(w.db, p, todo)
    ensures Apply(Apply(w, MarkReaping(run, p)), ListCharacters(run, todo))
         == w.(db := CommitMark(w.db, p), reaps := w.reaps[run := Reap(p, Listed(todo))])
  {
    assert !AnyRowLock(w, p);
    var marked := Apply(w, MarkReaping(run, p));
    assert marked.db.characters == w.db.characters;
    assert CharactersOf(marked.db, p) == CharactersOf(w.db, p);
  }

  lemma QuietEnd(w: World, run: RunId, p: PlayerId, after: Db)
    requires run !in w.reaps && !RowPinned(w, p)
    requires p in after.players && after.players[p].guest && CharactersOf(after, p) == {}
    ensures Apply(w.(db := after, reaps := w.reaps[run := Reap(p, Listed([]))]), DeletePlayer(run))
         == w.(db := CommitPlayerDelete(after, p))
  {
    var drained := w.(db := after, reaps := w.reaps[run := Reap(p, Listed([]))]);
    assert !RowPinned(drained, p);
    assert drained.reaps - {run} == w.reaps;
  }

  lemma QuietReapRuns(w: World, run: RunId, p: PlayerId, todo: seq<(CharacterId, nat)>)
    requires p in w.db.players && w.db.players[p].guest && !RowPinned(w, p) && run !in w.reaps
    requires IsListing(w.db, p, todo)
    ensures Run(w, ReapScript(run, p, todo)) == w.(db := Reaped(w.db, p, todo))
  {
    QuietStart(w, run, p, todo);
    var listed := w.(db := CommitMark(w.db, p), reaps := w.reaps[run := Reap(p, Listed(todo))]);
    var reaps := Times(|todo|, ReapNext(run));
    assert ReapScript(run, p, todo)[1..][1..] == reaps + [DeletePlayer(run)];
    RunAppend(listed, reaps, [DeletePlayer(run)]);
    DrainTodo(listed, run, p, todo);
    var after := ReapAll(listed.db, IdSeq(todo));
    ReapAllEffect(listed.db, IdSeq(todo));
    ReapedEffect(w.db, p, todo);
    assert listed.reaps[run := Reap(p, Listed([]))] == w.reaps[run := Reap(p, Listed([]))];
    QuietEnd(w, run, p, after);
    assert [DeletePlayer(run)][1..] == [];
  }

  /** Resuming: whatever happened before (aborted reaps included), a reap that
      meets no failure, no edit and no open genesis of the player finishes. It
      deletes the player, takes exactly the player's characters with everything
      attached to them, tombstones each of them, and cascades to nothing. */
  lemma QuietReapFinishes(acts: seq<Action>, run: RunId, p: PlayerId, todo: seq<(CharacterId, nat)>)
    requires var w := Run(INITIAL, acts);
             && p in w.db.players && w.db.players[p].guest && !RowPinned(w, p) && run !in w.reaps
             && IsListing(w.db, p, todo)
    ensures var w := Run(INITIAL, acts);
            var v := Run(w, ReapScript(run, p, todo));
            && v.db.players == w.db.players - {p}
            && v.db.characters == w.db.characters - CharactersOf(w.db, p)
            && v.db.outbox == w.db.outbox + Tombstones(IdSeq(todo))
            && v.db.properties == (set r | r in w.db.properties && r.0 !in CharactersOf(w.db, p))
            && v.db.bindings == (set b | b in w.db.bindings && b.0 != p && b.1 !in CharactersOf(w.db, p))
            && v.cascaded == w.cascaded
            && (forall c :: c in CharactersOf(w.db, p) ==>
                  History(v.db.outbox, c) == [CharacterGenesis, CharacterDeleted])
  {
    var w := Run(INITIAL, acts);
    QuietReapRuns(w, run, p, todo);
    ReapedEffect(w.db, p, todo);
    var script := ReapScript(run, p, todo);
    var v := Run(w, script);
    InitialInv();
    RunKeepsInv(INITIAL, acts);
    RunKeepsInv(w, script);
    forall c | c in CharactersOf(w.db, p)
      ensures History(v.db.outbox, c) == [CharacterGenesis, CharacterDeleted]
    {
      assert HistoryOk(w, c) && HistoryOk(v, c);
      ListingIds(w.db, p, todo);
      HistoryPrefix(w.db.outbox, Tombstones(IdSeq(todo)), c);
      assert c !in v.db.characters && c !in v.cascaded;
    }
  }

  lemma {:induction false} HistoryPrefix(a: seq<Envelope>, b: seq<Envelope>, c: CharacterId)
    ensures History(a, c) <= History(a + b, c)
    decreases |b|
  {
    if |b| == 0 {
      assert a + b == a;
    } else {
      HistoryPrefix(a, b[..|b| - 1], c);
      assert (a + b)[..|a + b| - 1] == a + b[..|b| - 1];
    }
  }
}
