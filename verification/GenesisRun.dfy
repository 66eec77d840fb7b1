/** The genesis service's Create is the genesis transaction of the protocol, run without
    interference.
 */
module GenesisRun {
  import opened CharacterDb
  import opened CharacterServices
  import opened GuestProtocol

  // How many of guard, insert, envelope and commit a genesis transaction gets through
  // as far as its own faults are concerned.
  function StagesPassed(bindReason: string, fault: GenesisFault): (k: nat)
    ensures k <= 4
  {
    match fault
    case GuardFault => 0
    case InsertFault => 1
    case BindingFault => if bindReason != "" then 2 else 4
    case EnvelopeFault => 2
    case GenesisCommitFault => 3
    case GenesisClean => 4
  }

  function Created(db: Db, c: CharacterId, p: PlayerId, bindReason: string, fault: GenesisFault): Db {
    if CanCreate(db, c, p, bindReason, fault) then CommitGenesis(db, c, p, bindReason != "") else db
  }

  function Stages(tx: TxId): seq<Action> {
    [Guard(tx), Insert(tx), WriteEnvelope(tx), CommitTx(tx)]
  }

  // The transaction's statements, given up at the first fault.
  function CreateScript(tx: TxId, c: CharacterId, p: PlayerId, bind: bool, k: nat): seq<Action>
    requires k <= 4
  {
    [BeginGenesis(tx, p, c, bind)] + Stages(tx)[..k] + [AbortTx(tx)]
  }

  // The world without the transaction, its identifiers spent.
  function Base(w: World, c: CharacterId, p: PlayerId): World {
    w.(minted := w.minted + {c}, early := w.early + (if p in w.created then {} else {c}))
  }

  // Where the transaction stands after k of its stages.
  function Reached(w: World, tx: TxId, c: CharacterId, p: PlayerId, bind: bool, k: nat): World {
    var base := Base(w, c, p);
    var known := p in w.db.players;
    if k == 0 then AtStage(base, tx, Genesis(p, c, bind, Begun, false))
    else if known && w.db.players[p].reaping then base
    else if k == 1 then AtStage(base, tx, Genesis(p, c, bind, Guarded, known))
    else if !known then base
    else if k == 2 then AtStage(base, tx, Genesis(p, c, bind, Inserted, true))
    else if k == 3 then AtStage(base, tx, Genesis(p, c, bind, Enveloped, true))
    else base.(db := CommitGenesis(w.db, c, p, bind))
  }

  // Nobody else locks the row, and the transaction is the only one of its name.
  ghost predicate Alone(w: World, tx: TxId, p: PlayerId) {
    tx !in w.genesis && !AnyRowLock(w, p)
  }

  lemma AloneUnlocked(w: World, tx: TxId, c: CharacterId, p: PlayerId, g: Genesis)
    requires Alone(w, tx, p)
    ensures var v := AtStage(Base(w, c, p), tx, g);
            !RowLocked(v, p, tx) && DropTx(v, tx) == Base(w, c, p)
  {
    assert w.genesis[tx := g] - {tx} == w.genesis;
  }

  lemma Overwrite(m: map<TxId, Genesis>, tx: TxId, g: Genesis, h: Genesis)
    ensures m[tx := g][tx := h] == m[tx := h]
  {
  }

  lemma GuardNext(w: World, tx: TxId, c: CharacterId, p: PlayerId, bind: bool)
    requires Alone(w, tx, p)
    ensures Apply(Reached(w, tx, c, p, bind, 0), Guard(tx)) == Reached(w, tx, c, p, bind, 1)
  {
    AloneUnlocked(w, tx, c, p, Genesis(p, c, bind, Begun, false));
    var g := Genesis(p, c, bind, Guarded, p in w.db.players);
    Overwrite(w.genesis, tx, Genesis(p, c, bind, Begun, false), g);
  }

  lemma InsertNext(w: World, tx: TxId, c: CharacterId, p: PlayerId, bind: bool)
    requires Alone(w, tx, p)
    ensures Apply(Reached(w, tx, c, p, bind, 1), Insert(tx)) == Reached(w, tx, c, p, bind, 2)
  {
    AloneUnlocked(w, tx, c, p, Genesis(p, c, bind, Guarded, p in w.db.players));
    Overwrite(w.genesis, tx, Genesis(p, c, bind, Guarded, true), Genesis(p, c, bind, Inserted, true));
  }

  lemma EnvelopeNext(w: World, tx: TxId, c: CharacterId, p: PlayerId, bind: bool)
    requires Alone(w, tx, p)
    ensures Apply(Reached(w, tx, c, p, bind, 2), WriteEnvelope(tx)) == Reached(w, tx, c, p, bind, 3)
  {
    Overwrite(w.genesis, tx, Genesis(p, c, bind, Inserted, true), Genesis(p, c, bind, Enveloped, true));
  }

  lemma CommitNext(w: World, tx: TxId, c: CharacterId, p: PlayerId, bind: bool)
    requires Alone(w, tx, p)
    ensures Apply(Reached(w, tx, c, p, bind, 3), CommitTx(tx)) == Reached(w, tx, c, p, bind, 4)
  {
    AloneUnlocked(w, tx, c, p, Genesis(p, c, bind, Enveloped, true));
  }

  lemma ReachedNext(w: World, tx: TxId, c: CharacterId, p: PlayerId, bind: bool, k: nat)
    requires Alone(w, tx, p) && k < 4
    ensures Run(Reached(w, tx, c, p, bind, k), [Stages(tx)[k]]) == Reached(w, tx, c, p, bind, k + 1)
  {
    assert [Stages(tx)[k]][1..] == [];
    match k
    case 0 => GuardNext(w, tx, c, p, bind);
    case 1 => InsertNext(w, tx, c, p, bind);
    case 2 => EnvelopeNext(w, tx, c, p, bind);
    case 3 => CommitNext(w, tx, c, p, bind);
  }

  lemma {:induction false} ReachedRun(w: World, tx: TxId, c: CharacterId, p: PlayerId, bind: bool, k: nat)
    requires Alone(w, tx, p) && c !in w.minted && k <= 4
    ensures Run(w, [BeginGenesis(tx, p, c, bind)] + Stages(tx)[..k])
         == Reached(w, tx, c, p, bind, k)
    decreases k
  {
    var begin := [BeginGenesis(tx, p, c, bind)];
    if k == 0 {
      assert begin + Stages(tx)[..0] == begin && begin[1..] == [];
    } else {
      ReachedRun(w, tx, c, p, bind, k - 1);
      ReachedNext(w, tx, c, p, bind, k - 1);
      var step := [Stages(tx)[k - 1]];
      assert begin + Stages(tx)[..k] == (begin + Stages(tx)[..k - 1]) + step;
      RunAppend(w, begin + Stages(tx)[..k - 1], step);
    }
  }

  /** A call of Create is a run of the protocol's genesis steps: in a world where nobody
      else locks the player row, that run leaves the database that Create leaves, and
      no transaction behind.
   */
  lemma CreateIsRun(w: World, tx: TxId, c: CharacterId, p: PlayerId,
                    bindReason: string, fault: GenesisFault)
    requires Alone(w, tx, p) && c !in w.minted && c !in w.db.characters
    ensures var v := Run(w, CreateScript(tx, c, p, bindReason != "", StagesPassed(bindReason, fault)));
            && v.db == Created(w.db, c, p, bindReason, fault)
            && v.genesis == w.genesis && v.reaps == w.reaps && v.cascaded == w.cascaded
  {
    var bind, k := bindReason != "", StagesPassed(bindReason, fault);
    ReachedRun(w, tx, c, p, bind, k);
    RunAppend(w, [BeginGenesis(tx, p, c, bind)] + Stages(tx)[..k], [AbortTx(tx)]);
    AbortReached(w, tx, c, p, bind, k);
  }

  lemma AbortReached(w: World, tx: TxId, c: CharacterId, p: PlayerId, bind: bool, k: nat)
    requires Alone(w, tx, p) && k <= 4
    ensures Run(Reached(w, tx, c, p, bind, k), [AbortTx(tx)])
         == if k == 4 && p in w.db.players && !w.db.players[p].reaping then Reached(w, tx, c, p, bind, 4)
            else Base(w, c, p)
  {
    var v := Reached(w, tx, c, p, bind, k);
    assert [AbortTx(tx)][1..] == [];
    if tx in v.genesis {
      AloneUnlocked(w, tx, c, p, v.genesis[tx]);
    } else {
      assert v.genesis - {tx} == v.genesis;
    }
  }
}
