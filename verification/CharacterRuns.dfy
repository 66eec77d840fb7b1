/** What happens to one character over runs of the protocol: the guarded delete, and the
    binding that its genesis wrote.
 */
module CharacterRuns {
  import opened CharacterDb
  import opened GuestProtocol

  // The run's next character, and the version at which it was listed.
  ghost predicate IsNext(w: World, run: RunId, c: CharacterId, v: nat) {
    && run in w.reaps && w.reaps[run].stage.Listed? && w.reaps[run].stage.todo != []
    && w.reaps[run].stage.todo[0] == (c, v)
  }

  /** The guarded delete, on the stored row: a listed character is taken exactly when its
      row is there at the listed version. Otherwise the database stays and the run ends.
   */
  lemma ReapNextIff(w: World, run: RunId, c: CharacterId, v: nat)
    requires IsNext(w, run, c, v) && v > 0
    ensures var after := Apply(w, ReapNext(run));
            if c in w.db.characters && w.db.characters[c].version == v then
              && c !in after.db.characters && run in after.reaps
              && (forall d :: d != c ==> (d in after.db.characters <==> d in w.db.characters))
              && (forall d :: d in after.db.characters ==> after.db.characters[d] == w.db.characters[d])
              && (forall b :: b in after.db.bindings <==> b in w.db.bindings && b.1 != c)
              && (forall r :: r in after.db.properties <==> r in w.db.properties && r.0 != c)
              && after.db.outbox == w.db.outbox + [Envelope(CharacterDeleted, c, SystemActor)]
              && after.db.players == w.db.players
            else after.db == w.db && run !in after.reaps
  {
  }

  /** An edit between the listing and the delete: the delete leaves the database of the
      edit and ends the run.
   */
  lemma EditEndsReap(w: World, run: RunId, c: CharacterId, v: nat)
    requires IsNext(w, run, c, v) && v > 0 && c in w.db.characters && w.db.characters[c].version == v
    ensures var edited := Apply(w, EditCharacter(c));
            var after := Apply(edited, ReapNext(run));
            && edited.db == w.db.(characters := w.db.characters[c := Character(w.db.characters[c].owner, v + 1)])
            && after.db == edited.db && run !in after.reaps
  {
    ReapNextIff(Apply(w, EditCharacter(c)), run, c, v);
  }

  /** Versions only grow: once a character is newer than its listing it stays newer while
      its row is there, so that the run that listed it never takes it.
   */
  lemma {:induction false} EditedStaysNewer(w: World, acts: seq<Action>, c: CharacterId, v: nat)
    requires Inv(w) && c in w.db.characters && w.db.characters[c].version > v
    ensures var after := Run(w, acts);
            c in after.db.characters ==> after.db.characters[c].version > v
    decreases |acts|
  {
    if |acts| > 0 {
      var u := Apply(w, acts[0]);
      ApplyKeepsInv(w, acts[0]);
      if c in u.db.characters {
        VersionGrows(w, acts[0], c);
        EditedStaysNewer(u, acts[1..], c, v);
      } else {
        StaysAway(w, acts[0], c);
        AwayForever(u, acts[1..], c);
      }
    }
  }

  lemma VersionGrows(w: World, a: Action, c: CharacterId)
    requires Inv(w) && c in w.db.characters && c in Apply(w, a).db.characters
    ensures Apply(w, a).db.characters[c].version >= w.db.characters[c].version
  {
    forall t | t in w.genesis ensures w.genesis[t].character != c { assert Unused(w, w.genesis[t].character); }
  }

  // The row is gone, and no open genesis can bring it back.
  ghost predicate Away(w: World, c: CharacterId) {
    c in w.minted && c !in w.db.characters && forall t :: t in w.genesis ==> w.genesis[t].character != c
  }

  lemma StaysAway(w: World, a: Action, c: CharacterId)
    requires Inv(w) && c in w.db.characters && c !in Apply(w, a).db.characters
    ensures Away(Apply(w, a), c)
  {
    forall t | t in w.genesis ensures w.genesis[t].character != c { assert Unused(w, w.genesis[t].character); }
  }

  lemma {:induction false} AwayForever(w: World, acts: seq<Action>, c: CharacterId)
    requires Away(w, c)
    ensures c !in Run(w, acts).db.characters
    decreases |acts|
  {
    if |acts| > 0 {
      AwayStays(w, acts[0], c);
      AwayForever(Apply(w, acts[0]), acts[1..], c);
    }
  }

  lemma AwayStays(w: World, a: Action, c: CharacterId)
    requires Away(w, c)
    ensures Away(Apply(w, a), c)
  {
  }

  // ------------------------------------------------------------------- bindings

  /** What a genesis commits: the row at version 1, the binding if one was asked for, and
      the genesis envelope of the owner.
   */
  lemma CommitWrites(w: World, tx: TxId)
    requires tx in w.genesis && w.genesis[tx].stage == Enveloped
    ensures var g, after := w.genesis[tx], Apply(w, CommitTx(tx));
            && after.db.characters == w.db.characters[g.character := Character(g.owner, 1)]
            && after.db.bindings == w.db.bindings + (if g.bind then {(g.owner, g.character)} else {})
            && after.db.outbox == w.db.outbox + [Envelope(CharacterGenesis, g.character, PlayerActor(g.owner))]
            && after.db.players == w.db.players && after.db.properties == w.db.properties
            && after.genesis.Keys == w.genesis.Keys - {tx}
  {
  }

  // The character belongs to p, and with its row there is the binding.
  ghost predicate Bound(w: World, p: PlayerId, c: CharacterId) {
    && c in w.minted
    && (c in w.db.characters ==> w.db.characters[c].owner == p && (p, c) in w.db.bindings)
    && (forall t :: t in w.genesis && w.genesis[t].character == c ==> w.genesis[t].owner == p && w.genesis[t].bind)
  }

  lemma BoundStays(w: World, a: Action, p: PlayerId, c: CharacterId)
    requires Bound(w, p, c)
    ensures Bound(Apply(w, a), p, c)
  {
  }

  lemma {:induction false} BoundForever(w: World, acts: seq<Action>, p: PlayerId, c: CharacterId)
    requires Bound(w, p, c)
    ensures Bound(Run(w, acts), p, c)
    decreases |acts|
  {
    if |acts| > 0 {
      BoundStays(w, acts[0], p, c);
      BoundForever(Apply(w, acts[0]), acts[1..], p, c);
    }
  }

  /** A character whose genesis was begun with a binding has it for as long as its row is
      there, whatever happens.
   */
  lemma BoundWhileThere(acts: seq<Action>, tx: TxId, p: PlayerId, c: CharacterId, later: seq<Action>)
    requires tx !in Run(INITIAL, acts).genesis && c !in Run(INITIAL, acts).minted
    ensures var begun := Apply(Run(INITIAL, acts), BeginGenesis(tx, p, c, true));
            var v := Run(begun, later);
            c in v.db.characters ==> v.db.characters[c].owner == p && (p, c) in v.db.bindings
  {
    var w := Run(INITIAL, acts);
    InitialInv();
    RunKeepsInv(INITIAL, acts);
    var begun := Apply(w, BeginGenesis(tx, p, c, true));
    assert Bound(begun, p, c);
    BoundForever(begun, later, p, c);
  }
}
