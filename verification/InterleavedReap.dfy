/** A reap among other activity: whatever happens in between, as long as it spares the
    player's rows and this reap, the reap finishes.
 */
module InterleavedReap {
  import opened CharacterDb
  import opened GuestProtocol

  // The action leaves the player's row, its characters and this run as they are.
  ghost predicate Spares(w: World, a: Action, run: RunId, p: PlayerId)
    requires run in w.reaps && p in w.db.players
  {
    var v := Apply(w, a);
    && run in v.reaps && v.reaps[run] == w.reaps[run]
    && p in v.db.players && v.db.players[p] == w.db.players[p]
    && CharactersOf(v.db, p) == CharactersOf(w.db, p)
    && forall c :: c in CharactersOf(w.db, p) ==> v.db.characters[c].version == w.db.characters[c].version
  }

  // The reap's own next steps.
  predicate OwnStep(a: Action, run: RunId) {
    a == ReapNext(run) || (a.ListCharacters? && a.run == run)
  }

  // The player is marked, none of its open geneses has passed the guard, and what the run
  // has left to do is exactly what is left of the player.
  ghost predicate Ongoing(w: World, run: RunId, p: PlayerId) {
    && run in w.reaps && w.reaps[run].player == p
    && p in w.db.players && w.db.players[p].guest && w.db.players[p].reaping
    && (forall t :: t in w.genesis && w.genesis[t].owner == p ==> w.genesis[t].stage == Begun)
    && (w.reaps[run].stage.Listed? ==> IsListing(w.db, p, w.reaps[run].stage.todo))
  }

  // The reap goes on, with sparing actions anywhere in between, up to the player delete.
  ghost predicate GoesThrough(w: World, acts: seq<Action>, run: RunId, p: PlayerId)
    decreases |acts|
  {
    |acts| > 0 && run in w.reaps && p in w.db.players
    && if acts[0] == DeletePlayer(run) && w.reaps[run].stage == Listed([]) then |acts| == 1
       else (OwnStep(acts[0], run) || Spares(w, acts[0], run, p)) && GoesThrough(Apply(w, acts[0]), acts[1..], run, p)
  }

  // The character was created and is gone for good, with all that was attached to it.
  ghost predicate Gone(w: World, c: CharacterId) {
    && c !in w.db.characters && c !in w.cascaded && History(w.db.outbox, c) != []
    && (forall b :: b in w.db.bindings ==> b.1 != c) && (forall r :: r in w.db.properties ==> r.0 != c)
  }

  lemma GoneIsTombstoned(w: World, c: CharacterId)
    requires Inv(w) && Gone(w, c)
    ensures History(w.db.outbox, c) == [CharacterGenesis, CharacterDeleted]
  {
    assert HistoryOk(w, c);
  }

  lemma NoGenesisOfGone(w: World, c: CharacterId, t: TxId)
    requires Inv(w) && Gone(w, c) && t in w.genesis
    ensures w.genesis[t].character != c
  {
    assert History(w.db.outbox, w.genesis[t].character) == [];
  }

  lemma GoneRowStays(w: World, a: Action, c: CharacterId)
    requires c !in w.db.characters && c !in w.cascaded && forall t :: t in w.genesis ==> w.genesis[t].character != c
    ensures c !in Apply(w, a).db.characters && c !in Apply(w, a).cascaded
  {
  }

  lemma GoneAttachedStays(w: World, a: Action, c: CharacterId)
    requires c !in w.db.characters && forall t :: t in w.genesis ==> w.genesis[t].character != c
    requires (forall b :: b in w.db.bindings ==> b.1 != c) && (forall r :: r in w.db.properties ==> r.0 != c)
    ensures forall b :: b in Apply(w, a).db.bindings ==> b.1 != c
    ensures forall r :: r in Apply(w, a).db.properties ==> r.0 != c
  {
  }

  lemma GoneStays(w: World, a: Action, c: CharacterId)
    requires Inv(w) && Gone(w, c)
    ensures Gone(Apply(w, a), c)
  {
    forall t | t in w.genesis ensures w.genesis[t].character != c { NoGenesisOfGone(w, c, t); }
    ApplyHistory(w, a, c);
    GoneRowStays(w, a, c);
    GoneAttachedStays(w, a, c);
  }

  // ---------------------------------------------------------------- sparing steps

  lemma SparedGenesis(w: World, a: Action, run: RunId, p: PlayerId, t: TxId)
    requires Ongoing(w, run, p) && t in Apply(w, a).genesis && Apply(w, a).genesis[t].owner == p
    ensures Apply(w, a).genesis[t].stage == Begun
  {
  }

  lemma SparedListing(db: Db, after: Db, p: PlayerId, todo: seq<(CharacterId, nat)>)
    requires IsListing(db, p, todo) && CharactersOf(after, p) == CharactersOf(db, p)
    requires forall c :: c in CharactersOf(db, p) ==> after.characters[c].version == db.characters[c].version
    ensures IsListing(after, p, todo)
  {
  }

  lemma SparedOngoing(w: World, a: Action, run: RunId, p: PlayerId)
    requires Inv(w) && Ongoing(w, run, p) && Spares(w, a, run, p)
    ensures Ongoing(Apply(w, a), run, p)
  {
    forall t | t in Apply(w, a).genesis && Apply(w, a).genesis[t].owner == p
      ensures Apply(w, a).genesis[t].stage == Begun
    {
      SparedGenesis(w, a, run, p, t);
    }
    if w.reaps[run].stage.Listed? { SparedListing(w.db, Apply(w, a).db, p, w.reaps[run].stage.todo); }
  }

  // -------------------------------------------------------------------- own steps

  lemma ListOngoing(w: World, a: Action, run: RunId, p: PlayerId)
    requires Ongoing(w, run, p) && a.ListCharacters? && a.run == run
    ensures Ongoing(Apply(w, a), run, p) && Apply(w, a).db == w.db && Apply(w, a).cascaded == w.cascaded
  {
  }

  // One character less, and exactly the rest of the list left to do.
  lemma ShorterListing(db: Db, p: PlayerId, todo: seq<(CharacterId, nat)>)
    requires IsListing(db, p, todo) && todo != []
    ensures CharactersOf(CommitReap(db, todo[0].0), p) == CharactersOf(db, p) - {todo[0].0}
    ensures IsListing(CommitReap(db, todo[0].0), p, todo[1..])
  {
    var after, rest := CommitReap(db, todo[0].0), todo[1..];
    assert forall i :: 0 <= i < |rest| ==> rest[i] == todo[i + 1];
    assert CharactersOf(after, p) == CharactersOf(db, p) - {todo[0].0};
    forall c | c in CharactersOf(after, p) ensures c in Ids(rest) {
      assert c in Ids(todo);
      var i :| 0 <= i < |todo| && todo[i].0 == c;
      assert rest[i - 1].0 == c;
    }
  }

  lemma ReapedIsGone(w: World, c: CharacterId, v: World)
    requires Inv(w) && c in w.db.characters && v.db == CommitReap(w.db, c) && v.cascaded == w.cascaded
    ensures Gone(v, c)
  {
    assert HistoryOk(w, c);
    HistoryAppend(w.db.outbox, Tombstone(c), c);
  }

  lemma ReapOngoing(w: World, run: RunId, p: PlayerId)
    requires Inv(w) && Ongoing(w, run, p)
    ensures var v := Apply(w, ReapNext(run));
            && Ongoing(v, run, p)
            && forall c :: c in CharactersOf(w.db, p) ==> c in CharactersOf(v.db, p) || Gone(v, c)
  {
    var r := w.reaps[run];
    if r.stage.Listed? && r.stage.todo != [] {
      var todo := r.stage.todo;
      assert todo[0].0 in CharactersOf(w.db, p);
      ReapFirst(w, run, p, todo);
      ShorterListing(w.db, p, todo);
      ReapedIsGone(w, todo[0].0, Apply(w, ReapNext(run)));
    }
  }

  lemma DeleteFinishes(w: World, run: RunId, p: PlayerId)
    requires Inv(w) && Ongoing(w, run, p) && w.reaps[run].stage == Listed([])
    ensures var v := Apply(w, DeletePlayer(run));
            && CharactersOf(w.db, p) == {} && v.cascaded == w.cascaded
            && p !in v.db.players && run !in v.reaps && CharactersOf(v.db, p) == {}
            && forall b :: b in v.db.bindings ==> b.0 != p
  {
    assert CharactersOf(w.db, p) == {};
    forall t | t in w.genesis && w.genesis[t].owner == p
      ensures !w.genesis[t].locked && w.genesis[t].stage !in {Inserted, Enveloped}
    {
      assert LockOk(w, w.genesis[t]);
    }
    assert !RowPinned(w, p);
  }

  // ----------------------------------------------------------------------- the run

  // The characters are still there or gone for good.
  ghost predicate Accounted(w: World, p: PlayerId, chars: set<CharacterId>) {
    forall c :: c in chars ==> c in CharactersOf(w.db, p) || Gone(w, c)
  }

  lemma StepOngoing(w: World, a: Action, run: RunId, p: PlayerId, chars: set<CharacterId>)
    requires Inv(w) && Ongoing(w, run, p) && Accounted(w, p, chars) && (OwnStep(a, run) || Spares(w, a, run, p))
    ensures Ongoing(Apply(w, a), run, p) && Accounted(Apply(w, a), p, chars)
  {
    forall c | c in chars && Gone(w, c) ensures Gone(Apply(w, a), c) { GoneStays(w, a, c); }
    if a == ReapNext(run) {
      ReapOngoing(w, run, p);
    } else if a.ListCharacters? && a.run == run {
      ListOngoing(w, a, run, p);
    } else {
      SparedOngoing(w, a, run, p);
    }
  }

  lemma {:induction false} GoingThroughFinishes(w: World, acts: seq<Action>, run: RunId, p: PlayerId,
                                                chars: set<CharacterId>)
    requires Inv(w) && Ongoing(w, run, p) && Accounted(w, p, chars) && GoesThrough(w, acts, run, p)
    ensures var v := Run(w, acts);
            && p !in v.db.players && run !in v.reaps && CharactersOf(v.db, p) == {}
            && (forall b :: b in v.db.bindings ==> b.0 != p)
            && (forall c :: c in chars ==> Gone(v, c))
    decreases |acts|
  {
    var a := acts[0];
    if a == DeletePlayer(run) && w.reaps[run].stage == Listed([]) {
      DeleteFinishes(w, run, p);
      assert acts[1..] == [];
      forall c | c in chars ensures Gone(Apply(w, a), c) { GoneStays(w, a, c); }
    } else {
      StepOngoing(w, a, run, p, chars);
      ApplyKeepsInv(w, a);
      GoingThroughFinishes(Apply(w, a), acts[1..], run, p, chars);
    }
  }

  // There is always such a run: the reap's own steps alone.
  lemma {:induction false} OwnStepsGoThrough(w: World, run: RunId, p: PlayerId, todo: seq<(CharacterId, nat)>)
    requires Inv(w) && Ongoing(w, run, p) && w.reaps[run].stage == Listed(todo)
    ensures GoesThrough(w, Times(|todo|, ReapNext(run)) + [DeletePlayer(run)], run, p)
    decreases |todo|
  {
    var acts := Times(|todo|, ReapNext(run)) + [DeletePlayer(run)];
    if |todo| > 0 {
      assert todo[0].0 in CharactersOf(w.db, p);
      ReapFirst(w, run, p, todo);
      ReapOngoing(w, run, p);
      ApplyKeepsInv(w, ReapNext(run));
      OwnStepsGoThrough(Apply(w, ReapNext(run)), run, p, todo[1..]);
      assert acts[0] == ReapNext(run);
      assert acts[1..] == Times(|todo| - 1, ReapNext(run)) + [DeletePlayer(run)];
    }
  }

  lemma MarkOngoing(w: World, run: RunId, p: PlayerId)
    requires Inv(w) && p in w.db.players && w.db.players[p].guest && run !in w.reaps
    requires forall t :: t in w.genesis && w.genesis[t].owner == p ==> w.genesis[t].stage == Begun
    ensures Ongoing(Apply(w, MarkReaping(run, p)), run, p)
    ensures CharactersOf(Apply(w, MarkReaping(run, p)).db, p) == CharactersOf(w.db, p)
  {
    forall t | t in w.genesis && w.genesis[t].owner == p ensures !w.genesis[t].locked {
      assert LockOk(w, w.genesis[t]);
    }
    assert !AnyRowLock(w, p);
  }

  /** Whatever happened before, and whatever other players, reaps, creations and edits do in
      between: a reap whose player has no genesis past its guard, and whose player's rows
      the others spare, deletes the player. All of the player's characters are gone with
      everything attached to them, each has its tombstone, and none was cascaded.
   */
  lemma InterleavedReapFinishes(acts: seq<Action>, run: RunId, p: PlayerId, rest: seq<Action>)
    requires var w := Run(INITIAL, acts);
             && p in w.db.players && w.db.players[p].guest && run !in w.reaps
             && forall t :: t in w.genesis && w.genesis[t].owner == p ==> w.genesis[t].stage == Begun
    requires GoesThrough(Apply(Run(INITIAL, acts), MarkReaping(run, p)), rest, run, p)
    ensures var w := Run(INITIAL, acts);
            var v := Run(Apply(w, MarkReaping(run, p)), rest);
            && p !in v.db.players && run !in v.reaps && CharactersOf(v.db, p) == {}
            && (forall b :: b in v.db.bindings ==> b.0 != p)
            && (forall c :: c in CharactersOf(w.db, p) ==>
                  Gone(v, c) && History(v.db.outbox, c) == [CharacterGenesis, CharacterDeleted])
  {
    var w := Run(INITIAL, acts);
    var marked := Apply(w, MarkReaping(run, p));
    InitialInv();
    RunKeepsInv(INITIAL, acts);
    ApplyKeepsInv(w, MarkReaping(run, p));
    MarkOngoing(w, run, p);
    GoingThroughFinishes(marked, rest, run, p, CharactersOf(w.db, p));
    RunKeepsInv(marked, rest);
    var v := Run(marked, rest);
    forall c | c in CharactersOf(w.db, p) ensures History(v.db.outbox, c) == [CharacterGenesis, CharacterDeleted] {
      GoneIsTombstoned(v, c);
    }
  }
}
