/** GuestService.CreateGuest: name acquisition with bounded retries, then player,
    genesis and session in sequence, with compensation on every failing path.
 */
module GuestCreation {
  import opened Options
  import opened CharacterDb
  import opened CharacterServices
  import GuestProtocol

  const MAX_NAME_RETRIES := 10
  const GUEST_BIND_REASON := "initial_bind_guest"

  datatype GuestError = NameGenerateFailed | NameExhausted | GuestCreateFailed

  datatype GuestResult = Guest(name: string, player: PlayerId, character: CharacterId) | NoGuest(error: GuestError)

  // What the surroundings do: the names that GenerateName yields, and which calls fail.
  datatype Surroundings = Surroundings(
    draw: nat -> Option<string>,
    lookupFails: nat -> bool,
    stored: set<string>,
    newPlayerFails: bool,
    newCharacterFails: bool,
    playerInsertFails: bool,
    genesis: GenesisFault,
    tokenFails: bool,
    newSessionFails: bool,
    sessionInsertFails: bool,
    cleanup: CleanupFaults)

  // Stored character names use spaces where the namer uses underscores.
  function DisplayName(name: string): (shown: string)
    ensures |shown| == |name|
    ensures forall i :: 0 <= i < |name| ==> shown[i] == if name[i] == '_' then ' ' else name[i]
  {
    seq(|name|, i requires 0 <= i < |name| => if name[i] == '_' then ' ' else name[i])
  }

  ghost predicate DrawnTaken(s: Surroundings, i: nat) {
    s.draw(i).Some? && !s.lookupFails(i) && DisplayName(s.draw(i).value) in s.stored
  }

  ghost predicate DrawnFree(s: Surroundings, i: nat) {
    s.draw(i).Some? && !s.lookupFails(i) && DisplayName(s.draw(i).value) !in s.stored
  }

  // The draw that AcquireUniqueName settles on.
  ghost predicate FirstFree(s: Surroundings, i: nat) {
    DrawnFree(s, i) && forall j: nat :: j < i ==> DrawnTaken(s, j)
  }

  lemma FailedDrawSettlesNothing(s: Surroundings, i: nat, k: nat)
    requires !DrawnTaken(s, i) && !DrawnFree(s, i) && forall j: nat :: j < i ==> DrawnTaken(s, j)
    ensures !FirstFree(s, k)
  {
    if k < i { assert DrawnTaken(s, k); }
  }

  // No row mentions the identifiers: they were minted for this call.
  ghost predicate FreshIds(db: Db, p: PlayerId, c: CharacterId) {
    && p !in db.players && c !in db.characters
    && CharactersOf(db, p) == {}
    && (forall b :: b in db.bindings ==> b.0 != p && b.1 != c)
    && (forall r :: r in db.properties ==> r.0 != c)
  }

  function WithGuest(db: Db, p: PlayerId): Db {
    db.(players := db.players[p := Player(true, false)])
  }

  // Nothing of the guest is left but, at most, a genesis paired with its tombstone.
  ghost predicate Vanished(before: Db, after: Db, p: PlayerId, c: CharacterId) {
    && after.players == before.players && after.characters == before.characters
    && after.bindings == before.bindings && after.properties == before.properties
    && (after.outbox == before.outbox || after.outbox == before.outbox + [GenesisEnvelope(c, p), Tombstone(c)])
  }

  // The cleanup gave up: the player stays, and the feed still tells whether the
  // character does.
  ghost predicate Orphaned(before: Db, after: Db, p: PlayerId, c: CharacterId) {
    && after.players.Keys == before.players.Keys + {p}
    && after.characters.Keys - {c} == before.characters.Keys
    && (c in after.characters <==> after.outbox == before.outbox + [GenesisEnvelope(c, p)])
    && (c in after.characters
        || after.outbox == before.outbox
        || after.outbox == before.outbox + [GenesisEnvelope(c, p), Tombstone(c)])
  }

  ghost predicate ReapedPrefix(before: Db, after: Db, p: PlayerId, todo: seq<(CharacterId, nat)>, done: nat)
    requires p in before.players
  {
    && done <= |todo|
    && (done > 0 ==> GuestProtocol.IsListing(before, p, todo))
    && after == ReapAll(CommitMark(before, p), GuestProtocol.IdSeq(todo)[..done])
  }

  // What DeleteGuestPlayer leaves behind, whether or not it succeeded.
  ghost predicate AfterReap(before: Db, after: Db, p: PlayerId, cleaned: bool) {
    if cleaned then
      p in before.players && exists todo ::
        GuestProtocol.IsListing(before, p, todo) && after == GuestProtocol.Reaped(before, p, todo)
    else
      || after == before
      || (p in before.players && exists todo, done: nat :: ReapedPrefix(before, after, p, todo, done))
  }

  lemma {:induction false} DistinctSize(ids: seq<CharacterId>)
    requires forall i, j :: 0 <= i < j < |ids| ==> ids[i] != ids[j]
    ensures |IdSet(ids)| == |ids|
  {
    if |ids| == 0 {
      assert IdSet(ids) == {};
    } else {
      var front, last := ids[..|ids| - 1], ids[|ids| - 1];
      DistinctSize(front);
      assert ids == front + [last];
      var rest := IdSet(front);
      assert last !in rest;
      assert IdSet(ids) == rest + {last};
    }
  }

  lemma ListingOfAtMostOne(db: Db, p: PlayerId, c: CharacterId, todo: seq<(CharacterId, nat)>)
    requires GuestProtocol.IsListing(db, p, todo) && CharactersOf(db, p) <= {c}
    ensures GuestProtocol.IdSeq(todo) == if c in CharactersOf(db, p) then [c] else []
  {
    var ids := GuestProtocol.IdSeq(todo);
    DistinctSize(ids);
    GuestProtocol.ListingIds(db, p, todo);
    if c in CharactersOf(db, p) {
      assert CharactersOf(db, p) == {c};
      assert ids[0] in IdSet(ids);
    } else {
      assert CharactersOf(db, p) == {};
    }
  }

  // The database that a failing CreateGuest hands to the cleanup.
  function HalfMade(db: Db, p: PlayerId, c: CharacterId, committed: bool): Db {
    if committed then CommitGenesis(WithGuest(db, p), c, p, true) else WithGuest(db, p)
  }

  lemma HalfMadeOwns(db: Db, p: PlayerId, c: CharacterId, committed: bool)
    requires FreshIds(db, p, c)
    ensures CharactersOf(HalfMade(db, p, c, committed), p) == if committed then {c} else {}
  {
    assert forall d :: d in db.characters ==> d !in CharactersOf(db, p);
  }

  lemma CleanedVanishes(db: Db, p: PlayerId, c: CharacterId, committed: bool, after: Db)
    requires FreshIds(db, p, c) && AfterReap(HalfMade(db, p, c, committed), after, p, true)
    ensures Vanished(db, after, p, c)
  {
    var half := HalfMade(db, p, c, committed);
    var todo :| GuestProtocol.IsListing(half, p, todo) && after == GuestProtocol.Reaped(half, p, todo);
    HalfMadeOwns(db, p, c, committed);
    ListingOfAtMostOne(half, p, c, todo);
    GuestProtocol.ReapedEffect(half, p, todo);
    var gone := CharactersOf(half, p);
    UndoRows(db, p, c, committed);
    UndoAttached(db, p, c, committed);
    assert Tombstones(GuestProtocol.IdSeq(todo)) == if committed then [Tombstone(c)] else [];
  }

  // Taking the guest's rows out again leaves the tables as they were.
  lemma UndoRows(db: Db, p: PlayerId, c: CharacterId, committed: bool)
    requires FreshIds(db, p, c)
    ensures var half := HalfMade(db, p, c, committed);
            var gone := if committed then {c} else {};
            half.players - {p} == db.players && half.characters - gone == db.characters
  {
    assert db.players[p := Player(true, false)] - {p} == db.players;
    assert db.characters[c := Character(p, FIRST_VERSION)] - {c} == db.characters;
    assert db.characters - {} == db.characters;
  }

  lemma UndoAttached(db: Db, p: PlayerId, c: CharacterId, committed: bool)
    requires FreshIds(db, p, c)
    ensures var half := HalfMade(db, p, c, committed);
            var gone := if committed then {c} else {};
            && (set r | r in half.properties && r.0 !in gone) == db.properties
            && (set b | b in half.bindings && b.0 != p && b.1 !in gone) == db.bindings
  {
  }

  lemma UncleanedOrphans(db: Db, p: PlayerId, c: CharacterId, committed: bool, after: Db)
    requires FreshIds(db, p, c) && AfterReap(HalfMade(db, p, c, committed), after, p, false)
    ensures Orphaned(db, after, p, c)
  {
    var half := HalfMade(db, p, c, committed);
    HalfMadeOwns(db, p, c, committed);
    if after != half {
      var todo, done: nat :| ReapedPrefix(half, after, p, todo, done);
      var ids := GuestProtocol.IdSeq(todo)[..done];
      if done > 0 { ListingOfAtMostOne(half, p, c, todo); }
      assert ids == [] || (committed && ids == [c]);
      PrefixOrphans(db, p, c, committed, ids);
    }
  }

  lemma PrefixOrphans(db: Db, p: PlayerId, c: CharacterId, committed: bool, ids: seq<CharacterId>)
    requires FreshIds(db, p, c) && (ids == [] || (committed && ids == [c]))
    ensures Orphaned(db, ReapAll(CommitMark(HalfMade(db, p, c, committed), p), ids), p, c)
  {
    ReapAllEffect(CommitMark(HalfMade(db, p, c, committed), p), ids);
    if ids == [] {
      assert IdSet(ids) == {} && Tombstones(ids) == [];
    } else {
      assert IdSet(ids) == {c} && Tombstones(ids) == [Tombstone(c)];
    }
  }

  class GuestService {
    const store: CharacterStore
    var held: multiset<string>  // names generated and not released
    var sessions: set<PlayerId>

    constructor (store: CharacterStore)
      ensures this.store == store && held == multiset{} && sessions == {}
    {
      this.store := store;
      held, sessions := multiset{}, {};
    }

    method Release(name: string)
      modifies this`held
      ensures held == old(held) - multiset{name}
    {
      held := held - multiset{name};
    }

    method AcquireUniqueName(s: Surroundings) returns (r: Option<string>, e: GuestError)
      modifies this`held
      ensures r.Some? ==> held == old(held) + multiset{r.value}
      ensures r.None? ==> held == old(held)
      ensures r.Some? <==> exists i: nat :: i < 10 && FirstFree(s, i)
      ensures r.Some? ==> exists i: nat :: i < 10 && FirstFree(s, i) && s.draw(i) == r
      ensures r.Some? ==> DisplayName(r.value) !in s.stored
      ensures r.None? ==> (e == NameExhausted <==> forall j: nat :: j < 10 ==> DrawnTaken(s, j))
      ensures r.None? && e == NameGenerateFailed ==> exists i: nat :: i < 10 && s.draw(i).None?
      ensures r.None? && e == GuestCreateFailed ==> exists i: nat :: i < 10 && s.draw(i).Some? && s.lookupFails(i)
    {
      r, e := None, NameExhausted;
      for i := 0 to MAX_NAME_RETRIES
        invariant held == old(held)
        invariant forall j: nat :: j < i ==> DrawnTaken(s, j)
      {
        var drawn := s.draw(i);
        if drawn.None? {
          forall k: nat ensures !FirstFree(s, k) { FailedDrawSettlesNothing(s, i, k); }
          assert !DrawnTaken(s, i);
          return None, NameGenerateFailed;
        }
        var name := drawn.value;
        held := held + multiset{name};
        if s.lookupFails(i) {
          Release(name);
          forall k: nat ensures !FirstFree(s, k) { FailedDrawSettlesNothing(s, i, k); }
          assert !DrawnTaken(s, i);
          return None, GuestCreateFailed;
        }
        if DisplayName(name) !in s.stored {
          assert FirstFree(s, i) && s.draw(i) == Some(name);
          return Some(name), e;
        }
        Release(name);
      }
      forall k: nat | k < MAX_NAME_RETRIES ensures !FirstFree(s, k) { assert DrawnTaken(s, k); }
    }

    // Failed-guest cleanup: best effort, the error is only logged.
    method CleanupGuestPlayer(p: PlayerId, faults: CleanupFaults) returns (ghost cleaned: bool)
      modifies store
      ensures AfterReap(old(store.Snapshot()), store.Snapshot(), p, cleaned)
      ensures (p in old(store.players) && old(store.players)[p].guest && !faults.mark && !faults.list
               && !faults.deletePlayer && forall i :: faults.reap(i) == ReapClean) ==> cleaned
    {
      ghost var todo: seq<(CharacterId, nat)>, done: nat;
      var e;
      e, todo, done := store.DeleteGuestPlayer(p, faults);
      cleaned := e.Ok?;
      assert !cleaned ==> e == Err(MarkFailed) || ReapedPrefix(old(store.Snapshot()), store.Snapshot(), p, todo, done);
    }

    // Every failure after the player row is committed ends here.
    method Abandon(name: string, p: PlayerId, ghost c: CharacterId, faults: CleanupFaults,
                   ghost before: Db, ghost committed: bool)
      returns (ghost cleaned: bool)
      requires FreshIds(before, p, c) && store.Snapshot() == HalfMade(before, p, c, committed)
      modifies this`held, store
      ensures held == old(held) - multiset{name}
      ensures cleaned ==> Vanished(before, store.Snapshot(), p, c)
      ensures !cleaned ==> Orphaned(before, store.Snapshot(), p, c)
      ensures (!faults.mark && !faults.list && !faults.deletePlayer && forall i :: faults.reap(i) == ReapClean)
              ==> cleaned
    {
      Release(name);
      cleaned := CleanupGuestPlayer(p, faults);
      if cleaned {
        CleanedVanishes(before, p, c, committed, store.Snapshot());
      } else {
        UncleanedOrphans(before, p, c, committed, store.Snapshot());
      }
    }

    /** Names: on success exactly the guest's name stays held, on failure none.
        Rows: on failure with a clean cleanup nothing of the guest remains, and a
        genesis that was committed has its tombstone; when the cleanup fails too,
        the player row stays and the feed still agrees with the character row. */
    method CreateGuest(p: PlayerId, c: CharacterId, s: Surroundings)
      returns (r: GuestResult, ghost cleaned: bool)
      requires FreshIds(store.Snapshot(), p, c)
      modifies this, store
      ensures r.Guest? ==>
        && held == old(held) + multiset{r.name} && DisplayName(r.name) !in s.stored
        && r.player == p && r.character == c && sessions == old(sessions) + {p}
        && store.Snapshot() == CommitGenesis(WithGuest(old(store.Snapshot()), p), c, p, true)
      ensures r.Guest? <==>
        && (exists i: nat :: i < 10 && FirstFree(s, i))
        && !s.newPlayerFails && !s.newCharacterFails && !s.playerInsertFails && s.genesis == GenesisClean
        && !s.tokenFails && !s.newSessionFails && !s.sessionInsertFails
      ensures r.Guest? ==>
        && (exists i: nat :: i < 10 && FirstFree(s, i) && s.draw(i) == Some(r.name))
        && store.players == old(store.players)[p := Player(true, false)]
        && store.characters == old(store.characters)[c := Character(p, 1)]
        && store.bindings == old(store.bindings) + {(p, c)}
        && store.outbox == old(store.outbox) + [Envelope(CharacterGenesis, c, PlayerActor(p))]
        && store.properties == old(store.properties)
      ensures r.NoGuest? ==> held == old(held) && sessions == old(sessions)
      ensures r.NoGuest? && cleaned ==> Vanished(old(store.Snapshot()), store.Snapshot(), p, c)
      ensures r.NoGuest? && !cleaned ==> Orphaned(old(store.Snapshot()), store.Snapshot(), p, c)
      ensures (!s.cleanup.mark && !s.cleanup.list && !s.cleanup.deletePlayer
               && forall i :: s.cleanup.reap(i) == ReapClean) ==> cleaned
    {
      cleaned := true;
      var acquired, e := AcquireUniqueName(s);
      if acquired.None? { return NoGuest(e), cleaned; }
      var name := acquired.value;
      if s.newPlayerFails || s.newCharacterFails || s.playerInsertFails {
        Release(name);
        return NoGuest(GuestCreateFailed), cleaned;
      }
      r, cleaned := Persist(name, p, c, s);
    }

    // The second half of CreateGuest: player row, genesis and session.
    method Persist(name: string, p: PlayerId, c: CharacterId, s: Surroundings)
      returns (r: GuestResult, ghost cleaned: bool)
      requires FreshIds(store.Snapshot(), p, c)
      modifies this, store
      ensures r.Guest? <==> s.genesis == GenesisClean && !s.tokenFails && !s.newSessionFails && !s.sessionInsertFails
      ensures r.Guest? ==>
        && r == Guest(name, p, c) && held == old(held) && sessions == old(sessions) + {p}
        && store.Snapshot() == CommitGenesis(WithGuest(old(store.Snapshot()), p), c, p, true)
      ensures r.NoGuest? ==> held == old(held) - multiset{name} && sessions == old(sessions)
      ensures r.NoGuest? && cleaned ==> Vanished(old(store.Snapshot()), store.Snapshot(), p, c)
      ensures r.NoGuest? && !cleaned ==> Orphaned(old(store.Snapshot()), store.Snapshot(), p, c)
      ensures (!s.cleanup.mark && !s.cleanup.list && !s.cleanup.deletePlayer
               && forall i :: s.cleanup.reap(i) == ReapClean) ==> cleaned
    {
      ghost var before := store.Snapshot();
      cleaned := true;
      store.players := store.players[p := Player(true, false)];
      var g := store.Create(c, p, GUEST_BIND_REASON, s.genesis);
      if g.Err? {
        cleaned := Abandon(name, p, c, s.cleanup, before, false);
        return NoGuest(GuestCreateFailed), cleaned;
      }
      if s.tokenFails || s.newSessionFails || s.sessionInsertFails {
        cleaned := Abandon(name, p, c, s.cleanup, before, true);
        return NoGuest(GuestCreateFailed), cleaned;
      }
      sessions := sessions + {p};
      return Guest(name, p, c), cleaned;
    }
  }
}
