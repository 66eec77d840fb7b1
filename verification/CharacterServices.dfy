/** The genesis, reaping and guest services as they run, statement by statement,
    on one store. Every external call may fail; which calls fail is an argument.
 */
module CharacterServices {
  import opened CharacterDb
  import GuestProtocol

  datatype Outcome<E> = Ok | Err(error: E)

  datatype GenesisError = GuardError | PlayerReaping | GenesisFailed | BindingFailed | EnvelopeFailed | CommitFailed

  // The first statement of the genesis transaction that fails on its own.
  datatype GenesisFault = GenesisClean | GuardFault | InsertFault | BindingFault | EnvelopeFault | GenesisCommitFault

  datatype ReapError =
    | MarkFailed | ListFailed | BindingsFailed | PropertiesFailed | NotFound | ConcurrentEdit
    | DeleteFailed | TombstoneFailed | ReapCommitFailed | PlayerDeleteFailed

  datatype ReapFault =
    | ReapClean | BindingsFault | PropertiesFault | DeleteFault | TombstoneFault | ReapCommitFault

  datatype CleanupFaults = CleanupFaults(mark: bool, list: bool, reap: nat -> ReapFault, deletePlayer: bool)

  // Nothing edited or deleted the listed characters since the listing.
  ghost predicate Undisturbed(db: Db, todo: seq<(CharacterId, nat)>) {
    && (forall j :: 0 <= j < |todo| ==> VersionMatches(db, todo[j].0, todo[j].1))
    && (forall i, j :: 0 <= i < j < |todo| ==> todo[i].0 != todo[j].0)
  }

  lemma ReapLeavesRestUndisturbed(db: Db, todo: seq<(CharacterId, nat)>)
    requires Undisturbed(db, todo) && |todo| > 0
    ensures Undisturbed(CommitReap(db, todo[0].0), todo[1..])
  {
    forall j | 0 <= j < |todo[1..]|
      ensures VersionMatches(CommitReap(db, todo[0].0), todo[1..][j].0, todo[1..][j].1)
    {
      assert todo[1..][j] == todo[j + 1];
    }
  }

  predicate CanCreate(db: Db, c: CharacterId, p: PlayerId, bindReason: string, fault: GenesisFault) {
    && p in db.players && !db.players[p].reaping && c !in db.characters
    && (fault == GenesisClean || (fault == BindingFault && bindReason == ""))
  }

  // The first n listed characters have their tombstones, in order, behind the old feed.
  ghost predicate TombstonesAdded(before: seq<Envelope>, after: seq<Envelope>, todo: seq<(CharacterId, nat)>, n: nat) {
    && n <= |todo| && |after| == |before| + n && before <= after
    && forall i :: 0 <= i < n ==> after[|before| + i] == Envelope(CharacterDeleted, todo[i].0, SystemActor)
  }

  lemma PrefixEffect(db: Db, p: PlayerId, todo: seq<(CharacterId, nat)>, n: nat)
    requires p in db.players && n <= |todo|
    ensures var after := ReapAll(CommitMark(db, p), GuestProtocol.IdSeq(todo)[..n]);
            && after.players == db.players[p := db.players[p].(reaping := true)]
            && (forall c :: c in after.characters <==> c in db.characters && forall i :: 0 <= i < n ==> todo[i].0 != c)
            && TombstonesAdded(db.outbox, after.outbox, todo, n)
  {
    var ids := GuestProtocol.IdSeq(todo)[..n];
    ReapAllEffect(CommitMark(db, p), ids);
    assert forall i :: 0 <= i < n ==> ids[i] == todo[i].0;
    forall c ensures c in IdSet(ids) <==> !(forall i :: 0 <= i < n ==> todo[i].0 != c) {
      if i :| 0 <= i < n && todo[i].0 == c { assert ids[i] == c; }
    }
  }

  lemma WholeEffect(db: Db, p: PlayerId, todo: seq<(CharacterId, nat)>)
    requires p in db.players && GuestProtocol.IsListing(db, p, todo)
    ensures var after := GuestProtocol.Reaped(db, p, todo);
            && (forall q :: q in after.players <==> q in db.players && q != p)
            && (forall c :: c in after.characters <==> c in db.characters && db.characters[c].owner != p)
            && TombstonesAdded(db.outbox, after.outbox, todo, |todo|)
  {
    GuestProtocol.ReapedEffect(db, p, todo);
    PrefixEffect(db, p, todo, |todo|);
    assert GuestProtocol.IdSeq(todo)[..|todo|] == GuestProtocol.IdSeq(todo);
  }

  class CharacterStore {
    var players: map<PlayerId, Player>
    var characters: map<CharacterId, Character>
    var bindings: set<(PlayerId, CharacterId)>
    var properties: set<(CharacterId, string)>
    var outbox: seq<Envelope>

    ghost function Snapshot(): Db
      reads this
    {
      Db(players, characters, bindings, properties, outbox)
    }

    constructor ()
      ensures Snapshot() == EMPTY_DB
    {
      players, characters, bindings, properties, outbox := map[], map[], {}, {}, [];
    }

    // CharacterGenesisService.Create: all of {row, binding, envelope} or nothing.
    method Create(c: CharacterId, p: PlayerId, bindReason: string, fault: GenesisFault)
      returns (r: Outcome<GenesisError>)
      modifies this
      ensures r.Ok? ==>
        && characters == old(characters)[c := Character(p, 1)]
        && bindings == old(bindings) + (if bindReason != "" then {(p, c)} else {})
        && outbox == old(outbox) + [Envelope(CharacterGenesis, c, PlayerActor(p))]
        && players == old(players) && properties == old(properties)
      ensures r.Ok? ==> Snapshot() == CommitGenesis(old(Snapshot()), c, p, bindReason != "")
      ensures r.Err? ==> Snapshot() == old(Snapshot())
      ensures r.Ok? <==> p in old(players) && !old(players)[p].reaping && c !in old(characters)
                         && (fault == GenesisClean || (fault == BindingFault && bindReason == ""))
      ensures r.Ok? <==> CanCreate(old(Snapshot()), c, p, bindReason, fault)
      ensures fault == GuardFault ==> r == Err(GuardError)
      ensures fault != GuardFault && p in old(players) && old(players)[p].reaping ==> r == Err(PlayerReaping)
      ensures fault != GuardFault && p !in old(players) ==> r == Err(GenesisFailed)
    {
      var characters0, bindings0, outbox0 := characters, bindings, outbox;
      if fault == GuardFault { return Err(GuardError); }
      if p in players && players[p].reaping { return Err(PlayerReaping); }
      if fault == InsertFault || p !in players || c in characters { return Err(GenesisFailed); }
      characters := characters[c := Character(p, FIRST_VERSION)];
      if bindReason != "" {
        if fault == BindingFault {
          characters := characters0;
          return Err(BindingFailed);
        }
        bindings := bindings + {(p, c)};
      }
      if fault == EnvelopeFault {
        characters, bindings := characters0, bindings0;
        return Err(EnvelopeFailed);
      }
      outbox := outbox + [GenesisEnvelope(c, p)];
      if fault == GenesisCommitFault {
        characters, bindings, outbox := characters0, bindings0, outbox0;
        return Err(CommitFailed);
      }
      return Ok;
    }

    // reapCharacter: bindings, properties, guarded delete and tombstone as one unit.
    method ReapCharacter(c: CharacterId, version: nat, fault: ReapFault) returns (r: Outcome<ReapError>)
      modifies this
      ensures r.Ok? ==>
        && c !in characters && (forall d :: d != c ==> (d in characters <==> d in old(characters)))
        && (forall d :: d in characters ==> characters[d] == old(characters)[d])
        && (forall b :: b in bindings <==> b in old(bindings) && b.1 != c)
        && (forall q :: q in properties <==> q in old(properties) && q.0 != c)
        && outbox == old(outbox) + [Envelope(CharacterDeleted, c, SystemActor)]
        && players == old(players)
      ensures r.Ok? ==> Snapshot() == CommitReap(old(Snapshot()), c)
      ensures r.Err? ==> Snapshot() == old(Snapshot())
      ensures r.Ok? <==> fault == ReapClean && c in old(characters)
                         && (version == 0 || old(characters)[c].version == version)
      ensures fault !in {BindingsFault, PropertiesFault} && c !in old(characters) ==> r == Err(NotFound)
      ensures fault !in {BindingsFault, PropertiesFault} && version > 0 && c in old(characters) ==>
        (old(characters)[c].version != version ==> r == Err(ConcurrentEdit))
      ensures r.Err? ==> r.error !in {MarkFailed, ListFailed, PlayerDeleteFailed}
    {
      var bindings0, properties0, characters0, outbox0 := bindings, properties, characters, outbox;
      if fault == BindingsFault { return Err(BindingsFailed); }
      bindings := set b | b in bindings && b.1 != c;
      if fault == PropertiesFault {
        bindings := bindings0;
        return Err(PropertiesFailed);
      }
      properties := set q | q in properties && q.0 != c;
      if c !in characters || (version > 0 && characters[c].version != version) || fault == DeleteFault {
        bindings, properties := bindings0, properties0;
        return Err(if c !in characters then NotFound
                   else if version > 0 && characters[c].version != version then ConcurrentEdit
                   else DeleteFailed);
      }
      // The RESTRICT foreign key from bindings to characters has nothing to object to.
      assert forall b :: b in bindings ==> b.1 != c;
      characters := characters - {c};
      if fault == TombstoneFault {
        bindings, properties, characters := bindings0, properties0, characters0;
        return Err(TombstoneFailed);
      }
      outbox := outbox + [Tombstone(c)];
      if fault == ReapCommitFault {
        bindings, properties, characters, outbox := bindings0, properties0, characters0, outbox0;
        return Err(ReapCommitFailed);
      }
      return Ok;
    }

    // The version-scanning lister: every character of the player, at its stored version.
    method ListByPlayer(p: PlayerId) returns (todo: seq<(CharacterId, nat)>)
      ensures forall c, v ::
        (c, v) in todo <==> c in characters && characters[c].owner == p && characters[c].version == v
      ensures forall i, j :: 0 <= i < j < |todo| ==> todo[i].0 != todo[j].0
      ensures GuestProtocol.IsListing(Snapshot(), p, todo)
    {
      todo := [];
      var left := set c | c in characters && characters[c].owner == p;
      while left != {}
        invariant left <= CharactersOf(Snapshot(), p)
        invariant forall i :: 0 <= i < |todo| ==>
          todo[i].0 in CharactersOf(Snapshot(), p) && todo[i].0 !in left && todo[i].1 == characters[todo[i].0].version
        invariant forall i, j :: 0 <= i < j < |todo| ==> todo[i].0 != todo[j].0
        invariant forall c :: c in CharactersOf(Snapshot(), p) ==> c in left || c in GuestProtocol.Ids(todo)
        decreases left
      {
        var c :| c in left;
        ghost var before := todo;
        todo := todo + [(c, characters[c].version)];
        left := left - {c};
        assert forall d :: d in GuestProtocol.Ids(before) ==> d in GuestProtocol.Ids(todo) by {
          forall d | d in GuestProtocol.Ids(before) ensures d in GuestProtocol.Ids(todo) {
            var i :| 0 <= i < |before| && before[i].0 == d;
            assert todo[i].0 == d;
          }
        }
        assert todo[|before|].0 == c;
      }
      forall c, v | c in characters && characters[c].owner == p && characters[c].version == v ensures (c, v) in todo {
        assert c in GuestProtocol.Ids(todo);
        var i :| 0 <= i < |todo| && todo[i].0 == c;
        assert todo[i] == (c, v);
      }
    }

    // Stage 3: one unit per listed character, stopping at the first failure.
    method ReapCharacters(chars: seq<(CharacterId, nat)>, faults: nat -> ReapFault)
      returns (r: Outcome<ReapError>, ghost done: nat)
      modifies this
      ensures done <= |chars| && (r.Ok? ==> done == |chars|)
      ensures Snapshot() == ReapAll(old(Snapshot()), GuestProtocol.IdSeq(chars)[..done])
      ensures r.Err? ==> r.error !in {MarkFailed, ListFailed, PlayerDeleteFailed}
      ensures ((forall i :: faults(i) == ReapClean) && Undisturbed(old(Snapshot()), chars)) ==> r.Ok?
    {
      ghost var ids := GuestProtocol.IdSeq(chars);
      ghost var quiet := Undisturbed(Snapshot(), chars);
      done := 0;
      assert ids[..0] == [] && chars[0..] == chars;
      for i := 0 to |chars|
        invariant done == i
        invariant Snapshot() == ReapAll(old(Snapshot()), ids[..i])
        invariant quiet ==> Undisturbed(Snapshot(), chars[i..])
      {
        assert ids[..i + 1][..i] == ids[..i];
        if quiet { ReapLeavesRestUndisturbed(Snapshot(), chars[i..]); }
        assert chars[i..][1..] == chars[i + 1..] && chars[i..][0] == chars[i];
        var e := ReapCharacter(chars[i].0, chars[i].1, faults(i));
        if e.Err? { return e, done; }
        done := i + 1;
      }
      return Ok, done;
    }

    // Stage 4: the player row, with its foreign-key cascades.
    method DeletePlayerRow(p: PlayerId)
      modifies this
      ensures p !in players && (forall q :: q != p ==> (q in players <==> q in old(players)))
      ensures forall q :: q in players ==> players[q] == old(players)[q]
      ensures forall c :: c in characters <==> c in old(characters) && old(characters)[c].owner != p
      ensures forall c :: c in characters ==> characters[c] == old(characters)[c]
      ensures forall b :: b in bindings <==> b in old(bindings) && b.0 != p
      ensures properties == old(properties) && outbox == old(outbox)
      ensures Snapshot() == CommitPlayerDelete(old(Snapshot()), p)
    {
      characters := map c | c in characters && characters[c].owner != p :: characters[c];
      bindings := set b | b in bindings && b.0 != p;
      players := players - {p};
      assert characters == old(characters) - CharactersOf(old(Snapshot()), p);
    }

    /** CharacterReapingService.DeleteGuestPlayer. On success the player and all of
        its characters are gone and tombstoned; when it gives up after the mark, the
        mark and exactly the first `done` tombstones stay. */
    method DeleteGuestPlayer(p: PlayerId, faults: CleanupFaults)
      returns (r: Outcome<ReapError>, ghost todo: seq<(CharacterId, nat)>, ghost done: nat)
      modifies this
      ensures r.Ok? ==>
        && p in old(players) && old(players)[p].guest
        && GuestProtocol.IsListing(old(Snapshot()), p, todo)
        && Snapshot() == GuestProtocol.Reaped(old(Snapshot()), p, todo)
      ensures r == Err(MarkFailed) ==> Snapshot() == old(Snapshot())
      ensures r.Err? && r != Err(MarkFailed) ==>
        && p in old(players) && done <= |todo|
        && Snapshot() == ReapAll(CommitMark(old(Snapshot()), p), GuestProtocol.IdSeq(todo)[..done])
        && (done > 0 ==> GuestProtocol.IsListing(old(Snapshot()), p, todo))
      ensures r.Err? && r != Err(MarkFailed) ==>
        && players == old(players)[p := Player(true, true)] && done <= |todo|
        && (forall c :: c in characters <==> c in old(characters) && forall i :: 0 <= i < done ==> todo[i].0 != c)
        && TombstonesAdded(old(outbox), outbox, todo, done)
      ensures r.Ok? ==>
        && (forall q :: q in players <==> q in old(players) && q != p)
        && (forall c :: c in characters <==> c in old(characters) && old(characters)[c].owner != p)
        && TombstonesAdded(old(outbox), outbox, todo, |todo|)
      ensures r == Err(MarkFailed) <==> faults.mark || p !in old(players) || !old(players)[p].guest
      ensures (p in old(players) && old(players)[p].guest && !faults.mark && !faults.list && !faults.deletePlayer
               && forall i :: faults.reap(i) == ReapClean) ==> r.Ok?
    {
      todo, done := [], 0;
      if faults.mark || p !in players || !players[p].guest { return Err(MarkFailed), todo, done; }
      players := players[p := players[p].(reaping := true)];
      ghost var marked := Snapshot();
      if faults.list {
        assert GuestProtocol.IdSeq(todo)[..0] == [];
        PrefixEffect(old(Snapshot()), p, todo, 0);
        return Err(ListFailed), todo, done;
      }
      var chars := ListByPlayer(p);
      todo := chars;
      assert GuestProtocol.IsListing(old(Snapshot()), p, todo) by {
        assert CharactersOf(marked, p) == CharactersOf(old(Snapshot()), p);
      }
      var e;
      e, done := ReapCharacters(chars, faults.reap);
      PrefixEffect(old(Snapshot()), p, todo, done);
      if e.Err? { return e, todo, done; }
      assert GuestProtocol.IdSeq(todo)[..done] == GuestProtocol.IdSeq(todo);
      if faults.deletePlayer { return Err(PlayerDeleteFailed), todo, done; }
      DeletePlayerRow(p);
      WholeEffect(old(Snapshot()), p, todo);
      return Ok, todo, done;
    }
  }
}
