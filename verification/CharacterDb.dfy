/** The tables that guest character creation and reaping touch, and the four
    units of work that the services commit to them.

    A unit of work is one database transaction: it is visible to others only as
    a whole. `GuestProtocol` interleaves these units, `CharacterServices` runs
    the statements inside them.
 */
module CharacterDb {

  type PlayerId = nat
  type CharacterId = nat

  datatype Player = Player(guest: bool, reaping: bool)

  datatype Character = Character(owner: PlayerId, version: nat)

  datatype Kind = CharacterGenesis | CharacterDeleted

  datatype Actor = PlayerActor(id: PlayerId) | SystemActor

  datatype Envelope = Envelope(kind: Kind, character: CharacterId, actor: Actor)

  datatype Db = Db(
    players: map<PlayerId, Player>,
    characters: map<CharacterId, Character>,
    bindings: set<(PlayerId, CharacterId)>,
    properties: set<(CharacterId, string)>,
    outbox: seq<Envelope>)

  const EMPTY_DB := Db(map[], map[], {}, {}, [])

  // The version column's default: a stored version is never 0, so the guarded
  // delete of a listed character is always a compare-and-swap.
  const FIRST_VERSION := 1

  function GenesisEnvelope(c: CharacterId, owner: PlayerId): Envelope {
    Envelope(CharacterGenesis, c, PlayerActor(owner))
  }

  function Tombstone(c: CharacterId): Envelope {
    Envelope(CharacterDeleted, c, SystemActor)
  }

  function CharactersOf(db: Db, p: PlayerId): set<CharacterId> {
    set c | c in db.characters && db.characters[c].owner == p
  }

  function WithoutCharacterBindings(db: Db, c: CharacterId): Db {
    db.(bindings := set b | b in db.bindings && b.1 != c)
  }

  function WithoutProperties(db: Db, c: CharacterId): Db {
    db.(properties := set r | r in db.properties && r.0 != c)
  }

  // {character row, optional binding, genesis envelope} in one commit.
  function CommitGenesis(db: Db, c: CharacterId, p: PlayerId, bind: bool): Db {
    db.(characters := db.characters[c := Character(p, FIRST_VERSION)],
        bindings := db.bindings + (if bind then {(p, c)} else {}),
        outbox := db.outbox + [GenesisEnvelope(c, p)])
  }

  // {binding removal, property cascade, character row, tombstone} in one commit.
  function CommitReap(db: Db, c: CharacterId): Db {
    var cleared := WithoutProperties(WithoutCharacterBindings(db, c), c);
    cleared.(characters := cleared.characters - {c}, outbox := cleared.outbox + [Tombstone(c)])
  }

  function CommitMark(db: Db, p: PlayerId): Db
    requires p in db.players
  {
    db.(players := db.players[p := db.players[p].(reaping := true)])
  }

  // Deleting a player row cascades to its characters and to its bindings.
  function CommitPlayerDelete(db: Db, p: PlayerId): Db {
    db.(players := db.players - {p},
        characters := db.characters - CharactersOf(db, p),
        bindings := set b | b in db.bindings && b.0 != p)
  }

  // What the guarded delete of a character decides about the stored row.
  predicate VersionMatches(db: Db, c: CharacterId, expected: nat) {
    c in db.characters && (expected > 0 ==> db.characters[c].version == expected)
  }

  // One character's part of the feed, in feed order.
  function History(outbox: seq<Envelope>, c: CharacterId): seq<Kind> {
    if |outbox| == 0 then []
    else
      var last := outbox[|outbox| - 1];
      History(outbox[..|outbox| - 1], c) + (if last.character == c then [last.kind] else [])
  }

  lemma HistoryAppend(outbox: seq<Envelope>, e: Envelope, c: CharacterId)
    ensures History(outbox + [e], c)
         == History(outbox, c) + (if e.character == c then [e.kind] else [])
  {
    assert (outbox + [e])[..|outbox|] == outbox;
  }

  // The feed never shows a character deleted before it was created, created
  // twice, or deleted twice.
  predicate LawfulHistory(h: seq<Kind>) {
    h == [] || h == [CharacterGenesis] || h == [CharacterGenesis, CharacterDeleted]
  }

  // Tombstone `cs` one after the other.
  function ReapAll(db: Db, cs: seq<CharacterId>): Db {
    if |cs| == 0 then db else CommitReap(ReapAll(db, cs[..|cs| - 1]), cs[|cs| - 1])
  }

  function IdSet(cs: seq<CharacterId>): set<CharacterId> {
    set c | c in cs
  }

  function Tombstones(cs: seq<CharacterId>): seq<Envelope> {
    seq(|cs|, i requires 0 <= i < |cs| => Tombstone(cs[i]))
  }

  // The net effect of a sequence of reaps: the listed rows and everything that
  // hangs off them are gone, one tombstone each is appended in list order, and
  // nothing else moves.
  lemma {:induction false} ReapAllEffect(db: Db, cs: seq<CharacterId>)
    ensures var after := ReapAll(db, cs);
            && after.players == db.players
            && after.characters == db.characters - IdSet(cs)
            && after.bindings == (set b | b in db.bindings && b.1 !in cs)
            && after.properties == (set r | r in db.properties && r.0 !in cs)
            && after.outbox == db.outbox + Tombstones(cs)
  {
    if |cs| > 0 {
      var front := cs[..|cs| - 1];
      var c := cs[|cs| - 1];
      ReapAllEffect(db, front);
      assert cs == front + [c];
      assert Tombstones(cs) == Tombstones(front) + [Tombstone(c)];
      assert IdSet(cs) == IdSet(front) + {c};
    }
  }
}
