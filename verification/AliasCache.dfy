/** The alias cache: player aliases over system aliases, cycle-rejecting updates,
    validated bulk loads, and runs of all of them.
 */
module AliasCaching {
  import opened Options
  import opened CommandWords
  import opened AliasGraph

  type PlayerId = nat

  const MAX_EXPANSION_DEPTH: nat := 10

  // The zero identifier, under which the system alias check looks up players.
  const NO_PLAYER: PlayerId := 0

  datatype Cache = Cache(players: map<PlayerId, Table>, system: Table)

  const EMPTY_CACHE := Cache(map[], map[])

  function PlayerTable(c: Cache, p: PlayerId): Table {
    if p in c.players then c.players[p] else map[]
  }

  // What a player sees: its own aliases win over the system's.
  function Overlay(c: Cache, p: PlayerId): Table {
    c.system + PlayerTable(c, p)
  }

  // The bounded check walks at most nine hops and accepts only a chain that ends.
  predicate CheckPasses(t: Table, alias: string) {
    HaltsWithin(t, alias, MAX_EXPANSION_DEPTH - 1)
  }

  /** The check passes exactly when no ten hops can be made. */
  lemma CheckPassesIff(t: Table, alias: string)
    ensures CheckPasses(t, alias) <==> Walk(t, alias, 10) == None
  {
    HaltsIffNoWalk(t, alias, MAX_EXPANSION_DEPTH - 1);
  }

  predicate AllSpace(s: string) {
    forall i :: 0 <= i < |s| ==> IsSpace(s[i])
  }

  ghost predicate EntriesOk(t: Table) {
    forall a :: a in t ==> !AllSpace(a) && !AllSpace(t[a])
  }

  ghost predicate SetOk(t: Table) {
    forall a :: a in t ==> CheckPasses(t, a)
  }

  /** What a validated load accepts: keys and commands with something other than white
      space in them, and no chain of ten hops.
   */
  lemma ValidatedIff(t: Table)
    ensures EntriesOk(t)
       <==> forall a :: a in t ==> (exists x :: x in a && !IsSpace(x)) && exists x :: x in t[a] && !IsSpace(x)
    ensures SetOk(t) <==> forall a :: a in t ==> Walk(t, a, 10) == None
  {
    forall a ensures CheckPasses(t, a) <==> Walk(t, a, 10) == None { CheckPassesIff(t, a); }
    forall s: string ensures !AllSpace(s) <==> exists x :: x in s && !IsSpace(x) {
      if x: char :| x in s && !IsSpace(x) {
        var i :| 0 <= i < |s| && s[i] == x;
      }
    }
  }

  // ------------------------------------------------------- operations on values

  datatype Op =
    | SetSystem(alias: string, command: string)
    | RemoveSystem(alias: string)
    | LoadSystem(table: Table)
    | LoadSystemValidated(table: Table)
    | SetPlayer(player: PlayerId, alias: string, command: string)
    | RemovePlayer(player: PlayerId, alias: string)
    | LoadPlayer(player: PlayerId, table: Table)
    | LoadPlayerValidated(player: PlayerId, table: Table)
    | ClearPlayer(player: PlayerId)

  function PutPlayer(c: Cache, p: PlayerId, t: Table): Cache {
    c.(players := c.players[p := t])
  }

  ghost predicate Accepts(c: Cache, op: Op) {
    match op
    case SetSystem(alias, command) => CheckPasses(c.system[alias := command] + PlayerTable(c, NO_PLAYER), alias)
    case SetPlayer(p, alias, command) => CheckPasses(c.system + PlayerTable(c, p)[alias := command], alias)
    case LoadSystemValidated(t) => EntriesOk(t) && SetOk(t)
    case LoadPlayerValidated(_, t) => EntriesOk(t) && SetOk(t)
    case _ => true
  }

  // A rejected SetPlayer still leaves the player with a (possibly empty) table.
  ghost function Step(c: Cache, op: Op): Cache {
    match op
    case SetSystem(alias, command) => if Accepts(c, op) then c.(system := c.system[alias := command]) else c
    case RemoveSystem(alias) => c.(system := c.system - {alias})
    case LoadSystem(t) => c.(system := t)
    case LoadSystemValidated(t) => if Accepts(c, op) then c.(system := t) else c
    case SetPlayer(p, alias, command) =>
      PutPlayer(c, p, if Accepts(c, op) then PlayerTable(c, p)[alias := command] else PlayerTable(c, p))
    case RemovePlayer(p, alias) => if p in c.players then PutPlayer(c, p, c.players[p] - {alias}) else c
    case LoadPlayer(p, t) => PutPlayer(c, p, PlayerTable(c, p) + t)
    case LoadPlayerValidated(p, t) => if Accepts(c, op) then PutPlayer(c, p, PlayerTable(c, p) + t) else c
    case ClearPlayer(p) => c.(players := c.players - {p})
  }

  // ----------------------------------------------------------------- the cache

  // detectCycleInSet: walks one table; hitting the depth bound counts as a cycle.
  method DetectCycleInSet(t: Table, start: string) returns (cyclic: bool)
    ensures cyclic <==> !CheckPasses(t, start)
  {
    var visited: set<string> := {};
    var cmd := start;
    for depth := 0 to MAX_EXPANSION_DEPTH
      invariant AllReach(t, visited, cmd)
      invariant depth < MAX_EXPANSION_DEPTH ==>
        (CheckPasses(t, start) <==> HaltsWithin(t, cmd, MAX_EXPANSION_DEPTH - 1 - depth))
      invariant depth == MAX_EXPANSION_DEPTH ==> !CheckPasses(t, start)
    {
      if cmd in visited {
        ghost var k: nat :| k > 0 && Walk(t, cmd, k) == Some(cmd);
        CycleNeverHalts(t, cmd, k, MAX_EXPANSION_DEPTH - 1 - depth);
        return true;
      }
      if cmd !in t { return false; }
      var next := SplitFirstWord(t[cmd]).0;
      if next == "" { return false; }
      AllReachNext(t, visited, cmd);
      visited := visited + {cmd};
      cmd := next;
    }
    return true;
  }

  method ValidateAliasSet(t: Table) returns (ok: bool)
    ensures ok <==> SetOk(t)
  {
    var left := t.Keys;
    while left != {}
      invariant left <= t.Keys
      invariant forall a :: a in t && a !in left ==> CheckPasses(t, a)
      decreases left
    {
      var a :| a in left;
      var cyclic := DetectCycleInSet(t, a);
      if cyclic { return false; }
      left := left - {a};
    }
    return true;
  }

  method ValidateAliasEntries(t: Table) returns (ok: bool)
    ensures ok <==> EntriesOk(t)
  {
    var left := t.Keys;
    while left != {}
      invariant left <= t.Keys
      invariant forall a :: a in t && a !in left ==> !AllSpace(a) && !AllSpace(t[a])
      decreases left
    {
      var a :| a in left;
      if AllSpace(a) || AllSpace(t[a]) { return false; }
      left := left - {a};
    }
    return true;
  }

  class AliasCache {
    var playerAliases: map<PlayerId, Table>
    var systemAliases: Table

    ghost function View(): Cache
      reads this
    {
      Cache(playerAliases, systemAliases)
    }

    constructor ()
      ensures View() == EMPTY_CACHE
    {
      playerAliases, systemAliases := map[], map[];
    }

    // wouldBeCircularLocked: the same walk over the overlay, player aliases first.
    method WouldBeCircular(p: PlayerId, alias: string) returns (circular: bool)
      ensures circular <==> !CheckPasses(Overlay(View(), p), alias)
    {
      ghost var t := Overlay(View(), p);
      var visited: set<string> := {};
      var cmd := alias;
      for depth := 0 to MAX_EXPANSION_DEPTH
        invariant AllReach(t, visited, cmd)
        invariant depth < MAX_EXPANSION_DEPTH ==>
          (CheckPasses(t, alias) <==> HaltsWithin(t, cmd, MAX_EXPANSION_DEPTH - 1 - depth))
        invariant depth == MAX_EXPANSION_DEPTH ==> !CheckPasses(t, alias)
      {
        if cmd in visited {
          ghost var k: nat :| k > 0 && Walk(t, cmd, k) == Some(cmd);
          CycleNeverHalts(t, cmd, k, MAX_EXPANSION_DEPTH - 1 - depth);
          return true;
        }
        var next := "";
        if p in playerAliases && cmd in playerAliases[p] {
          next := SplitFirstWord(playerAliases[p][cmd]).0;
        } else if cmd in systemAliases {
          next := SplitFirstWord(systemAliases[cmd]).0;
        } else {
          return false;
        }
        if next == "" { return false; }
        AllReachNext(t, visited, cmd);
        visited := visited + {cmd};
        cmd := next;
      }
      return true;
    }

    method SetSystemAlias(alias: string, command: string) returns (ok: bool)
      modifies this
      ensures ok <==> Accepts(old(View()), SetSystem(alias, command))
      ensures View() == Step(old(View()), SetSystem(alias, command))
      ensures ok <==> CheckPasses(old(systemAliases)[alias := command]
                                  + (if 0 in old(playerAliases) then old(playerAliases)[0] else map[]), alias)
      ensures playerAliases == old(playerAliases)
      ensures systemAliases == if ok then old(systemAliases)[alias := command] else old(systemAliases)
    {
      var existed := alias in systemAliases;
      var oldCmd := if existed then systemAliases[alias] else "";
      systemAliases := systemAliases[alias := command];
      var circular := WouldBeCircular(NO_PLAYER, alias);
      if circular {
        if existed {
          systemAliases := systemAliases[alias := oldCmd];
        } else {
          systemAliases := systemAliases - {alias};
        }
        assert systemAliases == old(systemAliases);
        return false;
      }
      return true;
    }

    method SetPlayerAlias(p: PlayerId, alias: string, command: string) returns (ok: bool)
      modifies this
      ensures ok <==> Accepts(old(View()), SetPlayer(p, alias, command))
      ensures View() == Step(old(View()), SetPlayer(p, alias, command))
      ensures systemAliases == old(systemAliases)
      ensures var t := if p in old(playerAliases) then old(playerAliases)[p] else map[];
              && (ok <==> CheckPasses(systemAliases + t[alias := command], alias))
              && playerAliases == old(playerAliases)[p := if ok then t[alias := command] else t]
    {
      if p !in playerAliases { playerAliases := playerAliases[p := map[]]; }
      var existed := alias in playerAliases[p];
      var oldCmd := if existed then playerAliases[p][alias] else "";
      playerAliases := playerAliases[p := playerAliases[p][alias := command]];
      ghost var before, table := PlayerTable(old(View()), p), PlayerTable(old(View()), p)[alias := command];
      assert View() == PutPlayer(old(View()), p, table);
      assert Overlay(View(), p) == systemAliases + table;
      var circular := WouldBeCircular(p, alias);
      if circular { RestorePlayerAlias(p, alias, existed, oldCmd, before); }
      return !circular;
    }

    // The rollback of SetPlayerAlias.
    method RestorePlayerAlias(p: PlayerId, alias: string, existed: bool, oldCmd: string, ghost before: Table)
      requires p in playerAliases && (existed <==> alias in before) && (existed ==> before[alias] == oldCmd)
      requires alias in playerAliases[p] && playerAliases[p] == before[alias := playerAliases[p][alias]]
      modifies this
      ensures View() == PutPlayer(old(View()), p, before)
    {
      if existed {
        playerAliases := playerAliases[p := playerAliases[p][alias := oldCmd]];
      } else {
        playerAliases := playerAliases[p := playerAliases[p] - {alias}];
      }
      assert playerAliases[p] == before;
    }

    method RemoveSystemAlias(alias: string)
      modifies this
      ensures View() == Step(old(View()), RemoveSystem(alias))
      ensures systemAliases == old(systemAliases) - {alias} && playerAliases == old(playerAliases)
    {
      systemAliases := systemAliases - {alias};
    }

    method RemovePlayerAlias(p: PlayerId, alias: string)
      modifies this
      ensures View() == Step(old(View()), RemovePlayer(p, alias))
      ensures systemAliases == old(systemAliases)
      ensures if p in old(playerAliases) then playerAliases == old(playerAliases)[p := old(playerAliases)[p] - {alias}]
              else playerAliases == old(playerAliases)
    {
      if p in playerAliases { playerAliases := playerAliases[p := playerAliases[p] - {alias}]; }
    }

    method LoadSystemAliases(t: Table)
      modifies this
      ensures View() == Step(old(View()), LoadSystem(t))
      ensures systemAliases == t && playerAliases == old(playerAliases)
    {
      systemAliases := t;
    }

    method LoadSystemAliasesValidated(t: Table) returns (ok: bool)
      modifies this
      ensures ok <==> Accepts(old(View()), LoadSystemValidated(t))
      ensures View() == Step(old(View()), LoadSystemValidated(t))
      ensures systemAliases == (if ok then t else old(systemAliases)) && playerAliases == old(playerAliases)
    {
      ok := ValidateAliasEntries(t);
      if !ok { return; }
      ok := ValidateAliasSet(t);
      if !ok { return; }
      LoadSystemAliases(t);
    }

    method LoadPlayerAliases(p: PlayerId, t: Table)
      modifies this
      ensures View() == Step(old(View()), LoadPlayer(p, t))
      ensures systemAliases == old(systemAliases)
      ensures playerAliases
           == old(playerAliases)[p := (if p in old(playerAliases) then old(playerAliases)[p] else map[]) + t]
    {
      if p !in playerAliases { playerAliases := playerAliases[p := map[]]; }
      playerAliases := playerAliases[p := playerAliases[p] + t];
    }

    method LoadPlayerAliasesValidated(p: PlayerId, t: Table) returns (ok: bool)
      modifies this
      ensures ok <==> Accepts(old(View()), LoadPlayerValidated(p, t))
      ensures View() == Step(old(View()), LoadPlayerValidated(p, t))
      ensures systemAliases == old(systemAliases)
      ensures playerAliases
           == if ok then old(playerAliases)[p := (if p in old(playerAliases) then old(playerAliases)[p] else map[]) + t]
              else old(playerAliases)
    {
      ok := ValidateAliasEntries(t);
      if !ok { return; }
      ok := ValidateAliasSet(t);
      if !ok { return; }
      LoadPlayerAliases(p, t);
    }

    method ClearPlayerAliases(p: PlayerId)
      modifies this
      ensures View() == Step(old(View()), ClearPlayer(p))
      ensures systemAliases == old(systemAliases) && playerAliases == old(playerAliases) - {p}
    {
      playerAliases := playerAliases - {p};
    }
  }

  // ---------------------------------------------------------------------- runs

  ghost function Run(c: Cache, ops: seq<Op>): Cache
    decreases |ops|
  {
    if |ops| == 0 then c else Run(Step(c, ops[0]), ops[1..])
  }

  // No unvalidated system load, and no aliases for the zero player.
  predicate Checked(op: Op) {
    match op
    case LoadSystem(_) => false
    case SetPlayer(p, _, _) => p != NO_PLAYER
    case LoadPlayer(p, _) => p != NO_PLAYER
    case LoadPlayerValidated(p, _) => p != NO_PLAYER
    case _ => true
  }

  predicate AllChecked(ops: seq<Op>) {
    forall i :: 0 <= i < |ops| ==> Checked(ops[i])
  }

  ghost predicate SystemOk(c: Cache) {
    AllHalt(c.system) && NO_PLAYER !in c.players
  }

  lemma ValidatedAllHalt(t: Table)
    requires SetOk(t)
    ensures AllHalt(t)
  {
    forall a ensures Halts(t, a) {
      if a in t { assert CheckPasses(t, a); } else { assert HaltsWithin(t, a, 0); }
    }
  }

  lemma StepKeepsSystemOk(c: Cache, op: Op)
    requires SystemOk(c) && Checked(op)
    ensures SystemOk(Step(c, op))
  {
    match op
    case SetSystem(alias, command) =>
      assert c.system[alias := command] + map[] == c.system[alias := command];
      if Accepts(c, op) { UpdateKeepsAllHalt(c.system, alias, command); }
    case RemoveSystem(alias) => RemoveKeepsAllHalt(c.system, alias);
    case LoadSystemValidated(t) => if SetOk(t) { ValidatedAllHalt(t); }
    case _ =>
  }

  lemma {:induction false} RunKeepsSystemOk(c: Cache, ops: seq<Op>)
    requires SystemOk(c) && AllChecked(ops)
    ensures SystemOk(Run(c, ops))
    decreases |ops|
  {
    if |ops| > 0 {
      StepKeepsSystemOk(c, ops[0]);
      RunKeepsSystemOk(Step(c, ops[0]), ops[1..]);
    }
  }

  /** From an empty cache, every run of checked operations keeps the system alias
      graph free of cycles, although each check starts from one alias only and
      gives up after ten hops. */
  lemma SystemStaysAcyclic(ops: seq<Op>)
    requires AllChecked(ops)
    ensures Acyclic(Run(EMPTY_CACHE, ops).system)
  {
    forall cmd ensures Halts(map[], cmd) { assert HaltsWithin(map[], cmd, 0); }
    RunKeepsSystemOk(EMPTY_CACHE, ops);
    AcyclicIffAllHalt(Run(EMPTY_CACHE, ops).system);
  }

  /** An accepted SetPlayer keeps that player's overlay free of cycles; a rejected
      one changes no mapping of anyone. */
  lemma SetPlayerKeepsOverlay(c: Cache, p: PlayerId, alias: string, command: string)
    ensures var d := Step(c, SetPlayer(p, alias, command));
            && d.system == c.system
            && (forall q :: q != p ==> PlayerTable(d, q) == PlayerTable(c, q))
            && (!Accepts(c, SetPlayer(p, alias, command)) ==> PlayerTable(d, p) == PlayerTable(c, p))
            && (Accepts(c, SetPlayer(p, alias, command)) && Acyclic(Overlay(c, p)) ==> Acyclic(Overlay(d, p)))
  {
    var d := Step(c, SetPlayer(p, alias, command));
    if Accepts(c, SetPlayer(p, alias, command)) && Acyclic(Overlay(c, p)) {
      AcyclicIffAllHalt(Overlay(c, p));
      assert Overlay(d, p) == Overlay(c, p)[alias := command];
      UpdateKeepsAllHalt(Overlay(c, p), alias, command);
      AcyclicIffAllHalt(Overlay(d, p));
    }
  }

  /** System updates are checked without the players' aliases. An accepted one
      keeps player p's cycle-free overlay cycle-free exactly when p has its own
      alias of that name or the command's first word does not lead p to it. */
  lemma SetSystemKeepsOverlayIff(c: Cache, alias: string, command: string, p: PlayerId)
    requires Accepts(c, SetSystem(alias, command)) && Acyclic(Overlay(c, p))
    ensures Acyclic(Overlay(Step(c, SetSystem(alias, command)), p))
       <==> alias in PlayerTable(c, p) || SplitFirstWord(command).0 == ""
            || !Reaches(Overlay(c, p), SplitFirstWord(command).0, alias)
  {
    var o := Overlay(c, p);
    var d := Step(c, SetSystem(alias, command));
    AcyclicIffAllHalt(o);
    AcyclicIffAllHalt(Overlay(d, p));
    if alias in PlayerTable(c, p) {
      assert Overlay(d, p) == o;
    } else {
      assert Overlay(d, p) == o[alias := command];
      UpdateAcyclicIff(o, alias, command);
    }
  }

  /** The same for the system table itself, whatever aliases the zero player has: the
      accepted alias keeps it cycle-free exactly when the command's first word does not
      lead to it there.
   */
  lemma SetSystemKeepsSystemIff(c: Cache, alias: string, command: string)
    requires Accepts(c, SetSystem(alias, command)) && Acyclic(c.system)
    ensures Acyclic(Step(c, SetSystem(alias, command)).system)
       <==> SplitFirstWord(command).0 == "" || !Reaches(c.system, SplitFirstWord(command).0, alias)
  {
    AcyclicIffAllHalt(c.system);
    AcyclicIffAllHalt(c.system[alias := command]);
    UpdateAcyclicIff(c.system, alias, command);
  }

  /** Removing a player alias uncovers the system alias below it: the overlay stays
      cycle-free exactly when that system alias does not lead back to itself. */
  lemma RemovePlayerKeepsOverlayIff(c: Cache, p: PlayerId, alias: string)
    requires p in c.players && alias in c.players[p] && Acyclic(Overlay(c, p))
    ensures Acyclic(Overlay(Step(c, RemovePlayer(p, alias)), p))
       <==> alias !in c.system || SplitFirstWord(c.system[alias]).0 == ""
            || !Reaches(Overlay(c, p), SplitFirstWord(c.system[alias]).0, alias)
  {
    var o := Overlay(c, p);
    var d := Step(c, RemovePlayer(p, alias));
    AcyclicIffAllHalt(o);
    AcyclicIffAllHalt(Overlay(d, p));
    if alias in c.system {
      assert Overlay(d, p) == o[alias := c.system[alias]];
      UpdateAcyclicIff(o, alias, c.system[alias]);
    } else {
      assert Overlay(d, p) == o - {alias};
      RemoveKeepsAllHalt(o, alias);
    }
  }

  // Where `a` leads to `alias`, it does so early enough for `next` to end within n hops.
  ghost predicate RoomFor(t: Table, a: string, alias: string, next: string, n: nat) {
    forall k: nat :: Walk(t, a, k) == Some(alias) ==> k < n && HaltsWithin(t, next, n - 1 - k)
  }

  /** The check looks at the changed alias only. An accepted one keeps every chain of the
      system table within the bound exactly when each alias that leads to the changed
      one, in k hops, leaves it 9 - k: enough for the new command's chain.
   */
  lemma SetSystemKeepsBoundIff(c: Cache, alias: string, command: string)
    requires SetOk(c.system) && PlayerTable(c, NO_PLAYER) == map[] && Accepts(c, SetSystem(alias, command))
    ensures SetOk(Step(c, SetSystem(alias, command)).system)
       <==> SplitFirstWord(command).0 == ""
            || forall a :: a in c.system ==>
                 RoomFor(c.system, a, alias, SplitFirstWord(command).0, MAX_EXPANSION_DEPTH - 1)
  {
    var t := c.system;
    var u := t[alias := command];
    assert u + map[] == u;
    ValidatedAllHalt(t);
    assert Halts(u, alias);
    UpdateKeepsAllHalt(t, alias, command);
    var next, n := SplitFirstWord(command).0, MAX_EXPANSION_DEPTH - 1;
    forall a | a in t ensures CheckPasses(u, a) <==> next == "" || RoomFor(t, a, alias, next, n) {
      UpdateHaltsIff(t, alias, command, a, n);
      RoomBefore(t, alias, command, a, n);
    }
  }

  // The room that an update needs, said of the table before it.
  lemma RoomBefore(t: Table, alias: string, command: string, a: string, n: nat)
    requires AllHalt(t) && AllHalt(t[alias := command]) && HaltsWithin(t, a, n)
    ensures LeavesRoom(t, t[alias := command], a, alias, n)
       <==> SplitFirstWord(command).0 == "" || RoomFor(t, a, alias, SplitFirstWord(command).0, n)
  {
    var u, next := t[alias := command], SplitFirstWord(command).0;
    forall k: nat | Walk(t, a, k) == Some(alias)
      ensures k <= n && (HaltsWithin(u, alias, n - k) <==> next == "" || (k < n && HaltsWithin(t, next, n - k - 1)))
    {
      WalkKeepsHalting(t, a, k, n);
      UpdatedAliasHaltsIff(t, alias, command, n - k);
    }
    if LeavesRoom(t, u, a, alias, n) && next != "" {
      forall k: nat | Walk(t, a, k) == Some(alias) ensures k < n && HaltsWithin(t, next, n - 1 - k) {
        assert HaltsWithin(u, alias, n - k);
      }
    }
  }

  /** A validated load is checked on its own. It keeps a cycle-free overlay cycle-free
      exactly when no loaded alias leads back to itself in the merged overlay. That is the
      check that SetPlayerAlias would make of each, without its bound on hops.
   */
  lemma LoadPlayerKeepsOverlayIff(c: Cache, p: PlayerId, t: Table)
    requires Accepts(c, LoadPlayerValidated(p, t)) && Acyclic(Overlay(c, p))
    ensures Acyclic(Overlay(Step(c, LoadPlayerValidated(p, t)), p))
       <==> forall a :: a in t ==> !LeadsBack(Overlay(c, p) + t, a)
  {
    assert Overlay(Step(c, LoadPlayerValidated(p, t)), p) == Overlay(c, p) + t;
    MergeAcyclicIff(Overlay(c, p), t);
  }

  // ------------------------------------------------------------ concrete failures

  lemma OneLetterSplit(c: char)
    requires !IsBlank(c)
    ensures SplitFirstWord([c]) == ([c], "")
  {
  }

  // One alias that leads to a word which is not one.
  lemma SingleHop(t: Table, a: string, b: string, x: char, y: char)
    requires a == [x] && b == [y] && x != y && !IsBlank(x) && !IsBlank(y)
    requires a in t && t[a] == b && b !in t
    ensures CheckPasses(t, a) && Hop(t, a) == Some(b) && Hop(t, b) == None
    ensures Walk(t, a, 1) == Some(b)
  {
    OneLetterSplit(y);
    assert Walk(t, b, 0) == Some(b);
    assert HaltsWithin(t, b, MAX_EXPANSION_DEPTH - 2);
  }

  lemma RunOne(c: Cache, op: Op)
    ensures Run(c, [op]) == Step(c, op)
  {
    assert [op][1..] == [];
  }

  lemma RunTwo(c: Cache, op: Op, next: Op)
    ensures Run(c, [op, next]) == Step(Step(c, op), next)
  {
    assert [op, next][1..] == [next];
    RunOne(Step(c, op), next);
  }

  // The cache after setting one player alias.
  function OnePlayerAlias(p: PlayerId, alias: string, command: string): Cache {
    Cache(map[p := map[alias := command]], map[])
  }

  lemma FirstPlayerAlias(p: PlayerId, x: char, y: char)
    requires x != y && !IsBlank(x) && !IsBlank(y)
    ensures Run(EMPTY_CACHE, [SetPlayer(p, [x], [y])]) == OnePlayerAlias(p, [x], [y])
  {
    RunOne(EMPTY_CACHE, SetPlayer(p, [x], [y]));
    var t: Table := map[[x] := [y]];
    assert EMPTY_CACHE.system + PlayerTable(EMPTY_CACHE, p)[[x] := [y]] == t;
    SingleHop(t, [x], [y], x, y);
  }

  // The cache after setting one system alias.
  lemma FirstSystemAlias(x: char, y: char)
    requires x != y && !IsBlank(x) && !IsBlank(y)
    ensures Run(EMPTY_CACHE, [SetSystem([x], [y])]) == Cache(map[], map[[x] := [y]])
  {
    RunOne(EMPTY_CACHE, SetSystem([x], [y]));
    var t: Table := map[[x] := [y]];
    assert EMPTY_CACHE.system[[x] := [y]] + PlayerTable(EMPTY_CACHE, NO_PLAYER) == t;
    SingleHop(t, [x], [y], x, y);
  }

  lemma SingleAcyclic(x: char, y: char)
    requires x != y && !IsBlank(x) && !IsBlank(y)
    ensures var t: Table := map[[x] := [y]]; Acyclic(t)
  {
    var t: Table := map[[x] := [y]];
    SingleHop(t, [x], [y], x, y);
    forall cmd ensures Halts(t, cmd) { assert HaltsWithin(t, cmd, 1); }
    AcyclicIffAllHalt(t);
  }

  // A system update that passes the check and closes a loop in a player's overlay.
  lemma SystemUpdateCanCloseLoop()
    ensures var c := Run(EMPTY_CACHE, [SetPlayer(7, "b", "a")]);
            && Accepts(c, SetSystem("a", "b"))
            && Acyclic(Overlay(c, 7))
            && !Acyclic(Overlay(Step(c, SetSystem("a", "b")), 7))
  {
    var c := OnePlayerAlias(7, "b", "a");
    FirstPlayerAlias(7, 'b', 'a');
    var checked: Table := map["a" := "b"];
    assert c.system["a" := "b"] + PlayerTable(c, NO_PLAYER) == checked;
    SingleHop(checked, "a", "b", 'a', 'b');
    var o := Overlay(c, 7);
    assert o == map["b" := "a"];
    SingleAcyclic('b', 'a');
    SingleHop(o, "b", "a", 'b', 'a');
    assert Reaches(o, "b", "a");
    OneLetterSplit('b');
    SetSystemKeepsOverlayIff(c, "a", "b", 7);
  }

  // A validated player load that closes a loop with a system alias.
  lemma PlayerLoadCanCloseLoop()
    ensures var c := Run(EMPTY_CACHE, [SetSystem("a", "b")]);
            var t: Table := map["b" := "a"];
            && Accepts(c, LoadPlayerValidated(7, t))
            && Acyclic(Overlay(c, 7))
            && !Acyclic(Overlay(Step(c, LoadPlayerValidated(7, t)), 7))
  {
    var c := Cache(map[], map["a" := "b"]);
    var t: Table := map["b" := "a"];
    FirstSystemAlias('a', 'b');
    SingleAcyclic('a', 'b');
    assert Overlay(c, 7) == map["a" := "b"];
    SingleHop(t, "b", "a", 'b', 'a');
    assert !IsSpace("b"[0]) && !IsSpace("a"[0]);
    LoopOfTwo(Overlay(c, 7) + t);
    LoadPlayerKeepsOverlayIff(c, 7, t);
  }

  lemma LoopOfTwo(u: Table)
    requires "a" in u && "b" in u && u["a"] == "b" && u["b"] == "a"
    ensures Walk(u, "b", 2) == Some("b") && Walk(u, "a", 1) == Some("b")
  {
    OneLetterSplit('a');
    OneLetterSplit('b');
    assert Walk(u, "b", 0) == Some("b");
    assert Hop(u, "b") == Some("a") && Hop(u, "a") == Some("b");
    assert Walk(u, "a", 1) == Walk(u, "b", 0);
    assert Walk(u, "b", 2) == Walk(u, "a", 1);
  }

  // Removing a player alias that hid a system alias, in a cache that was built by
  // accepted updates.
  lemma RemovalCanCloseLoop()
    ensures var c := Run(EMPTY_CACHE, [SetSystem("a", "b"), SetPlayer(7, "a", "x"), SetPlayer(7, "b", "a")]);
            && Acyclic(Overlay(c, 7))
            && !Acyclic(Overlay(Step(c, RemovePlayer(7, "a")), 7))
  {
    var s1 := Cache(map[], map["a" := "b"]);
    FirstSystemAlias('a', 'b');
    RunOne(EMPTY_CACHE, SetSystem("a", "b"));
    var s2 := Cache(map[7 := map["a" := "x"]], map["a" := "b"]);
    assert Step(s1, SetPlayer(7, "a", "x")) == s2 by {
      var t: Table := map["a" := "x"];
      assert s1.system + PlayerTable(s1, 7)["a" := "x"] == t;
      SingleHop(t, "a", "x", 'a', 'x');
    }
    var o: Table := map["a" := "x", "b" := "a"];
    var s3 := Cache(map[7 := o], map["a" := "b"]);
    TwoHops(o);
    assert Step(s2, SetPlayer(7, "b", "a")) == s3 by {
      assert s2.system + PlayerTable(s2, 7)["b" := "a"] == o;
    }
    var ops := [SetSystem("a", "b"), SetPlayer(7, "a", "x"), SetPlayer(7, "b", "a")];
    assert ops[1..] == [SetPlayer(7, "a", "x"), SetPlayer(7, "b", "a")];
    RunTwo(s1, ops[1], ops[2]);
    assert Overlay(s3, 7) == o;
    assert Reaches(o, "b", "a");
    OneLetterSplit('b');
    RemovePlayerKeepsOverlayIff(s3, 7, "a");
  }

  lemma TwoHops(o: Table)
    requires o == map["a" := "x", "b" := "a"]
    ensures CheckPasses(o, "b") && Acyclic(o) && Walk(o, "b", 1) == Some("a")
  {
    OneLetterSplit('a');
    OneLetterSplit('x');
    assert Hop(o, "x") == None && Hop(o, "a") == Some("x") && Hop(o, "b") == Some("a");
    assert Walk(o, "a", 0) == Some("a");
    assert HaltsWithin(o, "x", 7) && HaltsWithin(o, "a", 8);
    assert HaltsWithin(o, "x", 0) && HaltsWithin(o, "a", 1);
    forall cmd ensures Halts(o, cmd) {
      if cmd == "b" { assert HaltsWithin(o, cmd, 2); } else { assert HaltsWithin(o, cmd, 1); }
    }
    AcyclicIffAllHalt(o);
  }

  // Aliases under the zero player blind the system check.
  lemma ZeroPlayerBlindsCheck()
    ensures var c := Run(EMPTY_CACHE, [SetPlayer(NO_PLAYER, "a", "b")]);
            && Accepts(c, SetSystem("a", "a"))
            && !Acyclic(Step(c, SetSystem("a", "a")).system)
  {
    var c := OnePlayerAlias(NO_PLAYER, "a", "b");
    FirstPlayerAlias(NO_PLAYER, 'a', 'b');
    var checked: Table := map["a" := "b"];
    assert c.system["a" := "a"] + PlayerTable(c, NO_PLAYER) == checked;
    SingleHop(checked, "a", "b", 'a', 'b');
    assert Accepts(c, SetSystem("a", "a"));
    var t: Table := map["a" := "a"];
    assert Step(c, SetSystem("a", "a")).system == t;
    OneLetterSplit('a');
    assert Hop(t, "a") == Some("a");
    assert Walk(t, "a", 1) == Some("a");
  }
}
