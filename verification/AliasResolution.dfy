/** Alias resolution: the depth-bounded recursion on strings refines plain
    rewriting of the head word on lists of words.
 */
module AliasResolution {
  import opened Options
  import opened CommandWords
  import opened AliasGraph
  import opened AliasCaching

  // resolveWithDepth, with the player's aliases tried before the system's.
  function ResolveWithDepth(player: Table, system: Table, cmd: string, depth: nat): string
    decreases MAX_EXPANSION_DEPTH - depth
  {
    if depth >= MAX_EXPANSION_DEPTH then cmd
    else if cmd in player then Expand(player, system, player[cmd], depth)
    else if cmd in system then Expand(player, system, system[cmd], depth)
    else cmd
  }

  function Expand(player: Table, system: Table, expanded: string, depth: nat): string
    requires depth < MAX_EXPANSION_DEPTH
    decreases MAX_EXPANSION_DEPTH - depth, 0
  {
    var (first, args) := SplitFirstWord(expanded);
    if first == "" then expanded
    else
      var further := ResolveWithDepth(player, system, first, depth + 1);
      if args != "" then further + " " + args else further
  }

  // The reference: replace the head word by the words of its expansion, at most n
  // times; an expansion without words ends the rewriting.
  function Rewrite(t: Table, ws: seq<string>, n: nat): seq<string>
    decreases n
  {
    if n == 0 || ws == [] || ws[0] !in t then ws
    else
      var e := Words(t[ws[0]]);
      if e == [] then ws[1..] else Rewrite(t, e + ws[1..], n - 1)
  }

  // The rewriting comes to its own end within n steps.
  predicate Finishes(t: Table, ws: seq<string>, n: nat)
    decreases n
  {
    if ws == [] || ws[0] !in t then true
    else
      n > 0 && (var e := Words(t[ws[0]]); e == [] || Finishes(t, e + ws[1..], n - 1))
  }

  lemma {:induction false} RewriteTouchesHeadOnly(t: Table, ws: seq<string>, rest: seq<string>, n: nat)
    requires ws != []
    ensures Rewrite(t, ws + rest, n) == Rewrite(t, ws, n) + rest
    decreases n
  {
    if n > 0 && ws[0] in t {
      var e := Words(t[ws[0]]);
      assert (ws + rest)[1..] == ws[1..] + rest;
      if e != [] {
        assert e + (ws[1..] + rest) == (e + ws[1..]) + rest;
        RewriteTouchesHeadOnly(t, e + ws[1..], rest, n - 1);
      }
    }
  }

  lemma RewriteOnce(t: Table, cmd: string, n: nat)
    requires cmd in t && n > 0
    ensures var (first, args) := SplitFirstWord(t[cmd]);
            Rewrite(t, [cmd], n) == if first == "" then [] else Rewrite(t, [first], n - 1) + Words(args)
  {
    var (first, args) := SplitFirstWord(t[cmd]);
    SplitIsFirstWord(t[cmd]);
    assert [cmd][1..] == [];
    if first != "" {
      assert Words(t[cmd]) + [] == [first] + Words(args);
      RewriteTouchesHeadOnly(t, [first], Words(args), n - 1);
    }
  }

  lemma ExpandWords(player: Table, system: Table, expanded: string, depth: nat)
    requires depth < MAX_EXPANSION_DEPTH
    ensures var (first, args) := SplitFirstWord(expanded);
            Words(Expand(player, system, expanded, depth))
            == if first == "" then [] else Words(ResolveWithDepth(player, system, first, depth + 1)) + Words(args)
  {
    var (first, args) := SplitFirstWord(expanded);
    SplitIsFirstWord(expanded);
    if first != "" {
      var further := ResolveWithDepth(player, system, first, depth + 1);
      WordsJoin(further, args);
      if args == "" { assert Words(further) + [] == Words(further); }
    }
  }

  lemma ResolveStep(player: Table, system: Table, cmd: string, depth: nat)
    requires depth < MAX_EXPANSION_DEPTH && cmd in system + player
    ensures var (first, args) := SplitFirstWord((system + player)[cmd]);
            Words(ResolveWithDepth(player, system, cmd, depth))
            == if first == "" then [] else Words(ResolveWithDepth(player, system, first, depth + 1)) + Words(args)
  {
    ExpandWords(player, system, (system + player)[cmd], depth);
  }

  lemma ResolveStops(player: Table, system: Table, cmd: string, depth: nat)
    requires IsWord(cmd) && depth <= MAX_EXPANSION_DEPTH && (depth == MAX_EXPANSION_DEPTH || cmd !in system + player)
    ensures Words(ResolveWithDepth(player, system, cmd, depth))
         == Rewrite(system + player, [cmd], MAX_EXPANSION_DEPTH - depth)
  {
    SingleWord(cmd);
  }

  // What holds one level down holds here.
  lemma ResolveLevel(player: Table, system: Table, cmd: string, depth: nat)
    requires depth < MAX_EXPANSION_DEPTH && cmd in system + player
    requires var first := SplitFirstWord((system + player)[cmd]).0;
             first != "" ==>
               Words(ResolveWithDepth(player, system, first, depth + 1))
               == Rewrite(system + player, [first], MAX_EXPANSION_DEPTH - depth - 1)
    ensures Words(ResolveWithDepth(player, system, cmd, depth))
         == Rewrite(system + player, [cmd], MAX_EXPANSION_DEPTH - depth)
  {
    ResolveStep(player, system, cmd, depth);
    RewriteOnce(system + player, cmd, MAX_EXPANSION_DEPTH - depth);
  }

  /** In every state, resolution yields the words of at most ten rewriting steps. */
  lemma {:induction false} ResolveIsRewriting(player: Table, system: Table, cmd: string, depth: nat)
    requires IsWord(cmd) && depth <= MAX_EXPANSION_DEPTH
    ensures Words(ResolveWithDepth(player, system, cmd, depth))
         == Rewrite(system + player, [cmd], MAX_EXPANSION_DEPTH - depth)
    decreases MAX_EXPANSION_DEPTH - depth
  {
    if depth == MAX_EXPANSION_DEPTH || cmd !in system + player {
      ResolveStops(player, system, cmd, depth);
    } else {
      var expansion := (system + player)[cmd];
      var first := SplitFirstWord(expansion).0;
      SplitIsFirstWord(expansion);
      if first != "" { ResolveIsRewriting(player, system, first, depth + 1); }
      ResolveLevel(player, system, cmd, depth);
    }
  }

  lemma {:induction false} FinishedIsStable(t: Table, ws: seq<string>, n: nat, m: nat)
    requires Finishes(t, ws, n) && n <= m
    ensures Rewrite(t, ws, m) == Rewrite(t, ws, n)
    decreases n
  {
    if ws != [] && ws[0] in t && Words(t[ws[0]]) != [] {
      FinishedIsStable(t, Words(t[ws[0]]) + ws[1..], n - 1, m - 1);
    }
  }

  // A chain of n hops takes n rewriting steps, plus one for an empty expansion.
  lemma {:induction false} HaltingFinishes(t: Table, w: string, rest: seq<string>, n: nat)
    requires HaltsWithin(t, w, n)
    ensures Finishes(t, [w] + rest, n + 1)
    decreases n
  {
    if w in t {
      SplitIsFirstWord(t[w]);
      var (first, args) := SplitFirstWord(t[w]);
      assert ([w] + rest)[1..] == rest;
      if first != "" {
        HaltingFinishes(t, first, Words(args) + rest, n - 1);
        assert Words(t[w]) + rest == [first] + (Words(args) + rest);
      }
    }
  }

  /** For a chain that the check accepts, the depth bound is never reached: more
      steps would not change the answer. */
  lemma BoundNeverReached(player: Table, system: Table, cmd: string, m: nat)
    requires IsWord(cmd) && CheckPasses(system + player, cmd) && m >= MAX_EXPANSION_DEPTH
    ensures Words(ResolveWithDepth(player, system, cmd, 0)) == Rewrite(system + player, [cmd], m)
    ensures Finishes(system + player, [cmd], MAX_EXPANSION_DEPTH)
  {
    ResolveIsRewriting(player, system, cmd, 0);
    HaltingIsStable(system + player, cmd, MAX_EXPANSION_DEPTH - 1, m);
  }

  lemma HaltingIsStable(t: Table, cmd: string, n: nat, m: nat)
    requires HaltsWithin(t, cmd, n) && n < m
    ensures Finishes(t, [cmd], n + 1) && Rewrite(t, [cmd], m) == Rewrite(t, [cmd], n + 1)
  {
    HaltingFinishes(t, cmd, [], n);
    assert [cmd] + [] == [cmd];
    FinishedIsStable(t, [cmd], n + 1, m);
  }

  /** A validated set: resolving any of its words is unbounded rewriting. */
  lemma ValidatedSetIsUnbounded(t: Table, cmd: string, m: nat)
    requires SetOk(t) && IsWord(cmd) && m >= MAX_EXPANSION_DEPTH
    ensures Words(ResolveWithDepth(map[], t, cmd, 0)) == Rewrite(t, [cmd], m)
    ensures Finishes(t, [cmd], MAX_EXPANSION_DEPTH)
  {
    assert t + map[] == t;
    assert CheckPasses(t, cmd) by {
      if cmd in t { assert CheckPasses(t, cmd); } else { assert Hop(t, cmd) == None; }
    }
    BoundNeverReached(map[], t, cmd, m);
  }

  // ------------------------------------------------- when is resolution complete

  // The chain ends within the bound, at a word that is not an alias or at an empty
  // expansion.
  predicate ChainFits(t: Table, cmd: string, n: nat) {
    HaltsWithin(t, cmd, n) && (Walk(t, cmd, n).Some? ==> Walk(t, cmd, n).value !in t)
  }

  lemma {:induction false} FinishesIff(t: Table, w: string, rest: seq<string>, n: nat)
    ensures Finishes(t, [w] + rest, n) <==> ChainFits(t, w, n)
    decreases n
  {
    if w in t && n > 0 {
      SplitIsFirstWord(t[w]);
      var (first, args) := SplitFirstWord(t[w]);
      assert ([w] + rest)[1..] == rest;
      if first != "" {
        FinishesIff(t, first, Words(args) + rest, n - 1);
        assert Words(t[w]) + rest == [first] + (Words(args) + rest);
      }
    }
  }

  // Rewriting that is cut off stops at an alias, and one more step would rewrite it.
  lemma {:induction false} CutOff(t: Table, ws: seq<string>, n: nat)
    requires !Finishes(t, ws, n)
    ensures var r := Rewrite(t, ws, n);
            r != [] && r[0] in t && Rewrite(t, ws, n + 1) == Rewrite(t, r, 1)
    decreases n
  {
    if n > 0 { CutOff(t, Words(t[ws[0]]) + ws[1..], n - 1); }
  }

  // Only a self-alias is rewritten to itself.
  lemma FixedIsSelfAlias(t: Table, r: seq<string>)
    requires r != [] && r[0] in t && Rewrite(t, r, 1) == r
    ensures Walk(t, r[0], 1) == Some(r[0])
  {
    var e := Words(t[r[0]]);
    if e != [] {
      assert |e + r[1..]| == |r|;
      assert (e + r[1..])[0] == e[0];
      SplitIsFirstWord(t[r[0]]);
      assert Walk(t, r[0], 1) == Walk(t, e[0], 0);
    }
  }

  /** Resolution is complete exactly when the chain fits: over a cycle-free table it then
      equals rewriting with any larger bound, and otherwise it differs. Over any table,
      resolution of a chain that does not fit stops at a word that is still an alias.
   */
  lemma ResolutionCompleteIff(player: Table, system: Table, cmd: string)
    requires IsWord(cmd)
    ensures var t := system + player;
            var words := Words(ResolveWithDepth(player, system, cmd, 0));
            && (ChainFits(t, cmd, MAX_EXPANSION_DEPTH) ==>
                  forall m: nat :: m >= MAX_EXPANSION_DEPTH ==> words == Rewrite(t, [cmd], m))
            && (!ChainFits(t, cmd, MAX_EXPANSION_DEPTH) ==> words != [] && words[0] in t)
            && (Acyclic(t) && !ChainFits(t, cmd, MAX_EXPANSION_DEPTH) ==>
                  words != Rewrite(t, [cmd], MAX_EXPANSION_DEPTH + 1))
  {
    var t, n := system + player, MAX_EXPANSION_DEPTH;
    ResolveIsRewriting(player, system, cmd, 0);
    FinishesIff(t, cmd, [], n);
    assert [cmd] + [] == [cmd];
    if ChainFits(t, cmd, n) {
      forall m: nat | m >= n ensures Rewrite(t, [cmd], n) == Rewrite(t, [cmd], m) {
        FinishedIsStable(t, [cmd], n, m);
      }
    } else {
      CutOff(t, [cmd], n);
      var r := Rewrite(t, [cmd], n);
      if Rewrite(t, r, 1) == r { FixedIsSelfAlias(t, r); }
    }
  }

  // ------------------------------------------- accepted, and still too deep

  function Link(i: nat): string
    requires i < 26
  {
    [('a' as int + i) as char]
  }

  // One-letter aliases from a on, each pointing to the next letter, except at `gap`.
  function Links(gap: nat, n: nat): Table
    requires n < 26
  {
    if n == 0 then map[]
    else if n - 1 == gap then Links(gap, n - 1)
    else Links(gap, n - 1)[Link(n - 1) := Link(n)]
  }

  ghost predicate Linked(t: Table, gap: nat, n: nat)
    requires n < 26
  {
    && (forall i: nat :: i < 26 ==> (Link(i) in t <==> i < n && i != gap))
    && (forall i: nat :: i < n && i != gap ==> t[Link(i)] == Link(i + 1))
  }

  lemma {:induction false} LinksLinked(gap: nat, n: nat)
    requires n < 26
    ensures Linked(Links(gap, n), gap, n)
    ensures forall a :: a in Links(gap, n) ==> exists i: nat :: i < n && i != gap && a == Link(i)
  {
    if n > 0 {
      LinksLinked(gap, n - 1);
      forall i: nat | i < 26 && Link(i) == Link(n - 1) ensures i == n - 1 {
        assert Link(i)[0] == Link(n - 1)[0];
      }
    }
  }

  lemma ChainHop(t: Table, gap: nat, n: nat, i: nat)
    requires n < 26 && i < 26 && Linked(t, gap, n)
    ensures Hop(t, Link(i)) == if i < n && i != gap then Some(Link(i + 1)) else None
  {
    if i < n { OneLetterSplit(Link(i + 1)[0]); }
  }

  lemma {:induction false} ChainHalts(t: Table, gap: nat, n: nat, i: nat, end: nat, hops: nat)
    requires n < 26 && Linked(t, gap, n) && i <= end <= n && (end == n || end == gap) && !(i <= gap < end)
    ensures HaltsWithin(t, Link(i), hops) <==> end - i <= hops
    decreases end - i
  {
    ChainHop(t, gap, n, i);
    if i < end && hops > 0 { ChainHalts(t, gap, n, i + 1, end, hops - 1); }
  }

  lemma {:induction false} ChainRewrite(t: Table, gap: nat, n: nat, i: nat, steps: nat)
    requires n < 26 && Linked(t, gap, n) && i + steps <= n && gap >= n
    ensures Rewrite(t, [Link(i)], steps) == [Link(i + steps)]
    decreases steps
  {
    if steps > 0 {
      SingleWord(Link(i + 1));
      assert [Link(i + 1)] + [Link(i)][1..] == [Link(i + 1)];
      ChainRewrite(t, gap, n, i + 1, steps - 1);
    }
  }

  lemma HalvesValidate(halves: Table, n: nat)
    requires 9 < n <= 18 && halves == Links(9, n)
    ensures EntriesOk(halves) && SetOk(halves)
  {
    LinksLinked(9, n);
    forall a | a in halves ensures CheckPasses(halves, a) && !AllSpace(a) && !AllSpace(halves[a]) {
      var i: nat :| i < n && i != 9 && a == Link(i);
      ChainHalts(halves, 9, n, i, if i < 9 then 9 else n, MAX_EXPANSION_DEPTH - 1);
      assert halves[a] == Link(i + 1);
      assert !IsSpace(Link(i)[0]) && !IsSpace(Link(i + 1)[0]);
    }
  }

  lemma HalvesJoin(halves: Table, n: nat)
    requires 9 < n <= 18 && Linked(halves, 9, n)
    ensures Linked(halves[Link(9) := Link(10)], n, n)
  {
    forall i: nat | i < 26 && i != 9 ensures Link(i) != Link(9) { assert Link(i)[0] != Link(9)[0]; }
  }

  lemma JoinIsAccepted(halves: Table, n: nat)
    requires 10 < n <= 18 && halves == Links(9, n)
    ensures var t := halves[Link(9) := Link(10)];
            && Run(EMPTY_CACHE, [LoadSystemValidated(halves), SetSystem(Link(9), Link(10))]) == Cache(map[], t)
            && Linked(t, n, n)
  {
    HalvesValidate(halves, n);
    LinksLinked(9, n);
    HalvesJoin(halves, n);
    var c := Cache(map[], halves);
    var t := halves[Link(9) := Link(10)];
    assert t + map[] == t;
    ChainHalts(t, n, n, 9, n, MAX_EXPANSION_DEPTH - 1);
    RunTwo(EMPTY_CACHE, LoadSystemValidated(halves), SetSystem(Link(9), Link(10)));
    assert Step(EMPTY_CACHE, LoadSystemValidated(halves)) == c;
    assert Step(c, SetSystem(Link(9), Link(10))) == c.(system := t);
  }

  lemma DeepChainStopsShort(t: Table, n: nat, i: nat, depth: nat)
    requires 10 < n <= 18 && Linked(t, n, n) && i == depth <= MAX_EXPANSION_DEPTH
    ensures Words(ResolveWithDepth(map[], t, Link(i), depth)) == [Link(10)] && Link(10) in t
  {
    assert t + map[] == t;
    ResolveIsRewriting(map[], t, Link(i), depth);
    ChainRewrite(t, n, n, i, MAX_EXPANSION_DEPTH - depth);
  }

  /** Acceptance alone does not keep chains short: joining two accepted chains in
      the middle is accepted, and resolution then stops at a word that is still an
      alias. */
  lemma AcceptedChainCanExceedBound(n: nat)
    requires 10 < n <= 18
    ensures var ops := [LoadSystemValidated(Links(9, n)), SetSystem(Link(9), Link(10))];
            var t := Run(EMPTY_CACHE, ops).system;
            && AllChecked(ops)
            && Words(ResolveWithDepth(map[], t, Link(0), 0)) == [Link(10)]
            && Link(10) in t
  {
    JoinIsAccepted(Links(9, n), n);
    DeepChainStopsShort(Links(9, n)[Link(9) := Link(10)], n, 0, 0);
  }

  // -------------------------------------------------------------------- Resolve

  datatype AliasResult = AliasResult(resolved: string, wasAlias: bool, aliasUsed: string)

  function NoAlias(input: string): AliasResult {
    AliasResult(input, false, "")
  }

  function BuildResult(cmd: string, rest: Option<string>, args: string, alias: string): AliasResult {
    var head := if rest.Some? then cmd + " " + rest.value else cmd;
    AliasResult(if args != "" then head + " " + args else head, alias != "", alias)
  }

  // The prefix is one byte: a word that starts with a longer character has none that
  // could be an alias.
  predicate HasPrefix(word: string) {
    |word| > 1 && word[0] as int < 0x80
  }

  // A nested expansion of a system alias does not see the player's aliases.
  function Resolve(c: Cache, p: PlayerId, input: string, registered: set<string>): AliasResult {
    var (first, args) := SplitFirstWord(input);
    var player := PlayerTable(c, p);
    if first == "" || first in registered then NoAlias(input)
    else if first in player then
      BuildResult(ResolveWithDepth(player, c.system, first, 0), None, args, first)
    else if first in c.system then
      BuildResult(ResolveWithDepth(PlayerTable(c, NO_PLAYER), c.system, first, 0), None, args, first)
    else if HasPrefix(first) && first[..1] in player then
      BuildResult(player[first[..1]], Some(first[1..]), args, first[..1])
    else if HasPrefix(first) && first[..1] in c.system then
      BuildResult(c.system[first[..1]], Some(first[1..]), args, first[..1])
    else NoAlias(input)
  }

  lemma BuildResultWords(cmd: string, rest: Option<string>, args: string, alias: string)
    ensures Words(BuildResult(cmd, rest, args, alias).resolved)
         == Words(cmd) + (if rest.Some? then Words(rest.value) else []) + Words(args)
  {
    var head := if rest.Some? then cmd + " " + rest.value else cmd;
    if rest.Some? { WordsJoin(cmd, rest.value); }
    if args != "" { WordsJoin(head, args); }
  }

  lemma ResolveAliasWords(player: Table, system: Table, first: string, args: string)
    requires IsWord(first)
    ensures Words(BuildResult(ResolveWithDepth(player, system, first, 0), None, args, first).resolved)
            == Rewrite(system + player, [first] + Words(args), MAX_EXPANSION_DEPTH)
  {
    var cmd := ResolveWithDepth(player, system, first, 0);
    ResolveIsRewriting(player, system, first, 0);
    BuildResultWords(cmd, None, args, first);
    RewriteTouchesHeadOnly(system + player, [first], Words(args), MAX_EXPANSION_DEPTH);
    assert Words(cmd) + [] == Words(cmd);
  }

  lemma ResolvePrefixWords(expansion: string, first: string, args: string)
    requires IsWord(first) && |first| > 1
    ensures Words(BuildResult(expansion, Some(first[1..]), args, first[..1]).resolved)
         == Words(expansion) + [first[1..]] + Words(args)
  {
    SingleWord(first[1..]);
    BuildResultWords(expansion, Some(first[1..]), args, first[..1]);
  }

  /** What a line means after resolution: registered commands are left alone, an
      alias in front is rewritten at most ten times with the arguments carried
      along, a one-letter prefix is split off and expanded once, and anything else
      is left alone. */
  lemma ResolveMeaning(c: Cache, p: PlayerId, input: string, registered: set<string>)
    ensures var r := Resolve(c, p, input, registered);
            var ws := Words(input);
            var player := if p in c.players then c.players[p] else map[];
            var nobody := if 0 in c.players then c.players[0] else map[];
            if ws == [] || ws[0] in registered then
              r.resolved == input && !r.wasAlias && r.aliasUsed == ""
            else if ws[0] in player then
              r.wasAlias && r.aliasUsed == ws[0] && Words(r.resolved) == Rewrite(c.system + player, ws, 10)
            else if ws[0] in c.system then
              r.wasAlias && r.aliasUsed == ws[0] && Words(r.resolved) == Rewrite(c.system + nobody, ws, 10)
            else if |ws[0]| > 1 && ws[0][0] as int < 128 && ws[0][..1] in c.system + player then
              && r.wasAlias && r.aliasUsed == ws[0][..1]
              && Words(r.resolved)
                 == (if ws[0][..1] in player then Words(player[ws[0][..1]]) else Words(c.system[ws[0][..1]]))
                    + [ws[0][1..]] + ws[1..]
            else r.resolved == input && !r.wasAlias && r.aliasUsed == ""
  {
    SplitIsFirstWord(input);
    var (first, args) := SplitFirstWord(input);
    if first != "" {
      assert Words(input)[1..] == Words(args);
      if first in Overlay(c, p) {
        ResolveAliasWords(PlayerTable(c, if first in PlayerTable(c, p) then p else NO_PLAYER), c.system, first, args);
      } else if HasPrefix(first) && first[..1] in Overlay(c, p) {
        ResolvePrefixWords(Overlay(c, p)[first[..1]], first, args);
      }
    }
  }
}
