/** Alias tables as functional graphs: an alias points to the first word of its
    expansion. A player's aliases over the system's form one table, so the graph
    theory here serves both.
 */
module AliasGraph {
  import opened Options
  import opened CommandWords

  type Table = map<string, string>

  // Where an expansion leads; an empty expansion leads nowhere.
  function Hop(t: Table, cmd: string): Option<string> {
    if cmd in t && SplitFirstWord(t[cmd]).0 != "" then Some(SplitFirstWord(t[cmd]).0) else None
  }

  function Walk(t: Table, cmd: string, hops: nat): Option<string>
    decreases hops
  {
    if hops == 0 then Some(cmd)
    else match Hop(t, cmd)
      case None => None
      case Some(next) => Walk(t, next, hops - 1)
  }

  predicate HaltsWithin(t: Table, cmd: string, hops: nat)
    decreases hops
  {
    match Hop(t, cmd)
    case None => true
    case Some(next) => hops > 0 && HaltsWithin(t, next, hops - 1)
  }

  ghost predicate Halts(t: Table, cmd: string) {
    exists n: nat :: HaltsWithin(t, cmd, n)
  }

  ghost predicate AllHalt(t: Table) {
    forall cmd :: Halts(t, cmd)
  }

  ghost predicate Acyclic(t: Table) {
    forall cmd, k: nat :: k > 0 ==> Walk(t, cmd, k) != Some(cmd)
  }

  ghost predicate Reaches(t: Table, a: string, b: string) {
    exists k: nat :: Walk(t, a, k) == Some(b)
  }

  // A hop leads to the first of the words that the alias stands for.
  lemma HopIsFirstWord(t: Table, cmd: string)
    ensures Hop(t, cmd) == if cmd in t && Words(t[cmd]) != [] then Some(Words(t[cmd])[0]) else None
  {
    if cmd in t { SplitIsFirstWord(t[cmd]); }
  }

  // A chain ends within n hops exactly when no n + 1 hops can be made.
  lemma {:induction false} HaltsIffNoWalk(t: Table, cmd: string, n: nat)
    ensures HaltsWithin(t, cmd, n) <==> Walk(t, cmd, n + 1) == None
    decreases n
  {
    if Hop(t, cmd).Some? {
      var next := Hop(t, cmd).value;
      assert Walk(t, cmd, n + 1) == Walk(t, next, n);
      if n > 0 { HaltsIffNoWalk(t, next, n - 1); }
    }
  }

  lemma {:induction false} WalkThenWalk(t: Table, a: string, j: nat, k: nat)
    requires Walk(t, a, j).Some?
    ensures Walk(t, a, j + k) == Walk(t, Walk(t, a, j).value, k)
    decreases j
  {
    if j > 0 { WalkThenWalk(t, Hop(t, a).value, j - 1, k); }
  }

  lemma {:induction false} WalkKeepsHalting(t: Table, a: string, k: nat, n: nat)
    requires HaltsWithin(t, a, n) && Walk(t, a, k).Some?
    ensures k <= n && HaltsWithin(t, Walk(t, a, k).value, n - k)
    decreases k
  {
    if k > 0 { WalkKeepsHalting(t, Hop(t, a).value, k - 1, n - 1); }
  }

  // Coming back to where one started means never halting.
  lemma {:induction false} CycleNeverHalts(t: Table, a: string, k: nat, n: nat)
    requires k > 0 && Walk(t, a, k) == Some(a)
    ensures !HaltsWithin(t, a, n)
    decreases n
  {
    if HaltsWithin(t, a, n) {
      WalkKeepsHalting(t, a, k, n);
      CycleNeverHalts(t, a, k, n - k);
    }
  }

  // Nodes already passed on the way to `cmd`.
  ghost predicate AllReach(t: Table, passed: set<string>, cmd: string) {
    forall v :: v in passed ==> exists k: nat :: k > 0 && Walk(t, v, k) == Some(cmd)
  }

  lemma AllReachNext(t: Table, passed: set<string>, cmd: string)
    requires AllReach(t, passed, cmd) && Hop(t, cmd).Some?
    ensures AllReach(t, passed + {cmd}, Hop(t, cmd).value)
  {
    var next := Hop(t, cmd).value;
    forall v | v in passed + {cmd} ensures exists k: nat :: k > 0 && Walk(t, v, k) == Some(next) {
      if v in passed {
        var k: nat :| k > 0 && Walk(t, v, k) == Some(cmd);
        WalkThenWalk(t, v, k, 1);
        assert Walk(t, cmd, 1) == Some(next);
        assert Walk(t, v, k + 1) == Some(next);
      } else {
        assert Walk(t, cmd, 1) == Some(next);
      }
    }
  }

  // Without cycles a walk runs out of aliases.
  lemma {:induction false} AcyclicHalts(t: Table, cmd: string, passed: set<string>)
    requires Acyclic(t) && passed <= t.Keys && AllReach(t, passed, cmd)
    ensures Halts(t, cmd)
    decreases |t.Keys - passed|
  {
    if Hop(t, cmd).None? {
      assert HaltsWithin(t, cmd, 0);
    } else {
      var next := Hop(t, cmd).value;
      assert cmd !in passed;
      AllReachNext(t, passed, cmd);
      assert t.Keys - (passed + {cmd}) < t.Keys - passed;
      SubsetSmaller(t.Keys - (passed + {cmd}), t.Keys - passed);
      AcyclicHalts(t, next, passed + {cmd});
      var n: nat :| HaltsWithin(t, next, n);
      assert HaltsWithin(t, cmd, n + 1);
    }
  }

  lemma SubsetSmaller<T>(a: set<T>, b: set<T>)
    requires a < b
    ensures |a| < |b|
  {
    var x :| x in b && x !in a;
    assert a <= b - {x};
    SubsetNotLarger(a, b - {x});
  }

  lemma {:induction false} SubsetNotLarger<T>(a: set<T>, b: set<T>)
    requires a <= b
    ensures |a| <= |b|
  {
    if a != {} {
      var x :| x in a;
      SubsetNotLarger(a - {x}, b - {x});
    }
  }

  /** Free of cycles is the same as: every chain ends. */
  lemma AcyclicIffAllHalt(t: Table)
    ensures Acyclic(t) <==> AllHalt(t)
  {
    if Acyclic(t) {
      forall cmd ensures Halts(t, cmd) { AcyclicHalts(t, cmd, {}); }
    }
    if AllHalt(t) {
      forall cmd, k: nat | k > 0 ensures Walk(t, cmd, k) != Some(cmd) {
        assert Halts(t, cmd);
        var n: nat :| HaltsWithin(t, cmd, n);
        if Walk(t, cmd, k) == Some(cmd) { CycleNeverHalts(t, cmd, k, n); }
      }
    }
  }

  // ------------------------------------------------------------------- updates

  // Checking the changed alias alone is enough.
  lemma {:induction false} UpdateHalts(t: Table, alias: string, command: string, a: string, n: nat)
    requires HaltsWithin(t, a, n) && Halts(t[alias := command], alias)
    ensures Halts(t[alias := command], a)
    decreases n
  {
    var u := t[alias := command];
    if a != alias {
      assert Hop(u, a) == Hop(t, a);
      if Hop(t, a).None? {
        assert HaltsWithin(u, a, 0);
      } else {
        UpdateHalts(t, alias, command, Hop(t, a).value, n - 1);
        var m: nat :| HaltsWithin(u, Hop(t, a).value, m);
        assert HaltsWithin(u, a, m + 1);
      }
    }
  }

  lemma UpdateKeepsAllHalt(t: Table, alias: string, command: string)
    requires AllHalt(t) && Halts(t[alias := command], alias)
    ensures AllHalt(t[alias := command])
  {
    var u := t[alias := command];
    forall a ensures Halts(u, a) {
      assert Halts(t, a);
      var n: nat :| HaltsWithin(t, a, n);
      UpdateHalts(t, alias, command, a, n);
    }
  }

  lemma {:induction false} RemoveHalts(t: Table, alias: string, a: string, n: nat)
    requires HaltsWithin(t, a, n)
    ensures HaltsWithin(t - {alias}, a, n)
    decreases n
  {
    if a != alias && Hop(t, a).Some? { RemoveHalts(t, alias, Hop(t, a).value, n - 1); }
  }

  lemma RemoveKeepsAllHalt(t: Table, alias: string)
    requires AllHalt(t)
    ensures AllHalt(t - {alias})
  {
    var u := t - {alias};
    forall a ensures Halts(u, a) {
      assert Halts(t, a);
      var n: nat :| HaltsWithin(t, a, n);
      RemoveHalts(t, alias, a, n);
    }
  }

  lemma {:induction false} WalkAvoiding(t: Table, alias: string, command: string, a: string, k: nat)
    requires forall j: nat :: j < k ==> Walk(t, a, j) != Some(alias)
    ensures Walk(t[alias := command], a, k) == Walk(t, a, k)
    decreases k
  {
    if k > 0 {
      assert Walk(t, a, 0) != Some(alias);
      if Hop(t, a).Some? {
        forall j: nat | j < k - 1 ensures Walk(t, Hop(t, a).value, j) != Some(alias) {
          assert Walk(t, a, j + 1) != Some(alias);
        }
        WalkAvoiding(t, alias, command, Hop(t, a).value, k - 1);
      }
    }
  }

  lemma {:induction false} FirstVisit(t: Table, a: string, b: string, k: nat) returns (first: nat)
    requires Walk(t, a, k) == Some(b)
    ensures first <= k && Walk(t, a, first) == Some(b)
    ensures forall j: nat :: j < first ==> Walk(t, a, j) != Some(b)
    decreases k
  {
    if j: nat :| j < k && Walk(t, a, j) == Some(b) {
      first := FirstVisit(t, a, b, j);
    } else {
      first := k;
    }
  }

  lemma ReachesOneEarlier(t: Table, a: string, b: string)
    requires Hop(t, a).Some? && Reaches(t, Hop(t, a).value, b)
    ensures Reaches(t, a, b)
  {
    var k: nat :| Walk(t, Hop(t, a).value, k) == Some(b);
    assert Walk(t, a, k + 1) == Some(b);
  }

  lemma {:induction false} HaltsAvoiding(t: Table, alias: string, command: string, a: string, n: nat)
    requires HaltsWithin(t, a, n) && !Reaches(t, a, alias)
    ensures HaltsWithin(t[alias := command], a, n)
    decreases n
  {
    assert Walk(t, a, 0) == Some(a);
    if Hop(t, a).Some? {
      var next := Hop(t, a).value;
      if Reaches(t, next, alias) { ReachesOneEarlier(t, a, alias); }
      HaltsAvoiding(t, alias, command, next, n - 1);
    }
  }

  /** When does setting an alias keep a cycle-free table cycle-free? Exactly when
      the command's first word does not already lead to the alias. */
  lemma UpdateAcyclicIff(t: Table, alias: string, command: string)
    requires AllHalt(t)
    ensures AllHalt(t[alias := command])
       <==> SplitFirstWord(command).0 == "" || !Reaches(t, SplitFirstWord(command).0, alias)
  {
    var u := t[alias := command];
    var next := SplitFirstWord(command).0;
    if next == "" {
      assert HaltsWithin(u, alias, 0);
      UpdateKeepsAllHalt(t, alias, command);
    } else if Reaches(t, next, alias) {
      var k: nat :| Walk(t, next, k) == Some(alias);
      var first := FirstVisit(t, next, alias, k);
      WalkAvoiding(t, alias, command, next, first);
      assert Walk(u, alias, first + 1) == Some(alias);
      if AllHalt(u) {
        assert Halts(u, alias);
        var n: nat :| HaltsWithin(u, alias, n);
        CycleNeverHalts(u, alias, first + 1, n);
      }
    } else {
      assert Halts(t, next);
      var n: nat :| HaltsWithin(t, next, n);
      HaltsAvoiding(t, alias, command, next, n);
      assert HaltsWithin(u, alias, n + 1);
      UpdateKeepsAllHalt(t, alias, command);
    }
  }

  // --------------------------------------------------- updates and chain length

  // Wherever the chain from `a` in `t` meets `alias`, enough of n hops is left in `u`.
  ghost predicate LeavesRoom(t: Table, u: Table, a: string, alias: string, n: nat) {
    forall k: nat :: Walk(t, a, k) == Some(alias) ==> k <= n && HaltsWithin(u, alias, n - k)
  }

  lemma RoomOneLater(t: Table, u: Table, a: string, alias: string, n: nat)
    requires a != alias && Hop(t, a).Some? && n > 0
    ensures LeavesRoom(t, u, a, alias, n) <==> LeavesRoom(t, u, Hop(t, a).value, alias, n - 1)
  {
    var next := Hop(t, a).value;
    if LeavesRoom(t, u, a, alias, n) {
      forall k: nat | Walk(t, next, k) == Some(alias) ensures k <= n - 1 && HaltsWithin(u, alias, n - 1 - k) {
        assert Walk(t, a, k + 1) == Some(alias);
      }
    }
    if LeavesRoom(t, u, next, alias, n - 1) {
      forall k: nat | Walk(t, a, k) == Some(alias) ensures k <= n && HaltsWithin(u, alias, n - k) {
        assert Walk(t, next, k - 1) == Some(alias);
      }
    }
  }

  // A chain through the changed alias has to make do with the hops that are left there.
  lemma {:induction false} UpdateHaltsIff(t: Table, alias: string, command: string, a: string, n: nat)
    requires HaltsWithin(t, a, n)
    ensures HaltsWithin(t[alias := command], a, n) <==> LeavesRoom(t, t[alias := command], a, alias, n)
    decreases n
  {
    var u := t[alias := command];
    if a == alias {
      assert Walk(t, a, 0) == Some(alias);
      forall k: nat | Walk(t, a, k) == Some(alias) ensures k == 0 {
        if k > 0 { CycleNeverHalts(t, a, k, n); }
      }
    } else {
      assert Hop(u, a) == Hop(t, a);
      if Hop(t, a).Some? {
        UpdateHaltsIff(t, alias, command, Hop(t, a).value, n - 1);
        RoomOneLater(t, u, a, alias, n);
      }
    }
  }

  // From a changed alias that closes no cycle, the chain goes on as it did before.
  lemma UpdatedAliasHaltsIff(t: Table, alias: string, command: string, n: nat)
    requires AllHalt(t) && AllHalt(t[alias := command])
    ensures var next := SplitFirstWord(command).0;
            HaltsWithin(t[alias := command], alias, n) <==> next == "" || (n > 0 && HaltsWithin(t, next, n - 1))
  {
    var u := t[alias := command];
    var next := SplitFirstWord(command).0;
    UpdateAcyclicIff(t, alias, command);
    assert Hop(u, alias) == if next == "" then None else Some(next);
    if next != "" && n > 0 {
      if HaltsWithin(t, next, n - 1) { HaltsAvoiding(t, alias, command, next, n - 1); }
      if HaltsWithin(u, next, n - 1) { HaltsUndoing(t, alias, command, next, n - 1); }
    }
  }

  lemma {:induction false} HaltsUndoing(t: Table, alias: string, command: string, a: string, n: nat)
    requires HaltsWithin(t[alias := command], a, n) && !Reaches(t, a, alias)
    ensures HaltsWithin(t, a, n)
    decreases n
  {
    assert Walk(t, a, 0) == Some(a);
    if Hop(t, a).Some? {
      var next := Hop(t, a).value;
      assert Hop(t[alias := command], a) == Some(next);
      if Reaches(t, next, alias) { ReachesOneEarlier(t, a, alias); }
      HaltsUndoing(t, alias, command, next, n - 1);
    }
  }

  // -------------------------------------------------------------------- merging

  lemma {:induction false} WalkOutside(o: Table, t: Table, cmd: string, k: nat)
    requires forall j: nat :: j < k && Walk(o + t, cmd, j).Some? ==> Walk(o + t, cmd, j).value !in t
    ensures Walk(o, cmd, k) == Walk(o + t, cmd, k)
    decreases k
  {
    if k > 0 {
      assert Walk(o + t, cmd, 0) == Some(cmd);
      if Hop(o, cmd).Some? {
        var next := Hop(o, cmd).value;
        forall j: nat | j < k - 1 && Walk(o + t, next, j).Some? ensures Walk(o + t, next, j).value !in t {
          assert Walk(o + t, cmd, j + 1) == Walk(o + t, next, j);
        }
        WalkOutside(o, t, next, k - 1);
      }
    }
  }

  // A cycle can be entered at any of its words.
  lemma Rotate(t: Table, cmd: string, j: nat, k: nat)
    requires j < k && Walk(t, cmd, k) == Some(cmd) && Walk(t, cmd, j).Some?
    ensures Walk(t, Walk(t, cmd, j).value, k) == Walk(t, cmd, j)
  {
    WalkThenWalk(t, cmd, j, k - j);
    WalkThenWalk(t, Walk(t, cmd, j).value, k - j, j);
  }

  ghost predicate LeadsBack(t: Table, a: string) {
    exists k: nat :: k > 0 && Walk(t, a, k) == Some(a)
  }

  /** Merging a table into a cycle-free one keeps it cycle-free exactly when no merged
      alias leads back to itself.
   */
  lemma MergeAcyclicIff(o: Table, t: Table)
    requires Acyclic(o)
    ensures Acyclic(o + t) <==> forall a :: a in t ==> !LeadsBack(o + t, a)
  {
    var u := o + t;
    if forall a :: a in t ==> !LeadsBack(u, a) {
      forall cmd, k: nat | k > 0 ensures Walk(u, cmd, k) != Some(cmd) {
        if Walk(u, cmd, k) == Some(cmd) {
          forall j: nat | j < k && Walk(u, cmd, j).Some? ensures Walk(u, cmd, j).value !in t {
            Rotate(u, cmd, j, k);
            assert LeadsBack(u, Walk(u, cmd, j).value);
          }
          WalkOutside(o, t, cmd, k);
        }
      }
    }
  }
}
