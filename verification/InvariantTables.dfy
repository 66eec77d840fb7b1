/** The tables that are generated from the invariant registry. */
module InvariantTables {
  import opened TextLines

  datatype Scope = Scope(name: string, description: string, boundary: string)

  datatype Entry = Entry(id: string, scope: string, summary: string, legacy: seq<string>, binding: string)

  datatype Doc = Doc(scopes: seq<Scope>, invariants: seq<Entry>)

  // --------------------------------------------------------------------- rows

  // What comes before the first '@'.
  function Token(legacy: string): string {
    if legacy == "" || legacy[0] == '@' then "" else [legacy[0]] + Token(legacy[1..])
  }

  function LegacyTokens(legacy: seq<string>): seq<string> {
    seq(|legacy|, i requires 0 <= i < |legacy| => "`" + Cell(Token(legacy[i])) + "`")
  }

  function LegacyCell(legacy: seq<string>): string {
    if |legacy| == 0 then "\U{2014}" else JoinWith(LegacyTokens(legacy), ", ")
  }

  function BindingOrDash(s: string): string {
    if TrimSpace(s) == "" then "\U{2014}" else s
  }

  function ScopeRow(s: Scope): string {
    "| `" + s.name + "` | " + Cell(s.description) + " | " + Cell(s.boundary) + " |"
  }

  function Row(e: Entry): string {
    "| `" + e.id + "` | " + Cell(e.summary) + " | " + LegacyCell(e.legacy) + " | "
    + Cell(BindingOrDash(e.binding)) + " |"
  }

  function Mapped<T>(f: T -> string, ts: seq<T>): seq<string> {
    if |ts| == 0 then [] else Mapped(f, ts[..|ts| - 1]) + [f(ts[|ts| - 1])]
  }

  function Rows(es: seq<Entry>): seq<string> {
    Mapped(Row, es)
  }

  // ---------------------------------------------------------- lines of the bodies

  function ScopeRows(scopes: seq<Scope>): seq<string> {
    Mapped(ScopeRow, scopes)
  }

  function IndexTop(): seq<string> {
    ["| Scope | Description | Boundary |", "|-------|-------------|----------|"]
  }

  function IndexLines(scopes: seq<Scope>): seq<string> {
    IndexTop() + ScopeRows(scopes)
  }

  // The entries of one scope, in registry order.
  function EntriesOf(es: seq<Entry>, scope: string): seq<Entry> {
    if |es| == 0 then []
    else
      var n := |es| - 1;
      EntriesOf(es[..n], scope) + if es[n].scope == scope then [es[n]] else []
  }

  predicate Declared(scopes: seq<Scope>, name: string) {
    exists i :: 0 <= i < |scopes| && scopes[i].name == name
  }

  function Orphans(scopes: seq<Scope>, es: seq<Entry>): seq<Entry> {
    if |es| == 0 then []
    else
      var n := |es| - 1;
      Orphans(scopes, es[..n]) + if Declared(scopes, es[n].scope) then [] else [es[n]]
  }

  function SectionTop(name: string): seq<string> {
    ["### `" + name + "`", "", "| ID | Summary | Legacy | Binding |", "|----|---------|--------|---------|"]
  }

  function Section(name: string, es: seq<Entry>): seq<string> {
    if |es| == 0 then [] else SectionTop(name) + Rows(es) + [""]
  }

  function TableLines(scopes: seq<Scope>, es: seq<Entry>): seq<string> {
    if |scopes| == 0 then []
    else
      var n := |scopes| - 1;
      TableLines(scopes[..n], es) + Section(scopes[n].name, EntriesOf(es, scopes[n].name))
  }

  // The entries in the order in which the tables show them.
  function Shown(scopes: seq<Scope>, es: seq<Entry>): seq<Entry> {
    if |scopes| == 0 then []
    else
      var n := |scopes| - 1;
      Shown(scopes[..n], es) + EntriesOf(es, scopes[n].name)
  }

  // ----------------------------------------------------------- what is where

  // r has the entries to keep, and at says where they come from: all of them, in order.
  ghost predicate Picked(es: seq<Entry>, keep: Entry -> bool, at: seq<nat>, r: seq<Entry>) {
    && |at| == |r|
    && (forall k :: 0 <= k < |at| ==> at[k] < |es| && keep(es[at[k]]) && r[k] == es[at[k]])
    && (forall j, k :: 0 <= j < k < |at| ==> at[j] < at[k])
    && (forall i :: 0 <= i < |es| && keep(es[i]) ==> i in at)
  }

  lemma PickedPush(es: seq<Entry>, keep: Entry -> bool, at: seq<nat>, r: seq<Entry>, e: Entry)
    requires Picked(es, keep, at, r)
    ensures if keep(e) then Picked(es + [e], keep, at + [|es|], r + [e]) else Picked(es + [e], keep, at, r)
  {
    var more := es + [e];
    assert forall i :: 0 <= i < |es| ==> more[i] == es[i];
    if keep(e) {
      var at' := at + [|es|];
      assert forall i :: i in at' <==> i in at || i == |es|;
    }
  }

  /** A scope has exactly the entries that name it, in registry order. */
  lemma {:induction false} EntriesAt(es: seq<Entry>, scope: string) returns (at: seq<nat>)
    ensures Picked(es, (e: Entry) => e.scope == scope, at, EntriesOf(es, scope))
    decreases |es|
  {
    at := [];
    if |es| > 0 {
      var n := |es| - 1;
      at := EntriesAt(es[..n], scope);
      assert es == es[..n] + [es[n]];
      PickedPush(es[..n], (e: Entry) => e.scope == scope, at, EntriesOf(es[..n], scope), es[n]);
      if es[n].scope == scope { at := at + [n]; }
    }
  }

  /** The orphans are exactly the entries whose scope is not declared, in registry order. */
  lemma {:induction false} OrphansAt(scopes: seq<Scope>, es: seq<Entry>) returns (at: seq<nat>)
    ensures Picked(es, (e: Entry) => forall s :: s in scopes ==> s.name != e.scope, at, Orphans(scopes, es))
    decreases |es|
  {
    at := [];
    if |es| > 0 {
      var n := |es| - 1;
      at := OrphansAt(scopes, es[..n]);
      assert es == es[..n] + [es[n]];
      var keep := (e: Entry) => forall s :: s in scopes ==> s.name != e.scope;
      PickedPush(es[..n], keep, at, Orphans(scopes, es[..n]), es[n]);
      DeclaredIn(scopes, es[n].scope);
      if keep(es[n]) { at := at + [n]; }
    }
  }

  lemma DeclaredIn(scopes: seq<Scope>, name: string)
    ensures Declared(scopes, name) <==> exists s :: s in scopes && s.name == name
  {
    if exists s :: s in scopes && s.name == name {
      var s :| s in scopes && s.name == name;
      var i :| 0 <= i < |scopes| && scopes[i] == s;
      assert scopes[i].name == name;
    }
  }

  // Scope by scope, and within a scope by the place in the registry.
  predicate Before(a: (nat, nat), b: (nat, nat)) {
    a.0 < b.0 || (a.0 == b.0 && a.1 < b.1)
  }

  // The places (scope, entry) of the shown entries: every entry under each declaration of
  // its scope, scopes in the order of declaration.
  ghost predicate InTableOrder(scopes: seq<Scope>, es: seq<Entry>, at: seq<(nat, nat)>) {
    && (forall k :: 0 <= k < |at| ==>
          at[k].0 < |scopes| && at[k].1 < |es| && scopes[at[k].0].name == es[at[k].1].scope)
    && (forall j, k :: 0 <= j < k < |at| ==> Before(at[j], at[k]))
    && (forall i, j :: 0 <= i < |scopes| && 0 <= j < |es| && scopes[i].name == es[j].scope ==> (i, j) in at)
  }

  lemma {:induction false} ShownAt(scopes: seq<Scope>, es: seq<Entry>) returns (at: seq<(nat, nat)>)
    ensures InTableOrder(scopes, es, at) && From(es, at, Shown(scopes, es))
    decreases |scopes|
  {
    at := [];
    if |scopes| > 0 {
      var n := |scopes| - 1;
      var front := ShownAt(scopes[..n], es);
      var p := EntriesAt(es, scopes[n].name);
      at := front + Places(n, p);
      OrderPush(scopes, es, front, p);
      FromPush(es, front, Shown(scopes[..n], es), n, scopes[n].name, p, EntriesOf(es, scopes[n].name));
    }
  }

  ghost predicate From(es: seq<Entry>, at: seq<(nat, nat)>, shown: seq<Entry>) {
    |at| == |shown| && forall k :: 0 <= k < |at| ==> at[k].1 < |es| && shown[k] == es[at[k].1]
  }

  lemma FromPush(es: seq<Entry>, front: seq<(nat, nat)>, shown: seq<Entry>, n: nat, name: string, p: seq<nat>,
                 entries: seq<Entry>)
    requires From(es, front, shown) && Picked(es, (e: Entry) => e.scope == name, p, entries)
    ensures From(es, front + Places(n, p), shown + entries)
  {
  }

  function Places(n: nat, p: seq<nat>): seq<(nat, nat)> {
    seq(|p|, k requires 0 <= k < |p| => (n, p[k]))
  }

  lemma PlacedLater(scopes: seq<Scope>, es: seq<Entry>, front: seq<(nat, nat)>, n: nat, p: seq<nat>)
    requires n == |scopes| && InTableOrder(scopes, es, front) && forall j, k :: 0 <= j < k < |p| ==> p[j] < p[k]
    ensures var at := front + Places(n, p); forall j, k :: 0 <= j < k < |at| ==> Before(at[j], at[k])
  {
    var at := front + Places(n, p);
    forall j, k | 0 <= j < k < |at| ensures Before(at[j], at[k]) {
      if k >= |front| { assert at[k] == (n, p[k - |front|]); }
      if j >= |front| { assert at[j] == (n, p[j - |front|]); }
    }
  }

  lemma OrderPush(scopes: seq<Scope>, es: seq<Entry>, front: seq<(nat, nat)>, p: seq<nat>)
    requires |scopes| > 0
    requires var n := |scopes| - 1;
             && InTableOrder(scopes[..n], es, front)
             && Picked(es, (e: Entry) => e.scope == scopes[n].name, p, EntriesOf(es, scopes[n].name))
    ensures InTableOrder(scopes, es, front + Places(|scopes| - 1, p))
  {
    var n := |scopes| - 1;
    var at := front + Places(n, p);
    assert forall k :: 0 <= k < |front| ==> at[k] == front[k];
    assert forall k :: |front| <= k < |at| ==> at[k] == (n, p[k - |front|]);
    PlacedLater(scopes[..n], es, front, n, p);
    forall i, j | 0 <= i < |scopes| && 0 <= j < |es| && scopes[i].name == es[j].scope ensures (i, j) in at {
      if i < n {
        assert scopes[..n][i] == scopes[i];
        assert (i, j) in front;
      } else {
        assert j in p;
        var k :| 0 <= k < |p| && p[k] == j;
        assert at[|front| + k] == (i, j);
      }
    }
  }

  // --------------------------------------------------------------- conservation

  function Declarations(scopes: seq<Scope>, name: string): nat {
    if |scopes| == 0 then 0
    else
      var n := |scopes| - 1;
      Declarations(scopes[..n], name) + if scopes[n].name == name then 1 else 0
  }

  function Count(es: seq<Entry>, e: Entry): nat {
    if |es| == 0 then 0
    else
      var n := |es| - 1;
      Count(es[..n], e) + if es[n] == e then 1 else 0
  }

  lemma {:induction false} CountIsMultiset(es: seq<Entry>, e: Entry)
    ensures Count(es, e) == multiset(es)[e]
    decreases |es|
  {
    if |es| > 0 {
      var n := |es| - 1;
      CountIsMultiset(es[..n], e);
      assert es == es[..n] + [es[n]];
    }
  }

  lemma {:induction false} CountConcat(a: seq<Entry>, b: seq<Entry>, e: Entry)
    ensures Count(a + b, e) == Count(a, e) + Count(b, e)
    decreases |b|
  {
    if |b| == 0 {
      assert a + b == a;
    } else {
      var n := |b| - 1;
      assert (a + b)[..|a| + n] == a + b[..n];
      CountConcat(a, b[..n], e);
    }
  }

  lemma CountPush(es: seq<Entry>, x: Entry, e: Entry)
    ensures Count(es + [x], e) == Count(es, e) + if x == e then 1 else 0
  {
    assert (es + [x])[..|es|] == es;
  }

  lemma EntriesOfPush(es: seq<Entry>, x: Entry, scope: string)
    ensures EntriesOf(es + [x], scope) == if x.scope == scope then EntriesOf(es, scope) + [x] else EntriesOf(es, scope)
  {
    assert (es + [x])[..|es|] == es;
  }

  lemma {:induction false} EntriesOfCount(es: seq<Entry>, scope: string, e: Entry)
    ensures Count(EntriesOf(es, scope), e) == if e.scope == scope then Count(es, e) else 0
    decreases |es|
  {
    if |es| > 0 {
      var front, x := es[..|es| - 1], es[|es| - 1];
      assert es == front + [x];
      EntriesOfCount(front, scope, e);
      CountPush(front, x, e);
      EntriesOfPush(front, x, scope);
      if x.scope == scope { CountPush(EntriesOf(front, scope), x, e); }
    }
  }

  // k added up d times.
  function Times(d: nat, k: nat): nat {
    if d == 0 then 0 else Times(d - 1, k) + k
  }

  /** Every entry is shown once for each declaration of its scope. */
  lemma {:induction false} ShownCount(scopes: seq<Scope>, es: seq<Entry>, e: Entry)
    ensures Count(Shown(scopes, es), e) == Times(Declarations(scopes, e.scope), Count(es, e))
    decreases |scopes|
  {
    if |scopes| > 0 {
      var n := |scopes| - 1;
      ShownCount(scopes[..n], es, e);
      EntriesOfCount(es, scopes[n].name, e);
      CountConcat(Shown(scopes[..n], es), EntriesOf(es, scopes[n].name), e);
    }
  }

  lemma {:induction false} NoOrphanIsDeclared(scopes: seq<Scope>, es: seq<Entry>)
    ensures Orphans(scopes, es) == [] <==> forall i :: 0 <= i < |es| ==> Declared(scopes, es[i].scope)
    decreases |es|
  {
    if |es| > 0 {
      NoOrphanIsDeclared(scopes, es[..|es| - 1]);
      assert forall i :: 0 <= i < |es| - 1 ==> es[..|es| - 1][i] == es[i];
    }
  }

  /** The tables are rendered exactly when every entry's scope is declared at least once. */
  lemma RenderedIff(doc: Doc)
    ensures Orphans(doc.scopes, doc.invariants) == []
       <==> forall i :: 0 <= i < |doc.invariants| ==> Declarations(doc.scopes, doc.invariants[i].scope) > 0
  {
    NoOrphanIsDeclared(doc.scopes, doc.invariants);
    forall i | 0 <= i < |doc.invariants|
      ensures Declared(doc.scopes, doc.invariants[i].scope) <==> Declarations(doc.scopes, doc.invariants[i].scope) > 0
    {
      DeclaredIsCounted(doc.scopes, doc.invariants[i].scope);
    }
  }

  lemma {:induction false} DeclaredIsCounted(scopes: seq<Scope>, name: string)
    ensures Declared(scopes, name) <==> Declarations(scopes, name) > 0
    decreases |scopes|
  {
    if |scopes| > 0 {
      var n := |scopes| - 1;
      DeclaredIsCounted(scopes[..n], name);
      assert forall i :: 0 <= i < n ==> scopes[..n][i] == scopes[i];
    }
  }

  /** The tables show the registry's entries and no others, each as often as the
      registry holds it, exactly when every entry's scope is declared once.
   */
  lemma NothingVanishesIff(doc: Doc)
    ensures multiset(Shown(doc.scopes, doc.invariants)) == multiset(doc.invariants)
       <==> forall i :: 0 <= i < |doc.invariants| ==> Declarations(doc.scopes, doc.invariants[i].scope) == 1
  {
    var scopes, es := doc.scopes, doc.invariants;
    var shown := multiset(Shown(scopes, es));
    if shown == multiset(es) {
      forall i | 0 <= i < |es| ensures Declarations(scopes, es[i].scope) == 1 {
        ShownCount(scopes, es, es[i]);
        CountIsMultiset(es, es[i]);
        CountIsMultiset(Shown(scopes, es), es[i]);
        CancelPositive(Declarations(scopes, es[i].scope), multiset(es)[es[i]]);
      }
    }
    if forall i :: 0 <= i < |es| ==> Declarations(scopes, es[i].scope) == 1 {
      forall e ensures shown[e] == multiset(es)[e] {
        ShownOnce(scopes, es, e);
      }
    }
  }

  lemma ShownOnce(scopes: seq<Scope>, es: seq<Entry>, e: Entry)
    requires forall i :: 0 <= i < |es| ==> Declarations(scopes, es[i].scope) == 1
    ensures multiset(Shown(scopes, es))[e] == multiset(es)[e]
  {
    ShownCount(scopes, es, e);
    CountIsMultiset(es, e);
    CountIsMultiset(Shown(scopes, es), e);
    if e in multiset(es) {
      var i :| 0 <= i < |es| && es[i] == e;
      CancelPositive(1, multiset(es)[e]);
    } else {
      CancelPositive(Declarations(scopes, e.scope), 1);
    }
  }

  lemma {:induction false} CancelPositive(d: nat, k: nat)
    requires k > 0
    ensures d > 0 ==> Times(d, k) >= k
    ensures Times(d, k) == k <==> d == 1
    ensures Times(d, 0) == 0
  {
    if d > 0 { CancelPositive(d - 1, k); }
  }

  predicate IsRow(line: string) {
    "| `" <= line
  }

  function RowsIn(lines: seq<string>): seq<string> {
    if |lines| == 0 then []
    else
      var n := |lines| - 1;
      RowsIn(lines[..n]) + if IsRow(lines[n]) then [lines[n]] else []
  }

  lemma {:induction false} RowsInConcat(a: seq<string>, b: seq<string>)
    ensures RowsIn(a + b) == RowsIn(a) + RowsIn(b)
    decreases |b|
  {
    if |b| == 0 {
      assert a + b == a;
    } else {
      var n := |b| - 1;
      assert (a + b)[..|a| + n] == a + b[..n];
      RowsInConcat(a, b[..n]);
    }
  }

  lemma {:induction false} AllRows(lines: seq<string>)
    requires forall i :: 0 <= i < |lines| ==> IsRow(lines[i])
    ensures RowsIn(lines) == lines
    decreases |lines|
  {
    if |lines| > 0 {
      AllRows(lines[..|lines| - 1]);
    }
  }

  lemma {:induction false} NoRows(lines: seq<string>)
    requires forall i :: 0 <= i < |lines| ==> !IsRow(lines[i])
    ensures RowsIn(lines) == []
    decreases |lines|
  {
    if |lines| > 0 {
      NoRows(lines[..|lines| - 1]);
    }
  }

  lemma RowIsRow(e: Entry)
    ensures IsRow(Row(e))
  {
  }

  lemma TopHasNoRows(name: string)
    ensures forall i :: 0 <= i < |SectionTop(name)| ==> !IsRow(SectionTop(name)[i])
  {
    var p := "| `";
    assert p[0] == '|' && p[2] == '`';
    assert SectionTop(name)[0][0] == '#';
    assert SectionTop(name)[2][2] == 'I' && SectionTop(name)[3][2] == '-';
  }

  lemma {:induction false} RowsAreRows(es: seq<Entry>)
    ensures forall l :: l in Rows(es) ==> IsRow(l)
    decreases |es|
  {
    if |es| > 0 {
      RowsAreRows(es[..|es| - 1]);
      RowIsRow(es[|es| - 1]);
    }
  }

  lemma {:induction false} MappedConcat<T>(f: T -> string, a: seq<T>, b: seq<T>)
    ensures Mapped(f, a + b) == Mapped(f, a) + Mapped(f, b)
    decreases |b|
  {
    if |b| == 0 {
      assert a + b == a;
    } else {
      var n := |b| - 1;
      assert (a + b)[..|a| + n] == a + b[..n];
      MappedConcat(f, a, b[..n]);
    }
  }

  lemma {:induction false} MappedAt<T>(f: T -> string, ts: seq<T>)
    ensures |Mapped(f, ts)| == |ts| && forall k :: 0 <= k < |ts| ==> Mapped(f, ts)[k] == f(ts[k])
    decreases |ts|
  {
    if |ts| > 0 { MappedAt(f, ts[..|ts| - 1]); }
  }

  lemma RowsBetween(top: seq<string>, rows: seq<string>)
    requires forall i :: 0 <= i < |top| ==> !IsRow(top[i])
    requires forall l :: l in rows ==> IsRow(l)
    ensures RowsIn(top + rows + [""]) == rows
  {
    RowsBehind(top, rows);
    BlankIsNoRow();
    RowsInConcat(top + rows, [""]);
  }

  lemma RowsBehind(top: seq<string>, rows: seq<string>)
    requires forall i :: 0 <= i < |top| ==> !IsRow(top[i])
    requires forall l :: l in rows ==> IsRow(l)
    ensures RowsIn(top + rows) == rows
  {
    NoRows(top);
    AllRows(rows);
    RowsInConcat(top, rows);
  }

  lemma BlankIsNoRow()
    ensures RowsIn([""]) == []
  {
    NoRows([""]);
  }

  lemma SectionRows(name: string, es: seq<Entry>)
    ensures RowsIn(Section(name, es)) == Rows(es)
  {
    if |es| > 0 {
      TopHasNoRows(name);
      RowsAreRows(es);
      RowsBetween(SectionTop(name), Rows(es));
    }
  }

  /** Read back, the rows of the tables are the rows of the shown entries, in order. */
  lemma {:induction false} TableRows(scopes: seq<Scope>, es: seq<Entry>)
    ensures RowsIn(TableLines(scopes, es)) == Rows(Shown(scopes, es))
    decreases |scopes|
  {
    if |scopes| > 0 {
      var n := |scopes| - 1;
      TableRows(scopes[..n], es);
      SectionRows(scopes[n].name, EntriesOf(es, scopes[n].name));
      RowsInConcat(TableLines(scopes[..n], es), Section(scopes[n].name, EntriesOf(es, scopes[n].name)));
      MappedConcat(Row, Shown(scopes[..n], es), EntriesOf(es, scopes[n].name));
    }
  }

  // ----------------------------------------------------------------- renderers

  function Body(lines: seq<string>): string {
    TrimNewlines(Unlines(lines))
  }

  function Placeholder(): string {
    "_No invariants migrated yet " + "\U{2014} populated per-scope by the " + "holomush-hz0v4.14 migration._"
  }

  function TablesBody(doc: Doc): string {
    var lines := TableLines(doc.scopes, doc.invariants);
    if lines == [] then Placeholder() else Body(lines)
  }

  lemma {:induction false} UnlinesConcat(a: seq<string>, b: seq<string>)
    ensures Unlines(a + b) == Unlines(a) + Unlines(b)
    decreases |b|
  {
    if |b| == 0 {
      assert a + b == a;
    } else {
      var n := |b| - 1;
      assert (a + b)[..|a| + n] == a + b[..n];
      UnlinesConcat(a, b[..n]);
    }
  }

  lemma UnlinesPush(a: seq<string>, l: string)
    ensures Unlines(a + [l]) == Unlines(a) + l + "\n"
  {
    assert (a + [l])[..|a|] == a;
  }

  method WriteLines(b: string, lines: seq<string>) returns (text: string)
    ensures text == b + Unlines(lines)
  {
    text := b;
    assert b == b + Unlines([]);
    for i := 0 to |lines|
      invariant text == b + Unlines(lines[..i])
    {
      text := text + lines[i] + "\n";
      UnlinesPush(lines[..i], lines[i]);
      assert lines[..i + 1] == lines[..i] + [lines[i]];
      assert b + Unlines(lines[..i]) + lines[i] + "\n" == b + (Unlines(lines[..i]) + lines[i] + "\n");
    }
    assert lines[..|lines|] == lines;
  }

  method RenderScopeIndex(scopes: seq<Scope>) returns (body: string)
    ensures body == Body(IndexLines(scopes))
    ensures body == TrimNewlines(Unlines(["| Scope | Description | Boundary |", "|-------|-------------|----------|"]
                                         + ScopeRows(scopes)))
  {
    var top := IndexTop();
    var b := WriteLines("", top);
    assert b == Unlines(top);
    b := WriteLines(b, ScopeRows(scopes));
    UnlinesConcat(top, ScopeRows(scopes));
    return TrimNewlines(b);
  }

  method RenderSection(b: string, name: string, es: seq<Entry>) returns (text: string)
    requires |es| > 0
    ensures text == b + Unlines(Section(name, es))
    ensures text == b + Unlines(["### `" + name + "`", "", "| ID | Summary | Legacy | Binding |",
                                 "|----|---------|--------|---------|"] + Rows(es) + [""])
  {
    text := WriteLines(b, SectionTop(name));
    text := WriteLines(text, Rows(es));
    ghost var top, rows := SectionTop(name), Rows(es);
    UnlinesConcat(top, rows);
    Regroup(b, Unlines(top), Unlines(rows));
    UnlinesPush(top + rows, "");
    assert Unlines(top + rows) + "" == Unlines(top + rows);
    Regroup(b, Unlines(top + rows), "\n");
    text := text + "\n";
  }

  datatype Tables = Tables(text: string) | Undeclared(orphans: seq<Entry>)

  method KnownScopes(scopes: seq<Scope>) returns (known: set<string>)
    ensures forall n :: n in known <==> Declared(scopes, n)
  {
    known := {};
    for i := 0 to |scopes|
      invariant forall n :: n in known <==> Declared(scopes[..i], n)
    {
      known := known + {scopes[i].name};
      DeclaredStep(scopes, i);
    }
    assert scopes[..|scopes|] == scopes;
  }

  method GroupByScope(scopes: seq<Scope>, es: seq<Entry>)
    returns (byScope: map<string, seq<Entry>>, orphans: seq<Entry>)
    ensures orphans == Orphans(scopes, es)
    ensures forall n :: Declared(scopes, n) ==> Lookup(byScope, n) == EntriesOf(es, n)
  {
    var known := KnownScopes(scopes);
    byScope, orphans := map[], [];
    for i := 0 to |es|
      invariant orphans == Orphans(scopes, es[..i])
      invariant forall n :: Declared(scopes, n) ==> Lookup(byScope, n) == EntriesOf(es[..i], n)
    {
      assert es[..i + 1][..i] == es[..i];
      if es[i].scope !in known {
        orphans := orphans + [es[i]];
        continue;
      }
      byScope := byScope[es[i].scope := Lookup(byScope, es[i].scope) + [es[i]]];
    }
    assert es[..|es|] == es;
  }

  method RenderInvariantTables(doc: Doc) returns (r: Tables)
    ensures r == if Orphans(doc.scopes, doc.invariants) == [] then Tables(TablesBody(doc))
                 else Undeclared(Orphans(doc.scopes, doc.invariants))
    ensures r.Tables? <==> forall e :: e in doc.invariants ==> exists s :: s in doc.scopes && s.name == e.scope
    ensures doc.invariants == [] ==> r == Tables("_No invariants migrated yet " + "\U{2014} populated per-scope by the "
                                                 + "holomush-hz0v4.14 migration._")
  {
    RenderedExactly(doc);
    NothingToShow(doc.scopes);
    var scopes, es := doc.scopes, doc.invariants;
    var byScope, orphans := GroupByScope(scopes, es);
    if orphans != [] { return Undeclared(orphans); }
    var b := "";
    var wrote := false;
    for i := 0 to |scopes|
      invariant b == Unlines(TableLines(scopes[..i], es))
      invariant wrote <==> TableLines(scopes[..i], es) != []
    {
      assert Declared(scopes, scopes[i].name);
      var entries := Lookup(byScope, scopes[i].name);
      TableLinesStep(scopes, es, i);
      if |entries| == 0 { continue; }
      wrote := true;
      b := RenderSection(b, scopes[i].name, entries);
    }
    assert scopes[..|scopes|] == scopes;
    if !wrote { return Tables(Placeholder()); }
    return Tables(TrimNewlines(b));
  }

  lemma RenderedExactly(doc: Doc)
    ensures Orphans(doc.scopes, doc.invariants) == []
       <==> forall e :: e in doc.invariants ==> exists s :: s in doc.scopes && s.name == e.scope
  {
    NoOrphanIsDeclared(doc.scopes, doc.invariants);
    forall e: Entry ensures Declared(doc.scopes, e.scope) <==> exists s :: s in doc.scopes && s.name == e.scope {
      DeclaredIn(doc.scopes, e.scope);
    }
  }

  lemma {:induction false} NothingToShow(scopes: seq<Scope>)
    ensures TableLines(scopes, []) == []
  {
    if |scopes| > 0 { NothingToShow(scopes[..|scopes| - 1]); }
  }

  /** Each scope with entries has one table, in the order of declaration: a heading with its
      name, the header, and its entries' rows.
   */
  lemma TableOfScope(scopes: seq<Scope>, es: seq<Entry>, i: nat) returns (after: seq<string>)
    requires i < |scopes|
    ensures var name := scopes[i].name;
            var rows := Rows(EntriesOf(es, name));
            TableLines(scopes, es)
            == TableLines(scopes[..i], es)
               + (if rows == [] then []
                  else ["### `" + name + "`", "", "| ID | Summary | Legacy | Binding |",
                        "|----|---------|--------|---------|"] + rows + [""])
               + after
  {
    MappedAt(Row, EntriesOf(es, scopes[i].name));
    after := SectionOfScope(scopes, es, i);
  }

  lemma {:induction false} SectionOfScope(scopes: seq<Scope>, es: seq<Entry>, i: nat) returns (after: seq<string>)
    requires i < |scopes|
    ensures TableLines(scopes, es)
         == TableLines(scopes[..i], es) + Section(scopes[i].name, EntriesOf(es, scopes[i].name)) + after
    decreases |scopes|
  {
    var n := |scopes| - 1;
    var last := Section(scopes[n].name, EntriesOf(es, scopes[n].name));
    if i == n { return []; }
    var front := SectionOfScope(scopes[..n], es, i);
    assert scopes[..n][..i] == scopes[..i];
    Regroup(TableLines(scopes[..i], es) + Section(scopes[i].name, EntriesOf(es, scopes[i].name)), front, last);
    after := front + last;
  }

  lemma TableLinesStep(scopes: seq<Scope>, es: seq<Entry>, i: nat)
    requires i < |scopes|
    ensures var entries := EntriesOf(es, scopes[i].name);
            var section := Section(scopes[i].name, entries);
            && TableLines(scopes[..i + 1], es) == TableLines(scopes[..i], es) + section
            && Unlines(TableLines(scopes[..i + 1], es)) == Unlines(TableLines(scopes[..i], es)) + Unlines(section)
            && (section == [] <==> entries == [])
  {
    assert scopes[..i + 1][..i] == scopes[..i];
    UnlinesConcat(TableLines(scopes[..i], es), Section(scopes[i].name, EntriesOf(es, scopes[i].name)));
  }

  function Lookup(m: map<string, seq<Entry>>, k: string): seq<Entry> {
    if k in m then m[k] else []
  }

  lemma DeclaredStep(scopes: seq<Scope>, i: nat)
    requires i < |scopes|
    ensures forall n :: Declared(scopes[..i + 1], n) <==> Declared(scopes[..i], n) || n == scopes[i].name
  {
    var a, b := scopes[..i], scopes[..i + 1];
    assert b == a + [scopes[i]];
    forall n ensures Declared(b, n) <==> Declared(a, n) || n == scopes[i].name {
      if Declared(a, n) {
        var k :| 0 <= k < |a| && a[k].name == n;
        assert b[k].name == n;
      }
      assert b[i].name == scopes[i].name;
    }
  }

  // --------------------------------------------------------- the bodies as lines

  lemma BodyOfText(text: string, lines: seq<string>)
    requires Unlines(lines) == text + "\n"
    ensures Body(lines) == TrimNewlines(text)
  {
    assert (text + "\n")[..|text|] == text;
  }

  // Trimming only drops empty lines at the end.
  lemma {:induction false} BodyLines(lines: seq<string>)
    requires forall i :: 0 <= i < |lines| ==> NewlineFree(lines[i])
    ensures Split(Body(lines)) <= lines || Split(Body(lines)) == [""]
    decreases |lines|
  {
    if |lines| > 0 {
      var front, last := lines[..|lines| - 1], lines[|lines| - 1];
      assert lines == front + [last];
      UnlinesPush(front, last);
      if last == "" {
        assert Unlines(front) + "" == Unlines(front);
        BodyOfText(Unlines(front), lines);
        BodyLines(front);
      } else {
        UnlinesIsJoin(lines);
        EndsLike(Join(lines), Unlines(front), last);
        BodyOfText(Join(lines), lines);
        SplitJoin(lines);
      }
    }
  }

  // No row is lost in trimming.
  lemma {:induction false} BodyRows(lines: seq<string>)
    requires forall i :: 0 <= i < |lines| ==> NewlineFree(lines[i])
    ensures RowsIn(Split(Body(lines))) == RowsIn(lines)
    decreases |lines|
  {
    if |lines| == 0 {
      BlankIsNoRow();
    } else {
      var front, last := lines[..|lines| - 1], lines[|lines| - 1];
      assert lines == front + [last];
      UnlinesPush(front, last);
      if last == "" {
        assert Unlines(front) + "" == Unlines(front);
        BodyOfText(Unlines(front), lines);
        BlankIsNoRow();
        RowsInConcat(front, [last]);
        BodyRows(front);
      } else {
        UnlinesIsJoin(lines);
        EndsLike(Join(lines), Unlines(front), last);
        BodyOfText(Join(lines), lines);
        SplitJoin(lines);
      }
    }
  }

  // A text whose last line is not empty does not end in a newline.
  lemma EndsLike(text: string, before: string, last: string)
    requires text + "\n" == before + last + "\n" && last != "" && NewlineFree(last)
    ensures TrimNewlines(text) == text
  {
    assert text == (text + "\n")[..|text|] == before + last;
    assert text[|text| - 1] == last[|last| - 1];
  }

  // A line of the tables: empty, or it starts with one of three characters.
  predicate TableLine(line: string) {
    NewlineFree(line) && (line == "" || line[0] == '|' || line[0] == '#' || line[0] == '_')
  }

  predicate OneLineNames(doc: Doc) {
    && (forall i :: 0 <= i < |doc.scopes| ==> NewlineFree(doc.scopes[i].name))
    && (forall i :: 0 <= i < |doc.invariants| ==> NewlineFree(doc.invariants[i].id))
  }

  lemma LegacyNewlineFree(legacy: seq<string>)
    ensures NewlineFree(LegacyCell(legacy))
  {
    forall i | 0 <= i < |legacy| ensures NewlineFree(LegacyTokens(legacy)[i]) {
      CellNewlineFree(Token(legacy[i]));
    }
    JoinWithNewlineFree(LegacyTokens(legacy), ", ");
  }

  lemma RowLine(e: Entry)
    requires NewlineFree(e.id)
    ensures TableLine(Row(e))
  {
    CellNewlineFree(e.summary);
    LegacyNewlineFree(e.legacy);
    CellNewlineFree(BindingOrDash(e.binding));
    FourNewlineFree(e.id, Cell(e.summary), LegacyCell(e.legacy), Cell(BindingOrDash(e.binding)));
  }

  lemma FourNewlineFree(a: string, b: string, c: string, d: string)
    requires NewlineFree(a) && NewlineFree(b) && NewlineFree(c) && NewlineFree(d)
    ensures TableLine("| `" + a + "` | " + b + " | " + c + " | " + d + " |")
  {
    var front := "| `" + a + "` | " + b;
    assert NewlineFree(front);
    assert NewlineFree(front + " | " + c);
  }

  lemma ScopeRowLine(s: Scope)
    requires NewlineFree(s.name)
    ensures TableLine(ScopeRow(s))
  {
    CellNewlineFree(s.description);
    CellNewlineFree(s.boundary);
  }

  lemma {:induction false} ScopeRowsAreTableLines(scopes: seq<Scope>)
    requires forall i :: 0 <= i < |scopes| ==> NewlineFree(scopes[i].name)
    ensures forall l :: l in ScopeRows(scopes) ==> TableLine(l)
    decreases |scopes|
  {
    if |scopes| > 0 {
      ScopeRowsAreTableLines(scopes[..|scopes| - 1]);
      ScopeRowLine(scopes[|scopes| - 1]);
    }
  }

  lemma IndexLinesAreTableLines(scopes: seq<Scope>)
    requires forall i :: 0 <= i < |scopes| ==> NewlineFree(scopes[i].name)
    ensures forall i :: 0 <= i < |IndexLines(scopes)| ==> TableLine(IndexLines(scopes)[i])
  {
    ScopeRowsAreTableLines(scopes);
    IndexTopLines();
    assert IndexLines(scopes) == IndexTop() + ScopeRows(scopes);
  }

  lemma IndexTopLines()
    ensures forall l :: l in IndexTop() ==> TableLine(l)
  {
    var top := IndexTop();
    assert TableLine(top[0]);
    assert TableLine(top[1]);
  }

  lemma {:induction false} RowsAreTableLines(es: seq<Entry>)
    requires forall e :: e in es ==> NewlineFree(e.id)
    ensures forall l :: l in Rows(es) ==> TableLine(l)
    decreases |es|
  {
    if |es| > 0 {
      RowsAreTableLines(es[..|es| - 1]);
      RowLine(es[|es| - 1]);
    }
  }

  lemma {:induction false} EntriesOfWithin(es: seq<Entry>, scope: string)
    ensures forall e :: e in EntriesOf(es, scope) ==> e in es
    decreases |es|
  {
    if |es| > 0 { EntriesOfWithin(es[..|es| - 1], scope); }
  }

  lemma TopLines(name: string)
    requires NewlineFree(name)
    ensures forall l :: l in SectionTop(name) ==> TableLine(l)
  {
    var top := SectionTop(name);
    assert TableLine(top[0]);
    assert TableLine(top[1]);
    assert TableLine(top[2]);
    assert TableLine(top[3]);
  }

  lemma SectionLines(name: string, es: seq<Entry>)
    requires NewlineFree(name) && forall e :: e in es ==> NewlineFree(e.id)
    ensures forall l :: l in Section(name, es) ==> TableLine(l)
  {
    if |es| > 0 {
      RowsAreTableLines(es);
      TopLines(name);
      assert TableLine("");
    }
  }

  lemma {:induction false} TableLinesAreTableLines(scopes: seq<Scope>, es: seq<Entry>)
    requires forall i :: 0 <= i < |scopes| ==> NewlineFree(scopes[i].name)
    requires forall e :: e in es ==> NewlineFree(e.id)
    ensures forall l :: l in TableLines(scopes, es) ==> TableLine(l)
    decreases |scopes|
  {
    if |scopes| > 0 {
      var n := |scopes| - 1;
      TableLinesAreTableLines(scopes[..n], es);
      EntriesOfWithin(es, scopes[n].name);
      SectionLines(scopes[n].name, EntriesOf(es, scopes[n].name));
    }
  }

  lemma PlaceholderIsTableLine()
    ensures TableLine(Placeholder())
  {
    var a, b := "_No invariants migrated yet ", "\U{2014} populated per-scope by the ";
    assert NewlineFree(a);
    assert NewlineFree(b);
    assert NewlineFree("holomush-hz0v4.14 migration._");
    assert Placeholder()[0] == a[0];
  }

  /** Both bodies, read as lines again, consist of table lines. */
  lemma BodiesAreTableLines(doc: Doc)
    requires OneLineNames(doc)
    ensures forall l :: l in Split(Body(IndexLines(doc.scopes))) ==> TableLine(l)
    ensures forall l :: l in Split(TablesBody(doc)) ==> TableLine(l)
  {
    IndexLinesAreTableLines(doc.scopes);
    BodyLines(IndexLines(doc.scopes));
    var lines := TableLines(doc.scopes, doc.invariants);
    TableLinesAreTableLines(doc.scopes, doc.invariants);
    if lines == [] {
      PlaceholderIsTableLine();
      SplitJoin([Placeholder()]);
    } else {
      forall i | 0 <= i < |lines| ensures NewlineFree(lines[i]) { assert lines[i] in lines; }
      BodyLines(lines);
    }
  }

  lemma PlaceholderHasNoRows()
    ensures RowsIn([Placeholder()]) == []
  {
    var p := "| `";
    assert p[0] == '|' && Placeholder()[0] == '_';
    NoRows([Placeholder()]);
  }

  /** The rows of the rendered tables, read back as lines: scope by scope in the order of
      declaration, and in registry order within a scope.
   */
  lemma TablesInOrder(doc: Doc) returns (at: seq<(nat, nat)>)
    requires OneLineNames(doc)
    ensures InTableOrder(doc.scopes, doc.invariants, at)
    ensures var rows := RowsIn(Split(TablesBody(doc)));
            |rows| == |at| && forall k :: 0 <= k < |at| ==> rows[k] == Row(doc.invariants[at[k].1])
  {
    var scopes, es := doc.scopes, doc.invariants;
    at := ShownAt(scopes, es);
    MappedAt(Row, Shown(scopes, es));
    TableRows(scopes, es);
    var lines := TableLines(scopes, es);
    if lines == [] {
      PlaceholderIsTableLine();
      SplitJoin([Placeholder()]);
      PlaceholderHasNoRows();
    } else {
      TableLinesAreTableLines(scopes, es);
      forall i | 0 <= i < |lines| ensures NewlineFree(lines[i]) { assert lines[i] in lines; }
      BodyRows(lines);
    }
  }

  lemma IndexTopHasNoRows()
    ensures forall i :: 0 <= i < |IndexTop()| ==> !IsRow(IndexTop()[i])
  {
    var p := "| `";
    assert p[2] == '`';
    assert IndexTop()[0][2] == 'S' && IndexTop()[1][2] == '-';
  }

  lemma ScopeRowsAreRows(scopes: seq<Scope>)
    ensures forall l :: l in ScopeRows(scopes) ==> IsRow(l)
    ensures |ScopeRows(scopes)| == |scopes|
    ensures forall k :: 0 <= k < |scopes| ==> ScopeRows(scopes)[k] == ScopeRow(scopes[k])
  {
    MappedAt(ScopeRow, scopes);
    forall k | 0 <= k < |scopes| ensures IsRow(ScopeRow(scopes[k])) {}
  }

  /** The rows of the scope index, read back as lines: one for each scope, in order. */
  lemma IndexInOrder(scopes: seq<Scope>)
    requires forall i :: 0 <= i < |scopes| ==> NewlineFree(scopes[i].name)
    ensures var rows := RowsIn(Split(Body(IndexLines(scopes))));
            |rows| == |scopes| && forall k :: 0 <= k < |scopes| ==> rows[k] == ScopeRow(scopes[k])
  {
    IndexLinesAreTableLines(scopes);
    BodyRows(IndexLines(scopes));
    IndexTopHasNoRows();
    ScopeRowsAreRows(scopes);
    RowsBehind(IndexTop(), ScopeRows(scopes));
  }
}
