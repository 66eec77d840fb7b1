/** Regenerating the two marked regions of invariants.md from the registry. */
module InvariantsRender {
  import opened CommandWords
  import opened TextLines
  import opened InvariantTables
  import opened MarkedRegions
  import opened MarkedFills

  const SCOPE_INDEX := "scope-index"
  const INVARIANT_TABLES := "invariant-tables"

  datatype RenderError = MissingBegin(name: string) | MissingEnd(name: string) | UndeclaredScope(orphans: seq<Entry>)

  datatype Result = Ok(text: string) | Err(error: RenderError)

  // ------------------------------------------------------------------- markers

  predicate IsBegin(name: string, line: string) {
    "<!-- BEGIN GENERATED: " + name <= TrimSpace(line)
  }

  predicate IsEnd(name: string, line: string) {
    TrimSpace(line) == "<!-- END GENERATED: " + name + " -->"
  }

  function MarksOf(name: string): Marks<string> {
    Marks(line => IsBegin(name, line), line => IsEnd(name, line))
  }

  /** A region, on the text of its lines: the first line that starts with the BEGIN marker,
      and the first line behind it that is the END marker, white space around them aside.
   */
  lemma RegionMeans(lines: seq<string>, name: string, b: nat, e: nat)
    ensures IsRegion(lines, MarksOf(name), b, e)
       <==> && b < e < |lines|
            && "<!-- BEGIN GENERATED: " + name <= TrimSpace(lines[b])
            && (forall i :: 0 <= i < b ==> !("<!-- BEGIN GENERATED: " + name <= TrimSpace(lines[i])))
            && TrimSpace(lines[e]) == "<!-- END GENERATED: " + name + " -->"
            && (forall i :: b < i < e ==> TrimSpace(lines[i]) != "<!-- END GENERATED: " + name + " -->")
  {
    var m := MarksOf(name);
    assert forall i :: 0 <= i < |lines| ==> (m.begin(lines[i]) <==> IsBegin(name, lines[i]));
    assert forall i :: 0 <= i < |lines| ==> (m.end(lines[i]) <==> IsEnd(name, lines[i]));
  }

  // The lines put between the markers.
  function Fill(body: string): seq<string> {
    [""] + Split(body) + [""]
  }

  lemma PrefixStart(p: string, t: string)
    requires p != "" && (t == "" || t[0] != p[0])
    ensures !(p <= t)
  {
  }

  // No marker starts like this: table lines do, and other text.
  predicate PlainStart(line: string) {
    line == "" || (!IsSpace(line[0]) && line[0] != '<')
  }

  lemma PlainIsNoMarker(name: string, line: string)
    requires PlainStart(line)
    ensures !IsBegin(name, line) && !IsEnd(name, line)
  {
    if line != "" { TrimmedStart(line); }
    PrefixStart("<!-- BEGIN GENERATED: " + name, TrimSpace(line));
    PrefixStart("<!-- END GENERATED: " + name + " -->", TrimSpace(line));
  }

  lemma FillIsHarmless(name: string, body: string)
    requires forall l :: l in Split(body) ==> TableLine(l)
    ensures Harmless(Fill(body), MarksOf(name))
  {
    var fill := Fill(body);
    var m := MarksOf(name);
    forall i | 0 <= i < |fill| ensures !m.begin(fill[i]) && !m.end(fill[i]) {
      assert fill[i] == "" || fill[i] in Split(body);
      PlainIsNoMarker(name, fill[i]);
    }
  }

  lemma PrefixesDiffer(p: string, q: string, i: nat, t: string)
    requires i < |p| && i < |q| && p[i] != q[i]
    ensures !(p <= t && q <= t)
  {
  }

  lemma MarkersApart(a: string, b: string)
    requires a != "" && b != "" && a[0] != b[0]
    ensures Apart(MarksOf(a), MarksOf(b))
  {
    var begin, end := "<!-- BEGIN GENERATED: ", "<!-- END GENERATED: ";
    assert begin[5] == 'B' && end[5] == 'E';
    forall line
      ensures !(IsBegin(a, line) && IsBegin(b, line)) && !(IsEnd(a, line) && IsEnd(b, line))
      ensures !(IsBegin(a, line) && IsEnd(b, line)) && !(IsEnd(a, line) && IsBegin(b, line))
    {
      var t := TrimSpace(line);
      PrefixesDiffer(begin + a, begin + b, |begin|, t);
      PrefixesDiffer(end + a + " -->", end + b + " -->", |end|, t);
      PrefixesDiffer(begin + a, end + b + " -->", 5, t);
      PrefixesDiffer(end + a + " -->", begin + b, 5, t);
    }
  }

  // ------------------------------------------------------------- replaceRegion

  // No line begins the region.
  predicate Unopened(lines: seq<string>, name: string) {
    forall i :: 0 <= i < |lines| ==> !IsBegin(name, lines[i])
  }

  datatype Found = Region(begin: nat, end: nat) | BeginMissing | EndMissing

  // The scan of replaceRegion.
  method FindRegion(lines: seq<string>, name: string) returns (r: Found)
    ensures r.Region? ==> IsRegion(lines, MarksOf(name), r.begin, r.end)
    ensures r.EndMissing? ==> exists b :: 0 <= b < |lines| && IsBegin(name, lines[b])
                                && forall i :: b < i < |lines| ==> !IsEnd(name, lines[i])
    ensures r.BeginMissing? <==> Unopened(lines, name)
    ensures !r.Region? ==> forall b, e :: !IsRegion(lines, MarksOf(name), b, e)
  {
    var begin := -1;
    for i := 0 to |lines|
      invariant -1 <= begin < i
      invariant begin == -1 ==> Unopened(lines[..i], name)
      invariant begin >= 0 ==> IsBegin(name, lines[begin]) && forall j :: 0 <= j < begin ==> !IsBegin(name, lines[j])
      invariant begin >= 0 ==> forall j :: begin < j < i ==> !IsEnd(name, lines[j])
    {
      if begin == -1 && IsBegin(name, lines[i]) {
        begin := i;
        continue;
      }
      if begin != -1 && IsEnd(name, lines[i]) { return Region(begin, i); }
    }
    assert lines[..|lines|] == lines;
    return if begin == -1 then BeginMissing else EndMissing;
  }

  method ReplaceRegion(md: string, name: string, body: string) returns (r: Result)
    ensures r.Ok? ==> exists b, e :: IsRegion(Split(md), MarksOf(name), b, e)
                                  && Split(r.text) == Replaced(Split(md), b, e, Fill(body))
    ensures r.Ok? ==> exists b: nat, e: nat :: IsRegion(Split(md), MarksOf(name), b, e)
                        && Split(r.text) == Split(md)[..b + 1] + ([""] + Split(body) + [""]) + Split(md)[e..]
    ensures r.Err? <==> forall b, e :: !IsRegion(Split(md), MarksOf(name), b, e)
    ensures r == Err(MissingBegin(name)) <==> Unopened(Split(md), name)
    ensures r.Err? ==> r.error == MissingBegin(name) || r.error == MissingEnd(name)
  {
    var lines := Split(md);
    var found := FindRegion(lines, name);
    if found.BeginMissing? { return Err(MissingBegin(name)); }
    if found.EndMissing? { return Err(MissingEnd(name)); }
    var b, e := found.begin, found.end;
    var rebuilt := lines[..b + 1] + ["", body, ""] + lines[e..];
    RebuiltLines(lines, b, e, body, md);
    r := Ok(Join(rebuilt));
    assert IsRegion(lines, MarksOf(name), b, e) && Split(r.text) == Replaced(lines, b, e, Fill(body));
    assert IsBegin(name, lines[b]) by { assert MarksOf(name).begin(lines[b]); }
  }

  // The rebuilt text, read as lines again, has the body's own lines between the markers.
  lemma RebuiltLines(lines: seq<string>, b: nat, e: nat, body: string, md: string)
    requires lines == Split(md) && b < e < |lines|
    ensures Split(Join(lines[..b + 1] + ["", body, ""] + lines[e..])) == Replaced(lines, b, e, Fill(body))
  {
    SplitNewlineFree(md);
    var head, tail := lines[..b + 1], lines[e..];
    SplitJoin(head);
    SplitJoin(tail);
    FillText(body);
    SplitJoin3(head, ["", body, ""], tail);
  }

  lemma FillText(body: string)
    ensures Split(Join(["", body, ""])) == Fill(body)
  {
    var mid := ["", body, ""];
    assert mid[1..] == [body, ""] && mid[1..][1..] == [""];
    assert Join([body, ""]) == body + "\n" + Join([""]);
    assert Join(mid) == "" + "\n" + (body + "\n" + "");
    SplitConcat("", body + "\n" + "");
    SplitConcat(body, "");
    assert Split("") == [""];
  }

  lemma SplitJoin3(a: seq<string>, b: seq<string>, c: seq<string>)
    requires |a| > 0 && |b| > 0 && |c| > 0
    ensures Split(Join(a + b + c)) == Split(Join(a)) + Split(Join(b)) + Split(Join(c))
  {
    JoinConcat(a + b, c);
    SplitConcat(Join(a + b), Join(c));
    JoinConcat(a, b);
    SplitConcat(Join(a), Join(b));
  }

  // -------------------------------------------------------------------- Render

  function IndexFill(doc: Doc): seq<string> {
    Fill(Body(IndexLines(doc.scopes)))
  }

  function TablesFill(doc: Doc): seq<string> {
    Fill(TablesBody(doc))
  }

  // Rendering as a relation on lines: refill the one region, then the other.
  ghost predicate Renders(doc: Doc, lines: seq<string>, out: seq<string>) {
    && Orphans(doc.scopes, doc.invariants) == []
    && Refills(lines, MarksOf(SCOPE_INDEX), IndexFill(doc), MarksOf(INVARIANT_TABLES), TablesFill(doc), out)
  }

  // The same with the positions of the regions: in the document, and once the first one
  // has been refilled.
  ghost predicate RendersAt(doc: Doc, lines: seq<string>, b: nat, e: nat, c: nat, f: nat, out: seq<string>) {
    && Orphans(doc.scopes, doc.invariants) == []
    && RefillsAt(lines, MarksOf(SCOPE_INDEX), IndexFill(doc), MarksOf(INVARIANT_TABLES), TablesFill(doc),
                 b, e, c, f, out)
  }

  lemma RendersUnique(doc: Doc, lines: seq<string>, out: seq<string>, other: seq<string>)
    ensures Renders(doc, lines, out) && Renders(doc, lines, other) ==> out == other
  {
    RefillsUnique(lines, MarksOf(SCOPE_INDEX), IndexFill(doc), MarksOf(INVARIANT_TABLES), TablesFill(doc), out, other);
  }

  method Render(doc: Doc, md: string) returns (r: Result)
    ensures r.Ok? ==> Renders(doc, Split(md), Split(r.text))
    ensures r.Err? ==> forall out :: !Renders(doc, Split(md), out)
    ensures r.Err? && r.error.UndeclaredScope? ==> r.error.orphans == Orphans(doc.scopes, doc.invariants) != []
    ensures r == Err(MissingBegin("scope-index")) <==> Unopened(Split(md), "scope-index")
    ensures r.Err? && r.error in {MissingBegin("scope-index"), MissingEnd("scope-index")}
       <==> forall b, e :: !IsRegion(Split(md), MarksOf("scope-index"), b, e)
    ensures r.Err? && r.error.UndeclaredScope?
       <==> && Orphans(doc.scopes, doc.invariants) != []
            && exists b, e :: IsRegion(Split(md), MarksOf("scope-index"), b, e)
    ensures r.Err? ==> r.error.UndeclaredScope? || r.error.name in {"scope-index", "invariant-tables"}
  {
    ghost var lines, m, n := Split(md), MarksOf(SCOPE_INDEX), MarksOf(INVARIANT_TABLES);
    var index := RenderScopeIndex(doc.scopes);
    var first := ReplaceRegion(md, SCOPE_INDEX, index);
    if first.Err? { return first; }
    ghost var b, e :| IsRegion(lines, m, b, e) && Split(first.text) == Replaced(lines, b, e, Fill(index));
    var tables := RenderInvariantTables(doc);
    if tables.Undeclared? { return Err(UndeclaredScope(tables.orphans)); }
    r := ReplaceRegion(first.text, INVARIANT_TABLES, tables.text);
    if r.Ok? {
      ghost var c, f :| IsRegion(Split(first.text), n, c, f)
                     && Split(r.text) == Replaced(Split(first.text), c, f, Fill(tables.text));
      assert RefillsAt(lines, m, IndexFill(doc), n, TablesFill(doc), b, e, c, f, Split(r.text));
    } else {
      forall b', e', c, f, out ensures !RefillsAt(lines, m, IndexFill(doc), n, TablesFill(doc), b', e', c, f, out) {
        if RefillsAt(lines, m, IndexFill(doc), n, TablesFill(doc), b', e', c, f, out) {
          RegionUnique(lines, m, b, e, b', e');
        }
      }
    }
  }

  /** The -check mode: the document on disk is what rendering it would write. */
  method Check(doc: Doc, md: string) returns (current: bool)
    ensures current <==> Renders(doc, Split(md), Split(md))
  {
    var r := Render(doc, md);
    if r.Err? { return false; }
    JoinSplit(md);
    JoinSplit(r.text);
    if Renders(doc, Split(md), Split(md)) {
      RendersUnique(doc, Split(md), Split(md), Split(r.text));
    }
    return r.text == md;
  }

  // --------------------------------------------------------------- idempotence

  // No generated line is a marker of either region.
  ghost predicate MarkerFree(doc: Doc) {
    && Harmless(IndexFill(doc), MarksOf(SCOPE_INDEX)) && Harmless(IndexFill(doc), MarksOf(INVARIANT_TABLES))
    && Harmless(TablesFill(doc), MarksOf(SCOPE_INDEX)) && Harmless(TablesFill(doc), MarksOf(INVARIANT_TABLES))
  }

  /** Names and ids without a newline keep the generated lines clear of every marker. */
  lemma OneLineNamesAreMarkerFree(doc: Doc)
    requires OneLineNames(doc)
    ensures MarkerFree(doc)
  {
    BodiesAreTableLines(doc);
    FillIsHarmless(SCOPE_INDEX, Body(IndexLines(doc.scopes)));
    FillIsHarmless(INVARIANT_TABLES, Body(IndexLines(doc.scopes)));
    FillIsHarmless(SCOPE_INDEX, TablesBody(doc));
    FillIsHarmless(INVARIANT_TABLES, TablesBody(doc));
  }

  lemma RegionsApart()
    ensures Apart(MarksOf(SCOPE_INDEX), MarksOf(INVARIANT_TABLES))
  {
    assert SCOPE_INDEX[0] == 's' && INVARIANT_TABLES[0] == 'i';
    MarkersApart(SCOPE_INDEX, INVARIANT_TABLES);
  }

  /** For every document and every registry, whatever its names and ids hold: the rendered
      document renders to itself exactly when the generated lines settle.
   */
  lemma RenderAgainIff(doc: Doc, lines: seq<string>, b: nat, e: nat, c: nat, f: nat, out: seq<string>)
    ensures RendersAt(doc, lines, b, e, c, f, out) ==>
              (Renders(doc, out, out)
               <==> Settles(lines, MarksOf(SCOPE_INDEX), IndexFill(doc), MarksOf(INVARIANT_TABLES), TablesFill(doc), b,
                            e, c, f))
  {
    if RendersAt(doc, lines, b, e, c, f, out) {
      RegionsApart();
      RefillAgainIff(lines, MarksOf(SCOPE_INDEX), IndexFill(doc), MarksOf(INVARIANT_TABLES), TablesFill(doc),
                     b, e, c, f, out);
    }
  }

  /** When no generated line is a marker, it does so exactly when the tables region does
      not begin in front of the scope index, or an up-to-date scope index follows it:
      if the tables region encloses the scope index, that has to be another one.
   */
  lemma RenderIdempotentIff(doc: Doc, lines: seq<string>, b: nat, e: nat, c: nat, f: nat, out: seq<string>)
    ensures MarkerFree(doc) && RendersAt(doc, lines, b, e, c, f, out) ==>
              (Renders(doc, out, out)
               <==> (c < b ==>
                       Current(Replaced(lines, b, e, IndexFill(doc))[f..], MarksOf(SCOPE_INDEX), IndexFill(doc))))
  {
    RenderAgainIff(doc, lines, b, e, c, f, out);
    if MarkerFree(doc) && RendersAt(doc, lines, b, e, c, f, out) {
      RegionsApart();
      HarmlessSettlesIff(lines, MarksOf(SCOPE_INDEX), IndexFill(doc), MarksOf(INVARIANT_TABLES), TablesFill(doc), b, e,
                         c, f);
    }
  }

  // The two regions of a document lie apart.
  ghost predicate DisjointRegions(lines: seq<string>, b: nat, e: nat, c: nat, f: nat) {
    && IsRegion(lines, MarksOf(SCOPE_INDEX), b, e) && IsRegion(lines, MarksOf(INVARIANT_TABLES), c, f)
    && (e < c || f < b)
  }

  /** The scope index in front of the tables: what comes out for any registry, and exactly
      when it renders to itself, which depends on the registry alone.
   */
  lemma IndexFirstRender(doc: Doc, lines: seq<string>, b: nat, e: nat, c: nat, f: nat)
    ensures Orphans(doc.scopes, doc.invariants) == [] && DisjointRegions(lines, b, e, c, f) && e < c ==>
              var x, y := IndexFill(doc), TablesFill(doc);
              var out := FrontRefilled(lines, x, MarksOf(INVARIANT_TABLES), y, b, e, c, f);
              && Renders(doc, lines, out)
              && (Renders(doc, out, out) <==> SettlesFront(MarksOf(SCOPE_INDEX), x, MarksOf(INVARIANT_TABLES), y))
  {
    if Orphans(doc.scopes, doc.invariants) == [] && DisjointRegions(lines, b, e, c, f) && e < c {
      RegionsApart();
      FrontRefillIff(lines, MarksOf(SCOPE_INDEX), IndexFill(doc), MarksOf(INVARIANT_TABLES), TablesFill(doc), b, e, c,
                     f);
    }
  }

  /** The tables in front of the scope index: every line outside of the regions stays. */
  lemma TablesFirstRender(doc: Doc, lines: seq<string>, b: nat, e: nat, c: nat, f: nat)
    ensures Orphans(doc.scopes, doc.invariants) == [] && DisjointRegions(lines, b, e, c, f) && f < b ==>
              var x, y := IndexFill(doc), TablesFill(doc);
              var out := InOrder(lines, y, x, c, f, b, e);
              && Renders(doc, lines, out)
              && (Renders(doc, out, out)
                  <==> SettlesBack(MarksOf(SCOPE_INDEX), x, MarksOf(INVARIANT_TABLES), y,
                                   lines[f..b + 1] + (x + lines[e..])))
  {
    if Orphans(doc.scopes, doc.invariants) == [] && DisjointRegions(lines, b, e, c, f) && f < b {
      RegionsApart();
      BackRefillIff(lines, MarksOf(SCOPE_INDEX), IndexFill(doc), MarksOf(INVARIANT_TABLES), TablesFill(doc), b, e, c,
                    f);
    }
  }

  /** With disjoint regions and names and ids without a newline, rendering succeeds, leaves
      every line outside of the regions as it was, and is idempotent.
   */
  lemma DisjointRender(doc: Doc, lines: seq<string>, b: nat, e: nat, c: nat, f: nat)
    requires OneLineNames(doc) && Orphans(doc.scopes, doc.invariants) == [] && DisjointRegions(lines, b, e, c, f)
    ensures Renders(doc, lines, Refilled(lines, IndexFill(doc), TablesFill(doc), b, e, c, f))
    ensures Renders(doc, Refilled(lines, IndexFill(doc), TablesFill(doc), b, e, c, f),
                         Refilled(lines, IndexFill(doc), TablesFill(doc), b, e, c, f))
  {
    OneLineNamesAreMarkerFree(doc);
    IndexFirstRender(doc, lines, b, e, c, f);
    TablesFirstRender(doc, lines, b, e, c, f);
    if f < b { BackCurrentIff(lines, MarksOf(SCOPE_INDEX), IndexFill(doc), b, e, f); }
  }

  // ------------------------------------------------------- a name with a marker in it

  // A registry with one scope, whose name has the line l between two others.
  predicate MarkedName(doc: Doc, a: string, l: string, z: string) {
    && doc.invariants == [] && |doc.scopes| == 1 && doc.scopes[0].name == a + "\n" + l + "\n" + z
    && NewlineFree(a) && NewlineFree(l) && NewlineFree(z) && PlainStart(z)
  }

  /** Idempotence needs that: with a scope name that holds the END marker of the scope
      index, rendering any document with disjoint regions succeeds, and its result never
      renders to itself.
   */
  lemma MarkedNameNeverSettles(doc: Doc, a: string, z: string, lines: seq<string>, b: nat, e: nat, c: nat, f: nat)
    requires MarkedName(doc, a, EndLine(SCOPE_INDEX), z) && DisjointRegions(lines, b, e, c, f)
    ensures var out := Refilled(lines, IndexFill(doc), TablesFill(doc), b, e, c, f);
            Renders(doc, lines, out) && !Renders(doc, out, out)
  {
    RegionsApart();
    MarkerLines(SCOPE_INDEX);
    assert MarksOf(SCOPE_INDEX).end(EndLine(SCOPE_INDEX));
    MarkedIndex(doc, a, EndLine(SCOPE_INDEX), z);
    NoEntriesMarkNothing(doc);
    IndexFirstRender(doc, lines, b, e, c, f);
    TablesFirstRender(doc, lines, b, e, c, f);
    if f < b { BackCurrentIff(lines, MarksOf(SCOPE_INDEX), IndexFill(doc), b, e, f); }
  }

  /** A scope name that holds the BEGIN marker of the tables: the tables then begin inside
      the scope index and take along everything up to the next END marker of theirs, the
      prose between the two regions and the END marker of the scope index included. The
      result does not render to itself.
   */
  lemma OpeningNameSwallows(doc: Doc, a: string, z: string, lines: seq<string>, b: nat, e: nat, c: nat, f: nat)
    requires MarkedName(doc, a, BeginLine(INVARIANT_TABLES), z) && DisjointRegions(lines, b, e, c, f) && e < c
    ensures var out := (lines[..b + 1] + ([""] + TopLinesOf(a) + [BeginLine(INVARIANT_TABLES)]))
                       + (TablesFill(doc) + AtEnd(lines[e..], MarksOf(INVARIANT_TABLES)));
            Renders(doc, lines, out) && !Renders(doc, out, out)
  {
    var l, m, n := BeginLine(INVARIANT_TABLES), MarksOf(SCOPE_INDEX), MarksOf(INVARIANT_TABLES);
    RegionsApart();
    MarkerLines(INVARIANT_TABLES);
    assert n.begin(l);
    MarkedIndex(doc, a, l, z);
    NoEntriesMarkNothing(doc);
    IndexFirstRender(doc, lines, b, e, c, f);
    var before, after := [""] + TopLinesOf(a), [z + NameTail(doc.scopes[0]), ""];
    OneOpening(lines, m, before, l, after, n, TablesFill(doc), b, e, c, f);
  }

  lemma MappedOne<T>(f: T -> string, t: T)
    ensures Mapped(f, [t]) == [f(t)]
  {
    assert [t][..0] == [];
    assert Mapped(f, [t][..0]) == [];
  }

  lemma IndexOfOne(s: Scope)
    ensures Body(IndexLines([s])) == Unlines(IndexTop()) + ScopeRow(s)
  {
    var top, row := IndexTop(), ScopeRow(s);
    MappedOne(ScopeRow, s);
    UnlinesPush(top, row);
    var text := Unlines(top) + row;
    assert row[|row| - 1] == '|';
    TrimEnd(text);
  }

  // What follows the name in its row.
  function NameTail(s: Scope): string {
    "` | " + Cell(s.description) + " | " + Cell(s.boundary) + " |"
  }

  lemma TailIsPlain(s: Scope, z: string)
    requires NewlineFree(z) && PlainStart(z)
    ensures NewlineFree(z + NameTail(s)) && PlainStart(z + NameTail(s))
  {
    CellNewlineFree(s.description);
    CellNewlineFree(s.boundary);
  }

  lemma RowOfThree(s: Scope, a: string, l: string, z: string)
    requires s.name == a + "\n" + l + "\n" + z
    ensures ScopeRow(s) == ("| `" + a) + ("\n" + (l + "\n" + (z + NameTail(s))))
  {
    var head, tail := "| `", NameTail(s);
    assert ScopeRow(s) == head + s.name + tail;
    var rest := l + "\n" + z;
    assert s.name == a + ("\n" + rest);
    Regroup(head, a, "\n" + rest);
    Regroup(head + a, "\n" + rest, tail);
    assert ("\n" + rest) + tail == "\n" + (l + "\n" + (z + tail));
  }

  lemma SplitThree(a: string, l: string, z: string)
    requires NewlineFree(l) && NewlineFree(z)
    ensures Split(a + ("\n" + (l + "\n" + z))) == Split(a) + [l] + [z]
  {
    Regroup(a, "\n", l + "\n" + z);
    SplitConcat(a, l + "\n" + z);
    SplitCons(l, z);
    SplitJoin([z]);
    Regroup(Split(a), [l], [z]);
  }

  lemma FillOfThree(body: string, top: seq<string>, l: string, tail: string)
    requires Split(body) == top + [l] + [tail]
    ensures Fill(body) == ([""] + top) + [l] + [tail, ""]
  {
  }

  // The lines in front of the marker.
  function TopLinesOf(a: string): seq<string> {
    IndexTop() + ["| `" + a]
  }

  lemma TopOfIndex(a: string)
    requires NewlineFree(a)
    ensures var top := TopLinesOf(a);
            && Join(top) == Unlines(IndexTop()) + ("| `" + a) && Split(Join(top)) == top
            && forall l :: l in top ==> PlainStart(l)
  {
    var last := "| `" + a;
    assert TableLine(last);
    JoinConcat(IndexTop(), [last]);
    assert Join([last]) == last;
    UnlinesIsJoin(IndexTop());
    IndexTopLines();
    PlainTop(IndexTop(), last);
    SplitJoin(TopLinesOf(a));
  }

  lemma PlainTop(top: seq<string>, last: string)
    requires TableLine(last) && forall l :: l in top ==> TableLine(l)
    ensures forall l :: l in top + [last] ==> PlainStart(l)
    ensures forall i :: 0 <= i < |top + [last]| ==> NewlineFree((top + [last])[i])
  {
    forall i | 0 <= i < |top + [last]| ensures NewlineFree((top + [last])[i]) {
      assert (top + [last])[i] in top + [last];
    }
  }

  // The generated scope index: plain lines, the marker, and plain lines.
  lemma NameOfThree(s: Scope, a: string, l: string, z: string)
    requires s.name == a + "\n" + l + "\n" + z && NewlineFree(a) && NewlineFree(l) && NewlineFree(z + NameTail(s))
    ensures Fill(Body(IndexLines([s]))) == ([""] + TopLinesOf(a)) + [l] + [z + NameTail(s), ""]
  {
    var top, tail := TopLinesOf(a), z + NameTail(s);
    TopOfIndex(a);
    IndexOfOne(s);
    RowOfThree(s, a, l, z);
    Regroup(Unlines(IndexTop()), "| `" + a, "\n" + (l + "\n" + tail));
    SplitThree(Join(top), l, tail);
    FillOfThree(Body(IndexLines([s])), top, l, tail);
  }

  // The generated scope index, line by line, marks nothing but what l marks.
  lemma MarkedIndex(doc: Doc, a: string, l: string, z: string)
    requires MarkedName(doc, a, l, z)
    ensures var before, after := [""] + TopLinesOf(a), [z + NameTail(doc.scopes[0]), ""];
            && IndexFill(doc) == before + [l] + after
            && forall name :: Harmless(before, MarksOf(name)) && Harmless(after, MarksOf(name))
                && (NoBegin(IndexFill(doc), MarksOf(name)) <==> !IsBegin(name, l))
                && (NoEnd(IndexFill(doc), MarksOf(name)) <==> !IsEnd(name, l))
  {
    var s := doc.scopes[0];
    var before, after := [""] + TopLinesOf(a), [z + NameTail(s), ""];
    assert doc.scopes == [s];
    TopOfIndex(a);
    TailIsPlain(s, z);
    NameOfThree(s, a, l, z);
    forall name
      ensures Harmless(before, MarksOf(name)) && Harmless(after, MarksOf(name))
      ensures NoBegin(IndexFill(doc), MarksOf(name)) <==> !IsBegin(name, l)
      ensures NoEnd(IndexFill(doc), MarksOf(name)) <==> !IsEnd(name, l)
    {
      PlainIsHarmless(name, before);
      PlainIsHarmless(name, after);
      MarksOfOne(name, before, l, after);
    }
  }

  lemma PlainIsHarmless(name: string, ls: seq<string>)
    requires forall l :: l in ls ==> PlainStart(l)
    ensures Harmless(ls, MarksOf(name))
  {
    var m := MarksOf(name);
    forall i | 0 <= i < |ls| ensures !m.begin(ls[i]) && !m.end(ls[i]) {
      assert ls[i] in ls;
      PlainIsNoMarker(name, ls[i]);
    }
  }

  lemma MarksOfOne(name: string, before: seq<string>, l: string, after: seq<string>)
    requires Harmless(before, MarksOf(name)) && Harmless(after, MarksOf(name))
    ensures NoBegin(before + [l] + after, MarksOf(name)) <==> !IsBegin(name, l)
    ensures NoEnd(before + [l] + after, MarksOf(name)) <==> !IsEnd(name, l)
  {
    var m := MarksOf(name);
    NoBeginConcat(before, [l], m);
    NoBeginConcat(before + [l], after, m);
    NoEndConcat(before, [l], m);
    NoEndConcat(before + [l], after, m);
    assert m.begin([l][0]) <==> IsBegin(name, l);
    assert m.end([l][0]) <==> IsEnd(name, l);
  }

  lemma NoEntriesMarkNothing(doc: Doc)
    requires doc.invariants == []
    ensures forall name :: Harmless(TablesFill(doc), MarksOf(name))
    ensures Orphans(doc.scopes, doc.invariants) == []
  {
    NothingToShow(doc.scopes);
    PlaceholderIsTableLine();
    SplitJoin([Placeholder()]);
    forall name ensures Harmless(TablesFill(doc), MarksOf(name)) { FillIsHarmless(name, Placeholder()); }
  }

  // ------------------------------------------------------------- nested regions

  function BeginLine(name: string): string {
    "<!-- BEGIN GENERATED: " + name + " -->"
  }

  function EndLine(name: string): string {
    "<!-- END GENERATED: " + name + " -->"
  }

  lemma MarkerLines(name: string)
    ensures IsBegin(name, BeginLine(name)) && IsEnd(name, EndLine(name))
  {
    var b, e := BeginLine(name), EndLine(name);
    assert b[0] == '<' && b[|b| - 1] == '>' && e[0] == '<' && e[|e| - 1] == '>';
    assert TrimSpace(b) == b && TrimSpace(e) == e;
    assert "<!-- BEGIN GENERATED: " + name <= b;
  }

  /** Nested regions: the first render succeeds, and its result cannot be rendered. */
  lemma NestedRendersOnce(doc: Doc, out: seq<string>)
    requires OneLineNames(doc) && Orphans(doc.scopes, doc.invariants) == []
    ensures var lines := [BeginLine(INVARIANT_TABLES), BeginLine(SCOPE_INDEX),
                          EndLine(SCOPE_INDEX), EndLine(INVARIANT_TABLES)];
            var once := [BeginLine(INVARIANT_TABLES)] + TablesFill(doc) + [EndLine(INVARIANT_TABLES)];
            Renders(doc, lines, once) && !Renders(doc, once, out)
  {
    var m, n := MarksOf(SCOPE_INDEX), MarksOf(INVARIANT_TABLES);
    var x, y := IndexFill(doc), TablesFill(doc);
    OneLineNamesAreMarkerFree(doc);
    RegionsApart();
    MarkerLines(SCOPE_INDEX);
    MarkerLines(INVARIANT_TABLES);
    NestedRefill(m, x, n, y, BeginLine(INVARIANT_TABLES), BeginLine(SCOPE_INDEX), EndLine(SCOPE_INDEX),
                 EndLine(INVARIANT_TABLES), out);
  }
}
