/** A generated row, read back by its columns: cells cannot break out of their column. */
module TableColumns {
  import opened CommandWords
  import opened TextRuns
  import opened TextLines
  import opened TableCells
  import opened InvariantTables

  // A table row cut at its unescaped pipes.
  function Columns(s: string): (cs: seq<string>)
    ensures |cs| > 0
  {
    if s == "" then [""]
    else
      var n := |s| - 1;
      var cs := Columns(s[..n]);
      if s[n] == '|' && (n == 0 || s[n - 1] != '\\') then cs + [""] else Lengthened(cs, [s[n]])
  }

  function Lengthened(cs: seq<string>, t: string): (ds: seq<string>)
    requires |cs| > 0
    ensures |ds| == |cs|
  {
    cs[..|cs| - 1] + [cs[|cs| - 1] + t]
  }

  lemma LengthenedTwice(cs: seq<string>, t: string, u: string)
    requires |cs| > 0
    ensures Lengthened(Lengthened(cs, t), u) == Lengthened(cs, t + u)
  {
    var last := cs[|cs| - 1];
    assert (last + t) + u == last + (t + u);
  }

  lemma LengthenedByNothing(cs: seq<string>)
    requires |cs| > 0
    ensures Lengthened(cs, "") == cs
  {
    assert cs[|cs| - 1] + "" == cs[|cs| - 1];
  }

  // Cells between pipes, with a space on either side of each.
  function Piped(cells: seq<string>): string {
    if |cells| == 0 then "|" else Piped(cells[..|cells| - 1]) + (" " + cells[|cells| - 1] + " ") + "|"
  }

  function Padded(cells: seq<string>): seq<string> {
    if |cells| == 0 then [] else Padded(cells[..|cells| - 1]) + [" " + cells[|cells| - 1] + " "]
  }

  // Escaped text lengthens the last column.
  lemma {:induction false} ColumnsText(a: string, t: string)
    requires Escaped(t)
    ensures Columns(a + t) == Lengthened(Columns(a), t)
    decreases |t|
  {
    if t == "" {
      assert a + t == a;
      LengthenedByNothing(Columns(a));
    } else {
      var n := |t| - 1;
      var front := t[..n];
      ColumnsText(a, front);
      LengthenedTwice(Columns(a), front, [t[n]]);
      assert front + [t[n]] == t;
      var whole := a + t;
      assert whole[..|a| + n] == a + front && whole[|a| + n] == t[n];
      assert t[n] == '|' ==> whole[|a| + n - 1] == t[n - 1];
    }
  }

  lemma ColumnsPipe(a: string)
    requires a == "" || a[|a| - 1] != '\\'
    ensures Columns(a + "|") == Columns(a) + [""]
  {
    var s := a + "|";
    assert s[..|a|] == a && s[|a|] == '|';
    assert a != "" ==> s[|a| - 1] == a[|a| - 1];
  }

  lemma PadEscaped(c: string)
    requires Escaped(c)
    ensures Escaped(" " + c + " ")
  {
  }

  /** A row of escaped cells, cut at its pipes, yields the cells. */
  lemma {:induction false} PipedColumns(cells: seq<string>)
    requires forall i :: 0 <= i < |cells| ==> Escaped(cells[i])
    ensures Columns(Piped(cells)) == [""] + Padded(cells) + [""]
    decreases |cells|
  {
    if |cells| == 0 {
      ColumnsPipe("");
      assert "" + "|" == "|";
      assert Columns("|") == [""] + [""];
    } else {
      var front, c := cells[..|cells| - 1], cells[|cells| - 1];
      PipedColumns(front);
      PadEscaped(c);
      var pad := " " + c + " ";
      ColumnsText(Piped(front), pad);
      var head := [""] + Padded(front);
      assert Lengthened(head + [""], pad) == head + [pad] by {
        assert (head + [""])[..|head|] == head && "" + pad == pad;
      }
      ColumnsPipe(Piped(front) + pad);
      assert head + [pad] == [""] + Padded(cells);
    }
  }

  // ---------------------------------------------------- cells that break their row

  lemma {:induction false} ColumnsGrow(a: string, t: string)
    ensures |Columns(a + t)| >= |Columns(a)|
    decreases |t|
  {
    if t == "" {
      assert a + t == a;
    } else {
      var n := |t| - 1;
      ColumnsGrow(a, t[..n]);
      assert (a + t)[..|a| + n] == a + t[..n];
    }
  }

  lemma BreakAdds(a: string, t: string, i: nat)
    requires 0 < i < |t| && t[i] == '|' && t[i - 1] != '\\'
    ensures |Columns(a + t)| > |Columns(a)|
  {
    ColumnsGrow(a, t[..i]);
    var upTo := a + t[..i];
    assert upTo[|upTo| - 1] == t[i - 1];
    ColumnsPipe(upTo);
    ColumnsGrow(upTo + "|", t[i + 1..]);
    CutAt(t, i);
    Regroup(a, t[..i], "|");
    Regroup(a, t[..i] + "|", t[i + 1..]);
  }

  lemma PadBreaks(a: string, c: string)
    requires !Escaped(c)
    ensures |Columns(a + (" " + c + " "))| > |Columns(a)|
  {
    var i :| 0 <= i < |c| && c[i] == '|' && (i == 0 || c[i - 1] != '\\');
    var pad := " " + c + " ";
    assert pad[i + 1] == c[i] && (i > 0 ==> pad[i] == c[i - 1]);
    BreakAdds(a, pad, i + 1);
  }

  lemma {:induction false} PipedAtLeast(cells: seq<string>)
    ensures |Columns(Piped(cells))| >= |cells| + 2
    ensures (exists i :: 0 <= i < |cells| && !Escaped(cells[i])) ==> |Columns(Piped(cells))| > |cells| + 2
    decreases |cells|
  {
    if |cells| == 0 {
      ColumnsPipe("");
      assert "" + "|" == "|";
    } else {
      var front, c := cells[..|cells| - 1], cells[|cells| - 1];
      var pad := " " + c + " ";
      PipedAtLeast(front);
      ColumnsGrow(Piped(front), pad);
      ColumnsPipe(Piped(front) + pad);
      if !Escaped(c) { PadBreaks(Piped(front), c); }
      forall i | 0 <= i < |front| && !Escaped(cells[i]) ensures !Escaped(front[i]) {}
    }
  }

  lemma {:induction false} PaddedSize(cells: seq<string>)
    ensures |Padded(cells)| == |cells|
  {
    if |cells| > 0 { PaddedSize(cells[..|cells| - 1]); }
  }

  /** A row shows its cells, one to a column, exactly when every cell is escaped. */
  lemma PipedColumnsIff(cells: seq<string>)
    ensures Columns(Piped(cells)) == [""] + Padded(cells) + [""]
       <==> forall i :: 0 <= i < |cells| ==> Escaped(cells[i])
  {
    if forall i :: 0 <= i < |cells| ==> Escaped(cells[i]) { PipedColumns(cells); }
    PipedAtLeast(cells);
    PaddedSize(cells);
  }

  // -------------------------------------------------------------- cells escape

  lemma Backticked(s: string)
    ensures Escaped("`" + s + "`") <==> Escaped(s)
  {
    var t := "`" + s + "`";
    assert forall i :: 0 <= i < |s| ==> t[i + 1] == s[i];
    if !Escaped(s) {
      var i :| 0 <= i < |s| && s[i] == '|' && (i == 0 || s[i - 1] != '\\');
      assert t[i + 1] == '|' && t[i] != '\\';
    }
  }

  lemma LegacyEscaped(legacy: seq<string>)
    ensures Escaped(LegacyCell(legacy))
  {
    forall i | 0 <= i < |legacy| ensures Escaped(LegacyTokens(legacy)[i]) {
      CellEscaped(Token(legacy[i]));
      Backticked(Cell(Token(legacy[i])));
    }
    JoinWithEscaped(LegacyTokens(legacy), ", ");
  }

  // ---------------------------------------------------------------------- rows

  function Cells(e: Entry): seq<string> {
    ["`" + e.id + "`", Cell(e.summary), LegacyCell(e.legacy), Cell(BindingOrDash(e.binding))]
  }

  lemma FourPiped(a: string, b: string, c: string, d: string)
    ensures Piped([a, b, c, d]) == "| " + a + " | " + b + " | " + c + " | " + d + " |"
  {
    assert [a, b, c, d][..3] == [a, b, c];
    ThreePiped(a, b, c);
  }

  // The legacy id up to its first '@', all of it without one.
  predicate UpToAt(legacy: string, token: string) {
    token <= legacy && '@' !in token && (token == legacy || legacy[|token|] == '@')
  }

  lemma {:induction false} TokenIff(legacy: string, token: string)
    ensures UpToAt(legacy, token) <==> token == Token(legacy)
  {
    if legacy == "" {
    } else if legacy[0] == '@' {
      assert token != "" && token <= legacy ==> token[0] == '@';
    } else {
      assert legacy == [legacy[0]] + legacy[1..];
      if token == "" {
      } else {
        TokenIff(legacy[1..], token[1..]);
        assert token == [token[0]] + token[1..];
        assert |token| < |legacy| ==> legacy[|token|] == legacy[1..][|token| - 1];
      }
    }
  }

  function Ticked(tokens: seq<string>): seq<string> {
    seq(|tokens|, i requires 0 <= i < |tokens| => "`" + tokens[i] + "`")
  }

  // An em dash, or one token in backticks for each legacy id.
  ghost predicate ShowsLegacy(cell: string, tokens: seq<string>, legacy: seq<string>) {
    if legacy == [] then cell == "\U{2014}"
    else
      && |tokens| == |legacy| && cell == JoinWith(Ticked(tokens), ", ")
      && forall i, t :: 0 <= i < |legacy| && UpToAt(legacy[i], t) ==> Shows(tokens[i], t)
  }

  lemma LegacyShows(legacy: seq<string>) returns (tokens: seq<string>)
    ensures ShowsLegacy(LegacyCell(legacy), tokens, legacy)
  {
    tokens := seq(|legacy|, i requires 0 <= i < |legacy| => Cell(Token(legacy[i])));
    assert Ticked(tokens) == LegacyTokens(legacy);
    forall i, t | 0 <= i < |legacy| && UpToAt(legacy[i], t) ensures Shows(tokens[i], t) {
      TokenIff(legacy[i], t);
      CellShows(t);
    }
  }

  // An em dash exactly when there is nothing but white space.
  ghost predicate ShowsBinding(cell: string, binding: string) {
    if AllGap(IsSpace, binding) then cell == "\U{2014}" else Shows(cell, binding)
  }

  lemma BindingShows(binding: string)
    ensures ShowsBinding(Cell(BindingOrDash(binding)), binding)
  {
    CellShows(binding);
    var a, b := TrimSpaceTrims(binding);
    var r := TrimSpace(binding);
    if r != "" { assert binding[|a|] == r[0]; }
    DashIsItself("\U{2014}");
  }

  lemma DashIsItself(dash: string)
    requires |dash| == 1 && !IsSpace(dash[0]) && dash[0] != '|'
    ensures Cell(dash) == dash
  {
    assert dash[1..] == "" && dash == [dash[0]];
    assert EscapePipes(dash[1..]) == "";
    assert EscapePipes(dash) == dash;
    assert dash + "" == dash;
    RunThenRest(IsSpace, dash, "");
  }

  /** A row of the tables, cut at its unescaped pipes, has the id, and cells that show the
      entry's own summary, legacy ids and binding, whatever these are: exactly when the
      id, which is written as it is, has no unescaped pipe.
   */
  lemma RowColumnsIff(e: Entry) returns (summary: string, legacy: string, tokens: seq<string>, binding: string)
    ensures Columns(Row(e))
         == ["", " `" + e.id + "` ", " " + summary + " ", " " + legacy + " ", " " + binding + " ", ""]
       <==> Escaped(e.id)
    ensures Shows(summary, e.summary) && ShowsLegacy(legacy, tokens, e.legacy) && ShowsBinding(binding, e.binding)
  {
    summary, legacy, binding := Cell(e.summary), LegacyCell(e.legacy), Cell(BindingOrDash(e.binding));
    CellShows(e.summary);
    tokens := LegacyShows(e.legacy);
    BindingShows(e.binding);
    RowCells(e);
    FourPadded("`" + e.id + "`", summary, legacy, binding);
    assert " " + ("`" + e.id + "`") + " " == " `" + e.id + "` ";
  }

  lemma FourPadded(a: string, b: string, c: string, d: string)
    ensures [""] + Padded([a, b, c, d]) + [""]
         == ["", " " + a + " ", " " + b + " ", " " + c + " ", " " + d + " ", ""]
  {
    ThreePadded(a, b, c);
    assert [a, b, c, d][..3] == [a, b, c];
  }

  lemma ThreePadded(a: string, b: string, c: string)
    ensures Padded([a, b, c]) == [" " + a + " ", " " + b + " ", " " + c + " "]
  {
    assert [a, b, c][..2] == [a, b] && [a, b][..1] == [a] && [a][..0] == [];
    assert Padded([a]) == [" " + a + " "];
    assert Padded([a, b]) == [" " + a + " ", " " + b + " "];
  }

  lemma RowCells(e: Entry)
    ensures Columns(Row(e)) == [""] + Padded(Cells(e)) + [""] <==> Escaped(e.id)
  {
    Backticked(e.id);
    CellEscaped(e.summary);
    LegacyEscaped(e.legacy);
    CellEscaped(BindingOrDash(e.binding));
    PipedColumnsIff(Cells(e));
    RowIsPiped(e);
    assert Cells(e)[0] == "`" + e.id + "`";
  }

  function ScopeCells(s: Scope): seq<string> {
    ["`" + s.name + "`", Cell(s.description), Cell(s.boundary)]
  }

  // The same for the scope index and the scope's name.
  lemma ScopeRowColumnsIff(s: Scope) returns (description: string, boundary: string)
    ensures Columns(ScopeRow(s)) == ["", " `" + s.name + "` ", " " + description + " ", " " + boundary + " ", ""]
       <==> Escaped(s.name)
    ensures Shows(description, s.description) && Shows(boundary, s.boundary)
  {
    description, boundary := Cell(s.description), Cell(s.boundary);
    CellShows(s.description);
    CellShows(s.boundary);
    ScopeRowCells(s);
    ThreePadded("`" + s.name + "`", description, boundary);
    assert " " + ("`" + s.name + "`") + " " == " `" + s.name + "` ";
  }

  lemma ScopeRowCells(s: Scope)
    ensures Columns(ScopeRow(s)) == [""] + Padded(ScopeCells(s)) + [""] <==> Escaped(s.name)
  {
    Backticked(s.name);
    CellEscaped(s.description);
    CellEscaped(s.boundary);
    PipedColumnsIff(ScopeCells(s));
    ScopeRowIsPiped(s);
    assert ScopeCells(s)[0] == "`" + s.name + "`";
  }

  lemma ScopeRowIsPiped(s: Scope)
    ensures ScopeRow(s) == Piped(ScopeCells(s))
  {
    var a, b, c := s.name, Cell(s.description), Cell(s.boundary);
    ThreePiped("`" + a + "`", b, c);
    assert "| `" + a + "` | " == "| " + ("`" + a + "`") + " | ";
  }

  lemma ThreePiped(a: string, b: string, c: string)
    ensures Piped([a, b, c]) == "| " + a + " | " + b + " | " + c + " |"
  {
    var all := [a, b, c];
    assert all[..2] == [a, b] && [a, b][..1] == [a] && [a][..0] == [];
    assert Piped([a]) == "| " + a + " |";
    assert Piped([a, b]) == "| " + a + " | " + b + " |";
  }

  lemma RowIsPiped(e: Entry)
    ensures Row(e) == Piped(Cells(e))
  {
    var a, b, c, d := e.id, Cell(e.summary), LegacyCell(e.legacy), Cell(BindingOrDash(e.binding));
    FourPiped("`" + a + "`", b, c, d);
    assert "| `" + a + "` | " == "| " + ("`" + a + "`") + " | ";
  }
}
