/** What a table cell shows: read back, its text word by word. */
module TableCells {
  import opened CommandWords
  import opened TextRuns
  import opened TextLines

  // Every pipe is escaped by a backslash right in front of it.
  predicate Escaped(s: string) {
    forall i :: 0 <= i < |s| && s[i] == '|' ==> i > 0 && s[i - 1] == '\\'
  }

  // Without the backslash in front of each pipe.
  function Unescape(s: string): string {
    if s == "" then ""
    else if |s| > 1 && s[0] == '\\' && s[1] == '|' then Unescape(s[1..])
    else [s[0]] + Unescape(s[1..])
  }

  // Cut at every single space.
  function Pieces(s: string): (ps: seq<string>)
    ensures |ps| > 0
  {
    if s == "" then [""]
    else
      var ps := Pieces(s[1..]);
      if s[0] == ' ' then [""] + ps else [[s[0]] + ps[0]] + ps[1..]
  }

  function ReadCell(cell: string): seq<string> {
    if cell == "" then [] else Pieces(Unescape(cell))
  }

  /** The cell shows the text: no pipe in it ends the column, and read back it gives the
      words of the text, the longest stretches without white space.
   */
  ghost predicate Shows(cell: string, s: string) {
    Escaped(cell) && AreRuns(IsSpace, s, ReadCell(cell))
  }

  // ------------------------------------------------------------------ escaping

  lemma EscapedConcat(a: string, b: string)
    requires Escaped(a) && Escaped(b)
    ensures Escaped(a + b)
  {
  }

  lemma {:induction false} EscapePipesEscapes(s: string)
    ensures Escaped(EscapePipes(s))
  {
    if s != "" {
      EscapePipesEscapes(s[1..]);
      if s[0] == '|' {
        assert Escaped("\\|");
        EscapedConcat("\\|", EscapePipes(s[1..]));
      } else {
        EscapedConcat([s[0]], EscapePipes(s[1..]));
      }
    }
  }

  lemma {:induction false} EscapeConcat(a: string, b: string)
    ensures EscapePipes(a + b) == EscapePipes(a) + EscapePipes(b)
  {
    if a == "" {
      assert a + b == b;
    } else {
      assert (a + b)[1..] == a[1..] + b;
      EscapeConcat(a[1..], b);
    }
  }

  lemma {:induction false} UnescapeEscaped(s: string)
    ensures Unescape(EscapePipes(s)) == s
    ensures s != "" ==> EscapePipes(s) != "" && EscapePipes(s)[0] != '|'
  {
    if s != "" {
      UnescapeEscaped(s[1..]);
      var rest := EscapePipes(s[1..]);
      assert rest == "" <==> s[1..] == "";
      var e := EscapePipes(s);
      if s[0] == '|' {
        assert e[1..][1..] == rest && e[1..][0] == '|';
        assert Unescape(e[1..]) == ['|'] + Unescape(rest);
      } else {
        assert e[1..] == rest;
      }
      assert s == [s[0]] + s[1..];
    }
  }

  lemma {:induction false} EscapeUnescaped(t: string)
    requires Escaped(t)
    ensures EscapePipes(Unescape(t)) == t
    decreases |t|
  {
    if t != "" {
      if |t| > 1 && t[0] == '\\' && t[1] == '|' {
        var r := t[2..];
        assert forall i :: 0 <= i < |r| ==> r[i] == t[i + 2];
        EscapeUnescaped(r);
        assert t[1..][1..] == r;
        assert Unescape(t) == ['|'] + Unescape(r);
        assert t == "\\|" + r;
      } else {
        var r := t[1..];
        assert forall i :: 0 <= i < |r| ==> r[i] == t[i + 1];
        EscapeUnescaped(r);
        assert t == [t[0]] + r;
      }
    }
  }

  // ------------------------------------------------------- words, and how they are joined

  function EscapedWords(ws: seq<string>): seq<string> {
    if |ws| == 0 then [] else [EscapePipes(ws[0])] + EscapedWords(ws[1..])
  }

  lemma {:induction false} EscapeGap(g: string)
    requires AllGap(IsSpace, g)
    ensures EscapePipes(g) == g
  {
    if g != "" {
      EscapeGap(g[1..]);
      assert g[0] != '|';
      assert g == [g[0]] + g[1..];
    }
  }

  lemma {:induction false} EscapeRun(w: string)
    requires IsRun(IsSpace, w)
    ensures IsRun(IsSpace, EscapePipes(w))
  {
    if |w| > 1 { EscapeRun(w[1..]); }
    assert !IsSpace('\\');
  }

  lemma {:induction false} EscapeWoven(gaps: seq<string>, ws: seq<string>)
    requires Spaced(IsSpace, gaps, ws)
    ensures Spaced(IsSpace, gaps, EscapedWords(ws))
    ensures EscapePipes(Woven(gaps, ws)) == Woven(gaps, EscapedWords(ws))
    decreases |ws|
  {
    EscapeGap(gaps[0]);
    if |ws| > 0 {
      EscapeWoven(gaps[1..], ws[1..]);
      EscapeRun(ws[0]);
      var rest := Woven(gaps[1..], ws[1..]);
      EscapeConcat(ws[0], rest);
      EscapeConcat(gaps[0], ws[0] + rest);
      var es := EscapedWords(ws);
      assert es[1..] == EscapedWords(ws[1..]);
      EscapedSpaced(gaps, ws);
    }
  }

  lemma EscapedSpaced(gaps: seq<string>, ws: seq<string>)
    requires Spaced(IsSpace, gaps, ws) && |ws| > 0
    requires IsRun(IsSpace, EscapePipes(ws[0])) && Spaced(IsSpace, gaps[1..], EscapedWords(ws[1..]))
    ensures Spaced(IsSpace, gaps, EscapedWords(ws))
  {
    var es, more := EscapedWords(ws), EscapedWords(ws[1..]);
    forall i | 0 <= i < |es| ensures IsRun(IsSpace, es[i]) {
      if i > 0 { assert es[i] == more[i - 1]; }
    }
  }

  lemma {:induction false} EscapeJoined(ws: seq<string>)
    ensures EscapePipes(JoinWith(ws, " ")) == JoinWith(EscapedWords(ws), " ")
  {
    if |ws| > 1 {
      EscapeJoined(ws[1..]);
      EscapeConcat(ws[0], " ");
      EscapeGap(" ");
      EscapeConcat(ws[0] + " ", JoinWith(ws[1..], " "));
      assert EscapedWords(ws)[1..] == EscapedWords(ws[1..]);
    }
  }

  // The escaped words of the text, a single space between them.
  lemma CellIsJoin(s: string, ws: seq<string>)
    requires AreRuns(IsSpace, s, ws)
    ensures Cell(s) == EscapePipes(JoinWith(ws, " "))
  {
    var gaps :| Spaced(IsSpace, gaps, ws) && s == Woven(gaps, ws);
    EscapeWoven(gaps, ws);
    RunsOfWoven(IsSpace, gaps, EscapedWords(ws));
    EscapeJoined(ws);
  }

  lemma {:induction false} PiecesOfWord(w: string, s: string)
    requires forall i :: 0 <= i < |w| ==> w[i] != ' '
    requires s == "" || s[0] == ' '
    ensures Pieces(w + s) == if s == "" then [w] else [w] + Pieces(s[1..])
  {
    if w == "" {
      assert w + s == s;
    } else {
      assert (w + s)[1..] == w[1..] + s;
      PiecesOfWord(w[1..], s);
      assert w == [w[0]] + w[1..];
    }
  }

  lemma {:induction false} PiecesOfJoin(ws: seq<string>)
    requires |ws| > 0 && forall i :: 0 <= i < |ws| ==> IsRun(IsSpace, ws[i])
    ensures JoinWith(ws, " ") != "" && Pieces(JoinWith(ws, " ")) == ws
  {
    assert forall i :: 0 <= i < |ws[0]| ==> ws[0][i] != ' ';
    if |ws| == 1 {
      PiecesOfWord(ws[0], "");
      assert ws[0] + "" == ws[0];
    } else {
      PiecesOfJoin(ws[1..]);
      var rest := JoinWith(ws[1..], " ");
      var tail := " " + rest;
      assert tail[0] == ' ' && tail[1..] == rest;
      PiecesOfWord(ws[0], tail);
      Regroup(ws[0], " ", rest);
      assert ws == [ws[0]] + ws[1..];
    }
  }

  lemma {:induction false} JoinOfPieces(s: string)
    ensures JoinWith(Pieces(s), " ") == s
  {
    if s != "" {
      var ps := Pieces(s[1..]);
      JoinOfPieces(s[1..]);
      assert s == [s[0]] + s[1..];
      if s[0] == ' ' {
        assert ([""] + ps)[1..] == ps;
      } else {
        JoinLonger(s[0], ps, " ");
      }
    }
  }

  lemma JoinLonger(c: char, ps: seq<string>, sep: string)
    requires |ps| > 0
    ensures JoinWith([[c] + ps[0]] + ps[1..], sep) == [c] + JoinWith(ps, sep)
  {
    var qs := [[c] + ps[0]] + ps[1..];
    assert qs[0] == [c] + ps[0] && qs[1..] == ps[1..];
    if |ps| > 1 {
      Regroup([c], ps[0], sep);
      Regroup([c], ps[0] + sep, JoinWith(ps[1..], sep));
    }
  }

  /** A cell is the one string that shows its text: the words of the text with single
      spaces between them, and a backslash put in front of every pipe and nowhere else.
   */
  lemma CellIff(t: string, s: string)
    ensures t == Cell(s) <==> Shows(t, s)
  {
    CellShows(s);
    if Shows(t, s) {
      CellIsJoin(s, ReadCell(t));
      EscapeUnescaped(t);
      JoinOfPieces(Unescape(t));
    }
  }

  lemma CellShows(s: string)
    ensures Shows(Cell(s), s)
  {
    var ws := Fields(s);
    RunsIff(IsSpace, s, ws);
    CellIsJoin(s, ws);
    var line := JoinWith(ws, " ");
    EscapePipesEscapes(line);
    UnescapeEscaped(line);
    if |ws| > 0 { PiecesOfJoin(ws); }
  }

  lemma CellEscaped(s: string)
    ensures Escaped(Cell(s))
  {
    CellShows(s);
  }

  lemma {:induction false} JoinWithEscaped(ws: seq<string>, sep: string)
    requires Escaped(sep) && forall i :: 0 <= i < |ws| ==> Escaped(ws[i])
    ensures Escaped(JoinWith(ws, sep))
  {
    if |ws| > 1 {
      JoinWithEscaped(ws[1..], sep);
      EscapedConcat(ws[0], sep);
      EscapedConcat(ws[0] + sep, JoinWith(ws[1..], sep));
    }
  }
}
