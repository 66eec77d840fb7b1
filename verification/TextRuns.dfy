/** The runs of a text between its separators, and what makes a list of strings these runs. */
module TextRuns {

  ghost predicate AllGap(gap: char -> bool, s: string) {
    forall i :: 0 <= i < |s| ==> gap(s[i])
  }

  ghost predicate IsRun(gap: char -> bool, w: string) {
    w != "" && forall i :: 0 <= i < |w| ==> !gap(w[i])
  }

  // A gap, a run, a gap, a run, ..., a gap.
  function Woven(gaps: seq<string>, ws: seq<string>): string
    requires |gaps| == |ws| + 1
  {
    if |ws| == 0 then gaps[0] else gaps[0] + (ws[0] + Woven(gaps[1..], ws[1..]))
  }

  // Runs without a separator in them, and gaps of separators; only the outer gaps may be empty.
  ghost predicate Spaced(gap: char -> bool, gaps: seq<string>, ws: seq<string>) {
    && |gaps| == |ws| + 1
    && (forall i :: 0 <= i < |gaps| ==> AllGap(gap, gaps[i]))
    && (forall i :: 0 < i < |ws| ==> gaps[i] != "")
    && (forall i :: 0 <= i < |ws| ==> IsRun(gap, ws[i]))
  }

  /** The text is made of these runs, in this order, each as long as it can be. */
  ghost predicate AreRuns(gap: char -> bool, s: string, ws: seq<string>) {
    exists gaps :: Spaced(gap, gaps, ws) && s == Woven(gaps, ws)
  }

  // The runs of a text, character by character from the right.
  function Runs(gap: char -> bool, s: string): seq<string> {
    if s == "" then []
    else
      var rest := Runs(gap, s[1..]);
      if gap(s[0]) then rest else InFront(s[0], |s| > 1 && !gap(s[1]), rest)
  }

  // A character that joins the run behind it, or is one of its own.
  function InFront(c: char, joins: bool, ws: seq<string>): seq<string> {
    if joins && ws != [] then [[c] + ws[0]] + ws[1..] else [[c]] + ws
  }

  lemma InFrontConcat(c: char, joins: bool, a: seq<string>, b: seq<string>)
    requires joins ==> a != []
    ensures InFront(c, joins, a + b) == InFront(c, joins, a) + b
  {
    if a != [] { assert (a + b)[1..] == a[1..] + b; }
  }

  lemma {:induction false} GapThenRest(gap: char -> bool, g: string, s: string)
    requires AllGap(gap, g)
    ensures Runs(gap, g + s) == Runs(gap, s)
  {
    if g == "" {
      assert g + s == s;
    } else {
      assert (g + s)[1..] == g[1..] + s;
      GapThenRest(gap, g[1..], s);
    }
  }

  // A run followed by nothing or by a separator is read off whole.
  lemma {:induction false} RunThenRest(gap: char -> bool, w: string, s: string)
    requires IsRun(gap, w) && (s == "" || gap(s[0]))
    ensures Runs(gap, w + s) == [w] + Runs(gap, s)
  {
    assert (w + s)[1..] == w[1..] + s;
    if |w| == 1 {
      assert w[1..] + s == s;
      assert w == [w[0]];
    } else {
      RunThenRest(gap, w[1..], s);
      assert w == [w[0]] + w[1..];
    }
  }

  // Text put in front of a separator keeps its runs.
  lemma {:induction false} RunsAppend(gap: char -> bool, a: string, b: string)
    requires b == "" || gap(b[0])
    ensures Runs(gap, a + b) == Runs(gap, a) + Runs(gap, b)
  {
    if a == "" {
      assert a + b == b;
    } else {
      assert (a + b)[1..] == a[1..] + b;
      RunsAppend(gap, a[1..], b);
      if !gap(a[0]) { InFrontConcat(a[0], |a| > 1 && !gap(a[1]), Runs(gap, a[1..]), Runs(gap, b)); }
    }
  }

  lemma {:induction false} RunsOfWoven(gap: char -> bool, gaps: seq<string>, ws: seq<string>)
    requires Spaced(gap, gaps, ws)
    ensures Runs(gap, Woven(gaps, ws)) == ws
    decreases |ws|
  {
    if |ws| == 0 {
      GapThenRest(gap, gaps[0], "");
      assert gaps[0] + "" == gaps[0];
    } else {
      var rest := Woven(gaps[1..], ws[1..]);
      RunsOfWoven(gap, gaps[1..], ws[1..]);
      if |ws| == 1 {
        assert rest == gaps[1];
      } else {
        assert rest[0] == gaps[1][0];
      }
      RunThenRest(gap, ws[0], rest);
      GapThenRest(gap, gaps[0], ws[0] + rest);
    }
  }

  // A separator in front belongs to the first gap.
  lemma GapInFront(gap: char -> bool, c: char, g: seq<string>, ws: seq<string>)
    requires Spaced(gap, g, ws) && gap(c)
    ensures var gaps := [[c] + g[0]] + g[1..];
            Spaced(gap, gaps, ws) && Woven(gaps, ws) == [c] + Woven(g, ws)
  {
    var gaps := [[c] + g[0]] + g[1..];
    assert gaps[1..] == g[1..];
    if |ws| > 0 {
      var rest := ws[0] + Woven(g[1..], ws[1..]);
      assert ([c] + g[0]) + rest == [c] + (g[0] + rest);
    }
  }

  // A character in front of a gap is a run of its own.
  lemma RunInFront(gap: char -> bool, c: char, g: seq<string>, ws: seq<string>)
    requires Spaced(gap, g, ws) && !gap(c) && (|ws| > 0 ==> g[0] != "")
    ensures Spaced(gap, [""] + g, [[c]] + ws) && Woven([""] + g, [[c]] + ws) == [c] + Woven(g, ws)
  {
    assert ([""] + g)[1..] == g && ([[c]] + ws)[1..] == ws;
    assert IsRun(gap, [c]);
  }

  // A character in front of a run belongs to it.
  lemma LongerRun(gap: char -> bool, c: char, g: seq<string>, ws: seq<string>)
    requires Spaced(gap, g, ws) && !gap(c) && |ws| > 0 && g[0] == ""
    ensures var vs := [[c] + ws[0]] + ws[1..];
            Spaced(gap, g, vs) && Woven(g, vs) == [c] + Woven(g, ws)
  {
    var vs := [[c] + ws[0]] + ws[1..];
    var rest := Woven(g[1..], ws[1..]);
    assert vs[1..] == ws[1..];
    assert ([c] + ws[0]) + rest == [c] + (ws[0] + rest);
    assert IsRun(gap, [c] + ws[0]);
    assert forall i :: 0 < i < |vs| ==> vs[i] == ws[i];
  }

  // What a text starts with.
  lemma WovenStart(gap: char -> bool, g: seq<string>, ws: seq<string>)
    requires Spaced(gap, g, ws)
    ensures var s := Woven(g, ws);
            if g[0] != "" then s != "" && gap(s[0]) else if |ws| > 0 then s != "" && !gap(s[0]) else s == ""
  {
  }

  lemma {:induction false} GapsOf(gap: char -> bool, s: string) returns (gaps: seq<string>)
    ensures Spaced(gap, gaps, Runs(gap, s)) && s == Woven(gaps, Runs(gap, s))
  {
    if s == "" { return [""]; }
    assert s == [s[0]] + s[1..];
    var ws := Runs(gap, s[1..]);
    var g := GapsOf(gap, s[1..]);
    WovenStart(gap, g, ws);
    if gap(s[0]) {
      GapInFront(gap, s[0], g, ws);
      gaps := [[s[0]] + g[0]] + g[1..];
    } else if |s| == 1 || gap(s[1]) {
      RunInFront(gap, s[0], g, ws);
      gaps := [""] + g;
    } else {
      LongerRun(gap, s[0], g, ws);
      gaps := g;
    }
  }

  /** Every text has its runs, and only these. */
  lemma RunsIff(gap: char -> bool, s: string, ws: seq<string>)
    ensures AreRuns(gap, s, ws) <==> ws == Runs(gap, s)
  {
    var gaps := GapsOf(gap, s);
    if AreRuns(gap, s, ws) {
      var g :| Spaced(gap, g, ws) && s == Woven(g, ws);
      RunsOfWoven(gap, g, ws);
    }
  }
}
