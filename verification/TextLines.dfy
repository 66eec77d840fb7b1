/** Text as lines: Split and Join at newlines, and the trimming and field functions
    that the renderer uses. The audit log shares its newline scan.
 */
module TextLines {
  import opened CommandWords
  import opened TextRuns

  predicate NewlineFree(s: string) {
    forall i :: 0 <= i < |s| ==> s[i] != '\n'
  }

  function NewlineAt(s: string): (i: nat)
    ensures i <= |s|
    ensures forall j :: 0 <= j < i ==> s[j] != '\n'
    ensures i < |s| ==> s[i] == '\n'
  {
    if s == "" || s[0] == '\n' then 0 else 1 + NewlineAt(s[1..])
  }

  // strings.Split at newlines: n newlines make n + 1 lines.
  function Split(s: string): (ls: seq<string>)
    ensures |ls| > 0
    decreases |s|
  {
    var i := NewlineAt(s);
    if i == |s| then [s] else [s[..i]] + Split(s[i + 1..])
  }

  function Join(ls: seq<string>): string
    requires |ls| > 0
  {
    if |ls| == 1 then ls[0] else ls[0] + "\n" + Join(ls[1..])
  }

  // Every line with a newline after it.
  function Unlines(ls: seq<string>): string {
    if |ls| == 0 then "" else Unlines(ls[..|ls| - 1]) + ls[|ls| - 1] + "\n"
  }

  lemma Regroup<T>(a: seq<T>, b: seq<T>, c: seq<T>)
    ensures a + (b + c) == (a + b) + c
  {
  }

  lemma SplitCons(l: string, s: string)
    requires NewlineFree(l)
    ensures Split(l + "\n" + s) == [l] + Split(s)
  {
    var t := l + "\n" + s;
    assert t[|l|] == '\n';
    assert forall j :: 0 <= j < |l| ==> t[j] == l[j];
    assert NewlineAt(t) == |l|;
    assert t[..|l|] == l && t[|l| + 1..] == s;
  }

  lemma {:induction false} SplitConcat(a: string, b: string)
    ensures Split(a + "\n" + b) == Split(a) + Split(b)
    decreases |a|
  {
    var i := NewlineAt(a);
    if i == |a| {
      SplitCons(a, b);
    } else {
      var rest := a[i + 1..];
      assert a + "\n" + b == a[..i] + "\n" + (rest + "\n" + b);
      SplitCons(a[..i], rest + "\n" + b);
      SplitConcat(rest, b);
    }
  }

  lemma JoinCons(l: string, ls: seq<string>)
    requires |ls| > 0
    ensures Join([l] + ls) == l + "\n" + Join(ls)
  {
    assert ([l] + ls)[1..] == ls;
  }

  lemma CutAt(s: string, i: nat)
    requires i < |s|
    ensures s == s[..i] + [s[i]] + s[i + 1..]
  {
  }

  lemma {:induction false} JoinSplit(s: string)
    ensures Join(Split(s)) == s
    decreases |s|
  {
    var i := NewlineAt(s);
    if i < |s| {
      JoinSplit(s[i + 1..]);
      JoinCons(s[..i], Split(s[i + 1..]));
      CutAt(s, i);
    }
  }

  lemma {:induction false} SplitNewlineFree(s: string)
    ensures forall i :: 0 <= i < |Split(s)| ==> NewlineFree(Split(s)[i])
    decreases |s|
  {
    var i := NewlineAt(s);
    if i < |s| { SplitNewlineFree(s[i + 1..]); }
  }

  lemma {:induction false} JoinConcat(a: seq<string>, b: seq<string>)
    requires |a| > 0 && |b| > 0
    ensures Join(a + b) == Join(a) + "\n" + Join(b)
    decreases |a|
  {
    if |a| == 1 {
      assert a == [a[0]];
      JoinCons(a[0], b);
    } else {
      assert a + b == [a[0]] + (a[1..] + b);
      JoinCons(a[0], a[1..] + b);
      JoinConcat(a[1..], b);
      Regroup(a[0] + "\n", Join(a[1..]), "\n" + Join(b));
      Regroup(Join(a[1..]), "\n", Join(b));
      Regroup(Join(a), "\n", Join(b));
    }
  }

  lemma {:induction false} SplitJoin(ls: seq<string>)
    requires |ls| > 0 && forall i :: 0 <= i < |ls| ==> NewlineFree(ls[i])
    ensures Split(Join(ls)) == ls
    decreases |ls|
  {
    if |ls| == 1 {
      assert NewlineAt(ls[0]) == |ls[0]|;
    } else {
      SplitJoin(ls[1..]);
      SplitCons(ls[0], Join(ls[1..]));
    }
  }

  lemma {:induction false} UnlinesIsJoin(ls: seq<string>)
    requires |ls| > 0
    ensures Unlines(ls) == Join(ls) + "\n"
    decreases |ls|
  {
    var n := |ls| - 1;
    if n == 0 {
      assert Unlines(ls[..0]) == "";
      assert "" + ls[0] + "\n" == ls[0] + "\n";
    } else {
      UnlinesIsJoin(ls[..n]);
      JoinConcat(ls[..n], [ls[n]]);
      assert ls == ls[..n] + [ls[n]];
    }
  }

  // ------------------------------------------------------------------ trimming

  function TrimNewlines(s: string): string {
    if s != "" && s[|s| - 1] == '\n' then TrimNewlines(s[..|s| - 1]) else s
  }

  function TrimSpaceLeft(s: string): string {
    if s != "" && IsSpace(s[0]) then TrimSpaceLeft(s[1..]) else s
  }

  function TrimSpaceRight(s: string): (t: string)
    ensures t <= s
    ensures s != "" && !IsSpace(s[0]) ==> t != ""
  {
    if s != "" && IsSpace(s[|s| - 1]) then TrimSpaceRight(s[..|s| - 1]) else s
  }

  function TrimSpace(s: string): string {
    TrimSpaceRight(TrimSpaceLeft(s))
  }

  // r is s without the separators around it.
  ghost predicate Trims(gap: char -> bool, s: string, a: string, r: string, b: string) {
    && s == a + r + b && AllGap(gap, a) && AllGap(gap, b)
    && (r != "" ==> !gap(r[0]) && !gap(r[|r| - 1]))
  }

  /** White space goes at both ends, as much of it as there is, and nothing else. */
  lemma TrimSpaceTrims(s: string) returns (a: string, b: string)
    ensures Trims(IsSpace, s, a, TrimSpace(s), b)
  {
    a := LeftTrimmed(s);
    RightTrimmed(TrimSpaceLeft(s));
    b := BothTrimmed(IsSpace, s, a, TrimSpaceLeft(s), TrimSpace(s));
  }

  lemma BothTrimmed(gap: char -> bool, s: string, a: string, t: string, r: string) returns (b: string)
    requires s == a + t && AllGap(gap, a) && (t != "" ==> !gap(t[0]))
    requires r <= t && (forall i :: |r| <= i < |t| ==> gap(t[i])) && (r != "" ==> !gap(r[|r| - 1]))
    ensures Trims(gap, s, a, r, b)
  {
    b := t[|r|..];
    assert t == r + b;
    Regroup(a, r, b);
  }

  lemma {:induction false} LeftTrimmed(s: string) returns (a: string)
    ensures s == a + TrimSpaceLeft(s) && AllGap(IsSpace, a)
    ensures TrimSpaceLeft(s) != "" ==> !IsSpace(TrimSpaceLeft(s)[0])
  {
    a := "";
    if s != "" && IsSpace(s[0]) {
      var rest := LeftTrimmed(s[1..]);
      a := [s[0]] + rest;
      assert s == [s[0]] + s[1..];
      Regroup([s[0]], rest, TrimSpaceLeft(s));
    }
  }

  lemma {:induction false} RightTrimmed(s: string)
    ensures var t := TrimSpaceRight(s);
            && (forall i :: |t| <= i < |s| ==> IsSpace(s[i]))
            && (t != "" ==> !IsSpace(t[|t| - 1]))
  {
    if s != "" && IsSpace(s[|s| - 1]) { RightTrimmed(s[..|s| - 1]); }
  }

  /** Newlines go at the end, as many as there are, and nothing else. */
  lemma {:induction false} TrimNewlinesTrims(s: string) returns (b: string)
    ensures s == TrimNewlines(s) + b && forall i :: 0 <= i < |b| ==> b[i] == '\n'
    ensures TrimNewlines(s) != "" ==> TrimNewlines(s)[|TrimNewlines(s)| - 1] != '\n'
  {
    b := "";
    if s != "" && s[|s| - 1] == '\n' {
      var n := |s| - 1;
      var rest := TrimNewlinesTrims(s[..n]);
      b := rest + "\n";
      assert s == s[..n] + "\n";
      Regroup(TrimNewlines(s), rest, "\n");
    }
  }

  lemma TrimmedStart(s: string)
    requires s != "" && !IsSpace(s[0])
    ensures TrimSpace(s) != "" && TrimSpace(s)[0] == s[0]
  {
  }

  lemma TrimEnd(s: string)
    requires s != "" && s[|s| - 1] != '\n'
    ensures TrimNewlines(s + "\n") == s
  {
    var t := s + "\n";
    assert t[|t| - 1] == '\n' && t[..|t| - 1] == s;
  }

  // ------------------------------------------------------------- table cells

  function EscapePipes(s: string): string {
    if s == "" then "" else (if s[0] == '|' then "\\|" else [s[0]]) + EscapePipes(s[1..])
  }

  // strings.Fields
  function Fields(s: string): seq<string> {
    Runs(IsSpace, s)
  }

  function JoinWith(ws: seq<string>, sep: string): string {
    if |ws| == 0 then "" else if |ws| == 1 then ws[0] else ws[0] + sep + JoinWith(ws[1..], sep)
  }

  function Cell(s: string): string {
    JoinWith(Fields(EscapePipes(s)), " ")
  }

  lemma FieldsNewlineFree(s: string)
    ensures forall i :: 0 <= i < |Fields(s)| ==> NewlineFree(Fields(s)[i])
  {
    RunsIff(IsSpace, s, Fields(s));
    assert IsSpace('\n');
  }

  lemma {:induction false} JoinWithNewlineFree(ws: seq<string>, sep: string)
    requires NewlineFree(sep) && forall i :: 0 <= i < |ws| ==> NewlineFree(ws[i])
    ensures NewlineFree(JoinWith(ws, sep))
  {
    if |ws| > 1 { JoinWithNewlineFree(ws[1..], sep); }
  }

  lemma CellNewlineFree(s: string)
    ensures NewlineFree(Cell(s))
  {
    FieldsNewlineFree(EscapePipes(s));
    JoinWithNewlineFree(Fields(EscapePipes(s)), " ");
  }
}
