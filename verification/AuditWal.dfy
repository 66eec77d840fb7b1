/** The write-ahead log behind the audit logger: the synchronous path of Log, the
    append to the WAL file, and ReplayWAL.

    The file at the WAL path and the file that the open append handle points to are
    two things: a partial replay renames a new file over the path and leaves the
    handle on the old one.
 */
module AuditWal {
  import opened Options
  import opened TextLines

  // JSON, left abstract: what is marshalled is one non-empty line that reads back.
  datatype Codec<!E(!new)> = Codec(marshal: E -> Option<string>, unmarshal: string -> Option<E>) {
    ghost predicate Faithful() {
      forall e :: marshal(e).Some? ==> IsLine(marshal(e).value) && unmarshal(marshal(e).value) == Some(e)
    }
  }

  predicate IsLine(s: string) {
    s != "" && NewlineFree(s)
  }

  // ---------------------------------------------------------------------- lines

  // The lines of a text; a last line needs no newline, an empty one does.
  function Lines(s: string): seq<string>
    decreases |s|
  {
    if s == "" then []
    else
      var i := NewlineAt(s);
      if i == |s| then [s] else [s[..i]] + Lines(s[i + 1..])
  }

  lemma LinesCons(l: string, s: string)
    requires NewlineFree(l)
    ensures Lines(l + "\n" + s) == [l] + Lines(s)
  {
    var t := l + "\n" + s;
    assert t[|l|] == '\n';
    assert forall j :: 0 <= j < |l| ==> t[j] == l[j];
    assert NewlineAt(t) == |l|;
    assert t[..|l|] == l && t[|l| + 1..] == s;
  }

  lemma LinesSingle(l: string)
    requires IsLine(l)
    ensures Lines(l) == [l]
  {
    assert NewlineAt(l) == |l|;
  }

  function JoinLines(ls: seq<string>): string {
    if |ls| == 0 then "" else ls[0] + "\n" + JoinLines(ls[1..])
  }

  // What was written line by line is read back line by line.
  lemma {:induction false} LinesOfJoin(ls: seq<string>)
    requires forall i :: 0 <= i < |ls| ==> NewlineFree(ls[i])
    ensures Lines(JoinLines(ls)) == ls
  {
    if |ls| > 0 {
      LinesOfJoin(ls[1..]);
      LinesCons(ls[0], JoinLines(ls[1..]));
    }
  }

  // And the other way around: no text is lost, an unfinished last line is read as well.
  lemma {:induction false} JoinOfLines(s: string)
    ensures forall i :: 0 <= i < |Lines(s)| ==> NewlineFree(Lines(s)[i])
    ensures JoinLines(Lines(s)) == if s == "" || s[|s| - 1] == '\n' then s else s + "\n"
    decreases |s|
  {
    if s != "" {
      var i := NewlineAt(s);
      if i == |s| {
        assert Lines(s)[1..] == [] && s[|s| - 1] != '\n';
      } else {
        var rest := s[i + 1..];
        JoinOfLines(rest);
        CutAt(s, i);
        assert Lines(s)[1..] == Lines(rest);
        assert rest != "" ==> rest[|rest| - 1] == s[|s| - 1];
        Regroup(s[..i] + "\n", rest, "\n");
      }
    }
  }

  lemma {:induction false} JoinTerminated(ls: seq<string>)
    ensures Terminated(JoinLines(ls))
  {
    if |ls| > 0 { JoinTerminated(ls[1..]); }
  }

  lemma {:induction false} JoinPush(ls: seq<string>, l: string)
    ensures JoinLines(ls + [l]) == JoinLines(ls) + (l + "\n")
  {
    if |ls| == 0 {
      assert ls + [l] == [l] && [l][1..] == [];
    } else {
      assert (ls + [l])[1..] == ls[1..] + [l];
      JoinPush(ls[1..], l);
      Regroup(ls[0] + "\n", JoinLines(ls[1..]), l + "\n");
    }
  }

  lemma SplitStep(s: string, lines: seq<string>, start: nat, i: nat)
    requires start <= i < |s| && s[i] == '\n' && s[..start] == JoinLines(lines)
    ensures s[..i + 1] == JoinLines(lines + [s[start..i]])
  {
    JoinPush(lines, s[start..i]);
    assert s[..i + 1] == s[..start] + (s[start..i] + "\n");
  }

  lemma SplitEnd(s: string, lines: seq<string>, start: nat)
    requires start <= |s| && s[..start] == JoinLines(lines) && NewlineFree(s[start..])
    requires forall i :: 0 <= i < |lines| ==> NewlineFree(lines[i])
    ensures Lines(s) == if start < |s| then lines + [s[start..]] else lines
  {
    JoinTerminated(lines);
    LinesOfJoin(lines);
    assert s == s[..start] + s[start..];
    LinesAppend(s[..start], s[start..]);
    if start < |s| { LinesSingle(s[start..]); } else { assert Lines(s[start..]) == []; }
  }

  // splitLines, index by index.
  method SplitLines(s: string) returns (lines: seq<string>)
    ensures lines == Lines(s)
  {
    lines := [];
    var start := 0;
    for i := 0 to |s|
      invariant 0 <= start <= i
      invariant NewlineFree(s[start..i])
      invariant s[..start] == JoinLines(lines) && forall k :: 0 <= k < |lines| ==> NewlineFree(lines[k])
    {
      if s[i] == '\n' {
        SplitStep(s, lines, start, i);
        lines := lines + [s[start..i]];
        start := i + 1;
      } else {
        assert s[start..i + 1] == s[start..i] + [s[i]];
      }
    }
    assert s[start..|s|] == s[start..];
    SplitEnd(s, lines, start);
    if start < |s| {
      lines := lines + [s[start..]];
    }
  }

  // The unterminated end of a text, and the rest of it.
  function TailLength(s: string): (n: nat)
    ensures n <= |s|
    ensures forall j :: |s| - n <= j < |s| ==> s[j] != '\n'
    ensures n < |s| ==> s[|s| - n - 1] == '\n'
  {
    if s == "" || s[|s| - 1] == '\n' then 0 else 1 + TailLength(s[..|s| - 1])
  }

  function Tail(s: string): string {
    s[|s| - TailLength(s)..]
  }

  function Settled(s: string): string {
    s[..|s| - TailLength(s)]
  }

  predicate Terminated(s: string) {
    s == "" || s[|s| - 1] == '\n'
  }

  lemma SettledPlusTail(s: string)
    ensures Terminated(Settled(s)) && NewlineFree(Tail(s)) && s == Settled(s) + Tail(s)
  {
  }

  lemma FirstLine(a: string) returns (l: string, rest: string)
    requires Terminated(a) && a != ""
    ensures a == l + "\n" + rest && NewlineFree(l) && Terminated(rest)
  {
    var i := NewlineAt(a);
    l, rest := a[..i], a[i + 1..];
  }

  lemma {:induction false} LinesAppend(a: string, b: string)
    requires Terminated(a)
    ensures Lines(a + b) == Lines(a) + Lines(b)
    decreases |a|
  {
    if a == "" {
      assert a + b == b;
    } else {
      var l, rest := FirstLine(a);
      LinesCons(l, rest);
      LinesCons(l, rest + b);
      Regroup(l + "\n", rest, b);
      LinesAppend(rest, b);
      Regroup([l], Lines(rest), Lines(b));
    }
  }

  // Bytes without a newline only lengthen the unterminated end.
  lemma {:induction false} TailAppend(a: string, b: string)
    requires NewlineFree(b)
    ensures TailLength(a + b) == TailLength(a) + |b|
    ensures Tail(a + b) == Tail(a) + b && Settled(a + b) == Settled(a)
    decreases |b|
  {
    if b == "" {
      assert a + b == a;
    } else {
      assert (a + b)[..|a + b| - 1] == a + b[..|b| - 1];
      TailAppend(a, b[..|b| - 1]);
    }
  }

  // A newline settles everything before it.
  lemma NewlineSettles(s: string)
    ensures Settled(s + "\n") == s + "\n" && Tail(s + "\n") == ""
  {
  }

  // ------------------------------------------------------------------ the state

  // `files` are the files ever created; the path and the append handle name one of
  // them each, or none.
  datatype State<+E> = State(db: seq<E>, files: seq<string>, path: Option<nat>, handle: Option<nat>) {
    predicate Valid() {
      (path.Some? ==> path.value < |files|) && (handle.Some? ==> handle.value < |files|)
    }
  }

  function OnPath<E>(s: State<E>): string
    requires s.Valid()
  {
    if s.path.Some? then s.files[s.path.value] else ""
  }

  // The handle is open on a file that is no longer the one at the path.
  predicate Stale<E>(s: State<E>) {
    s.handle.Some? && s.handle != s.path
  }

  // How the fallback fares: the open fails, the write fails after some bytes of the
  // line, or all is well.
  datatype Fallback = Appended | OpenFails | WriteFails(bytes: nat)

  function Opened<E>(s: State<E>): (o: State<E>)
    requires s.Valid()
    ensures o.Valid() && o.handle.Some? && o.db == s.db && OnPath(o) == OnPath(s)
    ensures Stale(o) <==> Stale(s)
  {
    if s.handle.Some? then s
    else if s.path.Some? then s.(handle := s.path)
    else s.(files := s.files + [""], path := Some(|s.files|), handle := Some(|s.files|))
  }

  function Written<E>(s: State<E>, bytes: string): (w: State<E>)
    requires s.Valid() && s.handle.Some?
    ensures w.Valid() && w.db == s.db && w.path == s.path && w.handle == s.handle
    ensures OnPath(w) == if Stale(s) then OnPath(s) else OnPath(s) + bytes
  {
    s.(files := s.files[s.handle.value := s.files[s.handle.value] + bytes])
  }

  // The synchronous path of Log: the database, or else the WAL. The flag is whether
  // Log returns nil.
  function LogSync<E(!new)>(c: Codec<E>, s: State<E>, e: E, dbFails: bool, f: Fallback): (r: (State<E>, bool))
    requires s.Valid()
    ensures r.0.Valid()
  {
    if !dbFails then (s.(db := s.db + [e]), true)
    else if s.handle.None? && f.OpenFails? then (s, false)
    else
      var o := Opened(s);
      match c.marshal(e)
      case None => (o, false)
      case Some(line) =>
        if f.WriteFails? then (Written(o, line[..if f.bytes < |line| then f.bytes else |line|]), false)
        else (Written(o, line + "\n"), true)
  }

  // --------------------------------------------------------------------- replay

  // What replaying one non-empty line does with it: the event to write, or the line
  // to keep for later.
  function Keep<E(!new)>(c: Codec<E>, line: string): string {
    match c.unmarshal(line)
    case None => line
    case Some(e) => if c.marshal(e).Some? then c.marshal(e).value else line
  }

  predicate Replays<E(!new)>(c: Codec<E>, line: string, fails: bool) {
    c.unmarshal(line).Some? && !fails
  }

  function Retained<E(!new)>(c: Codec<E>, lines: seq<string>, fails: nat -> bool): seq<string> {
    if |lines| == 0 then []
    else
      var i := |lines| - 1;
      Retained(c, lines[..i], fails)
      + (if lines[i] == "" || Replays(c, lines[i], fails(i)) then [] else [Keep(c, lines[i])])
  }

  function Replayed<E(!new)>(c: Codec<E>, lines: seq<string>, fails: nat -> bool): seq<E> {
    if |lines| == 0 then []
    else
      var i := |lines| - 1;
      Replayed(c, lines[..i], fails)
      + (if lines[i] != "" && Replays(c, lines[i], fails(i)) then [c.unmarshal(lines[i]).value] else [])
  }

  datatype ReplayResult = Done | Partial(failed: nat, total: nat, replayed: nat) | ReplayError

  // Which of the calls around the loop fail.
  datatype ReplayFaults = ReplayFaults(read: bool, write: nat -> bool, tmp: bool, rename: bool, truncate: bool)

  function ReplayStep<E(!new)>(c: Codec<E>, s: State<E>, f: ReplayFaults): (r: (State<E>, ReplayResult))
    requires s.Valid()
    ensures r.0.Valid()
  {
    if s.path.None? then (s, Done)
    else if f.read then (s, ReplayError)
    else if OnPath(s) == "" then (s, Done)
    else
      var lines := Lines(OnPath(s));
      var keep := Retained(c, lines, f.write);
      var wrote := Replayed(c, lines, f.write);
      var t := s.(db := s.db + wrote);
      if |keep| > 0 then
        if f.tmp || f.rename then (t, ReplayError)
        else (t.(files := t.files + [JoinLines(keep)], path := Some(|t.files|)),
              Partial(|keep|, |wrote| + |keep|, |wrote|))
      else if f.truncate then (t, ReplayError)
      else (t.(files := t.files[t.path.value := ""]), Done)
  }

  // What an append leaves, whether or not it works: the file that the handle is on, or
  // that it is opened on, gets the whole line, the part that was written, or nothing.
  ghost predicate AppendedTo(files: seq<string>, path: Option<nat>, handle: Option<nat>,
                             files': seq<string>, path': Option<nat>, handle': Option<nat>,
                             line: Option<string>, f: Fallback)
  {
    if handle.None? && f.OpenFails? then files' == files && path' == path && handle' == handle
    else
      var at := if handle.Some? then handle.value else if path.Some? then path.value else |files|;
      var text := if at < |files| then files[at] else "";
      var added :=
        if line.None? then ""
        else if f.WriteFails? then line.value[..if f.bytes < |line.value| then f.bytes else |line.value|]
        else line.value + "\n";
      && handle' == Some(at) && path' == (if handle.None? && path.None? then Some(at) else path)
      && |files'| == (if at < |files| then |files| else |files| + 1) && at < |files'|
      && files'[at] == text + added
      && forall i :: 0 <= i < |files| && i != at ==> files'[i] == files[i]
  }

  class AuditLogger<E(!new)> {
    const codec: Codec<E>
    var db: seq<E>
    var files: seq<string>
    var path: Option<nat>
    var handle: Option<nat>

    ghost function View(): State<E>
      reads this
    {
      State(db, files, path, handle)
    }

    constructor (codec: Codec<E>)
      ensures this.codec == codec && View() == State([], [], None, None)
    {
      this.codec := codec;
      db, files, path, handle := [], [], None, None;
    }

    method WriteToWAL(e: E, f: Fallback) returns (ok: bool)
      requires View().Valid()
      modifies this
      ensures ok <==> codec.marshal(e).Some? && (old(handle).Some? || !f.OpenFails?) && !f.WriteFails?
      ensures AppendedTo(old(files), old(path), old(handle), files, path, handle, codec.marshal(e), f)
      ensures db == old(db)
      ensures (View(), ok) == LogSync(codec, old(View()), e, true, f)
    {
      if handle.None? {
        if f.OpenFails? { return false; }
        if path.None? {
          path := Some(|files|);
          files := files + [""];
        }
        handle := path;
      }
      var data := codec.marshal(e);
      if data.None? { return false; }
      var line := data.value;
      if f.WriteFails? {
        var n := if f.bytes < |line| then f.bytes else |line|;
        files := files[handle.value := files[handle.value] + line[..n]];
        return false;
      }
      files := files[handle.value := files[handle.value] + (line + "\n")];
      return true;
    }

    method Log(e: E, dbFails: bool, f: Fallback) returns (ok: bool)
      requires View().Valid()
      modifies this
      ensures !dbFails ==> ok && db == old(db) + [e] && unchanged(`files, `path, `handle)
      ensures ok <==>
        || !dbFails
        || (codec.marshal(e).Some? && (old(handle).Some? || !f.OpenFails?) && !f.WriteFails?)
      ensures dbFails ==>
        && db == old(db)
        && AppendedTo(old(files), old(path), old(handle), files, path, handle, codec.marshal(e), f)
      ensures (View(), ok) == LogSync(codec, old(View()), e, dbFails, f)
    {
      if !dbFails {
        db := db + [e];
        return true;
      }
      ok := WriteToWAL(e, f);
    }

    // The replay loop: decoded events go to the writer, everything else is kept.
    method ReplayLines(lines: seq<string>, fails: nat -> bool) returns (replayed: nat, failedLines: seq<string>)
      modifies this`db
      ensures db == old(db) + Replayed(codec, lines, fails)
      ensures replayed == |Replayed(codec, lines, fails)|
      ensures failedLines == Retained(codec, lines, fails)
    {
      replayed, failedLines := 0, [];
      for i := 0 to |lines|
        invariant failedLines == Retained(codec, lines[..i], fails)
        invariant db == old(db) + Replayed(codec, lines[..i], fails)
        invariant replayed == |Replayed(codec, lines[..i], fails)|
      {
        var line := lines[i];
        assert lines[..i + 1][..i] == lines[..i];
        if line == "" { continue; }
        var event := codec.unmarshal(line);
        if event.None? {
          failedLines := failedLines + [line];
          continue;
        }
        if fails(i) {
          var raw := codec.marshal(event.value);
          failedLines := failedLines + [if raw.Some? then raw.value else line];
          continue;
        }
        db := db + [event.value];
        replayed := replayed + 1;
      }
      assert lines[..|lines|] == lines;
    }

    method ReplayWAL(f: ReplayFaults) returns (r: ReplayResult)
      requires View().Valid()
      modifies this
      ensures handle == old(handle)
      ensures old(path).None? ==> r == Done && unchanged(this)
      ensures old(path).Some? && f.read ==> r == ReplayError && unchanged(this)
      ensures old(path).Some? && !f.read && old(files)[old(path).value] == "" ==> r == Done && unchanged(this)
      ensures old(path).Some? && !f.read && old(files)[old(path).value] != "" ==>
        var lines := Lines(old(files)[old(path).value]);
        var wrote, kept := Replayed(codec, lines, f.write), Retained(codec, lines, f.write);
        && db == old(db) + wrote
        && (kept == [] && f.truncate ==> r == ReplayError && unchanged(`files, `path))
        && (kept == [] && !f.truncate ==> r == Done && files == old(files)[old(path).value := ""] && path == old(path))
        && (kept != [] && (f.tmp || f.rename) ==> r == ReplayError && unchanged(`files, `path))
        && (kept != [] && !f.tmp && !f.rename ==>
              && r == Partial(|kept|, |wrote| + |kept|, |wrote|)
              && files == old(files) + [JoinLines(kept)] && path == Some(|old(files)|))
      ensures (View(), r) == ReplayStep(codec, old(View()), f)
    {
      if path.None? { return Done; }
      if f.read { return ReplayError; }
      var data := files[path.value];
      if |data| == 0 { return Done; }
      var lines := SplitLines(data);
      var replayed, failedLines := ReplayLines(lines, f.write);
      if |failedLines| > 0 {
        var buf := RenderLines(failedLines);
        if f.tmp { return ReplayError; }
        if f.rename { return ReplayError; }
        path := Some(|files|);
        files := files + [buf];
        return Partial(|failedLines|, replayed + |failedLines|, replayed);
      }
      if f.truncate { return ReplayError; }
      files := files[path.value := ""];
      return Done;
    }
  }

  // The rewrite buffer: each line followed by a newline.
  method RenderLines(ls: seq<string>) returns (buf: string)
    ensures buf == JoinLines(ls)
  {
    buf := "";
    assert ls[0..] == ls;
    for i := 0 to |ls|
      invariant JoinLines(ls) == buf + JoinLines(ls[i..])
    {
      assert ls[i..][1..] == ls[i + 1..];
      buf := buf + (ls[i] + "\n");
    }
  }

  // ------------------------------------------------- what a replay does to a WAL

  // The events that a text holds, in order, and the lines that hold none.
  function Decoded<E(!new)>(c: Codec<E>, lines: seq<string>): seq<E> {
    if |lines| == 0 then []
    else
      var i := |lines| - 1;
      Decoded(c, lines[..i])
      + (if lines[i] != "" && c.unmarshal(lines[i]).Some? then [c.unmarshal(lines[i]).value] else [])
  }

  function Garbage<E(!new)>(c: Codec<E>, lines: seq<string>): seq<string> {
    if |lines| == 0 then []
    else
      var i := |lines| - 1;
      Garbage(c, lines[..i]) + (if lines[i] != "" && c.unmarshal(lines[i]).None? then [lines[i]] else [])
  }

  function NonEmpty(lines: seq<string>): seq<string> {
    if |lines| == 0 then []
    else
      var i := |lines| - 1;
      NonEmpty(lines[..i]) + (if lines[i] != "" then [lines[i]] else [])
  }

  // `whole` split into `a` and `b`, each in the order it had.
  predicate SplitsInto<T(==)>(whole: seq<T>, a: seq<T>, b: seq<T>) {
    if |whole| == 0 then a == [] && b == []
    else
      var n := |whole| - 1;
      || (|a| > 0 && a[|a| - 1] == whole[n] && SplitsInto(whole[..n], a[..|a| - 1], b))
      || (|b| > 0 && b[|b| - 1] == whole[n] && SplitsInto(whole[..n], a, b[..|b| - 1]))
  }

  lemma DecodedPush<E(!new)>(c: Codec<E>, lines: seq<string>, l: string)
    ensures Decoded(c, lines + [l])
         == Decoded(c, lines) + (if l != "" && c.unmarshal(l).Some? then [c.unmarshal(l).value] else [])
    ensures Garbage(c, lines + [l])
         == Garbage(c, lines) + (if l != "" && c.unmarshal(l).None? then [l] else [])
  {
    assert (lines + [l])[..|lines|] == lines;
  }

  lemma SplitsPush<T>(whole: seq<T>, a: seq<T>, b: seq<T>, x: T)
    requires SplitsInto(whole, a, b)
    ensures SplitsInto(whole + [x], a + [x], b) && SplitsInto(whole + [x], a, b + [x])
  {
    assert (whole + [x])[..|whole|] == whole && (a + [x])[..|a|] == a && (b + [x])[..|b|] == b;
  }

  // A kept line says what the original said.
  lemma KeepMeansTheSame<E(!new)>(c: Codec<E>, line: string)
    requires c.Faithful() && IsLine(line)
    ensures IsLine(Keep(c, line)) && c.unmarshal(Keep(c, line)) == c.unmarshal(line)
    ensures c.unmarshal(line).None? ==> Keep(c, line) == line
  {
  }

  lemma KeptPush<E(!new)>(c: Codec<E>, kept: seq<string>, l: string)
    requires c.Faithful() && IsLine(l) && c.unmarshal(l).Some?
    ensures Decoded(c, kept + [Keep(c, l)]) == Decoded(c, kept) + [c.unmarshal(l).value]
    ensures Garbage(c, kept + [Keep(c, l)]) == Garbage(c, kept) && IsLine(Keep(c, l))
  {
    KeepMeansTheSame(c, l);
    DecodedPush(c, kept, Keep(c, l));
  }

  // The events of some lines are split, in order, between what was written and what is
  // kept; unreadable lines are kept as they are; and the two counts add up.
  predicate Conserved<E(!new, ==)>(c: Codec<E>, lines: seq<string>, wrote: seq<E>, keep: seq<string>) {
    && SplitsInto(Decoded(c, lines), wrote, Decoded(c, keep))
    && Garbage(c, keep) == Garbage(c, lines)
    && |wrote| + |keep| == |NonEmpty(lines)|
    && forall i :: 0 <= i < |keep| ==> IsLine(keep[i])
  }

  lemma ConservedBlank<E(!new)>(c: Codec<E>, lines: seq<string>, wrote: seq<E>, keep: seq<string>)
    requires Conserved(c, lines, wrote, keep)
    ensures Conserved(c, lines + [""], wrote, keep)
  {
    DecodedPush(c, lines, "");
    assert (lines + [""])[..|lines|] == lines;
    assert Decoded(c, lines + [""]) == Decoded(c, lines) && Garbage(c, lines + [""]) == Garbage(c, lines);
    assert NonEmpty(lines + [""]) == NonEmpty(lines);
  }

  lemma ConservedGarbage<E(!new)>(c: Codec<E>, lines: seq<string>, wrote: seq<E>, keep: seq<string>, l: string)
    requires Conserved(c, lines, wrote, keep) && IsLine(l) && c.unmarshal(l).None?
    ensures Conserved(c, lines + [l], wrote, keep + [l])
  {
    DecodedPush(c, lines, l);
    DecodedPush(c, keep, l);
    assert (lines + [l])[..|lines|] == lines;
    assert Decoded(c, lines + [l]) == Decoded(c, lines) && Decoded(c, keep + [l]) == Decoded(c, keep);
  }

  lemma ConservedEvent<E(!new)>(c: Codec<E>, lines: seq<string>, wrote: seq<E>, keep: seq<string>, l: string)
    requires c.Faithful() && Conserved(c, lines, wrote, keep) && IsLine(l) && c.unmarshal(l).Some?
    ensures Conserved(c, lines + [l], wrote + [c.unmarshal(l).value], keep)
    ensures Conserved(c, lines + [l], wrote, keep + [Keep(c, l)])
  {
    DecodedPush(c, lines, l);
    KeptPush(c, keep, l);
    SplitsPush(Decoded(c, lines), wrote, Decoded(c, keep), c.unmarshal(l).value);
    assert (lines + [l])[..|lines|] == lines;
  }

  // What one more line adds to what is written and to what is kept.
  lemma ReplayedPush<E(!new)>(c: Codec<E>, front: seq<string>, l: string, fails: nat -> bool)
    ensures var wrote, kept := Replayed(c, front, fails), Retained(c, front, fails);
            var wrote', kept' := Replayed(c, front + [l], fails), Retained(c, front + [l], fails);
            && (l == "" ==> wrote' == wrote && kept' == kept)
            && (l != "" && c.unmarshal(l).None? ==> wrote' == wrote && kept' == kept + [l])
            && (l != "" && c.unmarshal(l).Some? ==>
                  if fails(|front|) then wrote' == wrote && kept' == kept + [Keep(c, l)]
                  else wrote' == wrote + [c.unmarshal(l).value] && kept' == kept)
  {
    assert (front + [l])[..|front|] == front;
  }

  // The lines whose events a replay writes, and the lines that it keeps.
  function SentLines<E(!new)>(c: Codec<E>, lines: seq<string>, fails: nat -> bool): seq<string> {
    if |lines| == 0 then []
    else
      var i := |lines| - 1;
      SentLines(c, lines[..i], fails) + (if lines[i] != "" && Replays(c, lines[i], fails(i)) then [lines[i]] else [])
  }

  function KeptLines<E(!new)>(c: Codec<E>, lines: seq<string>, fails: nat -> bool): seq<string> {
    if |lines| == 0 then []
    else
      var i := |lines| - 1;
      KeptLines(c, lines[..i], fails) + (if lines[i] == "" || Replays(c, lines[i], fails(i)) then [] else [lines[i]])
  }

  // The non-empty lines are split, in order, into `sent` and `kept`; what is written are
  // the events of the one, what goes back are the other, line by line.
  predicate Traced<E(!new, ==)>(c: Codec<E>, lines: seq<string>, wrote: seq<E>, keep: seq<string>,
                                sent: seq<string>, kept: seq<string>) {
    && SplitsInto(NonEmpty(lines), sent, kept)
    && |wrote| == |sent| && (forall i :: 0 <= i < |sent| ==> c.unmarshal(sent[i]) == Some(wrote[i]))
    && |keep| == |kept| && (forall i :: 0 <= i < |kept| ==> keep[i] == Keep(c, kept[i]))
  }

  ghost predicate Traceable<E(!new)>(c: Codec<E>, lines: seq<string>, wrote: seq<E>, keep: seq<string>) {
    exists sent, kept :: Traced(c, lines, wrote, keep, sent, kept)
  }

  lemma TracedPush<E(!new)>(c: Codec<E>, lines: seq<string>, wrote: seq<E>, keep: seq<string>,
                            sent: seq<string>, kept: seq<string>, l: string)
    requires Traced(c, lines, wrote, keep, sent, kept)
    ensures l == "" ==> Traced(c, lines + [l], wrote, keep, sent, kept)
    ensures l != "" ==> Traced(c, lines + [l], wrote, keep + [Keep(c, l)], sent, kept + [l])
    ensures l != "" && c.unmarshal(l).Some? ==>
              Traced(c, lines + [l], wrote + [c.unmarshal(l).value], keep, sent + [l], kept)
  {
    assert (lines + [l])[..|lines|] == lines;
    assert NonEmpty(lines + [l]) == if l == "" then NonEmpty(lines) else NonEmpty(lines) + [l];
    SplitsPush(NonEmpty(lines), sent, kept, l);
  }

  // The replay does not reorder: written and retained lines keep the order they had,
  // readable or not.
  lemma {:induction false} ReplayTraces<E(!new)>(c: Codec<E>, lines: seq<string>, fails: nat -> bool)
    ensures Traced(c, lines, Replayed(c, lines, fails), Retained(c, lines, fails),
                   SentLines(c, lines, fails), KeptLines(c, lines, fails))
  {
    if |lines| > 0 {
      var n := |lines| - 1;
      var front, l := lines[..n], lines[n];
      ReplayTraces(c, front, fails);
      assert lines == front + [l];
      TracedPush(c, front, Replayed(c, front, fails), Retained(c, front, fails),
                 SentLines(c, front, fails), KeptLines(c, front, fails), l);
      ReplayedPush(c, front, l, fails);
      LinesPush(c, front, l, fails);
    }
  }

  lemma LinesPush<E(!new)>(c: Codec<E>, front: seq<string>, l: string, fails: nat -> bool)
    ensures var sent, kept := SentLines(c, front, fails), KeptLines(c, front, fails);
            var sent', kept' := SentLines(c, front + [l], fails), KeptLines(c, front + [l], fails);
            if l == "" then sent' == sent && kept' == kept
            else if Replays(c, l, fails(|front|)) then sent' == sent + [l] && kept' == kept
            else sent' == sent && kept' == kept + [l]
  {
    assert (front + [l])[..|front|] == front;
  }

  lemma {:induction false} ReplayConservesEvents<E(!new)>(c: Codec<E>, lines: seq<string>, fails: nat -> bool)
    requires c.Faithful() && forall i :: 0 <= i < |lines| ==> NewlineFree(lines[i])
    ensures Conserved(c, lines, Replayed(c, lines, fails), Retained(c, lines, fails))
  {
    if |lines| > 0 {
      var front, l := lines[..|lines| - 1], lines[|lines| - 1];
      ReplayConservesEvents(c, front, fails);
      assert lines == front + [l];
      var wrote, kept := Replayed(c, front, fails), Retained(c, front, fails);
      ReplayedPush(c, front, l, fails);
      if l == "" {
        ConservedBlank(c, front, wrote, kept);
      } else if c.unmarshal(l).None? {
        ConservedGarbage(c, front, wrote, kept, l);
      } else {
        ConservedEvent(c, front, wrote, kept, l);
      }
    }
  }

  ghost predicate Ascending(idx: seq<nat>, n: nat) {
    && (forall k :: 0 <= k < |idx| ==> idx[k] < n)
    && forall k, k' :: 0 <= k < k' < |idx| ==> idx[k] < idx[k']
  }

  // The positions of the readable lines whose write does not fail, and their events.
  ghost predicate WritesAt<E(!new)>(c: Codec<E>, lines: seq<string>, fails: nat -> bool, idx: seq<nat>, wrote: seq<E>) {
    && Ascending(idx, |lines|)
    && (forall i :: 0 <= i < |lines| ==> (i in idx <==> lines[i] != "" && c.unmarshal(lines[i]).Some? && !fails(i)))
    && |wrote| == |idx| && forall k :: 0 <= k < |idx| ==> c.unmarshal(lines[idx[k]]) == Some(wrote[k])
  }

  lemma WritesPush<E(!new)>(c: Codec<E>, lines: seq<string>, fails: nat -> bool, idx: seq<nat>, wrote: seq<E>,
                            l: string)
    requires WritesAt(c, lines, fails, idx, wrote)
    ensures if l != "" && c.unmarshal(l).Some? && !fails(|lines|)
            then WritesAt(c, lines + [l], fails, idx + [|lines|], wrote + [c.unmarshal(l).value])
            else WritesAt(c, lines + [l], fails, idx, wrote)
  {
    assert forall i :: 0 <= i < |lines| ==> (lines + [l])[i] == lines[i];
  }

  /** Which events are written: those of the readable lines whose write does not fail, in
      order, and no others.
   */
  lemma {:induction false} ReplayWrites<E(!new)>(c: Codec<E>, lines: seq<string>, fails: nat -> bool)
    returns (idx: seq<nat>)
    ensures WritesAt(c, lines, fails, idx, Replayed(c, lines, fails))
    decreases |lines|
  {
    if |lines| == 0 {
      idx := [];
    } else {
      var front, l := lines[..|lines| - 1], lines[|lines| - 1];
      idx := ReplayWrites(c, front, fails);
      WritesPush(c, front, fails, idx, Replayed(c, front, fails), l);
      ReplayedPush(c, front, l, fails);
      assert lines == front + [l];
      if l != "" && c.unmarshal(l).Some? && !fails(|front|) { idx := idx + [|front|]; }
    }
  }

  // The text of a line that goes back: as it is or, where it is readable and marshals
  // again, the event's new text.
  predicate GoesBackAs<E(!new)>(c: Codec<E>, l: string, kept: string) {
    kept == if c.unmarshal(l).None? || c.marshal(c.unmarshal(l).value).None? then l
            else c.marshal(c.unmarshal(l).value).value
  }

  ghost predicate KeepsAt<E(!new)>(c: Codec<E>, lines: seq<string>, fails: nat -> bool, idx: seq<nat>,
                                   keep: seq<string>) {
    && Ascending(idx, |lines|)
    && (forall i :: 0 <= i < |lines| ==> (i in idx <==> lines[i] != "" && (c.unmarshal(lines[i]).None? || fails(i))))
    && |keep| == |idx| && forall k :: 0 <= k < |idx| ==> GoesBackAs(c, lines[idx[k]], keep[k])
  }

  lemma KeepsPush<E(!new)>(c: Codec<E>, lines: seq<string>, fails: nat -> bool, idx: seq<nat>, keep: seq<string>,
                           l: string)
    requires KeepsAt(c, lines, fails, idx, keep)
    ensures if l != "" && (c.unmarshal(l).None? || fails(|lines|))
            then KeepsAt(c, lines + [l], fails, idx + [|lines|], keep + [Keep(c, l)])
            else KeepsAt(c, lines + [l], fails, idx, keep)
  {
    assert forall i :: 0 <= i < |lines| ==> (lines + [l])[i] == lines[i];
  }

  /** Which lines are kept: every other non-empty one, in order. */
  lemma {:induction false} ReplayKeeps<E(!new)>(c: Codec<E>, lines: seq<string>, fails: nat -> bool)
    returns (idx: seq<nat>)
    ensures KeepsAt(c, lines, fails, idx, Retained(c, lines, fails))
    decreases |lines|
  {
    if |lines| == 0 {
      idx := [];
    } else {
      var front, l := lines[..|lines| - 1], lines[|lines| - 1];
      idx := ReplayKeeps(c, front, fails);
      KeepsPush(c, front, fails, idx, Retained(c, front, fails), l);
      ReplayedPush(c, front, l, fails);
      assert lines == front + [l];
      if l != "" && (c.unmarshal(l).None? || fails(|front|)) { idx := idx + [|front|]; }
    }
  }

  /** For any lines and any pattern of failing writes: the replay splits the non-empty
      lines, in order, into those whose events it writes and those that it keeps, keeps
      every unreadable line as it is, and the two counts add up. */
  lemma ReplaySplits<E(!new)>(c: Codec<E>, lines: seq<string>, fails: nat -> bool)
    requires c.Faithful() && forall i :: 0 <= i < |lines| ==> NewlineFree(lines[i])
    ensures Conserved(c, lines, Replayed(c, lines, fails), Retained(c, lines, fails))
    ensures Traceable(c, lines, Replayed(c, lines, fails), Retained(c, lines, fails))
  {
    ReplayConservesEvents(c, lines, fails);
    ReplayTraces(c, lines, fails);
  }

  lemma {:induction false} LinesNewlineFree(s: string)
    ensures forall i :: 0 <= i < |Lines(s)| ==> NewlineFree(Lines(s)[i])
    decreases |s|
  {
    if s != "" {
      var k := NewlineAt(s);
      if k < |s| { LinesNewlineFree(s[k + 1..]); }
    }
  }

  function EventsIn<E(!new)>(c: Codec<E>, text: string): seq<E> {
    Decoded(c, Lines(text))
  }

  /** The same for the files: after a replay that is not an error, the old WAL's lines,
      and so its events, are split in order between the database and the new WAL. */
  lemma ReplayConserves<E(!new)>(c: Codec<E>, s: State<E>, f: ReplayFaults)
    requires c.Faithful() && s.Valid() && ReplayStep(c, s, f).1 != ReplayError
    ensures var (t, r) := ReplayStep(c, s, f);
            && s.db <= t.db
            && SplitsInto(EventsIn(c, OnPath(s)), t.db[|s.db|..], EventsIn(c, OnPath(t)))
            && Traceable(c, Lines(OnPath(s)), t.db[|s.db|..], Lines(OnPath(t)))
            && Garbage(c, Lines(OnPath(t))) == Garbage(c, Lines(OnPath(s)))
            && (r.Partial? ==> r.total == |NonEmpty(Lines(OnPath(s)))| && r.replayed == |t.db| - |s.db|
                               && r.failed == |Lines(OnPath(t))| && r.failed + r.replayed == r.total)
  {
    var (t, r) := ReplayStep(c, s, f);
    var lines := Lines(OnPath(s));
    LinesNewlineFree(OnPath(s));
    if s.path.Some? && OnPath(s) != "" {
      ReplaySplits(c, lines, f.write);
      var keep := Retained(c, lines, f.write);
      assert t.db[|s.db|..] == Replayed(c, lines, f.write);
      if |keep| > 0 { LinesOfJoin(keep); }
      assert r.Done? ==> keep == [] && OnPath(t) == "";
    } else {
      assert t.db[|s.db|..] == [];
      assert Traced(c, lines, [], [], [], []);
    }
  }

  // ------------------------------------------------------------------- no loss

  // The events that sit in finished lines of the WAL.
  function Durable<E(!new)>(c: Codec<E>, s: State<E>): seq<E>
    requires s.Valid()
  {
    EventsIn(c, Settled(OnPath(s)))
  }

  lemma DurableInEvents<E(!new)>(c: Codec<E>, text: string, e: E)
    requires e in EventsIn(c, Settled(text))
    ensures e in EventsIn(c, text)
  {
    SettledPlusTail(text);
    LinesAppend(Settled(text), Tail(text));
    DecodedAppend(c, Lines(Settled(text)), Lines(Tail(text)));
  }

  lemma {:induction false} DecodedAppend<E(!new)>(c: Codec<E>, a: seq<string>, b: seq<string>)
    ensures Decoded(c, a + b) == Decoded(c, a) + Decoded(c, b)
    decreases |b|
  {
    if |b| == 0 {
      assert a + b == a;
    } else {
      var front := b[..|b| - 1];
      assert a + b == (a + front) + [b[|b| - 1]] && b == front + [b[|b| - 1]];
      DecodedPush(c, a + front, b[|b| - 1]);
      DecodedPush(c, front, b[|b| - 1]);
      DecodedAppend(c, a, front);
    }
  }

  lemma SettledAppend(text: string, line: string)
    requires IsLine(line)
    ensures Settled(text + (line + "\n")) == Settled(text) + (Tail(text) + line + "\n" + "")
  {
    SettledPlusTail(text);
    NewlineSettles(text + line);
    assert text + (line + "\n") == (text + line) + "\n";
    assert Tail(text) + line + "\n" + "" == Tail(text) + (line + "\n");
    Regroup(Settled(text), Tail(text), line + "\n");
  }

  // A finished line after an unfinished one: the two become one line.
  lemma AppendedLine(text: string, line: string)
    requires IsLine(line)
    ensures Lines(Settled(text + (line + "\n"))) == Lines(Settled(text)) + [Tail(text) + line]
  {
    var merged := Tail(text) + line;
    SettledPlusTail(text);
    SettledAppend(text, line);
    LinesAppend(Settled(text), merged + "\n" + "");
    LinesCons(merged, "");
  }

  lemma AppendedEvent<E(!new)>(c: Codec<E>, text: string, line: string)
    requires IsLine(line)
    ensures EventsIn(c, Settled(text + (line + "\n"))) == EventsIn(c, Settled(text))
            + (if c.unmarshal(Tail(text) + line).Some? then [c.unmarshal(Tail(text) + line).value] else [])
  {
    AppendedLine(text, line);
    DecodedPush(c, Lines(Settled(text)), Tail(text) + line);
  }

  lemma AckedAppendPath<E(!new)>(c: Codec<E>, s: State<E>, e: E, f: Fallback)
    requires s.Valid() && LogSync(c, s, e, true, f).1
    ensures c.marshal(e).Some?
    ensures OnPath(LogSync(c, s, e, true, f).0)
            == if Stale(s) then OnPath(s) else OnPath(s) + (c.marshal(e).value + "\n")
  {
  }

  /** What a fallback append that returns nil has achieved: the event is the WAL's
      next one exactly when the handle still is the file at the path and the line,
      glued to whatever unfinished bytes precede it, reads back as the event. */
  lemma AckedAppendIff<E(!new)>(c: Codec<E>, s: State<E>, e: E, f: Fallback, t: State<E>, text: string, line: string)
    requires c.Faithful() && s.Valid() && LogSync(c, s, e, true, f) == (t, true)
    requires text == OnPath(s) && c.marshal(e) == Some(line)
    ensures EventsIn(c, Settled(OnPath(t))) == EventsIn(c, Settled(text)) + [e]
       <==> !Stale(s) && c.unmarshal(Tail(text) + line) == Some(e)
  {
    AckedAppendPath(c, s, e, f);
    var before, after := EventsIn(c, Settled(text)), EventsIn(c, Settled(OnPath(t)));
    if Stale(s) {
      assert |after| == |before|;
    } else {
      var merged := Tail(text) + line;
      AppendedEvent(c, text, line);
      assert after == before + (if c.unmarshal(merged).Some? then [c.unmarshal(merged).value] else []);
      if after == before + [e] { assert after[|before|] == e; }
    }
  }

  datatype Op<E> = LogEvent(event: E, dbFails: bool, fallback: Fallback) | Replay(faults: ReplayFaults)

  function After<E(!new)>(c: Codec<E>, s: State<E>, op: Op<E>): (t: State<E>)
    requires s.Valid()
    ensures t.Valid()
  {
    match op
    case LogEvent(e, dbFails, f) => LogSync(c, s, e, dbFails, f).0
    case Replay(f) => ReplayStep(c, s, f).0
  }

  function Run<E(!new)>(c: Codec<E>, s: State<E>, ops: seq<Op<E>>): (t: State<E>)
    requires s.Valid()
    ensures t.Valid()
    decreases |ops|
  {
    if |ops| == 0 then s else Run(c, After(c, s, ops[0]), ops[1..])
  }

  // The events whose Log returned nil.
  function Acked<E(!new)>(c: Codec<E>, s: State<E>, ops: seq<Op<E>>): seq<E>
    requires s.Valid()
    decreases |ops|
  {
    if |ops| == 0 then []
    else
      (match ops[0]
       case LogEvent(e, dbFails, f) => if LogSync(c, s, e, dbFails, f).1 then [e] else []
       case Replay(_) => [])
      + Acked(c, After(c, s, ops[0]), ops[1..])
  }

  // Each acknowledged fallback goes through a current handle onto a finished line.
  predicate CleanAppends<E(!new)>(c: Codec<E>, s: State<E>, ops: seq<Op<E>>)
    requires s.Valid()
    decreases |ops|
  {
    |ops| == 0
    || (&& (ops[0].LogEvent? && ops[0].dbFails && LogSync(c, s, ops[0].event, true, ops[0].fallback).1 ==>
              !Stale(s) && Terminated(OnPath(s)))
        && CleanAppends(c, After(c, s, ops[0]), ops[1..]))
  }

  ghost predicate Safe<E(!new)>(c: Codec<E>, s: State<E>, e: E)
    requires s.Valid()
  {
    e in s.db || e in Durable(c, s)
  }

  lemma LogKeepsSafe<E(!new)>(c: Codec<E>, s: State<E>, x: E, dbFails: bool, f: Fallback, e: E)
    requires c.Faithful() && s.Valid() && Safe(c, s, e)
    ensures Safe(c, LogSync(c, s, x, dbFails, f).0, e)
  {
    if dbFails && c.marshal(x).Some? && !(s.handle.None? && f.OpenFails?) && !Stale(s) {
      var line := c.marshal(x).value;
      if f.WriteFails? {
        TailAppend(OnPath(s), line[..if f.bytes < |line| then f.bytes else |line|]);
      } else {
        AppendedEvent(c, OnPath(s), line);
      }
    }
  }

  lemma {:induction false} SplitMember<T>(whole: seq<T>, a: seq<T>, b: seq<T>, x: T)
    requires SplitsInto(whole, a, b) && x in whole
    ensures x in a || x in b
  {
    var n := |whole| - 1;
    if x == whole[n] {
    } else if |a| > 0 && a[|a| - 1] == whole[n] && SplitsInto(whole[..n], a[..|a| - 1], b) {
      SplitMember(whole[..n], a[..|a| - 1], b, x);
    } else {
      SplitMember(whole[..n], a, b[..|b| - 1], x);
    }
  }

  lemma TerminatedIsSettled(text: string)
    requires Terminated(text)
    ensures Settled(text) == text && Tail(text) == ""
  {
  }

  lemma ReplayKeepsSafe<E(!new)>(c: Codec<E>, s: State<E>, f: ReplayFaults, e: E)
    requires c.Faithful() && s.Valid() && Safe(c, s, e)
    ensures Safe(c, ReplayStep(c, s, f).0, e)
  {
    var (t, r) := ReplayStep(c, s, f);
    if r != ReplayError && e !in s.db {
      DurableInEvents(c, OnPath(s), e);
      ReplayConserves(c, s, f);
      SplitMember(EventsIn(c, OnPath(s)), t.db[|s.db|..], EventsIn(c, OnPath(t)), e);
      if s.path.Some? && OnPath(s) != "" {
        JoinTerminated(Retained(c, Lines(OnPath(s)), f.write));
        TerminatedIsSettled(OnPath(t));
      }
    }
  }

  lemma AckedIsSafe<E(!new)>(c: Codec<E>, s: State<E>, e: E, dbFails: bool, f: Fallback)
    requires c.Faithful() && s.Valid() && LogSync(c, s, e, dbFails, f).1
    requires dbFails ==> !Stale(s) && Terminated(OnPath(s))
    ensures Safe(c, LogSync(c, s, e, dbFails, f).0, e)
  {
    if dbFails {
      AckedAppendPath(c, s, e, f);
      var line, before := c.marshal(e).value, Durable(c, s);
      AckedAppendIff(c, s, e, f, LogSync(c, s, e, true, f).0, OnPath(s), line);
      assert Tail(OnPath(s)) + line == line by { TerminatedIsSettled(OnPath(s)); }
      assert (before + [e])[|before|] == e;
    }
  }

  lemma {:induction false} RunKeepsSafe<E(!new)>(c: Codec<E>, s: State<E>, ops: seq<Op<E>>, e: E)
    requires c.Faithful() && s.Valid()
    requires Safe(c, s, e) || (e in Acked(c, s, ops) && CleanAppends(c, s, ops))
    ensures Safe(c, Run(c, s, ops), e)
    decreases |ops|
  {
    if |ops| > 0 {
      var t := After(c, s, ops[0]);
      match ops[0] {
      case LogEvent(x, dbFails, f) =>
        if Safe(c, s, e) {
          LogKeepsSafe(c, s, x, dbFails, f, e);
        } else if LogSync(c, s, x, dbFails, f).1 && x == e {
          AckedIsSafe(c, s, x, dbFails, f);
        }
      case Replay(f) =>
        if Safe(c, s, e) { ReplayKeepsSafe(c, s, f, e); }
      }
      RunKeepsSafe(c, t, ops[1..], e);
    }
  }

  /** No loss: in every run, with any failures of the database, the WAL and the
      replays, an event whose Log returned nil is in the database or in the WAL,
      provided that each acknowledged fallback append went through a handle that
      is current and onto a file that ends in a finished line. */
  lemma AckedNeverLost<E(!new)>(c: Codec<E>, ops: seq<Op<E>>, e: E)
    requires c.Faithful() && CleanAppends(c, State([], [], None, None), ops)
    requires e in Acked(c, State([], [], None, None), ops)
    ensures var t := Run(c, State([], [], None, None), ops);
            e in t.db || e in EventsIn(c, OnPath(t))
  {
    var start: State<E> := State([], [], None, None);
    RunKeepsSafe(c, start, ops, e);
    var t := Run(c, start, ops);
    if e !in t.db { DurableInEvents(c, OnPath(t), e); }
  }

  // ------------------------------------------------------------ whole writes

  // A failing append leaves no part of its line behind.
  predicate WholeWrites<E>(ops: seq<Op<E>>) {
    forall i :: 0 <= i < |ops| && ops[i].LogEvent? && ops[i].fallback.WriteFails? ==> ops[i].fallback.bytes == 0
  }

  // Each acknowledged fallback goes through a handle that is current.
  predicate CurrentAppends<E(!new)>(c: Codec<E>, s: State<E>, ops: seq<Op<E>>)
    requires s.Valid()
    decreases |ops|
  {
    |ops| == 0
    || (&& (ops[0].LogEvent? && ops[0].dbFails && LogSync(c, s, ops[0].event, true, ops[0].fallback).1 ==> !Stale(s))
        && CurrentAppends(c, After(c, s, ops[0]), ops[1..]))
  }

  predicate AllTerminated<E>(s: State<E>) {
    forall i :: 0 <= i < |s.files| ==> Terminated(s.files[i])
  }

  lemma OpenedTerminated<E>(s: State<E>)
    requires s.Valid() && AllTerminated(s)
    ensures AllTerminated(Opened(s))
  {
  }

  lemma WrittenTerminated<E>(s: State<E>, bytes: string)
    requires s.Valid() && s.handle.Some? && AllTerminated(s) && Terminated(bytes)
    ensures AllTerminated(Written(s, bytes))
  {
    var was := s.files[s.handle.value];
    if bytes == "" { assert was + bytes == was; }
  }

  lemma WholeWriteTerminated<E(!new)>(c: Codec<E>, s: State<E>, op: Op<E>)
    requires s.Valid() && AllTerminated(s) && (op.LogEvent? && op.fallback.WriteFails? ==> op.fallback.bytes == 0)
    ensures AllTerminated(After(c, s, op))
  {
    match op
    case LogEvent(e, dbFails, f) =>
      if dbFails && c.marshal(e).Some? && !(s.handle.None? && f.OpenFails?) {
        var line := c.marshal(e).value;
        assert line[..0] == "";
        OpenedTerminated(s);
        WrittenTerminated(Opened(s), if f.WriteFails? then "" else line + "\n");
      }
    case Replay(f) =>
      JoinTerminated(Retained(c, Lines(OnPath(s)), f.write));
  }

  lemma {:induction false} WholeWritesAreClean<E(!new)>(c: Codec<E>, s: State<E>, ops: seq<Op<E>>)
    requires s.Valid() && AllTerminated(s) && WholeWrites(ops) && CurrentAppends(c, s, ops)
    ensures CleanAppends(c, s, ops)
    decreases |ops|
  {
    if |ops| > 0 {
      WholeWriteTerminated(c, s, ops[0]);
      WholeWritesAreClean(c, After(c, s, ops[0]), ops[1..]);
    }
  }

  /** When failing appends leave nothing behind, a current handle is all it takes. */
  lemma CurrentHandleNeverLoses<E(!new)>(c: Codec<E>, ops: seq<Op<E>>, e: E)
    requires c.Faithful() && WholeWrites(ops) && CurrentAppends(c, State([], [], None, None), ops)
    requires e in Acked(c, State([], [], None, None), ops)
    ensures var t := Run(c, State([], [], None, None), ops);
            e in t.db || e in EventsIn(c, OnPath(t))
  {
    WholeWritesAreClean(c, State([], [], None, None), ops);
    AckedNeverLost(c, ops, e);
  }

  // Fall back, replay partially, fall back again: the handle is stale by then.
  function StaleRun<E(!new)>(a: E, b: E): seq<Op<E>> {
    [LogEvent(a, true, Appended),
     Replay(ReplayFaults(false, _ => true, false, false, false)),
     LogEvent(b, true, Appended)]
  }

  lemma FirstFallback<E(!new)>(c: Codec<E>, a: E)
    requires c.marshal(a).Some?
    ensures LogSync(c, State([], [], None, None), a, true, Appended)
            == (State([], [c.marshal(a).value + "\n"], Some(0), Some(0)), true)
  {
    assert "" + (c.marshal(a).value + "\n") == c.marshal(a).value + "\n";
    assert ([] + [""])[0 := c.marshal(a).value + "\n"] == [c.marshal(a).value + "\n"];
  }

  lemma PartialReplay<E(!new)>(c: Codec<E>, a: E, f: ReplayFaults)
    requires c.Faithful() && c.marshal(a).Some? && !f.read && !f.tmp && !f.rename && f.write(0)
    ensures var text := c.marshal(a).value + "\n";
            && ReplayStep(c, State([], [text], Some(0), Some(0)), f)
               == (State([], [text, text], Some(1), Some(0)), Partial(1, 1, 0))
            && EventsIn(c, text) == [a]
  {
    var line := c.marshal(a).value;
    OneLineText(c, a, line, f.write);
    var text := line + "\n";
    var s: State<E> := State([], [text], Some(0), Some(0));
    assert OnPath(s) == text;
    assert [text] + [text] == [text, text];
  }

  // A text of one line whose write fails.
  lemma OneLineText<E(!new)>(c: Codec<E>, a: E, line: string, write: nat -> bool)
    requires c.Faithful() && c.marshal(a) == Some(line) && write(0)
    ensures Lines(line + "\n") == [line] && JoinLines([line]) == line + "\n"
    ensures Retained(c, [line], write) == [line] && Replayed(c, [line], write) == []
    ensures EventsIn(c, line + "\n") == [a]
  {
    assert line + "\n" == line + "\n" + "";
    LinesCons(line, "");
    assert Lines("") == [];
    assert [line][..0] == [] && [line][1..] == [];
    DecodedPush(c, [], line);
    assert [] + [line] == [line];
  }

  /** Without that proviso an acknowledged event can be lost: the second event is
      acknowledged, and is in neither the database nor the WAL. */
  lemma StaleHandleLoses<E(!new)>(c: Codec<E>, a: E, b: E)
    requires c.Faithful() && c.marshal(a).Some? && c.marshal(b).Some? && a != b
    ensures var ops := StaleRun(a, b);
            var start: State<E> := State([], [], None, None);
            var t := Run(c, start, ops);
            && b in Acked(c, start, ops)
            && b !in t.db && b !in EventsIn(c, OnPath(t))
  {
    var ops := StaleRun(a, b);
    var s0: State<E> := State([], [], None, None);
    FirstFallback(c, a);
    var s1 := After(c, s0, ops[0]);
    PartialReplay(c, a, ops[1].faults);
    var s2 := After(c, s1, ops[1]);
    var s3 := After(c, s2, ops[2]);
    AckedAppendPath(c, s2, b, Appended);
    var tail1, tail2 := ops[1..], ops[2..];
    assert tail1[1..] == tail2 && tail2[1..] == [];
    assert Run(c, s0, ops) == Run(c, s1, tail1) == Run(c, s2, tail2) == s3;
    assert Acked(c, s2, tail2) == [b] + Acked(c, s3, []);
    assert Acked(c, s0, ops) == [a] + Acked(c, s1, tail1);
  }

  // A torn append, and a whole one behind it.
  function GluedRun<E(!new)>(a: E, b: E, k: nat): seq<Op<E>> {
    [LogEvent(a, true, WriteFails(k)), LogEvent(b, true, Appended)]
  }

  lemma TornAppend<E(!new)>(c: Codec<E>, a: E, k: nat)
    requires c.marshal(a).Some? && k <= |c.marshal(a).value|
    ensures LogSync(c, State([], [], None, None), a, true, WriteFails(k))
         == (State([], [c.marshal(a).value[..k]], Some(0), Some(0)), false)
  {
    var torn := c.marshal(a).value[..k];
    assert "" + torn == torn;
    assert ([] + [""])[0 := torn] == [torn];
  }

  lemma GluedAppend<E(!new)>(c: Codec<E>, torn: string, b: E)
    requires c.marshal(b).Some?
    ensures LogSync(c, State([], [torn], Some(0), Some(0)), b, true, Appended)
         == (State([], [torn + (c.marshal(b).value + "\n")], Some(0), Some(0)), true)
  {
    assert [torn][0 := torn + (c.marshal(b).value + "\n")] == [torn + (c.marshal(b).value + "\n")];
  }

  lemma GluedText<E(!new)>(c: Codec<E>, torn: string, line: string)
    requires NewlineFree(torn) && IsLine(line) && c.unmarshal(torn + line) == None
    ensures EventsIn(c, torn + (line + "\n")) == []
  {
    var merged := torn + line;
    Regroup(torn, line, "\n");
    assert merged + "\n" == merged + "\n" + "";
    LinesCons(merged, "");
    assert Lines("") == [];
    DecodedPush(c, [], merged);
    assert [] + [merged] == [merged];
  }

  /** The handle may be current: an event that is acknowledged behind a torn line is lost
      when the two, glued together, do not read back.
   */
  lemma GluedLineLoses<E(!new)>(c: Codec<E>, a: E, b: E, k: nat)
    requires c.Faithful() && c.marshal(a).Some? && c.marshal(b).Some? && 0 < k <= |c.marshal(a).value|
    requires c.unmarshal(c.marshal(a).value[..k] + c.marshal(b).value) == None
    ensures var ops := GluedRun(a, b, k);
            var start: State<E> := State([], [], None, None);
            var t := Run(c, start, ops);
            b in Acked(c, start, ops) && b !in t.db && b !in EventsIn(c, OnPath(t))
  {
    var ops := GluedRun(a, b, k);
    var s0: State<E> := State([], [], None, None);
    var torn, line := c.marshal(a).value[..k], c.marshal(b).value;
    TornAppend(c, a, k);
    GluedAppend(c, torn, b);
    var s1 := After(c, s0, ops[0]);
    var s2 := After(c, s1, ops[1]);
    assert ops[1..][1..] == [];
    assert Run(c, s0, ops) == Run(c, s1, ops[1..]) == s2;
    assert Acked(c, s0, ops) == [] + Acked(c, s1, ops[1..]);
    assert Acked(c, s1, ops[1..]) == [b] + Acked(c, s2, []);
    GluedText(c, torn, line);
  }
}
