/** Splitting a command line into its first word and the rest, as the dispatcher
    does it, against the plain list of blank-separated words.
    A `char` is a code point.
 */
module CommandWords {
  import opened TextRuns

  predicate IsBlank(c: char) {
    c == ' ' || c == '\t'
  }

  // Unicode white space, as TrimSpace and Fields see it.
  predicate IsSpace(c: char) {
    var n := c as int;
    || 9 <= n <= 13 || n == 32 || n == 0x85 || n == 0xA0 || n == 0x1680 || 0x2000 <= n <= 0x200A
    || n == 0x2028 || n == 0x2029 || n == 0x202F || n == 0x205F || n == 0x3000
  }

  predicate IsWord(w: string) {
    w != "" && forall i :: 0 <= i < |w| ==> !IsBlank(w[i])
  }

  function Words(s: string): seq<string> {
    Runs(IsBlank, s)
  }

  /** The words of a line are its longest stretches without a blank, in order. */
  lemma WordsIff(s: string, ws: seq<string>)
    ensures AreRuns(IsBlank, s, ws) <==> ws == Words(s)
  {
    RunsIff(IsBlank, s, ws);
  }

  function TrimLeft(s: string): string {
    if s != "" && IsBlank(s[0]) then TrimLeft(s[1..]) else s
  }

  function FirstBlank(s: string): (i: nat)
    ensures i <= |s|
    ensures forall j :: 0 <= j < i ==> !IsBlank(s[j])
    ensures i < |s| ==> IsBlank(s[i])
  {
    if s == "" || IsBlank(s[0]) then 0 else 1 + FirstBlank(s[1..])
  }

  function SplitFirstWord(input: string): (string, string) {
    var s := TrimLeft(input);
    if s == "" then ("", "")
    else
      var i := FirstBlank(s);
      if i == |s| then (s, "") else (s[..i], TrimLeft(s[i + 1..]))
  }

  lemma {:induction false} TrimLeftKeepsWords(s: string)
    ensures Words(TrimLeft(s)) == Words(s)
    ensures TrimLeft(s) == "" || !IsBlank(TrimLeft(s)[0])
  {
    if s != "" && IsBlank(s[0]) { TrimLeftKeepsWords(s[1..]); }
  }

  lemma WordThenRest(w: string, r: string)
    requires IsWord(w) && (r == "" || IsBlank(r[0]))
    ensures Words(w + r) == [w] + Words(r)
  {
    RunThenRest(IsBlank, w, r);
  }

  /** The split takes off exactly the first word. */
  lemma SplitIsFirstWord(s: string)
    ensures var (first, rest) := SplitFirstWord(s);
            if first == "" then Words(s) == [] && rest == ""
            else IsWord(first) && Words(s) == [first] + Words(rest)
  {
    TrimLeftKeepsWords(s);
    var t := TrimLeft(s);
    if t != "" {
      var i := FirstBlank(t);
      assert t == t[..i] + t[i..];
      WordThenRest(t[..i], t[i..]);
      if i < |t| {
        assert t[i..][1..] == t[i + 1..];
        TrimLeftKeepsWords(t[i + 1..]);
      } else {
        assert t[..i] == t;
      }
    }
  }

  lemma SingleWord(w: string)
    requires IsWord(w)
    ensures Words(w) == [w]
  {
    assert w + "" == w;
    WordThenRest(w, "");
  }

  lemma WordsJoin(a: string, b: string)
    ensures Words(a + " " + b) == Words(a) + Words(b)
  {
    assert a + " " + b == a + (" " + b);
    assert (" " + b)[1..] == b;
    RunsAppend(IsBlank, a, " " + b);
  }
}
