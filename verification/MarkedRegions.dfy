/** Sequences with marked regions whose contents are replaced wholesale: two regions,
    one replaced after the other, and what doing so twice yields.
 */
module MarkedRegions {

  datatype Marks<!T> = Marks(begin: T -> bool, end: T -> bool)

  // The first BEGIN, and the first END after it.
  ghost predicate IsRegion<T>(s: seq<T>, m: Marks<T>, b: nat, e: nat) {
    && b < e < |s|
    && m.begin(s[b]) && (forall i :: 0 <= i < b ==> !m.begin(s[i]))
    && m.end(s[e]) && (forall i :: b < i < e ==> !m.end(s[i]))
  }

  ghost predicate NoBegin<T>(s: seq<T>, m: Marks<T>) {
    forall i :: 0 <= i < |s| ==> !m.begin(s[i])
  }

  ghost predicate NoEnd<T>(s: seq<T>, m: Marks<T>) {
    forall i :: 0 <= i < |s| ==> !m.end(s[i])
  }

  ghost predicate Harmless<T>(s: seq<T>, m: Marks<T>) {
    NoBegin(s, m) && NoEnd(s, m)
  }

  // Nothing is a mark of both kinds.
  ghost predicate Apart<T(!new)>(m: Marks<T>, n: Marks<T>) {
    && (forall t :: m.begin(t) ==> !n.begin(t) && !n.end(t))
    && (forall t :: m.end(t) ==> !n.begin(t) && !n.end(t))
  }

  // The marks stay; what is between them becomes the fill.
  function Replaced<T>(s: seq<T>, b: nat, e: nat, fill: seq<T>): seq<T>
    requires b < e < |s|
  {
    s[..b + 1] + fill + s[e..]
  }

  predicate Filled<T(==)>(s: seq<T>, b: nat, e: nat, fill: seq<T>)
    requires b < e < |s|
  {
    s[b + 1..e] == fill
  }

  lemma RegionUnique<T>(s: seq<T>, m: Marks<T>, b: nat, e: nat, b': nat, e': nat)
    requires IsRegion(s, m, b, e) && IsRegion(s, m, b', e')
    ensures b == b' && e == e'
  {
  }

  // What is where after a replacement.
  lemma ReplacedAt<T>(s: seq<T>, b: nat, e: nat, fill: seq<T>)
    requires b < e < |s|
    ensures var out := Replaced(s, b, e, fill);
            var end := b + |fill| + 1;
            && |out| == end + |s| - e
            && (forall i :: 0 <= i <= b ==> out[i] == s[i])
            && (forall i :: b < i < end ==> out[i] == fill[i - b - 1])
            && (forall i :: end <= i < |out| ==> out[i] == s[i - end + e])
            && out[..b + 1] == s[..b + 1] && out[end..] == s[e..] && Filled(out, b, end, fill)
  {
  }

  // Another region in front of the replaced one is not affected.
  lemma EarlierRegionStays<T>(s: seq<T>, b: nat, e: nat, fill: seq<T>, n: Marks<T>, c: nat, f: nat)
    requires b < e < |s| && IsRegion(s, n, c, f) && f <= b
    ensures IsRegion(Replaced(s, b, e, fill), n, c, f)
  {
    ReplacedAt(s, b, e, fill);
  }

  // Another region behind the replaced one moves by the difference in length.
  lemma LaterRegionMoves<T>(s: seq<T>, b: nat, e: nat, fill: seq<T>, n: Marks<T>, c: nat, f: nat)
    requires b < e < |s| && IsRegion(s, n, c, f) && e <= c && NoBegin(fill, n)
    ensures IsRegion(Replaced(s, b, e, fill), n, c - e + b + |fill| + 1, f - e + b + |fill| + 1)
  {
    ReplacedAt(s, b, e, fill);
  }

  // --------------------------------------------- one region, then the other

  ghost predicate RefillsAt<T>(s: seq<T>, m: Marks<T>, x: seq<T>, n: Marks<T>, y: seq<T>,
                               b: nat, e: nat, c: nat, f: nat, out: seq<T>) {
    && IsRegion(s, m, b, e)
    && IsRegion(Replaced(s, b, e, x), n, c, f)
    && out == Replaced(Replaced(s, b, e, x), c, f, y)
  }

  ghost predicate Refills<T>(s: seq<T>, m: Marks<T>, x: seq<T>, n: Marks<T>, y: seq<T>, out: seq<T>) {
    exists b, e, c, f :: RefillsAt(s, m, x, n, y, b, e, c, f, out)
  }

  lemma RefillsUnique<T>(s: seq<T>, m: Marks<T>, x: seq<T>, n: Marks<T>, y: seq<T>, out: seq<T>, other: seq<T>)
    ensures Refills(s, m, x, n, y, out) && Refills(s, m, x, n, y, other) ==> out == other
  {
    if Refills(s, m, x, n, y, out) && Refills(s, m, x, n, y, other) {
      var b: nat, e: nat, c: nat, f: nat :| RefillsAt(s, m, x, n, y, b, e, c, f, out);
      var b': nat, e': nat, c': nat, f': nat :| RefillsAt(s, m, x, n, y, b', e', c', f', other);
      RegionUnique(s, m, b, e, b', e');
      RegionUnique(Replaced(s, b, e, x), n, c, f, c', f');
    }
  }

  // The first region of m is filled already.
  ghost predicate Current<T>(s: seq<T>, m: Marks<T>, x: seq<T>) {
    exists b, e :: IsRegion(s, m, b, e) && Filled(s, b, e, x)
  }

  // Both regions refilled, every other element as it was.
  function Refilled<T>(s: seq<T>, x: seq<T>, y: seq<T>, b: nat, e: nat, c: nat, f: nat): seq<T>
    requires b < e < |s| && c < f < |s| && (e < c || f < b)
  {
    if e < c then InOrder(s, x, y, b, e, c, f) else InOrder(s, y, x, c, f, b, e)
  }

  function InOrder<T>(s: seq<T>, x: seq<T>, y: seq<T>, b: nat, e: nat, c: nat, f: nat): seq<T>
    requires b < e < c < f < |s|
  {
    s[..b + 1] + x + s[e..c + 1] + y + s[f..]
  }

  // The second region behind the first one.
  lemma RefillsLater<T>(s: seq<T>, m: Marks<T>, x: seq<T>, n: Marks<T>, y: seq<T>, b: nat, e: nat, c: nat, f: nat)
    requires NoBegin(x, n) && IsRegion(s, m, b, e) && IsRegion(s, n, c, f) && e < c
    ensures var at := b + |x| + 1;
            RefillsAt(s, m, x, n, y, b, e, c - e + at, f - e + at, InOrder(s, x, y, b, e, c, f))
  {
    LaterRegionMoves(s, b, e, x, n, c, f);
    OrderedParts(s, x, y, b, e, c, f);
  }

  lemma OrderedParts<T>(s: seq<T>, x: seq<T>, y: seq<T>, b: nat, e: nat, c: nat, f: nat)
    requires b < e < c < f < |s|
    ensures Replaced(Replaced(s, b, e, x), c - e + b + |x| + 1, f - e + b + |x| + 1, y)
         == InOrder(s, x, y, b, e, c, f)
  {
    var mid := Replaced(s, b, e, x);
    var at := b + |x| + 1;
    assert mid[..c - e + at + 1] == s[..b + 1] + x + s[e..c + 1];
    assert mid[f - e + at..] == s[f..];
  }

  // The second region in front of the first one.
  lemma RefillsEarlier<T>(s: seq<T>, m: Marks<T>, x: seq<T>, n: Marks<T>, y: seq<T>, b: nat, e: nat, c: nat, f: nat)
    requires IsRegion(s, m, b, e) && IsRegion(s, n, c, f) && f < b
    ensures RefillsAt(s, m, x, n, y, b, e, c, f, InOrder(s, y, x, c, f, b, e))
  {
    var mid := Replaced(s, b, e, x);
    EarlierRegionStays(s, b, e, x, n, c, f);
    assert mid[..c + 1] == s[..c + 1];
    assert mid[f..] == s[f..b + 1] + x + s[e..];
    assert Replaced(mid, c, f, y) == s[..c + 1] + y + (s[f..b + 1] + x + s[e..]);
  }

  /** A region nested in the other one is swallowed: it works once and never again. */
  lemma NestedRefill<T(!new)>(m: Marks<T>, x: seq<T>, n: Marks<T>, y: seq<T>, p: T, q: T, r: T, t: T, out: seq<T>)
    requires Apart(m, n) && Harmless(x, n) && NoBegin(y, m) && n.begin(p) && m.begin(q) && m.end(r) && n.end(t)
    ensures Refills([p, q, r, t], m, x, n, y, [p] + y + [t])
    ensures !Refills([p] + y + [t], m, x, n, y, out)
  {
    var s := [p, q, r, t];
    var mid := Replaced(s, 1, 2, x);
    var once := [p] + y + [t];
    assert IsRegion(s, m, 1, 2);
    ReplacedAt(s, 1, 2, x);
    var f := |x| + 3;
    assert mid == [p, q] + x + [r, t];
    assert forall i :: 2 <= i < |x| + 2 ==> mid[i] == x[i - 2];
    assert IsRegion(mid, n, 0, f);
    assert mid[f..] == [t] && mid[..1] == [p];
    assert RefillsAt(s, m, x, n, y, 1, 2, 0, f, once);
    forall i | 0 <= i < |once| ensures !m.begin(once[i]) {
      assert once[i] == p || once[i] == t || (1 <= i <= |y| && once[i] == y[i - 1]);
    }
  }
}
