/** Refilling two regions, the first of which may be filled with marks of the second: what
    comes out, and when doing it twice is doing it once.
 */
module MarkedFills {
  import opened MarkedRegions
  import TextLines

  ghost function FirstBegin<T>(s: seq<T>, m: Marks<T>): (k: nat)
    ensures k <= |s| && NoBegin(s[..k], m) && (k < |s| ==> m.begin(s[k]))
    ensures k == |s| <==> NoBegin(s, m)
  {
    if s == [] || m.begin(s[0]) then 0
    else
      var k := 1 + FirstBegin(s[1..], m);
      assert s[..k] == [s[0]] + s[1..][..k - 1];
      k
  }

  lemma FirstBeginAt<T>(s: seq<T>, m: Marks<T>, k: nat)
    requires k < |s| && m.begin(s[k]) && NoBegin(s[..k], m)
    ensures FirstBegin(s, m) == k
  {
    var i := FirstBegin(s, m);
    assert forall j :: 0 <= j < i ==> s[..i][j] == s[j];
    assert forall j :: 0 <= j < k ==> s[..k][j] == s[j];
  }

  ghost function FirstEnd<T>(s: seq<T>, m: Marks<T>): (k: nat)
    ensures k <= |s| && NoEnd(s[..k], m) && (k < |s| ==> m.end(s[k]))
    ensures k == |s| <==> NoEnd(s, m)
  {
    if s == [] || m.end(s[0]) then 0
    else
      var k := 1 + FirstEnd(s[1..], m);
      assert s[..k] == [s[0]] + s[1..][..k - 1];
      k
  }

  // From the first END on.
  ghost function AtEnd<T>(s: seq<T>, m: Marks<T>): seq<T> {
    s[FirstEnd(s, m)..]
  }

  // The sequence up to and with its first BEGIN.
  ghost predicate Head<T>(h: seq<T>, m: Marks<T>) {
    |h| > 0 && m.begin(h[|h| - 1]) && NoBegin(h[..|h| - 1], m)
  }

  // It goes on with an END.
  ghost predicate Ends<T>(t: seq<T>, m: Marks<T>) {
    |t| > 0 && m.end(t[0])
  }

  lemma HeadAt<T>(h: seq<T>, m: Marks<T>)
    requires Head(h, m)
    ensures forall i :: 0 <= i < |h| - 1 ==> !m.begin(h[i])
  {
    forall i | 0 <= i < |h| - 1 ensures !m.begin(h[i]) { assert h[i] == h[..|h| - 1][i]; }
  }

  // Behind a head, everything up to the first END gives way.
  lemma HeadRegion<T>(h: seq<T>, z: seq<T>, t: seq<T>, m: Marks<T>, fill: seq<T>)
    requires Head(h, m) && NoEnd(z, m) && Ends(t, m)
    ensures IsRegion(h + (z + t), m, |h| - 1, |h| + |z|)
    ensures Replaced(h + (z + t), |h| - 1, |h| + |z|, fill) == h + (fill + t)
  {
    var s := h + (z + t);
    HeadAt(h, m);
    assert forall i :: 0 <= i < |h| ==> s[i] == h[i];
    assert forall i :: |h| <= i < |h| + |z| ==> s[i] == z[i - |h|];
    assert s[|h| + |z|] == t[0];
    assert s[..|h|] == h && s[|h| + |z|..] == t;
  }

  lemma NoRegion<T>(h: seq<T>, z: seq<T>, m: Marks<T>)
    requires Head(h, m) && NoEnd(z, m)
    ensures forall b, e :: !IsRegion(h + z, m, b, e)
  {
    var s := h + z;
    HeadAt(h, m);
    assert m.begin(s[|h| - 1]);
    assert forall i :: |h| <= i < |s| ==> s[i] == z[i - |h|];
  }

  lemma NoEndConcat<T>(a: seq<T>, b: seq<T>, m: Marks<T>)
    ensures NoEnd(a + b, m) <==> NoEnd(a, m) && NoEnd(b, m)
  {
    assert forall i :: 0 <= i < |a| ==> (a + b)[i] == a[i];
    assert forall i :: 0 <= i < |b| ==> (a + b)[i + |a|] == b[i];
  }

  // -------------------------------------------------- a first fill that opens the second

  lemma HeadBehind<T>(h: seq<T>, a: seq<T>, n: Marks<T>)
    requires NoBegin(h, n) && Head(a, n)
    ensures Head(h + a, n)
  {
    HeadAt(a, n);
    var s := h + a;
    assert s[|s| - 1] == a[|a| - 1];
    forall i | 0 <= i < |s| - 1 ensures !n.begin(s[i]) {
      if i >= |h| { assert s[i] == a[i - |h|]; }
    }
  }

  // The first fill is a + b, where `a` ends in the first BEGIN of the second region. Then
  // that is where the second region begins, and it ends where n does behind it.
  lemma OpenedOnce<T>(h: seq<T>, z: seq<T>, t: seq<T>, a: seq<T>, b: seq<T>, r: seq<T>, v: seq<T>,
                      m: Marks<T>, n: Marks<T>, y: seq<T>)
    requires Head(h, m) && NoBegin(h, n) && NoEnd(z, m) && Ends(t, m) && Head(a, n)
    requires b + t == r + v && NoEnd(r, n) && Ends(v, n)
    ensures Refills(h + (z + t), m, a + b, n, y, (h + a) + (y + v))
  {
    HeadRegion(h, z, t, m, a + b);
    HeadBehind(h, a, n);
    HeadRegion(h + a, r, v, n, y);
    Regroup4(h, a, b, t);
    assert RefillsAt(h + (z + t), m, a + b, n, y, |h| - 1, |h| + |z|, |h + a| - 1, |h + a| + |r|, (h + a) + (y + v));
  }

  lemma Regroup4<T>(h: seq<T>, a: seq<T>, b: seq<T>, t: seq<T>)
    ensures h + ((a + b) + t) == (h + a) + (b + t)
  {
    TextLines.Regroup(a, b, t);
    TextLines.Regroup(h, a, b + t);
  }

  // Without an END behind the first fill there is no second region.
  lemma OpenedNever<T>(h: seq<T>, z: seq<T>, t: seq<T>, a: seq<T>, b: seq<T>, m: Marks<T>, n: Marks<T>, y: seq<T>,
                       out: seq<T>)
    requires Head(h, m) && NoBegin(h, n) && NoEnd(z, m) && Ends(t, m) && Head(a, n) && NoEnd(b + t, n)
    ensures !Refills(h + (z + t), m, a + b, n, y, out)
  {
    HeadRegion(h, z, t, m, a + b);
    HeadBehind(h, a, n);
    NoRegion(h + a, b + t, n);
    Regroup4(h, a, b, t);
    forall b', e, c, f ensures !RefillsAt(h + (z + t), m, a + b, n, y, b', e, c, f, out) {
      if IsRegion(h + (z + t), m, b', e) { RegionUnique(h + (z + t), m, b', e, |h| - 1, |h| + |z|); }
    }
  }

  lemma Unended<T>(h: seq<T>, z: seq<T>, m: Marks<T>, x: seq<T>, n: Marks<T>, y: seq<T>, out: seq<T>)
    requires Head(h, m) && NoEnd(z, m)
    ensures !Refills(h + z, m, x, n, y, out)
  {
    NoRegion(h, z, m);
  }

  // Doing it again yields what it yields, so it is the identity exactly when the same is
  // left behind the second fill.
  lemma AgainIff<T>(h: seq<T>, z: seq<T>, t: seq<T>, a: seq<T>, b: seq<T>, r: seq<T>, w: seq<T>,
                    m: Marks<T>, n: Marks<T>, y: seq<T>, v: seq<T>)
    requires Head(h, m) && NoBegin(h, n) && NoEnd(z, m) && Ends(t, m) && Head(a, n)
    requires b + t == r + w && NoEnd(r, n) && Ends(w, n) && a + (y + v) == z + t
    ensures Refills((h + a) + (y + v), m, a + b, n, y, (h + a) + (y + v)) <==> v == w
  {
    OpenedOnce(h, z, t, a, b, r, w, m, n, y);
    TextLines.Regroup(h, a, y + v);
    var out, out2 := (h + a) + (y + v), (h + a) + (y + w);
    RefillsUnique(out, m, a + b, n, y, out, out2);
    if out == out2 {
      Cancel(h + a, y + v, y + w);
      Cancel(y, v, w);
    }
  }

  lemma CutAtEnd<T>(z: seq<T>, m: Marks<T>) returns (p: seq<T>, q: seq<T>)
    ensures z == p + q && NoEnd(p, m) && (if NoEnd(z, m) then q == [] else Ends(q, m))
    ensures |p| == FirstEnd(z, m) && q == AtEnd(z, m)
  {
    var k := FirstEnd(z, m);
    p, q := z[..k], z[k..];
  }

  // The fill that opens the second region also ends it, at `w`.
  lemma EndsInside<T>(h: seq<T>, z: seq<T>, t: seq<T>, a: seq<T>, r: seq<T>, w: seq<T>, m: Marks<T>, n: Marks<T>,
                      y: seq<T>)
    requires Head(h, m) && NoBegin(h, n) && NoEnd(z, m) && Ends(t, m) && Head(a, n) && NoEnd(r, n) && Ends(w, n)
    ensures var out := (h + a) + (y + (w + t));
            && Refills(h + (z + t), m, a + (r + w), n, y, out)
            && (Refills(out, m, a + (r + w), n, y, out) <==> NoEnd(a + (y + w), m))
  {
    TextLines.Regroup(r, w, t);
    OpenedOnce(h, z, t, a, r + w, r, w + t, m, n, y);
    var all := a + (y + w);
    var p, q := CutAtEnd(all, m);
    InsideParts(a, y, w, t, p, q);
    TextLines.Regroup(r, w, q + t);
    AgainIff(h, p, q + t, a, r + w, r, w + (q + t), m, n, y, w + t);
  }

  lemma InsideParts<T>(a: seq<T>, y: seq<T>, w: seq<T>, t: seq<T>, p: seq<T>, q: seq<T>)
    requires a + (y + w) == p + q
    ensures a + (y + (w + t)) == p + (q + t)
    ensures w + t == w + (q + t) <==> q == []
  {
    TextLines.Regroup(y, w, t);
    TextLines.Regroup(a, y + w, t);
    TextLines.Regroup(p, q, t);
    if w + t == w + (q + t) { assert |w + t| == |w + (q + t)|; }
  }

  // The fill opens the second region and leaves it open: what ends it is the next END
  // behind, at `v`, and everything in front of that is lost.
  lemma EndsBeyond<T(!new)>(h: seq<T>, z: seq<T>, u: seq<T>, v: seq<T>, a: seq<T>, b: seq<T>, m: Marks<T>, n: Marks<T>,
                            y: seq<T>)
    requires Apart(m, n) && Head(h, m) && NoBegin(h, n) && NoEnd(z, m) && Ends(u + v, m) && Head(a, n)
    requires NoEnd(b, n) && NoEnd(u, n) && Ends(v, n)
    ensures var out := (h + a) + (y + v);
            && Refills(h + (z + (u + v)), m, a + b, n, y, out)
            && (Refills(out, m, a + b, n, y, out) <==> ResumesAfter(a + y, m, n))
  {
    TextLines.Regroup(b, u, v);
    NoEndConcat(b, u, n);
    OpenedOnce(h, z, u + v, a, b, b + u, v, m, n, y);
    var p, q := CutAtEnd(a + y, m);
    TextLines.Regroup(a, y, v);
    if q != [] {
      TextLines.Regroup(p, q, v);
      ResumesInside(h, p, q, v, a, b, m, n, y);
    } else {
      assert p + q == p;
      LostBehind(h, p, v, a, b, m, n, y);
    }
  }

  // The sequence has an END of m, and from there on none of n.
  ghost predicate ResumesAfter<T>(p: seq<T>, m: Marks<T>, n: Marks<T>) {
    var k := FirstEnd(p, m);
    k < |p| && NoEnd(p[k..], n)
  }

  lemma ResumesInside<T>(h: seq<T>, p: seq<T>, q: seq<T>, v: seq<T>, a: seq<T>, b: seq<T>, m: Marks<T>, n: Marks<T>,
                         y: seq<T>)
    requires Head(h, m) && NoBegin(h, n) && NoEnd(p, m) && Ends(q, m) && Head(a, n) && NoEnd(b, n) && Ends(v, n)
    requires a + y == p + q && a + (y + v) == p + (q + v) && FirstEnd(a + y, m) == |p|
    ensures Refills((h + a) + (y + v), m, a + b, n, y, (h + a) + (y + v)) <==> ResumesAfter(a + y, m, n)
  {
    assert (a + y)[|p|..] == q;
    var r, w := CutAtEnd(q, n);
    TextLines.Regroup(b, r, w + v);
    TextLines.Regroup(r, w, v);
    NoEndConcat(b, r, n);
    AgainIff(h, p, q + v, a, b, b + r, w + v, m, n, y, v);
    assert v == w + v <==> w == [] by { if v == w + v { assert |v| == |w + v|; } }
  }

  lemma LostBehind<T(!new)>(h: seq<T>, p: seq<T>, v: seq<T>, a: seq<T>, b: seq<T>, m: Marks<T>, n: Marks<T>, y: seq<T>)
    requires Apart(m, n) && Head(h, m) && NoBegin(h, n) && NoEnd(p, m) && Head(a, n) && NoEnd(b, n) && Ends(v, n)
    requires a + y == p && a + (y + v) == p + v
    ensures !Refills((h + a) + (y + v), m, a + b, n, y, (h + a) + (y + v))
  {
    var out := (h + a) + (y + v);
    TextLines.Regroup(h, a, y + v);
    var z, t := CutAtEnd(v, m);
    NoEndConcat(p, z, m);
    TextLines.Regroup(p, z, t);
    if t == [] {
      assert z + t == z;
      Unended(h, p + z, m, a + b, n, y, out);
    } else {
      assert |t| < |v|;
      var r, w := CutAtEnd(t, n);
      NoEndConcat(b, r, n);
      TextLines.Regroup(b, r, w);
      if w == [] {
        assert r + w == r;
        OpenedNever(h, p + z, t, a, b, m, n, y, out);
      } else {
        AgainIff(h, p + z, t, a, b, b + r, w, m, n, y, v);
      }
    }
  }

  // --------------------------------------------------------- the first region in front

  // With the region of m in front of any BEGIN of n: which pairs of fills stay as they
  // are when they are filled in again.
  ghost predicate SettlesFront<T>(m: Marks<T>, x: seq<T>, n: Marks<T>, y: seq<T>) {
    if NoBegin(x, n) then NoEnd(x, m) && NoEnd(y, n)
    else
      var i := FirstBegin(x, n);
      var a, b := x[..i + 1], x[i + 1..];
      if NoEnd(b, n) then ResumesAfter(a + y, m, n) else NoEnd(a + (y + AtEnd(b, n)), m)
  }

  lemma OpeningParts<T>(x: seq<T>, n: Marks<T>)
    requires !NoBegin(x, n)
    ensures var i := FirstBegin(x, n);
            Head(x[..i + 1], n) && x == x[..i + 1] + x[i + 1..]
  {
    HeadTake(x, FirstBegin(x, n), n);
  }

  lemma HeadTake<T>(x: seq<T>, i: nat, n: Marks<T>)
    requires i < |x| && NoBegin(x[..i], n) && n.begin(x[i])
    ensures Head(x[..i + 1], n) && x == x[..i + 1] + x[i + 1..]
  {
    assert x[..i + 1][..i] == x[..i];
  }

  lemma OpenedRefillIff<T(!new)>(h: seq<T>, z: seq<T>, t: seq<T>, a: seq<T>, b: seq<T>, m: Marks<T>, n: Marks<T>,
                                 y: seq<T>)
    requires Apart(m, n) && Head(h, m) && NoBegin(h, n) && NoEnd(z, m) && Ends(t, m) && Head(a, n) && !NoEnd(b + t, n)
    ensures var out := (h + a) + (y + AtEnd(b + t, n));
            && Refills(h + (z + t), m, a + b, n, y, out)
            && (Refills(out, m, a + b, n, y, out)
                <==> if NoEnd(b, n) then ResumesAfter(a + y, m, n) else NoEnd(a + (y + AtEnd(b, n)), m))
  {
    TailAtEnd(b, t, n);
    if NoEnd(b, n) {
      NoEndConcat(b, t, n);
      var u, v := CutAtEnd(t, n);
      EndsBeyond(h, z, u, v, a, b, m, n, y);
    } else {
      var r, w := CutAtEnd(b, n);
      EndsInside(h, z, t, a, r, w, m, n, y);
    }
  }

  lemma TailAtEnd<T>(b: seq<T>, t: seq<T>, n: Marks<T>)
    ensures AtEnd(b + t, n) == if NoEnd(b, n) then AtEnd(t, n) else AtEnd(b, n) + t
  {
    FirstEndConcat(b, t, n);
  }

  lemma {:induction false} FirstEndConcat<T>(a: seq<T>, b: seq<T>, m: Marks<T>)
    ensures FirstEnd(a + b, m) == if NoEnd(a, m) then |a| + FirstEnd(b, m) else FirstEnd(a, m)
    decreases |a|
  {
    if a == [] {
      assert a + b == b;
    } else {
      assert (a + b)[1..] == a[1..] + b;
      FirstEndConcat(a[1..], b, m);
      NoEndConcat([a[0]], a[1..], m);
      assert a == [a[0]] + a[1..];
    }
  }

  // ------------------------------------------------------------ the first region behind

  // With a BEGIN of n in front of the region of m: `rest` is what follows the fill of n.
  // It holds the region of m and has to have it filled, unless the fill of n opens that
  // region itself.
  ghost predicate SettlesBack<T>(m: Marks<T>, x: seq<T>, n: Marks<T>, y: seq<T>, rest: seq<T>) {
    if NoBegin(y, m) then NoEnd(y, n) && Current(rest, m, x)
    else
      var i := FirstBegin(y, m);
      var a, b := y[..i + 1], y[i + 1..];
      if NoEnd(b, m) then !NoEnd(rest, m) && !NoEnd(a + x, n) && AtEnd(a + x, n) + AtEnd(rest, m) == rest
      else NoEnd((a + x) + AtEnd(b, m), n)
  }

  // One round on h + y + rest, where `a` opens the region of m inside of y == a + b.
  lemma BehindOnce<T>(h: seq<T>, a: seq<T>, b: seq<T>, rest: seq<T>, r: seq<T>, w: seq<T>, p: seq<T>, q: seq<T>,
                      m: Marks<T>, x: seq<T>, n: Marks<T>)
    requires Head(h, n) && NoBegin(h, m) && Head(a, m)
    requires b + rest == r + w && NoEnd(r, m) && Ends(w, m) && (a + x) + w == p + q && NoEnd(p, n) && Ends(q, n)
    ensures Refills(h + ((a + b) + rest), m, x, n, a + b, h + ((a + b) + q))
  {
    HeadBehind(h, a, m);
    HeadRegion(h + a, r, w, m, x);
    HeadRegion(h, p, q, n, a + b);
    Regroup4(h, a, b, rest);
    Regroup4(h, a, x, w);
    assert RefillsAt(h + ((a + b) + rest), m, x, n, a + b, |h + a| - 1, |h + a| + |r|, |h| - 1, |h| + |p|,
                     h + ((a + b) + q));
  }

  lemma BehindNever<T>(h: seq<T>, a: seq<T>, b: seq<T>, rest: seq<T>, r: seq<T>, w: seq<T>,
                       m: Marks<T>, x: seq<T>, n: Marks<T>, out: seq<T>)
    requires Head(h, n) && NoBegin(h, m) && Head(a, m)
    requires b + rest == r + w && NoEnd(r, m) && Ends(w, m) && NoEnd((a + x) + w, n)
    ensures !Refills(h + ((a + b) + rest), m, x, n, a + b, out)
  {
    var s := h + ((a + b) + rest);
    HeadBehind(h, a, m);
    HeadRegion(h + a, r, w, m, x);
    NoRegion(h, (a + x) + w, n);
    Regroup4(h, a, b, rest);
    Regroup4(h, a, x, w);
    forall b', e, c, f ensures !RefillsAt(s, m, x, n, a + b, b', e, c, f, out) {
      if IsRegion(s, m, b', e) { RegionUnique(s, m, b', e, |h + a| - 1, |h + a| + |r|); }
    }
  }

  lemma BehindAgainIff<T>(h: seq<T>, a: seq<T>, b: seq<T>, rest: seq<T>, r: seq<T>, w: seq<T>, p: seq<T>, q: seq<T>,
                          m: Marks<T>, x: seq<T>, n: Marks<T>)
    requires Head(h, n) && NoBegin(h, m) && Head(a, m)
    requires b + rest == r + w && NoEnd(r, m) && Ends(w, m) && (a + x) + w == p + q && NoEnd(p, n) && Ends(q, n)
    ensures Refills(h + ((a + b) + rest), m, x, n, a + b, h + ((a + b) + rest)) <==> q == rest
  {
    BehindOnce(h, a, b, rest, r, w, p, q, m, x, n);
    var out, out2 := h + ((a + b) + rest), h + ((a + b) + q);
    RefillsUnique(out, m, x, n, a + b, out, out2);
    if out == out2 {
      Cancel(h, (a + b) + rest, (a + b) + q);
      Cancel(a + b, rest, q);
    }
  }

  // The fill that opens the region of m also ends it.
  lemma BehindInside<T>(h: seq<T>, a: seq<T>, r: seq<T>, v: seq<T>, rest: seq<T>, m: Marks<T>, x: seq<T>, n: Marks<T>)
    requires Head(h, n) && NoBegin(h, m) && Head(a, m) && NoEnd(r, m) && Ends(v, m) && Ends(rest, n)
    ensures Refills(h + ((a + (r + v)) + rest), m, x, n, a + (r + v), h + ((a + (r + v)) + rest))
       <==> NoEnd((a + x) + v, n)
  {
    var p, q := CutAtEnd((a + x) + v, n);
    TextLines.Regroup(r, v, rest);
    TextLines.Regroup(a + x, v, rest);
    TextLines.Regroup(p, q, rest);
    BehindAgainIff(h, a, r + v, rest, r, v + rest, p, q + rest, m, x, n);
    assert q + rest == rest <==> q == [] by { if q + rest == rest { assert |q + rest| == |rest|; } }
  }

  // The fill leaves it open: it ends in the rest.
  lemma BehindBeyond<T(!new)>(h: seq<T>, a: seq<T>, b: seq<T>, u: seq<T>, w: seq<T>, m: Marks<T>, x: seq<T>,
                              n: Marks<T>)
    requires Apart(m, n) && Head(h, n) && NoBegin(h, m) && Head(a, m) && NoEnd(b, m)
    requires NoEnd(u, m) && Ends(w, m) && Ends(u + w, n)
    ensures Refills(h + ((a + b) + (u + w)), m, x, n, a + b, h + ((a + b) + (u + w)))
       <==> !NoEnd(a + x, n) && AtEnd(a + x, n) + w == u + w
  {
    TextLines.Regroup(b, u, w);
    NoEndConcat(b, u, m);
    var p, q := CutAtEnd(a + x, n);
    if q != [] {
      TextLines.Regroup(p, q, w);
      BehindAgainIff(h, a, b, u + w, b + u, w, p, q + w, m, x, n);
    } else {
      assert p + q == p;
      assert |u| > 0;
      var p', q' := CutAtEnd(w, n);
      TextLines.Regroup(p, p', q');
      NoEndConcat(p, p', n);
      if q' == [] {
        assert p' + q' == p';
        BehindNever(h, a, b, u + w, b + u, w, m, x, n, h + ((a + b) + (u + w)));
      } else {
        BehindAgainIff(h, a, b, u + w, b + u, w, p + p', q', m, x, n);
        assert |q'| < |u + w|;
      }
    }
  }

  lemma BehindIff<T(!new)>(h: seq<T>, a: seq<T>, b: seq<T>, rest: seq<T>, m: Marks<T>, x: seq<T>, n: Marks<T>)
    requires Apart(m, n) && Head(h, n) && NoBegin(h, m) && Head(a, m) && Ends(rest, n)
    ensures Refills(h + ((a + b) + rest), m, x, n, a + b, h + ((a + b) + rest))
       <==> if NoEnd(b, m) then !NoEnd(rest, m) && !NoEnd(a + x, n) && AtEnd(a + x, n) + AtEnd(rest, m) == rest
            else NoEnd((a + x) + AtEnd(b, m), n)
  {
    if !NoEnd(b, m) {
      var r, v := CutAtEnd(b, m);
      BehindInside(h, a, r, v, rest, m, x, n);
    } else if NoEnd(rest, m) {
      HeadBehind(h, a, m);
      NoEndConcat(b, rest, m);
      Regroup4(h, a, b, rest);
      Unended(h + a, b + rest, m, x, n, a + b, h + ((a + b) + rest));
    } else {
      var u, w := CutAtEnd(rest, m);
      BehindBeyond(h, a, b, u, w, m, x, n);
    }
  }

  // The fill of n opens nothing, and the rest next r + r', where r ends in its first BEGIN of m.
  lemma PlainBackIff<T(!new)>(h: seq<T>, y: seq<T>, r: seq<T>, p: seq<T>, q: seq<T>, m: Marks<T>, x: seq<T>,
                              n: Marks<T>)
    requires Head(h, n) && NoBegin(h, m) && NoBegin(y, m) && Head(r, m) && Ends(r, n) && NoEnd(p, m) && Ends(q, m)
    ensures Refills(h + (y + (r + (p + q))), m, x, n, y, h + (y + (r + (p + q)))) <==> NoEnd(y, n) && p == x
  {
    var u, v := CutAtEnd(y, n);
    var now, next := r + (p + q), v + (r + (x + q));
    PlainBackOnce(h, y, u, v, r, p, q, m, x, n);
    RefillsUnique(h + (y + now), m, x, n, y, h + (y + now), h + (y + next));
    NoBeginConcat(u, v, m);
    if h + (y + now) == h + (y + next) {
      Cancel(h, y + now, y + next);
      Cancel(y, now, next);
      SameBehindHead(v, r, p, x, q, m);
    }
    if v == [] && p == x { assert v + (r + (x + q)) == r + (x + q); }
  }

  lemma Cancel<T>(h: seq<T>, a: seq<T>, b: seq<T>)
    requires h + a == h + b
    ensures a == b
  {
    assert a == (h + a)[|h|..] && b == (h + b)[|h|..];
  }

  lemma CancelEnd<T>(a: seq<T>, b: seq<T>, q: seq<T>)
    requires a + q == b + q
    ensures a == b
  {
    assert |a| == |b|;
    assert a == (a + q)[..|a|] && b == (b + q)[..|b|];
  }

  lemma PlainBackOnce<T>(h: seq<T>, y: seq<T>, u: seq<T>, v: seq<T>, r: seq<T>, p: seq<T>, q: seq<T>,
                         m: Marks<T>, x: seq<T>, n: Marks<T>)
    requires Head(h, n) && NoBegin(h, m) && NoBegin(y, m) && Head(r, m) && Ends(r, n) && NoEnd(p, m) && Ends(q, m)
    requires y == u + v && NoEnd(u, n) && (v == [] || Ends(v, n))
    ensures Refills(h + (y + (r + (p + q))), m, x, n, y, h + (y + (v + (r + (x + q)))))
  {
    var front := (h + y) + r;
    NoBeginConcat(h, y, m);
    HeadBehind(h + y, r, m);
    HeadRegion(front, p, q, m, x);
    var w := r + (x + q);
    HeadRegion(h, u, v + w, n, y);
    TextLines.Regroup(u, v, w);
    FrontParts(h, y, r, p + q);
    FrontParts(h, y, r, x + q);
    assert RefillsAt(h + (y + (r + (p + q))), m, x, n, y, |front| - 1, |front| + |p|, |h| - 1, |h| + |u|,
                     h + (y + (v + (r + (x + q)))));
  }

  lemma FrontParts<T>(h: seq<T>, y: seq<T>, r: seq<T>, z: seq<T>)
    ensures h + (y + (r + z)) == ((h + y) + r) + z
  {
    TextLines.Regroup(h, y, r + z);
    TextLines.Regroup(h + y, r, z);
  }

  lemma NoBeginConcat<T>(a: seq<T>, b: seq<T>, m: Marks<T>)
    ensures NoBegin(a + b, m) <==> NoBegin(a, m) && NoBegin(b, m)
  {
    assert forall i :: 0 <= i < |a| ==> (a + b)[i] == a[i];
    assert forall i :: 0 <= i < |b| ==> (a + b)[i + |a|] == b[i];
  }

  lemma HeadPosition<T>(v: seq<T>, r: seq<T>, z: seq<T>, m: Marks<T>)
    requires NoBegin(v, m) && Head(r, m)
    ensures var s := v + (r + z);
            m.begin(s[|v| + |r| - 1]) && forall i :: 0 <= i < |v| + |r| - 1 ==> !m.begin(s[i])
  {
    var s := v + (r + z);
    HeadAt(r, m);
    assert forall i :: 0 <= i < |v| ==> s[i] == v[i];
    assert forall i :: |v| <= i < |v| + |r| ==> s[i] == r[i - |v|];
  }

  // The first BEGIN tells where the head sits.
  lemma SameHead<T>(v: seq<T>, r: seq<T>, z: seq<T>, z': seq<T>, m: Marks<T>)
    requires v + (r + z) == r + z' && Head(r, m) && NoBegin(v, m)
    ensures v == []
  {
    HeadPosition(v, r, z, m);
    HeadPosition([], r, z', m);
    assert [] + (r + z') == r + z';
    var s := r + z';
    assert m.begin(s[|r| - 1]);
  }

  lemma SameBehindHead<T>(v: seq<T>, r: seq<T>, p: seq<T>, x: seq<T>, q: seq<T>, m: Marks<T>)
    requires v + (r + (x + q)) == r + (p + q) && Head(r, m) && NoBegin(v, m)
    ensures v == [] && p == x
  {
    var z, z' := x + q, p + q;
    SameHead(v, r, z, z', m);
    assert v + (r + z) == r + z;
    Cancel(r, z, z');
    CancelEnd(x, p, q);
  }

  // ----------------------------------------------------------------- all the cases

  // Neither fill opens the other region, and that of m comes first.
  lemma PlainFrontIff<T>(h: seq<T>, x: seq<T>, t: seq<T>, y: seq<T>, rest: seq<T>, m: Marks<T>, n: Marks<T>)
    requires Head(h, m) && NoBegin(h, n) && NoBegin(x, n) && Ends(t, m) && Head(t, n) && Ends(rest, n)
    ensures Refills(h + (x + (t + (y + rest))), m, x, n, y, h + (x + (t + (y + rest)))) <==> NoEnd(x, m) && NoEnd(y, n)
  {
    var p, q := CutAtEnd(x, m);
    var u, v := CutAtEnd(y, n);
    var out, out2 := h + (x + (t + (y + rest))), h + (x + (q + (t + (y + (v + rest)))));
    PlainFrontOnce(h, x, p, q, t, y, u, v, rest, m, n);
    RefillsUnique(out, m, x, n, y, out, out2);
    if out == out2 { assert |out| + |q| + |v| == |out2|; }
    if q == [] && v == [] {
      assert v + rest == rest;
      assert q + (t + (y + rest)) == t + (y + rest);
    }
  }

  lemma PlainFrontOnce<T>(h: seq<T>, x: seq<T>, p: seq<T>, q: seq<T>, t: seq<T>, y: seq<T>, u: seq<T>, v: seq<T>,
                          rest: seq<T>,
                          m: Marks<T>, n: Marks<T>)
    requires Head(h, m) && NoBegin(h, n) && NoBegin(x, n) && Ends(t, m) && Head(t, n) && Ends(rest, n)
    requires x == p + q && NoEnd(p, m) && (q == [] || Ends(q, m))
    requires y == u + v && NoEnd(u, n) && (v == [] || Ends(v, n))
    ensures Refills(h + (x + (t + (y + rest))), m, x, n, y, h + (x + (q + (t + (y + (v + rest))))))
  {
    var tail := t + (y + rest);
    TextLines.Regroup(p, q, tail);
    HeadRegion(h, p, q + tail, m, x);
    NoBeginConcat(h, x, n);
    NoBeginConcat(p, q, n);
    NoBeginConcat(h + x, q, n);
    var front := ((h + x) + q) + t;
    HeadBehind((h + x) + q, t, n);
    HeadRegion(front, u, v + rest, n, y);
    TextLines.Regroup(u, v, rest);
    DeepParts(h, x, q, t, y + rest);
    DeepParts(h, x, q, t, y + (v + rest));
    assert RefillsAt(h + (x + tail), m, x, n, y, |h| - 1, |h| + |p|, |front| - 1, |front| + |u|,
                     h + (x + (q + (t + (y + (v + rest))))));
  }

  lemma DeepParts<T>(h: seq<T>, x: seq<T>, q: seq<T>, t: seq<T>, z: seq<T>)
    ensures h + (x + (q + (t + z))) == (((h + x) + q) + t) + z
  {
    TextLines.Regroup(h, x, q + (t + z));
    TextLines.Regroup(h + x, q, t + z);
    TextLines.Regroup((h + x) + q, t, z);
  }

  // When the result of refilling s, with the regions at (b, e) and then at (c, f), stays
  // as it is when it is refilled again.
  ghost predicate Settles<T>(s: seq<T>, m: Marks<T>, x: seq<T>, n: Marks<T>, y: seq<T>, b: nat, e: nat, c: nat, f: nat)
    requires b < e < |s| && f < |Replaced(s, b, e, x)|
  {
    if b < c then SettlesFront(m, x, n, y) else SettlesBack(m, x, n, y, Replaced(s, b, e, x)[f..])
  }

  /** For every sequence and any two fills whatever: doing it twice is doing it once
      exactly when they settle.
   */
  lemma RefillAgainIff<T(!new)>(s: seq<T>, m: Marks<T>, x: seq<T>, n: Marks<T>, y: seq<T>,
                                b: nat, e: nat, c: nat, f: nat, out: seq<T>)
    requires Apart(m, n) && RefillsAt(s, m, x, n, y, b, e, c, f, out)
    ensures Refills(out, m, x, n, y, out) <==> Settles(s, m, x, n, y, b, e, c, f)
  {
    var mid := Replaced(s, b, e, x);
    RegionParts(mid, n, c, f, y);
    PrefixStays(s, m, x, n, b, e, c);
    if c < b {
      BackAgainIff(mid[..c + 1], y, mid[f..], m, x, n);
    } else if NoBegin(x, n) {
      FrontAgainIff(s, m, x, n, y, b, e, c, f);
    } else {
      OpenedAgainIff(s, m, x, n, y, b, e, c, f, out);
    }
  }

  lemma RegionParts<T>(s: seq<T>, m: Marks<T>, b: nat, e: nat, fill: seq<T>)
    requires IsRegion(s, m, b, e)
    ensures Head(s[..b + 1], m) && NoEnd(s[b + 1..e], m) && Ends(s[e..], m)
    ensures s == s[..b + 1] + (s[b + 1..e] + s[e..]) && Replaced(s, b, e, fill) == s[..b + 1] + (fill + s[e..])
  {
    TextLines.Regroup(s[..b + 1], fill, s[e..]);
  }

  lemma BackAgainIff<T(!new)>(h: seq<T>, y: seq<T>, rest: seq<T>, m: Marks<T>, x: seq<T>, n: Marks<T>)
    requires Apart(m, n) && Head(h, n) && NoBegin(h, m) && Ends(rest, n)
    ensures Refills(h + (y + rest), m, x, n, y, h + (y + rest)) <==> SettlesBack(m, x, n, y, rest)
  {
    if !NoBegin(y, m) {
      OpeningParts(y, m);
      var i := FirstBegin(y, m);
      BehindIff(h, y[..i + 1], y[i + 1..], rest, m, x, n);
    } else if NoBegin(rest, m) {
      NoBeginConcat(y, rest, m);
      NoBeginConcat(h, y + rest, m);
    } else {
      OpeningParts(rest, m);
      var i := FirstBegin(rest, m);
      var r, r' := rest[..i + 1], rest[i + 1..];
      var p, q := CutAtEnd(r', m);
      CurrentIff(r, p, q, m, x);
      if q == [] {
        assert p + q == p;
        NoBeginConcat(h, y, m);
        HeadBehind(h + y, r, m);
        FrontParts(h, y, r, p);
        Unended((h + y) + r, p, m, x, n, y, h + (y + rest));
      } else {
        PlainBackIff(h, y, r, p, q, m, x, n);
      }
    }
  }

  lemma CurrentIff<T>(r: seq<T>, p: seq<T>, q: seq<T>, m: Marks<T>, x: seq<T>)
    requires Head(r, m) && NoEnd(p, m) && (q == [] || Ends(q, m))
    ensures Current(r + (p + q), m, x) <==> q != [] && p == x
  {
    var s := r + (p + q);
    if q == [] {
      assert p + q == p;
      NoRegion(r, p, m);
    } else {
      HeadRegion(r, p, q, m, x);
      assert s[|r|..|r| + |p|] == p;
      if Current(s, m, x) {
        var b: nat, e: nat :| IsRegion(s, m, b, e) && Filled(s, b, e, x);
        RegionUnique(s, m, b, e, |r| - 1, |r| + |p|);
      }
    }
  }

  // The lines up to the first region's BEGIN are the same before and after it is filled.
  lemma PrefixStays<T(!new)>(s: seq<T>, m: Marks<T>, x: seq<T>, n: Marks<T>, b: nat, e: nat, c: nat)
    requires Apart(m, n) && IsRegion(s, m, b, e)
    requires var mid := Replaced(s, b, e, x); c < |mid| && n.begin(mid[c]) && Head(mid[..c + 1], n)
    ensures c != b && (c < b ==> NoBegin(Replaced(s, b, e, x)[..c + 1], m)) && (b < c ==> NoBegin(s[..b + 1], n))
  {
    var mid := Replaced(s, b, e, x);
    assert forall i :: 0 <= i <= b ==> mid[i] == s[i];
    HeadAt(mid[..c + 1], n);
    if b < c {
      forall i | 0 <= i <= b ensures !n.begin(s[i]) { assert mid[..c + 1][i] == s[i]; }
    }
  }

  lemma FrontAgainIff<T(!new)>(s: seq<T>, m: Marks<T>, x: seq<T>, n: Marks<T>, y: seq<T>, b: nat, e: nat, c: nat,
                               f: nat)
    requires Apart(m, n) && IsRegion(s, m, b, e) && IsRegion(Replaced(s, b, e, x), n, c, f)
    requires b < c && NoBegin(s[..b + 1], n) && NoBegin(x, n)
    ensures var out := Replaced(Replaced(s, b, e, x), c, f, y);
            Refills(out, m, x, n, y, out) <==> NoEnd(x, m) && NoEnd(y, n)
  {
    var mid := Replaced(s, b, e, x);
    var h, t := s[..b + 1], s[e..];
    RegionParts(s, m, b, e, x);
    RegionParts(mid, n, c, f, y);
    var k := c + 1 - |h| - |x|;
    SecondBehind(h, x, t, n, c);
    FirstOfTail(t, m, n, k);
    var t1, rest := t[..k], mid[f..];
    TextLines.Regroup(x, t1, y + rest);
    TextLines.Regroup(h, x + t1, y + rest);
    PlainFrontIff(h, x, t1, y, rest, m, n);
  }

  // A first BEGIN that is neither in h nor in x is in the tail.
  lemma SecondBehind<T>(h: seq<T>, x: seq<T>, t: seq<T>, n: Marks<T>, c: nat)
    requires NoBegin(h, n) && NoBegin(x, n) && c < |h + (x + t)| && Head((h + (x + t))[..c + 1], n)
    ensures var k := c + 1 - |h| - |x|;
            0 < k <= |t| && Head(t[..k], n) && (h + (x + t))[..c + 1] == h + (x + t[..k])
  {
    var s := h + (x + t);
    var g := s[..c + 1];
    HeadAt(g, n);
    assert n.begin(g[c]) && g[c] == s[c];
    assert forall i :: 0 <= i < |h| ==> s[i] == h[i];
    assert forall i :: |h| <= i < |h| + |x| ==> s[i] == x[i - |h|];
    var k := c + 1 - |h| - |x|;
    var t1 := t[..k];
    forall i | 0 <= i < k - 1 ensures !n.begin(t1[i]) { assert t1[i] == g[i + |h| + |x|]; }
    assert t1[k - 1] == g[c];
  }

  lemma FirstOfTail<T(!new)>(t: seq<T>, m: Marks<T>, n: Marks<T>, k: nat)
    requires Apart(m, n) && Ends(t, m) && 0 < k <= |t| && Head(t[..k], n)
    ensures Ends(t[..k], m)
  {
  }

  lemma OpenedAgainIff<T(!new)>(s: seq<T>, m: Marks<T>, x: seq<T>, n: Marks<T>, y: seq<T>,
                                b: nat, e: nat, c: nat, f: nat, out: seq<T>)
    requires Apart(m, n) && RefillsAt(s, m, x, n, y, b, e, c, f, out)
    requires b < c && NoBegin(s[..b + 1], n) && !NoBegin(x, n)
    ensures Refills(out, m, x, n, y, out) <==> SettlesFront(m, x, n, y)
    ensures out == (s[..b + 1] + x[..FirstBegin(x, n) + 1]) + (y + AtEnd(x[FirstBegin(x, n) + 1..] + s[e..], n))
  {
    var h, z, t, i := s[..b + 1], s[b + 1..e], s[e..], FirstBegin(x, n);
    var p, q := x[..i + 1], x[i + 1..];
    RegionParts(s, m, b, e, x);
    OpeningParts(x, n);
    assert IsRegion(h + (x + t), n, c, f);
    Regroup4(h, p, q, t);
    if NoEnd(q + t, n) {
      HeadBehind(h, p, n);
      NoRegion(h + p, q + t, n);
    }
    OpenedRefillIff(h, z, t, p, q, m, n, y);
    RefillsUnique(s, m, x, n, y, out, (h + p) + (y + AtEnd(q + t, n)));
  }

  // -------------------------------------------------------------- disjoint regions

  // What comes out when the region of m lies in front. Where its fill opens the other
  // region, that one begins inside the fill and takes along everything up to the next END.
  ghost function FrontRefilled<T>(s: seq<T>, x: seq<T>, n: Marks<T>, y: seq<T>, b: nat, e: nat, c: nat, f: nat): seq<T>
    requires b < e < c < f < |s|
  {
    if NoBegin(x, n) then InOrder(s, x, y, b, e, c, f)
    else (s[..b + 1] + x[..FirstBegin(x, n) + 1]) + (y + AtEnd(x[FirstBegin(x, n) + 1..] + s[e..], n))
  }

  /** The region of m in front of the other one: what comes out, and whether it stays,
      which depends on the two fills alone.
   */
  lemma FrontRefillIff<T(!new)>(s: seq<T>, m: Marks<T>, x: seq<T>, n: Marks<T>, y: seq<T>, b: nat, e: nat, c: nat,
                                f: nat)
    requires Apart(m, n) && IsRegion(s, m, b, e) && IsRegion(s, n, c, f) && e < c
    ensures var out := FrontRefilled(s, x, n, y, b, e, c, f);
            Refills(s, m, x, n, y, out) && (Refills(out, m, x, n, y, out) <==> SettlesFront(m, x, n, y))
  {
    if NoBegin(x, n) {
      RefillsLater(s, m, x, n, y, b, e, c, f);
      RefillAgainIff(s, m, x, n, y, b, e, c - e + b + |x| + 1, f - e + b + |x| + 1, InOrder(s, x, y, b, e, c, f));
    } else {
      var i := FirstBegin(x, n);
      RegionParts(s, m, b, e, x);
      OpeningParts(x, n);
      EndBehind(x[i + 1..], s[e..], n, f - e);
      OpenedRefillIff(s[..b + 1], s[b + 1..e], s[e..], x[..i + 1], x[i + 1..], m, n, y);
    }
  }

  lemma EndBehind<T>(q: seq<T>, t: seq<T>, n: Marks<T>, k: nat)
    requires k < |t| && n.end(t[k])
    ensures !NoEnd(q + t, n)
  {
    assert (q + t)[|q| + k] == t[k];
  }

  /** The region of m behind the other one: only what is between the marks changes. */
  lemma BackRefillIff<T(!new)>(s: seq<T>, m: Marks<T>, x: seq<T>, n: Marks<T>, y: seq<T>, b: nat, e: nat, c: nat,
                               f: nat)
    requires Apart(m, n) && IsRegion(s, m, b, e) && IsRegion(s, n, c, f) && f < b
    ensures var out := InOrder(s, y, x, c, f, b, e);
            && Refills(s, m, x, n, y, out)
            && (Refills(out, m, x, n, y, out) <==> SettlesBack(m, x, n, y, s[f..b + 1] + (x + s[e..])))
  {
    RefillsEarlier(s, m, x, n, y, b, e, c, f);
    RefillAgainIff(s, m, x, n, y, b, e, c, f, InOrder(s, y, x, c, f, b, e));
    assert Replaced(s, b, e, x)[f..] == s[f..b + 1] + (x + s[e..]);
  }

  // Behind the other region, a freshly filled one is current unless the fill ends it.
  lemma BackCurrentIff<T>(s: seq<T>, m: Marks<T>, x: seq<T>, b: nat, e: nat, f: nat)
    requires IsRegion(s, m, b, e) && f <= b
    ensures Current(s[f..b + 1] + (x + s[e..]), m, x) <==> NoEnd(x, m)
  {
    var r, t := s[f..b + 1], s[e..];
    assert r[|r| - 1] == s[b];
    assert forall i :: 0 <= i < |r| - 1 ==> r[i] == s[f + i];
    var p, q := CutAtEnd(x, m);
    TextLines.Regroup(p, q, t);
    CurrentIff(r, p, q + t, m, x);
    assert p == x <==> q == [] by { if p == x { assert |p + q| == |p|; } else { assert q == [] ==> p + q == p; } }
  }

  // Fills without marks: only a region of n that begins in front of that of m matters.
  lemma HarmlessSettlesIff<T(!new)>(s: seq<T>, m: Marks<T>, x: seq<T>, n: Marks<T>, y: seq<T>, b: nat, e: nat, c: nat,
                                    f: nat)
    requires Apart(m, n) && IsRegion(s, m, b, e) && IsRegion(Replaced(s, b, e, x), n, c, f)
    requires Harmless(x, m) && Harmless(x, n) && Harmless(y, m) && Harmless(y, n)
    ensures Settles(s, m, x, n, y, b, e, c, f) <==> (c < b ==> Current(Replaced(s, b, e, x)[f..], m, x))
  {
    RegionParts(Replaced(s, b, e, x), n, c, f, y);
    PrefixStays(s, m, x, n, b, e, c);
  }

  // A first fill with one mark, the BEGIN of the other region.
  lemma OneOpening<T(!new)>(s: seq<T>, m: Marks<T>, before: seq<T>, l: T, after: seq<T>, n: Marks<T>, y: seq<T>,
                            b: nat, e: nat, c: nat, f: nat)
    requires Apart(m, n) && n.begin(l) && b < e < c < f < |s|
    requires Harmless(before, m) && Harmless(before, n) && Harmless(after, n) && Harmless(y, m)
    ensures var x := before + [l] + after;
            && FrontRefilled(s, x, n, y, b, e, c, f) == (s[..b + 1] + (before + [l])) + (y + AtEnd(s[e..], n))
            && !SettlesFront(m, x, n, y)
  {
    var x := before + [l] + after;
    OpeningIs(before, l, after, n);
    TailAtEnd(after, s[e..], n);
    NoEndConcat(before, [l], m);
    NoEndConcat(before + [l], y, m);
    assert n.begin(x[|before|]);
  }

  lemma OpeningIs<T>(before: seq<T>, l: T, after: seq<T>, n: Marks<T>)
    requires NoBegin(before, n) && n.begin(l)
    ensures var x := before + [l] + after;
            var i := FirstBegin(x, n);
            i == |before| && x[..i + 1] == before + [l] && x[i + 1..] == after
  {
    var x := before + [l] + after;
    assert x[|before|] == l && x[..|before|] == before;
    FirstBeginAt(x, n, |before|);
  }
}
