/** Listing content over several backends: merge, first backend wins, sort by key,
    then page with a cursor.
 */
module ContentRouting {
  import opened Options

  // ------------------------------------------------------------- ordered keys

  // The order of sort.Strings (code point order is UTF-8 byte order).
  predicate Less(a: string, b: string) {
    if |b| == 0 then false
    else if |a| == 0 then true
    else a[0] < b[0] || (a[0] == b[0] && Less(a[1..], b[1..]))
  }

  lemma {:induction false} LessTransitive(a: string, b: string, c: string)
    requires Less(a, b) && Less(b, c)
    ensures Less(a, c)
  {
    if |a| > 0 && a[0] == b[0] == c[0] { LessTransitive(a[1..], b[1..], c[1..]); }
  }

  lemma {:induction false} LessTotal(a: string, b: string)
    ensures Less(a, b) || Less(b, a) || a == b
    ensures !Less(a, a) && !(Less(a, b) && Less(b, a))
  {
    if |a| > 0 { LessTotal(a[1..], a[1..]); }
    if |a| > 0 && |b| > 0 && a[0] == b[0] {
      LessTotal(a[1..], b[1..]);
      if a[1..] == b[1..] { assert a == [a[0]] + a[1..] && b == [b[0]] + b[1..]; }
    }
  }

  // a and b agree up to i, where a ends or has the smaller character.
  predicate DiffersAt(a: string, b: string, i: nat) {
    i <= |a| && i < |b| && a[..i] == b[..i] && (i == |a| || a[i] < b[i])
  }

  /** The first difference decides, and a proper prefix comes first. */
  lemma LessIff(a: string, b: string)
    ensures Less(a, b) <==> exists i: nat :: DiffersAt(a, b, i)
  {
    if Less(a, b) { var i := LessDiffers(a, b); }
    if exists i: nat :: DiffersAt(a, b, i) {
      var i: nat :| DiffersAt(a, b, i);
      DiffersLess(a, b, i);
    }
  }

  lemma {:induction false} LessDiffers(a: string, b: string) returns (i: nat)
    requires Less(a, b)
    ensures DiffersAt(a, b, i)
  {
    i := 0;
    if |a| > 0 && a[0] == b[0] {
      var n := LessDiffers(a[1..], b[1..]);
      i := n + 1;
      assert a[..i] == [a[0]] + a[1..][..n] && b[..i] == [b[0]] + b[1..][..n];
    }
  }

  lemma {:induction false} DiffersLess(a: string, b: string, i: nat)
    requires DiffersAt(a, b, i)
    ensures Less(a, b)
    decreases i
  {
    if i > 0 {
      assert a[..i][0] == b[..i][0];
      assert a[1..][..i - 1] == a[..i][1..] && b[1..][..i - 1] == b[..i][1..];
      DiffersLess(a[1..], b[1..], i - 1);
    }
  }

  predicate Ascending(ks: seq<string>) {
    forall i, j :: 0 <= i < j < |ks| ==> Less(ks[i], ks[j])
  }

  function Insert(k: string, ks: seq<string>): seq<string> {
    if |ks| == 0 || Less(k, ks[0]) then [k] + ks else [ks[0]] + Insert(k, ks[1..])
  }

  function SortKeys(ks: seq<string>): seq<string> {
    if |ks| == 0 then [] else Insert(ks[0], SortKeys(ks[1..]))
  }

  lemma {:induction false} InsertElements(k: string, ks: seq<string>)
    ensures forall x :: x in Insert(k, ks) <==> x == k || x in ks
  {
    if !(|ks| == 0 || Less(k, ks[0])) {
      InsertElements(k, ks[1..]);
      assert ks == [ks[0]] + ks[1..];
    }
  }

  lemma {:induction false} InsertAscending(k: string, ks: seq<string>)
    requires Ascending(ks) && k !in ks
    ensures Ascending(Insert(k, ks))
  {
    var r := Insert(k, ks);
    if |ks| == 0 {
    } else if Less(k, ks[0]) {
      forall j | 0 < j < |r| ensures Less(k, r[j]) {
        if j > 1 { LessTransitive(k, ks[0], ks[j - 1]); }
      }
    } else {
      LessTotal(k, ks[0]);
      InsertAscending(k, ks[1..]);
      InsertElements(k, ks[1..]);
      var tail := Insert(k, ks[1..]);
      forall j | 0 < j < |r| ensures Less(ks[0], r[j]) {
        assert r[j] == tail[j - 1] && tail[j - 1] in tail;
        if r[j] != k {
          var m :| 0 <= m < |ks[1..]| && ks[1..][m] == r[j];
          assert ks[m + 1] == r[j];
        }
      }
    }
  }

  predicate Distinct<T(==)>(ks: seq<T>) {
    forall i, j :: 0 <= i < j < |ks| ==> ks[i] != ks[j]
  }

  lemma {:induction false} SortSorts(ks: seq<string>)
    requires Distinct(ks)
    ensures Ascending(SortKeys(ks)) && forall x :: x in SortKeys(ks) <==> x in ks
  {
    if |ks| > 0 {
      SortSorts(ks[1..]);
      InsertElements(ks[0], SortKeys(ks[1..]));
      InsertAscending(ks[0], SortKeys(ks[1..]));
      assert ks == [ks[0]] + ks[1..];
    }
  }

  lemma AscendingHead(ks: seq<string>, x: string)
    requires Ascending(ks) && x in ks
    ensures x == ks[0] || Less(ks[0], x)
  {
    var i :| 0 <= i < |ks| && ks[i] == x;
  }

  lemma AscendingNoRepeat(ks: seq<string>)
    requires Ascending(ks) && |ks| > 0
    ensures ks[0] !in ks[1..]
  {
    if ks[0] in ks[1..] {
      var i :| 0 <= i < |ks[1..]| && ks[1..][i] == ks[0];
      LessTotal(ks[0], ks[i + 1]);
    }
  }

  lemma EmptyIffNone(s: seq<string>)
    ensures |s| == 0 <==> forall x :: x !in s
  {
    if |s| > 0 { assert s[0] in s; }
  }

  // There is only one way to sort a set of keys.
  lemma {:induction false} AscendingUnique(a: seq<string>, b: seq<string>)
    requires Ascending(a) && Ascending(b) && forall x :: x in a <==> x in b
    ensures a == b
    decreases |a|
  {
    EmptyIffNone(a);
    EmptyIffNone(b);
    if |a| > 0 {
      assert a[0] in b && b[0] in a;
      AscendingHead(a, b[0]);
      AscendingHead(b, a[0]);
      LessTotal(a[0], b[0]);
      AscendingNoRepeat(a);
      AscendingNoRepeat(b);
      forall x ensures x in a[1..] <==> x in b[1..] {
        assert a == [a[0]] + a[1..] && b == [b[0]] + b[1..];
        assert x in a[1..] ==> x in a;
        assert x in b[1..] ==> x in b;
      }
      AscendingUnique(a[1..], b[1..]);
    }
  }

  // --------------------------------------------------------------- the backends

  type StoreId = nat

  datatype Item = Item(key: string, body: string)

  // What a backend lists, and what it answers to Get, are two things: a listed copy
  // may lack the body, and a key may be known to one of the two only.
  datatype Backend = Backend(listed: seq<Item>, got: map<string, Item>)

  type Backends = map<StoreId, Backend>

  function ListedBy(bs: Backends, id: StoreId): seq<Item> {
    if id in bs then bs[id].listed else []
  }

  function GotBy(bs: Backends, id: StoreId, key: string): Option<Item> {
    if id in bs && key in bs[id].got then Some(bs[id].got[key]) else None
  }

  function FirstWithKey(items: seq<Item>, key: string): Option<Item> {
    if |items| == 0 then None
    else if items[0].key == key then Some(items[0])
    else FirstWithKey(items[1..], key)
  }

  function WithPrefix(items: seq<Item>, prefix: string): seq<Item> {
    if |items| == 0 then []
    else (if prefix <= items[0].key then [items[0]] else []) + WithPrefix(items[1..], prefix)
  }

  // Everything the backends list for a prefix, backend after backend.
  function Listing(bs: Backends, order: seq<StoreId>, prefix: string): seq<Item> {
    if |order| == 0 then []
    else WithPrefix(ListedBy(bs, order[0]), prefix) + Listing(bs, order[1..], prefix)
  }

  predicate Lists(bs: Backends, id: StoreId, key: string) {
    FirstWithKey(ListedBy(bs, id), key).Some?
  }

  predicate Gets(bs: Backends, id: StoreId, key: string) {
    GotBy(bs, id, key).Some?
  }

  // The first backend in order that lists the key, and the one that Get answers from.
  function ListSource(bs: Backends, order: seq<StoreId>, key: string): Option<StoreId> {
    if |order| == 0 then None
    else if Lists(bs, order[0], key) then Some(order[0])
    else ListSource(bs, order[1..], key)
  }

  function GetSource(bs: Backends, order: seq<StoreId>, key: string): Option<StoreId> {
    if |order| == 0 then None
    else if Gets(bs, order[0], key) then Some(order[0])
    else GetSource(bs, order[1..], key)
  }

  function ListedCopy(bs: Backends, order: seq<StoreId>, key: string): Option<Item> {
    match ListSource(bs, order, key)
    case None => None
    case Some(id) => FirstWithKey(ListedBy(bs, id), key)
  }

  function GetFrom(bs: Backends, order: seq<StoreId>, key: string): Option<Item> {
    match GetSource(bs, order, key)
    case None => None
    case Some(id) => GotBy(bs, id, key)
  }

  // Get comes upon a failing backend before it finds the key.
  predicate MeetsDown(bs: Backends, down: set<StoreId>, order: seq<StoreId>, key: string) {
    |order| > 0
    && (order[0] in down || (!Gets(bs, order[0], key) && MeetsDown(bs, down, order[1..], key)))
  }

  // The merge that List promises: each listed key once, ascending, in the copy of the
  // first backend that lists it.
  ghost predicate IsMerge(bs: Backends, order: seq<StoreId>, prefix: string, merged: seq<Item>) {
    && Ascending(KeysOf(merged))
    && (forall k :: k in KeysOf(merged) <==> prefix <= k && ListSource(bs, order, k).Some?)
    && (forall i :: 0 <= i < |merged| ==> ListedCopy(bs, order, merged[i].key) == Some(merged[i]))
  }

  function KeysOf(items: seq<Item>): seq<string> {
    seq(|items|, i requires 0 <= i < |items| => items[i].key)
  }

  // The item is the first that the backend lists under the key.
  ghost predicate FirstListed(items: seq<Item>, key: string, item: Item, n: nat) {
    && n < |items| && items[n] == item && item.key == key
    && forall m :: 0 <= m < n ==> items[m].key != key
  }

  lemma {:induction false} FirstWithKeyIff(items: seq<Item>, key: string, item: Item)
    ensures FirstWithKey(items, key) == Some(item) <==> exists n: nat :: FirstListed(items, key, item, n)
    ensures FirstWithKey(items, key) == None <==> forall m :: 0 <= m < |items| ==> items[m].key != key
  {
    if |items| > 0 {
      var rest := items[1..];
      FirstWithKeyIff(rest, key, item);
      assert forall m :: 0 <= m < |rest| ==> rest[m] == items[m + 1];
      if items[0].key == key {
        assert items[0] == item ==> FirstListed(items, key, item, 0);
      } else {
        assert forall m :: 0 < m < |items| ==> items[m] == rest[m - 1];
        forall n: nat | n < |rest| ensures FirstListed(rest, key, item, n) <==> FirstListed(items, key, item, n + 1) {}
        if exists n: nat :: FirstListed(items, key, item, n) {
          var n: nat :| FirstListed(items, key, item, n);
          assert FirstListed(rest, key, item, n - 1);
        }
      }
    }
  }

  // The i-th backend in order is the first that has the key in its listing.
  ghost predicate ListedFrom(bs: Backends, order: seq<StoreId>, key: string, item: Item, i: nat, n: nat) {
    && i < |order| && order[i] in bs && FirstListed(bs[order[i]].listed, key, item, n)
    && forall j, m :: 0 <= j < i && order[j] in bs && 0 <= m < |bs[order[j]].listed| ==>
         bs[order[j]].listed[m].key != key
  }

  /** The copy that List shows of a key, on what the backends list. */
  lemma {:induction false} ListedCopyIff(bs: Backends, order: seq<StoreId>, key: string, item: Item)
    ensures ListedCopy(bs, order, key) == Some(item)
       <==> exists i: nat, n: nat :: ListedFrom(bs, order, key, item, i, n)
    decreases |order|
  {
    if |order| > 0 {
      var rest := order[1..];
      ListedCopyIff(bs, rest, key, item);
      FirstWithKeyIff(ListedBy(bs, order[0]), key, item);
      SourceKnows(bs, order, key);
      if Lists(bs, order[0], key) {
        forall n: nat | FirstListed(ListedBy(bs, order[0]), key, item, n)
          ensures ListedFrom(bs, order, key, item, 0, n)
        {
        }
        forall i: nat, n: nat | ListedFrom(bs, order, key, item, i, n) ensures i == 0 {}
      } else {
        forall i: nat, n: nat | ListedFrom(bs, rest, key, item, i, n)
          ensures ListedFrom(bs, order, key, item, i + 1, n)
        {
          assert forall j :: 0 < j <= i ==> order[j] == rest[j - 1];
        }
        forall i: nat, n: nat | ListedFrom(bs, order, key, item, i, n)
          ensures i > 0 && ListedFrom(bs, rest, key, item, i - 1, n)
        {
          assert forall j :: 0 <= j < |rest| ==> rest[j] == order[j + 1];
        }
      }
    }
  }

  // The i-th backend in order is the first that gets the key.
  ghost predicate FirstToGet(bs: Backends, order: seq<StoreId>, key: string, i: nat) {
    && i < |order| && order[i] in bs && key in bs[order[i]].got
    && forall j :: 0 <= j < i && order[j] in bs ==> key !in bs[order[j]].got
  }

  /** The item that Get answers with, on what the backends hold. */
  lemma {:induction false} GetFromIff(bs: Backends, order: seq<StoreId>, key: string, item: Item)
    ensures GetFrom(bs, order, key) == Some(item)
       <==> exists i: nat :: FirstToGet(bs, order, key, i) && bs[order[i]].got[key] == item
    decreases |order|
  {
    if |order| > 0 {
      var rest := order[1..];
      GetFromIff(bs, rest, key, item);
      if Gets(bs, order[0], key) {
        assert FirstToGet(bs, order, key, 0);
      } else {
        forall i: nat | FirstToGet(bs, rest, key, i) ensures FirstToGet(bs, order, key, i + 1) {
          assert forall j :: 0 < j <= i ==> order[j] == rest[j - 1];
        }
        forall i: nat | FirstToGet(bs, order, key, i) ensures i > 0 && FirstToGet(bs, rest, key, i - 1) {
          assert forall j :: 0 <= j < |rest| ==> rest[j] == order[j + 1];
        }
      }
    }
  }

  // The i-th backend fails, and none in front of it gets the key.
  ghost predicate FirstToFail(bs: Backends, down: set<StoreId>, order: seq<StoreId>, key: string, i: nat) {
    && i < |order| && order[i] in down
    && forall j :: 0 <= j < i && order[j] in bs ==> key !in bs[order[j]].got
  }

  // Get fails exactly when a failing backend comes before every one that gets the key.
  lemma {:induction false} MeetsDownIff(bs: Backends, down: set<StoreId>, order: seq<StoreId>, key: string)
    ensures MeetsDown(bs, down, order, key) <==> exists i: nat :: FirstToFail(bs, down, order, key, i)
    decreases |order|
  {
    if |order| > 0 && order[0] !in down {
      var rest := order[1..];
      MeetsDownIff(bs, down, rest, key);
      assert forall j :: 0 <= j < |rest| ==> rest[j] == order[j + 1];
      forall i: nat | FirstToFail(bs, down, rest, key, i) && !Gets(bs, order[0], key)
        ensures FirstToFail(bs, down, order, key, i + 1)
      {
        assert forall j :: 0 < j <= i ==> order[j] == rest[j - 1];
      }
      forall i: nat | FirstToFail(bs, down, order, key, i)
        ensures i > 0 && FirstToFail(bs, down, rest, key, i - 1) && !Gets(bs, order[0], key)
      {
      }
    } else if |order| > 0 {
      assert FirstToFail(bs, down, order, key, 0);
    }
  }

  // The promise leaves no freedom.
  lemma MergeUnique(bs: Backends, order: seq<StoreId>, prefix: string, a: seq<Item>, b: seq<Item>)
    requires IsMerge(bs, order, prefix, a) && IsMerge(bs, order, prefix, b)
    ensures a == b
  {
    AscendingUnique(KeysOf(a), KeysOf(b));
    assert |a| == |KeysOf(a)| && |b| == |KeysOf(b)|;
    forall i | 0 <= i < |a| ensures a[i] == b[i] {
      assert KeysOf(a)[i] == a[i].key && KeysOf(b)[i] == b[i].key;
    }
  }

  lemma {:induction false} FirstWithKeyAppend(a: seq<Item>, b: seq<Item>, key: string)
    ensures FirstWithKey(a + b, key)
         == if FirstWithKey(a, key).Some? then FirstWithKey(a, key) else FirstWithKey(b, key)
  {
    if |a| == 0 {
      assert a + b == b;
    } else {
      assert (a + b)[1..] == a[1..] + b;
      FirstWithKeyAppend(a[1..], b, key);
    }
  }

  lemma {:induction false} FirstWithPrefix(items: seq<Item>, prefix: string, key: string)
    ensures FirstWithKey(WithPrefix(items, prefix), key) == if prefix <= key then FirstWithKey(items, key) else None
  {
    if |items| > 0 {
      FirstWithPrefix(items[1..], prefix, key);
      var head := if prefix <= items[0].key then [items[0]] else [];
      FirstWithKeyAppend(head, WithPrefix(items[1..], prefix), key);
    }
  }

  // The copy that the merge keeps of a key is the one of the first backend that lists it.
  lemma {:induction false} ListingKeepsFirst(bs: Backends, order: seq<StoreId>, prefix: string, key: string)
    ensures FirstWithKey(Listing(bs, order, prefix), key)
         == if prefix <= key then ListedCopy(bs, order, key) else None
  {
    if |order| > 0 {
      var items := ListedBy(bs, order[0]);
      ListingKeepsFirst(bs, order[1..], prefix, key);
      FirstWithPrefix(items, prefix, key);
      FirstWithKeyAppend(WithPrefix(items, prefix), Listing(bs, order[1..], prefix), key);
    }
  }

  // The first backend that knows the key in either way.
  function FirstKnowing(bs: Backends, order: seq<StoreId>, key: string): Option<StoreId> {
    if |order| == 0 then None
    else if Lists(bs, order[0], key) || Gets(bs, order[0], key) then Some(order[0])
    else FirstKnowing(bs, order[1..], key)
  }

  /** List takes a key from the backend that Get answers from, exactly when the first
      backend that lists or gets the key does both.
   */
  lemma {:induction false} SourcesAgreeIff(bs: Backends, order: seq<StoreId>, key: string)
    ensures ListSource(bs, order, key) == GetSource(bs, order, key)
       <==> match FirstKnowing(bs, order, key)
            case None => true
            case Some(id) => Lists(bs, id, key) && Gets(bs, id, key)
  {
    if |order| > 0 {
      SourcesAgreeIff(bs, order[1..], key);
      SourceKnows(bs, order[1..], key);
    }
  }

  lemma {:induction false} SourceKnows(bs: Backends, order: seq<StoreId>, key: string)
    ensures ListSource(bs, order, key).Some? ==> Lists(bs, ListSource(bs, order, key).value, key)
    ensures GetSource(bs, order, key).Some? ==> Gets(bs, GetSource(bs, order, key).value, key)
  {
    if |order| > 0 { SourceKnows(bs, order[1..], key); }
  }

  // A backend that lists exactly the keys that it gets; and one that lists the items.
  ghost predicate ListsItsKeys(bs: Backends, id: StoreId) {
    forall k :: Lists(bs, id, k) <==> Gets(bs, id, k)
  }

  ghost predicate ListsItsItems(bs: Backends, id: StoreId) {
    forall k :: FirstWithKey(ListedBy(bs, id), k) == GotBy(bs, id, k)
  }

  /** Backends that list their keys: the listing and Get agree on where each key comes
      from. Backends that list their items: they agree on the item.
   */
  lemma {:induction false} ListingAgreesWithGet(bs: Backends, order: seq<StoreId>, key: string)
    ensures (forall s :: s in order ==> ListsItsKeys(bs, s)) ==> ListSource(bs, order, key) == GetSource(bs, order, key)
    ensures (forall s :: s in order ==> ListsItsItems(bs, s)) ==> ListedCopy(bs, order, key) == GetFrom(bs, order, key)
  {
    if |order| > 0 {
      ListingAgreesWithGet(bs, order[1..], key);
      var first := order[0];
      if forall s :: s in order ==> ListsItsKeys(bs, s) {
        assert ListsItsKeys(bs, first);
        assert Lists(bs, first, key) <==> Gets(bs, first, key);
      }
      if forall s :: s in order ==> ListsItsItems(bs, s) {
        assert ListsItsItems(bs, first);
        assert FirstWithKey(ListedBy(bs, first), key) == GotBy(bs, first, key);
      }
    }
  }

  // A backend that lists items without their body, as FileStore does.
  lemma ListedCopyCanLackBody(id: StoreId, key: string, body: string)
    requires body != ""
    ensures var bs: Backends := map[id := Backend([Item(key, "")], map[key := Item(key, body)])];
            && ListsItsKeys(bs, id) && ListSource(bs, [id], key) == GetSource(bs, [id], key) == Some(id)
            && IsMerge(bs, [id], "", [Item(key, "")])
            && GetFrom(bs, [id], key) == Some(Item(key, body)) != ListedCopy(bs, [id], key)
  {
    var bs: Backends := map[id := Backend([Item(key, "")], map[key := Item(key, body)])];
    var listed := [Item(key, "")];
    assert ListedBy(bs, id) == listed && listed[1..] == [];
    forall k ensures FirstWithKey(listed, k) == if k == key then Some(listed[0]) else None {}
    assert [id][1..] == [];
    assert KeysOf(listed) == [key];
    forall k ensures ListSource(bs, [id], k) == if k == key then Some(id) else None {
      assert Lists(bs, id, k) <==> k == key;
    }
  }

  lemma {:induction false} FirstWithKeyHasKey(items: seq<Item>, key: string)
    ensures FirstWithKey(items, key).Some? ==> FirstWithKey(items, key).value.key == key
  {
    if |items| > 0 { FirstWithKeyHasKey(items[1..], key); }
  }

  // ------------------------------------------------------------------- paging

  datatype ListResult = ListResult(items: seq<Item>, nextCursor: string)

  // Where a page starts: at the cursor's item, or at the front when there is none.
  function StartOf(merged: seq<Item>, cursor: string): (i: nat)
    ensures i < |merged| || i == 0
  {
    if cursor == "" then 0 else var i := IndexOf(merged, cursor); if i == |merged| then 0 else i
  }

  function IndexOf(merged: seq<Item>, key: string): (i: nat)
    ensures i <= |merged|
    ensures i < |merged| ==> merged[i].key == key
    ensures forall j :: 0 <= j < i ==> merged[j].key != key
  {
    if |merged| == 0 || merged[0].key == key then 0 else 1 + IndexOf(merged[1..], key)
  }

  function Page(merged: seq<Item>, limit: int, cursor: string): ListResult {
    var rest := merged[StartOf(merged, cursor)..];
    if limit > 0 && |rest| > limit then ListResult(rest[..limit], rest[limit].key) else ListResult(rest, "")
  }

  class RoutingStore {
    const routes: map<string, StoreId>
    const fallback: Option<StoreId>
    var backends: Backends
    var down: set<StoreId>  // backends whose calls fail

    constructor (routes: map<string, StoreId>, fallback: Option<StoreId>, backends: Backends)
      ensures this.routes == routes && this.fallback == fallback && this.backends == backends && down == {}
    {
      this.routes, this.fallback, this.backends, down := routes, fallback, backends, {};
    }

    // allStores: routes in pattern order, each backend once, the fallback last.
    method AllStores() returns (stores: seq<StoreId>)
      ensures IsStoreOrder(routes, fallback, stores)
    {
      var keys := Patterns();
      SortSorts(keys);
      keys := SortKeys(keys);
      stores := Backends(keys);
      if fallback.Some? && fallback.value !in stores { stores := stores + [fallback.value]; }
      assert OrderBy(routes, fallback, keys, stores);
    }

    method Patterns() returns (keys: seq<string>)
      ensures Distinct(keys) && forall k :: k in routes <==> k in keys
    {
      keys := [];
      var left := routes.Keys;
      while left != {}
        invariant left <= routes.Keys && Distinct(keys)
        invariant forall k :: k in routes <==> k in left || k in keys
        invariant forall k :: k in keys ==> k !in left
        decreases left
      {
        var k :| k in left;
        keys := keys + [k];
        left := left - {k};
      }
    }

    // The backends of these patterns, each at its first use.
    method Backends(keys: seq<string>) returns (stores: seq<StoreId>)
      requires forall k :: k in keys ==> k in routes
      ensures stores == FirstUses(routes, keys)
    {
      var seen: set<StoreId> := {};
      stores := [];
      for i := 0 to |keys|
        invariant seen == set s | s in stores
        invariant stores == FirstUses(routes, keys[..i])
      {
        assert keys[..i + 1][..i] == keys[..i];
        var s := routes[keys[i]];
        if s !in seen {
          seen := seen + {s};
          stores := stores + [s];
        }
      }
      assert keys[..|keys|] == keys;
    }

    // Get stops at the first hit, so a failing backend behind it does no harm.
    method Get(key: string) returns (ok: bool, item: Option<Item>)
      ensures forall order :: IsStoreOrder(routes, fallback, order) ==>
        && (ok <==> !MeetsDown(backends, down, order, key))
        && (ok ==> item == GetFrom(backends, order, key))
    {
      var stores := AllStores();
      StoreOrderUnique(routes, fallback, stores);
      assert stores[0..] == stores;
      for i := 0 to |stores|
        invariant GetFrom(backends, stores, key) == GetFrom(backends, stores[i..], key)
        invariant MeetsDown(backends, down, stores, key) == MeetsDown(backends, down, stores[i..], key)
      {
        assert stores[i..][1..] == stores[i + 1..];
        if stores[i] in down { return false, None; }
        var hit := GotBy(backends, stores[i], key);
        if hit.Some? { return true, hit; }
      }
      return true, None;
    }

    // The inner loop of List.
    method AddFirstCopies(items: seq<Item>, all0: map<string, Item>, keys0: seq<string>, ghost done: seq<Item>)
      returns (all: map<string, Item>, keys: seq<string>)
      requires Tracks(done, all0, keys0)
      ensures Tracks(done + items, all, keys)
    {
      all, keys := all0, keys0;
      assert done + items[..0] == done;
      for j := 0 to |items|
        invariant Tracks(done + items[..j], all, keys)
      {
        var item := items[j];
        TracksNext(done + items[..j], all, keys, item);
        if item.key !in all {
          all := all[item.key := item];
          keys := keys + [item.key];
        }
        assert done + items[..j + 1] == done + items[..j] + [item];
      }
      assert items[..|items|] == items;
    }

    // The merge loop of List: the first copy of each key, and the keys in order of appearance.
    method Collect(stores: seq<StoreId>, prefix: string) returns (ok: bool, all: map<string, Item>, keys: seq<string>)
      ensures ok <==> forall s :: s in stores ==> s !in down
      ensures ok ==> Tracks(Listing(backends, stores, prefix), all, keys)
    {
      ok, all, keys := true, map[], [];
      ghost var done: seq<Item> := [];
      assert stores[0..] == stores;
      for i := 0 to |stores|
        invariant forall j :: 0 <= j < i ==> stores[j] !in down
        invariant done + Listing(backends, stores[i..], prefix) == Listing(backends, stores, prefix)
        invariant Tracks(done, all, keys)
      {
        if stores[i] in down { return false, all, keys; }
        var items := WithPrefix(ListedBy(backends, stores[i]), prefix);
        all, keys := AddFirstCopies(items, all, keys, done);
        assert stores[i..][1..] == stores[i + 1..];
        ghost var later := Listing(backends, stores[i + 1..], prefix);
        assert done + (items + later) == (done + items) + later;
        done := done + items;
      }
      assert done == Listing(backends, stores, prefix);
    }

    /** List: one page of the merge of all backends; it needs every backend. */
    method List(prefix: string, limit: int, cursor: string) returns (ok: bool, r: ListResult)
      ensures forall order :: IsStoreOrder(routes, fallback, order) ==>
        && (ok <==> forall s :: s in order ==> s !in down)
        && (ok ==> exists merged :: IsMerge(backends, order, prefix, merged) && r == Page(merged, limit, cursor))
    {
      r := ListResult([], "");
      var stores := AllStores();
      StoreOrderUnique(routes, fallback, stores);
      var all, keys;
      ok, all, keys := Collect(stores, prefix);
      if !ok { return; }
      SortSorts(keys);
      keys := SortKeys(keys);
      var merged := Pick(all, keys);
      MergeIsRight(backends, stores, prefix, all, keys, merged);
      r := CutPage(merged, limit, cursor);
      assert IsMerge(backends, stores, prefix, merged) && r == Page(merged, limit, cursor);
    }
  }

  method Pick(all: map<string, Item>, keys: seq<string>) returns (items: seq<Item>)
    requires forall k :: k in keys ==> k in all
    ensures |items| == |keys| && forall j :: 0 <= j < |keys| ==> items[j] == all[keys[j]]
  {
    items := [];
    for i := 0 to |keys|
      invariant |items| == i
      invariant forall j :: 0 <= j < i ==> items[j] == all[keys[j]]
    {
      items := items + [all[keys[i]]];
    }
  }

  // The cursor scan and the cut of List.
  method CutPage(items: seq<Item>, limit: int, cursor: string) returns (r: ListResult)
    ensures r == Page(items, limit, cursor)
  {
    var start := 0;
    if cursor != "" {
      var i := 0;
      while i < |items| && items[i].key != cursor
        invariant 0 <= i <= |items|
        invariant forall j :: 0 <= j < i ==> items[j].key != cursor
      {
        i := i + 1;
      }
      if i < |items| { start := i; }
    }
    var rest := items[start..];
    var next := "";
    if limit > 0 && |rest| > limit {
      next := rest[limit].key;
      rest := rest[..limit];
    }
    return ListResult(rest, next);
  }

  // Each backend once, where its first pattern comes.
  function FirstUses(routes: map<string, StoreId>, keys: seq<string>): seq<StoreId>
    requires forall i :: 0 <= i < |keys| ==> keys[i] in routes
  {
    if |keys| == 0 then []
    else
      var front := FirstUses(routes, keys[..|keys| - 1]);
      var s := routes[keys[|keys| - 1]];
      if s in front then front else front + [s]
  }

  ghost predicate IsStoreOrder(routes: map<string, StoreId>, fallback: Option<StoreId>, order: seq<StoreId>) {
    exists keys :: OrderBy(routes, fallback, keys, order)
  }

  ghost predicate OrderBy(routes: map<string, StoreId>, fallback: Option<StoreId>, keys: seq<string>,
                          order: seq<StoreId>) {
    && Ascending(keys) && (forall k :: k in keys <==> k in routes)
    && (forall i :: 0 <= i < |keys| ==> keys[i] in routes)
    && var used := FirstUses(routes, keys);
       order == if fallback.Some? && fallback.value !in used then used + [fallback.value] else used
  }

  // Some pattern of s comes before all patterns of t.
  ghost predicate EarlierPattern(routes: map<string, StoreId>, s: StoreId, t: StoreId) {
    exists k :: k in routes && routes[k] == s && forall l :: l in routes && routes[l] == t ==> Less(k, l)
  }

  /** The order on the routes themselves: every routed backend and the fallback, once
      each, by their least patterns, a fallback without a route last.
   */
  lemma StoreOrderMeans(routes: map<string, StoreId>, fallback: Option<StoreId>, order: seq<StoreId>)
    requires IsStoreOrder(routes, fallback, order)
    ensures Distinct(order)
    ensures forall s :: s in order <==> s in routes.Values || fallback == Some(s)
    ensures forall i, j :: 0 <= i < j < |order| ==> EarlierPattern(routes, order[i], order[j])
  {
    var keys :| OrderBy(routes, fallback, keys, order);
    var used := FirstUses(routes, keys);
    FirstUsesOnce(routes, keys);
    if fallback.Some? { OnceMore(used, fallback.value); }
    forall s ensures s in used <==> s in routes.Values { FirstUsesIn(routes, keys, s); }
    forall i, j | 0 <= i < j < |order| ensures EarlierPattern(routes, order[i], order[j]) {
      assert i < |used| && order[i] == used[i] && order[j] !in used[..i + 1];
      EarlierUse(routes, keys, i, order[j]);
    }
  }

  lemma EarlierUse(routes: map<string, StoreId>, keys: seq<string>, i: nat, t: StoreId)
    requires Ascending(keys) && (forall k :: k in keys <==> k in routes)
    requires forall i :: 0 <= i < |keys| ==> keys[i] in routes
    requires i < |FirstUses(routes, keys)| && t !in FirstUses(routes, keys)[..i + 1]
    ensures EarlierPattern(routes, FirstUses(routes, keys)[i], t)
  {
    var used := FirstUses(routes, keys);
    var n := FirstUseAt(routes, keys, i);
    assert used[..i + 1] == used[..i] + [used[i]];
    forall l | l in routes && routes[l] == t ensures Less(keys[n], l) {
      var m :| 0 <= m < |keys| && keys[m] == l;
      assert routes[keys[m]] !in used[..i];
    }
  }

  // Where a backend is first used, the earlier patterns are of backends used before.
  lemma {:induction false} FirstUseAt(routes: map<string, StoreId>, keys: seq<string>, i: nat) returns (n: nat)
    requires forall i :: 0 <= i < |keys| ==> keys[i] in routes
    requires i < |FirstUses(routes, keys)|
    ensures n < |keys| && routes[keys[n]] == FirstUses(routes, keys)[i]
    ensures forall m :: 0 <= m < n ==> routes[keys[m]] in FirstUses(routes, keys)[..i]
    decreases |keys|
  {
    var front := keys[..|keys| - 1];
    var used, before := FirstUses(routes, keys), FirstUses(routes, front);
    if i < |before| {
      n := FirstUseAt(routes, front, i);
      assert used[..i] == before[..i];
    } else {
      n := |keys| - 1;
      assert used[..i] == before;
      forall m | 0 <= m < n ensures routes[keys[m]] in before {
        assert front[m] == keys[m] && front[m] in front;
        FirstUsesIn(routes, front, routes[keys[m]]);
      }
    }
  }

  ghost predicate Uses(routes: map<string, StoreId>, keys: seq<string>, s: StoreId) {
    exists k :: k in keys && k in routes && routes[k] == s
  }

  lemma UsesPush(routes: map<string, StoreId>, keys: seq<string>, k: string, s: StoreId)
    requires k in routes
    ensures Uses(routes, keys + [k], s) <==> Uses(routes, keys, s) || routes[k] == s
  {
    if Uses(routes, keys, s) {
      var l :| l in keys && l in routes && routes[l] == s;
      assert l in keys + [k];
    }
    assert k in keys + [k];
  }

  lemma {:induction false} FirstUsesIn(routes: map<string, StoreId>, keys: seq<string>, s: StoreId)
    requires forall i :: 0 <= i < |keys| ==> keys[i] in routes
    ensures s in FirstUses(routes, keys) <==> Uses(routes, keys, s)
    decreases |keys|
  {
    if |keys| > 0 {
      var n := |keys| - 1;
      FirstUsesIn(routes, keys[..n], s);
      assert keys == keys[..n] + [keys[n]];
      UsesPush(routes, keys[..n], keys[n], s);
    }
  }

  lemma {:induction false} FirstUsesOnce(routes: map<string, StoreId>, keys: seq<string>)
    requires forall i :: 0 <= i < |keys| ==> keys[i] in routes
    ensures Distinct(FirstUses(routes, keys))
    decreases |keys|
  {
    if |keys| > 0 {
      var n := |keys| - 1;
      FirstUsesOnce(routes, keys[..n]);
      OnceMore(FirstUses(routes, keys[..n]), routes[keys[n]]);
    }
  }

  lemma OnceMore(used: seq<StoreId>, s: StoreId)
    requires Distinct(used)
    ensures s !in used ==> Distinct(used + [s])
  {
    var more := used + [s];
    if s !in used {
      forall i, j | 0 <= i < j < |more| ensures more[i] != more[j] {
        assert more[i] == used[i] && used[i] in used;
      }
    }
  }

  // The order does not depend on how the map happens to be iterated.
  lemma StoreOrderUnique(routes: map<string, StoreId>, fallback: Option<StoreId>, a: seq<StoreId>)
    requires IsStoreOrder(routes, fallback, a)
    ensures forall b :: IsStoreOrder(routes, fallback, b) ==> a == b
  {
    var ka :| OrderBy(routes, fallback, ka, a);
    forall b | IsStoreOrder(routes, fallback, b) ensures a == b {
      var kb :| OrderBy(routes, fallback, kb, b);
      AscendingUnique(ka, kb);
    }
  }

  ghost predicate Tracks(done: seq<Item>, all: map<string, Item>, keys: seq<string>) {
    && Distinct(keys) && (forall k :: k in keys <==> k in all)
    && (forall k :: k in all <==> FirstWithKey(done, k).Some?)
    && (forall k :: k in all ==> FirstWithKey(done, k) == Some(all[k]))
  }

  lemma TracksNext(done: seq<Item>, all: map<string, Item>, keys: seq<string>, item: Item)
    requires Tracks(done, all, keys)
    ensures if item.key in all then Tracks(done + [item], all, keys)
            else Tracks(done + [item], all[item.key := item], keys + [item.key])
  {
    forall k ensures FirstWithKey(done + [item], k)
      == if FirstWithKey(done, k).Some? then FirstWithKey(done, k) else if item.key == k then Some(item) else None
    {
      FirstWithKeyAppend(done, [item], k);
      assert [item][1..] == [];
    }
    var after := done + [item];
    assert forall k :: FirstWithKey(after, k).Some? <==> k in all || k == item.key;
  }

  lemma MergeIsRight(bs: Backends, order: seq<StoreId>, prefix: string, all: map<string, Item>, keys: seq<string>,
                     merged: seq<Item>)
    requires Ascending(keys) && forall k :: k in keys <==> k in all
    requires forall k :: k in all <==> FirstWithKey(Listing(bs, order, prefix), k).Some?
    requires forall k :: k in all ==> FirstWithKey(Listing(bs, order, prefix), k) == Some(all[k])
    requires |merged| == |keys| && forall j :: 0 <= j < |keys| ==> keys[j] in all && merged[j] == all[keys[j]]
    ensures IsMerge(bs, order, prefix, merged)
  {
    forall i | 0 <= i < |merged| ensures merged[i].key == keys[i] {
      FirstWithKeyHasKey(Listing(bs, order, prefix), keys[i]);
    }
    assert KeysOf(merged) == keys;
    forall k
      ensures FirstWithKey(Listing(bs, order, prefix), k) == if prefix <= k then ListedCopy(bs, order, k) else None
    {
      ListingKeepsFirst(bs, order, prefix, k);
    }
    forall k ensures ListSource(bs, order, k).Some? <==> ListedCopy(bs, order, k).Some? { SourceKnows(bs, order, k); }
  }

  lemma EmptyKeyFirst(merged: seq<Item>, i: nat)
    requires Ascending(KeysOf(merged)) && 0 < i < |merged|
    ensures merged[i].key != ""
  {
    assert Less(KeysOf(merged)[0], KeysOf(merged)[i]);
  }

  lemma {:induction false} IndexOfKeyAt(merged: seq<Item>, n: nat)
    requires Ascending(KeysOf(merged)) && n < |merged|
    ensures IndexOf(merged, merged[n].key) == n
    decreases n
  {
    if n > 0 {
      assert Less(KeysOf(merged)[0], KeysOf(merged)[n]);
      LessTotal(merged[0].key, merged[n].key);
      assert KeysOf(merged[1..]) == KeysOf(merged)[1..];
      IndexOfKeyAt(merged[1..], n - 1);
    }
  }

  lemma {:induction false} IndexOfIffKey(merged: seq<Item>, key: string)
    ensures IndexOf(merged, key) < |merged| <==> key in KeysOf(merged)
  {
    if |merged| > 0 {
      assert KeysOf(merged) == [merged[0].key] + KeysOf(merged[1..]);
      IndexOfIffKey(merged[1..], key);
    }
  }

  /** A page starts at the cursor's item, or at the front when there is none, and has as
      many items as there are, but no more than a positive limit; only then there is a
      next cursor, the key of the item behind it.
   */
  lemma PageMeans(items: seq<Item>, limit: int, cursor: string) returns (start: nat)
    ensures start <= |items|
    ensures cursor == "" || (forall i :: 0 <= i < |items| ==> items[i].key != cursor) ==> start == 0
    ensures cursor != "" && (exists i :: 0 <= i < |items| && items[i].key == cursor) ==>
              start < |items| && items[start].key == cursor && forall j :: 0 <= j < start ==> items[j].key != cursor
    ensures Page(items, limit, cursor)
         == if limit > 0 && |items| - start > limit
            then ListResult(items[start..start + limit], items[start + limit].key)
            else ListResult(items[start..], "")
  {
    start := StartOf(items, cursor);
    if limit > 0 && |items| - start > limit { assert items[start..][..limit] == items[start..start + limit]; }
  }

  // A page's cursor leads to the item right after the page.
  lemma NextCursorContinues(merged: seq<Item>, limit: int, cursor: string)
    requires Ascending(KeysOf(merged)) && limit > 0
    ensures var next := Page(merged, limit, cursor).nextCursor;
            next != "" <==> StartOf(merged, cursor) + limit < |merged|
    ensures var next := Page(merged, limit, cursor).nextCursor;
            next != "" ==> StartOf(merged, next) == StartOf(merged, cursor) + limit
  {
    var start := StartOf(merged, cursor);
    if start + limit < |merged| {
      EmptyKeyFirst(merged, start + limit);
      IndexOfKeyAt(merged, start + limit);
    }
  }

  // A client that follows cursors until there is none.
  function AllPages(merged: seq<Item>, limit: int, cursor: string): seq<Item>
    requires Ascending(KeysOf(merged)) && limit > 0
    decreases |merged| - StartOf(merged, cursor)
  {
    var page := Page(merged, limit, cursor);
    NextCursorContinues(merged, limit, cursor);
    if page.nextCursor == "" then page.items else page.items + AllPages(merged, limit, page.nextCursor)
  }

  /** Over unchanging backends, following the cursors from any page on ends, and the
      pages add up to the rest of the merge: nothing skipped, nothing twice. */
  lemma {:induction false} PagesAddUp(merged: seq<Item>, limit: int, cursor: string)
    requires Ascending(KeysOf(merged)) && limit > 0
    ensures AllPages(merged, limit, cursor) == merged[StartOf(merged, cursor)..]
    decreases |merged| - StartOf(merged, cursor)
  {
    var page := Page(merged, limit, cursor);
    PageThenRest(merged, limit, cursor);
    NextCursorContinues(merged, limit, cursor);
    if page.nextCursor != "" { PagesAddUp(merged, limit, page.nextCursor); }
  }

  // A page and what its cursor leads to make up what its own cursor led to.
  lemma PageThenRest(merged: seq<Item>, limit: int, cursor: string)
    requires Ascending(KeysOf(merged)) && limit > 0
    ensures var page := Page(merged, limit, cursor);
            merged[StartOf(merged, cursor)..]
            == page.items + if page.nextCursor == "" then [] else merged[StartOf(merged, page.nextCursor)..]
  {
    NextCursorContinues(merged, limit, cursor);
    var start := StartOf(merged, cursor);
    if start + limit < |merged| {
      assert merged[start..] == merged[start..][..limit] + merged[start + limit..];
    }
  }

  /** From the empty cursor the pages are the whole merge: each listed key once, in
      order, in the copy of the first backend that lists it. With backends that list
      their keys that is the one Get answers from, and each key that Get knows is there.
   */
  lemma PagesAreTheMerge(bs: Backends, order: seq<StoreId>, prefix: string, merged: seq<Item>, limit: int, key: string)
    requires IsMerge(bs, order, prefix, merged) && limit > 0
    ensures AllPages(merged, limit, "") == merged
    ensures IsMerge(bs, order, prefix, AllPages(merged, limit, ""))
    ensures (forall s :: s in order ==> ListsItsKeys(bs, s)) ==>
              && ListSource(bs, order, key) == GetSource(bs, order, key)
              && (key in KeysOf(AllPages(merged, limit, "")) <==> prefix <= key && GetFrom(bs, order, key).Some?)
    ensures (forall s :: s in order ==> ListsItsItems(bs, s)) ==>
              forall i :: 0 <= i < |merged| ==>
                GetFrom(bs, order, AllPages(merged, limit, "")[i].key) == Some(merged[i])
  {
    PagesAddUp(merged, limit, "");
    assert merged[0..] == merged;
    ListingAgreesWithGet(bs, order, key);
    SourceKnows(bs, order, key);
    if forall s :: s in order ==> ListsItsItems(bs, s) {
      forall i | 0 <= i < |merged| ensures GetFrom(bs, order, merged[i].key) == Some(merged[i]) {
        ListingAgreesWithGet(bs, order, merged[i].key);
      }
    }
  }

  /** A cursor whose key has since been deleted starts over from the front; one
      whose key is still there continues exactly at it. */
  lemma CursorContinuesIff(merged: seq<Item>, limit: int, cursor: string)
    requires Ascending(KeysOf(merged)) && cursor != "" && |merged| > 0
    ensures (Page(merged, limit, cursor).items != [] && Page(merged, limit, cursor).items[0].key == cursor)
       <==> cursor in KeysOf(merged)
    ensures cursor !in KeysOf(merged) ==> Page(merged, limit, cursor) == Page(merged, limit, "")
  {
    IndexOfIffKey(merged, cursor);
    assert KeysOf(merged)[0] == merged[0].key;
  }
}
