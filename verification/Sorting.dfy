/** Sorting by key: what `sort_by` and `std::sort` are used for in the sources. */
module Sorting {
  datatype Keyed<+K, +T> = Keyed(key: K, item: T)

  ghost predicate StrictTotalOrder<K(!new)>(lt: (K, K) -> bool) {
    && (forall a, b :: lt(a, b) || a == b || lt(b, a))
    && (forall a, b :: lt(a, b) ==> !lt(b, a))
    && (forall a, b, c :: lt(a, b) && lt(b, c) ==> lt(a, c))
  }

  ghost predicate Ascending<K(!new), T>(s: seq<Keyed<K, T>>, lt: (K, K) -> bool) {
    forall i, j :: 0 <= i < j < |s| ==> !lt(s[j].key, s[i].key)
  }

  ghost predicate StrictlyAscending<K(!new), T>(s: seq<Keyed<K, T>>, lt: (K, K) -> bool) {
    forall i, j :: 0 <= i < j < |s| ==> lt(s[i].key, s[j].key)
  }

  predicate HasEqualNeighbours<K(==), T>(s: seq<Keyed<K, T>>) {
    exists i :: 0 < i < |s| && s[i - 1].key == s[i].key
  }

  function ItemsOf<K, T>(s: seq<Keyed<K, T>>): (r: seq<T>)
    ensures |r| == |s| && forall i :: 0 <= i < |s| ==> r[i] == s[i].item
  {
    if s == [] then [] else [s[0].item] + ItemsOf(s[1..])
  }

  function Insert<K, T>(x: Keyed<K, T>, s: seq<Keyed<K, T>>, lt: (K, K) -> bool): (r: seq<Keyed<K, T>>)
    ensures |r| == |s| + 1
    ensures multiset(r) == multiset(s) + multiset{x}
  {
    if s == [] || !lt(s[0].key, x.key) then [x] + s
    else
      assert s == [s[0]] + s[1..];
      [s[0]] + Insert(x, s[1..], lt)
  }

  /** A stable sort by key. */
  function Sort<K, T>(s: seq<Keyed<K, T>>, lt: (K, K) -> bool): (r: seq<Keyed<K, T>>)
    ensures |r| == |s|
    ensures multiset(r) == multiset(s)
  {
    if s == [] then []
    else
      assert s == [s[0]] + s[1..];
      Insert(s[0], Sort(s[1..], lt), lt)
  }

  lemma {:induction false} InsertAscends<K(!new), T>(x: Keyed<K, T>, s: seq<Keyed<K, T>>, lt: (K, K) -> bool)
    requires StrictTotalOrder(lt) && Ascending(s, lt)
    ensures Ascending(Insert(x, s, lt), lt)
  {
    var r := Insert(x, s, lt);
    if s == [] || !lt(s[0].key, x.key) {
      assert forall j :: 1 <= j < |r| ==> r[j] == s[j - 1];
    } else {
      InsertAscends(x, s[1..], lt);
      var t := Insert(x, s[1..], lt);
      forall j | 0 <= j < |t| ensures !lt(t[j].key, s[0].key) {
        assert t[j] in multiset(t);
        assert t[j] == x || t[j] in s[1..];
      }
    }
  }

  lemma {:induction false} SortAscends<K(!new), T>(s: seq<Keyed<K, T>>, lt: (K, K) -> bool)
    requires StrictTotalOrder(lt)
    ensures Ascending(Sort(s, lt), lt)
  {
    if s != [] {
      SortAscends(s[1..], lt);
      InsertAscends(s[0], Sort(s[1..], lt), lt);
    }
  }

  /** An ascending sequence without equal neighbours is strictly ascending. */
  lemma {:induction false} DistinctNeighboursAscendStrictly<K(!new), T>(s: seq<Keyed<K, T>>, lt: (K, K) -> bool)
    requires StrictTotalOrder(lt) && Ascending(s, lt)
    requires !HasEqualNeighbours(s)
    ensures StrictlyAscending(s, lt)
  {
    forall i, j | 0 <= i < j < |s| ensures lt(s[i].key, s[j].key) {
      assert s[j - 1].key != s[j].key && !lt(s[j].key, s[j - 1].key);
      assert i < j - 1 ==> !lt(s[j - 1].key, s[i].key);
    }
  }

  lemma {:induction false} InsertFront<K(!new), T>(x: Keyed<K, T>, s: seq<Keyed<K, T>>, lt: (K, K) -> bool)
    requires StrictTotalOrder(lt) && StrictlyAscending([x] + s, lt)
    ensures Insert(x, s, lt) == [x] + s
  {
    if s != [] {
      assert lt(([x] + s)[0].key, ([x] + s)[1].key);
    }
  }

  /** A strictly ascending sequence is already sorted. */
  lemma {:induction false} SortFixesAscending<K(!new), T>(s: seq<Keyed<K, T>>, lt: (K, K) -> bool)
    requires StrictTotalOrder(lt) && StrictlyAscending(s, lt)
    ensures Sort(s, lt) == s
  {
    if s != [] {
      SortFixesAscending(s[1..], lt);
      assert s == [s[0]] + s[1..];
      InsertFront(s[0], s[1..], lt);
    }
  }

  /** Two strictly ascending arrangements of the same elements are the same. */
  lemma {:induction false} AscendingIsUnique<K(!new), T>(s: seq<Keyed<K, T>>, t: seq<Keyed<K, T>>, lt: (K, K) -> bool)
    requires StrictTotalOrder(lt) && StrictlyAscending(s, lt) && StrictlyAscending(t, lt)
    requires multiset(s) == multiset(t)
    ensures s == t
  {
    assert |s| == |multiset(s)| == |multiset(t)| == |t|;
    if s != [] {
      assert s[0] in multiset(t) && t[0] in multiset(s);
      assert s[0] == t[0];
      assert s == [s[0]] + s[1..] && t == [t[0]] + t[1..];
      assert multiset(s[1..]) == multiset(s) - multiset{s[0]};
      assert multiset(t[1..]) == multiset(t) - multiset{t[0]};
      AscendingIsUnique(s[1..], t[1..], lt);
    }
  }

  function MapItems<K, T, U>(s: seq<Keyed<K, T>>, f: T -> U): (r: seq<Keyed<K, U>>)
    ensures |r| == |s|
    ensures forall i :: 0 <= i < |s| ==> r[i] == Keyed(s[i].key, f(s[i].item))
  {
    if s == [] then [] else [Keyed(s[0].key, f(s[0].item))] + MapItems(s[1..], f)
  }

  lemma {:induction false} InsertCommutesWithMap<K, T, U>(x: Keyed<K, T>, s: seq<Keyed<K, T>>, f: T -> U, lt: (K, K) -> bool)
    ensures MapItems(Insert(x, s, lt), f) == Insert(Keyed(x.key, f(x.item)), MapItems(s, f), lt)
  {
    if s != [] && lt(s[0].key, x.key) {
      InsertCommutesWithMap(x, s[1..], f, lt);
      assert MapItems(s, f)[1..] == MapItems(s[1..], f);
    }
  }

  /** Sorting looks at keys only, so it commutes with a change of the items. */
  lemma {:induction false} SortCommutesWithMap<K, T, U>(s: seq<Keyed<K, T>>, f: T -> U, lt: (K, K) -> bool)
    ensures MapItems(Sort(s, lt), f) == Sort(MapItems(s, f), lt)
  {
    if s != [] {
      SortCommutesWithMap(s[1..], f, lt);
      InsertCommutesWithMap(s[0], Sort(s[1..], lt), f, lt);
      assert MapItems(s, f)[1..] == MapItems(s[1..], f);
    }
  }
}
