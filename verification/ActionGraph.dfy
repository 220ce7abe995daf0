/** The helper's frozen-plan graph: sorting actions by key and renaming dependency indexes. */
module ActionGraph {
  import opened ByteStrings
  import opened Vocabulary
  import opened Results
  import opened Sequences
  import opened Sorting

  const MAX_GRAPH_ACTIONS: nat := 16_384
  const INSTALL: u64 := 1

  /** Dependency parents are indexes into the same graph; below 16,384, so `u32` never truncates them. */
  datatype PackageAction = PackageAction(
    name: Bytes,
    architecture: Bytes,
    installedVersion: Bytes,
    targetVersion: Bytes,
    kind: u64,
    origin: Bytes,
    debDigest: Bytes,
    archiveBytes: u64,
    installedDeltaBytes: u64,
    parents: seq<nat>)

  type Graph = seq<PackageAction>

  datatype Key = Key(name: Bytes, architecture: Bytes, targetVersion: Bytes)

  function KeyOf(a: PackageAction): (k: Key) {
    Key(a.name, a.architecture, a.targetVersion)
  }

  /** The order `std::tie` gives. */
  predicate KeyLt(a: Key, b: Key) {
    || LexLt(a.name, b.name)
    || (a.name == b.name && LexLt(a.architecture, b.architecture))
    || (a.name == b.name && a.architecture == b.architecture && LexLt(a.targetVersion, b.targetVersion))
  }

  predicate IndexLt(a: nat, b: nat) {
    a < b
  }

  predicate ValidAction(a: PackageAction) {
    SchemaName(a.name) && a.architecture != [] && a.targetVersion != [] && a.kind == INSTALL
  }

  predicate ValidGraph(g: Graph) {
    && |g| <= MAX_GRAPH_ACTIONS
    && forall i :: 0 <= i < |g| ==> ValidAction(g[i]) && ParentsWithin(g[i].parents, |g|)
  }

  predicate ParentsWithin(parents: seq<nat>, n: nat) {
    forall k :: 0 <= k < |parents| ==> parents[k] < n
  }

  // ----- normalisation as a function

  function Indexed(g: Graph): (s: seq<Keyed<Key, nat>>)
    ensures |s| == |g| && forall i :: 0 <= i < |g| ==> s[i] == Keyed(KeyOf(g[i]), i)
  {
    seq(|g|, i requires 0 <= i < |g| => Keyed(KeyOf(g[i]), i))
  }

  /** Where `x` stands in `order`. */
  function Position(order: seq<nat>, x: nat): (k: nat)
    ensures x in order ==> k < |order| && order[k] == x
  {
    if order == [] || order[0] == x then 0 else 1 + Position(order[1..], x)
  }

  function Ranks(order: seq<nat>): (rank: seq<nat>)
    ensures |rank| == |order| && forall x :: 0 <= x < |order| ==> rank[x] == Position(order, x)
  {
    seq(|order|, x requires 0 <= x < |order| => Position(order, x))
  }

  /** The renaming `p`; an index outside the graph keeps its name. */
  function NewName(p: seq<nat>): nat -> nat {
    (x: nat) => if x < |p| then p[x] else x
  }

  function Renamed(parents: seq<nat>, p: seq<nat>): (r: seq<nat>)
    ensures |r| == |parents|
    ensures forall k :: 0 <= k < |parents| ==> r[k] == if parents[k] < |p| then p[parents[k]] else parents[k]
  {
    Mapped(NewName(p), parents)
  }

  function BareKey(n: nat): Keyed<nat, ()> {
    Keyed(n, ())
  }

  function KeyIn(k: Keyed<nat, ()>): nat {
    k.key
  }

  function Bare(ns: seq<nat>): (s: seq<Keyed<nat, ()>>)
    ensures |s| == |ns| && forall i :: 0 <= i < |ns| ==> s[i] == Keyed(ns[i], ())
  {
    Mapped(BareKey, ns)
  }

  function KeysOf(s: seq<Keyed<nat, ()>>): (ns: seq<nat>)
    ensures |ns| == |s| && forall i :: 0 <= i < |s| ==> ns[i] == s[i].key
  {
    Mapped(KeyIn, s)
  }

  function SortedParents(parents: seq<nat>): (s: seq<Keyed<nat, ()>>)
    ensures |s| == |parents|
  {
    Sort(Bare(parents), IndexLt)
  }

  function Moved(a: PackageAction, rank: seq<nat>): (b: PackageAction) {
    a.(parents := KeysOf(SortedParents(Renamed(a.parents, rank))))
  }

  /** The order the actions are sorted into, as indexes into `g`. */
  function SortedKeys(g: Graph): (s: seq<Keyed<Key, nat>>)
    ensures |s| == |g| && multiset(s) == multiset(Indexed(g))
  {
    Sort(Indexed(g), KeyLt)
  }

  function Order(g: Graph): (order: seq<nat>)
    ensures |order| == |g|
  {
    ItemsOf(SortedKeys(g))
  }

  function Rank(g: Graph): (rank: seq<nat>)
    ensures |rank| == |g|
  {
    Ranks(Order(g))
  }

  predicate RepeatsParent(a: PackageAction, rank: seq<nat>) {
    HasEqualNeighbours(SortedParents(Renamed(a.parents, rank)))
  }

  function Reordered(g: Graph): (h: Graph)
    ensures |h| == |g| && forall i :: 0 <= i < |g| ==> Order(g)[i] < |g| && h[i] == Moved(g[Order(g)[i]], Rank(g))
  {
    OrderInRange(g);
    seq(|g|, i requires 0 <= i < |g| && Order(g)[i] < |g| => Moved(g[Order(g)[i]], Rank(g)))
  }

  /** The normal form of `g`, if it has one. */
  function Normalized(g: Graph): (r: Option<Graph>) {
    if !ValidGraph(g) || HasEqualNeighbours(SortedKeys(g)) then None
    else if exists i :: 0 <= i < |g| && RepeatsParent(g[i], Rank(g)) then None
    else Some(Reordered(g))
  }

  lemma SortedKeyAt(g: Graph, i: nat)
    requires i < |g|
    ensures var k := SortedKeys(g)[i]; k.item == Order(g)[i] < |g| && k.key == KeyOf(g[k.item])
  {
    hide SortedKeys, Indexed, KeyOf;
    var s := SortedKeys(g);
    assert s[i] in multiset(s);
    assert s[i] in multiset(Indexed(g));
    var x :| 0 <= x < |g| && Indexed(g)[x] == s[i];
  }

  lemma OrderInRange(g: Graph)
    ensures forall i :: 0 <= i < |g| ==> Order(g)[i] < |g|
  {
    hide *;
    forall i | 0 <= i < |g| ensures Order(g)[i] < |g| {
      SortedKeyAt(g, i);
    }
  }

  // ----- what the normal form is, without saying how to find it

  ghost predicate Inverse(p: seq<nat>, q: seq<nat>) {
    && |p| == |q|
    && (forall i :: 0 <= i < |p| ==> p[i] < |q| && q[p[i]] == i)
    && (forall i :: 0 <= i < |q| ==> q[i] < |p| && p[q[i]] == i)
  }

  /** `h` is `g` with action `i` moved to `p[i]`, its parents renamed accordingly and listed in any order. */
  ghost predicate Renames(g: Graph, h: Graph, p: seq<nat>, q: seq<nat>) {
    && |g| == |h| == |p| && Inverse(p, q)
    && forall i :: 0 <= i < |g| ==> RenamedAction(g[i], h[p[i]], p)
  }

  ghost predicate RenamedAction(a: PackageAction, b: PackageAction, p: seq<nat>) {
    && b.(parents := a.parents) == a
    && multiset(b.parents) == multiset(Renamed(a.parents, p))
  }

  predicate StrictlyIncreasing(ns: seq<nat>) {
    forall i, j :: 0 <= i < j < |ns| ==> ns[i] < ns[j]
  }

  ghost predicate InOrder(g: Graph) {
    && (forall i, j :: 0 <= i < j < |g| ==> KeyLt(KeyOf(g[i]), KeyOf(g[j])))
    && (forall i :: 0 <= i < |g| ==> StrictlyIncreasing(g[i].parents))
  }

  ghost predicate IsNormalForm(g: Graph, h: Graph) {
    ValidGraph(g) && InOrder(h) && exists p, q :: Renames(g, h, p, q)
  }

  /** What a caller can check: valid actions, distinct keys, no parent listed twice. */
  ghost predicate Normalizable(g: Graph) {
    && ValidGraph(g)
    && DistinctKeys(g)
    && (forall i :: 0 <= i < |g| ==> Distinct(g[i].parents))
  }

  ghost predicate DistinctKeys(g: Graph) {
    forall i, j :: 0 <= i < j < |g| ==> KeyOf(g[i]) != KeyOf(g[j])
  }

  // ----- orders

  lemma KeyOrderIsTotal()
    ensures StrictTotalOrder(KeyLt)
  {
    hide LexLt;
    forall a, b ensures (KeyLt(a, b) || a == b || KeyLt(b, a)) && (KeyLt(a, b) ==> !KeyLt(b, a)) {
      LexTrichotomy(a.name, b.name);
      LexTrichotomy(a.architecture, b.architecture);
      LexTrichotomy(a.targetVersion, b.targetVersion);
    }
    forall a, b, c | KeyLt(a, b) && KeyLt(b, c) ensures KeyLt(a, c) {
      KeyTransitive(a, b, c);
    }
  }

  lemma KeyTransitive(a: Key, b: Key, c: Key)
    requires KeyLt(a, b) && KeyLt(b, c)
    ensures KeyLt(a, c)
  {
    hide LexLt;
    if LexLt(a.name, b.name) && LexLt(b.name, c.name) {
      LexTransitive(a.name, b.name, c.name);
    } else if a.name == b.name == c.name {
      if LexLt(a.architecture, b.architecture) && LexLt(b.architecture, c.architecture) {
        LexTransitive(a.architecture, b.architecture, c.architecture);
      } else if a.architecture == b.architecture == c.architecture {
        LexTransitive(a.targetVersion, b.targetVersion, c.targetVersion);
      }
    }
  }

  lemma IndexOrderIsTotal()
    ensures StrictTotalOrder(IndexLt)
  {
  }

  // ----- sorting parents

  lemma BareBack(parents: seq<nat>)
    ensures KeysOf(Bare(parents)) == parents
  {
  }

  lemma SortedParentsAscend(parents: seq<nat>)
    ensures Ascending(SortedParents(parents), IndexLt)
    ensures multiset(KeysOf(SortedParents(parents))) == multiset(parents)
  {
    hide Mapped, Bare, Ascending, Sort;
    IndexOrderIsTotal();
    SortAscends(Bare(parents), IndexLt);
    MapKeepsPermutation(KeyIn, SortedParents(parents), Bare(parents));
    BareBack(parents);
  }

  lemma KeysIncrease(s: seq<Keyed<nat, ()>>)
    requires StrictlyAscending(s, IndexLt)
    ensures StrictlyIncreasing(KeysOf(s)) && Distinct(KeysOf(s))
  {
    forall i, j | 0 <= i < j < |s| ensures KeysOf(s)[i] < KeysOf(s)[j] {
      assert IndexLt(s[i].key, s[j].key);
    }
  }

  lemma AscendingKeys(s: seq<Keyed<nat, ()>>)
    requires Ascending(s, IndexLt)
    ensures HasEqualNeighbours(s) <==> !Distinct(KeysOf(s))
    ensures !HasEqualNeighbours(s) ==> StrictlyIncreasing(KeysOf(s))
  {
    hide Mapped, IndexLt, Ascending;
    if HasEqualNeighbours(s) {
      var i :| 0 < i < |s| && s[i - 1].key == s[i].key;
      assert KeysOf(s)[i - 1] == KeysOf(s)[i];
    } else {
      IndexOrderIsTotal();
      DistinctNeighboursAscendStrictly(s, IndexLt);
      KeysIncrease(s);
    }
  }

  /** Sorting a parent list keeps its elements; duplicates are what ends up side by side. */
  lemma SortedParentsOf(parents: seq<nat>)
    ensures multiset(KeysOf(SortedParents(parents))) == multiset(parents)
    ensures HasEqualNeighbours(SortedParents(parents)) <==> !Distinct(parents)
    ensures Distinct(parents) ==> StrictlyIncreasing(KeysOf(SortedParents(parents)))
  {
    hide *;
    var s := SortedParents(parents);
    SortedParentsAscend(parents);
    AscendingKeys(s);
    if Distinct(parents) {
      DistinctCarriesOver(parents, KeysOf(s));
    } else if Distinct(KeysOf(s)) {
      DistinctCarriesOver(KeysOf(s), parents);
    }
  }

  // ----- the computed order is a permutation

  lemma SortedKeysAscend(g: Graph)
    requires !HasEqualNeighbours(SortedKeys(g))
    ensures StrictlyAscending(SortedKeys(g), KeyLt)
  {
    hide KeyLt, Sort, Ascending, StrictlyAscending, HasEqualNeighbours;
    KeyOrderIsTotal();
    SortAscends(Indexed(g), KeyLt);
    DistinctNeighboursAscendStrictly(SortedKeys(g), KeyLt);
  }

  /** Every action has a place in the order. */
  lemma OrderReaches(g: Graph, x: nat)
    requires x < |g|
    ensures x in Order(g)
  {
    hide SortedKeys, KeyOf;
    assert Indexed(g)[x] in multiset(SortedKeys(g));
    var i :| 0 <= i < |g| && SortedKeys(g)[i] == Indexed(g)[x];
    assert Order(g)[i] == x;
  }

  lemma RankOf(g: Graph, x: nat)
    requires x < |g|
    ensures Rank(g)[x] < |g| && Order(g)[Rank(g)[x]] == x
  {
    hide Position, Order;
    OrderReaches(g, x);
  }

  lemma OrderIsInjective(g: Graph, i: nat, j: nat)
    requires !HasEqualNeighbours(SortedKeys(g)) && i < j < |g|
    ensures Order(g)[i] != Order(g)[j]
  {
    hide KeyLt, SortedKeys, HasEqualNeighbours;
    SortedKeysAscend(g);
    KeyOrderIsTotal();
    SortedKeyAt(g, i);
    SortedKeyAt(g, j);
    assert KeyLt(SortedKeys(g)[i].key, SortedKeys(g)[j].key);
  }

  lemma OrderAndRanks(g: Graph)
    requires !HasEqualNeighbours(SortedKeys(g))
    ensures Inverse(Rank(g), Order(g))
  {
    hide Rank, Order, SortedKeys, HasEqualNeighbours;
    var rank, order := Rank(g), Order(g);
    forall x | 0 <= x < |g| ensures rank[x] < |g| && order[rank[x]] == x {
      RankOf(g, x);
    }
    forall i | 0 <= i < |g| ensures order[i] < |g| && rank[order[i]] == i {
      OrderInRange(g);
      var k := rank[order[i]];
      if k < i {
        OrderIsInjective(g, k, i);
      } else if i < k {
        OrderIsInjective(g, i, k);
      }
    }
  }

  lemma DistinctKeysWhen(g: Graph)
    ensures HasEqualNeighbours(SortedKeys(g)) <==> !DistinctKeys(g)
  {
    hide SortedKeys, KeyLt, KeyOf, Rank, Order;
    var s := SortedKeys(g);
    if HasEqualNeighbours(s) {
      var i :| 0 < i < |s| && s[i - 1].key == s[i].key;
      SortedKeyAt(g, i - 1);
      SortedKeyAt(g, i);
      DistinctCarriesOver(Indexed(g), s);
      assert s[i - 1] != s[i];
    } else {
      forall i, j | 0 <= i < j < |g| ensures KeyOf(g[i]) != KeyOf(g[j]) {
        RankedKeysDiffer(g, i, j);
      }
    }
  }

  lemma RankedKeysDiffer(g: Graph, i: nat, j: nat)
    requires !HasEqualNeighbours(SortedKeys(g)) && i < j < |g|
    ensures KeyOf(g[i]) != KeyOf(g[j])
  {
    hide SortedKeys, KeyLt, KeyOf, Rank, Order, HasEqualNeighbours;
    var rank := Rank(g);
    KeyOrderIsTotal();
    SortedKeysAscend(g);
    RankOf(g, i);
    RankOf(g, j);
    SortedKeyAt(g, rank[i]);
    SortedKeyAt(g, rank[j]);
    var s := SortedKeys(g);
    assert rank[i] != rank[j];
    assert KeyLt(s[rank[i]].key, s[rank[j]].key) || KeyLt(s[rank[j]].key, s[rank[i]].key);
  }

  lemma RepeatsParentWhen(g: Graph, a: PackageAction)
    requires !HasEqualNeighbours(SortedKeys(g))
    ensures RepeatsParent(a, Rank(g)) <==> !Distinct(a.parents)
  {
    hide SortedKeys, HasEqualNeighbours, SortedParents, Renamed, Distinct, Rank, Order, Inverse;
    OrderAndRanks(g);
    SortedParentsOf(Renamed(a.parents, Rank(g)));
    RenamedDistinct(a.parents, Rank(g), Order(g));
  }

  /** Normalisation succeeds exactly on the graphs a caller can check for. */
  lemma NormalizesWhen(g: Graph)
    ensures Normalized(g).Some? <==> Normalizable(g)
  {
    hide SortedKeys, ValidGraph, HasEqualNeighbours, DistinctKeys, Distinct, RepeatsParent, Reordered, Rank;
    DistinctKeysWhen(g);
    if !HasEqualNeighbours(SortedKeys(g)) {
      forall i | 0 <= i < |g| ensures RepeatsParent(g[i], Rank(g)) <==> !Distinct(g[i].parents) {
        RepeatsParentWhen(g, g[i]);
      }
    }
  }

  lemma RenamedDistinct(parents: seq<nat>, p: seq<nat>, q: seq<nat>)
    requires Inverse(p, q)
    ensures Distinct(parents) <==> Distinct(Renamed(parents, p))
  {
    var r := Renamed(parents, p);
    forall i, j | 0 <= i < j < |parents| ensures parents[i] == parents[j] <==> r[i] == r[j] {
      if parents[i] < |p| && parents[j] < |p| {
        assert q[p[parents[i]]] == parents[i] && q[p[parents[j]]] == parents[j];
      }
    }
  }

  // ----- soundness: the function's result is the normal form

  lemma NormalizedParts(g: Graph)
    requires Normalized(g).Some?
    ensures ValidGraph(g) && !HasEqualNeighbours(SortedKeys(g)) && Normalized(g).value == Reordered(g)
    ensures forall i :: 0 <= i < |g| ==> !RepeatsParent(g[i], Rank(g))
  {
    hide ValidGraph, HasEqualNeighbours, SortedKeys, Reordered, RepeatsParent, Rank;
  }

  lemma MovedAction(a: PackageAction, rank: seq<nat>)
    requires !RepeatsParent(a, rank)
    ensures RenamedAction(a, Moved(a, rank), rank) && StrictlyIncreasing(Moved(a, rank).parents)
  {
    hide SortedParents, KeysOf, HasEqualNeighbours, Distinct, StrictlyIncreasing, Renamed;
    SortedParentsOf(Renamed(a.parents, rank));
  }

  lemma NormalizedIsNormalForm(g: Graph)
    requires Normalized(g).Some?
    ensures InOrder(Normalized(g).value) && Renames(g, Normalized(g).value, Rank(g), Order(g))
    ensures IsNormalForm(g, Normalized(g).value)
  {
    hide Normalized, SortedKeys, Rank, Order, ValidGraph, HasEqualNeighbours, RepeatsParent, Reordered, KeyLt, KeyOf, RenamedAction, Moved, StrictlyIncreasing;
    var h, rank, order := Normalized(g).value, Rank(g), Order(g);
    NormalizedParts(g);
    OrderAndRanks(g);
    SortedKeysAscend(g);
    forall i | 0 <= i < |g|
      ensures KeyOf(h[i]) == SortedKeys(g)[i].key && StrictlyIncreasing(h[i].parents)
    {
      SortedKeyAt(g, i);
      MovedAction(g[order[i]], rank);
      MovedKey(g[order[i]], rank);
    }
    forall i | 0 <= i < |g| ensures RenamedAction(g[i], h[rank[i]], rank) {
      assert order[rank[i]] == i;
      MovedAction(g[i], rank);
    }
  }

  lemma MovedKey(a: PackageAction, rank: seq<nat>)
    ensures KeyOf(Moved(a, rank)) == KeyOf(a)
  {
  }

  // ----- renaming is an equivalence

  lemma RenamesBack(g: Graph, h: Graph, p: seq<nat>, q: seq<nat>)
    requires Renames(g, h, p, q)
    ensures Renames(h, g, q, p)
  {
    forall j | 0 <= j < |h| ensures RenamedAction(h[j], g[q[j]], q) {
      var a, b := g[q[j]], h[j];
      assert p[q[j]] == j;
      assert RenamedAction(g[q[j]], h[p[q[j]]], p);
      MapKeepsPermutation(NewName(q), b.parents, Renamed(a.parents, p));
      RenamedThereAndBack(a.parents, p, q);
    }
  }

  lemma RenamedThereAndBack(parents: seq<nat>, p: seq<nat>, q: seq<nat>)
    requires Inverse(p, q)
    ensures Renamed(Renamed(parents, p), q) == parents
  {
    forall k | 0 <= k < |parents| ensures Renamed(Renamed(parents, p), q)[k] == parents[k] {
      if parents[k] < |p| {
        assert q[p[parents[k]]] == parents[k];
      }
    }
  }

  function Compose(p: seq<nat>, r: seq<nat>): (c: seq<nat>)
    requires |p| == |r| && forall i :: 0 <= i < |p| ==> p[i] < |r|
    ensures |c| == |p| && forall i :: 0 <= i < |p| ==> c[i] == r[p[i]]
  {
    seq(|p|, i requires 0 <= i < |p| => r[p[i]])
  }

  lemma RenamesTwice(g: Graph, h: Graph, k: Graph, p: seq<nat>, q: seq<nat>, r: seq<nat>, t: seq<nat>)
    requires Renames(g, h, p, q) && Renames(h, k, r, t)
    ensures Renames(g, k, Compose(p, r), Compose(t, q))
  {
    var c := Compose(p, r);
    forall i | 0 <= i < |g| ensures RenamedAction(g[i], k[c[i]], c) {
      assert RenamedAction(g[i], h[p[i]], p) && RenamedAction(h[p[i]], k[r[p[i]]], r);
      MapKeepsPermutation(NewName(r), h[p[i]].parents, Renamed(g[i].parents, p));
      assert Renamed(Renamed(g[i].parents, p), r) == Renamed(g[i].parents, c);
    }
    assert Inverse(c, Compose(t, q));
  }

  lemma ValidityCarriesOver(g: Graph, h: Graph, p: seq<nat>, q: seq<nat>)
    requires Renames(g, h, p, q) && ValidGraph(g)
    ensures ValidGraph(h)
  {
    forall j | 0 <= j < |h| ensures ValidAction(h[j]) && ParentsWithin(h[j].parents, |h|) {
      var i := q[j];
      assert p[i] == j && RenamedAction(g[i], h[p[i]], p);
      forall k | 0 <= k < |h[j].parents| ensures h[j].parents[k] < |h| {
        assert h[j].parents[k] in multiset(Renamed(g[i].parents, p));
      }
    }
  }

  // ----- uniqueness

  lemma KeysTellOrder(g: Graph, i: nat, j: nat)
    requires InOrder(g) && i < |g| && j < |g| && KeyLt(KeyOf(g[i]), KeyOf(g[j]))
    ensures i < j
  {
    hide KeyLt, KeyOf, StrictlyIncreasing;
    KeyOrderIsTotal();
  }

  /** Two graphs in order that rename to each other are the same graph, moved nowhere. */
  lemma InOrderIsRigid(g: Graph, h: Graph, p: seq<nat>, q: seq<nat>)
    requires Renames(g, h, p, q) && InOrder(g) && InOrder(h)
    ensures g == h
  {
    hide KeyLt;
    KeyOrderIsTotal();
    forall i, j | 0 <= i < j < |p| ensures p[i] < p[j] {
      assert RenamedAction(g[i], h[p[i]], p) && RenamedAction(g[j], h[p[j]], p);
      assert KeyLt(KeyOf(g[i]), KeyOf(g[j]));
      KeysTellOrder(h, p[i], p[j]);
    }
    IncreasingIsIdentity(p);
    forall i | 0 <= i < |g| ensures g[i] == h[i] {
      assert RenamedAction(g[i], h[p[i]], p);
      assert p[i] == i;
      forall k | 0 <= k < |g[i].parents| ensures Renamed(g[i].parents, p)[k] == g[i].parents[k] {
      }
      assert Renamed(g[i].parents, p) == g[i].parents;
      SameSetIncreasing(g[i].parents, h[i].parents);
    }
  }

  lemma IncreasingIsIdentity(p: seq<nat>)
    requires forall i, j :: 0 <= i < j < |p| ==> p[i] < p[j]
    requires forall i :: 0 <= i < |p| ==> p[i] < |p|
    ensures forall i :: 0 <= i < |p| ==> p[i] == i
  {
    forall i | 0 <= i < |p| ensures p[i] == i {
      AtLeast(p, i);
      AtMost(p, i);
    }
  }

  lemma {:induction false} AtLeast(p: seq<nat>, i: nat)
    requires forall i, j :: 0 <= i < j < |p| ==> p[i] < p[j]
    requires i < |p|
    ensures p[i] >= i
  {
    if i > 0 {
      AtLeast(p, i - 1);
    }
  }

  lemma {:induction false} AtMost(p: seq<nat>, i: nat)
    requires forall i, j :: 0 <= i < j < |p| ==> p[i] < p[j]
    requires forall i :: 0 <= i < |p| ==> p[i] < |p|
    requires i < |p|
    ensures p[i] <= i
    decreases |p| - i
  {
    if i + 1 < |p| {
      AtMost(p, i + 1);
    }
  }

  lemma SameSetIncreasing(s: seq<nat>, t: seq<nat>)
    requires StrictlyIncreasing(s) && StrictlyIncreasing(t) && multiset(s) == multiset(t)
    ensures s == t
  {
    IndexOrderIsTotal();
    MapKeepsPermutation(BareKey, s, t);
    AscendingIsUnique(Bare(s), Bare(t), IndexLt);
    BareBack(s);
    BareBack(t);
  }

  lemma NormalFormIsUnique(g: Graph, h: Graph, k: Graph)
    requires IsNormalForm(g, h) && IsNormalForm(g, k)
    ensures h == k
  {
    hide Renames, InOrder, ValidGraph, Inverse;
    var p, q :| Renames(g, h, p, q);
    var r, t :| Renames(g, k, r, t);
    RenamesBack(g, h, p, q);
    RenamesPreconditions(h, g, q, p);
    RenamesPreconditions(g, k, r, t);
    RenamesTwice(h, g, k, q, p, r, t);
    InOrderIsRigid(h, k, Compose(q, r), Compose(t, p));
  }

  lemma RenamesPreconditions(g: Graph, h: Graph, p: seq<nat>, q: seq<nat>)
    requires Renames(g, h, p, q)
    ensures |g| == |h| == |p| == |q|
    ensures forall i :: 0 <= i < |p| ==> p[i] < |p| && q[i] < |p|
  {
  }

  // ----- theorems

  /** Normalisation returns `h` exactly when `h` is the normal form: `g` renamed, keys and parents in strict order. */
  lemma NormalizedExactly(g: Graph, h: Graph)
    ensures Normalized(g) == Some(h) <==> IsNormalForm(g, h)
  {
    hide Normalized, Normalizable, Renames, InOrder, ValidGraph;
    if Normalized(g).Some? {
      NormalizedIsNormalForm(g);
    }
    if IsNormalForm(g, h) {
      NormalFormsAreNormalizable(g, h);
      NormalizesWhen(g);
      NormalFormIsUnique(g, h, Normalized(g).value);
    }
  }

  lemma NormalFormsAreNormalizable(g: Graph, h: Graph)
    requires IsNormalForm(g, h)
    ensures Normalizable(g)
  {
    hide KeyLt, ValidGraph;
    var p, q :| Renames(g, h, p, q);
    KeyOrderIsTotal();
    forall i, j | 0 <= i < j < |g| ensures KeyOf(g[i]) != KeyOf(g[j]) {
      assert RenamedAction(g[i], h[p[i]], p) && RenamedAction(g[j], h[p[j]], p);
      assert q[p[i]] == i && q[p[j]] == j;
      if p[i] < p[j] {
        assert KeyLt(KeyOf(h[p[i]]), KeyOf(h[p[j]]));
      } else {
        assert KeyLt(KeyOf(h[p[j]]), KeyOf(h[p[i]]));
      }
    }
    forall i | 0 <= i < |g| ensures Distinct(g[i].parents) {
      assert RenamedAction(g[i], h[p[i]], p);
      assert Distinct(h[p[i]].parents);
      DistinctCarriesOver(h[p[i]].parents, Renamed(g[i].parents, p));
      RenamedDistinct(g[i].parents, p, q);
    }
  }

  /** Graph canonical form: however the same graph is listed, normalisation gives the same result, or fails on both. */
  lemma SameGraphSameNormalForm(g: Graph, h: Graph, p: seq<nat>, q: seq<nat>)
    requires Renames(g, h, p, q)
    ensures Normalized(g) == Normalized(h)
  {
    hide Normalized, Renames, IsNormalForm;
    RenamesBack(g, h, p, q);
    if Normalized(g).Some? {
      NormalizedExactly(g, Normalized(g).value);
      NormalFormCarriesOver(g, h, p, q, Normalized(g).value);
      NormalizedExactly(h, Normalized(g).value);
    } else if Normalized(h).Some? {
      NormalizedExactly(h, Normalized(h).value);
      NormalFormCarriesOver(h, g, q, p, Normalized(h).value);
      NormalizedExactly(g, Normalized(h).value);
    }
  }

  lemma NormalFormCarriesOver(g: Graph, h: Graph, p: seq<nat>, q: seq<nat>, k: Graph)
    requires Renames(g, h, p, q) && IsNormalForm(g, k)
    ensures IsNormalForm(h, k)
  {
    hide Renames, InOrder, ValidGraph, Inverse;
    var r, t :| Renames(g, k, r, t);
    ValidityCarriesOver(g, h, p, q);
    RenamesBack(g, h, p, q);
    RenamesPreconditions(h, g, q, p);
    RenamesPreconditions(g, k, r, t);
    RenamesTwice(h, g, k, q, p, r, t);
  }

  /** A second pass changes nothing. */
  lemma NormalizedTwice(g: Graph)
    requires Normalized(g).Some?
    ensures Normalized(Normalized(g).value) == Normalized(g)
  {
    hide Normalized, Renames, IsNormalForm;
    NormalizedIsNormalForm(g);
    SameGraphSameNormalForm(g, Normalized(g).value, Rank(g), Order(g));
  }

  /** Action `i` depends on action `j` before exactly when the ranked actions do after. */
  lemma DependenciesPreserved(g: Graph, i: nat, j: nat)
    requires Normalized(g).Some? && i < |g| && j < |g|
    ensures var h := Normalized(g).value; var rank := Rank(g);
      && |h| == |g| && rank[i] < |g|
      && (j in g[i].parents <==> rank[j] in h[rank[i]].parents)
  {
    hide Normalized, Rank, Order, ValidGraph, InOrder, Renamed;
    NormalizedIsNormalForm(g);
    NormalizedParts(g);
    var h, rank := Normalized(g).value, Rank(g);
    assert RenamedAction(g[i], h[rank[i]], rank);
    RenamedMember(g[i].parents, rank, Order(g), j);
    assert rank[j] in h[rank[i]].parents <==> rank[j] in multiset(h[rank[i]].parents);
    assert rank[j] in Renamed(g[i].parents, rank) <==> rank[j] in multiset(Renamed(g[i].parents, rank));
  }

  lemma RenamedMember(parents: seq<nat>, p: seq<nat>, q: seq<nat>, j: nat)
    requires Inverse(p, q) && j < |p|
    ensures j in parents <==> p[j] in Renamed(parents, p)
  {
    var r := Renamed(parents, p);
    if j in parents {
      var k :| 0 <= k < |parents| && parents[k] == j;
      assert r[k] == p[j];
    }
    if p[j] in r {
      var k :| 0 <= k < |r| && r[k] == p[j];
      assert q[p[j]] == j;
      if parents[k] < |p| {
        assert q[p[parents[k]]] == parents[k];
      }
    }
  }

  // ----- the helper's loops

  method ActionsValid(original: Graph) returns (valid: bool)
    requires |original| <= MAX_GRAPH_ACTIONS
    ensures valid == ValidGraph(original)
  {
    var i := 0;
    while i < |original|
      invariant i <= |original|
      invariant forall k :: 0 <= k < i ==> ValidAction(original[k]) && ParentsWithin(original[k].parents, |original|)
    {
      var action := original[i];
      if !ValidAction(action) {
        return false;
      }
      var k := 0;
      while k < |action.parents|
        invariant k <= |action.parents|
        invariant forall j :: 0 <= j < k ==> action.parents[j] < |original|
      {
        if action.parents[k] >= |original| {
          return false;
        }
        k := k + 1;
      }
      i := i + 1;
    }
    return true;
  }

  method NeighboursDiffer(sorted: seq<Keyed<Key, nat>>) returns (differ: bool)
    ensures differ == !HasEqualNeighbours(sorted)
  {
    var i := 1;
    while i < |sorted|
      invariant 1 <= i
      invariant forall k :: 0 < k < i && k < |sorted| ==> sorted[k - 1].key != sorted[k].key
    {
      if sorted[i - 1].key == sorted[i].key {
        return false;
      }
      i := i + 1;
    }
    return true;
  }

  /** Inverts the order into an array: `remap[order[index]] = index`. */
  method BuildRemap(original: Graph) returns (remap: array<nat>)
    requires !HasEqualNeighbours(SortedKeys(original))
    ensures fresh(remap) && remap[..] == Rank(original)
  {
    hide SortedKeys, Rank, HasEqualNeighbours;
    var order := Order(original);
    OrderInRange(original);
    hide Order;
    remap := new nat[|original|](_ => 0);
    var index := 0;
    while index < |order|
      invariant index <= |order|
      invariant forall k :: 0 <= k < index ==> remap[order[k]] == k
    {
      forall k | 0 <= k < index ensures order[k] != order[index] {
        OrderIsInjective(original, k, index);
      }
      remap[order[index]] := index;
      index := index + 1;
    }
    OrderAndRanks(original);
    forall x | 0 <= x < |original| ensures remap[x] == Rank(original)[x] {
      assert order[Rank(original)[x]] == x;
    }
  }

  /** Renames one action's parents in place and sorts them. */
  method MoveAction(action: PackageAction, remap: array<nat>) returns (moved: Option<PackageAction>)
    requires ParentsWithin(action.parents, remap.Length)
    ensures moved == if RepeatsParent(action, remap[..]) then None else Some(Moved(action, remap[..]))
  {
    hide HasEqualNeighbours, SortedParents;
    var parents := action.parents;
    var k := 0;
    while k < |parents|
      invariant k <= |parents| == |action.parents|
      invariant parents[..k] == Renamed(action.parents, remap[..])[..k]
      invariant parents[k..] == action.parents[k..]
    {
      assert parents[k] == action.parents[k..][0];
      parents := parents[k := remap[parents[k]]];
      k := k + 1;
    }
    assert parents == Renamed(action.parents, remap[..]);
    var sorted := SortedParents(parents);
    if HasEqualNeighbours(sorted) {
      return None;
    }
    return Some(action.(parents := KeysOf(sorted)));
  }

  /** The plan's action list, which normalisation replaces as a whole or leaves alone. */
  class ActionList {
    var actions: Graph

    constructor (actions: Graph)
      ensures this.actions == actions
    {
      this.actions := actions;
    }

    method Normalize() returns (ok: bool)
      modifies this
      ensures ok == Normalized(old(actions)).Some?
      ensures actions == if ok then Normalized(old(actions)).value else old(actions)
    {
      hide ValidAction, SortedKeys, Rank, Order, HasEqualNeighbours, RepeatsParent, Moved, Reordered;
      if |actions| > MAX_GRAPH_ACTIONS {
        return false;
      }
      var original := actions;
      var valid := ActionsValid(original);
      if !valid {
        return false;
      }
      var differ := NeighboursDiffer(SortedKeys(original));
      if !differ {
        return false;
      }
      var order := Order(original);
      OrderInRange(original);
      var remap := BuildRemap(original);
      OrderAndRanks(original);
      var normalized: Graph := [];
      while |normalized| < |order|
        invariant actions == original && |normalized| <= |order| && remap[..] == Rank(original)
        invariant normalized == Reordered(original)[..|normalized|]
        invariant forall k :: 0 <= k < |normalized| ==> !RepeatsParent(original[order[k]], Rank(original))
      {
        var moved := MoveAction(original[order[|normalized|]], remap);
        if moved.None? {
          assert RepeatsParent(original[order[|normalized|]], Rank(original));
          return false;
        }
        normalized := normalized + [moved.value];
      }
      forall i | 0 <= i < |original| ensures !RepeatsParent(original[i], Rank(original)) {
        assert order[Rank(original)[i]] == i;
      }
      actions := normalized;
      return true;
    }
  }
}
