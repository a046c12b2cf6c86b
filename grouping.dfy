/**
 * The two ways the library keeps attributes that share a UUID:
 * the older API filters a list (`[c for c in xs if c.uuid == u]`), the
 * `gatt` API builds a dictionary of lists, appending each newly discovered
 * attribute to the list under its UUID. Both are defined here once, over an
 * arbitrary key function, and proved to agree.
 */
module Grouping {

  /** The elements of `xs` whose key is `k`, in their order in `xs`. */
  function Select<T, K(==)>(xs: seq<T>, key: T -> K, k: K): (r: seq<T>)
    ensures |r| <= |xs|
    ensures forall i :: 0 <= i < |r| ==> r[i] in xs && key(r[i]) == k
    ensures forall i :: 0 <= i < |xs| && key(xs[i]) == k ==> xs[i] in r
  {
    if xs == [] then []
    else
      var last := xs[|xs| - 1];
      Select(xs[..|xs| - 1], key, k) + (if key(last) == k then [last] else [])
  }

  /** Filtering a concatenation filters each part and keeps them in order. */
  lemma {:induction false} SelectAppend<T, K>(a: seq<T>, b: seq<T>, key: T -> K, k: K)
    ensures Select(a + b, key, k) == Select(a, key, k) + Select(b, key, k)
  {
    if b == [] {
      assert a + b == a;
    } else {
      var b' := b[..|b| - 1];
      assert (a + b)[..|a + b| - 1] == a + b';
      assert (a + b)[|a + b| - 1] == b[|b| - 1];
      SelectAppend(a, b', key, k);
    }
  }

  /**
   * Appending `x` to the bucket under `k`, creating the bucket when `k` is
   * new: the body of the `gatt` discovery loops.
   */
  function Insert<T, K(==)>(m: map<K, seq<T>>, k: K, x: T): (r: map<K, seq<T>>)
    ensures r.Keys == m.Keys + {k}
    ensures r[k] == (if k in m then m[k] else []) + [x]
    ensures forall j :: j in m && j != k ==> r[j] == m[j]
  {
    if k in m then m[k := m[k] + [x]] else m[k := [x]]
  }

  /**
   * Where an element of `Insert(m, k, x)` comes from: it is the new `x`
   * at the end of the bucket under `k`, or the element at the same place
   * in `m`.
   */
  lemma InsertAt<T, K>(m: map<K, seq<T>>, k: K, x: T, u: K, i: int)
    requires u in Insert(m, k, x) && 0 <= i < |Insert(m, k, x)[u]|
    ensures || (u == k && i == |Insert(m, k, x)[u]| - 1 && Insert(m, k, x)[u][i] == x)
            || (u in m && i < |m[u]| && Insert(m, k, x)[u][i] == m[u][i])
  {
  }

  /** Everything held in some bucket of `m`. */
  ghost function Elements<K, T>(m: map<K, seq<T>>): set<T> {
    set k, i | k in m && 0 <= i < |m[k]| :: m[k][i]
  }

  /** Inserting adds exactly the inserted element. */
  lemma ElementsInsert<K, T>(m: map<K, seq<T>>, k: K, x: T)
    ensures Elements(Insert(m, k, x)) == Elements(m) + {x}
  {
    var r := Insert(m, k, x);
    forall y | y in Elements(r) ensures y in Elements(m) + {x} {
      var u, i :| u in r && 0 <= i < |r[u]| && r[u][i] == y;
      InsertAt(m, k, x, u, i);
    }
    forall y | y in Elements(m) ensures y in Elements(r) {
      var u, i :| u in m && 0 <= i < |m[u]| && m[u][i] == y;
      if u == k {
        assert r[u][i] == y;
      } else {
        assert r[u][i] == y;
      }
    }
    assert r[k][|r[k]| - 1] == x;
  }

  /** No element sits at two places of a bucket map. */
  predicate Distinct<K, T(==)>(m: map<K, seq<T>>) {
    forall u, i, v, j :: u in m && 0 <= i < |m[u]| && v in m && 0 <= j < |m[v]| && m[u][i] == m[v][j] ==> u == v && i == j
  }

  /** Inserting an element not yet present keeps every element at one place. */
  lemma DistinctInsert<K, T>(m: map<K, seq<T>>, k: K, d: T)
    requires Distinct(m) && d !in Elements(m)
    ensures Distinct(Insert(m, k, d))
  {
    var r: map<K, seq<T>> := Insert(m, k, d);
    forall u: K, i: int, v: K, j: int | u in r && 0 <= i < |r[u]| && v in r && 0 <= j < |r[v]| && r[u][i] == r[v][j]
      ensures u == v && i == j
    {
      InsertAt(m, k, d, u, i);
      InsertAt(m, k, d, v, j);
      if u in m && i < |m[u]| { assert m[u][i] in Elements(m); }
      if v in m && j < |m[v]| { assert m[v][j] in Elements(m); }
    }
  }

  /**
   * The dictionary of lists built by inserting the elements of `xs` in
   * order; no list in it is empty.
   */
  function Group<T, K(==)>(xs: seq<T>, key: T -> K): (r: map<K, seq<T>>)
    ensures forall k :: k in r ==> |r[k]| > 0
  {
    if xs == [] then map[]
    else
      var last := xs[|xs| - 1];
      Insert(Group(xs[..|xs| - 1], key), key(last), last)
  }

  /** A key is present exactly when some element carries it. */
  lemma {:induction false} GroupKeys<T, K>(xs: seq<T>, key: T -> K)
    ensures Group(xs, key).Keys == set i | 0 <= i < |xs| :: key(xs[i])
  {
    if xs != [] {
      GroupKeys(xs[..|xs| - 1], key);
      KeysSnoc(xs, key);
    }
  }

  /** The keys of a sequence are those of all but its last element, and the last one's. */
  lemma KeysSnoc<T, K>(xs: seq<T>, key: T -> K)
    requires xs != []
    ensures var xs' := xs[..|xs| - 1];
      (set i | 0 <= i < |xs| :: key(xs[i])) == (set i | 0 <= i < |xs'| :: key(xs'[i])) + {key(xs[|xs| - 1])}
  {
    var xs' := xs[..|xs| - 1];
    var s', s := set i | 0 <= i < |xs'| :: key(xs'[i]), set i | 0 <= i < |xs| :: key(xs[i]);
    forall k | k in s ensures k in s' + {key(xs[|xs| - 1])} {
      var i :| 0 <= i < |xs| && key(xs[i]) == k;
      if i < |xs'| { assert xs'[i] == xs[i]; }
    }
    forall k | k in s' ensures k in s {
      var i :| 0 <= i < |xs'| && key(xs'[i]) == k;
      assert xs'[i] == xs[i];
    }
  }

  /** Nothing is selected on a key that no element carries. */
  lemma SelectAbsent<T, K>(xs: seq<T>, key: T -> K, k: K)
    requires k !in set i | 0 <= i < |xs| :: key(xs[i])
    ensures Select(xs, key, k) == []
  {
  }

  /**
   * The dictionary of lists and the filter agree: the bucket under every
   * present key is the filter on that key.
   */
  lemma {:induction false} GroupIsSelect<T, K>(xs: seq<T>, key: T -> K)
    ensures forall k :: k in Group(xs, key) ==> Group(xs, key)[k] == Select(xs, key, k)
  {
    if xs != [] {
      var xs', last := xs[..|xs| - 1], xs[|xs| - 1];
      GroupIsSelect(xs', key);
      var m', m := Group(xs', key), Group(xs, key);
      forall k | k in m ensures m[k] == Select(xs, key, k) {
        if k == key(last) && k !in m' {
          GroupKeys(xs', key);
          SelectAbsent(xs', key, k);
        }
      }
    }
  }

  /** The step the discovery loops take: grouping one more element is one more insert. */
  lemma GroupSnoc<T, K>(xs: seq<T>, x: T, key: T -> K)
    ensures Group(xs + [x], key) == Insert(Group(xs, key), key(x), x)
  {
    assert (xs + [x])[..|xs + [x]| - 1] == xs;
  }

  /** The sum of the bucket sizes of a map of lists. */
  ghost function TotalSize<K, T>(m: map<K, seq<T>>): nat
    decreases |m.Keys|
  {
    if m.Keys == {} then 0
    else
      var k :| k in m;
      assert (m - {k}).Keys == m.Keys - {k};
      |m[k]| + TotalSize(m - {k})
  }

  /** TotalSize does not depend on which key is taken out first. */
  lemma {:induction false} TotalSizeRemove<K, T>(m: map<K, seq<T>>, k: K)
    requires k in m
    ensures TotalSize(m) == |m[k]| + TotalSize(m - {k})
    decreases |m.Keys|
  {
    var j :| j in m && TotalSize(m) == |m[j]| + TotalSize(m - {j});
    assert (m - {j}).Keys == m.Keys - {j};
    if j != k {
      var mj, mk := m - {j}, m - {k};
      assert (mk - {j}) == (mj - {k});
      assert (mk).Keys == m.Keys - {k};
      TotalSizeRemove(mj, k);
      TotalSizeRemove(mk, j);
    }
  }

  /** Inserting one element grows the total size by one. */
  lemma TotalSizeInsert<K, T>(m: map<K, seq<T>>, k: K, x: T)
    ensures TotalSize(Insert(m, k, x)) == TotalSize(m) + 1
  {
    var r := Insert(m, k, x);
    TotalSizeRemove(r, k);
    assert r - {k} == m - {k};
    if k in m {
      TotalSizeRemove(m, k);
    } else {
      assert m - {k} == m;
    }
  }

  /** Every element lands in exactly one bucket: the bucket sizes add up to |xs|. */
  lemma {:induction false} GroupTotalSize<T, K>(xs: seq<T>, key: T -> K)
    ensures TotalSize(Group(xs, key)) == |xs|
  {
    if xs == [] {
      assert Group(xs, key) == map[];
    } else {
      var xs' := xs[..|xs| - 1];
      GroupTotalSize(xs', key);
      TotalSizeInsert(Group(xs', key), key(xs[|xs| - 1]), xs[|xs| - 1]);
    }
  }

  /** `f` applied to every element of `s`. */
  function MapSeq<T, V>(s: seq<T>, f: T -> V): (r: seq<V>)
    ensures |r| == |s|
    ensures forall i :: 0 <= i < |s| ==> r[i] == f(s[i])
  {
    seq(|s|, i requires 0 <= i < |s| => f(s[i]))
  }

  /** `f` applied to every element of every bucket. */
  function MapBuckets<K(==), T, V>(m: map<K, seq<T>>, f: T -> V): (r: map<K, seq<V>>)
    ensures r.Keys == m.Keys
    ensures forall k :: k in m ==> r[k] == MapSeq(m[k], f)
  {
    map k | k in m :: MapSeq(m[k], f)
  }

  /** Viewing a bucket map commutes with inserting into it. */
  lemma MapBucketsInsert<K, T, V>(m: map<K, seq<T>>, k: K, x: T, f: T -> V)
    ensures MapBuckets(Insert(m, k, x), f) == Insert(MapBuckets(m, f), k, f(x))
  {
    var l, r := MapBuckets(Insert(m, k, x), f), Insert(MapBuckets(m, f), k, f(x));
    assert l.Keys == r.Keys;
    forall j | j in l ensures l[j] == r[j] {
      if j == k {
        var old_ := if k in m then m[k] else [];
        assert Insert(m, k, x)[k] == old_ + [x];
        assert MapSeq(old_ + [x], f) == MapSeq(old_, f) + [f(x)];
      }
    }
  }

  /**
   * One step of a loop that builds a dictionary of objects whose views
   * are grouped: inserting the object seen as the next element keeps the
   * objects' buckets equal to the grouping of the elements seen so far.
   */
  lemma GroupStep<T, V, K>(m: map<K, seq<T>>, f: T -> V, key: V -> K, xs: seq<V>, i: int, x: T, k: K)
    requires 0 <= i < |xs|
    requires MapBuckets(m, f) == Group(xs[..i], key)
    requires f(x) == xs[i] && k == key(xs[i])
    ensures MapBuckets(Insert(m, k, x), f) == Group(xs[..i + 1], key)
  {
    assert xs[..i + 1] == xs[..i] + [xs[i]];
    calc {
      MapBuckets(Insert(m, k, x), f);
      { MapBucketsInsert(m, k, x, f); }
      Insert(MapBuckets(m, f), k, f(x));
      Insert(Group(xs[..i], key), key(xs[i]), xs[i]);
      { GroupSnoc(xs[..i], xs[i], key); }
      Group(xs[..i] + [xs[i]], key);
    }
  }

  /** Filtering commutes with a view that keeps the key. */
  lemma {:induction false} SelectMapSeq<T, V, K>(xs: seq<T>, f: T -> V, key: T -> K, viewKey: V -> K, k: K)
    requires forall i :: 0 <= i < |xs| ==> viewKey(f(xs[i])) == key(xs[i])
    ensures MapSeq(Select(xs, key, k), f) == Select(MapSeq(xs, f), viewKey, k)
  {
    if xs != [] {
      var xs', last := xs[..|xs| - 1], xs[|xs| - 1];
      SelectMapSeq(xs', f, key, viewKey, k);
      var ys := MapSeq(xs, f);
      assert ys[..|ys| - 1] == MapSeq(xs', f);
      assert ys[|ys| - 1] == f(last);
      var tail := if key(last) == k then [last] else [];
      assert MapSeq(Select(xs', key, k) + tail, f) == MapSeq(Select(xs', key, k), f) + MapSeq(tail, f);
    }
  }

  /** Each element of a bucket carries the bucket's key. */
  lemma BucketsCarryKey<T, K>(xs: seq<T>, key: T -> K)
    ensures forall k, i :: k in Group(xs, key) && 0 <= i < |Group(xs, key)[k]| ==> key(Group(xs, key)[k][i]) == k
  {
    GroupIsSelect(xs, key);
  }

  // ---------------------------------------------------------------------
  // The "unique" lookup of the older API: zero, one or several matches.

  /** The indices of the elements whose key is `k`. */
  function Positions<T, K(==)>(xs: seq<T>, key: T -> K, k: K): set<int> {
    set i | 0 <= i < |xs| && key(xs[i]) == k
  }

  /** The filter has one element per matching position. */
  lemma {:induction false} SelectCount<T, K>(xs: seq<T>, key: T -> K, k: K)
    ensures |Select(xs, key, k)| == |Positions(xs, key, k)|
  {
    if xs != [] {
      var n := |xs| - 1;
      var xs' := xs[..n];
      SelectCount(xs', key, k);
      var p', p := Positions(xs', key, k), Positions(xs, key, k);
      assert n !in p';
      if key(xs[n]) == k {
        assert p == p' + {n};
      } else {
        assert p == p';
      }
    }
  }

  datatype Match<T> = NoMatch | OneMatch(value: T) | ManyMatches

  /** How many elements carry key `k`, and the element itself when there is exactly one. */
  function MatchOf<T, K(==)>(xs: seq<T>, key: T -> K, k: K): (r: Match<T>)
    ensures r.OneMatch? ==> r.value in xs && key(r.value) == k
  {
    var matching := Select(xs, key, k);
    if |matching| == 0 then NoMatch
    else if |matching| > 1 then ManyMatches
    else OneMatch(matching[0])
  }

  /** No match exactly when no element carries the key. */
  lemma MatchOfNone<T, K>(xs: seq<T>, key: T -> K, k: K)
    ensures MatchOf(xs, key, k) == NoMatch <==> forall i :: 0 <= i < |xs| ==> key(xs[i]) != k
  {
    SelectCount(xs, key, k);
    if exists i :: 0 <= i < |xs| && key(xs[i]) == k {
      var i :| 0 <= i < |xs| && key(xs[i]) == k;
      assert i in Positions(xs, key, k);
    }
  }

  /** Two positions in a set of more than one. */
  lemma TwoPositions<T, K>(xs: seq<T>, key: T -> K, k: K) returns (i: int, j: int)
    requires |Positions(xs, key, k)| > 1
    ensures 0 <= i < j < |xs| && key(xs[i]) == k && key(xs[j]) == k
  {
    var p := Positions(xs, key, k);
    var a :| a in p;
    assert |p - {a}| > 0;
    var b :| b in p - {a};
    if a < b {
      i, j := a, b;
    } else {
      i, j := b, a;
    }
  }

  /** Two positions make a set of more than one. */
  lemma PositionsOfTwo<T, K>(xs: seq<T>, key: T -> K, k: K, i: int, j: int)
    requires 0 <= i < j < |xs| && key(xs[i]) == k && key(xs[j]) == k
    ensures |Positions(xs, key, k)| > 1
  {
    assert {i, j} <= Positions(xs, key, k);
    assert |{i, j}| == 2;
    SubsetCard({i, j}, Positions(xs, key, k));
  }

  /** Several matches exactly when two different elements carry the key. */
  lemma MatchOfMany<T, K>(xs: seq<T>, key: T -> K, k: K)
    ensures MatchOf(xs, key, k) == ManyMatches <==>
      exists i, j :: 0 <= i < j < |xs| && key(xs[i]) == k && key(xs[j]) == k
  {
    SelectCount(xs, key, k);
    if |Positions(xs, key, k)| > 1 {
      var i, j := TwoPositions(xs, key, k);
    }
    if exists i, j :: 0 <= i < j < |xs| && key(xs[i]) == k && key(xs[j]) == k {
      var i, j :| 0 <= i < j < |xs| && key(xs[i]) == k && key(xs[j]) == k;
      PositionsOfTwo(xs, key, k, i, j);
    }
  }

  lemma SubsetCard<X>(a: set<X>, b: set<X>)
    requires a <= b
    ensures |a| <= |b|
  {
    if a != {} {
      var x :| x in a;
      SubsetCard(a - {x}, b - {x});
    }
  }

  /** A single match is the element at the only position that carries the key. */
  lemma MatchOfOne<T, K>(xs: seq<T>, key: T -> K, k: K, i: int)
    requires 0 <= i < |xs| && key(xs[i]) == k
    requires forall j :: 0 <= j < |xs| && j != i ==> key(xs[j]) != k
    ensures MatchOf(xs, key, k) == OneMatch(xs[i])
  {
    SelectCount(xs, key, k);
    var p := Positions(xs, key, k);
    assert p == {i};
    var r := Select(xs, key, k);
    assert r[0] in xs;
    var j :| 0 <= j < |xs| && xs[j] == r[0];
    assert j in p;
  }
}
