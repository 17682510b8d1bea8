/**
 * Maps from a key to a list of values (Go's `map[K][]V`), the one update the
 * duplicate finder makes to them (append under a key), and the multiset of
 * every value such a map holds, which is how "no entry is lost and none is
 * duplicated" is stated.
 */
module MultiMap {

  /** Go's `m[k]` on a map of slices: a key that is absent reads as the empty slice. */
  function Get<K, V>(m: map<K, seq<V>>, k: K): seq<V>
  {
    if k in m then m[k] else []
  }

  /** `m[k] = append(m[k], vs...)`: the list under `k` grows by `vs` and no other list changes. */
  function AppendAt<K, V>(m: map<K, seq<V>>, k: K, vs: seq<V>): (r: map<K, seq<V>>)
    ensures Get(r, k) == Get(m, k) + vs
    ensures forall j :: j in m && j != k ==> j in r && r[j] == m[j]
    ensures r.Keys == m.Keys + {k}
  {
    m[k := Get(m, k) + vs]
  }

  /** Reading any key after an append under `k`. */
  lemma AppendAtGet<K, V>(m: map<K, seq<V>>, k: K, vs: seq<V>)
    ensures forall j :: Get(AppendAt(m, k, vs), j) == if j == k then Get(m, k) + vs else Get(m, j)
  {
  }

  /** Appending `e` under `k` adds one occurrence of `e` under `k` and changes no other count. */
  lemma AppendOneCount<K, V>(m: map<K, seq<V>>, k: K, e: V, j: K, d: V)
    ensures multiset(Get(AppendAt(m, k, [e]), j))[d] == multiset(Get(m, j))[d] + if j == k && d == e then 1 else 0
  {
    if j == k {
      assert multiset(Get(m, j) + [e]) == multiset(Get(m, j)) + multiset{e};
    }
  }

  /** Some key of a non-empty map. */
  ghost function Pick<K, V>(m: map<K, V>): K
    requires m != map[]
  {
    var k :| k in m; k
  }

  lemma RemoveShrinks<K, V>(m: map<K, V>, k: K)
    requires k in m
    ensures |m - {k}| == |m| - 1
  {
    assert (m - {k}).Keys == m.Keys - {k};
  }

  /** Every value the map holds, as often as it occurs across all its lists. */
  ghost function Flat<K, V>(m: map<K, seq<V>>): multiset<V>
    decreases |m|
  {
    if m == map[] then multiset{}
    else
      var k := Pick(m);
      RemoveShrinks(m, k);
      multiset(m[k]) + Flat(m - {k})
  }

  /** Flat does not depend on which key it takes apart first. */
  lemma {:induction false} FlatRemove<K, V>(m: map<K, seq<V>>, k: K)
    requires k in m
    ensures Flat(m) == multiset(m[k]) + Flat(m - {k})
    decreases |m|
  {
    var j := Pick(m);
    if j != k {
      var mj, mk := m - {j}, m - {k};
      RemoveShrinks(m, j);
      RemoveShrinks(m, k);
      assert k in mj && mj[k] == m[k];
      assert j in mk && mk[j] == m[j];
      FlatRemove(mj, k);
      FlatRemove(mk, j);
      assert (mj - {k}).Keys == (mk - {j}).Keys;
      assert forall i :: i in mj - {k} ==> (mj - {k})[i] == (mk - {j})[i];
      assert mj - {k} == mk - {j};
    }
  }

  /** Appending under one key adds exactly the appended values to the map's contents. */
  lemma FlatAppendAt<K, V>(m: map<K, seq<V>>, k: K, vs: seq<V>)
    ensures Flat(AppendAt(m, k, vs)) == Flat(m) + multiset(vs)
  {
    var r := AppendAt(m, k, vs);
    FlatRemove(r, k);
    assert (r - {k}).Keys == (m - {k}).Keys;
    assert forall j :: j in r - {k} ==> (r - {k})[j] == (m - {k})[j];
    assert r - {k} == m - {k};
    if k in m {
      FlatRemove(m, k);
    } else {
      assert m - {k} == m;
    }
  }

  /**
   * In a map that files every value under the key derived from it, the count
   * of a value in the whole map is its count in the list under its own key.
   */
  lemma {:induction false} FlatKeyed<K, V>(m: map<K, seq<V>>, key: V -> K, v: V)
    requires forall k, e :: k in m && e in m[k] ==> key(e) == k
    ensures Flat(m)[v] == multiset(Get(m, key(v)))[v]
    decreases |m|
  {
    if m != map[] {
      var k := Pick(m);
      RemoveShrinks(m, k);
      FlatKeyed(m - {k}, key, v);
      if k != key(v) {
        assert v !in m[k];
      }
    }
  }

  /** The concatenation of a list of lists, in order. */
  function Flatten<T>(ss: seq<seq<T>>): seq<T>
  {
    if ss == [] then [] else Flatten(ss[..|ss| - 1]) + ss[|ss| - 1]
  }

  /** Taking the first element off one of the lists leaves the rest of the concatenation's contents. */
  lemma {:induction false} FlattenTakeFirst<T>(ss: seq<seq<T>>, w: nat)
    requires w < |ss| && ss[w] != []
    ensures multiset(Flatten(ss[w := ss[w][1..]])) + multiset{ss[w][0]} == multiset(Flatten(ss))
  {
    var n := |ss| - 1;
    var t := ss[w][1..];
    var ts := ss[w := t];
    assert Flatten(ts) == Flatten(ts[..n]) + ts[n];
    assert Flatten(ss) == Flatten(ss[..n]) + ss[n];
    if w == n {
      assert ts[..n] == ss[..n];
      assert ss[w] == [ss[w][0]] + t;
      assert multiset(ss[n]) == multiset{ss[w][0]} + multiset(t);
    } else {
      assert ts[..n] == ss[..n][w := t];
      assert ts[n] == ss[n];
      FlattenTakeFirst(ss[..n], w);
    }
  }

  /** A list of empty lists flattens to nothing. */
  lemma {:induction false} FlattenEmpties<T>(ss: seq<seq<T>>)
    requires forall w :: 0 <= w < |ss| ==> ss[w] == []
    ensures Flatten(ss) == []
  {
    if ss != [] {
      FlattenEmpties(ss[..|ss| - 1]);
    }
  }

  /** A list in which only `e` can occur, and at most once, has at most one entry. */
  lemma AtMostOne<T>(s: seq<T>, e: T)
    requires forall d :: d in s ==> d == e
    requires multiset(s)[e] <= 1
    ensures |s| <= 1
  {
    var ms := multiset(s);
    if ms[e] == 0 {
      forall d ensures ms[d] == multiset{}[d] {
        if d != e {
          assert d !in s;
        }
      }
      assert ms == multiset{};
    } else {
      forall d ensures ms[d] == multiset{e}[d] {
        if d != e {
          assert d !in s;
        }
      }
      assert ms == multiset{e};
    }
  }

  /** A sequence holding two different values has at least two entries. */
  lemma TwoDistinct<T>(s: seq<T>, a: T, b: T)
    requires a in s && b in s && a != b
    ensures |s| >= 2
  {
    var i :| 0 <= i < |s| && s[i] == a;
    var j :| 0 <= j < |s| && s[j] == b;
    assert i != j;
  }

  /** In a sequence without repetitions every element occurs once. */
  lemma {:induction false} DistinctCount<T>(s: seq<T>, x: T)
    requires forall i, j :: 0 <= i < j < |s| ==> s[i] != s[j]
    ensures multiset(s)[x] <= 1
  {
    if s != [] {
      var n := |s| - 1;
      DistinctCount(s[..n], x);
      assert s == s[..n] + [s[n]];
      if s[n] == x {
        assert x !in s[..n];
      }
    }
  }
}
