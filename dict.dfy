/**
 * Python's `dict` as the cheat index uses it: entries in insertion order,
 * keys pairwise distinct. Assigning to a key that is already present replaces
 * its value and keeps its place in iteration order; a new key goes last.
 */
module Dict {
  import opened Wrappers
  import opened Seqs

  predicate DistinctKeys<K(==), V>(entries: seq<(K, V)>) {
    forall i, j :: 0 <= i < j < |entries| ==> entries[i].0 != entries[j].0
  }

  /** A dictionary, as the sequence of its `items()` in iteration order. */
  type Dict<K(==), V> = entries: seq<(K, V)> | DistinctKeys(entries) witness []

  /** `list(d.keys())`. */
  function Keys<K(==), V>(d: seq<(K, V)>): (ks: seq<K>)
    ensures |ks| == |d|
    ensures forall i :: 0 <= i < |d| ==> ks[i] == d[i].0
  {
    seq(|d|, i requires 0 <= i < |d| => d[i].0)
  }

  /** Place of `k` in iteration order, or `|d|` when `k` is not a key. */
  function Position<K(==), V>(d: seq<(K, V)>, k: K): (i: nat)
    ensures i <= |d|
    ensures i < |d| ==> d[i].0 == k
    ensures forall j :: 0 <= j < i ==> d[j].0 != k
    decreases |d|
  {
    if d == [] then 0 else if d[0].0 == k then 0 else 1 + Position(d[1..], k)
  }

  /** `d.get(k)`, with `None` for a missing key. */
  function Get<K(==), V>(d: Dict<K, V>, k: K): (r: Option<V>)
    ensures r.None? <==> k !in Keys(d)
    ensures forall i :: 0 <= i < |d| && d[i].0 == k ==> r == Some(d[i].1)
  {
    var i := Position(d, k);
    if i < |d| then Some(d[i].1) else None
  }

  /** `d[k] = v`, as a new dictionary. */
  function Put<K(==), V>(d: Dict<K, V>, k: K, v: V): (r: Dict<K, V>)
    ensures |r| == if k in Keys(d) then |d| else |d| + 1
  {
    var i := Position(d, k);
    if i < |d| then d[i := (k, v)] else d + [(k, v)]
  }

  /**
   * After `d[k] = v`, `k` maps to `v` and every other key to what it mapped to
   * before; an existing key keeps its place, a new key goes last.
   */
  lemma PutSpec<K(!new), V>(d: Dict<K, V>, k: K, v: V)
    ensures Get(Put(d, k, v), k) == Some(v)
    ensures forall k' :: k' != k ==> Get(Put(d, k, v), k') == Get(d, k')
    ensures Keys(Put(d, k, v)) == if k in Keys(d) then Keys(d) else Keys(d) + [k]
  {
    var r := Put(d, k, v);
    if k in Keys(d) {
      assert Keys(r) == Keys(d);
    } else {
      assert Keys(r) == Keys(d) + [k];
    }
  }

  /** Assigning to a new key appends its entry. */
  lemma PutNewKey<K, V>(d: Dict<K, V>, k: K, v: V)
    requires k !in Keys(d)
    ensures Put(d, k, v) == d + [(k, v)]
  {
  }

  /**
   * Copying the entries of `d` that pass `p` one at a time into a new
   * dictionary: the next passing entry is assigned under its own key.
   */
  lemma FilterStepPut<K(!new), V(!new)>(d: Dict<K, V>, i: nat, p: ((K, V)) -> bool, r: Dict<K, V>)
    requires i < |d| && r == Filter(d[..i], p)
    ensures Filter(d[..i + 1], p) == if p(d[i]) then Put(r, d[i].0, d[i].1) else r
  {
    FilterStep(d, i, p);
    if p(d[i]) {
      FilterPrefixLacksKey(d, i, p);
      PutNewKey(r, d[i].0, d[i].1);
    }
  }

  /** The place of a key is the index of the one entry that holds it. */
  lemma PositionOfEntry<K, V>(d: Dict<K, V>, i: nat)
    requires i < |d|
    ensures Position(d, d[i].0) == i
  {
  }

  /** Filtering the entries of a dictionary leaves their keys distinct. */
  lemma {:induction false} FilterKeepsDistinctKeys<K(!new), V(!new)>(d: Dict<K, V>, p: ((K, V)) -> bool)
    ensures DistinctKeys(Filter(d, p))
    decreases |d|
  {
    if d != [] {
      var init: Dict<K, V> := d[..|d| - 1];
      FilterKeepsDistinctKeys(init, p);
      var kept := Filter(init, p);
      forall i | 0 <= i < |kept|
        ensures kept[i].0 != d[|d| - 1].0
      {
        assert kept[i] in kept;
        var m :| 0 <= m < |init| && init[m] == kept[i];
      }
    }
  }

  /** A key not yet reached is absent from any filtered prefix. */
  lemma FilterPrefixLacksKey<K(!new), V(!new)>(d: Dict<K, V>, i: nat, p: ((K, V)) -> bool)
    requires i < |d|
    ensures d[i].0 !in Keys(Filter(d[..i], p))
  {
    var kept := Filter(d[..i], p);
    forall k | 0 <= k < |kept|
      ensures kept[k].0 != d[i].0
    {
      assert kept[k] in kept;
      var m :| 0 <= m < i && d[..i][m] == kept[k];
    }
  }

  /** Filtering the entries of a dictionary keeps them in iteration order. */
  lemma {:induction false} FilterKeepsOrder<K(!new), V(!new)>(d: Dict<K, V>, p: ((K, V)) -> bool)
    ensures forall i, j :: 0 <= i < j < |Filter(d, p)| ==> Position(d, Filter(d, p)[i].0) < Position(d, Filter(d, p)[j].0)
    decreases |d|
  {
    if d != [] {
      var n := |d| - 1;
      var init: Dict<K, V> := d[..n];
      FilterKeepsOrder(init, p);
      var kept := Filter(init, p);
      var r := Filter(d, p);
      assert r == kept + (if p(d[n]) then [d[n]] else []);
      forall i | 0 <= i < |kept|
        ensures Position(d, kept[i].0) == Position(init, kept[i].0)
        ensures Position(init, kept[i].0) < n
      {
        assert kept[i] in kept;
        var m :| 0 <= m < |init| && init[m] == kept[i];
        assert d[m] == init[m];
        PositionOfEntry(init, m);
        PositionOfEntry(d, m);
        assert Position(init, kept[i].0) == m;
        assert Position(d, kept[i].0) == m;
      }
      PositionOfEntry(d, n);
      forall i, j | 0 <= i < j < |r|
        ensures Position(d, r[i].0) < Position(d, r[j].0)
      {
        assert r[i] == kept[i];
        if j < |kept| {
          assert r[j] == kept[j];
          assert Position(init, kept[i].0) < Position(init, kept[j].0);
        } else {
          assert r[j] == d[n];
        }
      }
    }
  }
}
