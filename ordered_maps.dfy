/**
 * The JavaScript `Map<string, V>` that both loaders of main.ts fill, as a value:
 * a table from key to value together with the order in which each key was
 * first inserted. That order is the order in which `Map.prototype.entries`
 * yields the pairs, and so the order of the loaders' log lines.
 */
module OrderedMaps {

  datatype OrderedMap<V> = OrderedMap(order: seq<string>, table: map<string, V>)
  {
    /** Every key is listed once, and the listed keys are exactly the table's keys. */
    ghost predicate Valid() {
      && (forall i, j :: 0 <= i < j < |order| ==> order[i] != order[j])
      && (forall k :: k in table <==> k in order)
    }
  }

  /** `new Map()` */
  function Empty<V>(): (r: OrderedMap<V>)
    ensures r.Valid() && |r.table| == 0 && |r.order| == 0
  {
    OrderedMap([], map[])
  }

  /**
   * `Map.prototype.set(k, v)`: the value for `k` becomes `v`, replacing any
   * earlier one; a key already present keeps its position, a new key goes last.
   */
  function Put<V>(m: OrderedMap<V>, k: string, v: V): (r: OrderedMap<V>)
    requires m.Valid()
    ensures r.Valid()
  {
    OrderedMap(if k in m.table then m.order else m.order + [k], m.table[k := v])
  }

  /**
   * What `set` promises: the key afterwards maps to exactly `v`; every other
   * key keeps its value; the key set only gains `k`; an existing key keeps its
   * position and a new key is appended.
   */
  lemma PutSemantics<V>(m: OrderedMap<V>, k: string, v: V)
    requires m.Valid()
    ensures k in Put(m, k, v).table && Put(m, k, v).table[k] == v
    ensures forall k' :: k' in Put(m, k, v).table <==> k' in m.table || k' == k
    ensures forall k' :: k' != k && k' in m.table ==> Put(m, k, v).table[k'] == m.table[k']
    ensures |m.order| <= |Put(m, k, v).order| && Put(m, k, v).order[..|m.order|] == m.order
    ensures k in m.table ==> Put(m, k, v).order == m.order
    ensures k !in m.table ==> Put(m, k, v).order == m.order + [k]
  {
  }

  /** The keys of a sequence of pairs, in order, duplicates kept. */
  function KeySeq<V>(pairs: seq<(string, V)>): seq<string>
  {
    seq(|pairs|, i requires 0 <= i < |pairs| => pairs[i].0)
  }

  /** Calls `set` once per pair, first pair first. */
  function PutAll<V>(m: OrderedMap<V>, pairs: seq<(string, V)>): (r: OrderedMap<V>)
    requires m.Valid()
    ensures r.Valid()
    decreases |pairs|
  {
    if pairs == [] then m
    else
      var last := pairs[|pairs| - 1];
      Put(PutAll(m, pairs[..|pairs| - 1]), last.0, last.1)
  }

  /**
   * The pairs a `for ... of map.entries()` loop visits: every key of the map
   * exactly once, in first-insertion order, with its current value.
   */
  function EntrySeq<V>(m: OrderedMap<V>): (r: seq<(string, V)>)
    requires m.Valid()
    ensures |r| == |m.order| && forall i :: 0 <= i < |r| ==> r[i].0 == m.order[i]
    ensures forall k :: k in m.table <==> exists i :: 0 <= i < |r| && r[i].0 == k
    ensures forall i, j :: 0 <= i < j < |r| ==> r[i].0 != r[j].0
    ensures forall i :: 0 <= i < |r| ==> r[i].0 in m.table && r[i].1 == m.table[r[i].0]
  {
    seq(|m.order|, i requires 0 <= i < |m.order| => (m.order[i], m.table[m.order[i]]))
  }

  /**
   * Reference definition of first-insertion order, independent of `Put`: scan
   * `keys` from the front and keep each key the first time it shows up,
   * unless it is in `known` already.
   */
  function Firsts(known: set<string>, keys: seq<string>): seq<string>
    decreases |keys|
  {
    if keys == [] then []
    else if keys[0] in known then Firsts(known, keys[1..])
    else [keys[0]] + Firsts(known + {keys[0]}, keys[1..])
  }

  lemma KeySeqSnoc<V>(pairs: seq<(string, V)>)
    requires pairs != []
    ensures KeySeq(pairs) == KeySeq(pairs[..|pairs| - 1]) + [pairs[|pairs| - 1].0]
  {
  }

  /** After `PutAll` the keys are the old keys and the keys of the pairs, no others. */
  lemma {:induction false} PutAllKeys<V>(m: OrderedMap<V>, pairs: seq<(string, V)>)
    requires m.Valid()
    ensures forall k :: k in PutAll(m, pairs).table <==> k in m.table || k in KeySeq(pairs)
  {
    if pairs != [] {
      var n := |pairs| - 1;
      PutAllKeys(m, pairs[..n]);
      KeySeqSnoc(pairs);
    }
  }

  /** A key no pair mentions keeps its value. */
  lemma {:induction false} PutAllUntouched<V>(m: OrderedMap<V>, pairs: seq<(string, V)>, k: string)
    requires m.Valid()
    requires k in m.table && k !in KeySeq(pairs)
    ensures k in PutAll(m, pairs).table && PutAll(m, pairs).table[k] == m.table[k]
  {
    if pairs != [] {
      var n := |pairs| - 1;
      KeySeqSnoc(pairs);
      PutAllUntouched(m, pairs[..n], k);
    }
  }

  /**
   * Last writer wins: a key ends up with the value of its last pair, exactly
   * that value, never a combination of several.
   */
  lemma {:induction false} PutAllLastWins<V>(m: OrderedMap<V>, pairs: seq<(string, V)>, i: nat)
    requires m.Valid()
    requires i < |pairs|
    requires forall j :: i < j < |pairs| ==> pairs[j].0 != pairs[i].0
    ensures pairs[i].0 in PutAll(m, pairs).table && PutAll(m, pairs).table[pairs[i].0] == pairs[i].1
  {
    var n := |pairs| - 1;
    var init := pairs[..n];
    if i < n {
      PutAllLastWins(m, init, i);
      PutOther(PutAll(m, init), pairs[n].0, pairs[n].1, pairs[i].0);
    }
  }

  lemma PutOther<V>(m: OrderedMap<V>, k: string, v: V, other: string)
    requires m.Valid() && other != k && other in m.table
    ensures other in Put(m, k, v).table && Put(m, k, v).table[other] == m.table[other]
  {
  }

  /** The table after `PutAll` is the old table overridden by what the pairs alone build. */
  lemma {:induction false} PutAllTable<V>(m: OrderedMap<V>, pairs: seq<(string, V)>)
    requires m.Valid()
    ensures PutAll(m, pairs).table == m.table + PutAll(Empty(), pairs).table
  {
    if pairs != [] {
      var n := |pairs| - 1;
      var (k, v) := pairs[n];
      PutAllTable(m, pairs[..n]);
      var mine := PutAll(m, pairs[..n]).table;
      var before := PutAll(Empty(), pairs[..n]).table;
      assert mine == m.table + before;
      assert PutAll(m, pairs).table == mine[k := v];
      assert PutAll(Empty(), pairs).table == before[k := v];
      MergeUpdate(m.table, before, k, v);
    }
  }

  lemma MergeUpdate<V>(a: map<string, V>, b: map<string, V>, k: string, v: V)
    ensures (a + b)[k := v] == a + b[k := v]
  {
  }

  lemma MergeTwice<V>(a: map<string, V>, b: map<string, V>)
    ensures (a + b) + b == a + b
  {
  }

  lemma {:induction false} FirstsAppend(known: set<string>, a: seq<string>, b: seq<string>)
    ensures Firsts(known, a + b) == Firsts(known, a) + Firsts(known + (set k | k in a), b)
    decreases |a|
  {
    if a == [] {
      assert a + b == b;
      assert known + (set k | k in a) == known;
    } else {
      assert (a + b)[1..] == a[1..] + b;
      if a[0] in known {
        FirstsAppend(known, a[1..], b);
        assert known + (set k | k in a) == known + (set k | k in a[1..]);
      } else {
        FirstsAppend(known + {a[0]}, a[1..], b);
        assert known + (set k | k in a) == known + {a[0]} + (set k | k in a[1..]);
      }
    }
  }

  lemma FirstsSnoc(known: set<string>, a: seq<string>, k: string)
    ensures Firsts(known, a + [k]) == Firsts(known, a) + if k in known || k in a then [] else [k]
  {
    FirstsAppend(known, a, [k]);
  }

  lemma {:induction false} FirstsAllKnown(known: set<string>, keys: seq<string>)
    requires forall k :: k in keys ==> k in known
    ensures Firsts(known, keys) == []
  {
    if keys != [] {
      FirstsAllKnown(known, keys[1..]);
    }
  }

  /**
   * Order is first insertion: after `PutAll` the old keys keep their places
   * and are followed by the new keys in the order of their first pair.
   */
  lemma {:induction false} PutAllOrder<V>(m: OrderedMap<V>, pairs: seq<(string, V)>)
    requires m.Valid()
    ensures PutAll(m, pairs).order == m.order + Firsts(m.table.Keys, KeySeq(pairs))
  {
    if pairs != [] {
      var n := |pairs| - 1;
      var (k, v) := pairs[n];
      var init := pairs[..n];
      var mid := PutAll(m, init);
      PutAllOrder(m, init);
      PutAllKeys(m, init);
      KeySeqSnoc(pairs);
      FirstsSnoc(m.table.Keys, KeySeq(init), k);
      assert k in mid.table <==> k in m.table.Keys || k in KeySeq(init);
      PutOrder(mid, k, v, m.order, Firsts(m.table.Keys, KeySeq(init)));
    } else {
      assert KeySeq(pairs) == [];
    }
  }

  lemma PutOrder<V>(m: OrderedMap<V>, k: string, v: V, front: seq<string>, back: seq<string>)
    requires m.Valid() && m.order == front + back
    ensures Put(m, k, v).order == front + (back + if k in m.table then [] else [k])
  {
  }

  /** Overwriting only keys already present moves nothing. */
  lemma PutAllKnownKeepsOrder<V>(m: OrderedMap<V>, pairs: seq<(string, V)>)
    requires m.Valid()
    requires forall k :: k in KeySeq(pairs) ==> k in m.table
    ensures PutAll(m, pairs).order == m.order
  {
    PutAllOrder(m, pairs);
    FirstsAllKnown(m.table.Keys, KeySeq(pairs));
  }

  /** Applying the same pairs a second time changes nothing: overwrite is idempotent. */
  lemma PutAllIdempotent<V>(m: OrderedMap<V>, pairs: seq<(string, V)>)
    requires m.Valid()
    ensures PutAll(PutAll(m, pairs), pairs) == PutAll(m, pairs)
  {
    var once := PutAll(m, pairs);
    PutAllKeys(m, pairs);
    PutAllKnownKeepsOrder(once, pairs);
    PutAllTable(once, pairs);
    PutAllTable(m, pairs);
    MergeTwice(m.table, PutAll(Empty(), pairs).table);
    assert PutAll(once, pairs).order == once.order;
    assert PutAll(once, pairs).table == once.table;
  }
}
