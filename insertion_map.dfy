/**
 * The `Map` object each loader allocates and updates in place: its key order
 * and its table are fields, and `Set` reassigns them.
 */
module InsertionMaps {
  import opened OrderedMaps

  class InsertionMap<V> {
    var order: seq<string>
    var table: map<string, V>

    ghost predicate Valid()
      reads this
    {
      Model().Valid()
    }

    /** The map's abstract value. */
    function Model(): OrderedMap<V>
      reads this
    {
      OrderedMap(order, table)
    }

    /** `new Map<string, V>()` */
    constructor ()
      ensures Valid() && Model() == Empty()
    {
      order := [];
      table := map[];
    }

    /** `map.set(k, v)` */
    method Set(k: string, v: V)
      requires Valid()
      modifies this
      ensures Valid()
      ensures Model() == Put(old(Model()), k, v)
    {
      if k !in table {
        order := order + [k];
      }
      table := table[k := v];
    }

    /**
     * `for (const [key, value] of map.entries())`: the pairs in first-insertion
     * order, each key once with its current value.
     */
    method Entries() returns (lines: seq<(string, V)>)
      requires Valid()
      ensures |lines| == |order|
      ensures forall i :: 0 <= i < |lines| ==> lines[i].0 == order[i] && lines[i].0 in table && lines[i].1 == table[lines[i].0]
      ensures lines == EntrySeq(Model())
    {
      lines := [];
      var i := 0;
      while i < |order|
        invariant 0 <= i <= |order|
        invariant |lines| == i
        invariant forall j :: 0 <= j < i ==> lines[j] == (order[j], table[order[j]])
      {
        var key := order[i];
        lines := lines + [(key, table[key])];
        i := i + 1;
      }
    }
  }
}
