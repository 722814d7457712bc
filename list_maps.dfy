/**
 * ListMaps: maps from a string key to a list, the `Map<String, List<V>>` shape used
 * by the registries and caches: appending under a key, the list under a key (empty
 * when absent), and the total number and the multiset of all listed values, which
 * do not depend on the order the map is walked in.
 */
module ListMaps {

  /** `map.getOrDefault(k, new ArrayList<>())`. */
  function ListAt<V>(lists: map<string, seq<V>>, k: string): (r: seq<V>)
    ensures k !in lists ==> r == []
    ensures k in lists ==> r == lists[k]
  {
    if k in lists then lists[k] else []
  }

  /** `map.computeIfAbsent(k, new ArrayList<>()).add(v)`: `v` appended to the list under `k`, nothing else touched. */
  function Append<V>(lists: map<string, seq<V>>, k: string, v: V): (r: map<string, seq<V>>)
    ensures k in r && r[k] == ListAt(lists, k) + [v]
    ensures forall k' :: k' != k ==> (k' in r <==> k' in lists) && (k' in lists ==> r[k'] == lists[k'])
  {
    lists[k := ListAt(lists, k) + [v]]
  }

  /** The sum of the lists' sizes. */
  ghost function TotalSize<V>(lists: map<string, seq<V>>): nat
    decreases lists.Keys
  {
    if lists == map[] then 0
    else
      var k :| k in lists;
      assert (lists - {k}).Keys < lists.Keys;
      |lists[k]| + TotalSize(lists - {k})
  }

  /** Every listed value, as often as it is listed. */
  ghost function AllValues<V>(lists: map<string, seq<V>>): multiset<V>
    decreases lists.Keys
  {
    if lists == map[] then multiset{}
    else
      var k :| k in lists;
      assert (lists - {k}).Keys < lists.Keys;
      multiset(lists[k]) + AllValues(lists - {k})
  }

  /** The total may be taken with any key first. */
  lemma {:induction false} TotalSizeRemove<V>(lists: map<string, seq<V>>, k: string)
    requires k in lists
    ensures TotalSize(lists) == |lists[k]| + TotalSize(lists - {k})
    decreases lists.Keys
  {
    var k' :| k' in lists && TotalSize(lists) == |lists[k']| + TotalSize(lists - {k'});
    if k' != k {
      assert (lists - {k'}).Keys < lists.Keys && (lists - {k}).Keys < lists.Keys;
      TotalSizeRemove(lists - {k'}, k);
      TotalSizeRemove(lists - {k}, k');
      assert lists - {k'} - {k} == lists - {k} - {k'};
    }
  }

  /** The multiset may be taken with any key first. */
  lemma {:induction false} AllValuesRemove<V>(lists: map<string, seq<V>>, k: string)
    requires k in lists
    ensures AllValues(lists) == multiset(lists[k]) + AllValues(lists - {k})
    decreases lists.Keys
  {
    var k' :| k' in lists && AllValues(lists) == multiset(lists[k']) + AllValues(lists - {k'});
    if k' != k {
      assert (lists - {k'}).Keys < lists.Keys && (lists - {k}).Keys < lists.Keys;
      AllValuesRemove(lists - {k'}, k);
      AllValuesRemove(lists - {k}, k');
      assert lists - {k'} - {k} == lists - {k} - {k'};
    }
  }

  /** The number of listed values is the sum of the sizes. */
  lemma {:induction false} AllValuesSize<V>(lists: map<string, seq<V>>)
    ensures |AllValues(lists)| == TotalSize(lists)
    decreases lists.Keys
  {
    if lists != map[] {
      var k :| k in lists;
      TotalSizeRemove(lists, k);
      AllValuesRemove(lists, k);
      assert (lists - {k}).Keys < lists.Keys;
      AllValuesSize(lists - {k});
    }
  }

  /** Appending one value adds one to the total and that value to the multiset. */
  lemma AppendCounts<V>(lists: map<string, seq<V>>, k: string, v: V)
    ensures TotalSize(Append(lists, k, v)) == TotalSize(lists) + 1
    ensures AllValues(Append(lists, k, v)) == AllValues(lists) + multiset{v}
  {
    var r := Append(lists, k, v);
    assert r - {k} == lists - {k};
    assert TotalSize(r) == TotalSize(lists) + 1 by {
      TotalSizeRemove(r, k);
      if k in lists {
        TotalSizeRemove(lists, k);
      } else {
        assert lists - {k} == lists;
      }
    }
    assert AllValues(r) == AllValues(lists) + multiset{v} by {
      AllValuesRemove(r, k);
      if k in lists {
        AllValuesRemove(lists, k);
        assert multiset(r[k]) == multiset(lists[k]) + multiset{v};
      } else {
        assert lists - {k} == lists;
      }
    }
  }
}
