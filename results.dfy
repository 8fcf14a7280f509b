/**
 * The per-server result table: an insertion-ordered dictionary from server
 * identifier to the two-field status record, as a Python `dict` keeps it.
 */
module Results {

  /** The `renew_status` and `start_status` fields of one server's record. */
  datatype Status = Status(renew: string, start: string)

  /**
   * An insertion-ordered dictionary: `keys` lists the keys in the order they
   * were first inserted, `entries` holds the current value of each.
   */
  datatype Table<K(==, !new), V> = Table(keys: seq<K>, entries: map<K, V>) {

    ghost predicate Valid() {
      && (forall i, j | 0 <= i < j < |keys| :: keys[i] != keys[j])
      && (forall k :: k in entries <==> k in keys)
    }

    /**
     * `table[k] = v`: a new key goes to the end of the order, an existing key
     * keeps its place; every other entry is unchanged.
     */
    function Put(k: K, v: V): (t: Table<K, V>)
      requires Valid()
      ensures t.Valid()
      ensures k in t.entries && t.entries[k] == v
      ensures forall k' | k' != k && k' in entries :: k' in t.entries && t.entries[k'] == entries[k']
      ensures t.entries.Keys == entries.Keys + {k}
      ensures k in entries ==> t.keys == keys
      ensures k !in entries ==> t.keys == keys + [k]
    {
      if k in entries then Table(keys, entries[k := v])
      else Table(keys + [k], entries[k := v])
    }
  }

  /** `self.server_results`: server identifier to status record. */
  type ResultTable = Table<string, Status>

  const Empty: ResultTable := Table([], map[])

  /** Writing one key leaves the record under any other key as it was. */
  lemma PutKeeps<K(!new), V>(t: Table<K, V>, k: K, v: V, k': K)
    requires t.Valid() && k' in t.entries && k' != k
    ensures k' in t.Put(k, v).entries && t.Put(k, v).entries[k'] == t.entries[k']
  {
  }

  /** Writing a key twice leaves only the second value, in the first write's place. */
  lemma PutPut<K(!new), V>(t: Table<K, V>, k: K, a: V, b: V)
    requires t.Valid()
    ensures t.Put(k, a).Put(k, b) == t.Put(k, b)
  {
  }

  /** A list without repeats has as many distinct elements as positions. */
  lemma {:induction false} DistinctCard<K>(keys: seq<K>)
    requires forall i, j | 0 <= i < j < |keys| :: keys[i] != keys[j]
    ensures |set k | k in keys| == |keys|
    decreases |keys|
  {
    if |keys| > 0 {
      var n := |keys| - 1;
      var front := keys[..n];
      assert forall i | 0 <= i < n :: front[i] == keys[i];
      DistinctCard(front);
      assert (set k | k in keys) == (set k | k in front) + {keys[n]} by {
        assert keys == front + [keys[n]];
      }
      assert keys[n] !in front;
    }
  }

  /** In a valid table there is one entry per listed key. */
  lemma EntryCount<K(!new), V>(t: Table<K, V>)
    requires t.Valid()
    ensures |t.entries| == |t.keys|
  {
    DistinctCard(t.keys);
    assert t.entries.Keys == set k | k in t.keys;
  }
}
