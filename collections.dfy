/** The dataset shape of a torsion-drive result collection: a map from group
    key to that group's records, with a provenance and a type tag carried
    along. Records, provenance and type are opaque to the pipeline: it moves,
    batches and counts records and compares the two tags, nothing more. */
module Collections {

  datatype Collection<K, R, P, T> = Collection(entries: map<K, seq<R>>, provenance: P, typ: T)

  /** `order` lists every key of `m` exactly once: the (unspecified) order in
      which a hash map hands out its keys and values. */
  ghost predicate IsKeyOrder<K, V>(m: map<K, V>, order: seq<K>)
  {
    (forall i, j :: 0 <= i < j < |order| ==> order[i] != order[j]) &&
    (forall k :: k in m ==> k in order) &&
    (forall i :: 0 <= i < |order| ==> order[i] in m)
  }

  /** Removing the first key from a map and from its key order leaves a key
      order of the smaller map. */
  lemma KeyOrderTail<K, V>(m: map<K, V>, order: seq<K>)
    requires IsKeyOrder(m, order) && order != []
    ensures IsKeyOrder(m - {order[0]}, order[1..])
  {
    forall k | k in order[1..]
      ensures k != order[0]
    {
      var j :| 0 <= j < |order[1..]| && order[1..][j] == k;
      assert order[j + 1] == k;
    }
    forall k | k in order && k != order[0]
      ensures k in order[1..]
    {
      var j :| 0 <= j < |order| && order[j] == k;
      assert order[1..][j - 1] == k;
    }
  }

  /** Every map has some key order. */
  lemma {:induction false} KeyOrderExists<K, V>(m: map<K, V>)
    ensures exists order :: IsKeyOrder(m, order)
    decreases m.Keys
  {
    if m == map[] {
      assert IsKeyOrder(m, []);
    } else {
      var k :| k in m;
      var rest := m - {k};
      assert |rest| < |m| by { assert rest.Keys == m.Keys - {k}; }
      KeyOrderExists(rest);
      var order :| IsKeyOrder(rest, order);
      var order' := [k] + order;
      forall i, j | 0 <= i < j < |order'|
        ensures order'[i] != order'[j]
      {
        if i == 0 {
          assert order'[j] == order[j - 1] && order[j - 1] in rest;
        }
      }
      forall x
        ensures x in m <==> x in order'
      {
        if x != k {
          assert x in m <==> x in rest;
        }
      }
      assert IsKeyOrder(m, order');
    }
  }

  /** All the records of all groups, together, counted with multiplicity. */
  ghost function GroupsMultiset<K, R>(m: map<K, seq<R>>): multiset<R>
    decreases m.Keys
  {
    if m == map[] then multiset{}
    else
      var k := PickKey(m);
      assert (m - {k}).Keys == m.Keys - {k};
      multiset(m[k]) + GroupsMultiset(m - {k})
  }

  /** Some key of a non-empty map. */
  ghost function PickKey<K, V>(m: map<K, V>): (k: K)
    requires m != map[]
    ensures k in m
  {
    var k :| k in m; k
  }

  /** The number of records in all groups together. */
  ghost function RecordCount<K, R>(m: map<K, seq<R>>): nat
  {
    |GroupsMultiset(m)|
  }

  /** The records of key `k`, or none when `k` is absent (Rust's
      `entry(k).or_default()`). */
  function Get<K, R>(m: map<K, seq<R>>, k: K): seq<R>
  {
    if k in m then m[k] else []
  }

  /** Taking any one group out of the map splits the multiset of all records
      in two, whichever group the definition happened to pick. */
  lemma {:induction false} GroupsMultisetRemove<K, R>(m: map<K, seq<R>>, k: K)
    ensures GroupsMultiset(m) == multiset(Get(m, k)) + GroupsMultiset(m - {k})
    decreases m.Keys
  {
    if k !in m {
      assert m - {k} == m;
    } else {
      var j := PickKey(m);
      var mj, mk := m - {j}, m - {k};
      assert mj.Keys == m.Keys - {j} && mk.Keys == m.Keys - {k};
      assert GroupsMultiset(m) == multiset(m[j]) + GroupsMultiset(mj);
      if j != k {
        var both := mj - {k};
        assert both == mk - {j};
        GroupsMultisetRemove(mj, k);
        assert Get(mj, k) == m[k];
        GroupsMultisetRemove(mk, j);
        assert Get(mk, j) == m[j];
        calc {
          GroupsMultiset(m);
          multiset(m[j]) + (multiset(m[k]) + GroupsMultiset(both));
          multiset(m[k]) + (multiset(m[j]) + GroupsMultiset(both));
          multiset(m[k]) + GroupsMultiset(mk);
        }
      }
    }
  }

  /** `split` (src/lib.rs:74-76): the records of every group, one group after
      another in the map's iteration order. The result holds exactly the
      dataset's records, each as often as the groups hold it, whatever the
      iteration order. */
  function Split<K, R>(m: map<K, seq<R>>, order: seq<K>): (records: seq<R>)
    requires IsKeyOrder(m, order)
    ensures multiset(records) == GroupsMultiset(m)
    ensures |records| == RecordCount(m)
    decreases |order|
  {
    if order == [] then
      assert m.Keys == {};
      []
    else
      KeyOrderTail(m, order);
      GroupsMultisetRemove(m, order[0]);
      m[order[0]] + Split(m - {order[0]}, order[1..])
  }

  /** A dataset with no records splits into nothing, and one with records
      has a first key. */
  lemma SplitEmpty<K, R>(m: map<K, seq<R>>, order: seq<K>)
    requires IsKeyOrder(m, order)
    ensures Split(m, order) == [] <==> RecordCount(m) == 0
    ensures Split(m, order) != [] ==> order != []
  {
  }

  /** A dataset with a single group splits into exactly that group's records. */
  lemma SplitSingle<K, R>(m: map<K, seq<R>>, order: seq<K>)
    requires IsKeyOrder(m, order) && |m| == 1
    ensures order != [] && Split(m, order) == m[order[0]]
    ensures m == map[order[0] := m[order[0]]]
  {
    var k :| k in m;
    assert k in order;
    KeyOrderTail(m, order);
    var rest := m - {order[0]};
    assert rest.Keys == m.Keys - {order[0]};
    assert |rest| == 0;
    assert rest == map[];
    assert order[1..] == [];
    forall x | x in m
      ensures x == order[0]
    {
      assert x !in rest;
    }
  }

  /** The dataset fragment `to_python` serialises (src/lib.rs:78-85): the
      given records alone, under the map's first key, with this dataset's
      provenance and type. The Rust code panics on a dataset without keys
      (`unwrap` of the first key); the precondition excludes that case. */
  function Fragment<K, R, P, T>(self: Collection<K, R, P, T>, order: seq<K>, entries: seq<R>): (r: Collection<K, R, P, T>)
    requires IsKeyOrder(self.entries, order) && order != []
    ensures r.entries.Keys == {order[0]} && order[0] in self.entries
    ensures r.entries[order[0]] == entries
    ensures r.provenance == self.provenance && r.typ == self.typ
  {
    Collection(map[order[0] := entries], self.provenance, self.typ)
  }
}
