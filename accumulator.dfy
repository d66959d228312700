/** `accumulate` (src/lib.rs:93-135): merging the partial datasets the
    workers return into one. */
module Accumulator {
  import opened Collections
  import Batching

  /** The two messages the merge prints to standard error
      (src/lib.rs:111-118). */
  datatype Warning = ProvenanceMismatch | TypeMismatch

  /** `more`'s records appended, key by key, to those `acc` holds under the
      same key; a key `acc` lacks starts out empty (src/lib.rs:127-130). */
  function MergeEntries<K, R>(acc: map<K, seq<R>>, more: map<K, seq<R>>): map<K, seq<R>>
  {
    map k | k in acc.Keys + more.Keys :: Get(acc, k) + Get(more, k)
  }

  /** The loop over one partial's groups (src/lib.rs:127-130): for each of
      its keys, in whatever order the map yields them, extend the seed's
      sequence for that key, creating it empty first if it is missing. */
  method ExtendEntries<K, R>(acc: map<K, seq<R>>, more: map<K, seq<R>>) returns (r: map<K, seq<R>>)
    ensures r == MergeEntries(acc, more)
  {
    r := acc;
    var todo := more.Keys;
    assert more - todo == map[];
    assert MergeEntries(acc, map[]) == acc by {
      var empty: map<K, seq<R>> := map[];
      assert acc.Keys + empty.Keys == acc.Keys;
      forall k | k in acc
        ensures Get(acc, k) + Get(empty, k) == acc[k]
      {
        assert Get(empty, k) == [];
      }
    }
    while todo != {}
      invariant todo <= more.Keys
      invariant r == MergeEntries(acc, more - todo)
      decreases todo
    {
      var k :| k in todo;
      var entry := Get(r, k);
      r := r[k := entry + more[k]];
      todo := todo - {k};
    }
    assert more - todo == more;
  }

  /** The entries of the seed `results[0]` with those of every later
      partial merged in, in order. */
  function MergeAll<K, R, P, T>(results: seq<Collection<K, R, P, T>>): map<K, seq<R>>
    requires results != []
  {
    if |results| == 1 then results[0].entries
    else MergeEntries(MergeAll(results[..|results| - 1]), results[|results| - 1].entries)
  }

  /** The warnings one later partial draws against the seed, in the order
      they are printed. */
  function ResultWarnings<K, R, P(==), T(==)>(seed: Collection<K, R, P, T>, r: Collection<K, R, P, T>): seq<Warning>
  {
    (if seed.provenance != r.provenance then [ProvenanceMismatch] else []) +
    (if seed.typ != r.typ then [TypeMismatch] else [])
  }

  /** The warnings all later partials draw against the seed. */
  function Warnings<K, R, P(==), T(==)>(seed: Collection<K, R, P, T>, rest: seq<Collection<K, R, P, T>>): seq<Warning>
  {
    if rest == [] then []
    else Warnings(seed, rest[..|rest| - 1]) + ResultWarnings(seed, rest[|rest| - 1])
  }

  /** The merged dataset and the warnings printed on the way (src/lib.rs:94-134). */
  function Accumulated<K, R, P(==), T(==)>(self: Collection<K, R, P, T>, results: seq<Collection<K, R, P, T>>): (Collection<K, R, P, T>, seq<Warning>)
  {
    if |results| == 0 then (self, [])
    else if |results| == 1 then (results[0], [])
    else (results[0].(entries := MergeAll(results)), Warnings(results[0], results[1..]))
  }

  /** `accumulate`: no partial gives back the original, one partial is
      returned as it is, and otherwise the first partial is the seed into
      which every later one is merged, with a warning for each provenance or
      type that differs from the seed's and no effect on the merge. */
  method Accumulate<K, R, P(==), T(==)>(self: Collection<K, R, P, T>, results: seq<Collection<K, R, P, T>>)
    returns (ret: Collection<K, R, P, T>, warnings: seq<Warning>)
    ensures |results| == 0 ==> ret == self && warnings == []
    ensures |results| == 1 ==> ret == results[0] && warnings == []
    ensures |results| >= 2 ==> ret.provenance == results[0].provenance && ret.typ == results[0].typ
    ensures |results| >= 2 ==> ret.entries == MergeAll(results)
    ensures |results| >= 2 ==> warnings == Warnings(results[0], results[1..])
  {
    if |results| == 0 {
      return self, [];
    }
    if |results| == 1 {
      return results[0], [];
    }
    ret := results[0];
    warnings := [];
    var i := 1;
    while i < |results|
      invariant 1 <= i <= |results|
      invariant ret.provenance == results[0].provenance && ret.typ == results[0].typ
      invariant ret.entries == MergeAll(results[..i])
      invariant warnings == Warnings(results[0], results[1..i])
    {
      var r := results[i];
      if ret.provenance != r.provenance {
        warnings := warnings + [ProvenanceMismatch];
      }
      if ret.typ != r.typ {
        warnings := warnings + [TypeMismatch];
      }
      var entries := ExtendEntries(ret.entries, r.entries);
      ret := ret.(entries := entries);
      MergeAllSnoc(results, i);
      WarningsSnoc(results, i);
      i := i + 1;
    }
    assert results[..i] == results;
  }

  lemma MergeAllSnoc<K, R, P, T>(results: seq<Collection<K, R, P, T>>, i: nat)
    requires 1 <= i < |results|
    ensures MergeAll(results[..i + 1]) == MergeEntries(MergeAll(results[..i]), results[i].entries)
  {
    var s := results[..i + 1];
    MergeAllLast(s);
    assert s[..|s| - 1] == results[..i];
    assert s[|s| - 1] == results[i];
  }

  lemma MergeAllLast<K, R, P, T>(results: seq<Collection<K, R, P, T>>)
    requires |results| >= 2
    ensures MergeAll(results) == MergeEntries(MergeAll(results[..|results| - 1]), results[|results| - 1].entries)
  {
  }

  lemma WarningsSnoc<K, R, P, T>(results: seq<Collection<K, R, P, T>>, i: nat)
    requires 1 <= i < |results|
    ensures Warnings(results[0], results[1..i + 1]) == Warnings(results[0], results[1..i]) + ResultWarnings(results[0], results[i])
  {
    assert results[1..i + 1][..i - 1] == results[1..i];
  }

  /** The records each partial holds under key `k`, in result order. */
  function Column<K, R, P, T>(results: seq<Collection<K, R, P, T>>, k: K): (c: seq<seq<R>>)
    ensures |c| == |results|
  {
    seq(|results|, i requires 0 <= i < |results| => Get(results[i].entries, k))
  }

  /** Some partial holds key `k`. */
  ghost predicate HasKey<K, R, P, T>(results: seq<Collection<K, R, P, T>>, k: K)
  {
    exists i :: 0 <= i < |results| && k in results[i].entries
  }

  /** The merged key set is the union of the partials' key sets. */
  lemma {:induction false} MergeAllKeys<K, R, P, T>(results: seq<Collection<K, R, P, T>>, k: K)
    requires results != []
    ensures k in MergeAll(results) <==> HasKey(results, k)
  {
    var n := |results| - 1;
    if n == 0 {
      if k in results[0].entries {
        assert 0 <= 0 < |results| && k in results[0].entries;
      }
    } else {
      var init := results[..n];
      MergeAllKeys(init, k);
      assert k in MergeAll(results) <==> k in MergeAll(init) || k in results[n].entries;
      if HasKey(init, k) {
        var i :| 0 <= i < |init| && k in init[i].entries;
        assert results[i] == init[i];
      }
      if k in results[n].entries {
        assert 0 <= n < |results| && k in results[n].entries;
      }
      if HasKey(results, k) {
        var i :| 0 <= i < |results| && k in results[i].entries;
        if i < n {
          assert init[i] == results[i];
        }
      }
    }
  }

  lemma {:induction false} ConcatSnoc<X>(xs: seq<seq<X>>, x: seq<X>)
    ensures Batching.Concat(xs + [x]) == Batching.Concat(xs) + x
  {
    if xs != [] {
      assert (xs + [x])[1..] == xs[1..] + [x];
      ConcatSnoc(xs[1..], x);
    }
  }

  /** Under each key the merge holds every partial's records for that key,
      concatenated in result order, nothing removed and nothing repeated. */
  lemma {:induction false} MergeAllAt<K, R, P, T>(results: seq<Collection<K, R, P, T>>, k: K)
    requires results != []
    ensures Get(MergeAll(results), k) == Batching.Concat(Column(results, k))
  {
    var n := |results| - 1;
    var init := results[..n];
    ColumnSnoc(results, k);
    ConcatSnoc(Column(init, k), Get(results[n].entries, k));
    if n > 0 {
      MergeAllAt(init, k);
    }
  }

  /** The column of all partials is that of all but the last, then the last's. */
  lemma ColumnSnoc<K, R, P, T>(results: seq<Collection<K, R, P, T>>, k: K)
    requires results != []
    ensures Column(results, k) == Column(results[..|results| - 1], k) + [Get(results[|results| - 1].entries, k)]
  {
    var n := |results| - 1;
    var c, c' := Column(results, k), Column(results[..n], k) + [Get(results[n].entries, k)];
    forall i | 0 <= i < |c|
      ensures c[i] == c'[i]
    {
      if i < n {
        assert results[..n][i] == results[i];
      }
    }
  }

  /** Merging two maps of groups adds up their records. */
  lemma {:induction false} MergeEntriesRecords<K, R>(a: map<K, seq<R>>, b: map<K, seq<R>>)
    ensures GroupsMultiset(MergeEntries(a, b)) == GroupsMultiset(a) + GroupsMultiset(b)
    decreases a.Keys + b.Keys
  {
    var m := MergeEntries(a, b);
    if a.Keys + b.Keys == {} {
      assert a == map[] && b == map[] && m == map[];
    } else {
      var k :| k in a.Keys + b.Keys;
      var a', b' := a - {k}, b - {k};
      MergeEntriesRemove(a, b, k);
      assert a'.Keys + b'.Keys < a.Keys + b.Keys;
      var ka, kb := multiset(Get(a, k)), multiset(Get(b, k));
      calc {
        GroupsMultiset(m);
        { GroupsMultisetRemove(m, k); }
        multiset(Get(m, k)) + GroupsMultiset(m - {k});
        { assert Get(m, k) == Get(a, k) + Get(b, k); }
        ka + kb + GroupsMultiset(MergeEntries(a', b'));
        { MergeEntriesRecords(a', b'); }
        ka + kb + (GroupsMultiset(a') + GroupsMultiset(b'));
        (ka + GroupsMultiset(a')) + (kb + GroupsMultiset(b'));
        { GroupsMultisetRemove(a, k); GroupsMultisetRemove(b, k); }
        GroupsMultiset(a) + GroupsMultiset(b);
      }
    }
  }

  lemma MergeEntriesRemove<K, R>(a: map<K, seq<R>>, b: map<K, seq<R>>, k: K)
    ensures MergeEntries(a, b) - {k} == MergeEntries(a - {k}, b - {k})
  {
  }

  /** What `measure` picks out of each partial, pooled over all partials. */
  ghost function Pool<K, R, P, T>(results: seq<Collection<K, R, P, T>>, measure: Collection<K, R, P, T> -> multiset<R>): multiset<R>
  {
    if results == [] then multiset{}
    else Pool(results[..|results| - 1], measure) + measure(results[|results| - 1])
  }

  /** All records of one partial, with multiplicity. */
  ghost function RecordsOf<K, R, P, T>(c: Collection<K, R, P, T>): multiset<R>
  {
    GroupsMultiset(c.entries)
  }

  /** All records of all partials, with multiplicity. */
  ghost function AllRecords<K, R, P, T>(results: seq<Collection<K, R, P, T>>): multiset<R>
  {
    Pool(results, RecordsOf)
  }

  /** The records all partials hold under key `k`, with multiplicity. */
  ghost function KeyRecords<K, R, P, T>(results: seq<Collection<K, R, P, T>>, k: K): multiset<R>
  {
    Pool(results, (c: Collection<K, R, P, T>) => multiset(Get(c.entries, k)))
  }

  /** The number of records of all partials together. */
  ghost function TotalCount<K, R, P, T>(results: seq<Collection<K, R, P, T>>): nat
  {
    if results == [] then 0
    else TotalCount(results[..|results| - 1]) + RecordCount(results[|results| - 1].entries)
  }

  /** The merge keeps every record of every partial and adds none: no
      deduplication, so the counts add up. */
  lemma {:induction false} MergeAllRecords<K, R, P, T>(results: seq<Collection<K, R, P, T>>)
    requires results != []
    ensures GroupsMultiset(MergeAll(results)) == AllRecords(results)
    ensures RecordCount(MergeAll(results)) == TotalCount(results)
  {
    var n := |results| - 1;
    assert AllRecords(results) == AllRecords(results[..n]) + RecordsOf(results[n]);
    if n == 0 {
      assert results[..0] == [];
    } else {
      var init := results[..n];
      MergeAllRecords(init);
      MergeEntriesRecords(MergeAll(init), results[n].entries);
    }
  }

  /** A pool splits over a concatenation of partials. */
  lemma {:induction false} PoolAppend<K, R, P, T>(a: seq<Collection<K, R, P, T>>, b: seq<Collection<K, R, P, T>>,
                                                  measure: Collection<K, R, P, T> -> multiset<R>)
    ensures Pool(a + b, measure) == Pool(a, measure) + Pool(b, measure)
    decreases |b|
  {
    if b == [] {
      assert a + b == a;
    } else {
      var n := |b| - 1;
      var ab := a + b;
      assert ab[..|ab| - 1] == a + b[..n];
      assert ab[|ab| - 1] == b[n];
      var last := measure(b[n]);
      calc {
        Pool(ab, measure);
        Pool(a + b[..n], measure) + last;
        { PoolAppend(a, b[..n], measure); }
        (Pool(a, measure) + Pool(b[..n], measure)) + last;
        Pool(a, measure) + (Pool(b[..n], measure) + last);
        Pool(a, measure) + Pool(b, measure);
      }
    }
  }

  /** A pool does not depend on the order the partials arrive in. */
  lemma {:induction false} PoolPermutation<K, R, P, T>(r: seq<Collection<K, R, P, T>>, p: seq<Collection<K, R, P, T>>,
                                                       measure: Collection<K, R, P, T> -> multiset<R>)
    requires multiset(r) == multiset(p)
    ensures Pool(r, measure) == Pool(p, measure)
    decreases |r|
  {
    if r == [] {
      assert |multiset(p)| == 0;
    } else {
      var n := |r| - 1;
      var x := r[n];
      assert r == r[..n] + [x];
      assert multiset(r) == multiset(r[..n]) + multiset{x};
      assert x in multiset(p);
      var j :| 0 <= j < |p| && p[j] == x;
      var before, after := p[..j], p[j + 1..];
      RemoveAt(p, j);
      MultisetCancel(multiset(r[..n]), multiset(before + after), x);
      PoolPermutation(r[..n], before + after, measure);
      calc {
        Pool(p, measure);
        { PoolAppend(before + [x], after, measure); }
        Pool(before + [x], measure) + Pool(after, measure);
        { PoolAppend(before, [x], measure); PoolOne(x, measure); }
        Pool(before, measure) + measure(x) + Pool(after, measure);
        { PoolAppend(before, after, measure); }
        Pool(before + after, measure) + measure(x);
        Pool(r[..n], measure) + measure(x);
        Pool(r, measure);
      }
    }
  }

  /** A sequence is its element `j` with the rest around it. */
  lemma RemoveAt<X>(p: seq<X>, j: nat)
    requires j < |p|
    ensures p == p[..j] + [p[j]] + p[j + 1..]
    ensures multiset(p) == multiset(p[..j] + p[j + 1..]) + multiset{p[j]}
  {
    assert p == p[..j] + [p[j]] + p[j + 1..];
  }

  lemma MultisetCancel<X>(a: multiset<X>, b: multiset<X>, x: X)
    requires a + multiset{x} == b + multiset{x}
    ensures a == b
  {
    forall y
      ensures a[y] == b[y]
    {
      assert (a + multiset{x})[y] == (b + multiset{x})[y];
    }
  }

  lemma PoolOne<K, R, P, T>(x: Collection<K, R, P, T>, measure: Collection<K, R, P, T> -> multiset<R>)
    ensures Pool([x], measure) == measure(x)
  {
    assert [x][..0] == [];
  }

  /** Under each key the merge holds that key's records of all partials,
      with multiplicity. */
  lemma {:induction false} MergeAllKeyRecords<K, R, P, T>(results: seq<Collection<K, R, P, T>>, k: K)
    requires results != []
    ensures multiset(Get(MergeAll(results), k)) == KeyRecords(results, k)
  {
    var n := |results| - 1;
    var measure := (c: Collection<K, R, P, T>) => multiset(Get(c.entries, k));
    assert KeyRecords(results, k) == Pool(results[..n], measure) + measure(results[n]);
    if n == 0 {
      assert results[..0] == [];
    } else {
      var init := results[..n];
      MergeAllKeyRecords(init, k);
      MergeAllLast(results);
      assert Get(MergeAll(results), k) == Get(MergeAll(init), k) + Get(results[n].entries, k);
    }
  }

  /** Some partial of one sequence holds `k` exactly when some partial of a
      permutation of it does. */
  lemma HasKeyPermutation<K, R, P, T>(r: seq<Collection<K, R, P, T>>, p: seq<Collection<K, R, P, T>>, k: K)
    requires multiset(r) == multiset(p)
    ensures HasKey(r, k) <==> HasKey(p, k)
  {
    if HasKey(r, k) {
      var i :| 0 <= i < |r| && k in r[i].entries;
      assert r[i] in multiset(p);
      var j :| 0 <= j < |p| && p[j] == r[i];
    }
    if HasKey(p, k) {
      var i :| 0 <= i < |p| && k in p[i].entries;
      assert p[i] in multiset(r);
      var j :| 0 <= j < |r| && r[j] == p[i];
    }
  }

  /** Whichever order the partials arrive in, the merge has the same keys
      and holds the same records under each key, as often; only the seed
      and the order within each group may change. */
  lemma MergeAllOrderIndependent<K, R, P, T>(r: seq<Collection<K, R, P, T>>, p: seq<Collection<K, R, P, T>>)
    requires r != [] && multiset(r) == multiset(p)
    ensures p != []
    ensures forall k :: k in MergeAll(r) <==> k in MergeAll(p)
    ensures forall k :: multiset(Get(MergeAll(r), k)) == multiset(Get(MergeAll(p), k))
    ensures GroupsMultiset(MergeAll(r)) == GroupsMultiset(MergeAll(p))
  {
    assert |multiset(p)| == |r|;
    forall k
      ensures k in MergeAll(r) <==> k in MergeAll(p)
      ensures multiset(Get(MergeAll(r), k)) == multiset(Get(MergeAll(p), k))
    {
      MergeAllKeys(r, k);
      MergeAllKeys(p, k);
      HasKeyPermutation(r, p, k);
      MergeAllKeyRecords(r, k);
      MergeAllKeyRecords(p, k);
      PoolPermutation(r, p, (c: Collection<K, R, P, T>) => multiset(Get(c.entries, k)));
    }
    MergeAllRecords(r);
    MergeAllRecords(p);
    PoolPermutation(r, p, RecordsOf);
  }

  /** A provenance warning is printed exactly when some later partial's
      provenance differs from the seed's. */
  lemma {:induction false} ProvenanceWarned<K, R, P, T>(seed: Collection<K, R, P, T>, rest: seq<Collection<K, R, P, T>>)
    ensures ProvenanceMismatch in Warnings(seed, rest) <==>
            exists i :: 0 <= i < |rest| && rest[i].provenance != seed.provenance
  {
    if rest != [] {
      var n := |rest| - 1;
      var init := rest[..n];
      ProvenanceWarned(seed, init);
      if exists i :: 0 <= i < |rest| && rest[i].provenance != seed.provenance {
        var i :| 0 <= i < |rest| && rest[i].provenance != seed.provenance;
        if i < n {
          assert init[i] == rest[i];
        }
      }
      if exists i :: 0 <= i < |init| && init[i].provenance != seed.provenance {
        var i :| 0 <= i < |init| && init[i].provenance != seed.provenance;
        assert rest[i] == init[i];
      }
    }
  }

  /** A type warning is printed exactly when some later partial's type
      differs from the seed's. */
  lemma {:induction false} TypeWarned<K, R, P, T>(seed: Collection<K, R, P, T>, rest: seq<Collection<K, R, P, T>>)
    ensures TypeMismatch in Warnings(seed, rest) <==>
            exists i :: 0 <= i < |rest| && rest[i].typ != seed.typ
  {
    if rest != [] {
      var n := |rest| - 1;
      var init := rest[..n];
      TypeWarned(seed, init);
      if exists i :: 0 <= i < |rest| && rest[i].typ != seed.typ {
        var i :| 0 <= i < |rest| && rest[i].typ != seed.typ;
        if i < n {
          assert init[i] == rest[i];
        }
      }
      if exists i :: 0 <= i < |init| && init[i].typ != seed.typ {
        var i :| 0 <= i < |init| && init[i].typ != seed.typ;
        assert rest[i] == init[i];
      }
    }
  }
}
