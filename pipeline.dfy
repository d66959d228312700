/** `Filterer::filter` (src/lib.rs:47-68): split the dataset, cut the
    records into batches, run the external script once per batch on a
    single-group fragment, and accumulate what the scripts print back.

    What lies outside the Rust code is a `Worker`: the script template, the
    JSON serialisation of a fragment, and the external process itself as a
    function from the completed script text to the dataset parsed from the
    script's standard output, or `None` when the process cannot be started,
    fails, or prints something that does not parse. All three make the Rust
    code panic; here they end the run with `Err`. */
module Pipeline {
  import opened Collections
  import opened Batching
  import opened Template
  import opened Accumulator

  /** Why a run stops before producing a dataset. */
  datatype Failure =
    | ZeroBatchSize               // rayon's `chunks` refuses a size of zero
    | WorkerFailed(script: string) // the script whose process failed

  datatype Result<X> = Ok(value: X) | Err(failure: Failure)

  /** A worker's output: the parsed dataset, or nothing when it failed. */
  datatype Option<X> = None | Some(value: X)

  /** The script template, `serde_json::to_string` (src/lib.rs:86), and one
      run of `python -c <script>` followed by `from_python` (src/lib.rs:54-62). */
  datatype Worker<!K, !R, !P, !T> = Worker(template: string,
                                       serialize: Collection<K, R, P, T> -> string,
                                       run: string -> Option<Collection<K, R, P, T>>)

  /** The batches `filter` sends out, in order. */
  function Batches<K, R, P, T>(self: Collection<K, R, P, T>, order: seq<K>, batchSize: nat): (batches: seq<seq<R>>)
    requires IsKeyOrder(self.entries, order) && batchSize > 0
    ensures batches != [] ==> order != []
    ensures Concat(batches) == Split(self.entries, order)
  {
    var split := Split(self.entries, order);
    var batches := Chunks(split, batchSize);
    SplitEmpty(self.entries, order);
    assert batches != [] ==> split != [] by {
      if batches != [] {
        assert Concat(batches) == batches[0] + Concat(batches[1..]);
      }
    }
    batches
  }

  /** The completed script for one batch (src/lib.rs:52-53): the batch's
      fragment, serialised, put in place of every placeholder. */
  function BatchScript<K, R, P, T>(self: Collection<K, R, P, T>, order: seq<K>, w: Worker<K, R, P, T>, batch: seq<R>): string
    requires IsKeyOrder(self.entries, order) && order != []
  {
    Substitute(w.template, w.serialize(Fragment(self, order, batch)))
  }

  /** The external process run on one batch's script. */
  function Attempt<K, R, P, T>(self: Collection<K, R, P, T>, order: seq<K>, w: Worker<K, R, P, T>, batch: seq<R>): Option<Collection<K, R, P, T>>
    requires IsKeyOrder(self.entries, order) && order != []
  {
    w.run(BatchScript(self, order, w, batch))
  }

  /** `done` put in front of the partials of a later run, or that run's failure. */
  function Prepend<X>(done: seq<X>, later: Result<seq<X>>): Result<seq<X>>
  {
    match later
    case Ok(xs) => Ok(done + xs)
    case Err(f) => Err(f)
  }

  lemma PrependPrepend<X>(a: seq<X>, b: seq<X>, later: Result<seq<X>>)
    ensures Prepend(a, Prepend(b, later)) == Prepend(a + b, later)
  {
    if later.Ok? {
      assert a + (b + later.value) == (a + b) + later.value;
    }
  }

  lemma PrependNothing<X>(later: Result<seq<X>>)
    ensures Prepend([], later) == later
  {
    if later.Ok? {
      assert [] + later.value == later.value;
    }
  }

  /** The partials of the batches, one per batch and in batch order (rayon's
      `par_extend` of an indexed iterator keeps the order); the first batch
      whose process fails aborts the whole run. */
  function RunBatches<K, R, P, T>(self: Collection<K, R, P, T>, order: seq<K>, w: Worker<K, R, P, T>,
                                  batches: seq<seq<R>>): Result<seq<Collection<K, R, P, T>>>
    requires IsKeyOrder(self.entries, order) && (batches == [] || order != [])
    decreases |batches|
  {
    if batches == [] then Ok([])
    else
      match Attempt(self, order, w, batches[0])
      case None => Err(WorkerFailed(BatchScript(self, order, w, batches[0])))
      case Some(partial) => Prepend([partial], RunBatches(self, order, w, batches[1..]))
  }

  /** What `filter` computes: the accumulated dataset with the warnings
      printed while merging, or the reason the run stopped. */
  function Filtered<K, R, P(==), T(==)>(self: Collection<K, R, P, T>, order: seq<K>, w: Worker<K, R, P, T>,
                                        batchSize: nat): Result<(Collection<K, R, P, T>, seq<Warning>)>
    requires IsKeyOrder(self.entries, order)
  {
    if batchSize == 0 then Err(ZeroBatchSize)
    else
      match RunBatches(self, order, w, Batches(self, order, batchSize))
      case Err(f) => Err(f)
      case Ok(results) => Ok(Accumulated(self, results))
  }

  /** `filter`: collect one partial per batch into `results`, stopping at
      the first process that fails, then accumulate them. */
  method Filter<K, R, P(==), T(==)>(self: Collection<K, R, P, T>, order: seq<K>, w: Worker<K, R, P, T>, batchSize: nat)
    returns (out: Result<(Collection<K, R, P, T>, seq<Warning>)>)
    requires IsKeyOrder(self.entries, order)
    ensures out == Filtered(self, order, w, batchSize)
  {
    if batchSize == 0 {
      return Err(ZeroBatchSize);
    }
    var batches := Batches(self, order, batchSize);
    var results: seq<Collection<K, R, P, T>> := [];
    var i := 0;
    assert batches[0..] == batches;
    PrependNothing(RunBatches(self, order, w, batches));
    while i < |batches|
      invariant 0 <= i <= |batches|
      invariant RunBatches(self, order, w, batches) == Prepend(results, RunBatches(self, order, w, batches[i..]))
    {
      var script := BatchScript(self, order, w, batches[i]);
      var partial := w.run(script);
      ghost var later := RunBatches(self, order, w, batches[i + 1..]);
      RunBatchesAt(self, order, w, batches, i);
      if partial.None? {
        return Err(WorkerFailed(script));
      }
      PrependPrepend(results, [partial.value], later);
      results := results + [partial.value];
      i := i + 1;
    }
    assert batches[i..] == [];
    assert results + [] == results;
    assert RunBatches(self, order, w, batches) == Ok(results);
    var merged, warnings := Accumulate(self, results);
    assert (merged, warnings) == Accumulated(self, results);
    return Ok((merged, warnings));
  }

  /** The run from batch `i` on starts with batch `i`'s attempt. */
  lemma RunBatchesAt<K, R, P, T>(self: Collection<K, R, P, T>, order: seq<K>, w: Worker<K, R, P, T>,
                                 batches: seq<seq<R>>, i: nat)
    requires IsKeyOrder(self.entries, order) && order != [] && i < |batches|
    ensures RunBatches(self, order, w, batches[i..]) ==
            match Attempt(self, order, w, batches[i])
            case None => Err(WorkerFailed(BatchScript(self, order, w, batches[i])))
            case Some(partial) => Prepend([partial], RunBatches(self, order, w, batches[i + 1..]))
  {
    assert batches[i..][1..] == batches[i + 1..];
  }

  /** The run succeeds exactly when every batch's process succeeds, and it
      then holds each batch's partial, in batch order. */
  lemma {:induction false} RunBatchesOk<K, R, P, T>(self: Collection<K, R, P, T>, order: seq<K>, w: Worker<K, R, P, T>,
                                                    batches: seq<seq<R>>)
    requires IsKeyOrder(self.entries, order) && (batches == [] || order != [])
    ensures RunBatches(self, order, w, batches).Ok? <==>
            forall i :: 0 <= i < |batches| ==> Attempt(self, order, w, batches[i]).Some?
    ensures RunBatches(self, order, w, batches).Ok? ==>
            |RunBatches(self, order, w, batches).value| == |batches| &&
            forall i :: 0 <= i < |batches| ==>
              Some(RunBatches(self, order, w, batches).value[i]) == Attempt(self, order, w, batches[i])
    decreases |batches|
  {
    if batches != [] {
      var rest := batches[1..];
      RunBatchesOk(self, order, w, rest);
      forall i | 1 <= i < |batches|
        ensures batches[i] == rest[i - 1]
      {
      }
    }
  }

  /** A failed run reports the script of the first batch whose process
      failed; every batch before it succeeded. */
  lemma {:induction false} RunBatchesFirstFailure<K, R, P, T>(self: Collection<K, R, P, T>, order: seq<K>, w: Worker<K, R, P, T>,
                                                              batches: seq<seq<R>>)
    requires IsKeyOrder(self.entries, order) && (batches == [] || order != [])
    requires RunBatches(self, order, w, batches).Err?
    ensures exists i :: 0 <= i < |batches| && FirstFailure(self, order, w, batches, i) &&
              RunBatches(self, order, w, batches) == Err(WorkerFailed(BatchScript(self, order, w, batches[i])))
    decreases |batches|
  {
    var rest := batches[1..];
    if Attempt(self, order, w, batches[0]).None? {
      assert FirstFailure(self, order, w, batches, 0);
    } else {
      RunBatchesFirstFailure(self, order, w, rest);
      var i :| 0 <= i < |rest| && FirstFailure(self, order, w, rest, i) &&
                RunBatches(self, order, w, rest) == Err(WorkerFailed(BatchScript(self, order, w, rest[i])));
      assert batches[i + 1] == rest[i];
      forall j | 0 <= j < i + 1
        ensures Attempt(self, order, w, batches[j]).Some?
      {
        if j > 0 {
          assert batches[j] == rest[j - 1];
        }
      }
      assert FirstFailure(self, order, w, batches, i + 1);
    }
  }

  /** Batch `i` is the first whose process fails. */
  ghost predicate FirstFailure<K, R, P, T>(self: Collection<K, R, P, T>, order: seq<K>, w: Worker<K, R, P, T>,
                                           batches: seq<seq<R>>, i: nat)
    requires IsKeyOrder(self.entries, order) && order != []
  {
    i < |batches| && Attempt(self, order, w, batches[i]).None? &&
    forall j :: 0 <= j < i ==> Attempt(self, order, w, batches[j]).Some?
  }

  /** A batch size of zero is refused before any process runs. */
  lemma FilterZeroBatchSize<K, R, P, T>(self: Collection<K, R, P, T>, order: seq<K>, w: Worker<K, R, P, T>)
    requires IsKeyOrder(self.entries, order)
    ensures Filtered(self, order, w, 0) == Err(ZeroBatchSize)
  {
  }

  /** A dataset without records produces no batch, so no process runs, and
      `filter` gives back the dataset unchanged. */
  lemma {:induction false} FilterNoRecords<K, R, P, T>(self: Collection<K, R, P, T>, order: seq<K>, w: Worker<K, R, P, T>,
                                                       batchSize: nat)
    requires IsKeyOrder(self.entries, order) && batchSize > 0 && RecordCount(self.entries) == 0
    ensures Batches(self, order, batchSize) == []
    ensures Filtered(self, order, w, batchSize) == Ok((self, []))
  {
    SplitEmpty(self.entries, order);
  }

  /** The run fails exactly when some batch's process fails: a single bad
      batch sinks the whole run. */
  lemma FilterFails<K, R, P, T>(self: Collection<K, R, P, T>, order: seq<K>, w: Worker<K, R, P, T>, batchSize: nat)
    requires IsKeyOrder(self.entries, order) && batchSize > 0
    ensures var batches := Batches(self, order, batchSize);
            Filtered(self, order, w, batchSize).Err? <==>
            exists i :: 0 <= i < |batches| && Attempt(self, order, w, batches[i]).None?
  {
    RunBatchesOk(self, order, w, Batches(self, order, batchSize));
  }

  /** The worker prints back, unchanged, the fragment it was given. */
  ghost predicate Echoes<K(!new), R(!new), P(!new), T(!new)>(w: Worker<K, R, P, T>)
  {
    forall c: Collection<K, R, P, T> {:trigger w.serialize(c)} :: w.run(Substitute(w.template, w.serialize(c))) == Some(c)
  }

  /** Merging partials that all hold one key `k` gives one group under `k`
      holding their records in order. */
  lemma {:induction false} MergeFragments<K, R, P, T>(self: Collection<K, R, P, T>, k: K,
                                                      batches: seq<seq<R>>,
                                                      results: seq<Collection<K, R, P, T>>)
    requires |results| >= 1 && |results| == |batches|
    requires forall i :: 0 <= i < |results| ==>
               results[i] == Collection(map[k := batches[i]], self.provenance, self.typ)
    ensures MergeAll(results) == map[k := Concat(batches)]
  {
    var merged := MergeAll(results);
    forall x | x in merged
      ensures x == k
    {
      MergeAllKeys(results, x);
    }
    MergeAllKeys(results, k);
    assert k in results[0].entries;
    MergeAllAt(results, k);
    assert Column(results, k) == batches;
    assert merged.Keys == {k};
    assert k in merged;
    assert merged[k] == Concat(batches);
  }

  /** Accumulating one or more such fragments gives the dataset back with
      all their records under `k`, and no warning. */
  lemma AccumulateFragments<K, R, P, T>(self: Collection<K, R, P, T>, k: K,
                                               batches: seq<seq<R>>,
                                               results: seq<Collection<K, R, P, T>>)
    requires |results| >= 1 && |results| == |batches|
    requires forall i :: 0 <= i < |results| ==>
               results[i] == Collection(map[k := batches[i]], self.provenance, self.typ)
    ensures Accumulated(self, results) == (self.(entries := map[k := Concat(batches)]), [])
  {
    MergeFragments(self, k, batches, results);
    if |results| == 1 {
      assert Concat(batches) == batches[0] + Concat(batches[1..]);
      assert batches[1..] == [];
      assert self.(entries := map[k := batches[0]]) == results[0];
    } else {
      NoWarnings(results[0], results[1..]);
    }
  }

  /** Partials that all carry the seed's provenance and type draw no warning. */
  lemma NoWarnings<K, R, P, T>(seed: Collection<K, R, P, T>, rest: seq<Collection<K, R, P, T>>)
    requires forall i :: 0 <= i < |rest| ==> rest[i].provenance == seed.provenance && rest[i].typ == seed.typ
    ensures Warnings(seed, rest) == []
  {
    ProvenanceWarned(seed, rest);
    TypeWarned(seed, rest);
  }

  /** An echoing worker returns every batch's fragment. */
  lemma {:induction false} EchoRun<K(!new), R(!new), P(!new), T(!new)>(self: Collection<K, R, P, T>, order: seq<K>,
                                                                       w: Worker<K, R, P, T>, batches: seq<seq<R>>)
    requires IsKeyOrder(self.entries, order) && (batches == [] || order != []) && Echoes(w)
    ensures RunBatches(self, order, w, batches).Ok?
    ensures |RunBatches(self, order, w, batches).value| == |batches|
    ensures forall i :: 0 <= i < |batches| ==>
              RunBatches(self, order, w, batches).value[i] == Collection(map[order[0] := batches[i]], self.provenance, self.typ)
    decreases |batches|
  {
    if batches != [] {
      var rest := batches[1..];
      EchoRun(self, order, w, rest);
      var frag := Fragment(self, order, batches[0]);
      assert Attempt(self, order, w, batches[0]) == Some(frag) by {
        // mentions the serialised fragment, so that `Echoes` applies to it
        assert w.serialize(frag) == w.serialize(frag);
      }
      var out := RunBatches(self, order, w, batches);
      assert out.value == [frag] + RunBatches(self, order, w, rest).value;
      forall i | 1 <= i < |batches|
        ensures out.value[i] == Collection(map[order[0] := batches[i]], self.provenance, self.typ)
      {
        assert batches[i] == rest[i - 1];
      }
    }
  }

  /** Round trip: with a worker that echoes its input, `filter` gives back
      every record of the dataset, gathered into one group under the first
      key, with the dataset's provenance and type and no warning, whatever
      the batch size. A dataset without records comes back unchanged. */
  lemma {:induction false} FilterEcho<K(!new), R(!new), P(!new), T(!new)>(self: Collection<K, R, P, T>, order: seq<K>,
                                                                          w: Worker<K, R, P, T>, batchSize: nat)
    requires IsKeyOrder(self.entries, order) && batchSize > 0 && Echoes(w)
    ensures Filtered(self, order, w, batchSize) ==
            if RecordCount(self.entries) == 0 then Ok((self, []))
            else Ok((self.(entries := map[order[0] := Split(self.entries, order)]), []))
  {
    SplitEmpty(self.entries, order);
    if RecordCount(self.entries) == 0 {
      FilterNoRecords(self, order, w, batchSize);
    } else {
      var batches := Batches(self, order, batchSize);
      assert batches != [] by {
        var none: seq<seq<R>> := [];
        assert Concat(none) == [];
      }
      EchoRun(self, order, w, batches);
      AccumulateFragments(self, order[0], batches, RunBatches(self, order, w, batches).value);
    }
  }

  /** With an echoing worker, the batch size does not change the outcome. */
  lemma FilterEchoBatchSizeInvariant<K(!new), R(!new), P(!new), T(!new)>(self: Collection<K, R, P, T>, order: seq<K>,
                                                                         w: Worker<K, R, P, T>, b1: nat, b2: nat)
    requires IsKeyOrder(self.entries, order) && b1 > 0 && b2 > 0 && Echoes(w)
    ensures Filtered(self, order, w, b1) == Filtered(self, order, w, b2)
  {
    FilterEcho(self, order, w, b1);
    FilterEcho(self, order, w, b2);
  }

  /** The round trip of the repository's own test (src/lib.rs:154, 191), in
      a stronger form: a dataset of one group, run through an echoing worker,
      comes back equal to itself for every batch size, not only for one that
      holds all the records in one batch. */
  lemma FilterEchoSingleGroup<K(!new), R(!new), P(!new), T(!new)>(self: Collection<K, R, P, T>, order: seq<K>,
                                                                  w: Worker<K, R, P, T>, batchSize: nat)
    requires IsKeyOrder(self.entries, order) && batchSize > 0 && |self.entries| == 1 && Echoes(w)
    ensures Filtered(self, order, w, batchSize) == Ok((self, []))
  {
    FilterEcho(self, order, w, batchSize);
    SplitSingle(self.entries, order);
  }

  /** With an echoing worker, the records come back with the same
      multiplicities they went in with, however many groups there were. */
  lemma FilterEchoKeepsRecords<K(!new), R(!new), P(!new), T(!new)>(self: Collection<K, R, P, T>, order: seq<K>,
                                                                   w: Worker<K, R, P, T>, batchSize: nat)
    requires IsKeyOrder(self.entries, order) && batchSize > 0 && Echoes(w)
    ensures Filtered(self, order, w, batchSize).Ok?
    ensures GroupsMultiset(Filtered(self, order, w, batchSize).value.0.entries) == GroupsMultiset(self.entries)
  {
    FilterEcho(self, order, w, batchSize);
    if RecordCount(self.entries) > 0 {
      var k := order[0];
      var m := map[k := Split(self.entries, order)];
      GroupsMultisetRemove(m, k);
      assert m - {k} == map[];
    }
  }
}
