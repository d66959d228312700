# fast-filter: a verified model of the batch filtering pipeline

fast-filter filters a torsion-drive result collection with a user-written
Python script. `Filterer::filter` works in five steps:

1. It flattens the dataset's groups into one sequence of records (`split`).
2. It cuts that sequence into batches of `batch_size` records (rayon's `chunks`).
3. For each batch, it builds a single-group dataset fragment under the map's
   first key (`to_python`) and serialises it.
4. It substitutes the serialised fragment for every `{json}` in the script
   text, runs `python -c <script>` and parses what the script prints back.
5. It merges the partial datasets into one (`accumulate`).

The model has five modules:

- `Collections` (collections.dfy): the dataset value, which is a map from
  group key to records plus a provenance and a type tag. It also holds
  `split`, `to_python`'s fragment, and the multiset of all records used to
  count them.
- `Batching` (batching.dfy): `chunks(batch_size)` and concatenation of batches.
- `Template` (template.dfy): `str::replace` of the placeholder.
- `Accumulator` (accumulator.dfy): `accumulate`. It is imperative, like the
  source: one method loops over the partials, and another loops over one
  partial's groups. Each is proved against a specification function.
- `Pipeline` (pipeline.dfy): `filter`. It is a method with a loop that
  collects one partial per batch. It is proved against `Filtered`, a function
  with the round-trip, failure and batch-size lemmas proved about it.

Several parts of the environment become parameters:

- A hash map's iteration order is a `seq` of keys satisfying `IsKeyOrder`.
  This order decides the records' order in `split` and gives the "first key"
  that `to_python` takes.
- The worker is a `Worker` value with three parts:
  - `template`: the script text;
  - `serialize`: a fragment to its JSON text (`serde_json::to_string`);
  - `run`: the Python process followed by `from_python`. It maps the
    completed script to the parsed dataset, or to `None` when the process
    cannot be started, exits unsuccessfully, or prints output that does not
    parse.
  The round-trip lemmas use `Echoes(w)`: a worker that prints back the
  fragment it was given.

The model follows these details of the code:

- Partials arrive in batch order, because `par_extend` of an indexed
  parallel iterator keeps the order. `Accumulator.MergeAllOrderIndependent`
  shows that the merged keys, and the records under each key, would be the
  same in any order.
- Every fragment is built under the map's first key, whatever groups its
  records came from. So a dataset of several groups that holds records
  comes back as a single group under that key (`Pipeline.FilterEcho`). A
  dataset without records comes back unchanged (`Pipeline.FilterNoRecords`);
  otherwise only a single-group dataset comes back equal to itself
  (`Pipeline.FilterEchoSingleGroup`).
- `str::replace` replaces every occurrence of the placeholder and never
  rescans the inserted text.
- A batch size of zero makes rayon's `chunks` panic before any worker runs.
  The model returns `Err(ZeroBatchSize)` instead.
- A process that cannot be started or fails, or output that does not
  parse, makes the code panic. The model returns `Err(WorkerFailed(script))`
  instead. It carries the completed script, which the code prints only when
  the exit status is a failure.
- The two mismatch warnings, which the code writes to standard error, are
  returned as a sequence of `Warning` values in the order they are printed.

## Model

| member | source | states |
|---|---|---|
| Collections.KeyOrderExists | src/lib.rs:75 | every group map has an iteration order listing each key once, so taking the order as a parameter excludes no dataset |
| Collections.GroupsMultisetRemove | src/lib.rs:74-76 | the records of a dataset are those of any one group plus those of the remaining groups |
| Collections.Split | src/lib.rs:74-76 | `split`: the flattened sequence holds exactly the dataset's records, each as often as the groups hold it, and its length is the total record count, for every iteration order |
| Collections.SplitEmpty | src/lib.rs:74-76 | the flattened sequence is empty exactly when the dataset has no records, and if it is non-empty there is a first key |
| Collections.SplitSingle | src/lib.rs:74-76 | a dataset of one group flattens to exactly that group's records, and that group's key is the first key |
| Collections.Fragment | src/lib.rs:78-85 | the fragment has the map's first key as its only key, that key is a key of the dataset, it maps to exactly the given records, and provenance and type are the dataset's |
| Batching.Chunks | src/lib.rs:50 | every batch is non-empty and at most the batch size, all but the last are exactly the batch size, the batches concatenate to the input, and there are ceil(n / size) of them |
| Batching.ChunksWhole | src/lib.rs:50 | a batch size at least the record count gives one batch of all records, or no batch for no records |
| Template.Substitute | src/lib.rs:53 | `script.replace("{json}", &json)`; its properties are stated by SubstituteFree, SubstituteAt, SubstituteJoin and SubstituteReplacesEvery |
| Template.SubstituteFree | src/lib.rs:53 | a template without a placeholder comes back unchanged |
| Template.SubstituteAt | src/lib.rs:53 | the first placeholder after a placeholder-free prefix is replaced and the scan resumes after it, never inside the payload |
| Template.SubstituteJoin | src/lib.rs:53 | placeholder-free parts joined by placeholders become the same parts joined by the payload, whatever the payload contains |
| Template.Pieces | src/lib.rs:53 | every template is placeholder-free parts joined by the placeholder |
| Template.SubstituteReplacesEvery | src/lib.rs:53 | substitution replaces every placeholder of the template, and nothing else, by the payload |
| Accumulator.MergeEntries | src/lib.rs:127-130 | the merge of one partial into the seed, as ExtendEntries computes it; its properties are stated by MergeEntriesRecords, MergeAllKeys and MergeAllAt |
| Accumulator.MergeAll | src/lib.rs:103-130 | the seed with every later partial merged in, in result order, as Accumulate computes it; its properties are stated by MergeAllKeys, MergeAllAt, MergeAllKeyRecords, MergeAllRecords and MergeAllOrderIndependent |
| Accumulator.Warnings | src/lib.rs:111-118 | the warnings the later partials draw, in the order they are printed, as Accumulate computes them; its properties are stated by ProvenanceWarned and TypeWarned |
| Accumulator.Accumulated | src/lib.rs:93-135 | the three arms of `accumulate`, as Accumulate computes them |
| Accumulator.ExtendEntries | src/lib.rs:127-130 | extending the seed by one partial's groups, in any key order, gives for every key of either map the seed's records followed by the partial's, with a missing key first created empty |
| Accumulator.Accumulate | src/lib.rs:93-135 | no partial gives the original back, one partial is returned as it is, and otherwise the result has the first partial's provenance and type, the merge of all partials' entries, and one warning per mismatching provenance or type in order |
| Accumulator.MergeAllKeys | src/lib.rs:127-130 | a key is in the merge exactly when some partial has it |
| Accumulator.MergeAllAt | src/lib.rs:127-130 | under each key the merge holds every partial's records for that key, concatenated in result order |
| Accumulator.MergeEntriesRecords | src/lib.rs:127-130 | merging two group maps adds their records with multiplicity, with no deduplication |
| Accumulator.MergeAllRecords | src/lib.rs:103-130 | the merge holds exactly the records of all partials with multiplicity, and its record count is the sum of theirs |
| Accumulator.MergeAllKeyRecords | src/lib.rs:127-130 | under each key the merge holds that key's records of all partials, with multiplicity |
| Accumulator.PoolPermutation | src/lib.rs:103-130 | the records of all partials together, or under any one key, do not depend on their order |
| Accumulator.HasKeyPermutation | src/lib.rs:127-130 | some partial holds a key exactly when some partial of any reordering does |
| Accumulator.MergeAllOrderIndependent | src/lib.rs:103-130 | partials arriving in another order merge to the same key set, the same records under each key with the same multiplicities, and so the same records overall |
| Accumulator.ProvenanceWarned | src/lib.rs:111-115 | a provenance warning is emitted exactly when some later partial's provenance differs from the seed's |
| Accumulator.TypeWarned | src/lib.rs:116-118 | a type warning is emitted exactly when some later partial's type differs from the seed's |
| Pipeline.Batches | src/lib.rs:49-50 | the batches concatenate to the flattened dataset, and a dataset that yields a batch has a first key |
| Pipeline.BatchScript | src/lib.rs:52-53 | the completed script of one batch: its serialised fragment substituted into the template |
| Pipeline.RunBatches | src/lib.rs:50-65 | the partials of the batches in batch order, or the first failure, as Filter's loop computes them; its properties are stated by RunBatchesOk and RunBatchesFirstFailure |
| Pipeline.Filtered | src/lib.rs:47-68 | the whole of `filter`, as Filter computes it; its properties are stated by FilterEcho, FilterFails, FilterNoRecords and the lemmas after them |
| Pipeline.Filter | src/lib.rs:47-68 | the loop collects one partial per batch in batch order, stops at the first failed batch with its script, and accumulates the partials, which is exactly `Filtered` |
| Pipeline.RunBatchesOk | src/lib.rs:50-65 | collecting succeeds exactly when every batch's process succeeds, and then holds each batch's partial in batch order |
| Pipeline.RunBatchesFirstFailure | src/lib.rs:54-60 | a failed run reports the script of the first batch whose process failed, and every earlier batch succeeded |
| Pipeline.FilterZeroBatchSize | src/lib.rs:50 | a batch size of zero stops the run before any process runs |
| Pipeline.FilterNoRecords | src/lib.rs:94-96 | a dataset without records produces no batch and comes back unchanged with no warning |
| Pipeline.FilterFails | src/lib.rs:54-60 | the run fails exactly when some batch's process fails |
| Pipeline.MergeFragments | src/lib.rs:127-130 | merging fragments that all hold one key gives that key alone, holding the fragments' records in order |
| Pipeline.AccumulateFragments | src/lib.rs:93-135 | accumulating one or more fragments of the dataset gives the dataset's provenance and type with all their records under the one key, and no warning |
| Pipeline.NoWarnings | src/lib.rs:111-118 | partials carrying the seed's provenance and type draw no warning |
| Pipeline.EchoRun | src/lib.rs:50-65 | with an echoing worker every batch succeeds and its partial is its fragment |
| Pipeline.FilterEcho | src/lib.rs:47-68 | with an echoing worker the run gives back every record, in flattened order, under the first key, with the dataset's provenance and type and no warning; a dataset without records comes back unchanged |
| Pipeline.FilterEchoBatchSizeInvariant | src/lib.rs:47-68 | with an echoing worker the outcome is the same for every positive batch size |
| Pipeline.FilterEchoSingleGroup | src/lib.rs:150-191 | with an echoing worker a one-group dataset comes back equal to itself for every positive batch size |
| Pipeline.FilterEchoKeepsRecords | src/lib.rs:47-68 | with an echoing worker the run succeeds and returns exactly the input's records with their multiplicities |

## Left out

- Spawning `python -c`, capturing its output and checking its exit status
  (src/lib.rs:54-57) are part of the worker's `run` parameter. The
  standard-error text in the `panic!` message is not modelled.
- JSON serialisation and parsing with `serde_json` (src/lib.rs:86, 90) are
  the worker's `serialize` and `run` parameters. The model does not
  constrain the JSON text.
- rayon's parallel execution is modelled as a sequential loop over the
  batches in order. Pipeline.RunBatchesFirstFailure: when several batches
  fail, any of their processes may panic first in the parallel code. The
  model always reports the first failing batch in batch order.
- Collections.Fragment: the panic of `to_python` on a dataset without keys
  (the `unwrap` at src/lib.rs:79) is excluded by the precondition. `filter`
  never reaches it, because such a dataset yields no batch
  (Pipeline.Batches).
- Printing the warnings with `eprintln!` is replaced by returning them.
- Records, provenance and type are opaque type parameters. The model
  compares provenance and type for equality and never looks inside records.
- src/main.rs is not part of this model. It holds command-line parsing, the
  thread-pool setup, and reading and writing of the dataset files.
- scripts/filter_td.py is not part of this model. It is the user's Python
  filter, run by the worker.
- The test's expected provenance (src/lib.rs:163-192) depends on what the
  Python side does with provenance and is not modelled.
- `batch_size` is a `usize`. It is modelled as a natural number, since
  nothing in the pipeline does arithmetic on it that could wrap.
