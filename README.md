# Availability generator, modelled in Dafny

This project models `ElasticAvailabilityGenerator`
(`src/py/elastic_availability_generator.py`). The class computes, for every
node of an ontology tree, a bucketed availability score from statistical
measure reports, and writes the scores out as update/doc pairs for a search
index. The model follows the Python code step by step:

- **Hashing** (`hashing.dfy`). `__get_contextualized_termcode_hash` renders
  five fields with Python's f-string rules and concatenates them without a
  separator: an absent `system` or `code` renders as `None`, an absent
  `version` renders as the empty string. It then hashes the result with
  `uuid3` under the all-zero namespace. UUID version 3 is an opaque
  function parameter.
- **Tree loading** (`ontology.dfy`, `GetHashedTree` and `LoadFileLines` in
  `generator.dfy`). `get_hashed_tree` reads the lines of every ontology file
  in listing order. An index record sets `cur_hash`. A body record writes
  `tree[cur_hash] = {availability: 0, children}`. The dict is a `Tree`: its
  entries plus the insertion order of its keys, because the documents are
  emitted in dict order. The loader fails (`None`, or `ok == false`) exactly
  where the code raises because `cur_hash` is unbound.
- **Applying reports** (`reports.dfy`, the `Apply…` methods in
  `generator.dfy`). `update_availability_on_hash_tree` walks files, groups,
  stratifiers and strata with nested loops. It skips a stratifier without
  strata or whose code the table lacks. It skips a stratum whose coding has
  no `system`, and one whose context is falsy. Each surviving stratum adds
  its measure score to the node its hash names, if that node exists. Each
  loop is proved against `Accumulate` over the list of hits that the loop
  visits.
- **Aggregation** (`aggregation.dfy`, `GetAvailSumForAllChildren`).
  `get_avail_sum_for_all_children` returns a node's own availability plus
  the aggregates of its children, in order. The code has no cycle check and
  looks children up with `[]`. The aggregate is therefore defined only for
  trees with a rank: every child is present and ranks strictly below its
  parent.
- **Buckets** (`buckets.dfy`). `convert_measure_score_to_ranges` returns the
  greatest threshold of `[0, 10, 100, 1000, 10000, 100000, 1000000]` that
  does not exceed the score. The result is `None` for a negative score,
  where `max` of an empty sequence raises.
- **Documents and shards** (`BuildInserts`, `GenerateAvailability`,
  `shards.dfy`).
  - `generate_availability` emits, for the k-th key in dict order, an update
    record at position 2k and the bucket of the key's aggregate at 2k+1.
  - `__write_es_to_file` writes one line per insert. After every
    even-numbered line it starts a new file if the running size of the
    current file is then above `max_filesize_mb * 1024 * 1024`. The size is
    checked only after even-numbered lines, so an odd-numbered line that
    takes the size over the ceiling stays in the file with the line after
    it, and the file is closed after that line.
  - `ProperSplit` states that rule declaratively, and `ProperSplitUnique`
    shows that the rule fixes the split.

## Model

| member | source | states |
|---|---|---|
| Hashing.HashInput | src/py/elastic_availability_generator.py:23 | renders the name of line 23: context system, context code, context version, termcode system and termcode code, in that order and without separators; an absent system or code renders as `None`, an absent version as the empty string |
| Hashing.ContextualizedHash | src/py/elastic_availability_generator.py:21-26 | the hash is `uuid3` of the all-zero namespace and the rendered name; `SameNameSameHash`, `AbsentVersionIsEmpty` and `FieldBoundariesAreLost` state its properties |
| Hashing.SameNameSameHash | src/py/elastic_availability_generator.py:21-26 | two context/termcode pairs with the same concatenated name get the same hash |
| Hashing.AbsentVersionIsEmpty | src/py/elastic_availability_generator.py:23 | a context without `version` hashes like one whose version is the empty string |
| Hashing.FieldBoundariesAreLost | src/py/elastic_availability_generator.py:23 | two different contexts (`ab`,`c`) and (`a`,`bc`) give the same hash, because the fields are joined without a separator |
| Strings.Contains | src/py/elastic_availability_generator.py:46 | `sub in s` holds exactly when `sub` occurs at some position of `s` |
| Buckets.GreatestAtMost | src/py/elastic_availability_generator.py:39 | the value found is never above the score |
| Buckets.GreatestAtMostIsGreatest | src/py/elastic_availability_generator.py:39 | `max(b for b in xs if v >= b)` is absent exactly when every element exceeds `v`; otherwise it is an element of `xs` and no qualifying element is greater |
| Buckets.Bucket | src/py/elastic_availability_generator.py:37-39 | no bucket (ValueError) exactly for a negative score; a bucket never exceeds the score |
| Buckets.BucketIsGreatestThreshold | src/py/elastic_availability_generator.py:37-39 | for a score of at least 0, the bucket is one of the seven thresholds and is at least every threshold not above the score |
| Buckets.BucketMonotone | src/py/elastic_availability_generator.py:37-39 | `v1 <= v2` implies `bucket(v1) <= bucket(v2)` |
| Buckets.BucketRange | src/py/elastic_availability_generator.py:38-39 | every score from the i-th threshold up to, but not including, the next falls in bucket i; from 1000000 on, all fall in the last bucket |
| Buckets.BucketEdges | src/py/elastic_availability_generator.py:38-39 | bucket(0) = bucket(9) = 0, bucket(10) = 10, bucket(999999) = 100000, bucket(1000000) = 1000000 |
| Ontology.Put | src/py/elastic_availability_generator.py:62-65 | dict assignment: the key maps to the new node, every other key is unchanged, a new key goes last in the order and an existing key keeps its place |
| Ontology.PutTwice | src/py/elastic_availability_generator.py:62-65 | writing a key twice is the same as writing it once with the second value |
| Ontology.OrderCountsKeys | src/py/elastic_availability_generator.py:144 | the dict has as many entries as its iteration order has keys |
| Ontology.Step | src/py/elastic_availability_generator.py:52-65 | one line fails exactly when it is a body record while `cur_hash` is unbound |
| Ontology.LoadLines | src/py/elastic_availability_generator.py:52-65 | the line loop: each line is one `Step` from the state the earlier lines left, and the load fails at the first body record read while `cur_hash` is unbound; `LoadAppend`, `LoadFailsIff`, `LoadKeepsEntries` and `LastWriteWins` state its properties |
| Ontology.SelectedLines | src/py/elastic_availability_generator.py:45-52 | the lines of the files whose name contains `onto_es__ontology`, in listing order |
| Ontology.SelectedLinesAppend | src/py/elastic_availability_generator.py:45-52 | the lines read from two listings in a row are the lines of the first followed by those of the second |
| Ontology.LoadAppend | src/py/elastic_availability_generator.py:45-65 | loading `a + b` is loading `a`, then `b` from the state `a` leaves, `cur_hash` included |
| Ontology.LoadFailsIff | src/py/elastic_availability_generator.py:58-62 | with `cur_hash` unbound, the load fails exactly when a body record comes before every index record; otherwise `cur_hash` stays unbound exactly when there is no index record, and until then the tree is untouched |
| Ontology.LoadKeepsEntries | src/py/elastic_availability_generator.py:62-65 | a successful load keeps the dict valid, keeps every key in its place in the order, and every entry it writes has availability 0 |
| Ontology.CurCarriesOver | src/py/elastic_availability_generator.py:45-65 | a selected file that starts with a body record writes it under the last index id of the files before it |
| Ontology.LoadPair | src/py/elastic_availability_generator.py:58-65 | an index record followed by a body record binds `cur_hash` to the id and writes `Node(0, children)` under it, from any state |
| Ontology.EntryUntouched | src/py/elastic_availability_generator.py:58-65 | from a bound `cur_hash`, lines that never index `k` and write no body before their first index record leave the entry of `k` as it was; the load does not fail |
| Ontology.LastWriteWins | src/py/elastic_availability_generator.py:58-65 | after `Index(k)` and `Body(b)` come any records that do not index `k` again and write no body before their first index record; the load then succeeds exactly when the lines before succeed, and `k` maps to `Node(0, b)`, whatever earlier writes of `k` there were |
| Ontology.BackToBackWrites | src/py/elastic_availability_generator.py:58-65 | two index/body pairs of the same id in a row: the second body replaces the first, and the id keeps its first place in the order |
| Reports.StratumHits | src/py/elastic_availability_generator.py:91-106 | a stratum yields a hit exactly when its coding has a `system` and its context is truthy; the hit carries that context, the termcode (system, code) and the measure score |
| Reports.StrataHits | src/py/elastic_availability_generator.py:91-106 | the stratum loop: the hits of the strata in order, each as `StratumHits` gives it |
| Reports.StratifierHits | src/py/elastic_availability_generator.py:81-91 | a stratifier without `stratum`, or whose code is not in the table, yields nothing; otherwise its strata yield their hits under the table's context |
| Reports.StratifiersHits | src/py/elastic_availability_generator.py:80-91 | the stratifier loop: the hits of the stratifiers in order |
| Reports.GroupsHits | src/py/elastic_availability_generator.py:78-80 | the group loop: the hits of every group's stratifiers in order |
| Reports.FileHits | src/py/elastic_availability_generator.py:72-78 | a file whose name does not contain `availability_report` yields nothing; otherwise its groups yield their hits |
| Reports.FilesHits | src/py/elastic_availability_generator.py:71-78 | the hits of all report files, in listing order |
| Reports.AddScore | src/py/elastic_availability_generator.py:109-113 | adding a score keeps the keys and their order, and keeps the dict valid |
| Reports.Accumulate | src/py/elastic_availability_generator.py:105-113 | applying hits keeps the keys and their order, and keeps the dict valid |
| Reports.AccumulateAppend | src/py/elastic_availability_generator.py:71-113 | applying `a + b` is applying `a`, then `b` |
| Reports.AccumulateAt | src/py/elastic_availability_generator.py:109-113 | after the hits, every node keeps its children and its availability has grown by exactly the total score of the hits that resolve to it |
| Reports.AccumulateOne | src/py/elastic_availability_generator.py:106-111 | one hit adds its score to the node its hash names |
| Reports.ScoreOnAppend | src/py/elastic_availability_generator.py:109-111 | the score a node receives from `a + b` is what it receives from `a` plus what it receives from `b` |
| Reports.AccumulateCommutes | src/py/elastic_availability_generator.py:71-72 | the result does not depend on the order in which the reports are listed |
| Reports.RepeatedHitsAdd | src/py/elastic_availability_generator.py:109-111 | two hits on the same node add up |
| Reports.UnknownHashIgnored | src/py/elastic_availability_generator.py:109-113 | a hit whose hash is not a key leaves the tree unchanged |
| Reports.StrataHitsAppend | src/py/elastic_availability_generator.py:91 | the hits of two stratum lists in a row are those of the first followed by those of the second |
| Reports.FalsyContextYieldsNothing | src/py/elastic_availability_generator.py:105 | a falsy context skips every stratum |
| Reports.SkippedStratum | src/py/elastic_availability_generator.py:94-95 | a stratum without `system` contributes nothing, and the strata before and after it still do |
| Reports.StratifiersHitsAppend | src/py/elastic_availability_generator.py:80 | the hits of two stratifier lists in a row are those of the first followed by those of the second |
| Reports.SkippedStratifierHitsNothing | src/py/elastic_availability_generator.py:81-89 | a stratifier without strata, with a code not in the table, or with a falsy context yields no hits |
| Reports.SkippedStratifierDropsOut | src/py/elastic_availability_generator.py:80-89 | a skipped stratifier anywhere in the list contributes nothing, and the stratifiers before and after it still do |
| Aggregation.Sum | src/py/elastic_availability_generator.py:28-35 | a node's aggregate: its own availability plus `SumAll` of its children; defined on trees with a rank |
| Aggregation.SumAll | src/py/elastic_availability_generator.py:32-33 | the children's aggregates added up left to right |
| Aggregation.SumRankIndependent | src/py/elastic_availability_generator.py:28-35 | the aggregate does not depend on which rank witnesses that the tree is acyclic |
| Aggregation.SumAtLeastOwn | src/py/elastic_availability_generator.py:28-35 | with non-negative availabilities, a node's aggregate is at least its own availability, at least 0, and at least each child's aggregate |
| Aggregation.SumAllAtLeastEach | src/py/elastic_availability_generator.py:32-33 | with non-negative availabilities, the children's total is at least 0 and at least each child's aggregate |
| Aggregation.LeafSum | src/py/elastic_availability_generator.py:28-35 | a leaf's aggregate is its own availability |
| Aggregation.ParentChildSample | src/py/elastic_availability_generator.py:28-35 | a parent with 5 over a child with 3 aggregates to 8 |
| Aggregation.SharedChildSample | src/py/elastic_availability_generator.py:28-35 | a child shared by two parents counts in full under each |
| Aggregation.RankedKeepsShape | src/py/elastic_availability_generator.py:109-111 | changing availabilities without changing keys or children keeps the tree ranked |
| Shards.Serialized | src/py/elastic_availability_generator.py:127 | one line per insert |
| Shards.SerializedLines | src/py/elastic_availability_generator.py:127 | line i is `json.dumps` of insert i followed by a newline |
| Shards.SizeAppend | src/py/elastic_availability_generator.py:129 | the size of two runs of lines is the sum of their sizes |
| Shards.GrowOpenShard | src/py/elastic_availability_generator.py:126-136 | one more line grows the size by its length; it closes the open file exactly when the file then has an even number of lines and exceeds the ceiling, and otherwise the file stays open |
| Shards.WriteLine | src/py/elastic_availability_generator.py:124-136 | one more line either joins the open file, which stays open, or joins it and closes it, in the same two cases |
| Shards.RotationAgrees | src/py/elastic_availability_generator.py:126-131 | `count` and `current_file_size` decide rotation exactly as the open file's length and size do: rotation happens when the file then has an even number of lines and is over the ceiling |
| Shards.EndsClosed | src/py/elastic_availability_generator.py:131-136 | output that stops right after a rotation ends with an empty file |
| Shards.WriteShards | src/py/elastic_availability_generator.py:115-136 | the files written are a proper split of one serialized line per insert: concatenated they give the lines in order, every file but the last has an even number of lines and is closed at the first even length past the ceiling, and no even-length prefix of the last file exceeds it |
| Shards.ShortestOverflow | src/py/elastic_availability_generator.py:131 | a closed file that begins another closed or open file is all of it |
| Shards.ProperSplitTail | src/py/elastic_availability_generator.py:131-136 | after the first file, the rest split the remaining lines properly |
| Shards.FirstShardAgrees | src/py/elastic_availability_generator.py:131-136 | two proper splits of the same lines have the same first file, and either both have more files or neither does |
| Shards.ProperSplitUnique | src/py/elastic_availability_generator.py:115-136 | the rotation rule determines the files: two proper splits of the same lines are equal |
| Shards.SingleShard | src/py/elastic_availability_generator.py:131 | output whose total size is within the ceiling goes to exactly one file |
| Shards.ShardsStartEven | src/py/elastic_availability_generator.py:131 | every file starts at an even line number, so no update/doc pair is split across files |
| Shards.ShardOvershoot | src/py/elastic_availability_generator.py:129-131 | every file but the last exceeds the ceiling, by no more than its last two lines |
| Shards.PairFirst | src/py/elastic_availability_generator.py:126-131 | the first line of a pair (an odd-numbered line) never closes the file |
| Shards.PairSecond | src/py/elastic_availability_generator.py:126-136 | the second line of a pair closes the file when the file is then over the ceiling |
| Shards.TrailingEmptyShard | src/py/elastic_availability_generator.py:124-136 | from any point between pairs, a pair that takes the open file over the ceiling closes it, and if that pair is the last of the output the split ends with an empty file |
| Shards.LonePairOverflow | src/py/elastic_availability_generator.py:115-136 | output of one pair larger than the ceiling is split into that pair and an empty file, and into nothing else |
| Generator.PairsLength | src/py/elastic_availability_generator.py:154-155 | two documents per key |
| Generator.PairsAt | src/py/elastic_availability_generator.py:144-155 | document 2k is the update record of the k-th key and document 2k+1 carries the bucket of its aggregate |
| Generator.OrderCoversAggregates | src/py/elastic_availability_generator.py:144-145 | every key in the iteration order has a non-negative aggregate exactly when every entry has one |
| Generator.PairsMeaning | src/py/elastic_availability_generator.py:144-155 | the documents number 2·\|tree\|, and position 2k / 2k+1 hold the update and the bucket of the k-th key in dict order |
| Generator.AvailabilityGenerator.constructor | src/py/elastic_availability_generator.py:12-19 | starts with the given stratum-to-context table and an empty tree |
| Generator.AvailabilityGenerator.GetHashedTree | src/py/elastic_availability_generator.py:41-65 | the tree becomes the load of the selected files' lines, in listing order, with `cur_hash` carried between files; on an unbound `cur_hash` it reports failure and the tree is unchanged |
| Generator.AvailabilityGenerator.LoadFileLines | src/py/elastic_availability_generator.py:51-65 | the line loop of one file, from the `cur_hash` the earlier files left: succeeds exactly when the load does, and then leaves its tree and `cur_hash` |
| Generator.AvailabilityGenerator.UpdateAvailabilityOnHashTree | src/py/elastic_availability_generator.py:67-113 | the tree becomes the old tree with every hit of every selected report applied, in listing order |
| Generator.AvailabilityGenerator.ApplyReportFile | src/py/elastic_availability_generator.py:71-78 | only a file whose name contains `availability_report` changes the tree, by the hits of its groups |
| Generator.AvailabilityGenerator.ApplyGroups | src/py/elastic_availability_generator.py:78-80 | the group loop applies the hits of every group in order |
| Generator.AvailabilityGenerator.ApplyStratifiers | src/py/elastic_availability_generator.py:80-89 | the stratifier loop applies the hits of every stratifier in order |
| Generator.AvailabilityGenerator.ApplyStratifier | src/py/elastic_availability_generator.py:81-91 | a stratifier without strata or with an unknown code changes nothing; otherwise its strata are applied under its context |
| Generator.AvailabilityGenerator.ApplyStrata | src/py/elastic_availability_generator.py:91-113 | the stratum loop applies the hit of every stratum in order |
| Generator.AvailabilityGenerator.ApplyStratum | src/py/elastic_availability_generator.py:92-113 | one stratum adds its score to the hashed node, or changes nothing when it is skipped or the hash is not a key |
| Generator.AvailabilityGenerator.GetAvailSumForAllChildren | src/py/elastic_availability_generator.py:28-35 | the count returned is the node's aggregate |
| Generator.AvailabilityGenerator.BuildInserts | src/py/elastic_availability_generator.py:140-155 | succeeds exactly when every aggregate is non-negative, with two documents per key as `PairsFor` states; otherwise fails with the bucket error |
| Generator.AvailabilityGenerator.GenerateAvailability | src/py/elastic_availability_generator.py:138-158 | fails on an unbound `cur_hash` exactly when the load does, and then the tree is unchanged; otherwise the tree is the loaded tree with all reports applied; on success the files are the proper split of the serialized document pairs; the bucket error comes exactly from a negative aggregate |
| Generator.SingleNodeSample | src/py/elastic_availability_generator.py:105-111 | a stratum resolving to the only node, with score 10000, raises its availability from 0 to 10000 |
| Generator.SingleNodePairs | src/py/elastic_availability_generator.py:144-155 | that one-node tree gives the pair update "h1", availability 10000 |

## Left out

- File and directory I/O are not modelled: `os.listdir`, `open`, `os.path.join`, the output file names `<prefix>_<N>.json` and the file modes. Directory listings are inputs: the ontology files and report files, each with its name and parsed content, in listing order. Listing order is unspecified, so every statement holds for any order. File `N` of the output is the shard at position `N - 1`.
- `json.loads`, `json.load` and `json.dumps` are not modelled. Records come in already parsed. Serialization is a function parameter `dumps`. Line stripping and the skipping of blank lines are the `Blank` line.
- `uuid.uuid3` and the MD5 inside it are not modelled. The hash is an opaque function parameter of the namespace and the name.
- Logging (lines 49, 86, 113, 151-152) has no effect on results and is not modelled.
- The constructor's read of `stratum-to-context.json` (lines 18-19) is not modelled: the table is a constructor argument. The directory fields set at lines 13-15 are not modelled.
- The unused `hash_set` (lines 69 and 108) is not modelled.
- KeyError on required JSON keys is not modelled. The report datatypes always have `group`, `stratifier`, `code`, `measureScore`, `value` and `coding[0]`; only the optional keys (`stratum`, `system`, `version`) can be absent. An ontology index record always has `_id` (line 59) and a body record always has `children` (line 64); the KeyError on either missing key is not modelled.
- A child record is a full dict with `contextualized_termcode_hash`. The model keeps only that field, as a string per child.
- Scores are unbounded integers. Python integers are unbounded too, and floating-point measure scores are not modelled.
- Generator.AvailabilityGenerator.GetAvailSumForAllChildren: requires a rank witnessing that every child is present and the tree is acyclic. It does not model the KeyError on a missing child, the RecursionError on a cycle, or the RecursionError on an acyclic chain of children deeper than the interpreter's recursion limit; on such a chain `Sum` returns the aggregate.
- Generator.AvailabilityGenerator.BuildInserts: requires a rank of the tree, so every child is present and the tree is acyclic. It does not model the KeyError on a missing child or the RecursionError on a cycle raised by the loop at line 145, or the RecursionError on an acyclic chain of children deeper than the interpreter's recursion limit, where the model produces the documents.
- Generator.AvailabilityGenerator.GenerateAvailability: requires the rank of the loaded tree. It does not model the KeyError or RecursionError raised during aggregation on a tree without one, or the RecursionError on an acyclic chain of children deeper than the interpreter's recursion limit, where the model produces the documents.
- Behaviour of the code that the model keeps as written:
  - no rule counts a missing child as 0 and there is no cycle check: a missing child raises KeyError and a cycle recurses until RecursionError, so the aggregate is defined only on ranked trees, as the two lines above say;
  - the aggregate of each key is recomputed from scratch for every key; nothing is memoised;
  - every stratifier is looked up in `stratum_to_context`; there is no built-in table of special stratifiers;
  - file sizes are `len` of each line, a count of characters and not of encoded bytes;
  - a new file is started only after an even-numbered line, so a file can end one line past the point where it first exceeds the ceiling.
