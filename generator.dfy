/**
 * The generator object, `ElasticAvailabilityGenerator`
 * (elastic_availability_generator.py, lines 7-158): it owns the ontology
 * tree, which `get_hashed_tree` fills, `update_availability_on_hash_tree`
 * updates in place, and `generate_availability` turns into update/doc pairs
 * that `__write_es_to_file` writes out.
 *
 * The directory listings and file reads are inputs: the ontology files and
 * the report files in listing order, already parsed. The stratum-to-context
 * table, read by the constructor from a file, is a constructor argument.
 */
module Generator {
  import opened Wrappers
  import opened Strings
  import opened Hashing
  import opened Buckets
  import opened Ontology
  import opened Reports
  import opened Aggregation
  import opened Shards

  /** One line of the bulk request: `{"update": {"_id": id}}` or `{"doc": {"availability": bucket}}`. */
  datatype Insert = Update(id: string) | Doc(availability: int)

  /** The exceptions the run can end with. */
  datatype Error =
    | BodyBeforeIndex     // a body record before any index record: `cur_hash` is unbound
    | NegativeAggregate   // an aggregate below every threshold: `max` of an empty sequence

  /** The size ceiling of one output file, in mebibytes. */
  const MaxFilesizeMb: int := 10

  /** Every aggregate is at least 0, so every node has a bucket. */
  ghost predicate AggregatesNonNegative(t: Tree, rank: map<string, nat>)
    requires Ranked(t.nodes, rank)
  {
    forall k :: k in t.nodes ==> Sum(t.nodes, rank, k) >= 0
  }

  /**
   * `inserts` are the documents for `t`: for the k-th key in dict order,
   * element 2k targets the key and element 2k+1 carries the bucket of its
   * aggregate.
   */
  ghost predicate PairsFor(t: Tree, rank: map<string, nat>, inserts: seq<Insert>)
    requires t.Valid() && Ranked(t.nodes, rank)
  {
    && |inserts| == 2 * |t.order|
    && forall k :: 0 <= k < |t.order| ==>
         && inserts[2 * k] == Update(t.order[k])
         && Bucket(Sum(t.nodes, rank, t.order[k])).Some?
         && inserts[2 * k + 1] == Doc(Bucket(Sum(t.nodes, rank, t.order[k])).value)
  }

  /** Every key of `keys` is in the tree and has a non-negative aggregate. */
  ghost predicate KeysNonNegative(t: Tree, rank: map<string, nat>, keys: seq<string>)
    requires Ranked(t.nodes, rank)
  {
    forall i :: 0 <= i < |keys| ==> keys[i] in t.nodes && Sum(t.nodes, rank, keys[i]) >= 0
  }

  /** The document pairs for `keys`, in order; every aggregate among them is non-negative. */
  ghost function Pairs(t: Tree, rank: map<string, nat>, keys: seq<string>): seq<Insert>
    requires Ranked(t.nodes, rank)
    requires KeysNonNegative(t, rank, keys)
  {
    if keys == [] then []
    else
      var key := keys[|keys| - 1];
      Pairs(t, rank, keys[..|keys| - 1]) + [Update(key), Doc(Bucket(Sum(t.nodes, rank, key)).value)]
  }

  /** The pairs hold two lines per key. */
  lemma {:induction false} PairsLength(t: Tree, rank: map<string, nat>, keys: seq<string>)
    requires Ranked(t.nodes, rank)
    requires KeysNonNegative(t, rank, keys)
    ensures |Pairs(t, rank, keys)| == 2 * |keys|
    decreases |keys|
  {
    if keys != [] {
      PairsLength(t, rank, keys[..|keys| - 1]);
    }
  }

  /** The k-th key's pair: an update line for the key, then a doc line with the bucket of its aggregate. */
  lemma {:induction false} PairsAt(t: Tree, rank: map<string, nat>, keys: seq<string>, k: nat)
    requires Ranked(t.nodes, rank)
    requires KeysNonNegative(t, rank, keys)
    requires k < |keys|
    ensures |Pairs(t, rank, keys)| == 2 * |keys|
    ensures Pairs(t, rank, keys)[2 * k] == Update(keys[k])
    ensures Pairs(t, rank, keys)[2 * k + 1] == Doc(Bucket(Sum(t.nodes, rank, keys[k])).value)
    decreases |keys|
  {
    var pre := keys[..|keys| - 1];
    PairsLength(t, rank, keys);
    if k < |pre| {
      PairsAt(t, rank, pre, k);
      assert pre[k] == keys[k];
    } else {
      PairsLength(t, rank, pre);
    }
  }

  /** One more key with a non-negative aggregate is one more pair. */
  lemma PairsStep(t: Tree, rank: map<string, nat>, keys: seq<string>, i: nat)
    requires Ranked(t.nodes, rank) && i < |keys| && KeysNonNegative(t, rank, keys[..i])
    requires keys[i] in t.nodes && Sum(t.nodes, rank, keys[i]) >= 0
    ensures KeysNonNegative(t, rank, keys[..i + 1])
    ensures Pairs(t, rank, keys[..i + 1])
         == Pairs(t, rank, keys[..i]) + [Update(keys[i]), Doc(Bucket(Sum(t.nodes, rank, keys[i])).value)]
  {
    assert keys[..i + 1][..i] == keys[..i];
  }

  /** Non-negative aggregates along the whole key order are non-negative aggregates everywhere. */
  lemma OrderCoversAggregates(t: Tree, rank: map<string, nat>)
    requires t.Valid() && Ranked(t.nodes, rank)
    ensures KeysNonNegative(t, rank, t.order) <==> AggregatesNonNegative(t, rank)
  {
    if KeysNonNegative(t, rank, t.order) {
      forall key | key in t.nodes ensures Sum(t.nodes, rank, key) >= 0 {
        var k :| 0 <= k < |t.order| && t.order[k] == key;
      }
    }
  }

  /** When every aggregate is non-negative, the pairs of the whole key order are the documents for the tree. */
  lemma PairsMeaning(t: Tree, rank: map<string, nat>)
    requires t.Valid() && Ranked(t.nodes, rank) && KeysNonNegative(t, rank, t.order)
    ensures PairsFor(t, rank, Pairs(t, rank, t.order))
    ensures |Pairs(t, rank, t.order)| == 2 * |t.nodes|
  {
    PairsLength(t, rank, t.order);
    forall k | 0 <= k < |t.order|
      ensures && Pairs(t, rank, t.order)[2 * k] == Update(t.order[k])
              && Pairs(t, rank, t.order)[2 * k + 1] == Doc(Bucket(Sum(t.nodes, rank, t.order[k])).value)
    {
      PairsAt(t, rank, t.order, k);
    }
    OrderCountsKeys(t);
  }

  class AvailabilityGenerator {
    /** `stratum_to_context`. */
    const stratumToContext: ContextTable
    /** `uuid.uuid3`, rendered as a string. */
    const uuid3: Uuid3
    /** `es_onto_tree`. */
    var tree: Tree

    predicate Valid()
      reads this
    {
      tree.Valid()
    }

    constructor (stratumToContext: ContextTable, uuid3: Uuid3)
      ensures Valid()
      ensures this.stratumToContext == stratumToContext && this.uuid3 == uuid3
      ensures tree == EmptyTree
    {
      this.stratumToContext := stratumToContext;
      this.uuid3 := uuid3;
      tree := EmptyTree;
    }

    /**
     * `get_hashed_tree`: the lines of every selected file, in listing order,
     * with `cur_hash` carried from one file to the next. `ok` is false where
     * the source raises because `cur_hash` is unbound.
     */
    method GetHashedTree(files: seq<OntologyFile>) returns (ok: bool)
      requires Valid()
      modifies this
      ensures Valid()
      ensures ok <==> LoadLines(LoadState(old(tree), None), SelectedLines(files)).Some?
      ensures ok ==> tree == LoadLines(LoadState(old(tree), None), SelectedLines(files)).value.tree
      ensures !ok ==> tree == old(tree)
    {
      ghost var start := LoadState(tree, None);
      var curHash: Option<string> := None;
      var i := 0;
      while i < |files|
        invariant 0 <= i <= |files|
        invariant LoadLines(start, SelectedLines(files[..i])) == Some(LoadState(tree, curHash))
        invariant curHash.None? ==> tree == start.tree
        invariant Valid()
      {
        var file := files[i];
        LoadFileStep(start, files, i);
        if Contains(file.name, OntologyMarker) {
          ok, curHash := LoadFileLines(file.lines, curHash);
          if !ok {
            LoadFailureSticks(start, files, i);
            return;
          }
        }
        i := i + 1;
      }
      assert files[..i] == files;
      ok := true;
    }

    /** One more file of the listing loads its lines from where the files before it left off, if it is selected. */
    static lemma LoadFileStep(start: LoadState, files: seq<OntologyFile>, i: nat)
      requires i < |files|
      ensures LoadLines(start, SelectedLines(files[..i + 1]))
           == match LoadLines(start, SelectedLines(files[..i]))
              case None => None
              case Some(s) => if Contains(files[i].name, OntologyMarker) then LoadLines(s, files[i].lines) else Some(s)
    {
      var done := SelectedLines(files[..i]);
      assert files[..i + 1][..i] == files[..i];
      if Contains(files[i].name, OntologyMarker) {
        LoadAppend(start, done, files[i].lines);
      } else {
        assert done + [] == done;
      }
    }

    /** Once the selected lines of a prefix of the listing fail to load, so do all of them. */
    static lemma LoadFailureSticks(start: LoadState, files: seq<OntologyFile>, i: nat)
      requires i < |files|
      requires LoadLines(start, SelectedLines(files[..i + 1])).None?
      ensures LoadLines(start, SelectedLines(files)).None?
    {
      assert files == files[..i + 1] + files[i + 1..];
      SelectedLinesAppend(files[..i + 1], files[i + 1..]);
      LoadAppend(start, SelectedLines(files[..i + 1]), SelectedLines(files[i + 1..]));
    }

    /**
     * The line loop of one selected file, starting from `cur_hash` = `cur`.
     * A failure can only come before the file's first index record, when
     * `cur` is unbound, so the tree is then untouched.
     */
    method LoadFileLines(lines: seq<Line>, cur: Option<string>) returns (ok: bool, next: Option<string>)
      requires Valid()
      modifies this
      ensures Valid()
      ensures ok <==> LoadLines(LoadState(old(tree), cur), lines).Some?
      ensures ok ==> LoadLines(LoadState(old(tree), cur), lines) == Some(LoadState(tree, next))
      ensures !ok ==> next.None?
      ensures next.None? ==> cur.None? && tree == old(tree)
    {
      next := cur;
      var j := 0;
      while j < |lines|
        invariant 0 <= j <= |lines|
        invariant LoadLines(LoadState(old(tree), cur), lines[..j]) == Some(LoadState(tree, next))
        invariant next.None? ==> cur.None? && tree == old(tree)
        invariant Valid()
      {
        var line := lines[j];
        assert lines[..j + 1] == lines[..j] + [line];
        LoadSnoc(LoadState(old(tree), cur), lines[..j], line);
        match line {
          case Blank =>
          case Index(id) =>
            next := Some(id);
          case Body(children) =>
            if next.None? {
              LoadFailureSticksInFile(LoadState(old(tree), cur), lines, j);
              return false, next;
            }
            tree := Put(tree, next.value, Node(0, children));
        }
        j := j + 1;
      }
      assert lines[..j] == lines;
      ok := true;
    }

    /** Once a prefix of a file's lines fails to load, so does the whole file. */
    static lemma LoadFailureSticksInFile(s: LoadState, lines: seq<Line>, j: nat)
      requires j < |lines|
      requires LoadLines(s, lines[..j + 1]).None?
      ensures LoadLines(s, lines).None?
    {
      assert lines == lines[..j + 1] + lines[j + 1..];
      LoadAppend(s, lines[..j + 1], lines[j + 1..]);
    }

    /**
     * `update_availability_on_hash_tree`: every stratum of every selected
     * report that the code does not skip adds its measure score to the node
     * its hash names, if that node exists.
     */
    method UpdateAvailabilityOnHashTree(files: seq<ReportFile>)
      requires Valid()
      modifies this
      ensures Valid()
      ensures tree == Accumulate(uuid3, old(tree), FilesHits(stratumToContext, files))
    {
      var i := 0;
      while i < |files|
        invariant 0 <= i <= |files|
        invariant tree == Accumulate(uuid3, old(tree), FilesHits(stratumToContext, files[..i]))
      {
        FilesStep(uuid3, old(tree), stratumToContext, files, i);
        ApplyReportFile(files[i]);
        i := i + 1;
      }
      assert files[..i] == files;
    }

    /** The body of the file loop: only a file whose name holds the marker is read. */
    method ApplyReportFile(file: ReportFile)
      modifies this
      ensures tree == Accumulate(uuid3, old(tree), FileHits(stratumToContext, file))
    {
      if Contains(file.name, ReportMarker) {
        ApplyGroups(file.report.group);
      }
    }

    /** The group loop of one selected report. */
    method ApplyGroups(groups: seq<Group>)
      modifies this
      ensures tree == Accumulate(uuid3, old(tree), GroupsHits(stratumToContext, groups))
    {
      var g := 0;
      while g < |groups|
        invariant 0 <= g <= |groups|
        invariant tree == Accumulate(uuid3, old(tree), GroupsHits(stratumToContext, groups[..g]))
      {
        GroupsStep(uuid3, old(tree), stratumToContext, groups, g);
        ApplyStratifiers(groups[g].stratifier);
        g := g + 1;
      }
      assert groups[..g] == groups;
    }

    /** The stratifier loop of one group. */
    method ApplyStratifiers(stratifiers: seq<Stratifier>)
      modifies this
      ensures tree == Accumulate(uuid3, old(tree), StratifiersHits(stratumToContext, stratifiers))
    {
      var k := 0;
      while k < |stratifiers|
        invariant 0 <= k <= |stratifiers|
        invariant tree == Accumulate(uuid3, old(tree), StratifiersHits(stratumToContext, stratifiers[..k]))
      {
        StratifiersStep(uuid3, old(tree), stratumToContext, stratifiers, k);
        ApplyStratifier(stratifiers[k]);
        k := k + 1;
      }
      assert stratifiers[..k] == stratifiers;
    }

    /** The body of the stratifier loop: skip a stratifier without strata or whose code the table lacks. */
    method ApplyStratifier(stratifier: Stratifier)
      modifies this
      ensures tree == Accumulate(uuid3, old(tree), StratifierHits(stratumToContext, stratifier))
    {
      if stratifier.stratum.Some? {
        var stratCode := stratifier.code;
        if stratCode !in stratumToContext {
          return;
        }
        var context := stratumToContext[stratCode];
        ApplyStrata(context, stratifier.stratum.value);
      }
    }

    /** The stratum loop of one stratifier whose code the table maps to `context`. */
    method ApplyStrata(context: Option<Context>, strata: seq<Stratum>)
      modifies this
      ensures tree == Accumulate(uuid3, old(tree), StrataHits(context, strata))
    {
      var m := 0;
      while m < |strata|
        invariant 0 <= m <= |strata|
        invariant tree == Accumulate(uuid3, old(tree), StrataHits(context, strata[..m]))
      {
        StrataStep(uuid3, old(tree), context, strata, m);
        ApplyStratum(context, strata[m]);
        m := m + 1;
      }
      assert strata[..m] == strata;
    }

    /** The body of the stratum loop: skip a coding without `system` or a falsy context, else add the score to the hashed node. */
    method ApplyStratum(context: Option<Context>, stratum: Stratum)
      modifies this
      ensures tree == Accumulate(uuid3, old(tree), StratumHits(context, stratum))
    {
      var measureScore := stratum.measureScore;
      if stratum.value.system.None? {
        return;
      }
      var termcode := Termcode(stratum.value.system.value, stratum.value.code);
      if context.Some? {
        var hash := ContextualizedHash(uuid3, context.value, termcode);
        if hash in tree.nodes {
          tree := tree.(nodes := tree.nodes[hash := Node(tree.nodes[hash].availability + measureScore,
                                                         tree.nodes[hash].children)]);
        }
        assert tree == AddScore(old(tree), hash, measureScore);
        AccumulateOne(uuid3, old(tree), Hit(context.value, termcode, measureScore));
      }
    }

    /** `get_avail_sum_for_all_children`: the node's own availability plus its children's aggregates. */
    method GetAvailSumForAllChildren(ghost rank: map<string, nat>, parentId: string) returns (count: int)
      requires Ranked(tree.nodes, rank) && parentId in tree.nodes
      ensures count == Sum(tree.nodes, rank, parentId)
      decreases rank[parentId]
    {
      count := tree.nodes[parentId].availability;
      var children := tree.nodes[parentId].children;
      var i := 0;
      while i < |children|
        invariant 0 <= i <= |children|
        invariant count == tree.nodes[parentId].availability + SumAll(tree.nodes, rank, children[..i], rank[parentId])
      {
        assert children[..i + 1][..i] == children[..i];
        var childSum := GetAvailSumForAllChildren(rank, children[i]);
        count := count + childSum;
        i := i + 1;
      }
      assert children[..i] == children;
    }

    /**
     * The document-pair loop of `generate_availability`: in dict order, an
     * update line for each key and a doc line with the bucket of its
     * aggregate. It fails exactly when some aggregate is negative.
     */
    method BuildInserts(ghost rank: map<string, nat>) returns (r: Result<seq<Insert>, Error>)
      requires Valid() && Ranked(tree.nodes, rank)
      ensures r.Success? <==> AggregatesNonNegative(tree, rank)
      ensures r.Failure? ==> r.error == NegativeAggregate
      ensures r.Success? ==> r.value == Pairs(tree, rank, tree.order)
      ensures r.Success? ==> PairsFor(tree, rank, r.value) && |r.value| == 2 * |tree.nodes|
    {
      var inserts: seq<Insert> := [];
      var i := 0;
      while i < |tree.order|
        invariant 0 <= i <= |tree.order|
        invariant KeysNonNegative(tree, rank, tree.order[..i])
        invariant inserts == Pairs(tree, rank, tree.order[..i])
      {
        var key := tree.order[i];
        var sumAllChildren := GetAvailSumForAllChildren(rank, key);
        var bucket := Bucket(sumAllChildren);
        if bucket.None? {
          assert key in tree.nodes && Sum(tree.nodes, rank, key) < 0;
          return Failure(NegativeAggregate);
        }
        PairsStep(tree, rank, tree.order, i);
        inserts := inserts + [Update(key), Doc(bucket.value)];
        i := i + 1;
      }
      assert tree.order[..i] == tree.order;
      OrderCoversAggregates(tree, rank);
      PairsMeaning(tree, rank);
      r := Success(inserts);
    }

    /**
     * `generate_availability`: load the tree, apply the reports, build the
     * document pairs and split them into files. `rank` witnesses that the
     * loaded tree is acyclic and has all its children, as the aggregation
     * needs.
     */
    method GenerateAvailability(ontologyFiles: seq<OntologyFile>, reportFiles: seq<ReportFile>,
                                dumps: Insert -> string, ghost rank: map<string, nat>)
      returns (r: Result<seq<seq<string>>, Error>)
      requires Valid()
      requires match LoadLines(LoadState(tree, None), SelectedLines(ontologyFiles))
               case Some(s) => Ranked(s.tree.nodes, rank)
               case None => true
      modifies this
      ensures Valid()
      ensures var loaded := LoadLines(LoadState(old(tree), None), SelectedLines(ontologyFiles));
              && (r == Failure(BodyBeforeIndex) <==> loaded.None?)
              && (loaded.Some? ==> tree == Accumulate(uuid3, loaded.value.tree, FilesHits(stratumToContext, reportFiles)))
              && (loaded.None? ==> tree == old(tree))
      ensures r.Success? ==> Ranked(tree.nodes, rank) && AggregatesNonNegative(tree, rank)
      ensures r.Success? ==> exists inserts :: PairsFor(tree, rank, inserts)
                                && ProperSplit(r.value, Serialized(dumps, inserts), MaxFilesizeMb * 1024 * 1024)
      ensures r.Failure? && r.error == NegativeAggregate ==> Ranked(tree.nodes, rank) && !AggregatesNonNegative(tree, rank)
    {
      var ok := GetHashedTree(ontologyFiles);
      if !ok {
        return Failure(BodyBeforeIndex);
      }
      ghost var loaded := tree;
      UpdateAvailabilityOnHashTree(reportFiles);
      AccumulateAt(uuid3, loaded, FilesHits(stratumToContext, reportFiles));
      RankedKeepsShape(loaded.nodes, tree.nodes, rank);
      var inserts := BuildInserts(rank);
      if inserts.Failure? {
        return Failure(inserts.error);
      }
      var shards := WriteShards(inserts.value, MaxFilesizeMb, dumps);
      r := Success(shards);
    }
  }

  /** One more iteration of the report-file loop is one more round of hits. */
  lemma FilesStep(uuid3: Uuid3, t: Tree, table: ContextTable, files: seq<ReportFile>, i: nat)
    requires i < |files|
    ensures Accumulate(uuid3, t, FilesHits(table, files[..i + 1]))
         == Accumulate(uuid3, Accumulate(uuid3, t, FilesHits(table, files[..i])), FileHits(table, files[i]))
  {
    assert files[..i + 1][..i] == files[..i];
    AccumulateAppend(uuid3, t, FilesHits(table, files[..i]), FileHits(table, files[i]));
  }

  /** One more iteration of the group loop is one more round of hits. */
  lemma GroupsStep(uuid3: Uuid3, t: Tree, table: ContextTable, groups: seq<Group>, g: nat)
    requires g < |groups|
    ensures Accumulate(uuid3, t, GroupsHits(table, groups[..g + 1]))
         == Accumulate(uuid3, Accumulate(uuid3, t, GroupsHits(table, groups[..g])),
                       StratifiersHits(table, groups[g].stratifier))
  {
    assert groups[..g + 1][..g] == groups[..g];
    AccumulateAppend(uuid3, t, GroupsHits(table, groups[..g]), StratifiersHits(table, groups[g].stratifier));
  }

  /** One more iteration of the stratifier loop is one more round of hits. */
  lemma StratifiersStep(uuid3: Uuid3, t: Tree, table: ContextTable, stratifiers: seq<Stratifier>, k: nat)
    requires k < |stratifiers|
    ensures Accumulate(uuid3, t, StratifiersHits(table, stratifiers[..k + 1]))
         == Accumulate(uuid3, Accumulate(uuid3, t, StratifiersHits(table, stratifiers[..k])),
                       StratifierHits(table, stratifiers[k]))
  {
    assert stratifiers[..k + 1][..k] == stratifiers[..k];
    AccumulateAppend(uuid3, t, StratifiersHits(table, stratifiers[..k]), StratifierHits(table, stratifiers[k]));
  }

  /** One more iteration of the stratum loop is at most one more hit. */
  lemma StrataStep(uuid3: Uuid3, t: Tree, context: Option<Context>, strata: seq<Stratum>, m: nat)
    requires m < |strata|
    ensures Accumulate(uuid3, t, StrataHits(context, strata[..m + 1]))
         == Accumulate(uuid3, Accumulate(uuid3, t, StrataHits(context, strata[..m])), StratumHits(context, strata[m]))
  {
    assert strata[..m + 1][..m] == strata[..m];
    AccumulateAppend(uuid3, t, StrataHits(context, strata[..m]), StratumHits(context, strata[m]));
  }

  /**
   * End to end on one node, first half: one stratum that resolves to "h1"
   * with score 10000 raises the availability of a tree holding only "h1",
   * with no children, from 0 to 10000.
   */
  lemma SingleNodeSample(uuid3: Uuid3, h: Hit)
    requires HitHash(uuid3, h) == "h1" && h.score == 10000
    ensures Accumulate(uuid3, Tree(map["h1" := Node(0, [])], ["h1"]), [h])
         == Tree(map["h1" := Node(10000, [])], ["h1"])
  {
    AccumulateOne(uuid3, Tree(map["h1" := Node(0, [])], ["h1"]), h);
  }

  /** Second half: that tree gives the pair update "h1", availability 10000. */
  lemma SingleNodePairs()
    ensures var t := Tree(map["h1" := Node(10000, [])], ["h1"]);
            var rank := map["h1" := 0];
            && t.Valid() && Ranked(t.nodes, rank)
            && PairsFor(t, rank, [Update("h1"), Doc(10000)])
  {
    var t := Tree(map["h1" := Node(10000, [])], ["h1"]);
    var rank := map["h1" := 0];
    assert Ranked(t.nodes, rank);
    assert Bucket(Sum(t.nodes, rank, "h1")) == Some(10000) by {
      LeafSum(t.nodes, rank, "h1");
      BucketRange(4, 10000);
    }
  }
}
