/**
 * Applying report strata to the tree, `update_availability_on_hash_tree`
 * (elastic_availability_generator.py, lines 67-113), stated as two steps:
 * the strata the code does not skip yield hits (context, termcode, score),
 * and each hit adds its score to the node its hash names, if there is one.
 */
module Reports {
  import opened Wrappers
  import opened Strings
  import opened Hashing
  import opened Ontology

  /** `value.coding[0]` of a stratum; `system` is `None` when the key is absent. */
  datatype Coding = Coding(system: Option<Value>, code: Value)

  datatype Stratum = Stratum(value: Coding, measureScore: int)

  /** A stratifier: `code[0].coding[0].code`, and its strata (`None` when the key is absent). */
  datatype Stratifier = Stratifier(code: string, stratum: Option<seq<Stratum>>)

  datatype Group = Group(stratifier: seq<Stratifier>)

  datatype Report = Report(group: seq<Group>)

  /** A report file, as found by the directory listing. */
  datatype ReportFile = ReportFile(name: string, report: Report)

  /** The stratum-to-context table; `None` stands for a falsy entry (null, an empty object). */
  type ContextTable = map<string, Option<Context>>

  /** A stratum that reaches the hash: its context, termcode and measure score. */
  datatype Hit = Hit(context: Context, termcode: Termcode, score: int)

  /** Only file names containing this marker are read. */
  const ReportMarker: string := "availability_report"

  /** A stratum yields a hit unless its coding lacks `system` or the context is falsy. */
  function StratumHits(context: Option<Context>, s: Stratum): (hits: seq<Hit>)
    ensures |hits| <= 1
    ensures hits != [] <==> s.value.system.Some? && context.Some?
    ensures hits != [] ==> hits[0] == Hit(context.value, Termcode(s.value.system.value, s.value.code), s.measureScore)
  {
    if s.value.system.None? then []
    else if context.None? then []
    else [Hit(context.value, Termcode(s.value.system.value, s.value.code), s.measureScore)]
  }

  function StrataHits(context: Option<Context>, strata: seq<Stratum>): seq<Hit>
  {
    if strata == [] then []
    else StrataHits(context, strata[..|strata| - 1]) + StratumHits(context, strata[|strata| - 1])
  }

  /** A stratifier without strata, or whose code is not in the table, yields nothing. */
  function StratifierHits(table: ContextTable, st: Stratifier): seq<Hit>
  {
    if st.stratum.None? then []
    else if st.code !in table then []
    else StrataHits(table[st.code], st.stratum.value)
  }

  function StratifiersHits(table: ContextTable, sts: seq<Stratifier>): seq<Hit>
  {
    if sts == [] then []
    else StratifiersHits(table, sts[..|sts| - 1]) + StratifierHits(table, sts[|sts| - 1])
  }

  function GroupsHits(table: ContextTable, groups: seq<Group>): seq<Hit>
  {
    if groups == [] then []
    else GroupsHits(table, groups[..|groups| - 1]) + StratifiersHits(table, groups[|groups| - 1].stratifier)
  }

  /** The hits of one report file: those of its groups if its name holds the marker, none otherwise. */
  function FileHits(table: ContextTable, f: ReportFile): seq<Hit>
  {
    if Contains(f.name, ReportMarker) then GroupsHits(table, f.report.group) else []
  }

  /** The hits of all report files, in listing order. */
  function FilesHits(table: ContextTable, files: seq<ReportFile>): seq<Hit>
  {
    if files == [] then []
    else FilesHits(table, files[..|files| - 1]) + FileHits(table, files[|files| - 1])
  }

  /** `tree[k]["availability"] += score` when `k` is a key; otherwise the tree is unchanged. */
  function AddScore(t: Tree, k: string, score: int): (r: Tree)
    ensures r.order == t.order && r.nodes.Keys == t.nodes.Keys
    ensures t.Valid() ==> r.Valid()
  {
    if k in t.nodes then
      Tree(t.nodes[k := Node(t.nodes[k].availability + score, t.nodes[k].children)], t.order)
    else t
  }

  /** The hash a hit resolves to. */
  function HitHash(uuid3: Uuid3, h: Hit): string {
    ContextualizedHash(uuid3, h.context, h.termcode)
  }

  /** Every hit applied in order; the keys and their order never change. */
  function Accumulate(uuid3: Uuid3, t: Tree, hits: seq<Hit>): (r: Tree)
    ensures r.order == t.order && r.nodes.Keys == t.nodes.Keys
    ensures t.Valid() ==> r.Valid()
  {
    if hits == [] then t
    else
      var h := hits[|hits| - 1];
      AddScore(Accumulate(uuid3, t, hits[..|hits| - 1]), HitHash(uuid3, h), h.score)
  }

  /** The total score of the hits that resolve to `k`. */
  function ScoreOn(uuid3: Uuid3, hits: seq<Hit>, k: string): int
  {
    if hits == [] then 0
    else
      var h := hits[|hits| - 1];
      ScoreOn(uuid3, hits[..|hits| - 1], k) + (if HitHash(uuid3, h) == k then h.score else 0)
  }

  /** Applying `a + b` is applying `a`, then `b`. */
  lemma {:induction false} AccumulateAppend(uuid3: Uuid3, t: Tree, a: seq<Hit>, b: seq<Hit>)
    ensures Accumulate(uuid3, t, a + b) == Accumulate(uuid3, Accumulate(uuid3, t, a), b)
    decreases |b|
  {
    if b == [] {
      assert a + b == a;
    } else {
      assert (a + b)[..|a + b| - 1] == a + b[..|b| - 1];
      assert (a + b)[|a + b| - 1] == b[|b| - 1];
      AccumulateAppend(uuid3, t, a, b[..|b| - 1]);
    }
  }

  /**
   * What the hits do to the tree: the keys, their order and every node's
   * children stay as they were, and each node's availability grows by the
   * total score of the hits that resolve to it.
   */
  lemma {:induction false} AccumulateAt(uuid3: Uuid3, t: Tree, hits: seq<Hit>)
    ensures var r := Accumulate(uuid3, t, hits);
            && r.order == t.order && r.nodes.Keys == t.nodes.Keys
            && (forall k :: k in t.nodes ==> r.nodes[k].children == t.nodes[k].children)
            && (forall k :: k in t.nodes ==>
                  r.nodes[k].availability == t.nodes[k].availability + ScoreOn(uuid3, hits, k))
    decreases |hits|
  {
    if hits != [] {
      AccumulateAt(uuid3, t, hits[..|hits| - 1]);
    }
  }

  /** Applying one hit is adding its score to the node its hash names. */
  lemma AccumulateOne(uuid3: Uuid3, t: Tree, h: Hit)
    ensures Accumulate(uuid3, t, [h]) == AddScore(t, HitHash(uuid3, h), h.score)
  {
    assert [h][..0] == [];
  }

  lemma {:induction false} ScoreOnAppend(uuid3: Uuid3, a: seq<Hit>, b: seq<Hit>, k: string)
    ensures ScoreOn(uuid3, a + b, k) == ScoreOn(uuid3, a, k) + ScoreOn(uuid3, b, k)
    decreases |b|
  {
    if b == [] {
      assert a + b == a;
    } else {
      assert (a + b)[..|a + b| - 1] == a + b[..|b| - 1];
      assert (a + b)[|a + b| - 1] == b[|b| - 1];
      ScoreOnAppend(uuid3, a, b[..|b| - 1], k);
    }
  }

  /** The order in which reports are applied does not matter. */
  lemma AccumulateCommutes(uuid3: Uuid3, t: Tree, a: seq<Hit>, b: seq<Hit>)
    ensures Accumulate(uuid3, t, a + b) == Accumulate(uuid3, t, b + a)
  {
    var r1 := Accumulate(uuid3, t, a + b);
    var r2 := Accumulate(uuid3, t, b + a);
    AccumulateAt(uuid3, t, a + b);
    AccumulateAt(uuid3, t, b + a);
    forall k | k in t.nodes ensures r1.nodes[k] == r2.nodes[k] {
      ScoreOnAppend(uuid3, a, b, k);
      ScoreOnAppend(uuid3, b, a, k);
    }
    assert r1.nodes == r2.nodes;
  }

  /** Two hits on the same node add up. */
  lemma RepeatedHitsAdd(uuid3: Uuid3, t: Tree, h1: Hit, h2: Hit)
    requires HitHash(uuid3, h1) == HitHash(uuid3, h2) && HitHash(uuid3, h1) in t.nodes
    ensures var k := HitHash(uuid3, h1);
            var r := Accumulate(uuid3, t, [h1, h2]);
            k in r.nodes && r.nodes[k] == Node(t.nodes[k].availability + h1.score + h2.score, t.nodes[k].children)
  {
    var k := HitHash(uuid3, h1);
    assert [h1, h2][..1] == [h1];
    assert [h1][..0] == [];
    assert ScoreOn(uuid3, [h1], k) == h1.score;
    assert ScoreOn(uuid3, [h1, h2], k) == ScoreOn(uuid3, [h1], k) + h2.score;
    AccumulateAt(uuid3, t, [h1, h2]);
  }

  /** A hit whose hash is not a key leaves the tree as it was. */
  lemma UnknownHashIgnored(uuid3: Uuid3, t: Tree, h: Hit)
    requires HitHash(uuid3, h) !in t.nodes
    ensures Accumulate(uuid3, t, [h]) == t
  {
    assert [h][..0] == [];
  }

  lemma {:induction false} StrataHitsAppend(context: Option<Context>, a: seq<Stratum>, b: seq<Stratum>)
    ensures StrataHits(context, a + b) == StrataHits(context, a) + StrataHits(context, b)
    decreases |b|
  {
    if b == [] {
      assert a + b == a;
    } else {
      assert (a + b)[..|a + b| - 1] == a + b[..|b| - 1];
      assert (a + b)[|a + b| - 1] == b[|b| - 1];
      StrataHitsAppend(context, a, b[..|b| - 1]);
    }
  }

  /** A falsy context skips every stratum of its stratifier. */
  lemma {:induction false} FalsyContextYieldsNothing(strata: seq<Stratum>)
    ensures StrataHits(None, strata) == []
    decreases |strata|
  {
    if strata != [] {
      FalsyContextYieldsNothing(strata[..|strata| - 1]);
    }
  }

  /** A stratum whose coding lacks `system` is skipped; the strata around it are still processed. */
  lemma SkippedStratum(context: Option<Context>, a: seq<Stratum>, s: Stratum, b: seq<Stratum>)
    requires s.value.system.None?
    ensures StrataHits(context, a + [s] + b) == StrataHits(context, a + b)
  {
    assert [s][..0] == [];
    assert StrataHits(context, [s]) == [];
    StrataHitsAppend(context, a, [s]);
    assert StrataHits(context, a + [s]) == StrataHits(context, a);
    StrataHitsAppend(context, a + [s], b);
    StrataHitsAppend(context, a, b);
  }

  /** A stratifier the code skips: no strata, a code the table lacks, or a falsy context. */
  predicate SkippedStratifier(table: ContextTable, st: Stratifier) {
    st.stratum.None? || st.code !in table || table[st.code].None?
  }

  lemma {:induction false} StratifiersHitsAppend(table: ContextTable, a: seq<Stratifier>, b: seq<Stratifier>)
    ensures StratifiersHits(table, a + b) == StratifiersHits(table, a) + StratifiersHits(table, b)
    decreases |b|
  {
    if b == [] {
      assert a + b == a;
    } else {
      var init, last := b[..|b| - 1], b[|b| - 1];
      assert (a + b)[..|a + b| - 1] == a + init;
      assert (a + b)[|a + b| - 1] == last;
      StratifiersHitsAppend(table, a, init);
      var before, tail := StratifiersHits(table, a + init), StratifierHits(table, last);
      assert StratifiersHits(table, a + b) == before + tail;
      assert StratifiersHits(table, b) == StratifiersHits(table, init) + tail;
    }
  }

  /** A skipped stratifier contributes no hits, alone or as a one-element list. */
  lemma SkippedStratifierHitsNothing(table: ContextTable, st: Stratifier)
    requires SkippedStratifier(table, st)
    ensures StratifierHits(table, st) == []
    ensures StratifiersHits(table, [st]) == []
  {
    if st.stratum.Some? && st.code in table {
      FalsyContextYieldsNothing(st.stratum.value);
    }
    assert [st][..0] == [];
  }

  /** The stratifiers before and after a skipped one are processed as if it were not there. */
  lemma SkippedStratifierDropsOut(table: ContextTable, a: seq<Stratifier>, st: Stratifier, b: seq<Stratifier>)
    requires SkippedStratifier(table, st)
    ensures StratifiersHits(table, a + [st] + b) == StratifiersHits(table, a + b)
  {
    SkippedStratifierHitsNothing(table, st);
    StratifiersHitsAppend(table, a, [st]);
    StratifiersHitsAppend(table, a + [st], b);
    StratifiersHitsAppend(table, a, b);
  }
}
