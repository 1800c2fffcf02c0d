/**
 * `get_avail_sum_for_all_children` (elastic_availability_generator.py,
 * lines 28-35): a node's own availability plus the recursive sums of its
 * children, in order.
 *
 * The code looks every child up with `[]` and recurses without a visited
 * set, so it raises KeyError on a missing child and never terminates on a
 * cycle. The sum is therefore defined only for trees in which every child is
 * present and a rank strictly decreases from parent to child.
 */
module Aggregation {
  import opened Ontology

  /** Every node is ranked, every child is a key, and every child ranks below its parent. */
  ghost predicate Ranked(nodes: map<string, Node>, rank: map<string, nat>) {
    forall id :: id in nodes ==>
      && id in rank
      && forall c :: c in nodes[id].children ==> c in nodes && c in rank && rank[c] < rank[id]
  }

  /** The children ids `ids` are keys and rank below `bound`. */
  ghost predicate RankedBelow(nodes: map<string, Node>, rank: map<string, nat>, ids: seq<string>, bound: nat) {
    forall c :: c in ids ==> c in nodes && c in rank && rank[c] < bound
  }

  /** The aggregate of `id`: its own availability plus the aggregates of its children. */
  ghost function Sum(nodes: map<string, Node>, rank: map<string, nat>, id: string): int
    requires Ranked(nodes, rank) && id in nodes
    decreases rank[id], 1
  {
    nodes[id].availability + SumAll(nodes, rank, nodes[id].children, rank[id])
  }

  /** The aggregates of `ids`, added up left to right. */
  ghost function SumAll(nodes: map<string, Node>, rank: map<string, nat>, ids: seq<string>, bound: nat): int
    requires Ranked(nodes, rank) && RankedBelow(nodes, rank, ids, bound)
    decreases bound, 0, |ids|
  {
    if ids == [] then 0
    else SumAll(nodes, rank, ids[..|ids| - 1], bound) + Sum(nodes, rank, ids[|ids| - 1])
  }

  /** The aggregate does not depend on which rank witnesses acyclicity. */
  lemma {:induction false} SumRankIndependent(nodes: map<string, Node>, r1: map<string, nat>, r2: map<string, nat>, id: string)
    requires Ranked(nodes, r1) && Ranked(nodes, r2) && id in nodes
    ensures Sum(nodes, r1, id) == Sum(nodes, r2, id)
    decreases r1[id], 1
  {
    SumAllRankIndependent(nodes, r1, r2, nodes[id].children, r1[id], r2[id]);
  }

  lemma {:induction false} SumAllRankIndependent(nodes: map<string, Node>, r1: map<string, nat>, r2: map<string, nat>,
                                                 ids: seq<string>, b1: nat, b2: nat)
    requires Ranked(nodes, r1) && Ranked(nodes, r2)
    requires RankedBelow(nodes, r1, ids, b1) && RankedBelow(nodes, r2, ids, b2)
    ensures SumAll(nodes, r1, ids, b1) == SumAll(nodes, r2, ids, b2)
    decreases b1, 0, |ids|
  {
    if ids != [] {
      SumAllRankIndependent(nodes, r1, r2, ids[..|ids| - 1], b1, b2);
      SumRankIndependent(nodes, r1, r2, ids[|ids| - 1]);
    }
  }

  /** No availability is negative. */
  ghost predicate NonNegative(nodes: map<string, Node>) {
    forall id :: id in nodes ==> nodes[id].availability >= 0
  }

  /** With non-negative availabilities, a node's aggregate is at least its own availability and at least each child's aggregate. */
  lemma {:induction false} SumAtLeastOwn(nodes: map<string, Node>, rank: map<string, nat>, id: string)
    requires Ranked(nodes, rank) && id in nodes && NonNegative(nodes)
    ensures Sum(nodes, rank, id) >= nodes[id].availability >= 0
    ensures forall c :: c in nodes[id].children ==> Sum(nodes, rank, id) >= Sum(nodes, rank, c)
    decreases rank[id], 1
  {
    SumAllAtLeastEach(nodes, rank, nodes[id].children, rank[id]);
  }

  lemma {:induction false} SumAllAtLeastEach(nodes: map<string, Node>, rank: map<string, nat>, ids: seq<string>, bound: nat)
    requires Ranked(nodes, rank) && RankedBelow(nodes, rank, ids, bound) && NonNegative(nodes)
    ensures SumAll(nodes, rank, ids, bound) >= 0
    ensures forall c :: c in ids ==> SumAll(nodes, rank, ids, bound) >= Sum(nodes, rank, c)
    decreases bound, 0, |ids|
  {
    if ids != [] {
      var pre := ids[..|ids| - 1];
      SumAllAtLeastEach(nodes, rank, pre, bound);
      SumAtLeastOwn(nodes, rank, ids[|ids| - 1]);
      forall c | c in ids ensures SumAll(nodes, rank, ids, bound) >= Sum(nodes, rank, c) {
        if c != ids[|ids| - 1] {
          assert c in pre;
          SumAtLeastOwn(nodes, rank, c);
        }
      }
    }
  }

  /** A leaf's aggregate is its own availability. */
  lemma LeafSum(nodes: map<string, Node>, rank: map<string, nat>, id: string)
    requires Ranked(nodes, rank) && id in nodes && nodes[id].children == []
    ensures Sum(nodes, rank, id) == nodes[id].availability
  {
  }

  /** A parent with own score 5 over a child with own score 3 aggregates to 8. */
  lemma ParentChildSample()
    ensures var nodes := map["A" := Node(5, ["B"]), "B" := Node(3, [])];
            var rank := map["A" := 1, "B" := 0];
            Ranked(nodes, rank) && Sum(nodes, rank, "A") == 8 && Sum(nodes, rank, "B") == 3
  {
    var nodes := map["A" := Node(5, ["B"]), "B" := Node(3, [])];
    var rank := map["A" := 1, "B" := 0];
    assert Ranked(nodes, rank);
    assert ["B"][..0] == [];
    assert Sum(nodes, rank, "B") == 3;
  }

  /** A node shared by two parents counts in full under each of them. */
  lemma SharedChildSample()
    ensures var nodes := map["A" := Node(1, ["C"]), "B" := Node(2, ["C"]), "C" := Node(4, [])];
            var rank := map["A" := 1, "B" := 1, "C" := 0];
            Ranked(nodes, rank) && Sum(nodes, rank, "A") == 5 && Sum(nodes, rank, "B") == 6
  {
    var nodes := map["A" := Node(1, ["C"]), "B" := Node(2, ["C"]), "C" := Node(4, [])];
    var rank := map["A" := 1, "B" := 1, "C" := 0];
    assert Ranked(nodes, rank);
    assert ["C"][..0] == [];
    assert Sum(nodes, rank, "C") == 4;
  }

  /** A rank survives any change that keeps the keys and every node's children. */
  lemma RankedKeepsShape(n1: map<string, Node>, n2: map<string, Node>, rank: map<string, nat>)
    requires Ranked(n1, rank)
    requires n2.Keys == n1.Keys && forall k :: k in n1 ==> n2[k].children == n1[k].children
    ensures Ranked(n2, rank)
  {
  }
}
