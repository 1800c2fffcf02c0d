/**
 * The ontology tree and its loader, `get_hashed_tree`
 * (elastic_availability_generator.py, lines 41-65).
 *
 * The tree is a Python dict from hash id to {availability, children}; it is
 * modelled with its key order, since the documents are later emitted in
 * dict iteration order.
 */
module Ontology {
  import opened Wrappers
  import opened Strings

  /** One tree entry: its own availability and the ids of its children, in order. */
  datatype Node = Node(availability: int, children: seq<string>)

  /** A Python dict from id to node: the entries and the insertion order of their keys. */
  datatype Tree = Tree(nodes: map<string, Node>, order: seq<string>) {
    /** The order lists every key exactly once. */
    predicate Valid() {
      && (forall k :: k in nodes ==> k in order)
      && (forall i :: 0 <= i < |order| ==> order[i] in nodes)
      && (forall i, j :: 0 <= i < j < |order| ==> order[i] != order[j])
    }
  }

  const EmptyTree: Tree := Tree(map[], [])

  /** `d[k] = n`: a new key goes to the end of the order, an existing key keeps its place. */
  function Put(t: Tree, k: string, n: Node): (r: Tree)
    ensures t.Valid() ==> r.Valid()
    ensures k in r.nodes && r.nodes[k] == n
    ensures forall j :: j != k ==> (j in r.nodes <==> j in t.nodes)
    ensures forall j :: j != k && j in t.nodes ==> r.nodes[j] == t.nodes[j]
    ensures t.Valid() && k in t.nodes ==> r.order == t.order
    ensures k !in t.nodes ==> r.order == t.order + [k]
  {
    Tree(t.nodes[k := n], if k in t.nodes then t.order else t.order + [k])
  }

  /** Writing a key twice leaves only the second write. */
  lemma PutTwice(t: Tree, k: string, a: Node, b: Node)
    requires t.Valid()
    ensures Put(Put(t, k, a), k, b) == Put(t, k, b)
  {
    var t1 := Put(t, k, a);
    assert t1.nodes[k := b] == t.nodes[k := b];
  }

  /** A sequence without repeats has as many distinct elements as positions. */
  lemma {:induction false} DistinctCount(s: seq<string>)
    requires forall i, j :: 0 <= i < j < |s| ==> s[i] != s[j]
    ensures |set x | x in s| == |s|
    decreases |s|
  {
    if s != [] {
      var n := |s|;
      var pre := s[..n - 1];
      DistinctCount(pre);
      assert (set x | x in s) == (set x | x in pre) + {s[n - 1]};
      assert s[n - 1] !in (set x | x in pre);
    }
  }

  /** The number of entries is the length of the key order. */
  lemma OrderCountsKeys(t: Tree)
    requires t.Valid()
    ensures |t.nodes| == |t.order|
  {
    DistinctCount(t.order);
    assert t.nodes.Keys == set x | x in t.order;
  }

  /** One non-blank line of an ontology file: an index record or a body record. */
  datatype Line = Blank | Index(id: string) | Body(children: seq<string>)

  /** An ontology file, as found by the directory listing. */
  datatype OntologyFile = OntologyFile(name: string, lines: seq<Line>)

  /** The loop state: the tree so far and `cur_hash`, which is unbound until the first index record. */
  datatype LoadState = LoadState(tree: Tree, cur: Option<string>)

  /** Only file names containing this marker are read. */
  const OntologyMarker: string := "onto_es__ontology"

  /** One line: blank lines are skipped, an index record sets `cur_hash`, a body record writes `tree[cur_hash]`. */
  function Step(s: LoadState, line: Line): (r: Option<LoadState>)
    ensures r.None? <==> line.Body? && s.cur.None?
  {
    match line
    case Blank => Some(s)
    case Index(id) => Some(s.(cur := Some(id)))
    case Body(children) =>
      if s.cur.None? then None
      else Some(s.(tree := Put(s.tree, s.cur.value, Node(0, children))))
  }

  /** The lines in order; `None` when a body record comes before any index record (an unbound `cur_hash`). */
  function LoadLines(s: LoadState, lines: seq<Line>): Option<LoadState>
  {
    if lines == [] then Some(s)
    else match LoadLines(s, lines[..|lines| - 1])
      case None => None
      case Some(s') => Step(s', lines[|lines| - 1])
  }

  /** Loading one more line is one more step. */
  lemma LoadSnoc(s: LoadState, lines: seq<Line>, line: Line)
    ensures LoadLines(s, lines + [line]) == match LoadLines(s, lines)
                                            case None => None
                                            case Some(s') => Step(s', line)
  {
    assert (lines + [line])[..|lines|] == lines;
  }

  /** The lines of the files whose name holds the marker, in listing order. */
  function SelectedLines(files: seq<OntologyFile>): seq<Line>
  {
    if files == [] then []
    else
      var f := files[|files| - 1];
      SelectedLines(files[..|files| - 1]) + (if Contains(f.name, OntologyMarker) then f.lines else [])
  }

  /** The selected lines of two listings one after the other. */
  lemma {:induction false} SelectedLinesAppend(a: seq<OntologyFile>, b: seq<OntologyFile>)
    ensures SelectedLines(a + b) == SelectedLines(a) + SelectedLines(b)
    decreases |b|
  {
    if b == [] {
      assert a + b == a;
    } else {
      assert (a + b)[..|a + b| - 1] == a + b[..|b| - 1];
      assert (a + b)[|a + b| - 1] == b[|b| - 1];
      SelectedLinesAppend(a, b[..|b| - 1]);
    }
  }

  /** Loading `a + b` is loading `a`, then `b` from where `a` left off, `cur_hash` included. */
  lemma {:induction false} LoadAppend(s: LoadState, a: seq<Line>, b: seq<Line>)
    ensures LoadLines(s, a + b) == match LoadLines(s, a)
                                   case None => None
                                   case Some(s') => LoadLines(s', b)
    decreases |b|
  {
    if b == [] {
      assert a + b == a;
    } else {
      var n := |b|;
      assert (a + b)[..|a + b| - 1] == a + b[..n - 1];
      assert (a + b)[|a + b| - 1] == b[n - 1];
      LoadAppend(s, a, b[..n - 1]);
    }
  }

  /** Some body record precedes every index record. */
  predicate OrphanBody(lines: seq<Line>) {
    exists i :: 0 <= i < |lines| && lines[i].Body? && NoIndexBefore(lines, i)
  }

  predicate NoIndexBefore(lines: seq<Line>, i: int)
    requires 0 <= i <= |lines|
  {
    forall j :: 0 <= j < i ==> !lines[j].Index?
  }

  /**
   * Starting with `cur_hash` unbound, the load fails exactly when a body
   * record comes before any index record; until the first index record the
   * tree is untouched.
   */
  lemma {:induction false} LoadFailsIff(s: LoadState, lines: seq<Line>)
    requires s.cur.None?
    ensures LoadLines(s, lines).None? <==> OrphanBody(lines)
    ensures LoadLines(s, lines).Some? ==>
              (LoadLines(s, lines).value.cur.None? <==> NoIndexBefore(lines, |lines|))
    ensures LoadLines(s, lines).Some? && LoadLines(s, lines).value.cur.None? ==>
              LoadLines(s, lines).value.tree == s.tree
    decreases |lines|
  {
    if lines != [] {
      var n := |lines|;
      var pre := lines[..n - 1];
      LoadFailsIff(s, pre);
      assert forall i :: 0 <= i < n - 1 ==> pre[i] == lines[i];
      if OrphanBody(pre) {
        var i :| 0 <= i < |pre| && pre[i].Body? && NoIndexBefore(pre, i);
        assert lines[i].Body? && NoIndexBefore(lines, i);
      }
      assert forall i :: 0 <= i < n - 1 ==> (NoIndexBefore(pre, i) <==> NoIndexBefore(lines, i));
      if LoadLines(s, pre).Some? && lines[n - 1].Body? && LoadLines(s, pre).value.cur.None? {
        assert NoIndexBefore(lines, n - 1);
      }
    }
  }

  /**
   * A successful load keeps the dict valid, keeps every key and its place in
   * the order, and every entry it writes has availability 0.
   */
  lemma {:induction false} LoadKeepsEntries(s: LoadState, lines: seq<Line>)
    requires s.tree.Valid()
    requires LoadLines(s, lines).Some?
    ensures var t := LoadLines(s, lines).value.tree;
            && t.Valid()
            && s.tree.order <= t.order
            && (forall k :: k in s.tree.nodes ==> k in t.nodes)
            && (forall k :: k in t.nodes ==>
                  (k in s.tree.nodes && t.nodes[k] == s.tree.nodes[k]) || t.nodes[k].availability == 0)
    decreases |lines|
  {
    if lines != [] {
      LoadKeepsEntries(s, lines[..|lines| - 1]);
    }
  }

  /**
   * `cur_hash` carries over between files: a selected file that starts with
   * a body record writes it to the last index id of the files before it.
   */
  lemma CurCarriesOver(s0: LoadState, files: seq<OntologyFile>, f: OntologyFile, k: string,
                       s: LoadState, children: seq<string>, rest: seq<Line>)
    requires LoadLines(s0, SelectedLines(files)) == Some(s) && s.cur == Some(k)
    requires Contains(f.name, OntologyMarker) && f.lines == [Body(children)] + rest
    ensures LoadLines(s0, SelectedLines(files + [f]))
         == LoadLines(LoadState(Put(s.tree, k, Node(0, children)), Some(k)), rest)
  {
    assert (files + [f])[..|files|] == files;
    LoadAppend(s0, SelectedLines(files), f.lines);
    LoadAppend(s, [Body(children)], rest);
    assert [Body(children)][..0] == [];
  }

  /**
   * Lines that never index `k` and whose body records all follow an index
   * record leave the entry of `k` alone, starting from a bound `cur_hash`;
   * `cur_hash` stays `k` only while no index record has been read.
   */
  lemma {:induction false} EntryUntouched(s: LoadState, c: seq<Line>, k: string, n: Node)
    requires s.cur.Some? && k in s.tree.nodes && s.tree.nodes[k] == n
    requires forall i :: 0 <= i < |c| ==> c[i] != Index(k)
    requires s.cur == Some(k) ==> !OrphanBody(c)
    ensures LoadLines(s, c).Some?
    ensures var r := LoadLines(s, c).value;
            && r.cur.Some? && k in r.tree.nodes && r.tree.nodes[k] == n
            && (r.cur == Some(k) ==> s.cur == Some(k) && NoIndexBefore(c, |c|))
    decreases |c|
  {
    if c != [] {
      var m := |c|;
      var pre := c[..m - 1];
      assert forall i :: 0 <= i < m - 1 ==> pre[i] == c[i];
      assert forall i :: 0 <= i < m - 1 ==> (NoIndexBefore(pre, i) <==> NoIndexBefore(c, i));
      EntryUntouched(s, pre, k, n);
      var r := LoadLines(s, pre).value;
      if r.cur == Some(k) {
        assert NoIndexBefore(c, m - 1);
        assert !(NoIndexBefore(c, m - 1) && c[m - 1].Body?);
      }
    }
  }

  /**
   * An id keeps the children of its last body record: after `Index(k)` and
   * `Body(b)`, any records that do not index `k` again and write no body
   * before their first index record leave `k` mapped to `Node(0, b)`.
   */
  lemma LastWriteWins(s: LoadState, a: seq<Line>, k: string, b: seq<string>, c: seq<Line>)
    requires forall i :: 0 <= i < |c| ==> c[i] != Index(k)
    requires !OrphanBody(c)
    ensures LoadLines(s, a + [Index(k), Body(b)] + c).Some? <==> LoadLines(s, a).Some?
    ensures LoadLines(s, a + [Index(k), Body(b)] + c).Some? ==>
              var t := LoadLines(s, a + [Index(k), Body(b)] + c).value.tree;
              k in t.nodes && t.nodes[k] == Node(0, b)
  {
    var w := [Index(k), Body(b)];
    LoadAppend(s, a + w, c);
    LoadAppend(s, a, w);
    if LoadLines(s, a).Some? {
      var sa := LoadLines(s, a).value;
      LoadPair(sa, k, b);
      EntryUntouched(LoadState(Put(sa.tree, k, Node(0, b)), Some(k)), c, k, Node(0, b));
    }
  }

  /** An index record followed by its body record writes the body under that id. */
  lemma LoadPair(s: LoadState, k: string, children: seq<string>)
    ensures LoadLines(s, [Index(k), Body(children)]) == Some(LoadState(Put(s.tree, k, Node(0, children)), Some(k)))
  {
    assert [Index(k)] + [Body(children)] == [Index(k), Body(children)];
    assert [] + [Index(k)] == [Index(k)];
    LoadSnoc(s, [], Index(k));
    LoadSnoc(s, [Index(k)], Body(children));
  }

  /** Two back-to-back writes of one id: the second replaces the first and the id keeps its place in the order. */
  lemma BackToBackWrites(s: LoadState, k: string, a: seq<string>, b: seq<string>)
    requires s.tree.Valid()
    ensures LoadLines(s, [Index(k), Body(a), Index(k), Body(b)])
         == Some(LoadState(Put(s.tree, k, Node(0, b)), Some(k)))
  {
    var first := LoadState(Put(s.tree, k, Node(0, a)), Some(k));
    LoadPair(s, k, a);
    LoadPair(first, k, b);
    assert [Index(k), Body(a)] + [Index(k), Body(b)] == [Index(k), Body(a), Index(k), Body(b)];
    LoadAppend(s, [Index(k), Body(a)], [Index(k), Body(b)]);
    PutTwice(s.tree, k, Node(0, a), Node(0, b));
  }
}
