/**
 * `__write_es_to_file` (elastic_availability_generator.py, lines 115-136):
 * serialize the inserts one per line into numbered files. After every
 * even-numbered line, a new file is started if the running size of the
 * current file is then above the ceiling; an odd-numbered line that takes
 * the size over the ceiling stays in the file with the line after it.
 *
 * The files are modelled as a sequence of shards, each the sequence of its
 * lines; shard `i` is the file numbered `i + 1`. Sizes are counted in
 * characters, as `len` counts them.
 */
module Shards {

  /** The number of characters in `lines`. */
  function Size(lines: seq<string>): nat
  {
    if lines == [] then 0 else Size(lines[..|lines| - 1]) + |lines[|lines| - 1]|
  }

  /** The shards one after the other. */
  function Concat(shards: seq<seq<string>>): seq<string>
  {
    if shards == [] then [] else Concat(shards[..|shards| - 1]) + shards[|shards| - 1]
  }

  /** One line per item, `dumps(item)` followed by a newline. */
  function Serialized<T>(dumps: T -> string, items: seq<T>): (lines: seq<string>)
    ensures |lines| == |items|
  {
    if items == [] then []
    else Serialized(dumps, items[..|items| - 1]) + [dumps(items[|items| - 1]) + "\n"]
  }

  /** Line `i` is item `i` dumped, followed by a newline. */
  lemma {:induction false} SerializedLines<T>(dumps: T -> string, items: seq<T>)
    ensures forall i :: 0 <= i < |items| ==> Serialized(dumps, items)[i] == dumps(items[i]) + "\n"
    decreases |items|
  {
    if items != [] {
      var pre := items[..|items| - 1];
      SerializedLines(dumps, pre);
      assert forall i :: 0 <= i < |pre| ==> items[i] == pre[i];
    }
  }

  /** The size of the first `j` lines of `s`. */
  function PrefixSize(s: seq<string>, j: nat): nat
    requires j <= |s|
  {
    Size(s[..j])
  }

  /**
   * A shard the writer closed: an even, non-zero number of lines whose size
   * exceeds the ceiling, while no shorter even-length prefix of it did.
   */
  ghost predicate ClosedShard(s: seq<string>, ceiling: int) {
    && |s| >= 2 && |s| % 2 == 0
    && Size(s) > ceiling
    && forall j :: 2 <= j < |s| && j % 2 == 0 ==> PrefixSize(s, j) <= ceiling
  }

  /** The shard still open at the end: no even-length prefix of it exceeds the ceiling. */
  ghost predicate OpenShard(s: seq<string>, ceiling: int) {
    forall j :: 2 <= j <= |s| && j % 2 == 0 ==> PrefixSize(s, j) <= ceiling
  }

  /** `shards` is how the writer splits `lines` under `ceiling`. */
  ghost predicate ProperSplit(shards: seq<seq<string>>, lines: seq<string>, ceiling: int) {
    && |shards| >= 1
    && Concat(shards) == lines
    && (forall i :: 0 <= i < |shards| - 1 ==> ClosedShard(shards[i], ceiling))
    && OpenShard(shards[|shards| - 1], ceiling)
  }

  /** Every shard of `closed` is a closed shard. */
  ghost predicate AllClosed(closed: seq<seq<string>>, ceiling: int) {
    forall i :: 0 <= i < |closed| ==> ClosedShard(closed[i], ceiling)
  }

  /** A split is the closed shards followed by the one open shard. */
  lemma SplitParts(closed: seq<seq<string>>, current: seq<string>, lines: seq<string>, ceiling: int)
    ensures ProperSplit(closed + [current], lines, ceiling)
            <==> Concat(closed) + current == lines && AllClosed(closed, ceiling) && OpenShard(current, ceiling)
  {
    var shards := closed + [current];
    assert shards[..|closed|] == closed;
    assert forall i :: 0 <= i < |closed| ==> shards[i] == closed[i];
  }

  /** One more line leaves the sizes of the earlier prefixes as they were. */
  lemma GrowKeepsPrefixes(current: seq<string>, line: string, ceiling: int)
    requires OpenShard(current, ceiling)
    ensures forall j :: 2 <= j <= |current| && j % 2 == 0 ==> PrefixSize(current + [line], j) <= ceiling
  {
    var grown := current + [line];
    forall j | 2 <= j <= |current| && j % 2 == 0 ensures PrefixSize(grown, j) <= ceiling {
      assert grown[..j] == current[..j];
      assert PrefixSize(current, j) <= ceiling;
    }
  }

  /** One more line adds its length to the size. */
  lemma GrowSize(current: seq<string>, line: string)
    ensures Size(current + [line]) == Size(current) + |line|
    ensures PrefixSize(current + [line], |current| + 1) == Size(current + [line])
  {
    var grown := current + [line];
    assert grown[..|current|] == current;
    assert grown[..|grown|] == grown;
  }

  /** A shard all of whose even prefixes, itself included, fit is open. */
  lemma OpenFromPrefixes(s: seq<string>, n: nat, ceiling: int)
    requires |s| == n + 1
    requires forall j :: 2 <= j <= n && j % 2 == 0 ==> PrefixSize(s, j) <= ceiling
    requires n % 2 == 1 ==> PrefixSize(s, n + 1) <= ceiling
    ensures OpenShard(s, ceiling)
  {
  }

  /** A shard of even length that overflows while its shorter even prefixes fit is closed. */
  lemma ClosedFromPrefixes(s: seq<string>, n: nat, ceiling: int)
    requires |s| == n + 1 && n % 2 == 1 && Size(s) > ceiling
    requires forall j :: 2 <= j <= n && j % 2 == 0 ==> PrefixSize(s, j) <= ceiling
    ensures ClosedShard(s, ceiling)
  {
  }

  /**
   * One more line in the open shard: it closes the shard exactly when the
   * shard then holds an even number of lines and exceeds the ceiling, and
   * otherwise leaves it open.
   */
  lemma GrowOpenShard(current: seq<string>, line: string, ceiling: int)
    requires OpenShard(current, ceiling)
    ensures Size(current + [line]) == Size(current) + |line|
    ensures |current| % 2 == 1 && Size(current + [line]) > ceiling ==> ClosedShard(current + [line], ceiling)
    ensures !(|current| % 2 == 1 && Size(current + [line]) > ceiling) ==> OpenShard(current + [line], ceiling)
  {
    GrowKeepsPrefixes(current, line, ceiling);
    GrowSize(current, line);
    if |current| % 2 == 1 && Size(current + [line]) > ceiling {
      ClosedFromPrefixes(current + [line], |current|, ceiling);
    } else {
      OpenFromPrefixes(current + [line], |current|, ceiling);
    }
  }

  /** Closing a shard appends it to the closed ones. */
  lemma CloseShard(closed: seq<seq<string>>, current: seq<string>, ceiling: int)
    requires AllClosed(closed, ceiling) && ClosedShard(current, ceiling)
    ensures AllClosed(closed + [current], ceiling)
    ensures Concat(closed + [current]) == Concat(closed) + current
  {
    assert (closed + [current])[..|closed|] == closed;
  }

  /** Mid-write: `closed` are the files written, `current` the lines of the open one, `lines` all lines so far. */
  ghost predicate Writing(closed: seq<seq<string>>, current: seq<string>, lines: seq<string>, ceiling: int) {
    Concat(closed) + current == lines && AllClosed(closed, ceiling) && OpenShard(current, ceiling)
  }

  /** Writing one more line: the open file either takes it and stays open, or takes it and is closed. */
  lemma WriteLine(closed: seq<seq<string>>, current: seq<string>, lines: seq<string>, line: string, ceiling: int)
    requires Writing(closed, current, lines, ceiling)
    ensures Size(current + [line]) == Size(current) + |line|
    ensures |current| % 2 == 1 && Size(current + [line]) > ceiling
            ==> Writing(closed + [current + [line]], [], lines + [line], ceiling)
    ensures !(|current| % 2 == 1 && Size(current + [line]) > ceiling)
            ==> Writing(closed, current + [line], lines + [line], ceiling)
  {
    GrowOpenShard(current, line, ceiling);
    var grown := current + [line];
    LinesGrow(Concat(closed), current, lines, line);
    if |current| % 2 == 1 && Size(grown) > ceiling {
      CloseShard(closed, grown, ceiling);
      assert Concat(closed + [grown]) + [] == lines + [line];
    }
  }

  lemma LinesGrow(done: seq<string>, current: seq<string>, lines: seq<string>, line: string)
    requires done + current == lines
    ensures done + (current + [line]) == lines + [line]
  {
  }

  /**
   * Writing the line of item `i`, stated over the writer's old state and
   * its new one: the open file takes the line, and is closed exactly when
   * the running count is even and the running size is over the ceiling,
   * which is when `WriteLine` says the file is complete.
   */
  lemma WroteItem<T>(closed0: seq<seq<string>>, current0: seq<string>, size0: int, count0: int,
                     closed1: seq<seq<string>>, current1: seq<string>, size1: int, count1: int,
                     dumps: T -> string, items: seq<T>, i: nat, ceiling: int)
    requires i < |items| && Writing(closed0, current0, Serialized(dumps, items[..i]), ceiling)
    requires size0 == Size(current0) && count0 % 2 == |current0| % 2 && count1 == count0 + 1
    requires var grown := current0 + [dumps(items[i]) + "\n"];
             var size := size0 + |dumps(items[i]) + "\n"|;
             if size > ceiling && count1 % 2 == 0 then closed1 == closed0 + [grown] && current1 == [] && size1 == 0
             else closed1 == closed0 && current1 == grown && size1 == size
    ensures Writing(closed1, current1, Serialized(dumps, items[..i + 1]), ceiling)
    ensures size1 == Size(current1) && count1 % 2 == |current1| % 2
  {
    var line := dumps(items[i]) + "\n";
    RotationAgrees(current0, line, size0, count0, count1, ceiling);
    WriteLine(closed0, current0, Serialized(dumps, items[..i]), line, ceiling);
    SerializedStep(dumps, items, i);
  }

  /** The writer's counters decide rotation exactly as the file's length and size do. */
  lemma RotationAgrees(current: seq<string>, line: string, size0: int, count0: int, count1: int, ceiling: int)
    requires size0 == Size(current) && count0 % 2 == |current| % 2 && count1 == count0 + 1
    ensures size0 + |line| == Size(current + [line])
    ensures count1 % 2 == |current + [line]| % 2
    ensures (size0 + |line| > ceiling && count1 % 2 == 0) <==> (|current| % 2 == 1 && Size(current + [line]) > ceiling)
  {
    GrowSize(current, line);
  }

  /** Serializing the whole slice is serializing the items. */
  lemma SerializedWhole<T>(dumps: T -> string, items: seq<T>)
    ensures Serialized(dumps, items[..|items|]) == Serialized(dumps, items)
  {
    assert items[..|items|] == items;
  }

  /** Before anything is written, there are no closed files and the open one is empty. */
  lemma StartWriting<T>(dumps: T -> string, items: seq<T>, ceiling: int)
    ensures Writing([], [], Serialized(dumps, items[..0]), ceiling)
  {
    assert items[..0] == [];
  }

  /** Once every item is written, the closed files and the open one split all the lines properly. */
  lemma DoneWriting<T>(closed: seq<seq<string>>, current: seq<string>, lines: seq<string>, dumps: T -> string, items: seq<T>, ceiling: int)
    requires Writing(closed, current, lines, ceiling) && lines == Serialized(dumps, items[..|items|])
    ensures ProperSplit(closed + [current], Serialized(dumps, items), ceiling)
  {
    SerializedWhole(dumps, items);
    SplitParts(closed, current, lines, ceiling);
  }

  /**
   * The writer's loop; `count`, `currentFileSize` and `currentFileSubindex`
   * are the source's counters, `closed` the files already written and
   * `current` the lines of the file still open.
   */
  method WriteShards<T>(inserts: seq<T>, maxFilesizeMb: int, dumps: T -> string) returns (shards: seq<seq<string>>)
    ensures ProperSplit(shards, Serialized(dumps, inserts), maxFilesizeMb * 1024 * 1024)
  {
    var ceiling := maxFilesizeMb * 1024 * 1024;
    var currentFileSubindex := 1;
    var currentFileSize := 0;
    var count := 0;
    var closed: seq<seq<string>> := [];
    var current: seq<string> := [];
    StartWriting(dumps, inserts, ceiling);
    var i := 0;
    while i < |inserts|
      invariant 0 <= i <= |inserts| && count == i
      invariant |closed| + 1 == currentFileSubindex
      invariant Writing(closed, current, Serialized(dumps, inserts[..i]), ceiling)
      invariant currentFileSize == Size(current) && count % 2 == |current| % 2
    {
      ghost var closed0, current0, size0, count0 := closed, current, currentFileSize, count;
      count := count + 1;
      var currentLine := dumps(inserts[i]) + "\n";
      current := current + [currentLine];
      currentFileSize := currentFileSize + |currentLine|;
      if currentFileSize > ceiling && count % 2 == 0 {
        currentFileSubindex := currentFileSubindex + 1;
        currentFileSize := 0;
        closed := closed + [current];
        current := [];
      }
      WroteItem(closed0, current0, size0, count0, closed, current, currentFileSize, count, dumps, inserts, i, ceiling);
      i := i + 1;
    }
    DoneWriting(closed, current, Serialized(dumps, inserts[..i]), dumps, inserts, ceiling);
    shards := closed + [current];
  }

  /** One more item is one more line. */
  lemma SerializedStep<T>(dumps: T -> string, items: seq<T>, i: nat)
    requires i < |items|
    ensures Serialized(dumps, items[..i + 1]) == Serialized(dumps, items[..i]) + [dumps(items[i]) + "\n"]
  {
    assert items[..i + 1][..i] == items[..i];
  }

  lemma {:induction false} SizeAppend(a: seq<string>, b: seq<string>)
    ensures Size(a + b) == Size(a) + Size(b)
    decreases |b|
  {
    if b == [] {
      assert a + b == a;
    } else {
      assert (a + b)[..|a + b| - 1] == a + b[..|b| - 1];
      SizeAppend(a, b[..|b| - 1]);
    }
  }

  /** The shards are the first one followed by the rest. */
  lemma {:induction false} ConcatFirst(shards: seq<seq<string>>)
    requires |shards| >= 1
    ensures Concat(shards) == shards[0] + Concat(shards[1..])
    decreases |shards|
  {
    var n := |shards|;
    if n == 1 {
      assert shards[..0] == [] && shards[1..] == [];
    } else {
      ConcatFirst(shards[..n - 1]);
      assert shards[..n - 1][1..] == shards[1..][..n - 2];
      assert shards[..n - 1][0] == shards[0];
    }
  }

  /**
   * A closed shard that begins another closed or open shard is all of it:
   * a closed shard ends at the first even length that overflows.
   */
  lemma ShortestOverflow(a: seq<string>, b: seq<string>, ceiling: int)
    ensures ClosedShard(a, ceiling) && |a| <= |b| && b[..|a|] == a && (ClosedShard(b, ceiling) || OpenShard(b, ceiling))
            ==> |a| == |b| && ClosedShard(b, ceiling)
  {
    assert b[..|b|] == b;
    if |a| <= |b| && b[..|a|] == a {
      assert PrefixSize(b, |a|) == Size(a);
    }
  }

  /** The shards after the first split what follows the first shard. */
  lemma ProperSplitTail(shards: seq<seq<string>>, lines: seq<string>, ceiling: int)
    requires ProperSplit(shards, lines, ceiling) && |shards| >= 2
    ensures |shards[0]| <= |lines| && ProperSplit(shards[1..], lines[|shards[0]|..], ceiling)
  {
    ConcatFirst(shards);
    assert forall i :: 0 <= i < |shards[1..]| - 1 ==> shards[1..][i] == shards[i + 1];
  }

  /** Two proper splits of the same lines begin with the same shard, and both or neither have more. */
  lemma FirstShardAgrees(s1: seq<seq<string>>, s2: seq<seq<string>>, lines: seq<string>, ceiling: int)
    requires ProperSplit(s1, lines, ceiling) && ProperSplit(s2, lines, ceiling)
    ensures s1[0] == s2[0] && (|s1| == 1 <==> |s2| == 1)
  {
    ConcatFirst(s1);
    ConcatFirst(s2);
    var a, b := s1[0], s2[0];
    assert lines[..|a|] == a && lines[..|b|] == b;
    assert |s1| > 1 ==> ClosedShard(a, ceiling);
    assert |s2| > 1 ==> ClosedShard(b, ceiling);
    if |a| <= |b| {
      assert b[..|a|] == a;
    } else {
      assert a[..|b|] == b;
    }
    ShortestOverflow(a, b, ceiling);
    ShortestOverflow(b, a, ceiling);
    assert a[..|a|] == a && b[..|b|] == b;
    assert PrefixSize(a, |a|) == Size(a) && PrefixSize(b, |b|) == Size(b);
  }

  /** The rules determine the split: at most one split of `lines` is proper. */
  lemma {:induction false} ProperSplitUnique(s1: seq<seq<string>>, s2: seq<seq<string>>, lines: seq<string>, ceiling: int)
    requires ProperSplit(s1, lines, ceiling) && ProperSplit(s2, lines, ceiling)
    ensures s1 == s2
    decreases |s1|
  {
    FirstShardAgrees(s1, s2, lines, ceiling);
    if |s1| == 1 {
      assert s1 == [s1[0]] && s2 == [s2[0]];
    } else {
      ProperSplitTail(s1, lines, ceiling);
      ProperSplitTail(s2, lines, ceiling);
      ProperSplitUnique(s1[1..], s2[1..], lines[|s1[0]|..], ceiling);
      assert s1 == [s1[0]] + s1[1..] && s2 == [s2[0]] + s2[1..];
    }
  }

  /** Output that fits under the ceiling stays in one shard. */
  lemma SingleShard(shards: seq<seq<string>>, lines: seq<string>, ceiling: int)
    requires ProperSplit(shards, lines, ceiling) && Size(lines) <= ceiling
    ensures shards == [lines]
  {
    ConcatFirst(shards);
    SizeAppend(shards[0], Concat(shards[1..]));
    if |shards| > 1 {
      assert false;
    }
    assert shards[1..] == [];
  }

  /** Every shard starts at an even line number, so no update/doc pair straddles two files. */
  lemma {:induction false} ShardsStartEven(shards: seq<seq<string>>, lines: seq<string>, ceiling: int, i: nat)
    requires ProperSplit(shards, lines, ceiling) && i < |shards|
    ensures |Concat(shards[..i])| % 2 == 0
    decreases i
  {
    if i == 0 {
      assert shards[..0] == [];
    } else {
      ShardsStartEven(shards, lines, ceiling, i - 1);
      assert shards[..i][..i - 1] == shards[..i - 1];
      assert ClosedShard(shards[i - 1], ceiling);
    }
  }

  /** A closed shard exceeds the ceiling by no more than its last two lines. */
  lemma ShardOvershoot(shards: seq<seq<string>>, lines: seq<string>, ceiling: int, i: nat)
    requires ProperSplit(shards, lines, ceiling) && i < |shards| - 1 && ceiling >= 0
    ensures var s := shards[i];
            Size(s[..|s| - 2]) <= ceiling < Size(s)
  {
    var s := shards[i];
    assert ClosedShard(s, ceiling);
    if |s| == 2 {
      assert s[..0] == [];
    } else {
      assert PrefixSize(s, |s| - 2) <= ceiling;
    }
  }

  /**
   * A pair of lines whose second line takes the open file over the ceiling
   * closes that file, whatever was written before. When the pair is the last
   * of the output, the split ends with an empty shard.
   */
  lemma TrailingEmptyShard(closed: seq<seq<string>>, current: seq<string>, lines: seq<string>, x: string, y: string, ceiling: int)
    requires Writing(closed, current, lines, ceiling) && |current| % 2 == 0
    requires Size(current + [x, y]) > ceiling
    ensures Writing(closed + [current + [x, y]], [], lines + [x, y], ceiling)
    ensures ProperSplit(closed + [current + [x, y]] + [[]], lines + [x, y], ceiling)
  {
    var current1, lines1 := current + [x], lines + [x];
    PairFirst(closed, current, lines, x, ceiling);
    SnocSnoc(current, x, y);
    SnocSnoc(lines, x, y);
    PairSecond(closed, current1, lines1, y, ceiling);
    EndsClosed(closed + [current + [x, y]], lines + [x, y], ceiling);
  }

  /** Output that stops right after a file was closed ends with an empty file. */
  lemma EndsClosed(closed: seq<seq<string>>, lines: seq<string>, ceiling: int)
    requires Writing(closed, [], lines, ceiling)
    ensures ProperSplit(closed + [[]], lines, ceiling)
  {
    SplitParts(closed, [], lines, ceiling);
  }

  /** The first line of a pair never closes the open file. */
  lemma PairFirst(closed: seq<seq<string>>, current: seq<string>, lines: seq<string>, x: string, ceiling: int)
    requires Writing(closed, current, lines, ceiling) && |current| % 2 == 0
    ensures Writing(closed, current + [x], lines + [x], ceiling)
  {
    WriteLine(closed, current, lines, x, ceiling);
  }

  /** The second line of a pair closes the open file once the file is over the ceiling. */
  lemma PairSecond(closed: seq<seq<string>>, current: seq<string>, lines: seq<string>, y: string, ceiling: int)
    requires Writing(closed, current, lines, ceiling) && |current| % 2 == 1
    requires Size(current + [y]) > ceiling
    ensures Writing(closed + [current + [y]], [], lines + [y], ceiling)
  {
    WriteLine(closed, current, lines, y, ceiling);
  }

  lemma SnocSnoc<T>(s: seq<T>, x: T, y: T)
    ensures s + [x] + [y] == s + [x, y]
  {
  }

  /** The whole output is one pair that overflows the ceiling: the split is that pair and an empty shard, and no other. */
  lemma LonePairOverflow(shards: seq<seq<string>>, x: string, y: string, ceiling: int)
    requires ProperSplit(shards, [x, y], ceiling) && 0 <= ceiling < |x| + |y|
    ensures shards == [[x, y], []]
  {
    var expected := [[x, y], []];
    assert [x, y][..1] == [x] && [x][..0] == [];
    assert Size([x]) == |x|;
    assert Size([x, y]) == |x| + |y|;
    assert expected[..1] == [[x, y]] && [[x, y]][..0] == [];
    assert Concat([[x, y]]) == [x, y];
    assert Concat(expected) == [x, y];
    assert ProperSplit(expected, [x, y], ceiling);
    ProperSplitUnique(shards, expected, [x, y], ceiling);
  }
}
