/** The parallel traversal of a table keyed by 256-bit numbers, and the counter that is rebuilt with it at start-up. */
module KeyRanges {
  import opened MapSums
  import BlockCementer

  const MAX_U256: nat := 0xffff_ffff_ffff_ffff_ffff_ffff_ffff_ffff_ffff_ffff_ffff_ffff_ffff_ffff_ffff_ffff

  datatype Split = Split(start: nat, end: nat, isLast: bool) {
    predicate Covers(key: nat) {
      start <= key && (isLast || key < end)
    }
  }

  predicate IsThread(threadCount: nat, i: nat) {
    i < threadCount
  }

  function SplitFor(threadCount: nat, i: nat): Split
    requires i < threadCount
  {
    var split := MAX_U256 / threadCount;
    Split(split * i, split * (i + 1), i == threadCount - 1)
  }

  lemma Monotone(a: nat, b: nat, c: nat)
    requires a <= b
    ensures a * c <= b * c
  {
  }

  /** The bounds stay within 256 bits. */
  lemma BoundsFit(threadCount: nat, i: nat)
    requires i < threadCount
    ensures SplitFor(threadCount, i).start <= SplitFor(threadCount, i).end <= MAX_U256
  {
    var split := MAX_U256 / threadCount;
    Monotone(i + 1, threadCount, split);
    assert split * threadCount <= MAX_U256;
    assert split * (i + 1) == split * i + split;
  }

  /** The ranges but the last share the 256-bit keys evenly. */
  lemma EvenRanges(threadCount: nat, i: nat)
    requires i < threadCount
    ensures
      var split := SplitFor(threadCount, i);
      var two64 := 0x1_0000_0000_0000_0000;
      split.end - split.start == (two64 * two64 * two64 * two64 - 1) / threadCount
  {
    var split := MAX_U256 / threadCount;
    assert split * (i + 1) == split * i + split;
  }

  /** The thread whose range a key falls into. */
  function ThreadOf(threadCount: nat, key: nat): (i: nat)
    requires threadCount > 0
    ensures i < threadCount
  {
    var split := MAX_U256 / threadCount;
    if split == 0 || key / split >= threadCount then threadCount - 1 else key / split
  }

  lemma Between(split: nat, i: nat, key: nat)
    requires split > 0
    ensures split * i <= key < split * (i + 1) <==> i == key / split
  {
    var q := key / split;
    assert split * q <= key < split * q + split;
    assert split * (q + 1) == split * q + split;
    if i < q {
      Monotone(i + 1, q, split);
    } else if i > q {
      Monotone(q + 1, i, split);
    }
  }

  lemma AtLeast(split: nat, i: nat, key: nat)
    requires split > 0
    ensures split * i <= key <==> i <= key / split
  {
    var q := key / split;
    assert split * q <= key < split * q + split;
    if i <= q {
      Monotone(i, q, split);
    } else {
      Monotone(q + 1, i, split);
      assert split * (q + 1) == split * q + split;
    }
  }

  /** For every thread count the ranges cover every key exactly once. */
  lemma ExactlyOneRange(threadCount: nat, key: nat, i: nat)
    requires i < threadCount
    ensures SplitFor(threadCount, i).Covers(key) <==> i == ThreadOf(threadCount, key)
  {
    var split := MAX_U256 / threadCount;
    if split > 0 {
      Between(split, i, key);
      AtLeast(split, i, key);
    }
  }

  function KeysIn<V>(m: map<nat, V>, s: Split): set<nat> {
    set k | k in m && s.Covers(k)
  }

  /** What one thread adds up: the heights of the accounts in its range. */
  method SumOfRange(heights: map<nat, nat>, s: Split) returns (sum: nat)
    ensures sum == Sum(Part(heights, KeysIn(heights, s)))
  {
    sum := 0;
    var left := KeysIn(heights, s);
    ghost var all := left;
    assert Part(heights, {}) == map[];
    while left != {}
      invariant left <= all
      invariant sum == Sum(Part(heights, all - left))
      decreases left
    {
      var k :| k in left;
      ghost var done := all - left;
      sum := sum + heights[k];
      left := left - {k};
      assert all - left == done + {k};
      SumRemove(Part(heights, done + {k}), k);
      assert Part(heights, done + {k}) - {k} == Part(heights, done);
    }
    assert all - {} == all;
  }

  /** The counter rebuilt at start-up: each thread adds its sum, in whatever order the threads finish. */
  method Recount(heights: map<nat, nat>, threadCount: nat) returns (total: nat)
    requires threadCount > 0
    ensures total == Sum(heights)
  {
    total := 0;
    var running := set i | 0 <= i < threadCount && IsThread(threadCount, i);
    ghost var counted: set<nat> := {};
    assert Part(heights, {}) == map[];
    while running != {}
      invariant forall i :: i in running ==> 0 <= i < threadCount
      invariant counted == set k | k in heights && ThreadOf(threadCount, k) !in running
      invariant total == Sum(Part(heights, counted))
      decreases running
    {
      var i :| i in running;
      var s := SplitFor(threadCount, i);
      var sum := SumOfRange(heights, s);
      total := total + sum;
      running := running - {i};
      ghost var mine := KeysIn(heights, s);
      forall k | k in heights ensures k in mine <==> ThreadOf(threadCount, k) == i {
        ExactlyOneRange(threadCount, k, i);
      }
      AddPart(heights, counted, mine);
      counted := counted + mine;
    }
    assert counted == heights.Keys;
    assert Part(heights, heights.Keys) == heights;
  }

  lemma AddPart(heights: map<nat, nat>, a: set<nat>, b: set<nat>)
    requires a !! b
    ensures Sum(Part(heights, a + b)) == Sum(Part(heights, a)) + Sum(Part(heights, b))
  {
    assert Part(heights, a + b) == Part(heights, a) + Part(heights, b);
    SumDisjoint(Part(heights, a), Part(heights, b));
  }

  /** The counter rebuilt at start-up equals the one that cementing has maintained,
      after any run of writes and for every thread count. */
  method RebuildConfirmedCount(store: BlockCementer.LedgerStore, threadCount: nat) returns (total: nat)
    requires store.Valid() && threadCount > 0
    ensures total == store.confirmedCount
  {
    total := Recount(store.View().Heights(), threadCount);
  }
}
