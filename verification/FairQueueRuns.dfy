/** Whole runs of the fair queue: order per source, and a bound on how long a source waits. */
module FairQueueRuns {
  import opened MapSums
  import opened Options
  import opened FairQueue

  datatype Op<T> = Push(source: int, item: T) | Pop

  lemma TurnExists<T>(st: State<T>) returns (source: int)
    requires st.NonEmpty() != {}
    ensures st.IsTurnOf(source) && source in st.NonEmpty()
  {
    if st.ShouldSeek() {
      var e := Pick(st.NonEmpty());
      source := NextExists(st.queues.Keys, st.NonEmpty(), st.cursor, e);
    } else {
      source := st.cursor.value;
    }
  }

  /** The source that is served next. */
  ghost function Turn<T>(st: State<T>): (source: int)
    requires st.NonEmpty() != {}
    ensures st.IsTurnOf(source) && source in st.NonEmpty()
  {
    assert exists source :: st.IsTurnOf(source) && source in st.NonEmpty() by {
      var source := TurnExists(st);
    }
    var source :| st.IsTurnOf(source) && source in st.NonEmpty();
    source
  }

  /** Nobody else's turn can be meant. */
  lemma TurnIsUnique<T>(st: State<T>, source: int)
    requires source in st.NonEmpty() && st.IsTurnOf(source)
    ensures source == Turn(st)
  {
    if st.ShouldSeek() {
      NextIsUnique(st.queues.Keys, st.NonEmpty(), st.cursor, source, Turn(st));
    }
  }

  ghost function Step<T>(st: State<T>, op: Op<T>, blank: int -> Entry<T>): State<T> {
    match op
    case Push(source, item) => st.Pushed(source, item, blank(source))
    case Pop => if st.NonEmpty() == {} then st else st.Served(Turn(st))
  }

  ghost function Run<T>(st: State<T>, ops: seq<Op<T>>, blank: int -> Entry<T>): State<T> {
    if ops == [] then st else Step(Run(st, ops[..|ops| - 1], blank), ops[|ops| - 1], blank)
  }

  // ----- Order: each source is a bounded first-in first-out queue -----

  /** The items of one source that a run accepts. */
  ghost function Accepted<T>(st: State<T>, ops: seq<Op<T>>, blank: int -> Entry<T>, s: int): seq<T> {
    if ops == [] then [] else
      var before := Accepted(st, ops[..|ops| - 1], blank, s);
      var now := Run(st, ops[..|ops| - 1], blank);
      var op := ops[|ops| - 1];
      if op.Push? && op.source == s && Fits(now, s, blank) then before + [op.item] else before
  }

  predicate Fits<T>(st: State<T>, s: int, blank: int -> Entry<T>) {
    var e := if s in st.queues then st.queues[s] else blank(s);
    |e.requests| < e.maxSize
  }

  /** The items of one source that a run hands out. */
  ghost function HandedOut<T>(st: State<T>, ops: seq<Op<T>>, blank: int -> Entry<T>, s: int): seq<T> {
    if ops == [] then [] else
      var before := HandedOut(st, ops[..|ops| - 1], blank, s);
      var now := Run(st, ops[..|ops| - 1], blank);
      if ops[|ops| - 1].Pop? && now.NonEmpty() != {} && Turn(now) == s then before + [now.Waiting(s)[0]] else before
  }

  /** The items of one source among items of all sources. */
  function ItemsOf<T>(items: seq<(int, T)>, s: int): seq<T> {
    if items == [] then [] else
      var (source, item) := items[|items| - 1];
      ItemsOf(items[..|items| - 1], s) + if source == s then [item] else []
  }

  lemma ItemsOfNext<T>(items: seq<(int, T)>, item: (int, T), s: int)
    ensures ItemsOf(items + [item], s) == ItemsOf(items, s) + if item.0 == s then [item.1] else []
  {
    assert (items + [item])[..|items|] == items;
  }

  /** One operation on the queue itself. */
  method Perform<T>(queue: FairQueue<T>, op: Op<T>) returns (items: seq<(int, T)>)
    requires queue.Valid()
    modifies queue
    ensures queue.Valid() && queue.View() == Step(old(queue.View()), op, queue.FreshEntry)
    ensures
      var before := old(queue.View());
      if op.Pop? && before.NonEmpty() != {} then items == [(Turn(before), before.Waiting(Turn(before))[0])] else items == []
  {
    items := [];
    EmptyIffNothingWaits(queue.View());
    match op {
      case Push(source, item) =>
        var _ := queue.Push(source, item);
      case Pop =>
        ghost var before := queue.View();
        var item := queue.Next();
        if item.Some? {
          TurnIsUnique(before, item.value.0);
          items := [item.value];
        }
    }
  }

  /** Whatever is done to a queue follows the run, and each source gets what the run hands out for it. */
  method Replay<T>(queue: FairQueue<T>, ops: seq<Op<T>>) returns (items: seq<(int, T)>)
    requires queue.Valid()
    modifies queue
    ensures queue.Valid() && queue.View() == Run(old(queue.View()), ops, queue.FreshEntry)
    ensures forall s :: ItemsOf(items, s) == HandedOut(old(queue.View()), ops, queue.FreshEntry, s)
  {
    items := [];
    ghost var start := queue.View();
    for i := 0 to |ops|
      invariant queue.Valid() && queue.View() == Run(start, ops[..i], queue.FreshEntry)
      invariant forall s :: ItemsOf(items, s) == HandedOut(start, ops[..i], queue.FreshEntry, s)
    {
      hide FairQueue.Valid, Step;
      assert ops[..i + 1][..i] == ops[..i];
      ghost var before := items;
      var more := Perform(queue, ops[i]);
      if more != [] {
        forall s ensures ItemsOf(before + more, s) == ItemsOf(before, s) + if more[0].0 == s then [more[0].1] else [] {
          ItemsOfNext(before, more[0], s);
        }
      }
      items := items + more;
      assert more == [] ==> items == before;
    }
    assert ops[..|ops|] == ops;
  }

  lemma JoinsTheEnd<T>(given: seq<T>, waiting: seq<T>, first: seq<T>, accepted: seq<T>, item: T)
    requires given + waiting == first + accepted
    ensures given + (waiting + [item]) == first + (accepted + [item])
  {
    assert given + (waiting + [item]) == (given + waiting) + [item];
  }

  lemma HeadLeaves<T>(given: seq<T>, waiting: seq<T>)
    requires waiting != []
    ensures (given + [waiting[0]]) + waiting[1..] == given + waiting
  {
  }

  /** What has been handed out followed by what still waits is what waited at first followed by what was accepted. */
  lemma {:induction false} FirstInFirstOut<T>(st: State<T>, ops: seq<Op<T>>, blank: int -> Entry<T>, s: int)
    requires forall k :: blank(k).requests == []
    ensures HandedOut(st, ops, blank, s) + Run(st, ops, blank).Waiting(s) == st.Waiting(s) + Accepted(st, ops, blank, s)
  {
    if ops != [] {
      var rest := ops[..|ops| - 1];
      var op := ops[|ops| - 1];
      FirstInFirstOut(st, rest, blank, s);
      var now := Run(st, rest, blank);
      if op.Push? && op.source == s {
        assert blank(s).requests == [];
        JoinsTheEnd(HandedOut(st, rest, blank, s), now.Waiting(s), st.Waiting(s), Accepted(st, rest, blank, s), op.item);
      } else if op.Pop? && now.NonEmpty() != {} && Turn(now) == s {
        HeadLeaves(HandedOut(st, rest, blank, s), now.Waiting(s));
      }
    }
  }

  // ----- Fairness -----

  /** How many items in a row a source gets. */
  function Weight<T>(e: Entry<T>): nat {
    if e.priority == 0 then 1 else e.priority
  }

  ghost function Weights<T>(st: State<T>): map<int, nat> {
    map k | k in st.queues :: Weight(st.queues[k])
  }

  ghost function WeightOf<T>(st: State<T>, keys: set<int>): nat {
    Sum(Part(Weights(st), keys))
  }

  /** The cursor's source has not used up its turns. */
  predicate Holding<T>(st: State<T>) {
    && st.cursor.Some?
    && st.cursor.value in st.queues
    && st.counter < st.queues[st.cursor.value].priority
  }

  /** At most this many pops go to others before `s` is served. */
  ghost function Patience<T>(st: State<T>, s: int): nat {
    if !Holding(st) then WeightOf(st, Gap(st.queues.Keys, st.cursor, s))
    else if st.cursor.value == s then 0
    else st.queues[st.cursor.value].priority - st.counter + WeightOf(st, Gap(st.queues.Keys, st.cursor, s))
  }

  lemma WeightOfRemoves<T>(st: State<T>, keys: set<int>, k: int)
    requires k in keys && k in st.queues
    ensures WeightOf(st, keys) == Weights(st)[k] + WeightOf(st, keys - {k})
  {
    SumRemove(Part(Weights(st), keys), k);
    assert Part(Weights(st), keys) - {k} == Part(Weights(st), keys - {k});
  }

  lemma WeightOfMonotone<T>(st: State<T>, small: set<int>, big: set<int>)
    requires small <= big
    ensures WeightOf(st, small) <= WeightOf(st, big)
  {
    SumMonotone(Part(Weights(st), small), Part(Weights(st), big));
  }

  /** The patience of a source never exceeds the weight of all the others. */
  lemma PatienceIsBounded<T>(st: State<T>, s: int)
    ensures Patience(st, s) <= WeightOf(st, st.queues.Keys - {s})
  {
    var gap := Gap(st.queues.Keys, st.cursor, s);
    if Holding(st) && st.cursor.value != s {
      var c := st.cursor.value;
      AnchorOfKey(st.queues.Keys, c);
      WeightOfRemoves(st, gap + {c}, c);
      assert gap + {c} - {c} == gap;
      WeightOfMonotone(st, gap + {c}, st.queues.Keys - {s});
    } else {
      WeightOfMonotone(st, gap, st.queues.Keys - {s});
    }
  }

  /** A pop that does not serve a waiting source brings its turn closer. */
  lemma PopUsesPatience<T>(st: State<T>, s: int)
    requires s in st.NonEmpty() && Turn(st) != s
    ensures Patience(st.Served(Turn(st)), s) < Patience(st, s)
    ensures s in st.Served(Turn(st)).NonEmpty()
  {
    var k := Turn(st);
    var keys := st.queues.Keys;
    var after := st.Served(k);
    assert after.queues.Keys == keys && Weights(after) == Weights(st);
    AnchorOfKey(keys, k);
    if st.ShouldSeek() {
      var gap := Gap(keys, st.cursor, s);
      assert k !in gap ==> s in Gap(keys, st.cursor, k);
      assert Gap(keys, Some(k), s) <= gap - {k};
      WeightOfMonotone(st, Gap(keys, Some(k), s), gap - {k});
      WeightOfRemoves(st, gap, k);
    }
  }

  /** Pushing to a known source changes nobody's patience. */
  lemma PushKeepsPatience<T>(st: State<T>, source: int, item: T, blank: Entry<T>, s: int)
    requires source in st.queues
    ensures Patience(st.Pushed(source, item, blank), s) == Patience(st, s)
    ensures s in st.NonEmpty() ==> s in st.Pushed(source, item, blank).NonEmpty()
  {
    var after := st.Pushed(source, item, blank);
    assert after.queues.Keys == st.queues.Keys && Weights(after) == Weights(st);
  }

  ghost predicate ServedIn<T>(st: State<T>, ops: seq<Op<T>>, blank: int -> Entry<T>, s: int) {
    ops != [] &&
    (var rest := ops[..|ops| - 1];
     var now := Run(st, rest, blank);
     ServedIn(st, rest, blank, s) || (ops[|ops| - 1].Pop? && now.NonEmpty() != {} && Turn(now) == s))
  }

  function Pops<T>(ops: seq<Op<T>>): nat {
    if ops == [] then 0 else Pops(ops[..|ops| - 1]) + if ops[|ops| - 1].Pop? then 1 else 0
  }

  ghost predicate KnownSources<T>(st: State<T>, ops: seq<Op<T>>) {
    forall op :: op in ops && op.Push? ==> op.source in st.queues
  }

  lemma {:induction false} UnservedUsesPatience<T>(st: State<T>, ops: seq<Op<T>>, blank: int -> Entry<T>, s: int)
    requires s in st.NonEmpty() && KnownSources(st, ops) && !ServedIn(st, ops, blank, s)
    ensures
      var end := Run(st, ops, blank);
      end.queues.Keys == st.queues.Keys && s in end.NonEmpty() && Patience(end, s) + Pops(ops) <= Patience(st, s)
  {
    if ops != [] {
      var rest := ops[..|ops| - 1];
      var op := ops[|ops| - 1];
      UnservedUsesPatience(st, rest, blank, s);
      var now := Run(st, rest, blank);
      if op.Push? {
        PushKeepsPatience(now, op.source, op.item, blank(op.source), s);
      } else {
        PopUsesPatience(now, s);
      }
    }
  }

  /** Fairness: from any state, stale cursors included, whatever is pushed to the known sources meanwhile,
      a waiting source is served before more pops have gone to others than the others' weights allow. */
  lemma WaitingSourceIsServed<T>(st: State<T>, ops: seq<Op<T>>, blank: int -> Entry<T>, s: int)
    requires s in st.NonEmpty() && KnownSources(st, ops)
    requires Pops(ops) > WeightOf(st, st.queues.Keys - {s})
    ensures ServedIn(st, ops, blank, s)
  {
    if !ServedIn(st, ops, blank, s) {
      UnservedUsesPatience(st, ops, blank, s);
      PatienceIsBounded(st, s);
    }
  }

  // ----- Weights -----

  /** Every pop among the operations hands out an item of `s`. */
  ghost predicate AllGoTo<T>(st: State<T>, ops: seq<Op<T>>, blank: int -> Entry<T>, s: int) {
    forall i :: 0 <= i < |ops| && ops[i].Pop? ==>
      var now := Run(st, ops[..i], blank);
      now.NonEmpty() != {} && Turn(now) == s
  }

  /** `s` has got `n` items in a row since its turn began; `stock` of them were there at the beginning. */
  ghost predicate InItsTurn<T>(st: State<T>, s: int, n: nat, weight: nat, stock: nat) {
    && st.cursor == Some(s) && st.counter == n && s in st.queues && Weight(st.queues[s]) == weight
    && |st.queues[s].requests| + n >= stock
  }

  /** The turn of a source begins with the first pop. */
  lemma TurnBegins<T>(st: State<T>, s: int)
    requires st.NonEmpty() != {} && Turn(st) == s && st.ShouldSeek()
    ensures InItsTurn(st.Served(s), s, 1, Weight(st.queues[s]), |st.Waiting(s)|)
  {
  }

  /** It goes on with every further pop, whatever is pushed in between, until the weight is used up or nothing is left. */
  lemma TurnGoesOn<T>(st: State<T>, op: Op<T>, blank: int -> Entry<T>, s: int, n: nat, weight: nat, stock: nat)
    requires InItsTurn(st, s, n, weight, stock) && n > 0 && (op.Pop? ==> n < weight && n < stock)
    ensures op.Pop? ==> st.NonEmpty() != {} && Turn(st) == s
    ensures InItsTurn(Step(st, op, blank), s, if op.Pop? then n + 1 else n, weight, stock)
  {
    if op.Pop? {
      assert s in st.NonEmpty();
    }
  }

  /** Weighted round robin: a source whose turn begins gets as many items in a row as its weight says, or all that wait for it
      if these are fewer, whatever is pushed to whichever source meanwhile. */
  lemma {:induction false} GetsItsWeight<T>(st: State<T>, ops: seq<Op<T>>, blank: int -> Entry<T>, s: int)
    requires st.NonEmpty() != {} && Turn(st) == s && st.ShouldSeek()
    requires Pops(ops) <= Weight(st.queues[s]) && Pops(ops) <= |st.Waiting(s)|
    requires ops != [] && ops[0].Pop?
    ensures AllGoTo(st, ops, blank, s)
    ensures InItsTurn(Run(st, ops, blank), s, Pops(ops), Weight(st.queues[s]), |st.Waiting(s)|) && Pops(ops) > 0
  {
    var n := |ops| - 1;
    var rest, weight, stock := ops[..n], Weight(st.queues[s]), |st.Waiting(s)|;
    assert Run(st, [], blank) == st && Pops<T>([]) == 0;
    if n == 0 {
      assert ops[..0] == [];
      TurnBegins(st, s);
    } else {
      GetsItsWeight(st, rest, blank, s);
      hide InItsTurn, Step, Weight;
      TurnGoesOn(Run(st, rest, blank), ops[n], blank, s, Pops(rest), weight, stock);
      forall i | 0 <= i < |ops| && ops[i].Pop?
        ensures var now := Run(st, ops[..i], blank); now.NonEmpty() != {} && Turn(now) == s
      {
        if i < n {
          assert rest[..i] == ops[..i] && rest[i] == ops[i];
        }
      }
    }
  }

  /** When its weight is used up and somebody else waits, the next pop goes to somebody else. */
  lemma ThenOthersFollow<T>(st: State<T>, s: int, weight: nat, stock: nat, other: int)
    requires InItsTurn(st, s, weight, weight, stock) && other in st.NonEmpty() && other != s
    ensures Turn(st) != s
  {
    assert st.ShouldSeek();
    AnchorOfKey(st.queues.Keys, s);
    assert other in Gap(st.queues.Keys, st.cursor, s);
  }
}
