/** Items queued per source and handed out by weighted round robin. */
module FairQueue {
  import opened MapSums
  import opened Options

  // ----- Walking an ordered map of sources -----

  lemma {:induction false} LeastExists(s: set<int>)
    requires s != {}
    ensures exists k :: k in s && forall j :: j in s ==> k <= j
    decreases |s|
  {
    var x := Pick(s);
    if s != {x} {
      var rest := s - {x};
      assert |rest| < |s|;
      LeastExists(rest);
      var k :| k in rest && forall j :: j in rest ==> k <= j;
      var least := if x < k then x else k;
      assert least in s && forall j :: j in s ==> least <= j by {
        assert forall j :: j in s ==> j == x || j in rest;
      }
    }
  }

  function Least(s: set<int>): (k: int)
    requires s != {}
    ensures k in s && forall j :: j in s ==> k <= j
  {
    LeastExists(s);
    var k :| k in s && forall j :: j in s ==> k <= j;
    k
  }

  function AtOrAfter(keys: set<int>, c: int): set<int> {
    set k | k in keys && k >= c
  }

  function After(keys: set<int>, c: int): set<int> {
    set k | k in keys && k > c
  }

  /** The first key at or after `c`: where a cursor, possibly stale, points. */
  function Anchor(keys: set<int>, cursor: Option<int>): Option<int> {
    if cursor.None? then None else
      var above := AtOrAfter(keys, cursor.value);
      if above == {} then None else Some(Least(above))
  }

  /** One step of the cursor: the key after the one it points to, or the first. */
  function Advanced(keys: set<int>, cursor: Option<int>): (k: int)
    requires keys != {}
    ensures k in keys
  {
    var anchor := Anchor(keys, cursor);
    if anchor.None? then Least(keys) else
      var above := After(keys, anchor.value);
      if above == {} then Least(keys) else Least(above)
  }

  /** The keys a cursor passes on its way, round the ring, to `target`. */
  function Gap(keys: set<int>, cursor: Option<int>, target: int): set<int> {
    var anchor := Anchor(keys, cursor);
    if anchor.None? then set k | k in keys && k < target
    else if anchor.value < target then set k | k in keys && anchor.value < k < target
    else set k | k in keys && (anchor.value < k || k < target)
  }

  /** The source the cursor must stop at: the first non-empty one after it, round the ring. */
  ghost predicate IsNext(keys: set<int>, nonEmpty: set<int>, cursor: Option<int>, target: int) {
    target in nonEmpty && Gap(keys, cursor, target) !! nonEmpty
  }

  lemma AnchorOfKey(keys: set<int>, k: int)
    requires k in keys
    ensures Anchor(keys, Some(k)) == Some(k)
  {
    assert k in AtOrAfter(keys, k);
  }

  /** There is exactly one such source. */
  lemma NextIsUnique(keys: set<int>, nonEmpty: set<int>, cursor: Option<int>, a: int, b: int)
    requires nonEmpty <= keys
    requires IsNext(keys, nonEmpty, cursor, a) && IsNext(keys, nonEmpty, cursor, b)
    ensures a == b
  {
    assert a in keys && b in keys;
    assert a != b ==> a in Gap(keys, cursor, b) || b in Gap(keys, cursor, a);
  }

  /** It is the next one in the order of the keys, or the first one if there is none. */
  lemma NextInKeyOrder(keys: set<int>, nonEmpty: set<int>, cursor: int, target: int)
    requires nonEmpty <= keys && cursor in keys
    ensures IsNext(keys, nonEmpty, Some(cursor), target) <==>
      && target in nonEmpty
      && if exists k :: k in nonEmpty && k > cursor then target > cursor && forall k :: k in nonEmpty && k > cursor ==> target <= k
         else forall k :: k in nonEmpty ==> target <= k
  {
    AnchorOfKey(keys, cursor);
    var gap := Gap(keys, Some(cursor), target);
    if target in nonEmpty {
      assert gap !! nonEmpty <==> forall k :: k in nonEmpty ==> k !in gap;
    }
  }

  /** A step either reaches the target or shortens the way to it. */
  lemma AdvanceTowards(keys: set<int>, cursor: Option<int>, target: int)
    requires target in keys
    ensures
      var k := Advanced(keys, cursor);
      k == target || (k in Gap(keys, cursor, target) && Gap(keys, Some(k), target) == Gap(keys, cursor, target) - {k})
  {
    var k := Advanced(keys, cursor);
    AnchorOfKey(keys, k);
    var anchor := Anchor(keys, cursor);
    if anchor.Some? {
      var above := After(keys, anchor.value);
      assert target > anchor.value ==> target in above;
      assert k in above || (above == {} && k == Least(keys));
    }
    if k != target {
      assert k in Gap(keys, cursor, target);
      forall j ensures j in Gap(keys, Some(k), target) <==> j in Gap(keys, cursor, target) && j != k {
        if anchor.Some? && j in keys {
          assert j > anchor.value ==> j in After(keys, anchor.value);
        }
      }
    }
  }

  lemma {:induction false} NextExists(keys: set<int>, nonEmpty: set<int>, cursor: Option<int>, e: int) returns (target: int)
    requires nonEmpty <= keys && e in nonEmpty
    ensures IsNext(keys, nonEmpty, cursor, target)
    decreases Gap(keys, cursor, e)
  {
    if x :| x in Gap(keys, cursor, e) && x in nonEmpty {
      assert Gap(keys, cursor, x) <= Gap(keys, cursor, e) && x !in Gap(keys, cursor, x);
      target := NextExists(keys, nonEmpty, cursor, x);
    } else {
      target := e;
    }
  }

  // ----- The queue as a value -----

  datatype Entry<T> = Entry(requests: seq<T>, priority: nat, maxSize: nat)

  datatype State<T> = State(queues: map<int, Entry<T>>, cursor: Option<int>, counter: nat) {

    ghost function NonEmpty(): set<int> {
      set k | k in queues && queues[k].requests != []
    }

    ghost function Lengths(): map<int, nat> {
      map k | k in queues :: |queues[k].requests|
    }

    /** What is waiting for a source; an unknown source has nothing waiting. */
    function Waiting(source: int): seq<T> {
      if source in queues then queues[source].requests else []
    }

    predicate ShouldSeek() {
      || cursor.None?
      || cursor.value !in queues
      || queues[cursor.value].requests == []
      || counter >= queues[cursor.value].priority
    }

    /** Whose turn it is. */
    ghost predicate IsTurnOf(source: int) {
      if ShouldSeek() then IsNext(queues.Keys, NonEmpty(), cursor, source) else source == cursor.value
    }

    /** The state after the head of `source` has been handed out. */
    function Served(source: int): State<T>
      requires source in queues && queues[source].requests != []
    {
      var e := queues[source];
      State(queues[source := e.(requests := e.requests[1..])], Some(source), if ShouldSeek() then 1 else counter + 1)
    }

    /** The state after an item has been accepted. */
    function Pushed(source: int, item: T, blank: Entry<T>): State<T> {
      var e := if source in queues then queues[source] else blank;
      this.(queues := queues[source := if |e.requests| < e.maxSize then e.(requests := e.requests + [item]) else e])
    }
  }

  /** The items are handed out in turn, each the head of its source at that moment. */
  ghost predicate AreTurns<T>(st: State<T>, items: seq<(int, T)>) {
    items == [] ||
    (var rest := items[..|items| - 1];
     var (source, item) := items[|items| - 1];
     var now := AfterTurns(st, rest);
     AreTurns(st, rest) && now.IsTurnOf(source) && now.Waiting(source) != [] && now.Waiting(source)[0] == item)
  }

  function AfterTurns<T>(st: State<T>, items: seq<(int, T)>): State<T> {
    if items == [] then st else
      var now := AfterTurns(st, items[..|items| - 1]);
      var source := items[|items| - 1].0;
      if now.Waiting(source) == [] then now else now.Served(source)
  }

  lemma EmptyIffNothingWaits<T>(st: State<T>)
    ensures Sum(st.Lengths()) == 0 <==> st.NonEmpty() == {}
  {
    if st.NonEmpty() == {} {
      forall k | k in st.queues ensures |st.queues[k].requests| == 0 {
        assert k !in st.NonEmpty();
      }
      AllZero(st.Lengths());
    } else {
      var k := Pick(st.NonEmpty());
      SumRemove(st.Lengths(), k);
    }
  }

  class FairQueue<T> {
    var queues: map<int, Entry<T>>
    var currentQueueKey: Option<int>
    const maxSizeQuery: int -> nat
    const priorityQuery: int -> nat
    var counter: nat
    var totalLen: nat

    function View(): State<T>
      reads this
    {
      State(queues, currentQueueKey, counter)
    }

    function FreshEntry(source: int): Entry<T> {
      Entry([], priorityQuery(source), maxSizeQuery(source))
    }

    /** The cached total is the sum of the queue lengths and no queue exceeds the maximum of its source. */
    ghost predicate Valid()
      reads this
    {
      && totalLen == Sum(View().Lengths())
      && forall k :: k in queues ==>
           && |queues[k].requests| <= queues[k].maxSize
           && queues[k].maxSize == maxSizeQuery(k)
           && queues[k].priority == priorityQuery(k)
    }

    constructor (maxSizeQuery: int -> nat, priorityQuery: int -> nat)
      ensures Valid() && View() == State(map[], None, 0)
      ensures this.maxSizeQuery == maxSizeQuery && this.priorityQuery == priorityQuery
    {
      this.maxSizeQuery, this.priorityQuery := maxSizeQuery, priorityQuery;
      queues, currentQueueKey, counter, totalLen := map[], None, 0, 0;
    }

    function FreeCapacity(source: int): (free: nat)
      requires Valid()
      reads this
      ensures free + |View().Waiting(source)| == maxSizeQuery(source)
    {
      if source in queues then queues[source].maxSize - |queues[source].requests| else maxSizeQuery(source)
    }

    /** Empties the queue but leaves the cursor and its counter where they are. */
    method Clear()
      requires Valid()
      modifies this
      ensures Valid() && View() == old(View()).(queues := map[]) && totalLen == 0
    {
      queues, totalLen := map[], 0;
    }

    method Push(source: int, item: T) returns (added: bool)
      requires Valid()
      modifies this
      ensures Valid()
      ensures added == (old(FreeCapacity(source)) > 0)
      ensures View() == old(View()).Pushed(source, item, FreshEntry(source))
      ensures totalLen == old(totalLen) + if added then 1 else 0
    {
      var e := if source in queues then queues[source] else FreshEntry(source);
      added := |e.requests| < e.maxSize;
      var e' := if added then e.(requests := e.requests + [item]) else e;
      SumPut(View().Lengths(), source, |e'.requests|);
      assert View().(queues := queues[source := e']).Lengths() == View().Lengths()[source := |e'.requests|];
      queues := queues[source := e'];
      if added {
        totalLen := totalLen + 1;
      }
    }

    method Remove(key: int)
      requires Valid()
      modifies this
      ensures Valid()
      ensures queues == old(queues) - {key} && counter == old(counter)
      ensures currentQueueKey == if key in old(queues) then None else old(currentQueueKey)
      ensures totalLen == old(totalLen) - |old(View()).Waiting(key)|
    {
      if key in queues {
        SumRemove(View().Lengths(), key);
        assert View().(queues := queues - {key}).Lengths() == View().Lengths() - {key};
        totalLen := totalLen - |queues[key].requests|;
        queues := queues - {key};
        currentQueueKey := None;
      } else {
        assert queues - {key} == queues;
      }
    }

    /** Moves the cursor to the next non-empty source. Ends from any cursor, stale ones included, because something is waiting. */
    method SeekNext()
      requires Valid() && totalLen > 0
      modifies this`currentQueueKey, this`counter
      ensures counter == 0 && currentQueueKey.Some?
      ensures IsNext(queues.Keys, View().NonEmpty(), old(currentQueueKey), currentQueueKey.value)
    {
      EmptyIffNothingWaits(View());
      ghost var keys, nonEmpty := queues.Keys, View().NonEmpty();
      ghost var e := Pick(nonEmpty);
      ghost var target := NextExists(keys, nonEmpty, currentQueueKey, e);
      counter := 0;
      hide Gap, Advanced;
      while true
        invariant counter == 0 && target in nonEmpty && Gap(keys, currentQueueKey, target) !! nonEmpty
        decreases Gap(keys, currentQueueKey, target)
      {
        AdvanceTowards(keys, currentQueueKey, target);
        currentQueueKey := Some(Advanced(queues.Keys, currentQueueKey));
        if queues[currentQueueKey.value].requests != [] {
          return;
        }
      }
    }

    /** Hands out the head of the source whose turn it is. */
    method Next() returns (item: Option<(int, T)>)
      requires Valid()
      modifies this
      ensures Valid()
      ensures old(totalLen) == 0 ==> item.None? && View() == old(View())
      ensures old(totalLen) > 0 ==>
                && item.Some?
                && old(View()).IsTurnOf(item.value.0)
                && item.value.0 in old(View()).NonEmpty()
                && item.value.1 == old(View()).Waiting(item.value.0)[0]
                && View() == old(View()).Served(item.value.0)
                && totalLen == old(totalLen) - 1
    {
      if totalLen == 0 {
        return None;
      }
      if View().ShouldSeek() {
        SeekNext();
      }
      var source := currentQueueKey.value;
      counter := counter + 1;
      var head := PopHead(source);
      item := Some((source, head));
    }

    method PopHead(source: int) returns (head: T)
      requires Valid() && source in queues && queues[source].requests != []
      modifies this`queues, this`totalLen
      ensures Valid() && totalLen == old(totalLen) - 1
      ensures head == old(queues)[source].requests[0]
      ensures queues == old(queues)[source := old(queues)[source].(requests := old(queues)[source].requests[1..])]
    {
      var e := queues[source];
      var e' := e.(requests := e.requests[1..]);
      SumPut(View().Lengths(), source, |e'.requests|);
      assert View().(queues := queues[source := e']).Lengths() == View().Lengths()[source := |e'.requests|];
      head := e.requests[0];
      queues := queues[source := e'];
      totalLen := totalLen - 1;
    }

    method NextBatch(maxCount: nat) returns (result: seq<(int, T)>)
      requires Valid()
      modifies this
      ensures Valid()
      ensures |result| == if old(totalLen) < maxCount then old(totalLen) else maxCount
      ensures totalLen == old(totalLen) - |result|
      ensures AreTurns(old(View()), result) && View() == AfterTurns(old(View()), result)
    {
      result := [];
      var count := if totalLen < maxCount then totalLen else maxCount;
      while |result| < count
        invariant Valid() && |result| <= count && totalLen + |result| == old(totalLen)
        invariant AreTurns(old(View()), result) && View() == AfterTurns(old(View()), result)
      {
        var item := Next();
        assert (result + [item.value])[..|result|] == result;
        result := result + [item.value];
      }
    }
  }
}
