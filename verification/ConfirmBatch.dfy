/** Cementing a batch of confirmation roots and notifying the observer. */
module ConfirmBatch {
  import opened Lattice
  import opened Ledger
  import opened BlockCementer
  import CementingOrder

  type Confirmed = (Hash, Hash)  // a cemented block and the root that was being confirmed

  datatype Event =
    | BatchConfirmed(blocks: seq<Confirmed>)
    | AlreadyConfirmed(root: Hash)
    | CementingFailed(root: Hash)

  class CementingObserver {
    var events: seq<Event>

    constructor ()
      ensures events == []
    {
      events := [];
    }

    method Notify(event: Event)
      modifies this
      ensures events == old(events) + [event]
    {
      events := events + [event];
    }
  }

  function Hashes(s: seq<Confirmed>): (hs: seq<Hash>)
    ensures |hs| == |s|
    ensures forall i :: 0 <= i < |s| ==> hs[i] == s[i].0
  {
    seq(|s|, i requires 0 <= i < |s| => s[i].0)
  }

  function WithRoot(hs: seq<Hash>, root: Hash): (s: seq<Confirmed>)
    ensures Hashes(s) == hs
    ensures forall p :: p in s ==> p.1 == root && p.0 in hs
  {
    var s := seq(|hs|, i requires 0 <= i < |hs| => (hs[i], root));
    assert Hashes(s) == hs;
    s
  }

  /** All blocks handed to the observer, in order, across batches. */
  function Reported(events: seq<Event>): seq<Hash> {
    if events == [] then [] else
      var before := Reported(events[..|events| - 1]);
      var e := events[|events| - 1];
      if e.BatchConfirmed? then before + Hashes(e.blocks) else before
  }

  /** The notifications that are about a root, in order. */
  function Notices(events: seq<Event>): seq<Event> {
    if events == [] then [] else
      var before := Notices(events[..|events| - 1]);
      var e := events[|events| - 1];
      if e.BatchConfirmed? then before else before + [e]
  }

  lemma EventsAppend(events: seq<Event>, e: Event)
    ensures Reported(events + [e]) == if e.BatchConfirmed? then Reported(events) + Hashes(e.blocks) else Reported(events)
    ensures Notices(events + [e]) == if e.BatchConfirmed? then Notices(events) else Notices(events) + [e]
  {
    assert (events + [e])[..|events|] == events;
  }

  /** Every pair names an ancestor of its root. */
  ghost predicate PairsSound(lat: Lattice, s: seq<Confirmed>)
    requires lat.Valid()
  {
    forall p :: p in s ==> p.0 in lat.Ancestors(p.1)
  }

  /** How many blocks one call of the cementer may add. */
  function Bound(maxBlocks: nat): nat {
    if maxBlocks == 0 then 1 else maxBlocks
  }

  /** Batches are not too large, and not empty unless the bound is zero. */
  ghost predicate EventsSound(lat: Lattice, events: seq<Event>, maxBlocks: nat)
    requires lat.Valid()
  {
    forall e :: e in events && e.BatchConfirmed? ==>
      (maxBlocks > 0 ==> |e.blocks| > 0) && |e.blocks| < 2 * Bound(maxBlocks) && PairsSound(lat, e.blocks)
  }

  /** Every batch was handed over because it had reached the bound. */
  predicate FullBatches(events: seq<Event>, maxBlocks: nat) {
    forall e :: e in events && e.BatchConfirmed? ==> |e.blocks| >= maxBlocks
  }

  /** The same, except that the last event may be a smaller batch. */
  predicate FullExceptLast(events: seq<Event>, maxBlocks: nat) {
    forall i :: 0 <= i < |events| - 1 && events[i].BatchConfirmed? ==> |events[i].blocks| >= maxBlocks
  }

  /** Only confirmed roots are noticed as already confirmed. */
  ghost predicate NoticesTrue(t: Tables, events: seq<Event>) {
    forall e :: e in events && e.AlreadyConfirmed? ==> t.Confirmed(e.root)
  }

  // ----- What a batch without interference must achieve -----

  /** A root counts as confirmed before its turn if it was confirmed at the start or depends into an earlier root. */
  ghost predicate ConfirmedBefore(lat: Lattice, start: Tables, batch: seq<Hash>, h: Hash)
    requires lat.Valid()
  {
    start.Confirmed(h) || exists r :: r in batch && r in start.blocks && h in lat.Ancestors(r)
  }

  ghost function ExpectedNotices(lat: Lattice, start: Tables, batch: seq<Hash>): seq<Event>
    requires lat.Valid()
  {
    if batch == [] then [] else
      var earlier := batch[..|batch| - 1];
      var root := batch[|batch| - 1];
      ExpectedNotices(lat, start, earlier) +
      if root !in start.blocks then [CementingFailed(root)]
      else if ConfirmedBefore(lat, start, earlier, root) then [AlreadyConfirmed(root)]
      else []
  }

  /** Exactly the ancestors of the stored roots have become confirmed, and the notices are the expected ones. */
  ghost predicate BatchOutcome(lat: Lattice, start: Tables, end: Tables, batch: seq<Hash>, events: seq<Event>)
    requires lat.Valid()
  {
    && end.blocks == start.blocks
    && (forall h :: end.Confirmed(h) <==> ConfirmedBefore(lat, start, batch, h))
    && Notices(events) == ExpectedNotices(lat, start, batch)
  }

  /** With a bound of zero the cementer gets nowhere with an unconfirmed block that has an unconfirmed dependency. */
  predicate Stuck(lat: Lattice, t: Tables, root: Hash, maxBlocks: nat) {
    maxBlocks == 0 && root in t.blocks && !t.Confirmed(root) && !DependenciesDone(lat, t, root)
  }

  /** The same, by what is confirmed before the turn of root `i`. */
  ghost predicate StuckAt(lat: Lattice, start: Tables, batch: seq<Hash>, i: nat, maxBlocks: nat)
    requires lat.Valid() && i < |batch|
  {
    && maxBlocks == 0 && batch[i] in start.blocks
    && !ConfirmedBefore(lat, start, batch[..i], batch[i])
    && exists d :: d in lat.Dependencies(batch[i]) && !ConfirmedBefore(lat, start, batch[..i], d)
  }

  /** No root of the batch gets stuck. This always holds for a positive bound. */
  ghost predicate Workable(lat: Lattice, start: Tables, batch: seq<Hash>, maxBlocks: nat)
    requires lat.Valid()
  {
    forall i :: 0 <= i < |batch| ==> !StuckAt(lat, start, batch, i, maxBlocks)
  }

  lemma StuckMeans(lat: Lattice, t: Tables, root: Hash, maxBlocks: nat)
    ensures maxBlocks == 0 && root in t.blocks ==>
      (Stuck(lat, t, root, maxBlocks) <==> !t.Confirmed(root) && !DependenciesDone(lat, t, root))
    ensures Stuck(lat, t, root, maxBlocks) ==> maxBlocks == 0 && !t.Confirmed(root) && root in t.blocks
  {
  }

  lemma StuckStays(lat: Lattice, t: Tables, u: Tables, root: Hash, maxBlocks: nat)
    requires Stuck(lat, t, root, maxBlocks) && u.blocks == t.blocks && forall h :: u.Confirmed(h) <==> t.Confirmed(h)
    ensures Stuck(lat, u, root, maxBlocks)
  {
    hide Tables.Confirmed;
  }

  lemma StuckAtItsTurn(lat: Lattice, start: Tables, now: Tables, batch: seq<Hash>, i: nat, events: seq<Event>, maxBlocks: nat)
    requires lat.Valid() && i < |batch| && BatchOutcome(lat, start, now, batch[..i], events)
    ensures Stuck(lat, now, batch[i], maxBlocks) <==> StuckAt(lat, start, batch, i, maxBlocks)
  {
    hide Tables.Confirmed, ConfirmedBefore, Notices, ExpectedNotices;
  }

  /** An account with two blocks, the second on top of the first. All other hashes are accounts of their own. */
  function TwoBlocks(): Lattice {
    Lattice((h: Hash) => if h == 2 then Block(1, 2, 1, (1, ZERO)) else Block(h, 1, ZERO, (ZERO, ZERO)),
            (h: Hash) => if h == 2 then 1 else 0)
  }

  /** An example: neither block is confirmed, the bound is zero and the second block is to be confirmed. With any other bound
      the same batch works. */
  lemma StuckExample(maxBlocks: nat)
    ensures
      var lat := TwoBlocks();
      var start := Tables(map[1 := lat.content(1), 2 := lat.content(2)], map[], 0);
      && Invariant(lat, start)
      && (StuckAt(lat, start, [2], 0, maxBlocks) <==> maxBlocks == 0)
      && (Workable(lat, start, [2], maxBlocks) <==> maxBlocks > 0)
  {
    var lat := TwoBlocks();
    var start := Tables(map[1 := lat.content(1), 2 := lat.content(2)], map[], 0);
    assert start.Heights() == map[];
    assert 1 in lat.Dependencies(2);
    assert [2][..0] == [] && !ConfirmedBefore(lat, start, [], 2) && !ConfirmedBefore(lat, start, [], 1);
  }

  // ----- Bookkeeping between the store, the observer and the blocks not yet reported -----

  /** Everything cemented since `base` has been reported or is waiting to be. */
  predicate Balanced(base: seq<Hash>, cemented: seq<Hash>, events: seq<Event>, waiting: seq<Confirmed>) {
    cemented == base + Reported(events) + Hashes(waiting)
  }

  lemma BalancedAfterCementing(base: seq<Hash>, cemented: seq<Hash>, events: seq<Event>, waiting: seq<Confirmed>,
                               added: seq<Hash>, root: Hash)
    requires Balanced(base, cemented, events, waiting)
    ensures Balanced(base, cemented + added, events, waiting + WithRoot(added, root))
  {
    assert Hashes(waiting + WithRoot(added, root)) == Hashes(waiting) + added;
  }

  lemma BalancedAfterNotice(base: seq<Hash>, cemented: seq<Hash>, events: seq<Event>, waiting: seq<Confirmed>, e: Event)
    requires Balanced(base, cemented, events, waiting)
    requires e.BatchConfirmed? ==> e.blocks == waiting
    ensures Balanced(base, cemented, events + [e], if e.BatchConfirmed? then [] else waiting)
  {
    EventsAppend(events, e);
    if e.BatchConfirmed? {
      hide Reported;
      assert Hashes([]) == [];
      assert base + (Reported(events) + Hashes(waiting)) == base + Reported(events) + Hashes(waiting);
    }
  }

  /** The ledger and the observer at one time. The events of the batch are those after the first `mark`. */
  datatype Moment = Moment(tables: Tables, cemented: seq<Hash>, foreign: nat, heard: seq<Event>, mark: nat) {
    function News(): seq<Event> {
      if mark <= |heard| then heard[mark..] else []
    }
  }

  /** Nothing is undone between two moments. */
  ghost predicate After(m: Moment, n: Moment) {
    && Later(m.tables, n.tables)
    && m.cemented <= n.cemented
    && m.foreign <= n.foreign
    && m.heard <= n.heard
    && m.mark == n.mark
  }

  lemma AfterAfter(m: Moment, n: Moment, o: Moment)
    requires After(m, n) && After(n, o)
    ensures After(m, o)
  {
    hide Tables.Confirmed;
  }

  lemma NewsNext(m: Moment, e: Event)
    requires m.mark <= |m.heard|
    ensures m.(heard := m.heard + [e]).News() == m.News() + [e]
  {
  }

  lemma NewsSince(start: Moment, now: Moment)
    requires After(start, now) && start.mark == |start.heard|
    ensures now.heard == start.heard + now.News()
  {
    hide Later;
  }

  lemma AfterNothing(m: Moment)
    ensures After(m, m)
  {
    hide Tables.Confirmed;
  }

  /** The blocks added between two moments. */
  function Grown(m: Moment, n: Moment): nat {
    if |m.cemented| <= |n.cemented| then |n.cemented| - |m.cemented| else 0
  }

  /** What holds between two steps: little is waiting, everything handed over or waiting is right, and nothing is missing. */
  ghost predicate Books(lat: Lattice, m: Moment, base: seq<Hash>, waiting: seq<Confirmed>, maxBlocks: nat)
    requires lat.Valid()
  {
    && m.mark <= |m.heard|
    && |waiting| < 2 * Bound(maxBlocks)
    && PairsSound(lat, waiting)
    && EventsSound(lat, m.News(), maxBlocks)
    && NoticesTrue(m.tables, m.News())
    && FullBatches(m.News(), maxBlocks)
    && Balanced(base, m.cemented, m.News(), waiting)
  }

  lemma BooksOpen(lat: Lattice, m: Moment, maxBlocks: nat)
    requires lat.Valid() && m.mark == |m.heard|
    ensures Books(lat, m, m.cemented, [], maxBlocks) && m.News() == []
  {
    assert m.cemented + [] + [] == m.cemented;
  }

  lemma BooksMean(lat: Lattice, m: Moment, base: seq<Hash>, waiting: seq<Confirmed>, maxBlocks: nat)
    requires lat.Valid() && Books(lat, m, base, waiting, maxBlocks)
    ensures m.mark <= |m.heard| && |waiting| < 2 * Bound(maxBlocks)
    ensures EventsSound(lat, m.News(), maxBlocks) && NoticesTrue(m.tables, m.News()) && base + Reported(m.News()) <= m.cemented
    ensures FullBatches(m.News(), maxBlocks) && |m.cemented| == |base| + |Reported(m.News())| + |waiting|
  {
    hide EventsSound, NoticesTrue, PairsSound, Reported, FullBatches;
  }

  /** The rest is handed over at the end, if there is one. */
  lemma BooksClose(lat: Lattice, m: Moment, base: seq<Hash>, waiting: seq<Confirmed>, maxBlocks: nat)
    requires lat.Valid() && Books(lat, m, base, waiting, maxBlocks)
    ensures
      var n := if waiting == [] then m else m.(heard := m.heard + [BatchConfirmed(waiting)]);
      && EventsSound(lat, n.News(), maxBlocks) && NoticesTrue(n.tables, n.News()) && FullExceptLast(n.News(), maxBlocks)
      && n.cemented == base + Reported(n.News()) && Notices(n.News()) == Notices(m.News())
  {
    hide Tables.Confirmed, Lattice.Valid, Lattice.Ancestors, Reported, Notices;
    if waiting == [] {
      assert base + Reported(m.News()) + [] == base + Reported(m.News());
    } else {
      EventsAppend(m.News(), BatchConfirmed(waiting));
      NewsNext(m, BatchConfirmed(waiting));
      assert base + (Reported(m.News()) + Hashes(waiting)) == base + Reported(m.News()) + Hashes(waiting);
    }
  }

  /** Others write, and the cementer adds `added` for `root`. */
  lemma BooksAfterCementing(lat: Lattice, m: Moment, n: Moment, base: seq<Hash>, waiting: seq<Confirmed>, maxBlocks: nat,
                            added: seq<Hash>, root: Hash)
    requires lat.Valid() && Books(lat, m, base, waiting, maxBlocks)
    requires Later(m.tables, n.tables) && n.cemented == m.cemented + added && n.heard == m.heard && n.mark == m.mark
    requires added == [] || (|waiting| < Bound(maxBlocks) && |added| <= Bound(maxBlocks))
    requires forall h :: h in added ==> h in lat.Ancestors(root)
    ensures Books(lat, n, base, waiting + WithRoot(added, root), maxBlocks)
  {
    hide Tables.Confirmed, Lattice.Valid, EventsSound, Balanced, Lattice.Ancestors;
    BalancedAfterCementing(base, m.cemented, m.News(), waiting, added, root);
    assert |Hashes(WithRoot(added, root))| == |added|;
  }

  lemma BooksLater(lat: Lattice, m: Moment, n: Moment, base: seq<Hash>, waiting: seq<Confirmed>, maxBlocks: nat)
    requires lat.Valid() && Books(lat, m, base, waiting, maxBlocks)
    requires Later(m.tables, n.tables) && n.cemented == m.cemented && n.heard == m.heard && n.mark == m.mark
    ensures Books(lat, n, base, waiting, maxBlocks)
  {
    hide Tables.Confirmed, Lattice.Valid, EventsSound, Balanced, PairsSound;
  }

  /** Handing over is allowed when the bound is reached. */
  lemma BooksAfterNotice(lat: Lattice, m: Moment, base: seq<Hash>, waiting: seq<Confirmed>, maxBlocks: nat, e: Event)
    requires lat.Valid() && Books(lat, m, base, waiting, maxBlocks)
    requires e.BatchConfirmed? ==> e.blocks == waiting && |waiting| >= maxBlocks
    requires e.AlreadyConfirmed? ==> m.tables.Confirmed(e.root)
    ensures
      var n := m.(heard := m.heard + [e]);
      && n.News() == m.News() + [e]
      && Books(lat, n, base, if e.BatchConfirmed? then [] else waiting, maxBlocks)
  {
    hide Tables.Confirmed, Lattice.Valid, Balanced, Lattice.Ancestors;
    BalancedAfterNotice(base, m.cemented, m.News(), waiting, e);
    assert (m.heard + [e])[m.mark..] == m.heard[m.mark..] + [e];
  }

  lemma NothingUnderConfirmed(lat: Lattice, start: Tables, end: Tables, root: Hash, result: seq<Hash>)
    requires lat.Valid() && ConfirmedClosed(lat, start) && ResultSound(lat, start, end, root, result)
    ensures start.Confirmed(root) ==> result == []
  {
    if start.Confirmed(root) && result != [] {
      assert result[0] in Unconfirmed(lat, start, root);
      AncestorsConfirmed(lat, start, root, result[0]);
    }
  }

  /** Blocks are kept, and only ancestors of the root may become confirmed. */
  ghost predicate OnlyUnder(lat: Lattice, t: Tables, u: Tables, root: Hash)
    requires lat.Valid()
  {
    u.blocks == t.blocks && forall h :: u.Confirmed(h) ==> t.Confirmed(h) || (root in t.blocks && h in lat.Ancestors(root))
  }

  predicate NoticedRoot(before: seq<Event>, after: seq<Event>, root: Hash, already: bool) {
    Notices(after) == if already then Notices(before) + [AlreadyConfirmed(root)] else Notices(before)
  }

  function StillUnconfirmed(t: Tables): set<Hash> {
    set h | h in t.blocks && !t.Confirmed(h)
  }

  function Elements(s: seq<Hash>): set<Hash> {
    set h | h in s
  }

  lemma {:induction false} DistinctSize(s: seq<Hash>)
    requires NoDuplicates(s)
    ensures |Elements(s)| == |s|
  {
    if s != [] {
      DistinctSize(s[1..]);
      assert s[0] !in Elements(s[1..]);
      assert Elements(s) == Elements(s[1..]) + {s[0]};
    }
  }

  /** `n` more blocks are confirmed in `u` than in `t`. */
  predicate FewerUnconfirmed(t: Tables, u: Tables, n: int) {
    |StillUnconfirmed(u)| + n == |StillUnconfirmed(t)|
  }

  /** Cementing moves blocks out of the unconfirmed ones, one for one. */
  lemma CementedOneForOne(t: Tables, u: Tables, added: seq<Hash>)
    requires NoDuplicates(added) && u.blocks == t.blocks
    requires forall h :: h in added ==> h in t.blocks && !t.Confirmed(h)
    requires forall h :: u.Confirmed(h) <==> t.Confirmed(h) || h in added
    ensures FewerUnconfirmed(t, u, |added|)
  {
    hide Tables.Confirmed;
    DistinctSize(added);
    assert StillUnconfirmed(t) == StillUnconfirmed(u) + Elements(added);
    assert StillUnconfirmed(u) !! Elements(added);
  }

  lemma OutcomeOfNothing(lat: Lattice, start: Tables)
    requires lat.Valid()
    ensures BatchOutcome(lat, start, start, [], [])
  {
  }

  lemma OutcomeExtends(lat: Lattice, start: Tables, before: Tables, after: Tables, batch: seq<Hash>, i: nat,
                       events: seq<Event>, events': seq<Event>, success: bool)
    requires Invariant(lat, after) && i < |batch|
    requires BatchOutcome(lat, start, before, batch[..i], events)
    requires Later(before, after) && OnlyUnder(lat, before, after, batch[i])
    requires success == (batch[i] in before.blocks) && (success ==> after.Confirmed(batch[i]))
    requires NoticedRoot(events, events', batch[i], success && before.Confirmed(batch[i]))
    ensures BatchOutcome(lat, start, after, batch[..i + 1], if success then events' else events' + [CementingFailed(batch[i])])
  {
    hide Tables.Confirmed, Lattice.Valid, Lattice.Ancestors, BlocksSound, FrontiersSound;
    var root := batch[i];
    assert batch[..i + 1][..i] == batch[..i];
    forall h ensures after.Confirmed(h) <==> ConfirmedBefore(lat, start, batch[..i + 1], h) {
      ConfirmedBeforeExtends(lat, start, batch, i, h);
      if success && h in lat.Ancestors(root) {
        AncestorsConfirmed(lat, after, root, h);
      }
    }
    EventsAppend(events', CementingFailed(root));
  }

  lemma ConfirmedBeforeExtends(lat: Lattice, start: Tables, batch: seq<Hash>, i: nat, h: Hash)
    requires lat.Valid() && i < |batch|
    ensures ConfirmedBefore(lat, start, batch[..i + 1], h) <==>
            ConfirmedBefore(lat, start, batch[..i], h) || (batch[i] in start.blocks && h in lat.Ancestors(batch[i]))
  {
    hide Tables.Confirmed, Lattice.Valid, Lattice.Ancestors;
    assert batch[..i + 1] == batch[..i] + [batch[i]];
  }

  // ----- The turns over one root without interference -----

  /** What one turn over a root comes to. */
  ghost predicate TurnOutcome(lat: Lattice, m: Moment, n: Moment, root: Hash, missing: bool, success: bool, maxBlocks: nat)
    requires lat.Valid()
  {
    && OnlyUnder(lat, m.tables, n.tables, root)
    && FewerUnconfirmed(m.tables, n.tables, Grown(m, n))
    && missing == (root !in m.tables.blocks)
    && (if missing then !success else success == n.tables.Confirmed(root))
    && (!missing && !success ==> !m.tables.Confirmed(root))
    && (!missing && !success && maxBlocks > 0 ==> Grown(m, n) > 0)
    && (maxBlocks == 0 && !missing ==> success != Stuck(lat, m.tables, root, maxBlocks))
    && (Stuck(lat, m.tables, root, maxBlocks) ==> Stuck(lat, n.tables, root, maxBlocks))
    && NoticedRoot(m.News(), n.News(), root, !missing && m.tables.Confirmed(root))
  }

  /** What one call of the cementer comes to. */
  ghost predicate AttemptOutcome(lat: Lattice, m: Moment, n: Moment, root: Hash, added: seq<Hash>, success: bool, maxBlocks: nat) {
    && n.tables.blocks == m.tables.blocks
    && (forall h :: n.tables.Confirmed(h) <==> m.tables.Confirmed(h) || h in added)
    && FewerUnconfirmed(m.tables, n.tables, |added|)
    && (added == [] <==> m.tables.Confirmed(root) || Stuck(lat, m.tables, root, maxBlocks))
    && (maxBlocks == 0 ==> success != Stuck(lat, m.tables, root, maxBlocks))
    && (Stuck(lat, m.tables, root, maxBlocks) ==> Stuck(lat, n.tables, root, maxBlocks))
    && n.heard == if m.tables.Confirmed(root) then m.heard + [AlreadyConfirmed(root)] else m.heard
  }

  lemma AddedAreAncestors(lat: Lattice, t: Tables, u: Tables, root: Hash, added: seq<Hash>)
    requires lat.Valid() && ResultSound(lat, t, u, root, added)
    ensures forall h :: h in added ==> h in lat.Ancestors(root)
  {
    hide Tables.Confirmed, Lattice.Valid, Lattice.Ancestors;
  }

  lemma QuietAttempt(lat: Lattice, m: Moment, n: Moment, root: Hash, added: seq<Hash>, success: bool, maxBlocks: nat)
    requires Invariant(lat, m.tables) && root in m.tables.blocks
    requires ResultSound(lat, m.tables, n.tables, root, added) && QuietOutcome(lat, m.tables, n.tables, root, maxBlocks, added)
    requires success == n.tables.Confirmed(root)
    requires n.heard == if added == [] && success then m.heard + [AlreadyConfirmed(root)] else m.heard
    ensures AttemptOutcome(lat, m, n, root, added, success, maxBlocks)
  {
    hide Tables.Confirmed, Stuck, Lattice.Valid, StillUnconfirmed, DependenciesDone, BlocksSound, FrontiersSound, ConfirmedClosed,
         InPostOrder, CementingOrder.PostOrder, Lattice.Ancestors;
    NothingUnderConfirmed(lat, m.tables, n.tables, root, added);
    AncestorsStored(lat, m.tables, root);
    StuckMeans(lat, m.tables, root, maxBlocks);
    assert forall h :: h in added ==> h in Unconfirmed(lat, m.tables, root);
    CementedOneForOne(m.tables, n.tables, added);
    if Stuck(lat, m.tables, root, maxBlocks) {
      StuckStays(lat, m.tables, n.tables, root, maxBlocks);
    }
  }

  /** A turn that finds the root: `first` before and `m` after the waiting blocks were handed over. */
  lemma FoundTurn(lat: Lattice, first: Moment, m: Moment, n: Moment, root: Hash, added: seq<Hash>, success: bool, maxBlocks: nat)
    requires lat.Valid() && root in m.tables.blocks && m.mark <= |m.heard| && n.mark == m.mark
    requires m.tables == first.tables && m.cemented == first.cemented && Notices(m.News()) == Notices(first.News())
    requires AttemptOutcome(lat, m, n, root, added, success, maxBlocks)
    requires n.cemented == m.cemented + added && success == n.tables.Confirmed(root)
    requires forall h :: h in added ==> h in lat.Ancestors(root)
    ensures TurnOutcome(lat, first, n, root, false, success, maxBlocks)
  {
    StuckMeans(lat, m.tables, root, maxBlocks);
    EventsAppend(m.News(), AlreadyConfirmed(root));
    assert (m.heard + [AlreadyConfirmed(root)])[m.mark..] == m.heard[m.mark..] + [AlreadyConfirmed(root)];
    hide Tables.Confirmed, Stuck, Lattice.Ancestors, Lattice.Valid, Notices, StillUnconfirmed, DependenciesDone;
  }

  lemma MissingTurn(lat: Lattice, first: Moment, m: Moment, root: Hash, maxBlocks: nat)
    requires lat.Valid() && root !in m.tables.blocks
    requires m.tables == first.tables && m.cemented == first.cemented && Notices(m.News()) == Notices(first.News())
    ensures TurnOutcome(lat, first, m, root, true, false, maxBlocks)
  {
    hide Lattice.Ancestors, Lattice.Valid, Notices, StillUnconfirmed, DependenciesDone;
  }

  /** Where the turns over a root stand after `used` of them. */
  ghost predicate RootProgress(lat: Lattice, first: Moment, now: Moment, root: Hash, used: nat, maxBlocks: nat)
    requires lat.Valid()
  {
    && OnlyUnder(lat, first.tables, now.tables, root)
    && FewerUnconfirmed(first.tables, now.tables, Grown(first, now))
    && Notices(now.News()) == Notices(first.News())
    && (used == 0 ==> now == first)
    && (used > 0 ==> !first.tables.Confirmed(root) && !now.tables.Confirmed(root) && root in now.tables.blocks)
    && (used > 0 && maxBlocks > 0 ==> used <= Grown(first, now))
    && (used > 0 && maxBlocks == 0 ==> Stuck(lat, first.tables, root, maxBlocks) && Stuck(lat, now.tables, root, maxBlocks))
  }

  /** What the turns over a root come to. A root that is stuck is only left when the stop flag is set. */
  ghost predicate RootOutcome(lat: Lattice, first: Moment, now: Moment, root: Hash, used: nat, success: bool, stopped: bool,
                              maxBlocks: nat)
    requires lat.Valid()
  {
    && OnlyUnder(lat, first.tables, now.tables, root)
    && FewerUnconfirmed(first.tables, now.tables, Grown(first, now))
    && (if Stuck(lat, first.tables, root, maxBlocks) then stopped else used <= Grown(first, now) + if stopped then 0 else 1)
    && (!stopped ==> success == (root in first.tables.blocks) && (success ==> now.tables.Confirmed(root)))
    && (!stopped ==> NoticedRoot(first.News(), now.News(), root, success && first.tables.Confirmed(root)))
  }

  lemma RootStarts(lat: Lattice, m: Moment, root: Hash, maxBlocks: nat)
    requires lat.Valid()
    ensures RootProgress(lat, m, m, root, 0, maxBlocks)
  {
  }

  lemma RootGoesOn(lat: Lattice, first: Moment, m: Moment, n: Moment, root: Hash, used: nat, maxBlocks: nat)
    requires lat.Valid() && RootProgress(lat, first, m, root, used, maxBlocks) && After(first, m) && After(m, n)
    requires TurnOutcome(lat, m, n, root, false, false, maxBlocks)
    ensures RootProgress(lat, first, n, root, used + 1, maxBlocks)
  {
    hide Tables.Confirmed, Stuck, Lattice.Ancestors, Lattice.Valid, Notices, StillUnconfirmed, Later;
  }

  lemma RootEnds(lat: Lattice, first: Moment, m: Moment, n: Moment, root: Hash, used: nat, missing: bool, success: bool,
                 maxBlocks: nat)
    requires lat.Valid() && RootProgress(lat, first, m, root, used, maxBlocks) && After(first, m) && After(m, n)
    requires TurnOutcome(lat, m, n, root, missing, success, maxBlocks) && (missing || success)
    ensures RootOutcome(lat, first, n, root, used + 1, success, false, maxBlocks)
  {
    StuckMeans(lat, m.tables, root, maxBlocks);
    StuckMeans(lat, first.tables, root, maxBlocks);
    hide Tables.Confirmed, Stuck, Lattice.Ancestors, Lattice.Valid, Notices, StillUnconfirmed, DependenciesDone, Later;
  }

  lemma RootStops(lat: Lattice, first: Moment, m: Moment, root: Hash, used: nat, maxBlocks: nat)
    requires lat.Valid() && RootProgress(lat, first, m, root, used, maxBlocks)
    ensures RootOutcome(lat, first, m, root, used, false, true, maxBlocks)
  {
    hide Tables.Confirmed, Stuck, Lattice.Ancestors, Lattice.Valid, Notices, StillUnconfirmed;
  }

  // ----- The roots of a batch without interference -----

  /** Where a batch stands after its first `i` roots and `used` turns. */
  ghost predicate BatchProgress(lat: Lattice, start: Moment, now: Moment, batch: seq<Hash>, i: nat, used: nat, maxBlocks: nat)
    requires lat.Valid() && i <= |batch|
  {
    && BatchOutcome(lat, start.tables, now.tables, batch[..i], now.News())
    && used <= Grown(start, now) + i
    && FewerUnconfirmed(start.tables, now.tables, Grown(start, now))
    && forall j :: 0 <= j < i ==> !StuckAt(lat, start.tables, batch, j, maxBlocks)
  }

  lemma BatchStarts(lat: Lattice, m: Moment, batch: seq<Hash>, maxBlocks: nat)
    requires lat.Valid() && m.News() == []
    ensures BatchProgress(lat, m, m, batch, 0, 0, maxBlocks)
  {
    OutcomeOfNothing(lat, m.tables);
    hide BatchOutcome, StuckAt;
    assert batch[..0] == [];
  }

  /** One more root is done; if it failed, that is still to be reported. */
  lemma BatchGoesOn(lat: Lattice, start: Moment, m: Moment, n: Moment, batch: seq<Hash>, i: nat, used: nat, more: nat,
                    success: bool, maxBlocks: nat)
    requires Invariant(lat, n.tables) && i < |batch| && After(start, m) && After(m, n) && n.mark <= |n.heard|
    requires BatchProgress(lat, start, m, batch, i, used, maxBlocks)
    requires RootOutcome(lat, m, n, batch[i], more, success, false, maxBlocks)
    ensures
      var end := if success then n else n.(heard := n.heard + [CementingFailed(batch[i])]);
      BatchProgress(lat, start, end, batch, i + 1, used + more, maxBlocks)
  {
    NewsNext(n, CementingFailed(batch[i]));
    hide Tables.Confirmed, Stuck, StuckAt, Lattice.Ancestors, Lattice.Valid, BatchOutcome, StillUnconfirmed, BlocksSound, FrontiersSound,
         Later, OnlyUnder, NoticedRoot, Notices, Moment.News;
    StuckAtItsTurn(lat, start.tables, m.tables, batch, i, m.News(), maxBlocks);
    OutcomeExtends(lat, start.tables, m.tables, n.tables, batch, i, m.News(), n.News(), success);
  }

  lemma BatchEnds(lat: Lattice, start: Moment, m: Moment, batch: seq<Hash>, used: nat, events: seq<Event>, maxBlocks: nat)
    requires lat.Valid() && BatchProgress(lat, start, m, batch, |batch|, used, maxBlocks) && Notices(events) == Notices(m.News())
    ensures BatchOutcome(lat, start.tables, m.tables, batch, events) && Workable(lat, start.tables, batch, maxBlocks)
  {
    hide Tables.Confirmed, StuckAt, Lattice.Valid, Notices, ConfirmedBefore;
    assert batch[..|batch|] == batch;
  }

  /** A batch that is stopped although no root is stuck has not had enough patience. */
  lemma BatchStops(lat: Lattice, start: Moment, m: Moment, n: Moment, batch: seq<Hash>, i: nat, used: nat, more: nat, maxBlocks: nat)
    requires lat.Valid() && i < |batch| && After(start, m) && After(m, n)
    requires BatchProgress(lat, start, m, batch, i, used, maxBlocks)
    requires RootOutcome(lat, m, n, batch[i], more, false, true, maxBlocks)
    ensures Workable(lat, start.tables, batch, maxBlocks) ==> used + more < |batch| + |StillUnconfirmed(start.tables)|
  {
    hide Tables.Confirmed, Stuck, StuckAt, Lattice.Ancestors, Lattice.Valid, BatchOutcome, OnlyUnder, StillUnconfirmed, Later;
    StuckAtItsTurn(lat, start.tables, m.tables, batch, i, m.News(), maxBlocks);
  }

  class BatchConfirmer {
    const store: LedgerStore
    const cementer: BlockCementer
    const observer: CementingObserver
    ghost var mark: nat  // how many events the observer had when the batch began

    constructor (store: LedgerStore, observer: CementingObserver)
      ensures this.store == store && this.observer == observer && Linked()
    {
      this.store, this.observer, mark := store, observer, 0;
      cementer := new BlockCementer(store);
    }

    predicate Linked() {
      cementer.store == store
    }

    ghost function Now(): Moment
      reads this, store, observer
    {
      Moment(store.View(), store.cemented, store.foreign, observer.events, mark)
    }

    ghost predicate QuietSince(m: Moment)
      reads store
    {
      store.foreign == m.foreign
    }

    /** One call of the cementer for a stored root, with the notification it causes. */
    method Attempt(root: Hash, maxBlocks: nat, waiting: seq<Confirmed>)
      returns (waiting': seq<Confirmed>, success: bool, ghost added: seq<Hash>)
      requires Linked() && store.Valid() && root in store.blocks
      modifies store, observer
      ensures store.Valid() && After(old(Now()), Now())
      ensures success == store.View().Confirmed(root)
      ensures |added| <= Bound(maxBlocks) && waiting' == waiting + WithRoot(added, root)
      ensures store.cemented == old(store.cemented) + added
      ensures forall h :: h in added ==> h in store.lattice.Ancestors(root)
      ensures observer.events == old(observer.events)
              || (observer.events == old(observer.events) + [AlreadyConfirmed(root)] && success)
      ensures QuietSince(old(Now())) ==> AttemptOutcome(store.lattice, old(Now()), Now(), root, added, success, maxBlocks)
    {
      store.ValidMeans();
      ghost var m := Now();
      hide LedgerStore.Valid, Lattice.Valid, Tables.Confirmed, Invariant, Later, QuietOutcome, AttemptOutcome, Lattice.Ancestors;
      var blocks := cementer.Confirm(root, maxBlocks);
      added := blocks;
      waiting' := waiting + WithRoot(blocks, root);
      success := store.IsConfirmed(root);
      if blocks == [] && success {
        observer.Notify(AlreadyConfirmed(root));
      }
      AddedAreAncestors(store.lattice, m.tables, store.View(), root, blocks);
      if QuietSince(m) {
        QuietAttempt(store.lattice, m, Now(), root, blocks, success, maxBlocks);
      }
    }

    /** The bookkeeping that holds whenever control is between two steps. */
    ghost predicate Ready(base: seq<Hash>, waiting: seq<Confirmed>, maxBlocks: nat)
      reads this, store, observer
    {
      Linked() && store.Valid() && Books(store.lattice, Now(), base, waiting, maxBlocks)
    }

    /** The transaction is renewed. */
    method Refresh(maxBlocks: nat, ghost waiting: seq<Confirmed>, ghost base: seq<Hash>)
      requires Ready(base, waiting, maxBlocks)
      modifies store
      ensures Ready(base, waiting, maxBlocks) && After(old(Now()), Now()) && store.cemented == old(store.cemented)
      ensures QuietSince(old(Now())) ==> Now() == old(Now()) && store.blocks == old(store.blocks)
    {
      store.ValidMeans();
      hide Books, LedgerStore.Valid, Lattice.Valid, Tables.Confirmed, Invariant;
      ghost var before := Now();
      store.Refresh();
      BooksLater(store.lattice, before, Now(), base, waiting, maxBlocks);
    }

    method Report(event: Event, maxBlocks: nat, ghost waiting: seq<Confirmed>, ghost base: seq<Hash>)
      requires Ready(base, waiting, maxBlocks) && !event.AlreadyConfirmed?
      requires event.BatchConfirmed? ==> event.blocks == waiting && |waiting| >= maxBlocks
      modifies observer
      ensures Ready(base, if event.BatchConfirmed? then [] else waiting, maxBlocks) && After(old(Now()), Now())
      ensures observer.events == old(observer.events) + [event] && Now().News() == old(Now()).News() + [event]
    {
      store.ValidMeans();
      AfterNothing(Now());
      BooksAfterNotice(store.lattice, Now(), base, waiting, maxBlocks, event);
      hide Books, LedgerStore.Valid, Lattice.Valid, Tables.Confirmed, Invariant;
      observer.Notify(event);
    }

    /** Hands over the waiting blocks exactly when they have reached the bound. The commit lets other transactions write. */
    method FlushIfFull(maxBlocks: nat, waiting: seq<Confirmed>, ghost base: seq<Hash>) returns (waiting': seq<Confirmed>)
      requires Ready(base, waiting, maxBlocks)
      modifies store, observer
      ensures Ready(base, waiting', maxBlocks) && |waiting'| < Bound(maxBlocks) && After(old(Now()), Now())
      ensures if |waiting| >= maxBlocks then waiting' == [] && observer.events == old(observer.events) + [BatchConfirmed(waiting)]
              else waiting' == waiting && Now() == old(Now())
      ensures store.cemented == old(store.cemented)
      ensures Notices(Now().News()) == Notices(old(Now()).News())
      ensures QuietSince(old(Now())) ==> store.View() == old(store.View()) && store.blocks == old(store.blocks)
    {
      hide Books, LedgerStore.Valid, Lattice.Valid, Tables.Confirmed, Invariant, Notices;
      ghost var first := Now();
      AfterNothing(first);
      waiting' := waiting;
      if |waiting| >= maxBlocks {
        EventsAppend(first.News(), BatchConfirmed(waiting));
        Report(BatchConfirmed(waiting), maxBlocks, waiting, base);
        waiting' := [];
        ghost var before := Now();
        Refresh(maxBlocks, waiting', base);
        AfterAfter(first, before, Now());
      }
    }

    /** One turn of the loop over a root: hand over, check that the root still exists, cement. */
    method Turn(root: Hash, maxBlocks: nat, waiting: seq<Confirmed>, ghost base: seq<Hash>)
      returns (waiting': seq<Confirmed>, missing: bool, success: bool)
      requires Ready(base, waiting, maxBlocks)
      modifies store, observer
      ensures Ready(base, waiting', maxBlocks) && After(old(Now()), Now())
      ensures missing ==> root !in store.blocks && !success
      ensures !missing ==> success == store.View().Confirmed(root)
      ensures QuietSince(old(Now())) ==> TurnOutcome(store.lattice, old(Now()), Now(), root, missing, success, maxBlocks)
    {
      store.ValidMeans();
      hide AttemptOutcome, TurnOutcome, Books, LedgerStore.Valid, Lattice.Valid, Lattice.Ancestors, Tables.Confirmed, Invariant, Later,
           Notices, EventsSound, NoticesTrue, Reported;
      ghost var first := Now();
      waiting' := FlushIfFull(maxBlocks, waiting, base);
      missing, success := root !in store.blocks, false;
      ghost var m := Now();
      BooksMean(store.lattice, m, base, waiting', maxBlocks);
      if missing {
        if QuietSince(first) {
          MissingTurn(store.lattice, first, m, root, maxBlocks);
        }
      } else {
        ghost var added;
        ghost var before := waiting';
        waiting', success, added := Attempt(root, maxBlocks, waiting');
        ghost var n := Now().(heard := m.heard);
        BooksAfterCementing(store.lattice, m, n, base, before, maxBlocks, added, root);
        if success {
          BooksAfterNotice(store.lattice, n, base, waiting', maxBlocks, AlreadyConfirmed(root));
        }
        if QuietSince(first) {
          FoundTurn(store.lattice, first, m, Now(), root, added, success, maxBlocks);
        }
        AfterAfter(first, m, Now());
      }
    }

    /** Cements one root, in as many turns as it takes. `patience` is how often the stop flag may still be read before it is
        found set. */
    method ConfirmRoot(root: Hash, maxBlocks: nat, waiting: seq<Confirmed>, patience: nat, ghost base: seq<Hash>)
      returns (waiting': seq<Confirmed>, patience': nat, success: bool, stopped: bool)
      requires Ready(base, waiting, maxBlocks)
      modifies store, observer
      ensures Ready(base, waiting', maxBlocks) && After(old(Now()), Now())
      ensures !stopped ==> if success then store.View().Confirmed(root) else root !in store.blocks
      ensures patience' <= patience && (stopped ==> patience' == 0 && !success)
      ensures QuietSince(old(Now())) ==>
                RootOutcome(store.lattice, old(Now()), Now(), root, patience - patience', success, stopped, maxBlocks)
    {
      store.ValidMeans();
      ghost var first := Now();
      RootStarts(store.lattice, first, root, maxBlocks);
      AfterNothing(first);
      hide Books, LedgerStore.Valid, Lattice.Valid, Tables.Confirmed, Invariant, TurnOutcome, RootOutcome, RootProgress, Later;
      waiting', patience', success, stopped := waiting, patience, false, false;
      while true
        invariant Ready(base, waiting', maxBlocks) && After(first, Now())
        invariant patience' <= patience && !stopped && !success
        invariant QuietSince(first) ==> RootProgress(store.lattice, first, Now(), root, patience - patience', maxBlocks)
        decreases patience'
      {
        ghost var before := Now();
        if * {
          Refresh(maxBlocks, waiting', base);
          AfterAfter(first, before, Now());
        }
        ghost var m, used := Now(), patience - patience';
        if patience' == 0 {
          stopped := true;
          if QuietSince(first) {
            RootStops(store.lattice, first, m, root, used, maxBlocks);
          }
          return;
        }
        patience' := patience' - 1;
        var missing;
        waiting', missing, success := Turn(root, maxBlocks, waiting', base);
        AfterAfter(first, m, Now());
        if missing || success {
          if QuietSince(first) {
            RootEnds(store.lattice, first, m, Now(), root, used, missing, success, maxBlocks);
          }
          return;
        }
        if QuietSince(first) {
          RootGoesOn(store.lattice, first, m, Now(), root, used, maxBlocks);
        }
      }
    }

    /** One root of a batch, with the notice of failure it may cause. */
    method ConfirmNext(batch: seq<Hash>, i: nat, maxBlocks: nat, waiting: seq<Confirmed>, left: nat,
                       ghost base: seq<Hash>, ghost start: Moment, ghost used: nat)
      returns (waiting': seq<Confirmed>, left': nat, stopped: bool)
      requires i < |batch| && Ready(base, waiting, maxBlocks) && After(start, Now())
      requires QuietSince(start) ==> BatchProgress(store.lattice, start, Now(), batch, i, used, maxBlocks)
      modifies store, observer
      ensures Ready(base, waiting', maxBlocks) && After(start, Now())
      ensures left' <= left && (stopped ==> left' == 0)
      ensures QuietSince(start) && !stopped ==>
                BatchProgress(store.lattice, start, Now(), batch, i + 1, used + left - left', maxBlocks)
      ensures QuietSince(start) && stopped && Workable(store.lattice, start.tables, batch, maxBlocks) ==>
                used + left < |batch| + |StillUnconfirmed(start.tables)|
    {
      hide Books, BatchProgress, Tables.Confirmed, Lattice.Valid, Invariant, LedgerStore.Valid, RootOutcome, Workable, Later,
           Notices, EventsSound, NoticesTrue, Reported, FullBatches, Moment.News;
      store.ValidMeans();
      ghost var m := Now();
      var success;
      waiting', left', success, stopped := ConfirmRoot(batch[i], maxBlocks, waiting, left, base);
      ghost var n := Now();
      AfterAfter(start, m, n);
      BooksMean(store.lattice, n, base, waiting', maxBlocks);
      store.ValidMeans();
      if stopped {
        if QuietSince(start) {
          BatchStops(store.lattice, start, m, n, batch, i, used, left - left', maxBlocks);
        }
        return;
      }
      if QuietSince(start) {
        BatchGoesOn(store.lattice, start, m, n, batch, i, used, left - left', success, maxBlocks);
      }
      if !success {
        Report(CementingFailed(batch[i]), maxBlocks, waiting', base);
        AfterAfter(start, n, Now());
      }
    }

    method ReportRest(maxBlocks: nat, waiting: seq<Confirmed>, ghost base: seq<Hash>)
      requires Ready(base, waiting, maxBlocks)
      modifies observer
      ensures Linked() && store.Valid() && After(old(Now()), Now()) && Notices(Now().News()) == Notices(old(Now()).News())
      ensures EventsSound(store.lattice, Now().News(), maxBlocks) && NoticesTrue(store.View(), Now().News())
      ensures FullExceptLast(Now().News(), maxBlocks) && store.cemented == base + Reported(Now().News())
    {
      store.ValidMeans();
      AfterNothing(Now());
      BooksClose(store.lattice, Now(), base, waiting, maxBlocks);
      hide Books, LedgerStore.Valid, Lattice.Valid, Tables.Confirmed, Invariant, Notices, EventsSound, NoticesTrue, FullExceptLast, Reported;
      if waiting != [] {
        observer.Notify(BatchConfirmed(waiting));
      }
    }

    /** Confirms every root of a batch, in order. When the stop flag is found set the blocks not yet reported are dropped. */
    method ConfirmAll(batch: seq<Hash>, maxBlocks: nat, patience: nat) returns (stopped: bool, ghost news: seq<Event>)
      requires Linked() && store.Valid()
      modifies this`mark, store, observer
      ensures observer.events == old(observer.events) + news
      ensures store.Valid() && Later(old(store.View()), store.View())
      ensures EventsSound(store.lattice, news, maxBlocks) && NoticesTrue(store.View(), news)
      // Blocks are handed over when they reach the bound, and what is left at the end
      ensures if stopped then FullBatches(news, maxBlocks) else FullExceptLast(news, maxBlocks)
      // Each block cemented by this call is reported exactly once and in cementing order
      ensures old(store.cemented) + Reported(news) <= store.cemented
      ensures !stopped ==> store.cemented == old(store.cemented) + Reported(news)
      ensures |store.cemented| < |old(store.cemented)| + |Reported(news)| + 2 * Bound(maxBlocks)
      ensures store.foreign >= old(store.foreign)
      // Without interference
      ensures store.foreign == old(store.foreign) ==>
                && (!stopped ==> BatchOutcome(store.lattice, old(store.View()), store.View(), batch, news))
                && (!Workable(store.lattice, old(store.View()), batch, maxBlocks) ==> stopped)
                && (Workable(store.lattice, old(store.View()), batch, maxBlocks) ==>
                    patience >= |batch| + |StillUnconfirmed(old(store.View()))| ==> !stopped)
    {
      store.ValidMeans();
      mark := |observer.events|;
      ghost var start, base := Now(), store.cemented;
      var waiting: seq<Confirmed>, left: nat := [], patience;
      BooksOpen(store.lattice, start, maxBlocks);
      BatchStarts(store.lattice, start, batch, maxBlocks);
      AfterNothing(start);
      hide Books, BatchProgress, BatchOutcome, Tables.Confirmed, Lattice.Valid, Invariant, LedgerStore.Valid, Workable, EventsSound,
           NoticesTrue, Reported, Notices, StillUnconfirmed, Moment.News, FullBatches, FullExceptLast;
      for i := 0 to |batch|
        invariant Ready(base, waiting, maxBlocks) && After(start, Now()) && left <= patience
        invariant QuietSince(start) ==> BatchProgress(store.lattice, start, Now(), batch, i, patience - left, maxBlocks)
      {
        ghost var used := patience - left;
        waiting, left, stopped := ConfirmNext(batch, i, maxBlocks, waiting, left, base, start, used);
        if stopped {
          BooksMean(store.lattice, Now(), base, waiting, maxBlocks);
          NewsSince(start, Now());
          news := Now().News();
          return;
        }
      }
      stopped := false;
      ghost var m := Now();
      ReportRest(maxBlocks, waiting, base);
      AfterAfter(start, m, Now());
      NewsSince(start, Now());
      news := Now().News();
      if QuietSince(start) {
        BatchEnds(store.lattice, start, m, batch, patience - left, news, maxBlocks);
      }
    }
  }
}
