/** The store shared by all transactions, and the depth-first cementing walk over it. */
module BlockCementer {
  import opened Lattice
  import opened Ledger
  import opened CementingOrder

  /** The LMDB tables and the cached counter. `history` records every committed write since `origin`. */
  class LedgerStore {
    const lattice: Lattice
    var blocks: map<Hash, Block>
    var confirmationHeight: map<Account, ConfirmationHeightInfo>
    var confirmedCount: nat
    ghost const origin: Tables
    ghost var history: seq<Write>
    ghost var cemented: seq<Hash>  // what the thread under study cemented, in order
    ghost var foreign: nat         // the number of writes by other transactions

    function View(): Tables
      reads this
    {
      Tables(blocks, confirmationHeight, confirmedCount)
    }

    /** The tables are what the recorded writes made of `origin`, and they are sound. */
    ghost predicate Valid()
      reads this
    {
      && Invariant(lattice, origin)
      && EnabledRun(lattice, origin, history)
      && View() == PerformRun(lattice, origin, history)
      && Invariant(lattice, View())
      && cemented == OwnCemented(history)
      && foreign == ForeignWrites(history)
    }

    constructor (lattice: Lattice, t: Tables)
      requires Invariant(lattice, t)
      ensures Valid() && View() == t && cemented == [] && foreign == 0 && this.lattice == lattice
    {
      this.lattice := lattice;
      blocks, confirmationHeight, confirmedCount := t.blocks, t.confirmationHeight, t.confirmedCount;
      origin, history, cemented, foreign := t, [], [], 0;
    }

    lemma ValidMeans()
      requires Valid()
      ensures Invariant(lattice, View()) && lattice.Valid()
    {
    }

    method IsConfirmed(hash: Hash) returns (yes: bool)
      ensures yes == View().Confirmed(hash)
    {
      if hash !in blocks {
        return false;
      }
      var account := blocks[hash].account;
      if account !in confirmationHeight {
        return false;
      }
      return blocks[hash].height <= confirmationHeight[account].height;
    }

    /** Writes the confirmation height and increments the cached counter. */
    method Cement(hash: Hash)
      requires Valid() && Enabled(lattice, View(), Op.Cement(hash))
      modifies this
      ensures Valid()
      ensures View() == Perform(lattice, old(View()), Op.Cement(hash))
      ensures blocks == old(blocks)
      ensures cemented == old(cemented) + [hash] && foreign == old(foreign)
      ensures forall h :: View().Confirmed(h) <==> old(View()).Confirmed(h) || h == hash
    {
      CementConfirmsOneBlock(lattice, View(), hash);
      PerformKeepsInvariant(lattice, View(), Op.Cement(hash));
      assert blocks[hash] == lattice.content(hash);
      hide Invariant, Enabled, Tables.Confirmed, Lattice.Valid;
      var block := blocks[hash];
      confirmationHeight := confirmationHeight[block.account := ConfirmationHeightInfo(block.height, hash)];
      confirmedCount := confirmedCount + 1;
      history := history + [Write(true, Op.Cement(hash))];
      cemented := cemented + [hash];
    }

    /** Commits the transaction and starts a new one. In between, other transactions
        may make any number of enabled writes. */
    method Refresh()
      requires Valid()
      modifies this
      ensures Valid()
      ensures Later(old(View()), View())
      ensures cemented == old(cemented)
      ensures foreign >= old(foreign)
      ensures foreign == old(foreign) ==> View() == old(View()) && blocks == old(blocks)
    {
      var n: nat :| true;
      for i := 0 to n
        invariant Valid()
        invariant Later(old(View()), View())
        invariant cemented == old(cemented)
        invariant foreign == old(foreign) + i
        invariant i == 0 ==> View() == old(View())
      {
        OtherTransaction();
      }
    }

    method OtherTransaction()
      requires Valid()
      modifies this
      ensures Valid()
      ensures Later(old(View()), View())
      ensures cemented == old(cemented) && foreign == old(foreign) + 1
    {
      assert Enabled(lattice, View(), RollBack({}));
      var op: Op :| Enabled(lattice, View(), op);
      PerformKeepsInvariant(lattice, View(), op);
      var next := Perform(lattice, View(), op);
      blocks, confirmationHeight, confirmedCount := next.blocks, next.confirmationHeight, next.confirmedCount;
      history := history + [Write(false, op)];
      foreign := foreign + 1;
    }
  }

  // ----- The measure and the stack of the walk -----

  /** What of the target's ancestors is still to be cemented. */
  ghost function Unconfirmed(lat: Lattice, t: Tables, target: Hash): set<Hash>
    requires lat.Valid()
  {
    set x | x in lat.Ancestors(target) && !t.Confirmed(x)
  }

  /** The number of stack entries, with repetition, that are already confirmed. */
  function ConfirmedOn(t: Tables, stack: seq<Hash>): nat {
    if stack == [] then 0 else
      ConfirmedOn(t, stack[..|stack| - 1]) + if t.Confirmed(stack[|stack| - 1]) then 1 else 0
  }

  lemma {:induction false} ConfirmedOnTail(t: Tables, stack: seq<Hash>)
    requires stack != []
    ensures ConfirmedOn(t, stack[1..]) <= ConfirmedOn(t, stack)
  {
    if |stack| > 1 {
      ConfirmedOnTail(t, stack[..|stack| - 1]);
      assert stack[1..][..|stack| - 2] == stack[..|stack| - 1][1..];
    }
  }

  lemma {:induction false} ConfirmedOnSame(t: Tables, u: Tables, stack: seq<Hash>)
    requires forall h :: h in stack ==> t.Confirmed(h) == u.Confirmed(h)
    ensures ConfirmedOn(t, stack) == ConfirmedOn(u, stack)
  {
    if stack != [] {
      ConfirmedOnSame(t, u, stack[..|stack| - 1]);
    }
  }

  function Pending(t: Tables, dependencies: seq<Hash>): seq<Hash> {
    if dependencies == [] then [] else
      var d := dependencies[|dependencies| - 1];
      var before := Pending(t, dependencies[..|dependencies| - 1]);
      if t.Confirmed(d) then before else before + [d]
  }

  lemma {:induction false} PendingIsUnconfirmed(t: Tables, dependencies: seq<Hash>)
    ensures forall d :: d in Pending(t, dependencies) <==> d in dependencies && !t.Confirmed(d)
    ensures |Pending(t, dependencies)| <= |dependencies|
  {
    if dependencies != [] {
      PendingIsUnconfirmed(t, dependencies[..|dependencies| - 1]);
      assert dependencies == dependencies[..|dependencies| - 1] + [dependencies[|dependencies| - 1]];
    }
  }

  /** The stack after pushing `pending` one by one, each push dropping the bottom of a stack that got too long. */
  function Pushed(stack: seq<Hash>, pending: seq<Hash>, maxBlocks: nat): seq<Hash> {
    if pending == [] then stack else
      var pushed := Pushed(stack, pending[..|pending| - 1], maxBlocks) + [pending[|pending| - 1]];
      if |pushed| > maxBlocks then pushed[1..] else pushed
  }

  lemma {:induction false} PushedShape(stack: seq<Hash>, pending: seq<Hash>, maxBlocks: nat)
    requires stack != []
    ensures
      var pushed := Pushed(stack, pending, maxBlocks);
      && pushed != []
      && (pending != [] ==> pushed[|pushed| - 1] == pending[|pending| - 1])
      && (forall h :: h in pushed ==> h in stack || h in pending)
      && (|stack| + |pending| <= maxBlocks ==> pushed == stack + pending)
  {
    if pending != [] {
      var rest := pending[..|pending| - 1];
      PushedShape(stack, rest, maxBlocks);
      assert pending == rest + [pending[|pending| - 1]];
    }
  }

  /** All but the last `kept` entries. */
  function Dropped(s: seq<Hash>, kept: nat): seq<Hash> {
    if kept <= |s| then s[..|s| - kept] else []
  }

  function Max(a: nat, b: nat): nat {
    if a < b then b else a
  }

  /** Only the bottom of the stack is dropped, and exactly as much of it as the bound demands. */
  lemma {:induction false} PushedIsTop(stack: seq<Hash>, pending: seq<Hash>, maxBlocks: nat)
    ensures
      var pushed := Pushed(stack, pending, maxBlocks);
      && |pushed| == (if |stack + pending| <= maxBlocks then |stack + pending| else Max(|stack|, maxBlocks))
      && Dropped(stack + pending, |pushed|) + pushed == stack + pending
  {
    if pending == [] {
      assert stack + pending == stack;
    } else {
      var rest, last := pending[..|pending| - 1], pending[|pending| - 1];
      PushedIsTop(stack, rest, maxBlocks);
      var before := Pushed(stack, rest, maxBlocks);
      assert stack + pending == stack + rest + [last];
      assert stack + pending == Dropped(stack + rest, |before|) + (before + [last]);
    }
  }

  lemma {:induction false} PushedAddsNoConfirmed(t: Tables, stack: seq<Hash>, pending: seq<Hash>, maxBlocks: nat)
    requires stack != []
    requires forall d :: d in pending ==> !t.Confirmed(d)
    ensures ConfirmedOn(t, Pushed(stack, pending, maxBlocks)) <= ConfirmedOn(t, stack)
  {
    hide Tables.Confirmed;
    if pending != [] {
      var rest := pending[..|pending| - 1];
      PushedAddsNoConfirmed(t, stack, rest, maxBlocks);
      var before := Pushed(stack, rest, maxBlocks);
      var pushed := before + [pending[|pending| - 1]];
      assert pushed[..|pushed| - 1] == before;
      ConfirmedOnTail(t, pushed);
    }
  }

  lemma PushOne(t: Tables, stack: seq<Hash>, dependencies: seq<Hash>, i: nat, maxBlocks: nat)
    requires i < |dependencies|
    ensures
      var before := Pushed(stack, Pending(t, dependencies[..i]), maxBlocks);
      Pushed(stack, Pending(t, dependencies[..i + 1]), maxBlocks) ==
      if t.Confirmed(dependencies[i]) then before else
        var pushed := before + [dependencies[i]];
        if |pushed| > maxBlocks then pushed[1..] else pushed
  {
    assert dependencies[..i + 1][..i] == dependencies[..i];
    var pending := Pending(t, dependencies[..i]);
    if !t.Confirmed(dependencies[i]) {
      assert Pending(t, dependencies[..i + 1]) == pending + [dependencies[i]];
      assert (pending + [dependencies[i]])[..|pending|] == pending;
    }
  }

  /** Of two pending dependencies the second is looked at first, whatever the bound. */
  lemma LinkComesFirst(lat: Lattice, now: Tables, stack: seq<Hash>, maxBlocks: nat)
    requires stack != []
    ensures
      var hash := stack[|stack| - 1];
      var (previous, link) := lat.content(hash).dependents;
      var pushed := Pushed(stack, Pending(now, lat.Dependencies(hash)), maxBlocks);
      && pushed != []
      && pushed[|pushed| - 1] ==
         if link != ZERO && !now.Confirmed(link) then link else if previous != ZERO && !now.Confirmed(previous) then previous else hash
  {
    hide Tables.Confirmed, Pushed;
    var hash := stack[|stack| - 1];
    var (previous, link) := lat.content(hash).dependents;
    var pending := Pending(now, lat.Dependencies(hash));
    PushedShape(stack, pending, maxBlocks);
    PendingIsUnconfirmed(now, lat.Dependencies(hash));
    assert Pushed(stack, [], maxBlocks) == stack by { NothingPushed(stack, maxBlocks); }
    assert pending != [] ==> pending[|pending| - 1] in pending;
    if link != ZERO {
      assert lat.Dependencies(hash)[|lat.Dependencies(hash)| - 1] == link;
    }
  }

  lemma NothingPushed(stack: seq<Hash>, maxBlocks: nat)
    ensures Pushed(stack, [], maxBlocks) == stack
  {
  }

  /** The top of the stack stays exactly when none of its dependencies is pending. */
  lemma TopStays(lat: Lattice, t: Tables, stack: seq<Hash>, maxBlocks: nat)
    requires lat.Valid() && stack != []
    ensures
      var hash := stack[|stack| - 1];
      var pending := Pending(t, lat.Dependencies(hash));
      var pushed := Pushed(stack, pending, maxBlocks);
      pushed != [] && (pushed[|pushed| - 1] == hash <==> pending == []) && (pending == [] ==> pushed == stack)
  {
    var hash := stack[|stack| - 1];
    PendingIsUnconfirmed(t, lat.Dependencies(hash));
    var pending := Pending(t, lat.Dependencies(hash));
    PushedShape(stack, pending, maxBlocks);
    assert pending != [] ==> pending[|pending| - 1] in pending;
    forall d | d in lat.Dependencies(hash) ensures d != hash {
      lat.DependencyIsLower(hash, d);
    }
  }

  // ----- The invariant of the walk -----

  /** Where the walk stands: its stack, what it has cemented, and (for the proof) what has been dropped from the bottom of
      the stack. */
  datatype Walk = Walk(stack: seq<Hash>, result: seq<Hash>, lost: seq<Hash>)

  /** The cemented blocks are new, distinct ancestors of the target, in dependency order. */
  ghost predicate ResultSound(lat: Lattice, start: Tables, now: Tables, target: Hash, result: seq<Hash>)
    requires lat.Valid()
  {
    && NoDuplicates(result)
    && (forall h :: h in result ==> h in Unconfirmed(lat, start, target) && now.Confirmed(h))
    && (forall i, d :: 0 <= i < |result| && d in lat.Dependencies(result[i]) ==>
          now.Confirmed(d) && (d in result ==> d in result[..i]))
  }

  /** Every entry is an ancestor of the target; a stack that lost nothing starts at the target
      and grows by at most two entries per step down in rank. */
  ghost predicate StackSound(lat: Lattice, now: Tables, target: Hash, maxBlocks: nat, w: Walk)
    requires lat.Valid()
  {
    && (forall h :: h in w.stack ==> h in lat.Ancestors(target))
    && (w.lost == [] ==> if w.stack == [] then now.Confirmed(target) else w.stack[0] == target)
    && (w.lost == [] ==> forall i :: 0 <= i < |w.stack| ==> i <= 2 * (lat.rank(target) - lat.rank(w.stack[i])))
    && (maxBlocks > 2 * lat.rank(target) ==> w.lost == [])
  }

  /** Without interference: the walk accounts for every confirmation, what it has cemented and what is on the stack, dropped
      entries included, is what it had to visit from the start, and until it cements something the stack holds only
      unconfirmed blocks. */
  ghost predicate Undisturbed(lat: Lattice, start: Tables, now: Tables, target: Hash, w: Walk)
    requires lat.Valid()
  {
    && VisitAll(lat, start, w.lost + w.stack, w.result) == PostOrder(lat, start, target)
    && now.blocks == start.blocks
    && (forall h :: now.Confirmed(h) <==> start.Confirmed(h) || h in w.result)
    && (!start.Confirmed(target) && w.result == [] ==>
          w.stack != [] && forall h :: h in w.stack ==> !now.Confirmed(h))
  }

  function Last(s: seq<Hash>): Hash
    requires s != []
  {
    s[|s| - 1]
  }

  /** What one turn of the loop makes of the walk, before any refresh. */
  function Turn(lat: Lattice, now: Tables, w: Walk, maxBlocks: nat): Walk
    requires w.stack != []
  {
    var hash := Last(w.stack);
    var pending := Pending(now, lat.Dependencies(hash));
    if pending != [] then
      var pushed := Pushed(w.stack, pending, maxBlocks);
      Walk(pushed, w.result, w.lost + Dropped(w.stack + pending, |pushed|))
    else
      var rest := w.stack[..|w.stack| - 1];
      Walk(rest, if now.Confirmed(hash) then w.result else w.result + [hash], w.lost)
  }

  /** The tables after that turn. */
  function TurnTables(lat: Lattice, now: Tables, w: Walk): Tables
    requires w.stack != []
  {
    var hash := Last(w.stack);
    if Pending(now, lat.Dependencies(hash)) == [] && !now.Confirmed(hash) then Perform(lat, now, Cement(hash)) else now
  }

  /** A turn, told by whether the top of the stack is still there after pushing. */
  lemma TurnByTop(lat: Lattice, now: Tables, w: Walk, maxBlocks: nat)
    requires lat.Valid() && w.stack != []
    ensures
      var hash := Last(w.stack);
      var pending := Pending(now, lat.Dependencies(hash));
      var pushed := Pushed(w.stack, pending, maxBlocks);
      var turn := Turn(lat, now, w, maxBlocks);
      && pushed != []
      && if Last(pushed) != hash then turn.stack == pushed && turn.result == w.result && TurnTables(lat, now, w) == now
         else
           && pending == [] && turn.stack == pushed[..|pushed| - 1]
           && if now.Confirmed(hash) then turn.result == w.result && TurnTables(lat, now, w) == now
              else turn.result == w.result + [hash] && TurnTables(lat, now, w) == Perform(lat, now, Cement(hash))
  {
    hide Pending, Pushed, Tables.Confirmed, Perform, Lattice.Valid;
    TopStays(lat, now, w.stack, maxBlocks);
  }

  /** A turn cements only what is enabled. */
  lemma TurnIsEnabled(lat: Lattice, now: Tables, target: Hash, w: Walk)
    requires Invariant(lat, now) && target in now.blocks && w.stack != []
    requires Last(w.stack) in lat.Ancestors(target)
    ensures Last(w.stack) in now.blocks
    ensures Pending(now, lat.Dependencies(Last(w.stack))) == [] && !now.Confirmed(Last(w.stack)) ==>
              Enabled(lat, now, Cement(Last(w.stack)))
  {
    AncestorsStored(lat, now, target);
    PendingIsUnconfirmed(now, lat.Dependencies(Last(w.stack)));
  }

  /** A descent puts the pending dependencies on top; what drops out at the bottom is lost. */
  lemma DescentPushes(lat: Lattice, now: Tables, maxBlocks: nat, w: Walk)
    requires w.stack != [] && Pending(now, lat.Dependencies(Last(w.stack))) != []
    ensures
      var pending := Pending(now, lat.Dependencies(Last(w.stack)));
      var next := Turn(lat, now, w, maxBlocks);
      && next.result == w.result
      && next.lost + next.stack == w.lost + w.stack + pending
      && next.stack != [] && (forall h :: h in next.stack ==> h in w.stack || h in pending)
      && (next.lost == [] ==> w.lost == [])
      && (w.lost == [] && |w.stack| + |pending| <= maxBlocks ==> next.lost == [])
  {
    hide Pending, Pushed, Dropped, Tables.Confirmed;
    var pending := Pending(now, lat.Dependencies(Last(w.stack)));
    PushedShape(w.stack, pending, maxBlocks);
    PushedIsTop(w.stack, pending, maxBlocks);
    LostAndKept(w.lost, w.stack, pending, Pushed(w.stack, pending, maxBlocks));
  }

  lemma LostAndKept(lost: seq<Hash>, stack: seq<Hash>, pending: seq<Hash>, pushed: seq<Hash>)
    requires |pushed| <= |stack + pending| && Dropped(stack + pending, |pushed|) + pushed == stack + pending
    ensures
      var lost' := lost + Dropped(stack + pending, |pushed|);
      && lost' + pushed == lost + stack + pending
      && (lost' == [] ==> lost == []) && (lost == [] && pushed == stack + pending ==> lost' == [])
  {
    var dropped := Dropped(stack + pending, |pushed|);
    assert (lost + dropped) + pushed == lost + (dropped + pushed) == lost + stack + pending;
  }

  /** Pushing keeps the stack within two entries per rank, so a large enough bound never drops the bottom. */
  lemma DescentKeepsStack(lat: Lattice, now: Tables, target: Hash, maxBlocks: nat, w: Walk)
    requires lat.Valid() && w.stack != []
    requires StackSound(lat, now, target, maxBlocks, w)
    requires Pending(now, lat.Dependencies(Last(w.stack))) != []
    ensures StackSound(lat, now, target, maxBlocks, Turn(lat, now, w, maxBlocks))
  {
    hide Lattice.Ancestors, Pending, Turn, ConfirmedOn, Tables.Confirmed;
    var hash := Last(w.stack);
    var pending := Pending(now, lat.Dependencies(hash));
    PendingIsUnconfirmed(now, lat.Dependencies(hash));
    DescentPushes(lat, now, maxBlocks, w);
    lat.AncestorsAreClosed(target, hash);
    forall d | d in pending ensures lat.rank(d) < lat.rank(hash) {
      lat.DependencyIsLower(hash, d);
    }
    if w.lost == [] {
      assert pending[0] in pending;
      assert |w.stack| - 1 <= 2 * (lat.rank(target) - lat.rank(hash));
      assert [] + w.stack + pending == w.stack + pending;
    }
    var next := Turn(lat, now, w, maxBlocks);
    assert next.lost == [] ==> next.stack == w.stack + pending;
  }

  lemma TurnKeepsStack(lat: Lattice, now: Tables, target: Hash, maxBlocks: nat, w: Walk)
    requires Invariant(lat, now) && target in now.blocks && w.stack != []
    requires StackSound(lat, now, target, maxBlocks, w)
    ensures StackSound(lat, TurnTables(lat, now, w), target, maxBlocks, Turn(lat, now, w, maxBlocks))
  {
    var hash := Last(w.stack);
    if Pending(now, lat.Dependencies(hash)) != [] {
      DescentKeepsStack(lat, now, target, maxBlocks, w);
    } else if !now.Confirmed(hash) {
      TurnIsEnabled(lat, now, target, w);
      CementConfirmsOneBlock(lat, now, hash);
    }
  }

  lemma TurnKeepsResult(lat: Lattice, start: Tables, now: Tables, target: Hash, maxBlocks: nat, w: Walk)
    requires Invariant(lat, now) && target in now.blocks && w.stack != []
    requires Later(start, now)
    requires Last(w.stack) in lat.Ancestors(target)
    requires ResultSound(lat, start, now, target, w.result)
    ensures ResultSound(lat, start, TurnTables(lat, now, w), target, Turn(lat, now, w, maxBlocks).result)
  {
    hide Lattice.Valid, Lattice.Ancestors, Tables.Confirmed, BlocksSound, FrontiersSound, ConfirmedClosed, Pending, Perform;
    var hash := Last(w.stack);
    TurnIsEnabled(lat, now, target, w);
    if Pending(now, lat.Dependencies(hash)) == [] && !now.Confirmed(hash) {
      CementConfirmsOneBlock(lat, now, hash);
      var result := w.result + [hash];
      forall i, d | 0 <= i < |result| && d in lat.Dependencies(result[i])
        ensures now.Confirmed(d) && (d in result ==> d in result[..i])
      {
        if i < |w.result| {
          assert result[..i] == w.result[..i];
        } else {
          assert result[..i] == w.result;
        }
      }
    }
  }

  lemma TurnKeepsUndisturbed(lat: Lattice, start: Tables, now: Tables, target: Hash, maxBlocks: nat, w: Walk)
    requires Invariant(lat, now) && target in now.blocks && w.stack != []
    requires Last(w.stack) in lat.Ancestors(target)
    requires Undisturbed(lat, start, now, target, w)
    ensures Undisturbed(lat, start, TurnTables(lat, now, w), target, Turn(lat, now, w, maxBlocks))
  {
    hide Tables.Confirmed, VisitAll, CementingOrder.PostOrder, Pushed, Pending, Lattice.Valid, Lattice.Ancestors,
         BlocksSound, FrontiersSound, Dropped;
    var hash := Last(w.stack);
    var pending := Pending(now, lat.Dependencies(hash));
    TurnStaysOnCourse(lat, start, now, maxBlocks, w);
    if pending != [] {
      hide Turn;
      PendingIsUnconfirmed(now, lat.Dependencies(hash));
      DescentPushes(lat, now, maxBlocks, w);
    } else if !now.Confirmed(hash) {
      TurnIsEnabled(lat, now, target, w);
      CementConfirmsOneBlock(lat, now, hash);
    }
  }

  /** What is confirmed needs no visit. */
  lemma {:induction false} PendingVisited(lat: Lattice, t: Tables, now: Tables, hs: seq<Hash>, done: seq<Hash>)
    requires lat.Valid() && forall x :: now.Confirmed(x) ==> t.Confirmed(x) || x in done
    ensures VisitAll(lat, t, Pending(now, hs), done) == VisitAll(lat, t, hs, done)
  {
    hide Tables.Confirmed, Lattice.Valid;
    if hs != [] {
      var rest, last := hs[..|hs| - 1], hs[|hs| - 1];
      if now.Confirmed(last) {
        PendingVisited(lat, t, now, rest, done);
      } else {
        assert (Pending(now, rest) + [last])[..|Pending(now, rest)|] == Pending(now, rest);
        PendingVisited(lat, t, now, rest, Visit(lat, t, last, done));
      }
    }
  }

  /** The dependencies are visited from the top down: the second one first. */
  lemma DependenciesVisited(lat: Lattice, t: Tables, h: Hash, done: seq<Hash>)
    requires lat.Valid()
    ensures VisitAll(lat, t, lat.Dependencies(h), done) == VisitDependents(lat, t, h, done)
  {
    var (previous, link) := lat.content(h).dependents;
    if previous != ZERO && link != ZERO {
      assert lat.Dependencies(h) == [previous] + [link];
      VisitAllAppend(lat, t, [previous], [link], done);
    }
    if previous != ZERO {
      VisitOne(lat, t, previous, if link == ZERO then done else Visit(lat, t, link, done));
    }
    if link != ZERO {
      VisitOne(lat, t, link, done);
    }
  }

  /** Pushing what is pending changes nothing. */
  lemma DescentStaysOnCourse(lat: Lattice, start: Tables, now: Tables, rest: seq<Hash>, hash: Hash, done: seq<Hash>)
    requires lat.Valid() && !now.Confirmed(hash) && forall x :: now.Confirmed(x) <==> start.Confirmed(x) || x in done
    ensures VisitAll(lat, start, rest + [hash] + Pending(now, lat.Dependencies(hash)), done) ==
            VisitAll(lat, start, rest + [hash], done)
  {
    hide Tables.Confirmed, Lattice.Valid, Pending, VisitAll, Visit, VisitDependents;
    var pending, after := Pending(now, lat.Dependencies(hash)), VisitDependents(lat, start, hash, done);
    PendingVisited(lat, start, now, lat.Dependencies(hash), done);
    DependenciesVisited(lat, start, hash, done);
    VisitAllAppend(lat, start, rest + [hash], pending, done);
    VisitAllAppend(lat, start, rest, [hash], after);
    VisitAllAppend(lat, start, rest, [hash], done);
    VisitOne(lat, start, hash, after);
    VisitOne(lat, start, hash, done);
    DependentsFirst(lat, start, hash, done);
  }

  /** Neither pushing nor popping changes what is visited in the end. */
  lemma TurnStaysOnCourse(lat: Lattice, start: Tables, now: Tables, maxBlocks: nat, w: Walk)
    requires lat.Valid() && ConfirmedClosed(lat, now) && w.stack != []
    requires forall x :: now.Confirmed(x) <==> start.Confirmed(x) || x in w.result
    ensures
      var next := Turn(lat, now, w, maxBlocks);
      VisitAll(lat, start, next.lost + next.stack, next.result) == VisitAll(lat, start, w.lost + w.stack, w.result)
  {
    hide Tables.Confirmed, Lattice.Valid, Pending, Pushed, VisitAll, Visit;
    var hash, rest := Last(w.stack), w.lost + w.stack[..|w.stack| - 1];
    var pending := Pending(now, lat.Dependencies(hash));
    PendingIsUnconfirmed(now, lat.Dependencies(hash));
    assert w.lost + w.stack == rest + [hash];
    if pending != [] {
      assert pending[0] in pending;
      hide Turn;
      DescentPushes(lat, now, maxBlocks, w);
      DescentStaysOnCourse(lat, start, now, rest, hash, w.result);
    } else {
      VisitAllAppend(lat, start, rest, [hash], w.result);
      VisitOne(lat, start, hash, w.result);
      VisitIfReady(lat, start, hash, w.result);
    }
  }

  lemma VisitOne(lat: Lattice, t: Tables, h: Hash, done: seq<Hash>)
    requires lat.Valid()
    ensures VisitAll(lat, t, [h], done) == Visit(lat, t, h, done)
  {
    assert [h][..0] == [];
  }

  /** The measure: unconfirmed ancestors, then confirmed stack entries, then the rank of the top. */
  ghost predicate Smaller(lat: Lattice, now: Tables, w: Walk, now': Tables, w': Walk, target: Hash)
    requires lat.Valid() && w.stack != []
  {
    var (a, a') := (|Unconfirmed(lat, now, target)|, |Unconfirmed(lat, now', target)|);
    var (b, b') := (ConfirmedOn(now, w.stack), ConfirmedOn(now', w'.stack));
    a' < a || (a' == a && (b' < b || (b' == b && (w'.stack != [] ==> lat.rank(Last(w'.stack)) < lat.rank(Last(w.stack))))))
  }

  lemma SubsetSmaller(a: set<Hash>, b: set<Hash>)
    requires a <= b
    ensures |a| <= |b| && (|a| == |b| ==> a == b)
  {
    assert |b| == |a| + |b - a| by { assert a + (b - a) == b; }
    if |a| == |b| { assert b - a == {}; }
  }

  lemma TurnIsProgress(lat: Lattice, now: Tables, target: Hash, maxBlocks: nat, w: Walk)
    requires Invariant(lat, now) && target in now.blocks && w.stack != []
    requires StackSound(lat, now, target, maxBlocks, w)
    ensures Smaller(lat, now, w, TurnTables(lat, now, w), Turn(lat, now, w, maxBlocks), target)
  {
    var hash := Last(w.stack);
    TurnIsEnabled(lat, now, target, w);
    var pending := Pending(now, lat.Dependencies(hash));
    PendingIsUnconfirmed(now, lat.Dependencies(hash));
    PushedShape(w.stack, pending, maxBlocks);
    PushedAddsNoConfirmed(now, w.stack, pending, maxBlocks);
    if pending == [] && !now.Confirmed(hash) {
      CementConfirmsOneBlock(lat, now, hash);
      var next := Unconfirmed(lat, TurnTables(lat, now, w), target);
      SubsetSmaller(next, Unconfirmed(lat, now, target));
      assert hash in Unconfirmed(lat, now, target) && hash !in next;
    }
  }

  ghost predicate WalkSound(lat: Lattice, start: Tables, now: Tables, target: Hash, maxBlocks: nat, w: Walk)
    requires lat.Valid()
  {
    && Later(start, now)
    && StackSound(lat, now, target, maxBlocks, w)
    && ResultSound(lat, start, now, target, w.result)
  }

  function FirstWalk(target: Hash): Walk {
    Walk([target], [], [])
  }

  lemma WalkStarts(lat: Lattice, start: Tables, target: Hash, maxBlocks: nat)
    requires lat.Valid()
    ensures WalkSound(lat, start, start, target, maxBlocks, FirstWalk(target))
    ensures Undisturbed(lat, start, start, target, FirstWalk(target))
  {
  }

  lemma TurnKeepsWalk(lat: Lattice, start: Tables, now: Tables, target: Hash, maxBlocks: nat, w: Walk)
    requires Invariant(lat, now) && target in now.blocks && w.stack != []
    requires WalkSound(lat, start, now, target, maxBlocks, w)
    ensures Last(w.stack) in now.blocks
    ensures Pending(now, lat.Dependencies(Last(w.stack))) == [] && !now.Confirmed(Last(w.stack)) ==>
              Enabled(lat, now, Cement(Last(w.stack)))
    ensures WalkSound(lat, start, TurnTables(lat, now, w), target, maxBlocks, Turn(lat, now, w, maxBlocks))
    ensures Undisturbed(lat, start, now, target, w) ==>
              Undisturbed(lat, start, TurnTables(lat, now, w), target, Turn(lat, now, w, maxBlocks))
    ensures Smaller(lat, now, w, TurnTables(lat, now, w), Turn(lat, now, w, maxBlocks), target)
  {
    hide Lattice.Ancestors, Lattice.Valid, Pending, Pushed, ConfirmedOn, Tables.Confirmed, BlocksSound, FrontiersSound, Turn, Smaller;
    TurnIsEnabled(lat, now, target, w);
    TurnKeepsStack(lat, now, target, maxBlocks, w);
    TurnKeepsResult(lat, start, now, target, maxBlocks, w);
    TurnIsProgress(lat, now, target, maxBlocks, w);
    if Undisturbed(lat, start, now, target, w) {
      TurnKeepsUndisturbed(lat, start, now, target, maxBlocks, w);
    }
    if TurnTables(lat, now, w) != now {
      PerformKeepsInvariant(lat, now, Cement(Last(w.stack)));
    }
  }

  /** Other transactions may cement ancestors of the target, which only makes the measure smaller. */
  lemma RefreshKeepsWalk(lat: Lattice, start: Tables, t: Tables, u: Tables, target: Hash, maxBlocks: nat, w: Walk)
    requires lat.Valid() && Later(t, u)
    requires WalkSound(lat, start, t, target, maxBlocks, w)
    ensures WalkSound(lat, start, u, target, maxBlocks, w)
    ensures |Unconfirmed(lat, u, target)| <= |Unconfirmed(lat, t, target)|
    ensures |Unconfirmed(lat, u, target)| == |Unconfirmed(lat, t, target)| ==>
              ConfirmedOn(u, w.stack) == ConfirmedOn(t, w.stack)
  {
    hide Lattice.Valid, Lattice.Ancestors, Tables.Confirmed, ConfirmedOn;
    SubsetSmaller(Unconfirmed(lat, u, target), Unconfirmed(lat, t, target));
    if Unconfirmed(lat, u, target) == Unconfirmed(lat, t, target) {
      forall h | h in w.stack ensures t.Confirmed(h) == u.Confirmed(h) {
        assert h in Unconfirmed(lat, t, target) <==> h in Unconfirmed(lat, u, target);
      }
      ConfirmedOnSame(t, u, w.stack);
    }
  }

  /** Everything the block depends on directly is confirmed. */
  predicate DependenciesDone(lat: Lattice, t: Tables, h: Hash) {
    forall d :: d in lat.Dependencies(h) ==> t.Confirmed(d)
  }

  /** What a call without interference achieves: it accounts for all newly confirmed blocks; it always
      cements something of an unconfirmed target, except that a bound of zero allows for the target alone;
      the target ends up confirmed exactly when the result is all its unconfirmed ancestors; and that happens
      whenever the bound reaches their number and exceeds twice the rank. Whatever the bound, blocks are cemented in post-order
      from the first one on, and as many as the bound allows if it exceeds twice the rank. */
  ghost predicate QuietOutcome(lat: Lattice, start: Tables, end: Tables, target: Hash, maxBlocks: nat, result: seq<Hash>)
    requires lat.Valid()
  {
    && end.blocks == start.blocks
    && (forall h :: end.Confirmed(h) <==> start.Confirmed(h) || h in result)
    && (maxBlocks >= 1 && !start.Confirmed(target) ==> result != [])
    && (maxBlocks == 0 ==> result == if !start.Confirmed(target) && DependenciesDone(lat, start, target) then [target] else [])
    && (end.Confirmed(target) <==> forall h :: h in result <==> h in Unconfirmed(lat, start, target))
    && (maxBlocks > 2 * lat.rank(target) && maxBlocks >= |Unconfirmed(lat, start, target)| ==> end.Confirmed(target))
    && InPostOrder(PostOrder(lat, start, target), result, maxBlocks, maxBlocks > 2 * lat.rank(target))
  }

  /** The result is the beginning of the list: if nothing was dropped, as much of it as the bound allows. */
  predicate InPostOrder(list: seq<Hash>, result: seq<Hash>, maxBlocks: nat, whole: bool) {
    && result <= list
    && (whole ==> result == list[..if |list| < maxBlocks then |list| else maxBlocks])
  }

  lemma {:induction false} DistinctWithin(s: seq<Hash>, all: set<Hash>)
    requires NoDuplicates(s) && forall h :: h in s ==> h in all
    ensures |s| <= |all|
  {
    if s != [] {
      DistinctWithin(s[1..], all - {s[0]});
    }
  }

  /** A walk that is neither truncated nor cut short reaches its target. */
  lemma LargeBoundSuffices(lat: Lattice, start: Tables, end: Tables, target: Hash, maxBlocks: nat, w: Walk)
    requires lat.Valid() && WalkSound(lat, start, end, target, maxBlocks, w)
    requires w.stack == [] || |w.result| >= maxBlocks
    requires maxBlocks > 2 * lat.rank(target) && maxBlocks >= |Unconfirmed(lat, start, target)|
    ensures end.Confirmed(target)
  {
    hide Tables.Confirmed, Lattice.Valid;
    if !end.Confirmed(target) {
      DistinctWithin(w.result, Unconfirmed(lat, start, target) - {target});
    }
  }

  /** With a bound of zero there is only one turn. */
  lemma OnlyTurn(lat: Lattice, start: Tables, target: Hash)
    ensures Turn(lat, start, FirstWalk(target), 0).result ==
            if !start.Confirmed(target) && DependenciesDone(lat, start, target) then [target] else []
  {
    hide Tables.Confirmed, Pending;
    PendingIsUnconfirmed(start, lat.Dependencies(target));
    var pending := Pending(start, lat.Dependencies(target));
    assert pending != [] ==> pending[0] in pending;
  }

  /** An undisturbed walk cements in post-order. */
  lemma WalkIsInOrder(lat: Lattice, start: Tables, end: Tables, target: Hash, maxBlocks: nat, w: Walk)
    requires lat.Valid() && Undisturbed(lat, start, end, target, w) && StackSound(lat, end, target, maxBlocks, w)
    requires w.stack == [] || |w.result| >= maxBlocks
    requires |w.result| <= if maxBlocks == 0 then 1 else maxBlocks
    ensures InPostOrder(PostOrder(lat, start, target), w.result, maxBlocks, maxBlocks > 2 * lat.rank(target))
  {
    hide Tables.Confirmed, Lattice.Valid, Lattice.Ancestors, CementingOrder.PostOrder;
    assert w.lost == [] && w.stack == [] ==> w.lost + w.stack == [];
  }

  lemma QuietWalkOutcome(lat: Lattice, start: Tables, end: Tables, target: Hash, maxBlocks: nat, w: Walk)
    requires Invariant(lat, end)
    requires Undisturbed(lat, start, end, target, w)
    requires WalkSound(lat, start, end, target, maxBlocks, w)
    requires w.stack == [] || |w.result| >= maxBlocks
    requires |w.result| <= if maxBlocks == 0 then 1 else maxBlocks
    requires maxBlocks == 0 ==> w == Turn(lat, start, FirstWalk(target), maxBlocks)
    ensures QuietOutcome(lat, start, end, target, maxBlocks, w.result)
  {
    hide Tables.Confirmed, Turn, DependenciesDone, InPostOrder, CementingOrder.PostOrder, VisitAll;
    WalkIsInOrder(lat, start, end, target, maxBlocks, w);
    if end.Confirmed(target) {
      forall h | h in Unconfirmed(lat, start, target) ensures h in w.result {
        AncestorsConfirmed(lat, end, target, h);
      }
    } else if maxBlocks > 2 * lat.rank(target) && maxBlocks >= |Unconfirmed(lat, start, target)| {
      LargeBoundSuffices(lat, start, end, target, maxBlocks, w);
    }
    OnlyTurn(lat, start, target);
  }

  class BlockCementer {
    const store: LedgerStore

    constructor (store: LedgerStore)
      ensures this.store == store
    {
      this.store := store;
    }

    method PushDependencies(stack: seq<Hash>, dependencies: seq<Hash>, maxBlocks: nat) returns (pushed: seq<Hash>)
      ensures pushed == Pushed(stack, Pending(store.View(), dependencies), maxBlocks)
    {
      pushed := stack;
      for i := 0 to |dependencies|
        invariant pushed == Pushed(stack, Pending(store.View(), dependencies[..i]), maxBlocks)
      {
        PushOne(store.View(), stack, dependencies, i, maxBlocks);
        var confirmed := store.IsConfirmed(dependencies[i]);
        if !confirmed {
          pushed := pushed + [dependencies[i]];
          // Limit the stack size: this forgets the bottom of the dependency tree
          if |pushed| > maxBlocks {
            pushed := pushed[1..];
          }
        }
      }
      assert dependencies[..|dependencies|] == dependencies;
    }

    /** One turn of the walk: looks at the top of the stack and either pushes its unconfirmed
        dependencies or pops it, cementing it if that is still to be done. */
    method VisitTop(stack: seq<Hash>, result: seq<Hash>, maxBlocks: nat,
                    ghost base: seq<Hash>, ghost walk: Walk)
      returns (stack': seq<Hash>, result': seq<Hash>)
      requires store.Valid() && stack != [] && Last(stack) in store.blocks
      requires store.cemented == base + result && walk.stack == stack && walk.result == result
      requires Pending(store.View(), store.lattice.Dependencies(Last(stack))) == [] && !store.View().Confirmed(Last(stack)) ==>
                 Enabled(store.lattice, store.View(), Cement(Last(stack)))
      modifies store
      ensures store.Valid()
      ensures Turn(store.lattice, old(store.View()), walk, maxBlocks).stack == stack'
      ensures Turn(store.lattice, old(store.View()), walk, maxBlocks).result == result'
      ensures store.View() == TurnTables(store.lattice, old(store.View()), walk)
      ensures store.blocks == old(store.blocks)
      ensures store.foreign == old(store.foreign)
      ensures store.cemented == base + result'
    {
      var hash := stack[|stack| - 1];
      var block := store.blocks[hash];
      assert store.lattice.Valid() && block == store.lattice.content(hash);
      hide Pending, Pushed, LedgerStore.Valid, Perform, Enabled, Lattice.Valid, Tables.Confirmed, Turn, TurnTables;
      TurnByTop(store.lattice, store.View(), walk, maxBlocks);
      stack' := PushDependencies(stack, block.Dependencies(), maxBlocks);
      result' := result;
      if stack'[|stack'| - 1] == hash {
        stack' := stack'[..|stack'| - 1];
        result' := CementUnlessConfirmed(hash, result, base);
      }
    }

    method CementUnlessConfirmed(hash: Hash, result: seq<Hash>, ghost base: seq<Hash>) returns (result': seq<Hash>)
      requires store.Valid() && store.cemented == base + result
      requires !store.View().Confirmed(hash) ==> Enabled(store.lattice, store.View(), Cement(hash))
      modifies store
      ensures store.Valid() && store.blocks == old(store.blocks) && store.foreign == old(store.foreign)
      ensures store.cemented == base + result'
      ensures if old(store.View()).Confirmed(hash) then result' == result && store.View() == old(store.View())
              else result' == result + [hash] && store.View() == Perform(store.lattice, old(store.View()), Cement(hash))
    {
      hide LedgerStore.Valid, Perform, Enabled, Tables.Confirmed;
      result' := result;
      var confirmed := store.IsConfirmed(hash);
      if !confirmed {
        store.Cement(hash);
        result' := result + [hash];
        assert base + result' == (base + result) + [hash];
      }
    }

    /** A turn followed, if the transaction has become too old, by a refresh. */
    method TurnAndRefresh(target: Hash, stack: seq<Hash>, result: seq<Hash>, maxBlocks: nat,
                          ghost start: Tables, ghost base: seq<Hash>, ghost walk: Walk)
      returns (stack': seq<Hash>, result': seq<Hash>, rolledBack: bool, ghost walk': Walk)
      requires store.Valid() && target in store.blocks && stack != [] && walk.stack == stack && walk.result == result
      requires WalkSound(store.lattice, start, store.View(), target, maxBlocks, walk)
      requires store.cemented == base + result
      modifies store
      ensures store.Valid() && walk' == Turn(store.lattice, old(store.View()), walk, maxBlocks)
      ensures walk'.stack == stack' && walk'.result == result'
      ensures WalkSound(store.lattice, start, store.View(), target, maxBlocks, walk')
      ensures rolledBack == (target !in store.blocks)
      ensures !rolledBack ==> Smaller(store.lattice, old(store.View()), walk, store.View(), walk', target)
      ensures store.cemented == base + result'
      ensures |result'| <= |result| + 1
      ensures store.foreign >= old(store.foreign)
      ensures store.foreign == old(store.foreign) ==>
                && !rolledBack
                && (Undisturbed(store.lattice, start, old(store.View()), target, walk) ==>
                    Undisturbed(store.lattice, start, store.View(), target, walk'))
    {
      ghost var lat, before := store.lattice, store.View();
      assert lat.Valid();
      hide LedgerStore.Valid, Invariant, Later, Lattice.Valid, Lattice.Ancestors, Pending, Perform,
           WalkSound, Undisturbed;
      store.ValidMeans();
      TurnKeepsWalk(lat, start, before, target, maxBlocks, walk);
      walk' := Turn(lat, before, walk, maxBlocks);
      stack', result' := VisitTop(stack, result, maxBlocks, base, walk);
      rolledBack := false;
      if * {
        ghost var after := store.View();
        store.Refresh();
        RefreshKeepsWalk(lat, start, after, store.View(), target, maxBlocks, walk');
        rolledBack := target !in store.blocks;
      }
    }

    method RunWalk(target: Hash, maxBlocks: nat) returns (result: seq<Hash>, ghost walk: Walk)
      requires store.Valid() && target in store.blocks
      modifies store
      ensures store.Valid() && walk.result == result
      ensures WalkSound(store.lattice, old(store.View()), store.View(), target, maxBlocks, walk)
      ensures store.cemented == old(store.cemented) + result
      ensures |result| <= if maxBlocks == 0 then 1 else maxBlocks
      ensures store.foreign >= old(store.foreign)
      ensures store.foreign == old(store.foreign) ==>
                && Undisturbed(store.lattice, old(store.View()), store.View(), target, walk)
                && (walk.stack == [] || |result| >= maxBlocks)
                && (maxBlocks == 0 ==> walk == Turn(store.lattice, old(store.View()), FirstWalk(target), maxBlocks))
    {
      hide LedgerStore.Valid, Invariant, Lattice.Valid, Unconfirmed, ConfirmedOn, WalkSound, Undisturbed, Turn, Later;
      ghost var lat := store.lattice;
      store.ValidMeans();
      ghost var start := store.View();
      WalkStarts(lat, start, target, maxBlocks);
      var stack := [target];
      result, walk := [], FirstWalk(target);
      while stack != []
        invariant store.Valid() && target in store.blocks
        invariant walk.stack == stack && walk.result == result
        invariant WalkSound(lat, start, store.View(), target, maxBlocks, walk)
        invariant store.cemented == old(store.cemented) + result
        invariant store.foreign >= old(store.foreign)
        invariant store.foreign == old(store.foreign) ==> Undisturbed(lat, start, store.View(), target, walk)
        invariant |result| < maxBlocks || (maxBlocks == 0 && walk == FirstWalk(target) && store.View() == start)
        decreases |Unconfirmed(lat, store.View(), target)|, ConfirmedOn(store.View(), stack),
                  if stack == [] then 0 else 1 + lat.rank(Last(stack))
      {
        var rolledBack;
        stack, result, rolledBack, walk := TurnAndRefresh(target, stack, result, maxBlocks, start, old(store.cemented), walk);
        if rolledBack || |result| >= maxBlocks {
          break;
        }
      }
    }

    /** Cements the target and whatever it depends on, dependencies first. */
    method Confirm(target: Hash, maxBlocks: nat) returns (result: seq<Hash>)
      requires store.Valid() && target in store.blocks
      modifies store
      ensures store.Valid()
      ensures Later(old(store.View()), store.View())
      // The result is what this call cemented, in order
      ensures store.cemented == old(store.cemented) + result
      ensures |result| <= if maxBlocks == 0 then 1 else maxBlocks
      ensures ResultSound(store.lattice, old(store.View()), store.View(), target, result)
      ensures store.foreign >= old(store.foreign)
      ensures store.foreign == old(store.foreign) ==>
                QuietOutcome(store.lattice, old(store.View()), store.View(), target, maxBlocks, result)
    {
      ghost var walk;
      result, walk := RunWalk(target, maxBlocks);
      if store.foreign == old(store.foreign) {
        QuietWalkOutcome(store.lattice, old(store.View()), store.View(), target, maxBlocks, walk);
      }
    }
  }
}
