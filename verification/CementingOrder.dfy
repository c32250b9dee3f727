/** The order in which a block and what it depends on are cemented when nobody interferes. */
module CementingOrder {
  import opened Lattice
  import opened Ledger

  /** Depth first: what the block receives comes before its predecessor, the block itself comes last, and what is confirmed or
      already listed is skipped. */
  ghost function Visit(lat: Lattice, t: Tables, h: Hash, done: seq<Hash>): (r: seq<Hash>)
    requires lat.Valid()
    ensures done <= r && (t.Confirmed(h) || h in r)
    decreases lat.rank(h), 1
  {
    if t.Confirmed(h) || h in done then done else VisitDependents(lat, t, h, done) + [h]
  }

  ghost function VisitDependents(lat: Lattice, t: Tables, h: Hash, done: seq<Hash>): (r: seq<Hash>)
    requires lat.Valid()
    ensures done <= r
    ensures forall d :: d in lat.Dependencies(h) ==> t.Confirmed(d) || d in r
    decreases lat.rank(h), 0
  {
    var (previous, link) := lat.content(h).dependents;
    var first := if link == ZERO then done else
      assert link in lat.content(h).Dependencies();
      Visit(lat, t, link, done);
    if previous == ZERO then first else
      assert previous in lat.content(h).Dependencies();
      Visit(lat, t, previous, first)
  }

  /** The blocks of a stack, from the top down. */
  ghost function VisitAll(lat: Lattice, t: Tables, stack: seq<Hash>, done: seq<Hash>): (r: seq<Hash>)
    requires lat.Valid()
    ensures done <= r
  {
    if stack == [] then done else
      VisitAll(lat, t, stack[..|stack| - 1], Visit(lat, t, stack[|stack| - 1], done))
  }

  /** The whole list for one block. */
  ghost function PostOrder(lat: Lattice, t: Tables, target: Hash): seq<Hash>
    requires lat.Valid()
  {
    Visit(lat, t, target, [])
  }

  /** What a visit adds. */
  ghost predicate Adds(lat: Lattice, t: Tables, h: Hash, done: seq<Hash>, r: seq<Hash>)
    requires lat.Valid()
  {
    && (NoDuplicates(done) ==> NoDuplicates(r))
    && forall x :: x in r ==> x in done || (x in lat.Ancestors(h) && lat.rank(x) <= lat.rank(h) && !t.Confirmed(x))
  }

  lemma {:induction false} VisitAdds(lat: Lattice, t: Tables, h: Hash, done: seq<Hash>)
    requires lat.Valid()
    ensures Adds(lat, t, h, done, Visit(lat, t, h, done))
    decreases lat.rank(h), 1
  {
    hide Tables.Confirmed, Lattice.Valid;
    if !t.Confirmed(h) && h !in done {
      DependentsAdd(lat, t, h, done);
    }
  }

  /** The dependents add only blocks of a lower rank, so the block itself is not among them. */
  lemma {:induction false} DependentsAdd(lat: Lattice, t: Tables, h: Hash, done: seq<Hash>)
    requires lat.Valid()
    ensures
      var r := VisitDependents(lat, t, h, done);
      && Adds(lat, t, h, done, r)
      && (h !in done ==> h !in r)
    decreases lat.rank(h), 0
  {
    var (previous, link) := lat.content(h).dependents;
    forall d | d in lat.Dependencies(h) ensures lat.rank(d) < lat.rank(h) && lat.Ancestors(d) <= lat.Ancestors(h) {
      lat.DependencyIsLower(h, d);
      lat.AncestorsAreClosed(h, d);
    }
    hide Tables.Confirmed, Lattice.Valid, Lattice.Ancestors;
    var first := if link == ZERO then done else Visit(lat, t, link, done);
    if link != ZERO {
      VisitAdds(lat, t, link, done);
    }
    if previous != ZERO {
      VisitAdds(lat, t, previous, first);
    }
  }

  /** Visiting the dependents first changes nothing. */
  lemma DependentsFirst(lat: Lattice, t: Tables, h: Hash, done: seq<Hash>)
    requires lat.Valid() && !t.Confirmed(h) && h !in done
    ensures Visit(lat, t, h, VisitDependents(lat, t, h, done)) == Visit(lat, t, h, done)
  {
    DependentsAdd(lat, t, h, done);
    NothingToVisit(lat, t, h, VisitDependents(lat, t, h, done));
  }

  lemma NothingToVisit(lat: Lattice, t: Tables, h: Hash, done: seq<Hash>)
    requires lat.Valid() && forall d :: d in lat.Dependencies(h) ==> t.Confirmed(d) || d in done
    ensures VisitDependents(lat, t, h, done) == done
  {
    var (previous, link) := lat.content(h).dependents;
    assert link != ZERO ==> link in lat.Dependencies(h);
    assert previous != ZERO ==> previous in lat.Dependencies(h);
  }

  /** A block whose dependencies are confirmed or listed is listed next, unless it is confirmed or listed itself. */
  lemma VisitIfReady(lat: Lattice, t: Tables, h: Hash, done: seq<Hash>)
    requires lat.Valid() && forall d :: d in lat.Dependencies(h) ==> t.Confirmed(d) || d in done
    ensures Visit(lat, t, h, done) == if t.Confirmed(h) || h in done then done else done + [h]
  {
    NothingToVisit(lat, t, h, done);
  }

  lemma {:induction false} VisitAllAppend(lat: Lattice, t: Tables, a: seq<Hash>, b: seq<Hash>, done: seq<Hash>)
    requires lat.Valid()
    ensures VisitAll(lat, t, a + b, done) == VisitAll(lat, t, a, VisitAll(lat, t, b, done))
    decreases |b|
  {
    hide Lattice.Valid, Visit;
    if b == [] {
      assert a + b == a;
    } else {
      var n := |b| - 1;
      assert (a + b)[..|a| + n] == a + b[..n];
      VisitAllAppend(lat, t, a, b[..n], Visit(lat, t, b[n], done));
    }
  }

  /** Everything listed comes with what it depends on, unless that is confirmed. */
  ghost predicate Complete(lat: Lattice, t: Tables, r: seq<Hash>) {
    forall x, d :: x in r && d in lat.Dependencies(x) ==> t.Confirmed(d) || d in r
  }

  lemma {:induction false} VisitCompletes(lat: Lattice, t: Tables, h: Hash, done: seq<Hash>)
    requires lat.Valid() && Complete(lat, t, done)
    ensures Complete(lat, t, Visit(lat, t, h, done)) && Complete(lat, t, VisitDependents(lat, t, h, done))
    decreases lat.rank(h)
  {
    var (previous, link) := lat.content(h).dependents;
    forall d | d in lat.Dependencies(h) ensures lat.rank(d) < lat.rank(h) {
      lat.DependencyIsLower(h, d);
    }
    hide Tables.Confirmed, Lattice.Valid;
    var first := if link == ZERO then done else Visit(lat, t, link, done);
    if link != ZERO {
      VisitCompletes(lat, t, link, done);
    }
    if previous != ZERO {
      VisitCompletes(lat, t, previous, first);
    }
  }

  lemma {:induction false} AncestorsListed(lat: Lattice, t: Tables, r: seq<Hash>, h: Hash, x: Hash)
    requires lat.Valid() && ConfirmedClosed(lat, t) && Complete(lat, t, r) && (t.Confirmed(h) || h in r) && x in lat.Ancestors(h)
    ensures t.Confirmed(x) || x in r
    decreases lat.rank(h)
  {
    hide Tables.Confirmed;
    if x != h {
      var d :| d in lat.Dependencies(h) && x in lat.Ancestors(d);
      AncestorsListed(lat, t, r, d, x);
    }
  }

  /** The list holds exactly the unconfirmed ones among the block and what it depends on, each once. */
  lemma PostOrderIsComplete(lat: Lattice, t: Tables, target: Hash)
    requires lat.Valid() && ConfirmedClosed(lat, t)
    ensures
      var list := PostOrder(lat, t, target);
      NoDuplicates(list) && forall x :: x in list <==> x in lat.Ancestors(target) && !t.Confirmed(x)
  {
    var list := PostOrder(lat, t, target);
    VisitAdds(lat, t, target, []);
    VisitCompletes(lat, t, target, []);
    hide Tables.Confirmed, Visit, Lattice.Valid;
    forall x | x in lat.Ancestors(target) && !t.Confirmed(x) ensures x in list {
      AncestorsListed(lat, t, list, target, x);
    }
  }
}
