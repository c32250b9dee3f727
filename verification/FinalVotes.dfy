/** Deciding which blocks may be voted for, and the write-once table of final votes. */
module FinalVotes {
  import opened Options
  import opened Lattice
  import opened Ledger
  import opened BlockCementer

  type QualifiedRoot = (Hash, Hash)
  type VoteTable = map<QualifiedRoot, Hash>

  /** Safety: every hash ever approved for a final vote still owns its root, and its dependencies are still confirmed. */
  ghost predicate VotesSound(lat: Lattice, t: Tables, table: VoteTable, approved: seq<Hash>) {
    forall h :: h in approved ==>
      && OwnsRoot(lat, table, h)
      && forall d :: d in lat.Dependencies(h) ==> t.Confirmed(d)
  }

  predicate OwnsRoot(lat: Lattice, table: VoteTable, h: Hash) {
    var root := lat.content(h).QualifiedRoot();
    root in table && table[root] == h
  }

  predicate SameRoot(lat: Lattice, h: Hash, k: Hash) {
    lat.content(h).QualifiedRoot() == lat.content(k).QualifiedRoot()
  }

  /** Two blocks compete: they have the same predecessor, or both open the same account. */
  predicate Compete(lat: Lattice, h: Hash, k: Hash) {
    var (a, b) := (lat.content(h), lat.content(k));
    a.previous == b.previous && (a.previous == ZERO ==> a.account == b.account)
  }

  /** The root tells exactly the blocks that compete. */
  lemma SameRootMeansCompeting(lat: Lattice, h: Hash, k: Hash)
    ensures SameRoot(lat, h, k) <==> Compete(lat, h, k)
  {
  }

  /** Owners of the same root are the same hash. */
  lemma OneOwnerPerRoot(lat: Lattice, t: Tables, table: VoteTable, approved: seq<Hash>, h: Hash, k: Hash)
    requires VotesSound(lat, t, table, approved) && h in approved && k in approved
    requires Compete(lat, h, k)
    ensures h == k
  {
    SameRootMeansCompeting(lat, h, k);
    assert OwnsRoot(lat, table, h) && OwnsRoot(lat, table, k);
  }

  /** What others vote while the transaction is renewed, if it is. */
  predicate NoVotes(refresh: Option<VoteTable>) {
    refresh.None? || refresh.value == map[]
  }

  predicate NoVotesIn(refreshes: seq<Option<VoteTable>>) {
    forall r :: r in refreshes ==> NoVotes(r)
  }

  predicate NeverRenewed(refreshes: seq<Option<VoteTable>>) {
    forall r :: r in refreshes ==> r.None?
  }

  lemma RefreshAt(refreshes: seq<Option<VoteTable>>, i: nat)
    requires i < |refreshes|
    ensures NoVotesIn(refreshes) ==> NoVotes(refreshes[i])
    ensures NeverRenewed(refreshes) ==> refreshes[i].None?
  {
  }

  /** A final call: what others vote before it, its candidates, and what others vote before each of them. */
  datatype Call = Call(before: VoteTable, candidates: seq<(Hash, Hash)>, refreshes: seq<Option<VoteTable>>)

  /** Entries are only ever added. */
  predicate WriteOnce(table: VoteTable, table': VoteTable) {
    forall q :: q in table ==> q in table' && table'[q] == table[q]
  }

  class FinalVoteStore {
    var table: VoteTable

    constructor ()
      ensures table == map[]
    {
      table := map[];
    }

    /** True if the pair was inserted or was there already. */
    method Put(root: QualifiedRoot, hash: Hash) returns (ok: bool)
      modifies this
      ensures ok == (root !in old(table) || old(table)[root] == hash)
      ensures ok ==> root in table && table[root] == hash
      ensures WriteOnce(old(table), table) && table.Keys <= old(table).Keys + {root}
    {
      if root !in table {
        table := table[root := hash];
        ok := true;
      } else {
        ok := table[root] == hash;
      }
    }

    /** Final votes that other transactions record; they cannot overwrite anything either. */
    method OtherVotes(votes: VoteTable)
      modifies this
      ensures table == votes + old(table) && WriteOnce(old(table), table)
    {
      table := votes + table;
    }
  }

  // ----- The decision for one candidate, and for a list of them -----

  function DependenciesConfirmed(lat: Lattice, t: Tables, h: Hash): bool {
    h in t.blocks && forall d :: d in lat.Dependencies(h) ==> t.Confirmed(d)
  }

  predicate MayVoteFinal(lat: Lattice, t: Tables, table: VoteTable, h: Hash) {
    var root := lat.content(h).QualifiedRoot();
    DependenciesConfirmed(lat, t, h) && (root in table ==> table[root] == h)
  }

  predicate MayVote(lat: Lattice, t: Tables, table: VoteTable, h: Hash, isFinal: bool) {
    if isFinal then MayVoteFinal(lat, t, table, h) else DependenciesConfirmed(lat, t, h)
  }

  /** The hashes of the approved pairs. */
  function Votes(pairs: seq<(Hash, Hash)>): seq<Hash> {
    seq(|pairs|, i requires 0 <= i < |pairs| => pairs[i].1)
  }

  function TableAfter(lat: Lattice, t: Tables, table: VoteTable, candidates: seq<(Hash, Hash)>): VoteTable {
    if candidates == [] then table else
      var before := TableAfter(lat, t, table, candidates[..|candidates| - 1]);
      var h := candidates[|candidates| - 1].1;
      if MayVote(lat, t, before, h, true) then before[lat.content(h).QualifiedRoot() := h] else before
  }

  /** What a list of candidates yields when nobody else writes. */
  function Verified(lat: Lattice, t: Tables, table: VoteTable, candidates: seq<(Hash, Hash)>, isFinal: bool): seq<(Hash, Hash)> {
    if candidates == [] then [] else
      var rest := candidates[..|candidates| - 1];
      var c := candidates[|candidates| - 1];
      var now := if isFinal then TableAfter(lat, t, table, rest) else table;
      if MayVote(lat, t, now, c.1, isFinal) then Verified(lat, t, table, rest, isFinal) + [c] else Verified(lat, t, table, rest, isFinal)
  }

  lemma VerifiedNothing(lat: Lattice, t: Tables, table: VoteTable, isFinal: bool)
    ensures Verified(lat, t, table, [], isFinal) == [] && TableAfter(lat, t, table, []) == table
  {
  }

  lemma VerifiedStep(lat: Lattice, t: Tables, table: VoteTable, candidates: seq<(Hash, Hash)>, i: nat, isFinal: bool)
    requires i < |candidates|
    ensures
      var h := candidates[i].1;
      var verified := Verified(lat, t, table, candidates[..i], isFinal);
      var now := if isFinal then TableAfter(lat, t, table, candidates[..i]) else table;
      var yes := MayVote(lat, t, now, h, isFinal);
      && Verified(lat, t, table, candidates[..i + 1], isFinal) == (if yes then verified + [candidates[i]] else verified)
      && (isFinal ==> TableAfter(lat, t, table, candidates[..i + 1]) ==
                      if yes then now[lat.content(h).QualifiedRoot() := h] else now)
  {
    assert candidates[..i + 1][..i] == candidates[..i];
  }

  /** Candidate `i` is approved for a final vote. */
  predicate Approved(lat: Lattice, t: Tables, table: VoteTable, candidates: seq<(Hash, Hash)>, i: nat)
    requires i < |candidates|
  {
    MayVote(lat, t, TableAfter(lat, t, table, candidates[..i]), candidates[i].1, true)
  }

  /** Some vote on record is for another block that competes with this one. */
  predicate Taken(lat: Lattice, table: VoteTable, h: Hash) {
    var root := lat.content(h).QualifiedRoot();
    root in table && table[root] != h
  }

  /** Candidate `j` is approved and competes with this block. */
  predicate Outvotes(lat: Lattice, t: Tables, table: VoteTable, candidates: seq<(Hash, Hash)>, j: nat, h: Hash)
    requires j < |candidates|
  {
    Approved(lat, t, table, candidates, j) && Compete(lat, candidates[j].1, h) && candidates[j].1 != h
  }

  lemma {:induction false} TakenAfter(lat: Lattice, t: Tables, table: VoteTable, candidates: seq<(Hash, Hash)>, n: nat, h: Hash)
    requires n <= |candidates|
    ensures Taken(lat, TableAfter(lat, t, table, candidates[..n]), h) <==>
      Taken(lat, table, h) || exists j :: 0 <= j < n && Outvotes(lat, t, table, candidates, j, h)
  {
    hide MayVote;
    if n > 0 {
      var i := n - 1;
      TakenAfter(lat, t, table, candidates, i, h);
      assert candidates[..n][..i] == candidates[..i];
      SameRootMeansCompeting(lat, candidates[i].1, h);
      SameRootApproved(lat, t, TableAfter(lat, t, table, candidates[..i]), candidates[i].1);
      assert (exists j :: 0 <= j < n && Outvotes(lat, t, table, candidates, j, h)) <==>
        (exists j :: 0 <= j < i && Outvotes(lat, t, table, candidates, j, h)) || Outvotes(lat, t, table, candidates, i, h);
    } else {
      assert candidates[..0] == [];
    }
  }

  lemma SameRootApproved(lat: Lattice, t: Tables, table: VoteTable, h: Hash)
    ensures MayVote(lat, t, table, h, true) ==> !Taken(lat, table, h)
    ensures MayVote(lat, t, table, h, true) <==> DependenciesConfirmed(lat, t, h) && !Taken(lat, table, h)
  {
  }

  /** When nobody else writes: a candidate is approved for a final vote exactly if its block is stored, all it depends on is
      confirmed, and neither a vote on record nor an earlier approved candidate is for a block that competes with it. */
  lemma ApprovedExactly(lat: Lattice, t: Tables, table: VoteTable, candidates: seq<(Hash, Hash)>, i: nat)
    requires i < |candidates|
    ensures
      var h := candidates[i].1;
      Approved(lat, t, table, candidates, i) <==>
        && h in t.blocks && (forall d :: d in lat.Dependencies(h) ==> t.Confirmed(d))
        && !Taken(lat, table, h)
        && forall j :: 0 <= j < i ==> !Outvotes(lat, t, table, candidates, j, h)
  {
    hide MayVote, Taken, Outvotes, Tables.Confirmed;
    var h := candidates[i].1;
    TakenAfter(lat, t, table, candidates, i, h);
    SameRootApproved(lat, t, TableAfter(lat, t, table, candidates[..i]), h);
  }

  /** So candidates that do not compete with each other do not get in each other's way. */
  lemma {:induction false} AllApproved(lat: Lattice, t: Tables, table: VoteTable, candidates: seq<(Hash, Hash)>, n: nat)
    requires n <= |candidates|
    requires forall c :: c in candidates ==> DependenciesConfirmed(lat, t, c.1) && !Taken(lat, table, c.1)
    requires forall c, d :: c in candidates && d in candidates && Compete(lat, c.1, d.1) ==> c.1 == d.1
    ensures Verified(lat, t, table, candidates[..n], true) == candidates[..n]
  {
    hide MayVote, Taken, Compete, DependenciesConfirmed;
    if n > 0 {
      var i := n - 1;
      AllApproved(lat, t, table, candidates, i);
      VerifiedStep(lat, t, table, candidates, i, true);
      assert candidates[i] in candidates;
      assert forall j :: 0 <= j < i ==> candidates[j] in candidates;
      TakenAfter(lat, t, table, candidates, i, candidates[i].1);
      SameRootApproved(lat, t, TableAfter(lat, t, table, candidates[..i]), candidates[i].1);
    }
  }

  class VoteVerifier {
    const store: LedgerStore
    const finalVotes: FinalVoteStore
    ghost var approved: seq<Hash>  // every hash this node ever approved for a final vote

    ghost predicate Valid()
      reads this, store, finalVotes
    {
      store.Valid() && VotesSound(store.lattice, store.View(), finalVotes.table, approved)
    }

    constructor (store: LedgerStore, finalVotes: FinalVoteStore)
      requires store.Valid()
      ensures Valid() && this.store == store && this.finalVotes == finalVotes && approved == []
    {
      this.store, this.finalVotes, approved := store, finalVotes, [];
    }

    /** The transaction is renewed: blocks may be rolled back, replaced by forks or cemented, and others may vote. */
    method Refresh(votes: VoteTable)
      requires Valid()
      modifies store, finalVotes
      ensures Valid() && store.foreign >= old(store.foreign)
      ensures store.foreign == old(store.foreign) ==> store.View() == old(store.View())
      ensures finalVotes.table == votes + old(finalVotes.table)
      ensures Later(old(store.View()), store.View()) && WriteOnce(old(finalVotes.table), finalVotes.table)
    {
      store.Refresh();
      finalVotes.OtherVotes(votes);
    }

    method DependentsConfirmed(hash: Hash) returns (yes: bool)
      requires store.Valid()
      ensures yes == DependenciesConfirmed(store.lattice, store.View(), hash)
    {
      if hash !in store.blocks {
        return false;
      }
      var dependencies := store.blocks[hash].Dependencies();
      yes := true;
      for i := 0 to |dependencies|
        invariant yes == forall d :: d in dependencies[..i] ==> store.View().Confirmed(d)
      {
        var confirmed := store.IsConfirmed(dependencies[i]);
        assert dependencies[..i + 1] == dependencies[..i] + [dependencies[i]];
        yes := yes && confirmed;
      }
      assert dependencies[..|dependencies|] == dependencies;
    }

    method ShouldVoteFinal(hash: Hash) returns (yes: bool)
      requires Valid()
      modifies this, finalVotes
      ensures Valid()
      ensures yes == MayVoteFinal(store.lattice, store.View(), old(finalVotes.table), hash)
      ensures approved == if yes then old(approved) + [hash] else old(approved)
      ensures finalVotes.table ==
              if yes then old(finalVotes.table)[store.lattice.content(hash).QualifiedRoot() := hash] else old(finalVotes.table)
    {
      yes := DependentsConfirmed(hash);
      if yes {
        var root := store.blocks[hash].QualifiedRoot();
        yes := finalVotes.Put(root, hash);
        if yes {
          approved := approved + [hash];
        }
      }
    }

    /** One candidate, with the renewal of the transaction that may precede it. */
    method Decide(hash: Hash, isFinal: bool, refresh: Option<VoteTable>) returns (yes: bool)
      requires Valid()
      modifies this, store, finalVotes
      ensures Valid() && store.foreign >= old(store.foreign) && (refresh.None? ==> store.foreign == old(store.foreign))
      ensures Later(old(store.View()), store.View()) && WriteOnce(old(finalVotes.table), finalVotes.table)
      ensures approved == if yes && isFinal then old(approved) + [hash] else old(approved)
      ensures store.foreign == old(store.foreign) && NoVotes(refresh) ==>
                && store.View() == old(store.View())
                && yes == MayVote(store.lattice, store.View(), old(finalVotes.table), hash, isFinal)
                && finalVotes.table ==
                   if yes && isFinal then old(finalVotes.table)[store.lattice.content(hash).QualifiedRoot() := hash]
                   else old(finalVotes.table)
    {
      if refresh.Some? {
        Refresh(refresh.value);
      }
      if isFinal {
        yes := ShouldVoteFinal(hash);
      } else {
        yes := DependentsConfirmed(hash);
      }
    }

    /** Filters the candidates that may be voted for. A final vote is recorded before it is approved. */
    method VerifyVotes(candidates: seq<(Hash, Hash)>, isFinal: bool, refreshes: seq<Option<VoteTable>>)
      returns (verified: seq<(Hash, Hash)>)
      requires Valid() && |refreshes| == |candidates|
      modifies this, store, finalVotes
      ensures Valid() && store.foreign >= old(store.foreign)
      ensures NeverRenewed(refreshes) ==> store.foreign == old(store.foreign)
      ensures Later(old(store.View()), store.View()) && WriteOnce(old(finalVotes.table), finalVotes.table)
      ensures approved == old(approved) + if isFinal then Votes(verified) else []
      ensures store.foreign == old(store.foreign) && NoVotesIn(refreshes) ==>
                && verified == Verified(store.lattice, old(store.View()), old(finalVotes.table), candidates, isFinal)
                && store.View() == old(store.View())
                && (isFinal ==> finalVotes.table == TableAfter(store.lattice, old(store.View()), old(finalVotes.table), candidates))
    {
      hide VoteVerifier.Valid, MayVote, Verified, TableAfter, Tables.Confirmed, LedgerStore.Valid, Lattice.Valid, NoVotes, NoVotesIn,
           NeverRenewed;
      VerifiedNothing(store.lattice, store.View(), finalVotes.table, isFinal);
      assert candidates[..0] == [];
      verified := [];
      ghost var start, table := store.View(), finalVotes.table;
      for i := 0 to |candidates|
        invariant Valid() && store.foreign >= old(store.foreign)
        invariant NeverRenewed(refreshes) ==> store.foreign == old(store.foreign)
        invariant Later(start, store.View()) && WriteOnce(table, finalVotes.table)
        invariant approved == old(approved) + if isFinal then Votes(verified) else []
        invariant store.foreign == old(store.foreign) && NoVotesIn(refreshes) ==>
                    && verified == Verified(store.lattice, start, table, candidates[..i], isFinal)
                    && store.View() == start
                    && finalVotes.table == if isFinal then TableAfter(store.lattice, start, table, candidates[..i]) else table
      {
        VerifiedStep(store.lattice, start, table, candidates, i, isFinal);
        RefreshAt(refreshes, i);
        var yes := Decide(candidates[i].1, isFinal, refreshes[i]);
        if yes {
          assert Votes(verified + [candidates[i]]) == Votes(verified) + [candidates[i].1];
          verified := verified + [candidates[i]];
        }
      }
      assert candidates[..|candidates|] == candidates;
    }

    /** Any number of final calls, with whatever others do in between: no two of the votes that came out, of whatever calls,
        are for different hashes with the same root, and whatever they depend on is confirmed. The same holds of all the
        votes this node ever approved. */
    method VerifyAllFinal(calls: seq<Call>) returns (votes: seq<(Hash, Hash)>)
      requires Valid() && forall c :: c in calls ==> |c.refreshes| == |c.candidates|
      modifies this, store, finalVotes
      ensures Valid() && approved == old(approved) + Votes(votes)
      ensures forall v, w :: v in votes && w in votes && Compete(store.lattice, v.1, w.1) ==> v.1 == w.1
      ensures forall v, d :: v in votes && d in store.lattice.Dependencies(v.1) ==> store.View().Confirmed(d)
      ensures forall h, k :: h in approved && k in approved && Compete(store.lattice, h, k) ==> h == k
    {
      votes := [];
      assert approved + Votes([]) == approved;
      for i := 0 to |calls|
        invariant Valid() && approved == old(approved) + Votes(votes)
      {
        hide VoteVerifier.Valid, Verified, TableAfter;
        Refresh(calls[i].before);
        var verified := VerifyVotes(calls[i].candidates, true, calls[i].refreshes);
        assert Votes(votes + verified) == Votes(votes) + Votes(verified);
        assert old(approved) + Votes(votes) + Votes(verified) == old(approved) + (Votes(votes) + Votes(verified));
        votes := votes + verified;
      }
      Refresh(map[]);
      forall v | v in votes ensures v.1 in approved {
        var i :| 0 <= i < |votes| && votes[i] == v;
        assert approved[|old(approved)| + i] == v.1;
      }
      forall h, k | h in approved && k in approved && Compete(store.lattice, h, k) ensures h == k {
        OneOwnerPerRoot(store.lattice, store.View(), finalVotes.table, approved, h, k);
      }
    }
  }
}
