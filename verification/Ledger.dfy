/** The ledger tables that cementing reads and writes, as a value, and the writes that transactions make to them. */
module Ledger {
  import opened Lattice
  import opened MapSums

  datatype ConfirmationHeightInfo = ConfirmationHeightInfo(height: nat, frontier: Hash)

  /** The block table, the confirmation height table and the cached counter. */
  datatype Tables = Tables(
    blocks: map<Hash, Block>,
    confirmationHeight: map<Account, ConfirmationHeightInfo>,
    confirmedCount: nat)
  {
    /** What `is_confirmed` asks: the block exists and its account is confirmed at least up to it. */
    predicate Confirmed(h: Hash) {
      && h in blocks
      && blocks[h].account in confirmationHeight
      && blocks[h].height <= confirmationHeight[blocks[h].account].height
    }

    function Heights(): map<Account, nat> {
      map a | a in confirmationHeight :: confirmationHeight[a].height
    }
  }

  // ----- What every transaction must keep -----

  ghost predicate BlocksSound(lat: Lattice, t: Tables) {
    && (forall h :: h in t.blocks ==> t.blocks[h] == lat.content(h))
    && (forall h, d :: h in t.blocks && d in lat.Dependencies(h) ==> d in t.blocks)
    && (forall h, k :: h in t.blocks && k in t.blocks && SamePlace(lat, h, k) ==> h == k)
  }

  predicate SamePlace(lat: Lattice, h: Hash, k: Hash) {
    lat.content(h).account == lat.content(k).account && lat.content(h).height == lat.content(k).height
  }

  /** The frontier of a confirmed account is that account's block at the confirmed height. */
  ghost predicate FrontiersSound(lat: Lattice, t: Tables) {
    forall a :: a in t.confirmationHeight ==>
      var info := t.confirmationHeight[a];
      info.frontier in t.blocks && lat.content(info.frontier).account == a && lat.content(info.frontier).height == info.height
  }

  ghost predicate ConfirmedClosed(lat: Lattice, t: Tables) {
    forall h, d :: t.Confirmed(h) && d in lat.Dependencies(h) ==> t.Confirmed(d)
  }

  ghost predicate Invariant(lat: Lattice, t: Tables) {
    && lat.Valid()
    && BlocksSound(lat, t)
    && FrontiersSound(lat, t)
    && ConfirmedClosed(lat, t)
    && t.confirmedCount == Sum(t.Heights())
  }

  // ----- Writes -----

  /** `Cement` is the step of the block cementer; the block processor inserts and rolls back. */
  datatype Op = Cement(hash: Hash) | Insert(hash: Hash) | RollBack(hashes: set<Hash>)

  /** A committed write, by the thread under study (`own`) or by another transaction. */
  datatype Write = Write(own: bool, op: Op)

  predicate Enabled(lat: Lattice, t: Tables, op: Op) {
    match op
    case Cement(h) =>
      h in t.blocks && !t.Confirmed(h) && forall d :: d in lat.Dependencies(h) ==> t.Confirmed(d)
    case Insert(h) =>
      && h !in t.blocks
      && (forall d :: d in lat.Dependencies(h) ==> d in t.blocks)
      && (forall k :: k in t.blocks ==> !SamePlace(lat, h, k))
    case RollBack(hs) =>
      && (forall h :: h in hs ==> h in t.blocks && !t.Confirmed(h))
      && (forall h, d :: h in t.blocks && d in lat.Dependencies(h) && d in hs ==> h in hs)
  }

  function Perform(lat: Lattice, t: Tables, op: Op): Tables {
    match op
    case Cement(h) =>
      var b := lat.content(h);
      t.(confirmationHeight := t.confirmationHeight[b.account := ConfirmationHeightInfo(b.height, h)],
         confirmedCount := t.confirmedCount + 1)
    case Insert(h) => t.(blocks := t.blocks[h := lat.content(h)])
    case RollBack(hs) => t.(blocks := t.blocks - hs)
  }

  /** Confirmation is never undone: heights only grow and confirmed blocks stay. */
  ghost predicate Later(t: Tables, u: Tables) {
    forall h :: t.Confirmed(h) ==> u.Confirmed(h)
  }

  /** Cementing a block raises exactly its own account, by exactly one. */
  lemma CementRaisesOneAccountByOne(lat: Lattice, t: Tables, h: Hash)
    requires Invariant(lat, t) && Enabled(lat, t, Cement(h))
    ensures
      var u := Perform(lat, t, Cement(h));
      var a := lat.content(h).account;
      && u.confirmationHeight.Keys == t.confirmationHeight.Keys + {a}
      && u.confirmationHeight[a].frontier == h
      && u.confirmationHeight[a].height == 1 + (if a in t.confirmationHeight then t.confirmationHeight[a].height else 0)
      && (forall x :: x in t.confirmationHeight && x != a ==> u.confirmationHeight[x] == t.confirmationHeight[x])
      && Sum(u.Heights()) == Sum(t.Heights()) + 1
  {
    var b := lat.content(h);
    assert lat.OnChain(h);
    if b.previous != ZERO {
      assert b.previous in lat.Dependencies(h);
      assert t.Confirmed(b.previous);
    }
    SumPut(t.Heights(), b.account, b.height);
    assert Perform(lat, t, Cement(h)).Heights() == t.Heights()[b.account := b.height];
  }

  /** Cementing a block confirms that block and no other. */
  lemma CementConfirmsOneBlock(lat: Lattice, t: Tables, h: Hash)
    requires Invariant(lat, t) && Enabled(lat, t, Cement(h))
    ensures forall x :: Perform(lat, t, Cement(h)).Confirmed(x) <==> t.Confirmed(x) || x == h
  {
    CementRaisesOneAccountByOne(lat, t, h);
    var u := Perform(lat, t, Cement(h));
    forall x ensures u.Confirmed(x) <==> t.Confirmed(x) || x == h {
      if u.Confirmed(x) && !t.Confirmed(x) {
        assert lat.OnChain(x);
        assert SamePlace(lat, x, h);
      }
    }
  }

  lemma PerformKeepsInvariant(lat: Lattice, t: Tables, op: Op)
    requires Invariant(lat, t) && Enabled(lat, t, op)
    ensures Invariant(lat, Perform(lat, t, op))
    ensures Later(t, Perform(lat, t, op))
  {
    match op
    case Cement(h) =>
      CementRaisesOneAccountByOne(lat, t, h);
      CementConfirmsOneBlock(lat, t, h);
    case Insert(h) =>
      InsertConfirmsNothing(lat, t, h);
    case RollBack(hs) =>
      RollBackKeepsConfirmed(lat, t, hs);
  }

  /** A freshly inserted block sits above its account's confirmed frontier. */
  lemma InsertConfirmsNothing(lat: Lattice, t: Tables, h: Hash)
    requires Invariant(lat, t) && Enabled(lat, t, Insert(h))
    ensures forall x :: Perform(lat, t, Insert(h)).Confirmed(x) <==> t.Confirmed(x)
  {
    var u := Perform(lat, t, Insert(h));
    var b := lat.content(h);
    if u.Confirmed(h) {
      var info := t.confirmationHeight[b.account];
      assert lat.OnChain(h);
      BlockAtEveryHeight(lat, t, info.frontier, b.height);
      assert false;
    }
  }

  /** An account's chain is stored without gaps. */
  lemma {:induction false} BlockAtEveryHeight(lat: Lattice, t: Tables, top: Hash, height: nat)
    requires lat.Valid() && BlocksSound(lat, t) && top in t.blocks
    requires 1 <= height <= lat.content(top).height
    ensures exists k :: k in t.blocks && lat.content(k).account == lat.content(top).account && lat.content(k).height == height
    decreases lat.content(top).height
  {
    var b := lat.content(top);
    if b.height != height {
      assert lat.OnChain(top);
      assert b.previous in lat.Dependencies(top);
      BlockAtEveryHeight(lat, t, b.previous, height);
    }
  }

  lemma RollBackKeepsConfirmed(lat: Lattice, t: Tables, hs: set<Hash>)
    requires Invariant(lat, t) && Enabled(lat, t, RollBack(hs))
    ensures forall x :: Perform(lat, t, RollBack(hs)).Confirmed(x) <==> t.Confirmed(x)
    ensures FrontiersSound(lat, Perform(lat, t, RollBack(hs)))
  {
    var u := Perform(lat, t, RollBack(hs));
    forall a | a in t.confirmationHeight ensures t.confirmationHeight[a].frontier in u.blocks {
      assert t.Confirmed(t.confirmationHeight[a].frontier);
    }
  }

  /** Everything a stored block depends on is stored. */
  lemma {:induction false} AncestorsStored(lat: Lattice, t: Tables, h: Hash)
    requires lat.Valid() && BlocksSound(lat, t) && h in t.blocks
    ensures lat.Ancestors(h) <= t.blocks.Keys
    decreases lat.rank(h)
  {
    forall d | d in lat.Dependencies(h) ensures lat.Ancestors(d) <= t.blocks.Keys {
      AncestorsStored(lat, t, d);
    }
  }

  /** Everything a confirmed block depends on is confirmed. */
  lemma {:induction false} AncestorsConfirmed(lat: Lattice, t: Tables, h: Hash, x: Hash)
    requires lat.Valid() && ConfirmedClosed(lat, t) && t.Confirmed(h) && x in lat.Ancestors(h)
    ensures t.Confirmed(x)
    decreases lat.rank(h)
  {
    if x != h {
      var d :| d in lat.Dependencies(h) && x in lat.Ancestors(d);
      AncestorsConfirmed(lat, t, d, x);
    }
  }

  // ----- Runs -----

  ghost predicate EnabledRun(lat: Lattice, t: Tables, ws: seq<Write>) {
    ws == [] ||
    (var n := |ws| - 1; EnabledRun(lat, t, ws[..n]) && Enabled(lat, PerformRun(lat, t, ws[..n]), ws[n].op))
  }

  function PerformRun(lat: Lattice, t: Tables, ws: seq<Write>): Tables {
    if ws == [] then t else Perform(lat, PerformRun(lat, t, ws[..|ws| - 1]), ws[|ws| - 1].op)
  }

  /** The blocks cemented by a run, by anybody, in order. */
  function Cemented(ws: seq<Write>): seq<Hash> {
    if ws == [] then [] else
      var w := ws[|ws| - 1];
      var before := Cemented(ws[..|ws| - 1]);
      if w.op.Cement? then before + [w.op.hash] else before
  }

  /** The blocks cemented by the thread under study, in order. */
  function OwnCemented(ws: seq<Write>): seq<Hash> {
    if ws == [] then [] else
      var w := ws[|ws| - 1];
      var before := OwnCemented(ws[..|ws| - 1]);
      if w.own && w.op.Cement? then before + [w.op.hash] else before
  }

  function ForeignWrites(ws: seq<Write>): nat {
    if ws == [] then 0 else ForeignWrites(ws[..|ws| - 1]) + if ws[|ws| - 1].own then 0 else 1
  }

  predicate NoDuplicates(s: seq<Hash>) {
    forall i, j :: 0 <= i < j < |s| ==> s[i] != s[j]
  }

  /** Safety over whole runs: after any interleaving of cementing, insertion and rollback the invariant holds,
      exactly the initially confirmed and the cemented blocks are confirmed, no block is cemented twice,
      and the cached counter has moved by the number of cemented blocks. */
  lemma {:induction false} RunIsSound(lat: Lattice, t: Tables, ws: seq<Write>)
    requires Invariant(lat, t) && EnabledRun(lat, t, ws)
    ensures Invariant(lat, PerformRun(lat, t, ws))
    ensures forall h :: PerformRun(lat, t, ws).Confirmed(h) <==> t.Confirmed(h) || h in Cemented(ws)
    ensures forall h :: h in Cemented(ws) ==> !t.Confirmed(h)
    ensures NoDuplicates(Cemented(ws))
    ensures PerformRun(lat, t, ws).confirmedCount == t.confirmedCount + |Cemented(ws)|
  {
    hide BlocksSound, FrontiersSound, ConfirmedClosed, Lattice.Valid, Tables.Confirmed;
    if ws != [] {
      var n := |ws| - 1;
      var u := PerformRun(lat, t, ws[..n]);
      RunIsSound(lat, t, ws[..n]);
      PerformKeepsInvariant(lat, u, ws[n].op);
      match ws[n].op
      case Cement(h) => CementConfirmsOneBlock(lat, u, h);
      case Insert(h) => InsertConfirmsNothing(lat, u, h);
      case RollBack(hs) => RollBackKeepsConfirmed(lat, u, hs);
    }
  }

  /** Order over whole runs: when a block is cemented, each of its dependencies was confirmed
      at the start or has been cemented earlier in the run. */
  lemma CementedInDependencyOrder(lat: Lattice, t: Tables, ws: seq<Write>, k: nat, d: Hash)
    requires Invariant(lat, t) && EnabledRun(lat, t, ws)
    requires k < |ws| && ws[k].op.Cement? && d in lat.Dependencies(ws[k].op.hash)
    ensures t.Confirmed(d) || d in Cemented(ws[..k])
  {
    PrefixEnabled(lat, t, ws, k + 1);
    assert ws[..k + 1][..k] == ws[..k];
    RunIsSound(lat, t, ws[..k]);
  }

  lemma {:induction false} PrefixEnabled(lat: Lattice, t: Tables, ws: seq<Write>, k: nat)
    requires EnabledRun(lat, t, ws) && k <= |ws|
    ensures EnabledRun(lat, t, ws[..k])
    decreases |ws|
  {
    if k == |ws| {
      assert ws[..k] == ws;
    } else {
      PrefixEnabled(lat, t, ws[..|ws| - 1], k);
      assert ws[..|ws| - 1][..k] == ws[..k];
    }
  }
}
