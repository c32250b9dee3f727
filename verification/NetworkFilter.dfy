/** The duplicate filter: a direct-mapped table of message digests with an age cutoff. */
module NetworkFilter {

  datatype Entry = Entry(digest: nat, epoch: nat)

  const EMPTY: Entry := Entry(0, 0)

  /** A call that may change the table, with the epoch at which it was made. */
  datatype Call = Applied(digest: nat, epoch: nat) | Cleared(digest: nat, epoch: nat) | ClearedAll(epoch: nat)

  /** Digests are only the same if the entry is young enough. */
  predicate Matches(e: Entry, digest: nat, cutoff: nat, now: nat) {
    e.digest == digest && e.epoch + cutoff >= now
  }

  predicate SameSlot(size: nat, a: nat, b: nat)
    requires size > 0
  {
    a % size == b % size
  }

  /** What one call makes of the slot of `digest`. */
  function SlotAfter(size: nat, cutoff: nat, slot: Entry, digest: nat, call: Call): Entry
    requires size > 0
  {
    match call
    case Applied(d, now) =>
      if SameSlot(size, d, digest) && !Matches(slot, d, cutoff, now) then Entry(d, now) else slot
    case Cleared(d, now) =>
      if SameSlot(size, d, digest) && Matches(slot, d, cutoff, now) then EMPTY else slot
    case ClearedAll(_) => EMPTY
  }

  /** The slot of `digest` after a history of calls on an initially empty table. */
  function Slot(size: nat, cutoff: nat, history: seq<Call>, digest: nat): Entry
    requires size > 0
  {
    if history == [] then EMPTY else
      SlotAfter(size, cutoff, Slot(size, cutoff, history[..|history| - 1], digest), digest, history[|history| - 1])
  }

  /** Epochs never go back. */
  predicate InOrder(history: seq<Call>, now: nat) {
    history == [] ||
    (history[|history| - 1].epoch <= now && InOrder(history[..|history| - 1], history[|history| - 1].epoch))
  }

  /** Call `j` put `digest` into the table. */
  predicate Inserted(size: nat, cutoff: nat, history: seq<Call>, j: nat, digest: nat)
    requires size > 0 && j < |history|
  {
    history[j].Applied? && history[j].digest == digest &&
    !Matches(Slot(size, cutoff, history[..j], digest), digest, cutoff, history[j].epoch)
  }

  /** A call that takes `digest` out of the table: a clear, or another digest that falls into the same slot. */
  predicate Evicts(size: nat, call: Call, digest: nat)
    requires size > 0
  {
    match call
    case Applied(d, _) => d != digest && SameSlot(size, d, digest)
    case Cleared(d, _) => d == digest
    case ClearedAll(_) => true
  }

  /** Some call inserted the digest, recently enough, and nothing has evicted it since. */
  ghost predicate Remembered(size: nat, cutoff: nat, history: seq<Call>, digest: nat, now: nat)
    requires size > 0
  {
    exists j :: 0 <= j < |history| && InsertedFresh(size, cutoff, history, j, digest, now)
  }

  ghost predicate InsertedFresh(size: nat, cutoff: nat, history: seq<Call>, j: nat, digest: nat, now: nat)
    requires size > 0 && j < |history|
  {
    && Inserted(size, cutoff, history, j, digest)
    && history[j].epoch + cutoff >= now
    && forall k :: j < k < |history| ==> !Evicts(size, history[k], digest)
  }

  lemma ExtendFresh(size: nat, cutoff: nat, history: seq<Call>, call: Call, j: nat, digest: nat, now: nat)
    requires size > 0 && j < |history| && !Evicts(size, call, digest)
    ensures InsertedFresh(size, cutoff, history, j, digest, now) <==> InsertedFresh(size, cutoff, history + [call], j, digest, now)
  {
    assert (history + [call])[..j] == history[..j];
    assert forall k :: 0 <= k < |history| ==> (history + [call])[k] == history[k];
  }

  /** A call that leaves the digest where it is. */
  lemma RememberedThrough(size: nat, cutoff: nat, before: seq<Call>, call: Call, digest: nat, now: nat)
    requires size > 0 && !Evicts(size, call, digest) && !Inserted(size, cutoff, before + [call], |before|, digest)
    ensures Remembered(size, cutoff, before, digest, now) <==> Remembered(size, cutoff, before + [call], digest, now)
  {
    forall j | 0 <= j < |before|
      ensures InsertedFresh(size, cutoff, before, j, digest, now) <==> InsertedFresh(size, cutoff, before + [call], j, digest, now)
    {
      ExtendFresh(size, cutoff, before, call, j, digest, now);
    }
    hide Inserted, Evicts;
    if Remembered(size, cutoff, before + [call], digest, now) {
      var j :| 0 <= j < |before + [call]| && InsertedFresh(size, cutoff, before + [call], j, digest, now);
      assert j < |before|;
    }
  }

  /** A call that inserts the digest makes it as fresh as can be. */
  lemma RememberedFrom(size: nat, cutoff: nat, before: seq<Call>, call: Call, digest: nat, now: nat)
    requires size > 0 && Inserted(size, cutoff, before + [call], |before|, digest) && InOrder(before, call.epoch)
    ensures Remembered(size, cutoff, before + [call], digest, now) <==> call.epoch + cutoff >= now
  {
    var history := before + [call];
    assert InsertedFresh(size, cutoff, history, |before|, digest, now) <==> call.epoch + cutoff >= now;
    hide Inserted, Evicts;
    if Remembered(size, cutoff, history, digest, now) {
      var j :| 0 <= j < |history| && InsertedFresh(size, cutoff, history, j, digest, now);
      if j < |before| {
        InOrderAt(before, call.epoch, j);
      }
    }
  }

  /** A call that takes the digest out leaves nothing to remember. */
  lemma ForgottenAfter(size: nat, cutoff: nat, before: seq<Call>, call: Call, digest: nat, now: nat)
    requires size > 0 && Evicts(size, call, digest)
    ensures !Remembered(size, cutoff, before + [call], digest, now)
  {
    forall j | 0 <= j < |before| + 1 ensures !InsertedFresh(size, cutoff, before + [call], j, digest, now) {
      assert (before + [call])[|before|] == call;
    }
  }

  /** An empty slot looks like the zero digest, inserted in epoch zero. */
  predicate FalseHit(size: nat, cutoff: nat, history: seq<Call>, digest: nat, now: nat)
    requires size > 0
  {
    digest == 0 && Slot(size, cutoff, history, digest) == EMPTY && now <= cutoff
  }

  /** Over every history of calls, with collisions and clears of expired entries: a digest is reported as seen if and only
      if it is remembered, with the zero digest in an empty slot as the one exception. */
  lemma {:induction false} SeenExactlyWhenRemembered(size: nat, cutoff: nat, history: seq<Call>, digest: nat, now: nat)
    requires size > 0 && InOrder(history, now)
    ensures Matches(Slot(size, cutoff, history, digest), digest, cutoff, now) <==>
      Remembered(size, cutoff, history, digest, now) || FalseHit(size, cutoff, history, digest, now)
    decreases |history|
  {
    if history != [] {
      hide Remembered;
      var n := |history| - 1;
      var before, call := history[..n], history[n];
      assert history == before + [call];
      InOrderLater(before, call.epoch, now);
      SeenExactlyWhenRemembered(size, cutoff, before, digest, now);
      if Evicts(size, call, digest) {
        ForgottenAfter(size, cutoff, before, call, digest, now);
      } else if Inserted(size, cutoff, history, n, digest) {
        RememberedFrom(size, cutoff, before, call, digest, now);
      } else {
        RememberedThrough(size, cutoff, before, call, digest, now);
      }
    }
  }

  lemma InOrderLater(history: seq<Call>, now: nat, later: nat)
    requires InOrder(history, now) && now <= later
    ensures InOrder(history, later)
  {
  }

  lemma {:induction false} InOrderAt(history: seq<Call>, now: nat, j: nat)
    requires InOrder(history, now) && j < |history|
    ensures history[j].epoch <= now
    decreases |history|
  {
    var n := |history| - 1;
    if j < n {
      InOrderAt(history[..n], history[n].epoch, j);
    }
  }

  class NetworkFilter {
    const items: array<Entry>
    const ageCutoff: nat
    const hasher: seq<int> -> nat
    var currentEpoch: nat
    ghost var history: seq<Call>

    /** Every slot is what the history of calls made of it. */
    ghost predicate Valid()
      reads this, items
    {
      && items.Length > 0
      && InOrder(history, currentEpoch)
      && forall d: nat :: items[d % items.Length] == Slot(items.Length, ageCutoff, history, d)
    }

    constructor (hasher: seq<int> -> nat, size: nat, ageCutoff: nat)
      requires size > 0
      ensures Valid() && history == [] && fresh(items)
      ensures this.hasher == hasher && this.ageCutoff == ageCutoff
    {
      items := new Entry[size](_ => EMPTY);
      this.hasher, this.ageCutoff, currentEpoch, history := hasher, ageCutoff, 0, [];
    }

    method Update(epochInc: nat)
      requires Valid()
      modifies this
      ensures Valid() && currentEpoch == old(currentEpoch) + epochInc && history == old(history)
    {
      InOrderLater(history, currentEpoch, currentEpoch + epochInc);
      currentEpoch := currentEpoch + epochInc;
    }

    /** Inserts the digest unless it is there. It exists exactly when it is remembered or an empty slot passes for it. */
    method ApplyDigest(digest: nat) returns (existed: bool)
      requires Valid()
      modifies this`history, items
      ensures Valid() && history == old(history) + [Applied(digest, currentEpoch)]
      ensures existed == Matches(Slot(items.Length, ageCutoff, old(history), digest), digest, ageCutoff, currentEpoch)
      ensures existed <==> Remembered(items.Length, ageCutoff, old(history), digest, currentEpoch)
                           || FalseHit(items.Length, ageCutoff, old(history), digest, currentEpoch)
    {
      SeenExactlyWhenRemembered(items.Length, ageCutoff, history, digest, currentEpoch);
      var index := digest % items.Length;
      existed := Matches(items[index], digest, ageCutoff, currentEpoch);
      ghost var before := items[..];
      if !existed {
        items[index] := Entry(digest, currentEpoch);
      }
      Record(before, Applied(digest, currentEpoch));
    }

    /** Notes a call in the history; the slots must already show its effect. */
    ghost method Record(before: seq<Entry>, call: Call)
      requires items.Length > 0 && |before| == items.Length && call.epoch == currentEpoch
      requires InOrder(history, currentEpoch)
      requires forall d: nat :: before[d % items.Length] == Slot(items.Length, ageCutoff, history, d)
      requires forall d: nat :: items[d % items.Length] == SlotAfter(items.Length, ageCutoff, before[d % items.Length], d, call)
      modifies this`history
      ensures Valid() && history == old(history) + [call]
    {
      assert (history + [call])[..|history|] == history;
      history := history + [call];
    }

    method Apply(bytes: seq<int>) returns (digest: nat, existed: bool)
      requires Valid()
      modifies this`history, items
      ensures Valid() && digest == hasher(bytes) && history == old(history) + [Applied(digest, currentEpoch)]
      ensures existed == Matches(Slot(items.Length, ageCutoff, old(history), digest), digest, ageCutoff, currentEpoch)
      ensures existed <==> Remembered(items.Length, ageCutoff, old(history), digest, currentEpoch)
                           || FalseHit(items.Length, ageCutoff, old(history), digest, currentEpoch)
    {
      digest := hasher(bytes);
      existed := ApplyDigest(digest);
    }

    method Check(digest: nat) returns (seen: bool)
      requires Valid()
      ensures seen <==> Remembered(items.Length, ageCutoff, history, digest, currentEpoch)
                        || FalseHit(items.Length, ageCutoff, history, digest, currentEpoch)
      ensures seen == Matches(Slot(items.Length, ageCutoff, history, digest), digest, ageCutoff, currentEpoch)
    {
      SeenExactlyWhenRemembered(items.Length, ageCutoff, history, digest, currentEpoch);
      seen := Matches(items[digest % items.Length], digest, ageCutoff, currentEpoch);
    }

    method Clear(digest: nat)
      requires Valid()
      modifies this`history, items
      ensures Valid() && history == old(history) + [Cleared(digest, currentEpoch)]
    {
      var index := digest % items.Length;
      ghost var before := items[..];
      if Matches(items[index], digest, ageCutoff, currentEpoch) {
        items[index] := EMPTY;
      }
      Record(before, Cleared(digest, currentEpoch));
    }

    method ClearMany(digests: seq<nat>)
      requires Valid()
      modifies this`history, items
      ensures Valid() && |history| == |old(history)| + |digests| && old(history) <= history
      ensures forall i :: 0 <= i < |digests| ==> history[|old(history)| + i] == Cleared(digests[i], currentEpoch)
    {
      for i := 0 to |digests|
        invariant Valid() && |history| == |old(history)| + i && old(history) <= history
        invariant forall j :: 0 <= j < i ==> history[|old(history)| + j] == Cleared(digests[j], currentEpoch)
      {
        Clear(digests[i]);
      }
    }

    method ClearAll()
      requires Valid()
      modifies this`history, items
      ensures Valid() && history == old(history) + [ClearedAll(currentEpoch)]
    {
      ghost var before := items[..];
      for i := 0 to items.Length
        invariant forall j :: 0 <= j < i ==> items[j] == EMPTY
        modifies items
      {
        items[i] := EMPTY;
      }
      Record(before, Call.ClearedAll(currentEpoch));
    }

    /** What other connections, the message processors and the clean-up thread may do in between, in so many calls. */
    method OtherConnections(calls: nat)
      requires Valid()
      modifies this, items
      ensures Valid() && old(history) <= history && old(currentEpoch) <= currentEpoch
      ensures calls == 0 ==> history == old(history) && currentEpoch == old(currentEpoch)
    {
      for i := 0 to calls
        invariant Valid() && old(history) <= history && old(currentEpoch) <= currentEpoch
        invariant i == 0 ==> history == old(history) && currentEpoch == old(currentEpoch)
      {
        var x: nat :| true;
        if
        case true => var _ := ApplyDigest(x);
        case true => Clear(x);
        case true => ClearAll();
        case true => Update(x);
      }
    }
  }

  /** A fresh table reports the zero digest although it was never applied, until the cutoff has passed. */
  lemma ZeroIsSeenInFreshTable(size: nat, cutoff: nat, now: nat)
    requires size > 0
    ensures Matches(Slot(size, cutoff, [], 0), 0, cutoff, now) <==> now <= cutoff
    ensures !Remembered(size, cutoff, [], 0, now)
  {
  }
}
