/** Representative weights: the table in the store and the in-memory cache that must agree with it. */
module RepWeights {
  import opened MapSums

  type PublicKey = nat
  const MODULUS: nat := 0x1_0000_0000_0000_0000_0000_0000_0000_0000  // amounts are 128-bit

  type Amount = a: nat | a < MODULUS witness 0
  type Weights = map<PublicKey, Amount>

  function WrappingAdd(a: Amount, b: Amount): Amount
  {
    if a + b < MODULUS then a + b else a + b - MODULUS
  }

  lemma WrappingAddIsModular(a: Amount, b: Amount)
    ensures WrappingAdd(a, b) == (a + b) % 340282366920938463463374607431768211456
  {
  }

  /** The amount that undoes `a` under wrapping addition. */
  function Negated(a: Amount): (c: Amount)
    ensures WrappingAdd(a, c) == 0
  {
    if a == 0 then 0 else MODULUS - a
  }

  function Get(w: Weights, rep: PublicKey): Amount {
    if rep in w then w[rep] else 0
  }

  /** The cache holds exactly the stored weights that reach the minimum; the store holds no zero. */
  predicate Agree(cache: Weights, store: Weights, minWeight: Amount) {
    && NoZero(store)
    && cache == Cached(store, minWeight)
  }

  function Cached(store: Weights, minWeight: Amount): Weights {
    map rep | rep in store && store[rep] >= minWeight :: store[rep]
  }

  /** The store after one weight update. */
  function Updated(store: Weights, rep: PublicKey, amount: Amount): Weights {
    var weight := WrappingAdd(Get(store, rep), amount);
    if weight == 0 then store - {rep} else store[rep := weight]
  }

  /** The cache after the new weight of one representative is put. */
  function PutCached(cache: Weights, rep: PublicKey, weight: Amount, minWeight: Amount): Weights {
    if weight < minWeight || weight == 0 then cache - {rep} else cache[rep := weight]
  }

  lemma UpdateKeepsAgreement(cache: Weights, store: Weights, minWeight: Amount, rep: PublicKey, amount: Amount)
    requires Agree(cache, store, minWeight)
    ensures Agree(PutCached(cache, rep, WrappingAdd(Get(store, rep), amount), minWeight), Updated(store, rep, amount), minWeight)
  {
  }

  class RepWeightsUpdater {
    var cache: Weights
    var store: Weights
    const minWeight: Amount

    constructor (store: Weights, minWeight: Amount)
      ensures this.store == store && this.minWeight == minWeight && cache == map[]
    {
      this.store, this.minWeight, cache := store, minWeight, map[];
    }

    method PutCache(rep: PublicKey, weight: Amount)
      modifies this`cache
      ensures cache == PutCached(old(cache), rep, weight, minWeight)
    {
      if weight < minWeight || weight == 0 {
        cache := cache - {rep};
      } else {
        cache := cache[rep := weight];
      }
    }

    method PutStore(rep: PublicKey, previous: Amount, weight: Amount)
      requires previous == Get(store, rep) && NoZero(store)
      modifies this`store
      ensures store == if weight == 0 then old(store) - {rep} else old(store)[rep := weight]
    {
      if weight == 0 {
        if previous != 0 {
          store := store - {rep};  // deleting an absent key would fail
        }
      } else {
        store := store[rep := weight];
      }
    }

    method RepresentationAdd(rep: PublicKey, amount: Amount)
      requires Agree(cache, store, minWeight)
      modifies this
      ensures Agree(cache, store, minWeight)
      ensures store == Updated(old(store), rep, amount)
    {
      UpdateKeepsAgreement(cache, store, minWeight, rep, amount);
      var previous := Get(store, rep);
      var weight := WrappingAdd(previous, amount);
      PutStore(rep, previous, weight);
      PutCache(rep, weight);
    }

    /** Both branches, for different and for equal representatives, are two single updates. */
    method RepresentationAddDual(rep1: PublicKey, amount1: Amount, rep2: PublicKey, amount2: Amount)
      requires Agree(cache, store, minWeight)
      modifies this
      ensures Agree(cache, store, minWeight)
      ensures store == Updated(Updated(old(store), rep1, amount1), rep2, amount2)
    {
      if rep1 != rep2 {
        UpdateKeepsAgreement(cache, store, minWeight, rep1, amount1);
        ghost var cache1 := PutCached(cache, rep1, WrappingAdd(Get(store, rep1), amount1), minWeight);
        UpdateKeepsAgreement(cache1, Updated(store, rep1, amount1), minWeight, rep2, amount2);
        hide Agree;
        var previous1, previous2 := Get(store, rep1), Get(store, rep2);
        var weight1, weight2 := WrappingAdd(previous1, amount1), WrappingAdd(previous2, amount2);
        PutStore(rep1, previous1, weight1);
        PutStore(rep2, previous2, weight2);
        PutCache(rep1, weight1);
        PutCache(rep2, weight2);
      } else {
        UpdatesMerge(store, rep1, amount1, amount2);
        RepresentationAdd(rep1, WrappingAdd(amount1, amount2));
      }
    }

    /** Adds a partial map of weights to the cache, visiting its keys in any order. */
    method CopyFrom(other: Weights)
      requires NoZero(cache)
      modifies this`cache
      ensures cache == Copied(old(cache), other, minWeight)
    {
      var left := other.Keys;
      CopiedNothing(cache, minWeight);
      assert other - left == map[];
      while left != {}
        invariant left <= other.Keys
        invariant forall rep :: rep in left ==> Get(cache, rep) == Get(old(cache), rep)
        invariant cache == Copied(old(cache), other - left, minWeight)
        decreases left
      {
        var rep :| rep in left;
        ghost var before := other - left;
        CopiedStep(old(cache), before, rep, other[rep], minWeight);
        hide Copied;
        PutCache(rep, WrappingAdd(Get(cache, rep), other[rep]));
        left := left - {rep};
        assert other - left == before[rep := other[rep]];
      }
      assert other - {} == other;
    }
  }

  lemma UpdatesMerge(store: Weights, rep: PublicKey, a: Amount, b: Amount)
    ensures Updated(Updated(store, rep, a), rep, b) == Updated(store, rep, WrappingAdd(a, b))
  {
    assert WrappingAdd(WrappingAdd(Get(store, rep), a), b) == WrappingAdd(Get(store, rep), WrappingAdd(a, b));
  }

  // ----- Laws of updates -----

  datatype Update = Update(rep: PublicKey, amount: Amount)

  function UpdatedAll(store: Weights, updates: seq<Update>): Weights {
    if updates == [] then store else
      var u := updates[|updates| - 1];
      Updated(UpdatedAll(store, updates[..|updates| - 1]), u.rep, u.amount)
  }

  /** What a list of updates adds to one representative. */
  function Added(updates: seq<Update>, rep: PublicKey): Amount {
    if updates == [] then 0 else
      var u := updates[|updates| - 1];
      var before := Added(updates[..|updates| - 1], rep);
      if u.rep == rep then WrappingAdd(before, u.amount) else before
  }

  /** What a list of updates adds in all. */
  function AddedInAll(updates: seq<Update>): Amount {
    if updates == [] then 0 else WrappingAdd(AddedInAll(updates[..|updates| - 1]), updates[|updates| - 1].amount)
  }

  predicate NoZero(store: Weights) {
    forall rep :: rep in store ==> store[rep] != 0
  }

  function Total(store: Weights): map<PublicKey, nat> {
    map rep | rep in store :: store[rep]
  }

  /** Equal modulo 2^128. */
  predicate Congruent(a: int, b: int) {
    (a - b) % MODULUS == 0
  }

  lemma CongruentStep(c: int, b: int, a: int, p: Amount, x: Amount)
    requires Congruent(b, a + p) && Congruent(c, b + x)
    ensures Congruent(c, a + WrappingAdd(p, x))
  {
    var i, j := (b - (a + p)) / MODULUS, (c - (b + x)) / MODULUS;
    assert c - (a + p + x) == (i + j) * MODULUS;
  }

  lemma UpdateMovesTotal(store: Weights, rep: PublicKey, amount: Amount)
    ensures Congruent(Sum(Total(Updated(store, rep, amount))), Sum(Total(store)) + amount)
  {
    var weight := WrappingAdd(Get(store, rep), amount);
    SumPut(Total(store), rep, weight);
    if weight == 0 {
      SumRemove(Total(store)[rep := 0], rep);
      assert Total(store)[rep := 0] - {rep} == Total(Updated(store, rep, amount));
    } else {
      assert Total(store)[rep := weight] == Total(Updated(store, rep, amount));
    }
  }

  /** After any sequence of updates: the store is determined, representative by representative, by the amounts added;
      it never holds a zero; and its total has moved by all the amounts, modulo 2^128. */
  lemma {:induction false} UpdatesAddUp(store: Weights, updates: seq<Update>)
    requires NoZero(store)
    ensures NoZero(UpdatedAll(store, updates))
    ensures forall rep :: Get(UpdatedAll(store, updates), rep) == WrappingAdd(Get(store, rep), Added(updates, rep))
    ensures Congruent(Sum(Total(UpdatedAll(store, updates))), Sum(Total(store)) + AddedInAll(updates))
  {
    if updates != [] {
      var before := updates[..|updates| - 1];
      var u := updates[|updates| - 1];
      UpdatesAddUp(store, before);
      TotalMoves(store, updates);
    }
  }

  lemma {:induction false} TotalMoves(store: Weights, updates: seq<Update>)
    ensures Congruent(Sum(Total(UpdatedAll(store, updates))), Sum(Total(store)) + AddedInAll(updates))
  {
    if updates != [] {
      var before := updates[..|updates| - 1];
      var u := updates[|updates| - 1];
      TotalMoves(store, before);
      UpdateMovesTotal(UpdatedAll(store, before), u.rep, u.amount);
      CongruentStep(Sum(Total(UpdatedAll(store, updates))), Sum(Total(UpdatedAll(store, before))), Sum(Total(store)),
                    AddedInAll(before), u.amount);
    }
  }

  /** A store without zeros is determined by its weights. */
  lemma SameWeightsSameStore(s: Weights, t: Weights)
    requires NoZero(s) && NoZero(t) && forall rep :: Get(s, rep) == Get(t, rep)
    ensures s == t
  {
    forall rep ensures rep in s <==> rep in t {
      assert Get(s, rep) == Get(t, rep);
    }
    forall rep | rep in s ensures s[rep] == t[rep] {
      assert Get(s, rep) == Get(t, rep);
    }
  }

  /** Undo: an update followed by its negation restores the store, and with it the cache. */
  lemma UpdateUndone(store: Weights, rep: PublicKey, amount: Amount, minWeight: Amount)
    requires NoZero(store)
    ensures Updated(Updated(store, rep, amount), rep, Negated(amount)) == store
    ensures Cached(Updated(Updated(store, rep, amount), rep, Negated(amount)), minWeight) == Cached(store, minWeight)
  {
    UpdatesMerge(store, rep, amount, Negated(amount));
  }

  /** Sequences that add the same amounts to everybody have the same effect, in particular any reordering. */
  lemma SameAmountsSameStore(store: Weights, us: seq<Update>, vs: seq<Update>)
    requires NoZero(store) && forall rep :: Added(us, rep) == Added(vs, rep)
    ensures UpdatedAll(store, us) == UpdatedAll(store, vs)
  {
    UpdatesAddUp(store, us);
    UpdatesAddUp(store, vs);
    SameWeightsSameStore(UpdatedAll(store, us), UpdatedAll(store, vs));
  }

  // ----- Rebuilding the cache from partial maps -----

  /** A single or a dual update. */
  datatype Change = One(update: Update) | Two(first: Update, second: Update)

  function Single(changes: seq<Change>): seq<Update> {
    if changes == [] then [] else
      var c := changes[|changes| - 1];
      Single(changes[..|changes| - 1]) + if c.One? then [c.update] else [c.first, c.second]
  }

  lemma UpdatedAllNext(store: Weights, us: seq<Update>, u: Update)
    ensures UpdatedAll(store, us + [u]) == Updated(UpdatedAll(store, us), u.rep, u.amount)
  {
    assert (us + [u])[..|us|] == us;
  }

  /** Any sequence of single and dual updates keeps store and cache in agreement and comes to its single updates. */
  method ApplyAll(updater: RepWeightsUpdater, changes: seq<Change>)
    requires Agree(updater.cache, updater.store, updater.minWeight)
    modifies updater
    ensures Agree(updater.cache, updater.store, updater.minWeight)
    ensures updater.store == UpdatedAll(old(updater.store), Single(changes))
  {
    for i := 0 to |changes|
      invariant Agree(updater.cache, updater.store, updater.minWeight)
      invariant updater.store == UpdatedAll(old(updater.store), Single(changes[..i]))
    {
      hide Agree, Updated, UpdatedAll;
      assert changes[..i + 1][..i] == changes[..i];
      ghost var before, start := Single(changes[..i]), old(updater.store);
      match changes[i] {
        case One(u) =>
          UpdatedAllNext(start, before, u);
          updater.RepresentationAdd(u.rep, u.amount);
        case Two(u, v) =>
          UpdatedAllNext(start, before, u);
          UpdatedAllNext(start, before + [u], v);
          assert before + [u] + [v] == before + [u, v];
          updater.RepresentationAddDual(u.rep, u.amount, v.rep, v.amount);
      }
    }
    assert changes[..|changes|] == changes;
  }

  function Keep(weight: Amount, minWeight: Amount): Amount {
    if weight < minWeight then 0 else weight
  }

  function Copied(cache: Weights, other: Weights, minWeight: Amount): Weights {
    map rep | rep in cache.Keys + other.Keys && Weight(cache, other, minWeight, rep) != 0 :: Weight(cache, other, minWeight, rep)
  }

  function Weight(cache: Weights, other: Weights, minWeight: Amount, rep: PublicKey): Amount {
    if rep in other then Keep(WrappingAdd(Get(cache, rep), other[rep]), minWeight) else Get(cache, rep)
  }

  lemma CopiedStep(cache: Weights, other: Weights, rep: PublicKey, amount: Amount, minWeight: Amount)
    requires rep !in other
    ensures Copied(cache, other[rep := amount], minWeight) ==
            PutCached(Copied(cache, other, minWeight), rep, WrappingAdd(Get(cache, rep), amount), minWeight)
    ensures Get(Copied(cache, other, minWeight), rep) == Get(cache, rep)
  {
  }

  lemma CopiedNothing(cache: Weights, minWeight: Amount)
    requires NoZero(cache)
    ensures Copied(cache, map[], minWeight) == cache
  {
  }

  /** The cache after copying several partial maps, as the threads of the start-up traversal deliver them. */
  function CopiedAll(cache: Weights, parts: seq<Weights>, minWeight: Amount): Weights
    decreases |parts|
  {
    if parts == [] then cache else CopiedAll(Copied(cache, parts[0], minWeight), parts[1..], minWeight)
  }

  /** The same for one representative: a running sum that is forgotten whenever it is below the minimum. */
  function RunningSum(weight: Amount, amounts: seq<Amount>, minWeight: Amount): Amount
    decreases |amounts|
  {
    if amounts == [] then weight else
      RunningSum(Keep(WrappingAdd(weight, amounts[0]), minWeight), amounts[1..], minWeight)
  }

  /** The amounts the parts hold for one representative. A part that does not mention it is left out. */
  function AmountsOf(parts: seq<Weights>, rep: PublicKey): seq<Amount> {
    if parts == [] then [] else
      var rest := AmountsOf(parts[1..], rep);
      if rep in parts[0] then [parts[0][rep]] + rest else rest
  }

  lemma {:induction false} CopiedIsRunningSum(cache: Weights, parts: seq<Weights>, minWeight: Amount, rep: PublicKey)
    requires NoZero(cache)
    ensures NoZero(CopiedAll(cache, parts, minWeight))
    ensures Get(CopiedAll(cache, parts, minWeight), rep) == RunningSum(Get(cache, rep), AmountsOf(parts, rep), minWeight)
    decreases |parts|
  {
    if parts != [] {
      assert rep in parts[0] ==> AmountsOf(parts, rep)[1..] == AmountsOf(parts[1..], rep);
      CopiedIsRunningSum(Copied(cache, parts[0], minWeight), parts[1..], minWeight, rep);
    }
  }

  function Plain(amounts: seq<Amount>): nat {
    if amounts == [] then 0 else amounts[0] + Plain(amounts[1..])
  }

  /** The condition under which nothing is forgotten: the total stays below the minimum,
      or the first non-zero amount already reaches it. */
  predicate NothingForgotten(amounts: seq<Amount>, minWeight: Amount) {
    Plain(amounts) < minWeight || FirstReaches(amounts, minWeight)
  }

  predicate FirstReaches(amounts: seq<Amount>, minWeight: Amount) {
    amounts == [] || if amounts[0] == 0 then FirstReaches(amounts[1..], minWeight) else amounts[0] >= minWeight
  }

  lemma {:induction false} RunningSumAboveMinimum(weight: Amount, amounts: seq<Amount>, minWeight: Amount)
    requires weight >= minWeight && weight + Plain(amounts) < MODULUS
    ensures RunningSum(weight, amounts, minWeight) == weight + Plain(amounts)
    decreases |amounts|
  {
    if amounts != [] {
      RunningSumAboveMinimum(weight + amounts[0], amounts[1..], minWeight);
    }
  }

  lemma {:induction false} RunningSumBounded(weight: Amount, amounts: seq<Amount>, minWeight: Amount)
    requires weight + Plain(amounts) < MODULUS
    ensures RunningSum(weight, amounts, minWeight) <= weight + Plain(amounts)
    ensures weight + Plain(amounts) < minWeight && weight == 0 ==> RunningSum(weight, amounts, minWeight) == 0
    decreases |amounts|
  {
    if amounts != [] {
      RunningSumBounded(Keep(weight + amounts[0], minWeight), amounts[1..], minWeight);
    }
  }

  /** Copying the parts one after the other gives the weight of their sum if and only if nothing is forgotten. */
  lemma {:induction false} PartsAddUpExactly(amounts: seq<Amount>, minWeight: Amount)
    requires Plain(amounts) < MODULUS
    ensures RunningSum(0, amounts, minWeight) == Keep(Plain(amounts), minWeight) <==> NothingForgotten(amounts, minWeight)
  {
    RunningSumBounded(0, amounts, minWeight);
    if amounts != [] {
      if amounts[0] == 0 {
        PartsAddUpExactly(amounts[1..], minWeight);
      } else if amounts[0] >= minWeight {
        RunningSumAboveMinimum(amounts[0], amounts[1..], minWeight);
      } else {
        RunningSumBounded(0, amounts[1..], minWeight);
      }
    }
  }

  /** The rebuilt cache is right for a representative if and only if none of its partial sums is forgotten. */
  lemma RebuiltWeightIsRight(parts: seq<Weights>, minWeight: Amount, rep: PublicKey)
    requires Plain(AmountsOf(parts, rep)) < MODULUS
    ensures Get(CopiedAll(map[], parts, minWeight), rep) == Keep(Plain(AmountsOf(parts, rep)), minWeight) <==>
            NothingForgotten(AmountsOf(parts, rep), minWeight)
  {
    CopiedIsRunningSum(map[], parts, minWeight, rep);
    PartsAddUpExactly(AmountsOf(parts, rep), minWeight);
  }

  /** With a minimum of at most 1 nothing is ever forgotten, so neither the split nor the order matters. */
  lemma {:induction false} SmallMinimumForgetsNothing(amounts: seq<Amount>, minWeight: Amount)
    requires minWeight <= 1
    ensures NothingForgotten(amounts, minWeight)
  {
    if amounts != [] {
      SmallMinimumForgetsNothing(amounts[1..], minWeight);
    }
  }

  lemma SplitDoesNotMatter(parts: seq<Weights>, parts': seq<Weights>, minWeight: Amount)
    requires minWeight <= 1
    requires forall rep :: Plain(AmountsOf(parts, rep)) == Plain(AmountsOf(parts', rep)) < MODULUS
    ensures CopiedAll(map[], parts, minWeight) == CopiedAll(map[], parts', minWeight)
  {
    CopiedIsRunningSum(map[], parts, minWeight, 0);
    CopiedIsRunningSum(map[], parts', minWeight, 0);
    forall rep ensures Get(CopiedAll(map[], parts, minWeight), rep) == Get(CopiedAll(map[], parts', minWeight), rep) {
      CopiedIsRunningSum(map[], parts, minWeight, rep);
      CopiedIsRunningSum(map[], parts', minWeight, rep);
      SmallMinimumForgetsNothing(AmountsOf(parts, rep), minWeight);
      SmallMinimumForgetsNothing(AmountsOf(parts', rep), minWeight);
      PartsAddUpExactly(AmountsOf(parts, rep), minWeight);
      PartsAddUpExactly(AmountsOf(parts', rep), minWeight);
    }
    SameWeightsSameStore(CopiedAll(map[], parts, minWeight), CopiedAll(map[], parts', minWeight));
  }

  /** With a larger minimum it does: two small parts are dropped where their sum would have been kept. */
  lemma SplitMattersForLargerMinimum(rep: PublicKey, minWeight: Amount)
    requires minWeight >= 2
    ensures CopiedAll(map[], [map[rep := minWeight - 1], map[rep := 1]], minWeight) == map[]
    ensures CopiedAll(map[], [map[rep := minWeight]], minWeight) == map[rep := minWeight]
  {
    var small: Weights, one: Weights, all: Weights := map[rep := minWeight - 1], map[rep := 1], map[rep := minWeight];
    assert Copied(map[], small, minWeight) == map[] && Copied(map[], one, minWeight) == map[];
    assert Copied(map[], all, minWeight) == all;
    assert [small, one][1..] == [one] && [one][1..] == [] && [all][1..] == [];
    assert CopiedAll(map[], [one], minWeight) == CopiedAll(Copied(map[], one, minWeight), [], minWeight);
  }
}
