/** The block lattice: what each hash stands for, and the dependency order between hashes. */
module Lattice {

  type Hash = nat
  type Account = nat

  /** The all-zero hash, which stands for "no block". */
  const ZERO: Hash := 0

  /** A stored block: the fields its sideband and its hashed contents determine.
      `dependents` is the pair that `DependentBlocks` holds; either entry may be ZERO. */
  datatype Block = Block(account: Account, height: nat, previous: Hash, dependents: (Hash, Hash)) {

    /** The non-zero dependencies, in the order in which they are visited. */
    function Dependencies(): (ds: seq<Hash>)
      ensures |ds| <= 2
      ensures forall d :: d in ds <==> d != ZERO && (d == dependents.0 || d == dependents.1)
    {
      (if dependents.0 == ZERO then [] else [dependents.0]) + (if dependents.1 == ZERO then [] else [dependents.1])
    }

    /** The root a fork competes for: the predecessor, or the account when the block opens it. */
    function QualifiedRoot(): (Hash, Hash)
    {
      (if previous == ZERO then account else previous, previous)
    }
  }

  /** Block data is a function of the hash. Hashes that no block ever has may be
      given any content without dependencies. `rank` witnesses that the dependency graph has no cycle. */
  datatype Lattice = Lattice(content: Hash -> Block, rank: Hash -> nat) {

    ghost predicate Valid() {
      && (forall h, d :: d in content(h).Dependencies() ==> rank(d) < rank(h))
      && (forall h :: OnChain(h))
    }

    /** A block either opens its account at height 1 or extends, and depends on, a block one lower in the same account. */
    predicate OnChain(h: Hash) {
      var b := content(h);
      if b.previous == ZERO then b.height == 1
      else
        && b.previous in b.Dependencies()
        && content(b.previous).account == b.account
        && b.height == content(b.previous).height + 1
    }

    function Dependencies(h: Hash): seq<Hash> {
      content(h).Dependencies()
    }

    lemma DependencyIsLower(h: Hash, d: Hash)
      requires Valid() && d in Dependencies(h)
      ensures rank(d) < rank(h) && d != h
    {
    }

    /** The block itself and everything it depends on, directly or not. */
    ghost function Ancestors(h: Hash): (s: set<Hash>)
      requires Valid()
      ensures h in s
      ensures forall d :: d in Dependencies(h) ==> d in s
      decreases rank(h)
    {
      var (p, l) := content(h).dependents;
      {h}
      + (if p == ZERO then {} else assert p in content(h).Dependencies(); Ancestors(p))
      + (if l == ZERO then {} else assert l in content(h).Dependencies(); Ancestors(l))
    }

    lemma {:induction false} AncestorsAreClosed(h: Hash, x: Hash)
      requires Valid() && x in Ancestors(h)
      ensures rank(x) <= rank(h)
      ensures Ancestors(x) <= Ancestors(h)
      ensures forall d :: d in Dependencies(x) ==> d in Ancestors(h)
      decreases rank(h)
    {
      if x != h {
        var d :| d in Dependencies(h) && x in Ancestors(d);
        AncestorsAreClosed(d, x);
      }
    }
  }
}
