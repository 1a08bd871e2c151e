/**
Address generation up to the gap limit.

An address chain holds derived addresses in order.  Asking for unused addresses extends
the chain until enough of them follow the last used one; the wallet's set of all its
addresses stays the union of its two chains.
*/
module GapLimit {
  import opened Collections

  /** The address at an index of a chain; None when the derived key is unusable. */
  type Derivation<!A> = nat -> Option<A>

  /** Distinct indices give distinct addresses. */
  ghost predicate Injective<A>(derive: Derivation<A>) {
    forall m: nat, n: nat :: m != n && derive(m).Some? ==> derive(m) != derive(n)
  }

  /** The chain holds the first derived addresses. */
  ghost predicate Derived<A>(derive: Derivation<A>, chain: seq<A>) {
    forall n | 0 <= n < |chain| :: derive(n) == Some(chain[n])
  }

  /** `i` is where the unused tail of the chain starts. */
  ghost predicate TailStart<A>(chain: seq<A>, used: set<A>, i: nat) {
    && i <= |chain|
    && (i > 0 ==> chain[i - 1] in used)
    && (forall n | i <= n < |chain| :: chain[n] !in used)
  }

  /** Where the unused tail of a chain starts. */
  ghost function Tail<A>(chain: seq<A>, used: set<A>): (i: nat)
    ensures TailStart(chain, used, i)
  {
    if chain == [] || chain[|chain| - 1] in used then |chain| else Tail(chain[..|chain| - 1], used)
  }

  lemma TailStartUnique<A>(chain: seq<A>, used: set<A>, i: nat)
    requires TailStart(chain, used, i)
    ensures i == Tail(chain, used)
  {
    hide Tail;
  }

  lemma TailUnused<A>(chain: seq<A>, used: set<A>, i: nat, gapLimit: nat)
    requires TailStart(chain, used, i)
    ensures i + gapLimit <= |chain| ==> forall a | a in chain[i..i + gapLimit] :: a !in used
  {
  }

  lemma ElementsConcat<A>(s: seq<A>, t: seq<A>)
    ensures Elements(s + t) == Elements(s) + Elements(t)
  {
  }

  method FindTail<A(==)>(chain: seq<A>, used: set<A>) returns (i: nat)
    ensures i <= |chain| && TailStart(chain, used, i)
  {
    i := |chain|;
    while i > 0 && chain[i - 1] !in used
      invariant i <= |chain| && forall n | i <= n < |chain| :: chain[n] !in used
    {
      i := i - 1;
    }
  }

  lemma NewElement<A>(derive: Derivation<A>, chain: seq<A>, a: A)
    requires Injective(derive) && Derived(derive, chain) && derive(|chain|) == Some(a)
    ensures a !in chain && Derived(derive, chain + [a])
  {
  }

  /** Used addresses that are not on the chain: what generation runs out of. */
  ghost function Waiting<A>(used: set<A>, chain: seq<A>): set<A> {
    used - Elements(chain)
  }

  lemma WaitingStep<A>(used: set<A>, chain: seq<A>, a: A)
    requires a !in chain
    ensures a in used ==> |Waiting(used, chain + [a])| < |Waiting(used, chain)|
    ensures a !in used ==> Waiting(used, chain + [a]) == Waiting(used, chain)
  {
    assert Elements(chain + [a]) == Elements(chain) + {a};
    if a in used {
      assert Waiting(used, chain + [a]) == Waiting(used, chain) - {a};
    }
  }

  lemma TailStep<A>(chain: seq<A>, used: set<A>, i: nat, a: A)
    requires TailStart(chain, used, i)
    ensures TailStart(chain + [a], used, if a in used then |chain| + 1 else i)
  {
  }

  /** Extends the chain until `gapLimit` unused addresses follow the last used one, or derivation fails. */
  method Extend<A(==)>(derive: Derivation<A>, start: seq<A>, used: set<A>, gapLimit: nat)
    returns (chain: seq<A>, i: nat)
    requires Injective(derive) && Derived(derive, start)
    ensures Derived(derive, chain) && |start| <= |chain| && chain[..|start|] == start
    ensures TailStart(chain, used, i)
    ensures i + gapLimit <= |chain| || derive(|chain|) == None
    ensures |chain| == |start| || |chain| <= i + gapLimit
  {
    hide Injective, Derived, TailStart, Waiting;
    chain := start;
    i := FindTail(chain, used);
    while i + gapLimit > |chain|
      invariant Derived(derive, chain) && |start| <= |chain| && chain[..|start|] == start
      invariant TailStart(chain, used, i)
      invariant i <= |chain| && (|chain| == |start| || |chain| <= i + gapLimit)
      decreases |Waiting(used, chain)|, i + gapLimit - |chain|
    {
      var next := derive(|chain|);
      if next.None? {
        break;
      }
      NewElement(derive, chain, next.value);
      WaitingStep(used, chain, next.value);
      TailStep(chain, used, i, next.value);
      chain := chain + [next.value];
      if next.value in used {
        i := |chain|;
      }
    }
  }

  class Wallet<A(==, !new)> {
    const receive: Derivation<A>
    const change: Derivation<A>
    var externalChain: seq<A>
    var internalChain: seq<A>
    var usedAddrs: set<A>
    var allAddrs: set<A>

    ghost predicate Valid()
      reads this
    {
      && Injective(receive) && Injective(change)
      && Derived(receive, externalChain) && Derived(change, internalChain)
      && allAddrs == Elements(externalChain) + Elements(internalChain)
    }

    constructor (receive: Derivation<A>, change: Derivation<A>, used: set<A>)
      requires Injective(receive) && Injective(change)
      ensures Valid() && externalChain == internalChain == [] && usedAddrs == used
      ensures this.receive == receive && this.change == change
    {
      this.receive, this.change := receive, change;
      externalChain, internalChain, usedAddrs, allAddrs := [], [], used, {};
    }

    function Chain(internal: bool): seq<A>
      reads this
    {
      if internal then internalChain else externalChain
    }

    function DeriveOn(internal: bool): Derivation<A> {
      if internal then change else receive
    }

    /**
    Addresses for the caller: `gapLimit` unused ones following the last used one.  `moved`
    says whether growing the chain moved it in memory, which decides how the address set
    is brought up to date; `wanted` is false when only generation is asked for.
    */
    method UnusedAddrs(gapLimit: nat, internal: bool, moved: bool, wanted: bool) returns (addrs: seq<A>)
      requires Valid()
      modifies this
      ensures Valid() && usedAddrs == old(usedAddrs) && Chain(!internal) == old(Chain(!internal))
      ensures |old(Chain(internal))| <= |Chain(internal)|
      ensures Chain(internal)[..|old(Chain(internal))|] == old(Chain(internal))
      ensures var chain, i := Chain(internal), Tail(Chain(internal), usedAddrs);
              && (i + gapLimit <= |chain| || DeriveOn(internal)(|chain|) == None)
              && (|chain| == |old(Chain(internal))| || |chain| <= i + gapLimit)
              && addrs == if wanted && i + gapLimit <= |chain| then chain[i..i + gapLimit] else []
      ensures forall a | a in addrs :: a !in usedAddrs
      ensures wanted && (forall n: nat :: DeriveOn(internal)(n).Some?) ==> |addrs| == gapLimit
    {
      hide Tail, Injective, Derived, TailStart, Elements;
      var start := Chain(internal);
      var chain, i := Extend(DeriveOn(internal), start, usedAddrs, gapLimit);
      TailStartUnique(chain, usedAddrs, i);
      TailUnused(chain, usedAddrs, i, gapLimit);
      addrs := if wanted && i + gapLimit <= |chain| then chain[i..i + gapLimit] else [];
      if internal {
        internalChain := chain;
      } else {
        externalChain := chain;
      }
      ElementsConcat(start, chain[|start|..]);
      assert chain == start + chain[|start|..];
      if !moved {
        AddNew(chain, |start|);
      } else {
        Rebuild();
      }
    }

    method AddNew(chain: seq<A>, from: nat)
      requires from <= |chain|
      modifies this`allAddrs
      ensures allAddrs == old(allAddrs) + Elements(chain[from..])
    {
      for i := from to |chain|
        invariant allAddrs == old(allAddrs) + Elements(chain[from..i])
      {
        assert chain[from..i + 1] == chain[from..i] + [chain[i]];
        allAddrs := allAddrs + {chain[i]};
      }
      assert chain[from..|chain|] == chain[from..];
    }

    method Rebuild()
      modifies this`allAddrs
      ensures allAddrs == Elements(externalChain) + Elements(internalChain)
    {
      allAddrs := {};
      var i := |internalChain|;
      while i > 0
        invariant 0 <= i <= |internalChain| && allAddrs == Elements(internalChain[i..])
      {
        assert internalChain[i - 1..] == [internalChain[i - 1]] + internalChain[i..];
        allAddrs := allAddrs + {internalChain[i - 1]};
        i := i - 1;
      }
      assert internalChain[0..] == internalChain;
      i := |externalChain|;
      while i > 0
        invariant 0 <= i <= |externalChain| && allAddrs == Elements(internalChain) + Elements(externalChain[i..])
      {
        assert externalChain[i - 1..] == [externalChain[i - 1]] + externalChain[i..];
        allAddrs := allAddrs + {externalChain[i - 1]};
        i := i - 1;
      }
      assert externalChain[0..] == externalChain;
    }
  }
}
