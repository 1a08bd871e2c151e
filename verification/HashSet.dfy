/**
The linear-probing hash set every other component indexes with.

A set of items over an equivalence `eq` is a table of buckets.  An item sits at
the first free bucket at or after its home bucket, cyclically.  Removal empties a
bucket and re-inserts the rest of the cluster; insertion grows the table when the
load passes two thirds.  The table is proved to represent a set of pairwise
inequivalent items under every operation.
*/
module HashSet {
  import opened Collections

  type Slots<T> = seq<Option<T>>

  // ------------------------------------------------------------ table sizes

  const TABLE_SIZES_LEN: nat := 51

  /** The bucket counts a table passes through as it grows. */
  function TableSize(i: nat): nat
    requires i < TABLE_SIZES_LEN
  {
    match i
    case 0 => 1 case 1 => 3 case 2 => 7 case 3 => 13 case 4 => 23 case 5 => 37 case 6 => 59 case 7 => 97
    case 8 => 149 case 9 => 227 case 10 => 347 case 11 => 523 case 12 => 787 case 13 => 1187 case 14 => 1783
    case 15 => 2677 case 16 => 4019 case 17 => 6037 case 18 => 9059 case 19 => 13591 case 20 => 20389
    case 21 => 30593 case 22 => 45887 case 23 => 68863 case 24 => 103307 case 25 => 154981 case 26 => 232487
    case 27 => 348739 case 28 => 523129 case 29 => 784697 case 30 => 1177067 case 31 => 1765609
    case 32 => 2648419 case 33 => 3972643 case 34 => 5958971 case 35 => 8938469 case 36 => 13407707
    case 37 => 20111563 case 38 => 30167359 case 39 => 45251077 case 40 => 67876637 case 41 => 101814991
    case 42 => 152722489 case 43 => 229083739 case 44 => 343625629 case 45 => 515438447 case 46 => 773157683
    case 47 => 1159736527 case 48 => 1739604799 case 49 => 2609407319 case _ => 3914111041
  }

  /** The most items a table of `size` buckets keeps without growing. */
  function Limit(size: nat): nat {
    ((size + 2) / 3) * 2
  }

  /** At the limit there is still a free bucket, and the next size takes one item more. */
  lemma SizesGrow(i: nat)
    requires 1 <= i < TABLE_SIZES_LEN
    ensures 3 <= TableSize(i) && Limit(TableSize(i)) < TableSize(i)
    ensures i + 1 < TABLE_SIZES_LEN ==>
              TableSize(i) < TableSize(i + 1) && Limit(TableSize(i)) < Limit(TableSize(i + 1))
    ensures TableSize(i - 1) < TableSize(i)
  {
  }

  // -------------------------------------------------------- cyclic positions

  function Next(n: nat, i: nat): nat
    requires i < n
  {
    if i + 1 == n then 0 else i + 1
  }

  /** Steps from bucket `a` forward to bucket `b`. */
  function Dist(n: nat, a: nat, b: nat): nat
    requires a < n && b < n
  {
    if a <= b then b - a else b + n - a
  }

  lemma NextMod(n: nat, i: nat)
    requires i < n
    ensures (i + 1) % n == Next(n, i)
  {
  }

  // --------------------------------------------------------- abstract tables

  lemma LawfulEq<T(!new)>(hash: T -> nat, eq: (T, T) -> bool, x: T)
    requires Lawful(hash, eq)
    ensures eq(x, x)
  {
  }

  /** `eq` is an equivalence and equivalent items hash alike. */
  ghost predicate Lawful<T(!new)>(hash: T -> nat, eq: (T, T) -> bool) {
    && (forall x :: eq(x, x))
    && (forall x, y :: eq(x, y) ==> eq(y, x) && hash(x) == hash(y))
    && (forall x, y, z :: eq(x, y) && eq(y, z) ==> eq(x, z))
  }

  function Home<T>(hash: T -> nat, n: nat, x: T): nat
    requires n > 0
    ensures Home(hash, n, x) < n
  {
    hash(x) % n
  }

  ghost function Items<T>(tab: Slots<T>): set<T> {
    set i | 0 <= i < |tab| && tab[i].Some? :: tab[i].value
  }

  ghost function Occupied<T>(tab: Slots<T>): set<nat> {
    set i: nat | i < |tab| && tab[i].Some?
  }

  /** Every bucket from an item's home up to the item is taken. */
  ghost predicate Reachable<T>(hash: T -> nat, tab: Slots<T>) {
    forall i, q | 0 <= i < |tab| && 0 <= q < |tab| && tab[i].Some? && tab[q].None? ::
      var h := Home(hash, |tab|, tab[i].value); Dist(|tab|, h, i) <= Dist(|tab|, h, q)
  }

  ghost predicate Unique<T>(eq: (T, T) -> bool, tab: Slots<T>) {
    forall i, j | 0 <= i < |tab| && 0 <= j < |tab| && i != j && tab[i].Some? && tab[j].Some? ::
      !eq(tab[i].value, tab[j].value)
  }

  /** The bucket where probing for `x` stops: free or equivalent, after others that are neither. */
  ghost predicate IsSlot<T>(hash: T -> nat, eq: (T, T) -> bool, tab: Slots<T>, x: T, j: nat)
    requires |tab| > 0
  {
    var n, h := |tab|, Home(hash, |tab|, x);
    && j < n && (tab[j].None? || eq(tab[j].value, x))
    && forall q | 0 <= q < n && Dist(n, h, q) < Dist(n, h, j) :: tab[q].Some? && !eq(tab[q].value, x)
  }

  /** The members equivalent to `x`. */
  ghost function Class<T>(eq: (T, T) -> bool, items: set<T>, x: T): set<T> {
    set y | y in items && eq(y, x)
  }

  /** A table that is not full has a free bucket. */
  lemma {:induction false} FreeBucket<T>(tab: Slots<T>) returns (e: nat)
    requires |Occupied(tab)| < |tab|
    ensures e < |tab| && tab[e].None?
  {
    var n := |tab| - 1;
    if tab[n].None? {
      e := n;
    } else {
      assert Occupied(tab) == Occupied(tab[..n]) + {n};
      e := FreeBucket(tab[..n]);
    }
  }

  /** Where probing stops on a free bucket, no item of the class is anywhere. */
  lemma SlotFreeMeansAbsent<T(!new)>(hash: T -> nat, eq: (T, T) -> bool, tab: Slots<T>, x: T, j: nat)
    requires |tab| > 0 && Lawful(hash, eq) && Reachable(hash, tab) && IsSlot(hash, eq, tab, x, j) && tab[j].None?
    ensures forall i | 0 <= i < |tab| && tab[i].Some? :: !eq(tab[i].value, x)
  {
  }

  /** An item already in the table is where probing for it stops. */
  lemma SlotOfMember<T(!new)>(hash: T -> nat, eq: (T, T) -> bool, tab: Slots<T>, i: nat, j: nat)
    requires i < |tab| && tab[i].Some? && Lawful(hash, eq) && Reachable(hash, tab) && Unique(eq, tab)
    requires IsSlot(hash, eq, tab, tab[i].value, j)
    ensures j == i
  {
  }

  /** Storing `x` where probing stops replaces its class by `x`. */
  lemma StoreAt<T(!new)>(hash: T -> nat, eq: (T, T) -> bool, tab: Slots<T>, x: T, j: nat)
    requires |tab| > 0 && Lawful(hash, eq) && Reachable(hash, tab) && Unique(eq, tab) && IsSlot(hash, eq, tab, x, j)
    ensures Reachable(hash, tab[j := Some(x)]) && Unique(eq, tab[j := Some(x)])
    ensures Items(tab[j := Some(x)]) == Items(tab) - Class(eq, Items(tab), x) + {x}
    ensures Occupied(tab[j := Some(x)]) == Occupied(tab) + {j}
  {
    var tab' := tab[j := Some(x)];
    if tab[j].None? { SlotFreeMeansAbsent(hash, eq, tab, x, j); }
    assert forall i | 0 <= i < |tab| && i != j && tab[i].Some? :: !eq(tab[i].value, x) && !eq(x, tab[i].value);
    StoreItems(eq, tab, x, j);
  }

  lemma StoreItems<T>(eq: (T, T) -> bool, tab: Slots<T>, x: T, j: nat)
    requires j < |tab| && (tab[j].Some? ==> eq(tab[j].value, x))
    requires forall i | 0 <= i < |tab| && i != j && tab[i].Some? :: !eq(tab[i].value, x)
    ensures Items(tab[j := Some(x)]) == Items(tab) - Class(eq, Items(tab), x) + {x}
  {
    var tab' := tab[j := Some(x)];
    forall y | y in Items(tab) - Class(eq, Items(tab), x) + {x} ensures y in Items(tab') {
      if y == x {
        assert tab'[j] == Some(x);
      } else {
        var i :| 0 <= i < |tab| && tab[i].Some? && tab[i].value == y;
        assert tab'[i] == tab[i];
      }
    }
  }

  // ------------------------------------------------------- removal's clean-up

  /** The clean-up at bucket `i` of the cluster that starts at the hole `r` and ends at the free
      bucket `f`.  In the order that starts after `f`, everything before `i` is settled, and the
      rest of the cluster is intact but for holes between `r` and `i`. */
  ghost predicate Cleaning<T>(hash: T -> nat, tab: Slots<T>, r: nat, i: nat, f: nat)
  {
    && r < |tab| && i < |tab| && f < |tab| && tab[f].None?
    && Rank(|tab|, f, r) < Rank(|tab|, f, i)
    && Settled(hash, tab, i, f) && Pending(hash, tab, r, i, f)
  }

  /** Position in the order that starts just after `f` and ends with `f`. */
  function Rank(n: nat, f: nat, k: nat): nat
    requires f < n && k < n
  {
    Dist(n, Next(n, f), k)
  }

  ghost predicate Settled<T>(hash: T -> nat, tab: Slots<T>, i: nat, f: nat)
    requires i < |tab| && f < |tab|
  {
    forall k, q |
      0 <= k < |tab| && 0 <= q < |tab| && tab[k].Some? && tab[q].None? && Rank(|tab|, f, k) < Rank(|tab|, f, i) ::
      var h := Rank(|tab|, f, Home(hash, |tab|, tab[k].value));
      h <= Rank(|tab|, f, k) && (Rank(|tab|, f, q) < h || Rank(|tab|, f, k) <= Rank(|tab|, f, q))
  }

  ghost predicate Pending<T>(hash: T -> nat, tab: Slots<T>, r: nat, i: nat, f: nat)
    requires r < |tab| && i < |tab| && f < |tab|
  {
    && (forall k | 0 <= k < |tab| && Rank(|tab|, f, i) <= Rank(|tab|, f, k) && k != f :: tab[k].Some?)
    && (forall k, q |
          0 <= k < |tab| && 0 <= q < |tab| && tab[k].Some? && tab[q].None? && Rank(|tab|, f, i) <= Rank(|tab|, f, k) ::
          var h := Rank(|tab|, f, Home(hash, |tab|, tab[k].value));
          && h <= Rank(|tab|, f, k)
          && (Rank(|tab|, f, q) < h || Rank(|tab|, f, k) <= Rank(|tab|, f, q) ||
              Rank(|tab|, f, r) <= Rank(|tab|, f, q) < Rank(|tab|, f, i)))
  }

  /** The first free bucket after `r`. */
  lemma ClusterEnd<T>(tab: Slots<T>, r: nat) returns (f: nat)
    requires r < |tab| && tab[r].Some? && |Occupied(tab)| < |tab|
    ensures f < |tab| && tab[f].None?
    ensures forall k | 0 <= k < |tab| && Rank(|tab|, f, r) < Rank(|tab|, f, k) && k != f :: tab[k].Some?
  {
    f := FreeBucket(tab);
    while exists k :: 0 <= k < |tab| && tab[k].None? && Dist(|tab|, r, k) < Dist(|tab|, r, f)
      invariant f < |tab| && tab[f].None?
      decreases Dist(|tab|, r, f)
    {
      var k :| 0 <= k < |tab| && tab[k].None? && Dist(|tab|, r, k) < Dist(|tab|, r, f);
      f := k;
    }
  }

  lemma CleaningStart<T>(hash: T -> nat, tab: Slots<T>, r: nat, f: nat)
    requires r < |tab| && f < |tab| && tab[r].Some? && tab[f].None? && Reachable(hash, tab)
    requires forall k | 0 <= k < |tab| && Rank(|tab|, f, r) < Rank(|tab|, f, k) && k != f :: tab[k].Some?
    ensures Cleaning(hash, tab[r := None], r, Next(|tab|, r), f)
  {
    hide Rank, Home;
    RankNext(|tab|, f, r);
    RankInjective(|tab|, f);
    ReachableRanks(hash, tab, f);
  }

  /** In the order that starts after a free bucket, reaching an item never wraps around. */
  lemma ReachableRanks<T>(hash: T -> nat, tab: Slots<T>, f: nat)
    requires f < |tab| && tab[f].None? && Reachable(hash, tab)
    ensures forall k, q | 0 <= k < |tab| && 0 <= q < |tab| && tab[k].Some? && tab[q].None? ::
              var h := Rank(|tab|, f, Home(hash, |tab|, tab[k].value));
              h <= Rank(|tab|, f, k) && (Rank(|tab|, f, q) < h || Rank(|tab|, f, k) <= Rank(|tab|, f, q))
  {
  }

  lemma CleaningDone<T>(hash: T -> nat, tab: Slots<T>, r: nat, f: nat)
    requires Cleaning(hash, tab, r, f, f)
    ensures Reachable(hash, tab)
  {
    hide Rank, Dist, Home, Pending;
    var n := |tab|;
    RankLast(n, f);
    forall i, q | 0 <= i < n && 0 <= q < n && tab[i].Some? && tab[q].None?
      ensures var h := Home(hash, n, tab[i].value); Dist(n, h, i) <= Dist(n, h, q)
    {
      RankToDist(n, f, Home(hash, n, tab[i].value), i, q);
    }
  }

  lemma RankLast(n: nat, f: nat)
    requires f < n
    ensures forall k: nat | k < n && k != f :: Rank(n, f, k) < Rank(n, f, f)
  {
  }

  lemma RankToDist(n: nat, f: nat, h: nat, k: nat, q: nat)
    requires f < n && h < n && k < n && q < n && Rank(n, f, h) <= Rank(n, f, k)
    requires Rank(n, f, q) < Rank(n, f, h) || Rank(n, f, k) <= Rank(n, f, q)
    ensures Dist(n, h, k) <= Dist(n, h, q)
  {
  }

  lemma RankBetween(n: nat, f: nat, h: nat, i: nat, j: nat)
    requires f < n && h < n && i < n && j < n
    requires Rank(n, f, h) <= Rank(n, f, i) && Dist(n, h, j) <= Dist(n, h, i)
    ensures Rank(n, f, h) <= Rank(n, f, j) <= Rank(n, f, i) && (Rank(n, f, j) == Rank(n, f, i) ==> i == j)
  {
  }

  /** Probing for an item taken out of its bucket finds no equal one. */
  lemma RefoundFree<T(!new)>(hash: T -> nat, eq: (T, T) -> bool, tab: Slots<T>, i: nat, j: nat)
    requires Lawful(hash, eq) && Unique(eq, tab) && i < |tab| && tab[i].Some?
    requires IsSlot(hash, eq, tab[i := None], tab[i].value, j)
    ensures tab[i := None][j].None?
  {
    hide Home, Dist;
  }

  /** Probing for an item taken out of bucket `i` stops in the cluster, at `i` or before. */
  lemma RefoundBefore<T(!new)>(hash: T -> nat, eq: (T, T) -> bool, tab: Slots<T>, r: nat, i: nat, f: nat, j: nat)
    requires Lawful(hash, eq) && Unique(eq, tab) && Cleaning(hash, tab, r, i, f) && i != f
    requires IsSlot(hash, eq, tab[i := None], tab[i].value, j)
    ensures tab[i].Some? && tab[i := None][j].None?
    ensures Rank(|tab|, f, Home(hash, |tab|, tab[i].value)) <= Rank(|tab|, f, j) <= Rank(|tab|, f, i)
    ensures Rank(|tab|, f, r) <= Rank(|tab|, f, j)
  {
    RefoundFree(hash, eq, tab, i, j);
    var n, h := |tab|, Home(hash, |tab|, tab[i].value);
    hide Settled, Lawful, Unique, Rank, Home, Dist;
    assert Dist(n, h, j) <= Dist(n, h, i);
    RankBetween(n, f, h, i, j);
  }

  lemma CleaningStep<T(!new)>(hash: T -> nat, eq: (T, T) -> bool, tab: Slots<T>, r: nat, i: nat, f: nat, j: nat)
    requires Lawful(hash, eq) && Unique(eq, tab) && Cleaning(hash, tab, r, i, f) && i != f
    requires IsSlot(hash, eq, tab[i := None], tab[i].value, j)
    ensures tab[i].Some? && tab[i := None][j].None?
    ensures Cleaning(hash, tab[i := None][j := tab[i]], r, Next(|tab|, i), f)
  {
    RefoundBefore(hash, eq, tab, r, i, f, j);
    RankNext(|tab|, f, i);
    hide Settled, Pending;
    SettledStep(hash, eq, tab, r, i, f, j);
    PendingStep(hash, tab, r, i, f, j);
  }

  lemma PendingStep<T>(hash: T -> nat, tab: Slots<T>, r: nat, i: nat, f: nat, j: nat)
    requires Cleaning(hash, tab, r, i, f) && i != f && tab[i].Some?
    requires j < |tab| && Rank(|tab|, f, j) <= Rank(|tab|, f, i)
    ensures Pending(hash, tab[i := None][j := tab[i]], r, Next(|tab|, i), f)
  {
    hide Settled, Rank, Home;
    RankNext(|tab|, f, i);
  }

  lemma SettledStep<T(!new)>(hash: T -> nat, eq: (T, T) -> bool, tab: Slots<T>, r: nat, i: nat, f: nat, j: nat)
    requires Lawful(hash, eq) && Unique(eq, tab) && Cleaning(hash, tab, r, i, f) && i != f && tab[i].Some?
    requires IsSlot(hash, eq, tab[i := None], tab[i].value, j)
    requires Rank(|tab|, f, Home(hash, |tab|, tab[i].value)) <= Rank(|tab|, f, j) <= Rank(|tab|, f, i)
    ensures Settled(hash, tab[i := None][j := tab[i]], Next(|tab|, i), f)
  {
    var n, tab1 := |tab|, tab[i := None];
    hide Pending, Unique, Rank, Home;
    RankNext(n, f, i);
    SlotSpan(hash, eq, tab1, tab[i].value, j, f);
    var tab2 := tab1[j := tab[i]];
    forall k, q | 0 <= k < n && 0 <= q < n && tab2[k].Some? && tab2[q].None? && Rank(n, f, k) < Rank(n, f, Next(n, i))
      ensures var h := Rank(n, f, Home(hash, n, tab2[k].value));
              h <= Rank(n, f, k) && (Rank(n, f, q) < h || Rank(n, f, k) <= Rank(n, f, q))
    {
      if k != j {
        RankInjective(n, f);
        assert tab[k].Some? && Rank(n, f, k) < Rank(n, f, i);
        if q != i { assert tab[q].None?; } else { assert tab[f].None?; }
      }
    }
  }

  /** The free buckets lie outside the stretch from an item's home to where probing stops. */
  lemma SlotSpan<T>(hash: T -> nat, eq: (T, T) -> bool, tab: Slots<T>, x: T, j: nat, f: nat)
    requires f < |tab| && IsSlot(hash, eq, tab, x, j)
    requires Rank(|tab|, f, Home(hash, |tab|, x)) <= Rank(|tab|, f, j)
    ensures forall q | 0 <= q < |tab| && tab[q].None? ::
              Rank(|tab|, f, q) < Rank(|tab|, f, Home(hash, |tab|, x)) || Rank(|tab|, f, j) <= Rank(|tab|, f, q)
  {
  }

  lemma RankNext(n: nat, f: nat, i: nat)
    requires f < n && i < n && i != f
    ensures Rank(n, f, Next(n, i)) == Rank(n, f, i) + 1
  {
  }

  lemma RankInjective(n: nat, f: nat)
    requires f < n
    ensures forall a: nat, b: nat | a < n && b < n && Rank(n, f, a) == Rank(n, f, b) :: a == b
  {
  }

  /** Moving an item to a free bucket keeps the items. */
  lemma MoveKeepsItems<T>(eq: (T, T) -> bool, tab: Slots<T>, i: nat, j: nat)
    requires i < |tab| && j < |tab| && tab[i].Some? && tab[i := None][j].None? && Unique(eq, tab)
    ensures Unique(eq, tab[i := None][j := tab[i]])
    ensures Items(tab[i := None][j := tab[i]]) == Items(tab)
    ensures Occupied(tab[i := None][j := tab[i]]) == Occupied(tab) - {i} + {j}
  {
    var tab' := tab[i := None][j := tab[i]];
    forall x | x in Items(tab) ensures x in Items(tab') {
      var k :| 0 <= k < |tab| && tab[k].Some? && tab[k].value == x;
      assert tab'[if k == i then j else k] == tab[k];
    }
    forall x | x in Items(tab') ensures x in Items(tab) {
      var k :| 0 <= k < |tab| && tab'[k].Some? && tab'[k].value == x;
      assert tab[if k == j then i else k] == tab'[k];
    }
  }

  /** A clean-up move never brings an item in front of the removed bucket from behind it. */
  lemma MoveKeepsFront<T>(tab: Slots<T>, r: nat, i: nat, j: nat, f: nat)
    requires r < |tab| && i < |tab| && j < |tab| && f < |tab| && tab[i].Some?
    requires Rank(|tab|, f, r) <= Rank(|tab|, f, j) <= Rank(|tab|, f, i)
    ensures Items(tab[i := None][j := tab[i]][..r]) <= Items(tab[..r])
  {
    var tab' := tab[i := None][j := tab[i]];
    forall x | x in Items(tab'[..r]) ensures x in Items(tab[..r]) {
      var k :| 0 <= k < r && tab'[..r][k].Some? && tab'[..r][k].value == x;
      assert tab[..r][if k == j then i else k] == tab'[k];
    }
  }

  // ------------------------------------------------------------------ counting

  lemma LastIsNew<T(!new)>(hash: T -> nat, eq: (T, T) -> bool, tab: Slots<T>)
    requires tab != [] && Lawful(hash, eq) && Unique(eq, tab)
    ensures Unique(eq, tab[..|tab| - 1])
    ensures tab[|tab| - 1].Some? ==> tab[|tab| - 1].value !in Items(tab[..|tab| - 1])
  {
    var n := |tab| - 1;
    if tab[n].Some? {
      forall i | 0 <= i < n && tab[..n][i].Some? ensures tab[..n][i].value != tab[n].value {
        assert tab[i].Some? && !eq(tab[i].value, tab[n].value);
      }
    }
  }

  /** With pairwise inequivalent items, there are as many items as taken buckets. */
  lemma {:induction false} ItemsCounted<T(!new)>(hash: T -> nat, eq: (T, T) -> bool, tab: Slots<T>)
    requires Lawful(hash, eq) && Unique(eq, tab)
    ensures |Items(tab)| == |Occupied(tab)|
  {
    if tab != [] {
      hide Items, Occupied, Unique;
      LastIsNew(hash, eq, tab);
      ItemsCounted(hash, eq, tab[..|tab| - 1]);
      ItemsSnoc(tab);
    } else {
      assert Items(tab) == {} && Occupied(tab) == {};
    }
  }

  lemma ItemsSnoc<T>(tab: Slots<T>)
    requires tab != []
    ensures var n := |tab| - 1;
            if tab[n].Some? then
              && Items(tab) == Items(tab[..n]) + {tab[n].value}
              && Occupied(tab) == Occupied(tab[..n]) + {n} && n !in Occupied(tab[..n])
            else
              Items(tab) == Items(tab[..n]) && Occupied(tab) == Occupied(tab[..n])
  {
    var n := |tab| - 1;
    forall x | x in Items(tab[..n]) ensures x in Items(tab) {
      var i :| 0 <= i < n && tab[..n][i].Some? && tab[..n][i].value == x;
      assert tab[i].value == x;
    }
    forall x | x in Items(tab) ensures x in Items(tab[..n]) || (tab[n].Some? && x == tab[n].value) {
      var i :| 0 <= i < |tab| && tab[i].Some? && tab[i].value == x;
      if i < n { assert tab[..n][i] == tab[i]; }
    }
  }

  // ------------------------------------------------------------------- the set

  /** The members equivalent to some item of `others`. */
  ghost function Shared<T>(eq: (T, T) -> bool, items: set<T>, others: set<T>): set<T> {
    set y | y in items && exists z :: z in others && eq(y, z)
  }

  /** As many items as the largest table size holds. */
  const MAX_ITEMS: nat := Limit(TableSize(50))

  class HashSet<T(==, !new)> {
    const hash: T -> nat
    const eq: (T, T) -> bool
    var table: array<Option<T>>
    var size: nat
    var itemCount: nat
    ghost var level: nat

    /** The table has one of the listed sizes, a free bucket and a correct count. */
    ghost predicate Formed()
      reads this, table
    {
      && Lawful(hash, eq)
      && 1 <= level < TABLE_SIZES_LEN && table.Length == size == TableSize(level)
      && itemCount == |Occupied(table[..])| <= Limit(size)
    }

    ghost predicate Valid()
      reads this, table
    {
      Formed() && Reachable(hash, table[..]) && Unique(eq, table[..])
    }

    ghost function Content(): set<T>
      reads this, table
    {
      Items(table[..])
    }

    static method FirstFit(capacity: nat) returns (i: nat)
      requires capacity <= TableSize(TABLE_SIZES_LEN - 2)
      ensures i < TABLE_SIZES_LEN - 1 && TableSize(i) >= capacity && (i > 0 ==> TableSize(i - 1) < capacity)
    {
      i := 0;
      while i < TABLE_SIZES_LEN && TableSize(i) < capacity
        invariant i < TABLE_SIZES_LEN - 1
        invariant i > 0 ==> TableSize(i - 1) < capacity
      {
        i := i + 1;
      }
    }

    constructor (hash: T -> nat, eq: (T, T) -> bool, capacity: nat)
      requires Lawful(hash, eq) && capacity <= TableSize(TABLE_SIZES_LEN - 2)
      ensures Valid() && fresh(table) && Content() == {} && itemCount == 0
      ensures this.hash == hash && this.eq == eq
      ensures TableSize(level - 1) >= capacity && (level > 1 ==> TableSize(level - 2) < capacity)
    {
      hide TableSize, Lawful;
      var i := FirstFit(capacity);
      this.hash := hash;
      this.eq := eq;
      table := new Option<T>[TableSize(i + 1)](_ => None);
      size := TableSize(i + 1);
      itemCount := 0;
      level := i + 1;
      new;
      assert Occupied(table[..]) == {};
    }

    /** Probing: it stops because some bucket is free. */
    method Probe(item: T) returns (i: nat)
      requires Formed()
      ensures IsSlot(hash, eq, table[..], item, i)
    {
      SizesGrow(level);
      hide TableSize, Limit, Occupied, Lawful;
      assert eq(item, item) by { LawfulEq(hash, eq, item); }
      ghost var e := FreeBucket(table[..]);
      ghost var h := Home(hash, size, item);
      i := hash(item) % size;
      while table[i].Some? && table[i].value != item && !eq(table[i].value, item)
        invariant i < size
        invariant forall q | 0 <= q < size && Dist(size, h, q) < Dist(size, h, i) ::
                    table[q].Some? && !eq(table[q].value, item)
        decreases Dist(size, i, e)
      {
        NextMod(size, i);
        i := (i + 1) % size;
      }
    }

    /** The member equivalent to the given item, if any. */
    method Get(item: T) returns (t: Option<T>)
      requires Valid()
      ensures t.None? ==> Class(eq, Content(), item) == {}
      ensures t.Some? ==> Class(eq, Content(), item) == {t.value}
    {
      var i := Probe(item);
      t := table[i];
      GetMeaning(hash, eq, table[..], item, i);
    }

    /** True if some member is equivalent to the given item. */
    method Contains(item: T) returns (r: bool)
      requires Valid()
      ensures r <==> exists y :: y in Content() && eq(y, item)
    {
      var t := Get(item);
      r := t.Some?;
      assert r ==> t.value in Class(eq, Content(), item);
      assert forall y | y in Content() && eq(y, item) :: y in Class(eq, Content(), item);
    }

    /** The number of items. */
    method Count() returns (n: nat)
      requires Valid()
      ensures n == |Content()|
    {
      ItemsCounted(hash, eq, table[..]);
      n := itemCount;
    }

    /** Stores the item where probing for it stops; the table grows when that passes the limit. */
    method Add(item: T) returns (t: Option<T>, ghost j: nat)
      requires Formed() && itemCount < MAX_ITEMS
      requires itemCount < Limit(size) || Valid()
      modifies this, table
      ensures Formed() && (table == old(table) || fresh(table))
      ensures IsSlot(hash, eq, old(table[..]), item, j) && t == old(table[j])
      ensures itemCount == old(itemCount) + (if t.None? then 1 else 0)
      ensures old(itemCount) < Limit(old(size)) ==>
                && table == old(table) && size == old(size) && level == old(level)
                && table[..] == old(table[..])[j := Some(item)]
      ensures old(Valid()) ==> Valid() && Content() == old(Content()) - Class(eq, old(Content()), item) + {item}
      ensures level >= old(level)
      decreases TABLE_SIZES_LEN - level, 2
    {
      SizesGrow(level);
      LimitsOrdered(level);
      hide TableSize, Class, Lawful, Occupied, Items, Home;
      ghost var before := table[..];
      var i := Probe(item);
      j := i;
      t := table[i];
      if Reachable(hash, before) && Unique(eq, before) { StoreAt(hash, eq, before, item, i); }
      StoreCount(before, item, i);
      if t.None? { itemCount := itemCount + 1; }
      table[i] := Some(item);
      assert table[..] == before[i := Some(item)];
      if itemCount > Limit(size) {
        Grow();
      }
    }

    /** Moves all items to a table of the next size. */
    method Grow()
      requires Lawful(hash, eq) && 1 <= level < TABLE_SIZES_LEN - 1 && table.Length == size == TableSize(level)
      requires itemCount == |Occupied(table[..])| == Limit(size) + 1
      requires Reachable(hash, table[..]) && Unique(eq, table[..])
      modifies this
      ensures Valid() && fresh(table) && level == old(level) + 1
      ensures Content() == old(Content()) && itemCount == old(itemCount)
      decreases TABLE_SIZES_LEN - level, 1
    {
      hide TableSize, Reachable, Items, Occupied;
      SizesGrow(level);
      LevelsOrdered(level, TABLE_SIZES_LEN - 2);
      var newSet := new HashSet(hash, eq, size);
      if newSet.level - 1 < level { LevelsOrdered(newSet.level, level); SizesGrow(newSet.level); }
      if level < newSet.level - 1 { LevelsOrdered(level, newSet.level - 2); }
      LimitsOrdered(newSet.level);
      newSet.Union(this);
      ItemsCounted(hash, eq, table[..]);
      ItemsCounted(hash, eq, newSet.table[..]);
      table := newSet.table;
      size := newSet.size;
      itemCount := newSet.itemCount;
      level := newSet.level;
    }

    /** Adds or replaces items from `other`. */
    method Union(other: HashSet<T>)
      requires Valid() && other != this && other.table != table
      requires other.eq == eq && other.table.Length == other.size && Unique(eq, other.table[..])
      requires itemCount + |Occupied(other.table[..])| <= MAX_ITEMS
      modifies this, table
      ensures Valid() && (table == old(table) || fresh(table))
      ensures Content() == old(Content()) - Shared(eq, old(Content()), old(other.Content())) + old(other.Content())
      ensures old(itemCount) + |Occupied(old(other.table[..]))| <= Limit(old(size)) ==> level == old(level)
      ensures itemCount <= old(itemCount) + |Occupied(old(other.table[..]))|
      decreases TABLE_SIZES_LEN - level, 4
    {
      ghost var c0, n0, l0, others := Content(), itemCount, level, other.table[..];
      MergedStart(c0, others);
      var i := 0;
      while i < other.size
        invariant 0 <= i <= other.size && other.table[..] == others && other.size == |others|
        invariant table == old(table) || fresh(table)
        invariant Merged(c0, n0, l0, others, i)
      {
        hide Merged;
        var t := other.table[i];
        if t.Some? {
          MergeItem(t.value, c0, n0, l0, others, i);
        } else {
          MergedSkip(c0, n0, l0, others, i);
        }
        i := i + 1;
      }
      assert others[..i] == others;
    }

    /** The union when the first `i` buckets of the other table have been added. */
    ghost predicate Merged(c0: set<T>, n0: nat, l0: nat, others: Slots<T>, i: nat)
      reads this, table
      requires i <= |others|
    {
      && Valid() && 1 <= l0 <= level && Unique(eq, others)
      && Content() == c0 - Shared(eq, c0, Items(others[..i])) + Items(others[..i])
      && itemCount <= n0 + |Occupied(others[..i])|
      && n0 + |Occupied(others)| <= MAX_ITEMS
      && (n0 + |Occupied(others)| <= Limit(TableSize(l0)) ==> level == l0)
    }

    lemma MergedStart(c0: set<T>, others: Slots<T>)
      requires Valid() && c0 == Content() && Unique(eq, others) && itemCount + |Occupied(others)| <= MAX_ITEMS
      ensures Merged(c0, itemCount, level, others, 0)
    {
      NoneShared(eq, c0, others);
      assert c0 - {} + {} == c0;
    }

    lemma MergedSkip(c0: set<T>, n0: nat, l0: nat, others: Slots<T>, i: nat)
      requires i < |others| && others[i].None? && Merged(c0, n0, l0, others, i)
      ensures Merged(c0, n0, l0, others, i + 1)
    {
      hide Reachable, Items, Occupied, Shared, TableSize, Limit, Lawful, Unique;
      assert others[..i + 1][..i] == others[..i] && others[..i + 1][i] == others[i];
      ItemsSnoc(others[..i + 1]);
    }

    method MergeItem(x: T, ghost c0: set<T>, ghost n0: nat, ghost l0: nat, ghost others: Slots<T>, ghost i: nat)
      requires i < |others| && others[i] == Some(x) && Merged(c0, n0, l0, others, i)
      modifies this, table
      ensures Merged(c0, n0, l0, others, i + 1)
      ensures table == old(table) || fresh(table)
      decreases TABLE_SIZES_LEN - level, 3
    {
      hide Reachable, Items, Occupied, Shared, TableSize, Limit, Class, Lawful, Unique;
      OccupiedPrefix(others, i);
      UnionStep(hash, eq, c0, others, i);
      assert others[..i + 1][..i] == others[..i] && others[..i + 1][i] == others[i];
      ItemsSnoc(others[..i + 1]);
      var _, _ := Add(x);
    }

    /** Removal in progress: `before` without bucket `r`, cleaned up to bucket `i`. */
    ghost predicate Clearing(before: Slots<T>, r: nat, i: nat, f: nat)
      reads this, table
      requires r < |before|
    {
      && Formed() && |before| == size && itemCount < Limit(size)
      && Cleaning(hash, table[..], r, i, f) && Unique(eq, table[..])
      && Items(table[..]) == Items(before[r := None])
      && Items(table[..][..r]) <= Items(before[..r])
    }

    /** Re-inserts the item of one bucket behind the hole. */
    method Resettle(i: nat, ghost before: Slots<T>, ghost r: nat, ghost f: nat)
      requires r < |before| && Clearing(before, r, i, f) && table[i].Some?
      modifies this, table
      ensures table == old(table) && size == old(size) && level == old(level) && itemCount == old(itemCount)
      ensures Clearing(before, r, Next(size, i), f)
    {
      hide Reachable, Items, Occupied, TableSize, Lawful, Settled, Pending;
      ghost var tab := table[..];
      var t := table[i];
      TakeOutCount(tab, i);
      LimitsOrdered(level);
      itemCount := itemCount - 1;
      table[i] := None;
      assert table[..] == tab[i := None];
      var _, j := Add(t.value);
      CleaningStep(hash, eq, tab, r, i, f, j);
      MoveKeepsItems(eq, tab, i, j);
      RefoundBefore(hash, eq, tab, r, i, f, j);
      MoveKeepsFront(tab, r, i, j, f);
    }

    /** Re-inserts the rest of the cluster behind a hole. */
    method CloseGap(start: nat, ghost before: Slots<T>, ghost r: nat, ghost f: nat)
      requires r < |before| && Clearing(before, r, start, f)
      modifies this, table
      ensures Valid() && table == old(table) && size == old(size) && level == old(level)
      ensures itemCount == old(itemCount)
      ensures Content() == Items(before[r := None])
      ensures Items(table[..][..r]) <= Items(before[..r])
    {
      hide Reachable, Items, Occupied, TableSize, Lawful, Settled, Pending, Unique, Limit;
      var i := start;
      while table[i].Some?
        invariant table == old(table) && size == old(size) && level == old(level) && itemCount == old(itemCount)
        invariant 0 <= i < table.Length && Clearing(before, r, i, f)
        decreases size - Rank(size, f, i)
      {
        NotAtEnd(table[..], i, f);
        NextMod(size, i);
        Resettle(i, before, r, f);
        i := (i + 1) % size;
      }
      AtEnd(hash, table[..], r, i, f);
      CleaningDone(hash, table[..], r, f);
    }

    /** Removes the member equivalent to the given item, if any, and closes the gap. */
    method Remove(item: T) returns (t: Option<T>, ghost r: nat)
      requires Valid()
      modifies this, table
      ensures Valid() && table == old(table) && size == old(size) && level == old(level)
      ensures Content() == old(Content()) - Class(eq, old(Content()), item)
      ensures Class(eq, old(Content()), item) == if t.Some? then {t.value} else {}
      ensures IsSlot(hash, eq, old(table[..]), item, r) && t == old(table[r])
      ensures itemCount == old(itemCount) - (if t.Some? then 1 else 0)
      ensures Items(table[..][..r]) <= Items(old(table[..])[..r])
    {
      ghost var before := table[..];
      var i := Probe(item);
      r, t := i, table[i];
      GetMeaning(hash, eq, before, item, i);
      if t.Some? {
        SizesGrow(level);
        hide Reachable, Items, Occupied, TableSize, Settled, Pending, Unique, Limit;
        ghost var f := ClusterEnd(before, r);
        TakeOutCount(before, r);
        TakeOutItems(eq, before, r);
        CleaningStart(hash, before, r, f);
        NextMod(size, i);
        itemCount := itemCount - 1;
        table[i] := None;
        assert table[..] == before[r := None];
        i := (i + 1) % size;
        CloseGap(i, before, r, f);
      }
    }

    method Clear()
      requires Valid()
      modifies this, table
      ensures Valid() && table == old(table) && size == old(size) && level == old(level)
      ensures Content() == {} && itemCount == 0
    {
      forall i | 0 <= i < table.Length {
        table[i] := None;
      }
      itemCount := 0;
      assert Occupied(table[..]) == {};
    }

    /** True if some member of `other` is equivalent to a member of this set. */
    method Intersects(other: HashSet<T>) returns (r: bool)
      requires Valid() && other.table.Length == other.size
      ensures r <==> exists x, y :: x in Content() && y in other.Content() && eq(x, y)
    {
      hide Valid;
      var i := 0;
      while i < other.size
        invariant 0 <= i <= other.size
        invariant forall x, y | x in Content() && y in Items(other.table[..i]) :: !eq(x, y)
      {
        var t := other.table[i];
        assert other.table[..i + 1][..i] == other.table[..i];
        ItemsSnoc(other.table[..i + 1]);
        i := i + 1;
        if t.Some? {
          var c := Contains(t.value);
          if c {
            assert t.value in other.Content();
            return true;
          }
        }
      }
      assert other.table[..i] == other.table[..];
      r := false;
    }

    /** Removes the members that are equivalent to an item of `other`. */
    method Minus(other: HashSet<T>)
      requires Valid() && other != this && other.table != table && other.table.Length == other.size
      modifies this, table
      ensures Valid() && table == old(table) && size == old(size)
      ensures Content() == old(Content()) - Shared(eq, old(Content()), old(other.Content()))
    {
      ghost var c0, others := Content(), other.table[..];
      NoneShared(eq, c0, others);
      hide Valid, Items, Shared, Class;
      assert c0 - {} == c0;
      var i := 0;
      while i < other.size
        invariant 0 <= i <= other.size && other.table[..] == others && other.size == |others|
        invariant Valid() && table == old(table) && size == old(size)
        invariant Content() == c0 - Shared(eq, c0, Items(others[..i]))
      {
        var t := other.table[i];
        assert others[..i + 1][..i] == others[..i] && others[..i + 1][i] == others[i];
        ItemsSnoc(others[..i + 1]);
        i := i + 1;
        if t.Some? {
          MinusStep(eq, c0, Items(others[..i - 1]), t.value);
          var _, _ := Remove(t.value);
        }
      }
      assert others[..i] == others;
    }

    /** Keeps the members that are equivalent to an item of `other`.  A removal moves items
        while the scan is under way, but never an unscanned one in front of the scan. */
    method Intersect(other: HashSet<T>)
      requires Valid() && other.Valid() && other.eq == eq
      requires other != this && other.table != table
      modifies this, table
      ensures Valid() && table == old(table) && size == old(size)
      ensures Content() == Shared(eq, old(Content()), old(other.Content()))
    {
      ghost var c0, others := Content(), other.Content();
      var i := 0;
      while i < size
        invariant 0 <= i <= size == old(size) && table == old(table) && Valid()
        invariant other.Valid() && other.Content() == others
        invariant Shared(eq, c0, others) <= Content() <= c0
        invariant Items(table[..][..i]) <= Shared(eq, c0, others)
        decreases itemCount, size - i
      {
        var t := table[i];
        var keep := true;
        if t.Some? {
          keep := other.Contains(t.value);
        }
        if !keep {
          DropUnshared(i, c0, others);
        } else {
          KeepScanned(table[..], i, c0, others);
          i := i + 1;
        }
      }
      assert table[..][..i] == table[..];
    }

    /** The removal step of the scan. */
    method DropUnshared(i: nat, ghost c0: set<T>, ghost others: set<T>)
      requires Valid() && i < size && table[i].Some? && Shared(eq, c0, others) <= Content() <= c0
      requires forall y | y in others :: !eq(y, table[i].value)
      requires Items(table[..][..i]) <= Shared(eq, c0, others)
      modifies this, table
      ensures Valid() && table == old(table) && size == old(size) && itemCount < old(itemCount)
      ensures Shared(eq, c0, others) <= Content() <= c0
      ensures Items(table[..][..i]) <= Shared(eq, c0, others)
    {
      ghost var tab := table[..];
      var _, r := Remove(table[i].value);
      SlotOfMember(hash, eq, tab, i, r);
      assert tab[i].value in Items(tab);
    }
  }

  lemma MinusStep<T>(eq: (T, T) -> bool, c0: set<T>, p: set<T>, x: T)
    ensures var c := c0 - Shared(eq, c0, p);
            c - Class(eq, c, x) == c0 - Shared(eq, c0, p + {x})
  {
    forall y | y in c0 ensures y in Shared(eq, c0, p + {x}) <==> y in Shared(eq, c0, p) || eq(y, x) {
      if eq(y, x) { assert x in p + {x}; }
    }
  }

  lemma KeepScanned<T>(tab: Slots<T>, i: nat, c0: set<T>, others: set<T>)
    requires i < |tab|
    ensures tab[i].None? ==> Items(tab[..i + 1]) == Items(tab[..i])
    ensures tab[i].Some? ==> Items(tab[..i + 1]) == Items(tab[..i]) + {tab[i].value} && tab[i].value in Items(tab)
  {
    assert tab[..i + 1][..i] == tab[..i];
    ItemsSnoc(tab[..i + 1]);
    if tab[i].Some? { assert tab[i].value in Items(tab); }
  }

  lemma NotAtEnd<T>(tab: Slots<T>, i: nat, f: nat)
    requires i < |tab| && f < |tab| && tab[f].None? && tab[i].Some?
    ensures Rank(|tab|, f, Next(|tab|, i)) == Rank(|tab|, f, i) + 1
  {
  }

  lemma AtEnd<T>(hash: T -> nat, tab: Slots<T>, r: nat, i: nat, f: nat)
    requires Cleaning(hash, tab, r, i, f) && tab[i].None?
    ensures i == f
  {
  }

  lemma TakeOutCount<T>(tab: Slots<T>, i: nat)
    requires i < |tab| && tab[i].Some?
    ensures |Occupied(tab[i := None])| == |Occupied(tab)| - 1
  {
    assert Occupied(tab) == Occupied(tab[i := None]) + {i} && i !in Occupied(tab[i := None]);
  }

  lemma TakeOutItems<T>(eq: (T, T) -> bool, tab: Slots<T>, r: nat)
    requires r < |tab| && tab[r].Some? && Unique(eq, tab) && eq(tab[r].value, tab[r].value)
    ensures Unique(eq, tab[r := None])
    ensures Items(tab[r := None]) == Items(tab) - {tab[r].value}
    ensures Items(tab[r := None][..r]) == Items(tab[..r])
  {
    var tab' := tab[r := None];
    assert tab'[..r] == tab[..r];
    forall x | x in Items(tab) - {tab[r].value} ensures x in Items(tab') {
      var k :| 0 <= k < |tab| && tab[k].Some? && tab[k].value == x;
      assert tab'[k] == tab[k];
    }
  }

  lemma StoreCount<T>(tab: Slots<T>, x: T, i: nat)
    requires i < |tab|
    ensures |Occupied(tab[i := Some(x)])| == |Occupied(tab)| + if tab[i].None? then 1 else 0
  {
    assert Occupied(tab[i := Some(x)]) == Occupied(tab) + {i};
  }

  lemma OccupiedPrefix<T>(tab: Slots<T>, i: nat)
    requires i < |tab| && tab[i].Some?
    ensures |Occupied(tab[..i])| < |Occupied(tab)|
  {
    assert Occupied(tab[..i]) <= Occupied(tab) && i in Occupied(tab) && i !in Occupied(tab[..i]);
    SmallerSubset(Occupied(tab[..i]), Occupied(tab));
  }

  lemma SmallerSubset(a: set<nat>, b: set<nat>)
    requires a < b
    ensures |a| < |b|
  {
    assert b == a + (b - a);
  }

  lemma {:induction false} LevelsOrdered(k: nat, l: nat)
    requires 1 <= k <= l < TABLE_SIZES_LEN
    ensures TableSize(k) <= TableSize(l)
    decreases l - k
  {
    if k < l {
      SizesGrow(k);
      LevelsOrdered(k + 1, l);
    }
  }

  lemma {:induction false} LimitsOrdered(l: nat)
    requires 1 <= l < TABLE_SIZES_LEN
    ensures Limit(TableSize(l)) <= MAX_ITEMS
    decreases TABLE_SIZES_LEN - l
  {
    if l + 1 < TABLE_SIZES_LEN {
      SizesGrow(l);
      LimitsOrdered(l + 1);
    }
  }

  lemma NoneShared<T>(eq: (T, T) -> bool, c0: set<T>, others: Slots<T>)
    ensures Items(others[..0]) == {} && Occupied(others[..0]) == {} && Shared(eq, c0, {}) == {}
  {
  }

  lemma UnionStep<T(!new)>(hash: T -> nat, eq: (T, T) -> bool, c0: set<T>, others: Slots<T>, i: nat)
    requires Lawful(hash, eq) && Unique(eq, others) && i < |others| && others[i].Some?
    ensures var p, x := Items(others[..i]), others[i].value;
            var c := c0 - Shared(eq, c0, p) + p;
            c - Class(eq, c, x) + {x} == c0 - Shared(eq, c0, p + {x}) + (p + {x})
  {
    var p, x := Items(others[..i]), others[i].value;
    var c := c0 - Shared(eq, c0, p) + p;
    forall y | y in p ensures !eq(y, x) {
      var k :| 0 <= k < i && others[..i][k].Some? && others[..i][k].value == y;
      assert others[k].value == y;
    }
    forall y | y in c0 ensures y in Shared(eq, c0, p + {x}) <==> y in Shared(eq, c0, p) || eq(y, x) {
      if eq(y, x) { assert x in p + {x}; }
    }
  }

  lemma GetMeaning<T(!new)>(hash: T -> nat, eq: (T, T) -> bool, tab: Slots<T>, x: T, i: nat)
    requires |tab| > 0 && Lawful(hash, eq) && Reachable(hash, tab) && Unique(eq, tab) && IsSlot(hash, eq, tab, x, i)
    ensures Class(eq, Items(tab), x) == if tab[i].Some? then {tab[i].value} else {}
  {
    if tab[i].None? {
      SlotFreeMeansAbsent(hash, eq, tab, x, i);
    } else {
      assert tab[i].value in Items(tab);
      forall y | y in Class(eq, Items(tab), x) ensures y == tab[i].value {
        var k :| 0 <= k < |tab| && tab[k].Some? && tab[k].value == y;
      }
    }
  }
}
