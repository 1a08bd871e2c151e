/**
The list of transactions being published.

Two parallel arrays hold the transactions with their callbacks, and their hashes.
Publishing adds a transaction with its unconfirmed ancestors; confirmation, relaying,
requests and connection loss take entries or callbacks out again.  Callbacks are
identified by tokens; `fired` records the order in which they are called.
*/
module PublishList {
  import opened Collections

  datatype Tx<H> = Tx(hash: H, unconfirmed: bool, inputs: seq<H>)
  datatype Entry<H, C> = Entry(tx: Tx<H>, callback: Option<C>)

  /** The wallet's transactions by hash. */
  type Wallet<!H(==)> = map<H, Tx<H>>

  ghost predicate WalletOk<H>(wallet: Wallet<H>) {
    forall h | h in wallet :: wallet[h].hash == h
  }

  predicate Unconfirmed<H(==)>(wallet: Wallet<H>, h: H) {
    h in wallet && wallet[h].unconfirmed
  }

  // ------------------------------------------------------------- parallel arrays

  ghost predicate Aligned<H, C>(entries: seq<Entry<H, C>>, hashes: seq<H>) {
    |entries| == |hashes| && forall i | 0 <= i < |hashes| :: entries[i].tx.hash == hashes[i]
  }

  lemma RemoveKeeps<H, C>(entries: seq<Entry<H, C>>, hashes: seq<H>, i: nat)
    requires Aligned(entries, hashes) && Distinct(hashes) && i < |hashes|
    ensures Aligned(Without(entries, i), Without(hashes, i)) && Distinct(Without(hashes, i))
    ensures forall h :: h in Without(hashes, i) <==> h in hashes && h != hashes[i]
  {
    var w := Without(hashes, i);
    assert forall j | 0 <= j < |w| :: w[j] == if j < i then hashes[j] else hashes[j + 1];
    forall h | h in hashes && h != hashes[i] ensures h in w {
      var j :| 0 <= j < |hashes| && hashes[j] == h;
      assert w[if j < i then j else j - 1] == h;
    }
  }

  // -------------------------------------------------------------------- callbacks

  ghost function Token<C>(c: Option<C>): multiset<C> {
    if c.Some? then multiset{c.value} else multiset{}
  }

  /** The callbacks waiting in the list. */
  ghost function Pending<H, C>(entries: seq<Entry<H, C>>): multiset<C> {
    if entries == [] then multiset{}
    else Pending(entries[..|entries| - 1]) + Token(entries[|entries| - 1].callback)
  }

  lemma {:induction false} PendingConcat<H, C>(a: seq<Entry<H, C>>, b: seq<Entry<H, C>>)
    ensures Pending(a + b) == Pending(a) + Pending(b)
    decreases |b|
  {
    if b == [] {
      assert a + b == a;
    } else {
      var n := |b| - 1;
      assert (a + b)[..|a| + n] == a + b[..n];
      PendingConcat(a, b[..n]);
    }
  }

  lemma PendingOne<H, C>(e: Entry<H, C>)
    ensures Pending([e]) == Token(e.callback)
  {
    assert [e][..0] == [];
  }

  // ------------------------------------------------------------- ancestors listed

  /** Every unconfirmed wallet transaction that an entry spends is listed; `open` entries are exempt. */
  ghost predicate Closed<H, C>(wallet: Wallet<H>, entries: seq<Entry<H, C>>, hashes: seq<H>, open: set<H>) {
    forall i, j | 0 <= i < |entries| && entries[i].tx.hash !in open && 0 <= j < |entries[i].tx.inputs| ::
      Unconfirmed(wallet, entries[i].tx.inputs[j]) ==> entries[i].tx.inputs[j] in hashes
  }

  /** Unconfirmed wallet transactions that are not listed: what adding runs out of. */
  ghost function Unlisted<H>(wallet: Wallet<H>, hashes: seq<H>): set<H> {
    set h | h in wallet && wallet[h].unconfirmed && h !in hashes
  }

  lemma UnlistedShrinks<H>(wallet: Wallet<H>, hashes: seq<H>, more: seq<H>)
    ensures |Unlisted(wallet, hashes + more)| <= |Unlisted(wallet, hashes)|
    ensures (exists h :: h in more && h in Unlisted(wallet, hashes)) ==>
              |Unlisted(wallet, hashes + more)| < |Unlisted(wallet, hashes)|
  {
    var a, b := Unlisted(wallet, hashes + more), Unlisted(wallet, hashes);
    assert a <= b;
    SubsetSmaller(a, b);
  }

  lemma SubsetSmaller<T>(a: set<T>, b: set<T>)
    requires a <= b
    ensures |a| <= |b| && (a != b ==> |a| < |b|)
  {
    assert b == a + (b - a);
    assert a != b ==> b - a != {};
  }

  /** Adding an open entry keeps the others' ancestors listed. */
  lemma AddOpen<H, C>(wallet: Wallet<H>, entries: seq<Entry<H, C>>, hashes: seq<H>, open: set<H>, e: Entry<H, C>)
    requires Aligned(entries, hashes) && Distinct(hashes) && e.tx.hash !in hashes
    requires Closed(wallet, entries, hashes, open)
    ensures Aligned(entries + [e], hashes + [e.tx.hash]) && Distinct(hashes + [e.tx.hash])
    ensures Closed(wallet, entries + [e], hashes + [e.tx.hash], open + {e.tx.hash})
  {
  }

  lemma CloseEntry<H, C>(wallet: Wallet<H>, entries: seq<Entry<H, C>>, hashes: seq<H>, open: set<H>, tx: Tx<H>, at: nat)
    requires Aligned(entries, hashes) && Distinct(hashes) && at < |entries| && entries[at].tx == tx
    requires Closed(wallet, entries, hashes, open + {tx.hash})
    requires forall j | 0 <= j < |tx.inputs| :: Unconfirmed(wallet, tx.inputs[j]) ==> tx.inputs[j] in hashes
    ensures Closed(wallet, entries, hashes, open)
  {
  }

  /** Entries from `start` on, the first aside, each hold an input of an earlier one among them, without a callback. */
  ghost predicate Ancestry<H, C>(entries: seq<Entry<H, C>>, start: nat) {
    forall i | start < i < |entries| :: IsAncestor(entries, start, i)
  }

  ghost predicate IsAncestor<H, C>(entries: seq<Entry<H, C>>, start: nat, i: nat)
    requires i < |entries|
  {
    entries[i].callback.None? && exists j | start <= j < i :: entries[i].tx.hash in entries[j].tx.inputs
  }

  /** Entries from `start` on, the first aside, are unconfirmed transactions of the wallet. */
  ghost predicate FromWallet<H, C>(wallet: Wallet<H>, entries: seq<Entry<H, C>>, start: nat) {
    forall i | start < i < |entries| :: IsWalletTx(wallet, entries[i].tx)
  }

  ghost predicate IsWalletTx<H>(wallet: Wallet<H>, tx: Tx<H>) {
    Unconfirmed(wallet, tx.hash) && tx == wallet[tx.hash]
  }

  lemma NoAncestry<H, C>(wallet: Wallet<H>, entries: seq<Entry<H, C>>)
    ensures Ancestry(entries, |entries|) && (entries != [] ==> Ancestry(entries, |entries| - 1))
    ensures FromWallet(wallet, entries, |entries|) && (entries != [] ==> FromWallet(wallet, entries, |entries| - 1))
  {
  }

  lemma FromWalletExtends<H, C>(wallet: Wallet<H>, was: seq<Entry<H, C>>, now: seq<Entry<H, C>>, start: nat)
    requires Prefix(was, now) && start < |was| && FromWallet(wallet, was, start) && FromWallet(wallet, now, |was|)
    requires |now| > |was| ==> IsWalletTx(wallet, now[|was|].tx)
    ensures FromWallet(wallet, now, start)
  {
    hide IsWalletTx;
    assert forall i | 0 <= i < |was| :: now[i] == was[i];
  }

  lemma LengthsMatch<H, C>(entries: seq<Entry<H, C>>, hashes: seq<H>)
    requires Aligned(entries, hashes)
    ensures |entries| == |hashes|
  {
  }

  lemma AncestryExtends<H, C>(was: seq<Entry<H, C>>, now: seq<Entry<H, C>>, start: nat, h: H)
    requires Prefix(was, now) && start < |was| && Ancestry(was, start) && Ancestry(now, |was|)
    requires |now| > |was| ==> now[|was|].tx.hash == h && now[|was|].callback.None? && h in was[start].tx.inputs
    ensures Ancestry(now, start)
  {
    forall i | start < i < |now| ensures IsAncestor(now, start, i) {
      if i < |was| {
        assert now[i] == was[i] && IsAncestor(was, start, i);
        var j :| start <= j < i && was[i].tx.hash in was[j].tx.inputs;
        assert now[j] == was[j];
      } else if i == |was| {
        assert now[start] == was[start];
      } else {
        assert IsAncestor(now, |was|, i);
      }
    }
  }

  lemma {:induction false} NoneWaiting<H, C>(entries: seq<Entry<H, C>>)
    requires forall i | 0 <= i < |entries| :: entries[i].callback.None?
    ensures Pending(entries) == multiset{}
  {
    if entries != [] { NoneWaiting(entries[..|entries| - 1]); }
  }

  lemma RestWaitsNot<H, C>(now: seq<Entry<H, C>>, n: nat, rest: seq<Entry<H, C>>)
    requires n < |now| && Ancestry(now, n) && rest == now[n + 1..]
    ensures forall i | 0 <= i < |rest| :: rest[i].callback.None?
  {
    forall i | 0 <= i < |rest| ensures rest[i].callback.None? {
      assert IsAncestor(now, n, n + 1 + i);
    }
  }

  /** Of the entries that `Add` appends only the first may hold a callback. */
  lemma PendingAdded<H, C>(was: seq<Entry<H, C>>, now: seq<Entry<H, C>>)
    requires Prefix(was, now) && |now| > |was| && Ancestry(now, |was|)
    ensures Pending(now) == Pending(was) + Token(now[|was|].callback)
  {
    hide Ancestry, Pending;
    var n := |was|;
    var rest := now[n + 1..];
    RestWaitsNot(now, n, rest);
    NoneWaiting(rest);
    PendingOne(now[n]);
    PendingConcat(was, [now[n]]);
    PendingConcat(was + [now[n]], rest);
    assert now == (was + [now[n]]) + rest;
  }

  /** The wallet once some transactions are confirmed. */
  ghost function ConfirmedIn<H>(wallet: Wallet<H>, hs: seq<H>): Wallet<H> {
    map h | h in wallet :: wallet[h].(unconfirmed := wallet[h].unconfirmed && h !in hs)
  }

  /** Dropping the entry of a confirmed transaction keeps every other entry's unconfirmed ancestors listed. */
  lemma ConfirmKeepsClosed<H, C>(wallet: Wallet<H>, hs: seq<H>, entries: seq<Entry<H, C>>, hashes: seq<H>, i: nat)
    requires Aligned(entries, hashes) && Distinct(hashes) && i < |hashes| && hashes[i] in hs
    requires Closed(ConfirmedIn(wallet, hs), entries, hashes, {})
    ensures Closed(ConfirmedIn(wallet, hs), Without(entries, i), Without(hashes, i), {})
  {
    RemoveKeeps(entries, hashes, i);
    var w := Without(entries, i);
    assert forall k | 0 <= k < |w| :: w[k] == entries[if k < i then k else k + 1];
  }

  lemma ConfirmWeakens<H, C>(wallet: Wallet<H>, hs: seq<H>, entries: seq<Entry<H, C>>, hashes: seq<H>)
    requires Closed(wallet, entries, hashes, {})
    ensures Closed(ConfirmedIn(wallet, hs), entries, hashes, {})
  {
  }

  // ------------------------------------------------------------ what events do

  datatype Event<!H(==), C> =
    | Publish(wallet: Wallet<H>, tx: Tx<H>, callback: Option<C>, refused: bool)
    | Relayed(hash: H, wallet: Wallet<H>, own: Option<Tx<H>>)
    | HasTx(hash: H)
    | Requested(hash: H, valid: bool)
    | Confirmed(hashes: seq<H>)
    | Disconnected

  ghost predicate EventOk<H, C>(e: Event<H, C>) {
    (e.Publish? || e.Relayed?) ==> WalletOk(e.wallet)
  }

  /** The list, and the callbacks called so far in order. */
  datatype State<H, C> = State(list: seq<Entry<H, C>>, fired: seq<C>)

  ghost function Call<C>(c: Option<C>): seq<C> {
    if c.Some? then [c.value] else []
  }

  ghost predicate Lists<H, C>(list: seq<Entry<H, C>>, h: H) {
    exists i | 0 <= i < |list| :: list[i].tx.hash == h
  }

  ghost function HashSeq<H, C>(list: seq<Entry<H, C>>): (hs: seq<H>)
    ensures Aligned(list, hs)
  {
    if list == [] then [] else HashSeq(list[..|list| - 1]) + [list[|list| - 1].tx.hash]
  }

  lemma AlignedMeans<H, C>(list: seq<Entry<H, C>>, hashes: seq<H>)
    requires Aligned(list, hashes)
    ensures hashes == HashSeq(list) && forall h :: h in hashes <==> Lists(list, h)
  {
  }

  /** The callback that the entry of transaction `h` holds. */
  ghost function CallbackOf<H, C>(list: seq<Entry<H, C>>, h: H): Option<C> {
    if list == [] then None else if list[0].tx.hash == h then list[0].callback else CallbackOf(list[1..], h)
  }

  /** The list with the entry of transaction `h` without its callback. */
  ghost function Cleared<H, C>(list: seq<Entry<H, C>>, h: H): seq<Entry<H, C>> {
    if list == [] then []
    else [if list[0].tx.hash == h then list[0].(callback := None) else list[0]] + Cleared(list[1..], h)
  }

  /** The list without the entries of the transactions `hs`. */
  ghost function Dropping<H, C>(list: seq<Entry<H, C>>, hs: set<H>): seq<Entry<H, C>> {
    if list == [] then [] else (if list[0].tx.hash in hs then [] else [list[0]]) + Dropping(list[1..], hs)
  }

  /** The callbacks that leave the list with those entries. */
  ghost function DroppedWith<H, C>(list: seq<Entry<H, C>>, hs: set<H>): multiset<C> {
    if list == [] then multiset{}
    else (if list[0].tx.hash in hs then Token(list[0].callback) else multiset{}) + DroppedWith(list[1..], hs)
  }

  /** The entries without a callback, and the callbacks of the others, last first. */
  ghost function Silent<H, C>(list: seq<Entry<H, C>>): seq<Entry<H, C>> {
    if list == [] then [] else (if list[0].callback.Some? then [] else [list[0]]) + Silent(list[1..])
  }

  ghost function CallsDown<H, C>(list: seq<Entry<H, C>>): seq<C> {
    if list == [] then [] else CallsDown(list[1..]) + Call(list[0].callback)
  }

  lemma SilentNone<H, C>()
    ensures Silent<H, C>([]) == [] && CallsDown<H, C>([]) == []
  {
  }

  lemma LastBefore<T>(s: seq<T>, i: nat, rest: seq<T>)
    requires 0 < i <= |s|
    ensures (s[..i] + rest)[i - 1] == s[i - 1] && s[..i] + rest == s[..i - 1] + ([s[i - 1]] + rest)
    ensures Without(s[..i] + rest, i - 1) == s[..i - 1] + ([] + rest)
  {
  }

  lemma SilentStep<H, C>(list: seq<Entry<H, C>>, i: nat)
    requires i < |list|
    ensures Silent(list[i..]) == (if list[i].callback.Some? then [] else [list[i]]) + Silent(list[i + 1..])
    ensures CallsDown(list[i..]) == CallsDown(list[i + 1..]) + Call(list[i].callback)
  {
    assert list[i..][0] == list[i] && list[i..][1..] == list[i + 1..];
  }

  ghost function Answered<H, C>(list: seq<Entry<H, C>>, h: H, valid: bool): seq<Entry<H, C>> {
    if valid then Cleared(list, h) else Dropping(list, {h})
  }

  lemma AnsweredNone<H, C>(h: H, valid: bool)
    ensures Answered<H, C>([], h, valid) == [] && CallbackOf<H, C>([], h) == None
  {
  }

  lemma AnsweredStep<H, C>(list: seq<Entry<H, C>>, i: nat, h: H, valid: bool)
    requires i < |list|
    ensures var e, rest := list[i], Answered(list[i + 1..], h, valid);
            && Answered(list[i..], h, valid) ==
                 (if e.tx.hash != h then [e] else if valid then [e.(callback := None)] else []) + rest
            && CallbackOf(list[i..], h) == if e.tx.hash == h then e.callback else CallbackOf(list[i + 1..], h)
  {
    assert list[i..][0] == list[i] && list[i..][1..] == list[i + 1..];
  }

  /** Every unconfirmed wallet transaction that an entry spends is listed. */
  ghost predicate Complete<H, C>(wallet: Wallet<H>, list: seq<Entry<H, C>>) {
    Closed(wallet, list, HashSeq(list), {})
  }

  /** Adding a transaction: nothing if there is none to add, else the transaction and after it its ancestors,
      so that what the added ones spend is listed, and all that is spent if it was before. */
  ghost predicate Added<H, C>(wallet: Wallet<H>, tx: Option<Tx<H>>, callback: Option<C>,
                              list: seq<Entry<H, C>>, list': seq<Entry<H, C>>) {
    && (Complete(wallet, list) ==> Complete(wallet, list'))
    && Closed(wallet, list', HashSeq(list'), Elements(HashSeq(list)))
    && if tx.None? || !tx.value.unconfirmed || Lists(list, tx.value.hash) then list' == list
       else Prefix(list, list') && |list'| > |list| && list'[|list|] == Entry(tx.value, callback) &&
            Ancestry(list', |list|) && FromWallet(wallet, list', |list|)
  }

  /** Exactly what one event does. */
  ghost predicate Effect<H, C>(e: Event<H, C>, s: State<H, C>, s': State<H, C>) {
    match e
    case Publish(wallet, tx, callback, refused) =>
      if refused then s' == State(s.list, s.fired + Call(callback))
      else s'.fired == s.fired && Added(wallet, Some(tx), callback, s.list, s'.list)
    case Relayed(hash, wallet, own) =>
      && s'.fired == s.fired + Call(CallbackOf(s.list, hash))
      && Added(wallet, own, None, Cleared(s.list, hash), s'.list)
    case HasTx(hash) => s' == State(Cleared(s.list, hash), s.fired + Call(CallbackOf(s.list, hash)))
    case Requested(hash, valid) =>
      s' == State(Answered(s.list, hash, valid), s.fired + Call(CallbackOf(s.list, hash)))
    case Confirmed(hs) => s' == State(Dropping(s.list, Elements(hs)), s.fired)
    case Disconnected => s' == State(Silent(s.list), s.fired + CallsDown(s.list))
  }

  // ------------------------------------------------------- callbacks are conserved

  /** The callbacks called or waiting. */
  ghost function Total<H, C>(s: State<H, C>): multiset<C> {
    multiset(s.fired) + Pending(s.list)
  }

  ghost function HandedBy<H, C>(e: Event<H, C>): multiset<C> {
    if e.Publish? then Token(e.callback) else multiset{}
  }

  /** A callback is lost when it comes with a transaction that is confirmed or listed, and when
      its transaction is confirmed while it waits. */
  ghost function LostBy<H, C>(e: Event<H, C>, list: seq<Entry<H, C>>): multiset<C> {
    if e.Publish? && !e.refused && (!e.tx.unconfirmed || Lists(list, e.tx.hash)) then Token(e.callback)
    else if e.Confirmed? then DroppedWith(list, Elements(e.hashes))
    else multiset{}
  }

  lemma PendingCons<H, C>(s: seq<Entry<H, C>>)
    requires s != []
    ensures Pending(s) == Token(s[0].callback) + Pending(s[1..])
  {
    hide Pending;
    assert s == [s[0]] + s[1..];
    PendingConcat([s[0]], s[1..]);
    PendingOne(s[0]);
  }

  lemma {:induction false} DroppingConserves<H, C>(s: seq<Entry<H, C>>, hs: set<H>)
    ensures Pending(Dropping(s, hs)) + DroppedWith(s, hs) == Pending(s)
  {
    if s != [] {
      DroppingConserves(s[1..], hs);
      PendingCons(s);
      var d := Dropping(s[1..], hs);
      hide Pending;
      if s[0].tx.hash in hs {
        assert Dropping(s, hs) == d;
      } else {
        assert Dropping(s, hs) == [s[0]] + d;
        PendingConcat([s[0]], d);
        PendingOne(s[0]);
      }
    }
  }

  ghost predicate DistinctList<H, C>(s: seq<Entry<H, C>>) {
    forall i, j | 0 <= i < j < |s| :: s[i].tx.hash != s[j].tx.hash
  }

  lemma {:induction false} ClearedAbsent<H, C>(s: seq<Entry<H, C>>, h: H)
    requires !Lists(s, h)
    ensures Cleared(s, h) == s && CallbackOf(s, h) == None && DroppedWith(s, {h}) == multiset{}
  {
    if s != [] {
      assert s[0].tx.hash != h;
      assert !Lists(s[1..], h) by { assert forall i | 0 <= i < |s[1..]| :: s[1..][i] == s[i + 1]; }
      ClearedAbsent(s[1..], h);
      assert s == [s[0]] + s[1..];
    }
  }

  lemma DistinctTail<H, C>(s: seq<Entry<H, C>>)
    requires DistinctList(s) && s != []
    ensures DistinctList(s[1..]) && !Lists(s[1..], s[0].tx.hash)
  {
    var t := s[1..];
    assert forall i | 0 <= i < |t| :: t[i] == s[i + 1];
  }

  lemma {:induction false} ClearedConserves<H, C>(s: seq<Entry<H, C>>, h: H)
    requires DistinctList(s)
    ensures Pending(Cleared(s, h)) + Token(CallbackOf(s, h)) == Pending(s)
  {
    if s != [] {
      var t, c := s[1..], Cleared(s, h);
      assert c[1..] == Cleared(t, h);
      var here, there := CallbackOf(s, h), CallbackOf(t, h);
      assert here == if s[0].tx.hash == h then s[0].callback else there;
      assert c[0] == if s[0].tx.hash == h then s[0].(callback := None) else s[0];
      hide DistinctList, Lists, Pending, Token, Cleared, CallbackOf;
      DistinctTail(s);
      PendingCons(s);
      PendingCons(c);
      NoToken<C>();
      if s[0].tx.hash == h { ClearedAbsent(t, h); } else { ClearedConserves(t, h); }
      Exchange(Token(c[0].callback), Pending(Cleared(t, h)), Token(here));
    }
  }

  lemma Exchange<C>(a: multiset<C>, b: multiset<C>, c: multiset<C>)
    ensures (a + b) + c == a + (b + c) == c + (a + b)
  {
  }

  lemma NoToken<C>()
    ensures Token<C>(None) == multiset{}
  {
  }

  lemma {:induction false} DroppedOne<H, C>(s: seq<Entry<H, C>>, h: H)
    requires DistinctList(s)
    ensures DroppedWith(s, {h}) == Token(CallbackOf(s, h))
  {
    if s != [] {
      hide DistinctList, Lists;
      DistinctTail(s);
      if s[0].tx.hash == h { ClearedAbsent(s[1..], h); } else { DroppedOne(s[1..], h); }
    }
  }

  lemma {:induction false} SilentConserves<H, C>(s: seq<Entry<H, C>>)
    ensures Pending(Silent(s)) == multiset{} && multiset(CallsDown(s)) == Pending(s)
  {
    if s != [] {
      SilentConserves(s[1..]);
      PendingCons(s);
      var t := Silent(s[1..]);
      hide Pending;
      if s[0].callback.None? {
        PendingConcat([s[0]], t);
        PendingOne(s[0]);
      } else {
        assert Silent(s) == t;
      }
    }
  }

  lemma AddedConserves<H, C>(wallet: Wallet<H>, tx: Option<Tx<H>>, callback: Option<C>,
                             list: seq<Entry<H, C>>, list': seq<Entry<H, C>>)
    requires Added(wallet, tx, callback, list, list')
    ensures Pending(list') == Pending(list) +
              if tx.Some? && tx.value.unconfirmed && !Lists(list, tx.value.hash) then Token(callback) else multiset{}
  {
    hide Pending, Ancestry, Lists, Closed, Complete;
    if list' != list { PendingAdded(list, list'); }
  }

  /** Callbacks called, waiting and lost together are those there were and those handed over. */
  lemma EffectConserves<H, C>(e: Event<H, C>, s: State<H, C>, s': State<H, C>)
    requires DistinctList(s.list) && Effect(e, s, s')
    ensures Total(s') + LostBy(e, s.list) == Total(s) + HandedBy(e)
  {
    hide Pending, Added, Lists, DistinctList, CallbackOf, Cleared, Dropping, DroppedWith, Silent, CallsDown, Answered;
    match e
    case Publish(wallet, tx, callback, refused) => PublishConserves(e, s, s');
    case Relayed(hash, wallet, own) =>
      ClearedConserves(s.list, hash);
      AddedConserves(wallet, own, None, Cleared(s.list, hash), s'.list);
      CalledConserves(s, s', CallbackOf(s.list, hash));
    case HasTx(hash) =>
      ClearedConserves(s.list, hash);
      CalledConserves(s, s', CallbackOf(s.list, hash));
    case Requested(hash, valid) =>
      AnsweredConserves(s.list, hash, valid);
      CalledConserves(s, s', CallbackOf(s.list, hash));
    case Confirmed(hs) =>
      DroppingConserves(s.list, Elements(hs));
      assert multiset(s.fired) + (Pending(s'.list) + DroppedWith(s.list, Elements(hs))) == Total(s);
    case Disconnected =>
      SilentConserves(s.list);
      assert multiset(s'.fired) == multiset(s.fired) + multiset(CallsDown(s.list));
  }

  lemma PublishConserves<H, C>(e: Event<H, C>, s: State<H, C>, s': State<H, C>)
    requires e.Publish? && Effect(e, s, s')
    ensures Total(s') + LostBy(e, s.list) == Total(s) + HandedBy(e)
  {
    hide Pending, Added, Lists;
    if e.refused {
      CallCounts(s.fired, e.callback);
      assert (multiset(s.fired) + Token(e.callback)) + Pending(s.list) == Total(s) + Token(e.callback);
    } else {
      AddedConserves(e.wallet, Some(e.tx), e.callback, s.list, s'.list);
      assert multiset(s.fired) + (Pending(s.list) + Token(e.callback)) == Total(s) + Token(e.callback);
    }
  }

  /** A callback taken from the list and called. */
  lemma CalledConserves<H, C>(s: State<H, C>, s': State<H, C>, c: Option<C>)
    requires s'.fired == s.fired + Call(c) && Pending(s'.list) + Token(c) == Pending(s.list)
    ensures Total(s') == Total(s)
  {
    hide Pending;
    CallCounts(s.fired, c);
    assert (multiset(s.fired) + Token(c)) + Pending(s'.list) == multiset(s.fired) + (Pending(s'.list) + Token(c));
  }

  lemma CallCounts<C>(fired: seq<C>, c: Option<C>)
    ensures multiset(fired + Call(c)) == multiset(fired) + Token(c)
  {
  }

  lemma AnsweredConserves<H, C>(s: seq<Entry<H, C>>, h: H, valid: bool)
    requires DistinctList(s)
    ensures Pending(Answered(s, h, valid)) + Token(CallbackOf(s, h)) == Pending(s)
  {
    hide Pending, DistinctList, CallbackOf, Cleared, Dropping, DroppedWith;
    ClearedConserves(s, h);
    DroppedOne(s, h);
    DroppingConserves(s, {h});
  }

  // ------------------------------------------------- when the list stays complete

  lemma CompleteMeans<H, C>(wallet: Wallet<H>, list: seq<Entry<H, C>>)
    ensures Complete(wallet, list) <==>
              forall e, h | e in list && h in e.tx.inputs && Unconfirmed(wallet, h) :: Lists(list, h)
  {
    hide Unconfirmed, Lists;
    var hashes := HashSeq(list);
    AlignedMeans(list, hashes);
    if Complete(wallet, list) {
      forall e, h | e in list && h in e.tx.inputs && Unconfirmed(wallet, h) ensures Lists(list, h) {
        var i :| 0 <= i < |list| && list[i] == e;
        var j :| 0 <= j < |e.tx.inputs| && e.tx.inputs[j] == h;
        assert list[i].tx.inputs[j] in hashes;
      }
    }
  }

  /** `part` holds the entries of `list` that are not of the transactions `gone`. */
  ghost predicate Remaining<H, C>(list: seq<Entry<H, C>>, part: seq<Entry<H, C>>, gone: set<H>) {
    && (forall e | e in part :: e in list && e.tx.hash !in gone)
    && (forall e | e in list :: e.tx.hash !in gone ==> e in part)
  }

  /** Some entry spends an unconfirmed wallet transaction among those gone. */
  ghost predicate SpendsGone<H, C>(wallet: Wallet<H>, part: seq<Entry<H, C>>, gone: set<H>) {
    exists e, h | e in part && h in e.tx.inputs :: Unconfirmed(wallet, h) && h in gone
  }

  /** What remains of a complete list is complete if and only if it spends nothing that is gone. */
  lemma RemainingComplete<H, C>(wallet: Wallet<H>, list: seq<Entry<H, C>>, part: seq<Entry<H, C>>, gone: set<H>)
    requires Complete(wallet, list) && Remaining(list, part, gone)
    ensures Complete(wallet, part) <==> !SpendsGone(wallet, part, gone)
  {
    CompleteMeans(wallet, list);
    CompleteMeans(wallet, part);
    hide Unconfirmed, Complete;
    forall h | Lists(part, h) ensures h !in gone {
      var i :| 0 <= i < |part| && part[i].tx.hash == h;
      assert part[i] in part;
    }
    forall h | Lists(list, h) && h !in gone ensures Lists(part, h) {
      var i :| 0 <= i < |list| && list[i].tx.hash == h;
      assert list[i] in part;
      var j :| 0 <= j < |part| && part[j] == list[i];
    }
  }

  lemma {:induction false} DroppingRemains<H, C>(s: seq<Entry<H, C>>, hs: set<H>)
    ensures Remaining(s, Dropping(s, hs), hs)
  {
    if s != [] {
      DroppingRemains(s[1..], hs);
      assert s == [s[0]] + s[1..];
    }
  }

  /** The transactions whose entries hold a callback. */
  ghost function Awaited<H, C>(s: seq<Entry<H, C>>): set<H> {
    set e | e in s && e.callback.Some? :: e.tx.hash
  }

  lemma {:induction false} SilentHolds<H, C>(s: seq<Entry<H, C>>, e: Entry<H, C>)
    ensures e in Silent(s) <==> e in s && e.callback.None?
  {
    if s != [] {
      SilentHolds(s[1..], e);
      assert s == [s[0]] + s[1..];
    }
  }

  lemma SilentRemains<H, C>(s: seq<Entry<H, C>>)
    requires DistinctList(s)
    ensures Remaining(s, Silent(s), Awaited(s))
  {
    hide Silent, Awaited, DistinctList;
    forall e | e in Silent(s) ensures e in s && e.tx.hash !in Awaited(s) {
      SilentHolds(s, e);
      AwaitedMeans(s, e);
    }
    forall e | e in s ensures e.tx.hash !in Awaited(s) ==> e in Silent(s) {
      SilentHolds(s, e);
      AwaitedMeans(s, e);
    }
  }

  lemma AwaitedMeans<H, C>(s: seq<Entry<H, C>>, e: Entry<H, C>)
    requires DistinctList(s) && e in s
    ensures e.tx.hash in Awaited(s) <==> e.callback.Some?
  {
    if e.tx.hash in Awaited(s) {
      var d :| d in s && d.callback.Some? && d.tx.hash == e.tx.hash;
      var i :| 0 <= i < |s| && s[i] == e;
      var j :| 0 <= j < |s| && s[j] == d;
      assert i == j;
    }
  }

  lemma {:induction false} ClearedComplete<H, C>(wallet: Wallet<H>, s: seq<Entry<H, C>>, h: H)
    requires Complete(wallet, s)
    ensures Complete(wallet, Cleared(s, h))
  {
    ClearedKeepsTx(s, h);
    hide Cleared;
    var c := Cleared(s, h);
    AlignedMeans(c, HashSeq(s));
  }

  lemma {:induction false} ClearedKeepsTx<H, C>(s: seq<Entry<H, C>>, h: H)
    ensures |Cleared(s, h)| == |s| && forall i | 0 <= i < |s| :: Cleared(s, h)[i].tx == s[i].tx
  {
    if s != [] { ClearedKeepsTx(s[1..], h); }
  }

  /** The wallet after an event: confirmation changes it. */
  ghost function After<H, C>(e: Event<H, C>, wallet: Wallet<H>): Wallet<H> {
    if e.Confirmed? then ConfirmedIn(wallet, e.hashes) else wallet
  }

  /** An event that takes out a transaction which a remaining entry spends and the wallet holds unconfirmed. */
  ghost predicate Gap<H, C>(e: Event<H, C>, wallet: Wallet<H>, list: seq<Entry<H, C>>) {
    || (e.Disconnected? && SpendsGone(wallet, Silent(list), Awaited(list)))
    || (e.Requested? && !e.valid && SpendsGone(wallet, Dropping(list, {e.hash}), {e.hash}))
  }

  /** A complete list stays complete through an event if and only if the event leaves no gap. */
  lemma EffectComplete<H, C>(e: Event<H, C>, wallet: Wallet<H>, s: State<H, C>, s': State<H, C>)
    requires DistinctList(s.list) && Effect(e, s, s') && Complete(wallet, s.list)
    requires e.Publish? || e.Relayed? ==> e.wallet == wallet
    ensures Complete(After(e, wallet), s'.list) <==> !Gap(e, wallet, s.list)
  {
    hide Complete, Closed, DistinctList, Lists, Ancestry, ConfirmedIn, Cleared, Dropping, Silent, SpendsGone;
    hide CallbackOf, CallsDown;
    match e
    case Publish(_, tx, callback, refused) =>
    case Relayed(hash, _, own) => ClearedComplete(wallet, s.list, hash);
    case HasTx(hash) => ClearedComplete(wallet, s.list, hash);
    case Requested(hash, valid) =>
      ClearedComplete(wallet, s.list, hash);
      DroppingRemains(s.list, {hash});
      RemainingComplete(wallet, s.list, Dropping(s.list, {hash}), {hash});
    case Confirmed(hs) => ConfirmedComplete(wallet, hs, s.list);
    case Disconnected =>
      SilentRemains(s.list);
      RemainingComplete(wallet, s.list, Silent(s.list), Awaited(s.list));
  }

  lemma ConfirmedComplete<H, C>(wallet: Wallet<H>, hs: seq<H>, list: seq<Entry<H, C>>)
    requires Complete(wallet, list)
    ensures Complete(ConfirmedIn(wallet, hs), Dropping(list, Elements(hs)))
  {
    ConfirmWeakens(wallet, hs, list, HashSeq(list));
    hide Complete, Closed, Dropping;
    DroppingRemains(list, Elements(hs));
    assert Complete(ConfirmedIn(wallet, hs), list) by { CompleteIs(ConfirmedIn(wallet, hs), list); }
    RemainingComplete(ConfirmedIn(wallet, hs), list, Dropping(list, Elements(hs)), Elements(hs));
  }

  lemma CompleteIs<H, C>(wallet: Wallet<H>, list: seq<Entry<H, C>>)
    ensures Complete(wallet, list) <==> Closed(wallet, list, HashSeq(list), {})
  {
    hide Closed;
  }

  /** The wallet moved on without an entry coming to spend an unlisted unconfirmed transaction. */
  ghost predicate Follows<H, C>(wallet: Wallet<H>, wallet': Wallet<H>, list: seq<Entry<H, C>>) {
    forall e, h | e in list && h in e.tx.inputs && Unconfirmed(wallet', h) :: Unconfirmed(wallet, h) || Lists(list, h)
  }

  /** The wallet seen by every event of a run, none of which leaves a gap. */
  ghost predicate NoGaps<H, C>(events: seq<Event<H, C>>, trace: seq<State<H, C>>, wallets: seq<Wallet<H>>) {
    && |trace| == |wallets| == |events| + 1
    && forall i | 0 <= i < |events| ::
         && (events[i].Publish? || events[i].Relayed? ==> events[i].wallet == wallets[i])
         && !Gap(events[i], wallets[i], trace[i].list)
         && Follows(After(events[i], wallets[i]), wallets[i + 1], trace[i + 1].list)
  }

  /** Over every run without gaps a complete list stays complete. */
  lemma {:induction false} RunComplete<H, C>(events: seq<Event<H, C>>, trace: seq<State<H, C>>,
                                             wallets: seq<Wallet<H>>, n: nat)
    requires Trace(events, trace) && NoGaps(events, trace, wallets) && n <= |events|
    requires Complete(wallets[0], trace[0].list)
    ensures Complete(wallets[n], trace[n].list)
    decreases n
  {
    if n > 0 {
      hide Effect, DistinctList, Complete, Gap, Follows;
      RunComplete(events, trace, wallets, n - 1);
      EffectComplete(events[n - 1], wallets[n - 1], trace[n - 1], trace[n]);
      FollowsComplete(After(events[n - 1], wallets[n - 1]), wallets[n], trace[n].list);
    }
  }

  lemma FollowsComplete<H, C>(wallet: Wallet<H>, wallet': Wallet<H>, list: seq<Entry<H, C>>)
    requires Complete(wallet, list) && Follows(wallet, wallet', list)
    ensures Complete(wallet', list)
  {
    CompleteMeans(wallet, list);
    CompleteMeans(wallet', list);
    hide Complete, Unconfirmed, Lists;
  }

  // ------------------------------------------------- every ancestor is listed

  /** What the transaction of each hash spends, which the hash determines. */
  type Spends<!H> = H -> seq<H>

  ghost predicate Genuine<H, C>(spends: Spends<H>, list: seq<Entry<H, C>>) {
    forall e | e in list :: e.tx.inputs == spends(e.tx.hash)
  }

  ghost predicate GenuineWallet<H>(spends: Spends<H>, wallet: Wallet<H>) {
    forall h | h in wallet :: wallet[h].inputs == spends(h)
  }

  ghost predicate GenuineEvent<H, C>(spends: Spends<H>, e: Event<H, C>) {
    match e
    case Publish(wallet, tx, _, _) => GenuineWallet(spends, wallet) && tx.inputs == spends(tx.hash)
    case Relayed(_, wallet, own) =>
      GenuineWallet(spends, wallet) && (own.Some? ==> own.value.inputs == spends(own.value.hash))
    case _ => true
  }

  /** A chain of ancestors of `from`: each is unconfirmed in the wallet and spent by the one before it. */
  ghost predicate Chain<H>(spends: Spends<H>, wallet: Wallet<H>, from: H, chain: seq<H>) {
    var n := |chain| - 1;
    chain == [] ||
    (Chain(spends, wallet, from, chain[..n]) &&
     Link(spends, wallet, if n == 0 then from else chain[n - 1], chain[n]))
  }

  ghost predicate Link<H>(spends: Spends<H>, wallet: Wallet<H>, spender: H, h: H) {
    Unconfirmed(wallet, h) && h in spends(spender)
  }

  lemma ChainSplit<H>(spends: Spends<H>, wallet: Wallet<H>, from: H, chain: seq<H>)
    requires chain != []
    ensures var n := |chain| - 1;
            Chain(spends, wallet, from, chain) <==>
              && Chain(spends, wallet, from, chain[..n])
              && Link(spends, wallet, if n == 0 then from else chain[n - 1], chain[n])
  {
    hide Link;
  }

  /** In a complete list of genuine transactions every listed one has all its unconfirmed ancestors listed. */
  lemma {:induction false} AncestorsListed<H, C>(spends: Spends<H>, wallet: Wallet<H>, list: seq<Entry<H, C>>,
                                                 from: H, chain: seq<H>)
    requires Complete(wallet, list) && Genuine(spends, list) && Lists(list, from)
    requires Chain(spends, wallet, from, chain)
    ensures forall h | h in chain :: Lists(list, h)
    decreases |chain|
  {
    if chain != [] {
      var n := |chain| - 1;
      hide Complete, Genuine, Chain;
      ChainSplit(spends, wallet, from, chain);
      AncestorsListed(spends, wallet, list, from, chain[..n]);
      var spender := if n == 0 then from else chain[n - 1];
      assert Lists(list, spender) by { if n > 0 { assert chain[..n][n - 1] == spender; } }
      ParentsListed(spends, wallet, list, spender, chain[n]);
      assert forall h | h in chain :: h in chain[..n] || h == chain[n];
    }
  }

  lemma ParentsListed<H, C>(spends: Spends<H>, wallet: Wallet<H>, list: seq<Entry<H, C>>, spender: H, h: H)
    requires Complete(wallet, list) && Genuine(spends, list) && Lists(list, spender)
    requires Link(spends, wallet, spender, h)
    ensures Lists(list, h)
  {
    CompleteMeans(wallet, list);
    hide Complete;
    var i :| 0 <= i < |list| && list[i].tx.hash == spender;
    assert list[i] in list;
  }

  /** What is added to a list of genuine transactions is genuine. */
  lemma AddedGenuine<H, C>(spends: Spends<H>, wallet: Wallet<H>, tx: Option<Tx<H>>, callback: Option<C>,
                           list: seq<Entry<H, C>>, list': seq<Entry<H, C>>)
    requires Added(wallet, tx, callback, list, list') && GenuineWallet(spends, wallet) && Genuine(spends, list)
    requires tx.Some? ==> tx.value.inputs == spends(tx.value.hash)
    ensures Genuine(spends, list')
  {
    hide Complete, Closed, Ancestry, Lists;
    if list' != list {
      forall i | 0 <= i < |list'| ensures list'[i].tx.inputs == spends(list'[i].tx.hash) {
        if i < |list| {
          assert list'[i] == list[i] && list[i] in list;
        } else if i > |list| {
          assert IsWalletTx(wallet, list'[i].tx);
        }
      }
    }
  }

  lemma EffectGenuine<H, C>(spends: Spends<H>, e: Event<H, C>, s: State<H, C>, s': State<H, C>)
    requires Effect(e, s, s') && GenuineEvent(spends, e) && Genuine(spends, s.list)
    ensures Genuine(spends, s'.list)
  {
    hide Genuine, GenuineWallet, Added, Cleared, Dropping, Silent, CallbackOf, CallsDown;
    match e
    case Publish(wallet, tx, callback, refused) =>
      if !refused { AddedGenuine(spends, wallet, Some(tx), callback, s.list, s'.list); }
    case Relayed(hash, wallet, own) =>
      ClearedGenuine(spends, s.list, hash);
      AddedGenuine(spends, wallet, own, None, Cleared(s.list, hash), s'.list);
    case HasTx(hash) => ClearedGenuine(spends, s.list, hash);
    case Requested(hash, valid) =>
      ClearedGenuine(spends, s.list, hash);
      DroppingRemains(s.list, {hash});
      FewerGenuine(spends, s.list, Dropping(s.list, {hash}));
    case Confirmed(hs) =>
      DroppingRemains(s.list, Elements(hs));
      FewerGenuine(spends, s.list, Dropping(s.list, Elements(hs)));
    case Disconnected =>
      SilentWithin(s.list);
      FewerGenuine(spends, s.list, Silent(s.list));
  }

  lemma FewerGenuine<H, C>(spends: Spends<H>, list: seq<Entry<H, C>>, part: seq<Entry<H, C>>)
    requires Genuine(spends, list) && forall e | e in part :: e in list
    ensures Genuine(spends, part)
  {
  }

  lemma {:induction false} SilentWithin<H, C>(list: seq<Entry<H, C>>)
    ensures forall e | e in Silent(list) :: e in list
  {
    if list != [] { SilentWithin(list[1..]); }
  }

  lemma {:induction false} ClearedGenuine<H, C>(spends: Spends<H>, list: seq<Entry<H, C>>, h: H)
    requires Genuine(spends, list)
    ensures Genuine(spends, Cleared(list, h))
  {
    if list != [] {
      assert list[0] in list;
      FewerGenuine(spends, list, list[1..]);
      ClearedGenuine(spends, list[1..], h);
    }
  }

  /** Over every run without gaps every listed transaction has all its unconfirmed ancestors listed. */
  lemma RunListsAncestors<H, C>(spends: Spends<H>, events: seq<Event<H, C>>, trace: seq<State<H, C>>,
                                wallets: seq<Wallet<H>>, n: nat, from: H, chain: seq<H>)
    requires Trace(events, trace) && NoGaps(events, trace, wallets) && n <= |events|
    requires Complete(wallets[0], trace[0].list) && Genuine(spends, trace[0].list)
    requires forall e | e in events :: GenuineEvent(spends, e)
    requires Lists(trace[n].list, from) && Chain(spends, wallets[n], from, chain)
    ensures forall h | h in chain :: Lists(trace[n].list, h)
  {
    hide NoGaps, Complete, Genuine, Chain, Lists, GenuineEvent, Effect, DistinctList;
    assert |wallets| == |events| + 1 by { WalletsMatch(events, trace, wallets); }
    RunComplete(events, trace, wallets, n);
    RunGenuine(spends, events, trace, n);
    AncestorsListed(spends, wallets[n], trace[n].list, from, chain);
  }

  lemma WalletsMatch<H, C>(events: seq<Event<H, C>>, trace: seq<State<H, C>>, wallets: seq<Wallet<H>>)
    requires NoGaps(events, trace, wallets)
    ensures |trace| == |wallets| == |events| + 1
  {
  }

  lemma {:induction false} RunGenuine<H, C>(spends: Spends<H>, events: seq<Event<H, C>>, trace: seq<State<H, C>>,
                                            n: nat)
    requires Trace(events, trace) && n <= |events| && Genuine(spends, trace[0].list)
    requires forall e | e in events :: GenuineEvent(spends, e)
    ensures Genuine(spends, trace[n].list)
    decreases n
  {
    if n > 0 {
      hide Genuine, GenuineEvent, Effect, DistinctList;
      RunGenuine(spends, events, trace, n - 1);
      assert events[n - 1] in events;
      EffectGenuine(spends, events[n - 1], trace[n - 1], trace[n]);
    }
  }

  /** `h` is an unconfirmed ancestor of `from`. */
  ghost predicate AncestorOf<H(!new)>(spends: Spends<H>, wallet: Wallet<H>, from: H, h: H) {
    exists chain: seq<H> :: chain != [] && chain[|chain| - 1] == h && Chain(spends, wallet, from, chain)
  }

  /** Adding to a complete list lists the transaction and exactly its unconfirmed ancestors besides. */
  lemma AddListsExactly<H(!new), C>(spends: Spends<H>, wallet: Wallet<H>, tx: Tx<H>, callback: Option<C>,
                                    list: seq<Entry<H, C>>, list': seq<Entry<H, C>>, h: H)
    requires Complete(wallet, list) && Genuine(spends, list) && Added(wallet, Some(tx), callback, list, list')
    requires GenuineWallet(spends, wallet) && tx.inputs == spends(tx.hash) && tx.unconfirmed
    ensures Lists(list', h) <==> Lists(list, h) || h == tx.hash || AncestorOf(spends, wallet, tx.hash, h)
  {
    hide Complete, Genuine, Added, GenuineWallet, Chain, Lists;
    AddedLists(wallet, tx, callback, list, list', h);
    if AncestorOf(spends, wallet, tx.hash, h) {
      var chain: seq<H> :| chain != [] && chain[|chain| - 1] == h && Chain(spends, wallet, tx.hash, chain);
      AddedGenuine(spends, wallet, Some(tx), callback, list, list');
      AncestorsListed(spends, wallet, list', tx.hash, chain);
    }
    if Lists(list', h) && !Lists(list, h) && h != tx.hash {
      AddsOnlyAncestors(spends, wallet, tx, callback, list, list', h);
    }
  }

  lemma AddsOnlyAncestors<H(!new), C>(spends: Spends<H>, wallet: Wallet<H>, tx: Tx<H>, callback: Option<C>,
                                      list: seq<Entry<H, C>>, list': seq<Entry<H, C>>, h: H)
    requires Added(wallet, Some(tx), callback, list, list')
    requires GenuineWallet(spends, wallet) && tx.inputs == spends(tx.hash)
    requires Lists(list', h) && !Lists(list, h) && h != tx.hash
    ensures AncestorOf(spends, wallet, tx.hash, h)
  {
    hide Complete, Closed, GenuineWallet, Ancestry, FromWallet, AncestorOf;
    var i :| 0 <= i < |list'| && list'[i].tx.hash == h;
    NewEntry(list, list', i);
    AddedIsAncestor(spends, wallet, tx, list', |list|, i);
  }

  lemma NewEntry<H, C>(list: seq<Entry<H, C>>, list': seq<Entry<H, C>>, i: nat)
    requires Prefix(list, list') && i < |list'| && !Lists(list, list'[i].tx.hash)
    ensures i >= |list|
  {
    assert forall k | 0 <= k < |list| :: list'[k] == list[k];
  }

  lemma AddedLists<H, C>(wallet: Wallet<H>, tx: Tx<H>, callback: Option<C>, list: seq<Entry<H, C>>,
                         list': seq<Entry<H, C>>, h: H)
    requires Added(wallet, Some(tx), callback, list, list') && tx.unconfirmed
    ensures Lists(list', tx.hash) && (Lists(list, h) ==> Lists(list', h))
    ensures Complete(wallet, list) ==> Complete(wallet, list')
  {
    hide Complete, Closed, Ancestry, FromWallet;
    if list' != list {
      assert list'[|list|].tx.hash == tx.hash;
      assert forall i | 0 <= i < |list| :: list'[i] == list[i];
    }
  }

  lemma {:induction false} AddedIsAncestor<H(!new), C>(spends: Spends<H>, wallet: Wallet<H>, tx: Tx<H>,
                                                       list': seq<Entry<H, C>>, start: nat, i: nat)
    requires start < i < |list'| && list'[start].tx == tx && Ancestry(list', start) && FromWallet(wallet, list', start)
    requires GenuineWallet(spends, wallet) && tx.inputs == spends(tx.hash)
    ensures AncestorOf(spends, wallet, tx.hash, list'[i].tx.hash)
    decreases i
  {
    hide Ancestry, FromWallet, GenuineWallet, AncestorOf, Link;
    var j := SpenderBefore(spends, wallet, tx, list', start, i);
    if j > start { AddedIsAncestor(spends, wallet, tx, list', start, j); }
    AncestorSnoc(spends, wallet, tx.hash, list'[j].tx.hash, list'[i].tx.hash);
  }

  lemma SpenderBefore<H, C>(spends: Spends<H>, wallet: Wallet<H>, tx: Tx<H>, list': seq<Entry<H, C>>, start: nat,
                            i: nat) returns (j: nat)
    requires start < i < |list'| && list'[start].tx == tx && Ancestry(list', start) && FromWallet(wallet, list', start)
    requires GenuineWallet(spends, wallet) && tx.inputs == spends(tx.hash)
    ensures start <= j < i && Link(spends, wallet, list'[j].tx.hash, list'[i].tx.hash)
  {
    var h := list'[i].tx.hash;
    assert IsAncestor(list', start, i) && IsWalletTx(wallet, list'[i].tx);
    j :| start <= j < i && h in list'[j].tx.inputs;
    assert j > start ==> IsWalletTx(wallet, list'[j].tx);
  }

  lemma AncestorSnoc<H(!new)>(spends: Spends<H>, wallet: Wallet<H>, from: H, mid: H, h: H)
    requires (mid == from || AncestorOf(spends, wallet, from, mid)) && Link(spends, wallet, mid, h)
    ensures AncestorOf(spends, wallet, from, h)
  {
    hide Chain, Link;
    var chain: seq<H> := [];
    NoChain(spends, wallet, from);
    if mid != from {
      chain :| chain != [] && chain[|chain| - 1] == mid && Chain(spends, wallet, from, chain);
    }
    assert (chain + [h])[..|chain|] == chain;
    ChainSplit(spends, wallet, from, chain + [h]);
    assert (chain + [h])[|chain + [h]| - 1] == h;
  }

  lemma NoChain<H>(spends: Spends<H>, wallet: Wallet<H>, from: H)
    ensures Chain(spends, wallet, from, [])
  {
  }

  /** On any list the ancestors of an added transaction are listed up to those that were listed before. */
  lemma {:induction false} AddListsAncestors<H, C>(spends: Spends<H>, wallet: Wallet<H>, tx: Tx<H>,
                                                   callback: Option<C>, list: seq<Entry<H, C>>,
                                                   list': seq<Entry<H, C>>, chain: seq<H>)
    requires Added(wallet, Some(tx), callback, list, list') && tx.unconfirmed && !Lists(list, tx.hash)
    requires GenuineWallet(spends, wallet) && tx.inputs == spends(tx.hash)
    requires Chain(spends, wallet, tx.hash, chain) && forall i | 0 <= i < |chain| - 1 :: !Lists(list, chain[i])
    ensures forall h | h in chain :: Lists(list', h)
    decreases |chain|
  {
    if chain != [] {
      var n := |chain| - 1;
      ChainSplit(spends, wallet, tx.hash, chain);
      hide Added, GenuineWallet, Chain, Lists;
      AddListsAncestors(spends, wallet, tx, callback, list, list', chain[..n]);
      var spender := if n == 0 then tx.hash else chain[n - 1];
      AddedLists(wallet, tx, callback, list, list', spender);
      assert Lists(list', spender) by { if n > 0 { assert chain[..n][n - 1] == spender; } }
      AddedParents(spends, wallet, tx, callback, list, list', spender, chain[n]);
      assert forall h | h in chain :: h in chain[..n] || h == chain[n];
    }
  }

  lemma AddedParents<H, C>(spends: Spends<H>, wallet: Wallet<H>, tx: Tx<H>, callback: Option<C>,
                           list: seq<Entry<H, C>>, list': seq<Entry<H, C>>, spender: H, h: H)
    requires Added(wallet, Some(tx), callback, list, list') && tx.unconfirmed && !Lists(list, tx.hash)
    requires GenuineWallet(spends, wallet) && tx.inputs == spends(tx.hash)
    requires Lists(list', spender) && !Lists(list, spender) && Link(spends, wallet, spender, h)
    ensures Lists(list', h)
  {
    hide Complete, Ancestry;
    AlignedMeans(list, HashSeq(list));
    AlignedMeans(list', HashSeq(list'));
    var i :| 0 <= i < |list'| && list'[i].tx.hash == spender;
    NewEntry(list, list', i);
    assert i > |list| ==> IsWalletTx(wallet, list'[i].tx);
    assert spender == if i == |list| then tx.hash else list'[i].tx.hash;
    assert list'[i].tx.inputs == spends(spender);
    var j :| 0 <= j < |list'[i].tx.inputs| && list'[i].tx.inputs[j] == h;
  }

  // ----------------------------------------------------------------------- runs

  ghost function Handed<H, C>(events: seq<Event<H, C>>): multiset<C> {
    if events == [] then multiset{}
    else Handed(events[..|events| - 1]) + HandedBy(events[|events| - 1])
  }

  /** The states before and after every event of a run. */
  ghost predicate Trace<H, C>(events: seq<Event<H, C>>, trace: seq<State<H, C>>) {
    && |trace| == |events| + 1
    && forall i | 0 <= i < |events| :: DistinctList(trace[i].list) && Effect(events[i], trace[i], trace[i + 1])
  }

  /** The callbacks lost in a run. */
  ghost function Lost<H, C>(events: seq<Event<H, C>>, trace: seq<State<H, C>>): multiset<C>
    requires |trace| == |events| + 1
  {
    if events == [] then multiset{}
    else
      var n := |events| - 1;
      Lost(events[..n], trace[..n + 1]) + LostBy(events[n], trace[n].list)
  }

  /** Over every run: called, waiting and lost together are those there were and those handed over. */
  lemma {:induction false} RunConserves<H, C>(events: seq<Event<H, C>>, trace: seq<State<H, C>>)
    requires Trace(events, trace)
    ensures Total(trace[|events|]) + Lost(events, trace) == Total(trace[0]) + Handed(events)
  {
    hide Total, LostBy, HandedBy, Effect, DistinctList;
    if events != [] {
      var n := |events| - 1;
      var es, tr := events[..n], trace[..n + 1];
      TracePrefix(events, trace, n);
      assert tr[0] == trace[0] && tr[n] == trace[n];
      RunConserves(es, tr);
      EffectConserves(events[n], trace[n], trace[n + 1]);
      Balance(Total(trace[0]), Total(trace[n]), Total(trace[n + 1]), Lost(es, tr), LostBy(events[n], trace[n].list),
              Handed(es), HandedBy(events[n]));
    }
  }

  lemma Balance<C>(a: multiset<C>, b: multiset<C>, c: multiset<C>, l: multiset<C>, m: multiset<C>, h: multiset<C>,
                   i: multiset<C>)
    requires b + l == a + h && c + m == b + i
    ensures c + (l + m) == a + (h + i)
  {
    assert c + (l + m) == (c + m) + l;
    assert (b + i) + l == (b + l) + i;
    assert (a + h) + i == a + (h + i);
  }

  lemma TracePrefix<H, C>(events: seq<Event<H, C>>, trace: seq<State<H, C>>, n: nat)
    requires Trace(events, trace) && n <= |events|
    ensures Trace(events[..n], trace[..n + 1])
  {
    hide Effect, DistinctList;
    var es, tr := events[..n], trace[..n + 1];
    forall i | 0 <= i < n ensures DistinctList(tr[i].list) && Effect(es[i], tr[i], tr[i + 1]) {
      assert es[i] == events[i] && tr[i] == trace[i] && tr[i + 1] == trace[i + 1];
    }
  }

  class Manager<H(==, !new), C(==, !new)> {
    var published: seq<Entry<H, C>>
    var hashes: seq<H>
    var fired: seq<C>

    ghost predicate Valid()
      reads this
    {
      Aligned(published, hashes) && Distinct(hashes)
    }

    ghost function Now(): State<H, C>
      reads this
    {
      State(published, fired)
    }

    constructor ()
      ensures Valid() && published == [] && hashes == [] && fired == []
    {
      published, hashes, fired := [], [], [];
    }

    method Listed(h: H) returns (yes: bool)
      requires Valid()
      ensures yes <==> h in hashes
    {
      var i := |published|;
      while i > 0
        invariant 0 <= i <= |published| && forall j | i <= j < |published| :: hashes[j] != h
      {
        if published[i - 1].tx.hash == h {
          assert hashes[i - 1] == h;
          return true;
        }
        i := i - 1;
      }
      return false;
    }

    method Append(e: Entry<H, C>)
      modifies this`published, this`hashes
      ensures published == old(published) + [e] && hashes == old(hashes) + [e.tx.hash]
    {
      published := published + [e];
      hashes := hashes + [e.tx.hash];
    }

    /**
    Adds a transaction and its unconfirmed ancestors in the wallet.  `open` are the
    entries whose own inputs are still being added further up the recursion.
    */
    method Add(wallet: Wallet<H>, tx: Option<Tx<H>>, callback: Option<C>, ghost open: set<H>)
      requires Valid() && WalletOk(wallet) && Closed(wallet, published, hashes, open)
      modifies this`published, this`hashes
      ensures Valid() && Closed(wallet, published, hashes, open)
      ensures Prefix(old(hashes), hashes) && Prefix(old(published), published)
      ensures tx.Some? && tx.value.unconfirmed ==> tx.value.hash in hashes
      ensures tx.None? || !tx.value.unconfirmed || tx.value.hash in old(hashes) ==> published == old(published)
      ensures tx.Some? && tx.value.unconfirmed && tx.value.hash !in old(hashes) ==>
                |published| > |old(published)| && published[|old(published)|] == Entry(tx.value, callback)
      ensures Ancestry(published, |old(published)|) && FromWallet(wallet, published, |old(published)|)
      decreases |Unlisted(wallet, hashes)|,
                if tx.Some? && tx.value.unconfirmed && !Unconfirmed(wallet, tx.value.hash) then 1 else 0
    {
      hide Aligned, Distinct, Closed, Ancestry, FromWallet, Unlisted, WalletOk, Unconfirmed;
      NoAncestry(wallet, published);
      if tx.None? || !tx.value.unconfirmed {
        return;
      }
      var t := tx.value;
      var found := Listed(t.hash);
      if found {
        return;
      }
      ghost var start := |published|;
      AddOpen(wallet, published, hashes, open, Entry(t, callback));
      LengthsMatch(published, hashes);
      Append(Entry(t, callback));
      NoAncestry(wallet, published);
      for i := 0 to |t.inputs|
        invariant Valid() && Closed(wallet, published, hashes, open + {t.hash})
        invariant Prefix(old(hashes) + [t.hash], hashes) && Prefix(old(published) + [Entry(t, callback)], published)
        invariant forall j | 0 <= j < i :: Unconfirmed(wallet, t.inputs[j]) ==> t.inputs[j] in hashes
        invariant Ancestry(published, start) && FromWallet(wallet, published, start)
      {
        ghost var hs, es := hashes, published;
        AddInput(wallet, t, i, callback, open, start, old(hashes));
        PrefixTrans(old(hashes) + [t.hash], hs, hashes);
        PrefixTrans(old(published) + [Entry(t, callback)], es, published);
      }
      CloseEntry(wallet, published, hashes, open, t, start);
    }

    method AddInput(wallet: Wallet<H>, t: Tx<H>, i: nat, ghost callback: Option<C>, ghost open: set<H>,
                    ghost start: nat, ghost before: seq<H>)
      requires Valid() && WalletOk(wallet) && i < |t.inputs| && t.unconfirmed && start == |before|
      requires Closed(wallet, published, hashes, open + {t.hash}) && t.hash !in before
      requires Prefix(before + [t.hash], hashes) && start < |published| && published[start] == Entry(t, callback)
      requires Ancestry(published, start) && FromWallet(wallet, published, start)
      modifies this`published, this`hashes
      ensures Valid() && Closed(wallet, published, hashes, open + {t.hash})
      ensures Prefix(old(hashes), hashes) && Prefix(old(published), published)
      ensures Unconfirmed(wallet, t.inputs[i]) ==> t.inputs[i] in hashes
      ensures Ancestry(published, start) && FromWallet(wallet, published, start)
      decreases |Unlisted(wallet, before)|, if !Unconfirmed(wallet, t.hash) then 1 else 0, 0
    {
      assert hashes == before + hashes[start..];
      assert t.hash in hashes[start..] by { assert hashes[start..][0] == t.hash; }
      UnlistedShrinks(wallet, before, hashes[start..]);
      assert Unconfirmed(wallet, t.hash) ==> t.hash in Unlisted(wallet, before);
      var parent := if t.inputs[i] in wallet then Some(wallet[t.inputs[i]]) else None;
      ghost var was := published;
      Add(wallet, parent, None, open + {t.hash});
      AncestryExtends(was, published, start, t.inputs[i]);
      FromWalletExtends(wallet, was, published, start);
    }

    /** Adding on any list: what was complete before is complete afterwards. */
    method AddAny(wallet: Wallet<H>, tx: Option<Tx<H>>, callback: Option<C>)
      requires Valid() && WalletOk(wallet)
      modifies this`published, this`hashes
      ensures Valid() && Added(wallet, tx, callback, old(published), published)
    {
      hide Ancestry, FromWallet, Unconfirmed, WalletOk;
      ghost var was := published;
      AlignedMeans(published, hashes);
      ghost var open := if Closed(wallet, published, hashes, {}) then {} else Elements(hashes);
      assert Closed(wallet, published, hashes, open);
      Add(wallet, tx, callback, open);
      AlignedMeans(published, hashes);
    }

    method Fire(callback: Option<C>)
      modifies this`fired
      ensures fired == old(fired) + Call(callback)
    {
      if callback.Some? {
        fired := fired + [callback.value];
      }
    }

    /** Takes the callback of the entry with this hash, if there is one. */
    method Take(h: H) returns (callback: Option<C>)
      requires Valid()
      modifies this`published, this`hashes
      ensures Valid() && published == Cleared(old(published), h) && callback == CallbackOf(old(published), h)
    {
      hide Distinct, Aligned, Cleared, Dropping, CallbackOf;
      callback := None;
      var i := |published|;
      ghost var was := published;
      AnsweredNone<H, C>(h, true);
      assert was[i..] == [];
      while i > 0
        invariant 0 <= i <= |was| && Valid()
        invariant published == was[..i] + Answered(was[i..], h, true) && callback == CallbackOf(was[i..], h)
      {
        LengthsMatch(published, hashes);
        HashAt(published, hashes, i - 1);
        AnsweredStep(was, i - 1, h, true);
        assert published[i - 1] == was[i - 1];
        if hashes[i - 1] == h {
          callback := TakeAt(i - 1, true);
        }
        i := i - 1;
      }
      assert was[0..] == was;
    }

    /** A peer announces the transaction: its callback is taken and called. */
    method Seen(h: H)
      requires Valid()
      modifies this
      ensures Valid() && published == Cleared(old(published), h)
      ensures fired == old(fired) + Call(CallbackOf(old(published), h))
    {
      var callback := Take(h);
      Fire(callback);
    }

    method RemoveAt(i: nat)
      requires Valid() && i < |hashes|
      modifies this`published, this`hashes
      ensures Valid() && published == Without(old(published), i) && hashes == Without(old(hashes), i)
    {
      RemoveKeeps(published, hashes, i);
      published, hashes := Without(published, i), Without(hashes, i);
    }

    /** A peer asks for the transaction: its callback is called, and an invalid one leaves the list. */
    method Requested(h: H, valid: bool)
      requires Valid()
      modifies this
      ensures Valid() && fired == old(fired) + Call(CallbackOf(old(published), h))
      ensures published == if valid then Cleared(old(published), h) else Dropping(old(published), {h})
    {
      hide Distinct, Aligned, Cleared, Dropping, CallbackOf;
      var callback := None;
      ghost var was := published;
      AnsweredNone<H, C>(h, valid);
      var i := |published|;
      assert was[i..] == [];
      while i > 0
        invariant 0 <= i <= |was| && Valid() && fired == old(fired) && callback == CallbackOf(was[i..], h)
        invariant published == was[..i] + Answered(was[i..], h, valid)
      {
        LengthsMatch(published, hashes);
        HashAt(published, hashes, i - 1);
        AnsweredStep(was, i - 1, h, valid);
        assert published[i - 1] == was[i - 1];
        if hashes[i - 1] == h {
          callback := TakeAt(i - 1, valid);
        }
        i := i - 1;
      }
      assert was[0..] == was;
      Fire(callback);
    }

    /** Takes the callback at an index, and removes the entry if it is invalid. */
    method TakeAt(i: nat, valid: bool) returns (callback: Option<C>)
      requires Valid() && i < |published|
      modifies this`published, this`hashes
      ensures Valid() && callback == old(published)[i].callback
      ensures published == old(published)[..i] + (if valid then [old(published)[i].(callback := None)] else []) +
                           old(published)[i + 1..]
    {
      callback := published[i].callback;
      published := published[i := published[i].(callback := None)];
      if !valid {
        RemoveAt(i);
      }
    }

    /** Confirmed transactions leave the list; their callbacks are not called. */
    method Confirmed(hs: seq<H>, ghost wallet: Wallet<H>)
      requires Valid()
      modifies this`published, this`hashes
      ensures Valid() && published == Dropping(old(published), Elements(hs))
      ensures old(Closed(wallet, published, hashes, {})) ==> Closed(ConfirmedIn(wallet, hs), published, hashes, {})
    {
      hide Closed, ConfirmedIn, Aligned, Distinct;
      ghost var closed := Closed(wallet, published, hashes, {});
      if closed { ConfirmWeakens(wallet, hs, published, hashes); }
      DroppingNone(published);
      for i := 0 to |hs|
        invariant Valid() && published == Dropping(old(published), Elements(hs[..i]))
        invariant closed ==> Closed(ConfirmedIn(wallet, hs), published, hashes, {})
      {
        RemoveHash(hs, i, wallet, closed);
        DroppingTwice(old(published), Elements(hs[..i]), hs[i]);
        assert Elements(hs[..i + 1]) == Elements(hs[..i]) + {hs[i]};
      }
      assert hs[..|hs|] == hs;
    }

    method RemoveHash(hs: seq<H>, i: nat, ghost wallet: Wallet<H>, ghost closed: bool)
      requires Valid() && i < |hs| && (closed ==> Closed(ConfirmedIn(wallet, hs), published, hashes, {}))
      modifies this`published, this`hashes
      ensures Valid() && published == Dropping(old(published), {hs[i]})
      ensures closed ==> Closed(ConfirmedIn(wallet, hs), published, hashes, {})
    {
      hide Closed, ConfirmedIn, Aligned, Distinct;
      ghost var was := published;
      var j := |published|;
      while j > 0
        invariant 0 <= j <= |was| && Valid()
        invariant published == was[..j] + Dropping(was[j..], {hs[i]})
        invariant closed ==> Closed(ConfirmedIn(wallet, hs), published, hashes, {})
      {
        LengthsMatch(published, hashes);
        HashAt(published, hashes, j - 1);
        assert published[j - 1] == was[j - 1] && was[j - 1..][1..] == was[j..];
        if published[j - 1].tx.hash == hs[i] {
          if closed { ConfirmKeepsClosed(wallet, hs, published, hashes, j - 1); }
          RemoveAt(j - 1);
        }
        j := j - 1;
      }
      assert was[0..] == was;
    }

    /** Connection failure: every entry with a callback leaves the list, and its callback is called. */
    method Disconnected()
      requires Valid()
      modifies this
      ensures Valid() && published == Silent(old(published)) && fired == old(fired) + CallsDown(old(published))
    {
      hide Aligned, Distinct, Silent, CallsDown;
      ghost var was := published;
      var taken: seq<C> := [];
      var i := |published|;
      SilentNone<H, C>();
      assert was[i..] == [];
      while i > 0
        invariant 0 <= i <= |was| && Valid() && fired == old(fired)
        invariant published == was[..i] + Silent(was[i..]) && taken == CallsDown(was[i..])
      {
        LengthsMatch(published, hashes);
        SilentStep(was, i - 1);
        LastBefore(was, i, Silent(was[i..]));
        if published[i - 1].callback.Some? {
          taken := taken + [published[i - 1].callback.value];
          RemoveAt(i - 1);
        }
        i := i - 1;
      }
      assert was[0..] == was;
      FireAll(taken);
    }

    method FireAll(taken: seq<C>)
      modifies this`fired
      ensures fired == old(fired) + taken
    {
      for k := 0 to |taken|
        invariant fired == old(fired) + taken[..k]
      {
        assert taken[..k + 1] == taken[..k] + [taken[k]];
        fired := fired + [taken[k]];
      }
      assert taken[..|taken|] == taken;
    }

    method Step(e: Event<H, C>)
      requires Valid() && EventOk(e)
      modifies this
      ensures Valid() && DistinctList(old(published)) && Effect(e, old(Now()), Now())
    {
      hide Added, Cleared, CallbackOf, Dropping, Silent, CallsDown, Distinct, Aligned, DistinctList, WalletOk;
      DistinctMeans(published, hashes);
      match e
      case Publish(wallet, tx, callback, refused) =>
        if refused {
          Fire(callback);
        } else {
          AddAny(wallet, Some(tx), callback);
        }
      case Relayed(hash, wallet, own) =>
        var callback := Take(hash);
        AddAny(wallet, own, None);
        Fire(callback);
      case HasTx(hash) => Seen(hash);
      case Requested(hash, valid) => Requested(hash, valid);
      case Confirmed(hs) => Confirmed(hs, map[]);
      case Disconnected => Disconnected();
    }

    /**
    Over every run the arrays stay aligned and free of duplicates, every event has exactly
    its effect, and callbacks called, waiting and lost are those handed over.
    */
    method Run(events: seq<Event<H, C>>) returns (ghost trace: seq<State<H, C>>)
      requires Valid() && forall e | e in events :: EventOk(e)
      modifies this
      ensures Valid() && Trace(events, trace) && trace[0] == old(Now()) && trace[|events|] == Now()
      ensures Total(Now()) + Lost(events, trace) == Total(old(Now())) + Handed(events)
    {
      hide Effect, EventOk, Distinct, Aligned, DistinctList, Total, Lost, Handed;
      trace := [Now()];
      for i := 0 to |events|
        invariant Valid() && Trace(events[..i], trace) && trace[0] == old(Now()) && trace[i] == Now()
      {
        assert events[i] in events;
        Step(events[i]);
        TraceSnoc(events[..i], trace, events[i], Now());
        assert events[..i + 1] == events[..i] + [events[i]];
        trace := trace + [Now()];
      }
      assert events[..|events|] == events;
      RunConserves(events, trace);
    }
  }

  lemma HashAt<H, C>(list: seq<Entry<H, C>>, hashes: seq<H>, i: nat)
    requires Aligned(list, hashes) && i < |hashes|
    ensures list[i].tx.hash == hashes[i]
  {
  }

  lemma DistinctMeans<H, C>(list: seq<Entry<H, C>>, hashes: seq<H>)
    requires Aligned(list, hashes) && Distinct(hashes)
    ensures DistinctList(list)
  {
  }

  lemma {:induction false} DroppingNone<H, C>(s: seq<Entry<H, C>>)
    ensures Dropping(s, Elements([])) == s
  {
    if s != [] {
      DroppingNone(s[1..]);
      assert s == [s[0]] + s[1..];
    }
  }

  lemma {:induction false} DroppingTwice<H, C>(s: seq<Entry<H, C>>, hs: set<H>, h: H)
    ensures Dropping(Dropping(s, hs), {h}) == Dropping(s, hs + {h})
  {
    if s != [] {
      DroppingTwice(s[1..], hs, h);
      var d := Dropping(s[1..], hs);
      if s[0].tx.hash in hs {
        assert Dropping(s, hs) == d;
      } else {
        assert ([s[0]] + d)[1..] == d;
      }
    }
  }

  lemma TraceSnoc<H, C>(events: seq<Event<H, C>>, trace: seq<State<H, C>>, e: Event<H, C>, s: State<H, C>)
    requires Trace(events, trace) && DistinctList(trace[|events|].list) && Effect(e, trace[|events|], s)
    ensures Trace(events + [e], trace + [s])
  {
    hide Effect, DistinctList;
  }

  /** Callbacks handed over once each are called at most once each, and called, waiting or lost exactly once. */
  method RunFromEmpty<H(==, !new), C(==, !new)>(events: seq<Event<H, C>>)
    returns (fired: seq<C>, ghost trace: seq<State<H, C>>)
    requires forall e | e in events :: EventOk(e)
    ensures Trace(events, trace) && trace[0] == State([], []) && trace[|events|].fired == fired
    ensures multiset(fired) + Pending(trace[|events|].list) + Lost(events, trace) == Handed(events)
    ensures (forall c :: Handed(events)[c] <= 1) ==> forall i, j | 0 <= i < j < |fired| :: fired[i] != fired[j]
  {
    hide EventOk, Effect, Lost, Handed;
    var m := new Manager<H, C>();
    trace := m.Run(events);
    fired := m.fired;
    if forall c :: Handed(events)[c] <= 1 {
      PartOf(multiset(fired), Pending(m.published), Lost(events, trace), Handed(events));
      OnceEach(fired);
    }
  }

  lemma PartOf<C>(a: multiset<C>, b: multiset<C>, c: multiset<C>, whole: multiset<C>)
    requires a + b + c == whole && forall x :: whole[x] <= 1
    ensures forall x :: a[x] <= 1
  {
    forall x ensures a[x] <= 1 {
      assert whole[x] == a[x] + b[x] + c[x];
    }
  }

  lemma {:induction false} OnceEach<C>(s: seq<C>)
    requires forall c :: multiset(s)[c] <= 1
    ensures forall i, j | 0 <= i < j < |s| :: s[i] != s[j]
  {
    if s != [] {
      var n := |s| - 1;
      assert s == s[..n] + [s[n]];
      assert multiset(s) == multiset(s[..n]) + multiset{s[n]};
      forall c ensures multiset(s[..n])[c] <= 1 {
        assert multiset(s)[c] <= 1;
      }
      OnceEach(s[..n]);
      assert multiset(s)[s[n]] <= 1;
      assert forall i | 0 <= i < n :: s[..n][i] in multiset(s[..n]);
    }
  }

  // -------------------------------------------------------------- callbacks lost

  lemma {:induction false} LostAt<H, C>(events: seq<Event<H, C>>, trace: seq<State<H, C>>, i: nat)
    requires |trace| == |events| + 1 && i < |events|
    ensures LostBy(events[i], trace[i].list) <= Lost(events, trace)
  {
    hide LostBy;
    var n := |events| - 1;
    if i < n { LostAt(events[..n], trace[..n + 1], i); }
  }

  lemma {:induction false} HandedConcat<H, C>(a: seq<Event<H, C>>, b: seq<Event<H, C>>)
    ensures Handed(a + b) == Handed(a) + Handed(b)
    decreases |b|
  {
    hide HandedBy;
    if b == [] {
      assert a + b == a;
    } else {
      var n := |b| - 1;
      assert (a + b)[..|a| + n] == a + b[..n];
      HandedConcat(a, b[..n]);
    }
  }

  lemma HandedTwo<H, C>(d: Event<H, C>, e: Event<H, C>)
    ensures Handed([d, e]) == HandedBy(d) + HandedBy(e)
  {
    hide HandedBy;
    assert [d][..0] == [];
    assert Handed([d]) == HandedBy(d);
    assert [d, e][..1] == [d];
  }

  /** A callback handed over once, by the first two events, and lost by the second is never called. */
  lemma NeverCalled<H, C>(events: seq<Event<H, C>>, more: seq<Event<H, C>>, trace: seq<State<H, C>>, c: C)
    requires |events| == |more| + 2 && events[2..] == more
    requires Trace(events, trace) && trace[0] == State([], []) && c in LostBy(events[1], trace[1].list)
    requires (HandedBy(events[0]) + HandedBy(events[1]))[c] == 1 && Handed(more)[c] == 0
    ensures c !in trace[|events|].fired
  {
    hide LostBy, HandedBy, Lost, Handed, Effect, DistinctList;
    RunConserves(events, trace);
    LostAt(events, trace, 1);
    assert events == [events[0], events[1]] + more;
    HandedConcat([events[0], events[1]], more);
    HandedTwo(events[0], events[1]);
    NotFired(trace[|events|], Lost(events, trace), Handed(events), c);
  }

  lemma NotFired<H, C>(s: State<H, C>, lost: multiset<C>, handed: multiset<C>, c: C)
    requires Total(s) + lost == Total<H, C>(State([], [])) + handed && handed[c] == 1 && lost[c] >= 1
    ensures c !in s.fired
  {
    assert (Total(s) + lost)[c] == multiset(s.fired)[c] + Pending(s.list)[c] + lost[c];
    assert Total<H, C>(State([], [])) == multiset{};
  }

  /** A transaction that confirms before any peer relays it: its callback is never called, whatever follows. */
  lemma LostOnConfirmation<H, C>(h: H, c: C, more: seq<Event<H, C>>, trace: seq<State<H, C>>)
    requires Trace([Publish(map[], Tx(h, true, []), Some(c), false), Event.Confirmed([h])] + more, trace)
    requires trace[0] == State([], []) && Handed(more)[c] == 0
    ensures c !in trace[|more| + 2].fired
  {
    hide Handed, LostBy, HandedBy, Effect;
    var events := [Publish(map[], Tx(h, true, []), Some(c), false), Event.Confirmed([h])] + more;
    FirstPublished(events, trace, h, c);
    LosesWaiting(h, c);
    NeverCalled(events, more, trace, c);
  }

  /** A transaction published a second time: the second callback is never called, whatever follows. */
  lemma LostOnSecondPublish<H, C>(h: H, c: C, d: C, more: seq<Event<H, C>>, trace: seq<State<H, C>>)
    requires Trace([Publish(map[], Tx(h, true, []), Some(c), false),
                    Publish(map[], Tx(h, true, []), Some(d), false)] + more, trace)
    requires trace[0] == State([], []) && c != d && Handed(more)[d] == 0
    ensures d !in trace[|more| + 2].fired
  {
    hide Handed, LostBy, HandedBy, Effect;
    var events := [Publish(map[], Tx(h, true, []), Some(c), false),
                   Publish(map[], Tx(h, true, []), Some(d), false)] + more;
    FirstPublished(events, trace, h, c);
    LosesSecond(h, c, d);
    NeverCalled(events, more, trace, d);
  }

  lemma LosesWaiting<H, C>(h: H, c: C)
    ensures var publish: Event<H, C> := Publish(map[], Tx(h, true, []), Some(c), false);
            var confirm: Event<H, C> := Event.Confirmed([h]);
            && c in LostBy(confirm, [Entry(Tx(h, true, []), Some(c))])
            && (HandedBy(publish) + HandedBy(confirm))[c] == 1
  {
    var list := [Entry(Tx(h, true, []), Some(c))];
    assert h in Elements([h]);
    assert DroppedWith(list, Elements([h])) == multiset{c} + DroppedWith(list[1..], Elements([h]));
  }

  lemma LosesSecond<H, C>(h: H, c: C, d: C)
    requires c != d
    ensures var publish: Event<H, C> := Publish(map[], Tx(h, true, []), Some(c), false);
            var again: Event<H, C> := Publish(map[], Tx(h, true, []), Some(d), false);
            && d in LostBy(again, [Entry(Tx(h, true, []), Some(c))])
            && (HandedBy(publish) + HandedBy(again))[d] == 1
  {
    var list := [Entry(Tx(h, true, []), Some(c))];
    assert list[0].tx.hash == h;
  }

  lemma FirstPublished<H, C>(events: seq<Event<H, C>>, trace: seq<State<H, C>>, h: H, c: C)
    requires Trace(events, trace) && events != [] && trace[0] == State([], [])
    requires events[0] == Publish(map[], Tx(h, true, []), Some(c), false)
    ensures trace[1].list == [Entry(Tx(h, true, []), Some(c))]
  {
    assert Effect(events[0], trace[0], trace[1]);
    OneAdded(trace[1].list, 0);
  }

  // -------------------------------------------------------------- a list with a gap

  /** A wallet that holds an unconfirmed transaction and one that spends it. */
  ghost function Family<H>(a: H, b: H): Wallet<H> {
    map[a := Tx(a, true, []), b := Tx(b, true, [a])]
  }

  /** Publishing both, the spent one first. */
  ghost function PublishFamily<H, C>(a: H, b: H, c: C, d: C): seq<Event<H, C>> {
    [Publish(Family(a, b), Tx(a, true, []), Some(c), false), Publish(Family(a, b), Tx(b, true, [a]), Some(d), false)]
  }

  /** A parent and its child wait for their callbacks, the child's is called, and the connection is lost:
      the parent leaves and the child stays, spending what is no longer listed. */
  lemma GapOnDisconnection<H, C>(a: H, b: H, c: C, d: C, trace: seq<State<H, C>>)
    requires a != b && trace != [] && trace[0] == State([], [])
    requires Trace(PublishFamily(a, b, c, d) + [HasTx(b), Event.Disconnected], trace)
    ensures forall e | e in PublishFamily(a, b, c, d) :: EventOk(e)
    ensures trace[4].list == [Entry(Tx(b, true, [a]), None)] && !Complete(Family(a, b), trace[4].list)
  {
    var events := PublishFamily(a, b, c, d) + [HasTx(b), Event.Disconnected];
    PublishBoth(a, b, c, d, events, trace);
    assert Effect(events[2], trace[2], trace[3]) && Effect(events[3], trace[3], trace[4]);
    hide Complete, Trace, DistinctList, Cleared, Silent, CallbackOf, CallsDown;
    ClearSecond(Entry(Tx(a, true, []), Some(c)), Entry(Tx(b, true, [a]), Some(d)));
    SilentSecond(Entry(Tx(a, true, []), Some(c)), Entry(Tx(b, true, [a]), None));
    ChildAlone<H, C>(Family(a, b), Tx(b, true, [a]), a);
  }

  /** The same when a peer asks for the parent and it is invalid. */
  lemma GapOnInvalid<H, C>(a: H, b: H, c: C, d: C, trace: seq<State<H, C>>)
    requires a != b && trace != [] && trace[0] == State([], [])
    requires Trace(PublishFamily(a, b, c, d) + [Event.Requested(a, false)], trace)
    ensures forall e | e in PublishFamily(a, b, c, d) :: EventOk(e)
    ensures trace[3].list == [Entry(Tx(b, true, [a]), Some(d))] && !Complete(Family(a, b), trace[3].list)
  {
    var events := PublishFamily(a, b, c, d) + [Event.Requested(a, false)];
    PublishBoth(a, b, c, d, events, trace);
    assert Effect(events[2], trace[2], trace[3]);
    hide Complete, Trace, DistinctList, Dropping, CallbackOf;
    DropFirst(Entry(Tx(a, true, []), Some(c)), Entry(Tx(b, true, [a]), Some(d)));
    ChildAlone<H, C>(Family(a, b), Tx(b, true, [a]), a);
  }

  lemma ChildAlone<H, C>(wallet: Wallet<H>, child: Tx<H>, a: H)
    requires child.inputs == [a] && child.hash != a && Unconfirmed(wallet, a)
    ensures forall callback: Option<C> :: !Complete(wallet, [Entry(child, callback)])
  {
    forall callback: Option<C> ensures !Complete(wallet, [Entry(child, callback)]) {
      var list := [Entry(child, callback)];
      CompleteMeans(wallet, list);
      assert list[0] in list && a in list[0].tx.inputs && !Lists(list, a);
    }
  }

  lemma PublishBoth<H, C>(a: H, b: H, c: C, d: C, events: seq<Event<H, C>>, trace: seq<State<H, C>>)
    requires a != b && |events| > 2 && events[..2] == PublishFamily(a, b, c, d)
    requires Trace(events, trace) && trace[0] == State([], [])
    ensures forall e | e in PublishFamily(a, b, c, d) :: EventOk(e)
    ensures trace[2].list == [Entry(Tx(a, true, []), Some(c)), Entry(Tx(b, true, [a]), Some(d))]
  {
    assert events[0] == events[..2][0] && events[1] == events[..2][1];
    assert Effect(events[0], trace[0], trace[1]) && Effect(events[1], trace[1], trace[2]);
    assert DistinctList(trace[2].list);
    hide Complete, Closed, Trace, DistinctList, Ancestry;
    OneAdded(trace[1].list, 0);
    assert trace[1].list == [Entry(Tx(a, true, []), Some(c))];
    ParentListed(trace[2].list, a);
  }

  lemma SecondAdded<H, C>(list: seq<Entry<H, C>>, start: nat)
    requires start < |list| && Ancestry(list, start)
    ensures |list| > start + 1 ==> list[start + 1].tx.hash in list[start].tx.inputs
  {
    assert |list| > start + 1 ==> IsAncestor(list, start, start + 1);
  }

  lemma OneAdded<H, C>(list: seq<Entry<H, C>>, start: nat)
    requires start < |list| && Ancestry(list, start) && list[start].tx.inputs == []
    ensures |list| == start + 1
  {
    hide Ancestry;
    SecondAdded(list, start);
  }

  lemma ParentListed<H, C>(list: seq<Entry<H, C>>, a: H)
    requires |list| >= 2 && DistinctList(list) && Ancestry(list, 1) && list[0].tx.hash == a && list[1].tx.inputs == [a]
    ensures |list| == 2
  {
    hide Ancestry;
    SecondAdded(list, 1);
  }

  lemma ClearSecond<H, C>(x: Entry<H, C>, y: Entry<H, C>)
    requires x.tx.hash != y.tx.hash
    ensures Cleared([x, y], y.tx.hash) == [x, y.(callback := None)]
  {
    assert [x, y][1..] == [y] && [y][1..] == [];
    assert Cleared([y], y.tx.hash) == [y.(callback := None)];
  }

  lemma SilentSecond<H, C>(x: Entry<H, C>, y: Entry<H, C>)
    requires x.callback.Some? && y.callback.None?
    ensures Silent([x, y]) == [y]
  {
    assert [x, y][1..] == [y] && [y][1..] == [];
    assert Silent([y]) == [y];
  }

  lemma DropFirst<H, C>(x: Entry<H, C>, y: Entry<H, C>)
    requires x.tx.hash != y.tx.hash
    ensures Dropping([x, y], {x.tx.hash}) == [y]
  {
    assert [x, y][1..] == [y] && [y][1..] == [];
    assert Dropping([y], {x.tx.hash}) == [y];
  }
}
