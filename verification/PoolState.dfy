/**
 What the transaction pool keeps true between operations (core/tx_pool.go), stated over plain values:
 the lists per account, the set of all transactions, the account nonces of the chain state and the
 nonces the pool has moved ahead.
 */
module PoolState {
  import opened Shared
  import opened TxList
  import Sums

  type Addr = nat

  datatype Config = Config(priceBump: nat, accountSlots: nat, globalSlots: nat, accountQueue: nat, globalQueue: nat)

  type AccountLists = map<Addr, Txs>

  /** The list of an account; an account without one has nothing listed. */
  function ListOf(lists: AccountLists, a: Addr): Txs {
    if a in lists then lists[a] else map[]
  }

  /** The pending nonce: the one the pool has set, or else that of the chain state. */
  function Next(nonceAt: Addr -> nat, managed: map<Addr, nat>, a: Addr): nat {
    if a in managed then managed[a] else nonceAt(a)
  }

  /** The account's own transactions, all of them known to the pool. */
  ghost predicate Owned(m: Txs, a: Addr, all: set<Tx>) {
    Keyed(m) && forall n :: n in m ==> m[n].sender == a && m[n] in all
  }

  /** No nonce of the list lies in the range. */
  ghost predicate Clear(m: Txs, lo: nat, hi: nat) {
    forall n :: n in m ==> n < lo || hi <= n
  }

  /** Pending nonces are exactly those from the state nonce to the pending nonce; queued ones are not among them. */
  ghost predicate Fine(a: Addr, pend: Txs, que: Txs, lo: nat, hi: nat, all: set<Tx>) {
    Owned(pend, a, all) && Owned(que, a, all) && Contiguous(pend, lo, hi) && Clear(que, lo, hi)
  }

  ghost predicate FineAt(pending: AccountLists, queue: AccountLists, nonceAt: Addr -> nat, managed: map<Addr, nat>,
                         all: set<Tx>, a: Addr) {
    Fine(a, ListOf(pending, a), ListOf(queue, a), nonceAt(a), Next(nonceAt, managed, a), all)
  }

  ghost predicate Sound(pending: AccountLists, queue: AccountLists, nonceAt: Addr -> nat, managed: map<Addr, nat>,
                        all: set<Tx>) {
    forall a {:trigger FineAt(pending, queue, nonceAt, managed, all, a)} ::
      FineAt(pending, queue, nonceAt, managed, all, a)
  }

  lemma PendingKeyed(pending: AccountLists, queue: AccountLists, nonceAt: Addr -> nat, managed: map<Addr, nat>,
                     all: set<Tx>, a: Addr)
    requires Sound(pending, queue, nonceAt, managed, all) && a in pending
    ensures Keyed(pending[a])
  {
    assert FineAt(pending, queue, nonceAt, managed, all, a);
  }

  /** Every transaction pays the floor or comes from a local account. */
  ghost predicate Floored(all: set<Tx>, gasPrice: nat, locals: set<Addr>) {
    forall tx :: tx in all ==> tx.price >= gasPrice || tx.sender in locals
  }

  ghost predicate Elsewhere(lists: AccountLists, lists': AccountLists, a: Addr) {
    forall b {:trigger ListOf(lists', b)} {:trigger b in lists'} ::
      b != a ==> (b in lists' <==> b in lists) && ListOf(lists', b) == ListOf(lists, b)
  }

  lemma ElsewhereAgain(x: AccountLists, y: AccountLists, z: AccountLists, a: Addr)
    requires Elsewhere(x, y, a) && Elsewhere(y, z, a)
    ensures Elsewhere(x, z, a)
  {
    forall b | b != a
      ensures (b in z <==> b in x) && ListOf(z, b) == ListOf(x, b)
    {
      assert ListOf(z, b) == ListOf(y, b);
    }
  }

  ghost predicate SameNext(managed: map<Addr, nat>, managed': map<Addr, nat>, a: Addr) {
    forall b :: b != a ==> (b in managed <==> b in managed') && (b in managed ==> managed'[b] == managed[b])
  }

  /** The transaction with the pending nonce, which could be executed next, is not waiting in the queue. */
  ghost predicate IdleAt(queue: AccountLists, nonceAt: Addr -> nat, managed: map<Addr, nat>, a: Addr) {
    Next(nonceAt, managed, a) !in ListOf(queue, a)
  }

  /** Nothing executable waits in the queue, except for accounts that are about to be looked at. */
  ghost predicate Exhausted(queue: AccountLists, nonceAt: Addr -> nat, managed: map<Addr, nat>, dirty: set<Addr>) {
    forall a {:trigger IdleAt(queue, nonceAt, managed, a)} :: a !in dirty ==> IdleAt(queue, nonceAt, managed, a)
  }

  lemma ExhaustedStep(queue: AccountLists, nonceAt: Addr -> nat, managed: map<Addr, nat>, dirty: set<Addr>,
                      queue': AccountLists, managed': map<Addr, nat>, dirty': set<Addr>, a: Addr)
    requires Exhausted(queue, nonceAt, managed, dirty) == true && dirty <= dirty' + {a}
    requires Elsewhere(queue, queue', a) == true && SameNext(managed, managed', a) == true
    requires a !in dirty' ==> IdleAt(queue', nonceAt, managed', a)
    ensures Exhausted(queue', nonceAt, managed', dirty') == true
  {
    forall b | b !in dirty'
      ensures IdleAt(queue', nonceAt, managed', b)
    {
      if b != a {
        assert IdleAt(queue, nonceAt, managed, b);
        assert ListOf(queue', b) == ListOf(queue, b);
      }
    }
  }

  /** A queue list that only loses transactions. */
  lemma ExhaustedShrinks(queue: AccountLists, nonceAt: Addr -> nat, managed: map<Addr, nat>, dirty: set<Addr>,
                         queue': AccountLists, a: Addr)
    requires Exhausted(queue, nonceAt, managed, dirty) == true && Elsewhere(queue, queue', a) == true
    requires ListOf(queue', a).Keys <= ListOf(queue, a).Keys
    ensures Exhausted(queue', nonceAt, managed, dirty) == true
  {
    assert a !in dirty ==> IdleAt(queue, nonceAt, managed, a);
    ExhaustedStep(queue, nonceAt, managed, dirty, queue', managed, dirty, a);
  }

  /** The pending nonce goes back to that of a pending transaction, which is not queued. */
  lemma ExhaustedCut(pending: AccountLists, queue: AccountLists, nonceAt: Addr -> nat, managed: map<Addr, nat>,
                     all: set<Tx>, dirty: set<Addr>, queue': AccountLists, a: Addr, nonce: nat)
    requires Sound(pending, queue, nonceAt, managed, all) && Exhausted(queue, nonceAt, managed, dirty) == true
    requires nonce in ListOf(pending, a)
    requires queue' == queue || queue' == TakenIn(queue, a, From(ListOf(pending, a), nonce + 1))
    ensures Exhausted(queue', nonceAt, managed[a := nonce], dirty) == true
  {
    assert FineAt(pending, queue, nonceAt, managed, all, a);
    var later := From(ListOf(pending, a), nonce + 1);
    TakenInElsewhere(queue, a, later);
    StoredElsewhere(queue, a, later);
    ExhaustedStep(queue, nonceAt, managed, dirty, queue', managed[a := nonce], dirty, a);
  }

  /** A step that touches one account only needs to be looked at there. */
  lemma OneAccount(pending: AccountLists, queue: AccountLists, nonceAt: Addr -> nat, managed: map<Addr, nat>,
                   all: set<Tx>, pending': AccountLists, queue': AccountLists, managed': map<Addr, nat>, all': set<Tx>,
                   a: Addr)
    requires Sound(pending, queue, nonceAt, managed, all)
    requires Elsewhere(pending, pending', a) && Elsewhere(queue, queue', a) && SameNext(managed, managed', a)
    requires forall tx :: tx in all && tx !in all' ==> tx.sender == a
    requires FineAt(pending', queue', nonceAt, managed', all', a)
    ensures Sound(pending', queue', nonceAt, managed', all')
  {
    forall b
      ensures FineAt(pending', queue', nonceAt, managed', all', b)
    {
      if b != a {
        assert FineAt(pending, queue, nonceAt, managed, all, b);
      }
    }
  }

  /** The list after an operation; an empty one is deleted. */
  function Stored(lists: AccountLists, a: Addr, m: Txs): AccountLists {
    if m == map[] then lists - {a} else lists[a := m]
  }

  lemma StoredTwice(lists: AccountLists, a: Addr, m: Txs, m': Txs)
    ensures Stored(lists[a := m], a, m') == Stored(lists, a, m')
  {
  }

  lemma StoredElsewhere(lists: AccountLists, a: Addr, m: Txs)
    ensures ListOf(Stored(lists, a, m), a) == m && Elsewhere(lists, Stored(lists, a, m), a)
    ensures ListOf(lists[a := m], a) == m && Elsewhere(lists, lists[a := m], a)
    ensures Elsewhere(lists, lists, a)
  {
  }

  // ---------------------------------------------------------------- removal

  /** The queue after taking in what a strict list gave up; without anything to take in it stays as it is. */
  function TakenIn(queue: AccountLists, a: Addr, m: Txs): AccountLists {
    if m == map[] then queue else queue[a := ListOf(queue, a) + m]
  }

  lemma TakenInOne(queue: AccountLists, a: Addr, m: Txs, tx: Tx)
    ensures var q := TakenIn(queue, a, m);
            q[a := ListOf(q, a)[tx.nonce := tx]] == TakenIn(queue, a, m[tx.nonce := tx])
    ensures ListOf(TakenIn(queue, a, m), a) == ListOf(queue, a) + m
  {
    var q := TakenIn(queue, a, m);
    assert ListOf(queue, a) + map[] == ListOf(queue, a);
    assert ListOf(q, a)[tx.nonce := tx] == ListOf(queue, a) + m[tx.nonce := tx];
    assert tx.nonce in m[tx.nonce := tx];
    assert q[a := ListOf(q, a)[tx.nonce := tx]] == queue[a := ListOf(queue, a) + m[tx.nonce := tx]];
  }

  /** Removing a pending transaction cuts the account's pending list there. */
  lemma RemovesPending(pending: AccountLists, queue: AccountLists, nonceAt: Addr -> nat, managed: map<Addr, nat>,
                       all: set<Tx>, pending': AccountLists, queue': AccountLists, tx: Tx)
    requires Sound(pending, queue, nonceAt, managed, all) && tx.nonce in ListOf(pending, tx.sender)
    requires var kept := Before(ListOf(pending, tx.sender), tx.nonce);
             pending' == Stored(pending, tx.sender, kept) || pending' == pending[tx.sender := kept]
    requires var later := From(ListOf(pending, tx.sender), tx.nonce + 1);
             queue' == queue || queue' == TakenIn(queue, tx.sender, later)
    ensures Sound(pending', queue', nonceAt, managed[tx.sender := tx.nonce], all - {tx})
  {
    var a, n := tx.sender, tx.nonce;
    assert FineAt(pending, queue, nonceAt, managed, all, a);
    var pend, que := ListOf(pending, a), ListOf(queue, a);
    StoredElsewhere(pending, a, Before(pend, n));
    StoredElsewhere(queue, a, que + From(pend, n + 1));
    CutFine(a, pend, que, nonceAt(a), Next(nonceAt, managed, a), all, tx, ListOf(queue', a));
    OneAccount(pending, queue, nonceAt, managed, all, pending', queue', managed[a := n], all - {tx}, a);
  }

  lemma CutFine(a: Addr, pend: Txs, que: Txs, lo: nat, hi: nat, all: set<Tx>, tx: Tx, que': Txs)
    requires Fine(a, pend, que, lo, hi, all) && tx.nonce in pend
    requires que' == que || que' == que + From(pend, tx.nonce + 1)
    ensures Fine(a, Before(pend, tx.nonce), que', lo, tx.nonce, all - {tx})
  {
  }

  /** Removing any other transaction leaves the pending lists alone. */
  lemma RemovesQueued(pending: AccountLists, queue: AccountLists, nonceAt: Addr -> nat, managed: map<Addr, nat>,
                      all: set<Tx>, queue': AccountLists, tx: Tx)
    requires Sound(pending, queue, nonceAt, managed, all) && tx.nonce !in ListOf(pending, tx.sender)
    requires queue' == Stored(queue, tx.sender, ListOf(queue, tx.sender) - {tx.nonce})
    ensures Sound(pending, queue', nonceAt, managed, all - {tx})
  {
    var a := tx.sender;
    assert FineAt(pending, queue, nonceAt, managed, all, a);
    StoredElsewhere(queue, a, ListOf(queue, a) - {tx.nonce});
    StoredElsewhere(pending, a, map[]);
    OneAccount(pending, queue, nonceAt, managed, all, pending, queue', managed, all - {tx}, a);
  }

  lemma PendingRemoved(pending: AccountLists, queue: AccountLists, nonceAt: Addr -> nat, managed: map<Addr, nat>,
                       all: set<Tx>, dirty: set<Addr>, pending': AccountLists, queue': AccountLists, tx: Tx)
    requires Sound(pending, queue, nonceAt, managed, all) == true && Exhausted(queue, nonceAt, managed, dirty) == true
    requires tx.nonce in ListOf(pending, tx.sender)
    requires pending' == Stored(pending, tx.sender, Before(ListOf(pending, tx.sender), tx.nonce))
    requires var later := From(ListOf(pending, tx.sender), tx.nonce + 1);
             queue' == queue || queue' == TakenIn(queue, tx.sender, later)
    ensures Sound(pending', queue', nonceAt, managed[tx.sender := tx.nonce], all - {tx}) == true
    ensures Exhausted(queue', nonceAt, managed[tx.sender := tx.nonce], dirty) == true
  {
    RemovesPending(pending, queue, nonceAt, managed, all, pending', queue', tx);
    ExhaustedCut(pending, queue, nonceAt, managed, all, dirty, queue', tx.sender, tx.nonce);
  }

  lemma QueuedRemoved(pending: AccountLists, queue: AccountLists, nonceAt: Addr -> nat, managed: map<Addr, nat>,
                      all: set<Tx>, dirty: set<Addr>, queue': AccountLists, tx: Tx)
    requires Sound(pending, queue, nonceAt, managed, all) == true && Exhausted(queue, nonceAt, managed, dirty) == true
    requires tx.nonce !in ListOf(pending, tx.sender)
    requires queue' == Stored(queue, tx.sender, ListOf(queue, tx.sender) - {tx.nonce})
    ensures Sound(pending, queue', nonceAt, managed, all - {tx}) == true
    ensures Exhausted(queue', nonceAt, managed, dirty) == true
  {
    RemovesQueued(pending, queue, nonceAt, managed, all, queue', tx);
    StoredElsewhere(queue, tx.sender, ListOf(queue, tx.sender) - {tx.nonce});
    ExhaustedShrinks(queue, nonceAt, managed, dirty, queue', tx.sender);
  }

  /**
   Lists are cut by nonce.  A removal takes only the transaction itself off the queue if and only if its nonce is not
   queued, or is queued for this very transaction.
   */
  lemma UnhooksQueued(que: Txs, tx: Tx)
    requires Keyed(que)
    ensures (forall t :: Holds(que, t) && !Holds(que - {tx.nonce}, t) ==> t == tx) <==>
              (tx.nonce in que ==> Holds(que, tx))
  {
    if tx.nonce in que {
      assert Holds(que, que[tx.nonce]) && !Holds(que - {tx.nonce}, que[tx.nonce]);
    }
  }

  /**
   A removal takes only the transaction itself off the two lists if and only if it is the one that is pending with its
   nonce, and what follows goes to the queue because something is left before it, or nothing follows.
   */
  lemma UnhooksPending(pend: Txs, que: Txs, que': Txs, tx: Tx)
    requires Keyed(pend) && tx.nonce in pend && pend.Keys !! que.Keys
    requires que' == if Before(pend, tx.nonce) == map[] then que else que + From(pend, tx.nonce + 1)
    ensures (forall t :: Holds(pend, t) && !Holds(Before(pend, tx.nonce), t) && !Holds(que', t) ==> t == tx)
            <==> Holds(pend, tx) && (Before(pend, tx.nonce) != map[] || From(pend, tx.nonce + 1) == map[])
  {
    var t := pend[tx.nonce];
    assert Holds(pend, t) && !Holds(Before(pend, tx.nonce), t) && !Holds(que', t);
    if Before(pend, tx.nonce) == map[] && From(pend, tx.nonce + 1) != map[] {
      var n :| n in From(pend, tx.nonce + 1);
      assert Holds(pend, pend[n]) && !Holds(Before(pend, tx.nonce), pend[n]) && !Holds(que', pend[n]) && pend[n] != tx;
    }
  }

  // ---------------------------------------------------------------- insertion

  /** What insertion at a nonce makes of the known transactions. */
  function Exchanged(all: set<Tx>, m: Txs, tx: Tx): set<Tx> {
    all - (if tx.nonce in m then {m[tx.nonce]} else {}) + {tx}
  }

  /** The transaction takes a free nonce, or pays enough more than the one that has it. */
  predicate Beats(pending: AccountLists, queue: AccountLists, tx: Tx, priceBump: nat) {
    var pend, que := ListOf(pending, tx.sender), ListOf(queue, tx.sender);
    if tx.nonce in pend then Outbids(pend[tx.nonce], tx, priceBump)
    else tx.nonce in que ==> Outbids(que[tx.nonce], tx, priceBump)
  }

  /** A transaction takes the place of a pending one, or goes to the queue, where a local sender is marked as such. */
  ghost predicate Placed(pending: AccountLists, queue: AccountLists, all: set<Tx>, locals: set<Addr>,
                         pending': AccountLists, queue': AccountLists, all': set<Tx>, locals': set<Addr>, tx: Tx,
                         local: bool) {
    Holdings(pending', queue', all', locals') == Put(Holdings(pending, queue, all, locals), tx, local)
  }

  /** The lists, the known transactions and the local accounts of a pool. */
  datatype Holdings = Holdings(pending: AccountLists, queue: AccountLists, all: set<Tx>, locals: set<Addr>)

  /** What a transaction is checked against. */
  datatype Terms = Terms(gasPrice: nat, nonceAt: Addr -> nat, balanceAt: Addr -> nat, maxGas: nat, priceBump: nat)

  /** The transaction is new and valid. */
  predicate Checked(x: Holdings, t: Terms, tx: Tx, local: bool, wellFormed: bool) {
    && tx !in x.all && wellFormed && tx.gas <= t.maxGas && (local || tx.sender in x.locals || tx.price >= t.gasPrice)
    && tx.nonce >= t.nonceAt(tx.sender) && tx.cost <= t.balanceAt(tx.sender)
  }

  /** What a pool with room takes in: what is new, valid, and not outbid by what has its nonce. */
  ghost predicate Welcome(x: Holdings, t: Terms, tx: Tx, local: bool, wellFormed: bool) {
    Checked(x, t, tx, local, wellFormed) && Beats(x.pending, x.queue, tx, t.priceBump)
  }

  /** There is room, or it can be made: the sender is local, or something pays less. */
  ghost predicate Admits(x: Holdings, tx: Tx, cap: nat) {
    |x.all| < cap || tx.sender in x.locals || x.all == {} || exists t :: t in x.all && t.price < tx.price
  }

  /** And what becomes of it then. */
  ghost function Put(x: Holdings, tx: Tx, local: bool): Holdings {
    var a, pend, que := tx.sender, ListOf(x.pending, tx.sender), ListOf(x.queue, tx.sender);
    if tx.nonce in pend then x.(pending := x.pending[a := pend[tx.nonce := tx]], all := Exchanged(x.all, pend, tx))
    else x.(queue := x.queue[a := que[tx.nonce := tx]], all := Exchanged(x.all, que, tx),
            locals := if local then x.locals + {a} else x.locals)
  }

  /** What a removal makes of the lists: what was pending behind it is queued, unless nothing is left before it. */
  ghost function Without(x: Holdings, tx: Tx): Holdings {
    var a, pend, que := tx.sender, ListOf(x.pending, tx.sender), ListOf(x.queue, tx.sender);
    var kept := Before(pend, tx.nonce);
    if tx !in x.all then x
    else if tx.nonce !in pend then x.(queue := Stored(x.queue, a, que - {tx.nonce}), all := x.all - {tx})
    else x.(pending := Stored(x.pending, a, kept), all := x.all - {tx},
            queue := if kept == map[] then x.queue else TakenIn(x.queue, a, From(pend, tx.nonce + 1)))
  }

  /** What happens to the lists when transactions are added: one is taken in, or one leaves to make room. */
  datatype Change = Given(tx: Tx, local: bool) | Dropped(tx: Tx)

  ghost function Changed(x: Holdings, changes: seq<Change>): Holdings {
    if changes == [] then x
    else
      var y := Changed(x, changes[..|changes| - 1]);
      match changes[|changes| - 1]
      case Given(tx, local) => Put(y, tx, local)
      case Dropped(tx) => Without(y, tx)
  }

  lemma {:induction false} ChangedBoth(x: Holdings, a: seq<Change>, b: seq<Change>)
    ensures Changed(x, a + b) == Changed(Changed(x, a), b)
    decreases |b|
  {
    if b == [] {
      assert a + b == a;
    } else {
      var front := b[..|b| - 1];
      ChangedBoth(x, a, front);
      assert (a + b)[..|a + b| - 1] == a + front;
    }
  }

  /** Transactions that leave, in order. */
  ghost function Drops(txs: seq<Tx>): (r: seq<Change>)
    ensures |r| == |txs| && forall i :: 0 <= i < |txs| ==> r[i] == Dropped(txs[i])
  {
    if txs == [] then [] else Drops(txs[..|txs| - 1]) + [Dropped(txs[|txs| - 1])]
  }

  lemma DropsMore(x: Holdings, txs: seq<Tx>, i: nat)
    requires i < |txs|
    ensures Changed(x, Drops(txs[..i + 1])) == Without(Changed(x, Drops(txs[..i])), txs[i])
  {
    assert txs[..i + 1][..i] == txs[..i];
    assert Drops(txs[..i + 1])[..i] == Drops(txs[..i]);
  }

  /** The nonce is taken, by a pending or a queued transaction of the sender. */
  predicate Occupied(x: Holdings, tx: Tx) {
    tx.nonce in ListOf(x.pending, tx.sender) || tx.nonce in ListOf(x.queue, tx.sender)
  }

  /** What the pool holds at most. */
  function Capacity(config: Config): nat {
    config.globalSlots + config.globalQueue
  }

  /**
   What an insertion does.  A full pool first gives up its cheapest, if the transaction is admitted; then that is taken
   in if and only if its nonce is free or it outbids what has the nonce.  Closed.
   */
  ghost predicate Inserted(x: Holdings, z: Holdings, config: Config, tx: Tx, local: bool, checked: bool, gone: seq<Tx>,
                           ok: bool, replace: bool) {
    forall k: int {:trigger Opened(k)} :: Sealed(k) ==>
      InsertedBy(x, Changed(x, Drops(gone)), z, config, tx, local, checked, gone, ok, replace)
  }

  ghost predicate InsertedBy(x: Holdings, y: Holdings, z: Holdings, config: Config, tx: Tx, local: bool, checked: bool,
                             gone: seq<Tx>, ok: bool, replace: bool) {
    var admitted := checked && Admits(x, tx, Capacity(config));
    && ok == (admitted && Beats(y.pending, y.queue, tx, config.priceBump))
    && z == (if ok then Put(y, tx, local) else y) && (ok ==> (replace <==> Occupied(y, tx)))
    && if admitted && |x.all| >= Capacity(config)
       then CheapestGone(x.all, y.all, x.locals, |x.all| + 1 - Capacity(config)) else gone == []
  }

  lemma Refused(x: Holdings, config: Config, tx: Tx, local: bool, checked: bool)
    requires !checked || !Admits(x, tx, Capacity(config))
    ensures Inserted(x, x, config, tx, local, checked, [], false, false) == true
  {
    assert Opened(0);
  }

  lemma Admitted(x: Holdings, y: Holdings, z: Holdings, config: Config, tx: Tx, local: bool, gone: seq<Tx>, ok: bool,
                 replace: bool)
    requires y == Changed(x, Drops(gone)) && Admits(x, tx, Capacity(config))
    requires ok == Beats(y.pending, y.queue, tx, config.priceBump)
    requires if |x.all| >= Capacity(config) then CheapestGone(x.all, y.all, x.locals, |x.all| + 1 - Capacity(config))
             else gone == []
    requires if ok then Placed(y.pending, y.queue, y.all, y.locals, z.pending, z.queue, z.all, z.locals, tx, local)
             else z == y
    requires ok ==> (replace <==> Occupied(y, tx))
    ensures Inserted(x, z, config, tx, local, true, gone, ok, replace) == true
  {
    assert Opened(0);
  }

  /** With room nothing leaves. */
  lemma InsertedRoom(x: Holdings, z: Holdings, config: Config, tx: Tx, local: bool, checked: bool, gone: seq<Tx>,
                     ok: bool, replace: bool)
    requires Inserted(x, z, config, tx, local, checked, gone, ok, replace) && |x.all| < Capacity(config)
    ensures gone == [] && ok == (checked && Beats(x.pending, x.queue, tx, config.priceBump))
    ensures z == (if ok then Put(x, tx, local) else x) && (ok ==> (replace <==> Occupied(x, tx)))
  {
    assert Opened(0);
  }

  /**
   A batch: each transaction is inserted on top of those before it, from `x` to `z`.  `changed` are the accounts that
   got something new.
   */
  ghost predicate InsertedAll(x: Holdings, t: Terms, config: Config, batch: seq<(Tx, bool)>, local: bool,
                              gone: seq<seq<Tx>>, accepted: seq<bool>, changed: set<Addr>, z: Holdings)
    decreases |batch|
  {
    && |gone| == |accepted| == |batch|
    && if batch == [] then z == x && changed == {}
       else
         var n := |batch| - 1;
         exists y, replace, before: set<Addr> ::
           && InsertedAll(x, t, config, batch[..n], local, gone[..n], accepted[..n], before, y)
           && Inserted(y, z, config, batch[n].0, local, Checked(y, t, batch[n].0, local, batch[n].1), gone[n],
                       accepted[n], replace)
           && changed == before + Gets(batch[n].0, accepted[n], replace)
  }

  /** Whose account gets something new when a transaction is accepted: nobody's if it replaces another. */
  function Gets(tx: Tx, ok: bool, replace: bool): set<Addr> {
    if ok && !replace then {tx.sender} else {}
  }

  lemma InsertedMore(x: Holdings, t: Terms, config: Config, batch: seq<(Tx, bool)>, i: nat, local: bool,
                     gone: seq<seq<Tx>>, accepted: seq<bool>, before: set<Addr>, y: Holdings, z: Holdings,
                     left: seq<Tx>, ok: bool, replace: bool, changed: set<Addr>)
    requires i < |batch| && InsertedAll(x, t, config, batch[..i], local, gone, accepted, before, y)
    requires Inserted(y, z, config, batch[i].0, local, Checked(y, t, batch[i].0, local, batch[i].1), left, ok, replace)
             == true
    requires changed == before + Gets(batch[i].0, ok, replace)
    ensures InsertedAll(x, t, config, batch[..i + 1], local, gone + [left], accepted + [ok], changed, z) == true
  {
    var b, g, a := batch[..i + 1], gone + [left], accepted + [ok];
    assert b[..i] == batch[..i] && g[..i] == gone && a[..i] == accepted;
    assert InsertedAll(x, t, config, b[..i], local, g[..i], a[..i], before, y);
    assert Inserted(y, z, config, b[i].0, local, Checked(y, t, b[i].0, local, b[i].1), g[i], a[i], replace);
  }

  /** The same, closed. */
  ghost predicate Batching(x: Holdings, t: Terms, config: Config, batch: seq<(Tx, bool)>, local: bool,
                           gone: seq<seq<Tx>>, accepted: seq<bool>, changed: set<Addr>, z: Holdings) {
    forall k: int {:trigger Opened(k)} :: Sealed(k) ==>
      InsertedAll(x, t, config, batch, local, gone, accepted, changed, z)
  }

  lemma BatchingNone(x: Holdings, t: Terms, config: Config, batch: seq<(Tx, bool)>, local: bool)
    requires batch == []
    ensures Batching(x, t, config, batch, local, [], [], {}, x) == true
  {
    assert Opened(0);
  }

  lemma BatchingMore(x: Holdings, t: Terms, config: Config, batch: seq<(Tx, bool)>, i: nat, local: bool,
                     gone: seq<seq<Tx>>, accepted: seq<bool>, before: set<Addr>, y: Holdings, z: Holdings,
                     left: seq<Tx>, ok: bool, replace: bool, changed: set<Addr>)
    requires i < |batch| && Batching(x, t, config, batch[..i], local, gone, accepted, before, y) == true
    requires Inserted(y, z, config, batch[i].0, local, Checked(y, t, batch[i].0, local, batch[i].1), left, ok, replace)
             == true
    requires changed == before + Gets(batch[i].0, ok, replace)
    ensures Batching(x, t, config, batch[..i + 1], local, gone + [left], accepted + [ok], changed, z) == true
  {
    assert Opened(0);
    InsertedMore(x, t, config, batch, i, local, gone, accepted, before, y, z, left, ok, replace, changed);
  }

  /** A removal in terms of the lists before and after it. */
  lemma IsWithout(x: Holdings, y: Holdings, tx: Tx, kept: Txs)
    requires kept == Before(ListOf(x.pending, tx.sender), tx.nonce)
    requires y.all == x.all - {tx} && y.locals == x.locals
    requires tx !in x.all ==> y.pending == x.pending && y.queue == x.queue
    requires tx in x.all && tx.nonce !in ListOf(x.pending, tx.sender) ==>
               && y.pending == x.pending
               && y.queue == Stored(x.queue, tx.sender, ListOf(x.queue, tx.sender) - {tx.nonce})
    requires tx in x.all && tx.nonce in ListOf(x.pending, tx.sender) ==>
               && y.pending == Stored(x.pending, tx.sender, kept)
               && y.queue == if kept == map[] then x.queue
                             else TakenIn(x.queue, tx.sender, From(ListOf(x.pending, tx.sender), tx.nonce + 1))
    ensures y == Without(x, tx)
  {
  }

  /** A batch is taken in one by one; which of it is accepted. */
  ghost function Batched(x: Holdings, t: Terms, batch: seq<(Tx, bool)>, local: bool): (Holdings, seq<bool>) {
    if batch == [] then (x, [])
    else
      var (y, accepted) := Batched(x, t, batch[..|batch| - 1], local);
      var (tx, wellFormed) := batch[|batch| - 1];
      var ok := Welcome(y, t, tx, local, wellFormed);
      (if ok then Put(y, tx, local) else y, accepted + [ok])
  }

  lemma BatchedMore(x: Holdings, t: Terms, batch: seq<(Tx, bool)>, i: nat, local: bool, y: Holdings,
                    accepted: seq<bool>, y': Holdings, ok: bool)
    requires i < |batch| && Batched(x, t, batch[..i], local) == (y, accepted)
    requires ok == Welcome(y, t, batch[i].0, local, batch[i].1) && y' == if ok then Put(y, batch[i].0, local) else y
    ensures Batched(x, t, batch[..i + 1], local) == (y', accepted + [ok]) && |y'.all| <= |y.all| + 1
  {
    assert batch[..i + 1][..i] == batch[..i];
  }

  lemma PlacedParts(pending: AccountLists, queue: AccountLists, all: set<Tx>, locals: set<Addr>,
                    pending': AccountLists, queue': AccountLists, all': set<Tx>, locals': set<Addr>, tx: Tx,
                    local: bool)
    requires Placed(pending, queue, all, locals, pending', queue', all', locals', tx, local) == true
    ensures tx in all' && all' <= all + {tx}
    ensures Holds(ListOf(pending', tx.sender), tx) || Holds(ListOf(queue', tx.sender), tx)
    ensures locals' == locals || (local && locals' == locals + {tx.sender})
  {
  }

  /** What has left `all` are cheapest transactions of accounts that are not local, at most `count` of them. */
  ghost predicate CheapestGone(all: set<Tx>, all': set<Tx>, locals: set<Addr>, count: nat) {
    && all' <= all && |all - all'| <= count
    && (forall tx :: tx in all - all' ==> tx.sender !in locals)
    && (forall tx, t :: tx in all - all' && t in all' && t.sender !in locals ==> tx.price <= t.price)
    && (count > 0 && (exists t :: t in all && t.sender !in locals) ==> all' < all)
  }

  lemma ReplacesPending(pending: AccountLists, queue: AccountLists, nonceAt: Addr -> nat, managed: map<Addr, nat>,
                        all: set<Tx>, tx: Tx)
    requires Sound(pending, queue, nonceAt, managed, all) && tx !in all && tx.nonce in ListOf(pending, tx.sender)
    ensures var pend := ListOf(pending, tx.sender);
            Sound(pending[tx.sender := pend[tx.nonce := tx]], queue, nonceAt, managed, Exchanged(all, pend, tx))
  {
    var a := tx.sender;
    assert FineAt(pending, queue, nonceAt, managed, all, a);
    var pend := ListOf(pending, a);
    StoredElsewhere(pending, a, pend[tx.nonce := tx]);
    StoredElsewhere(queue, a, map[]);
    OneAccount(pending, queue, nonceAt, managed, all,
               pending[a := pend[tx.nonce := tx]], queue, managed, Exchanged(all, pend, tx), a);
  }

  lemma EntersQueue(pending: AccountLists, queue: AccountLists, nonceAt: Addr -> nat, managed: map<Addr, nat>,
                    all: set<Tx>, tx: Tx)
    requires Sound(pending, queue, nonceAt, managed, all) && tx !in all
    requires tx.nonce !in ListOf(pending, tx.sender)
    ensures var que := ListOf(queue, tx.sender);
            Sound(pending, queue[tx.sender := que[tx.nonce := tx]], nonceAt, managed, Exchanged(all, que, tx))
  {
    var a := tx.sender;
    assert FineAt(pending, queue, nonceAt, managed, all, a);
    var que := ListOf(queue, a);
    StoredElsewhere(queue, a, que[tx.nonce := tx]);
    StoredElsewhere(pending, a, map[]);
    OneAccount(pending, queue, nonceAt, managed, all,
               pending, queue[a := que[tx.nonce := tx]], managed, Exchanged(all, que, tx), a);
  }

  // ---------------------------------------------------------------- promotion

  /** A queue list may lose transactions, together with the pool or not. */
  lemma QueueShrinks(pending: AccountLists, queue: AccountLists, nonceAt: Addr -> nat, managed: map<Addr, nat>,
                     all: set<Tx>, a: Addr, m: Txs, all': set<Tx>)
    requires Sound(pending, queue, nonceAt, managed, all) && Sub(m, ListOf(queue, a)) && all' <= all
    requires forall tx :: tx in all && tx !in all' ==> Holds(ListOf(queue, a), tx) && tx.nonce !in m
    ensures Sound(pending, queue[a := m], nonceAt, managed, all')
    ensures m == map[] ==> Sound(pending, queue - {a}, nonceAt, managed, all')
  {
    assert FineAt(pending, queue, nonceAt, managed, all, a);
    StoredElsewhere(queue, a, m);
    StoredElsewhere(pending, a, map[]);
    OneAccount(pending, queue, nonceAt, managed, all, pending, queue[a := m], managed, all', a);
    if m == map[] {
      OneAccount(pending, queue, nonceAt, managed, all, pending, queue - {a}, managed, all', a);
    }
  }

  /** The transaction with the pending nonce extends the pending list. */
  lemma Promotes(pending: AccountLists, queue: AccountLists, nonceAt: Addr -> nat, managed: map<Addr, nat>,
                 all: set<Tx>, tx: Tx)
    requires Sound(pending, queue, nonceAt, managed, all) && tx in all && tx.nonce == Next(nonceAt, managed, tx.sender)
    requires tx.nonce !in ListOf(queue, tx.sender)
    ensures tx.nonce !in ListOf(pending, tx.sender)
    ensures Sound(pending[tx.sender := ListOf(pending, tx.sender)[tx.nonce := tx]], queue, nonceAt,
                  managed[tx.sender := tx.nonce + 1], all)
  {
    var a := tx.sender;
    assert FineAt(pending, queue, nonceAt, managed, all, a);
    var pend := ListOf(pending, a);
    StoredElsewhere(pending, a, pend[tx.nonce := tx]);
    StoredElsewhere(queue, a, map[]);
    OneAccount(pending, queue, nonceAt, managed, all,
               pending[a := pend[tx.nonce := tx]], queue, managed[a := tx.nonce + 1], all, a);
  }

  /** What is ready starts at the pending nonce, and what stays lies beyond the new one. */
  lemma RunStarts(que: Txs, rest: Txs, run: seq<Tx>, lo: nat, hi: nat)
    requires Clear(que, lo, hi) && IsRun(que, hi, rest, run) && forall n :: n in que ==> lo <= n
    ensures Consecutive(run, hi) && Sub(rest, que)
    ensures forall i :: 0 <= i < |run| ==> Holds(que, run[i]) && run[i].nonce !in rest
    ensures forall n :: n in rest ==> hi + |run| < n
  {
    forall i | 0 <= i < |run|
      ensures Holds(que, run[i]) && run[i].nonce !in rest
    {
      ListsIn(run, que - rest.Keys, run[i]);
    }
    if run != [] {
      var n :| n in que && n <= hi;
      if n !in rest {
        ListsIn(run, que - rest.Keys, que[n]);
      }
      assert Holds(que, run[0]);
      var last := run[|run| - 1];
      assert Holds(que, last) && last.nonce !in rest;
    }
  }

  /** The run is all of the queue below the new pending nonce, and what stays is the rest. */
  lemma RunTaken(que: Txs, rest: Txs, run: seq<Tx>, lo: nat, hi: nat)
    requires Clear(que, lo, hi) && IsRun(que, hi, rest, run) && forall n :: n in que ==> lo <= n
    ensures rest == From(que, hi + |run|) && Lists(run, Before(que, hi + |run|)) == true
  {
    RunStarts(que, rest, run, lo, hi);
    forall n | n in que && n !in rest
      ensures n < hi + |run|
    {
      ListsIn(run, que - rest.Keys, que[n]);
    }
    assert que - rest.Keys == Before(que, hi + |run|);
  }

  /** An account's own transactions with consecutive nonces: all of the queue below `next + |run|`, which is missing. */
  ghost predicate RunOf(a: Addr, run: seq<Tx>, que: Txs, rest: Txs, next: nat, all: set<Tx>) {
    && Consecutive(run, next) && Lists(run, Before(que, next + |run|)) && rest == From(que, next + |run|)
    && next + |run| !in que
    && forall i :: 0 <= i < |run| ==> run[i].sender == a && run[i] in all && run[i].nonce !in rest
  }

  lemma RunIsOf(a: Addr, run: seq<Tx>, pend: Txs, que: Txs, rest: Txs, lo: nat, next: nat, all: set<Tx>)
    requires Fine(a, pend, que, lo, next, all) && IsRun(que, next, rest, run) == true
    requires forall n :: n in que ==> lo <= n
    ensures RunOf(a, run, que, rest, next, all) == true && Sub(rest, que)
  {
    RunStarts(que, rest, run, lo, next);
    RunTaken(que, rest, run, lo, next);
  }

  /** Of the queue, what lies below the new pending nonce has become pending; that nonce itself is missing. */
  ghost predicate Promoted(pending: AccountLists, pending': AccountLists, a: Addr, que: Txs, rest: Txs, next: nat) {
    forall k: int {:trigger Opened(k)} :: Sealed(k) ==>
      pending' == TakenIn(pending, a, Before(que, next)) && rest == From(que, next) && next !in que
  }

  lemma RunParts(a: Addr, run: seq<Tx>, que: Txs, rest: Txs, next: nat, all: set<Tx>)
    requires RunOf(a, run, que, rest, next, all) == true
    ensures Consecutive(run, next) && Lists(run, Before(que, next + |run|)) == true
    ensures forall i :: 0 <= i < |run| ==> run[i].sender == a && run[i] in all && run[i].nonce !in rest
  {
  }

  lemma RunPromoted(a: Addr, run: seq<Tx>, que: Txs, rest: Txs, next: nat, all: set<Tx>,
                    pending: AccountLists, pending': AccountLists, next': nat)
    requires RunOf(a, run, que, rest, next, all) == true
    requires pending' == TakenIn(pending, a, Before(que, next + |run|)) && next' == next + |run|
    ensures Promoted(pending, pending', a, que, rest, next') == true
  {
    assert Opened(0);
  }

  lemma NotPromotable(pending: AccountLists, pending': AccountLists, a: Addr, que: Txs, rest: Txs, next: nat)
    requires Promoted(pending, pending', a, que, rest, next) == true
    ensures rest == From(que, next) && next !in rest
  {
    assert Opened(0);
  }

  /** A queue list within its limit: a local account has none, others keep their lowest nonces. */
  ghost predicate Trimmed(que: Txs, m: Txs, local: bool, limit: nat) {
    if local then m == que else Capped(que, m, limit)
  }

  /**
   An account's queue brought up to date: what is too old or cannot be paid for is gone, what has become executable
   is pending, and the rest is within its limit.  Closed.
   */
  ghost predicate Updated(pending: AccountLists, que0: Txs, pending': AccountLists, m: Txs, a: Addr,
                          nonce: nat, balance: nat, maxGas: nat, next: nat, local: bool, limit: nat) {
    forall k: int {:trigger Opened(k)} :: Sealed(k) ==>
      var que := Affordable(From(que0, nonce), false, balance, maxGas);
      Promoted(pending, pending', a, que, From(que, next), next) && Trimmed(From(que, next), m, local, limit)
  }

  lemma UpdatedBy(pending: AccountLists, que0: Txs, que: Txs, rest: Txs, pending': AccountLists, m: Txs, a: Addr,
                  nonce: nat, balance: nat, maxGas: nat, next: nat, local: bool, limit: nat)
    requires que == Affordable(From(que0, nonce), false, balance, maxGas)
    requires Promoted(pending, pending', a, que, rest, next) == true && Trimmed(rest, m, local, limit) == true
    ensures Updated(pending, que0, pending', m, a, nonce, balance, maxGas, next, local, limit) == true
  {
    assert Opened(0);
  }

  lemma NothingUpdated(pending: AccountLists, a: Addr, nonce: nat, balance: nat, maxGas: nat, next: nat, local: bool,
                       limit: nat)
    ensures Updated(pending, map[], pending, map[], a, nonce, balance, maxGas, next, local, limit) == true
  {
    assert Opened(0);
    var que := Affordable(From(map[], nonce), false, balance, maxGas);
    assert que == map[] && Before(que, next) == map[] && From(que, next) == map[];
  }

  /** The front of the sorted contents has the lowest nonces. */
  lemma LowestKept(txs: seq<Tx>, whole: Txs, i: nat, m: Txs)
    requires Lists(txs, whole) && Ascending(txs) && i <= |txs| && Lists(txs[..i], m)
    ensures Capped(whole, m, i) == true
  {
    ListsCount(txs, whole);
    ListsCount(txs[..i], m);
    forall n | n in m
      ensures exists j :: 0 <= j < i && txs[j] == m[n] && n in whole && whole[n] == m[n]
    {
      var j := ListsAt(txs[..i], m, n);
      ListsIn(txs, whole, txs[j]);
    }
    forall n, k | n in m && k in whole && k !in m
      ensures n < k
    {
      var j := ListsAt(txs[..i], m, n);
      var l := ListsAt(txs, whole, k);
      if l < i {
        ListsIn(txs[..i], m, txs[..i][l]);
      }
    }
  }

  // ---------------------------------------------------------------- sizes

  ghost function Sizes(lists: AccountLists): map<Addr, nat> {
    map a | a in lists :: |lists[a]|
  }

  /** The number of transactions in all lists. */
  ghost function Total(lists: AccountLists): nat {
    Sums.Sum(Sizes(lists))
  }

  lemma TotalWithout(lists: AccountLists, a: Addr)
    requires a in lists
    ensures Total(lists) == |lists[a]| + Total(lists - {a})
  {
    Sums.SumWithout(Sizes(lists), a);
    assert Sizes(lists - {a}) == Sizes(lists) - {a};
  }

  lemma TotalUpdate(lists: AccountLists, a: Addr, m: Txs)
    ensures Total(lists[a := m]) == Total(lists) - |ListOf(lists, a)| + |m|
  {
    Sums.SumUpdate(Sizes(lists), a, |m|);
    SizesUpdate(lists, a, m);
    SizeOf(lists, a);
  }

  lemma SizesUpdate(lists: AccountLists, a: Addr, m: Txs)
    ensures Sizes(lists[a := m]) == Sizes(lists)[a := |m|]
  {
  }

  lemma SizeOf(lists: AccountLists, a: Addr)
    ensures |ListOf(lists, a)| == if a in Sizes(lists) then Sizes(lists)[a] else 0
  {
  }

  lemma TotalStored(lists: AccountLists, a: Addr, m: Txs)
    ensures Total(Stored(lists, a, m)) == Total(lists) - |ListOf(lists, a)| + |m|
  {
    if m != map[] {
      TotalUpdate(lists, a, m);
    } else if a in lists {
      TotalWithout(lists, a);
    } else {
      assert lists - {a} == lists;
    }
  }

  lemma TotalGrows(x: AccountLists, y: AccountLists)
    requires x.Keys == y.Keys && forall a :: a in x ==> |x[a]| <= |y[a]|
    ensures Total(x) <= Total(y)
  {
    Sums.SumGrows(Sizes(x), Sizes(y));
  }

  // ---------------------------------------------------------------- fairness

  /**
   Every list that is not local holds the lowest nonces of the original, up to the level; local lists are untouched.
   */
  ghost predicate AtLevel(whole: AccountLists, locals: set<Addr>, now: AccountLists, level: nat) {
    && now.Keys == whole.Keys
    && forall a {:trigger LevelAt(whole, locals, now, level, a)} :: a in whole ==> LevelAt(whole, locals, now, level, a)
  }

  ghost predicate LevelAt(whole: AccountLists, locals: set<Addr>, now: AccountLists, level: nat, a: Addr)
    requires a in whole && a in now
  {
    if a in locals then now[a] == whole[a] else Capped(whole[a], now[a], level)
  }

  /** At this level the lists hold too much. */
  ghost predicate Overfull(whole: AccountLists, locals: set<Addr>, level: nat, limit: nat) {
    exists x :: AtLevel(whole, locals, x, level) && Total(x) > limit
  }

  /** A level above an overfull one is overfull. */
  lemma HigherOverfull(whole: AccountLists, locals: set<Addr>, level: nat, limit: nat, y: AccountLists, level': nat)
    requires Overfull(whole, locals, level, limit) && level <= level' && AtLevel(whole, locals, y, level')
    ensures Total(y) > limit
  {
    var x :| AtLevel(whole, locals, x, level) && Total(x) > limit;
    forall a | a in x
      ensures |x[a]| <= |y[a]|
    {
      assert LevelAt(whole, locals, x, level, a) && LevelAt(whole, locals, y, level', a);
    }
    TotalGrows(x, y);
  }

  /** The outcome of equalising: the highest level, not below the guaranteed slots, at which the lists fit. */
  ghost predicate Equalised(whole: AccountLists, locals: set<Addr>, now: AccountLists, level: nat, slots: nat,
                            limit: nat) {
    && AtLevel(whole, locals, now, level) && slots <= level
    && (Total(now) <= limit || forall a :: a in now && a !in locals ==> |now[a]| <= slots)
    && (now == whole || Overfull(whole, locals, level + 1, limit))
  }

  /** No account is cut below its guaranteed slots, and accounts that are cut end up equal and as long as any other. */
  lemma EqualisedFair(whole: AccountLists, locals: set<Addr>, now: AccountLists, level: nat, slots: nat, limit: nat,
                      a: Addr, b: Addr)
    requires Equalised(whole, locals, now, level, slots, limit) && a in now && b in now && a !in locals && b !in locals
    ensures |now[a]| <= |whole[a]| && (|now[a]| < slots ==> |now[a]| == |whole[a]|)
    ensures |now[a]| < |whole[a]| ==> |now[b]| <= |now[a]|
  {
    assert LevelAt(whole, locals, now, level, a) && LevelAt(whole, locals, now, level, b);
  }

  lemma CappedAgain(whole: Txs, m: Txs, k: nat, m': Txs, k': nat)
    requires Capped(whole, m, k) && Capped(m, m', k') && k' <= k
    ensures Capped(whole, m', k')
  {
  }

  // ---------------------------------------------------------------- a new head

  lemma TakenInElsewhere(queue: AccountLists, a: Addr, m: Txs)
    ensures ListOf(TakenIn(queue, a, m), a) == ListOf(queue, a) + m && Elsewhere(queue, TakenIn(queue, a, m), a)
  {
    assert ListOf(queue, a) + map[] == ListOf(queue, a);
  }

  /** The list that is left does not start at the state nonce. */
  predicate Gapped(kept: Txs, nonce: nat) {
    kept != map[] && nonce !in kept
  }

  /** What a pending list keeps under a new state: what it can pay for, unless there is a gap in front. */
  ghost function Demoted(pend: Txs, nonce: nat, balance: nat, maxGas: nat): Txs {
    var kept := Affordable(From(pend, nonce), true, balance, maxGas);
    if Gapped(kept, nonce) then map[] else kept
  }

  /** What goes back to the queue. */
  ghost function StrandedOf(pend: Txs, nonce: nat, balance: nat, maxGas: nat): Txs {
    var kept := Affordable(From(pend, nonce), true, balance, maxGas);
    Invalidated(From(pend, nonce), true, balance, maxGas) + (if Gapped(kept, nonce) then kept else map[])
  }

  /** The two parts; closed. */
  ghost predicate Parts(pend: Txs, nonce: nat, balance: nat, maxGas: nat, kept: Txs, stranded: Txs) {
    forall k: int {:trigger Opened(k)} :: Sealed(k) ==>
      kept == Demoted(pend, nonce, balance, maxGas) && stranded == StrandedOf(pend, nonce, balance, maxGas)
  }

  /** What filtering leaves and strands; closed. */
  ghost predicate Sifted(pend: Txs, nonce: nat, balance: nat, maxGas: nat, kept: Txs, m: Txs) {
    forall k: int {:trigger Opened(k)} :: Sealed(k) ==>
      && kept == Affordable(From(pend, nonce), true, balance, maxGas)
      && m == Invalidated(From(pend, nonce), true, balance, maxGas)
  }

  /** The nonces after filtering, under any state nonce: without a gap in front they are in sequence from there. */
  lemma DemotedNonces(pend: Txs, que: Txs, lo: nat, hi: nat, nonce: nat, balance: nat, maxGas: nat)
    requires Contiguous(pend, lo, hi) == true && Clear(que, lo, hi) == true
    ensures var list := From(pend, nonce);
            var kept, m := Affordable(list, true, balance, maxGas), Invalidated(list, true, balance, maxGas);
            && m.Keys !! que.Keys && kept.Keys !! (que + m).Keys && (Gapped(kept, nonce) ==> nonce < lo)
            && (!Gapped(kept, nonce) ==> InSequence(kept, que + m, nonce))
  {
    var list := From(pend, nonce);
    if lo <= nonce {
      var top := if nonce < hi then hi else nonce;
      assert Contiguous(list, nonce, top);
      var end := AffordablePrefix(list, nonce, top, balance, maxGas);
      ContiguousSize(Affordable(list, true, balance, maxGas), nonce, end);
    }
  }

  /** Pending nonces are in sequence from the state nonce, and queued ones are not among them. */
  ghost predicate InSequence(kept: Txs, que: Txs, nonce: nat) {
    Contiguous(kept, nonce, nonce + |kept|) && Clear(que, nonce, nonce + |kept|)
  }

  /** The transactions that demotion drops were pending, and are neither kept nor postponed. */
  ghost predicate Gone(pend: Txs, rest: Txs, gone: set<Tx>) {
    forall tx :: tx in gone ==> Holds(pend, tx) && tx.nonce !in rest
  }

  lemma DemotedGone(pend: Txs, nonce: nat, balance: nat, maxGas: nat, removed: seq<Tx>, drops: seq<Tx>)
    requires Lists(removed, pend - From(pend, nonce).Keys) == true
    requires Lists(drops, Where(From(pend, nonce), OverLimits(balance, maxGas))) == true
    ensures var list := From(pend, nonce);
            Gone(pend, Affordable(list, true, balance, maxGas) + Invalidated(list, true, balance, maxGas),
                 (set tx | tx in removed) + (set tx | tx in drops)) == true
  {
    var list := From(pend, nonce);
    forall tx
      ensures tx in removed ==> Holds(pend, tx) && tx.nonce !in list
      ensures tx in drops ==> Holds(pend, tx) && Over(tx, balance, maxGas)
    {
      ListsIn(removed, pend - list.Keys, tx);
      ListsIn(drops, Where(list, OverLimits(balance, maxGas)), tx);
    }
  }

  lemma FineRanges(a: Addr, pend: Txs, que: Txs, lo: nat, hi: nat, all: set<Tx>)
    requires Fine(a, pend, que, lo, hi, all) == true
    ensures Contiguous(pend, lo, hi) == true && Clear(que, lo, hi) == true
  {
  }

  lemma DemotedOwned(a: Addr, pend: Txs, que: Txs, lo: nat, hi: nat, all: set<Tx>, kept: Txs, m: Txs, gone: set<Tx>)
    requires Fine(a, pend, que, lo, hi, all) == true && Sub(kept, pend) && Sub(m, pend)
    requires Gone(pend, kept + m, gone) == true
    ensures Owned(kept, a, all - gone) == true && Owned(m, a, all - gone) == true
    ensures Owned(que + m, a, all - gone) == true
    ensures forall tx :: tx in gone ==> tx.sender == a
  {
  }

  /** Only transactions of the account have left. */
  ghost predicate OnlyOf(a: Addr, all: set<Tx>, all': set<Tx>) {
    all' <= all && forall tx :: tx in all && tx !in all' ==> tx.sender == a
  }

  /**
   What filtering leaves and postpones: the account's own, apart from each other, and in sequence unless there is a gap.
   */
  ghost predicate IsFiltered(a: Addr, kept: Txs, m: Txs, que: Txs, nonce: nat, all: set<Tx>, all': set<Tx>) {
    && OnlyOf(a, all, all') && m.Keys !! que.Keys && kept.Keys !! (que + m).Keys
    && Owned(kept, a, all') && Owned(m, a, all') && Owned(que + m, a, all')
    && (!Gapped(kept, nonce) ==> InSequence(kept, que + m, nonce))
  }

  lemma FilteredParts(a: Addr, kept: Txs, m: Txs, que: Txs, nonce: nat, all: set<Tx>, all': set<Tx>)
    requires IsFiltered(a, kept, m, que, nonce, all, all') == true
    ensures OnlyOf(a, all, all') && m.Keys !! que.Keys && kept.Keys !! (que + m).Keys && Keyed(que + m)
    ensures Owned(m, a, all') == true && Owned(kept, a, all') == true && Owned(que + m, a, all') == true
    ensures !Gapped(kept, nonce) ==> InSequence(kept, que + m, nonce) == true
  {
  }

  /** Without a gap in front, what is left stays pending. */
  lemma StaysPending(a: Addr, pend: Txs, kept: Txs, m: Txs, que: Txs, nonce: nat, balance: nat, maxGas: nat,
                     all: set<Tx>)
    requires Sifted(pend, nonce, balance, maxGas, kept, m) == true
    requires !Gapped(kept, nonce) && InSequence(kept, que + m, nonce) == true
    requires Owned(kept, a, all) == true && Owned(que + m, a, all) == true
    ensures Parts(pend, nonce, balance, maxGas, kept, m) == true
    ensures Fine(a, kept, que + m, nonce, nonce + |kept|, all) == true
  {
    assert Opened(0) && m + map[] == m;
  }

  /** With a gap in front all of it is queued. */
  lemma AllPostponed(a: Addr, pend: Txs, kept: Txs, m: Txs, que: Txs, nonce: nat, balance: nat, maxGas: nat,
                     all: set<Tx>, none: Txs, stranded: Txs)
    requires Sifted(pend, nonce, balance, maxGas, kept, m) == true && Gapped(kept, nonce)
    requires Owned(kept, a, all) == true && Owned(que + m, a, all) == true && none == map[] && stranded == m + kept
    ensures Parts(pend, nonce, balance, maxGas, none, stranded) == true
    ensures Fine(a, none, que + stranded, nonce, nonce + |none|, all) == true
  {
    GapParts(pend, nonce, balance, maxGas, kept, m, none, stranded);
    OwnedTogether(a, que, m, kept, all);
  }

  lemma GapParts(pend: Txs, nonce: nat, balance: nat, maxGas: nat, kept: Txs, m: Txs, none: Txs, stranded: Txs)
    requires Sifted(pend, nonce, balance, maxGas, kept, m) == true && Gapped(kept, nonce)
    requires none == map[] && stranded == m + kept
    ensures Parts(pend, nonce, balance, maxGas, none, stranded) == true
  {
    assert Opened(0);
  }

  lemma OwnedTogether(a: Addr, que: Txs, m: Txs, kept: Txs, all: set<Tx>)
    requires Owned(kept, a, all) && Owned(que + m, a, all)
    ensures Owned(que + (m + kept), a, all) == true
  {
    forall n | n in que + (m + kept)
      ensures var tx := (que + (m + kept))[n]; tx.nonce == n && tx.sender == a && tx in all
    {
      assert n in kept || n in que + m;
    }
  }

  lemma TakenInTwice(queue: AccountLists, a: Addr, m: Txs, k: Txs)
    ensures TakenIn(TakenIn(queue, a, m), a, k) == TakenIn(queue, a, m + k)
  {
    TakenInElsewhere(queue, a, m);
    assert ListOf(queue, a) + m + k == ListOf(queue, a) + (m + k);
    assert m + map[] == m && map[] + k == k;
    if k != map[] {
      var n :| n in k;
      assert n in m + k;
    }
    if m != map[] {
      var n :| n in m;
      assert n in m + k;
    }
  }

  lemma DemotedLists(a: Addr, pending: AccountLists, queue: AccountLists, kept: Txs, m: Txs, nonce: nat, all: set<Tx>)
    requires Fine(a, kept, ListOf(queue, a) + m, nonce, nonce + |kept|, all) == true
    ensures var pending', queue' := Stored(pending, a, kept), TakenIn(queue, a, m);
            && Elsewhere(pending, pending', a) == true && Elsewhere(queue, queue', a) == true
            && ListOf(pending', a) == kept && ListOf(queue', a) == ListOf(queue, a) + m
            && (a in pending' ==> pending'[a] != map[])
            && Fine(a, ListOf(pending', a), ListOf(queue', a), nonce, nonce + |ListOf(pending', a)|, all) == true
  {
    StoredElsewhere(pending, a, kept);
    TakenInElsewhere(queue, a, m);
  }

  lemma FineKeyed(a: Addr, pend: Txs, que: Txs, lo: nat, hi: nat, all: set<Tx>)
    requires Fine(a, pend, que, lo, hi, all) == true
    ensures Keyed(pend) && Keyed(que)
  {
  }

  /** An account's lists after filtering. */
  lemma FilteredFine(a: Addr, pend: Txs, que: Txs, lo: nat, hi: nat, all: set<Tx>, nonce: nat, balance: nat,
                     maxGas: nat, removed: seq<Tx>, drops: seq<Tx>)
    requires Fine(a, pend, que, lo, hi, all) == true
    requires Lists(removed, pend - From(pend, nonce).Keys) == true
    requires Lists(drops, Where(From(pend, nonce), OverLimits(balance, maxGas))) == true
    ensures IsFiltered(a, Affordable(From(pend, nonce), true, balance, maxGas),
                       Invalidated(From(pend, nonce), true, balance, maxGas),
                       que, nonce, all, all - ((set tx | tx in removed) + (set tx | tx in drops))) == true
  {
    var list := From(pend, nonce);
    var kept, m := Affordable(list, true, balance, maxGas), Invalidated(list, true, balance, maxGas);
    var gone := (set tx | tx in removed) + (set tx | tx in drops);
    FineRanges(a, pend, que, lo, hi, all);
    DemotedNonces(pend, que, lo, hi, nonce, balance, maxGas);
    DemotedGone(pend, nonce, balance, maxGas, removed, drops);
    DemotedOwned(a, pend, que, lo, hi, all, kept, m, gone);
  }

  /**
   An account still to be demoted has its lists from before; the others keep what they can and queue what is stranded.
   */
  ghost predicate SplitAt(pending0: AccountLists, queue0: AccountLists, pending: AccountLists, queue: AccountLists,
                          nonceAt: Addr -> nat, balanceAt: Addr -> nat, maxGas: nat, todo: set<Addr>, a: Addr) {
    var pend, que := ListOf(pending0, a), ListOf(queue0, a);
    if a in todo then ListOf(pending, a) == pend && ListOf(queue, a) == que
    else && ListOf(pending, a) == Demoted(pend, nonceAt(a), balanceAt(a), maxGas)
         && ListOf(queue, a) == que + StrandedOf(pend, nonceAt(a), balanceAt(a), maxGas)
  }

  ghost predicate Split(pending0: AccountLists, queue0: AccountLists, pending: AccountLists, queue: AccountLists,
                        nonceAt: Addr -> nat, balanceAt: Addr -> nat, maxGas: nat, todo: set<Addr>) {
    forall a {:trigger SplitAt(pending0, queue0, pending, queue, nonceAt, balanceAt, maxGas, todo, a)} ::
      SplitAt(pending0, queue0, pending, queue, nonceAt, balanceAt, maxGas, todo, a)
  }

  lemma SplitStart(pending: AccountLists, queue: AccountLists, nonceAt: Addr -> nat, balanceAt: Addr -> nat,
                   maxGas: nat)
    ensures Split(pending, queue, pending, queue, nonceAt, balanceAt, maxGas, pending.Keys) == true
  {
    forall a
      ensures SplitAt(pending, queue, pending, queue, nonceAt, balanceAt, maxGas, pending.Keys, a)
    {
      assert From(map[], nonceAt(a)) == map[] && ListOf(queue, a) + map[] == ListOf(queue, a);
      assert Demoted(map[], nonceAt(a), balanceAt(a), maxGas) == map[];
      assert StrandedOf(map[], nonceAt(a), balanceAt(a), maxGas) == map[];
    }
  }

  lemma SplitStep(pending0: AccountLists, queue0: AccountLists, pending: AccountLists, queue: AccountLists,
                  nonceAt: Addr -> nat, balanceAt: Addr -> nat, maxGas: nat, todo: set<Addr>,
                  pending': AccountLists, queue': AccountLists, a: Addr, kept: Txs, stranded: Txs)
    requires Split(pending0, queue0, pending, queue, nonceAt, balanceAt, maxGas, todo) == true && a in todo
    requires Elsewhere(pending, pending', a) == true && Elsewhere(queue, queue', a) == true
    requires Parts(ListOf(pending, a), nonceAt(a), balanceAt(a), maxGas, kept, stranded) == true
    requires ListOf(pending', a) == kept && ListOf(queue', a) == ListOf(queue, a) + stranded
    ensures Split(pending0, queue0, pending', queue', nonceAt, balanceAt, maxGas, todo - {a}) == true
  {
    assert Opened(0);
    forall b
      ensures SplitAt(pending0, queue0, pending', queue', nonceAt, balanceAt, maxGas, todo - {a}, b)
    {
      assert SplitAt(pending0, queue0, pending, queue, nonceAt, balanceAt, maxGas, todo, b);
      if b != a {
        assert ListOf(pending', b) == ListOf(pending, b) && ListOf(queue', b) == ListOf(queue, b);
      }
    }
  }

  /**
   Accounts still to be demoted are as under the old state; the others fit the new one, without empty pending lists.
   */
  ghost predicate DemotingAt(pending: AccountLists, queue: AccountLists, nonce0: Addr -> nat, managed0: map<Addr, nat>,
                             nonceAt: Addr -> nat, all: set<Tx>, todo: set<Addr>, a: Addr) {
    var pend, que := ListOf(pending, a), ListOf(queue, a);
    if a in todo then Fine(a, pend, que, nonce0(a), Next(nonce0, managed0, a), all)
    else Fine(a, pend, que, nonceAt(a), nonceAt(a) + |pend|, all) && (a in pending ==> pend != map[])
  }

  ghost predicate Demoting(pending: AccountLists, queue: AccountLists, nonce0: Addr -> nat, managed0: map<Addr, nat>,
                           nonceAt: Addr -> nat, all: set<Tx>, todo: set<Addr>) {
    && todo <= pending.Keys
    && forall a {:trigger DemotingAt(pending, queue, nonce0, managed0, nonceAt, all, todo, a)} ::
         DemotingAt(pending, queue, nonce0, managed0, nonceAt, all, todo, a)
  }

  lemma DemotingStart(pending: AccountLists, queue: AccountLists, nonce0: Addr -> nat, managed0: map<Addr, nat>,
                      nonceAt: Addr -> nat, all: set<Tx>)
    requires Sound(pending, queue, nonce0, managed0, all)
    ensures Demoting(pending, queue, nonce0, managed0, nonceAt, all, pending.Keys)
  {
    forall a
      ensures DemotingAt(pending, queue, nonce0, managed0, nonceAt, all, pending.Keys, a)
    {
      assert FineAt(pending, queue, nonce0, managed0, all, a);
    }
  }

  lemma DemotingStep(pending: AccountLists, queue: AccountLists, nonce0: Addr -> nat, managed0: map<Addr, nat>,
                     nonceAt: Addr -> nat, all: set<Tx>, todo: set<Addr>,
                     pending': AccountLists, queue': AccountLists, all': set<Tx>, a: Addr)
    requires Demoting(pending, queue, nonce0, managed0, nonceAt, all, todo) == true && a in todo && OnlyOf(a, all, all')
    requires Elsewhere(pending, pending', a) == true && Elsewhere(queue, queue', a) == true
    requires Fine(a, ListOf(pending', a), ListOf(queue', a), nonceAt(a),
                  nonceAt(a) + |ListOf(pending', a)|, all') == true
    requires a in pending' ==> pending'[a] != map[]
    ensures Demoting(pending', queue', nonce0, managed0, nonceAt, all', todo - {a})
  {
    forall b
      ensures DemotingAt(pending', queue', nonce0, managed0, nonceAt, all', todo - {a}, b)
    {
      assert DemotingAt(pending, queue, nonce0, managed0, nonceAt, all, todo, b);
      if b != a {
        assert ListOf(pending', b) == ListOf(pending, b) && ListOf(queue', b) == ListOf(queue, b);
      }
    }
    assert forall b :: b in todo - {a} ==> b in pending && b in pending';
  }

  lemma DemotedList(pending: AccountLists, queue: AccountLists, nonce0: Addr -> nat, managed0: map<Addr, nat>,
                    nonceAt: Addr -> nat, all: set<Tx>, a: Addr)
    requires Demoting(pending, queue, nonce0, managed0, nonceAt, all, {}) == true && a in pending
    ensures Keyed(pending[a]) && Contiguous(pending[a], nonceAt(a), nonceAt(a) + |pending[a]|) && pending[a] != map[]
  {
    assert DemotingAt(pending, queue, nonce0, managed0, nonceAt, all, {}, a);
  }

  /** The pending nonces are set for the accounts that have a pending list, but for `todo`. */
  ghost predicate Renumbered(pending: AccountLists, nonceAt: Addr -> nat, managed: map<Addr, nat>, todo: set<Addr>) {
    && managed.Keys == pending.Keys - todo
    && forall a :: a in managed ==> managed[a] == nonceAt(a) + |pending[a]|
  }

  lemma RenumberedStep(pending: AccountLists, nonceAt: Addr -> nat, managed: map<Addr, nat>, todo: set<Addr>, a: Addr)
    requires Renumbered(pending, nonceAt, managed, todo) == true && a in todo && a in pending
    ensures Renumbered(pending, nonceAt, managed[a := nonceAt(a) + |pending[a]|], todo - {a}) == true
  {
  }

  lemma RenumberedSound(pending: AccountLists, queue: AccountLists, nonce0: Addr -> nat, managed0: map<Addr, nat>,
                        nonceAt: Addr -> nat, all: set<Tx>, managed: map<Addr, nat>)
    requires Demoting(pending, queue, nonce0, managed0, nonceAt, all, {}) == true
    requires Renumbered(pending, nonceAt, managed, {}) == true
    ensures Sound(pending, queue, nonceAt, managed, all) == true
  {
    forall a
      ensures FineAt(pending, queue, nonceAt, managed, all, a)
    {
      assert DemotingAt(pending, queue, nonce0, managed0, nonceAt, all, {}, a);
    }
  }

  lemma LastNonce(m: Txs, lo: nat, txs: seq<Tx>)
    requires Keyed(m) && Contiguous(m, lo, lo + |m|) && m != map[] && Lists(txs, m) && Ascending(txs)
    ensures txs != [] && txs[|txs| - 1].nonce + 1 == lo + |m|
  {
    ListsCount(txs, m);
    ListsIn(txs, m, txs[|txs| - 1]);
    LastIsHighest(txs, m, lo + |m| - 1);
  }
}
