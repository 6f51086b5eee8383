/**
 What becomes of the transactions that the pool knows (core/tx_pool.go, `all`) when its lists get shorter: exactly those
 that leave the lists are forgotten, and exactly what the chain has passed or the account cannot pay for leaves a
 pending list.
 */
module PoolKnown {
  import opened Shared
  import opened TxList
  import opened PoolState

  ghost predicate HeldBy(pend: Txs, que: Txs, tx: Tx) {
    Holds(pend, tx) || Holds(que, tx)
  }

  /** The transaction is in one of its sender's lists. */
  ghost predicate InLists(x: Holdings, tx: Tx) {
    HeldBy(ListOf(x.pending, tx.sender), ListOf(x.queue, tx.sender), tx)
  }

  ghost predicate LeftAt(x: Holdings, y: Holdings, tx: Tx) {
    && (InLists(y, tx) ==> InLists(x, tx))
    && (tx in y.all <==> tx in x.all && (InLists(x, tx) ==> InLists(y, tx)))
  }

  /** The lists hold nothing new, what has left them is no longer known, and everything else is known as before. */
  ghost predicate Forgets(x: Holdings, y: Holdings) {
    forall k: int {:trigger Opened(k)} :: Sealed(k) ==> forall tx {:trigger LeftAt(x, y, tx)} :: LeftAt(x, y, tx)
  }

  lemma ForgetsNothing(x: Holdings)
    ensures Forgets(x, x) == true
  {
    assert Opened(0);
  }

  lemma ForgetsAgain(x: Holdings, y: Holdings, z: Holdings)
    requires Forgets(x, y) && Forgets(y, z)
    ensures Forgets(x, z) == true
  {
    assert Opened(0);
    forall tx
      ensures LeftAt(x, z, tx)
    {
      assert LeftAt(x, y, tx) && LeftAt(y, z, tx);
    }
  }

  /** What is left is what was known, less what has left the lists. */
  lemma ForgetsExactly(x: Holdings, y: Holdings)
    requires Forgets(x, y)
    ensures y.all == x.all - set tx | tx in x.all && InLists(x, tx) && !InLists(y, tx)
  {
    assert Opened(0);
    forall tx
      ensures tx in y.all <==> tx in x.all && (InLists(x, tx) ==> InLists(y, tx))
    {
      assert LeftAt(x, y, tx);
    }
  }

  /** Only one account's lists have changed, and exactly what has left them is gone. */
  lemma AccountForgets(x: Holdings, y: Holdings, a: Addr, gone: set<Tx>, pend: Txs, que: Txs, pend': Txs, que': Txs)
    requires pend == ListOf(x.pending, a) && que == ListOf(x.queue, a)
    requires pend' == ListOf(y.pending, a) && que' == ListOf(y.queue, a)
    requires Elsewhere(x.pending, y.pending, a) && Elsewhere(x.queue, y.queue, a) && y.all == x.all - gone
    requires forall tx :: tx in gone ==> tx.sender == a
    requires forall tx :: HeldBy(pend', que', tx) ==> HeldBy(pend, que, tx)
    requires forall tx :: tx in gone <==> HeldBy(pend, que, tx) && !HeldBy(pend', que', tx)
    ensures Forgets(x, y) == true
  {
    assert Opened(0);
    forall tx
      ensures LeftAt(x, y, tx)
    {
      if tx.sender != a {
        assert ListOf(y.pending, tx.sender) == ListOf(x.pending, tx.sender);
        assert ListOf(y.queue, tx.sender) == ListOf(x.queue, tx.sender);
      }
    }
  }

  /** Part of a queue is forgotten. */
  lemma QueueForgets(x: Holdings, y: Holdings, a: Addr, lo: nat, hi: nat, m: Txs, removed: seq<Tx>)
    requires Fine(a, ListOf(x.pending, a), ListOf(x.queue, a), lo, hi, x.all) && Sub(m, ListOf(x.queue, a))
    requires Lists(removed, ListOf(x.queue, a) - m.Keys) && y.pending == x.pending
    requires ListOf(y.queue, a) == m && Elsewhere(x.queue, y.queue, a) && y.all == x.all - set tx | tx in removed
    ensures Forgets(x, y) == true
  {
    var pend, que, gone := ListOf(x.pending, a), ListOf(x.queue, a), set tx | tx in removed;
    forall tx
      ensures tx in gone <==> HeldBy(pend, que, tx) && !HeldBy(pend, m, tx)
      ensures tx in gone ==> tx.sender == a
      ensures HeldBy(pend, m, tx) ==> HeldBy(pend, que, tx)
    {
      ListsIn(removed, que - m.Keys, tx);
    }
    AccountForgets(x, y, a, gone, pend, que, pend, m);
  }

  /** The end of a pending list is forgotten. */
  lemma CutForgets(x: Holdings, y: Holdings, a: Addr, lo: nat, hi: nat, last: Tx)
    requires Fine(a, ListOf(x.pending, a), ListOf(x.queue, a), lo, hi, x.all) && Holds(ListOf(x.pending, a), last)
    requires ListOf(y.pending, a) == ListOf(x.pending, a) - {last.nonce} && Elsewhere(x.pending, y.pending, a)
    requires y.queue == x.queue && y.all == x.all - {last}
    ensures Forgets(x, y) == true
  {
    var pend, que := ListOf(x.pending, a), ListOf(x.queue, a);
    AccountForgets(x, y, a, {last}, pend, que, pend - {last.nonce}, que);
  }

  /** One queued transaction is forgotten. */
  lemma RemoveForgets(x: Holdings, y: Holdings, a: Addr, lo: nat, hi: nat, tx: Tx)
    requires Fine(a, ListOf(x.pending, a), ListOf(x.queue, a), lo, hi, x.all) && Holds(ListOf(x.queue, a), tx)
    requires ListOf(y.queue, a) == ListOf(x.queue, a) - {tx.nonce} && Elsewhere(x.queue, y.queue, a)
    requires y.pending == x.pending && y.all == x.all - {tx}
    ensures Forgets(x, y) == true
  {
    var pend, que := ListOf(x.pending, a), ListOf(x.queue, a);
    AccountForgets(x, y, a, {tx}, pend, que, pend, que - {tx.nonce});
  }

  /** An empty list makes no difference. */
  lemma EmptyForgets(x: Holdings, a: Addr)
    requires ListOf(x.queue, a) == map[]
    ensures Forgets(x, x.(queue := x.queue - {a})) == true
  {
    AccountForgets(x, x.(queue := x.queue - {a}), a, {}, ListOf(x.pending, a), map[], ListOf(x.pending, a), map[]);
  }

  /** What moves from the queue to the pending list stays known. */
  lemma MoveForgets(x: Holdings, y: Holdings, a: Addr, lo: nat, hi: nat, rest: Txs, next: nat)
    requires Fine(a, ListOf(x.pending, a), ListOf(x.queue, a), lo, hi, x.all)
    requires Contiguous(ListOf(y.pending, a), lo, next)
    requires Promoted(x.pending, y.pending, a, ListOf(x.queue, a), rest, next)
    requires (forall n :: n in ListOf(x.queue, a) ==> n >= lo) && ListOf(y.queue, a) == rest
    requires Elsewhere(x.queue, y.queue, a) && y.all == x.all
    ensures Forgets(x, y) == true
  {
    assert Opened(0);
    var pend, que := ListOf(x.pending, a), ListOf(x.queue, a);
    TakenInElsewhere(x.pending, a, Before(que, next));
    assert ListOf(y.pending, a) == pend + Before(que, next);
    AccountForgets(x, y, a, {}, pend, que, pend + Before(que, next), rest);
  }

  // ---------------------------------------------------------------- a new head

  /** A transaction of a pending list that the chain has passed, or that the account cannot pay for or no block hold. */
  ghost predicate Spent(pend: Txs, nonce: nat, balance: nat, maxGas: nat, tx: Tx) {
    Holds(pend, tx) && (tx.nonce < nonce || Over(tx, balance, maxGas))
  }

  /** What filtering a pending list forgets. */
  lemma SpentGone(pend: Txs, nonce: nat, balance: nat, maxGas: nat, removed: seq<Tx>, drops: seq<Tx>, tx: Tx)
    requires Keyed(pend) && Lists(removed, pend - From(pend, nonce).Keys)
    requires Lists(drops, Where(From(pend, nonce), OverLimits(balance, maxGas)))
    ensures tx in removed || tx in drops <==> Spent(pend, nonce, balance, maxGas, tx)
  {
    ListsIn(removed, pend - From(pend, nonce).Keys, tx);
    ListsIn(drops, Where(From(pend, nonce), OverLimits(balance, maxGas)), tx);
  }

  ghost predicate PassedAt(x: Holdings, all: set<Tx>, nonceAt: Addr -> nat, balanceAt: Addr -> nat, maxGas: nat,
                           todo: set<Addr>, tx: Tx) {
    tx in all <==>
      && tx in x.all
      && (tx.sender in todo
          || !Spent(ListOf(x.pending, tx.sender), nonceAt(tx.sender), balanceAt(tx.sender), maxGas, tx))
  }

  /** Exactly what is spent is no longer known, but for the accounts that are still to be looked at. */
  ghost predicate Passed(x: Holdings, all: set<Tx>, nonceAt: Addr -> nat, balanceAt: Addr -> nat, maxGas: nat,
                         todo: set<Addr>) {
    forall k: int {:trigger Opened(k)} :: Sealed(k) ==>
      forall tx {:trigger PassedAt(x, all, nonceAt, balanceAt, maxGas, todo, tx)} ::
        PassedAt(x, all, nonceAt, balanceAt, maxGas, todo, tx)
  }

  lemma PassedStart(x: Holdings, nonceAt: Addr -> nat, balanceAt: Addr -> nat, maxGas: nat)
    ensures Passed(x, x.all, nonceAt, balanceAt, maxGas, x.pending.Keys) == true
  {
    assert Opened(0);
  }

  lemma PassedStep(x: Holdings, all: set<Tx>, all': set<Tx>, nonceAt: Addr -> nat, balanceAt: Addr -> nat, maxGas: nat,
                   todo: set<Addr>, a: Addr, pend: Txs)
    requires Passed(x, all, nonceAt, balanceAt, maxGas, todo) && a in todo && pend == ListOf(x.pending, a)
    requires forall tx :: Holds(pend, tx) ==> tx.sender == a
    requires forall tx :: tx in all' <==> tx in all && !Spent(pend, nonceAt(a), balanceAt(a), maxGas, tx)
    ensures Passed(x, all', nonceAt, balanceAt, maxGas, todo - {a}) == true
  {
    assert Opened(0);
    forall tx
      ensures PassedAt(x, all', nonceAt, balanceAt, maxGas, todo - {a}, tx)
    {
      assert PassedAt(x, all, nonceAt, balanceAt, maxGas, todo, tx);
    }
  }

  /** One account is demoted: it still has its lists from before, and those hold its own transactions. */
  lemma PassedNext(x: Holdings, pending: AccountLists, queue: AccountLists, all: set<Tx>, all': set<Tx>,
                   nonce0: Addr -> nat, managed0: map<Addr, nat>, nonceAt: Addr -> nat, balanceAt: Addr -> nat,
                   maxGas: nat, todo: set<Addr>, a: Addr)
    requires Split(x.pending, x.queue, pending, queue, nonceAt, balanceAt, maxGas, todo) == true && a in todo
    requires Demoting(pending, queue, nonce0, managed0, nonceAt, all, todo) == true
    requires Passed(x, all, nonceAt, balanceAt, maxGas, todo) == true && a in pending
    requires forall tx :: tx in all' <==> tx in all && !Spent(pending[a], nonceAt(a), balanceAt(a), maxGas, tx)
    ensures Passed(x, all', nonceAt, balanceAt, maxGas, todo - {a}) == true
  {
    assert SplitAt(x.pending, x.queue, pending, queue, nonceAt, balanceAt, maxGas, todo, a);
    assert DemotingAt(pending, queue, nonce0, managed0, nonceAt, all, todo, a);
    PassedStep(x, all, all', nonceAt, balanceAt, maxGas, todo, a, pending[a]);
  }

  /** With every account looked at: the known transactions are those from before that are not spent. */
  lemma PassedDone(x: Holdings, all: set<Tx>, nonceAt: Addr -> nat, balanceAt: Addr -> nat, maxGas: nat)
    requires Passed(x, all, nonceAt, balanceAt, maxGas, {})
    ensures all == Unspent(x, nonceAt, balanceAt, maxGas)
  {
    assert Opened(0);
    forall tx
      ensures tx in all <==> tx in Unspent(x, nonceAt, balanceAt, maxGas)
    {
      assert PassedAt(x, all, nonceAt, balanceAt, maxGas, {}, tx);
    }
  }

  ghost function Unspent(x: Holdings, nonceAt: Addr -> nat, balanceAt: Addr -> nat, maxGas: nat): set<Tx> {
    set tx | tx in x.all
             && !Spent(ListOf(x.pending, tx.sender), nonceAt(tx.sender), balanceAt(tx.sender), maxGas, tx)
  }
}
