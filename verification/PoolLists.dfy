/**
 What promotion and the limits of the transaction pool (core/tx_pool.go) make of all lists at once: which transactions
 become pending, which stay, and which go.
 */
module PoolLists {
  import opened Shared
  import opened TxList
  import opened PoolState

  // ---------------------------------------------------------------- promotion

  /**
   An account's lists brought up to date: of its queue, what is too old or cannot be paid for is gone; what has become
   executable is pending; and the rest is within its limit.  Closed.
   */
  ghost predicate Renewed(pend0: Txs, que0: Txs, pend: Txs, que: Txs, nonce: nat, balance: nat, maxGas: nat,
                          local: bool, limit: nat, next: nat) {
    forall k: int {:trigger Opened(k)} :: Sealed(k) ==>
      RenewedBy(pend0, Affordable(From(que0, nonce), false, balance, maxGas), pend, que, next, local, limit)
  }

  /** Of `q`, what lies below `next` has become pending, that is missing, and the rest is within its limit. */
  ghost predicate RenewedBy(pend0: Txs, q: Txs, pend: Txs, que: Txs, next: nat, local: bool, limit: nat) {
    pend == pend0 + Before(q, next) && next !in q && Trimmed(From(q, next), que, local, limit)
  }

  ghost predicate RenewedAt(pending0: AccountLists, queue0: AccountLists, pending: AccountLists, queue: AccountLists,
                            t: Terms, locals: set<Addr>, limit: nat, ends: map<Addr, nat>, a: Addr) {
    if a in ends then
      && Renewed(ListOf(pending0, a), ListOf(queue0, a), ListOf(pending, a), ListOf(queue, a), t.nonceAt(a),
                 t.balanceAt(a), t.maxGas, a in locals, limit, ends[a])
      && Contiguous(ListOf(pending, a), t.nonceAt(a), ends[a])
    else ListOf(pending, a) == ListOf(pending0, a) && ListOf(queue, a) == ListOf(queue0, a)
  }

  /** The accounts in `ends` are up to date, each with its pending nonce, and all others are as they were. */
  ghost predicate RenewedAll(pending0: AccountLists, queue0: AccountLists, pending: AccountLists, queue: AccountLists,
                             t: Terms, locals: set<Addr>, limit: nat, ends: map<Addr, nat>) {
    forall a {:trigger RenewedAt(pending0, queue0, pending, queue, t, locals, limit, ends, a)} ::
      RenewedAt(pending0, queue0, pending, queue, t, locals, limit, ends, a)
  }

  /** One account has been brought up to date. */
  ghost predicate RenewsOne(pending0: AccountLists, queue0: AccountLists, pending: AccountLists, queue: AccountLists,
                            t: Terms, locals: set<Addr>, limit: nat, a: Addr, next: nat) {
    && Renewed(ListOf(pending0, a), ListOf(queue0, a), ListOf(pending, a), ListOf(queue, a), t.nonceAt(a),
               t.balanceAt(a), t.maxGas, a in locals, limit, next)
    && Contiguous(ListOf(pending, a), t.nonceAt(a), next)
    && Elsewhere(pending0, pending, a) && Elsewhere(queue0, queue, a)
  }

  lemma RenewedNone(pending: AccountLists, queue: AccountLists, t: Terms, locals: set<Addr>, limit: nat)
    ensures RenewedAll(pending, queue, pending, queue, t, locals, limit, map[]) == true
  {
    forall a
      ensures RenewedAt(pending, queue, pending, queue, t, locals, limit, map[], a)
    {
    }
  }

  /** The next account; one that was up to date already stays as it is. */
  lemma RenewedStep(pending0: AccountLists, queue0: AccountLists, pending1: AccountLists, queue1: AccountLists,
                    pending: AccountLists, queue: AccountLists, t: Terms, locals: set<Addr>, limit: nat,
                    ends: map<Addr, nat>, a: Addr, next: nat) returns (ends': map<Addr, nat>)
    requires RenewedAll(pending0, queue0, pending1, queue1, t, locals, limit, ends) == true
    requires RenewsOne(pending1, queue1, pending, queue, t, locals, limit, a, next) == true
    ensures ends'.Keys == ends.Keys + {a}
    ensures RenewedAll(pending0, queue0, pending, queue, t, locals, limit, ends') == true
  {
    ends' := if a in ends then ends else ends[a := next];
    assert RenewedAt(pending0, queue0, pending1, queue1, t, locals, limit, ends, a);
    if a in ends {
      RenewedSame(ListOf(pending0, a), ListOf(queue0, a), ListOf(pending1, a), ListOf(queue1, a), ListOf(pending, a),
                  ListOf(queue, a), t.nonceAt(a), t.balanceAt(a), t.maxGas, a in locals, limit, ends[a], next);
    }
    forall b
      ensures RenewedAt(pending0, queue0, pending, queue, t, locals, limit, ends', b)
    {
      assert RenewedAt(pending0, queue0, pending1, queue1, t, locals, limit, ends, b);
      if b != a {
        assert ListOf(pending, b) == ListOf(pending1, b) && ListOf(queue, b) == ListOf(queue1, b);
      }
    }
  }

  lemma UpdatedOne(pending0: AccountLists, queue0: AccountLists, pending: AccountLists, queue: AccountLists, a: Addr,
                   m: Txs, t: Terms, next: nat, locals: set<Addr>, limit: nat, que0: Txs, nonce: nat, balance: nat,
                   local: bool)
    requires Updated(pending0, que0, pending, m, a, nonce, balance, t.maxGas, next, local, limit)
    requires que0 == ListOf(queue0, a) && nonce == t.nonceAt(a) && balance == t.balanceAt(a) && local == (a in locals)
    requires queue == Stored(queue0, a, m)
    ensures Renewed(ListOf(pending0, a), que0, ListOf(pending, a), ListOf(queue, a), nonce, balance, t.maxGas, local,
                    limit, next) == true
    ensures Elsewhere(pending0, pending, a) == true && Elsewhere(queue0, queue, a) == true
  {
    assert Opened(0);
    var q := Affordable(From(que0, nonce), false, balance, t.maxGas);
    UpdatedLists(pending0, queue0, pending, queue, a, m, q, next, local, limit);
  }

  lemma UpdatedLists(pending0: AccountLists, queue0: AccountLists, pending: AccountLists, queue: AccountLists, a: Addr,
                     m: Txs, q: Txs, next: nat, local: bool, limit: nat)
    requires Promoted(pending0, pending, a, q, From(q, next), next) && queue == Stored(queue0, a, m)
    requires Trimmed(From(q, next), m, local, limit)
    ensures RenewedBy(ListOf(pending0, a), q, ListOf(pending, a), ListOf(queue, a), next, local, limit) == true
    ensures Elsewhere(pending0, pending, a) == true && Elsewhere(queue0, queue, a) == true
  {
    assert Opened(0);
    StoredElsewhere(queue0, a, m);
    TakenInElsewhere(pending0, a, Before(q, next));
  }

  /** A queue with nothing too old, over a limit, or executable, and within its own limit. */
  ghost predicate UpToDate(que: Txs, next: nat, nonce: nat, balance: nat, maxGas: nat, local: bool, limit: nat) {
    && nonce <= next && (forall n :: n in que ==> n > next && !Over(que[n], balance, maxGas))
    && (!local ==> |que| <= limit)
  }

  lemma RenewedUpToDate(pend0: Txs, que0: Txs, pend: Txs, que: Txs, nonce: nat, balance: nat, maxGas: nat, local: bool,
                        limit: nat, next: nat)
    requires Renewed(pend0, que0, pend, que, nonce, balance, maxGas, local, limit, next) && nonce <= next
    ensures UpToDate(que, next, nonce, balance, maxGas, local, limit) == true
  {
    assert Opened(0);
    RestUpToDate(pend0, From(que0, nonce), pend, que, next, local, limit, nonce, balance, maxGas);
  }

  lemma RenewedSame(pend0: Txs, que0: Txs, pend1: Txs, que1: Txs, pend: Txs, que: Txs, nonce: nat, balance: nat,
                    maxGas: nat, local: bool, limit: nat, next: nat, next': nat)
    requires Renewed(pend0, que0, pend1, que1, nonce, balance, maxGas, local, limit, next) == true
    requires Renewed(pend1, que1, pend, que, nonce, balance, maxGas, local, limit, next') == true
    requires Contiguous(pend1, nonce, next) == true && Contiguous(pend, nonce, next') == true
    ensures pend == pend1 && que == que1
  {
    RenewedUpToDate(pend0, que0, pend1, que1, nonce, balance, maxGas, local, limit, next);
    RenewedAgain(pend1, que1, pend, que, nonce, balance, maxGas, local, limit, next, next');
  }

  lemma RestUpToDate(pend0: Txs, list: Txs, pend: Txs, que: Txs, next: nat, local: bool, limit: nat, nonce: nat,
                     balance: nat, maxGas: nat)
    requires RenewedBy(pend0, Affordable(list, false, balance, maxGas), pend, que, next, local, limit) == true
    requires nonce <= next
    ensures UpToDate(que, next, nonce, balance, maxGas, local, limit) == true
  {
  }

  /** An account that is up to date stays as it is. */
  lemma RenewedAgain(pend0: Txs, que0: Txs, pend: Txs, que: Txs, nonce: nat, balance: nat, maxGas: nat, local: bool,
                     limit: nat, next: nat, next': nat)
    requires UpToDate(que0, next, nonce, balance, maxGas, local, limit)
    requires Renewed(pend0, que0, pend, que, nonce, balance, maxGas, local, limit, next')
    requires Contiguous(pend0, nonce, next) && Contiguous(pend, nonce, next')
    ensures pend == pend0 && que == que0
  {
    assert Opened(0);
    AllStay(que0, next, nonce, balance, maxGas, local, limit);
    NothingMore(pend0, que0, pend, que, nonce, next, next', local, limit);
  }

  lemma AllStay(que: Txs, next: nat, nonce: nat, balance: nat, maxGas: nat, local: bool, limit: nat)
    requires UpToDate(que, next, nonce, balance, maxGas, local, limit)
    ensures Affordable(From(que, nonce), false, balance, maxGas) == que
  {
    assert From(que, nonce) == que;
  }

  lemma NothingMore(pend0: Txs, q: Txs, pend: Txs, que: Txs, nonce: nat, next: nat, next': nat, local: bool, limit: nat)
    requires Contiguous(pend0, nonce, next) && Contiguous(pend, nonce, next')
    requires RenewedBy(pend0, q, pend, que, next', local, limit) && (!local ==> |q| <= limit)
    requires forall n :: n in q ==> n > next
    ensures pend == pend0 && que == q
  {
    assert next in pend <==> next' > next;
    assert Before(q, next') == map[];
    assert From(q, next') == q;
    CappedWhole(q, que, local, limit);
  }

  lemma CappedWhole(que: Txs, m: Txs, local: bool, limit: nat)
    requires Trimmed(que, m, local, limit) && (!local ==> |que| <= limit)
    ensures m == que
  {
    if !local {
      assert m.Keys <= que.Keys && |m.Keys| == |que.Keys|;
      SameSize(m.Keys, que.Keys);
    }
  }

  lemma SameSize(a: set<nat>, b: set<nat>)
    requires a <= b && |a| == |b|
    ensures a == b
  {
    assert b == a + (b - a);
  }

  // ---------------------------------------------------------------- the limit of the queue

  ghost predicate WholeOrNone(start: AccountLists, now: AccountLists, a: Addr) {
    ListOf(now, a) == ListOf(start, a) || ListOf(now, a) == map[]
  }

  /** Local queues are untouched; others keep their lowest nonces, and all but one account keep all or nothing. */
  ghost predicate QueueCut(start: AccountLists, now: AccountLists, locals: set<Addr>) {
    && (forall a {:trigger ListOf(now, a)} :: a in locals ==> ListOf(now, a) == ListOf(start, a))
    && (forall a {:trigger ListOf(now, a)} :: Capped(ListOf(start, a), ListOf(now, a), |ListOf(now, a)|))
    && forall a, b :: a != b ==> WholeOrNone(start, now, a) || WholeOrNone(start, now, b)
  }

  /** A queue within its limit is left alone; another one is cut to exactly the limit, or to what is local. */
  ghost predicate QueueLimited(start: AccountLists, now: AccountLists, locals: set<Addr>, limit: nat) {
    && QueueCut(start, now, locals)
    && (Total(start) <= limit ==> now == start)
    && (Total(start) > limit ==> Total(now) == limit || forall a :: a !in locals ==> ListOf(now, a) == map[])
  }

  /** The accounts still to be looked at, and local ones, are as at the start; the others as well, or they are empty. */
  ghost predicate Cutting(start: AccountLists, now: AccountLists, addresses: seq<Addr>, locals: set<Addr>) {
    && (forall a {:trigger ListOf(now, a)} :: a in locals || a in addresses ==> ListOf(now, a) == ListOf(start, a))
    && (forall a {:trigger ListOf(now, a)} :: WholeOrNone(start, now, a))
    && (forall i, j :: 0 <= i < j < |addresses| ==> addresses[i] != addresses[j])
    && forall i :: 0 <= i < |addresses| ==> addresses[i] !in locals
  }

  lemma CuttingStarts(start: AccountLists, addresses: seq<Addr>, locals: set<Addr>)
    requires forall i, j :: 0 <= i < j < |addresses| ==> addresses[i] != addresses[j]
    requires forall i :: 0 <= i < |addresses| ==> addresses[i] !in locals
    ensures Cutting(start, start, addresses, locals) == true
  {
    forall a
      ensures WholeOrNone(start, start, a)
    {
    }
  }

  lemma CuttingClears(start: AccountLists, now: AccountLists, now': AccountLists, addresses: seq<Addr>, rest: seq<Addr>,
                      a: Addr, locals: set<Addr>)
    requires Cutting(start, now, addresses, locals) && addresses == rest + [a]
    requires ListOf(now', a) == map[] && Elsewhere(now, now', a)
    ensures Cutting(start, now', rest, locals) == true
  {
    assert addresses[|rest|] == a && a !in locals && forall i :: 0 <= i < |rest| ==> rest[i] == addresses[i];
    forall b
      ensures WholeOrNone(start, now', b) && (b in locals || b in rest ==> ListOf(now', b) == ListOf(start, b))
    {
      if b != a {
        assert ListOf(now', b) == ListOf(now, b);
      }
    }
  }

  lemma CuttingDone(start: AccountLists, now: AccountLists, addresses: seq<Addr>, locals: set<Addr>)
    requires Cutting(start, now, addresses, locals)
    ensures QueueCut(start, now, locals) == true
  {
    forall a
      ensures WholeOrNone(start, now, a) && Capped(ListOf(start, a), ListOf(now, a), |ListOf(now, a)|)
    {
      assert ListOf(now, a) == ListOf(now, a);
    }
  }

  lemma CuttingShortens(start: AccountLists, now: AccountLists, now': AccountLists, addresses: seq<Addr>, a: Addr,
                        locals: set<Addr>, size: nat)
    requires Cutting(start, now, addresses, locals) && a in addresses && Elsewhere(now, now', a)
    requires Capped(ListOf(now, a), ListOf(now', a), size) && size <= |ListOf(now, a)|
    ensures QueueCut(start, now', locals) == true
  {
    forall b
      ensures b != a ==> WholeOrNone(start, now', b)
      ensures Capped(ListOf(start, b), ListOf(now', b), |ListOf(now', b)|)
      ensures b in locals ==> ListOf(now', b) == ListOf(start, b)
    {
      if b != a {
        assert ListOf(now', b) == ListOf(now, b) && WholeOrNone(start, now, b);
      }
    }
  }

  // ---------------------------------------------------------------- all of it

  /** The lists after promotion and before the limits, the new pending nonces, and the level of the equaliser. */
  datatype Mid = Mid(pending: AccountLists, queue: AccountLists, ends: map<Addr, nat>, level: nat)

  /** Promotion of the accounts in `mid.ends`, fair shares of the pending lists, and the limit of the queue; closed. */
  ghost predicate Promotion(pending0: AccountLists, queue0: AccountLists, mid: Mid, pending: AccountLists,
                            queue: AccountLists, t: Terms, locals: set<Addr>, config: Config) {
    forall k: int {:trigger Opened(k)} :: Sealed(k) ==>
      && RenewedAll(pending0, queue0, mid.pending, mid.queue, t, locals, config.accountQueue, mid.ends)
      && Equalised(mid.pending, locals, pending, mid.level, config.accountSlots, config.globalSlots)
      && QueueLimited(mid.queue, queue, locals, config.globalQueue)
  }

  lemma IsPromotion(pending0: AccountLists, queue0: AccountLists, mid: Mid, pending: AccountLists, queue: AccountLists,
                    t: Terms, locals: set<Addr>, config: Config)
    requires RenewedAll(pending0, queue0, mid.pending, mid.queue, t, locals, config.accountQueue, mid.ends) == true
    requires Equalised(mid.pending, locals, pending, mid.level, config.accountSlots, config.globalSlots) == true
    requires QueueLimited(mid.queue, queue, locals, config.globalQueue) == true
    ensures Promotion(pending0, queue0, mid, pending, queue, t, locals, config) == true
  {
  }
}
