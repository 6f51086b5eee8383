/**
 The transaction pool (core/tx_pool.go): executable transactions per account in `pending`, others in
 `queue`, all of them in `all` and in the price index.

 The pool keeps each account's list by its contents, and an operation on a list is that list's own
 method.  Chain state enters as the nonce and balance of each account and the block gas limit.
 */
module TxPool {
  import opened TxList
  import opened PoolState
  import opened PoolLists
  import opened PoolKnown
  import P = PricedList
  import opened Shared

  /** The numbers by which the closed predicates are opened. */
  const POOL := -1
  const SETTLED := -2
  const COUNTED := -3

  class TxPool {
    const config: Config
    const priced: P.PricedList
    var gasPrice: nat
    var locals: set<Addr>
    var nonceAt: Addr -> nat
    var balanceAt: Addr -> nat
    var maxGas: nat
    var managed: map<Addr, nat>
    var pending: AccountLists
    var queue: AccountLists
    var all: set<Tx>
    ghost var dirty: set<Addr>

    /** The price index covers what is known and not about to be dropped, and was told of all that came and went. */
    ghost predicate Indexed(drops: set<Tx>)
      reads this, priced
    {
      priced.Valid(all - drops) && priced.told == all
    }

    /** The pool's invariant, but for transactions that are about to be dropped. */
    ghost predicate Valid(drops: set<Tx>)
      reads this, priced
    {
      && Sound(pending, queue, nonceAt, managed, all)
      && Exhausted(queue, nonceAt, managed, dirty)
      && Indexed(drops)
      && Floored(all - drops, gasPrice, locals)
    }

    /** The invariant in full, closed: methods that only pass it on do not look inside. */
    ghost predicate Kept()
      reads this, priced
    {
      forall k: int {:trigger Opened(k)} :: Sealed(k) && k == POOL ==> Valid({})
    }

    lemma Open()
      requires Kept() == true
      ensures Valid({})
    {
      assert Opened(POOL);
    }

    constructor (config: Config, priceLimit: nat, nonceAt: Addr -> nat, balanceAt: Addr -> nat, maxGas: nat)
      ensures Kept() == true && pending == map[] && queue == map[] && all == {} && fresh(priced)
      ensures this.nonceAt == nonceAt && gasPrice == priceLimit && this.config == config && dirty == {}
      ensures this.balanceAt == balanceAt && this.maxGas == maxGas && locals == {}
    {
      this.config := config;
      priced := new P.PricedList();
      gasPrice, locals := priceLimit, {};
      this.nonceAt, this.balanceAt, this.maxGas := nonceAt, balanceAt, maxGas;
      managed, pending, queue, all, dirty := map[], map[], map[], {}, {};
      new;
      assert Opened(POOL);
    }

    /** Insert into the queue. */
    method EnqueueTx(tx: Tx, ghost drops: set<Tx>) returns (inserted: bool, replaced: bool)
      requires Indexed(drops) && Keyed(ListOf(queue, tx.sender))
      modifies this`queue, this`all, priced
      ensures Indexed(drops)
      ensures var que := ListOf(old(queue), tx.sender);
              && replaced == (inserted && tx.nonce in que)
              && inserted == (tx.nonce in que ==> Outbids(que[tx.nonce], tx, config.priceBump))
              && (inserted ==> queue == old(queue)[tx.sender := que[tx.nonce := tx]])
              && (inserted ==> all == old(all) - (if tx.nonce in que then {que[tx.nonce]} else {}) + {tx})
              && (!inserted ==> queue == old(queue) && all == old(all))
    {
      var from := tx.sender;
      var prior, list;
      inserted, prior, list := Adding(false, ListOf(queue, from), tx, config.priceBump);
      if !inserted {
        return false, false;
      }
      queue := queue[from := list];
      if prior.Some? {
        all := all - {prior.tx};
        priced.Removed(all, all - drops, prior.tx);
      }
      priced.Put(tx, all - drops);
      all := all + {tx};
      replaced := prior.Some?;
    }

    /** Queue transactions that a pending list gave up; none of their nonces is queued. */
    method Postpone(txs: seq<Tx>, a: Addr, ghost m: Txs, ghost drops: set<Tx>)
      requires Indexed(drops) == true && Keyed(ListOf(queue, a)) && Lists(txs, m) == true
      requires Owned(m, a, all) == true
      requires m.Keys !! ListOf(queue, a).Keys
      modifies this`queue, this`all, priced
      ensures Indexed(drops) == true && all == old(all) && queue == TakenIn(old(queue), a, m)
    {
      ghost var done: Txs := map[];
      for i := 0 to |txs|
        invariant Indexed(drops) == true && all == old(all) && Lists(txs[..i], done) == true
        invariant queue == TakenIn(old(queue), a, done) && Keyed(ListOf(queue, a))
      {
        ListsIn(txs, m, txs[i]);
        ListsDistinct(txs, m, i, done);
        TakenInOne(old(queue), a, done, txs[i]);
        PostponeOne(txs[i], drops);
        Listed(txs[..i], done, txs[i]);
        assert txs[..i + 1] == txs[..i] + [txs[i]];
        done := done[txs[i].nonce := txs[i]];
      }
      assert txs[..|txs|] == txs;
      ListsSame(txs, done, m);
    }

    method PostponeOne(tx: Tx, ghost drops: set<Tx>)
      requires Indexed(drops) && Keyed(ListOf(queue, tx.sender)) && tx in all
      requires tx.nonce !in ListOf(queue, tx.sender)
      modifies this`queue, this`all, priced
      ensures Indexed(drops) == true && all == old(all) && Keyed(ListOf(queue, tx.sender))
      ensures queue == old(queue)[tx.sender := ListOf(old(queue), tx.sender)[tx.nonce := tx]]
    {
      var inserted, replaced := EnqueueTx(tx, drops);
    }

    /** Remove a transaction from its list; what depended on it moves to the queue. */
    method RemoveTx(tx: Tx, ghost drops: set<Tx>)
      requires Valid(drops)
      modifies this`pending, this`queue, this`managed, this`all, priced
      ensures Valid(drops) == true && all == old(all) - {tx} && Here() == Without(old(Here()), tx)
      ensures tx !in old(all) ==> pending == old(pending) && queue == old(queue) && managed == old(managed)
      ensures tx in old(all) && tx.nonce !in ListOf(old(pending), tx.sender) ==>
                && pending == old(pending) && managed == old(managed)
                && queue == Stored(old(queue), tx.sender, ListOf(old(queue), tx.sender) - {tx.nonce})
      ensures tx in old(all) && tx.nonce in ListOf(old(pending), tx.sender) ==>
                && var kept := Before(ListOf(old(pending), tx.sender), tx.nonce);
                && pending == Stored(old(pending), tx.sender, kept)
                && managed == old(managed)[tx.sender := tx.nonce]
                && queue == if kept == map[] then old(queue)
                            else TakenIn(old(queue), tx.sender, From(ListOf(old(pending), tx.sender), tx.nonce + 1))
    {
      if tx !in all {
        return;
      }
      assert FineAt(pending, queue, nonceAt, managed, all, tx.sender);
      all := all - {tx};
      priced.Removed(all, all - drops, tx);
      if tx.sender in pending && tx.nonce in pending[tx.sender] {
        RemovePending(tx, drops);
        PendingRemoved(old(pending), old(queue), nonceAt, old(managed), old(all), dirty, pending, queue, tx);
      } else {
        RemoveQueued(tx);
        QueuedRemoved(old(pending), old(queue), nonceAt, old(managed), old(all), dirty, queue, tx);
      }
      IsWithout(old(Here()), Here(), tx, Before(ListOf(old(pending), tx.sender), tx.nonce));
    }

    method RemovePending(tx: Tx, ghost drops: set<Tx>)
      requires tx.sender in pending && tx.nonce in pending[tx.sender] && tx !in all && Indexed(drops)
      requires FineAt(pending, queue, nonceAt, managed, all + {tx}, tx.sender)
      modifies this`pending, this`queue, this`managed, this`all, priced
      ensures Indexed(drops) && all == old(all)
      ensures var kept := Before(old(pending)[tx.sender], tx.nonce);
              && pending == Stored(old(pending), tx.sender, kept)
              && managed == old(managed)[tx.sender := tx.nonce]
              && queue == if kept == map[] then old(queue)
                          else TakenIn(old(queue), tx.sender, From(old(pending)[tx.sender], tx.nonce + 1))
    {
      var addr := tx.sender;
      var found, invalids, list := Removing(true, pending[addr], tx);
      if list == map[] {
        pending := pending - {addr};
      } else {
        pending := pending[addr := list];
        Postpone(invalids, addr, From(old(pending)[addr], tx.nonce + 1), drops);
      }
      if Next(nonceAt, managed, addr) > tx.nonce {
        managed := managed[addr := tx.nonce];
      }
    }

    method RemoveQueued(tx: Tx)
      requires Keyed(ListOf(queue, tx.sender))
      modifies this`queue
      ensures queue == Stored(old(queue), tx.sender, ListOf(old(queue), tx.sender) - {tx.nonce})
    {
      var addr := tx.sender;
      if addr in queue {
        var found, invalids, list := Removing(false, queue[addr], tx);
        assert !found ==> list == queue[addr] - {tx.nonce};
        queue := if list == map[] then queue - {addr} else queue[addr := list];
      } else {
        assert ListOf(queue, addr) - {tx.nonce} == map[];
      }
    }

    /** Remove transactions that the price index has already given up. */
    method DropAll(txs: seq<Tx>)
      requires Valid(P.AsSet(txs))
      modifies this`pending, this`queue, this`managed, this`all, priced
      ensures Valid({}) == true && all == old(all) - P.AsSet(txs) && Here() == Changed(old(Here()), Drops(txs))
    {
      ghost var drops, x := P.AsSet(txs), Here();
      for i := 0 to |txs|
        invariant Valid(drops) == true && all == x.all - P.AsSet(txs[..i])
        invariant Here() == Changed(x, Drops(txs[..i]))
      {
        RemoveTx(txs[i], drops);
        assert txs[..i + 1] == txs[..i] + [txs[i]];
        DropsMore(x, txs, i);
      }
      assert txs[..|txs|] == txs;
      assert all - drops == all - {};
    }

    /** Raise or lower the price floor; what is below it goes, unless it is local. */
    method SetGasPrice(price: nat) returns (ghost drop: seq<Tx>)
      requires Kept() == true
      modifies this, priced
      ensures Here() == Changed(old(Here()), Drops(drop))
      ensures P.AsSet(drop) == set tx | tx in old(all) && tx.price < price && tx.sender !in locals
      ensures Kept() == true && gasPrice == price && dirty == old(dirty)
      ensures all == set tx | tx in old(all) && (tx.price >= price || tx.sender in locals)
      ensures locals == old(locals) && nonceAt == old(nonceAt) && balanceAt == old(balanceAt) && maxGas == old(maxGas)
    {
      Open();
      gasPrice := price;
      assert all - {} == all;
      var below := priced.Cap(price, locals, all);
      drop := below;
      DropAll(below);
    }

    /** The checks a transaction must pass; `wellFormed` stands for size, value, signature and intrinsic gas. */
    predicate Validates(tx: Tx, local: bool, wellFormed: bool)
      reads this
    {
      && wellFormed && tx.gas <= maxGas
      && (local || tx.sender in locals || tx.price >= gasPrice)
      && tx.nonce >= nonceAt(tx.sender)
      && tx.cost <= balanceAt(tx.sender)
    }

    /** A pool with room takes in what is new, valid, and not outbid by what has its nonce. */
    predicate Accepts(tx: Tx, local: bool, wellFormed: bool)
      reads this
    {
      tx !in all && Validates(tx, local, wellFormed) && Beats(pending, queue, tx, config.priceBump)
    }

    /** Validate a transaction and put it in place of a pending one, or into the queue. */
    method Add(tx: Tx, local: bool, wellFormed: bool) returns (ok: bool, replace: bool, ghost gone: seq<Tx>)
      requires Valid({})
      modifies this, priced
      ensures Valid({}) == true
      ensures all <= old(all) + {tx} && (ok ==> tx in all && tx !in old(all))
      ensures ok ==> wellFormed && old(nonceAt)(tx.sender) <= tx.nonce && tx.cost <= old(balanceAt)(tx.sender)
                     && tx.gas <= old(maxGas) && (local || tx.sender in old(locals) || tx.price >= old(gasPrice))
      ensures (&& |old(all)| < config.globalSlots + config.globalQueue && tx !in old(all) && wellFormed
               && old(nonceAt)(tx.sender) <= tx.nonce && tx.cost <= old(balanceAt)(tx.sender) && tx.gas <= old(maxGas)
               && (local || tx.sender in old(locals) || tx.price >= old(gasPrice)) && !old(Occupied(Here(), tx)))
              ==> ok
      ensures ok ==> old(Validates(tx, local, wellFormed))
                     && (Holds(ListOf(pending, tx.sender), tx) || Holds(ListOf(queue, tx.sender), tx))
      ensures |old(all)| < config.globalSlots + config.globalQueue ==> ok == old(Accepts(tx, local, wellFormed))
      ensures ok && |old(all)| < config.globalSlots + config.globalQueue ==>
                Placed(old(pending), old(queue), old(all), old(locals), pending, queue, all, locals, tx, local) == true
      ensures !ok && |old(all)| < config.globalSlots + config.globalQueue ==>
                pending == old(pending) && queue == old(queue) && all == old(all) && locals == old(locals)
      ensures locals == old(locals) || (local && locals == old(locals) + {tx.sender})
      ensures dirty == if ok && !replace then old(dirty) + {tx.sender} else old(dirty)
      ensures gasPrice == old(gasPrice) && nonceAt == old(nonceAt) && balanceAt == old(balanceAt)
      ensures maxGas == old(maxGas)
      ensures ok && |old(all)| >= config.globalSlots + config.globalQueue && old(all) != {}
              && tx.sender !in old(locals) ==>
                exists t :: t in old(all) && t.price < tx.price
      ensures Inserted(old(Here()), Here(), config, tx, local,
                       Checked(old(Here()), old(TermsNow()), tx, local, wellFormed), gone, ok, replace) == true
    {
      gone := [];
      ghost var checked := Checked(Here(), TermsNow(), tx, local, wellFormed);
      assert checked <==> tx !in all && Validates(tx, local, wellFormed);
      if tx in all || !Validates(tx, local, wellFormed) {
        Refused(Here(), config, tx, local, checked);
        return false, false, gone;
      }
      ok, replace, gone := Insert(tx, local);
    }

    /** Make room if the pool is full, then place a valid transaction. */
    method Insert(tx: Tx, local: bool) returns (ok: bool, replace: bool, ghost gone: seq<Tx>)
      requires Valid({}) == true && tx !in all && (local || tx.sender in locals || tx.price >= gasPrice)
      modifies this`pending, this`queue, this`managed, this`all, this`locals, this`dirty, priced
      ensures Valid({}) == true && all <= old(all) + {tx} && (ok ==> tx in all)
      ensures ok ==> Holds(ListOf(pending, tx.sender), tx) || Holds(ListOf(queue, tx.sender), tx)
      ensures |old(all)| < config.globalSlots + config.globalQueue ==>
                ok == Beats(old(pending), old(queue), tx, config.priceBump)
      ensures ok && |old(all)| < config.globalSlots + config.globalQueue ==>
                Placed(old(pending), old(queue), old(all), old(locals), pending, queue, all, locals, tx, local) == true
      ensures !ok && |old(all)| < config.globalSlots + config.globalQueue ==>
                pending == old(pending) && queue == old(queue) && all == old(all) && locals == old(locals)
      ensures locals == old(locals) || (local && locals == old(locals) + {tx.sender})
      ensures dirty == if ok && !replace then old(dirty) + {tx.sender} else old(dirty)
      ensures ok && |old(all)| >= config.globalSlots + config.globalQueue && old(all) != {}
              && tx.sender !in old(locals) ==>
                exists t :: t in old(all) && t.price < tx.price
      ensures Inserted(old(Here()), Here(), config, tx, local, true,
                       gone, ok, replace) == true
    {
      gone := [];
      ghost var x := Here();
      if |all| >= config.globalSlots + config.globalQueue {
        ok, gone := MakeRoom(tx);
        if !ok {
          Refused(x, config, tx, local, true);
          return false, false, gone;
        }
      }
      ghost var pending0, queue0, all0, y := pending, queue, all, Here();
      ok, replace := Place(tx, local);
      if ok {
        PlacedParts(pending0, queue0, all0, old(locals), pending, queue, all, locals, tx, local);
      }
      Admitted(x, y, Here(), config, tx, local, gone, ok, replace);
    }

    /** A full pool gives up its cheapest transactions, unless the new one is no better than those. */
    method MakeRoom(tx: Tx) returns (ok: bool, ghost gone: seq<Tx>)
      requires Valid({}) && |all| >= config.globalSlots + config.globalQueue
      modifies this`pending, this`queue, this`managed, this`all, priced
      ensures Valid({}) == true && all <= old(all)
      ensures ok ==>
                CheapestGone(old(all), all, locals, |old(all)| + 1 - config.globalSlots - config.globalQueue) == true
      ensures ok <==> tx.sender in locals || old(all) == {} || exists t :: t in old(all) && t.price < tx.price
      ensures !ok ==> all == old(all) && pending == old(pending) && queue == old(queue) && managed == old(managed)
      ensures Here() == Changed(old(Here()), Drops(gone)) && (!ok ==> gone == [])
      ensures ok == Admits(old(Here()), tx, Capacity(config))
    {
      gone := [];
      assert all - {} == all;
      var under := priced.Underpriced(tx, locals, all);
      if under {
        return false, gone;
      }
      gone := DropCheapest();
      ok := true;
    }

    /** Give up the cheapest transactions, to have room for one. */
    method DropCheapest() returns (ghost gone: seq<Tx>)
      requires Valid({}) == true && |all| >= config.globalSlots + config.globalQueue
      modifies this`pending, this`queue, this`managed, this`all, priced
      ensures Valid({}) == true && all <= old(all) && Here() == Changed(old(Here()), Drops(gone))
      ensures CheapestGone(old(all), all, locals, |old(all)| + 1 - config.globalSlots - config.globalQueue) == true
    {
      assert all - {} == all;
      var drop := priced.Discard(|all| - (config.globalSlots + config.globalQueue - 1), locals, all);
      Discarded(drop, locals, all, |all| + 1 - config.globalSlots - config.globalQueue);
      DropAll(drop);
      gone := drop;
    }

    method Place(tx: Tx, local: bool) returns (ok: bool, replace: bool)
      requires Valid({}) && tx !in all && (local || tx.sender in locals || tx.price >= gasPrice)
      modifies this`pending, this`queue, this`all, this`locals, this`dirty, priced
      ensures Valid({}) == true && ok == Beats(old(pending), old(queue), tx, config.priceBump)
      ensures if ok then
                Placed(old(pending), old(queue), old(all), old(locals), pending, queue, all, locals, tx, local) == true
              else pending == old(pending) && queue == old(queue) && all == old(all) && locals == old(locals)
      ensures dirty == if ok && !replace then old(dirty) + {tx.sender} else old(dirty)
      ensures ok ==> (replace <==> Occupied(old(Here()), tx))
    {
      assert FineAt(pending, queue, nonceAt, managed, all, tx.sender);
      if tx.sender in pending && tx.nonce in pending[tx.sender] {
        ok := Replace(tx);
        return ok, ok;
      }
      ghost var que := ListOf(queue, tx.sender);
      ok, replace := EnqueueTx(tx, {});
      if !ok {
        return false, false;
      }
      EntersQueue(old(pending), old(queue), nonceAt, managed, old(all), tx);
      if !replace {
        dirty := dirty + {tx.sender};
      }
      EntersDirty(old(queue), nonceAt, managed, old(dirty), tx, dirty);
      if local {
        locals := locals + {tx.sender};
      }
    }

    /** A better paying transaction takes the place of a pending one; its sender is not marked as local. */
    method Replace(tx: Tx) returns (ok: bool)
      requires Valid({}) && tx !in all && tx.sender in pending && tx.nonce in pending[tx.sender]
      modifies this`pending, this`all, priced
      ensures Valid({}) == true && all <= old(all) + {tx}
      ensures ok == Outbids(old(pending)[tx.sender][tx.nonce], tx, config.priceBump)
      ensures ok ==> pending == old(pending)[tx.sender := ListOf(old(pending), tx.sender)[tx.nonce := tx]]
                     && all == Exchanged(old(all), ListOf(old(pending), tx.sender), tx)
      ensures !ok ==> pending == old(pending) && all == old(all)
    {
      var from := tx.sender;
      assert FineAt(pending, queue, nonceAt, managed, all, from);
      var prior, list;
      ok, prior, list := Adding(true, pending[from], tx, config.priceBump);
      if !ok {
        return;
      }
      ReplacesPending(pending, queue, nonceAt, managed, all, tx);
      pending := pending[from := list];
      all := all - {prior.tx};
      priced.Removed(all, all - {}, prior.tx);
      priced.Put(tx, all - {});
      all := all + {tx};
    }

    // -------------------------------------------------------------- promotion

    /** Move a transaction to the account's pending list. */
    method PromoteTx(a: Addr, tx: Tx)
      requires Indexed({}) && Keyed(ListOf(pending, a))
      modifies this`pending, this`managed, this`all, priced
      ensures Indexed({}) == true
      ensures var pend := ListOf(old(pending), a);
              if tx.nonce in pend && !Outbids(pend[tx.nonce], tx, config.priceBump) then
                pending == old(pending) && managed == old(managed) && all == old(all) - {tx}
              else
                && pending == old(pending)[a := pend[tx.nonce := tx]] && managed == old(managed)[a := tx.nonce + 1]
                && all == Exchanged(old(all), pend, tx)
    {
      var inserted, prior, list := Adding(true, ListOf(pending, a), tx, config.priceBump);
      if !inserted {
        all := all - {tx};
        priced.Removed(all, all - {}, tx);
        return;
      }
      pending := pending[a := list];
      if prior.Some? {
        all := all - {prior.tx};
        priced.Removed(all, all - {}, prior.tx);
      }
      if tx !in all {
        priced.Put(tx, all - {});
        all := all + {tx};
      }
      managed := managed[a := tx.nonce + 1];
    }

    /** The transaction with the pending nonce becomes pending. */
    method PromoteNext(tx: Tx)
      requires Valid({}) && tx in all && tx.nonce == Next(nonceAt, managed, tx.sender)
      requires tx.nonce !in ListOf(queue, tx.sender)
      requires tx.sender in dirty
      modifies this`pending, this`managed, this`all, priced
      ensures Valid({}) == true && all == old(all)
      ensures pending == old(pending)[tx.sender := ListOf(old(pending), tx.sender)[tx.nonce := tx]]
      ensures managed == old(managed)[tx.sender := tx.nonce + 1]
    {
      Promotes(pending, queue, nonceAt, managed, all, tx);
      assert FineAt(pending, queue, nonceAt, managed, all, tx.sender);
      StoredElsewhere(queue, tx.sender, map[]);
      ExhaustedStep(queue, nonceAt, managed, dirty, queue, managed[tx.sender := tx.nonce + 1], dirty, tx.sender);
      PromoteTx(tx.sender, tx);
      assert all == old(all);
    }

    /** Promote a run of consecutive nonces that starts at the pending nonce. */
    method PromoteRun(a: Addr, run: seq<Tx>, ghost que: Txs)
      requires Valid({}) == true && a in dirty
      requires RunOf(a, run, que, ListOf(queue, a), Next(nonceAt, managed, a), all) == true
      modifies this`pending, this`managed, this`all, priced
      ensures Valid({}) == true && all == old(all)
      ensures Promoted(old(pending), pending, a, que, ListOf(queue, a), Next(nonceAt, managed, a)) == true
    {
      ghost var rest, next, known := ListOf(queue, a), Next(nonceAt, managed, a), all;
      RunParts(a, run, que, rest, next, known);
      PromoteEach(a, run, Before(que, next + |run|));
      RunPromoted(a, run, que, rest, next, known, old(pending), pending, Next(nonceAt, managed, a));
    }

    method PromoteEach(a: Addr, run: seq<Tx>, ghost m: Txs)
      requires Valid({}) == true && Consecutive(run, Next(nonceAt, managed, a)) && a in dirty && Lists(run, m) == true
      requires forall i :: 0 <= i < |run| ==> run[i].sender == a && run[i] in all && run[i].nonce !in ListOf(queue, a)
      modifies this`pending, this`managed, this`all, priced
      ensures Valid({}) == true && all == old(all) && pending == TakenIn(old(pending), a, m)
      ensures Next(nonceAt, managed, a) == Next(nonceAt, old(managed), a) + |run|
    {
      ghost var done: Txs := map[];
      for i := 0 to |run|
        invariant Valid({}) == true && all == old(all)
        invariant pending == TakenIn(old(pending), a, done) && Lists(run[..i], done) == true
        invariant forall n :: n in done ==> n < Next(nonceAt, old(managed), a) + i
        invariant Next(nonceAt, managed, a) == Next(nonceAt, old(managed), a) + i
      {
        TakenInOne(old(pending), a, done, run[i]);
        PromoteNext(run[i]);
        Listed(run[..i], done, run[i]);
        assert run[..i + 1] == run[..i] + [run[i]];
        done := done[run[i].nonce := run[i]];
      }
      assert run[..|run|] == run;
      ListsSame(run, done, m);
    }

    /** Forget transactions that a list has dropped. */
    method Forget(txs: seq<Tx>)
      requires Indexed({})
      modifies this`all, priced
      ensures Indexed({}) == true && all == old(all) - P.AsSet(txs)
    {
      for i := 0 to |txs|
        invariant Indexed({}) == true && all == old(all) - P.AsSet(txs[..i])
      {
        all := all - {txs[i]};
        priced.Removed(all, all - {}, txs[i]);
        assert txs[..i + 1] == txs[..i] + [txs[i]];
      }
      assert txs[..|txs|] == txs;
    }

    /** Drop queued transactions whose nonce the chain has passed. */
    method ForwardQueue(a: Addr)
      requires Valid({}) == true && a in queue
      modifies this`queue, this`all, priced
      ensures Valid({}) == true && all <= old(all) && queue == old(queue)[a := From(old(queue)[a], nonceAt(a))]
      ensures Forgets(old(Here()), Here()) == true
    {
      assert FineAt(pending, queue, nonceAt, managed, all, a);
      var removed, list := Forwarding(false, queue[a], nonceAt(a));
      ForgetListed(a, queue[a], list, removed);
    }

    /** Drop queued transactions that the account cannot pay for or that no block can hold. */
    method FilterQueue(a: Addr)
      requires Valid({}) == true && a in queue
      modifies this`queue, this`all, priced
      ensures Valid({}) == true && all <= old(all)
      ensures queue == old(queue)[a := Affordable(old(queue)[a], false, balanceAt(a), maxGas)]
      ensures Forgets(old(Here()), Here()) == true
    {
      assert FineAt(pending, queue, nonceAt, managed, all, a);
      var drops, invalids, list := Filtering(false, queue[a], balanceAt(a), maxGas);
      assert queue[a] - list.Keys == Where(queue[a], OverLimits(balanceAt(a), maxGas));
      ForgetListed(a, queue[a], list, drops);
    }

    /** Keep at most the allowed number of queued transactions. */
    method CapQueue(a: Addr) returns (ghost kept: Txs)
      requires Valid({}) == true && a in queue
      modifies this`queue, this`all, priced
      ensures Valid({}) == true && all <= old(all)
      ensures queue == old(queue)[a := kept] && Capped(old(queue)[a], kept, config.accountQueue) == true
      ensures Forgets(old(Here()), Here()) == true
    {
      assert FineAt(pending, queue, nonceAt, managed, all, a);
      var drops, list := Capping(false, queue[a], config.accountQueue);
      kept := list;
      ForgetListed(a, queue[a], list, drops);
    }

    /** Replace a queue list by part of it and forget the listed rest. */
    method ForgetListed(a: Addr, ghost que: Txs, m: Txs, removed: seq<Tx>)
      requires Valid({}) == true && a in queue && queue[a] == que && Sub(m, que)
      requires Lists(removed, que - m.Keys) == true
      modifies this`queue, this`all, priced
      ensures Valid({}) == true && queue == old(queue)[a := m] && all == old(all) - P.AsSet(removed)
      ensures Forgets(old(Here()), Here()) == true
    {
      assert FineAt(pending, queue, nonceAt, managed, all, a);
      ghost var x := Here();
      Forget(removed);
      forall tx | tx in removed
        ensures Holds(que, tx) && tx.nonce !in m
      {
        ListsIn(removed, que - m.Keys, tx);
      }
      QueueShrinks(pending, queue, nonceAt, managed, old(all), a, m, all);
      StoredElsewhere(queue, a, m);
      ExhaustedShrinks(queue, nonceAt, managed, dirty, queue[a := m], a);
      queue := queue[a := m];
      QueueForgets(x, Here(), a, nonceAt(a), Next(nonceAt, managed, a), m, removed);
    }

    /** Promote what has become executable. */
    method ReadyQueue(a: Addr) returns (ghost rest: Txs)
      requires Valid({}) == true && a in queue && a in dirty && forall n :: n in queue[a] ==> nonceAt(a) <= n
      modifies this`pending, this`queue, this`managed, this`all, this`dirty, priced
      ensures Valid({}) == true && all == old(all) && queue == old(queue)[a := rest] && dirty == old(dirty) - {a}
      ensures Promoted(old(pending), pending, a, old(queue)[a], rest, Next(nonceAt, managed, a)) == true
      ensures Forgets(old(Here()), Here()) == true
    {
      ghost var x, que := Here(), queue[a];
      assert FineAt(pending, queue, nonceAt, managed, all, a);
      var run;
      run, rest := TakeRun(a);
      PromoteRun(a, run, que);
      NotPromotable(old(pending), pending, a, que, rest, Next(nonceAt, managed, a));
      Clean(a);
      StoredElsewhere(x.queue, a, rest);
      assert FineAt(pending, queue, nonceAt, managed, all, a);
      MoveForgets(x, Here(), a, nonceAt(a), Next(nonceAt, old(managed), a), rest, Next(nonceAt, managed, a));
    }

    /** Take what is ready out of the queue. */
    method TakeRun(a: Addr) returns (run: seq<Tx>, ghost rest: Txs)
      requires Valid({}) == true && a in queue && forall n :: n in queue[a] ==> nonceAt(a) <= n
      modifies this`queue
      ensures Valid({}) == true && queue == old(queue)[a := rest]
      ensures RunOf(a, run, old(queue)[a], rest, Next(nonceAt, managed, a), all) == true
    {
      assert FineAt(pending, queue, nonceAt, managed, all, a);
      var list;
      run, list := TakingReady(false, queue[a], Next(nonceAt, managed, a));
      rest := list;
      RunIsOf(a, run, ListOf(pending, a), queue[a], rest, nonceAt(a), Next(nonceAt, managed, a), all);
      QueueShrinks(pending, queue, nonceAt, managed, all, a, rest, all);
      StoredElsewhere(queue, a, rest);
      ExhaustedShrinks(queue, nonceAt, managed, dirty, queue[a := rest], a);
      queue := queue[a := list];
    }

    ghost method Clean(a: Addr)
      requires Valid({}) == true && IdleAt(queue, nonceAt, managed, a)
      modifies this`dirty
      ensures Valid({}) == true && dirty == old(dirty) - {a}
    {
      StoredElsewhere(queue, a, map[]);
      ExhaustedStep(queue, nonceAt, managed, dirty, queue, managed, dirty - {a}, a);
      dirty := dirty - {a};
    }

    /** Drop what is too old or cannot be paid for. */
    method PruneQueue(a: Addr) returns (ghost m: Txs)
      requires Valid({}) == true && a in queue
      modifies this`queue, this`all, priced
      ensures Valid({}) == true && all <= old(all) && queue == old(queue)[a := m]
      ensures m == Affordable(From(old(queue)[a], nonceAt(a)), false, balanceAt(a), maxGas)
      ensures forall n :: n in m ==> nonceAt(a) <= n
      ensures Forgets(old(Here()), Here()) == true
    {
      ghost var x := Here();
      ForwardQueue(a);
      ghost var y := Here();
      FilterQueue(a);
      m := queue[a];
      ForgetsAgain(x, y, Here());
    }

    /** Apply the account's limit, unless it is local, and delete an empty list. */
    method TrimQueue(a: Addr) returns (ghost m: Txs)
      requires Valid({}) == true && a in queue
      modifies this`queue, this`all, priced
      ensures Valid({}) == true && all <= old(all) && queue == Stored(old(queue), a, m)
      ensures Trimmed(old(queue)[a], m, a in locals, config.accountQueue) == true
      ensures Forgets(old(Here()), Here()) == true
    {
      ghost var x, queue0 := Here(), queue;
      ForgetsNothing(x);
      m := queue[a];
      if a !in locals {
        m := CapQueue(a);
      }
      assert queue == queue0[a := m];
      ghost var y := Here();
      DeleteEmpty(a);
      ForgetsAgain(x, y, Here());
      StoredTwice(queue0, a, m, m);
    }

    method DeleteEmpty(a: Addr)
      requires Valid({}) == true && a in queue
      modifies this`queue
      ensures Valid({}) == true && queue == Stored(old(queue), a, old(queue)[a]) && Forgets(old(Here()), Here()) == true
    {
      ForgetsNothing(Here());
      if queue[a] == map[] {
        QueueShrinks(pending, queue, nonceAt, managed, all, a, map[], all);
        StoredElsewhere(queue, a, map[]);
        ExhaustedShrinks(queue, nonceAt, managed, dirty, queue - {a}, a);
        EmptyForgets(Here(), a);
        queue := queue - {a};
      } else {
        assert queue[a := queue[a]] == queue;
      }
    }

    /** Bring one account's queue up to date with the chain state. */
    method PromoteAccount(a: Addr) returns (ghost m: Txs)
      requires Valid({}) == true
      modifies this`pending, this`queue, this`managed, this`all, this`dirty, priced
      ensures Valid({}) == true && all <= old(all) && queue == Stored(old(queue), a, m) && dirty == old(dirty) - {a}
      ensures Updated(old(pending), ListOf(old(queue), a), pending, m, a, nonceAt(a), balanceAt(a), maxGas,
                      Next(nonceAt, managed, a), a in locals, config.accountQueue) == true
      ensures Forgets(old(Here()), Here()) == true
    {
      m := map[];
      ghost var x := Here();
      SetDirty(a);
      assert Here() == x;
      if a in queue {
        m := PromoteQueue(a);
      } else {
        Clean(a);
        assert Here() == x;
        ForgetsNothing(x);
        NothingUpdated(pending, a, nonceAt(a), balanceAt(a), maxGas, Next(nonceAt, managed, a), a in locals,
                       config.accountQueue);
      }
    }

    method PromoteQueue(a: Addr) returns (ghost m: Txs)
      requires Valid({}) == true && a in queue && a in dirty
      modifies this`pending, this`queue, this`managed, this`all, this`dirty, priced
      ensures Valid({}) == true && all <= old(all) && queue == Stored(old(queue), a, m) && dirty == old(dirty) - {a}
      ensures Updated(old(pending), ListOf(old(queue), a), pending, m, a, nonceAt(a), balanceAt(a), maxGas,
                      Next(nonceAt, managed, a), a in locals, config.accountQueue) == true
      ensures Forgets(old(Here()), Here()) == true
    {
      ghost var pending0, queue0 := pending, queue;
      ghost var x := Here();
      ghost var pruned := PruneQueue(a);
      ghost var y := Here();
      ghost var rest := ReadyQueue(a);
      ghost var z := Here();
      ghost var next := Next(nonceAt, managed, a);
      m := TrimQueue(a);
      ForgetsAgain(x, y, z);
      ForgetsAgain(x, z, Here());
      StoredTwice(queue0, a, pruned, m);
      StoredTwice(queue0[a := pruned], a, rest, m);
      UpdatedBy(pending0, queue0[a], pruned, rest, pending, m, a, nonceAt(a), balanceAt(a), maxGas, next,
                a in locals, config.accountQueue);
    }

    ghost method SetDirty(a: Addr)
      requires Valid({}) == true
      modifies this`dirty
      ensures Valid({}) == true && dirty == old(dirty) + {a}
    {
      StoredElsewhere(queue, a, map[]);
      ExhaustedStep(queue, nonceAt, managed, dirty, queue, managed, dirty + {a}, a);
      dirty := dirty + {a};
    }

    // -------------------------------------------------------------- fairness

    /** Drop the last pending transaction of an account. */
    method CutOne(a: Addr) returns (ghost m: Txs)
      requires Valid({}) == true && a in pending && |pending[a]| > 0
      modifies this`pending, this`managed, this`all, priced
      ensures Valid({}) == true && all <= old(all) && pending == old(pending)[a := m]
      ensures Capped(old(pending)[a], m, |old(pending)[a]| - 1) == true
      ensures Forgets(old(Here()), Here()) == true
    {
      ghost var x, next := Here(), Next(nonceAt, managed, a);
      assert FineAt(pending, queue, nonceAt, managed, all, a);
      ghost var last;
      m, last := CutLast(a);
      StoredElsewhere(x.pending, a, m);
      CutForgets(x, Here(), a, nonceAt(a), next, last);
    }

    method CutLast(a: Addr) returns (ghost m: Txs, ghost last: Tx)
      requires Valid({}) && a in pending && |pending[a]| > 0
      modifies this`pending, this`managed, this`all, priced
      ensures Valid({}) == true && all == old(all) - {last} && pending == old(pending)[a := m]
      ensures Capped(old(pending)[a], m, |old(pending)[a]| - 1) == true
      ensures Holds(old(pending)[a], last) && m == old(pending)[a] - {last.nonce}
    {
      PendingKeyed(pending, queue, nonceAt, managed, all, a);
      var drops, list := Capping(true, pending[a], |pending[a]| - 1);
      m := list;
      last := CutsLast(pending, queue, nonceAt, managed, all, a, m, drops);
      ExhaustedCut(pending, queue, nonceAt, managed, all, dirty, queue, a, last.nonce);
      pending := pending[a := list];
      ForgetPending(a, drops, last);
      assert all == old(all) - {last};
    }

    /** Forget what was cut off a pending list and lower the pending nonce to it. */
    method ForgetPending(a: Addr, drops: seq<Tx>, ghost last: Tx)
      requires Indexed({}) && drops == [last] && last.nonce < Next(nonceAt, managed, a)
      modifies this`managed, this`all, priced
      ensures Indexed({}) == true && all == old(all) - {last} && managed == old(managed)[a := last.nonce]
    {
      for i := 0 to |drops|
        invariant Indexed({}) == true && all == (if i == 0 then old(all) else old(all) - {last})
        invariant managed == if i == 0 then old(managed) else old(managed)[a := last.nonce]
      {
        all := all - {drops[i]};
        priced.Removed(all, all - {}, drops[i]);
        if Next(nonceAt, managed, a) > drops[i].nonce {
          managed := managed[a := drops[i].nonce];
        }
      }
    }

    /** One round: every offender loses one transaction, and the level sinks by one. */
    method Round(offenders: seq<Addr>, ghost whole: AccountLists, ghost level: nat)
      requires Valid({}) && level > 0 && AtLevel(whole, locals, pending, level)
      requires Distinct(offenders) && Offenders(offenders, locals, pending, level)
      requires OthersBelow(offenders, locals, whole, level)
      modifies this`pending, this`managed, this`all, priced
      ensures Valid({}) == true && all <= old(all) && AtLevel(whole, locals, pending, level - 1)
      ensures Total(pending) == Total(old(pending)) - |offenders|
      ensures Forgets(old(Here()), Here()) == true
    {
      ghost var x := Here();
      ForgetsNothing(x);
      for i := 0 to |offenders|
        invariant Valid({}) == true && all <= old(all) && Forgets(x, Here()) == true
        invariant MidRound(whole, locals, old(pending), pending, offenders, i, level) == true
        invariant Total(pending) == Total(old(pending)) - i
      {
        ghost var before, y := pending, Here();
        MidNext(whole, locals, old(pending), before, offenders, i, level);
        ghost var m := CutOne(offenders[i]);
        ForgetsAgain(x, y, Here());
        TotalUpdate(before, offenders[i], m);
        MidStep(whole, locals, old(pending), before, offenders, i, level, m);
      }
      MidDone(whole, locals, old(pending), pending, offenders, level);
    }

    /** Lower the offenders round by round, until the pool fits or they reach the threshold. */
    method LowerTo(offenders: seq<Addr>, threshold: nat, count0: nat, ghost whole: AccountLists, ghost level0: nat)
      returns (count: nat, ghost level: nat)
      requires Kept() == true && offenders != [] && threshold <= level0 && Counted(pending, count0) == true
      requires Lowered(whole, locals, pending, pending, offenders, level0, level0, config.globalSlots) == true
      requires Settled(offenders, locals, whole, threshold + 1) == true
      modifies this`pending, this`managed, this`all, priced
      ensures Kept() == true && all <= old(all) && Counted(pending, count) == true
      ensures Lowered(whole, locals, old(pending), pending, offenders, level0, level, config.globalSlots) == true
      ensures threshold <= level && (count <= config.globalSlots || level == threshold)
      ensures Forgets(old(Here()), Here()) == true
    {
      count, level := count0, level0;
      ghost var near, start, now, limit := locals, pending, pending, config.globalSlots;
      ghost var x := Here();
      ForgetsNothing(x);
      var longer := Longer(offenders, threshold, whole, near, start, level0, level, limit);
      while count > config.globalSlots && longer
        invariant Kept() == true && all <= old(all) && locals == near && now == pending
        invariant Forgets(x, Here()) == true
        invariant Counted(now, count) == true && threshold <= level && (longer <==> level > threshold)
        invariant Lowered(whole, near, start, now, offenders, level0, level, limit) == true
        decreases level
      {
        ghost var y := Here();
        now := LowerOnce(offenders, threshold, whole, near, start, level0, level, count);
        ForgetsAgain(x, y, Here());
        level := level - 1;
        count := count - |offenders|;
        longer := Longer(offenders, threshold, whole, near, start, level0, level, limit);
      }
    }

    /** Is the last offender's list, and so every offender's, still above the threshold? */
    method Longer(offenders: seq<Addr>, threshold: nat, ghost whole: AccountLists, ghost near: set<Addr>,
                  ghost start: AccountLists, ghost level0: nat, ghost level: nat, ghost limit: nat)
      returns (longer: bool)
      requires Lowered(whole, near, start, pending, offenders, level0, level, limit) == true && offenders != []
      ensures longer <==> level > threshold
    {
      LoweredLength(whole, near, start, pending, offenders, level0, level, limit);
      longer := |ListOf(pending, offenders[|offenders| - 1])| > threshold;
    }

    method LowerOnce(offenders: seq<Addr>, ghost threshold: nat, ghost whole: AccountLists, ghost near: set<Addr>,
                     ghost start: AccountLists, ghost level0: nat, ghost level: nat, ghost count: nat)
      returns (ghost now: AccountLists)
      requires Kept() == true && near == locals && threshold < level
      requires Counted(pending, count) == true && count > config.globalSlots
      requires Lowered(whole, near, start, pending, offenders, level0, level, config.globalSlots) == true
      requires Settled(offenders, near, whole, threshold + 1) == true
      modifies this`pending, this`managed, this`all, priced
      ensures Kept() == true && all <= old(all) && now == pending
      ensures Counted(now, count - |offenders|) == true && |offenders| <= count
      ensures Lowered(whole, near, start, now, offenders, level0, level - 1, config.globalSlots) == true
      ensures Forgets(old(Here()), Here()) == true
    {
      Open();
      assert Opened(level) && Opened(SETTLED) && Opened(COUNTED);
      assert Overfull(whole, near, level, config.globalSlots);
      Round(offenders, whole, level);
      OffendersSink(offenders, near, whole, old(pending), pending, level);
      now := pending;
    }

    /** The next longest list joins the offenders, which come down to its length. */
    method Penalise(offenders: seq<Addr>, spammers: set<Addr>, count0: nat, ghost whole: AccountLists,
                    ghost level0: nat)
      returns (offender: Addr, count: nat, ghost level: nat)
      requires Kept() == true && spammers != {} && Counted(pending, count0) == true && count0 > config.globalSlots
      requires Progress(whole, locals, pending, offenders, spammers, level0,
                        config.accountSlots, config.globalSlots) == true
      modifies this`pending, this`managed, this`all, priced
      ensures Kept() == true && all <= old(all) && Counted(pending, count) == true && offender in spammers
      ensures Progress(whole, locals, pending, offenders + [offender], spammers - {offender}, level,
                       config.accountSlots, config.globalSlots) == true
      ensures Forgets(old(Here()), Here()) == true
    {
      assert Opened(COUNTED);
      ForgetsNothing(Here());
      offender := Longest(pending, spammers);
      var threshold := |pending[offender]|;
      PhasePop(whole, locals, pending, offenders, spammers, level0, config.accountSlots, config.globalSlots, offender);
      if offenders == [] {
        count, level := count0, threshold;
        PhaseFirst(whole, locals, pending, spammers, level0, level, config.accountSlots, config.globalSlots, offender);
        assert offenders + [offender] == [offender];
      } else {
        count, level := LowerTo(offenders, threshold, count0, whole, level0);
        assert Opened(COUNTED);
        PhaseNext(whole, locals, old(pending), pending, offenders, spammers, level0, level,
                  config.accountSlots, config.globalSlots, offender);
      }
    }

    /** Cut back the longest lists until the pool fits or nobody is above the guaranteed slots. */
    method Equalise() returns (ghost level: nat)
      requires Kept() == true
      modifies this`pending, this`managed, this`all, priced
      ensures Kept() == true && all <= old(all)
      ensures Equalised(old(pending), locals, pending, level, config.accountSlots, config.globalSlots) == true
      ensures Forgets(old(Here()), Here()) == true
    {
      ghost var whole, x := pending, Here();
      ForgetsNothing(x);
      var count: nat := CountAll(pending);
      var spammers := set a | a in pending && a !in locals && |pending[a]| > config.accountSlots;
      level := PhaseStart(pending, locals, spammers, config.accountSlots, config.globalSlots);
      var offenders: seq<Addr> := [];
      while count > config.globalSlots && spammers != {}
        invariant Kept() == true && all <= old(all) && Counted(pending, count) == true
        invariant Forgets(x, Here()) == true
        invariant Progress(whole, locals, pending, offenders, spammers, level,
                          config.accountSlots, config.globalSlots) == true
        decreases |spammers|
      {
        var offender;
        ghost var y := Here();
        offender, count, level := Penalise(offenders, spammers, count, whole, level);
        ForgetsAgain(x, y, Here());
        spammers := spammers - {offender};
        offenders := offenders + [offender];
      }
      ghost var z := Here();
      level := ReduceAll(offenders, spammers, count, whole, level);
      ForgetsAgain(x, z, Here());
    }

    /** If the pool is still too full, bring all offenders down towards the guaranteed slots. */
    method ReduceAll(offenders: seq<Addr>, ghost spammers: set<Addr>, count: nat, ghost whole: AccountLists,
                     ghost level0: nat)
      returns (ghost level: nat)
      requires Kept() == true && Counted(pending, count) == true && (count <= config.globalSlots || spammers == {})
      requires Progress(whole, locals, pending, offenders, spammers, level0,
                        config.accountSlots, config.globalSlots) == true
      modifies this`pending, this`managed, this`all, priced
      ensures Kept() == true && all <= old(all)
      ensures Equalised(whole, locals, pending, level, config.accountSlots, config.globalSlots) == true
      ensures Forgets(old(Here()), Here()) == true
    {
      level := level0;
      ForgetsNothing(Here());
      assert Opened(COUNTED);
      if count > config.globalSlots && |offenders| > 0 {
        PhaseEnd(whole, locals, pending, offenders, level, config.accountSlots, config.globalSlots);
        var rest;
        rest, level := LowerTo(offenders, config.accountSlots, count, whole, level);
        assert Opened(COUNTED);
      }
      ProgressDone(whole, locals, old(pending), pending, offenders, spammers, level0, level,
                   config.accountSlots, config.globalSlots);
    }

    // -------------------------------------------------------------- the queue limits

    /** Remove one queued transaction. */
    method RemoveFromQueue(a: Addr, tx: Tx)
      requires Kept() == true && Holds(ListOf(queue, a), tx)
      modifies this`pending, this`queue, this`managed, this`all, priced
      ensures Kept() == true && all <= old(all) && pending == old(pending) && managed == old(managed)
      ensures ListOf(queue, a) == ListOf(old(queue), a) - {tx.nonce} && Elsewhere(old(queue), queue, a) == true
      ensures Total(queue) == Total(old(queue)) - 1
      ensures Forgets(old(Here()), Here()) == true
    {
      Open();
      assert FineAt(pending, queue, nonceAt, managed, all, a);
      ghost var m := ListOf(queue, a) - {tx.nonce};
      assert ListOf(queue, a).Keys == m.Keys + {tx.nonce};
      TotalStored(queue, a, m);
      StoredElsewhere(queue, a, m);
      ghost var x := Here();
      RemoveTx(tx, {});
      RemoveForgets(x, Here(), a, nonceAt(a), Next(nonceAt, old(managed), a), tx);
    }

    /** Remove all queued transactions of an account. */
    method ClearQueue(a: Addr)
      requires Kept() == true && a in queue
      modifies this`pending, this`queue, this`managed, this`all, priced
      ensures Kept() == true && all <= old(all) && pending == old(pending) && managed == old(managed)
      ensures ListOf(queue, a) == map[] && Elsewhere(old(queue), queue, a) == true
      ensures Total(queue) == Total(old(queue)) - |old(queue)[a]|
      ensures Forgets(old(Here()), Here()) == true
    {
      var txs := FlatQueue(a);
      ghost var x := Here();
      ForgetsNothing(x);
      ListsCount(txs, queue[a]);
      for i := 0 to |txs|
        invariant Kept() == true && all <= old(all) && pending == old(pending) && managed == old(managed)
        invariant Forgets(x, Here()) == true
        invariant Lists(txs[i..], ListOf(queue, a)) == true && Elsewhere(old(queue), queue, a) == true
        invariant Total(queue) == Total(old(queue)) - i
      {
        ListsFirst(txs[i..], ListOf(queue, a));
        ghost var before, y := queue, Here();
        RemoveFromQueue(a, txs[i]);
        ForgetsAgain(x, y, Here());
        ElsewhereAgain(old(queue), before, queue, a);
      }
    }

    /** Remove queued transactions of an account from the highest nonce down. */
    method ShortenQueue(a: Addr, excess: nat)
      requires Kept() == true && a in queue && excess <= |queue[a]|
      modifies this`pending, this`queue, this`managed, this`all, priced
      ensures Kept() == true && all <= old(all) && pending == old(pending) && managed == old(managed)
      ensures Elsewhere(old(queue), queue, a) == true && Total(queue) == Total(old(queue)) - excess
      ensures Capped(old(queue)[a], ListOf(queue, a), |old(queue)[a]| - excess) == true
      ensures Forgets(old(Here()), Here()) == true
    {
      var txs := FlatQueue(a);
      ghost var x := Here();
      ForgetsNothing(x);
      ListsCount(txs, queue[a]);
      assert txs[..|txs|] == txs;
      var i, drop := |txs|, excess;
      while i > 0 && drop > 0
        invariant 0 <= drop <= i == |txs| - excess + drop && Total(queue) == Total(old(queue)) - excess + drop
        invariant Kept() == true && all <= old(all) && pending == old(pending) && managed == old(managed)
        invariant Forgets(x, Here()) == true
        invariant Lists(txs[..i], ListOf(queue, a)) == true && Elsewhere(old(queue), queue, a) == true
      {
        i := i - 1;
        assert txs[..i + 1][..i] == txs[..i];
        ghost var before, y := queue, Here();
        RemoveFromQueue(a, txs[i]);
        ForgetsAgain(x, y, Here());
        ElsewhereAgain(old(queue), before, queue, a);
        drop := drop - 1;
      }
      LowestKept(txs, old(queue)[a], i, ListOf(queue, a));
    }

    method FlatQueue(a: Addr) returns (txs: seq<Tx>)
      requires Kept() == true && a in queue
      ensures Lists(txs, queue[a]) == true && Ascending(txs) == true
    {
      Open();
      assert FineAt(pending, queue, nonceAt, managed, all, a);
      txs := Flattening(false, queue[a]);
    }

    /** Drop queued transactions, account by account, until the total fits or only local accounts are left. */
    method LimitQueue()
      requires Kept() == true
      modifies this`pending, this`queue, this`managed, this`all, priced
      ensures Kept() == true && all <= old(all) && pending == old(pending) && managed == old(managed)
      ensures Total(queue) <= config.globalQueue || Waiting([], queue, locals)
      ensures QueueLimited(old(queue), queue, locals, config.globalQueue) == true
      ensures Forgets(old(Here()), Here()) == true
    {
      var queued := CountAll(queue);
      ghost var start, x := queue, Here();
      ForgetsNothing(x);
      if queued <= config.globalQueue {
        CuttingStarts(start, [], locals);
        CuttingDone(start, queue, [], locals);
        return;
      }
      var addresses := ByHeartbeat(set a | a in queue && a !in locals);
      var drop := queued - config.globalQueue;
      CuttingStarts(start, addresses, locals);
      StillWaiting(start, queue, addresses, locals, drop);
      while drop > 0 && addresses != []
        invariant drop >= 0 && Total(queue) == config.globalQueue + drop
        invariant Kept() == true && all <= old(all) && pending == old(pending) && managed == old(managed)
        invariant Forgets(x, Here()) == true
        invariant Limiting(start, queue, addresses, locals, drop) == true
        decreases |addresses|
      {
        ghost var y := Here();
        drop := DropOne(addresses, drop, start);
        ForgetsAgain(x, y, Here());
        addresses := addresses[..|addresses| - 1];
      }
      LimitDone(start, queue, addresses, locals, drop);
    }

    /** Drop what one account has queued, or as much of it as is needed. */
    method DropOne(addresses: seq<Addr>, drop: nat, ghost start: AccountLists) returns (left: nat)
      requires Kept() == true && drop > 0 && addresses != [] && Limiting(start, queue, addresses, locals, drop) == true
      modifies this`pending, this`queue, this`managed, this`all, priced
      ensures Kept() == true && all <= old(all) && pending == old(pending) && managed == old(managed)
      ensures left <= drop && Total(queue) == Total(old(queue)) - drop + left
      ensures Limiting(start, queue, addresses[..|addresses| - 1], locals, left) == true
      ensures Forgets(old(Here()), Here()) == true
    {
      var a := addresses[|addresses| - 1];
      ghost var rest, before := addresses[..|addresses| - 1], queue;
      LimitingParts(start, queue, addresses, locals, drop);
      var size := |queue[a]|;
      if size <= drop {
        ClearQueue(a);
        WaitingLess(addresses, before, queue, locals);
        CuttingClears(start, before, queue, addresses, rest, a, locals);
        left := drop - size;
        StillWaiting(start, queue, rest, locals, left);
      } else {
        ShortenQueue(a, drop);
        CuttingShortens(start, before, queue, addresses, a, locals, size - drop);
        left := 0;
        JustFits(start, queue, rest, locals);
      }
    }

    // -------------------------------------------------------------- the pool's operations

    /** The limits hold, but for local accounts and for the slots every account is guaranteed. */
    ghost predicate Limited()
      reads this
    {
      && (Total(pending) <= config.globalSlots ||
          forall a :: a in pending && a !in locals ==> |pending[a]| <= config.accountSlots)
      && (Total(queue) <= config.globalQueue || Waiting([], queue, locals))
    }

    /** Promote what has become executable and apply all limits. */
    method PromoteExecutables(accounts: seq<Addr>) returns (ghost mid: Mid)
      requires Kept() == true
      modifies this`pending, this`queue, this`managed, this`all, this`dirty, priced
      ensures Kept() == true && all <= old(all) && Limited() && dirty == old(dirty) - (set a | a in accounts)
      ensures mid.ends.Keys == set a | a in accounts
      ensures Promotion(old(pending), old(queue), mid, pending, queue, TermsNow(), locals, config) == true
      ensures Forgets(old(Here()), Here()) == true
    {
      ghost var x := Here();
      ghost var ends := PromoteAll(accounts);
      ghost var y := Here();
      ghost var pending1, queue1 := pending, queue;
      ghost var level := Equalise();
      ghost var z := Here();
      LimitQueue();
      ForgetsAgain(x, y, z);
      ForgetsAgain(x, z, Here());
      mid := Mid(pending1, queue1, ends, level);
      IsPromotion(old(pending), old(queue), mid, pending, queue, TermsNow(), locals, config);
    }

    /** Promote what has become executable, account by account. */
    method PromoteAll(accounts: seq<Addr>) returns (ghost ends: map<Addr, nat>)
      requires Kept() == true
      modifies this`pending, this`queue, this`managed, this`all, this`dirty, priced
      ensures Kept() == true && all <= old(all) && dirty == old(dirty) - (set a | a in accounts)
      ensures ends.Keys == set a | a in accounts
      ensures RenewedAll(old(pending), old(queue), pending, queue, TermsNow(), locals, config.accountQueue, ends)
              == true
      ensures Forgets(old(Here()), Here()) == true
    {
      ends := map[];
      ghost var t, x := TermsNow(), Here();
      ForgetsNothing(x);
      RenewedNone(pending, queue, t, locals, config.accountQueue);
      for i := 0 to |accounts|
        invariant Kept() == true && all <= old(all) && dirty == old(dirty) - (set a | a in accounts[..i])
        invariant Forgets(x, Here()) == true
        invariant TermsNow() == t && ends.Keys == set a | a in accounts[..i]
        invariant RenewedAll(old(pending), old(queue), pending, queue, t, locals, config.accountQueue, ends) == true
      {
        ghost var pending1, queue1, y := pending, queue, Here();
        ghost var next := PromoteListed(accounts[i]);
        ForgetsAgain(x, y, Here());
        ends := RenewedStep(old(pending), old(queue), pending1, queue1, pending, queue, t, locals, config.accountQueue,
                            ends, accounts[i], next);
        assert accounts[..i + 1] == accounts[..i] + [accounts[i]];
      }
      assert accounts[..|accounts|] == accounts;
    }

    method PromoteListed(a: Addr) returns (ghost next: nat)
      requires Kept() == true
      modifies this`pending, this`queue, this`managed, this`all, this`dirty, priced
      ensures Kept() == true && all <= old(all) && dirty == old(dirty) - {a} && TermsNow() == old(TermsNow())
      ensures RenewsOne(old(pending), old(queue), pending, queue, TermsNow(), locals, config.accountQueue, a, next)
              == true
      ensures Forgets(old(Here()), Here()) == true
    {
      Open();
      ghost var pending0, queue0 := pending, queue;
      ghost var m := PromoteAccount(a);
      next := Next(nonceAt, managed, a);
      assert FineAt(pending, queue, nonceAt, managed, all, a);
      UpdatedOne(pending0, queue0, pending, queue, a, m, TermsNow(), next, locals, config.accountQueue,
                 ListOf(queue0, a), nonceAt(a), balanceAt(a), a in locals);
    }

    /** Add one transaction; promotion follows if it did not replace another. */
    method AddTx(tx: Tx, local: bool, wellFormed: bool)
      returns (ok: bool, ghost replace: bool, ghost gone: seq<Tx>, ghost placed: Holdings, ghost mid: Mid)
      requires Kept() == true && dirty == {}
      modifies this, priced
      ensures Kept() == true && all <= old(all) + {tx} && dirty == {}
      ensures |old(all)| < config.globalSlots + config.globalQueue ==> ok == old(Accepts(tx, local, wellFormed))
      ensures TermsNow() == old(TermsNow()) && locals == placed.locals
      ensures locals == old(locals) || (local && locals == old(locals) + {tx.sender})
      ensures Inserted(old(Here()), placed, config, tx, local,
                       Checked(old(Here()), old(TermsNow()), tx, local, wellFormed), gone, ok, replace) == true
      ensures if ok && !replace then
                && mid.ends.Keys == {tx.sender}
                && Promotion(placed.pending, placed.queue, mid, pending, queue, TermsNow(), locals, config) == true
                && Forgets(placed, Here()) == true
              else Here() == placed
    {
      var added;
      ok, added, replace, gone := AddLocked(tx, local, wellFormed);
      placed, mid := Here(), Mid(map[], map[], map[], 0);
      if added {
        mid := PromoteExecutables([tx.sender]);
      }
    }

    /** Drop the queued transactions of accounts that have been inactive for too long, unless they are local. */
    method Evict(inactive: set<Addr>)
      requires Kept() == true
      modifies this`pending, this`queue, this`managed, this`all, priced
      ensures Kept() == true && all <= old(all) && pending == old(pending) && managed == old(managed)
      ensures forall a :: a in inactive && a !in locals ==> ListOf(queue, a) == map[]
      ensures forall a {:trigger ListOf(queue, a)} :: a !in inactive || a in locals ==>
                ListOf(queue, a) == ListOf(old(queue), a)
      ensures Forgets(old(Here()), Here()) == true
    {
      var addresses := ByHeartbeat(set a | a in queue && a in inactive && a !in locals);
      ghost var x := Here();
      ForgetsNothing(x);
      for i := 0 to |addresses|
        invariant Kept() == true && all <= old(all) && pending == old(pending) && managed == old(managed)
        invariant Forgets(x, Here()) == true
        invariant MidEvict(addresses, i, old(queue), queue) == true
      {
        ghost var before, y := queue, Here();
        MidEvictNext(addresses, i, old(queue), queue);
        ClearQueue(addresses[i]);
        ForgetsAgain(x, y, Here());
        MidEvictStep(addresses, i, old(queue), before, queue);
      }
      EvictDone(addresses, old(queue), queue, locals, inactive);
    }

    /** The lists, the known transactions and the local accounts. */
    ghost function Here(): Holdings
      reads this
    {
      Holdings(pending, queue, all, locals)
    }

    /** What a transaction is checked against. */
    ghost function TermsNow(): Terms
      reads this
    {
      Terms(gasPrice, nonceAt, balanceAt, maxGas, config.priceBump)
    }

    /**
     Add a batch of transactions, each with the outcome of its own checks and on top of those before it; promotion runs
     once, for the accounts that got something new.
     */
    method AddTxs(batch: seq<(Tx, bool)>, local: bool)
      returns (ghost accepted: seq<bool>, ghost gone: seq<seq<Tx>>, ghost placed: Holdings, ghost changed: set<Addr>,
               ghost mid: Mid)
      requires Kept() == true && dirty == {}
      modifies this, priced
      ensures Kept() == true && all <= old(all) + (set e | e in batch :: e.0) && dirty == {}
      ensures |old(all)| + |batch| <= config.globalSlots + config.globalQueue ==>
                Batched(old(Here()), old(TermsNow()), batch, local) == (placed, accepted)
      ensures TermsNow() == old(TermsNow()) && locals == placed.locals
      ensures Batching(old(Here()), old(TermsNow()), config, batch, local, gone, accepted, changed, placed) == true
      ensures if changed == {} then Here() == placed
              else && mid.ends.Keys == changed
                   && Promotion(placed.pending, placed.queue, mid, pending, queue, TermsNow(), locals, config) == true
                   && Forgets(placed, Here()) == true
    {
      var touched := {};
      accepted, gone, mid := [], [], Mid(map[], map[], map[], 0);
      ghost var room := |all| + |batch| <= config.globalSlots + config.globalQueue;
      ghost var x, t := Here(), TermsNow();
      BatchingNone(x, t, config, batch[..0], local);
      for i := 0 to |batch|
        invariant Kept() == true && all <= old(all) + (set e | e in batch :: e.0) && dirty == touched
        invariant TermsNow() == t && (room ==> |all| <= |old(all)| + i)
        invariant room ==> Batched(x, t, batch[..i], local) == (Here(), accepted)
        invariant Batching(x, t, config, batch[..i], local, gone, accepted, touched, Here()) == true
      {
        assert batch[i] in batch;
        ghost var y := Here();
        var ok, added;
        ghost var replace, left;
        ok, added, replace, left := AddLocked(batch[i].0, local, batch[i].1);
        if room {
          InsertedRoom(y, Here(), config, batch[i].0, local, Checked(y, t, batch[i].0, local, batch[i].1), left, ok,
                       replace);
          BatchedMore(x, t, batch, i, local, y, accepted, Here(), ok);
        }
        ghost var before := touched;
        if added {
          touched := touched + {batch[i].0.sender};
        }
        BatchingMore(x, t, config, batch, i, local, gone, accepted, before, y, Here(), left, ok, replace, touched);
        accepted, gone := accepted + [ok], gone + [left];
      }
      assert batch[..|batch|] == batch;
      placed, changed := Here(), touched;
      if touched != {} {
        var accounts := ByHeartbeat(touched);
        mid := PromoteExecutables(accounts);
      }
    }

    method AddLocked(tx: Tx, local: bool, wellFormed: bool)
      returns (ok: bool, added: bool, ghost replace: bool, ghost gone: seq<Tx>)
      requires Kept() == true
      modifies this, priced
      ensures Kept() == true && all <= old(all) + {tx} && TermsNow() == old(TermsNow()) && added == (ok && !replace)
      ensures dirty == if added then old(dirty) + {tx.sender} else old(dirty)
      ensures |old(all)| < config.globalSlots + config.globalQueue ==> ok == old(Accepts(tx, local, wellFormed))
      ensures locals == old(locals) || (local && locals == old(locals) + {tx.sender})
      ensures Inserted(old(Here()), Here(), config, tx, local,
                       Checked(old(Here()), old(TermsNow()), tx, local, wellFormed), gone, ok, replace) == true
    {
      Open();
      var replaced;
      ok, replaced, gone := Add(tx, local, wellFormed);
      replace, added := replaced, ok && !replaced;
    }

    // -------------------------------------------------------------- a new head

    /**
     What is left of an account's pending list under the new chain state, and what that strands; the rest is forgotten.
     */
    method FilterPending(a: Addr, ghost lo: nat, ghost hi: nat) returns (kept: Txs, invalids: seq<Tx>, ghost m: Txs)
      requires Indexed({}) == true && a in pending
      requires Fine(a, pending[a], ListOf(queue, a), lo, hi, all) == true
      modifies this`all, priced
      ensures Indexed({}) == true && Lists(invalids, m) == true && Keyed(kept)
      ensures Sifted(pending[a], nonceAt(a), balanceAt(a), maxGas, kept, m) == true
      ensures forall tx :: tx in all <==>
                tx in old(all) && !Spent(pending[a], nonceAt(a), balanceAt(a), maxGas, tx)
      ensures IsFiltered(a, kept, m, ListOf(queue, a), nonceAt(a), old(all), all) == true
    {
      FineKeyed(a, pending[a], ListOf(queue, a), lo, hi, all);
      var removed, list := Forwarding(true, pending[a], nonceAt(a));
      Forget(removed);
      var drops;
      drops, invalids, kept := Filtering(true, list, balanceAt(a), maxGas);
      Forget(drops);
      m := Invalidated(list, true, balanceAt(a), maxGas);
      assert all == old(all) - (P.AsSet(removed) + P.AsSet(drops));
      forall tx
        ensures tx in all <==> tx in old(all) && !Spent(pending[a], nonceAt(a), balanceAt(a), maxGas, tx)
      {
        SpentGone(pending[a], nonceAt(a), balanceAt(a), maxGas, removed, drops, tx);
      }
      FilteredFine(a, pending[a], ListOf(queue, a), lo, hi, old(all), nonceAt(a), balanceAt(a), maxGas, removed, drops);
    }

    /** Filter an account's pending list and queue what that strands. */
    method PostponeStranded(a: Addr, ghost lo: nat, ghost hi: nat) returns (kept: Txs, ghost m: Txs)
      requires Indexed({}) == true && a in pending
      requires Fine(a, pending[a], ListOf(queue, a), lo, hi, all) == true
      modifies this`queue, this`all, priced
      ensures Indexed({}) == true && OnlyOf(a, old(all), all) && queue == TakenIn(old(queue), a, m)
      ensures forall tx :: tx in all <==>
                tx in old(all) && !Spent(pending[a], nonceAt(a), balanceAt(a), maxGas, tx)
      ensures Sifted(pending[a], nonceAt(a), balanceAt(a), maxGas, kept, m) == true
      ensures Owned(kept, a, all) == true && Owned(ListOf(old(queue), a) + m, a, all) == true
      ensures Keyed(kept) && Keyed(ListOf(queue, a)) && kept.Keys !! ListOf(queue, a).Keys
      ensures !Gapped(kept, nonceAt(a)) ==> InSequence(kept, ListOf(old(queue), a) + m, nonceAt(a)) == true
    {
      FineKeyed(a, pending[a], ListOf(queue, a), lo, hi, all);
      ghost var queue0, que := queue, ListOf(queue, a);
      var invalids;
      kept, invalids, m := FilterPending(a, lo, hi);
      FilteredParts(a, kept, m, que, nonceAt(a), old(all), all);
      Postpone(invalids, a, m, {});
      TakenInElsewhere(queue0, a, m);
    }

    /**
     Bring one account's pending list up to date with the new chain state; with a gap in front all of it is postponed.
     */
    method DemoteAccount(a: Addr, ghost lo: nat, ghost hi: nat) returns (ghost m: Txs, ghost stranded: Txs)
      requires Indexed({}) == true && a in pending
      requires Fine(a, pending[a], ListOf(queue, a), lo, hi, all) == true
      modifies this`pending, this`queue, this`all, priced
      ensures Indexed({}) == true && OnlyOf(a, old(all), all)
      ensures forall tx :: tx in all <==>
                tx in old(all) && !Spent(old(pending)[a], nonceAt(a), balanceAt(a), maxGas, tx)
      ensures Parts(old(pending)[a], nonceAt(a), balanceAt(a), maxGas, m, stranded) == true
      ensures pending == Stored(old(pending), a, m) && queue == TakenIn(old(queue), a, stranded)
      ensures Fine(a, m, ListOf(old(queue), a) + stranded, nonceAt(a), nonceAt(a) + |m|, all) == true
    {
      ghost var pend, queue0, que := pending[a], queue, ListOf(queue, a);
      var kept;
      kept, stranded := PostponeStranded(a, lo, hi);
      if Gapped(kept, nonceAt(a)) {
        m, stranded := PostponeGapped(a, kept, stranded, pend, queue0, que);
        pending := pending - {a};
      } else {
        StaysPending(a, pend, kept, stranded, que, nonceAt(a), balanceAt(a), maxGas, all);
        m := kept;
        pending := if kept == map[] then pending - {a} else pending[a := kept];
      }
    }

    /** With a gap in front, what the list keeps is postponed like what is stranded. */
    method PostponeGapped(a: Addr, kept: Txs, ghost invalids: Txs, ghost pend: Txs, ghost queue0: AccountLists,
                          ghost que: Txs)
      returns (ghost m: Txs, ghost stranded: Txs)
      requires Indexed({}) == true && que == ListOf(queue0, a) && queue == TakenIn(queue0, a, invalids)
      requires Sifted(pend, nonceAt(a), balanceAt(a), maxGas, kept, invalids) == true && Gapped(kept, nonceAt(a))
      requires Owned(kept, a, all) == true && Owned(que + invalids, a, all) == true
      requires Keyed(kept) && Keyed(ListOf(queue, a)) && kept.Keys !! ListOf(queue, a).Keys
      modifies this`queue, this`all, priced
      ensures Indexed({}) == true && all == old(all) && queue == TakenIn(queue0, a, stranded) && m == map[]
      ensures Parts(pend, nonceAt(a), balanceAt(a), maxGas, m, stranded) == true
      ensures Fine(a, m, que + stranded, nonceAt(a), nonceAt(a) + |m|, all) == true
    {
      PostponeAll(a, kept);
      m, stranded := map[], invalids + kept;
      TakenInTwice(queue0, a, invalids, kept);
      AllPostponed(a, pend, kept, invalids, que, nonceAt(a), balanceAt(a), maxGas, all, m, stranded);
    }

    method PostponeAll(a: Addr, kept: Txs)
      requires Indexed({}) == true && Keyed(ListOf(queue, a)) && Owned(kept, a, all) == true && Keyed(kept)
      requires kept.Keys !! ListOf(queue, a).Keys
      modifies this`queue, this`all, priced
      ensures Indexed({}) == true && all == old(all) && queue == TakenIn(old(queue), a, kept)
    {
      var drops, none := Capping(true, kept, 0);
      assert none == map[] && kept - none.Keys == kept;
      Postpone(drops, a, kept, {});
    }

    /** Drop what the chain has processed or the account cannot pay for any more, and queue what that strands. */
    method DemoteUnexecutables(ghost nonce0: Addr -> nat, ghost managed0: map<Addr, nat>)
      requires Indexed({}) && Sound(pending, queue, nonce0, managed0, all)
      modifies this`pending, this`queue, this`all, priced
      ensures Indexed({}) == true && all <= old(all)
      ensures Passed(old(Here()), all, nonceAt, balanceAt, maxGas, {}) == true
      ensures Demoting(pending, queue, nonce0, managed0, nonceAt, all, {}) == true
      ensures Split(old(pending), old(queue), pending, queue, nonceAt, balanceAt, maxGas, {}) == true
    {
      DemotingStart(pending, queue, nonce0, managed0, nonceAt, all);
      SplitStart(pending, queue, nonceAt, balanceAt, maxGas);
      ghost var x := Here();
      PassedStart(x, nonceAt, balanceAt, maxGas);
      var todo := pending.Keys;
      while todo != {}
        invariant Indexed({}) == true && all <= old(all)
        invariant Passed(x, all, nonceAt, balanceAt, maxGas, todo) == true
        invariant Demoting(pending, queue, nonce0, managed0, nonceAt, all, todo) == true
        invariant Split(old(pending), old(queue), pending, queue, nonceAt, balanceAt, maxGas, todo) == true
      {
        var a :| a in todo;
        DemoteNext(a, todo, nonce0, managed0, x);
        todo := todo - {a};
      }
    }

    method DemoteNext(a: Addr, ghost todo: set<Addr>, ghost nonce0: Addr -> nat, ghost managed0: map<Addr, nat>,
                      ghost x: Holdings)
      requires Indexed({}) == true && a in todo
      requires Demoting(pending, queue, nonce0, managed0, nonceAt, all, todo) == true
      requires Passed(x, all, nonceAt, balanceAt, maxGas, todo) == true
      requires Split(x.pending, x.queue, pending, queue, nonceAt, balanceAt, maxGas, todo) == true
      modifies this`pending, this`queue, this`all, priced
      ensures Indexed({}) == true && all <= old(all)
      ensures Demoting(pending, queue, nonce0, managed0, nonceAt, all, todo - {a}) == true
      ensures Passed(x, all, nonceAt, balanceAt, maxGas, todo - {a}) == true
      ensures Split(x.pending, x.queue, pending, queue, nonceAt, balanceAt, maxGas, todo - {a}) == true
    {
      assert DemotingAt(pending, queue, nonce0, managed0, nonceAt, all, todo, a);
      ghost var m, stranded := DemoteAccount(a, nonce0(a), Next(nonce0, managed0, a));
      DemotedLists(a, old(pending), old(queue), m, stranded, nonceAt(a), all);
      DemotingStep(old(pending), old(queue), nonce0, managed0, nonceAt, old(all), todo, pending, queue, all, a);
      PassedNext(x, old(pending), old(queue), old(all), all, nonce0, managed0, nonceAt, balanceAt, maxGas, todo, a);
      SplitStep(x.pending, x.queue, old(pending), old(queue), nonceAt, balanceAt, maxGas, todo, pending, queue, a, m,
                stranded);
    }

    /** Set the pending nonces behind the last pending transactions. */
    method Renumber(ghost nonce0: Addr -> nat, ghost managed0: map<Addr, nat>)
      requires managed == map[] && Demoting(pending, queue, nonce0, managed0, nonceAt, all, {}) == true
      modifies this`managed
      ensures Sound(pending, queue, nonceAt, managed, all) == true
    {
      var todo := pending.Keys;
      while todo != {}
        invariant todo <= pending.Keys && Renumbered(pending, nonceAt, managed, todo) == true
      {
        var a :| a in todo;
        RenumberOne(a, todo, nonce0, managed0);
        todo := todo - {a};
      }
      RenumberedSound(pending, queue, nonce0, managed0, nonceAt, all, managed);
    }

    /** Set an account's pending nonce behind its last pending transaction. */
    method RenumberOne(a: Addr, ghost todo: set<Addr>, ghost nonce0: Addr -> nat, ghost managed0: map<Addr, nat>)
      requires a in todo && a in pending && Renumbered(pending, nonceAt, managed, todo) == true
      requires Demoting(pending, queue, nonce0, managed0, nonceAt, all, {}) == true
      modifies this`managed
      ensures Renumbered(pending, nonceAt, managed, todo - {a}) == true
    {
      DemotedList(pending, queue, nonce0, managed0, nonceAt, all, a);
      var next := After(pending[a], nonceAt(a));
      RenumberedStep(pending, nonceAt, managed, todo, a);
      managed := managed[a := next];
    }

    /** A new head, on whatever branch, from which nothing is reinjected. */
    method Reset(nonceAt': Addr -> nat, balanceAt': Addr -> nat, maxGas': nat)
      returns (ghost demoted: Holdings, ghost mid: Mid)
      requires Kept() == true
      modifies this, priced
      ensures Split(old(pending), old(queue), demoted.pending, demoted.queue, nonceAt', balanceAt', maxGas', {}) == true
      ensures demoted.all == Unspent(old(Here()), nonceAt', balanceAt', maxGas') && Forgets(demoted, Here()) == true
      ensures mid.ends.Keys == demoted.queue.Keys && demoted.locals == locals
      ensures Promotion(demoted.pending, demoted.queue, mid, pending, queue, TermsNow(), locals, config) == true
      ensures Kept() == true && all <= old(all) && Limited() && gasPrice == old(gasPrice) && locals == old(locals)
      ensures dirty == {}
      ensures nonceAt == nonceAt' && balanceAt == balanceAt' && maxGas == maxGas'
    {
      Advance(nonceAt', balanceAt', maxGas');
      demoted := Here();
      var accounts := ByHeartbeat(queue.Keys);
      mid := PromoteExecutables(accounts);
    }

    /** Adopt a new chain state: each account keeps what it still can have pending. */
    method Advance(nonceAt': Addr -> nat, balanceAt': Addr -> nat, maxGas': nat)
      requires Kept() == true
      modifies this, priced
      ensures Kept() == true && all <= old(all) && gasPrice == old(gasPrice) && locals == old(locals)
      ensures dirty == queue.Keys && all == Unspent(old(Here()), nonceAt', balanceAt', maxGas')
      ensures Split(old(pending), old(queue), pending, queue, nonceAt', balanceAt', maxGas', {}) == true
      ensures nonceAt == nonceAt' && balanceAt == balanceAt' && maxGas == maxGas'
    {
      Open();
      ghost var nonce0, managed0 := nonceAt, managed;
      nonceAt, balanceAt, maxGas := nonceAt', balanceAt', maxGas';
      managed := map[];
      DemoteUnexecutables(nonce0, managed0);
      PassedDone(old(Here()), all, nonceAt, balanceAt, maxGas);
      Renumber(nonce0, managed0);
      dirty := queue.Keys;
      assert Opened(POOL);
    }
  }

  lemma Discarded(drop: seq<Tx>, locals: set<Addr>, all: set<Tx>, count: nat)
    requires P.AsSet(drop) <= all && (forall tx :: tx in drop ==> tx.sender !in locals) && |drop| <= count && count > 0
    requires forall tx, t :: tx in drop && t in all && t !in drop && t.sender !in locals ==> tx.price <= t.price
    requires |drop| < count ==> forall t :: t in all && t.sender !in locals ==> t in drop
    ensures CheapestGone(all, all - P.AsSet(drop), locals, count) == true
  {
    var gone := P.AsSet(drop);
    assert all - (all - gone) == gone;
    P.AsSetSize(drop);
    if t :| t in all && t.sender !in locals {
      if |drop| == count {
        assert drop[0] in gone;
      } else {
        assert t in gone;
      }
    }
  }

  /** Nonces 0 and 1 of account 0 are pending, and pay 1 and 2. */
  const FIRST := Tx(0, 0, 0, 1, 1, 1)
  const SECOND := Tx(1, 0, 1, 2, 1, 1)

  /** Another transaction with nonce 1, which pays 3. */
  const OTHER := Tx(2, 0, 1, 3, 1, 1)

  ghost predicate Pair(x: Holdings) {
    x == Holdings(map[0 := map[0 := FIRST, 1 := SECOND]], map[], {FIRST, SECOND}, {})
  }

  /** The floor goes up to 2: the first leaves, the list is empty, and the second is in no list. */
  lemma SecondStranded(x: Holdings)
    requires Pair(x)
    ensures Without(x, FIRST) == Holdings(map[], map[], {SECOND}, {})
  {
    assert Before(ListOf(x.pending, 0), 0) == map[];
  }

  /** Other comes, and is queued, since nonce 0 is missing. */
  lemma OtherQueued(y: Holdings)
    requires y == Holdings(map[], map[], {SECOND}, {})
    ensures Put(y, OTHER, false) == Holdings(map[], map[0 := map[1 := OTHER]], {SECOND, OTHER}, {})
  {
  }

  /** The first account has nothing pending, and other is queued. */
  ghost predicate Waits(x: Holdings) {
    ListOf(x.pending, 0) == map[] && ListOf(x.queue, 0) == map[1 := OTHER] && x.all == {SECOND, OTHER} && x.locals == {}
  }

  /** Promotion leaves it there. */
  lemma OtherWaits(x: Holdings, y: Holdings, mid: Mid, t: Terms, config: Config)
    requires x == Holdings(map[], map[0 := map[1 := OTHER]], {SECOND, OTHER}, {}) && y.locals == {}
    requires mid.ends.Keys == {0} && Promotion(x.pending, x.queue, mid, y.pending, y.queue, t, {}, config)
    requires Forgets(x, y) && t.nonceAt(0) == 0 && t.balanceAt(0) >= 1 && t.maxGas >= 1
    requires config.accountQueue >= 1 && config.globalQueue >= 1
    ensures Waits(y) == true
  {
    assert Opened(0);
    assert RenewedAt(x.pending, x.queue, mid.pending, mid.queue, t, {}, config.accountQueue, mid.ends, 0);
    OtherRenewed(ListOf(mid.pending, 0), ListOf(mid.queue, 0), t.balanceAt(0), t.maxGas, config.accountQueue,
                 mid.ends[0]);
    forall a | a != 0
      ensures ListOf(mid.queue, a) == map[]
    {
      assert RenewedAt(x.pending, x.queue, mid.pending, mid.queue, t, {}, config.accountQueue, mid.ends, a);
    }
    TotalAlone(mid.queue, 0);
    assert y.queue == mid.queue;
    assert 0 in y.pending ==> LevelAt(mid.pending, {}, y.pending, mid.level, 0);
    assert LeftAt(x, y, OTHER) && LeftAt(x, y, SECOND);
    forall tx | tx in y.all
      ensures tx in x.all
    {
      assert LeftAt(x, y, tx);
    }
  }

  lemma OtherRenewed(pend: Txs, que: Txs, balance: nat, maxGas: nat, limit: nat, next: nat)
    requires Renewed(map[], map[1 := OTHER], pend, que, 0, balance, maxGas, false, limit, next)
    requires Contiguous(pend, 0, next) && balance >= 1 && maxGas >= 1 && limit >= 1
    ensures pend == map[] && que == map[1 := OTHER]
  {
    assert Opened(0);
    var q: Txs := map[1 := OTHER];
    assert Affordable(From(q, 0), false, balance, maxGas) == q;
    assert RenewedBy(map[], q, pend, que, next, false, limit);
    assert next > 0 ==> 0 in pend;
    assert From(q, 0) == q && Before(q, 0) == map[];
    assert |q| == 1 && que.Keys <= q.Keys;
    assert 1 !in que ==> que == map[];
  }

  /** Only one account has anything listed. */
  lemma {:induction false} TotalAlone(lists: AccountLists, a: Addr)
    requires forall b :: b != a ==> ListOf(lists, b) == map[]
    ensures Total(lists) == |ListOf(lists, a)|
    decreases |lists|
  {
    if b :| b in lists && b != a {
      TotalWithout(lists, b);
      assert ListOf(lists, b) == map[];
      forall c | c != a
        ensures ListOf(lists - {b}, c) == map[]
      {
        assert ListOf(lists, c) == map[];
      }
      TotalAlone(lists - {b}, a);
    } else if a in lists {
      TotalWithout(lists, a);
      assert lists - {a} == map[];
    } else {
      assert lists == map[];
    }
  }

  /** The floor goes up to 3: the second leaves, and takes the other off the queue. */
  lemma OtherUnhooked(z: Holdings)
    requires Waits(z)
    ensures Without(z, SECOND).all == {OTHER} && !InLists(Without(z, SECOND), OTHER)
  {
    assert map[1 := OTHER] - {1} == map[];
  }

  /**
   The same on the pool, from a state that two additions reach.  In the end the other is known and in no list, though it
   pays the floor and nobody removed it.
   */
  method UnhooksOther(pool: TxPool)
    requires pool.Kept() == true && Pair(pool.Here()) && pool.gasPrice == 1 && pool.dirty == {}
    requires pool.config.accountQueue >= 1 && pool.config.globalQueue >= 1 && Capacity(pool.config) > 2
    requires pool.nonceAt(0) == 0 && pool.balanceAt(0) >= 1 && pool.maxGas >= 1
    modifies pool, pool.priced
    ensures pool.Kept() == true && pool.all == {OTHER} && !InLists(pool.Here(), OTHER) && pool.gasPrice == 3
  {
    ghost var x := pool.Here();
    SecondStranded(x);
    RaiseFloor(pool, 2, FIRST, x);
    AddOther(pool);
    ghost var z := pool.Here();
    OtherUnhooked(z);
    RaiseFloor(pool, 3, SECOND, z);
  }

  method RaiseFloor(pool: TxPool, price: nat, tx: Tx, ghost x: Holdings)
    requires pool.Kept() == true && x == pool.Here() && tx in x.all && tx.price < price && x.locals == {}
    requires forall t :: t in x.all && t.price < price ==> t == tx
    modifies pool, pool.priced
    ensures pool.Kept() == true && pool.Here() == Without(x, tx) && pool.gasPrice == price
    ensures pool.dirty == old(pool.dirty)
    ensures pool.nonceAt == old(pool.nonceAt) && pool.balanceAt == old(pool.balanceAt)
    ensures pool.maxGas == old(pool.maxGas)
  {
    ghost var gone := pool.SetGasPrice(price);
    OnlyOne(x, gone, tx);
  }

  method AddOther(pool: TxPool)
    requires pool.Kept() == true && pool.Here() == Holdings(map[], map[], {SECOND}, {}) && pool.dirty == {}
    requires pool.config.accountQueue >= 1 && pool.config.globalQueue >= 1 && Capacity(pool.config) > 2
    requires pool.gasPrice == 2 && pool.nonceAt(0) == 0 && pool.balanceAt(0) >= 1 && pool.maxGas >= 1
    modifies pool, pool.priced
    ensures pool.Kept() == true && Waits(pool.Here()) == true
  {
    ghost var y, t := pool.Here(), pool.TermsNow();
    OtherQueued(y);
    var ok;
    ghost var replace, gone, placed, mid;
    ok, replace, gone, placed, mid := pool.AddTx(OTHER, false, true);
    InsertedRoom(y, placed, pool.config, OTHER, false, true, gone, ok, replace);
    OtherWaits(placed, pool.Here(), mid, t, pool.config);
  }

  /** A transaction that is named more than once leaves once. */
  lemma {:induction false} OnlyOne(x: Holdings, txs: seq<Tx>, tx: Tx)
    requires P.AsSet(txs) == {tx} && tx in x.all
    ensures Changed(x, Drops(txs)) == Without(x, tx)
    decreases |txs|
  {
    assert |txs| > 0 && txs[0] in P.AsSet(txs) && txs[|txs| - 1] in P.AsSet(txs);
    var front := txs[..|txs| - 1];
    assert Drops(txs)[..|front|] == Drops(front);
    if front != [] {
      assert front[0] in P.AsSet(txs);
      assert P.AsSet(front) == {tx};
      OnlyOne(x, front, tx);
    }
  }

  /** The nonce behind the last transaction of a list. */
  method After(m: Txs, ghost lo: nat) returns (next: nat)
    requires Keyed(m) && Contiguous(m, lo, lo + |m|) && m != map[]
    ensures next == lo + |m|
  {
    var txs := Flattening(true, m);
    LastNonce(m, lo, txs);
    next := txs[|txs| - 1].nonce + 1;
  }

  /** The lists of the first `i` accounts are empty; those of accounts not named are as at the start. */
  ghost predicate MidEvict(addresses: seq<Addr>, i: nat, start: AccountLists, now: AccountLists) {
    && i <= |addresses|
    && (forall j, k :: 0 <= j < k < |addresses| ==> addresses[j] != addresses[k])
    && (forall j :: 0 <= j < i ==> ListOf(now, addresses[j]) == map[])
    && (forall j :: i <= j < |addresses| ==> addresses[j] in now)
    && (forall a {:trigger ListOf(now, a)} :: a !in addresses ==> ListOf(now, a) == ListOf(start, a))
  }

  lemma MidEvictNext(addresses: seq<Addr>, i: nat, start: AccountLists, now: AccountLists)
    requires MidEvict(addresses, i, start, now) && i < |addresses|
    ensures addresses[i] in now
  {
  }

  lemma MidEvictStep(addresses: seq<Addr>, i: nat, start: AccountLists, now: AccountLists, now': AccountLists)
    requires MidEvict(addresses, i, start, now) && i < |addresses|
    requires ListOf(now', addresses[i]) == map[] && Elsewhere(now, now', addresses[i])
    ensures MidEvict(addresses, i + 1, start, now')
  {
    forall a | a !in addresses
      ensures ListOf(now', a) == ListOf(start, a)
    {
      assert ListOf(now', a) == ListOf(now, a);
    }
  }

  lemma EvictDone(addresses: seq<Addr>, start: AccountLists, now: AccountLists, locals: set<Addr>, inactive: set<Addr>)
    requires MidEvict(addresses, |addresses|, start, now)
    requires forall i :: 0 <= i < |addresses| ==> addresses[i] in inactive && addresses[i] !in locals
    requires forall a :: a in start && a in inactive && a !in locals ==> a in addresses
    ensures forall a :: a in inactive && a !in locals ==> ListOf(now, a) == map[]
    ensures forall a {:trigger ListOf(now, a)} :: a !in inactive || a in locals ==> ListOf(now, a) == ListOf(start, a)
  {
    forall a | a in inactive && a !in locals
      ensures ListOf(now, a) == map[]
    {
      if a in addresses {
        var j :| 0 <= j < |addresses| && addresses[j] == a;
      }
    }
  }

  /** Distinct accounts with a queue list, among them every one that has something queued and is not local. */
  ghost predicate Waiting(addresses: seq<Addr>, queue: AccountLists, locals: set<Addr>) {
    && (forall i, j :: 0 <= i < j < |addresses| ==> addresses[i] != addresses[j])
    && (forall i :: 0 <= i < |addresses| ==> addresses[i] in queue)
    && (forall a :: a in queue && queue[a] != map[] && a !in locals ==> a in addresses)
  }

  /** Accounts are still to be looked at, and the others keep all or nothing; or enough has gone.  Closed. */
  ghost predicate Limiting(start: AccountLists, now: AccountLists, addresses: seq<Addr>, locals: set<Addr>, drop: nat) {
    forall k: int {:trigger Opened(k)} :: Sealed(k) ==>
      || (Waiting(addresses, now, locals) && Cutting(start, now, addresses, locals))
      || (drop == 0 && QueueCut(start, now, locals))
  }

  lemma StillWaiting(start: AccountLists, now: AccountLists, addresses: seq<Addr>, locals: set<Addr>, drop: nat)
    requires Waiting(addresses, now, locals) == true && Cutting(start, now, addresses, locals) == true
    ensures Limiting(start, now, addresses, locals, drop) == true
  {
  }

  lemma JustFits(start: AccountLists, now: AccountLists, addresses: seq<Addr>, locals: set<Addr>)
    requires QueueCut(start, now, locals) == true
    ensures Limiting(start, now, addresses, locals, 0) == true
  {
  }

  lemma LimitingParts(start: AccountLists, now: AccountLists, addresses: seq<Addr>, locals: set<Addr>, drop: nat)
    requires Limiting(start, now, addresses, locals, drop) && drop > 0 && addresses != []
    ensures Waiting(addresses, now, locals) == true && Cutting(start, now, addresses, locals) == true
    ensures addresses[|addresses| - 1] in now
  {
    assert Opened(0);
  }

  /** The loop has ended: the queue is cut to the limit, or to what is local. */
  lemma LimitDone(start: AccountLists, now: AccountLists, addresses: seq<Addr>, locals: set<Addr>, drop: nat)
    requires (drop == 0 || addresses == []) && Limiting(start, now, addresses, locals, drop)
    ensures QueueCut(start, now, locals) == true
    ensures drop > 0 ==> Waiting([], now, locals) && forall a :: a !in locals ==> ListOf(now, a) == map[]
  {
    assert Opened(0);
    if Waiting(addresses, now, locals) && Cutting(start, now, addresses, locals) {
      CuttingDone(start, now, addresses, locals);
    }
  }

  lemma WaitingLess(addresses: seq<Addr>, queue: AccountLists, queue': AccountLists, locals: set<Addr>)
    requires Waiting(addresses, queue, locals) && addresses != []
    requires var a := addresses[|addresses| - 1]; ListOf(queue', a) == map[] && Elsewhere(queue, queue', a)
    ensures Waiting(addresses[..|addresses| - 1], queue', locals)
  {
    var a, rest := addresses[|addresses| - 1], addresses[..|addresses| - 1];
    assert addresses == rest + [a];
    forall b | b in queue' && queue'[b] != map[] && b !in locals
      ensures b in rest
    {
      assert b != a && ListOf(queue', b) == ListOf(queue, b);
    }
  }

  /** The accounts, each once; the order by last activity is left open. */
  method ByHeartbeat(accounts: set<Addr>) returns (addresses: seq<Addr>)
    ensures forall i, j :: 0 <= i < j < |addresses| ==> addresses[i] != addresses[j]
    ensures (forall i :: 0 <= i < |addresses| ==> addresses[i] in accounts)
    ensures forall a :: a in accounts ==> a in addresses
  {
    addresses := [];
    var todo := accounts;
    while todo != {}
      invariant todo <= accounts && forall i :: 0 <= i < |addresses| ==> addresses[i] in accounts - todo
      invariant forall a :: a in accounts - todo ==> a in addresses
      invariant forall i, j :: 0 <= i < j < |addresses| ==> addresses[i] != addresses[j]
    {
      var a :| a in todo;
      todo, addresses := todo - {a}, addresses + [a];
    }
  }

  /** The total length of all lists. */
  method CountAll(lists: AccountLists) returns (count: nat)
    ensures count == Total(lists)
  {
    count := 0;
    var rest := lists;
    while rest.Keys != {}
      invariant count + Total(rest) == Total(lists)
      decreases rest.Keys
    {
      var a :| a in rest.Keys;
      TotalWithout(rest, a);
      count := count + |rest[a]|;
      assert (rest - {a}).Keys == rest.Keys - {a};
      rest := rest - {a};
    }
    assert Sizes(rest) == map[];
  }

  /** An account with a longest list, as the priority queue gives it. */
  method Longest(lists: AccountLists, accounts: set<Addr>) returns (longest: Addr)
    requires accounts != {} && accounts <= lists.Keys
    ensures longest in accounts && forall a :: a in accounts ==> |lists[a]| <= |lists[longest]|
  {
    longest :| longest in accounts;
    var todo := accounts;
    while todo != {}
      invariant longest in accounts && todo <= accounts
      invariant forall a :: a in accounts && a !in todo ==> |lists[a]| <= |lists[longest]|
    {
      var a :| a in todo;
      todo := todo - {a};
      if |lists[longest]| < |lists[a]| {
        longest := a;
      }
    }
  }

  // ---------------------------------------------------------------- rounds

  ghost predicate Distinct(accounts: seq<Addr>) {
    forall i, j :: 0 <= i < j < |accounts| ==> accounts[i] != accounts[j]
  }

  /** Accounts that are not local and stand at the level. */
  ghost predicate Offenders(offenders: seq<Addr>, locals: set<Addr>, now: AccountLists, level: nat) {
    forall i {:trigger OffenderAt(offenders, locals, now, level, i)} ::
      0 <= i < |offenders| ==> OffenderAt(offenders, locals, now, level, i)
  }

  ghost predicate OffenderAt(offenders: seq<Addr>, locals: set<Addr>, now: AccountLists, level: nat, i: int)
    requires 0 <= i < |offenders|
  {
    offenders[i] in now && offenders[i] !in locals && |now[offenders[i]]| == level
  }

  /** Every other account that is not local is below the level. */
  ghost predicate OthersBelow(offenders: seq<Addr>, locals: set<Addr>, whole: AccountLists, level: nat) {
    forall a :: a in whole && a !in locals && a !in offenders ==> |whole[a]| < level
  }

  /** The offenders are distinct and every other account that is not local is below the level; closed. */
  ghost predicate Settled(offenders: seq<Addr>, locals: set<Addr>, whole: AccountLists, level: nat) {
    forall k: int {:trigger Opened(k)} :: Sealed(k) && k == SETTLED ==>
      Distinct(offenders) && OthersBelow(offenders, locals, whole, level)
  }

  /** The lists hold `count` transactions; closed. */
  ghost predicate Counted(lists: AccountLists, count: int) {
    forall k: int {:trigger Opened(k)} :: Sealed(k) && k == COUNTED ==> Total(lists) == count
  }

  /** The first `i` offenders have lost one transaction each. */
  ghost predicate MidRound(whole: AccountLists, locals: set<Addr>, start: AccountLists, now: AccountLists,
                           offenders: seq<Addr>, i: nat, level: nat) {
    && level > 0 && i <= |offenders| && AtLevel(whole, locals, start, level)
    && Distinct(offenders) && Offenders(offenders, locals, start, level)
    && now.Keys == whole.Keys && forall a :: a in whole ==> MidAt(whole, start, now, offenders[..i], level, a)
  }

  ghost predicate MidAt(whole: AccountLists, start: AccountLists, now: AccountLists, cut: seq<Addr>, level: nat,
                        a: Addr)
    requires level > 0 && a in whole && a in start && a in now
  {
    if a in cut then Capped(whole[a], now[a], level - 1) else now[a] == start[a]
  }

  lemma MidNext(whole: AccountLists, locals: set<Addr>, start: AccountLists, now: AccountLists,
                offenders: seq<Addr>, i: nat, level: nat)
    requires MidRound(whole, locals, start, now, offenders, i, level) && i < |offenders|
    ensures offenders[i] in now && now[offenders[i]] == start[offenders[i]] && |now[offenders[i]]| == level
  {
    assert offenders[i] !in offenders[..i];
    assert OffenderAt(offenders, locals, start, level, i);
    assert MidAt(whole, start, now, offenders[..i], level, offenders[i]);
  }

  lemma MidStep(whole: AccountLists, locals: set<Addr>, start: AccountLists, now: AccountLists,
                offenders: seq<Addr>, i: nat, level: nat, m: Txs)
    requires MidRound(whole, locals, start, now, offenders, i, level) && i < |offenders|
    requires offenders[i] in start && Capped(start[offenders[i]], m, level - 1)
    ensures MidRound(whole, locals, start, now[offenders[i] := m], offenders, i + 1, level)
  {
    var a := offenders[i];
    assert OffenderAt(offenders, locals, start, level, i) && LevelAt(whole, locals, start, level, a);
    CappedAgain(whole[a], start[a], level, m, level - 1);
    assert offenders[..i + 1] == offenders[..i] + [a];
    forall b | b in whole
      ensures MidAt(whole, start, now[a := m], offenders[..i + 1], level, b)
    {
      assert MidAt(whole, start, now, offenders[..i], level, b);
    }
  }

  lemma MidDone(whole: AccountLists, locals: set<Addr>, start: AccountLists, now: AccountLists,
                offenders: seq<Addr>, level: nat)
    requires MidRound(whole, locals, start, now, offenders, |offenders|, level)
    requires OthersBelow(offenders, locals, whole, level)
    ensures AtLevel(whole, locals, now, level - 1)
  {
    assert offenders[..|offenders|] == offenders;
    forall a | a in whole
      ensures LevelAt(whole, locals, now, level - 1, a)
    {
      assert MidAt(whole, start, now, offenders, level, a) && LevelAt(whole, locals, start, level, a);
      if a in offenders {
        var j :| 0 <= j < |offenders| && offenders[j] == a;
        assert OffenderAt(offenders, locals, start, level, j);
      }
    }
  }

  /** Cutting a pending list by one drops the transaction before the pending nonce. */
  lemma CutsLast(pending: AccountLists, queue: AccountLists, nonceAt: Addr -> nat, managed: map<Addr, nat>,
                 all: set<Tx>, a: Addr, m: Txs, drops: seq<Tx>) returns (last: Tx)
    requires Sound(pending, queue, nonceAt, managed, all) && a in pending && |pending[a]| > 0
    requires Capped(pending[a], m, |pending[a]| - 1) == true && Lists(drops, pending[a] - m.Keys) == true
    ensures drops == [last] && last.nonce < Next(nonceAt, managed, a) && Holds(pending[a], last)
    ensures m == pending[a] - {last.nonce}
    ensures Sound(pending[a := m], queue, nonceAt, managed[a := last.nonce], all - {last}) == true
  {
    assert FineAt(pending, queue, nonceAt, managed, all, a);
    last := LastCut(pending[a], nonceAt(a), Next(nonceAt, managed, a), m, drops);
    RemovesPending(pending, queue, nonceAt, managed, all, pending[a := m], queue, last);
  }

  lemma LastCut(pend: Txs, lo: nat, hi: nat, m: Txs, drops: seq<Tx>) returns (last: Tx)
    requires Keyed(pend) && Contiguous(pend, lo, hi) && |pend| > 0
    requires Capped(pend, m, |pend| - 1) == true && Lists(drops, pend - m.Keys) == true
    ensures drops == [last] && Holds(pend, last) && last.nonce == hi - 1 && m == Before(pend, last.nonce)
  {
    ContiguousSize(pend, lo, hi);
    CappedContiguous(pend, lo, hi, m, |pend| - 1);
    OneDropped(pend, lo, hi, drops, m);
    last := pend[hi - 1];
  }

  /** A transaction that enters the queue may be executable, unless it takes the place of one that was not. */
  lemma EntersDirty(queue: AccountLists, nonceAt: Addr -> nat, managed: map<Addr, nat>, dirty: set<Addr>, tx: Tx,
                    dirty': set<Addr>)
    requires Exhausted(queue, nonceAt, managed, dirty)
    requires dirty' == if tx.nonce in ListOf(queue, tx.sender) then dirty else dirty + {tx.sender}
    ensures Exhausted(queue[tx.sender := ListOf(queue, tx.sender)[tx.nonce := tx]], nonceAt, managed, dirty') == true
  {
    var a := tx.sender;
    var queue' := queue[a := ListOf(queue, a)[tx.nonce := tx]];
    StoredElsewhere(queue, a, ListOf(queue, a)[tx.nonce := tx]);
    assert a !in dirty ==> IdleAt(queue, nonceAt, managed, a);
    ExhaustedStep(queue, nonceAt, managed, dirty, queue', managed, dirty', a);
  }

  lemma OneDropped(pend: Txs, lo: nat, hi: nat, drops: seq<Tx>, m: Txs)
    requires Contiguous(pend, lo, hi) && lo < hi && m == Before(pend, hi - 1)
    requires Lists(drops, pend - m.Keys) == true
    ensures drops == [pend[hi - 1]]
  {
    var gone := pend - m.Keys;
    assert gone == map[hi - 1 := pend[hi - 1]];
    ListsCount(drops, gone);
    ListsIn(drops, gone, drops[0]);
  }

  lemma OffendersSink(offenders: seq<Addr>, locals: set<Addr>, whole: AccountLists, before: AccountLists,
                      now: AccountLists, level: nat)
    requires level > 0 && AtLevel(whole, locals, before, level) && Offenders(offenders, locals, before, level)
    requires AtLevel(whole, locals, now, level - 1)
    ensures Offenders(offenders, locals, now, level - 1)
  {
    forall i {:trigger OffenderAt(offenders, locals, now, level - 1, i)} | 0 <= i < |offenders|
      ensures OffenderAt(offenders, locals, now, level - 1, i)
    {
      var a := offenders[i];
      assert OffenderAt(offenders, locals, before, level, i);
      assert LevelAt(whole, locals, before, level, a) && LevelAt(whole, locals, now, level - 1, a);
    }
  }

  /** The offenders have gone from one level down to another, the lists above the latter being too long; closed. */
  ghost predicate Lowered(whole: AccountLists, locals: set<Addr>, start: AccountLists, now: AccountLists,
                          offenders: seq<Addr>, level0: nat, level: nat, limit: nat) {
    forall k: int {:trigger Opened(k)} :: Sealed(k) && k == level ==>
      && AtLevel(whole, locals, now, level) && Offenders(offenders, locals, now, level) && level <= level0
      && if level == level0 then now == start else Overfull(whole, locals, level + 1, limit)
  }

  lemma LoweredLength(whole: AccountLists, locals: set<Addr>, start: AccountLists, now: AccountLists,
                      offenders: seq<Addr>, level0: nat, level: nat, limit: nat)
    requires Lowered(whole, locals, start, now, offenders, level0, level, limit) == true && offenders != []
    ensures |ListOf(now, offenders[|offenders| - 1])| == level
  {
    assert Opened(level);
    assert OffenderAt(offenders, locals, now, level, |offenders| - 1);
  }

  /** Offenders stand at the level, and every other account above the guaranteed slots waits below it. */
  ghost predicate Phase(whole: AccountLists, locals: set<Addr>, now: AccountLists, offenders: seq<Addr>,
                        spammers: set<Addr>, level: nat, slots: nat) {
    && AtLevel(whole, locals, now, level) && slots < level
    && Distinct(offenders) && Offenders(offenders, locals, now, level)
    && (offenders == [] ==> now == whole)
    && (forall a :: a in whole && a !in locals && a !in offenders && a !in spammers ==> |whole[a]| <= slots)
    && (forall a :: a in spammers ==> a in whole && a !in locals && a !in offenders && slots < |whole[a]| <= level)
  }

  /** Where the first part of equalising stands; only a pool that is still too full goes on. */
  ghost predicate Progress(whole: AccountLists, locals: set<Addr>, now: AccountLists, offenders: seq<Addr>,
                           spammers: set<Addr>, level: nat, slots: nat, limit: nat) {
    && AtLevel(whole, locals, now, level) && slots < level
    && (now == whole || Overfull(whole, locals, level + 1, limit))
    && (Total(now) > limit ==> Phase(whole, locals, now, offenders, spammers, level, slots))
    && spammers <= now.Keys
  }

  lemma PhaseStart(whole: AccountLists, locals: set<Addr>, spammers: set<Addr>, slots: nat, limit: nat)
    returns (level: nat)
    requires spammers == set a | a in whole && a !in locals && |whole[a]| > slots
    ensures Progress(whole, locals, whole, [], spammers, level, slots, limit) == true
  {
    level := Total(whole) + slots + 1;
    forall a | a in whole
      ensures |whole[a]| <= Total(whole)
    {
      TotalWithout(whole, a);
    }
  }

  lemma PhasePop(whole: AccountLists, locals: set<Addr>, now: AccountLists, offenders: seq<Addr>,
                 spammers: set<Addr>, level: nat, slots: nat, limit: nat, offender: Addr)
    requires Phase(whole, locals, now, offenders, spammers, level, slots) && offender in spammers
    requires forall a :: a in spammers ==> a in now && |now[a]| <= |now[offender]|
    ensures slots < |now[offender]| == |whole[offender]| <= level
    ensures Settled(offenders, locals, whole, |now[offender]| + 1) == true
    ensures Lowered(whole, locals, now, now, offenders, level, level, limit) == true
  {
    assert Opened(SETTLED);
    forall a | a in spammers
      ensures |now[a]| == |whole[a]|
    {
      assert LevelAt(whole, locals, now, level, a);
    }
  }

  lemma PhaseFirst(whole: AccountLists, locals: set<Addr>, now: AccountLists, spammers: set<Addr>, level0: nat,
                   level: nat, slots: nat, limit: nat, offender: Addr)
    requires Phase(whole, locals, now, [], spammers, level0, slots) == true && offender in spammers
    requires offender in whole && slots < level == |whole[offender]| && spammers <= now.Keys
    requires Settled([], locals, whole, level + 1) == true
    ensures Progress(whole, locals, now, [offender], spammers - {offender}, level, slots, limit) == true
  {
    assert Opened(SETTLED);
    FirstOffender(whole, locals, now, spammers, level0, level, slots, offender);
    assert [] + [offender] == [offender];
  }

  lemma PhaseNext(whole: AccountLists, locals: set<Addr>, before: AccountLists, now: AccountLists, offenders: seq<Addr>,
                  spammers: set<Addr>, level0: nat, level: nat, slots: nat, limit: nat, offender: Addr)
    requires Phase(whole, locals, before, offenders, spammers, level0, slots) == true
    requires before == whole || Overfull(whole, locals, level0 + 1, limit) == true
    requires offender in spammers && offender in whole && slots < |whole[offender]| <= level && spammers <= whole.Keys
    requires Settled(offenders, locals, whole, |whole[offender]| + 1) == true
    requires Lowered(whole, locals, before, now, offenders, level0, level, limit) == true
    requires Total(now) <= limit || level == |whole[offender]|
    ensures Progress(whole, locals, now, offenders + [offender], spammers - {offender}, level, slots, limit) == true
  {
    StillLevel(whole, locals, before, now, offenders, level0, level, limit);
    if Total(now) > limit {
      JoinLowered(whole, locals, before, now, offenders, spammers, level0, level, slots, limit, offender);
    }
  }

  lemma StillLevel(whole: AccountLists, locals: set<Addr>, before: AccountLists, now: AccountLists,
                   offenders: seq<Addr>, level0: nat, level: nat, limit: nat)
    requires Lowered(whole, locals, before, now, offenders, level0, level, limit) == true
    requires before == whole || Overfull(whole, locals, level0 + 1, limit) == true
    ensures AtLevel(whole, locals, now, level) == true && now.Keys == whole.Keys
    ensures now == whole || Overfull(whole, locals, level + 1, limit) == true
  {
    assert Opened(level);
  }

  lemma JoinLowered(whole: AccountLists, locals: set<Addr>, before: AccountLists, now: AccountLists,
                    offenders: seq<Addr>, spammers: set<Addr>, level0: nat, level: nat, slots: nat, limit: nat,
                    offender: Addr)
    requires Phase(whole, locals, before, offenders, spammers, level0, slots) == true && offender in spammers
    requires offender in whole && level == |whole[offender]| && Settled(offenders, locals, whole, level + 1) == true
    requires Lowered(whole, locals, before, now, offenders, level0, level, limit) == true
    ensures Phase(whole, locals, now, offenders + [offender], spammers - {offender}, level, slots) == true
  {
    assert Opened(level) && Opened(SETTLED);
    JoinOffenders(whole, locals, now, offenders, spammers, level, slots, offender);
  }

  lemma FirstOffender(whole: AccountLists, locals: set<Addr>, now: AccountLists, spammers: set<Addr>,
                      level0: nat, level: nat, slots: nat, offender: Addr)
    requires Phase(whole, locals, now, [], spammers, level0, slots) && offender in spammers
    requires level == |whole[offender]|
    requires OthersBelow([], locals, whole, level + 1)
    ensures AtLevel(whole, locals, now, level)
    ensures Phase(whole, locals, now, [] + [offender], spammers - {offender}, level, slots)
  {
    forall a | a in whole
      ensures LevelAt(whole, locals, now, level, a)
    {
    }
    JoinOffenders(whole, locals, now, [], spammers, level, slots, offender);
  }

  lemma JoinOffenders(whole: AccountLists, locals: set<Addr>, now: AccountLists, offenders: seq<Addr>,
                      spammers: set<Addr>, level: nat, slots: nat, offender: Addr)
    requires AtLevel(whole, locals, now, level) && Distinct(offenders) && Offenders(offenders, locals, now, level)
    requires offender in spammers && offender in whole && slots < |whole[offender]| == level
    requires forall a :: a in whole && a !in locals && a !in offenders && a !in spammers ==> |whole[a]| <= slots
    requires forall a :: a in spammers ==> a in whole && a !in locals && a !in offenders && slots < |whole[a]|
    requires OthersBelow(offenders, locals, whole, level + 1)
    ensures Phase(whole, locals, now, offenders + [offender], spammers - {offender}, level, slots)
  {
    assert LevelAt(whole, locals, now, level, offender);
    forall i {:trigger OffenderAt(offenders + [offender], locals, now, level, i)} | 0 <= i <= |offenders|
      ensures OffenderAt(offenders + [offender], locals, now, level, i)
    {
      assert i < |offenders| ==> OffenderAt(offenders, locals, now, level, i);
    }
  }

  lemma PhaseEnd(whole: AccountLists, locals: set<Addr>, now: AccountLists, offenders: seq<Addr>, level: nat,
                 slots: nat, limit: nat)
    requires Progress(whole, locals, now, offenders, {}, level, slots, limit) == true && Total(now) > limit
    ensures Settled(offenders, locals, whole, slots + 1) == true && slots < level
    ensures Lowered(whole, locals, now, now, offenders, level, level, limit) == true
  {
    assert Opened(SETTLED);
  }

  lemma ProgressDone(whole: AccountLists, locals: set<Addr>, before: AccountLists, now: AccountLists,
                     offenders: seq<Addr>, spammers: set<Addr>, level0: nat, level: nat, slots: nat, limit: nat)
    requires Progress(whole, locals, before, offenders, spammers, level0, slots, limit) == true
    requires Total(before) <= limit || spammers == {}
    requires if Total(before) > limit && offenders != []
             then Lowered(whole, locals, before, now, offenders, level0, level, limit) == true && slots <= level
                  && (Total(now) <= limit || level == slots)
             else now == before && level == level0
    ensures Equalised(whole, locals, now, level, slots, limit) == true
  {
    if Total(before) > limit && offenders != [] {
      LoweredDone(whole, locals, before, now, offenders, level0, level, slots, limit);
    } else if Total(before) > limit {
      assert Phase(whole, locals, before, offenders, spammers, level0, slots);
    }
  }

  lemma LoweredDone(whole: AccountLists, locals: set<Addr>, before: AccountLists, now: AccountLists,
                    offenders: seq<Addr>, level0: nat, level: nat, slots: nat, limit: nat)
    requires before == whole || Overfull(whole, locals, level0 + 1, limit)
    requires Lowered(whole, locals, before, now, offenders, level0, level, limit) && slots <= level
    requires Total(now) <= limit || level == slots
    ensures Equalised(whole, locals, now, level, slots, limit)
  {
    assert Opened(level);
    if Total(now) > limit {
      LevelBounds(whole, locals, now, level);
    }
  }

  lemma LevelBounds(whole: AccountLists, locals: set<Addr>, now: AccountLists, level: nat)
    requires AtLevel(whole, locals, now, level)
    ensures forall a :: a in now && a !in locals ==> |now[a]| <= level
  {
    forall a | a in now && a !in locals
      ensures |now[a]| <= level
    {
      assert LevelAt(whole, locals, now, level, a);
    }
  }


  // ---------------------------------------------------------------- runs

  datatype Op =
    | AddOne(tx: Tx, local: bool, wellFormed: bool)
    | AddMany(batch: seq<(Tx, bool)>, local: bool)
    | Price(price: nat)
    | Timeout(inactive: set<Addr>)
    | Head(nonceAt: Addr -> nat, balanceAt: Addr -> nat, maxGas: nat)

  /**
   An operation with the states before and after it: what was accepted, what left to make room or for the floor, the
   state before promotion, and the accounts that were promoted.
   */
  datatype Step = Step(before: Holdings, terms0: Terms, op: Op, after: Holdings, terms: Terms, accepted: seq<bool>,
                       replace: bool, gone: seq<seq<Tx>>, placed: Holdings, changed: set<Addr>, mid: Mid)

  /** The step does what its operation promises. */
  ghost predicate Did(config: Config, d: Step) {
    match d.op
    case AddOne(tx, local, wellFormed) =>
      && |d.accepted| == |d.gone| == 1 && d.terms == d.terms0 && d.changed == Gets(tx, d.accepted[0], d.replace)
      && Inserted(d.before, d.placed, config, tx, local, Checked(d.before, d.terms0, tx, local, wellFormed), d.gone[0],
                  d.accepted[0], d.replace)
      && Follows(config, d)
    case AddMany(batch, local) =>
      && d.terms == d.terms0 && Follows(config, d)
      && Batching(d.before, d.terms0, config, batch, local, d.gone, d.accepted, d.changed, d.placed)
    case Price(price) =>
      && |d.gone| == 1 && d.after == Changed(d.before, Drops(d.gone[0])) && d.terms == d.terms0.(gasPrice := price)
      && P.AsSet(d.gone[0]) == set tx | tx in d.before.all && tx.price < price && tx.sender !in d.before.locals
    case Timeout(inactive) =>
      d.terms == d.terms0 && Evicted(d.before, d.after, inactive) && Forgets(d.before, d.after)
    case Head(nonceAt, balanceAt, maxGas) =>
      && d.terms == d.terms0.(nonceAt := nonceAt, balanceAt := balanceAt, maxGas := maxGas)
      && Split(d.before.pending, d.before.queue, d.placed.pending, d.placed.queue, nonceAt, balanceAt, maxGas, {})
      && d.placed.all == Unspent(d.before, nonceAt, balanceAt, maxGas) && d.placed.locals == d.before.locals
      && d.changed == d.placed.queue.Keys && Advances(config, d)
  }

  /** Promotion of the accounts that got something new, if there are any. */
  ghost predicate Follows(config: Config, d: Step) {
    if d.changed == {} then d.after == d.placed else Advances(config, d)
  }

  ghost predicate Advances(config: Config, d: Step) {
    && d.mid.ends.Keys == d.changed && d.after.locals == d.placed.locals && Forgets(d.placed, d.after)
    && Promotion(d.placed.pending, d.placed.queue, d.mid, d.after.pending, d.after.queue, d.terms, d.after.locals,
                 config)
  }

  /** Exactly the queues of inactive accounts that are not local are gone. */
  ghost predicate Evicted(x: Holdings, y: Holdings, inactive: set<Addr>) {
    && y.pending == x.pending && y.locals == x.locals
    && forall a {:trigger ListOf(y.queue, a)} ::
         ListOf(y.queue, a) == if a in inactive && a !in x.locals then map[] else ListOf(x.queue, a)
  }

  /** The steps are those of the operations, one after the other, from `start` to `end`. */
  ghost predicate Traced(config: Config, ops: seq<Op>, steps: seq<Step>, start: Holdings, terms0: Terms, end: Holdings,
                         terms: Terms) {
    && |steps| == |ops| && (forall i :: 0 <= i < |steps| ==> steps[i].op == ops[i] && Did(config, steps[i]))
    && (forall i, j :: 0 <= i < j < |steps| && j == i + 1 ==>
          steps[j].before == steps[i].after && steps[j].terms0 == steps[i].terms)
    && (if steps == [] then end == start && terms == terms0
        else && steps[0].before == start && steps[0].terms0 == terms0
             && steps[|steps| - 1].after == end && steps[|steps| - 1].terms == terms)
  }

  lemma TracedMore(config: Config, ops: seq<Op>, i: nat, steps: seq<Step>, start: Holdings, terms0: Terms, d: Step)
    requires i < |ops| && Traced(config, ops[..i], steps, start, terms0, d.before, d.terms0)
    requires d.op == ops[i] && Did(config, d)
    ensures Traced(config, ops[..i + 1], steps + [d], start, terms0, d.after, d.terms) == true
  {
    assert ops[..i + 1] == ops[..i] + [ops[i]];
  }

  /** Every state a pool reaches keeps the invariant: contiguous lists, a complete price index and the price floor. */
  method Run(config: Config, priceLimit: nat, nonceAt: Addr -> nat, balanceAt: Addr -> nat, maxGas: nat, ops: seq<Op>)
    returns (pool: TxPool, ghost steps: seq<Step>)
    ensures pool.Valid({}) && pool.dirty == {} && pool.config == config
    ensures Traced(config, ops, steps, Holdings(map[], map[], {}, {}),
                   Terms(priceLimit, nonceAt, balanceAt, maxGas, config.priceBump),
                   pool.Here(), pool.TermsNow()) == true
  {
    pool := new TxPool(config, priceLimit, nonceAt, balanceAt, maxGas);
    steps := [];
    ghost var x, t := pool.Here(), pool.TermsNow();
    for i := 0 to |ops|
      invariant fresh(pool) && fresh(pool.priced) && pool.config == config
      invariant pool.Kept() == true && pool.dirty == {}
      invariant Traced(config, ops[..i], steps, x, t, pool.Here(), pool.TermsNow()) == true
    {
      ghost var d := Do(pool, ops[i]);
      TracedMore(config, ops, i, steps, x, t, d);
      steps := steps + [d];
    }
    assert ops[..|ops|] == ops;
    pool.Open();
  }

  method Do(pool: TxPool, op: Op) returns (ghost d: Step)
    requires pool.Kept() == true && pool.dirty == {}
    modifies pool, pool.priced
    ensures pool.Kept() == true && pool.dirty == {}
    ensures d.before == old(pool.Here()) && d.terms0 == old(pool.TermsNow()) && d.op == op
    ensures d.after == pool.Here() && d.terms == pool.TermsNow() && Did(pool.config, d) == true
  {
    ghost var x, t, none := pool.Here(), pool.TermsNow(), Mid(map[], map[], map[], 0);
    match op {
      case AddOne(tx, local, wellFormed) =>
        var ok;
        ghost var replace, gone, placed, mid;
        ok, replace, gone, placed, mid := pool.AddTx(tx, local, wellFormed);
        d := Step(x, t, op, pool.Here(), pool.TermsNow(), [ok], replace, [gone], placed, Gets(tx, ok, replace), mid);
      case AddMany(batch, local) =>
        ghost var accepted, gone, placed, changed, mid := pool.AddTxs(batch, local);
        d := Step(x, t, op, pool.Here(), pool.TermsNow(), accepted, false, gone, placed, changed, mid);
      case Price(price) =>
        ghost var drop := pool.SetGasPrice(price);
        d := Step(x, t, op, pool.Here(), pool.TermsNow(), [], false, [drop], x, {}, none);
      case Timeout(inactive) =>
        pool.Evict(inactive);
        d := Step(x, t, op, pool.Here(), pool.TermsNow(), [], false, [], x, {}, none);
      case Head(nonceAt, balanceAt, maxGas) =>
        ghost var demoted, mid := pool.Reset(nonceAt, balanceAt, maxGas);
        d := Step(x, t, op, pool.Here(), pool.TermsNow(), [], false, [], demoted, demoted.queue.Keys, mid);
    }
  }
}
