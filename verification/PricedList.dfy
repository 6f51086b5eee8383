/**
 The price index of the pool (core/tx_list.go): a heap of transactions by gas price that is cleaned
 lazily.  Removed transactions stay in it as stale entries, and a transaction may be in it twice.

 The pool's map of all transactions is shared with the index; since a hash determines its transaction
 the map is a set of transactions here.
 */
module PricedList {
  import Heap
  import opened TxList
  import opened Shared

  function Price(tx: Tx): int { tx.price }

  /** Every live transaction is in the heap. */
  ghost predicate Covers(items: seq<Tx>, all: set<Tx>) {
    forall tx :: tx in all ==> tx in items
  }

  lemma CoversPermuted(a: seq<Tx>, b: seq<Tx>, all: set<Tx>)
    requires Covers(a, all) && multiset(a) <= multiset(b)
    ensures Covers(b, all)
  {
    forall tx | tx in all
      ensures tx in b
    {
      assert tx in multiset(a);
      assert tx in multiset(b);
    }
  }

  class PricedList {
    var items: seq<Tx>
    var stales: int

    /** The transactions that the index has been told of and not yet told to be gone. */
    ghost var told: set<Tx>

    ghost predicate Valid(all: set<Tx>)
      reads this
    {
      Heap.IsHeap(items, Price) && Covers(items, all)
    }

    constructor ()
      ensures Valid({}) && items == [] && stales == 0 && told == {}
    {
      items, stales, told := [], 0, {};
    }

    method Put(tx: Tx, ghost all: set<Tx>)
      requires Valid(all)
      modifies this
      ensures Valid(all + {tx}) && multiset(items) == multiset(old(items)) + multiset{tx} && stales == old(stales)
      ensures told == old(told) + {tx}
    {
      ghost var before := items;
      told := told + {tx};
      items := Heap.Push(items, Price, tx);
      CoversPermuted(before, items, all);
      assert tx in multiset(items);
    }

    /** A transaction has left the pool; when a quarter of the heap is stale it is built anew from all that are left. */
    method Removed(all: set<Tx>, ghost live: set<Tx>, ghost gone: Tx)
      requires Valid(live) && live <= all && told - {gone} == all
      modifies this
      ensures Valid(live) && told == all
      ensures if old(stales) + 1 <= |old(items)| / 4 then items == old(items) && stales == old(stales) + 1
              else stales == 0 && multiset(items) == multiset(all)
    {
      told := all;
      stales := stales + 1;
      if stales <= |items| / 4 {
        return;
      }
      stales := 0;
      var fullHeap := Slice(all);
      items := Heap.Init(fullHeap, Price);
      CoversPermuted(fullHeap, items, all);
    }

    /** Take the cheapest entry off the heap; everything live other than it stays covered. */
    method PopCheapest(ghost all: set<Tx>) returns (tx: Tx)
      requires Valid(all) && items != []
      modifies this`items
      ensures Valid(all - {tx}) && |items| == |old(items)| - 1 && tx == old(items)[0]
      ensures Popped(old(items), items, tx) == true
      ensures forall t :: t in all ==> tx.price <= t.price
    {
      ghost var before := items;
      items, tx := Heap.Pop(items, Price);
      IsPopped(before, items, tx);
      forall t | t in all
        ensures tx.price <= t.price && (t != tx ==> t in items)
      {
        assert t in before && Price(tx) <= Price(t);
        assert t in multiset(before);
        if t != tx {
          assert t in multiset(items);
        }
      }
    }

    method PutAll(txs: seq<Tx>, ghost all: set<Tx>)
      requires Valid(all)
      modifies this`items
      ensures Valid(all + AsSet(txs)) && Pushed(old(items), items, txs) == true
    {
      for i := 0 to |txs|
        invariant Valid(all + AsSet(txs[..i])) && multiset(items) == multiset(old(items)) + multiset(txs[..i])
      {
        ghost var before := items;
        items := Heap.Push(items, Price, txs[i]);
        CoversPermuted(before, items, all + AsSet(txs[..i]));
        assert txs[i] in multiset(items);
        assert txs[..i + 1] == txs[..i] + [txs[i]];
      }
      assert txs[..|txs|] == txs;
      IsPushed(old(items), items, txs);
    }

    /** Find everything cheaper than the threshold that is not local; the heap covers the rest. */
    method Cap(threshold: nat, local: set<nat>, all: set<Tx>) returns (drop: seq<Tx>)
      requires Valid(all)
      modifies this`items, this`stales
      ensures forall tx :: tx in drop <==> tx in all && tx.price < threshold && tx.sender !in local
      ensures Valid(all - AsSet(drop))
      ensures Taken(old(items), items, drop, all, old(stales) - stales) == true
    {
      drop := [];
      var save := [];
      ghost var rest := all;
      TakenNone(items, all);
      assert drop + save == [];
      while items != []
        invariant Valid(rest) == true && rest == all - AsSet(drop) - AsSet(save)
        invariant AsSet(drop) <= all && AsSet(save) <= all
        invariant Taken(old(items), items, drop + save, all, old(stales) - stales) == true
        invariant forall tx :: tx in drop ==> tx.price < threshold && tx.sender !in local
        invariant forall tx :: tx in save ==> tx.sender in local
        decreases |items|
      {
        ghost var before := items;
        var tx := PopCheapest(rest);
        if tx !in all {
          stales := stales - 1;
          TakenStale(old(items), before, items, drop + save, all, old(stales) - stales - 1, tx);
          assert rest - {tx} == rest;
          continue;
        }
        TakenLive(old(items), before, items, drop, save, all, old(stales) - stales, tx);
        RestLess(all, drop, save, tx);
        rest := rest - {tx};
        if tx.price >= threshold {
          save := save + [tx];
          break;
        }
        if tx.sender in local {
          save := save + [tx];
        } else {
          drop := drop + [tx];
        }
      }
      ghost var left := items;
      PutAll(save, rest);
      TakenBack(old(items), left, items, drop, save, all, old(stales) - stales);
      assert rest + AsSet(save) >= all - AsSet(drop);
    }

    /** Whether a transaction pays no more than every live one; stale entries at the front are dropped. */
    method Underpriced(tx: Tx, local: set<nat>, all: set<Tx>) returns (under: bool)
      requires Valid(all)
      modifies this`items, this`stales
      ensures Valid(all) && Taken(old(items), items, [], all, old(stales) - stales) == true
      ensures under <==> tx.sender !in local && all != {} && forall t :: t in all ==> tx.price <= t.price
    {
      TakenNone(items, all);
      if tx.sender in local {
        return false;
      }
      while items != [] && items[0] !in all
        invariant Valid(all) && Taken(old(items), items, [], all, old(stales) - stales) == true
        decreases |items|
      {
        stales := stales - 1;
        ghost var before := items;
        var stale := PopCheapest(all);
        TakenStale(old(items), before, items, [], all, old(stales) - stales - 1, stale);
        assert all - {stale} == all;
      }
      if items == [] {
        return false;
      }
      var cheapest := items[0];
      forall t | t in all
        ensures cheapest.price <= t.price
      {
        var i: nat :| i < |items| && items[i] == t;
        Heap.RootIsLeast(items, Price, i);
      }
      under := cheapest.price >= tx.price;
    }

    /** Take the cheapest transactions that are not local, up to `count`; the heap covers the rest. */
    method Discard(count0: int, local: set<nat>, all: set<Tx>) returns (drop: seq<Tx>)
      requires Valid(all)
      modifies this`items, this`stales
      ensures AsSet(drop) <= all && (forall tx :: tx in drop ==> tx.sender !in local)
      ensures Valid(all - AsSet(drop))
      ensures Taken(old(items), items, drop, all, old(stales) - stales) == true
      ensures forall tx, t :: tx in drop && t in all && t !in drop && t.sender !in local ==> tx.price <= t.price
      ensures |drop| <= (if count0 < 0 then 0 else count0)
      ensures |drop| < count0 ==> forall t :: t in all && t.sender !in local ==> t in drop
    {
      var save;
      ghost var rest;
      drop, save, rest := PopMost(count0, local, all);
      ghost var left := items;
      PutAll(save, rest);
      TakenBack(old(items), left, items, drop, save, all, old(stales) - stales);
      BelowRest(drop, save, rest, all, local);
      assert rest + AsSet(save) >= all - AsSet(drop);
    }

    /** Pop the cheapest until enough are found that are not local. */
    method PopMost(count0: int, local: set<nat>, all: set<Tx>)
      returns (drop: seq<Tx>, save: seq<Tx>, ghost rest: set<Tx>)
      requires Valid(all)
      modifies this`items, this`stales
      ensures Valid(rest) && rest == all - AsSet(drop) - AsSet(save) && AsSet(drop) <= all && AsSet(save) <= all
      ensures Taken(old(items), items, drop + save, all, old(stales) - stales) == true && Below(drop, rest) == true
      ensures forall tx :: tx in drop ==> tx.sender !in local
      ensures forall tx :: tx in save ==> tx.sender in local
      ensures |drop| <= (if count0 < 0 then 0 else count0) && (|drop| < count0 ==> rest == {})
    {
      drop, save, rest := [], [], all;
      var count := count0;
      TakenNone(items, all);
      BelowNone(all);
      assert drop + save == [];
      while items != [] && count > 0
        invariant Valid(rest) == true && rest == all - AsSet(drop) - AsSet(save)
        invariant AsSet(drop) <= all && AsSet(save) <= all && Below(drop, rest) == true
        invariant Taken(old(items), items, drop + save, all, old(stales) - stales) == true
        invariant |drop| + count == count0 && (count < 0 ==> drop == [])
        invariant forall tx :: tx in drop ==> tx.sender !in local
        invariant forall tx :: tx in save ==> tx.sender in local
        decreases |items|
      {
        ghost var before := items;
        var tx := PopCheapest(rest);
        if tx !in all {
          stales := stales - 1;
          TakenStale(old(items), before, items, drop + save, all, old(stales) - stales - 1, tx);
          assert rest - {tx} == rest;
          continue;
        }
        TakenLive(old(items), before, items, drop, save, all, old(stales) - stales, tx);
        BelowMore(drop, rest, tx);
        RestLess(all, drop, save, tx);
        if tx.sender in local {
          save := save + [tx];
        } else {
          drop := drop + [tx];
          count := count - 1;
        }
        rest := rest - {tx};
      }
    }
  }

  /** Every dropped transaction is as cheap as any that is left; closed. */
  ghost predicate Below(drop: seq<Tx>, rest: set<Tx>) {
    forall k: int {:trigger Opened(k)} :: Sealed(k) ==>
      forall tx, t :: tx in drop && t in rest ==> tx.price <= t.price
  }

  lemma BelowNone(rest: set<Tx>)
    ensures Below([], rest) == true
  {
    assert Opened(0);
  }

  lemma BelowMore(drop: seq<Tx>, rest: set<Tx>, tx: Tx)
    requires Below(drop, rest) && forall t :: t in rest ==> tx.price <= t.price
    ensures Below(drop, rest - {tx}) == true && Below(drop + [tx], rest - {tx}) == true
  {
    assert Opened(0);
  }

  lemma RestLess(all: set<Tx>, drop: seq<Tx>, save: seq<Tx>, tx: Tx)
    requires tx in all && AsSet(drop) <= all && AsSet(save) <= all
    ensures AsSet(drop + [tx]) <= all && AsSet(save + [tx]) <= all
    ensures all - AsSet(drop + [tx]) - AsSet(save) == all - AsSet(drop) - AsSet(save) - {tx}
    ensures all - AsSet(drop) - AsSet(save + [tx]) == all - AsSet(drop) - AsSet(save) - {tx}
  {
    assert AsSet(drop + [tx]) == AsSet(drop) + {tx} && AsSet(save + [tx]) == AsSet(save) + {tx};
  }

  lemma BelowRest(drop: seq<Tx>, save: seq<Tx>, rest: set<Tx>, all: set<Tx>, local: set<nat>)
    requires Below(drop, rest) && rest == all - AsSet(drop) - AsSet(save)
    requires forall tx :: tx in save ==> tx.sender in local
    ensures forall tx, t :: tx in drop && t in all && t !in drop && t.sender !in local ==> tx.price <= t.price
    ensures rest == {} ==> forall t :: t in all && t.sender !in local ==> t in drop
  {
    assert Opened(0);
    if rest == {} {
      forall t | t in all && t.sender !in local
        ensures t in drop
      {
        assert t !in rest;
      }
    }
    forall tx, t | tx in drop && t in all && t !in drop && t.sender !in local
      ensures tx.price <= t.price
    {
      assert t in rest;
    }
  }

  /**
   The heap has lost what was taken and a number of stale entries, and no other: every entry of a live transaction is
   still there or was taken.  Closed.
   */
  ghost predicate Taken(before: seq<Tx>, items: seq<Tx>, taken: seq<Tx>, all: set<Tx>, stale: int) {
    forall k: int {:trigger Opened(k)} :: Sealed(k) ==>
      && stale >= 0 && |items| + |taken| + stale == |before|
      && forall tx {:trigger multiset(before)[tx]} ::
           var left := multiset(items)[tx] + multiset(taken)[tx];
           left <= multiset(before)[tx] && (tx in all ==> left == multiset(before)[tx])
  }

  /** One entry has left the heap; closed. */
  ghost predicate Popped(before: seq<Tx>, items: seq<Tx>, tx: Tx) {
    forall k: int {:trigger Opened(k)} :: Sealed(k) ==>
      tx in before && multiset(items) == multiset(before) - multiset{tx} && |items| == |before| - 1
  }

  lemma IsPopped(before: seq<Tx>, items: seq<Tx>, tx: Tx)
    requires tx in before && multiset(items) == multiset(before) - multiset{tx} && |items| == |before| - 1
    ensures Popped(before, items, tx) == true
  {
    assert Opened(0);
  }

  /** Entries have been added to the heap; closed. */
  ghost predicate Pushed(before: seq<Tx>, items: seq<Tx>, txs: seq<Tx>) {
    forall k: int {:trigger Opened(k)} :: Sealed(k) ==> multiset(items) == multiset(before) + multiset(txs)
  }

  lemma IsPushed(before: seq<Tx>, items: seq<Tx>, txs: seq<Tx>)
    requires multiset(items) == multiset(before) + multiset(txs)
    ensures Pushed(before, items, txs) == true
  {
    assert Opened(0);
  }

  lemma TakenNone(items: seq<Tx>, all: set<Tx>)
    ensures Taken(items, items, [], all, 0) == true
  {
    assert Opened(0);
  }

  lemma TakenStale(start: seq<Tx>, before: seq<Tx>, items: seq<Tx>, taken: seq<Tx>, all: set<Tx>, stale: int, tx: Tx)
    requires Taken(start, before, taken, all, stale) && tx !in all && Popped(before, items, tx)
    ensures Taken(start, items, taken, all, stale + 1) == true
  {
    assert Opened(0);
  }

  lemma TakenLive(start: seq<Tx>, before: seq<Tx>, items: seq<Tx>, drop: seq<Tx>, save: seq<Tx>, all: set<Tx>,
                  stale: int, tx: Tx)
    requires Taken(start, before, drop + save, all, stale) && Popped(before, items, tx)
    ensures Taken(start, items, drop + [tx] + save, all, stale) == true
    ensures Taken(start, items, drop + (save + [tx]), all, stale) == true
  {
    assert Opened(0);
    assert tx in multiset(before);
  }

  lemma TakenBack(start: seq<Tx>, before: seq<Tx>, items: seq<Tx>, drop: seq<Tx>, save: seq<Tx>, all: set<Tx>,
                  stale: int)
    requires Taken(start, before, drop + save, all, stale) && Pushed(before, items, save)
    ensures Taken(start, items, drop, all, stale) == true
  {
    assert Opened(0);
    assert |multiset(items)| == |items| && |multiset(before)| == |before| && |multiset(save)| == |save|;
  }

  ghost function AsSet(txs: seq<Tx>): set<Tx> {
    set tx | tx in txs
  }

  lemma {:induction false} AsSetSize(txs: seq<Tx>)
    ensures |AsSet(txs)| <= |txs|
  {
    if txs == [] {
    } else {
      var front, last := txs[..|txs| - 1], txs[|txs| - 1];
      AsSetSize(front);
      assert txs == front + [last];
      assert AsSet(txs) == AsSet(front) + {last};
    }
  }

  /** The elements of a set, in any order. */
  method Slice(all: set<Tx>) returns (txs: seq<Tx>)
    ensures Covers(txs, all) && (forall tx :: tx in txs ==> tx in all) && multiset(txs) == multiset(all)
  {
    txs := [];
    var todo := all;
    while todo != {}
      invariant todo <= all && Covers(txs, all - todo) && forall tx :: tx in txs ==> tx in all
      invariant multiset(txs) == multiset(all - todo)
    {
      var tx :| tx in todo;
      assert all - (todo - {tx}) == (all - todo) + {tx};
      todo, txs := todo - {tx}, txs + [tx];
    }
    assert all - {} == all;
  }
}
