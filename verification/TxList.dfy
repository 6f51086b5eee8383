/**
 The pool's per-account transaction lists (core/tx_list.go): a nonce-keyed map with a heap index and a
 cache of the sorted contents, and on top of it a list that keeps bounds on the cost and gas of what
 it stores.

 The reference is the plain map from nonces to transactions.
 */
module TxList {
  import Heap

  datatype Tx = Tx(hash: nat, sender: nat, nonce: nat, price: nat, gas: nat, cost: nat)

  type Txs = map<nat, Tx>

  // ---------------------------------------------------------------- contents

  /** Every transaction is stored under its own nonce. */
  ghost predicate Keyed(m: Txs) {
    forall n :: n in m ==> m[n].nonce == n
  }

  function Where(m: Txs, f: Tx -> bool): Txs {
    map n | n in m && f(m[n]) :: m[n]
  }

  function Unless(m: Txs, f: Tx -> bool): Txs {
    map n | n in m && !f(m[n]) :: m[n]
  }

  function From(m: Txs, threshold: nat): Txs {
    map n | n in m && n >= threshold :: m[n]
  }

  function Before(m: Txs, threshold: nat): Txs {
    map n | n in m && n < threshold :: m[n]
  }

  ghost predicate Ascending(txs: seq<Tx>) {
    forall i, j :: 0 <= i < j < |txs| ==> txs[i].nonce < txs[j].nonce
  }

  /** The slice holds the transactions of the map, each once, in some order. */
  ghost predicate Lists(txs: seq<Tx>, m: Txs) {
    if txs == [] then m == map[]
    else Holds(m, txs[|txs| - 1]) && Lists(txs[..|txs| - 1], m - {txs[|txs| - 1].nonce})
  }

  predicate Holds(m: Txs, tx: Tx) {
    tx.nonce in m && m[tx.nonce] == tx
  }

  lemma {:induction false} ListsCount(txs: seq<Tx>, m: Txs)
    requires Lists(txs, m)
    ensures |txs| == |m|
  {
    if txs != [] {
      var x := txs[|txs| - 1];
      ListsCount(txs[..|txs| - 1], m - {x.nonce});
      assert m.Keys == (m - {x.nonce}).Keys + {x.nonce};
    }
  }

  lemma {:induction false} ListsIn(txs: seq<Tx>, m: Txs, tx: Tx)
    requires Lists(txs, m)
    ensures tx in txs <==> Holds(m, tx)
  {
    if txs != [] {
      var x := txs[|txs| - 1];
      ListsIn(txs[..|txs| - 1], m - {x.nonce}, tx);
      assert txs == txs[..|txs| - 1] + [x];
    }
  }

  /** Every entry of the map is listed under its own nonce. */
  lemma {:induction false} ListsAt(txs: seq<Tx>, m: Txs, n: nat) returns (i: nat)
    requires Lists(txs, m) && n in m
    ensures i < |txs| && txs[i] == m[n] && txs[i].nonce == n
    decreases |txs|
  {
    i := |txs| - 1;
    if txs[i].nonce != n {
      i := ListsAt(txs[..i], m - {txs[i].nonce}, n);
    }
  }

  /** A slice lists one map only. */
  lemma {:induction false} ListsSame(txs: seq<Tx>, m: Txs, m': Txs)
    requires Lists(txs, m) && Lists(txs, m')
    ensures m == m'
  {
    if txs != [] {
      var x := txs[|txs| - 1];
      ListsSame(txs[..|txs| - 1], m - {x.nonce}, m' - {x.nonce});
      assert m == (m - {x.nonce})[x.nonce := x] == m';
    }
  }

  /** A listed transaction does not occur before itself. */
  lemma {:induction false} ListsDistinct(txs: seq<Tx>, m: Txs, i: nat, before: Txs)
    requires Lists(txs, m) && i < |txs| && Lists(txs[..i], before)
    ensures txs[i].nonce !in before
  {
    var last := |txs| - 1;
    if i < last {
      assert txs[..last][..i] == txs[..i];
      ListsDistinct(txs[..last], m - {txs[last].nonce}, i, before);
    } else {
      ListsSame(txs[..last], before, m - {txs[last].nonce});
    }
  }

  /** One more transaction is listed. */
  lemma Listed(txs: seq<Tx>, m: Txs, tx: Tx)
    requires Lists(txs, m) && tx.nonce !in m
    ensures Lists(txs + [tx], m[tx.nonce := tx])
  {
    assert (txs + [tx])[..|txs|] == txs;
    assert m[tx.nonce := tx] - {tx.nonce} == m;
  }

  /** Sorted contents are unique. */
  lemma {:induction false} SortedUnique(a: seq<Tx>, b: seq<Tx>, m: Txs)
    requires Lists(a, m) && Lists(b, m) && Ascending(a) && Ascending(b)
    ensures a == b
  {
    if a != [] && b != [] {
      var x, y := a[|a| - 1], b[|b| - 1];
      ListsIn(a, m, y);
      ListsIn(b, m, x);
      assert x == y;
      SortedUnique(a[..|a| - 1], b[..|b| - 1], m - {x.nonce});
      assert a == a[..|a| - 1] + [x] && b == b[..|b| - 1] + [y];
    }
  }

  /** The last transaction of a sorted listing has the highest nonce. */
  lemma LastIsHighest(c: seq<Tx>, m: Txs, n: nat)
    requires Keyed(m) && Lists(c, m) && Ascending(c) && n in m
    ensures c != [] && n <= c[|c| - 1].nonce
  {
    ListsIn(c, m, m[n]);
  }

  /** A sorted listing splits at a nonce into the listings of both sides. */
  lemma {:induction false} SortedSplit(c: seq<Tx>, m: Txs, threshold: nat) returns (k: nat)
    requires Keyed(m) && Lists(c, m) && Ascending(c)
    ensures k <= |c| && Lists(c[..k], Before(m, threshold)) && Lists(c[k..], From(m, threshold))
  {
    if c == [] {
      k := 0;
    } else if c[|c| - 1].nonce < threshold {
      k := |c|;
      forall n | n in m
        ensures n < threshold
      {
        LastIsHighest(c, m, n);
      }
      assert Before(m, threshold) == m && From(m, threshold) == map[];
      assert c[..k] == c;
    } else {
      k := SortedSplit(c[..|c| - 1], m - {c[|c| - 1].nonce}, threshold);
      SplitOneMore(c, m, threshold, k);
    }
  }

  lemma SplitOneMore(c: seq<Tx>, m: Txs, threshold: nat, k: nat)
    requires Lists(c, m) && c != [] && c[|c| - 1].nonce >= threshold && k < |c|
    requires var front, rest := c[..|c| - 1], m - {c[|c| - 1].nonce};
             Lists(front[..k], Before(rest, threshold)) && Lists(front[k..], From(rest, threshold))
    ensures Lists(c[..k], Before(m, threshold)) && Lists(c[k..], From(m, threshold))
  {
    var x := c[|c| - 1];
    var front, rest := c[..|c| - 1], m - {x.nonce};
    assert c[..k] == front[..k];
    assert Before(m, threshold) == Before(rest, threshold);
    assert c[k..] == front[k..] + [x];
    Listed(front[k..], From(rest, threshold), x);
    assert From(m, threshold) == From(rest, threshold)[x.nonce := x];
  }

  /** Part of a map's contents. */
  ghost predicate Sub(m: Txs, whole: Txs) {
    forall n :: n in m ==> n in whole && m[n] == whole[n]
  }

  /** Taking one more transaction out of `m` adds it to the listing of what was taken out. */
  lemma TakenOut(removed: seq<Tx>, whole: Txs, m: Txs, n: nat)
    requires Keyed(whole) && Sub(m, whole) && Lists(removed, whole - m.Keys) && n in m
    ensures Lists(removed + [m[n]], whole - (m - {n}).Keys) && Sub(m - {n}, whole)
  {
    Listed(removed, whole - m.Keys, m[n]);
    assert whole - (m - {n}).Keys == (whole - m.Keys)[n := m[n]];
  }

  lemma Append(c: seq<Tx>, m: Txs, tx: Tx)
    requires Lists(c, m) && Ascending(c) && forall n :: n in m ==> n < tx.nonce
    ensures Ascending(c + [tx])
  {
    forall i | 0 <= i < |c|
      ensures c[i].nonce < tx.nonce
    {
      ListsIn(c, m, c[i]);
    }
  }

  // ---------------------------------------------------------------- the index

  function Nonce(n: nat): int { n }

  /** The heap holds exactly the map's nonces. */
  ghost predicate Indexes(index: seq<nat>, m: Txs) {
    Heap.IsHeap(index, Nonce) && multiset(index) == multiset(m.Keys)
  }

  lemma LeastNonce(index: seq<nat>, m: Txs)
    requires Indexes(index, m)
    ensures index == [] <==> m == map[]
    ensures index != [] ==> index[0] in m && forall n :: n in m ==> index[0] <= n
  {
    if index != [] {
      assert index[0] in multiset(index);
      forall n | n in m
        ensures index[0] <= n
      {
        assert n in multiset(index);
        var i: nat :| i < |index| && index[i] == n;
        Heap.RootIsLeast(index, Nonce, i);
      }
    }
    if m != map[] {
      var n :| n in m;
      assert n in multiset(m.Keys);
      assert |multiset(index)| > 0;
    }
  }

  datatype Cached = NoCache | Cache(txs: seq<Tx>)

  /** A present cache is the sorted contents. */
  ghost predicate Caches(cache: Cached, m: Txs) {
    cache.Cache? ==> Lists(cache.txs, m) && Ascending(cache.txs)
  }

  class SortedMap {
    var items: Txs
    var index: seq<nat>
    var cache: Cached

    ghost predicate Valid()
      reads this
    {
      Keyed(items) && Indexes(index, items) && Caches(cache, items)
    }

    constructor ()
      ensures Valid() && items == map[]
    {
      items, index, cache := map[], [], NoCache;
    }

    /** A map with given contents. */
    constructor Of(m: Txs)
      requires Keyed(m)
      ensures Valid() && items == m
    {
      items, cache := m, NoCache;
      var nonces := Nonces(m);
      var heap := Heap.Init(nonces, Nonce);
      index := heap;
    }

    method Put(tx: Tx)
      requires Valid()
      modifies this
      ensures Valid() && items == old(items)[tx.nonce := tx]
    {
      if tx.nonce !in items {
        assert items[tx.nonce := tx].Keys == items.Keys + {tx.nonce};
        index := Heap.Push(index, Nonce, tx.nonce);
      } else {
        assert items[tx.nonce := tx].Keys == items.Keys;
      }
      items, cache := items[tx.nonce := tx], NoCache;
    }

    /** Take the least nonce off the heap and its transaction out of the map. */
    method PopLeast() returns (tx: Tx)
      requires Keyed(items) && Indexes(index, items) && index != []
      modifies this`items, this`index
      ensures Keyed(items) && Indexes(index, items)
      ensures Holds(old(items), tx) && tx.nonce == old(index)[0] && items == old(items) - {tx.nonce}
      ensures forall n :: n in old(items) && n != tx.nonce ==> tx.nonce < n
      ensures |index| == |old(index)| - 1
    {
      LeastNonce(index, items);
      var nonce;
      index, nonce := Heap.Pop(index, Nonce);
      tx := items[nonce];
      assert (items - {nonce}).Keys == items.Keys - {nonce};
      items := items - {nonce};
    }

    /** Remove everything below a nonce. */
    method Forward(threshold: nat) returns (removed: seq<Tx>)
      requires Valid()
      modifies this
      ensures Valid() && items == From(old(items), threshold)
      ensures Lists(removed, Before(old(items), threshold)) && Ascending(removed)
    {
      ghost var whole := items;
      removed := [];
      NoneDrained(whole);
      while index != [] && index[0] < threshold
        invariant Keyed(items) && Indexes(index, items) && cache == old(cache)
        invariant Drained(whole, items, removed) == true
        invariant forall n :: n in whole && n !in items ==> n < threshold
        decreases |index|
      {
        ghost var before := items;
        var tx := PopLeast();
        DrainOne(whole, before, removed, tx);
        removed := removed + [tx];
      }
      LeastNonce(index, items);
      DrainedBelow(whole, items, removed, threshold);
      if cache.Cache? {
        ShiftFront(cache.txs, whole, removed, threshold);
        cache := Cache(cache.txs[|removed|..]);
      }
    }

    /** Remove what a test picks; the map is walked in any order. */
    method Filter(f: Tx -> bool) returns (removed: seq<Tx>)
      requires Valid()
      modifies this
      ensures Valid() && items == Unless(old(items), f) && Lists(removed, Where(old(items), f)) == true
    {
      removed := Sift(f);
      if |removed| > 0 {
        index := Nonces(items);
        index := Heap.Init(index, Nonce);
        cache := NoCache;
      }
    }

    method Sift(f: Tx -> bool) returns (removed: seq<Tx>)
      requires Keyed(items)
      modifies this`items
      ensures Keyed(items) && items == Unless(old(items), f) && Lists(removed, Where(old(items), f)) == true
      ensures removed == [] ==> items == old(items)
    {
      ghost var whole := items;
      removed := [];
      var todo := items.Keys;
      assert whole - items.Keys == map[];
      while todo != {}
        invariant todo <= items.Keys && Sifting(whole, items, todo, f, removed) == true
      {
        var nonce :| nonce in todo;
        SiftOne(whole, items, todo, f, removed, nonce);
        todo := todo - {nonce};
        if f(items[nonce]) {
          removed := removed + [items[nonce]];
          items := items - {nonce};
        }
      }
      SiftDone(whole, items, f, removed);
    }

    /** Remove one transaction. */
    method Remove(nonce: nat) returns (found: bool)
      requires Valid()
      modifies this
      ensures Valid() && items == old(items) - {nonce} && found == (nonce in old(items))
    {
      if nonce !in items {
        return false;
      }
      assert nonce in multiset(index);
      var i := 0;
      while index[i] != nonce
        invariant i < |index| && nonce !in index[..i]
        decreases |index| - i
      {
        i := i + 1;
      }
      assert (items - {nonce}).Keys == items.Keys - {nonce};
      index := Heap.Remove(index, Nonce, i);
      items := items - {nonce};
      cache := NoCache;
      found := true;
    }

    /** Remove and return the run of consecutive nonces that starts at the least one, if that is not above `start`. */
    method Ready(start: nat) returns (ready: seq<Tx>)
      requires Valid()
      modifies this
      ensures Valid() && IsRun(old(items), start, items, ready)
    {
      ghost var whole := items;
      LeastNonce(index, items);
      NoneDrained(whole);
      if index == [] || index[0] > start {
        return [];
      }
      ready := PopRun();
      cache := NoCache;
    }

    method PopRun() returns (ready: seq<Tx>)
      requires Keyed(items) && Indexes(index, items) && index != []
      modifies this`items, this`index
      ensures Keyed(items) && Indexes(index, items) && Drained(old(items), items, ready)
      ensures ready != [] && Consecutive(ready, old(index)[0]) && old(index)[0] + |ready| !in old(items)
    {
      ghost var whole, first := items, index[0];
      LeastNonce(index, items);
      ready := [];
      NoneDrained(whole);
      var next := index[0];
      while index != [] && index[0] == next
        invariant Keyed(items) && Indexes(index, items)
        invariant Drained(whole, items, ready) == true
        invariant next == first + |ready| && (ready == [] ==> index != [] && index[0] == first)
        invariant Consecutive(ready, first)
        invariant forall n :: n in items ==> next <= n
        decreases |index|
      {
        ghost var before := items;
        var tx := PopLeast();
        DrainOne(whole, before, ready, tx);
        ready := ready + [tx];
        next := next + 1;
      }
      LeastNonce(index, items);
      AfterRun(whole, items, ready, next);
    }

    /** Keep the lowest nonces only. */
    method Cap(threshold: nat) returns (drops: seq<Tx>)
      requires Valid()
      modifies this
      ensures Valid() && Capped(old(items), items, threshold) && Lists(drops, old(items) - items.Keys) == true
    {
      ghost var whole := items;
      assert whole - items.Keys == map[];
      if |items| <= threshold {
        return [];
      }
      ghost var cut;
      drops, cut := Cut(threshold);
      if cache.Cache? {
        ShortenCache(drops, whole, cut);
      }
    }

    method ShortenCache(drops: seq<Tx>, ghost whole: Txs, ghost cut: nat)
      requires cache.Cache? && Keyed(whole) && Caches(cache, whole) == true
      requires Lists(drops, From(whole, cut)) == true && items == Before(whole, cut)
      modifies this`cache
      ensures Caches(cache, items) == true
    {
      ShiftBack(cache, whole, drops, cut);
      cache := Cache(cache.txs[..|cache.txs| - |drops|]);
    }

    /** Drop all but the first `threshold` nonces; `cut` is the first that goes. */
    method Cut(threshold: nat) returns (drops: seq<Tx>, ghost cut: nat)
      requires Keyed(items) && Indexes(index, items) && threshold < |items|
      modifies this`items, this`index
      ensures Keyed(items) && Indexes(index, items)
      ensures items == Before(old(items), cut) && Capped(old(items), items, threshold)
      ensures Lists(drops, old(items) - items.Keys) == true && old(items) - items.Keys == From(old(items), cut)
    {
      index := Heap.Sort(index, Nonce);
      SortedNonces(index, items);
      drops := DropAbove(threshold);
      cut := index[threshold];
      CutNonces(index, old(items), items, threshold);
      CutCapped(old(items), items, threshold, cut);
      index := Heap.Init(index[..threshold], Nonce);
    }

    /** Take the transactions beyond position `threshold` of the sorted index out of the map, highest nonce first. */
    method DropAbove(threshold: nat) returns (drops: seq<Tx>)
      requires Keyed(items) && threshold < |items| == |index| && items.Keys == Elements(index)
      requires Increasing(index)
      modifies this`items
      ensures Sub(items, old(items)) && items.Keys == Elements(index[..threshold])
      ensures Lists(drops, old(items) - items.Keys) == true
    {
      ghost var whole := items;
      drops := [];
      assert whole - items.Keys == map[];
      var size := |items|;
      assert index[..size] == index;
      while size > threshold
        invariant threshold <= size <= |index|
        invariant Sub(items, whole) && Lists(drops, whole - items.Keys)
        invariant items.Keys == Elements(index[..size])
      {
        var nonce := index[size - 1];
        LastOut(index, size, items);
        TakenOut(drops, whole, items, nonce);
        drops := drops + [items[nonce]];
        items := items - {nonce};
        size := size - 1;
      }
    }

    /** The contents in nonce order. */
    method Flatten() returns (txs: seq<Tx>)
      requires Valid()
      modifies this`cache
      ensures Valid() && Lists(txs, items) && Ascending(txs) && cache.Cache?
    {
      if cache == NoCache {
        var all := Transactions(items);
        var sorted := Heap.Sort(all, NonceOf);
        ListsPermuted(all, sorted, items);
        ListsSorted(sorted, items);
        cache := Cache(sorted);
      }
      txs := cache.txs;
    }
  }

  function NonceOf(tx: Tx): int { tx.nonce }

  /** Of `whole`, what was looked at is still there if the test does not pick it; the others are listed. */
  ghost predicate Sifting(whole: Txs, m: Txs, todo: set<nat>, f: Tx -> bool, removed: seq<Tx>) {
    && Keyed(whole) && Sub(m, whole) && Lists(removed, whole - m.Keys)
    && (forall n :: n in whole && n !in todo ==> (n in m <==> !f(whole[n])))
  }

  lemma SiftOne(whole: Txs, m: Txs, todo: set<nat>, f: Tx -> bool, removed: seq<Tx>, n: nat)
    requires Sifting(whole, m, todo, f, removed) == true && n in todo && n in m
    ensures f(m[n]) ==> Sifting(whole, m - {n}, todo - {n}, f, removed + [m[n]]) == true
    ensures !f(m[n]) ==> Sifting(whole, m, todo - {n}, f, removed) == true
  {
    TakenOut(removed, whole, m, n);
  }

  lemma SiftDone(whole: Txs, m: Txs, f: Tx -> bool, removed: seq<Tx>)
    requires Sifting(whole, m, {}, f, removed) == true
    ensures Keyed(m) && m == Unless(whole, f) && Lists(removed, Where(whole, f)) == true
    ensures removed == [] ==> m == whole
  {
    assert whole - m.Keys == Where(whole, f);
    if removed == [] {
      assert whole - m.Keys == map[];
      forall n | n in whole
        ensures n in m
      {
        assert n in m || n in whole - m.Keys;
      }
    }
  }

  /** The nonces of a map, in any order. */
  method Nonces(m: Txs) returns (s: seq<nat>)
    ensures multiset(s) == multiset(m.Keys)
  {
    var todo := m.Keys;
    s := [];
    while todo != {}
      invariant todo <= m.Keys && multiset(s) == multiset(m.Keys - todo)
    {
      var n :| n in todo;
      assert m.Keys - (todo - {n}) == (m.Keys - todo) + {n};
      todo, s := todo - {n}, s + [n];
    }
    assert m.Keys - todo == m.Keys;
  }

  /** The transactions of a map, in any order. */
  method Transactions(m: Txs) returns (txs: seq<Tx>)
    requires Keyed(m)
    ensures Lists(txs, m)
  {
    var rest := m;
    txs := [];
    assert m - rest.Keys == map[];
    while rest.Keys != {}
      invariant Sub(rest, m) && Lists(txs, m - rest.Keys)
      decreases rest.Keys
    {
      var n :| n in rest.Keys;
      TakenOut(txs, m, rest, n);
      txs := txs + [rest[n]];
      assert (rest - {n}).Keys == rest.Keys - {n};
      rest := rest - {n};
    }
    assert m - rest.Keys == m;
  }

  // ---------------------------------------------------------------- sorting

  lemma SkipsOne(a: seq<Tx>, i: nat)
    requires i < |a| - 1
    ensures var front, last := a[..|a| - 1], a[|a| - 1];
            a[..i] + a[i + 1..] == front[..i] + front[i + 1..] + [last]
  {
    var front, last := a[..|a| - 1], a[|a| - 1];
    assert a[i + 1..] == front[i + 1..] + [last];
    assert a[..i] == front[..i];
  }

  lemma {:induction false} ListsWithout(a: seq<Tx>, m: Txs, i: nat)
    requires Lists(a, m) && i < |a|
    ensures a[i].nonce in m && Lists(a[..i] + a[i + 1..], m - {a[i].nonce})
  {
    var last := |a| - 1;
    if i < last {
      var x := a[last];
      ListsWithout(a[..last], m - {x.nonce}, i);
      var front := a[..last][..i] + a[..last][i + 1..];
      SkipsOne(a, i);
      Listed(front, m - {x.nonce} - {a[i].nonce}, x);
      assert (m - {x.nonce} - {a[i].nonce})[x.nonce := x] == m - {a[i].nonce};
    } else {
      assert a[..i] + a[i + 1..] == a[..last];
    }
  }

  /** The first transaction of a listing, and the listing of the others. */
  lemma ListsFirst(a: seq<Tx>, m: Txs)
    requires Lists(a, m) && a != []
    ensures Holds(m, a[0]) && Lists(a[1..], m - {a[0].nonce}) && |m - {a[0].nonce}| == |m| - 1
  {
    ListsIn(a, m, a[0]);
    ListsWithout(a, m, 0);
    assert a[..0] + a[1..] == a[1..];
    ListsCount(a, m);
    ListsCount(a[1..], m - {a[0].nonce});
  }

  lemma WithoutOne(a: seq<Tx>, i: nat)
    requires i < |a|
    ensures multiset(a[..i] + a[i + 1..]) == multiset(a) - multiset{a[i]}
  {
    assert a == a[..i] + [a[i]] + a[i + 1..];
  }

  lemma {:induction false} ListsPermuted(a: seq<Tx>, b: seq<Tx>, m: Txs)
    requires Lists(a, m) && multiset(a) == multiset(b)
    ensures Lists(b, m)
    decreases |b|
  {
    if b != [] {
      var y := b[|b| - 1];
      assert y in multiset(b);
      var i :| 0 <= i < |a| && a[i] == y;
      ListsWithout(a, m, i);
      ListsIn(a, m, y);
      WithoutOne(a, i);
      WithoutOne(b, |b| - 1);
      assert b[..|b| - 1] + b[|b|..] == b[..|b| - 1];
      ListsPermuted(a[..i] + a[i + 1..], b[..|b| - 1], m - {y.nonce});
    } else {
      assert |multiset(a)| == 0;
    }
  }

  /** A listing sorted by nonce has no equal neighbours. */
  lemma {:induction false} ListsSorted(a: seq<Tx>, m: Txs)
    requires Lists(a, m) && Heap.IsSorted(a, NonceOf)
    ensures Ascending(a)
  {
    if a != [] {
      var last := |a| - 1;
      ListsSorted(a[..last], m - {a[last].nonce});
      forall i | 0 <= i < last
        ensures a[i].nonce < a[last].nonce
      {
        ListsIn(a[..last], m - {a[last].nonce}, a[i]);
        assert a[i] == a[..last][i];
        assert NonceOf(a[i]) <= NonceOf(a[last]);
      }
    }
  }

  // ---------------------------------------------------------------- removing from the back

  /** The contents with the lowest nonces, as many as allowed. */
  ghost predicate Capped(whole: Txs, m: Txs, size: nat) {
    && Sub(m, whole) && |m| == (if |whole| <= size then |whole| else size)
    && forall n, k :: n in m && k in whole && k !in m ==> n < k
  }

  ghost predicate Increasing(s: seq<nat>) {
    forall i, j :: 0 <= i < j < |s| ==> s[i] < s[j]
  }

  ghost function Elements(s: seq<nat>): set<nat> {
    set n | n in s
  }

  lemma TwicePresent(s: seq<nat>, i: nat, j: nat)
    requires i < j < |s|
    ensures s[i] == s[j] ==> multiset(s)[s[i]] >= 2
  {
    assert s == s[..i] + [s[i]] + s[i + 1..j] + [s[j]] + s[j + 1..];
  }

  lemma {:induction false} AscendingSet(s: seq<nat>)
    requires Increasing(s)
    ensures multiset(s) == multiset(Elements(s)) && |s| == |Elements(s)|
  {
    if s != [] {
      var front, x := s[..|s| - 1], s[|s| - 1];
      AscendingSet(front);
      assert s == front + [x];
      assert Elements(s) == Elements(front) + {x};
    }
  }

  /** A sorted index has each nonce once. */
  lemma SortedNonces(index: seq<nat>, m: Txs)
    requires multiset(index) == multiset(m.Keys) && Heap.IsSorted(index, Nonce)
    ensures |index| == |m| && Increasing(index)
    ensures m.Keys == Elements(index)
  {
    assert |multiset(index)| == |index| && |multiset(m.Keys)| == |m.Keys|;
    forall i, j | 0 <= i < j < |index|
      ensures index[i] < index[j]
    {
      assert Nonce(index[i]) <= Nonce(index[j]);
      TwicePresent(index, i, j);
    }
    assert forall n :: n in m.Keys <==> n in multiset(index);
  }

  lemma LastOut(index: seq<nat>, size: nat, m: Txs)
    requires 0 < size <= |index| && m.Keys == Elements(index[..size])
    requires Increasing(index)
    ensures index[size - 1] in m && (m - {index[size - 1]}).Keys == Elements(index[..size - 1])
  {
    assert index[..size] == index[..size - 1] + [index[size - 1]];
    assert index[size - 1] in index[..size];
    assert m.Keys - {index[size - 1]} == Elements(index[..size - 1]);
  }

  /** Whether a nonce is among the first `k` of a sorted index depends on the next one. */
  lemma CutAt(index: seq<nat>, k: nat, n: nat)
    requires k < |index| && Increasing(index) && n in index
    ensures n in index[..k] <==> n < index[k]
  {
    var i :| 0 <= i < |index| && index[i] == n;
    if i < k {
      assert index[..k][i] == n;
    }
  }

  lemma CutNonces(index: seq<nat>, whole: Txs, m: Txs, k: nat)
    requires k < |index| == |whole| && Increasing(index)
    requires whole.Keys == Elements(index) && Sub(m, whole) && m.Keys == Elements(index[..k])
    ensures m == Before(whole, index[k]) && |m| == k
    ensures multiset(index[..k]) == multiset(m.Keys)
  {
    AscendingSet(index[..k]);
    forall n | n in whole
      ensures n in m <==> n < index[k]
    {
      CutAt(index, k, n);
      assert n in m.Keys <==> n in index[..k];
    }
  }

  lemma CutCapped(whole: Txs, m: Txs, k: nat, cut: nat)
    requires m == Before(whole, cut) && |m| == k < |whole|
    ensures Capped(whole, m, k) && whole - m.Keys == From(whole, cut)
  {
  }

  // ---------------------------------------------------------------- removing from the front

  /** `removed` lists, in order, what has left `whole`, all of it below what is left. */
  ghost predicate Drained(whole: Txs, m: Txs, removed: seq<Tx>) {
    && Keyed(whole) && Sub(m, whole) && Lists(removed, whole - m.Keys) && Ascending(removed)
    && forall n, k :: n in whole && n !in m && k in m ==> n < k
  }

  ghost predicate Consecutive(txs: seq<Tx>, first: nat) {
    forall i :: 0 <= i < |txs| ==> txs[i].nonce == first + i
  }

  /** What is ready: nothing if every nonce is above `start`, else the longest run from the least nonce. */
  ghost predicate IsRun(whole: Txs, start: nat, m: Txs, ready: seq<Tx>) {
    && Drained(whole, m, ready)
    && (ready == [] <==> forall n :: n in whole ==> n > start)
    && (ready != [] ==> Consecutive(ready, ready[0].nonce) && ready[0].nonce + |ready| !in whole)
  }

  lemma NoneDrained(whole: Txs)
    requires Keyed(whole)
    ensures Drained(whole, whole, [])
  {
    assert whole - whole.Keys == map[];
  }

  lemma DrainOne(whole: Txs, m: Txs, removed: seq<Tx>, tx: Tx)
    requires Drained(whole, m, removed) && Holds(m, tx)
    requires forall n :: n in m && n != tx.nonce ==> tx.nonce < n
    ensures Drained(whole, m - {tx.nonce}, removed + [tx])
  {
    Append(removed, whole - m.Keys, tx);
    TakenOut(removed, whole, m, tx.nonce);
  }

  /** The nonce after a run that was taken out, and is not the least one left, was never there. */
  lemma AfterRun(whole: Txs, m: Txs, run: seq<Tx>, next: nat)
    requires Drained(whole, m, run) && next !in m
    requires forall i :: 0 <= i < |run| ==> run[i].nonce < next
    ensures next !in whole
  {
    if next in whole {
      ListsIn(run, whole - m.Keys, whole[next]);
    }
  }

  lemma DrainedBelow(whole: Txs, m: Txs, removed: seq<Tx>, threshold: nat)
    requires Drained(whole, m, removed)
    requires forall n :: n in whole && n !in m ==> n < threshold
    requires forall n :: n in m ==> n >= threshold
    ensures m == From(whole, threshold) && Lists(removed, Before(whole, threshold)) && Ascending(removed)
  {
    assert whole - m.Keys == Before(whole, threshold);
  }

  /** Dropping as many transactions from the front of the cache leaves the sorted rest. */
  lemma ShiftFront(c: seq<Tx>, whole: Txs, removed: seq<Tx>, threshold: nat)
    requires Keyed(whole) && Lists(c, whole) && Ascending(c) && Lists(removed, Before(whole, threshold))
    ensures |removed| <= |c| && Lists(c[|removed|..], From(whole, threshold)) && Ascending(c[|removed|..])
  {
    var k := SortedSplit(c, whole, threshold);
    ListsCount(removed, Before(whole, threshold));
    ListsCount(c[..k], Before(whole, threshold));
  }

  lemma ShiftBack(cache: Cached, whole: Txs, drops: seq<Tx>, threshold: nat)
    requires cache.Cache? && Keyed(whole) && Caches(cache, whole) == true
    requires Lists(drops, From(whole, threshold)) == true
    ensures |drops| <= |cache.txs|
    ensures Caches(Cache(cache.txs[..|cache.txs| - |drops|]), Before(whole, threshold)) == true
  {
    var k := SortedSplit(cache.txs, whole, threshold);
    ListsCount(drops, From(whole, threshold));
    ListsCount(cache.txs[k..], From(whole, threshold));
  }

  // ---------------------------------------------------------------- lists with caps

  predicate Over(tx: Tx, costLimit: nat, gasLimit: nat) {
    tx.cost > costLimit || tx.gas > gasLimit
  }

  function OverLimits(costLimit: nat, gasLimit: nat): Tx -> bool {
    tx => Over(tx, costLimit, gasLimit)
  }

  function HigherThan(nonce: nat): Tx -> bool {
    (tx: Tx) => tx.nonce > nonce
  }

  /** No stored transaction costs or uses more than the caps. */
  ghost predicate Bounded(m: Txs, costcap: nat, gascap: nat) {
    forall n :: n in m ==> !Over(m[n], costcap, gascap)
  }

  /** Above some transaction that is over a limit. */
  ghost predicate Stranded(m: Txs, n: nat, costLimit: nat, gasLimit: nat) {
    exists k :: k in m && k < n && Over(m[k], costLimit, gasLimit)
  }

  /** What a list keeps under the limits: in a strict list, nothing above a transaction that goes. */
  ghost function Affordable(m: Txs, strict: bool, costLimit: nat, gasLimit: nat): Txs {
    map n | n in m && !Over(m[n], costLimit, gasLimit) && !(strict && Stranded(m, n, costLimit, gasLimit)) :: m[n]
  }

  ghost function Invalidated(m: Txs, strict: bool, costLimit: nat, gasLimit: nat): Txs {
    map n | n in m && !Over(m[n], costLimit, gasLimit) && strict && Stranded(m, n, costLimit, gasLimit) :: m[n]
  }

  /** A replacement must pay more, and by the given percentage, rounded down. */
  predicate Outbids(prior: Tx, tx: Tx, priceBump: nat) {
    prior.price < tx.price && prior.price * (100 + priceBump) / 100 <= tx.price
  }

  /** In other words, the raise is at least the given percentage of the price, less than one unit of the price off. */
  lemma OutbidsBump(prior: Tx, tx: Tx, priceBump: nat)
    ensures Outbids(prior, tx, priceBump) <==>
              tx.price > prior.price && prior.price * priceBump < 100 * (tx.price - prior.price + 1)
  {
    var x := prior.price * (100 + priceBump);
    assert x == 100 * prior.price + prior.price * priceBump;
    assert x / 100 <= tx.price <==> x < 100 * (tx.price + 1);
  }

  function Max(a: nat, b: nat): nat {
    if a < b then b else a
  }

  datatype Replaced = None | Some(tx: Tx)

  class List {
    const strict: bool
    const txs: SortedMap
    var costcap: nat
    var gascap: nat

    ghost predicate Valid()
      reads this, txs
    {
      txs.Valid() && Bounded(txs.items, costcap, gascap)
    }

    constructor (strict: bool)
      ensures Valid() && txs.items == map[] && this.strict == strict && fresh(txs) && costcap == gascap == 0
    {
      this.strict := strict;
      txs := new SortedMap();
      costcap, gascap := 0, 0;
    }

    /** A list with given contents. */
    constructor Of(strict: bool, m: Txs)
      requires Keyed(m)
      ensures Valid() && txs.items == m && this.strict == strict && fresh(txs)
    {
      this.strict := strict;
      txs := new SortedMap.Of(m);
      var cost, gas := Caps(m);
      costcap, gascap := cost, gas;
    }

    /** Insert, or replace a transaction of the same nonce by a better paying one. */
    method Add(tx: Tx, priceBump: nat) returns (inserted: bool, replaced: Replaced)
      requires Valid()
      modifies this, txs
      ensures Valid()
      ensures inserted == (tx.nonce in old(txs.items) ==> Outbids(old(txs.items)[tx.nonce], tx, priceBump))
      ensures txs.items == if inserted then old(txs.items)[tx.nonce := tx] else old(txs.items)
      ensures replaced == if inserted && tx.nonce in old(txs.items) then Some(old(txs.items)[tx.nonce]) else None
      ensures !inserted ==> costcap == old(costcap) && gascap == old(gascap)
      ensures inserted ==> costcap == Max(old(costcap), tx.cost) && gascap == Max(old(gascap), tx.gas)
    {
      replaced := if tx.nonce in txs.items then Some(txs.items[tx.nonce]) else None;
      if replaced.Some? {
        var threshold := replaced.tx.price * (100 + priceBump) / 100;
        if replaced.tx.price >= tx.price || threshold > tx.price {
          return false, None;
        }
      }
      txs.Put(tx);
      if costcap < tx.cost {
        costcap := tx.cost;
      }
      if gascap < tx.gas {
        gascap := tx.gas;
      }
      inserted := true;
    }

    /** Remove what exceeds the limits; the caps decide without a scan when nothing does. */
    method Filter(costLimit: nat, gasLimit: nat) returns (removed: seq<Tx>, invalids: seq<Tx>)
      requires Valid()
      modifies this, txs
      ensures Valid() && txs.items == Affordable(old(txs.items), strict, costLimit, gasLimit)
      ensures Lists(removed, Where(old(txs.items), OverLimits(costLimit, gasLimit))) == true
      ensures Lists(invalids, Invalidated(old(txs.items), strict, costLimit, gasLimit)) == true
      ensures if old(costcap) <= costLimit && old(gascap) <= gasLimit
              then costcap == old(costcap) && gascap == old(gascap) && txs.items == old(txs.items)
              else costcap == costLimit && gascap == gasLimit
    {
      ghost var whole := txs.items;
      if costcap <= costLimit && gascap <= gasLimit {
        AllAffordable(whole, strict, costLimit, gasLimit);
        return [], [];
      }
      costcap, gascap := costLimit, gasLimit;
      removed := txs.Filter(OverLimits(costLimit, gasLimit));
      invalids := [];
      if strict && |removed| > 0 {
        var lowest := LowestNonce(removed);
        LowestStrands(whole, removed, lowest, costLimit, gasLimit);
        invalids := txs.Filter(HigherThan(lowest));
      } else {
        NoneStranded(whole, strict, removed, costLimit, gasLimit);
      }
    }

    method Forward(threshold: nat) returns (removed: seq<Tx>)
      requires Valid()
      modifies txs
      ensures Valid() && txs.items == From(old(txs.items), threshold)
      ensures Lists(removed, Before(old(txs.items), threshold)) == true
    {
      removed := txs.Forward(threshold);
    }

    method Ready(start: nat) returns (ready: seq<Tx>)
      requires Valid()
      modifies txs
      ensures Valid() && IsRun(old(txs.items), start, txs.items, ready) == true
    {
      ready := txs.Ready(start);
    }

    method Cap(threshold: nat) returns (drops: seq<Tx>)
      requires Valid()
      modifies txs
      ensures Valid() && Capped(old(txs.items), txs.items, threshold)
      ensures Lists(drops, old(txs.items) - txs.items.Keys) == true
    {
      drops := txs.Cap(threshold);
    }

    method Flatten() returns (flat: seq<Tx>)
      requires Valid()
      modifies txs
      ensures Valid() && txs.items == old(txs.items) && Lists(flat, txs.items) && Ascending(flat)
    {
      flat := txs.Flatten();
    }

    /** Remove the transaction with this one's nonce and, in a strict list, all that follow. */
    method Remove(tx: Tx) returns (found: bool, invalids: seq<Tx>)
      requires Valid()
      modifies this, txs
      ensures Valid() == true && found == (tx.nonce in old(txs.items))
      ensures !found ==> txs.items == old(txs.items) && invalids == []
      ensures found ==> txs.items == Unhooked(old(txs.items), strict, tx.nonce)
      ensures found && !strict ==> invalids == []
      ensures found && strict ==> Lists(invalids, From(old(txs.items), tx.nonce + 1)) == true
    {
      if strict && tx.nonce in txs.items {
        invalids := RemoveStrict(tx.nonce);
        return true, invalids;
      }
      found := RemoveOne(tx.nonce);
      return found, [];
    }

    method RemoveStrict(nonce: nat) returns (invalids: seq<Tx>)
      requires Valid() && nonce in txs.items
      modifies txs
      ensures Valid() && txs.items == Before(old(txs.items), nonce)
      ensures Lists(invalids, From(old(txs.items), nonce + 1)) == true
    {
      UnhookedParts(txs.items, nonce);
      var found := RemoveOne(nonce);
      invalids := RemoveHigher(nonce);
    }

    method RemoveOne(nonce: nat) returns (found: bool)
      requires Valid()
      modifies txs
      ensures Valid() && found == (nonce in old(txs.items))
      ensures txs.items == if found then old(txs.items) - {nonce} else old(txs.items)
    {
      found := txs.Remove(nonce);
      assert !found ==> txs.items == old(txs.items);
    }

    method RemoveHigher(nonce: nat) returns (removed: seq<Tx>)
      requires Valid()
      modifies txs
      ensures Valid() && txs.items == Unless(old(txs.items), HigherThan(nonce))
      ensures Lists(removed, Where(old(txs.items), HigherThan(nonce))) == true
    {
      removed := txs.Filter(HigherThan(nonce));
    }
  }

  /** A list without the transaction of a nonce it has. */
  function Unhooked(m: Txs, strict: bool, nonce: nat): Txs {
    if strict then Before(m, nonce) else m - {nonce}
  }

  lemma UnhookedParts(m: Txs, nonce: nat)
    requires Keyed(m)
    ensures Unless(m - {nonce}, HigherThan(nonce)) == Before(m, nonce)
    ensures Where(m - {nonce}, HigherThan(nonce)) == From(m, nonce + 1)
  {
  }

  // ---------------------------------------------------------------- contiguous lists

  /** The nonces are exactly those from `lo` up to `hi`. */
  ghost predicate Contiguous(m: Txs, lo: nat, hi: nat) {
    lo <= hi && forall n :: n in m <==> lo <= n < hi
  }

  /** What a strict list keeps under the limits is a prefix that ends at the first transaction over a limit. */
  lemma AffordablePrefix(m: Txs, lo: nat, hi: nat, costLimit: nat, gasLimit: nat) returns (end: nat)
    requires Contiguous(m, lo, hi)
    ensures lo <= end <= hi && Contiguous(Affordable(m, true, costLimit, gasLimit), lo, end)
    ensures end < hi ==> Over(m[end], costLimit, gasLimit)
    ensures forall n :: n in Invalidated(m, true, costLimit, gasLimit) ==> end < n
  {
    end := lo;
    while end < hi && !Over(m[end], costLimit, gasLimit)
      invariant lo <= end <= hi && forall n :: lo <= n < end ==> !Over(m[n], costLimit, gasLimit)
    {
      end := end + 1;
    }
    forall n | n in m
      ensures Stranded(m, n, costLimit, gasLimit) || Over(m[n], costLimit, gasLimit) <==> end <= n
    {
    }
  }

  /** Kept, removed and invalidated transactions are the old contents, each in one part. */
  lemma FilterPartition(m: Txs, strict: bool, costLimit: nat, gasLimit: nat)
    ensures var kept := Affordable(m, strict, costLimit, gasLimit);
            var removed := Where(m, OverLimits(costLimit, gasLimit));
            var invalids := Invalidated(m, strict, costLimit, gasLimit);
            && kept + removed + invalids == m
            && kept.Keys !! removed.Keys !! invalids.Keys
  {
  }

  /** The lowest nonces of a contiguous list. */
  lemma {:induction false} ContiguousSize(m: Txs, lo: nat, hi: nat)
    requires Contiguous(m, lo, hi)
    ensures |m| == hi - lo
    decreases hi
  {
    if lo < hi {
      var r := m - {hi - 1};
      ContiguousSize(r, lo, hi - 1);
      assert m.Keys == r.Keys + {hi - 1};
    } else {
      assert m.Keys == {};
    }
  }

  lemma CappedContiguous(whole: Txs, lo: nat, hi: nat, m: Txs, size: nat)
    requires Contiguous(whole, lo, hi) && Capped(whole, m, size)
    ensures m == Before(whole, if size < hi - lo then lo + size else hi)
  {
    ContiguousSize(whole, lo, hi);
    var cut := lo;
    while cut < hi && cut in m
      invariant lo <= cut <= hi && forall n :: lo <= n < cut ==> n in m
    {
      cut := cut + 1;
    }
    forall n | n in m
      ensures n < cut
    {
      assert n in whole;
    }
    assert Contiguous(m, lo, cut);
    ContiguousSize(m, lo, cut);
  }

  /** Bounds for given contents. */
  method Caps(m: Txs) returns (costcap: nat, gascap: nat)
    ensures Bounded(m, costcap, gascap)
  {
    costcap, gascap := 0, 0;
    var todo := m.Keys;
    while todo != {}
      invariant todo <= m.Keys && forall n :: n in m && n !in todo ==> !Over(m[n], costcap, gascap)
    {
      var n :| n in todo;
      todo := todo - {n};
      if costcap < m[n].cost {
        costcap := m[n].cost;
      }
      if gascap < m[n].gas {
        gascap := m[n].gas;
      }
    }
  }

  method LowestNonce(txs: seq<Tx>) returns (lowest: nat)
    requires txs != []
    ensures exists i :: 0 <= i < |txs| && txs[i].nonce == lowest
    ensures forall i :: 0 <= i < |txs| ==> lowest <= txs[i].nonce
  {
    lowest := txs[0].nonce;
    for i := 0 to |txs|
      invariant exists j :: 0 <= j < |txs| && txs[j].nonce == lowest
      invariant forall j :: 0 <= j < i ==> lowest <= txs[j].nonce
    {
      if lowest > txs[i].nonce {
        lowest := txs[i].nonce;
      }
    }
  }

  lemma AllAffordable(m: Txs, strict: bool, costLimit: nat, gasLimit: nat)
    requires Bounded(m, costLimit, gasLimit)
    ensures Affordable(m, strict, costLimit, gasLimit) == m
    ensures Where(m, OverLimits(costLimit, gasLimit)) == map[]
    ensures Invalidated(m, strict, costLimit, gasLimit) == map[]
  {
  }

  lemma NoneStranded(m: Txs, strict: bool, removed: seq<Tx>, costLimit: nat, gasLimit: nat)
    requires Lists(removed, Where(m, OverLimits(costLimit, gasLimit))) && !(strict && |removed| > 0)
    ensures Affordable(m, strict, costLimit, gasLimit) == Unless(m, OverLimits(costLimit, gasLimit))
    ensures Invalidated(m, strict, costLimit, gasLimit) == map[]
  {
    if removed == [] {
      assert forall n :: n in m && Over(m[n], costLimit, gasLimit) ==> n in Where(m, OverLimits(costLimit, gasLimit));
    }
  }

  /** In a strict list exactly what lies above the lowest transaction that goes is stranded. */
  lemma LowestStrands(m: Txs, removed: seq<Tx>, lowest: nat, costLimit: nat, gasLimit: nat)
    requires Keyed(m) && Lists(removed, Where(m, OverLimits(costLimit, gasLimit)))
    requires exists i :: 0 <= i < |removed| && removed[i].nonce == lowest
    requires forall i :: 0 <= i < |removed| ==> lowest <= removed[i].nonce
    ensures var rest := Unless(m, OverLimits(costLimit, gasLimit));
            && Affordable(m, true, costLimit, gasLimit) == Unless(rest, HigherThan(lowest))
            && Invalidated(m, true, costLimit, gasLimit) == Where(rest, HigherThan(lowest))
  {
    var gone := Where(m, OverLimits(costLimit, gasLimit));
    var i :| 0 <= i < |removed| && removed[i].nonce == lowest;
    ListsIn(removed, gone, removed[i]);
    forall n | n in m
      ensures Stranded(m, n, costLimit, gasLimit) <==> n > lowest
    {
      if Stranded(m, n, costLimit, gasLimit) {
        var k :| k in m && k < n && Over(m[k], costLimit, gasLimit);
        ListsIn(removed, gone, m[k]);
      }
    }
  }

  // ---------------------------------------------------------------- operations by contents

  method Adding(strict: bool, m: Txs, tx: Tx, priceBump: nat) returns (inserted: bool, replaced: Replaced, m': Txs)
    requires Keyed(m)
    ensures inserted == (tx.nonce in m ==> Outbids(m[tx.nonce], tx, priceBump))
    ensures m' == if inserted then m[tx.nonce := tx] else m
    ensures replaced == if inserted && tx.nonce in m then Some(m[tx.nonce]) else None
  {
    var list := new List.Of(strict, m);
    inserted, replaced := list.Add(tx, priceBump);
    m' := list.txs.items;
  }

  method Removing(strict: bool, m: Txs, tx: Tx) returns (found: bool, invalids: seq<Tx>, m': Txs)
    requires Keyed(m)
    ensures found == (tx.nonce in m) && m' == if found then Unhooked(m, strict, tx.nonce) else m
    ensures Lists(invalids, if found && strict then From(m, tx.nonce + 1) else map[]) == true
  {
    var list := new List.Of(strict, m);
    found, invalids := list.Remove(tx);
    m' := list.txs.items;
  }

  method Forwarding(strict: bool, m: Txs, threshold: nat) returns (removed: seq<Tx>, m': Txs)
    requires Keyed(m)
    ensures m' == From(m, threshold) && Lists(removed, m - m'.Keys) == true
  {
    var list := new List.Of(strict, m);
    removed := list.Forward(threshold);
    m' := list.txs.items;
    assert m - m'.Keys == Before(m, threshold);
  }

  method Filtering(strict: bool, m: Txs, costLimit: nat, gasLimit: nat)
    returns (removed: seq<Tx>, invalids: seq<Tx>, m': Txs)
    requires Keyed(m)
    ensures m' == Affordable(m, strict, costLimit, gasLimit)
    ensures Lists(removed, Where(m, OverLimits(costLimit, gasLimit))) == true
    ensures Lists(invalids, Invalidated(m, strict, costLimit, gasLimit)) == true
  {
    var list := new List.Of(strict, m);
    removed, invalids := list.Filter(costLimit, gasLimit);
    m' := list.txs.items;
  }

  method Capping(strict: bool, m: Txs, size: nat) returns (drops: seq<Tx>, m': Txs)
    requires Keyed(m)
    ensures Capped(m, m', size) && Lists(drops, m - m'.Keys) == true
  {
    var list := new List.Of(strict, m);
    drops := list.Cap(size);
    m' := list.txs.items;
  }

  method TakingReady(strict: bool, m: Txs, start: nat) returns (ready: seq<Tx>, m': Txs)
    requires Keyed(m)
    ensures IsRun(m, start, m', ready) == true
  {
    var list := new List.Of(strict, m);
    ready := list.Ready(start);
    m' := list.txs.items;
  }

  method Flattening(strict: bool, m: Txs) returns (flat: seq<Tx>)
    requires Keyed(m)
    ensures Lists(flat, m) == true && Ascending(flat)
  {
    var list := new List.Of(strict, m);
    flat := list.Flatten();
  }
}
