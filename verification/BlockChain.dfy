/**
 The block chain (core/blockchain.go, core/database_util.go): fork choice by total difficulty, the
 reorganisation that moves the canonical number index and the transaction lookup index from one branch
 to another, and the search for the last common ancestor of two headers.

 A block's hash identifies it, and a transaction is identified by its hash.
 */
module BlockChain {

  import opened Shared

  type Hash = nat
  type Tx = nat

  datatype Block = Block(hash: Hash, parent: Hash, number: nat, difficulty: nat, txs: seq<Tx>)

  /** Where a transaction is: block hash, block number, position in the block. */
  datatype Entry = Entry(block: Hash, number: nat, index: nat)

  type Store = map<Hash, Block>

  // ---------------------------------------------------------------- walking back

  /** Blocks are stored under their hash and number. */
  function GetBlock(store: Store, hash: Hash, number: nat): Option<Block>
  {
    if hash in store && store[hash].number == number then Some(store[hash]) else None
  }

  /** The parent of a block; below number 0 nothing is stored. */
  function GetParent(store: Store, b: Block): (p: Option<Block>)
    ensures p.Some? ==> p.value.number + 1 == b.number
  {
    if b.number == 0 then None else GetBlock(store, b.parent, b.number - 1)
  }

  /** The stored ancestors of `b`, oldest first, and `b` itself. */
  ghost function Chain(store: Store, b: Block): (c: seq<Block>)
    ensures 0 < |c| <= b.number + 1 && c[|c| - 1] == b
    decreases b.number
  {
    var p := GetParent(store, b);
    if p.None? then [b] else Chain(store, p.value) + [b]
  }

  /** All ancestors of `b` are stored, down to number 0. */
  ghost predicate Whole(store: Store, b: Block)
  {
    |Chain(store, b)| == b.number + 1
  }

  ghost predicate Sound(store: Store)
  {
    forall h :: h in store ==> store[h].hash == h
  }

  /** `b` may be in the store, but no other block with its hash is. */
  ghost predicate Identified(store: Store, b: Block)
  {
    b.hash in store ==> store[b.hash] == b
  }

  ghost predicate Stored(store: Store, b: Block)
  {
    b.hash in store && store[b.hash] == b
  }

  lemma {:induction false} WholeParent(store: Store, b: Block)
    requires Whole(store, b) && b.number > 0
    ensures var p := GetParent(store, b);
            p.Some? && Whole(store, p.value) && Chain(store, b) == Chain(store, p.value) + [b]
  {
  }

  lemma {:induction false} ChainNumbers(store: Store, b: Block, n: nat)
    requires Whole(store, b) && n <= b.number
    ensures Chain(store, b)[n].number == n
    decreases b.number
  {
    if n < b.number {
      WholeParent(store, b);
      ChainNumbers(store, GetParent(store, b).value, n);
    }
  }

  /** The chain of an ancestor is a prefix. */
  lemma {:induction false} ChainPrefix(store: Store, b: Block, n: nat)
    requires Whole(store, b) && n <= b.number
    ensures Whole(store, Chain(store, b)[n]) && Chain(store, Chain(store, b)[n]) == Chain(store, b)[..n + 1]
    decreases b.number
  {
    if n < b.number {
      WholeParent(store, b);
      var p := GetParent(store, b).value;
      ChainPrefix(store, p, n);
      assert Chain(store, b)[..n + 1] == Chain(store, p)[..n + 1];
    } else {
      assert Chain(store, b)[..n + 1] == Chain(store, b);
    }
  }

  // ---------------------------------------------------------------- storing a block

  /** Storing a block changes neither the chains that were whole nor those that end at or below it. */
  lemma {:induction false} ChainKept(store: Store, b: Block, c: Block)
    requires Identified(store, b) && (Whole(store, c) || c.number <= b.number)
    ensures Chain(store[b.hash := b], c) == Chain(store, c)
    decreases c.number
  {
    var p := GetParent(store, c);
    if p.Some? {
      if Whole(store, c) { WholeParent(store, c); }
      ChainKept(store, b, p.value);
    }
  }

  // ---------------------------------------------------------------- the lookup index

  /** The entries of the first `k` transactions of a block, over those in `m`. */
  function AddTxs(m: map<Tx, Entry>, b: Block, k: nat): map<Tx, Entry>
    requires k <= |b.txs|
  {
    if k == 0 then m else AddTxs(m, b, k - 1)[b.txs[k - 1] := Entry(b.hash, b.number, k - 1)]
  }

  /** The entries of the blocks, in the order given. */
  function AddAll(m: map<Tx, Entry>, bs: seq<Block>): map<Tx, Entry>
  {
    if bs == [] then m
    else
      var last := bs[|bs| - 1];
      AddTxs(AddAll(m, bs[..|bs| - 1]), last, |last.txs|)
  }

  /** The plain scan of a chain. */
  function Index(chain: seq<Block>): map<Tx, Entry>
  {
    AddAll(map[], chain)
  }

  ghost predicate Carries(bs: seq<Block>, tx: Tx)
  {
    exists k :: 0 <= k < |bs| && tx in bs[k].txs
  }

  ghost predicate IsPlace(bs: seq<Block>, k: int, i: int)
  {
    0 <= k < |bs| && 0 <= i < |bs[k].txs|
  }

  ghost function TxAt(bs: seq<Block>, k: int, i: int): Tx
    requires IsPlace(bs, k, i)
  {
    bs[k].txs[i]
  }

  /** No transaction occurs twice. */
  ghost predicate ReplayFree(bs: seq<Block>)
  {
    forall j, k, i, l {:trigger TxAt(bs, j, i), TxAt(bs, k, l)} ::
      IsPlace(bs, j, i) && IsPlace(bs, k, l) && TxAt(bs, j, i) == TxAt(bs, k, l) ==> j == k && i == l
  }

  /** The position of the last occurrence. */
  function LastAt(txs: seq<Tx>, tx: Tx): (i: nat)
    requires tx in txs
    ensures i < |txs| && txs[i] == tx
  {
    if txs[|txs| - 1] == tx then |txs| - 1 else LastAt(txs[..|txs| - 1], tx)
  }

  function EntryOf(m: map<Tx, Entry>, tx: Tx): Option<Entry>
  {
    if tx in m then Some(m[tx]) else None
  }

  /** The entry that a block has for a transaction. */
  function EntryIn(b: Block, tx: Tx): Option<Entry>
  {
    if tx in b.txs then Some(Entry(b.hash, b.number, LastAt(b.txs, tx))) else None
  }

  /** The entry of the last of the blocks that carries a transaction. */
  function LastEntry(bs: seq<Block>, tx: Tx): (e: Option<Entry>)
  {
    if bs == [] then None
    else if tx in bs[|bs| - 1].txs then EntryIn(bs[|bs| - 1], tx)
    else LastEntry(bs[..|bs| - 1], tx)
  }

  lemma {:induction false} AddTxsEntry(m: map<Tx, Entry>, b: Block, k: nat, tx: Tx)
    requires k <= |b.txs|
    ensures EntryOf(AddTxs(m, b, k), tx)
         == if tx in b.txs[..k] then Some(Entry(b.hash, b.number, LastAt(b.txs[..k], tx))) else EntryOf(m, tx)
  {
    if k > 0 {
      AddTxsEntry(m, b, k - 1, tx);
      assert b.txs[..k][..k - 1] == b.txs[..k - 1];
    }
  }

  lemma AddBlockEntry(m: map<Tx, Entry>, b: Block, tx: Tx)
    ensures EntryOf(AddTxs(m, b, |b.txs|), tx) == if tx in b.txs then EntryIn(b, tx) else EntryOf(m, tx)
  {
    AddTxsEntry(m, b, |b.txs|, tx);
    assert b.txs[..|b.txs|] == b.txs;
  }

  lemma {:induction false} AddAllEntry(m: map<Tx, Entry>, bs: seq<Block>, tx: Tx)
    ensures EntryOf(AddAll(m, bs), tx) == if LastEntry(bs, tx).Some? then LastEntry(bs, tx) else EntryOf(m, tx)
    decreases |bs|
  {
    if bs != [] {
      AddAllEntry(m, bs[..|bs| - 1], tx);
      AddBlockEntry(AddAll(m, bs[..|bs| - 1]), bs[|bs| - 1], tx);
    }
  }

  lemma {:induction false} LastEntryCarries(bs: seq<Block>, tx: Tx)
    ensures LastEntry(bs, tx).Some? <==> Carries(bs, tx)
    decreases |bs|
  {
    if bs != [] {
      var front := bs[..|bs| - 1];
      LastEntryCarries(front, tx);
      CarriesAppend(front, [bs[|bs| - 1]], tx);
      assert front + [bs[|bs| - 1]] == bs;
      assert tx in bs[|bs| - 1].txs <==> Carries([bs[|bs| - 1]], tx);
    }
  }

  lemma {:induction false} LastEntryAppend(a: seq<Block>, b: seq<Block>, tx: Tx)
    ensures LastEntry(a + b, tx) == if LastEntry(b, tx).Some? then LastEntry(b, tx) else LastEntry(a, tx)
    decreases |b|
  {
    if b == [] {
      assert a + b == a;
    } else {
      LastEntryAppend(a, b[..|b| - 1], tx);
      assert (a + b)[..|a + b| - 1] == a + b[..|b| - 1];
    }
  }

  /** At most one of the blocks carries the transaction. */
  ghost predicate InOne(bs: seq<Block>, tx: Tx)
  {
    forall j, k :: 0 <= j < |bs| && 0 <= k < |bs| && tx in bs[j].txs && tx in bs[k].txs ==> j == k
  }

  /** The blocks are numbered in sequence. */
  ghost predicate Ascending(bs: seq<Block>)
  {
    forall j, k :: 0 <= j < k < |bs| ==> bs[j].number < bs[k].number
  }

  /** The last block that carries a transaction. */
  lemma {:induction false} LastEntryAt(bs: seq<Block>, tx: Tx) returns (k: nat)
    requires Carries(bs, tx)
    ensures k < |bs| && tx in bs[k].txs && LastEntry(bs, tx) == EntryIn(bs[k], tx)
    ensures forall j :: k < j < |bs| ==> tx !in bs[j].txs
    decreases |bs|
  {
    k := |bs| - 1;
    if tx !in bs[k].txs {
      var front := bs[..k];
      var l :| 0 <= l < |bs| && tx in bs[l].txs;
      assert tx in front[l].txs;
      k := LastEntryAt(front, tx);
    }
  }

  /** Written newest first, a transaction ends up at the same place exactly if only one of the blocks carries it. */
  lemma RevEntry(bs: seq<Block>, tx: Tx)
    requires Ascending(bs)
    ensures LastEntry(Rev(bs), tx) == LastEntry(bs, tx) <==> InOne(bs, tx)
  {
    CarriesRev(bs, tx);
    LastEntryCarries(bs, tx);
    LastEntryCarries(Rev(bs), tx);
    if Carries(bs, tx) {
      var k := LastEntryAt(bs, tx);
      var l := LastEntryAt(Rev(bs), tx);
      var f := |bs| - 1 - l;
      assert bs[f] == Rev(bs)[l];
      forall j | 0 <= j < |bs| && tx in bs[j].txs ensures f <= j <= k {
        assert Rev(bs)[|bs| - 1 - j] == bs[j];
      }
      if f != k {
        assert bs[f].number != bs[k].number;
        assert !InOne(bs, tx);
      }
    }
  }

  /** The transactions of the blocks, in order. */
  function TxsOf(bs: seq<Block>): seq<Tx>
  {
    if bs == [] then [] else TxsOf(bs[..|bs| - 1]) + bs[|bs| - 1].txs
  }

  lemma {:induction false} TxsOfCarries(bs: seq<Block>, tx: Tx)
    ensures tx in TxsOf(bs) <==> Carries(bs, tx)
    decreases |bs|
  {
    if bs != [] {
      var front := bs[..|bs| - 1];
      TxsOfCarries(front, tx);
      assert forall k :: 0 <= k < |front| ==> front[k] == bs[k];
      if Carries(bs, tx) {
        var k :| 0 <= k < |bs| && tx in bs[k].txs;
        assert k < |front| ==> tx in front[k].txs;
      }
      if Carries(front, tx) {
        var k :| 0 <= k < |front| && tx in front[k].txs;
        assert tx in bs[k].txs;
      }
    }
  }

  function Rev(bs: seq<Block>): (r: seq<Block>)
    ensures |r| == |bs| && forall i :: 0 <= i < |bs| ==> r[i] == bs[|bs| - 1 - i]
  {
    if bs == [] then [] else [bs[|bs| - 1]] + Rev(bs[..|bs| - 1])
  }

  lemma EmptyIndex(b: Block)
    requires b.txs == []
    ensures Index([b]) == map[]
  {
    assert [b][..0] == [];
    assert AddAll(map[], [b]) == AddTxs(AddAll(map[], []), b, 0);
  }

  lemma RevTwice(bs: seq<Block>)
    ensures Rev(Rev(bs)) == bs
  {
  }

  /** Two indexes with the same entries are the same. */
  lemma SameEntries(a: map<Tx, Entry>, b: map<Tx, Entry>)
    requires forall tx {:trigger EntryOf(a, tx)} :: EntryOf(a, tx) == EntryOf(b, tx)
    ensures a == b
  {
    forall tx
      ensures (tx in a <==> tx in b) && (tx in a ==> a[tx] == b[tx])
    {
      assert EntryOf(a, tx) == EntryOf(b, tx);
    }
  }

  /** Writing the entries of a block twice is writing them once. */
  lemma AddTxsTwice(m: map<Tx, Entry>, b: Block)
    ensures AddTxs(AddTxs(m, b, |b.txs|), b, |b.txs|) == AddTxs(m, b, |b.txs|)
  {
    var once := AddTxs(m, b, |b.txs|);
    forall tx
      ensures EntryOf(AddTxs(once, b, |b.txs|), tx) == EntryOf(once, tx)
    {
      AddBlockEntry(m, b, tx);
      AddBlockEntry(once, b, tx);
    }
    SameEntries(AddTxs(once, b, |b.txs|), once);
  }

  /** What a reorganisation does to the lookup index: entries of the new branch in, those of the old branch only out. */
  function Moved(m: map<Tx, Entry>, oldChain: seq<Block>, newChain: seq<Block>): map<Tx, Entry>
  {
    AddAll(m, newChain) - set tx | tx in TxsOf(oldChain) && tx !in TxsOf(newChain)
  }

  lemma CarriesAppend(a: seq<Block>, b: seq<Block>, tx: Tx)
    ensures Carries(a + b, tx) <==> Carries(a, tx) || Carries(b, tx)
  {
    if Carries(a, tx) {
      var k :| 0 <= k < |a| && tx in a[k].txs;
      assert (a + b)[k] == a[k];
    }
    if Carries(b, tx) {
      var k :| 0 <= k < |b| && tx in b[k].txs;
      assert (a + b)[|a| + k] == b[k];
    }
    if Carries(a + b, tx) {
      var k :| 0 <= k < |a + b| && tx in (a + b)[k].txs;
      assert if k < |a| then tx in a[k].txs else tx in b[k - |a|].txs;
    }
  }

  lemma CarriesRev(bs: seq<Block>, tx: Tx)
    ensures Carries(Rev(bs), tx) <==> Carries(bs, tx)
  {
    if Carries(bs, tx) {
      var k :| 0 <= k < |bs| && tx in bs[k].txs;
      assert Rev(bs)[|bs| - 1 - k] == bs[k];
    }
    if Carries(Rev(bs), tx) {
      var k :| 0 <= k < |bs| && tx in Rev(bs)[k].txs;
      assert tx in bs[|bs| - 1 - k].txs;
    }
  }

  lemma IndexEntry(c: seq<Block>, tx: Tx)
    ensures EntryOf(Index(c), tx) == LastEntry(c, tx)
  {
    AddAllEntry(map[], c, tx);
  }

  /** The entry of a transaction after a reorganisation from `c + o` to `c + n`. */
  lemma MovedEntry(c: seq<Block>, o: seq<Block>, n: seq<Block>, tx: Tx)
    ensures EntryOf(Moved(Index(c + o), Rev(o), Rev(n)), tx)
         == if Carries(n, tx) then LastEntry(Rev(n), tx) else if Carries(o, tx) then None else LastEntry(c, tx)
  {
    AddAllEntry(Index(c + o), Rev(n), tx);
    IndexEntry(c + o, tx);
    LastEntryAppend(c, o, tx);
    LastEntryCarries(o, tx);
    LastEntryCarries(Rev(n), tx);
    CarriesRev(n, tx);
    CarriesRev(o, tx);
    TxsOfCarries(Rev(o), tx);
    TxsOfCarries(Rev(n), tx);
  }

  /**
   The index gets the transaction right: it is not lost with the old branch, and in one block of the new branch only.
   */
  ghost predicate Kept(c: seq<Block>, o: seq<Block>, n: seq<Block>, tx: Tx)
  {
    InOne(n, tx) && (Carries(c, tx) && Carries(o, tx) ==> Carries(n, tx))
  }

  lemma MovedRight(c: seq<Block>, o: seq<Block>, n: seq<Block>, tx: Tx)
    requires Ascending(n)
    ensures EntryOf(Moved(Index(c + o), Rev(o), Rev(n)), tx) == EntryOf(Index(c + n), tx) <==> Kept(c, o, n, tx)
  {
    MovedEntry(c, o, n, tx);
    IndexEntry(c + n, tx);
    LastEntryAppend(c, n, tx);
    LastEntryCarries(n, tx);
    LastEntryCarries(c, tx);
    RevEntry(n, tx);
    if !Carries(n, tx) {
      assert InOne(n, tx);
    }
  }

  /**
   Moving the index from one branch to the other gives the plain scan of the new chain if and only if no transaction is
   in two blocks of the new branch, and what the old branch repeats from below the fork is in the new one as well.
   */
  lemma IndexMoves(c: seq<Block>, o: seq<Block>, n: seq<Block>)
    requires Ascending(n)
    ensures Moved(Index(c + o), Rev(o), Rev(n)) == Index(c + n) <==> forall tx :: Kept(c, o, n, tx)
  {
    var m := Moved(Index(c + o), Rev(o), Rev(n));
    forall tx
      ensures EntryOf(m, tx) == EntryOf(Index(c + n), tx) <==> Kept(c, o, n, tx)
    {
      MovedRight(c, o, n, tx);
    }
    if forall tx :: Kept(c, o, n, tx) {
      forall tx
        ensures EntryOf(m, tx) == EntryOf(Index(c + n), tx)
      {
        assert Kept(c, o, n, tx);
      }
      SameEntries(m, Index(c + n));
    } else {
      var tx :| !Kept(c, o, n, tx);
      assert EntryOf(m, tx) != EntryOf(Index(c + n), tx);
    }
  }

  /** A transaction below the fork that only the old branch repeats loses its entry. */
  lemma ReplayLosesEntry(c: seq<Block>, o: seq<Block>, n: seq<Block>, tx: Tx)
    requires Carries(c, tx) && Carries(o, tx) && !Carries(n, tx)
    ensures EntryOf(Index(c + n), tx).Some? && EntryOf(Moved(Index(c + o), Rev(o), Rev(n)), tx).None?
  {
    MovedEntry(c, o, n, tx);
    IndexEntry(c + n, tx);
    LastEntryAppend(c, n, tx);
    LastEntryCarries(c, tx);
    LastEntryCarries(n, tx);
  }

  /** The same when the entries of the new head are written once more at the end: only other transactions matter. */
  ghost predicate Clean(c: seq<Block>, o: seq<Block>, n: seq<Block>, head: Block)
  {
    forall tx :: tx !in head.txs ==> Kept(c, o, n, tx)
  }

  lemma HeadedRight(c: seq<Block>, o: seq<Block>, n: seq<Block>, tx: Tx)
    requires Ascending(n) && c + n != []
    ensures var head := (c + n)[|c + n| - 1];
            EntryOf(AddTxs(Moved(Index(c + o), Rev(o), Rev(n)), head, |head.txs|), tx) == EntryOf(Index(c + n), tx)
            <==> tx in head.txs || Kept(c, o, n, tx)
  {
    var head := (c + n)[|c + n| - 1];
    AddBlockEntry(Moved(Index(c + o), Rev(o), Rev(n)), head, tx);
    MovedRight(c, o, n, tx);
    IndexEntry(c + n, tx);
  }

  lemma HeadMoves(c: seq<Block>, o: seq<Block>, n: seq<Block>)
    requires Ascending(n) && c + n != []
    ensures var head := (c + n)[|c + n| - 1];
            AddTxs(Moved(Index(c + o), Rev(o), Rev(n)), head, |head.txs|) == Index(c + n) <==> Clean(c, o, n, head)
  {
    var head := (c + n)[|c + n| - 1];
    var m := AddTxs(Moved(Index(c + o), Rev(o), Rev(n)), head, |head.txs|);
    forall tx
      ensures EntryOf(m, tx) == EntryOf(Index(c + n), tx) <==> tx in head.txs || Kept(c, o, n, tx)
    {
      HeadedRight(c, o, n, tx);
    }
    if Clean(c, o, n, head) {
      forall tx
        ensures EntryOf(m, tx) == EntryOf(Index(c + n), tx)
      {
        assert tx !in head.txs ==> Kept(c, o, n, tx);
      }
      SameEntries(m, Index(c + n));
    } else {
      var tx :| tx !in head.txs && !Kept(c, o, n, tx);
      assert EntryOf(m, tx) != EntryOf(Index(c + n), tx);
    }
  }

  /** Chains that execute no transaction twice are clean. */
  lemma ReplayFreeClean(c: seq<Block>, o: seq<Block>, n: seq<Block>, head: Block)
    requires ReplayFree(c + o) && ReplayFree(c + n)
    ensures Clean(c, o, n, head)
  {
    forall tx
      ensures Kept(c, o, n, tx)
    {
      forall j, k | 0 <= j < |n| && 0 <= k < |n| && tx in n[j].txs && tx in n[k].txs ensures j == k {
        Replayed(c + n, |c| + j, |c| + k, tx);
      }
      if Carries(c, tx) && Carries(o, tx) {
        var j :| 0 <= j < |c| && tx in c[j].txs;
        var k :| 0 <= k < |o| && tx in o[k].txs;
        Replayed(c + o, j, |c| + k, tx);
      }
    }
  }

  lemma Replayed(bs: seq<Block>, j: nat, k: nat, tx: Tx)
    requires ReplayFree(bs) && j < |bs| && k < |bs| && tx in bs[j].txs && tx in bs[k].txs
    ensures j == k
  {
    var i :| 0 <= i < |bs[j].txs| && bs[j].txs[i] == tx;
    var l :| 0 <= l < |bs[k].txs| && bs[k].txs[l] == tx;
    assert TxAt(bs, j, i) == TxAt(bs, k, l);
  }

  // ---------------------------------------------------------------- FindCommonAncestor

  /** `x` is `b` or a stored ancestor of it. */
  ghost predicate InChain(store: Store, b: Block, x: Block)
    decreases b.number
  {
    x == b || (GetParent(store, b).Some? && InChain(store, GetParent(store, b).value, x))
  }

  ghost predicate Common(store: Store, a: Block, b: Block, x: Block)
  {
    InChain(store, a, x) && InChain(store, b, x)
  }

  lemma {:induction false} InChainNumber(store: Store, b: Block, x: Block)
    requires InChain(store, b, x)
    ensures x.number <= b.number && (x.number == b.number ==> x == b)
    decreases b.number
  {
    if x != b { InChainNumber(store, GetParent(store, b).value, x); }
  }

  /** One step back from the higher of two blocks keeps their common ancestors. */
  lemma CommonBelow(store: Store, a: Block, b: Block, x: Block)
    requires a.number > b.number
    ensures var p := GetParent(store, a);
            Common(store, a, b, x) <==> p.Some? && Common(store, p.value, b, x)
  {
    if InChain(store, b, x) { InChainNumber(store, b, x); }
  }

  lemma CommonBelowRight(store: Store, a: Block, b: Block, x: Block)
    requires a.number < b.number
    ensures var q := GetParent(store, b);
            Common(store, a, b, x) <==> q.Some? && Common(store, a, q.value, x)
  {
    CommonBelow(store, b, a, x);
  }

  /** One step back from two different blocks of the same number keeps their common ancestors. */
  lemma CommonBoth(store: Store, a: Block, b: Block, x: Block)
    requires a.number == b.number && a != b
    ensures var p, q := GetParent(store, a), GetParent(store, b);
            Common(store, a, b, x) <==> p.Some? && q.Some? && Common(store, p.value, q.value, x)
  {
    if InChain(store, a, x) { InChainNumber(store, a, x); }
    if InChain(store, b, x) { InChainNumber(store, b, x); }
  }

  /** Two blocks have the same common ancestors as two others. */
  ghost predicate SameCommon(store: Store, a: Block, b: Block, a': Block, b': Block)
  {
    forall x :: Common(store, a, b, x) <==> Common(store, a', b', x)
  }

  /** The last common ancestor of two headers, or none if the stored chains do not meet. */
  method FindCommonAncestor(store: Store, a0: Block, b0: Block) returns (r: Option<Block>)
    requires Sound(store) && Identified(store, a0) && Identified(store, b0) && (a0.hash == b0.hash ==> a0 == b0)
    ensures r.Some? ==>
              Common(store, a0, b0, r.value) && forall x :: Common(store, a0, b0, x) ==> x.number <= r.value.number
    ensures r.None? ==> forall x :: !Common(store, a0, b0, x)
  {
    var a, b := a0, b0;
    while a.number > b.number
      invariant SameCommon(store, a0, b0, a, b) && Identified(store, a) && (a.hash == b.hash ==> a == b)
      decreases a.number
    {
      forall x { CommonBelow(store, a, b, x); }
      var p := GetParent(store, a);
      if p.None? {
        return None;
      }
      a := p.value;
    }
    while a.number < b.number
      invariant SameCommon(store, a0, b0, a, b) && Identified(store, b) && Identified(store, a)
      invariant a.hash == b.hash ==> a == b
      invariant a.number <= b.number
      decreases b.number
    {
      forall x { CommonBelowRight(store, a, b, x); }
      var p := GetParent(store, b);
      if p.None? {
        return None;
      }
      b := p.value;
    }
    while a.hash != b.hash
      invariant SameCommon(store, a0, b0, a, b) && (a.hash == b.hash ==> a == b) && a.number == b.number
      decreases a.number
    {
      forall x { CommonBoth(store, a, b, x); }
      var p := GetParent(store, a);
      if p.None? {
        return None;
      }
      var q := GetParent(store, b);
      if q.None? {
        return None;
      }
      a, b := p.value, q.value;
    }
    assert Common(store, a, b, a);
    forall x | Common(store, a, b, x) ensures x.number <= a.number { InChainNumber(store, a, x); }
    r := Some(a);
  }

  // ---------------------------------------------------------------- the two branches of a reorganisation

  /** The blocks of `b`'s chain above `common`, newest first. */
  ghost predicate Branch(store: Store, common: Block, b: Block, newestFirst: seq<Block>)
  {
    Chain(store, b) == Chain(store, common) + Rev(newestFirst) && b.number == common.number + |newestFirst|
  }

  lemma BranchStep(store: Store, common: Block, b: Block, chain: seq<Block>)
    requires Branch(store, common, b, chain) && GetParent(store, common).Some?
    ensures Branch(store, GetParent(store, common).value, b, chain + [common])
  {
    var p := GetParent(store, common).value;
    assert (chain + [common])[..|chain|] == chain;
    assert Chain(store, p) + [common] + Rev(chain) == Chain(store, p) + ([common] + Rev(chain));
  }

  /** A branch that runs out of stored ancestors above number 0 is not whole. */
  lemma BranchEnds(store: Store, common: Block, b: Block, chain: seq<Block>)
    requires Branch(store, common, b, chain) && GetParent(store, common).None?
    ensures Whole(store, b) ==> common.number == 0 && Chain(store, b)[0] == common
  {
  }

  /** Walk `b`, whose chain is whole, back to `number`. */
  method Lower(store: Store, b: Block, number: nat) returns (x: Block, chain: seq<Block>)
    requires Sound(store) && Stored(store, b) && Whole(store, b) && number <= b.number
    ensures Branch(store, x, b, chain) && Stored(store, x) && x.number == number
  {
    x, chain := b, [];
    while x.number != number
      invariant Branch(store, x, b, chain) && Stored(store, x) && number <= x.number
      decreases x.number
    {
      BranchAbove(store, x, b, chain);
      BranchStep(store, x, b, chain);
      chain := chain + [x];
      x := GetParent(store, x).value;
    }
  }

  /** Walk `b` back to `number`, or fail where its chain breaks off. */
  method TryLower(store: Store, b: Block, number: nat) returns (ok: bool, x: Block, chain: seq<Block>)
    requires Sound(store) && Identified(store, b) && number <= b.number
    ensures ok ==> Branch(store, x, b, chain) && Identified(store, x) && x.number == number
    ensures !ok ==> !Whole(store, b)
  {
    x, chain := b, [];
    while x.number != number
      invariant Branch(store, x, b, chain) && Identified(store, x) && number <= x.number
      decreases x.number
    {
      var p := GetParent(store, x);
      if p.None? {
        BranchEnds(store, x, b, chain);
        ok := false;
        return;
      }
      BranchStep(store, x, b, chain);
      chain := chain + [x];
      x := p.value;
    }
    ok := true;
  }

  /** Both branches collected so far are right, and part ways at their lowest blocks. */
  ghost predicate Parted(store: Store, o: Block, n: Block, oldBlock: Block, newBlock: Block, oldChain: seq<Block>,
                         newChain: seq<Block>)
  {
    && Branch(store, o, oldBlock, oldChain) && Branch(store, n, newBlock, newChain) && o.number == n.number
    && (oldChain != [] && newChain != [] ==> oldChain[|oldChain| - 1].hash != newChain[|newChain| - 1].hash)
  }

  /** The first half of `reorg`: walk both chains back to where they meet, collecting what is above. */
  method Split(store: Store, oldBlock: Block, newBlock: Block)
    returns (ok: bool, common: Block, oldChain: seq<Block>, newChain: seq<Block>)
    requires Sound(store) && Stored(store, oldBlock) && Identified(store, newBlock) && Whole(store, oldBlock)
    ensures ok <==> Whole(store, newBlock) && Chain(store, newBlock)[0] == Chain(store, oldBlock)[0]
    ensures ok ==> Parted(store, common, common, oldBlock, newBlock, oldChain, newChain)
  {
    var o, n := oldBlock, newBlock;
    oldChain, newChain := [], [];
    common := o;
    if o.number > n.number {
      o, oldChain := Lower(store, o, n.number);
    } else {
      ok, n, newChain := TryLower(store, n, o.number);
      if !ok {
        return;
      }
    }
    ok, common, oldChain, newChain := Meet(store, oldBlock, newBlock, o, n, oldChain, newChain);
  }

  /** The loop of `reorg` that steps both chains back until they meet. */
  method Meet(store: Store, oldBlock: Block, newBlock: Block, o0: Block, n0: Block, oldChain0: seq<Block>,
              newChain0: seq<Block>)
    returns (ok: bool, common: Block, oldChain: seq<Block>, newChain: seq<Block>)
    requires Sound(store) && Whole(store, oldBlock)
    requires Parted(store, o0, n0, oldBlock, newBlock, oldChain0, newChain0) && (o0.hash == n0.hash ==> o0 == n0)
    ensures ok <==> Whole(store, newBlock) && Chain(store, newBlock)[0] == Chain(store, oldBlock)[0]
    ensures ok ==> Parted(store, common, common, oldBlock, newBlock, oldChain, newChain) == true
  {
    var o, n := o0, n0;
    oldChain, newChain, common := oldChain0, newChain0, o;
    while o.hash != n.hash
      invariant Parted(store, o, n, oldBlock, newBlock, oldChain, newChain) == true && (o.hash == n.hash ==> o == n)
      decreases o.number
    {
      var p, q := GetParent(store, o), GetParent(store, n);
      if p.None? || q.None? {
        PartedEnds(store, o, n, oldBlock, newBlock, oldChain, newChain);
        ok := false;
        return;
      }
      PartedStep(store, o, n, oldBlock, newBlock, oldChain, newChain);
      oldChain := oldChain + [o];
      newChain := newChain + [n];
      o, n := p.value, q.value;
    }
    ok, common := true, o;
    PartedMeet(store, common, oldBlock, newBlock, oldChain, newChain);
  }

  /** Both branches go one block further back. */
  lemma PartedStep(store: Store, o: Block, n: Block, oldBlock: Block, newBlock: Block, oldChain: seq<Block>,
                   newChain: seq<Block>)
    requires Sound(store) && Parted(store, o, n, oldBlock, newBlock, oldChain, newChain) == true && o.hash != n.hash
    requires GetParent(store, o).Some? && GetParent(store, n).Some?
    ensures var p, q := GetParent(store, o).value, GetParent(store, n).value;
            && Parted(store, p, q, oldBlock, newBlock, oldChain + [o], newChain + [n]) == true
            && (p.hash == q.hash ==> p == q) && p.number < o.number
  {
    BranchStep(store, o, oldBlock, oldChain);
    BranchStep(store, n, newBlock, newChain);
  }

  /** Branches that run out of ancestors before they meet have no common ancestor. */
  lemma PartedEnds(store: Store, o: Block, n: Block, oldBlock: Block, newBlock: Block, oldChain: seq<Block>,
                   newChain: seq<Block>)
    requires Sound(store) && Whole(store, oldBlock)
    requires Parted(store, o, n, oldBlock, newBlock, oldChain, newChain) == true
    requires o.hash != n.hash && (GetParent(store, o).None? || GetParent(store, n).None?)
    ensures !(Whole(store, newBlock) && Chain(store, newBlock)[0] == Chain(store, oldBlock)[0])
  {
    if GetParent(store, o).None? {
      BranchEnds(store, o, oldBlock, oldChain);
      BranchEnds(store, n, newBlock, newChain);
    } else {
      BranchEnds(store, n, newBlock, newChain);
    }
  }

  lemma PartedMeet(store: Store, common: Block, oldBlock: Block, newBlock: Block, oldChain: seq<Block>,
                   newChain: seq<Block>)
    requires Whole(store, oldBlock) && Parted(store, common, common, oldBlock, newBlock, oldChain, newChain) == true
    ensures Whole(store, newBlock) && Chain(store, newBlock)[0] == Chain(store, oldBlock)[0]
  {
    BranchWhole(store, common, oldBlock, oldChain);
    BranchWhole(store, common, newBlock, newChain);
  }

  lemma BranchWhole(store: Store, common: Block, b: Block, chain: seq<Block>)
    requires Branch(store, common, b, chain)
    ensures Whole(store, b) <==> Whole(store, common)
    ensures Chain(store, b)[0] == Chain(store, common)[0]
  {
  }

  /** Above number 0 a block of a whole chain has its parent. */
  lemma BranchAbove(store: Store, common: Block, b: Block, chain: seq<Block>)
    requires Branch(store, common, b, chain) && Whole(store, b) && common.number > 0
    ensures GetParent(store, common).Some?
  {
  }

  // ---------------------------------------------------------------- the chain

  /** Every number up to the head's is indexed by the head's ancestor of that number. */
  ghost predicate Canonical(canon: map<nat, Hash>, chain: seq<Block>)
  {
    forall n: nat {:trigger GetCanonicalHash(canon, n)} ::
      n < |chain| ==> GetCanonicalHash(canon, n) == Some(chain[n].hash)
  }

  function GetCanonicalHash(canon: map<nat, Hash>, n: nat): Option<Hash>
  {
    if n in canon then Some(canon[n]) else None
  }

  /** The number index after the blocks have been put in, in the order given. */
  function Numbered(canon: map<nat, Hash>, bs: seq<Block>): map<nat, Hash>
  {
    if bs == [] then canon
    else
      var last := bs[|bs| - 1];
      Numbered(canon, bs[..|bs| - 1])[last.number := last.hash]
  }

  lemma {:induction false} NumberedOther(canon: map<nat, Hash>, bs: seq<Block>, n: nat)
    requires forall k :: 0 <= k < |bs| ==> bs[k].number != n
    ensures (n in Numbered(canon, bs) <==> n in canon) && (n in canon ==> Numbered(canon, bs)[n] == canon[n])
    decreases |bs|
  {
    if bs != [] { NumberedOther(canon, bs[..|bs| - 1], n); }
  }

  lemma {:induction false} NumberedAt(canon: map<nat, Hash>, bs: seq<Block>, k: nat)
    requires k < |bs| && forall i, j :: 0 <= i < j < |bs| ==> bs[i].number != bs[j].number
    ensures bs[k].number in Numbered(canon, bs) && Numbered(canon, bs)[bs[k].number] == bs[k].hash
    decreases |bs|
  {
    if k < |bs| - 1 { NumberedAt(canon, bs[..|bs| - 1], k); }
  }

  /** Moving the number index to the new branch makes it canonical for the new chain. */
  lemma NumbersMove(canon: map<nat, Hash>, c: seq<Block>, o: seq<Block>, n: seq<Block>)
    requires Canonical(canon, c + o)
    requires forall k :: 0 <= k < |c + n| ==> (c + n)[k].number == k
    ensures Canonical(Numbered(canon, Rev(n)), c + n)
  {
    var r := Rev(n);
    assert forall k :: 0 <= k < |n| ==> (c + n)[|c| + k] == n[k];
    assert forall k :: 0 <= k < |r| ==> r[k].number == |c| + |n| - 1 - k;
    forall k: nat | k < |c + n|
      ensures GetCanonicalHash(Numbered(canon, r), k) == Some((c + n)[k].hash)
    {
      if k < |c| {
        assert (c + o)[k] == c[k] && (c + n)[k] == c[k];
        assert GetCanonicalHash(canon, k) == Some(c[k].hash);
        NumberedOther(canon, r, k);
      } else {
        NumberedAt(canon, r, |c| + |n| - 1 - k);
      }
    }
  }

  /** The lookup index is the plain scan of the chain. */
  ghost predicate IsScan(lookup: map<Tx, Entry>, chain: seq<Block>)
  {
    forall tx {:trigger EntryOf(lookup, tx)} :: EntryOf(lookup, tx) == EntryOf(Index(chain), tx)
  }

  lemma ScanIsIndex(lookup: map<Tx, Entry>, chain: seq<Block>)
    ensures IsScan(lookup, chain) <==> lookup == Index(chain)
  {
    if IsScan(lookup, chain) {
      forall tx
        ensures (tx in lookup <==> tx in Index(chain)) && (tx in lookup ==> lookup[tx] == Index(chain)[tx])
      {
        assert EntryOf(lookup, tx) == EntryOf(Index(chain), tx);
      }
    }
  }

  /** If the ancestors of the block are there, no transaction is executed twice on the way to it. */
  ghost predicate Executable(store: Store, block: Block)
  {
    Whole(store, block) ==> ReplayFree(Chain(store, block))
  }

  /** The length of the common start of two chains. */
  ghost function Fork(a: seq<Block>, b: seq<Block>): (f: nat)
    ensures f <= |a| && f <= |b| && a[..f] == b[..f]
  {
    if a == [] || b == [] || a[0] != b[0] then 0 else 1 + Fork(a[1..], b[1..])
  }

  lemma {:induction false} ForkAt(c: seq<Block>, o: seq<Block>, n: seq<Block>)
    requires o != [] && n != [] ==> o[0] != n[0]
    ensures var a, b := c + o, c + n;
            Fork(a, b) == |c| && a[..|c|] == c && a[|c|..] == o && b[|c|..] == n
    decreases |c|
  {
    if c == [] {
      assert c + o == o && c + n == n;
    } else {
      ForkAt(c[1..], o, n);
      assert (c + o)[1..] == c[1..] + o && (c + n)[1..] == c[1..] + n;
    }
  }

  /** The hash of the lowest of the blocks that is not canonical, or else `head`. */
  function LowestMoved(canon: map<nat, Hash>, head: Hash, bs: seq<Block>): Hash
  {
    if bs == [] then head
    else if GetCanonicalHash(canon, bs[0].number) != Some(bs[0].hash) then bs[0].hash
    else LowestMoved(canon, head, bs[1..])
  }

  /** That is the last block exactly if the others are canonical, and it was not, or was the head already. */
  lemma {:induction false} LowestIsLast(canon: map<nat, Hash>, head: Hash, bs: seq<Block>)
    requires bs != [] && forall j, k :: 0 <= j < k < |bs| ==> bs[j].hash != bs[k].hash
    ensures var last := bs[|bs| - 1];
            LowestMoved(canon, head, bs) == last.hash
            <==> && (forall k :: 0 <= k < |bs| - 1 ==> GetCanonicalHash(canon, bs[k].number) == Some(bs[k].hash))
                 && (GetCanonicalHash(canon, last.number) != Some(last.hash) || head == last.hash)
    decreases |bs|
  {
    if |bs| > 1 && GetCanonicalHash(canon, bs[0].number) == Some(bs[0].hash) {
      LowestIsLast(canon, head, bs[1..]);
      assert forall k :: 0 < k < |bs| ==> bs[k] == bs[1..][k - 1];
    }
  }

  /**
   What becoming head does beside the number index, when the chain `a` gives way to `b`: the lookup index moves, and the
   heads of headers and of fast blocks go to the lowest block of the new branch that was not canonical.
   */
  ghost predicate Turned(a: seq<Block>, b: seq<Block>, canon: map<nat, Hash>, lookup: map<Tx, Entry>, header: Hash,
                         fast: Hash, lookup': map<Tx, Entry>, header': Hash, fast': Hash)
    requires b != []
  {
    var o, n, head := a[Fork(a, b)..], b[Fork(a, b)..], b[|b| - 1];
    && lookup' == AddTxs(Moved(lookup, Rev(o), Rev(n)), head, |head.txs|)
    && header' == LowestMoved(canon, header, n) && fast' == LowestMoved(canon, fast, n)
  }

  /**
   After a reorganisation the head of headers is the lowest block of the new branch, so it is the head only if that is
   all.
   */
  lemma HeaderLags(a: seq<Block>, b: seq<Block>, canon: map<nat, Hash>, lookup: map<Tx, Entry>, header: Hash,
                   fast: Hash, lookup': map<Tx, Entry>, header': Hash, fast': Hash)
    requires b != [] && Turned(a, b, canon, lookup, header, fast, lookup', header', fast') && Canonical(canon, a)
    requires var f := Fork(a, b); f < |a| && f < |b| && a[f].hash != b[f].hash && b[f].number == f
    requires forall j, k :: 0 <= j < k < |b| ==> b[j].hash != b[k].hash
    ensures header' == b[Fork(a, b)].hash && (header' == b[|b| - 1].hash <==> Fork(a, b) == |b| - 1)
  {
    var f := Fork(a, b);
    assert GetCanonicalHash(canon, f) == Some(a[f].hash);
    assert b[f..][0] == b[f];
  }

  /** Nothing is replayed that would put the lookup index out of step when the chain `a` gives way to `b`. */
  ghost predicate CleanTurn(a: seq<Block>, b: seq<Block>)
    requires b != []
  {
    var f := Fork(a, b);
    Clean(a[..f], a[f..], b[f..], b[|b| - 1])
  }

  /** Then and only then a lookup index that was the scan of `a` becomes the scan of `b`. */
  lemma TurnedScan(a: seq<Block>, b: seq<Block>, canon: map<nat, Hash>, lookup: map<Tx, Entry>, header: Hash,
                   fast: Hash, lookup': map<Tx, Entry>, header': Hash, fast': Hash)
    requires b != [] && Turned(a, b, canon, lookup, header, fast, lookup', header', fast') == true
    requires IsScan(lookup, a) == true && Ascending(b)
    ensures IsScan(lookup', b) == CleanTurn(a, b)
  {
    var f := Fork(a, b);
    var c, o, n := a[..f], a[f..], b[f..];
    TurnedParts(a, b, canon, lookup, header, fast, lookup', header', fast', c, o, n);
    ScanIsIndex(lookup, a);
    ScanIsIndex(lookup', b);
    TurnedLookup(c, o, n, b, lookup, lookup');
  }

  lemma TurnedParts(a: seq<Block>, b: seq<Block>, canon: map<nat, Hash>, lookup: map<Tx, Entry>, header: Hash,
                    fast: Hash, lookup': map<Tx, Entry>, header': Hash, fast': Hash, c: seq<Block>, o: seq<Block>,
                    n: seq<Block>)
    requires b != [] && Turned(a, b, canon, lookup, header, fast, lookup', header', fast')
    requires var f := Fork(a, b); c == a[..f] && o == a[f..] && n == b[f..]
    ensures a == c + o && b == c + n && CleanTurn(a, b) == Clean(c, o, n, b[|b| - 1])
    ensures lookup' == AddTxs(Moved(lookup, Rev(o), Rev(n)), b[|b| - 1], |b[|b| - 1].txs|)
  {
  }

  lemma TurnedLookup(c: seq<Block>, o: seq<Block>, n: seq<Block>, b: seq<Block>, lookup: map<Tx, Entry>,
                     lookup': map<Tx, Entry>)
    requires b == c + n && b != [] && Ascending(b) && lookup == Index(c + o)
    requires lookup' == AddTxs(Moved(lookup, Rev(o), Rev(n)), b[|b| - 1], |b[|b| - 1].txs|)
    ensures (lookup' == Index(b)) == Clean(c, o, n, b[|b| - 1])
  {
    TurnedIndex(c, o, n, b, lookup');
  }

  lemma TurnedIndex(c: seq<Block>, o: seq<Block>, n: seq<Block>, b: seq<Block>, lookup': map<Tx, Entry>)
    requires b == c + n && b != [] && Ascending(b)
    requires lookup' == AddTxs(Moved(Index(c + o), Rev(o), Rev(n)), b[|b| - 1], |b[|b| - 1].txs|)
    ensures (lookup' == Index(b)) == Clean(c, o, n, b[|b| - 1])
  {
    forall j, k | 0 <= j < k < |n| ensures n[j].number < n[k].number {
      assert n[j] == b[|c| + j] && n[k] == b[|c| + k];
    }
    HeadMoves(c, o, n);
  }

  lemma ReplayFreeTurn(a: seq<Block>, b: seq<Block>)
    requires b != [] && ReplayFree(a) && ReplayFree(b)
    ensures CleanTurn(a, b)
  {
    var f := Fork(a, b);
    assert a == a[..f] + a[f..] && b == a[..f] + b[f..];
    ReplayFreeClean(a[..f], a[f..], b[f..], b[|b| - 1]);
  }

  function Front(chain: seq<Block>): seq<Block>
    requires chain != []
  {
    chain[..|chain| - 1]
  }

  /** A number index of a chain becomes that of its extension by one block. */
  lemma CanonicalNext(canon: map<nat, Hash>, c: seq<Block>)
    requires c != [] && (Canonical(canon, Front(c)) || Canonical(canon, c)) && c[|c| - 1].number == |c| - 1
    ensures var b := c[|c| - 1];
            Canonical(canon[b.number := b.hash], c)
  {
    var b := c[|c| - 1];
    forall k: nat | k < |c| ensures GetCanonicalHash(canon[b.number := b.hash], k) == Some(c[k].hash) {
      if k < |c| - 1 {
        if Canonical(canon, Front(c)) {
          assert GetCanonicalHash(canon, k) == Some(Front(c)[k].hash);
        } else {
          assert GetCanonicalHash(canon, k) == Some(c[k].hash);
        }
      }
    }
  }

  lemma HeadedNow(genesis: Block, store: Store, head: Block, canon: map<nat, Hash>, c: seq<Block>)
    requires Sound(store) && Stored(store, head) && Whole(store, head) && Chain(store, head) == c && c[0] == genesis
    requires Canonical(canon, c)
    ensures Headed(genesis, store, head, canon) == true
  {
  }

  lemma Numbering(store: Store, b: Block, c: seq<Block>)
    requires Whole(store, b) && Chain(store, b) == c
    ensures c != [] && c[|c| - 1] == b && forall k :: 0 <= k < |c| ==> c[k].number == k
  {
    forall k | 0 <= k < |c| ensures c[k].number == k {
      ChainNumbers(store, b, k);
    }
  }

  lemma ChainAscending(store: Store, b: Block)
    requires Whole(store, b)
    ensures Ascending(Chain(store, b))
  {
    forall j, k | 0 <= j < k < |Chain(store, b)| ensures Chain(store, b)[j].number < Chain(store, b)[k].number {
      ChainNumbers(store, b, j);
      ChainNumbers(store, b, k);
    }
  }

  /** The stored chain of the head is whole, starts at genesis, and the number index is its own. */
  ghost predicate Headed(genesis: Block, store: Store, head: Block, canon: map<nat, Hash>)
  {
    && Sound(store) && Stored(store, head) && Whole(store, head)
    && Chain(store, head)[0] == genesis && Canonical(canon, Chain(store, head))
  }

  /** Storing a block leaves the head and its index alone. */
  lemma HeadedKept(genesis: Block, store: Store, head: Block, canon: map<nat, Hash>, b: Block)
    requires Headed(genesis, store, head, canon) && Identified(store, b)
    ensures Headed(genesis, store[b.hash := b], head, canon) && Chain(store[b.hash := b], head) == Chain(store, head)
  {
    ChainKept(store, b, head);
  }

  /** A total difficulty is kept under hash and number. */
  datatype Weight = Weight(number: nat, total: nat)

  type Difficulties = map<Hash, Weight>

  function GetTd(td: Difficulties, hash: Hash, number: nat): Option<nat>
  {
    if hash in td && td[hash].number == number then Some(td[hash].total) else None
  }

  /** The recorded total difficulty of a block is its parent's plus its own. */
  ghost predicate Summed(td: Difficulties, genesis: Block, b: Block)
  {
    && b.hash in td && td[b.hash].number == b.number
    && (if b == genesis then td[b.hash].total == b.difficulty
        else && b.number > 0 && b.parent in td && td[b.parent].number == b.number - 1
             && td[b.hash].total == b.difficulty + td[b.parent].total)
  }

  /** The difficulties of the blocks added up. */
  ghost function Sum(bs: seq<Block>): nat
  {
    if bs == [] then 0 else Sum(bs[..|bs| - 1]) + bs[|bs| - 1].difficulty
  }

  /** Total difficulties are recorded for the blocks in `seen` and no others, and they add up. */
  ghost predicate AddsUp(td: Difficulties, genesis: Block, seen: Store)
  {
    && Sound(seen) && td.Keys == seen.Keys
    && forall h {:trigger Summed(td, genesis, seen[h])} :: h in seen ==> Summed(td, genesis, seen[h])
  }

  /** A recorded total difficulty is the sum over the whole chain of its block, back to genesis. */
  lemma {:induction false} TdIsSum(td: Difficulties, genesis: Block, seen: Store, b: Block)
    requires AddsUp(td, genesis, seen) && genesis.number == 0 && Stored(seen, b)
    ensures Joins(genesis, seen, b) && td[b.hash] == Weight(b.number, Sum(Chain(seen, b)))
    decreases b.number
  {
    assert Summed(td, genesis, seen[b.hash]);
    if b != genesis {
      var p := seen[b.parent];
      assert Summed(td, genesis, seen[b.parent]);
      TdIsSum(td, genesis, seen, p);
      assert Chain(seen, b)[..|Chain(seen, b)| - 1] == Chain(seen, p);
    }
  }

  /** No stored block is heavier than `head`. */
  ghost predicate Heaviest(td: Difficulties, store: Store, head: Block)
  {
    && head.hash in td
    && forall h :: h in store ==> h in td && td[h].total <= td[head.hash].total
  }

  ghost predicate Part(store: Store, seen: Store)
  {
    forall h :: h in store ==> h in seen && seen[h] == store[h]
  }

  /** Recording one more block leaves all other records alone. */
  lemma Record(td: Difficulties, genesis: Block, seen: Store, b: Block)
    requires AddsUp(td, genesis, seen) && Identified(seen, b) && b != genesis
    requires b.number > 0 && b.parent in td && td[b.parent].number == b.number - 1
    ensures var td' := td[b.hash := Weight(b.number, b.difficulty + td[b.parent].total)];
            && AddsUp(td', genesis, seen[b.hash := b])
            && (forall h :: h in td ==> td'[h] == td[h])
  {
    var td' := td[b.hash := Weight(b.number, b.difficulty + td[b.parent].total)];
    var seen' := seen[b.hash := b];
    if b.hash in seen { assert Summed(td, genesis, seen[b.hash]); }
    forall h | h in seen' ensures Summed(td', genesis, seen'[h]) {
      if h in seen { assert Summed(td, genesis, seen[h]); }
    }
  }

  /** The parent's total difficulty is known. */
  predicate Attached(td: Difficulties, b: Block)
  {
    b.number > 0 && b.parent in td && td[b.parent].number == b.number - 1
  }

  lemma AttachedTd(td: Difficulties, b: Block, ptd: Option<nat>)
    requires ptd == if b.number == 0 then None else GetTd(td, b.parent, b.number - 1)
    ensures ptd.Some? <==> Attached(td, b)
    ensures ptd.Some? ==> ptd.value == td[b.parent].total
  {
  }

  /** The stored chain of the block reaches genesis. */
  ghost predicate Joins(genesis: Block, store: Store, b: Block)
  {
    Whole(store, b) && Chain(store, b)[0] == genesis
  }

  /** Fork choice: more difficulty, then the lower number, then the coin. */
  predicate Better(b: Block, total: nat, head: Block, local: nat, coin: bool)
  {
    total > local || (total == local && (b.number < head.number || (b.number == head.number && coin)))
  }

  /** The recorded difficulties add up over everything seen, and the head is the heaviest stored block. */
  ghost predicate Ledger(genesis: Block, td: Difficulties, seen: Store, store: Store, head: Block)
  {
    && AddsUp(td, genesis, seen) && Part(store, seen) && genesis.number == 0 && Stored(seen, genesis)
    && Heaviest(td, store, head)
  }

  /** Recording a block keeps the ledger; once stored, the heavier of it and the head is the heaviest. */
  lemma Weigh(genesis: Block, td: Difficulties, seen: Store, store: Store, head: Block, b: Block)
    requires Ledger(genesis, td, seen, store, head) && Stored(store, head) && Identified(seen, b) && Attached(td, b)
    ensures var total := b.difficulty + td[b.parent].total;
            var td', seen', store' := td[b.hash := Weight(b.number, total)], seen[b.hash := b], store[b.hash := b];
            && Identified(store, b) && td[head.hash].number == head.number
            && (forall h :: h in td ==> td'[h] == td[h])
            && Ledger(genesis, td', seen', store, head)
            && (total >= td[head.hash].total ==> Ledger(genesis, td', seen', store', b))
            && (total <= td[head.hash].total ==> Ledger(genesis, td', seen', store', head))
  {
    Record(td, genesis, seen, b);
    assert Summed(td, genesis, seen[head.hash]);
    if b.hash in seen { assert Summed(td, genesis, seen[b.hash]); }
  }

  /** A block of the branch is put in while its number still has its old entry. */
  lemma NotYet(canon: map<nat, Hash>, newChain: seq<Block>, i: nat)
    requires i < |newChain| && Ascending(Rev(newChain))
    ensures var now, b := Numbered(canon, newChain[..i]), newChain[i];
            (b.number in now <==> b.number in canon) && (b.number in canon ==> now[b.number] == canon[b.number])
  {
    var r := Rev(newChain);
    forall k | 0 <= k < i ensures newChain[..i][k].number != newChain[i].number {
      assert r[|r| - 1 - i].number < r[|r| - 1 - k].number;
    }
    NumberedOther(canon, newChain[..i], newChain[i].number);
  }

  /** The two chains of a reorganisation, oldest block first. */
  lemma PartedChains(store: Store, common: Block, oldBlock: Block, newBlock: Block, oldChain: seq<Block>,
                     newChain: seq<Block>)
    returns (c: seq<Block>, o: seq<Block>, n: seq<Block>)
    requires Parted(store, common, common, oldBlock, newBlock, oldChain, newChain) && Whole(store, newBlock)
    ensures Chain(store, oldBlock) == c + o && Chain(store, newBlock) == c + n && (o != [] && n != [] ==> o[0] != n[0])
    ensures Rev(o) == oldChain && Rev(n) == newChain && Rev(newChain) == n && Ascending(n)
    ensures forall k :: 0 <= k < |c + n| ==> (c + n)[k].number == k
  {
    RevTwice(oldChain);
    RevTwice(newChain);
    c, o, n := Chain(store, common), Rev(oldChain), Rev(newChain);
    forall k | 0 <= k < |c + n| ensures (c + n)[k].number == k { ChainNumbers(store, newBlock, k); }
    forall k | 0 <= k < |n| ensures n[k].number == |c| + k { assert n[k] == (c + n)[|c| + k]; }
  }

  lemma RevLast(bs: seq<Block>, b: Block)
    ensures Rev(bs + [b]) == [b] + Rev(bs) && Rev(bs + [b])[1..] == Rev(bs)
  {
  }

  lemma TurnsByReorg(c: seq<Block>, o: seq<Block>, n: seq<Block>, canon: map<nat, Hash>, lookup: map<Tx, Entry>,
                     header: Hash, fast: Hash, canon1: map<nat, Hash>, lookup1: map<Tx, Entry>, header1: Hash,
                     fast1: Hash, lookup': map<Tx, Entry>, header': Hash, fast': Hash)
    requires c + n != [] && (o != [] && n != [] ==> o[0] != n[0]) && Canonical(canon1, c + n)
    requires forall k :: 0 <= k < |c + n| ==> (c + n)[k].number == k
    requires lookup1 == Moved(lookup, Rev(o), Rev(n))
    requires header1 == LowestMoved(canon, header, n) && fast1 == LowestMoved(canon, fast, n)
    requires var head := (c + n)[|c + n| - 1];
             && lookup' == AddTxs(lookup1, head, |head.txs|)
             && header' == LowestMoved(canon1, header1, [head]) && fast' == LowestMoved(canon1, fast1, [head])
    ensures Turned(c + o, c + n, canon, lookup, header, fast, lookup', header', fast') == true
  {
    ForkAt(c, o, n);
    var head := (c + n)[|c + n| - 1];
    assert GetCanonicalHash(canon1, |c + n| - 1) == Some(head.hash);
    assert [head][1..] == [];
  }

  lemma TurnsByOne(a: seq<Block>, block: Block, canon: map<nat, Hash>, lookup: map<Tx, Entry>, header: Hash, fast: Hash,
                   lookup': map<Tx, Entry>, header': Hash, fast': Hash)
    requires lookup' == AddTxs(lookup, block, |block.txs|)
    requires header' == LowestMoved(canon, header, [block]) && fast' == LowestMoved(canon, fast, [block])
    ensures Turned(a, a + [block], canon, lookup, header, fast, lookup', header', fast') == true
  {
    ForkAt(a, [], [block]);
    assert a + [] == a;
    assert Rev([]) == [] && Rev([block]) == [block] && [block][..0] == [];
    assert TxsOf([]) == [];
    var once := AddAll(lookup, [block]);
    assert once == AddTxs(AddAll(lookup, []), block, |block.txs|);
    assert (set tx | tx in TxsOf([]) && tx !in TxsOf([block])) == {};
    assert Moved(lookup, [], [block]) == once;
    AddTxsTwice(lookup, block);
  }

  class BlockChain {
    const genesis: Block
    var store: Store
    var td: Difficulties
    var canon: map<nat, Hash>
    var lookup: map<Tx, Entry>
    var current: Block
    var headHeader: Hash
    var fastBlock: Hash

    /** The blocks whose total difficulty has been recorded. */
    ghost var seen: Store

    ghost predicate Valid()
      reads this
    {
      && Headed(genesis, store, current, canon)
      && Ledger(genesis, td, seen, store, current)
    }

    /** The lookup index is the plain scan of the head's chain. */
    ghost predicate Scanned()
      reads this
    {
      IsScan(lookup, Chain(store, current))
    }

    constructor (genesis: Block)
      requires genesis.number == 0 && genesis.txs == []
      ensures Valid() && Scanned() && this.genesis == genesis && store == map[genesis.hash := genesis]
      ensures seen == store && current == genesis && headHeader == fastBlock == genesis.hash
    {
      this.genesis := genesis;
      store := map[genesis.hash := genesis];
      seen := map[genesis.hash := genesis];
      td := map[genesis.hash := Weight(0, genesis.difficulty)];
      canon := map[0 := genesis.hash];
      lookup := map[];
      current := genesis;
      headHeader, fastBlock := genesis.hash, genesis.hash;
      EmptyIndex(genesis);
      ScanIsIndex(map[], [genesis]);
    }

    /** Put a block at the head of the canonical index; force the other heads onto it if it was not there. */
    method Insert(block: Block)
      modifies this`canon, this`current, this`headHeader, this`fastBlock
      ensures canon == old(canon)[block.number := block.hash] && current == block
      ensures var was := block.number in old(canon) && old(canon)[block.number] == block.hash;
              headHeader == (if was then old(headHeader) else block.hash)
              && fastBlock == (if was then old(fastBlock) else block.hash)
    {
      var updateHeads := block.number !in canon || canon[block.number] != block.hash;
      canon := canon[block.number := block.hash];
      current := block;
      if updateHeads {
        headHeader := block.hash;
        fastBlock := block.hash;
      }
    }

    /** Write the position of every transaction of a block. */
    method WriteTxLookupEntries(block: Block)
      modifies this`lookup
      ensures lookup == AddTxs(old(lookup), block, |block.txs|)
    {
      for i := 0 to |block.txs|
        invariant lookup == AddTxs(old(lookup), block, i)
      {
        lookup := lookup[block.txs[i] := Entry(block.hash, block.number, i)];
      }
    }

    /** The second half of `reorg`: put the new branch in, newest block first, and take the old one out. */
    method Rewrite(oldChain: seq<Block>, newChain: seq<Block>)
      requires Ascending(Rev(newChain))
      modifies this`canon, this`current, this`headHeader, this`fastBlock, this`lookup
      ensures lookup == Moved(old(lookup), oldChain, newChain)
      ensures canon == Numbered(old(canon), newChain)
      ensures headHeader == LowestMoved(old(canon), old(headHeader), Rev(newChain))
      ensures fastBlock == LowestMoved(old(canon), old(fastBlock), Rev(newChain))
      ensures current == if newChain == [] then old(current) else newChain[|newChain| - 1]
    {
      for i := 0 to |newChain|
        invariant lookup == AddAll(old(lookup), newChain[..i])
        invariant canon == Numbered(old(canon), newChain[..i])
        invariant headHeader == LowestMoved(old(canon), old(headHeader), Rev(newChain[..i]))
        invariant fastBlock == LowestMoved(old(canon), old(fastBlock), Rev(newChain[..i]))
        invariant current == if i == 0 then old(current) else newChain[i - 1]
      {
        assert newChain[..i + 1][..i] == newChain[..i];
        NotYet(old(canon), newChain, i);
        RevLast(newChain[..i], newChain[i]);
        assert newChain[..i + 1] == newChain[..i] + [newChain[i]];
        Insert(newChain[i]);
        WriteTxLookupEntries(newChain[i]);
      }
      assert newChain[..|newChain|] == newChain;
      var deletedTxs, addedTxs := TxsOf(oldChain), TxsOf(newChain);
      DeleteTxLookups(deletedTxs, addedTxs);
    }

    /** Delete the entries of the deleted transactions that were not added again. */
    method DeleteTxLookups(deletedTxs: seq<Tx>, addedTxs: seq<Tx>)
      modifies this`lookup
      ensures lookup == old(lookup) - set tx | tx in deletedTxs && tx !in addedTxs
    {
      for i := 0 to |deletedTxs|
        invariant lookup == old(lookup) - set tx | tx in deletedTxs[..i] && tx !in addedTxs
      {
        if deletedTxs[i] !in addedTxs {
          lookup := lookup - {deletedTxs[i]};
        }
        assert deletedTxs[..i + 1] == deletedTxs[..i] + [deletedTxs[i]];
      }
      assert deletedTxs[..|deletedTxs|] == deletedTxs;
    }

    /** `reorg`: move the indexes from the chain of the head to the chain of `block`, if the two meet. */
    method Reorg(block: Block) returns (ok: bool, ghost c: seq<Block>, ghost o: seq<Block>, ghost n: seq<Block>)
      requires Sound(store) && Stored(store, current) && Identified(store, block) && Whole(store, current)
      requires Canonical(canon, Chain(store, current))
      modifies this`canon, this`current, this`headHeader, this`fastBlock, this`lookup
      ensures ok <==> Whole(store, block) && Chain(store, block)[0] == old(Chain(store, current)[0])
      ensures !ok ==> current == old(current) && canon == old(canon) && lookup == old(lookup)
                      && headHeader == old(headHeader) && fastBlock == old(fastBlock)
      ensures ok ==>
                old(Chain(store, current)) == c + o && Chain(store, block) == c + n
                && (o != [] && n != [] ==> o[0] != n[0])
      ensures ok ==> Canonical(canon, Chain(store, block)) && lookup == Moved(old(lookup), Rev(o), Rev(n))
                     && headHeader == LowestMoved(old(canon), old(headHeader), n)
                     && fastBlock == LowestMoved(old(canon), old(fastBlock), n)
    {
      c, o, n := [], [], [];
      var common, oldChain, newChain;
      ok, common, oldChain, newChain := Split(store, current, block);
      if ok {
        c, o, n := PartedChains(store, common, current, block, oldChain, newChain);
        NumbersMove(canon, c, o, n);
        Rewrite(oldChain, newChain);
      }
    }

    /** Make `block` the head, once the number index is that of its parent's chain or its own. */
    method Adopt(block: Block)
      requires Sound(store) && Identified(store, block) && Whole(store, block)
      requires Canonical(canon, Chain(store, block)) || Canonical(canon, Front(Chain(store, block)))
      modifies this`canon, this`current, this`headHeader, this`fastBlock, this`lookup, this`store
      ensures store == old(store)[block.hash := block] && current == block
      ensures Whole(store, block) && Chain(store, block) == old(Chain(store, block))
      ensures Canonical(canon, Chain(store, block)) && lookup == AddTxs(old(lookup), block, |block.txs|)
      ensures headHeader == LowestMoved(old(canon), old(headHeader), [block])
      ensures fastBlock == LowestMoved(old(canon), old(fastBlock), [block])
    {
      ChainNumbers(store, block, block.number);
      CanonicalNext(canon, Chain(store, block));
      ChainKept(store, block, block);
      WriteTxLookupEntries(block);
      store := store[block.hash := block];
      Insert(block);
    }

    /** Move the indexes to the chain of `block` and make it the head, unless its chain does not meet the head's. */
    method BecomeHead(block: Block) returns (ok: bool)
      requires Headed(genesis, store, current, canon) == true && Identified(store, block)
      requires block.parent == current.hash ==> block.number == current.number + 1
      modifies this`canon, this`current, this`headHeader, this`fastBlock, this`lookup, this`store
      ensures Headed(genesis, store, current, canon) == true
      ensures ok ==> current == block && store == old(store)[block.hash := block]
                     && Chain(store, block) == old(Chain(store, block))
                     && Turned(old(Chain(store, current)), old(Chain(store, block)), old(canon), old(lookup),
                               old(headHeader), old(fastBlock), lookup, headHeader, fastBlock) == true
      ensures !ok ==> current == old(current) && canon == old(canon) && lookup == old(lookup) && store == old(store)
                      && headHeader == old(headHeader) && fastBlock == old(fastBlock)
      ensures ok <==> old(Joins(genesis, store, block))
    {
      if block.parent != current.hash {
        ok := TurnTo(block);
      } else {
        Extend(block);
        ok := true;
      }
    }

    /** The block is on another branch than the head. */
    method TurnTo(block: Block) returns (ok: bool)
      requires Headed(genesis, store, current, canon) == true && Identified(store, block)
      modifies this`canon, this`current, this`headHeader, this`fastBlock, this`lookup, this`store
      ensures Headed(genesis, store, current, canon) == true
      ensures ok ==> current == block && store == old(store)[block.hash := block]
                     && Chain(store, block) == old(Chain(store, block))
                     && Turned(old(Chain(store, current)), old(Chain(store, block)), old(canon), old(lookup),
                               old(headHeader), old(fastBlock), lookup, headHeader, fastBlock) == true
      ensures !ok ==> current == old(current) && canon == old(canon) && lookup == old(lookup) && store == old(store)
                      && headHeader == old(headHeader) && fastBlock == old(fastBlock)
      ensures ok <==> old(Joins(genesis, store, block))
    {
      ghost var c: seq<Block>, o: seq<Block>, n: seq<Block>;
      ghost var canon0, lookup0, header0, fast0 := canon, lookup, headHeader, fastBlock;
      ok, c, o, n := Reorg(block);
      if ok {
        ghost var canon1, lookup1, header1, fast1 := canon, lookup, headHeader, fastBlock;
        Numbering(store, block, c + n);
        Adopt(block);
        HeadedNow(genesis, store, block, canon, c + n);
        TurnsByReorg(c, o, n, canon0, lookup0, header0, fast0, canon1, lookup1, header1, fast1, lookup, headHeader,
                     fastBlock);
      }
    }

    /** The block is the next after the head. */
    method Extend(block: Block)
      requires Headed(genesis, store, current, canon) == true && Identified(store, block)
      requires block.parent == current.hash && block.number == current.number + 1
      modifies this`canon, this`current, this`headHeader, this`fastBlock, this`lookup, this`store
      ensures Headed(genesis, store, current, canon) == true && old(Joins(genesis, store, block))
      ensures current == block && store == old(store)[block.hash := block]
      ensures Chain(store, block) == old(Chain(store, block))
      ensures Turned(old(Chain(store, current)), old(Chain(store, block)), old(canon), old(lookup), old(headHeader),
                     old(fastBlock), lookup, headHeader, fastBlock) == true
    {
      ghost var a, canon0, lookup0, header0, fast0 := Chain(store, current), canon, lookup, headHeader, fastBlock;
      assert GetParent(store, block) == Some(current);
      assert Chain(store, block) == a + [block] && Front(a + [block]) == a;
      Adopt(block);
      TurnsByOne(a, block, canon0, lookup0, header0, fast0, lookup, headHeader, fastBlock);
    }

    /**
     WriteBlockAndState: record the block's total difficulty and the block; if that makes its chain the
     heaviest, move the indexes onto it and make it the head.
     */
    method WriteBlockAndState(block: Block, coin: bool) returns (status: WriteStatus)
      requires Valid() && Identified(seen, block)
      modifies this
      ensures Valid() == true
      ensures status.NonStat? ==> !Attached(old(td), block) || !old(Joins(genesis, store, block))
      ensures !Attached(old(td), block) ==> status.NonStat?
      ensures Attached(old(td), block) ==>
                var better := Better(block, block.difficulty + old(td)[block.parent].total,
                                     old(current), old(td)[old(current).hash].total, coin);
                && (status.CanonStat? <==> better && old(Joins(genesis, store, block)))
                && (status.SideStat? <==> !better)
      ensures status.CanonStat? ==> current == block && Chain(store, block) == old(Chain(store, block))
                                    && Turned(old(Chain(store, current)), old(Chain(store, block)), old(canon),
                                              old(lookup), old(headHeader), old(fastBlock), lookup, headHeader,
                                              fastBlock) == true
      ensures !status.CanonStat? ==> current == old(current) && canon == old(canon) && lookup == old(lookup)
                                     && headHeader == old(headHeader) && fastBlock == old(fastBlock)
                                     && Chain(store, current) == old(Chain(store, current))
      ensures store == if status.NonStat? then old(store) else old(store)[block.hash := block]
      ensures !Attached(old(td), block) ==> td == old(td) && seen == old(seen)
      ensures Attached(old(td), block) ==>
                && td == old(td)[block.hash := Weight(block.number, block.difficulty + old(td)[block.parent].total)]
                && seen == old(seen)[block.hash := block]
      ensures td[current.hash].total >= old(td)[old(current).hash].total
      ensures old(Scanned()) ==>
                Scanned() == (status.CanonStat? ==> CleanTurn(old(Chain(store, current)), old(Chain(store, block))))
    {
      var ptd := if block.number == 0 then None else GetTd(td, block.parent, block.number - 1);
      AttachedTd(td, block, ptd);
      if ptd.None? {
        return NonStat;
      }
      var externTd := block.difficulty + ptd.value;
      status := WriteAttached(block, externTd, coin);
    }

    /** The same for a block whose parent's total difficulty is known. */
    method WriteAttached(block: Block, externTd: nat, coin: bool) returns (status: WriteStatus)
      requires Valid() && Identified(seen, block) && Attached(td, block)
      requires externTd == block.difficulty + td[block.parent].total
      modifies this
      ensures Valid() == true
      ensures var better := Better(block, externTd, old(current), old(td)[old(current).hash].total, coin);
              (status.CanonStat? <==> better && old(Joins(genesis, store, block))) && (status.SideStat? <==> !better)
      ensures status.CanonStat? ==> current == block && Chain(store, block) == old(Chain(store, block))
                                    && Turned(old(Chain(store, current)), old(Chain(store, block)), old(canon),
                                              old(lookup), old(headHeader), old(fastBlock), lookup, headHeader,
                                              fastBlock) == true
      ensures !status.CanonStat? ==> current == old(current) && canon == old(canon) && lookup == old(lookup)
                                     && headHeader == old(headHeader) && fastBlock == old(fastBlock)
                                     && Chain(store, current) == old(Chain(store, current))
      ensures store == if status.NonStat? then old(store) else old(store)[block.hash := block]
      ensures td == old(td)[block.hash := Weight(block.number, externTd)] && seen == old(seen)[block.hash := block]
      ensures td[current.hash].total >= old(td)[old(current).hash].total
      ensures old(Scanned()) ==>
                Scanned() == (status.CanonStat? ==> CleanTurn(old(Chain(store, current)), old(Chain(store, block))))
    {
      ghost var a, b, canon0, lookup0, header0, fast0
        := Chain(store, current), Chain(store, block), canon, lookup, headHeader, fastBlock;
      var localTd := td[current.hash].total;
      WriteTd(block, externTd);
      status := Choose(block, externTd, localTd, coin);
      if status.CanonStat? && IsScan(lookup0, a) {
        ChainAscending(store, block);
        TurnedScan(a, b, canon0, lookup0, header0, fast0, lookup, headHeader, fastBlock);
      }
    }

    method WriteTd(block: Block, total: nat)
      requires Ledger(genesis, td, seen, store, current) && Stored(store, current) && Identified(seen, block)
      requires Attached(td, block) && total == block.difficulty + td[block.parent].total
      modifies this`td, this`seen
      ensures td == old(td)[block.hash := Weight(block.number, total)] && seen == old(seen)[block.hash := block]
      ensures Identified(store, block) && old(td)[current.hash].number == current.number
      ensures current.hash in td && td[current.hash] == old(td)[current.hash]
      ensures Ledger(genesis, td, seen, store, current) == true
      ensures total >= td[current.hash].total ==> Ledger(genesis, td, seen, store[block.hash := block], block) == true
      ensures total <= td[current.hash].total ==> Ledger(genesis, td, seen, store[block.hash := block], current) == true
    {
      Weigh(genesis, td, seen, store, current, block);
      td := td[block.hash := Weight(block.number, total)];
      seen := seen[block.hash := block];
    }

    /** Fork choice for a block whose total difficulty has been recorded. */
    method Choose(block: Block, externTd: nat, localTd: nat, coin: bool) returns (status: WriteStatus)
      requires Headed(genesis, store, current, canon) == true && Identified(store, block)
      requires block.parent == current.hash ==> block.number == current.number + 1
      requires Ledger(genesis, td, seen, store, current) == true
      requires externTd >= localTd ==> Ledger(genesis, td, seen, store[block.hash := block], block) == true
      requires externTd <= localTd ==> Ledger(genesis, td, seen, store[block.hash := block], current) == true
      modifies this`canon, this`current, this`headHeader, this`fastBlock, this`lookup, this`store
      ensures Valid() == true
      ensures status.CanonStat? <==>
                Better(block, externTd, old(current), localTd, coin) && old(Joins(genesis, store, block))
      ensures status.SideStat? <==> !Better(block, externTd, old(current), localTd, coin)
      ensures status.CanonStat? ==> current == block && Chain(store, block) == old(Chain(store, block))
                                    && Turned(old(Chain(store, current)), old(Chain(store, block)), old(canon),
                                              old(lookup), old(headHeader), old(fastBlock), lookup, headHeader,
                                              fastBlock) == true
      ensures !status.CanonStat? ==> current == old(current) && canon == old(canon) && lookup == old(lookup)
                                     && headHeader == old(headHeader) && fastBlock == old(fastBlock)
                                     && Chain(store, current) == old(Chain(store, current))
      ensures store == if status.NonStat? then old(store) else old(store)[block.hash := block]
    {
      var better := externTd > localTd;
      if !better && externTd == localTd {
        better := block.number < current.number || (block.number == current.number && coin);
      }
      if better {
        var ok := BecomeHead(block);
        if !ok {
          return NonStat;
        }
        status := CanonStat;
      } else {
        SetAside(block);
        status := SideStat;
      }
    }

    /** A block that does not become the head is stored. */
    method SetAside(block: Block)
      requires Headed(genesis, store, current, canon) == true && Identified(store, block)
      modifies this`store
      ensures store == old(store)[block.hash := block] && Headed(genesis, store, current, canon) == true
      ensures Chain(store, current) == old(Chain(store, current))
    {
      HeadedKept(genesis, store, current, canon, block);
      store := store[block.hash := block];
    }
  }

  // ---------------------------------------------------------------- whole runs

  lemma {:induction false} ChainWithin(store: Store, world: Store, b: Block)
    requires Part(store, world) && Whole(store, b)
    ensures Chain(world, b) == Chain(store, b)
    decreases b.number
  {
    if b.number > 0 {
      WholeParent(store, b);
      ChainWithin(store, world, GetParent(store, b).value);
    }
  }

  /** In the world, hashes identify blocks and no chain executes a transaction twice. */
  ghost predicate World(world: Store)
  {
    forall h :: h in world ==> Executable(world, world[h])
  }

  lemma WorldExecutable(store: Store, world: Store, b: Block)
    requires World(world) && Part(store, world) && Stored(world, b)
    ensures Executable(store, b)
  {
    if Whole(store, b) { ChainWithin(store, world, b); }
  }

  /** The blocks with and without a difficulty, and the head. */
  datatype Snap = Snap(store: Store, td: Difficulties, seen: Store, head: Block)

  ghost function Now(bc: BlockChain): Snap
    reads bc
  {
    Snap(bc.store, bc.td, bc.seen, bc.current)
  }

  /**
   One more block: without its parent's difficulty it is ignored; it becomes the head if it is better and its chain
   joins genesis; if it is better but does not join, only its difficulty is recorded.
   */
  ghost function Written(genesis: Block, x: Snap, block: Block, coin: bool): Snap {
    if !Attached(x.td, block) || x.head.hash !in x.td then x
    else
      var total := block.difficulty + x.td[block.parent].total;
      var y := x.(td := x.td[block.hash := Weight(block.number, total)], seen := x.seen[block.hash := block]);
      if !Better(block, total, x.head, x.td[x.head.hash].total, coin) then y.(store := x.store[block.hash := block])
      else if Joins(genesis, x.store, block) then y.(store := x.store[block.hash := block], head := block)
      else y
  }

  ghost function WrittenAll(genesis: Block, x: Snap, blocks: seq<Block>, coins: seq<bool>): Snap
    requires |coins| == |blocks|
  {
    if blocks == [] then x
    else
      var n := |blocks| - 1;
      Written(genesis, WrittenAll(genesis, x, blocks[..n], coins[..n]), blocks[n], coins[n])
  }

  lemma IsWritten(genesis: Block, x: Snap, y: Snap, block: Block, coin: bool, status: WriteStatus, joins: bool)
    requires x.head.hash in x.td && joins == Joins(genesis, x.store, block)
    requires !Attached(x.td, block) ==> y == x
    requires Attached(x.td, block) ==>
               var total := block.difficulty + x.td[block.parent].total;
               var better := Better(block, total, x.head, x.td[x.head.hash].total, coin);
               && (status.CanonStat? <==> better && joins) && (status.SideStat? <==> !better)
               && y.td == x.td[block.hash := Weight(block.number, total)] && y.seen == x.seen[block.hash := block]
               && y.store == (if status.NonStat? then x.store else x.store[block.hash := block])
               && y.head == if status.CanonStat? then block else x.head
    ensures y == Written(genesis, x, block, coin)
  {
  }

  /** Of the heaviest blocks that are stored, the head is one with the lowest number. */
  ghost predicate Lowest(x: Snap) {
    forall h :: h in x.store && h in x.td && x.head.hash in x.td && x.td[h].total == x.td[x.head.hash].total ==>
      x.store[h].number >= x.head.number
  }

  /** On a tie the head goes to the lower number, so it stays among the heaviest one with the lowest number. */
  lemma LowestKept(genesis: Block, x: Snap, block: Block, coin: bool)
    requires Ledger(genesis, x.td, x.seen, x.store, x.head) && Stored(x.store, x.head) && Identified(x.seen, block)
    requires Lowest(x)
    ensures Lowest(Written(genesis, x, block, coin))
  {
    if Attached(x.td, block) {
      Weigh(genesis, x.td, x.seen, x.store, x.head, block);
    }
  }

  lemma LowestNext(bc: BlockChain, x: Snap, block: Block, coin: bool)
    requires bc.Valid() && Identified(bc.seen, block) && x == Now(bc)
    ensures Lowest(x) ==> Lowest(Written(bc.genesis, x, block, coin)) == true
  {
    if Lowest(x) {
      LowestKept(bc.genesis, x, block, coin);
    }
  }

  /** In a world in which no chain executes a transaction twice, every turn is clean. */
  lemma CleanNext(bc: BlockChain, block: Block, world: Store)
    requires bc.Valid() && Part(bc.seen, world) && Stored(world, block)
    ensures Identified(bc.seen, block)
    ensures World(world) && Joins(bc.genesis, bc.store, block) ==>
              CleanTurn(Chain(bc.store, bc.current), Chain(bc.store, block)) == true
  {
    if World(world) && Whole(bc.store, block) {
      WorldExecutable(bc.store, world, block);
      WorldExecutable(bc.store, world, bc.current);
      ReplayFreeTurn(Chain(bc.store, bc.current), Chain(bc.store, block));
    }
  }

  /** One block of a run, in which no chain of the world executes a transaction twice, or some does. */
  method WriteNext(bc: BlockChain, block: Block, coin: bool, ghost world: Store)
    requires bc.Valid() == true && Part(bc.seen, world) && Stored(world, block)
    modifies bc
    ensures bc.Valid() == true && Part(bc.seen, world) && bc.current.hash in bc.td && old(bc.current).hash in old(bc.td)
    ensures bc.td[bc.current.hash].total >= old(bc.td)[old(bc.current).hash].total
    ensures Now(bc) == Written(bc.genesis, old(Now(bc)), block, coin)
    ensures old(bc.Scanned()) && World(world) ==> bc.Scanned() == true
  {
    ghost var x := Now(bc);
    ghost var joins := Joins(bc.genesis, bc.store, block);
    CleanNext(bc, block, world);
    var status := bc.WriteBlockAndState(block, coin);
    IsWritten(bc.genesis, x, Now(bc), block, coin, status, joins);
  }

  /**
   Any run of block writes, with any coins: the head is always the heaviest block stored, the number index is always
   that of a walk from it back to genesis, and its weight never drops.  The lookup index is the scan of that walk as
   long as no chain executes a transaction twice.
   */
  method Run(bc: BlockChain, blocks: seq<Block>, coins: seq<bool>, ghost world: Store)
    requires bc.Valid() && Part(bc.seen, world) && |coins| == |blocks|
    requires forall k :: 0 <= k < |blocks| ==> Stored(world, blocks[k])
    modifies bc
    ensures bc.Valid() && bc.td[bc.current.hash].total >= old(bc.td)[old(bc.current).hash].total
    ensures Now(bc) == WrittenAll(bc.genesis, old(Now(bc)), blocks, coins)
    ensures old(bc.Scanned()) && World(world) ==> bc.Scanned()
    ensures Lowest(old(Now(bc))) ==> Lowest(Now(bc))
  {
    ghost var start := Now(bc);
    for k := 0 to |blocks|
      invariant bc.Valid() == true && Part(bc.seen, world)
      invariant Now(bc) == WrittenAll(bc.genesis, start, blocks[..k], coins[..k])
      invariant Lowest(start) ==> Lowest(Now(bc)) == true
      invariant bc.td[bc.current.hash].total >= old(bc.td)[old(bc.current).hash].total
      invariant old(bc.Scanned()) && World(world) ==> bc.Scanned() == true
    {
      LowestNext(bc, Now(bc), blocks[k], coins[k]);
      WriteNext(bc, blocks[k], coins[k], world);
      assert blocks[..k + 1][..k] == blocks[..k] && coins[..k + 1][..k] == coins[..k];
    }
    assert blocks[..|blocks|] == blocks && coins[..|coins|] == coins;
  }
}
