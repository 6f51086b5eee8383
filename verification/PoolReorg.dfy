/**
 The lists of one account of the transaction pool in a chain reorganisation that gives transactions back
 (core/tx_pool.go): what taking them in, promoting, cutting and demoting makes of the nonces.
 */
module PoolReorg {
  import opened Shared
  import opened TxList
  import opened PoolState

  // ---------------------------------------------------------------- reinjection

  /** With room for all of it, a batch is taken in without anything leaving. */
  lemma {:induction false} BatchedChanges(x: Holdings, t: Terms, batch: seq<(Tx, bool)>) returns (changes: seq<Change>)
    ensures Batched(x, t, batch, false).0 == Changed(x, changes)
    ensures forall c :: c in changes ==> c.Given?
    decreases |batch|
  {
    changes := [];
    if batch != [] {
      changes := BatchedChanges(x, t, batch[..|batch| - 1]);
      var y := Changed(x, changes);
      var (tx, wellFormed) := batch[|batch| - 1];
      if Welcome(y, t, tx, false, wellFormed) {
        assert (changes + [Given(tx, false)])[..|changes|] == changes;
        changes := changes + [Given(tx, false)];
      }
    }
  }

  /** A batch in general is a sequence of changes: what leaves to make room, and what is taken in. */
  lemma {:induction false} InsertedChanges(x: Holdings, t: Terms, config: Config, batch: seq<(Tx, bool)>, local: bool,
                                           gone: seq<seq<Tx>>, accepted: seq<bool>, changed: set<Addr>, z: Holdings)
    returns (changes: seq<Change>)
    requires InsertedAll(x, t, config, batch, local, gone, accepted, changed, z)
    ensures z == Changed(x, changes)
    decreases |batch|
  {
    changes := [];
    if batch != [] {
      var n := |batch| - 1;
      var y, replace, before: set<Addr> :|
        && InsertedAll(x, t, config, batch[..n], local, gone[..n], accepted[..n], before, y)
        && Inserted(y, z, config, batch[n].0, local, Checked(y, t, batch[n].0, local, batch[n].1), gone[n],
                    accepted[n], replace)
        && changed == before + Gets(batch[n].0, accepted[n], replace);
      changes := InsertedChanges(x, t, config, batch[..n], local, gone[..n], accepted[..n], before, y);
      ChangedBoth(x, changes, Drops(gone[n]));
      changes := changes + Drops(gone[n]);
      assert Opened(0);
      if accepted[n] {
        assert (changes + [Given(batch[n].0, local)])[..|changes|] == changes;
        changes := changes + [Given(batch[n].0, local)];
      }
    }
  }

  /** The pending nonces are consecutive from `lo`, and no queued one is among them. */
  ghost predicate Ordered(x: Holdings, a: Addr, lo: nat) {
    InSequence(ListOf(x.pending, a), ListOf(x.queue, a), lo)
  }

  /** What is taken in has a pending nonce already, or is queued with another. */
  lemma PutOrdered(x: Holdings, tx: Tx, local: bool, a: Addr, lo: nat)
    requires Ordered(x, a, lo)
    ensures Ordered(Put(x, tx, local), a, lo)
  {
    var pend := ListOf(x.pending, a);
    if tx.sender == a && tx.nonce in pend {
      assert pend[tx.nonce := tx].Keys == pend.Keys;
      assert |pend[tx.nonce := tx]| == |pend|;
    }
  }

  /** A removal leaves the front of the pending list. */
  lemma CutOrdered(pend: Txs, que: Txs, que': Txs, nonce: nat, lo: nat)
    requires InSequence(pend, que, lo) && nonce in pend
    requires que' == if Before(pend, nonce) == map[] then que else que + From(pend, nonce + 1)
    ensures InSequence(Before(pend, nonce), que', lo) == true
  {
    ContiguousSize(Before(pend, nonce), lo, nonce);
  }

  /** What a removal leaves of the lists of one account. */
  ghost predicate Lessened(pend: Txs, que: Txs, pend': Txs, que': Txs, nonce: nat) {
    if nonce !in pend then pend' == pend && (que' == que || que' == que - {nonce})
    else && pend' == Before(pend, nonce)
         && que' == if Before(pend, nonce) == map[] then que else que + From(pend, nonce + 1)
  }

  lemma WithoutLists(x: Holdings, tx: Tx, a: Addr)
    ensures var pend, que, y := ListOf(x.pending, a), ListOf(x.queue, a), Without(x, tx);
            || (ListOf(y.pending, a) == pend && ListOf(y.queue, a) == que)
            || Lessened(pend, que, ListOf(y.pending, a), ListOf(y.queue, a), tx.nonce) == true
  {
  }

  lemma LessenedOrdered(pend: Txs, que: Txs, pend': Txs, que': Txs, nonce: nat, lo: nat)
    requires InSequence(pend, que, lo) && Lessened(pend, que, pend', que', nonce)
    ensures InSequence(pend', que', lo) == true
  {
    if nonce in pend {
      CutOrdered(pend, que, que', nonce, lo);
    }
  }

  lemma WithoutOrdered(x: Holdings, y: Holdings, tx: Tx, a: Addr, pend: Txs, que: Txs, pend': Txs, que': Txs, lo: nat)
    requires y == Without(x, tx) && pend == ListOf(x.pending, a) && que == ListOf(x.queue, a)
    requires pend' == ListOf(y.pending, a) && que' == ListOf(y.queue, a) && InSequence(pend, que, lo) == true
    ensures InSequence(pend', que', lo) == true
  {
    WithoutLists(x, tx, a);
    if pend' != pend || que' != que {
      LessenedOrdered(pend, que, pend', que', tx.nonce, lo);
    }
  }

  lemma {:induction false} ChangedOrdered(x: Holdings, changes: seq<Change>, a: Addr, lo: nat)
    requires Ordered(x, a, lo)
    ensures Ordered(Changed(x, changes), a, lo)
    decreases |changes|
  {
    if changes != [] {
      var front, c := changes[..|changes| - 1], changes[|changes| - 1];
      ChangedOrdered(x, front, a, lo);
      match c
      case Given(tx, local) => PutOrdered(Changed(x, front), tx, local, a, lo);
      case Dropped(tx) =>
        var y, z := Changed(x, front), Changed(x, changes);
        WithoutOrdered(y, z, tx, a, ListOf(y.pending, a), ListOf(y.queue, a), ListOf(z.pending, a), ListOf(z.queue, a),
                       lo);
    }
  }

  // ---------------------------------------------------------------- promotion

  /** The queue of an account as promotion finds it: not too old, and within the limits. */
  ghost function Promotable(que: Txs, nonce: nat, balance: nat, maxGas: nat): Txs {
    Affordable(From(que, nonce), false, balance, maxGas)
  }

  /** Nothing too old and nothing over a limit. */
  ghost predicate Within(q: Txs, nonce: nat, balance: nat, maxGas: nat) {
    (forall n :: n in q ==> nonce <= n) && forall n :: n in q ==> !Over(q[n], balance, maxGas)
  }

  /** What promotion takes are the nonces from the state nonce to `end`, which is missing. */
  ghost predicate Taken(q: Txs, rest: Txs, nonce: nat, end: nat) {
    && nonce <= end && end !in q && rest == From(q, end)
    && forall n :: n in Before(q, end) <==> nonce <= n < end
  }

  /** And it stops short of the pending list. */
  ghost predicate Bridged(q: Txs, rest: Txs, nonce: nat, end: nat, lo: nat, hi: nat) {
    Taken(q, rest, nonce, end) && (lo < hi ==> end <= lo)
  }

  lemma RunTakes(q: Txs, rest: Txs, run: seq<Tx>, nonce: nat, balance: nat, maxGas: nat, end: nat)
    requires IsRun(q, nonce, rest, run) == true && Within(q, nonce, balance, maxGas) == true && end == nonce + |run|
    ensures Taken(q, rest, nonce, end) == true
  {
    RunStarts(q, rest, run, nonce, nonce);
    RunTaken(q, rest, run, nonce, nonce);
    forall n | nonce <= n < end
      ensures n in q
    {
      assert Holds(q, run[n - nonce]);
    }
    assert end !in rest;
  }

  lemma RunBridges(q: Txs, rest: Txs, run: seq<Tx>, nonce: nat, lo: nat, hi: nat, balance: nat, maxGas: nat, end: nat)
    requires Clear(q, lo, hi) == true && nonce < lo && IsRun(q, nonce, rest, run) == true
    requires Within(q, nonce, balance, maxGas) == true && end == nonce + |run|
    ensures Bridged(q, rest, nonce, end, lo, hi) == true
  {
    RunTakes(q, rest, run, nonce, balance, maxGas, end);
    if lo < hi {
      assert lo !in q && (lo in Before(q, end) <==> lo < end);
    }
  }

  /** The pending list then has two parts. */
  ghost predicate TwoParts(p: Txs, nonce: nat, end: nat, lo: nat, hi: nat) {
    nonce <= end && (lo < hi ==> end <= lo) && forall n :: n in p <==> nonce <= n < end || lo <= n < hi
  }

  // ---------------------------------------------------------------- cutting

  /** A cut that keeps no more than the front keeps a part of the front. */
  lemma CutFront(p: Txs, nonce: nat, end: nat, lo: nat, hi: nat, m: Txs, size: nat)
    requires TwoParts(p, nonce, end, lo, hi) && nonce < lo && Capped(p, m, size) && (lo >= hi || size <= end - nonce)
    ensures nonce + |m| <= end && Contiguous(m, nonce, nonce + |m|)
  {
    var front := Before(p, end);
    assert Contiguous(front, nonce, end);
    ContiguousSize(front, nonce, end);
    forall n | n in m
      ensures n < end
    {
      if n >= end {
        assert front.Keys + {n} <= m.Keys;
        Bigger(front.Keys + {n}, m.Keys);
      }
    }
    FrontPart(front, m, nonce, end);
  }

  lemma Bigger(a: set<nat>, b: set<nat>)
    requires a <= b
    ensures |a| <= |b|
  {
    assert b == a + (b - a);
  }

  /** A cut that keeps more than the front keeps the first of the rest. */
  lemma CutRest(p: Txs, nonce: nat, end: nat, lo: nat, hi: nat, m: Txs, size: nat)
    requires TwoParts(p, nonce, end, lo, hi) && lo < hi && Capped(p, m, size) && size > end - nonce
    ensures lo in m && forall n :: nonce <= n < end ==> n in m
  {
    var front := Before(p, end);
    assert Contiguous(front, nonce, end);
    ContiguousSize(front, nonce, end);
    if lo !in m {
      assert m.Keys <= front.Keys;
      Bigger(m.Keys, front.Keys);
      assert front.Keys + {lo} <= p.Keys;
      Bigger(front.Keys + {lo}, p.Keys);
    }
  }

  // ---------------------------------------------------------------- demotion

  /** The gap closes: nothing is promoted, or all up to the pending list is, or nothing behind the gap survives. */
  ghost predicate Closes(q: Txs, p: Txs, nonce: nat, end: nat, lo: nat, hi: nat, size: nat, balance: nat, maxGas: nat)
    requires lo < hi ==> lo in p
  {
    || nonce !in q
    || (forall n :: nonce <= n < lo ==> n in q)
    || lo >= hi
    || size <= end - nonce
    || Over(p[lo], balance, maxGas)
  }

  /** Nothing of the front is over a limit, so nothing there is dropped or stranded. */
  ghost predicate FrontFits(m: Txs, lo: nat, balance: nat, maxGas: nat) {
    forall n :: n in m && n < lo ==> !Over(m[n], balance, maxGas)
  }

  lemma FrontStays(m: Txs, nonce: nat, lo: nat, balance: nat, maxGas: nat)
    requires FrontFits(m, lo, balance, maxGas) && forall n :: n in m ==> nonce <= n
    ensures From(m, nonce) == m
    ensures forall n :: n in m && (n < lo || (n == lo && !Over(m[n], balance, maxGas))) ==>
              n in Affordable(m, true, balance, maxGas)
    ensures lo in m && Over(m[lo], balance, maxGas) ==> forall n :: n in Affordable(m, true, balance, maxGas) ==> n < lo
    ensures forall n :: n in Invalidated(m, true, balance, maxGas) ==> n > lo
  {
    assert From(m, nonce) == m;
    forall n | n in m && n <= lo
      ensures !Stranded(m, n, balance, maxGas)
    {
    }
    if lo in m && Over(m[lo], balance, maxGas) {
      forall n | n in m && n > lo
        ensures Stranded(m, n, balance, maxGas)
      {
      }
    }
  }

  /** The two lists are in step after demotion. */
  ghost predicate Restored(m: Txs, rest: Txs, nonce: nat, balance: nat, maxGas: nat) {
    InSequence(Demoted(m, nonce, balance, maxGas), rest + StrandedOf(m, nonce, balance, maxGas), nonce)
  }

  /** Nothing was promoted: the gap is in front, and all is postponed. */
  lemma GapInFront(m: Txs, rest: Txs, nonce: nat, balance: nat, maxGas: nat)
    requires nonce !in m
    ensures Restored(m, rest, nonce, balance, maxGas) == true
  {
    assert Demoted(m, nonce, balance, maxGas) == map[];
  }

  /** Only a part of the front is left. */
  lemma OnlyFront(m: Txs, rest: Txs, nonce: nat, end: nat, lo: nat, balance: nat, maxGas: nat)
    requires Contiguous(m, nonce, nonce + |m|) && nonce + |m| <= end <= lo && FrontFits(m, lo, balance, maxGas)
    requires forall n :: n in rest ==> n >= end
    ensures Restored(m, rest, nonce, balance, maxGas)
  {
    FrontStays(m, nonce, lo, balance, maxGas);
    assert Affordable(m, true, balance, maxGas) == m;
    assert StrandedOf(m, nonce, balance, maxGas) == map[];
  }

  /** The parts meet. */
  lemma NoGap(p: Txs, m: Txs, rest: Txs, nonce: nat, hi: nat, size: nat, balance: nat, maxGas: nat)
    requires Contiguous(p, nonce, hi) && Capped(p, m, size) && forall n :: n in rest ==> n >= hi
    ensures Restored(m, rest, nonce, balance, maxGas)
  {
    CappedContiguous(p, nonce, hi, m, size);
    var top := if size < hi - nonce then nonce + size else hi;
    assert Contiguous(m, nonce, top);
    assert From(m, nonce) == m;
    var end := AffordablePrefix(m, nonce, top, balance, maxGas);
    ContiguousSize(Affordable(m, true, balance, maxGas), nonce, end);
  }

  /** The transaction behind the gap is over a limit, which strands all behind it. */
  lemma GapStranded(m: Txs, rest: Txs, nonce: nat, end: nat, lo: nat, hi: nat, balance: nat, maxGas: nat)
    requires nonce < end <= lo < hi && FrontFits(m, lo, balance, maxGas) && lo in m && Over(m[lo], balance, maxGas)
    requires forall n :: n in m ==> nonce <= n < end || lo <= n < hi
    requires (forall n :: nonce <= n < end ==> n in m) && forall n :: n in rest ==> n >= end
    ensures Restored(m, rest, nonce, balance, maxGas)
  {
    FrontStays(m, nonce, lo, balance, maxGas);
    var kept := Affordable(m, true, balance, maxGas);
    assert Contiguous(kept, nonce, end);
    ContiguousSize(kept, nonce, end);
    assert nonce in kept;
  }

  /** Otherwise the gap stays: the nonce before it and the one behind it are kept, and its first nonce is missing. */
  lemma GapStays(m: Txs, rest: Txs, nonce: nat, end: nat, lo: nat, hi: nat, balance: nat, maxGas: nat)
    requires nonce < end < lo < hi && FrontFits(m, lo, balance, maxGas) && lo in m && !Over(m[lo], balance, maxGas)
    requires forall n :: n in m ==> nonce <= n < end || lo <= n < hi
    requires forall n :: nonce <= n < end ==> n in m
    ensures !Restored(m, rest, nonce, balance, maxGas)
    ensures nonce in Demoted(m, nonce, balance, maxGas) && end !in Demoted(m, nonce, balance, maxGas)
    ensures lo in Demoted(m, nonce, balance, maxGas)
  {
    FrontStays(m, nonce, lo, balance, maxGas);
    var kept := Affordable(m, true, balance, maxGas);
    assert nonce in kept && lo in kept && end !in kept;
  }

  // ---------------------------------------------------------------- the account after the reorganisation

  /** The condition in terms of where promotion ended. */
  lemma ClosesAt(q: Txs, rest: Txs, p: Txs, nonce: nat, end: nat, lo: nat, hi: nat, size: nat, balance: nat,
                 maxGas: nat)
    requires Bridged(q, rest, nonce, end, lo, hi) && nonce < lo && (lo < hi ==> lo in p)
    ensures Closes(q, p, nonce, end, lo, hi, size, balance, maxGas)
            == (end == nonce || lo >= hi || size <= end - nonce || end == lo || Over(p[lo], balance, maxGas))
  {
    assert nonce in Before(q, end) <==> nonce < end;
    if end == lo {
      forall n | nonce <= n < lo ensures n in q { assert n in Before(q, end); }
    }
  }

  /** The list after promotion and a cut, before demotion. */
  ghost predicate Mixed(m: Txs, rest: Txs, nonce: nat, end: nat, lo: nat, hi: nat, balance: nat, maxGas: nat) {
    && nonce <= end && nonce < lo && (lo < hi ==> end <= lo) && (forall n :: n in rest ==> n >= end)
    && (forall n :: n in m ==> nonce <= n < end || lo <= n < hi)
    && (forall n :: n in m && n < end ==> !Over(m[n], balance, maxGas))
  }

  lemma HasTwoParts(q: Txs, rest: Txs, p: Txs, nonce: nat, end: nat, lo: nat, hi: nat)
    requires Contiguous(p, lo, hi) && Bridged(q, rest, nonce, end, lo, hi)
    ensures TwoParts(p + Before(q, end), nonce, end, lo, hi) == true
  {
  }

  lemma IsMixed(q: Txs, rest: Txs, p: Txs, p2: Txs, m: Txs, nonce: nat, end: nat, lo: nat, hi: nat, balance: nat,
                maxGas: nat)
    requires Contiguous(p, lo, hi) && nonce < lo && Bridged(q, rest, nonce, end, lo, hi)
    requires Within(q, nonce, balance, maxGas)
    requires p2 == p + Before(q, end) && Sub(m, p2) && TwoParts(p2, nonce, end, lo, hi)
    ensures Mixed(m, rest, nonce, end, lo, hi, balance, maxGas) == true
    ensures lo < hi && lo in m ==> m[lo] == p[lo]
  {
    forall n | n in m && n < end
      ensures !Over(m[n], balance, maxGas)
    {
      assert n in p2 && m[n] == p2[n];
      assert n in Before(q, end) && p2[n] == q[n];
    }
    if lo < hi && lo in m {
      assert lo !in Before(q, end) && p2[lo] == p[lo];
    }
  }

  lemma FrontRestored(p2: Txs, m: Txs, rest: Txs, nonce: nat, end: nat, lo: nat, hi: nat, size: nat, balance: nat,
                      maxGas: nat)
    requires Mixed(m, rest, nonce, end, lo, hi, balance, maxGas) && TwoParts(p2, nonce, end, lo, hi)
    requires Capped(p2, m, size) && (lo >= hi || size <= end - nonce)
    ensures Restored(m, rest, nonce, balance, maxGas) == true
  {
    CutFront(p2, nonce, end, lo, hi, m, size);
    OnlyFront(m, rest, nonce, end, end, balance, maxGas);
  }

  lemma BothRestored(p2: Txs, m: Txs, rest: Txs, q: Txs, nonce: nat, end: nat, lo: nat, hi: nat, size: nat,
                     balance: nat, maxGas: nat)
    requires Mixed(m, rest, nonce, end, lo, hi, balance, maxGas) && TwoParts(p2, nonce, end, lo, hi)
    requires Capped(p2, m, size) && nonce < end && lo < hi && size > end - nonce
    requires Clear(q, lo, hi) && rest == From(q, end)
    ensures lo in m
    ensures Restored(m, rest, nonce, balance, maxGas) == (end == lo || Over(m[lo], balance, maxGas))
  {
    CutRest(p2, nonce, end, lo, hi, m, size);
    if end == lo {
      assert Contiguous(p2, nonce, hi);
      NoGap(p2, m, rest, nonce, hi, size, balance, maxGas);
    } else if Over(m[lo], balance, maxGas) {
      GapStranded(m, rest, nonce, end, lo, hi, balance, maxGas);
    } else {
      GapStays(m, rest, nonce, end, lo, hi, balance, maxGas);
    }
  }

  /** From the promotable queue and the pending list to the demoted one. */
  lemma TwoPartsRestored(q: Txs, rest: Txs, p: Txs, p2: Txs, m: Txs, nonce: nat, end: nat, lo: nat, hi: nat, size: nat,
                         balance: nat, maxGas: nat)
    requires Contiguous(p, lo, hi) == true && Clear(q, lo, hi) == true && nonce < lo
    requires Bridged(q, rest, nonce, end, lo, hi) == true && p2 == p + Before(q, end) && Capped(p2, m, size) == true
    requires Within(q, nonce, balance, maxGas) == true
    ensures Restored(m, rest, nonce, balance, maxGas) == Closes(q, p, nonce, end, lo, hi, size, balance, maxGas)
  {
    HasTwoParts(q, rest, p, nonce, end, lo, hi);
    IsMixed(q, rest, p, p2, m, nonce, end, lo, hi, balance, maxGas);
    ClosesAt(q, rest, p, nonce, end, lo, hi, size, balance, maxGas);
    if end == nonce {
      GapInFront(m, rest, nonce, balance, maxGas);
    } else if lo >= hi || size <= end - nonce {
      FrontRestored(p2, m, rest, nonce, end, lo, hi, size, balance, maxGas);
    } else {
      BothRestored(p2, m, rest, q, nonce, end, lo, hi, size, balance, maxGas);
    }
  }

  /** The limits of the queue take from it what is neither pending nor stranded: that makes no difference. */
  lemma LimitsKeep(m: Txs, rest: Txs, left: Txs, nonce: nat, balance: nat, maxGas: nat)
    requires Sub(left, rest) && rest.Keys !! m.Keys
    ensures Restored(m, left, nonce, balance, maxGas) == Restored(m, rest, nonce, balance, maxGas)
  {
    var kept, stranded := Demoted(m, nonce, balance, maxGas), StrandedOf(m, nonce, balance, maxGas);
    DemotedSub(m, nonce, balance, maxGas);
    LessClear(kept, stranded, left, rest, nonce);
  }

  lemma DemotedSub(m: Txs, nonce: nat, balance: nat, maxGas: nat)
    ensures Demoted(m, nonce, balance, maxGas).Keys <= m.Keys
  {
  }

  lemma LessClear(kept: Txs, stranded: Txs, left: Txs, rest: Txs, nonce: nat)
    requires Sub(left, rest) && rest.Keys !! kept.Keys
    ensures InSequence(kept, left + stranded, nonce) == InSequence(kept, rest + stranded, nonce)
  {
    if InSequence(kept, left + stranded, nonce) {
      forall n | n in rest + stranded
        ensures n < nonce || nonce + |kept| <= n
      {
        assert n in rest || n in left + stranded;
      }
    }
    if InSequence(kept, rest + stranded, nonce) {
      forall n | n in left + stranded
        ensures n < nonce || nonce + |kept| <= n
      {
        assert n in rest + stranded;
      }
    }
  }

  /** What promotion leaves in the queue has no nonce of the pending list. */
  lemma RestApart(q: Txs, rest: Txs, p: Txs, p2: Txs, m: Txs, end: nat, lo: nat, hi: nat)
    requires Contiguous(p, lo, hi) && Clear(q, lo, hi) && rest == From(q, end) && p2 == p + Before(q, end) && Sub(m, p2)
    ensures rest.Keys !! m.Keys
  {
  }

  /** Without a gap in front, demotion keeps what is affordable. */
  lemma KeptRestored(m: Txs, rest: Txs, nonce: nat, balance: nat, maxGas: nat, kept: Txs, stranded: Txs)
    requires kept == Affordable(From(m, nonce), true, balance, maxGas) && !Gapped(kept, nonce)
    requires stranded == Invalidated(From(m, nonce), true, balance, maxGas)
    requires InSequence(kept, rest + stranded, nonce) == true
    ensures Restored(m, rest, nonce, balance, maxGas) == true
  {
    assert stranded + map[] == stranded;
  }

  /** A nonce that is pending is not queued: nothing is promoted. */
  lemma PendingRestored(p: Txs, m: Txs, rest: Txs, nonce: nat, lo: nat, hi: nat, size: nat, balance: nat, maxGas: nat)
    requires Contiguous(p, lo, hi) == true && Clear(rest, lo, hi) == true && lo <= nonce < hi
    requires Capped(p, m, size) == true
    ensures Restored(m, rest, nonce, balance, maxGas) == true
  {
    CappedContiguous(p, lo, hi, m, size);
    var top := if size < hi - lo then lo + size else hi;
    FilteredRestored(m, rest, nonce, lo, top, balance, maxGas);
  }

  lemma FilteredRestored(m: Txs, rest: Txs, nonce: nat, lo: nat, top: nat, balance: nat, maxGas: nat)
    requires Contiguous(m, lo, top) == true && Clear(rest, lo, top) == true && lo <= nonce
    ensures Restored(m, rest, nonce, balance, maxGas) == true
  {
    var list := From(m, nonce);
    var kept, stranded := Affordable(list, true, balance, maxGas), Invalidated(list, true, balance, maxGas);
    DemotedNonces(m, rest, lo, top, nonce, balance, maxGas);
    KeptRestored(m, rest, nonce, balance, maxGas, kept, stranded);
  }

  /** The chain has passed the whole pending list. */
  lemma PassedRestored(q: Txs, p: Txs, p2: Txs, m: Txs, rest: Txs, nonce: nat, lo: nat, hi: nat, end: nat, size: nat,
                       balance: nat, maxGas: nat)
    requires Contiguous(p, lo, hi) == true && hi <= nonce && p2 == p + Before(q, end) && Capped(p2, m, size) == true
    requires Taken(q, rest, nonce, end) == true && Within(q, nonce, balance, maxGas) == true
    ensures Restored(m, rest, nonce, balance, maxGas) == true
  {
    var list := From(m, nonce);
    PassedSame(m, list, rest, nonce, balance, maxGas);
    PassedList(q, rest, p, p2, m, list, nonce, lo, hi, end, size);
    forall n | n in list ensures !Over(list[n], balance, maxGas) { assert n in q && list[n] == q[n]; }
    OnlyFront(list, rest, nonce, end, end, balance, maxGas);
  }

  /** Demotion does not look at what is too old. */
  lemma PassedSame(m: Txs, list: Txs, rest: Txs, nonce: nat, balance: nat, maxGas: nat)
    requires list == From(m, nonce)
    ensures Restored(m, rest, nonce, balance, maxGas) == Restored(list, rest, nonce, balance, maxGas)
  {
    assert From(list, nonce) == list;
  }

  lemma PassedList(q: Txs, rest: Txs, p: Txs, p2: Txs, m: Txs, list: Txs, nonce: nat, lo: nat, hi: nat, end: nat,
                   size: nat)
    requires Contiguous(p, lo, hi) && hi <= nonce && p2 == p + Before(q, end) && Capped(p2, m, size)
    requires Taken(q, rest, nonce, end) && list == From(m, nonce)
    ensures nonce + |list| <= end && Contiguous(list, nonce, nonce + |list|)
    ensures forall n :: n in list ==> n in q && list[n] == q[n]
  {
    var front := Before(q, end);
    assert Contiguous(front, nonce, end);
    forall n | n in list ensures n in front && list[n] == front[n] { assert n in p2 && n !in p; }
    FrontPart(front, list, nonce, end) by {
      forall n, k | n in list && k in front && k !in list ensures n < k { assert k in p2 && k !in m; }
    }
  }

  /** A part of a run of nonces that leaves out only higher ones is a run. */
  lemma FrontPart(front: Txs, list: Txs, nonce: nat, end: nat)
    requires Contiguous(front, nonce, end) && Sub(list, front)
    requires forall n, k :: n in list && k in front && k !in list ==> n < k
    ensures nonce + |list| <= end && Contiguous(list, nonce, nonce + |list|)
  {
    Bigger(list.Keys, front.Keys);
    ContiguousSize(front, nonce, end);
    CappedContiguous(front, nonce, end, list, |list|);
    assert list == Before(front, nonce + |list|);
  }

  lemma NothingTaken(q: Txs, rest: Txs, p: Txs, p2: Txs, nonce: nat, lo: nat, hi: nat, end: nat)
    requires Clear(q, lo, hi) && lo <= nonce < hi && Taken(q, rest, nonce, end) && p2 == p + Before(q, end)
    ensures p2 == p && Clear(rest, lo, hi) == true
  {
    assert nonce !in q && (nonce in Before(q, end) <==> nonce < end);
  }

  /** A state nonce that has not gone back below the first pending nonce: the lists are in step again. */
  lemma ForwardLists(q: Txs, rest: Txs, p: Txs, p2: Txs, m: Txs, nonce: nat, lo: nat, hi: nat, end: nat, size: nat,
                     balance: nat, maxGas: nat)
    requires Contiguous(p, lo, hi) == true && Clear(q, lo, hi) == true && lo <= nonce
    requires Within(q, nonce, balance, maxGas) == true && Taken(q, rest, nonce, end) == true
    requires p2 == p + Before(q, end) && Capped(p2, m, size) == true
    ensures Restored(m, rest, nonce, balance, maxGas) == true
  {
    if nonce < hi {
      NothingTaken(q, rest, p, p2, nonce, lo, hi, end);
      PendingRestored(p, m, rest, nonce, lo, hi, size, balance, maxGas);
    } else {
      PassedRestored(q, p, p2, m, rest, nonce, lo, hi, end, size, balance, maxGas);
    }
  }
}
