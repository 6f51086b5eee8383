/**
 The reset of the transaction pool after a chain reorganisation that gives transactions back (core/tx_pool.go), for one
 account and to its end: they are taken in, others may leave for them, the account's queue is promoted, the equaliser
 may cut its pending list, the list is demoted, the pending nonce is set behind it, and the queue is promoted once more.

 When the two parts of the pending list do not meet, a gap in the middle stays.  When a transaction that the chain has
 passed leaves early, the pending nonce stays below that of the chain.
 */
module PoolReset {
  import opened TxList
  import opened PoolState
  import opened PoolReorg

  // ---------------------------------------------------------------- one account

  /** The lists of an account and its pending nonce. */
  datatype Account = Account(pend: Txs, que: Txs, next: nat)

  /** What the new head says of the account, and its gas limit. */
  datatype Standing = Standing(nonce: nat, balance: nat, maxGas: nat)

  /** A transaction leaves the pending list: the pending nonce goes down to it. */
  ghost function Lowered(next: nat, pend: Txs, nonce: nat): nat {
    if nonce in pend && nonce < next then nonce else next
  }

  /** The pending nonce of an account after the changes of a reinjection. */
  ghost function NextAfter(x: Holdings, changes: seq<Change>, a: Addr, next: nat): nat {
    if changes == [] then next
    else
      var front := changes[..|changes| - 1];
      var y, n := Changed(x, front), NextAfter(x, front, a, next);
      match changes[|changes| - 1]
      case Given(_, _) => n
      case Dropped(tx) => if tx in y.all && tx.sender == a then Lowered(n, ListOf(y.pending, a), tx.nonce) else n
  }

  /** The account after reinjection, which starts with the pending nonce of the new head. */
  ghost function Reinjected(x: Holdings, changes: seq<Change>, a: Addr, nonce: nat): Account {
    var y := Changed(x, changes);
    Account(ListOf(y.pending, a), ListOf(y.queue, a), NextAfter(x, changes, a, nonce))
  }

  /** Promotion: what is too old or over a limit goes, and what is ready is pending. */
  ghost predicate Promotes(b: Account, h: Standing, q: Txs, run: seq<Tx>, b': Account) {
    && q == Promotable(b.que, h.nonce, h.balance, h.maxGas) && IsRun(q, b.next, b'.que, run)
    && b'.pend == b.pend + (q - b'.que.Keys)
    && b'.next == if run == [] then b.next else run[|run| - 1].nonce + 1
  }

  /** The pending nonce has gone down to the lowest of what left, if that is lower. */
  ghost predicate IsLowered(next: nat, gone: Txs, next': nat) {
    next' <= next && (forall n :: n in gone ==> next' <= n) && (next' == next || next' in gone)
  }

  /** The equaliser cuts the pending list to a size. */
  ghost predicate Trims(b: Account, size: nat, b': Account) {
    && Capped(b.pend, b'.pend, size) && b'.que == b.que
    && IsLowered(b.next, b.pend - b'.pend.Keys, b'.next)
  }

  /** The limits of the queue take some of it. */
  ghost predicate Loses(b: Account, b': Account) {
    b'.pend == b.pend && b'.next == b.next && Sub(b'.que, b.que)
  }

  /** Demotion. */
  ghost function Demotes(b: Account, h: Standing): Account {
    b.(pend := Demoted(b.pend, h.nonce, h.balance, h.maxGas),
       que := b.que + StrandedOf(b.pend, h.nonce, h.balance, h.maxGas))
  }

  /** The pending nonce is set behind the last pending transaction, if there is one. */
  ghost predicate Renumbers(b: Account, b': Account) {
    && b'.pend == b.pend && b'.que == b.que
    && if b.pend == map[] then b'.next == b.next
       else b'.next > 0 && b'.next - 1 in b.pend && forall n :: n in b.pend ==> n < b'.next
  }

  /** A reset: the account after each of its parts. */
  datatype Journey = Journey(given: Account, q: Txs, run: seq<Tx>, promoted: Account, trimmed: Account, left: Account,
                             numbered: Account, again: Account, trimmedAgain: Account, end: Account)

  /** The first promotion looks only at accounts that got something new. */
  ghost predicate FirstHalf(j: Journey, h: Standing, dirty: bool, size: nat) {
    && (if dirty then Promotes(j.given, h, j.q, j.run, j.promoted)
        else j.promoted == j.given && j.run == [] && j.q == map[])
    && Trims(j.promoted, size, j.trimmed) && Loses(j.trimmed, j.left)
  }

  ghost predicate SecondHalf(j: Journey, h: Standing, size: nat) {
    && Renumbers(Demotes(j.left, h), j.numbered)
    && (exists q, run :: Promotes(j.numbered, h, q, run, j.again))
    && Trims(j.again, size, j.trimmedAgain) && Loses(j.trimmedAgain, j.end)
  }

  // ---------------------------------------------------------------- what is wanted

  /** The pending nonces are those from the state nonce to the pending nonce, and the queue has none of them. */
  ghost predicate Neat(b: Account, nonce: nat) {
    Contiguous(b.pend, nonce, b.next) && Clear(b.que, nonce, b.next)
  }

  /** And nothing executable is queued. */
  ghost predicate InOrder(b: Account, nonce: nat) {
    Neat(b, nonce) && b.next !in b.que
  }

  /** That is what the pool keeps true of an account, apart from whose the transactions are. */
  lemma InOrderIsFine(pending: AccountLists, queue: AccountLists, nonceAt: Addr -> nat, managed: map<Addr, nat>,
                      all: set<Tx>, a: Addr)
    requires Owned(ListOf(pending, a), a, all) && Owned(ListOf(queue, a), a, all)
    ensures InOrder(Account(ListOf(pending, a), ListOf(queue, a), Next(nonceAt, managed, a)), nonceAt(a))
            <==> FineAt(pending, queue, nonceAt, managed, all, a) && IdleAt(queue, nonceAt, managed, a)
  {
  }

  // ---------------------------------------------------------------- reinjection

  /**
   Nothing below the state nonce has left early, and the pending nonce is the state nonce; or something has, and the
   pending list ends at the pending nonce.
   */
  ghost predicate Tracks(pend0: Txs, pend: Txs, next: nat, nonce: nat, lo: nat) {
    || (next == nonce && Before(pend, nonce).Keys == Before(pend0, nonce).Keys)
    || (lo <= next < nonce && |pend| == next - lo)
  }

  lemma TracksCut(pend0: Txs, pend: Txs, next: nat, nonce: nat, lo: nat, n: nat, pend': Txs)
    requires Tracks(pend0, pend, next, nonce, lo) && Contiguous(pend, lo, lo + |pend|) && n in pend
    requires pend' == Before(pend, n)
    ensures Tracks(pend0, pend', Lowered(next, pend, n), nonce, lo)
  {
    ContiguousSize(pend', lo, n);
    if next == nonce && n >= nonce {
      assert Before(pend', nonce).Keys == Before(pend, nonce).Keys;
    }
  }

  lemma TracksPut(x: Holdings, tx: Tx, local: bool, a: Addr, pend0: Txs, next: nat, nonce: nat, lo: nat)
    requires Tracks(pend0, ListOf(x.pending, a), next, nonce, lo)
    ensures Tracks(pend0, ListOf(Put(x, tx, local).pending, a), next, nonce, lo)
  {
    var pend := ListOf(x.pending, a);
    if tx.sender == a && tx.nonce in pend {
      var pend' := pend[tx.nonce := tx];
      assert pend'.Keys == pend.Keys;
      assert |pend'| == |pend|;
      assert Before(pend', nonce).Keys == Before(pend, nonce).Keys;
    }
  }

  lemma TracksWithout(x: Holdings, y: Holdings, tx: Tx, a: Addr, pend0: Txs, pend: Txs, pend': Txs, next: nat,
                      nonce: nat, lo: nat)
    requires y == Without(x, tx) && tx in x.all && tx.sender == a
    requires pend == ListOf(x.pending, a) && pend' == ListOf(y.pending, a)
    requires Tracks(pend0, pend, next, nonce, lo) && Contiguous(pend, lo, lo + |pend|)
    ensures Tracks(pend0, pend', Lowered(next, pend, tx.nonce), nonce, lo)
  {
    if tx.nonce in pend {
      assert pend' == Before(pend, tx.nonce);
      TracksCut(pend0, pend, next, nonce, lo, tx.nonce, pend');
    } else {
      assert pend' == pend;
    }
  }

  lemma {:induction false} ChangedTracks(x: Holdings, changes: seq<Change>, a: Addr, nonce: nat, lo: nat)
    requires Ordered(x, a, lo)
    ensures Tracks(ListOf(x.pending, a), ListOf(Changed(x, changes).pending, a), NextAfter(x, changes, a, nonce), nonce,
                   lo)
    decreases |changes|
  {
    if changes != [] {
      var front, c := changes[..|changes| - 1], changes[|changes| - 1];
      var y, z, next := Changed(x, front), Changed(x, changes), NextAfter(x, front, a, nonce);
      ChangedTracks(x, front, a, nonce, lo);
      ChangedOrdered(x, front, a, lo);
      match c
      case Given(tx, local) => TracksPut(y, tx, local, a, ListOf(x.pending, a), next, nonce, lo);
      case Dropped(tx) => TracksDrop(y, z, tx, a, ListOf(x.pending, a), next, nonce, lo);
    }
  }

  lemma TracksDrop(x: Holdings, y: Holdings, tx: Tx, a: Addr, pend0: Txs, next: nat, nonce: nat, lo: nat)
    requires y == Without(x, tx) && Ordered(x, a, lo) && Tracks(pend0, ListOf(x.pending, a), next, nonce, lo) == true
    ensures Tracks(pend0, ListOf(y.pending, a),
                   if tx in x.all && tx.sender == a then Lowered(next, ListOf(x.pending, a), tx.nonce) else next, nonce,
                   lo) == true
  {
    if tx in x.all && tx.sender == a {
      TracksWithout(x, y, tx, a, pend0, ListOf(x.pending, a), ListOf(y.pending, a), next, nonce, lo);
    } else {
      assert ListOf(y.pending, a) == ListOf(x.pending, a);
    }
  }

  /** The account before promotion. */
  ghost predicate Starts(b: Account, pend0: Txs, nonce: nat, lo: nat) {
    InSequence(b.pend, b.que, lo) && Tracks(pend0, b.pend, b.next, nonce, lo)
  }

  lemma ReinjectedStarts(x: Holdings, nonce0: Addr -> nat, managed0: map<Addr, nat>, changes: seq<Change>, a: Addr,
                         nonce: nat)
    requires Sound(x.pending, x.queue, nonce0, managed0, x.all) == true
    ensures Starts(Reinjected(x, changes, a, nonce), ListOf(x.pending, a), nonce, nonce0(a)) == true
  {
    var lo := nonce0(a);
    SoundOrdered(x, nonce0, managed0, a);
    ChangedOrdered(x, changes, a, lo);
    ChangedTracks(x, changes, a, nonce, lo);
  }

  // ---------------------------------------------------------------- the last part

  /** An account in order before the last promotion is in order after it. */
  lemma NeatPromotes(b: Account, h: Standing, q: Txs, run: seq<Tx>, b': Account)
    requires Neat(b, h.nonce) && Promotes(b, h, q, run, b')
    ensures InOrder(b', h.nonce) == true
  {
    var rest := b'.que;
    assert Clear(q, h.nonce, b.next) && forall n :: n in q ==> h.nonce <= n;
    RunStarts(q, rest, run, h.nonce, b.next);
    RunTaken(q, rest, run, h.nonce, b.next);
    var end := b.next + |run|;
    assert b'.next == end;
    forall n | b.next <= n < end
      ensures n in q && n !in rest
    {
      assert Holds(q, run[n - b.next]);
    }
    assert end !in rest;
  }

  lemma InOrderTrims(b: Account, nonce: nat, size: nat, b': Account)
    requires InOrder(b, nonce) && Trims(b, size, b')
    ensures InOrder(b', nonce) == true
  {
    CappedContiguous(b.pend, nonce, b.next, b'.pend, size);
    var gone := b.pend - b'.pend.Keys;
    if size < b.next - nonce {
      assert nonce + size in gone;
    }
  }

  lemma InOrderLoses(b: Account, nonce: nat, b': Account)
    requires InOrder(b, nonce) && Loses(b, b')
    ensures InOrder(b', nonce) == true
  {
  }

  /** An account in order when the pending nonce is set stays so to the end. */
  lemma NeatEnds(j: Journey, h: Standing, size: nat)
    requires Neat(j.numbered, h.nonce) && SecondHalf(j, h, size)
    ensures InOrder(j.end, h.nonce) == true
  {
    var q, run :| Promotes(j.numbered, h, q, run, j.again);
    NeatPromotes(j.numbered, h, q, run, j.again);
    InOrderTrims(j.again, h.nonce, size, j.trimmedAgain);
    InOrderLoses(j.trimmedAgain, h.nonce, j.end);
  }

  /** A pending list that has all nonces from the state nonce up to `end`, and some behind that. */
  ghost predicate Gappy(b: Account, nonce: nat, end: nat) {
    && nonce < end < b.next && end !in b.pend && end !in b.que && b.pend.Keys !! b.que.Keys
    && (forall n :: nonce <= n < end ==> n in b.pend) && (forall n :: n in b.pend ==> n >= nonce)
    && (forall n :: n in b.que ==> n >= end) && exists n :: n in b.pend && n > end
  }

  /** The last promotion may promote into the gap, but not close it. */
  lemma GappyPromotes(b: Account, h: Standing, end: nat, q: Txs, run: seq<Tx>, b': Account)
    requires Gappy(b, h.nonce, end) && Promotes(b, h, q, run, b')
    ensures Gappy(b', h.nonce, end) == true
  {
    var n :| n in b.pend && n > end;
    assert n in b'.pend;
    if run != [] {
      ListsIn(run, q - b'.que.Keys, run[|run| - 1]);
    }
  }

  /** A cut that reaches into the front puts the account in order; no other does. */
  lemma GappyTrims(b: Account, nonce: nat, end: nat, size: nat, b': Account)
    requires Gappy(b, nonce, end) && Trims(b, size, b')
    ensures InOrder(b', nonce) <==> size < end - nonce
  {
    var front := Before(b.pend, end);
    ContiguousSize(front, nonce, end);
    Bigger(front.Keys, b.pend.Keys);
    var gone := b.pend - b'.pend.Keys;
    if size < end - nonce {
      forall n | n in b'.pend
        ensures n < end
      {
        if n >= end {
          assert front.Keys + {n} <= b'.pend.Keys;
          Bigger(front.Keys + {n}, b'.pend.Keys);
        }
      }
      FrontPart(front, b'.pend, nonce, end);
      assert nonce + size in gone;
    } else {
      GapKept(b, nonce, end, size, b');
    }
  }

  lemma GapKept(b: Account, nonce: nat, end: nat, size: nat, b': Account)
    requires Gappy(b, nonce, end) && Trims(b, size, b') && size >= end - nonce
    ensures nonce < end < b'.next && end !in b'.pend && !InOrder(b', nonce)
  {
    var front := Before(b.pend, end);
    ContiguousSize(front, nonce, end);
    forall n | nonce <= n < end
      ensures n in b'.pend
    {
      if n !in b'.pend {
        assert b'.pend.Keys <= front.Keys - {n};
        Bigger(b'.pend.Keys, front.Keys - {n});
        Bigger(front.Keys, b.pend.Keys);
      }
    }
    assert b'.next > end;
    assert end !in b'.pend;
  }

  /** With a gap, the account is in order in the end if and only if the last cut reaches into the front. */
  lemma GappyEnds(j: Journey, h: Standing, end: nat, size: nat)
    requires Gappy(j.numbered, h.nonce, end) && SecondHalf(j, h, size)
    ensures InOrder(j.end, h.nonce) == (size < end - h.nonce)
  {
    var q, run :| Promotes(j.numbered, h, q, run, j.again);
    GappyPromotes(j.numbered, h, end, q, run, j.again);
    GappyTrims(j.again, h.nonce, end, size, j.trimmedAgain);
    if size < end - h.nonce {
      InOrderLoses(j.trimmedAgain, h.nonce, j.end);
    } else {
      GapKept(j.again, h.nonce, end, size, j.trimmedAgain);
    }
  }

  /** Nothing is pending, and the pending nonce is below the state nonce: it stays there. */
  lemma BelowEnds(j: Journey, h: Standing, size: nat)
    requires j.numbered.pend == map[] && j.numbered.next < h.nonce && SecondHalf(j, h, size)
    ensures !InOrder(j.end, h.nonce) && j.end.next == j.numbered.next && j.end.pend == map[]
  {
    var q, run :| Promotes(j.numbered, h, q, run, j.again);
    NothingPromoted(j.numbered, h, q, run, j.again);
  }

  // ---------------------------------------------------------------- a nonce that has gone back

  lemma PromotesTaken(b: Account, h: Standing, q: Txs, run: seq<Tx>, b': Account, end: nat)
    requires Promotes(b, h, q, run, b') && b.next == h.nonce && end == h.nonce + |run|
    ensures Within(q, h.nonce, h.balance, h.maxGas) == true && Taken(q, b'.que, h.nonce, end) == true
    ensures b'.pend == b.pend + Before(q, end) && b'.next == end
  {
    RunTakes(q, b'.que, run, h.nonce, h.balance, h.maxGas, end);
    RunStarts(q, b'.que, run, h.nonce, h.nonce);
    assert q - b'.que.Keys == Before(q, end);
  }

  /** The lists after the first half are in step again under the condition for lists. */
  lemma BackLists(j: Journey, h: Standing, lo: nat, hi: nat, size: nat, end: nat)
    requires h.nonce < lo && InSequence(j.given.pend, j.given.que, lo) && j.given.next == h.nonce
    requires hi == lo + |j.given.pend| && end == h.nonce + |j.run|
    requires FirstHalf(j, h, true, size)
    ensures lo < hi ==> lo in j.given.pend
    ensures Restored(j.left.pend, j.left.que, h.nonce, h.balance, h.maxGas)
            == Closes(j.q, j.given.pend, h.nonce, end, lo, hi, size, h.balance, h.maxGas)
  {
    var p, q, rest, m := j.given.pend, j.q, j.promoted.que, j.trimmed.pend;
    PromotesTaken(j.given, h, q, j.run, j.promoted, end);
    RunBridges(q, rest, j.run, h.nonce, lo, hi, h.balance, h.maxGas, end);
    TwoPartsRestored(q, rest, p, j.promoted.pend, m, h.nonce, end, lo, hi, size, h.balance, h.maxGas);
    RestApart(q, rest, p, j.promoted.pend, m, end, lo, hi);
    LimitsKeep(m, rest, j.left.que, h.nonce, h.balance, h.maxGas);
  }

  /** If nothing stays pending, the pending nonce is the state nonce. */
  lemma BackNext(j: Journey, h: Standing, lo: nat, hi: nat, size: nat, end: nat)
    requires h.nonce < lo && InSequence(j.given.pend, j.given.que, lo) && j.given.next == h.nonce
    requires hi == lo + |j.given.pend| && end == h.nonce + |j.run|
    requires FirstHalf(j, h, true, size) && Demoted(j.left.pend, h.nonce, h.balance, h.maxGas) == map[]
    ensures j.left.next == h.nonce
  {
    var p2, m := j.promoted.pend, j.trimmed.pend;
    PromotesTaken(j.given, h, j.q, j.run, j.promoted, end);
    assert forall n :: n in p2 ==> n >= h.nonce;
    if end > h.nonce {
      assert h.nonce in Before(j.q, end);
      if h.nonce in m {
        FirstStays(m, h.nonce, h.balance, h.maxGas);
      }
      assert h.nonce in p2 - m.Keys;
    }
  }

  /** A list with the state nonce, and nothing older, whose first transaction is within the limits, keeps it. */
  lemma FirstStays(m: Txs, nonce: nat, balance: nat, maxGas: nat)
    requires nonce in m && !Over(m[nonce], balance, maxGas)
    ensures nonce in Demoted(m, nonce, balance, maxGas)
  {
    assert nonce in Affordable(From(m, nonce), true, balance, maxGas);
  }

  /** Lists in step give an account in order, once the pending nonce is set. */
  lemma RenumbersNeat(b: Account, h: Standing, b': Account)
    requires Restored(b.pend, b.que, h.nonce, h.balance, h.maxGas) && Renumbers(Demotes(b, h), b')
    requires Demoted(b.pend, h.nonce, h.balance, h.maxGas) == map[] ==> b.next == h.nonce
    ensures Neat(b', h.nonce) == true
  {
    var kept := Demoted(b.pend, h.nonce, h.balance, h.maxGas);
    if kept != map[] {
      assert h.nonce + |kept| - 1 in kept;
    }
  }

  /** Where the condition for lists fails, the list has a gap. */
  lemma BackGap(j: Journey, h: Standing, lo: nat, hi: nat, size: nat, end: nat)
    requires h.nonce < lo && InSequence(j.given.pend, j.given.que, lo) && j.given.next == h.nonce
    requires hi == lo + |j.given.pend| && end == h.nonce + |j.run| && (lo < hi ==> lo in j.given.pend)
    requires FirstHalf(j, h, true, size) && Renumbers(Demotes(j.left, h), j.numbered)
    requires !Closes(j.q, j.given.pend, h.nonce, end, lo, hi, size, h.balance, h.maxGas)
    ensures Gappy(j.numbered, h.nonce, end)
  {
    var p, q, rest := j.given.pend, j.q, j.promoted.que;
    PromotesTaken(j.given, h, q, j.run, j.promoted, end);
    RunBridges(q, rest, j.run, h.nonce, lo, hi, h.balance, h.maxGas, end);
    GapFacts(q, rest, p, j.promoted.pend, j.left.pend, j.left.que, h, end, lo, hi, size);
    GapNumbered(j.left.pend, j.left.que, h, end, lo, hi, j.numbered, j.left);
  }

  /** What is pending and queued before demotion when a gap will stay. */
  ghost predicate GapList(m: Txs, left: Txs, h: Standing, end: nat, lo: nat, hi: nat) {
    && h.nonce < end < lo < hi && lo in m && !Over(m[lo], h.balance, h.maxGas) && left.Keys !! m.Keys
    && (forall n :: n in m ==> h.nonce <= n < end || lo <= n < hi)
    && (forall n :: n in m && n < end ==> !Over(m[n], h.balance, h.maxGas))
    && (forall n :: h.nonce <= n < end ==> n in m) && forall n :: n in left ==> n > end
  }

  /** The condition fails only if promotion stops short of the old list, and the cut and the limits leave some of it. */
  lemma GapOpen(q: Txs, rest: Txs, p: Txs, h: Standing, end: nat, lo: nat, hi: nat, size: nat)
    requires Bridged(q, rest, h.nonce, end, lo, hi) && h.nonce < lo && (lo < hi ==> lo in p)
    requires !Closes(q, p, h.nonce, end, lo, hi, size, h.balance, h.maxGas)
    ensures h.nonce < end < lo < hi && size > end - h.nonce && !Over(p[lo], h.balance, h.maxGas)
  {
    ClosesAt(q, rest, p, h.nonce, end, lo, hi, size, h.balance, h.maxGas);
  }

  lemma GapQueue(q: Txs, rest: Txs, left: Txs, m: Txs, nonce: nat, end: nat)
    requires Taken(q, rest, nonce, end) && Sub(left, rest) && rest.Keys !! m.Keys
    ensures left.Keys !! m.Keys && forall n :: n in left ==> n > end
  {
  }

  lemma GapFacts(q: Txs, rest: Txs, p: Txs, p2: Txs, m: Txs, left: Txs, h: Standing, end: nat, lo: nat, hi: nat,
                 size: nat)
    requires Contiguous(p, lo, hi) == true && Clear(q, lo, hi) == true && h.nonce < lo && (lo < hi ==> lo in p)
    requires Bridged(q, rest, h.nonce, end, lo, hi) == true && p2 == p + Before(q, end) && Capped(p2, m, size) == true
    requires Within(q, h.nonce, h.balance, h.maxGas) == true && Sub(left, rest) == true
    requires !Closes(q, p, h.nonce, end, lo, hi, size, h.balance, h.maxGas)
    ensures GapList(m, left, h, end, lo, hi) == true
  {
    GapOpen(q, rest, p, h, end, lo, hi, size);
    HasTwoParts(q, rest, p, h.nonce, end, lo, hi);
    IsMixed(q, rest, p, p2, m, h.nonce, end, lo, hi, h.balance, h.maxGas);
    CutRest(p2, h.nonce, end, lo, hi, m, size);
    RestApart(q, rest, p, p2, m, end, lo, hi);
    GapQueue(q, rest, left, m, h.nonce, end);
    MixedGap(m, rest, left, h, end, lo, hi);
  }

  lemma MixedGap(m: Txs, rest: Txs, left: Txs, h: Standing, end: nat, lo: nat, hi: nat)
    requires Mixed(m, rest, h.nonce, end, lo, hi, h.balance, h.maxGas) && h.nonce < end < lo < hi
    requires lo in m && !Over(m[lo], h.balance, h.maxGas) && left.Keys !! m.Keys
    requires (forall n :: h.nonce <= n < end ==> n in m) && forall n :: n in left ==> n > end
    ensures GapList(m, left, h, end, lo, hi) == true
  {
  }

  lemma GapNumbered(m: Txs, left: Txs, h: Standing, end: nat, lo: nat, hi: nat, b': Account, b: Account)
    requires b.pend == m && b.que == left && Renumbers(Demotes(b, h), b')
    requires GapList(m, left, h, end, lo, hi)
    ensures Gappy(b', h.nonce, end) == true
  {
    var kept, stranded := Demoted(m, h.nonce, h.balance, h.maxGas), StrandedOf(m, h.nonce, h.balance, h.maxGas);
    GapDemoted(m, left, h, end, lo, hi, kept, stranded);
    assert lo in b'.pend && lo > end;
  }

  /** Of such a list, all in front of the gap and the first behind it stay. */
  lemma GapDemoted(m: Txs, left: Txs, h: Standing, end: nat, lo: nat, hi: nat, kept: Txs, stranded: Txs)
    requires GapList(m, left, h, end, lo, hi)
    requires kept == Demoted(m, h.nonce, h.balance, h.maxGas) && stranded == StrandedOf(m, h.nonce, h.balance, h.maxGas)
    ensures lo in kept && end !in kept && kept.Keys <= m.Keys && (forall n :: h.nonce <= n < end ==> n in kept)
    ensures (forall n :: n in stranded ==> n > lo && n in m) && kept.Keys !! stranded.Keys
  {
    FrontStays(m, h.nonce, lo, h.balance, h.maxGas);
    assert kept == Affordable(m, true, h.balance, h.maxGas);
    assert stranded == Invalidated(m, true, h.balance, h.maxGas);
  }

  /** An account that got nothing new is not promoted: its list lacks the state nonce and is postponed. */
  lemma BackUntouched(j: Journey, h: Standing, lo: nat, size: nat)
    requires h.nonce < lo && InSequence(j.given.pend, j.given.que, lo) && j.given.next == h.nonce
    requires FirstHalf(j, h, false, size)
    ensures Restored(j.left.pend, j.left.que, h.nonce, h.balance, h.maxGas) == true && j.left.next == h.nonce
  {
    GapInFront(j.left.pend, j.left.que, h.nonce, h.balance, h.maxGas);
  }

  lemma BackInOrder(j: Journey, h: Standing, pend0: Txs, lo: nat, hi: nat, end: nat, dirty: bool, size: nat, last: nat)
    requires h.nonce < lo && Starts(j.given, pend0, h.nonce, lo) == true
    requires hi == lo + |j.given.pend| && end == h.nonce + |j.run|
    requires FirstHalf(j, h, dirty, size) == true && SecondHalf(j, h, last) == true
    ensures lo < hi ==> lo in j.given.pend
    ensures InOrder(j.end, h.nonce)
            == (Closes(j.q, j.given.pend, h.nonce, end, lo, hi, size, h.balance, h.maxGas) || last < end - h.nonce)
  {
    if !dirty {
      BackUntouched(j, h, lo, size);
      RenumbersNeat(j.left, h, j.numbered);
      NeatEnds(j, h, last);
    } else {
      BackLists(j, h, lo, hi, size, end);
      if Closes(j.q, j.given.pend, h.nonce, end, lo, hi, size, h.balance, h.maxGas) {
        if Demoted(j.left.pend, h.nonce, h.balance, h.maxGas) == map[] {
          BackNext(j, h, lo, hi, size, end);
        }
        RenumbersNeat(j.left, h, j.numbered);
        NeatEnds(j, h, last);
      } else {
        BackGap(j, h, lo, hi, size, end);
        GappyEnds(j, h, end, last);
      }
    }
  }

  // ---------------------------------------------------------------- a nonce that has not gone back

  /** Nothing that the chain has passed is left with the state nonce or above it. */
  lemma NothingKept(b: Account, h: Standing, b': Account)
    requires Renumbers(Demotes(b, h), b') && b.next < h.nonce && forall n :: n in b.pend ==> n < h.nonce
    ensures b'.pend == map[] && b'.next == b.next
  {
    assert From(b.pend, h.nonce) == map[];
  }

  /** A removal took a transaction that the chain has passed. */
  lemma EarlyDrop(j: Journey, h: Standing, pend0: Txs, lo: nat, dirty: bool, size: nat, last: nat)
    requires Starts(j.given, pend0, h.nonce, lo) && j.given.next != h.nonce
    requires FirstHalf(j, h, dirty, size) && SecondHalf(j, h, last)
    ensures !InOrder(j.end, h.nonce) && j.end.next < h.nonce
  {
    if dirty {
      NothingPromoted(j.given, h, j.q, j.run, j.promoted);
    }
    DroppedBelow(j.given, j.promoted, j.trimmed, j.left, pend0, h.nonce, lo, size);
    NothingKept(j.left, h, j.numbered);
    BelowEnds(j, h, last);
  }

  /** A pending nonce below the state nonce lets nothing be promoted. */
  lemma NothingPromoted(b: Account, h: Standing, q: Txs, run: seq<Tx>, b': Account)
    requires Promotes(b, h, q, run, b') && b.next < h.nonce
    ensures b'.pend == b.pend && b'.next == b.next && b'.que == q
  {
    assert run == [];
    assert q - b'.que.Keys == map[];
    forall n | n in q
      ensures n in b'.que && b'.que[n] == q[n]
    {
      assert n !in q - b'.que.Keys;
    }
    assert b'.que == q;
  }

  lemma DroppedBelow(b: Account, b1: Account, b2: Account, b3: Account, pend0: Txs, nonce: nat, lo: nat, size: nat)
    requires Starts(b, pend0, nonce, lo) && b.next != nonce && b1.pend == b.pend && b1.next == b.next
    requires Trims(b1, size, b2) && Loses(b2, b3)
    ensures b3.next < nonce && forall n :: n in b3.pend ==> n < nonce
  {
    assert forall n :: n in b1.pend ==> n < b.next;
    assert forall n :: n in b3.pend ==> n in b1.pend;
  }

  /** The equaliser took one. */
  lemma EarlyCut(j: Journey, h: Standing, dirty: bool, size: nat, last: nat)
    requires FirstHalf(j, h, dirty, size) && SecondHalf(j, h, last) && size < |Before(j.promoted.pend, h.nonce)|
    ensures !InOrder(j.end, h.nonce) && j.end.next < h.nonce
  {
    var p2, m := j.promoted.pend, j.trimmed.pend;
    var early := Before(p2, h.nonce);
    if forall n :: n in early ==> n in m {
      Bigger(early.Keys, m.Keys);
      Bigger(early.Keys, p2.Keys);
    }
    var n :| n in early && n !in m;
    assert n in p2 - m.Keys;
    NothingKept(j.left, h, j.numbered);
    BelowEnds(j, h, last);
  }

  /** No cut took one. */
  lemma CutLate(p2: Txs, m: Txs, nonce: nat, size: nat)
    requires Capped(p2, m, size) && size >= |Before(p2, nonce)|
    ensures forall n :: n in p2 && n !in m ==> n >= nonce
  {
    forall n | n in p2 && n !in m
      ensures n >= nonce
    {
      if n < nonce {
        assert m.Keys <= Before(p2, nonce).Keys - {n};
        Bigger(m.Keys, Before(p2, nonce).Keys - {n});
        Bigger(m.Keys + {n}, p2.Keys);
      }
    }
  }

  lemma ForwardNext(j: Journey, h: Standing, dirty: bool, size: nat)
    requires j.given.next == h.nonce && FirstHalf(j, h, dirty, size) && size >= |Before(j.promoted.pend, h.nonce)|
    requires Demoted(j.left.pend, h.nonce, h.balance, h.maxGas) == map[]
    ensures j.left.next == h.nonce
  {
    var p2, m := j.promoted.pend, j.trimmed.pend;
    CutLate(p2, m, h.nonce, size);
    if dirty && j.run != [] {
      var end := h.nonce + |j.run|;
      PromotesTaken(j.given, h, j.q, j.run, j.promoted, end);
      assert h.nonce in Before(j.q, end);
      if h.nonce in m {
        FirstStays(m, h.nonce, h.balance, h.maxGas);
      }
      assert h.nonce in p2 - m.Keys;
    }
  }

  lemma ForwardRestored(j: Journey, h: Standing, lo: nat, hi: nat, dirty: bool, size: nat)
    requires lo <= h.nonce && InSequence(j.given.pend, j.given.que, lo) && hi == lo + |j.given.pend|
    requires j.given.next == h.nonce && FirstHalf(j, h, dirty, size)
    ensures Restored(j.left.pend, j.left.que, h.nonce, h.balance, h.maxGas) == true
  {
    var p, p2, m := j.given.pend, j.promoted.pend, j.trimmed.pend;
    if dirty {
      var q, rest, end := j.q, j.promoted.que, h.nonce + |j.run|;
      PromotesTaken(j.given, h, q, j.run, j.promoted, end);
      ForwardLists(q, rest, p, p2, m, h.nonce, lo, hi, end, size, h.balance, h.maxGas);
      RestApart(q, rest, p, p2, m, end, lo, hi);
      LimitsKeep(m, rest, j.left.que, h.nonce, h.balance, h.maxGas);
    } else if h.nonce < hi {
      PendingRestored(p, m, j.left.que, h.nonce, lo, hi, size, h.balance, h.maxGas);
    } else {
      GapInFront(m, j.left.que, h.nonce, h.balance, h.maxGas);
    }
  }

  lemma ForwardInOrder(j: Journey, h: Standing, pend0: Txs, lo: nat, hi: nat, dirty: bool, size: nat, last: nat)
    requires lo <= h.nonce && Starts(j.given, pend0, h.nonce, lo) == true && hi == lo + |j.given.pend|
    requires FirstHalf(j, h, dirty, size) == true && SecondHalf(j, h, last) == true
    ensures InOrder(j.end, h.nonce) == (j.given.next == h.nonce && size >= |Before(j.promoted.pend, h.nonce)|)
  {
    if j.given.next != h.nonce {
      EarlyDrop(j, h, pend0, lo, dirty, size, last);
    } else if size < |Before(j.promoted.pend, h.nonce)| {
      EarlyCut(j, h, dirty, size, last);
    } else {
      ForwardRestored(j, h, lo, hi, dirty, size);
      if Demoted(j.left.pend, h.nonce, h.balance, h.maxGas) == map[] {
        ForwardNext(j, h, dirty, size);
      }
      RenumbersNeat(j.left, h, j.numbered);
      NeatEnds(j, h, last);
    }
  }

  // ---------------------------------------------------------------- any account

  /**
   When a reset leaves an account in order.  If its nonce has gone back: nothing is promoted at it; or all up to the old
   pending list is; or nothing was pending; or a cut, the first or the last one, takes some of what was promoted and all
   that was pending; or the first transaction that was pending is over a limit.  Otherwise: nothing that the chain has
   passed left early, neither for what was taken in nor by the first cut.
   */
  ghost predicate Settles(j: Journey, h: Standing, lo: nat, size: nat, last: nat)
    requires j.given.pend != map[] ==> lo in j.given.pend
  {
    if h.nonce < lo then
      || h.nonce !in j.q
      || (forall n :: h.nonce <= n < lo ==> n in j.q)
      || j.given.pend == map[]
      || size <= |j.run|
      || Over(j.given.pend[lo], h.balance, h.maxGas)
      || last < |j.run|
    else j.given.next == h.nonce && size >= |Before(j.promoted.pend, h.nonce)|
  }

  /** A reset of an account of a sound pool, whatever is given back, leaves, and is cut. */
  ghost predicate IsReset(x: Holdings, nonce0: Addr -> nat, managed0: map<Addr, nat>, changes: seq<Change>, a: Addr,
                          h: Standing, dirty: bool, size: nat, last: nat, j: Journey) {
    && Sound(x.pending, x.queue, nonce0, managed0, x.all) && j.given == Reinjected(x, changes, a, h.nonce)
    && FirstHalf(j, h, dirty, size) && SecondHalf(j, h, last)
  }

  /** At the end of a reset the account is in order if and only if the condition holds. */
  lemma ResetInOrder(x: Holdings, nonce0: Addr -> nat, managed0: map<Addr, nat>, changes: seq<Change>, a: Addr,
                     h: Standing, dirty: bool, size: nat, last: nat, j: Journey)
    requires IsReset(x, nonce0, managed0, changes, a, h, dirty, size, last, j) == true
    ensures j.given.pend != map[] ==> nonce0(a) in j.given.pend
    ensures InOrder(j.end, h.nonce) <==> Settles(j, h, nonce0(a), size, last)
  {
    var lo, hi, end := nonce0(a), nonce0(a) + |j.given.pend|, h.nonce + |j.run|;
    ReinjectedStarts(x, nonce0, managed0, changes, a, h.nonce);
    FirstPending(j.given, ListOf(x.pending, a), h.nonce, lo);
    if h.nonce < lo {
      BackInOrder(j, h, ListOf(x.pending, a), lo, hi, end, dirty, size, last);
      BackSettles(j, h, lo, hi, end, size, last);
    } else {
      ForwardInOrder(j, h, ListOf(x.pending, a), lo, hi, dirty, size, last);
    }
  }

  lemma FirstPending(b: Account, pend0: Txs, nonce: nat, lo: nat)
    requires Starts(b, pend0, nonce, lo)
    ensures b.pend != map[] <==> |b.pend| > 0
    ensures b.pend != map[] ==> lo in b.pend
  {
    assert b.pend == map[] <==> |b.pend| == 0;
  }

  lemma BackSettles(j: Journey, h: Standing, lo: nat, hi: nat, end: nat, size: nat, last: nat)
    requires h.nonce < lo && hi == lo + |j.given.pend| && end == h.nonce + |j.run|
    requires (j.given.pend != map[] <==> |j.given.pend| > 0) && (j.given.pend != map[] ==> lo in j.given.pend)
    ensures Settles(j, h, lo, size, last)
            == (Closes(j.q, j.given.pend, h.nonce, end, lo, hi, size, h.balance, h.maxGas) || last < end - h.nonce)
  {
  }

  /** The pending nonce after reinjection is that of the state unless a transaction the chain has passed was dropped. */
  lemma NextKept(x: Holdings, nonce0: Addr -> nat, managed0: map<Addr, nat>, changes: seq<Change>, a: Addr, nonce: nat)
    requires Sound(x.pending, x.queue, nonce0, managed0, x.all) == true
    ensures var b := Reinjected(x, changes, a, nonce);
            b.next == nonce <==> Before(b.pend, nonce).Keys == Before(ListOf(x.pending, a), nonce).Keys
  {
    ReinjectedStarts(x, nonce0, managed0, changes, a, nonce);
    var b, lo, pend0 := Reinjected(x, changes, a, nonce), nonce0(a), ListOf(x.pending, a);
    if b.next != nonce {
      SoundOrdered(x, nonce0, managed0, a);
      NextLower(x, changes, a, nonce, lo);
    }
    NextDiffers(pend0, b, nonce, lo);
  }

  lemma SoundOrdered(x: Holdings, nonce0: Addr -> nat, managed0: map<Addr, nat>, a: Addr)
    requires Sound(x.pending, x.queue, nonce0, managed0, x.all)
    ensures Ordered(x, a, nonce0(a)) == true
  {
    assert FineAt(x.pending, x.queue, nonce0, managed0, x.all, a);
    ContiguousSize(ListOf(x.pending, a), nonce0(a), Next(nonce0, managed0, a));
  }

  lemma NextDiffers(pend0: Txs, b: Account, nonce: nat, lo: nat)
    requires Starts(b, pend0, nonce, lo) && (b.next != nonce ==> b.next in pend0)
    ensures b.next == nonce <==> Before(b.pend, nonce).Keys == Before(pend0, nonce).Keys
  {
    if b.next != nonce {
      assert b.next in Before(pend0, nonce).Keys && b.next !in Before(b.pend, nonce).Keys;
    }
  }

  lemma {:induction false} NextLower(x: Holdings, changes: seq<Change>, a: Addr, nonce: nat, lo: nat)
    requires Ordered(x, a, lo) && NextAfter(x, changes, a, nonce) != nonce
    ensures NextAfter(x, changes, a, nonce) in ListOf(x.pending, a)
    decreases |changes|
  {
    var front := changes[..|changes| - 1];
    ChangedOrdered(x, front, a, lo);
    ChangedShorter(x, front, a, lo);
    if NextAfter(x, front, a, nonce) != nonce {
      NextLower(x, front, a, nonce, lo);
    }
  }

  /** Reinjection adds no nonce to the pending list. */
  lemma {:induction false} ChangedShorter(x: Holdings, changes: seq<Change>, a: Addr, lo: nat)
    requires Ordered(x, a, lo)
    ensures ListOf(Changed(x, changes).pending, a).Keys <= ListOf(x.pending, a).Keys
    decreases |changes|
  {
    if changes != [] {
      var front := changes[..|changes| - 1];
      var y := Changed(x, front);
      ChangedShorter(x, front, a, lo);
      match changes[|changes| - 1]
      case Given(tx, local) => assert ListOf(Put(y, tx, local).pending, a).Keys == ListOf(y.pending, a).Keys;
      case Dropped(tx) => WithoutLists(y, tx, a);
    }
  }

  // ---------------------------------------------------------------- what survives in every case

  /** The account's lists hold its own transactions, known to the pool, each under its nonce and in one list only. */
  ghost predicate Listed(a: Addr, pend: Txs, que: Txs, all: set<Tx>) {
    Owned(pend, a, all) && Owned(que, a, all) && pend.Keys !! que.Keys
  }

  ghost predicate ListedAt(x: Holdings, a: Addr) {
    Listed(a, ListOf(x.pending, a), ListOf(x.queue, a), x.all)
  }

  /** That holds for all accounts, and all known transactions pay the floor or have a local sender. */
  ghost predicate Survives(x: Holdings, floor: nat) {
    && (forall a {:trigger ListedAt(x, a)} :: ListedAt(x, a))
    && forall tx :: tx in x.all ==> tx.price >= floor || tx.sender in x.locals
  }

  lemma SoundSurvives(x: Holdings, nonce0: Addr -> nat, managed0: map<Addr, nat>, floor: nat)
    requires Sound(x.pending, x.queue, nonce0, managed0, x.all)
    requires forall tx :: tx in x.all ==> tx.price >= floor || tx.sender in x.locals
    ensures Survives(x, floor)
  {
    forall a
      ensures ListedAt(x, a)
    {
      assert FineAt(x.pending, x.queue, nonce0, managed0, x.all, a);
    }
  }

  lemma PutListed(x: Holdings, tx: Tx, local: bool, a: Addr)
    requires ListedAt(x, a) && ListedAt(x, tx.sender)
    ensures ListedAt(Put(x, tx, local), a)
  {
  }

  lemma WithoutListed(x: Holdings, tx: Tx, a: Addr)
    requires ListedAt(x, a)
    ensures ListedAt(Without(x, tx), a)
  {
    WithoutLists(x, tx, a);
  }

  /** The floor of the pool is checked before a transaction is taken in. */
  ghost predicate Pays(x: Holdings, change: Change, floor: nat) {
    change.Given? ==> change.tx.price >= floor || change.tx.sender in x.locals
  }

  /** Whatever is taken in and leaves, the lists stay proper and the floor holds. */
  lemma {:induction false} ChangedSurvives(x: Holdings, changes: seq<Change>, floor: nat)
    requires Survives(x, floor) && forall c :: c in changes ==> Pays(x, c, floor)
    ensures Survives(Changed(x, changes), floor) && x.locals <= Changed(x, changes).locals
    decreases |changes|
  {
    if changes != [] {
      var front, c := changes[..|changes| - 1], changes[|changes| - 1];
      var y := Changed(x, front);
      ChangedSurvives(x, front, floor);
      assert Pays(x, c, floor);
      forall a
        ensures ListedAt(Changed(x, changes), a)
      {
        assert ListedAt(y, a) && ListedAt(y, c.tx.sender);
        if c.Given? { PutListed(y, c.tx, c.local, a); } else { WithoutListed(y, c.tx, a); }
      }
    }
  }

  /** The transaction is in one of the lists. */
  ghost predicate In(b: Account, tx: Tx) {
    Holds(b.pend, tx) || Holds(b.que, tx)
  }

  /** Nothing new is listed, and nothing twice. */
  ghost predicate Fewer(b: Account, b': Account) {
    (forall tx :: In(b', tx) ==> In(b, tx)) && Keyed(b'.pend) && Keyed(b'.que) && b'.pend.Keys !! b'.que.Keys
  }

  lemma PromotesFewer(b: Account, h: Standing, q: Txs, run: seq<Tx>, b': Account)
    requires Fewer(b, b) && Promotes(b, h, q, run, b')
    ensures Fewer(b, b') == true
  {
    forall tx | In(b', tx)
      ensures In(b, tx)
    {
    }
  }

  lemma TrimsFewer(b: Account, size: nat, b': Account)
    requires Fewer(b, b) && Trims(b, size, b')
    ensures Fewer(b, b') == true
  {
  }

  lemma LosesFewer(b: Account, b': Account)
    requires Fewer(b, b) && Loses(b, b')
    ensures Fewer(b, b') == true
  {
  }

  lemma DemotesFewer(b: Account, h: Standing, b': Account)
    requires Fewer(b, b) && Renumbers(Demotes(b, h), b')
    ensures Fewer(b, b') == true
  {
    var kept := Demoted(b.pend, h.nonce, h.balance, h.maxGas);
    var stranded := StrandedOf(b.pend, h.nonce, h.balance, h.maxGas);
    DemotedApart(b.pend, h, kept, stranded);
    PartsFewer(b, kept, stranded, b');
  }

  lemma DemotedApart(pend: Txs, h: Standing, kept: Txs, stranded: Txs)
    requires kept == Demoted(pend, h.nonce, h.balance, h.maxGas)
    requires stranded == StrandedOf(pend, h.nonce, h.balance, h.maxGas)
    ensures Sub(kept, pend) == true && Sub(stranded, pend) == true && kept.Keys !! stranded.Keys
  {
  }

  lemma PartsFewer(b: Account, kept: Txs, stranded: Txs, b': Account)
    requires Fewer(b, b) && Sub(kept, b.pend) && Sub(stranded, b.pend) && kept.Keys !! stranded.Keys
    requires b'.pend == kept && b'.que == b.que + stranded
    ensures Fewer(b, b') == true
  {
  }

  /** In every reset, in order or not, the lists at the end hold nothing but what they held after reinjection. */
  lemma EndFewer(j: Journey, h: Standing, dirty: bool, size: nat, last: nat)
    requires Fewer(j.given, j.given) && FirstHalf(j, h, dirty, size) == true && SecondHalf(j, h, last) == true
    ensures Fewer(j.given, j.end) == true
  {
    if dirty {
      PromotesFewer(j.given, h, j.q, j.run, j.promoted);
    }
    TrimsFewer(j.promoted, size, j.trimmed);
    LosesFewer(j.trimmed, j.left);
    DemotesFewer(j.left, h, j.numbered);
    var q, run :| Promotes(j.numbered, h, q, run, j.again);
    PromotesFewer(j.numbered, h, q, run, j.again);
    TrimsFewer(j.again, last, j.trimmedAgain);
    LosesFewer(j.trimmedAgain, j.end);
  }

  /** So they stay the account's own and known, when only what goes off the lists is forgotten. */
  lemma EndListed(j: Journey, h: Standing, dirty: bool, size: nat, last: nat, a: Addr, all: set<Tx>, all': set<Tx>)
    requires Listed(a, j.given.pend, j.given.que, all)
    requires FirstHalf(j, h, dirty, size) == true && SecondHalf(j, h, last) == true
    requires forall tx :: tx in all && (In(j.end, tx) || !In(j.given, tx)) ==> tx in all'
    ensures Listed(a, j.end.pend, j.end.que, all') == true
  {
    EndFewer(j, h, dirty, size, last);
    FewerListed(j.given, j.end, a, all, all');
  }

  lemma FewerListed(b: Account, b': Account, a: Addr, all: set<Tx>, all': set<Tx>)
    requires Listed(a, b.pend, b.que, all) && Fewer(b, b')
    requires forall tx :: tx in all && (In(b', tx) || !In(b, tx)) ==> tx in all'
    ensures Listed(a, b'.pend, b'.que, all') == true
  {
    forall n | n in b'.pend
      ensures b'.pend[n].sender == a && b'.pend[n] in all'
    {
      assert In(b', b'.pend[n]);
    }
    forall n | n in b'.que
      ensures b'.que[n].sender == a && b'.que[n] in all'
    {
      assert In(b', b'.que[n]);
    }
  }

  // ---------------------------------------------------------------- a gap

  /** A transaction of the account in the examples. */
  function Plain(nonce: nat, price: nat): Tx {
    Tx(nonce, 0, nonce, price, 1, 1)
  }

  /**
   Nonces 6 to 8 are pending.  The state nonce goes back to 3, and the old branch gives back 3, 4 and 5; but 4 and 5 pay
   less than the pool asks for.
   */
  ghost predicate Example(x: Holdings, nonce0: Addr -> nat, t: Terms, batch: seq<(Tx, bool)>) {
    var list: Txs := map[6 := Plain(6, 1), 7 := Plain(7, 1), 8 := Plain(8, 1)];
    && x == Holdings(map[0 := list], map[], {Plain(6, 1), Plain(7, 1), Plain(8, 1)}, {})
    && (forall a :: nonce0(a) == 6) && (forall a :: t.nonceAt(a) == 3 && t.balanceAt(a) == 1)
    && t.gasPrice == 1 && t.maxGas == 1
    && batch == [(Plain(3, 1), true), (Plain(4, 0), true), (Plain(5, 0), true)]
  }

  lemma ExampleSound(x: Holdings, nonce0: Addr -> nat, t: Terms, batch: seq<(Tx, bool)>)
    requires Example(x, nonce0, t, batch)
    ensures Sound(x.pending, x.queue, nonce0, map[0 := 9], x.all) == true && nonce0(0) == 6
  {
    forall a
      ensures FineAt(x.pending, x.queue, nonce0, map[0 := 9], x.all, a)
    {
      assert a != 0 ==> ListOf(x.pending, a) == map[];
    }
  }

  /** Of the batch only nonce 3 is taken in. */
  lemma OnlyThree(x: Holdings, nonce0: Addr -> nat, t: Terms, batch: seq<(Tx, bool)>, y: Holdings)
    requires Example(x, nonce0, t, batch) && y == Batched(x, t, batch, false).0
    ensures y == Put(x, Plain(3, 1), false)
  {
    var b := batch;
    assert b[..1][..0] == [] && b[..2][..1] == b[..1] && b[..3][..2] == b[..2] && b[..3] == b;
    assert Welcome(x, t, Plain(3, 1), false, true);
    assert Batched(x, t, b[..1], false).0 == Put(x, Plain(3, 1), false);
    assert Batched(x, t, b[..2], false).0 == Put(x, Plain(3, 1), false);
  }

  lemma {:induction false} GivenNext(x: Holdings, changes: seq<Change>, a: Addr, next: nat)
    requires forall c :: c in changes ==> c.Given?
    ensures NextAfter(x, changes, a, next) == next
    decreases |changes|
  {
    if changes != [] {
      GivenNext(x, changes[..|changes| - 1], a, next);
    }
  }

  lemma OnlyOne(b: Account, h: Standing, q: Txs, run: seq<Tx>, b': Account)
    requires b.que == map[3 := Plain(3, 1)] && b.next == 3 && h == Standing(3, 1, 1) && Promotes(b, h, q, run, b')
    ensures 3 in q && 4 !in q && |run| == 1
  {
    assert q == b.que;
    PromotesTaken(b, h, q, run, b', 3 + |run|);
    assert 3 in Before(q, 3 + |run|) <==> |run| > 0;
    assert 4 in Before(q, 3 + |run|) <==> |run| > 1;
  }

  /**
   So 3 is promoted, and 6 to 8 stay pending.  Unless the equaliser cuts the list down to one, or in the end to nothing,
   the pending list starts at the state nonce, passes the test for a gap in front, and has a gap to the end.
   */
  lemma ReorgGap(x: Holdings, nonce0: Addr -> nat, t: Terms, batch: seq<(Tx, bool)>, j: Journey, h: Standing, size: nat,
                 last: nat)
    requires Example(x, nonce0, t, batch) == true && h == Standing(3, 1, 1) && size > 1 && last > 0
    requires var y := Batched(x, t, batch, false).0; j.given == Account(ListOf(y.pending, 0), ListOf(y.queue, 0), 3)
    requires FirstHalf(j, h, true, size) == true && SecondHalf(j, h, last) == true
    ensures !InOrder(j.end, 3)
  {
    ExampleSound(x, nonce0, t, batch);
    ExampleGiven(x, nonce0, t, batch, j.given);
    var changes := BatchedChanges(x, t, batch);
    GivenNext(x, changes, 0, 3);
    OnlyOne(j.given, h, j.q, j.run, j.promoted);
    ResetInOrder(x, nonce0, map[0 := 9], changes, 0, h, true, size, last, j);
    NotSettled(j, h, size, last);
  }

  lemma ExampleGiven(x: Holdings, nonce0: Addr -> nat, t: Terms, batch: seq<(Tx, bool)>, b: Account)
    requires Example(x, nonce0, t, batch)
    requires var y := Batched(x, t, batch, false).0; b == Account(ListOf(y.pending, 0), ListOf(y.queue, 0), 3)
    ensures b.que == map[3 := Plain(3, 1)] && b.next == 3 && 6 in b.pend && b.pend[6] == Plain(6, 1)
  {
    OnlyThree(x, nonce0, t, batch, Batched(x, t, batch, false).0);
  }

  lemma NotSettled(j: Journey, h: Standing, size: nat, last: nat)
    requires 6 in j.given.pend && j.given.pend[6] == Plain(6, 1) && h == Standing(3, 1, 1) && size > 1 && last > 0
    requires 3 in j.q && 4 !in j.q && |j.run| == 1
    ensures !Settles(j, h, 6, size, last)
  {
  }

  // ---------------------------------------------------------------- an early loss

  /** Nonces 0 to 4 are pending, and the chain comes to nonce 3; nonce 1 is dropped for one of another account. */
  ghost predicate Loss(x: Holdings, nonce0: Addr -> nat, changes: seq<Change>, other: Tx) {
    var list: Txs := map[0 := Plain(0, 9), 1 := Plain(1, 1), 2 := Plain(2, 9), 3 := Plain(3, 9), 4 := Plain(4, 9)];
    && x == Holdings(map[0 := list], map[], {Plain(0, 9), Plain(1, 1), Plain(2, 9), Plain(3, 9), Plain(4, 9)}, {})
    && (forall a :: nonce0(a) == 0) && other.sender == 1
    && changes == [Dropped(Plain(1, 1)), Given(other, false)]
  }

  lemma LossSound(x: Holdings, nonce0: Addr -> nat, changes: seq<Change>, other: Tx)
    requires Loss(x, nonce0, changes, other)
    ensures Sound(x.pending, x.queue, nonce0, map[0 := 5], x.all) == true && nonce0(0) == 0
  {
    forall a
      ensures FineAt(x.pending, x.queue, nonce0, map[0 := 5], x.all, a)
    {
      assert a != 0 ==> ListOf(x.pending, a) == map[];
    }
  }

  lemma LossWithout(x: Holdings, y: Holdings, nonce0: Addr -> nat, changes: seq<Change>, other: Tx)
    requires Loss(x, nonce0, changes, other) && y == Without(x, Plain(1, 1))
    ensures ListOf(y.pending, 0) == map[0 := Plain(0, 9)]
    ensures ListOf(y.queue, 0) == map[2 := Plain(2, 9), 3 := Plain(3, 9), 4 := Plain(4, 9)]
  {
    var pend := ListOf(x.pending, 0);
    assert Before(pend, 1) == map[0 := Plain(0, 9)];
    assert From(pend, 2) == map[2 := Plain(2, 9), 3 := Plain(3, 9), 4 := Plain(4, 9)];
  }

  lemma LossReinjected(x: Holdings, nonce0: Addr -> nat, changes: seq<Change>, other: Tx, b: Account)
    requires Loss(x, nonce0, changes, other) && b == Reinjected(x, changes, 0, 3)
    ensures b.pend == map[0 := Plain(0, 9)] && b.next == 1
    ensures b.que == map[2 := Plain(2, 9), 3 := Plain(3, 9), 4 := Plain(4, 9)]
  {
    var y := Without(x, Plain(1, 1));
    LossWithout(x, y, nonce0, changes, other);
    assert changes[..1] == [Dropped(Plain(1, 1))] && changes[..1][..0] == [];
    assert Changed(x, changes[..1]) == y && NextAfter(x, changes[..1], 0, 3) == 1;
  }

  /** Then nothing is pending in the end, the pending nonce is 1, and the executable nonce 3 stays queued. */
  lemma EarlyLoss(x: Holdings, nonce0: Addr -> nat, changes: seq<Change>, other: Tx, j: Journey, h: Standing, size: nat,
                  last: nat)
    requires Loss(x, nonce0, changes, other) == true && h == Standing(3, 1, 1) && size > 0
    requires j.given == Reinjected(x, changes, 0, 3)
    requires FirstHalf(j, h, false, size) == true && SecondHalf(j, h, last) == true
    ensures !InOrder(j.end, 3) && j.end.pend == map[] && j.end.next == 1
    ensures j.left.que == j.trimmed.que && j.end.que == j.trimmedAgain.que ==> 3 in j.end.que
  {
    LossReinjected(x, nonce0, changes, other, j.given);
    LossFirst(j, h, size);
    NothingKept(j.left, h, j.numbered);
    BelowEnds(j, h, last);
    if j.left.que == j.trimmed.que {
      LossQueued(j, h, last);
    }
  }

  lemma LossFirst(j: Journey, h: Standing, size: nat)
    requires j.given.pend == map[0 := Plain(0, 9)] && j.given.next == 1 && size > 0 && FirstHalf(j, h, false, size)
    ensures j.left.pend == j.given.pend && j.left.next == 1 && j.trimmed.que == j.given.que
  {
    CappedContiguous(j.promoted.pend, 0, 1, j.trimmed.pend, size);
  }

  lemma LossQueued(j: Journey, h: Standing, last: nat)
    requires h == Standing(3, 1, 1) && 3 in j.left.que && j.left.que[3] == Plain(3, 9) && SecondHalf(j, h, last)
    requires j.left.pend == map[0 := Plain(0, 9)] && j.left.next == 1
    ensures 3 in j.trimmedAgain.que
  {
    LossNumbered(j.left, h, j.numbered);
    var q, run :| Promotes(j.numbered, h, q, run, j.again);
    NothingPromoted(j.numbered, h, q, run, j.again);
    StillPromotable(j.numbered.que, q);
  }

  lemma LossNumbered(b: Account, h: Standing, b': Account)
    requires h == Standing(3, 1, 1) && 3 in b.que && b.que[3] == Plain(3, 9) && b.pend == map[0 := Plain(0, 9)]
    requires b.next == 1 && Renumbers(Demotes(b, h), b')
    ensures 3 in b'.que && b'.que[3] == Plain(3, 9) && b'.next == 1
  {
    NothingKept(b, h, b');
    assert From(b.pend, 3) == map[];
  }

  lemma StillPromotable(que: Txs, q: Txs)
    requires 3 in que && que[3] == Plain(3, 9) && q == Promotable(que, 3, 1, 1)
    ensures 3 in q
  {
  }
}
