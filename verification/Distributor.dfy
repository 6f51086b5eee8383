/**
 The request distributor (lzrm/distributor.go): requests wait in a queue in the order in which they
 were first made, and each goes to a peer that can serve it.

 Requests and peers are names.  What the callbacks of peers and requests answer during one call is
 given by an oracle.
 */
module Distributor {
  import WeightedSelect
  import opened Shared

  type Req = nat
  type Peer = nat

  /** The answers of the callbacks: which peer accepts what, after which wait, with which weight if at once. */
  datatype Oracle = Oracle(canQueue: Peer -> bool, canSend: (Req, Peer) -> bool, wait: (Req, Peer) -> nat,
                           bufRemain: (Req, Peer) -> nat)

  predicate Serves(o: Oracle, p: Peer, r: Req) {
    o.canQueue(p) && o.canSend(r, p)
  }

  // ---------------------------------------------------------------- the order of requests

  /** Numbers are given once and never twice. */
  ghost predicate Numbered(order: map<Req, nat>, last: nat) {
    && (forall r :: r in order ==> 0 < order[r] <= last)
    && (forall r, s :: r in order && s in order && order[r] == order[s] ==> r == s)
  }

  /** The queue is in the order of the requests' numbers. */
  ghost predicate InOrder(queue: seq<Req>, order: map<Req, nat>) {
    && (forall i :: 0 <= i < |queue| ==> queue[i] in order)
    && (forall i, j :: 0 <= i < j < |queue| ==> order[queue[i]] < order[queue[j]])
  }

  /** The first request of the queue that the peer can serve, or its length. */
  ghost function Oldest(o: Oracle, queue: seq<Req>, p: Peer): (i: nat)
    ensures i <= |queue| && (i < |queue| ==> Serves(o, p, queue[i]))
    ensures forall j :: 0 <= j < i ==> !Serves(o, p, queue[j])
  {
    if queue == [] || Serves(o, p, queue[0]) then 0 else Oldest(o, queue[1..], p) + 1
  }

  /** Some registered peer can serve the request. */
  ghost predicate Servable(o: Oracle, peers: set<Peer>, r: Req) {
    exists p: Peer :: p in peers && Serves(o, p, r)
  }

  // ---------------------------------------------------------------- what to send next

  datatype Choice = Nothing | Send(peer: Peer, req: Req, wait: nat)

  /** The peer's oldest request, which the first `i` requests contain. */
  ghost predicate Offered(o: Oracle, queue: seq<Req>, peers: set<Peer>, i: nat, p: Peer) {
    p in peers && Oldest(o, queue, p) < i <= |queue|
  }

  ghost predicate Pairs(o: Oracle, queue: seq<Req>, peers: set<Peer>, i: nat, p: Peer, r: Req) {
    Offered(o, queue, peers, i, p) && r == queue[Oldest(o, queue, p)]
  }

  /**
   The right answer: a peer with its oldest request, at once if any can be sent at once, else after the least wait.
   */
  ghost predicate IsNext(o: Oracle, queue: seq<Req>, peers: set<Peer>, c: Choice) {
    var n := |queue|;
    match c
    case Nothing => forall p: Peer :: !Offered(o, queue, peers, n, p)
    case Send(peer, req, wait) =>
      Pairs(o, queue, peers, n, peer, req) && wait == o.wait(req, peer) &&
      forall p: Peer :: Offered(o, queue, peers, n, p) ==> wait <= o.wait(queue[Oldest(o, queue, p)], p)
  }

  // ---------------------------------------------------------------- scanning the queue

  /** The walk has met the peer: at an earlier request, or at the present one among the peers already asked. */
  ghost predicate Met(o: Oracle, queue: seq<Req>, peers: set<Peer>, i: nat, asked: set<Peer>, p: Peer) {
    p in peers && (Oldest(o, queue, p) < i || (Oldest(o, queue, p) == i && p in asked)) && Oldest(o, queue, p) < |queue|
  }

  ghost function WaitOf(o: Oracle, queue: seq<Req>, p: Peer): nat
    requires Oldest(o, queue, p) < |queue|
  {
    o.wait(queue[Oldest(o, queue, p)], p)
  }

  /** What the walk has collected: pairs that can be sent at once, and the one with the least wait otherwise. */
  datatype Scan = Scan(checked: set<Peer>, ready: seq<(Peer, Req)>, best: Choice)

  ghost predicate Scanned(o: Oracle, queue: seq<Req>, peers: set<Peer>, i: nat, asked: set<Peer>, s: Scan) {
    && (forall p: Peer {:trigger Met(o, queue, peers, i, asked, p)} ::
          p in s.checked <==> Met(o, queue, peers, i, asked, p))
    && (forall k :: 0 <= k < |s.ready| ==> ReadyPair(o, queue, peers, i, asked, s.ready[k]))
    && (forall p: Peer {:trigger Met(o, queue, peers, i, asked, p)} ::
          Met(o, queue, peers, i, asked, p) && WaitOf(o, queue, p) == 0 ==>
          (p, queue[Oldest(o, queue, p)]) in s.ready)
    && (s.best.Nothing? ==> forall p: Peer {:trigger Met(o, queue, peers, i, asked, p)} ::
          Met(o, queue, peers, i, asked, p) ==> WaitOf(o, queue, p) == 0)
    && (s.best.Send? ==>
          && Met(o, queue, peers, i, asked, s.best.peer) && s.best.req == queue[Oldest(o, queue, s.best.peer)]
          && s.best.wait == WaitOf(o, queue, s.best.peer) > 0
          && forall p: Peer {:trigger Met(o, queue, peers, i, asked, p)} ::
               Met(o, queue, peers, i, asked, p) && WaitOf(o, queue, p) > 0 ==> s.best.wait <= WaitOf(o, queue, p))
  }

  ghost predicate ReadyPair(o: Oracle, queue: seq<Req>, peers: set<Peer>, i: nat, asked: set<Peer>, pair: (Peer, Req)) {
    Met(o, queue, peers, i, asked, pair.0) && pair.1 == queue[Oldest(o, queue, pair.0)] && WaitOf(o, queue, pair.0) == 0
  }

  /** The weights of the pairs that can be sent at once. */
  ghost predicate Weighted(o: Oracle, ready: seq<(Peer, Req)>, contents: map<nat, nat>) {
    contents == map k: nat | k < |ready| :: o.bufRemain(ready[k].1, ready[k].0) + 1
  }

  /** Asking a peer about the present request: it is new to the walk if it was not met and can serve the request. */
  function Ask(o: Oracle, r: Req, p: Peer, s: Scan): Scan {
    if p in s.checked || !Serves(o, p, r) then s
    else if o.wait(r, p) == 0 then Scan(s.checked + {p}, s.ready + [(p, r)], s.best)
    else Scan(s.checked + {p}, s.ready,
              if s.best.Nothing? || o.wait(r, p) < s.best.wait then Send(p, r, o.wait(r, p)) else s.best)
  }

  /** A peer that is met at this step has the present request as its oldest. */
  lemma AskMeets(o: Oracle, queue: seq<Req>, peers: set<Peer>, i: nat, asked: set<Peer>, s: Scan, p: Peer)
    requires Scanned(o, queue, peers, i, asked, s) && i < |queue| && p in peers && p !in asked
    ensures p !in s.checked && Serves(o, p, queue[i]) <==> Oldest(o, queue, p) == i
    ensures forall q: Peer {:trigger Met(o, queue, peers, i, asked + {p}, q)} :: Met(o, queue, peers, i, asked + {p}, q)
              <==> Met(o, queue, peers, i, asked, q) || (q == p && Oldest(o, queue, p) == i)
  {
    assert p in s.checked <==> Met(o, queue, peers, i, asked, p);
    forall q: Peer
      ensures Met(o, queue, peers, i, asked + {p}, q)
              <==> Met(o, queue, peers, i, asked, q) || (q == p && Oldest(o, queue, p) == i)
    {
    }
  }

  lemma AskScanned(o: Oracle, queue: seq<Req>, peers: set<Peer>, i: nat, asked: set<Peer>, s: Scan, p: Peer)
    requires Scanned(o, queue, peers, i, asked, s) && i < |queue| && p in peers && p !in asked
    ensures Scanned(o, queue, peers, i, asked + {p}, Ask(o, queue[i], p, s))
  {
    AskMeets(o, queue, peers, i, asked, s, p);
    var s' := Ask(o, queue[i], p, s);
    forall k | 0 <= k < |s'.ready|
      ensures ReadyPair(o, queue, peers, i, asked + {p}, s'.ready[k])
    {
      if k < |s.ready| {
        assert ReadyPair(o, queue, peers, i, asked, s.ready[k]);
        assert Met(o, queue, peers, i, asked + {p}, s.ready[k].0);
      } else {
        assert Met(o, queue, peers, i, asked + {p}, p);
      }
    }
    if s'.best.Send? {
      assert Met(o, queue, peers, i, asked + {p}, s'.best.peer);
    }
  }

  /** The walk goes on to the next request. */
  lemma NextScanned(o: Oracle, queue: seq<Req>, peers: set<Peer>, i: nat, s: Scan)
    requires Scanned(o, queue, peers, i, peers, s) && i < |queue|
    ensures Scanned(o, queue, peers, i + 1, {}, s)
  {
    assert forall p: Peer {:trigger Met(o, queue, peers, i + 1, {}, p)} ::
        Met(o, queue, peers, i + 1, {}, p) <==> Met(o, queue, peers, i, peers, p);
    forall k | 0 <= k < |s.ready|
      ensures ReadyPair(o, queue, peers, i + 1, {}, s.ready[k])
    {
      assert ReadyPair(o, queue, peers, i, peers, s.ready[k]);
      assert Met(o, queue, peers, i + 1, {}, s.ready[k].0);
    }
    if s.best.Send? {
      assert Met(o, queue, peers, i + 1, {}, s.best.peer);
    }
  }

  /** The walk is over: the collected answer is the right one. */
  lemma ScannedNext(o: Oracle, queue: seq<Req>, peers: set<Peer>, s: Scan, c: Choice)
    requires Scanned(o, queue, peers, |queue|, {}, s)
    requires if s.ready != [] then c.Send? && (c.peer, c.req) in s.ready && c.wait == 0 else c == s.best
    ensures IsNext(o, queue, peers, c)
  {
    forall p: Peer
      ensures Offered(o, queue, peers, |queue|, p) <==> Met(o, queue, peers, |queue|, {}, p)
    {
    }
    if s.ready != [] {
      var k :| 0 <= k < |s.ready| && s.ready[k] == (c.peer, c.req);
      assert ReadyPair(o, queue, peers, |queue|, {}, s.ready[k]);
    }
  }

  // ---------------------------------------------------------------- the distributor

  lemma PutInOrder(queue: seq<Req>, order: map<Req, nat>, i: nat, r: Req)
    requires InOrder(queue, order) && i <= |queue| && r in order
    requires forall j :: 0 <= j < i ==> order[queue[j]] < order[r]
    requires forall j :: i <= j < |queue| ==> order[r] < order[queue[j]]
    ensures var q := queue[..i] + [r] + queue[i..];
            InOrder(q, order) && multiset(q) == multiset(queue) + multiset{r}
  {
    assert queue == queue[..i] + queue[i..];
  }

  function Without(queue: seq<Req>, i: nat): seq<Req>
    requires i < |queue|
  {
    queue[..i] + queue[i + 1..]
  }

  lemma TakeInOrder(queue: seq<Req>, order: map<Req, nat>, i: nat)
    requires InOrder(queue, order) && i < |queue|
    ensures InOrder(Without(queue, i), order)
  {
    var q := Without(queue, i);
    forall j, k | 0 <= j < k < |q|
      ensures q[j] in order && q[k] in order && order[q[j]] < order[q[k]]
    {
      var j', k' := if j < i then j else j + 1, if k < i then k else k + 1;
      assert q[j] == queue[j'] && q[k] == queue[k'];
    }
    forall j | 0 <= j < |q|
      ensures q[j] in order
    {
      assert q[j] == queue[if j < i then j else j + 1];
    }
  }

  lemma TakeOne(queue: seq<Req>, order: map<Req, nat>, i: nat)
    requires InOrder(queue, order) && i < |queue|
    ensures multiset(Without(queue, i)) == multiset(queue) - multiset{queue[i]} && queue[i] !in Without(queue, i)
  {
    assert queue == queue[..i] + [queue[i]] + queue[i + 1..];
    assert forall j :: 0 <= j < |Without(queue, i)| ==> Without(queue, i)[j] == queue[if j < i then j else j + 1];
  }

  /** The first `k` requests, and only those up to the first that some peer can serve, have no peer. */
  ghost predicate Dropped(o: Oracle, queue: seq<Req>, peers: set<Peer>, k: nat) {
    && k <= |queue| && (forall j :: 0 <= j < k ==> !Servable(o, peers, queue[j]))
    && (k < |queue| ==> Servable(o, peers, queue[k]))
  }

  class RequestDistributor {
    var reqQueue: seq<Req>
    var order: map<Req, nat>
    var lastReqOrder: nat
    var peers: set<Peer>

    ghost predicate Valid()
      reads this
    {
      Numbered(order, lastReqOrder) && InOrder(reqQueue, order)
    }

    constructor ()
      ensures Valid() && reqQueue == [] && peers == {}
    {
      reqQueue, order, lastReqOrder, peers := [], map[], 0, {};
    }

    method RegisterPeer(p: Peer)
      requires Valid()
      modifies this`peers
      ensures Valid() && peers == old(peers) + {p}
    {
      peers := peers + {p};
    }

    method UnregisterPeer(p: Peer)
      requires Valid()
      modifies this`peers
      ensures Valid() && peers == old(peers) - {p}
    {
      peers := peers - {p};
    }

    /** Queue a request; one that is queued again goes back to its old place in the order. */
    method Queue(r: Req)
      requires Valid() && r !in reqQueue
      modifies this
      ensures Valid() && multiset(reqQueue) == multiset(old(reqQueue)) + multiset{r} && peers == old(peers)
      ensures r in order && (r in old(order) ==> order == old(order))
      ensures r !in old(order) ==> order == old(order)[r := lastReqOrder] && lastReqOrder == old(lastReqOrder) + 1
    {
      if r !in order {
        lastReqOrder := lastReqOrder + 1;
        order := order[r := lastReqOrder];
      }
      var i := Position(r);
      PutInOrder(reqQueue, order, i, r);
      reqQueue := reqQueue[..i] + [r] + reqQueue[i..];
    }

    /** Where a request belongs: at the end, or before the first later one. */
    method Position(r: Req) returns (i: nat)
      requires Valid() && r in order && r !in reqQueue
      ensures i <= |reqQueue| && forall j :: 0 <= j < i ==> order[reqQueue[j]] < order[r]
      ensures forall j :: i <= j < |reqQueue| ==> order[r] < order[reqQueue[j]]
    {
      assert forall j :: 0 <= j < |reqQueue| ==> order[reqQueue[j]] != order[r];
      if reqQueue == [] || order[r] > order[reqQueue[|reqQueue| - 1]] {
        return |reqQueue|;
      }
      i := 0;
      while order[reqQueue[i]] < order[r]
        invariant i < |reqQueue| && forall j :: 0 <= j < i ==> order[reqQueue[j]] < order[r]
        decreases |reqQueue| - i
      {
        i := i + 1;
      }
    }

    /** Take a request out of the queue, if it is there. */
    method Remove(r: Req)
      requires Valid()
      modifies this`reqQueue
      ensures Valid() && r !in reqQueue && multiset(reqQueue) == multiset(old(reqQueue)) - multiset{r}
    {
      var i := 0;
      while i < |reqQueue| && reqQueue[i] != r
        invariant 0 <= i <= |reqQueue| && r !in reqQueue[..i]
      {
        i := i + 1;
      }
      if i < |reqQueue| {
        TakeInOrder(reqQueue, order, i);
        TakeOne(reqQueue, order, i);
        reqQueue := Without(reqQueue, i);
      }
    }

    /** Cancel a request that has not been sent yet. */
    method Cancel(r: Req) returns (ok: bool)
      requires Valid()
      modifies this`reqQueue
      ensures Valid() && ok == (r in old(reqQueue)) && r !in reqQueue
      ensures multiset(reqQueue) == multiset(old(reqQueue)) - multiset{r}
    {
      ok := r in reqQueue;
      if ok {
        Remove(r);
      }
    }

    /** The next request to send, with a peer for it; requests at the front that no peer can take are dropped. */
    method NextRequest(o: Oracle) returns (c: Choice, dropped: nat)
      requires Valid()
      modifies this`reqQueue
      ensures Valid() && Dropped(o, old(reqQueue), peers, dropped) && reqQueue == old(reqQueue)[dropped..]
      ensures IsNext(o, old(reqQueue), peers, c) == true
    {
      var queue, i := reqQueue, 0;
      var sel := NewSelection(o);
      var s := Scan({}, [], Nothing);
      dropped := 0;
      StartScanned(o, queue, peers);
      while (peers != {} || i == dropped) && i < |queue|
        invariant 0 <= dropped <= i <= |queue| && (peers == {} ==> i == dropped)
        invariant Scanned(o, queue, peers, i, {}, s) == true && DroppedSoFar(o, queue, peers, dropped, i) == true
        invariant fresh(sel) && Selection(o, s.ready, sel) == true
        invariant Valid() == true && reqQueue == queue[dropped..]
        decreases |queue| - i
      {
        var canSend;
        s, canSend := AskPeers(o, queue, i, s, sel);
        DroppedNext(o, queue, peers, dropped, i, canSend);
        if !canSend && i == dropped {
          DropFront();
          dropped := dropped + 1;
        }
        i := i + 1;
      }
      c := s.best;
      if s.ready != [] {
        c := ChooseReady(o, s.ready, sel);
      }
      ScannedNext(o, queue, peers, s, c);
    }

    /** Close the request at the front without a peer. */
    method DropFront()
      requires Valid() && reqQueue != []
      modifies this`reqQueue
      ensures Valid() == true && reqQueue == old(reqQueue)[1..]
    {
      TakeInOrder(reqQueue, order, 0);
      assert Without(reqQueue, 0) == reqQueue[1..];
      reqQueue := reqQueue[1..];
    }

    /** Ask the peers, in any order, about the request at `i`. */
    method AskPeers(o: Oracle, queue: seq<Req>, i: nat, s0: Scan, sel: WeightedSelect.WeightedRandomSelect)
      returns (s: Scan, canSend: bool)
      requires i < |queue| && Scanned(o, queue, peers, i, {}, s0) == true && Selection(o, s0.ready, sel) == true
      modifies sel
      ensures Scanned(o, queue, peers, i + 1, {}, s) == true && Selection(o, s.ready, sel) == true
      ensures canSend <==> MeetsSome(o, queue, peers, i)
    {
      s, canSend := s0, false;
      var todo, asked := peers, {};
      while todo != {}
        invariant todo !! asked && todo + asked == peers && Scanned(o, queue, peers, i, asked, s) == true
        invariant Selection(o, s.ready, sel) == true && (canSend <==> MeetsSome(o, queue, asked, i))
        decreases todo
      {
        var p :| p in todo;
        var served;
        s, served := AskPeer(o, queue, i, asked, s, p, sel);
        MeetsMore(o, queue, asked, i, p);
        canSend := canSend || served;
        todo, asked := todo - {p}, asked + {p};
      }
      assert asked == peers;
      NextScanned(o, queue, peers, i, s);
    }

    method AskPeer(o: Oracle, queue: seq<Req>, i: nat, ghost asked: set<Peer>, s0: Scan, p: Peer,
                   sel: WeightedSelect.WeightedRandomSelect)
      returns (s: Scan, served: bool)
      requires i < |queue| && Scanned(o, queue, peers, i, asked, s0) == true && Selection(o, s0.ready, sel) == true
      requires p in peers && p !in asked
      modifies sel
      ensures Scanned(o, queue, peers, i, asked + {p}, s) == true && Selection(o, s.ready, sel) == true
      ensures served <==> Oldest(o, queue, p) == i
    {
      AskMeets(o, queue, peers, i, asked, s0, p);
      AskScanned(o, queue, peers, i, asked, s0, p);
      served := p !in s0.checked && Serves(o, p, queue[i]);
      if served && o.wait(queue[i], p) == 0 {
        AddReady(o, s0.ready, p, queue[i], sel, |s0.ready|);
      }
      s := Ask(o, queue[i], p, s0);
    }
  }

  // ---------------------------------------------------------------- the selection among pairs

  /** The selector holds the pairs with their weights; closed, as nothing but the three methods below looks inside. */
  ghost predicate Selection(o: Oracle, ready: seq<(Peer, Req)>, sel: WeightedSelect.WeightedRandomSelect)
    reads sel
  {
    forall k: nat {:trigger Opened(k)} :: Sealed(k) ==> sel.Valid() && Weighted(o, ready, sel.Contents())
  }

  method NewSelection(o: Oracle) returns (sel: WeightedSelect.WeightedRandomSelect)
    ensures fresh(sel) && Selection(o, [], sel) == true
  {
    sel := new WeightedSelect.WeightedRandomSelect();
    assert Opened(0);
  }

  method AddReady(o: Oracle, ghost ready: seq<(Peer, Req)>, p: Peer, r: Req, sel: WeightedSelect.WeightedRandomSelect,
                  n: nat)
    requires n == |ready| && Selection(o, ready, sel) == true
    modifies sel
    ensures Selection(o, ready + [(p, r)], sel) == true
  {
    assert Opened(0);
    ghost var before := sel.Contents();
    sel.SetWeight(n, o.bufRemain(r, p) + 1);
    WeightedMore(o, ready, before, p, r);
  }

  lemma WeightedMore(o: Oracle, ready: seq<(Peer, Req)>, contents: map<nat, nat>, p: Peer, r: Req)
    requires Weighted(o, ready, contents)
    ensures Weighted(o, ready + [(p, r)], contents[|ready| := o.bufRemain(r, p) + 1])
  {
  }

  /** A pair that can be sent at once, drawn by weight. */
  method ChooseReady(o: Oracle, ready: seq<(Peer, Req)>, sel: WeightedSelect.WeightedRandomSelect) returns (c: Choice)
    requires ready != [] && Selection(o, ready, sel) == true
    modifies sel
    ensures c.Send? && (c.peer, c.req) in ready && c.wait == 0
  {
    assert Opened(0);
    var weights := map k: nat | k < |ready| :: o.bufRemain(ready[k].1, ready[k].0) + 1;
    ghost var before := sel.Contents();
    assert 0 in before && 0 in weights;
    var choice := sel.Choose(weights);
    assert choice != WeightedSelect.Nothing;
    var (peer, req) := ready[choice.item];
    c := Send(peer, req, 0);
  }

  ghost predicate MeetsSome(o: Oracle, queue: seq<Req>, peers: set<Peer>, i: nat) {
    exists p: Peer :: p in peers && Oldest(o, queue, p) == i
  }

  lemma MeetsMore(o: Oracle, queue: seq<Req>, asked: set<Peer>, i: nat, p: Peer)
    ensures MeetsSome(o, queue, asked + {p}, i) <==> MeetsSome(o, queue, asked, i) || Oldest(o, queue, p) == i
  {
    if MeetsSome(o, queue, asked, i) {
      var q: Peer :| q in asked && Oldest(o, queue, q) == i;
      assert q in asked + {p};
    } else if Oldest(o, queue, p) == i {
      assert p in asked + {p};
    }
  }

  lemma StartScanned(o: Oracle, queue: seq<Req>, peers: set<Peer>)
    ensures Scanned(o, queue, peers, 0, {}, Scan({}, [], Nothing)) == true
    ensures DroppedSoFar(o, queue, peers, 0, 0) == true
  {
  }

  /** The front of the queue, when the walk has come to the request at `i`. */
  ghost predicate DroppedSoFar(o: Oracle, queue: seq<Req>, peers: set<Peer>, k: nat, i: nat) {
    && k <= i <= |queue| && (forall j :: 0 <= j < k ==> !Servable(o, peers, queue[j]))
    && (k < i ==> Servable(o, peers, queue[k]))
  }

  /** Nobody was met before the front, so the front is dropped only if no registered peer can serve it. */
  lemma DroppedNext(o: Oracle, queue: seq<Req>, peers: set<Peer>, k: nat, i: nat, canSend: bool)
    requires DroppedSoFar(o, queue, peers, k, i) == true && i < |queue|
    requires canSend <==> MeetsSome(o, queue, peers, i)
    ensures DroppedSoFar(o, queue, peers, if !canSend && i == k then k + 1 else k, i + 1) == true
  {
    if i == k {
      forall p: Peer | p in peers
        ensures Serves(o, p, queue[i]) <==> Oldest(o, queue, p) == i
      {
        if Oldest(o, queue, p) < i {
          assert Servable(o, peers, queue[Oldest(o, queue, p)]);
        }
      }
    }
  }
}
