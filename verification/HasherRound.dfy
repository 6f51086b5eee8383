/**
 The end of a round: the last segment is handed over, the goroutines run dry, exactly one
 result comes out, and the tree is released as good as new.
 */
module HasherRound {
  import opened Bmt
  import opened HasherTree
  import opened HasherInvariant
  import opened HasherPhases

  // ---------------------------------------------------------------- a tree waiting for its result

  /** All of the chunk `d` is in the tree; the root is the lowest leftmost node above all of it. */
  ghost predicate Rooted(H: BaseHash, size: nat, t: Tree, h: nat, d: Bytes)
  {
    if t.Leaf? || h == 0 || |d| > W(size, h - 1) then Closed(H, size, t, h, d, true)
    else
      && Linked(t) && t.lin == [] && t.rin == [] && t.cell.sent == 0 && Resting(t.cell)
      && Rooted(H, size, t.l, h - 1, d) && Idle(t.r, h - 1, false)
  }

  /** How many results the tree has sent. */
  function Results(size: nat, t: Tree, h: nat, n: nat): nat
  {
    if t.Leaf? || h == 0 || n > W(size, h - 1) then t.cell.sent else Results(size, t.l, h - 1, n)
  }

  /** The act keeps the tree rooted; at most one result comes out, and it is the hash of the chunk. */
  ghost predicate RootedKept(H: BaseHash, size: nat, t: Tree, h: nat, d: Bytes, act: Act)
    requires 0 < size
  {
    var (t', up) := Exec(H, t, act);
    && Rooted(H, size, t', h, d) && t'.index == t.index && (t'.Leaf? <==> t.Leaf?)
    && match up
       case Nothing => Results(size, t', h, |d|) == Results(size, t, h, |d|)
       case Climb(_) => false
       case Emit(s) => && Results(size, t, h, |d|) == 0 && Results(size, t', h, |d|) == 1
                       && s == Root(H, size, d)
  }

  /** Every act of every schedule: no result but the reference hash, and none after the first. */
  lemma {:induction false} RootedStep(H: BaseHash, size: nat, t: Tree, h: nat, d: Bytes, act: Act)
    requires 0 < size && Rooted(H, size, t, h, d)
    ensures RootedKept(H, size, t, h, d, act) == true
    decreases t
  {
    if t.Leaf? || h == 0 || |d| > W(size, h - 1) {
      RootStep(H, size, t, h, d, act);
    } else {
      match act
      case HereL(_) =>
      case HereR(_) =>
      case Left(a) =>
        RootedStep(H, size, t.l, h - 1, d, a);
        AboveRootStep(H, size, t, h, d, a);
      case Right(a) => IdleStays(H, t.r, h - 1, a);
    }
  }

  lemma RootStep(H: BaseHash, size: nat, t: Tree, h: nat, d: Bytes, act: Act)
    requires 0 < size && Rooted(H, size, t, h, d) && (t.Leaf? || h == 0 || |d| > W(size, h - 1))
    ensures RootedKept(H, size, t, h, d, act) == true
  {
    ClosedStep(H, size, t, h, d, true, act);
    ValueIsRoot(H, size, h, d);
  }

  lemma AboveRootStep(H: BaseHash, size: nat, t: Tree, h: nat, d: Bytes, a: Act)
    requires 0 < size && Rooted(H, size, t, h, d) && t.Node? && h > 0 && |d| <= W(size, h - 1)
    requires RootedKept(H, size, t.l, h - 1, d, a)
    ensures RootedKept(H, size, t, h, d, Left(a)) == true
  {
  }

  /** Every node with two inputs has been hashed exactly once, and nodes with one input not at all. */
  ghost predicate HashedOnce(size: nat, t: Tree, h: nat, n: nat)
  {
    t.Leaf? || h == 0 ||
    (var w := W(size, h - 1);
     if n <= w then t.cell.hashes == 0 && HashedOnce(size, t.l, h - 1, n)
     else t.cell.hashes == 1 && HashedOnce(size, t.l, h - 1, w) && HashedOnce(size, t.r, h - 1, n - w))
  }

  /** That is so once a subtree has passed its value on. */
  lemma {:induction false} ClosedHashedOnce(H: BaseHash, size: nat, t: Tree, h: nat, d: Bytes, root: bool)
    requires Closed(H, size, t, h, d, root) && t.cell.sent == 1
    ensures HashedOnce(size, t, h, |d|)
    decreases t
  {
    if t.Node? {
      var w := W(size, h - 1);
      SentBelow(H, size, t, h, d, root, w);
      if |d| <= w {
        ClosedHashedOnce(H, size, t.l, h - 1, d, false);
      } else {
        var left, right := d[..w], d[w..];
        ClosedHashedOnce(H, size, t.l, h - 1, left, false);
        ClosedHashedOnce(H, size, t.r, h - 1, right, false);
      }
    }
  }

  /** A node that has passed its value on got its inputs, and hashed them if there were two. */
  lemma SentBelow(H: BaseHash, size: nat, t: Tree, h: nat, d: Bytes, root: bool, w: nat)
    requires Closed(H, size, t, h, d, root) && t.Node? && t.cell.sent == 1 && h > 0 && w == W(size, h - 1)
    ensures t.l.cell.sent == 1
    ensures |d| <= w ==> Closed(H, size, t.l, h - 1, d, false) == true && t.cell.hashes == 0
    ensures |d| > w ==> && Closed(H, size, t.l, h - 1, d[..w], false) == true
                        && Closed(H, size, t.r, h - 1, d[w..], false) == true
                        && t.r.cell.sent == 1 && t.cell.hashes == 1
  {
  }

  /** It is so for everything below the root, the lowest leftmost node above all of the `n` bytes. */
  ghost predicate AllHashedOnce(size: nat, t: Tree, h: nat, n: nat)
  {
    if t.Leaf? || h == 0 || n > W(size, h - 1) then HashedOnce(size, t, h, n) else AllHashedOnce(size, t.l, h - 1, n)
  }

  lemma {:induction false} RootedHashedOnce(H: BaseHash, size: nat, t: Tree, h: nat, d: Bytes)
    requires Rooted(H, size, t, h, d) && Results(size, t, h, |d|) == 1
    ensures AllHashedOnce(size, t, h, |d|)
    decreases t
  {
    if t.Leaf? || h == 0 || |d| > W(size, h - 1) {
      ClosedHashedOnce(H, size, t, h, d, true);
    } else {
      RootedHashedOnce(H, size, t.l, h - 1, d);
    }
  }

  /** Until a closed subtree has passed its value on, some goroutine in it can move. */
  lemma {:induction false} ClosedProgress(H: BaseHash, size: nat, t: Tree, h: nat, d: Bytes, root: bool)
    returns (act: Act)
    requires Closed(H, size, t, h, d, root) && t.cell.sent == 0
    ensures Enabled(t, act)
    decreases t
  {
    if t.lin != [] {
      act := HereL(0);
    } else if t.rin != [] {
      act := HereR(0);
    } else {
      var w := W(size, h - 1);
      InputsMissing(H, size, t, h, d, root, w);
      var a;
      if |d| <= w {
        a := ClosedProgress(H, size, t.l, h - 1, d, false);
        act := Left(a);
      } else if t.l.cell.sent == 0 {
        var left := d[..w];
        a := ClosedProgress(H, size, t.l, h - 1, left, false);
        act := Left(a);
      } else {
        var right := d[w..];
        a := ClosedProgress(H, size, t.r, h - 1, right, false);
        act := Right(a);
      }
    }
  }

  /** A node that has passed nothing on, and at which nobody can move, waits for an input. */
  lemma InputsMissing(H: BaseHash, size: nat, t: Tree, h: nat, d: Bytes, root: bool, w: nat)
    requires Closed(H, size, t, h, d, root) && t.cell.sent == 0 && t.lin == [] && t.rin == []
    requires h > 0 ==> w == W(size, h - 1)
    ensures t.Node? && h > 0
    ensures |d| <= w ==> Closed(H, size, t.l, h - 1, d, false) == true && t.l.cell.sent == 0
    ensures |d| > w ==> && Closed(H, size, t.l, h - 1, d[..w], false) == true
                        && Closed(H, size, t.r, h - 1, d[w..], false) == true
                        && (t.l.cell.sent == 0 || t.r.cell.sent == 0)
  {
  }

  /** No schedule gets stuck before the result is out. */
  lemma {:induction false} Progress(H: BaseHash, size: nat, t: Tree, h: nat, d: Bytes) returns (act: Act)
    requires Rooted(H, size, t, h, d) && Results(size, t, h, |d|) == 0
    ensures Enabled(t, act)
    decreases t
  {
    if t.Leaf? || h == 0 || |d| > W(size, h - 1) {
      act := ClosedProgress(H, size, t, h, d, true);
    } else {
      var a := Progress(H, size, t.l, h - 1, d);
      act := Left(a);
    }
  }

  /**
   Any schedule whatsoever of the goroutines of a rooted tree: at most one result comes out and it is
   the reference hash; once no goroutine can move, it has come out.  Then every node with two inputs
   has been hashed exactly once.
   */
  lemma {:induction false} EverySchedule(H: BaseHash, size: nat, t: Tree, h: nat, d: Bytes, acts: seq<Act>)
    requires 0 < size && Rooted(H, size, t, h, d) && Results(size, t, h, |d|) <= 1
    ensures var (t', out) := Run(H, t, acts);
            && Rooted(H, size, t', h, d)
            && Results(size, t', h, |d|) == Results(size, t, h, |d|) + |out| <= 1
            && (out == [] || out == [Root(H, size, d)])
            && ((forall act :: !Enabled(t', act)) ==> Results(size, t', h, |d|) == 1)
            && (Results(size, t', h, |d|) == 1 ==> AllHashedOnce(size, t', h, |d|))
    decreases |acts|
  {
    if acts == [] {
      if Results(size, t, h, |d|) == 0 {
        var act := Progress(H, size, t, h, d);
      } else {
        RootedHashedOnce(H, size, t, h, d);
      }
    } else {
      RootedStep(H, size, t, h, d, acts[0]);
      EverySchedule(H, size, Exec(H, t, acts[0]).0, h, d, acts[1..]);
    }
  }

  // ---------------------------------------------------------------- the last segment

  /** The marks `finalise` leaves on the way up to a root: from height `lo` on, and no leftmost node below it. */
  ghost predicate Finalised(trail: seq<Stop>, lo: nat)
  {
    && (forall y :: lo <= y < |trail| ==> trail[y].unbalanced == trail[y].fromLeft && trail[y].right == [])
    && (forall y :: 0 <= y < |trail| - 1 ==> trail[y].index > 0)
    && (lo > 0 && |trail| > 0 ==> !trail[0].unbalanced)
  }

  lemma FinalisedBelow(sub: seq<Stop>, stop: Stop, lo: nat)
    requires |sub| > 0 && Finalised(sub + [stop], lo)
    ensures Finalised(sub, lo) && sub[|sub| - 1].index > 0
    ensures lo <= |sub| ==> stop.unbalanced == stop.fromLeft && stop.right == []
  {
    var all := sub + [stop];
    assert forall y :: 0 <= y < |sub| ==> sub[y] == all[y];
    assert all[|sub|] == stop && all[|sub| - 1] == sub[|sub| - 1];
  }

  lemma {:induction false} FinalisedPrimes(size: nat, t: Tree, h: nat, n: nat, s: Bytes, job: Job, lo: nat, root: bool)
    requires Way(size, t, h, n) && lo <= 1 && Finalised(Trail(size, t, h, n), lo)
    requires t.cell.root == root && (root <==> t.index == 0)
    requires lo == 0 <==> |s| <= size || (root && h == 0)
    requires JobFits(size, job, s, LeafAt(size, t, h, n), root && h == 0)
    ensures Primed(size, t, h, n, s, root, job)
    decreases h
  {
    if t.Node? {
      var w := W(size, h - 1);
      var stop := Stop(t.index, n < w, t.cell.unbalanced, t.cell.root, t.cell.right);
      if n < w {
        FinalisedBelow(Trail(size, t.l, h - 1, n), stop, lo);
        FinalisedPrimes(size, t.l, h - 1, n, s, job, lo, false);
      } else {
        FinalisedBelow(Trail(size, t.r, h - 1, n - w), stop, lo);
        FinalisedPrimes(size, t.r, h - 1, n - w, s, job, lo, false);
      }
    } else {
      assert Trail(size, t, h, n)[0] == Stop(t.index, true, t.cell.unbalanced, t.cell.root, t.cell.right);
    }
  }

  /** What handing over the last segment makes of the tree. */
  ghost predicate LaunchRooted(H: BaseHash, size: nat, t: Tree, h: nat, d: Bytes, s: Bytes, job: Job)
  {
    var t' := Launch(size, t, h, |d|, job);
    && Rooted(H, size, t', h, d + s) && Results(size, t', h, |d + s|) == 0
    && t'.cell == t.cell && t'.index == t.index && (t'.Leaf? <==> t.Leaf?)
  }

  lemma LaunchAtRoot(H: BaseHash, size: nat, t: Tree, h: nat, d: Bytes, s: Bytes, job: Job)
    requires 0 < size && Open(H, size, t, h, d) && LaunchClosed(H, size, t, h, d, s, true, job)
    ensures LaunchRooted(H, size, t, h, d, s, job)
  {
  }

  lemma LaunchBelowRoot(H: BaseHash, size: nat, t: Tree, h: nat, d: Bytes, s: Bytes, job: Job)
    requires 0 < size && Open(H, size, t, h, d) && t.Node?
    requires |d| < W(size, h - 1) && |d| + |s| <= W(size, h - 1) && LaunchRooted(H, size, t.l, h - 1, d, s, job)
    ensures LaunchRooted(H, size, t, h, d, s, job)
  {
    var l' := Launch(size, t.l, h - 1, |d|, job);
    assert Launch(size, t, h, |d|, job) == t.(l := l');
  }

  /** Once `finalise` has marked the way up to height `top`, handing over the last segment leaves a rooted tree. */
  lemma {:induction false} FinalLaunch(H: BaseHash, size: nat, t: Tree, h: nat, d: Bytes, s: Bytes, job: Job, lo: nat,
                                       top: nat)
    requires 0 < size && Open(H, size, t, h, d) && Way(size, t, h, |d|)
    requires |Trail(size, t, h, |d|)| == h + 1 && top <= h && lo <= 1
    requires Finalised(Trail(size, t, h, |d|)[..top + 1], lo)
    requires Trail(size, t, h, |d|)[top].index == 0 && Trail(size, t, h, |d|)[top].root && t.index == 0
    requires |s| <= 2 * size && (|s| > 0 || top == 0) && (lo == 0 <==> |s| <= size || top == 0)
    requires JobFits(size, job, s, LeafAt(size, t, h, |d|), top == 0)
    ensures LaunchRooted(H, size, t, h, d, s, job)
    decreases h
  {
    if top == h {
      FinalLaunchHere(H, size, t, h, d, s, job, lo);
    } else {
      FinalLaunchBelow(H, size, t, h, d, top);
      OpenRoom(H, size, t.l, h - 1, d);
      FinalLaunch(H, size, t.l, h - 1, d, s, job, lo, top);
      LaunchBelowRoot(H, size, t, h, d, s, job);
    }
  }

  lemma FinalLaunchHere(H: BaseHash, size: nat, t: Tree, h: nat, d: Bytes, s: Bytes, job: Job, lo: nat)
    requires 0 < size && Open(H, size, t, h, d) && Way(size, t, h, |d|)
    requires |Trail(size, t, h, |d|)| == h + 1 && lo <= 1
    requires Finalised(Trail(size, t, h, |d|)[..h + 1], lo)
    requires Trail(size, t, h, |d|)[h].root && t.index == 0
    requires |s| <= 2 * size && (|s| > 0 || h == 0) && (lo == 0 <==> |s| <= size || h == 0)
    requires JobFits(size, job, s, LeafAt(size, t, h, |d|), h == 0)
    ensures LaunchRooted(H, size, t, h, d, s, job)
  {
    var trail := Trail(size, t, h, |d|);
    assert trail[..h + 1] == trail;
    assert t.cell.root;
    FinalisedPrimes(size, t, h, |d|, s, job, lo, true);
    LaunchCloses(H, size, t, h, d, s, true, job);
    LaunchAtRoot(H, size, t, h, d, s, job);
  }

  /** Above the root the way comes from the left. */
  lemma FinalLaunchBelow(H: BaseHash, size: nat, t: Tree, h: nat, d: Bytes, top: nat)
    requires Open(H, size, t, h, d) && Way(size, t, h, |d|) && |Trail(size, t, h, |d|)| == h + 1 && top < h
    requires Trail(size, t, h, |d|)[top].index == 0 && t.index == 0
    ensures t.Node? && |d| < W(size, h - 1) && t.l.index == 0 && Way(size, t.l, h - 1, |d|)
    ensures |Trail(size, t.l, h - 1, |d|)| == h
    ensures Trail(size, t.l, h - 1, |d|)[top] == Trail(size, t, h, |d|)[top]
    ensures Trail(size, t.l, h - 1, |d|)[..top + 1] == Trail(size, t, h, |d|)[..top + 1]
  {
    var trail := Trail(size, t, h, |d|);
    TrailShape(size, t, h, |d|);
    ZeroStaysZero(trail, top, h - 1);
    assert Trail(size, t.l, h - 1, |d|) == trail[..h];
  }

  lemma {:induction false} ZeroStaysZero(trail: seq<Stop>, x: nat, y: nat)
    requires Walkable(trail) && x <= y < |trail| && trail[x].index == 0
    ensures trail[y].index == 0
    decreases y
  {
    if x < y {
      ZeroStaysZero(trail, x, y - 1);
    }
  }

  // ---------------------------------------------------------------- releasing the tree

  /** `releaseTree`: clear the marks from the leaf at byte `n` to the top, which stays a root. */
  function Release(size: nat, t: Tree, h: nat, n: nat, top: bool): Tree
  {
    var c := t.cell.(unbalanced := false, root := t.cell.root && top);
    if t.Leaf? || h == 0 then t.(cell := c)
    else
      var w := W(size, h - 1);
      if n < w then t.(cell := c, l := Release(size, t.l, h - 1, n, false))
      else t.(cell := c, r := Release(size, t.r, h - 1, n - w, false))
  }

  /** Reserving a tree starts a new history; no field of the nodes changes. */
  function Reserve(t: Tree): Tree
  {
    var c := t.cell.(base := t.cell.state, sent := 0, hashes := 0);
    if t.Leaf? then t.(cell := c) else t.(cell := c, l := Reserve(t.l), r := Reserve(t.r))
  }

  /** No toggle counter has wrapped around to a negative value. */
  ghost predicate NoneWrapped(t: Tree)
  {
    0 <= t.cell.state && (t.Leaf? || (NoneWrapped(t.l) && NoneWrapped(t.r)))
  }

  /** Byte `n` is where a leaf starts. */
  ghost predicate Aligned(size: nat, h: nat, n: nat)
  {
    if h == 0 then n == 0
    else
      var w := W(size, h - 1);
      if n < w then Aligned(size, h - 1, n) else Aligned(size, h - 1, n - w)
  }

  lemma {:induction false} AlignedRoom(size: nat, h: nat, n: nat)
    requires Aligned(size, h, n)
    ensures n + 2 * size <= W(size, h)
  {
    if h > 0 {
      var w := W(size, h - 1);
      AlignedRoom(size, h - 1, if n < w then n else n - w);
    }
  }

  lemma {:induction false} IdleReserves(t: Tree, h: nat, top: bool)
    requires Idle(t, h, top)
    ensures Idle(Reserve(t), h, top) && Reserve(t).index == t.index
    decreases h
  {
    if t.Node? { IdleReserves(t.l, h - 1, false); IdleReserves(t.r, h - 1, false); }
  }

  lemma ClosedSent(H: BaseHash, size: nat, t: Tree, h: nat, d: Bytes, root: bool)
    requires Closed(H, size, t, h, d, root) && t.cell.sent == 1
    ensures t.lin == [] && t.rin == [] && Even(t.cell.state)
    ensures t.Leaf? <==> h == 0
    ensures t.Node? ==> t.l.cell.sent == 1 && Linked(t)
    ensures t.Node? && |d| > W(size, h - 1) ==> t.r.cell.sent == 1 && !t.cell.unbalanced
    ensures t.Leaf? && |d| > size && !root ==> !t.cell.unbalanced
  {
  }

  lemma {:induction false} FullRestores(H: BaseHash, size: nat, t: Tree, h: nat, d: Bytes)
    requires 0 < size && Closed(H, size, t, h, d, false) == true && t.cell.sent == 1 && |d| == W(size, h)
    requires NoneWrapped(t) == true
    ensures Idle(Reserve(t), h, false) == true && Reserve(t).index == t.index
    decreases h
  {
    if t.Leaf? {
      FullLeaf(H, size, t, h, d);
    } else {
      FullNode(H, size, t, h, d);
      var left, right := FullParts(H, size, t, h, d);
      FullRestores(H, size, t.l, h - 1, left);
      FullRestores(H, size, t.r, h - 1, right);
      IdleAbove(t, h);
    }
  }

  lemma FullLeaf(H: BaseHash, size: nat, t: Tree, h: nat, d: Bytes)
    requires 0 < size && Closed(H, size, t, h, d, false) && t.cell.sent == 1 && |d| == W(size, h) && NoneWrapped(t)
    requires t.Leaf?
    ensures Idle(Reserve(t), h, false) == true && Reserve(t).index == t.index
  {
    ClosedSent(H, size, t, h, d, false);
  }

  lemma FullNode(H: BaseHash, size: nat, t: Tree, h: nat, d: Bytes)
    requires Closed(H, size, t, h, d, false) && t.cell.sent == 1 && |d| == W(size, h) && t.Node? && NoneWrapped(t)
    ensures h > 0 && |d| == 2 * W(size, h - 1)
    ensures Linked(t) && t.lin == [] && t.rin == [] && Even(t.cell.state) && 0 <= t.cell.state
  {
    ClosedSent(H, size, t, h, d, false);
  }

  lemma FullParts(H: BaseHash, size: nat, t: Tree, h: nat, d: Bytes) returns (left: Bytes, right: Bytes)
    requires Closed(H, size, t, h, d, false) && t.cell.sent == 1 && NoneWrapped(t) && t.Node? && h > 0 && 0 < size
    requires |d| == 2 * W(size, h - 1)
    ensures Closed(H, size, t.l, h - 1, left, false) == true && Closed(H, size, t.r, h - 1, right, false) == true
    ensures t.l.cell.sent == 1 && t.r.cell.sent == 1 && |left| == W(size, h - 1) == |right|
    ensures NoneWrapped(t.l) == true && NoneWrapped(t.r) == true && !t.cell.unbalanced && !t.cell.root
  {
    left, right := d[..W(size, h - 1)], d[W(size, h - 1)..];
  }

  lemma IdleAbove(t: Tree, h: nat)
    requires t.Node? && h > 0 && Linked(t) && t.lin == [] && t.rin == [] && Even(t.cell.state) && 0 <= t.cell.state
    requires !t.cell.unbalanced && !t.cell.root
    requires Idle(Reserve(t.l), h - 1, false) == true && Reserve(t.l).index == t.l.index
    requires Idle(Reserve(t.r), h - 1, false) == true && Reserve(t.r).index == t.r.index
    ensures Idle(Reserve(t), h, false) == true && Reserve(t).index == t.index
  {
    assert Reserve(t).l == Reserve(t.l) && Reserve(t).r == Reserve(t.r);
  }

  /** Released and reserved again, the tree is as good as new. */
  ghost predicate Restored(size: nat, t: Tree, h: nat, n: nat, top: bool)
  {
    var t' := Reserve(Release(size, t, h, n, top));
    Idle(t', h, top) && t'.index == t.index
  }

  lemma RestoredLeft(size: nat, t: Tree, h: nat, n: nat, top: bool)
    requires t.Node? && h > 0 && n < W(size, h - 1) && Linked(t)
    requires t.lin == [] && t.rin == [] && Even(t.cell.state) && 0 <= t.cell.state && (top ==> t.cell.root)
    requires Restored(size, t.l, h - 1, n, false) && Idle(t.r, h - 1, false)
    ensures Restored(size, t, h, n, top)
  {
    IdleReserves(t.r, h - 1, false);
  }

  lemma RestoredRight(size: nat, t: Tree, h: nat, n: nat, m: nat, top: bool)
    requires t.Node? && h > 0 && n >= W(size, h - 1) && Linked(t) && m == n - W(size, h - 1)
    requires t.lin == [] && t.rin == [] && Even(t.cell.state) && 0 <= t.cell.state && (top ==> t.cell.root)
    requires Restored(size, t.r, h - 1, m, false) == true
    requires Idle(Reserve(t.l), h - 1, false) == true && Reserve(t.l).index == t.l.index
    ensures Restored(size, t, h, n, top) == true
  {
  }

  lemma {:induction false} ClosedRestores(H: BaseHash, size: nat, t: Tree, h: nat, d: Bytes, root: bool, n: nat,
                                          top: bool)
    requires 0 < size && Closed(H, size, t, h, d, root) && t.cell.sent == 1 && NoneWrapped(t)
    requires Aligned(size, h, n) && n <= |d| <= n + 2 * size && (|d| > n || n == 0) && (top ==> root)
    ensures Restored(size, t, h, n, top) == true
    decreases h
  {
    ClosedSent(H, size, t, h, d, root);
    if t.Node? {
      if n < W(size, h - 1) {
        AlignedRoom(size, h - 1, n);
        assert |d| <= W(size, h - 1) && Idle(t.r, h - 1, false);
        ClosedRestores(H, size, t.l, h - 1, d, false, n, false);
        RestoredLeft(size, t, h, n, top);
      } else {
        ClosedRestoresRight(H, size, t, h, d, root, n, top);
      }
    }
  }

  lemma {:induction false} ClosedRestoresRight(H: BaseHash, size: nat, t: Tree, h: nat, d: Bytes, root: bool, n: nat,
                                               top: bool)
    requires 0 < size && Closed(H, size, t, h, d, root) && t.cell.sent == 1 && NoneWrapped(t)
    requires Aligned(size, h, n) && n <= |d| <= n + 2 * size && (|d| > n || n == 0) && (top ==> root)
    requires t.Node? && n >= W(size, h - 1)
    ensures Restored(size, t, h, n, top) == true
    decreases h, 0
  {
    var w := W(size, h - 1);
    assert |d| > n >= w;
    var left, right, m := d[..w], d[w..], n - w;
    ClosedSent(H, size, t, h, d, root);
    RightParts(H, size, t, h, d, root, n, w, left, right, m);
    FullRestores(H, size, t.l, h - 1, left);
    ClosedRestores(H, size, t.r, h - 1, right, false, m, false);
    RestoredRight(size, t, h, n, m, top);
  }

  /** The left subtree is full, and the right one has the rest of the data. */
  lemma RightParts(H: BaseHash, size: nat, t: Tree, h: nat, d: Bytes, root: bool, n: nat, w: nat, left: Bytes,
                   right: Bytes, m: nat)
    requires Closed(H, size, t, h, d, root) && t.cell.sent == 1 && NoneWrapped(t) && t.Node? && h > 0
    requires Aligned(size, h, n) && n < |d| <= n + 2 * size
    requires w == W(size, h - 1) <= n && left == d[..w] && right == d[w..] && m == n - w
    ensures Closed(H, size, t.l, h - 1, left, false) == true && |left| == w
    ensures Closed(H, size, t.r, h - 1, right, false) == true && t.l.cell.sent == 1 && t.r.cell.sent == 1
    ensures NoneWrapped(t.l) == true && NoneWrapped(t.r) == true && Aligned(size, h - 1, m) == true
    ensures m <= |right| <= m + 2 * size && (|right| > m || m == 0)
  {
  }

  /** Once the result is out, the released tree is as good as new, provided no counter wrapped. */
  lemma {:induction false} Restores(H: BaseHash, size: nat, t: Tree, h: nat, d: Bytes, n: nat, top: bool)
    requires 0 < size && Rooted(H, size, t, h, d) && Results(size, t, h, |d|) == 1 && NoneWrapped(t)
    requires Aligned(size, h, n) && n <= |d| <= n + 2 * size && (|d| > n || n == 0) && (top ==> t.cell.root)
    ensures Restored(size, t, h, n, top)
    decreases h
  {
    if t.Leaf? || h == 0 || |d| > W(size, h - 1) {
      ClosedRestores(H, size, t, h, d, true, n, top);
    } else {
      Restores(H, size, t.l, h - 1, d, n, false);
      RestoredLeft(size, t, h, n, top);
    }
  }

  /** Conversely, a tree with a wrapped counter is not as good as new. */
  lemma {:induction false} RestoredNoneWrapped(size: nat, t: Tree, h: nat, n: nat, top: bool)
    requires Idle(Reserve(Release(size, t, h, n, top)), h, top)
    ensures NoneWrapped(t)
    decreases t
  {
    if t.Node? {
      var w := W(size, h - 1);
      if n < w {
        RestoredNoneWrapped(size, t.l, h - 1, n, false);
        ReservedNoneWrapped(t.r, h - 1);
      } else {
        ReservedNoneWrapped(t.l, h - 1);
        RestoredNoneWrapped(size, t.r, h - 1, n - w, false);
      }
    }
  }

  lemma {:induction false} ReservedNoneWrapped(t: Tree, h: nat)
    requires Idle(Reserve(t), h, false)
    ensures NoneWrapped(t)
    decreases t
  {
    if t.Node? { ReservedNoneWrapped(t.l, h - 1); ReservedNoneWrapped(t.r, h - 1); }
  }

  lemma {:induction false} OpenAligned(H: BaseHash, size: nat, t: Tree, h: nat, d: Bytes)
    requires Open(H, size, t, h, d)
    ensures Aligned(size, h, |d|)
    decreases h
  {
    if t.Node? {
      var w := W(size, h - 1);
      if |d| < w { OpenAligned(H, size, t.l, h - 1, d); } else { OpenAligned(H, size, t.r, h - 1, d[w..]); }
    }
  }

  // ---------------------------------------------------------------- wear of the counters

  /** All counters started this round at no more than `b`. */
  ghost predicate BaseBelow(t: Tree, b: int)
  {
    t.cell.base <= b && (t.Leaf? || (BaseBelow(t.l, b) && BaseBelow(t.r, b)))
  }

  ghost predicate StateBelow(t: Tree, b: int)
  {
    t.cell.state <= b && (t.Leaf? || (StateBelow(t.l, b) && StateBelow(t.r, b)))
  }

  lemma {:induction false} BaseStep(H: BaseHash, t: Tree, b: int, act: Act)
    requires BaseBelow(t, b)
    ensures BaseBelow(Exec(H, t, act).0, b)
    decreases t
  {
    if t.Node? {
      if act.Left? { BaseStep(H, t.l, b, act.act); }
      if act.Right? { BaseStep(H, t.r, b, act.act); }
    }
  }

  lemma {:induction false} BaseLaunch(size: nat, t: Tree, h: nat, n: nat, job: Job, b: int)
    requires BaseBelow(t, b)
    ensures BaseBelow(Launch(size, t, h, n, job), b)
    decreases t
  {
    if t.Node? && h > 0 {
      var w := W(size, h - 1);
      if n < w { BaseLaunch(size, t.l, h - 1, n, job, b); } else { BaseLaunch(size, t.r, h - 1, n - w, job, b); }
    }
  }

  lemma {:induction false} BaseMark(size: nat, t: Tree, h: nat, n: nat, x: nat, isLeft: bool, b: int)
    requires BaseBelow(t, b)
    ensures BaseBelow(Mark(size, t, h, n, x, isLeft), b)
    decreases t
  {
    if t.Node? && h > x {
      var w := W(size, h - 1);
      if n < w {
        BaseMark(size, t.l, h - 1, n, x, isLeft, b);
      } else {
        BaseMark(size, t.r, h - 1, n - w, x, isLeft, b);
      }
    }
  }

  lemma {:induction false} IdleWear(t: Tree, h: nat, top: bool, b: int)
    requires Idle(t, h, top) && BaseBelow(t, b)
    ensures NoneWrapped(t) && StateBelow(t, b + 2)
    decreases h
  {
    if t.Node? { IdleWear(t.l, h - 1, false, b); IdleWear(t.r, h - 1, false, b); }
  }

  lemma ClosedCounter(H: BaseHash, size: nat, t: Tree, h: nat, d: Bytes, root: bool)
    requires Closed(H, size, t, h, d, root)
    ensures Resting(t.cell) || Odd(t.cell) || Paired(t.cell)
  {
  }

  lemma {:induction false} ClosedWear(H: BaseHash, size: nat, t: Tree, h: nat, d: Bytes, root: bool, b: int)
    requires Closed(H, size, t, h, d, root) && BaseBelow(t, b) && b + 2 < INT32_LIMIT
    ensures NoneWrapped(t) && StateBelow(t, b + 2)
    decreases h
  {
    ClosedCounter(H, size, t, h, d, root);
    if t.Node? {
      var w := W(size, h - 1);
      ClosedBelow(H, size, t, h, d, root, w);
      if |d| <= w {
        ClosedWear(H, size, t.l, h - 1, d, false, b);
        IdleWear(t.r, h - 1, false, b);
      } else {
        var left, right := d[..w], d[w..];
        ClosedWear(H, size, t.l, h - 1, left, false, b);
        ClosedWear(H, size, t.r, h - 1, right, false, b);
      }
    }
  }

  /** The subtrees of a subtree that has all its data have theirs. */
  lemma ClosedBelow(H: BaseHash, size: nat, t: Tree, h: nat, d: Bytes, root: bool, w: nat)
    requires Closed(H, size, t, h, d, root) && t.Node? && h > 0 && w == W(size, h - 1)
    ensures |d| <= w ==> Closed(H, size, t.l, h - 1, d, false) == true && Idle(t.r, h - 1, false) == true
    ensures |d| > w ==> && Closed(H, size, t.l, h - 1, d[..w], false) == true
                        && Closed(H, size, t.r, h - 1, d[w..], false) == true
  {
  }

  /** A round adds at most two to any counter. */
  lemma {:induction false} RootedWear(H: BaseHash, size: nat, t: Tree, h: nat, d: Bytes, b: int)
    requires Rooted(H, size, t, h, d) && BaseBelow(t, b) && b + 2 < INT32_LIMIT
    ensures NoneWrapped(t) && StateBelow(t, b + 2)
    decreases t
  {
    if t.Leaf? || h == 0 || |d| > W(size, h - 1) {
      ClosedWear(H, size, t, h, d, true, b);
    } else {
      RootedWear(H, size, t.l, h - 1, d, b);
      IdleWear(t.r, h - 1, false, b);
    }
  }

  lemma {:induction false} ReserveWear(t: Tree, b: int)
    requires StateBelow(t, b)
    ensures BaseBelow(Reserve(t), b)
    decreases t
  {
    if t.Node? { ReserveWear(t.l, b); ReserveWear(t.r, b); }
  }

  lemma {:induction false} ReleaseWear(size: nat, t: Tree, h: nat, n: nat, top: bool, b: int)
    requires StateBelow(t, b)
    ensures StateBelow(Release(size, t, h, n, top), b)
    decreases t
  {
    if t.Node? && h > 0 {
      var w := W(size, h - 1);
      if n < w { ReleaseWear(size, t.l, h - 1, n, false, b); } else { ReleaseWear(size, t.r, h - 1, n - w, false, b); }
    }
  }

  lemma HereAlone(H: BaseHash, c: Cell, j: Job, isLeft: bool)
    ensures Here(H, c, [j], 0, isLeft)
         == if j.pc.Finish? then (c.(sent := c.sent + 1), [], Leave(c, j))
            else (Local(H, c, j, isLeft).0, Local(H, c, j, isLeft).1, Nothing)
  {
    var out := Local(H, c, j, isLeft).1;
    assert [j][..0] == [] && [j][1..] == [] && [] + out + [] == out;
  }

  /**
   A wrapped counter breaks the hasher: at a root whose counter is at the bottom of its range, the goroutine
   of the left input alone produces a result, from whatever was left in the right input.
   */
  lemma WrappedCounterEmitsEarly(H: BaseHash, a: Bytes, stale: Bytes, l: Tree, r: Tree)
    ensures var c := Cell([], stale, -INT32_LIMIT, false, true, -INT32_LIMIT, 0, 0);
            var t := Node(0, c, [Job(Store, 0, 1, a)], [], l, r);
            Run(H, t, [HereL(0), HereL(0), HereL(0), HereL(0), HereL(0)]).1 == [H(a + stale)]
  {
    var go := HereL(0);
    var c := Cell([], stale, -INT32_LIMIT, false, true, -INT32_LIMIT, 0, 0);
    var c1 := c.(left := a);
    var c2 := c1.(state := 1 - INT32_LIMIT);
    var t0 := Node(0, c, [Job(Store, 0, 1, a)], [], l, r);
    var t1 := Node(0, c1, [Job(Test, 0, 1, a)], [], l, r);
    var t2 := Node(0, c1, [Job(Toggle, 0, 1, a)], [], l, r);
    var t3 := Node(0, c2, [Job(Combine, 0, 1, a)], [], l, r);
    var c3 := c2.(hashes := 1);
    var t4 := Node(0, c3, [Job(Finish, 1, 1, H(a + stale))], [], l, r);
    HereAlone(H, c, t0.lin[0], true);
    HereAlone(H, c1, t1.lin[0], true);
    HereAlone(H, c1, t2.lin[0], true);
    HereAlone(H, c2, t3.lin[0], true);
    HereAlone(H, c3, t4.lin[0], true);
    assert Exec(H, t0, go) == (t1, Nothing) && Exec(H, t1, go) == (t2, Nothing);
    assert Exec(H, t2, go) == (t3, Nothing) && Exec(H, t3, go) == (t4, Nothing);
    assert Exec(H, t4, go).1 == Emit(H(a + stale));
    var acts := [go, go, go, go, go];
    assert acts[1..] == [go, go, go, go] && acts[1..][1..] == [go, go, go];
    assert [go, go, go][1..] == [go, go] && [go, go][1..] == [go] && [go][1..] == [];
    assert Run(H, t4, [go]).1 == [H(a + stale)];
    assert Run(H, t3, [go, go]).1 == [H(a + stale)];
    assert Run(H, t2, [go, go, go]).1 == [H(a + stale)];
    assert Run(H, t1, [go, go, go, go]).1 == [H(a + stale)];
  }
}
