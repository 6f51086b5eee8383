/**
 The life of a tree between being reserved and being released: filled segment by segment
 (`Open`), marked by `finalise` while goroutines keep running, handed the last segment
 (`Rooted`), drained, and released as good as new (`Idle`).
 */
module HasherPhases {
  import opened Bmt
  import opened HasherTree
  import opened HasherInvariant

  // ---------------------------------------------------------------- filling

  /** The subtree holds the open segment; the data `d` before it has been handed to goroutines. */
  ghost predicate Open(H: BaseHash, size: nat, t: Tree, h: nat, d: Bytes)
  {
    && |d| < W(size, h)
    && t.cell.sent == 0 && t.cell.hashes == 0 && t.rin == []
    && (t.index > 0 ==> !t.cell.root)
    && if t.Leaf? then h == 0 && d == [] && t.lin == [] && Resting(t.cell)
       else
         && h > 0 && Linked(t)
         && var w := W(size, h - 1);
         if |d| < w then
           && Open(H, size, t.l, h - 1, d) && Idle(t.r, h - 1, false)
           && t.lin == [] && Resting(t.cell)
         else
           && Closed(H, size, t.l, h - 1, d[..w], false) && Open(H, size, t.r, h - 1, d[w..])
           && HalfInput(t.cell, t.lin, t.l.cell.sent, Out(H, size, h - 1, d[..w]))
  }

  /** A node with two inputs whose right one is still to come. */
  ghost predicate HalfInput(c: Cell, lin: seq<Job>, ls: nat, vl: Bytes)
  {
    && !c.unbalanced
    && (|| ((Absent(ls, lin) || Early(ls, lin, c.left, vl)) && Resting(c))
        || (Stored(ls, lin, c.left, vl) && Odd(c)))
  }

  lemma {:induction false} OpenRoom(H: BaseHash, size: nat, t: Tree, h: nat, d: Bytes)
    requires Open(H, size, t, h, d)
    ensures |d| + 2 * size <= W(size, h)
    decreases t
  {
    if t.Node? {
      var w := W(size, h - 1);
      if |d| < w { OpenRoom(H, size, t.l, h - 1, d); } else { OpenRoom(H, size, t.r, h - 1, d[w..]); }
    }
  }

  /** A node on the way from the open leaf to the top: where the way enters it, and its marks. */
  datatype Stop = Stop(index: nat, fromLeft: bool, unbalanced: bool, root: bool, right: Bytes)

  /** The way from the leaf that starts at byte `n` to the top, indexed by height. */
  function Trail(size: nat, t: Tree, h: nat, n: nat): (trail: seq<Stop>)
    ensures |trail| > 0 && trail[|trail| - 1].index == t.index
  {
    var c := t.cell;
    if t.Leaf? || h == 0 then [Stop(t.index, true, c.unbalanced, c.root, c.right)]
    else
      var w := W(size, h - 1);
      (if n < w then Trail(size, t.l, h - 1, n) else Trail(size, t.r, h - 1, n - w))
      + [Stop(t.index, n < w, c.unbalanced, c.root, c.right)]
  }

  /** How the stops of a way hang together. */
  ghost predicate Walkable(trail: seq<Stop>)
  {
    && (forall x, y :: 0 <= x < y < |trail| && y == x + 1 ==>
          && trail[y].index == trail[x].index / 2
          && (trail[y].fromLeft <==> trail[x].index % 2 == 0))
    && (forall x :: 0 <= x < |trail| ==> (trail[x].index > 0 ==> !trail[x].root))
    && (forall x :: 0 <= x < |trail| ==> (!trail[x].fromLeft ==> !trail[x].unbalanced))
  }

  lemma WalkOn(trail: seq<Stop>, stop: Stop)
    requires |trail| > 0 && Walkable(trail) == true
    requires stop.fromLeft <==> trail[|trail| - 1].index % 2 == 0
    requires stop.index == trail[|trail| - 1].index / 2
    requires (stop.index > 0 ==> !stop.root) && (!stop.fromLeft ==> !stop.unbalanced)
    ensures Walkable(trail + [stop]) == true
  {
  }

  /** What an open subtree says about the way through it. */
  ghost predicate Way(size: nat, t: Tree, h: nat, n: nat)
  {
    && (t.index > 0 ==> !t.cell.root)
    && if t.Leaf? then h == 0
       else
         && h > 0 && Linked(t)
         && var w := W(size, h - 1);
         if n < w then Way(size, t.l, h - 1, n) else !t.cell.unbalanced && Way(size, t.r, h - 1, n - w)
  }

  lemma {:induction false} OpenWay(H: BaseHash, size: nat, t: Tree, h: nat, d: Bytes)
    requires Open(H, size, t, h, d)
    ensures Way(size, t, h, |d|)
    decreases t
  {
    if t.Node? {
      var w := W(size, h - 1);
      if |d| < w { OpenWay(H, size, t.l, h - 1, d); } else { OpenWay(H, size, t.r, h - 1, d[w..]); }
    }
  }

  lemma {:induction false} TrailShape(size: nat, t: Tree, h: nat, n: nat)
    requires Way(size, t, h, n)
    ensures |Trail(size, t, h, n)| == h + 1 && Walkable(Trail(size, t, h, n)) == true
    decreases h
  {
    if t.Node? {
      var w := W(size, h - 1);
      if n < w {
        TrailShape(size, t.l, h - 1, n);
        TrailOn(size, t, h, n, Trail(size, t.l, h - 1, n));
      } else {
        TrailShape(size, t.r, h - 1, n - w);
        TrailOn(size, t, h, n, Trail(size, t.r, h - 1, n - w));
      }
    }
  }

  lemma TrailOn(size: nat, t: Tree, h: nat, n: nat, below: seq<Stop>)
    requires t.Node? && h > 0 && Linked(t) && (t.index > 0 ==> !t.cell.root)
    requires n >= W(size, h - 1) ==> !t.cell.unbalanced
    requires below ==
               if n < W(size, h - 1) then Trail(size, t.l, h - 1, n) else Trail(size, t.r, h - 1, n - W(size, h - 1))
    requires |below| == h && Walkable(below) == true
    ensures |Trail(size, t, h, n)| == h + 1 && Walkable(Trail(size, t, h, n)) == true
  {
    var c := t.cell;
    var stop := Stop(t.index, n < W(size, h - 1), c.unbalanced, c.root, c.right);
    WalkOn(below, stop);
    assert Trail(size, t, h, n) == below + [stop];
  }

  /** The act keeps the subtree open, lets nothing out, and leaves the marks on the way alone. */
  ghost predicate OpenKept(H: BaseHash, size: nat, t: Tree, h: nat, d: Bytes, act: Act)
  {
    var (t', up) := Exec(H, t, act);
    && Open(H, size, t', h, d) && t'.index == t.index && (t'.Leaf? <==> t.Leaf?) && up.Nothing?
    && Trail(size, t', h, |d|) == Trail(size, t, h, |d|)
  }

  lemma HalfInputHere(H: BaseHash, c: Cell, lin: seq<Job>, k: nat, ls: nat, vl: Bytes)
    requires k < |lin| && HalfInput(c, lin, ls, vl)
    ensures var (c', js, up) := Here(H, c, lin, k, true);
            && HalfInput(c', js, ls, vl) && up.Nothing?
            && c' == c.(left := c'.left, state := c'.state)
  {
    assert lin[..k] == [] && lin[k + 1..] == [];
  }

  lemma OpenHere(H: BaseHash, size: nat, t: Tree, h: nat, d: Bytes, act: Act)
    requires Open(H, size, t, h, d) && (act.HereL? || act.HereR?)
    ensures OpenKept(H, size, t, h, d, act)
  {
    if act.HereL? && act.k < |t.lin| {
      var w := W(size, h - 1);
      HalfInputHere(H, t.cell, t.lin, act.k, t.l.cell.sent, Out(H, size, h - 1, d[..w]));
      var (c', js, up) := Here(H, t.cell, t.lin, act.k, true);
      var t' := t.(cell := c', lin := js);
      assert Exec(H, t, act) == (t', Nothing);
      assert Open(H, size, t', h, d);
    } else {
      assert Exec(H, t, act) == (t, Nothing);
    }
  }

  lemma OpenBelowL(H: BaseHash, size: nat, t: Tree, h: nat, d: Bytes, a: Act)
    requires 0 < size && Open(H, size, t, h, d) && t.Node?
    requires |d| < W(size, h - 1) && OpenKept(H, size, t.l, h - 1, d, a)
    ensures OpenKept(H, size, t, h, d, Left(a))
  {
    var l' := Exec(H, t.l, a).0;
    assert Exec(H, t, Left(a)) == (t.(l := l'), Nothing);
    assert Open(H, size, t.(l := l'), h, d);
  }

  lemma OpenBelowFull(H: BaseHash, size: nat, t: Tree, h: nat, d: Bytes, a: Act)
    requires 0 < size && Open(H, size, t, h, d) && t.Node?
    requires |d| >= W(size, h - 1) && ClosedKept(H, size, t.l, h - 1, d[..W(size, h - 1)], false, a)
    ensures OpenKept(H, size, t, h, d, Left(a))
  {
    var (l', up) := Exec(H, t.l, a);
    var t' := if up.Climb? then t.(l := l', lin := t.lin + [up.job]) else t.(l := l');
    assert Exec(H, t, Left(a)) == (t', Nothing);
    assert Open(H, size, t', h, d);
  }

  lemma OpenBelowR(H: BaseHash, size: nat, t: Tree, h: nat, d: Bytes, a: Act)
    requires 0 < size && Open(H, size, t, h, d) && t.Node?
    requires |d| >= W(size, h - 1) && OpenKept(H, size, t.r, h - 1, d[W(size, h - 1)..], a)
    ensures OpenKept(H, size, t, h, d, Right(a))
  {
    var w := W(size, h - 1);
    var r' := Exec(H, t.r, a).0;
    assert Exec(H, t, Right(a)) == (t.(r := r'), Nothing);
    assert Open(H, size, r', h - 1, d[w..]);
    assert Open(H, size, t.(r := r'), h, d);
  }

  /** While a segment is open no act makes the tree produce a result or touch the marks. */
  lemma {:induction false} OpenStep(H: BaseHash, size: nat, t: Tree, h: nat, d: Bytes, act: Act)
    requires 0 < size && Open(H, size, t, h, d)
    ensures OpenKept(H, size, t, h, d, act)
    decreases t
  {
    match act
    case HereL(_) => OpenHere(H, size, t, h, d, act);
    case HereR(_) => OpenHere(H, size, t, h, d, act);
    case Left(a) =>
      if t.Node? {
        var w := W(size, h - 1);
        if |d| < w {
          OpenStep(H, size, t.l, h - 1, d, a);
          OpenBelowL(H, size, t, h, d, a);
        } else {
          ClosedStep(H, size, t.l, h - 1, d[..w], false, a);
          OpenBelowFull(H, size, t, h, d, a);
        }
      }
    case Right(a) =>
      if t.Node? {
        var w := W(size, h - 1);
        if |d| < w {
          IdleStays(H, t.r, h - 1, a);
        } else {
          OpenStep(H, size, t.r, h - 1, d[w..], a);
          OpenBelowR(H, size, t, h, d, a);
        }
      }
  }

  // ---------------------------------------------------------------- writeSegment

  /** Start a goroutine at the leaf whose data begins at byte `n`. */
  function Launch(size: nat, t: Tree, h: nat, n: nat, job: Job): Tree
  {
    if t.Leaf? || h == 0 then t.(lin := t.lin + [job])
    else
      var w := W(size, h - 1);
      if n < w then t.(l := Launch(size, t.l, h - 1, n, job)) else t.(r := Launch(size, t.r, h - 1, n - w, job))
  }

  /** The goroutine that `writeSegment` starts at leaf `i` with segment `s` and depth `d`. */
  function SegmentJob(size: nat, parent: bool, i: nat, s: Bytes, d: nat): Job
  {
    if |s| > size && parent then Job(HashLeaf, i, d, s) else Job(Store, i * 2, d, s)
  }

  /** The goroutine suits the leaf it is started at. */
  ghost predicate JobFits(size: nat, job: Job, s: Bytes, index: nat, root: bool)
  {
    && job.s == s
    && if job.pc.HashLeaf? then |s| > size && job.i == index
       else job.pc.Store? && (|s| <= size || root) && if root then job.i == 0 && job.d == 0 else job.i > 0
  }

  /**
   The way from byte `n` is marked for a last segment `s` with goroutine `job`; `root` says whether `t` is the root.
   */
  ghost predicate Primed(size: nat, t: Tree, h: nat, n: nat, s: Bytes, root: bool, job: Job)
  {
    && t.cell.root == root
    && if t.Leaf? then
         && h == 0 && JobFits(size, job, s, t.index, root)
         && (|s| <= size || root ==> t.cell.unbalanced && t.cell.right == [])
         && (|s| > size && !root ==> !t.cell.unbalanced)
       else
         && h > 0
         && var w := W(size, h - 1);
         if n < w then
           && t.cell.unbalanced && t.cell.right == [] && t.index > 0 && !root
           && Primed(size, t.l, h - 1, n, s, false, job)
         else
           !t.cell.unbalanced && Primed(size, t.r, h - 1, n - w, s, false, job)
  }

  /** What the goroutine for the final segment turns an open subtree into. */
  ghost predicate LaunchClosed(H: BaseHash, size: nat, t: Tree, h: nat, d: Bytes, s: Bytes, root: bool, job: Job)
  {
    var t' := Launch(size, t, h, |d|, job);
    && Closed(H, size, t', h, d + s, root)
    && t'.cell == t.cell && t'.index == t.index && (t'.Leaf? <==> t.Leaf?)
  }

  lemma LaunchLeft(H: BaseHash, size: nat, t: Tree, h: nat, d: Bytes, s: Bytes, root: bool, job: Job)
    requires 0 < size && Open(H, size, t, h, d) && t.Node? && |d| < W(size, h - 1)
    requires |d| + |s| <= W(size, h - 1) && |s| > 0
    requires LaunchClosed(H, size, t.l, h - 1, d, s, false, job)
    requires t.cell.unbalanced && t.cell.right == [] && t.index > 0 && !t.cell.root && !root
    ensures LaunchClosed(H, size, t, h, d, s, root, job)
  {
    var l' := Launch(size, t.l, h - 1, |d|, job);
    assert Launch(size, t, h, |d|, job) == t.(l := l');
    assert Closed(H, size, t.(l := l'), h, d + s, root);
  }

  lemma LaunchRight(H: BaseHash, size: nat, t: Tree, h: nat, d: Bytes, s: Bytes, root: bool, job: Job)
    requires 0 < size && Open(H, size, t, h, d) && t.Node? && |d| >= W(size, h - 1)
    requires |s| > 0 && LaunchClosed(H, size, t.r, h - 1, d[W(size, h - 1)..], s, false, job)
    requires !t.cell.unbalanced && t.cell.root == root
    ensures LaunchClosed(H, size, t, h, d, s, root, job)
  {
    var w := W(size, h - 1);
    assert (d + s)[..w] == d[..w] && (d + s)[w..] == d[w..] + s;
    var r' := Launch(size, t.r, h - 1, |d| - w, job);
    assert Launch(size, t, h, |d|, job) == t.(r := r');
    assert Closed(H, size, t.(r := r'), h, d + s, root);
  }

  lemma LaunchLeaf(H: BaseHash, size: nat, t: Tree, s: Bytes, root: bool, job: Job)
    requires 0 < size && Open(H, size, t, 0, []) && |s| <= 2 * size && (|s| > 0 || root)
    requires Primed(size, t, 0, 0, s, root, job)
    ensures LaunchClosed(H, size, t, 0, [], s, root, job)
  {
    assert [] + s == s && t.lin + [job] == [job];
  }

  /** Handing the last segment to a properly marked open subtree closes it. */
  lemma {:induction false} LaunchCloses(H: BaseHash, size: nat, t: Tree, h: nat, d: Bytes, s: Bytes, root: bool,
                                        job: Job)
    requires 0 < size && Open(H, size, t, h, d)
    requires |s| <= 2 * size && (|s| > 0 || (root && h == 0))
    requires Primed(size, t, h, |d|, s, root, job)
    ensures LaunchClosed(H, size, t, h, d, s, root, job)
    decreases h
  {
    if t.Leaf? {
      LaunchLeaf(H, size, t, s, root, job);
    } else {
      var w := W(size, h - 1);
      if |d| < w {
        OpenRoom(H, size, t.l, h - 1, d);
        LaunchCloses(H, size, t.l, h - 1, d, s, false, job);
        LaunchLeft(H, size, t, h, d, s, root, job);
      } else {
        LaunchCloses(H, size, t.r, h - 1, d[w..], s, false, job);
        LaunchRight(H, size, t, h, d, s, root, job);
      }
    }
  }

  // ---------------------------------------------------------------- opening the next segment

  /** The way from byte `n` carries no marks but `root` at the top. */
  ghost predicate Blank(size: nat, t: Tree, h: nat, n: nat, top: bool)
  {
    && !t.cell.unbalanced && t.cell.root == top
    && if t.Leaf? then h == 0
       else
         && h > 0
         && var w := W(size, h - 1);
         if n < w then Blank(size, t.l, h - 1, n, false) else Blank(size, t.r, h - 1, n - w, false)
  }

  lemma {:induction false} BlankStep(H: BaseHash, size: nat, t: Tree, h: nat, n: nat, top: bool, act: Act)
    requires Blank(size, t, h, n, top)
    ensures Blank(size, Exec(H, t, act).0, h, n, top)
    decreases h
  {
    if t.Node? {
      var w := W(size, h - 1);
      if act.Left? && n < w { BlankStep(H, size, t.l, h - 1, n, false, act.act); }
      if act.Right? && n >= w { BlankStep(H, size, t.r, h - 1, n - w, false, act.act); }
    }
  }

  /** The index of the leaf that starts at byte `n`. */
  function LeafAt(size: nat, t: Tree, h: nat, n: nat): nat
  {
    if t.Leaf? || h == 0 then t.index
    else
      var w := W(size, h - 1);
      if n < w then LeafAt(size, t.l, h - 1, n) else LeafAt(size, t.r, h - 1, n - w)
  }

  lemma {:induction false} IdleOpens(H: BaseHash, size: nat, t: Tree, h: nat, top: bool)
    requires 0 < size && Idle(t, h, top) && (top ==> t.index == 0)
    ensures Open(H, size, t, h, []) && Blank(size, t, h, 0, top)
    decreases h
  {
    if t.Node? { IdleOpens(H, size, t.l, h - 1, false); }
  }

  lemma {:induction false} BlankPrimed(size: nat, t: Tree, h: nat, n: nat, s: Bytes, job: Job)
    requires 0 < size && Blank(size, t, h, n, false) && n + 2 * size == W(size, h)
    requires |s| == 2 * size && JobFits(size, job, s, LeafAt(size, t, h, n), false)
    ensures Primed(size, t, h, n, s, false, job)
    decreases h
  {
    if t.Node? { BlankPrimed(size, t.r, h - 1, n - W(size, h - 1), s, job); }
  }

  /** What handing over a full segment does when more room follows. */
  ghost predicate LaunchOpened(H: BaseHash, size: nat, t: Tree, h: nat, d: Bytes, s: Bytes, top: bool, job: Job)
  {
    var t' := Launch(size, t, h, |d|, job);
    && Open(H, size, t', h, d + s) && Blank(size, t', h, |d + s|, top)
    && t'.cell == t.cell && t'.index == t.index && (t'.Leaf? <==> t.Leaf?)
  }

  lemma LaunchFills(H: BaseHash, size: nat, t: Tree, h: nat, d: Bytes, s: Bytes, top: bool, job: Job)
    requires 0 < size && Open(H, size, t, h, d) && Blank(size, t, h, |d|, top) && t.Node?
    requires |s| == 2 * size && |d| + 2 * size == W(size, h - 1)
    requires LaunchClosed(H, size, t.l, h - 1, d, s, false, job)
    ensures LaunchOpened(H, size, t, h, d, s, top, job)
  {
    var w := W(size, h - 1);
    IdleOpens(H, size, t.r, h - 1, false);
    assert (d + s)[..w] == d + s && (d + s)[w..] == [];
    var t' := t.(l := Launch(size, t.l, h - 1, |d|, job));
    assert Launch(size, t, h, |d|, job) == t';
    assert Open(H, size, t', h, d + s);
  }

  lemma LaunchOnLeft(H: BaseHash, size: nat, t: Tree, h: nat, d: Bytes, s: Bytes, top: bool, job: Job)
    requires 0 < size && Open(H, size, t, h, d) && Blank(size, t, h, |d|, top) && t.Node?
    requires |d| < W(size, h - 1) && |d| + |s| < W(size, h - 1)
    requires LaunchOpened(H, size, t.l, h - 1, d, s, false, job)
    ensures LaunchOpened(H, size, t, h, d, s, top, job)
  {
    var t' := t.(l := Launch(size, t.l, h - 1, |d|, job));
    assert Launch(size, t, h, |d|, job) == t';
    assert Open(H, size, t', h, d + s);
  }

  lemma LaunchOnRight(H: BaseHash, size: nat, t: Tree, h: nat, d: Bytes, s: Bytes, top: bool, job: Job)
    requires 0 < size && Open(H, size, t, h, d) && Blank(size, t, h, |d|, top) && t.Node?
    requires |d| >= W(size, h - 1) && |d| + |s| < W(size, h)
    requires LaunchOpened(H, size, t.r, h - 1, d[W(size, h - 1)..], s, false, job)
    ensures LaunchOpened(H, size, t, h, d, s, top, job)
  {
    var w := W(size, h - 1);
    var r' := Launch(size, t.r, h - 1, |d| - w, job);
    assert Launch(size, t, h, |d|, job) == t.(r := r');
    OpenRight(H, size, t, h, d, d + s, r');
    assert |d[w..] + s| == |d + s| - w;
  }

  /** An open subtree stays open when its right part stays open with more data. */
  lemma OpenRight(H: BaseHash, size: nat, t: Tree, h: nat, d: Bytes, d': Bytes, r': Tree)
    requires Open(H, size, t, h, d) && t.Node? && W(size, h - 1) <= |d| <= |d'| < W(size, h) && d <= d'
    requires Open(H, size, r', h - 1, d[W(size, h - 1)..] + d'[|d|..]) && r'.index == t.r.index
    ensures Open(H, size, t.(r := r'), h, d')
  {
    var w := W(size, h - 1);
    assert d'[..w] == d[..w] && d'[w..] == d[w..] + d'[|d|..];
  }

  /** Handing over a full segment opens the next leaf. */
  lemma {:induction false} LaunchOpens(H: BaseHash, size: nat, t: Tree, h: nat, d: Bytes, s: Bytes, top: bool, job: Job)
    requires 0 < size && Open(H, size, t, h, d) && Blank(size, t, h, |d|, top)
    requires |s| == 2 * size && |d| + 2 * size < W(size, h)
    requires JobFits(size, job, s, LeafAt(size, t, h, |d|), false)
    ensures LaunchOpened(H, size, t, h, d, s, top, job)
    decreases h
  {
    if t.Node? {
      var w := W(size, h - 1);
      if |d| >= w {
        LaunchOpens(H, size, t.r, h - 1, d[w..], s, false, job);
        LaunchOnRight(H, size, t, h, d, s, top, job);
      } else if |d| + 2 * size < w {
        LaunchOpens(H, size, t.l, h - 1, d, s, false, job);
        LaunchOnLeft(H, size, t, h, d, s, top, job);
      } else {
        LaunchLastLeft(H, size, t, h, d, s, top, job);
      }
    }
  }

  lemma LaunchLastLeft(H: BaseHash, size: nat, t: Tree, h: nat, d: Bytes, s: Bytes, top: bool, job: Job)
    requires 0 < size && Open(H, size, t, h, d) && Blank(size, t, h, |d|, top) && t.Node?
    requires |s| == 2 * size && |d| < W(size, h - 1) <= |d| + 2 * size
    requires JobFits(size, job, s, LeafAt(size, t, h, |d|), false)
    ensures LaunchOpened(H, size, t, h, d, s, top, job)
  {
    OpenRoom(H, size, t.l, h - 1, d);
    BlankPrimed(size, t.l, h - 1, |d|, s, job);
    LaunchCloses(H, size, t.l, h - 1, d, s, false, job);
    LaunchFills(H, size, t, h, d, s, top, job);
  }

  // ---------------------------------------------------------------- finalise

  /** One iteration of `finalise`, at height `x` of the way from byte `n`. */
  function Mark(size: nat, t: Tree, h: nat, n: nat, x: nat, isLeft: bool): Tree
  {
    if t.Leaf? || h <= x then
      t.(cell := t.cell.(unbalanced := isLeft, right := [], root := t.cell.root || t.index == 0))
    else
      var w := W(size, h - 1);
      if n < w then t.(l := Mark(size, t.l, h - 1, n, x, isLeft)) else t.(r := Mark(size, t.r, h - 1, n - w, x, isLeft))
  }

  /** The way from byte `n` enters its stop at height `x` from the left exactly if `isLeft`. */
  ghost predicate Enters(size: nat, t: Tree, h: nat, n: nat, x: nat, isLeft: bool)
  {
    if t.Leaf? then isLeft
    else
      h > 0 && var w := W(size, h - 1);
      if h <= x then isLeft == (n < w)
      else if n < w then Enters(size, t.l, h - 1, n, x, isLeft)
      else Enters(size, t.r, h - 1, n - w, x, isLeft)
  }

  function Marked(stop: Stop): Stop
  {
    Stop(stop.index, stop.fromLeft, stop.fromLeft, stop.root || stop.index == 0, [])
  }

  lemma {:induction false} EntersTrail(size: nat, t: Tree, h: nat, n: nat, x: nat)
    requires Way(size, t, h, n) && x <= h && |Trail(size, t, h, n)| == h + 1
    ensures Enters(size, t, h, n, x, Trail(size, t, h, n)[x].fromLeft)
    decreases h
  {
    if t.Node? && x < h {
      var w := W(size, h - 1);
      if n < w {
        TrailShape(size, t.l, h - 1, n);
        EntersTrail(size, t.l, h - 1, n, x);
      } else {
        TrailShape(size, t.r, h - 1, n - w);
        EntersTrail(size, t.r, h - 1, n - w, x);
      }
    }
  }

  lemma UpdateFront<T>(a: seq<T>, b: T, x: nat, v: T)
    requires x <= |a|
    ensures (a + [b])[x := v] == if x == |a| then a + [v] else a[x := v] + [b]
  {
  }

  lemma TrailLength(size: nat, t: Tree, h: nat, n: nat)
    requires Way(size, t, h, n)
    ensures |Trail(size, t, h, n)| == h + 1
  {
    TrailShape(size, t, h, n);
  }

  /** `Mark` changes the one stop on the way. */
  lemma {:induction false} MarkTrail(size: nat, t: Tree, h: nat, n: nat, x: nat, isLeft: bool)
    requires Way(size, t, h, n) && x <= h && |Trail(size, t, h, n)| == h + 1
    requires isLeft == Trail(size, t, h, n)[x].fromLeft
    ensures Trail(size, Mark(size, t, h, n, x, isLeft), h, n)
         == Trail(size, t, h, n)[x := Marked(Trail(size, t, h, n)[x])]
    decreases h
  {
    if t.Node? {
      var w := W(size, h - 1);
      var stop := Stop(t.index, n < w, t.cell.unbalanced, t.cell.root, t.cell.right);
      var child, m := if n < w then t.l else t.r, if n < w then n else n - w;
      var sub := Trail(size, child, h - 1, m);
      TrailLength(size, child, h - 1, m);
      if x < h {
        MarkTrail(size, child, h - 1, m, x, isLeft);
        UpdateFront(sub, stop, x, Marked(sub[x]));
      } else {
        UpdateFront(sub, stop, x, Marked(stop));
      }
    }
  }

  ghost predicate MarkKept(H: BaseHash, size: nat, t: Tree, h: nat, d: Bytes, x: nat, isLeft: bool)
  {
    var t' := Mark(size, t, h, |d|, x, isLeft);
    Open(H, size, t', h, d) && t'.index == t.index && (t'.Leaf? <==> t.Leaf?)
  }

  lemma MarkBelowL(H: BaseHash, size: nat, t: Tree, h: nat, d: Bytes, x: nat, isLeft: bool)
    requires 0 < size && Open(H, size, t, h, d) && t.Node? && x < h && |d| < W(size, h - 1)
    requires MarkKept(H, size, t.l, h - 1, d, x, isLeft)
    ensures MarkKept(H, size, t, h, d, x, isLeft)
  {
    var t' := t.(l := Mark(size, t.l, h - 1, |d|, x, isLeft));
    assert Mark(size, t, h, |d|, x, isLeft) == t';
    assert Open(H, size, t', h, d);
  }

  lemma MarkBelowR(H: BaseHash, size: nat, t: Tree, h: nat, d: Bytes, x: nat, isLeft: bool)
    requires 0 < size && Open(H, size, t, h, d) && t.Node? && x < h && |d| >= W(size, h - 1)
    requires MarkKept(H, size, t.r, h - 1, d[W(size, h - 1)..], x, isLeft)
    ensures MarkKept(H, size, t, h, d, x, isLeft)
  {
    var t' := t.(r := Mark(size, t.r, h - 1, |d| - W(size, h - 1), x, isLeft));
    assert Mark(size, t, h, |d|, x, isLeft) == t';
    assert Open(H, size, t', h, d);
  }

  /** Marking may happen at any time while the last segment is still to come. */
  lemma {:induction false} MarkKeepsOpen(H: BaseHash, size: nat, t: Tree, h: nat, d: Bytes, x: nat, isLeft: bool)
    requires 0 < size && Open(H, size, t, h, d) && x <= h && Enters(size, t, h, |d|, x, isLeft)
    ensures MarkKept(H, size, t, h, d, x, isLeft)
    decreases h
  {
    if t.Node? && x < h {
      var w := W(size, h - 1);
      if |d| < w {
        MarkKeepsOpen(H, size, t.l, h - 1, d, x, isLeft);
        MarkBelowL(H, size, t, h, d, x, isLeft);
      } else {
        MarkKeepsOpen(H, size, t.r, h - 1, d[w..], x, isLeft);
        MarkBelowR(H, size, t, h, d, x, isLeft);
      }
    }
  }
}
