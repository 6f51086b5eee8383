/**
 What holds of the concurrent hasher's tree at every moment of every schedule.

 `Closed(t, h, d, root)`: all data of the subtree, `d`, has been handed to goroutines.
 `Open(t, h, d)`: the subtree holds the segment that is still being filled; `d` has been
 handed to goroutines so far.  `Idle`: nothing has entered the subtree.

 Both are kept by every act, and a subtree that passes a value on passes on `Value`, once.
 */
module HasherInvariant {
  import opened Bmt
  import opened HasherTree

  /** Bytes covered by a subtree of height `h`. */
  function W(size: nat, h: nat): (w: nat)
    ensures 2 * size <= w
  {
    if h == 0 then 2 * size else 2 * W(size, h - 1)
  }

  lemma {:induction false} WIsSpan(size: nat, h: nat)
    requires 0 < size
    ensures IsSpan(size, W(size, h))
  {
    if h > 0 { WIsSpan(size, h - 1); }
  }

  /** The value a subtree of height `h` below the root passes on for the data `d`. */
  function Out(H: BaseHash, size: nat, h: nat, d: Bytes): Bytes
    requires |d| <= W(size, h)
  {
    if |d| <= size then d
    else if h == 0 then H(d)
    else
      var w := W(size, h - 1);
      if |d| <= w then Out(H, size, h - 1, d)
      else H(Out(H, size, h - 1, d[..w]) + Out(H, size, h - 1, d[w..]))
  }

  function Value(H: BaseHash, size: nat, h: nat, d: Bytes, root: bool): Bytes
    requires |d| <= W(size, h)
  {
    if root && |d| <= size then H(d) else Out(H, size, h, d)
  }

  lemma OneLeaf(H: BaseHash, size: nat, d: Bytes)
    requires 0 < size < |d| <= W(size, 0)
    ensures Out(H, size, 0, d) == Root(H, size, d)
  {
  }

  lemma BothHalves(H: BaseHash, size: nat, h: nat, d: Bytes, w: nat, left: Bytes, right: Bytes)
    requires 0 < size && h > 0 && w == W(size, h - 1) && size <= w < |d| <= W(size, h)
    requires left == d[..w] && right == d[w..] && |right| <= w
    requires Out(H, size, h - 1, left) == Root(H, size, left)
    requires |right| > size ==> Out(H, size, h - 1, right) == Root(H, size, right)
    ensures Out(H, size, h, d) == Root(H, size, d)
  {
    WIsSpan(size, h - 1);
    SpanUnique(size, w, |d|);
  }

  /** Above a single segment, the value of the tree is the reference hash. */
  lemma {:induction false} OutIsRoot(H: BaseHash, size: nat, h: nat, d: Bytes)
    requires 0 < size < |d| <= W(size, h)
    ensures Out(H, size, h, d) == Root(H, size, d)
    decreases h
  {
    if h == 0 {
      OneLeaf(H, size, d);
    } else {
      var w := W(size, h - 1);
      if |d| <= w {
        OutIsRoot(H, size, h - 1, d);
      } else {
        var left, right := d[..w], d[w..];
        OutIsRoot(H, size, h - 1, left);
        if |right| > size { OutIsRoot(H, size, h - 1, right); }
        BothHalves(H, size, h, d, w, left, right);
      }
    }
  }

  lemma ValueIsRoot(H: BaseHash, size: nat, h: nat, d: Bytes)
    requires 0 < size && |d| <= W(size, h)
    ensures Value(H, size, h, d, true) == Root(H, size, d)
  {
    if |d| > size { OutIsRoot(H, size, h, d); }
  }

  // ---------------------------------------------------------------- states of one node

  ghost predicate Even(state: int) { -INT32_LIMIT <= state < INT32_LIMIT && state % 2 == 0 }

  /** The counter of a node nobody has toggled, toggled once, and toggled twice. */
  ghost predicate Resting(c: Cell) { 0 <= c.base && Even(c.base) && c.state == c.base }

  ghost predicate Odd(c: Cell) { 0 <= c.base && Even(c.base) && c.state == c.base + 1 }

  ghost predicate Paired(c: Cell) { 0 <= c.base && Even(c.base) && c.state == Inc32(c.base + 1) }

  /** The child has not passed a value on yet. */
  ghost predicate Absent(sent: nat, js: seq<Job>) { sent == 0 && js == [] }

  /** The child's value `v` is here, and its goroutine has not toggled yet. */
  ghost predicate Early(sent: nat, js: seq<Job>, slot: Bytes, v: Bytes)
  {
    && sent == 1 && |js| == 1 && js[0].s == v
    && (js[0].pc.Store? || ((js[0].pc.Test? || js[0].pc.Toggle?) && slot == v))
  }

  /** The child's goroutine stored its value and returned. */
  ghost predicate Stored(sent: nat, js: seq<Job>, slot: Bytes, v: Bytes) { sent == 1 && js == [] && slot == v }

  /** The child's goroutine came second and carries on for both. */
  ghost predicate Won(sent: nat, js: seq<Job>, c: Cell, vl: Bytes, vr: Bytes, out: Bytes)
  {
    && sent == 1 && |js| == 1
    && (|| (js[0].pc.Combine? && c.left == vl && c.right == vr && c.hashes == 0)
        || (js[0].pc.Finish? && js[0].s == out && js[0].i > 0 && c.hashes == 1))
  }

  /** A node with two inputs: `ls` and `rs` count the values its children passed on. */
  ghost predicate TwoInput(c: Cell, lin: seq<Job>, rin: seq<Job>, ls: nat, rs: nat, vl: Bytes, vr: Bytes, out: Bytes)
  {
    && !c.unbalanced
    && if c.sent == 0 then
         var l0 := Absent(ls, lin) || Early(ls, lin, c.left, vl);
         var r0 := Absent(rs, rin) || Early(rs, rin, c.right, vr);
         || (l0 && r0 && Resting(c) && c.hashes == 0)
         || (Stored(ls, lin, c.left, vl) && r0 && Odd(c) && c.hashes == 0)
         || (l0 && Stored(rs, rin, c.right, vr) && Odd(c) && c.hashes == 0)
         || (Won(ls, lin, c, vl, vr, out) && rs == 1 && rin == [] && Paired(c))
         || (ls == 1 && lin == [] && Won(rs, rin, c, vl, vr, out) && Paired(c))
       else
         c.sent == 1 && ls == 1 && rs == 1 && lin == [] && rin == [] && Paired(c) && c.hashes == 1
  }

  /** A node that only has its left input, and passes it on as it is. */
  ghost predicate OneInput(c: Cell, lin: seq<Job>, rin: seq<Job>, ls: nat, v: Bytes)
  {
    && c.unbalanced && c.right == [] && rin == [] && Resting(c) && c.hashes == 0
    && if c.sent == 0 then
         || Absent(ls, lin)
         || (&& ls == 1 && |lin| == 1 && lin[0].s == v && lin[0].i > 0
             && (lin[0].pc.Store? || lin[0].pc.Finish? || ((lin[0].pc.Test? || lin[0].pc.Combine?) && c.left == v)))
       else
         c.sent == 1 && ls == 1 && lin == []
  }

  ghost predicate LeafJob(H: BaseHash, size: nat, c: Cell, j: Job, d: Bytes, root: bool, index: nat)
    requires |d| <= 2 * size
  {
    match j.pc
    case HashLeaf => |d| > size && j.s == d && j.i == index
    case Finish => j.s == Value(H, size, 0, d, root) && (index > 0 ==> j.i > 0)
    case Toggle => false
    case _ =>
      && (|d| <= size || root) && c.unbalanced && c.right == []
      && j.s == d && (!j.pc.Store? ==> c.left == d)
      && if root then j.i == 0 && j.d == 0 else j.i > 0
  }

  ghost predicate LeafState(H: BaseHash, size: nat, c: Cell, lin: seq<Job>, rin: seq<Job>, d: Bytes, root: bool,
                            index: nat)
    requires |d| <= 2 * size
  {
    && rin == [] && Resting(c) && (|d| > size && !root ==> !c.unbalanced)
    && if c.sent == 0 then |lin| == 1 && LeafJob(H, size, c, lin[0], d, root, index) else c.sent == 1 && lin == []
  }

  // ---------------------------------------------------------------- states of a subtree

  ghost predicate Linked(t: Tree)
    requires t.Node?
  {
    t.l.index == 2 * t.index && t.r.index == 2 * t.index + 1
  }

  /** A tree as good as new: no goroutines, no marks but `root` at the top. */
  ghost predicate Idle(t: Tree, h: nat, top: bool)
  {
    && t.lin == [] && t.rin == [] && t.cell.sent == 0 && t.cell.hashes == 0 && Resting(t.cell)
    && !t.cell.unbalanced && t.cell.root == top
    && if t.Leaf? then h == 0 else h > 0 && Linked(t) && Idle(t.l, h - 1, false) && Idle(t.r, h - 1, false)
  }

  ghost predicate Closed(H: BaseHash, size: nat, t: Tree, h: nat, d: Bytes, root: bool)
  {
    && t.cell.root == root
    && |d| <= W(size, h)
    && (|d| > 0 || root)
    && if t.Leaf? then h == 0 && LeafState(H, size, t.cell, t.lin, t.rin, d, root, t.index)
       else
         && h > 0 && Linked(t)
         && var w := W(size, h - 1);
         if |d| <= w then
           && !root && t.index > 0
           && Closed(H, size, t.l, h - 1, d, false) && Idle(t.r, h - 1, false)
           && OneInput(t.cell, t.lin, t.rin, t.l.cell.sent, Out(H, size, h - 1, d))
         else
           && Closed(H, size, t.l, h - 1, d[..w], false) && Closed(H, size, t.r, h - 1, d[w..], false)
           && TwoInput(t.cell, t.lin, t.rin, t.l.cell.sent, t.r.cell.sent,
                       Out(H, size, h - 1, d[..w]), Out(H, size, h - 1, d[w..]), Out(H, size, h, d))
  }

  /** What one act may do to a closed subtree. */
  ghost predicate Passes(t: Tree, t': Tree, up: Up, v: Bytes, root: bool)
  {
    match up
    case Nothing => t'.cell.sent == t.cell.sent
    case Climb(j) =>
      && !root && t.cell.sent == 0 && t'.cell.sent == 1
      && j.pc.Store? && j.s == v && (t.Node? || t.index > 0 ==> j.i > 0)
    case Emit(s) => root && t.cell.sent == 0 && t'.cell.sent == 1 && s == v
  }

  // ---------------------------------------------------------------- one act

  lemma LeafHere(H: BaseHash, size: nat, c: Cell, lin: seq<Job>, k: nat, d: Bytes, index: nat)
    requires 0 < size && |d| <= 2 * size && k < |lin|
    requires LeafState(H, size, c, lin, [], d, c.root, index)
    ensures var (c', js, up) := Here(H, c, lin, k, true);
            && LeafState(H, size, c', js, [], d, c.root, index) && c'.root == c.root
            && (up.Nothing? ==> c'.sent == c.sent)
            && (up.Climb? ==> !c.root && c.sent == 0 && c'.sent == 1 && up.job.pc.Store?
                              && up.job.s == Value(H, size, 0, d, false) && (index > 0 ==> up.job.i > 0))
            && (up.Emit? ==> c.root && c.sent == 0 && c'.sent == 1 && up.value == Value(H, size, 0, d, true))
  {
    assert lin[..k] == [] && lin[k + 1..] == [];
    assert d + [] == d;
  }

  lemma OneInputHere(H: BaseHash, c: Cell, lin: seq<Job>, k: nat, ls: nat, v: Bytes)
    requires k < |lin| && OneInput(c, lin, [], ls, v) && !c.root
    ensures var (c', js, up) := Here(H, c, lin, k, true);
            && OneInput(c', js, [], ls, v) && !c'.root && !up.Emit?
            && (up.Nothing? ==> c'.sent == c.sent)
            && (up.Climb? ==> c.sent == 0 && c'.sent == 1 && up.job.pc.Store? && up.job.s == v && up.job.i > 0)
  {
    assert lin[..k] == [] && lin[k + 1..] == [];
    assert v + [] == v;
  }

  lemma TwoInputHereL(H: BaseHash, c: Cell, lin: seq<Job>, rin: seq<Job>, k: nat, ls: nat, rs: nat, vl: Bytes,
                      vr: Bytes)
    requires k < |lin| && TwoInput(c, lin, rin, ls, rs, vl, vr, H(vl + vr))
    ensures var (c', js, up) := Here(H, c, lin, k, true);
            && TwoInput(c', js, rin, ls, rs, vl, vr, H(vl + vr)) && c'.root == c.root
            && (up.Nothing? ==> c'.sent == c.sent)
            && (!up.Nothing? ==> c.sent == 0 && c'.sent == 1)
            && (up.Climb? ==> !c.root && up.job.pc.Store? && up.job.s == H(vl + vr) && up.job.i > 0)
            && (up.Emit? ==> c.root && up.value == H(vl + vr))
  {
    assert lin[..k] == [] && lin[k + 1..] == [];
  }

  lemma TwoInputHereR(H: BaseHash, c: Cell, lin: seq<Job>, rin: seq<Job>, k: nat, ls: nat, rs: nat, vl: Bytes,
                      vr: Bytes)
    requires k < |rin| && TwoInput(c, lin, rin, ls, rs, vl, vr, H(vl + vr))
    ensures var (c', js, up) := Here(H, c, rin, k, false);
            && TwoInput(c', lin, js, ls, rs, vl, vr, H(vl + vr)) && c'.root == c.root
            && (up.Nothing? ==> c'.sent == c.sent)
            && (!up.Nothing? ==> c.sent == 0 && c'.sent == 1)
            && (up.Climb? ==> !c.root && up.job.pc.Store? && up.job.s == H(vl + vr) && up.job.i > 0)
            && (up.Emit? ==> c.root && up.value == H(vl + vr))
  {
    assert rin[..k] == [] && rin[k + 1..] == [];
  }

  /** Nothing ever moves in an idle subtree. */
  lemma IdleStays(H: BaseHash, t: Tree, h: nat, act: Act)
    requires Idle(t, h, false)
    ensures Exec(H, t, act) == (t, Nothing) && !Enabled(t, act)
  {
  }

  /** The act keeps the closed subtree closed, and passes on nothing but its value. */
  ghost predicate ClosedKept(H: BaseHash, size: nat, t: Tree, h: nat, d: Bytes, root: bool, act: Act)
  {
    var (t', up) := Exec(H, t, act);
    && Closed(H, size, t', h, d, root) && t'.index == t.index && (t'.Leaf? <==> t.Leaf?)
    && Passes(t, t', up, Value(H, size, h, d, root), root)
  }

  lemma ClosedLeaf(H: BaseHash, size: nat, t: Tree, h: nat, d: Bytes, root: bool, act: Act)
    requires 0 < size && Closed(H, size, t, h, d, root) && t.Leaf?
    ensures ClosedKept(H, size, t, h, d, root, act)
  {
    if act.HereL? && act.k < |t.lin| {
      LeafHere(H, size, t.cell, t.lin, act.k, d, t.index);
      var (c', js, up) := Here(H, t.cell, t.lin, act.k, true);
      assert Exec(H, t, act) == (Leaf(t.index, c', js, t.rin), up);
    } else {
      assert Exec(H, t, act) == (t, Nothing);
    }
  }

  lemma ClosedOneHere(H: BaseHash, size: nat, t: Tree, h: nat, d: Bytes, root: bool, act: Act)
    requires 0 < size && Closed(H, size, t, h, d, root) && t.Node? && |d| <= W(size, h - 1)
    requires act.HereL? || act.HereR?
    ensures ClosedKept(H, size, t, h, d, root, act)
  {
    if act.HereL? && act.k < |t.lin| {
      OneInputHere(H, t.cell, t.lin, act.k, t.l.cell.sent, Out(H, size, h - 1, d));
      var (c', js, up) := Here(H, t.cell, t.lin, act.k, true);
      var t' := t.(cell := c', lin := js);
      assert Exec(H, t, act) == (t', up);
      assert Closed(H, size, t', h, d, root);
    } else {
      assert Exec(H, t, act) == (t, Nothing);
    }
  }

  lemma ClosedTwoHereL(H: BaseHash, size: nat, t: Tree, h: nat, d: Bytes, root: bool, k: nat)
    requires 0 < size && Closed(H, size, t, h, d, root) && t.Node? && |d| > W(size, h - 1)
    ensures ClosedKept(H, size, t, h, d, root, HereL(k))
  {
    var w := W(size, h - 1);
    if k < |t.lin| {
      TwoInputHereL(H, t.cell, t.lin, t.rin, k, t.l.cell.sent, t.r.cell.sent,
                    Out(H, size, h - 1, d[..w]), Out(H, size, h - 1, d[w..]));
      var (c', js, up) := Here(H, t.cell, t.lin, k, true);
      var t' := t.(cell := c', lin := js);
      assert Exec(H, t, HereL(k)) == (t', up);
      assert Closed(H, size, t', h, d, root);
    }
  }

  lemma ClosedTwoHereR(H: BaseHash, size: nat, t: Tree, h: nat, d: Bytes, root: bool, k: nat)
    requires 0 < size && Closed(H, size, t, h, d, root) && t.Node? && |d| > W(size, h - 1)
    ensures ClosedKept(H, size, t, h, d, root, HereR(k))
  {
    var w := W(size, h - 1);
    if k < |t.rin| {
      TwoInputHereR(H, t.cell, t.lin, t.rin, k, t.l.cell.sent, t.r.cell.sent,
                    Out(H, size, h - 1, d[..w]), Out(H, size, h - 1, d[w..]));
      var (c', js, up) := Here(H, t.cell, t.rin, k, false);
      var t' := t.(cell := c', rin := js);
      assert Exec(H, t, HereR(k)) == (t', up);
      assert Closed(H, size, t', h, d, root);
    }
  }

  lemma ClosedOneBelow(H: BaseHash, size: nat, t: Tree, h: nat, d: Bytes, root: bool, a: Act)
    requires 0 < size && Closed(H, size, t, h, d, root) && t.Node? && |d| <= W(size, h - 1)
    requires ClosedKept(H, size, t.l, h - 1, d, false, a)
    ensures ClosedKept(H, size, t, h, d, root, Left(a))
  {
    var (l', up) := Exec(H, t.l, a);
    var t' := if up.Climb? then t.(l := l', lin := t.lin + [up.job]) else t.(l := l');
    assert Exec(H, t, Left(a)) == (t', Nothing);
    assert Closed(H, size, t', h, d, root);
  }

  lemma ClosedTwoBelowL(H: BaseHash, size: nat, t: Tree, h: nat, d: Bytes, root: bool, a: Act)
    requires 0 < size && Closed(H, size, t, h, d, root) && t.Node? && |d| > W(size, h - 1)
    requires ClosedKept(H, size, t.l, h - 1, d[..W(size, h - 1)], false, a)
    ensures ClosedKept(H, size, t, h, d, root, Left(a))
  {
    var (l', up) := Exec(H, t.l, a);
    var t' := if up.Climb? then t.(l := l', lin := t.lin + [up.job]) else t.(l := l');
    assert Exec(H, t, Left(a)) == (t', Nothing);
    assert Closed(H, size, t', h, d, root);
  }

  lemma ClosedTwoBelowR(H: BaseHash, size: nat, t: Tree, h: nat, d: Bytes, root: bool, a: Act)
    requires 0 < size && Closed(H, size, t, h, d, root) && t.Node? && |d| > W(size, h - 1)
    requires ClosedKept(H, size, t.r, h - 1, d[W(size, h - 1)..], false, a)
    ensures ClosedKept(H, size, t, h, d, root, Right(a))
  {
    var (r', up) := Exec(H, t.r, a);
    var t' := if up.Climb? then t.(r := r', rin := t.rin + [up.job]) else t.(r := r');
    assert Exec(H, t, Right(a)) == (t', Nothing);
    assert Closed(H, size, t', h, d, root);
  }

  /** Every act keeps a closed subtree closed; the only value that ever leaves it is `Value`, and it leaves once. */
  lemma {:induction false} ClosedStep(H: BaseHash, size: nat, t: Tree, h: nat, d: Bytes, root: bool, act: Act)
    requires 0 < size && Closed(H, size, t, h, d, root)
    ensures ClosedKept(H, size, t, h, d, root, act)
    decreases t
  {
    if t.Leaf? {
      ClosedLeaf(H, size, t, h, d, root, act);
    } else {
      var w := W(size, h - 1);
      if |d| <= w {
        match act
        case HereL(_) => ClosedOneHere(H, size, t, h, d, root, act);
        case HereR(_) => ClosedOneHere(H, size, t, h, d, root, act);
        case Left(a) => ClosedStep(H, size, t.l, h - 1, d, false, a); ClosedOneBelow(H, size, t, h, d, root, a);
        case Right(a) => IdleStays(H, t.r, h - 1, a);
      } else {
        match act
        case HereL(k) => ClosedTwoHereL(H, size, t, h, d, root, k);
        case HereR(k) => ClosedTwoHereR(H, size, t, h, d, root, k);
        case Left(a) =>
          var left := d[..w];
          ClosedStep(H, size, t.l, h - 1, left, false, a);
          ClosedTwoBelowL(H, size, t, h, d, root, a);
        case Right(a) =>
          var right := d[w..];
          ClosedStep(H, size, t.r, h - 1, right, false, a);
          ClosedTwoBelowR(H, size, t, h, d, root, a);
      }
    }
  }
}
