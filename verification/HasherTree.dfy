/**
 The control structure of the concurrent hasher (merkletree/merkletree.go): a perfect binary
 tree of nodes that goroutines shoot up through.

 A goroutine is a `Job` that sits in one of the two input lists of the node it is working
 on.  `Exec` performs one atomic action of one goroutine, chosen by an `Act`: a store, a
 read of a flag, an atomic toggle, a hash, or leaving the node.  A schedule is a sequence of
 acts, so a statement about all schedules is a statement about all sequences.

 Nothing here limits how many goroutines may be at one place; that there is at most one per
 input is part of what `Closed` and `Open` prove.
 */
module HasherTree {
  import opened Bmt

  const INT32_LIMIT: int := 0x8000_0000

  /** Where in `writeSegment`/`run` a goroutine is. */
  datatype Pc = HashLeaf | Store | Test | Toggle | Combine | Finish

  /** `i`, `d`, `s` are the arguments and loop variables of `run`. */
  datatype Job = Job(pc: Pc, i: nat, d: nat, s: Bytes)

  /**
   The fields of a node.  Three more record its history since the tree was reserved: `base` is the
   counter it started from, `sent` counts the values it passed on, and `hashes` those it computed from its inputs.
   */
  datatype Cell =
    Cell(left: Bytes, right: Bytes, state: int, unbalanced: bool, root: bool, base: int, sent: nat, hashes: nat)

  datatype Tree =
    | Leaf(index: nat, cell: Cell, lin: seq<Job>, rin: seq<Job>)
    | Node(index: nat, cell: Cell, lin: seq<Job>, rin: seq<Job>, l: Tree, r: Tree)

  /** What leaves a subtree in one act. */
  datatype Up = Nothing | Climb(job: Job) | Emit(value: Bytes)

  datatype Act = HereL(k: nat) | HereR(k: nat) | Left(act: Act) | Right(act: Act)

  // ---------------------------------------------------------------- the atomic actions

  /** 32-bit wrap-around increment. */
  function Inc32(state: int): int
  {
    if state + 1 == INT32_LIMIT then -INT32_LIMIT else state + 1
  }

  /** `AddInt32(&state, 1) % 2 == 1`, where `%` truncates toward zero. */
  predicate Waits(state: int)
  {
    var s := Inc32(state);
    s > 0 && s % 2 == 1
  }

  /** The toggle tells the first arriver at a resting node to wait exactly when its counter is not negative. */
  lemma FirstArriverWaits(state: int)
    requires -INT32_LIMIT <= state < INT32_LIMIT && state % 2 == 0
    ensures Waits(state) <==> 0 <= state
    ensures 0 <= state ==> !Waits(Inc32(state)) && Inc32(Inc32(state)) % 2 == 0
  {
  }

  /** One action of a job that stays at its node: the new cell, and the job unless it returned. */
  function Local(H: BaseHash, c: Cell, j: Job, isLeft: bool): (Cell, seq<Job>)
  {
    match j.pc
    case HashLeaf =>
      (c, [j.(pc := Finish, s := H(j.s))])
    case Store =>
      (if isLeft then c.(left := j.s) else c.(right := j.s), [j.(pc := Test)])
    case Test =>
      (c, [j.(pc := if c.unbalanced then Combine else Toggle)])
    case Toggle =>
      (c.(state := Inc32(c.state)), if Waits(c.state) then [] else [j.(pc := Combine)])
    case Combine =>
      var hash := !c.unbalanced || !isLeft || (j.i == 0 && j.d == 0);
      (if hash then c.(hashes := c.hashes + 1) else c,
       [j.(pc := Finish, i := j.i + 1, s := if hash then H(c.left + c.right) else c.left + c.right)])
    case Finish =>
      (c, [j])
  }

  /** A job at `Finish` sends its value to the result channel at a root, and climbs otherwise. */
  function Leave(c: Cell, j: Job): Up
  {
    if c.root then Emit(j.s) else Climb(j.(pc := Store))
  }

  /** One action of job `k` of the input list `js` of a node with cell `c`. */
  function Here(H: BaseHash, c: Cell, js: seq<Job>, k: nat, isLeft: bool): (Cell, seq<Job>, Up)
    requires k < |js|
  {
    if js[k].pc.Finish? then
      (c.(sent := c.sent + 1), js[..k] + js[k + 1..], Leave(c, js[k]))
    else
      var (c', out) := Local(H, c, js[k], isLeft);
      (c', js[..k] + out + js[k + 1..], Nothing)
  }

  function Exec(H: BaseHash, t: Tree, act: Act): (Tree, Up)
    decreases t
  {
    match act
    case HereL(k) =>
      if k >= |t.lin| then (t, Nothing)
      else var (c, js, up) := Here(H, t.cell, t.lin, k, true); (t.(cell := c, lin := js), up)
    case HereR(k) =>
      if k >= |t.rin| then (t, Nothing)
      else var (c, js, up) := Here(H, t.cell, t.rin, k, false); (t.(cell := c, rin := js), up)
    case Left(a) =>
      if t.Leaf? then (t, Nothing)
      else
        var (l, up) := Exec(H, t.l, a);
        if up.Climb? then (t.(l := l, lin := t.lin + [up.job]), Nothing) else (t.(l := l), up)
    case Right(a) =>
      if t.Leaf? then (t, Nothing)
      else
        var (r, up) := Exec(H, t.r, a);
        if up.Climb? then (t.(r := r, rin := t.rin + [up.job]), Nothing) else (t.(r := r), up)
  }

  /** Some goroutine can move when told so by `act`. */
  predicate Enabled(t: Tree, act: Act)
    decreases t
  {
    match act
    case HereL(k) => k < |t.lin|
    case HereR(k) => k < |t.rin|
    case Left(a) => t.Node? && Enabled(t.l, a)
    case Right(a) => t.Node? && Enabled(t.r, a)
  }

  // ---------------------------------------------------------------- termination

  function PcRest(pc: Pc): nat
  {
    match pc
    case HashLeaf => 1
    case Store => 4
    case Test => 3
    case Toggle => 2
    case Combine => 1
    case Finish => 0
  }

  function JobsRest(js: seq<Job>, up: nat): nat
  {
    if js == [] then 0 else 1 + 6 * up + PcRest(js[0].pc) + JobsRest(js[1..], up)
  }

  /** An upper bound on the number of actions still to come, in a subtree `up` levels below the top. */
  function Rest(t: Tree, up: nat): nat
  {
    JobsRest(t.lin, up) + JobsRest(t.rin, up) + if t.Leaf? then 0 else Rest(t.l, up + 1) + Rest(t.r, up + 1)
  }

  lemma {:induction false} JobsRestAppend(a: seq<Job>, b: seq<Job>, up: nat)
    ensures JobsRest(a + b, up) == JobsRest(a, up) + JobsRest(b, up)
  {
    if a == [] {
      assert a + b == b;
    } else {
      assert (a + b)[1..] == a[1..] + b;
      JobsRestAppend(a[1..], b, up);
    }
  }

  lemma JobsRestSplice(js: seq<Job>, k: nat, mid: seq<Job>, up: nat)
    requires k < |js|
    ensures JobsRest(js[..k] + mid + js[k + 1..], up)
         == JobsRest(js, up) - (1 + 6 * up + PcRest(js[k].pc)) + JobsRest(mid, up)
  {
    var tail := js[k + 1..];
    assert js == js[..k] + [js[k]] + tail;
    JobsRestAppend(js[..k] + [js[k]], tail, up);
    JobsRestAppend(js[..k], [js[k]], up);
    JobsRestAppend(js[..k] + mid, tail, up);
    JobsRestAppend(js[..k], mid, up);
    assert JobsRest([js[k]], up) == 1 + 6 * up + PcRest(js[k].pc);
  }

  lemma LocalUsesWork(H: BaseHash, c: Cell, j: Job, isLeft: bool, up: nat)
    requires !j.pc.Finish?
    ensures JobsRest(Local(H, c, j, isLeft).1, up) < 1 + 6 * up + PcRest(j.pc)
  {
    var out := Local(H, c, j, isLeft).1;
    if out != [] {
      assert out[1..] == [];
      assert JobsRest(out, up) == 1 + 6 * up + PcRest(out[0].pc);
    }
  }

  lemma HereUsesWork(H: BaseHash, c: Cell, js: seq<Job>, k: nat, isLeft: bool, up: nat)
    requires k < |js|
    ensures var (_, js', u) := Here(H, c, js, k, isLeft);
            JobsRest(js', up) + (if u.Climb? then 6 * up else 0) < JobsRest(js, up)
  {
    if js[k].pc.Finish? {
      JobsRestSplice(js, k, [], up);
      assert js[..k] + [] + js[k + 1..] == js[..k] + js[k + 1..];
    } else {
      LocalUsesWork(H, c, js[k], isLeft, up);
      JobsRestSplice(js, k, Local(H, c, js[k], isLeft).1, up);
    }
  }

  /** Whatever the schedule, every action of a goroutine uses up some of the remaining work. */
  lemma {:induction false} ActUsesWork(H: BaseHash, t: Tree, act: Act, up: nat)
    requires Enabled(t, act)
    ensures Rest(Exec(H, t, act).0, up) + (if Exec(H, t, act).1.Climb? then 6 * up else 0) < Rest(t, up)
    decreases t
  {
    match act
    case HereL(_) => NodeUsesWork(H, t, act, up);
    case HereR(_) => NodeUsesWork(H, t, act, up);
    case Left(a) =>
      ActUsesWork(H, t.l, a, up + 1);
      LeftUsesWork(H, t, a, up);
    case Right(a) =>
      ActUsesWork(H, t.r, a, up + 1);
      RightUsesWork(H, t, a, up);
  }

  lemma NodeUsesWork(H: BaseHash, t: Tree, act: Act, up: nat)
    requires Enabled(t, act) && (act.HereL? || act.HereR?)
    ensures Rest(Exec(H, t, act).0, up) + (if Exec(H, t, act).1.Climb? then 6 * up else 0) < Rest(t, up)
  {
    if act.HereL? {
      HereUsesWork(H, t.cell, t.lin, act.k, true, up);
    } else {
      HereUsesWork(H, t.cell, t.rin, act.k, false, up);
    }
  }

  lemma LeftUsesWork(H: BaseHash, t: Tree, a: Act, up: nat)
    requires t.Node? && Enabled(t, Left(a))
    requires Rest(Exec(H, t.l, a).0, up + 1) + (if Exec(H, t.l, a).1.Climb? then 6 * (up + 1) else 0)
             < Rest(t.l, up + 1)
    ensures Rest(Exec(H, t, Left(a)).0, up) + (if Exec(H, t, Left(a)).1.Climb? then 6 * up else 0) < Rest(t, up)
  {
    var u := Exec(H, t.l, a).1;
    if u.Climb? {
      ClimbsAtStore(H, t.l, a);
      JobsRestAppend(t.lin, [u.job], up);
    }
  }

  lemma RightUsesWork(H: BaseHash, t: Tree, a: Act, up: nat)
    requires t.Node? && Enabled(t, Right(a))
    requires Rest(Exec(H, t.r, a).0, up + 1) + (if Exec(H, t.r, a).1.Climb? then 6 * (up + 1) else 0)
             < Rest(t.r, up + 1)
    ensures Rest(Exec(H, t, Right(a)).0, up) + (if Exec(H, t, Right(a)).1.Climb? then 6 * up else 0) < Rest(t, up)
  {
    var u := Exec(H, t.r, a).1;
    if u.Climb? {
      ClimbsAtStore(H, t.r, a);
      JobsRestAppend(t.rin, [u.job], up);
    }
  }

  lemma ClimbsAtStore(H: BaseHash, t: Tree, act: Act)
    ensures var u := Exec(H, t, act).1; u.Climb? ==> u.job.pc == Store
  {
  }

  // ---------------------------------------------------------------- schedules

  /** A whole schedule: the final tree and the results sent on the way. */
  function Run(H: BaseHash, t: Tree, acts: seq<Act>): (Tree, seq<Bytes>)
    decreases |acts|
  {
    if acts == [] then (t, [])
    else
      var (t1, up) := Exec(H, t, acts[0]);
      var (t2, out) := Run(H, t1, acts[1..]);
      (t2, if up.Emit? then [up.value] + out else out)
  }
}
