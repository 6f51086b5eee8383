/**
 The concurrent hasher itself (merkletree/merkletree.go).

 The main thread writes segments into the tree, marks it and waits for the result; between any
 two of its actions the goroutines may perform any number of theirs, in any order (`Interleave`).
 */
module Hasher {
  import opened Bmt
  import opened HasherTree
  import opened HasherInvariant
  import opened HasherPhases
  import opened HasherRound
  import opened Shared

  // ---------------------------------------------------------------- products, unfolded one factor at a time

  function Times(k: nat, n: nat): nat
  {
    if n == 0 then 0 else Times(k, n - 1) + k
  }

  lemma {:induction false} TimesIsProduct(k: nat, n: nat)
    ensures Times(k, n) == k * n
  {
    if n > 0 { TimesIsProduct(k, n - 1); }
  }

  lemma {:induction false} TimesAdd(k: nat, a: nat, b: nat)
    ensures Times(k, a + b) == Times(k, a) + Times(k, b)
  {
    if b > 0 { TimesAdd(k, a, b - 1); }
  }

  lemma {:induction false} TimesDouble(k: nat, n: nat)
    ensures Times(2 * k, n) == Times(k, 2 * n)
  {
    if n > 0 { TimesDouble(k, n - 1); }
  }

  // ---------------------------------------------------------------- shape of the tree

  /** Number of leaves of a tree of height `h`. */
  function Leaves(h: nat): nat
  {
    if h == 0 then 1 else 2 * Leaves(h - 1)
  }

  /** The height of a tree whose leaves hold `n` segments, two each. */
  method Depth(n: nat) returns (d: nat)
    requires n > 0
    ensures (n + 1) / 2 <= Leaves(d)
    ensures d > 0 ==> Leaves(d - 1) < (n + 1) / 2
  {
    d := 0;
    var l := (n - 1) / 2;
    while l > 0
      invariant l * Leaves(d) <= (n - 1) / 2 < (l + 1) * Leaves(d)
      invariant d > 0 ==> Leaves(d - 1) <= (n - 1) / 2
    {
      HalfStep(l, Leaves(d));
      d := d + 1;
      l := l / 2;
    }
  }

  lemma HalfStep(l: nat, k: nat)
    requires l > 0
    ensures l / 2 * (2 * k) <= l * k && (l + 1) * k <= (l / 2 + 1) * (2 * k) && k <= l * k
  {
    assert l == 2 * (l / 2) + l % 2;
    assert l * k == 2 * (l / 2) * k + (l % 2) * k;
    assert k <= l * k by { assert l * k == k + (l - 1) * k; }
  }

  function NewTree(h: nat, index: nat): Tree
  {
    var c := Cell([], [], 0, false, false, 0, 0, 0);
    if h == 0 then Leaf(index, c, [], [])
    else Node(index, c, [], [], NewTree(h - 1, 2 * index), NewTree(h - 1, 2 * index + 1))
  }

  lemma {:induction false} NewTreeIdle(h: nat, index: nat)
    ensures Idle(NewTree(h, index), h, false) && NewTree(h, index).index == index
    ensures StateBelow(NewTree(h, index), 0)
  {
    if h > 0 { NewTreeIdle(h - 1, 2 * index); NewTreeIdle(h - 1, 2 * index + 1); }
  }

  /** `NewTree` of the program: the top is a root. */
  function NewRoot(h: nat): Tree
  {
    var t := NewTree(h, 0);
    t.(cell := t.cell.(root := true))
  }

  lemma NewRootIdle(h: nat)
    ensures Idle(Reserve(NewRoot(h)), h, true) && NewRoot(h).index == 0 && StateBelow(NewRoot(h), 0)
  {
    NewTreeIdle(h, 0);
    var t := NewRoot(h);
    if h > 0 { IdleReserves(t.l, h - 1, false); IdleReserves(t.r, h - 1, false); }
  }

  lemma {:induction false} WidthLeaves(size: nat, h: nat)
    ensures W(size, h) == Times(2 * size, Leaves(h))
  {
    if h > 0 {
      WidthLeaves(size, h - 1);
      TimesAdd(2 * size, Leaves(h - 1), Leaves(h - 1));
    }
  }

  /** The tree has room for every segment. */
  lemma WideEnough(size: nat, count: nat, h: nat)
    requires (count + 1) / 2 <= Leaves(h)
    ensures Times(2 * size, (count + 1) / 2) <= W(size, h)
  {
    WidthLeaves(size, h);
    TimesAdd(2 * size, (count + 1) / 2, Leaves(h) - (count + 1) / 2);
  }

  function FirstLeaf(index: nat, h: nat): nat
    decreases h
  {
    if h == 0 then index else FirstLeaf(2 * index, h - 1)
  }

  lemma {:induction false} FirstLeafNext(index: nat, h: nat)
    ensures FirstLeaf(index + 1, h) == FirstLeaf(index, h) + Leaves(h)
    ensures FirstLeaf(0, h) == 0
    decreases h
  {
    if h > 0 {
      FirstLeafNext(2 * index, h - 1);
      FirstLeafNext(2 * index + 1, h - 1);
    }
  }

  /** The number of leaves before byte `n`. */
  function LeavesBefore(size: nat, h: nat, n: nat): nat
  {
    if h == 0 then 0
    else
      var w := W(size, h - 1);
      if n < w then LeavesBefore(size, h - 1, n) else Leaves(h - 1) + LeavesBefore(size, h - 1, n - w)
  }

  lemma {:induction false} LeafAtBefore(size: nat, t: Tree, h: nat, n: nat)
    requires Way(size, t, h, n)
    ensures LeafAt(size, t, h, n) == FirstLeaf(t.index, h) + LeavesBefore(size, h, n)
    decreases h
  {
    if t.Node? {
      var w := W(size, h - 1);
      FirstLeafNext(2 * t.index, h - 1);
      if n < w { LeafAtBefore(size, t.l, h - 1, n); } else { LeafAtBefore(size, t.r, h - 1, n - w); }
    }
  }

  lemma {:induction false} LeavesBeforeBytes(size: nat, h: nat, n: nat)
    requires Aligned(size, h, n)
    ensures Times(2 * size, LeavesBefore(size, h, n)) == n
    decreases h
  {
    if h > 0 {
      var w := W(size, h - 1);
      WidthLeaves(size, h - 1);
      if n < w {
        LeavesBeforeBytes(size, h - 1, n);
      } else {
        LeavesBeforeBytes(size, h - 1, n - w);
        TimesAdd(2 * size, Leaves(h - 1), LeavesBefore(size, h - 1, n - w));
      }
    }
  }

  /** The leaf after `m` full leaves is leaf number `m`. */
  lemma LeafNumber(H: BaseHash, size: nat, t: Tree, h: nat, d: Bytes, m: nat)
    requires 0 < size && Open(H, size, t, h, d) && t.index == 0 && |d| == Times(2 * size, m)
    ensures LeafAt(size, t, h, |d|) == m
  {
    OpenWay(H, size, t, h, d);
    OpenAligned(H, size, t, h, d);
    LeafAtBefore(size, t, h, |d|);
    LeavesBeforeBytes(size, h, |d|);
    FirstLeafNext(0, h);
    TimesInjective(2 * size, LeavesBefore(size, h, |d|), m);
  }

  lemma TimesInjective(k: nat, a: nat, b: nat)
    requires 0 < k && Times(k, a) == Times(k, b)
    ensures a == b
  {
    TimesIsProduct(k, a);
    TimesIsProduct(k, b);
  }

  // ---------------------------------------------------------------- the hasher

  function Min(a: int, b: int): int { if a < b then a else b }

  /** How many of `l` bytes one `Write` takes when `n` are held and leaf `cur` is open: the code's own cut. */
  function Taken(size: nat, count: nat, cur: nat, n: nat, l: nat): int
  {
    var half, cap := (count + 1) / 2, Times(size, count);
    if cur == half - 1 then Min(l, cap - n) else Min(l, Min(cap - Times(2 * size, cur), Times(2 * size, half) - n))
  }

  /** Room from leaf `cur` on: three segments or more before the last leaf, and one or two in it. */
  lemma Room(size: nat, count: nat, cur: nat)
    requires cur < (count + 1) / 2
    ensures var half, cap, c := (count + 1) / 2, Times(size, count), Times(2 * size, cur);
            && Times(2 * size, half) == cap + (if count % 2 == 0 then 0 else size)
            && (cur < half - 1 ==> cap - c >= 3 * size)
            && (cur == half - 1 ==> Times(2 * size, half) == c + 2 * size)
            && c + 2 * size <= Times(2 * size, half)
            && Times(2 * size, cur + 1) == c + 2 * size
  {
    var half := (count + 1) / 2;
    TimesDouble(size, half);
    TimesAdd(2 * size, cur + 1, half - cur - 1);
  }

  /**
   The hasher.  Its contracts compare the predicates that say where it is between `Reset` and `Sum`
   with `true`, so that the verifier checks each of them as one fact instead of clause by clause.
   */
  class Hasher {
    const H: BaseHash
    const size: nat
    const count: nat
    const depth: nat
    var tree: Tree
    var reserved: bool
    var cur: nat
    var segment: Bytes
    var blockLength: Option<Bytes>

    /** The bytes taken since the tree was reserved. */
    ghost var fed: Bytes
    /** A bound on the counters when the tree was reserved. */
    ghost var wear: int

    ghost predicate Fixed()
      reads this
    {
      && 0 < size && 0 < count && Times(2 * size, (count + 1) / 2) <= W(size, depth)
      && tree.index == 0 && tree.cell.root && 0 <= wear
    }

    /** No tree reserved; the pooled one is as good as new. */
    ghost predicate Ready()
      reads this
    {
      && Fixed() && !reserved && cur == 0 && segment == [] && wear < INT32_LIMIT
      && Idle(Reserve(tree), depth, true) && StateBelow(tree, wear)
    }

    /** Data is being written; everything before the open segment is with the goroutines. */
    ghost predicate Filling()
      reads this
    {
      && Fixed() && reserved
      && cur < (count + 1) / 2 && Times(2 * size, cur) <= |fed|
      && segment == fed[Times(2 * size, cur)..] && |segment| <= 2 * size && (cur > 0 ==> segment != [])
      && Open(H, size, tree, depth, fed[..Times(2 * size, cur)]) && Blank(size, tree, depth, Times(2 * size, cur), true)
      && BaseBelow(tree, wear)
    }

    /** The same while the marks are being set. */
    ghost predicate Running()
      reads this
    {
      && Fixed() && reserved && Times(2 * size, cur) <= |fed|
      && Open(H, size, tree, depth, fed[..Times(2 * size, cur)]) && BaseBelow(tree, wear)
    }

    /** All data is with the goroutines. */
    ghost predicate Draining(results: nat)
      reads this
    {
      && Fixed() && reserved
      && Times(2 * size, cur) <= |fed| <= Times(2 * size, cur) + 2 * size
      && (cur > 0 ==> Times(2 * size, cur) < |fed|) && (cur == 0 ==> Times(2 * size, cur) == 0)
      && Aligned(size, depth, Times(2 * size, cur))
      && Rooted(H, size, tree, depth, fed) && Results(size, tree, depth, |fed|) == results && BaseBelow(tree, wear)
    }

    constructor (H: BaseHash, size: nat, count: nat)
      requires 0 < size && 0 < count
      ensures Ready() == true && wear == 0 && this.H == H && this.size == size && this.count == count
    {
      var d := Depth(count);
      WideEnough(size, count, d);
      NewRootIdle(d);
      this.H, this.size, this.count, depth := H, size, count, d;
      tree := NewRoot(d);
      reserved, cur, segment, blockLength := false, 0, [], None;
      fed, wear := [], 0;
    }

    /** Reserve the tree for a new chunk; a tree that is reserved already keeps what was written. */
    method Reset()
      requires Ready() == true || Filling() == true
      modifies this
      ensures Filling() == true && fed == (if old(reserved) then old(fed) else []) && blockLength.None?
      ensures wear == old(wear)
    {
      if !reserved {
        tree := Reserve(tree);
        reserved := true;
        fed := [];
        IdleOpens(H, size, tree, depth, true);
        ReserveWear(old(tree), wear);
      }
      blockLength := None;
    }

    method ResetWithLength(l: Bytes)
      requires Ready() == true || Filling() == true
      modifies this
      ensures Filling() == true && fed == (if old(reserved) then old(fed) else []) && blockLength == Some(l)
      ensures wear == old(wear)
    {
      Reset();
      blockLength := Some(l);
    }

    /** The goroutines run as they please. */
    method Interleave(acts: seq<Act>)
      requires Running() == true
      modifies this`tree
      ensures Running() == true && (old(Filling()) ==> Filling() == true)
      ensures Trail(size, tree, depth, Times(2 * size, cur)) == old(Trail(size, tree, depth, Times(2 * size, cur)))
    {
      ghost var n := Times(2 * size, cur);
      ghost var trail, blank := Trail(size, tree, depth, n), Blank(size, tree, depth, n, true);
      for k := 0 to |acts|
        invariant Running() == true && Trail(size, tree, depth, n) == trail
        invariant blank ==> Blank(size, tree, depth, n, true) == true
      {
        OneAct(acts[k], n, blank);
      }
    }

    /** One goroutine performs one action. */
    method OneAct(act: Act, ghost n: nat, ghost blank: bool)
      requires Running() == true && n == Times(2 * size, cur)
      requires blank ==> Blank(size, tree, depth, n, true) == true
      modifies this`tree
      ensures Running() == true && Trail(size, tree, depth, n) == old(Trail(size, tree, depth, n))
      ensures blank ==> Blank(size, tree, depth, n, true) == true
    {
      ghost var before := tree;
      tree := Exec(H, tree, act).0;
      ActKeeps(H, size, before, tree, depth, fed[..n], n, wear, act);
      if blank { ActKeepsBlank(H, size, before, tree, depth, n, act); }
    }

    /** `writeSegment` for the open segment, which is full. */
    method WriteSegment()
      requires Filling() == true && |segment| == 2 * size && cur + 1 < (count + 1) / 2
      modifies this`tree
      ensures Fixed() && BaseBelow(tree, wear)
      ensures Open(H, size, tree, depth, fed[..Times(2 * size, cur)] + segment)
      ensures Blank(size, tree, depth, Times(2 * size, cur + 1), true)
    {
      var job := SegmentJob(size, depth > 0, cur, segment, depth);
      StartSegment(H, size, count, tree, depth, fed[..Times(2 * size, cur)], segment, cur);
      BaseLaunch(size, tree, depth, Times(2 * size, cur), job, wear);
      RootLaunch(size, tree, depth, Times(2 * size, cur), job);
      tree := Launch(size, tree, depth, Times(2 * size, cur), job);
    }

    /**
     Write: take bytes into the open segment, and hand over every segment that is full when more
     bytes follow.  A call that finds the open segment already longer than it may be panics on a
     negative slice bound (`!ok`) and changes nothing.
     */
    method Write(b: Bytes) returns (n: nat, ok: bool)
      requires Filling() == true
      modifies this
      ensures Filling() == true && blockLength == old(blockLength) && wear == old(wear)
      ensures ok <==> b == [] || |old(fed)| <= Times(size, count)
      ensures ok ==> n == |b|
      ensures !ok || b == [] ==> fed == old(fed)
      ensures ok && b != [] ==>
                var k := Taken(size, count, old(cur), |old(fed)|, |b|);
                0 <= k <= |b| && fed == old(fed) + b[..k]
    {
      var l := |b|;
      if l <= 0 {
        return 0, true;
      }
      var need, span, rest := Cut(size, count, cur, |segment|, l);
      if rest < 0 {
        return 0, false;
      }
      Take(b, need, span, rest);
      n, ok := l, true;
    }

    /** The bytes up to `rest` go into the open segment, and those needed beyond it into the next ones. */
    method Take(b: Bytes, need: nat, span: nat, rest: nat)
      requires Filling() == true && b != [] && |segment| + rest <= 2 * size && rest <= need <= |b|
      requires cur < (count + 1) / 2 - 1 ==> span == 2 * size && (need > rest ==> |segment| + rest == 2 * size)
      requires cur == (count + 1) / 2 - 1 ==> Taken(size, count, cur, |fed|, |b|) == rest
      requires cur < (count + 1) / 2 - 1 ==>
                 Taken(size, count, cur, |fed|, |b|) == Min(need, Times(2 * size, (count + 1) / 2) - |fed|)
      modifies this
      ensures Filling() == true && blockLength == old(blockLength) && wear == old(wear)
      ensures var k := Taken(size, count, old(cur), |old(fed)|, |b|);
              0 <= k <= |b| && fed == old(fed) + b[..k]
    {
      ghost var fed0 := fed;
      Extend(b[..rest]);
      var taken := HandOver(b, rest, need - rest, span);
      Splice(fed0, fed0 + b[..rest], b, 0, rest, taken);
    }

    /** The open segment takes more bytes. */
    method Extend(b: Bytes)
      requires Filling() == true && |segment| + |b| <= 2 * size
      modifies this`segment, this`fed
      ensures Filling() == true && fed == old(fed) + b && segment == old(segment) + b
    {
      segment := segment + b;
      fed := fed + b;
      assert fed[..Times(2 * size, cur)] == old(fed)[..Times(2 * size, cur)];
      assert fed[Times(2 * size, cur)..] == segment;
    }

    /**
     Hand over full segments while more bytes follow: of `b`, `rest0` bytes are taken and `need0` are still wanted.
     */
    method HandOver(b: Bytes, rest0: nat, need0: nat, span0: nat) returns (rest: nat)
      requires Filling() == true && rest0 + need0 <= |b|
      requires need0 > 0 && cur < (count + 1) / 2 - 1 ==> |segment| == 2 * size && span0 == 2 * size
      modifies this
      ensures Filling() == true && blockLength == old(blockLength) && wear == old(wear)
      ensures rest0 <= rest <= rest0 + need0 && fed == old(fed) + b[rest0..rest]
      ensures |fed| <= Times(2 * size, (count + 1) / 2)
      ensures if old(cur) == (count + 1) / 2 - 1 then rest == rest0
              else rest == rest0 + need0 || |fed| == Times(2 * size, (count + 1) / 2)
    {
      var half := (count + 1) / 2;
      var need: int, span: int := need0, span0;
      rest := rest0;
      while need > 0 && cur < half - 1
        invariant Filling() == true && blockLength == old(blockLength) && wear == old(wear)
        invariant rest0 <= rest <= |b| && fed == old(fed) + b[rest0..rest]
        invariant rest + (if need > 0 then need else 0) == rest0 + need0
        invariant need > 0 && old(cur) < half - 1 ==> |segment| == 2 * size && span == 2 * size
        invariant old(cur) == half - 1 ==> rest == rest0
        decreases half - cur
      {
        need := need - span;
        if need < 0 {
          span := span + need;
        }
        HandOne(b, rest0, rest, rest + span, old(fed));
        rest := rest + span;
      }
      Room(size, count, cur);
    }

    method HandOne(b: Bytes, ghost rest0: nat, rest: nat, next: nat, ghost start: Bytes)
      requires Filling() == true && |segment| == 2 * size && cur + 1 < (count + 1) / 2
      requires rest0 <= rest < next <= |b| && next - rest <= 2 * size && fed == start + b[rest0..rest]
      modifies this`tree, this`segment, this`cur, this`fed
      ensures Filling() == true && cur == old(cur) + 1 && segment == b[rest..next] && fed == start + b[rest0..next]
    {
      ghost var before := fed;
      NextLeaf(b[rest..next]);
      Splice(start, before, b, rest0, rest, next);
    }

    /** Hand over the full open segment, and open the next leaf with the bytes `s`. */
    method NextLeaf(s: Bytes)
      requires Filling() == true && |segment| == 2 * size && cur + 1 < (count + 1) / 2 && 0 < |s| <= 2 * size
      modifies this`tree, this`segment, this`cur, this`fed
      ensures Filling() == true && cur == old(cur) + 1 && segment == s && fed == old(fed) + s
    {
      WriteSegment();
      Room(size, count, cur);
      assert fed == fed[..Times(2 * size, cur)] + segment;
      segment := s;
      cur := cur + 1;
      fed := fed + s;
      assert fed[..Times(2 * size, cur)] == old(fed);
      assert fed[Times(2 * size, cur)..] == segment;
      var acts: seq<Act> := *;
      Interleave(acts);
    }

    /** One iteration of `finalise`. */
    method MarkHeight(x: nat, isLeft: bool, ghost lo: nat)
      requires Running() == true
      requires Marking(Trail(size, tree, depth, Times(2 * size, cur)), depth, lo, x, isLeft, cur)
      modifies this`tree
      ensures Running() == true
      ensures MarkedAt(Trail(size, tree, depth, Times(2 * size, cur)), depth, lo, x, cur)
    {
      MarkStep(H, size, tree, depth, fed[..Times(2 * size, cur)], lo, x, isLeft, cur);
      BaseMark(size, tree, depth, Times(2 * size, cur), x, isLeft, wear);
      RootMark(size, tree, depth, Times(2 * size, cur), x, isLeft);
      tree := Mark(size, tree, depth, Times(2 * size, cur), x, isLeft);
      var acts: seq<Act> := *;
      Interleave(acts);
    }

    /** `finalise`: mark the way from leaf `cur` (or from its parent, `x0 == 1`) up to the first leftmost node. */
    method Finalise(x0: nat, i: nat) returns (d: nat, ghost top: nat)
      requires Filling() == true && x0 <= depth && x0 <= 1
      requires if x0 == 0 then i % 2 == 0 else i == cur && cur > 0
      modifies this`tree
      ensures Running() == true
      ensures top <= depth && d + x0 == top && (cur == 0 <==> top == 0)
      ensures MarkedUpTo(Trail(size, tree, depth, Times(2 * size, cur)), depth, x0, top)
    {
      var n := Times(2 * size, cur);
      ghost var launched := fed[..n];
      TrailStart(H, size, tree, depth, launched, cur, x0, i);
      var isLeft := i % 2 == 0;
      var x := x0;
      d := 0;
      while true
        invariant Running() == true
        invariant x == d + x0 <= depth
        invariant Marking(Trail(size, tree, depth, n), depth, x0, x, isLeft, cur)
        decreases depth - x
      {
        MarkHeight(x, isLeft, x0);
        MarkNext(H, size, tree, depth, launched, x0, x, cur);
        var index := IndexAt(size, tree, depth, n, x);
        if index == 0 {
          top := x;
          return;
        }
        isLeft := index % 2 == 0;
        x := x + 1;
        d := d + 1;
      }
    }

    /** Sum: mark the way, hand over the last segment, wait for the result and release the tree. */
    method Sum() returns (r: Bytes)
      requires Filling() == true
      modifies this
      ensures old(blockLength).None? ==> r == Root(H, size, old(fed))
      ensures old(blockLength).Some? ==> r == H(old(blockLength).value + Root(H, size, old(fed)))
      ensures old(wear) + 2 < INT32_LIMIT ==> Ready() == true && wear == old(wear) + 2
    {
      var x0, i := 0, cur * 2;
      if |segment| > size && cur > 0 && depth > 0 {
        x0, i := 1, cur;
      }
      var d, top := Finalise(x0, i);
      HandOverLast(d, x0, top);
      var c := Await();
      ReleaseTree();
      if blockLength.None? {
        return c;
      }
      r := H(blockLength.value + c);
    }

    /** `writeSegment` for the last segment. */
    method HandOverLast(d: nat, ghost x0: nat, ghost top: nat)
      requires Running() == true && segment == fed[Times(2 * size, cur)..] && |segment| <= 2 * size
      requires cur > 0 ==> segment != []
      requires x0 <= 1 && top <= depth && d + x0 == top && (cur == 0 <==> top == 0)
      requires x0 == 0 <==> |segment| <= size || cur == 0
      requires MarkedUpTo(Trail(size, tree, depth, Times(2 * size, cur)), depth, x0, top)
      modifies this`tree
      ensures Draining(0) == true
    {
      var job := SegmentJob(size, depth > 0, cur, segment, d);
      LastSegment(H, size, tree, depth, fed[..Times(2 * size, cur)], segment, cur, d, x0, top);
      BaseLaunch(size, tree, depth, Times(2 * size, cur), job, wear);
      RootLaunch(size, tree, depth, Times(2 * size, cur), job);
      assert fed == fed[..Times(2 * size, cur)] + segment;
      tree := Launch(size, tree, depth, Times(2 * size, cur), job);
    }

    /** Wait for the result, whatever the order in which the goroutines move. */
    method Await() returns (c: Bytes)
      requires Draining(0) == true
      modifies this`tree
      ensures Draining(1) == true && c == Root(H, size, fed)
    {
      var result: Option<Bytes> := None;
      while result.None?
        invariant if result.None? then Draining(0) == true
                  else Draining(1) == true && result.value == Root(H, size, fed)
        decreases Rest(tree, 0)
      {
        ghost var next := Progress(H, size, tree, depth, fed);
        var act: Act :| Enabled(tree, act);
        result := Move(act);
      }
      c := result.value;
    }

    method Move(act: Act) returns (result: Option<Bytes>)
      requires Draining(0) == true && Enabled(tree, act)
      modifies this`tree
      ensures if result.None? then Draining(0) == true else Draining(1) == true && result.value == Root(H, size, fed)
      ensures Rest(tree, 0) < old(Rest(tree, 0))
    {
      RootedStep(H, size, tree, depth, fed, act);
      ActUsesWork(H, tree, act, 0);
      BaseStep(H, tree, wear, act);
      RootFlag(H, tree, act);
      var (t, up) := Exec(H, tree, act);
      tree := t;
      result := if up.Emit? then Some(up.value) else None;
    }

    method ReleaseTree()
      requires Draining(1) == true
      modifies this
      ensures blockLength == old(blockLength)
      ensures old(wear) + 2 < INT32_LIMIT ==> Ready() == true && wear == old(wear) + 2
    {
      var n := Times(2 * size, cur);
      if wear + 2 < INT32_LIMIT {
        RootedWear(H, size, tree, depth, fed, wear);
        Restores(H, size, tree, depth, fed, n, true);
        ReleaseWear(size, tree, depth, n, true, wear + 2);
      }
      tree := Release(size, tree, depth, n, true);
      reserved, cur, segment := false, 0, [];
      wear := wear + 2;
    }
  }

  lemma RootFlag(H: BaseHash, t: Tree, act: Act)
    ensures Exec(H, t, act).0.cell.root == t.cell.root
  {
  }

  /** What a scheduling step of an open tree keeps. */
  lemma ActKeeps(H: BaseHash, size: nat, t: Tree, t': Tree, h: nat, d: Bytes, n: nat, wear: int, act: Act)
    requires 0 < size && Open(H, size, t, h, d) == true && BaseBelow(t, wear) == true
    requires t' == Exec(H, t, act).0 && n == |d|
    ensures Open(H, size, t', h, d) == true && BaseBelow(t', wear) == true
    ensures t'.index == t.index && t'.cell.root == t.cell.root && Trail(size, t', h, n) == Trail(size, t, h, n)
  {
    OpenStep(H, size, t, h, d, act);
    BaseStep(H, t, wear, act);
    RootFlag(H, t, act);
  }

  lemma ActKeepsBlank(H: BaseHash, size: nat, t: Tree, t': Tree, h: nat, n: nat, act: Act)
    requires Blank(size, t, h, n, true) == true && t' == Exec(H, t, act).0
    ensures Blank(size, t', h, n, true) == true
  {
    BlankStep(H, size, t, h, n, true, act);
  }

  lemma RootMark(size: nat, t: Tree, h: nat, n: nat, x: nat, isLeft: bool)
    ensures t.cell.root ==> Mark(size, t, h, n, x, isLeft).cell.root
  {
  }

  lemma RootLaunch(size: nat, t: Tree, h: nat, n: nat, job: Job)
    ensures Launch(size, t, h, n, job).cell.root == t.cell.root
  {
  }

  /** The last segment roots the tree. */
  lemma LastSegment(H: BaseHash, size: nat, t: Tree, h: nat, d: Bytes, s: Bytes, cur: nat, k: nat, lo: nat, top: nat)
    requires 0 < size && Open(H, size, t, h, d) && t.index == 0 && |d| == Times(2 * size, cur)
    requires |s| <= 2 * size && (cur > 0 ==> s != [])
    requires lo <= 1 && top <= h && k + lo == top && (cur == 0 <==> top == 0)
    requires lo == 0 <==> |s| <= size || cur == 0
    requires MarkedUpTo(Trail(size, t, h, |d|), h, lo, top)
    ensures var t' := Launch(size, t, h, |d|, SegmentJob(size, h > 0, cur, s, k));
            && Rooted(H, size, t', h, d + s) && Results(size, t', h, |d + s|) == 0
            && t'.index == 0 && Aligned(size, h, |d|)
  {
    OpenWay(H, size, t, h, d);
    OpenAligned(H, size, t, h, d);
    LeafNumber(H, size, t, h, d, cur);
    FinalLaunch(H, size, t, h, d, s, SegmentJob(size, h > 0, cur, s, k), lo, top);
  }

  /** The index of the node at height `x` above the leaf at byte `n`. */
  function IndexAt(size: nat, t: Tree, h: nat, n: nat, x: nat): nat
  {
    if t.Leaf? || h <= x then t.index
    else
      var w := W(size, h - 1);
      if n < w then IndexAt(size, t.l, h - 1, n, x) else IndexAt(size, t.r, h - 1, n - w, x)
  }

  /** The loop invariant of `finalise`, about to mark height `x` of the way from leaf `cur`. */
  ghost predicate Marking(trail: seq<Stop>, h: nat, lo: nat, x: nat, isLeft: bool, cur: nat)
  {
    && |trail| == h + 1 && x <= h && lo <= x
    && (forall y :: lo <= y < x ==> trail[y].unbalanced == trail[y].fromLeft && trail[y].right == [])
    && (forall y :: 0 <= y < x ==> trail[y].index > 0)
    && (lo > 0 ==> !trail[0].unbalanced)
    && isLeft == trail[x].fromLeft && trail[0].index == cur
  }

  /** The same after height `x` has been marked. */
  ghost predicate MarkedAt(trail: seq<Stop>, h: nat, lo: nat, x: nat, cur: nat)
  {
    && |trail| == h + 1 && x <= h && lo <= x
    && (forall y :: lo <= y <= x ==> trail[y].unbalanced == trail[y].fromLeft && trail[y].right == [])
    && (forall y :: 0 <= y < x ==> trail[y].index > 0)
    && (lo > 0 ==> !trail[0].unbalanced)
    && (trail[x].index == 0 ==> trail[x].root) && trail[0].index == cur
  }

  /** What `finalise` leaves behind. */
  ghost predicate MarkedUpTo(trail: seq<Stop>, h: nat, lo: nat, top: nat)
  {
    && |trail| == h + 1 && top <= h
    && trail[top].index == 0 && trail[top].root
    && Finalised(trail[..top + 1], lo)
  }

  lemma {:induction false} IndexAtTrail(size: nat, t: Tree, h: nat, n: nat, x: nat)
    requires Way(size, t, h, n) && x <= h && |Trail(size, t, h, n)| == h + 1
    ensures IndexAt(size, t, h, n, x) == Trail(size, t, h, n)[x].index
    decreases h
  {
    if t.Node? && x < h {
      var w := W(size, h - 1);
      var child, m := if n < w then t.l else t.r, if n < w then n else n - w;
      TrailLength(size, child, h - 1, m);
      IndexAtTrail(size, child, h - 1, m, x);
    }
  }

  lemma {:induction false} BlankTrail(size: nat, t: Tree, h: nat, n: nat, top: bool)
    requires Blank(size, t, h, n, top)
    ensures var leaf := Trail(size, t, h, n)[0];
            !leaf.unbalanced && leaf.fromLeft && leaf.index == LeafAt(size, t, h, n)
    decreases h
  {
    if t.Node? {
      var w := W(size, h - 1);
      if n < w { BlankTrail(size, t.l, h - 1, n, false); } else { BlankTrail(size, t.r, h - 1, n - w, false); }
    }
  }

  lemma TrailStart(H: BaseHash, size: nat, t: Tree, h: nat, d: Bytes, cur: nat, lo: nat, i: nat)
    requires 0 < size && Open(H, size, t, h, d) && Blank(size, t, h, |d|, true) && t.index == 0
    requires |d| == Times(2 * size, cur) && lo <= h && lo <= 1
    requires if lo == 0 then i % 2 == 0 else i == cur && cur > 0
    ensures Marking(Trail(size, t, h, |d|), h, lo, lo, i % 2 == 0, cur)
  {
    OpenWay(H, size, t, h, d);
    TrailShape(size, t, h, |d|);
    BlankTrail(size, t, h, |d|, true);
    LeafNumber(H, size, t, h, d, cur);
  }

  lemma MarkStep(H: BaseHash, size: nat, t: Tree, h: nat, d: Bytes, lo: nat, x: nat, isLeft: bool, cur: nat)
    requires 0 < size && Open(H, size, t, h, d) && Marking(Trail(size, t, h, |d|), h, lo, x, isLeft, cur)
    ensures var t' := Mark(size, t, h, |d|, x, isLeft);
            Open(H, size, t', h, d) && t'.index == t.index && MarkedAt(Trail(size, t', h, |d|), h, lo, x, cur)
  {
    OpenWay(H, size, t, h, d);
    EntersTrail(size, t, h, |d|, x);
    MarkKeepsOpen(H, size, t, h, d, x, isLeft);
    MarkTrail(size, t, h, |d|, x, isLeft);
  }

  lemma TrailNext(trail: seq<Stop>, h: nat, lo: nat, x: nat, cur: nat)
    requires MarkedAt(trail, h, lo, x, cur) && Walkable(trail) && trail[h].index == 0
    ensures trail[x].index == 0 ==> MarkedUpTo(trail, h, lo, x) && (x == 0 <==> cur == 0)
    ensures trail[x].index != 0 ==> x < h && Marking(trail, h, lo, x + 1, trail[x].index % 2 == 0, cur)
  {
    if trail[x].index == 0 {
      assert forall y :: 0 <= y <= x ==> trail[..x + 1][y] == trail[y];
    }
  }

  lemma MarkNext(H: BaseHash, size: nat, t: Tree, h: nat, d: Bytes, lo: nat, x: nat, cur: nat)
    requires 0 < size && Open(H, size, t, h, d) && t.index == 0
    requires MarkedAt(Trail(size, t, h, |d|), h, lo, x, cur)
    ensures var index := IndexAt(size, t, h, |d|, x);
            && (index == 0 ==> MarkedUpTo(Trail(size, t, h, |d|), h, lo, x) && (x == 0 <==> cur == 0))
            && (index != 0 ==> x < h && Marking(Trail(size, t, h, |d|), h, lo, x + 1, index % 2 == 0, cur))
  {
    OpenWay(H, size, t, h, d);
    TrailShape(size, t, h, |d|);
    IndexAtTrail(size, t, h, |d|, x);
    TrailNext(Trail(size, t, h, |d|), h, lo, x, cur);
  }

  lemma Splice(a: Bytes, c: Bytes, b: Bytes, i: nat, j: nat, k: nat)
    requires i <= j <= k <= |b| && c == a + b[i..j]
    ensures c + b[j..k] == a + b[i..k]
  {
    assert b[i..j] + b[j..k] == b[i..k];
  }

  /** The goroutine for a full segment that is not the last leaf's opens the next leaf. */
  lemma StartSegment(H: BaseHash, size: nat, count: nat, t: Tree, h: nat, d: Bytes, s: Bytes, cur: nat)
    requires 0 < size && Open(H, size, t, h, d) && Blank(size, t, h, |d|, true) && t.index == 0
    requires |d| == Times(2 * size, cur) && |s| == 2 * size && cur + 1 < (count + 1) / 2
    requires Times(2 * size, (count + 1) / 2) <= W(size, h)
    ensures var t' := Launch(size, t, h, |d|, SegmentJob(size, h > 0, cur, s, h));
            && Open(H, size, t', h, d + s) && Blank(size, t', h, Times(2 * size, cur + 1), true) && t'.index == 0
  {
    LeafNumber(H, size, t, h, d, cur);
    Room(size, count, cur);
    LaunchOpens(H, size, t, h, d, s, true, SegmentJob(size, h > 0, cur, s, h));
  }

  /**
   The beginning of `Write`: how many bytes are wanted, how long the open segment may become, and how
   many bytes go into it.  A negative number of bytes is the slice bound that panics.
   */
  method Cut(size: nat, count: nat, cur: nat, seg: nat, l: nat) returns (need: int, span: nat, rest: int)
    requires 0 < size && cur < (count + 1) / 2 && seg <= 2 * size && 0 < l
    ensures rest < 0 <==> Times(2 * size, cur) + seg > Times(size, count)
    ensures rest >= 0 ==> seg + rest <= 2 * size && rest <= need <= l
    ensures cur < (count + 1) / 2 - 1 ==> span == 2 * size && (need > rest ==> seg + rest == 2 * size)
    ensures rest >= 0 && cur == (count + 1) / 2 - 1 ==> Taken(size, count, cur, Times(2 * size, cur) + seg, l) == rest
    ensures cur < (count + 1) / 2 - 1 ==>
              Taken(size, count, cur, Times(2 * size, cur) + seg, l)
              == Min(need, Times(2 * size, (count + 1) / 2) - (Times(2 * size, cur) + seg))
  {
    Room(size, count, cur);
    ProductForm(size, count, cur);
    need := count * size - cur * 2 * size;
    span := size;
    if need > size {
      span := span * 2;
    }
    if l < need {
      need := l;
    }
    rest := span - seg;
    if need < rest {
      rest := need;
    }
  }

  lemma ProductForm(size: nat, count: nat, cur: nat)
    ensures count * size - cur * 2 * size == Times(size, count) - Times(2 * size, cur)
  {
    TimesIsProduct(size, count);
    TimesIsProduct(2 * size, cur);
    assert cur * 2 * size == 2 * size * cur;
  }

  // ---------------------------------------------------------------- agreement with the reference hasher

  /** Leaf `cur` is the open one when `n` bytes are held. */
  ghost predicate OpenLeaf(size: nat, cur: nat, n: nat)
  {
    Times(2 * size, cur) <= n <= Times(2 * size, cur) + 2 * size && (cur > 0 ==> Times(2 * size, cur) < n)
  }

  /**
   Exactly when `Write` cuts at the capacity, as the reference hasher does: always with an even segment
   count; with an odd one unless bytes are held, the open leaf is not the last, and the write overflows.
   */
  lemma CutAtCapacity(size: nat, count: nat, cur: nat, n: nat, l: nat)
    requires 0 < size && cur < (count + 1) / 2 && OpenLeaf(size, cur, n) && n <= Times(size, count)
    ensures Taken(size, count, cur, n, l) == Min(l, Times(size, count) - n)
            <==> count % 2 == 0 || n == 0 || cur == (count + 1) / 2 - 1 || n + l <= Times(size, count)
  {
    Room(size, count, cur);
  }

  /** With three segments of one byte, a write of one byte and one of three leave four bytes in the hasher. */
  lemma OverlongWrite()
    ensures OpenLeaf(1, 0, 1) && Times(1, 3) == 3 && Taken(1, 3, 0, 1, 3) == 3
  {
    assert Times(1, 3) == 3 && Times(2, 2) == 4;
  }

  function Concat(parts: seq<Bytes>): Bytes
  {
    if parts == [] then [] else Concat(parts[..|parts| - 1]) + parts[|parts| - 1]
  }

  lemma ChunkGrows(size: nat, count: nat, x: Bytes, b: Bytes)
    ensures var c := Chunk(size, count, x);
            var k := Min(|b|, count * size - |c|);
            0 <= k <= |b| && Chunk(size, count, x + b) == c + b[..k]
  {
    var cap := count * size;
    if |x| > cap {
      assert (x + b)[..cap] == x[..cap];
    } else if |x + b| > cap {
      assert (x + b)[..cap] == x + b[..cap - |x|];
    }
  }

  lemma {:induction false} ConcatPrefix(parts: seq<Bytes>, k: nat)
    requires k <= |parts|
    ensures |Concat(parts[..k])| <= |Concat(parts)|
    decreases |parts|
  {
    if k < |parts| {
      var front := parts[..|parts| - 1];
      assert front[..k] == parts[..k];
      ConcatPrefix(front, k);
    } else {
      assert parts[..k] == parts;
    }
  }

  /** The input fits: it is cut, if at all, where the reference hasher cuts it. */
  ghost predicate Fits(size: nat, count: nat, parts: seq<Bytes>)
  {
    count % 2 == 0 || |Concat(parts)| <= count * size
  }

  /** One more part of an input that fits: the bytes taken are those up to the capacity. */
  lemma PartTaken(size: nat, count: nat, parts: seq<Bytes>, k: nat, cur: nat, n: nat)
    requires 0 < size && k < |parts| && Fits(size, count, parts)
    requires cur < (count + 1) / 2 && OpenLeaf(size, cur, n) && n == |Chunk(size, count, Concat(parts[..k]))|
    ensures n <= Times(size, count)
    ensures var t := Taken(size, count, cur, n, |parts[k]|);
            && 0 <= t <= |parts[k]|
            && Chunk(size, count, Concat(parts[..k])) + parts[k][..t] == Chunk(size, count, Concat(parts[..k + 1]))
  {
    TimesIsProduct(size, count);
    assert parts[..k + 1][..k] == parts[..k];
    ConcatPrefix(parts, k + 1);
    ChunkGrows(size, count, Concat(parts[..k]), parts[k]);
    CutAtCapacity(size, count, cur, n, |parts[k]|);
  }

  method WriteParts(h: Hasher, parts: seq<Bytes>) returns (ok: bool)
    requires h.Filling() == true && h.fed == []
    modifies h
    ensures h.Filling() == true && h.blockLength == old(h.blockLength) && h.wear == old(h.wear)
    ensures Fits(h.size, h.count, parts) ==> ok && h.fed == Chunk(h.size, h.count, Concat(parts))
  {
    for k := 0 to |parts|
      invariant h.Filling() == true && h.blockLength == old(h.blockLength) && h.wear == old(h.wear)
      invariant Fits(h.size, h.count, parts) ==> h.fed == Chunk(h.size, h.count, Concat(parts[..k]))
    {
      if Fits(h.size, h.count, parts) { PartTaken(h.size, h.count, parts, k, h.cur, |h.fed|); }
      var n;
      n, ok := h.Write(parts[k]);
      if !ok {
        return;
      }
      assert parts[k][..0] == [];
    }
    assert parts[..|parts|] == parts;
    ok := true;
  }

  /**
   The whole of it: a chunk written in any parts, with the goroutines scheduled in any way, hashes to
   what the reference hasher returns, and leaves the hasher ready for the next chunk.
   */
  method HashParts(h: Hasher, parts: seq<Bytes>) returns (r: Bytes, ok: bool)
    requires h.Ready() == true
    modifies h
    ensures Fits(h.size, h.count, parts) ==> ok && r == Root(h.H, h.size, Chunk(h.size, h.count, Concat(parts)))
    ensures ok && old(h.wear) + 2 < INT32_LIMIT ==> h.Ready() == true
  {
    h.Reset();
    ok := WriteParts(h, parts);
    if !ok {
      return [], false;
    }
    r := h.Sum();
  }
}
