/**
 Weighted random selection (lzrm/randselect.go): items with weights at the leaves of an 8-ary tree
 whose nodes carry the total weight and the number of items below them.

 The reference is the row of slots below a node, read from left to right; an item index is a
 position in that row.  Weights are natural numbers, and the random draws are arbitrary.
 */
module WeightedSelect {

  type Item = nat

  const BRANCHES: nat := 8

  datatype Slot = Free | Taken(item: Item, weight: nat)

  datatype Entry = Nil | Leaf(item: Item) | Sub(node: Node)

  datatype Node = Node(items: seq<Entry>, weights: seq<int>, sumWeight: int, level: nat, itemCnt: nat, maxItems: nat)

  // ---------------------------------------------------------------- rows of slots

  function SlotWeight(s: Slot): nat {
    if s.Taken? then s.weight else 0
  }

  function Total(row: seq<Slot>): nat {
    if row == [] then 0 else Total(row[..|row| - 1]) + SlotWeight(row[|row| - 1])
  }

  function Count(row: seq<Slot>): nat {
    if row == [] then 0 else Count(row[..|row| - 1]) + (if row[|row| - 1].Taken? then 1 else 0)
  }

  function FreeRow(n: nat): seq<Slot> {
    seq(n, _ => Free)
  }

  lemma {:induction false} RowConcat(a: seq<Slot>, b: seq<Slot>)
    ensures Total(a + b) == Total(a) + Total(b) && Count(a + b) == Count(a) + Count(b)
  {
    if b == [] {
      assert a + b == a;
    } else {
      RowConcat(a, b[..|b| - 1]);
      assert (a + b)[..|a + b| - 1] == a + b[..|b| - 1];
    }
  }

  lemma RowUpdate(row: seq<Slot>, i: nat, s: Slot)
    requires i < |row|
    ensures Total(row[i := s]) == Total(row) - SlotWeight(row[i]) + SlotWeight(s)
    ensures Count(row[i := s]) == Count(row) - Count([row[i]]) + Count([s])
  {
    RowAround(row, i);
    RowAround(row[i := s], i);
    assert row[i := s][..i] == row[..i] && row[i := s][i + 1..] == row[i + 1..];
  }

  lemma RowAround(row: seq<Slot>, i: nat)
    requires i < |row|
    ensures Total(row) == Total(row[..i]) + SlotWeight(row[i]) + Total(row[i + 1..])
    ensures Count(row) == Count(row[..i]) + Count([row[i]]) + Count(row[i + 1..])
    ensures Count([row[i]]) == if row[i].Taken? then 1 else 0
  {
    RowConcat(row[..i] + [row[i]], row[i + 1..]);
    RowConcat(row[..i], [row[i]]);
    assert row == row[..i] + [row[i]] + row[i + 1..];
    assert [row[i]][..0] == [];
  }

  lemma {:induction false} FreeRowEmpty(n: nat)
    ensures Total(FreeRow(n)) == 0 && Count(FreeRow(n)) == 0
  {
    if n > 0 {
      FreeRowEmpty(n - 1);
      assert FreeRow(n)[..n - 1] == FreeRow(n - 1);
    }
  }

  /** A row holds at most one item per slot, and exactly that many only when no slot is free. */
  lemma {:induction false} CountFull(row: seq<Slot>)
    ensures Count(row) <= |row|
    ensures Count(row) == |row| <==> forall i :: 0 <= i < |row| ==> row[i].Taken?
  {
    if row != [] {
      CountFull(row[..|row| - 1]);
      assert forall i :: 0 <= i < |row| - 1 ==> row[..|row| - 1][i] == row[i];
    }
  }

  /** The weight to the left of a slot grows with the slot, by at least the weights in between. */
  lemma PrefixGrows(row: seq<Slot>, i: nat, j: nat)
    requires i < j <= |row|
    ensures Total(row[..i]) + SlotWeight(row[i]) <= Total(row[..j]) <= Total(row)
  {
    RowAround(row[..j], i);
    assert row[..j][..i] == row[..i];
    RowConcat(row[..j], row[j..]);
    assert row == row[..j] + row[j..];
  }

  /** The interval of draws that belongs to slot `i`. */
  ghost predicate Owns(row: seq<Slot>, i: nat, val: nat) {
    i < |row| && Total(row[..i]) <= val < Total(row[..i]) + SlotWeight(row[i])
  }

  /** The intervals are disjoint: a draw belongs to at most one slot. */
  lemma OwnerUnique(row: seq<Slot>, i: nat, j: nat, val: nat)
    requires Owns(row, i, val) && Owns(row, j, val)
    ensures i == j
  {
    if i < j {
      PrefixGrows(row, i, j);
    } else if j < i {
      PrefixGrows(row, j, i);
    }
  }

  /** An interval lies below the total weight, so every occupied slot owns exactly `weight` of the draws. */
  lemma OwnedDraws(row: seq<Slot>, i: nat, val: nat)
    requires i < |row|
    ensures Total(row[..i]) + SlotWeight(row[i]) <= Total(row)
    ensures Owns(row, i, val) ==> val < Total(row) && row[i].Taken?
  {
    RowAround(row, i);
  }

  // ---------------------------------------------------------------- nodes

  /** The number of slots below one branch of a node of the given level. */
  function Width(level: nat): (w: nat)
    ensures w > 0
  {
    if level == 0 then 1 else BRANCHES * Width(level - 1)
  }

  /** Structure only: a node of the given level and everything below it. */
  ghost predicate Shaped(n: Node) {
    && |n.items| == BRANCHES && |n.weights| == BRANCHES && n.maxItems == BRANCHES * Width(n.level)
    && forall b :: 0 <= b < BRANCHES ==> Fits(n, n.items[b], n.weights[b])
  }

  ghost predicate Fits(n: Node, e: Entry, weight: int)
    requires e in n.items
  {
    match e
    case Nil => true
    case Leaf(_) => n.level == 0 && weight > 0
    case Sub(c) => n.level > 0 && c.level == n.level - 1 && Shaped(c)
  }

  /** The slots below branch `b`. */
  ghost function Part(n: Node, b: nat): (row: seq<Slot>)
    requires Shaped(n) && b < BRANCHES
    ensures |row| == Width(n.level)
    decreases n, 0
  {
    var e := n.items[b];
    assert Fits(n, e, n.weights[b]);
    match e
    case Nil => FreeRow(Width(n.level))
    case Leaf(item) => [Taken(item, n.weights[b])]
    case Sub(c) => First(c, BRANCHES)
  }

  /** The slots below the first `k` branches. */
  ghost function First(n: Node, k: nat): (row: seq<Slot>)
    requires Shaped(n) && k <= BRANCHES
    ensures |row| == k * Width(n.level)
    decreases n, 1, k
  {
    if k == 0 then [] else First(n, k - 1) + Part(n, k - 1)
  }

  ghost function Slots(n: Node): (row: seq<Slot>)
    requires Shaped(n)
    ensures |row| == n.maxItems
  {
    First(n, BRANCHES)
  }

  /** Every sum and every counter in the tree is the sum over the leaves below it. */
  ghost predicate Exact(n: Node) {
    && Shaped(n)
    && n.sumWeight == Total(Slots(n)) && n.itemCnt == Count(Slots(n))
    && (forall b :: 0 <= b < BRANCHES ==> n.weights[b] == Total(Part(n, b)))
    && (forall b :: 0 <= b < BRANCHES && n.items[b].Sub? ==> Exact(n.items[b].node))
  }

  /** Below branch `b` slot `j` becomes `s`; the other branches have the same slots. */
  ghost predicate Swaps(n: Node, m: Node, b: nat, j: nat, s: Slot) {
    && Shaped(n) && Shaped(m) && b < BRANCHES && m.level == n.level && j < Width(n.level)
    && Part(m, b) == Part(n, b)[j := s]
    && forall c :: 0 <= c < BRANCHES && c != b ==> Part(m, c) == Part(n, c)
  }

  lemma {:induction false} SwapsFirst(n: Node, m: Node, b: nat, j: nat, s: Slot, k: nat)
    requires Swaps(n, m, b, j, s) && k <= BRANCHES
    ensures k <= b ==> First(m, k) == First(n, k)
    ensures k > b ==> |First(n, b)| + j < |First(n, k)| && First(n, k)[|First(n, b)| + j] == Part(n, b)[j]
    ensures k > b ==> First(m, k) == First(n, k)[|First(n, b)| + j := s]
  {
    if k > 0 {
      SwapsFirst(n, m, b, j, s, k - 1);
    }
  }

  /** The slot's position in the whole row, and the row after the change. */
  lemma SwapsSlots(n: Node, m: Node, b: nat, j: nat, s: Slot)
    requires Swaps(n, m, b, j, s) == true
    ensures b * Width(n.level) + j < n.maxItems && Slots(n)[b * Width(n.level) + j] == Part(n, b)[j]
    ensures Slots(m) == Slots(n)[b * Width(n.level) + j := s]
  {
    SwapsFirst(n, m, b, j, s, BRANCHES);
  }

  /** The sums stay exact when they move by the change of that slot. */
  lemma SwapsExact(n: Node, m: Node, b: nat, j: nat, s: Slot, d: int)
    requires Exact(n) == true && Swaps(n, m, b, j, s) == true && d == SlotWeight(s) - SlotWeight(Part(n, b)[j])
    requires m.weights == n.weights[b := n.weights[b] + d] && m.sumWeight == n.sumWeight + d
    requires m.itemCnt == n.itemCnt - Count([Part(n, b)[j]]) + Count([s])
    requires m.items == n.items[b := m.items[b]] && (m.items[b].Sub? ==> Exact(m.items[b].node) == true)
    ensures Exact(m) == true
  {
    SwapsSums(n, m, b, j, s, d);
    RowUpdate(Part(n, b), j, s);
  }

  lemma SwapsSums(n: Node, m: Node, b: nat, j: nat, s: Slot, d: int)
    requires Exact(n) && Swaps(n, m, b, j, s) == true && d == SlotWeight(s) - SlotWeight(Part(n, b)[j])
    ensures Total(Slots(m)) == n.sumWeight + d
    ensures Count(Slots(m)) == n.itemCnt - Count([Part(n, b)[j]]) + Count([s])
  {
    SwapsSlots(n, m, b, j, s);
    RowUpdate(Slots(n), b * Width(n.level) + j, s);
  }

  /** A node below branch `b` whose row differs in slot `j`. */
  lemma SubSwaps(n: Node, m: Node, b: nat, j: nat, s: Slot)
    requires Shaped(n) && n.level > 0 && b < BRANCHES && j < Width(n.level) && m.level == n.level
    requires m.maxItems == n.maxItems
    requires b < |m.items| == |m.weights| == BRANCHES && m.items[b].Sub? && m.items[b].node.level == n.level - 1
    requires m.items == n.items[b := m.items[b]] && m.weights == n.weights[b := m.weights[b]]
    requires Shaped(m.items[b].node) && Slots(m.items[b].node) == Part(n, b)[j := s]
    ensures Swaps(n, m, b, j, s) == true
  {
    OtherParts(n, m, b);
    assert Part(m, b) == Slots(m.items[b].node);
  }

  /** A node with another entry and weight at branch `b`. */
  lemma OtherParts(n: Node, m: Node, b: nat)
    requires Shaped(n) && b < BRANCHES && m.level == n.level && m.maxItems == n.maxItems
    requires |m.items| == |m.weights| == BRANCHES && Fits(m, m.items[b], m.weights[b])
    requires m.items == n.items[b := m.items[b]] && m.weights == n.weights[b := m.weights[b]]
    ensures Shaped(m) && forall c :: 0 <= c < BRANCHES && c != b ==> Part(m, c) == Part(n, c)
  {
    forall c | 0 <= c < BRANCHES && c != b
      ensures Fits(m, m.items[c], m.weights[c])
    {
      assert m.items[c] == n.items[c] && m.weights[c] == n.weights[c];
      assert Fits(n, n.items[c], n.weights[c]);
    }
  }

  /** A node of which the first `b` branches are full, and the next is not, has no free slot before that branch. */
  lemma {:induction false} FullBefore(n: Node, b: nat)
    requires Exact(n) && b <= BRANCHES
    requires forall c :: 0 <= c < b ==> Full(n, c)
    ensures forall i :: 0 <= i < |First(n, b)| ==> First(n, b)[i].Taken?
  {
    if b > 0 {
      FullBefore(n, b - 1);
      assert Full(n, b - 1);
    }
  }

  ghost predicate Full(n: Node, b: nat)
    requires Shaped(n) && b < BRANCHES
  {
    forall i :: 0 <= i < |Part(n, b)| ==> Part(n, b)[i].Taken?
  }

  /** The test by which insertion skips branch `b`: it skips exactly the full ones. */
  predicate Skips(n: Node, b: nat)
    requires b < |n.items|
  {
    match n.items[b]
    case Nil => false
    case Leaf(_) => true
    case Sub(c) => c.itemCnt == c.maxItems
  }

  lemma SkipsFull(n: Node, b: nat)
    requires Exact(n) && b < BRANCHES
    ensures Skips(n, b) <==> Full(n, b)
  {
    assert Fits(n, n.items[b], n.weights[b]);
    match n.items[b]
    case Nil => assert Part(n, b)[0] == Free;
    case Leaf(_) =>
    case Sub(c) => CountFull(Slots(c));
  }

  /** A new, empty node. */
  function NewNode(level: nat): (n: Node)
    ensures Exact(n) && n.level == level && Slots(n) == FreeRow(n.maxItems) && n.sumWeight == 0 && n.itemCnt == 0
  {
    var n := Node(seq(BRANCHES, _ => Nil), seq(BRANCHES, _ => 0), 0, level, 0, BRANCHES * Width(level));
    NewNodeRow(n, BRANCHES);
    FreeRowEmpty(n.maxItems);
    FreeRowEmpty(Width(level));
    n
  }

  lemma {:induction false} NewNodeRow(n: Node, k: nat)
    requires Shaped(n) && k <= BRANCHES && forall b :: 0 <= b < BRANCHES ==> n.items[b] == Nil
    ensures First(n, k) == FreeRow(k * Width(n.level))
  {
    if k > 0 {
      NewNodeRow(n, k - 1);
    }
  }

  /** Full branches, then taken slots of a branch: nothing free before that point of the whole row. */
  lemma FirstFree(n: Node, b: nat, j: nat)
    requires Shaped(n) && b < BRANCHES && j < Width(n.level)
    requires forall i :: 0 <= i < |First(n, b)| ==> First(n, b)[i].Taken?
    requires forall i :: 0 <= i < j ==> Part(n, b)[i].Taken?
    ensures b * Width(n.level) + j < |Slots(n)|
    ensures forall i :: 0 <= i < b * Width(n.level) + j ==> Slots(n)[i].Taken?
  {
    SlotsAt(n, b, j);
    FirstIsPrefix(n, b, BRANCHES);
    forall i | 0 <= i < b * Width(n.level) + j
      ensures Slots(n)[i].Taken?
    {
      if i < |First(n, b)| {
        assert Slots(n)[i] == First(n, b)[i];
      } else {
        SlotsAt(n, b, i - |First(n, b)|);
      }
    }
  }

  lemma {:induction false} FirstIsPrefix(n: Node, b: nat, k: nat)
    requires Shaped(n) && b <= k <= BRANCHES
    ensures |First(n, b)| <= |First(n, k)| && First(n, k)[..|First(n, b)|] == First(n, b)
  {
    if b < k {
      FirstIsPrefix(n, b, k - 1);
    }
  }

  lemma SlotsAt(n: Node, b: nat, j: nat)
    requires Shaped(n) && b < BRANCHES && j < Width(n.level)
    ensures b * Width(n.level) + j < |Slots(n)| && Slots(n)[b * Width(n.level) + j] == Part(n, b)[j]
  {
    SwapsSlots(n, n, b, j, Part(n, b)[j]);
  }

  /** The first branch with room. */
  method FindBranch(n: Node) returns (branch: nat)
    requires Exact(n) && n.itemCnt < n.maxItems
    ensures branch < BRANCHES && !Skips(n, branch)
    ensures forall i :: 0 <= i < |First(n, branch)| ==> First(n, branch)[i].Taken?
  {
    branch := 0;
    while Skips(n, branch)
      invariant branch < BRANCHES
      invariant forall c :: 0 <= c < branch ==> Full(n, c)
      decreases BRANCHES - branch
    {
      SkipsFull(n, branch);
      branch := branch + 1;
      if branch == BRANCHES {
        FullBefore(n, BRANCHES);
        CountFull(Slots(n));
        assert false;
      }
    }
    FullBefore(n, branch);
  }

  /** What is below a branch with room at an inner node: a node with a free slot, possibly a new one. */
  function Below(n: Node, b: nat): (sub: Node)
    requires Exact(n) && b < BRANCHES && n.level > 0 && !Skips(n, b)
    ensures Exact(sub) && sub.level == n.level - 1 && sub.itemCnt < sub.maxItems && Slots(sub) == Part(n, b)
  {
    assert Fits(n, n.items[b], n.weights[b]);
    match n.items[b]
    case Nil => NewNode(n.level - 1)
    case Sub(c) => CountFull(Slots(c)); c
  }

  /**
   Insertion takes the first free slot; a node that is not full always has one, so the source's panic is unreachable.
   */
  method Insert(n: Node, item: Item, weight: nat) returns (m: Node, idx: nat)
    requires Exact(n) && n.itemCnt < n.maxItems && weight > 0
    ensures Exact(m) && m.level == n.level
    ensures idx < n.maxItems && Slots(n)[idx] == Free && (forall i :: 0 <= i < idx ==> Slots(n)[i].Taken?)
    ensures Slots(m) == Slots(n)[idx := Taken(item, weight)]
    decreases n.level
  {
    var branch := FindBranch(n);
    var j: nat := 0;
    if n.level == 0 {
      PlaceLeaf(n, branch, item, weight);
      m := Place(n, branch, Leaf(item), weight);
    } else {
      var sub;
      sub, j := Insert(Below(n, branch), item, weight);
      PlaceSub(n, branch, sub, j, item, weight);
      m := Place(n, branch, Sub(sub), weight);
    }
    FirstFree(n, branch, j);
    idx := branch * Width(n.level) + j;
  }

  function Place(n: Node, b: nat, e: Entry, weight: nat): Node
    requires b < |n.items| == |n.weights|
  {
    n.(items := n.items[b := e], weights := n.weights[b := n.weights[b] + weight],
       sumWeight := n.sumWeight + weight, itemCnt := n.itemCnt + 1)
  }

  /** `m` is a correct node whose row is that of `n` with a free slot taken. */
  ghost predicate Inserted(n: Node, m: Node, b: nat, j: nat, item: Item, weight: nat) {
    && Exact(n) && Exact(m) && m.level == n.level && b < BRANCHES && j < Width(n.level)
    && b * Width(n.level) + j < |Slots(n)| && Slots(n)[b * Width(n.level) + j] == Free
    && Slots(m) == Slots(n)[b * Width(n.level) + j := Taken(item, weight)]
  }

  lemma PlaceLeaf(n: Node, b: nat, item: Item, weight: nat)
    requires Exact(n) && b < BRANCHES && n.level == 0 && !Skips(n, b) && weight > 0
    ensures Inserted(n, Place(n, b, Leaf(item), weight), b, 0, item, weight)
  {
    var m := Place(n, b, Leaf(item), weight);
    assert Fits(n, n.items[b], n.weights[b]);
    assert Part(n, b) == FreeRow(1);
    FreeRowEmpty(1);
    assert n.weights[b] == 0;
    OtherParts(n, m, b);
    assert Part(m, b) == [Taken(item, weight)] == Part(n, b)[0 := Taken(item, weight)];
    SwapsExact(n, m, b, 0, Taken(item, weight), weight);
    SwapsSlots(n, m, b, 0, Taken(item, weight));
  }

  lemma PlaceSub(n: Node, b: nat, sub: Node, j: nat, item: Item, weight: nat)
    requires Exact(n) && b < BRANCHES && n.level > 0
    requires Exact(sub) && sub.level == n.level - 1 && j < Width(n.level) && Part(n, b)[j] == Free
    requires Slots(sub) == Part(n, b)[j := Taken(item, weight)]
    ensures Inserted(n, Place(n, b, Sub(sub), weight), b, j, item, weight)
  {
    var m := Place(n, b, Sub(sub), weight);
    SubSwaps(n, m, b, j, Taken(item, weight));
    SwapsExact(n, m, b, j, Taken(item, weight), weight);
    SwapsSlots(n, m, b, j, Taken(item, weight));
  }

  // ---------------------------------------------------------------- changing and choosing

  /** The slot an item index leads to afterwards. */
  function Reweighed(s: Slot, weight: nat): Slot {
    if s.Free? || weight == 0 then Free else Taken(s.item, weight)
  }

  /** Set the weight of the item at `idx`, or take it out when the weight is zero. */
  method SetNodeWeight(n: Node, idx: nat, weight: nat) returns (m: Node, diff: int)
    requires Exact(n) && idx < n.maxItems && Slots(n)[idx].Taken?
    ensures Exact(m) && m.level == n.level
    ensures Slots(m) == Slots(n)[idx := Reweighed(Slots(n)[idx], weight)]
    ensures diff == weight - Slots(n)[idx].weight
    decreases n.level
  {
    CountTaken(Slots(n), idx);
    if n.level == 0 {
      m, diff := SetLeafWeight(n, idx, weight);
    } else {
      var branch, j := Locate(n, idx);
      var sub;
      sub, diff := SetNodeWeight(n.items[branch].node, j, weight);
      m := n.(items := n.items[branch := Sub(sub)], weights := n.weights[branch := n.weights[branch] + diff],
              sumWeight := n.sumWeight + diff, itemCnt := if weight == 0 then n.itemCnt - 1 else n.itemCnt);
      ghost var s := Reweighed(Part(n, branch)[j], weight);
      ReweighExact(n, m, branch, j, s, diff);
      ReweighSlots(n, m, branch, j, s, diff);
    }
  }

  method SetLeafWeight(n: Node, idx: nat, weight: nat) returns (m: Node, diff: int)
    requires Exact(n) && n.level == 0 && idx < n.maxItems && Slots(n)[idx].Taken?
    ensures Exact(m) && m.level == n.level
    ensures Slots(m) == Slots(n)[idx := Reweighed(Slots(n)[idx], weight)]
    ensures diff == weight - Slots(n)[idx].weight
  {
    CountTaken(Slots(n), idx);
    SlotsAt(n, idx, 0);
    var oldWeight := n.weights[idx];
    diff := weight - oldWeight;
    m := n.(weights := n.weights[idx := weight], sumWeight := n.sumWeight + diff);
    if weight == 0 {
      m := m.(items := n.items[idx := Nil], itemCnt := n.itemCnt - 1);
    }
    ReweighLeaf(n, m, idx, weight);
  }

  lemma CountTaken(row: seq<Slot>, i: nat)
    requires i < |row| && row[i].Taken?
    ensures Count(row) > 0
  {
    RowAround(row, i);
  }

  /** The branch an index falls into, and the index below that branch. */
  method Locate(n: Node, idx: nat) returns (branch: nat, j: nat)
    requires Exact(n) && n.level > 0 && idx < n.maxItems && Slots(n)[idx].Taken?
    ensures branch < BRANCHES && j < Width(n.level) && idx == branch * Width(n.level) + j
    ensures Part(n, branch)[j] == Slots(n)[idx] && n.items[branch].Sub?
    ensures var c := n.items[branch].node; Exact(c) && c.level == n.level - 1 && Slots(c) == Part(n, branch)
  {
    var branchItems := n.maxItems / BRANCHES;
    branch := idx / branchItems;
    DivideBelow(idx, branchItems);
    j := idx - branch * branchItems;
    SlotsAt(n, branch, j);
    assert Fits(n, n.items[branch], n.weights[branch]);
  }

  lemma DivideBelow(idx: nat, w: nat)
    requires w > 0 && idx < BRANCHES * w
    ensures idx / w < BRANCHES && 0 <= idx - idx / w * w < w
  {
    assert idx == idx / w * w + idx % w;
    if idx / w >= BRANCHES {
      AtLeast(idx / w, BRANCHES, w);
    }
  }

  lemma AtLeast(a: nat, b: nat, w: nat)
    requires a >= b
    ensures a * w >= b * w
  {
    assert a * w == b * w + (a - b) * w;
  }

  lemma ReweighLeaf(n: Node, m: Node, b: nat, weight: nat)
    requires Exact(n) && n.level == 0 && b < BRANCHES && Part(n, b)[0].Taken?
    requires m == n.(items := m.items, weights := n.weights[b := weight],
                     sumWeight := n.sumWeight + weight - n.weights[b], itemCnt := m.itemCnt)
    requires m.items == (if weight == 0 then n.items[b := Nil] else n.items)
    requires m.itemCnt == if weight == 0 then n.itemCnt - 1 else n.itemCnt
    ensures Exact(m) && Slots(n)[b] == Part(n, b)[0] && n.weights[b] == Slots(n)[b].weight
    ensures Slots(m) == Slots(n)[b := Reweighed(Slots(n)[b], weight)]
  {
    assert Fits(n, n.items[b], n.weights[b]);
    var s := Reweighed(Part(n, b)[0], weight);
    OtherParts(n, m, b);
    assert Part(m, b) == Part(n, b)[0 := s];
    assert Count([s]) == (if weight == 0 then 0 else 1);
    SwapsExact(n, m, b, 0, s, weight - n.weights[b]);
    SwapsSlots(n, m, b, 0, s);
  }

  /** An inner node with a changed node below branch `b`. */
  ghost predicate Reweighs(n: Node, m: Node, b: nat, j: nat, s: Slot, d: int) {
    && Exact(n) && n.level > 0 && b < BRANCHES && j < Width(n.level)
    && m.level == n.level && m.maxItems == n.maxItems && b < |m.items| == |m.weights| == BRANCHES
    && m.items == n.items[b := m.items[b]] && m.weights == n.weights[b := n.weights[b] + d]
    && m.sumWeight == n.sumWeight + d && d == SlotWeight(s) - SlotWeight(Part(n, b)[j])
    && m.items[b].Sub? && Exact(m.items[b].node) && m.items[b].node.level == n.level - 1
    && Slots(m.items[b].node) == Part(n, b)[j := s]
  }

  lemma ReweighExact(n: Node, m: Node, b: nat, j: nat, s: Slot, d: int)
    requires Reweighs(n, m, b, j, s, d) == true && Part(n, b)[j].Taken?
    requires m.itemCnt == if s.Free? then n.itemCnt - 1 else n.itemCnt
    ensures Exact(m) == true
  {
    SubSwaps(n, m, b, j, s);
    CountOne(s);
    CountOne(Part(n, b)[j]);
    SwapsExact(n, m, b, j, s, d);
  }

  lemma ReweighSlots(n: Node, m: Node, b: nat, j: nat, s: Slot, d: int)
    requires Reweighs(n, m, b, j, s, d) == true
    ensures b * Width(n.level) + j < n.maxItems && Slots(n)[b * Width(n.level) + j] == Part(n, b)[j]
    ensures Shaped(m) && Slots(m) == Slots(n)[b * Width(n.level) + j := s]
  {
    SubSwaps(n, m, b, j, s);
    SwapsSlots(n, m, b, j, s);
  }

  lemma CountOne(s: Slot)
    ensures Count([s]) == if s.Taken? then 1 else 0
  {
    assert [s][..0] == [];
  }

  /** A branch with weight has something below it. */
  lemma HeavyBranch(n: Node, b: nat)
    requires Exact(n) && b < BRANCHES && n.weights[b] > 0
    ensures n.level == 0 ==> n.items[b].Leaf? && Part(n, b) == [Taken(n.items[b].item, n.weights[b])]
    ensures n.level > 0 ==>
              && n.items[b].Sub? && Exact(n.items[b].node) && Part(n, b) == Slots(n.items[b].node)
              && n.items[b].node.level == n.level - 1 && n.items[b].node.sumWeight == n.weights[b]
  {
    assert Fits(n, n.items[b], n.weights[b]);
    if n.items[b] == Nil {
      FreeRowEmpty(Width(n.level));
    }
  }

  /** A draw below the total weight finds the one slot that owns it; the source's panic is unreachable. */
  method ChooseNode(n: Node, draw: nat) returns (item: Item, weight: nat, ghost idx: nat)
    requires Exact(n) && draw < n.sumWeight
    ensures Owns(Slots(n), idx, draw) && Slots(n)[idx] == Taken(item, weight)
    decreases n.level
  {
    var val := draw;
    for i := 0 to BRANCHES
      invariant val >= 0 && val + Total(First(n, i)) == draw
    {
      RowConcat(First(n, i), Part(n, i));
      var w := n.weights[i];
      if val < w {
        HeavyBranch(n, i);
        if n.level == 0 {
          item, weight, idx := n.items[i].item, n.weights[i], 0;
        } else {
          item, weight, idx := ChooseNode(n.items[i].node, val);
        }
        assert Owns(Part(n, i), idx, val);
        OwnsWithin(n, i, idx, val);
        idx := i * Width(n.level) + idx;
        return;
      }
      val := val - w;
    }
    assert false;
  }

  lemma OwnsWithin(n: Node, b: nat, j: nat, val: nat)
    requires Shaped(n) && b < BRANCHES && Owns(Part(n, b), j, val)
    ensures b * Width(n.level) + j < |Slots(n)| && Slots(n)[b * Width(n.level) + j] == Part(n, b)[j]
    ensures Owns(Slots(n), b * Width(n.level) + j, val + Total(First(n, b)))
  {
    SlotsAt(n, b, j);
    FirstIsPrefix(n, b, BRANCHES);
    FirstIsPrefix(n, b + 1, BRANCHES);
    RowConcat(First(n, b), Part(n, b)[..j]);
    assert Slots(n)[..b * Width(n.level) + j] == First(n, b + 1)[..b * Width(n.level) + j]
        == First(n, b) + Part(n, b)[..j];
  }

  // ---------------------------------------------------------------- the selector

  /** The item map and the row of slots point at each other. */
  ghost predicate Indexed(row: seq<Slot>, idx: map<Item, nat>) {
    && (forall x :: x in idx ==> idx[x] < |row| && row[idx[x]].Taken? && row[idx[x]].item == x)
    && (forall i :: 0 <= i < |row| && row[i].Taken? ==> row[i].item in idx && idx[row[i].item] == i)
  }

  /** The weight of every item in the row. */
  ghost function Weights(row: seq<Slot>, idx: map<Item, nat>): map<Item, nat>
    requires Indexed(row, idx)
  {
    map x | x in idx :: row[idx[x]].weight
  }

  /** A new root above a full one. */
  function Grown(root: Node): (n: Node)
    requires Exact(root)
    ensures Exact(n) && n.level == root.level + 1 && n.sumWeight == root.sumWeight && n.itemCnt == root.itemCnt
    ensures |Slots(root)| < |Slots(n)| && Slots(n)[..|Slots(root)|] == Slots(root)
    ensures forall i :: |Slots(root)| <= i < |Slots(n)| ==> Slots(n)[i] == Free
  {
    var n := Node([Sub(root), Nil, Nil, Nil, Nil, Nil, Nil, Nil], [root.sumWeight, 0, 0, 0, 0, 0, 0, 0],
                  root.sumWeight, root.level + 1, root.itemCnt, root.maxItems * BRANCHES);
    assert Fits(n, n.items[0], n.weights[0]);
    GrownRow(n, root, BRANCHES);
    RowConcat(Slots(root), FreeRow((BRANCHES - 1) * Width(n.level)));
    FreeRowEmpty((BRANCHES - 1) * Width(n.level));
    FreeRowEmpty(Width(n.level));
    n
  }

  lemma {:induction false} GrownRow(n: Node, root: Node, k: nat)
    requires Shaped(n) && Shaped(root) && 0 < k <= BRANCHES && n.items[0] == Sub(root)
    requires forall b :: 0 < b < BRANCHES ==> n.items[b] == Nil
    ensures First(n, k) == Slots(root) + FreeRow((k - 1) * Width(n.level))
  {
    if k == 1 {
      assert First(n, 0) == [];
      assert Part(n, 0) == Slots(root);
    } else {
      GrownRow(n, root, k - 1);
      assert FreeRow((k - 1) * Width(n.level)) == FreeRow((k - 2) * Width(n.level)) + FreeRow(Width(n.level));
    }
  }

  /** Only items of positive weight are stored. */
  lemma {:induction false} StoredWeigh(n: Node, k: nat, i: nat)
    requires Shaped(n) && k <= BRANCHES && i < |First(n, k)| && First(n, k)[i].Taken?
    ensures First(n, k)[i].weight > 0
    decreases n, k
  {
    if i < |First(n, k - 1)| {
      StoredWeigh(n, k - 1, i);
    } else {
      assert Fits(n, n.items[k - 1], n.weights[k - 1]);
      if n.items[k - 1].Sub? {
        StoredWeigh(n.items[k - 1].node, BRANCHES, i - |First(n, k - 1)|);
      }
    }
  }

  /** A change of one taken slot. */
  lemma Reindexed(row: seq<Slot>, idx: map<Item, nat>, x: Item, weight: nat)
    requires Indexed(row, idx) && x in idx
    ensures var row' := row[idx[x] := Reweighed(row[idx[x]], weight)];
            var idx' := if weight == 0 then idx - {x} else idx;
            Indexed(row', idx') && Weights(row', idx') == SetTo(Weights(row, idx), x, weight)
  {
    var row' := row[idx[x] := Reweighed(row[idx[x]], weight)];
    if weight == 0 {
      assert Indexed(row', idx - {x});
      assert Weights(row', idx - {x}) == Weights(row, idx) - {x};
    } else {
      assert Indexed(row', idx);
    }
  }

  lemma NewlyIndexed(row: seq<Slot>, idx: map<Item, nat>, x: Item, i: nat, weight: nat)
    requires Indexed(row, idx) && x !in idx && i < |row| && row[i] == Free && weight > 0
    ensures var row', idx' := row[i := Taken(x, weight)], idx[x := i];
            Indexed(row', idx') && Weights(row', idx') == SetTo(Weights(row, idx), x, weight)
  {
  }

  ghost function SetTo(w: map<Item, nat>, x: Item, weight: nat): map<Item, nat> {
    if weight == 0 then w - {x} else w[x := weight]
  }

  datatype Choice = Nothing | Chosen(item: Item)

  class WeightedRandomSelect {
    var root: Node
    var idx: map<Item, nat>

    ghost predicate Valid()
      reads this
    {
      Exact(root) && Indexed(Slots(root), idx)
    }

    /** The abstract contents. */
    ghost function Contents(): map<Item, nat>
      requires Valid()
      reads this
    {
      Weights(Slots(root), idx)
    }

    constructor ()
      ensures Valid() && Contents() == map[]
    {
      root := NewNode(0);
      idx := map[];
    }

    /** Set, add or remove an item. */
    method SetWeight(item: Item, weight: nat)
      requires Valid()
      modifies this
      ensures Valid() && Contents() == SetTo(old(Contents()), item, weight)
      ensures root.sumWeight == old(root.sumWeight) + weight
                                - (if item in old(Contents()) then old(Contents())[item] else 0)
    {
      if item in idx {
        var at := idx[item];
        RowUpdate(Slots(root), at, Reweighed(Slots(root)[at], weight));
        Reindexed(Slots(root), idx, item, weight);
        var n, diff := SetNodeWeight(root, at, weight);
        root := n;
        if weight == 0 {
          idx := idx - {item};
        }
      } else if weight != 0 {
        MakeRoom();
        var n, at := Insert(root, item, weight);
        RowUpdate(Slots(root), at, Taken(item, weight));
        NewlyIndexed(Slots(root), idx, item, at, weight);
        root := n;
        idx := idx[item := at];
      }
    }

    /** Add a level when the tree is full; the item indexes stay as they are. */
    method MakeRoom()
      requires Valid()
      modifies this`root
      ensures Valid() && Contents() == old(Contents()) && root.itemCnt < root.maxItems
      ensures root.sumWeight == old(root.sumWeight)
      ensures old(root).itemCnt < old(root).maxItems ==> root == old(root)
    {
      CountFull(Slots(root));
      if root.itemCnt == root.maxItems {
        var grown := Grown(root);
        assert forall i :: 0 <= i < |Slots(root)| ==> Slots(grown)[i] == Slots(grown)[..|Slots(root)|][i];
        root := grown;
      }
    }

    /** An empty selector is one without weight. */
    lemma Weightless()
      requires Valid()
      ensures root.sumWeight == 0 <==> Contents() == map[]
    {
      var row := Slots(root);
      if x :| x in idx {
        StoredWeigh(root, BRANCHES, idx[x]);
        RowAround(row, idx[x]);
        assert x in Contents();
      } else {
        assert idx == map[];
        assert row == FreeRow(|row|);
        FreeRowEmpty(|row|);
      }
    }

    /**
     One selection, for any random draws.  `weightOf` gives the items' weights, which do not change
     meanwhile.  A round that does not return lowers the total weight.
     */
    method Choose(weightOf: map<Item, nat>) returns (choice: Choice)
      requires Valid() && Contents().Keys <= weightOf.Keys
      modifies this
      ensures Valid() && Contents().Keys <= old(Contents()).Keys
      ensures choice == Nothing <==> Contents() == map[]
      ensures choice.Chosen? ==> choice.item in Contents() && Contents()[choice.item] == weightOf[choice.item]
      ensures forall x :: x in old(Contents()) && choice != Chosen(x) ==>
                Lowered(old(Contents()), Contents(), weightOf, x)
    {
      while true
        invariant Valid() && Contents().Keys <= old(Contents()).Keys
        invariant forall x :: x in old(Contents()) ==> Lowered(old(Contents()), Contents(), weightOf, x)
        decreases root.sumWeight
      {
        Weightless();
        if root.sumWeight == 0 {
          return Nothing;
        }
        var val: nat :| val < root.sumWeight;
        var item, lastWeight := Draw(val);
        var weight := weightOf[item];
        ghost var before := Contents();
        if weight != lastWeight {
          SetWeight(item, weight);
        }
        var coin: nat :| coin < lastWeight;
        if weight >= lastWeight || coin < weight {
          assert item in Contents();
          return Chosen(item);
        }
        LoweredAgain(old(Contents()), before, Contents(), weightOf, item);
      }
    }

    /** One draw: the item whose interval contains it, with its stored weight. */
    method Draw(val: nat) returns (item: Item, weight: nat)
      requires Valid() && val < root.sumWeight
      ensures item in Contents() && Contents()[item] == weight > 0
      ensures item in idx && Owns(Slots(root), idx[item], val)
    {
      ghost var at;
      item, weight, at := ChooseNode(root, val);
      StoredWeigh(root, BRANCHES, at);
    }
  }

  /** Item `x` has kept its stored weight, or it was lowered to its present weight, or left when that is zero. */
  ghost predicate Lowered(w0: map<Item, nat>, w: map<Item, nat>, weightOf: map<Item, nat>, x: Item)
    requires x in w0
  {
    && x in weightOf
    && if x in w then w[x] == w0[x] || w[x] == weightOf[x] < w0[x] else weightOf[x] == 0
  }

  lemma LoweredAgain(w0: map<Item, nat>, w1: map<Item, nat>, w2: map<Item, nat>, weightOf: map<Item, nat>, item: Item)
    requires item in weightOf && item in w1 && weightOf[item] < w1[item] && w2 == SetTo(w1, item, weightOf[item])
    requires w1.Keys <= w0.Keys && forall x :: x in w0 ==> Lowered(w0, w1, weightOf, x)
    ensures forall x :: x in w0 ==> Lowered(w0, w2, weightOf, x)
  {
  }
}
