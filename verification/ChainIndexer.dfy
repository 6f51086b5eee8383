/**
 The chain indexer (core/chain_indexer.go): sections of equal size are processed in the background,
 without the lock, while notifications of new heads, reorganisations and trusted checkpoints arrive.

 A header is known by its hash, which fixes its parent and its number.  Which hash is canonical at a
 number may change between any two reads of the update loop.  When the backend refuses to start, the
 index is cleared without the lock: notification and clearing then run at the same time, and every load
 and store of the count, in memory or in the database, and every deletion, is a step of its own.
 */
module ChainIndexer {
  import opened Shared

  type Hash = nat

  /** The zero hash: no header has it. */
  const ZERO: Hash := 0

  /** What decrementing an unsigned zero gives. */
  const MAX_UINT64: nat := 0xFFFF_FFFF_FFFF_FFFF

  /** The headers, by hash, and the indexer's settings. */
  datatype Chain = Chain(size: nat, confirms: nat, parent: Hash -> Hash, numberOf: Hash -> nat)

  /** Sections are not empty, and only the first block's parent is the zero hash. */
  ghost predicate Rooted(c: Chain) {
    c.size > 0 && forall h :: c.numberOf(h) > 0 ==> c.parent(h) != ZERO
  }

  /** The ancestor `n` generations back. */
  ghost function Back(c: Chain, head: Hash, n: nat): Hash
    decreases n
  {
    if n == 0 then head else Back(c, c.parent(head), n - 1)
  }

  /** `head` ends a run of `n` parent-linked headers, numbered from `first` on, that hangs on `prev`. */
  ghost predicate Linked(c: Chain, prev: Hash, head: Hash, first: nat, n: nat)
    decreases n
  {
    if n == 0 then prev == head
    else c.numberOf(head) == first + n - 1 && Linked(c, prev, c.parent(head), first, n - 1)
  }

  lemma {:induction false} LinkedBack(c: Chain, prev: Hash, head: Hash, first: nat, n: nat)
    requires Linked(c, prev, head, first, n)
    ensures Back(c, head, n) == prev
    decreases n
  {
    if n > 0 {
      LinkedBack(c, prev, c.parent(head), first, n - 1);
    }
  }

  lemma {:induction false} BackTwice(c: Chain, head: Hash, n: nat, m: nat)
    ensures Back(c, Back(c, head, n), m) == Back(c, head, n + m)
    decreases n
  {
    if n > 0 {
      BackTwice(c, c.parent(head), n - 1, m);
    }
  }

  /** A run that is not empty hangs on the parent of its first header. */
  lemma {:induction false} LinkedFirst(c: Chain, prev: Hash, head: Hash, first: nat, n: nat) returns (h: Hash)
    requires Linked(c, prev, head, first, n) && n > 0
    ensures c.parent(h) == prev && c.numberOf(h) == first
    decreases n
  {
    if n == 1 {
      h := head;
    } else {
      h := LinkedFirst(c, prev, c.parent(head), first, n - 1);
    }
  }

  // ---------------------------------------------------------------- the state

  /** Where a thread stands in setting the number of valid sections. */
  datatype Phase = Counting | Testing | Loading | Storing(value: nat) | Aiming | Deleting(section: nat) | Ending

  /** The state of the update loop. */
  datatype Job =
    | Idle
    | Running(section: nat, oldHead: Hash, lastHead: Hash, number: nat)
    | Finished(section: nat, oldHead: Hash, newHead: Hash)
    | Clearing(phase: Phase)
    | Failed

  /** Where the notification that holds the lock stands, if there is one. */
  datatype Notice = Quiet | Recording(section: nat, head: Hash) | Setting(sections: nat, phase: Phase)

  /** `count` and `heads` are in the database, the other fields in memory. */
  datatype State = State(stored: nat, known: nat, cascaded: nat, count: nat, heads: map<nat, Hash>, job: Job,
                         notice: Notice)

  /** The head recorded for a section, or the zero hash. */
  function HeadOf(heads: map<nat, Hash>, section: nat): Hash {
    if section in heads then heads[section] else ZERO
  }

  /** The head before a section, as the update loop reads it. */
  function HeadBefore(heads: map<nat, Hash>, section: nat): Hash {
    if section > 0 then HeadOf(heads, section - 1) else ZERO
  }

  function Below(heads: map<nat, Hash>, sections: nat): map<nat, Hash> {
    map s | s in heads && s < sections :: heads[s]
  }

  function Least(a: nat, b: nat): nat {
    if a < b then a else b
  }

  /** The stored count in the database is that in memory, and no head is recorded at or above it. */
  ghost predicate Coherent(x: State) {
    x.count == x.stored && forall s :: s in x.heads ==> s < x.stored
  }

  /** Neither a clearing nor a notification is under way. */
  ghost predicate Rest(x: State) {
    !x.job.Clearing? && x.notice == Quiet
  }

  /** A start from what the database holds. */
  function Loaded(count: nat, heads: map<nat, Hash>): State {
    State(count, 0, 0, count, heads, Idle, Quiet)
  }

  // ---------------------------------------------------------------- whole operations

  /** Another number of valid sections; recorded heads from there up to the old number go. */
  function Cut(x: State, sections: nat): State {
    x.(stored := sections, count := sections,
       heads := map s | s in x.heads && !(sections <= s < x.stored) :: x.heads[s])
  }

  /** A trusted checkpoint, accepted when it is newer than everything stored. */
  function Checkpointed(x: State, section: nat, head: Hash): State {
    if section < x.stored then x else Cut(x.(heads := x.heads[section := head]), section + 1)
  }

  /** What a reorganisation back into a section does to the fields that only the lock's holder uses. */
  function Reverted(c: Chain, x: State, changed: nat): State {
    x.(known := Least(x.known, changed), cascaded := Least(x.cascaded, changed * c.size))
  }

  /** A reorganisation that reaches back into the given section. */
  function Reorganised(c: Chain, x: State, changed: nat): State {
    if changed < x.stored then Cut(Reverted(c, x, changed), changed) else Reverted(c, x, changed)
  }

  /** A new head, which may complete sections. */
  function Grown(c: Chain, x: State, head: nat): State
    requires c.size > 0
  {
    if head >= c.confirms && (head + 1 - c.confirms) / c.size > x.known
    then x.(known := (head + 1 - c.confirms) / c.size) else x
  }

  /** The update loop takes up the next section, if one is known to be complete, and gives up the lock. */
  function Begun(c: Chain, x: State): State {
    if x.known > x.stored
    then x.(job := Running(x.stored, HeadBefore(x.heads, x.stored), HeadBefore(x.heads, x.stored), x.stored * c.size))
    else x
  }

  /** The canonical hash names a header with the right number on top of the last one. */
  predicate Follows(c: Chain, canonical: Hash, lastHead: Hash, number: nat) {
    canonical != ZERO && c.numberOf(canonical) == number && c.parent(canonical) == lastHead
  }

  /** One more canonical header was read, `canonical` being what the database said then; or all were read before. */
  function Processed(c: Chain, x: State, canonical: Hash, present: bool): State
    requires x.job.Running?
  {
    if x.job.number >= (x.job.section + 1) * c.size then
      x.(job := Finished(x.job.section, x.job.oldHead, x.job.lastHead))
    else if !present || !Follows(c, canonical, x.job.lastHead, x.job.number) then x.(job := Failed)
    else x.(job := x.job.(lastHead := canonical, number := x.job.number + 1))
  }

  /** With the lock again: the section is recorded if the head before it is still the same. */
  function Ended(c: Chain, x: State): State
    requires c.size > 0 && (x.job.Finished? || x.job.Failed?)
  {
    if x.job.Finished? && x.job.oldHead == HeadBefore(x.heads, x.job.section) then
      EndsSomewhere(x.job.section, c.size);
      Cut(x.(heads := x.heads[x.job.section := x.job.newHead]), x.job.section + 1)
      .(cascaded := (x.job.section + 1) * c.size - 1, job := Idle)
    else x.(known := x.stored, job := Idle)
  }

  lemma EndsSomewhere(section: nat, size: nat)
    requires size > 0
    ensures (section + 1) * size > 0
  {
  }

  // ---------------------------------------------------------------- steps

  /** What a thread does next to the count and the heads when it sets the number of valid sections. */
  function Effect(x: State, sections: nat, phase: Phase): State {
    match phase
    case Counting => x.(count := sections)
    case Storing(value) => x.(stored := if value == 0 then MAX_UINT64 else value - 1)
    case Deleting(section) => x.(heads := x.heads - {section})
    case Ending => x.(stored := sections)
    case _ => x
  }

  /** And where it stands then; after the last assignment it is done. */
  function Onward(x: State, sections: nat, phase: Phase): Option<Phase> {
    match phase
    case Counting => Some(Testing)
    case Testing => Some(if x.stored > sections then Loading else Ending)
    case Loading => Some(Storing(x.stored))
    case Storing(_) => Some(Aiming)
    case Aiming => Some(Deleting(x.stored))
    case Deleting(_) => Some(Testing)
    case Ending => None
  }

  /** One step of the unlocked clearing. */
  function Cleared(x: State): State
    requires x.job.Clearing?
  {
    var next := Onward(x, 0, x.job.phase);
    Effect(x, 0, x.job.phase).(job := if next.Some? then Clearing(next.value) else Failed)
  }

  /** One step of a notification. */
  function Notified(x: State): State
    requires x.notice != Quiet
  {
    match x.notice
    case Recording(section, head) =>
      x.(heads := x.heads[section := head], notice := Setting(section + 1, Counting))
    case Setting(sections, phase) =>
      var next := Onward(x, sections, phase);
      Effect(x, sections, phase).(notice := if next.Some? then Setting(sections, next.value) else Quiet)
  }

  datatype Op =
    | Checkpoint(section: nat, head: Hash)
    | Head(number: nat, reorg: bool)
    | Notify
    | Begin
    | Read(canonical: Hash, present: bool)
    | RefuseReset
    | Clear
    | RefuseCommit
    | End

  /** The start of a notification that gets the lock, or one step of a thread if it is where the step begins. */
  function Step(c: Chain, x: State, op: Op): State
    requires c.size > 0
  {
    match op
    case Checkpoint(section, head) =>
      if x.notice == Quiet && section >= x.stored then x.(notice := Recording(section, head)) else x
    case Head(number, reorg) =>
      if x.notice != Quiet then x
      else if !reorg then Grown(c, x, number)
      else Reverted(c, x, number / c.size)
           .(notice := if number / c.size < x.stored then Setting(number / c.size, Counting) else Quiet)
    case Notify => if x.notice != Quiet then Notified(x) else x
    case Begin => if x.notice == Quiet && x.job == Idle then Begun(c, x) else x
    case Read(canonical, present) => if x.job.Running? then Processed(c, x, canonical, present) else x
    case RefuseReset => if x.job.Running? then x.(job := Clearing(Counting)) else x
    case Clear => if x.job.Clearing? then Cleared(x) else x
    case RefuseCommit => if x.job.Finished? then x.(job := Failed) else x
    case End => if x.notice == Quiet && (x.job.Finished? || x.job.Failed?) then Ended(c, x) else x
  }

  /** The state after a run. */
  function After(c: Chain, x0: State, ops: seq<Op>): State
    requires c.size > 0
  {
    if ops == [] then x0 else Step(c, After(c, x0, ops[..|ops| - 1]), ops[|ops| - 1])
  }

  lemma AfterOne(c: Chain, x0: State, ops: seq<Op>, op: Op)
    requires c.size > 0
    ensures After(c, x0, ops + [op]) == Step(c, After(c, x0, ops), op)
  {
    assert (ops + [op])[..|ops|] == ops;
  }

  // ---------------------------------------------------------------- what the update loop has read

  /** The phase follows the test of a thread that nobody disturbs. */
  ghost predicate Undisturbed(stored: nat, sections: nat, phase: Phase) {
    match phase
    case Loading => stored > sections
    case Storing(value) => value == stored > sections
    case Aiming => stored >= sections
    case Deleting(section) => section == stored >= sections
    case Ending => stored <= sections
    case _ => true
  }

  /** No head below the section is beyond what is stored, or will be once the notification is done. */
  ghost predicate Behind(x: State, section: nat) {
    match x.notice
    case Setting(sections, phase) =>
      && Undisturbed(x.stored, sections, phase)
      && forall s :: s in x.heads ==>
           s >= section || s < x.stored || s < sections || (s == x.stored && (phase == Aiming || phase.Deleting?))
    case _ => forall s :: s in x.heads ==> s >= section || s < x.stored
  }

  /** What the update loop has read is one run of headers on the head it started from. */
  ghost predicate JobFits(c: Chain, x: State) {
    match x.job
    case Running(section, oldHead, lastHead, number) =>
      && section * c.size <= number <= section * c.size + c.size
      && Linked(c, oldHead, lastHead, section * c.size, number - section * c.size) && Behind(x, section)
    case Finished(section, oldHead, newHead) =>
      Linked(c, oldHead, newHead, section * c.size, c.size) && Behind(x, section)
    case _ => true
  }

  lemma BehindNotify(x: State, section: nat)
    requires x.notice != Quiet && Behind(x, section)
    ensures Behind(Notified(x), section)
  {
  }

  lemma JobRead(c: Chain, x: State, op: Op)
    requires Rooted(c) && JobFits(c, x) && op.Read?
    ensures JobFits(c, Step(c, x, op))
  {
  }

  lemma JobNoticed(c: Chain, x: State, op: Op)
    requires Rooted(c) && JobFits(c, x) && (op.Checkpoint? || op.Head?)
    ensures JobFits(c, Step(c, x, op))
  {
  }

  /** What the update loop has read stays one run of headers, whatever happens to the index. */
  lemma JobStep(c: Chain, x: State, op: Op)
    requires Rooted(c) && JobFits(c, x)
    ensures JobFits(c, Step(c, x, op))
  {
    match op {
      case Checkpoint(_, _) => JobNoticed(c, x, op);
      case Head(_, _) => JobNoticed(c, x, op);
      case Notify =>
        if x.notice != Quiet && (x.job.Running? || x.job.Finished?) {
          BehindNotify(x, x.job.section);
        }
      case Read(_, _) => JobRead(c, x, op);
      case _ =>
    }
  }

  // ---------------------------------------------------------------- where recorded heads come from

  /** The section is a full run of headers on top of the recorded head of the section before. */
  ghost predicate LinkedAt(c: Chain, heads: map<nat, Hash>, s: nat) {
    s in heads && Linked(c, HeadBefore(heads, s), heads[s], s * c.size, c.size)
  }

  /** The head came from a checkpoint. */
  ghost predicate Trusted(ops: seq<Op>, s: nat, head: Hash) {
    exists i :: 0 <= i < |ops| && ops[i] == Checkpoint(s, head)
  }

  /** Clearing has stored a count and will next load the section to delete. */
  ghost predicate ClearAims(x: State) {
    x.job == Clearing(Aiming)
  }

  ghost predicate NoticeAims(x: State) {
    x.notice.Setting? && x.notice.phase == Aiming
  }

  /**
   The head of the section is left behind: one thread has counted it out and not yet looked which section to delete,
   and the other, which loaded the count in between, stores one less.
   */
  ghost predicate Strands(x: State, op: Op, s: nat) {
    && s in x.heads && x.stored == s > 0
    && ((op == Clear && x.job == Clearing(Storing(s)) && NoticeAims(x))
        || (op == Notify && x.notice.Setting? && x.notice.phase == Storing(s) && ClearAims(x)))
  }

  ghost predicate StrandedBy(c: Chain, x0: State, ops: seq<Op>, i: nat, s: nat, head: Hash)
    requires c.size > 0
  {
    i < |ops| && var x := After(c, x0, ops[..i]); Strands(x, ops[i], s) && x.heads[s] == head
  }

  /** The head was left behind in one of the two ways. */
  ghost predicate Stranded(c: Chain, x0: State, ops: seq<Op>, s: nat, head: Hash)
    requires c.size > 0
  {
    exists i :: StrandedBy(c, x0, ops, i, s, head)
  }

  /** A recorded head that the update loop did not leave where it is: it came from outside, or was left behind. */
  ghost predicate Foreign(c: Chain, x0: State, ops: seq<Op>, s: nat, head: Hash)
    requires c.size > 0
  {
    (s in x0.heads && x0.heads[s] == head) || Trusted(ops, s, head) || Stranded(c, x0, ops, s, head)
  }

  /** A thread is about to delete the head of the section. */
  ghost predicate Doomed(x: State, s: nat) {
    x.job == Clearing(Deleting(s)) || (x.notice.Setting? && x.notice.phase == Deleting(s))
  }

  /** The section is among those stored, or the next to be deleted. */
  ghost predicate Guarded(x: State, s: nat) {
    s < x.stored || (s == x.stored && (ClearAims(x) || NoticeAims(x)))
  }

  /** What a thread that sets the number of sections does next leaves the section guarded, or strands it. */
  ghost predicate Spares(stored: nat, s: nat, sections: nat, phase: Phase, otherAims: bool) {
    match phase
    case Storing(value) => s < value || (s == value == stored && otherAims)
    case Deleting(section) => s < section
    case Ending => s < sections || (s == sections == stored && otherAims)
    case _ => true
  }

  ghost predicate Secure(c: Chain, x: State, s: nat) {
    && LinkedAt(c, x.heads, s) && Guarded(x, s)
    && (x.job.Clearing? ==> Spares(x.stored, s, 0, x.job.phase, NoticeAims(x)))
    && (x.notice.Setting? ==> Spares(x.stored, s, x.notice.sections, x.notice.phase, ClearAims(x)))
    && (x.notice.Recording? ==> s <= x.notice.section)
  }

  ghost predicate HeldAt(c: Chain, x0: State, ops: seq<Op>, x: State, s: nat)
    requires c.size > 0
  {
    s in x.heads ==> Foreign(c, x0, ops, s, x.heads[s]) || Doomed(x, s) || Secure(c, x, s)
  }

  ghost predicate Held(c: Chain, x0: State, ops: seq<Op>, x: State)
    requires c.size > 0
  {
    && (x.notice.Recording? ==> Trusted(ops, x.notice.section, x.notice.head))
    && forall s {:trigger HeldAt(c, x0, ops, x, s)} :: HeldAt(c, x0, ops, x, s)
  }

  lemma TrustedMore(ops: seq<Op>, op: Op, s: nat, head: Hash)
    requires Trusted(ops, s, head)
    ensures Trusted(ops + [op], s, head)
  {
    var i :| 0 <= i < |ops| && ops[i] == Checkpoint(s, head);
    assert (ops + [op])[i] == Checkpoint(s, head);
  }

  /** What came from outside before still did. */
  lemma ForeignMore(c: Chain, x0: State, ops: seq<Op>, op: Op, s: nat, head: Hash)
    requires c.size > 0 && Foreign(c, x0, ops, s, head)
    ensures Foreign(c, x0, ops + [op], s, head)
  {
    if Trusted(ops, s, head) {
      TrustedMore(ops, op, s, head);
    } else if Stranded(c, x0, ops, s, head) {
      var i: nat :| StrandedBy(c, x0, ops, i, s, head);
      assert (ops + [op])[..i] == ops[..i];
      assert StrandedBy(c, x0, ops + [op], i, s, head);
    }
  }

  /** A head that stays what it is stays accounted for, if it stays secure or doomed, or is left behind by this step. */
  lemma HeldKept(c: Chain, x0: State, ops: seq<Op>, op: Op, s: nat)
    requires c.size > 0
    requires var x := After(c, x0, ops);
             var y := Step(c, x, op);
             && HeldAt(c, x0, ops, x, s) && s in x.heads && s in y.heads && y.heads[s] == x.heads[s]
             && (Doomed(x, s) ==> Doomed(y, s))
             && (Secure(c, x, s) ==> Doomed(y, s) || Secure(c, y, s) || Strands(x, op, s))
    ensures HeldAt(c, x0, ops + [op], Step(c, After(c, x0, ops), op), s)
  {
    var x := After(c, x0, ops);
    if Foreign(c, x0, ops, s, x.heads[s]) {
      ForeignMore(c, x0, ops, op, s, x.heads[s]);
    } else if Strands(x, op, s) {
      assert (ops + [op])[..|ops|] == ops;
      assert StrandedBy(c, x0, ops + [op], |ops|, s, x.heads[s]);
    }
  }

  /** A step of the clearing deletes a section, leaves one behind, or keeps it secure. */
  lemma SecureClear(c: Chain, x: State, s: nat)
    requires c.size > 0 && x.job.Clearing? && Secure(c, x, s) && s in Cleared(x).heads
    ensures Doomed(Cleared(x), s) || Secure(c, Cleared(x), s) || Strands(x, Clear, s)
  {
    var y := Cleared(x);
    assert HeadBefore(y.heads, s) == HeadBefore(x.heads, s);
  }

  lemma SecureSetting(c: Chain, x: State, s: nat)
    requires c.size > 0 && x.notice.Setting? && Secure(c, x, s) && s in Notified(x).heads
    ensures Doomed(Notified(x), s) || Secure(c, Notified(x), s) || Strands(x, Notify, s)
  {
    var y := Notified(x);
    assert HeadBefore(y.heads, s) == HeadBefore(x.heads, s);
  }

  lemma SecureRecording(c: Chain, x: State, s: nat)
    requires c.size > 0 && x.notice.Recording? && Secure(c, x, s) && s != x.notice.section
    ensures Secure(c, Notified(x), s)
  {
    var y := Notified(x);
    assert HeadBefore(y.heads, s) == HeadBefore(x.heads, s);
  }

  lemma HeldClear(c: Chain, x0: State, ops: seq<Op>, s: nat)
    requires c.size > 0 && HeldAt(c, x0, ops, After(c, x0, ops), s) && After(c, x0, ops).job.Clearing?
    ensures HeldAt(c, x0, ops + [Clear], Step(c, After(c, x0, ops), Clear), s)
  {
    var x := After(c, x0, ops);
    if s in Cleared(x).heads {
      if Secure(c, x, s) {
        SecureClear(c, x, s);
      }
      HeldKept(c, x0, ops, Clear, s);
    }
  }

  lemma HeldNotify(c: Chain, x0: State, ops: seq<Op>, s: nat)
    requires c.size > 0 && Held(c, x0, ops, After(c, x0, ops)) && After(c, x0, ops).notice != Quiet
    ensures HeldAt(c, x0, ops + [Notify], Step(c, After(c, x0, ops), Notify), s)
  {
    var x := After(c, x0, ops);
    assert HeldAt(c, x0, ops, x, s);
    if x.notice.Recording? && s == x.notice.section {
      TrustedMore(ops, Notify, s, x.notice.head);
    } else if s in Notified(x).heads {
      if Secure(c, x, s) {
        if x.notice.Recording? { SecureRecording(c, x, s); } else { SecureSetting(c, x, s); }
      }
      HeldKept(c, x0, ops, Notify, s);
    }
  }

  /** A head that was found again is recorded below the count, so no reorganisation went below the section. */
  lemma StillThere(c: Chain, x: State)
    requires Rooted(c) && JobFits(c, x) && x.job.Finished? && x.job.oldHead == HeadBefore(x.heads, x.job.section)
    requires x.notice == Quiet
    ensures x.job.section <= x.stored && (x.job.section > 0 ==> x.job.section - 1 in x.heads)
  {
    var section := x.job.section;
    if section > 0 {
      var h := LinkedFirst(c, x.job.oldHead, x.job.newHead, section * c.size, c.size);
      EndsSomewhere(section - 1, c.size);
    }
  }

  /** The section that is recorded is linked to the head before it, which is still the same. */
  lemma SecureRecorded(c: Chain, x: State)
    requires Rooted(c) && JobFits(c, x) && x.notice == Quiet && x.job.Finished?
    requires x.job.oldHead == HeadBefore(x.heads, x.job.section)
    ensures Secure(c, Ended(c, x), x.job.section)
  {
    StillThere(c, x);
    assert HeadBefore(Ended(c, x).heads, x.job.section) == x.job.oldHead;
  }

  lemma SecureEnd(c: Chain, x: State, s: nat)
    requires Rooted(c) && JobFits(c, x) && x.notice == Quiet && (x.job.Finished? || x.job.Failed?)
    requires s in Ended(c, x).heads && Secure(c, x, s) && (x.job.Finished? ==> s != x.job.section)
    ensures Secure(c, Ended(c, x), s)
  {
    if x.job.Finished? && x.job.oldHead == HeadBefore(x.heads, x.job.section) {
      StillThere(c, x);
    }
    assert HeadBefore(Ended(c, x).heads, s) == HeadBefore(x.heads, s);
  }

  lemma HeldEnd(c: Chain, x0: State, ops: seq<Op>, s: nat)
    requires Rooted(c) && HeldAt(c, x0, ops, After(c, x0, ops), s) && JobFits(c, After(c, x0, ops))
    requires var x := After(c, x0, ops); x.notice == Quiet && (x.job.Finished? || x.job.Failed?)
    ensures HeldAt(c, x0, ops + [End], Step(c, After(c, x0, ops), End), s)
  {
    var x := After(c, x0, ops);
    if s in Ended(c, x).heads {
      if x.job.Finished? && s == x.job.section && x.job.oldHead == HeadBefore(x.heads, s) {
        SecureRecorded(c, x);
      } else {
        if Secure(c, x, s) && (x.job.Finished? ==> s != x.job.section) {
          SecureEnd(c, x, s);
        }
        HeldKept(c, x0, ops, End, s);
      }
    }
  }

  /** The operations that leave the heads alone. */
  lemma HeldOther(c: Chain, x0: State, ops: seq<Op>, op: Op, s: nat)
    requires c.size > 0 && HeldAt(c, x0, ops, After(c, x0, ops), s)
    requires !op.Notify? && !op.Clear? && !op.End?
    ensures HeldAt(c, x0, ops + [op], Step(c, After(c, x0, ops), op), s)
  {
    if s in After(c, x0, ops).heads {
      HeldKept(c, x0, ops, op, s);
    }
  }

  /** A head that is about to be recorded by a checkpoint came from it. */
  lemma TrustedStep(c: Chain, x0: State, ops: seq<Op>, op: Op)
    requires c.size > 0 && Held(c, x0, ops, After(c, x0, ops))
    ensures var y := Step(c, After(c, x0, ops), op);
            y.notice.Recording? ==> Trusted(ops + [op], y.notice.section, y.notice.head)
  {
    var x := After(c, x0, ops);
    if x.notice.Recording? {
      TrustedMore(ops, op, x.notice.section, x.notice.head);
    } else if op.Checkpoint? {
      assert (ops + [op])[|ops|] == op;
    }
  }

  lemma HeldStep(c: Chain, x0: State, ops: seq<Op>, op: Op)
    requires Rooted(c) && Held(c, x0, ops, After(c, x0, ops)) && JobFits(c, After(c, x0, ops))
    ensures Held(c, x0, ops + [op], Step(c, After(c, x0, ops), op))
  {
    var x := After(c, x0, ops);
    TrustedStep(c, x0, ops, op);
    forall s
      ensures HeldAt(c, x0, ops + [op], Step(c, x, op), s)
    {
      assert HeldAt(c, x0, ops, x, s);
      HeldStepAt(c, x0, ops, op, s);
    }
  }

  lemma HeldStepAt(c: Chain, x0: State, ops: seq<Op>, op: Op, s: nat)
    requires Rooted(c) && Held(c, x0, ops, After(c, x0, ops)) && JobFits(c, After(c, x0, ops))
    requires HeldAt(c, x0, ops, After(c, x0, ops), s)
    ensures HeldAt(c, x0, ops + [op], Step(c, After(c, x0, ops), op), s)
  {
    var x := After(c, x0, ops);
    if op == Clear && x.job.Clearing? {
      HeldClear(c, x0, ops, s);
    } else if op == Notify && x.notice != Quiet {
      HeldNotify(c, x0, ops, s);
    } else if op == End && x.notice == Quiet && (x.job.Finished? || x.job.Failed?) {
      HeldEnd(c, x0, ops, s);
    } else if op.Notify? || op.Clear? || op.End? {
      if s in x.heads {
        HeldKept(c, x0, ops, op, s);
      }
    } else {
      HeldOther(c, x0, ops, op, s);
    }
  }

  /**
   In every run, with unlocked clearing and all, a recorded head hangs through a full section of headers on the
   recorded head before it, unless it came from outside, is about to be deleted, or was left behind.
   */
  lemma {:induction false} EveryRun(c: Chain, x0: State, ops: seq<Op>)
    requires Rooted(c) && x0.job == Idle && x0.notice == Quiet
    ensures JobFits(c, After(c, x0, ops)) && Held(c, x0, ops, After(c, x0, ops))
    decreases |ops|
  {
    if ops == [] {
      assert forall s :: HeldAt(c, x0, ops, x0, s);
    } else {
      var front, last := ops[..|ops| - 1], ops[|ops| - 1];
      EveryRun(c, x0, front);
      JobStep(c, After(c, x0, front), last);
      HeldStep(c, x0, front, last);
      assert front + [last] == ops;
    }
  }

  /** The number of headers in `k` sections. */
  ghost function Generations(k: nat, size: nat): (n: nat)
    ensures n == k * size
  {
    if k == 0 then 0 else size + Generations(k - 1, size)
  }

  /** Consecutive sections that are linked form one chain of headers. */
  lemma {:induction false} OneChain(c: Chain, heads: map<nat, Hash>, from: nat, k: nat)
    requires from in heads && forall s :: from < s <= from + k ==> LinkedAt(c, heads, s)
    ensures from + k in heads && Back(c, heads[from + k], Generations(k, c.size)) == heads[from]
  {
    if k > 0 {
      var s := from + k;
      OneChain(c, heads, from, k - 1);
      assert LinkedAt(c, heads, s);
      LinkedBack(c, heads[s - 1], heads[s], s * c.size, c.size);
      BackTwice(c, heads[s], c.size, Generations(k - 1, c.size));
    }
  }

  // ---------------------------------------------------------------- coherence

  /** The thread whose step this is, if it is setting the number of sections: what it sets it to, and where it is. */
  function Turn(x: State, op: Op): Option<(nat, Phase)> {
    if op == Clear && x.job.Clearing? then Some((0, x.job.phase))
    else if op == Notify && x.notice.Setting? then Some((x.notice.sections, x.notice.phase))
    else None
  }

  /** The count that the step writes to the database, or the one written before. */
  function Written(c: Chain, x: State, op: Op, before: nat): nat
    requires c.size > 0
  {
    match Turn(x, op)
    case Some((sections, phase)) => if phase == Counting then sections else before
    case None => if op == End && x.notice == Quiet && Records(x) then x.job.section + 1 else before
  }

  /** The update loop records its section if it gets the lock. */
  predicate Records(x: State) {
    x.job.Finished? && x.job.oldHead == HeadBefore(x.heads, x.job.section)
  }

  /** The count that a thread assigns as its last step, or the one assigned before. */
  function Assigned(c: Chain, x: State, op: Op, before: nat): nat
    requires c.size > 0
  {
    match Turn(x, op)
    case Some((sections, phase)) => if phase == Ending then sections else before
    case None => if op == End && x.notice == Quiet && Records(x) then x.job.section + 1 else before
  }

  function LastWritten(c: Chain, x0: State, ops: seq<Op>): nat
    requires c.size > 0
  {
    if ops == [] then x0.count
    else
      var front := ops[..|ops| - 1];
      Written(c, After(c, x0, front), ops[|ops| - 1], LastWritten(c, x0, front))
  }

  function LastAssigned(c: Chain, x0: State, ops: seq<Op>): nat
    requires c.size > 0
  {
    if ops == [] then x0.stored
    else
      var front := ops[..|ops| - 1];
      Assigned(c, After(c, x0, front), ops[|ops| - 1], LastAssigned(c, x0, front))
  }

  /** The section is among those stored, or a thread is about to delete its head or to look for it. */
  ghost predicate Attended(x: State, s: nat) {
    Guarded(x, s) || Doomed(x, s)
  }

  /** The heads that a step leaves beyond what is stored: it stores a lower count, or records a checkpoint. */
  ghost function LeftBehind(c: Chain, x: State, op: Op): set<nat>
    requires c.size > 0
  {
    var y := Step(c, x, op);
    set s | && s in y.heads && !Attended(y, s)
            && (Attended(x, s) || (op == Notify && x.notice.Recording? && s == x.notice.section))
  }

  /** The heads left behind in a run that have neither been deleted since, nor been reached by the count again. */
  ghost function Loose(c: Chain, x0: State, ops: seq<Op>): set<nat>
    requires c.size > 0
  {
    if ops == [] then set s | s in x0.heads && s >= x0.stored
    else
      var front, op := ops[..|ops| - 1], ops[|ops| - 1];
      var x := After(c, x0, front);
      var y := Step(c, x, op);
      (set s | s in Loose(c, x0, front) && s in y.heads && !Attended(y, s)) + LeftBehind(c, x, op)
  }

  /** What a run has left: the last count written, the last one assigned, and the heads left behind. */
  ghost predicate Remains(x: State, written: nat, settled: nat, loose: set<nat>) {
    && x.count == written && (x.stored == settled || !Rest(x))
    && forall s :: s in loose <==> s in x.heads && !Attended(x, s)
  }

  lemma RemainsStep(c: Chain, x: State, op: Op, written: nat, settled: nat, loose: set<nat>)
    requires c.size > 0 && Remains(x, written, settled, loose)
    ensures var y := Step(c, x, op);
            Remains(y, Written(c, x, op, written), Assigned(c, x, op, settled),
                    (set s | s in loose && s in y.heads && !Attended(y, s)) + LeftBehind(c, x, op))
  {
    RemainsCounts(c, x, op, written, settled);
    var y := Step(c, x, op);
    forall s | s in y.heads && !Attended(y, s)
      ensures s in loose || s in LeftBehind(c, x, op)
    {
    }
  }

  lemma RemainsCounts(c: Chain, x: State, op: Op, written: nat, settled: nat)
    requires c.size > 0 && x.count == written && (x.stored == settled || !Rest(x))
    ensures var y := Step(c, x, op);
            y.count == Written(c, x, op, written) && (y.stored == Assigned(c, x, op, settled) || !Rest(y))
  {
  }

  lemma {:induction false} RemainsAlong(c: Chain, x0: State, ops: seq<Op>)
    requires c.size > 0 && Rest(x0)
    ensures Remains(After(c, x0, ops), LastWritten(c, x0, ops), LastAssigned(c, x0, ops), Loose(c, x0, ops))
    decreases |ops|
  {
    if ops != [] {
      var front := ops[..|ops| - 1];
      RemainsAlong(c, x0, front);
      RemainsStep(c, After(c, x0, front), ops[|ops| - 1], LastWritten(c, x0, front), LastAssigned(c, x0, front),
                  Loose(c, x0, front));
    }
  }

  /**
   Once clearing and notifications are done, in whatever order their steps came, the index is coherent if and only if
   the last count written to the database is the last one assigned in memory, and no head was left behind.
   */
  lemma RestCoherent(c: Chain, x0: State, ops: seq<Op>)
    requires c.size > 0 && Rest(x0) && Rest(After(c, x0, ops))
    ensures Coherent(After(c, x0, ops)) <==>
            LastWritten(c, x0, ops) == LastAssigned(c, x0, ops) && Loose(c, x0, ops) == {}
  {
    RemainsAlong(c, x0, ops);
    var x := After(c, x0, ops);
    if Coherent(x) {
      assert forall s :: s !in Loose(c, x0, ops);
    } else if x.count == x.stored {
      var s :| s in x.heads && s >= x.stored;
      assert s in Loose(c, x0, ops);
    }
  }

  // ---------------------------------------------------------------- one at a time

  /** A clearing and a notification are under way at the same time. */
  ghost predicate Overlap(x: State) {
    x.job.Clearing? && x.notice != Quiet
  }

  /** A thread that nobody has disturbed is on its way to `sections`. */
  ghost predicate OnItsWay(x: State, sections: nat, phase: Phase) {
    && Undisturbed(x.stored, sections, phase) && x.count == (if phase == Counting then x.stored else sections)
    && forall s :: s in x.heads ==>
         s < x.stored || s < sections || (s == x.stored && (phase == Aiming || phase.Deleting?))
  }

  ghost predicate Neat(x: State) {
    match x.notice
    case Setting(sections, phase) => OnItsWay(x, sections, phase)
    case Recording(section, _) => Coherent(x) && section >= x.stored
    case Quiet => if x.job.Clearing? then OnItsWay(x, 0, x.job.phase) else Coherent(x)
  }

  lemma NeatOnward(x: State, sections: nat, phase: Phase, y: State)
    requires OnItsWay(x, sections, phase)
    requires var z := Effect(x, sections, phase); y.stored == z.stored && y.count == z.count && y.heads == z.heads
    ensures var next := Onward(x, sections, phase);
            if next.Some? then OnItsWay(y, sections, next.value) else Coherent(y)
  {
  }

  lemma NeatStep(c: Chain, x: State, op: Op)
    requires c.size > 0 && Neat(x) && !Overlap(x) && !Overlap(Step(c, x, op))
    ensures Neat(Step(c, x, op))
  {
    var y := Step(c, x, op);
    match Turn(x, op) {
      case Some((sections, phase)) => NeatOnward(x, sections, phase, y);
      case None =>
    }
  }

  /** In every run the index is coherent whenever nothing is under way, unless a clearing met a notification. */
  lemma {:induction false} CoherentRun(c: Chain, x0: State, ops: seq<Op>)
    requires c.size > 0 && Rest(x0) && Coherent(x0)
    ensures || Neat(After(c, x0, ops))
            || exists i :: 0 <= i <= |ops| && Overlap(After(c, x0, ops[..i]))
    ensures Rest(After(c, x0, ops)) ==>
              || Coherent(After(c, x0, ops))
              || exists i :: 0 <= i <= |ops| && Overlap(After(c, x0, ops[..i]))
    decreases |ops|
  {
    if ops != [] {
      var front := ops[..|ops| - 1];
      CoherentRun(c, x0, front);
      assert ops[..|front|] == front && ops[..|ops|] == ops;
      if i :| 0 <= i <= |front| && Overlap(After(c, x0, front[..i])) {
        assert ops[..i] == front[..i];
      } else if !Overlap(After(c, x0, ops)) {
        assert front[..|front|] == front;
        assert !Overlap(After(c, x0, front));
        NeatStep(c, After(c, x0, front), ops[|ops| - 1]);
      }
    }
  }

  // ---------------------------------------------------------------- undisturbed notifications

  lemma {:induction false} AfterBoth(c: Chain, x: State, a: seq<Op>, b: seq<Op>)
    requires c.size > 0
    ensures After(c, x, a + b) == After(c, After(c, x, a), b)
    decreases |b|
  {
    if b == [] {
      assert a + b == a;
    } else {
      var front := b[..|b| - 1];
      AfterBoth(c, x, a, front);
      assert (a + b)[..|a + b| - 1] == a + front;
    }
  }

  /** Nothing but steps of the notification. */
  ghost predicate OnlyNotify(ops: seq<Op>) {
    forall i :: 0 <= i < |ops| ==> ops[i] == Notify
  }

  /** The steps that take one section away. */
  lemma OneSection(c: Chain, x: State) returns (ops: seq<Op>)
    requires c.size > 0 && x.notice.Setting? && x.notice.phase == Testing && x.stored > x.notice.sections
    ensures OnlyNotify(ops)
    ensures After(c, x, ops) == x.(stored := x.stored - 1, heads := x.heads - {x.stored - 1})
  {
    var sections := x.notice.sections;
    var x1 := x.(notice := Setting(sections, Loading));
    var x2 := x.(notice := Setting(sections, Storing(x.stored)));
    var x3 := x.(stored := x.stored - 1, notice := Setting(sections, Aiming));
    var x4 := x.(stored := x.stored - 1, notice := Setting(sections, Deleting(x.stored - 1)));
    var n1 := [Notify];
    var n2, n3, n4 := n1 + [Notify], n1 + [Notify] + [Notify], n1 + [Notify] + [Notify] + [Notify];
    AfterOne(c, x, [], Notify);
    assert After(c, x, n1) == x1;
    AfterOne(c, x, n1, Notify);
    assert After(c, x, n2) == x2;
    AfterOne(c, x, n2, Notify);
    assert After(c, x, n3) == x3;
    AfterOne(c, x, n3, Notify);
    assert After(c, x, n4) == x4;
    AfterOne(c, x, n4, Notify);
    ops := n4 + [Notify];
  }

  /** Taking one section away and cutting the rest is the same as cutting all. */
  lemma CutOnce(x: State, y: State, sections: nat)
    requires x.stored > sections && y == x.(stored := x.stored - 1, heads := x.heads - {x.stored - 1})
    ensures Cut(y, sections) == Cut(x, sections)
  {
    assert Cut(y, sections).heads == Cut(x, sections).heads;
  }

  /** A notification that has written its count and is left alone cuts the index. */
  lemma {:induction false} SettingAlone(c: Chain, x: State) returns (ops: seq<Op>)
    requires c.size > 0 && x.notice.Setting? && x.notice.phase == Testing && x.count == x.notice.sections
    ensures OnlyNotify(ops) && After(c, x, ops) == Cut(x, x.notice.sections).(notice := Quiet)
    decreases x.stored
  {
    var sections := x.notice.sections;
    if x.stored > sections {
      var first := OneSection(c, x);
      var y := After(c, x, first);
      var rest := SettingAlone(c, y);
      AfterBoth(c, x, first, rest);
      ops := first + rest;
      CutOnce(x, y, sections);
    } else {
      var x1 := x.(notice := Setting(sections, Ending));
      AfterOne(c, x, [], Notify);
      AfterOne(c, x, [Notify], Notify);
      ops := [Notify] + [Notify];
      assert Cut(x, sections).heads == x.heads;
    }
  }

  /** What a notification does when it is left alone. */
  function Whole(c: Chain, x: State, op: Op): State
    requires c.size > 0 && (op.Checkpoint? || op.Head?)
  {
    match op
    case Checkpoint(section, head) => Checkpointed(x, section, head)
    case Head(number, reorg) => if reorg then Reorganised(c, x, number / c.size) else Grown(c, x, number)
  }

  /** A notification that is left alone does all at once what the whole operation does. */
  lemma NoticeAlone(c: Chain, x: State, op: Op) returns (ops: seq<Op>)
    requires c.size > 0 && x.notice == Quiet && (op.Checkpoint? || op.Head?)
    ensures OnlyNotify(ops) && After(c, x, [op] + ops) == Whole(c, x, op)
  {
    var y := Step(c, x, op);
    AfterOne(c, x, [], op);
    ops := [];
    if y.notice == Quiet {
      assert [op] + ops == [op];
    } else {
      var first := [Notify];
      AfterOne(c, y, [], Notify);
      if y.notice.Recording? {
        AfterOne(c, y, [Notify], Notify);
        first := [Notify] + [Notify];
      }
      var z := After(c, y, first);
      var rest := SettingAlone(c, z);
      AfterBoth(c, y, first, rest);
      ops := first + rest;
      AfterBoth(c, x, [op], ops);
    }
  }

  // ---------------------------------------------------------------- the indexer

  class ChainIndexer {
    const chain: Chain
    var storedSections: nat
    var knownSections: nat
    var cascadedHead: nat
    var count: nat
    var heads: map<nat, Hash>
    var job: Job
    var notice: Notice

    function Now(): State
      reads this
    {
      State(storedSections, knownSections, cascadedHead, count, heads, job, notice)
    }

    /** An indexer that resumes with what the database holds. */
    constructor (chain: Chain, count: nat, heads: map<nat, Hash>)
      ensures this.chain == chain && Now() == Loaded(count, heads)
      ensures storedSections == this.count == count && this.heads == heads && knownSections == cascadedHead == 0
      ensures job == Idle && notice == Quiet
    {
      this.chain := chain;
      storedSections, knownSections, cascadedHead, this.count, this.heads := count, 0, 0, count, heads;
      job, notice := Idle, Quiet;
    }

    /** Set the number of valid sections; recorded heads from there up to the old number go. */
    method SetValidSections(sections: nat)
      modifies this`storedSections, this`count, this`heads
      ensures Now() == Cut(old(Now()), sections)
      ensures storedSections == count == sections
      ensures forall s :: s in heads <==> s in old(heads) && !(sections <= s < old(storedSections))
      ensures forall s :: s in heads ==> heads[s] == old(heads)[s]
    {
      count := sections;
      while storedSections > sections
        invariant count == sections && storedSections <= old(storedSections)
        invariant storedSections >= sections || storedSections == old(storedSections)
        invariant heads == map s | s in old(heads) && !(storedSections <= s < old(storedSections)) :: old(heads)[s]
      {
        storedSections := storedSections - 1;
        heads := heads - {storedSections};
      }
      storedSections := sections;
    }

    /** A trusted checkpoint that nothing disturbs, accepted when it is newer than everything stored. */
    method AddKnownSectionHead(section: nat, head: Hash)
      modifies this
      ensures Now() == Checkpointed(old(Now()), section, head)
      ensures section >= old(storedSections) ==>
                storedSections == count == section + 1 && heads == old(heads)[section := head]
      ensures section < old(storedSections) ==>
                storedSections == old(storedSections) && count == old(count) && heads == old(heads)
      ensures knownSections == old(knownSections) && cascadedHead == old(cascadedHead)
    {
      if section < storedSections {
        return;
      }
      heads := heads[section := head];
      SetValidSections(section + 1);
    }

    /** A new head, or a reorganisation back to the given number, that nothing disturbs. */
    method NewHead(head: nat, reorg: bool)
      requires chain.size > 0
      modifies this
      ensures Now() == Whole(chain, old(Now()), Head(head, reorg))
      ensures !reorg ==> Confirmed(chain, old(knownSections), knownSections, head)
      ensures !reorg ==> cascadedHead == old(cascadedHead) && storedSections == old(storedSections)
      ensures reorg ==> BackTo(chain, old(knownSections), old(cascadedHead), knownSections, cascadedHead, head)
      ensures reorg && old(Coherent(Now())) ==> heads == Below(old(heads), head / chain.size)
    {
      if reorg {
        var changed := head / chain.size;
        if changed < knownSections {
          knownSections := changed;
        }
        if changed < storedSections {
          SetValidSections(changed);
        }
        var end := changed * chain.size;
        if end < cascadedHead {
          cascadedHead := end;
        }
        RevertedBack(chain, old(Now()), head);
        return;
      }
      if head >= chain.confirms {
        var confirmed: nat := head + 1 - chain.confirms;
        var sections := confirmed / chain.size;
        if sections > knownSections {
          knownSections := sections;
        }
      }
      WholeSections(chain, old(Now()), head);
    }

    /** The update loop takes up the next section, if one is known to be complete, and gives up the lock. */
    method BeginUpdate()
      requires job == Idle
      modifies this`job
      ensures Now() == Begun(chain, old(Now()))
      ensures job.Running? <==> knownSections > storedSections
      ensures job.Running? ==> job.section == storedSections && job.number == Generations(storedSections, chain.size)
    {
      if knownSections > storedSections {
        var oldHead := HeadBefore(heads, storedSections);
        job := Running(storedSections, oldHead, oldHead, storedSections * chain.size);
      }
    }

    /** Without the lock: read the next canonical header, `canonical` being what the database says now. */
    method ProcessOne(canonical: Hash, present: bool)
      requires job.Running?
      modifies this`job
      ensures Now() == Processed(chain, old(Now()), canonical, present)
    {
      var Running(section, oldHead, lastHead, number) := job;
      if number >= (section + 1) * chain.size {
        job := Finished(section, oldHead, lastHead);
        return;
      }
      // The header is looked up by hash and number.
      if !present || !Follows(chain, canonical, lastHead, number) {
        job := Failed;
        return;
      }
      job := Running(section, oldHead, canonical, number + 1);
    }

    /** A notification gets the lock, and tests whether it has anything to set. */
    method Notice(op: Op)
      requires notice == Quiet && chain.size > 0 && (op.Checkpoint? || op.Head?)
      modifies this
      ensures Now() == Step(chain, old(Now()), op)
      ensures op.Head? && !op.reorg ==> Confirmed(chain, old(knownSections), knownSections, op.number)
      ensures op.Head? && op.reorg ==>
                BackTo(chain, old(knownSections), old(cascadedHead), knownSections, cascadedHead, op.number)
    {
      match op {
        case Checkpoint(section, head) =>
          if section >= storedSections {
            notice := Recording(section, head);
          }
        case Head(number, reorg) =>
          if reorg {
            var changed := number / chain.size;
            knownSections, cascadedHead := Least(knownSections, changed), Least(cascadedHead, changed * chain.size);
            if changed < storedSections {
              notice := Setting(changed, Counting);
            }
            RevertedBack(chain, old(Now()), number);
          } else {
            NewHead(number, false);
          }
      }
    }

    /** One load, store or deletion of a thread that sets the number of valid sections. */
    method SetStep(sections: nat, phase: Phase) returns (next: Option<Phase>)
      modifies this`storedSections, this`count, this`heads
      ensures Now() == Effect(old(Now()), sections, phase) && next == Onward(old(Now()), sections, phase)
    {
      match phase {
        case Counting =>
          count := sections;
          next := Some(Testing);
        case Testing =>
          next := Some(if storedSections > sections then Loading else Ending);
        case Loading =>
          next := Some(Storing(storedSections));
        case Storing(value) =>
          storedSections := if value == 0 then MAX_UINT64 else value - 1;
          next := Some(Aiming);
        case Aiming =>
          next := Some(Deleting(storedSections));
        case Deleting(section) =>
          heads := heads - {section};
          next := Some(Testing);
        case Ending =>
          storedSections := sections;
          next := None;
      }
    }

    /** With the lock: the next step of the notification. */
    method NoticeStep()
      requires notice != Quiet
      modifies this
      ensures Now() == Notified(old(Now()))
    {
      match notice {
        case Recording(section, head) =>
          heads := heads[section := head];
          notice := Setting(section + 1, Counting);
        case Setting(sections, phase) =>
          var next := SetStep(sections, phase);
          notice := if next.Some? then Setting(sections, next.value) else Quiet;
      }
    }

    /** The backend refuses to start: clearing begins. */
    method ResetFails()
      requires job.Running? && chain.size > 0
      modifies this`job
      ensures Now() == Step(chain, old(Now()), RefuseReset)
    {
      job := Clearing(Counting);
    }

    /** Without the lock: the next step of clearing. */
    method ClearStep()
      requires job.Clearing?
      modifies this
      ensures Now() == Cleared(old(Now()))
    {
      var next := SetStep(0, job.phase);
      job := if next.Some? then Clearing(next.value) else Failed;
    }

    /** Five steps of clearing take one section away. */
    method ClearSection()
      requires job == Clearing(Testing) && storedSections > 0
      modifies this
      ensures Now() == old(Now()).(stored := old(storedSections) - 1, heads := old(heads) - {old(storedSections) - 1})
    {
      ClearStep();
      ClearStep();
      ClearStep();
      ClearStep();
      ClearStep();
    }

    /** Clearing that nothing disturbs ends, and gives up all that was stored. */
    method ClearAlone()
      requires job.Running? && chain.size > 0
      modifies this
      ensures job == Failed && count == 0 == storedSections && knownSections == old(knownSections)
      ensures notice == old(notice)
      ensures heads == map s | s in old(heads) && s >= old(storedSections) :: old(heads)[s]
    {
      ResetFails();
      ClearStep();
      while storedSections > 0
        invariant count == 0 && job == Clearing(Testing) && storedSections <= old(storedSections)
        invariant knownSections == old(knownSections) && notice == old(notice)
        invariant heads == map s | s in old(heads) && !(storedSections <= s < old(storedSections)) :: old(heads)[s]
      {
        ClearSection();
      }
      ClearStep();
      ClearStep();
    }

    /** The backend fails to commit. */
    method CommitFails()
      requires job.Finished? && chain.size > 0
      modifies this`job
      ensures Now() == Step(chain, old(Now()), RefuseCommit)
    {
      job := Failed;
    }

    /** With the lock again: record the section if the head before it is still the same. */
    method EndUpdate()
      requires chain.size > 0 && (job.Finished? || job.Failed?)
      modifies this
      ensures Now() == Ended(chain, old(Now())) && job == Idle
      ensures var j := old(job);
              if j.Finished? && j.oldHead == HeadBefore(old(heads), j.section) then
                && storedSections == count == j.section + 1 && knownSections == old(knownSections)
                && j.section in heads && heads[j.section] == j.newHead
                && cascadedHead + 1 == Generations(j.section + 1, chain.size)
              else
                && storedSections == old(storedSections) && count == old(count) && heads == old(heads)
                && knownSections == storedSections && cascadedHead == old(cascadedHead)
    {
      if job.Finished? && job.oldHead == HeadBefore(heads, job.section) {
        EndsSomewhere(job.section, chain.size);
        heads := heads[job.section := job.newHead];
        SetValidSections(job.section + 1);
        cascadedHead := storedSections * chain.size - 1;
      } else {
        knownSections := storedSections;
      }
      job := Idle;
    }

    /** A section that nothing disturbs is recorded if and only if its canonical headers follow each other. */
    method UpdateAlone(canonical: seq<Hash>)
      requires chain.size == |canonical| > 0 && Coherent(Now()) && job == Idle && knownSections > storedSections
      modifies this
      ensures Coherent(Now()) && job == Idle
      ensures var section := old(storedSections);
              if Sequential(chain, canonical, HeadBefore(old(heads), section), section * chain.size)
              then storedSections == section + 1 && heads == old(heads)[section := canonical[|canonical| - 1]]
              else storedSections == section && heads == old(heads)
    {
      var section := storedSections;
      BeginUpdate();
      ReadSection(canonical, section, HeadBefore(heads, section));
      if job.Running? {
        ProcessOne(ZERO, false);
      }
      EndUpdate();
    }

    /** Read a whole section, or up to the first header that does not follow. */
    method ReadSection(canonical: seq<Hash>, section: nat, ghost oldHead: Hash)
      requires |canonical| == chain.size
      requires job == Running(section, oldHead, oldHead, section * chain.size)
      modifies this`job
      ensures job.Failed? || job.Running?
      ensures job.Running? <==> Sequential(chain, canonical, oldHead, section * chain.size)
      ensures job.Running? ==>
                job == Running(section, oldHead, if |canonical| == 0 then oldHead else canonical[|canonical| - 1],
                               section * chain.size + chain.size)
    {
      var i := 0;
      while i < |canonical| && job.Running?
        invariant 0 <= i <= |canonical|
        invariant job == Failed || job == Running(section, oldHead, if i == 0 then oldHead else canonical[i - 1],
                                                  section * chain.size + i)
        invariant job.Running? ==>
                  forall j :: 0 <= j < i ==> FollowsAt(chain, canonical, oldHead, section * chain.size, j)
        invariant job == Failed ==> i > 0 && !FollowsAt(chain, canonical, oldHead, section * chain.size, i - 1)
        decreases |canonical| - i
      {
        ProcessOne(canonical[i], true);
        i := i + 1;
      }
    }

    /** A reorganisation before the section is recorded stops that if and only if it reaches below the section. */
    method ReorgInside(head: nat)
      requires Rooted(chain) && JobFits(chain, Now()) && Coherent(Now())
      requires job.Finished? && job.oldHead == HeadBefore(heads, job.section) && notice == Quiet
      modifies this
      ensures old(job).section in heads <==> head / chain.size >= old(job).section
      ensures old(job).section in heads ==> heads[old(job).section] == old(job).newHead
    {
      ghost var section := job.section;
      if section > 0 {
        ghost var h := LinkedFirst(chain, job.oldHead, job.newHead, section * chain.size, chain.size);
        EndsSomewhere(section - 1, chain.size);
      }
      NewHead(head, true);
      EndUpdate();
    }

    /** Take one step of a notification or of the update loop. */
    method Do(op: Op)
      requires chain.size > 0
      modifies this
      ensures Now() == Step(chain, old(Now()), op)
    {
      match op {
        case Checkpoint(_, _) => if notice == Quiet { Notice(op); }
        case Head(_, _) => if notice == Quiet { Notice(op); }
        case Notify => if notice != Quiet { NoticeStep(); }
        case Begin => if notice == Quiet && job == Idle { BeginUpdate(); }
        case Read(canonical, present) => if job.Running? { ProcessOne(canonical, present); }
        case RefuseReset => if job.Running? { ResetFails(); }
        case Clear => if job.Clearing? { ClearStep(); }
        case RefuseCommit => if job.Finished? { CommitFails(); }
        case End => if notice == Quiet && (job.Finished? || job.Failed?) { EndUpdate(); }
      }
    }
  }

  /** The known sections are those known before or whose last block has its confirmations, whichever are more. */
  ghost predicate Confirmed(c: Chain, before: nat, now: nat, head: nat) {
    forall n :: n > 0 ==> (n <= now <==> n <= before || Generations(n, c.size) + c.confirms <= head + 1)
  }

  lemma WholeSections(c: Chain, x: State, head: nat)
    requires c.size > 0
    ensures Confirmed(c, x.known, Grown(c, x, head).known, head)
  {
    var left := head + 1 - c.confirms;
    forall n | n > 0
      ensures n <= Grown(c, x, head).known <==> n <= x.known || Generations(n, c.size) + c.confirms <= head + 1
    {
      if left >= 0 {
        SectionsFit(n, left, c.size);
      }
    }
  }

  /**
   After a reorganisation back to `head` no section is known that does not end below it, and nothing is cascaded above
   the start of the section that it is in.
   */
  ghost predicate BackTo(c: Chain, known0: nat, cascaded0: nat, known: nat, cascaded: nat, head: nat)
    requires c.size > 0
  {
    && (forall n :: n > 0 ==> (n <= known <==> n <= known0 && Generations(n, c.size) <= head))
    && cascaded <= cascaded0 && cascaded <= head - head % c.size
    && (cascaded == cascaded0 || cascaded == head - head % c.size)
  }

  lemma RevertedBack(c: Chain, x: State, head: nat)
    requires c.size > 0
    ensures var y := Reverted(c, x, head / c.size);
            BackTo(c, x.known, x.cascaded, y.known, y.cascaded, head)
  {
    var y := Reverted(c, x, head / c.size);
    forall n | n > 0
      ensures n <= y.known <==> n <= x.known && Generations(n, c.size) <= head
    {
      SectionsFit(n, head, c.size);
    }
    assert head / c.size * c.size == head - head % c.size;
  }

  lemma SectionsFit(k: nat, n: nat, size: nat)
    requires size > 0
    ensures k <= n / size <==> Generations(k, size) <= n
  {
    var q := n / size;
    if k <= q {
      assert k * size <= q * size;
    } else {
      assert k * size >= (q + 1) * size;
    }
  }

  ghost predicate FollowsAt(c: Chain, canonical: seq<Hash>, prev: Hash, first: nat, j: int)
    requires 0 <= j < |canonical|
  {
    Follows(c, canonical[j], if j == 0 then prev else canonical[j - 1], first + j)
  }

  ghost predicate Sequential(c: Chain, canonical: seq<Hash>, prev: Hash, first: nat) {
    forall j :: 0 <= j < |canonical| ==> FollowsAt(c, canonical, prev, first, j)
  }

  // ---------------------------------------------------------------- what is taken up

  /** A notification of the run that got the lock. */
  ghost predicate Heard(c: Chain, x0: State, ops: seq<Op>, i: int)
    requires c.size > 0 && 0 <= i < |ops|
  {
    ops[i].Head? && After(c, x0, ops[..i]).notice == Quiet
  }

  /** The head at `i` confirmed the first `n` sections. */
  ghost predicate Confirms(c: Chain, x0: State, ops: seq<Op>, i: int, n: nat)
    requires c.size > 0 && 0 <= i < |ops|
  {
    Heard(c, x0, ops, i) && !ops[i].reorg && Generations(n, c.size) + c.confirms <= ops[i].number + 1
  }

  /** No reorganisation from `from` on reached into the first `n` sections. */
  ghost predicate Untouched(c: Chain, x0: State, ops: seq<Op>, from: int, n: nat)
    requires c.size > 0 && 0 <= from <= |ops|
  {
    forall j {:trigger Heard(c, x0, ops, j)} :: from <= j < |ops| && Heard(c, x0, ops, j) && ops[j].reorg ==>
      Generations(n, c.size) <= ops[j].number
  }

  /** A head confirmed the first `n` sections, and no later reorganisation reached into them. */
  ghost predicate Backed(c: Chain, x0: State, ops: seq<Op>, n: nat)
    requires c.size > 0
  {
    exists i :: 0 <= i < |ops| && Confirms(c, x0, ops, i, n) && Untouched(c, x0, ops, i + 1, n)
  }

  /** What the stored count will be once the notification is done, or what the update loop has started from. */
  function Floor(x: State): nat {
    match x.job
    case Running(section, _, _, _) => section
    case Finished(section, _, _) => section
    case _ => Due(x)
  }

  function Due(x: State): nat {
    match x.notice
    case Quiet => x.stored
    case Recording(section, _) => section + 1
    case Setting(sections, _) => sections
  }

  /** Every known section is backed or stored; after a failure that is settled when the update ends. */
  ghost predicate KnownFits(c: Chain, x0: State, ops: seq<Op>, x: State)
    requires c.size > 0
  {
    x.job.Clearing? || x.job.Failed? || forall n :: 0 < n <= x.known ==> n <= Floor(x) || Backed(c, x0, ops, n)
  }

  lemma HeardMore(c: Chain, x0: State, ops: seq<Op>, op: Op, j: int)
    requires c.size > 0 && 0 <= j <= |ops|
    ensures Heard(c, x0, ops + [op], j)
        == if j < |ops| then Heard(c, x0, ops, j) else op.Head? && After(c, x0, ops).notice == Quiet
  {
    assert (ops + [op])[..j] == ops[..j] && ops[..|ops|] == ops;
  }

  /** An operation that is no reorganisation into the sections leaves them backed. */
  lemma BackedMore(c: Chain, x0: State, ops: seq<Op>, op: Op, n: nat)
    requires c.size > 0 && Backed(c, x0, ops, n)
    requires op.Head? && op.reorg && After(c, x0, ops).notice == Quiet ==> Generations(n, c.size) <= op.number
    ensures Backed(c, x0, ops + [op], n)
  {
    var all := ops + [op];
    var i :| 0 <= i < |ops| && Confirms(c, x0, ops, i, n) && Untouched(c, x0, ops, i + 1, n);
    HeardMore(c, x0, ops, op, i);
    forall j {:trigger Heard(c, x0, all, j)} | i + 1 <= j < |all| && Heard(c, x0, all, j) && all[j].reorg
      ensures Generations(n, c.size) <= all[j].number
    {
      HeardMore(c, x0, ops, op, j);
    }
    assert Confirms(c, x0, all, i, n) && Untouched(c, x0, all, i + 1, n);
  }

  /** A head backs what it confirms. */
  lemma BackedNow(c: Chain, x0: State, ops: seq<Op>, op: Op, n: nat)
    requires c.size > 0 && op.Head? && !op.reorg && After(c, x0, ops).notice == Quiet
    requires Generations(n, c.size) + c.confirms <= op.number + 1
    ensures Backed(c, x0, ops + [op], n)
  {
    var all := ops + [op];
    HeardMore(c, x0, ops, op, |ops|);
    assert Confirms(c, x0, all, |ops|, n) && Untouched(c, x0, all, |ops| + 1, n);
  }

  lemma KnownHead(c: Chain, x0: State, ops: seq<Op>, op: Op)
    requires c.size > 0 && KnownFits(c, x0, ops, After(c, x0, ops)) && op.Head?
    requires After(c, x0, ops).notice == Quiet
    ensures KnownFits(c, x0, ops + [op], Step(c, After(c, x0, ops), op))
  {
    var x := After(c, x0, ops);
    var y := Step(c, x, op);
    if op.reorg {
      RevertedBack(c, x, op.number);
    } else {
      WholeSections(c, x, op.number);
    }
    if !x.job.Clearing? && !x.job.Failed? {
      forall n | 0 < n <= y.known
        ensures n <= Floor(y) || Backed(c, x0, ops + [op], n)
      {
        if !op.reorg && n > x.known {
          BackedNow(c, x0, ops, op, n);
        } else if Backed(c, x0, ops, n) {
          BackedMore(c, x0, ops, op, n);
        } else if op.reorg {
          SectionsFit(n, op.number, c.size);
        }
      }
    }
  }

  lemma KnownStep(c: Chain, x0: State, ops: seq<Op>, op: Op)
    requires c.size > 0 && KnownFits(c, x0, ops, After(c, x0, ops))
    ensures KnownFits(c, x0, ops + [op], Step(c, After(c, x0, ops), op))
  {
    var x := After(c, x0, ops);
    var y := Step(c, x, op);
    if op.Head? && x.notice == Quiet {
      KnownHead(c, x0, ops, op);
    } else if !y.job.Clearing? && !y.job.Failed? {
      forall n | 0 < n <= y.known
        ensures n <= Floor(y) || Backed(c, x0, ops + [op], n)
      {
        if Backed(c, x0, ops, n) {
          BackedMore(c, x0, ops, op, n);
        }
      }
    }
  }

  lemma {:induction false} KnownAlong(c: Chain, x0: State, ops: seq<Op>)
    requires c.size > 0 && x0.job == Idle && x0.notice == Quiet && x0.known <= x0.stored
    ensures KnownFits(c, x0, ops, After(c, x0, ops))
    decreases |ops|
  {
    if ops != [] {
      var front, last := ops[..|ops| - 1], ops[|ops| - 1];
      KnownAlong(c, x0, front);
      KnownStep(c, x0, front, last);
      assert front + [last] == ops;
    }
  }

  /**
   In every run a section that is taken up was confirmed by a head, and no reorganisation since has reached into it or
   below.
   */
  lemma TakenUp(c: Chain, x0: State, ops: seq<Op>)
    requires c.size > 0 && x0.job == Idle && x0.notice == Quiet && x0.known <= x0.stored
    ensures var x, y := After(c, x0, ops), After(c, x0, ops + [Begin]);
            !x.job.Running? && y.job.Running? ==>
              y.job.section == x.stored == y.stored && Backed(c, x0, ops, y.job.section + 1)
  {
    KnownAlong(c, x0, ops);
    AfterOne(c, x0, ops, Begin);
  }

  /** Once no known section is left, as after a failure, nothing is taken up before the next head. */
  lemma {:induction false} NoneTaken(c: Chain, x: State, ops: seq<Op>)
    requires c.size > 0 && x.job == Idle && x.notice == Quiet && x.known <= x.stored
    requires forall i :: 0 <= i < |ops| && ops[i].Head? ==> ops[i].reorg
    ensures After(c, x, ops).job == Idle && After(c, x, ops).known <= Due(After(c, x, ops))
    decreases |ops|
  {
    if ops != [] {
      NoneTaken(c, x, ops[..|ops| - 1]);
    }
  }

  // ---------------------------------------------------------------- runs

  /** Any interleaving of the steps of notifications with those of the update loop, from any database. */
  method Run(c: Chain, count: nat, heads: map<nat, Hash>, ops: seq<Op>) returns (indexer: ChainIndexer)
    requires Rooted(c)
    ensures indexer.chain == c && indexer.Now() == After(c, Loaded(count, heads), ops)
    ensures forall s :: s in indexer.heads ==>
                          || LinkedAt(c, indexer.heads, s)
                          || Foreign(c, Loaded(count, heads), ops, s, indexer.heads[s])
                          || Doomed(indexer.Now(), s)
    ensures Rest(indexer.Now()) ==>
              (Coherent(indexer.Now()) <==>
               && LastWritten(c, Loaded(count, heads), ops) == LastAssigned(c, Loaded(count, heads), ops)
               && Loose(c, Loaded(count, heads), ops) == {})
    ensures Rest(indexer.Now()) && Coherent(Loaded(count, heads)) ==>
              || Coherent(indexer.Now())
              || exists i :: 0 <= i <= |ops| && Overlap(After(c, Loaded(count, heads), ops[..i]))
    ensures KnownFits(c, Loaded(count, heads), ops, indexer.Now())
  {
    ghost var x0 := Loaded(count, heads);
    indexer := new ChainIndexer(c, count, heads);
    for i := 0 to |ops|
      invariant fresh(indexer) && indexer.chain == c && indexer.Now() == After(c, x0, ops[..i])
    {
      AfterOne(c, x0, ops[..i], ops[i]);
      assert ops[..i + 1] == ops[..i] + [ops[i]];
      indexer.Do(ops[i]);
    }
    assert ops[..|ops|] == ops;
    EveryRun(c, x0, ops);
    KnownAlong(c, x0, ops);
    if Rest(indexer.Now()) {
      RestCoherent(c, x0, ops);
    }
    if Coherent(x0) {
      CoherentRun(c, x0, ops);
    }
    assert forall s :: s in indexer.heads ==> HeldAt(c, x0, ops, indexer.Now(), s);
  }

  // ---------------------------------------------------------------- runs that go wrong

  /** An indexer over `stored` linked or unlinked sections whose update loop is about to start on the next. */
  method Busy(c: Chain, stored: nat, heads: map<nat, Hash>) returns (indexer: ChainIndexer)
    requires c.size > 0
    ensures fresh(indexer) && indexer.chain == c && indexer.job.Running? && indexer.notice == Quiet
    ensures indexer.storedSections == stored == indexer.count && indexer.heads == heads
  {
    indexer := new ChainIndexer(c, stored, heads);
    SectionsFit(stored + 1, Generations(stored + 1, c.size), c.size);
    indexer.NewHead(c.confirms + (stored + 1) * c.size - 1, false);
    indexer.BeginUpdate();
  }

  /** A checkpoint just before the last assignment: its head stays in the database, which memory forgets. */
  method CheckpointAtEnd(c: Chain, section: nat, head: Hash) returns (indexer: ChainIndexer)
    requires c.size > 0
    ensures Rest(indexer.Now()) && !Coherent(indexer.Now())
    ensures indexer.storedSections == 0 && indexer.count == section + 1 && indexer.heads == map[section := head]
  {
    indexer := Busy(c, 0, map[]);
    indexer.ResetFails();
    indexer.ClearStep();
    indexer.ClearStep();
    indexer.AddKnownSectionHead(section, head);
    indexer.ClearStep();
  }

  /** A checkpoint during the loop: its head is deleted, but its count stays in the database. */
  method CheckpointInLoop(c: Chain, head: Hash) returns (indexer: ChainIndexer)
    requires c.size > 0
    ensures Rest(indexer.Now()) && !Coherent(indexer.Now())
    ensures indexer.storedSections == 0 && indexer.count == 1 && indexer.heads == map[]
  {
    indexer := Busy(c, 0, map[]);
    indexer.ResetFails();
    indexer.ClearStep();
    indexer.AddKnownSectionHead(0, head);
    indexer.ClearSection();
    indexer.ClearStep();
    indexer.ClearStep();
  }

  /** A reorganisation during the loop that leaves a section: its count stays in the database. */
  method ReorgInLoop(c: Chain, a: Hash, b: Hash) returns (indexer: ChainIndexer)
    requires c.size > 0
    ensures Rest(indexer.Now()) && !Coherent(indexer.Now())
    ensures indexer.storedSections == 0 && indexer.count == 1 && indexer.heads == map[]
  {
    indexer := Busy(c, 2, map[0 := a, 1 := b]);
    indexer.ResetFails();
    indexer.ClearStep();
    indexer.NewHead(c.size, true);
    indexer.ClearSection();
    indexer.ClearStep();
    indexer.ClearStep();
  }

  /** A reorganisation to the first section after a store of the clearing: a head stays, although the count is zero. */
  method ReorgStrands(c: Chain, a: Hash, b: Hash) returns (indexer: ChainIndexer)
    requires c.size > 0
    ensures Rest(indexer.Now()) && !Coherent(indexer.Now())
    ensures indexer.storedSections == 0 == indexer.count && indexer.heads == map[1 := b]
  {
    indexer := Busy(c, 2, map[0 := a, 1 := b]);
    indexer.ResetFails();
    indexer.ClearStep();
    indexer.ClearStep();
    indexer.ClearStep();
    indexer.ClearStep();
    assert indexer.storedSections == 1 && indexer.job == Clearing(Aiming) && indexer.heads == map[0 := a, 1 := b];
    indexer.NewHead(0, true);
    assert indexer.storedSections == 0 && indexer.job == Clearing(Aiming) && indexer.heads == map[1 := b];
    FinishClearing(indexer);
    assert 1 in indexer.heads;
  }

  /** The rest of a clearing that finds no more sections when it looks which one to delete. */
  method FinishClearing(indexer: ChainIndexer)
    requires indexer.job == Clearing(Aiming) && indexer.storedSections == 0
    modifies indexer
    ensures indexer.Now() == old(indexer.Now()).(heads := old(indexer.heads) - {0}, job := Failed)
  {
    indexer.ClearStep();
    indexer.ClearStep();
    indexer.ClearStep();
    indexer.ClearStep();
  }

  /** The same for a reorganisation to the first section. */
  method FinishNotice(indexer: ChainIndexer)
    requires indexer.notice == Setting(0, Aiming) && indexer.storedSections == 0
    modifies indexer
    ensures indexer.Now() == old(indexer.Now()).(heads := old(indexer.heads) - {0}, notice := Quiet)
  {
    indexer.NoticeStep();
    indexer.NoticeStep();
    indexer.NoticeStep();
    indexer.NoticeStep();
  }

  /** The same with the threads exchanged: a store of the clearing after one of the reorganisation. */
  method ClearStrands(c: Chain, a: Hash, b: Hash) returns (indexer: ChainIndexer)
    requires c.size > 0
    ensures Rest(indexer.Now()) && !Coherent(indexer.Now())
    ensures indexer.storedSections == 0 == indexer.count && indexer.heads == map[1 := b]
  {
    indexer := BothStart(c, a, b);
    BothStore(indexer);
    FinishClearing(indexer);
    FinishNotice(indexer);
    assert 1 in indexer.heads;
  }

  /** A clearing has tested that there is something to delete when a reorganisation arrives. */
  method BothStart(c: Chain, a: Hash, b: Hash) returns (indexer: ChainIndexer)
    requires c.size > 0
    ensures fresh(indexer) && indexer.job == Clearing(Loading) && indexer.notice == Setting(0, Counting)
    ensures indexer.storedSections == 2 && indexer.heads == map[0 := a, 1 := b]
  {
    indexer := Busy(c, 2, map[0 := a, 1 := b]);
    indexer.ResetFails();
    indexer.ClearStep();
    indexer.ClearStep();
    indexer.Notice(Head(0, true));
  }

  /** The reorganisation stores one less than there were, and the clearing one less than that. */
  method BothStore(indexer: ChainIndexer)
    requires indexer.job == Clearing(Loading) && indexer.notice == Setting(0, Counting) && indexer.storedSections == 2
    modifies indexer
    ensures indexer.Now()
            == old(indexer.Now()).(stored := 0, count := 0, job := Clearing(Aiming), notice := Setting(0, Aiming))
  {
    indexer.NoticeStep();
    indexer.NoticeStep();
    indexer.NoticeStep();
    indexer.NoticeStep();
    indexer.ClearStep();
    indexer.ClearStep();
  }

  /**
   A whole clearing inside a reorganisation that has just tested that it has something to do: the index is coherent,
   but counts a section that the reorganisation did not reach and the clearing has deleted.
   */
  method ClearedInside(c: Chain, a: Hash, b: Hash) returns (indexer: ChainIndexer)
    requires c.size > 0
    ensures Rest(indexer.Now()) && Coherent(indexer.Now())
    ensures indexer.storedSections == 1 == indexer.count && indexer.heads == map[]
  {
    indexer := Busy(c, 2, map[0 := a, 1 := b]);
    indexer.Notice(Head(c.size, true));
    indexer.ClearAlone();
    indexer.NoticeStep();
    indexer.NoticeStep();
    indexer.NoticeStep();
  }
}
