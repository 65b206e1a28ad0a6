/** The lock-free queue: any number of threads inside `Enqueue` and `Dequeue`, one atomic access at a
    time. Nodes are named by their position in the linked chain; a node that is not linked yet is local to
    its thread, and memory is garbage collected, so a name is never reused. */
module LockFreeQueue {
  import opened Collections
  import opened Sums

  datatype Slot<T> = Value(v: T) | Nil
  datatype Op<T> = Enqueue(v: T) | Dequeue
  datatype Answer<T> = Enqueued | Empty | Got(slot: Slot<T>)

  /** Where a thread is: the next atomic access it makes, with the pointers it has read. */
  datatype Pc<T> =
    | Idle
    | LoadTail
    | LoadTailNext(tail: nat)
    | Link(tail: nat)
    | Help(tail: nat, next: nat)
    | Swing(tail: nat, node: nat)
    | CountUp
    | LoadHead
    | LoadHeadNext(head: nat)
    | Advance(head: nat, next: nat)
    | Take(node: nat)
    | Clear(node: nat, val: Slot<T>)
    | CountDown(val: Slot<T>)
    | Returned(a: Answer<T>)

  /** `pos` records where the thread's operation is in the log, once it has taken effect. */
  datatype Thread<T> = Thread(op: Op<T>, pc: Pc<T>, pos: nat)
  datatype Entry<T> = Entry(thread: nat, op: Op<T>, answer: Answer<T>)

  /** `chain` holds the values of the linked nodes, the stub first. The log lists the operations in the
      order they took effect. */
  datatype State<T> = State(chain: seq<Slot<T>>, head: nat, tail: nat, len: int, threads: seq<Thread<T>>,
                            log: seq<Entry<T>>)

  function At<T>(s: State<T>, i: nat, pc: Pc<T>): (r: State<T>)
    requires i < |s.threads|
    ensures |r.threads| == |s.threads|
  {
    s.(threads := s.threads[i := s.threads[i].(pc := pc)])
  }

  /** The operation of thread `i` takes effect with answer `a`. */
  function Effect<T>(s: State<T>, i: nat, pc: Pc<T>, a: Answer<T>): (r: State<T>)
    requires i < |s.threads|
    ensures |r.threads| == |s.threads|
  {
    s.(threads := s.threads[i := Thread(s.threads[i].op, pc, |s.log|)], log := s.log + [Entry(i, s.threads[i].op, a)])
  }

  function EnqueueStep<T>(s: State<T>, i: nat, v: T): (r: State<T>)
    requires i < |s.threads|
    ensures |r.threads| == |s.threads|
  {
    match s.threads[i].pc
    case Idle => At(s, i, LoadTail)
    case LoadTail => At(s, i, LoadTailNext(s.tail))
    case LoadTailNext(tail) =>
      if tail + 1 < |s.chain| then At(s, i, Help(tail, tail + 1)) else At(s, i, Link(tail))
    case Link(tail) =>
      if tail + 1 == |s.chain| then Effect(s, i, Swing(tail, tail + 1), Enqueued).(chain := s.chain + [Value(v)])
      else At(s, i, LoadTail)
    case Help(tail, next) => At(s, i, LoadTail).(tail := if s.tail == tail then next else s.tail)
    case Swing(tail, node) => At(s, i, CountUp).(tail := if s.tail == tail then node else s.tail)
    case CountUp => At(s, i, Returned(Enqueued)).(len := s.len + 1)
    case _ => s
  }

  function DequeueStep<T>(s: State<T>, i: nat): (r: State<T>)
    requires i < |s.threads|
    ensures |r.threads| == |s.threads|
  {
    match s.threads[i].pc
    case Idle => At(s, i, LoadHead)
    case LoadHead => At(s, i, LoadHeadNext(s.head))
    case LoadHeadNext(head) =>
      if head + 1 < |s.chain| then At(s, i, Advance(head, head + 1)) else Effect(s, i, Returned(Empty), Empty)
    case Advance(head, next) =>
      if s.head == head then
        Effect(s, i, Take(next), Got(if next < |s.chain| then s.chain[next] else Nil)).(head := next)
      else At(s, i, LoadHead)
    case Take(node) => At(s, i, Clear(node, if node < |s.chain| then s.chain[node] else Nil))
    case Clear(node, val) =>
      At(s, i, CountDown(val)).(chain := if node < |s.chain| then s.chain[node := Nil] else s.chain)
    case CountDown(val) => At(s, i, Returned(Got(val))).(len := s.len - 1)
    case _ => s
  }

  /** Thread `i` takes its next step; a thread that has returned takes none. */
  function Step<T>(s: State<T>, i: nat): (r: State<T>)
    ensures |r.threads| == |s.threads|
  {
    if i >= |s.threads| then s
    else if s.threads[i].op.Enqueue? then EnqueueStep(s, i, s.threads[i].op.v) else DequeueStep(s, i)
  }

  function Exec<T>(s: State<T>, sched: seq<nat>): (r: State<T>)
    ensures |r.threads| == |s.threads|
    decreases |sched|
  {
    if sched == [] then s else Exec(Step(s, sched[0]), sched[1..])
  }

  function Init<T>(ops: seq<Op<T>>): State<T> {
    State([Nil], 0, 0, 0, seq(|ops|, i requires 0 <= i < |ops| => Thread(ops[i], Idle, 0)), [])
  }

  // ----- The sequential queue -----

  /** What a FIFO queue holds after the operations of the log. */
  function Contents<T>(log: seq<Entry<T>>): seq<Slot<T>> {
    if log == [] then []
    else
      var before, e := Contents(log[..|log| - 1]), log[|log| - 1];
      match e.op
      case Enqueue(v) => before + [Value(v)]
      case Dequeue => if before == [] then [] else before[1..]
  }

  /** The answer of a FIFO queue that holds `q`. */
  function Due<T>(op: Op<T>, q: seq<Slot<T>>): Answer<T> {
    if op.Enqueue? then Enqueued else if q == [] then Empty else Got(q[0])
  }

  /** Every operation of the log got the answer a FIFO queue gives. */
  ghost predicate Legal<T>(log: seq<Entry<T>>) {
    log == [] ||
    var before, e := log[..|log| - 1], log[|log| - 1];
    && Legal(before)
    && e.answer == Due(e.op, Contents(before))
  }

  lemma LogPush<T>(log: seq<Entry<T>>, e: Entry<T>)
    ensures Contents(log + [e]) == match e.op
                                   case Enqueue(v) => Contents(log) + [Value(v)]
                                   case Dequeue => if Contents(log) == [] then [] else Contents(log)[1..]
    ensures Legal(log + [e]) <==>
              Legal(log) && e.answer == Due(e.op, Contents(log))
  {
    assert (log + [e])[..|log|] == log;
  }

  // ----- The invariant -----

  /** The operation has taken effect. */
  predicate Effective<T>(pc: Pc<T>) {
    pc.Swing? || pc.CountUp? || pc.Take? || pc.Clear? || pc.CountDown? || pc.Returned?
  }

  /** The node a dequeuer has won and not yet cleared. */
  predicate Owns<T>(pc: Pc<T>, node: nat) {
    (pc.Take? && pc.node == node) || (pc.Clear? && pc.node == node)
  }

  ghost predicate EnqueuerOk<T>(s: State<T>, pc: Pc<T>, a: Answer<T>) {
    && (pc.Idle? || pc.LoadTail? || pc.LoadTailNext? || pc.Link? || pc.Help? || pc.Swing? || pc.CountUp?
         || pc.Returned?)
    && (pc.LoadTailNext? || pc.Link? || pc.Help? || pc.Swing? ==> pc.tail <= s.tail)
    && (pc.Help? ==> pc.next == pc.tail + 1 < |s.chain|)
    && (pc.Swing? ==> pc.node == pc.tail + 1 < |s.chain|)
    && (pc.Returned? ==> pc.a == a)
  }

  ghost predicate DequeuerOk<T>(s: State<T>, pc: Pc<T>, a: Answer<T>) {
    && (pc.Idle? || pc.LoadHead? || pc.LoadHeadNext? || pc.Advance? || pc.Take? || pc.Clear? || pc.CountDown?
         || pc.Returned?)
    && (pc.LoadHeadNext? || pc.Advance? ==> pc.head <= s.head)
    && (pc.Advance? ==> pc.next == pc.head + 1 < |s.chain|)
    && (pc.Take? || pc.Clear? ==> 0 < pc.node <= s.head)
    && (pc.Take? ==> pc.node < |s.chain| && a == Got(s.chain[pc.node]))
    && (pc.Clear? || pc.CountDown? ==> a == Got(pc.val))
    && (pc.Returned? ==> pc.a == a)
  }

  /** A thread's own view is consistent, and its effect is in the log just when it has had one. */
  ghost predicate ThreadOk<T>(s: State<T>, i: nat)
    requires i < |s.threads|
  {
    var th := s.threads[i];
    && (Effective(th.pc) ==> th.pos < |s.log| && s.log[th.pos].thread == i && s.log[th.pos].op == th.op)
    && var a := if Effective(th.pc) then s.log[th.pos].answer else Enqueued;
       if th.op.Enqueue? then EnqueuerOk(s, th.pc, a) && (Effective(th.pc) ==> a == Enqueued)
       else DequeuerOk(s, th.pc, a)
  }

  ghost predicate EntryOk<T>(s: State<T>, k: nat)
    requires k < |s.log|
  {
    var i := s.log[k].thread;
    i < |s.threads| && s.threads[i].pos == k && Effective(s.threads[i].pc)
  }

  function Pending<T>(th: Thread<T>): int {
    if th.pc.Swing? || th.pc.CountUp? then 1 else if th.pc.Take? || th.pc.Clear? || th.pc.CountDown? then -1 else 0
  }

  ghost predicate QueueOk<T>(s: State<T>) {
    && s.head < |s.chain| && s.tail < |s.chain| <= s.tail + 2
    && Legal(s.log) && Contents(s.log) == s.chain[s.head + 1..]
  }

  /** `tail` is the last or the second last linked node, although `head` may have passed it; what lies behind
      `head` is the queue; every won node is owned by one thread; the count lags by the calls in progress. */
  ghost predicate Inv<T>(s: State<T>) {
    && QueueOk(s)
    && s.len == |s.chain| - 1 - s.head - Sum(s.threads, Pending)
    && (forall i | 0 <= i < |s.threads| :: ThreadOk(s, i))
    && (forall k | 0 <= k < |s.log| :: EntryOk(s, k))
    && (forall i, j, n: nat | 0 <= i < j < |s.threads| :: Owns(s.threads[i].pc, n) ==> !Owns(s.threads[j].pc, n))
  }

  lemma InitInv<T>(ops: seq<Op<T>>)
    ensures Inv(Init(ops))
  {
    SumZero(Init(ops).threads, Pending);
  }

  /** What a step of one thread may do to the shared state, as the threads that do not step rely on it. */
  ghost predicate Moves<T>(s: State<T>, r: State<T>, i: nat) {
    && |r.threads| == |s.threads| && (i < |s.threads| ==> r.threads[i].op == s.threads[i].op)
    && s.head <= r.head && s.tail <= r.tail && |s.chain| <= |r.chain| && s.log <= r.log
    && (forall j | 0 <= j < |s.threads| && j != i :: r.threads[j] == s.threads[j])
    && (forall n | 0 <= n < |s.chain| :: r.chain[n] == s.chain[n] || (i < |s.threads| && Owns(s.threads[i].pc, n)))
  }

  lemma OtherStays<T>(s: State<T>, r: State<T>, i: nat, j: nat)
    requires Moves(s, r, i) && i < |s.threads| && j < |s.threads| && j != i && ThreadOk(s, j)
    requires forall n: nat :: Owns(s.threads[i].pc, n) ==> !Owns(s.threads[j].pc, n)
    ensures ThreadOk(r, j)
  {
    assert s.threads[j].pc.Take? ==> Owns(s.threads[j].pc, s.threads[j].pc.node);
  }

  lemma EnqueueMoves<T>(s: State<T>, i: nat)
    requires QueueOk(s) && i < |s.threads| && ThreadOk(s, i) && s.threads[i].op.Enqueue?
    ensures Moves(s, Step(s, i), i) && ThreadOk(Step(s, i), i)
  {
    hide Legal, Contents;
  }

  /** A dequeuer before and after it has won a node. */
  predicate Seeking<T>(pc: Pc<T>) {
    pc.Idle? || pc.LoadHead? || pc.LoadHeadNext? || pc.Advance?
  }

  lemma SeekMoves<T>(s: State<T>, i: nat)
    requires QueueOk(s) && i < |s.threads| && ThreadOk(s, i) && s.threads[i].op.Dequeue? && Seeking(s.threads[i].pc)
    ensures Moves(s, Step(s, i), i) && ThreadOk(Step(s, i), i)
  {
    hide Legal, Contents;
  }

  lemma TakeMoves<T>(s: State<T>, i: nat)
    requires QueueOk(s) && i < |s.threads| && ThreadOk(s, i) && s.threads[i].op.Dequeue? && !Seeking(s.threads[i].pc)
    ensures Moves(s, Step(s, i), i) && ThreadOk(Step(s, i), i)
  {
    hide Legal, Contents;
  }

  /** What a step does to the queue as a whole. */
  ghost predicate Turns<T>(s: State<T>, r: State<T>, i: nat)
    requires i < |s.threads| && |r.threads| == |s.threads|
  {
    && QueueOk(r)
    && r.len - (|r.chain| - r.head) - (s.len - (|s.chain| - s.head)) == Pending(s.threads[i]) - Pending(r.threads[i])
    && (forall n: nat :: Owns(r.threads[i].pc, n) ==> Owns(s.threads[i].pc, n) || n > s.head)
    && (if r.log == s.log then Effective(s.threads[i].pc) <==> Effective(r.threads[i].pc)
        else |r.log| == |s.log| + 1 && s.log <= r.log && r.log[|s.log|].thread == i && r.threads[i].pos == |s.log|
             && Effective(r.threads[i].pc) && !Effective(s.threads[i].pc))
    && (r.log == s.log ==> r.threads[i].pos == s.threads[i].pos)
  }

  lemma LinkTurns<T>(s: State<T>, i: nat)
    requires QueueOk(s) && i < |s.threads| && ThreadOk(s, i) && s.threads[i].op.Enqueue? && s.threads[i].pc.Link?
    ensures Turns(s, EnqueueStep(s, i, s.threads[i].op.v), i)
  {
    hide Legal, Contents;
    var th := s.threads[i];
    if th.pc.tail + 1 == |s.chain| {
      LogPush(s.log, Entry(i, th.op, Enqueued));
      assert (s.chain + [Value(th.op.v)])[s.head + 1..] == s.chain[s.head + 1..] + [Value(th.op.v)];
    }
  }

  lemma UnlinkedTurns<T>(s: State<T>, i: nat)
    requires QueueOk(s) && i < |s.threads| && ThreadOk(s, i) && s.threads[i].op.Enqueue? && !s.threads[i].pc.Link?
    ensures Turns(s, EnqueueStep(s, i, s.threads[i].op.v), i)
  {
    hide Legal, Contents;
  }

  lemma EnqueueTurns<T>(s: State<T>, i: nat)
    requires QueueOk(s) && i < |s.threads| && ThreadOk(s, i) && s.threads[i].op.Enqueue?
    ensures Turns(s, Step(s, i), i)
  {
    hide QueueOk, ThreadOk, Turns, EnqueueStep;
    if s.threads[i].pc.Link? {
      LinkTurns(s, i);
    } else {
      UnlinkedTurns(s, i);
    }
  }

  lemma LookTurns<T>(s: State<T>, i: nat)
    requires QueueOk(s) && i < |s.threads| && ThreadOk(s, i) && s.threads[i].op.Dequeue?
    requires Seeking(s.threads[i].pc) && !s.threads[i].pc.Advance?
    ensures Turns(s, Step(s, i), i)
  {
    hide Legal, Contents;
    var th := s.threads[i];
    assert Step(s, i) == DequeueStep(s, i);
    if th.pc.LoadHeadNext? && th.pc.head + 1 >= |s.chain| {
      LogPush(s.log, Entry(i, th.op, Empty));
    }
  }

  lemma WinTurns<T>(s: State<T>, i: nat)
    requires QueueOk(s) && i < |s.threads| && ThreadOk(s, i) && s.threads[i].op.Dequeue? && s.threads[i].pc.Advance?
    ensures Turns(s, Step(s, i), i)
  {
    hide Legal, Contents;
    var th := s.threads[i];
    assert Step(s, i) == DequeueStep(s, i);
    if s.head == th.pc.head {
      LogPush(s.log, Entry(i, th.op, Got(s.chain[s.head + 1])));
      assert s.chain[s.head + 1..][1..] == s.chain[s.head + 2..];
    }
  }

  lemma TakeTurns<T>(s: State<T>, i: nat)
    requires QueueOk(s) && i < |s.threads| && ThreadOk(s, i) && s.threads[i].op.Dequeue? && !Seeking(s.threads[i].pc)
    ensures Turns(s, Step(s, i), i)
  {
    hide Legal, Contents;
    if s.threads[i].pc.Clear? {
      assert s.chain[s.threads[i].pc.node := Nil][s.head + 1..] == s.chain[s.head + 1..];
    }
  }

  lemma EntriesStay<T>(s: State<T>, r: State<T>, i: nat)
    requires i < |s.threads| && Moves(s, r, i) && Turns(s, r, i)
    requires forall k | 0 <= k < |s.log| :: EntryOk(s, k)
    ensures forall k | 0 <= k < |r.log| :: EntryOk(r, k)
  {
    hide Legal, Contents;
    forall k | 0 <= k < |r.log| ensures EntryOk(r, k) {
      if k < |s.log| {
        assert EntryOk(s, k);
      }
    }
  }

  lemma OwnersStayApart<T>(s: State<T>, r: State<T>, i: nat)
    requires Inv(s) && i < |s.threads| && Moves(s, r, i) && Turns(s, r, i)
    ensures forall j, k, n: nat | 0 <= j < k < |r.threads| :: Owns(r.threads[j].pc, n) ==> !Owns(r.threads[k].pc, n)
  {
    hide Legal, Contents;
    forall j, k, n: nat | 0 <= j < k < |r.threads| && Owns(r.threads[j].pc, n) ensures !Owns(r.threads[k].pc, n) {
      assert ThreadOk(s, j) && ThreadOk(s, k);
    }
  }

  /** Every atomic step keeps the invariant. */
  lemma StepKeepsInv<T>(s: State<T>, i: nat)
    requires Inv(s)
    ensures Inv(Step(s, i))
    ensures i < |s.threads| ==> Moves(s, Step(s, i), i) && Turns(s, Step(s, i), i)
    ensures i >= |s.threads| ==> Step(s, i) == s
  {
    hide ThreadOk, EntryOk, Legal, Contents, Step, Pending, Owns;
    var r := Step(s, i);
    if i < |s.threads| {
      if s.threads[i].op.Enqueue? {
        EnqueueMoves(s, i);
        EnqueueTurns(s, i);
      } else if Seeking(s.threads[i].pc) {
        SeekMoves(s, i);
        if s.threads[i].pc.Advance? {
          WinTurns(s, i);
        } else {
          LookTurns(s, i);
        }
      } else {
        TakeMoves(s, i);
        TakeTurns(s, i);
      }
      forall j | 0 <= j < |r.threads| ensures ThreadOk(r, j) {
        if j != i {
          OtherStays(s, r, i, j);
        }
      }
      EntriesStay(s, r, i);
      OwnersStayApart(s, r, i);
      assert r.threads == s.threads[i := r.threads[i]];
      SumUpdate(s.threads, i, r.threads[i], Pending);
    } else {
      NoStep(s, i);
    }
  }

  lemma NoStep<T>(s: State<T>, i: nat)
    requires i >= |s.threads|
    ensures Step(s, i) == s
  {
  }

  lemma {:induction false} ExecKeepsInv<T>(s: State<T>, sched: seq<nat>)
    requires Inv(s)
    ensures Inv(Exec(s, sched))
    decreases |sched|
  {
    hide Inv, Step;
    if sched != [] {
      StepKeepsInv(s, sched[0]);
      ExecKeepsInv(Step(s, sched[0]), sched[1..]);
    }
  }

  predicate Called<T(==)>(s: State<T>, ops: seq<Op<T>>) {
    |s.threads| == |ops| && forall i | 0 <= i < |ops| :: s.threads[i].op == ops[i]
  }

  /** A run only adds to the log, and a call in the log stays where it is. */
  lemma {:induction false} ExecGrowsLog<T>(s: State<T>, ops: seq<Op<T>>, sched: seq<nat>, i: nat)
    requires Inv(s) && Called(s, ops) && i < |s.threads|
    ensures Called(Exec(s, sched), ops) && s.log <= Exec(s, sched).log
    ensures Effective(s.threads[i].pc) ==>
              Effective(Exec(s, sched).threads[i].pc) && Exec(s, sched).threads[i].pos == s.threads[i].pos
    ensures !Effective(s.threads[i].pc) && Effective(Exec(s, sched).threads[i].pc) ==>
              Exec(s, sched).threads[i].pos >= |s.log|
    decreases |sched|
  {
    hide Inv, Step, Turns, Effective;
    if sched != [] {
      var r := Step(s, sched[0]);
      StepKeepsInv(s, sched[0]);
      StepGrowsLog(s, r, sched[0], i);
      ExecGrowsLog(r, ops, sched[1..], i);
    }
  }

  lemma StepGrowsLog<T>(s: State<T>, r: State<T>, j: nat, i: nat)
    requires i < |s.threads| && if j < |s.threads| then Moves(s, r, j) && Turns(s, r, j) else r == s
    ensures |r.threads| == |s.threads| && s.log <= r.log && r.threads[i].op == s.threads[i].op
    ensures Effective(s.threads[i].pc) ==> Effective(r.threads[i].pc) && r.threads[i].pos == s.threads[i].pos
    ensures !Effective(s.threads[i].pc) && Effective(r.threads[i].pc) ==> r.threads[i].pos >= |s.log|
  {
    hide Legal, Contents;
  }

  /** The operation at one place of a legal log got the answer of a queue holding what the operations before
      it left; in particular an empty answer was given at an instant when the queue was empty. */
  lemma {:induction false} LegalAt<T>(log: seq<Entry<T>>, k: nat)
    requires Legal(log) && k < |log|
    ensures log[k].answer == Due(log[k].op, Contents(log[..k]))
  {
    var n := |log| - 1;
    if k < n {
      LegalAt(log[..n], k);
      assert log[..n][..k] == log[..k];
    }
  }

  /** The queue is linearizable: in every reachable state the operations that have taken effect are in one
      legal sequential order, each exactly once, with the answers their callers get. */
  lemma Linearizable<T>(ops: seq<Op<T>>, sched: seq<nat>)
    ensures var s := Exec(Init(ops), sched);
            && Legal(s.log) && |s.threads| == |ops|
            && (forall i | 0 <= i < |ops| && s.threads[i].pc.Returned? ::
                  s.threads[i].pos < |s.log| && s.log[s.threads[i].pos] == Entry(i, ops[i], s.threads[i].pc.a))
            && (forall k | 0 <= k < |s.log| ::
                  s.log[k].thread < |ops| && s.threads[s.log[k].thread].pos == k
                    && !s.threads[s.log[k].thread].pc.Idle?)
  {
    var s0 := Init(ops);
    InitInv(ops);
    ExecKeepsInv(s0, sched);
    var s := Exec(s0, sched);
    if |ops| > 0 {
      ExecGrowsLog(s0, ops, sched, 0);
    } else {
      NoThreads(s0, sched);
    }
    forall i | 0 <= i < |ops| && s.threads[i].pc.Returned?
      ensures s.threads[i].pos < |s.log| && s.log[s.threads[i].pos] == Entry(i, ops[i], s.threads[i].pc.a)
    {
      assert ThreadOk(s, i);
    }
    forall k | 0 <= k < |s.log|
      ensures s.log[k].thread < |ops| && s.threads[s.log[k].thread].pos == k && !s.threads[s.log[k].thread].pc.Idle?
    {
      assert EntryOk(s, k);
    }
  }

  lemma {:induction false} NoThreads<T>(s: State<T>, sched: seq<nat>)
    requires s.threads == []
    ensures Exec(s, sched) == s
    decreases |sched|
  {
    if sched != [] {
      NoThreads(s, sched[1..]);
    }
  }

  lemma {:induction false} ExecAppend<T>(s: State<T>, a: seq<nat>, b: seq<nat>)
    ensures Exec(s, a + b) == Exec(Exec(s, a), b)
    decreases |a|
  {
    if a == [] {
      assert a + b == b;
    } else {
      assert (a + b)[1..] == a[1..] + b;
      ExecAppend(Step(s, a[0]), a[1..], b);
    }
  }

  /** The order respects real time: a call that returned before another was invoked is before it. */
  lemma OrderIsRealTime<T>(ops: seq<Op<T>>, early: seq<nat>, late: seq<nat>, i: nat, j: nat)
    requires i < |ops| && j < |ops|
    requires Exec(Init(ops), early).threads[i].pc.Returned? && Exec(Init(ops), early).threads[j].pc.Idle?
    requires Effective(Exec(Init(ops), early + late).threads[j].pc)
    ensures Exec(Init(ops), early + late).threads[i].pos < Exec(Init(ops), early + late).threads[j].pos
  {
    var s := Exec(Init(ops), early);
    InitInv(ops);
    ExecKeepsInv(Init(ops), early);
    ExecGrowsLog(Init(ops), ops, early, i);
    ExecAppend(Init(ops), early, late);
    assert ThreadOk(s, i);
    ExecGrowsLog(s, ops, late, i);
    ExecGrowsLog(s, ops, late, j);
  }

  /** Where the pointers and the count are in every reachable state; with no call in progress the count is
      the length of the queue. */
  lemma PointersAndCount<T>(ops: seq<Op<T>>, sched: seq<nat>)
    ensures var s := Exec(Init(ops), sched);
            && (s.tail == |s.chain| - 1 || s.tail == |s.chain| - 2) && s.head <= s.tail + 1
            && s.head < |s.chain| && s.chain[s.head + 1..] == Contents(s.log)
            && s.len == |Contents(s.log)| - Sum(s.threads, Pending)
            && ((forall i | 0 <= i < |s.threads| :: s.threads[i].pc.Idle? || s.threads[i].pc.Returned?) ==>
                  s.len == |Contents(s.log)|)
  {
    InitInv(ops);
    ExecKeepsInv(Init(ops), sched);
    var s := Exec(Init(ops), sched);
    if forall i | 0 <= i < |s.threads| :: s.threads[i].pc.Idle? || s.threads[i].pc.Returned? {
      SumZero(s.threads, Pending);
    }
  }

  // ----- What is left behind -----

  ghost predicate Swinging<T>(s: State<T>) {
    exists i :: 0 <= i < |s.threads| && s.threads[i].pc == Swing(s.tail, s.tail + 1)
  }

  ghost predicate Owned<T>(s: State<T>, n: nat) {
    exists i :: 0 <= i < |s.threads| && Owns(s.threads[i].pc, n)
  }

  /** `tail` is the last node unless the call that linked that node has yet to move it, and the nodes up to
      `head` hold nothing but what a call has yet to take. */
  ghost predicate Tidy<T>(s: State<T>) {
    && (s.tail + 1 == |s.chain| || Swinging(s))
    && forall n: nat | n <= s.head && n < |s.chain| :: s.chain[n] == Nil || Owned(s, n)
  }

  lemma SwingStays<T>(s: State<T>, r: State<T>, i: nat)
    requires i < |s.threads| == |r.threads| && r.threads == s.threads[i := r.threads[i]]
    requires r.tail == s.tail && s.threads[i].pc != Swing(s.tail, s.tail + 1)
    ensures Swinging(s) ==> Swinging(r)
  {
    if Swinging(s) {
      var j :| 0 <= j < |s.threads| && s.threads[j].pc == Swing(s.tail, s.tail + 1);
      assert r.threads[j] == s.threads[j];
    }
  }

  lemma OwnedStays<T>(s: State<T>, r: State<T>, i: nat, n: nat)
    requires i < |s.threads| == |r.threads| && r.threads == s.threads[i := r.threads[i]]
    requires Owns(s.threads[i].pc, n) ==> Owns(r.threads[i].pc, n)
    ensures Owned(s, n) ==> Owned(r, n)
  {
    if Owned(s, n) {
      var j :| 0 <= j < |s.threads| && Owns(s.threads[j].pc, n);
      assert j != i ==> r.threads[j] == s.threads[j];
    }
  }

  lemma EnqueueIsTidy<T>(s: State<T>, i: nat)
    requires QueueOk(s) && Tidy(s) && i < |s.threads| && ThreadOk(s, i) && s.threads[i].op.Enqueue?
    ensures Tidy(EnqueueStep(s, i, s.threads[i].op.v))
  {
    hide Legal, Contents, Swinging, Owned;
    var r, pc := EnqueueStep(s, i, s.threads[i].op.v), s.threads[i].pc;
    if r.tail == s.tail && pc != Swing(s.tail, s.tail + 1) {
      SwingStays(s, r, i);
    }
    if pc.Link? && pc.tail + 1 == |s.chain| {
      SwingerSwings(r, i);
    }
    forall n: nat ensures Owned(s, n) ==> Owned(r, n) {
      OwnedStays(s, r, i, n);
    }
  }

  lemma DequeueIsTidy<T>(s: State<T>, i: nat)
    requires QueueOk(s) && Tidy(s) && i < |s.threads| && ThreadOk(s, i) && s.threads[i].op.Dequeue?
    ensures Tidy(DequeueStep(s, i))
  {
    hide Legal, Contents, Swinging, Owned;
    var r, pc := DequeueStep(s, i), s.threads[i].pc;
    SwingStays(s, r, i);
    forall n: nat | n <= r.head && n < |r.chain| ensures r.chain[n] == Nil || Owned(r, n) {
      if Owns(r.threads[i].pc, n) {
        OwnerOwns(r, i, n);
      } else if !(pc.Clear? && pc.node == n) {
        OwnedStays(s, r, i, n);
      }
    }
  }

  lemma SwingerSwings<T>(s: State<T>, i: nat)
    requires i < |s.threads| && s.threads[i].pc == Swing(s.tail, s.tail + 1)
    ensures Swinging(s)
  {
  }

  lemma OwnerOwns<T>(s: State<T>, i: nat, n: nat)
    requires i < |s.threads| && Owns(s.threads[i].pc, n)
    ensures Owned(s, n)
  {
  }

  lemma {:induction false} ExecIsTidy<T>(s: State<T>, sched: seq<nat>)
    requires Inv(s) && Tidy(s)
    ensures Inv(Exec(s, sched)) && Tidy(Exec(s, sched))
    decreases |sched|
  {
    hide QueueOk, ThreadOk, EntryOk, Tidy, EnqueueStep, DequeueStep;
    if sched != [] {
      var i := sched[0];
      StepKeepsInv(s, i);
      if i < |s.threads| {
        if s.threads[i].op.Enqueue? {
          EnqueueIsTidy(s, i);
        } else {
          DequeueIsTidy(s, i);
        }
      } else {
        NoStep(s, i);
      }
      ExecIsTidy(Step(s, i), sched[1..]);
    }
  }

  /** In every run, when no call is in progress `tail` is the last node and every node up to `head` has been
      cleared of its value. */
  lemma TidyAtRest<T>(ops: seq<Op<T>>, sched: seq<nat>)
    ensures var s := Exec(Init(ops), sched);
            (forall i | 0 <= i < |s.threads| :: s.threads[i].pc.Idle? || s.threads[i].pc.Returned?) ==>
              s.tail == |s.chain| - 1 && s.head < |s.chain| && forall n | 0 <= n <= s.head :: s.chain[n] == Nil
  {
    hide Exec;
    InitInv(ops);
    ExecIsTidy(Init(ops), sched);
  }

  function Ins<T>(log: seq<Entry<T>>): seq<Slot<T>> {
    if log == [] then []
    else Ins(log[..|log| - 1]) + if log[|log| - 1].op.Enqueue? then [Value(log[|log| - 1].op.v)] else []
  }

  function Outs<T>(log: seq<Entry<T>>): seq<Slot<T>> {
    if log == [] then []
    else Outs(log[..|log| - 1]) + if log[|log| - 1].answer.Got? then [log[|log| - 1].answer.slot] else []
  }

  /** First in, first out: what came out, followed by what is still there, is what went in. */
  lemma {:induction false} FirstInFirstOut<T>(log: seq<Entry<T>>)
    requires Legal(log)
    ensures Ins(log) == Outs(log) + Contents(log)
  {
    if log != [] {
      var before := log[..|log| - 1];
      FirstInFirstOut(before);
      if log[|log| - 1].op.Enqueue? {
        Regroup(Outs(before), Contents(before), [Value(log[|log| - 1].op.v)]);
      } else if Contents(before) != [] {
        FrontMoves(Outs(before), Contents(before));
      }
    }
  }

  // ----- When `head` passes `tail` -----

  lemma {:induction false} OnlyEnqueues<T>(s: State<T>, sched: seq<nat>)
    requires forall i | 0 <= i < |s.threads| :: s.threads[i].op.Enqueue?
    ensures Exec(s, sched).head == s.head
    decreases |sched|
  {
    if sched != [] {
      OnlyEnqueues(Step(s, sched[0]), sched[1..]);
    }
  }

  lemma {:induction false} OnlyDequeues<T>(s: State<T>, sched: seq<nat>)
    requires forall i | 0 <= i < |s.threads| :: s.threads[i].op.Dequeue?
    ensures |Exec(s, sched).chain| == |s.chain|
    decreases |sched|
  {
    if sched != [] {
      OnlyDequeues(Step(s, sched[0]), sched[1..]);
    }
  }

  /** The usual invariant that `head` does not pass `tail` is broken in some run exactly when there is an
      enqueue, which can link its node and not yet swing `tail`, and a dequeue, which takes that node. */
  lemma HeadPassesTailExactWhen<T>(ops: seq<Op<T>>)
    ensures (exists sched :: Exec(Init(ops), sched).head > Exec(Init(ops), sched).tail)
            <==> exists i, j :: 0 <= i < |ops| && 0 <= j < |ops| && ops[i].Enqueue? && ops[j].Dequeue?
  {
    if i, j :| 0 <= i < |ops| && 0 <= j < |ops| && ops[i].Enqueue? && ops[j].Dequeue? {
      HeadPassesTail(ops, i, j);
    } else {
      forall sched ensures Exec(Init(ops), sched).head <= Exec(Init(ops), sched).tail {
        if forall i | 0 <= i < |ops| :: ops[i].Enqueue? {
          OnlyEnqueues(Init(ops), sched);
        } else {
          OnlyDequeues(Init(ops), sched);
          InitInv(ops);
          ExecKeepsInv(Init(ops), sched);
        }
      }
    }
  }

  lemma HeadPassesTail<T>(ops: seq<Op<T>>, i: nat, j: nat)
    requires i < |ops| && j < |ops| && ops[i].Enqueue? && ops[j].Dequeue?
    ensures var s := Exec(Init(ops), [i, i, i, i] + [j, j, j, j]); s.head == 1 && s.tail == 0
  {
    var s0 := Init(ops);
    var s4 := Step(Step(Step(Step(s0, i), i), i), i);
    assert s4.chain == [Nil, Value(ops[i].v)] && s4.threads[j] == Thread(Dequeue, Idle, 0) && s4.head == s4.tail == 0;
    var s8 := Step(Step(Step(Step(s4, j), j), j), j);
    assert s8.head == 1 && s8.tail == 0;
    ExecFour(s0, i);
    ExecFour(s4, j);
    ExecAppend(s0, [i, i, i, i], [j, j, j, j]);
  }

  lemma ExecFour<T>(s: State<T>, i: nat)
    ensures Exec(s, [i, i, i, i]) == Step(Step(Step(Step(s, i), i), i), i)
  {
    ExecAppend(s, [i], [i, i, i]);
    ExecAppend(Step(s, i), [i], [i, i]);
    ExecAppend(Step(Step(s, i), i), [i], [i]);
    assert [i] + [i, i, i] == [i, i, i, i] && [i] + [i, i] == [i, i, i] && [i] + [i] == [i, i];
    forall t: State<T> ensures Exec(t, [i]) == Step(t, i) {
      assert Exec(Step(t, i), []) == Step(t, i);
    }
  }

  // ----- Progress -----

  /** How many steps of its own are left to thread `i` if no other operation takes effect. An enqueuer that
      sees `tail` lag has to help first; one with an outdated `tail`, and a dequeuer with an outdated `head`,
      has to read it again. */
  function Left<T>(s: State<T>, i: nat): (n: nat)
    requires i < |s.threads|
    ensures n <= 10 && (n == 0 <==> s.threads[i].pc.Returned?)
  {
    var lag := if s.tail + 1 < |s.chain| then 3 else 0;
    match s.threads[i].pc
    case Idle => if s.threads[i].op.Enqueue? then 6 + lag else 7
    case LoadTail => 5 + lag
    case LoadTailNext(t) => if t + 1 == |s.chain| then 4 else 7 + if t == s.tail then 0 else lag
    case Link(t) => if t + 1 == |s.chain| then 3 else 6 + lag
    case Help(t, _) => 6 + if t == s.tail then 0 else lag
    case Swing(_, _) => 2
    case CountUp => 1
    case LoadHead => 6
    case LoadHeadNext(h) => if h == s.head then 5 else 8
    case Advance(h, _) => if h == s.head then 4 else 7
    case Take(_) => 3
    case Clear(_, _) => 2
    case CountDown(_) => 1
    case Returned(_) => 0
  }

  /** A step brings its thread nearer to the end. */
  lemma StepAdvances<T>(s: State<T>, i: nat)
    requires QueueOk(s) && i < |s.threads| && ThreadOk(s, i) && !s.threads[i].pc.Returned?
    ensures Left(Step(s, i), i) < Left(s, i)
  {
    hide Legal, Contents;
    if s.threads[i].op.Enqueue? {
      assert Step(s, i) == EnqueueStep(s, i, s.threads[i].op.v);
    } else {
      assert Step(s, i) == DequeueStep(s, i);
    }
  }

  /** Only a step with which an operation takes effect links a node or moves `head`. */
  predicate Settled<T>(s: State<T>, r: State<T>) {
    |r.chain| == |s.chain| && r.head == s.head && s.tail <= r.tail < |r.chain|
  }

  lemma StepSettles<T>(s: State<T>, i: nat)
    requires QueueOk(s) && i < |s.threads| && ThreadOk(s, i)
    requires Effective(Step(s, i).threads[i].pc) ==> Effective(s.threads[i].pc)
    ensures Settled(s, Step(s, i))
  {
    hide Legal, Contents;
  }

  /** It throws others back only when its operation takes effect. */
  lemma OtherWaits<T>(s: State<T>, r: State<T>, j: nat)
    requires QueueOk(s) && Settled(s, r) && j < |s.threads| == |r.threads| && r.threads[j] == s.threads[j]
    requires ThreadOk(s, j)
    ensures Left(r, j) <= Left(s, j)
  {
    hide Legal, Contents;
  }

  /** What is left to the first `k` threads, when an operation that has still to take effect may cost the
      others `w` steps in all. */
  function WorkLeft<T>(s: State<T>, w: nat, k: nat): nat
    requires k <= |s.threads|
  {
    if k == 0 then 0
    else WorkLeft(s, w, k - 1) + Left(s, k - 1) + if Effective(s.threads[k - 1].pc) then 0 else w
  }

  lemma {:induction false} WorkShrinks<T>(s: State<T>, i: nat, w: nat, k: nat)
    requires Inv(s) && i < |s.threads| && k <= |s.threads| && !s.threads[i].pc.Returned?
    ensures var r := Step(s, i);
            var own := if i < k then 1 else 0;
            if Effective(r.threads[i].pc) && !Effective(s.threads[i].pc)
            then WorkLeft(r, w, k) + own * (w + 1) <= WorkLeft(s, w, k) + 10 * (k - own)
            else WorkLeft(r, w, k) + own <= WorkLeft(s, w, k)
  {
    hide Inv, QueueOk, ThreadOk, Step, Left, Effective, Turns;
    var r := Step(s, i);
    if k > 0 {
      WorkShrinks(s, i, w, k - 1);
      StepKeepsInv(s, i);
      InvIs(s, i);
      InvIs(s, k - 1);
      if i == k - 1 {
        StepAdvances(s, i);
        TurnsIs(s, r, i);
      } else if Effective(r.threads[i].pc) ==> Effective(s.threads[i].pc) {
        StepSettles(s, i);
        OtherWaits(s, r, k - 1);
      }
    }
  }

  lemma InvIs<T>(s: State<T>, i: nat)
    requires Inv(s) && i < |s.threads|
    ensures QueueOk(s) && ThreadOk(s, i)
  {
  }

  lemma TurnsIs<T>(s: State<T>, r: State<T>, i: nat)
    requires i < |s.threads| == |r.threads| && Turns(s, r, i)
    ensures Effective(s.threads[i].pc) ==> Effective(r.threads[i].pc)
  {
  }

  /** How many turns of the schedule go to a thread that has not returned. */
  function Work<T>(s: State<T>, sched: seq<nat>): nat
    decreases |sched|
  {
    if sched == [] then 0
    else
      var i := sched[0];
      (if i < |s.threads| && !s.threads[i].pc.Returned? then 1 else 0) + Work(Step(s, i), sched[1..])
  }

  lemma {:induction false} WorkIsLeft<T>(s: State<T>, sched: seq<nat>)
    requires Inv(s)
    ensures var n := |s.threads|; Work(s, sched) + WorkLeft(Exec(s, sched), 10 * n, n) <= WorkLeft(s, 10 * n, n)
    decreases |sched|
  {
    hide Inv, Step, WorkLeft, Turns, Moves;
    if sched != [] {
      var i, n := sched[0], |s.threads|;
      StepKeepsInv(s, i);
      WorkIsLeft(Step(s, i), sched[1..]);
      if i < n && !s.threads[i].pc.Returned? {
        WorkShrinks(s, i, 10 * n, n);
      } else {
        ReturnedStays(s, i);
      }
    }
  }

  lemma ReturnedStays<T>(s: State<T>, i: nat)
    requires i >= |s.threads| || s.threads[i].pc.Returned?
    ensures Step(s, i) == s
  {
  }

  lemma {:induction false} WorkAtStart<T>(ops: seq<Op<T>>, w: nat, k: nat)
    requires k <= |ops|
    ensures WorkLeft(Init(ops), w, k) <= k * (w + 7)
  {
    if k > 0 {
      WorkAtStart(ops, w, k - 1);
      assert k * (w + 7) == (k - 1) * (w + 7) + w + 7;
    }
  }

  function Turn(sched: seq<nat>, i: nat): nat {
    if sched == [] then 0 else (if sched[0] == i then 1 else 0) + Turn(sched[1..], i)
  }

  lemma {:induction false} TurnsAreWork<T>(s: State<T>, sched: seq<nat>, i: nat)
    requires i < |s.threads| && !Exec(s, sched).threads[i].pc.Returned?
    ensures Turn(sched, i) <= Work(s, sched)
    decreases |sched|
  {
    hide Step;
    if sched != [] {
      TurnsAreWork(Step(s, sched[0]), sched[1..], i);
      if sched[0] == i && s.threads[i].pc.Returned? {
        ReturnedStays(s, i);
        StaysReturned(s, sched, i);
      }
    }
  }

  lemma {:induction false} StaysReturned<T>(s: State<T>, sched: seq<nat>, i: nat)
    requires i < |s.threads| && s.threads[i].pc.Returned?
    ensures Exec(s, sched).threads[i] == s.threads[i]
    decreases |sched|
  {
    if sched != [] {
      StaysReturned(Step(s, sched[0]), sched[1..], i);
    }
  }

  /** No call waits for another: in any run the calls together take a bounded number of steps, so a retry is
      always paid for by an operation that took effect, and a call that has had that many turns has returned. */
  lemma LockFree<T>(ops: seq<Op<T>>, sched: seq<nat>, i: nat)
    requires i < |ops|
    ensures Work(Init(ops), sched) <= |ops| * (10 * |ops| + 7)
    ensures Turn(sched, i) > |ops| * (10 * |ops| + 7) ==> Exec(Init(ops), sched).threads[i].pc.Returned?
  {
    InitInv(ops);
    WorkIsLeft(Init(ops), sched);
    WorkAtStart(ops, 10 * |ops|, |ops|);
    if !Exec(Init(ops), sched).threads[i].pc.Returned? {
      TurnsAreWork(Init(ops), sched, i);
    }
  }

  /** From every reachable state a thread that runs alone returns within ten steps, whatever the others have
      left half done. */
  lemma AloneReturns<T>(ops: seq<Op<T>>, sched: seq<nat>, i: nat)
    requires i < |ops|
    ensures Exec(Init(ops), sched + seq(10, _ => i)).threads[i].pc.Returned?
  {
    InitInv(ops);
    ExecKeepsInv(Init(ops), sched);
    ExecAppend(Init(ops), sched, seq(10, _ => i));
    AloneAdvances(Exec(Init(ops), sched), i, 10);
  }

  lemma {:induction false} AloneAdvances<T>(s: State<T>, i: nat, n: nat)
    requires Inv(s) && i < |s.threads| && Left(s, i) <= n
    ensures Exec(s, seq(n, _ => i)).threads[i].pc.Returned?
    decreases n
  {
    hide Inv, Step, Left, Turns, Moves;
    var turns := seq(n, _ => i);
    if n > 0 {
      assert turns[1..] == seq(n - 1, _ => i);
      StepKeepsInv(s, i);
      InvIs(s, i);
      if s.threads[i].pc.Returned? {
        ReturnedStays(s, i);
      } else {
        StepAdvances(s, i);
      }
      AloneAdvances(Step(s, i), i, n - 1);
    }
  }
}
