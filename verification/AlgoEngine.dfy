/** The algo engine as the interleaving of its threads: one scheduler, any number of executors, submissions
    and cancellations. Each action is one access to shared state, or one critical section of the engine's
    lock when nothing in it can be seen half done. */
module AlgoEngine {
  import opened Sums
  import Heap = ContainerHeap
  import Orders
  import Protocol = OrderProtocol

  datatype ParentStatus = Running | Paused | Completed | Cancelled
  datatype ChildStatus = Pending | Sent | Filled | Aborted

  datatype Parent = Parent(totalQty: int, status: ParentStatus, filled: int)

  /** `parent` is the parent the child was cut from; `sends` counts its accepted orders and is not part of
      the engine. */
  datatype Child = Child(id: nat, parent: nat, qty: int, at: int, status: ChildStatus, externalId: nat, filled: int,
                         sends: nat)

  datatype Report = Report(orderId: nat, filled: int, full: bool, partial: bool)

  datatype ExecutorPc =
    | Claim
    | Sending
    | Reset
    | Delay
    | Requeue
    | StoreId(r: Report)
    | StoreFilled(r: Report)
    | StoreStatus(r: Report)
    | AddFilled(r: Report)
    | ReadTotal
    | Complete
    | Exit

  datatype Executor = Executor(parent: nat, child: nat, pc: ExecutorPc)

  datatype SchedulerPc =
    | Waiting
    | Scanning(now: int)
    | CheckChild(now: int, child: nat)
    | LookUp(now: int, child: nat)
    | CheckParent(now: int, child: nat, parent: nat)
    | Abort(now: int, child: nat)
    | Postpone(now: int, child: nat)

  /** A cancellation holds the engine's lock from the status check to its last child. */
  datatype CancelPc = Unlocked | Mark(p: nat) | Load(p: nat, next: nat) | Store(p: nat, next: nat)

  datatype State = State(parents: seq<Parent>, children: seq<Child>, childToParent: map<nat, nat>, heap: seq<nat>,
                         scheduler: SchedulerPc, executors: seq<Executor>, canceller: CancelPc)

  datatype Slice = Slice(id: nat, qty: int, at: int)
  datatype Outcome = Accepted(r: Report) | Failed

  /** One step of some thread. The layout of the heap after a push or a pop is whatever `container/heap`
      makes of it. */
  datatype Act =
    | Submit(totalQty: int, slices: seq<Slice>, heap: seq<nat>)
    | CancelParent(p: nat)
    | CancelStep
    | Wake(now: int)
    | Scan(heap: seq<nat>)
    | Schedule(at: int, heap: seq<nat>)
    | Execute(e: nat, outcome: Outcome, at: int, heap: seq<nat>)

  function AtOf(children: seq<Child>): nat -> int {
    (c: nat) => if c < |children| then children[c].at else 0
  }

  function QtyOf(x: Slice): int {
    x.qty
  }

  function NewChildren(p: nat, slices: seq<Slice>): (r: seq<Child>)
    ensures |r| == |slices|
    ensures forall i | 0 <= i < |r| :: r[i] == Child(slices[i].id, p, slices[i].qty, slices[i].at, Pending, 0, 0, 0)
  {
    seq(|slices|, i requires 0 <= i < |slices| => Child(slices[i].id, p, slices[i].qty, slices[i].at, Pending, 0, 0, 0))
  }

  /** Later entries overwrite earlier ones of the same id. */
  function Registered(m: map<nat, nat>, p: nat, slices: seq<Slice>): map<nat, nat> {
    if slices == [] then m else Registered(m, p, slices[..|slices| - 1])[slices[|slices| - 1].id := p]
  }

  function Range(lo: nat, hi: nat): (r: seq<nat>)
    requires lo <= hi
    ensures |r| == hi - lo && forall i | 0 <= i < |r| :: r[i] == lo + i
  {
    seq(hi - lo, i requires 0 <= i < hi - lo => lo + i)
  }

  /** `h'` is a heap holding what `h` holds and `xs`. */
  ghost predicate Pushed(children: seq<Child>, h: seq<nat>, xs: seq<nat>, h': seq<nat>) {
    Heap.IsHeap(h', AtOf(children)) && multiset(h') == multiset(h) + multiset(xs)
  }

  ghost predicate PoppedRoot(children: seq<Child>, h: seq<nat>, h': seq<nat>) {
    h != [] && Heap.IsHeap(h', AtOf(children)) && multiset(h') == multiset(h) - multiset{h[0]}
  }

  /** The submission's loop of pushes gives such a heap. */
  method PushAll(children: seq<Child>, h0: seq<nat>, first: nat, count: nat) returns (h: seq<nat>)
    requires Heap.IsHeap(h0, AtOf(children))
    ensures Pushed(children, h0, Range(first, first + count), h)
  {
    h := h0;
    assert Range(first, first + 0) == [];
    for i := 0 to count
      invariant Pushed(children, h0, Range(first, first + i), h)
    {
      var c: nat := first + i;
      h := Heap.Push<nat>(h, AtOf(children), c);
      assert Range(first, first + i + 1) == Range(first, first + i) + [first + i];
    }
  }

  /** And the scheduler's pop gives the child that is due first and such a heap. */
  method PopDue(children: seq<Child>, h0: seq<nat>) returns (h: seq<nat>, top: nat)
    requires h0 != [] && Heap.IsHeap(h0, AtOf(children))
    ensures top == h0[0] && PoppedRoot(children, h0, h)
    ensures forall i | 0 <= i < |h0| :: AtOf(children)(top) <= AtOf(children)(h0[i])
  {
    h, top := Heap.Pop<nat>(h0, AtOf(children));
  }

  // ----- Steps -----

  function SubmitStep(s: State, a: Act): State
    requires a.Submit?
  {
    s.(parents := s.parents + [Parent(a.totalQty, Running, 0)],
       children := s.children + NewChildren(|s.parents|, a.slices),
       childToParent := Registered(s.childToParent, |s.parents|, a.slices), heap := a.heap)
  }

  function SetChild(s: State, c: nat, x: Child): State
    requires c < |s.children|
  {
    s.(children := s.children[c := x])
  }

  function CancellerStep(s: State): State
    requires CancellerEnabled(s)
  {
    match s.canceller
    case Mark(p) => s.(parents := s.parents[p := s.parents[p].(status := Cancelled)], canceller := Load(p, 0))
    case Load(p, k) =>
      if k >= |s.children| then s.(canceller := Unlocked)
      else if s.children[k].parent == p && (s.children[k].status == Pending || s.children[k].status == Sent) then
        s.(canceller := Store(p, k))
      else s.(canceller := Load(p, k + 1))
    case Store(p, k) => SetChild(s, k, s.children[k].(status := Aborted)).(canceller := Load(p, k + 1))
  }

  predicate CancellerEnabled(s: State) {
    && (s.canceller.Mark? ==> s.canceller.p < |s.parents|)
    && (s.canceller.Store? ==> s.canceller.next < |s.children|)
    && !s.canceller.Unlocked?
  }

  function ScanStep(s: State, h: seq<nat>): State
    requires s.scheduler.Scanning?
  {
    if s.heap == [] || AtOf(s.children)(s.heap[0]) > s.scheduler.now then s.(scheduler := Waiting)
    else s.(heap := h, scheduler := CheckChild(s.scheduler.now, s.heap[0]))
  }

  predicate SchedulerEnabled(s: State) {
    match s.scheduler
    case CheckChild(_, c) => c < |s.children|
    case LookUp(_, c) => c < |s.children|
    case CheckParent(_, c, p) => c < |s.children| && p < |s.parents|
    case Abort(_, c) => c < |s.children|
    case Postpone(_, c) => c < |s.children|
    case _ => false
  }

  function ScheduleStep(s: State, at: int, h: seq<nat>): State
    requires SchedulerEnabled(s)
  {
    match s.scheduler
    case CheckChild(now, c) =>
      s.(scheduler := if s.children[c].status == Pending then LookUp(now, c) else Scanning(now))
    case LookUp(now, c) =>
      var id := s.children[c].id;
      s.(scheduler := if id in s.childToParent && s.childToParent[id] < |s.parents|
                      then CheckParent(now, c, s.childToParent[id]) else Scanning(now))
    case CheckParent(now, c, p) =>
      if s.parents[p].status == Cancelled then s.(scheduler := Abort(now, c))
      else if s.parents[p].status == Paused then s.(scheduler := Postpone(now, c))
      else s.(scheduler := Scanning(now), executors := s.executors + [Executor(p, c, Claim)])
    case Abort(now, c) => SetChild(s, c, s.children[c].(status := Aborted)).(scheduler := Scanning(now))
    case Postpone(now, c) => SetChild(s, c, s.children[c].(at := at)).(scheduler := Scanning(now), heap := h)
  }

  predicate ExecutorEnabled(s: State, e: nat) {
    e < |s.executors| && s.executors[e].child < |s.children| && s.executors[e].parent < |s.parents|
  }

  function Goto(s: State, e: nat, pc: ExecutorPc): State
    requires e < |s.executors|
  {
    s.(executors := s.executors[e := s.executors[e].(pc := pc)])
  }

  function ExecuteStep(s: State, e: nat, outcome: Outcome, at: int, h: seq<nat>): State
    requires ExecutorEnabled(s, e)
  {
    var x := s.executors[e];
    var c := s.children[x.child];
    match x.pc
    case Claim =>
      if c.status == Pending then Goto(SetChild(s, x.child, c.(status := Sent)), e, Sending) else Goto(s, e, Exit)
    case Sending =>
      if outcome.Failed? then Goto(s, e, Reset)
      else Goto(SetChild(s, x.child, c.(sends := c.sends + 1)), e, StoreId(outcome.r))
    case Reset => Goto(SetChild(s, x.child, if c.status == Sent then c.(status := Pending) else c), e, Delay)
    case Delay => Goto(SetChild(s, x.child, c.(at := at)), e, Requeue)
    case Requeue => Goto(s, e, Exit).(heap := h)
    case StoreId(r) => Goto(SetChild(s, x.child, c.(externalId := r.orderId)), e, StoreFilled(r))
    case StoreFilled(r) => Goto(SetChild(s, x.child, c.(filled := r.filled)), e, StoreStatus(r))
    case StoreStatus(r) =>
      Goto(SetChild(s, x.child, if r.full then c.(status := Filled)
                                else if r.partial || r.filled > 0 then c.(status := Sent) else c), e, AddFilled(r))
    case AddFilled(r) =>
      var p := s.parents[x.parent];
      Goto(s.(parents := s.parents[x.parent := p.(filled := p.filled + r.filled)]), e, ReadTotal)
    case ReadTotal =>
      Goto(s, e, if s.parents[x.parent].filled >= s.parents[x.parent].totalQty then Complete else Exit)
    case Complete => Goto(s.(parents := s.parents[x.parent := s.parents[x.parent].(status := Completed)]), e, Exit)
    case Exit => s
  }

  /** What a report can say of an order: a filled quantity, and a status read after it, that the order had
      in some interleaving of the fills and cancels that reached it. */
  ghost predicate CanReport(qty: int, r: Report) {
    exists calls, early, late :: Reads(qty, calls, early, late, r)
  }

  ghost predicate Reads(qty: int, calls: seq<Protocol.Call>, early: seq<nat>, late: seq<nat>, r: Report) {
    var s := Protocol.Exec(Protocol.Init(qty, calls), early);
    var t := Protocol.Exec(s, late);
    r.filled == s.order.filled && r.full == (t.order.status == Orders.Filled)
      && r.partial == (t.order.status == Orders.Partially)
  }

  /** No report claims more than the order. */
  lemma ReportWithinOrder(qty: int, r: Report)
    requires qty > 0 && CanReport(qty, r)
    ensures 0 <= r.filled <= qty
  {
    hide Protocol.Exec, Protocol.Init;
    var calls, early, late :| Reads(qty, calls, early, late, r);
    Protocol.ReachableIsSafe(qty, calls, early);
  }

  /** Any quantity an order can be filled with at once can be reported, with the status that goes with it. */
  lemma FilledAtOnce(qty: int, filled: int, orderId: nat)
    requires 0 <= filled <= qty
    ensures var status := Orders.StatusFor(filled, qty);
            CanReport(qty, Report(orderId, filled, status == Orders.Filled, status == Orders.Partially))
  {
    var status := Orders.StatusFor(filled, qty);
    var r := Report(orderId, filled, status == Orders.Filled, status == Orders.Partially);
    var calls := [Protocol.Fill(filled)];
    var early: seq<nat> := if filled > 0 then [0, 0, 0, 0, 0] else [];
    if filled > 0 {
      Protocol.AloneFillIsSequential(Protocol.Init(qty, calls), 0);
    }
    assert Reads(qty, calls, early, [], r);
  }

  /** What an action needs: the lock where it takes it, and inputs its environment can give. */
  ghost predicate Enabled(s: State, a: Act) {
    match a
    case Submit(totalQty, slices, h) =>
      && s.canceller.Unlocked? && Sum(slices, QtyOf) == totalQty && (forall i | 0 <= i < |slices| :: slices[i].qty >= 1)
      && Pushed(SubmitStep(s, a).children, s.heap, Range(|s.children|, |s.children| + |slices|), h)
    case CancelParent(p) =>
      s.canceller.Unlocked? && p < |s.parents| && s.parents[p].status != Completed && s.parents[p].status != Cancelled
    case CancelStep => CancellerEnabled(s)
    case Wake(now) => s.scheduler.Waiting?
    case Scan(h) =>
      s.scheduler.Scanning? && s.canceller.Unlocked? && (s.heap != [] ==> PoppedRoot(s.children, s.heap, h))
    case Schedule(at, h) =>
      SchedulerEnabled(s) && (s.scheduler.Postpone? ==>
        s.canceller.Unlocked? && Pushed(ScheduleStep(s, at, h).children, s.heap, [s.scheduler.child], h))
    case Execute(e, outcome, at, h) =>
      ExecutorEnabled(s, e)
      && (s.executors[e].pc.Sending? && outcome.Accepted? ==>
            CanReport(s.children[s.executors[e].child].qty, outcome.r))
      && (s.executors[e].pc.Requeue? ==> s.canceller.Unlocked? && Pushed(s.children, s.heap, [s.executors[e].child], h))
  }

  function Step(s: State, a: Act): State
    requires Enabled(s, a)
  {
    match a
    case Submit(_, _, _) => SubmitStep(s, a)
    case CancelParent(p) => s.(canceller := Mark(p))
    case CancelStep => CancellerStep(s)
    case Wake(now) => s.(scheduler := Scanning(now))
    case Scan(h) => ScanStep(s, h)
    case Schedule(at, h) => ScheduleStep(s, at, h)
    case Execute(e, outcome, at, h) => ExecuteStep(s, e, outcome, at, h)
  }

  const INIT := State([], [], map[], [], Waiting, [], Unlocked)

  /** The actions, taken one after the other from `s`, lead to `r`. */
  ghost predicate Runs(s: State, acts: seq<Act>, r: State)
    decreases |acts|
  {
    if acts == [] then s == r else Enabled(s, acts[0]) && Runs(Step(s, acts[0]), acts[1..], r)
  }

  // ----- The invariant -----

  predicate Live(pc: ExecutorPc) {
    !pc.Exit?
  }

  predicate BeforeSend(pc: ExecutorPc) {
    pc.Claim? || pc.Sending? || pc.Reset? || pc.Delay? || pc.Requeue?
  }

  predicate Holds(sc: SchedulerPc, c: nat) {
    !sc.Waiting? && !sc.Scanning? && sc.child == c
  }

  predicate ChildOk(s: State, x: Child) {
    && x.parent < |s.parents| && x.qty >= 1 && x.sends <= 1 && 0 <= x.filled <= x.qty
    && (x.sends == 0 ==> x.filled == 0)
    && x.id in s.childToParent && s.childToParent[x.id] < |s.parents|
  }

  ghost predicate HeapOk(s: State) {
    && Heap.IsHeap(s.heap, AtOf(s.children)) && (forall c: nat :: multiset(s.heap)[c] <= 1)
    && forall i | 0 <= i < |s.heap| :: s.heap[i] < |s.children| && s.children[s.heap[i]].sends == 0
  }

  predicate SchedulerOk(s: State) {
    && (!s.scheduler.Waiting? && !s.scheduler.Scanning? ==>
          s.scheduler.child < |s.children| && s.scheduler.child !in s.heap && s.children[s.scheduler.child].sends == 0)
    && (s.scheduler.CheckParent? ==> s.scheduler.parent < |s.parents|)
  }

  predicate ExecutorOk(s: State, x: Executor) {
    && x.child < |s.children| && x.parent < |s.parents|
    && (Live(x.pc) ==> x.child !in s.heap && !Holds(s.scheduler, x.child)
                       && s.children[x.child].sends == if BeforeSend(x.pc) then 0 else 1)
    && (x.pc.StoreId? || x.pc.StoreFilled? ==>
          s.children[x.child].filled == 0 && 0 <= x.pc.r.filled <= s.children[x.child].qty)
    && (x.pc.StoreStatus? || x.pc.AddFilled? ==> s.children[x.child].filled == x.pc.r.filled)
  }

  /** Every child has at most one token: a heap entry, the scheduler's hand, or a running executor; and a
      child whose order was accepted has none to send again. */
  ghost predicate TokensOk(s: State) {
    && HeapOk(s) && SchedulerOk(s)
    && (forall c | 0 <= c < |s.children| :: ChildOk(s, s.children[c]))
    && (forall e | 0 <= e < |s.executors| :: ExecutorOk(s, s.executors[e]))
    && (forall d, e | 0 <= d < e < |s.executors| ::
          Live(s.executors[d].pc) && Live(s.executors[e].pc) ==> s.executors[d].child != s.executors[e].child)
    && (s.canceller.Mark? ==> s.canceller.p < |s.parents|) && (s.canceller.Store? ==> s.canceller.next < |s.children|)
  }

  lemma HeapSame(h: seq<nat>, f: nat -> int, g: nat -> int)
    requires Heap.IsHeap(h, f) && forall i | 0 <= i < |h| :: f(h[i]) == g(h[i])
    ensures Heap.IsHeap(h, g)
  {
    forall k: nat | k < |h| ensures Heap.Ordered(h, g, k) {
      assert Heap.Ordered(h, f, k);
    }
  }

  predicate Among(slices: seq<Slice>, id: nat) {
    exists i :: 0 <= i < |slices| && slices[i].id == id
  }

  lemma RegisteredIs(m: map<nat, nat>, p: nat, slices: seq<Slice>)
    ensures forall id :: id in Registered(m, p, slices) <==> id in m || Among(slices, id)
    ensures forall id | id in Registered(m, p, slices) ::
              Registered(m, p, slices)[id] == if Among(slices, id) then p else m[id]
  {
    if slices != [] {
      var n := |slices| - 1;
      RegisteredIs(m, p, slices[..n]);
      forall id ensures Among(slices, id) <==> slices[n].id == id || Among(slices[..n], id) {
        if Among(slices[..n], id) {
          var i :| 0 <= i < n && slices[..n][i].id == id;
          assert slices[i].id == id;
        }
        if Among(slices, id) && slices[n].id != id {
          var i :| 0 <= i < |slices| && slices[i].id == id;
          assert slices[..n][i].id == id;
        }
      }
    }
  }

  lemma PushedHeap(children: seq<Child>, h: seq<nat>, xs: seq<nat>, h': seq<nat>)
    requires Pushed(children, h, xs, h')
    requires forall c: nat :: multiset(h)[c] <= 1 && (c in xs ==> c !in h) && multiset(xs)[c] <= 1
    ensures forall c: nat :: multiset(h')[c] <= 1 && (c in h' <==> c in h || c in xs)
  {
    forall c: nat ensures multiset(h')[c] <= 1 && (c in h' <==> c in h || c in xs) {
      assert multiset(h')[c] == multiset(h)[c] + multiset(xs)[c];
      assert (c in h' <==> multiset(h')[c] > 0) && (c in h <==> multiset(h)[c] > 0)
             && (c in xs <==> multiset(xs)[c] > 0);
    }
  }

  lemma SubmitHeapMembers(s: State, a: Act)
    requires HeapOk(s) && a.Submit? && Enabled(s, a)
    ensures Heap.IsHeap(a.heap, AtOf(SubmitStep(s, a).children))
    ensures forall c: nat ::
              multiset(a.heap)[c] <= 1
                && (c in a.heap <==> c in s.heap || |s.children| <= c < |s.children| + |a.slices|)
  {
    hide Heap.IsHeap;
    var xs: seq<nat> := Range(|s.children|, |s.children| + |a.slices|);
    RangeMembers(|s.children|, |s.children| + |a.slices|);
    PushedHeap(SubmitStep(s, a).children, s.heap, xs, a.heap);
  }

  lemma RangeMembers(lo: nat, hi: nat)
    requires lo <= hi
    ensures forall c: nat :: multiset(Range(lo, hi))[c] <= 1 && (c in Range(lo, hi) <==> lo <= c < hi)
  {
    forall c: nat ensures multiset(Range(lo, hi))[c] <= 1 && (c in Range(lo, hi) <==> lo <= c < hi) {
      RangeOnce(lo, hi, c);
      assert c in Range(lo, hi) <==> multiset(Range(lo, hi))[c] > 0;
    }
  }

  lemma SubmitKeepsHeap(s: State, a: Act)
    requires HeapOk(s) && a.Submit? && Enabled(s, a)
    ensures HeapOk(SubmitStep(s, a))
    ensures forall c: nat ::
              c in SubmitStep(s, a).heap <==> c in s.heap || |s.children| <= c < |s.children| + |a.slices|
  {
    hide Heap.IsHeap, Pushed, Registered;
    SubmitHeapMembers(s, a);
    forall i | 0 <= i < |a.heap|
      ensures a.heap[i] < |s.children| + |a.slices| && SubmitStep(s, a).children[a.heap[i]].sends == 0
    {
      assert a.heap[i] in a.heap;
    }
  }

  lemma SubmitKeepsTokens(s: State, a: Act)
    requires TokensOk(s) && a.Submit? && Enabled(s, a)
    ensures TokensOk(SubmitStep(s, a))
  {
    hide HeapOk, Registered, Pushed;
    SubmitKeepsHeap(s, a);
    RegisteredIs(s.childToParent, |s.parents|, a.slices);
    var r := SubmitStep(s, a);
    forall c | 0 <= c < |r.children| ensures ChildOk(r, r.children[c]) {
      if c < |s.children| {
        assert ChildOk(s, s.children[c]);
      } else {
        assert Among(a.slices, a.slices[c - |s.children|].id);
      }
    }
    forall e | 0 <= e < |r.executors| ensures ExecutorOk(r, r.executors[e]) {
      assert ExecutorOk(s, s.executors[e]);
    }
  }

  lemma RangeOnce(lo: nat, hi: nat, c: nat)
    requires lo <= hi
    ensures multiset(Range(lo, hi))[c] == if lo <= c < hi then 1 else 0
    decreases hi - lo
  {
    if lo < hi {
      assert Range(lo, hi) == Range(lo, hi - 1) + [hi - 1];
      RangeOnce(lo, hi - 1, c);
    } else {
      assert Range(lo, hi) == [];
    }
  }

  /** A child that is not in the heap may change as it likes. */
  lemma ChildKeepsHeap(s: State, c: nat, x: Child)
    requires HeapOk(s) && c < |s.children| && (c in s.heap ==> x.at == s.children[c].at && x.sends == 0)
    ensures HeapOk(SetChild(s, c, x))
  {
    var r := SetChild(s, c, x);
    forall i | 0 <= i < |s.heap|
      ensures AtOf(s.children)(s.heap[i]) == AtOf(r.children)(s.heap[i]) && r.children[s.heap[i]].sends == 0
    {
      assert s.heap[i] in s.heap;
    }
    HeapSame(s.heap, AtOf(s.children), AtOf(r.children));
  }

  lemma CancelKeepsTokens(s: State)
    requires TokensOk(s) && CancellerEnabled(s)
    ensures TokensOk(CancellerStep(s))
  {
    hide HeapOk;
    var r := CancellerStep(s);
    if s.canceller.Store? {
      var k := s.canceller.next;
      assert HeapOk(SetChild(s, k, s.children[k].(status := Aborted))) by {
        HeapSends(s, k);
        ChildKeepsHeap(s, k, s.children[k].(status := Aborted));
      }
      HeapOnly(SetChild(s, k, s.children[k].(status := Aborted)), r);
    } else {
      HeapOnly(s, r);
    }
    assert forall c | 0 <= c < |s.children| :: ChildOk(s, s.children[c]);
    assert forall e | 0 <= e < |s.executors| :: ExecutorOk(s, s.executors[e]);
  }

  lemma HeapSends(s: State, c: nat)
    requires HeapOk(s) && c < |s.children|
    ensures c in s.heap ==> s.children[c].sends == 0
  {
  }

  lemma HeapOnly(s: State, r: State)
    requires HeapOk(s) && r.heap == s.heap && r.children == s.children
    ensures HeapOk(r)
  {
  }

  /** The scheduler takes the child due first. */
  lemma ScanTakesEarliest(s: State)
    requires HeapOk(s) && s.heap != []
    ensures forall i | 0 <= i < |s.heap| :: AtOf(s.children)(s.heap[0]) <= AtOf(s.children)(s.heap[i])
  {
    forall i | 0 <= i < |s.heap| ensures AtOf(s.children)(s.heap[0]) <= AtOf(s.children)(s.heap[i]) {
      Heap.RootIsLeast(s.heap, AtOf(s.children), i);
    }
  }

  lemma ScanKeepsTokens(s: State, h: seq<nat>)
    requires TokensOk(s) && Enabled(s, Scan(h))
    ensures TokensOk(ScanStep(s, h))
  {
    hide HeapOk, PoppedRoot;
    var r := ScanStep(s, h);
    if s.heap != [] && AtOf(s.children)(s.heap[0]) <= s.scheduler.now {
      PoppedHeap(s, h);
      RootIsChild(s);
      HeapOnly(s.(heap := h), r);
    } else {
      HeapOnly(s, r);
    }
    assert forall c | 0 <= c < |s.children| :: ChildOk(s, s.children[c]);
    forall e | 0 <= e < |r.executors| ensures ExecutorOk(r, r.executors[e]) {
      assert ExecutorOk(s, s.executors[e]);
    }
  }

  lemma RootIsChild(s: State)
    requires HeapOk(s) && s.heap != []
    ensures s.heap[0] < |s.children| && s.children[s.heap[0]].sends == 0
  {
  }

  lemma PoppedHeap(s: State, h: seq<nat>)
    requires HeapOk(s) && PoppedRoot(s.children, s.heap, h)
    ensures HeapOk(s.(heap := h)) && s.heap[0] !in h && forall c: nat :: c in h ==> c in s.heap
  {
    var root: nat := s.heap[0];
    forall c: nat ensures multiset(h)[c] <= 1 && (c in h ==> c in s.heap && c != root) {
      assert multiset(h)[c] <= multiset(s.heap)[c] <= 1;
      assert (c in h <==> multiset(h)[c] > 0) && (c in s.heap <==> multiset(s.heap)[c] > 0);
    }
    forall i | 0 <= i < |h| ensures h[i] < |s.children| && s.children[h[i]].sends == 0 {
      assert h[i] in h;
    }
  }

  lemma ScheduleKeepsTokens(s: State, at: int, h: seq<nat>)
    requires TokensOk(s) && Enabled(s, Schedule(at, h))
    ensures TokensOk(ScheduleStep(s, at, h))
  {
    hide HeapOk, Pushed;
    var r := ScheduleStep(s, at, h);
    var c := s.scheduler.child;
    if s.scheduler.Abort? {
      var x := s.children[c].(status := Aborted);
      ChildKeepsHeap(s, c, x);
      HeapOnly(SetChild(s, c, x), r);
      OthersKeep(s, r, c);
    } else if s.scheduler.Postpone? {
      var t := SetChild(s, c, s.children[c].(at := at));
      ChildKeepsHeap(s, c, s.children[c].(at := at));
      ReturnKeepsHeap(t, c, h);
      HeapOnly(t.(heap := h), r);
      OthersKeep(s, r, c);
    } else if s.scheduler.LookUp? {
      assert ChildOk(s, s.children[c]);
      HeapOnly(s, r);
      OthersKeep(s, r, c);
    } else if s.scheduler.CheckParent? && r.executors != s.executors {
      HeapOnly(s, r);
      OthersKeep(s, r.(executors := s.executors), c);
    } else {
      HeapOnly(s, r);
      OthersKeep(s, r, c);
    }
  }

  /** When the scheduler acts on the child in its hand, the executors and children keep their part. */
  lemma OthersKeep(s: State, r: State, c: nat)
    requires TokensOk(s) && Holds(s.scheduler, c)
             && (r.scheduler.Scanning? || r.scheduler.Waiting? || Holds(r.scheduler, c))
    requires c < |s.children| == |r.children| && |r.parents| == |s.parents| && r.childToParent == s.childToParent
             && r.executors == s.executors
    requires forall d: nat | d < |s.children| :: (d == c || r.children[d] == s.children[d])
    requires r.children[c] == s.children[c].(status := r.children[c].status, at := r.children[c].at)
    requires forall d: nat :: d in r.heap ==> d in s.heap || d == c
    ensures forall d | 0 <= d < |r.children| :: ChildOk(r, r.children[d])
    ensures forall e | 0 <= e < |r.executors| :: ExecutorOk(r, r.executors[e])
  {
    hide HeapOk;
    forall d | 0 <= d < |r.children| ensures ChildOk(r, r.children[d]) {
      assert ChildOk(s, s.children[d]);
    }
    forall e | 0 <= e < |r.executors| ensures ExecutorOk(r, r.executors[e]) {
      assert ExecutorOk(s, s.executors[e]);
    }
  }

  /** A token goes back into the heap. */
  lemma ReturnKeepsHeap(s: State, c: nat, h: seq<nat>)
    requires HeapOk(s) && c < |s.children| && c !in s.heap && s.children[c].sends == 0
    requires Pushed(s.children, s.heap, [c], h)
    ensures HeapOk(s.(heap := h)) && forall d: nat :: d in h <==> d in s.heap || d == c
  {
    var xs: seq<nat> := [c];
    PushedHeap(s.children, s.heap, xs, h);
    forall i | 0 <= i < |h| ensures h[i] < |s.children| && s.children[h[i]].sends == 0 {
      assert h[i] in h;
    }
  }

  /** What a step of executor `e` leaves to the others: its own child and parent change, nothing that
      identifies them. */
  ghost predicate OwnMove(s: State, r: State, e: nat)
    requires ExecutorEnabled(s, e)
  {
    var x := s.executors[e];
    var c, p := x.child, x.parent;
    && |r.children| == |s.children| && r.children == s.children[c := r.children[c]]
    && |r.parents| == |s.parents| && r.parents == s.parents[p := r.parents[p]]
    && |r.executors| == |s.executors| && r.executors == s.executors[e := x.(pc := r.executors[e].pc)]
    && r.childToParent == s.childToParent && r.scheduler == s.scheduler && r.canceller == s.canceller
    && r.children[c].id == s.children[c].id && r.children[c].parent == s.children[c].parent
    && r.children[c].qty == s.children[c].qty
    && r.parents[p].totalQty == s.parents[p].totalQty
    && (x.pc.Exit? ==> r.children == s.children)
    && (Live(r.executors[e].pc) ==> Live(x.pc) && !x.pc.Requeue?)
  }

  lemma SendingIsOwnMove(s: State, e: nat, outcome: Outcome, at: int, h: seq<nat>)
    requires ExecutorEnabled(s, e) && BeforeSend(s.executors[e].pc)
    ensures OwnMove(s, ExecuteStep(s, e, outcome, at, h), e)
  {
  }

  lemma BookingIsOwnMove(s: State, e: nat, outcome: Outcome, at: int, h: seq<nat>)
    requires ExecutorEnabled(s, e) && !BeforeSend(s.executors[e].pc)
    ensures OwnMove(s, ExecuteStep(s, e, outcome, at, h), e)
  {
  }

  lemma ExecuteIsOwnMove(s: State, e: nat, outcome: Outcome, at: int, h: seq<nat>)
    requires ExecutorEnabled(s, e)
    ensures OwnMove(s, ExecuteStep(s, e, outcome, at, h), e)
    ensures ExecuteStep(s, e, outcome, at, h).heap == if s.executors[e].pc.Requeue? then h else s.heap
  {
    hide OwnMove;
    if BeforeSend(s.executors[e].pc) {
      SendingIsOwnMove(s, e, outcome, at, h);
    } else {
      BookingIsOwnMove(s, e, outcome, at, h);
    }
  }

  lemma OthersStay(s: State, r: State, e: nat)
    requires TokensOk(s) && ExecutorEnabled(s, e) && OwnMove(s, r, e)
    requires ChildOk(r, r.children[s.executors[e].child]) && ExecutorOk(r, r.executors[e])
    requires forall d: nat :: d in r.heap ==> d in s.heap || (d == s.executors[e].child && Live(s.executors[e].pc))
    requires HeapOk(r)
    ensures TokensOk(r)
  {
    hide HeapOk;
    var c := s.executors[e].child;
    assert ExecutorOk(s, s.executors[e]);
    forall d | 0 <= d < |r.children| ensures ChildOk(r, r.children[d]) {
      assert ChildOk(s, s.children[d]);
    }
    forall d | 0 <= d < |r.executors| ensures ExecutorOk(r, r.executors[d]) {
      assert ExecutorOk(s, s.executors[d]);
    }
  }

  lemma SendingChildOk(s: State, e: nat, outcome: Outcome, at: int, h: seq<nat>)
    requires ExecutorEnabled(s, e) && ExecutorOk(s, s.executors[e]) && ChildOk(s, s.children[s.executors[e].child])
    requires Enabled(s, Execute(e, outcome, at, h)) && BeforeSend(s.executors[e].pc)
    ensures var r := ExecuteStep(s, e, outcome, at, h);
            s.executors[e].child < |r.children| && ChildOk(r, r.children[s.executors[e].child])
            && e < |r.executors| && ExecutorOk(r, r.executors[e])
  {
    hide Pushed, CanReport;
    if s.executors[e].pc.Sending? && outcome.Accepted? {
      ReportWithinOrder(s.children[s.executors[e].child].qty, outcome.r);
    }
  }

  lemma BookingChildOk(s: State, e: nat, outcome: Outcome, at: int, h: seq<nat>)
    requires ExecutorEnabled(s, e) && ExecutorOk(s, s.executors[e]) && ChildOk(s, s.children[s.executors[e].child])
    requires !BeforeSend(s.executors[e].pc)
    ensures var r := ExecuteStep(s, e, outcome, at, h);
            s.executors[e].child < |r.children| && ChildOk(r, r.children[s.executors[e].child])
            && e < |r.executors| && ExecutorOk(r, r.executors[e])
  {
  }

  lemma OwnChildOk(s: State, e: nat, outcome: Outcome, at: int, h: seq<nat>)
    requires ExecutorEnabled(s, e) && ExecutorOk(s, s.executors[e]) && ChildOk(s, s.children[s.executors[e].child])
    requires Enabled(s, Execute(e, outcome, at, h))
    ensures var r := ExecuteStep(s, e, outcome, at, h);
            s.executors[e].child < |r.children| && ChildOk(r, r.children[s.executors[e].child])
            && e < |r.executors| && ExecutorOk(r, r.executors[e])
  {
    hide Enabled, ExecuteStep, ExecutorOk, ChildOk;
    if BeforeSend(s.executors[e].pc) {
      SendingChildOk(s, e, outcome, at, h);
    } else {
      BookingChildOk(s, e, outcome, at, h);
    }
  }

  lemma ExecuteKeepsHeap(s: State, e: nat, outcome: Outcome, at: int, h: seq<nat>)
    requires TokensOk(s) && Enabled(s, Execute(e, outcome, at, h))
    ensures HeapOk(ExecuteStep(s, e, outcome, at, h))
    ensures s.executors[e].pc.Requeue? ==> forall d: nat :: d in h <==> d in s.heap || d == s.executors[e].child
  {
    hide HeapOk, Pushed;
    var r := ExecuteStep(s, e, outcome, at, h);
    var x := s.executors[e];
    assert ExecutorOk(s, x);
    if x.pc.Requeue? {
      ReturnKeepsHeap(s, x.child, h);
      HeapOnly(s.(heap := h), r);
    } else if x.pc.Exit? {
      HeapOnly(s, r);
    } else {
      ExecuteIsOwnMove(s, e, outcome, at, h);
      ChildKeepsHeap(s, x.child, r.children[x.child]);
      assert SetChild(s, x.child, r.children[x.child]).children == r.children;
      HeapOnly(SetChild(s, x.child, r.children[x.child]), r);
    }
  }

  lemma ExecuteKeepsTokens(s: State, e: nat, outcome: Outcome, at: int, h: seq<nat>)
    requires TokensOk(s) && Enabled(s, Execute(e, outcome, at, h))
    ensures TokensOk(ExecuteStep(s, e, outcome, at, h))
  {
    hide *;
    ExecutorIs(s, e, outcome, at, h);
    ExecuteKeepsHeap(s, e, outcome, at, h);
    ExecuteIsOwnMove(s, e, outcome, at, h);
    OwnChildOk(s, e, outcome, at, h);
    OthersStay(s, ExecuteStep(s, e, outcome, at, h), e);
  }

  lemma ExecutorIs(s: State, e: nat, outcome: Outcome, at: int, h: seq<nat>)
    requires TokensOk(s) && Enabled(s, Execute(e, outcome, at, h))
    ensures ExecutorEnabled(s, e) && (s.executors[e].pc.Requeue? ==> Live(s.executors[e].pc))
    ensures ExecutorOk(s, s.executors[e]) && ChildOk(s, s.children[s.executors[e].child])
  {
    hide HeapOk, Pushed;
  }

  /** Every action of every thread keeps the tokens in order. */
  lemma StepKeepsTokens(s: State, a: Act)
    requires TokensOk(s) && Enabled(s, a)
    ensures TokensOk(Step(s, a))
  {
    match a
    case Submit(_, _, _) => SubmitKeepsTokens(s, a);
    case CancelParent(p) => HeapOnly(s, Step(s, a)); SameTokens(s, Step(s, a));
    case CancelStep => CancelKeepsTokens(s);
    case Wake(now) => HeapOnly(s, Step(s, a)); SameTokens(s, Step(s, a));
    case Scan(h) => ScanKeepsTokens(s, h);
    case Schedule(at, h) => ScheduleKeepsTokens(s, at, h);
    case Execute(e, outcome, at, h) => ExecuteKeepsTokens(s, e, outcome, at, h);
  }

  lemma SameTokens(s: State, r: State)
    requires TokensOk(s) && HeapOk(r) && r.heap == s.heap
    requires r == s.(scheduler := r.scheduler, canceller := r.canceller)
    requires r.scheduler == s.scheduler || r.scheduler.Scanning?
    requires r.canceller == s.canceller || (r.canceller.Mark? && r.canceller.p < |s.parents|)
    ensures TokensOk(r)
  {
    hide HeapOk;
    forall d | 0 <= d < |r.children| ensures ChildOk(r, r.children[d]) {
      assert ChildOk(s, s.children[d]);
    }
    forall e | 0 <= e < |r.executors| ensures ExecutorOk(r, r.executors[e]) {
      assert ExecutorOk(s, s.executors[e]);
    }
  }

  // ----- Quantities -----

  function ParentFilled(x: Parent): int {
    x.filled
  }

  /** What the children of parent `p` have filled, or all children for `p < 0`. */
  function FilledOf(p: int): Child -> int {
    (c: Child) => if p < 0 || c.parent == p then c.filled else 0
  }

  function QtyFor(p: int): Child -> int {
    (c: Child) => if c.parent == p then c.qty else 0
  }

  /** What an executor has stored on its child and not yet added to a parent. */
  function PendingFor(p: int): Executor -> int {
    (x: Executor) => if (p < 0 || x.parent == p) && (x.pc.StoreStatus? || x.pc.AddFilled?) then x.pc.r.filled else 0
  }

  function Booked(s: State, p: int): int {
    if p < 0 then Sum(s.parents, ParentFilled) else if p < |s.parents| then s.parents[p].filled else 0
  }

  ghost predicate Balance(s: State, p: int) {
    Booked(s, p) + Sum(s.executors, PendingFor(p)) == Sum(s.children, FilledOf(p))
  }

  ghost predicate Budgets(s: State) {
    forall p | 0 <= p < |s.parents| :: s.parents[p].totalQty == Sum(s.children, QtyFor(p))
  }

  /** No two parents have children with the same id. */
  ghost predicate DistinctIds(s: State) {
    forall c, d | 0 <= c < d < |s.children| ::
      s.children[c].id == s.children[d].id ==> s.children[c].parent == s.children[d].parent
  }

  /** Every fill is on its way to the parent its child was cut from. */
  ghost predicate Attributed(s: State) {
    && (forall c | 0 <= c < |s.children| ::
          s.children[c].id in s.childToParent && s.childToParent[s.children[c].id] == s.children[c].parent)
    && (s.scheduler.CheckParent? ==>
          s.scheduler.child < |s.children| && s.scheduler.parent == s.children[s.scheduler.child].parent)
    && forall e | 0 <= e < |s.executors| ::
         s.executors[e].child < |s.children| && s.executors[e].parent == s.children[s.executors[e].child].parent
  }

  /** Children that change neither parent nor fill, executors that hold no more than before and parents that
      book no more keep the balance. */
  lemma SameBalance(s: State, r: State, p: int)
    requires Balance(s, p) && |r.parents| == |s.parents| && |r.children| == |s.children| && r.executors == s.executors
    requires forall i | 0 <= i < |s.parents| :: r.parents[i].filled == s.parents[i].filled
    requires forall i | 0 <= i < |s.children| ::
               r.children[i].filled == s.children[i].filled && r.children[i].parent == s.children[i].parent
    ensures Balance(r, p)
  {
    SumSame(s.parents, r.parents, ParentFilled, ParentFilled);
    SumSame(s.children, r.children, FilledOf(p), FilledOf(p));
  }

  lemma SpawnKeepsBalance(s: State, r: State, x: Executor, p: int)
    requires Balance(s, p) && r.parents == s.parents && r.children == s.children && r.executors == s.executors + [x]
             && x.pc.Claim?
    ensures Balance(r, p)
  {
    SumPush(s.executors, x, PendingFor(p));
  }

  lemma SubmitKeepsBalance(s: State, a: Act, p: int)
    requires Balance(s, p) && a.Submit? && p < |s.parents|
    ensures Balance(SubmitStep(s, a), p)
  {
    var new' := NewChildren(|s.parents|, a.slices);
    SumAppend(s.children, new', FilledOf(p));
    SumZero(new', FilledOf(p));
    SumPush(s.parents, Parent(a.totalQty, Running, 0), ParentFilled);
  }

  lemma SubmitStartsBalance(s: State, a: Act)
    requires a.Submit? && TokensOk(s)
    ensures Balance(SubmitStep(s, a), |s.parents|)
  {
    var r := SubmitStep(s, a);
    forall i | 0 <= i < |r.children| ensures FilledOf(|s.parents|)(r.children[i]) == 0 {
      if i < |s.children| {
        assert ChildOk(s, s.children[i]);
      }
    }
    SumZero(r.children, FilledOf(|s.parents|));
    forall e | 0 <= e < |r.executors| ensures PendingFor(|s.parents|)(r.executors[e]) == 0 {
      assert ExecutorOk(s, s.executors[e]);
    }
    SumZero(r.executors, PendingFor(|s.parents|));
  }

  function Unbooked(pc: ExecutorPc): int {
    if pc.StoreStatus? || pc.AddFilled? then pc.r.filled else 0
  }

  /** A step moves a fill from the report to the child, or on to the parent. */
  lemma ExecuteMoves(s: State, e: nat, outcome: Outcome, at: int, h: seq<nat>)
    requires ExecutorEnabled(s, e) && ExecutorOk(s, s.executors[e])
    ensures var r, x := ExecuteStep(s, e, outcome, at, h), s.executors[e];
            && OwnMove(s, r, e)
            && r.children[x.child].filled - s.children[x.child].filled
               == Unbooked(r.executors[e].pc) - Unbooked(x.pc) + r.parents[x.parent].filled - s.parents[x.parent].filled
  {
    ExecuteIsOwnMove(s, e, outcome, at, h);
    hide OwnMove;
  }

  lemma ExecuteKeepsBalance(s: State, e: nat, outcome: Outcome, at: int, h: seq<nat>, p: int)
    requires Balance(s, p) && ExecutorEnabled(s, e) && ExecutorOk(s, s.executors[e]) && p < |s.parents|
    requires p < 0 || s.executors[e].parent == s.children[s.executors[e].child].parent
    ensures Balance(ExecuteStep(s, e, outcome, at, h), p)
  {
    hide ExecuteStep, ExecutorOk;
    var r, x := ExecuteStep(s, e, outcome, at, h), s.executors[e];
    ExecuteMoves(s, e, outcome, at, h);
    SumUpdate(s.children, x.child, r.children[x.child], FilledOf(p));
    SumUpdate(s.executors, e, r.executors[e], PendingFor(p));
    SumUpdate(s.parents, x.parent, r.parents[x.parent], ParentFilled);
  }

  /** The engine's books: children and parents agree on what is filled up to what executors are about to
      book, and if no two parents' children share an id each parent's share of it is its own children's. */
  ghost predicate Inv(s: State) {
    && TokensOk(s) && Balance(s, -1) && Budgets(s)
    && (DistinctIds(s) ==> Attributed(s) && forall p: nat | p < |s.parents| :: Balance(s, p))
  }

  /** Neither parents, ids and quantities of children nor fills change in the steps of the scheduler and of a
      cancellation. */
  ghost predicate SameBooks(s: State, r: State) {
    && |r.parents| == |s.parents| && |r.children| == |s.children| && r.childToParent == s.childToParent
    && (forall i | 0 <= i < |s.parents| ::
         r.parents[i].filled == s.parents[i].filled && r.parents[i].totalQty == s.parents[i].totalQty)
    && (forall i | 0 <= i < |s.children| ::
          && r.children[i].filled == s.children[i].filled && r.children[i].parent == s.children[i].parent
          && r.children[i].qty == s.children[i].qty && r.children[i].id == s.children[i].id)
  }

  lemma BudgetsStay(s: State, r: State)
    requires Budgets(s) && |r.parents| == |s.parents| && |r.children| == |s.children|
    requires forall i | 0 <= i < |s.parents| :: r.parents[i].totalQty == s.parents[i].totalQty
    requires forall i | 0 <= i < |s.children| ::
               r.children[i].parent == s.children[i].parent && r.children[i].qty == s.children[i].qty
    ensures Budgets(r)
  {
    forall p | 0 <= p < |r.parents| ensures r.parents[p].totalQty == Sum(r.children, QtyFor(p)) {
      SumSame(s.children, r.children, QtyFor(p), QtyFor(p));
    }
  }

  /** The steps that move no fill. */
  lemma QuietKeepsInv(s: State, r: State)
    requires Inv(s) && TokensOk(r) && SameBooks(s, r) && r.executors == s.executors
    requires Attributed(s) && r.scheduler.CheckParent? && r.scheduler != s.scheduler ==>
               r.scheduler.child < |s.children| && r.scheduler.parent == s.children[r.scheduler.child].parent
    ensures Inv(r)
  {
    hide TokensOk;
    SameBalance(s, r, -1);
    BudgetsStay(s, r);
    if DistinctIds(r) {
      assert DistinctIds(s);
      forall p: nat | p < |s.parents| ensures Balance(r, p) {
        SameBalance(s, r, p);
      }
    }
  }

  lemma SpawnKeepsInv(s: State, r: State)
    requires Inv(s) && TokensOk(r) && s.scheduler.CheckParent?
    requires r.executors == s.executors + [Executor(s.scheduler.parent, s.scheduler.child, Claim)]
    requires r == s.(scheduler := r.scheduler, executors := r.executors)
    requires r.scheduler.Scanning?
    ensures Inv(r)
  {
    hide TokensOk;
    var x := Executor(s.scheduler.parent, s.scheduler.child, Claim);
    SpawnKeepsBalance(s, r, x, -1);
    if DistinctIds(r) {
      assert DistinctIds(s);
      forall p: nat | p < |s.parents| ensures Balance(r, p) {
        SpawnKeepsBalance(s, r, x, p);
      }
    }
  }

  lemma MoveKeepsTerms(s: State, r: State, e: nat)
    requires ExecutorEnabled(s, e) && OwnMove(s, r, e) && Budgets(s)
    ensures Budgets(r) && (DistinctIds(r) ==> DistinctIds(s)) && (Attributed(s) ==> Attributed(r))
  {
    BudgetsStay(s, r);
  }

  lemma ExecuteKeepsInv(s: State, a: Act)
    requires Inv(s) && a.Execute? && Enabled(s, a) && TokensOk(Step(s, a))
    ensures Inv(Step(s, a))
  {
    ExecutorIs(s, a.e, a.outcome, a.at, a.heap);
    hide TokensOk, Enabled, ExecuteStep, ExecutorOk, ChildOk, OwnMove, Budgets, DistinctIds, Balance;
    var r := ExecuteStep(s, a.e, a.outcome, a.at, a.heap);
    ExecuteMoves(s, a.e, a.outcome, a.at, a.heap);
    MoveKeepsTerms(s, r, a.e);
    ExecuteKeepsBalance(s, a.e, a.outcome, a.at, a.heap, -1);
    if DistinctIds(r) {
      MoveKeepsSize(s, r, a.e);
      forall p: nat | p < |s.parents| ensures Balance(r, p) {
        ExecuteKeepsBalance(s, a.e, a.outcome, a.at, a.heap, p);
      }
    }
  }

  lemma MoveKeepsSize(s: State, r: State, e: nat)
    requires ExecutorEnabled(s, e) && OwnMove(s, r, e)
    ensures |r.parents| == |s.parents|
  {
  }

  lemma SubmitKeepsBudgets(s: State, a: Act)
    requires Inv(s) && a.Submit? && Enabled(s, a)
    ensures Budgets(SubmitStep(s, a))
  {
    hide HeapOk, Pushed;
    var r, n, more := SubmitStep(s, a), |s.parents|, NewChildren(|s.parents|, a.slices);
    forall p | 0 <= p < |r.parents| ensures r.parents[p].totalQty == Sum(r.children, QtyFor(p)) {
      SumAppend(s.children, more, QtyFor(p));
      if p < n {
        SumZero(more, QtyFor(p));
      } else {
        forall i | 0 <= i < |s.children| ensures QtyFor(p)(s.children[i]) == 0 {
          assert ChildOk(s, s.children[i]);
        }
        SumZero(s.children, QtyFor(p));
        SumSame(more, a.slices, QtyFor(p), QtyOf);
      }
    }
  }

  lemma SubmitKeepsAttributed(s: State, a: Act)
    requires TokensOk(s) && Attributed(s) && a.Submit? && DistinctIds(SubmitStep(s, a))
    ensures Attributed(SubmitStep(s, a))
  {
    hide HeapOk;
    var r, n := SubmitStep(s, a), |s.children|;
    RegisteredIs(s.childToParent, |s.parents|, a.slices);
    forall c | 0 <= c < |r.children| ensures r.childToParent[r.children[c].id] == r.children[c].parent {
      if c < n {
        forall i | 0 <= i < |a.slices| ensures a.slices[i].id != r.children[c].id {
          assert r.children[n + i].id == a.slices[i].id;
        }
      } else {
        assert Among(a.slices, a.slices[c - n].id);
      }
    }
  }

  lemma SubmitKeepsInv(s: State, a: Act)
    requires Inv(s) && a.Submit? && Enabled(s, a) && TokensOk(Step(s, a))
    ensures Inv(Step(s, a))
  {
    hide TokensOk, Registered, Pushed;
    var r := SubmitStep(s, a);
    SubmitKeepsBalance(s, a, -1);
    SubmitKeepsBudgets(s, a);
    if DistinctIds(r) {
      assert DistinctIds(s) by {
        assert forall c | 0 <= c < |s.children| :: s.children[c] == r.children[c];
      }
      SubmitKeepsAttributed(s, a);
      SubmitStartsBalance(s, a);
      forall p: nat | p < |r.parents| ensures Balance(r, p) {
        if p < |s.parents| {
          SubmitKeepsBalance(s, a, p);
        }
      }
    }
  }

  /** The remaining steps. */
  predicate Quiet(s: State, a: Act) {
    !a.Submit? && !a.Execute? && !(a.Schedule? && s.scheduler.CheckParent?)
  }

  lemma QuietIsSameBooks(s: State, a: Act)
    requires Enabled(s, a) && Quiet(s, a)
    ensures SameBooks(s, Step(s, a)) && Step(s, a).executors == s.executors
    ensures Attributed(s) && Step(s, a).scheduler.CheckParent? && Step(s, a).scheduler != s.scheduler ==>
              Step(s, a).scheduler.child < |s.children|
              && Step(s, a).scheduler.parent == s.children[Step(s, a).scheduler.child].parent
  {
    hide Pushed, PoppedRoot;
  }

  lemma RouteKeepsInv(s: State, a: Act)
    requires Inv(s) && Enabled(s, a) && a.Schedule? && s.scheduler.CheckParent? && TokensOk(Step(s, a))
    ensures Inv(Step(s, a))
  {
    hide TokensOk, Inv, SameBooks;
    var r := Step(s, a);
    if r.executors == s.executors {
      SameBooksIs(s, r);
      QuietKeepsInv(s, r);
    } else {
      SpawnKeepsInv(s, r);
    }
  }

  lemma SameBooksIs(s: State, r: State)
    requires r.parents == s.parents && r.children == s.children && r.childToParent == s.childToParent
    ensures SameBooks(s, r)
  {
  }

  /** Every action of every thread keeps the books. */
  lemma StepKeepsInv(s: State, a: Act)
    requires Inv(s) && Enabled(s, a)
    ensures Inv(Step(s, a))
  {
    hide TokensOk, Enabled, Step, SameBooks, Balance, Attributed, DistinctIds, Budgets;
    StepKeepsTokens(s, a);
    if a.Submit? {
      SubmitKeepsInv(s, a);
    } else if a.Execute? {
      ExecuteKeepsInv(s, a);
    } else if a.Schedule? && s.scheduler.CheckParent? {
      RouteKeepsInv(s, a);
    } else {
      QuietIsSameBooks(s, a);
      QuietKeepsInv(s, Step(s, a));
    }
  }

  lemma InitInv()
    ensures Inv(INIT)
  {
  }

  lemma {:induction false} RunKeepsInv(s: State, acts: seq<Act>, r: State)
    requires Inv(s) && Runs(s, acts, r)
    ensures Inv(r)
    decreases |acts|
  {
    hide Inv, Enabled, Step;
    if acts != [] {
      StepKeepsInv(s, acts[0]);
      RunKeepsInv(Step(s, acts[0]), acts[1..], r);
    }
  }

  function OnChild(c: nat): Executor -> int {
    (x: Executor) => if x.child == c && Live(x.pc) then 1 else 0
  }

  /** The claims to child `c`: heap entries, the scheduler's hand, running executors. */
  function Tokens(s: State, c: nat): int {
    multiset(s.heap)[c] + (if Holds(s.scheduler, c) then 1 else 0) + Sum(s.executors, OnChild(c))
  }

  lemma {:induction false} OneExecutor(xs: seq<Executor>, c: nat)
    requires forall d, e | 0 <= d < e < |xs| :: Live(xs[d].pc) && Live(xs[e].pc) ==> xs[d].child != xs[e].child
    ensures 0 <= Sum(xs, OnChild(c)) <= 1
    ensures (forall e | 0 <= e < |xs| :: Live(xs[e].pc) ==> xs[e].child != c) ==> Sum(xs, OnChild(c)) == 0
  {
    if xs != [] {
      OneExecutor(xs[1..], c);
      if OnChild(c)(xs[0]) == 1 {
        forall e | 0 <= e < |xs[1..]| && Live(xs[1..][e].pc) ensures xs[1..][e].child != c {
          assert xs[1..][e] == xs[e + 1];
        }
      } else if forall e | 0 <= e < |xs| :: Live(xs[e].pc) ==> xs[e].child != c {
        forall e | 0 <= e < |xs[1..]| && Live(xs[1..][e].pc) ensures xs[1..][e].child != c {
          assert xs[1..][e] == xs[e + 1];
        }
      }
    }
  }

  /** In every reachable state a child has at most one token, its order has been accepted at most once and
      fills at most the child, and the heap is one by due time. With no executor at work, what all parents
      have booked is what all children have filled, whatever the ids. */
  lemma SentOnceAndBalanced(acts: seq<Act>, s: State)
    requires Runs(INIT, acts, s)
    ensures forall c: nat :: Tokens(s, c) <= 1
    ensures forall c | 0 <= c < |s.children| ::
              s.children[c].sends <= 1 && 0 <= s.children[c].filled <= s.children[c].qty
    ensures Heap.IsHeap(s.heap, AtOf(s.children))
    ensures (forall e | 0 <= e < |s.executors| :: s.executors[e].pc.Exit?) ==>
              Sum(s.parents, ParentFilled) == Sum(s.children, FilledOf(-1))
  {
    InitInv();
    RunKeepsInv(INIT, acts, s);
    hide Runs;
    forall c: nat ensures Tokens(s, c) <= 1 {
      TokensAtMostOne(s, c);
    }
    forall c | 0 <= c < |s.children|
      ensures s.children[c].sends <= 1 && 0 <= s.children[c].filled <= s.children[c].qty
    {
      assert ChildOk(s, s.children[c]);
    }
    if forall e | 0 <= e < |s.executors| :: s.executors[e].pc.Exit? {
      SumZero(s.executors, PendingFor(-1));
    }
  }

  lemma TokensAtMostOne(s: State, c: nat)
    requires TokensOk(s)
    ensures Tokens(s, c) <= 1
  {
    OneExecutor(s.executors, c);
    assert c in s.heap <==> multiset(s.heap)[c] > 0;
    if c in s.heap || Holds(s.scheduler, c) {
      forall e | 0 <= e < |s.executors| && Live(s.executors[e].pc) ensures s.executors[e].child != c {
        assert ExecutorOk(s, s.executors[e]);
      }
    }
  }

  /** If no two parents' children share an id, no parent is ever filled beyond its quantity. */
  lemma NoOverfill(acts: seq<Act>, s: State, p: nat)
    requires Runs(INIT, acts, s) && p < |s.parents| && DistinctIds(s)
    ensures s.parents[p].filled <= s.parents[p].totalQty
  {
    InitInv();
    RunKeepsInv(INIT, acts, s);
    FilledWithinBudget(s, p);
  }

  lemma FilledWithinBudget(s: State, p: nat)
    requires TokensOk(s) && Budgets(s) && p < |s.parents| && Balance(s, p)
    ensures s.parents[p].filled <= s.parents[p].totalQty
  {
    hide HeapOk;
    forall c | 0 <= c < |s.children| ensures FilledOf(p)(s.children[c]) <= QtyFor(p)(s.children[c]) {
      assert ChildOk(s, s.children[c]);
    }
    SumMono(s.children, FilledOf(p), QtyFor(p));
    forall e | 0 <= e < |s.executors| ensures PendingFor(p)(s.executors[e]) >= 0 {
      assert ExecutorOk(s, s.executors[e]);
      assert ChildOk(s, s.children[s.executors[e].child]);
    }
    SumNonNegative(s.executors, PendingFor(p));
  }
}
