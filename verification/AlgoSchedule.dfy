/** When the engine sends a child, that it forgets none, and what one executor does from start to end. */
module AlgoSchedule {
  import opened Sums
  import opened AlgoEngine
  import Heap = ContainerHeap

  /** A submission adds a running parent, and for each slice a pending child of it, due when the slice is, that
      is in the heap and can be looked up; what was there stays. */
  lemma SubmitAdds(s: State, a: Act)
    requires TokensOk(s) && a.Submit? && Enabled(s, a)
    ensures var r, n, p := Step(s, a), |s.children|, |s.parents|;
            && r.parents == s.parents + [Parent(a.totalQty, Running, 0)]
            && |r.children| == n + |a.slices| && r.children[..n] == s.children
            && r.executors == s.executors && r.scheduler == s.scheduler
            && (forall c: nat :: c in r.heap <==> c in s.heap || n <= c < n + |a.slices|)
            && forall i | 0 <= i < |a.slices| ::
                 var c := r.children[n + i];
                 && c.id == a.slices[i].id && c.qty == a.slices[i].qty && c.at == a.slices[i].at
                 && c.parent == p && c.status == Pending && c.filled == c.sends == 0
                 && c.id in r.childToParent && r.childToParent[c.id] == p
  {
    hide TokensOk, Pushed, Registered;
    assert HeapOk(s) by {
      HeapIs(s);
    }
    SubmitKeepsHeap(s, a);
    RegisteredIs(s.childToParent, |s.parents|, a.slices);
    forall i | 0 <= i < |a.slices| ensures Among(a.slices, a.slices[i].id) {
    }
  }

  lemma HeapIs(s: State)
    requires TokensOk(s)
    ensures HeapOk(s)
  {
  }

  // ----- No child is sent before it is due -----

  /** An executor that has not given its child a new time. */
  predicate Taken(pc: ExecutorPc) {
    Live(pc) && !pc.Requeue?
  }

  /** Up to `t` the scheduler has been woken; what it holds, what executors took and what was sent was due by
      then. */
  ghost predicate DueBy(s: State, t: int) {
    && (!s.scheduler.Waiting? ==> s.scheduler.now <= t)
    && (forall c: nat | c < |s.children| && Holds(s.scheduler, c) :: s.children[c].at <= t)
    && (forall e | 0 <= e < |s.executors| && Taken(s.executors[e].pc) ::
          s.executors[e].child < |s.children| && s.children[s.executors[e].child].at <= t)
    && (forall c | 0 <= c < |s.children| && s.children[c].sends > 0 :: s.children[c].at <= t)
  }

  function Later(t: int, a: Act): (r: int)
    ensures r >= t
  {
    if a.Wake? && a.now > t then a.now else t
  }

  /** The latest of `t` and the times the scheduler is woken at. */
  function Latest(t: int, acts: seq<Act>): int
    decreases |acts|
  {
    if acts == [] then t else Latest(Later(t, acts[0]), acts[1..])
  }

  lemma {:induction false} LatestIs(t: int, acts: seq<Act>)
    ensures Latest(t, acts) == t
            || exists k :: 0 <= k < |acts| && acts[k].Wake? && acts[k].now == Latest(t, acts)
    decreases |acts|
  {
    if acts != [] {
      LatestIs(Later(t, acts[0]), acts[1..]);
      if Latest(t, acts) == Later(t, acts[0]) {
        assert Latest(t, acts) == t || (acts[0].Wake? && acts[0].now == Latest(t, acts));
      } else {
        var k :| 0 <= k < |acts[1..]| && acts[1..][k].Wake? && acts[1..][k].now == Latest(t, acts);
        assert acts[k + 1].Wake? && acts[k + 1].now == Latest(t, acts);
      }
    }
  }

  /** A scan that goes back to waiting leaves only children that are not due; one that takes a child takes
      one that is due and before which none is. */
  lemma ScanTakesDue(s: State, h: seq<nat>)
    requires HeapOk(s) && Enabled(s, Scan(h))
    ensures var r := Step(s, Scan(h));
            && (r.scheduler.Waiting? ==>
                  r == s.(scheduler := Waiting)
                  && forall i | 0 <= i < |s.heap| :: s.children[s.heap[i]].at > s.scheduler.now)
            && (!r.scheduler.Waiting? ==>
                  && r == s.(scheduler := r.scheduler, heap := r.heap) && r.scheduler.CheckChild?
                  && r.scheduler.now == s.scheduler.now
                  && r.scheduler.child in s.heap && r.scheduler.child < |s.children|
                  && s.children[r.scheduler.child].at <= s.scheduler.now
                  && (forall i | 0 <= i < |s.heap| ::
                        s.children[r.scheduler.child].at <= s.children[s.heap[i]].at)
                  && multiset(r.heap) == multiset(s.heap) - multiset{r.scheduler.child})
  {
    if s.heap != [] {
      ScanTakesEarliest(s);
      forall i | 0 <= i < |s.heap|
        ensures s.heap[i] < |s.children|
        ensures s.children[s.heap[0]].at <= s.children[s.heap[i]].at
      {
        assert AtOf(s.children)(s.heap[0]) <= AtOf(s.children)(s.heap[i]);
      }
    }
  }

  lemma ScanDue(s: State, h: seq<nat>, t: int)
    requires TokensOk(s) && Enabled(s, Scan(h)) && DueBy(s, t)
    ensures DueBy(Step(s, Scan(h)), t)
  {
    hide HeapOk, PoppedRoot, ExecutorOk;
    ScanTakesDue(s, h);
  }

  lemma SubmitDue(s: State, a: Act, t: int)
    requires DueBy(s, t) && a.Submit? && forall e | 0 <= e < |s.executors| :: s.executors[e].child < |s.children|
    requires SchedulerOk(s)
    ensures DueBy(SubmitStep(s, a), t)
  {
    hide Registered;
  }

  lemma ScheduleDue(s: State, at: int, h: seq<nat>, t: int)
    requires TokensOk(s) && SchedulerEnabled(s) && DueBy(s, t)
    ensures DueBy(ScheduleStep(s, at, h), t)
  {
    hide HeapOk;
    var r := ScheduleStep(s, at, h);
    var c := s.scheduler.child;
    forall e | 0 <= e < |r.executors| && Taken(r.executors[e].pc)
      ensures r.executors[e].child < |r.children| && r.children[r.executors[e].child].at <= t
    {
      if e < |s.executors| {
        assert ExecutorOk(s, s.executors[e]);
      } else {
        assert r.executors[e].child == c;
      }
    }
  }

  lemma CancelDue(s: State, t: int)
    requires CancellerEnabled(s) && DueBy(s, t)
    ensures DueBy(CancellerStep(s), t)
  {
  }

  /** A child's time changes in its executor's hand only, before anything is sent. */
  lemma OwnDue(s: State, e: nat, outcome: Outcome, at: int, h: seq<nat>)
    requires ExecutorEnabled(s, e) && ExecutorOk(s, s.executors[e])
    ensures var r, c := ExecuteStep(s, e, outcome, at, h), s.executors[e].child;
            && c < |r.children| && e < |r.executors|
            && (Taken(r.executors[e].pc) || r.children[c].sends > 0 ==>
                  r.children[c].at == s.children[c].at && (Taken(s.executors[e].pc) || s.children[c].sends > 0))
            && (r.children[c].at != s.children[c].at ==> s.executors[e].pc.Delay?)
  {
  }

  lemma ExecuteDue(s: State, e: nat, outcome: Outcome, at: int, h: seq<nat>, t: int)
    requires TokensOk(s) && ExecutorEnabled(s, e) && DueBy(s, t)
    ensures DueBy(ExecuteStep(s, e, outcome, at, h), t)
  {
    hide HeapOk, ExecuteStep, ChildOk;
    assert ExecutorOk(s, s.executors[e]);
    ExecuteIsOwnMove(s, e, outcome, at, h);
    OwnDue(s, e, outcome, at, h);
    var r := ExecuteStep(s, e, outcome, at, h);
    forall d | 0 <= d < |r.executors| && Taken(r.executors[d].pc)
      ensures r.executors[d].child < |r.children| && r.children[r.executors[d].child].at <= t
    {
      assert ExecutorOk(s, s.executors[d]);
    }
  }

  lemma StepDue(s: State, a: Act, t: int)
    requires TokensOk(s) && Enabled(s, a) && DueBy(s, t)
    ensures DueBy(Step(s, a), Later(t, a))
  {
    match a
    case Submit(_, _, _) => ExecutorsKnown(s); SubmitDue(s, a, t);
    case CancelParent(p) => {}
    case CancelStep => CancelDue(s, t);
    case Wake(now) => {}
    case Scan(h) => ScanDue(s, h, t);
    case Schedule(at, h) => ScheduleDue(s, at, h, t);
    case Execute(e, outcome, at, h) => ExecuteDue(s, e, outcome, at, h, t);
  }

  lemma ExecutorsKnown(s: State)
    requires TokensOk(s)
    ensures SchedulerOk(s) && forall e | 0 <= e < |s.executors| :: s.executors[e].child < |s.children|
  {
    forall e | 0 <= e < |s.executors| ensures s.executors[e].child < |s.children| {
      assert ExecutorOk(s, s.executors[e]);
    }
  }

  lemma {:induction false} RunDue(s: State, acts: seq<Act>, r: State, t: int)
    requires TokensOk(s) && DueBy(s, t) && Runs(s, acts, r)
    ensures DueBy(r, Latest(t, acts))
    decreases |acts|
  {
    hide TokensOk, Enabled, Step, DueBy;
    if acts != [] {
      StepKeepsTokens(s, acts[0]);
      StepDue(s, acts[0], t);
      RunDue(Step(s, acts[0]), acts[1..], r, Later(t, acts[0]));
    }
  }

  ghost predicate TakenUp(s: State, c: nat) {
    || Holds(s.scheduler, c)
    || (c < |s.children| && s.children[c].sends > 0)
    || exists e :: 0 <= e < |s.executors| && s.executors[e].child == c && Taken(s.executors[e].pc)
  }

  /** In every run: the scheduler was woken at or after the due time of every child it has taken, an executor
      works on, or whose order was accepted. */
  lemma SentWhenDue(acts: seq<Act>, s: State, c: nat)
    requires Runs(INIT, acts, s) && c < |s.children| && TakenUp(s, c)
    ensures exists k :: 0 <= k < |acts| && acts[k].Wake? && s.children[c].at <= acts[k].now
  {
    hide Runs, TokensOk, Latest;
    var t := s.children[c].at - 1;
    Started(t);
    RunDue(INIT, acts, s, t);
    LatestIs(t, acts);
  }

  // ----- No child is forgotten -----

  predicate Fresh(x: Child) {
    x.status == Pending || x.status == Aborted
  }

  predicate InFlight(x: Child) {
    x.status == Sent || x.status == Aborted
  }

  predicate ExecutorFits(x: Child, pc: ExecutorPc) {
    && (pc.Claim? || pc.Delay? || pc.Requeue? ==> Fresh(x))
    && (pc.Sending? || pc.Reset? ==> InFlight(x))
  }

  /** What can still be sent is pending or aborted, except while it is being sent. */
  ghost predicate StatusOk(s: State) {
    && (forall i | 0 <= i < |s.heap| :: s.heap[i] < |s.children| && Fresh(s.children[s.heap[i]]))
    && (forall c: nat | c < |s.children| && Holds(s.scheduler, c) :: Fresh(s.children[c]))
    && (forall e | 0 <= e < |s.executors| && Live(s.executors[e].pc) ::
          s.executors[e].child < |s.children| && ExecutorFits(s.children[s.executors[e].child], s.executors[e].pc))
  }

  ghost predicate AtWork(s: State, c: nat) {
    exists e :: 0 <= e < |s.executors| && s.executors[e].child == c && Live(s.executors[e].pc)
  }

  /** Child `c` is in the heap, in the scheduler's hand or in an executor's, or it has been dealt with. */
  ghost predicate Kept(s: State, c: nat)
    requires c < |s.children|
  {
    c in s.heap || Holds(s.scheduler, c) || AtWork(s, c) || s.children[c].status == Aborted || s.children[c].sends > 0
  }

  ghost predicate NoneForgotten(s: State) {
    StatusOk(s) && forall c | 0 <= c < |s.children| :: Kept(s, c)
  }

  lemma SameKept(s: State, r: State)
    requires StatusOk(s) && r.heap == s.heap && r.children == s.children && r.executors == s.executors
    requires forall c: nat :: Holds(r.scheduler, c) <==> Holds(s.scheduler, c)
    ensures StatusOk(r) && forall c: nat | c < |s.children| && Kept(s, c) :: Kept(r, c)
  {
    forall c: nat | c < |s.children| && Kept(s, c) ensures Kept(r, c) {
      assert AtWork(s, c) ==> AtWork(r, c);
    }
  }

  lemma ScanForgetsNone(s: State, h: seq<nat>)
    requires TokensOk(s) && Enabled(s, Scan(h)) && NoneForgotten(s)
    ensures NoneForgotten(Step(s, Scan(h)))
  {
    hide TokensOk, HeapOk, StatusOk, PoppedRoot, Step, Kept, Fresh;
    HeapIs(s);
    ScanTakesDue(s, h);
    var r := Step(s, Scan(h));
    ScanMoves(s, r);
    forall c: nat | c < |r.children| ensures Kept(r, c) {
      assert Kept(s, c);
    }
  }

  /** A child leaves the heap for the scheduler's hand. */
  lemma ScanMoves(s: State, r: State)
    requires StatusOk(s) && s.scheduler.Scanning? && r == s.(scheduler := r.scheduler, heap := r.heap)
    requires r.scheduler.Waiting? ==> r.heap == s.heap
    requires !r.scheduler.Waiting? ==>
               && r.scheduler.CheckChild? && r.scheduler.child in s.heap
               && multiset(r.heap) == multiset(s.heap) - multiset{r.scheduler.child}
    ensures StatusOk(r) && forall c: nat | c < |s.children| && Kept(s, c) :: Kept(r, c)
  {
    forall c: nat ensures c in s.heap ==> c in r.heap || Holds(r.scheduler, c) {
      assert (c in s.heap <==> multiset(s.heap)[c] > 0) && (c in r.heap <==> multiset(r.heap)[c] > 0);
    }
    forall c: nat ensures c in r.heap ==> c in s.heap {
      assert (c in s.heap <==> multiset(s.heap)[c] > 0) && (c in r.heap <==> multiset(r.heap)[c] > 0);
    }
    forall i | 0 <= i < |r.heap| ensures r.heap[i] < |r.children| && Fresh(r.children[r.heap[i]]) {
      assert r.heap[i] in r.heap;
    }
    assert forall c: nat :: AtWork(s, c) ==> AtWork(r, c);
  }

  lemma SubmitForgetsNone(s: State, a: Act)
    requires TokensOk(s) && a.Submit? && Enabled(s, a) && NoneForgotten(s)
    ensures NoneForgotten(SubmitStep(s, a))
  {
    hide HeapOk, Registered, Pushed, ExecutorOk;
    var r := SubmitStep(s, a);
    SubmitKeepsHeap(s, a);
    ExecutorsKnown(s);
    forall c: nat | c < |r.children| ensures Kept(r, c) {
      if c < |s.children| {
        assert Kept(s, c);
        assert AtWork(s, c) ==> AtWork(r, c);
      }
    }
    forall i | 0 <= i < |r.heap| ensures r.heap[i] < |r.children| && Fresh(r.children[r.heap[i]]) {
      assert r.heap[i] in r.heap;
    }
  }

  lemma CancelForgetsNone(s: State)
    requires CancellerEnabled(s) && NoneForgotten(s)
    ensures NoneForgotten(CancellerStep(s))
  {
    var r := CancellerStep(s);
    forall c: nat | c < |r.children| ensures Kept(r, c) {
      assert Kept(s, c);
      assert AtWork(s, c) ==> AtWork(r, c);
    }
  }

  /** The scheduler lets go of a child by aborting it, by pushing it back or by starting its executor; of any
      other it knows that it is aborted. */
  lemma ScheduleForgetsNone(s: State, at: int, h: seq<nat>)
    requires TokensOk(s) && Enabled(s, Schedule(at, h)) && NoneForgotten(s)
    ensures NoneForgotten(ScheduleStep(s, at, h))
  {
    hide TokensOk, HeapOk, StatusOk, Enabled, Kept, Fresh;
    SchedulerReady(s, at, h);
    ScheduleHeap(s, at, h);
    ScheduleStatus(s, at, h);
    var r := ScheduleStep(s, at, h);
    forall d: nat | d < |r.children| ensures Kept(r, d) {
      assert Kept(s, d);
      ScheduleKept(s, at, h, d);
    }
  }

  lemma SchedulerReady(s: State, at: int, h: seq<nat>)
    requires TokensOk(s) && Enabled(s, Schedule(at, h))
    ensures SchedulerEnabled(s) && s.scheduler.child < |s.children| && ChildOk(s, s.children[s.scheduler.child])
    ensures forall e | 0 <= e < |s.executors| && Live(s.executors[e].pc) :: !Holds(s.scheduler, s.executors[e].child)
  {
    hide HeapOk, Pushed;
    forall e | 0 <= e < |s.executors| && Live(s.executors[e].pc)
      ensures !Holds(s.scheduler, s.executors[e].child)
    {
      assert ExecutorOk(s, s.executors[e]);
    }
  }

  lemma ScheduleHeap(s: State, at: int, h: seq<nat>)
    requires TokensOk(s) && Enabled(s, Schedule(at, h))
    ensures var r, c := ScheduleStep(s, at, h), s.scheduler.child;
            forall d: nat :: d in r.heap <==> d in s.heap || (s.scheduler.Postpone? && d == c)
  {
    hide TokensOk;
    if s.scheduler.Postpone? {
      PostponeHeap(s, at, h);
    }
  }

  lemma ScheduleStatus(s: State, at: int, h: seq<nat>)
    requires SchedulerEnabled(s) && s.scheduler.child < |s.children| && StatusOk(s)
    requires forall e | 0 <= e < |s.executors| && Live(s.executors[e].pc) :: !Holds(s.scheduler, s.executors[e].child)
    requires var r, c := ScheduleStep(s, at, h), s.scheduler.child;
             forall d: nat :: d in r.heap <==> d in s.heap || (s.scheduler.Postpone? && d == c)
    ensures StatusOk(ScheduleStep(s, at, h))
  {
    var r, c := ScheduleStep(s, at, h), s.scheduler.child;
    assert Holds(s.scheduler, c);
    forall i | 0 <= i < |r.heap| ensures r.heap[i] < |r.children| && Fresh(r.children[r.heap[i]]) {
      assert r.heap[i] in r.heap;
    }
  }

  lemma ScheduleKept(s: State, at: int, h: seq<nat>, d: nat)
    requires SchedulerEnabled(s) && s.scheduler.child < |s.children| && StatusOk(s)
    requires ChildOk(s, s.children[s.scheduler.child])
    requires var r, c := ScheduleStep(s, at, h), s.scheduler.child;
             forall d: nat :: d in r.heap <==> d in s.heap || (s.scheduler.Postpone? && d == c)
    requires d < |s.children| && Kept(s, d)
    ensures d < |ScheduleStep(s, at, h).children| && Kept(ScheduleStep(s, at, h), d)
  {
    var r, c := ScheduleStep(s, at, h), s.scheduler.child;
    assert Holds(s.scheduler, c);
    if AtWork(s, d) {
      var e :| 0 <= e < |s.executors| && s.executors[e].child == d && Live(s.executors[e].pc);
      assert r.executors[e] == s.executors[e];
    } else if d == c && r.executors != s.executors {
      assert r.executors[|s.executors|].child == d && Live(r.executors[|s.executors|].pc);
    }
  }

  lemma PostponeHeap(s: State, at: int, h: seq<nat>)
    requires TokensOk(s) && Enabled(s, Schedule(at, h)) && s.scheduler.Postpone?
    ensures forall d: nat :: d in h <==> d in s.heap || d == s.scheduler.child
  {
    hide Heap.IsHeap, ExecutorOk, ChildOk;
    var xs: seq<nat> := [s.scheduler.child];
    PushedHeap(ScheduleStep(s, at, h).children, s.heap, xs, h);
  }

  lemma OwnForgetsNone(s: State, e: nat, outcome: Outcome, at: int, h: seq<nat>)
    requires ExecutorEnabled(s, e) && ExecutorOk(s, s.executors[e]) && Live(s.executors[e].pc)
    requires ExecutorFits(s.children[s.executors[e].child], s.executors[e].pc)
    ensures var r, c := ExecuteStep(s, e, outcome, at, h), s.executors[e].child;
            && c < |r.children| && e < |r.executors|
            && (Live(r.executors[e].pc) ==> ExecutorFits(r.children[c], r.executors[e].pc))
            && (Live(r.executors[e].pc) || r.children[c].status == Aborted || r.children[c].sends > 0
                || s.executors[e].pc.Requeue?)
            && (s.executors[e].pc.Requeue? ==> r.children == s.children && Fresh(s.children[c]))
  {
  }

  lemma ExecuteForgetsNone(s: State, e: nat, outcome: Outcome, at: int, h: seq<nat>)
    requires TokensOk(s) && Enabled(s, Execute(e, outcome, at, h)) && NoneForgotten(s)
    ensures NoneForgotten(ExecuteStep(s, e, outcome, at, h))
  {
    hide HeapOk, ExecuteStep, ChildOk, ExecutorFits, Enabled;
    ExecutorIs(s, e, outcome, at, h);
    ExecuteIsOwnMove(s, e, outcome, at, h);
    ExecuteKeepsHeap(s, e, outcome, at, h);
    var r, x := ExecuteStep(s, e, outcome, at, h), s.executors[e];
    if Live(x.pc) {
      OwnForgetsNone(s, e, outcome, at, h);
    }
    forall d: nat | d < |r.children| ensures Kept(r, d) {
      assert Kept(s, d);
      if AtWork(s, d) {
        var f :| 0 <= f < |s.executors| && s.executors[f].child == d && Live(s.executors[f].pc);
        assert f != e ==> r.executors[f] == s.executors[f];
        assert ExecutorOk(s, s.executors[f]);
        assert f == e && Live(r.executors[e].pc) ==> r.executors[e].child == d;
      }
    }
    forall f | 0 <= f < |r.executors| && Live(r.executors[f].pc)
      ensures r.executors[f].child < |r.children|
              && ExecutorFits(r.children[r.executors[f].child], r.executors[f].pc)
    {
      assert ExecutorOk(s, s.executors[f]);
    }
    forall i | 0 <= i < |r.heap| ensures r.heap[i] < |r.children| && Fresh(r.children[r.heap[i]]) {
      assert r.heap[i] in r.heap;
      assert r.heap[i] in s.heap ==> exists j :: 0 <= j < |s.heap| && s.heap[j] == r.heap[i];
    }
  }

  lemma StepForgetsNone(s: State, a: Act)
    requires TokensOk(s) && Enabled(s, a) && NoneForgotten(s)
    ensures NoneForgotten(Step(s, a))
  {
    match a
    case Submit(_, _, _) => SubmitForgetsNone(s, a);
    case CancelParent(p) => SameKept(s, Step(s, a));
    case CancelStep => CancelForgetsNone(s);
    case Wake(now) => SameKept(s, Step(s, a));
    case Scan(h) => ScanForgetsNone(s, h);
    case Schedule(at, h) => ScheduleForgetsNone(s, at, h);
    case Execute(e, outcome, at, h) => ExecuteForgetsNone(s, e, outcome, at, h);
  }

  lemma {:induction false} RunForgetsNone(s: State, acts: seq<Act>, r: State)
    requires TokensOk(s) && NoneForgotten(s) && Runs(s, acts, r)
    ensures TokensOk(r) && NoneForgotten(r)
    decreases |acts|
  {
    hide TokensOk, Enabled, Step, NoneForgotten;
    if acts != [] {
      StepKeepsTokens(s, acts[0]);
      StepForgetsNone(s, acts[0]);
      RunForgetsNone(Step(s, acts[0]), acts[1..], r);
    }
  }

  lemma WorkedOnBy(s: State, e: nat)
    requires e < |s.executors| && Live(s.executors[e].pc)
    ensures Sum(s.executors, OnChild(s.executors[e].child)) >= 1
  {
    var f := OnChild(s.executors[e].child);
    SumUpdate(s.executors, e, s.executors[e].(pc := Exit), f);
    SumNonNegative(s.executors[e := s.executors[e].(pc := Exit)], f);
  }

  lemma TokenCounts(s: State, c: nat)
    requires c < |s.children| && (c in s.heap || Holds(s.scheduler, c) || AtWork(s, c))
    ensures Tokens(s, c) >= 1
  {
    assert c in s.heap <==> multiset(s.heap)[c] > 0;
    SumNonNegative(s.executors, OnChild(c));
    if AtWork(s, c) {
      var e :| 0 <= e < |s.executors| && s.executors[e].child == c && Live(s.executors[e].pc);
      WorkedOnBy(s, e);
    }
  }

  /** In every run each child is in exactly one place on its way, or its order was accepted once, or it was
      aborted; when nobody is at work only the heap is left as that place, and what it holds is pending or
      aborted. */
  lemma NoChildIsForgotten(acts: seq<Act>, s: State, c: nat)
    requires Runs(INIT, acts, s) && c < |s.children|
    ensures Tokens(s, c) == 1 || s.children[c].sends == 1 || s.children[c].status == Aborted
    ensures s.scheduler.Waiting? && (forall e | 0 <= e < |s.executors| :: s.executors[e].pc.Exit?) ==>
              (c in s.heap && s.children[c].status == Pending)
              || s.children[c].sends == 1 || s.children[c].status == Aborted
  {
    hide Runs, TokensOk, NoneForgotten, Tokens;
    Started(0);
    RunForgetsNone(INIT, acts, s);
    OnePlace(s, c);
    if s.scheduler.Waiting? && (forall e | 0 <= e < |s.executors| :: s.executors[e].pc.Exit?) {
      AtRest(s, c);
    }
  }

  lemma OnePlace(s: State, c: nat)
    requires TokensOk(s) && NoneForgotten(s) && c < |s.children|
    ensures Tokens(s, c) == 1 || s.children[c].sends == 1 || s.children[c].status == Aborted
  {
    hide HeapOk, SchedulerOk, ExecutorOk, StatusOk, Tokens;
    assert ChildOk(s, s.children[c]) && Kept(s, c);
    TokensAtMostOne(s, c);
    if c in s.heap || Holds(s.scheduler, c) || AtWork(s, c) {
      TokenCounts(s, c);
    }
  }

  lemma AtRest(s: State, c: nat)
    requires TokensOk(s) && NoneForgotten(s) && c < |s.children|
    requires s.scheduler.Waiting? && forall e | 0 <= e < |s.executors| :: s.executors[e].pc.Exit?
    ensures (c in s.heap && s.children[c].status == Pending)
            || s.children[c].sends == 1 || s.children[c].status == Aborted
  {
    hide HeapOk, SchedulerOk, ExecutorOk;
    assert ChildOk(s, s.children[c]) && Kept(s, c);
    if c in s.heap {
      var i :| 0 <= i < |s.heap| && s.heap[i] == c;
      assert Fresh(s.children[s.heap[i]]);
    }
  }

  // ----- A parent is completed when it is filled -----

  predicate Settling(pc: ExecutorPc) {
    pc.ReadTotal? || pc.Complete?
  }

  ghost predicate SettledBy(s: State, p: nat) {
    exists e :: 0 <= e < |s.executors| && s.executors[e].parent == p && Settling(s.executors[e].pc)
  }

  /** A completed parent is filled; a filled one is completed or cancelled, or an executor is about to see to
      it. */
  ghost predicate StatusFits(s: State, p: nat)
    requires p < |s.parents|
  {
    && (s.parents[p].status == Completed ==> s.parents[p].filled >= s.parents[p].totalQty)
    && (s.parents[p].filled >= s.parents[p].totalQty > 0 ==>
          s.parents[p].status == Completed || s.parents[p].status == Cancelled || SettledBy(s, p))
  }

  ghost predicate Completions(s: State) {
    && (forall p | 0 <= p < |s.parents| :: StatusFits(s, p))
    && (forall e | 0 <= e < |s.executors| && s.executors[e].pc.Complete? ::
          s.executors[e].parent < |s.parents|
          && s.parents[s.executors[e].parent].filled >= s.parents[s.executors[e].parent].totalQty)
  }

  /** The steps that leave executors and fills alone, or start an executor. */
  lemma CalmCompletions(s: State, r: State)
    requires Completions(s) && |s.executors| <= |r.executors| && r.executors[..|s.executors|] == s.executors
    requires forall e | |s.executors| <= e < |r.executors| :: r.executors[e].pc.Claim?
    requires |s.parents| <= |r.parents|
    requires forall p | 0 <= p < |s.parents| ::
               r.parents[p] == s.parents[p] || r.parents[p] == s.parents[p].(status := Cancelled)
    requires forall p | |s.parents| <= p < |r.parents| :: r.parents[p].filled == 0 && r.parents[p].status == Running
    ensures Completions(r)
  {
    assert forall e | 0 <= e < |s.executors| :: r.executors[..|s.executors|][e] == s.executors[e];
    forall p | 0 <= p < |r.parents| ensures StatusFits(r, p) {
      if p < |s.parents| {
        assert StatusFits(s, p);
        if SettledBy(s, p) {
          var e :| 0 <= e < |s.executors| && s.executors[e].parent == p && Settling(s.executors[e].pc);
          assert r.executors[e] == s.executors[e];
        }
      }
    }
  }

  lemma OwnCompletions(s: State, e: nat, outcome: Outcome, at: int, h: seq<nat>)
    requires ExecutorEnabled(s, e) && ExecutorOk(s, s.executors[e]) && ChildOk(s, s.children[s.executors[e].child])
    ensures var r, p := ExecuteStep(s, e, outcome, at, h), s.executors[e].parent;
            && p < |r.parents| && e < |r.executors| && r.executors[e].parent == p
            && r.parents[p].filled >= s.parents[p].filled && r.parents[p].totalQty == s.parents[p].totalQty
            && (r.executors[e].pc.Complete? ==>
                  r.parents[p].filled >= r.parents[p].totalQty || s.executors[e].pc.Complete?)
            && (r.parents[p].filled != s.parents[p].filled ==> Settling(r.executors[e].pc))
            && (Settling(s.executors[e].pc) && !Settling(r.executors[e].pc) ==>
                  r.parents[p].filled < r.parents[p].totalQty || r.parents[p].status == Completed)
            && (r.parents[p].status != s.parents[p].status ==>
                  r.parents[p].status == Completed && s.executors[e].pc.Complete?)
  {
  }

  lemma ExecuteCompletions(s: State, e: nat, outcome: Outcome, at: int, h: seq<nat>)
    requires TokensOk(s) && Enabled(s, Execute(e, outcome, at, h)) && Completions(s)
    ensures Completions(ExecuteStep(s, e, outcome, at, h))
  {
    ExecutorIs(s, e, outcome, at, h);
    hide ExecuteStep, TokensOk, ChildOk, ExecutorOk, Enabled;
    ExecuteIsOwnMove(s, e, outcome, at, h);
    OwnCompletions(s, e, outcome, at, h);
    var r, x := ExecuteStep(s, e, outcome, at, h), s.executors[e];
    forall p | 0 <= p < |r.parents| ensures StatusFits(r, p) {
      assert StatusFits(s, p);
      if p == x.parent && Settling(r.executors[e].pc) {
        assert SettledBy(r, p);
      } else if SettledBy(s, p) {
        var d :| 0 <= d < |s.executors| && s.executors[d].parent == p && Settling(s.executors[d].pc);
        assert d != e ==> r.executors[d] == s.executors[d];
      }
    }
  }

  lemma StepCompletions(s: State, a: Act)
    requires TokensOk(s) && Enabled(s, a) && Completions(s)
    ensures Completions(Step(s, a))
  {
    hide TokensOk, Pushed, PoppedRoot, CanReport, Registered, ExecuteStep, Completions;
    match a
    case Submit(_, _, _) => CalmCompletions(s, Step(s, a));
    case CancelParent(p) => CalmCompletions(s, Step(s, a));
    case CancelStep => CalmCompletions(s, Step(s, a));
    case Wake(now) => CalmCompletions(s, Step(s, a));
    case Scan(h) => CalmCompletions(s, Step(s, a));
    case Schedule(at, h) => CalmCompletions(s, Step(s, a));
    case Execute(e, outcome, at, h) => ExecuteCompletions(s, e, outcome, at, h);
  }

  lemma {:induction false} RunCompletions(s: State, acts: seq<Act>, r: State)
    requires TokensOk(s) && Completions(s) && Runs(s, acts, r)
    ensures Completions(r)
    decreases |acts|
  {
    hide TokensOk, Enabled, Step, Completions;
    if acts != [] {
      StepKeepsTokens(s, acts[0]);
      StepCompletions(s, acts[0]);
      RunCompletions(Step(s, acts[0]), acts[1..], r);
    }
  }

  /** In every run a completed parent is filled, and a filled parent with no executor still to look at its
      total is completed or cancelled. */
  lemma CompletedWhenFilled(acts: seq<Act>, s: State, p: nat)
    requires Runs(INIT, acts, s) && p < |s.parents|
    ensures s.parents[p].status == Completed ==> s.parents[p].filled >= s.parents[p].totalQty
    ensures s.parents[p].filled >= s.parents[p].totalQty > 0 && !SettledBy(s, p) ==>
              s.parents[p].status == Completed || s.parents[p].status == Cancelled
  {
    hide Runs, TokensOk;
    Started(0);
    RunCompletions(INIT, acts, s);
    assert StatusFits(s, p);
  }

  lemma Started(t: int)
    ensures TokensOk(INIT) && DueBy(INIT, t) && NoneForgotten(INIT) && Completions(INIT)
  {
    InitInv();
  }

  // ----- One child from hand to executor -----

  /** What the scheduler makes of a pending child in its hand: nothing else changes meanwhile, it aborts a child
      whose parent is cancelled, gives one whose parent is paused a new time and pushes it back, and starts an
      executor for any other. */
  lemma ScheduledAlone(s: State, now: int, c: nat, at: int, h: seq<nat>)
    requires s.scheduler == CheckChild(now, c) && c < |s.children| && s.children[c].status == Pending
    requires s.children[c].id in s.childToParent && s.childToParent[s.children[c].id] < |s.parents|
    ensures var p := s.childToParent[s.children[c].id];
            var s2 := ScheduleStep(ScheduleStep(s, at, h), at, h);
            && s2.scheduler == CheckParent(now, c, p)
            && match s.parents[p].status
               case Cancelled =>
                 ScheduleStep(ScheduleStep(s2, at, h), at, h)
                 == s.(scheduler := Scanning(now), children := s.children[c := s.children[c].(status := Aborted)])
               case Paused =>
                 ScheduleStep(ScheduleStep(s2, at, h), at, h)
                 == s.(scheduler := Scanning(now), children := s.children[c := s.children[c].(at := at)], heap := h)
               case _ =>
                 ScheduleStep(s2, at, h)
                 == s.(scheduler := Scanning(now), executors := s.executors + [Executor(p, c, Claim)])
  {
  }

  // ----- One executor from start to end -----

  function Alone(s: State, e: nat, outcome: Outcome, at: int, h: seq<nat>, n: nat): (r: State)
    requires ExecutorEnabled(s, e)
    ensures ExecutorEnabled(r, e)
    decreases n
  {
    ExecuteIsOwnMove(s, e, outcome, at, h);
    if n == 0 then s else Alone(ExecuteStep(s, e, outcome, at, h), e, outcome, at, h, n - 1)
  }

  lemma {:induction false} AloneAdds(s: State, e: nat, outcome: Outcome, at: int, h: seq<nat>, m: nat, n: nat)
    requires ExecutorEnabled(s, e)
    ensures Alone(s, e, outcome, at, h, m + n) == Alone(Alone(s, e, outcome, at, h, m), e, outcome, at, h, n)
    decreases m
  {
    hide ExecuteStep;
    if m > 0 {
      ExecuteIsOwnMove(s, e, outcome, at, h);
      AloneAdds(ExecuteStep(s, e, outcome, at, h), e, outcome, at, h, m - 1, n);
    }
  }

  lemma SendsAlone(s: State, e: nat, outcome: Outcome, at: int, h: seq<nat>)
    requires ExecutorEnabled(s, e) && s.executors[e].pc.Claim? && outcome.Accepted?
    requires s.children[s.executors[e].child].status == Pending
    ensures var x := s.executors[e]; var c := s.children[x.child];
            Alone(s, e, outcome, at, h, 2)
            == s.(children := s.children[x.child := c.(status := Sent, sends := c.sends + 1)],
                  executors := s.executors[e := x.(pc := StoreId(outcome.r))])
  {
  }

  lemma StoresAlone(s: State, e: nat, outcome: Outcome, at: int, h: seq<nat>)
    requires ExecutorEnabled(s, e) && s.executors[e].pc.StoreId?
    ensures var x := s.executors[e]; var c, r := s.children[x.child], x.pc.r;
            var status := if r.full then Filled else if r.partial || r.filled > 0 then Sent else c.status;
            Alone(s, e, outcome, at, h, 3)
            == s.(children := s.children[x.child := c.(status := status, externalId := r.orderId, filled := r.filled)],
                  executors := s.executors[e := x.(pc := AddFilled(r))])
  {
  }

  lemma BooksAlone(s: State, e: nat, outcome: Outcome, at: int, h: seq<nat>)
    requires ExecutorEnabled(s, e) && s.executors[e].pc.AddFilled?
    ensures var x := s.executors[e]; var p := s.parents[x.parent];
            var filled := p.filled + x.pc.r.filled;
            Alone(s, e, outcome, at, h, 3)
            == s.(parents := s.parents[x.parent :=
                    Parent(p.totalQty, if filled >= p.totalQty then Completed else p.status, filled)],
                  executors := s.executors[e := x.(pc := Exit)])
  {
  }

  /** An executor whose order is accepted stores the report on its child and adds the fill to the parent, which
      it completes when that fills it. */
  lemma AcceptedIsBooked(s: State, e: nat, outcome: Outcome, at: int, h: seq<nat>)
    requires ExecutorEnabled(s, e) && s.executors[e].pc.Claim? && outcome.Accepted?
    requires s.children[s.executors[e].child].status == Pending
    ensures var x, rep := s.executors[e], outcome.r;
            var c, p := s.children[x.child], s.parents[x.parent];
            var filled := p.filled + rep.filled;
            Alone(s, e, outcome, at, h, 8)
            == s.(children := s.children[x.child :=
                    Child(c.id, c.parent, c.qty, c.at, if rep.full then Filled else Sent, rep.orderId, rep.filled,
                          c.sends + 1)],
                  parents := s.parents[x.parent :=
                    Parent(p.totalQty, if filled >= p.totalQty then Completed else p.status, filled)],
                  executors := s.executors[e := Executor(x.parent, x.child, Exit)])
  {
    hide Alone;
    AloneAdds(s, e, outcome, at, h, 2, 6);
    AloneAdds(Alone(s, e, outcome, at, h, 2), e, outcome, at, h, 3, 3);
    SendsAlone(s, e, outcome, at, h);
    var sent := Alone(s, e, outcome, at, h, 2);
    StoresAlone(sent, e, outcome, at, h);
    BooksAlone(Alone(sent, e, outcome, at, h, 3), e, outcome, at, h);
  }

  /** One whose order could not be sent leaves the child pending at its new time and back in the heap. */
  lemma FailedGoesBack(s: State, e: nat, at: int, h: seq<nat>)
    requires ExecutorEnabled(s, e) && s.executors[e].pc.Claim?
    requires s.children[s.executors[e].child].status == Pending
    ensures var x := s.executors[e];
            Alone(s, e, Failed, at, h, 5)
            == s.(children := s.children[x.child := s.children[x.child].(at := at)],
                  executors := s.executors[e := Executor(x.parent, x.child, Exit)], heap := h)
  {
  }
}
