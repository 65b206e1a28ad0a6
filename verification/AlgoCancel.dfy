/** What a cancellation of a parent order achieves, whatever the other threads do meanwhile and afterwards. */
module AlgoCancel {
  import opened AlgoEngine

  /** A child that no executor will claim any more: aborted or filled, or its order was accepted. */
  predicate Barred(x: Child) {
    x.status == Aborted || x.status == Filled || (x.status == Sent && x.sends == 1)
  }

  /** The children of a parent among the first `n`. */
  ghost predicate AllBarred(s: State, p: nat, n: nat) {
    forall c | 0 <= c < |s.children| && c < n :: s.children[c].parent == p ==> Barred(s.children[c])
  }

  predicate Closed(x: Parent) {
    x.status == Cancelled || x.status == Completed
  }

  /** A cancellation has closed its parent and dealt with the children it has passed, and aborts only that
      parent's. */
  ghost predicate Progress(s: State) {
    && (s.canceller.Load? || s.canceller.Store? ==>
          s.canceller.p < |s.parents| && Closed(s.parents[s.canceller.p]))
    && (s.canceller.Load? || s.canceller.Store? ==> AllBarred(s, s.canceller.p, s.canceller.next))
    && (s.canceller.Store? ==>
          s.canceller.next < |s.children| && s.children[s.canceller.next].parent == s.canceller.p)
  }

  /** A child keeps its parent, once barred it stays barred, and a closed parent stays closed. */
  ghost predicate Keeps(s: State, r: State) {
    && |s.children| <= |r.children| && |s.parents| <= |r.parents|
    && (forall p | 0 <= p < |s.parents| :: Closed(s.parents[p]) ==> Closed(r.parents[p]))
    && (forall c | 0 <= c < |s.children| ::
          r.children[c].parent == s.children[c].parent && (Barred(s.children[c]) ==> Barred(r.children[c])))
    && forall c | |s.children| <= c < |r.children| :: r.children[c].parent >= |s.parents|
  }

  lemma OwnBarred(s: State, e: nat, outcome: Outcome, at: int, h: seq<nat>)
    requires ExecutorEnabled(s, e) && ExecutorOk(s, s.executors[e]) && Barred(s.children[s.executors[e].child])
    ensures var r := ExecuteStep(s, e, outcome, at, h);
            s.executors[e].child < |r.children| && Barred(r.children[s.executors[e].child])
  {
  }

  lemma OwnClosed(s: State, e: nat, outcome: Outcome, at: int, h: seq<nat>)
    requires ExecutorEnabled(s, e)
    ensures var r, p := ExecuteStep(s, e, outcome, at, h), s.executors[e].parent;
            p < |r.parents| && (Closed(s.parents[p]) ==> Closed(r.parents[p]))
  {
  }

  lemma ExecuteKeeps(s: State, e: nat, outcome: Outcome, at: int, h: seq<nat>)
    requires ExecutorEnabled(s, e) && ExecutorOk(s, s.executors[e])
    ensures var r := ExecuteStep(s, e, outcome, at, h);
            Keeps(s, r) && r.canceller == s.canceller && |r.children| == |s.children|
  {
    hide ExecuteStep, ExecutorOk, Barred, Closed;
    ExecuteIsOwnMove(s, e, outcome, at, h);
    OwnClosed(s, e, outcome, at, h);
    if Barred(s.children[s.executors[e].child]) {
      OwnBarred(s, e, outcome, at, h);
    }
  }

  lemma SubmitKeeps(s: State, a: Act)
    requires a.Submit?
    ensures Keeps(s, SubmitStep(s, a)) && SubmitStep(s, a).canceller == s.canceller
  {
    hide Registered, Barred;
  }

  lemma ScheduleKeeps(s: State, at: int, h: seq<nat>)
    requires SchedulerEnabled(s)
    ensures var r := ScheduleStep(s, at, h);
            Keeps(s, r) && r.canceller == s.canceller && |r.children| == |s.children|
  {
  }

  lemma CancelKeeps(s: State)
    requires CancellerEnabled(s)
    ensures Keeps(s, CancellerStep(s)) && |CancellerStep(s).children| == |s.children|
  {
  }

  lemma CancelProgress(s: State)
    requires TokensOk(s) && CancellerEnabled(s) && Progress(s)
    ensures Progress(CancellerStep(s))
  {
    hide HeapOk, SchedulerOk, ExecutorOk;
  }

  lemma KeepsProgress(s: State, r: State)
    requires Keeps(s, r) && Progress(s) && r.canceller == s.canceller
    requires |r.children| == |s.children| || s.canceller.Unlocked?
    ensures Progress(r)
  {
    hide Barred;
  }

  /** Every action of every thread. */
  lemma StepKeeps(s: State, a: Act)
    requires TokensOk(s) && Enabled(s, a)
    ensures Keeps(s, Step(s, a)) && (Progress(s) ==> Progress(Step(s, a)))
  {
    hide HeapOk, SchedulerOk, Pushed, PoppedRoot, CanReport, Keeps, Progress, SubmitStep, ExecuteStep, ScheduleStep;
    hide CancellerStep, ExecutorOk, ChildOk;
    match a
    case Submit(_, _, _) =>
      SubmitKeeps(s, a);
      if Progress(s) {
        KeepsProgress(s, Step(s, a));
      }
    case CancelParent(p) =>
      SameKeeps(s, Step(s, a));
      StartsProgress(Step(s, a));
    case CancelStep =>
      CancelKeeps(s);
      if Progress(s) {
        CancelProgress(s);
      }
    case Wake(now) =>
      SameKeeps(s, Step(s, a));
      KeepsIfProgress(s, Step(s, a));
    case Scan(h) =>
      SameKeeps(s, Step(s, a));
      KeepsIfProgress(s, Step(s, a));
    case Schedule(at, h) =>
      ScheduleKeeps(s, at, h);
      KeepsIfProgress(s, Step(s, a));
    case Execute(e, outcome, at, h) =>
      ExecutorIs(s, e, outcome, at, h);
      ExecuteKeeps(s, e, outcome, at, h);
      KeepsIfProgress(s, Step(s, a));
  }

  lemma SameKeeps(s: State, r: State)
    requires r.children == s.children && r.parents == s.parents
    ensures Keeps(s, r)
  {
  }

  lemma StartsProgress(r: State)
    requires r.canceller.Mark?
    ensures Progress(r)
  {
  }

  lemma KeepsIfProgress(s: State, r: State)
    requires Keeps(s, r) && r.canceller == s.canceller && |r.children| == |s.children|
    ensures Progress(s) ==> Progress(r)
  {
    if Progress(s) {
      KeepsProgress(s, r);
    }
  }

  lemma KeepsTwice(s: State, t: State, r: State)
    requires Keeps(s, t) && Keeps(t, r)
    ensures Keeps(s, r)
  {
    hide Barred;
  }

  lemma {:induction false} RunKeeps(s: State, acts: seq<Act>, r: State)
    requires TokensOk(s) && Runs(s, acts, r)
    ensures TokensOk(r) && Keeps(s, r) && (Progress(s) ==> Progress(r))
    decreases |acts|
  {
    hide TokensOk, Enabled, Step, Keeps, Progress;
    if acts == [] {
      SameKeeps(s, r);
    } else {
      var t := Step(s, acts[0]);
      StepKeepsTokens(s, acts[0]);
      StepKeeps(s, acts[0]);
      RunKeeps(t, acts[1..], r);
      KeepsTwice(s, t, r);
    }
  }

  lemma Started()
    ensures TokensOk(INIT) && Progress(INIT)
  {
    InitInv();
  }

  /** When a cancellation comes to its end, its parent is cancelled, if it was not filled meanwhile, and every
      child of the parent is barred. */
  lemma CancellationBars(acts: seq<Act>, s: State, r: State)
    requires Runs(INIT, acts, s) && Enabled(s, CancelStep) && r == Step(s, CancelStep)
    requires s.canceller.Load? && r.canceller.Unlocked?
    ensures AllBarred(r, s.canceller.p, |r.children|)
    ensures s.canceller.p < |r.parents| && r.parents[s.canceller.p].status in {Cancelled, Completed}
  {
    hide Runs, TokensOk, Barred;
    Started();
    RunKeeps(INIT, acts, s);
  }

  /** A step of a cancellation changes the status of its parent and of that parent's children and nothing
      else. */
  lemma CancellationSparesOthers(acts: seq<Act>, s: State)
    requires Runs(INIT, acts, s) && Enabled(s, CancelStep)
    ensures var r, p := Step(s, CancelStep), s.canceller.p;
            && r == s.(parents := r.parents, children := r.children, canceller := r.canceller)
            && |r.parents| == |s.parents| && |r.children| == |s.children|
            && (r.canceller.Unlocked? || r.canceller.p == p)
            && (s.canceller.Mark? ==> r.parents[p].status == Cancelled)
            && (s.canceller.Store? ==> r.children[s.canceller.next].status == Aborted)
            && (forall q | 0 <= q < |s.parents| ::
                  r.parents[q] == s.parents[q] || (q == p && r.parents[q] == s.parents[q].(status := Cancelled)))
            && (forall c | 0 <= c < |s.children| ::
                  r.children[c] == s.children[c]
                  || (s.children[c].parent == p && r.children[c] == s.children[c].(status := Aborted)))
  {
    hide Runs, TokensOk, Step, Enabled, AllBarred;
    Started();
    RunKeeps(INIT, acts, s);
    CancelSpares(s);
  }

  lemma CancelSpares(s: State)
    requires Progress(s) && Enabled(s, CancelStep)
    ensures var r, p := Step(s, CancelStep), s.canceller.p;
            && r == s.(parents := r.parents, children := r.children, canceller := r.canceller)
            && |r.parents| == |s.parents| && |r.children| == |s.children|
            && (r.canceller.Unlocked? || r.canceller.p == p)
            && (s.canceller.Mark? ==> r.parents[p].status == Cancelled)
            && (s.canceller.Store? ==> r.children[s.canceller.next].status == Aborted)
            && (forall q | 0 <= q < |s.parents| ::
                  r.parents[q] == s.parents[q] || (q == p && r.parents[q] == s.parents[q].(status := Cancelled)))
            && (forall c | 0 <= c < |s.children| ::
                  r.children[c] == s.children[c]
                  || (s.children[c].parent == p && r.children[c] == s.children[c].(status := Aborted)))
  {
    hide AllBarred;
  }

  lemma ClaimFails(s: State, e: nat, outcome: Outcome, at: int, h: seq<nat>)
    requires ExecutorEnabled(s, e) && s.executors[e].pc.Claim? && Barred(s.children[s.executors[e].child])
    ensures ExecuteStep(s, e, outcome, at, h) == Goto(s, e, Exit)
  {
  }

  /** From then on, in every run, no executor claims a child of that parent: one that tries to finds it
      taken and ends. */
  lemma NeverClaimed(before: seq<Act>, s: State, p: nat, acts: seq<Act>, r: State)
    requires Runs(INIT, before, s) && p < |s.parents| && AllBarred(s, p, |s.children|) && Runs(s, acts, r)
    ensures AllBarred(r, p, |r.children|)
    ensures forall e: nat, outcome, at, h | ExecutorEnabled(r, e)
                && r.executors[e].pc.Claim? && r.children[r.executors[e].child].parent == p ::
              ExecuteStep(r, e, outcome, at, h) == Goto(r, e, Exit)
  {
    hide Runs, TokensOk, Barred, ExecuteStep;
    Started();
    RunKeeps(INIT, before, s);
    RunKeeps(s, acts, r);
    forall e: nat, outcome, at, h | ExecutorEnabled(r, e)
        && r.executors[e].pc.Claim? && r.children[r.executors[e].child].parent == p
      ensures ExecuteStep(r, e, outcome, at, h) == Goto(r, e, Exit)
    {
      ClaimFails(r, e, outcome, at, h);
    }
  }

  // ----- Nothing in flight -----

  /** The parent is cancelled, its children are barred, and no executor is at work on either; one may still be
      about to try to claim a child. */
  ghost predicate Quiet(s: State, p: nat) {
    && p < |s.parents| && s.parents[p].status == Cancelled && AllBarred(s, p, |s.children|)
    && AllIdle(s, p)
  }

  ghost predicate AllIdle(r: State, p: nat) {
    forall d | 0 <= d < |r.executors| :: Live(r.executors[d].pc) ==> Idle(r, r.executors[d], p)
  }

  predicate Idle(s: State, x: Executor, p: nat) {
    x.parent != p && x.child < |s.children| && (s.children[x.child].parent == p ==> x.pc.Claim?)
  }

  /** The parent, and what its children sent and filled, are as they were. */
  ghost predicate Frozen(s: State, r: State, p: nat) {
    && p < |s.parents| <= |r.parents| && |s.children| <= |r.children| && r.parents[p] == s.parents[p]
    && forall c | 0 <= c < |s.children| ::
         && r.children[c].parent == s.children[c].parent
         && (s.children[c].parent == p ==>
               r.children[c].sends == s.children[c].sends && r.children[c].filled == s.children[c].filled)
  }

  lemma ExecuteFrozen(s: State, e: nat, outcome: Outcome, at: int, h: seq<nat>, p: nat)
    requires ExecutorEnabled(s, e) && Quiet(s, p)
    ensures var r := ExecuteStep(s, e, outcome, at, h);
            Frozen(s, r, p) && AllIdle(r, p)
  {
    hide ExecuteStep, Barred;
    var x := s.executors[e];
    ExecuteIsOwnMove(s, e, outcome, at, h);
    if !Live(x.pc) {
      ExitStays(s, e, outcome, at, h);
    } else if s.children[x.child].parent == p {
      ClaimFails(s, e, outcome, at, h);
    }
  }

  lemma ExitStays(s: State, e: nat, outcome: Outcome, at: int, h: seq<nat>)
    requires ExecutorEnabled(s, e) && !Live(s.executors[e].pc)
    ensures ExecuteStep(s, e, outcome, at, h) == s
  {
  }

  lemma ScheduleFrozen(s: State, at: int, h: seq<nat>, p: nat)
    requires SchedulerEnabled(s) && Quiet(s, p)
    ensures var r := ScheduleStep(s, at, h);
            Frozen(s, r, p) && AllIdle(r, p)
  {
  }

  lemma CancelFrozen(s: State, p: nat)
    requires CancellerEnabled(s) && Quiet(s, p)
    ensures var r := CancellerStep(s);
            Frozen(s, r, p) && AllIdle(r, p)
  {
  }

  lemma SubmitFrozen(s: State, a: Act, p: nat)
    requires a.Submit? && Quiet(s, p)
    ensures var r := SubmitStep(s, a);
            Frozen(s, r, p) && AllIdle(r, p)
  {
    hide Registered, Barred;
  }

  lemma StepFrozen(s: State, a: Act, p: nat)
    requires TokensOk(s) && Enabled(s, a) && Quiet(s, p)
    ensures Frozen(s, Step(s, a), p) && Quiet(Step(s, a), p)
  {
    hide TokensOk, Pushed, PoppedRoot, CanReport, SubmitStep, ExecuteStep, ScheduleStep, CancellerStep, Barred;
    StepKeeps(s, a);
    var r := Step(s, a);
    match a
    case Submit(_, _, _) => SubmitFrozen(s, a, p);
    case CancelParent(q) =>
    case CancelStep => CancelFrozen(s, p);
    case Wake(now) =>
    case Scan(h) =>
    case Schedule(at, h) => ScheduleFrozen(s, at, h, p);
    case Execute(e, outcome, at, h) => ExecuteFrozen(s, e, outcome, at, h, p);
  }

  /** If no executor is at work for a cancelled parent or its barred children, the parent stays cancelled, and
      in every run nothing more of it is sent or filled. */
  lemma CancelledForGood(before: seq<Act>, s: State, p: nat, acts: seq<Act>, r: State)
    requires Runs(INIT, before, s) && Quiet(s, p) && Runs(s, acts, r)
    ensures Quiet(r, p) && Frozen(s, r, p)
  {
    Started();
    RunKeeps(INIT, before, s);
    RunFrozen(s, p, acts, r);
  }

  lemma {:induction false} RunFrozen(s: State, p: nat, acts: seq<Act>, r: State)
    requires TokensOk(s) && Quiet(s, p) && Runs(s, acts, r)
    ensures Quiet(r, p) && Frozen(s, r, p)
    decreases |acts|
  {
    hide TokensOk, Enabled, Step, Quiet;
    if acts == [] {
      QuietIs(s, p);
    } else {
      StepKeepsTokens(s, acts[0]);
      StepFrozen(s, acts[0], p);
      RunFrozen(Step(s, acts[0]), p, acts[1..], r);
    }
  }

  lemma QuietIs(s: State, p: nat)
    requires Quiet(s, p)
    ensures p < |s.parents|
  {
  }
}
