/** The lock-free order state: any number of threads inside `TryFill` and `TryCancel` on one order, one
    atomic load, compare-and-swap or add at a time, in any interleaving. */
module OrderProtocol {
  import opened Orders
  import opened Sums

  datatype Call = Fill(qty: int) | Cancel

  /** Where a thread is: what it is about to do next, and what it has read so far. */
  datatype Pc =
    | Start
    | ReadQty
    | CasQty(seen: int)
    | ReadStatus(filledTo: int)
    | CasStatus(filledTo: int, was: Status)
    | RollBack
    | CasCancel(was: Status)
    | Returned(r: Result)

  datatype Thread = Thread(call: Call, pc: Pc)
  datatype Shared = Shared(filled: int, status: Status)
  datatype State = State(quantity: int, order: Shared, threads: seq<Thread>)

  /** One atomic step of `TryFill(qty)`. */
  function FillStep(quantity: int, o: Shared, qty: int, pc: Pc): (Shared, Pc) {
    match pc
    case Start =>
      if qty <= 0 then (o, Returned(Ok))
      else if o.status == Cancelled || o.status == Rejected then (o, Returned(Err(AlreadyCancelled)))
      else (o, ReadQty)
    case ReadQty =>
      if qty > quantity - o.filled then (o, Returned(Err(ExceedsRemaining))) else (o, CasQty(o.filled))
    case CasQty(seen) =>
      if o.filled == seen then (o.(filled := seen + qty), ReadStatus(seen + qty)) else (o, Start)
    case ReadStatus(filledTo) =>
      if o.status == Cancelled || o.status == Rejected then (o, RollBack) else (o, CasStatus(filledTo, o.status))
    case CasStatus(filledTo, was) =>
      if o.status == was then (o.(status := if filledTo >= quantity then Filled else Partially), Returned(Ok))
      else (o, ReadStatus(filledTo))
    case RollBack => (o.(filled := o.filled - qty), Returned(Err(AlreadyCancelled)))
    case _ => (o, pc)
  }

  /** One atomic step of `TryCancel`. */
  function CancelStep(o: Shared, pc: Pc): (Shared, Pc) {
    match pc
    case Start =>
      (o, match o.status
          case Filled => Returned(Err(AlreadyFilled))
          case Cancelled => Returned(Err(AlreadyCancelled))
          case Rejected => Returned(Err(AlreadyRejected))
          case _ => CasCancel(o.status))
    case CasCancel(was) =>
      if o.status == was then (o.(status := Cancelled), Returned(Ok)) else (o, Start)
    case _ => (o, pc)
  }

  function ThreadStep(quantity: int, o: Shared, th: Thread): (Shared, Pc) {
    match th.call
    case Fill(qty) => FillStep(quantity, o, qty, th.pc)
    case Cancel => CancelStep(o, th.pc)
  }

  /** Thread `i` takes its next step; a thread that has returned takes none. */
  function Step(s: State, i: nat): (r: State)
    ensures r.quantity == s.quantity && |r.threads| == |s.threads|
  {
    if i < |s.threads| then
      var (o, pc) := ThreadStep(s.quantity, s.order, s.threads[i]);
      State(s.quantity, o, s.threads[i := s.threads[i].(pc := pc)])
    else s
  }

  /** The threads named by a schedule step in its order. */
  function Exec(s: State, sched: seq<nat>): (r: State)
    ensures r.quantity == s.quantity && |r.threads| == |s.threads|
    decreases |sched|
  {
    if sched == [] then s else Exec(Step(s, sched[0]), sched[1..])
  }

  function Init(quantity: int, calls: seq<Call>): State {
    State(quantity, Shared(0, New), seq(|calls|, i requires 0 <= i < |calls| => Thread(calls[i], Start)))
  }

  /** What a thread has added to the filled quantity and not taken back. */
  function Held(th: Thread): int {
    match th.call
    case Cancel => 0
    case Fill(qty) =>
      if th.pc.ReadStatus? || th.pc.CasStatus? || th.pc.RollBack? then qty else Committed(th)
  }

  /** What a thread's call reported as filled. */
  function Committed(th: Thread): int {
    if th.call.Fill? && th.pc == Returned(Ok) && th.call.qty > 0 then th.call.qty else 0
  }

  function CancelWon(th: Thread): int {
    if th.call.Cancel? && th.pc == Returned(Ok) then 1 else 0
  }

  predicate ThreadOk(quantity: int, o: Shared, th: Thread) {
    match th.call
    case Fill(qty) =>
      && !th.pc.CasCancel?
      && (th.pc.Start? || th.pc.Returned? || qty > 0)
      && (th.pc.CasQty? ==> 0 <= th.pc.seen && th.pc.seen + qty <= quantity)
      && (th.pc.ReadStatus? || th.pc.CasStatus? ==>
            qty <= th.pc.filledTo <= quantity && (o.status != Cancelled ==> th.pc.filledTo <= o.filled))
      && (th.pc.CasStatus? ==> th.pc.was != Cancelled && th.pc.was != Rejected)
      && (th.pc.RollBack? || th.pc == Returned(Err(AlreadyCancelled)) ==> o.status == Cancelled)
    case Cancel =>
      && (th.pc.Start? || th.pc.CasCancel? || th.pc.Returned?)
      && (th.pc.CasCancel? ==> ActiveStatus(th.pc.was))
      && (th.pc == Returned(Err(AlreadyCancelled)) ==> o.status == Cancelled)
  }

  ghost predicate Inv(s: State) {
    && s.quantity > 0 && 0 <= s.order.filled <= s.quantity && s.order.status != Rejected
    && s.order.filled == Sum(s.threads, Held)
    && Sum(s.threads, CancelWon) == (if s.order.status == Cancelled then 1 else 0)
    && (s.order.status == Filled ==> s.order.filled == s.quantity)
    && forall i | 0 <= i < |s.threads| :: ThreadOk(s.quantity, s.order, s.threads[i])
  }

  lemma HeldIsNotNegative(s: State)
    requires forall i | 0 <= i < |s.threads| :: ThreadOk(s.quantity, s.order, s.threads[i])
    ensures Sum(s.threads, Held) >= 0
  {
    assert forall i | 0 <= i < |s.threads| :: ThreadOk(s.quantity, s.order, s.threads[i]) ==> Held(s.threads[i]) >= 0;
    SumNonNegative(s.threads, Held);
  }

  /** What any step may do to the shared fields, as the other threads rely on it. */
  predicate Moves(o: Shared, o': Shared) {
    (o.status == Cancelled ==> o'.status == Cancelled) && (o'.status != Cancelled ==> o.filled <= o'.filled)
  }

  lemma OwnStep(quantity: int, o: Shared, th: Thread)
    requires ThreadOk(quantity, o, th) && 0 <= o.filled <= quantity && o.status != Rejected
    requires o.status == Filled ==> o.filled == quantity
    ensures var (o', pc) := ThreadStep(quantity, o, th); var th' := th.(pc := pc);
            && ThreadOk(quantity, o', th') && Moves(o, o') && o'.filled <= quantity && o'.status != Rejected
            && o'.filled - o.filled == Held(th') - Held(th)
            && (o'.status == Filled ==> o'.filled == quantity)
            && CancelWon(th') - CancelWon(th)
                 == (if o'.status == Cancelled then 1 else 0) - (if o.status == Cancelled then 1 else 0)
            && (o.status == Cancelled ==> Committed(th') == Committed(th))
  {
  }

  lemma OtherStays(quantity: int, o: Shared, o': Shared, th: Thread)
    requires ThreadOk(quantity, o, th) && Moves(o, o')
    ensures ThreadOk(quantity, o', th)
  {
  }

  /** Every atomic step of every thread keeps the invariant; a cancelled order stays cancelled and its
      committed fills stay what they are. */
  lemma StepKeepsInv(s: State, i: nat)
    requires Inv(s)
    ensures Inv(Step(s, i))
    ensures s.order.status == Cancelled ==>
              Step(s, i).order.status == Cancelled && Sum(Step(s, i).threads, Committed) == Sum(s.threads, Committed)
  {
    hide ThreadOk, ThreadStep, Held, Committed, CancelWon;
    if i < |s.threads| {
      var r := Step(s, i);
      OwnStep(s.quantity, s.order, s.threads[i]);
      forall j | 0 <= j < |r.threads| ensures ThreadOk(r.quantity, r.order, r.threads[j]) {
        if j != i {
          OtherStays(s.quantity, s.order, r.order, s.threads[j]);
        }
      }
      SumUpdate(s.threads, i, r.threads[i], Held);
      SumUpdate(s.threads, i, r.threads[i], Committed);
      SumUpdate(s.threads, i, r.threads[i], CancelWon);
      HeldIsNotNegative(r);
    }
  }

  lemma {:induction false} InitInv(quantity: int, calls: seq<Call>)
    requires quantity > 0
    ensures Inv(Init(quantity, calls))
  {
    var ts := Init(quantity, calls).threads;
    SumZero(ts, Held);
    SumZero(ts, CancelWon);
  }

  /** The invariant holds after every interleaving, and a cancellation is final: from the first state that
      has it, the status and the committed fills never change again. */
  lemma {:induction false} ExecKeepsInv(s: State, sched: seq<nat>)
    requires Inv(s)
    ensures Inv(Exec(s, sched))
    ensures s.order.status == Cancelled ==>
              && Exec(s, sched).order.status == Cancelled
              && Sum(Exec(s, sched).threads, Committed) == Sum(s.threads, Committed)
    decreases |sched|
  {
    hide Inv, Step;
    if sched != [] {
      StepKeepsInv(s, sched[0]);
      ExecKeepsInv(Step(s, sched[0]), sched[1..]);
    }
  }

  predicate Quiescent(s: State) {
    forall i | 0 <= i < |s.threads| :: s.threads[i].pc.Returned?
  }

  /** In every reachable state the filled quantity is within bounds and is what the calls hold, at most one
      cancel has won, and an order marked filled is full. Once all calls have returned, the filled quantity is
      the sum of the fills that were reported as successful. */
  lemma ReachableIsSafe(quantity: int, calls: seq<Call>, sched: seq<nat>)
    requires quantity > 0
    ensures var s := Exec(Init(quantity, calls), sched);
            && 0 <= s.order.filled <= quantity && s.order.filled == Sum(s.threads, Held)
            && Sum(s.threads, CancelWon) == (if s.order.status == Cancelled then 1 else 0)
            && (s.order.status == Filled ==> s.order.filled == quantity)
            && (Quiescent(s) ==> s.order.filled == Sum(s.threads, Committed))
  {
    InitInv(quantity, calls);
    ExecKeepsInv(Init(quantity, calls), sched);
    var s := Exec(Init(quantity, calls), sched);
    if Quiescent(s) {
      QuiescentHeld(s);
    }
  }

  lemma QuiescentHeld(s: State)
    requires Quiescent(s)
    ensures Sum(s.threads, Held) == Sum(s.threads, Committed)
  {
    SumSame(s.threads, s.threads, Held, Committed);
  }

  // ----- Why a call answers as it does -----

  /** The order, as it is, gives the call this answer. */
  predicate Grounds(quantity: int, o: Shared, call: Call, r: Result) {
    match call
    case Fill(qty) =>
      && r in {Ok, Err(ExceedsRemaining), Err(AlreadyCancelled)}
      && (r == Ok ==> qty <= 0 || o.status in {New, Partially, Filled})
      && (r == Err(ExceedsRemaining) ==> qty > 0 && o.filled + qty > quantity)
      && (r == Err(AlreadyCancelled) ==> qty > 0 && o.status == Cancelled)
    case Cancel =>
      && r in {Ok, Err(AlreadyFilled), Err(AlreadyCancelled)}
      && (r == Ok ==> o.status in {New, Partially})
      && (r == Err(AlreadyFilled) ==> o.status == Filled && o.filled == quantity)
      && (r == Err(AlreadyCancelled) ==> o.status == Cancelled)
  }

  lemma ReturnHasGrounds(quantity: int, o: Shared, th: Thread)
    requires ThreadOk(quantity, o, th) && o.status != Rejected && (o.status == Filled ==> o.filled == quantity)
    requires !th.pc.Returned? && ThreadStep(quantity, o, th).1.Returned?
    requires th.call.Fill? && !th.pc.Start? ==> th.call.qty > 0
    ensures Grounds(quantity, o, th.call, ThreadStep(quantity, o, th).1.r)
  {
  }

  /** Thread `i` returns in step `k`, and the order before that step gives it the answer it returns with. */
  ghost predicate ReturnsAt(s: State, sched: seq<nat>, i: nat, k: nat)
    requires i < |s.threads| && k < |sched| && Exec(s, sched).threads[i].pc.Returned?
  {
    && sched[k] == i && !Exec(s, sched[..k]).threads[i].pc.Returned?
    && Grounds(s.quantity, Exec(s, sched[..k]).order, s.threads[i].call, Exec(s, sched).threads[i].pc.r)
  }

  /** In every interleaving a call returns at one of its own steps, when the order gave it that answer: a fill
      is refused only if at that instant it does not fit or the order is cancelled, and a lost race alone
      refuses nothing. */
  lemma AnswerHasGrounds(quantity: int, calls: seq<Call>, sched: seq<nat>, i: nat)
    requires quantity > 0 && i < |calls| && Exec(Init(quantity, calls), sched).threads[i].pc.Returned?
    ensures exists k: nat :: k < |sched| && ReturnsAt(Init(quantity, calls), sched, i, k)
  {
    hide Exec, Inv, ReturnsAt;
    InitInv(quantity, calls);
    ReturnedAt(Init(quantity, calls), sched, i);
  }

  lemma {:induction false} ReturnedStays(s: State, sched: seq<nat>, i: nat)
    requires i < |s.threads| && s.threads[i].pc.Returned?
    ensures Exec(s, sched).threads[i] == s.threads[i]
    decreases |sched|
  {
    if sched != [] {
      ReturnedStays(Step(s, sched[0]), sched[1..], i);
    }
  }

  lemma {:induction false} ReturnedAt(s: State, sched: seq<nat>, i: nat)
    requires Inv(s) && i < |s.threads| && !s.threads[i].pc.Returned? && Exec(s, sched).threads[i].pc.Returned?
    ensures exists k: nat :: k < |sched| && ReturnsAt(s, sched, i, k)
    decreases |sched|
  {
    hide Inv, Grounds, ThreadStep;
    var t := Step(s, sched[0]);
    StepKeepsInv(s, sched[0]);
    if t.threads[i].pc.Returned? {
      ReturnedStays(t, sched[1..], i);
      assert Exec(s, sched[..0]) == s;
      InvGrounds(s, i);
      assert ReturnsAt(s, sched, i, 0);
    } else {
      ReturnedAt(t, sched[1..], i);
      var k: nat :| k < |sched[1..]| && ReturnsAt(t, sched[1..], i, k);
      assert sched[..k + 1][1..] == sched[1..][..k];
      assert Exec(s, sched[..k + 1]) == Exec(t, sched[1..][..k]);
      assert ReturnsAt(s, sched, i, k + 1);
    }
  }

  lemma InvGrounds(s: State, i: nat)
    requires Inv(s) && i < |s.threads| && !s.threads[i].pc.Returned?
    requires ThreadStep(s.quantity, s.order, s.threads[i]).1.Returned?
    ensures Grounds(s.quantity, s.order, s.threads[i].call, ThreadStep(s.quantity, s.order, s.threads[i]).1.r)
  {
    hide ThreadStep, Grounds;
    ReturnHasGrounds(s.quantity, s.order, s.threads[i]);
  }

  // ----- One thread alone -----

  lemma {:induction false} ExecAppend(s: State, a: seq<nat>, b: seq<nat>)
    ensures Exec(s, a + b) == Exec(Exec(s, a), b)
    decreases |a|
  {
    if a == [] {
      assert a + b == b;
    } else {
      assert (a + b)[1..] == a[1..] + b;
      ExecAppend(Step(s, a[0]), a[1..], b);
    }
  }

  lemma ExecOnce(s: State, i: nat)
    ensures Exec(s, [i]) == Step(s, i)
  {
    assert Exec(Step(s, i), []) == Step(s, i);
  }

  lemma ExecTwice(s: State, i: nat)
    ensures Exec(s, [i, i]) == Step(Step(s, i), i)
  {
    assert [i, i][1..] == [i] && [i][1..] == [];
    assert Exec(Step(s, i), [i]) == Exec(Step(Step(s, i), i), []);
  }

  /** The state after thread `i` has moved to `pc` and left the order as `o`. */
  function Moved(s: State, i: nat, o: Shared, pc: Pc): State
    requires i < |s.threads|
  {
    State(s.quantity, o, s.threads[i := s.threads[i].(pc := pc)])
  }

  lemma MovesOn(s: State, i: nat, o: Shared, pc: Pc)
    requires i < |s.threads|
    ensures var (o', pc') := ThreadStep(s.quantity, o, s.threads[i].(pc := pc));
            Step(Moved(s, i, o, pc), i) == Moved(s, i, o', pc')
    ensures s == Moved(s, i, s.order, s.threads[i].pc)
  {
    hide ThreadStep;
  }

  /** Alone, a fill that fits goes through its check, its read and its first compare-and-swap. */
  lemma TakesQuantity(s: State, i: nat)
    requires i < |s.threads| && s.threads[i].call.Fill? && s.threads[i].pc == Start
    requires s.order.status !in {Cancelled, Rejected} && 0 < s.threads[i].call.qty <= s.quantity - s.order.filled
    ensures var filled := s.order.filled + s.threads[i].call.qty;
            Exec(s, [i, i, i]) == Moved(s, i, Shared(filled, s.order.status), ReadStatus(filled))
  {
    hide Exec, Step, Moved;
    MovesOn(s, i, s.order, Start);
    MovesOn(s, i, s.order, ReadQty);
    MovesOn(s, i, s.order, CasQty(s.order.filled));
    ExecOnce(s, i);
    ExecTwice(Step(s, i), i);
    ExecAppend(s, [i], [i, i]);
    assert [i] + [i, i] == [i, i, i];
  }

  /** Alone, a fill that has its quantity in sets the status. */
  lemma SetsStatus(s: State, i: nat)
    requires i < |s.threads| && s.threads[i].call.Fill? && s.threads[i].pc.ReadStatus?
             && s.order.status !in {Cancelled, Rejected}
    ensures Exec(s, [i, i])
            == Moved(s, i, s.order.(status := if s.threads[i].pc.filledTo >= s.quantity then Filled else Partially),
                     Returned(Ok))
  {
    hide Exec, Step, Moved;
    var filledTo := s.threads[i].pc.filledTo;
    MovesOn(s, i, s.order, ReadStatus(filledTo));
    MovesOn(s, i, s.order, CasStatus(filledTo, s.order.status));
    ExecTwice(s, i);
  }

  /** Alone, any other fill returns with the order as it was. */
  lemma RefusedAlone(s: State, i: nat)
    requires i < |s.threads| && s.threads[i].call.Fill? && s.threads[i].pc == Start
    requires s.order.status in {Cancelled, Rejected} || s.threads[i].call.qty <= 0
             || s.threads[i].call.qty > s.quantity - s.order.filled
    ensures Exec(s, [i, i]) == Moved(s, i, s.order, Returned(Refusal(s, s.threads[i].call.qty)))
  {
    hide Exec, Step, Moved;
    MovesOn(s, i, s.order, Start);
    MovesOn(s, i, s.order, ReadQty);
    MovesOn(s, i, s.order, Returned(Refusal(s, s.threads[i].call.qty)));
    ExecTwice(s, i);
  }

  function Refusal(s: State, qty: int): Result {
    if qty <= 0 then Ok
    else if s.order.status in {Cancelled, Rejected} then Err(AlreadyCancelled)
    else Err(ExceedsRemaining)
  }

  lemma StaysAlone(s: State, i: nat, o: Shared, r: Result)
    requires i < |s.threads|
    ensures Exec(Moved(s, i, o, Returned(r)), [i, i, i]) == Moved(s, i, o, Returned(r))
  {
    hide Exec, Step, Moved;
    MovesOn(s, i, o, Returned(r));
    var t := Moved(s, i, o, Returned(r));
    ExecOnce(t, i);
    ExecTwice(t, i);
    ExecAppend(t, [i], [i, i]);
    assert [i] + [i, i] == [i, i, i];
  }

  /** Run without interference, the steps of a fill do what the sequential `TryFill` promises. */
  lemma AloneFillIsSequential(s: State, i: nat)
    requires i < |s.threads| && s.threads[i].call.Fill? && s.threads[i].pc == Start
    ensures var e := Exec(s, [i, i, i, i, i]);
            var qty := s.threads[i].call.qty;
            && e.threads[i].pc.Returned? && (forall j | 0 <= j < |s.threads| && j != i :: e.threads[j] == s.threads[j])
            && (e.threads[i].pc.r == Ok <==>
                 qty <= 0 || (s.order.status !in {Cancelled, Rejected} && qty <= s.quantity - s.order.filled))
            && (e.threads[i].pc.r != Ok || qty <= 0 ==> e.order == s.order)
            && (e.threads[i].pc.r == Ok && qty > 0 ==>
                  e.order.filled == s.order.filled + qty
                    && e.order.status == (if e.order.filled >= s.quantity then Filled else Partially))
            && (e.threads[i].pc.r == Err(AlreadyCancelled) <==> qty > 0 && s.order.status in {Cancelled, Rejected})
  {
    hide Exec, Step;
    if s.order.status !in {Cancelled, Rejected} && 0 < s.threads[i].call.qty <= s.quantity - s.order.filled {
      TakesQuantity(s, i);
      SetsStatus(Exec(s, [i, i, i]), i);
      ExecAppend(s, [i, i, i], [i, i]);
      assert [i, i, i] + [i, i] == [i, i, i, i, i];
    } else {
      RefusedAlone(s, i);
      StaysAlone(s, i, s.order, Refusal(s, s.threads[i].call.qty));
      ExecAppend(s, [i, i], [i, i, i]);
      assert [i, i] + [i, i, i] == [i, i, i, i, i];
    }
  }

  /** And the steps of a cancel do what the sequential `TryCancel` promises. */
  lemma AloneCancelIsSequential(s: State, i: nat)
    requires i < |s.threads| && s.threads[i].call.Cancel? && s.threads[i].pc == Start
    ensures var e := Exec(s, [i, i]);
            && e.threads[i].pc.Returned? && (forall j | 0 <= j < |s.threads| && j != i :: e.threads[j] == s.threads[j])
            && (e.threads[i].pc.r == Ok <==> ActiveStatus(s.order.status)) && e.order.filled == s.order.filled
            && e.order.status == if e.threads[i].pc.r == Ok then Cancelled else s.order.status
  {
    ExecTwice(s, i);
  }

  // ----- One filler at a time, as under the book's lock -----

  predicate InFlight(th: Thread) {
    th.call.Fill? && !th.pc.Start? && !th.pc.Returned?
  }

  predicate OneFiller(s: State) {
    forall i, j | 0 <= i < j < |s.threads| :: !InFlight(s.threads[i]) || !InFlight(s.threads[j])
  }

  /** No state of the run has two threads inside `TryFill`. */
  predicate OneFillerRun(s: State, sched: seq<nat>)
    decreases |sched|
  {
    OneFiller(s) && (sched == [] || OneFillerRun(Step(s, sched[0]), sched[1..]))
  }

  /** The status an order with `done` filled for good should have, or could be cancelled at. */
  predicate StatusMatches(quantity: int, done: int, st: Status) {
    if st == Cancelled then done < quantity
    else st == StatusFor(done, quantity)
  }

  /** A fill in progress is the only thing that moved the filled quantity. */
  predicate FlightOk(o: Shared, th: Thread) {
    && (th.pc.CasQty? ==> th.pc.seen == o.filled)
    && (th.pc.ReadStatus? || th.pc.CasStatus? ==> th.pc.filledTo == o.filled)
  }

  ghost predicate InvOne(s: State) {
    && Inv(s) && OneFiller(s)
    && StatusMatches(s.quantity, Sum(s.threads, Committed), s.order.status)
    && forall i | 0 <= i < |s.threads| :: FlightOk(s.order, s.threads[i])
  }

  lemma HeldByTheFiller(s: State, i: nat)
    requires OneFiller(s) && i < |s.threads| && InFlight(s.threads[i])
    ensures Sum(s.threads, Held) - Sum(s.threads, Committed) == Held(s.threads[i]) - Committed(s.threads[i])
  {
    forall k | 0 <= k < |s.threads| && k != i ensures Held(s.threads[k]) == Committed(s.threads[k]) {
      assert !InFlight(s.threads[k]);
    }
    SumOneOff(s.threads, i, Thread(Cancel, Start), Held, Committed);
  }

  lemma OwnStepOne(quantity: int, o: Shared, th: Thread, done: int)
    requires ThreadOk(quantity, o, th) && FlightOk(o, th) && StatusMatches(quantity, done, o.status)
    requires quantity > 0 && 0 <= done && (InFlight(th) ==> o.filled == done + Held(th))
    ensures var (o', pc) := ThreadStep(quantity, o, th); var th' := th.(pc := pc);
            && FlightOk(o', th') && StatusMatches(quantity, done + Committed(th') - Committed(th), o'.status)
            && (!InFlight(th) ==> o'.filled == o.filled)
  {
  }

  lemma StepKeepsInvOne(s: State, i: nat)
    requires InvOne(s) && OneFiller(Step(s, i))
    ensures InvOne(Step(s, i))
  {
    hide ThreadOk, ThreadStep, Held, Committed, StatusMatches;
    StepKeepsInv(s, i);
    if i < |s.threads| {
      var r := Step(s, i);
      CommittedIsNotNegative(s);
      if InFlight(s.threads[i]) {
        HeldByTheFiller(s, i);
        InFlightIsOpen(s.threads[i]);
      }
      OwnStepOne(s.quantity, s.order, s.threads[i], Sum(s.threads, Committed));
      SumUpdate(s.threads, i, r.threads[i], Committed);
      forall j | 0 <= j < |r.threads| ensures FlightOk(r.order, r.threads[j]) {
        if j != i && (s.threads[j].pc.CasQty? || s.threads[j].pc.ReadStatus? || s.threads[j].pc.CasStatus?) {
          CallOfPc(s, j);
          assert !InFlight(s.threads[i]);
        }
      }
    }
  }

  lemma CallOfPc(s: State, j: nat)
    requires Inv(s) && j < |s.threads|
             && (s.threads[j].pc.CasQty? || s.threads[j].pc.ReadStatus? || s.threads[j].pc.CasStatus?)
    ensures InFlight(s.threads[j])
  {
    assert ThreadOk(s.quantity, s.order, s.threads[j]);
  }

  lemma InFlightIsOpen(th: Thread)
    requires InFlight(th)
    ensures Committed(th) == 0
  {
  }

  lemma CommittedIsNotNegative(s: State)
    ensures Sum(s.threads, Committed) >= 0
  {
    SumNonNegative(s.threads, Committed);
  }

  lemma {:induction false} ExecKeepsInvOne(s: State, sched: seq<nat>)
    requires InvOne(s) && OneFillerRun(s, sched)
    ensures InvOne(Exec(s, sched))
    decreases |sched|
  {
    hide InvOne, Step, OneFiller;
    if sched != [] {
      StepInRun(s, sched);
      StepKeepsInvOne(s, sched[0]);
      ExecKeepsInvOne(Step(s, sched[0]), sched[1..]);
    }
  }

  lemma StepInRun(s: State, sched: seq<nat>)
    requires OneFillerRun(s, sched) && sched != []
    ensures OneFiller(Step(s, sched[0])) && OneFillerRun(Step(s, sched[0]), sched[1..])
  {
    assert OneFillerRun(Step(s, sched[0]), sched[1..]);
  }

  function CancelQuantity(s: State): int {
    if s.order.status != Cancelled then 0 else s.quantity - s.order.filled
  }

  /** With at most one fill in progress at any time and any number of cancels, once all calls have returned
      the status tells exactly what happened: it is `Filled` just when the order is full, and a cancel that
      succeeded left something, all of which it reports. */
  lemma OneFillerIsExact(quantity: int, calls: seq<Call>, sched: seq<nat>)
    requires quantity > 0 && OneFillerRun(Init(quantity, calls), sched)
    requires Quiescent(Exec(Init(quantity, calls), sched))
    ensures var s := Exec(Init(quantity, calls), sched);
            && (s.order.status == Filled <==> s.order.filled == quantity)
            && (s.order.status == New ==> s.order.filled == 0)
            && (s.order.status == Partially ==> 0 < s.order.filled < quantity)
            && (Sum(s.threads, CancelWon) > 0 ==>
                 s.order.filled < quantity && s.order.filled + CancelQuantity(s) == quantity)
  {
    var s0 := Init(quantity, calls);
    InitInv(quantity, calls);
    SumZero(s0.threads, Committed);
    ExecKeepsInvOne(s0, sched);
    QuiescentHeld(Exec(s0, sched));
    CommittedIsNotNegative(Exec(s0, sched));
  }

  // ----- Any number of fillers -----

  function Same(x: int): int {
    x
  }

  /** Two or more of the fills, with the quantities `parts`, use up the order exactly. */
  ghost predicate IsSplit(quantity: int, calls: seq<Call>, parts: seq<int>) {
    && |parts| == |calls|
    && (forall i | 0 <= i < |parts| :: parts[i] == 0 || (parts[i] > 0 && calls[i] == Fill(parts[i])))
    && Sum(parts, Same) == quantity
    && exists i, j :: 0 <= i < j < |parts| && parts[i] > 0 && parts[j] > 0
  }

  /** However the calls interleave, the order ends up marked filled just when it is full. */
  ghost predicate AlwaysExact(quantity: int, calls: seq<Call>) {
    forall sched ::
      Quiescent(Exec(Init(quantity, calls), sched)) ==>
        (Exec(Init(quantity, calls), sched).order.status == Filled <==>
            Exec(Init(quantity, calls), sched).order.filled == quantity)
  }

  predicate Called(s: State, calls: seq<Call>) {
    |s.threads| == |calls| && forall i | 0 <= i < |calls| :: s.threads[i].call == calls[i]
  }

  lemma {:induction false} ExecKeepsCalls(s: State, calls: seq<Call>, sched: seq<nat>)
    requires Called(s, calls)
    ensures Called(Exec(s, sched), calls)
    decreases |sched|
  {
    if sched != [] {
      ExecKeepsCalls(Step(s, sched[0]), calls, sched[1..]);
    }
  }

  /** A fill of the whole order that has returned leaves the order marked filled. */
  ghost predicate FullOk(s: State) {
    forall i | 0 <= i < |s.threads| ::
      s.threads[i].call == Fill(s.quantity) && s.threads[i].pc == Returned(Ok) ==> s.order.status == Filled
  }

  lemma OnlyHolder(s: State, i: nat, j: nat)
    requires Inv(s) && i < |s.threads| && j < |s.threads| && i != j && Held(s.threads[i]) == s.quantity
    ensures Held(s.threads[j]) == 0
  {
    forall k | 0 <= k < |s.threads| ensures Held(s.threads[k]) >= 0 {
      assert ThreadOk(s.quantity, s.order, s.threads[k]);
    }
    SumTwoTerms(s.threads, i, j, Held);
  }

  lemma StepKeepsFull(s: State, i: nat)
    requires Inv(s) && FullOk(s)
    ensures FullOk(Step(s, i))
  {
    if i < |s.threads| {
      var r := Step(s, i);
      assert ThreadOk(s.quantity, s.order, s.threads[i]);
      forall j | 0 <= j < |r.threads| && r.threads[j].call == Fill(s.quantity) && r.threads[j].pc == Returned(Ok)
        ensures r.order.status == Filled
      {
        if j != i {
          OnlyHolder(s, j, i);
        }
      }
    }
  }

  lemma {:induction false} ExecKeepsFull(s: State, sched: seq<nat>)
    requires Inv(s) && FullOk(s)
    ensures FullOk(Exec(s, sched))
    decreases |sched|
  {
    hide Inv, FullOk, Step;
    if sched != [] {
      StepKeepsInv(s, sched[0]);
      StepKeepsFull(s, sched[0]);
      ExecKeepsFull(Step(s, sched[0]), sched[1..]);
    }
  }

  function Parts(ts: seq<Thread>): (p: seq<int>)
    ensures |p| == |ts| && forall i | 0 <= i < |ts| :: p[i] == Committed(ts[i])
  {
    seq(|ts|, i requires 0 <= i < |ts| => Committed(ts[i]))
  }

  lemma {:induction false} SomeTerm(s: seq<int>) returns (i: nat)
    requires Sum(s, Same) > 0 && forall k | 0 <= k < |s| :: s[k] >= 0
    ensures i < |s| && s[i] > 0
  {
    if s[0] > 0 {
      i := 0;
    } else {
      i := SomeTerm(s[1..]);
      i := i + 1;
    }
  }

  lemma OnlyTerm(s: seq<int>, i: nat)
    requires i < |s| && forall k | 0 <= k < |s| && k != i :: s[k] == 0
    ensures Sum(s, Same) == s[i]
  {
    SumUpdate(s, i, 0, Same);
    SumZero(s[i := 0], Same);
  }

  lemma ExactWithoutSplit(quantity: int, calls: seq<Call>, sched: seq<nat>)
    requires quantity > 0 && !(exists parts :: IsSplit(quantity, calls, parts))
    requires Quiescent(Exec(Init(quantity, calls), sched))
    requires Exec(Init(quantity, calls), sched).order.filled == quantity
    ensures Exec(Init(quantity, calls), sched).order.status == Filled
  {
    var s0 := Init(quantity, calls);
    var s := Exec(s0, sched);
    ReachableIsSafe(quantity, calls, sched);
    InitInv(quantity, calls);
    ExecKeepsFull(s0, sched);
    ExecKeepsCalls(s0, calls, sched);
    var parts := Parts(s.threads);
    SumSame(s.threads, parts, Committed, Same);
    var i := SomeTerm(parts);
    if k :| 0 <= k < |parts| && k != i && parts[k] != 0 {
      assert IsSplit(quantity, calls, parts) by {
        if k < i {
          assert parts[k] > 0 && parts[i] > 0;
        } else {
          assert parts[i] > 0 && parts[k] > 0;
        }
      }
      assert false;
    } else {
      OnlyTerm(parts, i);
      assert s.threads[i].call == Fill(quantity) && s.threads[i].pc == Returned(Ok);
    }
  }

  /** Alone on an order that is full but not marked filled, any call returns without filling anything. */
  lemma ReturnsAtOnce(s: State, i: nat) returns (o: Shared, r: Result)
    requires i < |s.threads| && s.threads[i].pc == Start && s.order.status in {Partially, Cancelled}
             && s.order.filled == s.quantity
    ensures Exec(s, [i, i]) == Moved(s, i, o, Returned(r)) && o.filled == s.order.filled
            && o.status in {Partially, Cancelled}
  {
    ExecTwice(s, i);
    o, r := Step(Step(s, i), i).order, Step(Step(s, i), i).threads[i].pc.r;
    assert Step(s, i) == Moved(s, i, s.order, Step(s, i).threads[i].pc);
  }

  /** The filled quantity once the first `n` parts are taken. */
  function Upto(parts: seq<int>, n: nat): int
    requires n <= |parts|
  {
    Sum(parts[..n], Same)
  }

  lemma UptoNext(parts: seq<int>, n: nat)
    requires n < |parts| && forall k | 0 <= k < |parts| :: parts[k] >= 0
    ensures Upto(parts, n + 1) == Upto(parts, n) + parts[n] && Upto(parts, n + 1) <= Sum(parts, Same)
  {
    assert parts[..n + 1] == parts[..n] + [parts[n]];
    SumPush(parts[..n], parts[n], Same);
    SumSplit(parts, n + 1, Same);
    SumNonNegative(parts[n + 1..], Same);
  }

  lemma {:induction false} UptoMono(parts: seq<int>, m: nat, n: nat)
    requires m <= n <= |parts| && forall k | 0 <= k < |parts| :: parts[k] >= 0
    ensures Upto(parts, m) <= Upto(parts, n)
    decreases n - m
  {
    if m < n {
      UptoNext(parts, n - 1);
      UptoMono(parts, m, n - 1);
    }
  }

  /** The first `n` parts are added to the filled quantity, and nobody has touched the status yet. */
  ghost predicate Reserving(s: State, quantity: int, calls: seq<Call>, parts: seq<int>, n: nat) {
    && Called(s, calls) && s.quantity == quantity && n <= |parts| == |calls|
    && s.order == Shared(Upto(parts, n), New)
    && forall i | 0 <= i < |parts| ::
         s.threads[i].pc == if i < n && parts[i] > 0 then ReadStatus(Upto(parts, i + 1)) else Start
  }

  /** All parts are in, those below `a` and the `last` one have set the status. */
  ghost predicate Settling(s: State, quantity: int, calls: seq<Call>, parts: seq<int>, first: nat, last: nat, a: nat) {
    && Called(s, calls) && s.quantity == quantity == s.order.filled && a <= |parts| == |calls|
    && s.order.status in (if first < a then {Partially} else {Filled, Partially})
    && forall i | 0 <= i < |parts| ::
         s.threads[i].pc == if parts[i] == 0 then Start
                            else if i < a || i == last then Returned(Ok) else ReadStatus(Upto(parts, i + 1))
  }

  /** The parts are settled, and so are the other calls below `b`: the order is full but not marked filled. */
  ghost predicate Returning(s: State, quantity: int, calls: seq<Call>, parts: seq<int>, b: nat) {
    && Called(s, calls) && s.quantity == quantity == s.order.filled && b <= |parts| == |calls|
    && (s.order.status == Partially || s.order.status == Cancelled)
    && forall i | 0 <= i < |parts| ::
         if parts[i] > 0 || i < b then s.threads[i].pc.Returned? else s.threads[i].pc == Start
  }

  lemma ReserveNext(s: State, quantity: int, calls: seq<Call>, parts: seq<int>, n: nat) returns (sched: seq<nat>)
    requires IsSplit(quantity, calls, parts) && n < |parts| && Reserving(s, quantity, calls, parts, n)
    ensures Reserving(Exec(s, sched), quantity, calls, parts, n + 1)
  {
    hide Exec, Step, Sum, Upto;
    UptoNext(parts, n);
    if parts[n] > 0 {
      TakesQuantity(s, n);
      sched := [n, n, n];
    } else {
      ExecNone(s);
      sched := [];
    }
  }

  lemma ExecNone(s: State)
    ensures Exec(s, []) == s
  {
  }

  lemma ReservingStarts(quantity: int, calls: seq<Call>, parts: seq<int>)
    requires |parts| == |calls|
    ensures Reserving(Init(quantity, calls), quantity, calls, parts, 0)
  {
  }

  lemma {:induction false} Reserve(quantity: int, calls: seq<Call>, parts: seq<int>, n: nat) returns (sched: seq<nat>)
    requires IsSplit(quantity, calls, parts) && n <= |parts| == |calls|
    ensures Reserving(Exec(Init(quantity, calls), sched), quantity, calls, parts, n)
  {
    hide *;
    var s := Init(quantity, calls);
    if n == 0 {
      ReservingStarts(quantity, calls, parts);
      ExecNone(s);
      sched := [];
    } else {
      var before := Reserve(quantity, calls, parts, n - 1);
      var next := ReserveNext(Exec(s, before), quantity, calls, parts, n - 1);
      ExecAppend(s, before, next);
      sched := before + next;
    }
  }

  lemma LastPart(parts: seq<int>, i: nat) returns (last: nat)
    requires i < |parts| && parts[i] > 0 && forall k | 0 <= k < |parts| :: parts[k] >= 0
    ensures i <= last < |parts| && parts[last] > 0 && Upto(parts, last + 1) == Sum(parts, Same)
    decreases |parts| - i
  {
    if k :| i < k < |parts| && parts[k] > 0 {
      last := LastPart(parts, k);
    } else {
      last := i;
      SumSplit(parts, i + 1, Same);
      SumZero(parts[i + 1..], Same);
    }
  }

  lemma SettleNext(s: State, quantity: int, calls: seq<Call>, parts: seq<int>, first: nat, last: nat, a: nat)
      returns (sched: seq<nat>)
    requires IsSplit(quantity, calls, parts) && first < last < |parts| && parts[first] > 0 && parts[last] > 0
    requires Upto(parts, last + 1) == quantity && a < |parts|
    requires Settling(s, quantity, calls, parts, first, last, a)
    ensures Settling(Exec(s, sched), quantity, calls, parts, first, last, a + 1)
  {
    hide Exec, Step, Sum, Upto;
    if parts[a] > 0 && a != last {
      LowerPart(parts, a, last);
      SetsStatus(s, a);
      sched := [a, a];
    } else {
      ExecNone(s);
      sched := [];
    }
  }

  lemma {:induction false} Settle(s: State, quantity: int, calls: seq<Call>, parts: seq<int>, first: nat, last: nat,
                                  a: nat)
      returns (sched: seq<nat>)
    requires IsSplit(quantity, calls, parts) && first < last < |parts| && parts[first] > 0 && parts[last] > 0
    requires Upto(parts, last + 1) == quantity && a <= |parts|
    requires Settling(s, quantity, calls, parts, first, last, 0)
    ensures Settling(Exec(s, sched), quantity, calls, parts, first, last, a)
  {
    hide *;
    if a == 0 {
      ExecNone(s);
      sched := [];
    } else {
      var before := Settle(s, quantity, calls, parts, first, last, a - 1);
      var next := SettleNext(Exec(s, before), quantity, calls, parts, first, last, a - 1);
      ExecAppend(s, before, next);
      sched := before + next;
    }
  }

  /** Every part but the last stops short of the full quantity. */
  lemma LowerPart(parts: seq<int>, i: nat, last: nat)
    requires i < |parts| && i != last && last < |parts| && parts[i] > 0 && parts[last] > 0
    requires Upto(parts, last + 1) == Sum(parts, Same) && forall k | 0 <= k < |parts| :: parts[k] >= 0
    ensures Upto(parts, i + 1) < Sum(parts, Same)
  {
    UptoNext(parts, last);
    UptoNext(parts, i);
    if i < last {
      UptoMono(parts, i + 1, last);
    } else {
      UptoMono(parts, last + 1, i);
      assert false;
    }
  }

  lemma ReturnNext(s: State, quantity: int, calls: seq<Call>, parts: seq<int>, b: nat) returns (sched: seq<nat>)
    requires IsSplit(quantity, calls, parts) && b < |parts| && Returning(s, quantity, calls, parts, b)
    ensures Returning(Exec(s, sched), quantity, calls, parts, b + 1)
  {
    hide Exec, Step, Sum;
    if parts[b] > 0 {
      ExecNone(s);
      sched := [];
    } else {
      var o, r := ReturnsAtOnce(s, b);
      sched := [b, b];
    }
  }

  lemma {:induction false} ReturnRest(s: State, quantity: int, calls: seq<Call>, parts: seq<int>, b: nat)
      returns (sched: seq<nat>)
    requires IsSplit(quantity, calls, parts) && b <= |parts| && Returning(s, quantity, calls, parts, 0)
    ensures Returning(Exec(s, sched), quantity, calls, parts, b)
  {
    hide *;
    if b == 0 {
      ExecNone(s);
      sched := [];
    } else {
      var before := ReturnRest(s, quantity, calls, parts, b - 1);
      var next := ReturnNext(Exec(s, before), quantity, calls, parts, b - 1);
      ExecAppend(s, before, next);
      sched := before + next;
    }
  }

  /** The last fill in marks the order filled. */
  lemma LastSettles(s: State, quantity: int, calls: seq<Call>, parts: seq<int>, first: nat, last: nat)
    requires IsSplit(quantity, calls, parts) && first < last < |parts| && parts[last] > 0
    requires Upto(parts, last + 1) == quantity && Reserving(s, quantity, calls, parts, |parts|)
    ensures Settling(Exec(s, [last, last]), quantity, calls, parts, first, last, 0)
  {
    hide Exec, Step;
    assert parts[..|parts|] == parts;
    SetsStatus(s, last);
  }

  lemma SettledReturns(s: State, quantity: int, calls: seq<Call>, parts: seq<int>, first: nat, last: nat)
    requires IsSplit(quantity, calls, parts) && first < |parts|
             && Settling(s, quantity, calls, parts, first, last, |parts|)
    ensures Returning(s, quantity, calls, parts, 0)
  {
  }

  /** If two or more fills can use up the order between them, some interleaving leaves it full and not
      marked filled: the last fill in marks it, and a slower one puts it back. */
  lemma SplitGoesWrong(quantity: int, calls: seq<Call>, parts: seq<int>) returns (sched: seq<nat>)
    requires quantity > 0 && IsSplit(quantity, calls, parts)
    ensures var s := Exec(Init(quantity, calls), sched);
            Quiescent(s) && s.order.filled == quantity && s.order.status != Filled
  {
    var s0 := Init(quantity, calls);
    var first, j :| 0 <= first < j < |parts| && parts[first] > 0 && parts[j] > 0;
    var last := LastPart(parts, j);
    var a := Reserve(quantity, calls, parts, |parts|);
    sched := FinishSplit(Exec(s0, a), quantity, calls, parts, first, last);
    ExecAppend(s0, a, sched);
    sched := a + sched;
  }

  lemma FinishSplit(s: State, quantity: int, calls: seq<Call>, parts: seq<int>, first: nat, last: nat)
      returns (sched: seq<nat>)
    requires IsSplit(quantity, calls, parts) && first < last < |parts| == |calls| && parts[first] > 0 && parts[last] > 0
    requires Upto(parts, last + 1) == quantity && Reserving(s, quantity, calls, parts, |parts|)
    ensures Quiescent(Exec(s, sched)) && Exec(s, sched).order.filled == quantity
            && Exec(s, sched).order.status != Filled
  {
    hide *;
    var n := |parts|;
    LastSettles(s, quantity, calls, parts, first, last);
    var s2 := Exec(s, [last, last]);
    var b := Settle(s2, quantity, calls, parts, first, last, n);
    SettledReturns(Exec(s2, b), quantity, calls, parts, first, last);
    var c := ReturnRest(Exec(s2, b), quantity, calls, parts, n);
    ReturnedIsQuiescent(Exec(Exec(s2, b), c), quantity, calls, parts);
    ExecAppend(s2, b, c);
    ExecAppend(s, [last, last], b + c);
    sched := [last, last] + (b + c);
  }

  lemma ReturnedIsQuiescent(s: State, quantity: int, calls: seq<Call>, parts: seq<int>)
    requires Returning(s, quantity, calls, parts, |calls|)
    ensures Quiescent(s) && s.order.filled == quantity && s.order.status != Filled
  {
  }

  /** Exactly when concurrent fills are harmless: no two or more of them add up to the order's quantity. */
  lemma ManyFillersExactWhen(quantity: int, calls: seq<Call>)
    requires quantity > 0
    ensures AlwaysExact(quantity, calls) <==> !(exists parts :: IsSplit(quantity, calls, parts))
  {
    if parts :| IsSplit(quantity, calls, parts) {
      var sched := SplitGoesWrong(quantity, calls, parts);
    } else {
      forall sched | Quiescent(Exec(Init(quantity, calls), sched))
        ensures Exec(Init(quantity, calls), sched).order.status == Filled
                <==> Exec(Init(quantity, calls), sched).order.filled == quantity
      {
        ReachableIsSafe(quantity, calls, sched);
        if Exec(Init(quantity, calls), sched).order.filled == quantity {
          ExactWithoutSplit(quantity, calls, sched);
        }
      }
    }
  }
}
