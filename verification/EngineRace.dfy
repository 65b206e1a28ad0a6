/** Submissions by several threads: each takes its id and enters the book of its symbol in separate steps, so
    ids and arrivals may come in different orders. A book's lock makes each entry and each cancel one step. */
module EngineRaces {
  import opened Orders
  import opened ReferenceBook
  import opened ReferenceEngines

  /** The `i`-th request to take an id has id `i + 1`; `waiting` are the ids of orders still on their way.
      `history` and `lost` record all trades, and what of each order was withdrawn, or neither traded nor rests. */
  datatype State = State(requests: seq<Request>, waiting: set<nat>, books: map<string, Book>,
                         history: seq<Trade>, lost: seq<int>)

  datatype Act = Take(r: Request) | Enter(id: nat) | CancelOf(symbol: string, id: nat)

  const START := State([], {}, map[], [], [])

  predicate Given(s: State, id: nat) {
    1 <= id <= |s.requests| == |s.lost|
  }

  function Step(s: State, a: Act): State {
    match a
    case Take(r) =>
      s.(requests := s.requests + [r], waiting := s.waiting + {|s.requests| + 1}, lost := s.lost + [0])
    case Enter(id) =>
      if id !in s.waiting || !Given(s, id) then s
      else
        var r := s.requests[id - 1];
        var done := Submit(BookIn(s.books, r.symbol), TermsOf(id, r));
        s.(waiting := s.waiting - {id}, books := s.books[r.symbol := done.book], history := s.history + done.trades,
           lost := s.lost[id - 1 := if r.otype == Limit && done.rem > 0 then 0 else done.rem])
    case CancelOf(symbol, id) =>
      var b := BookIn(s.books, symbol);
      if Held(b, id) <= 0 || !Given(s, id) then s
      else s.(books := s.books[symbol := Cancel(b, id)], lost := s.lost[id - 1 := s.lost[id - 1] + Held(b, id)])
  }

  function Run(acts: seq<Act>): State {
    if acts == [] then START else Step(Run(acts[..|acts| - 1]), acts[|acts| - 1])
  }

  /** An order rests at most once, in the book of its symbol, and not before it has entered. */
  predicate AtHome(s: State, symbol: string, id: nat) {
    var n := CountIn(BookIn(s.books, symbol), id);
    n <= 1 && (n > 0 ==> Given(s, id) && id !in s.waiting && s.requests[id - 1].symbol == symbol)
  }

  /** What the order traded, what of it rests or was lost, and all of it while it is on its way. */
  predicate Balanced(s: State, id: nat) {
    if Given(s, id) then
      var r := s.requests[id - 1];
      r.quantity == Traded(s.history, id) + Held(BookIn(s.books, r.symbol), id) + s.lost[id - 1]
                    + (if id in s.waiting then r.quantity else 0)
    else Traded(s.history, id) == 0
  }

  ghost predicate Inv(s: State) {
    && |s.lost| == |s.requests| && (forall id | id in s.waiting :: Given(s, id) && s.lost[id - 1] == 0)
    && (forall sym | sym in s.books :: Proper(s.books[sym]))
    && (forall sym, id :: AtHome(s, sym, id))
    && (forall id :: Balanced(s, id))
  }

  lemma NothingWhileWaiting(s: State, id: nat)
    requires id in s.waiting && Given(s, id) && s.lost[id - 1] == 0 && Balanced(s, id)
    requires AtHome(s, s.requests[id - 1].symbol, id)
    ensures Traded(s.history, id) == 0
  {
    HeldIsCounted(BookIn(s.books, s.requests[id - 1].symbol), id);
  }

  lemma TakeKeeps(s: State, r: Request, id: nat)
    requires |s.lost| == |s.requests| && Balanced(s, id) && (forall sym :: AtHome(s, sym, id))
    requires forall i | i in s.waiting :: Given(s, i)
    ensures Balanced(Step(s, Take(r)), id) && forall sym :: AtHome(Step(s, Take(r)), sym, id)
  {
    hide Held, CountIn, Traded;
    var t := Step(s, Take(r));
    assert forall sym :: AtHome(s, sym, id) ==> AtHome(t, sym, id);
    if id == |s.requests| + 1 {
      assert AtHome(s, r.symbol, id);
      HeldIsCounted(BookIn(s.books, r.symbol), id);
    }
  }

  /** Somebody else's entry. */
  lemma EnterMoves(s: State, enter: nat, id: nat)
    requires enter in s.waiting && Given(s, enter) && id != enter
    requires |s.lost| == |s.requests| && Balanced(s, id) && (forall sym :: AtHome(s, sym, id))
    ensures Balanced(Step(s, Enter(enter)), id) && forall sym :: AtHome(Step(s, Enter(enter)), sym, id)
  {
    hide Held, CountIn, Traded, Submit;
    var t := Step(s, Enter(enter));
    var r := s.requests[enter - 1];
    var b := BookIn(s.books, r.symbol);
    var done := Submit(b, TermsOf(enter, r));
    SubmitMoves(b, TermsOf(enter, r), id);
    TradedAppend(s.history, done.trades, id);
    assert AtHome(s, r.symbol, id);
    if CountIn(b, id) == 0 {
      HeldIsCounted(b, id);
      HeldIsCounted(done.book, id);
    }
    forall sym ensures AtHome(t, sym, id) {
      assert AtHome(s, sym, id);
    }
  }

  lemma EnterTakes(s: State, id: nat)
    requires id in s.waiting && Given(s, id) && s.lost[id - 1] == 0 && Traded(s.history, id) == 0
    requires |s.lost| == |s.requests| && (forall sym :: AtHome(s, sym, id))
    ensures Balanced(Step(s, Enter(id)), id) && forall sym :: AtHome(Step(s, Enter(id)), sym, id)
  {
    hide Held, CountIn, Traded, Submit;
    var t := Step(s, Enter(id));
    var r := s.requests[id - 1];
    var b := BookIn(s.books, r.symbol);
    assert AtHome(s, r.symbol, id);
    SubmitTakes(b, TermsOf(id, r));
    TradedAppend(s.history, Submit(b, TermsOf(id, r)).trades, id);
    forall sym ensures AtHome(t, sym, id) {
      assert AtHome(s, sym, id);
    }
  }

  lemma CancelMoves(s: State, symbol: string, gone: nat, id: nat)
    requires Held(BookIn(s.books, symbol), gone) > 0 && Given(s, gone)
    requires |s.lost| == |s.requests| && Balanced(s, id) && (forall sym :: AtHome(s, sym, id))
    requires AtHome(s, symbol, gone)
    ensures var t := Step(s, CancelOf(symbol, gone)); Balanced(t, id) && forall sym :: AtHome(t, sym, id)
  {
    hide Held, CountIn, Traded, Cancel;
    var t := Step(s, CancelOf(symbol, gone));
    var b := BookIn(s.books, symbol);
    CancelTakes(b, gone, id);
    assert AtHome(s, symbol, id);
    if CountIn(b, id) == 0 {
      HeldIsCounted(b, id);
    }
    if CountIn(b, gone) == 0 {
      HeldIsCounted(b, gone);
    }
    forall sym ensures AtHome(t, sym, id) {
      assert AtHome(s, sym, id);
    }
  }

  lemma BooksProper(s: State, a: Act)
    requires forall sym | sym in s.books :: Proper(s.books[sym])
    ensures forall sym | sym in Step(s, a).books :: Proper(Step(s, a).books[sym])
  {
    hide Proper, Submit, Cancel, Held;
    EmptyIsProper();
    match a
    case Take(_) =>
    case Enter(id) =>
      if Given(s, id) {
        var r := s.requests[id - 1];
        SubmitKeepsProper(BookIn(s.books, r.symbol), TermsOf(id, r));
      }
    case CancelOf(symbol, id) => CancelKeepsProper(BookIn(s.books, symbol), id);
  }

  lemma StepKeeps(s: State, a: Act, id: nat)
    requires Inv(s)
    ensures Balanced(Step(s, a), id) && forall sym :: AtHome(Step(s, a), sym, id)
  {
    hide Balanced, AtHome, Proper, Held, Traded, Submit, Cancel;
    assert forall sym :: AtHome(s, sym, id);
    match a
    case Take(r) => TakeKeeps(s, r, id);
    case Enter(i) =>
      if i in s.waiting {
        if i == id {
          assert AtHome(s, s.requests[id - 1].symbol, id);
          NothingWhileWaiting(s, id);
          EnterTakes(s, id);
        } else {
          EnterMoves(s, i, id);
        }
      }
    case CancelOf(symbol, i) =>
      if Held(BookIn(s.books, symbol), i) > 0 && Given(s, i) {
        assert AtHome(s, symbol, i);
        CancelMoves(s, symbol, i, id);
      }
  }

  lemma WaitingKept(s: State, a: Act)
    requires Inv(s)
    ensures var t := Step(s, a);
            |t.lost| == |t.requests| && forall id | id in t.waiting :: Given(t, id) && t.lost[id - 1] == 0
  {
    hide Balanced, Proper, Submit, Cancel, Held, CountIn;
    if a.CancelOf? && Held(BookIn(s.books, a.symbol), a.id) > 0 {
      assert AtHome(s, a.symbol, a.id);
      if CountIn(BookIn(s.books, a.symbol), a.id) == 0 {
        HeldIsCounted(BookIn(s.books, a.symbol), a.id);
      }
    }
  }

  lemma StepKeepsInv(s: State, a: Act)
    requires Inv(s)
    ensures Inv(Step(s, a))
  {
    hide Balanced, AtHome, Given, Step, Proper;
    WaitingKept(s, a);
    BooksProper(s, a);
    var t := Step(s, a);
    forall id: nat ensures Balanced(t, id) {
      StepKeeps(s, a, id);
    }
    forall sym, id: nat ensures AtHome(t, sym, id) {
      StepKeeps(s, a, id);
    }
  }

  lemma StartInv()
    ensures Inv(START)
  {
  }

  lemma {:induction false} RunKeepsInv(acts: seq<Act>)
    ensures Inv(Run(acts))
  {
    hide Inv, Step;
    StartInv();
    if acts != [] {
      RunKeepsInv(acts[..|acts| - 1]);
      StepKeepsInv(Run(acts[..|acts| - 1]), acts[|acts| - 1]);
    }
  }

  /** In every interleaving of id assignments, entries and cancels, every book is sorted, positive and never
      crossed, an order rests at most once and only in the book of its symbol, and of every order that has
      entered nothing is lost: its quantity is what it traded, what rests of it, and what was withdrawn or
      dropped. */
  lemma NothingIsLost(acts: seq<Act>, id: nat)
    requires 1 <= id <= |Run(acts).requests|
    ensures var s := Run(acts);
            && |s.lost| == |s.requests| && (forall sym | sym in s.books :: Proper(s.books[sym]))
            && (forall sym :: CountIn(BookIn(s.books, sym), id) <= if sym == s.requests[id - 1].symbol then 1 else 0)
            && Traded(s.history, id) + Held(BookIn(s.books, s.requests[id - 1].symbol), id) + s.lost[id - 1]
               == if id in s.waiting then 0 else s.requests[id - 1].quantity
  {
    hide Proper, Held, Traded, CountIn, Step, Run;
    RunKeepsInv(acts);
    var s := Run(acts);
    assert Balanced(s, id);
    forall sym ensures CountIn(BookIn(s.books, sym), id) <= if sym == s.requests[id - 1].symbol then 1 else 0 {
      assert AtHome(s, sym, id);
    }
  }

  // ----- Without a race -----

  /** The actions of one thread that serves the commands in turn. */
  function InTurn(cs: seq<Command>): seq<Act> {
    if cs == [] then []
    else
      var before, c := cs[..|cs| - 1], cs[|cs| - 1];
      InTurn(before) + match c
                       case Place(r) => [Take(r), Enter(After(before).seqno + 1)]
                       case Withdraw(symbol, id) => [CancelOf(symbol, id)]
  }

  ghost predicate Agrees(s: State, e: Exchange, trades: seq<Trade>) {
    s.books == e.books && |s.requests| == |s.lost| == e.seqno && s.waiting == {} && s.history == trades
  }

  lemma PlaceAgrees(s: State, e: Exchange, trades: seq<Trade>, r: Request)
    requires Agrees(s, e, trades)
    ensures var (f, reply) := ReferenceEngines.Step(e, Place(r));
            Agrees(Step(Step(s, Take(r)), Enter(e.seqno + 1)), f, trades + TradesOf(reply))
  {
    hide Submit;
  }

  lemma WithdrawAgrees(s: State, e: Exchange, trades: seq<Trade>, symbol: string, id: nat)
    requires Agrees(s, e, trades) && Inv(s)
    ensures var (f, reply) := ReferenceEngines.Step(e, Withdraw(symbol, id));
            Agrees(Step(s, CancelOf(symbol, id)), f, trades + TradesOf(reply))
  {
    hide Cancel, Held, CountIn, Balanced, Proper;
    assert AtHome(s, symbol, id);
    if CountIn(BookIn(s.books, symbol), id) == 0 {
      HeldIsCounted(BookIn(s.books, symbol), id);
    }
  }

  lemma RunOn(acts: seq<Act>, a: Act)
    ensures Run(acts + [a]) == Step(Run(acts), a)
  {
    assert (acts + [a])[..|acts|] == acts;
  }

  lemma RunNone()
    ensures Run([]) == START
  {
  }

  /** One thread alone is the sequential engine: the same books, the same trades, the next id. */
  lemma {:induction false} InTurnIsSequential(cs: seq<Command>)
    ensures var s := Run(InTurn(cs));
            && s.books == After(cs).books && s.history == AllTrades(Replies(cs))
            && |s.requests| == |s.lost| == After(cs).seqno && s.waiting == {}
  {
    hide Step, ReferenceEngines.Step, Run, Inv;
    if cs == [] {
      RunNone();
    } else {
      var before, c := cs[..|cs| - 1], cs[|cs| - 1];
      InTurnIsSequential(before);
      var s := Run(InTurn(before));
      match c {
        case Place(r) =>
          PlaceAgrees(s, After(before), AllTrades(Replies(before)), r);
          RunOn(InTurn(before), Take(r));
          RunOn(InTurn(before) + [Take(r)], Enter(After(before).seqno + 1));
          assert InTurn(cs) == InTurn(before) + [Take(r)] + [Enter(After(before).seqno + 1)];
        case Withdraw(symbol, id) =>
          RunKeepsInv(InTurn(before));
          WithdrawAgrees(s, After(before), AllTrades(Replies(before)), symbol, id);
          RunOn(InTurn(before), CancelOf(symbol, id));
      }
    }
  }
}
