/** The matching engine as a function of the commands it is given: one reference book per symbol, ids in the
    order of submission. */
module ReferenceEngines {
  import opened Orders
  import opened ReferenceBook

  datatype Request = Request(symbol: string, side: Side, otype: OrderType, price: int, quantity: int)

  function TermsOf(id: nat, r: Request): Terms {
    Terms(id, r.symbol, r.side, r.otype, r.price, r.quantity)
  }

  datatype Command = Place(r: Request) | Withdraw(symbol: string, id: nat)

  /** `rem` is what a placed order did not trade at once. */
  datatype Reply = Placed(id: nat, trades: seq<Trade>, rem: int) | Withdrawn(qty: int) | NotResting

  datatype Exchange = Exchange(seqno: nat, books: map<string, Book>)

  function BookIn(books: map<string, Book>, symbol: string): Book {
    if symbol in books then books[symbol] else Book([], [])
  }

  /** An unknown symbol gets its book on the first submission; a cancel finds its order in the named book or
      changes nothing. */
  function Step(e: Exchange, c: Command): (Exchange, Reply) {
    match c
    case Place(r) =>
      var s := Submit(BookIn(e.books, r.symbol), TermsOf(e.seqno + 1, r));
      (Exchange(e.seqno + 1, e.books[r.symbol := s.book]), Placed(e.seqno + 1, s.trades, s.rem))
    case Withdraw(symbol, id) =>
      var held := Held(BookIn(e.books, symbol), id);
      if held > 0 then (e.(books := e.books[symbol := Cancel(BookIn(e.books, symbol), id)]), Withdrawn(held))
      else (e, NotResting)
  }

  function After(cs: seq<Command>): Exchange {
    if cs == [] then Exchange(0, map[]) else Step(After(cs[..|cs| - 1]), cs[|cs| - 1]).0
  }

  function Replies(cs: seq<Command>): (r: seq<Reply>)
    ensures |r| == |cs|
  {
    if cs == [] then []
    else Replies(cs[..|cs| - 1]) + [Step(After(cs[..|cs| - 1]), cs[|cs| - 1]).1]
  }

  function TradesOf(r: Reply): seq<Trade> {
    if r.Placed? then r.trades else []
  }

  /** All trades of a run. */
  function AllTrades(rs: seq<Reply>): seq<Trade> {
    if rs == [] then [] else AllTrades(rs[..|rs| - 1]) + TradesOf(rs[|rs| - 1])
  }

  /** In every run every book is sorted, positive and never crossed. */
  lemma {:induction false} RunKeepsProper(cs: seq<Command>)
    ensures forall sym | sym in After(cs).books :: Proper(After(cs).books[sym])
  {
    hide Proper, Submit, Cancel;
    if cs != [] {
      var before, c := cs[..|cs| - 1], cs[|cs| - 1];
      RunKeepsProper(before);
      EmptyIsProper();
      var symbol := if c.Place? then c.r.symbol else c.symbol;
      var b := BookIn(After(before).books, symbol);
      if c.Place? {
        SubmitKeepsProper(b, TermsOf(After(before).seqno + 1, c.r));
      } else {
        CancelKeepsProper(b, c.id);
      }
    }
  }

  // ----- Where ids are -----

  /** How many entries of a list carry an id. */
  function Count(l: seq<Resting>, id: nat): nat {
    if l == [] then 0 else (if l[0].id == id then 1 else 0) + Count(l[1..], id)
  }

  function CountIn(b: Book, id: nat): nat {
    Count(b.bids, id) + Count(b.asks, id)
  }

  lemma {:induction false} HeldIffCounted(l: seq<Resting>, id: nat)
    requires Positive(l)
    ensures RemOf(l, id) >= 0 && (RemOf(l, id) > 0 <==> Count(l, id) > 0)
  {
    if l != [] {
      assert Positive(l[1..]);
      HeldIffCounted(l[1..], id);
    }
  }

  lemma Cons(r: Resting, l: seq<Resting>, id: nat)
    ensures RemOf([r] + l, id) == RemOf(l, id) + if r.id == id then r.rem else 0
    ensures Count([r] + l, id) == Count(l, id) + if r.id == id then 1 else 0
  {
    assert ([r] + l)[1..] == l;
  }

  lemma TradedCons(t: Trade, ts: seq<Trade>, id: nat)
    ensures Traded([t] + ts, id) == Share(t, id) + Traded(ts, id) && Traded([], id) == 0 && [t] + [] == [t]
  {
    TradedAppend([t], ts, id);
    assert [t][..0] == [];
  }

  /** Matching moves quantity from resting orders to the trades that name them, and brings no ids. */
  lemma {:induction false} MatchMoves(t: Terms, l: seq<Resting>, rem: int, id: nat)
    requires id != t.id
    ensures var m := Match(t, l, rem);
            && RemOf(l, id) == RemOf(m.rest, id) + Traded(m.trades, id)
            && Count(m.rest, id) <= Count(l, id)
    decreases |l|
  {
    hide Traded, RemOf, Count;
    TradedCons(NewTrade(t, 0, 0, 0), [], id);
    if rem <= 0 || l == [] || !Crosses(t, l[0].price) {
      return;
    }
    var m := Min(rem, l[0].rem);
    var trade := NewTrade(t, l[0].id, l[0].price, m);
    Cons(l[0], l[1..], id);
    assert l == [l[0]] + l[1..];
    if m == l[0].rem {
      MatchMoves(t, l[1..], rem - m, id);
      TradedCons(trade, Match(t, l[1..], rem - m).trades, id);
    } else {
      TradedCons(trade, [], id);
      Cons(l[0].(rem := l[0].rem - m), l[1..], id);
    }
  }

  /** The taker is named by all its trades, and rests nowhere on the other side. */
  lemma {:induction false} MatchTakes(t: Terms, l: seq<Resting>, rem: int)
    requires Count(l, t.id) == 0
    ensures var m := Match(t, l, rem);
            Traded(m.trades, t.id) == rem - m.rem && Count(m.rest, t.id) == 0
    decreases |l|
  {
    hide Traded, Count;
    TradedCons(NewTrade(t, 0, 0, 0), [], t.id);
    if rem <= 0 || l == [] || !Crosses(t, l[0].price) {
      return;
    }
    var m := Min(rem, l[0].rem);
    var trade := NewTrade(t, l[0].id, l[0].price, m);
    Cons(l[0], l[1..], t.id);
    assert l == [l[0]] + l[1..];
    if m == l[0].rem {
      MatchTakes(t, l[1..], rem - m);
      TradedCons(trade, Match(t, l[1..], rem - m).trades, t.id);
    } else {
      TradedCons(trade, [], t.id);
      Cons(l[0].(rem := l[0].rem - m), l[1..], t.id);
    }
  }

  lemma {:induction false} InsertAdds(s: Side, l: seq<Resting>, r: Resting, id: nat)
    ensures RemOf(Insert(s, l, r), id) == RemOf(l, id) + if r.id == id then r.rem else 0
    ensures Count(Insert(s, l, r), id) == Count(l, id) + if r.id == id then 1 else 0
    decreases |l|
  {
    if l == [] || Better(s, r.price, l[0].price) {
      assert ([r] + l)[1..] == l;
    } else {
      InsertAdds(s, l[1..], r, id);
      assert ([l[0]] + Insert(s, l[1..], r))[1..] == Insert(s, l[1..], r);
    }
  }

  lemma {:induction false} WithoutTakes(l: seq<Resting>, gone: nat, id: nat)
    requires Count(l, gone) <= 1
    ensures RemOf(Without(l, gone), id) == if id == gone then 0 else RemOf(l, id)
    ensures Count(Without(l, gone), id) == if id == gone then 0 else Count(l, id)
    decreases |l|
  {
    if l != [] {
      if l[0].id == gone {
        CountedNot(l[1..], gone);
      } else {
        WithoutTakes(l[1..], gone, id);
        assert ([l[0]] + Without(l[1..], gone))[1..] == Without(l[1..], gone);
      }
    }
  }

  lemma {:induction false} CountedNot(l: seq<Resting>, id: nat)
    requires Count(l, id) == 0
    ensures RemOf(l, id) == 0
  {
    if l != [] {
      CountedNot(l[1..], id);
    }
  }

  lemma SubmitMoves(b: Book, t: Terms, id: nat)
    requires id != t.id
    ensures var s := Submit(b, t);
            Held(b, id) == Held(s.book, id) + Traded(s.trades, id) && CountIn(s.book, id) <= CountIn(b, id)
  {
    hide Match, Traded, RemOf, Count, Insert;
    var m := Match(t, SideOf(b, Opposite(t.side)), t.quantity);
    MatchMoves(t, SideOf(b, Opposite(t.side)), t.quantity, id);
    InsertAdds(t.side, SideOf(b, t.side), Resting(t.id, t.price, m.rem), id);
  }

  lemma SubmitTakes(b: Book, t: Terms)
    requires CountIn(b, t.id) == 0
    ensures var s := Submit(b, t);
            var rests := t.otype == Limit && s.rem > 0;
            && Traded(s.trades, t.id) == t.quantity - s.rem
            && Held(s.book, t.id) == (if rests then s.rem else 0) && CountIn(s.book, t.id) == if rests then 1 else 0
  {
    hide Match, Traded, RemOf, Count, Insert;
    var far := SideOf(b, Opposite(t.side));
    var m := Match(t, far, t.quantity);
    MatchTakes(t, far, t.quantity);
    InsertAdds(t.side, SideOf(b, t.side), Resting(t.id, t.price, m.rem), t.id);
    CountedNot(m.rest, t.id);
    CountedNot(SideOf(b, t.side), t.id);
  }

  lemma CancelTakes(b: Book, gone: nat, id: nat)
    requires CountIn(b, gone) <= 1
    ensures Held(Cancel(b, gone), id) == if id == gone then 0 else Held(b, id)
    ensures CountIn(Cancel(b, gone), id) == if id == gone then 0 else CountIn(b, id)
  {
    WithoutTakes(b.bids, gone, id);
    WithoutTakes(b.asks, gone, id);
  }

  // ----- The account of an order -----

  /** What has been placed; the `i`-th order placed has id `i + 1`. */
  function Requests(cs: seq<Command>): seq<Request> {
    if cs == [] then []
    else Requests(cs[..|cs| - 1]) + if cs[|cs| - 1].Place? then [cs[|cs| - 1].r] else []
  }

  /** What a command takes away from the order `id` without a trade: what was withdrawn, or what of a new order
      neither trades nor rests. */
  function Dropped(c: Command, reply: Reply, id: nat): int {
    match reply
    case Withdrawn(qty) => if c.Withdraw? && c.id == id then qty else 0
    case Placed(placed, _, rem) => if c.Place? && placed == id && !(c.r.otype == Limit && rem > 0) then rem else 0
    case NotResting => 0
  }

  function AllDropped(cs: seq<Command>, id: nat): int {
    if cs == [] then 0
    else AllDropped(cs[..|cs| - 1], id) + Dropped(cs[|cs| - 1], Replies(cs)[|cs| - 1], id)
  }

  /** An order rests at most once, and only in the book of its symbol. */
  lemma {:induction false} RestsAtHome(cs: seq<Command>, symbol: string, id: nat)
    ensures |Requests(cs)| == After(cs).seqno
    ensures var n := CountIn(BookIn(After(cs).books, symbol), id);
            n <= 1 && (n > 0 ==> 1 <= id <= |Requests(cs)| && Requests(cs)[id - 1].symbol == symbol)
  {
    hide Submit, Cancel, CountIn, Held;
    NothingHeld(id);
    if cs != [] {
      var before, c := cs[..|cs| - 1], cs[|cs| - 1];
      var e := After(before);
      RestsAtHome(before, symbol, id);
      if c.Place? && c.r.symbol == symbol {
        RestsAtHome(before, symbol, e.seqno + 1);
        if id == e.seqno + 1 {
          SubmitTakes(BookIn(e.books, symbol), TermsOf(id, c.r));
        } else {
          SubmitMoves(BookIn(e.books, symbol), TermsOf(e.seqno + 1, c.r), id);
        }
      } else if c.Withdraw? && c.symbol == symbol {
        RestsAtHome(before, symbol, c.id);
        CancelTakes(BookIn(e.books, symbol), c.id, id);
      }
    }
  }

  lemma NothingHeld(id: nat)
    ensures Held(Book([], []), id) == 0 && CountIn(Book([], []), id) == 0
  {
  }

  lemma HeldIsCounted(b: Book, id: nat)
    requires CountIn(b, id) == 0
    ensures Held(b, id) == 0
  {
    CountedNot(b.bids, id);
    CountedNot(b.asks, id);
  }

  /** One more command after a run: what the order `id` loses in its book it has traded or was dropped. */
  lemma StepMoves(cs: seq<Command>, c: Command, id: nat, home: string)
    requires id != After(cs).seqno + 1 && (1 <= id <= |Requests(cs)| ==> Requests(cs)[id - 1].symbol == home)
    ensures var (e, reply) := Step(After(cs), c);
            Held(BookIn(After(cs).books, home), id)
            == Held(BookIn(e.books, home), id) + Traded(TradesOf(reply), id) + Dropped(c, reply, id)
  {
    hide Submit, Cancel, CountIn, Held, After, Traded;
    var e := After(cs);
    NothingHeld(id);
    TradedNothing(id);
    RestsAtHome(cs, home, id);
    if c.Place? {
      var b, t := BookIn(e.books, c.r.symbol), TermsOf(e.seqno + 1, c.r);
      RestsAtHome(cs, c.r.symbol, id);
      SubmitMoves(b, t, id);
      if c.r.symbol != home {
        HeldIsCounted(b, id);
        HeldIsCounted(Submit(b, t).book, id);
      }
    } else {
      RestsAtHome(cs, c.symbol, c.id);
      RestsAtHome(cs, c.symbol, id);
      CancelTakes(BookIn(e.books, c.symbol), c.id, id);
      if CountIn(BookIn(e.books, c.symbol), id) == 0 {
        HeldIsCounted(BookIn(e.books, c.symbol), id);
      }
    }
  }

  lemma TradedNothing(id: nat)
    ensures Traded([], id) == 0
  {
  }

  /** Nothing is lost: in every run the quantity of every order is what it traded, what rests of it in the book
      of its symbol, and what was withdrawn or dropped; an id that was never given out is in none of these. */
  lemma {:induction false} Account(cs: seq<Command>, id: nat, home: string)
    requires 1 <= id <= |Requests(cs)| ==> Requests(cs)[id - 1].symbol == home
    ensures (if 1 <= id <= |Requests(cs)| then Requests(cs)[id - 1].quantity else 0)
            == Traded(AllTrades(Replies(cs)), id) + Held(BookIn(After(cs).books, home), id) + AllDropped(cs, id)
  {
    hide Step, Held, Traded, Dropped;
    NothingHeld(id);
    TradedNothing(id);
    if cs != [] {
      var n := |cs| - 1;
      var before, c := cs[..n], cs[n];
      Account(before, id, home);
      RestsAtHome(before, home, id);
      ReplyIs(cs);
      TradedAppend(AllTrades(Replies(before)), TradesOf(Replies(cs)[n]), id);
      if id != After(before).seqno + 1 {
        StepMoves(before, c, id, home);
        StepCounts(before, c);
      } else {
        FirstStep(before, c, home);
      }
    }
  }

  lemma ReplyIs(cs: seq<Command>)
    requires cs != []
    ensures var n := |cs| - 1;
            && Replies(cs)[..n] == Replies(cs[..n]) && (After(cs), Replies(cs)[n]) == Step(After(cs[..n]), cs[n])
  {
    hide Step;
  }

  lemma StepCounts(cs: seq<Command>, c: Command)
    ensures |Requests(cs)| == After(cs).seqno
    ensures Step(After(cs), c).0.seqno == After(cs).seqno + if c.Place? then 1 else 0
  {
    RestsAtHome(cs, "", 0);
  }

  /** The command that gives out an id, and any command before it. */
  lemma FirstStep(cs: seq<Command>, c: Command, home: string)
    requires c.Place? ==> c.r.symbol == home
    ensures var (e, reply) := Step(After(cs), c); var id := After(cs).seqno + 1;
            && Held(BookIn(After(cs).books, home), id) == 0
            && Held(BookIn(e.books, home), id) + Traded(TradesOf(reply), id) + Dropped(c, reply, id)
               == if c.Place? then c.r.quantity else 0
  {
    hide Submit, Cancel, CountIn, Held, After, Traded;
    var e := After(cs);
    var id := e.seqno + 1;
    TradedNothing(id);
    RestsAtHome(cs, home, id);
    HeldIsCounted(BookIn(e.books, home), id);
    if c.Place? {
      SubmitTakes(BookIn(e.books, home), TermsOf(id, c.r));
    } else {
      RestsAtHome(cs, c.symbol, c.id);
      RestsAtHome(cs, c.symbol, id);
      HeldIsCounted(BookIn(e.books, c.symbol), id);
      CancelTakes(BookIn(e.books, c.symbol), c.id, id);
    }
  }

  /** A withdrawal is final: whatever commands follow, the order rests no more and trades no more. */
  lemma WithdrawnIsFinal(cs: seq<Command>, symbol: string, id: nat, more: seq<Command>)
    requires Step(After(cs), Withdraw(symbol, id)).1.Withdrawn?
    ensures var done := cs + [Withdraw(symbol, id)];
            && Held(BookIn(After(done + more).books, symbol), id) == 0
            && Traded(AllTrades(Replies(done + more)), id) == Traded(AllTrades(Replies(cs)), id)
  {
    var done := cs + [Withdraw(symbol, id)];
    RestsAtHome(cs, symbol, id);
    if CountIn(BookIn(After(cs).books, symbol), id) == 0 {
      HeldIsCounted(BookIn(After(cs).books, symbol), id);
    }
    assert done[..|cs|] == cs;
    CancelTakes(BookIn(After(cs).books, symbol), id, id);
    ReplyIs(done);
    TradedAppend(AllTrades(Replies(cs)), [], id);
    GoneStays(done, more, id, symbol);
    HeldIsCounted(BookIn(After(done + more).books, symbol), id);
  }

  lemma {:induction false} GoneStays(cs: seq<Command>, more: seq<Command>, id: nat, home: string)
    requires 1 <= id <= |Requests(cs)| && Requests(cs)[id - 1].symbol == home
    requires CountIn(BookIn(After(cs).books, home), id) == 0
    ensures CountIn(BookIn(After(cs + more).books, home), id) == 0
    ensures Traded(AllTrades(Replies(cs + more)), id) == Traded(AllTrades(Replies(cs)), id)
    ensures 1 <= id <= |Requests(cs + more)| && Requests(cs + more)[id - 1].symbol == home
    decreases |more|
  {
    hide *;
    if more == [] {
      assert cs + more == cs;
    } else {
      var n := |more| - 1;
      var before, c := cs + more[..n], more[n];
      GoneStays(cs, more[..n], id, home);
      assert before + [c] == cs + more;
      Extended(before, c);
      TradedAppend(AllTrades(Replies(before)), TradesOf(Step(After(before), c).1), id);
      GoneStep(before, c, id, home);
    }
  }

  lemma Extended(cs: seq<Command>, c: Command)
    ensures After(cs + [c]) == Step(After(cs), c).0 && Requests(cs) <= Requests(cs + [c])
    ensures AllTrades(Replies(cs + [c])) == AllTrades(Replies(cs)) + TradesOf(Step(After(cs), c).1)
  {
    hide Step;
    assert (cs + [c])[..|cs|] == cs;
    ReplyIs(cs + [c]);
  }

  lemma GoneStep(cs: seq<Command>, c: Command, id: nat, home: string)
    requires 1 <= id <= |Requests(cs)| && Requests(cs)[id - 1].symbol == home
    requires CountIn(BookIn(After(cs).books, home), id) == 0
    ensures var (e, reply) := Step(After(cs), c);
            CountIn(BookIn(e.books, home), id) == 0 && Traded(TradesOf(reply), id) == 0
  {
    hide Submit, Cancel, CountIn, Held, After, Traded;
    var e := After(cs);
    NothingHeld(id);
    TradedNothing(id);
    RestsAtHome(cs, home, id);
    if c.Place? {
      var b, t := BookIn(e.books, c.r.symbol), TermsOf(e.seqno + 1, c.r);
      RestsAtHome(cs, c.r.symbol, id);
      SubmitMoves(b, t, id);
      HeldIsCounted(b, id);
      HeldIsCounted(Submit(b, t).book, id);
    } else {
      RestsAtHome(cs, c.symbol, c.id);
      CancelTakes(BookIn(e.books, c.symbol), c.id, id);
    }
  }
}
