/** Whole runs of the matching engine: any sequence of submissions and cancels on a new engine answers and ends
    as the reference engine does. */
module EngineRuns {
  import opened Orders
  import opened ReferenceBook
  import opened ReferenceEngines
  import opened OrderBooks
  import opened MatchingEngines

  ghost function StateOf(me: MatchingEngine): Exchange
    reads *
  {
    Exchange(me.orderIDSeq, AbsOf(me.orderBooks))
  }

  lemma StateIs(me: MatchingEngine)
    ensures StateOf(me) == Exchange(me.orderIDSeq, AbsOf(me.orderBooks))
  {
  }

  lemma BookForIs(me: MatchingEngine, symbol: string)
    ensures me.BookFor(symbol) == BookIn(AbsOf(me.orderBooks), symbol)
    ensures symbol in me.orderBooks ==>
              symbol in AbsOf(me.orderBooks) && BookIn(AbsOf(me.orderBooks), symbol) == AbsOf(me.orderBooks)[symbol]
  {
    hide OrderBook.Abs;
  }

  lemma StepIs(e: Exchange, c: Command)
    ensures var b := BookIn(e.books, if c.Place? then c.r.symbol else c.symbol);
            Step(e, c) ==
              if c.Place? then
                var s := Submit(b, TermsOf(e.seqno + 1, c.r));
                (Exchange(e.seqno + 1, e.books[c.r.symbol := s.book]), Placed(e.seqno + 1, s.trades, s.rem))
              else if Held(b, c.id) > 0 then
                (e.(books := e.books[c.symbol := Cancel(b, c.id)]), Withdrawn(Held(b, c.id)))
              else (e, NotResting)
  {
    hide Submit, Held, Cancel;
  }

  lemma TradesAre()
    ensures forall id, trades, rem :: TradesOf(Placed(id, trades, rem)) == trades
    ensures forall qty :: TradesOf(Withdrawn(qty)) == []
    ensures TradesOf(NotResting) == []
  {
  }

  /** What the engine hands out or takes in while serving is new. */
  method Serve(me: MatchingEngine, c: Command)
      returns (reply: Reply, ghost books: set<OrderBook>, ghost levels: set<PriceLevel>)
    requires me.Valid()
    modifies me, me.orderBooks.Values, LevelsOf(me.orderBooks)`orders, me.orders`filledQty, me.orders`status
    ensures me.Valid() && (StateOf(me), reply) == Step(old(StateOf(me)), c)
    ensures me.history == old(me.history) + TradesOf(reply)
    ensures if c.Place? then |me.orders| == |old(me.orders)| + 1 && me.orders[..|old(me.orders)|] == old(me.orders)
                             && fresh(me.orders[|old(me.orders)|])
                             && me.orders[|old(me.orders)|].terms == TermsOf(|me.orders|, c.r)
            else me.orders == old(me.orders)
    ensures fresh(books) && me.orderBooks.Values <= old(me.orderBooks.Values) + books
    ensures fresh(levels) && LevelsOf(me.orderBooks) <= old(LevelsOf(me.orderBooks)) + levels
  {
    hide *;
    StateIs(me);
    StepIs(StateOf(me), c);
    TradesAre();
    me.ValidIs();
    match c
    case Place(r) =>
      BookForIs(me, r.symbol);
      var order, trades := me.SubmitOrder(r);
      me.ValidIs();
      StateIs(me);
      books := me.orderBooks.Values - old(me.orderBooks.Values);
      levels := LevelsOf(me.orderBooks) - old(LevelsOf(me.orderBooks));
      reply := Placed(me.orderIDSeq, trades, order.RemainingQty());
    case Withdraw(symbol, id) =>
      BookForIs(me, symbol);
      var r := me.CancelOrder(symbol, id);
      StateIs(me);
      books, levels := {}, {};
      reply := if r.Done? then Withdrawn(r.cancelledQty) else NotResting;
  }

  /** The `i`-th order of the engine is the `i`-th request of the run. */
  ghost predicate Ordered(os: seq<Order>, rs: seq<Request>) {
    |os| == |rs| && forall i | 0 <= i < |os| :: os[i].terms == TermsOf(i + 1, rs[i])
  }

  lemma OrderedGrows(cs: seq<Command>, c: Command, os: seq<Order>, more: seq<Order>)
    requires Ordered(os, Requests(cs)) && os <= more
    requires if c.Place? then |more| == |os| + 1 && more[|os|].terms == TermsOf(|more|, c.r) else more == os
    ensures Ordered(more, Requests(cs + [c]))
  {
    assert (cs + [c])[..|cs|] == cs;
  }

  lemma Started()
    ensures After([]) == Exchange(0, map[]) && Replies([]) == [] && AllTrades([]) == [] && Ordered([], Requests([]))
  {
  }

  lemma NoBooks(me: MatchingEngine)
    requires me.orderBooks == map[]
    ensures AbsOf(me.orderBooks) == map[] && LevelsOf(me.orderBooks) == {} && me.orderBooks.Values == {}
  {
  }

  lemma NextReply(cs: seq<Command>, i: nat, e: Exchange, reply: Reply)
    requires i < |cs| && (e, reply) == Step(After(cs[..i]), cs[i])
    ensures cs[..i + 1] == cs[..i] + [cs[i]] && After(cs[..i + 1]) == e
    ensures Replies(cs[..i + 1]) == Replies(cs[..i]) + [reply]
    ensures AllTrades(Replies(cs[..i + 1])) == AllTrades(Replies(cs[..i])) + TradesOf(reply)
  {
    hide Step;
    assert cs[..i + 1][..i] == cs[..i];
    ReplyIs(cs[..i + 1]);
  }

  /** What every order has filled, what of it rests, and what was withdrawn or dropped make up its quantity. */
  ghost predicate Accounted(os: seq<Order>, cs: seq<Command>)
    reads os`filledQty
  {
    && |os| == |Requests(cs)|
    && forall i | 0 <= i < |os| ::
         os[i].filledQty + Held(BookIn(After(cs).books, os[i].terms.symbol), i + 1) + AllDropped(cs, i + 1)
         == os[i].terms.quantity
  }

  lemma AllAccounted(os: seq<Order>, cs: seq<Command>, history: seq<Trade>)
    requires Ordered(os, Requests(cs)) && Booked(os, Fills(os), history) && history == AllTrades(Replies(cs))
    ensures Accounted(os, cs)
  {
    forall i | 0 <= i < |os|
      ensures os[i].filledQty + Held(BookIn(After(cs).books, os[i].terms.symbol), i + 1) + AllDropped(cs, i + 1)
              == os[i].terms.quantity
    {
      Account(cs, i + 1, os[i].terms.symbol);
      assert Fills(os)[i] == os[i].filledQty;
    }
  }

  /** In every run the engine answers every command as the reference engine does and holds its books: sorted,
      positive, never crossed. Every order's quantity is accounted for, and in every symbol and over all books
      what was bought was sold. */
  method Replay(cs: seq<Command>) returns (me: MatchingEngine, replies: seq<Reply>)
    ensures fresh(me) && me.Valid()
    ensures replies == Replies(cs) && StateOf(me) == After(cs) && me.history == AllTrades(replies)
    ensures forall sym | sym in me.orderBooks :: Proper(me.orderBooks[sym].Abs())
    ensures Ordered(me.orders, Requests(cs)) && Accounted(me.orders, cs)
    ensures forall scope ::
              FilledOn(me.orders, |me.orders|, Buy, scope) == FilledOn(me.orders, |me.orders|, Sell, scope)
              == Volume(me.history, scope)
  {
    hide *;
    me := new MatchingEngine();
    replies := [];
    Started();
    StateIs(me);
    NoBooks(me);
    me.ValidIs();
    assert cs[..0] == [];
    for i := 0 to |cs|
      invariant fresh(me) && fresh(me.orderBooks.Values) && fresh(LevelsOf(me.orderBooks))
      invariant forall k | 0 <= k < |me.orders| :: fresh(me.orders[k])
      invariant me.Valid() && StateOf(me) == After(cs[..i])
      invariant replies == Replies(cs[..i]) && me.history == AllTrades(replies)
      invariant Ordered(me.orders, Requests(cs[..i]))
    {
      ghost var os := me.orders;
      var reply;
      ghost var books, levels;
      reply, books, levels := Serve(me, cs[i]);
      NextReply(cs, i, StateOf(me), reply);
      OrderedGrows(cs[..i], cs[i], os, me.orders);
      replies := replies + [reply];
    }
    assert cs[..|cs|] == cs;
    me.ValidIs();
    StateIs(me);
    RunKeepsProper(cs);
    AllAccounted(me.orders, cs, me.history);
    forall scope
      ensures FilledOn(me.orders, |me.orders|, Buy, scope) == FilledOn(me.orders, |me.orders|, Sell, scope)
              == Volume(me.history, scope)
    {
      BoughtIsSold(me.orders, me.history, scope);
    }
  }
}
