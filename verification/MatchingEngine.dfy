/** The matching engine: one order book per symbol, created on first use, and order ids handed out in
    sequence across all books. The engine's ghost history is every trade of every book so far. */
module MatchingEngines {
  import opened Orders
  import opened ReferenceBook
  import opened ReferenceEngines
  import opened OrderBooks
  import opened BookShape
  import opened Collections

  /** The `i`-th order ever submitted carries id `i + 1`, and was filled by exactly the trades naming it. */
  ghost predicate Booked(os: seq<Order>, fills: seq<int>, history: seq<Trade>) {
    |fills| == |os| && forall i | 0 <= i < |os| :: os[i].terms.id == i + 1 && fills[i] == Traded(history, i + 1)
  }

  /** A trade between two orders of one symbol and of opposite sides, at the price of the one that rested. */
  ghost predicate Party(os: seq<Order>, t: Trade) {
    && 1 <= t.buyOrderId <= |os| && 1 <= t.sellOrderId <= |os| && t.quantity > 0
    && os[t.buyOrderId - 1].terms.symbol == t.symbol == os[t.sellOrderId - 1].terms.symbol
    && os[t.buyOrderId - 1].terms.side != os[t.sellOrderId - 1].terms.side
    && t.price == os[t.sellOrderId - 1].terms.price
  }

  ghost predicate Parties(os: seq<Order>, history: seq<Trade>) {
    forall j | 0 <= j < |history| :: Party(os, history[j])
  }

  /** The orders of an index are among the submitted ones, and share one symbol. */
  ghost predicate Known(os: seq<Order>, symbol: string, index: Index) {
    forall id | id in index :: 1 <= id <= |os| && os[id - 1] == index[id] && index[id].terms.symbol == symbol
  }

  lemma {:induction false} TakerTrades(ts: seq<Trade>, t: Terms, index: Index)
    requires Between(ts, t, index) && t.id !in index
    ensures Traded(ts, t.id) == TotalQty(ts)
  {
    if ts != [] {
      var n := |ts| - 1;
      assert Between(ts[..n], t, index);
      TakerTrades(ts[..n], t, index);
      TotalQtyPush(ts[..n], ts[n]);
      assert ts == ts[..n] + [ts[n]];
    }
  }

  lemma {:induction false} TotalQtyPush(ts: seq<Trade>, t: Trade)
    ensures TotalQty(ts + [t]) == TotalQty(ts) + t.quantity
  {
    if ts != [] {
      assert (ts + [t])[1..] == ts[1..] + [t];
      TotalQtyPush(ts[1..], t);
    } else {
      assert ([] + [t])[1..] == [];
    }
  }

  lemma TradedBefore(os: seq<Order>, history: seq<Trade>, id: nat)
    requires Parties(os, history) && id > |os|
    ensures Traded(history, id) == 0
  {
    forall j | 0 <= j < |history| ensures history[j].buyOrderId != id && history[j].sellOrderId != id {
      assert Party(os, history[j]);
    }
    TradedElsewhere(history, id);
  }

  /** One submission carries the books' ledger to the engine's. */
  lemma BookedGrows(os: seq<Order>, f0: seq<int>, f1: seq<int>, history: seq<Trade>, order: Order, ts: seq<Trade>,
                    index: Index)
    requires Booked(os, f0, history) && Parties(os, history)
    requires order.terms.id == |os| + 1 && Known(os, order.terms.symbol, index) && Between(ts, order.terms, index)
    requires |f1| == |os| + 1 && f1[|os|] == TotalQty(ts)
    requires forall id | id in index :: f1[id - 1] == f0[id - 1] + Traded(ts, id)
    requires forall i | 0 <= i < |os| && i + 1 !in index :: f1[i] == f0[i]
    ensures Booked(os + [order], f1, history + ts)
  {
    hide Parties, Known, Between, Traded;
    forall i | 0 <= i <= |os| ensures f1[i] == Traded(history + ts, i + 1) {
      TradedAppend(history, ts, i + 1);
      if i == |os| {
        KnownRange(os, order.terms.symbol, index);
        TakerTrades(ts, order.terms, index);
        TradedBefore(os, history, i + 1);
      } else if i + 1 !in index {
        NotBetween(ts, order.terms, index, i + 1);
      }
    }
  }

  lemma KnownRange(os: seq<Order>, symbol: string, index: Index)
    requires Known(os, symbol, index)
    ensures forall id | id in index :: 1 <= id <= |os|
  {
  }

  lemma NotBetween(ts: seq<Trade>, t: Terms, index: Index, id: nat)
    requires Between(ts, t, index) && id !in index && id != t.id
    ensures Traded(ts, id) == 0
  {
    TradedElsewhere(ts, id);
  }

  lemma PartiesGrow(os: seq<Order>, history: seq<Trade>, order: Order, ts: seq<Trade>, index: Index)
    requires Parties(os, history)
    requires order.terms.id == |os| + 1 && Known(os, order.terms.symbol, index) && Between(ts, order.terms, index)
    ensures Parties(os + [order], history + ts)
  {
    forall j | 0 <= j < |history + ts| ensures Party(os + [order], (history + ts)[j]) {
      if j < |history| {
        assert Party(os, history[j]);
      }
    }
  }

  // ----- Conservation -----

  /** The symbols that are counted: one, or those of all books. */
  datatype Scope = AllSymbols | OneSymbol(symbol: string)

  predicate In(symbol: string, scope: Scope) {
    scope.AllSymbols? || scope.symbol == symbol
  }

  /** What the orders `os[..n]` of one side have traded. */
  function SideTotal(os: seq<Order>, n: nat, s: Side, scope: Scope, history: seq<Trade>): int
    requires n <= |os|
  {
    if n == 0 then 0
    else SideTotal(os, n - 1, s, scope, history) + if Counts(os[n - 1], s, scope) then Traded(history, n) else 0
  }

  function Volume(history: seq<Trade>, scope: Scope): int {
    if history == [] then 0
    else Volume(history[..|history| - 1], scope)
         + if In(history[|history| - 1].symbol, scope) then history[|history| - 1].quantity else 0
  }

  predicate Counts(o: Order, s: Side, scope: Scope) {
    o.terms.side == s && In(o.terms.symbol, scope)
  }

  /** The party of a trade on side `s`. */
  function PartyOn(os: seq<Order>, s: Side, t: Trade): int
    requires 1 <= t.buyOrderId <= |os|
  {
    if os[t.buyOrderId - 1].terms.side == s then t.buyOrderId else t.sellOrderId
  }

  lemma ShareOnSide(os: seq<Order>, n: nat, s: Side, scope: Scope, t: Trade)
    requires 1 <= n <= |os| && Party(os, t)
    ensures (if Counts(os[n - 1], s, scope) then Share(t, n) else 0)
            == if In(t.symbol, scope) && PartyOn(os, s, t) == n then t.quantity else 0
  {
  }

  /** One trade adds its quantity to each side where its symbol is counted, and nothing elsewhere. */
  lemma {:induction false} SideTotalPush(os: seq<Order>, n: nat, s: Side, scope: Scope, history: seq<Trade>, t: Trade)
    requires n <= |os| && Party(os, t)
    ensures SideTotal(os, n, s, scope, history + [t])
            == SideTotal(os, n, s, scope, history)
               + if In(t.symbol, scope) && PartyOn(os, s, t) <= n then t.quantity else 0
  {
    hide Traded, Share, Counts, Party;
    PartyInRange(os, s, t);
    if n > 0 {
      SideTotalPush(os, n - 1, s, scope, history, t);
      TradedPush(history, t, n);
      ShareOnSide(os, n, s, scope, t);
    }
  }

  lemma PartyInRange(os: seq<Order>, s: Side, t: Trade)
    requires Party(os, t)
    ensures 1 <= t.buyOrderId <= |os| && 1 <= PartyOn(os, s, t) <= |os|
  {
  }

  lemma {:induction false} NoHistory(os: seq<Order>, n: nat, s: Side, scope: Scope)
    requires n <= |os|
    ensures SideTotal(os, n, s, scope, []) == 0
  {
    if n > 0 {
      NoHistory(os, n - 1, s, scope);
    }
  }

  /** What the orders of one side have traded is what has traded. */
  lemma {:induction false} SideTotalIs(os: seq<Order>, s: Side, scope: Scope, history: seq<Trade>)
    requires Parties(os, history)
    ensures SideTotal(os, |os|, s, scope, history) == Volume(history, scope)
  {
    if history == [] {
      NoHistory(os, |os|, s, scope);
    } else {
      var n := |history| - 1;
      assert history == history[..n] + [history[n]];
      assert Party(os, history[n]);
      SideTotalIs(os, s, scope, history[..n]);
      SideTotalPush(os, |os|, s, scope, history[..n], history[n]);
    }
  }

  ghost function FilledOn(os: seq<Order>, n: nat, s: Side, scope: Scope): int
    requires n <= |os|
    reads os`filledQty
  {
    if n == 0 then 0
    else FilledOn(os, n - 1, s, scope) + if Counts(os[n - 1], s, scope) then os[n - 1].filledQty else 0
  }

  lemma {:induction false} FilledIsTraded(os: seq<Order>, n: nat, s: Side, scope: Scope, history: seq<Trade>)
    requires n <= |os| && Booked(os, Fills(os), history)
    ensures FilledOn(os, n, s, scope) == SideTotal(os, n, s, scope, history)
  {
    if n > 0 {
      FilledIsTraded(os, n - 1, s, scope, history);
      assert os[n - 1].filledQty == Fills(os)[n - 1];
    }
  }

  /** Everything bought was sold: in every symbol, and over all books together, the filled quantities of the
      two sides agree. */
  lemma BoughtIsSold(os: seq<Order>, history: seq<Trade>, scope: Scope)
    requires Booked(os, Fills(os), history) && Parties(os, history)
    ensures FilledOn(os, |os|, Buy, scope) == FilledOn(os, |os|, Sell, scope) == Volume(history, scope)
  {
    FilledIsTraded(os, |os|, Buy, scope, history);
    FilledIsTraded(os, |os|, Sell, scope, history);
    SideTotalIs(os, Buy, scope, history);
    SideTotalIs(os, Sell, scope, history);
  }

  /** The identifiers of a trade name the orders of their sides. */
  ghost predicate NamedBySide(os: seq<Order>, t: Trade) {
    && 1 <= t.buyOrderId <= |os| && os[t.buyOrderId - 1].terms.side == Buy
    && 1 <= t.sellOrderId <= |os| && os[t.sellOrderId - 1].terms.side == Sell
  }

  /** A submission's trades name buyer and seller as such exactly when the submitted order is a buy. */
  ghost predicate NamedWhenBuying(os: seq<Order>, t: Terms, ts: seq<Trade>) {
    forall j | 0 <= j < |ts| :: NamedBySide(os, ts[j]) <==> t.side == Buy
  }

  lemma NamesAre(os: seq<Order>, history: seq<Trade>, b: Book, t: Terms, ts: seq<Trade>)
    requires Parties(os, history + ts) && ts == Submit(b, t).trades
    requires 1 <= t.id <= |os| && os[t.id - 1].terms == t
    ensures NamedWhenBuying(os, t, ts)
  {
    forall j | 0 <= j < |ts| ensures NamedBySide(os, ts[j]) <==> t.side == Buy {
      TakerIsNamedFirst(t, SideOf(b, Opposite(t.side)), t.quantity, j);
      assert (history + ts)[|history| + j] == ts[j];
      assert Party(os, ts[j]);
    }
  }

  /** Whatever a book lists is in its index. */
  ghost predicate ListsIndexed(o: OrderBook)
    reads o, o.bidMap.Values`orders, o.askMap.Values`orders
  {
    && (forall i | 0 <= i < |o.ListOf(Buy)| :: o.ListOf(Buy)[i] in o.orderMap.Values)
    && (forall i | 0 <= i < |o.ListOf(Sell)| :: o.ListOf(Sell)[i] in o.orderMap.Values)
  }

  lemma SoundListsIndexed(o: OrderBook)
    requires o.Sound()
    ensures ListsIndexed(o)
  {
    hide OrderBook.Sound, OrderBook.ListOf;
    o.SoundIs();
    forall i | 0 <= i < |o.ListOf(Buy)| ensures o.ListOf(Buy)[i] in o.orderMap.Values {
      o.ListedIsIndexed(Buy, o.ListOf(Buy)[i]);
    }
    forall i | 0 <= i < |o.ListOf(Sell)| ensures o.ListOf(Sell)[i] in o.orderMap.Values {
      o.ListedIsIndexed(Sell, o.ListOf(Sell)[i]);
    }
  }

  /** Books for different symbols share neither levels nor orders. */
  lemma BooksApart(o: OrderBook, b: OrderBook)
    requires o.Sound() && b.Sound() && o.symbol != b.symbol
    ensures o != b && o.bidMap.Values !! b.bidMap.Values + b.askMap.Values
            && o.askMap.Values !! b.bidMap.Values + b.askMap.Values
    ensures o.orderMap.Values !! b.orderMap.Values
    ensures forall x | x in o.orderMap.Values :: x.terms.symbol == o.symbol
    ensures ListsIndexed(o)
  {
    hide *;
    o.SoundIs();
    b.SoundIs();
    LevelsOwned(o);
    LevelsOwned(b);
    OrdersNamed(o);
    OrdersNamed(b);
    SoundListsIndexed(o);
  }

  /** A book none of whose own objects changed is the book it was. */
  twostate lemma BookKept(o: OrderBook)
    requires old(o.Sound() && ListsIndexed(o)) && unchanged(o)
    requires forall l | l in o.bidMap.Values :: unchanged(l`orders)
    requires forall l | l in o.askMap.Values :: unchanged(l`orders)
    requires forall x | x in o.orderMap.Values :: unchanged(x`filledQty) && unchanged(x`status)
    ensures o.Sound() && o.Abs() == old(o.Abs())
  {
    hide OrderBook.Sound, OrderBook.Abs, OrderBook.ListOf, OrderBook.Valid;
    ghost var bids, asks := o.ListOf(Buy), o.ListOf(Sell);
    assert bids == old(o.ListOf(Buy)) && asks == old(o.ListOf(Sell));
    assert forall i | 0 <= i < |bids| :: bids[i] in o.orderMap.Values && bids[i].filledQty == old(bids[i].filledQty);
    assert forall i | 0 <= i < |asks| :: asks[i] in o.orderMap.Values && asks[i].filledQty == old(asks[i].filledQty);
    assert o.Abs() == old(o.Abs());
  }

  lemma LevelsOwned(b: OrderBook)
    requires b.Valid()
    ensures forall l | l in b.bidMap.Values + b.askMap.Values :: l.owner == b
  {
    forall l | l in b.bidMap.Values ensures l.owner == b {
      var p := KeyOf(b.bidMap, l);
      b.LevelFacts(Buy, p);
    }
    forall l | l in b.askMap.Values ensures l.owner == b {
      var p := KeyOf(b.askMap, l);
      b.LevelFacts(Sell, p);
    }
  }

  lemma OrdersNamed(b: OrderBook)
    requires b.Valid()
    ensures forall x | x in b.orderMap.Values :: x.terms.symbol == b.symbol
  {
    forall x | x in b.orderMap.Values ensures x.terms.symbol == b.symbol {
      var id := KeyOf(b.orderMap, x);
      var i := b.IndexedIsQueued(id);
      assert Indexed(x.terms.side, b.symbol, b.orderMap, b.MapOf(x.terms.side)[x.terms.price].orders[i]) by {
        b.LevelFacts(x.terms.side, x.terms.price);
      }
    }
  }

  type Books = map<string, OrderBook>

  ghost predicate BooksOk(books: Books)
    reads *
  {
    forall sym | sym in books :: books[sym].symbol == sym && books[sym].Sound()
  }

  /** The reference books of the engine's books. */
  ghost function AbsOf(books: Books): (r: map<string, Book>)
    reads *
    ensures r.Keys == books.Keys && forall sym | sym in books :: r[sym] == books[sym].Abs()
  {
    map sym | sym in books :: books[sym].Abs()
  }

  ghost function IndexesOf(books: Books): (r: map<string, Index>)
    reads *
    ensures r.Keys == books.Keys && forall sym | sym in books :: r[sym] == books[sym].orderMap
  {
    map sym | sym in books :: books[sym].orderMap
  }

  /** The levels of all books. */
  ghost function LevelsOf(books: Books): set<PriceLevel>
    reads books.Values
  {
    set sym, l | sym in books && l in books[sym].bidMap.Values + books[sym].askMap.Values :: l
  }

  lemma LevelsAre(books: Books)
    ensures forall sym | sym in books ::
              books[sym].bidMap.Values <= LevelsOf(books) && books[sym].askMap.Values <= LevelsOf(books)
  {
    forall sym, l | sym in books && l in books[sym].bidMap.Values + books[sym].askMap.Values
      ensures l in LevelsOf(books)
    {
    }
  }

  lemma HomeOf(books: Books, l: PriceLevel) returns (sym: string)
    requires l in LevelsOf(books)
    ensures sym in books && l in books[sym].bidMap.Values + books[sym].askMap.Values
  {
    sym :| sym in books && l in books[sym].bidMap.Values + books[sym].askMap.Values;
  }

  /** An empty book brings no levels. */
  lemma LevelsWith(books: Books, symbol: string, b: OrderBook)
    requires b.bidMap == map[] && b.askMap == map[]
    ensures LevelsOf(books[symbol := b]) <= LevelsOf(books)
  {
    hide LevelsOf;
    LevelsAre(books);
    forall l | l in LevelsOf(books[symbol := b]) ensures l in LevelsOf(books) {
      var sym := HomeOf(books[symbol := b], l);
    }
  }

  /** The levels when only `b` has changed its own. */
  lemma LevelsWithin(books: Books, b: OrderBook, levels: set<PriceLevel>)
    requires forall sym | sym in books && books[sym] != b ::
               books[sym].bidMap.Values <= levels && books[sym].askMap.Values <= levels
    ensures LevelsOf(books) <= levels + b.bidMap.Values + b.askMap.Values
  {
    hide LevelsOf;
    forall l | l in LevelsOf(books) ensures l in levels + b.bidMap.Values + b.askMap.Values {
      var sym := HomeOf(books, l);
    }
  }

  lemma BooksOkIs(books: Books)
    ensures BooksOk(books) <==> forall sym | sym in books :: books[sym].symbol == sym && books[sym].Sound()
  {
    hide OrderBook.Sound;
  }

  /** The other books, seen from the book of `symbol`. */
  lemma BooksAside(books: Books, symbol: string)
    requires BooksOk(books) && symbol in books
    ensures forall sym | sym in books && sym != symbol ::
              && books[sym] != books[symbol] && books[sym].symbol != symbol == books[symbol].symbol
              && books[sym].bidMap.Values !! books[symbol].bidMap.Values + books[symbol].askMap.Values
              && books[sym].askMap.Values !! books[symbol].bidMap.Values + books[symbol].askMap.Values
              && books[sym].orderMap.Values !! books[symbol].orderMap.Values
              && (forall x | x in books[sym].orderMap.Values :: x.terms.symbol != symbol)
              && ListsIndexed(books[sym])
  {
    hide *;
    BooksOkIs(books);
    forall sym | sym in books && sym != symbol {
      BooksApart(books[sym], books[symbol]);
    }
  }

  /** Opening a book and taking in an order change none of the books there are. */
  method NewBook(books: Books, symbol: string) returns (b: OrderBook)
    requires BooksOk(books)
    ensures BooksOk(books) && AbsOf(books) == old(AbsOf(books)) && IndexesOf(books) == old(IndexesOf(books))
    ensures fresh(b) && b.symbol == symbol && b.Sound() && b.Abs() == Book([], [])
    ensures b.orderMap == map[] && b.bidMap == map[] && b.askMap == map[]
  {
    hide *;
    SoundBooks(books);
    b := new OrderBook(symbol);
    b.SoundIs();
    EmptyIsProper();
    KeepBooks(books);
  }

  method NewOrder(books: Books, terms: Terms) returns (order: Order)
    requires BooksOk(books)
    ensures BooksOk(books) && AbsOf(books) == old(AbsOf(books)) && IndexesOf(books) == old(IndexesOf(books))
    ensures fresh(order) && order.terms == terms && order.filledQty == 0 && order.status == New
  {
    hide *;
    SoundBooks(books);
    order := new Order(terms);
    KeepBooks(books);
  }

  lemma BookPresent(books: Books, symbol: string)
    requires BooksOk(books) && symbol in books
    ensures books == books[symbol := books[symbol]] && books[symbol].Sound()
    ensures AbsOf(books) == AbsOf(books)[symbol := books[symbol].Abs()]
    ensures IndexesOf(books) == IndexesOf(books)[symbol := books[symbol].orderMap]
  {
    hide *;
    BooksOkIs(books);
    SameMap(books, books[symbol := books[symbol]]);
    SameMap(AbsOf(books), AbsOf(books)[symbol := books[symbol].Abs()]);
    SameMap(IndexesOf(books), IndexesOf(books)[symbol := books[symbol].orderMap]);
  }

  lemma BookAdded(books: Books, symbol: string, b: OrderBook)
    requires BooksOk(books) && b.symbol == symbol && b.Sound()
    ensures BooksOk(books[symbol := b])
    ensures AbsOf(books[symbol := b]) == AbsOf(books)[symbol := b.Abs()]
    ensures IndexesOf(books[symbol := b]) == IndexesOf(books)[symbol := b.orderMap]
  {
    hide *;
    BooksOkIs(books);
    BooksOkIs(books[symbol := b]);
    SameMap(AbsOf(books[symbol := b]), AbsOf(books)[symbol := b.Abs()]);
    SameMap(IndexesOf(books[symbol := b]), IndexesOf(books)[symbol := b.orderMap]);
  }

  lemma SoundBooks(books: Books)
    requires BooksOk(books)
    ensures forall sym | sym in books :: ListsIndexed(books[sym])
  {
    hide *;
    BooksOkIs(books);
    forall sym | sym in books {
      SoundListsIndexed(books[sym]);
    }
  }

  twostate lemma KeepBooks(books: Books)
    requires old(BooksOk(books)) && forall sym | sym in books :: old(ListsIndexed(books[sym])) && unchanged(books[sym])
    requires forall sym | sym in books :: forall l | l in books[sym].bidMap.Values :: unchanged(l`orders)
    requires forall sym | sym in books :: forall l | l in books[sym].askMap.Values :: unchanged(l`orders)
    requires forall sym | sym in books :: forall x | x in books[sym].orderMap.Values ::
               unchanged(x`filledQty) && unchanged(x`status)
    ensures BooksOk(books) && AbsOf(books) == old(AbsOf(books)) && IndexesOf(books) == old(IndexesOf(books))
  {
    hide OrderBook.Sound, ListsIndexed, OrderBook.Abs;
    forall sym | sym in books ensures books[sym].Sound() && books[sym].Abs() == old(books[sym].Abs()) {
      BookKept(books[sym]);
    }
  }

  /** All books together, when all but `b` are as `abs` and `indexes` have them. */
  lemma OneBookChanged(books: Books, b: OrderBook, abs: map<string, Book>, indexes: map<string, Index>)
    requires b.symbol in books && books[b.symbol] == b && abs.Keys == indexes.Keys == books.Keys
    requires forall sym | sym in books :: books[sym].symbol == sym && books[sym].Sound()
    requires forall sym | sym in books && sym != b.symbol ::
               books[sym].Abs() == abs[sym] && books[sym].orderMap == indexes[sym]
    ensures BooksOk(books) && AbsOf(books) == abs[b.symbol := b.Abs()]
            && IndexesOf(books) == indexes[b.symbol := b.orderMap]
  {
    hide *;
    BooksOkIs(books);
    SameMap(AbsOf(books), abs[b.symbol := b.Abs()]);
    SameMap(IndexesOf(books), indexes[b.symbol := b.orderMap]);
  }

  /** A submission to one of several books, and what the others still are. */
  method SubmitAmong(books: Books, b: OrderBook, order: Order,
                     ghost abs: map<string, Book>, ghost indexes: map<string, Index>)
      returns (trades: seq<Trade>)
    requires BooksOk(books) && order.terms.symbol in books && books[order.terms.symbol] == b && b.Incoming(order)
    requires abs == AbsOf(books) && indexes == IndexesOf(books)
    modifies b, b.bidMap.Values`orders, b.askMap.Values`orders, b.orderMap.Values`filledQty, b.orderMap.Values`status
    modifies order`filledQty, order`status
    ensures forall sym | sym in books :: books[sym].symbol == sym && books[sym].Sound()
    ensures forall sym | sym in books && sym != order.terms.symbol ::
              books[sym].Abs() == abs[sym] && books[sym].orderMap == indexes[sym]
    ensures ReferenceBook.Submit(old(b.Abs()), order.terms) == Submitted(trades, b.Abs(), order.RemainingQty())
    ensures order.status == StatusAfter(order)
    ensures fresh(b.bidMap.Values - old(b.bidMap.Values)) && fresh(b.askMap.Values - old(b.askMap.Values))
    ensures b.orderMap.Keys <= old(b.orderMap.Keys) + {order.terms.id}
            && b.orderMap.Values <= old(b.orderMap.Values) + {order}
    ensures Ledger(old(FillMap(b.orderMap)), FillMap(old(b.orderMap)), trades)
            && Between(trades, order.terms, old(b.orderMap))
  {
    hide *;
    BooksOkIs(books);
    BooksAside(books, order.terms.symbol);
    trades := b.Submit(order);
    forall sym | sym in books && sym != order.terms.symbol
      ensures books[sym].Sound() && books[sym].Abs() == abs[sym] && books[sym].orderMap == indexes[sym]
    {
      BookKept(books[sym]);
    }
  }

  /** A submission to one of several books is the reference submission to that book and leaves the other
      books as they are. */
  method SubmitTo(books: Books, b: OrderBook, order: Order) returns (trades: seq<Trade>)
    requires BooksOk(books) && order.terms.symbol in books && books[order.terms.symbol] == b && b.Incoming(order)
    modifies b, b.bidMap.Values`orders, b.askMap.Values`orders, b.orderMap.Values`filledQty, b.orderMap.Values`status
    modifies order`filledQty, order`status
    ensures BooksOk(books)
    ensures ReferenceBook.Submit(old(b.Abs()), order.terms) == Submitted(trades, b.Abs(), order.RemainingQty())
    ensures order.status == StatusAfter(order)
    ensures fresh(LevelsOf(books) - old(LevelsOf(books)))
    ensures AbsOf(books) == old(AbsOf(books))[order.terms.symbol := b.Abs()]
    ensures IndexesOf(books) == old(IndexesOf(books))[order.terms.symbol := b.orderMap]
    ensures b.orderMap.Keys <= old(b.orderMap.Keys) + {order.terms.id}
            && b.orderMap.Values <= old(b.orderMap.Values) + {order}
    ensures Ledger(old(FillMap(b.orderMap)), FillMap(old(b.orderMap)), trades)
            && Between(trades, order.terms, old(b.orderMap))
  {
    hide *;
    ghost var abs, indexes, levels := AbsOf(books), IndexesOf(books), LevelsOf(books);
    LevelsAre(books);
    trades := SubmitAmong(books, b, order, abs, indexes);
    LevelsWithin(books, b, levels);
    OneBookChanged(books, b, abs, indexes);
  }

  /** What a cancel leaves of a book and its index. */
  ghost predicate Cancelled(id: nat, abs: Book, index: Index, abs1: Book, index1: Index) {
    if id in index then abs1 == ReferenceBook.Cancel(abs, id) && index1 == index - {id}
    else abs1 == abs && index1 == index
  }

  lemma CancelledIs(id: nat, abs: Book, index: Index, abs1: Book, index1: Index)
    ensures Cancelled(id, abs, index, abs1, index1) <==>
              if id in index then abs1 == ReferenceBook.Cancel(abs, id) && index1 == index - {id}
              else abs1 == abs && index1 == index
  {
  }

  lemma CancelledShrinks(id: nat, abs: Book, index: Index, abs1: Book, index1: Index)
    requires Cancelled(id, abs, index, abs1, index1)
    ensures Within(index1, index)
  {
  }

  /** A cancel in one of several books, and what the others still are. */
  method CancelAmong(books: Books, b: OrderBook, id: nat,
                     ghost abs: map<string, Book>, ghost indexes: map<string, Index>)
      returns (r: CancelResult)
    requires BooksOk(books) && b.symbol in books && books[b.symbol] == b
    requires abs == AbsOf(books) && indexes == IndexesOf(books)
    modifies b, b.bidMap.Values`orders, b.askMap.Values`orders, b.orderMap.Values`status
    ensures forall sym | sym in books :: books[sym].symbol == sym && books[sym].Sound()
    ensures forall sym | sym in books && sym != b.symbol ::
              books[sym].Abs() == abs[sym] && books[sym].orderMap == indexes[sym]
    ensures Cancelled(id, old(b.Abs()), old(b.orderMap), b.Abs(), b.orderMap)
    ensures r == if id in old(b.orderMap) then Done(old(b.orderMap[id].RemainingQty())) else Refused(AlreadyFilled)
    ensures r == if Held(old(b.Abs()), id) > 0 then Done(Held(old(b.Abs()), id)) else Refused(AlreadyFilled)
    ensures b.bidMap.Values <= old(b.bidMap.Values) && b.askMap.Values <= old(b.askMap.Values)
    ensures r.Done? ==> r.cancelledQty > 0 && old(b.orderMap)[id].status == Status.Cancelled
  {
    hide *;
    BooksOkIs(books);
    BooksAside(books, b.symbol);
    r := b.Cancel(id);
    CancelledIs(id, old(b.Abs()), old(b.orderMap), b.Abs(), b.orderMap);
    forall sym | sym in books && sym != b.symbol
      ensures books[sym].Sound() && books[sym].Abs() == abs[sym] && books[sym].orderMap == indexes[sym]
    {
      BookKept(books[sym]);
    }
  }

  /** A cancel in one of several books is the reference cancel in that book and leaves the others as they are. */
  method CancelIn(books: Books, b: OrderBook, id: nat) returns (r: CancelResult)
    requires BooksOk(books) && b.symbol in books && books[b.symbol] == b
    modifies b, b.bidMap.Values`orders, b.askMap.Values`orders, b.orderMap.Values`status
    ensures BooksOk(books) && Cancelled(id, old(b.Abs()), old(b.orderMap), b.Abs(), b.orderMap)
    ensures AbsOf(books) == old(AbsOf(books))[b.symbol := b.Abs()]
    ensures IndexesOf(books) == old(IndexesOf(books))[b.symbol := b.orderMap]
    ensures r == if id in old(b.orderMap) then Done(old(b.orderMap[id].RemainingQty())) else Refused(AlreadyFilled)
    ensures r == if Held(old(b.Abs()), id) > 0 then Done(Held(old(b.Abs()), id)) else Refused(AlreadyFilled)
    ensures LevelsOf(books) <= old(LevelsOf(books))
    ensures r.Done? ==> r.cancelledQty > 0 && old(b.orderMap)[id].status == Status.Cancelled
  {
    hide *;
    ghost var abs, indexes, levels := AbsOf(books), IndexesOf(books), LevelsOf(books);
    LevelsAre(books);
    r := CancelAmong(books, b, id, abs, indexes);
    LevelsWithin(books, b, levels);
    OneBookChanged(books, b, abs, indexes);
  }

  ghost predicate AllKnown(os: seq<Order>, indexes: map<string, Index>) {
    forall sym | sym in indexes :: Known(os, sym, indexes[sym])
  }

  /** The submitted orders after one more submission. */
  lemma AllKnownGrows(os: seq<Order>, indexes: map<string, Index>, order: Order, index: Index)
    requires AllKnown(os, indexes) && order.terms.id == |os| + 1
    requires order.terms.symbol in indexes && Within(index, indexes[order.terms.symbol][order.terms.id := order])
    ensures AllKnown(os + [order], indexes[order.terms.symbol := index])
  {
  }

  lemma KeyedIs(b: OrderBook)
    requires b.Sound()
    ensures Keyed(b.orderMap)
  {
    forall id | id in b.orderMap ensures b.orderMap[id].terms.id == id {
      var i := b.IndexedIsQueued(id);
    }
  }

  lemma KeyedWithin(index: Index, index0: Index, order: Order)
    requires Keyed(index) && Keyed(index0) && index.Values <= index0.Values + {order} && order.terms.id !in index0
    ensures Within(index, index0[order.terms.id := order])
  {
    forall id | id in index
      ensures id in index0[order.terms.id := order] && index[id] == index0[order.terms.id := order][id]
    {
      assert index[id] in index0.Values + {order};
      if index[id] != order {
        var x := KeyOf(index0, index[id]);
        assert x == id;
      }
    }
  }

  /** Orders of other ids than a book's are not in the book. */
  lemma NotIndexed(os: seq<Order>, fills: seq<int>, history: seq<Trade>, symbol: string, index: Index)
    requires Booked(os, fills, history) && Known(os, symbol, index)
    ensures forall i | 0 <= i < |os| && i + 1 !in index :: os[i] !in index.Values
    ensures forall id | id in index :: os[id - 1] == index[id] && 1 <= id <= |os|
  {
    forall i | 0 <= i < |os| && i + 1 !in index ensures os[i] !in index.Values {
      if os[i] in index.Values {
        var id := KeyOf(index, os[i]);
        assert false;
      }
    }
  }

  lemma SubmitTotal(b: Book, t: Terms, trades: seq<Trade>, b1: Book, rem: int)
    requires Proper(b) && Submit(b, t) == Submitted(trades, b1, rem)
    ensures TotalQty(trades) == t.quantity - rem
  {
    MatchIsMaximal(t, SideOf(b, Opposite(t.side)), t.quantity);
  }

  /** A submission to one of an engine's books, with the engine's ledger of all orders and trades. */
  method SubmitBooked(books: Books, b: OrderBook, order: Order, ghost os: seq<Order>, ghost history: seq<Trade>)
      returns (trades: seq<Trade>)
    requires BooksOk(books) && order.terms.symbol in books && books[order.terms.symbol] == b
    requires AllKnown(os, IndexesOf(books)) && Booked(os, Fills(os), history) && Parties(os, history)
    requires order.terms.id == |os| + 1 && order !in os && order.filledQty == 0 && order.status == New
    modifies b, b.bidMap.Values`orders, b.askMap.Values`orders, b.orderMap.Values`filledQty, b.orderMap.Values`status
    modifies order`filledQty, order`status
    ensures BooksOk(books)
    ensures ReferenceBook.Submit(old(b.Abs()), order.terms) == Submitted(trades, b.Abs(), order.RemainingQty())
    ensures order.status == StatusAfter(order)
    ensures fresh(LevelsOf(books) - old(LevelsOf(books)))
    ensures AbsOf(books) == old(AbsOf(books))[order.terms.symbol := b.Abs()]
    ensures AllKnown(os + [order], IndexesOf(books))
    ensures Booked(os + [order], Fills(os + [order]), history + trades) && Parties(os + [order], history + trades)
  {
    hide *;
    ghost var index, indexes, f0, abs := b.orderMap, IndexesOf(books), Fills(os), b.Abs();
    BookIsKnown(books, order.terms.symbol, os, f0, history);
    FreshIsIncoming(b, order, os);
    ghost var g0 := FillMap(index);
    trades := SubmitTo(books, b, order);
    LedgerMeans(g0, FillMap(index), trades);
    KnownAfter(books, b, order, os, indexes, index);
    BookedAfter(order, os, f0, history, trades, index, abs, b.Abs());
  }

  lemma KnownAfter(books: Books, b: OrderBook, order: Order, os: seq<Order>, indexes: map<string, Index>, index: Index)
    requires BooksOk(books) && order.terms.symbol in books && books[order.terms.symbol] == b
    requires AllKnown(os, indexes) && order.terms.id == |os| + 1 && order.terms.id !in index && Keyed(index)
    requires order.terms.symbol in indexes && indexes[order.terms.symbol] == index
    requires b.orderMap.Values <= index.Values + {order}
    requires IndexesOf(books) == indexes[order.terms.symbol := b.orderMap]
    ensures AllKnown(os + [order], IndexesOf(books))
  {
    hide *;
    BooksOkIs(books);
    KeyedIs(b);
    KeyedWithin(b.orderMap, index, order);
    AllKnownGrows(os, indexes, order, b.orderMap);
  }

  lemma BookedAfter(order: Order, os: seq<Order>, f0: seq<int>, history: seq<Trade>, trades: seq<Trade>, index: Index,
                    abs: Book, abs1: Book)
    requires Booked(os, f0, history) && Parties(os, history) && |f0| == |os| && order.terms.id == |os| + 1
    requires Known(os, order.terms.symbol, index) && Between(trades, order.terms, index)
    requires Proper(abs) && Submit(abs, order.terms) == Submitted(trades, abs1, order.RemainingQty())
    requires forall id | id in index :: 1 <= id <= |os| && os[id - 1] == index[id]
    requires forall id | id in index :: index[id].filledQty == f0[id - 1] + Traded(trades, id)
    requires forall i | 0 <= i < |os| && i + 1 !in index :: os[i].filledQty == f0[i]
    ensures Booked(os + [order], Fills(os + [order]), history + trades) && Parties(os + [order], history + trades)
  {
    hide Booked, Parties, Known, Between, Proper, Submit, Traded, Fills;
    SubmitTotal(abs, order.terms, trades, abs1, order.RemainingQty());
    BookedGrows(os, f0, Fills(os + [order]), history, order, trades, index);
    PartiesGrow(os, history, order, trades, index);
  }

  lemma LedgerMeans(f0: map<nat, int>, f1: map<nat, int>, ts: seq<Trade>)
    requires Ledger(f0, f1, ts)
    ensures f0.Keys == f1.Keys && forall id | id in f0 :: f1[id] == f0[id] + Traded(ts, id)
  {
  }

  lemma BookIsKnown(books: Books, symbol: string, os: seq<Order>, f0: seq<int>, history: seq<Trade>)
    requires BooksOk(books) && symbol in books
    requires AllKnown(os, IndexesOf(books)) && Booked(os, f0, history)
    ensures var b := books[symbol];
            && b.Sound() && b.symbol == symbol && Proper(b.Abs()) && Keyed(b.orderMap)
            && Known(os, symbol, b.orderMap) && |os| + 1 !in b.orderMap
            && (forall i | 0 <= i < |os| && i + 1 !in b.orderMap :: os[i] !in b.orderMap.Values)
            && (forall id | id in b.orderMap :: 1 <= id <= |os| && os[id - 1] == b.orderMap[id])
            && (forall id | id in b.orderMap :: b.orderMap[id].terms.symbol == symbol)
  {
    hide OrderBook.Sound, OrderBook.Abs, Proper, Keyed, Booked;
    var b := books[symbol];
    b.SoundIs();
    KeyedIs(b);
    NotIndexed(os, f0, history, symbol, b.orderMap);
  }

  /** An indexed order is the submitted order of its id. */
  lemma IndexedIsSubmitted(books: Books, symbol: string, os: seq<Order>, id: nat)
    requires BooksOk(books) && symbol in books && AllKnown(os, IndexesOf(books))
    ensures books[symbol].symbol == symbol && IndexesOf(books)[symbol] == books[symbol].orderMap
    ensures forall x | x in books[symbol].orderMap.Values :: x in os
    ensures id in books[symbol].orderMap ==>
              && 1 <= id <= |os| && os[id - 1] == books[symbol].orderMap[id] && os[id - 1].terms.symbol == symbol
  {
    hide OrderBook.Sound;
    IndexedAreSubmitted(os, IndexesOf(books), symbol);
    assert Known(os, symbol, IndexesOf(books)[symbol]);
  }

  lemma FreshIsIncoming(b: OrderBook, order: Order, os: seq<Order>)
    requires order.terms.id !in b.orderMap && order.filledQty == 0 && order.status == New
             && order.terms.symbol == b.symbol
    ensures b.Incoming(order)
  {
  }

  class MatchingEngine {
    var orderBooks: Books
    var orderIDSeq: nat
    ghost var orders: seq<Order>
    ghost var history: seq<Trade>

    ghost predicate Valid()
      reads *
    {
      && BooksOk(orderBooks)
      && |orders| == orderIDSeq && AllKnown(orders, IndexesOf(orderBooks))
      && Booked(orders, Fills(orders), history) && Parties(orders, history)
    }

    constructor ()
      ensures Valid() && orders == [] && history == [] && orderBooks == map[] && LevelsOf(orderBooks) == {}
    {
      orderBooks, orderIDSeq := map[], 0;
      orders, history := [], [];
    }

    /** The book a symbol has, or is about to get. */
    ghost function BookFor(symbol: string): Book
      reads *
    {
      if symbol in orderBooks then orderBooks[symbol].Abs() else Book([], [])
    }

    method GetOrCreateOrderBook(symbol: string) returns (b: OrderBook)
      requires BooksOk(orderBooks)
      modifies this`orderBooks
      ensures BooksOk(orderBooks) && orderBooks == old(orderBooks)[symbol := b]
      ensures symbol in old(orderBooks) ==> b == old(orderBooks)[symbol]
      ensures symbol !in old(orderBooks) ==> fresh(b) && b.bidMap == map[] && b.askMap == map[] && b.orderMap == map[]
      ensures b.Abs() == old(BookFor(symbol)) && AbsOf(orderBooks) == old(AbsOf(orderBooks))[symbol := b.Abs()]
      ensures LevelsOf(orderBooks) <= old(LevelsOf(orderBooks))
      ensures IndexesOf(orderBooks) == old(IndexesOf(orderBooks))[symbol := b.orderMap]
    {
      hide *;
      BooksOkIs(orderBooks);
      BookForIs(symbol);
      if symbol in orderBooks {
        b := orderBooks[symbol];
        BookPresent(orderBooks, symbol);
      } else {
        b := OpenOrderBook(symbol);
      }
    }

    method OpenOrderBook(symbol: string) returns (b: OrderBook)
      requires BooksOk(orderBooks) && symbol !in orderBooks
      modifies this`orderBooks
      ensures BooksOk(orderBooks) && orderBooks == old(orderBooks)[symbol := b]
      ensures fresh(b) && b.bidMap == map[] && b.askMap == map[] && b.orderMap == map[] && b.Abs() == Book([], [])
      ensures AbsOf(orderBooks) == old(AbsOf(orderBooks))[symbol := b.Abs()]
      ensures IndexesOf(orderBooks) == old(IndexesOf(orderBooks))[symbol := b.orderMap]
      ensures LevelsOf(orderBooks) <= old(LevelsOf(orderBooks))
    {
      hide *;
      b := NewBook(orderBooks, symbol);
      LevelsWith(orderBooks, symbol, b);
      BookAdded(orderBooks, symbol, b);
      AddBook(symbol, b);
    }

    method AddBook(symbol: string, b: OrderBook)
      requires BooksOk(orderBooks[symbol := b])
      modifies this`orderBooks
      ensures BooksOk(orderBooks) && orderBooks == old(orderBooks[symbol := b])
      ensures AbsOf(orderBooks) == old(AbsOf(orderBooks[symbol := b]))
      ensures LevelsOf(orderBooks) == old(LevelsOf(orderBooks[symbol := b]))
      ensures IndexesOf(orderBooks) == old(IndexesOf(orderBooks[symbol := b])) && b.Abs() == old(b.Abs())
    {
      hide *;
      ghost var more := orderBooks[symbol := b];
      BooksOkIs(more);
      SoundBooks(more);
      assert more[symbol] == b;
      orderBooks := orderBooks[symbol := b];
      KeepBooks(more);
      BookKept(b);
    }

    lemma BookForIsProper(symbol: string)
      requires BooksOk(orderBooks)
      ensures Proper(BookFor(symbol))
    {
      hide OrderBook.Sound, OrderBook.Abs, Proper;
      EmptyIsProper();
      if symbol in orderBooks {
        orderBooks[symbol].SoundIs();
      }
    }

    lemma BookForIs(symbol: string)
      ensures BookFor(symbol) == if symbol in orderBooks then orderBooks[symbol].Abs() else Book([], [])
    {
    }


    lemma ValidIs()
      ensures Valid() <==>
                && BooksOk(orderBooks) && |orders| == orderIDSeq && AllKnown(orders, IndexesOf(orderBooks))
                && Booked(orders, Fills(orders), history) && Parties(orders, history)
    {
      hide BooksOk, AllKnown, Booked, Parties;
    }

    /** The order gets the next id. */
    method NextOrder(r: Request) returns (order: Order)
      requires BooksOk(orderBooks)
      modifies this`orderIDSeq
      ensures orderIDSeq == old(orderIDSeq) + 1 && LevelsOf(orderBooks) == old(LevelsOf(orderBooks))
      ensures fresh(order) && order.terms == TermsOf(orderIDSeq, r) && order.filledQty == 0 && order.status == New
      ensures BooksOk(orderBooks) && AbsOf(orderBooks) == old(AbsOf(orderBooks))
              && IndexesOf(orderBooks) == old(IndexesOf(orderBooks))
    {
      hide *;
      SoundBooks(orderBooks);
      orderIDSeq := orderIDSeq + 1;
      KeepBooks(orderBooks);
      order := NewOrder(orderBooks, TermsOf(orderIDSeq, r));
    }

    /** The book of a symbol, opened if need be. */
    method BookOf(symbol: string) returns (b: OrderBook)
      requires BooksOk(orderBooks) && AllKnown(orders, IndexesOf(orderBooks))
      modifies this`orderBooks
      ensures BooksOk(orderBooks) && AllKnown(orders, IndexesOf(orderBooks))
      ensures symbol in orderBooks && orderBooks.Keys == old(orderBooks.Keys) + {symbol}
      ensures orderBooks.Values <= old(orderBooks.Values) + {b} && (b in old(orderBooks.Values) || fresh(b))
      ensures AbsOf(orderBooks) == old(AbsOf(orderBooks))[symbol := old(BookFor(symbol))]
      ensures LevelsOf(orderBooks) <= old(LevelsOf(orderBooks))
    {
      hide *;
      ghost var indexes := IndexesOf(orderBooks);
      b := GetOrCreateOrderBook(symbol);
      AllKnownWith(orders, indexes, symbol, b.orderMap);
    }

    /** The order goes to the book that its symbol has, which may open levels `more`. */
    method PassOn(order: Order) returns (trades: seq<Trade>, ghost more: set<PriceLevel>)
      requires BooksOk(orderBooks) && AllKnown(orders, IndexesOf(orderBooks)) && order.terms.symbol in orderBooks
      requires Booked(orders, Fills(orders), history) && Parties(orders, history)
      requires order.terms.id == |orders| + 1 && order !in orders && order.filledQty == 0 && order.status == New
      modifies orderBooks.Values, LevelsOf(orderBooks)`orders, orders`filledQty, orders`status
      modifies order`filledQty, order`status
      ensures BooksOk(orderBooks) && fresh(more) && LevelsOf(orderBooks) <= old(LevelsOf(orderBooks)) + more
      ensures ReferenceBook.Submit(old(AbsOf(orderBooks))[order.terms.symbol], order.terms)
              == Submitted(trades, AbsOf(orderBooks)[order.terms.symbol], order.RemainingQty())
      ensures order.status == StatusAfter(order)
      ensures AbsOf(orderBooks) == old(AbsOf(orderBooks))[order.terms.symbol := AbsOf(orderBooks)[order.terms.symbol]]
      ensures AllKnown(orders + [order], IndexesOf(orderBooks))
      ensures Booked(orders + [order], Fills(orders + [order]), history + trades)
              && Parties(orders + [order], history + trades)
    {
      hide *;
      var b := orderBooks[order.terms.symbol];
      LevelsAre(orderBooks);
      IndexedAreSubmitted(orders, IndexesOf(orderBooks), order.terms.symbol);
      trades := SubmitBooked(orderBooks, b, order, orders, history);
      more := LevelsOf(orderBooks) - old(LevelsOf(orderBooks));
    }

    /** The order goes to the book of its symbol. */
    method Route(order: Order) returns (trades: seq<Trade>)
      requires BooksOk(orderBooks) && AllKnown(orders, IndexesOf(orderBooks))
      requires Booked(orders, Fills(orders), history) && Parties(orders, history)
      requires order.terms.id == |orders| + 1 && order !in orders && order.filledQty == 0 && order.status == New
      modifies this`orderBooks, orderBooks.Values, LevelsOf(orderBooks)`orders, orders`filledQty, orders`status
      modifies order`filledQty, order`status
      ensures BooksOk(orderBooks) && order.terms.symbol in orderBooks
      ensures orderBooks.Keys == old(orderBooks.Keys) + {order.terms.symbol}
      ensures fresh(orderBooks.Values - old(orderBooks.Values))
      ensures fresh(LevelsOf(orderBooks) - old(LevelsOf(orderBooks)))
      ensures ReferenceBook.Submit(old(BookFor(order.terms.symbol)), order.terms)
              == Submitted(trades, AbsOf(orderBooks)[order.terms.symbol], order.RemainingQty())
      ensures order.status == StatusAfter(order)
      ensures AbsOf(orderBooks) == old(AbsOf(orderBooks))[order.terms.symbol := AbsOf(orderBooks)[order.terms.symbol]]
      ensures AllKnown(orders + [order], IndexesOf(orderBooks))
      ensures Booked(orders + [order], Fills(orders + [order]), history + trades)
              && Parties(orders + [order], history + trades)
    {
      hide *;
      ghost var abs := AbsOf(orderBooks);
      var b := BookOf(order.terms.symbol);
      ghost var first := AbsOf(orderBooks)[order.terms.symbol];
      ghost var more;
      trades, more := PassOn(order);
      UpdateTwice(abs, order.terms.symbol, first, AbsOf(orderBooks)[order.terms.symbol]);
    }

    /** The submission enters the engine's records. */
    ghost method Record(order: Order, trades: seq<Trade>)
      requires BooksOk(orderBooks) && |orders| + 1 == orderIDSeq && AllKnown(orders + [order], IndexesOf(orderBooks))
      requires Booked(orders + [order], Fills(orders + [order]), history + trades)
               && Parties(orders + [order], history + trades)
      modifies this`orders, this`history
      ensures Valid() && AbsOf(orderBooks) == old(AbsOf(orderBooks))
      ensures LevelsOf(orderBooks) == old(LevelsOf(orderBooks))
      ensures orders == old(orders) + [order] && history == old(history) + trades
    {
      hide *;
      SoundBooks(orderBooks);
      orders, history := orders + [order], history + trades;
      KeepBooks(orderBooks);
      ValidIs();
    }

    /** A new order goes to the book of its symbol and enters the engine's records. */
    method Enter(order: Order) returns (trades: seq<Trade>)
      requires BooksOk(orderBooks) && AllKnown(orders, IndexesOf(orderBooks))
      requires Booked(orders, Fills(orders), history) && Parties(orders, history)
      requires orderIDSeq == order.terms.id == |orders| + 1 && order !in orders
      requires order.filledQty == 0 && order.status == New
      modifies this`orderBooks, this`orders, this`history
      modifies orderBooks.Values, LevelsOf(orderBooks)`orders, orders`filledQty, orders`status
      modifies order`filledQty, order`status
      ensures Valid() && orders == old(orders) + [order] && history == old(history) + trades
      ensures order.terms.symbol in orderBooks && orderBooks.Keys == old(orderBooks.Keys) + {order.terms.symbol}
      ensures fresh(orderBooks.Values - old(orderBooks.Values))
      ensures fresh(LevelsOf(orderBooks) - old(LevelsOf(orderBooks)))
      ensures ReferenceBook.Submit(old(BookFor(order.terms.symbol)), order.terms)
              == Submitted(trades, AbsOf(orderBooks)[order.terms.symbol], order.RemainingQty())
      ensures order.status == StatusAfter(order)
      ensures AbsOf(orderBooks) == old(AbsOf(orderBooks))[order.terms.symbol := AbsOf(orderBooks)[order.terms.symbol]]
    {
      hide *;
      trades := Route(order);
      Record(order, trades);
    }

    /** The order gets the next id, goes to its symbol's book, and does there what the reference matcher
        does; no other book changes. */
    method SubmitOrder(r: Request) returns (order: Order, trades: seq<Trade>)
      requires Valid()
      modifies this, orderBooks.Values, LevelsOf(orderBooks)`orders, orders`filledQty, orders`status
      ensures Valid()
      ensures orderIDSeq == old(orderIDSeq) + 1
      ensures order.terms == Terms(orderIDSeq, r.symbol, r.side, r.otype, r.price, r.quantity) == TermsOf(orderIDSeq, r)
      ensures fresh(order) && orders == old(orders) + [order] && history == old(history) + trades
      ensures r.symbol in orderBooks && orderBooks.Keys == old(orderBooks.Keys) + {r.symbol}
      ensures fresh(orderBooks.Values - old(orderBooks.Values))
      ensures fresh(LevelsOf(orderBooks) - old(LevelsOf(orderBooks)))
      ensures ReferenceBook.Submit(old(BookFor(r.symbol)), order.terms)
              == Submitted(trades, AbsOf(orderBooks)[r.symbol], order.RemainingQty())
      ensures order.status == StatusAfter(order)
      ensures var far := Opposite(r.side);
              Answered(order.terms, SideOf(old(BookFor(r.symbol)), far), trades,
                       SideOf(AbsOf(orderBooks)[r.symbol], far), order.RemainingQty())
      ensures NamedWhenBuying(orders, order.terms, trades)
      ensures AbsOf(orderBooks) == old(AbsOf(orderBooks))[r.symbol := AbsOf(orderBooks)[r.symbol]]
    {
      hide *;
      ValidIs();
      BookForIs(r.symbol);
      BookForIsProper(r.symbol);
      ghost var past, b := history, BookFor(r.symbol);
      order := NextOrder(r);
      BookForIs(r.symbol);
      TermsAre(orderIDSeq, r);
      ghost var levels, books := LevelsOf(orderBooks), orderBooks.Values;
      label L:
      trades := Enter(order);
      forall l | l in LevelsOf(orderBooks) && l !in levels ensures fresh(l) {
        assert l in LevelsOf(orderBooks) - levels && fresh@L(l);
      }
      forall b | b in orderBooks.Values && b !in books ensures fresh(b) {
        assert b in orderBooks.Values - books && fresh@L(b);
      }
      ValidIs();
      NamesAre(orders, past, b, order.terms, trades);
      SubmitAnswers(b, order.terms);
    }

    /** A cancel reaches the book of the named symbol only, and the order rests there or nothing changes. */
    method CancelOrder(symbol: string, id: nat) returns (r: CancelResult)
      requires Valid()
      modifies orderBooks.Values, LevelsOf(orderBooks)`orders, orders`status
      ensures Valid()
      ensures var held := Held(old(BookFor(symbol)), id); r == if held > 0 then Done(held) else Refused(AlreadyFilled)
      ensures LevelsOf(orderBooks) <= old(LevelsOf(orderBooks))
      ensures r.Done? <==> symbol in orderBooks && id in old(IndexesOf(orderBooks))[symbol]
      ensures r.Done? ==>
                && 1 <= id <= |orders| && orders[id - 1].terms.symbol == symbol
                && orders[id - 1].status == Status.Cancelled
                && r.cancelledQty == orders[id - 1].RemainingQty() > 0
                && AbsOf(orderBooks)
                   == old(AbsOf(orderBooks))[symbol := ReferenceBook.Cancel(old(AbsOf(orderBooks))[symbol], id)]
      ensures r.Refused? ==> r.error == AlreadyFilled && AbsOf(orderBooks) == old(AbsOf(orderBooks))
    {
      hide *;
      ValidIs();
      BookForIs(symbol);
      NothingHeld(id);
      if symbol !in orderBooks {
        return Refused(AlreadyFilled);
      }
      LevelsAre(orderBooks);
      IndexedIsSubmitted(orderBooks, symbol, orders, id);
      ghost var abs, indexes, f0 := AbsOf(orderBooks), IndexesOf(orderBooks), Fills(orders);
      r := CancelIn(orderBooks, orderBooks[symbol], id);
      assert Fills(orders) == f0;
      KnownAfterCancel(orders, indexes, abs, symbol, id, orderBooks[symbol].Abs(), orderBooks[symbol].orderMap);
      ValidIs();
    }
  }

  lemma KnownAfterCancel(os: seq<Order>, indexes: map<string, Index>, abs: map<string, Book>, symbol: string, id: nat,
                         abs1: Book, index1: Index)
    requires AllKnown(os, indexes) && symbol in indexes && symbol in abs
    requires Cancelled(id, abs[symbol], indexes[symbol], abs1, index1)
    ensures AllKnown(os, indexes[symbol := index1])
    ensures abs[symbol := abs1]
            == if id in indexes[symbol] then abs[symbol := ReferenceBook.Cancel(abs[symbol], id)] else abs
  {
    hide AllKnown, Within, ReferenceBook.Cancel;
    CancelledShrinks(id, abs[symbol], indexes[symbol], abs1, index1);
    AllKnownShrinks(os, indexes, symbol, index1);
    SameMap(abs[symbol := abs[symbol]], abs);
  }

  lemma AllKnownShrinks(os: seq<Order>, indexes: map<string, Index>, symbol: string, index: Index)
    requires AllKnown(os, indexes) && symbol in indexes && Within(index, indexes[symbol])
    ensures AllKnown(os, indexes[symbol := index])
  {
  }

  lemma TermsAre(id: nat, r: Request)
    ensures TermsOf(id, r) == Terms(id, r.symbol, r.side, r.otype, r.price, r.quantity)
  {
  }

  lemma AllKnownWith(os: seq<Order>, indexes: map<string, Index>, symbol: string, index: Index)
    requires AllKnown(os, indexes) && index == if symbol in indexes then indexes[symbol] else map[]
    ensures AllKnown(os, indexes[symbol := index])
  {
  }

  lemma IndexedAreSubmitted(os: seq<Order>, indexes: map<string, Index>, symbol: string)
    requires AllKnown(os, indexes) && symbol in indexes
    ensures forall x | x in indexes[symbol].Values :: x in os
  {
    assert Known(os, symbol, indexes[symbol]);
    forall x | x in indexes[symbol].Values ensures x in os {
      var id := KeyOf(indexes[symbol], x);
      assert os[id - 1] == x;
    }
  }
}
