/** The limit order book of one symbol: two heaps of price levels, two price maps, a queue of orders in
    every level and an index of resting orders, all updated in place. */
module OrderBooks {
  import opened Orders
  import opened ReferenceBook
  import opened BookShape
  import opened Collections
  import Heap = ContainerHeap

  class PriceLevel {
    const price: int
    ghost const side: Side
    ghost const owner: OrderBook
    var orders: seq<Order>

    constructor (price: int, ghost side: Side, ghost owner: OrderBook)
      ensures this.price == price && this.side == side && this.owner == owner && orders == []
    {
      this.price := price;
      this.side := side;
      this.owner := owner;
      orders := [];
    }
  }

  /** Heap order of a side: highest price first for bids, lowest first for asks. */
  function Rank(s: Side, price: int): int {
    if s == Buy then -price else price
  }

  function Key(s: Side): PriceLevel -> int {
    (l: PriceLevel) => Rank(s, l.price)
  }

  ghost function View(o: Order): (r: Resting)
    reads o`filledQty
    ensures r.id == o.terms.id && r.price == o.terms.price && r.rem == o.RemainingQty()
  {
    Resting(o.terms.id, o.terms.price, o.RemainingQty())
  }

  ghost function Rest(os: seq<Order>): (r: seq<Resting>)
    reads os`filledQty
    ensures |r| == |os| && forall i | 0 <= i < |os| :: r[i] == View(os[i])
  {
    if os == [] then [] else [View(os[0])] + Rest(os[1..])
  }

  lemma RestAppend(a: seq<Order>, b: seq<Order>)
    ensures Rest(a + b) == Rest(a) + Rest(b)
  {
  }

  /** A flattened side holds at each price what the queue of that price holds. */
  lemma {:induction false} DepthOfFlat(s: Side, q: Queues, p: int)
    requires Priced(q)
    ensures DepthAt(Rest(Flatten(s, q)), p) == if p in q then TotalRem(Rest(q[p])) else 0
    decreases q.Keys
  {
    if q != map[] {
      assert |q.Keys| > 0;
      var b := BestPrice(s, q.Keys);
      DepthOfFlat(s, q - {b}, p);
      RestAppend(q[b], Flatten(s, q - {b}));
      DepthAppend(Rest(q[b]), Rest(Flatten(s, q - {b})), p);
      DepthOfOne(Rest(q[b]), b, p);
    }
  }

  lemma {:induction false} HeldOfNone(l: seq<Order>, id: nat)
    requires forall k | 0 <= k < |l| :: l[k].terms.id != id
    ensures RemOf(Rest(l), id) == 0
  {
    if l != [] {
      HeldOfNone(l[1..], id);
      assert Rest(l)[1..] == Rest(l[1..]);
    }
  }

  lemma {:induction false} HeldOfOne(l: seq<Order>, i: nat, id: nat)
    requires i < |l| && l[i].terms.id == id && forall k | 0 <= k < |l| && k != i :: l[k].terms.id != id
    ensures RemOf(Rest(l), id) == l[i].RemainingQty()
  {
    assert Rest(l)[1..] == Rest(l[1..]);
    if i == 0 {
      HeldOfNone(l[1..], id);
    } else {
      HeldOfOne(l[1..], i - 1, id);
    }
  }

  lemma {:induction false} HeldOfNowhere(s: Side, q: Queues, id: nat)
    requires forall x, k | x in q && 0 <= k < |q[x]| :: q[x][k].terms.id != id
    ensures RemOf(Rest(Flatten(s, q)), id) == 0
    decreases q.Keys
  {
    if q != map[] {
      assert |q.Keys| > 0;
      var b := BestPrice(s, q.Keys);
      HeldOfNowhere(s, q - {b}, id);
      HeldOfNone(q[b], id);
      RestAppend(q[b], Flatten(s, q - {b}));
      RemOfAppend(Rest(q[b]), Rest(Flatten(s, q - {b})), id);
    }
  }

  /** A side's list holds of an order what is left of it where it is queued. */
  lemma {:induction false} HeldOfFlat(s: Side, q: Queues, p: int, i: nat, id: nat)
    requires OnlyAt(q, p, i, id)
    ensures RemOf(Rest(Flatten(s, q)), id) == q[p][i].RemainingQty()
    decreases q.Keys
  {
    assert |q.Keys| > 0;
    var b := BestPrice(s, q.Keys);
    RestAppend(q[b], Flatten(s, q - {b}));
    RemOfAppend(Rest(q[b]), Rest(Flatten(s, q - {b})), id);
    if b == p {
      HeldOfOne(q[b], i, id);
      HeldOfNowhere(s, q - {b}, id);
    } else {
      HeldOfNone(q[b], id);
      assert OnlyAt(q - {b}, p, i, id);
      HeldOfFlat(s, q - {b}, p, i, id);
    }
  }

  /** Still to be filled. */
  ghost predicate Rests(o: Order)
    reads o`filledQty, o`status
  {
    o.IsActive() && 0 <= o.filledQty < o.terms.quantity
  }

  lemma RestsMeans(o: Order)
    requires Rests(o)
    ensures o.IsActive() && o.RemainingQty() > 0
  {
  }

  /** A queue whose first `k` orders are done and whose others still rest. */
  ghost predicate SplitAt(q: seq<Order>, k: nat)
    reads q`filledQty, q`status
  {
    && k <= |q|
    && (forall i | 0 <= i < k :: !q[i].IsActive())
    && (forall i | k <= i < |q| :: Rests(q[i]))
  }

  ghost function Fills(q: seq<Order>): (f: seq<int>)
    reads q`filledQty
    ensures |f| == |q| && forall i | 0 <= i < |q| :: f[i] == q[i].filledQty
  {
    if q == [] then [] else [q[0].filledQty] + Fills(q[1..])
  }

  lemma SameQueues(levels: map<int, PriceLevel>, q: Queues)
    requires levels.Keys == q.Keys && forall p | p in levels :: levels[p].orders == q[p]
    ensures QueuesOf(levels) == q
  {
    var r := QueuesOf(levels);
    assert forall p | p in r :: r[p] == q[p];
    SameMap(r, q);
  }

  ghost predicate Distinct(q: seq<Order>) {
    forall i, j | 0 <= i < j < |q| :: q[i].terms.id != q[j].terms.id
  }

  /** Each order of a queue was filled, since `f0`, by exactly the trades that name it. */
  ghost predicate Accounted(q: seq<Order>, f0: seq<int>, f1: seq<int>, ts: seq<Trade>) {
    |f0| == |f1| == |q| && forall i | 0 <= i < |q| :: f1[i] == f0[i] + Traded(ts, q[i].terms.id)
  }

  lemma AccountedNext(q: seq<Order>, f0: seq<int>, f1: seq<int>, ts: seq<Trade>, t: Terms, k: nat, trade: Trade)
    requires Accounted(q, f0, f1, ts) && Fillable(t, q) && k < |q|
    requires trade == NewTrade(t, q[k].terms.id, q[k].terms.price, trade.quantity)
    ensures Accounted(q, f0, f1[k := f1[k] + trade.quantity], ts + [trade])
  {
    forall i | 0 <= i < |q| ensures Traded(ts + [trade], q[i].terms.id)
        == Traded(ts, q[i].terms.id) + (if i == k then trade.quantity else 0) {
      TradedPush(ts, trade, q[i].terms.id);
    }
  }

  ghost function QueuesOf(levels: map<int, PriceLevel>): (q: Queues)
    reads levels.Values`orders
    ensures q.Keys == levels.Keys && forall p | p in levels :: q[p] == levels[p].orders
  {
    map p | p in levels :: levels[p].orders
  }

  lemma ValuesWithout(levels: map<int, PriceLevel>, p: int)
    requires p in levels && forall x | x in levels :: levels[x].price == x
    ensures multiset((levels - {p}).Values) == multiset(levels.Values) - multiset{levels[p]}
  {
    forall l: PriceLevel ensures l in (levels - {p}).Values <==> l in levels.Values && l != levels[p] {
      if l in (levels - {p}).Values {
        var x := KeyOf(levels - {p}, l);
        assert levels[x] == l;
      }
      if l in levels.Values && l != levels[p] {
        var x := KeyOf(levels, l);
        assert x in levels - {p} && (levels - {p})[x] == l;
      }
    }
  }

  lemma ValuesWith(levels: map<int, PriceLevel>, p: int, l: PriceLevel)
    requires p !in levels && l.price == p && forall x | x in levels :: levels[x].price == x
    ensures multiset(levels[p := l].Values) == multiset(levels.Values) + multiset{l}
  {
    assert levels[p := l].Values == levels.Values + {l} by {
      forall x | x in levels ensures levels[x] in levels[p := l].Values {
        assert levels[p := l][x] == levels[x];
      }
      assert levels[p := l][p] == l;
    }
    if l in levels.Values {
      var x := KeyOf(levels, l);
      assert false;
    }
  }

  lemma {:induction false} RestInsert(s: Side, l: seq<Order>, o: Order)
    ensures Rest(InsertOrder(s, l, o)) == Insert(s, Rest(l), View(o))
    decreases |l|
  {
    if l == [] || Better(s, o.terms.price, l[0].terms.price) {
      assert Rest([o] + l) == [View(o)] + Rest(l);
    } else {
      RestInsert(s, l[1..], o);
      assert Rest(l)[1..] == Rest(l[1..]);
      assert Rest([l[0]] + InsertOrder(s, l[1..], o)) == [View(l[0])] + Rest(InsertOrder(s, l[1..], o));
    }
  }

  lemma {:induction false} RestWithout(l: seq<Order>, id: nat)
    ensures Rest(WithoutOrder(l, id)) == Without(Rest(l), id)
    decreases |l|
  {
    if l != [] {
      assert Rest(l)[1..] == Rest(l[1..]);
      if l[0].terms.id != id {
        RestWithout(l[1..], id);
        assert Rest([l[0]] + WithoutOrder(l[1..], id)) == [View(l[0])] + Rest(WithoutOrder(l[1..], id));
      }
    }
  }

  function Prepend(ts: seq<Trade>, m: Matched): Matched {
    Matched(ts + m.trades, m.rest, m.rem)
  }

  lemma PrependIs(ts: seq<Trade>, m: Matched)
    ensures Prepend(ts, m) == Matched(ts + m.trades, m.rest, m.rem)
  {
  }

  /** The list after its first order gave up `m`. */
  function Consume(l: seq<Resting>, m: int): seq<Resting>
    requires l != []
  {
    if m == l[0].rem then l[1..] else [l[0].(rem := l[0].rem - m)] + l[1..]
  }

  lemma MatchStep(t: Terms, whole: Matched, done: seq<Trade>, l: seq<Resting>, rem: int)
    requires l != [] && rem > 0 && l[0].rem > 0 && Crosses(t, l[0].price)
    requires whole == Prepend(done, Match(t, l, rem))
    ensures var m := Min(rem, l[0].rem);
            whole == Prepend(done + [NewTrade(t, l[0].id, l[0].price, m)], Match(t, Consume(l, m), rem - m))
  {
    var m := Min(rem, l[0].rem);
    var trade := NewTrade(t, l[0].id, l[0].price, m);
    var tail := Match(t, Consume(l, m), rem - m);
    assert done + ([trade] + tail.trades) == done + [trade] + tail.trades;
  }

  lemma IdsOfNext(index: Index, q: seq<Order>, k: nat)
    requires k < |q|
    ensures index - IdsOf(q[..k + 1]) == index - IdsOf(q[..k]) - {q[k].terms.id}
  {
    assert q[..k + 1] == q[..k] + [q[k]];
    forall id | id in IdsOf(q[..k]) + {q[k].terms.id} ensures id in IdsOf(q[..k + 1]) {
      if id in IdsOf(q[..k]) {
        var i :| 0 <= i < k && q[..k][i].terms.id == id;
        assert q[..k + 1][i].terms.id == id;
      } else {
        assert q[..k + 1][k].terms.id == id;
      }
    }
  }

  /** A queue of distinct resting orders that the taker accepts. */
  ghost predicate Fillable(t: Terms, q: seq<Order>) {
    Distinct(q) && forall i | 0 <= i < |q| :: q[i].terms.id != t.id && Crosses(t, q[i].terms.price)
  }

  /** Every trade is between the given taker and one of the given makers, at the maker's price. */
  ghost predicate Names(ts: seq<Trade>, t: Terms, makers: seq<Order>) {
    forall j | 0 <= j < |ts| ::
      ts[j].buyOrderId == t.id && ts[j].symbol == t.symbol && IsMaker(ts[j], makers) && ts[j].quantity > 0
  }

  ghost predicate IsMaker(t: Trade, makers: seq<Order>) {
    exists i :: 0 <= i < |makers| && makers[i].terms.id == t.sellOrderId && makers[i].terms.price == t.price
  }

  lemma NoTrades(t: Terms, q: seq<Order>)
    ensures Names([], t, q) && Accounted(q, Fills(q), Fills(q), [])
  {
  }

  lemma NamesPush(ts: seq<Trade>, trade: Trade, t: Terms, q: seq<Order>, k: nat)
    requires Names(ts, t, q) && k < |q| && trade.quantity > 0
    requires trade == NewTrade(t, q[k].terms.id, q[k].terms.price, trade.quantity)
    ensures Names(ts + [trade], t, q)
  {
    assert q[k].terms.price == trade.price && IsMaker(trade, q);
  }

  ghost function FillMap(index: Index): (f: map<nat, int>)
    reads index.Values`filledQty
    ensures f.Keys == index.Keys && forall id | id in index :: f[id] == index[id].filledQty
  {
    map id | id in index :: index[id].filledQty
  }

  lemma SameFills(index: Index, f: map<nat, int>)
    requires f.Keys == index.Keys && forall id | id in index :: index[id].filledQty == f[id]
    ensures FillMap(index) == f
  {
    var r := FillMap(index);
    assert forall id | id in r :: r[id] == f[id];
    SameMap(r, f);
  }

  /** Every indexed order was filled, from `f0` to `f1`, by exactly the trades that name it. */
  ghost predicate Ledger(f0: map<nat, int>, f1: map<nat, int>, ts: seq<Trade>) {
    f0.Keys == f1.Keys && forall id | id in f0 :: f1[id] == f0[id] + Traded(ts, id)
  }

  /** Every trade is between the taker and an order indexed on the other side of the book, at that order's own
      price. */
  ghost predicate Between(ts: seq<Trade>, t: Terms, index: Index) {
    forall j | 0 <= j < |ts| ::
      && ts[j].buyOrderId == t.id && ts[j].symbol == t.symbol && ts[j].sellOrderId in index && ts[j].quantity > 0
      && index[ts[j].sellOrderId].terms.side == Opposite(t.side)
      && ts[j].price == index[ts[j].sellOrderId].terms.price
  }

  lemma NothingTraded(f: map<nat, int>, t: Terms, index: Index)
    ensures Ledger(f, f, []) && Between([], t, index)
  {
  }

  lemma LedgerAppend(f0: map<nat, int>, f1: map<nat, int>, f2: map<nat, int>, a: seq<Trade>, b: seq<Trade>)
    requires Ledger(f0, f1, a) && Ledger(f1, f2, b)
    ensures Ledger(f0, f2, a + b)
  {
    forall id | id in f0 ensures Traded(a + b, id) == Traded(a, id) + Traded(b, id) {
      TradedAppend(a, b, id);
    }
  }

  /** Trades with the orders of one queue, booked on the whole index. */
  lemma QueueLedger(index: Index, q: seq<Order>, f0: map<nat, int>, f1: map<nat, int>, g0: seq<int>, g1: seq<int>,
                    ts: seq<Trade>, t: Terms)
    requires Accounted(q, g0, g1, ts) && Names(ts, t, q) && t.id !in index
    requires f0.Keys == f1.Keys == index.Keys && Keyed(index)
    requires forall o | o in q :: o.terms.id in index && index[o.terms.id] == o && o.terms.side == Opposite(t.side)
    requires forall i | 0 <= i < |q| :: f0[q[i].terms.id] == g0[i] && f1[q[i].terms.id] == g1[i]
    requires forall id | id in index && index[id] !in q :: f1[id] == f0[id]
    ensures Ledger(f0, f1, ts) && Between(ts, t, index)
  {
    forall id | id in f0 ensures f1[id] == f0[id] + Traded(ts, id) {
      if index[id] in q {
        var i :| 0 <= i < |q| && q[i] == index[id];
        assert q[i].terms.id == id;
      } else {
        forall j | 0 <= j < |ts| ensures ts[j].sellOrderId != id {
          assert IsMaker(ts[j], q);
          var i :| 0 <= i < |q| && q[i].terms.id == ts[j].sellOrderId;
          assert q[i] in q;
        }
        TradedElsewhere(ts, id);
      }
    }
    forall j | 0 <= j < |ts|
      ensures ts[j].sellOrderId in index && index[ts[j].sellOrderId].terms.side == Opposite(t.side)
      ensures ts[j].price == index[ts[j].sellOrderId].terms.price
    {
      assert IsMaker(ts[j], q);
      var i :| 0 <= i < |q| && q[i].terms.id == ts[j].sellOrderId && q[i].terms.price == ts[j].price;
      assert q[i] in q;
    }
  }

  /** The status an uncancelled order has by its filled quantity. */
  ghost function StatusAfter(o: Order): Status
    reads o`filledQty
  {
    StatusFor(o.filledQty, o.terms.quantity)
  }

  /** Every level of a map is filed under its own price, for one side of one book. */
  ghost predicate Filed(levels: map<int, PriceLevel>, s: Side, owner: OrderBook) {
    forall p | p in levels :: levels[p].price == p && levels[p].side == s && levels[p].owner == owner
  }

  lemma FiledWithout(levels: map<int, PriceLevel>, s: Side, owner: OrderBook, p: int)
    requires Filed(levels, s, owner) && p in levels
    ensures Filed(levels - {p}, s, owner)
    ensures multiset((levels - {p}).Values) == multiset(levels.Values) - multiset{levels[p]}
  {
    ValuesWithout(levels, p);
  }

  lemma FiledWith(levels: map<int, PriceLevel>, s: Side, owner: OrderBook, p: int, l: PriceLevel)
    requires Filed(levels, s, owner) && p !in levels && l.price == p && l.side == s && l.owner == owner
    ensures Filed(levels[p := l], s, owner)
    ensures multiset(levels[p := l].Values) == multiset(levels.Values) + multiset{l}
  {
    ValuesWith(levels, p, l);
  }

  lemma MatchNothingYet(index: Index, q: seq<Order>, m: Matched)
    ensures q[0..] == q && index - IdsOf(q[..0]) == index && Prepend([], m) == m
  {
    assert IdsOf(q[..0]) == {};
  }

  lemma MatchDone(t: Terms, done: seq<Trade>, l: seq<Resting>, rem: int)
    requires rem <= 0 || l == []
    ensures Prepend(done, Match(t, l, rem)) == Matched(done, l, rem)
  {
  }

  datatype CancelResult = Done(cancelledQty: int) | Refused(error: OrderError)

  /** Levels and index entries only disappear. */
  ghost predicate Shrunk(levels0: map<int, PriceLevel>, levels1: map<int, PriceLevel>, index0: Index, index1: Index) {
    && levels1.Keys <= levels0.Keys && levels1.Values <= levels0.Values
    && index1.Values <= index0.Values && Within(index1, index0)
  }

  ghost predicate Within(index: Index, index0: Index) {
    forall id | id in index :: id in index0 && index[id] == index0[id]
  }

  lemma WithinMeans(index: Index, index0: Index)
    requires Within(index, index0)
    ensures forall id | id in index :: id in index0 && index[id] == index0[id]
  {
  }

  ghost predicate Keyed(index: Index) {
    forall id | id in index :: index[id].terms.id == id
  }

  lemma ShrunkMeans(levels0: map<int, PriceLevel>, levels1: map<int, PriceLevel>, index0: Index, index1: Index)
    requires Shrunk(levels0, levels1, index0, index1)
    ensures levels1.Keys <= levels0.Keys && levels1.Values <= levels0.Values
    ensures index1.Keys <= index0.Keys && index1.Values <= index0.Values && Within(index1, index0)
  {
  }

  lemma ShrunkTwice(levels0: map<int, PriceLevel>, levels1: map<int, PriceLevel>, levels2: map<int, PriceLevel>,
                    index0: Index, index1: Index, index2: Index)
    requires Shrunk(levels0, levels1, index0, index1) && Shrunk(levels1, levels2, index1, index2)
    ensures Shrunk(levels0, levels2, index0, index2)
  {
  }

  lemma BetweenAppend(a: seq<Trade>, b: seq<Trade>, t: Terms, index: Index)
    requires Between(a, t, index) && Between(b, t, index)
    ensures Between(a + b, t, index)
  {
  }

  lemma PrependTwice(a: seq<Trade>, b: seq<Trade>, m: Matched)
    ensures Prepend(a, Prepend(b, m)) == Prepend(a + b, m)
  {
    assert a + (b + m.trades) == a + b + m.trades;
  }

  lemma SweepShrinks(levels: map<int, PriceLevel>, index: Index, p: int, k: nat, q: seq<Order>, before: seq<Resting>,
                     t: Terms, r0: int, ts: seq<Trade>, rest: seq<Resting>, rem: int)
    requires p in levels && k <= |q| && |rest| == |q| - k
    requires Match(t, before, r0) == Matched(ts, rest, rem)
    requires Positive(before) && forall i | 0 <= i < |before| :: Crosses(t, before[i].price)
    ensures var levels1 := if k == |q| then levels - {p} else levels;
            && Shrunk(levels, levels1, index, index - IdsOf(q[..k]))
            && (rem > 0 ==> levels1.Keys < levels.Keys)
  {
    MatchIsMaximal(t, before, r0);
    if rem > 0 && rest != [] {
      MatchRestAt(t, before, r0, 0);
    }
    assert p !in levels - {p};
  }

  class OrderBook {
    const symbol: string
    var bids: seq<PriceLevel>
    var asks: seq<PriceLevel>
    var bidMap: map<int, PriceLevel>
    var askMap: map<int, PriceLevel>
    var orderMap: map<nat, Order>

    function HeapOf(s: Side): seq<PriceLevel>
      reads this`bids, this`asks
    {
      if s == Buy then bids else asks
    }

    function MapOf(s: Side): map<int, PriceLevel>
      reads this`bidMap, this`askMap
    {
      if s == Buy then bidMap else askMap
    }

    /** The price map and the heap of a side hold the same levels, each under its own price. */
    ghost predicate LevelsOk(s: Side)
      reads this`bids, this`asks, this`bidMap, this`askMap
    {
      && Heap.IsHeap(HeapOf(s), Key(s))
      && multiset(HeapOf(s)) == multiset(MapOf(s).Values)
      && Filed(MapOf(s), s, this)
    }

    ghost predicate Valid()
      reads this, bidMap.Values`orders, askMap.Values`orders, orderMap.Values`filledQty, orderMap.Values`status
    {
      && LevelsOk(Buy) && LevelsOk(Sell)
      && ShapeOk(symbol, orderMap, QueuesOf(bidMap), QueuesOf(askMap))
      && forall id | id in orderMap :: Rests(orderMap[id])
    }

    ghost function ListOf(s: Side): (l: seq<Order>)
      reads this`bidMap, this`askMap, MapOf(s).Values`orders
      ensures l == Flatten(s, QueuesOf(MapOf(s)))
    {
      Flatten(s, QueuesOf(MapOf(s)))
    }

    /** The reference book this book stands for. */
    ghost function Abs(): Book
      reads this`bidMap, this`askMap, bidMap.Values`orders, askMap.Values`orders
      reads ListOf(Buy)`filledQty, ListOf(Sell)`filledQty
    {
      Book(Rest(ListOf(Buy)), Rest(ListOf(Sell)))
    }

    constructor (symbol: string)
      ensures this.symbol == symbol && Valid() && Abs() == Book([], [])
      ensures orderMap == map[] && bidMap == map[] && askMap == map[]
    {
      this.symbol := symbol;
      bids, asks := [], [];
      bidMap, askMap := map[], map[];
      orderMap := map[];
    }

    method SetSide(s: Side, heap: seq<PriceLevel>, levels: map<int, PriceLevel>)
      modifies this`bids, this`asks, this`bidMap, this`askMap
      ensures HeapOf(s) == heap && MapOf(s) == levels
      ensures HeapOf(Opposite(s)) == old(HeapOf(Opposite(s))) && MapOf(Opposite(s)) == old(MapOf(Opposite(s)))
    {
      if s == Buy {
        bids, bidMap := heap, levels;
      } else {
        asks, askMap := heap, levels;
      }
    }

    /** The root of a side's heap is the level with priority over every other price of that side. */
    lemma RootIsBest(s: Side)
      requires LevelsOk(s) && HeapOf(s) != []
      ensures var l := HeapOf(s)[0];
              l.price in MapOf(s) && MapOf(s)[l.price] == l && IsBest(s, MapOf(s).Keys, l.price)
    {
      var h := HeapOf(s);
      var l := h[0];
      assert l in multiset(h);
      var x := KeyOf(MapOf(s), l);
      forall p | p in MapOf(s) ensures !Better(s, p, l.price) {
        assert MapOf(s)[p] in multiset(h);
        var k :| 0 <= k < |h| && h[k] == MapOf(s)[p];
        Heap.RootIsLeast(h, Key(s), k);
      }
    }

    /** Where the linear search of a side's heap for a price ends. */
    method IndexOfPrice(s: Side, price: int) returns (i: nat)
      requires LevelsOk(s) && price in MapOf(s)
      ensures i < |HeapOf(s)| && HeapOf(s)[i] == MapOf(s)[price]
    {
      var slice := HeapOf(s);
      ghost var level := MapOf(s)[price];
      assert level in multiset(slice);
      i := 0;
      while slice[i].price != price
        invariant 0 <= i < |slice|
        invariant level in slice[i..]
        decreases |slice| - i
      {
        i := i + 1;
      }
      assert slice[i] in multiset(slice);
      ghost var p := KeyOf(MapOf(s), slice[i]);
    }

    /** An empty level leaves its map and its heap; a level with orders stays. */
    method CleanupLevel(level: PriceLevel, s: Side)
      requires LevelsOk(s) && level.price in MapOf(s) && MapOf(s)[level.price] == level
      modifies this`bids, this`asks, this`bidMap, this`askMap
      ensures LevelsOk(s) && (old(LevelsOk(Opposite(s))) ==> LevelsOk(Opposite(s)))
      ensures MapOf(s) == if level.orders == [] then old(MapOf(s)) - {level.price} else old(MapOf(s))
      ensures HeapOf(Opposite(s)) == old(HeapOf(Opposite(s))) && MapOf(Opposite(s)) == old(MapOf(Opposite(s)))
    {
      if |level.orders| == 0 {
        var i := IndexOfPrice(s, level.price);
        var heap, _ := Heap.Remove(HeapOf(s), Key(s), i);
        var levels := MapOf(s) - {level.price};
        FiledWithout(MapOf(s), s, this, level.price);
        hide Heap.IsHeap, Filed;
        SetSide(s, heap, levels);
      }
    }

    lemma OthersDiffer(q: seq<Order>, k: nat)
      requires Distinct(q) && k < |q|
      ensures forall i | 0 <= i < |q| && i != k :: q[i] != q[k]
    {
    }

    lemma FrontRests(q: seq<Order>, k: nat)
      requires SplitAt(q, k) && k < |q|
      ensures q[k].IsActive() && q[k].RemainingQty() > 0
    {
    }

    /** One fill of the order at the front of what is left of a queue. */
    method HitMaker(maker: Order, ghost q: seq<Order>, ghost k: nat, qty: int) returns (r: Result)
      requires SplitAt(q, k) && Distinct(q) && k < |q| && q[k] == maker && 0 < qty <= maker.RemainingQty()
      modifies maker`filledQty, maker`status
      ensures r == Ok
      ensures maker.IsFilled() <==> qty == old(maker.RemainingQty())
      ensures SplitAt(q, if maker.IsFilled() then k + 1 else k)
      ensures Fills(q) == old(Fills(q))[k := old(maker.filledQty) + qty]
    {
      hide Fills, Distinct;
      OthersDiffer(q, k);
      r := maker.TryFill(qty);
    }

    /** What a queue shows behind its first `k` orders, when its orders are filled as `f` has it. */
    ghost predicate Shows(q: seq<Order>, k: nat, f: seq<int>, view: seq<Resting>) {
      && k <= |q| == |f| && |view| == |q| - k
      && forall i | k <= i < |q| :: view[i - k] == Resting(q[i].terms.id, q[i].terms.price, q[i].terms.quantity - f[i])
    }

    lemma RestConsumed(q: seq<Order>, k: nat, before: seq<Resting>, f0: seq<int>, qty: int)
      requires k < |q| && Shows(q, k, f0, before) && before != [] && 0 < qty <= before[0].rem && |f0| == |q|
      requires Fills(q) == f0[k := f0[k] + qty]
      ensures Rest(q[if qty == before[0].rem then k + 1 else k..]) == Consume(before, qty)
    {
      forall i | k <= i < |q|
        ensures View(q[i]) == if i == k then before[0].(rem := before[0].rem - qty) else before[i - k]
      {
        assert q[i].filledQty == Fills(q)[i];
      }
      if qty == before[0].rem {
        assert Rest(q[k + 1..]) == before[1..];
      } else {
        assert Rest(q[k..]) == [before[0].(rem := before[0].rem - qty)] + before[1..];
      }
    }

    /** One pass of the loop over a level: the maker at slot `k0` trades with the taker. */
    method FillNext(r0: int, taker: Order, maker: Order, ghost q: seq<Order>, k0: nat, ghost f: seq<int>)
        returns (trade: Trade, remaining: int, skipCount: nat)
      requires r0 > 0 && k0 < |q| && q[k0] == maker && SplitAt(q, k0) && Distinct(q) && f == Fills(q)
      modifies this`orderMap, maker`filledQty, maker`status
      ensures trade == NewTrade(taker.terms, maker.terms.id, maker.terms.price, Min(r0, old(maker.RemainingQty())))
      ensures trade.buyOrderId == taker.terms.id && trade.sellOrderId == maker.terms.id
      ensures trade.price == maker.terms.price && trade.symbol == taker.terms.symbol
      ensures trade.quantity > 0 && remaining == r0 - trade.quantity
      ensures skipCount == if trade.quantity == old(maker.RemainingQty()) then k0 + 1 else k0
      ensures SplitAt(q, skipCount)
      ensures Fills(q) == f[k0 := f[k0] + trade.quantity]
      ensures orderMap == if skipCount == k0 then old(orderMap) else old(orderMap) - {maker.terms.id}
    {
      hide *;
      FrontRests(q, k0);
      remaining, skipCount := r0, k0;
      if !maker.IsActive() {
        assert false;  // skipped by the source
      }
      var matchQty := Min(remaining, maker.RemainingQty());
      if matchQty <= 0 {
        assert false;  // skipped by the source
      }
      var r := HitMaker(maker, q, skipCount, matchQty);
      if r.Err? {
        assert false;  // skipped by the source
      }
      trade := NewTrade(taker.terms, maker.terms.id, maker.terms.price, matchQty);
      remaining := remaining - matchQty;
      if maker.IsFilled() {
        skipCount := skipCount + 1;
        orderMap := orderMap - {maker.terms.id};
      }
    }

    lemma FrontOf(t: Terms, q: seq<Order>, k: nat)
      requires SplitAt(q, k) && k < |q| && Fillable(t, q)
      ensures Rest(q[k..])[0] == View(q[k]) && q[k].RemainingQty() > 0 && Crosses(t, q[k].terms.price)
      ensures Distinct(q) && Shows(q, k, Fills(q), Rest(q[k..]))
    {
    }

    /** Within one level: what the trades so far have done to the index and the fills, with `cur` still to match. */
    ghost predicate Filling(q: seq<Order>, t: Terms, index0: Index, index: Index, f0: seq<int>, f: seq<int>,
                            whole: Matched, trades: seq<Trade>, cur: seq<Resting>, rem: int, k: nat) {
      && k <= |q| && rem >= 0 && index == index0 - IdsOf(q[..k])
      && Accounted(q, f0, f, trades) && Names(trades, t, q)
      && whole == Prepend(trades, Match(t, cur, rem))
    }

    lemma FillingStarts(q: seq<Order>, t: Terms, index: Index, rem: int)
      requires rem >= 0
      ensures Filling(q, t, index, index, Fills(q), Fills(q), Match(t, Rest(q), rem), [], Rest(q), rem, 0)
    {
      hide Match, Rest, Fills;
      MatchNothingYet(index, q, Match(t, Rest(q), rem));
      NoTrades(t, q);
    }

    lemma FillingNext(q: seq<Order>, t: Terms, index0: Index, index: Index, f0: seq<int>, f: seq<int>,
                      whole: Matched, trades: seq<Trade>, cur: seq<Resting>, rem: int, k: nat, trade: Trade)
      requires Filling(q, t, index0, index, f0, f, whole, trades, cur, rem, k) && Fillable(t, q) && k < |q| && rem > 0
      requires cur != [] && cur[0].id == q[k].terms.id && cur[0].price == q[k].terms.price && cur[0].rem > 0
      requires Crosses(t, cur[0].price) && trade == NewTrade(t, cur[0].id, cur[0].price, Min(rem, cur[0].rem))
      requires trade.quantity > 0 && |f| == |q|
      ensures var gone := trade.quantity == cur[0].rem;
              Filling(q, t, index0, if gone then index - {q[k].terms.id} else index, f0, f[k := f[k] + trade.quantity],
                      whole, trades + [trade], Consume(cur, trade.quantity), rem - trade.quantity,
                      if gone then k + 1 else k)
    {
      hide Accounted, Names, Match, Prepend, Consume, Fillable, Crosses, IdsOf, NewTrade;
      MatchStep(t, whole, trades, cur, rem);
      IdsOfNext(index0, q, k);
      AccountedNext(q, f0, f, trades, t, k, trade);
      NamesPush(trades, trade, t, q, k);
    }

    lemma FillingEnds(q: seq<Order>, t: Terms, index0: Index, index: Index, f0: seq<int>, f: seq<int>,
                      whole: Matched, trades: seq<Trade>, cur: seq<Resting>, rem: int, k: nat)
      requires Filling(q, t, index0, index, f0, f, whole, trades, cur, rem, k) && (cur == [] || rem == 0)
      ensures whole == Matched(trades, cur, rem) && index == index0 - IdsOf(q[..k]) && k <= |q| && rem >= 0
      ensures Accounted(q, f0, f, trades) && Names(trades, t, q)
    {
      MatchDone(t, trades, cur, rem);
    }

    /** The makers of one level are filled from the front until the taker is done or the level is dry. */
    method FillLevel(r0: int, taker: Order, level: PriceLevel)
        returns (trades: seq<Trade>, remaining: int, skipCount: nat)
      requires r0 > 0 && SplitAt(level.orders, 0) && Fillable(taker.terms, level.orders)
      modifies this`orderMap, level.orders`filledQty, level.orders`status
      ensures SplitAt(level.orders, skipCount) && skipCount <= |level.orders| && remaining >= 0
      ensures Match(taker.terms, old(Rest(level.orders)), r0)
                == Matched(trades, Rest(level.orders[skipCount..]), remaining)
      ensures orderMap == old(orderMap) - IdsOf(level.orders[..skipCount])
      ensures Accounted(level.orders, old(Fills(level.orders)), Fills(level.orders), trades)
      ensures Names(trades, taker.terms, level.orders)
    {
      hide *;
      var q := level.orders;
      ghost var t, index, f0, cur := taker.terms, orderMap, Fills(q), Rest(q);
      ghost var whole := Match(t, cur, r0);
      trades, remaining, skipCount := [], r0, 0;
      FillingStarts(q, t, index, r0);
      assert q[0..] == q;
      while |q| > skipCount && remaining > 0
        invariant 0 <= skipCount <= |q| && remaining >= 0 && SplitAt(q, skipCount) && cur == Rest(q[skipCount..])
        invariant Filling(q, t, index, orderMap, f0, Fills(q), whole, trades, cur, remaining, skipCount)
        decreases |q| - skipCount, remaining
      {
        FrontOf(t, q, skipCount);
        ghost var r, k, f1, index1, m := remaining, skipCount, Fills(q), orderMap, q[skipCount].RemainingQty();
        assert cur[0].rem == m;
        var trade;
        trade, remaining, skipCount := FillNext(remaining, taker, q[skipCount], q, skipCount, f1);
        RestConsumed(q, k, cur, f1, trade.quantity);
        FillingNext(q, t, index, index1, f0, f1, whole, trades, cur, r, k, trade);
        trades := trades + [trade];
        cur := Consume(cur, trade.quantity);
      }
      FillingEnds(q, t, index, orderMap, f0, Fills(q), whole, trades, cur, remaining, skipCount);
    }

    /** Drop what no longer rests from a level, and the level itself if nothing is left. */
    method SettleLevel(level: PriceLevel, s: Side, skipCount: nat)
      requires LevelsOk(s) && LevelsOk(Opposite(s)) && level.price in MapOf(s) && MapOf(s)[level.price] == level
      requires skipCount <= |level.orders| && SplitAt(level.orders, skipCount)
      modifies level`orders, this`bids, this`asks, this`bidMap, this`askMap
      ensures LevelsOk(s) && LevelsOk(Opposite(s)) && MapOf(Opposite(s)) == old(MapOf(Opposite(s)))
      ensures MapOf(s) == if skipCount == |old(level.orders)| then old(MapOf(s)) - {level.price} else old(MapOf(s))
      ensures QueuesOf(MapOf(s)) == Swept(old(QueuesOf(MapOf(s))), level.price, skipCount)
      ensures QueuesOf(MapOf(Opposite(s))) == old(QueuesOf(MapOf(Opposite(s))))
    {
      hide *;
      ghost var near, far := QueuesOf(MapOf(s)), QueuesOf(MapOf(Opposite(s)));
      LevelApart(s, level.price);
      SweptIs(near, level.price, skipCount);
      DropInactive(level, skipCount);
      CleanupLevel(level, s);
      SameQueues(MapOf(s), Swept(near, level.price, skipCount));
      SameQueues(MapOf(Opposite(s)), far);
    }

    lemma SweptIs(q: Queues, p: int, k: nat)
      requires p in q && k <= |q[p]|
      ensures Swept(q, p, k) == if k == |q[p]| then q - {p} else q[p := q[p][k..]]
    {
    }

    /** A level is filed once. */
    lemma LevelApart(s: Side, p: int)
      requires LevelsOk(s) && LevelsOk(Opposite(s)) && p in MapOf(s)
      ensures forall x | x in MapOf(s) && x != p :: MapOf(s)[x] != MapOf(s)[p]
      ensures forall x | x in MapOf(Opposite(s)) :: MapOf(Opposite(s))[x] != MapOf(s)[p]
    {
    }

    /** Rebuild a level's queue from its active orders, if any order was skipped. */
    method DropInactive(level: PriceLevel, skipCount: nat)
      requires skipCount <= |level.orders| && SplitAt(level.orders, skipCount)
      modifies level`orders
      ensures level.orders == old(level.orders)[skipCount..]
    {
      if skipCount > 0 {
        var active := [];
        for i := 0 to |level.orders|
          invariant active == if i <= skipCount then [] else level.orders[skipCount..i]
        {
          if level.orders[i].IsActive() {
            active := active + [level.orders[i]];
          }
        }
        level.orders := active;
      }
    }

    /** A level as a valid book has it: its queue holds distinct resting orders of its own price. */
    lemma LevelFacts(s: Side, p: int)
      requires Valid() && p in MapOf(s)
      ensures var level := MapOf(s)[p];
              && level.price == p && level.side == s && level.owner == this && level.orders != []
              && (forall i | 0 <= i < |level.orders| ::
                    Rests(level.orders[i]) && level.orders[i].terms.price == p
                    && Indexed(s, symbol, orderMap, level.orders[i]))
              && forall i, j | 0 <= i < j < |level.orders| :: level.orders[i] != level.orders[j]
    {
      var level := MapOf(s)[p];
      assert QueueOk(s, symbol, orderMap, p, QueuesOf(MapOf(s))[p]);
      forall i | 0 <= i < |level.orders| ensures Rests(level.orders[i]) {
        assert Indexed(s, symbol, orderMap, level.orders[i]);
      }
    }

    lemma Unpack(s: Side)
      requires Valid()
      ensures LevelsOk(s) && LevelsOk(Opposite(s))
      ensures ShapeFor(s, symbol, orderMap, QueuesOf(MapOf(s)), QueuesOf(MapOf(Opposite(s))))
      ensures forall id | id in orderMap :: Rests(orderMap[id])
    {
    }

    /** Put the pieces of `Valid` back together after a level lost the first `k` orders of its queue. */
    lemma ValidAfterLevel(s: Side, p: int, k: nat, index: Index, near: Queues, far: Queues)
      requires ShapeFor(s, symbol, index, near, far)
      requires p in near && k <= |near[p]|
      requires LevelsOk(s) && LevelsOk(Opposite(s))
      requires QueuesOf(MapOf(s)) == Swept(near, p, k) && QueuesOf(MapOf(Opposite(s))) == far
      requires orderMap == index - IdsOf(near[p][..k])
      requires forall id | id in index && index[id] !in near[p] :: Rests(index[id])
      requires SplitAt(near[p], k)
      ensures Valid()
    {
      hide QueuesOk, IndexOk, Rests, IdsOf, LevelsOk;
      ShapeAfterMatch(s, symbol, index, near, far, p, k);
      forall id | id in orderMap ensures Rests(orderMap[id]) {
        if index[id] in near[p] {
          var i := StaysBehind(s, symbol, index, near, far, p, k, id);
        }
      }
    }

    lemma LevelIsFillable(s: Side, p: int, t: Terms)
      requires Valid() && p in MapOf(s) && Crosses(t, p) && t.id !in orderMap
      ensures SplitAt(MapOf(s)[p].orders, 0) && Fillable(t, MapOf(s)[p].orders)
    {
      LevelFacts(s, p);
    }

    /** The fills of a level visit, and what they leave as it was. */
    method FillFront(r0: int, taker: Order, level: PriceLevel, s: Side, ghost near: Queues, ghost far: Queues)
        returns (trades: seq<Trade>, remaining: int, skipCount: nat)
      requires Valid() && r0 > 0 && near == QueuesOf(MapOf(s)) && far == QueuesOf(MapOf(Opposite(s)))
      requires level.price in MapOf(s) && MapOf(s)[level.price] == level
      requires Crosses(taker.terms, level.price) && taker.terms.id !in orderMap
      modifies this`orderMap, level.orders`filledQty, level.orders`status
      ensures LevelsOk(s) && LevelsOk(Opposite(s)) && ShapeFor(s, symbol, old(orderMap), near, far)
      ensures near == QueuesOf(MapOf(s)) && far == QueuesOf(MapOf(Opposite(s)))
      ensures forall id | id in old(orderMap) && old(orderMap)[id] !in level.orders :: Rests(old(orderMap)[id])
      ensures SplitAt(level.orders, skipCount) && skipCount <= |level.orders| && remaining >= 0
      ensures Match(taker.terms, old(Rest(level.orders)), r0)
                == Matched(trades, Rest(level.orders[skipCount..]), remaining)
      ensures orderMap == old(orderMap) - IdsOf(level.orders[..skipCount])
      ensures Accounted(level.orders, old(Fills(level.orders)), Fills(level.orders), trades)
      ensures Names(trades, taker.terms, level.orders)
    {
      hide *;
      LevelIsFillable(s, level.price, taker.terms);
      Unpack(s);
      MapsOf(s);
      trades, remaining, skipCount := FillLevel(r0, taker, level);
      SameQueues(MapOf(s), near);
      SameQueues(MapOf(Opposite(s)), far);
    }

    method SweepLevel(r0: int, taker: Order, level: PriceLevel, s: Side)
        returns (trades: seq<Trade>, remaining: int, ghost k: nat, ghost q: seq<Order>)
      requires Valid() && r0 > 0
      requires level.price in MapOf(s) && MapOf(s)[level.price] == level
      requires Crosses(taker.terms, level.price) && taker.terms.id !in orderMap
      modifies this, level`orders, level.orders`filledQty, level.orders`status
      ensures Valid()
      ensures q == old(level.orders) && k <= |q|
      ensures Match(taker.terms, old(Rest(level.orders)), r0) == Matched(trades, Rest(q[k..]), remaining)
      ensures MapOf(s) == if k == |q| then old(MapOf(s)) - {level.price} else old(MapOf(s))
      ensures QueuesOf(MapOf(s)) == Swept(old(QueuesOf(MapOf(s))), level.price, k)
      ensures MapOf(Opposite(s)) == old(MapOf(Opposite(s)))
      ensures QueuesOf(MapOf(Opposite(s))) == old(QueuesOf(MapOf(Opposite(s))))
      ensures orderMap == old(orderMap) - IdsOf(q[..k])
      ensures Accounted(q, old(Fills(level.orders)), Fills(q), trades)
      ensures Names(trades, taker.terms, q) && remaining >= 0
    {
      hide *;
      ghost var near, far := QueuesOf(MapOf(s)), QueuesOf(MapOf(Opposite(s)));
      q := level.orders;
      var skipCount;
      trades, remaining, skipCount := FillFront(r0, taker, level, s, near, far);
      k := skipCount;
      SettleLevel(level, s, skipCount);
      ValidAfterLevel(s, level.price, k, old(orderMap), near, far);
    }

    /** The list of a side is its best level's queue followed by orders of other prices. */
    lemma BestLevelFirst(s: Side)
      requires Valid() && HeapOf(s) != []
      ensures var l := HeapOf(s)[0]; var q := QueuesOf(MapOf(s));
              && l.price in MapOf(s) && MapOf(s)[l.price] == l && l.orders != []
              && ListOf(s) == l.orders + Flatten(s, q - {l.price})
              && (forall x | x in q :: !Better(s, x, l.price))
              && (forall o | o in Flatten(s, q - {l.price}) :: o !in l.orders)
    {
      RootIsBest(s);
      var l := HeapOf(s)[0];
      var q := QueuesOf(MapOf(s));
      LevelFacts(s, l.price);
      FlattenBest(s, q, l.price);
      forall o | o in Flatten(s, q - {l.price}) ensures o !in l.orders {
        QueuesArePriced(s);
        FlattenIsQueued(s, q - {l.price}, o);
      }
    }

    lemma QueuesArePriced(s: Side)
      requires Valid()
      ensures Priced(QueuesOf(MapOf(s)))
    {
      forall p | p in MapOf(s) ensures QueueOk(s, symbol, orderMap, p, QueuesOf(MapOf(s))[p]) {
        LevelFacts(s, p);
      }
    }

    /** Every order in the list of a side is indexed, and rests on that side. */
    lemma ListedIsIndexed(s: Side, o: Order)
      requires Valid() && o in ListOf(s)
      ensures Indexed(s, symbol, orderMap, o) && o in orderMap.Values && Rests(o)
    {
      QueuesArePriced(s);
      FlattenIsQueued(s, QueuesOf(MapOf(s)), o);
      LevelFacts(s, o.terms.price);
    }

    /** Reference matching on the whole side, when its best level has been swept. */
    lemma SweptList(s: Side, t: Terms, near: Queues, p: int, k: nat, before: seq<Resting>, r0: int, trades: seq<Trade>,
                    rem: int)
      requires p in near && forall x | x in near :: !Better(s, x, p)
      requires k <= |near[p]| == |before| && rem >= 0 && QueuesOf(MapOf(s)) == Swept(near, p, k)
      requires Match(t, before, r0) == Matched(trades, Rest(near[p][k..]), rem)
      requires Positive(before) && forall i | 0 <= i < |before| :: Crosses(t, before[i].price)
      ensures Match(t, before + Rest(Flatten(s, near - {p})), r0) == Prepend(trades, Match(t, Rest(ListOf(s)), rem))
    {
      hide *;
      var q, behind := near[p], Flatten(s, near - {p});
      FlattenSwept(s, near, p, k);
      MatchSplit(t, before, Rest(behind), r0);
      RestAppend(q[k..], behind);
      if k == |q| {
        assert q[k..] + behind == behind;
        PrependIs(trades, Match(t, Rest(behind), rem));
      } else {
        MatchDone(t, trades, Rest(ListOf(s)), rem);
      }
    }

    lemma BestLevelCrosses(s: Side, t: Terms)
      requires Valid() && HeapOf(s) != [] && Crosses(t, HeapOf(s)[0].price)
      ensures var q := HeapOf(s)[0].orders; Positive(Rest(q)) && forall i | 0 <= i < |q| :: Crosses(t, Rest(q)[i].price)
    {
      RootIsBest(s);
      LevelFacts(s, HeapOf(s)[0].price);
    }

    lemma BestLevelList(s: Side)
      requires Valid() && HeapOf(s) != []
      ensures var l := HeapOf(s)[0]; var near := QueuesOf(MapOf(s));
              && l.price in near && near[l.price] == l.orders && l.price in MapOf(s) && MapOf(s)[l.price] == l
              && (forall x | x in near :: !Better(s, x, l.price))
              && Rest(ListOf(s)) == Rest(l.orders) + Rest(Flatten(s, near - {l.price}))
    {
      hide ShapeOk, LevelsOk, Rests;
      BestLevelFirst(s);
    }

    /** The orders of the best level are indexed, and appear nowhere else in the book. */
    lemma BestLevelApart(s: Side)
      requires Valid() && HeapOf(s) != []
      ensures var q := HeapOf(s)[0].orders;
              && (forall o | o in q ::
                   o in orderMap.Values && o.terms.id in orderMap && orderMap[o.terms.id] == o && o.terms.side == s)
              && (forall o | o in Flatten(s, QueuesOf(MapOf(s)) - {HeapOf(s)[0].price}) :: o !in q)
              && (forall o | o in ListOf(Opposite(s)) :: o !in q)
    {
      hide LevelsOk, Rests, QueuesOk;
      BestLevelFirst(s);
      var l := HeapOf(s)[0];
      LevelFacts(s, l.price);
      forall o | o in l.orders ensures Indexed(s, symbol, orderMap, o) {
      }
      forall o | o in ListOf(Opposite(s)) ensures o !in l.orders {
        ListedIsIndexed(Opposite(s), o);
      }
    }

    /** Sweeping the best level leaves the rest of its side and the other side as they were. */
    method SweepBest(r0: int, taker: Order, level: PriceLevel, s: Side)
        returns (trades: seq<Trade>, remaining: int, ghost k: nat, ghost q: seq<Order>)
      requires Valid() && r0 > 0 && HeapOf(s) != [] && level == HeapOf(s)[0]
      requires Crosses(taker.terms, level.price) && taker.terms.id !in orderMap
      requires level.price in QueuesOf(MapOf(s)) && QueuesOf(MapOf(s))[level.price] == level.orders
      modifies this, level`orders, level.orders`filledQty, level.orders`status
      ensures Valid() && q == old(level.orders) && k <= |q| && remaining >= 0
      ensures Match(taker.terms, old(Rest(level.orders)), r0) == Matched(trades, Rest(q[k..]), remaining)
      ensures MapOf(s) == if k == |q| then old(MapOf(s)) - {level.price} else old(MapOf(s))
      ensures QueuesOf(MapOf(s)) == Swept(old(QueuesOf(MapOf(s))), level.price, k)
      ensures MapOf(Opposite(s)) == old(MapOf(Opposite(s))) && orderMap == old(orderMap) - IdsOf(q[..k])
      ensures Accounted(q, old(Fills(level.orders)), Fills(q), trades) && Names(trades, taker.terms, q)
      ensures var behind := old(Flatten(s, QueuesOf(MapOf(s)) - {level.price})); Rest(behind) == old(Rest(behind))
      ensures ListOf(Opposite(s)) == old(ListOf(Opposite(s)))
              && Rest(ListOf(Opposite(s))) == old(Rest(ListOf(Opposite(s))))
    {
      hide *;
      BestLevelList(s);
      BestLevelApart(s);
      ghost var behind, far := Flatten(s, QueuesOf(MapOf(s)) - {level.price}), ListOf(Opposite(s));
      ghost var restBehind, restFar := Rest(behind), Rest(far);
      trades, remaining, k, q := SweepLevel(r0, taker, level, s);
      assert forall i | 0 <= i < |behind| :: behind[i] !in q && View(behind[i]) == restBehind[i];
      assert Rest(behind) == restBehind;
      assert forall i | 0 <= i < |far| :: far[i] !in q && View(far[i]) == restFar[i];
      assert Rest(far) == restFar;
    }

    /** `index0` is the index at the start of the whole match: the ledger is kept on it. */
    method MatchAgainstLevel(r0: int, taker: Order, level: PriceLevel, s: Side, ghost index0: Index)
        returns (trades: seq<Trade>, remaining: int)
      requires Valid() && r0 > 0 && HeapOf(s) != [] && level == HeapOf(s)[0]
      requires Crosses(taker.terms, level.price) && taker.terms.side == Opposite(s)
      requires Within(orderMap, index0) && Keyed(index0) && taker.terms.id !in index0
      modifies this, MapOf(s).Values`orders, orderMap.Values`filledQty, orderMap.Values`status
      ensures Valid() && remaining >= 0
      ensures Match(taker.terms, old(Rest(ListOf(s))), r0)
                == Prepend(trades, Match(taker.terms, Rest(ListOf(s)), remaining))
      ensures ListOf(Opposite(s)) == old(ListOf(Opposite(s)))
              && Rest(ListOf(Opposite(s))) == old(Rest(ListOf(Opposite(s))))
      ensures Shrunk(old(MapOf(s)), MapOf(s), old(orderMap), orderMap) && MapOf(Opposite(s)) == old(MapOf(Opposite(s)))
      ensures remaining > 0 ==> MapOf(s).Keys < old(MapOf(s)).Keys
      ensures Ledger(old(FillMap(index0)), FillMap(index0), trades) && Between(trades, taker.terms, index0)
    {
      hide *;
      MapsOf(s);
      WithinMeans(orderMap, index0);
      BestLevelCrosses(s, taker.terms);
      BestLevelList(s);
      BestLevelApart(s);
      ghost var near, before := QueuesOf(MapOf(s)), Rest(level.orders);
      ghost var index, levels, f0, g0 := orderMap, MapOf(s), FillMap(index0), Fills(level.orders);
      ghost var k, q;
      trades, remaining, k, q := SweepBest(r0, taker, level, s);
      SweptList(s, taker.terms, near, level.price, k, before, r0, trades, remaining);
      SweepShrinks(levels, index, level.price, k, q, before, taker.terms, r0, trades, Rest(q[k..]), remaining);
      QueueLedger(index0, q, f0, FillMap(index0), g0, Fills(q), trades, taker.terms);
    }

    lemma EmptyHeap(s: Side)
      requires Valid() && HeapOf(s) == []
      ensures Rest(ListOf(s)) == []
    {
      SameMap(QueuesOf(MapOf(s)), map[]);
    }

    lemma BestDoesNotCross(s: Side, t: Terms, rem: int)
      requires Valid() && HeapOf(s) != [] && !Crosses(t, HeapOf(s)[0].price)
      ensures Match(t, Rest(ListOf(s)), rem) == Matched([], Rest(ListOf(s)), rem)
    {
      BestLevelFirst(s);
      var l := HeapOf(s)[0];
      LevelFacts(s, l.price);
      assert Rest(ListOf(s))[0] == View(l.orders[0]);
    }

    /** A taker nobody else knows yet: not in the book and not touched before. */
    ghost predicate Incoming(order: Order)
      reads this`orderMap, order`filledQty, order`status
    {
      && order.terms.id !in orderMap && order.terms.symbol == symbol
      && order.filledQty == 0 && order.status == New
    }

    lemma IncomingMeans(order: Order)
      requires Valid() && Incoming(order)
      ensures order.terms.id !in orderMap && order !in orderMap.Values
      ensures order.filledQty == 0 && order.status == New && order.terms.symbol == symbol
    {
      if order in orderMap.Values {
        var id := KeyOf(orderMap, order);
        assert false;
      }
    }

    /** The state of a match in progress against side `s`, since the state described by the arguments. */
    ghost predicate Matching(s: Side, t: Terms, whole: Matched, trades: seq<Trade>, rem: int,
                             levels0: map<int, PriceLevel>, index0: Index, f0: map<nat, int>)
      reads this, bidMap.Values`orders, askMap.Values`orders, orderMap.Values`filledQty, orderMap.Values`status
      reads ListOf(s)`filledQty, index0.Values`filledQty
    {
      && Valid() && (rem >= 0 || rem == t.quantity)
      && whole == Prepend(trades, Match(t, Rest(ListOf(s)), rem))
      && Shrunk(levels0, MapOf(s), index0, orderMap)
      && Ledger(f0, FillMap(index0), trades) && Between(trades, t, index0)
    }

    lemma MatchingStarts(s: Side, t: Terms)
      requires Valid()
      ensures Matching(s, t, Match(t, Rest(ListOf(s)), t.quantity), [], t.quantity,
                       MapOf(s), orderMap, FillMap(orderMap))
      ensures Keyed(orderMap)
    {
      MatchNothingYet(orderMap, [], Match(t, Rest(ListOf(s)), t.quantity));
      NothingTraded(FillMap(orderMap), t, orderMap);
    }

    /** A match that can go no further has produced the reference match. */
    lemma MatchingEnds(s: Side, t: Terms, whole: Matched, trades: seq<Trade>, rem: int,
                       levels0: map<int, PriceLevel>, index0: Index, f0: map<nat, int>)
      requires Matching(s, t, whole, trades, rem, levels0, index0, f0)
      requires rem <= 0 || HeapOf(s) == [] || !Crosses(t, HeapOf(s)[0].price)
      ensures whole == Matched(trades, Rest(ListOf(s)), rem)
    {
      if rem <= 0 {
      } else if HeapOf(s) == [] {
        EmptyHeap(s);
      } else {
        BestDoesNotCross(s, t, rem);
      }
      assert trades + [] == trades;
    }

    lemma MatchingMoves(s: Side, t: Terms, whole: Matched, a: seq<Trade>, b: seq<Trade>, rem: int, before: Matched,
                        levels0: map<int, PriceLevel>, levels1: map<int, PriceLevel>, index0: Index, index1: Index,
                        f0: map<nat, int>, f1: map<nat, int>)
      requires whole == Prepend(a, before) && before == Prepend(b, Match(t, Rest(ListOf(s)), rem))
      requires Valid() && rem >= 0
      requires Shrunk(levels0, levels1, index0, index1) && Shrunk(levels1, MapOf(s), index1, orderMap)
      requires Ledger(f0, f1, a) && Between(a, t, index0)
      requires Ledger(f1, FillMap(index0), b) && Between(b, t, index0)
      ensures Matching(s, t, whole, a + b, rem, levels0, index0, f0)
    {
      hide *;
      LedgerAppend(f0, f1, FillMap(index0), a, b);
      BetweenAppend(a, b, t, index0);
      ShrunkTwice(levels0, levels1, MapOf(s), index0, index1, orderMap);
      PrependTwice(a, b, Match(t, Rest(ListOf(s)), rem));
      MatchingIs(s, t, whole, a + b, rem, levels0, index0, f0);
    }

    lemma MatchingIs(s: Side, t: Terms, whole: Matched, trades: seq<Trade>, rem: int,
                     levels0: map<int, PriceLevel>, index0: Index, f0: map<nat, int>)
      ensures Matching(s, t, whole, trades, rem, levels0, index0, f0) <==>
                && Valid() && (rem >= 0 || rem == t.quantity)
                && whole == Prepend(trades, Match(t, Rest(ListOf(s)), rem))
                && Shrunk(levels0, MapOf(s), index0, orderMap)
                && Ledger(f0, FillMap(index0), trades) && Between(trades, t, index0)
    {
      hide Valid, Match, Prepend, Shrunk, Ledger, Between, Rest, FillMap;
    }

    /** Match against the other side until the order is done or the book is. The loop of a limit order also
        stops at a best price the limit does not reach; the loop of a market order takes any price. */
    method MatchLoop(order: Order, s: Side) returns (trades: seq<Trade>, remaining: int)
      requires Valid() && Incoming(order) && order.terms.side == Opposite(s)
      modifies this, MapOf(s).Values`orders, orderMap.Values`filledQty, orderMap.Values`status
      ensures Valid() && orderMap.Keys <= old(orderMap.Keys) && orderMap.Values <= old(orderMap.Values)
      ensures Match(order.terms, old(Rest(ListOf(s))), order.terms.quantity)
                == Matched(trades, Rest(ListOf(s)), remaining)
      ensures MapOf(s).Values <= old(MapOf(s).Values) && MapOf(Opposite(s)) == old(MapOf(Opposite(s)))
      ensures Rest(ListOf(Opposite(s))) == old(Rest(ListOf(Opposite(s))))
      ensures Ledger(old(FillMap(orderMap)), FillMap(old(orderMap)), trades)
              && Between(trades, order.terms, old(orderMap))
    {
      hide *;
      remaining := order.terms.quantity;
      ghost var levels0, index0, f0, far := MapOf(s), orderMap, FillMap(orderMap), Rest(ListOf(Opposite(s)));
      var t := order.terms;
      ghost var whole := Match(t, Rest(ListOf(s)), t.quantity);
      trades := [];
      MatchingStarts(s, t);
      IncomingMeans(order);
      while |HeapOf(s)| > 0 && remaining > 0
        invariant Matching(s, t, whole, trades, remaining, levels0, index0, f0)
        invariant MapOf(Opposite(s)) == old(MapOf(Opposite(s))) && Rest(ListOf(Opposite(s))) == far
        decreases MapOf(s).Keys, remaining > 0
      {
        MatchingIs(s, t, whole, trades, remaining, levels0, index0, f0);
        ShrunkMeans(levels0, MapOf(s), index0, orderMap);
        var best := HeapOf(s)[0];
        if !Crosses(t, best.price) {
          break;
        }
        ghost var levels1, index1, f1 := MapOf(s), orderMap, FillMap(index0);
        ghost var before := Match(t, Rest(ListOf(s)), remaining);
        var more;
        more, remaining := MatchAgainstLevel(remaining, order, best, s, index0);
        ShrunkMeans(levels1, MapOf(s), index1, orderMap);
        assert MapOf(s).Keys < levels1.Keys || MapOf(s).Keys == levels1.Keys;
        MatchingMoves(s, t, whole, trades, more, remaining, before, levels0, levels1, index0, index1, f0, f1);
        trades := trades + more;
      }
      MatchingIs(s, t, whole, trades, remaining, levels0, index0, f0);
      ShrunkMeans(levels0, MapOf(s), index0, orderMap);
      MatchingEnds(s, t, whole, trades, remaining, levels0, index0, f0);
    }

    /** The orders of the book are other orders than an order that is not indexed. */
    lemma NotListed(order: Order, s: Side)
      requires Valid() && order.terms.id !in orderMap
      ensures order !in ListOf(s) && order !in orderMap.Values
    {
      if order in ListOf(s) {
        ListedIsIndexed(s, order);
        assert false;
      }
      if order in orderMap.Values {
        var id := KeyOf(orderMap, order);
        assert false;
      }
    }

    /** The level of a price, created empty and pushed on its heap if the side has none yet. */
    method LevelFor(s: Side, price: int) returns (level: PriceLevel)
      requires LevelsOk(s)
      modifies this`bids, this`asks, this`bidMap, this`askMap
      ensures LevelsOk(s) && (old(LevelsOk(Opposite(s))) ==> LevelsOk(Opposite(s)))
      ensures if price in old(MapOf(s)) then level == old(MapOf(s))[price] else fresh(level) && level.orders == []
      ensures MapOf(s) == old(MapOf(s))[price := level] && MapOf(Opposite(s)) == old(MapOf(Opposite(s)))
    {
      hide Heap.IsHeap, Filed;
      if price in MapOf(s) {
        level := MapOf(s)[price];
        SameMap(MapOf(s)[price := level], MapOf(s));
      } else {
        level := new PriceLevel(price, s, this);
        FiledWith(MapOf(s), s, this, price, level);
        var levels := MapOf(s)[price := level];
        var heap := Heap.Push(HeapOf(s), Key(s), level);
        SetSide(s, heap, levels);
      }
    }

    lemma ValidAfterJoin(s: Side, index: Index, near: Queues, far: Queues, order: Order)
      requires ShapeFor(s, symbol, index, near, far)
      requires order.terms.id !in index && order.terms.side == s && order.terms.symbol == symbol
      requires LevelsOk(s) && LevelsOk(Opposite(s))
      requires QueuesOf(MapOf(s)) == Joined(near, order) && QueuesOf(MapOf(Opposite(s))) == far
      requires orderMap == index[order.terms.id := order]
      requires Rests(order) && forall id | id in index :: Rests(index[id])
      ensures Valid()
    {
      hide QueuesOk, IndexOk, Rests, LevelsOk;
      ShapeAfterJoin(s, symbol, index, near, far, order);
    }

    method AppendToLevel(order: Order, s: Side)
      requires LevelsOk(s) && LevelsOk(Opposite(s)) && order.terms.side == s
      modifies this`bids, this`asks, this`bidMap, this`askMap, MapOf(s).Values`orders
      ensures LevelsOk(s) && LevelsOk(Opposite(s))
      ensures QueuesOf(MapOf(s)) == Joined(old(QueuesOf(MapOf(s))), order)
      ensures fresh(MapOf(s).Values - old(MapOf(s).Values)) && MapOf(Opposite(s)) == old(MapOf(Opposite(s)))
      ensures forall o: Order {:trigger Rests(o)} | old(allocated(o)) && old(Rests(o)) :: Rests(o)
      ensures QueuesOf(MapOf(Opposite(s))) == old(QueuesOf(MapOf(Opposite(s))))
    {
      hide *;
      ghost var before := QueuesOf(MapOf(s));
      JoinedIs(before, order);
      var level := OpenLevel(s, order.terms.price);
      UpdateTwice(before, order.terms.price, level.orders, level.orders + [order]);
      ghost var near, far := QueuesOf(MapOf(s)), QueuesOf(MapOf(Opposite(s)));
      LevelApart(s, order.terms.price);
      level.orders := level.orders + [order];
      SameQueues(MapOf(s), near[order.terms.price := level.orders]);
      SameQueues(MapOf(Opposite(s)), far);
    }

    /** The queues with a level opened, which is empty if it is new. */
    method OpenLevel(s: Side, price: int) returns (level: PriceLevel)
      requires LevelsOk(s) && LevelsOk(Opposite(s))
      modifies this`bids, this`asks, this`bidMap, this`askMap
      ensures LevelsOk(s) && LevelsOk(Opposite(s)) && (level in old(MapOf(s).Values) || fresh(level))
      ensures price in MapOf(s) && MapOf(s)[price] == level
      ensures fresh(MapOf(s).Values - old(MapOf(s).Values)) && MapOf(Opposite(s)) == old(MapOf(Opposite(s)))
      ensures level.orders == if price in old(MapOf(s)) then old(QueuesOf(MapOf(s)))[price] else []
      ensures QueuesOf(MapOf(s)) == old(QueuesOf(MapOf(s)))[price := level.orders]
      ensures QueuesOf(MapOf(Opposite(s))) == old(QueuesOf(MapOf(Opposite(s))))
      ensures forall o: Order {:trigger Rests(o)} | old(allocated(o)) && old(Rests(o)) :: Rests(o)
    {
      hide *;
      ghost var near, far := QueuesOf(MapOf(s)), QueuesOf(MapOf(Opposite(s)));
      level := LevelFor(s, price);
      SameQueues(MapOf(s), near[price := level.orders]);
      SameQueues(MapOf(Opposite(s)), far);
    }

    method AddOrderToBook(order: Order)
      requires Valid() && order.terms.id !in orderMap && order.terms.symbol == symbol
      requires order.IsActive() ==> Rests(order)
      modifies this, MapOf(order.terms.side).Values`orders
      ensures Valid()
      ensures orderMap == if order.IsActive() then old(orderMap)[order.terms.id := order] else old(orderMap)
      ensures QueuesOf(MapOf(order.terms.side)) ==
                if order.IsActive() then Joined(old(QueuesOf(MapOf(order.terms.side))), order)
                else old(QueuesOf(MapOf(order.terms.side)))
      ensures QueuesOf(MapOf(Opposite(order.terms.side))) == old(QueuesOf(MapOf(Opposite(order.terms.side))))
      ensures fresh(MapOf(order.terms.side).Values - old(MapOf(order.terms.side).Values))
      ensures MapOf(Opposite(order.terms.side)) == old(MapOf(Opposite(order.terms.side)))
    {
      hide *;
      if !order.IsActive() {
        return;
      }
      var s := order.terms.side;
      Unpack(s);
      ghost var near, far := QueuesOf(MapOf(s)), QueuesOf(MapOf(Opposite(s)));
      ghost var index := orderMap;
      orderMap := orderMap[order.terms.id := order];
      SameQueues(MapOf(s), near);
      SameQueues(MapOf(Opposite(s)), far);
      AppendToLevel(order, s);
      ValidAfterJoin(s, old(orderMap), near, far, order);
    }

    lemma AbsIs(s: Side)
      ensures SideOf(Abs(), s) == Rest(ListOf(s)) && SideOf(Abs(), Opposite(s)) == Rest(ListOf(Opposite(s)))
    {
      hide Flatten, Rest;
    }

    /** What a taker can trade with lies between nothing and its whole quantity. */
    lemma TakerBounds(s: Side, t: Terms)
      requires Valid()
      ensures var rem := Match(t, Rest(ListOf(s)), t.quantity).rem;
              rem <= t.quantity && (t.quantity >= 0 ==> rem >= 0) && (t.quantity < 0 ==> rem == t.quantity)
    {
      var l := ListOf(s);
      forall i | 0 <= i < |l| ensures Rests(l[i]) {
        ListedIsIndexed(s, l[i]);
      }
      MatchIsMaximal(t, Rest(l), t.quantity);
    }

    /** The taker's own fill, once the loop is over. */
    method FillTaker(order: Order, remaining: int)
      requires order.filledQty == 0 && order.status == New && remaining <= order.terms.quantity
      requires order.terms.quantity >= 0 ==> remaining >= 0
      requires order.terms.quantity < 0 ==> remaining == order.terms.quantity
      modifies order`filledQty, order`status
      ensures order.filledQty == order.terms.quantity - remaining && order.status == StatusAfter(order)
      ensures order.RemainingQty() == remaining && (order.IsFilled() <==> remaining <= 0)
      ensures remaining > 0 ==> Rests(order)
    {
      var filled := order.terms.quantity - remaining;
      var r := order.TryFill(filled);
    }

    /** Levels and orders that were not written to make up the same list. */
    lemma Untouched(s: Side, q: Queues, listed: seq<Order>, view: seq<Resting>)
      requires MapOf(s).Keys == q.Keys && forall p | p in MapOf(s) :: MapOf(s)[p].orders == q[p]
      requires listed == Flatten(s, q) && |view| == |listed|
      requires forall i | 0 <= i < |listed| :: View(listed[i]) == view[i]
      ensures Rest(ListOf(s)) == view
    {
      SameQueues(MapOf(s), q);
    }

    /** Filling an order that the book does not hold leaves the book as it is. */
    method BookTakerFill(order: Order, remaining: int, s: Side)
      requires Valid() && order.terms.id !in orderMap
      requires order.filledQty == 0 && order.status == New && remaining <= order.terms.quantity
      requires order.terms.quantity >= 0 ==> remaining >= 0
      requires order.terms.quantity < 0 ==> remaining == order.terms.quantity
      modifies order`filledQty, order`status
      ensures Valid() && Rest(ListOf(s)) == old(Rest(ListOf(s)))
              && Rest(ListOf(Opposite(s))) == old(Rest(ListOf(Opposite(s))))
      ensures order.filledQty == order.terms.quantity - remaining && order.status == StatusAfter(order)
      ensures order.RemainingQty() == remaining && (order.IsFilled() <==> remaining <= 0)
      ensures remaining > 0 ==> Rests(order)
    {
      hide *;
      NotListed(order, s);
      NotListed(order, Opposite(s));
      ghost var near, far := ListOf(s), ListOf(Opposite(s));
      ghost var near', far' := Rest(near), Rest(far);
      ghost var q, q' := QueuesOf(MapOf(s)), QueuesOf(MapOf(Opposite(s)));
      FillTaker(order, remaining);
      Untouched(s, q, near, near');
      Untouched(Opposite(s), q', far, far');
    }

    /** A market order trades what it can and never rests. */
    method MatchMarketOrder(order: Order) returns (trades: seq<Trade>)
      requires Valid() && Incoming(order) && order.terms.otype == Market
      modifies this, MapOf(Opposite(order.terms.side)).Values`orders, orderMap.Values`filledQty, orderMap.Values`status
      modifies order`filledQty, order`status
      ensures Valid()
      ensures ReferenceBook.Submit(old(Abs()), order.terms) == Submitted(trades, Abs(), order.RemainingQty())
      ensures order.status == StatusAfter(order)
      ensures bidMap.Values <= old(bidMap.Values) && askMap.Values <= old(askMap.Values)
      ensures orderMap.Keys <= old(orderMap.Keys) && orderMap.Values <= old(orderMap.Values)
      ensures Ledger(old(FillMap(orderMap)), FillMap(old(orderMap)), trades)
              && Between(trades, order.terms, old(orderMap))
    {
      hide *;
      var s := Opposite(order.terms.side);
      OppositeTwice(order.terms.side);
      IncomingMeans(order);
      ghost var b0, index0 := Abs(), orderMap;
      AbsIs(s);
      MapsOf(s);
      TakerBounds(s, order.terms);
      var remaining;
      trades, remaining := MatchLoop(order, s);
      ghost var f1 := FillMap(index0);
      BookTakerFill(order, remaining, s);
      SameFills(index0, f1);
      AbsIs(s);
      MapsOf(s);
      SubmitPieces(b0, Abs(), order.terms, trades, Rest(ListOf(s)), remaining);
    }

    lemma ListAfterJoin(s: Side, q: Queues, listed: seq<Order>, view: seq<Resting>, order: Order)
      requires Priced(q) && QueuesOf(MapOf(s)) == Joined(q, order)
      requires listed == Flatten(s, q) && |view| == |listed|
      requires forall i | 0 <= i < |listed| :: View(listed[i]) == view[i]
      ensures Rest(ListOf(s)) == Insert(s, view, View(order))
    {
      hide Priced, Joined, Flatten;
      FlattenJoined(s, q, order);
      RestInsert(s, listed, order);
      assert Rest(listed) == view;
    }

    /** What is left of a limit order goes behind everything of its price or better. */
    method RestRemainder(order: Order)
      requires Valid() && order.terms.id !in orderMap && order.terms.symbol == symbol && Rests(order)
      modifies this, MapOf(order.terms.side).Values`orders
      ensures Valid() && orderMap == old(orderMap)[order.terms.id := order]
      ensures Rest(ListOf(order.terms.side))
                == Insert(order.terms.side, old(Rest(ListOf(order.terms.side))), View(order))
      ensures Rest(ListOf(Opposite(order.terms.side))) == old(Rest(ListOf(Opposite(order.terms.side))))
      ensures fresh(MapOf(order.terms.side).Values - old(MapOf(order.terms.side).Values))
      ensures MapOf(Opposite(order.terms.side)) == old(MapOf(Opposite(order.terms.side)))
    {
      hide *;
      var s := order.terms.side;
      RestsMeans(order);
      QueuesArePriced(s);
      ghost var near, far := ListOf(s), ListOf(Opposite(s));
      ghost var near', far' := Rest(near), Rest(far);
      ghost var q, q' := QueuesOf(MapOf(s)), QueuesOf(MapOf(Opposite(s)));
      AddOrderToBook(order);
      ListAfterJoin(s, q, near, near', order);
      Untouched(Opposite(s), q', far, far');
    }

    /** After its loop a limit order books its own fill and rests if anything is left. */
    method CloseLimit(order: Order, remaining: int)
      requires Valid() && order.terms.id !in orderMap && order.terms.symbol == symbol
      requires order.filledQty == 0 && order.status == New && remaining <= order.terms.quantity
      requires order.terms.quantity >= 0 ==> remaining >= 0
      requires order.terms.quantity < 0 ==> remaining == order.terms.quantity
      modifies this, MapOf(order.terms.side).Values`orders, order`filledQty, order`status
      ensures Valid() && orderMap.Keys <= old(orderMap.Keys) + {order.terms.id}
              && orderMap.Values <= old(orderMap.Values) + {order}
      ensures Rest(ListOf(Opposite(order.terms.side))) == old(Rest(ListOf(Opposite(order.terms.side))))
      ensures Rest(ListOf(order.terms.side)) ==
                if remaining > 0 then
                  Insert(order.terms.side, old(Rest(ListOf(order.terms.side))),
                         Resting(order.terms.id, order.terms.price, remaining))
                else old(Rest(ListOf(order.terms.side)))
      ensures order.RemainingQty() == remaining && order.status == StatusAfter(order)
      ensures fresh(MapOf(order.terms.side).Values - old(MapOf(order.terms.side).Values))
      ensures MapOf(Opposite(order.terms.side)) == old(MapOf(Opposite(order.terms.side)))
    {
      hide *;
      BookTakerFill(order, remaining, order.terms.side);
      if !order.IsFilled() {
        RestRemainder(order);
      }
    }

    /** A limit order against the other side `s`, and what is left of it on its own. */
    method MatchAndClose(order: Order, s: Side) returns (trades: seq<Trade>, remaining: int)
      requires Valid() && Incoming(order) && order.terms.side == Opposite(s)
      modifies this, MapOf(s).Values`orders, MapOf(Opposite(s)).Values`orders
      modifies orderMap.Values`filledQty, orderMap.Values`status, order`filledQty, order`status
      ensures Valid() && MapOf(s).Values <= old(MapOf(s).Values)
      ensures fresh(MapOf(Opposite(s)).Values - old(MapOf(Opposite(s)).Values))
      ensures Match(order.terms, old(Rest(ListOf(s))), order.terms.quantity)
              == Matched(trades, Rest(ListOf(s)), remaining)
      ensures Rest(ListOf(Opposite(s))) ==
                if remaining > 0 then
                  Insert(Opposite(s), old(Rest(ListOf(Opposite(s)))),
                         Resting(order.terms.id, order.terms.price, remaining))
                else old(Rest(ListOf(Opposite(s))))
      ensures order.RemainingQty() == remaining && order.status == StatusAfter(order)
      ensures orderMap.Keys <= old(orderMap.Keys) + {order.terms.id}
              && orderMap.Values <= old(orderMap.Values) + {order}
      ensures Ledger(old(FillMap(orderMap)), FillMap(old(orderMap)), trades)
              && Between(trades, order.terms, old(orderMap))
    {
      hide *;
      OppositeTwice(s);
      IncomingMeans(order);
      TakerBounds(s, order.terms);
      ghost var index0 := orderMap;
      trades, remaining := MatchLoop(order, s);
      ghost var f1 := FillMap(index0);
      CloseLimit(order, remaining);
      SameFills(index0, f1);
    }

    /** A limit order trades down to its limit; a positive remainder rests at the limit. */
    method MatchLimitOrder(order: Order) returns (trades: seq<Trade>)
      requires Valid() && Incoming(order) && order.terms.otype == Limit
      modifies this, bidMap.Values`orders, askMap.Values`orders, orderMap.Values`filledQty, orderMap.Values`status
      modifies order`filledQty, order`status
      ensures Valid()
      ensures ReferenceBook.Submit(old(Abs()), order.terms) == Submitted(trades, Abs(), order.RemainingQty())
      ensures order.status == StatusAfter(order)
      ensures fresh(bidMap.Values - old(bidMap.Values)) && fresh(askMap.Values - old(askMap.Values))
      ensures orderMap.Keys <= old(orderMap.Keys) + {order.terms.id}
              && orderMap.Values <= old(orderMap.Values) + {order}
      ensures Ledger(old(FillMap(orderMap)), FillMap(old(orderMap)), trades)
              && Between(trades, order.terms, old(orderMap))
    {
      hide *;
      var s := Opposite(order.terms.side);
      OppositeTwice(order.terms.side);
      ghost var b0 := Abs();
      AbsIs(s);
      MapsOf(s);
      var remaining;
      trades, remaining := MatchAndClose(order, s);
      AbsIs(s);
      MapsOf(s);
      SubmitPieces(b0, Abs(), order.terms, trades, Rest(ListOf(s)), remaining);
    }

    lemma MapsOf(s: Side)
      ensures MapOf(s) == (if s == Buy then bidMap else askMap)
      ensures MapOf(Opposite(s)) == (if s == Buy then askMap else bidMap)
    {
    }

    /** Everything the book promises between operations. */
    ghost predicate Sound()
      reads this, bidMap.Values`orders, askMap.Values`orders, orderMap.Values`filledQty, orderMap.Values`status
      reads ListOf(Buy)`filledQty, ListOf(Sell)`filledQty
    {
      Valid() && Proper(Abs())
    }

    /** The trades and the new book are those of the reference matcher. */
    method Submit(order: Order) returns (trades: seq<Trade>)
      requires Sound() && Incoming(order)
      modifies this, bidMap.Values`orders, askMap.Values`orders, orderMap.Values`filledQty, orderMap.Values`status
      modifies order`filledQty, order`status
      ensures Sound()
      ensures ReferenceBook.Submit(old(Abs()), order.terms) == Submitted(trades, Abs(), order.RemainingQty())
      ensures var far := Opposite(order.terms.side);
              Answered(order.terms, old(SideOf(Abs(), far)), trades, SideOf(Abs(), far), order.RemainingQty())
      ensures order.status == StatusAfter(order)
      ensures fresh(bidMap.Values - old(bidMap.Values)) && fresh(askMap.Values - old(askMap.Values))
      ensures orderMap.Keys <= old(orderMap.Keys) + {order.terms.id}
              && orderMap.Values <= old(orderMap.Values) + {order}
      ensures Ledger(old(FillMap(orderMap)), FillMap(old(orderMap)), trades)
              && Between(trades, order.terms, old(orderMap))
    {
      hide *;
      SoundIs();
      ghost var b0 := Abs();
      MapsOf(Opposite(order.terms.side));
      if order.terms.otype == Market {
        trades := MatchMarketOrder(order);
      } else {
        trades := MatchLimitOrder(order);
      }
      SubmitKeepsProper(b0, order.terms);
      SubmitAnswers(b0, order.terms);
      SoundIs();
    }

    lemma SoundIs()
      ensures Sound() <==> Valid() && Proper(Abs())
    {
      hide Valid, Proper, Abs;
    }

    method RemoveOrderFromLevel(level: PriceLevel, id: nat)
      modifies level`orders
      ensures level.orders == WithoutOrder(old(level.orders), id)
    {
      var q := level.orders;
      for i := 0 to |q|
        invariant level.orders == q
        invariant forall k | 0 <= k < i :: q[k].terms.id != id
      {
        if q[i].terms.id == id {
          WithoutAt(q, id, i);
          level.orders := q[..i] + q[i + 1..];
          return;
        }
      }
      WithoutBehind(q, [], id);
      assert q + [] == q;
    }

    /** Where an indexed order is. */
    lemma IndexedIsQueued(id: nat) returns (i: nat)
      requires Valid() && id in orderMap
      ensures var o := orderMap[id]; var s := o.terms.side; var p := o.terms.price;
              && o.terms.id == id && Rests(o) && o.IsActive()
              && p in MapOf(s) && MapOf(s)[p].price == p
              && i < |MapOf(s)[p].orders| && MapOf(s)[p].orders[i] == o
              && (forall x | x in orderMap && x != id :: orderMap[x] != o)
    {
      var o := orderMap[id];
      assert Queued(QueuesOf(MapOf(o.terms.side)), o);
      LevelFacts(o.terms.side, o.terms.price);
      i :| 0 <= i < |MapOf(o.terms.side)[o.terms.price].orders| && MapOf(o.terms.side)[o.terms.price].orders[i] == o;
    }

    /** The reference book holds of an order what is left of it if it is indexed, and nothing otherwise. */
    lemma HeldIs(id: nat)
      requires Valid()
      ensures Held(Abs(), id) == if id in orderMap then orderMap[id].RemainingQty() else 0
    {
      HeldOn(Buy, id);
      HeldOn(Sell, id);
    }

    lemma HeldOn(s: Side, id: nat)
      requires Valid()
      ensures RemOf(SideOf(Abs(), s), id)
              == if id in orderMap && orderMap[id].terms.side == s then orderMap[id].RemainingQty() else 0
    {
      hide LevelsOk, Flatten, RemOf;
      AbsIs(s);
      var q := QueuesOf(MapOf(s));
      if id in orderMap && orderMap[id].terms.side == s {
        var i := IndexedIsQueued(id);
        var p := orderMap[id].terms.price;
        IdIsUnique(s, symbol, orderMap, q, p, i);
        HeldOfFlat(s, q, p, i, id);
      } else {
        forall x, k | x in q && 0 <= k < |q[x]| ensures q[x][k].terms.id != id {
          LevelFacts(s, x);
          assert Indexed(s, symbol, orderMap, q[x][k]);
        }
        HeldOfNowhere(s, q, id);
      }
    }

    lemma ValidAfterLeave(s: Side, p: int, i: nat, index: Index, near: Queues, far: Queues)
      requires ShapeFor(s, symbol, index, near, far)
      requires p in near && i < |near[p]|
      requires LevelsOk(s) && LevelsOk(Opposite(s))
      requires QueuesOf(MapOf(s)) == Left(near, p, near[p][i].terms.id) && QueuesOf(MapOf(Opposite(s))) == far
      requires orderMap == index - {near[p][i].terms.id}
      requires forall id | id in index && id != near[p][i].terms.id :: Rests(index[id])
      ensures Valid()
    {
      hide QueuesOk, IndexOk, Rests, LevelsOk, Left;
      ShapeAfterLeave(s, symbol, index, near, far, p, i);
    }

    /** Taking an order out of its level, and the level out of the side if that empties it. */
    method Unqueue(level: PriceLevel, s: Side, id: nat)
      requires LevelsOk(s) && LevelsOk(Opposite(s))
      requires level.price in MapOf(s) && MapOf(s)[level.price] == level
      modifies level`orders, this`bids, this`asks, this`bidMap, this`askMap
      ensures LevelsOk(s) && LevelsOk(Opposite(s))
      ensures level.price in old(QueuesOf(MapOf(s)))
              && QueuesOf(MapOf(s)) == Left(old(QueuesOf(MapOf(s))), level.price, id)
      ensures QueuesOf(MapOf(Opposite(s))) == old(QueuesOf(MapOf(Opposite(s))))
      ensures MapOf(s).Values <= old(MapOf(s).Values) && MapOf(Opposite(s)) == old(MapOf(Opposite(s)))
    {
      hide *;
      ghost var near, far := QueuesOf(MapOf(s)), QueuesOf(MapOf(Opposite(s)));
      LevelApart(s, level.price);
      LeftIs(near, level.price, id);
      RemoveOrderFromLevel(level, id);
      CleanupLevel(level, s);
      SameQueues(MapOf(s), Left(near, level.price, id));
      SameQueues(MapOf(Opposite(s)), far);
    }

    /** The lists of both sides once the `i`-th order of a level has left. */
    lemma ListsAfterLeave(s: Side, p: int, i: nat, index: Index, near: Queues, far: Queues)
      requires ShapeFor(s, symbol, index, near, far) && p in near && i < |near[p]|
      requires QueuesOf(MapOf(s)) == Left(near, p, near[p][i].terms.id) && QueuesOf(MapOf(Opposite(s))) == far
      ensures var id := near[p][i].terms.id;
              && Rest(ListOf(s)) == Without(Rest(Flatten(s, near)), id)
              && Rest(ListOf(Opposite(s))) == Without(Rest(Flatten(Opposite(s), far)), id)
    {
      hide Left, OnlyAt, Flatten, WithoutOrder, Rest;
      var o := near[p][i];
      IdIsUnique(s, symbol, index, near, p, i);
      FlattenLeft(s, near, p, o.terms.id, i);
      RestWithout(Flatten(s, near), o.terms.id);
      NotOnOtherSide(s, symbol, index, near, far, p, i);
      RestWithout(Flatten(Opposite(s), far), o.terms.id);
    }

    /** The book without a cancelled order. */
    method LeaveBook(order: Order, s: Side, ghost i: nat)
      requires LevelsOk(s) && LevelsOk(Opposite(s))
      requires ShapeFor(s, symbol, orderMap, QueuesOf(MapOf(s)), QueuesOf(MapOf(Opposite(s))))
      requires order.terms.price in MapOf(s) && MapOf(s)[order.terms.price].price == order.terms.price
      requires i < |MapOf(s)[order.terms.price].orders| && MapOf(s)[order.terms.price].orders[i] == order
      requires forall id | id in orderMap && id != order.terms.id :: Rests(orderMap[id])
      modifies this, MapOf(s).Values`orders
      ensures Valid() && orderMap == old(orderMap) - {order.terms.id}
      ensures Rest(ListOf(s)) == Without(old(Rest(ListOf(s))), order.terms.id)
      ensures Rest(ListOf(Opposite(s))) == Without(old(Rest(ListOf(Opposite(s)))), order.terms.id)
      ensures MapOf(s).Values <= old(MapOf(s).Values) && MapOf(Opposite(s)) == old(MapOf(Opposite(s)))
    {
      hide *;
      ghost var near, far, index := QueuesOf(MapOf(s)), QueuesOf(MapOf(Opposite(s))), orderMap;
      ghost var near', far' := Rest(ListOf(s)), Rest(ListOf(Opposite(s)));
      var price, id := order.terms.price, order.terms.id;
      assert MapOf(s)[price] in MapOf(s).Values;
      Unqueue(MapOf(s)[price], s, id);
      orderMap := orderMap - {id};
      SameQueues(MapOf(s), Left(near, price, id));
      SameQueues(MapOf(Opposite(s)), far);
      ValidAfterLeave(s, price, i, index, near, far);
      ListsAfterLeave(s, price, i, index, near, far);
    }

    /** A cancel succeeds exactly for an order that rests, and reports what was left of it. */
    method Cancel(id: nat) returns (r: CancelResult)
      requires Sound()
      modifies this, bidMap.Values`orders, askMap.Values`orders, orderMap.Values`status
      ensures Sound()
      ensures bidMap.Values <= old(bidMap.Values) && askMap.Values <= old(askMap.Values)
      ensures r == if Held(old(Abs()), id) > 0 then Done(Held(old(Abs()), id)) else Refused(AlreadyFilled)
      ensures id !in old(orderMap) ==> r == Refused(AlreadyFilled) && orderMap == old(orderMap) && Abs() == old(Abs())
      ensures id in old(orderMap) ==>
                && r == Done(old(orderMap[id].RemainingQty())) && r.cancelledQty > 0
                && old(orderMap)[id].status == Cancelled
                && orderMap == old(orderMap) - {id}
                && Abs() == ReferenceBook.Cancel(old(Abs()), id)
    {
      hide *;
      SoundIs();
      HeldIs(id);
      if id !in orderMap {
        return Refused(AlreadyFilled);
      }
      var order := orderMap[id];
      var s := order.terms.side;
      ghost var b0 := Abs();
      AbsIs(s);
      MapsOf(s);
      ghost var i := IndexedIsQueued(id);
      RestsMeans(order);
      Unpack(s);
      ghost var near, far := QueuesOf(MapOf(s)), QueuesOf(MapOf(Opposite(s)));
      ghost var near', far' := ListOf(s), ListOf(Opposite(s));
      ghost var view, view' := Rest(near'), Rest(far');
      var c := order.TryCancel();
      if c.Err? {
        assert false;  // reported by the source
      }
      var cancelledQty := order.RemainingQty();
      SameQueues(MapOf(s), near);
      SameQueues(MapOf(Opposite(s)), far);
      Untouched(s, near, near', view);
      Untouched(Opposite(s), far, far', view');
      if order.terms.price in MapOf(s) {
        LeaveBook(order, s, i);
      }
      AbsIs(s);
      MapsOf(s);
      CancelPieces(b0, Abs(), s, id);
      CancelKeepsProper(b0, id);
      SoundIs();
      return Done(cancelledQty);
    }

    /** The price at the root of a side's heap is the best price of the reference list. */
    method BestOf(s: Side) returns (price: int, ok: bool)
      requires Valid()
      ensures ok <==> SideOf(Abs(), s) != []
      ensures ok ==> price == SideOf(Abs(), s)[0].price
      ensures !ok ==> price == 0
    {
      AbsIs(s);
      if |HeapOf(s)| == 0 {
        EmptyHeap(s);
        return 0, false;
      }
      BestLevelFirst(s);
      ghost var l := HeapOf(s)[0];
      LevelFacts(s, l.price);
      assert Rest(ListOf(s))[0] == View(l.orders[0]);
      return HeapOf(s)[0].price, true;
    }

    /** Every level in the heap is the level its price is filed under. */
    lemma HeapLevel(s: Side, i: nat)
      requires LevelsOk(s) && i < |HeapOf(s)|
      ensures HeapOf(s)[i].price in MapOf(s) && MapOf(s)[HeapOf(s)[i].price] == HeapOf(s)[i]
    {
      assert HeapOf(s)[i] in multiset(HeapOf(s));
      var p := KeyOf(MapOf(s), HeapOf(s)[i]);
    }

    /** And every level is in the heap. */
    lemma LevelInHeap(s: Side, p: int) returns (i: nat)
      requires LevelsOk(s) && p in MapOf(s)
      ensures i < |HeapOf(s)| && HeapOf(s)[i].price == p
    {
      assert MapOf(s)[p] in multiset(HeapOf(s));
      i :| 0 <= i < |HeapOf(s)| && HeapOf(s)[i] == MapOf(s)[p];
    }

    lemma DepthOfLevel(s: Side, p: int)
      requires Valid()
      ensures DepthAt(SideOf(Abs(), s), p) == if p in MapOf(s) then TotalRem(Rest(MapOf(s)[p].orders)) else 0
      ensures p in MapOf(s) ==> DepthAt(SideOf(Abs(), s), p) > 0
    {
      hide LevelsOk, Valid, Flatten;
      AbsIs(s);
      QueuesArePriced(s);
      DepthOfFlat(s, QueuesOf(MapOf(s)), p);
      if p in MapOf(s) {
        LevelFacts(s, p);
        TotalRemPositive(Rest(MapOf(s)[p].orders));
      }
    }

    /** What the loops over a side's levels and their orders add up to. */
    lemma DepthFacts(s: Side)
      requires Valid()
      ensures forall k | 0 <= k < |HeapOf(s)| ::
                var level := HeapOf(s)[k];
                && DepthAt(SideOf(Abs(), s), level.price) == TotalRem(Rest(level.orders)) > 0
                && TotalRem(Rest(level.orders[..0])) == 0 && level.orders[..|level.orders|] == level.orders
                && forall i | 0 <= i < |level.orders| ::
                     TotalRem(Rest(level.orders[..i + 1]))
                         == TotalRem(Rest(level.orders[..i])) + level.orders[i].RemainingQty()
    {
      hide *;
      Unpack(s);
      forall k | 0 <= k < |HeapOf(s)|
        ensures var level := HeapOf(s)[k];
                && DepthAt(SideOf(Abs(), s), level.price) == TotalRem(Rest(level.orders)) > 0
                && TotalRem(Rest(level.orders[..0])) == 0 && level.orders[..|level.orders|] == level.orders
                && forall i | 0 <= i < |level.orders| ::
                     TotalRem(Rest(level.orders[..i + 1]))
                         == TotalRem(Rest(level.orders[..i])) + level.orders[i].RemainingQty()
      {
        HeapLevel(s, k);
        DepthOfLevel(s, HeapOf(s)[k].price);
        QtyFacts(HeapOf(s)[k].orders);
      }
    }

    lemma QtyFacts(q: seq<Order>)
      ensures TotalRem(Rest(q[..0])) == 0 && q[..|q|] == q
      ensures forall i | 0 <= i < |q| :: TotalRem(Rest(q[..i + 1])) == TotalRem(Rest(q[..i])) + q[i].RemainingQty()
    {
      forall i | 0 <= i < |q| ensures TotalRem(Rest(q[..i + 1])) == TotalRem(Rest(q[..i])) + q[i].RemainingQty() {
        RestAppend(q[..i], [q[i]]);
        assert q[..i + 1] == q[..i] + [q[i]] && Rest([q[i]]) == [View(q[i])];
        TotalRemPush(Rest(q[..i]), View(q[i]));
      }
    }

    /** The depth of a side lists, level by level, what the reference book holds at each of its prices. */
    method Depth(s: Side) returns (depth: seq<(int, int)>)
      requires Valid()
      ensures |depth| == |HeapOf(s)|
      ensures forall i | 0 <= i < |depth| ::
                depth[i].0 == HeapOf(s)[i].price && depth[i].1 == DepthAt(SideOf(Abs(), s), depth[i].0) > 0
      ensures forall p | DepthAt(SideOf(Abs(), s), p) != 0 :: exists i :: 0 <= i < |depth| && depth[i].0 == p
    {
      hide *;
      DepthFacts(s);
      var heap := HeapOf(s);
      depth := [];
      for k := 0 to |heap|
        invariant |depth| == k
        invariant forall i | 0 <= i < k ::
                    depth[i].0 == heap[i].price && depth[i].1 == DepthAt(SideOf(Abs(), s), depth[i].0) > 0
      {
        var totalQty, q := 0, heap[k].orders;
        for i := 0 to |q|
          invariant totalQty == TotalRem(Rest(q[..i]))
        {
          totalQty := totalQty + q[i].RemainingQty();
        }
        if totalQty > 0 {
          depth := depth + [(heap[k].price, totalQty)];
        }
      }
      Unpack(s);
      forall p | DepthAt(SideOf(Abs(), s), p) != 0 ensures exists i :: 0 <= i < |depth| && depth[i].0 == p {
        DepthOfLevel(s, p);
        var i := LevelInHeap(s, p);
        assert depth[i].0 == p;
      }
    }
  }
}
