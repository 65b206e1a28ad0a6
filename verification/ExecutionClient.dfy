/** The algo engine's direct client of the matching engine: what its execution reports say. */
module ExecutionClients {
  import opened Orders
  import opened ReferenceBook
  import opened ReferenceEngines
  import opened OrderBooks
  import opened MatchingEngines
  import opened Arithmetic
  import Algo = AlgoEngine

  datatype ExecutionReport = ExecutionReport(orderId: nat, symbol: string, qty: int, filledQty: int, price: int,
                                             avgPrice: int, status: Status)

  /** What the trades are worth. */
  function TotalValue(ts: seq<Trade>): int {
    if ts == [] then 0 else TotalValue(ts[..|ts| - 1]) + ts[|ts| - 1].price * ts[|ts| - 1].quantity
  }

  /** These laws leave no choice: what trades are worth is the sum of price times quantity. */
  lemma {:induction false} ValueLaws(a: seq<Trade>, b: seq<Trade>, t: Trade)
    ensures TotalValue([]) == 0 && TotalValue([t]) == t.price * t.quantity
    ensures TotalValue(a + b) == TotalValue(a) + TotalValue(b)
    decreases |b|
  {
    assert [t][..0] == [];
    if b == [] {
      assert a + b == a;
    } else {
      var n := |b| - 1;
      assert (a + b)[..|a + b| - 1] == a + b[..n];
      ValueLaws(a, b[..n], t);
    }
  }

  method SumValues(ts: seq<Trade>) returns (totalValue: int)
    ensures totalValue == Wrap64(TotalValue(ts))
  {
    totalValue := 0;
    for i := 0 to |ts|
      invariant totalValue == Wrap64(TotalValue(ts[..i]))
    {
      assert ts[..i + 1][..i] == ts[..i];
      WrapOnce(TotalValue(ts[..i]), ts[i].price * ts[i].quantity);
      totalValue := Wrap64(totalValue + Wrap64(ts[i].price * ts[i].quantity));
    }
    assert ts[..|ts|] == ts;
  }

  /** The truncated quotient, by what it leaves. */
  lemma QuotLeaves(v: int, q: int)
    requires q > 0
    ensures if v >= 0 then Quot(v, q) * q <= v < Quot(v, q) * q + q else Quot(v, q) * q - q < v <= Quot(v, q) * q
  {
    if v >= 0 {
      DivIs(v, q);
    } else {
      DivIs(-v, q);
    }
  }

  predicate Priced(ts: seq<Trade>, lo: int, hi: int) {
    forall i | 0 <= i < |ts| :: lo <= ts[i].price <= hi && ts[i].quantity > 0
  }

  lemma {:induction false} ValueBetween(ts: seq<Trade>, lo: int, hi: int)
    requires Priced(ts, lo, hi)
    ensures lo * TotalQty(ts) <= TotalValue(ts) <= hi * TotalQty(ts)
  {
    if ts != [] {
      var n := |ts| - 1;
      var t := ts[n];
      assert Priced(ts[..n], lo, hi);
      ValueBetween(ts[..n], lo, hi);
      TotalQtyPush(ts[..n], t);
      assert ts == ts[..n] + [t];
      ValueStep(lo, hi, t.price, t.quantity, TotalQty(ts[..n]), TotalValue(ts[..n]));
    } else {
      assert lo * 0 == hi * 0 == 0;
    }
  }

  lemma ValueStep(lo: int, hi: int, price: int, q: int, total: int, value: int)
    requires lo <= price <= hi && q > 0 && lo * total <= value <= hi * total
    ensures lo * (total + q) <= value + price * q <= hi * (total + q)
  {
    MulOrder(lo, price, q);
    MulOrder(price, hi, q);
    assert lo * (total + q) == lo * total + lo * q;
    assert hi * (total + q) == hi * total + hi * q;
  }

  lemma {:induction false} SomeQuantity(ts: seq<Trade>, lo: int, hi: int)
    requires Priced(ts, lo, hi)
    ensures TotalQty(ts) >= |ts|
  {
    if ts != [] {
      var n := |ts| - 1;
      assert Priced(ts[..n], lo, hi);
      SomeQuantity(ts[..n], lo, hi);
      TotalQtyPush(ts[..n], ts[n]);
      assert ts == ts[..n] + [ts[n]];
    }
  }

  /** The truncated average lies where the prices do. */
  lemma QuotBetween(v: int, q: int, lo: int, hi: int)
    requires q > 0 && lo * q <= v <= hi * q
    ensures lo <= Quot(v, q) <= hi
  {
    if v >= 0 {
      DivOrder(v, q, lo);
      DivIs(v, q);
      MulOrder(v / q, hi, q);
    } else {
      assert (-hi) * q <= -v <= (-lo) * q;
      DivOrder(-v, q, -hi);
      DivIs(-v, q);
      MulOrder(-v / q, -lo, q);
    }
  }

  /** At one price the reported average is that price exactly when the value fits in 64 bits. */
  lemma OnePriceAverage(ts: seq<Trade>, p: int)
    requires Priced(ts, p, p) && ts != [] && TotalQty(ts) <= MAX_INT64
    ensures TotalQty(ts) > 0 && (Quot(Wrap64(TotalValue(ts)), TotalQty(ts)) == p <==> Int64(TotalValue(ts)))
  {
    ValueBetween(ts, p, p);
    SomeQuantity(ts, p, p);
    var v, q := TotalValue(ts), TotalQty(ts);
    if Int64(v) {
      QuotBetween(v, q, p, p);
    } else {
      QuotNear(Wrap64(v), q);
    }
  }

  /** At prices the order accepts. */
  predicate AllAccepted(t: Terms, ts: seq<Trade>) {
    forall i | 0 <= i < |ts| :: Crosses(t, ts[i].price) && ts[i].quantity > 0
  }

  /** What an order filled is what its trades say, all at prices it accepts. */
  lemma ReportedFill(b: Book, order: Order, ts: seq<Trade>, b1: Book)
    requires Proper(b) && ReferenceBook.Submit(b, order.terms) == Submitted(ts, b1, order.RemainingQty())
    ensures order.filledQty == TotalQty(ts) && AllAccepted(order.terms, ts)
    ensures (ts == [] ==> order.filledQty == 0) && (ts != [] ==> order.filledQty > 0)
    ensures order.terms.quantity >= 0 ==> 0 <= order.filledQty <= order.terms.quantity
  {
    var t := order.terms;
    var l := SideOf(b, Opposite(t.side));
    SubmitTotal(b, t, ts, b1, order.RemainingQty());
    MatchIsMaximal(t, l, t.quantity);
    forall i | 0 <= i < |ts| ensures Crosses(t, ts[i].price) && ts[i].quantity > 0 {
      MatchFollowsPriority(t, l, t.quantity, i);
    }
    if ts != [] {
      var lo, hi := PriceRange(ts);
      SomeQuantity(ts, lo, hi);
    }
  }

  lemma PriceRange(ts: seq<Trade>) returns (lo: int, hi: int)
    requires ts != [] && forall i | 0 <= i < |ts| :: ts[i].quantity > 0
    ensures Priced(ts, lo, hi) && (exists i :: 0 <= i < |ts| && ts[i].price == lo)
            && (exists i :: 0 <= i < |ts| && ts[i].price == hi)
  {
    var n := |ts| - 1;
    lo, hi := ts[n].price, ts[n].price;
    if n > 0 {
      var l, h := PriceRange(ts[..n]);
      var i, j :| 0 <= i < n && ts[..n][i].price == l && 0 <= j < n && ts[..n][j].price == h;
      assert ts[i].price == l && ts[j].price == h;
      lo, hi := if l < lo then l else lo, if h > hi then h else hi;
      forall k | 0 <= k < |ts| ensures lo <= ts[k].price <= hi && ts[k].quantity > 0 {
        if k < n {
          assert ts[..n][k] == ts[k];
        }
      }
    }
  }

  lemma AverageIs(t: Terms, ts: seq<Trade>, avg: int)
    requires AllAccepted(t, ts) && ts != [] && Int64(TotalValue(ts))
    requires TotalQty(ts) > 0 && avg == Quot(Wrap64(TotalValue(ts)), TotalQty(ts))
    ensures forall lo, hi | Priced(ts, lo, hi) :: lo <= avg <= hi
    ensures t.otype == Limit ==> if t.side == Buy then avg <= t.price else avg >= t.price
  {
    forall lo, hi | Priced(ts, lo, hi) ensures lo <= avg <= hi {
      ValueBetween(ts, lo, hi);
      QuotBetween(TotalValue(ts), TotalQty(ts), lo, hi);
    }
    var lo, hi := PriceRange(ts);
    assert lo <= avg <= hi;
  }

  lemma Fits(v: int)
    requires Int64(v)
    ensures Wrap64(v) == v
  {
  }

  /** What an executor of the algo engine makes of a report. */
  function ForAlgo(report: ExecutionReport): Algo.Report {
    Algo.Report(report.orderId, report.filledQty, report.status == Filled, report.status == Partially)
  }

  lemma Reportable(report: ExecutionReport)
    requires 0 <= report.filledQty <= report.qty && report.status == StatusFor(report.filledQty, report.qty)
    ensures Algo.CanReport(report.qty, ForAlgo(report))
  {
    Algo.FilledAtOnce(report.qty, report.filledQty, report.orderId);
  }

  lemma StatusIs(order: Order)
    ensures StatusAfter(order) == StatusFor(order.filledQty, order.terms.quantity)
  {
  }

  class DirectExecutionClient {
    const me: MatchingEngine

    constructor (me: MatchingEngine)
      ensures this.me == me
    {
      this.me := me;
    }

    /** The report gives what the order filled on submission, never more than its quantity, the status that
        goes with it, and its average price, which lies between any bounds on the trades' prices, on the right
        side of the order's limit, if the value fits in 64 bits. It is a report the algo engine reckons with. */
    method SendOrder(r: Request) returns (report: ExecutionReport, ghost trades: seq<Trade>)
      requires me.Valid()
      modifies me, me.orderBooks.Values, LevelsOf(me.orderBooks)`orders, me.orders`filledQty, me.orders`status
      ensures me.Valid()
      ensures fresh(me.orderBooks.Values - old(me.orderBooks.Values))
      ensures fresh(LevelsOf(me.orderBooks) - old(LevelsOf(me.orderBooks)))
      ensures |me.orders| == |old(me.orders)| + 1 && me.orders[..|old(me.orders)|] == old(me.orders)
      ensures fresh(me.orders[|old(me.orders)|])
      ensures report.orderId == me.orderIDSeq == old(me.orderIDSeq) + 1
      ensures report.symbol == r.symbol && report.qty == r.quantity && report.price == r.price
      ensures trades == ReferenceBook.Submit(old(me.BookFor(r.symbol)), TermsOf(report.orderId, r)).trades
      ensures report.filledQty == TotalQty(trades) && (trades == [] ==> report.filledQty == 0 && report.avgPrice == 0)
      ensures r.quantity >= 0 ==> 0 <= report.filledQty <= r.quantity && Algo.CanReport(r.quantity, ForAlgo(report))
      ensures report.status == StatusFor(report.filledQty, r.quantity)
      ensures trades != [] && Int64(TotalValue(trades)) ==>
                var v, avg, q := TotalValue(trades), report.avgPrice, report.filledQty;
                q > 0 && if v >= 0 then avg * q <= v < avg * q + q else avg * q - q < v <= avg * q
      ensures trades != [] && Int64(TotalValue(trades)) ==>
                && (forall lo, hi | Priced(trades, lo, hi) :: lo <= report.avgPrice <= hi)
                && (r.otype == Limit && r.side == Buy ==> report.avgPrice <= r.price)
                && (r.otype == Limit && r.side == Sell ==> report.avgPrice >= r.price)
    {
      hide *;
      ghost var b := me.BookFor(r.symbol);
      me.ValidIs();
      me.BookForIsProper(r.symbol);
      var order, ts := me.SubmitOrder(r);
      trades := ts;
      TermsAre(me.orderIDSeq, r);
      ReportedFill(b, order, ts, AbsOf(me.orderBooks)[r.symbol]);
      var avgPrice := 0;
      if |ts| > 0 {
        var totalValue := SumValues(ts);
        if order.filledQty > 0 {
          avgPrice := Quot(totalValue, order.filledQty);
          if Int64(TotalValue(ts)) {
            Fits(TotalValue(ts));
            QuotLeaves(totalValue, order.filledQty);
            AverageIs(order.terms, ts, avgPrice);
          }
        }
      } else if order.filledQty > 0 {
        assert false;  // filled without a trade
      }
      report := ExecutionReport(order.terms.id, order.terms.symbol, order.terms.quantity, order.filledQty,
                                order.terms.price, avgPrice, order.status);
      StatusIs(order);
      if r.quantity >= 0 {
        Reportable(report);
      }
    }
  }
}
