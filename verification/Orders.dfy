/** Orders and trades of the matching engine: the order's fill and cancel operations as one thread runs
    them. Their interleavings are the subject of module `OrderProtocol`. */
module Orders {

  datatype Side = Buy | Sell
  datatype OrderType = Limit | Market
  datatype Status = New | Partially | Filled | Cancelled | Rejected

  datatype OrderError = AlreadyFilled | AlreadyCancelled | AlreadyRejected | ExceedsRemaining
  datatype Result = Ok | Err(error: OrderError)

  function Opposite(s: Side): (r: Side)
    ensures r != s
  {
    if s == Buy then Sell else Buy
  }

  lemma OppositeTwice(s: Side)
    ensures Opposite(Opposite(s)) == s
  {
  }

  predicate ActiveStatus(s: Status) {
    s == New || s == Partially
  }

  /** The status of an order that was filled and not cancelled. */
  function StatusFor(filled: int, quantity: int): Status {
    if filled == 0 then New else if filled >= quantity then Filled else Partially
  }

  /** An order's terms, without its mutable state. */
  datatype Terms = Terms(id: nat, symbol: string, side: Side, otype: OrderType, price: int, quantity: int)

  /** The two identifiers are filled in positionally, taker first, whatever the taker's side. */
  datatype Trade = Trade(buyOrderId: nat, sellOrderId: nat, symbol: string, price: int, quantity: int)

  function NewTrade(taker: Terms, makerId: nat, price: int, qty: int): (t: Trade)
    ensures t.buyOrderId == taker.id && t.sellOrderId == makerId && t.symbol == taker.symbol
    ensures t.price == price && t.quantity == qty
  {
    Trade(taker.id, makerId, taker.symbol, price, qty)
  }

  /** What a trade moves on the order `id`. */
  function Share(t: Trade, id: nat): int {
    (if t.buyOrderId == id then t.quantity else 0) + (if t.sellOrderId == id then t.quantity else 0)
  }

  /** The quantity of all trades that name the order `id`. */
  function Traded(ts: seq<Trade>, id: nat): int {
    if ts == [] then 0 else Traded(ts[..|ts| - 1], id) + Share(ts[|ts| - 1], id)
  }

  lemma TradedPush(ts: seq<Trade>, t: Trade, id: nat)
    ensures Traded(ts + [t], id) == Traded(ts, id) + Share(t, id)
  {
    assert (ts + [t])[..|ts|] == ts;
  }

  lemma {:induction false} TradedAppend(a: seq<Trade>, b: seq<Trade>, id: nat)
    ensures Traded(a + b, id) == Traded(a, id) + Traded(b, id)
  {
    if b == [] {
      assert a + b == a;
    } else {
      var n := |b| - 1;
      assert a + b == (a + b[..n]) + [b[n]];
      TradedPush(a + b[..n], b[n], id);
      TradedAppend(a, b[..n], id);
    }
  }

  lemma {:induction false} TradedElsewhere(ts: seq<Trade>, id: nat)
    requires forall j | 0 <= j < |ts| :: ts[j].buyOrderId != id && ts[j].sellOrderId != id
    ensures Traded(ts, id) == 0
  {
    if ts != [] {
      TradedElsewhere(ts[..|ts| - 1], id);
    }
  }

  class Order {
    const terms: Terms
    var filledQty: int
    var status: Status

    constructor (terms: Terms)
      ensures this.terms == terms && filledQty == 0 && status == New
    {
      this.terms := terms;
      filledQty := 0;
      status := New;
    }

    function RemainingQty(): int
      reads this`filledQty
    {
      terms.quantity - filledQty
    }

    predicate IsFilled()
      reads this`filledQty
    {
      filledQty >= terms.quantity
    }

    predicate IsActive()
      reads this`status
    {
      ActiveStatus(status)
    }

    function CancelQuantity(): int
      reads this
    {
      if status != Cancelled then 0 else terms.quantity - filledQty
    }

    method TryCancel() returns (r: Result)
      modifies this`status
      ensures r == Ok <==> old(IsActive())
      ensures r == Ok ==> status == Cancelled && CancelQuantity() == RemainingQty()
      ensures r != Ok ==> status == old(status)
    {
      if status == Filled {
        return Err(AlreadyFilled);
      }
      if status == Cancelled {
        return Err(AlreadyCancelled);
      }
      if status == Rejected {
        return Err(AlreadyRejected);
      }
      status := Cancelled;
      return Ok;
    }

    method TryFill(fillQty: int) returns (r: Result)
      modifies this`filledQty, this`status
      ensures r == Ok <==> fillQty <= 0 || (old(status) !in {Cancelled, Rejected} && fillQty <= old(RemainingQty()))
      ensures r != Ok || fillQty <= 0 ==> filledQty == old(filledQty) && status == old(status)
      ensures r == Ok && fillQty > 0 ==>
                && filledQty == old(filledQty) + fillQty
                && status == (if IsFilled() then Filled else Partially)
      ensures r.Err? ==> r.error in {AlreadyCancelled, ExceedsRemaining}
      ensures r == Err(AlreadyCancelled) <==> fillQty > 0 && old(status) in {Cancelled, Rejected}
    {
      if fillQty <= 0 {
        return Ok;
      }
      if status == Cancelled || status == Rejected {
        return Err(AlreadyCancelled);
      }
      var curFilled := filledQty;
      var remaining := terms.quantity - curFilled;
      if fillQty > remaining {
        return Err(ExceedsRemaining);
      }
      filledQty := curFilled + fillQty;
      var newFilled := curFilled + fillQty;
      status := if newFilled >= terms.quantity then Filled else Partially;
      return Ok;
    }
  }
}
