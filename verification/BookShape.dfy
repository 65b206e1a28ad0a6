/** What ties the redundant structures of an order book together, stated on the references alone: the
    price levels of a side, the queues of orders they hold and the index of orders by id. Nothing here
    depends on the fill state of an order. */
module BookShape {
  import opened Orders
  import opened ReferenceBook
  import opened Collections

  type Queues = map<int, seq<Order>>
  type Index = map<nat, Order>

  ghost predicate IsBest(s: Side, ps: set<int>, p: int) {
    p in ps && forall x | x in ps :: !Better(s, x, p)
  }

  lemma {:induction false} BestExists(s: Side, ps: set<int>) returns (p: int)
    requires |ps| > 0
    ensures IsBest(s, ps, p)
  {
    p := Pick(ps);
    var others := ps - {p};
    assert forall w | w in ps :: w == p || w in others;
    if |others| > 0 {
      var y := BestExists(s, others);
      p := if Better(s, p, y) then p else y;
    }
  }

  lemma SomeBest(s: Side, ps: set<int>)
    requires |ps| > 0
    ensures exists p :: IsBest(s, ps, p)
  {
    var p := BestExists(s, ps);
  }

  /** The price with priority over all others of a non-empty set. */
  ghost function BestPrice(s: Side, ps: set<int>): (p: int)
    requires |ps| > 0
    ensures IsBest(s, ps, p)
  {
    SomeBest(s, ps);
    var p :| IsBest(s, ps, p);
    p
  }

  /** All orders of a side: levels in priority order, arrival order inside a level. */
  ghost function Flatten(s: Side, q: Queues): seq<Order>
    decreases q.Keys
  {
    if q == map[] then []
    else
      assert |q.Keys| > 0;
      var p := BestPrice(s, q.Keys);
      q[p] + Flatten(s, q - {p})
  }

  function IdsOf(os: seq<Order>): set<nat> {
    set i | 0 <= i < |os| :: os[i].terms.id
  }

  /** An order indexed under its own id, resting on side `s` of the book for `symbol`. */
  ghost predicate Indexed(s: Side, symbol: string, index: Index, o: Order) {
    && o.terms.id in index && index[o.terms.id] == o
    && o.terms.side == s && o.terms.symbol == symbol
  }

  ghost predicate QueueOk(s: Side, symbol: string, index: Index, p: int, os: seq<Order>) {
    && os != []
    && (forall i | 0 <= i < |os| :: Indexed(s, symbol, index, os[i]) && os[i].terms.price == p)
    && (forall i, j | 0 <= i < j < |os| :: os[i] != os[j])
  }

  ghost predicate QueuesOk(s: Side, symbol: string, index: Index, q: Queues) {
    forall p | p in q :: QueueOk(s, symbol, index, p, q[p])
  }

  ghost predicate Queued(q: Queues, o: Order) {
    o.terms.price in q && o in q[o.terms.price]
  }

  /** The index holds exactly the queued orders. */
  ghost predicate IndexOk(index: Index, bids: Queues, asks: Queues) {
    forall id | id in index ::
      index[id].terms.id == id && Queued(if index[id].terms.side == Buy then bids else asks, index[id])
  }

  ghost predicate ShapeOk(symbol: string, index: Index, bids: Queues, asks: Queues) {
    && QueuesOk(Buy, symbol, index, bids)
    && QueuesOk(Sell, symbol, index, asks)
    && IndexOk(index, bids, asks)
  }

  /** `ShapeOk` with the two sides named by the side `s` that is about to change. */
  ghost predicate ShapeFor(s: Side, symbol: string, index: Index, near: Queues, far: Queues) {
    if s == Buy then ShapeOk(symbol, index, near, far) else ShapeOk(symbol, index, far, near)
  }

  lemma FlattenIsQueued(s: Side, q: Queues, o: Order)
    requires forall p | p in q :: forall i | 0 <= i < |q[p]| :: q[p][i].terms.price == p
    ensures o in Flatten(s, q) <==> Queued(q, o)
    decreases q.Keys
  {
    if q != map[] {
      var p := BestPrice(s, q.Keys);
      FlattenIsQueued(s, q - {p}, o);
      if o in q[p] {
        assert o.terms.price == p;
      }
      if Queued(q, o) && o.terms.price != p {
        assert o.terms.price in q - {p};
      }
    }
  }

  lemma BestPriceIs(s: Side, ps: set<int>, p: int)
    requires p in ps && forall x | x in ps :: !Better(s, x, p)
    ensures BestPrice(s, ps) == p
  {
    assert !Better(s, BestPrice(s, ps), p);
    assert !Better(s, p, BestPrice(s, ps));
  }

  lemma FlattenBest(s: Side, q: Queues, p: int)
    requires p in q && forall x | x in q :: !Better(s, x, p)
    ensures Flatten(s, q) == q[p] + Flatten(s, q - {p})
  {
    assert |q.Keys| > 0;
    BestPriceIs(s, q.Keys, p);
  }

  /** With the best level replaced, the rest of the side stays behind it. */
  lemma FlattenReplaced(s: Side, q: Queues, p: int, os: seq<Order>)
    requires p in q && forall x | x in q :: !Better(s, x, p)
    ensures Flatten(s, q[p := os]) == os + Flatten(s, q - {p})
  {
    FlattenBest(s, q[p := os], p);
    assert q[p := os] - {p} == q - {p};
  }

  /** The queues after level `p` gave up its first `k` orders; an empty level is gone. */
  ghost function Swept(q: Queues, p: int, k: nat): Queues
    requires p in q && k <= |q[p]|
  {
    if k == |q[p]| then q - {p} else q[p := q[p][k..]]
  }

  lemma FlattenSwept(s: Side, q: Queues, p: int, k: nat)
    requires p in q && k <= |q[p]| && forall x | x in q :: !Better(s, x, p)
    ensures Flatten(s, Swept(q, p, k)) == q[p][k..] + Flatten(s, q - {p})
  {
    if k == |q[p]| {
      assert q[p][k..] + Flatten(s, q - {p}) == Flatten(s, q - {p});
    } else {
      FlattenReplaced(s, q, p, q[p][k..]);
    }
  }

  /** The orders in front leave the index, and those behind them stay. */
  lemma FrontLeaves(s: Side, symbol: string, index: Index, p: int, os: seq<Order>, k: nat)
    requires QueueOk(s, symbol, index, p, os) && k <= |os|
    ensures forall i | 0 <= i < |os| :: os[i].terms.id in IdsOf(os[..k]) <==> i < k
    ensures k < |os| ==> QueueOk(s, symbol, index - IdsOf(os[..k]), p, os[k..])
  {
    assert forall j | 0 <= j < k :: os[..k][j].terms.id in IdsOf(os[..k]);
    forall i, j | 0 <= i < |os| && 0 <= j < k && os[i].terms.id == os[j].terms.id ensures i == j {
      assert Indexed(s, symbol, index, os[i]) && Indexed(s, symbol, index, os[j]);
    }
  }

  lemma QueuesAfterMatch(s: Side, symbol: string, index: Index, near: Queues, far: Queues, p: int, k: nat)
    requires QueuesOk(s, symbol, index, near) && QueuesOk(Opposite(s), symbol, index, far) && p in near
             && k <= |near[p]|
    ensures QueuesOk(s, symbol, index - IdsOf(near[p][..k]), Swept(near, p, k))
    ensures QueuesOk(Opposite(s), symbol, index - IdsOf(near[p][..k]), far)
  {
    hide IdsOf;
    var index' := index - IdsOf(near[p][..k]);
    assert QueueOk(s, symbol, index, p, near[p]);
    FrontLeaves(s, symbol, index, p, near[p], k);
    GoneAreOf(s, symbol, index, p, near[p], k);
    forall x | x in near && x != p ensures QueueOk(s, symbol, index', x, near[x]) {
      assert QueueOk(s, symbol, index, x, near[x]);
    }
    forall x | x in far ensures QueueOk(Opposite(s), symbol, index', x, far[x]) {
      assert QueueOk(Opposite(s), symbol, index, x, far[x]);
    }
  }

  /** `IndexOk` with the side named by `s`. */
  ghost predicate IndexFor(s: Side, index: Index, near: Queues, far: Queues) {
    forall id | id in index ::
      index[id].terms.id == id && Queued(if index[id].terms.side == s then near else far, index[id])
  }

  lemma IndexAfterMatch(s: Side, symbol: string, index: Index, near: Queues, far: Queues, p: int, k: nat)
    requires IndexFor(s, index, near, far) && p in near && k <= |near[p]| && QueueOk(s, symbol, index, p, near[p])
    ensures IndexFor(s, index - IdsOf(near[p][..k]), Swept(near, p, k), far)
  {
    hide IdsOf;
    FrontLeaves(s, symbol, index, p, near[p], k);
    var index' := index - IdsOf(near[p][..k]);
    forall id | id in index' && index'[id].terms.side == s ensures Queued(Swept(near, p, k), index'[id]) {
      var o := index[id];
      assert Queued(near, o);
      if o.terms.price == p {
        var i :| 0 <= i < |near[p]| && near[p][i] == o;
        assert i >= k && near[p][k..][i - k] == o;
      }
    }
  }

  lemma ShapeForIs(s: Side, symbol: string, index: Index, near: Queues, far: Queues)
    ensures ShapeFor(s, symbol, index, near, far) <==>
              QueuesOk(s, symbol, index, near) && QueuesOk(Opposite(s), symbol, index, far)
                && IndexFor(s, index, near, far)
  {
    hide QueuesOk, Queued;
  }

  /** Orders that left the front of one queue leave the index; everything else is as it was. */
  lemma ShapeAfterMatch(s: Side, symbol: string, index: Index, near: Queues, far: Queues, p: int, k: nat)
    requires ShapeFor(s, symbol, index, near, far)
    requires p in near && k <= |near[p]|
    ensures ShapeFor(s, symbol, index - IdsOf(near[p][..k]), Swept(near, p, k), far)
  {
    hide ShapeFor, IndexFor, QueueOk, IdsOf, Swept;
    ShapeForIs(s, symbol, index, near, far);
    QueuesAfterMatch(s, symbol, index, near, far, p, k);
    IndexAfterMatch(s, symbol, index, near, far, p, k);
    ShapeForIs(s, symbol, index - IdsOf(near[p][..k]), Swept(near, p, k), far);
  }

  lemma GoneAreOf(s: Side, symbol: string, index: Index, p: int, os: seq<Order>, k: nat)
    requires QueueOk(s, symbol, index, p, os) && k <= |os|
    ensures forall id | id in IdsOf(os[..k]) :: id in index && index[id].terms.side == s && index[id].terms.price == p
  {
    forall id | id in IdsOf(os[..k]) ensures id in index && index[id].terms.side == s && index[id].terms.price == p {
      var i :| 0 <= i < k && os[..k][i].terms.id == id;
      assert Indexed(s, symbol, index, os[i]);
    }
  }

  /** An order that stays in the index after a match either was not in the matched queue or is behind the
      orders that left it. */
  lemma StaysBehind(s: Side, symbol: string, index: Index, near: Queues, far: Queues, p: int, k: nat, id: nat)
      returns (i: nat)
    requires ShapeFor(s, symbol, index, near, far) && p in near && k <= |near[p]|
    requires id in index - IdsOf(near[p][..k]) && index[id] in near[p]
    ensures k <= i < |near[p]| && near[p][i] == index[id]
  {
    i :| 0 <= i < |near[p]| && near[p][i] == index[id];
    assert forall j | 0 <= j < k :: near[p][..k][j].terms.id in IdsOf(near[p][..k]);
    assert index[id].terms.id == id;
  }

  // ----- An order joins -----

  function Joined(q: Queues, o: Order): Queues {
    q[o.terms.price := (if o.terms.price in q then q[o.terms.price] else []) + [o]]
  }

  /** `ReferenceBook.Insert`, on the orders themselves. */
  function InsertOrder(s: Side, l: seq<Order>, o: Order): seq<Order> {
    if l == [] || Better(s, o.terms.price, l[0].terms.price) then [o] + l
    else [l[0]] + InsertOrder(s, l[1..], o)
  }

  lemma {:induction false} InsertBehind(s: Side, a: seq<Order>, b: seq<Order>, o: Order)
    requires forall i | 0 <= i < |a| :: !Better(s, o.terms.price, a[i].terms.price)
    ensures InsertOrder(s, a + b, o) == a + InsertOrder(s, b, o)
  {
    if a == [] {
      assert a + b == b;
    } else {
      assert (a + b)[1..] == a[1..] + b;
      InsertBehind(s, a[1..], b, o);
    }
  }

  ghost predicate Priced(q: Queues) {
    forall p | p in q :: q[p] != [] && forall i | 0 <= i < |q[p]| :: q[p][i].terms.price == p
  }

  lemma FlattenHead(s: Side, q: Queues)
    requires Priced(q) && q != map[]
    ensures |q.Keys| > 0
    ensures Flatten(s, q) != [] && Flatten(s, q)[0].terms.price == BestPrice(s, q.Keys)
  {
    assert |q.Keys| > 0;
    var b := BestPrice(s, q.Keys);
    assert Flatten(s, q)[0] == q[b][0];
  }

  lemma JoinedMinus(q: Queues, o: Order, b: int)
    ensures b == o.terms.price ==> Joined(q, o) - {b} == q - {b}
    ensures b != o.terms.price ==> Joined(q, o) - {b} == Joined(q - {b}, o)
    ensures b != o.terms.price && b in q ==> b in Joined(q, o) && Joined(q, o)[b] == q[b]
    ensures Joined(q, o).Keys == q.Keys + {o.terms.price}
  {
  }

  lemma JoinedNewBest(s: Side, q: Queues, o: Order)
    requires forall x | x in q :: Better(s, o.terms.price, x)
    ensures Flatten(s, Joined(q, o)) == [o] + Flatten(s, q)
  {
    var p := o.terms.price;
    JoinedMinus(q, o, p);
    FlattenBest(s, Joined(q, o), p);
    assert q - {p} == q;
  }

  lemma InsertFirst(s: Side, q: Queues, o: Order)
    requires Priced(q) && forall x | x in q :: Better(s, o.terms.price, x)
    ensures InsertOrder(s, Flatten(s, q), o) == [o] + Flatten(s, q)
  {
    if q != map[] {
      FlattenHead(s, q);
    }
  }

  lemma JoinedAtBest(s: Side, q: Queues, o: Order)
    requires Priced(q)
    requires var p := o.terms.price; p in q && forall x | x in q && x != p :: Better(s, p, x)
    ensures Flatten(s, Joined(q, o)) == InsertOrder(s, Flatten(s, q), o)
  {
    var p := o.terms.price;
    var rest := q - {p};
    FlattenBest(s, q, p);
    FlattenReplaced(s, q, p, q[p] + [o]);
    InsertBehind(s, q[p], Flatten(s, rest), o);
    InsertFirst(s, rest, o);
    assert (q[p] + [o]) + Flatten(s, rest) == q[p] + ([o] + Flatten(s, rest));
  }

  lemma JoinedBelowBest(s: Side, q: Queues, o: Order, b: int)
    requires b in q && forall x | x in q :: !Better(s, x, b)
    requires forall i | 0 <= i < |q[b]| :: q[b][i].terms.price == b
    requires Better(s, b, o.terms.price)
    ensures Flatten(s, Joined(q, o)) == q[b] + Flatten(s, Joined(q - {b}, o))
    ensures InsertOrder(s, Flatten(s, q), o) == q[b] + InsertOrder(s, Flatten(s, q - {b}), o)
  {
    FlattenBest(s, q, b);
    JoinedMinus(q, o, b);
    FlattenBest(s, Joined(q, o), b);
    InsertBehind(s, q[b], Flatten(s, q - {b}), o);
  }

  /** Appending to a level is inserting behind every order of an equal or better price. */
  lemma {:induction false} FlattenJoined(s: Side, q: Queues, o: Order)
    requires Priced(q)
    ensures Flatten(s, Joined(q, o)) == InsertOrder(s, Flatten(s, q), o)
    decreases q.Keys
  {
    if q == map[] {
      JoinedNewBest(s, q, o);
      InsertFirst(s, q, o);
    } else {
      assert |q.Keys| > 0;
      var b := BestPrice(s, q.Keys);
      if Better(s, o.terms.price, b) {
        JoinedNewBest(s, q, o);
        InsertFirst(s, q, o);
      } else if o.terms.price == b {
        JoinedAtBest(s, q, o);
      } else {
        FlattenJoined(s, q - {b}, o);
        JoinedBelowBest(s, q, o, b);
      }
    }
  }

  lemma JoinedIs(q: Queues, o: Order)
    ensures var p := o.terms.price;
            && Joined(q, o) == q[p := (if p in q then q[p] else []) + [o]]
  {
  }

  lemma QueuesKept(s: Side, symbol: string, index: Index, q: Queues, id: nat, o: Order)
    requires QueuesOk(s, symbol, index, q) && id !in index
    ensures QueuesOk(s, symbol, index[id := o], q)
  {
    forall x | x in q ensures QueueOk(s, symbol, index[id := o], x, q[x]) {
      assert QueueOk(s, symbol, index, x, q[x]);
    }
  }

  lemma QueueLonger(s: Side, symbol: string, index: Index, p: int, os: seq<Order>, o: Order)
    requires os == [] || QueueOk(s, symbol, index, p, os)
    requires o.terms.id !in index && o.terms.side == s && o.terms.symbol == symbol && o.terms.price == p
    ensures QueueOk(s, symbol, index[o.terms.id := o], p, os + [o])
  {
    forall i | 0 <= i < |os| ensures Indexed(s, symbol, index[o.terms.id := o], os[i]) && os[i] != o {
      assert Indexed(s, symbol, index, os[i]);
    }
  }

  lemma QueuedAfterJoin(q: Queues, o: Order, x: Order)
    requires x == o || Queued(q, x)
    ensures Queued(Joined(q, o), x)
  {
    JoinedIs(q, o);
    var p := o.terms.price;
    if x == o {
      assert Joined(q, o)[p][|Joined(q, o)[p]| - 1] == o;
    } else if x.terms.price == p {
      var i :| 0 <= i < |q[p]| && q[p][i] == x;
      assert Joined(q, o)[p][i] == x;
    }
  }

  lemma ShapeAfterJoin(s: Side, symbol: string, index: Index, near: Queues, far: Queues, o: Order)
    requires ShapeFor(s, symbol, index, near, far)
    requires o.terms.id !in index && o.terms.side == s && o.terms.symbol == symbol
    ensures ShapeFor(s, symbol, index[o.terms.id := o], Joined(near, o), far)
  {
    hide QueueOk, Joined, Queued;
    var p := o.terms.price;
    QueuesKept(s, symbol, index, near, o.terms.id, o);
    QueuesKept(Opposite(s), symbol, index, far, o.terms.id, o);
    QueueLonger(s, symbol, index, p, if p in near then near[p] else [], o);
    JoinedIs(near, o);
    var index' := index[o.terms.id := o];
    forall id | id in index' && index'[id].terms.side == s ensures Queued(Joined(near, o), index'[id]) {
      QueuedAfterJoin(near, o, index'[id]);
    }
  }

  // ----- An order leaves -----

  /** `ReferenceBook.Without`, on the orders themselves. */
  function WithoutOrder(l: seq<Order>, id: nat): seq<Order> {
    if l == [] then [] else if l[0].terms.id == id then l[1..] else [l[0]] + WithoutOrder(l[1..], id)
  }

  function Left(q: Queues, p: int, id: nat): Queues
    requires p in q
  {
    if WithoutOrder(q[p], id) == [] then q - {p} else q[p := WithoutOrder(q[p], id)]
  }

  lemma LeftIs(q: Queues, p: int, id: nat)
    requires p in q
    ensures Left(q, p, id).Keys == if WithoutOrder(q[p], id) == [] then q.Keys - {p} else q.Keys
    ensures forall x | x in Left(q, p, id) :: Left(q, p, id)[x] == if x == p then WithoutOrder(q[p], id) else q[x]
  {
  }

  lemma {:induction false} WithoutAt(l: seq<Order>, id: nat, i: nat)
    requires i < |l| && l[i].terms.id == id && forall k | 0 <= k < i :: l[k].terms.id != id
    ensures WithoutOrder(l, id) == l[..i] + l[i + 1..]
  {
    if i > 0 {
      WithoutAt(l[1..], id, i - 1);
      assert l[..i] + l[i + 1..] == [l[0]] + (l[1..][..i - 1] + l[1..][i..]);
    }
  }

  lemma {:induction false} WithoutBehind(a: seq<Order>, b: seq<Order>, id: nat)
    requires forall i | 0 <= i < |a| :: a[i].terms.id != id
    ensures WithoutOrder(a + b, id) == a + WithoutOrder(b, id)
  {
    if a == [] {
      assert a + b == b;
    } else {
      assert (a + b)[1..] == a[1..] + b;
      WithoutBehind(a[1..], b, id);
    }
  }

  lemma {:induction false} WithoutAhead(a: seq<Order>, b: seq<Order>, id: nat, i: nat)
    requires i < |a| && a[i].terms.id == id && forall k | 0 <= k < i :: a[k].terms.id != id
    ensures WithoutOrder(a + b, id) == WithoutOrder(a, id) + b
  {
    WithoutAt(a, id, i);
    WithoutAt(a + b, id, i);
    assert (a + b)[..i] + (a + b)[i + 1..] == a[..i] + a[i + 1..] + b;
  }

  /** The order with the given id is the `i`-th of level `p`, and only that one. */
  ghost predicate OnlyAt(q: Queues, p: int, i: nat, id: nat) {
    && p in q && i < |q[p]| && q[p][i].terms.id == id
    && forall x, k | x in q && 0 <= k < |q[x]| && (x != p || k != i) :: q[x][k].terms.id != id
  }

  lemma LeftAtBest(s: Side, q: Queues, p: int, id: nat, i: nat)
    requires OnlyAt(q, p, i, id) && forall x | x in q :: !Better(s, x, p)
    ensures Flatten(s, Left(q, p, id)) == WithoutOrder(Flatten(s, q), id)
  {
    var os := WithoutOrder(q[p], id);
    FlattenBest(s, q, p);
    WithoutAhead(q[p], Flatten(s, q - {p}), id, i);
    if os == [] {
      assert os + Flatten(s, q - {p}) == Flatten(s, q - {p});
    } else {
      FlattenReplaced(s, q, p, os);
    }
  }

  lemma LeftBelowBest(s: Side, q: Queues, p: int, id: nat, i: nat, b: int)
    requires OnlyAt(q, p, i, id) && b in q && b != p && forall x | x in q :: !Better(s, x, b)
    requires Flatten(s, Left(q - {b}, p, id)) == WithoutOrder(Flatten(s, q - {b}), id)
    ensures Flatten(s, Left(q, p, id)) == WithoutOrder(Flatten(s, q), id)
  {
    FlattenBest(s, q, b);
    WithoutBehind(q[b], Flatten(s, q - {b}), id);
    FlattenBest(s, Left(q, p, id), b);
    assert Left(q, p, id) - {b} == Left(q - {b}, p, id);
  }

  /** Taking an order out of its level is taking it out of the side's list. */
  lemma {:induction false} FlattenLeft(s: Side, q: Queues, p: int, id: nat, i: nat)
    requires OnlyAt(q, p, i, id)
    ensures Flatten(s, Left(q, p, id)) == WithoutOrder(Flatten(s, q), id)
    decreases q.Keys
  {
    assert |q.Keys| > 0;
    var b := BestPrice(s, q.Keys);
    if p == b {
      LeftAtBest(s, q, p, id, i);
    } else {
      FlattenLeft(s, q - {b}, p, id, i);
      LeftBelowBest(s, q, p, id, i, b);
    }
  }

  lemma IdIsUnique(s: Side, symbol: string, index: Index, q: Queues, p: int, i: nat)
    requires QueuesOk(s, symbol, index, q) && p in q && i < |q[p]|
    ensures OnlyAt(q, p, i, q[p][i].terms.id)
  {
    assert QueueOk(s, symbol, index, p, q[p]) && Indexed(s, symbol, index, q[p][i]);
    forall x, k | x in q && 0 <= k < |q[x]| && (x != p || k != i) ensures q[x][k].terms.id != q[p][i].terms.id {
      assert QueueOk(s, symbol, index, x, q[x]) && Indexed(s, symbol, index, q[x][k]);
    }
  }

  lemma QueueAfterLeave(s: Side, symbol: string, index: Index, q: Queues, p: int, i: nat)
    requires QueuesOk(s, symbol, index, q) && p in q && i < |q[p]|
    ensures var id := q[p][i].terms.id; QueuesOk(s, symbol, index - {id}, Left(q, p, id))
  {
    var id := q[p][i].terms.id;
    IdIsUnique(s, symbol, index, q, p, i);
    WithoutAt(q[p], id, i);
    var left := WithoutOrder(q[p], id);
    assert QueueOk(s, symbol, index, p, q[p]);
    forall k | 0 <= k < |left| ensures left[k] == q[p][if k < i then k else k + 1] {
    }
    forall x | x in Left(q, p, id) ensures QueueOk(s, symbol, index - {id}, x, Left(q, p, id)[x]) {
      assert QueueOk(s, symbol, index, x, q[x]);
    }
  }

  lemma ShapeAfterLeave(s: Side, symbol: string, index: Index, near: Queues, far: Queues, p: int, i: nat)
    requires ShapeFor(s, symbol, index, near, far) && p in near && i < |near[p]|
    ensures var id := near[p][i].terms.id;
            ShapeFor(s, symbol, index - {id}, Left(near, p, id), far)
  {
    var o := near[p][i];
    var id := o.terms.id;
    assert QueueOk(s, symbol, index, p, near[p]) && Indexed(s, symbol, index, o);
    QueueAfterLeave(s, symbol, index, near, p, i);
    WithoutAt(near[p], id, i);
    IdIsUnique(s, symbol, index, near, p, i);
    var index' := index - {id};
    forall x | x in far ensures QueueOk(Opposite(s), symbol, index', x, far[x]) {
      assert QueueOk(Opposite(s), symbol, index, x, far[x]);
    }
    forall n | n in index' && index'[n].terms.side == s ensures Queued(Left(near, p, id), index'[n]) {
      assert Queued(near, index[n]);
      if index[n].terms.price == p {
        var k :| 0 <= k < |near[p]| && near[p][k] == index[n];
        assert (near[p][..i] + near[p][i + 1..])[if k < i then k else k - 1] == index[n];
      }
    }
  }

  lemma NotOnOtherSide(s: Side, symbol: string, index: Index, near: Queues, far: Queues, p: int, i: nat)
    requires ShapeFor(s, symbol, index, near, far) && p in near && i < |near[p]|
    ensures WithoutOrder(Flatten(Opposite(s), far), near[p][i].terms.id) == Flatten(Opposite(s), far)
  {
    var l, id := Flatten(Opposite(s), far), near[p][i].terms.id;
    assert QueueOk(s, symbol, index, p, near[p]) && Indexed(s, symbol, index, near[p][i]);
    forall k | 0 <= k < |l| ensures l[k].terms.id != id {
      assert forall x | x in far :: QueueOk(Opposite(s), symbol, index, x, far[x]);
      FlattenIsQueued(Opposite(s), far, l[k]);
      var x := l[k].terms.price;
      var n :| 0 <= n < |far[x]| && far[x][n] == l[k];
      assert Indexed(Opposite(s), symbol, index, far[x][n]);
    }
    WithoutBehind(l, [], id);
    assert l + [] == l;
  }
}
