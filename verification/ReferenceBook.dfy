/** The price-time matcher an order book is meant to be: each side of the book is one list of resting
    orders, best price first and earliest arrival first within a price. */
module ReferenceBook {
  import opened Orders

  datatype Resting = Resting(id: nat, price: int, rem: int)
  datatype Book = Book(bids: seq<Resting>, asks: seq<Resting>)
  datatype Matched = Matched(trades: seq<Trade>, rest: seq<Resting>, rem: int)
  datatype Submitted = Submitted(trades: seq<Trade>, book: Book, rem: int)

  function SideOf(b: Book, s: Side): seq<Resting> {
    if s == Buy then b.bids else b.asks
  }

  function WithSide(b: Book, s: Side, l: seq<Resting>): Book {
    if s == Buy then b.(bids := l) else b.(asks := l)
  }

  /** `p` has strict priority over `q` among the resting orders of side `s`. */
  predicate Better(s: Side, p: int, q: int) {
    if s == Buy then p > q else p < q
  }

  predicate Crosses(t: Terms, price: int) {
    t.otype == Market || (if t.side == Buy then t.price >= price else t.price <= price)
  }

  function Min(a: int, b: int): (m: int)
    ensures m <= a && m <= b && (m == a || m == b)
  {
    if a <= b then a else b
  }

  lemma BookIs(b: Book, c: Book, s: Side)
    requires SideOf(b, s) == SideOf(c, s) && SideOf(b, Opposite(s)) == SideOf(c, Opposite(s))
    ensures b == c
  {
  }

  /** Take liquidity from the front of the list until the quantity or the limit stops it. */
  function Match(t: Terms, l: seq<Resting>, rem: int): Matched
    decreases |l|
  {
    if rem <= 0 || l == [] || !Crosses(t, l[0].price) then Matched([], l, rem)
    else
      var m := Min(rem, l[0].rem);
      var trade := NewTrade(t, l[0].id, l[0].price, m);
      if m == l[0].rem then
        var tail := Match(t, l[1..], rem - m);
        Matched([trade] + tail.trades, tail.rest, tail.rem)
      else
        Matched([trade], [l[0].(rem := l[0].rem - m)] + l[1..], rem - m)
  }

  /** Behind every order of an equal or better price. */
  function Insert(s: Side, l: seq<Resting>, r: Resting): seq<Resting> {
    if l == [] || Better(s, r.price, l[0].price) then [r] + l
    else [l[0]] + Insert(s, l[1..], r)
  }

  function Submit(b: Book, t: Terms): Submitted {
    var m := Match(t, SideOf(b, Opposite(t.side)), t.quantity);
    var b1 := WithSide(b, Opposite(t.side), m.rest);
    if t.otype == Limit && m.rem > 0 then
      var near := Insert(t.side, SideOf(b1, t.side), Resting(t.id, t.price, m.rem));
      Submitted(m.trades, WithSide(b1, t.side, near), m.rem)
    else Submitted(m.trades, b1, m.rem)
  }

  /** The two sides after a submission decide the whole outcome. */
  lemma SubmitPieces(b0: Book, b1: Book, t: Terms, trades: seq<Trade>, rest: seq<Resting>, rem: int)
    requires Match(t, SideOf(b0, Opposite(t.side)), t.quantity) == Matched(trades, rest, rem)
    requires SideOf(b1, Opposite(t.side)) == rest
    requires SideOf(b1, t.side) == if t.otype == Limit && rem > 0
                                   then Insert(t.side, SideOf(b0, t.side), Resting(t.id, t.price, rem))
                                   else SideOf(b0, t.side)
    ensures Submit(b0, t) == Submitted(trades, b1, rem)
  {
    BookIs(Submit(b0, t).book, b1, t.side);
  }

  function Without(l: seq<Resting>, id: nat): seq<Resting> {
    if l == [] then [] else if l[0].id == id then l[1..] else [l[0]] + Without(l[1..], id)
  }

  /** What a list holds for the order `id`. */
  function RemOf(l: seq<Resting>, id: nat): int {
    if l == [] then 0 else (if l[0].id == id then l[0].rem else 0) + RemOf(l[1..], id)
  }

  /** What of the order `id` rests in a book. */
  function Held(b: Book, id: nat): int {
    RemOf(b.bids, id) + RemOf(b.asks, id)
  }

  lemma {:induction false} RemOfAppend(a: seq<Resting>, b: seq<Resting>, id: nat)
    ensures RemOf(a + b, id) == RemOf(a, id) + RemOf(b, id)
  {
    if a == [] {
      assert a + b == b;
    } else {
      assert (a + b)[1..] == a[1..] + b;
      RemOfAppend(a[1..], b, id);
    }
  }

  // ----- What the reference matcher promises -----

  ghost predicate Sorted(s: Side, l: seq<Resting>) {
    forall i, j | 0 <= i < j < |l| :: !Better(s, l[j].price, l[i].price)
  }

  ghost predicate Positive(l: seq<Resting>) {
    forall i | 0 <= i < |l| :: l[i].rem > 0
  }

  ghost predicate Apart(bids: seq<Resting>, asks: seq<Resting>) {
    forall i, j | 0 <= i < |bids| && 0 <= j < |asks| :: bids[i].price < asks[j].price
  }

  /** Both sides in priority order, nothing rests without quantity, and every bid is below every ask. */
  ghost predicate Proper(b: Book) {
    Sorted(Buy, b.bids) && Sorted(Sell, b.asks) && Positive(b.bids) && Positive(b.asks) && Apart(b.bids, b.asks)
  }

  lemma EmptyIsProper()
    ensures Proper(Book([], []))
  {
  }

  function TotalRem(l: seq<Resting>): int {
    if l == [] then 0 else l[0].rem + TotalRem(l[1..])
  }

  /** What rests at one price. */
  function DepthAt(l: seq<Resting>, price: int): int {
    if l == [] then 0 else (if l[0].price == price then l[0].rem else 0) + DepthAt(l[1..], price)
  }

  lemma {:induction false} DepthAppend(a: seq<Resting>, b: seq<Resting>, price: int)
    ensures DepthAt(a + b, price) == DepthAt(a, price) + DepthAt(b, price)
  {
    if a == [] {
      assert a + b == b;
    } else {
      assert (a + b)[1..] == a[1..] + b;
      DepthAppend(a[1..], b, price);
    }
  }

  lemma {:induction false} DepthOfOne(l: seq<Resting>, own: int, price: int)
    requires forall i | 0 <= i < |l| :: l[i].price == own
    ensures DepthAt(l, price) == if price == own then TotalRem(l) else 0
  {
    if l != [] {
      DepthOfOne(l[1..], own, price);
    }
  }

  lemma {:induction false} TotalRemPush(l: seq<Resting>, r: Resting)
    ensures TotalRem(l + [r]) == TotalRem(l) + r.rem
  {
    if l == [] {
      assert [] + [r] == [r] && [r][1..] == [];
    } else {
      assert (l + [r])[1..] == l[1..] + [r];
      TotalRemPush(l[1..], r);
    }
  }

  lemma {:induction false} TotalRemPositive(l: seq<Resting>)
    requires Positive(l)
    ensures TotalRem(l) >= |l|
  {
    if l != [] {
      assert Positive(l[1..]);
      TotalRemPositive(l[1..]);
    }
  }

  function TotalQty(ts: seq<Trade>): int {
    if ts == [] then 0 else ts[0].quantity + TotalQty(ts[1..])
  }

  /** Makers are hit in list order, each at its own price and for all it has, except possibly the last. */
  lemma {:induction false} MatchFollowsPriority(t: Terms, l: seq<Resting>, rem: int, i: nat)
    requires Positive(l) && i < |Match(t, l, rem).trades|
    ensures i < |l| && Crosses(t, l[i].price)
    ensures var m := Match(t, l, rem);
            && m.trades[i].buyOrderId == t.id && m.trades[i].sellOrderId == l[i].id
            && m.trades[i].price == l[i].price && m.trades[i].symbol == t.symbol
            && 0 < m.trades[i].quantity <= l[i].rem
            && (i < |m.trades| - 1 ==> m.trades[i].quantity == l[i].rem)
    decreases |l|
  {
    if i > 0 {
      assert Positive(l[1..]);
      MatchFollowsPriority(t, l[1..], rem - l[0].rem, i - 1);
    }
  }

  /** A market order stops only when it is done or nothing is left; a limit order trades at its limit or better,
      and what is left on the other side when it is not done is beyond its limit. */
  lemma MatchKeepsLimit(t: Terms, l: seq<Resting>, rem: int)
    requires Positive(l)
    ensures var m := Match(t, l, rem);
            && (t.otype == Market ==> m.rem <= 0 || m.rest == [])
            && (t.otype == Limit && t.side == Buy ==>
                  && (forall i | 0 <= i < |m.trades| :: m.trades[i].price <= t.price)
                  && (m.rem > 0 && m.rest != [] ==> t.price < m.rest[0].price))
            && (t.otype == Limit && t.side == Sell ==>
                  && (forall i | 0 <= i < |m.trades| :: m.trades[i].price >= t.price)
                  && (m.rem > 0 && m.rest != [] ==> t.price > m.rest[0].price))
  {
    hide Match;
    MatchIsMaximal(t, l, rem);
    forall i | 0 <= i < |Match(t, l, rem).trades| ensures Crosses(t, Match(t, l, rem).trades[i].price) {
      MatchFollowsPriority(t, l, rem, i);
    }
  }

  /** The answer to a submission, and the other side before and after it: the trades are with the front of that
      side in order, at the prices resting there; see `MatchKeepsLimit` for where they end. */
  ghost predicate Answered(t: Terms, before: seq<Resting>, trades: seq<Trade>, after: seq<Resting>, rem: int) {
    && |trades| <= |before|
    && (forall j | 0 <= j < |trades| ::
          && trades[j].buyOrderId == t.id && trades[j].sellOrderId == before[j].id && trades[j].symbol == t.symbol
          && trades[j].price == before[j].price && 0 < trades[j].quantity <= before[j].rem
          && (j < |trades| - 1 ==> trades[j].quantity == before[j].rem))
    && (t.otype == Market ==> rem <= 0 || after == [])
    && (t.otype == Limit && t.side == Buy ==>
          && (forall j | 0 <= j < |trades| :: trades[j].price <= t.price)
          && (rem > 0 && after != [] ==> t.price < after[0].price))
    && (t.otype == Limit && t.side == Sell ==>
          && (forall j | 0 <= j < |trades| :: trades[j].price >= t.price)
          && (rem > 0 && after != [] ==> t.price > after[0].price))
  }

  lemma SubmitAnswers(b: Book, t: Terms)
    requires Proper(b)
    ensures var s := Submit(b, t); var far := Opposite(t.side);
            Answered(t, SideOf(b, far), s.trades, SideOf(s.book, far), s.rem)
  {
    hide Match, Insert, Crosses;
    var l := SideOf(b, Opposite(t.side));
    MatchKeepsLimit(t, l, t.quantity);
    MatchLeavesTail(t, l, t.quantity);
    forall j | 0 <= j < |Match(t, l, t.quantity).trades| {
      MatchFollowsPriority(t, l, t.quantity, j);
    }
  }

  /** An order rests behind all orders of its price or better, and before all others. */
  lemma {:induction false} InsertPlace(s: Side, l: seq<Resting>, r: Resting) returns (k: nat)
    requires Sorted(s, l)
    ensures k <= |l| && Insert(s, l, r) == l[..k] + [r] + l[k..]
    ensures forall i | 0 <= i < k :: if s == Buy then l[i].price >= r.price else l[i].price <= r.price
    ensures forall i | k <= i < |l| :: if s == Buy then l[i].price < r.price else l[i].price > r.price
    decreases |l|
  {
    if l == [] || Better(s, r.price, l[0].price) {
      k := 0;
    } else {
      assert Sorted(s, l[1..]);
      k := InsertPlace(s, l[1..], r);
      assert l[1..][k..] == l[k + 1..] && l[..k + 1] == [l[0]] + l[1..][..k];
      k := k + 1;
    }
  }

  lemma {:induction false} TakerIsNamedFirst(t: Terms, l: seq<Resting>, rem: int, i: nat)
    requires i < |Match(t, l, rem).trades|
    ensures Match(t, l, rem).trades[i].buyOrderId == t.id
    decreases |l|
  {
    if i > 0 {
      TakerIsNamedFirst(t, l[1..], rem - l[0].rem, i - 1);
    }
  }

  /** What is left is the tail of the list, with the last maker hit reduced if it was not exhausted. */
  lemma {:induction false} MatchLeavesTail(t: Terms, l: seq<Resting>, rem: int)
    requires Positive(l)
    ensures var m := Match(t, l, rem); var n := |m.trades|;
            n <= |l| && (m.rest == l[n..]
              || (n > 0 && m.trades[n - 1].quantity < l[n - 1].rem
                  && m.rest == [l[n - 1].(rem := l[n - 1].rem - m.trades[n - 1].quantity)] + l[n..]))
    decreases |l|
  {
    if rem <= 0 || l == [] || !Crosses(t, l[0].price) {
    } else if Min(rem, l[0].rem) == l[0].rem {
      assert Positive(l[1..]);
      MatchLeavesTail(t, l[1..], rem - l[0].rem);
      var m := Match(t, l[1..], rem - l[0].rem);
      assert l[1..][|m.trades|..] == l[|m.trades| + 1..];
    }
  }

  /** Matching stops only because the taker is done, the side is empty, or the best price does not cross;
      quantity is neither created nor lost. */
  lemma {:induction false} MatchIsMaximal(t: Terms, l: seq<Resting>, rem: int)
    requires Positive(l)
    ensures var m := Match(t, l, rem);
            && Positive(m.rest)
            && (m.rem > 0 ==> m.rest == [] || !Crosses(t, m.rest[0].price))
            && (rem >= 0 ==> 0 <= m.rem <= rem) && (rem < 0 ==> m.rem == rem)
            && TotalQty(m.trades) == rem - m.rem
            && TotalRem(m.rest) == TotalRem(l) - TotalQty(m.trades)
    decreases |l|
  {
    hide TotalQty, TotalRem, NewTrade;
    Nothing();
    if rem <= 0 || l == [] || !Crosses(t, l[0].price) {
    } else if Min(rem, l[0].rem) == l[0].rem {
      assert Positive(l[1..]);
      MatchIsMaximal(t, l[1..], rem - l[0].rem);
      QtyCons(NewTrade(t, l[0].id, l[0].price, l[0].rem), Match(t, l[1..], rem - l[0].rem).trades);
      RemCons(l[0], l[1..]);
      assert l == [l[0]] + l[1..];
    } else {
      var trade := NewTrade(t, l[0].id, l[0].price, rem);
      QtyCons(trade, []);
      assert [trade] + [] == [trade];
      RemCons(l[0].(rem := l[0].rem - rem), l[1..]);
      RemCons(l[0], l[1..]);
      assert l == [l[0]] + l[1..];
    }
  }

  lemma Nothing()
    ensures TotalQty([]) == 0 && TotalRem([]) == 0
  {
  }

  lemma QtyCons(t: Trade, ts: seq<Trade>)
    ensures TotalQty([t] + ts) == t.quantity + TotalQty(ts)
  {
    assert ([t] + ts)[1..] == ts;
  }

  lemma RemCons(r: Resting, l: seq<Resting>)
    ensures TotalRem([r] + l) == r.rem + TotalRem(l)
  {
    assert ([r] + l)[1..] == l;
  }

  /** A list all of whose front part crosses is matched front part first. */
  lemma {:induction false} MatchSplit(t: Terms, a: seq<Resting>, b: seq<Resting>, rem: int)
    requires forall i | 0 <= i < |a| :: Crosses(t, a[i].price)
    requires Positive(a)
    ensures var m := Match(t, a, rem);
            var whole := Match(t, a + b, rem);
            if m.rest == [] then
              var n := Match(t, b, m.rem);
              whole == Matched(m.trades + n.trades, n.rest, n.rem)
            else m.rem <= 0 && whole == Matched(m.trades, m.rest + b, m.rem)
    decreases |a|
  {
    if a == [] {
      assert a + b == b;
      assert [] + Match(t, b, rem).trades == Match(t, b, rem).trades;
    } else if rem > 0 {
      assert (a + b)[1..] == a[1..] + b;
      if Min(rem, a[0].rem) == a[0].rem {
        forall i | 0 <= i < |a[1..]| ensures Crosses(t, a[1..][i].price) && a[1..][i].rem > 0 {
          assert a[1..][i] == a[i + 1];
        }
        MatchSplit(t, a[1..], b, rem - a[0].rem);
        var trade := NewTrade(t, a[0].id, a[0].price, a[0].rem);
        var m := Match(t, a[1..], rem - a[0].rem);
        if m.rest == [] {
          var n := Match(t, b, m.rem);
          assert [trade] + (m.trades + n.trades) == ([trade] + m.trades) + n.trades;
        }
      } else {
        assert [a[0].(rem := a[0].rem - rem)] + a[1..] + b == [a[0].(rem := a[0].rem - rem)] + (a[1..] + b);
      }
    }
  }

  lemma {:induction false} InsertMember(s: Side, l: seq<Resting>, r: Resting, k: nat)
    requires k < |Insert(s, l, r)|
    ensures |Insert(s, l, r)| == |l| + 1
    ensures Insert(s, l, r)[k] == r || Insert(s, l, r)[k] in l
    decreases |l|
  {
    if l == [] || Better(s, r.price, l[0].price) {
    } else {
      InsertMember(s, l[1..], r, if k == 0 then 0 else k - 1);
    }
  }

  lemma {:induction false} InsertSorted(s: Side, l: seq<Resting>, r: Resting)
    requires Sorted(s, l) && Positive(l) && r.rem > 0
    ensures Sorted(s, Insert(s, l, r)) && Positive(Insert(s, l, r))
    decreases |l|
  {
    if l == [] || Better(s, r.price, l[0].price) {
    } else {
      var tail := Insert(s, l[1..], r);
      InsertSorted(s, l[1..], r);
      forall j | 0 <= j < |tail| ensures !Better(s, tail[j].price, l[0].price) {
        InsertMember(s, l[1..], r, j);
      }
    }
  }

  lemma MatchRestAt(t: Terms, l: seq<Resting>, rem: int, i: nat)
    requires Positive(l) && i < |Match(t, l, rem).rest|
    ensures var rest := Match(t, l, rem).rest;
            |rest| <= |l| && rest[i].price == l[|l| - |rest| + i].price && rest[i].rem > 0
  {
    hide Match;
    MatchLeavesTail(t, l, rem);
    var m := Match(t, l, rem);
    var n := |m.trades|;
    if m.rest == l[n..] {
      assert m.rest[i] == l[n + i];
    } else if i > 0 {
      assert m.rest[i] == l[n..][i - 1] == l[n + i - 1];
    }
  }

  lemma MatchKeepsOrder(s: Side, t: Terms, l: seq<Resting>, rem: int)
    requires Sorted(s, l) && Positive(l)
    ensures Sorted(s, Match(t, l, rem).rest) && Positive(Match(t, l, rem).rest)
  {
    var rest := Match(t, l, rem).rest;
    forall i, j | 0 <= i < j < |rest| ensures !Better(s, rest[j].price, rest[i].price) {
      MatchRestAt(t, l, rem, i);
      MatchRestAt(t, l, rem, j);
    }
    forall i | 0 <= i < |rest| ensures rest[i].rem > 0 {
      MatchRestAt(t, l, rem, i);
    }
  }

  /** What stays on the far side after a match is clear of an order resting at the taker's limit. */
  lemma RemainderDoesNotCross(t: Terms, l: seq<Resting>, j: nat)
    requires Sorted(Opposite(t.side), l) && Positive(l) && t.otype == Limit
    requires Match(t, l, t.quantity).rem > 0 && j < |Match(t, l, t.quantity).rest|
    ensures Better(Opposite(t.side), t.price, Match(t, l, t.quantity).rest[j].price)
  {
    MatchKeepsOrder(Opposite(t.side), t, l, t.quantity);
    MatchIsMaximal(t, l, t.quantity);
    var rest := Match(t, l, t.quantity).rest;
    assert j > 0 ==> !Better(Opposite(t.side), rest[j].price, rest[0].price);
  }

  lemma MatchKeepsApart(t: Terms, near: seq<Resting>, far: seq<Resting>, rem: int)
    requires Positive(far)
    requires if t.side == Buy then Apart(near, far) else Apart(far, near)
    ensures var rest := Match(t, far, rem).rest;
            if t.side == Buy then Apart(near, rest) else Apart(rest, near)
  {
    var rest := Match(t, far, rem).rest;
    forall i, j | 0 <= i < |near| && 0 <= j < |rest|
      ensures Better(Opposite(t.side), near[i].price, rest[j].price)
    {
      MatchRestAt(t, far, rem, j);
    }
  }

  /** Every order sent to a proper book leaves a proper book: sorted, positive and never crossed. */
  lemma SubmitKeepsProper(b: Book, t: Terms)
    requires Proper(b)
    ensures Proper(Submit(b, t).book)
  {
    var far := SideOf(b, Opposite(t.side));
    var near := SideOf(b, t.side);
    var m := Match(t, far, t.quantity);
    MatchKeepsOrder(Opposite(t.side), t, far, t.quantity);
    MatchKeepsApart(t, near, far, t.quantity);
    if t.otype == Limit && m.rem > 0 {
      var r := Resting(t.id, t.price, m.rem);
      InsertSorted(t.side, near, r);
      forall k, j | 0 <= k < |Insert(t.side, near, r)| && 0 <= j < |m.rest|
        ensures Better(Opposite(t.side), Insert(t.side, near, r)[k].price, m.rest[j].price)
      {
        InsertMember(t.side, near, r, k);
        RemainderDoesNotCross(t, far, j);
      }
    }
  }

  function Cancel(b: Book, id: nat): Book {
    Book(Without(b.bids, id), Without(b.asks, id))
  }

  lemma CancelPieces(b0: Book, b1: Book, s: Side, id: nat)
    requires SideOf(b1, s) == Without(SideOf(b0, s), id)
             && SideOf(b1, Opposite(s)) == Without(SideOf(b0, Opposite(s)), id)
    ensures b1 == Cancel(b0, id)
  {
  }

  lemma {:induction false} WithoutFrom(l: seq<Resting>, id: nat, k: nat) returns (i: nat)
    requires k < |Without(l, id)|
    ensures i < |l| && Without(l, id)[k] == l[i] && (i == k || i == k + 1)
    ensures i == k ==> forall j | 0 <= j < k :: Without(l, id)[j] == l[j]
    decreases |l|
  {
    i := k;
    if l[0].id == id {
      i := k + 1;
    } else if k > 0 {
      i := WithoutFrom(l[1..], id, k - 1);
      i := i + 1;
    }
  }

  lemma WithoutKeepsOrder(s: Side, l: seq<Resting>, id: nat)
    requires Sorted(s, l) && Positive(l)
    ensures Sorted(s, Without(l, id)) && Positive(Without(l, id))
  {
    var r := Without(l, id);
    forall k | 0 <= k < |r| ensures r[k].rem > 0 {
      var i := WithoutFrom(l, id, k);
    }
    forall j, k | 0 <= j < k < |r| ensures !Better(s, r[k].price, r[j].price) {
      var i := WithoutFrom(l, id, j);
      var n := WithoutFrom(l, id, k);
      assert i < n || n == k;
    }
  }

  /** Cancelling keeps a book proper. */
  lemma CancelKeepsProper(b: Book, id: nat)
    requires Proper(b)
    ensures Proper(Cancel(b, id))
  {
    WithoutKeepsOrder(Buy, b.bids, id);
    WithoutKeepsOrder(Sell, b.asks, id);
    var c := Cancel(b, id);
    forall i, j | 0 <= i < |c.bids| && 0 <= j < |c.asks| ensures c.bids[i].price < c.asks[j].price {
      var m := WithoutFrom(b.bids, id, i);
      var n := WithoutFrom(b.asks, id, j);
    }
  }
}
