/** The bounded ring buffer: its 64-bit arithmetic, its operations as one thread runs them, and one
    producer racing one consumer, one atomic access at a time. */
module RingBuffers {
  import opened Arithmetic

  const TOP: nat := 0x8000_0000_0000_0000

  function Pow2(k: nat): (p: nat)
    ensures p > 0
  {
    if k == 0 then 1 else 2 * Pow2(k - 1)
  }

  /** Bitwise and. */
  function And(a: nat, b: nat): (r: nat)
    ensures r <= b
  {
    if a == 0 || b == 0 then 0 else (if a % 2 == 1 && b % 2 == 1 then 1 else 0) + 2 * And(a / 2, b / 2)
  }

  function Add64(a: nat, b: nat): (r: nat)
    ensures r < WORD
  {
    (a + b) % WORD
  }

  /** One doubling of a 64-bit word. */
  function Doubled(a: nat): (r: nat)
    ensures r < WORD
  {
    (2 * a) % WORD
  }

  /** The low `k` bits of a number. */
  function Low(a: nat, k: nat): (r: nat)
    ensures r < Pow2(k)
    decreases k
  {
    if k == 0 then 0 else a % 2 + 2 * Low(a / 2, k - 1)
  }

  lemma {:induction false} MaskIsLow(a: nat, k: nat)
    ensures And(a, Pow2(k) - 1) == Low(a, k)
    decreases k
  {
    if k > 0 {
      var b := Pow2(k) - 1;
      assert b / 2 == Pow2(k - 1) - 1 && b % 2 == 1;
      MaskIsLow(a / 2, k - 1);
      if a == 0 {
        LowOfZero(k);
      }
    }
  }

  lemma {:induction false} LowOfZero(k: nat)
    ensures Low(0, k) == 0
  {
    if k > 0 {
      LowOfZero(k - 1);
    }
  }

  lemma {:induction false} LowIsMod(a: nat, k: nat)
    ensures Low(a, k) == a % Pow2(k)
    decreases k
  {
    if k > 0 {
      LowIsMod(a / 2, k - 1);
      HalfMod(a, Pow2(k - 1));
    }
  }

  lemma HalfMod(a: nat, p: nat)
    requires p > 0
    ensures a % (2 * p) == a % 2 + 2 * ((a / 2) % p)
  {
    var h := a / 2;
    var q, r := h / p, h % p;
    assert a == 2 * h + a % 2 && h == q * p + r;
    assert q * (2 * p) == 2 * (q * p);
    ModIs(a, 2 * p, q, 2 * r + a % 2);
  }

  lemma ModIs(a: int, m: int, q: int, r: int)
    requires m > 0 && 0 <= r < m && a == q * m + r
    ensures a % m == r
  {
    var d := q - a / m;
    assert d * m == q * m - (a / m) * m;
    if d != 0 {
      LargeMultiple(d, m);
    }
  }

  lemma LargeMultiple(d: int, m: int)
    requires m > 0 && d != 0
    ensures d * m >= m || d * m <= -m
  {
    if d > 0 {
      assert (d - 1) * m >= 0;
    } else {
      assert (-1 - d) * m >= 0;
    }
  }

  lemma {:induction false} LowOfLow(a: nat, j: nat, k: nat)
    requires k <= j
    ensures Low(Low(a, j), k) == Low(a, k)
    decreases j
  {
    if k > 0 {
      assert Low(a, j) % 2 == a % 2 && Low(a, j) / 2 == Low(a / 2, j - 1);
      LowOfLow(a / 2, j - 1, k - 1);
    }
  }

  /** Numbers less than `2^k` apart with the same low bits are the same number. */
  lemma {:induction false} LowIsInjective(a: nat, b: nat, k: nat)
    requires Low(a, k) == Low(b, k) && a - b < Pow2(k) && b - a < Pow2(k)
    ensures a == b
    decreases k
  {
    if k > 0 {
      LowIsInjective(a / 2, b / 2, k - 1);
    }
  }

  /** The slot of a counter does not change when the counter wraps at 64 bits. */
  lemma WrapKeepsSlot(n: nat, k: nat)
    requires k <= 64
    ensures And(n % WORD, Pow2(k) - 1) == Low(n, k) < Pow2(k)
  {
    WordIsPow2();
    LowIsMod(n, 64);
    LowOfLow(n, 64, k);
    MaskIsLow(n % WORD, k);
    LowIsMod(n, k);
  }

  lemma WordIsPow2()
    ensures Pow2(64) == WORD && Pow2(63) == TOP
  {
    assert Pow2(8) == 256;
    assert Pow2(16) == 256 * Pow2(8);
    assert Pow2(24) == 256 * Pow2(16);
    assert Pow2(32) == 256 * Pow2(24);
    assert Pow2(40) == 256 * Pow2(32);
    assert Pow2(48) == 256 * Pow2(40);
    assert Pow2(56) == 256 * Pow2(48);
    assert Pow2(63) == 128 * Pow2(56);
  }

  /** Least power of two that holds `size` slots. */
  ghost predicate LeastPow2(p: nat, size: nat, k: nat) {
    k <= 63 && p == Pow2(k) && p >= size && (k > 0 ==> Pow2(k - 1) < size)
  }

  /** The value of `realSize` after `n` doublings. */
  function Doublings(n: nat): nat {
    if n == 0 then 1 else Doubled(Doublings(n - 1))
  }

  lemma {:induction false} DoublingsAre(n: nat)
    ensures Doublings(n) == if n < 64 then Pow2(n) else 0
  {
    hide Doubled;
    if n > 0 {
      DoublingsAre(n - 1);
      if n <= 64 {
        Pow2Below(n - 1);
        WordIsPow2();
        DoubledIs(Pow2(n - 1));
        if n < 64 {
          Pow2Below(n);
        }
      } else {
        DoubledIs(0);
      }
    }
  }

  lemma DoubledIs(a: nat)
    requires 2 * a <= WORD
    ensures Doubled(a) == if 2 * a == WORD then 0 else 2 * a
  {
  }

  lemma Pow2Below(n: nat)
    requires n < 64
    ensures 2 * Pow2(n) <= WORD
  {
    WordIsPow2();
    Pow2Grows(n, 63);
  }

  lemma DoublingStep(n: nat)
    requires n < 63
    ensures Pow2(0) == 1 && Doubled(Pow2(n)) == Pow2(n + 1)
  {
    Pow2Below(n + 1);
  }

  lemma {:induction false} Pow2Grows(j: nat, k: nat)
    requires j <= k
    ensures Pow2(j) <= Pow2(k)
    decreases k
  {
    if j < k {
      Pow2Grows(j, k - 1);
    }
  }

  /** The constructor's loop ends exactly for sizes up to `2^63`; beyond, the word shifts to zero and stays
      there. */
  lemma DoublingEndsExactlyWhen(size: nat)
    ensures (exists n: nat :: Doublings(n) >= size) <==> size <= TOP
  {
    WordIsPow2();
    DoublingsAre(63);
    if n: nat :| Doublings(n) >= size && size > TOP {
      DoublingsAre(n);
      if n < 64 {
        Pow2Grows(n, 63);
      }
    } else if size <= TOP {
      assert Doublings(63) >= size;
    }
  }

  datatype Slot<T> = Value(v: T) | Nil

  /** The slots of the counters from `lo` on hold these items. */
  ghost predicate Holds<T>(buf: seq<Slot<T>>, k: nat, lo: nat, items: seq<T>)
    requires |buf| == Pow2(k)
  {
    forall n: nat | lo <= n < lo + |items| :: buf[Low(n, k)] == Value(items[n - lo])
  }

  /** A push into the slot behind the newest item overwrites nothing. */
  lemma PushHolds<T>(buf: seq<Slot<T>>, k: nat, lo: nat, items: seq<T>, v: T)
    requires |buf| == Pow2(k) && Holds(buf, k, lo, items) && |items| < Pow2(k)
    ensures Holds(buf[Low(lo + |items|, k) := Value(v)], k, lo, items + [v])
  {
    hide Low, Pow2;
    forall n: nat | lo <= n < lo + |items| ensures Low(n, k) != Low(lo + |items|, k) {
      if Low(n, k) == Low(lo + |items|, k) {
        LowIsInjective(n, lo + |items|, k);
      }
    }
  }

  /** A pop from the slot of the oldest item finds it, and clearing the slot loses nothing else. */
  lemma PopHolds<T>(buf: seq<Slot<T>>, k: nat, lo: nat, items: seq<T>)
    requires |buf| == Pow2(k) && Holds(buf, k, lo, items) && 0 < |items| <= Pow2(k)
    ensures buf[Low(lo, k)] == Value(items[0])
    ensures Holds(buf[Low(lo, k) := Nil], k, lo + 1, items[1..])
  {
    hide Low, Pow2;
    forall n: nat | lo < n < lo + |items| ensures Low(n, k) != Low(lo, k) {
      if Low(n, k) == Low(lo, k) {
        LowIsInjective(n, lo, k);
      }
    }
  }

  /** The `n` slots of the counters from `lo` on are cleared. */
  ghost predicate Blank<T>(buf: seq<Slot<T>>, k: nat, lo: nat, n: nat)
    requires |buf| == Pow2(k)
  {
    forall m: nat | lo <= m < lo + n :: buf[Low(m, k)] == Nil
  }

  lemma AllBlank<T>(buf: seq<Slot<T>>, k: nat)
    requires |buf| == Pow2(k) && forall i | 0 <= i < |buf| :: buf[i] == Nil
    ensures Holds(buf, k, 0, []) && Blank(buf, k, 0, |buf|)
  {
  }

  /** A push takes the first of the cleared slots. */
  lemma PushBlank<T>(buf: seq<Slot<T>>, k: nat, lo: nat, n: nat, v: T)
    requires |buf| == Pow2(k) && Blank(buf, k, lo, n) && 0 < n <= Pow2(k)
    ensures Blank(buf[Low(lo, k) := Value(v)], k, lo + 1, n - 1)
  {
    hide Low, Pow2;
    forall m: nat | lo < m < lo + n ensures Low(m, k) != Low(lo, k) {
      if Low(m, k) == Low(lo, k) {
        LowIsInjective(m, lo, k);
      }
    }
  }

  /** A pop clears the slot behind the last of them. */
  lemma PopBlank<T>(buf: seq<Slot<T>>, k: nat, lo: nat, n: nat, head: nat)
    requires |buf| == Pow2(k) && Blank(buf, k, lo, n) && lo + n == head + Pow2(k)
    ensures Blank(buf[Low(head, k) := Nil], k, lo, n + 1)
  {
    hide Low, Pow2;
    assert Low(lo + n, k) == Low(head, k) by {
      LowIsMod(head, k);
      LowIsMod(lo + n, k);
      OneRound(head, Pow2(k));
    }
  }

  lemma OneRound(a: nat, p: nat)
    requires p > 0
    ensures (a + p) % p == a % p
  {
    ModIs(a + p, p, a / p + 1, a % p);
  }

  class RingBuffer<T> {
    const buf: array<Slot<T>>
    const size: nat
    const mask: nat
    var head: nat
    var tail: nat
    var count: nat
    ghost const k: nat
    ghost var popped: nat
    ghost var items: seq<T>

    /** `items` is what the buffer holds, oldest first; `popped` counts all pops ever, without wrapping. All
        other slots are cleared. */
    ghost predicate Valid()
      reads this, buf
    {
      && k <= 63 && size == buf.Length == Pow2(k) && mask == size - 1
      && head == popped % WORD && tail == (popped + |items|) % WORD && count == |items| <= size
      && Holds(buf[..], k, popped, items) && Blank(buf[..], k, popped + |items|, size - |items|)
    }

    constructor (size: nat)
      requires size <= TOP
      ensures Valid() && fresh(buf) && items == [] && LeastPow2(this.size, size, k)
    {
      hide Low, And, Add64, Holds, Blank, Pow2, Doubled;
      var realSize := 1;
      ghost var n := 0;
      WordIsPow2();
      DoublingStep(0);
      while realSize < size
        invariant n <= 63 && realSize == Pow2(n) && (n > 0 ==> Pow2(n - 1) < size)
        decreases 63 - n
      {
        if n == 63 {
          assert false;
        }
        DoublingStep(n);
        realSize := Doubled(realSize);
        n := n + 1;
      }
      k := n;
      this.size, mask := realSize, realSize - 1;
      head, tail, count := 0, 0, 0;
      popped, items := 0, [];
      buf := new Slot<T>[realSize](_ => Nil);
      new;
      AllBlank(buf[..], k);
    }

    /** A push succeeds just when the buffer is not full. */
    method Push(item: T) returns (ok: bool)
      requires Valid()
      modifies this`tail, this`count, this`items, buf
      ensures Valid() && ok == (|old(items)| < size)
      ensures items == if ok then old(items) + [item] else old(items)
    {
      hide Low, And, Add64, Pow2;
      if count >= size {
        return false;
      }
      var t := tail;
      WrapKeepsSlot(popped + |items|, k);
      PushHolds(buf[..], k, popped, items, item);
      PushBlank(buf[..], k, popped + |items|, size - |items|, item);
      buf[And(t, mask)] := Value(item);
      items := items + [item];
      tail := Add64(tail, 1);
      count := Add64(count, 1);
      NextWraps(popped + |items| - 1);
      CountUpDown(|items| - 1, k);
      return true;
    }

    /** A pop succeeds just when the buffer is not empty, and returns the oldest item. */
    method Pop() returns (item: Slot<T>, ok: bool)
      requires Valid()
      modifies this`head, this`count, this`items, this`popped, buf
      ensures Valid() && ok == (old(items) != [])
      ensures ok ==> item == Value(old(items)[0]) && items == old(items)[1..]
      ensures !ok ==> items == old(items)
    {
      hide Low, And, Add64, Pow2;
      if count == 0 {
        return Nil, false;
      }
      var h := head;
      WrapKeepsSlot(popped, k);
      PopHolds(buf[..], k, popped, items);
      PopBlank(buf[..], k, popped + |items|, size - |items|, popped);
      item := buf[And(h, mask)];
      buf[And(h, mask)] := Nil;
      popped, items := popped + 1, items[1..];
      head := Add64(head, 1);
      count := Add64(count, WORD - 1);
      NextWraps(popped - 1);
      CountUpDown(|items| + 1, k);
      return item, true;
    }
  }

  lemma CountUpDown(c: nat, k: nat)
    requires c <= Pow2(k) && k <= 63
    ensures Add64(c, 1) == c + 1 && (c > 0 ==> Add64(c, WORD - 1) == c - 1)
  {
    SizeBelowWord(k);
  }

  lemma NextWraps(n: nat)
    ensures Add64(n % WORD, 1) == (n + 1) % WORD
  {
  }

  lemma SizeBelowWord(k: nat)
    requires k <= 63
    ensures Pow2(k) <= TOP
  {
    Pow2Grows(k, 63);
    WordIsPow2();
  }
}

/** One producer and one consumer on the ring buffer, interleaved at every atomic access. */
module RingBufferRace {
  import opened Arithmetic
  import opened Collections
  import opened RingBuffers

  datatype Producer<T> = Ready | LoadTail(v: T) | Write(v: T, tail: nat) | BumpTail(v: T) | BumpCount(v: T)
  datatype Consumer<T> = Ready | LoadHead | Read(head: nat) | Clear(head: nat, item: Slot<T>) | BumpHead(item: Slot<T>)
                       | DropCount(item: Slot<T>)

  /** A call that has taken effect, with what it returns. */
  datatype Event<T> = Pushed(v: T) | PushRefused | Popped(item: Slot<T>) | PopRefused

  /** `popped` counts all completed pops without wrapping; the log lists the calls in the order they took
      effect. Neither is part of the buffer. */
  datatype State<T> = State(size: nat, buf: seq<Slot<T>>, head: nat, tail: nat, count: nat,
                            prod: Producer<T>, cons: Consumer<T>, popped: nat, log: seq<Event<T>>)

  /** The producer's next atomic access; when it is between calls, the first of `Push(v)`. */
  function Produce<T>(s: State<T>, v: T): State<T> {
    match s.prod
    case Ready =>
      if s.count >= s.size then s.(log := s.log + [PushRefused]) else s.(prod := LoadTail(v))
    case LoadTail(w) => s.(prod := Write(w, s.tail))
    case Write(w, tail) =>
      var slot := And(tail, if s.size > 0 then s.size - 1 else 0);
      s.(buf := if slot < |s.buf| then s.buf[slot := Value(w)] else s.buf, prod := BumpTail(w))
    case BumpTail(w) => s.(tail := Add64(s.tail, 1), prod := BumpCount(w))
    case BumpCount(w) => s.(count := Add64(s.count, 1), prod := Producer.Ready, log := s.log + [Pushed(w)])
  }

  /** The consumer's next atomic access; when it is between calls, the first of `Pop()`. */
  function Consume<T>(s: State<T>): State<T> {
    match s.cons
    case Ready =>
      if s.count == 0 then s.(log := s.log + [PopRefused]) else s.(cons := LoadHead)
    case LoadHead => s.(cons := Read(s.head))
    case Read(head) =>
      var slot := And(head, if s.size > 0 then s.size - 1 else 0);
      s.(cons := Clear(head, if slot < |s.buf| then s.buf[slot] else Nil))
    case Clear(head, item) =>
      var slot := And(head, if s.size > 0 then s.size - 1 else 0);
      s.(buf := if slot < |s.buf| then s.buf[slot := Nil] else s.buf, cons := BumpHead(item))
    case BumpHead(item) => s.(head := Add64(s.head, 1), cons := DropCount(item))
    case DropCount(item) =>
      s.(count := Add64(s.count, WORD - 1), cons := Consumer.Ready, popped := s.popped + 1,
          log := s.log + [Popped(item)])
  }

  datatype Act<T> = Producing(v: T) | Consuming

  function Step<T>(s: State<T>, a: Act<T>): State<T> {
    if a.Producing? then Produce(s, a.v) else Consume(s)
  }

  function Exec<T>(s: State<T>, acts: seq<Act<T>>): State<T>
    decreases |acts|
  {
    if acts == [] then s else Exec(Step(s, acts[0]), acts[1..])
  }

  function Init<T>(size: nat): State<T> {
    State(size, seq(size, _ => Nil), 0, 0, 0, Producer.Ready, Consumer.Ready, 0, [])
  }

  // ----- The bounded queue -----

  function Contents<T>(log: seq<Event<T>>): seq<T> {
    if log == [] then []
    else
      var before := Contents(log[..|log| - 1]);
      match log[|log| - 1]
      case Pushed(v) => before + [v]
      case Popped(_) => if before == [] then [] else before[1..]
      case _ => before
  }

  /** Every call got the answer of a queue of `size` places: a push is refused just when it is full, a pop
      just when it is empty, and a pop returns the oldest item. */
  ghost predicate Legal<T>(size: nat, log: seq<Event<T>>) {
    log == [] ||
    var before := Contents(log[..|log| - 1]);
    && Legal(size, log[..|log| - 1])
    && match log[|log| - 1]
       case Pushed(_) => |before| < size
       case PushRefused => |before| == size
       case Popped(item) => before != [] && item == Value(before[0])
       case PopRefused => before == []
  }

  lemma LogPush<T>(size: nat, log: seq<Event<T>>, e: Event<T>)
    ensures Contents(log + [e]) == match e
                                   case Pushed(v) => Contents(log) + [v]
                                   case Popped(_) => if Contents(log) == [] then [] else Contents(log)[1..]
                                   case _ => Contents(log)
    ensures Legal(size, log + [e]) <==>
              Legal(size, log) && match e
                                  case Pushed(_) => |Contents(log)| < size
                                  case PushRefused => |Contents(log)| == size
                                  case Popped(item) => Contents(log) != [] && item == Value(Contents(log)[0])
                                  case PopRefused => Contents(log) == []
  {
    assert (log + [e])[..|log|] == log;
  }

  predicate Wrote<T>(p: Producer<T>) {
    p.BumpTail? || p.BumpCount?
  }

  predicate Cleared<T>(c: Consumer<T>) {
    c.BumpHead? || c.DropCount?
  }

  /** The queue, with the item a push has written but not yet counted. */
  function Stored<T>(s: State<T>): seq<T> {
    Contents(s.log) + if Wrote(s.prod) then [s.prod.v] else []
  }

  function Gone<T>(s: State<T>): nat {
    if Cleared(s.cons) then 1 else 0
  }

  ghost predicate ProducerOk<T>(s: State<T>, q: seq<T>) {
    && (!s.prod.Ready? ==> |q| < s.size)
    && (s.prod.Write? ==> s.prod.tail == s.tail)
    && s.tail == (s.popped + |q| + if s.prod.BumpCount? then 1 else 0) % WORD
  }

  ghost predicate ConsumerOk<T>(s: State<T>, q: seq<T>) {
    && (!s.cons.Ready? ==> |q| > 0)
    && (s.cons.Read? || s.cons.Clear? ==> s.cons.head == s.head)
    && (s.cons.Clear? || s.cons.BumpHead? || s.cons.DropCount? ==> |q| > 0 && s.cons.item == Value(q[0]))
    && s.head == (s.popped + if s.cons.DropCount? then 1 else 0) % WORD
  }

  /** The count is the length of the queue at every instant; `tail` and `head` run ahead of it by a push or a
      pop in progress, modulo 2^64; every item that is stored and not yet taken is in its slot. */
  ghost predicate Inv<T>(s: State<T>, k: nat) {
    && k <= 63 && s.size == |s.buf| == Pow2(k) && Legal(s.size, s.log)
    && s.count == |Contents(s.log)| <= s.size
    && ProducerOk(s, Contents(s.log)) && ConsumerOk(s, Contents(s.log))
    && Gone(s) <= |Stored(s)| && Holds(s.buf, k, s.popped + Gone(s), Stored(s)[Gone(s)..])
  }

  lemma ProduceKeepsInv<T>(s: State<T>, k: nat, v: T)
    requires Inv(s, k)
    ensures Inv(Produce(s, v), k)
  {
    hide Low, And, Pow2, Add64, Legal, Contents, Holds;
    var q := Contents(s.log);
    match s.prod
    case Ready =>
      LogPush(s.size, s.log, PushRefused);
    case LoadTail(_) =>
    case Write(w, tail) =>
      WrapKeepsSlot(s.popped + |q|, k);
      assert Stored(s)[Gone(s)..] + [w] == (q + [w])[Gone(s)..];
      PushHolds(s.buf, k, s.popped + Gone(s), Stored(s)[Gone(s)..], w);
    case BumpTail(_) =>
      NextWraps(s.popped + |q|);
    case BumpCount(w) =>
      LogPush(s.size, s.log, Pushed(w));
      CountUpDown(s.count, k);
      assert Stored(Produce(s, v)) == Stored(s);
  }

  lemma ConsumeKeepsInv<T>(s: State<T>, k: nat)
    requires Inv(s, k)
    ensures Inv(Consume(s), k)
  {
    hide Low, And, Pow2, Add64, Legal, Contents, Holds;
    var q := Contents(s.log);
    match s.cons
    case Ready =>
      LogPush(s.size, s.log, PopRefused);
    case LoadHead =>
    case Read(_) =>
      WrapKeepsSlot(s.popped, k);
      PopHolds(s.buf, k, s.popped, Stored(s));
    case Clear(_, _) =>
      WrapKeepsSlot(s.popped, k);
      PopHolds(s.buf, k, s.popped, Stored(s));
    case BumpHead(_) =>
      NextWraps(s.popped);
    case DropCount(item) =>
      LogPush(s.size, s.log, Popped(item));
      CountUpDown(s.count, k);
      assert Stored(Consume(s)) == Stored(s)[1..];
  }

  lemma {:induction false} ExecKeepsInv<T>(s: State<T>, k: nat, acts: seq<Act<T>>)
    requires Inv(s, k)
    ensures Inv(Exec(s, acts), k) && Exec(s, acts).size == s.size
    decreases |acts|
  {
    hide Inv;
    if acts != [] {
      if acts[0].Producing? {
        ProduceKeepsInv(s, k, acts[0].v);
      } else {
        ConsumeKeepsInv(s, k);
      }
      ExecKeepsInv(Step(s, acts[0]), k, acts[1..]);
    }
  }

  /** With one producer and one consumer, whatever the interleaving and however often the counters wrap, the
      buffer is a queue of `size` places: each call takes effect at one instant with the answer that queue
      gives, and at every instant the count is its length. */
  lemma RaceIsBoundedQueue<T>(k: nat, acts: seq<Act<T>>)
    requires k <= 63
    ensures var s := Exec(Init<T>(Pow2(k)), acts);
            && Legal(Pow2(k), s.log) && s.count == |Contents(s.log)| <= Pow2(k)
            && s.tail == (s.popped + s.count + if s.prod.BumpCount? then 1 else 0) % WORD
            && s.head == (s.popped + if s.cons.DropCount? then 1 else 0) % WORD
            && (s.prod.Ready? && s.cons.Ready? ==> s.count == (s.tail - s.head) % WORD)
  {
    var s0 := Init<T>(Pow2(k));
    ExecKeepsInv(s0, k, acts);
    var s := Exec(s0, acts);
    SizeBelowWord(k);
    if s.prod.Ready? && s.cons.Ready? {
      WrapDifference(s.popped, s.count);
    }
  }

  lemma WrapDifference(n: nat, c: nat)
    requires c < WORD
    ensures ((n + c) % WORD - n % WORD) % WORD == c
  {
  }

  function Ins<T>(log: seq<Event<T>>): seq<Slot<T>> {
    if log == [] then [] else Ins(log[..|log| - 1]) + if log[|log| - 1].Pushed? then [Value(log[|log| - 1].v)] else []
  }

  function Outs<T>(log: seq<Event<T>>): seq<Slot<T>> {
    if log == [] then [] else Outs(log[..|log| - 1]) + if log[|log| - 1].Popped? then [log[|log| - 1].item] else []
  }

  function Values<T>(q: seq<T>): (r: seq<Slot<T>>)
    ensures |r| == |q| && forall i | 0 <= i < |q| :: r[i] == Value(q[i])
  {
    seq(|q|, i requires 0 <= i < |q| => Value(q[i]))
  }

  /** What was popped, followed by what is still there, is what was pushed. */
  lemma {:induction false} FirstInFirstOut<T>(size: nat, log: seq<Event<T>>)
    requires Legal(size, log)
    ensures Ins(log) == Outs(log) + Values(Contents(log))
  {
    if log != [] {
      var before, e := log[..|log| - 1], log[|log| - 1];
      var q := Contents(before);
      FirstInFirstOut(size, before);
      match e
      case Pushed(v) =>
        assert Values(q + [v]) == Values(q) + [Value(v)];
        Regroup(Outs(before), Values(q), [Value(v)]);
      case Popped(item) =>
        assert Values(q)[1..] == Values(q[1..]);
        FrontMoves(Outs(before), Values(q));
      case _ =>
    }
  }

  // ----- What is left behind -----

  /** Slots that hold no item are cleared. */
  ghost predicate Blanks<T>(s: State<T>, k: nat) {
    && s.size == |s.buf| == Pow2(k) && |Stored(s)| <= s.size
    && Blank(s.buf, k, s.popped + |Stored(s)|, s.size - |Stored(s)| + Gone(s))
  }

  lemma ProduceKeepsBlanks<T>(s: State<T>, k: nat, v: T)
    requires Inv(s, k) && Blanks(s, k)
    ensures Blanks(Produce(s, v), k)
  {
    hide Low, And, Pow2, Add64, Legal, Contents, Holds, Blank;
    var q := Contents(s.log);
    match s.prod
    case Ready => LogPush(s.size, s.log, PushRefused);
    case LoadTail(_) =>
    case Write(w, tail) =>
      WrapKeepsSlot(s.popped + |q|, k);
      PushBlank(s.buf, k, s.popped + |q|, s.size - |q| + Gone(s), w);
    case BumpTail(_) =>
    case BumpCount(w) => LogPush(s.size, s.log, Pushed(w));
  }

  lemma ConsumeKeepsBlanks<T>(s: State<T>, k: nat)
    requires Inv(s, k) && Blanks(s, k)
    ensures Blanks(Consume(s), k)
  {
    hide Low, And, Pow2, Add64, Legal, Contents, Holds, Blank;
    match s.cons
    case Ready => LogPush(s.size, s.log, PopRefused);
    case LoadHead =>
    case Read(_) =>
    case Clear(_, _) =>
      WrapKeepsSlot(s.popped, k);
      PopBlank(s.buf, k, s.popped + |Stored(s)|, s.size - |Stored(s)|, s.popped);
    case BumpHead(_) =>
    case DropCount(item) =>
      LogPush(s.size, s.log, Popped(item));
      assert Stored(Consume(s)) == Stored(s)[1..];
  }

  lemma {:induction false} ExecKeepsBlanks<T>(s: State<T>, k: nat, acts: seq<Act<T>>)
    requires Inv(s, k) && Blanks(s, k)
    ensures Inv(Exec(s, acts), k) && Blanks(Exec(s, acts), k)
    decreases |acts|
  {
    hide Inv, Blanks;
    if acts != [] {
      if acts[0].Producing? {
        ProduceKeepsInv(s, k, acts[0].v);
        ProduceKeepsBlanks(s, k, acts[0].v);
      } else {
        ConsumeKeepsInv(s, k);
        ConsumeKeepsBlanks(s, k);
      }
      ExecKeepsBlanks(Step(s, acts[0]), k, acts[1..]);
    }
  }

  /** In every run, between calls, every slot that holds no item is cleared. */
  lemma ClearedAtRest<T>(k: nat, acts: seq<Act<T>>)
    requires k <= 63
    ensures var s := Exec(Init<T>(Pow2(k)), acts);
            s.prod.Ready? && s.cons.Ready? ==>
              |s.buf| == Pow2(k)
              && forall m: nat | s.popped + s.count <= m < s.popped + Pow2(k) :: s.buf[m % Pow2(k)] == Nil
  {
    hide Exec, Pow2, Low;
    SizeBelowWord(k);
    InitOk<T>(k);
    ExecKeepsBlanks(Init<T>(Pow2(k)), k, acts);
    var s := Exec(Init<T>(Pow2(k)), acts);
    if s.prod.Ready? && s.cons.Ready? {
      forall m: nat | s.popped + s.count <= m < s.popped + Pow2(k) ensures s.buf[m % Pow2(k)] == Nil {
        LowIsMod(m, k);
        assert s.buf[Low(m, k)] == Nil;
      }
    }
  }

  lemma InitOk<T>(k: nat)
    requires k <= 63
    ensures Inv(Init<T>(Pow2(k)), k) && Blanks(Init<T>(Pow2(k)), k)
  {
    hide Low, And, Add64, Holds, Blank, Pow2;
    var s := Init<T>(Pow2(k));
    AllBlank(s.buf, k);
    assert Stored(s)[Gone(s)..] == [];
  }

  // ----- Every call returns -----

  /** How many accesses a push, or a pop, in progress has left. */
  function PushLeft<T>(p: Producer<T>): nat {
    match p
    case Ready => 0
    case LoadTail(_) => 4
    case Write(_, _) => 3
    case BumpTail(_) => 2
    case BumpCount(_) => 1
  }

  function PopLeft<T>(c: Consumer<T>): nat {
    match c
    case Ready => 0
    case LoadHead => 5
    case Read(_) => 4
    case Clear(_, _) => 3
    case BumpHead(_) => 2
    case DropCount(_) => 1
  }

  /** How many of the accesses are the producer's. */
  function Productions<T>(acts: seq<Act<T>>): (n: nat)
    ensures n <= |acts|
  {
    if acts == [] then 0 else (if acts[0].Producing? then 1 else 0) + Productions(acts[1..])
  }

  lemma InsPush<T>(log: seq<Event<T>>, e: Event<T>)
    ensures Ins(log + [e]) == Ins(log) + if e.Pushed? then [Value(e.v)] else []
    ensures Outs(log + [e]) == Outs(log) + if e.Popped? then [e.item] else []
  {
    assert (log + [e])[..|log|] == log;
  }

  lemma PushMoves<T>(s: State<T>, a: Act<T>)
    requires a.Producing? ==> !s.prod.Ready?
    ensures var r := Step(s, a);
            && PushLeft(r.prod) == PushLeft(s.prod) - (if a.Producing? then 1 else 0)
            && (r.prod.Ready? <==> PushLeft(r.prod) == 0) && (!r.prod.Ready? ==> r.prod.v == s.prod.v)
            && Ins(r.log) == Ins(s.log) + if r.prod.Ready? && !s.prod.Ready? then [Value(s.prod.v)] else []
  {
    hide Ins, Outs, And, Add64;
    forall e: Event<T> {
      InsPush(s.log, e);
    }
  }

  lemma PopMoves<T>(s: State<T>, a: Act<T>)
    requires a.Consuming? ==> !s.cons.Ready?
    ensures var r := Step(s, a);
            && PopLeft(r.cons) == PopLeft(s.cons) - (if a.Consuming? then 1 else 0)
            && (r.cons.Ready? <==> PopLeft(r.cons) == 0)
            && |Outs(r.log)| == |Outs(s.log)| + if r.cons.Ready? && !s.cons.Ready? then 1 else 0
  {
    hide Ins, Outs, And, Add64;
    forall e: Event<T> {
      InsPush(s.log, e);
    }
  }

  /** However the other side's accesses come in between, a push in progress takes those it has left and then
      has pushed its own item. */
  lemma {:induction false} PushFinishes<T>(s: State<T>, acts: seq<Act<T>>)
    requires Productions(acts) <= PushLeft(s.prod)
    ensures var r := Exec(s, acts);
            && PushLeft(r.prod) == PushLeft(s.prod) - Productions(acts)
            && (r.prod.Ready? <==> PushLeft(r.prod) == 0) && (!r.prod.Ready? ==> r.prod.v == s.prod.v)
            && Ins(r.log) == Ins(s.log) + if r.prod.Ready? && !s.prod.Ready? then [Value(s.prod.v)] else []
    decreases |acts|
  {
    hide Ins, Step;
    if acts != [] {
      PushMoves(s, acts[0]);
      PushFinishes(Step(s, acts[0]), acts[1..]);
    }
  }

  lemma {:induction false} PopFinishes<T>(s: State<T>, acts: seq<Act<T>>)
    requires |acts| - Productions(acts) <= PopLeft(s.cons)
    ensures var r := Exec(s, acts);
            && PopLeft(r.cons) == PopLeft(s.cons) - (|acts| - Productions(acts))
            && (r.cons.Ready? <==> PopLeft(r.cons) == 0)
            && |Outs(r.log)| == |Outs(s.log)| + if r.cons.Ready? && !s.cons.Ready? then 1 else 0
    decreases |acts|
  {
    hide Outs, Step;
    if acts != [] {
      PopMoves(s, acts[0]);
      PopFinishes(Step(s, acts[0]), acts[1..]);
    }
  }

  /** In every run a push that finds room is done after four more of the producer's accesses, and a pop that
      finds an item after five more of the consumer's, whatever the other side does meanwhile; a push or pop
      that finds none returns at once. */
  lemma CallsReturn<T>(k: nat, before: seq<Act<T>>, v: T, acts: seq<Act<T>>)
    requires k <= 63
    ensures var s := Exec(Init<T>(Pow2(k)), before); var q := Contents(s.log);
            && (s.prod.Ready? && |q| == Pow2(k) ==>
                  Step(s, Producing(v)) == s.(log := s.log + [PushRefused]))
            && (s.cons.Ready? && q == [] ==> Step(s, Consuming) == s.(log := s.log + [PopRefused]))
            && (s.prod.Ready? && |q| < Pow2(k) && Productions(acts) == 4 ==>
                  var r := Exec(Step(s, Producing(v)), acts);
                  r.prod.Ready? && Ins(r.log) == Ins(s.log) + [Value(v)])
            && (s.cons.Ready? && q != [] && |acts| - Productions(acts) == 5 ==>
                  var r := Exec(Step(s, Consuming), acts);
                  r.cons.Ready? && |Outs(r.log)| == |Outs(s.log)| + 1)
  {
    hide Inv, Ins, Outs, Exec, Init, Productions, Pow2, Contents;
    RunOk(k, before);
    var s := Exec(Init<T>(Pow2(k)), before);
    if s.prod.Ready? && s.count < s.size && Productions(acts) == 4 {
      PushFinishes(Step(s, Producing(v)), acts);
    }
    if s.cons.Ready? && s.count > 0 && |acts| - Productions(acts) == 5 {
      PopFinishes(Step(s, Consuming), acts);
    }
  }

  lemma RunOk<T>(k: nat, acts: seq<Act<T>>)
    requires k <= 63
    ensures var s := Exec(Init<T>(Pow2(k)), acts); s.size == Pow2(k) && s.count == |Contents(s.log)| <= s.size
  {
    SizeBelowWord(k);
    ExecKeepsInv(Init<T>(Pow2(k)), k, acts);
  }
}
