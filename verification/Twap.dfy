/** Time-weighted slicing of a parent order into child orders. Random draws are arbitrary streams: `unit`
    gives numbers in [0, 1), `draw` and `flip` the jitter and its sign. Factors are real numbers; times and
    durations are nanoseconds. */
module Twap {
  import opened Orders
  import opened Sums
  import opened Arithmetic

  const MILLISECOND := 1_000_000

  datatype Parent = Parent(id: nat, symbol: string, side: Side, totalQty: int, startTime: int, endTime: int,
                           maxPrice: int, minIntervalMs: int, sliceCount: int, perturbPct: real)

  datatype Child = Child(id: nat, parentId: nat, symbol: string, side: Side, qty: int, price: int, scheduledAt: int)

  datatype SliceError = BadQuantity | BadWindow | BadSliceCount | BadPerturbation | NoMaxPrice | SliceTooSmall
  datatype Slices = Sliced(children: seq<Child>) | Failed(error: SliceError)
  datatype Verdict = Accepted | Refused(error: SliceError)

  function Clamp(x: int, lo: int, hi: int): (r: int)
    requires lo <= hi
    ensures lo <= r <= hi && (lo <= x <= hi ==> r == x) && (x < lo ==> r == lo) && (x > hi ==> r == hi)
  {
    if x < lo then lo else if x > hi then hi else x
  }

  function Validate(p: Parent): Verdict {
    if p.totalQty <= 0 then Refused(BadQuantity)
    else if p.endTime <= p.startTime then Refused(BadWindow)
    else if p.sliceCount <= 0 then Refused(BadSliceCount)
    else if p.perturbPct < 0.0 || p.perturbPct > 1.0 then Refused(BadPerturbation)
    else if p.maxPrice <= 0 && p.side == Buy then Refused(NoMaxPrice)
    else Accepted
  }

  /** A parent is refused for the first of these that it fails. */
  lemma ValidateIs(p: Parent)
    ensures Validate(p) == Accepted <==>
              p.totalQty > 0 && p.startTime < p.endTime && p.sliceCount > 0 && 0.0 <= p.perturbPct <= 1.0
              && (p.side == Sell || p.maxPrice > 0)
    ensures Validate(p) == Refused(BadQuantity) <==> p.totalQty <= 0
    ensures Validate(p) == Refused(BadWindow) <==> p.totalQty > 0 && p.endTime <= p.startTime
    ensures Validate(p) == Refused(BadSliceCount) <==>
              p.totalQty > 0 && p.startTime < p.endTime && p.sliceCount <= 0
    ensures Validate(p) == Refused(BadPerturbation) <==>
              p.totalQty > 0 && p.startTime < p.endTime && p.sliceCount > 0
              && !(0.0 <= p.perturbPct <= 1.0)
    ensures Validate(p) != Refused(SliceTooSmall)
  {
  }

  const DEFAULT_INTERVAL := 30_000 * MILLISECOND

  /** One slice per whole interval, within the bounds on the number of slices. */
  function EstimateSliceCount(duration: int, preferredInterval: int): (r: int)
    ensures var interval := if preferredInterval <= 0 then 30_000_000_000 else preferredInterval;
            if duration < 100 * interval then r == 100
            else if duration >= 10000 * interval then r == 10000
            else 100 <= r < 10000 && r * interval <= duration < r * interval + interval
  {
    var interval := if preferredInterval <= 0 then DEFAULT_INTERVAL else preferredInterval;
    DivIs(duration, interval);
    DivOrder(duration, interval, 100);
    DivOrder(duration, interval, 10000);
    QuotSign(duration, interval);
    Clamp(Quot(duration, interval), 100, 10000)
  }

  /** What a submitted parent's unset fields are filled in with before it is checked. */
  function WithDefaults(p: Parent, now: int): Parent {
    var start := if p.startTime == 0 then now else p.startTime;
    var end := if p.endTime != 0 then p.endTime
               else if p.sliceCount > 0 then Wrap64(start + Wrap64(p.sliceCount * DEFAULT_INTERVAL))
               else Wrap64(start + 240 * DEFAULT_INTERVAL);
    var count := if p.sliceCount == 0 then EstimateSliceCount(Wrap64(end - start), DEFAULT_INTERVAL) else p.sliceCount;
    var pct := if p.perturbPct <= 0.0 then 0.10 else p.perturbPct;
    p.(startTime := start, endTime := end, sliceCount := count, perturbPct := pct)
  }

  /** The defaults: the present as the start; thirty seconds a slice, or two hours, as the window; one slice
      for each whole thirty seconds, 100 to 10000 of them; ten per cent of perturbation. What is given stays. */
  lemma DefaultsAre(p: Parent, now: int)
    ensures var q := WithDefaults(p, now);
            && q == p.(startTime := q.startTime, endTime := q.endTime, sliceCount := q.sliceCount,
                       perturbPct := q.perturbPct)
            && q.startTime == (if p.startTime != 0 then p.startTime else now)
            && q.perturbPct == (if p.perturbPct > 0.0 then p.perturbPct else 0.10)
            && (p.endTime != 0 ==> q.endTime == p.endTime)
            && (p.endTime == 0 ==>
                  var window := if p.sliceCount > 0 then p.sliceCount * 30_000_000_000 else 7_200_000_000_000;
                  Int64(window) && Int64(q.startTime + window) ==> q.endTime == q.startTime + window)
    ensures var q := WithDefaults(p, now);
            && (p.sliceCount != 0 ==> q.sliceCount == p.sliceCount)
            && (p.sliceCount == 0 && Int64(q.endTime - q.startTime) ==>
                  var window := q.endTime - q.startTime;
                  if window < 100 * 30_000_000_000 then q.sliceCount == 100
                  else if window >= 10000 * 30_000_000_000 then q.sliceCount == 10000
                  else q.sliceCount * 30_000_000_000 <= window < (q.sliceCount + 1) * 30_000_000_000)
  {
  }

  /** With the defaults filled in, a parent is accepted exactly for these reasons; two hours are cut into 240
      slices when neither the end nor a number of slices is given. */
  lemma DefaultsAreAccepted(p: Parent, now: int)
    requires 0 < now <= MAX_INT64 - 240 * DEFAULT_INTERVAL
    ensures var q := WithDefaults(p, now);
            && (Validate(q) == Accepted <==>
                  p.totalQty > 0 && p.sliceCount >= 0 && p.perturbPct <= 1.0 && q.startTime < q.endTime
                    && (p.side == Buy ==> p.maxPrice > 0))
            && (p.startTime == 0 && p.endTime == 0 && p.sliceCount == 0 ==>
                 q.endTime == now + 240 * DEFAULT_INTERVAL && q.sliceCount == 240)
  {
    var q := WithDefaults(p, now);
    if p.startTime == 0 && p.endTime == 0 && p.sliceCount == 0 {
      assert q.endTime - q.startTime == 240 * DEFAULT_INTERVAL;
      var r := EstimateSliceCount(240 * DEFAULT_INTERVAL, DEFAULT_INTERVAL);
      assert r * DEFAULT_INTERVAL <= 240 * DEFAULT_INTERVAL < r * DEFAULT_INTERVAL + DEFAULT_INTERVAL;
    }
  }

  /** How often, and how many times at most, a parent is sliced. */
  datatype Plan = Plan(interval: int, numSlices: int)

  function Duration(p: Parent): int {
    if p.endTime - p.startTime > MAX_INT64 then MAX_INT64 else p.endTime - p.startTime
  }

  function MinInterval(p: Parent): int {
    Wrap64(p.minIntervalMs * MILLISECOND)
  }

  /** The minimum interval asked for is longer than an even spread gives. */
  predicate Stretched(p: Parent)
    requires Duration(p) >= 0
  {
    Duration(p) / Clamp(p.sliceCount, 100, 10000) < MinInterval(p)
  }

  function PlanOf(p: Parent): Plan
    requires Validate(p) == Accepted
  {
    var total := Duration(p);
    var n := Clamp(p.sliceCount, 100, 10000);
    var interval, minInterval := total / n, MinInterval(p);
    if interval < minInterval && minInterval > 0 then
      Plan(minInterval, if total / minInterval < 1 then 1 else total / minInterval)
    else Plan(interval, n)
  }

  /** The number of slices, the window and the minimum interval a parent asks for. */
  function Asked(p: Parent): int {
    if p.sliceCount < 100 then 100 else if p.sliceCount > 10000 then 10000 else p.sliceCount
  }

  function Window(p: Parent): int {
    if p.endTime - p.startTime <= MAX_INT64 then p.endTime - p.startTime else MAX_INT64
  }

  function Least(p: Parent): int {
    Wrap64(p.minIntervalMs * 1_000_000)
  }

  /** `n` slices at `interval` spread a parent over its window: as many as asked for, 100 to 10000, evenly over
      the whole window; or, where that is closer than the minimum interval, as many of those as fit and at
      least one. */
  ghost predicate Spreads(p: Parent, interval: int, n: int) {
    var asked, window, least := Asked(p), Window(p), Least(p);
    if least * asked <= window then n == asked && interval * asked <= window < interval * asked + asked
    else interval == least && (least * n <= window < least * n + least || (n == 1 && window < least))
  }

  /** All slots of a plan lie in the window, unless a single slice was forced; the minimum interval only ever
      lowers the number of slices. */
  lemma PlanIs(p: Parent)
    requires Validate(p) == Accepted
    ensures var plan := PlanOf(p);
            && plan.interval >= 0 && 1 <= plan.numSlices <= 10000
            && (Stretched(p) ==> plan.numSlices < Clamp(p.sliceCount, 100, 10000) && plan.interval == MinInterval(p))
            && (!Stretched(p) ==> plan.numSlices == Clamp(p.sliceCount, 100, 10000))
            && (plan.interval * plan.numSlices <= Duration(p)
                || (plan.numSlices == 1 && Stretched(p) && Duration(p) < MinInterval(p)))
  {
    var total, n, m := Duration(p), Clamp(p.sliceCount, 100, 10000), MinInterval(p);
    DivIs(total, n);
    DivOrder(total, n, 0);
    if Stretched(p) {
      DivIs(total, m);
      DivOrder(total, m, n);
      DivOrder(total, n, m);
      assert n * m == m * n;
      DivOrder(total, m, 1);
    }
  }

  /** The plan is the spread asked for. */
  lemma PlanSpreads(p: Parent)
    requires Validate(p) == Accepted
    ensures Spreads(p, PlanOf(p).interval, PlanOf(p).numSlices)
  {
    var window, asked, least := Duration(p), Clamp(p.sliceCount, 100, 10000), MinInterval(p);
    AcceptedIs(p);
    EvenSpread(window, asked, least);
    if least > 0 {
      WholeSpread(window, least);
    } else {
      NotMore(least, asked);
    }
  }

  lemma EvenSpread(d: int, n: int, m: int)
    requires n > 0
    ensures (d / n) * n <= d < (d / n) * n + n
    ensures d / n < m <==> m * n > d
  {
    DivIs(d, n);
    DivOrder(d, n, m);
  }

  lemma WholeSpread(d: int, m: int)
    requires m > 0
    ensures m * (d / m) <= d < m * (d / m) + m
    ensures d / m < 1 <==> d < m
  {
    DivIs(d, m);
    DivOrder(d, m, 1);
  }

  lemma NotMore(m: int, n: int)
    requires m <= 0 && n >= 0
    ensures m * n <= 0
  {
  }

  // ----- Quantities -----

  /** The perturbation in effect. */
  function Pct(p: Parent): (r: real)
    requires Validate(p) == Accepted
    ensures 0.0 < r <= 1.0
  {
    if p.perturbPct <= 0.0 then 0.10 else p.perturbPct
  }

  /** The even share of slot `i`: the first slots take one more until the remainder is used up. */
  function Share(total: int, n: int, i: int): int
    requires n > 0
  {
    total / n + if i < total % n then 1 else 0
  }

  /** What the even shares of the first `i` slots add up to. */
  function Given(total: int, n: int, i: int): int
    requires n > 0
  {
    (total / n) * i + if i < total % n then i else total % n
  }

  lemma GivenNext(total: int, n: int, i: int)
    requires n > 0 && 0 <= i < n
    ensures Given(total, n, i + 1) == Given(total, n, i) + Share(total, n, i)
    ensures Given(total, n, 0) == 0 && Given(total, n, n) == total
  {
    assert (total / n) * (i + 1) == (total / n) * i + total / n;
    DivIs(total, n);
  }

  function Factor(u: real, pct: real): (f: real)
    requires 0.0 <= u < 1.0 && 0.0 < pct <= 1.0
    ensures 1.0 - pct <= f <= 1.0 + pct && f >= 0.1
  {
    NotNegative(u, pct);
    NotNegative(1.0 - u, pct);
    var x := 1.0 + (u * 2.0 - 1.0) * pct;
    assert x == 1.0 - pct + 2.0 * (u * pct) == 1.0 + pct - 2.0 * ((1.0 - u) * pct);
    if x < 0.1 then 0.1 else x
  }

  function Perturbed(qty: int, f: real): (r: int)
    requires qty >= 1 && f >= 0.1
    ensures r >= 1 && qty as real * f - 1.0 <= r as real && (r as real <= qty as real * f || r == 1)
  {
    var x := (qty as real * f).Floor;
    if x <= 0 then 1 else x
  }

  function Part(pct: real, x: int): real {
    pct * x as real
  }

  lemma PartIs(pct: real, x: int, y: int)
    requires pct > 0.0
    ensures Part(pct, x + y) == Part(pct, x) + Part(pct, y)
    ensures x <= y ==> Part(pct, x) <= Part(pct, y)
  {
    assert pct * (x + y) as real == pct * x as real + pct * y as real;
    if x <= y {
      NotNegative(pct, (y - x) as real);
      assert pct * (y - x) as real == pct * y as real - pct * x as real;
    }
  }

  lemma PerturbedBounds(qty: int, f: real, pct: real)
    requires qty >= 1 && 0.0 < pct <= 1.0 && 1.0 - pct <= f <= 1.0 + pct && f >= 0.1
    ensures qty as real - Part(pct, qty) - 1.0 <= Perturbed(qty, f) as real <= qty as real + Part(pct, qty)
  {
    var q := qty as real;
    NotNegative(q, f - (1.0 - pct));
    NotNegative(q, 1.0 + pct - f);
    NotNegative(pct, q);
    assert q * (f - (1.0 - pct)) == q * f - q + pct * q && q * (1.0 + pct - f) == q + pct * q - q * f;
  }

  lemma NotNegative(x: real, y: real)
    requires x >= 0.0 && y >= 0.0
    ensures x * y >= 0.0
  {
  }

  /** No child is much larger than an even share: what the perturbation and rounding of all earlier slices
      can leave over is bounded. */
  predicate QtyOk(total: int, n: int, pct: real, qty: int)
    requires n > 0
  {
    1 <= qty && qty as real <= (total / n + 1 + n) as real + Part(pct, total)
  }

  /** While anything is left, the earlier slices have taken at least their shares less the perturbation. */
  predicate Taken(pct: real, total: int, n: int, i: int, soFar: int)
    requires n > 0
  {
    soFar < total ==> soFar as real >= Given(total, n, i) as real - Part(pct, Given(total, n, i)) - i as real
  }

  /** The quantity of slice `i` of `n`, of which `want` is wanted and `remaining` can be had. */
  function SliceQty(n: int, i: int, want: int, remaining: int): int {
    if i == n - 1 || want > remaining then remaining else want
  }

  lemma SliceQtyOk(pct: real, total: int, n: int, i: int, soFar: int, f: real)
    requires 0.0 < pct <= 1.0 && total >= n > i >= 0 && 0 <= soFar < total && f >= 0.1 && 1.0 - pct <= f <= 1.0 + pct
    requires Taken(pct, total, n, i, soFar)
    ensures 1 <= Share(total, n, i)
    ensures var qty := SliceQty(n, i, Perturbed(Share(total, n, i), f), total - soFar);
            && QtyOk(total, n, pct, qty) && qty <= total - soFar
            && Taken(pct, total, n, i + 1, soFar + qty) && (i == n - 1 ==> soFar + qty == total)
  {
    hide Perturbed, Share, Given, Part;
    var share, given := Share(total, n, i), Given(total, n, i);
    ShareIsPart(total, n, i);
    PerturbedBounds(share, f, pct);
    GivenNext(total, n, i);
    PartIs(pct, given, share);
    PartIs(pct, share, total);
    PartIs(pct, given, total);
  }

  lemma ShareIsPart(total: int, n: int, i: int)
    requires total >= n > i >= 0
    ensures 1 <= Share(total, n, i) <= total && Share(total, n, i) <= total / n + 1
  {
    DivOrder(total, n, 1);
    DivIs(total, n);
    MulOrder(1, n, total / n);
  }

  // ----- Times -----

  function Jitter(interval: int, draw: nat, flip: bool): (r: int)
    requires interval >= 0
    ensures -(interval / 10) <= r <= interval / 10
  {
    if interval > MILLISECOND then (if flip then -(draw % (interval / 10)) else draw % (interval / 10)) else 0
  }

  /** A draw below a tenth of the interval is the jitter, one way or the other; there is none up to a
      millisecond. */
  lemma JitterIs(interval: int, draw: nat)
    requires interval >= 0
    ensures interval > 1_000_000 && draw < interval / 10 ==>
              Jitter(interval, draw, false) == draw && draw + Jitter(interval, draw, true) == 0
    ensures interval <= 1_000_000 ==> Jitter(interval, draw, false) == Jitter(interval, draw, true) == 0
  {
  }

  /** Inside the window, and no further from slot `i` than the jitter. */
  predicate TimeOk(p: Parent, interval: int, i: int, t: int) {
    && p.startTime <= t <= p.endTime
    && p.startTime + interval * i - interval / 10 <= t <= p.startTime + interval * i + interval / 10
  }

  /** Clamping to the window keeps a time near its slot; the end of the window is reached only when the
      interval is longer than the whole window, where a single slice was forced. */
  lemma SlotTimeOk(p: Parent, interval: int, n: int, i: int, jitter: int)
    requires p.startTime < p.endTime && interval >= 0 && 0 <= i < n && -(interval / 10) <= jitter <= interval / 10
    requires interval * n <= p.endTime - p.startTime || n == 1
    ensures var t := p.startTime + interval * i + jitter;
            && TimeOk(p, interval, i, Clamp(t, p.startTime, p.endTime))
            && (t > p.endTime ==> i == 0 && n == 1 && interval > p.endTime - p.startTime)
  {
    SlotInPlan(interval, i, n);
  }

  lemma SlotInPlan(interval: int, i: int, n: int)
    requires interval >= 0 && 0 <= i < n
    ensures 0 <= interval * i && interval * i + interval <= interval * n
  {
    assert interval * (n - 1 - i) >= 0;
    assert interval * n == interval * i + interval * (n - 1 - i) + interval;
  }

  /** Children are in time order and at least an interval less twice the jitter apart. */
  lemma GapOk(p: Parent, interval: int, i: int, t: int, j: int, u: int)
    requires interval >= 0 && 0 <= i < j && TimeOk(p, interval, i, t) && TimeOk(p, interval, j, u)
    ensures u - t >= Gap(interval) >= 0
  {
    SlotInPlan(interval, i, j);
  }

  function Gap(interval: int): int {
    interval - 2 * (interval / 10)
  }

  // ----- Children -----

  predicate Spaced(interval: int, children: seq<Child>) {
    && Gap(interval) >= 0
    && forall i, j | 0 <= i < j < |children| :: children[j].scheduledAt - children[i].scheduledAt >= Gap(interval)
  }

  const LOW32 := 0x1_0000_0000

  /** The parent's id in the upper half, the child's number in the lower. */
  function ChildId(parentId: nat, i: nat): nat {
    (parentId % LOW32) * LOW32 + i + 1
  }

  /** Children of different parents share an id exactly when they have the same number and the parents' ids
      agree in their low 32 bits, as those of all parents that have no id yet do. */
  lemma ChildIdsMeet(a: nat, i: nat, b: nat, j: nat)
    requires i < 10000 && j < 10000
    ensures ChildId(a, i) == ChildId(b, j) <==> i == j && a % LOW32 == b % LOW32
  {
  }

  /** The upper half of an id has the parent's low half, the lower the child's number from one. */
  lemma ChildIdIs(a: nat, i: nat)
    requires i < 10000
    ensures ChildId(a, i) / 0x1_0000_0000 == a % 0x1_0000_0000 && ChildId(a, i) % 0x1_0000_0000 == i + 1
  {
  }

  predicate ChildOk(p: Parent, plan: Plan, i: nat, c: Child)
    requires Validate(p) == Accepted && plan.numSlices > 0
  {
    && QtyOk(p.totalQty, plan.numSlices, Pct(p), c.qty) && TimeOk(p, plan.interval, i, c.scheduledAt)
    && c.id == ChildId(p.id, i) && c.parentId == p.id
    && c.symbol == p.symbol && c.side == p.side && c.price == p.maxPrice
  }

  function QtyOf(c: Child): int {
    c.qty
  }

  /** A plan that fits the parent's window and quantity. */
  predicate PlanOk(p: Parent, plan: Plan) {
    && p.startTime < p.endTime && plan.interval >= 0 && 1 <= plan.numSlices <= p.totalQty
    && (plan.interval * plan.numSlices <= p.endTime - p.startTime || plan.numSlices == 1)
  }

  /** The perturbed share of slot `i`. */
  function Want(p: Parent, plan: Plan, u: real, i: nat): int
    requires Validate(p) == Accepted && PlanOk(p, plan) && 0.0 <= u < 1.0 && i < plan.numSlices
  {
    ShareIsPart(p.totalQty, plan.numSlices, i);
    Perturbed(Share(p.totalQty, plan.numSlices, i), Factor(u, Pct(p)))
  }

  /** The jittered time of slot `i`, kept inside the window. */
  function SlotTime(p: Parent, plan: Plan, draw: nat, flip: bool, i: nat): int
    requires PlanOk(p, plan)
  {
    Clamp(p.startTime + plan.interval * i + Jitter(plan.interval, draw, flip), p.startTime, p.endTime)
  }

  /** The `i`-th child, when `remaining` is left. */
  function CutChild(p: Parent, plan: Plan, u: real, draw: nat, flip: bool, i: nat, remaining: int): Child
    requires Validate(p) == Accepted && PlanOk(p, plan) && 0.0 <= u < 1.0 && i < plan.numSlices
  {
    var qty := SliceQty(plan.numSlices, i, Want(p, plan, u, i), remaining);
    Child(ChildId(p.id, i), p.id, p.symbol, p.side, qty, p.maxPrice, SlotTime(p, plan, draw, flip, i))
  }

  /** Child `i` takes its perturbed share of what the `before` units of earlier children left, at its jittered slot. */
  predicate Drawn(p: Parent, plan: Plan, u: real, draw: nat, flip: bool, i: nat, before: int, c: Child)
    requires Validate(p) == Accepted && PlanOk(p, plan) && 0.0 <= u < 1.0 && i < plan.numSlices
  {
    && c.qty == SliceQty(plan.numSlices, i, Want(p, plan, u, i), p.totalQty - before)
    && c.scheduledAt == SlotTime(p, plan, draw, flip, i)
  }

  /** Every child is as the draws say. */
  ghost predicate EachCut(p: Parent, plan: Plan, unit: nat -> real, draw: nat -> nat, flip: nat -> bool,
                          children: seq<Child>)
    requires Validate(p) == Accepted && PlanOk(p, plan) && (forall i :: 0.0 <= unit(i) < 1.0)
             && |children| <= plan.numSlices
  {
    forall i | 0 <= i < |children| :: CutAt(p, plan, unit(i), draw(i), flip(i), children, i)
  }

  ghost predicate CutAt(p: Parent, plan: Plan, u: real, draw: nat, flip: bool, children: seq<Child>, i: nat)
    requires Validate(p) == Accepted && PlanOk(p, plan) && 0.0 <= u < 1.0 && i < |children| && i < plan.numSlices
  {
    ChildOk(p, plan, i, children[i]) && Drawn(p, plan, u, draw, flip, i, Sum(children[..i], QtyOf), children[i])
  }

  lemma CutAtKept(p: Parent, plan: Plan, u: real, draw: nat, flip: bool, children: seq<Child>, c: Child, i: nat)
    requires Validate(p) == Accepted && PlanOk(p, plan) && 0.0 <= u < 1.0 && i <= |children| && i < plan.numSlices
    requires if i < |children| then CutAt(p, plan, u, draw, flip, children, i)
             else ChildOk(p, plan, i, c) && Drawn(p, plan, u, draw, flip, i, Sum(children, QtyOf), c)
    ensures CutAt(p, plan, u, draw, flip, children + [c], i)
  {
    hide PlanOk, Pct, Validate, ChildOk, Drawn, Sum;
    assert (children + [c])[..i] == children[..i];
    assert children[..|children|] == children;
  }

  /** The slices cut so far. */
  ghost predicate Cutting(p: Parent, plan: Plan, unit: nat -> real, draw: nat -> nat, flip: nat -> bool,
                          children: seq<Child>)
    requires Validate(p) == Accepted && PlanOk(p, plan) && forall i :: 0.0 <= unit(i) < 1.0
  {
    var soFar := Sum(children, QtyOf);
    && |children| <= plan.numSlices && 0 <= soFar <= p.totalQty
    && Taken(Pct(p), p.totalQty, plan.numSlices, |children|, soFar)
    && (|children| == plan.numSlices ==> soFar == p.totalQty)
    && EachCut(p, plan, unit, draw, flip, children)
  }

  lemma CutChildOk(p: Parent, plan: Plan, u: real, draw: nat, flip: bool, i: nat, soFar: int)
    requires Validate(p) == Accepted && PlanOk(p, plan) && 0.0 <= u < 1.0 && i < plan.numSlices
    requires 0 <= soFar < p.totalQty && Taken(Pct(p), p.totalQty, plan.numSlices, i, soFar)
    ensures var c := CutChild(p, plan, u, draw, flip, i, p.totalQty - soFar);
            && ChildOk(p, plan, i, c) && Drawn(p, plan, u, draw, flip, i, soFar, c) && 1 <= c.qty <= p.totalQty - soFar
            && Taken(Pct(p), p.totalQty, plan.numSlices, i + 1, soFar + c.qty)
            && (i == plan.numSlices - 1 ==> soFar + c.qty == p.totalQty)
  {
    hide PlanOf, Pct, Share, Given, Perturbed, Part, Factor, Jitter, Validate, TimeOk, SliceQty, Clamp;
    SliceQtyOk(Pct(p), p.totalQty, plan.numSlices, i, soFar, Factor(u, Pct(p)));
    SlotTimeOk(p, plan.interval, plan.numSlices, i, Jitter(plan.interval, draw, flip));
  }

  lemma EachCutNext(p: Parent, plan: Plan, unit: nat -> real, draw: nat -> nat, flip: nat -> bool, children: seq<Child>,
                    c: Child)
    requires Validate(p) == Accepted && PlanOk(p, plan) && (forall i :: 0.0 <= unit(i) < 1.0)
             && |children| < plan.numSlices
    requires EachCut(p, plan, unit, draw, flip, children)
    requires var i := |children|;
             ChildOk(p, plan, i, c) && Drawn(p, plan, unit(i), draw(i), flip(i), i, Sum(children, QtyOf), c)
    ensures EachCut(p, plan, unit, draw, flip, children + [c])
  {
    hide PlanOk, Validate, ChildOk, Drawn, CutAt, Sum;
    forall i: nat | i <= |children| ensures CutAt(p, plan, unit(i), draw(i), flip(i), children + [c], i) {
      CutAtKept(p, plan, unit(i), draw(i), flip(i), children, c, i);
    }
  }

  lemma CutNext(p: Parent, plan: Plan, unit: nat -> real, draw: nat -> nat, flip: nat -> bool, children: seq<Child>,
                c: Child)
    requires Validate(p) == Accepted && PlanOk(p, plan) && forall i :: 0.0 <= unit(i) < 1.0
    requires Cutting(p, plan, unit, draw, flip, children) && Sum(children, QtyOf) < p.totalQty
    requires |children| < plan.numSlices
    requires var i := |children|;
             c == CutChild(p, plan, unit(i), draw(i), flip(i), i, p.totalQty - Sum(children, QtyOf))
    ensures Cutting(p, plan, unit, draw, flip, children + [c])
            && Sum(children + [c], QtyOf) == Sum(children, QtyOf) + c.qty
  {
    hide PlanOk, Pct, Validate, ChildOk, Drawn, Taken, CutChild, Sum, EachCut;
    var i := |children|;
    CutChildOk(p, plan, unit(i), draw(i), flip(i), i, Sum(children, QtyOf));
    SumPush(children, c, QtyOf);
    EachCutNext(p, plan, unit, draw, flip, children, c);
  }

  /** What a parent is sliced into: as the draws say, adding up to its quantity, in the window and spaced out. */
  ghost predicate IsSliced(p: Parent, unit: nat -> real, draw: nat -> nat, flip: nat -> bool, children: seq<Child>) {
    && Validate(p) == Accepted && (forall i :: 0.0 <= unit(i) < 1.0)
    && var plan := PlanOf(p);
       && PlanOk(p, plan) && 1 <= |children| <= plan.numSlices && Sum(children, QtyOf) == p.totalQty
       && EachCut(p, plan, unit, draw, flip, children)
       && Spaced(plan.interval, children)
  }

  /** Slicing fails exactly when the parent is refused or there is less than one unit a slice. Otherwise, for
      every random stream, it gives between one and the planned number of children, none of them empty, whose
      quantities add up to the parent's, at times in the window, in order and spaced out. */
  method GenerateSlices(p: Parent, unit: nat -> real, draw: nat -> nat, flip: nat -> bool) returns (r: Slices)
    requires forall i :: 0.0 <= unit(i) < 1.0
    ensures r.Failed? <==> Validate(p).Refused? || p.totalQty < PlanOf(p).numSlices
    ensures r.Failed? ==> r.error == if Validate(p).Refused? then Validate(p).error else SliceTooSmall
    ensures r.Sliced? ==> IsSliced(p, unit, draw, flip, r.children) && OnTime(p, r.children)
  {
    hide PlanOf, Stretched, Pct, Share, Given, Perturbed, Part, Factor, Jitter, Validate, Gap, CutChild, CutAt, OnTime;
    var verdict := Validate(p);
    if verdict.Refused? {
      return Failed(verdict.error);
    }
    PlanIs(p);
    AcceptedIs(p);
    var plan := PlanOf(p);
    var total, numSlices := p.totalQty, plan.numSlices;
    DivOrder(total, numSlices, 1);
    if total / numSlices <= 0 {
      return Failed(SliceTooSmall);
    }
    var children, soFar := [], 0;
    TakenNothing(Pct(p), total, numSlices);
    for i := 0 to numSlices
      invariant |children| == i && soFar == Sum(children, QtyOf)
      invariant Cutting(p, plan, unit, draw, flip, children)
    {
      var remaining := total - soFar;
      if remaining <= 0 {
        break;
      }
      var child := CutChild(p, plan, unit(i), draw(i), flip(i), i, remaining);
      CutNext(p, plan, unit, draw, flip, children, child);
      children := children + [child];
      soFar := soFar + child.qty;
    }
    if soFar != total {
      assert false;  // the remainder the source would add to the last child
    }
    SpacedOut(p, plan, unit, draw, flip, children);
    SlicedOnTime(p, unit, draw, flip, children);
    return Sliced(children);
  }

  /** The `i`-th time is in the window and within a tenth of a slot of where an even spread has it, but for the
      rounding of the interval; with a minimum interval, within a tenth of that. Both sides are taken times
      ten and times the number of slices. */
  predicate Near(p: Parent, i: int, at: int) {
    var n, window, least, t := Asked(p), Window(p), Least(p), at - p.startTime;
    && p.startTime <= at <= p.endTime
    && if least * n <= window then (window - n) * (10 * i) - window <= 10 * t * n <= window * (10 * i + 1)
       else least * (10 * i - 1) <= 10 * t <= least * (10 * i + 1)
  }

  /** At least four fifths of a slot. */
  predicate Apart(p: Parent, gap: int) {
    var n, window, least := Asked(p), Window(p), Least(p);
    if least * n <= window then 5 * gap * n >= 4 * (window - n) else 5 * gap >= 4 * least
  }

  lemma TimeIsNear(p: Parent, plan: Plan, i: nat, at: int)
    requires PlanOk(p, plan) && Spreads(p, plan.interval, plan.numSlices) && TimeOk(p, plan.interval, i, at)
    ensures Near(p, i, at)
  {
    hide Wrap64;
    var n, window, least, t := Asked(p), Window(p), Least(p), at - p.startTime;
    Tenths(plan.interval, i, t);
    if least * n <= window {
      NotAfter(plan.interval, i, n, window, t);
      NotBefore(plan.interval, i, n, window, t);
    }
  }

  lemma Tenths(x: int, i: int, t: int)
    requires x * i - x / 10 <= t <= x * i + x / 10
    ensures x * (10 * i - 1) <= 10 * t <= x * (10 * i + 1)
  {
    assert x * (10 * i - 1) == 10 * (x * i) - x && x * (10 * i + 1) == 10 * (x * i) + x;
  }

  lemma NotAfter(x: int, i: int, n: int, window: int, t: int)
    requires n > 0 && i >= 0 && x * n <= window && 10 * t <= x * (10 * i + 1)
    ensures 10 * t * n <= window * (10 * i + 1)
  {
    MulOrder(10 * t, x * (10 * i + 1), n);
    Swapped(x, 10 * i + 1, n);
    MulOrder(x * n, window, 10 * i + 1);
  }

  lemma NotBefore(x: int, i: int, n: int, window: int, t: int)
    requires n > 0 && i >= 0 && x * n <= window < x * n + n && x * (10 * i - 1) <= 10 * t
    ensures (window - n) * (10 * i) - window <= 10 * t * n
  {
    MulOrder(x * (10 * i - 1), 10 * t, n);
    Swapped(x, 10 * i - 1, n);
    assert (x * n) * (10 * i - 1) == (x * n) * (10 * i) - x * n;
    if i > 0 {
      MulOrder(window - n, x * n, 10 * i);
    }
  }

  lemma Swapped(x: int, y: int, n: int)
    ensures x * y * n == (x * n) * y
  {
  }

  lemma GapIsApart(p: Parent, plan: Plan, gap: int)
    requires PlanOk(p, plan) && Spreads(p, plan.interval, plan.numSlices) && gap >= Gap(plan.interval)
    ensures Apart(p, gap)
  {
    hide Wrap64;
    FourFifths(plan.interval, gap, Asked(p));
  }

  lemma FourFifths(x: int, gap: int, n: int)
    requires n > 0 && gap >= Gap(x)
    ensures 5 * gap >= 4 * x && 5 * gap * n >= 4 * (x * n)
  {
    MulOrder(4 * x, 5 * gap, n);
    assert 4 * x * n == 4 * (x * n);
  }

  /** Child times lie in the window, where an even spread or the minimum interval has them, and apart. */
  ghost predicate OnTime(p: Parent, children: seq<Child>) {
    && (forall i | 0 <= i < |children| :: Near(p, i, children[i].scheduledAt))
    && forall i, j | 0 <= i < j < |children| :: Apart(p, children[j].scheduledAt - children[i].scheduledAt)
  }

  lemma SlicedOnTime(p: Parent, unit: nat -> real, draw: nat -> nat, flip: nat -> bool, children: seq<Child>)
    requires IsSliced(p, unit, draw, flip, children)
    ensures OnTime(p, children)
  {
    hide Validate, PlanOf, PlanOk, Near, Apart, Spreads, QtyOk, TimeOk, Drawn, Gap;
    PlanSpreads(p);
    var plan := PlanOf(p);
    forall i: nat | i < |children| ensures Near(p, i, children[i].scheduledAt) {
      assert CutAt(p, plan, unit(i), draw(i), flip(i), children, i);
      TimeIsNear(p, plan, i, children[i].scheduledAt);
    }
    forall i, j | 0 <= i < j < |children|
      ensures Apart(p, children[j].scheduledAt - children[i].scheduledAt)
    {
      GapIsApart(p, plan, children[j].scheduledAt - children[i].scheduledAt);
    }
  }

  // ----- The quantity of each slice -----

  /** What child `i` gets: the last one everything left; any other its share, even but for one unit, times the
      random factor held at a tenth, rounded down, at least one and at most what is left. */
  predicate QtyIs(p: Parent, n: int, u: real, i: nat, left: int, qty: int)
    requires n > 0
  {
    var share := p.totalQty / n + if i < p.totalQty % n then 1 else 0;
    var pct := if p.perturbPct > 0.0 then p.perturbPct else 0.10;
    var drawn := 1.0 + (u * 2.0 - 1.0) * pct;
    var product := share as real * if drawn < 0.1 then 0.1 else drawn;
    && 1 <= qty <= left && (i == n - 1 ==> qty == left)
    && (qty == 1 || i == n - 1 || qty as real <= product) && (qty == left || qty as real > product - 1.0)
  }

  lemma SlicedQty(p: Parent, unit: nat -> real, draw: nat -> nat, flip: nat -> bool, children: seq<Child>, i: nat)
    requires IsSliced(p, unit, draw, flip, children) && i < |children|
    ensures QtyIs(p, PlanOf(p).numSlices, unit(i), i, p.totalQty - Sum(children[..i], QtyOf), children[i].qty)
  {
    hide Validate, PlanOf, PlanOk, EachCut, QtyIs, Drawn, ChildOk, Spaced;
    CutIs(p, PlanOf(p), unit, draw, flip, children, i);
    forall j: nat | j < |children| ensures QtyOf(children[j]) >= 1 {
      CutIs(p, PlanOf(p), unit, draw, flip, children, j);
    }
    SumSplit(children, i, QtyOf);
    SumTerm(children[i..], 0, QtyOf);
    DrawnIs(p, PlanOf(p), unit(i), draw(i), flip(i), i, Sum(children[..i], QtyOf), children[i]);
  }

  /** And its time: its slot moved by the draw, one way or the other, and kept in the window. */
  lemma SlicedTime(p: Parent, unit: nat -> real, draw: nat -> nat, flip: nat -> bool, children: seq<Child>, i: nat)
    requires IsSliced(p, unit, draw, flip, children) && i < |children|
    requires PlanOf(p).interval > 1_000_000 && draw(i) < PlanOf(p).interval / 10
    ensures var t := p.startTime + PlanOf(p).interval * i + if flip(i) then -(draw(i) as int) else draw(i);
            children[i].scheduledAt == if t < p.startTime then p.startTime else if t > p.endTime then p.endTime else t
  {
    hide Validate, PlanOf, PlanOk, EachCut, Spaced, Want, SliceQty, Jitter;
    CutIs(p, PlanOf(p), unit, draw, flip, children, i);
    JitterIs(PlanOf(p).interval, draw(i));
  }

  lemma DrawnIs(p: Parent, plan: Plan, u: real, draw: nat, flip: bool, i: nat, before: int, c: Child)
    requires Validate(p) == Accepted && PlanOk(p, plan) && 0.0 <= u < 1.0 && i < plan.numSlices
    requires Drawn(p, plan, u, draw, flip, i, before, c) && 1 <= c.qty <= p.totalQty - before
    ensures QtyIs(p, plan.numSlices, u, i, p.totalQty - before, c.qty)
  {
    hide Validate, SlotTime, Want;
    WantIs(p, plan, u, i);
  }

  lemma WantIs(p: Parent, plan: Plan, u: real, i: nat)
    requires Validate(p) == Accepted && PlanOk(p, plan) && 0.0 <= u < 1.0 && i < plan.numSlices
    ensures var share := p.totalQty / plan.numSlices + if i < p.totalQty % plan.numSlices then 1 else 0;
            var pct := if p.perturbPct > 0.0 then p.perturbPct else 0.10;
            var drawn := 1.0 + (u * 2.0 - 1.0) * pct;
            var product, r := share as real * if drawn < 0.1 then 0.1 else drawn, Want(p, plan, u, i);
            (r == 1 || r as real <= product) && r as real > product - 1.0
  {
    hide Validate, Perturbed, Factor;
    ShareIsPart(p.totalQty, plan.numSlices, i);
    PerturbedIs(Share(p.totalQty, plan.numSlices, i), u, Pct(p));
  }

  lemma PerturbedIs(qty: int, u: real, pct: real)
    requires qty >= 1 && 0.0 <= u < 1.0 && 0.0 < pct <= 1.0
    ensures var drawn := 1.0 + (u * 2.0 - 1.0) * pct;
            var product, r := qty as real * if drawn < 0.1 then 0.1 else drawn, Perturbed(qty, Factor(u, pct));
            (r == 1 || r as real <= product) && r as real > product - 1.0
  {
  }

  lemma CutIs(p: Parent, plan: Plan, unit: nat -> real, draw: nat -> nat, flip: nat -> bool, children: seq<Child>,
              i: nat)
    requires Validate(p) == Accepted && PlanOk(p, plan) && (forall i :: 0.0 <= unit(i) < 1.0)
             && |children| <= plan.numSlices
    requires EachCut(p, plan, unit, draw, flip, children) && i < |children|
    ensures Drawn(p, plan, unit(i), draw(i), flip(i), i, Sum(children[..i], QtyOf), children[i])
    ensures children[i].qty >= 1
  {
    hide PlanOk, Validate, Drawn, Sum;
    assert CutAt(p, plan, unit(i), draw(i), flip(i), children, i);
  }

  lemma SpacedOut(p: Parent, plan: Plan, unit: nat -> real, draw: nat -> nat, flip: nat -> bool, children: seq<Child>)
    requires Validate(p) == Accepted && PlanOk(p, plan) && (forall i :: 0.0 <= unit(i) < 1.0)
             && |children| <= plan.numSlices
    requires EachCut(p, plan, unit, draw, flip, children)
    ensures Spaced(plan.interval, children)
  {
    hide Validate, QtyOk, TimeOk, Drawn;
    forall i: nat | i < |children| ensures TimeOk(p, plan.interval, i, children[i].scheduledAt) {
      assert CutAt(p, plan, unit(i), draw(i), flip(i), children, i);
    }
    forall i: nat, j: nat | i < j < |children|
      ensures children[j].scheduledAt - children[i].scheduledAt >= Gap(plan.interval)
    {
      GapOk(p, plan.interval, i, children[i].scheduledAt, j, children[j].scheduledAt);
    }
  }

  lemma TakenNothing(pct: real, total: int, n: int)
    requires n > 0
    ensures Taken(pct, total, n, 0, 0) && Sum<Child>([], QtyOf) == 0
  {
    GivenNext(total, n, 0);
  }

  lemma AcceptedIs(p: Parent)
    requires Validate(p) == Accepted
    ensures p.totalQty > 0 && p.startTime < p.endTime
  {
  }
}
