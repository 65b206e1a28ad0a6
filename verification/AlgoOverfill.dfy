/** When parents can be filled beyond their quantity: exactly when children of different parents share an
    id, as the ids of all children cut before their parents had one do. */
module AlgoOverfill {
  import opened AlgoEngine
  import opened Sums
  import Heap = ContainerHeap
  import Twap

  /** The parents submitted in a run, each by the slices it was cut into. */
  function Submitted(acts: seq<Act>): seq<seq<Slice>>
    decreases |acts|
  {
    if acts == [] then [] else (if acts[0].Submit? then [acts[0].slices] else []) + Submitted(acts[1..])
  }

  /** Two parents have slices with the same id. */
  ghost predicate Shared(subs: seq<seq<Slice>>, a: nat, b: nat) {
    a < b < |subs| && exists i, j :: 0 <= i < |subs[a]| && 0 <= j < |subs[b]| && subs[a][i].id == subs[b][j].id
  }

  ghost predicate Collides(subs: seq<seq<Slice>>) {
    exists a, b :: Shared(subs, a, b)
  }

  ghost predicate Overfilled(s: State) {
    exists p :: 0 <= p < |s.parents| && s.parents[p].filled > s.parents[p].totalQty
  }

  /** Some run that submits these parents, or the first of them, gets a parent overfilled. */
  ghost predicate CanOverfill(subs: seq<seq<Slice>>) {
    exists acts, s :: Runs(INIT, acts, s) && Submitted(acts) <= subs && Overfilled(s)
  }

  lemma RunsCons(s: State, a: Act, acts: seq<Act>, r: State)
    requires Enabled(s, a) && Runs(Step(s, a), acts, r)
    ensures Runs(s, [a] + acts, r) && Submitted([a] + acts) == (if a.Submit? then [a.slices] else []) + Submitted(acts)
  {
    assert ([a] + acts)[1..] == acts;
  }

  lemma {:induction false} RunsAppend(s: State, a: seq<Act>, t: State, b: seq<Act>, r: State)
    requires Runs(s, a, t) && Runs(t, b, r)
    ensures Runs(s, a + b, r) && Submitted(a + b) == Submitted(a) + Submitted(b)
    decreases |a|
  {
    hide Enabled, Step;
    if a == [] {
      assert a + b == b;
    } else {
      assert (a + b)[1..] == a[1..] + b;
      RunsAppend(Step(s, a[0]), a[1..], t, b, r);
    }
  }

  // ----- Without shared ids -----

  ghost predicate Cut(s: State, subs: seq<seq<Slice>>) {
    && |s.parents| == |subs|
    && forall c | 0 <= c < |s.children| :: CutFrom(s.children[c], subs)
  }

  ghost predicate CutFrom(x: Child, subs: seq<seq<Slice>>) {
    x.parent < |subs| && exists i :: 0 <= i < |subs[x.parent]| && subs[x.parent][i].id == x.id
  }

  lemma OtherStepKeepsIds(s: State, a: Act)
    requires Enabled(s, a) && !a.Submit?
    ensures var r := Step(s, a);
            && |r.parents| == |s.parents| && |r.children| == |s.children|
            && forall c | 0 <= c < |s.children| ::
                 r.children[c].id == s.children[c].id && r.children[c].parent == s.children[c].parent
  {
    hide Pushed, PoppedRoot;
    if a.Execute? {
      OwnStepKeepsIds(s, a);
    }
  }

  lemma OwnStepKeepsIds(s: State, a: Act)
    requires Enabled(s, a) && a.Execute?
    ensures var r := Step(s, a);
            && |r.parents| == |s.parents| && |r.children| == |s.children|
            && forall c | 0 <= c < |s.children| ::
                 r.children[c].id == s.children[c].id && r.children[c].parent == s.children[c].parent
  {
    hide Pushed, ExecuteStep;
    ExecuteIsOwnMove(s, a.e, a.outcome, a.at, a.heap);
  }

  lemma StepKeepsCut(s: State, a: Act, subs: seq<seq<Slice>>)
    requires Cut(s, subs) && Enabled(s, a)
    ensures Cut(Step(s, a), subs + if a.Submit? then [a.slices] else [])
  {
    hide Pushed, PoppedRoot, ExecuteStep, ScheduleStep, ScanStep, CancellerStep;
    var more := subs + if a.Submit? then [a.slices] else [];
    var r := Step(s, a);
    if !a.Submit? {
      OtherStepKeepsIds(s, a);
    }
    forall c | 0 <= c < |r.children| ensures CutFrom(r.children[c], more) {
      if c < |s.children| {
        assert CutFrom(s.children[c], subs);
        var i :| 0 <= i < |subs[s.children[c].parent]| && subs[s.children[c].parent][i].id == s.children[c].id;
        assert more[r.children[c].parent][i].id == r.children[c].id;
      } else {
        assert more[|subs|][c - |s.children|].id == r.children[c].id;
      }
    }
  }

  lemma {:induction false} RunKeepsCut(s: State, acts: seq<Act>, r: State, subs: seq<seq<Slice>>)
    requires Cut(s, subs) && Runs(s, acts, r)
    ensures Cut(r, subs + Submitted(acts))
    decreases |acts|
  {
    hide Enabled, Step, Cut;
    if acts == [] {
      assert subs + [] == subs;
    } else {
      StepKeepsCut(s, acts[0], subs);
      var first := if acts[0].Submit? then [acts[0].slices] else [];
      RunKeepsCut(Step(s, acts[0]), acts[1..], r, subs + first);
      assert subs + first + Submitted(acts[1..]) == subs + (first + Submitted(acts[1..]));
    }
  }

  lemma NoCollisionIsDistinct(s: State, subs: seq<seq<Slice>>, some: seq<seq<Slice>>)
    requires Cut(s, some) && some <= subs && !Collides(subs)
    ensures DistinctIds(s)
  {
    forall c, d | 0 <= c < d < |s.children| && s.children[c].id == s.children[d].id
      ensures s.children[c].parent == s.children[d].parent
    {
      var a, b := s.children[c].parent, s.children[d].parent;
      assert CutFrom(s.children[c], some) && CutFrom(s.children[d], some);
      assert some[a] == subs[a] && some[b] == subs[b];
      assert a < b ==> Shared(subs, a, b);
      assert b < a ==> Shared(subs, b, a);
    }
  }

  lemma NoCollisionNoOverfill(subs: seq<seq<Slice>>)
    requires !Collides(subs)
    ensures !CanOverfill(subs)
  {
    forall acts, s | Runs(INIT, acts, s) && Submitted(acts) <= subs ensures !Overfilled(s) {
      RunKeepsCut(INIT, acts, s, []);
      assert [] + Submitted(acts) == Submitted(acts);
      NoCollisionIsDistinct(s, subs, Submitted(acts));
      forall p | 0 <= p < |s.parents| ensures s.parents[p].filled <= s.parents[p].totalQty {
        NoOverfill(acts, s, p);
      }
    }
  }

  // ----- With shared ids: submit everything, then fill everything -----

  predicate Above(lo: nat, h: seq<nat>, key: nat -> int) {
    forall j | 0 <= j < |h| :: key(lo) <= key(h[j])
  }

  predicate Ascending(h: seq<nat>, key: nat -> int) {
    h == [] || (Above(h[0], h[1..], key) && Ascending(h[1..], key))
  }

  lemma {:induction false} AscendingPairs(h: seq<nat>, key: nat -> int, i: nat, j: nat)
    requires Ascending(h, key) && i < j < |h|
    ensures key(h[i]) <= key(h[j])
  {
    if i == 0 {
      assert h[j] == h[1..][j - 1];
    } else {
      AscendingPairs(h[1..], key, i - 1, j - 1);
    }
  }

  lemma {:induction false} SortedHeap(xs: seq<nat>, key: nat -> int) returns (h: seq<nat>)
    ensures multiset(h) == multiset(xs) && Ascending(h, key)
  {
    if xs == [] {
      h := [];
    } else {
      var t := SortedHeap(xs[1..], key);
      h := InsertKey(t, key, xs[0]);
      assert xs == [xs[0]] + xs[1..];
    }
  }

  lemma {:induction false} InsertKey(t: seq<nat>, key: nat -> int, x: nat) returns (h: seq<nat>)
    requires Ascending(t, key)
    ensures multiset(h) == multiset(t) + multiset{x} && Ascending(h, key)
    ensures forall lo | Above(lo, t, key) && key(lo) <= key(x) :: Above(lo, h, key)
  {
    if t == [] || key(x) <= key(t[0]) {
      h := [x] + t;
    } else {
      var r := InsertKey(t[1..], key, x);
      h := [t[0]] + r;
      assert t == [t[0]] + t[1..] && h[1..] == r;
      AboveLater(t, key, x, r);
    }
  }

  lemma AboveLater(t: seq<nat>, key: nat -> int, x: nat, r: seq<nat>)
    requires t != [] && forall lo | Above(lo, t[1..], key) && key(lo) <= key(x) :: Above(lo, r, key)
    ensures forall lo | Above(lo, t, key) && key(lo) <= key(x) :: Above(lo, [t[0]] + r, key)
  {
    forall lo | Above(lo, t, key) && key(lo) <= key(x) ensures Above(lo, [t[0]] + r, key) {
      assert Above(lo, t[1..], key) && key(lo) <= key(t[0]);
    }
  }

  /** A heap of the given entries exists. */
  lemma SomeHeap(xs: seq<nat>, key: nat -> int) returns (h: seq<nat>)
    ensures Heap.IsHeap(h, key) && multiset(h) == multiset(xs)
  {
    h := SortedHeap(xs, key);
    forall k: nat | k < |h| ensures Heap.Ordered(h, key, k) {
      if k > 0 {
        AscendingPairs(h, key, (k - 1) / 2, k);
      }
    }
  }

  ghost predicate HasChild(s: State, a: nat, id: nat) {
    exists c :: 0 <= c < |s.children| && s.children[c].parent == a && s.children[c].id == id
  }

  /** Everything is submitted and nothing has happened yet; every id is registered for the last parent that
      has it. */
  ghost predicate Staged(s: State, subs: seq<seq<Slice>>) {
    && Cut(s, subs) && s.scheduler == Waiting && s.executors == [] && s.canceller == Unlocked
    && (forall p | 0 <= p < |s.parents| :: s.parents[p].status == Running && s.parents[p].filled == 0)
    && (forall c: nat | c < |s.children| :: s.children[c].status == Pending && s.children[c].filled == 0 && c in s.heap)
    && (forall i | 0 <= i < |s.heap| :: s.heap[i] < |s.children|)
    && (forall a, i | 0 <= a < |subs| && 0 <= i < |subs[a]| :: HasChild(s, a, subs[a][i].id))
    && (forall id | id in s.childToParent :: s.childToParent[id] < |subs| && Among(subs[s.childToParent[id]], id))
    && (forall a, i | 0 <= a < |subs| && 0 <= i < |subs[a]| ::
          subs[a][i].id in s.childToParent && s.childToParent[subs[a][i].id] >= a)
  }

  lemma StageNext(s: State, subs: seq<seq<Slice>>, a: Act)
    requires Staged(s, subs) && a.Submit? && Enabled(s, a)
    ensures Staged(SubmitStep(s, a), subs + [a.slices])
  {
    hide Cut, HasChild, Registered, Pushed, Among;
    StepKeepsCut(s, a, subs);
    CutSize(s, subs);
    StagedHeap(s, a);
    StagedChildren(s, subs, a);
    StagedMap(s.childToParent, subs, a.slices);
    assert SubmitStep(s, a).childToParent == Registered(s.childToParent, |subs|, a.slices);
  }

  lemma StagedChildren(s: State, subs: seq<seq<Slice>>, a: Act)
    requires a.Submit? && |s.parents| == |subs|
    requires forall b, i | 0 <= b < |subs| && 0 <= i < |subs[b]| :: HasChild(s, b, subs[b][i].id)
    ensures var more: seq<seq<Slice>> := subs + [a.slices];
            forall b, i | 0 <= b < |more| && 0 <= i < |more[b]| :: HasChild(SubmitStep(s, a), b, more[b][i].id)
  {
    var r, n := SubmitStep(s, a), |subs|;
    var more: seq<seq<Slice>> := subs + [a.slices];
    forall b, i | 0 <= b < |more| && 0 <= i < |more[b]| ensures HasChild(r, b, more[b][i].id) {
      if b < n {
        assert HasChild(s, b, subs[b][i].id);
        var c :| 0 <= c < |s.children| && s.children[c].parent == b && s.children[c].id == subs[b][i].id;
        assert r.children[c] == s.children[c];
      } else {
        assert r.children[|s.children| + i].id == a.slices[i].id;
      }
    }
  }

  lemma StagedMap(m: map<nat, nat>, subs: seq<seq<Slice>>, slices: seq<Slice>)
    requires forall id | id in m :: m[id] < |subs| && Among(subs[m[id]], id)
    requires forall a, i | 0 <= a < |subs| && 0 <= i < |subs[a]| :: subs[a][i].id in m && m[subs[a][i].id] >= a
    ensures var more: seq<seq<Slice>> := subs + [slices]; var r := Registered(m, |subs|, slices);
            && (forall id | id in r :: r[id] < |more| && Among(more[r[id]], id))
            && forall a, i | 0 <= a < |more| && 0 <= i < |more[a]| :: more[a][i].id in r && r[more[a][i].id] >= a
  {
    RegisteredIs(m, |subs|, slices);
    var more: seq<seq<Slice>> := subs + [slices];
    forall a, i | 0 <= a < |more| && 0 <= i < |more[a]|
      ensures more[a][i].id in Registered(m, |subs|, slices) && Registered(m, |subs|, slices)[more[a][i].id] >= a
    {
      if a == |subs| {
        assert Among(slices, slices[i].id);
      } else {
        assert subs[a][i].id in m;
      }
    }
  }

  lemma CutSize(s: State, subs: seq<seq<Slice>>)
    requires Cut(s, subs)
    ensures |s.parents| == |subs|
  {
  }

  lemma StagedHeap(s: State, a: Act)
    requires a.Submit? && Enabled(s, a) && (forall c: nat | c < |s.children| :: c in s.heap)
    requires forall i | 0 <= i < |s.heap| :: s.heap[i] < |s.children|
    ensures forall c: nat | c < |SubmitStep(s, a).children| :: c in a.heap
    ensures forall i | 0 <= i < |a.heap| :: a.heap[i] < |SubmitStep(s, a).children|
  {
    var xs: seq<nat> := Range(|s.children|, |s.children| + |a.slices|);
    assert multiset(a.heap) == multiset(s.heap) + multiset(xs);
    forall c: nat | c < |s.children| + |a.slices| ensures c in a.heap {
      if c < |s.children| {
        assert c in s.heap;
        assert c in multiset(s.heap);
      } else {
        assert xs[c - |s.children|] == c && c in multiset(xs);
      }
      assert c in multiset(a.heap);
    }
    forall i | 0 <= i < |a.heap| ensures a.heap[i] < |s.children| + |a.slices| {
      assert a.heap[i] in multiset(a.heap);
      assert a.heap[i] in multiset(s.heap) || a.heap[i] in multiset(xs);
      assert a.heap[i] in s.heap || a.heap[i] in xs;
    }
  }

  ghost predicate Sliced(subs: seq<seq<Slice>>) {
    forall a, i | 0 <= a < |subs| && 0 <= i < |subs[a]| :: subs[a][i].qty >= 1
  }

  lemma {:induction false} SubmitAll(subs: seq<seq<Slice>>, n: nat) returns (acts: seq<Act>, s: State)
    requires Sliced(subs) && n <= |subs|
    ensures Runs(INIT, acts, s) && Submitted(acts) == subs[..n] && Staged(s, subs[..n])
  {
    if n == 0 {
      acts, s := [], INIT;
    } else {
      var before, t := SubmitAll(subs, n - 1);
      var a := NextSubmit(t, subs[n - 1], subs[..n - 1]);
      s := Step(t, a);
      StageNext(t, subs[..n - 1], a);
      assert subs[..n - 1] + [a.slices] == subs[..n];
      assert Runs(s, [], s);
      RunsCons(t, a, [], s);
      assert [a] + [] == [a] && Submitted([]) == [];
      RunsAppend(INIT, before, t, [a], s);
      acts := before + [a];
    }
  }

  lemma NextSubmit(s: State, slices: seq<Slice>, subs: seq<seq<Slice>>) returns (a: Act)
    requires Staged(s, subs) && forall i | 0 <= i < |slices| :: slices[i].qty >= 1
    ensures a.Submit? && a.slices == slices && Enabled(s, a)
  {
    var children := s.children + NewChildren(|s.parents|, slices);
    var xs := Range(|s.children|, |s.children| + |slices|);
    var h := SomeHeap(s.heap + xs, AtOf(children));
    a := Submit(Sum(slices, QtyOf), slices, h);
    assert multiset(s.heap + xs) == multiset(s.heap) + multiset(xs);
  }

  /** The scheduler, having woken late enough, works its way through the heap; what has left the heap is
      filled in full for the parent its id is registered for. */
  ghost predicate Draining(s: State, now: int) {
    && s.scheduler == Scanning(now) && s.canceller == Unlocked
    && (forall p | 0 <= p < |s.parents| :: s.parents[p].status == Running)
    && (forall c | 0 <= c < |s.children| ::
          && s.children[c].id in s.childToParent && s.childToParent[s.children[c].id] < |s.parents|
          && s.children[c].qty >= 1 && s.children[c].at <= now)
    && (forall c: nat | c < |s.children| ::
          if c in s.heap then s.children[c].status == Pending && s.children[c].filled == 0
          else s.children[c].filled == s.children[c].qty)
    && (forall c: nat :: multiset(s.heap)[c] <= 1) && (forall i | 0 <= i < |s.heap| :: s.heap[i] < |s.children|)
    && Heap.IsHeap(s.heap, AtOf(s.children))
    && forall p: nat | p < |s.parents| :: s.parents[p].filled == Sum(s.children, FilledVia(s.childToParent, p))
  }

  /** What the children registered for `p` have filled. */
  function FilledVia(m: map<nat, nat>, p: nat): Child -> int {
    (x: Child) => if x.id in m && m[x.id] == p then x.filled else 0
  }

  function QtyVia(m: map<nat, nat>, p: nat): Child -> int {
    (x: Child) => if x.id in m && m[x.id] == p then x.qty else 0
  }

  function Spawned(s: State, now: int, h: seq<nat>, p: nat, c: nat): State {
    s.(heap := h, scheduler := Scanning(now), executors := s.executors + [Executor(p, c, Claim)])
  }

  /** The scheduler takes the first child and starts an executor for it. */
  lemma SpawnOne(s: State, now: int, h: seq<nat>) returns (acts: seq<Act>)
    requires Draining(s, now) && s.heap != [] && PoppedRoot(s.children, s.heap, h)
    ensures var c := s.heap[0];
            c < |s.children| && Runs(s, acts, Spawned(s, now, h, s.childToParent[s.children[c].id], c))
              && Submitted(acts) == []
  {
    hide Enabled, Step, Spawned;
    var c := s.heap[0];
    assert c in s.heap;
    var p := s.childToParent[s.children[c].id];
    var s1 := s.(heap := h, scheduler := CheckChild(now, c));
    var s2 := s1.(scheduler := LookUp(now, c));
    ScansOne(s, now, h, s1, s2);
    RoutesOne(s, now, h, p, c, s2, s1.(scheduler := CheckParent(now, c, p)));
    acts := Four(s, Scan(h), Schedule(0, []), Schedule(0, []), Schedule(0, []), s1, s2,
                 s1.(scheduler := CheckParent(now, c, p)), Spawned(s, now, h, p, c));
  }

  lemma ScansOne(s: State, now: int, h: seq<nat>, s1: State, s2: State)
    requires Draining(s, now) && s.heap != [] && PoppedRoot(s.children, s.heap, h)
    requires s1 == s.(heap := h, scheduler := CheckChild(now, s.heap[0]))
    requires s2 == s1.(scheduler := LookUp(now, s.heap[0]))
    ensures Enabled(s, Scan(h)) && Step(s, Scan(h)) == s1
    ensures Enabled(s1, Schedule(0, [])) && Step(s1, Schedule(0, [])) == s2
  {
    hide PoppedRoot, Pushed, CanReport;
    assert s.heap[0] in s.heap;
  }

  lemma RoutesOne(s: State, now: int, h: seq<nat>, p: nat, c: nat, s2: State, s3: State)
    requires Draining(s, now) && s.heap != [] && c == s.heap[0] && c < |s.children|
    requires s.children[c].id in s.childToParent && p == s.childToParent[s.children[c].id] < |s.parents|
    requires s2 == s.(heap := h, scheduler := LookUp(now, c))
    requires s3 == s.(heap := h, scheduler := CheckParent(now, c, p))
    ensures Enabled(s2, Schedule(0, [])) && Step(s2, Schedule(0, [])) == s3
    ensures Enabled(s3, Schedule(0, [])) && Step(s3, Schedule(0, [])) == Spawned(s, now, h, p, c)
  {
    hide PoppedRoot, Pushed, CanReport;
  }

  lemma Four(s: State, a: Act, b: Act, c: Act, d: Act, s1: State, s2: State, s3: State, r: State)
      returns (acts: seq<Act>)
    requires Enabled(s, a) && Step(s, a) == s1 && Enabled(s1, b) && Step(s1, b) == s2
    requires Enabled(s2, c) && Step(s2, c) == s3 && Enabled(s3, d) && Step(s3, d) == r
    requires !a.Submit? && !b.Submit? && !c.Submit? && !d.Submit?
    ensures Runs(s, acts, r) && Submitted(acts) == []
  {
    hide Enabled, Step;
    assert Runs(r, [], r) && Submitted([]) == [];
    RunsCons(s3, d, [], r);
    RunsCons(s2, c, [d] + [], r);
    RunsCons(s1, b, [c] + ([d] + []), r);
    RunsCons(s, a, [b] + ([c] + ([d] + [])), r);
    acts := [a] + ([b] + ([c] + ([d] + [])));
  }

  function FilledUp(s: State, e: nat, p: nat, c: nat): State
    requires e < |s.executors| && p < |s.parents| && c < |s.children|
  {
    var x := s.children[c];
    s.(children := s.children[c := x.(status := Filled, sends := x.sends + 1, externalId := 0, filled := x.qty)],
       parents := s.parents[p := s.parents[p].(filled := s.parents[p].filled + x.qty)],
       executors := s.executors[e := Executor(p, c, ReadTotal)])
  }

  /** The executor sends the child and gets all of it filled. */
  lemma FillOne(s: State, e: nat, p: nat, c: nat) returns (acts: seq<Act>)
    requires e < |s.executors| && s.executors[e] == Executor(p, c, Claim) && p < |s.parents| && c < |s.children|
    requires s.children[c].status == Pending && s.children[c].filled == 0 && s.children[c].qty >= 1
    ensures Runs(s, acts, FilledUp(s, e, p, c)) && Submitted(acts) == []
  {
    hide Enabled, Step, Thrice, CanReport, FilledUp;
    var x := s.children[c];
    var rep := Report(0, x.qty, true, false);
    var a := Execute(e, Accepted(rep), 0, []);
    FilledAtOnce(x.qty, x.qty, 0);
    SendsOne(s, e, p, c, a, rep);
    BooksOne(SentOff(s, e, c, rep), e, p, c, a, rep);
    SentOffIs(s, e, p, c, rep);
    acts := Six(s, a, SentOff(s, e, c, rep), FilledUp(s, e, p, c));
  }

  /** The child's order is accepted and its id stored. */
  function SentOff(s: State, e: nat, c: nat, rep: Report): State
    requires e < |s.executors| && c < |s.children|
  {
    var x := s.children[c];
    Goto(SetChild(s, c, x.(status := Sent, sends := x.sends + 1, externalId := 0)), e, StoreFilled(rep))
  }

  /** What its report says is on the books of child and parent. */
  function BookedOn(s: State, e: nat, p: nat, c: nat, rep: Report): State
    requires e < |s.executors| && c < |s.children| && p < |s.parents|
  {
    var t := Goto(SetChild(s, c, s.children[c].(status := Filled, filled := rep.filled)), e, ReadTotal);
    t.(parents := s.parents[p := s.parents[p].(filled := s.parents[p].filled + rep.filled)])
  }

  lemma SentOffIs(s: State, e: nat, p: nat, c: nat, rep: Report)
    requires e < |s.executors| && s.executors[e] == Executor(p, c, Claim) && p < |s.parents| && c < |s.children|
    ensures var t := SentOff(s, e, c, rep);
            && e < |t.executors| && t.executors[e] == Executor(p, c, StoreFilled(rep)) && p < |t.parents|
            && c < |t.children|
            && (rep.filled == s.children[c].qty ==> BookedOn(t, e, p, c, rep) == FilledUp(s, e, p, c))
  {
    var x, t := s.children[c], SentOff(s, e, c, rep);
    var booked := x.(status := Filled, sends := x.sends + 1, externalId := 0, filled := rep.filled);
    UpdateSeqTwice(s.children, c, t.children[c], booked);
    UpdateSeqTwice(s.executors, e, t.executors[e], Executor(p, c, ReadTotal));
  }

  lemma UpdateSeqTwice<T>(q: seq<T>, i: nat, x: T, y: T)
    requires i < |q|
    ensures q[i := x][i := y] == q[i := y]
  {
  }

  lemma SendsOne(s: State, e: nat, p: nat, c: nat, a: Act, rep: Report)
    requires e < |s.executors| && s.executors[e] == Executor(p, c, Claim) && p < |s.parents| && c < |s.children|
    requires s.children[c].status == Pending && a == Execute(e, Accepted(rep), 0, [])
             && CanReport(s.children[c].qty, rep) && rep.orderId == 0
    ensures Thrice(s, a, SentOff(s, e, c, rep))
  {
    hide Pushed, CanReport;
    var x := s.children[c];
    var s1 := Goto(SetChild(s, c, x.(status := Sent)), e, Sending);
    var s2 := Goto(SetChild(s, c, x.(status := Sent, sends := x.sends + 1)), e, StoreId(rep));
    assert Enabled(s, a) && Step(s, a) == s1;
    assert Enabled(s1, a) && Step(s1, a) == s2;
  }

  lemma BooksOne(s: State, e: nat, p: nat, c: nat, a: Act, rep: Report)
    requires e < |s.executors| && s.executors[e] == Executor(p, c, StoreFilled(rep)) && p < |s.parents|
             && c < |s.children|
    requires a == Execute(e, Accepted(rep), 0, []) && rep.full
    ensures Thrice(s, a, BookedOn(s, e, p, c, rep))
  {
    hide Pushed, CanReport;
    var x := s.children[c];
    var s1 := Goto(SetChild(s, c, x.(filled := rep.filled)), e, StoreStatus(rep));
    var s2 := Goto(SetChild(s, c, x.(filled := rep.filled, status := Filled)), e, AddFilled(rep));
    assert Enabled(s, a) && Step(s, a) == s1;
    assert Enabled(s1, a) && Step(s1, a) == s2;
  }

  /** The same action three times over. */
  ghost predicate Thrice(s: State, a: Act, r: State) {
    && Enabled(s, a) && Enabled(Step(s, a), a) && Enabled(Step(Step(s, a), a), a)
    && Step(Step(Step(s, a), a), a) == r
  }

  lemma Six(s: State, a: Act, t: State, r: State) returns (acts: seq<Act>)
    requires Thrice(s, a, t) && Thrice(t, a, r) && !a.Submit?
    ensures Runs(s, acts, r) && Submitted(acts) == []
  {
    hide Enabled, Step;
    var first := Four(s, a, a, a, a, Step(s, a), Step(Step(s, a), a), t, Step(t, a));
    assert Runs(r, [], r) && Submitted([]) == [];
    RunsCons(Step(Step(t, a), a), a, [], r);
    RunsCons(Step(t, a), a, [a] + [], r);
    acts := first + ([a] + ([a] + []));
    RunsAppend(s, first, Step(t, a), [a] + ([a] + []), r);
  }

  lemma DrainOne(s: State, now: int) returns (acts: seq<Act>, r: State)
    requires Draining(s, now) && s.heap != []
    ensures Runs(s, acts, r) && Submitted(acts) == [] && Draining(r, now) && |r.heap| < |s.heap|
    ensures SameOrders(s, r)
  {
    var h := SomeHeap(s.heap[1..], AtOf(s.children));
    assert s.heap == [s.heap[0]] + s.heap[1..];
    assert |multiset(h)| == |multiset(s.heap[1..])|;
    var c := s.heap[0];
    assert c in s.heap;
    var p := s.childToParent[s.children[c].id];
    var first := SpawnOne(s, now, h);
    var t := Spawned(s, now, h, p, c);
    var second := FillOne(t, |s.executors|, p, c);
    r := FilledUp(t, |s.executors|, p, c);
    RunsAppend(s, first, t, second, r);
    acts := first + second;
    DrainedOne(s, now, h, c, p, r);
  }

  /** Ids, quantities and totals stay. */
  ghost predicate SameOrders(s: State, r: State) {
    && |r.parents| == |s.parents| && |r.children| == |s.children| && r.childToParent == s.childToParent
    && (forall p | 0 <= p < |s.parents| :: r.parents[p].totalQty == s.parents[p].totalQty)
    && forall c | 0 <= c < |s.children| ::
         && r.children[c].id == s.children[c].id && r.children[c].parent == s.children[c].parent
         && r.children[c].qty == s.children[c].qty
  }

  lemma DrainedOne(s: State, now: int, h: seq<nat>, c: nat, p: nat, r: State)
    requires Draining(s, now) && s.heap != [] && PoppedRoot(s.children, s.heap, h)
    requires c == s.heap[0] && c < |s.children| && s.children[c].id in s.childToParent
    requires p == s.childToParent[s.children[c].id] && p < |s.parents|
    requires r == FilledUp(Spawned(s, now, h, p, c), |s.executors|, p, c)
    ensures Draining(r, now) && SameOrders(s, r)
  {
    hide PoppedRoot, FilledUp, Spawned;
    assert c in s.heap;
    PopMembers(s.children, s.heap, h);
    forall i | 0 <= i < |h| ensures h[i] < |s.children| {
      assert h[i] in h;
    }
    FilledUpIs(s, now, h, c, p, r);
    HeapSame(h, AtOf(s.children), AtOf(r.children));
    BooksStayVia(s, r, c, p);
  }

  lemma FilledUpIs(s: State, now: int, h: seq<nat>, c: nat, p: nat, r: State)
    requires c < |s.children| && p < |s.parents| && r == FilledUp(Spawned(s, now, h, p, c), |s.executors|, p, c)
    ensures SameOrders(s, r) && r.heap == h && r.scheduler == Scanning(now) && r.canceller == s.canceller
    ensures forall d: nat | d < |s.children| && d != c :: r.children[d] == s.children[d]
    ensures r.children[c].filled == s.children[c].qty && r.children[c].at == s.children[c].at
    ensures forall q: nat | q < |s.parents| ::
              && r.parents[q].status == s.parents[q].status
              && r.parents[q].filled == s.parents[q].filled + if q == p then s.children[c].qty else 0
  {
  }

  lemma BooksStayVia(s: State, r: State, c: nat, p: nat)
    requires SameOrders(s, r) && c < |s.children| && s.children[c].filled == 0
             && r.children[c].filled == s.children[c].qty
    requires s.children[c].id in s.childToParent && s.childToParent[s.children[c].id] == p
    requires forall d: nat | d < |s.children| && d != c :: r.children[d] == s.children[d]
    requires forall q: nat | q < |s.parents| ::
               r.parents[q].filled == s.parents[q].filled + if q == p then s.children[c].qty else 0
    requires forall q: nat | q < |s.parents| :: s.parents[q].filled == Sum(s.children, FilledVia(s.childToParent, q))
    ensures forall q: nat | q < |r.parents| :: r.parents[q].filled == Sum(r.children, FilledVia(r.childToParent, q))
  {
    assert r.children == s.children[c := r.children[c]];
    forall q: nat | q < |s.parents| ensures r.parents[q].filled == Sum(r.children, FilledVia(s.childToParent, q)) {
      SumUpdate(s.children, c, r.children[c], FilledVia(s.childToParent, q));
    }
  }

  lemma PopMembers(children: seq<Child>, heap: seq<nat>, h: seq<nat>)
    requires PoppedRoot(children, heap, h) && forall d: nat :: multiset(heap)[d] <= 1
    ensures Heap.IsHeap(h, AtOf(children))
    ensures forall d: nat :: multiset(h)[d] <= 1 && (d in h <==> d in heap && d != heap[0])
  {
    forall d: nat ensures multiset(h)[d] <= 1 && (d in h <==> d in heap && d != heap[0]) {
      assert multiset(h)[d] == if d == heap[0] then multiset(heap)[d] - 1 else multiset(heap)[d];
      assert (d in h <==> multiset(h)[d] > 0) && (d in heap <==> multiset(heap)[d] > 0);
    }
  }

  lemma {:induction false} DrainAll(s: State, now: int) returns (acts: seq<Act>, r: State)
    requires Draining(s, now)
    ensures Runs(s, acts, r) && Submitted(acts) == [] && Draining(r, now) && r.heap == [] && SameOrders(s, r)
    decreases |s.heap|
  {
    hide Draining, Enabled, Step;
    if s.heap == [] {
      acts, r := [], s;
    } else {
      var first, t := DrainOne(s, now);
      var rest;
      rest, r := DrainAll(t, now);
      RunsAppend(s, first, t, rest, r);
      acts := first + rest;
    }
  }

  lemma LastCollision(subs: seq<seq<Slice>>, a0: nat, b0: nat) returns (a: nat, b: nat)
    requires Shared(subs, a0, b0)
    ensures Shared(subs, a, b) && forall c: nat, d: nat :: Shared(subs, c, d) ==> d <= b
    decreases |subs| - b0
  {
    if c: nat, d: nat :| Shared(subs, c, d) && d > b0 {
      a, b := LastCollision(subs, c, d);
    } else {
      a, b := a0, b0;
    }
  }

  lemma LatestAt(children: seq<Child>) returns (now: int)
    ensures forall c | 0 <= c < |children| :: children[c].at <= now
  {
    if children == [] {
      now := 0;
    } else {
      now := LatestAt(children[1..]);
      now := if children[0].at > now then children[0].at else now;
      forall c | 0 <= c < |children| ensures children[c].at <= now {
        assert c > 0 ==> children[c] == children[1..][c - 1];
      }
    }
  }

  lemma StagedDrains(s: State, subs: seq<seq<Slice>>, now: int)
    requires Staged(s, subs) && TokensOk(s) && forall c | 0 <= c < |s.children| :: s.children[c].at <= now
    ensures Draining(s.(scheduler := Scanning(now)), now)
  {
    hide Cut, HasChild, Among;
    var m := s.childToParent;
    forall c | 0 <= c < |s.children|
      ensures s.children[c].id in m && m[s.children[c].id] < |s.parents| && s.children[c].qty >= 1
    {
      assert ChildOk(s, s.children[c]);
    }
    forall p: nat | p < |s.parents| ensures s.parents[p].filled == Sum(s.children, FilledVia(m, p)) {
      SumZero(s.children, FilledVia(m, p));
    }
  }

  lemma SumStrict<T>(s: seq<T>, i: nat, f: T -> int, g: T -> int)
    requires i < |s| && f(s[i]) < g(s[i]) && forall k | 0 <= k < |s| :: f(s[k]) <= g(s[k])
    ensures Sum(s, f) < Sum(s, g)
  {
    SumSplit(s, i, f);
    SumSplit(s, i, g);
    SumMono(s[..i], f, g);
    SumMono(s[i + 1..], f, g);
    assert s[i..][0] == s[i] && s[i..][1..] == s[i + 1..];
  }

  /** When everything is filled, the last parent with a shared id has more than its own. */
  lemma LastIsOverfilled(s: State, subs: seq<seq<Slice>>, r: State, now: int, a: nat, b: nat)
    requires Staged(s, subs) && SameOrders(s, r) && Draining(r, now) && r.heap == [] && Budgets(r)
    requires Shared(subs, a, b) && forall c: nat, d: nat :: Shared(subs, c, d) ==> d <= b
    ensures Overfilled(r)
  {
    hide Staged, Shared;
    var m := s.childToParent;
    var c := Collider(s, subs, a, b);
    forall d | 0 <= d < |r.children| ensures QtyFor(b)(r.children[d]) <= QtyVia(m, b)(r.children[d]) {
      OwnOrMore(s, subs, b, d);
    }
    SumStrict(r.children, c, QtyFor(b), QtyVia(m, b));
    forall d | 0 <= d < |r.children| ensures FilledVia(m, b)(r.children[d]) == QtyVia(m, b)(r.children[d]) {
    }
    SumSame(r.children, r.children, FilledVia(m, b), QtyVia(m, b));
    assert r.parents[b].filled > r.parents[b].totalQty;
  }

  /** The child of the earlier parent that goes to the later one's account. */
  lemma Collider(s: State, subs: seq<seq<Slice>>, a: nat, b: nat) returns (c: nat)
    requires Staged(s, subs) && Shared(subs, a, b) && forall c: nat, d: nat :: Shared(subs, c, d) ==> d <= b
    ensures a < b < |s.parents| == |subs| && c < |s.children| && s.children[c].parent == a
    ensures s.children[c].id in s.childToParent && s.childToParent[s.children[c].id] == b
  {
    CutSize(s, subs);
    var i, j :| 0 <= i < |subs[a]| && 0 <= j < |subs[b]| && subs[a][i].id == subs[b][j].id;
    assert HasChild(s, a, subs[a][i].id);
    c :| 0 <= c < |s.children| && s.children[c].parent == a && s.children[c].id == subs[a][i].id;
    StaysWithLast(s, subs, b, j);
  }

  /** No id of the last parent with a shared id is registered for a later one. */
  lemma StaysWithLast(s: State, subs: seq<seq<Slice>>, b: nat, j: nat)
    requires Staged(s, subs) && b < |subs| && j < |subs[b]| && forall c: nat, d: nat :: Shared(subs, c, d) ==> d <= b
    ensures subs[b][j].id in s.childToParent && s.childToParent[subs[b][j].id] == b
  {
    var id := subs[b][j].id;
    var d := s.childToParent[id];
    if d > b {
      assert Among(subs[d], id);
      assert Shared(subs, b, d);
    }
  }

  lemma OwnOrMore(s: State, subs: seq<seq<Slice>>, b: nat, c: nat)
    requires Staged(s, subs) && b < |subs| && c < |s.children| && forall x: nat, y: nat :: Shared(subs, x, y) ==> y <= b
    ensures s.children[c].parent == b ==> s.children[c].id in s.childToParent && s.childToParent[s.children[c].id] == b
  {
    if s.children[c].parent == b {
      assert CutFrom(s.children[c], subs);
      var j :| 0 <= j < |subs[b]| && subs[b][j].id == s.children[c].id;
      StaysWithLast(s, subs, b, j);
    }
  }

  lemma CollisionOverfills(subs: seq<seq<Slice>>)
    requires Sliced(subs) && Collides(subs)
    ensures CanOverfill(subs)
  {
    hide Step, Enabled, Runs, Submitted, Staged, Draining, TokensOk, Budgets, Inv, Shared, Sliced, Overfilled;
    hide SameOrders;
    var a0, b0 :| Shared(subs, a0, b0);
    var a, b := LastCollision(subs, a0, b0);
    var submits, s := SubmitAll(subs, |subs|);
    assert subs[..|subs|] == subs;
    var now := LatestAt(s.children);
    AlwaysInv(submits, s);
    StagedDrains(s, subs, now);
    Wakes(s, subs, now);
    var t := s.(scheduler := Scanning(now));
    var drains, r := DrainAll(t, now);
    RunsAppend(INIT, submits, s, [Wake(now)], t);
    RunsAppend(INIT, submits + [Wake(now)], t, drains, r);
    AlwaysInv(submits + [Wake(now)] + drains, r);
    SameOrdersFrom(s, t, r);
    LastIsOverfilled(s, subs, r, now, a, b);
    assert subs + [] + [] == subs;
  }

  lemma AlwaysInv(acts: seq<Act>, s: State)
    requires Runs(INIT, acts, s)
    ensures TokensOk(s) && Budgets(s)
  {
    InitInv();
    RunKeepsInv(INIT, acts, s);
  }

  lemma Wakes(s: State, subs: seq<seq<Slice>>, now: int)
    requires Staged(s, subs)
    ensures Runs(s, [Wake(now)], s.(scheduler := Scanning(now))) && Submitted([Wake(now)]) == []
  {
    var t := s.(scheduler := Scanning(now));
    assert Enabled(s, Wake(now)) && Step(s, Wake(now)) == t && Runs(t, [], t) && Submitted([]) == [];
    RunsCons(s, Wake(now), [], t);
    assert [Wake(now)] + [] == [Wake(now)];
  }

  lemma SameOrdersFrom(s: State, t: State, r: State)
    requires t == s.(scheduler := t.scheduler) && SameOrders(t, r)
    ensures SameOrders(s, r)
  {
  }

  /** Some interleaving fills a parent beyond its quantity exactly when two parents have children with the
      same id. */
  lemma OverfillExactWhen(subs: seq<seq<Slice>>)
    requires Sliced(subs)
    ensures CanOverfill(subs) <==> Collides(subs)
  {
    if Collides(subs) {
      CollisionOverfills(subs);
    } else {
      NoCollisionNoOverfill(subs);
    }
  }

  function SlicesOf(cs: seq<Twap.Child>): (r: seq<Slice>)
    ensures |r| == |cs| && forall i | 0 <= i < |cs| :: r[i] == Slice(cs[i].id, cs[i].qty, cs[i].scheduledAt)
  {
    seq(|cs|, i requires 0 <= i < |cs| => Slice(cs[i].id, cs[i].qty, cs[i].scheduledAt))
  }

  /** Some draws slice the parent into these children. */
  ghost predicate CanBeSliced(p: Twap.Parent, cs: seq<Twap.Child>) {
    exists unit, draw, flip :: Twap.IsSliced(p, unit, draw, flip, cs)
  }

  /** What slicing gives can be submitted: it adds up to the parent's quantity, and no slice is empty. */
  lemma SlicesFit(p: Twap.Parent, cs: seq<Twap.Child>)
    requires CanBeSliced(p, cs)
    ensures cs != [] && Sum(SlicesOf(cs), QtyOf) == p.totalQty
    ensures forall i | 0 <= i < |cs| :: SlicesOf(cs)[i].qty >= 1 && cs[i].id == Twap.ChildId(p.id, i)
    ensures |cs| <= 10000
  {
    var unit, draw, flip :| Twap.IsSliced(p, unit, draw, flip, cs);
    Twap.PlanIs(p);
    SlicedIs(p, unit, draw, flip, cs);
    SumSame(SlicesOf(cs), cs, QtyOf, Twap.QtyOf);
  }

  lemma SlicedIs(p: Twap.Parent, unit: nat -> real, draw: nat -> nat, flip: nat -> bool, cs: seq<Twap.Child>)
    requires Twap.IsSliced(p, unit, draw, flip, cs)
    ensures forall i | 0 <= i < |cs| :: cs[i].qty >= 1 && cs[i].id == Twap.ChildId(p.id, i)
  {
    hide Twap.PlanOf, Twap.Drawn, Twap.TimeOk, Twap.Validate, Twap.Pct, Twap.ChildId, Twap.Gap;
    forall i | 0 <= i < |cs| ensures cs[i].qty >= 1 && cs[i].id == Twap.ChildId(p.id, i) {
      assert Twap.CutAt(p, Twap.PlanOf(p), unit(i), draw(i), flip(i), cs, i);
    }
  }

  function AllSlices(css: seq<seq<Twap.Child>>): (r: seq<seq<Slice>>)
    ensures |r| == |css| && forall i | 0 <= i < |css| :: r[i] == SlicesOf(css[i])
  {
    seq(|css|, i requires 0 <= i < |css| => SlicesOf(css[i]))
  }

  /** The engine as a whole, with the slicer and the orders' own fill bound: some interleaving fills a parent
      beyond its quantity exactly when two of the parents had, when they were sliced, ids that agree in their
      low 32 bits. */
  lemma SlicedOverfillExactWhen(ps: seq<Twap.Parent>, css: seq<seq<Twap.Child>>)
    requires |ps| == |css| && forall i | 0 <= i < |ps| :: CanBeSliced(ps[i], css[i])
    ensures CanOverfill(AllSlices(css)) <==>
              exists a, b :: 0 <= a < b < |ps| && ps[a].id % Twap.LOW32 == ps[b].id % Twap.LOW32
  {
    hide CanBeSliced, SlicesOf, CanOverfill;
    var subs: seq<seq<Slice>> := AllSlices(css);
    forall i | 0 <= i < |ps| {
      SlicesFit(ps[i], css[i]);
    }
    assert Sliced(subs);
    OverfillExactWhen(subs);
    forall a: nat, b: nat | a < b < |ps|
      ensures Shared(subs, a, b) <==> ps[a].id % Twap.LOW32 == ps[b].id % Twap.LOW32
    {
      SharedWhenSliced(ps, css, a, b);
    }
  }

  lemma SharedWhenSliced(ps: seq<Twap.Parent>, css: seq<seq<Twap.Child>>, a: nat, b: nat)
    requires |ps| == |css| && a < b < |ps| && CanBeSliced(ps[a], css[a]) && CanBeSliced(ps[b], css[b])
    ensures Shared(AllSlices(css), a, b) <==> ps[a].id % Twap.LOW32 == ps[b].id % Twap.LOW32
  {
    hide CanBeSliced, Twap.ChildId;
    SlicesFit(ps[a], css[a]);
    SlicesFit(ps[b], css[b]);
    var subs: seq<seq<Slice>> := AllSlices(css);
    if ps[a].id % Twap.LOW32 == ps[b].id % Twap.LOW32 {
      Twap.ChildIdsMeet(ps[a].id, 0, ps[b].id, 0);
      assert subs[a][0].id == subs[b][0].id;
    }
    if Shared(subs, a, b) {
      var i, j :| 0 <= i < |subs[a]| && 0 <= j < |subs[b]| && subs[a][i].id == subs[b][j].id;
      Twap.ChildIdsMeet(ps[a].id, i, ps[b].id, j);
    }
  }

  /** Parents are cut before they are given an id, so any two of them can end with one overfilled. */
  lemma CutBeforeIdOverfills(p: Twap.Parent, cs: seq<Twap.Child>, q: Twap.Parent, ds: seq<Twap.Child>)
    requires p.id == q.id && CanBeSliced(p, cs) && CanBeSliced(q, ds)
    ensures CanOverfill([SlicesOf(cs), SlicesOf(ds)])
  {
    hide CanBeSliced, CanOverfill;
    var ps := [p, q];
    SlicedOverfillExactWhen(ps, [cs, ds]);
    assert ps[0].id % Twap.LOW32 == ps[1].id % Twap.LOW32;
    assert AllSlices([cs, ds]) == [SlicesOf(cs), SlicesOf(ds)];
  }
}
