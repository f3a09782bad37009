/** What runs of the archive's pool come to: when Close of agent/internal/retain/retain.go drains it,
    and when a decision's map of locators is read while it is written (agent/internal/retain/batch.go).
 */
module ParkingRuns {
  import opened Bytes
  import opened Parking

  // ---------------------------------------------------------------------------
  // Further invariants
  // ---------------------------------------------------------------------------

  // Once the first basket is closed the workers are done, and a closed basket stays empty.
  ghost predicate Staged(s: State) {
    && |s.baskets| == KINDS && s.workers <= |s.threads|
    && (forall k | 0 <= k < KINDS && s.baskets[k].closed :: s.baskets[k].items == [])
    && (s.stage.Flushing? ==> WorkersDone(s) && s.stage.kind < KINDS && s.workers <= s.stage.on < |s.threads|)
    && (s.stage.Flushing? ==> forall k | 0 <= k <= s.stage.kind :: s.baskets[k].closed)
    && (s.stage.Returned? ==> WorkersDone(s) && forall k | 0 <= k < KINDS :: s.baskets[k].closed)
  }

  lemma {:induction false} StagedNext(s: State, step: Step)
    requires Staged(s) && Enabled(s, step)
    ensures Staged(Apply(s, step))
  {
    hide Looks, Relevant, Number;
  }

  // Only workers look up kinds.
  ghost predicate WorkersLook(s: State) {
    s.workers <= |s.threads| && forall j | s.workers <= j < |s.threads| :: s.threads[j].rest == []
  }

  lemma {:induction false} WorkersLookNext(s: State, step: Step)
    requires WorkersLook(s) && Enabled(s, step)
    ensures WorkersLook(Apply(s, step))
  {
    hide Looks, Relevant, Number;
  }

  // A basket holds items of its own kind.
  ghost predicate Sorted(s: State) { forall k | 0 <= k < |s.baskets| :: OfKind(s.baskets[k], k) }

  ghost predicate OfKind(b: Basket, kind: nat) { forall x | x in b.items :: x.kind == kind }

  lemma {:induction false} SortedNext(s: State, step: Step)
    requires Sorted(s) && Enabled(s, step)
    ensures Sorted(Apply(s, step))
  {
    hide Looks, Relevant, Number;
  }

  // What is left to look up are the last kinds of one decision.
  ghost predicate AllEnqueueing(s: State) {
    forall j | 0 <= j < |s.threads| :: Enqueueing(s.decisions, s.threads[j])
  }

  ghost predicate Enqueueing(decisions: seq<Decision>, t: Thread) {
    t.rest != [] ==>
      var d := t.rest[0].item.d;
      && d < |decisions|
      && var all := Looks(d, decisions[d]); |t.rest| <= |all| && t.rest == all[|all| - |t.rest|..]
  }

  lemma {:induction false} LooksAre(d: nat, decision: Decision)
    ensures forall a | 0 <= a < |Looks(d, decision)| :: LookOf(Looks(d, decision)[a], d, decision)
    ensures forall a, b | 0 <= a < b < |Looks(d, decision)| ::
              Looks(d, decision)[a].item.kind < Looks(d, decision)[b].item.kind
    ensures forall k | k in decision.wanted && k < KINDS ::
              Look(Item(d, k), k in Relevant(decision)) in Looks(d, decision)
  {
    hide Relevant;
  }

  ghost predicate LookOf(look: Look, d: nat, decision: Decision) {
    && look.item.d == d && look.item.kind in decision.wanted && look.item.kind < KINDS
    && (look.located <==> look.item.kind in Relevant(decision))
  }

  lemma {:induction false} EnqueueingOne(decisions: seq<Decision>, t: Thread, u: Thread)
    requires t.rest != [] && Enqueueing(decisions, t) && u.rest == t.rest[1..]
    ensures Enqueueing(decisions, u)
  {
    var d := t.rest[0].item.d;
    LooksAre(d, decisions[d]);
    hide Looks;
    var all := Looks(d, decisions[d]);
    assert u.rest == all[|all| - |u.rest|..];
    if u.rest != [] {
      assert u.rest[0] == all[|all| - |u.rest|];
      assert LookOf(all[|all| - |u.rest|], d, decisions[d]);
    }
  }

  lemma {:induction false} EnqueueingSame(decisions: seq<Decision>, more: seq<Decision>, t: Thread, u: Thread)
    requires Enqueueing(decisions, t) && decisions <= more && u.rest == t.rest
    ensures Enqueueing(more, u)
  {
    hide Looks;
  }

  lemma {:induction false} NothingLeft(decisions: seq<Decision>, t: Thread)
    requires t.rest == []
    ensures Enqueueing(decisions, t)
  {}

  lemma {:induction false} Beginning(d: nat, decisions: seq<Decision>)
    requires d < |decisions|
    ensures Enqueueing(decisions, Thread(Looks(d, decisions[d]), [], None))
  {
    LooksAre(d, decisions[d]);
    hide Looks, Relevant;
    var all := Looks(d, decisions[d]);
    assert all[0..] == all;
    assert all != [] ==> LookOf(all[0], d, decisions[d]);
  }

  // A step leaves what a thread is to look up, takes one from it, or begins with a decision.
  lemma {:induction false} EnqueueingThread(s: State, step: Step, j: nat)
    requires Enabled(s, step) && j < |Apply(s, step).threads|
    requires j < |s.threads| ==> Enqueueing(s.decisions, s.threads[j])
    ensures Enqueueing(Apply(s, step).decisions, Apply(s, step).threads[j])
  {
    hide Enqueueing, Looks, Relevant, Number;
    var t := Apply(s, step);
    if j >= |s.threads| || t.threads[j].rest == [] {
      NothingLeft(t.decisions, t.threads[j]);
    } else if step == Take(j) {
      Beginning(s.jobs[0], s.decisions);
    } else if step.Push? && step.i == j {
      EnqueueingOne(s.decisions, s.threads[j], t.threads[j]);
    } else {
      EnqueueingSame(s.decisions, t.decisions, s.threads[j], t.threads[j]);
    }
  }

  lemma {:induction false} EnqueueingNext(s: State, step: Step)
    requires AllEnqueueing(s) && Enabled(s, step)
    ensures AllEnqueueing(Apply(s, step))
  {
    hide Enqueueing, Apply;
    forall j | 0 <= j < |Apply(s, step).threads|
      ensures Enqueueing(Apply(s, step).decisions, Apply(s, step).threads[j])
    {
      EnqueueingThread(s, step, j);
    }
  }

  ghost predicate Orderly(s: State) { WorkersLook(s) && Sorted(s) && AllEnqueueing(s) }

  lemma {:induction false} RunsStaged(run: seq<State>, steps: seq<Step>, i: nat)
    requires IsRun(run, steps) && i < |run|
    ensures Staged(run[i]) && Orderly(run[i])
  {
    if i > 0 {
      RunsStaged(run, steps, i - 1);
      hide Staged, WorkersLook, Sorted, AllEnqueueing, Init, Apply, Enabled;
      StagedNext(run[i - 1], steps[i - 1]);
      WorkersLookNext(run[i - 1], steps[i - 1]);
      SortedNext(run[i - 1], steps[i - 1]);
      EnqueueingNext(run[i - 1], steps[i - 1]);
    } else {
      hide Looks;
    }
  }

  // ---------------------------------------------------------------------------
  // Closing the pool
  // ---------------------------------------------------------------------------

  ghost predicate Carries(t: Thread, x: Item) { Look(x, true) in t.rest || x in t.flush }

  // A thread has an item or the record of a decision in its hands.
  ghost predicate InHand(t: Thread, d: nat) {
    (exists kind: nat :: Carries(t, Item(d, kind))) || (t.emit.Some? && t.emit.value.d == d)
  }

  lemma {:induction false} InHandCounts(s: State, j: nat, d: nat)
    requires Inv(s) && j < |s.threads| && InHand(s.threads[j], d)
    ensures Published(s, d) == 0
  {
    var t := s.threads[j];
    assert InOnePlace(s, d);
    if t.emit.Some? && t.emit.value.d == d {
      TotalZero(Emits(d), s.threads);
      assert Emits(d)(t) == 1;
    } else {
      var kind: nat :| Carries(t, Item(d, kind));
      CarriedWaits(s, j, Item(d, kind));
    }
  }

  lemma {:induction false} LiveInHand(s: State, j: nat, x: Item)
    requires j < |s.threads| && Carries(s.threads[j], x)
    ensures Live(s, x) > 0
  {
    TotalZero(Carried(x), s.threads);
    assert Carried(x)(s.threads[j]) > 0;
  }

  lemma {:induction false} CarriedWaits(s: State, j: nat, x: Item)
    requires AllItems(s) && j < |s.threads| && Carries(s.threads[j], x)
    ensures Live(s, x) == 1 && Unsettled(s, x) && Waits(s, x.d)
  {
    LiveInHand(s, j, x);
    hide Live;
    assert ItemExact(s, x);
  }

  lemma {:induction false} KeptWaits(s: State, k: nat, x: Item)
    requires AllItems(s) && k < |s.baskets| && x in s.baskets[k].items
    ensures Unsettled(s, x)
  {
    TotalZero(Kept(x), s.baskets);
    assert Kept(x)(s.baskets[k]) > 0;
    assert ItemExact(s, x);
  }

  lemma {:induction false} NowhereLive(s: State, x: Item)
    requires forall k | 0 <= k < |s.baskets| :: s.baskets[k].items == []
    requires forall j | 0 <= j < |s.threads| :: !InHand(s.threads[j], x.d)
    ensures Live(s, x) == 0
  {
    TotalZero(Kept(x), s.baskets);
    TotalZero(Carried(x), s.threads);
    forall j | 0 <= j < |s.threads| ensures Carried(x)(s.threads[j]) == 0 {
      assert !InHand(s.threads[j], x.d);
      assert x == Item(x.d, x.kind);
      assert !Carries(s.threads[j], x);
    }
  }

  lemma {:induction false} NowhereEmitting(s: State, d: nat)
    requires forall j | 0 <= j < |s.threads| :: !InHand(s.threads[j], d)
    ensures Emitting(s, d) == 0
  {
    TotalZero(Emits(d), s.threads);
    forall j | 0 <= j < |s.threads| ensures Emits(d)(s.threads[j]) == 0 {
      assert !InHand(s.threads[j], d);
    }
  }

  // When Close returns, and ever after, a decision handed to the pool has been published exactly
  // once, if and only if no timer and no caller of Handle still has it in hand. Close waits for
  // neither: it waits for the workers and for its own flushes.
  lemma {:induction false} CloseDrains(run: seq<State>, steps: seq<Step>, i: nat, d: nat)
    requires IsRun(run, steps) && i < |run| && run[i].stage.Returned? && d < |run[i].decisions|
    ensures Published(run[i], d) == 1
            <==> forall j | run[i].workers <= j < |run[i].threads| :: !InHand(run[i].threads[j], d)
  {
    var s := run[i];
    RunsKeep(run, steps, i);
    RunsStaged(run, steps, i);
    hide Inv, Orderly, Published, Emitting, Live, IsRun;
    if j :| s.workers <= j < |s.threads| && InHand(s.threads[j], d) {
      InHandCounts(s, j, d);
    } else {
      forall j | 0 <= j < |s.threads| ensures !InHand(s.threads[j], d) {}
      NowhereEmitting(s, d);
      forall kind: nat ensures Live(s, Item(d, kind)) == 0 {
        NowhereLive(s, Item(d, kind));
      }
      PublishedExactlyOnce(run, steps, i, d);
    }
  }

  // Outside the workers and the current flush of Close nobody has the decision in hand.
  ghost predicate Away(s: State, d: nat) {
    forall j | s.workers <= j < |s.threads| && !(s.stage.Flushing? && s.stage.on == j) :: !InHand(s.threads[j], d)
  }

  // Timers only on kinds with a time limit, and decision d not published by the caller of Handle.
  ghost predicate Allows(limits: set<nat>, d: nat, s: State, step: Step) {
    (step.Timer? ==> step.kind in limits) && (step.Handle? && |s.decisions| == d ==> step.queued)
  }

  ghost predicate Untimed(s: State, d: nat, limits: set<nat>) {
    d < |s.decisions| ==> Relevant(s.decisions[d]) !! limits
  }

  lemma {:induction false} AwayNext(s: State, step: Step, d: nat, limits: set<nat>)
    requires Away(s, d) && Staged(s) && WorkersLook(s) && Sorted(s) && AllItems(s)
    requires Enabled(s, step) && Allows(limits, d, s, step) && Untimed(s, d, limits)
    ensures Away(Apply(s, step), d)
  {
    var t := Apply(s, step);
    forall j | t.workers <= j < |t.threads| && !(t.stage.Flushing? && t.stage.on == j)
      ensures !InHand(t.threads[j], d)
    {
      if step.Timer? && j == |s.threads| {
        AwayTimer(s, step.kind, d, limits);
      } else if step.Complete? && j == step.i {
        hide Staged, Sorted, AllItems, InHand;
        AwayComplete(s, j, step.outcome, d);
      } else {
        hide Looks, Relevant, Number, WorkersDone, Sorted, AllItems;
      }
    }
  }

  lemma {:induction false} AwayTimer(s: State, kind: nat, d: nat, limits: set<nat>)
    requires Sorted(s) && AllItems(s) && kind < |s.baskets| && kind in limits && Untimed(s, d, limits)
    ensures !InHand(Thread([], s.baskets[kind].items, None), d)
  {
    forall k: nat ensures !Carries(Thread([], s.baskets[kind].items, None), Item(d, k)) {
      assert OfKind(s.baskets[kind], kind);
      if Item(d, k) in s.baskets[kind].items {
        KeptWaits(s, kind, Item(d, k));
      }
    }
  }

  lemma {:induction false} AwayComplete(s: State, i: nat, outcome: Outcome, d: nat)
    requires Enabled(s, Complete(i, outcome)) && !InHand(s.threads[i], d)
    ensures !InHand(Apply(s, Complete(i, outcome)).threads[i], d)
  {
    var t, u := s.threads[i], Apply(s, Complete(i, outcome)).threads[i];
    var x := t.flush[0];
    assert x == Item(x.d, x.kind) && (x.d == d ==> Carries(t, Item(d, x.kind)));
    forall k: nat ensures !Carries(u, Item(d, k)) {
      assert !Carries(t, Item(d, k));
    }
  }

  lemma {:induction false} DecisionStays(run: seq<State>, steps: seq<Step>, i: nat, j: nat)
    requires IsRun(run, steps) && i <= j < |run|
    ensures run[i].decisions <= run[j].decisions
    decreases j
  {
    if i < j {
      DecisionStays(run, steps, i, j - 1);
      DecisionsGrow(run[j - 1], steps[j - 1]);
    }
  }

  lemma {:induction false} DecisionsGrow(s: State, step: Step)
    requires Enabled(s, step)
    ensures s.decisions <= Apply(s, step).decisions
  {
    hide Looks, Relevant, Number;
  }

  // A run in which timers fire only on the kinds in limits, Close has returned, and decision d was
  // handed over for the queue.
  ghost predicate ClosedRun(run: seq<State>, steps: seq<Step>, limits: set<nat>, d: nat, decision: Decision) {
    && IsRun(run, steps) && run[|steps|].stage.Returned?
    && (forall i | 0 <= i < |steps| :: Allows(limits, d, run[i], steps[i]))
    && d < |run[|steps|].decisions| && run[|steps|].decisions[d] == decision
  }

  lemma {:induction false} RunsAway(run: seq<State>, steps: seq<Step>, limits: set<nat>, d: nat, decision: Decision,
                                    i: nat)
    requires ClosedRun(run, steps, limits, d, decision) && Relevant(decision) !! limits && i < |run|
    ensures Away(run[i], d)
  {
    if i > 0 {
      RunsAway(run, steps, limits, d, decision, i - 1);
      RunsStaged(run, steps, i - 1);
      RunsKeep(run, steps, i - 1);
      DecisionStays(run, steps, i - 1, |steps|);
      hide Staged, AllItems, AllPlaces, AllParked, RecordsFaithful, Away, Init, Relevant, WorkersLook, Sorted;
      hide AllEnqueueing;
      AwayNext(run[i - 1], steps[i - 1], d, limits);
    }
  }

  // If no archived and located kind of the decision has a time limit, Close publishes it.
  lemma {:induction false} UntimedIsDrained(run: seq<State>, steps: seq<Step>, limits: set<nat>, d: nat,
                                            decision: Decision)
    requires ClosedRun(run, steps, limits, d, decision) && Relevant(decision) !! limits
    ensures Published(run[|steps|], d) == 1
  {
    RunsAway(run, steps, limits, d, decision, |steps|);
    CloseDrains(run, steps, |steps|, d);
  }

  // ---------------------------------------------------------------------------
  // Runs with one worker and one decision
  // ---------------------------------------------------------------------------

  // Timers only on the kinds in limits, and every decision queued.
  ghost predicate Modest(step: Step, limits: set<nat>) {
    (step.Timer? ==> step.kind in limits) && (step.Handle? ==> step.queued)
  }

  ghost predicate RunTo(run: seq<State>, steps: seq<Step>, limits: set<nat>, s: State) {
    IsRun(run, steps) && run[|steps|] == s && forall i | 0 <= i < |steps| :: Modest(steps[i], limits)
  }

  ghost predicate Reached(s: State, limits: set<nat>) { exists run, steps :: RunTo(run, steps, limits, s) }

  lemma {:induction false} OneMoreStep(s: State, limits: set<nat>, step: Step)
    requires Reached(s, limits) && Enabled(s, step) && Modest(step, limits)
    ensures Reached(Apply(s, step), limits)
  {
    var run, steps :| RunTo(run, steps, limits, s);
    hide Enabled, Apply, Init, Modest;
    var run', steps' := run + [Apply(s, step)], steps + [step];
    forall i | 0 <= i < |steps'| ensures Enabled(run'[i], steps'[i]) && run'[i + 1] == Apply(run'[i], steps'[i]) {
      if i < |steps| {
        assert run'[i] == run[i] && run'[i + 1] == run[i + 1];
      }
    }
    assert RunTo(run', steps', limits, Apply(s, step));
  }

  lemma {:induction false} ReachedKeeps(s: State, limits: set<nat>)
    requires Reached(s, limits)
    ensures Inv(s)
  {
    var run, steps :| RunTo(run, steps, limits, s);
    RunsKeep(run, steps, |steps|);
  }

  // A worker about to look up the kinds of the only decision.
  function Begun(decision: Decision): State {
    var open := Basket([], false);
    State(1, Open, [decision], [], [Thread(Looks(0, decision), [], None)], [open, open, open],
          map[0 := Parked(Number(Relevant(decision)), map[])], [])
  }

  lemma {:induction false} BegunReached(decision: Decision, limits: set<nat>)
    requires Relevant(decision) != {}
    ensures Reached(Begun(decision), limits)
  {
    CountRelevant(decision);
    hide Relevant, Looks, Number;
    var open := Basket([], false);
    var s0 := State(1, Open, [], [], [Thread([], [], None)], [open, open, open], map[], []);
    var s1 := s0.(decisions := [decision], jobs := [0]);
    assert RunTo([s0], [], limits, s0);
    OneMoreStep(s0, limits, Handle(decision, true));
    assert Apply(s0, Handle(decision, true)) == s1;
    OneMoreStep(s1, limits, Take(0));
    assert s1.jobs[1..] == [];
    assert Apply(s1, Take(0)) == Begun(decision);
  }

  ghost predicate AllOpen(baskets: seq<Basket>) {
    |baskets| == KINDS && forall k | 0 <= k < KINDS :: !baskets[k].closed
  }

  // The first n archived kinds were looked up, and the located ones are in their baskets.
  ghost predicate PushedTo(s: State, t: State, n: nat)
    requires s.threads != [] && n <= |s.threads[0].rest|
  {
    var rest := s.threads[0].rest;
    && t == s.(threads := [Thread(rest[n..], [], None)], baskets := t.baskets) && AllOpen(t.baskets)
    && (forall m | 0 <= m < n && rest[m].located && rest[m].item.kind < KINDS ::
          rest[m].item in t.baskets[rest[m].item.kind].items)
  }

  lemma {:induction false} PushedOne(s: State, t: State, n: nat)
    requires |s.threads| == 1 && n < |s.threads[0].rest| && PushedTo(s, t, n)
    requires s.threads[0].rest[n].item.kind < KINDS
    ensures Enabled(t, Push(0, false)) && PushedTo(s, Apply(t, Push(0, false)), n + 1)
  {
    var rest, u := s.threads[0].rest, Apply(t, Push(0, false));
    assert t.threads[0].rest[0] == rest[n] && rest[n..][1..] == rest[n + 1..];
    assert t.threads[0 := Thread(rest[n + 1..], [], None)] == [Thread(rest[n + 1..], [], None)];
  }

  lemma {:induction false} PushSome(s: State, n: nat, limits: set<nat>) returns (t: State)
    requires Reached(s, limits) && |s.threads| == 1 && n <= |s.threads[0].rest| && AllOpen(s.baskets)
    requires s.threads[0] == Thread(s.threads[0].rest, [], None)
    requires forall m | 0 <= m < |s.threads[0].rest| :: s.threads[0].rest[m].item.kind < KINDS
    ensures Reached(t, limits) && PushedTo(s, t, n)
  {
    hide Reached;
    if n == 0 {
      assert s.threads[0].rest[0..] == s.threads[0].rest;
      assert s.threads == [s.threads[0]];
      t := s;
    } else {
      t := PushSome(s, n - 1, limits);
      PushedOne(s, t, n - 1);
      OneMoreStep(t, limits, Push(0, false));
      t := Apply(t, Push(0, false));
    }
  }

  // The located kind at a place is pushed, and then taken out by the timer.
  lemma {:induction false} TimerTakes(decision: Decision, m: nat, n: nat, limits: set<nat>) returns (t: State)
    requires m < n <= |Looks(0, decision)| && Looks(0, decision)[m].located && Looks(0, decision)[m].item.kind in limits
    ensures Reached(t, limits) && t.workers == 1 && t.stage.Open? && t.decisions == [decision] && t.jobs == []
    ensures |t.threads| == 2 && t.threads[0] == Thread(Looks(0, decision)[n..], [], None)
    ensures t.threads[1] == Thread([], t.threads[1].flush, None) && Looks(0, decision)[m].item in t.threads[1].flush
    ensures AllOpen(t.baskets)
  {
    LooksAre(0, decision);
    var all := Looks(0, decision);
    assert LookOf(all[m], 0, decision);
    BegunReached(decision, limits);
    hide Reached, Looks, Relevant, Number;
    var s := Begun(decision);
    assert forall a | 0 <= a < |all| :: LookOf(all[a], 0, decision);
    var u := PushSome(s, n, limits);
    var kind := all[m].item.kind;
    assert all[m].item in u.baskets[kind].items && |u.baskets| == KINDS;
    assert u.threads == [Thread(all[n..], [], None)] && u.decisions == [decision] && u.jobs == [];
    assert u.workers == 1 && u.stage.Open?;
    hide PushedTo, Begun, LookOf;
    OneMoreStep(u, limits, Timer(kind));
    t := Apply(u, Timer(kind));
  }

  // ---------------------------------------------------------------------------
  // When Close drains the pool
  // ---------------------------------------------------------------------------

  // Only thread j and what it settles and publishes may differ.
  ghost predicate ByThread(s: State, t: State, j: nat) {
    && t == s.(threads := t.threads, parked := t.parked, published := t.published)
    && |t.threads| == |s.threads| && forall i | 0 <= i < |s.threads| && i != j :: t.threads[i] == s.threads[i]
  }

  lemma {:induction false} FlushOne(s: State, j: nat, limits: set<nat>) returns (t: State)
    requires Reached(s, limits) && j < |s.threads| && s.threads[j].flush != [] && s.threads[j].emit.None?
    ensures Reached(t, limits) && ByThread(s, t, j)
    ensures t.threads[j] == Thread(s.threads[j].rest, s.threads[j].flush[1..], t.threads[j].emit)
  {
    CanComplete(s, j, limits);
    hide Reached;
    OneMoreStep(s, limits, Complete(j, Lost(0)));
    t := Apply(s, Complete(j, Lost(0)));
  }

  lemma {:induction false} CanComplete(s: State, j: nat, limits: set<nat>)
    requires Reached(s, limits) && j < |s.threads| && s.threads[j].flush != [] && s.threads[j].emit.None?
    ensures Enabled(s, Complete(j, Lost(0)))
  {
    hide Reached;
    FlushKnown(s, j, limits);
  }

  lemma {:induction false} FlushKnown(s: State, j: nat, limits: set<nat>)
    requires Reached(s, limits) && j < |s.threads| && s.threads[j].flush != []
    ensures s.threads[j].flush[0].d < |s.decisions| && s.threads[j].flush[0].d in s.parked
  {
    hide Live, Waits, Relevant, AllItems, AllPlaces, AllParked, RecordsFaithful, Reached;
    ReachedKeeps(s, limits);
    assert Carries(s.threads[j], s.threads[j].flush[0]);
    CarriedWaits(s, j, s.threads[j].flush[0]);
  }

  // A thread can finish its flush by itself.
  lemma {:induction false} FlushAll(s: State, j: nat, limits: set<nat>) returns (t: State)
    requires Reached(s, limits) && j < |s.threads| && s.threads[j].rest == []
    ensures Reached(t, limits) && ByThread(s, t, j) && Idle(t.threads[j])
    decreases |s.threads[j].flush|, s.threads[j].emit.Some?
  {
    hide Reached;
    if s.threads[j].emit.Some? {
      OneMoreStep(s, limits, Emit(j));
      t := FlushAll(Apply(s, Emit(j)), j, limits);
    } else if s.threads[j].flush != [] {
      var u := FlushOne(s, j, limits);
      t := FlushAll(u, j, limits);
    } else {
      t := s;
    }
  }

  // Close has come so far that its next basket may be closed, and there is a timer's thread.
  ghost predicate Closing(s: State, limits: set<nat>) {
    && Reached(s, limits) && |s.baskets| == KINDS && |s.threads| >= 2
    && ((s.stage.Waiting? && WorkersDone(s)) || (FlushDone(s) && s.stage.on >= 2 && s.stage.kind < KINDS))
  }

  lemma {:induction false} CloseNext(s: State, limits: set<nat>) returns (t: State)
    requires Closing(s, limits) && NextKind(s) < KINDS
    ensures Closing(t, limits) && t.threads[1] == s.threads[1] && t.decisions == s.decisions
    ensures t.stage.Flushing? && t.stage.kind == NextKind(s)
  {
    var u := Apply(s, CloseBasket);
    OneMoreStep(s, limits, CloseBasket);
    hide Reached;
    t := FlushAll(u, |s.threads|, limits);
  }

  // Close can return without the timer.
  lemma {:induction false} CloseAll(s: State, limits: set<nat>) returns (t: State)
    requires Closing(s, limits)
    ensures Reached(t, limits) && t.stage.Returned? && t.decisions == s.decisions
    ensures 1 < |t.threads| && t.threads[1] == s.threads[1]
    decreases KINDS - NextKind(s)
  {
    if NextKind(s) < KINDS {
      var u := CloseNext(s, limits);
      t := CloseAll(u, limits);
    } else {
      OneMoreStep(s, limits, Return);
      t := Apply(s, Return);
    }
  }

  // If it has, there is a run in which Close returns before the decision is published.
  lemma {:induction false} CloseOvertakesTimer(decision: Decision, kind: nat, limits: set<nat>)
    returns (run: seq<State>, steps: seq<Step>)
    requires kind in Relevant(decision) && kind in limits
    ensures ClosedRun(run, steps, limits, 0, decision) && Published(run[|steps|], 0) == 0
  {
    LooksAre(0, decision);
    var all := Looks(0, decision);
    assert kind < KINDS && kind in decision.wanted;
    var m :| 0 <= m < |all| && all[m] == Look(Item(0, kind), true);
    var s := TimerTakes(decision, m, |all|, limits);
    hide Looks, Relevant;
    OneMoreStep(s, limits, CloseJobs);
    hide Reached;
    var t := CloseAll(Apply(s, CloseJobs), limits);
    run, steps := TimedRun(t, limits);
    ReachedKeeps(t, limits);
    assert Carries(t.threads[1], Item(0, kind));
    hide Inv;
    InHandCounts(t, 1, 0);
    hide Published;
  }

  lemma {:induction false} TimedRun(t: State, limits: set<nat>) returns (run: seq<State>, steps: seq<Step>)
    requires Reached(t, limits) && t.stage.Returned? && |t.decisions| == 1
    ensures ClosedRun(run, steps, limits, 0, t.decisions[0]) && run[|steps|] == t
  {
    run, steps :| RunTo(run, steps, limits, t);
    assert forall i | 0 <= i < |steps| :: Modest(steps[i], limits);
  }

  // In a pool whose baskets have time limits on some kinds, every run that closes it publishes the
  // queued decision exactly once, if and only if none of its archived and located kinds has one.
  lemma {:induction false} CloseDrainsUntimed(decision: Decision, limits: set<nat>)
    ensures (forall run, steps, d | ClosedRun(run, steps, limits, d, decision) :: Published(run[|steps|], d) == 1)
       <==> Relevant(decision) !! limits
  {
    if Relevant(decision) !! limits {
      forall run, steps, d | ClosedRun(run, steps, limits, d, decision) ensures Published(run[|steps|], d) == 1 {
        UntimedIsDrained(run, steps, limits, d, decision);
      }
    } else {
      var kind :| kind in Relevant(decision) && kind in limits;
      var run, steps := CloseOvertakesTimer(decision, kind, limits);
      hide Published;
    }
  }

  // ---------------------------------------------------------------------------
  // When the map of locators is read while it is written
  // ---------------------------------------------------------------------------

  // Thread j is to read the map of decision d: enqueue looks up a kind, move locates its kind, or
  // complete, its lock released, renders the map.
  ghost predicate ReadDue(s: State, j: nat, d: nat) {
    j < |s.threads| &&
    var t := s.threads[j];
    if t.emit.Some? then t.emit.value.d == d && d in s.parked
    else if t.flush != [] then t.flush[0].d == d
    else t.rest != [] && t.rest[0].item.d == d
  }

  // Thread j is to write it: complete rewrites the locator of its kind.
  ghost predicate WriteDue(s: State, j: nat, d: nat) {
    j < |s.threads| && s.threads[j].emit.None? && s.threads[j].flush != [] && s.threads[j].flush[0].d == d
  }

  ghost predicate Meet(s: State, i: nat, j: nat, d: nat) { i != j && ReadDue(s, i, d) && WriteDue(s, j, d) }

  // An archived kind follows one that is archived and located.
  ghost predicate Follows(decision: Decision) {
    exists a, b | a in Relevant(decision) && b in decision.wanted :: a < b < KINDS
  }

  lemma {:induction false} TotalTwo<T>(f: T -> nat, s: seq<T>, i: nat, j: nat)
    requires i < |s| && j < |s| && i != j
    ensures Total(f, s) >= f(s[i]) + f(s[j])
  {
    var n := |s| - 1;
    if i < n && j < n {
      TotalTwo(f, s[..n], i, j);
    } else {
      TotalOne(f, s[..n], if i == n then j else i);
    }
  }

  lemma {:induction false} TotalOne<T>(f: T -> nat, s: seq<T>, i: nat)
    requires i < |s|
    ensures Total(f, s) >= f(s[i])
  {
    if i < |s| - 1 {
      TotalOne(f, s[..|s| - 1], i);
    }
  }

  // No item is in two threads' hands.
  lemma {:induction false} OneHand(s: State, i: nat, j: nat, x: Item)
    requires AllItems(s) && i < |s.threads| && j < |s.threads| && i != j && Carries(s.threads[i], x)
    ensures !Carries(s.threads[j], x)
  {
    CarriedWaits(s, i, x);
    TotalTwo(Carried(x), s.threads, i, j);
    CarriesCounts(s.threads[i], x);
    CarriesCounts(s.threads[j], x);
  }

  lemma {:induction false} CarriesCounts(t: Thread, x: Item)
    ensures Carries(t, x) <==> Carried(x)(t) > 0
  {}

  // A kind still looked up comes behind those already pushed.
  lemma {:induction false} LookedUpLater(s: State, i: nat, x: Item)
    requires i < |s.threads| && s.threads[i].rest != [] && s.threads[i].rest[0].item.d == x.d
    requires Enqueueing(s.decisions, s.threads[i]) && x.d < |s.decisions| && x.kind in Relevant(s.decisions[x.d])
    requires !Carries(s.threads[i], x)
    ensures Follows(s.decisions[x.d])
  {
    var decision, rest := s.decisions[x.d], s.threads[i].rest;
    LooksAre(x.d, decision);
    var all := Looks(x.d, decision);
    hide Looks;
    var n := |all| - |rest|;
    assert x.kind in decision.wanted && x.kind < KINDS;
    var m :| 0 <= m < |all| && all[m] == Look(Item(x.d, x.kind), true);
    forall q | n <= q < |all| ensures all[q] in rest {
      assert rest[q - n] == all[q];
    }
    assert LookOf(all[n], x.d, decision) && rest[0] == all[n];
  }

  lemma {:induction false} MeetFollows(s: State, i: nat, j: nat, d: nat)
    requires Inv(s) && AllEnqueueing(s) && Meet(s, i, j, d)
    ensures d < |s.decisions| && Follows(s.decisions[d])
  {
    var t, x := s.threads[i], s.threads[j].flush[0];
    assert Carries(s.threads[j], x);
    CarriedWaits(s, j, x);
    OneHand(s, j, i, x);
    if t.emit.Some? {
      NotBoth(s, i, d);
    } else if t.flush != [] {
      var y := t.flush[0];
      assert Carries(t, y);
      CarriedWaits(s, i, y);
      assert x != y && x.kind != y.kind;
      BothRelevant(s.decisions[d], x.kind, y.kind);
    } else {
      assert Enqueueing(s.decisions, t);
      LookedUpLater(s, i, x);
    }
  }

  lemma {:induction false} BothRelevant(decision: Decision, a: nat, b: nat)
    requires a in Relevant(decision) && b in Relevant(decision) && a != b
    ensures Follows(decision)
  {
    assert a in decision.wanted && b in decision.wanted && a < KINDS && b < KINDS;
  }

  // A decision about to be published no longer waits.
  lemma {:induction false} NotBoth(s: State, i: nat, d: nat)
    requires AllPlaces(s) && i < |s.threads| && s.threads[i].emit.Some? && s.threads[i].emit.value.d == d
    ensures !Waits(s, d)
  {
    TotalZero(Emits(d), s.threads);
    assert Emits(d)(s.threads[i]) == 1;
    assert InOnePlace(s, d);
  }

  // In some run a read and a write of the map of such a decision are due at once.
  ghost predicate MeetsIn(run: seq<State>, steps: seq<Step>, decision: Decision, i: nat, j: nat, d: nat) {
    && IsRun(run, steps) && Meet(run[|steps|], i, j, d)
    && d < |run[|steps|].decisions| && run[|steps|].decisions[d] == decision
  }

  lemma {:induction false} FollowingMeets(decision: Decision) returns (run: seq<State>, steps: seq<Step>)
    requires Follows(decision)
    ensures MeetsIn(run, steps, decision, 0, 1, 0)
  {
    hide Looks, Relevant, Reached;
    var all := Looks(0, decision);
    var m := FollowedAt(decision);
    var a := all[m].item.kind;
    var s := TimerTakes(decision, m, m + 1, {a});
    assert s.threads[0].rest[0] == all[m + 1];
    TimerWrites(s, {a});
    assert ReadDue(s, 0, 0);
    hide ReadDue, WriteDue, IsRun;
    run, steps := RunOf(s, {a});
  }

  lemma {:induction false} RunOf(s: State, limits: set<nat>) returns (run: seq<State>, steps: seq<Step>)
    requires Reached(s, limits)
    ensures RunTo(run, steps, limits, s)
  {
    run, steps :| RunTo(run, steps, limits, s);
  }

  // A place in the second loop of enqueue with a located kind that is not the last.
  lemma {:induction false} FollowedAt(decision: Decision) returns (m: nat)
    requires Follows(decision)
    ensures var all := Looks(0, decision); m + 1 < |all| && all[m].located && LookOf(all[m + 1], 0, decision)
  {
    var a, b :| a in Relevant(decision) && b in decision.wanted && a < b < KINDS;
    LooksAre(0, decision);
    var all := Looks(0, decision);
    assert a in decision.wanted && a < KINDS;
    hide Looks, Relevant;
    m :| m < |all| && all[m] == Look(Item(0, a), true);
    var n :| 0 <= n < |all| && all[n] == Look(Item(0, b), b in Relevant(decision));
    assert m < n;
  }

  lemma {:induction false} TimerWrites(s: State, limits: set<nat>)
    requires Reached(s, limits) && |s.decisions| == 1 && |s.threads| == 2
    requires s.threads[1].flush != [] && s.threads[1].emit.None?
    ensures WriteDue(s, 1, 0)
  {
    hide Reached;
    FlushKnown(s, 1, limits);
  }

  // The map of a decision is read while it is written in some run, if and only if the decision
  // archives a kind behind one that it archives and that has a locator.
  lemma {:induction false} ReadsAndWritesMeet(decision: Decision)
    ensures (exists run, steps, i, j, d :: MeetsIn(run, steps, decision, i, j, d)) <==> Follows(decision)
  {
    if run, steps, i, j, d :| MeetsIn(run, steps, decision, i, j, d) {
      RunsKeep(run, steps, |steps|);
      RunsStaged(run, steps, |steps|);
      hide Inv, AllEnqueueing, Meet;
      MeetFollows(run[|steps|], i, j, d);
    }
    if Follows(decision) {
      var run, steps := FollowingMeets(decision);
    }
  }

  // But no reading is of a locator that was rewritten: whatever is still to be pushed or moved is
  // unsettled, and only its own move settles it.
  lemma {:induction false} MovesReadTheOriginal(run: seq<State>, steps: seq<Step>, i: nat, j: nat, x: Item)
    requires IsRun(run, steps) && i < |run| && j < |run[i].threads| && Carries(run[i].threads[j], x)
    ensures x.d in run[i].parked && x.kind !in run[i].parked[x.d].settled
  {
    RunsKeep(run, steps, i);
    CarriedWaits(run[i], j, x);
  }

  // ---------------------------------------------------------------------------
  // What is published of a kind
  // ---------------------------------------------------------------------------

  // That step ended the move of an item with that outcome.
  ghost predicate SettledBy(run: seq<State>, steps: seq<Step>, m: nat, x: Item, outcome: Outcome) {
    && m < |steps| && m < |run| && steps[m].Complete? && steps[m].outcome == outcome
    && steps[m].i < |run[m].threads| && run[m].threads[steps[m].i].flush != []
    && run[m].threads[steps[m].i].flush[0] == x
  }

  lemma {:induction false} OutcomeOfMove(run: seq<State>, steps: seq<Step>, i: nat, x: Item) returns (m: nat)
    requires IsRun(run, steps) && i < |run| && x.d in run[i].parked && x.kind in run[i].parked[x.d].settled
    ensures m < i && SettledBy(run, steps, m, x, run[i].parked[x.d].settled[x.kind])
  {
    assert i > 0;
    var s, step := run[i - 1], steps[i - 1];
    if step.Complete? && s.threads[step.i].flush[0] == x {
      m := i - 1;
    } else {
      StillSettled(s, step, x);
      m := OutcomeOfMove(run, steps, i - 1, x);
    }
  }

  lemma {:induction false} StillSettled(s: State, step: Step, x: Item)
    requires Enabled(s, step) && x.d in Apply(s, step).parked && x.kind in Apply(s, step).parked[x.d].settled
    requires !(step.Complete? && s.threads[step.i].flush[0] == x)
    ensures x.d in s.parked && x.kind in s.parked[x.d].settled
    ensures Apply(s, step).parked[x.d].settled[x.kind] == s.parked[x.d].settled[x.kind]
  {
    hide Looks, Relevant, Number;
  }

  // A published kind has the outcome with which its own move ended, at the step that settled it.
  lemma {:induction false} PublishedOutcome(run: seq<State>, steps: seq<Step>, i: nat, k: nat, kind: nat)
    returns (m: nat)
    requires IsRun(run, steps) && i < |run| && k < |run[i].published|
    requires run[i].published[k].d in run[i].parked && kind in run[i].published[k].settled
    ensures m < i
    ensures var r := run[i].published[k]; SettledBy(run, steps, m, Item(r.d, kind), r.settled[kind])
  {
    PublishedWhenSettled(run, steps, i, k);
    m := OutcomeOfMove(run, steps, i, Item(run[i].published[k].d, kind));
  }
}
