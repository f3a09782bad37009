/** Publication of static sets: ds_publish, ds_acquire and ds_release of
    module/src/local/ngx_http_waf_dataset.c.

    Publishers hold the pool mutex for the whole call; readers hold nothing and interleave with
    every single memory access of a publisher. Atomics are sequentially consistent. Sets are
    numbered by allocation, so an address the slab hands out again is a new number.
 */
module Publish {
  import opened Bytes

  const RETIRED := 4

  datatype Reader =
    | Out
    | Counted                // counted itself, has not loaded the set yet
    | Empty                  // loaded NULL, about to uncount itself
    | Using(id: nat)         // between acquire and release

  datatype Publisher =
    | Quiet
    | Swapped(prev: Option<nat>)              // slot->set replaced, old set in hand
    | Stored(prev: Option<nat>)               // old set retired, or still in hand: all retire slots busy
    | Freeing(prev: Option<nat>, at: nat)     // readers seen at zero; retire slots below `at` are done

  datatype State = State(
    current: Option<nat>,
    readers: int,
    retired: seq<Option<nat>>,
    publisher: Publisher,
    threads: map<nat, Reader>,
    freed: seq<nat>,         // calls of the slab's free, in order
    leaked: set<nat>,
    known: set<nat>)         // every set ever published

  datatype Step =
    | Enter(r: nat)
    | Load(r: nat)
    | LeaveEmpty(r: nat)
    | Release(r: nat)
    | Swap(next: Option<nat>)
    | Retire
    | Check
    | Free

  function FirstFree(retired: seq<Option<nat>>, i: nat): (j: nat)
    requires i <= |retired|
    ensures i <= j <= |retired|
    ensures j < |retired| ==> retired[j] == None
    ensures forall k | i <= k < j :: retired[k].Some?
    decreases |retired| - i
  {
    if i == |retired| || retired[i] == None then i else FirstFree(retired, i + 1)
  }

  ghost predicate Next(s: State, s': State, step: Step) {
    match step
    // ds_acquire: count first, then look
    case Enter(r) =>
      r in s.threads && s.threads[r] == Out
      && s' == s.(readers := s.readers + 1, threads := s.threads[r := Counted])
    case Load(r) =>
      r in s.threads && s.threads[r] == Counted
      && s' == s.(threads := s.threads[r := if s.current == None then Empty else Using(s.current.value)])
    case LeaveEmpty(r) =>
      r in s.threads && s.threads[r] == Empty
      && s' == s.(readers := s.readers - 1, threads := s.threads[r := Out])
    // ds_release
    case Release(r) =>
      r in s.threads && s.threads[r].Using?
      && s' == s.(readers := s.readers - 1, threads := s.threads[r := Out])
    // ds_publish
    case Swap(next) =>
      && s.publisher == Quiet
      && (next.Some? && next != s.current ==> next.value !in s.known)
      && s' == if next == s.current then s
               else s.(current := next, publisher := Swapped(s.current),
                       known := if next.Some? then s.known + {next.value} else s.known)
    case Retire =>
      && s.publisher.Swapped?
      && var j := FirstFree(s.retired, 0);
      s' == if s.publisher.prev.Some? && j < |s.retired|
            then s.(retired := s.retired[j := s.publisher.prev], publisher := Stored(None))
            else s.(publisher := Stored(s.publisher.prev))
    case Check =>
      && s.publisher.Stored?
      && s' == if s.readers != 0
               then s.(publisher := Quiet,
                       leaked := if s.publisher.prev.Some? then s.leaked + {s.publisher.prev.value} else s.leaked)
               else s.(publisher := Freeing(s.publisher.prev, 0))
    case Free =>
      && s.publisher.Freeing?
      && s' == if s.publisher.prev.Some? then
                 s.(freed := s.freed + [s.publisher.prev.value], publisher := Freeing(None, s.publisher.at))
               else if s.publisher.at >= |s.retired| then s.(publisher := Quiet)
               else
                 var x, i := s.retired[s.publisher.at], s.publisher.at;
                 if x == None then s.(publisher := Freeing(None, i + 1))
                 else s.(freed := s.freed + [x.value], retired := s.retired[i := None],
                         publisher := Freeing(None, i + 1))
  }

  ghost predicate Init(s: State) {
    && s.current == None && s.readers == 0 && s.publisher == Quiet
    && s.retired == [None, None, None, None]
    && (forall r | r in s.threads :: s.threads[r] == Out)
    && s.freed == [] && s.leaked == {} && s.known == {}
  }

  ghost predicate IsRun(run: seq<State>, steps: seq<Step>) {
    && |run| == |steps| + 1
    && Init(run[0])
    && forall i | 0 <= i < |steps| :: Next(run[i], run[i + 1], steps[i])
  }

  // ---------------------------------------------------------------------------
  // Invariant
  // ---------------------------------------------------------------------------

  ghost function Active(threads: map<nat, Reader>): set<nat> {
    set r | r in threads && threads[r] != Out
  }

  ghost function Retirees(retired: seq<Option<nat>>): set<nat> {
    set i | 0 <= i < |retired| && retired[i].Some? :: retired[i].value
  }

  ghost function InHand(p: Publisher): set<nat> {
    if p != Quiet && p.prev.Some? then {p.prev.value} else {}
  }

  ghost function Freed(s: State): set<nat> { set x | x in s.freed }

  ghost function Live(s: State): set<nat> {
    if s.current.Some? then {s.current.value} else {}
  }

  // Every set ever published is in exactly one place.
  ghost predicate Placed(s: State) {
    && |s.retired| == RETIRED
    && (forall i, j | 0 <= i < j < |s.retired| && s.retired[i].Some? :: s.retired[i] != s.retired[j])
    && (forall i, j | 0 <= i < j < |s.freed| :: s.freed[i] != s.freed[j])
    && Live(s) !! Retirees(s.retired) !! Freed(s) !! s.leaked !! InHand(s.publisher)
    && s.known == Live(s) + Retirees(s.retired) + Freed(s) + s.leaked + InHand(s.publisher)
  }

  // While a publisher frees, a reader can only hold the current set.
  ghost predicate ReadersSafe(s: State) {
    forall r | r in s.threads && s.threads[r].Using? ::
      if s.publisher.Freeing? then s.current == Some(s.threads[r].id)
      else s.threads[r].id in s.known && s.threads[r].id !in s.freed
  }

  ghost predicate Inv(s: State) {
    && s.readers == |Active(s.threads)|
    && Placed(s)
    && ReadersSafe(s)
    && (s.publisher.Stored? && s.publisher.prev.Some? ==> forall i | 0 <= i < |s.retired| :: s.retired[i].Some?)
    && Drained(s)
  }

  // The retire slots a publisher is done with are empty.
  ghost predicate Drained(s: State) {
    s.publisher.Freeing? ==> forall i | 0 <= i < s.publisher.at && i < |s.retired| :: s.retired[i] == None
  }

  lemma {:induction false} ActiveChange(threads: map<nat, Reader>, r: nat, next: Reader)
    requires r in threads
    ensures |Active(threads[r := next])|
         == |Active(threads)| + (if next != Out then 1 else 0) - (if threads[r] != Out then 1 else 0)
  {
    var a, b := Active(threads), Active(threads[r := next]);
    assert a - {r} == b - {r};
    assert (r in a <==> threads[r] != Out) && (r in b <==> next != Out);
    hide Active;
    Without(a, r);
    Without(b, r);
  }

  lemma {:induction false} ReaderKeeps(s: State, s': State, step: Step)
    requires Inv(s) && Next(s, s', step)
    requires step.Enter? || step.Load? || step.LeaveEmpty? || step.Release?
    ensures Inv(s')
  {
    ActiveChange(s.threads, step.r, s'.threads[step.r]);
    assert s'.threads == s.threads[step.r := s'.threads[step.r]];
  }

  lemma {:induction false} SwapKeeps(s: State, s': State, step: Step)
    requires Inv(s) && Next(s, s', step) && step.Swap?
    ensures Inv(s')
  {
  }

  lemma {:induction false} RetireKeeps(s: State, s': State, step: Step)
    requires Inv(s) && Next(s, s', step) && step.Retire?
    ensures Inv(s')
  {
    var j := FirstFree(s.retired, 0);
    if s.publisher.prev.Some? && j < |s.retired| {
      RetireesAdd(s.retired, j, s.publisher.prev.value);
    }
  }

  lemma {:induction false} RetireesAdd(retired: seq<Option<nat>>, j: nat, x: nat)
    requires j < |retired| && retired[j] == None
    ensures Retirees(retired[j := Some(x)]) == Retirees(retired) + {x}
  {
    forall y | y in Retirees(retired) ensures y in Retirees(retired[j := Some(x)]) {
      var i :| 0 <= i < |retired| && retired[i].Some? && retired[i].value == y;
      assert retired[j := Some(x)][i] == Some(y);
    }
    assert retired[j := Some(x)][j] == Some(x);
  }

  lemma {:induction false} RetireesRemove(retired: seq<Option<nat>>, j: nat)
    requires j < |retired| && retired[j].Some?
    requires forall i, k | 0 <= i < k < |retired| && retired[i].Some? :: retired[i] != retired[k]
    ensures Retirees(retired) == Retirees(retired[j := None]) + {retired[j].value}
    ensures retired[j].value !in Retirees(retired[j := None])
  {
    var rest := retired[j := None];
    RetireesAdd(rest, j, retired[j].value);
    assert rest[j := retired[j]] == retired;
  }

  lemma {:induction false} CheckKeeps(s: State, s': State, step: Step)
    requires Inv(s) && Next(s, s', step) && step.Check?
    ensures Inv(s')
  {
    if s.readers == 0 {
      NobodyActive(s.threads);
    } else if s.publisher.prev.Some? {
      assert s'.known == s.known;
    }
  }

  lemma {:induction false} NobodyActive(threads: map<nat, Reader>)
    requires |Active(threads)| == 0
    ensures forall r | r in threads :: threads[r] == Out
  {
    assert forall r | r in threads && threads[r] != Out :: r in Active(threads);
  }

  lemma {:induction false} FreeKeeps(s: State, s': State, step: Step)
    requires Inv(s) && Next(s, s', step) && step.Free?
    ensures Inv(s')
  {
    FreePlaced(s, s', step);
    FreeReaders(s, s', step);
    FreeDone(s, s', step);
    assert s'.threads == s.threads && s'.readers == s.readers;
    hide Placed, ReadersSafe, Active, Next, Drained;
  }

  lemma {:induction false} FreeDone(s: State, s': State, step: Step)
    requires Drained(s) && Next(s, s', step) && step.Free?
    ensures Drained(s') && !s'.publisher.Stored?
  {}

  lemma {:induction false} FreePlaced(s: State, s': State, step: Step)
    requires Placed(s) && Next(s, s', step) && step.Free?
    ensures Placed(s')
  {
    if s.publisher.prev.Some? {
      assert Freed(s') == Freed(s) + {s.publisher.prev.value};
    } else if s.publisher.at < |s.retired| && s.retired[s.publisher.at].Some? {
      RetireesRemove(s.retired, s.publisher.at);
      assert Freed(s') == Freed(s) + {s.retired[s.publisher.at].value};
      hide Retirees;
    }
  }

  // Readers hold the current set, which is neither freed now nor before.
  lemma {:induction false} FreeReaders(s: State, s': State, step: Step)
    requires Placed(s) && ReadersSafe(s) && Next(s, s', step) && step.Free?
    ensures ReadersSafe(s')
  {
    hide Retirees, InHand;
  }

  lemma {:induction false} NextKeeps(s: State, s': State, step: Step)
    requires Inv(s) && Next(s, s', step)
    ensures Inv(s')
  {
    match step
    case Enter(_) => ReaderKeeps(s, s', step);
    case Load(_) => ReaderKeeps(s, s', step);
    case LeaveEmpty(_) => ReaderKeeps(s, s', step);
    case Release(_) => ReaderKeeps(s, s', step);
    case Swap(_) => SwapKeeps(s, s', step);
    case Retire => RetireKeeps(s, s', step);
    case Check => CheckKeeps(s, s', step);
    case Free => FreeKeeps(s, s', step);
  }

  lemma {:induction false} RunsKeep(run: seq<State>, steps: seq<Step>, i: nat)
    requires IsRun(run, steps) && i < |run|
    ensures Inv(run[i])
  {
    if i > 0 {
      RunsKeep(run, steps, i - 1);
      NextKeeps(run[i - 1], run[i], steps[i - 1]);
    } else {
      assert Active(run[0].threads) == {};
    }
  }

  // ---------------------------------------------------------------------------
  // Main results
  // ---------------------------------------------------------------------------

  // No reader ever holds a freed set, the current set is never freed, no set is freed twice.
  lemma {:induction false} NoUseAfterFree(run: seq<State>, steps: seq<Step>, i: nat)
    requires IsRun(run, steps) && i < |run|
    ensures forall r | r in run[i].threads && run[i].threads[r].Using? :: run[i].threads[r].id !in run[i].freed
    ensures run[i].current.Some? ==> run[i].current.value !in run[i].freed
    ensures forall j, k | 0 <= j < k < |run[i].freed| :: run[i].freed[j] != run[i].freed[k]
  {
    RunsKeep(run, steps, i);
    var s := run[i];
    if s.current.Some? {
      assert s.current.value in Live(s);
      assert s.current.value !in Freed(s);
    }
  }

  // A set that is no longer current is retired, freed, leaked, or in the hand of the publish that
  // replaced it: exactly one of them, and no other set is in any of those places.
  lemma {:induction false} ReplacedSetsAccounted(run: seq<State>, steps: seq<Step>, i: nat, x: nat)
    requires IsRun(run, steps) && i < |run|
    ensures var s := run[i];
            var places := [x in Retirees(s.retired), x in s.freed, x in s.leaked, x in InHand(s.publisher)];
            && (x in s.known && s.current != Some(x) <==> true in places)
            && (forall j, k | 0 <= j < k < |places| :: !(places[j] && places[k]))
            && (s.publisher == Quiet ==> !places[3])
  {
    RunsKeep(run, steps, i);
    var s := run[i];
    assert x in s.freed <==> x in Freed(s);
    var places := [x in Retirees(s.retired), x in s.freed, x in s.leaked, x in InHand(s.publisher)];
    assert true in places <==> places[0] || places[1] || places[2] || places[3];
  }

  // A set leaks only when every retire slot was taken and a reader was still counted.
  lemma {:induction false} LeaksOnlyUnderPressure(run: seq<State>, steps: seq<Step>, i: nat, x: nat)
    requires IsRun(run, steps) && i < |steps|
    requires x in run[i + 1].leaked && x !in run[i].leaked
    ensures steps[i] == Check && run[i].readers > 0 && run[i].publisher == Stored(Some(x))
    ensures |run[i].retired| == RETIRED && forall j | 0 <= j < RETIRED :: run[i].retired[j].Some?
  {
    RunsKeep(run, steps, i);
    assert Next(run[i], run[i + 1], steps[i]);
  }

  // A publish that saw no reader leaves every retire slot empty.
  lemma {:induction false} QuietPublishDrains(run: seq<State>, steps: seq<Step>, i: nat)
    requires IsRun(run, steps) && i < |steps|
    requires run[i].publisher.Freeing? && run[i + 1].publisher == Quiet
    ensures Retirees(run[i + 1].retired) == {}
  {
    RunsKeep(run, steps, i);
    assert Next(run[i], run[i + 1], steps[i]);
  }
}
