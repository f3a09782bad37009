/** Archiving of decisions by the agent: Handle, work, Close and degrade of
    agent/internal/retain/retain.go, and the baskets and parkings of agent/internal/retain/batch.go.

    A thread is a worker, a timer, a caller of Handle or the closing of the pool: it looks up the
    archived kinds of a decision and pushes items into baskets, flushes what it took out of one, and
    publishes a decision. A step is one section under a basket's or a parking's lock, with the
    unlocked code before it, whose accesses to the decision's map of locators are taken as atomic
    (ParkingRuns.ReadsAndWritesMeet says when they are not safe). Threads interleave in any order,
    and timers may fire at any moment.
 */
module Parking {
  import opened Bytes

  // audit.Kinds: headers, args, body
  const KINDS := 3

  // Which kinds are to be archived and have a locator; None if the section cannot be read.
  datatype Decision = Decision(wanted: set<nat>, located: Option<set<nat>>)

  datatype Item = Item(d: nat, kind: nat)

  // What became of an archived kind: its new object, or the reason there is none.
  datatype Outcome = Moved(object: nat) | Lost(reason: nat)

  // The counter, and the locators rewritten so far.
  datatype Parked = Parked(pending: int, settled: map<nat, Outcome>)

  datatype Record = Record(d: nat, settled: map<nat, Outcome>)

  // An archived kind that enqueue is to look up, and whether it will find a locator.
  datatype Look = Look(item: Item, located: bool)

  // Left to look up and push, left to flush before that, and to publish before that.
  datatype Thread = Thread(rest: seq<Look>, flush: seq<Item>, emit: Option<Record>)

  datatype Basket = Basket(items: seq<Item>, closed: bool)

  // Close: not called; waiting for the workers; flushing a basket on a thread; returned.
  datatype Stage = Open | Waiting | Flushing(kind: nat, on: nat) | Returned

  // The first threads are the workers.
  datatype State = State(
    workers: nat,
    stage: Stage,
    decisions: seq<Decision>,
    jobs: seq<nat>,
    threads: seq<Thread>,
    baskets: seq<Basket>,
    parked: map<nat, Parked>,
    published: seq<Record>)

  function Relevant(d: Decision): set<nat> {
    if d.located.None? then {} else set k | k in d.wanted && k in d.located.value && k < KINDS
  }

  // ---------------------------------------------------------------------------
  // Steps
  // ---------------------------------------------------------------------------

  datatype Step =
    | Handle(decision: Decision, queued: bool)  // Handle: to the jobs, or published at once
    | Take(i: nat)                              // an idle worker takes a job: enqueue
    | Push(i: nat, full: bool)                  // one archived kind of enqueue; full if push fills the basket
    | Complete(i: nat, outcome: Outcome)        // one round of doFlush
    | Emit(i: nat)
    | Timer(kind: nat)                          // onTimer
    | CloseJobs                                 // Close: close(p.jobs)
    | CloseBasket                               // Close: closeAndFlush of the next kind
    | Return                                    // Close returns

  predicate Idle(t: Thread) { t == Thread([], [], None) }

  // The workers have left their loop over the jobs.
  predicate WorkersDone(s: State) {
    s.jobs == [] && forall i | 0 <= i < s.workers && i < |s.threads| :: Idle(s.threads[i])
  }

  // The basket that Close is to flush next.
  function NextKind(s: State): nat { if s.stage.Flushing? then s.stage.kind + 1 else 0 }

  predicate FlushDone(s: State) { s.stage.Flushing? && s.stage.on < |s.threads| && Idle(s.threads[s.stage.on]) }

  // Sending on the closed channel of jobs would end the program.
  predicate Enabled(s: State, step: Step) {
    match step
    case Handle(_, queued) => queued ==> s.stage.Open?
    case Take(i) => i < s.workers && i < |s.threads| && Idle(s.threads[i]) && s.jobs != [] && s.jobs[0] < |s.decisions|
    case Push(i, _) =>
      && i < |s.threads| && s.threads[i].rest != [] && s.threads[i].flush == [] && s.threads[i].emit.None?
      && s.threads[i].rest[0].item.kind < |s.baskets|
    case Complete(i, _) =>
      && i < |s.threads| && s.threads[i].flush != [] && s.threads[i].emit.None?
      && s.threads[i].flush[0].d in s.parked
    case Emit(i) => i < |s.threads| && s.threads[i].emit.Some?
    case Timer(kind) => kind < |s.baskets|
    case CloseJobs => s.stage.Open?
    case CloseBasket => NextKind(s) < |s.baskets| && if s.stage.Waiting? then WorkersDone(s) else FlushDone(s)
    case Return => FlushDone(s) && NextKind(s) == |s.baskets|
  }

  // The second loop of enqueue, over the archived kinds in the order of audit.Kinds.
  function Looks(d: nat, decision: Decision): seq<Look> {
    LookAt(d, decision, 0) + LookAt(d, decision, 1) + LookAt(d, decision, 2)
  }

  function LookAt(d: nat, decision: Decision, kind: nat): seq<Look> {
    if kind in decision.wanted then [Look(Item(d, kind), kind in Relevant(decision))] else []
  }

  // Its first loop: how many kinds are archived and located.
  function Number(kinds: set<nat>): nat {
    (if 0 in kinds then 1 else 0) + (if 1 in kinds then 1 else 0) + (if 2 in kinds then 1 else 0)
  }

  function Apply(s: State, step: Step): State
    requires Enabled(s, step)
  {
    match step
    case Handle(decision, queued) =>
      var d := |s.decisions|;
      if queued then s.(decisions := s.decisions + [decision], jobs := s.jobs + [d])
      else s.(decisions := s.decisions + [decision], threads := s.threads + [Thread([], [], Some(Record(d, map[])))])
    case Take(i) =>
      var d := s.jobs[0];
      var pending := Number(Relevant(s.decisions[d]));
      if pending == 0 then
        s.(jobs := s.jobs[1..], threads := s.threads[i := Thread([], [], Some(Record(d, map[])))])
      else
        s.(jobs := s.jobs[1..], threads := s.threads[i := Thread(Looks(d, s.decisions[d]), [], None)],
           parked := s.parked[d := Parked(pending, map[])])
    case Push(i, full) =>
      var item := s.threads[i].rest[0].item;
      var rest, b := s.threads[i].rest[1..], s.baskets[item.kind];
      if !s.threads[i].rest[0].located then s.(threads := s.threads[i := Thread(rest, [], None)])
      else if b.closed then s.(threads := s.threads[i := Thread(rest, [item], None)])
      else if full then
        s.(threads := s.threads[i := Thread(rest, b.items + [item], None)],
           baskets := s.baskets[item.kind := b.(items := [])])
      else
        s.(threads := s.threads[i := Thread(rest, [], None)],
           baskets := s.baskets[item.kind := b.(items := b.items + [item])])
    case Complete(i, outcome) =>
      var t := s.threads[i];
      var item := t.flush[0];
      var p := s.parked[item.d];
      var q := Parked(p.pending - 1, p.settled[item.kind := outcome]);
      var emit := if q.pending > 0 then None else Some(Record(item.d, q.settled));
      s.(threads := s.threads[i := Thread(t.rest, t.flush[1..], emit)], parked := s.parked[item.d := q])
    case Emit(i) =>
      var t := s.threads[i];
      s.(threads := s.threads[i := Thread(t.rest, t.flush, None)], published := s.published + [t.emit.value])
    case Timer(kind) =>
      s.(threads := s.threads + [Thread([], s.baskets[kind].items, None)],
         baskets := s.baskets[kind := s.baskets[kind].(items := [])])
    case CloseJobs => s.(stage := Waiting)
    case CloseBasket =>
      var kind := NextKind(s);
      s.(threads := s.threads + [Thread([], s.baskets[kind].items, None)],
         baskets := s.baskets[kind := Basket([], true)], stage := Flushing(kind, |s.threads|))
    case Return => s.(stage := Returned)
  }

  // A pool with some workers and a basket for each kind.
  ghost predicate Init(s: State) {
    && s.workers == |s.threads| && s.stage == Open
    && s.decisions == [] && s.jobs == [] && s.parked == map[] && s.published == []
    && (forall i | 0 <= i < |s.threads| :: Idle(s.threads[i]))
    && |s.baskets| == KINDS && (forall k | 0 <= k < KINDS :: s.baskets[k] == Basket([], false))
  }

  ghost predicate IsRun(run: seq<State>, steps: seq<Step>) {
    && |run| == |steps| + 1 && Init(run[0])
    && forall i | 0 <= i < |steps| :: Enabled(run[i], steps[i]) && run[i + 1] == Apply(run[i], steps[i])
  }

  // ---------------------------------------------------------------------------
  // Counting over threads, baskets and records
  // ---------------------------------------------------------------------------

  ghost function Total<T>(f: T -> nat, s: seq<T>): nat {
    if s == [] then 0 else Total(f, s[..|s| - 1]) + f(s[|s| - 1])
  }

  lemma {:induction false} TotalUpdate<T>(f: T -> nat, s: seq<T>, i: nat, x: T)
    requires i < |s|
    ensures Total(f, s[i := x]) == Total(f, s) - f(s[i]) + f(x)
  {
    var n := |s| - 1;
    if i == n {
      assert s[i := x][..n] == s[..n];
    } else {
      TotalUpdate(f, s[..n], i, x);
      assert s[i := x][..n] == s[..n][i := x];
    }
  }

  lemma {:induction false} TotalSnoc<T>(f: T -> nat, s: seq<T>, x: T)
    ensures Total(f, s + [x]) == Total(f, s) + f(x)
  {
    assert (s + [x])[..|s|] == s;
  }

  lemma {:induction false} TotalZero<T>(f: T -> nat, s: seq<T>)
    ensures Total(f, s) == 0 <==> forall i | 0 <= i < |s| :: f(s[i]) == 0
  {
    if s != [] {
      var n := |s| - 1;
      TotalZero(f, s[..n]);
      assert forall i | 0 <= i < n :: s[..n][i] == s[i];
      if forall i | 0 <= i < n :: f(s[..n][i]) == 0 {
        forall i | 0 <= i < n ensures f(s[i]) == 0 {
          assert f(s[..n][i]) == 0;
        }
      }
    }
  }

  ghost function Count<A>(s: seq<A>, x: A): nat { multiset(s)[x] }

  lemma {:induction false} CountFirst<A>(s: seq<A>, x: A)
    requires s != []
    ensures Count(s, x) == (if s[0] == x then 1 else 0) + Count(s[1..], x)
  {
    assert s == [s[0]] + s[1..];
  }

  lemma {:induction false} CountConcat<A>(a: seq<A>, b: seq<A>, x: A)
    ensures Count(a + b, x) == Count(a, x) + Count(b, x)
  {}

  ghost function Carried(x: Item): Thread -> nat { (t: Thread) => Count(t.rest, Look(x, true)) + Count(t.flush, x) }

  ghost function Emits(d: nat): Thread -> nat { (t: Thread) => if t.emit.Some? && t.emit.value.d == d then 1 else 0 }

  ghost function Kept(x: Item): Basket -> nat { (b: Basket) => Count(b.items, x) }

  ghost function Of(d: nat): Record -> nat { (r: Record) => if r.d == d then 1 else 0 }

  // How often an item is left to push, in a basket or in a flush.
  ghost function Live(s: State, x: Item): nat { Total(Carried(x), s.threads) + Total(Kept(x), s.baskets) }

  ghost function Emitting(s: State, d: nat): nat { Total(Emits(d), s.threads) }

  ghost function Published(s: State, d: nat): nat { Total(Of(d), s.published) }

  // ---------------------------------------------------------------------------
  // What every run keeps
  // ---------------------------------------------------------------------------

  // Some kind of a parked decision is not settled yet.
  ghost predicate Waits(s: State, d: nat) {
    d < |s.decisions| && d in s.parked && s.parked[d].settled.Keys != Relevant(s.decisions[d])
  }

  ghost predicate Unsettled(s: State, x: Item) {
    x.d < |s.decisions| && x.d in s.parked && x.kind in Relevant(s.decisions[x.d]) && x.kind !in s.parked[x.d].settled
  }

  // An item lives exactly while its kind is to be settled.
  ghost predicate ItemExact(s: State, x: Item) { Live(s, x) == if Unsettled(s, x) then 1 else 0 }

  // Every decision is in exactly one place: queued, parked and waiting, about to be published, or
  // published.
  ghost function PlacesOf(s: State, d: nat): nat {
    Count(s.jobs, d) + Emitting(s, d) + Published(s, d) + if Waits(s, d) then 1 else 0
  }

  ghost predicate InOnePlace(s: State, d: nat) { PlacesOf(s, d) == if d < |s.decisions| then 1 else 0 }

  ghost predicate ParkedOk(s: State, d: nat)
    requires d in s.parked
  {
    && d < |s.decisions| && Count(s.jobs, d) == 0
    && s.parked[d].settled.Keys <= Relevant(s.decisions[d])
    && s.parked[d].pending == |Relevant(s.decisions[d]) - s.parked[d].settled.Keys|
  }

  // What is published of a parked decision is what was settled.
  ghost predicate Faithful(parked: map<nat, Parked>, r: Record) { r.d in parked ==> r.settled == parked[r.d].settled }

  ghost predicate RecordsFaithful(s: State) {
    && (forall i | 0 <= i < |s.published| :: Faithful(s.parked, s.published[i]))
    && (forall i | 0 <= i < |s.threads| && s.threads[i].emit.Some? :: Faithful(s.parked, s.threads[i].emit.value))
  }

  ghost predicate AllItems(s: State) { forall x: Item :: ItemExact(s, x) }
  ghost predicate AllPlaces(s: State) { forall d: nat :: InOnePlace(s, d) }
  ghost predicate AllParked(s: State) { forall d | d in s.parked :: ParkedOk(s, d) }

  ghost predicate Inv(s: State) {
    |s.baskets| == KINDS && AllItems(s) && AllPlaces(s) && AllParked(s) && RecordsFaithful(s)
  }

  // --- moving items -----------------------------------------------------------

  lemma {:induction false} MovedKeeps(s: State, t: State)
    requires Inv(s) && t.decisions == s.decisions && t.jobs == s.jobs && t.parked == s.parked
    requires t.published == s.published
    requires forall x: Item :: Live(t, x) == Live(s, x)
    requires forall d: nat :: Emitting(t, d) == Emitting(s, d)
    requires |t.baskets| == |s.baskets|
    requires forall i | 0 <= i < |t.threads| && t.threads[i].emit.Some? ::
               i < |s.threads| && t.threads[i].emit == s.threads[i].emit
    ensures Inv(t)
  {
    hide Live, Emitting, Published, Relevant, Count;
    forall x: Item ensures ItemExact(t, x) {
      assert ItemExact(s, x) && Live(t, x) == Live(s, x);
    }
    MovedPlaces(s, t);
    hide ItemExact, InOnePlace;
    forall d | d in t.parked ensures ParkedOk(t, d) {
      assert ParkedOk(s, d);
    }
  }

  lemma {:induction false} MovedPlaces(s: State, t: State)
    requires AllPlaces(s) && t.decisions == s.decisions && t.jobs == s.jobs && t.parked == s.parked
    requires t.published == s.published
    requires forall d: nat :: Emitting(t, d) == Emitting(s, d)
    ensures AllPlaces(t)
  {
    hide Emitting, Published, Relevant, Count;
    forall d: nat ensures InOnePlace(t, d) {
      assert InOnePlace(s, d) && Emitting(t, d) == Emitting(s, d);
      SamePublished(s, t, d);
    }
  }

  lemma {:induction false} SamePublished(s: State, t: State, d: nat)
    requires t.published == s.published
    ensures Published(t, d) == Published(s, d)
  {}

  lemma {:induction false} PushKeeps(s: State, i: nat, full: bool)
    requires Inv(s) && Enabled(s, Push(i, full))
    ensures Inv(Apply(s, Push(i, full)))
  {
    var t := Apply(s, Push(i, full));
    PushShape(s, i, full);
    hide Inv, Live, Emitting, Apply;
    forall x: Item ensures Live(t, x) == Live(s, x) {
      PushMoves(s, i, full, x);
    }
    forall d: nat ensures Emitting(t, d) == Emitting(s, d) {
      QuietThread(s, t, i, d);
    }
    MovedKeeps(s, t);
  }

  lemma {:induction false} PushShape(s: State, i: nat, full: bool)
    requires Enabled(s, Push(i, full))
    ensures var t := Apply(s, Push(i, full));
            && t.decisions == s.decisions && t.jobs == s.jobs && t.parked == s.parked && t.published == s.published
            && |t.baskets| == |s.baskets| && |t.threads| == |s.threads| && t.threads == s.threads[i := t.threads[i]]
            && t.threads[i].emit == s.threads[i].emit
  {}

  lemma {:induction false} PushMoves(s: State, i: nat, full: bool, x: Item)
    requires Enabled(s, Push(i, full))
    ensures Live(Apply(s, Push(i, full)), x) == Live(s, x)
  {
    hide Total, Count;
    var t, look := Apply(s, Push(i, full)), s.threads[i].rest[0];
    var item := look.item;
    var b := s.baskets[item.kind];
    CountFirst(s.threads[i].rest, Look(x, true));
    CountConcat(b.items, [item], x);
    CountOne(item, x);
    TotalUpdate(Carried(x), s.threads, i, t.threads[i]);
    TotalUpdate(Kept(x), s.baskets, item.kind, t.baskets[item.kind]);
    assert s.baskets[item.kind := b] == s.baskets;
  }

  lemma {:induction false} CountOne<A>(a: A, x: A)
    ensures Count([a], x) == (if a == x then 1 else 0) && Count([], x) == 0
  {}

  lemma {:induction false} QuietThread(s: State, t: State, i: nat, d: nat)
    requires i < |s.threads| == |t.threads| && t.threads == s.threads[i := t.threads[i]]
    requires t.threads[i].emit == s.threads[i].emit
    ensures Emitting(t, d) == Emitting(s, d)
  {
    TotalUpdate(Emits(d), s.threads, i, t.threads[i]);
  }

  lemma {:induction false} TakenOutKeeps(s: State, kind: nat, closed: bool)
    requires Inv(s) && kind < |s.baskets|
    ensures Inv(s.(threads := s.threads + [Thread([], s.baskets[kind].items, None)],
                   baskets := s.baskets[kind := Basket([], closed)]))
  {
    var b, y := Basket([], closed), Thread([], s.baskets[kind].items, None);
    var t := s.(threads := s.threads + [y], baskets := s.baskets[kind := b]);
    forall x: Item ensures Live(t, x) == Live(s, x) {
      TotalSnoc(Carried(x), s.threads, y);
      TotalUpdate(Kept(x), s.baskets, kind, b);
    }
    forall d: nat ensures Emitting(t, d) == Emitting(s, d) {
      TotalSnoc(Emits(d), s.threads, y);
    }
    hide Inv, Live, Emitting;
    MovedKeeps(s, t);
  }

  lemma {:induction false} StageKeeps(s: State, stage: Stage)
    requires Inv(s)
    ensures Inv(s.(stage := stage))
  {
    var t := s.(stage := stage);
    assert forall x: Item :: Live(t, x) == Live(s, x);
    assert forall d: nat :: Emitting(t, d) == Emitting(s, d);
    hide Inv, Live, Emitting;
    MovedKeeps(s, t);
  }

  // --- publishing -------------------------------------------------------------

  lemma {:induction false} EmitKeeps(s: State, i: nat)
    requires Inv(s) && Enabled(s, Emit(i))
    ensures Inv(Apply(s, Emit(i)))
  {
    EmitItems(s, i);
    EmitPlaces(s, i);
    EmitRecords(s, i);
    hide AllItems, AllPlaces, RecordsFaithful, ParkedOk;
    var t := Apply(s, Emit(i));
    forall d | d in t.parked ensures ParkedOk(t, d) {
      assert ParkedOk(s, d);
      SameParked(s, t, d);
    }
  }

  lemma {:induction false} EmitItems(s: State, i: nat)
    requires AllItems(s) && Enabled(s, Emit(i))
    ensures AllItems(Apply(s, Emit(i)))
  {
    hide Live;
    forall x: Item ensures ItemExact(Apply(s, Emit(i)), x) {
      assert ItemExact(s, x);
      EmitCounts(s, i, x, 0);
    }
  }

  lemma {:induction false} EmitPlaces(s: State, i: nat)
    requires AllPlaces(s) && Enabled(s, Emit(i))
    ensures AllPlaces(Apply(s, Emit(i)))
  {
    hide Live, Emitting, Published, Count;
    forall d: nat ensures InOnePlace(Apply(s, Emit(i)), d) {
      assert InOnePlace(s, d);
      EmitCounts(s, i, Item(0, 0), d);
    }
  }

  lemma {:induction false} EmitRecords(s: State, i: nat)
    requires Enabled(s, Emit(i)) && RecordsFaithful(s)
    ensures RecordsFaithful(Apply(s, Emit(i)))
  {}

  lemma {:induction false} EmitCounts(s: State, i: nat, x: Item, d: nat)
    requires Enabled(s, Emit(i))
    ensures Live(Apply(s, Emit(i)), x) == Live(s, x)
    ensures Emitting(Apply(s, Emit(i)), d) + Published(Apply(s, Emit(i)), d) == Emitting(s, d) + Published(s, d)
  {
    var t := Apply(s, Emit(i));
    TotalUpdate(Carried(x), s.threads, i, t.threads[i]);
    TotalUpdate(Emits(d), s.threads, i, t.threads[i]);
    TotalSnoc(Of(d), s.published, s.threads[i].emit.value);
  }

  // A decision that waits or is queued has no record yet.
  lemma {:induction false} NoRecords(s: State, d: nat)
    requires Published(s, d) == 0 && Emitting(s, d) == 0
    ensures forall i | 0 <= i < |s.published| :: s.published[i].d != d
    ensures forall i | 0 <= i < |s.threads| && s.threads[i].emit.Some? :: s.threads[i].emit.value.d != d
  {
    TotalZero(Of(d), s.published);
    TotalZero(Emits(d), s.threads);
    forall i | 0 <= i < |s.published| ensures s.published[i].d != d {
      assert Of(d)(s.published[i]) == 0;
    }
    forall i | 0 <= i < |s.threads| && s.threads[i].emit.Some? ensures s.threads[i].emit.value.d != d {
      assert Emits(d)(s.threads[i]) == 0;
    }
  }

  // --- completing an item -----------------------------------------------------

  lemma {:induction false} CompleteCounts(s: State, i: nat, outcome: Outcome, x: Item, d: nat)
    requires Enabled(s, Complete(i, outcome))
    ensures var t, item := Apply(s, Complete(i, outcome)), s.threads[i].flush[0];
            && Live(s, item) > 0
            && Live(t, x) == Live(s, x) - (if x == item then 1 else 0)
            && Emitting(t, d) == Emitting(s, d) + (if d == item.d && t.parked[d].pending <= 0 then 1 else 0)
            && Published(t, d) == Published(s, d)
  {
    var t, was := Apply(s, Complete(i, outcome)), s.threads[i];
    CountFirst(was.flush, x);
    CountFirst(was.flush, was.flush[0]);
    TotalUpdate(Carried(x), s.threads, i, t.threads[i]);
    TotalUpdate(Carried(was.flush[0]), s.threads, i, t.threads[i]);
    TotalUpdate(Emits(d), s.threads, i, t.threads[i]);
  }

  lemma {:induction false} CompleteKeeps(s: State, i: nat, outcome: Outcome)
    requires Inv(s) && Enabled(s, Complete(i, outcome))
    ensures Inv(Apply(s, Complete(i, outcome)))
  {
    var t, item := Apply(s, Complete(i, outcome)), s.threads[i].flush[0];
    assert |t.baskets| == |s.baskets| && t.decisions == s.decisions && t.jobs == s.jobs;
    FlushedWaits(s, i, outcome);
    SettleOne(s, t, item, outcome);
    NoRecords(s, item.d);
    CompleteRecords(s, t, i, outcome);
    CompleteItems(s, i, outcome);
    CompletePlaces(s, i, outcome);
    hide AllItems, AllPlaces, RecordsFaithful, ParkedOk;
    forall d | d in t.parked ensures ParkedOk(t, d) {
      if d != item.d {
        assert ParkedOk(s, d);
        SameParked(s, t, d);
      }
    }
  }

  lemma {:induction false} SameParked(s: State, t: State, d: nat)
    requires d in s.parked && ParkedOk(s, d) && d in t.parked && t.parked[d] == s.parked[d]
    requires t.decisions == s.decisions && Count(t.jobs, d) <= Count(s.jobs, d)
    ensures ParkedOk(t, d)
  {}

  // An item in a flush is not settled, so its decision waits and has no record.
  lemma {:induction false} FlushedWaits(s: State, i: nat, outcome: Outcome)
    requires AllItems(s) && AllPlaces(s) && AllParked(s) && Enabled(s, Complete(i, outcome))
    ensures var item := s.threads[i].flush[0];
            && Unsettled(s, item) && ParkedOk(s, item.d) && Waits(s, item.d)
            && Published(s, item.d) == 0 && Emitting(s, item.d) == 0
  {
    hide Live, Emitting, Published, Count, Relevant, Apply;
    var item := s.threads[i].flush[0];
    CompleteCounts(s, i, outcome, item, item.d);
    assert ItemExact(s, item) && InOnePlace(s, item.d);
  }

  lemma {:induction false} CompleteItems(s: State, i: nat, outcome: Outcome)
    requires Enabled(s, Complete(i, outcome)) && AllItems(s)
    ensures AllItems(Apply(s, Complete(i, outcome)))
  {
    hide Live, Relevant;
    var t, item := Apply(s, Complete(i, outcome)), s.threads[i].flush[0];
    CompleteCounts(s, i, outcome, item, 0);
    assert ItemExact(s, item);
    forall x: Item ensures ItemExact(t, x) {
      CompleteCounts(s, i, outcome, x, 0);
      assert ItemExact(s, x);
    }
  }

  lemma {:induction false} CompletePlaces(s: State, i: nat, outcome: Outcome)
    requires Enabled(s, Complete(i, outcome)) && AllPlaces(s)
    requires var t, d := Apply(s, Complete(i, outcome)), s.threads[i].flush[0].d;
             Waits(s, d) && (Waits(t, d) <==> t.parked[d].pending > 0)
    ensures AllPlaces(Apply(s, Complete(i, outcome)))
  {
    hide Emitting, Published, Relevant, Count;
    var t, item := Apply(s, Complete(i, outcome)), s.threads[i].flush[0];
    forall d: nat ensures InOnePlace(t, d) {
      CompleteCounts(s, i, outcome, item, d);
      assert InOnePlace(s, d);
    }
  }

  // Settling one kind takes one from the counter, and the last one ends the waiting.
  lemma {:induction false} SettleOne(s: State, t: State, item: Item, outcome: Outcome)
    requires Unsettled(s, item) && ParkedOk(s, item.d) && t.decisions == s.decisions && t.jobs == s.jobs
    requires var p := s.parked[item.d];
             t.parked == s.parked[item.d := Parked(p.pending - 1, p.settled[item.kind := outcome])]
    ensures ParkedOk(t, item.d) && Waits(s, item.d)
    ensures Waits(t, item.d) <==> t.parked[item.d].pending > 0
  {
    hide Relevant, Count;
    var before, after := s.parked[item.d].settled, t.parked[item.d].settled;
    assert after.Keys == before.Keys + {item.kind};
    OneMore(Relevant(s.decisions[item.d]), before.Keys, item.kind);
  }

  lemma {:induction false} OneMore(relevant: set<nat>, before: set<nat>, k: nat)
    requires before <= relevant && k in relevant && k !in before
    ensures before + {k} <= relevant && |relevant - (before + {k})| == |relevant - before| - 1
    ensures before + {k} == relevant <==> |relevant - (before + {k})| == 0
  {
    var after := before + {k};
    assert relevant - before == (relevant - after) + {k};
    if |relevant - after| == 0 {
      assert relevant - after == {};
      assert after == relevant;
    }
  }

  lemma {:induction false} CompleteRecords(s: State, t: State, i: nat, outcome: Outcome)
    requires Enabled(s, Complete(i, outcome)) && t == Apply(s, Complete(i, outcome)) && RecordsFaithful(s)
    requires var d := s.threads[i].flush[0].d;
             && (forall k | 0 <= k < |s.published| :: s.published[k].d != d)
             && (forall k | 0 <= k < |s.threads| && s.threads[k].emit.Some? :: s.threads[k].emit.value.d != d)
    ensures RecordsFaithful(t)
  {}

  // --- taking a job -----------------------------------------------------------

  // Every kind that is archived and located is looked up once.
  lemma {:induction false} LooksCount(d: nat, decision: Decision, x: Item)
    ensures Count(Looks(d, decision), Look(x, true)) == if x.d == d && x.kind in Relevant(decision) then 1 else 0
  {
    var a, b, c := LookAt(d, decision, 0), LookAt(d, decision, 1), LookAt(d, decision, 2);
    var y := Look(x, true);
    LookAtCount(d, decision, 0, x);
    LookAtCount(d, decision, 1, x);
    LookAtCount(d, decision, 2, x);
    assert x.kind in Relevant(decision) ==> x.kind < 3;
    hide Count, LookAt, Relevant;
    CountConcat(a + b, c, y);
    CountConcat(a, b, y);
  }

  lemma {:induction false} LookAtCount(d: nat, decision: Decision, kind: nat, x: Item)
    requires kind < KINDS
    ensures Count(LookAt(d, decision, kind), Look(x, true))
         == if x == Item(d, kind) && kind in Relevant(decision) then 1 else 0
  {
    CountOne(Look(Item(d, kind), kind in Relevant(decision)), Look(x, true));
    hide Count;
  }

  lemma {:induction false} CountRelevant(decision: Decision)
    ensures Number(Relevant(decision)) == |Relevant(decision)|
  {
    assert forall k | k in Relevant(decision) :: k < 3;
    hide Relevant;
    CountKinds(Relevant(decision));
  }

  lemma {:induction false} CountKinds(kinds: set<nat>)
    requires forall k | k in kinds :: k < 3
    ensures Number(kinds) == |kinds|
  {
    var less := kinds - {2};
    var least := less - {1};
    Without(kinds, 2);
    Without(less, 1);
    Without(least, 0);
    assert least - {0} == {};
  }

  lemma {:induction false} TakeCounts(s: State, i: nat, x: Item, d: nat)
    requires Enabled(s, Take(i))
    ensures var t, e := Apply(s, Take(i)), s.jobs[0];
            var relevant := Relevant(s.decisions[e]);
            && Live(t, x) == Live(s, x) + (if x.d == e && x.kind in relevant then 1 else 0)
            && Emitting(t, d) == Emitting(s, d) + (if d == e && relevant == {} then 1 else 0)
            && Published(t, d) == Published(s, d)
            && Count(t.jobs, d) == Count(s.jobs, d) - (if d == e then 1 else 0)
  {
    var t := Apply(s, Take(i));
    LooksCount(s.jobs[0], s.decisions[s.jobs[0]], x);
    CountRelevant(s.decisions[s.jobs[0]]);
    CountFirst(s.jobs, d);
    TotalUpdate(Carried(x), s.threads, i, t.threads[i]);
    TotalUpdate(Emits(d), s.threads, i, t.threads[i]);
  }

  lemma {:induction false} TakeKeeps(s: State, i: nat)
    requires Inv(s) && Enabled(s, Take(i))
    ensures Inv(Apply(s, Take(i)))
  {
    var t, e := Apply(s, Take(i)), s.jobs[0];
    assert |t.baskets| == |s.baskets| && t.decisions == s.decisions;
    QueuedIsFresh(s, i);
    NoRecords(s, e);
    TakeRecords(s, t, i);
    TakeItems(s, i);
    TakePlaces(s, i);
    hide AllItems, AllPlaces, RecordsFaithful;
    TakeParked(s, i);
  }

  lemma {:induction false} QueuedIsFresh(s: State, i: nat)
    requires AllPlaces(s) && AllParked(s) && Enabled(s, Take(i))
    ensures var e := s.jobs[0]; e !in s.parked && Published(s, e) == 0 && Emitting(s, e) == 0 && Count(s.jobs, e) == 1
  {
    hide Emitting, Published;
    var e := s.jobs[0];
    CountFirst(s.jobs, e);
    hide Count;
    assert InOnePlace(s, e);
    Fresh(s, e);
  }

  lemma {:induction false} TakeParked(s: State, i: nat)
    requires Enabled(s, Take(i)) && AllParked(s) && s.jobs[0] !in s.parked && Count(s.jobs, s.jobs[0]) == 1
    ensures AllParked(Apply(s, Take(i)))
  {
    hide ParkedOk, Looks, Number;
    var t, e := Apply(s, Take(i)), s.jobs[0];
    forall d | d in t.parked ensures ParkedOk(t, d) {
      CountFirst(s.jobs, d);
      if d != e {
        assert ParkedOk(s, d);
        SameParked(s, t, d);
      } else {
        CountRelevant(s.decisions[e]);
        NewlyParked(t, e);
      }
    }
  }

  lemma {:induction false} NewlyParked(t: State, d: nat)
    requires d in t.parked && d < |t.decisions| && Count(t.jobs, d) == 0
    requires t.parked[d] == Parked(|Relevant(t.decisions[d])|, map[])
    ensures ParkedOk(t, d)
  {
    var settled: map<nat, Outcome> := map[];
    assert Relevant(t.decisions[d]) - settled.Keys == Relevant(t.decisions[d]);
  }

  lemma {:induction false} TakeItems(s: State, i: nat)
    requires Enabled(s, Take(i)) && s.jobs[0] !in s.parked && AllItems(s)
    ensures AllItems(Apply(s, Take(i)))
  {
    hide Live, Relevant, Looks, Number;
    var t, e := Apply(s, Take(i)), s.jobs[0];
    CountRelevant(s.decisions[e]);
    forall x: Item ensures ItemExact(t, x) {
      TakeCounts(s, i, x, 0);
      assert ItemExact(s, x);
    }
  }

  lemma {:induction false} TakePlaces(s: State, i: nat)
    requires Enabled(s, Take(i)) && s.jobs[0] !in s.parked && AllPlaces(s)
    ensures AllPlaces(Apply(s, Take(i)))
  {
    hide Emitting, Published, Relevant, Looks, Number, Count;
    var t, e := Apply(s, Take(i)), s.jobs[0];
    CountRelevant(s.decisions[e]);
    forall d: nat ensures InOnePlace(t, d) {
      TakeCounts(s, i, Item(0, 0), d);
      assert InOnePlace(s, d);
    }
  }

  // A queued decision was never parked.
  lemma {:induction false} Fresh(s: State, d: nat)
    requires Count(s.jobs, d) > 0 && forall e | e in s.parked :: ParkedOk(s, e)
    ensures d !in s.parked
  {}

  lemma {:induction false} TakeRecords(s: State, t: State, i: nat)
    requires Enabled(s, Take(i)) && t == Apply(s, Take(i)) && RecordsFaithful(s) && s.jobs[0] !in s.parked
    requires var d := s.jobs[0];
             && (forall k | 0 <= k < |s.published| :: s.published[k].d != d)
             && (forall k | 0 <= k < |s.threads| && s.threads[k].emit.Some? :: s.threads[k].emit.value.d != d)
    ensures RecordsFaithful(t)
  {}

  // --- handing over a decision ------------------------------------------------

  lemma {:induction false} HandleCounts(s: State, decision: Decision, queued: bool, x: Item, d: nat)
    requires Enabled(s, Handle(decision, queued))
    ensures var t := Apply(s, Handle(decision, queued));
            && Live(t, x) == Live(s, x) && Published(t, d) == Published(s, d)
            && Count(t.jobs, d) + Emitting(t, d)
               == Count(s.jobs, d) + Emitting(s, d) + (if d == |s.decisions| then 1 else 0)
  {
    hide Total, Count;
    var e: nat := |s.decisions|;
    assert queued ==> Apply(s, Handle(decision, queued)).jobs == s.jobs + [e];
    var y := Thread([], [], Some(Record(e, map[])));
    CountConcat(s.jobs, [e], d);
    CountOne(e, d);
    CountOne(x, x);
    CountOne(Look(x, true), Look(x, true));
    TotalSnoc(Carried(x), s.threads, y);
    TotalSnoc(Emits(d), s.threads, y);
  }

  lemma {:induction false} HandleKeeps(s: State, decision: Decision, queued: bool)
    requires Inv(s) && Enabled(s, Handle(decision, queued))
    ensures Inv(Apply(s, Handle(decision, queued)))
  {
    HandleRecords(s, decision, queued);
    HandleItems(s, decision, queued);
    HandlePlaces(s, decision, queued);
    hide AllItems, AllPlaces, RecordsFaithful, ParkedOk;
    var t := Apply(s, Handle(decision, queued));
    forall d | d in t.parked ensures ParkedOk(t, d) {
      assert ParkedOk(s, d);
      HandleParked(s, t, decision, queued, d);
    }
  }

  lemma {:induction false} HandleItems(s: State, decision: Decision, queued: bool)
    requires AllItems(s) && AllParked(s) && Enabled(s, Handle(decision, queued))
    ensures AllItems(Apply(s, Handle(decision, queued)))
  {
    hide Live, Relevant, Count;
    var t := Apply(s, Handle(decision, queued));
    assert t.parked == s.parked && t.decisions == s.decisions + [decision];
    forall x: Item ensures ItemExact(t, x) {
      assert Live(t, x) == Live(s, x) by {
        HandleCounts(s, decision, queued, x, 0);
      }
      hide Apply;
      assert ItemExact(s, x);
      assert x.d in s.parked ==> ParkedOk(s, x.d);
    }
  }

  lemma {:induction false} HandlePlaces(s: State, decision: Decision, queued: bool)
    requires AllPlaces(s) && AllParked(s) && Enabled(s, Handle(decision, queued))
    ensures AllPlaces(Apply(s, Handle(decision, queued)))
  {
    hide Live, Emitting, Published, Count, Relevant;
    var t := Apply(s, Handle(decision, queued));
    assert t.parked == s.parked && t.decisions == s.decisions + [decision];
    forall d: nat ensures InOnePlace(t, d) {
      HandleCounts(s, decision, queued, Item(0, 0), d);
      hide Apply;
      assert InOnePlace(s, d);
      assert d in s.parked ==> ParkedOk(s, d);
    }
  }

  lemma {:induction false} HandleParked(s: State, t: State, decision: Decision, queued: bool, d: nat)
    requires Enabled(s, Handle(decision, queued)) && t == Apply(s, Handle(decision, queued))
    requires d in s.parked && ParkedOk(s, d)
    ensures ParkedOk(t, d)
  {
    CountConcat(s.jobs, [|s.decisions|], d);
    CountOne(|s.decisions|, d);
  }

  lemma {:induction false} HandleRecords(s: State, decision: Decision, queued: bool)
    requires RecordsFaithful(s) && AllParked(s) && Enabled(s, Handle(decision, queued))
    ensures RecordsFaithful(Apply(s, Handle(decision, queued)))
  {
    hide Relevant, Count;
    var t, y := Apply(s, Handle(decision, queued)), Thread([], [], Some(Record(|s.decisions|, map[])));
    assert |s.decisions| !in s.parked;
    assert t.parked == s.parked && t.published == s.published
           && (t.threads == s.threads || t.threads == s.threads + [y]);
    hide Apply, AllParked;
  }

  // --- runs -------------------------------------------------------------------

  lemma {:induction false} InitKeeps(s: State)
    requires Init(s)
    ensures Inv(s)
  {
    forall x: Item ensures ItemExact(s, x) {
      TotalZero(Carried(x), s.threads);
      TotalZero(Kept(x), s.baskets);
    }
    forall d: nat ensures InOnePlace(s, d) {
      TotalZero(Emits(d), s.threads);
    }
  }

  lemma {:induction false} NextKeeps(s: State, step: Step)
    requires Inv(s) && Enabled(s, step)
    ensures Inv(Apply(s, step))
  {
    hide Inv;
    match step
    case Handle(decision, queued) => HandleKeeps(s, decision, queued);
    case Take(i) => TakeKeeps(s, i);
    case Push(i, full) => PushKeeps(s, i, full);
    case Complete(i, outcome) => CompleteKeeps(s, i, outcome);
    case Emit(i) => EmitKeeps(s, i);
    case Timer(kind) => TakenOutKeeps(s, kind, s.baskets[kind].closed);
    case CloseJobs => StageKeeps(s, Waiting);
    case CloseBasket =>
      TakenOutKeeps(s, NextKind(s), true);
      StageKeeps(Apply(s, CloseBasket).(stage := s.stage), Flushing(NextKind(s), |s.threads|));
    case Return => StageKeeps(s, Returned);
  }

  lemma {:induction false} RunsKeep(run: seq<State>, steps: seq<Step>, i: nat)
    requires IsRun(run, steps) && i < |run|
    ensures Inv(run[i])
  {
    hide Inv;
    if i == 0 {
      InitKeeps(run[0]);
    } else {
      RunsKeep(run, steps, i - 1);
      NextKeeps(run[i - 1], steps[i - 1]);
    }
  }

  // ---------------------------------------------------------------------------
  // Main results
  // ---------------------------------------------------------------------------

  // Whatever the interleaving, a decision is published at most once.
  lemma {:induction false} PublishedAtMostOnce(run: seq<State>, steps: seq<Step>, i: nat, d: nat)
    requires IsRun(run, steps) && i < |run|
    ensures Published(run[i], d) <= 1
  {
    RunsKeep(run, steps, i);
    assert InOnePlace(run[i], d);
  }

  // What is published of a parked decision has every archived kind settled, each as its own move
  // ended.
  lemma {:induction false} PublishedWhenSettled(run: seq<State>, steps: seq<Step>, i: nat, k: nat)
    requires IsRun(run, steps) && i < |run| && k < |run[i].published| && run[i].published[k].d in run[i].parked
    ensures var s, r := run[i], run[i].published[k];
            && r.d < |s.decisions| && r.settled.Keys == Relevant(s.decisions[r.d]) && r.settled == s.parked[r.d].settled
  {
    RunsKeep(run, steps, i);
    var s, d := run[i], run[i].published[k].d;
    TotalZero(Of(d), s.published);
    assert Of(d)(s.published[k]) == 1;
    assert InOnePlace(s, d) && ParkedOk(s, d);
    assert Faithful(s.parked, s.published[k]);
  }

  // A decision handed to the pool that is not queued, of which no item is left to push, in a basket
  // or in a flush, and which no thread is about to publish, has been published exactly once.
  lemma {:induction false} PublishedExactlyOnce(run: seq<State>, steps: seq<Step>, i: nat, d: nat)
    requires IsRun(run, steps) && i < |run| && d < |run[i].decisions|
    requires Count(run[i].jobs, d) == 0 && Emitting(run[i], d) == 0
    requires forall kind: nat :: Live(run[i], Item(d, kind)) == 0
    ensures Published(run[i], d) == 1
  {
    RunsKeep(run, steps, i);
    hide Live, Emitting, Published, Count;
    assert InOnePlace(run[i], d);
    if Waits(run[i], d) {
      var kind := WaitingHasItem(run[i], d);
    }
  }

  lemma {:induction false} WaitingHasItem(s: State, d: nat) returns (kind: nat)
    requires AllItems(s) && AllParked(s) && Waits(s, d)
    ensures Live(s, Item(d, kind)) == 1
  {
    hide Live, Count;
    assert ParkedOk(s, d);
    kind :| kind in Relevant(s.decisions[d]) && kind !in s.parked[d].settled;
    assert ItemExact(s, Item(d, kind));
  }
}
