/** Runs of a Redis connection of module/src/body/drv_redis.c: commands sent, reply bytes, timeouts,
    pools that go away and connections that are lost, in any order. A lost connection fails its
    entries one at a time, with pools going away in between. An operation is known by the place of
    its command among all that were sent.
 */
module RedisRuns {
  import opened Bytes
  import opened Resp

  // ---------------------------------------------------------------------------
  // Replies in the byte stream, without regard to who asked
  // ---------------------------------------------------------------------------

  // A line without its LF, and the payload a bulk header announces with its CRLF.
  datatype Frame = Frame(line: seq<Byte>, body: seq<Byte>)

  function Need(line: seq<Byte>): nat {
    if line != [] && line[0] == DOLLAR && Announced(line).Some? then Announced(line).value + 2 else 0
  }

  datatype Framing = Framing(frames: seq<Frame>, line: seq<Byte>, inBody: bool, body: seq<Byte>)

  function Cut(f: Framing, b: Byte): Framing {
    if f.inBody then
      if |f.body| + 1 >= Need(f.line) then Framing(f.frames + [Frame(f.line, f.body + [b])], [], false, [])
      else f.(body := f.body + [b])
    else if b != LF then f.(line := f.line + [b])
    else if Need(f.line) == 0 then Framing(f.frames + [Frame(f.line, [])], [], false, [])
    else f.(inBody := true)
  }

  ghost function Text(f: Frame): seq<Byte> { f.line + [LF] + f.body }

  ghost function Texts(frames: seq<Frame>): seq<Byte> {
    if frames == [] then [] else Texts(frames[..|frames| - 1]) + Text(frames[|frames| - 1])
  }

  // The frames and the piece of one that fill bytes.
  ghost predicate Spells(f: Framing, bytes: seq<Byte>) {
    && (forall i | 0 <= i < |f.frames| :: LF !in f.frames[i].line && |f.frames[i].body| == Need(f.frames[i].line))
    && LF !in f.line && (f.inBody ==> |f.body| < Need(f.line)) && (!f.inBody ==> f.body == [])
    && bytes == Texts(f.frames) + f.line + if f.inBody then [LF] + f.body else []
  }

  // Received bytes are always spelled by their frames, each with exactly the body it announced.
  lemma {:induction false} CutSpells(f: Framing, b: Byte, bytes: seq<Byte>)
    requires Spells(f, bytes)
    ensures Spells(Cut(f, b), bytes + [b])
  {
    hide Need, Texts;
    if f.inBody && |f.body| + 1 >= Need(f.line) {
      TextsSnoc(f.frames, Frame(f.line, f.body + [b]));
    } else if !f.inBody && b == LF && Need(f.line) == 0 {
      TextsSnoc(f.frames, Frame(f.line, []));
    }
  }

  lemma {:induction false} TextsSnoc(frames: seq<Frame>, f: Frame)
    ensures Texts(frames + [f]) == Texts(frames) + (f.line + [LF] + f.body)
  {
    assert (frames + [f])[..|frames|] == frames;
  }

  // ---------------------------------------------------------------------------
  // The state and its steps
  // ---------------------------------------------------------------------------

  datatype Completion = Completion(id: nat, outcome: Outcome)

  datatype State = State(
    conn: Conn,
    inflight: int,
    sent: seq<Command>,
    base: nat,              // commands sent before this connection
    lost: bool,             // the link is down, and its entries are being failed
    log: seq<Completion>,   // handlers run
    gone: set<nat>,         // operations whose pool is gone
    framing: Framing)       // the replies received on this connection

  datatype Event =
    | Send(command: Command)
    | Receive(b: Byte, env: Env)
    | Timeout(i: nat)
    | PoolGone(id: nat)
    | Drop      // the link is lost
    | Fail      // redis_drain: one entry fails
    | Connect   // a new connection, once no entry is left

  // Handlers act by events of their own.
  function Calm(env: Env): Env { env.(react := (k: nat) => []) }

  function Complete(log: seq<Completion>, s: Settled): seq<Completion> {
    if s.entry.Some? && s.entry.value.op.Some? then log + [Completion(s.entry.value.op.value.id, s.outcome)] else log
  }

  predicate Settles(c: Conn, d: Conn) { |d.settled| > |c.settled| }

  predicate Enabled(s: State, e: Event) {
    match e
    case Send(_) => !s.conn.mode.Broken? && !s.lost
    case Receive(_, _) => !s.conn.mode.Broken? && !s.lost
    case Timeout(i) => i < |s.conn.queue| && s.conn.queue[i].op.Some?
    case PoolGone(id) => id < |s.sent|
    case Drop => !s.lost
    case Fail => s.lost && s.conn.queue != []
    case Connect => s.lost && s.conn.queue == []
  }

  function Apply(s: State, e: Event): State
    requires Enabled(s, e)
  {
    match e
    case Send(command) =>
      s.(conn := s.conn.(queue := s.conn.queue + [EntryOf(s.conn.sent, command)], sent := s.conn.sent + 1),
         inflight := s.inflight + 1, sent := s.sent + [command])
    case Receive(b, env) =>
      var d := Step(Calm(env), s.conn, b);
      if Settles(s.conn, d) then
        var last := d.settled[|d.settled| - 1];
        s.(conn := d, framing := Cut(s.framing, b), log := Complete(s.log, last),
           inflight := s.inflight - if last.entry.Some? then 1 else 0)
      else s.(conn := d, framing := Cut(s.framing, b))
    case Timeout(i) =>
      var entry := s.conn.queue[i];
      s.(conn := s.conn.(queue := s.conn.queue[i := entry.(op := None)]),
         log := Complete(s.log, Settled(Some(entry), Error)))
    case PoolGone(id) =>
      s.(conn := s.conn.(queue := DetachAll(s.conn.queue, id)), gone := s.gone + {id})
    case Drop => s.(lost := true)
    case Fail =>
      s.(conn := s.conn.(queue := s.conn.queue[1..]), inflight := s.inflight - 1,
         log := Complete(s.log, Settled(Some(s.conn.queue[0]), Error)))
    case Connect =>
      s.(conn := Conn([], Lines([]), [], s.conn.sent), base := |s.sent|, lost := false,
         framing := Framing([], [], false, []))
  }

  ghost predicate IsRun(run: seq<State>, events: seq<Event>) {
    && |run| == |events| + 1
    && run[0] == State(Conn([], Lines([]), [], 0), 0, [], 0, false, [], {}, Framing([], [], false, []))
    && forall i | 0 <= i < |events| :: Enabled(run[i], events[i]) && run[i + 1] == Apply(run[i], events[i])
  }

  // ---------------------------------------------------------------------------
  // What every run keeps
  // ---------------------------------------------------------------------------

  ghost predicate Logged(log: seq<Completion>, id: nat) { exists i | 0 <= i < |log| :: log[i].id == id }

  ghost predicate Holds(e: Entry, id: nat) { e.op.Some? && e.op.value.id == id }

  ghost predicate Waiting(queue: seq<Entry>, id: nat) { exists j | 0 <= j < |queue| :: Holds(queue[j], id) }

  // The queue is the end of what was sent, in order, each operation in its place or given up.
  ghost predicate InOrder(queue: seq<Entry>, sent: seq<Command>) {
    && |queue| <= |sent|
    && forall j | 0 <= j < |queue| :: InPlace(queue[j], sent[|sent| - |queue| + j], |sent| - |queue| + j)
  }

  ghost predicate InPlace(e: Entry, command: Command, id: nat) {
    e.bulk == command.bulk && (e.op.Some? ==> command.cap.Some? && e.op == Some(Op(id, command.cap.value)))
  }

  // Operations complete at most once, and one that waits neither completed nor lost its pool.
  ghost predicate Once(queue: seq<Entry>, log: seq<Completion>, gone: set<nat>) {
    && (forall i, j | 0 <= i < j < |log| :: log[i].id != log[j].id)
    && (forall j | 0 <= j < |queue| && queue[j].op.Some? ::
          queue[j].op.value.id !in gone && !Logged(log, queue[j].op.value.id))
  }

  // No operation is forgotten.
  ghost predicate Accounted(queue: seq<Entry>, sent: seq<Command>, log: seq<Completion>, gone: set<nat>) {
    forall id | 0 <= id < |sent| && sent[id].cap.Some? :: Logged(log, id) || id in gone || Waiting(queue, id)
  }

  ghost predicate Kept(queue: seq<Entry>, sent: seq<Command>, log: seq<Completion>, gone: set<nat>) {
    InOrder(queue, sent) && Once(queue, log, gone) && Accounted(queue, sent, log, gone)
  }

  ghost predicate Inv(s: State) {
    && Kept(s.conn.queue, s.sent, s.log, s.gone)
    && s.inflight == |s.conn.queue| && s.base + |s.conn.queue| <= |s.sent| && s.conn.sent == |s.sent|
  }

  lemma {:induction false} CompleteLogs(log: seq<Completion>, s: Settled)
    ensures forall id: nat ::
              Logged(Complete(log, s), id) <==> Logged(log, id) || (s.entry.Some? && Holds(s.entry.value, id))
  {
    var after := Complete(log, s);
    forall id: nat
      ensures Logged(after, id) <==> Logged(log, id) || (s.entry.Some? && Holds(s.entry.value, id))
    {
      if i :| 0 <= i < |log| && log[i].id == id {
        assert after[i].id == id;
      }
      if s.entry.Some? && Holds(s.entry.value, id) {
        assert after[|log|].id == id;
      }
    }
  }

  // Taking the head off the queue completes its operation if it still waits.
  lemma {:induction false} PopKeeps(queue: seq<Entry>, sent: seq<Command>, log: seq<Completion>, gone: set<nat>,
                                    outcome: Outcome)
    requires queue != [] && Kept(queue, sent, log, gone)
    ensures Kept(queue[1..], sent, Complete(log, Settled(Some(queue[0]), outcome)), gone)
  {
    var rest, head := queue[1..], Settled(Some(queue[0]), outcome);
    var after := Complete(log, head);
    CompleteLogs(log, head);
    forall j | 0 <= j < |rest| ensures InPlace(rest[j], sent[|sent| - |rest| + j], |sent| - |rest| + j) {
      assert rest[j] == queue[j + 1];
      assert InPlace(queue[j + 1], sent[|sent| - |queue| + (j + 1)], |sent| - |queue| + (j + 1));
    }
    forall j | 0 <= j < |rest| && rest[j].op.Some?
      ensures rest[j].op.value.id !in gone && !Logged(after, rest[j].op.value.id)
    {
      assert rest[j] == queue[j + 1];
      assert InPlace(queue[j + 1], sent[|sent| - |queue| + (j + 1)], |sent| - |queue| + (j + 1));
      assert InPlace(queue[0], sent[|sent| - |queue| + 0], |sent| - |queue| + 0);
    }
    LogStaysOnce(log, head, gone, queue);
    forall id | 0 <= id < |sent| && sent[id].cap.Some? ensures Logged(after, id) || id in gone || Waiting(rest, id) {
      if !Logged(log, id) && id !in gone {
        var j :| 0 <= j < |queue| && Holds(queue[j], id);
        if j > 0 {
          assert rest[j - 1] == queue[j];
        }
      }
    }
  }

  lemma {:induction false} LogStaysOnce(log: seq<Completion>, s: Settled, gone: set<nat>, queue: seq<Entry>)
    requires forall i, j | 0 <= i < j < |log| :: log[i].id != log[j].id
    requires s.entry.Some? && s.entry.value.op.Some? ==> !Logged(log, s.entry.value.op.value.id)
    ensures var after := Complete(log, s); forall i, j | 0 <= i < j < |after| :: after[i].id != after[j].id
  {}

  // Without handlers, settling is taking the head off the queue.
  lemma {:induction false} CalmSettles(env: Env, c: Conn)
    ensures forall outcome :: Settle(Calm(env), c, outcome) == Popped(c, outcome)
  {}

  lemma {:induction false} StepSettles(env: Env, c: Conn, b: Byte)
    ensures var d := Step(Calm(env), c, b);
            if Settles(c, d) then exists outcome :: d == Popped(c, outcome)
            else d.queue == c.queue && d.settled == c.settled && d.sent == c.sent
  {
    CalmSettles(env, c);
    hide Settle;
    var d := Step(Calm(env), c, b);
    if Settles(c, d) {
      assert d == Popped(c, d.settled[|c.settled|].outcome);
    }
  }

  lemma {:induction false} ReceiveKeeps(s: State, b: Byte, env: Env)
    requires Inv(s) && Enabled(s, Receive(b, env))
    ensures Inv(Apply(s, Receive(b, env)))
  {
    hide Step, Kept, Calm;
    var d := Step(Calm(env), s.conn, b);
    StepSettles(env, s.conn, b);
    if Settles(s.conn, d) {
      var outcome :| d == Popped(s.conn, outcome);
      if s.conn.queue != [] {
        PopKeeps(s.conn.queue, s.sent, s.log, s.gone, outcome);
      }
    }
  }

  lemma {:induction false} SendOneKeeps(queue: seq<Entry>, sent: seq<Command>, log: seq<Completion>, gone: set<nat>,
                                        command: Command)
    requires Kept(queue, sent, log, gone) && KnownIds(log, gone, |sent|)
    ensures Kept(queue + [EntryOf(|sent|, command)], sent + [command], log, gone)
    ensures KnownIds(log, gone, |sent| + 1)
  {
    SendInOrder(queue, sent, command);
    SendAccounted(queue, sent, log, gone, command);
    assert Once(queue + [EntryOf(|sent|, command)], log, gone);
  }

  lemma {:induction false} SendKeeps(s: State, command: Command)
    requires Inv(s) && Known(s) && Enabled(s, Send(command))
    ensures Inv(Apply(s, Send(command)))
  {
    hide Kept;
    SendOneKeeps(s.conn.queue, s.sent, s.log, s.gone, command);
  }

  lemma {:induction false} SendInOrder(queue: seq<Entry>, sent: seq<Command>, command: Command)
    requires InOrder(queue, sent)
    ensures InOrder(queue + [EntryOf(|sent|, command)], sent + [command])
  {
    var after, sent' := queue + [EntryOf(|sent|, command)], sent + [command];
    forall j | 0 <= j < |after| ensures InPlace(after[j], sent'[|sent'| - |after| + j], |sent'| - |after| + j) {
      if j < |queue| {
        assert InPlace(queue[j], sent[|sent| - |queue| + j], |sent| - |queue| + j);
      }
    }
  }

  lemma {:induction false} SendAccounted(queue: seq<Entry>, sent: seq<Command>, log: seq<Completion>, gone: set<nat>,
                                         command: Command)
    requires Accounted(queue, sent, log, gone)
    ensures Accounted(queue + [EntryOf(|sent|, command)], sent + [command], log, gone)
  {
    var after, sent' := queue + [EntryOf(|sent|, command)], sent + [command];
    forall id | 0 <= id < |sent'| && sent'[id].cap.Some? ensures Logged(log, id) || id in gone || Waiting(after, id) {
      if id < |sent| {
        assert sent[id] == sent'[id];
        if Waiting(queue, id) {
          var j :| 0 <= j < |queue| && Holds(queue[j], id);
          assert Holds(after[j], id);
        }
      } else {
        assert Holds(after[|queue|], id);
      }
    }
  }

  lemma {:induction false} TimeoutKeeps(s: State, i: nat)
    requires Inv(s) && Enabled(s, Timeout(i))
    ensures Inv(Apply(s, Timeout(i)))
  {
    var after := s.conn.queue[i := s.conn.queue[i].(op := None)];
    var log := Complete(s.log, Settled(Some(s.conn.queue[i]), Error));
    GiveUpOnce(s.conn.queue, s.sent, s.log, s.gone, i);
    GiveUpAccounted(s.conn.queue, s.sent, s.log, s.gone, i);
    GiveUpInOrder(s.conn.queue, s.sent, i);
    assert Kept(after, s.sent, log, s.gone);
    hide Kept;
  }

  lemma {:induction false} GiveUpInOrder(queue: seq<Entry>, sent: seq<Command>, i: nat)
    requires InOrder(queue, sent) && i < |queue|
    ensures InOrder(queue[i := queue[i].(op := None)], sent)
  {}

  lemma {:induction false} GiveUpOnce(queue: seq<Entry>, sent: seq<Command>, log: seq<Completion>, gone: set<nat>,
                                      i: nat)
    requires InOrder(queue, sent) && Once(queue, log, gone) && i < |queue| && queue[i].op.Some?
    ensures Once(queue[i := queue[i].(op := None)], Complete(log, Settled(Some(queue[i]), Error)), gone)
  {
    CompleteLogs(log, Settled(Some(queue[i]), Error));
    LogStaysOnce(log, Settled(Some(queue[i]), Error), gone, queue);
    Places(queue, sent);
    hide Logged, InOrder;
  }

  lemma {:induction false} GiveUpAccounted(queue: seq<Entry>, sent: seq<Command>, log: seq<Completion>,
                                           gone: set<nat>, i: nat)
    requires Accounted(queue, sent, log, gone) && i < |queue|
    ensures Accounted(queue[i := queue[i].(op := None)], sent, Complete(log, Settled(Some(queue[i]), Error)), gone)
  {
    var after, log' := queue[i := queue[i].(op := None)], Complete(log, Settled(Some(queue[i]), Error));
    CompleteLogs(log, Settled(Some(queue[i]), Error));
    hide Logged;
    forall id | 0 <= id < |sent| && sent[id].cap.Some? ensures Logged(log', id) || id in gone || Waiting(after, id) {
      if !Logged(log', id) && id !in gone {
        var j :| 0 <= j < |queue| && Holds(queue[j], id);
        assert Holds(after[j], id);
      }
    }
  }

  lemma {:induction false} Places(queue: seq<Entry>, sent: seq<Command>)
    requires InOrder(queue, sent)
    ensures forall j | 0 <= j < |queue| && queue[j].op.Some? :: queue[j].op.value.id == |sent| - |queue| + j
  {
    forall j | 0 <= j < |queue| && queue[j].op.Some? ensures queue[j].op.value.id == |sent| - |queue| + j {
      assert InPlace(queue[j], sent[|sent| - |queue| + j], |sent| - |queue| + j);
    }
  }

  lemma {:induction false} PoolGoneKeeps(s: State, id: nat)
    requires Inv(s) && Enabled(s, PoolGone(id))
    ensures Inv(Apply(s, PoolGone(id)))
  {
    var queue, t := s.conn.queue, Apply(s, PoolGone(id));
    var after := t.conn.queue;
    forall j | 0 <= j < |after| ensures InPlace(after[j], t.sent[|t.sent| - |after| + j], |t.sent| - |after| + j) {
      assert InPlace(queue[j], s.sent[|s.sent| - |queue| + j], |s.sent| - |queue| + j);
    }
    forall other | 0 <= other < |s.sent| && s.sent[other].cap.Some?
      ensures Logged(t.log, other) || other in t.gone || Waiting(after, other)
    {
      if Waiting(queue, other) && other != id {
        var j :| 0 <= j < |queue| && Holds(queue[j], other);
        assert Holds(after[j], other);
      }
    }
  }

  // Only what was sent is ever completed or loses its pool.
  ghost predicate Known(s: State) { KnownIds(s.log, s.gone, |s.sent|) }

  ghost predicate KnownIds(log: seq<Completion>, gone: set<nat>, n: nat) {
    && (forall i | 0 <= i < |log| :: log[i].id < n)
    && (forall id | id in gone :: id < n)
  }

  lemma {:induction false} NextKnown(s: State, e: Event)
    requires Inv(s) && Known(s) && Enabled(s, e)
    ensures Known(Apply(s, e))
  {
    Places(s.conn.queue, s.sent);
    match e
    case Send(_) =>
    case Receive(b, env) =>
      hide Step, Kept, Calm;
      StepSettles(env, s.conn, b);
    case _ =>
  }

  lemma {:induction false} NextKeeps(s: State, e: Event)
    requires Inv(s) && Known(s) && Enabled(s, e)
    ensures Inv(Apply(s, e)) && Known(Apply(s, e))
  {
    hide Kept;
    NextKnown(s, e);
    match e
    case Send(command) => SendKeeps(s, command);
    case Receive(b, env) => ReceiveKeeps(s, b, env);
    case Timeout(i) => TimeoutKeeps(s, i);
    case PoolGone(id) => PoolGoneKeeps(s, id);
    case Drop =>
    case Fail => PopKeeps(s.conn.queue, s.sent, s.log, s.gone, Error);
    case Connect =>
  }

  lemma {:induction false} RunsKeep(run: seq<State>, events: seq<Event>, i: nat)
    requires IsRun(run, events) && i < |run|
    ensures Inv(run[i]) && Known(run[i])
  {
    if i > 0 {
      RunsKeep(run, events, i - 1);
      NextKeeps(run[i - 1], events[i - 1]);
    }
  }

  // ---------------------------------------------------------------------------
  // Main results: completions
  // ---------------------------------------------------------------------------

  // In every run each operation's handler runs at most once, and inflight counts the queue.
  lemma {:induction false} CompletesAtMostOnce(run: seq<State>, events: seq<Event>, i: nat)
    requires IsRun(run, events) && i < |run|
    ensures forall a, b | 0 <= a < b < |run[i].log| :: run[i].log[a].id != run[i].log[b].id
    ensures run[i].inflight == |run[i].conn.queue|
  {
    RunsKeep(run, events, i);
  }

  // A handler only ever runs for an operation that still waits, and never once its pool is gone.
  lemma {:induction false} NeverAfterPoolGone(run: seq<State>, events: seq<Event>, i: nat)
    requires IsRun(run, events) && i < |events|
    ensures var log, after := run[i].log, run[i + 1].log;
            && |log| <= |after| && after[..|log|] == log
            && forall k | |log| <= k < |after| :: Waiting(run[i].conn.queue, after[k].id) && after[k].id !in run[i].gone
  {
    RunsKeep(run, events, i);
    var s, e := run[i], events[i];
    if e.Receive? {
      hide Step, Calm;
      StepSettles(e.env, s.conn, e.b);
    }
    var after := run[i + 1].log;
    forall k | |s.log| <= k < |after| ensures Waiting(s.conn.queue, after[k].id) && after[k].id !in s.gone {
      if e.Timeout? {
        assert Holds(s.conn.queue[e.i], after[k].id);
      } else {
        assert Holds(s.conn.queue[0], after[k].id);
      }
    }
  }

  // While a connection is lost its entries only become fewer, one with each failure. When none is
  // left nothing is in flight, and every operation sent so far completed (once, as above) unless its
  // pool is gone, be it between two failures.
  lemma {:induction false} DrainedExactlyOnce(run: seq<State>, events: seq<Event>, i: nat)
    requires IsRun(run, events) && i < |run| && run[i].lost
    ensures var s := run[i];
            s.conn.queue == [] ==>
              && s.inflight == 0
              && forall id | 0 <= id < |s.sent| && s.sent[id].cap.Some? :: Logged(s.log, id) || id in s.gone
    ensures i < |events| ==>
              && run[i + 1].sent == run[i].sent
              && |run[i + 1].conn.queue| == |run[i].conn.queue| - if events[i].Fail? then 1 else 0
  {
    RunsKeep(run, events, i);
    var s := run[i];
    if s.conn.queue == [] {
      forall id | 0 <= id < |s.sent| && s.sent[id].cap.Some? ensures Logged(s.log, id) || id in s.gone {
        assert !Waiting(s.conn.queue, id);
      }
    }
  }

  // ---------------------------------------------------------------------------
  // Replies and commands
  // ---------------------------------------------------------------------------

  // The server starts a reply only while some command is unanswered.
  ghost predicate Solicited(run: seq<State>, events: seq<Event>) {
    |run| == |events| + 1
    && forall i | 0 <= i < |events| && events[i].Receive? && run[i].conn.mode == Lines([]) :: run[i].conn.queue != []
  }

  ghost predicate Plenty(e: Event) {
    e.Receive? ==> forall k: nat :: e.env.buffer(k) && e.env.copy(k)
  }

  // What a reply means to the operation that asked.
  function Reply(f: Frame, bulk: bool, cap: nat): Outcome {
    if f.line == [] then Error
    else if f.line[0] == PLUS || f.line[0] == COLON then Ok
    else if f.line[0] == DOLLAR then
      if !bulk then Ok
      else if Announced(f.line).None? then Declined
      else if Announced(f.line).value > cap || |f.body| < Announced(f.line).value then Error
      else Data(f.body[..Announced(f.line).value])
    else Error
  }

  // The i-th reply took the i-th command off the queue; if its operation still waited, it got
  // what the reply means, or an error for want of memory.
  ghost predicate Answered(x: Settled, command: Command, id: nat, f: Frame, plenty: bool) {
    && x.entry.Some? && InPlace(x.entry.value, command, id)
    && (x.entry.value.op.Some? ==>
          || x.outcome == Reply(f, command.bulk, command.cap.value)
          || (!plenty && x.outcome == Error && command.bulk))
  }

  ghost predicate HeadIs(s: State) {
    && 0 < |s.conn.queue| <= |s.sent|
    && InPlace(s.conn.queue[0], s.sent[|s.sent| - |s.conn.queue|], |s.sent| - |s.conn.queue|)
  }

  // The parser's mode agrees with the frame being received and the head of the queue.
  ghost predicate InStep(s: State, plenty: bool)
    requires |s.conn.queue| <= |s.sent|
  {
    var f := s.framing;
    match s.conn.mode
    case Broken => |f.frames| >= |s.conn.settled|
    case Lines(line) =>
      && |f.frames| == |s.conn.settled| && !f.inBody && f.line == line && f.body == []
      && (line != [] ==> HeadIs(s))
    case Skip(n, err) =>
      && |f.frames| == |s.conn.settled| && f.inBody && n > 0 && Need(f.line) == n + |f.body|
      && HeadIs(s) && err == s.conn.queue[0].bulk
      && (plenty && err && s.conn.queue[0].op.Some? ==> Announced(f.line).value > s.conn.queue[0].op.value.cap)
    case Bulk(need, size, got) =>
      && |f.frames| == |s.conn.settled| && f.inBody && need > 0 && Need(f.line) == need + |f.body| == size + 2
      && HeadIs(s) && s.conn.queue[0].bulk && got == Take([], size, f.body)
      && (s.conn.queue[0].op.Some? ==> size <= s.conn.queue[0].op.value.cap)
  }

  ghost predicate Matched(s: State, plenty: bool) {
    && InOrder(s.conn.queue, s.sent)
    && (if s.lost then s.base + |s.conn.settled| + |s.conn.queue| <= |s.sent|
        else s.base + |s.conn.settled| + |s.conn.queue| == |s.sent|)
    && |s.conn.settled| <= |s.framing.frames|
    && (forall i | 0 <= i < |s.conn.settled| ::
          Answered(s.conn.settled[i], s.sent[s.base + i], s.base + i, s.framing.frames[i], plenty))
    && (!s.lost ==> InStep(s, plenty))
  }

  lemma {:induction false} HeadFirst(s: State)
    requires InOrder(s.conn.queue, s.sent) && s.conn.queue != []
    ensures HeadIs(s)
  {
    assert InPlace(s.conn.queue[0], s.sent[|s.sent| - |s.conn.queue| + 0], |s.sent| - |s.conn.queue| + 0);
  }

  // A whole frame has arrived, and settles the head with outcome.
  lemma {:induction false} SettleMatches(s: State, t: State, f: Frame, outcome: Outcome, plenty: bool)
    requires Matched(s, plenty) && HeadIs(s) && InOrder(t.conn.queue, t.sent) && !s.lost && !t.lost
    requires t.conn == Popped(s.conn, outcome) && t.sent == s.sent && t.base == s.base
    requires t.framing == Framing(s.framing.frames + [f], [], false, []) && |s.framing.frames| == |s.conn.settled|
    requires s.conn.queue[0].op.Some? ==>
               || outcome == Reply(f, s.conn.queue[0].bulk, s.conn.queue[0].op.value.cap)
               || (!plenty && outcome == Error && s.conn.queue[0].bulk)
    ensures Matched(t, plenty)
  {
    var n := |s.conn.settled|;
    forall i | 0 <= i < |t.conn.settled|
      ensures Answered(t.conn.settled[i], t.sent[t.base + i], t.base + i, t.framing.frames[i], plenty)
    {
      if i < n {
        assert t.conn.settled[i] == s.conn.settled[i] && t.framing.frames[i] == s.framing.frames[i];
      }
    }
  }

  lemma {:induction false} SkipMatches(s: State, t: State, b: Byte, env: Env, plenty: bool)
    requires Matched(s, plenty) && s.conn.mode.Skip? && InOrder(t.conn.queue, t.sent) && !s.lost && !t.lost
    requires t.conn == Step(Calm(env), s.conn, b) && t.framing == Cut(s.framing, b) && t.sent == s.sent
    requires t.base == s.base
    ensures Matched(t, plenty)
  {
    var f, err := s.framing, s.conn.mode.err;
    assert f.line != [] && f.line[0] == DOLLAR && Announced(f.line).Some?;
    if s.conn.mode.n == 1 {
      SettleMatches(s, t, Frame(f.line, f.body + [b]), if err then Error else Ok, plenty);
    } else {
      assert t.conn == s.conn.(mode := Skip(s.conn.mode.n - 1, err));
      assert t.framing == f.(body := f.body + [b]);
    }
  }

  lemma {:induction false} BulkMatches(s: State, t: State, b: Byte, env: Env, plenty: bool)
    requires Matched(s, plenty) && s.conn.mode.Bulk? && InOrder(t.conn.queue, t.sent) && !s.lost && !t.lost
    requires plenty ==> forall k: nat :: env.copy(k)
    requires t.conn == Step(Calm(env), s.conn, b) && t.framing == Cut(s.framing, b) && t.sent == s.sent
    requires t.base == s.base
    ensures Matched(t, plenty)
  {
    var m := s.conn.mode;
    var got := if |m.got| < m.size then m.got + [b] else m.got;
    assert InStep(s, plenty);
    BulkShape(s.conn, s.framing, b, env);
    TakeMore(m.size, s.framing.body, b);
    hide Matched, InOrder, Step, Cut, Need, Take, HeadIs;
    if m.need == 1 {
      BulkEnds(s, t, b, env, got, plenty);
    } else {
      BulkGoesOn(s, t, b, got, plenty);
    }
  }

  lemma {:induction false} BulkShape(c: Conn, f: Framing, b: Byte, env: Env)
    requires c.mode.Bulk? && f.inBody && Need(f.line) == c.mode.need + |f.body|
    ensures var m := c.mode;
            var got := if |m.got| < m.size then m.got + [b] else m.got;
            if m.need <= 1
            then Step(Calm(env), c, b) == Popped(c, Delivered(env, c, got))
                 && Cut(f, b) == Framing(f.frames + [Frame(f.line, f.body + [b])], [], false, [])
            else Step(Calm(env), c, b) == c.(mode := Bulk(m.need - 1, m.size, got))
                 && Cut(f, b) == f.(body := f.body + [b])
  {}

  lemma {:induction false} BulkGoesOn(s: State, t: State, b: Byte, got: seq<Byte>, plenty: bool)
    requires Matched(s, plenty) && s.conn.mode.Bulk? && s.conn.mode.need > 1 && InOrder(t.conn.queue, t.sent)
    requires !s.lost && !t.lost
    requires got == Take([], s.conn.mode.size, s.framing.body + [b])
    requires t.conn == s.conn.(mode := Bulk(s.conn.mode.need - 1, s.conn.mode.size, got))
    requires t.framing == s.framing.(body := s.framing.body + [b]) && t.sent == s.sent && t.base == s.base
    ensures Matched(t, plenty)
  {
    hide Take, Announced, Answered, Reply, Need;
  }

  lemma {:induction false} BulkEnds(s: State, t: State, b: Byte, env: Env, got: seq<Byte>, plenty: bool)
    requires Matched(s, plenty) && s.conn.mode.Bulk? && s.conn.mode.need == 1 && InOrder(t.conn.queue, t.sent)
    requires !s.lost && !t.lost
    requires plenty ==> env.copy(|s.conn.settled|)
    requires got == Take([], s.conn.mode.size, s.framing.body + [b])
    requires t.conn == Popped(s.conn, Delivered(env, s.conn, got)) && t.sent == s.sent && t.base == s.base
    requires t.framing == Framing(s.framing.frames + [Frame(s.framing.line, s.framing.body + [b])], [], false, [])
    ensures Matched(t, plenty)
  {
    var f := Frame(s.framing.line, s.framing.body + [b]);
    assert f.line != [] && f.line[0] == DOLLAR && Announced(f.line) == Some(s.conn.mode.size);
    BulkReply(f, s.conn.mode.size, s.conn.queue[0]);
    hide Take, Announced, Answered, Reply, Settle;
    SettleMatches(s, t, f, Delivered(env, s.conn, got), plenty);
  }

  lemma {:induction false} TakeMore(size: nat, body: seq<Byte>, b: Byte)
    ensures var got := Take([], size, body);
            Take([], size, body + [b]) == if |got| < size then got + [b] else got
  {}

  lemma {:induction false} BulkReply(f: Frame, size: nat, e: Entry)
    requires f.line != [] && f.line[0] == DOLLAR && Announced(f.line) == Some(size) && |f.body| == size + 2
    requires e.bulk && (e.op.Some? ==> size <= e.op.value.cap)
    ensures e.op.Some? ==> Reply(f, e.bulk, e.op.value.cap) == Data(Take([], size, f.body))
  {
    if size > 0 {
      assert [] + f.body[..size] == f.body[..size];
    }
  }

  lemma {:induction false} LineMatches(s: State, t: State, b: Byte, env: Env, plenty: bool)
    requires Matched(s, plenty) && s.conn.mode.Lines? && InOrder(t.conn.queue, t.sent) && s.conn.queue != []
    requires !s.lost && !t.lost
    requires plenty ==> forall k: nat :: env.buffer(k)
    requires t.conn == Step(Calm(env), s.conn, b) && t.framing == Cut(s.framing, b) && t.sent == s.sent
    requires t.base == s.base
    ensures Matched(t, plenty)
  {
    HeadFirst(s);
    var line := s.conn.mode.line;
    if b != LF {
      assert t.framing == s.framing.(line := line + [b]);
      assert HeadIs(t);
    } else if line == [] || line[0] !in {PLUS, COLON, MINUS, DOLLAR} {
      assert t.conn == s.conn.(mode := Broken);
      BrokenMatches(s, t, plenty);
    } else if line[0] != DOLLAR {
      SettleMatches(s, t, Frame(line, []), if line[0] == MINUS then Error else Ok, plenty);
    } else {
      HeaderMatches(s, t, env, plenty);
    }
  }

  lemma {:induction false} BrokenMatches(s: State, t: State, plenty: bool)
    requires Matched(s, plenty) && t.conn == s.conn.(mode := Broken) && t.sent == s.sent && t.base == s.base
    requires !s.lost && !t.lost
    requires |t.framing.frames| >= |s.framing.frames| && t.framing.frames[..|s.framing.frames|] == s.framing.frames
    ensures Matched(t, plenty)
  {
    forall i | 0 <= i < |t.conn.settled|
      ensures Answered(t.conn.settled[i], t.sent[t.base + i], t.base + i, t.framing.frames[i], plenty)
    {
      assert t.framing.frames[i] == t.framing.frames[..|s.framing.frames|][i];
    }
  }

  lemma {:induction false} HeaderMatches(s: State, t: State, env: Env, plenty: bool)
    requires Matched(s, plenty) && s.conn.mode.Lines? && InOrder(t.conn.queue, t.sent) && HeadIs(s)
    requires !s.lost && !t.lost
    requires plenty ==> forall k: nat :: env.buffer(k)
    requires s.conn.mode.line != [] && s.conn.mode.line[0] == DOLLAR
    requires t.conn == OnBulk(Calm(env), s.conn, Announced(s.conn.mode.line))
    requires t.framing == Cut(s.framing, LF) && t.sent == s.sent && t.base == s.base
    ensures Matched(t, plenty)
  {
    var line := s.conn.mode.line;
    if Announced(line).None? {
      SettleMatches(s, t, Frame(line, []), if s.conn.queue[0].bulk then Declined else Ok, plenty);
    } else {
      assert t.framing == s.framing.(inBody := true);
      assert t.conn.queue == s.conn.queue && t.conn.settled == s.conn.settled;
      assert HeadIs(t);
    }
  }

  lemma {:induction false} ReceiveMatches(s: State, b: Byte, env: Env, plenty: bool)
    requires Inv(s) && Known(s) && Matched(s, plenty) && Enabled(s, Receive(b, env))
    requires s.conn.mode == Lines([]) ==> s.conn.queue != []
    requires plenty ==> forall k: nat :: env.buffer(k) && env.copy(k)
    ensures Matched(Apply(s, Receive(b, env)), plenty)
  {
    var t := Apply(s, Receive(b, env));
    ReceiveKeeps(s, b, env);
    match s.conn.mode
    case Skip(_, _) => SkipMatches(s, t, b, env, plenty);
    case Bulk(_, _, _) => BulkMatches(s, t, b, env, plenty);
    case Lines(_) => LineMatches(s, t, b, env, plenty);
  }

  // Only the queue changes, and in it only operations that give up or come last.
  lemma {:induction false} QueueMatches(s: State, t: State, plenty: bool)
    requires Matched(s, plenty) && InOrder(t.conn.queue, t.sent)
    requires t.conn.mode == s.conn.mode && t.conn.settled == s.conn.settled && t.framing == s.framing
    requires t.base == s.base
    requires t.lost == s.lost
    requires |t.sent| - |t.conn.queue| == |s.sent| - |s.conn.queue| && s.sent <= t.sent
    requires s.conn.queue != [] ==>
               && t.conn.queue != []
               && (t.conn.queue[0] == s.conn.queue[0] || t.conn.queue[0] == s.conn.queue[0].(op := None))
    ensures Matched(t, plenty)
  {
    forall i | 0 <= i < |t.conn.settled|
      ensures Answered(t.conn.settled[i], t.sent[t.base + i], t.base + i, t.framing.frames[i], plenty)
    {
      assert t.sent[t.base + i] == s.sent[s.base + i];
    }
    if t.conn.queue != [] {
      HeadFirst(t);
    }
  }

  lemma {:induction false} NextMatches(s: State, e: Event, plenty: bool)
    requires Inv(s) && Known(s) && Matched(s, plenty) && Enabled(s, e)
    requires e.Receive? && s.conn.mode == Lines([]) ==> s.conn.queue != []
    requires plenty ==> Plenty(e)
    ensures Matched(Apply(s, e), plenty)
  {
    NextKeeps(s, e);
    hide Kept, Known, Matched, InStep;
    var t := Apply(s, e);
    match e
    case Receive(b, env) => ReceiveMatches(s, b, env, plenty);
    case Send(_) => KeptInOrder(t); QueueMatches(s, t, plenty);
    case Timeout(_) => KeptInOrder(t); QueueMatches(s, t, plenty);
    case PoolGone(_) => KeptInOrder(t); QueueMatches(s, t, plenty);
    case Drop => LostMatches(s, t, plenty);
    case Fail => KeptInOrder(t); LostMatches(s, t, plenty);
    case Connect => FreshMatches(t, plenty);
  }

  // What was settled before the link was lost stays as it is.
  lemma {:induction false} LostMatches(s: State, t: State, plenty: bool)
    requires Matched(s, plenty) && t.lost && InOrder(t.conn.queue, t.sent) && |t.conn.queue| <= |s.conn.queue|
    requires t.conn.settled == s.conn.settled && t.sent == s.sent && t.base == s.base && t.framing == s.framing
    ensures Matched(t, plenty)
  {
    hide Answered, InStep, InOrder;
  }

  lemma {:induction false} KeptInOrder(s: State)
    requires Inv(s)
    ensures InOrder(s.conn.queue, s.sent)
  {}

  lemma {:induction false} FreshMatches(s: State, plenty: bool)
    requires s.conn.queue == [] && s.conn.mode == Lines([]) && s.conn.settled == []
    requires s.base == |s.sent| && s.framing == Framing([], [], false, [])
    ensures Matched(s, plenty)
  {}

  lemma {:induction false} RunsMatch(run: seq<State>, events: seq<Event>, i: nat, plenty: bool)
    requires IsRun(run, events) && Solicited(run, events) && i < |run|
    requires plenty ==> forall k | 0 <= k < |events| :: Plenty(events[k])
    ensures Matched(run[i], plenty)
  {
    if i == 0 {
      FreshMatches(run[0], plenty);
    } else {
      RunsMatch(run, events, i - 1, plenty);
      RunsKeep(run, events, i - 1);
      NextMatches(run[i - 1], events[i - 1], plenty);
    }
  }

  // ---------------------------------------------------------------------------
  // Main results: replies
  // ---------------------------------------------------------------------------

  // However bytes interleave with new commands, timeouts and pools going away, the i-th reply of a
  // connection settles the i-th command sent on it; an operation that still waits gets exactly
  // what that reply says.
  lemma {:induction false} RepliesMatchCommands(run: seq<State>, events: seq<Event>, i: nat)
    requires IsRun(run, events) && Solicited(run, events) && i < |run|
    requires forall k | 0 <= k < |events| :: Plenty(events[k])
    ensures var s := run[i];
            && |s.conn.settled| <= |s.framing.frames|
            && s.base + |s.conn.settled| + |s.conn.queue| <= |s.sent|
            && (!s.lost ==> s.base + |s.conn.settled| + |s.conn.queue| == |s.sent|)
            && forall k | 0 <= k < |s.conn.settled| ::
                 var x, command := s.conn.settled[k], s.sent[s.base + k];
                 && x.entry.Some? && InPlace(x.entry.value, command, s.base + k)
                 && (x.entry.value.op.Some? ==>
                       x.outcome == Reply(s.framing.frames[k], command.bulk, command.cap.value))
  {
    RunsMatch(run, events, i, true);
    var s := run[i];
    forall k | 0 <= k < |s.conn.settled|
      ensures var x, command := s.conn.settled[k], s.sent[s.base + k];
              && x.entry.Some? && InPlace(x.entry.value, command, s.base + k)
              && (x.entry.value.op.Some? ==> x.outcome == Reply(s.framing.frames[k], command.bulk, command.cap.value))
    {
      assert Answered(s.conn.settled[k], s.sent[s.base + k], s.base + k, s.framing.frames[k], true);
    }
  }

  // The bytes received on the current connection.
  ghost function Received(events: seq<Event>): seq<Byte> {
    if events == [] then []
    else
      var n := |events| - 1;
      match events[n]
      case Connect => []
      case Receive(b, _) => Received(events[..n]) + [b]
      case _ => Received(events[..n])
  }

  // The frames are those of the bytes received, in order, nothing added and nothing lost.
  lemma {:induction false} FramesAreTheBytes(run: seq<State>, events: seq<Event>, i: nat)
    requires IsRun(run, events) && i < |run|
    ensures Spells(run[i].framing, Received(events[..i]))
  {
    if i == 0 {
      assert Texts([]) == [];
    } else {
      FramesAreTheBytes(run, events, i - 1);
      assert events[..i][..i - 1] == events[..i - 1] && events[..i][i - 1] == events[i - 1];
      match events[i - 1]
      case Receive(b, _) => CutSpells(run[i - 1].framing, b, Received(events[..i - 1]));
      case Connect => assert Texts([]) == [];
      case _ =>
    }
  }

  // ---------------------------------------------------------------------------
  // The parser's part in a run
  // ---------------------------------------------------------------------------

  // What a byte does is what it does without handlers, and then what the handler does.
  lemma {:induction false} HandlerLast(env: Env, c: Conn, b: Byte)
    ensures var d := Step(Calm(env), c, b);
            Step(env, c, b) == if Settles(c, d) then ActAll(d, Reaction(env, c.queue, |c.settled|)) else d
  {
    CalmSettles(env, c);
    CalmDelivers(env, c);
    hide Reaction, ActAll, Calm;
  }

  lemma {:induction false} CalmDelivers(env: Env, c: Conn)
    ensures Calm(env).buffer == env.buffer
    ensures forall bytes :: Delivered(Calm(env), c, bytes) == Delivered(env, c, bytes)
  {}

  ghost predicate ByParser(e: Event) { e.Receive? || e.Send? || e.PoolGone? }

  // What a handler does is a run of events.
  lemma {:induction false} ActsAreEvents(run: seq<State>, events: seq<Event>, acts: seq<Act>)
    returns (run': seq<State>, events': seq<Event>)
    requires IsRun(run, events) && !run[|events|].lost && !run[|events|].conn.mode.Broken?
    ensures IsRun(run', events') && run <= run' && events <= events'
    ensures run'[|events'|].conn == ActAll(run[|events|].conn, acts) && !run'[|events'|].lost
    ensures forall i | |events| <= i < |events'| :: ByParser(events'[i])
    decreases |acts|
  {
    if acts == [] {
      run', events' := run, events;
    } else {
      var s := run[|events|];
      var e := if acts[0].Issued? then Send(acts[0].command) else PoolGone(acts[0].id);
      RunsKeep(run, events, |events|);
      hide Inv;
      if acts[0].Freed? && acts[0].id >= |s.sent| {
        NotThere(s, acts[0].id);
        run', events' := ActsAreEvents(run, events, acts[1..]);
      } else {
        Extends(run, events, e);
        SentCount(s);
        assert Apply(s, e).conn == ActOn(s.conn, acts[0]);
        hide IsRun, ActOn;
        run', events' := ActsAreEvents(run + [Apply(s, e)], events + [e], acts[1..]);
      }
    }
  }

  lemma {:induction false} SentCount(s: State)
    requires Inv(s)
    ensures s.conn.sent == |s.sent|
  {}

  lemma {:induction false} NotThere(s: State, id: nat)
    requires Inv(s) && id >= |s.sent|
    ensures DetachAll(s.conn.queue, id) == s.conn.queue
  {
    Places(s.conn.queue, s.sent);
  }

  // What the parser does with the bytes of an arrival, handlers included, is to take them one by one
  // with the handlers' acts in between: so Resp.Connection.Receive ends where some run ends.
  lemma {:induction false} ParsingIsRunning(run: seq<State>, events: seq<Event>, env: Env, bytes: seq<Byte>)
    returns (run': seq<State>, events': seq<Event>)
    requires IsRun(run, events) && !run[|events|].lost
    ensures IsRun(run', events') && run <= run' && events <= events'
    ensures run'[|events'|].conn == Run(env, run[|events|].conn, bytes)
    ensures forall i | |events| <= i < |events'| :: ByParser(events'[i])
    decreases |bytes|
  {
    hide Step;
    var s := run[|events|];
    if bytes == [] {
      run', events' := run, events;
      RunNone(env, s.conn);
    } else if s.conn.mode.Broken? {
      run', events' := run, events;
      BrokenIgnores(env, s.conn, bytes);
    } else {
      var run1, events1 := ByteIsRun(run, events, env, bytes[0]);
      RunFirst(env, s.conn, bytes);
      hide IsRun, Run;
      run', events' := ParsingIsRunning(run1, events1, env, bytes[1..]);
    }
  }

  lemma {:induction false} ByteIsRun(run: seq<State>, events: seq<Event>, env: Env, b: Byte)
    returns (run': seq<State>, events': seq<Event>)
    requires IsRun(run, events) && !run[|events|].lost && !run[|events|].conn.mode.Broken?
    ensures IsRun(run', events') && run <= run' && events <= events'
    ensures run'[|events'|].conn == Step(env, run[|events|].conn, b) && !run'[|events'|].lost
    ensures forall i | |events| <= i < |events'| :: ByParser(events'[i])
  {
    hide Step, Calm, ActAll;
    var s, e := run[|events|], Receive(b, env);
    HandlerLast(env, s.conn, b);
    StepSettles(env, s.conn, b);
    Extends(run, events, e);
    run', events' := run + [Apply(s, e)], events + [e];
    if Settles(s.conn, Step(Calm(env), s.conn, b)) {
      hide IsRun;
      run', events' := ActsAreEvents(run', events', Reaction(env, s.conn.queue, |s.conn.settled|));
    }
  }

  lemma {:induction false} Extends(run: seq<State>, events: seq<Event>, e: Event)
    requires IsRun(run, events) && Enabled(run[|events|], e)
    ensures IsRun(run + [Apply(run[|events|], e)], events + [e])
  {
    var next, run', events' := Apply(run[|events|], e), run + [Apply(run[|events|], e)], events + [e];
    forall i | 0 <= i < |events'| ensures Enabled(run'[i], events'[i]) && run'[i + 1] == Apply(run'[i], events'[i]) {
      if i < |events| {
        assert run'[i] == run[i] && run'[i + 1] == run[i + 1];
      }
    }
  }

  // ---------------------------------------------------------------------------
  // store_call and store_done
  // ---------------------------------------------------------------------------

  // An operation as ngx_http_waf_store_call leaves it to a driver.
  datatype Call = Call(inCall: bool, done: bool, completed: nat)

  const CALLING := Call(true, false, 0)

  // ngx_http_waf_store_done, the handler a driver runs
  function StoreDone(c: Call): Call {
    if c.done then c
    else if c.inCall then c.(done := true)
    else c.(done := true, completed := c.completed + 1)
  }

  // The end of ngx_http_waf_store_call: whether the operation goes on, and its state.
  function CallReturns(c: Call, again: bool): (r: (bool, Call)) {
    if again && !c.done then (true, c.(inCall := false)) else (false, c.(inCall := false, done := true))
  }

  function Handled(c: Call, times: nat): Call {
    if times == 0 then c else StoreDone(Handled(c, times - 1))
  }

  // Whatever a driver does - run the handler any number of times inside the call and after it - the
  // caller hears of the result exactly once: at once, or from one completion if it was told to wait.
  lemma {:induction false} HeardOnce(inside: nat, again: bool, after: nat)
    ensures var (waits, c) := CallReturns(Handled(CALLING, inside), again);
            && (waits <==> again && inside == 0)
            && Handled(c, after).completed == (if waits && after > 0 then 1 else 0)
            && Handled(c, after).done == (!waits || after > 0)
  {
    InsideCall(inside);
    var (waits, c) := CallReturns(Handled(CALLING, inside), again);
    AfterCall(c, after);
  }

  lemma {:induction false} InsideCall(n: nat)
    ensures Handled(CALLING, n) == Call(true, n > 0, 0)
  {
    if n > 0 {
      InsideCall(n - 1);
    }
  }

  lemma {:induction false} AfterCall(c: Call, n: nat)
    requires !c.inCall
    ensures Handled(c, n) == if n > 0 && !c.done then c.(done := true, completed := c.completed + 1) else c
  {
    if n > 0 {
      AfterCall(c, n - 1);
    }
  }
}
