/** Replies of the pipelined Redis connection: ngx_http_waf_redis_parse, entry_done, bulk_ready and
    drain of module/src/body/drv_redis.c, fed by the link's input buffer
    (module/src/net/ngx_http_waf_link.c).

    The specification takes one byte at a time; the parser takes whatever arrived.
 */
module Resp {
  import opened Bytes

  const IN_SIZE := 1024
  const CR: Byte := 0x0d
  const PLUS: Byte := 0x2b
  const COLON: Byte := 0x3a
  const MINUS: Byte := 0x2d
  const DOLLAR: Byte := 0x24

  // An operation waiting for its answer, and the most bytes a GET may bring it.
  datatype Op = Op(id: nat, cap: nat)

  // What was sent; op is gone once it timed out or its pool is gone. bulk for a GET.
  datatype Entry = Entry(bulk: bool, op: Option<Op>)

  datatype Outcome = Ok | Error | Declined | Data(bytes: seq<Byte>)

  datatype Settled = Settled(entry: Option<Entry>, outcome: Outcome)

  datatype Mode =
    | Lines(line: seq<Byte>)
    | Skip(n: nat, err: bool)
    | Bulk(need: nat, size: nat, got: seq<Byte>)
    | Broken

  // settled records, reply by reply, which entry was taken off the queue and with what; sent counts
  // the commands ever sent, which name the operations.
  datatype Conn = Conn(queue: seq<Entry>, mode: Mode, settled: seq<Settled>, sent: nat)

  // A command: bulk for a GET, cap the most bytes its operation takes, None without operation.
  datatype Command = Command(bulk: bool, cap: Option<nat>)

  // What a completion handler may do to the connection: send a command on it, or destroy the pool of
  // an operation, which ngx_http_waf_redis_detach then takes off its entry.
  datatype Act = Issued(command: Command) | Freed(id: nat)

  // Whether memory is to be had for the payload of the k-th reply, and for its copy in the pool; and
  // what the handler of the operation it settles does.
  datatype Env = Env(buffer: nat -> bool, copy: nat -> bool, react: nat -> seq<Act>)

  // ---------------------------------------------------------------------------
  // One byte at a time
  // ---------------------------------------------------------------------------

  // ngx_atoi
  function Atoi(t: seq<Byte>): Option<nat> {
    if t == [] || !Digits(t) then None
    else if Decimal(t) > MAX_INT then None
    else Some(Decimal(t))
  }

  function Trim(line: seq<Byte>): (t: seq<Byte>)
    ensures |t| <= |line| && t == line[..|t|]
  {
    if line != [] && line[|line| - 1] == CR then line[..|line| - 1] else line
  }

  function EntryOf(id: nat, command: Command): Entry {
    Entry(command.bulk, if command.cap.None? then None else Some(Op(id, command.cap.value)))
  }

  function Detach(e: Entry, id: nat): Entry {
    if e.op.Some? && e.op.value.id == id then e.(op := None) else e
  }

  function DetachAll(queue: seq<Entry>, id: nat): (after: seq<Entry>)
    ensures |after| == |queue|
  {
    seq(|queue|, j requires 0 <= j < |queue| => Detach(queue[j], id))
  }

  function ActOn(c: Conn, act: Act): Conn {
    match act
    case Issued(command) => c.(queue := c.queue + [EntryOf(c.sent, command)], sent := c.sent + 1)
    case Freed(id) => c.(queue := DetachAll(c.queue, id))
  }

  function ActAll(c: Conn, acts: seq<Act>): (d: Conn)
    ensures d.mode == c.mode && d.settled == c.settled
    decreases |acts|
  {
    if acts == [] then c else ActAll(ActOn(c, acts[0]), acts[1..])
  }

  // The handler runs only if the operation still waits.
  function Reaction(env: Env, queue: seq<Entry>, k: nat): seq<Act> {
    if queue != [] && queue[0].op.Some? then env.react(k) else []
  }

  // The head leaves the queue.
  function Popped(c: Conn, outcome: Outcome): Conn {
    if c.queue == [] then c.(mode := Lines([]), settled := c.settled + [Settled(None, outcome)])
    else Conn(c.queue[1..], Lines([]), c.settled + [Settled(Some(c.queue[0]), outcome)], c.sent)
  }

  // entry_done, or bulk_ready: the head leaves the queue, then its handler runs.
  function Settle(env: Env, c: Conn, outcome: Outcome): Conn {
    ActAll(Popped(c, outcome), Reaction(env, c.queue, |c.settled|))
  }

  // redis_drain: every entry fails, the first one first. The link is no longer ready, so a handler
  // can free operations that still wait, but not send.
  function Drained(env: Env, c: Conn): Conn
    decreases |c.queue|
  {
    if c.queue == [] then c.(mode := Lines([]))
    else Drained(env, FreeAll(Popped(c, Error), Reaction(env, c.queue, |c.settled|)))
  }

  function FreeAll(c: Conn, acts: seq<Act>): (d: Conn)
    ensures d == c.(queue := d.queue) && |d.queue| == |c.queue|
    ensures forall j | 0 <= j < |c.queue| :: GaveUp(d.queue[j], c.queue[j])
    decreases |acts|
  {
    if acts == [] then c else FreeAll(if acts[0].Freed? then ActOn(c, acts[0]) else c, acts[1..])
  }

  // The same entry, its operation perhaps detached.
  predicate GaveUp(e: Entry, was: Entry) { e == was || e == was.(op := None) }

  // Draining settles exactly the entries of the queue, in order, each with an error.
  lemma {:induction false} DrainFailsAll(env: Env, c: Conn)
    ensures var d, n := Drained(env, c), |c.settled|;
            && d.queue == [] && d.mode == Lines([]) && d.sent == c.sent
            && |d.settled| == n + |c.queue| && d.settled[..n] == c.settled
            && forall j | 0 <= j < |c.queue| :: FailedOne(d.settled[n + j], c.queue[j])
    decreases |c.queue|
  {
    if c.queue != [] {
      hide FreeAll, Reaction;
      var e := FreeAll(Popped(c, Error), Reaction(env, c.queue, |c.settled|));
      DrainFailsAll(env, e);
      var d, n := Drained(env, c), |c.settled|;
      assert d == Drained(env, e);
      hide Drained;
      assert d.settled[..n] == d.settled[..n + 1][..n] == c.settled;
      assert d.settled[n] == d.settled[..n + 1][n];
      forall j | 0 <= j < |c.queue| ensures FailedOne(d.settled[n + j], c.queue[j]) {
        if j > 0 {
          assert FailedOne(d.settled[n + 1 + (j - 1)], e.queue[j - 1]);
          assert GaveUp(e.queue[j - 1], c.queue[1..][j - 1]);
        }
      }
    }
  }

  predicate FailedOne(s: Settled, e: Entry) { s.entry.Some? && GaveUp(s.entry.value, e) && s.outcome == Error }

  // The length a bulk header announces.
  function Announced(line: seq<Byte>): Option<nat>
    requires line != [] && line[0] == DOLLAR
  {
    Atoi(Trim(line)[1..])
  }

  function OnBulk(env: Env, c: Conn, n: Option<nat>): Conn {
    if c.queue != [] && c.queue[0].bulk then
      match n
      case None => Settle(env, c, Declined)
      case Some(n) =>
        if c.queue[0].op.None? || n > c.queue[0].op.value.cap || !env.buffer(|c.settled|) then
          c.(mode := Skip(n + 2, true))
        else c.(mode := Bulk(n + 2, n, []))
    else
      match n
      case None => Settle(env, c, Ok)
      case Some(n) => c.(mode := Skip(n + 2, false))
  }

  function OnLine(env: Env, c: Conn, line: seq<Byte>): Conn {
    if line == [] then c.(mode := Broken)
    else if line[0] == PLUS || line[0] == COLON then Settle(env, c, Ok)
    else if line[0] == MINUS then Settle(env, c, Error)
    else if line[0] == DOLLAR then OnBulk(env, c, Announced(line))
    else c.(mode := Broken)
  }

  function Delivered(env: Env, c: Conn, bytes: seq<Byte>): Outcome {
    if env.copy(|c.settled|) then Data(bytes) else Error
  }

  function Step(env: Env, c: Conn, b: Byte): Conn {
    match c.mode
    case Broken => c
    case Skip(n, err) =>
      if n <= 1 then Settle(env, c, if err then Error else Ok) else c.(mode := Skip(n - 1, err))
    case Bulk(need, size, got) =>
      var got' := if |got| < size then got + [b] else got;
      if need <= 1 then Settle(env, c, Delivered(env, c, got')) else c.(mode := Bulk(need - 1, size, got'))
    case Lines(line) =>
      if b == LF then OnLine(env, c, line)
      else if |line| + 1 == IN_SIZE then c.(mode := Broken)
      else c.(mode := Lines(line + [b]))
  }

  function StepWith(env: Env): (Conn, Byte) -> Conn { (c: Conn, b: Byte) => Step(env, c, b) }

  function Run(env: Env, c: Conn, bytes: seq<Byte>): Conn { Feed(StepWith(env), c, bytes) }

  lemma {:induction false} RunFirst(env: Env, c: Conn, t: seq<Byte>)
    requires t != []
    ensures Run(env, c, t) == Run(env, Step(env, c, t[0]), t[1..])
  {}

  lemma {:induction false} RunNone(env: Env, c: Conn)
    ensures Run(env, c, []) == c
  {}

  lemma {:induction false} BrokenIgnores(env: Env, c: Conn, bytes: seq<Byte>)
    requires c.mode.Broken?
    ensures Run(env, c, bytes) == c
  {
    FeedStays(StepWith(env), c, bytes);
  }

  // What several bytes do at once in each mode.

  lemma {:induction false} RunSkip(env: Env, c: Conn, t: seq<Byte>)
    requires c.mode.Skip? && 0 < |t| <= c.mode.n
    ensures Run(env, c, t) == if |t| == c.mode.n then Settle(env, c, if c.mode.err then Error else Ok)
                              else c.(mode := Skip(c.mode.n - |t|, c.mode.err))
    decreases |t|
  {
    hide Run;
    RunFirst(env, c, t);
    if |t| > 1 {
      RunSkip(env, Step(env, c, t[0]), t[1..]);
    } else {
      assert t[1..] == [];
      RunNone(env, Step(env, c, t[0]));
    }
  }

  function Take(got: seq<Byte>, size: nat, t: seq<Byte>): seq<Byte> {
    if |got| >= size then got else if |t| <= size - |got| then got + t else got + t[..size - |got|]
  }

  lemma {:induction false} RunBulk(env: Env, c: Conn, t: seq<Byte>)
    requires c.mode.Bulk? && 0 < |t| <= c.mode.need
    ensures var got := Take(c.mode.got, c.mode.size, t);
            Run(env, c, t) == if |t| == c.mode.need then Settle(env, c, Delivered(env, c, got))
                              else c.(mode := Bulk(c.mode.need - |t|, c.mode.size, got))
    decreases |t|
  {
    hide Run, Settle;
    RunFirst(env, c, t);
    var d := Step(env, c, t[0]);
    TakeStep(c.mode.got, c.mode.size, t);
    if |t| > 1 {
      RunBulk(env, d, t[1..]);
      SettleMode(env, c, d);
    } else {
      var first := if |c.mode.got| < c.mode.size then c.mode.got + [t[0]] else c.mode.got;
      assert first + [] == first && t[1..] == [];
      RunNone(env, d);
    }
  }

  // What settling does depends on the queue and the replies so far only.
  lemma {:induction false} SettleMode(env: Env, c: Conn, d: Conn)
    requires d.queue == c.queue && d.settled == c.settled && d.sent == c.sent
    ensures forall outcome :: Settle(env, d, outcome) == Settle(env, c, outcome)
    ensures forall bytes :: Delivered(env, d, bytes) == Delivered(env, c, bytes)
  {}

  lemma {:induction false} TakeStep(got: seq<Byte>, size: nat, t: seq<Byte>)
    requires t != []
    ensures var first := if |got| < size then got + [t[0]] else got;
            Take(got, size, t) == Take(first, size, t[1..])
  {
    if |got| < size {
      assert t == [t[0]] + t[1..];
      if |t| > size - |got| {
        assert t[..size - |got|] == [t[0]] + t[1..][..size - |got| - 1];
      }
    }
  }

  lemma {:induction false} RunLine(env: Env, c: Conn, t: seq<Byte>)
    requires c.mode.Lines? && LF !in t && |c.mode.line| + |t| <= IN_SIZE
    ensures Run(env, c, t) == if t != [] && |c.mode.line| + |t| == IN_SIZE then c.(mode := Broken)
                              else c.(mode := Lines(c.mode.line + t))
    decreases |t|
  {
    hide Run;
    if t == [] {
      assert c.mode.line + t == c.mode.line;
      RunNone(env, c);
    } else {
      RunFirst(env, c, t);
      var d := Step(env, c, t[0]);
      assert t == [t[0]] + t[1..];
      if |c.mode.line| + 1 < IN_SIZE {
        RunLine(env, d, t[1..]);
        assert c.mode.line + t == (c.mode.line + [t[0]]) + t[1..];
      } else {
        assert t[1..] == [];
        RunNone(env, d);
      }
    }
  }

  lemma {:induction false} LineEnds(env: Env, c: Conn, t: seq<Byte>, lf: nat)
    requires c.mode == Lines([]) && lf < |t| && lf < IN_SIZE && t[lf] == LF && LF !in t[..lf]
    ensures Run(env, c, t) == Run(env, OnLine(env, c, t[..lf]), t[lf + 1..])
  {
    var d := c.(mode := Lines(t[..lf]));
    LineEnd(env, c, t[..lf]);
    FeedSplit(StepWith(env), c, t, lf);
    RunLine(env, c, t[..lf]);
    RunFirst(env, d, t[lf..]);
    hide OnLine, Step, StepWith, Feed;
    assert [] + t[..lf] == t[..lf];
    assert t[lf..][0] == LF && t[lf..][1..] == t[lf + 1..];
  }

  lemma {:induction false} LineEnd(env: Env, c: Conn, line: seq<Byte>)
    requires c.mode.Lines?
    ensures Step(env, c.(mode := Lines(line)), LF) == OnLine(env, c, line)
  {}

  // ---------------------------------------------------------------------------
  // What replies on the wire mean
  // ---------------------------------------------------------------------------

  // A bulk header announces the number behind its dollar sign, and nothing if that is no number.
  lemma {:induction false} AnnouncedLength(t: seq<Byte>)
    ensures Announced([DOLLAR] + t + [CR])
         == if t != [] && Digits(t) && Decimal(t) <= MAX_INT then Some(Decimal(t)) else None
  {
    var line := [DOLLAR] + t + [CR];
    assert line[|line| - 1] == CR && Trim(line) == [DOLLAR] + t;
    assert ([DOLLAR] + t)[1..] == t;
  }

  // What a server sends for a string.
  ghost function BulkText(payload: seq<Byte>): seq<Byte> {
    [DOLLAR] + Shown(|payload|) + [CR] + [LF] + (payload + [CR, LF])
  }

  // A string that a GET at the head has room for settles it with exactly those bytes.
  lemma {:induction false} PayloadDelivered(env: Env, c: Conn, payload: seq<Byte>)
    requires c.mode == Lines([]) && c.queue != [] && c.queue[0].bulk && c.queue[0].op.Some?
    requires |payload| <= c.queue[0].op.value.cap && |payload| <= MAX_INT
    requires env.buffer(|c.settled|) && env.copy(|c.settled|)
    ensures var d := Run(env, c, BulkText(payload));
            d.mode == Lines([]) && d.settled == c.settled + [Settled(Some(c.queue[0]), Data(payload))]
  {
    hide Run, Step, Announced, Shown, Settle, Take, OnLine, BulkText;
    var n, line, body := |payload|, [DOLLAR] + Shown(|payload|) + [CR], payload + [CR, LF];
    var e := c.(mode := Bulk(n + 2, n, []));
    BulkParts(payload);
    LineEnds(env, c, BulkText(payload), |line|);
    HeaderTaken(env, c, n);
    RunBulk(env, e, body);
    WholePayload(payload);
    SettleMode(env, c, e);
    SettledWith(env, c, Data(payload));
  }

  lemma {:induction false} BulkParts(payload: seq<Byte>)
    requires |payload| <= MAX_INT
    ensures var line, t := [DOLLAR] + Shown(|payload|) + [CR], BulkText(payload);
            && |line| < |t| && |line| < IN_SIZE && t[..|line|] == line && LF !in t[..|line|] && t[|line|] == LF
            && t[|line| + 1..] == payload + [CR, LF]
  {
    IntShown(|payload|);
    ShownClean(|payload|);
    hide Shown;
  }

  lemma {:induction false} HeaderTaken(env: Env, c: Conn, n: nat)
    requires c.mode == Lines([]) && c.queue != [] && c.queue[0].bulk && c.queue[0].op.Some?
    requires n <= c.queue[0].op.value.cap && n <= MAX_INT && env.buffer(|c.settled|)
    ensures OnLine(env, c, [DOLLAR] + Shown(n) + [CR]) == c.(mode := Bulk(n + 2, n, []))
  {
    ShownReads(n);
    AnnouncedLength(Shown(n));
    hide Announced, Shown, Settle;
    assert ([DOLLAR] + Shown(n) + [CR])[0] == DOLLAR;
  }

  lemma {:induction false} WholePayload(payload: seq<Byte>)
    ensures Take([], |payload|, payload + [CR, LF]) == payload
  {
    assert (payload + [CR, LF])[..|payload|] == payload && [] + payload == payload;
  }

  lemma {:induction false} SettledWith(env: Env, c: Conn, outcome: Outcome)
    requires c.queue != []
    ensures var d := Settle(env, c, outcome);
            d.mode == Lines([]) && d.settled == c.settled + [Settled(Some(c.queue[0]), outcome)]
  {}

  lemma {:induction false} ShownClean(n: nat)
    ensures LF !in [DOLLAR] + Shown(n) + [CR]
  {
    hide Shown, Decimal;
    ShownReads(n);
    assert !Digit(LF);
  }

  // A string that a GET at the head has no room for is read past, and the GET fails.
  lemma {:induction false} PayloadTooLong(env: Env, c: Conn, payload: seq<Byte>)
    requires c.mode == Lines([]) && c.queue != [] && c.queue[0].bulk && c.queue[0].op.Some?
    requires c.queue[0].op.value.cap < |payload| <= MAX_INT
    ensures var d := Run(env, c, BulkText(payload));
            d.mode == Lines([]) && d.settled == c.settled + [Settled(Some(c.queue[0]), Error)]
  {
    hide Run, Step, Announced, Shown, Settle, OnLine, BulkText;
    var n, line, body := |payload|, [DOLLAR] + Shown(|payload|) + [CR], payload + [CR, LF];
    var e := c.(mode := Skip(n + 2, true));
    BulkParts(payload);
    LineEnds(env, c, BulkText(payload), |line|);
    HeaderRefused(env, c, n);
    RunSkip(env, e, body);
    SettleMode(env, c, e);
    SettledWith(env, c, Error);
  }

  lemma {:induction false} HeaderRefused(env: Env, c: Conn, n: nat)
    requires c.mode == Lines([]) && c.queue != [] && c.queue[0].bulk && c.queue[0].op.Some?
    requires c.queue[0].op.value.cap < n <= MAX_INT
    ensures OnLine(env, c, [DOLLAR] + Shown(n) + [CR]) == c.(mode := Skip(n + 2, true))
  {
    ShownReads(n);
    AnnouncedLength(Shown(n));
    hide Announced, Shown, Settle;
    assert ([DOLLAR] + Shown(n) + [CR])[0] == DOLLAR;
  }

  // A line reply settles the head: a status or a number well, an error not.
  lemma {:induction false} LineSettles(env: Env, c: Conn, sign: char, text: seq<Byte>)
    requires c.mode == Lines([]) && c.queue != [] && sign in {'+', ':', '-'}
    requires LF !in text && |text| + 1 < IN_SIZE
    ensures var d := Run(env, c, [sign as int] + text + [LF]);
            && d.mode == Lines([])
            && d.settled == c.settled + [Settled(Some(c.queue[0]), if sign == '-' then Error else Ok)]
  {
    var line, t := [sign as int] + text, [sign as int] + text + [LF];
    assert t[..|line|] == line && t[|line|] == LF && t[|line| + 1..] == [];
    hide Run, Announced, Settle;
    LineEnds(env, c, t, |line|);
    RunNone(env, OnLine(env, c, line));
    SettledWith(env, c, if sign == '-' then Error else Ok);
  }

  // A key that is not there: $-1.
  lemma {:induction false} MissingKeyDeclined(env: Env, c: Conn)
    requires c.mode == Lines([]) && c.queue != [] && c.queue[0].bulk
    ensures var d := Run(env, c, [DOLLAR, MINUS, 0x31, CR, LF]);
            d.mode == Lines([]) && d.settled == c.settled + [Settled(Some(c.queue[0]), Declined)]
  {
    var t, line := [DOLLAR, MINUS, 0x31, CR, LF], [DOLLAR, MINUS, 0x31, CR];
    AnnouncedLength([MINUS, 0x31]);
    assert [DOLLAR] + [MINUS, 0x31] + [CR] == line && !Digit(MINUS) && !Digits([MINUS, 0x31]) by {
      assert [MINUS, 0x31][0] == MINUS;
    }
    assert t[..4] == line && t[5..] == [];
    hide Run, Announced, Settle;
    LineEnds(env, c, t, 4);
    RunNone(env, OnLine(env, c, line));
    SettledWith(env, c, Declined);
  }

  // ---------------------------------------------------------------------------
  // The parser
  // ---------------------------------------------------------------------------

  class Connection {
    var input: seq<Byte>      // link.in between in_pos and in_last
    var queue: seq<Entry>
    var skip: nat
    var skipErr: bool
    var bulk: seq<Byte>       // the bulk_got bytes copied so far
    var bulkSize: nat
    var bulkNeed: nat
    var settled: seq<Settled>
    var sent: nat
    ghost var broken: bool

    ghost predicate Valid() reads this {
      && (bulkNeed > 0 ==> skip == 0)
      && (skip == 0 ==> !skipErr)
    }

    // The state apart from what is unread.
    ghost function Value(): Conn
      reads this
    {
      Conn(queue,
           if broken then Broken
           else if bulkNeed > 0 then Bulk(bulkNeed, bulkSize, bulk)
           else if skip > 0 then Skip(skip, skipErr)
           else Lines([]),
           settled, sent)
    }

    // Between reads: unread bytes are an unfinished line.
    ghost predicate Idle() reads this {
      && Valid() && !broken && |input| < IN_SIZE && LF !in input
      && (bulkNeed > 0 || skip > 0 ==> input == [])
    }

    ghost function State(): Conn
      reads this
    {
      var c := Value();
      if c.mode.Lines? then c.(mode := Lines(input)) else c
    }

    constructor ()
      ensures Idle() && State() == Conn([], Lines([]), [], 0)
    {
      input, queue, skip, skipErr, bulk, bulkSize, bulkNeed := [], [], 0, false, [], 0, 0;
      settled, sent, broken := [], 0, false;
    }

    // entry_done and bulk_ready: the head leaves the queue, then its handler runs.
    method Done(env: Env, outcome: Outcome)
      modifies this`queue, this`settled, this`sent
      ensures var c := Settle(env, Conn(old(queue), Lines([]), old(settled), old(sent)), outcome);
              queue == c.queue && settled == c.settled && sent == c.sent
    {
      if queue == [] {
        settled := settled + [Settled(None, outcome)];
        return;
      }
      var head, k := queue[0], |settled|;
      queue := queue[1..];
      settled := settled + [Settled(Some(head), outcome)];
      if head.op.Some? {
        Handle(env.react(k));
      }
    }

    // op->handler: what it does to this connection, in order
    method Handle(acts: seq<Act>)
      modifies this`queue, this`sent
      ensures var c := ActAll(Conn(old(queue), Lines([]), settled, old(sent)), acts);
              queue == c.queue && sent == c.sent
    {
      ghost var end := ActAll(Conn(queue, Lines([]), settled, sent), acts);
      for i := 0 to |acts|
        invariant ActAll(Conn(queue, Lines([]), settled, sent), acts[i..]) == end
      {
        assert acts[i..][0] == acts[i] && acts[i..][1..] == acts[i + 1..];
        match acts[i]
        case Issued(command) => Push(command);
        case Freed(id) => Free(id);
      }
    }

    // ngx_http_waf_redis_detach, for the operation whose pool is destroyed
    method Free(id: nat)
      modifies this`queue
      ensures queue == DetachAll(old(queue), id)
    {
      for i := 0 to |queue|
        invariant |queue| == |old(queue)|
        invariant forall j | 0 <= j < |queue| :: queue[j] == if j < i then Detach(old(queue)[j], id) else old(queue)[j]
      {
        if queue[i].op.Some? && queue[i].op.value.id == id {
          queue := queue[i := queue[i].(op := None)];
        }
      }
    }

    // entry_push: a command goes out and its entry waits at the end of the queue.
    method Push(command: Command)
      modifies this`queue, this`sent
      ensures queue == old(queue) + [EntryOf(old(sent), command)] && sent == old(sent) + 1
    {
      queue := queue + [EntryOf(sent, command)];
      sent := sent + 1;
    }

    // A read: the link hands over what arrived, as much as the buffer holds, and drops the
    // connection when the parser fails or an unfinished line fills the buffer.
    method Read(env: Env, chunk: seq<Byte>) returns (ok: bool)
      requires Idle() && |input| + |chunk| <= IN_SIZE
      modifies this
      ensures State() == Run(env, old(State()), chunk)
      ensures ok <==> !State().mode.Broken?
      ensures ok ==> Idle()
    {
      ghost var before := State();
      ghost var unread := input;
      input := input + chunk;
      Resumed(env, before, Value(), unread, chunk);
      ok := Parse(env);
      if ok && |input| == IN_SIZE {
        broken := true;
        ok := false;
      }
    }

    lemma {:induction false} Resumed(env: Env, before: Conn, c: Conn, unread: seq<Byte>, chunk: seq<Byte>)
      requires |unread| < IN_SIZE && LF !in unread
      requires if c.mode.Lines? then c.mode.line == [] && before == c.(mode := Lines(unread))
               else before == c && unread == []
      ensures Run(env, c, unread + chunk) == Run(env, before, chunk)
    {
      FeedConcat(StepWith(env), c, unread, chunk);
      if c.mode.Lines? {
        RunLine(env, c, unread);
        assert [] + unread == unread;
      }
    }

    // ngx_http_waf_redis_parse
    method Parse(env: Env) returns (ok: bool)
      requires Valid() && !broken && |input| <= IN_SIZE
      modifies this
      ensures Valid()
      ensures ok == !broken
      ensures ok ==> LF !in input && |input| <= IN_SIZE && (bulkNeed > 0 || skip > 0 ==> input == [])
      ensures ok && |input| < IN_SIZE ==> State() == Run(env, old(Value()), old(input))
      ensures ok && |input| == IN_SIZE ==> Value().(mode := Broken) == Run(env, old(Value()), old(input))
      ensures !ok ==> Value() == Run(env, old(Value()), old(input))
    {
      ghost var end := Run(env, Value(), input);
      while true
        invariant Valid() && !broken && |input| <= IN_SIZE
        invariant end == Run(env, Value(), input)
        decreases |input|, bulkNeed + skip
      {
        if input == [] {
          return true;
        }
        if bulkNeed != 0 {
          TakeBulk(env);
          if bulkNeed != 0 {
            return true;
          }
          continue;
        }
        if skip != 0 {
          TakeSkip(env);
          if skip != 0 {
            return true;
          }
          continue;
        }
        var lf := FindLf(input);
        if lf == |input| {
          RunLine(env, Value(), input);
          assert [] + input == input;
          return true;
        }
        ghost var before := Value();
        LineEnds(env, before, input, lf);
        var line := input[..lf];
        input := input[lf + 1..];
        ok := Line(env, line);
        if !ok {
          FeedStays(StepWith(env), Value(), input);
          return;
        }
      }
    }

    method TakeBulk(env: Env)
      requires Valid() && !broken && bulkNeed > 0 && input != []
      modifies this
      ensures Valid() && !broken && |input| < |old(input)|
      ensures Run(env, Value(), input) == Run(env, old(Value()), old(input))
      ensures bulkNeed != 0 ==> input == []
    {
      hide Step, StepWith, Feed, Reaction, ActAll;
      var take := if |input| < bulkNeed then |input| else bulkNeed;
      FeedSplit(StepWith(env), Value(), input, take);
      RunBulk(env, Value(), input[..take]);
      if |bulk| < bulkSize {
        var len := if take < bulkSize - |bulk| then take else bulkSize - |bulk|;
        assert input[..take][..len] == input[..len];
        bulk := bulk + input[..len];
      }
      assert bulk == Take(old(bulk), bulkSize, old(input)[..take]);
      input := input[take..];
      bulkNeed := bulkNeed - take;
      if bulkNeed == 0 {
        Done(env, if env.copy(|settled|) then Data(bulk) else Error);
        bulk, bulkSize := [], 0;
      }
    }

    method TakeSkip(env: Env)
      requires Valid() && !broken && bulkNeed == 0 && skip > 0 && input != []
      modifies this
      ensures Valid() && !broken && |input| < |old(input)| && bulkNeed == 0
      ensures Run(env, Value(), input) == Run(env, old(Value()), old(input))
      ensures skip != 0 ==> input == []
    {
      hide Step, StepWith, Feed, Reaction, ActAll;
      var take := if |input| < skip then |input| else skip;
      FeedSplit(StepWith(env), Value(), input, take);
      RunSkip(env, Value(), input[..take]);
      input := input[take..];
      skip := skip - take;
      if skip == 0 {
        Done(env, if skipErr then Error else Ok);
        skipErr := false;
      }
    }

    // The switch on the type of a reply.
    method Line(env: Env, line: seq<Byte>) returns (ok: bool)
      requires Valid() && !broken && bulkNeed == 0 && skip == 0
      modifies this
      ensures Valid() && input == old(input) && ok == !broken
      ensures Value() == OnLine(env, old(Value()), line)
    {
      ok := true;
      if line == [] {
        broken := true;
        return false;
      }
      match line[0]
      case 0x2b => Done(env, Ok);
      case 0x3a => Done(env, Ok);
      case 0x2d => Done(env, Error);
      case 0x24 => BulkHeader(env, Announced(line));
      case _ =>
        broken := true;
        return false;
    }

    method BulkHeader(env: Env, n: Option<nat>)
      requires Valid() && !broken && bulkNeed == 0 && skip == 0
      modifies this
      ensures Valid() && input == old(input) && !broken
      ensures Value() == OnBulk(env, old(Value()), n)
    {
      if queue != [] && queue[0].bulk {
        if n.None? {
          Done(env, Declined);
        } else if queue[0].op.None? || n.value > queue[0].op.value.cap || !env.buffer(|settled|) {
          skip, skipErr := n.value + 2, true;
        } else {
          bulk, bulkSize, bulkNeed := [], n.value, n.value + 2;
        }
      } else if n.None? {
        Done(env, Ok);
      } else {
        skip := n.value + 2;
      }
    }

    // on_close: every waiting entry fails, and the parser starts afresh.
    method Drain(env: Env)
      requires Valid()
      modifies this
      ensures Idle() && State() == Drained(env, old(Value()))
    {
      hide FreeAll, Reaction, ActAll, Step, Run;
      while queue != []
        invariant Drained(env, Conn(queue, Lines([]), settled, sent)) == Drained(env, old(Value()))
        decreases |queue|
      {
        FailHead(env);
      }
      skip, skipErr, bulk, bulkSize, bulkNeed, input, broken := 0, false, [], 0, 0, [], false;
    }

    // entry_done while draining
    method FailHead(env: Env)
      requires queue != []
      modifies this`queue, this`settled
      ensures Conn(queue, Lines([]), settled, sent)
           == FreeAll(Popped(Conn(old(queue), Lines([]), old(settled), sent), Error),
                      Reaction(env, old(queue), |old(settled)|))
    {
      var head, k := queue[0], |settled|;
      queue, settled := queue[1..], settled + [Settled(Some(head), Error)];
      if head.op.Some? {
        FreeOnly(env.react(k));
      }
    }

    // What a handler can do once the link is down.
    method FreeOnly(acts: seq<Act>)
      modifies this`queue
      ensures queue == FreeAll(Conn(old(queue), Lines([]), settled, sent), acts).queue
    {
      ghost var end := FreeAll(Conn(queue, Lines([]), settled, sent), acts);
      for i := 0 to |acts|
        invariant FreeAll(Conn(queue, Lines([]), settled, sent), acts[i..]) == end
      {
        assert acts[i..][0] == acts[i] && acts[i..][1..] == acts[i + 1..];
        if acts[i].Freed? {
          Free(acts[i].id);
        }
      }
    }

    // ngx_http_waf_link_read_handler: takes what arrived in pieces that fit the buffer, until
    // nothing is left or the link is dropped.
    method Receive(env: Env, arrived: seq<Byte>) returns (ok: bool)
      requires Idle()
      modifies this
      ensures State() == Run(env, old(State()), arrived)
      ensures ok <==> !State().mode.Broken?
      ensures ok ==> Idle()
    {
      hide Step, StepWith, Feed;
      var done := 0;
      ok := true;
      assert arrived[0..] == arrived;
      while done < |arrived|
        invariant 0 <= done <= |arrived| && ok && Idle()
        invariant Run(env, State(), arrived[done..]) == Run(env, old(State()), arrived)
      {
        var n := if |arrived| - done < IN_SIZE - |input| then |arrived| - done else IN_SIZE - |input|;
        FeedOn(StepWith(env), State(), arrived, done, done + n);
        ok := Read(env, arrived[done..done + n]);
        if !ok {
          BrokenIgnores(env, State(), arrived[done + n..]);
          return;
        }
        done := done + n;
      }
      assert arrived[done..] == [];
      RunNone(env, State());
    }

    // Any number of arrivals, one after the other.
    method ReceiveAll(env: Env, arrivals: seq<seq<Byte>>) returns (ok: bool)
      requires Idle()
      modifies this
      ensures State() == Run(env, old(State()), Flat(arrivals))
      ensures ok <==> !State().mode.Broken?
      ensures ok ==> Idle()
    {
      hide Step, StepWith, Feed;
      ok := true;
      assert arrivals[0..] == arrivals;
      for i := 0 to |arrivals|
        invariant ok && Idle()
        invariant Run(env, State(), Flat(arrivals[i..])) == Run(env, old(State()), Flat(arrivals))
      {
        FeedArrival(StepWith(env), State(), arrivals, i);
        ok := Receive(env, arrivals[i]);
        if !ok {
          BrokenIgnores(env, State(), Flat(arrivals[i + 1..]));
          return;
        }
      }
      RunNone(env, State());
    }
  }

  // However the same bytes are cut into arrivals, and the arrivals into reads, two connections in
  // the same state settle the same entries, in the same order and with the same data.
  method FragmentsDoNotMatter(env: Env, a: Connection, b: Connection, xs: seq<seq<Byte>>, ys: seq<seq<Byte>>)
    returns (ok: bool)
    requires a != b && a.Idle() && b.Idle() && a.State() == b.State() && Flat(xs) == Flat(ys)
    modifies a, b
    ensures a.State() == b.State() && a.settled == b.settled && a.queue == b.queue
    ensures ok <==> !a.State().mode.Broken?
  {
    ok := a.ReceiveAll(env, xs);
    var same := b.ReceiveAll(env, ys);
  }
}
