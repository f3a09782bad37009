/** Messages from the bus: ngx_http_waf_nats_parse, nats_line, nats_msg_line, nats_collect and
    nats_deliver of module/src/bus/ngx_http_waf_bus_nats.c, fed by the link's input buffer
    (module/src/net/ngx_http_waf_link.c).

    The parser leaves a payload in the input buffer, collects it elsewhere or skips it, depending
    on its length; the specification takes one byte at a time and knows one way only.
 */
module Nats {
  import opened Bytes
  import Resp

  const MSG: seq<Byte> := [0x4d, 0x53, 0x47, 0x20]
  const HMSG: seq<Byte> := [0x48, 0x4d, 0x53, 0x47, 0x20]
  const PING: seq<Byte> := [0x50, 0x49, 0x4e, 0x47]
  const PONG: seq<Byte> := [0x50, 0x4f, 0x4e, 0x47]
  const INFO: seq<Byte> := [0x49, 0x4e, 0x46, 0x4f]
  const OK: seq<Byte> := [0x2b, 0x4f, 0x4b]
  const NO_RESPONDERS: seq<Byte> := [0x4e, 0x41, 0x54, 0x53, 0x2f, 0x31, 0x2e, 0x30, 0x20, 0x35, 0x30, 0x33]

  datatype Kind = Verdict | Dataset | JsReply

  datatype Route = Route(kind: Kind, index: nat, rid: nat)

  // in_size, bus_payload_max, nats_route by subscription and subject, and whether memory is to be
  // had for the k-th message.
  datatype Env = Env(inSize: nat, payloadMax: nat, route: (seq<Byte>, seq<Byte>) -> Option<Route>, mem: nat -> bool)

  datatype Head = Head(route: Option<Route>, hdr: nat, total: nat)

  datatype Line = Message(head: Head) | Quiet | Refused

  datatype Out = Payload(route: Route, bytes: seq<Byte>) | Absent(route: Route)

  // ---------------------------------------------------------------------------
  // Protocol lines
  // ---------------------------------------------------------------------------

  predicate Blank(c: Byte) { c == 0x20 || c == 0x09 }

  function Blanks(t: seq<Byte>): (n: nat)
    ensures n <= |t|
  {
    if t == [] || !Blank(t[0]) then 0 else 1 + Blanks(t[1..])
  }

  function Solid(t: seq<Byte>): (n: nat)
    ensures n <= |t|
    ensures t != [] && !Blank(t[0]) ==> n > 0
  {
    if t == [] || Blank(t[0]) then 0 else 1 + Solid(t[1..])
  }

  // The first max words.
  function Tokens(t: seq<Byte>, max: nat): seq<seq<Byte>> {
    var u := t[Blanks(t)..];
    if max == 0 || u == [] then [] else [u[..Solid(u)]] + Tokens(u[Solid(u)..], max - 1)
  }

  predicate Starts(t: seq<Byte>, word: seq<Byte>) { |t| >= |word| && t[..|word|] == word }

  // nats_msg_line: subject, subscription, reply subject if any, header length if any, length
  function MsgLine(env: Env, t: seq<Byte>, headers: bool): (line: Line)
    ensures line.Message? ==> line.head.hdr <= line.head.total
  {
    var words := Tokens(t, 5);
    if |words| < (if headers then 4 else 3) then Refused
    else
      var n := Resp.Atoi(words[|words| - 1]);
      var hdr := if headers then Resp.Atoi(words[|words| - 2]) else Some(0);
      if n.None? || hdr.None? || hdr.value > n.value then Refused
      else Message(Head(env.route(words[1], words[0]), hdr.value, n.value))
  }

  // --- the words of a header are read as they were sent ------------------------

  ghost predicate IsWord(w: seq<Byte>) { w != [] && forall i | 0 <= i < |w| :: !Blank(w[i]) }

  ghost predicate AreWords(words: seq<seq<Byte>>) { forall i | 0 <= i < |words| :: IsWord(words[i]) }

  // A space before each word.
  ghost function Spaced(words: seq<seq<Byte>>): seq<Byte> {
    if words == [] then [] else [0x20] + words[0] + Spaced(words[1..])
  }

  lemma {:induction false} SolidIs(w: seq<Byte>, rest: seq<Byte>)
    requires (forall i | 0 <= i < |w| :: !Blank(w[i])) && (rest != [] ==> Blank(rest[0]))
    ensures Solid(w + rest) == |w|
  {
    if w == [] {
      assert w + rest == rest;
    } else {
      SolidIs(w[1..], rest);
      assert (w + rest)[1..] == w[1..] + rest;
    }
  }

  lemma {:induction false} TokensOfWords(words: seq<seq<Byte>>, max: nat)
    requires AreWords(words) && |words| <= max
    ensures Tokens(Spaced(words), max) == words
  {
    hide Tokens;
    if words == [] {
      NoTokens(max);
    } else {
      var more := words[1..];
      assert AreWords(more) && IsWord(words[0]);
      hide AreWords, IsWord;
      SpacedFirst(more);
      assert Spaced(words) == [0x20] + words[0] + Spaced(more);
      hide Spaced;
      FirstToken(words[0], Spaced(more), max);
      TokensOfWords(more, max - 1);
      assert words == [words[0]] + more;
    }
  }

  lemma {:induction false} NoTokens(max: nat)
    ensures Tokens([], max) == []
  {}

  lemma {:induction false} SpacedFirst(words: seq<seq<Byte>>)
    ensures Spaced(words) != [] ==> Blank(Spaced(words)[0])
  {}

  lemma {:induction false} FirstToken(w: seq<Byte>, rest: seq<Byte>, max: nat)
    requires IsWord(w) && (rest != [] ==> Blank(rest[0])) && max > 0
    ensures Tokens([0x20] + w + rest, max) == [w] + Tokens(rest, max - 1)
  {
    var t, u := [0x20] + w + rest, w + rest;
    assert t[1..] == u && t[0] == 0x20 && u[0] == w[0];
    assert Blanks(u) == 0 && Blanks(t) == 1;
    SolidIs(w, rest);
    hide Blanks, Solid;
    assert t[Blanks(t)..] == u && u[..|w|] == w && u[|w|..] == rest;
  }

  // A header of three or four words (with headers four or five): the first is the subject, the
  // second the subscription, the last the length, the one before it the length of the headers.
  lemma {:induction false} HeaderRead(env: Env, words: seq<seq<Byte>>, headers: bool)
    requires AreWords(words) && (if headers then 4 else 3) <= |words| <= 5
    ensures var n := Resp.Atoi(words[|words| - 1]);
            var hdr := if headers then Resp.Atoi(words[|words| - 2]) else Some(0);
            MsgLine(env, Spaced(words), headers)
            == if n.Some? && hdr.Some? && hdr.value <= n.value
               then Message(Head(env.route(words[1], words[0]), hdr.value, n.value)) else Refused
  {
    hide Tokens, Spaced, AreWords, Resp.Atoi;
    TokensOfWords(words, 5);
  }

  // nats_line
  function Classify(env: Env, t: seq<Byte>): (line: Line)
    ensures line.Message? ==> line.head.hdr <= line.head.total
  {
    if Starts(t, MSG) then MsgLine(env, t[4..], false)
    else if Starts(t, HMSG) then MsgLine(env, t[5..], true)
    else if Starts(t, PING) || Starts(t, PONG) || Starts(t, INFO) || Starts(t, OK) || t == [] then Quiet
    else Refused
  }

  // ---------------------------------------------------------------------------
  // One byte at a time
  // ---------------------------------------------------------------------------

  datatype Mode =
    | Lines(line: seq<Byte>)
    | Body(head: Head, keep: bool, left: nat, got: seq<Byte>)
    | Broken

  datatype Conn = Conn(mode: Mode, bigSize: nat, messages: nat, out: seq<Out>)

  predicate Fits(env: Env, h: Head) { h.total + 2 <= env.inSize }

  // Too long for the input buffer, but a dataset's and within the limit.
  predicate Collects(env: Env, c: Conn, h: Head) {
    && !Fits(env, h) && h.route.Some? && h.route.value.kind.Dataset? && h.total <= env.payloadMax
    && (c.bigSize >= h.total + 2 || env.mem(c.messages))
  }

  predicate Keeps(env: Env, c: Conn, h: Head) { h.route.Some? && (Fits(env, h) || Collects(env, c, h)) }

  // nats_deliver
  function Deliver(h: Head, bytes: seq<Byte>): Out
    requires h.route.Some? && h.hdr <= h.total <= |bytes|
  {
    if h.hdr >= 12 && h.route.value.kind.Verdict? && Starts(bytes, NO_RESPONDERS) then Absent(h.route.value)
    else Payload(h.route.value, bytes[h.hdr..h.total])
  }

  function Delivered(h: Head, keep: bool, bytes: seq<Byte>): seq<Out> {
    if keep && h.route.Some? && h.hdr <= h.total <= |bytes| then [Deliver(h, bytes)] else []
  }

  function OnHead(env: Env, c: Conn, h: Head): Conn {
    Conn(Body(h, Keeps(env, c, h), h.total + 2, []),
         if Collects(env, c, h) && c.bigSize < h.total + 2 then h.total + 2 else c.bigSize, c.messages + 1, c.out)
  }

  function OnLine(env: Env, c: Conn, line: seq<Byte>): Conn {
    match Classify(env, Resp.Trim(line))
    case Refused => c.(mode := Broken)
    case Quiet => c.(mode := Lines([]))
    case Message(h) => OnHead(env, c, h)
  }

  function Step(env: Env, c: Conn, b: Byte): Conn {
    match c.mode
    case Broken => c
    case Body(h, keep, left, got) =>
      var got' := if keep then got + [b] else [];
      if left <= 1 then c.(mode := Lines([]), out := c.out + Delivered(h, keep, got'))
      else c.(mode := Body(h, keep, left - 1, got'))
    case Lines(line) =>
      if b == LF then OnLine(env, c, line)
      else if |line| + 1 == env.inSize then c.(mode := Broken)
      else c.(mode := Lines(line + [b]))
  }

  function StepWith(env: Env): (Conn, Byte) -> Conn { (c: Conn, b: Byte) => Step(env, c, b) }

  function Run(env: Env, c: Conn, bytes: seq<Byte>): Conn { Feed(StepWith(env), c, bytes) }

  lemma {:induction false} RunFirst(env: Env, c: Conn, t: seq<Byte>)
    requires t != []
    ensures Run(env, c, t) == Run(env, Step(env, c, t[0]), t[1..])
  {}

  lemma {:induction false} RunNone(env: Env, c: Conn)
    ensures Run(env, c, []) == c
  {}

  lemma {:induction false} BrokenIgnores(env: Env, c: Conn, bytes: seq<Byte>)
    requires c.mode.Broken?
    ensures Run(env, c, bytes) == c
  {
    FeedStays(StepWith(env), c, bytes);
  }

  lemma {:induction false} RunBody(env: Env, c: Conn, t: seq<Byte>)
    requires c.mode.Body? && |t| <= c.mode.left && 0 < c.mode.left
    requires !c.mode.keep ==> c.mode.got == []
    ensures var got := if c.mode.keep then c.mode.got + t else [];
            Run(env, c, t) == if |t| == c.mode.left
                              then c.(mode := Lines([]), out := c.out + Delivered(c.mode.head, c.mode.keep, got))
                              else c.(mode := Body(c.mode.head, c.mode.keep, c.mode.left - |t|, got))
    decreases |t|
  {
    hide Run;
    if t == [] {
      assert c.mode.got + t == c.mode.got;
      RunNone(env, c);
    } else {
      RunFirst(env, c, t);
      var d := Step(env, c, t[0]);
      assert t == [t[0]] + t[1..];
      assert c.mode.got + t == (c.mode.got + [t[0]]) + t[1..];
      if c.mode.left > 1 {
        RunBody(env, d, t[1..]);
      } else {
        assert t == [t[0]] && t[1..] == [];
        RunNone(env, d);
      }
    }
  }

  lemma {:induction false} RunLine(env: Env, c: Conn, t: seq<Byte>)
    requires c.mode.Lines? && LF !in t && |c.mode.line| + |t| <= env.inSize
    ensures Run(env, c, t) == if t != [] && |c.mode.line| + |t| == env.inSize then c.(mode := Broken)
                              else c.(mode := Lines(c.mode.line + t))
    decreases |t|
  {
    hide Run;
    if t == [] {
      assert c.mode.line + t == c.mode.line;
      RunNone(env, c);
    } else {
      RunFirst(env, c, t);
      var d := Step(env, c, t[0]);
      assert t == [t[0]] + t[1..];
      if |c.mode.line| + 1 < env.inSize {
        RunLine(env, d, t[1..]);
        assert c.mode.line + t == (c.mode.line + [t[0]]) + t[1..];
      } else {
        assert t[1..] == [];
        RunNone(env, d);
      }
    }
  }

  lemma {:induction false} LineEnds(env: Env, c: Conn, t: seq<Byte>, lf: nat)
    requires c.mode == Lines([]) && lf < |t| && lf < env.inSize && t[lf] == LF && LF !in t[..lf]
    ensures Run(env, c, t) == Run(env, OnLine(env, c, t[..lf]), t[lf + 1..])
  {
    var d := c.(mode := Lines(t[..lf]));
    LineEnd(env, c, t[..lf]);
    FeedSplit(StepWith(env), c, t, lf);
    RunLine(env, c, t[..lf]);
    RunFirst(env, d, t[lf..]);
    hide OnLine, Step, StepWith, Feed;
    assert [] + t[..lf] == t[..lf];
    assert t[lf..][0] == LF && t[lf..][1..] == t[lf + 1..];
  }

  lemma {:induction false} LineEnd(env: Env, c: Conn, line: seq<Byte>)
    requires c.mode.Lines?
    ensures Step(env, c.(mode := Lines(line)), LF) == OnLine(env, c, line)
  {}

  // ---------------------------------------------------------------------------
  // What a message brings
  // ---------------------------------------------------------------------------

  // What a line with that head and its body bring. The stream goes on behind it.
  lemma {:induction false} HeadDelivered(env: Env, c: Conn, line: seq<Byte>, body: seq<Byte>, h: Head)
    requires c.mode == Lines([]) && LF !in line && |line| < env.inSize
    requires Classify(env, Resp.Trim(line)) == Message(h) && |body| == h.total + 2
    ensures var d := Run(env, c, line + [LF] + body);
            && d.mode == Lines([]) && d.messages == c.messages + 1 && d.bigSize >= c.bigSize
            && d.out == c.out + if Keeps(env, c, h) then [Deliver(h, body)] else []
  {
    var t := line + [LF] + body;
    assert t[..|line|] == line && t[|line|] == LF && t[|line| + 1..] == body;
    LineEnds(env, c, t, |line|);
    RunBody(env, OnLine(env, c, line), body);
    assert [] + body == body;
  }

  // Lines without a payload: these leave the parser as it is, an error ends it.
  lemma {:induction false} ProtocolLine(env: Env, c: Conn, word: string, more: seq<Byte>)
    requires word in {"PING", "PONG", "INFO", "+OK", "-ERR"}
    ensures OnLine(env, c, Spelt(word) + more + [Resp.CR]) == c.(mode := if word == "-ERR" then Broken else Lines([]))
  {
    hide MsgLine;
    var t := Spelt(word) + more;
    TrimEnd(t);
    assert t[0] == Spelt(word)[0] && t[1] == Spelt(word)[1] && t[2] == Spelt(word)[2];
    assert t[..|word|] == Spelt(word);
    assert !Starts(t, MSG) && !Starts(t, HMSG) by {
      assert |t| >= 4 ==> t[..4][0] == t[0];
      assert |t| >= 5 ==> t[..5][0] == t[0];
    }
    if word == "-ERR" {
      assert |t| >= 4 ==> t[..4][0] == t[0];
      assert t[..3][0] == t[0];
    } else {
      assert PING == Spelt("PING") && PONG == Spelt("PONG") && INFO == Spelt("INFO") && OK == Spelt("+OK");
    }
  }

  const CRLF: seq<Byte> := [Resp.CR, LF]

  // A header of words, as the server sends it.
  ghost function HeaderLine(words: seq<seq<Byte>>, headers: bool): seq<Byte> {
    (if headers then Spelt("HMSG") else Spelt("MSG")) + Spaced(words) + [Resp.CR]
  }

  lemma {:induction false} LeadingBlank(u: seq<Byte>, max: nat)
    ensures Tokens([0x20] + u, max) == Tokens(u, max)
  {
    var t := [0x20] + u;
    assert t[1..] == u && Blanks(t) == 1 + Blanks(u);
    assert t[Blanks(t)..] == u[Blanks(u)..];
  }

  // The two kinds of header lines are told apart, and their words read.
  lemma {:induction false} HeaderClassified(env: Env, words: seq<seq<Byte>>, headers: bool)
    requires AreWords(words) && (if headers then 4 else 3) <= |words| <= 5
    ensures Classify(env, Resp.Trim(HeaderLine(words, headers))) == MsgLine(env, Spaced(words), headers)
  {
    var u := Spaced(words);
    SpacedStarts(words);
    TrimEnd((if headers then Spelt("HMSG") else Spelt("MSG")) + u);
    PlainName(u);
    HeadersName(u);
    LeadingBlank(u[1..], 5);
    hide Spaced, AreWords, Tokens, MsgLine, Spelt, Resp.Trim;
    assert u == [0x20] + u[1..];
    SameTokens(env, u[1..], u, headers);
  }

  lemma {:induction false} SpacedStarts(words: seq<seq<Byte>>)
    requires words != []
    ensures Spaced(words) != [] && Spaced(words)[0] == 0x20
  {}

  lemma {:induction false} TrimEnd(t: seq<Byte>)
    ensures Resp.Trim(t + [Resp.CR]) == t
  {
    assert (t + [Resp.CR])[..|t|] == t;
  }

  lemma {:induction false} PlainName(u: seq<Byte>)
    requires u != [] && u[0] == 0x20
    ensures var t := Spelt("MSG") + u; Starts(t, MSG) && t[4..] == u[1..]
  {
    var t := Spelt("MSG") + u;
    assert t[..4] == MSG;
  }

  lemma {:induction false} HeadersName(u: seq<Byte>)
    requires u != [] && u[0] == 0x20
    ensures var t := Spelt("HMSG") + u; !Starts(t, MSG) && Starts(t, HMSG) && t[5..] == u[1..]
  {
    var t := Spelt("HMSG") + u;
    assert t[..5] == HMSG;
    assert t[..4][0] != MSG[0];
  }

  lemma {:induction false} SameTokens(env: Env, t: seq<Byte>, u: seq<Byte>, headers: bool)
    requires Tokens(t, 5) == Tokens(u, 5)
    ensures MsgLine(env, t, headers) == MsgLine(env, u, headers)
  {
    hide Tokens;
  }

  // What follows the headers is delivered without the line end behind it; headers with the status
  // 503 tell a verdict's asker that nobody answers.
  lemma {:induction false} DeliverIs(h: Head, headers: seq<Byte>, payload: seq<Byte>)
    requires h.route.Some? && h.hdr == |headers| && h.total == |headers| + |payload|
    ensures Deliver(h, headers + payload + CRLF)
         == if h.route.value.kind.Verdict? && Spelt("NATS/1.0 503") <= headers then Absent(h.route.value)
            else Payload(h.route.value, payload)
  {
    var bytes := headers + payload + CRLF;
    assert bytes[h.hdr..h.total] == payload && bytes[..h.hdr] == headers;
    assert NO_RESPONDERS == Spelt("NATS/1.0 503");
    if h.hdr >= 12 {
      assert bytes[..12] == headers[..12];
    }
  }

  // The words of a header name the lengths of headers and payload.
  ghost predicate Announces(words: seq<seq<Byte>>, withHeaders: bool, headers: seq<Byte>, payload: seq<Byte>) {
    && (if withHeaders then 4 else 3) <= |words| <= 5 && AreWords(words)
    && Says(words[|words| - 1], |headers| + |payload|)
    && (if withHeaders then Says(words[|words| - 2], |headers|) else headers == [])
  }

  ghost predicate Says(word: seq<Byte>, n: nat) { Digits(word) && Decimal(word) == n <= MAX_INT }

  // A message on the wire, from the words of its header line on. It brings exactly its payload
  // without the headers, or that nobody answers, if and only if its subscription and subject are
  // routed and it fits the buffer, or else is a dataset's within the limit for which there is
  // memory. The stream goes on behind it either way.
  lemma {:induction false} MessageDelivered(env: Env, c: Conn, words: seq<seq<Byte>>, withHeaders: bool,
                                            headers: seq<Byte>, payload: seq<Byte>)
    requires Announces(words, withHeaders, headers, payload) && LF !in HeaderLine(words, withHeaders)
    requires c.mode == Lines([]) && |HeaderLine(words, withHeaders)| < env.inSize
    ensures var d := Run(env, c, HeaderLine(words, withHeaders) + [LF] + (headers + payload + CRLF));
            var route, total := env.route(words[1], words[0]), |headers| + |payload|;
            var kept := route.Some? && (|| total + 2 <= env.inSize
                                        || (&& route.value.kind.Dataset? && total <= env.payloadMax
                                            && (c.bigSize >= total + 2 || env.mem(c.messages))));
            && d.mode == Lines([]) && d.messages == c.messages + 1 && d.bigSize >= c.bigSize
            && d.out == c.out + if !kept then []
                                else if route.value.kind.Verdict? && Spelt("NATS/1.0 503") <= headers
                                then [Absent(route.value)]
                                else [Payload(route.value, payload)]
  {
    var h := Head(env.route(words[1], words[0]), |headers|, |headers| + |payload|);
    HeaderClassified(env, words, withHeaders);
    HeaderRead(env, words, withHeaders);
    hide HeaderLine, Spaced, Classify, MsgLine, Run, AreWords;
    assert Classify(env, Resp.Trim(HeaderLine(words, withHeaders))) == Message(h);
    HeadDelivered(env, c, HeaderLine(words, withHeaders), headers + payload + CRLF, h);
    if h.route.Some? {
      DeliverIs(h, headers, payload);
    }
    hide Deliver;
  }

  // ---------------------------------------------------------------------------
  // The parser
  // ---------------------------------------------------------------------------

  class Bus {
    var input: seq<Byte>     // link.in between in_pos and in_last
    var payload: bool        // NGX_HTTP_WAF_NATS_ST_PAYLOAD
    var head: Head           // msg_kind, msg_index, msg_rid, msg_hdr, msg_total
    var valid: bool
    var collect: bool
    var skip: nat
    var big: seq<Byte>       // the big_len bytes collected
    var bigSize: nat
    var messages: nat
    var out: seq<Out>
    ghost var broken: bool

    ghost predicate Valid(env: Env) reads this {
      && (payload ==> head.hdr <= head.total && (valid ==> head.route.Some?))
      && (payload && skip > 0 ==> !valid && !collect)
      && (payload && collect ==> valid && skip == 0 && |big| < head.total + 2 <= bigSize)
      && (payload && skip == 0 && !collect ==> head.total + 2 <= env.inSize)
    }

    // The state apart from what is unread.
    ghost function Value(): Conn
      reads this
    {
      Conn(if broken then Broken
           else if !payload then Lines([])
           else if skip > 0 then Body(head, false, skip, [])
           else if collect then Body(head, valid, if |big| <= head.total + 2 then head.total + 2 - |big| else 0, big)
           else Body(head, valid, head.total + 2, []),
           bigSize, messages, out)
    }

    // Between reads: unread bytes are an unfinished line, or a payload left in the buffer.
    ghost predicate Idle(env: Env) reads this {
      && Valid(env) && !broken && |input| < env.inSize
      && (!payload ==> LF !in input)
      && (payload && (skip > 0 || collect) ==> input == [])
      && (payload && skip == 0 && !collect ==> |input| < head.total + 2)
    }

    ghost function State(): Conn
      reads this
    {
      var c := Value();
      if c.mode.Lines? then c.(mode := Lines(input))
      else if c.mode.Body? && skip == 0 && !collect && |input| <= head.total + 2 then
        c.(mode := Body(head, valid, head.total + 2 - |input|, if valid then input else []))
      else c
    }

    constructor (env: Env)
      requires env.inSize > 0
      ensures Idle(env) && State() == Conn(Lines([]), 0, 0, [])
    {
      input, payload, head, valid, collect, skip := [], false, Head(None, 0, 0), false, false, 0;
      big, bigSize, messages, out := [], 0, 0, [];
      broken := false;
    }

    // A read: as much as the buffer holds; the link is dropped when the parser fails or an
    // unfinished line fills the buffer.
    method Read(env: Env, chunk: seq<Byte>) returns (ok: bool)
      requires Idle(env) && |input| + |chunk| <= env.inSize
      modifies this
      ensures State() == Run(env, old(State()), chunk)
      ensures ok <==> !State().mode.Broken?
      ensures ok ==> Idle(env)
    {
      ghost var before := State();
      ghost var unread := input;
      input := input + chunk;
      Resumed(env, before, Value(), unread, chunk);
      ok := Parse(env);
      if ok && |input| == env.inSize {
        broken := true;
        ok := false;
      }
    }

    lemma {:induction false} Resumed(env: Env, before: Conn, c: Conn, unread: seq<Byte>, chunk: seq<Byte>)
      requires |unread| < env.inSize
      requires match c.mode
               case Lines(line) => line == [] && LF !in unread && before == c.(mode := Lines(unread))
               case Body(h, keep, left, got) =>
                 || (before == c && unread == [])
                 || (&& |unread| < left && got == []
                     && before == c.(mode := Body(h, keep, left - |unread|, if keep then unread else [])))
               case Broken => before == c
      ensures Run(env, c, unread + chunk) == Run(env, before, chunk)
    {
      FeedConcat(StepWith(env), c, unread, chunk);
      assert [] + unread == unread;
      match c.mode
      case Lines(_) => RunLine(env, c, unread);
      case Body(_, _, _, _) =>
        if unread != [] {
          RunBody(env, c, unread);
        }
      case Broken => FeedStays(StepWith(env), c, unread);
    }

    // ngx_http_waf_nats_parse
    method Parse(env: Env) returns (ok: bool)
      requires Valid(env) && !broken && |input| <= env.inSize && env.inSize > 0
      modifies this
      ensures ok == !broken && Valid(env) && |input| <= env.inSize
      ensures ok && |input| < env.inSize ==> Idle(env) && State() == Run(env, old(Value()), old(input))
      ensures ok && |input| == env.inSize ==> Value().(mode := Broken) == Run(env, old(Value()), old(input))
      ensures !ok ==> Value() == Run(env, old(Value()), old(input))
    {
      hide Step, StepWith, Feed, Run, OnLine;
      ghost var end := Run(env, Value(), input);
      var stop := false;
      while input != [] && !stop
        invariant Valid(env) && !broken && |input| <= env.inSize
        invariant end == Run(env, Value(), input)
        invariant stop ==> Waits()
        decreases |input|, !stop
      {
        if payload {
          if skip != 0 {
            TakeSkip(env);
          } else if collect {
            TakeCollect(env);
          } else if |input| < head.total + 2 {
            stop := true;
          } else {
            TakeInPlace(env);
          }
        } else {
          var lf := FindLf(input);
          if lf == |input| {
            stop := true;
          } else {
            LineEnds(env, Value(), input, lf);
            var line := input[..lf];
            input := input[lf + 1..];
            ok := TakeLine(env, line);
            if !ok {
              BrokenIgnores(env, Value(), input);
              return;
            }
          }
        }
      }
      ok := true;
      RunNone(env, Value());
      assert [] + input == input;
      if stop && payload {
        RunBody(env, Value(), input);
      } else if stop {
        RunLine(env, Value(), input);
      }
    }

    // What is unread does not complete anything.
    ghost predicate Waits() reads this {
      if payload then skip == 0 && !collect && |input| < head.total + 2 else LF !in input
    }

    method TakeSkip(env: Env)
      requires Valid(env) && !broken && payload && skip > 0 && input != []
      modifies this
      ensures Valid(env) && !broken && |input| < |old(input)|
      ensures Run(env, Value(), input) == Run(env, old(Value()), old(input))
    {
      var take := if |input| < skip then |input| else skip;
      FeedSplit(StepWith(env), Value(), input, take);
      RunBody(env, Value(), input[..take]);
      input := input[take..];
      skip := skip - take;
      if skip == 0 {
        payload := false;
        assert out + [] == out;
      }
    }

    method TakeCollect(env: Env)
      requires Valid(env) && !broken && payload && skip == 0 && collect && input != []
      modifies this
      ensures Valid(env) && !broken && |input| < |old(input)|
      ensures Run(env, Value(), input) == Run(env, old(Value()), old(input))
    {
      var left := head.total + 2 - |big|;
      var take := if |input| < left then |input| else left;
      FeedSplit(StepWith(env), Value(), input, take);
      RunBody(env, Value(), input[..take]);
      big := big + input[..take];
      input := input[take..];
      if |big| == head.total + 2 {
        out := out + [Deliver(head, big)];
        collect, big, payload := false, [], false;
      }
    }

    method TakeInPlace(env: Env)
      requires Valid(env) && !broken && payload && skip == 0 && !collect && |input| >= head.total + 2
      modifies this
      ensures Valid(env) && !broken && |input| < |old(input)|
      ensures Run(env, Value(), input) == Run(env, old(Value()), old(input))
    {
      var n := head.total + 2;
      FeedSplit(StepWith(env), Value(), input, n);
      RunBody(env, Value(), input[..n]);
      assert [] + input[..n] == input[..n];
      if valid {
        out := out + [Deliver(head, input[..n])];
      } else {
        assert out + [] == out;
      }
      input := input[n..];
      payload := false;
    }

    // nats_line and nats_msg_line
    method TakeLine(env: Env, line: seq<Byte>) returns (ok: bool)
      requires Valid(env) && !broken && !payload
      modifies this
      ensures Valid(env) && input == old(input) && ok == !broken
      ensures Value() == OnLine(env, old(Value()), line)
    {
      match Classify(env, Resp.Trim(line))
      case Refused =>
        broken := true;
        return false;
      case Quiet =>
        return true;
      case Message(h) =>
        TakeHead(env, h);
        return true;
    }

    method TakeHead(env: Env, h: Head)
      requires Valid(env) && !broken && !payload && h.hdr <= h.total
      modifies this
      ensures Valid(env) && input == old(input) && !broken
      ensures Value() == OnHead(env, old(Value()), h)
    {
      head, valid, collect, skip, payload := h, h.route.Some?, false, 0, true;
      messages := messages + 1;
      if h.total + 2 <= env.inSize {
        return;
      }
      if valid && h.route.value.kind.Dataset? && h.total <= env.payloadMax
         && (bigSize >= h.total + 2 || env.mem(messages - 1)) {
        if bigSize < h.total + 2 {
          bigSize := h.total + 2;
        }
        collect, big := true, [];
        return;
      }
      valid, skip := false, h.total + 2;
    }

    // ngx_http_waf_link_read_handler: takes what arrived in pieces that fit the buffer, until
    // nothing is left or the link is dropped.
    method Receive(env: Env, arrived: seq<Byte>) returns (ok: bool)
      requires Idle(env)
      modifies this
      ensures State() == Run(env, old(State()), arrived)
      ensures ok <==> !State().mode.Broken?
      ensures ok ==> Idle(env)
    {
      hide Step, StepWith, Feed;
      var done := 0;
      ok := true;
      assert arrived[0..] == arrived;
      while done < |arrived|
        invariant 0 <= done <= |arrived| && ok && Idle(env)
        invariant Run(env, State(), arrived[done..]) == Run(env, old(State()), arrived)
      {
        var n := if |arrived| - done < env.inSize - |input| then |arrived| - done else env.inSize - |input|;
        FeedOn(StepWith(env), State(), arrived, done, done + n);
        ok := Read(env, arrived[done..done + n]);
        if !ok {
          BrokenIgnores(env, State(), arrived[done + n..]);
          return;
        }
        done := done + n;
      }
      assert arrived[done..] == [];
      RunNone(env, State());
    }

    // Any number of arrivals, one after the other.
    method ReceiveAll(env: Env, arrivals: seq<seq<Byte>>) returns (ok: bool)
      requires Idle(env)
      modifies this
      ensures State() == Run(env, old(State()), Flat(arrivals))
      ensures ok <==> !State().mode.Broken?
      ensures ok ==> Idle(env)
    {
      hide Step, StepWith, Feed;
      ok := true;
      assert arrivals[0..] == arrivals;
      for i := 0 to |arrivals|
        invariant ok && Idle(env)
        invariant Run(env, State(), Flat(arrivals[i..])) == Run(env, old(State()), Flat(arrivals))
      {
        FeedArrival(StepWith(env), State(), arrivals, i);
        ok := Receive(env, arrivals[i]);
        if !ok {
          BrokenIgnores(env, State(), Flat(arrivals[i + 1..]));
          return;
        }
      }
      RunNone(env, State());
    }
  }

  // However the same bytes are cut into arrivals, and the arrivals into reads, two parsers in the
  // same state deliver the same messages, whichever way each payload took.
  method FragmentsDoNotMatter(env: Env, a: Bus, b: Bus, xs: seq<seq<Byte>>, ys: seq<seq<Byte>>) returns (ok: bool)
    requires a != b && a.Idle(env) && b.Idle(env) && a.State() == b.State() && Flat(xs) == Flat(ys)
    modifies a, b
    ensures a.State() == b.State() && a.out == b.out
    ensures ok <==> !a.State().mode.Broken?
  {
    ok := a.ReceiveAll(env, xs);
    var same := b.ReceiveAll(env, ys);
  }
}
