/** Name lists over the query string, byte by byte: ngx_http_waf_args_filter and
    ngx_http_waf_arg_name of module/src/body/ngx_http_waf_body.c, filterArgs of
    agent/internal/retain/filter.go, and the law that ties them to ngx_http_waf_lists_cover.
 */
module QueryArgs {
  import opened Bytes
  import opened JsonText
  import opened NameLists

  const AMP: Byte := 0x26
  const EQUALS: Byte := 0x3d
  const PERCENT: Byte := 0x25
  const PLUS: Byte := 0x2b

  // ---------------------------------------------------------------------------
  // Parts of a query string
  // ---------------------------------------------------------------------------

  function Index(s: seq<Byte>, c: Byte): (i: nat)
    ensures i <= |s| && (forall k | 0 <= k < i :: s[k] != c)
    ensures i < |s| ==> s[i] == c
    ensures i == |s| <==> c !in s
  {
    if s == [] || s[0] == c then 0 else 1 + Index(s[1..], c)
  }

  lemma {:induction false} IndexIs(s: seq<Byte>, c: Byte, i: nat)
    requires i <= |s| && (forall k | 0 <= k < i :: s[k] != c) && (i < |s| ==> s[i] == c)
    ensures Index(s, c) == i
  {}

  // strings.Split(s, "&")
  function Split(s: seq<Byte>): (parts: seq<seq<Byte>>)
    ensures |parts| > 0
  {
    var i := Index(s, AMP);
    if i == |s| then [s] else [s[..i]] + Split(s[i + 1..])
  }

  // The module's loop: the same, without an empty part at the end.
  function Parts(s: seq<Byte>): seq<seq<Byte>> {
    var i := Index(s, AMP);
    if s == [] then [] else if i == |s| then [s] else [s[..i]] + Parts(s[i + 1..])
  }

  function Join(parts: seq<seq<Byte>>): seq<Byte> {
    if parts == [] then []
    else if |parts| == 1 then parts[0]
    else parts[0] + [AMP] + Join(parts[1..])
  }

  ghost predicate Simple(parts: seq<seq<Byte>>) { forall i | 0 <= i < |parts| :: AMP !in parts[i] }

  lemma {:induction false} Unfold(s: seq<Byte>)
    ensures var i := Index(s, AMP);
            && (i == |s| ==> Split(s) == [s] && Parts(s) == if s == [] then [] else [s])
            && (i < |s| ==> Split(s) == [s[..i]] + Split(s[i + 1..]) && Parts(s) == [s[..i]] + Parts(s[i + 1..]))
  {
    hide Index;
  }

  lemma {:induction false} SplitIsParts(s: seq<Byte>)
    ensures Split(s) == Parts(s) || Split(s) == Parts(s) + [[]]
    decreases |s|
  {
    hide Index, Split, Parts;
    Unfold(s);
    var i := Index(s, AMP);
    if i < |s| {
      SplitIsParts(s[i + 1..]);
    }
  }

  lemma {:induction false} PartsSimple(s: seq<Byte>)
    ensures Simple(Parts(s))
    decreases |s|
  {
    hide Index, Split, Parts;
    Unfold(s);
    var i := Index(s, AMP);
    if i < |s| {
      PartsSimple(s[i + 1..]);
    }
  }

  lemma {:induction false} SplitJoin(parts: seq<seq<Byte>>)
    requires parts != [] && Simple(parts)
    ensures Split(Join(parts)) == parts
    decreases |parts|
  {
    hide Index, Split, Parts;
    var s := Join(parts);
    Unfold(s);
    if |parts| == 1 {
      IndexIs(s, AMP, |s|);
    } else {
      var i, rest := |parts[0]|, Join(parts[1..]);
      assert s == parts[0] + [AMP] + rest;
      SplitJoin(parts[1..]);
      hide Join;
      assert s[i] == AMP && s[..i] == parts[0] && s[i + 1..] == rest;
      IndexIs(s, AMP, i);
    }
  }

  lemma {:induction false} JoinSnoc(parts: seq<seq<Byte>>, part: seq<Byte>)
    ensures Join(parts + [part]) == (if parts == [] then part else Join(parts) + [AMP] + part)
    decreases |parts|
  {
    if |parts| > 0 {
      assert (parts + [part])[1..] == parts[1..] + [part];
      JoinSnoc(parts[1..], part);
      if |parts| == 1 {
        assert parts[1..] == [];
      }
    }
  }

  // ---------------------------------------------------------------------------
  // Names and values of a part
  // ---------------------------------------------------------------------------

  datatype Arg = Arg(name: seq<Byte>, hadEq: bool, value: seq<Byte>)

  // splitArg
  function SplitArg(part: seq<Byte>): (a: Arg)
    ensures ArgText(a) == part && EQUALS !in a.name
  {
    var i := Index(part, EQUALS);
    if i == |part| then Arg(part, false, []) else Arg(part[..i], true, part[i + 1..])
  }

  function ArgText(a: Arg): seq<Byte> { a.name + if a.hadEq then [EQUALS] + a.value else [] }

  lemma {:induction false} SplitArgText(name: seq<Byte>, value: seq<Byte>)
    requires EQUALS !in name
    ensures SplitArg(ArgText(Arg(name, true, value))) == Arg(name, true, value)
  {
    var s := ArgText(Arg(name, true, value));
    assert s[|name|] == EQUALS;
    IndexIs(s, EQUALS, |name|);
    assert s[..|name|] == name && s[|name| + 1..] == value;
  }

  // A name as it is matched: + is a space, a valid %XX its byte.
  function ArgName(raw: seq<Byte>): seq<Byte> {
    if raw == [] then []
    else if raw[0] == PLUS then [0x20] + ArgName(raw[1..])
    else if raw[0] == PERCENT && |raw| > 2 && HexDigit(raw[1]) && HexDigit(raw[2]) then
      [HexValue(raw[1]) * 16 + HexValue(raw[2])] + ArgName(raw[3..])
    else [raw[0]] + ArgName(raw[1..])
  }

  function NameUnit(raw: seq<Byte>, p: nat): (r: (Byte, nat))
    requires p < |raw|
    ensures p < p + r.1 <= |raw|
  {
    if raw[p] == PLUS then (0x20, 1)
    else if raw[p] == PERCENT && |raw| - p > 2 && HexDigit(raw[p + 1]) && HexDigit(raw[p + 2]) then
      (HexValue(raw[p + 1]) * 16 + HexValue(raw[p + 2]), 3)
    else (raw[p], 1)
  }

  lemma {:induction false} NameStep(raw: seq<Byte>, p: nat, out: seq<Byte>)
    requires p < |raw|
    ensures var unit := NameUnit(raw, p);
            out + ArgName(raw[p..]) == (out + [unit.0]) + ArgName(raw[p + unit.1..])
  {
    var rest, unit := raw[p..], NameUnit(raw, p);
    assert rest[0] == raw[p] && rest[1..] == raw[p + 1..];
    if |raw| - p > 2 {
      assert rest[1] == raw[p + 1] && rest[2] == raw[p + 2] && rest[3..] == raw[p + 3..];
    }
    assert ArgName(rest) == [unit.0] + ArgName(raw[p + unit.1..]);
    hide ArgName, NameUnit;
    assert out + ([unit.0] + ArgName(raw[p + unit.1..])) == (out + [unit.0]) + ArgName(raw[p + unit.1..]);
  }

  method NextUnit(raw: seq<Byte>, p: nat) returns (c: Byte, n: nat)
    requires p < |raw|
    ensures (c, n) == NameUnit(raw, p)
  {
    if raw[p] == PLUS {
      return 0x20, 1;
    }
    if raw[p] == PERCENT && |raw| - p > 2 && HexDigit(raw[p + 1]) && HexDigit(raw[p + 2]) {
      return HexValue(raw[p + 1]) * 16 + HexValue(raw[p + 2]), 3;
    }
    return raw[p], 1;
  }

  // ngx_http_waf_arg_name and argName
  method DecodeName(raw: seq<Byte>) returns (out: seq<Byte>)
    ensures out == ArgName(raw)
  {
    out := [];
    var p := 0;
    assert raw[0..] == raw && ArgName(raw[|raw|..]) == [] && [] + ArgName(raw) == ArgName(raw);
    hide ArgName, NameUnit;
    while p < |raw|
      invariant 0 <= p <= |raw| && ArgName(raw) == out + ArgName(raw[p..])
    {
      NameStep(raw, p, out);
      var c, n := NextUnit(raw, p);
      out, p := out + [c], p + n;
    }
    assert out + [] == out;
  }

  // ---------------------------------------------------------------------------
  // The two filters
  // ---------------------------------------------------------------------------

  function CaptureOf(h: Hash, cap: Lists, a: Arg): Option<Arg> {
    var key := ArgName(a.name);
    if Listed(cap.deny, key) then None
    else if Listed(cap.mask, key) then Some(Arg(a.name, true, h(a.value)))
    else Some(a)
  }

  function AgentOf(h: Hash, own: Lists, hashed: seq<Name>, a: Arg): Option<Arg> {
    var key := ArgName(a.name);
    if a.name == [] || AgentDrops(own, key) then None
    else if AgentListed(own.mask, key) then
      Some(Arg(a.name, true, if AgentListed(hashed, key) then a.value else h(a.value)))
    else Some(a)
  }

  function TextOf(a: Option<Arg>): Option<seq<Byte>> { if a.Some? then Some(ArgText(a.value)) else None }

  function CaptureArg(h: Hash, cap: Lists, part: seq<Byte>): Option<seq<Byte>> {
    TextOf(CaptureOf(h, cap, SplitArg(part)))
  }

  function AgentArg(h: Hash, own: Lists, hashed: seq<Name>, part: seq<Byte>): Option<seq<Byte>> {
    TextOf(AgentOf(h, own, hashed, SplitArg(part)))
  }

  function CaptureBy(h: Hash, cap: Lists): seq<Byte> -> Option<seq<Byte>> { part => CaptureArg(h, cap, part) }

  function AgentBy(h: Hash, own: Lists, hashed: seq<Name>): seq<Byte> -> Option<seq<Byte>> {
    part => AgentArg(h, own, hashed, part)
  }

  function CaptureArgs(h: Hash, cap: Lists, s: seq<Byte>): seq<Byte> {
    if cap.deny == [] && cap.mask == [] then s else Join(Each(CaptureBy(h, cap), Parts(s)))
  }

  predicate HasLists(own: Lists) { own.allow != [] || own.mask != [] || own.deny != [] }

  function AgentArgs(h: Hash, own: Lists, hashed: seq<Name>, s: seq<Byte>): seq<Byte> {
    if !HasLists(own) || s == [] then s
    else Join(Each(AgentBy(h, own, hashed), Split(s)))
  }

  // --- the module's loop ------------------------------------------------------

  method Put(buf: array<Byte>, at: nat, bytes: seq<Byte>) returns (next: nat)
    requires at + |bytes| <= buf.Length
    modifies buf
    ensures next == at + |bytes| && buf[..next] == old(buf[..at]) + bytes
  {
    for i := 0 to |bytes|
      invariant buf[..at] == old(buf[..at]) && buf[at..at + i] == bytes[..i]
    {
      buf[at + i] := bytes[i];
    }
    next := at + |bytes|;
    assert buf[..next] == buf[..at] + buf[at..next];
  }

  method Find(src: seq<Byte>, p: nat, c: Byte, d: Byte) returns (q: nat)
    requires p <= |src|
    ensures p <= q <= |src| && c !in src[p..q] && d !in src[p..q]
    ensures q < |src| ==> src[q] == c || src[q] == d
  {
    q := p;
    while q < |src| && src[q] != c && src[q] != d
      invariant p <= q <= |src| && c !in src[p..q] && d !in src[p..q]
    {
      assert src[p..q + 1] == src[p..q] + [src[q]];
      q := q + 1;
    }
  }

  // One part from p on; the next one begins at q.
  method NextArg(src: seq<Byte>, p: nat) returns (a: Arg, q: nat)
    requires p < |src|
    ensures p < q <= |src| && |ArgText(a)| <= q - p
    ensures Parts(src[p..]) == [ArgText(a)] + Parts(src[q..]) && a == SplitArg(ArgText(a))
  {
    hide Parts, SplitArg, Index;
    q := Find(src, p, EQUALS, AMP);
    a := Arg(src[p..q], false, []);
    if q < |src| && src[q] == EQUALS {
      var v := q + 1;
      q := Find(src, v, AMP, AMP);
      a := Arg(a.name, true, src[v..q]);
      SplitArgText(a.name, a.value);
      EqualsInside(src, p, v - 1, q);
    } else {
      SplitBare(a.name);
    }
    hide ArgText;
    PartEnds(src, p, q, a);
    if q < |src| && src[q] == AMP {
      q := q + 1;
    }
  }

  lemma {:induction false} EqualsInside(src: seq<Byte>, p: nat, e: nat, q: nat)
    requires p <= e < q <= |src| && src[e] == EQUALS && AMP !in src[p..e] && AMP !in src[e + 1..q]
    ensures ArgText(Arg(src[p..e], true, src[e + 1..q])) == src[p..q] && AMP !in src[p..q]
  {
    assert src[p..q] == src[p..e] + ([EQUALS] + src[e + 1..q]);
  }

  lemma {:induction false} SplitBare(name: seq<Byte>)
    requires EQUALS !in name
    ensures ArgText(Arg(name, false, [])) == name && SplitArg(name) == Arg(name, false, [])
  {
    IndexIs(name, EQUALS, |name|);
  }

  lemma {:induction false} PartEnds(src: seq<Byte>, p: nat, q: nat, a: Arg)
    requires p <= q <= |src| && p < |src| && ArgText(a) == src[p..q] && AMP !in src[p..q]
    requires q < |src| ==> src[q] == AMP
    ensures Parts(src[p..]) == [ArgText(a)] + Parts(src[if q < |src| then q + 1 else q..])
  {
    hide ArgText, Index, Split, Parts;
    var s := src[p..];
    AmpAt(src, p, q);
    Unfold(s);
    assert s[..q - p] == src[p..q];
    if q < |src| {
      assert s[q - p + 1..] == src[q + 1..];
    } else {
      assert s == src[p..q] && src[q..] == [];
      Unfold([]);
      IndexIs([], AMP, 0);
    }
  }

  lemma {:induction false} AmpAt(src: seq<Byte>, p: nat, q: nat)
    requires p <= q <= |src| && AMP !in src[p..q] && (q < |src| ==> src[q] == AMP)
    ensures Index(src[p..], AMP) == q - p
  {
    var s := src[p..];
    forall k | 0 <= k < q - p ensures s[k] != AMP {
      assert s[k] == src[p..q][k];
    }
    IndexIs(s, AMP, q - p);
  }

  function Amps(s: seq<Byte>): nat {
    if s == [] then 0 else (if s[0] == AMP then 1 else 0) + Amps(s[1..])
  }

  lemma {:induction false} AmpsAfter(s: seq<Byte>)
    requires Index(s, AMP) < |s|
    ensures Amps(s) == 1 + Amps(s[Index(s, AMP) + 1..])
  {
    if s[0] != AMP {
      AmpsAfter(s[1..]);
      assert s[1..][Index(s[1..], AMP) + 1..] == s[Index(s, AMP) + 1..];
    }
  }

  lemma {:induction false} PartsBound(s: seq<Byte>)
    ensures |Parts(s)| <= 1 + Amps(s)
    decreases |s|
  {
    hide Index, Split, Parts, Amps;
    Unfold(s);
    var i := Index(s, AMP);
    if i < |s| {
      PartsBound(s[i + 1..]);
      AmpsAfter(s);
    }
  }

  method CountPairs(src: seq<Byte>) returns (pairs: nat)
    ensures pairs == 1 + Amps(src)
  {
    pairs := 1;
    assert src[0..] == src;
    for p := 0 to |src|
      invariant pairs + Amps(src[p..]) == 1 + Amps(src)
    {
      assert src[p..][1..] == src[p + 1..];
      if src[p] == AMP {
        pairs := pairs + 1;
      }
    }
  }

  // The parts done so far, joined in the buffer, take no more than was read and 66 for each.
  ghost predicate Filtered(h: Hash, cap: Lists, src: seq<Byte>, p: nat, done: seq<seq<Byte>>, text: seq<Byte>,
                           first: bool) {
    && p <= |src| && Parts(src) == done + Parts(src[p..])
    && var kept := Each(CaptureBy(h, cap), done);
    && text == Join(kept) && (first <==> kept == []) && |text| <= p + 66 * |done|
  }

  lemma {:induction false} FilteredStep(h: Hash, cap: Lists, src: seq<Byte>, p: nat, q: nat, done: seq<seq<Byte>>,
                                        text: seq<Byte>, first: bool, a: Arg)
    requires IsHash(h) && Filtered(h, cap, src, p, done, text, first) && a == SplitArg(ArgText(a))
    requires p < q <= |src| && |ArgText(a)| <= q - p && Parts(src[p..]) == [ArgText(a)] + Parts(src[q..])
    ensures |done| + 1 <= |Parts(src)|
    ensures match CaptureArg(h, cap, ArgText(a))
            case None => Filtered(h, cap, src, q, done + [ArgText(a)], text, first)
            case Some(part) =>
              Filtered(h, cap, src, q, done + [ArgText(a)], text + (if first then [] else [AMP]) + part, false)
  {
    CaptureGrows(h, cap, a);
    hide Parts, CaptureArg, ArgText, SplitArg, IsHash, Each, Join;
    var part := ArgText(a);
    assert CaptureBy(h, cap)(part) == CaptureArg(h, cap, part);
    hide CaptureBy;
    KeepOne(CaptureBy(h, cap), done, part);
    Regroup(done, [part], Parts(src[q..]));
  }

  lemma {:induction false} KeepOne(f: seq<Byte> -> Option<seq<Byte>>, done: seq<seq<Byte>>, part: seq<Byte>)
    ensures Each(f, done + [part]) == Each(f, done) + Opt(f(part))
    ensures f(part).Some? ==>
              Join(Each(f, done + [part])) == Join(Each(f, done)) + (if Each(f, done) == [] then [] else [AMP])
                + f(part).value
    ensures f(part).None? ==> Each(f, done + [part]) == Each(f, done)
  {
    EachConcat(f, done, [part]);
    EachOne(f, part);
    if f(part).Some? {
      JoinSnoc(Each(f, done), f(part).value);
    }
  }

  lemma {:induction false} CaptureGrows(h: Hash, cap: Lists, a: Arg)
    requires IsHash(h) && a == SplitArg(ArgText(a))
    ensures CaptureArg(h, cap, ArgText(a)).Some? ==> |CaptureArg(h, cap, ArgText(a)).value| <= |ArgText(a)| + 65
  {
    assert IsHex64(h(a.value));
  }

  // What is kept of one part.
  method CaptureOne(h: Hash, cap: Lists, a: Arg) returns (kept: Option<Arg>)
    requires a == SplitArg(ArgText(a))
    ensures kept == CaptureOf(h, cap, a) && CaptureArg(h, cap, ArgText(a)) == TextOf(kept)
  {
    hide SplitArg, ArgText;
    var key := DecodeName(a.name);
    var denied := NameListed(cap.deny, key);
    if denied {
      return None;
    }
    var masked := NameListed(cap.mask, key);
    if masked {
      return Some(Arg(a.name, true, h(a.value)));
    }
    kept := Some(a);
  }

  // ngx_http_waf_args_filter; its buffer is never too small.
  method ArgsFilter(h: Hash, cap: Lists, src: seq<Byte>) returns (out: seq<Byte>)
    requires IsHash(h)
    ensures out == Join(Each(CaptureBy(h, cap), Parts(src)))
  {
    if src == [] {
      return src;
    }
    hide CaptureArg, SplitArg, Each, Join, IsHash;
    var pairs := CountPairs(src);
    var n := |src| + pairs * 66 + 1;
    var buf := new Byte[n];
    var dst, first, p := 0, true, 0;
    ghost var done: seq<seq<Byte>> := [];
    PartsBound(src);
    FilteredStart(h, cap, src);
    assert buf[..0] == [];
    while p < |src|
      invariant 0 <= dst <= buf.Length == n && Filtered(h, cap, src, p, done, buf[..dst], first)
    {
      hide Parts;
      var a, q := NextArg(src, p);
      FilteredStep(h, cap, src, p, q, done, buf[..dst], first, a);
      var kept := CaptureOne(h, cap, a);
      p, done := q, done + [ArgText(a)];
      if kept.None? {
        continue;
      }
      dst := Put(buf, dst, if first then [] else [AMP]);
      dst := Put(buf, dst, ArgText(kept.value));
      first := false;
    }
    out := buf[..dst];
    assert Parts(src[p..]) == [] && Parts(src) == done;
  }

  lemma {:induction false} FilteredStart(h: Hash, cap: Lists, src: seq<Byte>)
    ensures Filtered(h, cap, src, 0, [], [], true)
  {
    assert src[0..] == src && [] + Parts(src) == Parts(src);
  }

  method AgentOne(h: Hash, own: Lists, hashed: seq<Name>, part: seq<Byte>) returns (kept: Option<seq<Byte>>)
    ensures kept == AgentArg(h, own, hashed, part)
  {
    var a := SplitArg(part);
    var key := DecodeName(a.name);
    var keep := KeepName(own, key);
    if a.name == [] || !keep {
      return None;
    }
    var masked := AgentNameListed(own.mask, key);
    if masked {
      var done := AgentNameListed(hashed, key);
      a := Arg(a.name, true, if done then a.value else h(a.value));
    }
    kept := Some(ArgText(a));
  }

  lemma {:induction false} AgentIs(h: Hash, own: Lists, hashed: seq<Name>, part: seq<Byte>)
    ensures AgentBy(h, own, hashed)(part) == AgentArg(h, own, hashed, part)
  {}

  // filterArgs
  method FilterArgs(h: Hash, own: Lists, hashed: seq<Name>, src: seq<Byte>) returns (out: seq<Byte>)
    ensures out == if src == [] then src else Join(Each(AgentBy(h, own, hashed), Split(src)))
  {
    hide *;
    if src == [] {
      return src;
    }
    out := [];
    var parts, first := Split(src), true;
    ghost var f := AgentBy(h, own, hashed);
    NothingYet(f);
    for i := 0 to |parts|
      invariant out == Join(Each(f, parts[..i])) && (first <==> Each(f, parts[..i]) == [])
    {
      out, first := FilterPart(h, own, hashed, parts[i], out, first, parts[..i]);
      assert parts[..i + 1] == parts[..i] + [parts[i]];
    }
    assert parts[..|parts|] == parts;
  }

  // One round of the loop of filterArgs.
  method FilterPart(h: Hash, own: Lists, hashed: seq<Name>, part: seq<Byte>, out: seq<Byte>, first: bool,
                    ghost done: seq<seq<Byte>>)
    returns (out': seq<Byte>, first': bool)
    requires var f := AgentBy(h, own, hashed); out == Join(Each(f, done)) && (first <==> Each(f, done) == [])
    ensures var f := AgentBy(h, own, hashed);
            out' == Join(Each(f, done + [part])) && (first' <==> Each(f, done + [part]) == [])
  {
    AgentIs(h, own, hashed, part);
    KeepOne(AgentBy(h, own, hashed), done, part);
    hide AgentBy, AgentArg, Each, Join;
    var kept := AgentOne(h, own, hashed, part);
    if kept.None? {
      return out, first;
    }
    out' := out + (if first then [] else [AMP]) + kept.value;
    first' := false;
  }

  lemma {:induction false} NothingYet(f: seq<Byte> -> Option<seq<Byte>>)
    ensures Each(f, []) == [] && Join([]) == []
  {}

  // ---------------------------------------------------------------------------
  // The law for arguments
  // ---------------------------------------------------------------------------

  // What the agent makes of the capture view of one part.
  function FromCapture(h: Hash, cap: Lists, own: Lists): seq<Byte> -> Option<seq<Byte>> {
    part => Then(CaptureArg(h, cap, part), AgentBy(h, own, cap.mask))
  }

  // A name the agent takes for hashed although the module did not hash it has a value that is its
  // own hash.
  ghost predicate PartAgrees(h: Hash, cap: Lists, own: Lists, part: seq<Byte>) {
    var a := SplitArg(part);
    a.name != [] && Lookalike(cap, own, ArgName(a.name)) ==> a.value == h(a.value)
  }

  lemma {:induction false} FromCaptureIs(h: Hash, cap: Lists, own: Lists, part: seq<Byte>)
    ensures var c := CaptureOf(h, cap, SplitArg(part));
            FromCapture(h, cap, own)(part) == if c.Some? then TextOf(AgentOf(h, own, cap.mask, c.value)) else None
  {
    var a := SplitArg(part);
    var c := CaptureOf(h, cap, a);
    SplitArgText(a.name, h(a.value));
    assert c.Some? ==> SplitArg(ArgText(c.value)) == c.value;
    hide SplitArg, ArgText, CaptureOf, AgentOf;
  }

  lemma {:induction false} PartLaw(h: Hash, cap: Lists, own: Lists, part: seq<Byte>)
    requires IsHash(h) && AsciiLists(cap) && AsciiLists(own) && Covers(cap, own)
    ensures FromCapture(h, cap, own)(part) == AgentArg(h, own, [], part) <==> PartAgrees(h, cap, own, part)
    ensures FromCapture(h, cap, own)(part).Some? <==> AgentArg(h, own, [], part).Some?
  {
    hide FromCapture, ArgText, AgentFold, Fold, ArgName, SplitArg, Index, AgentListed, Listed, AgentDrops, Drops;
    hide Covers;
    hide IsHash, AsciiLists;
    var a := SplitArg(part);
    ModuleAndAgent(cap, own, ArgName(a.name));
    NoneListed(ArgName(a.name));
    FromCaptureIs(h, cap, own, part);
    ValueTold(a.name, a.value, h(a.value));
  }

  lemma {:induction false} NoneListed(n: Name)
    ensures !AgentListed([], n)
  {}

  lemma {:induction false} ValueTold(name: seq<Byte>, v: seq<Byte>, w: seq<Byte>)
    ensures ArgText(Arg(name, true, v)) == ArgText(Arg(name, true, w)) <==> v == w
  {
    var x, y := ArgText(Arg(name, true, v)), ArgText(Arg(name, true, w));
    assert x[|name| + 1..] == v && y[|name| + 1..] == w;
  }

  lemma {:induction false} AgentSimple(h: Hash, own: Lists, hashed: seq<Name>, part: seq<Byte>)
    requires IsHash(h) && AMP !in part
    ensures AgentArg(h, own, hashed, part).Some? ==> AMP !in AgentArg(h, own, hashed, part).value
  {
    var a := SplitArg(part);
    assert IsHex64(h(a.value));
    TextSimple(a);
    TextSimple(Arg(a.name, true, a.value));
    TextSimple(Arg(a.name, true, h(a.value)));
    assert a.hadEq || a.value == [];
    hide ArgText, SplitArg, ArgName, AgentDrops, AgentListed;
  }

  // A text is free of ampersands exactly when its name and value are.
  lemma {:induction false} TextSimple(a: Arg)
    ensures AMP !in ArgText(a) <==> AMP !in a.name && (a.hadEq ==> AMP !in a.value)
  {
    var t := ArgText(a);
    if AMP !in t {
      forall i | 0 <= i < |a.name| ensures a.name[i] != AMP {
        assert t[i] == a.name[i];
      }
      if a.hadEq {
        forall i | 0 <= i < |a.value| ensures a.value[i] != AMP {
          assert t[|a.name| + 1 + i] == a.value[i];
        }
      }
    }
  }

  lemma {:induction false} AgentEachSimple(h: Hash, own: Lists, hashed: seq<Name>, parts: seq<seq<Byte>>)
    requires IsHash(h) && Simple(parts)
    ensures Simple(Each(AgentBy(h, own, hashed), parts))
  {
    if parts != [] {
      AgentSimple(h, own, hashed, parts[0]);
      AgentEachSimple(h, own, hashed, parts[1..]);
    }
  }

  lemma {:induction false} JoinTells(a: seq<seq<Byte>>, b: seq<seq<Byte>>)
    requires Simple(a) && Simple(b) && |a| == |b|
    ensures Join(a) == Join(b) <==> a == b
  {
    if a != [] {
      SplitJoin(a);
      SplitJoin(b);
    }
  }

  lemma {:induction false} CaptureSimple(h: Hash, cap: Lists, part: seq<Byte>)
    requires IsHash(h) && AMP !in part
    ensures CaptureArg(h, cap, part).Some? ==> AMP !in CaptureArg(h, cap, part).value
  {
    var a := SplitArg(part);
    assert IsHex64(h(a.value));
    TextSimple(a);
    TextSimple(Arg(a.name, true, h(a.value)));
    hide ArgText, SplitArg, ArgName, Listed;
  }

  lemma {:induction false} EachSimple(h: Hash, cap: Lists, parts: seq<seq<Byte>>)
    requires IsHash(h) && Simple(parts)
    ensures Simple(Each(CaptureBy(h, cap), parts))
  {
    if parts != [] {
      CaptureSimple(h, cap, parts[0]);
      EachSimple(h, cap, parts[1..]);
    }
  }

  // The agent, given joined parts, works on those parts.
  lemma {:induction false} AgentOfJoin(h: Hash, own: Lists, hashed: seq<Name>, parts: seq<seq<Byte>>)
    requires Simple(parts) && HasLists(own)
    ensures AgentArgs(h, own, hashed, Join(parts)) == Join(Each(AgentBy(h, own, hashed), parts))
  {
    var f := AgentBy(h, own, hashed);
    if Join(parts) == [] {
      if parts != [] {
        assert |parts| == 1 && parts == [[]];
        EachOne(f, []);
        assert f([]) == None;
      }
    } else {
      SplitJoin(parts);
    }
  }

  lemma {:induction false} AgentOfOriginal(h: Hash, own: Lists, s: seq<Byte>)
    requires HasLists(own)
    ensures AgentArgs(h, own, [], s) == Join(Each(AgentBy(h, own, []), Parts(s)))
  {
    var f := AgentBy(h, own, []);
    SplitIsParts(s);
    if Split(s) != Parts(s) {
      EachConcat(f, Parts(s), [[]]);
      EachOne(f, []);
      assert f([]) == None;
      assert Each(f, Parts(s)) + [] == Each(f, Parts(s));
    }
  }

  ghost predicate ArgsCommute(h: Hash, cap: Lists, own: Lists) {
    forall s :: AgentArgs(h, own, cap.mask, CaptureArgs(h, cap, s)) == AgentArgs(h, own, [], s)
  }

  // With covering lists the archive made from the capture view is, byte for byte, the archive made
  // from the original, exactly when no value that the agent takes for hashed is left in clear.
  lemma {:induction false} CoveredArgs(h: Hash, cap: Lists, own: Lists, s: seq<Byte>)
    requires IsHash(h) && AsciiLists(cap) && AsciiLists(own) && Covers(cap, own)
    ensures AgentArgs(h, own, cap.mask, CaptureArgs(h, cap, s)) == AgentArgs(h, own, [], s)
       <==> forall part | part in Parts(s) :: PartAgrees(h, cap, own, part)
  {
    hide *;
    CaptureIs(h, cap, own, s);
    if cap.deny != [] || cap.mask != [] {
      NotEmpty(cap, own);
      var parts := Parts(s);
      PartsSimple(s);
      EachSimple(h, cap, parts);
      AgentOfJoin(h, own, cap.mask, Each(CaptureBy(h, cap), parts));
      AgentOfOriginal(h, own, s);
      ComposedParts(h, cap, own, parts);
      JoinTells(Each(FromCapture(h, cap, own), parts), Each(AgentBy(h, own, []), parts));
    }
  }

  lemma {:induction false} CaptureIs(h: Hash, cap: Lists, own: Lists, s: seq<Byte>)
    ensures cap.deny != [] || cap.mask != [] ==> CaptureArgs(h, cap, s) == Join(Each(CaptureBy(h, cap), Parts(s)))
    ensures cap.deny == [] && cap.mask == [] ==>
              CaptureArgs(h, cap, s) == s && forall part | part in Parts(s) :: PartAgrees(h, cap, own, part)
  {}

  lemma {:induction false} ComposedParts(h: Hash, cap: Lists, own: Lists, parts: seq<seq<Byte>>)
    requires IsHash(h) && AsciiLists(cap) && AsciiLists(own) && Covers(cap, own) && Simple(parts)
    ensures var f, g := FromCapture(h, cap, own), AgentBy(h, own, []);
            && Each(AgentBy(h, own, cap.mask), Each(CaptureBy(h, cap), parts)) == Each(f, parts)
            && Simple(Each(f, parts)) && Simple(Each(g, parts)) && |Each(f, parts)| == |Each(g, parts)|
            && (Each(f, parts) == Each(g, parts) <==> forall part | part in parts :: PartAgrees(h, cap, own, part))
  {
    hide *;
    var f, g := FromCapture(h, cap, own), AgentBy(h, own, []);
    forall part | part in parts
      ensures Then(CaptureBy(h, cap)(part), AgentBy(h, own, cap.mask)) == f(part)
      ensures f(part).Some? == g(part).Some? && (f(part) == g(part) <==> PartAgrees(h, cap, own, part))
    {
      PartLaw(h, cap, own, part);
      AgentIs(h, own, [], part);
      Composes(h, cap, own, part);
    }
    EachSimple(h, cap, parts);
    AgentEachSimple(h, own, cap.mask, Each(CaptureBy(h, cap), parts));
    AgentEachSimple(h, own, [], parts);
    EachAfterEach(CaptureBy(h, cap), AgentBy(h, own, cap.mask), f, parts);
    EachEqualIff(f, g, parts);
  }

  lemma {:induction false} Composes(h: Hash, cap: Lists, own: Lists, part: seq<Byte>)
    ensures Then(CaptureBy(h, cap)(part), AgentBy(h, own, cap.mask)) == FromCapture(h, cap, own)(part)
  {}

  lemma {:induction false} NotEmpty(cap: Lists, own: Lists)
    requires Covers(cap, own) && (cap.deny != [] || cap.mask != [])
    ensures HasLists(own)
  {
    if cap.deny != [] {
      assert Listed(cap.deny, cap.deny[0]);
    } else {
      assert Listed(cap.mask, cap.mask[0]);
    }
  }

  // --- every name can be sent -------------------------------------------------

  function Escaped(name: Name): seq<Byte> {
    if name == [] then [] else [PERCENT, Nibble(name[0] / 16), Nibble(name[0] % 16)] + Escaped(name[1..])
  }

  lemma {:induction false} EscapedReads(name: Name)
    ensures ArgName(Escaped(name)) == name && AMP !in Escaped(name) && EQUALS !in Escaped(name)
    ensures name != [] ==> Escaped(name) != []
  {
    if name != [] {
      EscapedReads(name[1..]);
      var e := Escaped(name);
      assert e[3..] == Escaped(name[1..]);
      assert name == [name[0]] + name[1..];
    }
  }

  // A name as a form sends it: spaces as plus signs, letters, digits and * - . _ as they are.
  function FormEncoded(name: Name): seq<Byte> {
    if name == [] then []
    else
      (if name[0] == 0x20 then [PLUS]
       else if Unreserved(name[0]) then [name[0]]
       else [PERCENT, Nibble(name[0] / 16), Nibble(name[0] % 16)])
      + FormEncoded(name[1..])
  }

  predicate Unreserved(c: Byte) {
    Digit(c) || 0x41 <= c <= 0x5a || 0x61 <= c <= 0x7a || c == 0x2a || c == 0x2d || c == 0x2e || c == 0x5f
  }

  lemma {:induction false} FormReads(name: Name)
    ensures ArgName(FormEncoded(name)) == name && AMP !in FormEncoded(name) && EQUALS !in FormEncoded(name)
  {
    if name != [] {
      FormReads(name[1..]);
      var e, rest := FormEncoded(name), FormEncoded(name[1..]);
      assert name == [name[0]] + name[1..];
      if name[0] == 0x20 || Unreserved(name[0]) {
        assert e[1..] == rest;
      } else {
        assert e[3..] == rest;
      }
    }
  }

  // One argument with that name, percent-encoded, and an empty value.
  lemma {:induction false} Sent(n: Name) returns (a: Arg, s: seq<Byte>)
    requires n != []
    ensures a == Arg(Escaped(n), true, []) && s == ArgText(a) && SplitArg(s) == a && ArgName(a.name) == n
    ensures a.name != [] && AMP !in a.name && Parts(s) == [s] && Split(s) == [s]
  {
    EscapedReads(n);
    a := Arg(Escaped(n), true, []);
    s := ArgText(a);
    SplitArgText(a.name, a.value);
    assert s != [] && AMP !in s;
    IndexIs(s, AMP, |s|);
    Unfold(s);
  }

  // The name that is not covered.
  lemma {:induction false} UncoveredArgs(h: Hash, cap: Lists, own: Lists)
    requires IsHash(h) && AsciiLists(cap) && AsciiLists(own) && !Covers(cap, own)
    requires forall n | n in cap.deny + cap.mask :: n != []
    ensures !ArgsCommute(h, cap, own)
  {
    var n := Uncovered(cap, own);
    assert Ascii(n) && n != [] && (cap.deny != [] || cap.mask != []);
    DropsAlike(own, n);
    ListedAlike(own.mask, n);
    var a, s := Sent(n);
    hide Index, Split, Parts, SplitArg, Escaped, ArgName, AgentListed, AgentDrops;
    if Listed(cap.deny, n) {
      UncoveredDeny(h, cap, own, n, a, s);
    } else {
      UncoveredMask(h, cap, own, n, a, s);
    }
  }

  lemma {:induction false} UncoveredDeny(h: Hash, cap: Lists, own: Lists, n: Name, a: Arg, s: seq<Byte>)
    requires IsHash(h) && !AgentDrops(own, n) && Listed(cap.deny, n) && cap.deny + cap.mask != []
    requires ArgName(a.name) == n && a.name != [] && s == ArgText(a) && SplitArg(s) == a && Parts(s) == [s]
    requires Split(s) == [s]
    ensures AgentArgs(h, own, cap.mask, CaptureArgs(h, cap, s)) != AgentArgs(h, own, [], s)
  {
    hide Index, Split, Parts, SplitArg, ArgName, AgentListed, AgentDrops;
    EachOne(CaptureBy(h, cap), s);
    assert CaptureArgs(h, cap, s) == [];
    EachOne(AgentBy(h, own, []), s);
    assert AgentArgs(h, own, [], s) != [];
  }

  lemma {:induction false} UncoveredMask(h: Hash, cap: Lists, own: Lists, n: Name, a: Arg, s: seq<Byte>)
    requires IsHash(h) && !AgentDrops(own, n) && !Listed(cap.deny, n) && Listed(cap.mask, n)
    requires !AgentListed(own.mask, n)
    requires a == Arg(a.name, true, []) && ArgName(a.name) == n && a.name != [] && s == ArgText(a) && SplitArg(s) == a
    requires AMP !in a.name && Parts(s) == [s] && Split(s) == [s]
    ensures AgentArgs(h, own, cap.mask, CaptureArgs(h, cap, s)) != AgentArgs(h, own, [], s)
  {
    assert IsHex64(h([]));
    var c := ArgText(Arg(a.name, true, h([])));
    EachOne(CaptureBy(h, cap), s);
    SplitArgText(a.name, h([]));
    assert AMP !in c;
    IndexIs(c, AMP, |c|);
    Unfold(c);
    hide Index, Split, Parts, SplitArg, ArgName, AgentListed, AgentDrops;
    assert CaptureArgs(h, cap, s) == c;
    EachOne(AgentBy(h, own, cap.mask), c);
    EachOne(AgentBy(h, own, []), s);
  }

  // A name only the agent takes for one that was hashed.
  lemma {:induction false} AmbiguousArgs(h: Hash, cap: Lists, own: Lists)
    requires IsHash(h) && AsciiLists(cap) && AsciiLists(own) && Covers(cap, own) && !Unambiguous(cap, own)
    ensures !ArgsCommute(h, cap, own)
  {
    LookalikesExist(cap, own);
    var n :| Lookalike(cap, own, n);
    ListedAlike(cap.mask, n);
    assert IsHex64(h([])) && n != [];
    var a, s := Sent(n);
    CoveredArgs(h, cap, own, s);
    hide Parts, SplitArg, Lookalike, ArgName, CaptureArgs, AgentArgs;
    assert s in Parts(s) && !PartAgrees(h, cap, own, s);
  }

  // For every query string the archives agree byte for byte, if and only if
  // ngx_http_waf_lists_cover says yes and no name that both sides hash has an s or a k in it.
  lemma {:induction false} ArgsLaw(h: Hash, cap: Lists, own: Lists)
    requires IsHash(h) && AsciiLists(cap) && AsciiLists(own)
    requires forall n | n in cap.deny + cap.mask :: n != []
    ensures ArgsCommute(h, cap, own) <==> Covers(cap, own) && Unambiguous(cap, own)
  {
    if !Covers(cap, own) {
      UncoveredArgs(h, cap, own);
    } else if !Unambiguous(cap, own) {
      AmbiguousArgs(h, cap, own);
    } else {
      LookalikesExist(cap, own);
      forall s ensures AgentArgs(h, own, cap.mask, CaptureArgs(h, cap, s)) == AgentArgs(h, own, [], s) {
        CoveredArgs(h, cap, own, s);
        forall part | part in Parts(s) ensures PartAgrees(h, cap, own, part) {
          assert !Lookalike(cap, own, ArgName(SplitArg(part).name));
        }
      }
    }
  }

  // --- a masked value archived in clear ---------------------------------------

  const SID: Name := [0x73, 0x69, 0x64]
  const SID_MASKED := Lists([], [SID], [])

  // %C5%BFid=x
  const TWIN_NAME: seq<Byte> := [0x25, 0x43, 0x35, 0x25, 0x42, 0x46, 0x69, 0x64]

  lemma {:induction false} TwinDecoded()
    ensures ArgName(TWIN_NAME) == [0xc5, 0xbf, 0x69, 0x64]
  {
    var t := TWIN_NAME;
    assert t[3..] == [0x25, 0x42, 0x46, 0x69, 0x64] && t[3..][3..] == [0x69, 0x64];
    assert ArgName([0x64]) == [0x64] + ArgName([]);
    assert [0x69, 0x64][1..] == [0x64];
    assert ArgName([0x69, 0x64]) == [0x69] + ArgName([0x64]);
    assert ArgName(t[3..]) == [0xbf] + ArgName(t[3..][3..]);
    assert ArgName(t) == [0xc5] + ArgName(t[3..]);
  }

  lemma {:induction false} TwinOfSid(n: Name)
    requires n == [0xc5, 0xbf, 0x69, 0x64]
    ensures Lookalike(SID_MASKED, SID_MASKED, n) && !Listed([], n) && !AgentListed([], n)
  {
    var list := SID_MASKED;
    assert TwinAt(SID, 0) && n == Twin(SID, 0);
    assert Ascii(SID);
    TwinFolds(SID, 0);
    assert list.mask[0] == SID;
    assert AgentListed(list.mask, n);
    ListedAlike(list.mask, n);
  }

  // With `sid` masked by both sides the lists cover each other, the capture leaves %C5%BFid=x as it
  // is, and the agent archives it so, taking it for hashed; from the original it archives the hash.
  lemma {:induction false} MaskedValueInClear(h: Hash, s: seq<Byte>)
    requires IsHash(h) && s == ArgText(Arg(TWIN_NAME, true, [0x78]))
    ensures Covers(SID_MASKED, SID_MASKED)
    ensures AgentArgs(h, SID_MASKED, SID_MASKED.mask, CaptureArgs(h, SID_MASKED, s)) == s
    ensures AgentArgs(h, SID_MASKED, [], s) == ArgText(Arg(TWIN_NAME, true, h([0x78])))
  {
    hide *;
    CoversItself(SID_MASKED);
    TwinSent(s);
    TwinDecoded();
    TwinOfSid(ArgName(TWIN_NAME));
    TwinParts(h, s);
    CapturesOne(h, SID_MASKED, s, s);
    ArchivesOne(h, SID_MASKED, SID_MASKED.mask, s, s);
    ArchivesOne(h, SID_MASKED, [], s, ArgText(Arg(TWIN_NAME, true, h([0x78]))));
  }

  lemma {:induction false} TwinSent(s: seq<Byte>)
    requires s == ArgText(Arg(TWIN_NAME, true, [0x78]))
    ensures s != [] && SplitArg(s) == Arg(TWIN_NAME, true, [0x78]) && Parts(s) == [s] && Split(s) == [s]
    ensures SID_MASKED.mask != [] && s == ArgText(SplitArg(s))
  {
    hide Index, Split, Parts, SplitArg;
    assert EQUALS !in TWIN_NAME && AMP !in TWIN_NAME;
    SplitArgText(TWIN_NAME, [0x78]);
    TextSimple(Arg(TWIN_NAME, true, [0x78]));
    IndexIs(s, AMP, |s|);
    Unfold(s);
  }

  lemma {:induction false} CapturesOne(h: Hash, cap: Lists, s: seq<Byte>, kept: seq<Byte>)
    requires cap.mask != [] && Parts(s) == [s] && CaptureArg(h, cap, s) == Some(kept)
    ensures CaptureArgs(h, cap, s) == kept
  {
    hide Parts, CaptureArg;
    EachOne(CaptureBy(h, cap), s);
  }

  lemma {:induction false} ArchivesOne(h: Hash, own: Lists, hashed: seq<Name>, s: seq<Byte>, kept: seq<Byte>)
    requires own.mask != [] && s != [] && Split(s) == [s] && AgentArg(h, own, hashed, s) == Some(kept)
    ensures AgentArgs(h, own, hashed, s) == kept
  {
    hide Split, AgentArg;
    EachOne(AgentBy(h, own, hashed), s);
  }

  lemma {:induction false} TwinParts(h: Hash, s: seq<Byte>)
    requires SplitArg(s) == Arg(TWIN_NAME, true, [0x78]) && s == ArgText(SplitArg(s))
    requires var n := ArgName(TWIN_NAME);
             Lookalike(SID_MASKED, SID_MASKED, n) && !Listed([], n) && !AgentListed([], n)
    ensures CaptureArg(h, SID_MASKED, s) == Some(s)
    ensures AgentArg(h, SID_MASKED, SID_MASKED.mask, s) == Some(s)
    ensures AgentArg(h, SID_MASKED, [], s) == Some(ArgText(Arg(TWIN_NAME, true, h([0x78]))))
  {
    hide SplitArg, ArgText, ArgName, AgentListed, Listed;
  }
}
