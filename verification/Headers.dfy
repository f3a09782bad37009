/** Header views: ngx_http_waf_headers_collect of module/src/body/ngx_http_waf_body.c, filterHeaders
    of agent/internal/retain/filter.go, and the law that ties them to ngx_http_waf_lists_cover.
 */
module Headers {
  import opened Bytes
  import opened JsonText
  import opened NameLists
  import Utf8

  datatype Pair = Pair(name: Name, value: seq<Byte>)

  // ---------------------------------------------------------------------------
  // The views
  // ---------------------------------------------------------------------------

  function CapturePair(h: Hash, cap: Lists, p: Pair): Option<Pair> {
    if Listed(cap.deny, p.name) then None
    else if Listed(cap.mask, p.name) then Some(Pair(p.name, h(p.value)))
    else Some(p)
  }

  function AgentPair(h: Hash, own: Lists, hashed: seq<Name>, p: Pair): Option<Pair> {
    if AgentDrops(own, p.name) then None
    else if AgentListed(own.mask, p.name) then
      Some(Pair(p.name, if AgentListed(hashed, p.name) then p.value else h(p.value)))
    else Some(p)
  }

  // Headers travel as JSON strings, so what was not UTF-8 arrives repaired.
  function SeenPair(p: Pair): Pair { Pair(Utf8.Sanitize(p.name), Utf8.Sanitize(p.value)) }

  function Capture(h: Hash, cap: Lists, pairs: seq<Pair>): seq<Pair> { Each(p => CapturePair(h, cap, p), pairs) }

  function Agent(h: Hash, own: Lists, hashed: seq<Name>, pairs: seq<Pair>): seq<Pair> {
    Each(p => AgentPair(h, own, hashed, p), pairs)
  }

  function Seen(pairs: seq<Pair>): seq<Pair> { Each(p => Some(SeenPair(p)), pairs) }

  // ---------------------------------------------------------------------------
  // The capture as text
  // ---------------------------------------------------------------------------

  const COMMA: Byte := 0x2c
  const OPEN: Byte := 0x5b
  const CLOSE: Byte := 0x5d

  function PairText(p: Pair): (t: seq<Byte>)
    ensures |t| <= 6 * |p.name| + 6 * |p.value| + 7
  {
    [OPEN] + Write(p.name) + [COMMA] + Write(p.value) + [CLOSE]
  }

  function Items(pairs: seq<Pair>): seq<Byte> {
    if pairs == [] then []
    else
      var n := |pairs| - 1;
      Items(pairs[..n]) + (if n == 0 then [] else [COMMA]) + PairText(pairs[n])
  }

  function Text(pairs: seq<Pair>): seq<Byte> { [OPEN] + Items(pairs) + [CLOSE] }

  lemma {:induction false} ItemsSnoc(pairs: seq<Pair>, p: Pair)
    ensures Items(pairs + [p]) == Items(pairs) + (if pairs == [] then [] else [COMMA]) + PairText(p)
  {
    assert (pairs + [p])[..|pairs|] == pairs;
  }

  // --- reading it back ---------------------------------------------------------

  predicate Is(s: seq<Byte>, p: nat, c: Byte) { p < |s| && s[p] == c }

  // Two strings in brackets, the name first, and where the text goes on.
  function ReadPair(s: seq<Byte>, p: nat): (r: Option<(Pair, nat)>)
    ensures r.Some? ==> p < r.value.1 <= |s|
  {
    if !Is(s, p, OPEN) || !Is(s, p + 1, QUOTE) then None
    else match Body(s, p + 2)
      case None => None
      case Some(name) =>
        if !Is(s, name.next, COMMA) || !Is(s, name.next + 1, QUOTE) then None
        else match Body(s, name.next + 2)
          case None => None
          case Some(value) =>
            if !Is(s, value.next, CLOSE) then None else Some((Pair(name.bytes, value.bytes), value.next + 1))
  }

  // Behind a pair: the closing bracket and the end, or a comma and more pairs.
  function ReadRest(s: seq<Byte>, p: nat): Option<seq<Pair>>
    decreases |s| - p
  {
    if p + 1 == |s| && s[p] == CLOSE then Some([])
    else if !Is(s, p, COMMA) then None
    else ReadMore(s, p + 1)
  }

  function ReadMore(s: seq<Byte>, p: nat): Option<seq<Pair>>
    decreases |s| - p
  {
    match ReadPair(s, p)
    case None => None
    case Some((x, q)) =>
      match ReadRest(s, q)
      case None => None
      case Some(rest) => Some([x] + rest)
  }

  // A list of pairs of strings, to the end of the text.
  function ReadText(s: seq<Byte>): Option<seq<Pair>> {
    if !Is(s, 0, OPEN) then None
    else if |s| == 2 && s[1] == CLOSE then Some([])
    else ReadMore(s, 1)
  }

  lemma {:induction false} PairParts(s: seq<Byte>, p: nat, x: Pair)
    requires At(s, p, PairText(x))
    ensures var q := p + 1 + |Write(x.name)|;
            var r := q + 1 + |Write(x.value)|;
            && Is(s, p, OPEN) && At(s, p + 1, Write(x.name)) && Is(s, q, COMMA) && At(s, q + 1, Write(x.value))
            && Is(s, r, CLOSE) && r + 1 == p + |PairText(x)|
  {
    var a, b := Write(x.name), Write(x.value);
    assert PairText(x) == [OPEN] + (a + ([COMMA] + (b + [CLOSE])));
    hide Write, At;
    AtSplit(s, p, [OPEN], a + ([COMMA] + (b + [CLOSE])));
    AtSplit(s, p + 1, a, [COMMA] + (b + [CLOSE]));
    AtSplit(s, p + 1 + |a|, [COMMA], b + [CLOSE]);
    AtSplit(s, p + 2 + |a|, b, [CLOSE]);
    AtOne(s, p, OPEN);
    AtOne(s, p + 1 + |a|, COMMA);
    AtOne(s, p + 2 + |a| + |b|, CLOSE);
  }

  lemma {:induction false} AtOne(s: seq<Byte>, p: nat, c: Byte)
    ensures At(s, p, [c]) <==> Is(s, p, c)
  {
    if At(s, p, [c]) {
      assert s[p + 0] == [c][0];
    }
  }

  lemma {:induction false} WriteQuoted(s: seq<Byte>, p: nat, x: seq<Byte>)
    requires At(s, p, Write(x))
    ensures Is(s, p, QUOTE)
  {
    assert s[p + 0] == Write(x)[0];
  }

  // What is written of a pair is read as the pair, repaired.
  lemma {:induction false} PairReadsBack(s: seq<Byte>, p: nat, x: Pair)
    requires At(s, p, PairText(x))
    ensures ReadPair(s, p) == Some((SeenPair(x), p + |PairText(x)|))
  {
    hide At, PairText, Body, Write, Utf8.Sanitize, Utf8.Valid, ReadPair;
    PairParts(s, p, x);
    var q := p + 1 + |Write(x.name)|;
    var r := q + 1 + |Write(x.value)|;
    WriteQuoted(s, p + 1, x.name);
    WriteReadsBack(s, p + 1, x.name);
    WriteQuoted(s, q + 1, x.value);
    WriteReadsBack(s, q + 1, x.value);
    ReadPairIs(s, p, Piece(q, Utf8.Sanitize(x.name)), Piece(r, Utf8.Sanitize(x.value)));
  }

  lemma {:induction false} ReadPairIs(s: seq<Byte>, p: nat, name: Piece, value: Piece)
    requires Is(s, p, OPEN) && Is(s, p + 1, QUOTE) && Body(s, p + 2) == Some(name)
    requires Is(s, name.next, COMMA) && Is(s, name.next + 1, QUOTE) && Body(s, name.next + 2) == Some(value)
    requires Is(s, value.next, CLOSE)
    ensures ReadPair(s, p) == Some((Pair(name.bytes, value.bytes), value.next + 1))
  {
    hide Body;
  }

  // The text of all pairs but the first.
  ghost function Rest(pairs: seq<Pair>): seq<Byte> {
    if pairs == [] then [] else [COMMA] + (PairText(pairs[0]) + Rest(pairs[1..]))
  }

  lemma {:induction false} RestSnoc(pairs: seq<Pair>, p: Pair)
    ensures Rest(pairs + [p]) == Rest(pairs) + ([COMMA] + PairText(p))
    decreases |pairs|
  {
    hide Rest, PairText;
    var all := pairs + [p];
    RestFirst(all);
    if pairs == [] {
      assert all[1..] == [];
      RestNone();
      assert PairText(p) + [] == PairText(p) && [] + ([COMMA] + PairText(p)) == [COMMA] + PairText(p);
    } else {
      RestFirst(pairs);
      RestSnoc(pairs[1..], p);
      assert all[1..] == pairs[1..] + [p] && all[0] == pairs[0];
      Regroup(PairText(pairs[0]), Rest(pairs[1..]), [COMMA] + PairText(p));
      Regroup([COMMA], PairText(pairs[0]) + Rest(pairs[1..]), [COMMA] + PairText(p));
    }
  }

  lemma {:induction false} NoItems()
    ensures Items([]) == []
  {}

  lemma {:induction false} RestNone()
    ensures Rest([]) == []
  {}

  lemma {:induction false} RestFirst(pairs: seq<Pair>)
    requires pairs != []
    ensures Rest(pairs) == [COMMA] + (PairText(pairs[0]) + Rest(pairs[1..]))
  {}

  lemma {:induction false} ItemsFirst(pairs: seq<Pair>)
    requires pairs != []
    ensures Items(pairs) == PairText(pairs[0]) + Rest(pairs[1..])
    decreases |pairs|
  {
    hide PairText, Items, Rest;
    var n := |pairs| - 1;
    var front, last := pairs[..n], pairs[n];
    assert pairs == front + [last];
    ItemsSnoc(front, last);
    if n == 0 {
      assert pairs[1..] == [] && front == [];
      NoItems();
      RestNone();
      assert [] + [] + PairText(last) == PairText(last) + [];
    } else {
      ItemsFirst(front);
      RestSnoc(front[1..], last);
      assert pairs[1..] == front[1..] + [last];
      var a, b, c := PairText(pairs[0]), Rest(front[1..]), [COMMA] + PairText(last);
      Regroup(a + b, [COMMA], PairText(last));
      Regroup(a, b, c);
    }
  }

  lemma {:induction false} SeenFirst(pairs: seq<Pair>)
    requires pairs != []
    ensures Seen(pairs) == [SeenPair(pairs[0])] + Seen(pairs[1..])
  {
    EachFirst(p => Some(SeenPair(p)), pairs);
  }

  lemma {:induction false} MoreReads(s: seq<Byte>, p: nat, pairs: seq<Pair>)
    requires pairs != [] && At(s, p, PairText(pairs[0]) + (Rest(pairs[1..]) + [CLOSE]))
    requires p + |PairText(pairs[0]) + (Rest(pairs[1..]) + [CLOSE])| == |s|
    ensures ReadMore(s, p) == Some(Seen(pairs))
    decreases |pairs|, 0
  {
    hide At, PairText, ReadPair, Rest, SeenPair, Seen, ReadRest;
    AtSplit(s, p, PairText(pairs[0]), Rest(pairs[1..]) + [CLOSE]);
    PairReadsBack(s, p, pairs[0]);
    RestReads(s, p + |PairText(pairs[0])|, pairs[1..]);
    SeenFirst(pairs);
  }

  lemma {:induction false} RestReads(s: seq<Byte>, p: nat, pairs: seq<Pair>)
    requires At(s, p, Rest(pairs) + [CLOSE]) && p + |Rest(pairs) + [CLOSE]| == |s|
    ensures ReadRest(s, p) == Some(Seen(pairs))
    decreases |pairs|, 1
  {
    hide At, PairText, ReadMore;
    if pairs == [] {
      EachNone(x => Some(SeenPair(x)));
      assert Rest(pairs) + [CLOSE] == [CLOSE];
      AtOne(s, p, CLOSE);
    } else {
      var more := PairText(pairs[0]) + (Rest(pairs[1..]) + [CLOSE]);
      assert Rest(pairs) + [CLOSE] == [COMMA] + more;
      hide Rest, Seen;
      AtSplit(s, p, [COMMA], more);
      AtOne(s, p, COMMA);
      MoreReads(s, p + 1, pairs);
    }
  }

  lemma {:induction false} AtSelf(t: seq<Byte>)
    ensures At(t, 0, t)
  {}

  // The text carries the view: read back it is the headers, in order, name and value repaired.
  lemma {:induction false} TextReadsBack(pairs: seq<Pair>)
    ensures ReadText(Text(pairs)) == Some(Seen(pairs))
  {
    var t := Text(pairs);
    AtSelf(t);
    if pairs == [] {
      EachNone(x => Some(SeenPair(x)));
      assert t == [OPEN, CLOSE];
    } else {
      ItemsFirst(pairs);
      hide At, PairText, Items, Rest, Seen, ReadMore;
      var a, b := PairText(pairs[0]), Rest(pairs[1..]);
      assert t == [OPEN] + (a + (b + [CLOSE]));
      AtSplit(t, 0, [OPEN], a + (b + [CLOSE]));
      MoreReads(t, 1, pairs);
      assert |t| > 2 by {
        PairLong(pairs[0]);
      }
    }
  }

  lemma {:induction false} PairLong(p: Pair)
    ensures |PairText(p)| > 2
  {}

  // The buffer headers_collect allocates: hdr_room of a key and of its value, a hash allowed for.
  function Room(masks: bool, p: Pair): nat {
    var value := 6 * |p.value| + 8;
    6 * |p.name| + 8 + (if masks && value < 6 * 64 + 8 then 6 * 64 + 8 else value) + 8
  }

  function Size(masks: bool, pairs: seq<Pair>): nat {
    if pairs == [] then 2 else Size(masks, pairs[..|pairs| - 1]) + Room(masks, pairs[|pairs| - 1])
  }

  lemma {:induction false} SizeGrows(masks: bool, pairs: seq<Pair>, i: nat)
    requires i <= |pairs|
    ensures Size(masks, pairs[..i]) <= Size(masks, pairs)
    decreases |pairs|
  {
    if i == |pairs| {
      assert pairs[..i] == pairs;
    } else {
      var n := |pairs| - 1;
      SizeGrows(masks, pairs[..n], i);
      assert pairs[..n][..i] == pairs[..i];
    }
  }

  ghost function View(h: Hash, cap: Lists, raw: bool, pairs: seq<Pair>): seq<Pair> {
    if raw then pairs else Capture(h, cap, pairs)
  }

  // What headers_collect keeps of one pair.
  method CaptureOne(h: Hash, cap: Lists, raw: bool, p: Pair) returns (kept: Option<Pair>)
    requires IsHash(h)
    ensures kept == if raw then Some(p) else CapturePair(h, cap, p)
    ensures kept.Some? ==> |PairText(kept.value)| + 1 <= Room(cap.mask != [], p)
  {
    if raw {
      return Some(p);
    }
    var denied := NameListed(cap.deny, p.name);
    if denied {
      return None;
    }
    var masked := NameListed(cap.mask, p.name);
    assert IsHex64(h(p.value));
    return Some(Pair(p.name, if masked then h(p.value) else p.value));
  }

  // ngx_http_waf_headers_collect: the longest beginning of the view whose text is within the limit,
  // in a buffer that is never too small, the pair that is rolled back at the limit included.
  method HeadersCollect(h: Hash, cap: Lists, raw: bool, pairs: seq<Pair>, limit: Option<nat>)
    returns (out: seq<Byte>, truncated: bool, ghost n: nat)
    requires IsHash(h)
    ensures |out| <= Size(cap.mask != [], pairs)
    ensures var view := View(h, cap, raw, pairs);
            && n <= |view| && out == Text(view[..n])
            && (truncated <==> n < |view|)
            && (limit.Some? && n > 0 ==> |out| <= limit.value)
            && (truncated ==> limit.Some? && |Text(view[..n + 1])| > limit.value)
            && (truncated ==> |Text(view[..n + 1])| <= Size(cap.mask != [], pairs))
            && ReadText(out) == Some(Seen(view[..n]))
  {
    hide Text, View, Size, Items, PairText, Collected, CapturePair, IsHash, Each, Capture, Room, ReadText, Seen;
    out, truncated := [OPEN], false;
    ghost var view: seq<Pair> := [];
    var first := true;
    CollectStart(h, cap, raw, pairs, limit);
    for i := 0 to |pairs|
      invariant Collected(h, cap, raw, pairs, limit, i, view, out) && (first <==> view == [])
    {
      var kept := CaptureOne(h, cap, raw, pairs[i]);
      CollectStep(h, cap, raw, pairs, limit, i, view, out, kept);
      if kept.None? {
        continue;
      }
      var mark := out;
      out := out + (if first then [] else [COMMA]) + PairText(kept.value);
      if limit.Some? && |out| + 1 > limit.value {
        TextReadsBack(View(h, cap, raw, pairs)[..|view|]);
        return mark + [CLOSE], true, |view|;
      }
      view := view + [kept.value];
      first := false;
    }
    CollectEnd(h, cap, raw, pairs, limit, view, out);
    TextReadsBack(view[..|view|]);
    return out + [CLOSE], false, |view|;
  }

  // The view of the first i pairs is written, but for its closing bracket, within the limit.
  ghost predicate Collected(h: Hash, cap: Lists, raw: bool, pairs: seq<Pair>, limit: Option<nat>, i: nat,
                            view: seq<Pair>, out: seq<Byte>) {
    && i <= |pairs| && view == View(h, cap, raw, pairs[..i])
    && out == [OPEN] + Items(view) && |out| + 1 <= Size(cap.mask != [], pairs[..i])
    && (limit.Some? && view != [] ==> |out| + 1 <= limit.value)
  }

  lemma {:induction false} CollectStart(h: Hash, cap: Lists, raw: bool, pairs: seq<Pair>, limit: Option<nat>)
    ensures Collected(h, cap, raw, pairs, limit, 0, [], [OPEN])
  {
    assert pairs[..0] == [];
    EachNone(p => CapturePair(h, cap, p));
  }

  lemma {:induction false} CollectStep(h: Hash, cap: Lists, raw: bool, pairs: seq<Pair>, limit: Option<nat>, i: nat,
                                       view: seq<Pair>, out: seq<Byte>, kept: Option<Pair>)
    requires i < |pairs| && Collected(h, cap, raw, pairs, limit, i, view, out)
    requires kept == if raw then Some(pairs[i]) else CapturePair(h, cap, pairs[i])
    requires kept.Some? ==> |PairText(kept.value)| + 1 <= Room(cap.mask != [], pairs[i])
    ensures kept.None? ==> Collected(h, cap, raw, pairs, limit, i + 1, view, out)
    ensures kept.Some? ==>
              var more := out + (if view == [] then [] else [COMMA]) + PairText(kept.value);
              if limit.Some? && |more| + 1 > limit.value
              then StopsAt(h, cap, raw, pairs, limit.value, |view|, out + [CLOSE])
              else Collected(h, cap, raw, pairs, limit, i + 1, view + [kept.value], more)
  {
    ViewSnoc(h, cap, raw, pairs, i);
    SizeSnoc(cap.mask != [], pairs, i);
    hide PairText, Room, Size, Items, View, StopsAt;
    if kept.Some? {
      var more := out + (if view == [] then [] else [COMMA]) + PairText(kept.value);
      MoreText(view, out, kept.value);
      if limit.Some? && |more| + 1 > limit.value {
        CollectStop(h, cap, raw, pairs, limit.value, i, view, out, kept.value);
      }
    }
  }

  lemma {:induction false} MoreText(view: seq<Pair>, out: seq<Byte>, p: Pair)
    requires out == [OPEN] + Items(view)
    ensures out + (if view == [] then [] else [COMMA]) + PairText(p) == [OPEN] + Items(view + [p])
  {
    ItemsSnoc(view, p);
    hide Items, PairText;
    var sep := if view == [] then [] else [COMMA];
    assert [OPEN] + (Items(view) + sep + PairText(p)) == ([OPEN] + Items(view)) + sep + PairText(p);
  }

  lemma {:induction false} CollectStop(h: Hash, cap: Lists, raw: bool, pairs: seq<Pair>, limit: nat, i: nat,
                                       view: seq<Pair>, out: seq<Byte>, p: Pair)
    requires i < |pairs| && Collected(h, cap, raw, pairs, Some(limit), i, view, out)
    requires View(h, cap, raw, pairs[..i + 1]) == view + [p]
    requires limit < |[OPEN] + Items(view + [p])| + 1 <= Size(cap.mask != [], pairs[..i + 1])
    ensures StopsAt(h, cap, raw, pairs, limit, |view|, out + [CLOSE])
  {
    hide View, Items, Size;
    ViewPrefix(h, cap, raw, pairs, i + 1);
    SizeGrows(cap.mask != [], pairs, i);
    SizeGrows(cap.mask != [], pairs, i + 1);
    Begins(View(h, cap, raw, pairs), view, p);
  }

  lemma {:induction false} Begins(all: seq<Pair>, view: seq<Pair>, p: Pair)
    requires view + [p] <= all
    ensures |view| < |all| && all[..|view|] == view && all[..|view| + 1] == view + [p]
  {}

  // The text ends with the n-th pair of the view because the next one is beyond the limit, although
  // not beyond the buffer it was first written to.
  ghost predicate StopsAt(h: Hash, cap: Lists, raw: bool, pairs: seq<Pair>, limit: nat, n: nat, out: seq<Byte>) {
    var all := View(h, cap, raw, pairs);
    && n < |all| && out == Text(all[..n]) && |out| <= Size(cap.mask != [], pairs)
    && (n > 0 ==> |out| <= limit) && limit < |Text(all[..n + 1])| <= Size(cap.mask != [], pairs)
  }

  lemma {:induction false} CollectEnd(h: Hash, cap: Lists, raw: bool, pairs: seq<Pair>, limit: Option<nat>,
                                      view: seq<Pair>, out: seq<Byte>)
    requires Collected(h, cap, raw, pairs, limit, |pairs|, view, out)
    ensures view == View(h, cap, raw, pairs) && out + [CLOSE] == Text(view[..|view|])
    ensures |out| + 1 <= Size(cap.mask != [], pairs)
    ensures limit.Some? && view != [] ==> |out| + 1 <= limit.value
  {
    assert pairs[..|pairs|] == pairs && view[..|view|] == view;
  }

  lemma {:induction false} SizeSnoc(masks: bool, pairs: seq<Pair>, i: nat)
    requires i < |pairs|
    ensures Size(masks, pairs[..i + 1]) == Size(masks, pairs[..i]) + Room(masks, pairs[i])
  {
    assert pairs[..i + 1][..i] == pairs[..i];
  }

  lemma {:induction false} ViewSnoc(h: Hash, cap: Lists, raw: bool, pairs: seq<Pair>, i: nat)
    requires i < |pairs|
    ensures View(h, cap, raw, pairs[..i + 1])
         == View(h, cap, raw, pairs[..i]) + Opt(if raw then Some(pairs[i]) else CapturePair(h, cap, pairs[i]))
  {
    EachSnoc(p => CapturePair(h, cap, p), pairs, i);
  }

  // The view of a beginning is a beginning of the view.
  lemma {:induction false} ViewPrefix(h: Hash, cap: Lists, raw: bool, pairs: seq<Pair>, i: nat)
    requires i <= |pairs|
    ensures View(h, cap, raw, pairs[..i]) <= View(h, cap, raw, pairs)
  {
    assert pairs == pairs[..i] + pairs[i..];
    EachConcat(p => CapturePair(h, cap, p), pairs[..i], pairs[i..]);
  }

  // filterHeaders
  method FilterHeaders(h: Hash, own: Lists, hashed: seq<Name>, pairs: seq<Pair>) returns (out: seq<Pair>)
    ensures out == Agent(h, own, hashed, pairs)
  {
    hide AgentPair, Each;
    out := [];
    ghost var f := p => AgentPair(h, own, hashed, p);
    EachNone(f);
    for i := 0 to |pairs|
      invariant out == Each(f, pairs[..i])
    {
      EachSnoc(f, pairs, i);
      var kept := AgentOne(h, own, hashed, pairs[i]);
      if kept.Some? {
        out := out + [kept.value];
      }
    }
    assert pairs[..|pairs|] == pairs;
  }

  method AgentOne(h: Hash, own: Lists, hashed: seq<Name>, p: Pair) returns (kept: Option<Pair>)
    ensures kept == AgentPair(h, own, hashed, p)
  {
    var keep := KeepName(own, p.name);
    if !keep {
      return None;
    }
    var value := p.value;
    var masked := AgentNameListed(own.mask, p.name);
    if masked {
      var done := AgentNameListed(hashed, p.name);
      value := if done then value else h(value);
    }
    kept := Some(Pair(p.name, value));
  }

  // ---------------------------------------------------------------------------
  // Repair leaves listed names and hashes as they are
  // ---------------------------------------------------------------------------

  // Repair goes on by characters of the result.
  lemma {:induction false} SanitizeUnit(n: Name) returns (glyph: seq<Byte>, rest: Name)
    requires n != []
    ensures Utf8.WellFormed(glyph) && |rest| < |n| && Utf8.Sanitize(n) == glyph + Utf8.Sanitize(rest)
    ensures if Utf8.Prefix(n) > 0 then n == glyph + rest else glyph == Utf8.REPLACEMENT && !KnownUnit(n)
  {
    Utf8.ReplacementWellFormed();
    hide Utf8.WellFormed, Utf8.Prefix, Utf8.Ill, Utf8.Partial, KnownUnit;
    var p := Utf8.Prefix(n);
    if p > 0 {
      glyph, rest := n[..p], n[p..];
    } else {
      glyph, rest := Utf8.REPLACEMENT, n[Utf8.Ill(n)..];
      IllBegins(n);
    }
  }

  // What begins a name that may fold to ASCII.
  ghost predicate KnownUnit(n: Name) { n != [] && FoldUnit(n).0 < 0x80 }

  lemma {:induction false} IllBegins(n: Name)
    requires n != []
    ensures KnownUnit(n) ==> Utf8.Prefix(n) > 0
  {
    if !KnownUnit(n) {
    } else if n[0] < 0x80 {
      assert n[..1] == [n[0]];
      assert Utf8.WellFormed(n[..1]);
    } else if FoldUnit(n).1 == 2 {
      assert n[..2] == LONG_S;
      assert Utf8.WellFormed(n[..2]);
    } else {
      assert n[..3] == KELVIN;
      assert Utf8.WellFormed(n[..3]);
    }
  }

  lemma {:induction false} FoldTail(n: Name)
    requires n != [] && Ascii(AgentFold(n))
    ensures KnownUnit(n) && Ascii(AgentFold(n[FoldUnit(n).1..]))
  {
    var f := AgentFold(n);
    assert f[0] == FoldUnit(n).0 && f[1..] == AgentFold(n[FoldUnit(n).1..]);
  }

  // A name that folds to ASCII, before or after repair, needs no repair.
  lemma {:induction false} FoldSeen(n: Name)
    requires Ascii(AgentFold(n)) || Ascii(AgentFold(Utf8.Sanitize(n)))
    ensures Utf8.Sanitize(n) == n
    decreases |n|
  {
    if n != [] {
      var glyph, rest := SanitizeUnit(n);
      var s, tail := Utf8.Sanitize(n), Utf8.Sanitize(rest);
      UnitOfCharacter(glyph, rest);
      UnitOfCharacter(glyph, tail);
      assert s[|glyph|..] == tail && (glyph + rest)[|glyph|..] == rest;
      hide AgentFold, Utf8.Sanitize;
      if Ascii(AgentFold(n)) {
        FoldTail(n);
        FoldSeen(rest);
      } else {
        FoldTail(s);
        FoldSeen(rest);
      }
    }
  }

  lemma {:induction false} ListedSeen(list: seq<Name>, name: Name)
    requires AsciiNames(list)
    ensures AgentListed(list, Utf8.Sanitize(name)) <==> AgentListed(list, name)
  {
    hide AgentFold, Utf8.Sanitize;
    forall i | 0 <= i < |list|
      ensures AgentFold(list[i]) == AgentFold(Utf8.Sanitize(name)) <==> AgentFold(list[i]) == AgentFold(name)
    {
      AgentFoldAscii(list[i]);
      FoldKeepsAscii(list[i]);
      if AgentFold(list[i]) == AgentFold(Utf8.Sanitize(name)) || AgentFold(list[i]) == AgentFold(name) {
        FoldSeen(name);
      }
    }
  }

  lemma {:induction false} DropsSeen(own: Lists, name: Name)
    requires AsciiLists(own)
    ensures AgentDrops(own, Utf8.Sanitize(name)) <==> AgentDrops(own, name)
  {
    ListedSeen(own.deny, name);
    ListedSeen(own.allow, name);
  }

  lemma {:induction false} HashSeen(h: Hash, v: seq<Byte>)
    requires IsHash(h)
    ensures Utf8.Sanitize(h(v)) == h(v)
  {
    assert IsHex64(h(v));
    AgentFoldAscii(h(v));
    FoldKeepsAscii(h(v));
    FoldSeen(h(v));
  }

  // ---------------------------------------------------------------------------
  // The law for headers
  // ---------------------------------------------------------------------------

  // What the agent makes of the capture view of one pair, and of the original.
  function FromCapture(h: Hash, cap: Lists, own: Lists, p: Pair): Option<Pair> {
    Then(Then(CapturePair(h, cap, p), q => Some(SeenPair(q))), q => AgentPair(h, own, cap.mask, q))
  }

  function FromOriginal(h: Hash, own: Lists, p: Pair): Option<Pair> { AgentPair(h, own, [], SeenPair(p)) }

  // A value the agent takes for hashed already: the module hashed it before it was repaired, or
  // did not hash it at all.
  ghost predicate PairAgrees(h: Hash, cap: Lists, own: Lists, p: Pair) {
    !AgentDrops(own, p.name) && AgentListed(own.mask, p.name) && AgentListed(cap.mask, p.name) ==>
      var seen := Utf8.Sanitize(p.value);
      if Listed(cap.mask, p.name) then h(p.value) == h(seen) else seen == h(seen)
  }

  lemma {:induction false} PairLaw(h: Hash, cap: Lists, own: Lists, p: Pair)
    requires IsHash(h) && AsciiLists(cap) && AsciiLists(own) && Covers(cap, own)
    ensures FromCapture(h, cap, own, p) == FromOriginal(h, own, p) <==> PairAgrees(h, cap, own, p)
    ensures FromCapture(h, cap, own, p).Some? <==> FromOriginal(h, own, p).Some?
  {
    hide AgentFold, Utf8.Sanitize, Fold;
    Seen1(cap, own, p.name);
    ModuleAndAgent(cap, own, p.name);
    HashSeen(h, p.value);
    hide AgentListed, Listed, AgentDrops, Drops, Covers, IsHash;
  }

  // The agent lists a repaired name as it lists the name.
  lemma {:induction false} Seen1(cap: Lists, own: Lists, name: Name)
    requires AsciiLists(cap) && AsciiLists(own)
    ensures AgentDrops(own, Utf8.Sanitize(name)) <==> AgentDrops(own, name)
    ensures AgentListed(own.mask, Utf8.Sanitize(name)) <==> AgentListed(own.mask, name)
    ensures AgentListed(cap.mask, Utf8.Sanitize(name)) <==> AgentListed(cap.mask, name)
    ensures !AgentListed([], Utf8.Sanitize(name))
  {
    DropsSeen(own, name);
    ListedSeen(own.mask, name);
    ListedSeen(cap.mask, name);
  }

  lemma {:induction false} FromCaptureEach(h: Hash, cap: Lists, own: Lists, pairs: seq<Pair>)
    ensures Agent(h, own, cap.mask, Seen(Capture(h, cap, pairs))) == Each(p => FromCapture(h, cap, own, p), pairs)
  {
    var c, s, a := p => CapturePair(h, cap, p), p => Some(SeenPair(p)), p => AgentPair(h, own, cap.mask, p);
    var cs := p => Then(CapturePair(h, cap, p), q => Some(SeenPair(q)));
    EachAfterEach(c, s, cs, pairs);
    EachAfterEach(cs, a, p => FromCapture(h, cap, own, p), pairs);
  }

  lemma {:induction false} FromOriginalEach(h: Hash, own: Lists, pairs: seq<Pair>)
    ensures Agent(h, own, [], Seen(pairs)) == Each(p => FromOriginal(h, own, p), pairs)
  {
    EachAfterEach(p => Some(SeenPair(p)), p => AgentPair(h, own, [], p), p => FromOriginal(h, own, p), pairs);
  }

  // With covering lists the archive made from the capture view is the archive made from the
  // original exactly when no value that the agent takes for hashed is one it would hash otherwise.
  lemma {:induction false} CoveredHeaders(h: Hash, cap: Lists, own: Lists, pairs: seq<Pair>)
    requires IsHash(h) && AsciiLists(cap) && AsciiLists(own) && Covers(cap, own)
    ensures Agent(h, own, cap.mask, Seen(Capture(h, cap, pairs))) == Agent(h, own, [], Seen(pairs))
       <==> forall p | p in pairs :: PairAgrees(h, cap, own, p)
  {
    FromCaptureEach(h, cap, own, pairs);
    FromOriginalEach(h, own, pairs);
    var f, g := p => FromCapture(h, cap, own, p), p => FromOriginal(h, own, p);
    forall p | p in pairs
      ensures f(p).Some? == g(p).Some? && (f(p) == g(p) <==> PairAgrees(h, cap, own, p))
    {
      PairLaw(h, cap, own, p);
    }
    hide FromCapture, FromOriginal, PairAgrees, Agent, Capture, Seen, Each;
    EachEqualIff(f, g, pairs);
  }

  ghost predicate Utf8Values(pairs: seq<Pair>) { forall p | p in pairs :: Utf8.Valid(p.value) }

  ghost predicate HeadersCommute(h: Hash, cap: Lists, own: Lists) {
    forall pairs: seq<Pair> | Utf8Values(pairs) ::
      Agent(h, own, cap.mask, Seen(Capture(h, cap, pairs))) == Agent(h, own, [], Seen(pairs))
  }

  // What the agent archives of a text it received.
  ghost function Archive(h: Hash, own: Lists, hashed: seq<Name>, text: seq<Byte>): Option<seq<Pair>> {
    match ReadText(text)
    case None => None
    case Some(pairs) => Some(Agent(h, own, hashed, pairs))
  }

  // Made from the text of the capture, the archive is the one made from the text of all headers.
  ghost predicate TextsCommute(h: Hash, cap: Lists, own: Lists) {
    forall pairs: seq<Pair> | Utf8Values(pairs) ::
      Archive(h, own, cap.mask, Text(Capture(h, cap, pairs))) == Archive(h, own, [], Text(pairs))
  }

  lemma {:induction false} TextsOrPairs(h: Hash, cap: Lists, own: Lists)
    ensures TextsCommute(h, cap, own) <==> HeadersCommute(h, cap, own)
  {
    hide ReadText, Text, Agent, Seen, Capture, Utf8Values;
    forall pairs: seq<Pair>
      ensures Archive(h, own, cap.mask, Text(Capture(h, cap, pairs))) == Archive(h, own, [], Text(pairs))
         <==> Agent(h, own, cap.mask, Seen(Capture(h, cap, pairs))) == Agent(h, own, [], Seen(pairs))
    {
      TextReadsBack(Capture(h, cap, pairs));
      TextReadsBack(pairs);
    }
  }

  // For every list of headers with UTF-8 values the archives agree, if and only if
  // ngx_http_waf_lists_cover says yes and no name that both sides hash has an s or a k in it.
  lemma {:induction false} HeadersLaw(h: Hash, cap: Lists, own: Lists)
    requires IsHash(h) && AsciiLists(cap) && AsciiLists(own)
    ensures HeadersCommute(h, cap, own) <==> Covers(cap, own) && Unambiguous(cap, own)
    ensures TextsCommute(h, cap, own) <==> Covers(cap, own) && Unambiguous(cap, own)
  {
    TextsOrPairs(h, cap, own);
    hide TextsCommute;
    if !Covers(cap, own) {
      UncoveredHeaders(h, cap, own);
    } else if !Unambiguous(cap, own) {
      AmbiguousHeaders(h, cap, own);
    } else {
      LookalikesExist(cap, own);
      forall pairs: seq<Pair> | Utf8Values(pairs)
        ensures Agent(h, own, cap.mask, Seen(Capture(h, cap, pairs))) == Agent(h, own, [], Seen(pairs))
      {
        CoveredHeaders(h, cap, own, pairs);
        forall p | p in pairs ensures PairAgrees(h, cap, own, p) {
          Utf8.SanitizeIsIdentityIffValid(p.value);
          assert !Lookalike(cap, own, p.name);
        }
      }
    }
  }

  lemma {:induction false} OnePair(h: Hash, cap: Lists, own: Lists, n: Name)
    requires FromCapture(h, cap, own, Pair(n, [])) != FromOriginal(h, own, Pair(n, []))
    ensures !HeadersCommute(h, cap, own)
  {
    var p := Pair(n, []);
    FromCaptureEach(h, cap, own, [p]);
    FromOriginalEach(h, own, [p]);
    EachOne(q => FromCapture(h, cap, own, q), p);
    EachOne(q => FromOriginal(h, own, q), p);
    assert Utf8Values([p]) by {
      Utf8.ValidEmpty();
    }
    hide FromCapture, FromOriginal, Each, Agent, Seen, Capture;
  }

  // The name that is not covered, sent with an empty value.
  lemma {:induction false} UncoveredHeaders(h: Hash, cap: Lists, own: Lists)
    requires IsHash(h) && AsciiLists(cap) && AsciiLists(own) && !Covers(cap, own)
    ensures !HeadersCommute(h, cap, own)
  {
    var n := Uncovered(cap, own);
    assert Ascii(n);
    Seen1(cap, own, n);
    DropsAlike(own, n);
    ListedAlike(own.mask, n);
    ListedAlike(cap.mask, n);
    HashSeen(h, []);
    assert IsHex64(h([])) && Utf8.Sanitize([]) == [];
    hide AgentListed, Listed, AgentDrops, Drops, Covers, IsHash, HeadersCommute, Utf8.Sanitize;
    assert FromCapture(h, cap, own, Pair(n, [])) != FromOriginal(h, own, Pair(n, []));
    OnePair(h, cap, own, n);
  }

  // A name only the agent takes for one that was hashed, sent with an empty value.
  lemma {:induction false} AmbiguousHeaders(h: Hash, cap: Lists, own: Lists)
    requires IsHash(h) && AsciiLists(cap) && AsciiLists(own) && Covers(cap, own) && !Unambiguous(cap, own)
    ensures !HeadersCommute(h, cap, own)
  {
    LookalikesExist(cap, own);
    var n :| Lookalike(cap, own, n);
    PairLaw(h, cap, own, Pair(n, []));
    assert IsHex64(h([])) && Utf8.Sanitize([]) == [];
    OnePair(h, cap, own, n);
  }

  // A header value in Latin-1 that both sides hash: the archives differ unless the hash collides.
  lemma {:induction false} RepairChangesHash(h: Hash, name: Name, cap: Lists, p: Pair)
    requires IsHash(h) && Ascii(name) && cap == Lists([], [name], []) && p == Pair(name, [0xe9])
    ensures Covers(cap, cap)
    ensures Agent(h, cap, cap.mask, Seen(Capture(h, cap, [p]))) == Agent(h, cap, [], Seen([p]))
       <==> h(p.value) == h(Utf8.REPLACEMENT)
  {
    assert cap.mask[0] == name;
    assert Listed(cap.mask, name);
    CoversItself(cap);
    CoveredHeaders(h, cap, cap, [p]);
    ListedAlike(cap.mask, name);
    assert Utf8.Prefix(p.value) == 0 && Utf8.Ill(p.value) == 1 && p.value[1..] == [];
    assert Utf8.Sanitize(p.value) == Utf8.REPLACEMENT + Utf8.Sanitize([]) == Utf8.REPLACEMENT;
    assert !AgentDrops(cap, name) && p in [p];
    assert PairAgrees(h, cap, cap, p) <==> h(p.value) == h(Utf8.REPLACEMENT);
  }
}
