/** JSON values: the grammar of sections 2 to 7 of RFC 8259 as concrete syntax trees, and a
    recursive-descent reader that accepts exactly the values nested no deeper than a bound.
 */
module JsonGrammar {
  import opened Bytes
  import opened JsonText

  const COMMA: Byte := 0x2c
  const COLON: Byte := 0x3a
  const OPEN_OBJECT: Byte := 0x7b
  const CLOSE_OBJECT: Byte := 0x7d
  const OPEN_ARRAY: Byte := 0x5b
  const CLOSE_ARRAY: Byte := 0x5d
  const TRUE: seq<Byte> := [0x74, 0x72, 0x75, 0x65]
  const FALSE: seq<Byte> := [0x66, 0x61, 0x6c, 0x73, 0x65]
  const NULL: seq<Byte> := [0x6e, 0x75, 0x6c, 0x6c]

  predicate Blank(c: Byte) { c == 0x20 || c == 0x09 || c == 0x0a || c == 0x0d }

  // ---------------------------------------------------------------------------
  // RFC 8259: concrete syntax
  // ---------------------------------------------------------------------------

  datatype Number = Number(minus: seq<Byte>, whole: seq<Byte>, frac: seq<Byte>, mark: seq<Byte>, power: seq<Byte>)

  datatype Atom = Word(text: seq<Byte>) | Text(chars: seq<seq<Byte>>) | Figure(number: Number)

  datatype Key = NoKey | Named(before: seq<Byte>, chars: seq<seq<Byte>>, after: seq<Byte>)

  datatype Node =
    | Leaf(atom: Atom)
    | Hollow(braced: bool, gap: seq<Byte>)
    | Full(braced: bool, items: Items)

  datatype Items =
    | Last(key: Key, lead: seq<Byte>, value: Node, tail: seq<Byte>)
    | More(key: Key, lead: seq<Byte>, value: Node, tail: seq<Byte>, rest: Items)

  ghost predicate Blanks(t: seq<Byte>) { forall i | 0 <= i < |t| :: Blank(t[i]) }

  // number = [ minus ] int [ frac ] [ exp ]
  ghost predicate IsNumber(n: Number) {
    && (n.minus == [] || n.minus == [0x2d])
    && n.whole != [] && Digits(n.whole) && (n.whole[0] == 0x30 ==> |n.whole| == 1)
    && Digits(n.frac)
    && (n.mark == [] <==> n.power == []) && Digits(n.power)
    && (n.mark != [] ==> n.mark[0] in {0x65, 0x45} && (|n.mark| == 1 || (|n.mark| == 2 && n.mark[1] in {0x2b, 0x2d})))
  }

  ghost function FracText(frac: seq<Byte>): seq<Byte> { if frac == [] then [] else [0x2e] + frac }

  ghost function NumberText(n: Number): seq<Byte> { n.minus + (n.whole + (FracText(n.frac) + (n.mark + n.power))) }

  ghost predicate IsAtom(a: Atom) {
    match a
    case Word(text) => text in {TRUE, FALSE, NULL}
    case Text(chars) => AreChars(chars)
    case Figure(number) => IsNumber(number)
  }

  ghost function AtomText(a: Atom): seq<Byte> {
    match a
    case Word(text) => text
    case Text(chars) => Quoted(chars)
    case Figure(number) => NumberText(number)
  }

  ghost function Quoted(chars: seq<seq<Byte>>): seq<Byte> { [QUOTE] + (Flat(chars) + [QUOTE]) }

  ghost predicate IsKey(k: Key, braced: bool) {
    if braced then k.Named? && Blanks(k.before) && AreChars(k.chars) && Blanks(k.after) else k.NoKey?
  }

  ghost function KeyText(k: Key): seq<Byte> {
    if k.NoKey? then [] else k.before + (Quoted(k.chars) + (k.after + [COLON]))
  }

  function Opener(braced: bool): Byte { if braced then OPEN_OBJECT else OPEN_ARRAY }
  function Closer(braced: bool): Byte { if braced then CLOSE_OBJECT else CLOSE_ARRAY }

  ghost predicate IsNode(v: Node) {
    match v
    case Leaf(atom) => IsAtom(atom)
    case Hollow(_, gap) => Blanks(gap)
    case Full(braced, items) => AreItems(items, braced)
  }

  ghost predicate AreItems(items: Items, braced: bool) {
    && IsKey(items.key, braced) && Blanks(items.lead) && IsNode(items.value) && Blanks(items.tail)
    && (items.More? ==> AreItems(items.rest, braced))
  }

  ghost function NodeText(v: Node): seq<Byte> {
    match v
    case Leaf(atom) => AtomText(atom)
    case Hollow(braced, gap) => [Opener(braced)] + (gap + [Closer(braced)])
    case Full(braced, items) => [Opener(braced)] + ItemsText(items, braced)
  }

  // Members or elements with the closing bracket.
  ghost function ItemsText(items: Items, braced: bool): seq<Byte> {
    KeyText(items.key) + ((items.lead + NodeText(items.value)) + (items.tail +
      (if items.More? then [COMMA] + ItemsText(items.rest, braced) else [Closer(braced)])))
  }

  // How deep brackets nest.
  ghost function Depth(v: Node): nat {
    match v
    case Leaf(_) => 0
    case Hollow(_, _) => 1
    case Full(_, items) => 1 + ItemsDepth(items)
  }

  ghost function ItemsDepth(items: Items): nat {
    var d := Depth(items.value);
    if items.More? && ItemsDepth(items.rest) > d then ItemsDepth(items.rest) else d
  }

  // ---------------------------------------------------------------------------
  // Recursive descent
  // ---------------------------------------------------------------------------

  function Ws(s: seq<Byte>, p: nat): (q: nat)
    requires p <= |s|
    ensures p <= q <= |s|
    ensures forall i | p <= i < q :: Blank(s[i])
    ensures q < |s| ==> !Blank(s[q])
    decreases |s| - p
  {
    if p < |s| && Blank(s[p]) then Ws(s, p + 1) else p
  }

  function Run(s: seq<Byte>, p: nat): (q: nat)
    requires p <= |s|
    ensures p <= q <= |s|
    ensures forall i | p <= i < q :: Digit(s[i])
    ensures q < |s| ==> !Digit(s[q])
    decreases |s| - p
  {
    if p < |s| && Digit(s[p]) then Run(s, p + 1) else p
  }

  predicate Here(s: seq<Byte>, p: nat, c: Byte) { p < |s| && s[p] == c }

  function Digits1(s: seq<Byte>, p: nat): (q: Option<nat>)
    requires p <= |s|
    ensures q.Some? ==> p < q.value <= |s|
  {
    if Run(s, p) == p then None else Some(Run(s, p))
  }

  function Whole(s: seq<Byte>, p: nat): (q: Option<nat>)
    requires p <= |s|
    ensures q.Some? ==> p < q.value <= |s|
  {
    var p1 := if Here(s, p, 0x2d) then p + 1 else p;
    if Here(s, p1, 0x30) then Some(p1 + 1) else Digits1(s, p1)
  }

  function Fraction(s: seq<Byte>, p: nat): (q: Option<nat>)
    requires p <= |s|
    ensures q.Some? ==> p <= q.value <= |s|
  {
    if Here(s, p, 0x2e) then Digits1(s, p + 1) else Some(p)
  }

  function Exponent(s: seq<Byte>, p: nat): (q: Option<nat>)
    requires p <= |s|
    ensures q.Some? ==> p <= q.value <= |s|
  {
    if Here(s, p, 0x65) || Here(s, p, 0x45) then
      Digits1(s, if Here(s, p + 1, 0x2b) || Here(s, p + 1, 0x2d) then p + 2 else p + 1)
    else Some(p)
  }

  function NumberAt(s: seq<Byte>, p: nat): (q: Option<nat>)
    requires p <= |s|
    ensures q.Some? ==> p < q.value <= |s|
  {
    match Whole(s, p)
    case None => None
    case Some(p1) =>
      match Fraction(s, p1)
      case None => None
      case Some(p2) => Exponent(s, p2)
  }

  function WordAt(s: seq<Byte>, p: nat, word: seq<Byte>): (q: Option<nat>)
    requires p <= |s|
    ensures q.Some? ==> q.value == p + |word| <= |s|
  {
    if |s| - p >= |word| && s[p..p + |word|] == word then Some(p + |word|) else None
  }

  function StringAt(s: seq<Byte>, p: nat): (q: Option<nat>)
    requires p <= |s|
    ensures q.Some? ==> p < q.value <= |s|
  {
    if !Here(s, p, QUOTE) then None
    else match Body(s, p + 1)
      case None => None
      case Some(piece) => Some(piece.next)
  }

  function AtomAt(s: seq<Byte>, p: nat): (q: Option<nat>)
    requires p < |s|
    ensures q.Some? ==> p < q.value <= |s|
  {
    var c := s[p];
    if c == QUOTE then StringAt(s, p)
    else if c == TRUE[0] then WordAt(s, p, TRUE)
    else if c == FALSE[0] then WordAt(s, p, FALSE)
    else if c == NULL[0] then WordAt(s, p, NULL)
    else if c == 0x2d || Digit(c) then NumberAt(s, p)
    else None
  }

  // A member name and its colon; nothing in an array.
  function KeyAt(s: seq<Byte>, p: nat, braced: bool): (q: Option<nat>)
    requires p <= |s|
    ensures q.Some? ==> p <= q.value <= |s|
  {
    if !braced then Some(p)
    else match StringAt(s, Ws(s, p))
      case None => None
      case Some(q) => if Here(s, Ws(s, q), COLON) then Some(Ws(s, q) + 1) else None
  }

  predicate IsOpener(c: Byte) { c == OPEN_OBJECT || c == OPEN_ARRAY }

  // One value nested at most d deep, blanks before it included.
  function ValueAt(s: seq<Byte>, p: nat, d: nat): (q: Option<nat>)
    requires p <= |s|
    ensures q.Some? ==> p < q.value <= |s|
    decreases |s| - p, 1
  {
    var q := Ws(s, p);
    if q == |s| then None
    else if !IsOpener(s[q]) then AtomAt(s, q)
    else if d == 0 then None
    else
      var braced, r := s[q] == OPEN_OBJECT, Ws(s, q + 1);
      if Here(s, r, Closer(braced)) then Some(r + 1) else ItemsAt(s, r, braced, d - 1)
  }

  function ItemsAt(s: seq<Byte>, p: nat, braced: bool, d: nat): (q: Option<nat>)
    requires p <= |s|
    ensures q.Some? ==> p < q.value <= |s|
    decreases |s| - p, 2
  {
    match KeyAt(s, p, braced)
    case None => None
    case Some(k) =>
      match ValueAt(s, k, d)
      case None => None
      case Some(v) => RestAt(s, v, braced, d)
  }

  // After a value: the closing bracket, or a comma and more.
  function RestAt(s: seq<Byte>, p: nat, braced: bool, d: nat): (q: Option<nat>)
    requires p <= |s|
    ensures q.Some? ==> p < q.value <= |s|
    decreases |s| - p, 0
  {
    var q := Ws(s, p);
    if Here(s, q, Closer(braced)) then Some(q + 1)
    else if Here(s, q, COMMA) then ItemsAt(s, q + 1, braced, d)
    else None
  }

  // ---------------------------------------------------------------------------
  // The reader accepts every value of the grammar
  // ---------------------------------------------------------------------------

  lemma {:induction false} WsIs(s: seq<Byte>, p: nat, t: seq<Byte>)
    requires At(s, p, t) && Blanks(t) && (p + |t| < |s| ==> !Blank(s[p + |t|]))
    ensures Ws(s, p) == p + |t|
    decreases |t|
  {
    if t != [] {
      assert s[p] == t[0];
      assert At(s, p + 1, t[1..]) by {
        AtSplit(s, p, [t[0]], t[1..]);
        assert [t[0]] + t[1..] == t;
      }
      WsIs(s, p + 1, t[1..]);
    }
  }

  lemma {:induction false} RunIs(s: seq<Byte>, p: nat, t: seq<Byte>)
    requires At(s, p, t) && Digits(t) && (p + |t| < |s| ==> !Digit(s[p + |t|]))
    ensures Run(s, p) == p + |t|
    decreases |t|
  {
    if t != [] {
      assert s[p] == t[0];
      assert At(s, p + 1, t[1..]) by {
        AtSplit(s, p, [t[0]], t[1..]);
        assert [t[0]] + t[1..] == t;
      }
      RunIs(s, p + 1, t[1..]);
    }
  }

  // What can go on no number.
  predicate Ends(s: seq<Byte>, p: nat) {
    p < |s| ==> !Digit(s[p]) && s[p] != 0x2e && s[p] != 0x65 && s[p] != 0x45
  }

  // What cannot go on a number of this form: after an exponent a digit does, after a fraction a
  // digit or an exponent, after a zero a fraction or an exponent, after other digits all of these.
  predicate Stops(n: Number, s: seq<Byte>, q: nat) {
    q < |s| ==>
      && (n.power != [] || n.frac != [] || n.whole != [0x30] ==> !Digit(s[q]))
      && (n.power == [] ==> s[q] != 0x65 && s[q] != 0x45)
      && (n.power == [] && n.frac == [] ==> s[q] != 0x2e)
  }

  lemma {:induction false} AtFirst(s: seq<Byte>, p: nat, t: seq<Byte>)
    requires At(s, p, t) && t != []
    ensures p < |s| && s[p] == t[0]
  {}

  lemma {:induction false} ExponentComplete(s: seq<Byte>, p: nat, n: Number)
    requires IsNumber(n) && At(s, p, n.mark + n.power) && Stops(n, s, p + |n.mark + n.power|)
    ensures Exponent(s, p) == Some(p + |n.mark + n.power|)
  {
    AtSplit(s, p, n.mark, n.power);
    if n.mark != [] {
      AtFirst(s, p + |n.mark|, n.power);
      RunIs(s, p + |n.mark|, n.power);
      assert s[p] == n.mark[0];
      if |n.mark| == 2 {
        assert s[p + 1] == n.mark[1];
      }
    }
  }

  lemma {:induction false} FractionComplete(s: seq<Byte>, p: nat, n: Number)
    requires IsNumber(n)
    requires At(s, p, FracText(n.frac) + (n.mark + n.power)) && Stops(n, s, p + |FracText(n.frac) + (n.mark + n.power)|)
    ensures var f := if n.frac == [] then 0 else 1 + |n.frac|;
            Fraction(s, p) == Some(p + f) && Exponent(s, p + f) == Some(p + f + |n.mark + n.power|)
    ensures n.whole != [0x30] && p < |s| ==> !Digit(s[p])
  {
    hide At, Run, Exponent, Digits;
    var f := FracText(n.frac);
    AtSplit(s, p, f, n.mark + n.power);
    ExponentComplete(s, p + |f|, n);
    if n.mark != [] {
      AtSplit(s, p + |f|, n.mark, n.power);
      AtFirst(s, p + |f|, n.mark);
    }
    if n.frac != [] {
      AtFirst(s, p, f);
      AtSplit(s, p, [0x2e], n.frac);
      AtFirst(s, p + 1, n.frac);
      RunIs(s, p + 1, n.frac);
    }
  }

  lemma {:induction false} NumberComplete(s: seq<Byte>, p: nat, n: Number)
    requires IsNumber(n) && At(s, p, NumberText(n)) && Stops(n, s, p + |NumberText(n)|)
    ensures NumberAt(s, p) == Some(p + |NumberText(n)|)
    ensures p < |s| && (s[p] == 0x2d || Digit(s[p]))
  {
    hide At, Run, Exponent, Fraction, Digits;
    var f := FracText(n.frac);
    AtSplit(s, p, n.minus, n.whole + (f + (n.mark + n.power)));
    var p1 := p + |n.minus|;
    AtSplit(s, p1, n.whole, f + (n.mark + n.power));
    FractionComplete(s, p1 + |n.whole|, n);
    AtFirst(s, p1, n.whole);
    if n.minus != [] {
      AtFirst(s, p, n.minus);
    }
    if n.whole[0] != 0x30 {
      RunIs(s, p1, n.whole);
    } else {
      assert n.whole == [0x30];
    }
    assert Whole(s, p) == Some(p1 + |n.whole|);
  }

  // A number ends where it cannot go on; any other value ends by itself.
  ghost predicate Stopped(v: Node, s: seq<Byte>, q: nat) { v.Leaf? ==> AtomStops(v.atom, s, q) }

  ghost predicate AtomStops(a: Atom, s: seq<Byte>, q: nat) { a.Figure? ==> Stops(a.number, s, q) }

  lemma {:induction false} StringComplete(s: seq<Byte>, p: nat, chars: seq<seq<Byte>>)
    requires AreChars(chars) && At(s, p, Quoted(chars))
    ensures StringAt(s, p) == Some(p + |Quoted(chars)|)
  {
    hide At, Body, Flat;
    AtSplit(s, p, [QUOTE], Flat(chars) + [QUOTE]);
    AtFirst(s, p, [QUOTE]);
    BodyComplete(s, p + 1, p + |Flat(chars)| + 2, chars);
  }

  lemma {:induction false} QuotedFirst(s: seq<Byte>, p: nat, chars: seq<seq<Byte>>)
    requires At(s, p, Quoted(chars))
    ensures Here(s, p, QUOTE)
  {
    AtFirst(s, p, Quoted(chars));
  }

  lemma {:induction false} AtomComplete(s: seq<Byte>, p: nat, a: Atom)
    requires IsAtom(a) && At(s, p, AtomText(a)) && AtomStops(a, s, p + |AtomText(a)|)
    ensures p < |s| && AtomAt(s, p) == Some(p + |AtomText(a)|)
    ensures !Blank(s[p]) && !IsOpener(s[p]) && s[p] != CLOSE_OBJECT && s[p] != CLOSE_ARRAY
  {
    hide At, StringAt, NumberAt, Quoted, NumberText, IsNumber, AreChars, Stops;
    match a
    case Word(text) =>
      AtFirst(s, p, text);
      AtSlice(s, p, text);
    case Text(chars) =>
      QuotedFirst(s, p, chars);
      StringComplete(s, p, chars);
    case Figure(number) =>
      NumberComplete(s, p, number);
  }

  lemma {:induction false} KeyComplete(s: seq<Byte>, p: nat, k: Key, braced: bool)
    requires IsKey(k, braced) && At(s, p, KeyText(k))
    ensures KeyAt(s, p, braced) == Some(p + |KeyText(k)|)
    ensures if braced then Here(s, Ws(s, p), QUOTE) else KeyText(k) == []
  {
    if braced {
      hide At, Ws, StringAt, Quoted, Blanks, AreChars;
      NameComplete(s, p, k.before, k.chars, k.after + [COLON]);
      ColonComplete(s, p + |k.before| + |Quoted(k.chars)|, k.after);
    }
  }

  lemma {:induction false} NameComplete(s: seq<Byte>, p: nat, before: seq<Byte>, chars: seq<seq<Byte>>, more: seq<Byte>)
    requires Blanks(before) && AreChars(chars) && At(s, p, before + (Quoted(chars) + more))
    ensures Ws(s, p) == p + |before| <= |s| && Here(s, p + |before|, QUOTE)
    ensures StringAt(s, p + |before|) == Some(p + |before| + |Quoted(chars)|)
    ensures At(s, p + |before| + |Quoted(chars)|, more)
  {
    hide At, Ws, StringAt, Quoted, Blanks, AreChars;
    AtSplit(s, p, before, Quoted(chars) + more);
    AtSplit(s, p + |before|, Quoted(chars), more);
    QuotedFirst(s, p + |before|, chars);
    WsIs(s, p, before);
    StringComplete(s, p + |before|, chars);
  }

  lemma {:induction false} ColonComplete(s: seq<Byte>, p: nat, after: seq<Byte>)
    requires Blanks(after) && At(s, p, after + [COLON])
    ensures Ws(s, p) == p + |after| && Here(s, p + |after|, COLON)
  {
    hide At, Ws, Blanks;
    AtSplit(s, p, after, [COLON]);
    AtFirst(s, p + |after|, [COLON]);
    WsIs(s, p, after);
  }

  lemma {:induction false} ItemsAtWs(s: seq<Byte>, p: nat, braced: bool, d: nat)
    requires p <= |s|
    ensures ItemsAt(s, Ws(s, p), braced, d) == ItemsAt(s, p, braced, d)
  {
    hide RestAt, StringAt, AtomAt;
    assert Ws(s, Ws(s, p)) == Ws(s, p);
    if !braced {
      assert ValueAt(s, Ws(s, p), d) == ValueAt(s, p, d);
    }
  }

  // The first character of a value: no blank and no closing bracket.
  ghost predicate Starts(s: seq<Byte>, p: nat) {
    p < |s| && !Blank(s[p]) && s[p] != CLOSE_OBJECT && s[p] != CLOSE_ARRAY
  }

  lemma {:induction false} ValueComplete(s: seq<Byte>, p: nat, d: nat, lead: seq<Byte>, v: Node)
    requires Blanks(lead) && IsNode(v) && Depth(v) <= d && At(s, p, lead + NodeText(v))
    requires Stopped(v, s, p + |lead + NodeText(v)|)
    ensures ValueAt(s, p, d) == Some(p + |lead + NodeText(v)|)
    ensures Ws(s, p) == p + |lead| && Starts(s, p + |lead|)
    decreases v
  {
    hide At, Ws, Blanks, AtomAt, ItemsAt, AtomText, ItemsText, AreItems, ItemsDepth;
    var q := p + |lead|;
    AtSplit(s, p, lead, NodeText(v));
    match v
    case Leaf(atom) =>
      AtomComplete(s, q, atom);
      WsIs(s, p, lead);
    case Hollow(braced, gap) =>
      AtFirst(s, q, NodeText(v));
      WsIs(s, p, lead);
      AtSplit(s, q, [Opener(braced)], gap + [Closer(braced)]);
      AtSplit(s, q + 1, gap, [Closer(braced)]);
      AtFirst(s, q + 1 + |gap|, [Closer(braced)]);
      WsIs(s, q + 1, gap);
    case Full(braced, items) =>
      AtFirst(s, q, NodeText(v));
      WsIs(s, p, lead);
      AtSplit(s, q, [Opener(braced)], ItemsText(items, braced));
      ItemsComplete(s, q + 1, braced, d - 1, items);
      ItemsAtWs(s, q + 1, braced, d - 1);
  }

  lemma {:induction false} ItemsComplete(s: seq<Byte>, p: nat, braced: bool, d: nat, items: Items)
    requires AreItems(items, braced) && ItemsDepth(items) <= d && At(s, p, ItemsText(items, braced))
    ensures ItemsAt(s, p, braced, d) == Some(p + |ItemsText(items, braced)|)
    ensures Starts(s, Ws(s, p))
    decreases items
  {
    hide At, Ws, Blanks, KeyAt, ValueAt, RestAt, ItemsAt, KeyText, IsKey, IsNode, NodeText, ItemsText, Depth;
    var k := p + |KeyText(items.key)|;
    var v := k + |items.lead + NodeText(items.value)|;
    ItemsParts(s, p, braced, items, k, v);
    KeyComplete(s, p, items.key, braced);
    ValueComplete(s, k, d, items.lead, items.value);
    ItemsIs(s, p, braced, d, k, v);
    RestIs(s, v, braced, d);
    if items.More? {
      ItemsComplete(s, v + |items.tail| + 1, braced, d, items.rest);
    }
  }

  lemma {:induction false} ItemsParts(s: seq<Byte>, p: nat, braced: bool, items: Items, k: nat, v: nat)
    requires At(s, p, ItemsText(items, braced)) && Blanks(items.tail)
    requires k == p + |KeyText(items.key)| && v == k + |items.lead + NodeText(items.value)|
    ensures At(s, p, KeyText(items.key)) && At(s, k, items.lead + NodeText(items.value)) && Ends(s, v)
    ensures Ws(s, v) == v + |items.tail| && Here(s, v + |items.tail|, if items.More? then COMMA else Closer(braced))
    ensures items.More? ==> At(s, v + |items.tail| + 1, ItemsText(items.rest, braced))
    ensures p + |ItemsText(items, braced)|
         == v + |items.tail| + 1 + if items.More? then |ItemsText(items.rest, braced)| else 0
  {
    hide At, KeyText, NodeText, Ws;
    var value := items.lead + NodeText(items.value);
    var end := if items.More? then [COMMA] + ItemsText(items.rest, braced) else [Closer(braced)];
    assert ItemsText(items, braced) == KeyText(items.key) + (value + (items.tail + end));
    hide ItemsText;
    AtSplit(s, p, KeyText(items.key), value + (items.tail + end));
    AtSplit(s, k, value, items.tail + end);
    EndComplete(s, v, braced, items, end);
  }

  lemma {:induction false} ItemsIs(s: seq<Byte>, p: nat, braced: bool, d: nat, k: nat, v: nat)
    requires p <= |s| && KeyAt(s, p, braced) == Some(k) && ValueAt(s, k, d) == Some(v)
    ensures ItemsAt(s, p, braced, d) == RestAt(s, v, braced, d)
  {}

  lemma {:induction false} RestIs(s: seq<Byte>, p: nat, braced: bool, d: nat)
    requires p <= |s|
    ensures Here(s, Ws(s, p), Closer(braced)) ==> RestAt(s, p, braced, d) == Some(Ws(s, p) + 1)
    ensures Here(s, Ws(s, p), COMMA) ==> RestAt(s, p, braced, d) == ItemsAt(s, Ws(s, p) + 1, braced, d)
    ensures !Here(s, Ws(s, p), Closer(braced)) && !Here(s, Ws(s, p), COMMA) ==> RestAt(s, p, braced, d) == None
  {}

  // After a value come blanks and the comma or closing bracket, none of which goes on a number.
  lemma {:induction false} EndComplete(s: seq<Byte>, v: nat, braced: bool, items: Items, end: seq<Byte>)
    requires Blanks(items.tail) && At(s, v, items.tail + end)
    requires end == if items.More? then [COMMA] + ItemsText(items.rest, braced) else [Closer(braced)]
    ensures Ends(s, v)
    ensures Ws(s, v) == v + |items.tail| && Here(s, v + |items.tail|, if items.More? then COMMA else Closer(braced))
    ensures items.More? ==> At(s, v + |items.tail| + 1, ItemsText(items.rest, braced))
  {
    hide At, Ws, ItemsText;
    AtSplit(s, v, items.tail, end);
    AtFirst(s, v + |items.tail|, end);
    WsIs(s, v, items.tail);
    if items.tail != [] {
      AtFirst(s, v, items.tail);
    }
    if items.More? {
      AtSplit(s, v + |items.tail|, [COMMA], ItemsText(items.rest, braced));
    }
  }

  // ---------------------------------------------------------------------------
  // The reader accepts nothing else
  // ---------------------------------------------------------------------------

  lemma {:induction false} SliceAt(s: seq<Byte>, p: nat, q: nat)
    requires p <= q <= |s|
    ensures At(s, p, s[p..q])
  {}

  lemma {:induction false} WholeSound(s: seq<Byte>, p: nat) returns (minus: seq<Byte>, whole: seq<Byte>)
    requires p < |s| && Whole(s, p).Some?
    ensures minus == [] || minus == [0x2d]
    ensures whole != [] && Digits(whole) && (whole[0] == 0x30 ==> |whole| == 1)
    ensures At(s, p, minus) && At(s, p + |minus|, whole) && Whole(s, p) == Some(p + |minus| + |whole|)
    ensures whole != [0x30] && Whole(s, p).value < |s| ==> !Digit(s[Whole(s, p).value])
  {
    var p0 := if Here(s, p, 0x2d) then p + 1 else p;
    minus, whole := s[p..p0], s[p0..Whole(s, p).value];
  }

  lemma {:induction false} FractionSound(s: seq<Byte>, p: nat) returns (frac: seq<Byte>)
    requires p <= |s| && Fraction(s, p).Some?
    ensures Digits(frac)
    ensures At(s, p, FracText(frac)) && Fraction(s, p) == Some(p + |FracText(frac)|)
    ensures if frac == [] then !Here(s, p, 0x2e) else Fraction(s, p).value < |s| ==> !Digit(s[Fraction(s, p).value])
  {
    hide At;
    if Here(s, p, 0x2e) {
      var q := Fraction(s, p).value;
      frac := s[p + 1..q];
      SliceAt(s, p, p + 1);
      SliceAt(s, p + 1, q);
      assert s[p..p + 1] == [0x2e];
      AtSplit(s, p, [0x2e], frac);
    } else {
      frac := [];
      AtNone(s, p);
    }
  }

  lemma {:induction false} AtNone(s: seq<Byte>, p: nat)
    requires p <= |s|
    ensures At(s, p, [])
  {}

  lemma {:induction false} ExponentSound(s: seq<Byte>, p: nat) returns (mark: seq<Byte>, power: seq<Byte>)
    requires p <= |s| && Exponent(s, p).Some?
    ensures (mark == [] <==> power == []) && Digits(power)
    ensures mark != [] ==> mark[0] in {0x65, 0x45} && (|mark| == 1 || (|mark| == 2 && mark[1] in {0x2b, 0x2d}))
    ensures At(s, p, mark) && At(s, p + |mark|, power) && Exponent(s, p) == Some(p + |mark| + |power|)
    ensures if mark == [] then !Here(s, p, 0x65) && !Here(s, p, 0x45)
            else Exponent(s, p).value < |s| ==> !Digit(s[Exponent(s, p).value])
  {
    var q := Exponent(s, p).value;
    if q == p {
      mark, power := [], [];
    } else {
      var m := if Here(s, p + 1, 0x2b) || Here(s, p + 1, 0x2d) then p + 2 else p + 1;
      mark, power := s[p..m], s[m..q];
    }
  }

  lemma {:induction false} NumberSound(s: seq<Byte>, p: nat) returns (n: Number)
    requires p < |s| && NumberAt(s, p).Some?
    ensures IsNumber(n) && At(s, p, NumberText(n)) && NumberAt(s, p) == Some(p + |NumberText(n)|)
    ensures Stops(n, s, p + |NumberText(n)|)
  {
    hide At, Whole, Fraction, Exponent, Digits, NumberText, FracText;
    var minus, whole := WholeSound(s, p);
    var p1 := Whole(s, p).value;
    var frac := FractionSound(s, p1);
    var p2 := Fraction(s, p1).value;
    var mark, power := ExponentSound(s, p2);
    n := Number(minus, whole, frac, mark, power);
    NumberSpelled(s, p, n);
    NumberLength(n);
  }

  lemma {:induction false} NumberLength(n: Number)
    ensures |NumberText(n)| == |n.minus| + |n.whole| + |FracText(n.frac)| + |n.mark| + |n.power|
    ensures n.frac == [] <==> FracText(n.frac) == []
  {}

  lemma {:induction false} NumberSpelled(s: seq<Byte>, p: nat, n: Number)
    requires var p1 := p + |n.minus| + |n.whole|;
             var p2 := p1 + |FracText(n.frac)|;
             && At(s, p, n.minus) && At(s, p + |n.minus|, n.whole) && At(s, p1, FracText(n.frac))
             && At(s, p2, n.mark) && At(s, p2 + |n.mark|, n.power)
    ensures At(s, p, NumberText(n))
  {
    hide At, FracText;
    var f, e := FracText(n.frac), n.mark + n.power;
    var p1 := p + |n.minus| + |n.whole|;
    AtSplit(s, p1 + |f|, n.mark, n.power);
    AtSplit(s, p1, f, e);
    AtSplit(s, p + |n.minus|, n.whole, f + e);
    AtSplit(s, p, n.minus, n.whole + (f + e));
  }

  lemma {:induction false} StringSound(s: seq<Byte>, p: nat) returns (chars: seq<seq<Byte>>)
    requires p <= |s| && StringAt(s, p).Some?
    ensures AreChars(chars) && At(s, p, Quoted(chars))
    ensures StringAt(s, p) == Some(p + |Quoted(chars)|)
  {
    hide At, Body, Flat, Meaning, AreChars;
    chars := BodySound(s, p + 1);
    SliceAt(s, p, p + 1);
    assert s[p..p + 1] == [QUOTE];
    AtSplit(s, p, [QUOTE], Flat(chars) + [QUOTE]);
  }

  lemma {:induction false} AtomSound(s: seq<Byte>, p: nat) returns (a: Atom)
    requires p < |s| && AtomAt(s, p).Some?
    ensures IsAtom(a) && At(s, p, AtomText(a)) && AtomAt(s, p) == Some(p + |AtomText(a)|)
    ensures AtomStops(a, s, p + |AtomText(a)|)
  {
    hide StringAt, NumberAt, IsNumber, AreChars, Quoted, NumberText, Stops, At;
    var q := AtomAt(s, p).value;
    SliceAt(s, p, q);
    if s[p] == QUOTE {
      var chars := StringSound(s, p);
      a := Text(chars);
    } else if s[p] == 0x2d || Digit(s[p]) {
      var n := NumberSound(s, p);
      a := Figure(n);
    } else {
      a := Word(s[p..q]);
    }
  }

  lemma {:induction false} KeySound(s: seq<Byte>, p: nat, braced: bool) returns (k: Key)
    requires p <= |s| && KeyAt(s, p, braced).Some?
    ensures IsKey(k, braced) && At(s, p, KeyText(k)) && KeyAt(s, p, braced) == Some(p + |KeyText(k)|)
  {
    if !braced {
      k := NoKey;
    } else {
      var p1 := Ws(s, p);
      var chars := StringSound(s, p1);
      var p2 := StringAt(s, p1).value;
      k := Named(s[p..p1], chars, s[p2..Ws(s, p2)]);
      hide StringAt, Ws, Quoted;
      NamedAt(s, p, p1, p2, Ws(s, p2), chars);
    }
  }

  lemma {:induction false} NamedAt(s: seq<Byte>, p: nat, p1: nat, p2: nat, p3: nat, chars: seq<seq<Byte>>)
    requires p <= p1 <= p2 <= p3 < |s| && s[p3] == COLON && At(s, p1, Quoted(chars)) && p2 == p1 + |Quoted(chars)|
    ensures var t := KeyText(Named(s[p..p1], chars, s[p2..p3])); At(s, p, t) && |t| == p3 + 1 - p
  {
    hide At, Quoted;
    SliceAt(s, p, p1);
    SliceAt(s, p2, p3);
    SliceAt(s, p3, p3 + 1);
    assert s[p3..p3 + 1] == [COLON];
    AtSplit(s, p2, s[p2..p3], [COLON]);
    AtSplit(s, p1, Quoted(chars), s[p2..p3] + [COLON]);
    AtSplit(s, p, s[p..p1], Quoted(chars) + (s[p2..p3] + [COLON]));
  }

  lemma {:induction false} ValueSound(s: seq<Byte>, p: nat, d: nat) returns (lead: seq<Byte>, v: Node)
    requires p <= |s| && ValueAt(s, p, d).Some?
    ensures Blanks(lead) && IsNode(v) && Depth(v) <= d && At(s, p, lead + NodeText(v))
    ensures ValueAt(s, p, d) == Some(p + |lead + NodeText(v)|)
    ensures Stopped(v, s, p + |lead + NodeText(v)|)
    decreases |s| - p, 1
  {
    hide At, Ws, AtomAt, AtomStops, ItemsAt, AtomText, ItemsText, AreItems, ItemsDepth, IsAtom;
    var q := Ws(s, p);
    lead := s[p..q];
    SliceAt(s, p, q);
    if !IsOpener(s[q]) {
      var a := AtomSound(s, q);
      v := Leaf(a);
    } else {
      var braced := s[q] == OPEN_OBJECT;
      var r := Ws(s, q + 1);
      SliceAt(s, q, q + 1);
      assert s[q..q + 1] == [Opener(braced)];
      if Here(s, r, Closer(braced)) {
        v := Hollow(braced, s[q + 1..r]);
        SliceAt(s, q + 1, r);
        SliceAt(s, r, r + 1);
        assert s[r..r + 1] == [Closer(braced)];
        AtSplit(s, q + 1, s[q + 1..r], [Closer(braced)]);
        AtSplit(s, q, [Opener(braced)], v.gap + [Closer(braced)]);
      } else {
        ItemsAtWs(s, q + 1, braced, d - 1);
        var items := ItemsSound(s, q + 1, braced, d - 1);
        v := Full(braced, items);
        AtSplit(s, q, [Opener(braced)], ItemsText(items, braced));
      }
    }
    AtSplit(s, p, lead, NodeText(v));
  }

  lemma {:induction false} ItemsSound(s: seq<Byte>, p: nat, braced: bool, d: nat) returns (items: Items)
    requires p <= |s| && ItemsAt(s, p, braced, d).Some?
    ensures AreItems(items, braced) && ItemsDepth(items) <= d && At(s, p, ItemsText(items, braced))
    ensures ItemsAt(s, p, braced, d) == Some(p + |ItemsText(items, braced)|)
    decreases |s| - p, 2
  {
    hide At, Ws, KeyAt, ValueAt, KeyText, IsKey, IsNode, NodeText, Depth;
    var key := KeySound(s, p, braced);
    var k := KeyAt(s, p, braced).value;
    var lead, value := ValueSound(s, k, d);
    var v := ValueAt(s, k, d).value;
    var w := Ws(s, v);
    var tail := s[v..w];
    SliceAt(s, v, w);
    SliceAt(s, w, w + 1);
    var end: seq<Byte>;
    if Here(s, w, Closer(braced)) {
      items := Last(key, lead, value, tail);
      end := [Closer(braced)];
      assert s[w..w + 1] == end;
    } else {
      assert s[w..w + 1] == [COMMA];
      var rest := ItemsSound(s, w + 1, braced, d);
      items := More(key, lead, value, tail, rest);
      end := [COMMA] + ItemsText(rest, braced);
      AtSplit(s, w, [COMMA], ItemsText(rest, braced));
    }
    AtSplit(s, v, tail, end);
    AtSplit(s, k, lead + NodeText(value), tail + end);
    AtSplit(s, p, KeyText(key), (lead + NodeText(value)) + (tail + end));
  }

  // ---------------------------------------------------------------------------
  // Main result
  // ---------------------------------------------------------------------------

  // Blanks and one value of the grammar, nested at most d deep, fill s[p..q].
  ghost predicate IsValue(s: seq<Byte>, p: nat, q: nat, d: nat) {
    exists lead, v :: ValueText(lead, v, s, p, q) && Depth(v) <= d
  }

  ghost predicate ValueText(lead: seq<Byte>, v: Node, s: seq<Byte>, p: nat, q: nat) {
    Blanks(lead) && IsNode(v) && At(s, p, lead + NodeText(v)) && q == p + |lead + NodeText(v)|
  }

  // ... and do not go on behind q: only a number could.
  ghost predicate IsWholeValue(s: seq<Byte>, p: nat, q: nat, d: nat) {
    exists lead, v :: ValueText(lead, v, s, p, q) && Depth(v) <= d && Stopped(v, s, q)
  }

  // The reader stops at q if and only if one value of RFC 8259, nested at most d deep, ends there
  // and cannot go on.
  lemma {:induction false} ReaderIsRfc8259(s: seq<Byte>, p: nat, q: nat, d: nat)
    requires p <= |s|
    ensures ValueAt(s, p, d) == Some(q) <==> IsWholeValue(s, p, q, d)
  {
    if ValueAt(s, p, d) == Some(q) {
      var lead, v := ValueSound(s, p, d);
      assert ValueText(lead, v, s, p, q);
    }
    if IsWholeValue(s, p, q, d) {
      var lead, v :| ValueText(lead, v, s, p, q) && Depth(v) <= d && Stopped(v, s, q);
      ValueComplete(s, p, d, lead, v);
    }
  }

  // The marks and words of sections 2 and 3.
  lemma {:induction false} Marks()
    ensures [OPEN_OBJECT, CLOSE_OBJECT, OPEN_ARRAY, CLOSE_ARRAY, COLON, COMMA, QUOTE] == Spelt("{}[]:,\"")
    ensures TRUE == Spelt("true") && FALSE == Spelt("false") && NULL == Spelt("null")
  {
    assert "{}[]:,\""[6] == '"';
  }

  // `1.` is refused although it begins with the value `1`: that number could go on.
  lemma {:induction false} CutNumberRefused(s: seq<Byte>, d: nat)
    requires s == [0x31, 0x2e]
    ensures ValueAt(s, 0, d) == None && IsValue(s, 0, 1, d)
  {
    assert Ws(s, 0) == 0;
    assert Run(s, 1) == 1;
    assert Run(s, 0) == 1;
    assert Run(s, 2) == 2;
    assert Whole(s, 0) == Some(1);
    assert Fraction(s, 1) == None;
    hide Whole, Fraction, Run;
    var n := Number([], [0x31], [], [], []);
    assert NumberText(n) == [0x31];
    assert ValueText([], Leaf(Figure(n)), s, 0, 1);
  }

  // `01` is read as `0`, which cannot go on with a digit.
  lemma {:induction false} ZeroStandsAlone(s: seq<Byte>, d: nat)
    requires s == [0x30, 0x31]
    ensures ValueAt(s, 0, d) == Some(1) && !Ends(s, 1)
  {
    assert Ws(s, 0) == 0;
    assert Whole(s, 0) == Some(1) && Fraction(s, 1) == Some(1) && Exponent(s, 1) == Some(1);
  }
}
