/** Name lists on both sides of the exchange: the capture view the module writes
    (module/src/body/ngx_http_waf_body.c), the archive view the agent makes of it
    (agent/internal/retain/filter.go), and ngx_http_waf_lists_cover, which decides whether the
    second may be made from the first.

    The hash of a value is a parameter: 64 hexadecimal digits.
 */
module NameLists {
  import opened Bytes
  import opened JsonText
  import Utf8

  type Name = seq<Byte>

  datatype Lists = Lists(allow: seq<Name>, mask: seq<Name>, deny: seq<Name>)

  type Hash = seq<Byte> -> seq<Byte>

  predicate IsHex64(t: seq<Byte>) { |t| == 64 && forall i | 0 <= i < |t| :: HexDigit(t[i]) }

  ghost predicate IsHash(h: Hash) { forall v :: IsHex64(h(v)) }

  // ---------------------------------------------------------------------------
  // Names match without regard to ASCII case
  // ---------------------------------------------------------------------------

  function Lower(c: Byte): Byte { if 0x41 <= c <= 0x5a then c + 0x20 else c }

  function Fold(n: Name): Name { seq(|n|, i requires 0 <= i < |n| => Lower(n[i])) }

  // The same character, or the same letter in another case.
  predicate SameButCase(a: Byte, b: Byte) {
    a == b || (0x41 <= a <= 0x5a && b == a + 0x20) || (0x41 <= b <= 0x5a && a == b + 0x20)
  }

  lemma {:induction false} FoldsCase(a: Name, b: Name)
    ensures Fold(a) == Fold(b) <==> |a| == |b| && forall i | 0 <= i < |a| :: SameButCase(a[i], b[i])
  {
    if Fold(a) == Fold(b) {
      assert |Fold(a)| == |a| && |Fold(b)| == |b|;
      forall i | 0 <= i < |a| ensures SameButCase(a[i], b[i]) {
        assert Fold(a)[i] == Fold(b)[i];
      }
    }
  }

  predicate Listed(list: seq<Name>, name: Name) { exists i | 0 <= i < |list| :: Fold(list[i]) == Fold(name) }

  lemma {:induction false} ListedFolds(list: seq<Name>, a: Name, b: Name)
    requires Fold(a) == Fold(b)
    ensures Listed(list, a) <==> Listed(list, b)
  {}

  // ngx_http_waf_name_listed
  method NameListed(list: seq<Name>, name: Name) returns (found: bool)
    ensures found <==> Listed(list, name)
  {
    for i := 0 to |list|
      invariant forall k | 0 <= k < i :: Fold(list[k]) != Fold(name)
    {
      var same := |list[i]| == |name|;
      if same {
        same := SameName(list[i], name);
      }
      if same {
        return true;
      }
      assert |Fold(list[i])| == |list[i]|;
    }
    found := false;
  }

  method SameName(a: Name, b: Name) returns (same: bool)
    requires |a| == |b|
    ensures same <==> Fold(a) == Fold(b)
  {
    for i := 0 to |a|
      invariant forall k | 0 <= k < i :: Lower(a[k]) == Lower(b[k])
    {
      if Lower(a[i]) != Lower(b[i]) {
        assert Fold(a)[i] != Fold(b)[i];
        return false;
      }
    }
    same := true;
  }

  // ---------------------------------------------------------------------------
  // lists_drop and lists_cover
  // ---------------------------------------------------------------------------

  predicate Drops(own: Lists, name: Name) {
    Listed(own.deny, name) || (own.allow != [] && !Listed(own.allow, name))
  }

  method ListsDrop(own: Lists, name: Name) returns (drop: bool)
    ensures drop <==> Drops(own, name)
  {
    drop := NameListed(own.deny, name);
    if drop {
      return;
    }
    if own.allow == [] {
      return false;
    }
    var allowed := NameListed(own.allow, name);
    drop := !allowed;
  }

  // Whatever the name, the own lists drop what the capture drops, and drop or hash what it hashes.
  ghost predicate Covers(cap: Lists, own: Lists) {
    && (forall n | Listed(cap.deny, n) :: Drops(own, n))
    && (forall n | Listed(cap.mask, n) :: Drops(own, n) || Listed(own.mask, n))
  }

  lemma {:induction false} DropsFolds(own: Lists, a: Name, b: Name)
    requires Fold(a) == Fold(b)
    ensures Drops(own, a) <==> Drops(own, b)
  {
    ListedFolds(own.deny, a, b);
    ListedFolds(own.allow, a, b);
  }

  // Looking at the listed spellings is enough for all spellings.
  lemma {:induction false} CoversBySpelling(cap: Lists, own: Lists)
    requires forall i | 0 <= i < |cap.deny| :: Drops(own, cap.deny[i])
    requires forall i | 0 <= i < |cap.mask| :: Drops(own, cap.mask[i]) || Listed(own.mask, cap.mask[i])
    ensures Covers(cap, own)
  {
    forall n | Listed(cap.deny, n) ensures Drops(own, n) {
      var i :| 0 <= i < |cap.deny| && Fold(cap.deny[i]) == Fold(n);
      DropsFolds(own, cap.deny[i], n);
    }
    forall n | Listed(cap.mask, n) ensures Drops(own, n) || Listed(own.mask, n) {
      var i :| 0 <= i < |cap.mask| && Fold(cap.mask[i]) == Fold(n);
      DropsFolds(own, cap.mask[i], n);
      ListedFolds(own.mask, cap.mask[i], n);
    }
  }

  // ngx_http_waf_lists_cover
  method ListsCover(cap: Lists, own: Lists) returns (yes: bool)
    ensures yes <==> Covers(cap, own)
  {
    for i := 0 to |cap.deny|
      invariant forall k | 0 <= k < i :: Drops(own, cap.deny[k])
    {
      var drop := ListsDrop(own, cap.deny[i]);
      if !drop {
        assert Listed(cap.deny, cap.deny[i]);
        return false;
      }
    }
    for i := 0 to |cap.mask|
      invariant forall k | 0 <= k < i :: Drops(own, cap.mask[k]) || Listed(own.mask, cap.mask[k])
    {
      var drop := ListsDrop(own, cap.mask[i]);
      var hash := NameListed(own.mask, cap.mask[i]);
      if !drop && !hash {
        assert Listed(cap.mask, cap.mask[i]);
        return false;
      }
    }
    CoversBySpelling(cap, own);
    yes := true;
  }

  lemma {:induction false} Uncovered(cap: Lists, own: Lists) returns (n: Name)
    requires !Covers(cap, own)
    ensures !Drops(own, n) && (Listed(cap.deny, n) || (Listed(cap.mask, n) && !Listed(own.mask, n)))
    ensures n in cap.deny + cap.mask
  {
    if i :| 0 <= i < |cap.deny| && !Drops(own, cap.deny[i]) {
      n := cap.deny[i];
    } else if i :| 0 <= i < |cap.mask| && !Drops(own, cap.mask[i]) && !Listed(own.mask, cap.mask[i]) {
      n := cap.mask[i];
    } else {
      CoversBySpelling(cap, own);
    }
  }

  // Lists cover themselves: the archive may always use the capture's own.
  lemma {:induction false} CoversItself(cap: Lists)
    ensures Covers(cap, cap)
  {}

  // ---------------------------------------------------------------------------
  // Filtering item by item
  // ---------------------------------------------------------------------------

  function Opt<A>(x: Option<A>): seq<A> { if x.Some? then [x.value] else [] }

  function Then<A>(x: Option<A>, g: A -> Option<A>): Option<A> { if x.Some? then g(x.value) else None }

  function Each<A>(f: A -> Option<A>, xs: seq<A>): seq<A> {
    if xs == [] then [] else Opt(f(xs[0])) + Each(f, xs[1..])
  }

  lemma {:induction false} EachConcat<A>(f: A -> Option<A>, xs: seq<A>, ys: seq<A>)
    ensures Each(f, xs + ys) == Each(f, xs) + Each(f, ys)
  {
    hide Each, Opt;
    if xs == [] {
      EachNone(f);
      assert xs + ys == ys && [] + Each(f, ys) == Each(f, ys);
    } else {
      var all, rest := xs + ys, xs[1..];
      assert all[0] == xs[0] && all[1..] == rest + ys;
      var a, b, c := Opt(f(xs[0])), Each(f, rest), Each(f, ys);
      calc {
        Each(f, all);
        { EachFirst(f, all); }
        a + Each(f, rest + ys);
        { EachConcat(f, rest, ys); }
        a + (b + c);
        { Regroup(a, b, c); }
        (a + b) + c;
        { EachFirst(f, xs); }
        Each(f, xs) + c;
      }
    }
  }

  lemma {:induction false} EachFirst<A>(f: A -> Option<A>, xs: seq<A>)
    requires xs != []
    ensures Each(f, xs) == Opt(f(xs[0])) + Each(f, xs[1..])
  {}

  lemma {:induction false} Regroup<A>(a: seq<A>, b: seq<A>, c: seq<A>)
    ensures a + (b + c) == (a + b) + c
  {}

  lemma {:induction false} EachSnoc<A>(f: A -> Option<A>, xs: seq<A>, i: nat)
    requires i < |xs|
    ensures Each(f, xs[..i + 1]) == Each(f, xs[..i]) + Opt(f(xs[i]))
  {
    EachConcat(f, xs[..i], [xs[i]]);
    assert xs[..i + 1] == xs[..i] + [xs[i]];
  }

  lemma {:induction false} EachAfterEach<A>(f: A -> Option<A>, g: A -> Option<A>, k: A -> Option<A>, xs: seq<A>)
    requires forall x | x in xs :: Then(f(x), g) == k(x)
    ensures Each(g, Each(f, xs)) == Each(k, xs)
  {
    if xs != [] {
      EachAfterEach(f, g, k, xs[1..]);
      EachConcat(g, Opt(f(xs[0])), Each(f, xs[1..]));
      assert Then(f(xs[0]), g) == k(xs[0]);
    }
  }

  lemma {:induction false} EachNone<A>(f: A -> Option<A>)
    ensures Each(f, []) == []
  {}

  lemma {:induction false} EachEqualIff<A>(f: A -> Option<A>, g: A -> Option<A>, xs: seq<A>)
    requires forall x | x in xs :: f(x).Some? == g(x).Some?
    ensures Each(f, xs) == Each(g, xs) <==> forall x | x in xs :: f(x) == g(x)
    ensures |Each(f, xs)| == |Each(g, xs)|
  {
    if xs != [] {
      var rest := xs[1..];
      EachEqualIff(f, g, rest);
      assert xs == [xs[0]] + rest;
      assert f(xs[0]).Some? == g(xs[0]).Some?;
      var a, b := Opt(f(xs[0])), Opt(g(xs[0]));
      if Each(f, xs) == Each(g, xs) {
        assert Each(f, xs)[..|a|] == a && Each(g, xs)[..|b|] == b;
        assert Each(f, xs)[|a|..] == Each(f, rest) && Each(g, xs)[|b|..] == Each(g, rest);
        assert a == b;
        assert f(xs[0]) == g(xs[0]);
      }
      if forall x | x in xs :: f(x) == g(x) {
        assert f(xs[0]) == g(xs[0]);
      }
    }
  }

  lemma {:induction false} EachOne<A>(f: A -> Option<A>, x: A)
    ensures Each(f, [x]) == Opt(f(x))
  {
    assert Each(f, [x][1..]) == [];
  }

  // ---------------------------------------------------------------------------
  // The agent's comparison
  // ---------------------------------------------------------------------------

  // strings.EqualFold folds Unicode. Two characters beyond ASCII fold to ASCII letters: the long
  // s, U+017F, and the Kelvin sign, U+212A.
  const LONG_S: seq<Byte> := [0xc5, 0xbf]
  const KELVIN: seq<Byte> := [0xe2, 0x84, 0xaa]

  // U+017F and U+212A
  lemma {:induction false} LookalikeCharacters()
    ensures LONG_S == Utf8.Encode(0x17f) && KELVIN == Utf8.Encode(0x212a)
  {}

  // The first character folded, and how many bytes it takes.
  function FoldUnit(n: Name): (r: (Byte, nat))
    requires n != []
    ensures 1 <= r.1 <= |n|
  {
    if |n| >= 2 && n[0] == LONG_S[0] && n[1] == LONG_S[1] then (0x73, 2)
    else if |n| >= 3 && n[0] == KELVIN[0] && n[1] == KELVIN[1] && n[2] == KELVIN[2] then (0x6b, 3)
    else (Lower(n[0]), 1)
  }

  function AgentFold(n: Name): Name {
    if n == [] then [] else [FoldUnit(n).0] + AgentFold(n[FoldUnit(n).1..])
  }

  predicate AgentListed(list: seq<Name>, name: Name) {
    exists i | 0 <= i < |list| :: AgentFold(list[i]) == AgentFold(name)
  }

  // keepName, negated
  predicate AgentDrops(own: Lists, name: Name) {
    AgentListed(own.deny, name) || (own.allow != [] && !AgentListed(own.allow, name))
  }

  lemma {:induction false} AgentFoldStep(a: Name, b: Name)
    ensures AgentFold(a) == [] <==> a == []
    ensures a != [] && b != [] ==>
              (AgentFold(a) == AgentFold(b)
               <==> FoldUnit(a).0 == FoldUnit(b).0 && AgentFold(a[FoldUnit(a).1..]) == AgentFold(b[FoldUnit(b).1..]))
  {
    if a != [] && b != [] {
      var x, y := AgentFold(a), AgentFold(b);
      assert x[1..] == AgentFold(a[FoldUnit(a).1..]) && y[1..] == AgentFold(b[FoldUnit(b).1..]);
    }
  }

  // strings.EqualFold on ASCII and the two characters that fold to it
  method EqualFold(a: Name, b: Name) returns (same: bool)
    ensures same <==> AgentFold(a) == AgentFold(b)
  {
    var s, t := a, b;
    while s != [] && t != []
      invariant AgentFold(a) == AgentFold(b) <==> AgentFold(s) == AgentFold(t)
      decreases |s|
    {
      AgentFoldStep(s, t);
      var u, v := FoldUnit(s), FoldUnit(t);
      if u.0 != v.0 {
        return false;
      }
      s, t := s[u.1..], t[v.1..];
    }
    AgentFoldStep(s, t);
    AgentFoldStep(t, s);
    same := s == [] && t == [];
  }

  // listed
  method AgentNameListed(list: seq<Name>, name: Name) returns (found: bool)
    ensures found <==> AgentListed(list, name)
  {
    hide AgentFold;
    for i := 0 to |list|
      invariant forall k | 0 <= k < i :: AgentFold(list[k]) != AgentFold(name)
    {
      var same := EqualFold(list[i], name);
      if same {
        return true;
      }
    }
    found := false;
  }

  // keepName
  method KeepName(own: Lists, name: Name) returns (keep: bool)
    ensures keep <==> !AgentDrops(own, name)
  {
    var denied := AgentNameListed(own.deny, name);
    if denied {
      return false;
    }
    if own.allow == [] {
      return true;
    }
    keep := AgentNameListed(own.allow, name);
  }

  // One letter, in any case, as a character of its own.
  ghost predicate SameLetter(glyph: seq<Byte>, c: Byte) {
    || (|glyph| == 1 && Lower(glyph[0]) == Lower(c))
    || (glyph == LONG_S && Lower(c) == 0x73)
    || (glyph == KELVIN && Lower(c) == 0x6b)
  }

  // The comparison is character by character: of an ASCII name with any name in UTF-8.
  lemma {:induction false} FoldsCharacterwise(chars: seq<seq<Byte>>, item: Name)
    requires (forall i | 0 <= i < |chars| :: Utf8.WellFormed(chars[i])) && Ascii(item)
    ensures AgentFold(Flat(chars)) == Fold(item)
       <==> |chars| == |item| && forall i | 0 <= i < |chars| :: SameLetter(chars[i], item[i])
  {
    if chars == [] || item == [] {
      AgentFoldStep(Flat(chars), []);
      assert chars != [] ==> Flat(chars) != [];
      assert |Fold(item)| == |item|;
    } else {
      var n, more := Flat(chars), Flat(chars[1..]);
      FoldsCharacterwise(chars[1..], item[1..]);
      UnitOfCharacter(chars[0], more);
      var x, y := AgentFold(n), Fold(item);
      assert y[0] == Lower(item[0]) && y[1..] == Fold(item[1..]);
      if x == y {
        UnitIsLetter(chars[0], more, item[0]);
        assert x[1..] == AgentFold(n[FoldUnit(n).1..]);
        assert n[|chars[0]|..] == more;
        assert forall i | 0 < i < |chars| :: chars[i] == chars[1..][i - 1] && item[i] == item[1..][i - 1];
      }
      if |chars| == |item| && forall i | 0 <= i < |chars| :: SameLetter(chars[i], item[i]) {
        assert forall i | 0 <= i < |chars| - 1 :: chars[1..][i] == chars[i + 1] && item[1..][i] == item[i + 1];
        UnitIsLetter(chars[0], more, item[0]);
        assert n[|chars[0]|..] == more;
        assert y == [y[0]] + y[1..];
      }
    }
  }

  // A whole character that folds to ASCII is taken at once; any other leaves its first byte.
  lemma {:induction false} UnitOfCharacter(glyph: seq<Byte>, more: seq<Byte>)
    requires Utf8.WellFormed(glyph)
    ensures var u := FoldUnit(glyph + more);
            if glyph == LONG_S then u == (0x73, 2)
            else if glyph == KELVIN then u == (0x6b, 3)
            else u == (Lower(glyph[0]), 1)
  {
    var n := glyph + more;
    assert n[0] == glyph[0];
    assert |glyph| > 1 ==> n[1] == glyph[1];
    assert |glyph| > 2 ==> n[2] == glyph[2];
  }

  lemma {:induction false} UnitIsLetter(glyph: seq<Byte>, more: seq<Byte>, c: Byte)
    requires Utf8.WellFormed(glyph) && c < 0x80
    ensures var u := FoldUnit(glyph + more);
            u.0 == Lower(c) <==> SameLetter(glyph, c)
    ensures SameLetter(glyph, c) ==> FoldUnit(glyph + more).1 == |glyph|
  {
    UnitOfCharacter(glyph, more);
  }

  // ---------------------------------------------------------------------------
  // ASCII lists
  // ---------------------------------------------------------------------------

  ghost predicate Ascii(t: seq<Byte>) { forall i | 0 <= i < |t| :: t[i] < 0x80 }

  ghost predicate AsciiNames(list: seq<Name>) { forall i | 0 <= i < |list| :: Ascii(list[i]) }

  ghost predicate AsciiLists(l: Lists) { AsciiNames(l.allow) && AsciiNames(l.mask) && AsciiNames(l.deny) }

  lemma {:induction false} FoldCons(n: Name)
    requires n != []
    ensures Fold(n) == [Lower(n[0])] + Fold(n[1..])
  {}

  lemma {:induction false} FoldKeepsAscii(a: Name)
    ensures Ascii(Fold(a)) <==> Ascii(a)
  {
    if Ascii(Fold(a)) {
      forall i | 0 <= i < |a| ensures a[i] < 0x80 {
        assert Fold(a)[i] < 0x80;
      }
    }
  }

  // Up to the first byte that is not ASCII the two comparisons fold alike.
  lemma {:induction false} AgentFoldAfter(a: Name, b: Name)
    requires Ascii(a)
    ensures AgentFold(a + b) == Fold(a) + AgentFold(b)
  {
    if a == [] {
      assert a + b == b;
    } else {
      var n := a + b;
      assert n[0] == a[0] && n[1..] == a[1..] + b;
      AsciiFirst(n);
      hide AgentFold, FoldUnit;
      AgentFoldAfter(a[1..], b);
      FoldCons(a);
    }
  }

  lemma {:induction false} AsciiFirst(n: Name)
    requires n != [] && n[0] < 0x80
    ensures AgentFold(n) == [Lower(n[0])] + AgentFold(n[1..])
  {
    assert FoldUnit(n) == (Lower(n[0]), 1);
  }

  lemma {:induction false} AgentFoldAscii(n: Name)
    requires Ascii(n)
    ensures AgentFold(n) == Fold(n)
  {
    AgentFoldAfter(n, []);
    assert n + [] == n;
  }

  // On ASCII names both sides list alike; the module lists no other name.
  lemma {:induction false} ListedAlike(list: seq<Name>, n: Name)
    requires AsciiNames(list)
    ensures Ascii(n) ==> (AgentListed(list, n) <==> Listed(list, n))
    ensures !Ascii(n) ==> !Listed(list, n)
  {
    hide AgentFold;
    forall i | 0 <= i < |list|
      ensures AgentFold(list[i]) == Fold(list[i])
      ensures Fold(list[i]) == Fold(n) ==> Ascii(n)
    {
      AgentFoldAscii(list[i]);
      FoldKeepsAscii(list[i]);
      FoldKeepsAscii(n);
    }
    if Ascii(n) {
      AgentFoldAscii(n);
    }
  }

  lemma {:induction false} DropsAlike(own: Lists, n: Name)
    requires AsciiLists(own)
    ensures Ascii(n) ==> (AgentDrops(own, n) <==> Drops(own, n))
  {
    ListedAlike(own.deny, n);
    ListedAlike(own.allow, n);
  }

  lemma {:induction false} SameToAgent(own: Lists, a: Name, b: Name)
    requires AgentFold(a) == AgentFold(b)
    ensures forall list :: AgentListed(list, a) <==> AgentListed(list, b)
    ensures AgentDrops(own, a) <==> AgentDrops(own, b)
  {}

  // With covering lists and an ASCII name both sides agree; on other names the module does nothing.
  lemma {:induction false} ModuleAndAgent(cap: Lists, own: Lists, n: Name)
    requires AsciiLists(cap) && AsciiLists(own) && Covers(cap, own)
    ensures Listed(cap.deny, n) ==> AgentDrops(own, n)
    ensures Listed(cap.mask, n) ==> AgentListed(cap.mask, n) && (AgentDrops(own, n) || AgentListed(own.mask, n))
  {
    ListedAlike(cap.deny, n);
    ListedAlike(cap.mask, n);
    ListedAlike(own.mask, n);
    DropsAlike(own, n);
  }

  // ---------------------------------------------------------------------------
  // Names only the agent takes for listed ones
  // ---------------------------------------------------------------------------

  // Hashed in the agent's eyes already, although the module left it in clear, and not dropped.
  predicate Lookalike(cap: Lists, own: Lists, n: Name) {
    !AgentDrops(own, n) && AgentListed(own.mask, n) && AgentListed(cap.mask, n) && !Listed(cap.mask, n)
  }

  predicate TwinAt(item: Name, j: nat) { j < |item| && (Lower(item[j]) == 0x73 || Lower(item[j]) == 0x6b) }

  ghost predicate HasTwin(item: Name) { exists j: nat :: TwinAt(item, j) }

  // No name that both sides hash has an s or a k in it.
  ghost predicate Unambiguous(cap: Lists, own: Lists) {
    forall i | 0 <= i < |cap.mask| && HasTwin(cap.mask[i]) ::
      Drops(own, cap.mask[i]) || !Listed(own.mask, cap.mask[i])
  }

  function Twin(item: Name, j: nat): Name
    requires TwinAt(item, j)
  {
    item[..j] + (if Lower(item[j]) == 0x73 then LONG_S else KELVIN) + item[j + 1..]
  }

  lemma {:induction false} TwinFolds(item: Name, j: nat)
    requires Ascii(item) && TwinAt(item, j)
    ensures AgentFold(Twin(item, j)) == AgentFold(item) && !Ascii(Twin(item, j))
  {
    var a, c, b := item[..j], item[j], item[j + 1..];
    var u := if Lower(c) == 0x73 then LONG_S else KELVIN;
    TwinUnit(c, b);
    Regroup(a, u, b);
    assert item == a + ([c] + b);
    assert Twin(item, j)[|a|] == u[0];
    hide AgentFold, Fold;
    AgentFoldAfter(a, u + b);
    AgentFoldAfter(a, [c] + b);
  }

  lemma {:induction false} TwinUnit(c: Byte, b: Name)
    requires c < 0x80 && (Lower(c) == 0x73 || Lower(c) == 0x6b)
    ensures AgentFold((if Lower(c) == 0x73 then LONG_S else KELVIN) + b) == AgentFold([c] + b)
  {
    var u := if Lower(c) == 0x73 then LONG_S else KELVIN;
    var n, m := u + b, [c] + b;
    assert n[|u|..] == b && n[0] == u[0] && n[1] == u[1] && (|u| == 3 ==> n[2] == u[2]);
    assert FoldUnit(n) == (Lower(c), |u|);
    AsciiFirst(m);
    assert m[1..] == b;
  }

  lemma {:induction false} TwinLetter(n: Name) returns (j: nat)
    requires !Ascii(n) && Ascii(AgentFold(n))
    ensures j < |AgentFold(n)| && (AgentFold(n)[j] == 0x73 || AgentFold(n)[j] == 0x6b)
  {
    var u := FoldUnit(n);
    var rest := n[u.1..];
    assert AgentFold(n)[0] == u.0;
    if u.1 > 1 {
      j := 0;
    } else {
      assert n[0] < 0x80;
      assert !Ascii(rest) by {
        var i :| 0 <= i < |n| && n[i] >= 0x80;
        assert rest[i - 1] == n[i];
      }
      assert AgentFold(n)[1..] == AgentFold(rest);
      var k := TwinLetter(rest);
      j := k + 1;
    }
  }

  // There are such names exactly when a name both sides hash has an s or a k in it.
  lemma {:induction false} LookalikesExist(cap: Lists, own: Lists)
    requires AsciiLists(cap) && AsciiLists(own)
    ensures Unambiguous(cap, own) <==> forall n :: !Lookalike(cap, own, n)
  {
    if !Unambiguous(cap, own) {
      var i :| 0 <= i < |cap.mask| && HasTwin(cap.mask[i]) && !Drops(own, cap.mask[i]) && Listed(own.mask, cap.mask[i]);
      var n := TwinOf(cap, own, cap.mask[i]);
    }
    if n :| Lookalike(cap, own, n) {
      AmbiguousBy(cap, own, n);
    }
  }

  lemma {:induction false} TwinOf(cap: Lists, own: Lists, item: Name) returns (n: Name)
    requires AsciiLists(cap) && AsciiLists(own)
    requires item in cap.mask && HasTwin(item) && !Drops(own, item) && Listed(own.mask, item)
    ensures Lookalike(cap, own, n) && n != []
  {
    hide AgentFold;
    var j: nat :| TwinAt(item, j);
    n := Twin(item, j);
    TwinFolds(item, j);
    SameToAgent(own, n, item);
    DropsAlike(own, item);
    ListedAlike(own.mask, item);
    ListedAlike(cap.mask, item);
    ListedAlike(cap.mask, n);
  }

  lemma {:induction false} AmbiguousBy(cap: Lists, own: Lists, n: Name)
    requires AsciiLists(cap) && AsciiLists(own) && Lookalike(cap, own, n)
    ensures !Unambiguous(cap, own)
  {
    hide AgentFold;
    ListedAlike(cap.mask, n);
    var i :| 0 <= i < |cap.mask| && AgentFold(cap.mask[i]) == AgentFold(n);
    var item := cap.mask[i];
    AgentFoldAscii(item);
    FoldKeepsAscii(item);
    var j := TwinLetter(n);
    assert TwinAt(item, j);
    SameToAgent(own, n, item);
    DropsAlike(own, item);
    ListedAlike(own.mask, item);
  }
}
