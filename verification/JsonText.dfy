/** JSON strings: what jw_string of module/src/codec/ngx_http_waf_json.c writes, what jp_unit and
    jp_string_buf read, and section 7 of RFC 8259.
 */
module JsonText {
  import opened Bytes
  import Utf8

  const QUOTE: Byte := 0x22
  const BACKSLASH: Byte := 0x5c

  // ---------------------------------------------------------------------------
  // Texts inside texts
  // ---------------------------------------------------------------------------

  ghost predicate At(s: seq<Byte>, p: nat, t: seq<Byte>) {
    p + |t| <= |s| && forall i | 0 <= i < |t| :: s[p + i] == t[i]
  }

  lemma {:induction false} AtSplit(s: seq<Byte>, p: nat, a: seq<Byte>, b: seq<Byte>)
    ensures At(s, p, a + b) <==> At(s, p, a) && At(s, p + |a|, b)
  {
    var t := a + b;
    if At(s, p, t) {
      forall i | 0 <= i < |a| ensures s[p + i] == a[i] { assert t[i] == a[i]; }
      forall i | 0 <= i < |b| ensures s[p + |a| + i] == b[i] { assert t[|a| + i] == b[i]; }
    }
    if At(s, p, a) && At(s, p + |a|, b) {
      forall i | 0 <= i < |t| ensures s[p + i] == t[i] {
        if i >= |a| {
          assert s[p + |a| + (i - |a|)] == b[i - |a|];
        }
      }
    }
  }

  lemma {:induction false} AtSlice(s: seq<Byte>, p: nat, t: seq<Byte>)
    requires At(s, p, t)
    ensures s[p..p + |t|] == t && s[p..] == t + s[p + |t|..]
  {}

  // ---------------------------------------------------------------------------
  // Section 7 of RFC 8259
  // ---------------------------------------------------------------------------

  predicate HexDigit(c: Byte) { 0x30 <= c <= 0x39 || 0x41 <= c <= 0x46 || 0x61 <= c <= 0x66 }

  function HexValue(c: Byte): (v: nat)
    requires HexDigit(c)
    ensures v < 16
  {
    if c <= 0x39 then c - 0x30 else if c <= 0x46 then c - 0x41 + 10 else c - 0x61 + 10
  }

  // The character a two-character escape stands for: " \ / b f n r t.
  function Short(c: Byte): Option<Byte> {
    if c == QUOTE || c == BACKSLASH || c == 0x2f then Some(c)
    else if c == 0x62 then Some(0x08)
    else if c == 0x66 then Some(0x0c)
    else if c == 0x6e then Some(0x0a)
    else if c == 0x72 then Some(0x0d)
    else if c == 0x74 then Some(0x09)
    else None
  }

  predicate IsPlain(c: seq<Byte>) {
    Utf8.WellFormed(c) && c[0] >= 0x20 && c[0] != QUOTE && c[0] != BACKSLASH
  }

  predicate IsShort(c: seq<Byte>) { |c| == 2 && c[0] == BACKSLASH && Short(c[1]).Some? }

  predicate IsHex(c: seq<Byte>) {
    |c| == 6 && c[0] == BACKSLASH && c[1] == 0x75
    && HexDigit(c[2]) && HexDigit(c[3]) && HexDigit(c[4]) && HexDigit(c[5])
  }

  predicate IsChar(c: seq<Byte>) { IsPlain(c) || IsShort(c) || IsHex(c) }

  ghost predicate AreChars(chars: seq<seq<Byte>>) { forall i | 0 <= i < |chars| :: IsChar(chars[i]) }

  // The code point a char names; \u escapes may name surrogates.
  function Point(c: seq<Byte>): (u: nat)
    requires IsChar(c)
    ensures u < 0x110000
    ensures !IsHex(c) ==> Utf8.Scalar(u)
  {
    if IsHex(c) then ((HexValue(c[2]) * 16 + HexValue(c[3])) * 16 + HexValue(c[4])) * 16 + HexValue(c[5])
    else if IsShort(c) then Short(c[1]).value
    else Utf8.EncodingOfNumber(c); Utf8.Number(c)
  }

  predicate High(u: nat) { 0xd800 <= u <= 0xdbff }
  predicate Low(u: nat) { 0xdc00 <= u <= 0xdfff }

  predicate Paired(u: nat, rest: seq<seq<Byte>>)
    requires forall i | 0 <= i < |rest| :: IsChar(rest[i])
  {
    High(u) && rest != [] && Low(Point(rest[0]))
  }

  function Join(high: nat, low: nat): (u: nat)
    requires High(high) && Low(low)
    ensures 0x10000 <= u < 0x110000
  {
    0x10000 + (high - 0xd800) * 1024 + (low - 0xdc00)
  }

  // A code point by itself: a surrogate is replaced.
  function Alone(u: nat): (bytes: seq<Byte>)
    requires u < 0x110000
    ensures Utf8.WellFormed(bytes)
  {
    Utf8.Encode(if High(u) || Low(u) then 0xfffd else u)
  }

  // What a string means: surrogate pairs joined, lone surrogates replaced, in UTF-8.
  function Meaning(chars: seq<seq<Byte>>): seq<Byte>
    requires forall i | 0 <= i < |chars| :: IsChar(chars[i])
  {
    if chars == [] then []
    else
      var u, rest := Point(chars[0]), chars[1..];
      if Paired(u, rest) then Utf8.Encode(Join(u, Point(rest[0]))) + Meaning(rest[1..])
      else Alone(u) + Meaning(rest)
  }

  // ---------------------------------------------------------------------------
  // The decoder as a function
  // ---------------------------------------------------------------------------

  datatype Piece = Piece(next: nat, bytes: seq<Byte>)

  function Hex4(s: seq<Byte>, p: nat): (v: Option<nat>)
    requires p <= |s|
    ensures v.Some? ==> p + 4 <= |s| && v.value < 0x10000
  {
    if |s| - p < 4 || !HexDigit(s[p]) || !HexDigit(s[p + 1]) || !HexDigit(s[p + 2]) || !HexDigit(s[p + 3]) then None
    else Some(((HexValue(s[p]) * 16 + HexValue(s[p + 1])) * 16 + HexValue(s[p + 2])) * 16 + HexValue(s[p + 3]))
  }

  // jp_unit after "\u": a pair takes ten bytes, a lone surrogate becomes U+FFFD.
  function HexUnit(s: seq<Byte>, p: nat): (piece: Option<Piece>)
    requires p <= |s|
    ensures piece.Some? ==> p < piece.value.next <= |s|
  {
    match Hex4(s, p)
    case None => None
    case Some(u) =>
      if High(u) && |s| - (p + 4) >= 6 && s[p + 4] == BACKSLASH && s[p + 5] == 0x75 then
        match Hex4(s, p + 6)
        case None => None
        case Some(v) =>
          if Low(v) then Some(Piece(p + 10, Utf8.Encode(Join(u, v)))) else Some(Piece(p + 4, Alone(u)))
      else Some(Piece(p + 4, Alone(u)))
  }

  function UnitAt(s: seq<Byte>, p: nat): (piece: Option<Piece>)
    requires p < |s|
    ensures piece.Some? ==> p < piece.value.next <= |s|
  {
    var c := s[p];
    if c < 0x20 then None
    else if c >= 0x80 then
      var n := Utf8.Prefix(s[p..]);
      if n == 0 then None else Some(Piece(p + n, s[p..p + n]))
    else if c != BACKSLASH then Some(Piece(p + 1, [c]))
    else if p + 1 == |s| then None
    else if Short(s[p + 1]).Some? then Some(Piece(p + 2, [Short(s[p + 1]).value]))
    else if s[p + 1] == 0x75 then HexUnit(s, p + 2)
    else None
  }

  // From after the opening quote to after the closing one.
  function Body(s: seq<Byte>, p: nat): (piece: Option<Piece>)
    requires p <= |s|
    ensures piece.Some? ==> p < piece.value.next <= |s| && s[piece.value.next - 1] == QUOTE
    decreases |s| - p
  {
    if p == |s| then None
    else if s[p] == QUOTE then Some(Piece(p + 1, []))
    else match UnitAt(s, p)
      case None => None
      case Some(unit) =>
        match Body(s, unit.next)
        case None => None
        case Some(rest) => Some(Piece(rest.next, unit.bytes + rest.bytes))
  }

  // ---------------------------------------------------------------------------
  // The decoder reads exactly the strings of RFC 8259
  // ---------------------------------------------------------------------------

  // chars spell s[p..q-1], and the quote follows.
  ghost predicate Spells(chars: seq<seq<Byte>>, s: seq<Byte>, p: nat, q: nat) {
    AreChars(chars) && At(s, p, Flat(chars) + [QUOTE]) && q == p + |Flat(chars)| + 1
  }

  lemma {:induction false} SpellsCons(chars: seq<seq<Byte>>, s: seq<Byte>, p: nat, q: nat)
    requires chars != []
    ensures Spells(chars, s, p, q)
       <==> IsChar(chars[0]) && At(s, p, chars[0]) && Spells(chars[1..], s, p + |chars[0]|, q)
  {
    assert Flat(chars) + [QUOTE] == chars[0] + (Flat(chars[1..]) + [QUOTE]);
    AtSplit(s, p, chars[0], Flat(chars[1..]) + [QUOTE]);
    assert AreChars(chars) <==> IsChar(chars[0]) && AreChars(chars[1..]) by {
      assert chars == [chars[0]] + chars[1..];
    }
  }

  lemma {:induction false} PlainUnit(s: seq<Byte>, p: nat, c: seq<Byte>)
    requires IsChar(c) && !IsHex(c) && At(s, p, c)
    ensures UnitAt(s, p) == Some(Piece(p + |c|, Alone(Point(c)))) && s[p] != QUOTE
  {
    assert s[p] == c[0];
    if IsPlain(c) {
      AtSlice(s, p, c);
      Utf8.PrefixUnique(c, s[p + |c|..]);
      Utf8.EncodingOfNumber(c);
      assert s[p..p + |c|] == c;
    } else {
      assert s[p + 1] == c[1];
    }
  }

  lemma {:induction false} HexAt(s: seq<Byte>, p: nat, c: seq<Byte>)
    requires IsHex(c) && At(s, p, c)
    ensures s[p] == BACKSLASH && s[p + 1] == 0x75 && Hex4(s, p + 2) == Some(Point(c))
    ensures UnitAt(s, p) == HexUnit(s, p + 2)
  {
    assert s[p] == c[0] && s[p + 1] == c[1];
    assert s[p + 2] == c[2] && s[p + 3] == c[3] && s[p + 4] == c[4] && s[p + 5] == c[5];
  }

  // A \u escape of a high surrogate joins with the next char, or stands alone.
  lemma {:induction false} HexUnitAt(s: seq<Byte>, p: nat, q: nat, c: seq<Byte>, rest: seq<seq<Byte>>)
    requires IsHex(c) && At(s, p, c) && Spells(rest, s, p + 6, q)
    ensures s[p] != QUOTE
    ensures UnitAt(s, p) == Some(if Paired(Point(c), rest)
                                 then Piece(p + 12, Utf8.Encode(Join(Point(c), Point(rest[0]))))
                                 else Piece(p + 6, Alone(Point(c))))
  {
    HexAt(s, p, c);
    AfterHigh(s, p + 6, q, rest);
    if rest != [] && IsHex(rest[0]) {
      SpellsCons(rest, s, p + 6, q);
      HexAt(s, p + 6, rest[0]);
    }
  }

  // A char after a \u escape that begins like one is one.
  lemma {:induction false} AfterHigh(s: seq<Byte>, p: nat, q: nat, chars: seq<seq<Byte>>)
    requires Spells(chars, s, p, q)
    ensures p < |s|
    ensures |s| - p >= 6 && s[p] == BACKSLASH && s[p + 1] == 0x75 ==>
            chars != [] && IsHex(chars[0]) && At(s, p, chars[0])
  {
    if chars == [] {
      assert s[p] == (Flat(chars) + [QUOTE])[0];
    } else {
      SpellsCons(chars, s, p, q);
      assert s[p] == chars[0][0];
      if s[p] == BACKSLASH {
        assert s[p + 1] == chars[0][1];
      }
    }
  }

  lemma {:induction false} BodyStep(s: seq<Byte>, p: nat, unit: Piece, rest: Piece)
    requires p < |s| && s[p] != QUOTE && UnitAt(s, p) == Some(unit) && Body(s, unit.next) == Some(rest)
    ensures Body(s, p) == Some(Piece(rest.next, unit.bytes + rest.bytes))
  {}

  lemma {:induction false} BodyComplete(s: seq<Byte>, p: nat, q: nat, chars: seq<seq<Byte>>)
    requires p <= |s| && Spells(chars, s, p, q)
    ensures Body(s, p) == Some(Piece(q, Meaning(chars)))
    decreases |chars|
  {
    if chars == [] {
      assert s[p] == (Flat(chars) + [QUOTE])[0];
    } else {
      hide UnitAt, Body;
      SpellsCons(chars, s, p, q);
      var c, rest := chars[0], chars[1..];
      var p1 := p + |c|;
      if !IsHex(c) {
        PlainUnit(s, p, c);
      } else {
        HexUnitAt(s, p, q, c, rest);
      }
      if Paired(Point(c), rest) {
        SpellsCons(rest, s, p1, q);
        PairedIsHex(c, rest[0]);
        BodyComplete(s, p1 + 6, q, rest[1..]);
        BodyStep(s, p, UnitAt(s, p).value, Piece(q, Meaning(rest[1..])));
      } else {
        BodyComplete(s, p1, q, rest);
        BodyStep(s, p, UnitAt(s, p).value, Piece(q, Meaning(rest)));
      }
    }
  }

  lemma {:induction false} PairedIsHex(c: seq<Byte>, d: seq<Byte>)
    requires IsChar(c) && IsChar(d) && High(Point(c)) && Low(Point(d))
    ensures IsHex(c) && IsHex(d) && |c| == |d| == 6
  {}

  lemma {:induction false} BodySound(s: seq<Byte>, p: nat) returns (chars: seq<seq<Byte>>)
    requires p <= |s| && Body(s, p).Some?
    ensures Spells(chars, s, p, Body(s, p).value.next)
    ensures AreChars(chars) && Meaning(chars) == Body(s, p).value.bytes
    decreases |s| - p
  {
    var q := Body(s, p).value.next;
    if s[p] == QUOTE {
      chars := [];
    } else {
      var unit := UnitAt(s, p).value;
      hide UnitAt, Body, Meaning, Spells, At;
      var rest := BodySound(s, unit.next);
      var head := UnitSound(s, p);
      chars := head + rest;
      SpellsUnit(s, p, q, unit.next, head, rest);
    }
    BodyComplete(s, p, q, chars);
  }

  lemma {:induction false} SpellsUnit(s: seq<Byte>, p: nat, q: nat, next: nat, head: seq<seq<Byte>>,
                                      rest: seq<seq<Byte>>)
    requires 1 <= |head| <= 2 && AreChars(head) && At(s, p, head[0]) && Spells(rest, s, next, q)
    requires |head| == 1 ==> next == p + |head[0]|
    requires |head| == 2 ==> |head[0]| == 6 && At(s, p + 6, head[1]) && next == p + 6 + |head[1]|
    ensures Spells(head + rest, s, p, q) && AreChars(head + rest)
  {
    var chars := head + rest;
    if |head| == 1 {
      assert chars[1..] == rest && chars[0] == head[0];
    } else {
      assert chars[1..] == [head[1]] + rest && chars[1..][1..] == rest && chars[0] == head[0];
      SpellsCons(chars[1..], s, p + 6, q);
    }
    SpellsCons(chars, s, p, q);
  }

  lemma {:induction false} UnitSound(s: seq<Byte>, p: nat) returns (head: seq<seq<Byte>>)
    requires p < |s| && s[p] != QUOTE && UnitAt(s, p).Some?
    ensures 1 <= |head| <= 2 && AreChars(head) && At(s, p, head[0])
    ensures |head| == 1 ==> UnitAt(s, p).value.next == p + |head[0]|
    ensures |head| == 2 ==> |head[0]| == 6 && At(s, p + 6, head[1]) && UnitAt(s, p).value.next == p + 6 + |head[1]|
  {
    var q := UnitAt(s, p).value.next;
    if s[p] == BACKSLASH && s[p + 1] == 0x75 && q == p + 12 {
      head := [s[p..p + 6], s[p + 6..q]];
    } else {
      head := [s[p..q]];
      if s[p] >= 0x80 {
        assert s[p..][..q - p] == s[p..q];
      }
    }
  }

  // jp_string_buf accepts a text exactly when it is a string of RFC 8259, up to its own closing
  // quote, and decodes it to what it means.
  lemma {:induction false} DecoderIsRfc8259(s: seq<Byte>, p: nat, q: nat, bytes: seq<Byte>)
    requires p <= |s|
    ensures Body(s, p) == Some(Piece(q, bytes))
       <==> exists chars :: Spells(chars, s, p, q) && bytes == Meaning(chars)
  {
    if Body(s, p) == Some(Piece(q, bytes)) {
      var chars := BodySound(s, p);
    }
    if chars :| Spells(chars, s, p, q) && bytes == Meaning(chars) {
      BodyComplete(s, p, q, chars);
    }
  }

  lemma {:induction false} UnitIsUtf8(s: seq<Byte>, p: nat)
    requires p < |s| && UnitAt(s, p).Some?
    ensures Utf8.WellFormed(UnitAt(s, p).value.bytes)
  {
    if s[p] >= 0x80 {
      var n := Utf8.Prefix(s[p..]);
      assert s[p..][..n] == s[p..p + n];
    }
  }

  // Whatever was decoded is UTF-8.
  lemma {:induction false} DecodedIsUtf8(s: seq<Byte>, p: nat)
    requires p <= |s| && Body(s, p).Some?
    ensures Utf8.Valid(Body(s, p).value.bytes)
    decreases |s| - p
  {
    if s[p] == QUOTE {
      Utf8.ValidEmpty();
    } else {
      var unit := UnitAt(s, p).value;
      UnitIsUtf8(s, p);
      DecodedIsUtf8(s, unit.next);
      Utf8.ValidCons(unit.bytes, Body(s, unit.next).value.bytes);
    }
  }

  // ---------------------------------------------------------------------------
  // jp_string's prescan
  // ---------------------------------------------------------------------------

  // The first quote no backslash precedes, or the end.
  function Scan(s: seq<Byte>, p: nat): (q: nat)
    requires p <= |s|
    ensures p <= q <= |s|
    decreases |s| - p
  {
    if p == |s| || s[p] == QUOTE then p
    else if s[p] != BACKSLASH then Scan(s, p + 1)
    else if p + 1 == |s| then |s|
    else Scan(s, p + 2)
  }

  lemma {:induction false} ScanOver(s: seq<Byte>, p: nat, q: nat)
    requires p <= q <= |s| && forall i | p <= i < q :: s[i] != QUOTE && s[i] != BACKSLASH
    ensures Scan(s, p) == Scan(s, q)
    decreases q - p
  {
    if p < q {
      ScanOver(s, p + 1, q);
    }
  }

  // The scan steps over every unit, and no unit decodes to more bytes than it takes.
  lemma {:induction false} ScanUnit(s: seq<Byte>, p: nat)
    requires p < |s| && s[p] != QUOTE && UnitAt(s, p).Some?
    ensures Scan(s, p) == Scan(s, UnitAt(s, p).value.next)
    ensures |UnitAt(s, p).value.bytes| <= UnitAt(s, p).value.next - p
  {
    hide Scan, HexUnit;
    ScanStart(s, p);
    var q := UnitAt(s, p).value.next;
    if s[p] >= 0x80 {
      ScanCharacter(s, p, q);
    } else if s[p] == BACKSLASH && s[p + 1] == 0x75 {
      ScanHex(s, p + 2);
    }
  }

  lemma {:induction false} ScanStart(s: seq<Byte>, p: nat)
    requires p < |s| && s[p] != QUOTE
    ensures s[p] != BACKSLASH ==> Scan(s, p) == Scan(s, p + 1)
    ensures s[p] == BACKSLASH && p + 1 < |s| ==> Scan(s, p) == Scan(s, p + 2)
  {}

  lemma {:induction false} ScanCharacter(s: seq<Byte>, p: nat, q: nat)
    requires p < q <= |s| && s[p] >= 0x80 && Utf8.WellFormed(s[p..][..q - p])
    ensures Scan(s, p) == Scan(s, q)
  {
    forall i | p <= i < q ensures s[i] != QUOTE && s[i] != BACKSLASH {
      assert s[i] == s[p..][..q - p][i - p];
    }
    ScanOver(s, p, q);
  }

  lemma {:induction false} ScanHex(s: seq<Byte>, p: nat)
    requires p <= |s| && HexUnit(s, p).Some?
    ensures Scan(s, p) == Scan(s, HexUnit(s, p).value.next)
    ensures |HexUnit(s, p).value.bytes| <= HexUnit(s, p).value.next - p
  {
    ScanOver(s, p, p + 4);
    if HexUnit(s, p).value.next == p + 10 {
      ScanOver(s, p + 6, p + 10);
      assert Scan(s, p + 4) == Scan(s, p + 6);
    }
  }

  // Where the decoder finds a closing quote the prescan finds the same one, and the decoded bytes
  // fit the space between.
  lemma {:induction false} ScanFindsTheQuote(s: seq<Byte>, p: nat)
    requires p <= |s| && Body(s, p).Some?
    ensures Scan(s, p) == Body(s, p).value.next - 1
    ensures |Body(s, p).value.bytes| <= Scan(s, p) - p
    decreases |s| - p
  {
    if s[p] != QUOTE {
      ScanUnit(s, p);
      ScanFindsTheQuote(s, UnitAt(s, p).value.next);
    }
  }

  // ---------------------------------------------------------------------------
  // What jw_string writes
  // ---------------------------------------------------------------------------

  function Nibble(v: nat): (c: Byte)
    requires v < 16
    ensures HexDigit(c) && HexValue(c) == v
  {
    if v < 10 then 0x30 + v else 0x61 + v - 10
  }

  function Escape(c: Byte): (e: seq<Byte>)
    requires c < 0x80
    ensures 1 <= |e| <= 6
    ensures IsChar(e) && Point(e) == c
  {
    if c == QUOTE || c == BACKSLASH then [BACKSLASH, c]
    else if c >= 0x20 then [c]
    else if c == 0x0a then [BACKSLASH, 0x6e]
    else if c == 0x0d then [BACKSLASH, 0x72]
    else if c == 0x09 then [BACKSLASH, 0x74]
    else if c == 0x08 then [BACKSLASH, 0x62]
    else if c == 0x0c then [BACKSLASH, 0x66]
    else [BACKSLASH, 0x75, 0x30, 0x30, Nibble(c / 16), Nibble(c % 16)]
  }

  // What the first character of x, or its ill-formed prefix, is written as, and its length.
  function Item(x: seq<Byte>): (r: (seq<Byte>, nat))
    requires x != []
    ensures 1 <= r.1 <= |x| && |r.0| <= 6 * r.1
  {
    if x[0] < 0x80 then (Escape(x[0]), 1)
    else
      var n := Utf8.Prefix(x);
      if n > 0 then (x[..n], n) else (Utf8.REPLACEMENT, Utf8.Ill(x))
  }

  function Written(x: seq<Byte>): (w: seq<Byte>)
    ensures |w| <= 6 * |x|
  {
    if x == [] then [] else Item(x).0 + Written(x[Item(x).1..])
  }

  function Write(x: seq<Byte>): (w: seq<Byte>)
    ensures |w| <= 6 * |x| + 2
  {
    [QUOTE] + Written(x) + [QUOTE]
  }

  lemma {:induction false} ItemIsChar(x: seq<Byte>)
    requires x != []
    ensures IsChar(Item(x).0)
    ensures Utf8.Sanitize(x) == Alone(Point(Item(x).0)) + Utf8.Sanitize(x[Item(x).1..])
    ensures !High(Point(Item(x).0))
  {
    var n := Utf8.Prefix(x);
    if x[0] < 0x80 {
      AsciiFirst(x);
    } else if n > 0 {
      PlainChar(x[..n]);
    } else {
      PlainChar(Utf8.REPLACEMENT);
    }
  }

  lemma {:induction false} PlainChar(c: seq<Byte>)
    requires Utf8.WellFormed(c) && c[0] >= 0x80
    ensures IsChar(c) && Alone(Point(c)) == c && !High(Point(c))
  {
    assert IsPlain(c) && !IsHex(c);
    Utf8.EncodingOfNumber(c);
  }

  lemma {:induction false} AsciiFirst(x: seq<Byte>)
    requires x != [] && x[0] < 0x80
    ensures Utf8.Prefix(x) == 1
    ensures Utf8.Sanitize(x) == Alone(Point(Escape(x[0]))) + Utf8.Sanitize(x[1..])
  {
    assert x[..1] == [x[0]];
    assert Utf8.WellFormed(x[..1]);
  }

  // The chars jw_string writes for x.
  ghost function Chars(x: seq<Byte>): seq<seq<Byte>> {
    if x == [] then [] else [Item(x).0] + Chars(x[Item(x).1..])
  }

  lemma {:induction false} CharsMean(x: seq<Byte>)
    ensures AreChars(Chars(x)) && Flat(Chars(x)) == Written(x) && Meaning(Chars(x)) == Utf8.Sanitize(x)
  {
    if x != [] {
      var rest := Chars(x[Item(x).1..]);
      CharsMean(x[Item(x).1..]);
      ItemIsChar(x);
      assert Chars(x)[1..] == rest;
    }
  }

  // Reading back what jw_string wrote, anywhere in a text, gives the input repaired: each
  // ill-formed prefix replaced by U+FFFD, and the input itself when it is UTF-8.
  lemma {:induction false} WriteReadsBack(s: seq<Byte>, p: nat, x: seq<Byte>)
    requires At(s, p, Write(x))
    ensures Body(s, p + 1) == Some(Piece(p + |Write(x)|, Utf8.Sanitize(x)))
    ensures Utf8.Valid(x) ==> Body(s, p + 1) == Some(Piece(p + |Write(x)|, x))
  {
    hide Body, Written, Chars, Meaning, Flat, Utf8.Sanitize, Utf8.Valid;
    assert Write(x) == [QUOTE] + (Written(x) + [QUOTE]);
    AtSplit(s, p, [QUOTE], Written(x) + [QUOTE]);
    CharsMean(x);
    BodyComplete(s, p + 1, p + |Write(x)|, Chars(x));
    Utf8.SanitizeIsIdentityIffValid(x);
  }

  // ---------------------------------------------------------------------------
  // Which character an escape names
  // ---------------------------------------------------------------------------

  // Hexadecimal digits in either case.
  function HexSpelt(v: nat, upper: bool): Byte
    requires v < 16
  {
    assert forall c | c in "0123456789ABCDEFabcdef" :: c as int < 128;
    (if upper then "0123456789ABCDEF" else "0123456789abcdef")[v] as int
  }

  // The \u escape of a number.
  function HexEscape(u: nat, upper: bool): (e: seq<Byte>)
    requires u < 0x10000
    ensures |e| == 6
  {
    [BACKSLASH, 0x75, HexSpelt(u / 4096, upper), HexSpelt(u / 256 % 16, upper), HexSpelt(u / 16 % 16, upper),
     HexSpelt(u % 16, upper)]
  }

  lemma {:induction false} HexReads(v: nat, upper: bool)
    requires v < 16
    ensures HexDigit(HexSpelt(v, upper)) && HexValue(HexSpelt(v, upper)) == v
  {}

  lemma {:induction false} FourDigits(u: nat)
    requires u < 0x10000
    ensures u / 4096 < 16 && ((u / 4096 * 16 + u / 256 % 16) * 16 + u / 16 % 16) * 16 + u % 16 == u
  {}

  lemma {:induction false} HexEscapeReads(u: nat, upper: bool)
    requires u < 0x10000
    ensures IsHex(HexEscape(u, upper)) && Point(HexEscape(u, upper)) == u
  {
    FourDigits(u);
    HexReads(u / 4096, upper);
    HexReads(u / 256 % 16, upper);
    HexReads(u / 16 % 16, upper);
    HexReads(u % 16, upper);
    hide HexSpelt, HexValue, HexDigit;
  }

  // Section 2.1 of RFC 2781: the surrogates of a scalar value above 0xffff join to that value.
  lemma {:induction false} JoinIsUtf16(u: nat)
    requires 0x10000 <= u < 0x110000
    ensures var v := u - 0x10000;
            && High(0xd800 + v / 1024) && Low(0xdc00 + v % 1024)
            && Join(0xd800 + v / 1024, 0xdc00 + v % 1024) == u
  {}

  // The two escapes of such a value decode to its encoding.
  lemma {:induction false} PairReads(s: seq<Byte>, p: nat, u: nat, upper: bool)
    requires 0x10000 <= u < 0x110000
    requires var v := u - 0x10000;
             At(s, p, HexEscape(0xd800 + v / 1024, upper) + HexEscape(0xdc00 + v % 1024, upper))
    ensures UnitAt(s, p) == Some(Piece(p + 12, Utf8.Encode(u)))
  {
    hide HexEscape, UnitAt, Point, IsHex, At, Join, Utf8.Encode;
    JoinIsUtf16(u);
    var v := u - 0x10000;
    HexEscapeReads(0xd800 + v / 1024, upper);
    HexEscapeReads(0xdc00 + v % 1024, upper);
    PairedUnit(s, p, HexEscape(0xd800 + v / 1024, upper), HexEscape(0xdc00 + v % 1024, upper));
  }

  lemma {:induction false} PairedUnit(s: seq<Byte>, p: nat, a: seq<Byte>, b: seq<Byte>)
    requires IsHex(a) && IsHex(b) && High(Point(a)) && Low(Point(b)) && At(s, p, a + b)
    ensures UnitAt(s, p) == Some(Piece(p + 12, Utf8.Encode(Join(Point(a), Point(b)))))
  {
    AtSplit(s, p, a, b);
    HexAt(s, p, a);
    HexAt(s, p + 6, b);
    assert |a| == |b| == 6 && p + 12 <= |s|;
    hide UnitAt, Point, IsHex, Hex4, Utf8.Encode, At, Join;
  }

  // The escape of any other number decodes to its encoding, and a surrogate alone to U+FFFD.
  lemma {:induction false} EscapeReads(s: seq<Byte>, p: nat, u: nat, upper: bool)
    requires u < 0x10000 && At(s, p, HexEscape(u, upper))
    requires High(u) ==> p + 6 == |s| || s[p + 6] != BACKSLASH
    ensures UnitAt(s, p)
         == Some(Piece(p + 6, Utf8.Encode(if 0xd800 <= u <= 0xdfff then 0xfffd else u)))
  {
    HexEscapeReads(u, upper);
    HexAt(s, p, HexEscape(u, upper));
    hide HexEscape, Point, IsHex, Hex4, Utf8.Encode;
  }

  // The two-character escapes of section 7 of RFC 8259, and no others.
  lemma {:induction false} ShortReads(s: seq<Byte>, p: nat)
    requires p + 1 < |s| && s[p] == BACKSLASH && s[p + 1] != 0x75
    ensures var names, codes := "\"\\/bfnrt", [0x22, 0x5c, 0x2f, 0x08, 0x0c, 0x0a, 0x0d, 0x09];
            && (forall i | 0 <= i < 8 && s[p + 1] == names[i] as int :: UnitAt(s, p) == Some(Piece(p + 2, [codes[i]])))
            && ((forall i | 0 <= i < 8 :: s[p + 1] != names[i] as int) ==> UnitAt(s, p) == None)
  {
    var names := "\"\\/bfnrt";
    assert names[0] == '"' && names[1] == '\\' && names[2] == '/' && names[3] == 'b';
    assert names[4] == 'f' && names[5] == 'n' && names[6] == 'r' && names[7] == 't';
  }
}
