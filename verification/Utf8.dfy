/** UTF-8 as the JSON codec sees it: utf8_encode and utf8_valid of
    module/src/codec/ngx_http_waf_json.c, against the table of section 4 of RFC 3629.
 */
module Utf8 {
  import opened Bytes

  // ---------------------------------------------------------------------------
  // Section 4 of RFC 3629
  // ---------------------------------------------------------------------------

  predicate Tail(b: Byte) { 0x80 <= b <= 0xbf }

  // Which second octet may follow a first one.
  predicate Second(a: Byte, b: Byte) {
    || (0xc2 <= a <= 0xdf && Tail(b))
    || (a == 0xe0 && 0xa0 <= b <= 0xbf)
    || (0xe1 <= a <= 0xec && Tail(b))
    || (a == 0xed && 0x80 <= b <= 0x9f)
    || (0xee <= a <= 0xef && Tail(b))
    || (a == 0xf0 && 0x90 <= b <= 0xbf)
    || (0xf1 <= a <= 0xf3 && Tail(b))
    || (a == 0xf4 && 0x80 <= b <= 0x8f)
  }

  // UTF8-char: the encoding of one character.
  predicate WellFormed(u: seq<Byte>) {
    || (|u| == 1 && u[0] <= 0x7f)
    || (|u| == 2 && u[0] <= 0xdf && Second(u[0], u[1]))
    || (|u| == 3 && 0xe0 <= u[0] <= 0xef && Second(u[0], u[1]) && Tail(u[2]))
    || (|u| == 4 && 0xf0 <= u[0] && Second(u[0], u[1]) && Tail(u[2]) && Tail(u[3]))
  }

  // UTF8-octets: any sequence of characters.
  ghost predicate Valid(s: seq<Byte>) {
    exists chars: seq<seq<Byte>> :: (forall i | 0 <= i < |chars| :: WellFormed(chars[i])) && s == Flat(chars)
  }

  // What some character begins with, but is not itself one.
  predicate Partial(u: seq<Byte>) {
    || (|u| == 1 && 0xc2 <= u[0] <= 0xf4)
    || (|u| == 2 && 0xe0 <= u[0] && Second(u[0], u[1]))
    || (|u| == 3 && 0xf0 <= u[0] && Second(u[0], u[1]) && Tail(u[2]))
  }

  lemma {:induction false} PartialMeansPrefix(u: seq<Byte>)
    requires u != []
    ensures Partial(u) <==> exists w: seq<Byte> :: w != [] && WellFormed(u + w)
  {
    if Partial(u) {
      Completed(u);
    }
    if w: seq<Byte> :| w != [] && WellFormed(u + w) {
      BeginsCharacter(u, w);
    }
  }

  lemma {:induction false} BeginsCharacter(u: seq<Byte>, w: seq<Byte>)
    requires u != [] && w != [] && WellFormed(u + w)
    ensures Partial(u)
  {
    var s := u + w;
    assert s[0] == u[0] && (|u| > 1 ==> s[1] == u[1]) && (|u| > 2 ==> s[2] == u[2]);
  }

  lemma {:induction false} Completed(u: seq<Byte>)
    requires Partial(u)
    ensures exists w: seq<Byte> :: w != [] && WellFormed(u + w)
  {
    var second: Byte := if u[0] == 0xe0 then 0xa0 else if u[0] == 0xf0 then 0x90 else 0x80;
    var w: seq<Byte> :=
      if |u| == 1 then
        if u[0] < 0xe0 then [second] else if u[0] < 0xf0 then [second, 0x80] else [second, 0x80, 0x80]
      else if |u| == 2 && 0xf0 <= u[0] then [0x80, 0x80]
      else [0x80];
    var s := u + w;
    assert s[0] == u[0] && (|u| > 1 ==> s[1] == u[1]) && (|u| > 2 ==> s[2] == u[2]);
    assert WellFormed(s);
  }

  // Length of the character s begins with, 0 if it begins with none.
  function Prefix(s: seq<Byte>): (n: nat)
    ensures n <= 4 && n <= |s|
    ensures n > 0 ==> WellFormed(s[..n])
  {
    if |s| >= 1 && WellFormed(s[..1]) then 1
    else if |s| >= 2 && WellFormed(s[..2]) then 2
    else if |s| >= 3 && WellFormed(s[..3]) then 3
    else if |s| >= 4 && WellFormed(s[..4]) then 4
    else 0
  }

  // The ill-formed prefix one U+FFFD stands for: the longest that began some character.
  function Ill(s: seq<Byte>): (n: nat)
    requires s != []
    ensures 1 <= n <= |s|
    ensures n == 1 || Partial(s[..n])
    ensures Prefix(s) == 0 ==> forall k | n < k <= |s| :: !Partial(s[..k])
  {
    if |s| >= 3 && Partial(s[..3]) then 3
    else if |s| >= 2 && Partial(s[..2]) then 2
    else 1
  }

  // No character begins with another: the first one of a string is settled by the string.
  lemma {:induction false} PrefixUnique(u: seq<Byte>, rest: seq<Byte>)
    requires WellFormed(u)
    ensures Prefix(u + rest) == |u|
    ensures forall k | 0 < k <= |u + rest| && WellFormed((u + rest)[..k]) :: k == |u|
  {
    var s := u + rest;
    assert s[..|u|] == u;
    forall k | 0 < k <= |s| && WellFormed(s[..k]) ensures k == |u| {
      assert s[..k][0] == u[0];
    }
  }

  // ngx_http_waf_utf8_valid
  method Check(s: seq<Byte>) returns (n: nat, bad: nat)
    requires s != []
    ensures n == Prefix(s)
    ensures n == 0 ==> bad == Ill(s)
  {
    var c := s[0];
    bad := 0;
    if c < 0x80 {
      return 1, bad;
    }
    var lo, hi, need := 0x80, 0xbf, 0;
    if 0xc2 <= c <= 0xdf {
      need := 1;
    } else if c == 0xe0 {
      need := 2;
      lo := 0xa0;
    } else if 0xe1 <= c <= 0xef {
      need := 2;
      if c == 0xed {
        hi := 0x9f;
      }
    } else if c == 0xf0 {
      need := 3;
      lo := 0x90;
    } else if 0xf1 <= c <= 0xf3 {
      need := 3;
    } else if c == 0xf4 {
      need := 3;
      hi := 0x8f;
    } else {
      return 0, 1;
    }
    assert forall b: Byte :: Second(c, b) <==> lo <= b <= hi;
    var i := 1;
    while i <= need
      invariant 1 <= i <= need + 1 && i <= |s|
      invariant need == if c <= 0xdf then 1 else if c <= 0xef then 2 else 3
      invariant i == 1 ==> forall b: Byte :: Second(c, b) <==> lo <= b <= hi
      invariant i > 1 ==> lo == 0x80 && hi == 0xbf && Second(c, s[1])
      invariant i > 2 ==> Tail(s[2])
      invariant i > 3 ==> Tail(s[3])
    {
      if i == |s| || s[i] < lo || s[i] > hi {
        return 0, i;
      }
      lo, hi := 0x80, 0xbf;
      i := i + 1;
    }
    n := need + 1;
  }

  // ---------------------------------------------------------------------------
  // Characters and their numbers
  // ---------------------------------------------------------------------------

  // A Unicode scalar value: no surrogate.
  predicate Scalar(u: int) { 0 <= u < 0xd800 || 0xdfff < u <= 0x10ffff }

  lemma {:induction false} ThreeRanges(u: int)
    requires 0x800 <= u < 0x10000
    ensures 0 <= u / 4096 < 16 && (u / 4096 == 0 ==> u / 64 % 64 >= 0x20)
    ensures u / 4096 == 13 && u < 0xd800 ==> u / 64 % 64 < 0x20
    ensures u / 4096 == 13 ==> 0xd000 <= u < 0xe000
  {}

  lemma {:induction false} FourRanges(u: int)
    requires 0x10000 <= u < 0x110000
    ensures 0 <= u / 262144 <= 4
    ensures u / 262144 == 0 ==> u / 4096 % 64 >= 0x10
    ensures u / 262144 == 4 ==> u / 4096 % 64 < 0x10
  {}

  // ngx_http_waf_utf8_encode
  function Encode(u: int): (r: seq<Byte>)
    requires 0 <= u < 0x110000
    ensures 1 <= |r| <= 4
    ensures Scalar(u) ==> WellFormed(r)
  {
    if u < 0x80 then [u]
    else if u < 0x800 then [0xc0 + u / 64, 0x80 + u % 64]
    else if u < 0x10000 then
      ThreeRanges(u);
      [0xe0 + u / 4096, 0x80 + u / 64 % 64, 0x80 + u % 64]
    else
      FourRanges(u);
      [0xf0 + u / 262144, 0x80 + u / 4096 % 64, 0x80 + u / 64 % 64, 0x80 + u % 64]
  }

  // Section 3 of RFC 3629: the bits of the octets put together.
  function Number(u: seq<Byte>): int
    requires WellFormed(u)
  {
    match |u|
    case 1 => u[0]
    case 2 => 64 * Low(u[0], 0xc0) + Low(u[1], 0x80)
    case 3 => 4096 * Low(u[0], 0xe0) + 64 * Low(u[1], 0x80) + Low(u[2], 0x80)
    case _ => 262144 * Low(u[0], 0xf0) + 4096 * Low(u[1], 0x80) + 64 * Low(u[2], 0x80) + Low(u[3], 0x80)
  }

  function Low(b: int, mark: int): int { b - mark }

  // The well-formed sequences are exactly the encodings of the scalar values, one each.
  lemma {:induction false} NumberOfEncoding(u: int)
    requires Scalar(u)
    ensures Number(Encode(u)) == u
  {
    var w := Encode(u);
    Shifts(u);
    if u >= 0x10000 {
      assert Number(w) == 262144 * (u / 262144) + 4096 * (u / 4096 % 64) + 64 * (u / 64 % 64) + u % 64;
    }
  }

  lemma {:induction false} EncodingOfNumber(w: seq<Byte>)
    requires WellFormed(w)
    ensures Scalar(Number(w)) && Encode(Number(w)) == w
  {
    match |w|
    case 1 =>
    case 2 => Pack(0, 0, w[0] - 0xc0, w[1] - 0x80);
    case 3 => ThreeOctets(w);
    case _ => FourOctets(w);
  }

  lemma {:induction false} ThreeOctets(w: seq<Byte>)
    requires |w| == 3 && WellFormed(w)
    ensures Scalar(Number(w)) && Encode(Number(w)) == w
  {
    var u := 4096 * (w[0] as int - 0xe0) + 64 * (w[1] as int - 0x80) + (w[2] as int - 0x80);
    Pack(0, w[0] - 0xe0, w[1] - 0x80, w[2] - 0x80);
    assert Number(w) == u && 0x800 <= u < 0x10000;
  }

  lemma {:induction false} FourOctets(w: seq<Byte>)
    requires |w| == 4 && WellFormed(w)
    ensures Scalar(Number(w)) && Encode(Number(w)) == w
  {
    var u := 262144 * (w[0] as int - 0xf0) + 4096 * (w[1] as int - 0x80) + 64 * (w[2] as int - 0x80)
      + (w[3] as int - 0x80);
    Pack(w[0] - 0xf0, w[1] - 0x80, w[2] - 0x80, w[3] - 0x80);
    assert Number(w) == u && 0x10000 <= u < 0x110000;
  }

  lemma {:induction false} Shifts(u: nat)
    ensures u / 4096 == u / 64 / 64 && u / 262144 == u / 64 / 64 / 64
    ensures u == 262144 * (u / 262144) + 4096 * (u / 4096 % 64) + 64 * (u / 64 % 64) + u % 64
  {}

  lemma {:induction false} Pack(a: nat, b: nat, c: nat, d: nat)
    requires b < 64 && c < 64 && d < 64
    ensures var u := 262144 * a + 4096 * b + 64 * c + d;
            && u / 262144 == a && u / 4096 == 64 * a + b && u / 64 == 4096 * a + 64 * b + c
            && u / 4096 % 64 == b && u / 64 % 64 == c && u % 64 == d
  {
    var u := 262144 * a + 4096 * b + 64 * c + d;
    var v := 4096 * a + 64 * b + c;
    assert u == 64 * v + d;
    Digit64(v, d);
    Digit64(64 * a + b, c);
    Digit64(a, b);
    Shifts(u);
  }

  lemma {:induction false} Digit64(q: nat, r: nat)
    requires r < 64
    ensures (64 * q + r) / 64 == q && (64 * q + r) % 64 == r
  {}

  // ---------------------------------------------------------------------------
  // Repair
  // ---------------------------------------------------------------------------

  const REPLACEMENT: seq<Byte> := [0xef, 0xbf, 0xbd]

  lemma {:induction false} ReplacementWellFormed()
    ensures WellFormed(REPLACEMENT)
  {}

  // Every ill-formed prefix replaced by U+FFFD.
  function Sanitize(s: seq<Byte>): seq<Byte> {
    if s == [] then []
    else if Prefix(s) > 0 then s[..Prefix(s)] + Sanitize(s[Prefix(s)..])
    else REPLACEMENT + Sanitize(s[Ill(s)..])
  }

  lemma {:induction false} ValidCons(u: seq<Byte>, rest: seq<Byte>)
    requires WellFormed(u) && Valid(rest)
    ensures Valid(u + rest)
  {
    var chars :| (forall i | 0 <= i < |chars| :: WellFormed(chars[i])) && rest == Flat(chars);
    var all := [u] + chars;
    assert all[1..] == chars && all[0] == u;
    assert Flat(all) == u + rest;
  }

  lemma {:induction false} ValidTail(s: seq<Byte>)
    requires Valid(s) && s != []
    ensures Prefix(s) > 0 && Valid(s[Prefix(s)..])
  {
    var chars :| (forall i | 0 <= i < |chars| :: WellFormed(chars[i])) && s == Flat(chars);
    var rest := Flat(chars[1..]);
    assert s == chars[0] + rest;
    PrefixUnique(chars[0], rest);
    assert s[|chars[0]|..] == rest;
    assert forall i | 0 <= i < |chars[1..]| :: WellFormed(chars[1..][i]);
  }

  lemma {:induction false} ValidEmpty()
    ensures Valid([])
  {
    assert Flat([]) == [];
  }

  lemma {:induction false} SanitizeIsValid(s: seq<Byte>)
    ensures Valid(Sanitize(s))
  {
    if s == [] {
      ValidEmpty();
    } else if Prefix(s) > 0 {
      SanitizeIsValid(s[Prefix(s)..]);
      ValidCons(s[..Prefix(s)], Sanitize(s[Prefix(s)..]));
    } else {
      SanitizeIsValid(s[Ill(s)..]);
      ValidCons(REPLACEMENT, Sanitize(s[Ill(s)..]));
    }
  }

  lemma {:induction false} SanitizeKeepsValid(s: seq<Byte>)
    requires Valid(s)
    ensures Sanitize(s) == s
  {
    if s != [] {
      ValidTail(s);
      SanitizeKeepsValid(s[Prefix(s)..]);
    }
  }

  // Repair changes exactly the strings that are not UTF-8, and never twice.
  lemma {:induction false} SanitizeIsIdentityIffValid(s: seq<Byte>)
    ensures Sanitize(s) == s <==> Valid(s)
    ensures Sanitize(Sanitize(s)) == Sanitize(s)
  {
    SanitizeIsValid(s);
    SanitizeKeepsValid(Sanitize(s));
    if Valid(s) {
      SanitizeKeepsValid(s);
    }
  }
}
