/** Octets, keys and the lexicographic order of ngx_memcmp and ngx_memn2cmp. */
module Bytes {

  type Byte = b: int | 0 <= b < 256

  datatype Option<+T> = None | Some(value: T)

  // NGX_MAX_INT_T_VALUE
  const MAX_INT := 0x7fff_ffff_ffff_ffff

  ghost function Flat(parts: seq<seq<Byte>>): seq<Byte> {
    if parts == [] then [] else parts[0] + Flat(parts[1..])
  }

  // ASCII text as octets.
  function Spelt(text: string): (t: seq<Byte>)
    requires forall i | 0 <= i < |text| :: text[i] as int < 128
    ensures |t| == |text|
  {
    seq(|text|, i requires 0 <= i < |text| => text[i] as int)
  }

  predicate Digit(c: Byte) { 0x30 <= c <= 0x39 }

  predicate Digits(t: seq<Byte>) { forall i | 0 <= i < |t| :: Digit(t[i]) }

  function Decimal(t: seq<Byte>): nat
    requires Digits(t)
  {
    if t == [] then 0 else assert Digit(t[|t| - 1]); 10 * Decimal(t[..|t| - 1]) + (t[|t| - 1] as int - 0x30)
  }

  // A number as it is written.
  function Shown(n: nat): (t: seq<Byte>)
    ensures t != []
  {
    (if n < 10 then [] else Shown(n / 10)) + [0x30 + n % 10]
  }

  lemma {:induction false} ShownReads(n: nat)
    ensures Digits(Shown(n)) && Decimal(Shown(n)) == n
  {
    var front := if n < 10 then [] else Shown(n / 10);
    if n >= 10 {
      ShownReads(n / 10);
    }
    assert Shown(n) == front + [0x30 + n % 10];
    hide Shown;
    DecimalSnoc(front, 0x30 + n % 10);
  }

  lemma {:induction false} DecimalSnoc(t: seq<Byte>, c: Byte)
    requires Digits(t) && Digit(c)
    ensures Digits(t + [c]) && Decimal(t + [c]) == 10 * Decimal(t) + (c as int - 0x30)
  {
    assert (t + [c])[..|t|] == t;
  }

  // A number of at most so many digits.
  lemma {:induction false} ShownShort(n: nat, bound: nat, digits: nat)
    requires n < bound && bound <= Power10(digits) && digits > 0
    ensures |Shown(n)| <= digits
  {
    if n >= 10 {
      ShownShort(n / 10, Power10(digits - 1), digits - 1);
    }
  }

  function Power10(k: nat): (p: nat)
    ensures p > 0
  {
    if k == 0 then 1 else 10 * Power10(k - 1)
  }

  lemma {:induction false} IntShown(n: nat)
    requires n <= MAX_INT
    ensures |Shown(n)| <= 19
  {
    assert Power10(10) == 10000000000;
    assert Power10(19) == 10000000000000000000;
    ShownShort(n, MAX_INT + 1, 19);
  }

  const LF: Byte := 0x0a

  // The first line feed, or the length.
  method FindLf(t: seq<Byte>) returns (i: nat)
    ensures i <= |t| && LF !in t[..i]
    ensures i < |t| ==> t[i] == LF
    ensures i == |t| ==> LF !in t
  {
    i := 0;
    while i < |t| && t[i] != LF
      invariant i <= |t| && LF !in t[..i]
    {
      assert t[..i + 1] == t[..i] + [t[i]];
      i := i + 1;
    }
    if i == |t| {
      assert t[..i] == t;
    }
  }

  // ---------------------------------------------------------------------------
  // Machines that take one byte at a time
  // ---------------------------------------------------------------------------

  function Feed<S>(step: (S, Byte) -> S, s: S, bytes: seq<Byte>): S
    decreases |bytes|
  {
    if bytes == [] then s else Feed(step, step(s, bytes[0]), bytes[1..])
  }

  lemma {:induction false} FeedConcat<S>(step: (S, Byte) -> S, s: S, a: seq<Byte>, b: seq<Byte>)
    ensures Feed(step, s, a + b) == Feed(step, Feed(step, s, a), b)
    decreases |a|
  {
    if a == [] {
      assert a + b == b;
    } else {
      FeedConcat(step, step(s, a[0]), a[1..], b);
      assert (a + b)[1..] == a[1..] + b && (a + b)[0] == a[0];
    }
  }

  lemma {:induction false} FeedSplit<S>(step: (S, Byte) -> S, s: S, t: seq<Byte>, n: nat)
    requires n <= |t|
    ensures Feed(step, s, t) == Feed(step, Feed(step, s, t[..n]), t[n..])
  {
    assert t == t[..n] + t[n..];
    FeedConcat(step, s, t[..n], t[n..]);
  }

  lemma {:induction false} FeedOn<S>(step: (S, Byte) -> S, s: S, t: seq<Byte>, p: nat, q: nat)
    requires p <= q <= |t|
    ensures Feed(step, s, t[p..]) == Feed(step, Feed(step, s, t[p..q]), t[q..])
  {
    FeedConcat(step, s, t[p..q], t[q..]);
    hide Feed;
    assert t[p..] == t[p..q] + t[q..];
  }

  lemma {:induction false} FeedArrival<S>(step: (S, Byte) -> S, s: S, arrivals: seq<seq<Byte>>, i: nat)
    requires i < |arrivals|
    ensures Feed(step, s, Flat(arrivals[i..])) == Feed(step, Feed(step, s, arrivals[i]), Flat(arrivals[i + 1..]))
  {
    FeedConcat(step, s, arrivals[i], Flat(arrivals[i + 1..]));
    hide Feed;
    assert arrivals[i..][1..] == arrivals[i + 1..] && arrivals[i..][0] == arrivals[i];
  }

  lemma {:induction false} FeedStays<S>(step: (S, Byte) -> S, s: S, t: seq<Byte>)
    requires forall b :: step(s, b) == s
    ensures Feed(step, s, t) == s
    decreases |t|
  {
    if t != [] {
      FeedStays(step, s, t[1..]);
    }
  }

  // ---------------------------------------------------------------------------
  // Sizes of sets
  // ---------------------------------------------------------------------------

  lemma {:induction false} SubsetSize<T>(a: set<T>, b: set<T>)
    requires a <= b
    ensures |a| <= |b|
  {
    assert b == a + (b - a);
  }

  lemma {:induction false} Without<T>(a: set<T>, x: T)
    ensures |a| == |a - {x}| + if x in a then 1 else 0
  {
    if x in a {
      assert a == (a - {x}) + {x};
    } else {
      assert a == a - {x};
    }
  }

  // ---------------------------------------------------------------------------
  // Order
  // ---------------------------------------------------------------------------

  // The sign ngx_memn2cmp returns: the first difference decides, a proper prefix is smaller.
  function Compare(a: seq<Byte>, b: seq<Byte>): (sign: int)
    ensures -1 <= sign <= 1
  {
    if a == [] && b == [] then 0
    else if a == [] then -1
    else if b == [] then 1
    else if a[0] < b[0] then -1
    else if a[0] > b[0] then 1
    else Compare(a[1..], b[1..])
  }

  lemma {:induction false} CompareEqual(a: seq<Byte>, b: seq<Byte>)
    ensures Compare(a, b) == 0 <==> a == b
  {
    if a != [] && b != [] {
      CompareEqual(a[1..], b[1..]);
      assert a == [a[0]] + a[1..] && b == [b[0]] + b[1..];
    }
  }

  lemma {:induction false} CompareFlip(a: seq<Byte>, b: seq<Byte>)
    ensures Compare(a, b) == -Compare(b, a)
  {
    if a != [] && b != [] {
      CompareFlip(a[1..], b[1..]);
    }
  }

  lemma {:induction false} CompareTransitive(a: seq<Byte>, b: seq<Byte>, c: seq<Byte>)
    requires Compare(a, b) <= 0 && Compare(b, c) <= 0
    ensures Compare(a, c) <= 0
    ensures Compare(a, b) < 0 || Compare(b, c) < 0 ==> Compare(a, c) < 0
  {
    if a != [] && b != [] && c != [] && a[0] == b[0] == c[0] {
      CompareTransitive(a[1..], b[1..], c[1..]);
    }
  }
}
