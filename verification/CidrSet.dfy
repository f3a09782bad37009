/** The static range index: ngx_http_waf_ds_sort_uniq, build_cidr and lookup_cidr of
    module/src/local/ngx_http_waf_dataset.c.

    The source has the search twice, for 32-bit addresses and for 16-byte ones; here it is written
    once over any ordered key, and both orders are shown to be fit for it.
 */
module CidrSet {
  import opened Bytes

  // The sign of a comparison, as ngx_memcmp gives it.
  type Order<!K> = (K, K) -> int

  ghost predicate Total<K(!new)>(cmp: Order<K>) {
    && (forall a, b :: cmp(a, b) == 0 <==> a == b)
    && (forall a, b :: cmp(a, b) < 0 <==> cmp(b, a) > 0)
    && (forall a, b, c | cmp(a, b) <= 0 && cmp(b, c) <= 0 :: cmp(a, c) <= 0)
  }

  // IPv4 addresses as numbers.
  function Compare4(a: nat, b: nat): int { if a < b then -1 else if a > b then 1 else 0 }

  lemma {:induction false} Total4()
    ensures Total(Compare4)
  {}

  // IPv6 addresses as bytes.
  function Compare6(a: seq<Byte>, b: seq<Byte>): int { Compare(a, b) }

  lemma {:induction false} Total6()
    ensures Total(Compare6)
  {
    forall a: seq<Byte>, b: seq<Byte>
      ensures (Compare6(a, b) == 0 <==> a == b) && (Compare6(a, b) < 0 <==> Compare6(b, a) > 0)
    {
      CompareEqual(a, b);
      CompareFlip(a, b);
    }
    forall a: seq<Byte>, b: seq<Byte>, c: seq<Byte> | Compare6(a, b) <= 0 && Compare6(b, c) <= 0
      ensures Compare6(a, c) <= 0
    {
      CompareTransitive(a, b, c);
    }
  }

  datatype Range<K> = Range(start: K, end: K)

  // cmp_r4 and cmp_r6: by start, the wider range first.
  function CompareRange<K>(cmp: Order<K>, x: Range<K>, y: Range<K>): int {
    if cmp(x.start, y.start) != 0 then cmp(x.start, y.start) else cmp(y.end, x.end)
  }

  ghost predicate Contains<K>(cmp: Order<K>, r: Range<K>, a: K) { cmp(r.start, a) <= 0 && cmp(a, r.end) <= 0 }

  ghost predicate Listed<K(!new)>(cmp: Order<K>, ranges: seq<Range<K>>, a: K) {
    exists i | 0 <= i < |ranges| :: Contains(cmp, ranges[i], a)
  }

  // A range of IPv4 addresses holds the numbers from its first to its last ...
  lemma {:induction false} Contains4(s: nat, e: nat, a: nat)
    ensures Contains(Compare4, Range(s, e), a) <==> s <= a <= e
  {}

  // ... and one of IPv6 addresses those of their octets read as one number, the first the highest.
  lemma {:induction false} Contains6(s: seq<Byte>, e: seq<Byte>, a: seq<Byte>)
    requires |s| == |e| == |a|
    ensures Contains(Compare6, Range(s, e), a) <==> BigEndian(s) <= BigEndian(a) <= BigEndian(e)
  {
    CompareNumbers(s, a);
    CompareNumbers(a, e);
  }

  function Power256(k: nat): (p: nat)
    ensures p > 0
  {
    if k == 0 then 1 else 256 * Power256(k - 1)
  }

  function BigEndian(t: seq<Byte>): nat {
    if t == [] then 0 else t[0] * Power256(|t| - 1) + BigEndian(t[1..])
  }

  lemma {:induction false} BigEndianBound(t: seq<Byte>)
    ensures BigEndian(t) < Power256(|t|)
  {
    if t != [] {
      BigEndianBound(t[1..]);
      Scaled(t[0], 255, Power256(|t| - 1));
    }
  }

  lemma {:induction false} Scaled(a: nat, b: nat, p: nat)
    requires a <= b
    ensures a * p <= b * p
  {}

  lemma {:induction false} CompareNumbers(a: seq<Byte>, b: seq<Byte>)
    requires |a| == |b|
    ensures Compare(a, b) < 0 <==> BigEndian(a) < BigEndian(b)
    ensures Compare(a, b) > 0 <==> BigEndian(a) > BigEndian(b)
  {
    if a != [] {
      var p := Power256(|a| - 1);
      CompareNumbers(a[1..], b[1..]);
      BigEndianBound(a[1..]);
      BigEndianBound(b[1..]);
      HighestDecides(a[0], BigEndian(a[1..]), b[0], BigEndian(b[1..]), p);
    }
  }

  lemma {:induction false} HighestDecides(x: nat, m: nat, y: nat, n: nat, p: nat)
    requires m < p && n < p
    ensures x < y ==> x * p + m < y * p + n
    ensures y < x ==> y * p + n < x * p + m
  {
    if x < y {
      Scaled(x + 1, y, p);
    } else if y < x {
      Scaled(y + 1, x, p);
    }
  }

  // What ngx_qsort leaves: the same elements, in order.
  ghost predicate Sorted<K>(cmp: Order<K>, s: seq<Range<K>>) {
    forall i, j | 0 <= i < j < |s| :: CompareRange(cmp, s[i], s[j]) <= 0
  }

  // ---------------------------------------------------------------------------
  // Removing duplicates in place
  // ---------------------------------------------------------------------------

  ghost function Dedupe<K(!new)>(s: seq<Range<K>>): (r: seq<Range<K>>)
    ensures s != [] ==> r != [] && r[|r| - 1] == s[|s| - 1]
  {
    if |s| <= 1 then s
    else
      var front, n := Dedupe(s[..|s| - 1]), |s| - 1;
      if s[n] == s[n - 1] then front else front + [s[n]]
  }

  lemma {:induction false} DedupeKeeps<K(!new)>(cmp: Order<K>, s: seq<Range<K>>)
    requires Sorted(cmp, s)
    ensures Sorted(cmp, Dedupe(s))
    ensures forall r :: r in Dedupe(s) <==> r in s
  {
    if |s| > 1 {
      var n := |s| - 1;
      DedupeKeeps(cmp, s[..n]);
      assert s == s[..n] + [s[n]];
      var front := Dedupe(s[..n]);
      forall i | 0 <= i < |front| ensures CompareRange(cmp, front[i], s[n]) <= 0 {
        assert front[i] in s[..n];
        var j :| 0 <= j < n && s[..n][j] == front[i];
      }
    }
  }

  // The part of sort_uniq after ngx_qsort; n is the new nelts.
  method Uniq<K(!new)>(cmp: Order<K>, a: array<Range<K>>) returns (n: nat)
    requires Total(cmp)
    modifies a
    ensures n <= a.Length && a[..n] == Dedupe(old(a[..]))
  {
    ghost var s := a[..];
    if a.Length < 2 {
      return a.Length;
    }
    n := 1;
    assert a[..1] == s[..1];
    for i := 1 to a.Length
      invariant 1 <= n <= i && a[..n] == Dedupe(s[..i])
      invariant forall k | i <= k < a.Length :: a[k] == s[k]
    {
      assert s[..i + 1][..i] == s[..i] && a[n - 1] == a[..n][n - 1] == s[i - 1];
      SameRange(cmp, a[n - 1], a[i]);
      if CompareRange(cmp, a[n - 1], a[i]) == 0 {
        continue;
      }
      if n != i {
        a[n] := a[i];
      }
      n := n + 1;
    }
    assert s[..a.Length] == s;
  }

  lemma {:induction false} SameRange<K(!new)>(cmp: Order<K>, x: Range<K>, y: Range<K>)
    requires Total(cmp)
    ensures CompareRange(cmp, x, y) == 0 <==> x == y
  {}

  // ---------------------------------------------------------------------------
  // The index and the search
  // ---------------------------------------------------------------------------

  ghost predicate Reached<K>(ranges: seq<Range<K>>, i: nat, end: K)
    requires i < |ranges|
  {
    exists j | 0 <= j <= i :: ranges[j].end == end
  }

  // covers[i] is the greatest end of the first i + 1 ranges.
  ghost predicate Covers<K(!new)>(cmp: Order<K>, ranges: seq<Range<K>>, covers: seq<K>) {
    && |covers| == |ranges|
    && (forall i, j | 0 <= j <= i < |ranges| :: cmp(ranges[j].end, covers[i]) <= 0)
    && (forall i | 0 <= i < |ranges| :: Reached(ranges, i, covers[i]))
  }

  ghost predicate Indexed<K(!new)>(cmp: Order<K>, ranges: seq<Range<K>>, starts: seq<K>, covers: seq<K>) {
    && |starts| == |ranges| && (forall i | 0 <= i < |ranges| :: starts[i] == ranges[i].start)
    && Covers(cmp, ranges, covers)
  }

  predicate Beyond<K>(cmp: Order<K>, a: K, b: K) { cmp(a, b) > 0 }

  ghost function CoverAt<K(!new)>(cmp: Order<K>, ranges: seq<Range<K>>, i: nat): K
    requires i < |ranges|
  {
    if i == 0 || Beyond(cmp, ranges[i].end, CoverAt(cmp, ranges, i - 1)) then ranges[i].end
    else CoverAt(cmp, ranges, i - 1)
  }

  lemma {:induction false} CoverIsGreatest<K(!new)>(cmp: Order<K>, ranges: seq<Range<K>>, i: nat)
    requires Total(cmp) && i < |ranges|
    ensures forall j | 0 <= j <= i :: cmp(ranges[j].end, CoverAt(cmp, ranges, i)) <= 0
    ensures Reached(ranges, i, CoverAt(cmp, ranges, i))
  {
    assert i == 0 ==> ranges[0].end == CoverAt(cmp, ranges, 0);
    if i > 0 {
      CoverIsGreatest(cmp, ranges, i - 1);
      var j :| 0 <= j <= i - 1 && ranges[j].end == CoverAt(cmp, ranges, i - 1);
      assert CoverAt(cmp, ranges, i) == ranges[i].end || CoverAt(cmp, ranges, i) == ranges[j].end;
    }
  }

  // build_cidr
  method BuildCidr<K(0, !new)>(cmp: Order<K>, ranges: seq<Range<K>>) returns (starts: array<K>, covers: array<K>)
    requires Total(cmp)
    ensures fresh(starts) && fresh(covers) && Indexed(cmp, ranges, starts[..], covers[..])
  {
    hide Total, Covers;
    starts, covers := new K[|ranges|], new K[|ranges|];
    for i := 0 to |ranges|
      invariant forall k | 0 <= k < i :: starts[k] == ranges[k].start && covers[k] == CoverAt(cmp, ranges, k)
    {
      starts[i] := ranges[i].start;
      if i == 0 || Beyond(cmp, ranges[i].end, covers[i - 1]) {
        covers[i] := ranges[i].end;
      } else {
        covers[i] := covers[i - 1];
      }
    }
    CoversBuilt(cmp, ranges, covers[..]);
  }

  lemma {:induction false} CoversBuilt<K(!new)>(cmp: Order<K>, ranges: seq<Range<K>>, covers: seq<K>)
    requires Total(cmp) && |covers| == |ranges|
    requires forall k | 0 <= k < |ranges| :: covers[k] == CoverAt(cmp, ranges, k)
    ensures Covers(cmp, ranges, covers)
  {
    forall i | 0 <= i < |ranges|
      ensures forall j | 0 <= j <= i :: cmp(ranges[j].end, covers[i]) <= 0
      ensures Reached(ranges, i, covers[i])
    {
      CoverIsGreatest(cmp, ranges, i);
    }
  }

  // lookup_cidr
  method LookupCidr<K(!new)>(cmp: Order<K>, starts: array<K>, covers: array<K>, a: K, ghost ranges: seq<Range<K>>)
    returns (hit: bool)
    requires Total(cmp) && Sorted(cmp, ranges) && Indexed(cmp, ranges, starts[..], covers[..])
    ensures hit <==> Listed(cmp, ranges, a)
  {
    if starts.Length == 0 {
      return false;
    }
    var lo, hi := 0, starts.Length;
    while lo < hi
      invariant 0 <= lo <= hi <= starts.Length
      invariant forall k | 0 <= k < lo :: cmp(ranges[k].start, a) <= 0
      invariant forall k | hi <= k < |ranges| :: cmp(ranges[k].start, a) > 0
    {
      var mid := lo + (hi - lo) / 2;
      StartsSorted(cmp, ranges, a, mid);
      if cmp(starts[mid], a) <= 0 {
        lo := mid + 1;
      } else {
        hi := mid;
      }
    }
    if lo == 0 {
      return false;
    }
    hit := cmp(covers[lo - 1], a) >= 0;
    CoverDecides(cmp, ranges, covers[..], a, lo);
  }

  lemma {:induction false} StartsSorted<K(!new)>(cmp: Order<K>, ranges: seq<Range<K>>, a: K, mid: nat)
    requires Total(cmp) && Sorted(cmp, ranges) && mid < |ranges|
    ensures cmp(ranges[mid].start, a) <= 0 ==> forall k | 0 <= k <= mid :: cmp(ranges[k].start, a) <= 0
    ensures cmp(ranges[mid].start, a) > 0 ==> forall k | mid <= k < |ranges| :: cmp(ranges[k].start, a) > 0
  {
    forall k | 0 <= k < mid ensures cmp(ranges[k].start, ranges[mid].start) <= 0 {
      assert CompareRange(cmp, ranges[k], ranges[mid]) <= 0;
    }
    forall k | mid < k < |ranges| ensures cmp(ranges[mid].start, ranges[k].start) <= 0 {
      assert CompareRange(cmp, ranges[mid], ranges[k]) <= 0;
    }
  }

  lemma {:induction false} CoverDecides<K(!new)>(cmp: Order<K>, ranges: seq<Range<K>>, covers: seq<K>, a: K, lo: nat)
    requires Total(cmp) && Covers(cmp, ranges, covers) && 0 < lo <= |ranges|
    requires forall k | 0 <= k < lo :: cmp(ranges[k].start, a) <= 0
    requires forall k | lo <= k < |ranges| :: cmp(ranges[k].start, a) > 0
    ensures cmp(covers[lo - 1], a) >= 0 <==> Listed(cmp, ranges, a)
  {
    assert Reached(ranges, lo - 1, covers[lo - 1]);
    if cmp(covers[lo - 1], a) >= 0 {
      var j :| 0 <= j <= lo - 1 && ranges[j].end == covers[lo - 1];
      assert Contains(cmp, ranges[j], a);
    }
    if Listed(cmp, ranges, a) {
      var j :| 0 <= j < |ranges| && Contains(cmp, ranges[j], a);
      assert cmp(a, ranges[j].end) <= 0 && cmp(ranges[j].end, covers[lo - 1]) <= 0;
    }
  }

  // ---------------------------------------------------------------------------
  // The whole pipeline
  // ---------------------------------------------------------------------------

  // Whatever order ngx_qsort leaves equal elements in, sorting, dropping duplicates, the running
  // cover and the binary search together say whether some listed range contains the address.
  method Answer<K(0, !new)>(cmp: Order<K>, ghost listed: seq<Range<K>>, sorted: array<Range<K>>, a: K)
    returns (hit: bool)
    requires Total(cmp) && Sorted(cmp, sorted[..]) && multiset(sorted[..]) == multiset(listed)
    modifies sorted
    ensures hit <==> Listed(cmp, listed, a)
  {
    ghost var s := sorted[..];
    DedupeKeeps(cmp, s);
    var n := Uniq(cmp, sorted);
    var ranges := sorted[..n];
    var starts, covers := BuildCidr(cmp, ranges);
    hit := LookupCidr(cmp, starts, covers, a, ranges);
    SameListed(cmp, ranges, listed, s, a);
  }

  lemma {:induction false} SameListed<K(!new)>(cmp: Order<K>, ranges: seq<Range<K>>, listed: seq<Range<K>>,
                                               s: seq<Range<K>>, a: K)
    requires multiset(s) == multiset(listed) && forall r :: r in ranges <==> r in s
    ensures Listed(cmp, ranges, a) <==> Listed(cmp, listed, a)
  {
    assert forall r :: r in s <==> r in multiset(s);
    assert forall r :: r in listed <==> r in multiset(listed);
    if Listed(cmp, ranges, a) {
      var i :| 0 <= i < |ranges| && Contains(cmp, ranges[i], a);
      assert ranges[i] in listed;
    }
    if Listed(cmp, listed, a) {
      var i :| 0 <= i < |listed| && Contains(cmp, listed[i], a);
      assert listed[i] in ranges;
    }
  }
}
