/** The overlay of one dataset slot: module/src/local/ngx_http_waf_ds_live.c.

    The red-black tree is a map from keys to nodes, ordered by (crc, bytes) as lookup and
    insert_value order it; the slab may refuse an allocation (the `Room` argument).
 */
module Overlay {
  import opened Bytes

  type Key = seq<Byte>

  const ENTRY_MAX := 4096
  const LIVE_MAX := 10000
  const TWO32 := 0x1_0000_0000

  datatype Kind = Cidr | Str
  datatype Rc = Ok | Declined | Busy | Error

  // What the slab grants: the overlay header, when it is still missing, and one node.
  datatype Room = Room(header: bool, node: bool)

  // ---------------------------------------------------------------------------
  // Set hash
  // ---------------------------------------------------------------------------

  // A 64-bit word, as the set of positions of its one bits; xor is the symmetric difference.
  type Hash = set<nat>

  const ZERO: Hash := {}

  function Xor(x: Hash, y: Hash): Hash { (x - y) + (y - x) }

  datatype Node = Node(gen: nat, expires: nat, h: Hash)

  type Nodes = map<Key, Node>

  ghost function XorAll(m: Nodes): Hash
    decreases |m|
  {
    if m == map[] then ZERO
    else
      var k :| k in m;
      Xor(m[k].h, XorAll(m - {k}))
  }

  lemma {:induction false} XorRemove(m: Nodes, k: Key)
    requires k in m
    ensures XorAll(m) == Xor(m[k].h, XorAll(m - {k}))
    decreases |m|
  {
    var j :| j in m && XorAll(m) == Xor(m[j].h, XorAll(m - {j}));
    if j != k {
      XorRemove(m - {j}, k);
      XorRemove(m - {k}, j);
      assert m - {j} - {k} == m - {k} - {j};
      var rest := XorAll(m - {j} - {k});
      assert Xor(m[j].h, Xor(m[k].h, rest)) == Xor(m[k].h, Xor(m[j].h, rest));
    }
  }

  lemma {:induction false} XorInsert(m: Nodes, k: Key, n: Node)
    requires k !in m
    ensures XorAll(m[k := n]) == Xor(XorAll(m), n.h)
  {
    XorRemove(m[k := n], k);
    assert m[k := n] - {k} == m;
  }

  lemma {:induction false} XorReplace(m: Nodes, k: Key, n: Node)
    requires k in m
    ensures XorAll(m[k := n]) == Xor(XorAll(m), Xor(m[k].h, n.h))
  {
    XorRemove(m, k);
    XorRemove(m[k := n], k);
    assert m[k := n] - {k} == m - {k};
    var rest := XorAll(m - {k});
    var o := m[k].h;
    assert Xor(Xor(o, rest), Xor(o, n.h)) == Xor(n.h, rest);
  }

  lemma {:induction false} XorDelete(m: Nodes, k: Key)
    requires k in m
    ensures XorAll(m - {k}) == Xor(XorAll(m), m[k].h)
  {
    XorRemove(m, k);
    var rest := XorAll(m - {k});
    var o := m[k].h;
    assert Xor(Xor(o, rest), o) == rest;
  }

  // ---------------------------------------------------------------------------
  // Network keys
  // ---------------------------------------------------------------------------

  // Family and prefix length of a network key, as ds_live_bits reads them.
  function Shape(key: Key): Option<(nat, nat)> {
    if |key| == 6 && key[0] == 4 && key[1] <= 32 then Some((0, key[1]))
    else if |key| == 18 && key[0] == 6 && key[1] <= 128 then Some((1, key[1]))
    else None
  }

  predicate KeyOk(kind: Kind, key: Key) {
    0 < |key| <= ENTRY_MAX && (kind == Cidr ==> Shape(key).Some?)
  }

  function Width(fam: nat): nat { if fam == 0 then 4 else 16 }
  function Tag(fam: nat): Byte { if fam == 0 then 4 else 6 }

  // 2^n for the shifts inside one octet
  function Pow2(n: nat): (p: nat)
    requires n <= 8
    ensures p > 0
  {
    match n
    case 0 => 1
    case 1 => 2
    case 2 => 4
    case 3 => 8
    case 4 => 16
    case 5 => 32
    case 6 => 64
    case 7 => 128
    case 8 => 256
  }

  // addr & (0xff << (8 - keep)), and the two branches around it
  function MaskByte(b: Byte, keep: int): Byte {
    if keep >= 8 then b
    else if keep <= 0 then 0
    else b - b % Pow2(8 - keep)
  }

  function Masked(addr: seq<Byte>, bits: nat): (m: seq<Byte>)
    ensures |m| == |addr|
  {
    seq(|addr|, i requires 0 <= i < |addr| => MaskByte(addr[i], bits - 8 * i))
  }

  function NetKey(fam: nat, bits: nat, addr: seq<Byte>): Key
    requires bits < 256
  {
    [Tag(fam), bits] + Masked(addr, bits)
  }

  function BitOf(b: Byte, i: nat): nat
    requires i < 8
  {
    b / Pow2(7 - i) % 2
  }

  // Bit j of an address, counted from the most significant.
  function Bit(a: seq<Byte>, j: nat): nat
    requires j < 8 * |a|
  {
    BitOf(a[j / 8], j % 8)
  }

  // addr lies in the network net/bits
  ghost predicate InNetwork(net: seq<Byte>, bits: nat, addr: seq<Byte>)
    requires |net| == |addr|
  {
    forall j: nat | j < 8 * |net| :: j < bits ==> Bit(net, j) == Bit(addr, j)
  }

  // no host bits are set in net
  ghost predicate Canonical(net: seq<Byte>, bits: nat) {
    forall j: nat | j < 8 * |net| :: j >= bits ==> Bit(net, j) == 0
  }

  lemma {:induction false} MulGrows(d: int, e: int)
    requires d > 0 && e > 0
    ensures d * e >= d
  {}

  lemma {:induction false} DivUnique(x: nat, d: nat, q: nat, r: nat)
    requires r < d && x == d * q + r
    ensures x / d == q
  {
    if x / d != q {
      var e := x / d - q;
      assert d * e == r - x % d;
      MulGrows(d, if e > 0 then e else -e);
    }
  }

  lemma {:induction false} Halve(x: nat, p: nat)
    requires p > 0
    ensures x / p == 2 * (x / (2 * p)) + x / p % 2
  {
    var q := x / p;
    assert x == p * q + x % p;
    assert q == 2 * (q / 2) + q % 2;
    assert p * q == 2 * p * (q / 2) + p * (q % 2);
    DivUnique(x, 2 * p, q / 2, p * (q % 2) + x % p);
  }

  lemma {:induction false} DivTwice(p: nat, q: nat, c: nat, r: nat)
    requires p > 0 && c > 0 && r < p
    ensures (p * q + r) / (p * c) == q / c
  {
    var k, t := q / c, q % c;
    assert q == c * k + t;
    Distribute(p, c, k, t);
    OneMoreFits(p, t, c);
    DivUnique(p * q + r, p * c, k, p * t + r);
  }

  lemma {:induction false} Distribute(p: nat, c: nat, k: nat, t: nat)
    ensures p * (c * k + t) == p * c * k + p * t
  {}

  lemma {:induction false} OneMoreFits(p: nat, t: nat, c: nat)
    requires t < c
    ensures p * t + p <= p * c
  {
    assert p * t + p == p * (t + 1);
    Monotone(p, t + 1, c);
  }

  lemma {:induction false} Monotone(p: nat, a: nat, b: nat)
    requires a <= b
    ensures p * a <= p * b
  {}

  // Clearing the low bits leaves quotients by larger powers as they were ...
  lemma {:induction false} ClearLow(b: nat, p: nat, c: nat)
    requires p > 0 && c > 0
    ensures (b - b % p) / (p * c) == b / (p * c)
  {
    var q, r := b / p, b % p;
    DivTwice(p, q, c, r);
    DivTwice(p, q, c, 0);
    assert b == p * q + r;
  }

  // ... and zeroes the bits below.
  lemma {:induction false} ClearBit(b: nat, p: nat, c: nat, d: nat)
    requires p > 0 && c > 0 && d == 2 * p * c
    ensures (b - b % d) / p % 2 == 0
  {
    var s := b / d;
    assert b - b % d == d * s;
    Regroup(p, c, s);
    DivUnique(b - b % d, p, 2 * (c * s), 0);
  }

  lemma {:induction false} Regroup(p: nat, c: nat, s: nat)
    ensures 2 * p * c * s == p * (2 * (c * s))
  {}

  // The network key k stores a network of that family holding addr, with no host bits set.
  ghost predicate Holds(k: Key, fam: nat, addr: seq<Byte>) {
    && |k| == 2 + |addr| && k[0] == Tag(fam)
    && InNetwork(k[2..], k[1], addr) && Canonical(k[2..], k[1])
  }

  lemma {:induction false} PowersMultiply(low: nat, at: nat)
    requires 0 < low < 8 && at < 8
    ensures low <= at ==> Pow2(at) == Pow2(low) * Pow2(at - low)
    ensures at < low ==> Pow2(low) == 2 * Pow2(at) * Pow2(low - at - 1)
  {}

  lemma {:induction false} MaskByteBits(b: Byte, keep: int, i: nat)
    requires i < 8
    ensures BitOf(MaskByte(b, keep), i) == if i < keep then BitOf(b, i) else 0
  {
    if 0 < keep < 8 {
      var low, at := 8 - keep, 7 - i;
      PowersMultiply(low, at);
      hide Pow2;
      if i < keep {
        ClearLow(b, Pow2(low), Pow2(at - low));
      } else {
        ClearBit(b, Pow2(at), Pow2(low - at - 1), Pow2(low));
      }
    }
  }

  lemma {:induction false} SamePrefix(a: Byte, b: Byte, n: nat)
    requires n <= 8
    requires forall i: nat | i < 8 :: BitOf(a, i) == BitOf(b, i)
    ensures a / Pow2(n) == b / Pow2(n)
    decreases 8 - n
  {
    if n < 8 {
      SamePrefix(a, b, n + 1);
      assert Pow2(n + 1) == 2 * Pow2(n);
      Halve(a, Pow2(n));
      Halve(b, Pow2(n));
      assert BitOf(a, 7 - n) == BitOf(b, 7 - n);
    }
  }

  // The masked address is the one network of that length, without host bits, that holds it.
  lemma {:induction false} MaskedIsTheNetwork(net: seq<Byte>, addr: seq<Byte>, bits: nat)
    requires |net| == |addr|
    ensures net == Masked(addr, bits) <==> InNetwork(net, bits, addr) && Canonical(net, bits)
  {
    var m := Masked(addr, bits);
    forall j: nat | j < 8 * |addr|
      ensures Bit(m, j) == if j < bits then Bit(addr, j) else 0
    {
      MaskByteBits(addr[j / 8], bits - 8 * (j / 8), j % 8);
    }
    if InNetwork(net, bits, addr) && Canonical(net, bits) {
      forall i | 0 <= i < |net| ensures net[i] == m[i] {
        forall t: nat | t < 8 ensures BitOf(net[i], t) == BitOf(m[i], t) {
          var j := 8 * i + t;
          assert j / 8 == i && j % 8 == t;
          assert Bit(net, j) == Bit(m, j);
        }
        SamePrefix(net[i], m[i], 0);
      }
    }
  }

  // The key the probe builds for a prefix length is the one stored key of that length that holds addr.
  lemma {:induction false} HoldsIffBuilt(k: Key, fam: nat, addr: seq<Byte>)
    ensures Holds(k, fam, addr) <==> |k| == 2 + |addr| && k == NetKey(fam, k[1], addr)
  {
    if |k| == 2 + |addr| {
      MaskedIsTheNetwork(k[2..], addr, k[1]);
      assert k == [k[0], k[1]] + k[2..];
      assert NetKey(fam, k[1], addr)[2..] == Masked(addr, k[1]);
    }
  }

  // A network key is a family, a prefix length within its addresses and an address of it, and nothing
  // else is one: so every key the probe builds may be stored.
  lemma {:induction false} NetworkKeys(k: Key)
    ensures KeyOk(Cidr, k) <==> exists fam: nat, bits: Byte, addr: seq<Byte> :: IsNetworkKey(k, fam, bits, addr)
  {
    if KeyOk(Cidr, k) {
      assert k == [k[0], k[1]] + k[2..];
      assert IsNetworkKey(k, Shape(k).value.0, k[1], k[2..]);
    }
  }

  ghost predicate IsNetworkKey(k: Key, fam: nat, bits: Byte, addr: seq<Byte>) {
    && fam < 2 && |addr| == (if fam == 0 then 4 else 16) && bits <= 8 * |addr|
    && k == [if fam == 0 then 4 else 6, bits] + addr
  }

  // ---------------------------------------------------------------------------
  // Tree order
  // ---------------------------------------------------------------------------

  // lookup and insert_value: by crc, then by bytes
  predicate Before(crc: Key -> nat, a: Key, b: Key) {
    crc(a) < crc(b) || (crc(a) == crc(b) && Compare(a, b) < 0)
  }

  lemma {:induction false} BeforeTotal(crc: Key -> nat, a: Key, b: Key)
    ensures !Before(crc, a, a)
    ensures a != b ==> Before(crc, a, b) || Before(crc, b, a)
    ensures !(Before(crc, a, b) && Before(crc, b, a))
  {
    CompareEqual(a, a);
    CompareEqual(a, b);
    CompareFlip(a, b);
  }

  lemma {:induction false} BeforeTransitive(crc: Key -> nat, a: Key, b: Key, c: Key)
    requires Before(crc, a, b) && Before(crc, b, c)
    ensures Before(crc, a, c)
  {
    if crc(a) == crc(b) == crc(c) {
      CompareTransitive(a, b, c);
    }
  }

  predicate IsLeast(crc: Key -> nat, s: set<Key>, k: Key) {
    k in s && forall j | j in s :: j == k || Before(crc, k, j)
  }

  lemma {:induction false} LeastExists(crc: Key -> nat, s: set<Key>)
    requires s != {}
    ensures exists k :: IsLeast(crc, s, k)
    decreases |s|
  {
    var k :| k in s;
    var rest := s - {k};
    if rest == {} {
      assert s == {k};
      assert IsLeast(crc, s, k);
    } else {
      LeastExists(crc, rest);
      var m :| IsLeast(crc, rest, m);
      BeforeTotal(crc, k, m);
      if Before(crc, m, k) {
        assert IsLeast(crc, s, m);
      } else {
        forall j | j in s ensures j == k || Before(crc, k, j) {
          if j != k && j != m {
            BeforeTransitive(crc, k, m, j);
          }
        }
        assert IsLeast(crc, s, k);
      }
    }
  }

  // ---------------------------------------------------------------------------
  // What one call does to the nodes
  // ---------------------------------------------------------------------------

  function Cap(liveMax: nat): nat { if liveMax != 0 then liveMax else LIVE_MAX }

  // Whether a local put (h == 0) leaves the expiry of an existing entry alone. An entry that
  // never expires is given the ban's expiry.
  predicate Outlives(node: Node, expires: nat) {
    expires != 0 && node.expires != 0 && expires <= node.expires
  }

  function Refreshed(node: Node, expires: nat, h: Hash, gen: nat): Node {
    if h != ZERO then Node(gen, expires, h)
    else if Outlives(node, expires) then node.(gen := gen)
    else node.(gen := gen, expires := expires)
  }

  function RefreshRc(node: Node, expires: nat, h: Hash): Rc {
    if h != ZERO then (if node.expires == expires then Declined else Ok)
    else if Outlives(node, expires) then Declined
    else Ok
  }

  datatype PutResult = PutResult(rc: Rc, nodes: Nodes)

  function PutSpec(kind: Kind, nodes: Nodes, cap: nat, room: Room, key: Key, expires: nat, h: Hash, gen: nat)
    : PutResult
  {
    if !KeyOk(kind, key) || !room.header then PutResult(Error, nodes)
    else if key in nodes then
      PutResult(RefreshRc(nodes[key], expires, h), nodes[key := Refreshed(nodes[key], expires, h, gen)])
    else if |nodes| >= cap then PutResult(Busy, nodes)
    else if !room.node then PutResult(Error, nodes)
    else PutResult(Ok, nodes[key := Node(gen, expires, h)])
  }

  function MarkSpec(nodes: Nodes, key: Key, gen: nat): Nodes {
    if key in nodes then nodes[key := nodes[key].(gen := gen)] else nodes
  }

  // from <= k < to in tree order; an absent bound is the end of the tree
  predicate InRange(crc: Key -> nat, from: Option<Key>, to: Option<Key>, k: Key) {
    && (from.Some? ==> k == from.value || Before(crc, from.value, k))
    && (to.Some? ==> Before(crc, k, to.value))
  }

  // The nodes once a sweep for gen has passed over [from, to).
  ghost function SweepSpec(crc: Key -> nat, nodes: Nodes, gen: nat, from: Option<Key>, to: Option<Key>): Nodes {
    map k | k in nodes && (InRange(crc, from, to, k) ==> nodes[k].gen == gen) :: nodes[k]
  }

  // ngx_rbtree_next in that order
  ghost predicate IsNext(crc: Key -> nat, nodes: Nodes, node: Key, next: Option<Key>) {
    match next
    case None => forall k | k in nodes :: !Before(crc, node, k)
    case Some(m) => m in nodes && Before(crc, node, m)
                    && forall k | k in nodes && Before(crc, node, k) :: k == m || Before(crc, m, k)
  }

  lemma {:induction false} SweepStart(crc: Key -> nat, nodes: Nodes, gen: nat, from: Option<Key>, to: Option<Key>)
    requires to.Some?
    requires from == to || (from == None && IsLeast(crc, nodes.Keys, to.value))
    ensures SweepSpec(crc, nodes, gen, from, to) == nodes
  {
    forall k | k in nodes ensures !InRange(crc, from, to, k) {
      BeforeTotal(crc, k, to.value);
    }
  }

  // A sweep that stands at a node and passes it has swept one node more.
  lemma {:induction false} SweepStep(crc: Key -> nat, was: Nodes, now: Nodes, gen: nat, from: Option<Key>, node: Key,
                                     next: Option<Key>)
    requires now == SweepSpec(crc, was, gen, from, Some(node)) && node in now
    requires from == None || from.value == node || Before(crc, from.value, node)
    requires IsNext(crc, now, node, next)
    ensures SweepSpec(crc, was, gen, from, next) == if now[node].gen != gen then now - {node} else now
    ensures next.Some? && from.Some? ==> Before(crc, from.value, next.value)
  {
    if next.Some? && from.Some? && from.value != node {
      BeforeTransitive(crc, from.value, node, next.value);
    }
    forall k | k in was
      ensures InRange(crc, from, next, k) <==> InRange(crc, from, Some(node), k) || k == node
    {
      BeforeTotal(crc, k, node);
      if from.Some? && Before(crc, from.value, node) && Before(crc, node, k) {
        BeforeTransitive(crc, from.value, node, k);
      }
      if next.Some? {
        BeforeTotal(crc, k, next.value);
        if Before(crc, k, node) {
          BeforeTransitive(crc, k, node, next.value);
        }
      }
    }
  }

  function NextGen(gen: nat): nat {
    if (gen + 1) % TWO32 == 0 then 1 else (gen + 1) % TWO32
  }

  predicate Unexpired(node: Node, now: nat) { node.expires == 0 || node.expires >= now }

  // Whenever the entry was in force before, it is in force after.
  ghost predicate LivesOn(before: Node, after: Node) {
    forall now: nat | Unexpired(before, now) :: Unexpired(after, now)
  }

  // A ban never shortens an entry's life, except that of an entry without expiry, which it ends
  // unless it has no expiry itself.
  lemma {:induction false} BanLivesOn(node: Node, expires: nat, gen: nat)
    ensures LivesOn(node, Refreshed(node, expires, ZERO, gen)) <==> node.expires != 0 || expires == 0
  {
    if node.expires == 0 && expires != 0 {
      assert Unexpired(node, expires + 1) && !Unexpired(Refreshed(node, expires, ZERO, gen), expires + 1);
    }
  }

  // In force up to that moment, or for good.
  ghost predicate InForceUntil(node: Node, expires: nat) {
    forall now: nat :: Unexpired(node, now) <==> expires == 0 || now <= expires
  }

  // A put of a new key, and every put of the keeper, sets when the entry expires.
  lemma {:induction false} PutInForce(kind: Kind, nodes: Nodes, cap: nat, room: Room, key: Key, expires: nat, h: Hash,
                                      gen: nat)
    ensures var r := PutSpec(kind, nodes, cap, room, key, expires, h, gen);
            (if key in nodes then h != ZERO && r.rc != Error else r.rc == Ok) ==>
              key in r.nodes && InForceUntil(r.nodes[key], expires)
  {}

  // A ban on an entry, both with an expiry, keeps it in force as long as either would.
  lemma {:induction false} BanExtends(node: Node, expires: nat, gen: nat)
    requires node.expires != 0 && expires != 0
    ensures forall now: nat ::
              Unexpired(Refreshed(node, expires, ZERO, gen), now) <==> now <= node.expires || now <= expires
  {}

  // An entry without expiry, banned until 5, is in force at 6 before the ban and not after.
  lemma {:induction false} BanEndsLastingEntry(h: Hash, gen: nat)
    ensures var node := Node(gen, 0, h);
            Unexpired(node, 6) && !Unexpired(Refreshed(node, 5, ZERO, gen), 6)
  {}

  // ---------------------------------------------------------------------------
  // The slot
  // ---------------------------------------------------------------------------

  ghost function Having(kind: Kind, nodes: Nodes, fam: nat, bits: nat): set<Key> {
    set k | k in nodes && kind == Cidr && Shape(k) == Some((fam, bits))
  }

  lemma {:induction false} HavingInsert(kind: Kind, nodes: Nodes, key: Key, node: Node, fam: nat, bits: nat)
    ensures |Having(kind, nodes[key := node], fam, bits)|
         == |Having(kind, nodes, fam, bits)|
            + if key !in nodes && kind == Cidr && Shape(key) == Some((fam, bits)) then 1 else 0
  {
    var a, b := Having(kind, nodes[key := node], fam, bits), Having(kind, nodes, fam, bits);
    if key !in nodes && kind == Cidr && Shape(key) == Some((fam, bits)) {
      assert a == b + {key};
    } else {
      assert a == b;
    }
  }

  lemma {:induction false} HavingRemove(kind: Kind, nodes: Nodes, key: Key, fam: nat, bits: nat)
    requires key in nodes
    ensures |Having(kind, nodes - {key}, fam, bits)|
         == |Having(kind, nodes, fam, bits)|
            - if kind == Cidr && Shape(key) == Some((fam, bits)) then 1 else 0
  {
    HavingInsert(kind, nodes - {key}, key, nodes[key], fam, bits);
    assert (nodes - {key})[key := nodes[key]] == nodes;
  }

  class Slot {
    const kind: Kind
    const crc: Key -> nat
    const liveMax: nat
    const lens: array2<nat>
    var header: bool
    var nodes: Nodes
    var n: nat
    var max: nat
    var gen: nat
    var liveHash: Hash

    ghost predicate Counted()
      reads this, lens
    {
      && lens.Length0 == 2 && lens.Length1 == 129
      && n == |nodes|
      && liveHash == XorAll(nodes)
      && forall fam: nat, bits: nat | fam < 2 && bits < 129 :: lens[fam, bits] == |Having(kind, nodes, fam, bits)|
    }

    ghost predicate Valid()
      reads this, lens
    {
      && Counted()
      && (forall k | k in nodes :: KeyOk(kind, k))
      && 0 < gen < TWO32
      && (header ==> max == Cap(liveMax))
      && (!header ==> nodes == map[] && gen == 1)
    }

    constructor (kind: Kind, crc: Key -> nat, liveMax: nat)
      ensures Valid() && fresh(lens) && this.kind == kind && this.crc == crc && this.liveMax == liveMax
      ensures nodes == map[]
    {
      this.kind, this.crc, this.liveMax := kind, crc, liveMax;
      header, nodes, n, max, gen, liveHash := false, map[], 0, 0, 1, ZERO;
      lens := new nat[2, 129]((i, j) => 0);
      new;
      forall fam: nat, bits: nat | fam < 2 && bits < 129
        ensures lens[fam, bits] == |Having(kind, nodes, fam, bits)|
      {
        assert Having(kind, nodes, fam, bits) == {};
      }
    }

    // live_ensure: allocate the overlay once, refresh its limit every time.
    method Ensure(room: bool) returns (ok: bool)
      requires Valid()
      modifies this`header, this`max
      ensures Valid() && ok == header == (old(header) || room)
    {
      if !header {
        if !room {
          return false;
        }
        header := true;
      }
      max := if liveMax != 0 then liveMax else LIVE_MAX;
      ok := true;
    }

    method Put(key: Key, expires: nat, h: Hash, gen: nat, room: Room) returns (rc: Rc)
      requires Valid()
      modifies this, lens
      ensures Valid() && this.gen == old(this.gen) && (old(header) ==> header)
      ensures PutSpec(kind, old(nodes), Cap(liveMax), room.(header := old(header) || room.header), key, expires, h, gen)
           == PutResult(rc, nodes)
      ensures h == ZERO && key in old(nodes) && rc != Error ==>
                && key in nodes
                && (LivesOn(old(nodes)[key], nodes[key]) <==> old(nodes)[key].expires != 0 || expires == 0)
                && (old(nodes)[key].expires != 0 && expires != 0 ==>
                      forall now: nat ::
                        Unexpired(nodes[key], now) <==> now <= old(nodes)[key].expires || now <= expires)
      ensures (if key in old(nodes) then h != ZERO && rc != Error else rc == Ok) ==>
                key in nodes && InForceUntil(nodes[key], expires)
    {
      PutInForce(kind, nodes, Cap(liveMax), room.(header := header || room.header), key, expires, h, gen);
      if |key| == 0 || |key| > ENTRY_MAX || (kind == Cidr && Shape(key).None?) {
        return Error;
      }
      var ok := Ensure(room.header);
      if !ok {
        return Error;
      }
      if key in nodes {
        BanLivesOn(nodes[key], expires, gen);
        rc := Touch(key, expires, h, gen);
        return;
      }
      if n >= max {
        return Busy;
      }
      if !room.node {
        return Error;
      }
      Insert(key, Node(gen, expires, h));
      rc := Ok;
    }

    // The branch of live_put for an entry already in the tree.
    method Touch(key: Key, expires: nat, h: Hash, gen: nat) returns (rc: Rc)
      requires Valid() && key in nodes
      modifies this`nodes, this`liveHash
      ensures Valid() && nodes == old(nodes)[key := Refreshed(old(nodes)[key], expires, h, gen)]
      ensures rc == RefreshRc(old(nodes)[key], expires, h)
    {
      var ln := nodes[key];
      rc := Ok;
      ln := ln.(gen := gen);
      if h != ZERO {
        if ln.h != h {
          liveHash := Xor(liveHash, Xor(ln.h, h));
          ln := ln.(h := h);
        } else {
          assert Xor(liveHash, Xor(ln.h, h)) == liveHash;
        }
        if ln.expires == expires {
          rc := Declined;
        } else {
          ln := ln.(expires := expires);
        }
      } else {
        assert Xor(liveHash, Xor(ln.h, ln.h)) == liveHash;
        if expires != 0 && ln.expires != 0 && expires <= ln.expires {
          rc := Declined;
        } else {
          ln := ln.(expires := expires);
        }
      }
      XorReplace(nodes, key, ln);
      KeepsCounts(key, ln);
      nodes := nodes[key := ln];
    }

    lemma {:induction false} KeepsCounts(key: Key, ln: Node)
      requires key in nodes
      ensures |nodes[key := ln]| == |nodes|
      ensures forall fam: nat, bits: nat ::
          |Having(kind, nodes[key := ln], fam, bits)| == |Having(kind, nodes, fam, bits)|
    {
      assert nodes[key := ln].Keys == nodes.Keys;
      assert |nodes[key := ln].Keys| == |nodes.Keys|;
      forall fam: nat, bits: nat
        ensures |Having(kind, nodes[key := ln], fam, bits)| == |Having(kind, nodes, fam, bits)|
      {
        HavingInsert(kind, nodes, key, ln, fam, bits);
      }
    }

    method Insert(key: Key, ln: Node)
      requires Valid() && header && key !in nodes && KeyOk(kind, key)
      modifies this`nodes, this`n, this`liveHash, lens
      ensures Valid() && nodes == old(nodes)[key := ln]
    {
      XorInsert(nodes, key, ln);
      ghost var was := nodes;
      nodes := nodes[key := ln];
      n := n + 1;
      liveHash := Xor(liveHash, ln.h);
      if kind == Cidr {
        var (fam, bits) := Shape(key).value;
        lens[fam, bits] := lens[fam, bits] + 1;
      }
      forall fam: nat, bits: nat | fam < 2 && bits < 129
        ensures lens[fam, bits] == |Having(kind, nodes, fam, bits)|
      {
        HavingInsert(kind, was, key, ln, fam, bits);
      }
    }

    // live_delete
    method Delete(key: Key)
      requires Valid() && key in nodes
      modifies this`nodes, this`n, this`liveHash, lens
      ensures Valid() && nodes == old(nodes) - {key}
    {
      XorDelete(nodes, key);
      ghost var was := nodes;
      if kind == Cidr {
        var (fam, bits) := Shape(key).value;
        assert key in Having(kind, nodes, fam, bits);
        if lens[fam, bits] > 0 {
          lens[fam, bits] := lens[fam, bits] - 1;
        }
      }
      liveHash := Xor(liveHash, nodes[key].h);
      nodes := nodes - {key};
      if n > 0 {
        n := n - 1;
      }
      forall fam: nat, bits: nat | fam < 2 && bits < 129
        ensures lens[fam, bits] == |Having(kind, nodes, fam, bits)|
      {
        HavingRemove(kind, was, key, fam, bits);
      }
    }

    // live_drop
    method Drop(key: Key) returns (rc: Rc)
      requires Valid()
      modifies this`nodes, this`n, this`liveHash, lens
      ensures Valid() && nodes == old(nodes) - {key}
      ensures rc == if key in old(nodes) then Ok else Declined
    {
      if !header || |key| == 0 || key !in nodes {
        assert nodes - {key} == nodes;
        return Declined;
      }
      Delete(key);
      rc := Ok;
    }

    // live_mark
    method Mark(key: Key, gen: nat)
      requires Valid()
      modifies this`nodes
      ensures Valid() && nodes == MarkSpec(old(nodes), key, gen)
    {
      if header && |key| != 0 && key in nodes {
        var ln := nodes[key].(gen := gen);
        XorReplace(nodes, key, ln);
        assert Xor(liveHash, Xor(ln.h, ln.h)) == liveHash;
        KeepsCounts(key, ln);
        nodes := nodes[key := ln];
      }
    }

    // live_begin: a generation no node carries yet, never zero
    method Begin(room: bool) returns (next: nat)
      requires Valid()
      modifies this`header, this`max, this`gen
      ensures Valid() && header == (old(header) || room)
      ensures next == if header then NextGen(old(gen)) else 0
      ensures gen == if header then next else old(gen)
    {
      var ok := Ensure(room);
      if !ok {
        return 0;
      }
      gen := (gen + 1) % TWO32;
      if gen == 0 {
        gen := 1;
      }
      next := gen;
    }

    // live_sweep: at most `batch` nodes from the cursor on; the cursor is the next node to look at
    method Sweep(gen: nat, batch: nat, cursor: Option<Key>) returns (next: Option<Key>, swept: nat)
      requires Valid() && (cursor.Some? ==> cursor.value in nodes)
      modifies this`nodes, this`n, this`liveHash, lens
      ensures Valid() && nodes == SweepSpec(crc, old(nodes), gen, cursor, next)
      ensures next.Some? ==> next.value in nodes
      ensures swept == |old(nodes)| - |nodes|
    {
      swept := 0;
      if !header || nodes == map[] {
        assert SweepSpec(crc, nodes, gen, cursor, None) == nodes;
        return None, 0;
      }
      next := cursor;
      if next == None {
        LeastExists(crc, nodes.Keys);
        var least :| least in nodes.Keys && IsLeast(crc, nodes.Keys, least);
        next := Some(least);
      }
      SweepStart(crc, nodes, gen, cursor, next);
      var i := 0;
      while next.Some? && i < batch
        invariant Valid() && (next.Some? ==> next.value in nodes)
        invariant nodes == SweepSpec(crc, old(nodes), gen, cursor, next)
        invariant next.Some? && cursor.Some? ==> next == cursor || Before(crc, cursor.value, next.value)
        invariant swept == |old(nodes)| - |nodes|
        decreases batch - i
      {
        var node := next.value;
        next := Successor(node);
        SweepStep(crc, old(nodes), nodes, gen, cursor, node, next);
        if nodes[node].gen != gen {
          Delete(node);
          swept := swept + 1;
        }
        i := i + 1;
      }
    }

    // ngx_rbtree_next
    method Successor(node: Key) returns (next: Option<Key>)
      ensures IsNext(crc, nodes, node, next)
    {
      var later := set k | k in nodes && Before(crc, node, k);
      if later == {} {
        assert forall k | k in nodes && Before(crc, node, k) :: k in later;
        return None;
      }
      LeastExists(crc, later);
      var least :| least in later && IsLeast(crc, later, least);
      next := Some(least);
    }

    // live_reset
    method Reset()
      requires Valid()
      modifies this`nodes, this`n, this`liveHash, lens
      ensures Valid() && nodes == map[]
    {
      if !header {
        return;
      }
      while nodes != map[]
        invariant Valid()
        decreases |nodes|
      {
        LeastExists(crc, nodes.Keys);
        var least :| least in nodes.Keys && IsLeast(crc, nodes.Keys, least);
        Delete(least);
      }
      n := 0;
      forall fam: nat, bits: nat | fam < 2 && bits < 129
        ensures lens[fam, bits] == 0
      {
        assert Having(kind, nodes, fam, bits) == {};
      }
      liveHash := ZERO;
    }

    // live_hit
    method Hit(value: Key, now: nat) returns (hit: bool)
      requires Valid()
      ensures hit <==> value in nodes && Unexpired(nodes[value], now)
    {
      if !header || |value| == 0 {
        return false;
      }
      hit := value in nodes && (nodes[value].expires == 0 || nodes[value].expires >= now);
    }

    // live_probe: try the stored prefix lengths from the longest, skipping lengths nobody has
    method Probe(fam: nat, addr: seq<Byte>, now: nat) returns (hit: bool)
      requires Valid() && kind == Cidr && fam < 2 && |addr| == Width(fam)
      ensures hit <==> exists k | k in nodes :: Holds(k, fam, addr) && Unexpired(nodes[k], now)
    {
      hit := false;
      if header {
        var bits: int := |addr| * 8;
        while bits >= 0 && !hit
          invariant -1 <= bits <= |addr| * 8
          invariant hit ==> exists b: nat :: b <= |addr| * 8 && NetKey(fam, b, addr) in nodes
                                        && Unexpired(nodes[NetKey(fam, b, addr)], now)
          invariant !hit ==> forall b: nat | bits < b <= |addr| * 8 ::
                      NetKey(fam, b, addr) in nodes ==> !Unexpired(nodes[NetKey(fam, b, addr)], now)
        {
          var key := NetKey(fam, bits, addr);
          if lens[fam, bits] == 0 {
            assert Having(kind, nodes, fam, bits) == {};
            assert key !in Having(kind, nodes, fam, bits);
          } else {
            hit := key in nodes && (nodes[key].expires == 0 || nodes[key].expires >= now);
          }
          bits := bits - 1;
        }
      }
      if hit {
        var b: nat :| b <= |addr| * 8 && NetKey(fam, b, addr) in nodes && Unexpired(nodes[NetKey(fam, b, addr)], now);
        HoldsIffBuilt(NetKey(fam, b, addr), fam, addr);
      } else {
        forall k | k in nodes ensures !(Holds(k, fam, addr) && Unexpired(nodes[k], now)) {
          HoldsIffBuilt(k, fam, addr);
          assert KeyOk(kind, k);
        }
      }
    }
  }
}
