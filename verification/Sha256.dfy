/** Streaming SHA-256 of module/src/body/ngx_http_waf_sha256.c, proved against the
    definition of the hash in FIPS 180-4: padding (section 5.1.1), message schedule
    and compression (section 6.2.2).
 */
module Sha256 {

  // One-field wrappers: proofs compare machine words as values and open the bits only where
  // an operation is defined.
  datatype Word = Word(bits: bv32)
  datatype Octet = Octet(bits: bv8)

  const BLOCK := 64

  // ---------------------------------------------------------------------------
  // FIPS 180-4
  // ---------------------------------------------------------------------------

  // Section 3.2: addition modulo 2^32, shift, rotation
  function Add(x: Word, y: Word): Word { Word(x.bits + y.bits) }
  function Sum4(x: Word, y: Word, z: Word, u: Word): Word { Add(Add(Add(x, y), z), u) }
  function Shr(x: Word, n: bv6): Word requires n < 32 { Word(x.bits >> n) }
  function Rotr(x: Word, n: bv6): Word
    requires n < 32
  {
    Word((x.bits >> n) | (x.bits << (32 - n)))
  }
  function Xor(x: Word, y: Word, z: Word): Word { Word(x.bits ^ y.bits ^ z.bits) }

  // Section 4.1.2
  function Ch(x: Word, y: Word, z: Word): Word { Word((x.bits & y.bits) ^ (!x.bits & z.bits)) }
  function Maj(x: Word, y: Word, z: Word): Word { Word((x.bits & y.bits) ^ (x.bits & z.bits) ^ (y.bits & z.bits)) }
  function BigSigma0(x: Word): Word { Xor(Rotr(x, 2), Rotr(x, 13), Rotr(x, 22)) }
  function BigSigma1(x: Word): Word { Xor(Rotr(x, 6), Rotr(x, 11), Rotr(x, 25)) }
  function SmallSigma0(x: Word): Word { Xor(Rotr(x, 7), Rotr(x, 18), Shr(x, 3)) }
  function SmallSigma1(x: Word): Word { Xor(Rotr(x, 17), Rotr(x, 19), Shr(x, 10)) }

  // Section 4.2.2
  const K: seq<Word> :=
    [Word(0x428a2f98), Word(0x71374491), Word(0xb5c0fbcf), Word(0xe9b5dba5),
     Word(0x3956c25b), Word(0x59f111f1), Word(0x923f82a4), Word(0xab1c5ed5),
     Word(0xd807aa98), Word(0x12835b01), Word(0x243185be), Word(0x550c7dc3),
     Word(0x72be5d74), Word(0x80deb1fe), Word(0x9bdc06a7), Word(0xc19bf174)]
    + [Word(0xe49b69c1), Word(0xefbe4786), Word(0x0fc19dc6), Word(0x240ca1cc),
       Word(0x2de92c6f), Word(0x4a7484aa), Word(0x5cb0a9dc), Word(0x76f988da),
       Word(0x983e5152), Word(0xa831c66d), Word(0xb00327c8), Word(0xbf597fc7),
       Word(0xc6e00bf3), Word(0xd5a79147), Word(0x06ca6351), Word(0x14292967)]
    + [Word(0x27b70a85), Word(0x2e1b2138), Word(0x4d2c6dfc), Word(0x53380d13),
       Word(0x650a7354), Word(0x766a0abb), Word(0x81c2c92e), Word(0x92722c85),
       Word(0xa2bfe8a1), Word(0xa81a664b), Word(0xc24b8b70), Word(0xc76c51a3),
       Word(0xd192e819), Word(0xd6990624), Word(0xf40e3585), Word(0x106aa070)]
    + [Word(0x19a4c116), Word(0x1e376c08), Word(0x2748774c), Word(0x34b0bcb5),
       Word(0x391c0cb3), Word(0x4ed8aa4a), Word(0x5b9cca4f), Word(0x682e6ff3),
       Word(0x748f82ee), Word(0x78a5636f), Word(0x84c87814), Word(0x8cc70208),
       Word(0x90befffa), Word(0xa4506ceb), Word(0xbef9a3f7), Word(0xc67178f2)]

  // Section 5.3.3
  const H0: seq<Word> := [Word(0x6a09e667), Word(0xbb67ae85), Word(0x3c6ef372), Word(0xa54ff53a),
                          Word(0x510e527f), Word(0x9b05688c), Word(0x1f83d9ab), Word(0x5be0cd19)]

  function BigEndianWord(b: seq<Octet>): Word
    requires |b| == 4
  {
    Word((b[0].bits as bv32 << 24) | (b[1].bits as bv32 << 16) | (b[2].bits as bv32 << 8) | b[3].bits as bv32)
  }

  function NextWord(w2: Word, w7: Word, w15: Word, w16: Word): Word {
    Sum4(SmallSigma1(w2), w7, SmallSigma0(w15), w16)
  }

  // Section 6.2.2, step 1
  ghost function Schedule(block: seq<Octet>, t: nat): Word
    requires |block| == BLOCK && t < 64
  {
    if t < 16 then BigEndianWord(block[4 * t..4 * t + 4])
    else NextWord(Schedule(block, t - 2), Schedule(block, t - 7), Schedule(block, t - 15), Schedule(block, t - 16))
  }

  lemma {:induction false} ScheduleStep(block: seq<Octet>, t: nat)
    requires |block| == BLOCK && t < 64
    ensures t < 16 ==> Schedule(block, t) == BigEndianWord(block[4 * t..4 * t + 4])
    ensures t >= 16 ==>
              Schedule(block, t) == NextWord(Schedule(block, t - 2), Schedule(block, t - 7), Schedule(block, t - 15),
                                             Schedule(block, t - 16))
  {}

  datatype Registers = Registers(a: Word, b: Word, c: Word, d: Word, e: Word, f: Word, g: Word, h: Word)

  function T1(e: Word, f: Word, g: Word, h: Word, k: Word, w: Word): Word {
    Add(Sum4(h, BigSigma1(e), Ch(e, f, g), k), w)
  }
  function T2(a: Word, b: Word, c: Word): Word { Add(BigSigma0(a), Maj(a, b, c)) }

  // Section 6.2.2, step 3
  function Round(r: Registers, k: Word, w: Word): Registers {
    var t1 := T1(r.e, r.f, r.g, r.h, k, w);
    var t2 := T2(r.a, r.b, r.c);
    Registers(Add(t1, t2), r.a, r.b, r.c, Add(r.d, t1), r.e, r.f, r.g)
  }

  // Section 6.2.2, step 2
  function Load(state: seq<Word>): Registers
    requires |state| == 8
  {
    Registers(state[0], state[1], state[2], state[3], state[4], state[5], state[6], state[7])
  }

  // The working variables after the first t rounds
  ghost function Rounds(state: seq<Word>, block: seq<Octet>, t: nat): Registers
    requires |state| == 8 && |block| == BLOCK && t <= |K|
  {
    if t == 0 then Load(state)
    else Round(Rounds(state, block, t - 1), K[t - 1], Schedule(block, t - 1))
  }

  // Section 6.2.2, step 4
  function AddBack(state: seq<Word>, r: Registers): (next: seq<Word>)
    requires |state| == 8
    ensures |next| == 8
  {
    [Add(state[0], r.a), Add(state[1], r.b), Add(state[2], r.c), Add(state[3], r.d),
     Add(state[4], r.e), Add(state[5], r.f), Add(state[6], r.g), Add(state[7], r.h)]
  }

  ghost function Compress(state: seq<Word>, block: seq<Octet>): (next: seq<Word>)
    requires |state| == 8 && |block| == BLOCK
    ensures |next| == 8
  {
    AddBack(state, Rounds(state, block, |K|))
  }

  // Section 6.2.2: H(i) from H(i-1) and the i-th block
  ghost function Absorb(message: seq<Octet>): (state: seq<Word>)
    requires |message| % BLOCK == 0
    ensures |state| == 8
  {
    if message == [] then H0
    else Compress(Absorb(message[..|message| - BLOCK]), message[|message| - BLOCK..])
  }

  function Zeros(n: nat): (z: seq<Octet>)
    ensures |z| == n
  {
    seq(n, _ => Octet(0))
  }

  const TWO64: nat := 0x1_0000_0000_0000_0000

  function LengthField(bits: nat): (f: seq<Octet>)
    requires bits < TWO64
    ensures |f| == 8
  {
    var v := bits as bv64;
    [Octet((v >> 56) as bv8), Octet(((v >> 48) & 0xff) as bv8), Octet(((v >> 40) & 0xff) as bv8),
     Octet(((v >> 32) & 0xff) as bv8), Octet(((v >> 24) & 0xff) as bv8), Octet(((v >> 16) & 0xff) as bv8),
     Octet(((v >> 8) & 0xff) as bv8), Octet((v & 0xff) as bv8)]
  }

  // The only k under 64, hence the smallest, with l + 1 + k congruent to 56 modulo 64 (octets).
  ghost function PadZeros(length: nat): (k: nat)
    ensures (length + 1 + k) % BLOCK == 56
    ensures k < BLOCK
  {
    (119 - length % BLOCK) % BLOCK
  }

  ghost function PadWith(message: seq<Octet>, field: seq<Octet>): (padded: seq<Octet>)
    requires |field| == 8
    ensures |padded| % BLOCK == 0
  {
    message + [Octet(0x80)] + Zeros(PadZeros(|message|)) + field
  }

  // Section 5.1.1. The standard defines the hash for messages under 2^64 bits; beyond that
  // the length is taken modulo 2^64, which is what a 64-bit counter holds.
  ghost function Pad(message: seq<Octet>): (padded: seq<Octet>)
    ensures |padded| % BLOCK == 0
  {
    PadWith(message, LengthField(8 * |message| % TWO64))
  }

  function WordBytes(w: Word): (b: seq<Octet>)
    ensures |b| == 4
  {
    [Octet((w.bits >> 24) as bv8), Octet(((w.bits >> 16) & 0xff) as bv8),
     Octet(((w.bits >> 8) & 0xff) as bv8), Octet((w.bits & 0xff) as bv8)]
  }

  ghost function Output(state: seq<Word>): (b: seq<Octet>)
    ensures |b| == 4 * |state|
  {
    if state == [] then [] else WordBytes(state[0]) + Output(state[1..])
  }

  ghost function Hash(message: seq<Octet>): seq<Octet> {
    Output(Absorb(Pad(message)))
  }

  // ---------------------------------------------------------------------------
  // Lemmas
  // ---------------------------------------------------------------------------

  lemma {:induction false} CounterWraps(a: nat, b: nat)
    ensures (a % TWO64 + b) % TWO64 == (a + b) % TWO64
  {
    assert a == TWO64 * (a / TWO64) + a % TWO64;
  }

  lemma {:induction false} OutputConcat(m: seq<Word>, n: seq<Word>)
    ensures Output(m + n) == Output(m) + Output(n)
  {
    if m == [] {
      assert m + n == n;
    } else {
      OutputConcat(m[1..], n);
      assert (m + n)[1..] == m[1..] + n;
    }
  }

  // ---------------------------------------------------------------------------
  // The implementation
  // ---------------------------------------------------------------------------

  // One turn of the round loop: the eight variables shift by one place.
  method Turn(r: Registers, k: Word, w: Word) returns (next: Registers)
    ensures next == Round(r, k, w)
  {
    var Registers(a, b, c, d, e, f, g, h) := r;
    var t1 := T1(e, f, g, h, k, w);
    var t2 := T2(a, b, c);
    h := g;
    g := f;
    f := e;
    e := Add(d, t1);
    d := c;
    c := b;
    b := a;
    a := Add(t1, t2);
    next := Registers(a, b, c, d, e, f, g, h);
  }

  // The 64-word schedule, filled as the two loops of sha256_block fill it.
  method FillSchedule(block: seq<Octet>) returns (schedule: seq<Word>)
    requires |block| == BLOCK
    ensures |schedule| == 64
    ensures forall t :: 0 <= t < 64 ==> schedule[t] == Schedule(block, t)
  {
    hide Schedule, BigEndianWord, NextWord;
    var w := new Word[64];
    for i := 0 to 16
      invariant forall t :: 0 <= t < i ==> w[t] == Schedule(block, t)
    {
      ScheduleStep(block, i);
      var q := block[4 * i..4 * i + 4];
      w[i] := BigEndianWord(q);
    }
    for i := 16 to 64
      invariant forall t :: 0 <= t < i ==> w[t] == Schedule(block, t)
    {
      ScheduleStep(block, i);
      w[i] := NextWord(w[i - 2], w[i - 7], w[i - 15], w[i - 16]);
    }
    schedule := w[..];
  }

  // The 64 rounds over the eight working variables.
  method RunRounds(state: seq<Word>, block: seq<Octet>) returns (r: Registers)
    requires |state| == 8 && |block| == BLOCK
    ensures r == Rounds(state, block, |K|)
  {
    var w := FillSchedule(block);
    r := Load(state);
    for i := 0 to |K|
      invariant r == Rounds(state, block, i)
    {
      r := Turn(r, K[i], w[i]);
      assert r == Round(Rounds(state, block, i), K[i], Schedule(block, i));
    }
  }

  class Sha {
    var bytes: nat
    var h: seq<Word>
    var block: array<Octet>
    var used: nat

    // The whole blocks the chaining value covers.
    ghost var whole: seq<Octet>

    ghost predicate Chained()
      reads this
    {
      |whole| % BLOCK == 0 && h == Absorb(whole) && |h| == 8 && block.Length == BLOCK
    }

    ghost predicate Valid()
      reads this, block
    {
      Chained() && used < BLOCK && bytes == |Fed()| % TWO64
    }

    // Everything fed so far.
    ghost function Fed(): seq<Octet>
      reads this, block
      requires used <= block.Length
    {
      whole + block[..used]
    }

    constructor ()
      ensures Valid() && fresh(block) && Fed() == []
    {
      bytes := 0;
      used := 0;
      h := [Word(0x6a09e667), Word(0xbb67ae85), Word(0x3c6ef372), Word(0xa54ff53a),
            Word(0x510e527f), Word(0x9b05688c), Word(0x1f83d9ab), Word(0x5be0cd19)];
      block := new Octet[BLOCK];
      whole := [];
    }

    method Block(p: seq<Octet>)
      requires Chained() && |p| == BLOCK
      modifies this`h, this`whole
      ensures Chained() && whole == old(whole) + p
    {
      var r := RunRounds(h, p);
      h := AddBack(h, r);
      ghost var before := whole;
      whole := whole + p;
      assert whole[..|before|] == before && whole[|before|..] == p;
    }

    // memcpy into the block buffer
    method Copy(at: nat, data: seq<Octet>)
      requires at + |data| <= block.Length
      modifies block
      ensures block[..at + |data|] == old(block[..at]) + data
      ensures block[at + |data|..] == old(block[at + |data|..])
    {
      for i := 0 to |data|
        invariant block[..at + i] == old(block[..at]) + data[..i]
        invariant block[at + i..] == old(block[at + i..])
      {
        block[at + i] := data[i];
        assert block[..at + i + 1] == block[..at + i] + [data[i]];
        assert block[at + i + 1..] == block[at + i..][1..];
      }
    }

    // Complete the partial block and compress it.
    method TopUp(data: seq<Octet>) returns (rest: seq<Octet>)
      requires Chained() && 0 < used < BLOCK && BLOCK - used <= |data|
      modifies this`h, this`whole, this`used, block
      ensures Chained() && used == 0
      ensures whole + rest == old(Fed()) + data
    {
      hide Absorb;
      var take := BLOCK - used;
      Copy(used, data[..take]);
      assert block[..] == block[..used + take];
      Block(block[..]);
      rest := data[take..];
      used := 0;
    }

    // Compress every whole block straight from the input.
    method Bulk(data: seq<Octet>) returns (rest: seq<Octet>)
      requires Chained()
      modifies this`h, this`whole
      ensures Chained() && |rest| < BLOCK
      ensures whole + rest == old(whole) + data
    {
      hide Absorb;
      rest := data;
      while |rest| >= BLOCK
        invariant Chained() && whole + rest == old(whole) + data
      {
        Block(rest[..BLOCK]);
        rest := rest[BLOCK..];
      }
    }

    method Take(data: seq<Octet>)
      requires Chained() && used < BLOCK
      modifies this`h, this`whole, this`used, block
      ensures Chained() && used < BLOCK
      ensures Fed() == old(Fed()) + data
    {
      hide Absorb;
      var rest := data;
      if used != 0 {
        if BLOCK - used > |data| {
          Copy(used, data);
          used := used + |data|;
          return;
        }
        rest := TopUp(data);
      }
      assert whole + rest == old(Fed()) + data;
      rest := Bulk(rest);
      Copy(0, rest);
      used := |rest|;
      assert block[..used] == rest;
    }

    method Update(data: seq<Octet>)
      requires Valid()
      modifies this, block
      ensures Valid() && block == old(block)
      ensures Fed() == old(Fed()) + data
    {
      hide Absorb;
      CounterWraps(|Fed()|, |data|);
      bytes := (bytes + |data|) % TWO64;
      Take(data);
    }

    method Final() returns (result: seq<Octet>)
      requires Valid()
      modifies this, block
      ensures result == Hash(old(Fed()))
    {
      hide LengthField, Absorb, WordBytes;
      Close(LengthField(bytes * 8 % TWO64));
      result := Serialize();
    }

    // The 0x80 octet and, when the length field no longer fits, a block of its own.
    method Mark(ghost field: seq<Octet>) returns (u: nat)
      requires Chained() && used < BLOCK && |field| == 8
      modifies this`h, this`whole, block
      ensures Chained() && u <= 56
      ensures whole + block[..u] + Zeros(56 - u) + field == PadWith(old(Fed()), field)
    {
      hide Absorb;
      u := used;
      ghost var zeros := PadZeros(|Fed()|);
      block[u] := Octet(0x80);
      u := u + 1;
      assert block[..u] == old(block[..used]) + [Octet(0x80)];
      if u > 56 {
        assert zeros == BLOCK - u + 56;
        assert Zeros(zeros) == Zeros(BLOCK - u) + Zeros(56);
        Copy(u, Zeros(BLOCK - u));
        assert block[..] == block[..u + (BLOCK - u)];
        Block(block[..]);
        u := 0;
      } else {
        assert zeros == 56 - u;
      }
    }

    method Close(field: seq<Octet>)
      requires Chained() && used < BLOCK && |field| == 8
      modifies this`h, this`whole, block
      ensures Chained() && whole == PadWith(old(Fed()), field)
    {
      hide Absorb;
      var u := Mark(field);
      Copy(u, Zeros(56 - u));
      Copy(56, field);
      assert block[..] == block[..56 + |field|];
      Block(block[..]);
    }

    method Serialize() returns (result: seq<Octet>)
      requires |h| == 8
      ensures result == Output(h)
    {
      result := [];
      for i := 0 to |h|
        invariant result == Output(h[..i])
      {
        result := result + WordBytes(h[i]);
        OutputConcat(h[..i], [h[i]]);
        assert h[..i + 1] == h[..i] + [h[i]];
        assert Output([h[i]]) == WordBytes(h[i]) + Output([]);
      }
      assert h[..|h|] == h;
    }
  }

  ghost function Concat(parts: seq<seq<Octet>>): seq<Octet> {
    if parts == [] then [] else Concat(parts[..|parts| - 1]) + parts[|parts| - 1]
  }

  // init, one update per part, final: however the message was cut, the digest is the
  // standard's hash of the whole.
  method Digest(parts: seq<seq<Octet>>) returns (result: seq<Octet>)
    ensures result == Hash(Concat(parts))
  {
    var sha := new Sha();
    for i := 0 to |parts|
      invariant sha.Valid() && fresh(sha) && fresh(sha.block)
      invariant sha.Fed() == Concat(parts[..i])
    {
      assert parts[..i + 1][..i] == parts[..i];
      sha.Update(parts[i]);
    }
    assert parts[..|parts|] == parts;
    result := sha.Final();
  }
}
