/** The constants of module/src/body/ngx_http_waf_sha256.c against their definition in FIPS 180-4, and
    steps of its first example message.
 */
module Sha256Standard {
  import opened Sha256

  // ---------------------------------------------------------------------------
  // Constants: fractions of the roots of primes (sections 4.2.2 and 5.3.3)
  // ---------------------------------------------------------------------------

  const TWO32: nat := 0x1_0000_0000
  const TWO96: nat := TWO32 * TWO64

  // The first 64 primes.
  function Prime(i: nat): nat {
    match i
    case 0 => 2 case 1 => 3 case 2 => 5 case 3 => 7 case 4 => 11 case 5 => 13
    case 6 => 17 case 7 => 19 case 8 => 23 case 9 => 29 case 10 => 31 case 11 => 37
    case 12 => 41 case 13 => 43 case 14 => 47 case 15 => 53 case 16 => 59 case 17 => 61
    case 18 => 67 case 19 => 71 case 20 => 73 case 21 => 79 case 22 => 83 case 23 => 89
    case 24 => 97 case 25 => 101 case 26 => 103 case 27 => 107 case 28 => 109 case 29 => 113
    case 30 => 127 case 31 => 131 case 32 => 137 case 33 => 139 case 34 => 149 case 35 => 151
    case 36 => 157 case 37 => 163 case 38 => 167 case 39 => 173 case 40 => 179 case 41 => 181
    case 42 => 191 case 43 => 193 case 44 => 197 case 45 => 199 case 46 => 211 case 47 => 223
    case 48 => 227 case 49 => 229 case 50 => 233 case 51 => 239 case 52 => 241 case 53 => 251
    case 54 => 257 case 55 => 263 case 56 => 269 case 57 => 271 case 58 => 277 case 59 => 281
    case 60 => 283 case 61 => 293 case 62 => 307 case _ => 311
  }

  // The first 32 bits behind the point of the cube root of p, and of its square root.
  ghost predicate CubeFraction(p: nat, w: nat) {
    w < TWO32 && exists whole: nat :: Between(Cube(whole * TWO32 + w), p * TWO96, Cube(whole * TWO32 + w + 1))
  }

  ghost predicate SquareFraction(p: nat, w: nat) {
    w < TWO32 && exists whole: nat :: Between(Square(whole * TWO32 + w), p * TWO64, Square(whole * TWO32 + w + 1))
  }

  predicate Between(low: nat, x: nat, high: nat) { low <= x < high }

  function Cube(n: nat): nat { n * n * n }

  function Square(n: nat): nat { n * n }

  // The whole parts of the roots are at most 6 and 4; these are the fractions.
  function Fraction(i: nat): nat {
    match i
    case 0 => 0x428a2f98 case 1 => 0x71374491 case 2 => 0xb5c0fbcf case 3 => 0xe9b5dba5
    case 4 => 0x3956c25b case 5 => 0x59f111f1 case 6 => 0x923f82a4 case 7 => 0xab1c5ed5
    case 8 => 0xd807aa98 case 9 => 0x12835b01 case 10 => 0x243185be case 11 => 0x550c7dc3
    case 12 => 0x72be5d74 case 13 => 0x80deb1fe case 14 => 0x9bdc06a7 case 15 => 0xc19bf174
    case 16 => 0xe49b69c1 case 17 => 0xefbe4786 case 18 => 0x0fc19dc6 case 19 => 0x240ca1cc
    case 20 => 0x2de92c6f case 21 => 0x4a7484aa case 22 => 0x5cb0a9dc case 23 => 0x76f988da
    case 24 => 0x983e5152 case 25 => 0xa831c66d case 26 => 0xb00327c8 case 27 => 0xbf597fc7
    case 28 => 0xc6e00bf3 case 29 => 0xd5a79147 case 30 => 0x06ca6351 case 31 => 0x14292967
    case 32 => 0x27b70a85 case 33 => 0x2e1b2138 case 34 => 0x4d2c6dfc case 35 => 0x53380d13
    case 36 => 0x650a7354 case 37 => 0x766a0abb case 38 => 0x81c2c92e case 39 => 0x92722c85
    case 40 => 0xa2bfe8a1 case 41 => 0xa81a664b case 42 => 0xc24b8b70 case 43 => 0xc76c51a3
    case 44 => 0xd192e819 case 45 => 0xd6990624 case 46 => 0xf40e3585 case 47 => 0x106aa070
    case 48 => 0x19a4c116 case 49 => 0x1e376c08 case 50 => 0x2748774c case 51 => 0x34b0bcb5
    case 52 => 0x391c0cb3 case 53 => 0x4ed8aa4a case 54 => 0x5b9cca4f case 55 => 0x682e6ff3
    case 56 => 0x748f82ee case 57 => 0x78a5636f case 58 => 0x84c87814 case 59 => 0x8cc70208
    case 60 => 0x90befffa case 61 => 0xa4506ceb case 62 => 0xbef9a3f7 case _ => 0xc67178f2
  }

  lemma {:induction false} Cubes0()
    ensures forall i | 0 <= i < 8 :: CubeFraction(Prime(i), Fraction(i))
  {
    assert Between(Cube(1 * TWO32 + 0x428a2f98), 2 * TWO96, Cube(1 * TWO32 + 0x428a2f98 + 1));
    assert Between(Cube(1 * TWO32 + 0x71374491), 3 * TWO96, Cube(1 * TWO32 + 0x71374491 + 1));
    assert Between(Cube(1 * TWO32 + 0xb5c0fbcf), 5 * TWO96, Cube(1 * TWO32 + 0xb5c0fbcf + 1));
    assert Between(Cube(1 * TWO32 + 0xe9b5dba5), 7 * TWO96, Cube(1 * TWO32 + 0xe9b5dba5 + 1));
    assert Between(Cube(2 * TWO32 + 0x3956c25b), 11 * TWO96, Cube(2 * TWO32 + 0x3956c25b + 1));
    assert Between(Cube(2 * TWO32 + 0x59f111f1), 13 * TWO96, Cube(2 * TWO32 + 0x59f111f1 + 1));
    assert Between(Cube(2 * TWO32 + 0x923f82a4), 17 * TWO96, Cube(2 * TWO32 + 0x923f82a4 + 1));
    assert Between(Cube(2 * TWO32 + 0xab1c5ed5), 19 * TWO96, Cube(2 * TWO32 + 0xab1c5ed5 + 1));
  }

  lemma {:induction false} Cubes8()
    ensures forall i | 8 <= i < 16 :: CubeFraction(Prime(i), Fraction(i))
  {
    assert Between(Cube(2 * TWO32 + 0xd807aa98), 23 * TWO96, Cube(2 * TWO32 + 0xd807aa98 + 1));
    assert Between(Cube(3 * TWO32 + 0x12835b01), 29 * TWO96, Cube(3 * TWO32 + 0x12835b01 + 1));
    assert Between(Cube(3 * TWO32 + 0x243185be), 31 * TWO96, Cube(3 * TWO32 + 0x243185be + 1));
    assert Between(Cube(3 * TWO32 + 0x550c7dc3), 37 * TWO96, Cube(3 * TWO32 + 0x550c7dc3 + 1));
    assert Between(Cube(3 * TWO32 + 0x72be5d74), 41 * TWO96, Cube(3 * TWO32 + 0x72be5d74 + 1));
    assert Between(Cube(3 * TWO32 + 0x80deb1fe), 43 * TWO96, Cube(3 * TWO32 + 0x80deb1fe + 1));
    assert Between(Cube(3 * TWO32 + 0x9bdc06a7), 47 * TWO96, Cube(3 * TWO32 + 0x9bdc06a7 + 1));
    assert Between(Cube(3 * TWO32 + 0xc19bf174), 53 * TWO96, Cube(3 * TWO32 + 0xc19bf174 + 1));
  }

  lemma {:induction false} Cubes16()
    ensures forall i | 16 <= i < 24 :: CubeFraction(Prime(i), Fraction(i))
  {
    assert Between(Cube(3 * TWO32 + 0xe49b69c1), 59 * TWO96, Cube(3 * TWO32 + 0xe49b69c1 + 1));
    assert Between(Cube(3 * TWO32 + 0xefbe4786), 61 * TWO96, Cube(3 * TWO32 + 0xefbe4786 + 1));
    assert Between(Cube(4 * TWO32 + 0x0fc19dc6), 67 * TWO96, Cube(4 * TWO32 + 0x0fc19dc6 + 1));
    assert Between(Cube(4 * TWO32 + 0x240ca1cc), 71 * TWO96, Cube(4 * TWO32 + 0x240ca1cc + 1));
    assert Between(Cube(4 * TWO32 + 0x2de92c6f), 73 * TWO96, Cube(4 * TWO32 + 0x2de92c6f + 1));
    assert Between(Cube(4 * TWO32 + 0x4a7484aa), 79 * TWO96, Cube(4 * TWO32 + 0x4a7484aa + 1));
    assert Between(Cube(4 * TWO32 + 0x5cb0a9dc), 83 * TWO96, Cube(4 * TWO32 + 0x5cb0a9dc + 1));
    assert Between(Cube(4 * TWO32 + 0x76f988da), 89 * TWO96, Cube(4 * TWO32 + 0x76f988da + 1));
  }

  lemma {:induction false} Cubes24()
    ensures forall i | 24 <= i < 32 :: CubeFraction(Prime(i), Fraction(i))
  {
    assert Between(Cube(4 * TWO32 + 0x983e5152), 97 * TWO96, Cube(4 * TWO32 + 0x983e5152 + 1));
    assert Between(Cube(4 * TWO32 + 0xa831c66d), 101 * TWO96, Cube(4 * TWO32 + 0xa831c66d + 1));
    assert Between(Cube(4 * TWO32 + 0xb00327c8), 103 * TWO96, Cube(4 * TWO32 + 0xb00327c8 + 1));
    assert Between(Cube(4 * TWO32 + 0xbf597fc7), 107 * TWO96, Cube(4 * TWO32 + 0xbf597fc7 + 1));
    assert Between(Cube(4 * TWO32 + 0xc6e00bf3), 109 * TWO96, Cube(4 * TWO32 + 0xc6e00bf3 + 1));
    assert Between(Cube(4 * TWO32 + 0xd5a79147), 113 * TWO96, Cube(4 * TWO32 + 0xd5a79147 + 1));
    assert Between(Cube(5 * TWO32 + 0x06ca6351), 127 * TWO96, Cube(5 * TWO32 + 0x06ca6351 + 1));
    assert Between(Cube(5 * TWO32 + 0x14292967), 131 * TWO96, Cube(5 * TWO32 + 0x14292967 + 1));
  }

  lemma {:induction false} Cubes32()
    ensures forall i | 32 <= i < 40 :: CubeFraction(Prime(i), Fraction(i))
  {
    assert Between(Cube(5 * TWO32 + 0x27b70a85), 137 * TWO96, Cube(5 * TWO32 + 0x27b70a85 + 1));
    assert Between(Cube(5 * TWO32 + 0x2e1b2138), 139 * TWO96, Cube(5 * TWO32 + 0x2e1b2138 + 1));
    assert Between(Cube(5 * TWO32 + 0x4d2c6dfc), 149 * TWO96, Cube(5 * TWO32 + 0x4d2c6dfc + 1));
    assert Between(Cube(5 * TWO32 + 0x53380d13), 151 * TWO96, Cube(5 * TWO32 + 0x53380d13 + 1));
    assert Between(Cube(5 * TWO32 + 0x650a7354), 157 * TWO96, Cube(5 * TWO32 + 0x650a7354 + 1));
    assert Between(Cube(5 * TWO32 + 0x766a0abb), 163 * TWO96, Cube(5 * TWO32 + 0x766a0abb + 1));
    assert Between(Cube(5 * TWO32 + 0x81c2c92e), 167 * TWO96, Cube(5 * TWO32 + 0x81c2c92e + 1));
    assert Between(Cube(5 * TWO32 + 0x92722c85), 173 * TWO96, Cube(5 * TWO32 + 0x92722c85 + 1));
  }

  lemma {:induction false} Cubes40()
    ensures forall i | 40 <= i < 48 :: CubeFraction(Prime(i), Fraction(i))
  {
    assert Between(Cube(5 * TWO32 + 0xa2bfe8a1), 179 * TWO96, Cube(5 * TWO32 + 0xa2bfe8a1 + 1));
    assert Between(Cube(5 * TWO32 + 0xa81a664b), 181 * TWO96, Cube(5 * TWO32 + 0xa81a664b + 1));
    assert Between(Cube(5 * TWO32 + 0xc24b8b70), 191 * TWO96, Cube(5 * TWO32 + 0xc24b8b70 + 1));
    assert Between(Cube(5 * TWO32 + 0xc76c51a3), 193 * TWO96, Cube(5 * TWO32 + 0xc76c51a3 + 1));
    assert Between(Cube(5 * TWO32 + 0xd192e819), 197 * TWO96, Cube(5 * TWO32 + 0xd192e819 + 1));
    assert Between(Cube(5 * TWO32 + 0xd6990624), 199 * TWO96, Cube(5 * TWO32 + 0xd6990624 + 1));
    assert Between(Cube(5 * TWO32 + 0xf40e3585), 211 * TWO96, Cube(5 * TWO32 + 0xf40e3585 + 1));
    assert Between(Cube(6 * TWO32 + 0x106aa070), 223 * TWO96, Cube(6 * TWO32 + 0x106aa070 + 1));
  }

  lemma {:induction false} Cubes48()
    ensures forall i | 48 <= i < 56 :: CubeFraction(Prime(i), Fraction(i))
  {
    assert Between(Cube(6 * TWO32 + 0x19a4c116), 227 * TWO96, Cube(6 * TWO32 + 0x19a4c116 + 1));
    assert Between(Cube(6 * TWO32 + 0x1e376c08), 229 * TWO96, Cube(6 * TWO32 + 0x1e376c08 + 1));
    assert Between(Cube(6 * TWO32 + 0x2748774c), 233 * TWO96, Cube(6 * TWO32 + 0x2748774c + 1));
    assert Between(Cube(6 * TWO32 + 0x34b0bcb5), 239 * TWO96, Cube(6 * TWO32 + 0x34b0bcb5 + 1));
    assert Between(Cube(6 * TWO32 + 0x391c0cb3), 241 * TWO96, Cube(6 * TWO32 + 0x391c0cb3 + 1));
    assert Between(Cube(6 * TWO32 + 0x4ed8aa4a), 251 * TWO96, Cube(6 * TWO32 + 0x4ed8aa4a + 1));
    assert Between(Cube(6 * TWO32 + 0x5b9cca4f), 257 * TWO96, Cube(6 * TWO32 + 0x5b9cca4f + 1));
    assert Between(Cube(6 * TWO32 + 0x682e6ff3), 263 * TWO96, Cube(6 * TWO32 + 0x682e6ff3 + 1));
  }

  lemma {:induction false} Cubes56()
    ensures forall i | 56 <= i < 64 :: CubeFraction(Prime(i), Fraction(i))
  {
    assert Between(Cube(6 * TWO32 + 0x748f82ee), 269 * TWO96, Cube(6 * TWO32 + 0x748f82ee + 1));
    assert Between(Cube(6 * TWO32 + 0x78a5636f), 271 * TWO96, Cube(6 * TWO32 + 0x78a5636f + 1));
    assert Between(Cube(6 * TWO32 + 0x84c87814), 277 * TWO96, Cube(6 * TWO32 + 0x84c87814 + 1));
    assert Between(Cube(6 * TWO32 + 0x8cc70208), 281 * TWO96, Cube(6 * TWO32 + 0x8cc70208 + 1));
    assert Between(Cube(6 * TWO32 + 0x90befffa), 283 * TWO96, Cube(6 * TWO32 + 0x90befffa + 1));
    assert Between(Cube(6 * TWO32 + 0xa4506ceb), 293 * TWO96, Cube(6 * TWO32 + 0xa4506ceb + 1));
    assert Between(Cube(6 * TWO32 + 0xbef9a3f7), 307 * TWO96, Cube(6 * TWO32 + 0xbef9a3f7 + 1));
    assert Between(Cube(6 * TWO32 + 0xc67178f2), 311 * TWO96, Cube(6 * TWO32 + 0xc67178f2 + 1));
  }

  lemma {:induction false} Fractions0()
    ensures forall i | 0 <= i < 16 :: K[i].bits as nat == Fraction(i)
  {
    assert K[0] == Word(0x428a2f98) && K[1] == Word(0x71374491);
    assert K[2] == Word(0xb5c0fbcf) && K[3] == Word(0xe9b5dba5);
    assert K[4] == Word(0x3956c25b) && K[5] == Word(0x59f111f1);
    assert K[6] == Word(0x923f82a4) && K[7] == Word(0xab1c5ed5);
    assert K[8] == Word(0xd807aa98) && K[9] == Word(0x12835b01);
    assert K[10] == Word(0x243185be) && K[11] == Word(0x550c7dc3);
    assert K[12] == Word(0x72be5d74) && K[13] == Word(0x80deb1fe);
    assert K[14] == Word(0x9bdc06a7) && K[15] == Word(0xc19bf174);
  }

  lemma {:induction false} Fractions16()
    ensures forall i | 16 <= i < 32 :: K[i].bits as nat == Fraction(i)
  {
    assert K[16] == Word(0xe49b69c1) && K[17] == Word(0xefbe4786);
    assert K[18] == Word(0x0fc19dc6) && K[19] == Word(0x240ca1cc);
    assert K[20] == Word(0x2de92c6f) && K[21] == Word(0x4a7484aa);
    assert K[22] == Word(0x5cb0a9dc) && K[23] == Word(0x76f988da);
    assert K[24] == Word(0x983e5152) && K[25] == Word(0xa831c66d);
    assert K[26] == Word(0xb00327c8) && K[27] == Word(0xbf597fc7);
    assert K[28] == Word(0xc6e00bf3) && K[29] == Word(0xd5a79147);
    assert K[30] == Word(0x06ca6351) && K[31] == Word(0x14292967);
  }

  lemma {:induction false} Fractions32()
    ensures forall i | 32 <= i < 48 :: K[i].bits as nat == Fraction(i)
  {
    assert K[32] == Word(0x27b70a85) && K[33] == Word(0x2e1b2138);
    assert K[34] == Word(0x4d2c6dfc) && K[35] == Word(0x53380d13);
    assert K[36] == Word(0x650a7354) && K[37] == Word(0x766a0abb);
    assert K[38] == Word(0x81c2c92e) && K[39] == Word(0x92722c85);
    assert K[40] == Word(0xa2bfe8a1) && K[41] == Word(0xa81a664b);
    assert K[42] == Word(0xc24b8b70) && K[43] == Word(0xc76c51a3);
    assert K[44] == Word(0xd192e819) && K[45] == Word(0xd6990624);
    assert K[46] == Word(0xf40e3585) && K[47] == Word(0x106aa070);
  }

  lemma {:induction false} Fractions48()
    ensures forall i | 48 <= i < 64 :: K[i].bits as nat == Fraction(i)
  {
    assert K[48] == Word(0x19a4c116) && K[49] == Word(0x1e376c08);
    assert K[50] == Word(0x2748774c) && K[51] == Word(0x34b0bcb5);
    assert K[52] == Word(0x391c0cb3) && K[53] == Word(0x4ed8aa4a);
    assert K[54] == Word(0x5b9cca4f) && K[55] == Word(0x682e6ff3);
    assert K[56] == Word(0x748f82ee) && K[57] == Word(0x78a5636f);
    assert K[58] == Word(0x84c87814) && K[59] == Word(0x8cc70208);
    assert K[60] == Word(0x90befffa) && K[61] == Word(0xa4506ceb);
    assert K[62] == Word(0xbef9a3f7) && K[63] == Word(0xc67178f2);
  }

  lemma {:induction false} Squares()
    ensures forall i | 0 <= i < 8 :: SquareFraction(Prime(i), H0[i].bits as nat)
  {
    assert H0[0] == Word(0x6a09e667);
    assert Between(Square(1 * TWO32 + 0x6a09e667), 2 * TWO64, Square(1 * TWO32 + 0x6a09e667 + 1));
    assert H0[1] == Word(0xbb67ae85);
    assert Between(Square(1 * TWO32 + 0xbb67ae85), 3 * TWO64, Square(1 * TWO32 + 0xbb67ae85 + 1));
    assert H0[2] == Word(0x3c6ef372);
    assert Between(Square(2 * TWO32 + 0x3c6ef372), 5 * TWO64, Square(2 * TWO32 + 0x3c6ef372 + 1));
    assert H0[3] == Word(0xa54ff53a);
    assert Between(Square(2 * TWO32 + 0xa54ff53a), 7 * TWO64, Square(2 * TWO32 + 0xa54ff53a + 1));
    assert H0[4] == Word(0x510e527f);
    assert Between(Square(3 * TWO32 + 0x510e527f), 11 * TWO64, Square(3 * TWO32 + 0x510e527f + 1));
    assert H0[5] == Word(0x9b05688c);
    assert Between(Square(3 * TWO32 + 0x9b05688c), 13 * TWO64, Square(3 * TWO32 + 0x9b05688c + 1));
    assert H0[6] == Word(0x1f83d9ab);
    assert Between(Square(4 * TWO32 + 0x1f83d9ab), 17 * TWO64, Square(4 * TWO32 + 0x1f83d9ab + 1));
    assert H0[7] == Word(0x5be0cd19);
    assert Between(Square(4 * TWO32 + 0x5be0cd19), 19 * TWO64, Square(4 * TWO32 + 0x5be0cd19 + 1));
  }

  // Every constant of the rounds is the fraction of the cube root of its prime, every word of the
  // initial state that of a square root.
  lemma {:induction false} ConstantsAreRoots()
    ensures forall i | 0 <= i < 64 :: CubeFraction(Prime(i), K[i].bits as nat)
    ensures forall i | 0 <= i < 8 :: SquareFraction(Prime(i), H0[i].bits as nat)
  {
    hide Prime, Fraction, CubeFraction, SquareFraction;
    Cubes0();
    Cubes8();
    Cubes16();
    Cubes24();
    Cubes32();
    Cubes40();
    Cubes48();
    Cubes56();
    Fractions0();
    Fractions16();
    Fractions32();
    Fractions48();
    Squares();
  }

  // ---------------------------------------------------------------------------
  // Steps of a published example
  // ---------------------------------------------------------------------------

  // The message "abc" in its one block: words of the schedule, from the words before them.
  lemma {:induction false} ScheduleOfAbc()
    ensures NextWord(Word(0x00000000), Word(0x00000000), Word(0x00000000), Word(0x61626380)) == Word(0x61626380)
    ensures NextWord(Word(0x00000018), Word(0x00000000), Word(0x00000000), Word(0x00000000)) == Word(0x000f0000)
    ensures NextWord(Word(0x61626380), Word(0x00000000), Word(0x00000000), Word(0x00000000)) == Word(0x7da86405)
    ensures NextWord(Word(0x9d209d67), Word(0xe2e2c38e), Word(0x00000018), Word(0x00000000)) == Word(0x702138a4)
    ensures NextWord(Word(0xec8726cb), Word(0xc8215c1a), Word(0x61626380), Word(0x00000018)) == Word(0xd3b7973b)
    ensures NextWord(Word(0x702138a4), Word(0xb73679a2), Word(0x000f0000), Word(0x61626380)) == Word(0x93f5997f)
    ensures NextWord(Word(0xd3b7973b), Word(0xe5bc3909), Word(0x7da86405), Word(0x000f0000)) == Word(0x3b68ba73)
  {}

  // Octets make words, and words and the length octets, the highest first.
  lemma {:induction false} OctetsToWord()
    ensures BigEndianWord([Octet(0x61), Octet(0x62), Octet(0x63), Octet(0x80)]) == Word(0x61626380)
  {}

  lemma {:induction false} WordToOctets()
    ensures WordBytes(Word(0x61626380)) == [Octet(0x61), Octet(0x62), Octet(0x63), Octet(0x80)]
  {}

  lemma {:induction false} LengthToOctets()
    ensures LengthField(24)[7] == Octet(24) && LengthField(0x100)[6] == Octet(1) && LengthField(0x10000)[5] == Octet(1)
  {}

  // The working variables before and after its first two rounds.
  function Trace(t: nat): Registers {
    match t
    case 0 =>
      Registers(Word(0x6a09e667), Word(0xbb67ae85), Word(0x3c6ef372), Word(0xa54ff53a),
                Word(0x510e527f), Word(0x9b05688c), Word(0x1f83d9ab), Word(0x5be0cd19))
    case 1 =>
      Registers(Word(0x5d6aebcd), Word(0x6a09e667), Word(0xbb67ae85), Word(0x3c6ef372),
                Word(0xfa2a4622), Word(0x510e527f), Word(0x9b05688c), Word(0x1f83d9ab))
    case _ =>
      Registers(Word(0x5a6ad9ad), Word(0x5d6aebcd), Word(0x6a09e667), Word(0xbb67ae85),
                Word(0x78ce7989), Word(0xfa2a4622), Word(0x510e527f), Word(0x9b05688c))
  }

  lemma {:induction false} Round0OfAbc()
    ensures Round(Trace(0), Word(0x428a2f98), Word(0x61626380)) == Trace(1)
  {}

  lemma {:induction false} Round1OfAbc()
    ensures Round(Trace(1), Word(0x71374491), Word(0x00000000)) == Trace(2)
  {}
}
