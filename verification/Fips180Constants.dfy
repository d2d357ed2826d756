/**
 The constants of SHA-256 as FIPS 180-4 derives them.  Section 4.2.2: K holds the first 32 bits of the fractional parts
 of the cube roots of the first 64 primes.  Section 5.3.3: the initial hash value holds those of the square roots of the
 first eight.
 */
module Fips180Constants {
  import opened Fips180
  import Arith

  const PRIMES: seq<seq<nat>> := [
    [2, 3, 5, 7, 11, 13, 17, 19],
    [23, 29, 31, 37, 41, 43, 47, 53],
    [59, 61, 67, 71, 73, 79, 83, 89],
    [97, 101, 103, 107, 109, 113, 127, 131],
    [137, 139, 149, 151, 157, 163, 167, 173],
    [179, 181, 191, 193, 197, 199, 211, 223],
    [227, 229, 233, 239, 241, 251, 257, 263],
    [269, 271, 277, 281, 283, 293, 307, 311]
  ]

  // Cube roots of these, square roots of the first eight, in units of 2^-32
  const CUBE_ROOTS: seq<seq<nat>> := [
    [0x1428a2f98, 0x171374491, 0x1b5c0fbcf, 0x1e9b5dba5, 0x23956c25b, 0x259f111f1, 0x2923f82a4, 0x2ab1c5ed5],
    [0x2d807aa98, 0x312835b01, 0x3243185be, 0x3550c7dc3, 0x372be5d74, 0x380deb1fe, 0x39bdc06a7, 0x3c19bf174],
    [0x3e49b69c1, 0x3efbe4786, 0x40fc19dc6, 0x4240ca1cc, 0x42de92c6f, 0x44a7484aa, 0x45cb0a9dc, 0x476f988da],
    [0x4983e5152, 0x4a831c66d, 0x4b00327c8, 0x4bf597fc7, 0x4c6e00bf3, 0x4d5a79147, 0x506ca6351, 0x514292967],
    [0x527b70a85, 0x52e1b2138, 0x54d2c6dfc, 0x553380d13, 0x5650a7354, 0x5766a0abb, 0x581c2c92e, 0x592722c85],
    [0x5a2bfe8a1, 0x5a81a664b, 0x5c24b8b70, 0x5c76c51a3, 0x5d192e819, 0x5d6990624, 0x5f40e3585, 0x6106aa070],
    [0x619a4c116, 0x61e376c08, 0x62748774c, 0x634b0bcb5, 0x6391c0cb3, 0x64ed8aa4a, 0x65b9cca4f, 0x6682e6ff3],
    [0x6748f82ee, 0x678a5636f, 0x684c87814, 0x68cc70208, 0x690befffa, 0x6a4506ceb, 0x6bef9a3f7, 0x6c67178f2]
  ]

  const SQUARE_ROOTS: seq<nat> := [
    0x16a09e667, 0x1bb67ae85, 0x23c6ef372, 0x2a54ff53a, 0x3510e527f, 0x39b05688c, 0x41f83d9ab, 0x45be0cd19
  ]

  // c is the root rounded down.
  predicate IsCubeRoot(c: nat, p: nat) {
    c * c * c <= p * 0x1_0000_0000_0000_0000_0000_0000 < (c + 1) * (c + 1) * (c + 1)
  }

  predicate IsSquareRoot(c: nat, p: nat) { c * c <= p * 0x1_0000_0000_0000_0000 < (c + 1) * (c + 1) }

  predicate HasCubeRoot(k: Word, c: nat, p: nat) { IsCubeRoot(c, p) && k as nat == c % 0x1_0000_0000 }

  predicate HasSquareRoot(h: Word, c: nat, p: nat) { IsSquareRoot(c, p) && h as nat == c % 0x1_0000_0000 }

  lemma CubeRoots0()
    ensures forall i | 0 <= i < 8 :: HasCubeRoot(K_ROWS[0][i], CUBE_ROOTS[0][i], PRIMES[0][i])
  {
    var ks, cs, ps := K_ROWS[0], CUBE_ROOTS[0], PRIMES[0];
    assert HasCubeRoot(ks[0], cs[0], ps[0]);
    assert HasCubeRoot(ks[1], cs[1], ps[1]);
    assert HasCubeRoot(ks[2], cs[2], ps[2]);
    assert HasCubeRoot(ks[3], cs[3], ps[3]);
    assert HasCubeRoot(ks[4], cs[4], ps[4]);
    assert HasCubeRoot(ks[5], cs[5], ps[5]);
    assert HasCubeRoot(ks[6], cs[6], ps[6]);
    assert HasCubeRoot(ks[7], cs[7], ps[7]);
  }

  lemma CubeRoots1()
    ensures forall i | 0 <= i < 8 :: HasCubeRoot(K_ROWS[1][i], CUBE_ROOTS[1][i], PRIMES[1][i])
  {
    var ks, cs, ps := K_ROWS[1], CUBE_ROOTS[1], PRIMES[1];
    assert HasCubeRoot(ks[0], cs[0], ps[0]);
    assert HasCubeRoot(ks[1], cs[1], ps[1]);
    assert HasCubeRoot(ks[2], cs[2], ps[2]);
    assert HasCubeRoot(ks[3], cs[3], ps[3]);
    assert HasCubeRoot(ks[4], cs[4], ps[4]);
    assert HasCubeRoot(ks[5], cs[5], ps[5]);
    assert HasCubeRoot(ks[6], cs[6], ps[6]);
    assert HasCubeRoot(ks[7], cs[7], ps[7]);
  }

  lemma CubeRoots2()
    ensures forall i | 0 <= i < 8 :: HasCubeRoot(K_ROWS[2][i], CUBE_ROOTS[2][i], PRIMES[2][i])
  {
    var ks, cs, ps := K_ROWS[2], CUBE_ROOTS[2], PRIMES[2];
    assert HasCubeRoot(ks[0], cs[0], ps[0]);
    assert HasCubeRoot(ks[1], cs[1], ps[1]);
    assert HasCubeRoot(ks[2], cs[2], ps[2]);
    assert HasCubeRoot(ks[3], cs[3], ps[3]);
    assert HasCubeRoot(ks[4], cs[4], ps[4]);
    assert HasCubeRoot(ks[5], cs[5], ps[5]);
    assert HasCubeRoot(ks[6], cs[6], ps[6]);
    assert HasCubeRoot(ks[7], cs[7], ps[7]);
  }

  lemma CubeRoots3()
    ensures forall i | 0 <= i < 8 :: HasCubeRoot(K_ROWS[3][i], CUBE_ROOTS[3][i], PRIMES[3][i])
  {
    var ks, cs, ps := K_ROWS[3], CUBE_ROOTS[3], PRIMES[3];
    assert HasCubeRoot(ks[0], cs[0], ps[0]);
    assert HasCubeRoot(ks[1], cs[1], ps[1]);
    assert HasCubeRoot(ks[2], cs[2], ps[2]);
    assert HasCubeRoot(ks[3], cs[3], ps[3]);
    assert HasCubeRoot(ks[4], cs[4], ps[4]);
    assert HasCubeRoot(ks[5], cs[5], ps[5]);
    assert HasCubeRoot(ks[6], cs[6], ps[6]);
    assert HasCubeRoot(ks[7], cs[7], ps[7]);
  }

  lemma CubeRoots4()
    ensures forall i | 0 <= i < 8 :: HasCubeRoot(K_ROWS[4][i], CUBE_ROOTS[4][i], PRIMES[4][i])
  {
    var ks, cs, ps := K_ROWS[4], CUBE_ROOTS[4], PRIMES[4];
    assert HasCubeRoot(ks[0], cs[0], ps[0]);
    assert HasCubeRoot(ks[1], cs[1], ps[1]);
    assert HasCubeRoot(ks[2], cs[2], ps[2]);
    assert HasCubeRoot(ks[3], cs[3], ps[3]);
    assert HasCubeRoot(ks[4], cs[4], ps[4]);
    assert HasCubeRoot(ks[5], cs[5], ps[5]);
    assert HasCubeRoot(ks[6], cs[6], ps[6]);
    assert HasCubeRoot(ks[7], cs[7], ps[7]);
  }

  lemma CubeRoots5()
    ensures forall i | 0 <= i < 8 :: HasCubeRoot(K_ROWS[5][i], CUBE_ROOTS[5][i], PRIMES[5][i])
  {
    var ks, cs, ps := K_ROWS[5], CUBE_ROOTS[5], PRIMES[5];
    assert HasCubeRoot(ks[0], cs[0], ps[0]);
    assert HasCubeRoot(ks[1], cs[1], ps[1]);
    assert HasCubeRoot(ks[2], cs[2], ps[2]);
    assert HasCubeRoot(ks[3], cs[3], ps[3]);
    assert HasCubeRoot(ks[4], cs[4], ps[4]);
    assert HasCubeRoot(ks[5], cs[5], ps[5]);
    assert HasCubeRoot(ks[6], cs[6], ps[6]);
    assert HasCubeRoot(ks[7], cs[7], ps[7]);
  }

  lemma CubeRoots6()
    ensures forall i | 0 <= i < 8 :: HasCubeRoot(K_ROWS[6][i], CUBE_ROOTS[6][i], PRIMES[6][i])
  {
    var ks, cs, ps := K_ROWS[6], CUBE_ROOTS[6], PRIMES[6];
    assert HasCubeRoot(ks[0], cs[0], ps[0]);
    assert HasCubeRoot(ks[1], cs[1], ps[1]);
    assert HasCubeRoot(ks[2], cs[2], ps[2]);
    assert HasCubeRoot(ks[3], cs[3], ps[3]);
    assert HasCubeRoot(ks[4], cs[4], ps[4]);
    assert HasCubeRoot(ks[5], cs[5], ps[5]);
    assert HasCubeRoot(ks[6], cs[6], ps[6]);
    assert HasCubeRoot(ks[7], cs[7], ps[7]);
  }

  lemma CubeRoots7()
    ensures forall i | 0 <= i < 8 :: HasCubeRoot(K_ROWS[7][i], CUBE_ROOTS[7][i], PRIMES[7][i])
  {
    var ks, cs, ps := K_ROWS[7], CUBE_ROOTS[7], PRIMES[7];
    assert HasCubeRoot(ks[0], cs[0], ps[0]);
    assert HasCubeRoot(ks[1], cs[1], ps[1]);
    assert HasCubeRoot(ks[2], cs[2], ps[2]);
    assert HasCubeRoot(ks[3], cs[3], ps[3]);
    assert HasCubeRoot(ks[4], cs[4], ps[4]);
    assert HasCubeRoot(ks[5], cs[5], ps[5]);
    assert HasCubeRoot(ks[6], cs[6], ps[6]);
    assert HasCubeRoot(ks[7], cs[7], ps[7]);
  }

  lemma SquareRoots()
    ensures forall i | 0 <= i < 8 :: HasSquareRoot(H0[i], SQUARE_ROOTS[i], PRIMES[0][i])
  {
    var ps := PRIMES[0];
    assert HasSquareRoot(H0[0], SQUARE_ROOTS[0], ps[0]);
    assert HasSquareRoot(H0[1], SQUARE_ROOTS[1], ps[1]);
    assert HasSquareRoot(H0[2], SQUARE_ROOTS[2], ps[2]);
    assert HasSquareRoot(H0[3], SQUARE_ROOTS[3], ps[3]);
    assert HasSquareRoot(H0[4], SQUARE_ROOTS[4], ps[4]);
    assert HasSquareRoot(H0[5], SQUARE_ROOTS[5], ps[5]);
    assert HasSquareRoot(H0[6], SQUARE_ROOTS[6], ps[6]);
    assert HasSquareRoot(H0[7], SQUARE_ROOTS[7], ps[7]);
  }

  // ----- the first 64 primes -----

  predicate Prime(n: nat) { n >= 2 && forall d | 2 <= d < n :: n % d != 0 }

  // q is the least prime above p.
  predicate NextPrime(p: nat, q: nat) { p < q && Prime(q) && forall m | p < m < q :: !Prime(m) }

  // Not divided by a prime up to 17, other than itself
  predicate Sieved(n: nat) {
    && n >= 2 && (n == 2 || n % 2 != 0) && (n == 3 || n % 3 != 0) && (n == 5 || n % 5 != 0)
    && (n == 7 || n % 7 != 0) && (n == 11 || n % 11 != 0) && (n == 13 || n % 13 != 0) && (n == 17 || n % 17 != 0)
  }

  lemma Multiple(q: nat, m: nat)
    requires q > 0
    ensures (q * m) % q == 0
  {
    Arith.QuotientIs(q * m, q, m, 0);
  }

  lemma Grouped(q: nat, a: nat, b: nat)
    ensures (q * a) * b == q * (a * b)
  {
  }

  lemma SmallPrimeDivides(n: nat, q: nat)
    requires q in {2, 3, 5, 7, 11, 13, 17} && q < n && n % q == 0
    ensures !Sieved(n)
  {
  }

  lemma SmallDivisor(n: nat, f: nat)
    requires 2 <= f <= 17 && f < n && n % f == 0
    ensures !Sieved(n)
  {
    hide Sieved;
    var q := if f % 2 == 0 then 2 else if f % 3 == 0 then 3 else f;
    var a, g := f / q, n / f;
    assert f == q * a && n == f * g;
    Grouped(q, a, g);
    Multiple(q, a * g);
    SmallPrimeDivides(n, q);
  }

  // Below 324 = 18 * 18 one of two factors is at most 17.
  lemma SievedIsPrime(n: nat)
    requires n < 324
    ensures Sieved(n) <==> Prime(n)
  {
    if Sieved(n) {
      forall d | 2 <= d < n ensures n % d != 0 {
        if n % d == 0 {
          NoFactor(n, d);
        }
      }
    }
  }

  lemma BothLarge(d: nat, e: nat)
    requires d >= 18 && e >= 18
    ensures d * e >= 324
  {
    assert (d - 18) * (e - 18) >= 0;
  }

  lemma OtherFactor(n: nat, d: nat) returns (e: nat)
    requires n < 324 && 17 < d < n && n % d == 0
    ensures 2 <= e <= 17 && e < n && n % e == 0
  {
    e := n / d;
    assert n == d * e == e * d;
    Multiple(e, d);
    if e >= 18 {
      BothLarge(d, e);
    }
  }

  lemma NoFactor(n: nat, d: nat)
    requires n < 324 && 2 <= d < n && n % d == 0
    ensures !Sieved(n)
  {
    hide Sieved;
    if d <= 17 {
      SmallDivisor(n, d);
    } else {
      var e := OtherFactor(n, d);
      SmallDivisor(n, e);
    }
  }

  predicate NoneSieved(m: nat, q: nat)
    decreases q - m
  {
    m >= q || (!Sieved(m) && NoneSieved(m + 1, q))
  }

  predicate NextSieved(p: nat, q: nat) { p < q < 324 && Sieved(q) && NoneSieved(p + 1, q) }

  lemma {:induction false} NoneIsPrime(m: nat, q: nat)
    requires NoneSieved(m, q) && q < 324
    ensures forall n | m <= n < q :: !Prime(n)
    decreases q - m
  {
    if m < q {
      NoneIsPrime(m + 1, q);
      SievedIsPrime(m);
    }
  }

  lemma NextIsPrime(p: nat, q: nat)
    requires NextSieved(p, q)
    ensures NextPrime(p, q)
  {
    SievedIsPrime(q);
    NoneIsPrime(p + 1, q);
  }

  lemma PrimeRow0()
    ensures NextPrime(1, PRIMES[0][0])
    ensures forall i | 0 <= i < 7 :: NextPrime(PRIMES[0][i], PRIMES[0][i + 1])
  {
    hide NextPrime;
    var ps := PRIMES[0];
    NextIsPrime(1, 2);
    NextIsPrime(2, 3);
    NextIsPrime(3, 5);
    NextIsPrime(5, 7);
    NextIsPrime(7, 11);
    NextIsPrime(11, 13);
    NextIsPrime(13, 17);
    NextIsPrime(17, 19);
    assert ps == [2, 3, 5, 7, 11, 13, 17, 19];
  }

  lemma PrimeRow1()
    ensures NextPrime(PRIMES[0][7], PRIMES[1][0])
    ensures forall i | 0 <= i < 7 :: NextPrime(PRIMES[1][i], PRIMES[1][i + 1])
  {
    hide NextPrime;
    var ps := PRIMES[1];
    NextIsPrime(19, 23);
    NextIsPrime(23, 29);
    NextIsPrime(29, 31);
    NextIsPrime(31, 37);
    NextIsPrime(37, 41);
    NextIsPrime(41, 43);
    NextIsPrime(43, 47);
    NextIsPrime(47, 53);
    assert PRIMES[0][7] == 19;
    assert ps == [23, 29, 31, 37, 41, 43, 47, 53];
  }

  lemma PrimeRow2()
    ensures NextPrime(PRIMES[1][7], PRIMES[2][0])
    ensures forall i | 0 <= i < 7 :: NextPrime(PRIMES[2][i], PRIMES[2][i + 1])
  {
    hide NextPrime;
    var ps := PRIMES[2];
    NextIsPrime(53, 59);
    NextIsPrime(59, 61);
    NextIsPrime(61, 67);
    NextIsPrime(67, 71);
    NextIsPrime(71, 73);
    NextIsPrime(73, 79);
    NextIsPrime(79, 83);
    NextIsPrime(83, 89);
    assert PRIMES[1][7] == 53;
    assert ps == [59, 61, 67, 71, 73, 79, 83, 89];
  }

  lemma PrimeRow3()
    ensures NextPrime(PRIMES[2][7], PRIMES[3][0])
    ensures forall i | 0 <= i < 7 :: NextPrime(PRIMES[3][i], PRIMES[3][i + 1])
  {
    hide NextPrime;
    var ps := PRIMES[3];
    NextIsPrime(89, 97);
    NextIsPrime(97, 101);
    NextIsPrime(101, 103);
    NextIsPrime(103, 107);
    NextIsPrime(107, 109);
    NextIsPrime(109, 113);
    NextIsPrime(113, 127);
    NextIsPrime(127, 131);
    assert PRIMES[2][7] == 89;
    assert ps == [97, 101, 103, 107, 109, 113, 127, 131];
  }

  lemma PrimeRow4()
    ensures NextPrime(PRIMES[3][7], PRIMES[4][0])
    ensures forall i | 0 <= i < 7 :: NextPrime(PRIMES[4][i], PRIMES[4][i + 1])
  {
    hide NextPrime;
    var ps := PRIMES[4];
    NextIsPrime(131, 137);
    NextIsPrime(137, 139);
    NextIsPrime(139, 149);
    NextIsPrime(149, 151);
    NextIsPrime(151, 157);
    NextIsPrime(157, 163);
    NextIsPrime(163, 167);
    NextIsPrime(167, 173);
    assert PRIMES[3][7] == 131;
    assert ps == [137, 139, 149, 151, 157, 163, 167, 173];
  }

  lemma PrimeRow5()
    ensures NextPrime(PRIMES[4][7], PRIMES[5][0])
    ensures forall i | 0 <= i < 7 :: NextPrime(PRIMES[5][i], PRIMES[5][i + 1])
  {
    hide NextPrime;
    var ps := PRIMES[5];
    NextIsPrime(173, 179);
    NextIsPrime(179, 181);
    NextIsPrime(181, 191);
    NextIsPrime(191, 193);
    NextIsPrime(193, 197);
    NextIsPrime(197, 199);
    NextIsPrime(199, 211);
    NextIsPrime(211, 223);
    assert PRIMES[4][7] == 173;
    assert ps == [179, 181, 191, 193, 197, 199, 211, 223];
  }

  lemma PrimeRow6()
    ensures NextPrime(PRIMES[5][7], PRIMES[6][0])
    ensures forall i | 0 <= i < 7 :: NextPrime(PRIMES[6][i], PRIMES[6][i + 1])
  {
    hide NextPrime;
    var ps := PRIMES[6];
    NextIsPrime(223, 227);
    NextIsPrime(227, 229);
    NextIsPrime(229, 233);
    NextIsPrime(233, 239);
    NextIsPrime(239, 241);
    NextIsPrime(241, 251);
    NextIsPrime(251, 257);
    NextIsPrime(257, 263);
    assert PRIMES[5][7] == 223;
    assert ps == [227, 229, 233, 239, 241, 251, 257, 263];
  }

  lemma PrimeRow7()
    ensures NextPrime(PRIMES[6][7], PRIMES[7][0])
    ensures forall i | 0 <= i < 7 :: NextPrime(PRIMES[7][i], PRIMES[7][i + 1])
  {
    hide NextPrime;
    var ps := PRIMES[7];
    NextIsPrime(263, 269);
    NextIsPrime(269, 271);
    NextIsPrime(271, 277);
    NextIsPrime(277, 281);
    NextIsPrime(281, 283);
    NextIsPrime(283, 293);
    NextIsPrime(293, 307);
    NextIsPrime(307, 311);
    assert PRIMES[6][7] == 263;
    assert ps == [269, 271, 277, 281, 283, 293, 307, 311];
  }

  // The prime after n others
  function NthPrime(n: nat): nat
    requires n < 64
  {
    PRIMES[n / 8][n % 8]
  }

  lemma PrimesInOrder(n: nat)
    requires n < 64
    ensures NextPrime(if n == 0 then 1 else NthPrime(n - 1), NthPrime(n))
  {
    hide NextPrime;
    var i := n % 8;
    assert i > 0 ==> (n - 1) / 8 == n / 8 && (n - 1) % 8 == i - 1;
    assert i == 0 && n > 0 ==> (n - 1) / 8 == n / 8 - 1 && (n - 1) % 8 == 7;
    match n / 8 {
      case 0 => PrimeRow0();
      case 1 => PrimeRow1();
      case 2 => PrimeRow2();
      case 3 => PrimeRow3();
      case 4 => PrimeRow4();
      case 5 => PrimeRow5();
      case 6 => PrimeRow6();
      case _ => PrimeRow7();
    }
  }

  lemma Joined(a: seq<seq<Word>>, r: nat, i: nat)
    requires |a| == 8 && r < 8 && i < 8 && forall j | 0 <= j < 8 :: |a[j]| == 8
    ensures (a[0] + a[1] + a[2] + a[3] + a[4] + a[5] + a[6] + a[7])[8 * r + i] == a[r][i]
  {
  }

  lemma RowsOfEight()
    ensures forall j | 0 <= j < 8 :: |K_ROWS[j]| == 8
  {
    assert |K_ROWS[0]| == |K_ROWS[1]| == |K_ROWS[2]| == |K_ROWS[3]| == 8;
    assert |K_ROWS[4]| == |K_ROWS[5]| == |K_ROWS[6]| == |K_ROWS[7]| == 8;
  }

  lemma KRow(r: nat, i: nat)
    requires r < 8 && i < 8
    ensures |K_ROWS[r]| == 8 && K[8 * r + i] == K_ROWS[r][i]
  {
    RowsOfEight();
    Joined(K_ROWS, r, i);
  }

  // Section 4.2.2
  lemma KAsDerived(n: nat)
    requires n < 64
    ensures HasCubeRoot(K[n], CUBE_ROOTS[n / 8][n % 8], NthPrime(n))
  {
    hide HasCubeRoot;
    KRow(n / 8, n % 8);
    match n / 8 {
      case 0 => CubeRoots0();
      case 1 => CubeRoots1();
      case 2 => CubeRoots2();
      case 3 => CubeRoots3();
      case 4 => CubeRoots4();
      case 5 => CubeRoots5();
      case 6 => CubeRoots6();
      case _ => CubeRoots7();
    }
  }

  // Section 5.3.3
  lemma H0AsDerived(n: nat)
    requires n < 8
    ensures HasSquareRoot(H0[n], SQUARE_ROOTS[n], NthPrime(n))
  {
    hide HasSquareRoot;
    SquareRoots();
  }
}
