/**
 The constants of SHA-256 are what FIPS 180-4 says they are, and the hash of the
 standard's first example is the one it prints.  Both pin what the definitions
 in Sha256 share with the implementation.
 */
module Sha256Constants {
  import opened Bytes
  import opened Sha256

  // ------------------------------------------------------------------ the primes

  function Times(a: nat, b: nat): nat { a * b }

  /** Not a product of two numbers above one. */
  ghost predicate IsPrime(n: nat) { n >= 2 && forall a: nat, b: nat :: a >= 2 && b >= 2 ==> Times(a, b) != n }

  /** The first sixty-four primes. */
  function Prime(t: nat): nat
    requires t < 64
  {
    if t < 8 then [2, 3, 5, 7, 11, 13, 17, 19][t]
    else if t < 16 then [23, 29, 31, 37, 41, 43, 47, 53][t - 8]
    else if t < 24 then [59, 61, 67, 71, 73, 79, 83, 89][t - 16]
    else if t < 32 then [97, 101, 103, 107, 109, 113, 127, 131][t - 24]
    else if t < 40 then [137, 139, 149, 151, 157, 163, 167, 173][t - 32]
    else if t < 48 then [179, 181, 191, 193, 197, 199, 211, 223][t - 40]
    else if t < 56 then [227, 229, 233, 239, 241, 251, 257, 263][t - 48]
    else [269, 271, 277, 281, 283, 293, 307, 311][t - 56]
  }

  predicate Sieved(n: nat) {
    n % 2 != 0 && n % 3 != 0 && n % 5 != 0 && n % 7 != 0 && n % 11 != 0 && n % 13 != 0 && n % 17 != 0
  }

  lemma EvenFactor(c: nat, b: nat)
    ensures (2 * c) * b % 2 == 0
  {
    assert (2 * c) * b == 2 * (c * b);
  }

  lemma ThirdFactor(c: nat, b: nat)
    ensures (3 * c) * b % 3 == 0
  {
    assert (3 * c) * b == 3 * (c * b);
  }

  /** A factor up to eighteen has a prime factor in the sieve. */
  lemma SmallFactor(a: nat, b: nat)
    requires 2 <= a <= 18
    ensures !Sieved(a * b)
  {
    if a % 2 == 0 {
      EvenFactor(a / 2, b);
    } else if a % 3 == 0 {
      ThirdFactor(a / 3, b);
    } else {
      OddFactor(a, b);
    }
  }

  lemma OddFactor(a: nat, b: nat)
    requires a == 5 || a == 7 || a == 11 || a == 13 || a == 17
    ensures !Sieved(a * b)
  {
    hide Sieved;
    if a == 5 {
      CaughtByFive(b);
    } else if a == 7 {
      CaughtBySeven(b);
    } else if a == 11 {
      CaughtByEleven(b);
    } else if a == 13 {
      CaughtByThirteen(b);
    } else {
      CaughtBySeventeen(b);
    }
  }

  lemma CaughtByFive(b: nat)
    ensures !Sieved(5 * b)
  {
    assert (5 * b) % 5 == 0;
  }

  lemma CaughtBySeven(b: nat)
    ensures !Sieved(7 * b)
  {
    assert (7 * b) % 7 == 0;
  }

  lemma CaughtByEleven(b: nat)
    ensures !Sieved(11 * b)
  {
    assert (11 * b) % 11 == 0;
  }

  lemma CaughtByThirteen(b: nat)
    ensures !Sieved(13 * b)
  {
    assert (13 * b) % 13 == 0;
  }

  lemma CaughtBySeventeen(b: nat)
    ensures !Sieved(17 * b)
  {
    assert (17 * b) % 17 == 0;
  }

  lemma LargeFactors(a: nat, b: nat)
    requires a >= 19 && b >= 19
    ensures a * b >= 361
  {
    assert a * b >= 19 * b;
  }

  /** Below 19 * 19 the sieve leaves only primes. */
  lemma SievedIsPrime(n: nat)
    requires 2 <= n < 361 && Sieved(n)
    ensures IsPrime(n)
  {
    hide Sieved;
    forall a: nat, b: nat | a >= 2 && b >= 2 ensures Times(a, b) != n {
      if Times(a, b) == n {
        if a <= 18 {
          SmallFactor(a, b);
        } else if b <= 18 {
          SmallFactor(b, a);
        } else {
          LargeFactors(a, b);
        }
      }
    }
  }

  lemma SmallPrimes()
    ensures IsPrime(2) && IsPrime(3) && IsPrime(5) && IsPrime(7) && IsPrime(11) && IsPrime(13) && IsPrime(17)
  {
    forall a: nat, b: nat | a >= 2 && b >= 2 ensures Times(a, b) !in {2, 3, 5, 7, 11, 13, 17} {
      assert a * b >= 2 * b && a * b >= 2 * a;
      if a < 9 && b < 9 {
        SmallProduct(a, b);
      }
    }
  }

  lemma SmallProduct(a: nat, b: nat)
    requires 2 <= a < 9 && 2 <= b < 9
    ensures a * b !in {2, 3, 5, 7, 11, 13, 17}
  {
    if a == 2 { } else if a == 3 { } else if a == 4 { } else if a == 5 { } else if a == 6 { } else if a == 7 { }
  }

  /** What the sieve catches, other than its own primes, is not prime. */
  lemma CaughtIsComposite(n: nat)
    requires n > 17 && !Sieved(n)
    ensures !IsPrime(n)
  {
    var p := if n % 2 == 0 then 2 else if n % 3 == 0 then 3 else if n % 5 == 0 then 5 else if n % 7 == 0 then 7
             else if n % 11 == 0 then 11 else if n % 13 == 0 then 13 else 17;
    assert Times(p, n / p) == n && n / p >= 2;
  }

  /** One prime follows another. */
  ghost predicate Follows(p: nat, q: nat) { p < q && IsPrime(q) && forall n :: p < n < q ==> !IsPrime(n) }

  /** The sieve catches `p + k`, unless that is `q` or beyond. */
  predicate Caught(p: nat, k: nat, q: nat) { p + k < q ==> !Sieved(p + k) }

  lemma NextPrime(p: nat, q: nat)
    requires 17 <= p < q <= p + 14 && q < 361 && Sieved(q)
    requires Caught(p, 1, q) && Caught(p, 2, q) && Caught(p, 3, q) && Caught(p, 4, q) && Caught(p, 5, q)
    requires Caught(p, 6, q) && Caught(p, 7, q) && Caught(p, 8, q) && Caught(p, 9, q) && Caught(p, 10, q)
    requires Caught(p, 11, q) && Caught(p, 12, q) && Caught(p, 13, q)
    ensures Follows(p, q)
  {
    hide Sieved, IsPrime;
    SievedIsPrime(q);
    forall n | p < n < q ensures !IsPrime(n) {
      assert Caught(p, n - p, q);
      CaughtIsComposite(n);
    }
  }

  lemma PrimesBelowTwenty()
    ensures IsPrime(2) && Follows(2, 3) && Follows(3, 5) && Follows(5, 7) && Follows(7, 11) && Follows(11, 13)
    ensures Follows(13, 17)
  {
    SmallPrimes();
    assert Times(2, 2) == 4 && Times(2, 3) == 6 && Times(2, 4) == 8 && Times(3, 3) == 9 && Times(2, 5) == 10;
    assert Times(2, 6) == 12 && Times(2, 7) == 14 && Times(3, 5) == 15 && Times(2, 8) == 16;
  }

  lemma PrimesUpTo19(t: nat)
    requires t < 7
    ensures Follows(Prime(t), Prime(t + 1))
  {
    hide Follows;
    PrimesBelowTwenty(); NextPrime(17, 19);
  }

  lemma PrimesUpTo53(t: nat)
    requires 7 <= t < 15
    ensures Follows(Prime(t), Prime(t + 1))
  {
    hide Follows;
    NextPrime(19, 23); NextPrime(23, 29); NextPrime(29, 31); NextPrime(31, 37);
    NextPrime(37, 41); NextPrime(41, 43); NextPrime(43, 47); NextPrime(47, 53);
  }

  lemma PrimesUpTo89(t: nat)
    requires 15 <= t < 23
    ensures Follows(Prime(t), Prime(t + 1))
  {
    hide Follows;
    NextPrime(53, 59); NextPrime(59, 61); NextPrime(61, 67); NextPrime(67, 71);
    NextPrime(71, 73); NextPrime(73, 79); NextPrime(79, 83); NextPrime(83, 89);
  }

  lemma PrimesUpTo131(t: nat)
    requires 23 <= t < 31
    ensures Follows(Prime(t), Prime(t + 1))
  {
    hide Follows;
    NextPrime(89, 97); NextPrime(97, 101); NextPrime(101, 103); NextPrime(103, 107);
    NextPrime(107, 109); NextPrime(109, 113); NextPrime(113, 127); NextPrime(127, 131);
  }

  lemma PrimesUpTo173(t: nat)
    requires 31 <= t < 39
    ensures Follows(Prime(t), Prime(t + 1))
  {
    hide Follows;
    NextPrime(131, 137); NextPrime(137, 139); NextPrime(139, 149); NextPrime(149, 151);
    NextPrime(151, 157); NextPrime(157, 163); NextPrime(163, 167); NextPrime(167, 173);
  }

  lemma PrimesUpTo223(t: nat)
    requires 39 <= t < 47
    ensures Follows(Prime(t), Prime(t + 1))
  {
    hide Follows;
    NextPrime(173, 179); NextPrime(179, 181); NextPrime(181, 191); NextPrime(191, 193);
    NextPrime(193, 197); NextPrime(197, 199); NextPrime(199, 211); NextPrime(211, 223);
  }

  lemma PrimesUpTo263(t: nat)
    requires 47 <= t < 55
    ensures Follows(Prime(t), Prime(t + 1))
  {
    hide Follows;
    NextPrime(223, 227); NextPrime(227, 229); NextPrime(229, 233); NextPrime(233, 239);
    NextPrime(239, 241); NextPrime(241, 251); NextPrime(251, 257); NextPrime(257, 263);
  }

  lemma PrimesUpTo311(t: nat)
    requires 55 <= t < 63
    ensures Follows(Prime(t), Prime(t + 1))
  {
    hide Follows;
    NextPrime(263, 269); NextPrime(269, 271); NextPrime(271, 277); NextPrime(277, 281);
    NextPrime(281, 283); NextPrime(283, 293); NextPrime(293, 307); NextPrime(307, 311);
  }

  /** The table holds the first sixty-four primes, in order. */
  lemma PrimesInOrder(t: nat)
    requires t < 63
    ensures Prime(0) == 2 && IsPrime(2) && Follows(Prime(t), Prime(t + 1))
  {
    hide Follows;
    PrimesBelowTwenty();
    if t < 7 { PrimesUpTo19(t); }
    else if t < 15 { PrimesUpTo53(t); }
    else if t < 23 { PrimesUpTo89(t); }
    else if t < 31 { PrimesUpTo131(t); }
    else if t < 39 { PrimesUpTo173(t); }
    else if t < 47 { PrimesUpTo223(t); }
    else if t < 55 { PrimesUpTo263(t); }
    else { PrimesUpTo311(t); }
  }

  // --------------------------------------------------------------------- the roots

  /** `n` and the fraction `k / 2^32` make up the cube root of `p`, cut off after 32 bits. */
  predicate CubeRoot(n: nat, k: nat, p: nat) {
    var r := n * 0x1_0000_0000 + k;
    k < 0x1_0000_0000 && r * r * r <= p * 0x1_0000_0000_0000_0000_0000_0000 < (r + 1) * (r + 1) * (r + 1)
  }

  predicate SquareRoot(n: nat, h: nat, p: nat) {
    var r := n * 0x1_0000_0000 + h;
    h < 0x1_0000_0000 && r * r <= p * 0x1_0000_0000_0000_0000 < (r + 1) * (r + 1)
  }

  /** Section 4.2.2: K(t) is the first 32 bits of the fractional part of the cube root of the t-th prime. */
  ghost predicate FromCubeRoot(t: nat)
    requires t < 64
  {
    exists n :: CubeRoot(n, KValue(t), Prime(t))
  }

  function KValue(t: nat): nat
    requires t < 64
  {
    K(t) as int
  }

  lemma Root(t: nat, n: nat, k: nat, p: nat)
    requires t < 64 && KValue(t) == k && Prime(t) == p && CubeRoot(n, k, p)
    ensures FromCubeRoot(t)
  {
    hide CubeRoot, K, Prime;
    assert CubeRoot(n, KValue(t), Prime(t));
  }

  lemma FirstConstants()
    ensures K(0) == 0x428a_2f98 && K(1) == 0x7137_4491 && K(2) == 0xb5c0_fbcf && K(3) == 0xe9b5_dba5
    ensures K(4) == 0x3956_c25b && K(5) == 0x59f1_11f1 && K(6) == 0x923f_82a4 && K(7) == 0xab1c_5ed5
  {
  }

  lemma SecondConstants()
    ensures K(8) == 0xd807_aa98 && K(9) == 0x1283_5b01 && K(10) == 0x2431_85be && K(11) == 0x550c_7dc3
    ensures K(12) == 0x72be_5d74 && K(13) == 0x80de_b1fe && K(14) == 0x9bdc_06a7 && K(15) == 0xc19b_f174
  {
  }

  lemma ThirdConstants()
    ensures K(16) == 0xe49b_69c1 && K(17) == 0xefbe_4786 && K(18) == 0x0fc1_9dc6 && K(19) == 0x240c_a1cc
    ensures K(20) == 0x2de9_2c6f && K(21) == 0x4a74_84aa && K(22) == 0x5cb0_a9dc && K(23) == 0x76f9_88da
  {
  }

  lemma FourthConstants()
    ensures K(24) == 0x983e_5152 && K(25) == 0xa831_c66d && K(26) == 0xb003_27c8 && K(27) == 0xbf59_7fc7
    ensures K(28) == 0xc6e0_0bf3 && K(29) == 0xd5a7_9147 && K(30) == 0x06ca_6351 && K(31) == 0x1429_2967
  {
  }

  lemma FifthConstants()
    ensures K(32) == 0x27b7_0a85 && K(33) == 0x2e1b_2138 && K(34) == 0x4d2c_6dfc && K(35) == 0x5338_0d13
    ensures K(36) == 0x650a_7354 && K(37) == 0x766a_0abb && K(38) == 0x81c2_c92e && K(39) == 0x9272_2c85
  {
  }

  lemma SixthConstants()
    ensures K(40) == 0xa2bf_e8a1 && K(41) == 0xa81a_664b && K(42) == 0xc24b_8b70 && K(43) == 0xc76c_51a3
    ensures K(44) == 0xd192_e819 && K(45) == 0xd699_0624 && K(46) == 0xf40e_3585 && K(47) == 0x106a_a070
  {
  }

  lemma SeventhConstants()
    ensures K(48) == 0x19a4_c116 && K(49) == 0x1e37_6c08 && K(50) == 0x2748_774c && K(51) == 0x34b0_bcb5
    ensures K(52) == 0x391c_0cb3 && K(53) == 0x4ed8_aa4a && K(54) == 0x5b9c_ca4f && K(55) == 0x682e_6ff3
  {
  }

  lemma EighthConstants()
    ensures K(56) == 0x748f_82ee && K(57) == 0x78a5_636f && K(58) == 0x84c8_7814 && K(59) == 0x8cc7_0208
    ensures K(60) == 0x90be_fffa && K(61) == 0xa450_6ceb && K(62) == 0xbef9_a3f7 && K(63) == 0xc671_78f2
  {
  }

  lemma FirstRoots(t: nat)
    requires 0 <= t < 8
    ensures FromCubeRoot(t)
  {
    hide FromCubeRoot, K;
    FirstConstants();
    Root(0, 1, 0x428a_2f98, 2); Root(1, 1, 0x7137_4491, 3); Root(2, 1, 0xb5c0_fbcf, 5);
    Root(3, 1, 0xe9b5_dba5, 7); Root(4, 2, 0x3956_c25b, 11); Root(5, 2, 0x59f1_11f1, 13);
    Root(6, 2, 0x923f_82a4, 17); Root(7, 2, 0xab1c_5ed5, 19);
  }

  lemma SecondRoots(t: nat)
    requires 8 <= t < 16
    ensures FromCubeRoot(t)
  {
    hide FromCubeRoot, K;
    SecondConstants();
    Root(8, 2, 0xd807_aa98, 23); Root(9, 3, 0x1283_5b01, 29); Root(10, 3, 0x2431_85be, 31);
    Root(11, 3, 0x550c_7dc3, 37); Root(12, 3, 0x72be_5d74, 41); Root(13, 3, 0x80de_b1fe, 43);
    Root(14, 3, 0x9bdc_06a7, 47); Root(15, 3, 0xc19b_f174, 53);
  }

  lemma ThirdRoots(t: nat)
    requires 16 <= t < 24
    ensures FromCubeRoot(t)
  {
    hide FromCubeRoot, K;
    ThirdConstants();
    Root(16, 3, 0xe49b_69c1, 59); Root(17, 3, 0xefbe_4786, 61); Root(18, 4, 0x0fc1_9dc6, 67);
    Root(19, 4, 0x240c_a1cc, 71); Root(20, 4, 0x2de9_2c6f, 73); Root(21, 4, 0x4a74_84aa, 79);
    Root(22, 4, 0x5cb0_a9dc, 83); Root(23, 4, 0x76f9_88da, 89);
  }

  lemma FourthRoots(t: nat)
    requires 24 <= t < 32
    ensures FromCubeRoot(t)
  {
    hide FromCubeRoot, K;
    FourthConstants();
    Root(24, 4, 0x983e_5152, 97); Root(25, 4, 0xa831_c66d, 101); Root(26, 4, 0xb003_27c8, 103);
    Root(27, 4, 0xbf59_7fc7, 107); Root(28, 4, 0xc6e0_0bf3, 109); Root(29, 4, 0xd5a7_9147, 113);
    Root(30, 5, 0x06ca_6351, 127); Root(31, 5, 0x1429_2967, 131);
  }

  lemma FifthRoots(t: nat)
    requires 32 <= t < 40
    ensures FromCubeRoot(t)
  {
    hide FromCubeRoot, K;
    FifthConstants();
    Root(32, 5, 0x27b7_0a85, 137); Root(33, 5, 0x2e1b_2138, 139); Root(34, 5, 0x4d2c_6dfc, 149);
    Root(35, 5, 0x5338_0d13, 151); Root(36, 5, 0x650a_7354, 157); Root(37, 5, 0x766a_0abb, 163);
    Root(38, 5, 0x81c2_c92e, 167); Root(39, 5, 0x9272_2c85, 173);
  }

  lemma SixthRoots(t: nat)
    requires 40 <= t < 48
    ensures FromCubeRoot(t)
  {
    hide FromCubeRoot, K;
    SixthConstants();
    Root(40, 5, 0xa2bf_e8a1, 179); Root(41, 5, 0xa81a_664b, 181); Root(42, 5, 0xc24b_8b70, 191);
    Root(43, 5, 0xc76c_51a3, 193); Root(44, 5, 0xd192_e819, 197); Root(45, 5, 0xd699_0624, 199);
    Root(46, 5, 0xf40e_3585, 211); Root(47, 6, 0x106a_a070, 223);
  }

  lemma SeventhRoots(t: nat)
    requires 48 <= t < 56
    ensures FromCubeRoot(t)
  {
    hide FromCubeRoot, K;
    SeventhConstants();
    Root(48, 6, 0x19a4_c116, 227); Root(49, 6, 0x1e37_6c08, 229); Root(50, 6, 0x2748_774c, 233);
    Root(51, 6, 0x34b0_bcb5, 239); Root(52, 6, 0x391c_0cb3, 241); Root(53, 6, 0x4ed8_aa4a, 251);
    Root(54, 6, 0x5b9c_ca4f, 257); Root(55, 6, 0x682e_6ff3, 263);
  }

  lemma EighthRoots(t: nat)
    requires 56 <= t < 64
    ensures FromCubeRoot(t)
  {
    hide FromCubeRoot, K;
    EighthConstants();
    Root(56, 6, 0x748f_82ee, 269); Root(57, 6, 0x78a5_636f, 271); Root(58, 6, 0x84c8_7814, 277);
    Root(59, 6, 0x8cc7_0208, 281); Root(60, 6, 0x90be_fffa, 283); Root(61, 6, 0xa450_6ceb, 293);
    Root(62, 6, 0xbef9_a3f7, 307); Root(63, 6, 0xc671_78f2, 311);
  }

  /** So all sixty-four constants are those of section 4.2.2. */
  lemma KIsCubeRoot(t: nat)
    requires t < 64
    ensures FromCubeRoot(t)
  {
    hide FromCubeRoot;
    if t < 8 { FirstRoots(t); }
    else if t < 16 { SecondRoots(t); }
    else if t < 24 { ThirdRoots(t); }
    else if t < 32 { FourthRoots(t); }
    else if t < 40 { FifthRoots(t); }
    else if t < 48 { SixthRoots(t); }
    else if t < 56 { SeventhRoots(t); }
    else { EighthRoots(t); }
  }

  /** Section 5.3.3: the initial hash value is made the same way from the square roots of the first eight primes. */
  lemma IVIsSquareRoot(i: nat) returns (n: nat)
    requires i < 8
    ensures SquareRoot(n, IV()[i] as int, Prime(i))
  {
    if i == 0 { n := 1; assert IV()[i] as int == 0x6a09_e667; }
    else if i == 1 { n := 1; assert IV()[i] as int == 0xbb67_ae85; }
    else if i == 2 { n := 2; assert IV()[i] as int == 0x3c6e_f372; }
    else if i == 3 { n := 2; assert IV()[i] as int == 0xa54f_f53a; }
    else if i == 4 { n := 3; assert IV()[i] as int == 0x510e_527f; }
    else if i == 5 { n := 3; assert IV()[i] as int == 0x9b05_688c; }
    else if i == 6 { n := 4; assert IV()[i] as int == 0x1f83_d9ab; }
    else if i == 7 { n := 4; assert IV()[i] as int == 0x5be0_cd19; }
  }

  // ------------------------------------------------------------ the first example

  /** The padded block of the three bytes "abc". */
  function Abc(): Block {
    [0x61, 0x62, 0x63, 0x80] + Zeros(52) + [0, 0, 0, 0, 0, 0, 0, 24]
  }

  lemma AbcPadded()
    ensures Pad([0x61, 0x62, 0x63]) == Abc()
  {
    hide ToBE;
    BE64Bytes(24);
    assert [0x61, 0x62, 0x63] + [0x80] == [0x61, 0x62, 0x63, 0x80];
  }

  lemma AbcBits()
    ensures Bits(0) == 0 && Bits(24) == 24 && Bits(0x61) == 0x61 && Bits(0x62) == 0x62 && Bits(0x63) == 0x63
    ensures Bits(0x80) == 0x80
  {
    hide Bits;
    BitsValue(0); BitsValue(24); BitsValue(0x61); BitsValue(0x62); BitsValue(0x63); BitsValue(0x80);
  }

  lemma AbcWords(t: nat)
    requires t < 16
    ensures W(Abc(), t) == if t == 0 then 0x6162_6380 else if t == 15 then 24 else 0
  {
    hide Bits, W;
    AbcBits();
    ScheduleStart(Abc(), t);
  }

  /** Word `t` of the schedule of `b`. */
  ghost predicate Scheduled(b: Block, t: nat, w: bv32) { t < 64 && W(b, t) == w }

  lemma Words0(b: Block)
    requires b == Abc()
    ensures Scheduled(b, 0, 0x6162_6380) && Scheduled(b, 1, 0) && Scheduled(b, 2, 0)
    ensures Scheduled(b, 3, 0) && Scheduled(b, 4, 0) && Scheduled(b, 5, 0)
    ensures Scheduled(b, 6, 0) && Scheduled(b, 7, 0)
  {
    hide W, Abc;
    AbcWords(0); AbcWords(1); AbcWords(2); AbcWords(3); AbcWords(4); AbcWords(5); AbcWords(6); AbcWords(7);
  }

  lemma Words8(b: Block)
    requires b == Abc()
    ensures Scheduled(b, 8, 0) && Scheduled(b, 9, 0) && Scheduled(b, 10, 0)
    ensures Scheduled(b, 11, 0) && Scheduled(b, 12, 0) && Scheduled(b, 13, 0)
    ensures Scheduled(b, 14, 0) && Scheduled(b, 15, 0x0000_0018)
  {
    hide W, Abc;
    AbcWords(8); AbcWords(9); AbcWords(10); AbcWords(11); AbcWords(12); AbcWords(13); AbcWords(14); AbcWords(15);
  }

  lemma Words16(b: Block)
    requires b == Abc()
    ensures Scheduled(b, 16, 0x6162_6380) && Scheduled(b, 17, 0x000f_0000) && Scheduled(b, 18, 0x7da8_6405)
    ensures Scheduled(b, 19, 0x6000_03c6) && Scheduled(b, 20, 0x3e9d_7b78) && Scheduled(b, 21, 0x0183_fc00)
    ensures Scheduled(b, 22, 0x12dc_bfdb) && Scheduled(b, 23, 0xe2e2_c38e)
  {
    hide W, Abc;
    Words0(b); Words8(b); ScheduleRecurrence(b, 16); ScheduleRecurrence(b, 17);
    ScheduleRecurrence(b, 18); ScheduleRecurrence(b, 19); ScheduleRecurrence(b, 20);
    ScheduleRecurrence(b, 21); ScheduleRecurrence(b, 22); ScheduleRecurrence(b, 23);
  }

  lemma Words24(b: Block)
    requires b == Abc()
    ensures Scheduled(b, 24, 0xc821_5c1a) && Scheduled(b, 25, 0xb736_79a2) && Scheduled(b, 26, 0xe5bc_3909)
    ensures Scheduled(b, 27, 0x3266_3c5b) && Scheduled(b, 28, 0x9d20_9d67) && Scheduled(b, 29, 0xec87_26cb)
    ensures Scheduled(b, 30, 0x7021_38a4) && Scheduled(b, 31, 0xd3b7_973b)
  {
    hide W, Abc;
    Words8(b); Words16(b); ScheduleRecurrence(b, 24); ScheduleRecurrence(b, 25);
    ScheduleRecurrence(b, 26); ScheduleRecurrence(b, 27); ScheduleRecurrence(b, 28);
    ScheduleRecurrence(b, 29); ScheduleRecurrence(b, 30); ScheduleRecurrence(b, 31);
  }

  lemma Words32(b: Block)
    requires b == Abc()
    ensures Scheduled(b, 32, 0x93f5_997f) && Scheduled(b, 33, 0x3b68_ba73) && Scheduled(b, 34, 0xaff4_ffc1)
    ensures Scheduled(b, 35, 0xf10a_5c62) && Scheduled(b, 36, 0x0a8b_3996) && Scheduled(b, 37, 0x72af_830a)
    ensures Scheduled(b, 38, 0x9409_e33e) && Scheduled(b, 39, 0x2464_1522)
  {
    hide W, Abc;
    Words16(b); Words24(b); ScheduleRecurrence(b, 32); ScheduleRecurrence(b, 33);
    ScheduleRecurrence(b, 34); ScheduleRecurrence(b, 35); ScheduleRecurrence(b, 36);
    ScheduleRecurrence(b, 37); ScheduleRecurrence(b, 38); ScheduleRecurrence(b, 39);
  }

  lemma Words40(b: Block)
    requires b == Abc()
    ensures Scheduled(b, 40, 0x9f47_bf94) && Scheduled(b, 41, 0xf0a6_4f5a) && Scheduled(b, 42, 0x3e24_6a79)
    ensures Scheduled(b, 43, 0x2733_3ba3) && Scheduled(b, 44, 0x0c47_63f2) && Scheduled(b, 45, 0x840a_bf27)
    ensures Scheduled(b, 46, 0x7a29_0d5d) && Scheduled(b, 47, 0x065c_43da)
  {
    hide W, Abc;
    Words24(b); Words32(b); ScheduleRecurrence(b, 40); ScheduleRecurrence(b, 41);
    ScheduleRecurrence(b, 42); ScheduleRecurrence(b, 43); ScheduleRecurrence(b, 44);
    ScheduleRecurrence(b, 45); ScheduleRecurrence(b, 46); ScheduleRecurrence(b, 47);
  }

  lemma Words48(b: Block)
    requires b == Abc()
    ensures Scheduled(b, 48, 0xfb3e_89cb) && Scheduled(b, 49, 0xcc76_17db) && Scheduled(b, 50, 0xb9e6_6c34)
    ensures Scheduled(b, 51, 0xa999_3667) && Scheduled(b, 52, 0x84ba_dedd) && Scheduled(b, 53, 0xc214_62bc)
    ensures Scheduled(b, 54, 0x1487_472c) && Scheduled(b, 55, 0xb20f_7a99)
  {
    hide W, Abc;
    Words32(b); Words40(b); ScheduleRecurrence(b, 48); ScheduleRecurrence(b, 49);
    ScheduleRecurrence(b, 50); ScheduleRecurrence(b, 51); ScheduleRecurrence(b, 52);
    ScheduleRecurrence(b, 53); ScheduleRecurrence(b, 54); ScheduleRecurrence(b, 55);
  }

  lemma Words56(b: Block)
    requires b == Abc()
    ensures Scheduled(b, 56, 0xef57_b9cd) && Scheduled(b, 57, 0xebe6_b238) && Scheduled(b, 58, 0x9fe3_095e)
    ensures Scheduled(b, 59, 0x78bc_8d4b) && Scheduled(b, 60, 0xa43f_cf15) && Scheduled(b, 61, 0x668b_2ff8)
    ensures Scheduled(b, 62, 0xeeab_a2cc) && Scheduled(b, 63, 0x12b1_edeb)
  {
    hide W, Abc;
    Words40(b); Words48(b); ScheduleRecurrence(b, 56); ScheduleRecurrence(b, 57);
    ScheduleRecurrence(b, 58); ScheduleRecurrence(b, 59); ScheduleRecurrence(b, 60);
    ScheduleRecurrence(b, 61); ScheduleRecurrence(b, 62); ScheduleRecurrence(b, 63);
  }

  /** The working variables after a round that makes `a` and `e` anew. */
  function Shift(v: Vars, a: bv32, e: bv32): Vars { Vars(a, v.a, v.b, v.c, e, v.e, v.f, v.g) }

  /** The working variables of the example after `t` rounds. */
  function AbcVars(t: nat): Vars
    requires t <= 64
  {
    Rounds(Load(IV()), Abc(), t)
  }

  lemma Turn(t: nat, v: Vars, a: bv32, e: bv32) returns (next: Vars)
    requires t < 64 && AbcVars(t) == v && Round(v, K(t), W(Abc(), t)) == Shift(v, a, e)
    ensures next == Shift(v, a, e) && AbcVars(t + 1) == next
  {
    hide Round, K, W, Abc, IV;
    next := Shift(v, a, e);
  }

  lemma Rounds8()
    ensures AbcVars(8)
         == Vars(0x85a0_7b5f, 0xe503_0380, 0x2b42_09f5, 0x0440_9a6a, 0x0c65_7a79, 0x9b27_a401, 0x7142_60ad, 0x43ad_a245)
  {
    hide AbcVars, W, Abc, K;
    Words0(Abc());
    FirstConstants();
    AbcStart();
    var v := AbcVars(0);
    v := Turn(0, v, 0x5d6a_ebcd, 0xfa2a_4622); v := Turn(1, v, 0x5a6a_d9ad, 0x78ce_7989);
    v := Turn(2, v, 0xc8c3_47a7, 0xf929_39eb); v := Turn(3, v, 0xd550_f666, 0x24e0_0850);
    v := Turn(4, v, 0x0440_9a6a, 0x43ad_a245); v := Turn(5, v, 0x2b42_09f5, 0x7142_60ad);
    v := Turn(6, v, 0xe503_0380, 0x9b27_a401); v := Turn(7, v, 0x85a0_7b5f, 0x0c65_7a79);
  }

  lemma Rounds16()
    ensures AbcVars(16)
         == Vars(0xb0fa_238e, 0xc064_5fde, 0xd932_eb16, 0x8791_2990, 0x0759_0dcd, 0x0b92_f20c, 0x745a_48de, 0x1e57_8218)
  {
    hide AbcVars, W, Abc, K;
    Words8(Abc());
    SecondConstants();
    Rounds8();
    var v := AbcVars(8);
    v := Turn(8, v, 0x8e04_ecb9, 0x32ca_2d8c); v := Turn(9, v, 0x8c87_346b, 0x1cc9_2596);
    v := Turn(10, v, 0x4798_a3f4, 0x436b_23e8); v := Turn(11, v, 0xf71f_c5a9, 0x816f_d6e9);
    v := Turn(12, v, 0x8791_2990, 0x1e57_8218); v := Turn(13, v, 0xd932_eb16, 0x745a_48de);
    v := Turn(14, v, 0xc064_5fde, 0x0b92_f20c); v := Turn(15, v, 0xb0fa_238e, 0x0759_0dcd);
  }

  lemma Rounds24()
    ensures AbcVars(24)
         == Vars(0xc5d5_3d8d, 0xa7a3_623f, 0xc260_6d6d, 0x9dc6_8b63, 0xaa47_c347, 0x49f5_114a, 0xe125_7970, 0x8ada_8930)
  {
    hide AbcVars, W, Abc, K;
    Words16(Abc());
    ThirdConstants();
    Rounds16();
    var v := AbcVars(16);
    v := Turn(16, v, 0x21da_9a9b, 0x8034_229c); v := Turn(17, v, 0xc2fb_d9d1, 0x846e_e454);
    v := Turn(18, v, 0xfe77_7bbf, 0xcc89_9961); v := Turn(19, v, 0xe1f2_0c33, 0xb063_8179);
    v := Turn(20, v, 0x9dc6_8b63, 0x8ada_8930); v := Turn(21, v, 0xc260_6d6d, 0xe125_7970);
    v := Turn(22, v, 0xa7a3_623f, 0x49f5_114a); v := Turn(23, v, 0xc5d5_3d8d, 0xaa47_c347);
  }

  lemma Rounds32()
    ensures AbcVars(32)
         == Vars(0x73b3_3bf5, 0xea99_2a22, 0xa006_0b30, 0x3634_82c9, 0xba59_1112, 0x0109_ab3a, 0xade7_9437, 0x6112_a3b7)
  {
    hide AbcVars, W, Abc, K;
    Words24(Abc());
    FourthConstants();
    Rounds24();
    var v := AbcVars(24);
    v := Turn(24, v, 0x1c2c_2838, 0x2823_ef91); v := Turn(25, v, 0xcde8_037d, 0x1438_3d8e);
    v := Turn(26, v, 0xb62e_c4bc, 0xc74c_6516); v := Turn(27, v, 0x77d3_7528, 0xedff_bff8);
    v := Turn(28, v, 0x3634_82c9, 0x6112_a3b7); v := Turn(29, v, 0xa006_0b30, 0xade7_9437);
    v := Turn(30, v, 0xea99_2a22, 0x0109_ab3a); v := Turn(31, v, 0x73b3_3bf5, 0xba59_1112);
  }

  lemma Rounds40()
    ensures AbcVars(40)
         == Vars(0x79ea_687a, 0x6dc5_7a8a, 0x34df_1604, 0x41a6_5cb1, 0x1efb_c0a0, 0xf078_1bc8, 0xa507_a53d, 0x0772_a26b)
  {
    hide AbcVars, W, Abc, K;
    Words32(Abc());
    FifthConstants();
    Rounds32();
    var v := AbcVars(32);
    v := Turn(32, v, 0x98e1_2507, 0x9cd9_f5f6); v := Turn(33, v, 0xfe60_4df5, 0x5924_9dd3);
    v := Turn(34, v, 0xa9a7_738c, 0x085f_3833); v := Turn(35, v, 0x65a0_cfe4, 0xf4b0_02d6);
    v := Turn(36, v, 0x41a6_5cb1, 0x0772_a26b); v := Turn(37, v, 0x34df_1604, 0xa507_a53d);
    v := Turn(38, v, 0x6dc5_7a8a, 0xf078_1bc8); v := Turn(39, v, 0x79ea_687a, 0x1efb_c0a0);
  }

  lemma Rounds48()
    ensures AbcVars(48)
         == Vars(0x4172_328d, 0xa14c_14b0, 0x72ab_4b91, 0x2662_8815, 0xfecf_0bc6, 0xd57b_94a9, 0xb775_5da1, 0xa80f_11f0)
  {
    hide AbcVars, W, Abc, K;
    Words40(Abc());
    SixthConstants();
    Rounds40();
    var v := AbcVars(40);
    v := Turn(40, v, 0xd667_0766, 0x2635_2d63); v := Turn(41, v, 0xdf46_652f, 0x838b_2711);
    v := Turn(42, v, 0x17aa_0dfe, 0xdecd_4715); v := Turn(43, v, 0x9d4b_af93, 0xfda2_4c2e);
    v := Turn(44, v, 0x2662_8815, 0xa80f_11f0); v := Turn(45, v, 0x72ab_4b91, 0xb775_5da1);
    v := Turn(46, v, 0xa14c_14b0, 0xd57b_94a9); v := Turn(47, v, 0x4172_328d, 0xfecf_0bc6);
  }

  lemma Rounds56()
    ensures AbcVars(56)
         == Vars(0x38cc_9913, 0x3ec4_5cdb, 0xf570_2fdb, 0x101f_d28f, 0x54cb_266b, 0xe50e_1b4f, 0x9f47_87c3, 0x529e_7d00)
  {
    hide AbcVars, W, Abc, K;
    Words48(Abc());
    SeventhConstants();
    Rounds48();
    var v := AbcVars(48);
    v := Turn(48, v, 0x0575_7ceb, 0xbd71_4038); v := Turn(49, v, 0xf11b_faa8, 0x6e5c_390c);
    v := Turn(50, v, 0x7a05_08a1, 0x52f1_ccf7); v := Turn(51, v, 0x886e_7a22, 0x4923_1c1e);
    v := Turn(52, v, 0x101f_d28f, 0x529e_7d00); v := Turn(53, v, 0xf570_2fdb, 0x9f47_87c3);
    v := Turn(54, v, 0x3ec4_5cdb, 0xe50e_1b4f); v := Turn(55, v, 0x38cc_9913, 0x54cb_266b);
  }

  lemma Rounds64()
    ensures AbcVars(64)
         == Vars(0x506e_3058, 0xd39a_2165, 0x04d2_4d6c, 0xb85e_2ce9, 0x5ef5_0f24, 0xfb12_1210, 0x948d_25b6, 0x961f_4894)
  {
    hide AbcVars, W, Abc, K;
    Words56(Abc());
    EighthConstants();
    Rounds56();
    var v := AbcVars(56);
    v := Turn(56, v, 0xfcd1_887b, 0x9b5e_906c); v := Turn(57, v, 0xc062_d46f, 0x7e44_008e);
    v := Turn(58, v, 0xffb7_0472, 0x6d83_bfc6); v := Turn(59, v, 0xb6ae_8fff, 0xb21b_ad3d);
    v := Turn(60, v, 0xb85e_2ce9, 0x961f_4894); v := Turn(61, v, 0x04d2_4d6c, 0x948d_25b6);
    v := Turn(62, v, 0xd39a_2165, 0xfb12_1210); v := Turn(63, v, 0x506e_3058, 0x5ef5_0f24);
  }

  lemma AbcStart()
    ensures AbcVars(0) == Load(IV())
  {
    hide IV, Abc;
  }

  lemma AbcHashed()
    ensures Hashed(Abc()) == [0xba78_16bf, 0x8f01_cfea, 0x4141_40de, 0x5dae_2223,
                              0xb003_61a3, 0x9617_7a9c, 0xb410_ff61, 0xf200_15ad]
  {
    hide Rounds, Abc, K, W;
    var v := AbcVars(64);
    Rounds64();
    NothingHashed();
    HashOneMore([], Abc());
    assert [] + Abc() == Abc();
    AddsUp(IV(), v);
  }

  lemma AddsUp(h: HashValue, v: Vars)
    ensures AddVarsTo(h, v) == [Add(h[0], v.a), Add(h[1], v.b), Add(h[2], v.c), Add(h[3], v.d),
                                Add(h[4], v.e), Add(h[5], v.f), Add(h[6], v.g), Add(h[7], v.h)]
  {
    hide Add;
  }

  lemma DigestHalf(h: HashValue)
    ensures Digest(h[..4]) == ToBE(h[0] as int, 4) + ToBE(h[1] as int, 4) + ToBE(h[2] as int, 4) + ToBE(h[3] as int, 4)
  {
    hide Digest, ToBE;
    DigestEmpty();
    DigestStep(h, 0); DigestStep(h, 1); DigestStep(h, 2); DigestStep(h, 3);
    assert h[..0] == [];
  }

  lemma DigestOf(h: HashValue)
    ensures Digest(h) == Digest(h[..4]) + ToBE(h[4] as int, 4) + ToBE(h[5] as int, 4) + ToBE(h[6] as int, 4)
                       + ToBE(h[7] as int, 4)
  {
    hide Digest, ToBE;
    DigestStep(h, 4); DigestStep(h, 5); DigestStep(h, 6); DigestStep(h, 7);
    assert h[..8] == h;
  }

  lemma WordBytes(x: u32, b0: byte, b1: byte, b2: byte, b3: byte)
    requires x == (b0 as int) * 0x100_0000 + (b1 as int) * 0x1_0000 + (b2 as int) * 0x100 + b3
    ensures ToBE(x, 4) == [b0, b1, b2, b3]
  {
    hide ToBE, FromBE;
    var bs := [b0, b1, b2, b3];
    BEReads(bs);
    BEEncodesDecoding(bs);
  }

  lemma AbcBytes()
    ensures ToBE(0xba78_16bf, 4) == [0xba, 0x78, 0x16, 0xbf]
    ensures ToBE(0x8f01_cfea, 4) == [0x8f, 0x01, 0xcf, 0xea]
    ensures ToBE(0x4141_40de, 4) == [0x41, 0x41, 0x40, 0xde]
    ensures ToBE(0x5dae_2223, 4) == [0x5d, 0xae, 0x22, 0x23]
    ensures ToBE(0xb003_61a3, 4) == [0xb0, 0x03, 0x61, 0xa3]
    ensures ToBE(0x9617_7a9c, 4) == [0x96, 0x17, 0x7a, 0x9c]
    ensures ToBE(0xb410_ff61, 4) == [0xb4, 0x10, 0xff, 0x61]
    ensures ToBE(0xf200_15ad, 4) == [0xf2, 0x00, 0x15, 0xad]
  {
    hide ToBE;
    WordBytes(0xba78_16bf, 0xba, 0x78, 0x16, 0xbf);
    WordBytes(0x8f01_cfea, 0x8f, 0x01, 0xcf, 0xea);
    WordBytes(0x4141_40de, 0x41, 0x41, 0x40, 0xde);
    WordBytes(0x5dae_2223, 0x5d, 0xae, 0x22, 0x23);
    WordBytes(0xb003_61a3, 0xb0, 0x03, 0x61, 0xa3);
    WordBytes(0x9617_7a9c, 0x96, 0x17, 0x7a, 0x9c);
    WordBytes(0xb410_ff61, 0xb4, 0x10, 0xff, 0x61);
    WordBytes(0xf200_15ad, 0xf2, 0x00, 0x15, 0xad);
  }

  /** The one-block example of FIPS 180-4: the digest of "abc". */
  lemma AbcDigest()
    ensures Hash([0x61, 0x62, 0x63]) ==
      [0xba, 0x78, 0x16, 0xbf]
      + [0x8f, 0x01, 0xcf, 0xea]
      + [0x41, 0x41, 0x40, 0xde]
      + [0x5d, 0xae, 0x22, 0x23]
      + [0xb0, 0x03, 0x61, 0xa3]
      + [0x96, 0x17, 0x7a, 0x9c]
      + [0xb4, 0x10, 0xff, 0x61]
      + [0xf2, 0x00, 0x15, 0xad]
  {
    hide Hashed, Digest, ToBE, Pad, Abc;
    AbcPadded();
    AbcHashed();
    DigestHalf(Hashed(Abc()));
    DigestOf(Hashed(Abc()));
    AbcBytes();
  }
}
