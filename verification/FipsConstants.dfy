/**
 Where the constants of SHA-256 come from: the fractional parts of the square roots
 of the first eight primes and of the cube roots of the first sixty-four, to 32 bits
 (sections 4.2.2 and 5.3.3 of FIPS 180-4).
 */
module FipsConstants {
  import opened Prelude
  import opened Fips180

  /** `w` is the first 32 bits after the point of the cube root of `prime`, whose
      first bits of all are `root`. */
  predicate IsCubeRoot(w: Word, root: nat, prime: nat) {
    && root % 0x1_0000_0000 == w as int
    && root * root * root <= prime * 0x1_0000_0000_0000_0000_0000_0000 < (root + 1) * (root + 1) * (root + 1)
  }

  predicate IsSquareRoot(w: Word, root: nat, prime: nat) {
    && root % 0x1_0000_0000 == w as int
    && root * root <= prime * 0x1_0000_0000_0000_0000 < (root + 1) * (root + 1)
  }

  /** The initial hash value, from the first eight primes. */
  lemma InitialValueIsSquareRoots()
    ensures IsSquareRoot(H0.a, 0x1_6a09_e667, 2)
    ensures IsSquareRoot(H0.b, 0x1_bb67_ae85, 3)
    ensures IsSquareRoot(H0.c, 0x2_3c6e_f372, 5)
    ensures IsSquareRoot(H0.d, 0x2_a54f_f53a, 7)
    ensures IsSquareRoot(H0.e, 0x3_510e_527f, 11)
    ensures IsSquareRoot(H0.f, 0x3_9b05_688c, 13)
    ensures IsSquareRoot(H0.g, 0x4_1f83_d9ab, 17)
    ensures IsSquareRoot(H0.h, 0x4_5be0_cd19, 19)
  {
  }

  lemma Row0BeginsInCubeRoots()
    ensures IsCubeRoot(K0[0], 0x1_428a_2f98, 2)
    ensures IsCubeRoot(K0[1], 0x1_7137_4491, 3)
    ensures IsCubeRoot(K0[2], 0x1_b5c0_fbcf, 5)
    ensures IsCubeRoot(K0[3], 0x1_e9b5_dba5, 7)
  {
  }

  lemma Row0EndsInCubeRoots()
    ensures IsCubeRoot(K0[4], 0x2_3956_c25b, 11)
    ensures IsCubeRoot(K0[5], 0x2_59f1_11f1, 13)
    ensures IsCubeRoot(K0[6], 0x2_923f_82a4, 17)
    ensures IsCubeRoot(K0[7], 0x2_ab1c_5ed5, 19)
  {
  }

  lemma Row1BeginsInCubeRoots()
    ensures IsCubeRoot(K1[0], 0x2_d807_aa98, 23)
    ensures IsCubeRoot(K1[1], 0x3_1283_5b01, 29)
    ensures IsCubeRoot(K1[2], 0x3_2431_85be, 31)
    ensures IsCubeRoot(K1[3], 0x3_550c_7dc3, 37)
  {
  }

  lemma Row1EndsInCubeRoots()
    ensures IsCubeRoot(K1[4], 0x3_72be_5d74, 41)
    ensures IsCubeRoot(K1[5], 0x3_80de_b1fe, 43)
    ensures IsCubeRoot(K1[6], 0x3_9bdc_06a7, 47)
    ensures IsCubeRoot(K1[7], 0x3_c19b_f174, 53)
  {
  }

  lemma Row2BeginsInCubeRoots()
    ensures IsCubeRoot(K2[0], 0x3_e49b_69c1, 59)
    ensures IsCubeRoot(K2[1], 0x3_efbe_4786, 61)
    ensures IsCubeRoot(K2[2], 0x4_0fc1_9dc6, 67)
    ensures IsCubeRoot(K2[3], 0x4_240c_a1cc, 71)
  {
  }

  lemma Row2EndsInCubeRoots()
    ensures IsCubeRoot(K2[4], 0x4_2de9_2c6f, 73)
    ensures IsCubeRoot(K2[5], 0x4_4a74_84aa, 79)
    ensures IsCubeRoot(K2[6], 0x4_5cb0_a9dc, 83)
    ensures IsCubeRoot(K2[7], 0x4_76f9_88da, 89)
  {
  }

  lemma Row3BeginsInCubeRoots()
    ensures IsCubeRoot(K3[0], 0x4_983e_5152, 97)
    ensures IsCubeRoot(K3[1], 0x4_a831_c66d, 101)
    ensures IsCubeRoot(K3[2], 0x4_b003_27c8, 103)
    ensures IsCubeRoot(K3[3], 0x4_bf59_7fc7, 107)
  {
  }

  lemma Row3EndsInCubeRoots()
    ensures IsCubeRoot(K3[4], 0x4_c6e0_0bf3, 109)
    ensures IsCubeRoot(K3[5], 0x4_d5a7_9147, 113)
    ensures IsCubeRoot(K3[6], 0x5_06ca_6351, 127)
    ensures IsCubeRoot(K3[7], 0x5_1429_2967, 131)
  {
  }

  lemma Row4BeginsInCubeRoots()
    ensures IsCubeRoot(K4[0], 0x5_27b7_0a85, 137)
    ensures IsCubeRoot(K4[1], 0x5_2e1b_2138, 139)
    ensures IsCubeRoot(K4[2], 0x5_4d2c_6dfc, 149)
    ensures IsCubeRoot(K4[3], 0x5_5338_0d13, 151)
  {
  }

  lemma Row4EndsInCubeRoots()
    ensures IsCubeRoot(K4[4], 0x5_650a_7354, 157)
    ensures IsCubeRoot(K4[5], 0x5_766a_0abb, 163)
    ensures IsCubeRoot(K4[6], 0x5_81c2_c92e, 167)
    ensures IsCubeRoot(K4[7], 0x5_9272_2c85, 173)
  {
  }

  lemma Row5BeginsInCubeRoots()
    ensures IsCubeRoot(K5[0], 0x5_a2bf_e8a1, 179)
    ensures IsCubeRoot(K5[1], 0x5_a81a_664b, 181)
    ensures IsCubeRoot(K5[2], 0x5_c24b_8b70, 191)
    ensures IsCubeRoot(K5[3], 0x5_c76c_51a3, 193)
  {
  }

  lemma Row5EndsInCubeRoots()
    ensures IsCubeRoot(K5[4], 0x5_d192_e819, 197)
    ensures IsCubeRoot(K5[5], 0x5_d699_0624, 199)
    ensures IsCubeRoot(K5[6], 0x5_f40e_3585, 211)
    ensures IsCubeRoot(K5[7], 0x6_106a_a070, 223)
  {
  }

  lemma Row6BeginsInCubeRoots()
    ensures IsCubeRoot(K6[0], 0x6_19a4_c116, 227)
    ensures IsCubeRoot(K6[1], 0x6_1e37_6c08, 229)
    ensures IsCubeRoot(K6[2], 0x6_2748_774c, 233)
    ensures IsCubeRoot(K6[3], 0x6_34b0_bcb5, 239)
  {
  }

  lemma Row6EndsInCubeRoots()
    ensures IsCubeRoot(K6[4], 0x6_391c_0cb3, 241)
    ensures IsCubeRoot(K6[5], 0x6_4ed8_aa4a, 251)
    ensures IsCubeRoot(K6[6], 0x6_5b9c_ca4f, 257)
    ensures IsCubeRoot(K6[7], 0x6_682e_6ff3, 263)
  {
  }

  lemma Row7BeginsInCubeRoots()
    ensures IsCubeRoot(K7[0], 0x6_748f_82ee, 269)
    ensures IsCubeRoot(K7[1], 0x6_78a5_636f, 271)
    ensures IsCubeRoot(K7[2], 0x6_84c8_7814, 277)
    ensures IsCubeRoot(K7[3], 0x6_8cc7_0208, 281)
  {
  }

  lemma Row7EndsInCubeRoots()
    ensures IsCubeRoot(K7[4], 0x6_90be_fffa, 283)
    ensures IsCubeRoot(K7[5], 0x6_a450_6ceb, 293)
    ensures IsCubeRoot(K7[6], 0x6_bef9_a3f7, 307)
    ensures IsCubeRoot(K7[7], 0x6_c671_78f2, 311)
  {
  }

  /** The constants are the eight rows, in order. */
  lemma ConstantsAreTheRows(t: nat)
    requires t < 64
    ensures |K| == 64
    ensures K[t] == (if t < 8 then K0[t] else if t < 16 then K1[t - 8] else if t < 24 then K2[t - 16]
                     else if t < 32 then K3[t - 24] else if t < 40 then K4[t - 32] else if t < 48 then K5[t - 40]
                     else if t < 56 then K6[t - 48] else K7[t - 56])
  {
  }
}
