/**
 SHA-256 as FIPS 180-4 states it: padding (section 5.1.1), parsing into 512-bit
 blocks (5.2.1), the message schedule and the compression rounds (6.2.2).
 Messages here are whole bytes, so lengths are counted in bytes and the length
 field holds eight times that.
 */
module Fips180 {
  import opened Prelude

  type Word = bv32

  datatype State = State(a: Word, b: Word, c: Word, d: Word, e: Word, f: Word, g: Word, h: Word)

  const H0 := State(0x6a09_e667, 0xbb67_ae85, 0x3c6e_f372, 0xa54f_f53a,
                    0x510e_527f, 0x9b05_688c, 0x1f83_d9ab, 0x5be0_cd19)

  const K0: seq<Word> :=
    [0x428a_2f98, 0x7137_4491, 0xb5c0_fbcf, 0xe9b5_dba5, 0x3956_c25b, 0x59f1_11f1, 0x923f_82a4, 0xab1c_5ed5]
  const K1: seq<Word> :=
    [0xd807_aa98, 0x1283_5b01, 0x2431_85be, 0x550c_7dc3, 0x72be_5d74, 0x80de_b1fe, 0x9bdc_06a7, 0xc19b_f174]
  const K2: seq<Word> :=
    [0xe49b_69c1, 0xefbe_4786, 0x0fc1_9dc6, 0x240c_a1cc, 0x2de9_2c6f, 0x4a74_84aa, 0x5cb0_a9dc, 0x76f9_88da]
  const K3: seq<Word> :=
    [0x983e_5152, 0xa831_c66d, 0xb003_27c8, 0xbf59_7fc7, 0xc6e0_0bf3, 0xd5a7_9147, 0x06ca_6351, 0x1429_2967]
  const K4: seq<Word> :=
    [0x27b7_0a85, 0x2e1b_2138, 0x4d2c_6dfc, 0x5338_0d13, 0x650a_7354, 0x766a_0abb, 0x81c2_c92e, 0x9272_2c85]
  const K5: seq<Word> :=
    [0xa2bf_e8a1, 0xa81a_664b, 0xc24b_8b70, 0xc76c_51a3, 0xd192_e819, 0xd699_0624, 0xf40e_3585, 0x106a_a070]
  const K6: seq<Word> :=
    [0x19a4_c116, 0x1e37_6c08, 0x2748_774c, 0x34b0_bcb5, 0x391c_0cb3, 0x4ed8_aa4a, 0x5b9c_ca4f, 0x682e_6ff3]
  const K7: seq<Word> :=
    [0x748f_82ee, 0x78a5_636f, 0x84c8_7814, 0x8cc7_0208, 0x90be_fffa, 0xa450_6ceb, 0xbef9_a3f7, 0xc671_78f2]

  const K: seq<Word> := K0 + K1 + K2 + K3 + K4 + K5 + K6 + K7

  // ----- section 4.1.2: the functions

  function RotR(x: Word, n: nat): Word
    requires n <= 32
  {
    x.RotateRight(n)
  }

  /** Addition modulo 2^32. */
  function Plus(x: Word, y: Word): Word {
    x + y
  }

  function Ch(x: Word, y: Word, z: Word): Word {
    (x & y) ^ ((!x) & z)
  }

  function Maj(x: Word, y: Word, z: Word): Word {
    (x & y) ^ (x & z) ^ (y & z)
  }

  function BigSigma0(x: Word): Word {
    RotR(x, 2) ^ RotR(x, 13) ^ RotR(x, 22)
  }

  function BigSigma1(x: Word): Word {
    RotR(x, 6) ^ RotR(x, 11) ^ RotR(x, 25)
  }

  function SmallSigma0(x: Word): Word {
    RotR(x, 7) ^ RotR(x, 18) ^ (x >> 3)
  }

  function SmallSigma1(x: Word): Word {
    RotR(x, 17) ^ RotR(x, 19) ^ (x >> 10)
  }

  // ----- words and bytes, big-endian

  function WordOf(b0: byte, b1: byte, b2: byte, b3: byte): Word {
    (b0 as int * 0x100_0000 + b1 as int * 0x1_0000 + b2 as int * 0x100 + b3 as int) as Word
  }

  /** `n` modulo 256 to the `width`, most significant byte first. */
  function BigEndian(n: nat, width: nat): (b: Bytes)
    ensures |b| == width
  {
    if width == 0 then [] else BigEndian(n / 256, width - 1) + [(n % 256) as byte]
  }

  function BytesOf(w: Word): Bytes {
    BigEndian(w as int, 4)
  }

  // ----- section 6.2.2: one block

  /** The message schedule, word `t`: from the seventeenth on, the sum modulo
      2^32 of the recurrence's four terms. */
  function Schedule(block: Bytes, t: nat): Word
    requires |block| == 64 && t < 64
  {
    if t < 16 then WordOf(block[4 * t], block[4 * t + 1], block[4 * t + 2], block[4 * t + 3])
    else Plus(Plus(Plus(Schedule(block, t - 16), SmallSigma0(Schedule(block, t - 15))),
                   Schedule(block, t - 7)), SmallSigma1(Schedule(block, t - 2)))
  }

  function Round(s: State, k: Word, w: Word): State {
    var t1 := Plus(Plus(Plus(Plus(s.h, BigSigma1(s.e)), Ch(s.e, s.f, s.g)), k), w);
    var t2 := Plus(BigSigma0(s.a), Maj(s.a, s.b, s.c));
    State(Plus(t1, t2), s.a, s.b, s.c, Plus(s.d, t1), s.e, s.f, s.g)
  }

  /** The working variables after the first `t` rounds. */
  function Rounds(s: State, block: Bytes, t: nat): State
    requires |block| == 64 && t <= 64
  {
    if t == 0 then s else Round(Rounds(s, block, t - 1), K[t - 1], Schedule(block, t - 1))
  }

  function Add(x: State, y: State): State {
    State(Plus(x.a, y.a), Plus(x.b, y.b), Plus(x.c, y.c), Plus(x.d, y.d),
          Plus(x.e, y.e), Plus(x.f, y.f), Plus(x.g, y.g), Plus(x.h, y.h))
  }

  function Compress(s: State, block: Bytes): State
    requires |block| == 64
  {
    Add(Rounds(s, block, 64), s)
  }

  // ----- the whole message

  /** The hash value after the blocks of `data`, in order. */
  function Blocks(data: Bytes): State
    requires |data| % 64 == 0
    decreases |data|
  {
    if data == [] then H0
    else Compress(Blocks(data[..|data| - 64]), data[|data| - 64..])
  }

  function Zeros(n: nat): (z: Bytes)
    ensures |z| == n
  {
    seq(n, _ => 0)
  }

  /** After `length` bytes, the one bit and `zeros` more, a block has eight to go. */
  predicate LeavesTheLength(length: nat, zeros: nat) {
    (length + 1 + zeros) % 64 == 56
  }

  /** How many zero bytes follow the one that starts with the one bit: the fewest
      that leave eight to the end of a block. */
  function ZeroBytes(length: nat): (zeros: nat)
    ensures LeavesTheLength(length, zeros)
    ensures forall fewer: nat :: LeavesTheLength(length, fewer) ==> zeros <= fewer
  {
    (119 - length % 64) % 64
  }

  /** The padding of a message of `length` bytes: a one bit, the fewest zero bits
      that leave 64 to the end of a block, and the length in bits. */
  function Padding(length: nat): Bytes {
    [0x80] + Zeros(ZeroBytes(length)) + BigEndian(8 * length, 8)
  }

  lemma PaddedIsWhole(m: Bytes)
    ensures |m + Padding(|m|)| % 64 == 0
  {
    hide BigEndian;
    PaddedLength(|m|);
  }

  lemma PaddedLength(length: nat)
    ensures (length + 9 + ZeroBytes(length)) % 64 == 0
  {
  }

  function DigestOf(s: State): (d: Bytes)
    ensures |d| == 32
  {
    BytesOf(s.a) + BytesOf(s.b) + BytesOf(s.c) + BytesOf(s.d)
    + BytesOf(s.e) + BytesOf(s.f) + BytesOf(s.g) + BytesOf(s.h)
  }

  /** SHA-256 of `m`, defined by the standard below 2^64 bits. */
  function Sha256(m: Bytes): Bytes {
    PaddedIsWhole(m);
    DigestOf(Blocks(m + Padding(|m|)))
  }
}
