/** How many bytes section 5.1.1 of FIPS 180-4 puts between a message and its length, for whole-byte messages */
module Padding {
  // With z zero bytes after the 0x80 byte, the 64-bit length ends a block.
  predicate LengthFits(len: nat, z: nat) { (len + 1 + z) % 64 == 56 }

  // The number of zero bytes
  function Zeros(len: nat): nat { (55 - len) % 64 }

  lemma ZerosIsLeast(len: nat)
    ensures LengthFits(len, Zeros(len))
    ensures forall z: nat | z < Zeros(len) :: !LengthFits(len, z)
  {
  }

  lemma WholeBlocks(len: nat)
    ensures (len + 1 + Zeros(len) + 8) % 64 == 0
  {
  }

  // len is d bytes past a block boundary
  predicate Past(len: nat, d: nat) { d < 64 && d <= len && (len - d) % 64 == 0 }

  lemma ZerosPast(len: nat, d: nat)
    requires Past(len, d)
    ensures d <= len && d < 64
    ensures Zeros(len) == if d < 56 then 55 - d else 63 - d + 56
  {
  }
}

/**
 SHA-256 as FIPS 180-4 defines it, on messages that are whole bytes: the functions of section 4.1.2, the constants of
 section 4.2.2, the padding of section 5.1.1, the initial hash value of section 5.3.3 and the computation of
 section 6.2.2.  Nothing here looks at how the C file buffers its input.
 */
module Fips180 {
  import opened Padding

  type Word = bv32
  type Byte = bv8

  // Section 3.2: addition modulo 2^32
  function Add(x: Word, y: Word): Word { x + y }

  lemma AddCounts(x: Word, y: Word)
    ensures Add(x, 0) == x && Add(x, y + 1) == Add(x, y) + 1
  {
  }

  // Section 4.1.2
  function Ch(x: Word, y: Word, z: Word): Word { (x & y) ^ (!x & z) }

  function Maj(x: Word, y: Word, z: Word): Word { (x & y) ^ (x & z) ^ (y & z) }

  // Where x has a one Ch takes the bit of y, elsewhere that of z.
  lemma ChChooses(x: Word, y: Word, z: Word)
    ensures Ch(x, y, z) & x == y & x
    ensures Ch(x, y, z) & !x == z & !x
  {
  }

  // Where two arguments agree Maj takes their bit; among three bits two always agree.
  lemma MajAgreesXY(x: Word, y: Word, z: Word)
    ensures Maj(x, y, z) & !(x ^ y) == x & !(x ^ y)
  {
  }

  lemma MajAgreesXZ(x: Word, y: Word, z: Word)
    ensures Maj(x, y, z) & !(x ^ z) == x & !(x ^ z)
  {
  }

  lemma MajAgreesYZ(x: Word, y: Word, z: Word)
    ensures Maj(x, y, z) & !(y ^ z) == y & !(y ^ z)
  {
  }

  function BigSigma0(x: Word): Word { x.RotateRight(2) ^ x.RotateRight(13) ^ x.RotateRight(22) }

  function BigSigma1(x: Word): Word { x.RotateRight(6) ^ x.RotateRight(11) ^ x.RotateRight(25) }

  function SmallSigma0(x: Word): Word { x.RotateRight(7) ^ x.RotateRight(18) ^ (x >> 3) }

  function SmallSigma1(x: Word): Word { x.RotateRight(17) ^ x.RotateRight(19) ^ (x >> 10) }

  // Section 4.2.2
  const K_ROWS: seq<seq<Word>> := [
    [0x428a2f98, 0x71374491, 0xb5c0fbcf, 0xe9b5dba5, 0x3956c25b, 0x59f111f1, 0x923f82a4, 0xab1c5ed5],
    [0xd807aa98, 0x12835b01, 0x243185be, 0x550c7dc3, 0x72be5d74, 0x80deb1fe, 0x9bdc06a7, 0xc19bf174],
    [0xe49b69c1, 0xefbe4786, 0x0fc19dc6, 0x240ca1cc, 0x2de92c6f, 0x4a7484aa, 0x5cb0a9dc, 0x76f988da],
    [0x983e5152, 0xa831c66d, 0xb00327c8, 0xbf597fc7, 0xc6e00bf3, 0xd5a79147, 0x06ca6351, 0x14292967],
    [0x27b70a85, 0x2e1b2138, 0x4d2c6dfc, 0x53380d13, 0x650a7354, 0x766a0abb, 0x81c2c92e, 0x92722c85],
    [0xa2bfe8a1, 0xa81a664b, 0xc24b8b70, 0xc76c51a3, 0xd192e819, 0xd6990624, 0xf40e3585, 0x106aa070],
    [0x19a4c116, 0x1e376c08, 0x2748774c, 0x34b0bcb5, 0x391c0cb3, 0x4ed8aa4a, 0x5b9cca4f, 0x682e6ff3],
    [0x748f82ee, 0x78a5636f, 0x84c87814, 0x8cc70208, 0x90befffa, 0xa4506ceb, 0xbef9a3f7, 0xc67178f2]
  ]

  const K: seq<Word> :=
    K_ROWS[0] + K_ROWS[1] + K_ROWS[2] + K_ROWS[3] + K_ROWS[4] + K_ROWS[5] + K_ROWS[6] + K_ROWS[7]

  // Section 5.3.3
  const H0: seq<Word> := [
    0x6a09e667, 0xbb67ae85, 0x3c6ef372, 0xa54ff53a, 0x510e527f, 0x9b05688c, 0x1f83d9ab, 0x5be0cd19
  ]

  // Section 5.2.1: a word is four bytes, the leftmost the most significant.
  function WordOf(b: seq<Byte>): Word
    requires |b| == 4
  {
    ((b[0] as Word) << 24) | ((b[1] as Word) << 16) | ((b[2] as Word) << 8) | (b[3] as Word)
  }

  function BytesOf(w: Word): (b: seq<Byte>)
    ensures |b| == 4
  {
    [((w >> 24) & 0xff) as Byte, ((w >> 16) & 0xff) as Byte, ((w >> 8) & 0xff) as Byte, (w & 0xff) as Byte]
  }

  // Section 6.2.2, step 1
  function Schedule(block: seq<Byte>, t: nat): Word
    requires |block| == 64 && t < 64
  {
    if t < 16 then WordOf(block[4 * t..4 * t + 4])
    else Add(Add(Add(SmallSigma1(Schedule(block, t - 2)), Schedule(block, t - 7)),
                 SmallSigma0(Schedule(block, t - 15))), Schedule(block, t - 16))
  }

  // The working variables of section 6.2
  datatype Vars = Vars(a: Word, b: Word, c: Word, d: Word, e: Word, f: Word, g: Word, h: Word)

  // Section 6.2.2, step 3, for one t
  function Round(v: Vars, k: Word, w: Word): Vars {
    var t1 := Add(Add(Add(Add(v.h, BigSigma1(v.e)), Ch(v.e, v.f, v.g)), k), w);
    var t2 := Add(BigSigma0(v.a), Maj(v.a, v.b, v.c));
    Vars(Add(t1, t2), v.a, v.b, v.c, Add(v.d, t1), v.e, v.f, v.g)
  }

  function Rounds(v: Vars, block: seq<Byte>, t: nat): Vars
    requires |block| == 64 && t <= 64
  {
    if t == 0 then v else Round(Rounds(v, block, t - 1), K[t - 1], Schedule(block, t - 1))
  }

  // Section 6.2.2: the next intermediate hash value
  function Compress(hash: seq<Word>, block: seq<Byte>): (r: seq<Word>)
    requires |hash| == 8 && |block| == 64
    ensures |r| == 8
  {
    var v := Rounds(Vars(hash[0], hash[1], hash[2], hash[3], hash[4], hash[5], hash[6], hash[7]), block, 64);
    [Add(v.a, hash[0]), Add(v.b, hash[1]), Add(v.c, hash[2]), Add(v.d, hash[3]),
     Add(v.e, hash[4]), Add(v.f, hash[5]), Add(v.g, hash[6]), Add(v.h, hash[7])]
  }

  // The intermediate hash value after all blocks of p
  function HashBlocks(p: seq<Byte>): (r: seq<Word>)
    requires |p| % 64 == 0
    ensures |r| == 8
  {
    if |p| == 0 then H0 else Compress(HashBlocks(p[..|p| - 64]), p[|p| - 64..])
  }

  function ByteOf(n: nat): Byte { (n % 256) as Byte }

  // n as `width` bytes, most significant first
  function BigEndian(n: nat, width: nat): (b: seq<Byte>)
    requires n < Power256(width)
    ensures |b| == width
  {
    if width == 0 then [] else BigEndian(n / 256, width - 1) + [ByteOf(n)]
  }

  function Power256(k: nat): (p: nat)
    ensures p > 0
  {
    if k == 0 then 1 else 256 * Power256(k - 1)
  }

  lemma EightBytes()
    ensures Power256(8) == 0x1_0000_0000_0000_0000
  {
    assert Power256(2) == 0x1_0000;
    assert Power256(4) == 0x1_0000_0000;
    assert Power256(6) == 0x1_0000_0000_0000;
  }

  // The 64-bit representation of a length in bits
  function Length64(bits: nat): (b: seq<Byte>)
    requires bits < 0x1_0000_0000_0000_0000
    ensures |b| == 8
  {
    EightBytes();
    BigEndian(bits, 8)
  }

  function ZeroBytes(n: nat): (z: seq<Byte>)
    ensures |z| == n
  {
    seq(n, _ => 0)
  }

  function Padded(m: seq<Byte>): (p: seq<Byte>)
    requires 8 * |m| < 0x1_0000_0000_0000_0000
    ensures |p| % 64 == 0
  {
    hide Zeros;
    WholeBlocks(|m|);
    m + [0x80] + ZeroBytes(Zeros(|m|)) + Length64(8 * |m|)
  }

  // The eight words as bytes
  function DigestOf(h: seq<Word>): (digest: seq<Byte>)
    requires |h| == 8
    ensures |digest| == 32
  {
    (BytesOf(h[0]) + BytesOf(h[1]) + BytesOf(h[2]) + BytesOf(h[3]))
    + (BytesOf(h[4]) + BytesOf(h[5]) + BytesOf(h[6]) + BytesOf(h[7]))
  }

  // Sections 5.1.1 and 6.2: the digest of a message shorter than 2^64 bits
  function Sha256(m: seq<Byte>): (digest: seq<Byte>)
    requires 8 * |m| < 0x1_0000_0000_0000_0000
    ensures |digest| == 32
  {
    DigestOf(HashBlocks(Padded(m)))
  }

  // The leftmost byte is the most significant.
  lemma LeftmostFirst(b: seq<Byte>)
    requires |b| == 4
    ensures WordOf(b) >> 24 == b[0] as Word && (WordOf(b) >> 16) & 0xff == b[1] as Word
    ensures (WordOf(b) >> 8) & 0xff == b[2] as Word && WordOf(b) & 0xff == b[3] as Word
  {
  }

  lemma WordBytesRoundTrip(w: Word, b: seq<Byte>)
    requires |b| == 4
    ensures WordOf(BytesOf(w)) == w
    ensures BytesOf(WordOf(b)) == b
  {
  }
}
