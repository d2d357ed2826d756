/**
 The streaming hash of acta_cli/src/sha256.c.  `message` records every byte handed to Update so far; Valid says what the
 buffer, the counters and the chaining value are in terms of it.  WORD and unsigned long long arithmetic wraps, and is
 written out where it can.
 */
module Sha256 {
  import opened Arith
  import opened Fips180
  import opened Padding

  // Unsigned wrap-around of the C types
  function Uint(x: nat): nat { x % 0x1_0000_0000 }

  function Ull(x: nat): nat { x % 0x1_0000_0000_0000_0000 }

  lemma UllAdd(x: nat, y: nat)
    ensures Ull(Ull(x) + y) == Ull(x + y)
  {
    WrapAdd(x, y, 0x1_0000_0000_0000_0000);
  }

  // The macros EP0, EP1, SIG0 and SIG1, expanded, each shown to be the function of section 4.1.2 of FIPS 180-4.
  function Ep0(x: Word): (r: Word)
    ensures r == BigSigma0(x)
  {
    ((x >> 2) | (x << 30)) ^ ((x >> 13) | (x << 19)) ^ ((x >> 22) | (x << 10))
  }

  function Ep1(x: Word): (r: Word)
    ensures r == BigSigma1(x)
  {
    ((x >> 6) | (x << 26)) ^ ((x >> 11) | (x << 21)) ^ ((x >> 25) | (x << 7))
  }

  function Sig0(x: Word): (r: Word)
    ensures r == SmallSigma0(x)
  {
    ((x >> 7) | (x << 25)) ^ ((x >> 18) | (x << 14)) ^ (x >> 3)
  }

  function Sig1(x: Word): (r: Word)
    ensures r == SmallSigma1(x)
  {
    ((x >> 17) | (x << 15)) ^ ((x >> 19) | (x << 13)) ^ (x >> 10)
  }

  function LoadWord(b0: Byte, b1: Byte, b2: Byte, b3: Byte): (w: Word)
    ensures w == WordOf([b0, b1, b2, b3])
  {
    ((b0 as Word) << 24) | ((b1 as Word) << 16) | ((b2 as Word) << 8) | (b3 as Word)
  }

  // What buffer, counters and chaining value hold once the bytes of m have been taken in
  ghost predicate Streamed(m: seq<Byte>, data: seq<Byte>, datalen: nat, bitlen: nat, state: seq<Word>)
  {
    && |data| == 64 && |state| == 8
    && Past(|m|, datalen)
    && data[..datalen] == m[|m| - datalen..]
    && bitlen == Ull(8 * (|m| - datalen))
    && state == HashBlocks(m[..|m| - datalen])
  }

  lemma PushOpen(m: seq<Byte>, data: seq<Byte>, datalen: nat, bitlen: nat, state: seq<Word>, x: Byte)
    requires Streamed(m, data, datalen, bitlen, state) && datalen < 63
    ensures Streamed(m + [x], data[datalen := x], datalen + 1, bitlen, state)
  {
    hide HashBlocks, Ull;
    var p := m + [x];
    assert |p| - (datalen + 1) == |m| - datalen;
    assert p[..|m| - datalen] == m[..|m| - datalen];
    assert p[|m| - datalen..] == m[|m| - datalen..] + [x];
  }

  lemma PushFull(m: seq<Byte>, data: seq<Byte>, bitlen: nat, state: seq<Word>, x: Byte)
    requires Streamed(m, data, 63, bitlen, state)
    ensures Streamed(m + [x], data[63 := x], 0, Ull(bitlen + 512), Compress(state, data[63 := x]))
  {
    hide Compress, Ull;
    var full, p := m[..|m| - 63], m + [x];
    UllAdd(8 * (|m| - 63), 512);
    assert 8 * |p| == 8 * (|m| - 63) + 512;
    assert p[..|p|] == p;
    assert p[..|p| - 64] == full;
    assert p[|p| - 64..] == m[|m| - 63..] + [x] == data[63 := x];
  }

  lemma BigEndianSplit(n: nat, width: nat)
    requires width > 0 && n < Power256(width)
    ensures n / 256 < Power256(width - 1)
    ensures BigEndian(n, width) == BigEndian(n / 256, width - 1) + [ByteOf(n)]
  {
  }

  // n shifted right by `shift` bytes, for the last `width` stores of the length
  function Stores(n: nat, k: nat, width: nat): (b: seq<Byte>)
    requires k > 0
    ensures |b| == width
    decreases width
  {
    if width == 0 then [] else Stores(n, k * 256, width - 1) + [ByteOf(n / k)]
  }

  lemma {:induction false} StoresAreBigEndian(n: nat, k: nat, width: nat)
    requires k > 0 && n / k < Power256(width)
    ensures Stores(n, k, width) == BigEndian(n / k, width)
    decreases width
  {
    if width > 0 {
      BigEndianSplit(n / k, width);
      DivDiv(n, k);
      StoresAreBigEndian(n, k * 256, width - 1);
    }
  }

  // What the eight assignments to data[56..] in sha256_final store
  lemma LengthField(n: nat)
    requires n < 0x1_0000_0000_0000_0000
    ensures Length64(n) == [
        ByteOf(n / 0x100_0000_0000_0000), ByteOf(n / 0x1_0000_0000_0000), ByteOf(n / 0x100_0000_0000),
        ByteOf(n / 0x1_0000_0000), ByteOf(n / 0x100_0000), ByteOf(n / 0x1_0000), ByteOf(n / 0x100), ByteOf(n)]
  {
    hide ByteOf, BigEndian, Power256;
    EightBytes();
    StoresAreBigEndian(n, 1, 8);
    assert Stores(n, 0x1_0000_0000, 4) ==
      [ByteOf(n / 0x100_0000_0000_0000), ByteOf(n / 0x1_0000_0000_0000), ByteOf(n / 0x100_0000_0000),
       ByteOf(n / 0x1_0000_0000)] by {
      assert Stores(n, 0x1_0000_0000_0000, 2) ==
        [ByteOf(n / 0x100_0000_0000_0000), ByteOf(n / 0x1_0000_0000_0000)];
    }
    assert Stores(n, 0x1_0000, 6) == Stores(n, 0x1_0000_0000, 4) + [ByteOf(n / 0x100_0000), ByteOf(n / 0x1_0000)];
    assert Stores(n, 1, 8) == Stores(n, 0x1_0000, 6) + [ByteOf(n / 0x100), ByteOf(n / 1)];
  }

  lemma ZeroBytesSplit(a: nat, b: nat)
    ensures ZeroBytes(a + b) == ZeroBytes(a) + ZeroBytes(b)
  {
  }

  lemma PaddedInOneBlock(m: seq<Byte>, d: nat)
    requires 8 * |m| < 0x1_0000_0000_0000_0000 && d < 56 && Past(|m|, d)
    ensures Padded(m) == m[..|m| - d] + (m[|m| - d..] + [0x80] + ZeroBytes(55 - d) + Length64(8 * |m|))
  {
    hide ZeroBytes, Zeros, Past, Length64;
    ZerosPast(|m|, d);
    var head, tail := m[..|m| - d], m[|m| - d..];
    assert m == head + tail;
    assert Padded(m) == (head + tail) + [0x80] + ZeroBytes(55 - d) + Length64(8 * |m|);
    Regroup(head, tail, [0x80], ZeroBytes(55 - d), Length64(8 * |m|));
  }

  lemma PaddedInTwoBlocks(m: seq<Byte>, d: nat)
    requires 8 * |m| < 0x1_0000_0000_0000_0000 && d >= 56 && Past(|m|, d)
    ensures Padded(m) == m[..|m| - d] + (m[|m| - d..] + [0x80] + ZeroBytes(63 - d))
                         + (ZeroBytes(56) + Length64(8 * |m|))
  {
    hide ZeroBytes, Zeros, Past, Length64;
    ZerosPast(|m|, d);
    var head, tail := m[..|m| - d], m[|m| - d..];
    assert m == head + tail;
    ZeroBytesSplit(63 - d, 56);
    var z, z', e := ZeroBytes(63 - d), ZeroBytes(56), Length64(8 * |m|);
    assert Padded(m) == (head + tail) + [0x80] + (z + z') + e;
    RegroupTwo(head, tail, [0x80], z, z', e);
  }

  ghost function Tail(m: seq<Byte>, d: nat): seq<Byte>
    requires d <= |m|
  {
    m[|m| - d..]
  }

  // The blocks sha256_final has to hash are the last blocks of the padded message.
  lemma LastBlock(m: seq<Byte>, data: seq<Byte>, d: nat, bitlen: nat, state: seq<Word>)
    requires Streamed(m, data, d, bitlen, state) && 8 * |m| < 0x1_0000_0000_0000_0000 && d < 56
    ensures HashBlocks(Padded(m)) == Compress(state, Tail(m, d) + [0x80] + ZeroBytes(55 - d) + Length64(8 * |m|))
  {
    hide Compress, Length64, ZeroBytes, Ull, Padded;
    PaddedInOneBlock(m, d);
    HashBlocksStep(m[..|m| - d], Tail(m, d) + [0x80] + ZeroBytes(55 - d) + Length64(8 * |m|));
  }

  lemma LastTwoBlocks(m: seq<Byte>, data: seq<Byte>, d: nat, bitlen: nat, state: seq<Word>)
    requires Streamed(m, data, d, bitlen, state) && 8 * |m| < 0x1_0000_0000_0000_0000 && d >= 56
    ensures HashBlocks(Padded(m)) == Compress(Compress(state, Tail(m, d) + [0x80] + ZeroBytes(63 - d)),
                                              ZeroBytes(56) + Length64(8 * |m|))
  {
    hide Compress, Length64, ZeroBytes, Ull, Padded;
    PaddedInTwoBlocks(m, d);
    var head, next := m[..|m| - d], Tail(m, d) + [0x80] + ZeroBytes(63 - d);
    HashBlocksStep(head, next);
    TwoMore(|head|);
    HashBlocksStep(head + next, ZeroBytes(56) + Length64(8 * |m|));
  }

  lemma TwoMore(n: nat)
    requires n % 64 == 0
    ensures (n + 64) % 64 == 0
  {
  }

  lemma HashBlocksStep(p: seq<Byte>, block: seq<Byte>)
    requires |p| % 64 == 0 && |block| == 64
    ensures HashBlocks(p + block) == Compress(HashBlocks(p), block)
  {
    hide Compress;
    assert (p + block)[..|p + block| - 64] == p;
    assert (p + block)[|p + block| - 64..] == block;
  }

  // While the message is shorter than 2^64 bits, the counter never wrapped.
  lemma BitLength(len: nat, d: nat)
    requires 8 * len < 0x1_0000_0000_0000_0000 && Past(len, d)
    ensures Ull(Ull(8 * (len - d)) + Uint(d * 8)) == 8 * len
  {
  }

  lemma UllRange(x: nat)
    ensures Ull(x) < 0x1_0000_0000_0000_0000
  {
  }

  // The first i bytes of w stand at h[k..].
  ghost predicate Slot(h: seq<Byte>, k: nat, w: Word, i: nat)
    requires k + i <= |h| && i <= 4
  {
    h[k..k + i] == BytesOf(w)[..i]
  }

  // All eight words, i bytes each
  ghost predicate Slots(h: seq<Byte>, s: seq<Word>, i: nat)
    requires |h| == 32 && |s| == 8 && i <= 4
  {
    && Slot(h, 0, s[0], i) && Slot(h, 4, s[1], i) && Slot(h, 8, s[2], i) && Slot(h, 12, s[3], i)
    && Slot(h, 16, s[4], i) && Slot(h, 20, s[5], i) && Slot(h, 24, s[6], i) && Slot(h, 28, s[7], i)
  }

  lemma SlotsEmpty(h: seq<Byte>, s: seq<Word>)
    requires |h| == 32 && |s| == 8
    ensures Slots(h, s, 0)
  {
  }

  lemma SlotStep(h: seq<Byte>, h': seq<Byte>, k: nat, w: Word, i: nat)
    requires k + i < |h| == |h'| && i < 4
    requires Slot(h, k, w, i) && h'[k..k + i] == h[k..k + i] && h'[k + i] == BytesOf(w)[i]
    ensures Slot(h', k, w, i + 1)
  {
    hide BytesOf;
    assert h'[k..k + i + 1] == h'[k..k + i] + [h'[k + i]];
    assert BytesOf(w)[..i + 1] == BytesOf(w)[..i] + [BytesOf(w)[i]];
  }

  // All but the i-th byte of each word are as before.
  ghost predicate OnlyColumn(h: seq<Byte>, h': seq<Byte>, i: nat)
    requires |h| == |h'| == 32
  {
    forall k | 0 <= k < 32 && k != i && k != i + 4 && k != i + 8 && k != i + 12
      && k != i + 16 && k != i + 20 && k != i + 24 && k != i + 28 :: h'[k] == h[k]
  }

  lemma ColumnElsewhere(h: seq<Byte>, h': seq<Byte>, i: nat, w: nat)
    requires |h| == |h'| == 32 && i < 4 && w < 8 && OnlyColumn(h, h', i)
    ensures h'[4 * w..4 * w + i] == h[4 * w..4 * w + i]
  {
  }

  // One turn of the last loop of sha256_final
  lemma SlotsStep(h: seq<Byte>, h': seq<Byte>, s: seq<Word>, i: nat)
    requires |h| == |h'| == 32 && |s| == 8 && i < 4 && Slots(h, s, i)
    requires OnlyColumn(h, h', i)
    requires h'[i] == BytesOf(s[0])[i] && h'[i + 4] == BytesOf(s[1])[i]
    requires h'[i + 8] == BytesOf(s[2])[i] && h'[i + 12] == BytesOf(s[3])[i]
    requires h'[i + 16] == BytesOf(s[4])[i] && h'[i + 20] == BytesOf(s[5])[i]
    requires h'[i + 24] == BytesOf(s[6])[i] && h'[i + 28] == BytesOf(s[7])[i]
    ensures Slots(h', s, i + 1)
  {
    hide BytesOf, Slot, OnlyColumn;
    ColumnElsewhere(h, h', i, 0);
    ColumnElsewhere(h, h', i, 1);
    ColumnElsewhere(h, h', i, 2);
    ColumnElsewhere(h, h', i, 3);
    ColumnElsewhere(h, h', i, 4);
    ColumnElsewhere(h, h', i, 5);
    ColumnElsewhere(h, h', i, 6);
    ColumnElsewhere(h, h', i, 7);
    SlotStep(h, h', 0, s[0], i);
    SlotStep(h, h', 4, s[1], i);
    SlotStep(h, h', 8, s[2], i);
    SlotStep(h, h', 12, s[3], i);
    SlotStep(h, h', 16, s[4], i);
    SlotStep(h, h', 20, s[5], i);
    SlotStep(h, h', 24, s[6], i);
    SlotStep(h, h', 28, s[7], i);
  }

  lemma SlotFull(h: seq<Byte>, k: nat, w: Word)
    requires k + 4 <= |h| && Slot(h, k, w, 4)
    ensures h[k..k + 4] == BytesOf(w)
  {
    hide BytesOf;
  }

  lemma FourSlotsFull(h: seq<Byte>, k: nat, w0: Word, w1: Word, w2: Word, w3: Word)
    requires k + 16 <= |h|
    requires Slot(h, k, w0, 4) && Slot(h, k + 4, w1, 4) && Slot(h, k + 8, w2, 4) && Slot(h, k + 12, w3, 4)
    ensures h[k..k + 16] == BytesOf(w0) + BytesOf(w1) + BytesOf(w2) + BytesOf(w3)
  {
    hide BytesOf, Slot;
    SlotFull(h, k, w0);
    SlotFull(h, k + 4, w1);
    SlotFull(h, k + 8, w2);
    SlotFull(h, k + 12, w3);
    assert h[k..k + 16] == h[k..k + 4] + h[k + 4..k + 8] + h[k + 8..k + 12] + h[k + 12..k + 16];
  }

  lemma SlotsFull(h: seq<Byte>, s: seq<Word>)
    requires |h| == 32 && |s| == 8 && Slots(h, s, 4)
    ensures h == DigestOf(s)
  {
    hide BytesOf, Slot;
    FourSlotsFull(h, 0, s[0], s[1], s[2], s[3]);
    FourSlotsFull(h, 16, s[4], s[5], s[6], s[7]);
    assert h == h[0..16] + h[16..32];
  }

  // (w >> (24 - i * 8)) & 0xff, the shift amount being a WORD
  function ByteAt(w: Word, i: nat): (b: Byte)
    requires i < 4
    ensures b == BytesOf(w)[i]
  {
    var shift: Word := if i == 0 then 24 else if i == 1 then 16 else if i == 2 then 8 else 0;
    ((w >> shift) & 0xff) as Byte
  }

  // One word of the first loop and one of the second
  lemma LoadedWord(block: seq<Byte>, i: nat)
    requires |block| == 64 && i < 16
    ensures LoadWord(block[4 * i], block[4 * i + 1], block[4 * i + 2], block[4 * i + 3]) == Schedule(block, i)
  {
    hide LoadWord, WordOf;
    assert block[4 * i..4 * i + 4] == [block[4 * i], block[4 * i + 1], block[4 * i + 2], block[4 * i + 3]];
  }

  lemma ExtendedWord(block: seq<Byte>, i: nat)
    requires |block| == 64 && 16 <= i < 64
    ensures Add(Add(Add(Sig1(Schedule(block, i - 2)), Schedule(block, i - 7)), Sig0(Schedule(block, i - 15))),
                Schedule(block, i - 16)) == Schedule(block, i)
  {
    hide Add, Sig0, Sig1, SmallSigma0, SmallSigma1;
  }

  function Sums(v: Vars, s: seq<Word>): seq<Word>
    requires |s| == 8
  {
    [Add(v.a, s[0]), Add(v.b, s[1]), Add(v.c, s[2]), Add(v.d, s[3]),
     Add(v.e, s[4]), Add(v.f, s[5]), Add(v.g, s[6]), Add(v.h, s[7])]
  }

  lemma AreSums(v: Vars, s: seq<Word>, r: seq<Word>)
    requires |s| == |r| == 8
    requires r[0] == Add(v.a, s[0]) && r[1] == Add(v.b, s[1]) && r[2] == Add(v.c, s[2]) && r[3] == Add(v.d, s[3])
    requires r[4] == Add(v.e, s[4]) && r[5] == Add(v.f, s[5]) && r[6] == Add(v.g, s[6]) && r[7] == Add(v.h, s[7])
    ensures r == Sums(v, s)
  {
    hide Add;
  }

  // Eight bytes behind the first 56
  lemma TailStored(d: seq<Byte>, was: seq<Byte>, b: seq<Byte>)
    requires |d| == |was| == 64 && |b| == 8
    requires forall k | 0 <= k < 56 :: d[k] == was[k]
    requires d[56] == b[0] && d[57] == b[1] && d[58] == b[2] && d[59] == b[3]
    requires d[60] == b[4] && d[61] == b[5] && d[62] == b[6] && d[63] == b[7]
    ensures d == was[..56] + b
  {
  }

  lemma Summed(s: seq<Word>, block: seq<Byte>, v: Vars)
    requires |s| == 8 && |block| == 64
    requires v == Rounds(Vars(s[0], s[1], s[2], s[3], s[4], s[5], s[6], s[7]), block, 64)
    ensures Compress(s, block) == Sums(v, s)
  {
    hide Rounds, Add;
  }

  class Sha256Ctx {
    const data: array<Byte>
    var datalen: nat
    var bitlen: nat
    const state: array<Word>
    ghost var message: seq<Byte>

    ghost predicate Shape()
      reads this, data, state
    {
      data.Length == 64 && state.Length == 8 && datalen <= 64
    }

    ghost predicate Valid()
      reads this, data, state
    {
      Shape() && datalen < 64 && Streamed(message, data[..], datalen, bitlen, state[..])
    }

    constructor Init()
      ensures Valid() && message == [] && fresh(data) && fresh(state)
    {
      data := new Byte[64];
      state := new Word[] [
        0x6a09e667, 0xbb67ae85, 0x3c6ef372, 0xa54ff53a, 0x510e527f, 0x9b05688c, 0x1f83d9ab, 0x5be0cd19
      ];
      datalen, bitlen, message := 0, 0, [];
      new;
      assert state[..] == H0;
    }

    // The first two loops of sha256_transform
    method Expand() returns (m: array<Word>)
      requires Shape()
      ensures fresh(m) && m.Length == 64
      ensures forall t: nat :: t < 64 ==> m[t] == Schedule(data[..], t)
    {
      hide LoadWord, Add, Sig0, Sig1, Schedule;
      ghost var block := data[..];
      m := new Word[64];
      var i := 0;
      while i < 16
        invariant i <= 16
        invariant forall t: nat :: t < i ==> m[t] == Schedule(block, t)
      {
        var j := 4 * i;
        LoadedWord(block, i);
        m[i] := LoadWord(data[j], data[j + 1], data[j + 2], data[j + 3]);
        i := i + 1;
      }
      while i < 64
        invariant 16 <= i <= 64
        invariant forall t: nat :: t < i ==> m[t] == Schedule(block, t)
      {
        ExtendedWord(block, i);
        m[i] := Add(Add(Add(Sig1(m[i - 2]), m[i - 7]), Sig0(m[i - 15])), m[i - 16]);
        i := i + 1;
      }
    }

    // The third loop
    method Mix(m: array<Word>) returns (r: Vars)
      requires Shape() && m.Length == 64
      requires forall t: nat :: t < 64 ==> m[t] == Schedule(data[..], t)
      ensures r == Rounds(Vars(state[0], state[1], state[2], state[3], state[4], state[5], state[6], state[7]),
                          data[..], 64)
    {
      hide Schedule;
      ghost var block := data[..];
      var a, b, c, d := state[0], state[1], state[2], state[3];
      var e, f, g, h := state[4], state[5], state[6], state[7];
      ghost var start := Vars(a, b, c, d, e, f, g, h);
      var i := 0;
      while i < 64
        invariant i <= 64
        invariant Vars(a, b, c, d, e, f, g, h) == Rounds(start, block, i)
      {
        var t1 := Add(Add(Add(Add(h, Ep1(e)), Ch(e, f, g)), K[i]), m[i]);
        var t2 := Add(Ep0(a), Maj(a, b, c));
        h := g;
        g := f;
        f := e;
        e := Add(d, t1);
        d := c;
        c := b;
        b := a;
        a := Add(t1, t2);
        i := i + 1;
      }
      r := Vars(a, b, c, d, e, f, g, h);
    }

    // The sums at the end of sha256_transform
    method AddTo(v: Vars)
      requires Shape()
      modifies state
      ensures state[0] == Add(v.a, old(state[0])) && state[1] == Add(v.b, old(state[1]))
      ensures state[2] == Add(v.c, old(state[2])) && state[3] == Add(v.d, old(state[3]))
      ensures state[4] == Add(v.e, old(state[4])) && state[5] == Add(v.f, old(state[5]))
      ensures state[6] == Add(v.g, old(state[6])) && state[7] == Add(v.h, old(state[7]))
    {
      hide Add;
      state[0] := Add(v.a, state[0]);
      state[1] := Add(v.b, state[1]);
      state[2] := Add(v.c, state[2]);
      state[3] := Add(v.d, state[3]);
      state[4] := Add(v.e, state[4]);
      state[5] := Add(v.f, state[5]);
      state[6] := Add(v.g, state[6]);
      state[7] := Add(v.h, state[7]);
    }

    // sha256_transform
    method Transform()
      requires Shape()
      modifies state
      ensures state[..] == Compress(old(state[..]), data[..])
    {
      hide Rounds, Schedule, Sums, Compress;
      ghost var s := state[..];
      var m := Expand();
      var v := Mix(m);
      Summed(s, data[..], v);
      AddTo(v);
      AreSums(v, s, state[..]);
    }

    // The loop index is a WORD: a length of 2^32 or more would never end the C loop.
    method Update(input: seq<Byte>)
      requires Valid() && |input| < 0x1_0000_0000
      modifies this, data, state
      ensures Valid() && message == old(message) + input
    {
      hide HashBlocks, Ull;
      var i := 0;
      while i < |input|
        invariant i <= |input|
        invariant Valid() && message == old(message) + input[..i]
      {
        AddByte(input[i]);
        i := Uint(i + 1);
      }
    }

    // One turn of the loop in sha256_update
    method AddByte(x: Byte)
      requires Valid()
      modifies this, data, state
      ensures Valid() && message == old(message) + [x]
    {
      hide HashBlocks, Compress, Ull;
      if datalen < 63 {
        PushOpen(message, data[..], datalen, bitlen, state[..], x);
      } else {
        PushFull(message, data[..], bitlen, state[..], x);
      }
      data[datalen] := x;
      datalen := datalen + 1;
      message := message + [x];
      if datalen == 64 {
        Transform();
        bitlen := Ull(bitlen + 512);
        datalen := 0;
      }
    }

    // data[from..to] becomes the 0x80 byte followed by zeros.
    method PadTo(from: nat, to: nat)
      requires Shape() && from < to <= 64
      modifies data
      ensures data[..to] == old(data[..from]) + [0x80] + ZeroBytes(to - from - 1)
    {
      var i := from;
      data[i] := 0x80;
      i := i + 1;
      while i < to
        invariant from < i <= to
        invariant data[..i] == old(data[..from]) + [0x80] + ZeroBytes(i - from - 1)
      {
        data[i] := 0x00;
        i := i + 1;
      }
    }

    // memset(ctx->data, 0, 56)
    method ZeroFirst56()
      requires Shape()
      modifies data
      ensures data[..56] == ZeroBytes(56)
    {
      forall j | 0 <= j < 56 {
        data[j] := 0;
      }
    }

    method StoreLength()
      requires Shape() && bitlen < 0x1_0000_0000_0000_0000
      modifies data
      ensures data[..] == old(data[..56]) + Length64(bitlen)
    {
      hide ByteOf, Length64;
      LengthField(bitlen);
      ghost var was := data[..];
      StoreEight(bitlen);
      TailStored(data[..], was, Length64(bitlen));
    }

    method StoreEight(n: nat)
      requires Shape()
      modifies data
      ensures forall k | 0 <= k < 56 :: data[k] == old(data[k])
      ensures data[56] == ByteOf(n / 0x100_0000_0000_0000) && data[57] == ByteOf(n / 0x1_0000_0000_0000)
      ensures data[58] == ByteOf(n / 0x100_0000_0000) && data[59] == ByteOf(n / 0x1_0000_0000)
      ensures data[60] == ByteOf(n / 0x100_0000) && data[61] == ByteOf(n / 0x1_0000)
      ensures data[62] == ByteOf(n / 0x100) && data[63] == ByteOf(n)
    {
      hide ByteOf;
      data[63] := ByteOf(n);
      data[62] := ByteOf(n / 0x100);
      data[61] := ByteOf(n / 0x1_0000);
      data[60] := ByteOf(n / 0x100_0000);
      data[59] := ByteOf(n / 0x1_0000_0000);
      data[58] := ByteOf(n / 0x100_0000_0000);
      data[57] := ByteOf(n / 0x1_0000_0000_0000);
      data[56] := ByteOf(n / 0x100_0000_0000_0000);
    }

    // One turn of the last loop
    method WriteColumn(hash: array<Byte>, i: nat)
      requires Shape() && hash.Length == 32 && hash != data && i < 4
      modifies hash
      ensures OnlyColumn(old(hash[..]), hash[..], i)
      ensures hash[i] == BytesOf(state[0])[i] && hash[i + 4] == BytesOf(state[1])[i]
      ensures hash[i + 8] == BytesOf(state[2])[i] && hash[i + 12] == BytesOf(state[3])[i]
      ensures hash[i + 16] == BytesOf(state[4])[i] && hash[i + 20] == BytesOf(state[5])[i]
      ensures hash[i + 24] == BytesOf(state[6])[i] && hash[i + 28] == BytesOf(state[7])[i]
    {
      hide BytesOf, ByteAt;
      hash[i] := ByteAt(state[0], i);
      hash[i + 4] := ByteAt(state[1], i);
      hash[i + 8] := ByteAt(state[2], i);
      hash[i + 12] := ByteAt(state[3], i);
      hash[i + 16] := ByteAt(state[4], i);
      hash[i + 20] := ByteAt(state[5], i);
      hash[i + 24] := ByteAt(state[6], i);
      hash[i + 28] := ByteAt(state[7], i);
    }

    method WriteDigest(hash: array<Byte>)
      requires Shape() && hash.Length == 32 && hash != data
      modifies hash
      ensures hash[..] == DigestOf(state[..])
    {
      hide BytesOf, Slots, DigestOf, OnlyColumn;
      SlotsEmpty(hash[..], state[..]);
      var i := 0;
      while i < 4
        invariant i <= 4
        invariant Slots(hash[..], state[..], i)
      {
        ghost var before := hash[..];
        WriteColumn(hash, i);
        SlotsStep(before, hash[..], state[..], i);
        i := i + 1;
      }
      SlotsFull(hash[..], state[..]);
    }

    // What the padding leaves to be done: the last block wants the length only.
    ghost predicate LastBlockOpen(m: seq<Byte>)
      reads this, data, state
    {
      && Shape()
      && (8 * |m| < 0x1_0000_0000_0000_0000 ==>
            HashBlocks(Padded(m)) == Compress(state[..], data[..56] + Length64(8 * |m|)))
    }

    // The first branch of sha256_final
    method PadShort()
      requires Valid() && datalen < 56
      modifies data
      ensures LastBlockOpen(message)
    {
      hide Compress, HashBlocks, Padded, Length64, ZeroBytes, Ull, Past;
      if 8 * |message| < 0x1_0000_0000_0000_0000 {
        LastBlock(message, data[..], datalen, bitlen, state[..]);
      }
      PadTo(datalen, 56);
    }

    // The second branch
    method PadLong()
      requires Valid() && datalen >= 56
      modifies data, state
      ensures LastBlockOpen(message)
    {
      hide Compress, HashBlocks, Padded, Length64, ZeroBytes, Ull, Past;
      if 8 * |message| < 0x1_0000_0000_0000_0000 {
        LastTwoBlocks(message, data[..], datalen, bitlen, state[..]);
      }
      PadTo(datalen, 64);
      assert data[..64] == data[..];
      Transform();
      ZeroFirst56();
    }

    // sha256_final.  The context is spent afterwards.
    method Final(hash: array<Byte>)
      requires Valid() && hash.Length == 32 && hash != data
      modifies this, data, state, hash
      ensures message == old(message)
      ensures 8 * |message| < 0x1_0000_0000_0000_0000 ==> hash[..] == Sha256(message)
    {
      hide Compress, HashBlocks, Padded, Length64, DigestOf, Ull, Uint, Past;
      if 8 * |message| < 0x1_0000_0000_0000_0000 {
        BitLength(|message|, datalen);
      }
      if datalen < 56 {
        PadShort();
      } else {
        PadLong();
      }
      UllRange(bitlen + Uint(datalen * 8));
      bitlen := Ull(bitlen + Uint(datalen * 8));
      StoreLength();
      Transform();
      WriteDigest(hash);
    }
  }
}
