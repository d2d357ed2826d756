/** Callers of the streaming hash: any sequence of updates, and sha256_hex of acta_cli/src/commands/context.c */
module ContextHash {
  import opened Fips180
  import opened Sha256

  function Flatten(chunks: seq<seq<Byte>>): seq<Byte> {
    if |chunks| == 0 then [] else Flatten(chunks[..|chunks| - 1]) + chunks[|chunks| - 1]
  }

  // Init, one Update per chunk, Final: the chunking does not matter.
  method Sha256OfChunks(chunks: seq<seq<Byte>>) returns (digest: seq<Byte>)
    requires forall c | c in chunks :: |c| < 0x1_0000_0000
    ensures 8 * |Flatten(chunks)| < 0x1_0000_0000_0000_0000 ==> digest == Fips180.Sha256(Flatten(chunks))
  {
    hide Fips180.Sha256, Streamed;
    var ctx := new Sha256Ctx.Init();
    var i := 0;
    while i < |chunks|
      invariant i <= |chunks|
      invariant fresh(ctx) && fresh(ctx.data) && fresh(ctx.state)
      invariant ctx.Valid() && ctx.message == Flatten(chunks[..i])
    {
      assert chunks[..i + 1][..i] == chunks[..i];
      ctx.Update(chunks[i]);
      i := i + 1;
    }
    assert chunks[..|chunks|] == chunks;
    var hash := new Byte[32];
    ctx.Final(hash);
    digest := hash[..];
  }

  // hexd[n]
  function HexDigit(n: Byte): (c: char)
    requires n < 16
    ensures '0' <= c <= '9' || 'a' <= c <= 'f'
  {
    if n == 0 then '0' else if n == 1 then '1' else if n == 2 then '2' else if n == 3 then '3'
    else if n == 4 then '4' else if n == 5 then '5' else if n == 6 then '6' else if n == 7 then '7'
    else if n == 8 then '8' else if n == 9 then '9' else if n == 10 then 'a' else if n == 11 then 'b'
    else if n == 12 then 'c' else if n == 13 then 'd' else if n == 14 then 'e' else 'f'
  }

  // The value of a lower-case hexadecimal digit; 0xff for any other character
  function NibbleOf(c: char): Byte {
    if c == '0' then 0 else if c == '1' then 1 else if c == '2' then 2 else if c == '3' then 3
    else if c == '4' then 4 else if c == '5' then 5 else if c == '6' then 6 else if c == '7' then 7
    else if c == '8' then 8 else if c == '9' then 9 else if c == 'a' then 10 else if c == 'b' then 11
    else if c == 'c' then 12 else if c == 'd' then 13 else if c == 'e' then 14 else if c == 'f' then 15 else 0xff
  }

  lemma DigitsInOrder()
    ensures forall i | 0 <= i < 16 :: NibbleOf("0123456789abcdef"[i]) as int == i
  {
  }

  // The bytes a text of two digits a byte stands for
  function HexValue(s: string): seq<Byte>
    requires |s| % 2 == 0
  {
    if |s| == 0 then [] else HexValue(s[..|s| - 2]) + [HexByte(s[|s| - 2], s[|s| - 1])]
  }

  function HexByte(hi: char, lo: char): Byte { (NibbleOf(hi) << 4) | NibbleOf(lo) }

  predicate IsHex(s: string) { forall k | 0 <= k < |s| :: NibbleOf(s[k]) < 16 }

  lemma HexByteOf(b: Byte)
    ensures b >> 4 < 16 && b & 0x0f < 16
    ensures HexByte(HexDigit(b >> 4), HexDigit(b & 0x0f)) == b
    ensures NibbleOf(HexDigit(b >> 4)) < 16 && NibbleOf(HexDigit(b & 0x0f)) < 16
  {
    DigitNibble(b >> 4);
    DigitNibble(b & 0x0f);
  }

  lemma DigitNibble(n: Byte)
    requires n < 16
    ensures NibbleOf(HexDigit(n)) == n
  {
  }

  lemma HexEmpty()
    ensures IsHex("") && HexValue("") == []
  {
  }

  lemma {:induction false} HexAppend(s: string, hi: char, lo: char)
    requires |s| % 2 == 0 && IsHex(s) && NibbleOf(hi) < 16 && NibbleOf(lo) < 16
    ensures IsHex(s + [hi] + [lo]) && HexValue(s + [hi] + [lo]) == HexValue(s) + [HexByte(hi, lo)]
  {
    hide NibbleOf, HexByte, HexValue;
    var t := s + [hi] + [lo];
    assert t[..|t| - 2] == s && t[|t| - 2] == hi && t[|t| - 1] == lo;
    HexLast(t);
  }

  lemma {:induction false} HexLast(t: string)
    requires |t| % 2 == 0 && |t| > 0
    ensures HexValue(t) == HexValue(t[..|t| - 2]) + [HexByte(t[|t| - 2], t[|t| - 1])]
  {
    hide HexByte;
  }

  // The three calls of sha256_hex
  method OneShot(data: seq<Byte>) returns (digest: seq<Byte>)
    requires |data| < 0x1_0000_0000
    ensures digest == Fips180.Sha256(data)
  {
    hide Fips180.Sha256, Streamed;
    var ctx := new Sha256Ctx.Init();
    ctx.Update(data);
    assert ctx.message == data;
    var hash := new Byte[32];
    ctx.Final(hash);
    digest := hash[..];
  }

  // sha256_hex, without the closing NUL
  method Sha256Hex(data: seq<Byte>) returns (out: string)
    requires |data| < 0x1_0000_0000
    ensures |out| == 64 && IsHex(out)
    ensures forall k | 0 <= k < |out| :: '0' <= out[k] <= '9' || 'a' <= out[k] <= 'f'
    ensures HexValue(out) == Fips180.Sha256(data)
  {
    hide HexValue, IsHex, HexDigit, HexByte, NibbleOf, Fips180.Sha256;
    var digest := OneShot(data);
    out := [];
    HexEmpty();
    var i := 0;
    while i < 32
      invariant i <= 32 && |out| == 2 * i && IsHex(out)
      invariant forall k | 0 <= k < |out| :: '0' <= out[k] <= '9' || 'a' <= out[k] <= 'f'
      invariant HexValue(out) == digest[..i]
    {
      HexByteOf(digest[i]);
      HexAppend(out, HexDigit(digest[i] >> 4), HexDigit(digest[i] & 0x0f));
      out := out + [HexDigit(digest[i] >> 4)] + [HexDigit(digest[i] & 0x0f)];
      i := i + 1;
    }
    assert digest[..32] == digest;
  }
}
