/** SHA-256 as sections 5.1.1 and 6.2.2 of FIPS 180-4 define it, and the CPU implementation (src/hash/sha256.cpp). */
module Hash {
  import opened Core
  import opened Codec

  type Block = b: Bytes | |b| == 64 witness Zeros(64)
  type Chain = h: seq<bv32> | |h| == 8 witness [0, 0, 0, 0, 0, 0, 0, 0]

  const H0: Chain := [
    0x6a09e667, 0xbb67ae85, 0x3c6ef372, 0xa54ff53a, 0x510e527f, 0x9b05688c, 0x1f83d9ab, 0x5be0cd19]

  const K: seq<bv32> := [
    0x428a2f98, 0x71374491, 0xb5c0fbcf, 0xe9b5dba5, 0x3956c25b, 0x59f111f1, 0x923f82a4, 0xab1c5ed5,
    0xd807aa98, 0x12835b01, 0x243185be, 0x550c7dc3, 0x72be5d74, 0x80deb1fe, 0x9bdc06a7, 0xc19bf174,
    0xe49b69c1, 0xefbe4786, 0x0fc19dc6, 0x240ca1cc, 0x2de92c6f, 0x4a7484aa, 0x5cb0a9dc, 0x76f988da,
    0x983e5152, 0xa831c66d, 0xb00327c8, 0xbf597fc7, 0xc6e00bf3, 0xd5a79147, 0x06ca6351, 0x14292967,
    0x27b70a85, 0x2e1b2138, 0x4d2c6dfc, 0x53380d13, 0x650a7354, 0x766a0abb, 0x81c2c92e, 0x92722c85,
    0xa2bfe8a1, 0xa81a664b, 0xc24b8b70, 0xc76c51a3, 0xd192e819, 0xd6990624, 0xf40e3585, 0x106aa070,
    0x19a4c116, 0x1e376c08, 0x2748774c, 0x34b0bcb5, 0x391c0cb3, 0x4ed8aa4a, 0x5b9cca4f, 0x682e6ff3,
    0x748f82ee, 0x78a5636f, 0x84c87814, 0x8cc70208, 0x90befffa, 0xa4506ceb, 0xbef9a3f7, 0xc67178f2]

  function RoundConstant(t: nat): bv32
    requires t < 64
  {
    K[t]
  }

  // ---- The word functions of section 4.1.2 ----

  function Rotr(x: bv32, n: bv6): bv32
    requires 0 < n < 32
  {
    (x >> n) | (x << (32 - n))
  }

  function Ch(x: bv32, y: bv32, z: bv32): bv32 { (x & y) ^ (!x & z) }

  function Maj(x: bv32, y: bv32, z: bv32): bv32 { (x & y) ^ (x & z) ^ (y & z) }

  function Big0(x: bv32): bv32 { Rotr(x, 2) ^ Rotr(x, 13) ^ Rotr(x, 22) }

  function Big1(x: bv32): bv32 { Rotr(x, 6) ^ Rotr(x, 11) ^ Rotr(x, 25) }

  function Small0(x: bv32): bv32 { Rotr(x, 7) ^ Rotr(x, 18) ^ (x >> 3) }

  function Small1(x: bv32): bv32 { Rotr(x, 17) ^ Rotr(x, 19) ^ (x >> 10) }

  function Add(x: bv32, y: bv32): bv32 { x + y }

  /** A word from its four bytes, most significant first. */
  function LoadWord(b: Bytes): bv32
    requires |b| == 4
  {
    (b[0] as bv32 << 24) | (b[1] as bv32 << 16) | (b[2] as bv32 << 8) | b[3] as bv32
  }

  function ByteOf(w: bv32): u8 {
    ((w & 0xff) as bv8) as int
  }

  function StoreWord(w: bv32): (b: Bytes)
    ensures |b| == 4
  {
    [ByteOf(w >> 24), ByteOf(w >> 16), ByteOf(w >> 8), ByteOf(w)]
  }

  // ---- Section 6.2.2: the compression function ----

  /** The message schedule. */
  function Schedule(block: Block, t: nat): bv32 {
    if t < 16 then LoadWord(block[4 * t..4 * t + 4])
    else Extend(Schedule(block, t - 2), Schedule(block, t - 7), Schedule(block, t - 15), Schedule(block, t - 16))
  }

  function Extend(w2: bv32, w7: bv32, w15: bv32, w16: bv32): bv32 {
    Add(Add(Add(Small1(w2), w7), Small0(w15)), w16)
  }

  datatype Work = Work(a: bv32, b: bv32, c: bv32, d: bv32, e: bv32, f: bv32, g: bv32, h: bv32)

  function T1(e: bv32, f: bv32, g: bv32, h: bv32, k: bv32, w: bv32): bv32 {
    Add(Add(Add(Add(h, Big1(e)), Ch(e, f, g)), k), w)
  }

  function T2(a: bv32, b: bv32, c: bv32): bv32 {
    Add(Big0(a), Maj(a, b, c))
  }

  function Round(v: Work, k: bv32, w: bv32): Work {
    var t1 := T1(v.e, v.f, v.g, v.h, k, w);
    Work(Add(t1, T2(v.a, v.b, v.c)), v.a, v.b, v.c, Add(v.d, t1), v.e, v.f, v.g)
  }

  /** The working variables after the first `t` rounds. */
  function Rounds(h: Chain, block: Block, t: nat): Work
    requires t <= 64
  {
    if t == 0 then Work(h[0], h[1], h[2], h[3], h[4], h[5], h[6], h[7])
    else Round(Rounds(h, block, t - 1), RoundConstant(t - 1), Schedule(block, t - 1))
  }

  function WorkWords(v: Work): Chain {
    [v.a, v.b, v.c, v.d, v.e, v.f, v.g, v.h]
  }

  function Compress(h: Chain, block: Block): Chain {
    var v := WorkWords(Rounds(h, block, |K|));
    seq(8, i requires 0 <= i < 8 => Add(h[i], v[i]))
  }

  /** Compress the whole 64-byte blocks of `m`, in order. */
  function Fold(h: Chain, m: Bytes): Chain
    decreases |m|
  {
    if |m| < 64 then h else Fold(Compress(h, m[..64]), m[64..])
  }

  // ---- Section 5.1.1: padding ----

  /** The number of zero bytes between the marker byte and the length. */
  function PadZeros(n: nat): nat {
    (119 - n % 64) % 64
  }

  /** The marker byte, the zeros and the length in bits of an `n`-byte message. */
  function Padding(n: nat): Bytes {
    [0x80] + Zeros(PadZeros(n)) + Be(8 * n, 8)
  }

  function Pad(m: Bytes): (p: Bytes)
    ensures |p| > |m|
  {
    m + Padding(|m|)
  }

  /** The bytes of the first `n` words. */
  function StoreWords(h: Chain, n: nat): (b: Bytes)
    requires n <= 8
    ensures |b| == 4 * n
  {
    if n == 0 then [] else StoreWords(h, n - 1) + StoreWord(h[n - 1])
  }

  function Output(h: Chain): (b: Bytes)
    ensures |b| == 32
  {
    StoreWords(h, |h|)
  }

  /** The hash every other component of the model uses. */
  function Sha256(m: Bytes): (digest: Bytes)
    ensures |digest| == 32
  {
    Output(Fold(H0, Pad(m)))
  }

  function HashAll(messages: seq<Bytes>): (digests: seq<Bytes>)
    ensures |digests| == |messages|
  {
    seq(|messages|, i requires 0 <= i < |messages| => Sha256(messages[i]))
  }

  /** Two different inputs with one digest. */
  predicate Collision(x: Bytes, y: Bytes) {
    x != y && Sha256(x) == Sha256(y)
  }

  /** `zeros` zero bits after a message of `bits` bits and the marker leave room for the 64-bit length. */
  predicate FillsBlock(bits: nat, zeros: nat) {
    (bits + 1 + zeros) % 512 == 448
  }

  /** The padding is the one of section 5.1.1: the fewest zero bits that make the marker and the 64-bit length
      end a block, and the length field holds the exact number of bits exactly below 2^61 bytes. */
  lemma PadIsFips(m: Bytes)
    ensures var bits, zeros := 8 * |m|, 8 * PadZeros(|m|) + 7;
            && FillsBlock(bits, zeros)
            && (forall j: nat | FillsBlock(bits, j) :: zeros <= j)
            && Pad(m)[..|m|] == m
            && |Pad(m)| % 64 == 0
            && (|m| < 0x2000_0000_0000_0000 <==> FromBe(Pad(m)[|Pad(m)| - 8..]) == bits)
  {
    forall j: nat | FillsBlock(8 * |m|, j)
      ensures 8 * PadZeros(|m|) + 7 <= j
    {
      FewestZeros(|m|, j);
    }
    FewestZeros(|m|, 8 * PadZeros(|m|) + 7);
    hide PadZeros, FillsBlock;
    assert Pad(m)[|Pad(m)| - 8..] == Padding(|m|)[|Padding(|m|)| - 8..] == Be(8 * |m|, 8);
    Widths();
    if |m| < 0x2000_0000_0000_0000 {
      FromBeOfBe(8 * |m|, 8);
    } else {
      BeOfFromBe(Be(8 * |m|, 8));
    }
  }

  lemma FewestZeros(n: nat, j: nat)
    ensures (n + 1 + PadZeros(n) + 8) % 64 == 0
    ensures FillsBlock(8 * n, 8 * PadZeros(n) + 7)
    ensures FillsBlock(8 * n, j) ==> 8 * PadZeros(n) + 7 <= j
  {
    var q, r := n / 64, n % 64;
    var z := PadZeros(n);
    assert z == if r <= 55 then 55 - r else 119 - r;
    var c := if r <= 55 then 1 else 2;
    assert n + 1 + z + 8 == 64 * (q + c);
    Remainder(n + 1 + z + 8, q + c, 64, 0);
    Remainder(8 * n + 1 + 8 * z + 7, q + c - 1, 512, 448);
    if FillsBlock(8 * n, j) {
      var whole := (8 * n + 1 + j) / 512;
      assert j - (8 * z + 7) == 512 * (whole - (q + c - 1));
    }
  }

  lemma Remainder(n: nat, q: nat, d: nat, r: nat)
    requires d > 0 && n == q * d + r && r < d
    ensures n % d == r
  {
    Quotient(n, d, q, r);
  }

  // ---- The CPU implementation ----

  method FillSchedule(block: Block) returns (w: array<bv32>)
    ensures fresh(w) && w.Length == 64
    ensures forall t | 0 <= t < 64 :: w[t] == Schedule(block, t)
  {
    hide LoadWord, Extend;
    w := new bv32[64];
    for i := 0 to 16
      invariant forall t | 0 <= t < i :: w[t] == Schedule(block, t)
    {
      w[i] := LoadWord(block[4 * i..4 * i + 4]);
    }
    for i := 16 to 64
      invariant forall t | 0 <= t < i :: w[t] == Schedule(block, t)
    {
      w[i] := Extend(w[i - 2], w[i - 7], w[i - 15], w[i - 16]);
    }
  }

  /** The 64 rounds over the working variables. */
  method RunRounds(h: Chain, block: Block) returns (v: Work)
    ensures v == Rounds(h, block, |K|)
  {
    hide Add, T1, T2, Schedule, RoundConstant;
    var w := FillSchedule(block);
    var a, b, c, d := h[0], h[1], h[2], h[3];
    var e, f, g, hh := h[4], h[5], h[6], h[7];
    for i := 0 to |K|
      invariant Work(a, b, c, d, e, f, g, hh) == Rounds(h, block, i)
      modifies {}
    {
      var t1 := T1(e, f, g, hh, RoundConstant(i), w[i]);
      var t2 := T2(a, b, c);
      hh := g; g := f; f := e; e := Add(d, t1);
      d := c; c := b; b := a; a := Add(t1, t2);
    }
    v := Work(a, b, c, d, e, f, g, hh);
  }

  /** `transform`: compress one block into the chaining value, in place. */
  method Transform(h: array<bv32>, block: Block)
    requires h.Length == 8
    modifies h
    ensures h[..] == Compress(old(h[..]), block)
  {
    hide Add, Rounds, WorkWords;
    ghost var h0 := h[..];
    var v := RunRounds(h[..], block);
    var words := WorkWords(v);
    for i := 0 to 8
      invariant forall j | 0 <= j < i :: h[j] == Add(h0[j], words[j])
      invariant forall j | i <= j < 8 :: h[j] == h0[j]
    {
      h[i] := Add(h[i], words[i]);
    }
  }

  /** What is left of the padded message after its whole blocks is one block or two. */
  lemma PadTail(m: Bytes, offset: nat)
    requires offset <= |m| && offset % 64 == 0 && |m| - offset < 64
    ensures PadZeros(|m|) == (if |m| - offset + 9 <= 64 then 64 else 128) - (|m| - offset) - 9
    ensures Pad(m)[offset..] == m[offset..] + Padding(|m|)
  {
    Remainder(|m|, offset / 64, 64, |m| - offset);
    hide Padding;
  }

  /** A whole block of the message is a block of the padded message. */
  lemma WholeBlock(m: Bytes, offset: nat)
    requires offset + 64 <= |m|
    ensures Pad(m)[offset..][..64] == m[offset..offset + 64]
    ensures Pad(m)[offset..][64..] == Pad(m)[offset + 64..]
  {
    hide Padding;
  }

  lemma FoldStep(h: Chain, m: Bytes)
    requires |m| >= 64
    ensures Fold(h, m) == Fold(Compress(h, m[..64]), m[64..])
  {}

  lemma FoldOne(h: Chain, m: Bytes)
    requires |m| == 64
    ensures Fold(h, m) == Compress(h, m)
  {
    assert m[..64] == m;
  }

  lemma FoldTail(h: Chain, tail: Bytes)
    requires |tail| == 64 || |tail| == 128
    ensures |tail| == 64 ==> Fold(h, tail) == Compress(h, tail[|tail| - 64..])
    ensures |tail| == 128 ==> Fold(h, tail) == Compress(Compress(h, tail[..64]), tail[|tail| - 64..])
  {
    hide Compress;
    if |tail| == 64 {
      assert tail[0..] == tail;
      FoldOne(h, tail);
    } else {
      FoldOne(Compress(h, tail[..64]), tail[64..]);
    }
  }

  /** `sha256`: whole blocks straight from the message, then a tail of one or two blocks. */
  method HashOnCpu(message: Bytes) returns (out: Bytes)
    ensures out == Sha256(message)
  {
    hide Compress, StoreWord, Padding, Fold;
    var h := new bv32[8](i requires 0 <= i < 8 => H0[i]);
    assert h[..] == H0;
    var offset := 0;
    while |message| - offset >= 64
      invariant 0 <= offset <= |message| && offset % 64 == 0
      invariant Fold(h[..], Pad(message)[offset..]) == Fold(H0, Pad(message))
    {
      WholeBlock(message, offset);
      FoldStep(h[..], Pad(message)[offset..]);
      Transform(h, message[offset..offset + 64]);
      offset := offset + 64;
    }
    var tail := FillTail(message, offset);
    FoldTail(h[..], tail);
    Transform(h, tail[..64]);
    if |tail| == 128 {
      Transform(h, tail[64..]);
    } else {
      assert tail[..64] == tail[0..];
    }
    out := [];
    for i := 0 to h.Length
      invariant out == StoreWords(h[..], i)
      modifies {}
    {
      out := out + StoreWord(h[i]);
    }
  }

  /** The last one or two blocks: the message's rest, the marker byte, zeros and the bit count. */
  method FillTail(message: Bytes, offset: nat) returns (blocks: Bytes)
    requires offset <= |message| && offset % 64 == 0 && |message| - offset < 64
    ensures |blocks| == if |message| - offset + 9 <= 64 then 64 else 128
    ensures blocks == Pad(message)[offset..]
  {
    hide PadZeros;
    var tail := new u8[128](_ => 0);
    var remaining := |message| - offset;
    for i := 0 to remaining
      invariant forall j | 0 <= j < i :: tail[j] == message[offset + j]
      invariant forall j | i <= j < 128 :: tail[j] == 0
    {
      tail[i] := message[offset + i];
    }
    tail[remaining] := 0x80;
    var padLen := if remaining + 1 + 8 <= 64 then 64 else 128;
    StoreLength(tail, padLen, |message| * 8);
    PadTail(message, offset);
    blocks := tail[..padLen];
    assert blocks[padLen - 8..] == tail[padLen - 8..padLen];
    TailShape(blocks, message[offset..], Padding(|message|));
  }

  /** Write a bit count, modulo 2^64, into the eight bytes before `end`. */
  method StoreLength(tail: array<u8>, end: nat, bits: nat)
    requires 8 <= end <= tail.Length
    modifies tail
    ensures tail[end - 8..end] == Be(bits, 8)
    ensures forall j | 0 <= j < tail.Length && !(end - 8 <= j < end) :: tail[j] == old(tail[j])
  {
    var low := bits % TWO_TO_THE_64;
    for i := 0 to 8
      invariant forall j | 0 <= j < tail.Length && !(end - i <= j < end) :: tail[j] == old(tail[j])
      invariant tail[end - i..end] == Be(low, i)
    {
      BeHead(low, i);
      tail[end - 1 - i] := low / Pow256(i) % 256;
      assert tail[end - 1 - i..end] == [tail[end - 1 - i]] + tail[end - i..end];
    }
    Widths();
    BeTruncates(bits, 8);
  }

  lemma TailShape(blocks: Bytes, rest: Bytes, padding: Bytes)
    requires |blocks| == |rest| + |padding| && |padding| >= 9
    requires forall j | 0 <= j < |rest| :: blocks[j] == rest[j]
    requires blocks[|rest|] == padding[0]
    requires forall j | |rest| < j < |blocks| - 8 :: blocks[j] == padding[j - |rest|]
    requires blocks[|blocks| - 8..] == padding[|padding| - 8..]
    ensures blocks == rest + padding
  {
    forall j | |rest| <= j < |blocks|
      ensures blocks[j] == padding[j - |rest|]
    {
      if j >= |blocks| - 8 {
        assert blocks[j] == blocks[|blocks| - 8..][j - (|blocks| - 8)];
      }
    }
  }
}
