/** The OpenCL SHA-256 kernel and the packing of a batch around it (src/gpu/gpu.cpp). The kernel's compression
    function is the CPU's, word for word, so both share `Hash.Transform`. */
module GpuBatch {
  import opened Core
  import opened Codec
  import opened Hash

  /** Where work item `gid` writes: `gid * 32U` in 32-bit arithmetic. */
  function SlotBase(gid: nat): nat {
    gid * 32 % TWO_TO_THE_32
  }

  predicate SlotsApart(a: nat, b: nat) {
    SlotBase(a) + 32 <= SlotBase(b) || SlotBase(b) + 32 <= SlotBase(a)
  }

  /** Work items write to separate slots exactly when the batch has at most 2^27 messages. */
  lemma SlotsApartExactly(count: nat)
    ensures (forall a, b | 0 <= a < b < count :: SlotsApart(a, b)) <==> count <= 0x800_0000
  {
    if count > 0x800_0000 {
      assert !SlotsApart(0, 0x800_0000);
    }
  }

  /** `ql_sha256_batch` for one work item. */
  method Kernel(data: Bytes, offsets: seq<nat>, lengths: seq<nat>, out: array<u8>, count: u32, gid: nat)
    requires |offsets| == |lengths| == count && out.Length == 32 * count
    requires forall i | 0 <= i < count :: offsets[i] + lengths[i] <= |data|
    modifies out
    ensures gid >= count ==> out[..] == old(out[..])
    ensures gid < count ==>
              && SlotBase(gid) + 32 <= out.Length
              && out[..] == WithSlot(old(out[..]), SlotBase(gid), Sha256(data[offsets[gid]..offsets[gid] + lengths[gid]]))
  {
    if gid >= count {
      return;
    }
    hide Sha256, WithSlot, SlotBase, Output;
    ghost var before := out[..];
    var off, len := offsets[gid], lengths[gid];
    var h := HashItem(data, off, len);
    assert out[..] == before;
    SlotFits(gid, count);
    StoreDigest(out, SlotBase(gid), h);
  }

  /** The kernel's output loop. */
  method StoreDigest(out: array<u8>, base: nat, h: Chain)
    requires base + 32 <= out.Length
    modifies out
    ensures out[..] == WithSlot(old(out[..]), base, Output(h))
  {
    ghost var before := out[..];
    hide StoreWord, StoreWords, WithSlot, Output;
    EmptySlot(before, base);
    StoreNoWords(h);
    for i := 0 to 8
      invariant out[..] == WithSlot(before, base, StoreWords(h, i))
    {
      StoreNext(out, base, h, i, before);
    }
  }

  method StoreNext(out: array<u8>, base: nat, h: Chain, i: nat, ghost before: Bytes)
    requires i < 8 && base + 32 <= out.Length == |before|
    requires out[..] == WithSlot(before, base, StoreWords(h, i))
    modifies out
    ensures out[..] == WithSlot(before, base, StoreWords(h, i + 1))
  {
    hide StoreWord, StoreWords, WithSlot;
    var word := StoreWord(h[i]);
    StoreOneMore(h, i);
    SlotGrows(before, base, StoreWords(h, i), word);
    WriteWord(out, base + 4 * i, word);
  }

  lemma SlotFits(gid: nat, count: nat)
    requires gid < count
    ensures SlotBase(gid) + 32 <= 32 * count
  {}

  lemma StoreNoWords(h: Chain)
    ensures StoreWords(h, 0) == [] && StoreWords(h, 8) == Output(h)
  {
    hide StoreWord;
  }

  lemma StoreOneMore(h: Chain, i: nat)
    requires i < 8
    ensures StoreWords(h, i + 1) == StoreWords(h, i) + StoreWord(h[i])
  {}

  lemma EmptySlot(out: Bytes, at: nat)
    requires at <= |out|
    ensures WithSlot(out, at, []) == out
  {}

  lemma SlotGrows(out: Bytes, at: nat, b: Bytes, c: Bytes)
    requires at + |b| + |c| <= |out|
    ensures |WithSlot(out, at, b)| == |out|
    ensures WithSlot(WithSlot(out, at, b), at + |b|, c) == WithSlot(out, at, b + c)
  {}

  /** `out` with `b` written at `at`. */
  function WithSlot(out: Bytes, at: nat, b: Bytes): Bytes
    requires at + |b| <= |out|
  {
    out[..at] + b + out[at + |b|..]
  }

  method WriteWord(out: array<u8>, at: nat, word: Bytes)
    requires |word| == 4 && at + 4 <= out.Length
    modifies out
    ensures out[..] == WithSlot(old(out[..]), at, word)
  {
    out[at] := word[0];
    out[at + 1] := word[1];
    out[at + 2] := word[2];
    out[at + 3] := word[3];
  }

  /** The kernel up to the point where the chaining value is final. */
  method HashItem(data: Bytes, off: nat, len: nat) returns (chain: Chain)
    requires off + len <= |data|
    ensures Output(chain) == Sha256(data[off..off + len])
  {
    hide Compress, Padding, Fold;
    ghost var message := data[off..off + len];
    var h := new bv32[8](i requires 0 <= i < 8 => H0[i]);
    assert h[..] == H0;
    var pos := 0;
    while pos + 64 <= len
      invariant 0 <= pos <= len && pos % 64 == 0
      invariant Fold(h[..], Pad(message)[pos..]) == Fold(H0, Pad(message))
    {
      var block := CopyBlock(data, off + pos, 64);
      SubSlice(data, off, len, pos, pos + 64);
      WholeBlock(message, pos);
      FoldStep(h[..], Pad(message)[pos..]);
      Transform(h, block[..]);
      pos := pos + 64;
    }
    SubSlice(data, off, len, pos, len);
    PaddingShape(message, pos);
    HashRest(h, data[off + pos..off + len], len, Pad(message)[pos..]);
    chain := h[..];
  }

  lemma SubSlice(data: Bytes, off: nat, len: nat, a: nat, b: nat)
    requires a <= b <= len && off + len <= |data|
    ensures data[off..off + len][a..b] == data[off + a..off + b]
    ensures b == len ==> data[off..off + len][a..] == data[off + a..off + b]
  {
    var message := data[off..off + len];
    var part := data[off + a..off + b];
    forall i | 0 <= i < b - a
      ensures message[a..b][i] == part[i]
    {
      assert message[a + i] == data[off + (a + i)];
    }
    assert message[a..b] == part;
    assert b == len ==> message[a..] == message[a..b];
  }

  /** `tail` is what padding leaves of a `len`-byte message after its whole blocks: the rest of the message, the
      marker, zeros, and the length at the end of one block or two. */
  ghost predicate IsTail(tail: Bytes, rest: Bytes, len: nat) {
    && |rest| < 64
    && |tail| == (if |rest| >= 56 then 128 else 64)
    && (forall j | 0 <= j < |rest| :: tail[j] == rest[j])
    && tail[|rest|] == 0x80
    && (forall j | |rest| < j < |tail| - 8 :: tail[j] == 0)
    && tail[|tail| - 8..] == Be(8 * len, 8)
  }

  /** The end of the kernel: the last partial block, with the length in it or in one more block. */
  method HashRest(h: array<bv32>, rest: Bytes, len: nat, ghost tail: Bytes)
    requires h.Length == 8 && IsTail(tail, rest, len)
    modifies h
    ensures h[..] == Fold(old(h[..]), tail)
  {
    hide Compress, Fold;
    var rem := |rest|;
    ghost var start: Chain := h[..];
    var block := CopyBlock(rest, 0, rem);
    block[rem] := 0x80;
    if rem >= 56 {
      assert block[..] == tail[..64];
      Transform(h, block[..]);
      block := new u8[64](_ => 0);
    }
    StoreLength(block, 64, len * 8);
    assert block[..][56..] == block[56..64];
    LastBlock(block[..], tail, 8 * len);
    FoldTail(start, tail);
    Transform(h, block[..]);
  }

  lemma PaddingShape(message: Bytes, pos: nat)
    requires pos <= |message| && pos % 64 == 0 && |message| - pos < 64
    ensures IsTail(Pad(message)[pos..], message[pos..], |message|)
  {
    PadTail(message, pos);
    hide PadZeros;
    var tail, padding := Pad(message)[pos..], Padding(|message|);
    assert tail[|tail| - 8..] == padding[|padding| - 8..] == Be(8 * |message|, 8);
  }

  lemma LastBlock(block: Bytes, tail: Bytes, bits: nat)
    requires |block| == 64 <= |tail|
    requires forall j | 0 <= j < 56 :: block[j] == tail[|tail| - 64 + j]
    requires block[56..] == Be(bits, 8) == tail[|tail| - 8..]
    ensures block == tail[|tail| - 64..]
  {
    assert tail[|tail| - 64..][56..] == tail[|tail| - 8..];
    assert block == block[..56] + block[56..];
    assert tail[|tail| - 64..] == tail[|tail| - 64..][..56] + tail[|tail| - 64..][56..];
  }

  /** Zero the block, then copy `n` bytes into it. */
  method CopyBlock(data: Bytes, start: nat, n: nat) returns (block: array<u8>)
    requires n <= 64 && start + n <= |data|
    ensures fresh(block) && block.Length == 64
    ensures block[..] == data[start..start + n] + Zeros(64 - n)
    ensures n == 64 ==> block[..] == data[start..start + 64]
  {
    block := new u8[64](_ => 0);
    for i := 0 to n
      invariant forall j | 0 <= j < i :: block[j] == data[start + j]
      invariant forall j | i <= j < 64 :: block[j] == 0
    {
      block[i] := data[start + i];
    }
  }

  /** `opencl_batch_sha256` with the work items run in any order, on a device buffer that holds anything at first. For
      every order and every batch of at most 2^27 messages the digests come back one per message, in message order. In a
      larger batch no work item ever writes the slots from 2^27 on: what comes back there is what the buffer held. */
  method HashBatch(messages: seq<Bytes>, order: seq<nat>, buffer: Bytes) returns (r: Result<seq<Bytes>>)
    requires (forall g | 0 <= g < |messages| :: g in order) && |buffer| == 32 * |messages|
    ensures r.Err? <==> |messages| > 0xffff_ffff
    ensures r.Ok? && |messages| <= 0x800_0000 ==> r.value == HashAll(messages)
    ensures r.Ok? ==> |r.value| == |messages|
    ensures r.Ok? ==> forall g | 0x800_0000 <= g < |messages| :: r.value[g] == buffer[g * 32..(g + 1) * 32]
  {
    if |messages| > 0xffff_ffff {
      return Err(InvalidArgument);
    }
    hide Sha256, SlotBase, SlotHolds;
    var offsets, lengths, packed := PackMessages(messages);
    if packed == [] {
      packed := [0];
      assert forall i | 0 <= i < |messages| :: offsets[i] == lengths[i] == 0;
    }
    var raw := RunKernels(messages, offsets, lengths, packed, order, buffer);
    var digests := SliceDigests(raw, messages);
    forall g | 0x800_0000 <= g < |messages|
      ensures digests[g] == buffer[g * 32..(g + 1) * 32]
    {
      SameSlice(raw, buffer, g);
    }
    r := Ok(digests);
  }

  /** The host's slicing loop. */
  method SliceDigests(raw: Bytes, ghost messages: seq<Bytes>) returns (digests: seq<Bytes>)
    requires |raw| == 32 * |messages|
    requires |messages| <= 0x800_0000 ==> forall g | 0 <= g < |messages| :: SlotHolds(raw, g, Sha256(messages[g]))
    ensures |messages| <= 0x800_0000 ==> digests == HashAll(messages)
    ensures |digests| == |messages| && forall g | 0 <= g < |messages| :: digests[g] == raw[g * 32..(g + 1) * 32]
  {
    hide Sha256, SlotBase;
    digests := [];
    var i := 0;
    while 32 * i < |raw|
      invariant 0 <= i <= |messages| && |digests| == i
      invariant forall j | 0 <= j < i :: digests[j] == raw[j * 32..(j + 1) * 32]
      invariant |messages| <= 0x800_0000 ==> forall j | 0 <= j < i :: digests[j] == Sha256(messages[j])
    {
      if |messages| <= 0x800_0000 {
        assert SlotHolds(raw, i, Sha256(messages[i]));
        SlotIsPlain(i);
      }
      digests := digests + [raw[i * 32..(i + 1) * 32]];
      i := i + 1;
    }
  }

  method RunKernels(messages: seq<Bytes>, offsets: seq<nat>, lengths: seq<nat>, packed: Bytes, order: seq<nat>, buffer: Bytes)
    returns (raw: Bytes)
    requires |messages| <= 0xffff_ffff && |buffer| == 32 * |messages|
    requires forall g | 0 <= g < |messages| :: g in order
    requires |offsets| == |lengths| == |messages|
    requires forall i | 0 <= i < |messages| ::
               offsets[i] + lengths[i] <= |packed| && packed[offsets[i]..offsets[i] + lengths[i]] == messages[i]
    ensures |raw| == 32 * |messages|
    ensures forall j | TWO_TO_THE_32 <= j < |raw| :: raw[j] == buffer[j]
    ensures |messages| <= 0x800_0000 ==> forall g | 0 <= g < |messages| :: SlotHolds(raw, g, Sha256(messages[g]))
  {
    hide Sha256, SlotBase, SlotHolds, WithSlot;
    var out := new u8[|buffer|](i requires 0 <= i < |buffer| => buffer[i]);
    var k := 0;
    while k < |order|
      invariant 0 <= k <= |order|
      invariant forall j | TWO_TO_THE_32 <= j < out.Length :: out[..][j] == buffer[j]
      invariant |messages| <= 0x800_0000 ==> forall j | 0 <= j < k && order[j] < |messages| ::
                  SlotHolds(out[..], order[j], Sha256(messages[order[j]]))
    {
      ghost var before := out[..];
      Kernel(packed, offsets, lengths, out, |messages|, order[k]);
      if order[k] < |messages| {
        BeyondKept(before, order[k], Sha256(messages[order[k]]));
      }
      if |messages| <= 0x800_0000 && order[k] < |messages| {
        forall j | 0 <= j <= k && order[j] < |messages|
          ensures SlotHolds(out[..], order[j], Sha256(messages[order[j]]))
        {
          SlotWritten(before, order[k], Sha256(messages[order[k]]));
          if order[j] != order[k] {
            SlotKept(before, order[j], order[k], Sha256(messages[order[j]]), Sha256(messages[order[k]]));
          }
        }
      }
      k := k + 1;
    }
    raw := out[..];
    forall g | |messages| <= 0x800_0000 && 0 <= g < |messages|
      ensures SlotHolds(raw, g, Sha256(messages[g]))
    {
      assert g in order;
      var j :| 0 <= j < |order| && order[j] == g;
    }
  }

  ghost predicate SlotHolds(out: Bytes, gid: nat, digest: Bytes) {
    SlotBase(gid) + 32 <= |out| && out[SlotBase(gid)..SlotBase(gid) + 32] == digest
  }

  lemma SlotIsPlain(gid: nat)
    requires gid < 0x800_0000
    ensures SlotBase(gid) == gid * 32
  {}

  lemma SlotWritten(before: Bytes, gid: nat, digest: Bytes)
    requires SlotBase(gid) + 32 <= |before| && |digest| == 32
    ensures SlotHolds(WithSlot(before, SlotBase(gid), digest), gid, digest)
  {
    hide SlotBase;
  }

  lemma BeyondKept(before: Bytes, gid: nat, digest: Bytes)
    requires SlotBase(gid) + 32 <= |before| && |digest| == 32
    ensures forall j | TWO_TO_THE_32 <= j < |before| :: WithSlot(before, SlotBase(gid), digest)[j] == before[j]
  {
    SlotLow(gid);
    hide SlotBase;
  }

  lemma SlotLow(gid: nat)
    ensures SlotBase(gid) + 32 <= TWO_TO_THE_32
  {}

  lemma SameSlice(raw: Bytes, buffer: Bytes, g: nat)
    requires |raw| == |buffer| && 0x800_0000 <= g && (g + 1) * 32 <= |raw|
    requires forall j | TWO_TO_THE_32 <= j < |raw| :: raw[j] == buffer[j]
    ensures raw[g * 32..(g + 1) * 32] == buffer[g * 32..(g + 1) * 32]
  {}

  lemma SlotKept(before: Bytes, g: nat, written: nat, digest: Bytes, other: Bytes)
    requires g < 0x800_0000 && written < 0x800_0000 && g != written && |other| == 32
    requires SlotHolds(before, g, digest) && SlotBase(written) + 32 <= |before|
    ensures SlotHolds(WithSlot(before, SlotBase(written), other), g, digest)
  {
    SlotIsPlain(g);
    SlotIsPlain(written);
    hide SlotBase;
    var after := WithSlot(before, SlotBase(written), other);
    var base := SlotBase(g);
    assert forall j | base <= j < base + 32 :: after[j] == before[j];
    assert after[base..base + 32] == before[base..base + 32];
  }

  /** The host's packing loop: the messages end to end, with where each starts and how long it is. */
  method PackMessages(messages: seq<Bytes>) returns (offsets: seq<nat>, lengths: seq<nat>, packed: Bytes)
    ensures |offsets| == |lengths| == |messages|
    ensures forall i | 0 <= i < |messages| ::
              offsets[i] + lengths[i] <= |packed| && packed[offsets[i]..offsets[i] + lengths[i]] == messages[i]
  {
    offsets, lengths, packed := [], [], [];
    for i := 0 to |messages|
      invariant |offsets| == |lengths| == i
      invariant forall j | 0 <= j < i ::
                  offsets[j] + lengths[j] <= |packed| && packed[offsets[j]..offsets[j] + lengths[j]] == messages[j]
    {
      offsets := offsets + [|packed|];
      lengths := lengths + [|messages[i]|];
      ghost var before := packed;
      packed := packed + messages[i];
      forall j | 0 <= j <= i
        ensures offsets[j] + lengths[j] <= |packed| && packed[offsets[j]..offsets[j] + lengths[j]] == messages[j]
      {
        if j < i {
          assert packed[offsets[j]..offsets[j] + lengths[j]] == before[offsets[j]..offsets[j] + lengths[j]];
        }
      }
    }
  }
}
