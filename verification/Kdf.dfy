/** HMAC (RFC 2104), HKDF (RFC 5869) and PBKDF2 (RFC 8018) over SHA-256 (src/kdf/hkdf.cpp, src/security/vault.cpp). */
module Kdf {
  import opened Core
  import opened Codec
  import opened Hash

  const BLOCK_BYTES: nat := 64
  const DIGEST_BYTES: nat := 32

  // ---- Section 2 of RFC 2104 ----

  /** The key brought to the block size: hashed when longer, then filled with zeros. */
  function KeyBlock(key: Bytes): (k: Bytes)
    ensures |k| == BLOCK_BYTES
  {
    var k := if |key| > BLOCK_BYTES then Sha256(key) else key;
    k + Zeros(BLOCK_BYTES - |k|)
  }

  function Padded(key: Bytes, pad: u8): (k: Bytes)
    ensures |k| == BLOCK_BYTES
  {
    XorAll(seq(BLOCK_BYTES, i => pad), KeyBlock(key))
  }

  function InnerText(key: Bytes, message: Bytes): Bytes {
    Padded(key, 0x36) + message
  }

  function OuterText(key: Bytes, message: Bytes): Bytes {
    Padded(key, 0x5c) + Sha256(InnerText(key, message))
  }

  function Hmac(key: Bytes, message: Bytes): (tag: Bytes)
    ensures |tag| == DIGEST_BYTES
  {
    Sha256(OuterText(key, message))
  }

  /** `xor_pad`: the pad byte everywhere, with the key mixed into the front. */
  method XorPad(key: Bytes, pad: u8) returns (block: array<u8>)
    requires |key| <= BLOCK_BYTES
    ensures fresh(block) && block[..] == Padded(key, pad)
  {
    hide Xor;
    block := new u8[BLOCK_BYTES](_ => pad);
    for i := 0 to |key|
      invariant forall j | 0 <= j < i :: block[j] == Xor(pad, key[j])
      invariant forall j | i <= j < BLOCK_BYTES :: block[j] == pad
    {
      block[i] := Xor(block[i], key[i]);
    }
    XorZero(pad);
    assert forall j | 0 <= j < BLOCK_BYTES :: KeyBlock(key)[j] == if j < |key| then key[j] else 0;
  }

  method HmacSha256(key: Bytes, message: Bytes) returns (tag: Bytes)
    ensures tag == Hmac(key, message)
  {
    hide Sha256, XorAll;
    var normalized := key;
    if |key| > BLOCK_BYTES {
      normalized := HashOnCpu(key);
    }
    assert KeyBlock(normalized) == KeyBlock(key);
    var ipad := XorPad(normalized, 0x36);
    var opad := XorPad(normalized, 0x5c);
    var inner := HashOnCpu(ipad[..] + message);
    tag := HashOnCpu(opad[..] + inner);
  }

  /** A key shorter than a block is the same key with zeros after it. */
  lemma TrailingZeros(key: Bytes, n: nat, message: Bytes)
    requires |key| + n <= BLOCK_BYTES
    ensures Hmac(key + Zeros(n), message) == Hmac(key, message)
  {
    hide Sha256, XorAll;
    assert KeyBlock(key + Zeros(n)) == KeyBlock(key);
  }

  lemma PaddedInjective(j: Bytes, k: Bytes, pad: u8)
    requires Padded(j, pad) == Padded(k, pad)
    ensures KeyBlock(j) == KeyBlock(k)
  {
    hide Sha256, Xor;
    forall i | 0 <= i < BLOCK_BYTES
      ensures KeyBlock(j)[i] == KeyBlock(k)[i]
    {
      assert Padded(j, pad)[i] == Xor(pad, KeyBlock(j)[i]) && Padded(k, pad)[i] == Xor(pad, KeyBlock(k)[i]);
      XorCommutes(pad, KeyBlock(j)[i]);
      XorCommutes(pad, KeyBlock(k)[i]);
      XorCancels(KeyBlock(j)[i], pad);
      XorCancels(KeyBlock(k)[i], pad);
    }
  }

  /** Equal tags come from one message under one key block, unless SHA-256 collides on the outer or inner texts. */
  lemma HmacBinds(j: Bytes, m: Bytes, k: Bytes, n: Bytes)
    requires Hmac(j, m) == Hmac(k, n)
    ensures || (KeyBlock(j) == KeyBlock(k) && m == n)
            || Collision(OuterText(j, m), OuterText(k, n))
            || Collision(InnerText(j, m), InnerText(k, n))
  {
    hide Sha256;
    if OuterText(j, m) == OuterText(k, n) {
      assert Padded(j, 0x5c) == OuterText(j, m)[..64] == OuterText(k, n)[..64] == Padded(k, 0x5c);
      assert Sha256(InnerText(j, m)) == OuterText(j, m)[64..] == OuterText(k, n)[64..] == Sha256(InnerText(k, n));
      PaddedInjective(j, k, 0x5c);
      if InnerText(j, m) == InnerText(k, n) {
        assert m == InnerText(j, m)[64..] == InnerText(k, n)[64..] == n;
      }
    }
  }

  // ---- Section 2.3 of RFC 5869 ----

  /** T(i) of the expand step. */
  function T(prk: Bytes, info: Bytes, i: nat): (t: Bytes)
    requires i <= 255
    ensures |t| == if i == 0 then 0 else DIGEST_BYTES
  {
    if i == 0 then [] else Hmac(prk, T(prk, info, i - 1) + info + [i])
  }

  /** T(1) | T(2) | ... | T(n). */
  function Okm(prk: Bytes, info: Bytes, n: nat): (okm: Bytes)
    requires n <= 255
    ensures |okm| == n * DIGEST_BYTES
  {
    if n == 0 then [] else Okm(prk, info, n - 1) + T(prk, info, n)
  }

  function Blocks(len: nat): nat {
    (len + DIGEST_BYTES - 1) / DIGEST_BYTES
  }

  function Expand(prk: Bytes, info: Bytes, len: nat): (okm: Bytes)
    requires len <= 255 * DIGEST_BYTES
    ensures |okm| == len
  {
    Okm(prk, info, Blocks(len))[..len]
  }

  function Hkdf(ikm: Bytes, salt: Bytes, info: Bytes, len: nat): (r: Result<Bytes>)
    ensures r.Ok? <==> len <= 255 * DIGEST_BYTES
    ensures r.Ok? ==> |r.value| == len
  {
    if len > 255 * DIGEST_BYTES then Err(InvalidArgument)
    else Ok(Expand(Hmac(if salt == [] then Zeros(DIGEST_BYTES) else salt, ikm), info, len))
  }

  lemma {:induction false} OkmPrefix(prk: Bytes, info: Bytes, m: nat, n: nat)
    requires m <= n <= 255
    ensures Okm(prk, info, n)[..m * DIGEST_BYTES] == Okm(prk, info, m)
  {
    hide Hmac;
    if m < n {
      OkmPrefix(prk, info, m, n - 1);
      assert Okm(prk, info, n)[..m * DIGEST_BYTES] == Okm(prk, info, n - 1)[..m * DIGEST_BYTES];
    }
  }

  /** A shorter output is a prefix of a longer one. */
  lemma HkdfPrefix(ikm: Bytes, salt: Bytes, info: Bytes, short: nat, long: nat)
    requires short <= long <= 255 * DIGEST_BYTES
    ensures Hkdf(ikm, salt, info, short).value == Hkdf(ikm, salt, info, long).value[..short]
  {
    hide Hmac;
    var prk := Hmac(if salt == [] then Zeros(DIGEST_BYTES) else salt, ikm);
    OkmPrefix(prk, info, Blocks(short), Blocks(long));
    var wide := Okm(prk, info, Blocks(long));
    assert wide[..long][..short] == wide[..Blocks(short) * DIGEST_BYTES][..short];
  }

  /** An absent salt stands for a block of zeros, which HMAC cannot tell from no key at all. */
  lemma EmptySalt(ikm: Bytes, info: Bytes, len: nat)
    ensures Hkdf(ikm, [], info, len) == Hkdf(ikm, Zeros(DIGEST_BYTES), info, len)
    ensures len <= 255 * DIGEST_BYTES ==> Hkdf(ikm, [], info, len).value == Expand(Hmac([], ikm), info, len)
  {
    TrailingZeros([], DIGEST_BYTES, ikm);
    assert [] + Zeros(DIGEST_BYTES) == Zeros(DIGEST_BYTES);
    hide Hmac, Expand;
  }

  /** `hkdf_sha256`, with its one-byte counter. */
  method HkdfSha256(ikm: Bytes, salt: Bytes, info: Bytes, outputLen: nat) returns (r: Result<Bytes>)
    ensures r == Hkdf(ikm, salt, info, outputLen)
  {
    hide Hmac;
    if outputLen > 255 * DIGEST_BYTES {
      return Err(InvalidArgument);
    }
    var prk := HmacSha256(if salt == [] then Zeros(DIGEST_BYTES) else salt, ikm);
    var okm: Bytes, previous: Bytes := [], [];
    var counter: u8 := 1;
    ghost var n := 0;
    while |okm| < outputLen
      invariant n <= Blocks(outputLen)
      invariant counter == (n + 1) % 256
      invariant previous == T(prk, info, n)
      invariant |okm| == if n * DIGEST_BYTES <= outputLen then n * DIGEST_BYTES else outputLen
      invariant okm == Okm(prk, info, n)[..|okm|]
      invariant |okm| == outputLen ==> n == Blocks(outputLen)
      decreases outputLen - |okm|
    {
      var input := previous + info + [counter];
      counter := (counter + 1) % 256;
      previous := HmacSha256(prk, input);
      var remaining := outputLen - |okm|;
      okm := okm + previous[..if DIGEST_BYTES < remaining then DIGEST_BYTES else remaining];
      n := n + 1;
    }
    r := Ok(okm);
  }

  // ---- Section 5.2 of RFC 8018 ----

  /** U_j of block `i`. */
  function U(password: Bytes, salt: Bytes, i: nat, j: nat): (u: Bytes)
    requires j >= 1
    ensures |u| == DIGEST_BYTES
  {
    if j == 1 then Hmac(password, salt + Be(i, 4)) else Hmac(password, U(password, salt, i, j - 1))
  }

  /** F: the exclusive or of U_1 up to U_c. */
  function F(password: Bytes, salt: Bytes, c: nat, i: nat): (f: Bytes)
    requires c >= 1
    ensures |f| == DIGEST_BYTES
  {
    if c == 1 then U(password, salt, i, 1) else XorAll(F(password, salt, c - 1, i), U(password, salt, i, c))
  }

  /** The blocks F(1) up to F(n), end to end. */
  function Derived(password: Bytes, salt: Bytes, c: nat, n: nat): (d: Bytes)
    requires c >= 1
    ensures |d| == n * DIGEST_BYTES
  {
    if n == 0 then [] else Derived(password, salt, c, n - 1) + F(password, salt, c, n)
  }

  function Pbkdf2(password: Bytes, salt: Bytes, iterations: nat, len: nat): (key: Bytes)
    ensures |key| == if iterations == 0 then 0 else len
  {
    if iterations == 0 then [] else Derived(password, salt, iterations, Blocks(len))[..len]
  }

  lemma {:induction false} DerivedPrefix(password: Bytes, salt: Bytes, c: nat, m: nat, n: nat)
    requires c >= 1 && m <= n
    ensures Derived(password, salt, c, n)[..m * DIGEST_BYTES] == Derived(password, salt, c, m)
  {
    hide F;
    if m < n {
      DerivedPrefix(password, salt, c, m, n - 1);
      assert Derived(password, salt, c, n)[..m * DIGEST_BYTES] == Derived(password, salt, c, n - 1)[..m * DIGEST_BYTES];
    }
  }

  lemma Pbkdf2Prefix(password: Bytes, salt: Bytes, iterations: nat, short: nat, long: nat)
    requires iterations >= 1 && short <= long
    ensures Pbkdf2(password, salt, iterations, short) == Pbkdf2(password, salt, iterations, long)[..short]
  {
    hide F;
    DerivedPrefix(password, salt, iterations, Blocks(short), Blocks(long));
    var wide := Derived(password, salt, iterations, Blocks(long));
    assert wide[..long][..short] == wide[..Blocks(short) * DIGEST_BYTES][..short];
  }

  /** `pbkdf2_hmac_sha256`, with its 32-bit block index. */
  method Pbkdf2HmacSha256(password: Bytes, salt: Bytes, iterations: u32, outputLen: nat) returns (out: Bytes)
    ensures out == Pbkdf2(password, salt, iterations, outputLen)
  {
    hide F, U;
    out := [];
    if iterations == 0 || outputLen == 0 {
      return;
    }
    var blockIndex: u32 := 1;
    ghost var n := 0;
    while |out| < outputLen
      invariant |out| == n * DIGEST_BYTES && n <= Blocks(outputLen)
      invariant out == Derived(password, salt, iterations, n)
      invariant blockIndex == (n + 1) % TWO_TO_THE_32
      decreases Blocks(outputLen) - n
    {
      n := n + 1;
      var t := DeriveBlock(password, salt, iterations, blockIndex, n);
      blockIndex := (blockIndex + 1) % TWO_TO_THE_32;
      out := out + t;
    }
    out := out[..outputLen];
  }

  /** The iteration loop for one block, folding in place. */
  method DeriveBlock(password: Bytes, salt: Bytes, iterations: nat, index: u32, ghost n: nat) returns (block: Bytes)
    requires iterations >= 1 && index == n % TWO_TO_THE_32
    ensures block == F(password, salt, iterations, n)
  {
    hide Hmac, Xor;
    Widths();
    BeTruncates(n, 4);
    var u := HmacSha256(password, salt + Be(index, 4));
    var t := new u8[DIGEST_BYTES](i requires 0 <= i < DIGEST_BYTES => u[i]);
    assert t[..] == u;
    for i := 1 to iterations
      invariant u == U(password, salt, n, i)
      invariant t[..] == F(password, salt, i, n)
    {
      u := HmacSha256(password, u);
      XorInto(t, u);
    }
    block := t[..];
  }

  method XorInto(t: array<u8>, u: Bytes)
    requires t.Length == |u|
    modifies t
    ensures t[..] == XorAll(old(t[..]), u)
  {
    hide Xor;
    for j := 0 to |u|
      invariant forall k | 0 <= k < j :: t[k] == Xor(old(t[k]), u[k])
      invariant forall k | j <= k < |u| :: t[k] == old(t[k])
    {
      t[j] := Xor(t[j], u[j]);
    }
  }
}
