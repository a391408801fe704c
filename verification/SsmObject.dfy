/** Sealed objects of the software security module: metadata, the part of it the seal binds, and the byte format
    (src/security/ssm.cpp). */
module SsmObject {
  import opened Core
  import opened Codec
  import opened Hash
  import Kdf
  import Aead

  const MAGIC: Bytes := Ascii("ASSM01")
  const VERSION: u16 := 3
  const MASTER_KEY_BYTES: nat := 32

  // Object types, key states and flag bits are the numbers the formats carry.
  const SYMMETRIC: u16 := 1
  const SIGN: u16 := 2
  const KEM: u16 := 3
  const ACTIVE: u16 := 1
  const DESTROYED: u16 := 5
  const COMPROMISED: u16 := 6
  const RETIRED: u16 := 7
  const EXPORTABLE_PUBLIC: nat := 0
  const EXPORTABLE_SEALED: nat := 1
  const ALLOW_SIGN: nat := 2
  const ALLOW_DECAPSULATE: nat := 3

  type Handle = Bytes

  /** The fields the seal binds: they go into the associated data. */
  datatype Policy = Policy(handle: Handle, objectType: u16, algorithm: u16, flags: u32, createdAt: u64, name: Bytes,
                           keyId: Bytes, publicKey: Bytes, allowedDomain: Bytes, maxOperations: u64)

  datatype Rotation = Rotation(original: Handle, replacement: Handle, generation: u64, rotatedAt: u64, reason: Bytes)

  /** The fields it does not bind. */
  datatype Status = Status(state: u16, usedOperations: u64, lastUsedAt: u64, rotation: Rotation)

  datatype Sealed = Sealed(policy: Policy, status: Status, nonce: Bytes, ciphertext: Bytes, tag: Bytes)

  const FRESH: Status := Status(ACTIVE, 0, 0, Rotation([], [], 0, 0, []))

  function HasFlag(flags: u32, bit: nat): bool {
    flags / Pow2(bit) % 2 == 1
  }

  /** `flags | (1 << bit)`. */
  function WithFlag(flags: u32, bit: nat): (f: nat)
    ensures f == if HasFlag(flags, bit) then flags else flags + Pow2(bit)
  {
    if HasFlag(flags, bit) then flags else flags + Pow2(bit)
  }

  // ---- Handles ----

  function HexDigit(n: nat): u8 {
    if n < 10 then 48 + n else if n < 16 then 87 + n else 0
  }

  /** `hex_encode`. */
  function Hex(b: Bytes): (h: Bytes)
    ensures |h| == 2 * |b|
  {
    if b == [] then [] else [HexDigit(b[0] / 16), HexDigit(b[0] % 16)] + Hex(b[1..])
  }

  function HandleValues(p: Policy): seq<Value> {
    [Num(2, VERSION), Num(2, p.objectType), Num(2, p.algorithm), Num(8, p.createdAt), Octets(p.publicKey), Octets(p.name)]
  }

  function HandleMaterial(p: Policy): Bytes {
    MAGIC + PutAll(HandleValues(p))
  }

  /** `make_handle`, in hexadecimal as `store_secret` uses it. */
  function MakeHandle(p: Policy): (h: Handle)
    ensures |h| == 32
  {
    Hex(Sha256(HandleMaterial(p))[..16])
  }

  lemma {:induction false} HexInjective(a: Bytes, b: Bytes)
    requires Hex(a) == Hex(b)
    ensures a == b
  {
    if a == [] || b == [] {
      HexEmpty(a);
      HexEmpty(b);
    } else {
      var x, y := Hex(a), Hex(b);
      assert x[0] == HexDigit(a[0] / 16) && x[1] == HexDigit(a[0] % 16) && x[2..] == Hex(a[1..]);
      assert y[0] == HexDigit(b[0] / 16) && y[1] == HexDigit(b[0] % 16) && y[2..] == Hex(b[1..]);
      HexInjective(a[1..], b[1..]);
      assert a == [a[0]] + a[1..] && b == [b[0]] + b[1..];
    }
  }

  lemma HexEmpty(b: Bytes)
    ensures Hex(b) == [] <==> b == []
  {}

  /** Two inputs whose digests agree in the sixteen bytes that a handle keeps. */
  predicate TruncatedCollision(x: Bytes, y: Bytes) {
    x != y && Sha256(x)[..16] == Sha256(y)[..16]
  }

  lemma HandleMaterialInjective(p: Policy, q: Policy)
    requires ShortPolicy(p) && ShortPolicy(q) && HandleMaterial(p) == HandleMaterial(q)
    ensures p.objectType == q.objectType && p.algorithm == q.algorithm && p.createdAt == q.createdAt
    ensures p.publicKey == q.publicKey && p.name == q.name
  {
    var x, y := HandleValues(p), HandleValues(q);
    Widths();
    assert AllFit(x) && AllFit(y);
    hide PutAll;
    assert PutAll(x) == HandleMaterial(p)[|MAGIC|..] == HandleMaterial(q)[|MAGIC|..] == PutAll(y);
    assert PutAll(x) + [] == PutAll(x) && PutAll(y) + [] == PutAll(y);
    assert Kinds(x) == Kinds(y);
    PutAllInjective(x, [], y, []);
    assert x[1] == y[1] && x[2] == y[2] && x[3] == y[3] && x[4] == y[4] && x[5] == y[5];
  }

  lemma HandlesMeet(p: Policy, q: Policy)
    ensures MakeHandle(p) == MakeHandle(q) <==>
              HandleMaterial(p) == HandleMaterial(q) || TruncatedCollision(HandleMaterial(p), HandleMaterial(q))
  {
    hide Sha256, HandleMaterial, Hex;
    if MakeHandle(p) == MakeHandle(q) {
      HexInjective(Sha256(HandleMaterial(p))[..16], Sha256(HandleMaterial(q))[..16]);
    }
  }

  /** No key material of a symmetric key goes into its handle. Two such keys get one handle, whatever their bytes and
      their other policy fields, if and only if they were made in the same second under the same name, or the shortened
      hash collides on the two inputs. */
  lemma SymmetricHandlesClash(p: Policy, q: Policy)
    requires p.objectType == q.objectType == SYMMETRIC && p.algorithm == q.algorithm && p.publicKey == q.publicKey == []
    requires ShortPolicy(p) && ShortPolicy(q)
    ensures MakeHandle(p) == MakeHandle(q) <==>
              (p.createdAt == q.createdAt && p.name == q.name) || TruncatedCollision(HandleMaterial(p), HandleMaterial(q))
  {
    HandlesMeet(p, q);
    if HandleMaterial(p) == HandleMaterial(q) {
      HandleMaterialInjective(p, q);
    }
    hide Sha256, PutAll, MakeHandle, TruncatedCollision;
  }

  // ---- Sealing ----

  function BoundValues(p: Policy): seq<Value> {
    [Num(2, VERSION), Octets(p.handle), Num(2, p.objectType), Num(2, p.algorithm), Num(4, p.flags), Num(8, p.createdAt),
     Octets(p.name), Octets(p.keyId), Octets(p.publicKey), Octets(p.allowedDomain), Num(8, p.maxOperations)]
  }

  function AssociatedData(p: Policy): Bytes {
    MAGIC + PutAll(BoundValues(p))
  }

  /** Lengths that survive the cast to 32 bits. */
  predicate ShortPolicy(p: Policy) {
    && |p.handle| < TWO_TO_THE_32 && |p.name| < TWO_TO_THE_32 && |p.keyId| < TWO_TO_THE_32
    && |p.publicKey| < TWO_TO_THE_32 && |p.allowedDomain| < TWO_TO_THE_32
  }

  /** The associated data determines every bound field. */
  lemma AssociatedDataInjective(p: Policy, q: Policy)
    requires ShortPolicy(p) && ShortPolicy(q) && AssociatedData(p) == AssociatedData(q)
    ensures p == q
  {
    var x, y := BoundValues(p), BoundValues(q);
    Widths();
    assert AllFit(x) && AllFit(y);
    hide PutAll;
    assert PutAll(x) == AssociatedData(p)[|MAGIC|..] == AssociatedData(q)[|MAGIC|..] == PutAll(y);
    assert PutAll(x) + [] == PutAll(x) && PutAll(y) + [] == PutAll(y);
    assert Kinds(x) == Kinds(y);
    PutAllInjective(x, [], y, []);
    assert x[1] == y[1] && x[2] == y[2] && x[3] == y[3] && x[4] == y[4] && x[5] == y[5];
    assert x[6] == y[6] && x[7] == y[7] && x[8] == y[8] && x[9] == y[9] && x[10] == y[10];
  }

  function SealKey(master: Bytes): Bytes {
    Kdf.Hkdf(master, Ascii("ssm-seal-salt"), Ascii("AegisCrypt SSM Seal v1"), MASTER_KEY_BYTES).value
  }

  /** `seal_secret`: the nonce comes from the random generator. */
  function SealSecret(aead: Aead.Provider, master: Bytes, p: Policy, secret: Bytes, nonce: Bytes): Result<Sealed> {
    if |master| != MASTER_KEY_BYTES || secret == [] then Err(InvalidKey) else
    var box :- aead.Encrypt(Aead.Aes256Gcm, SealKey(master), nonce, secret, AssociatedData(p));
    Ok(Sealed(p, FRESH, box.nonce, box.data, box.tag))
  }

  /** `open_secret`: the status plays no part in it. */
  function OpenSecret(aead: Aead.Provider, master: Bytes, o: Sealed): Result<Bytes> {
    if |master| != MASTER_KEY_BYTES then Err(InvalidKey) else
    aead.Decrypt(Aead.Aes256Gcm, SealKey(master), Aead.Ciphertext(o.nonce, o.ciphertext, o.tag), AssociatedData(o.policy))
  }

  lemma OpenOfSeal(aead: Aead.Provider, master: Bytes, p: Policy, secret: Bytes, nonce: Bytes, status: Status)
    requires aead.Sound() && SealSecret(aead, master, p, secret, nonce).Ok?
    ensures OpenSecret(aead, master, SealSecret(aead, master, p, secret, nonce).value.(status := status)) == Ok(secret)
    ensures SealSecret(aead, master, p, secret, nonce).value.policy == p
  {
    hide SealKey, AssociatedData;
    aead.DecryptOfEncrypt(Aead.Aes256Gcm, SealKey(master), nonce, secret, AssociatedData(p));
  }

  // ---- The byte format ----

  const OBJECT_KINDS: seq<Kind> := [
    Word(2), Blob, Word(2), Word(2), Word(4), Word(8), Blob, Blob, Blob, Word(2), Blob, Word(8), Word(8), Word(8),
    Blob, Blob, Word(8), Word(8), Blob, Blob, Blob, Blob]

  function ObjectValues(o: Sealed): seq<Value> {
    var p, s, r := o.policy, o.status, o.status.rotation;
    [Num(2, VERSION), Octets(p.handle), Num(2, p.objectType), Num(2, p.algorithm), Num(4, p.flags), Num(8, p.createdAt),
     Octets(p.name), Octets(p.keyId), Octets(p.publicKey), Num(2, s.state), Octets(p.allowedDomain),
     Num(8, p.maxOperations), Num(8, s.usedOperations), Num(8, s.lastUsedAt), Octets(r.original), Octets(r.replacement),
     Num(8, r.generation), Num(8, r.rotatedAt), Octets(r.reason), Octets(o.nonce), Octets(o.ciphertext), Octets(o.tag)]
  }

  function FromValues(vs: seq<Value>): Sealed {
    Sealed(Policy(BytesAt(vs, 1), U16At(vs, 2), U16At(vs, 3), U32At(vs, 4), U64At(vs, 5), BytesAt(vs, 6), BytesAt(vs, 7),
                  BytesAt(vs, 8), BytesAt(vs, 10), U64At(vs, 11)),
           Status(U16At(vs, 9), U64At(vs, 12), U64At(vs, 13),
                  Rotation(BytesAt(vs, 14), BytesAt(vs, 15), U64At(vs, 16), U64At(vs, 17), BytesAt(vs, 18))),
           BytesAt(vs, 19), BytesAt(vs, 20), BytesAt(vs, 21))
  }

  function Body(o: Sealed): Bytes {
    MAGIC + PutAll(ObjectValues(o))
  }

  predicate Complete(o: Sealed) {
    o.policy.handle != [] && o.nonce != [] && o.ciphertext != [] && o.tag != []
  }

  function EncodeSealed(o: Sealed): Result<Bytes> {
    if !Complete(o) then Err(InvalidArgument) else Ok(Body(o) + Sha256(Body(o)))
  }

  function DecodeSealed(b: Bytes): Result<Sealed> {
    if |b| < |MAGIC| + 2 + 32 || b[..|MAGIC|] != MAGIC || Sha256(b[..|b| - 32]) != b[|b| - 32..] then Err(InvalidFormat) else
    match TakeAll(OBJECT_KINDS, b[|MAGIC|..])
    case None => Err(InvalidFormat)
    case Some((vs, rest)) =>
      if !IsVersion(vs) || |rest| != 32 then Err(InvalidFormat) else Ok(FromValues(vs))
  }

  predicate IsVersion(vs: seq<Value>) {
    |vs| > 0 && vs[0] == Num(2, VERSION)
  }

  lemma ObjectKinds(o: Sealed)
    ensures Kinds(ObjectValues(o)) == OBJECT_KINDS
    ensures AllFit(ObjectValues(o)) ==> FromValues(ObjectValues(o)) == o
  {
    hide AllFit, U16At, U32At, U64At, BytesAt;
    var vs := ObjectValues(o);
    assert Kinds(vs) == OBJECT_KINDS;
    if AllFit(vs) {
      hide Kinds;
      forall i | 0 <= i < 22
        ensures OBJECT_KINDS[i] == Word(2) ==> vs[i] == Num(2, U16At(vs, i))
        ensures OBJECT_KINDS[i] == Word(4) ==> vs[i] == Num(4, U32At(vs, i))
        ensures OBJECT_KINDS[i] == Word(8) ==> vs[i] == Num(8, U64At(vs, i))
        ensures OBJECT_KINDS[i] == Blob ==> vs[i] == Octets(BytesAt(vs, i))
      {
        FieldAt(vs, OBJECT_KINDS, i);
      }
    }
  }

  /** No field is truncated when the object is written. */
  predicate Writable(o: Sealed) {
    AllFit(ObjectValues(o))
  }

  /** Decoding undoes encoding. */
  lemma DecodeOfEncode(o: Sealed)
    requires Complete(o) && Writable(o)
    ensures DecodeSealed(EncodeSealed(o).value) == Ok(o)
  {
    var vs := ObjectValues(o);
    ObjectKinds(o);
    hide Sha256, PutAll, TakeAll, FromValues, AllFit;
    VersionFirst(vs);
    var body, digest := Body(o), Sha256(Body(o));
    var b := body + digest;
    TakeAllOfPutAll(vs, digest);
    assert b[..|b| - 32] == body && b[|b| - 32..] == digest && b[|MAGIC|..] == PutAll(vs) + digest;
  }

  lemma VersionFirst(vs: seq<Value>)
    requires vs != [] && vs[0].KindOf() == Word(2)
    ensures |PutAll(vs)| >= 2
  {
    PutAllHolds(vs, 0);
  }

  /** And what decodes is what would be encoded, for objects complete enough to encode. */
  lemma EncodeOfDecode(b: Bytes)
    requires DecodeSealed(b).Ok?
    ensures Writable(DecodeSealed(b).value)
    ensures Complete(DecodeSealed(b).value) ==> EncodeSealed(DecodeSealed(b).value) == Ok(b)
  {
    hide Sha256, PutAll, TakeAll, FromValues, ObjectValues, AllFit, Kinds;
    var (vs, rest) := TakeAll(OBJECT_KINDS, b[|MAGIC|..]).value;
    PutAllOfTakeAll(OBJECT_KINDS, b[|MAGIC|..]);
    ValuesOfFrom(vs);
    var o := FromValues(vs);
    assert DecodeSealed(b) == Ok(o) && Body(o) == MAGIC + PutAll(vs);
    assert b == MAGIC + b[|MAGIC|..] == Body(o) + rest;
    assert b[..|b| - 32] == Body(o) && b[|b| - 32..] == rest;
  }

  lemma ValuesOfFrom(vs: seq<Value>)
    requires Kinds(vs) == OBJECT_KINDS && AllFit(vs) && IsVersion(vs)
    ensures ObjectValues(FromValues(vs)) == vs
  {
    hide AllFit, Kinds, U16At, U32At, U64At, BytesAt;
    var us := ObjectValues(FromValues(vs));
    forall i | 0 <= i < 22
      ensures us[i] == vs[i]
    {
      FieldAt(vs, OBJECT_KINDS, i);
    }
  }

  // ---- The loops ----

  /** `encode_sealed`. */
  method WriteSealed(o: Sealed) returns (r: Result<Bytes>)
    ensures r == EncodeSealed(o)
  {
    hide Sha256, PutAll, ObjectValues;
    if !Complete(o) {
      return Err(InvalidArgument);
    }
    var out := WriteValues(MAGIC, ObjectValues(o));
    r := Ok(out + Sha256(out));
  }

  /** `decode_sealed`, with its cursor. */
  method ReadSealed(b: Bytes) returns (r: Result<Sealed>)
    ensures r == DecodeSealed(b)
  {
    hide Sha256, TakeAll, FromValues;
    if |b| < |MAGIC| + 2 + 32 || b[..|MAGIC|] != MAGIC {
      return Err(InvalidFormat);
    }
    if Sha256(b[..|b| - 32]) != b[|b| - 32..] {
      return Err(InvalidFormat);
    }
    var ok, o, vs := ReadValues(OBJECT_KINDS, b, |MAGIC|);
    if !ok || !IsVersion(vs) {
      return Err(InvalidFormat);
    }
    if o + 32 != |b| {
      return Err(InvalidFormat);
    }
    r := Ok(FromValues(vs));
  }
}
