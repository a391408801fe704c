/** The vault: a wrapped master key, sealed objects and an audit log in one checksummed file
    (src/security/vault.cpp). */
module Vaults {
  import opened Core
  import opened Codec
  import opened Hash
  import opened SsmObject
  import Aead
  import Audit
  import Kdf
  import SsmModule

  const VAULT_MAGIC: Bytes := Ascii("AVAULT1")
  const VAULT_VERSION: u16 := 5
  const DEFAULT_ITERATIONS: u32 := 210000
  const MINIMUM_ITERATIONS: u32 := 10000
  const SALT_BYTES: nat := 16
  const NONCE_BYTES: nat := 12
  const CHECKSUM_BYTES: nat := 32

  datatype Metadata = Metadata(id: Bytes, name: Bytes, kdf: Bytes, iterations: u32, memoryKib: u32, parallelism: u32,
                               createdAt: u64, updatedAt: u64, generation: u64, previousAuditHead: Bytes)

  datatype VaultFile = VaultFile(metadata: Metadata, salt: Bytes, wrapNonce: Bytes, wrappedKey: Bytes, wrapTag: Bytes,
                                 objects: seq<Bytes>, auditLog: Bytes, auditHead: Bytes)

  datatype Vault = Vault(metadata: Metadata, masterKey: Bytes, objects: seq<Sealed>, log: Audit.Log)

  /** The clock and the two random strings of one save. */
  datatype Draw = Draw(now: u64, salt: Bytes, nonce: Bytes)

  // ---- Key derivation ----

  datatype KdfName = Pbkdf2HmacSha256 | Argon2id | Scrypt

  const DEFAULT_KDF: Bytes := Ascii("pbkdf2-hmac-sha256")

  function Lower(c: u8): u8 {
    if 65 <= c <= 90 then c + 32 else c
  }

  function ParseKdf(name: Bytes): Result<KdfName> {
    var n: Bytes := seq(|name|, i requires 0 <= i < |name| => Lower(name[i]));
    if n == DEFAULT_KDF || n == Ascii("pbkdf2") then Ok(Pbkdf2HmacSha256)
    else if n == Ascii("argon2id") then Ok(Argon2id)
    else if n == Ascii("scrypt") then Ok(Scrypt)
    else Err(UnsupportedAlgorithm)
  }

  /** Only PBKDF2 is linked in. */
  function UsableKdf(name: Bytes): Result<Unit> {
    var kdf :- ParseKdf(name);
    if kdf.Pbkdf2HmacSha256? then Ok(Unit) else Err(UnsupportedAlgorithm)
  }

  function DeriveWrapKey(passphrase: Bytes, salt: Bytes, m: Metadata): Result<Bytes> {
    if passphrase == [] then Err(InvalidArgument)
    else if |salt| != SALT_BYTES then Err(InvalidFormat)
    else
      var _ :- UsableKdf(if m.kdf == [] then DEFAULT_KDF else m.kdf);
      if m.iterations < MINIMUM_ITERATIONS then Err(InvalidArgument)
      else Ok(Kdf.Pbkdf2(passphrase, salt, m.iterations, 32))
  }

  // ---- What the wrapping binds ----

  function BoundMetadata(m: Metadata, salt: Bytes): seq<Value> {
    [Num(2, VAULT_VERSION), Octets(m.id), Octets(m.name), Octets(m.kdf), Num(4, m.iterations), Num(4, m.memoryKib),
     Num(4, m.parallelism), Num(8, m.createdAt), Num(8, m.generation), Octets(m.previousAuditHead), Octets(salt)]
  }

  function VaultAad(m: Metadata, salt: Bytes): Bytes {
    VAULT_MAGIC + PutAll(BoundMetadata(m, salt))
  }

  predicate ShortMetadata(m: Metadata) {
    |m.id| < TWO_TO_THE_32 && |m.name| < TWO_TO_THE_32 && |m.kdf| < TWO_TO_THE_32 && |m.previousAuditHead| < TWO_TO_THE_32
  }

  /** The wrapping binds the salt and every metadata field but the time of the save. */
  lemma VaultAadBinds(m: Metadata, salt: Bytes, n: Metadata, other: Bytes)
    requires ShortMetadata(m) && ShortMetadata(n) && |salt| < TWO_TO_THE_32 && |other| < TWO_TO_THE_32
    requires VaultAad(m, salt) == VaultAad(n, other)
    ensures m == n.(updatedAt := m.updatedAt) && salt == other
  {
    var x, y := BoundMetadata(m, salt), BoundMetadata(n, other);
    Widths();
    assert AllFit(x) && AllFit(y);
    hide PutAll;
    assert PutAll(x) == VaultAad(m, salt)[|VAULT_MAGIC|..] == VaultAad(n, other)[|VAULT_MAGIC|..] == PutAll(y);
    assert PutAll(x) + [] == PutAll(x) && PutAll(y) + [] == PutAll(y);
    assert Kinds(x) == Kinds(y);
    PutAllInjective(x, [], y, []);
    assert x[1] == y[1] && x[2] == y[2] && x[3] == y[3] && x[4] == y[4] && x[5] == y[5];
    assert x[6] == y[6] && x[7] == y[7] && x[8] == y[8] && x[9] == y[9] && x[10] == y[10];
  }

  // ---- The file format ----

  const HEAD_KINDS: seq<Kind> := [
    Word(2), Blob, Blob, Blob, Word(4), Word(4), Word(4), Word(8), Word(8), Word(8), Blob, Blob, Blob, Blob, Blob, Word(4)]

  function HeadValues(f: VaultFile): seq<Value> {
    var m := f.metadata;
    [Num(2, VAULT_VERSION), Octets(m.id), Octets(m.name), Octets(m.kdf), Num(4, m.iterations), Num(4, m.memoryKib),
     Num(4, m.parallelism), Num(8, m.createdAt), Num(8, m.updatedAt), Num(8, m.generation), Octets(m.previousAuditHead),
     Octets(f.salt), Octets(f.wrapNonce), Octets(f.wrappedKey), Octets(f.wrapTag), Num(4, |f.objects|)]
  }

  function Blobs(f: VaultFile): seq<Bytes> {
    f.objects + [f.auditLog, f.auditHead]
  }

  function FileBody(f: VaultFile): Bytes {
    VAULT_MAGIC + PutAll(HeadValues(f)) + PutBlobs(Blobs(f))
  }

  predicate CompleteFile(f: VaultFile) {
    f.metadata.id != [] && |f.salt| == SALT_BYTES && |f.wrapNonce| == NONCE_BYTES && f.wrappedKey != [] && f.wrapTag != []
  }

  function EncodeFile(f: VaultFile): Result<Bytes> {
    if CompleteFile(f) then Ok(FileBody(f) + Sha256(FileBody(f))) else Err(InvalidArgument)
  }

  function FromHead(vs: seq<Value>, blobs: seq<Bytes>): VaultFile
    requires |blobs| >= 2
  {
    var n := |blobs| - 2;
    VaultFile(Metadata(BytesAt(vs, 1), BytesAt(vs, 2), BytesAt(vs, 3), U32At(vs, 4), U32At(vs, 5), U32At(vs, 6),
                       U64At(vs, 7), U64At(vs, 8), U64At(vs, 9), BytesAt(vs, 10)),
              BytesAt(vs, 11), BytesAt(vs, 12), BytesAt(vs, 13), BytesAt(vs, 14), blobs[..n], blobs[n], blobs[n + 1])
  }

  /** The parameters a file may ask for. */
  function CheckParameters(f: VaultFile): Result<Unit> {
    var _ :- UsableKdf(f.metadata.kdf);
    if f.metadata.iterations < MINIMUM_ITERATIONS || f.metadata.parallelism == 0 then Err(InvalidFormat)
    else if |f.salt| != SALT_BYTES || |f.wrapNonce| != NONCE_BYTES then Err(InvalidFormat)
    else Ok(Unit)
  }

  function StoredLog(f: VaultFile): Result<Audit.Log> {
    if f.auditLog == [] then Ok([]) else Audit.DecodeLog(f.auditLog)
  }

  function CheckHistory(f: VaultFile): Result<Unit> {
    var log :- StoredLog(f);
    if |f.auditHead| != Audit.HASH_BYTES || Audit.HeadHash(log) != f.auditHead || f.metadata.generation == 0
    then Err(InvalidFormat) else Ok(Unit)
  }

  predicate IsVaultVersion(vs: seq<Value>) {
    |vs| == |HEAD_KINDS| && vs[0] == Num(2, VAULT_VERSION)
  }

  function DecodeFile(b: Bytes): Result<VaultFile> {
    if |b| < |VAULT_MAGIC| + 2 + CHECKSUM_BYTES || b[..|VAULT_MAGIC|] != VAULT_MAGIC then Err(InvalidFormat)
    else if Sha256(b[..|b| - CHECKSUM_BYTES]) != b[|b| - CHECKSUM_BYTES..] then Err(InvalidFormat)
    else
      match TakeAll(HEAD_KINDS, b[|VAULT_MAGIC|..])
      case None => Err(InvalidFormat)
      case Some((vs, rest)) =>
        if !IsVaultVersion(vs) then Err(InvalidFormat) else
        var _ :- CheckParameters(FromHead(vs, [[], []]));
        match TakeBlobs(U32At(vs, 15) + 2, rest)
        case None => Err(InvalidFormat)
        case Some((blobs, end)) =>
          if |blobs| < 2 then Err(InvalidFormat) else
          var f := FromHead(vs, blobs);
          var _ :- CheckHistory(f);
          if |end| != CHECKSUM_BYTES then Err(InvalidFormat) else Ok(f)
  }

  /** No length and no count is truncated when the file is written. */
  predicate WritableFile(f: VaultFile) {
    AllFit(HeadValues(f)) && forall x | x in Blobs(f) :: |x| < TWO_TO_THE_32
  }

  lemma HeadKinds(f: VaultFile)
    ensures Kinds(HeadValues(f)) == HEAD_KINDS && |HeadValues(f)| == 16
    ensures AllFit(HeadValues(f)) ==> FromHead(HeadValues(f), Blobs(f)) == f && U32At(HeadValues(f), 15) == |f.objects|
  {
    hide AllFit, U16At, U32At, U64At, BytesAt;
    var vs := HeadValues(f);
    assert Kinds(vs) == HEAD_KINDS;
    if AllFit(vs) {
      hide Kinds;
      forall i | 0 <= i < 16
        ensures HEAD_KINDS[i] == Word(4) ==> vs[i] == Num(4, U32At(vs, i))
        ensures HEAD_KINDS[i] == Word(8) ==> vs[i] == Num(8, U64At(vs, i))
        ensures HEAD_KINDS[i] == Blob ==> vs[i] == Octets(BytesAt(vs, i))
      {
        FieldAt(vs, HEAD_KINDS, i);
      }
      assert Blobs(f)[..|f.objects|] == f.objects;
    }
  }

  /** Reading a written file back: it fails exactly when its own checks do. */
  lemma DecodeOfEncodeFile(f: VaultFile)
    requires CompleteFile(f) && WritableFile(f)
    ensures DecodeFile(EncodeFile(f).value) ==
            if CheckParameters(f).Err? then Err(CheckParameters(f).error)
            else if CheckHistory(f).Err? then Err(CheckHistory(f).error)
            else Ok(f)
  {
    var vs := HeadValues(f);
    HeadKinds(f);
    hide Sha256, PutAll, TakeAll, TakeBlobs, PutBlobs, AllFit, CheckHistory, U16At, U32At, U64At, BytesAt, FromHead, UsableKdf, Kinds;
    var body, digest := FileBody(f), Sha256(FileBody(f));
    var b := body + digest;
    HeadVersion(vs);
    TakeAllOfPutAll(vs, PutBlobs(Blobs(f)) + digest);
    TakeBlobsOfPut(Blobs(f), digest);
    ParametersFromHead(f);
    assert b[..|b| - 32] == body && b[|b| - 32..] == digest;
    assert b[|VAULT_MAGIC|..] == PutAll(vs) + (PutBlobs(Blobs(f)) + digest);
  }

  lemma HeadVersion(vs: seq<Value>)
    requires |vs| == 16 && vs[0] == Num(2, VAULT_VERSION)
    ensures |PutAll(vs)| >= 2 && IsVaultVersion(vs)
  {
    PutAllHolds(vs, 0);
  }

  /** The parameters are in the head of the file. */
  lemma ParametersFromHead(f: VaultFile)
    requires AllFit(HeadValues(f))
    ensures CheckParameters(FromHead(HeadValues(f), [[], []])) == CheckParameters(f)
  {
    HeadKinds(f);
    hide UsableKdf, AllFit, U32At, BytesAt, U64At;
  }

  /** And a file that was read is, byte for byte, what would be written. */
  lemma EncodeOfDecodeFile(b: Bytes)
    requires DecodeFile(b).Ok?
    ensures var f := DecodeFile(b).value;
            && WritableFile(f) && CheckParameters(f).Ok? && CheckHistory(f).Ok?
            && (CompleteFile(f) ==> EncodeFile(f) == Ok(b))
  {
    hide Sha256, PutAll, TakeAll, TakeBlobs, PutBlobs, AllFit, CheckHistory, HeadValues, FromHead, UsableKdf, Kinds, Blobs;
    var (vs, rest) := TakeAll(HEAD_KINDS, b[|VAULT_MAGIC|..]).value;
    PutAllOfTakeAll(HEAD_KINDS, b[|VAULT_MAGIC|..]);
    var (blobs, end) := TakeBlobs(U32At(vs, 15) + 2, rest).value;
    PutOfTakeBlobs(U32At(vs, 15) + 2, rest);
    ValuesOfHead(vs, blobs);
    hide U32At;
    var f := FromHead(vs, blobs);
    ParametersFromHead(f);
    ParametersOf(vs, blobs);
    assert b == VAULT_MAGIC + b[|VAULT_MAGIC|..];
    assert b == FileBody(f) + end;
    assert b[..|b| - 32] == FileBody(f) && b[|b| - 32..] == end;
  }

  lemma ValuesOfHead(vs: seq<Value>, blobs: seq<Bytes>)
    requires Kinds(vs) == HEAD_KINDS && AllFit(vs) && IsVaultVersion(vs) && |blobs| == U32At(vs, 15) + 2
    ensures HeadValues(FromHead(vs, blobs)) == vs && Blobs(FromHead(vs, blobs)) == blobs
  {
    hide AllFit, Kinds, U16At, U32At, U64At, BytesAt;
    var us := HeadValues(FromHead(vs, blobs));
    forall i | 0 <= i < 16
      ensures us[i] == vs[i]
    {
      FieldAt(vs, HEAD_KINDS, i);
    }
  }

  lemma ParametersOf(vs: seq<Value>, blobs: seq<Bytes>)
    requires |blobs| >= 2
    ensures CheckParameters(FromHead(vs, blobs)) == CheckParameters(FromHead(vs, [[], []]))
  {
    hide UsableKdf, U32At, U64At, BytesAt;
  }

  /** `encode_vault_file`. */
  method WriteVaultFile(f: VaultFile) returns (r: Result<Bytes>)
    ensures r == EncodeFile(f)
  {
    hide Sha256, PutAll, PutBlobs, HeadValues;
    if !CompleteFile(f) {
      return Err(InvalidArgument);
    }
    var out := WriteValues(VAULT_MAGIC, HeadValues(f));
    out := WriteBlobs(out, f.objects);
    out := WriteBlobs(out, [f.auditLog, f.auditHead]);
    PutBlobsAppend(f.objects, [f.auditLog, f.auditHead]);
    assert out == FileBody(f);
    r := Ok(out + Sha256(out));
  }

  /** `decode_vault_file`, with its cursor. */
  method ReadVaultFile(b: Bytes) returns (r: Result<VaultFile>)
    ensures r == DecodeFile(b)
  {
    hide Sha256, TakeAll, TakeBlobs, FromHead, CheckParameters, CheckHistory, U32At;
    if |b| < |VAULT_MAGIC| + 2 + CHECKSUM_BYTES || b[..|VAULT_MAGIC|] != VAULT_MAGIC {
      return Err(InvalidFormat);
    }
    if Sha256(b[..|b| - CHECKSUM_BYTES]) != b[|b| - CHECKSUM_BYTES..] {
      return Err(InvalidFormat);
    }
    var ok, o, vs := ReadValues(HEAD_KINDS, b, |VAULT_MAGIC|);
    if !ok || !IsVaultVersion(vs) {
      return Err(InvalidFormat);
    }
    var parameters := CheckParameters(FromHead(vs, [[], []]));
    if parameters.Err? {
      return Err(parameters.error);
    }
    var blobs;
    ok, o, blobs := ReadBlobs(U32At(vs, 15) + 2, b, o);
    if !ok || |blobs| < 2 {
      return Err(InvalidFormat);
    }
    var f := FromHead(vs, blobs);
    var history := CheckHistory(f);
    if history.Err? {
      return Err(history.error);
    }
    if o + CHECKSUM_BYTES != |b| {
      return Err(InvalidFormat);
    }
    r := Ok(f);
  }

  // ---- Locking and unlocking ----

  /** `make_vault_id`. */
  function MakeVaultId(salt: Bytes, createdAt: u64): (id: Bytes)
    ensures |id| == 32
  {
    Hex(Sha256(VAULT_MAGIC + Put(Octets(salt)) + Be(createdAt, 8))[..16])
  }

  /** The metadata a save writes: the next generation, and defaults for what was left empty. */
  function SavedMetadata(v: Vault, draw: Draw): (m: Metadata)
    ensures m.id != [] && m.kdf != []
  {
    var m := v.metadata;
    m.(id := if m.id == [] then MakeVaultId(draw.salt, m.createdAt) else m.id,
       kdf := if m.kdf == [] then DEFAULT_KDF else m.kdf,
       iterations := if m.iterations == 0 then DEFAULT_ITERATIONS else m.iterations,
       updatedAt := draw.now, generation := (m.generation + 1) % TWO_TO_THE_64,
       previousAuditHead := Hex(Audit.HeadHash(v.log)))
  }

  function EncodeObjects(objects: seq<Sealed>): Result<seq<Bytes>> {
    if objects == [] then Ok([]) else
    var first :- EncodeSealed(objects[0]);
    var rest :- EncodeObjects(objects[1..]);
    Ok([first] + rest)
  }

  function DecodeObjects(raw: seq<Bytes>): Result<seq<Sealed>> {
    if raw == [] then Ok([]) else
    var first :- DecodeSealed(raw[0]);
    var rest :- DecodeObjects(raw[1..]);
    Ok([first] + rest)
  }

  /** `lock_vault`. */
  function Lock(aead: Aead.Provider, v: Vault, passphrase: Bytes, draw: Draw): Result<VaultFile> {
    if |v.masterKey| != MASTER_KEY_BYTES then Err(InvalidKey) else
    var m := SavedMetadata(v, draw);
    var key :- DeriveWrapKey(passphrase, draw.salt, m);
    var box :- aead.Encrypt(Aead.Aes256Gcm, key, draw.nonce, v.masterKey, VaultAad(m, draw.salt));
    var objects :- EncodeObjects(v.objects);
    var log :- Audit.EncodeLog(v.log);
    Ok(VaultFile(m, draw.salt, draw.nonce, box.data, box.tag, objects, log, Audit.HeadHash(v.log)))
  }

  function EncodeVault(aead: Aead.Provider, v: Vault, passphrase: Bytes, draw: Draw): Result<Bytes> {
    var f :- Lock(aead, v, passphrase, draw);
    EncodeFile(f)
  }

  const UNLOCK_DETAIL: Bytes := Ascii("decode_vault")

  /** What is done with a file that was read. */
  function Unlock(aead: Aead.Provider, f: VaultFile, passphrase: Bytes, now: u64): Result<Vault> {
    var key :- DeriveWrapKey(passphrase, f.salt, f.metadata);
    var master :- aead.Decrypt(Aead.Aes256Gcm, key, Aead.Ciphertext(f.wrapNonce, f.wrappedKey, f.wrapTag), VaultAad(f.metadata, f.salt));
    if |master| != MASTER_KEY_BYTES then Err(InvalidKey) else
    var objects :- DecodeObjects(f.objects);
    var log :- StoredLog(f);
    var longer :- Audit.Append(log, now, Audit.VAULT_UNLOCKED, f.metadata.id, UNLOCK_DETAIL);
    Ok(Vault(f.metadata, master, objects, longer))
  }

  function DecodeVault(aead: Aead.Provider, b: Bytes, passphrase: Bytes, now: u64): Result<Vault> {
    var f :- DecodeFile(b);
    Unlock(aead, f, passphrase, now)
  }

  /** Every string of the vault can be written without truncating its length. */
  predicate WritableVault(v: Vault) {
    && ShortMetadata(v.metadata) && Audit.Writable(v.log) && |v.objects| < TWO_TO_THE_32
    && (forall o | o in v.objects :: Writable(o) && |Body(o)| + CHECKSUM_BYTES < TWO_TO_THE_32)
    && (Audit.EncodeLog(v.log).Ok? ==> |Audit.EncodeLog(v.log).value| < TWO_TO_THE_32)
  }

  /** What reading a saved vault gives back: the same id, name, key and objects, the next generation, and the log with
      one more event. */
  function Reopened(v: Vault, draw: Draw, now: u64): Vault {
    var m := SavedMetadata(v, draw);
    Vault(m, v.masterKey, v.objects, v.log + [Audit.NewEvent(v.log, now, Audit.VAULT_UNLOCKED, m.id, UNLOCK_DETAIL)])
  }

  lemma {:induction false} ObjectsRoundTrip(objects: seq<Sealed>)
    requires EncodeObjects(objects).Ok?
    requires forall o | o in objects :: Writable(o) && |Body(o)| + CHECKSUM_BYTES < TWO_TO_THE_32
    ensures DecodeObjects(EncodeObjects(objects).value) == Ok(objects)
    ensures |EncodeObjects(objects).value| == |objects|
    ensures forall x | x in EncodeObjects(objects).value :: |x| < TWO_TO_THE_32
  {
    hide DecodeSealed, Writable, Body, Sha256;
    if objects != [] {
      DecodeOfEncode(objects[0]);
      ObjectsRoundTrip(objects[1..]);
      assert objects == [objects[0]] + objects[1..];
      var raw := EncodeObjects(objects).value;
      assert raw == [raw[0]] + EncodeObjects(objects[1..]).value && raw[1..] == EncodeObjects(objects[1..]).value;
    }
  }

  lemma {:induction false} HexShort(b: Bytes)
    ensures |Hex(b)| == 2 * |b|
  {}

  /** The fields of a locked file. */
  lemma LockFields(aead: Aead.Provider, v: Vault, passphrase: Bytes, draw: Draw)
    requires aead.Sound() && Lock(aead, v, passphrase, draw).Ok?
    ensures var f := Lock(aead, v, passphrase, draw).value;
            && f.metadata == SavedMetadata(v, draw) && UsableKdf(f.metadata.kdf).Ok? && f.metadata.iterations >= MINIMUM_ITERATIONS
            && |f.salt| == SALT_BYTES && |f.wrapNonce| == NONCE_BYTES && |f.wrappedKey| == 32 && |f.wrapTag| == 16
            && EncodeObjects(v.objects) == Ok(f.objects) && Audit.Verified(v.log) && Audit.EncodeLog(v.log) == Ok(f.auditLog)
            && f.auditLog != [] && f.auditHead == Audit.HeadHash(v.log)
  {
    hide VaultAad, Audit.Verified, Audit.HeadHash, EncodeObjects, UsableKdf, Kdf.Pbkdf2, SavedMetadata;
    var m := SavedMetadata(v, draw);
    var key := DeriveWrapKey(passphrase, draw.salt, m).value;
    aead.DecryptOfEncrypt(Aead.Aes256Gcm, key, draw.nonce, v.masterKey, VaultAad(m, draw.salt));
  }

  /** A locked file can be written, and its parameters pass but for the parallelism. */
  lemma LockedParameters(aead: Aead.Provider, v: Vault, passphrase: Bytes, draw: Draw)
    requires aead.Sound() && Lock(aead, v, passphrase, draw).Ok?
    ensures var f := Lock(aead, v, passphrase, draw).value;
            CompleteFile(f) && (CheckParameters(f).Ok? <==> v.metadata.parallelism != 0)
  {
    hide Lock, Audit.EncodeLog, Audit.Verified, Audit.HeadHash, EncodeObjects, UsableKdf, MakeVaultId, Hex;
    LockFields(aead, v, passphrase, draw);
  }

  /** Its own log and head agree. */
  lemma LockedHistory(aead: Aead.Provider, v: Vault, passphrase: Bytes, draw: Draw)
    requires aead.Sound() && Lock(aead, v, passphrase, draw).Ok? && WritableVault(v)
    ensures var f := Lock(aead, v, passphrase, draw).value;
            && StoredLog(f) == Ok(v.log)
            && (CheckHistory(f).Ok? <==> (v.metadata.generation + 1) % TWO_TO_THE_64 != 0)
  {
    hide Lock, Audit.DecodeLog, Audit.EncodeLog, Audit.Verified, Audit.HeadHash, Audit.Writable, EncodeObjects, UsableKdf, Writable,
         Body, SavedMetadata, ShortMetadata;
    LockFields(aead, v, passphrase, draw);
    SavedFields(v, draw);
    Audit.DecodeOfEncodeLog(v.log);
    Audit.VerifiedHead(v.log);
  }

  lemma LockedObjects(aead: Aead.Provider, v: Vault, passphrase: Bytes, draw: Draw)
    requires aead.Sound() && Lock(aead, v, passphrase, draw).Ok? && WritableVault(v)
    ensures var f := Lock(aead, v, passphrase, draw).value;
            && DecodeObjects(f.objects) == Ok(v.objects) && |f.objects| == |v.objects|
            && forall x | x in Blobs(f) :: |x| < TWO_TO_THE_32
  {
    hide Lock, Audit.EncodeLog, Audit.Verified, Audit.HeadHash, Audit.Writable, EncodeObjects, DecodeObjects, UsableKdf, Writable, Body,
         ShortMetadata, SavedMetadata;
    LockFields(aead, v, passphrase, draw);
    ObjectsRoundTrip(v.objects);
    Audit.VerifiedHead(v.log);
    var f := Lock(aead, v, passphrase, draw).value;
    assert forall x | x in Blobs(f) :: x in f.objects || x == f.auditLog || x == f.auditHead;
  }

  lemma LockedWritable(aead: Aead.Provider, v: Vault, passphrase: Bytes, draw: Draw)
    requires aead.Sound() && Lock(aead, v, passphrase, draw).Ok? && WritableVault(v)
    ensures WritableFile(Lock(aead, v, passphrase, draw).value)
  {
    hide Lock, Audit.EncodeLog, Audit.Verified, Audit.Writable, EncodeObjects, DecodeObjects, UsableKdf, Writable, Body, AllFit, Blobs;
    LockFields(aead, v, passphrase, draw);
    LockedObjects(aead, v, passphrase, draw);
    Audit.VerifiedHead(v.log);
    HexShort(Audit.HeadHash(v.log));
    HeadFits(Lock(aead, v, passphrase, draw).value);
  }

  lemma HeadFits(f: VaultFile)
    requires ShortMetadata(f.metadata) && |f.salt| < TWO_TO_THE_32 && |f.wrapNonce| < TWO_TO_THE_32
    requires |f.wrappedKey| < TWO_TO_THE_32 && |f.wrapTag| < TWO_TO_THE_32 && |f.objects| < TWO_TO_THE_32
    ensures AllFit(HeadValues(f))
  {
    Widths();
  }

  /** Unlocking what was locked. */
  lemma UnlockOfLock(aead: Aead.Provider, v: Vault, passphrase: Bytes, draw: Draw, now: u64)
    requires aead.Sound() && Lock(aead, v, passphrase, draw).Ok? && WritableVault(v)
    ensures Unlock(aead, Lock(aead, v, passphrase, draw).value, passphrase, now) == Ok(Reopened(v, draw, now))
  {
    hide VaultAad, Audit.Verified, EncodeObjects, DecodeObjects, UsableKdf, Kdf.Pbkdf2, CheckParameters, CheckHistory, StoredLog,
         Audit.NewEvent, WritableVault, CompleteFile, Blobs;
    LockFields(aead, v, passphrase, draw);
    LockedHistory(aead, v, passphrase, draw);
    LockedObjects(aead, v, passphrase, draw);
    var m := SavedMetadata(v, draw);
    var key := DeriveWrapKey(passphrase, draw.salt, m).value;
    aead.DecryptOfEncrypt(Aead.Aes256Gcm, key, draw.nonce, v.masterKey, VaultAad(m, draw.salt));
  }

  /** A saved vault opens again under its passphrase if and only if its parallelism is not zero and its generation did
      not wrap to zero; and then it is the same vault, one generation on, with one event more. */
  lemma DecodeOfEncodeVault(aead: Aead.Provider, v: Vault, passphrase: Bytes, draw: Draw, now: u64)
    requires aead.Sound() && EncodeVault(aead, v, passphrase, draw).Ok? && WritableVault(v)
    ensures var r := DecodeVault(aead, EncodeVault(aead, v, passphrase, draw).value, passphrase, now);
            && (r.Ok? <==> v.metadata.parallelism != 0 && v.metadata.generation != 0xffff_ffff_ffff_ffff)
            && (r.Ok? ==> r.value == Reopened(v, draw, now))
  {
    hide Lock, Unlock, EncodeFile, DecodeFile, WritableVault, CheckParameters, CheckHistory, Reopened, CompleteFile, WritableFile,
         StoredLog;
    LockedParameters(aead, v, passphrase, draw);
    LockedHistory(aead, v, passphrase, draw);
    LockedWritable(aead, v, passphrase, draw);
    UnlockOfLock(aead, v, passphrase, draw, now);
    DecodeOfEncodeFile(Lock(aead, v, passphrase, draw).value);
  }

  /** What that means for its reader: key, objects, name, creation time and parameters are as they were, the id too if
      there was one; the generation is one higher; the head of the saved log is noted; and the log, which still
      verifies, has exactly one vault_unlocked event more. */
  lemma VaultRoundTrip(aead: Aead.Provider, v: Vault, passphrase: Bytes, draw: Draw, now: u64, w: Vault)
    requires aead.Sound() && EncodeVault(aead, v, passphrase, draw).Ok? && WritableVault(v)
    requires DecodeVault(aead, EncodeVault(aead, v, passphrase, draw).value, passphrase, now) == Ok(w)
    ensures w.masterKey == v.masterKey && w.objects == v.objects
    ensures var m, n := v.metadata, w.metadata;
            && (m.id != [] ==> n.id == m.id) && n.id != [] && n.name == m.name && n.createdAt == m.createdAt
            && n.memoryKib == m.memoryKib && n.parallelism == m.parallelism
            && (m.kdf != [] ==> n.kdf == m.kdf) && (m.iterations != 0 ==> n.iterations == m.iterations)
            && n.generation == m.generation + 1 && n.updatedAt == draw.now
            && n.previousAuditHead == Hex(Audit.HeadHash(v.log))
    ensures |w.log| == |v.log| + 1 && w.log[..|v.log|] == v.log && Audit.Verified(w.log)
    ensures var e := w.log[|v.log|];
            && e.eventType == Audit.VAULT_UNLOCKED && e.timestamp == now && e.subject == w.metadata.id && e.detail == UNLOCK_DETAIL
  {
    hide EncodeVault, DecodeVault, WritableVault, SavedMetadata, Audit.Verified, Audit.HeadHash, Audit.NewEvent;
    DecodeOfEncodeVault(aead, v, passphrase, draw, now);
    SavedLogVerifies(aead, v, passphrase, draw);
    SavedFields(v, draw);
    ReopenedLog(v, draw, now);
  }

  lemma SavedFields(v: Vault, draw: Draw)
    ensures var m, n := v.metadata, SavedMetadata(v, draw);
            && (m.id != [] ==> n.id == m.id) && n.id != [] && n.name == m.name && n.createdAt == m.createdAt
            && n.memoryKib == m.memoryKib && n.parallelism == m.parallelism
            && (m.kdf != [] ==> n.kdf == m.kdf) && (m.iterations != 0 ==> n.iterations == m.iterations)
            && n.generation == (m.generation + 1) % TWO_TO_THE_64 && n.updatedAt == draw.now
            && n.previousAuditHead == Hex(Audit.HeadHash(v.log))
  {
    hide Hex, MakeVaultId, Audit.HeadHash;
  }

  lemma ReopenedLog(v: Vault, draw: Draw, now: u64)
    requires Audit.Verified(v.log) && |v.log| < TWO_TO_THE_64
    ensures var w := Reopened(v, draw, now);
            && |w.log| == |v.log| + 1 && w.log[..|v.log|] == v.log && Audit.Verified(w.log)
            && var e := w.log[|v.log|];
               e.eventType == Audit.VAULT_UNLOCKED && e.timestamp == now && e.subject == w.metadata.id && e.detail == UNLOCK_DETAIL
  {
    hide SavedMetadata, Audit.Verified, Audit.EventHash, Audit.HeadHash;
    Audit.AppendExtends(v.log, now, Audit.VAULT_UNLOCKED, SavedMetadata(v, draw).id, UNLOCK_DETAIL);
  }

  lemma SavedLogVerifies(aead: Aead.Provider, v: Vault, passphrase: Bytes, draw: Draw)
    requires aead.Sound() && EncodeVault(aead, v, passphrase, draw).Ok? && WritableVault(v)
    ensures Audit.Verified(v.log) && |v.log| < TWO_TO_THE_64
  {
    hide Lock, Audit.Verified, Audit.EncodeLog, Audit.HeadHash, SavedMetadata, EncodeFile;
    LockFields(aead, v, passphrase, draw);
  }

  // ---- Anchors and generations ----

  datatype Anchor = Anchor(id: Bytes, generation: u64, auditHead: Bytes)

  function AnchorFor(v: Vault): Anchor {
    Anchor(v.metadata.id, v.metadata.generation, Audit.HeadHash(v.log))
  }

  function VerifyAnchor(v: Vault, expected: Anchor): Result<Unit> {
    if v.metadata.id != expected.id || v.metadata.generation < expected.generation then Err(InvalidFormat)
    else if expected.auditHead != [] && v.metadata.generation == expected.generation && Audit.HeadHash(v.log) != expected.auditHead
    then Err(InvalidFormat)
    else Ok(Unit)
  }

  /** One save and the load after it. `edited` is the vault as it was saved. */
  datatype Cycle = Cycle(edited: Vault, passphrase: Bytes, draw: Draw, now: u64)

  /** Between load and save the objects, the key and the derivation parameters may change and the log may grow; the id
      and the generation stay. */
  predicate EditOf(v: Vault, edited: Vault) {
    && edited.metadata.id == v.metadata.id && edited.metadata.generation == v.metadata.generation
    && v.log <= edited.log
  }

  /** Each vault of the line was loaded from a save of the one before. */
  ghost predicate SaveLoadLine(aead: Aead.Provider, line: seq<Vault>, cycles: seq<Cycle>) {
    && |line| == |cycles| + 1 && line[0].metadata.id != []
    && forall i | 0 <= i < |cycles| ::
         && EditOf(line[i], cycles[i].edited) && WritableVault(cycles[i].edited)
         && var saved := EncodeVault(aead, cycles[i].edited, cycles[i].passphrase, cycles[i].draw);
            saved.Ok? && DecodeVault(aead, saved.value, cycles[i].passphrase, cycles[i].now) == Ok(line[i + 1])
  }

  lemma OneCycle(aead: Aead.Provider, v: Vault, c: Cycle, w: Vault)
    requires aead.Sound() && EditOf(v, c.edited) && WritableVault(c.edited) && v.metadata.id != []
    requires var saved := EncodeVault(aead, c.edited, c.passphrase, c.draw);
             saved.Ok? && DecodeVault(aead, saved.value, c.passphrase, c.now) == Ok(w)
    ensures w.metadata.id == v.metadata.id && w.metadata.generation == v.metadata.generation + 1
    ensures v.log <= w.log && |v.log| < |w.log|
  {
    hide EncodeVault, DecodeVault, WritableVault, Audit.NewEvent, Audit.HeadHash, MakeVaultId, Hex;
    DecodeOfEncodeVault(aead, c.edited, c.passphrase, c.draw, c.now);
  }

  lemma {:induction false} LineGrows(aead: Aead.Provider, line: seq<Vault>, cycles: seq<Cycle>, i: nat, j: nat)
    requires aead.Sound() && SaveLoadLine(aead, line, cycles) && i <= j < |line|
    ensures line[j].metadata.id == line[i].metadata.id != []
    ensures line[j].metadata.generation == line[i].metadata.generation + (j - i)
    ensures line[i].log <= line[j].log && |line[i].log| + (j - i) <= |line[j].log|
    decreases j
  {
    hide EncodeVault, DecodeVault, WritableVault, EditOf;
    if j > 0 {
      LineGrows(aead, line, cycles, 0, j - 1);
      OneCycle(aead, line[j - 1], cycles[j - 1], line[j]);
      if i < j {
        LineGrows(aead, line, cycles, i, j - 1);
      }
    }
  }

  /** Over any number of saves and loads the generation rises by one each time and the history only grows; and a later
      anchor rejects every earlier vault, while an earlier anchor accepts every later one. */
  lemma RollbackIsSeen(aead: Aead.Provider, line: seq<Vault>, cycles: seq<Cycle>, i: nat, j: nat)
    requires aead.Sound() && SaveLoadLine(aead, line, cycles) && i < j < |line|
    ensures line[j].metadata.generation == line[i].metadata.generation + (j - i)
    ensures line[i].log < line[j].log
    ensures VerifyAnchor(line[i], AnchorFor(line[j])).Err? && VerifyAnchor(line[j], AnchorFor(line[i])).Ok?
  {
    hide SaveLoadLine;
    LineGrows(aead, line, cycles, i, j);
  }

  /** A vault that passes the anchor of another of its generation has the other's whole history, or SHA-256 collides. */
  lemma AnchorBindsHistory(v: Vault, w: Vault)
    requires VerifyAnchor(v, AnchorFor(w)).Ok? && v.metadata.generation == w.metadata.generation
    requires Audit.Verified(v.log) && Audit.Verified(w.log) && Audit.AllShort(v.log) && Audit.AllShort(w.log)
    ensures v.metadata.id == w.metadata.id
    ensures v.log == w.log || Audit.LogsCollide(v.log, w.log)
  {
    hide Audit.Verified, Audit.AllShort, Sha256, Audit.LogsCollide;
    Audit.VerifiedHead(w.log);
    Audit.HeadBindsHistory(v.log, w.log);
  }

  /** Saving does not advance the vault in memory: two saves of it carry one generation, so each passes the other's
      generation check. */
  lemma SavingTwiceKeepsGeneration(aead: Aead.Provider, v: Vault, edited: Vault, passphrase: Bytes, first: Draw, second: Draw, now: u64)
    requires aead.Sound() && EditOf(v, edited) && v.metadata.id != [] && WritableVault(v) && WritableVault(edited)
    requires EncodeVault(aead, v, passphrase, first).Ok? && EncodeVault(aead, edited, passphrase, second).Ok?
    requires v.metadata.parallelism != 0 && edited.metadata.parallelism != 0 && v.metadata.generation != 0xffff_ffff_ffff_ffff
    ensures var a := DecodeVault(aead, EncodeVault(aead, v, passphrase, first).value, passphrase, now);
            var b := DecodeVault(aead, EncodeVault(aead, edited, passphrase, second).value, passphrase, now);
            && a.Ok? && b.Ok? && a.value.metadata.id == b.value.metadata.id
            && a.value.metadata.generation == b.value.metadata.generation == v.metadata.generation + 1
  {
    hide EncodeVault, DecodeVault, WritableVault, Audit.NewEvent, Audit.HeadHash, MakeVaultId, Hex;
    DecodeOfEncodeVault(aead, v, passphrase, first, now);
    DecodeOfEncodeVault(aead, edited, passphrase, second, now);
  }

  // ---- Back into a security module ----

  /** `open_ssm`. */
  function OpenSsm(aead: Aead.Provider, master: Bytes, objects: seq<Sealed>): Result<SsmModule.Entries> {
    if objects == [] then Ok(map[]) else
    var before :- OpenSsm(aead, master, objects[..|objects| - 1]);
    var (r, after) := SsmModule.ImportStep(aead, master, before, objects[|objects| - 1]);
    if r.Err? then Err(r.error) else Ok(after)
  }

  /** The loop of imports, into a new module. */
  method OpenModule(aead: Aead.Provider, master: Bytes, objects: seq<Sealed>) returns (r: Result<SsmModule.SoftwareSecurityModule>)
    requires aead.Sound()
    ensures r.Ok? <==> OpenSsm(aead, master, objects).Ok?
    ensures r.Ok? ==> fresh(r.value) && r.value.Valid() && r.value.aead == aead && r.value.master == master
    ensures r.Ok? ==> OpenSsm(aead, master, objects) == Ok(r.value.entries)
  {
    hide SsmModule.ImportStep, SsmModule.Intact;
    var m := new SsmModule.SoftwareSecurityModule(aead, master);
    assert objects[..0] == [];
    for i := 0 to |objects|
      invariant m.Valid() && OpenSsm(aead, master, objects[..i]) == Ok(m.entries)
    {
      assert objects[..i + 1][..i] == objects[..i] && objects[..i + 1][i] == objects[i];
      var imported := m.ImportSealed(objects[i]);
      if imported.Err? {
        OpenSsmFails(aead, master, objects, i + 1);
        return Err(imported.error);
      }
    }
    assert objects[..|objects|] == objects;
    r := Ok(m);
  }

  lemma {:induction false} OpenSsmFails(aead: Aead.Provider, master: Bytes, objects: seq<Sealed>, n: nat)
    requires n <= |objects| && OpenSsm(aead, master, objects[..n]).Err?
    ensures OpenSsm(aead, master, objects).Err?
  {
    hide SsmModule.ImportStep;
    if n < |objects| {
      var k := |objects| - 1;
      assert objects[..k][..n] == objects[..n];
      OpenSsmFails(aead, master, objects[..k], n);
    } else {
      assert objects[..n] == objects;
    }
  }

  /** A module opened on the objects of a vault holds each of them under its handle, and each opens to its secret. */
  lemma {:induction false} OpenSsmRestores(aead: Aead.Provider, master: Bytes, objects: seq<Sealed>, secrets: map<Handle, Bytes>)
    requires forall o | o in objects :: o.policy.handle != [] && o.policy.handle in secrets
    requires forall o | o in objects :: OpenSecret(aead, master, o) == Ok(secrets[o.policy.handle])
    requires forall i, j | 0 <= i < j < |objects| :: objects[i].policy.handle != objects[j].policy.handle
    ensures OpenSsm(aead, master, objects).Ok?
    ensures var entries := OpenSsm(aead, master, objects).value;
            && (forall o | o in objects :: o.policy.handle in entries && entries[o.policy.handle] == o)
            && (forall h | h in entries :: h in secrets && OpenSecret(aead, master, entries[h]) == Ok(secrets[h]))
  {
    hide OpenSecret;
    if objects != [] {
      var n := |objects| - 1;
      assert objects == objects[..n] + [objects[n]];
      OpenSsmRestores(aead, master, objects[..n], secrets);
    }
  }
}
