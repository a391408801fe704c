/** The software security module: a map of sealed keys behind one lock (src/security/ssm.cpp). Every action below is
    one lock-protected step, so a run of actions is any interleaving of any callers. */
module SsmModule {
  import opened Core
  import opened SsmObject
  import Hash
  import Aead

  type Entries = map<Handle, Sealed>

  datatype Operation = Signing | Decapsulating | PublicExport | SealedExport

  /** `validate_operation`. */
  function Validate(o: Sealed, op: Operation, domain: Bytes): Result<Unit> {
    var metadataOnly := op.PublicExport? || op.SealedExport?;
    if o.status.state != ACTIVE && !(metadataOnly && o.status.state == RETIRED) then Err(InvalidKey)
    else
      match op
      case Signing =>
        if Exhausted(o) then Err(AuthenticationFailed)
        else if o.policy.allowedDomain != [] && domain != o.policy.allowedDomain then Err(AuthenticationFailed)
        else if o.policy.objectType != SIGN || !HasFlag(o.policy.flags, ALLOW_SIGN) then Err(InvalidArgument)
        else Ok(Unit)
      case Decapsulating =>
        if Exhausted(o) then Err(AuthenticationFailed)
        else if o.policy.objectType != KEM || !HasFlag(o.policy.flags, ALLOW_DECAPSULATE) then Err(InvalidArgument)
        else Ok(Unit)
      case PublicExport => if HasFlag(o.policy.flags, EXPORTABLE_PUBLIC) then Ok(Unit) else Err(InvalidArgument)
      case SealedExport => if HasFlag(o.policy.flags, EXPORTABLE_SEALED) then Ok(Unit) else Err(InvalidArgument)
  }

  predicate Exhausted(o: Sealed) {
    o.policy.maxOperations != 0 && o.status.usedOperations >= o.policy.maxOperations
  }

  datatype Action =
    | Store(policy: Policy, secret: Bytes, nonce: Bytes)
    | SetState(handle: Handle, state: u16)
    | Record(handle: Handle, now: u64)
    | Link(handle: Handle, replacement: Handle, now: u64, reason: Bytes, retire: bool)
    | Import(sealed: Sealed)
    | Erase(handle: Handle)
    | Clear

  function WithStatus(entries: Entries, h: Handle, s: Status): Entries
    requires h in entries
  {
    entries[h := entries[h].(status := s)]
  }

  /** `store_secret`: the handle is computed, never chosen. */
  function StoreStep(aead: Aead.Provider, master: Bytes, entries: Entries, policy: Policy, secret: Bytes, nonce: Bytes): (Result<Handle>, Entries) {
    var p := policy.(handle := MakeHandle(policy));
    match SealSecret(aead, master, p, secret, nonce)
    case Err(e) => (Err(e), entries)
    case Ok(o) => (Ok(p.handle), entries[p.handle := o])
  }

  function SetStateStep(entries: Entries, h: Handle, state: u16): (Result<Unit>, Entries) {
    if h !in entries || entries[h].status.state == DESTROYED then (Err(InvalidKey), entries)
    else (Ok(Unit), WithStatus(entries, h, entries[h].status.(state := state)))
  }

  /** `record_operation`. */
  function RecordStep(entries: Entries, h: Handle, now: u64): Entries {
    if h !in entries then entries else
    var s := entries[h].status;
    WithStatus(entries, h, s.(usedOperations := (s.usedOperations + 1) % TWO_TO_THE_64, lastUsedAt := now))
  }

  function OldLink(s: Status, replacement: Handle, now: u64, reason: Bytes, retire: bool): Status {
    s.(rotation := s.rotation.(replacement := replacement, generation := (s.rotation.generation + 1) % TWO_TO_THE_64,
                               rotatedAt := now, reason := reason),
       state := if retire then RETIRED else s.state)
  }

  function NewLink(s: Status, original: Handle, generation: u64, now: u64, reason: Bytes): Status {
    s.(rotation := s.rotation.(original := original, generation := generation, rotatedAt := now, reason := reason))
  }

  /** The second locked phase of `rotate_key`. */
  function LinkStep(entries: Entries, h: Handle, replacement: Handle, now: u64, reason: Bytes, retire: bool): (Result<Unit>, Entries) {
    if h !in entries || replacement !in entries then (Err(InternalError), entries) else
    var first := WithStatus(entries, h, OldLink(entries[h].status, replacement, now, reason, retire));
    var generation := first[h].status.rotation.generation;
    (Ok(Unit), WithStatus(first, replacement, NewLink(first[replacement].status, h, generation, now, reason)))
  }

  function ImportStep(aead: Aead.Provider, master: Bytes, entries: Entries, o: Sealed): (Result<Handle>, Entries) {
    if o.policy.handle == [] then (Err(InvalidFormat), entries) else
    match OpenSecret(aead, master, o)
    case Err(e) => (Err(e), entries)
    case Ok(_) => (Ok(o.policy.handle), entries[o.policy.handle := o])
  }

  function Export(entries: Entries, h: Handle): Result<Sealed> {
    if h !in entries then Err(InvalidKey) else
    var _ :- Validate(entries[h], SealedExport, []);
    Ok(entries[h])
  }

  /** `public_key`. */
  function PublicKey(entries: Entries, h: Handle): Result<Bytes> {
    if h !in entries then Err(InvalidKey) else
    var _ :- Validate(entries[h], PublicExport, []);
    Ok(entries[h].policy.publicKey)
  }

  /** Active and retired keys can be exported, sealed or public, exactly when their flag for it is set; what is exported
      is what is stored. */
  lemma ExportsExactly(entries: Entries, h: Handle)
    ensures Export(entries, h).Ok? <==>
              h in entries && entries[h].status.state in {ACTIVE, RETIRED} && HasFlag(entries[h].policy.flags, EXPORTABLE_SEALED)
    ensures PublicKey(entries, h).Ok? <==>
              h in entries && entries[h].status.state in {ACTIVE, RETIRED} && HasFlag(entries[h].policy.flags, EXPORTABLE_PUBLIC)
    ensures Export(entries, h).Ok? ==> Export(entries, h).value == entries[h]
    ensures PublicKey(entries, h).Ok? ==> PublicKey(entries, h).value == entries[h].policy.publicKey
  {
    hide HasFlag;
  }

  function EraseStep(entries: Entries, h: Handle): (Result<Unit>, Entries) {
    if h !in entries then (Err(InvalidKey), entries) else (Ok(Unit), entries - {h})
  }

  function After(aead: Aead.Provider, master: Bytes, entries: Entries, a: Action): Entries {
    match a
    case Store(policy, secret, nonce) => StoreStep(aead, master, entries, policy, secret, nonce).1
    case SetState(h, state) => SetStateStep(entries, h, state).1
    case Record(h, now) => RecordStep(entries, h, now)
    case Link(h, replacement, now, reason, retire) => LinkStep(entries, h, replacement, now, reason, retire).1
    case Import(o) => ImportStep(aead, master, entries, o).1
    case Erase(h) => EraseStep(entries, h).1
    case Clear => map[]
  }

  // ---- Every entry keeps opening to its secret ----

  /** What each entry was sealed from, or opened to when it was imported. */
  function SecretsAfter(aead: Aead.Provider, master: Bytes, entries: Entries, secrets: map<Handle, Bytes>, a: Action): map<Handle, Bytes> {
    match a
    case Store(policy, secret, nonce) =>
      var r := StoreStep(aead, master, entries, policy, secret, nonce).0;
      if r.Ok? then secrets[r.value := secret] else secrets
    case Import(o) =>
      var r := ImportStep(aead, master, entries, o).0;
      if r.Ok? then secrets[r.value := OpenSecret(aead, master, o).value] else secrets
    case Erase(h) => secrets - {h}
    case Clear => map[]
    case SetState(_, _) => secrets
    case Record(_, _) => secrets
    case Link(_, _, _, _, _) => secrets
  }

  ghost predicate Intact(aead: Aead.Provider, master: Bytes, entries: Entries, secrets: map<Handle, Bytes>) {
    && secrets.Keys == entries.Keys
    && forall h | h in entries :: entries[h].policy.handle == h && OpenSecret(aead, master, entries[h]) == Ok(secrets[h])
  }

  lemma StatusDoesNotOpen(aead: Aead.Provider, master: Bytes, o: Sealed, s: Status)
    ensures OpenSecret(aead, master, o.(status := s)) == OpenSecret(aead, master, o)
  {
    hide SealKey, AssociatedData;
  }

  lemma StatusKeeps(aead: Aead.Provider, master: Bytes, entries: Entries, secrets: map<Handle, Bytes>, h: Handle, s: Status)
    requires Intact(aead, master, entries, secrets) && h in entries
    ensures Intact(aead, master, WithStatus(entries, h, s), secrets)
  {
    hide OpenSecret;
    StatusDoesNotOpen(aead, master, entries[h], s);
  }

  lemma StatusAt(entries: Entries, h: Handle, s: Status)
    requires h in entries
    ensures WithStatus(entries, h, s).Keys == entries.Keys
    ensures forall g | g in entries :: WithStatus(entries, h, s)[g] == if g == h then entries[g].(status := s) else entries[g]
  {}

  lemma StoreKeeps(aead: Aead.Provider, master: Bytes, entries: Entries, secrets: map<Handle, Bytes>, policy: Policy, secret: Bytes, nonce: Bytes)
    requires aead.Sound() && Intact(aead, master, entries, secrets)
    ensures var (r, after) := StoreStep(aead, master, entries, policy, secret, nonce);
            Intact(aead, master, after, if r.Ok? then secrets[r.value := secret] else secrets)
  {
    hide OpenSecret, SealSecret, MakeHandle;
    var p := policy.(handle := MakeHandle(policy));
    if SealSecret(aead, master, p, secret, nonce).Ok? {
      OpenOfSeal(aead, master, p, secret, nonce, FRESH);
      SealedFresh(aead, master, p, secret, nonce);
    }
  }

  lemma SetStateKeeps(aead: Aead.Provider, master: Bytes, entries: Entries, secrets: map<Handle, Bytes>, h: Handle, state: u16)
    requires Intact(aead, master, entries, secrets)
    ensures Intact(aead, master, SetStateStep(entries, h, state).1, secrets)
  {
    hide Intact, WithStatus;
    if h in entries {
      StatusKeeps(aead, master, entries, secrets, h, entries[h].status.(state := state));
    }
  }

  lemma RecordKeeps(aead: Aead.Provider, master: Bytes, entries: Entries, secrets: map<Handle, Bytes>, h: Handle, now: u64)
    requires Intact(aead, master, entries, secrets)
    ensures Intact(aead, master, RecordStep(entries, h, now), secrets)
  {
    hide Intact, WithStatus;
    if h in entries {
      var s := entries[h].status;
      StatusKeeps(aead, master, entries, secrets, h, s.(usedOperations := (s.usedOperations + 1) % TWO_TO_THE_64, lastUsedAt := now));
    }
  }

  lemma LinkKeeps(aead: Aead.Provider, master: Bytes, entries: Entries, secrets: map<Handle, Bytes>, h: Handle, replacement: Handle,
                  now: u64, reason: Bytes, retire: bool)
    requires Intact(aead, master, entries, secrets)
    ensures Intact(aead, master, LinkStep(entries, h, replacement, now, reason, retire).1, secrets)
  {
    hide Intact, WithStatus, OldLink, NewLink;
    if h in entries && replacement in entries {
      var s := OldLink(entries[h].status, replacement, now, reason, retire);
      StatusKeeps(aead, master, entries, secrets, h, s);
      StatusAt(entries, h, s);
      var first := WithStatus(entries, h, s);
      var t := NewLink(first[replacement].status, h, first[h].status.rotation.generation, now, reason);
      StatusKeeps(aead, master, first, secrets, replacement, t);
    }
  }

  lemma ImportKeeps(aead: Aead.Provider, master: Bytes, entries: Entries, secrets: map<Handle, Bytes>, o: Sealed)
    requires Intact(aead, master, entries, secrets)
    ensures var (r, after) := ImportStep(aead, master, entries, o);
            Intact(aead, master, after, if r.Ok? then secrets[r.value := OpenSecret(aead, master, o).value] else secrets)
  {
    hide OpenSecret;
  }

  lemma EraseKeeps(aead: Aead.Provider, master: Bytes, entries: Entries, secrets: map<Handle, Bytes>, h: Handle)
    requires Intact(aead, master, entries, secrets)
    ensures Intact(aead, master, EraseStep(entries, h).1, secrets - {h})
  {
    hide OpenSecret;
  }

  /** Whatever step is taken, every entry still opens to what it was sealed from. */
  lemma StepKeeps(aead: Aead.Provider, master: Bytes, entries: Entries, secrets: map<Handle, Bytes>, a: Action)
    requires aead.Sound() && Intact(aead, master, entries, secrets)
    ensures Intact(aead, master, After(aead, master, entries, a), SecretsAfter(aead, master, entries, secrets, a))
  {
    assert a.Clear? ==> Intact(aead, master, map[], map[]);
    hide Intact, OpenSecret, SealSecret, StoreStep, SetStateStep, RecordStep, LinkStep, ImportStep, EraseStep;
    match a
    case Store(policy, secret, nonce) => StoreKeeps(aead, master, entries, secrets, policy, secret, nonce);
    case SetState(h, state) => SetStateKeeps(aead, master, entries, secrets, h, state);
    case Record(h, now) => RecordKeeps(aead, master, entries, secrets, h, now);
    case Link(h, replacement, now, reason, retire) =>
      LinkKeeps(aead, master, entries, secrets, h, replacement, now, reason, retire);
    case Import(o) => ImportKeeps(aead, master, entries, secrets, o);
    case Erase(h) => EraseKeeps(aead, master, entries, secrets, h);
    case Clear =>
  }

  lemma SealedFresh(aead: Aead.Provider, master: Bytes, p: Policy, secret: Bytes, nonce: Bytes)
    requires SealSecret(aead, master, p, secret, nonce).Ok?
    ensures var o := SealSecret(aead, master, p, secret, nonce).value; o.policy == p && o.status == FRESH && o.nonce == nonce
  {
    hide SealKey, AssociatedData;
  }

  function Run(aead: Aead.Provider, master: Bytes, actions: seq<Action>): Entries {
    if actions == [] then map[] else After(aead, master, Run(aead, master, actions[..|actions| - 1]), actions[|actions| - 1])
  }

  function SecretsRun(aead: Aead.Provider, master: Bytes, actions: seq<Action>): map<Handle, Bytes> {
    if actions == [] then map[] else
    var earlier := actions[..|actions| - 1];
    SecretsAfter(aead, master, Run(aead, master, earlier), SecretsRun(aead, master, earlier), actions[|actions| - 1])
  }

  /** In every reachable state every entry opens to the secret it was sealed from. */
  lemma {:induction false} SecretsStayOpen(aead: Aead.Provider, master: Bytes, actions: seq<Action>)
    requires aead.Sound()
    ensures Intact(aead, master, Run(aead, master, actions), SecretsRun(aead, master, actions))
  {
    hide After, SecretsAfter;
    if actions != [] {
      var earlier := actions[..|actions| - 1];
      SecretsStayOpen(aead, master, earlier);
      hide Intact;
      StepKeeps(aead, master, Run(aead, master, earlier), SecretsRun(aead, master, earlier), actions[|actions| - 1]);
    }
  }

  // ---- Policies cannot be edited ----

  /** The same seal: bound fields and box agree. */
  predicate SameSeal(x: Sealed, o: Sealed) {
    x.policy == o.policy && x.nonce == o.nonce && x.ciphertext == o.ciphertext && x.tag == o.tag
  }

  /** Everything sealed under the master key so far. */
  function IssuedAfter(aead: Aead.Provider, master: Bytes, issued: seq<Sealed>, a: Action): seq<Sealed> {
    if !a.Store? then issued else
    match SealSecret(aead, master, a.policy.(handle := MakeHandle(a.policy)), a.secret, a.nonce)
    case Err(_) => issued
    case Ok(o) => issued + [o]
  }

  /** What the AEAD provider is trusted for: an import opens only if that very box was sealed under the master key. */
  ghost predicate Unforged(aead: Aead.Provider, master: Bytes, issued: seq<Sealed>, a: Action) {
    a.Import? && OpenSecret(aead, master, a.sealed).Ok? ==>
      exists x :: x in issued && x.nonce == a.sealed.nonce && x.ciphertext == a.sealed.ciphertext && x.tag == a.sealed.tag &&
                  AssociatedData(x.policy) == AssociatedData(a.sealed.policy)
  }

  ghost predicate PoliciesIssued(entries: Entries, issued: seq<Sealed>) {
    && (forall x | x in issued :: ShortPolicy(x.policy))
    && forall h | h in entries :: exists x :: x in issued && SameSeal(x, entries[h])
  }

  /** No step, and in particular no import of an object edited outside, puts a bound field into the module that was not
      sealed there: type, algorithm, flags, names, key ids, domain and operation limit stay as they were sealed. */
  lemma PolicyIsAsSealed(aead: Aead.Provider, master: Bytes, entries: Entries, issued: seq<Sealed>, a: Action)
    requires PoliciesIssued(entries, issued) && Unforged(aead, master, issued, a)
    requires a.Store? ==> ShortPolicy(a.policy)
    requires a.Import? ==> ShortPolicy(a.sealed.policy)
    ensures PoliciesIssued(After(aead, master, entries, a), IssuedAfter(aead, master, issued, a))
  {
    hide OpenSecret, SealSecret, MakeHandle, AssociatedData, OldLink, NewLink;
    var after, log := After(aead, master, entries, a), IssuedAfter(aead, master, issued, a);
    assert forall x | x in issued :: x in log;
    if a.Store? {
      var p := a.policy.(handle := MakeHandle(a.policy));
      if SealSecret(aead, master, p, a.secret, a.nonce).Ok? {
        SealedFresh(aead, master, p, a.secret, a.nonce);
        assert log[|issued|] == after[p.handle] && log[|issued|] in log;
      }
    } else if a.Import? && OpenSecret(aead, master, a.sealed).Ok? {
      var x :| x in issued && x.nonce == a.sealed.nonce && x.ciphertext == a.sealed.ciphertext && x.tag == a.sealed.tag &&
               AssociatedData(x.policy) == AssociatedData(a.sealed.policy);
      AssociatedDataInjective(x.policy, a.sealed.policy);
      assert SameSeal(x, a.sealed);
    }
    forall h | h in after
      ensures exists x :: x in log && SameSeal(x, after[h])
    {
      if h in entries {
        var x :| x in issued && SameSeal(x, entries[h]);
        assert SameSeal(x, after[h]) || after[h] == log[|log| - 1] || (a.Import? && after[h] == a.sealed);
      }
    }
  }

  function IssuedRun(aead: Aead.Provider, master: Bytes, elsewhere: seq<Sealed>, actions: seq<Action>): seq<Sealed> {
    if actions == [] then elsewhere else
    IssuedAfter(aead, master, IssuedRun(aead, master, elsewhere, actions[..|actions| - 1]), actions[|actions| - 1])
  }

  ghost predicate HonestRun(aead: Aead.Provider, master: Bytes, elsewhere: seq<Sealed>, actions: seq<Action>) {
    actions != [] ==>
      var earlier, a := actions[..|actions| - 1], actions[|actions| - 1];
      && HonestRun(aead, master, elsewhere, earlier)
      && Unforged(aead, master, IssuedRun(aead, master, elsewhere, earlier), a)
      && (a.Store? ==> ShortPolicy(a.policy)) && (a.Import? ==> ShortPolicy(a.sealed.policy))
  }

  /** So in every reachable state each entry carries the bound fields, nonce and box of something sealed under the master
      key, here or by the other modules that hold it. */
  lemma {:induction false} PoliciesStay(aead: Aead.Provider, master: Bytes, elsewhere: seq<Sealed>, actions: seq<Action>)
    requires HonestRun(aead, master, elsewhere, actions)
    requires forall x | x in elsewhere :: ShortPolicy(x.policy)
    ensures PoliciesIssued(Run(aead, master, actions), IssuedRun(aead, master, elsewhere, actions))
  {
    if actions != [] {
      hide After, IssuedAfter, PoliciesIssued, Unforged;
      var earlier, a := actions[..|actions| - 1], actions[|actions| - 1];
      PoliciesStay(aead, master, elsewhere, earlier);
      PolicyIsAsSealed(aead, master, Run(aead, master, earlier), IssuedRun(aead, master, elsewhere, earlier), a);
    }
  }

  /** Moving a key: what one module exports, written and read back, another module with the same master key imports with
      the same secret, the same bound fields and the same status. */
  lemma ExportImportKeeps(aead: Aead.Provider, master: Bytes, from: Entries, secrets: map<Handle, Bytes>, into: Entries, h: Handle)
    requires Intact(aead, master, from, secrets)
    requires Export(from, h).Ok? && Complete(from[h]) && Writable(from[h])
    ensures var bytes := EncodeSealed(Export(from, h).value).value;
            && DecodeSealed(bytes).Ok?
            && var (r, after) := ImportStep(aead, master, into, DecodeSealed(bytes).value);
               && r == Ok(h) && after == into[h := from[h]]
               && OpenSecret(aead, master, after[h]) == Ok(secrets[h])
  {
    hide OpenSecret, EncodeSealed, DecodeSealed, Validate;
    DecodeOfEncode(from[h]);
  }

  // ---- The object ----

  class SoftwareSecurityModule {
    const aead: Aead.Provider
    const master: Bytes
    var entries: Entries
    ghost var secrets: map<Handle, Bytes>

    ghost predicate Valid()
      reads this
    {
      aead.Sound() && Intact(aead, master, entries, secrets)
    }

    constructor (aead: Aead.Provider, master: Bytes)
      requires aead.Sound()
      ensures Valid() && entries == map[] && this.aead == aead && this.master == master
    {
      this.aead, this.master := aead, master;
      entries, secrets := map[], map[];
    }

    method StoreSecret(policy: Policy, secret: Bytes, nonce: Bytes) returns (r: Result<Handle>)
      requires Valid()
      modifies this
      ensures Valid() && (r, entries) == StoreStep(aead, master, old(entries), policy, secret, nonce)
      ensures r.Ok? ==> secrets == old(secrets)[r.value := secret]
      ensures r.Err? ==> secrets == old(secrets)
    {
      hide Intact, SealSecret, MakeHandle;
      StoreKeeps(aead, master, entries, secrets, policy, secret, nonce);
      var p := policy.(handle := MakeHandle(policy));
      var sealed := SealSecret(aead, master, p, secret, nonce);
      if sealed.Err? {
        return Err(sealed.error);
      }
      entries := entries[p.handle := sealed.value];
      secrets := secrets[p.handle := secret];
      r := Ok(p.handle);
    }

    method ChangeState(h: Handle, state: u16) returns (r: Result<Unit>)
      requires Valid()
      modifies this`entries
      ensures Valid() && (r, entries) == SetStateStep(old(entries), h, state)
    {
      hide Intact;
      SetStateKeeps(aead, master, entries, secrets, h, state);
      if h !in entries || entries[h].status.state == DESTROYED {
        return Err(InvalidKey);
      }
      var o := entries[h];
      entries := entries[h := o.(status := o.status.(state := state))];
      r := Ok(Unit);
    }

    method RecordOperation(h: Handle, now: u64)
      requires Valid()
      modifies this`entries
      ensures Valid() && entries == RecordStep(old(entries), h, now)
    {
      hide Intact;
      RecordKeeps(aead, master, entries, secrets, h, now);
      if h in entries {
        var o := entries[h];
        var used := (o.status.usedOperations + 1) % TWO_TO_THE_64;
        entries := entries[h := o.(status := o.status.(usedOperations := used, lastUsedAt := now))];
      }
    }

    method LinkRotation(h: Handle, replacement: Handle, now: u64, reason: Bytes, retire: bool) returns (r: Result<Unit>)
      requires Valid()
      modifies this`entries
      ensures Valid() && (r, entries) == LinkStep(old(entries), h, replacement, now, reason, retire)
    {
      hide Intact, OldLink, NewLink;
      LinkKeeps(aead, master, entries, secrets, h, replacement, now, reason, retire);
      if h !in entries || replacement !in entries {
        return Err(InternalError);
      }
      entries := WithStatus(entries, h, OldLink(entries[h].status, replacement, now, reason, retire));
      var generation := entries[h].status.rotation.generation;
      entries := WithStatus(entries, replacement, NewLink(entries[replacement].status, h, generation, now, reason));
      r := Ok(Unit);
    }

    method ImportSealed(o: Sealed) returns (r: Result<Handle>)
      requires Valid()
      modifies this
      ensures Valid() && (r, entries) == ImportStep(aead, master, old(entries), o)
    {
      hide Intact, OpenSecret;
      ImportKeeps(aead, master, entries, secrets, o);
      if o.policy.handle == [] {
        return Err(InvalidFormat);
      }
      var secret := OpenSecret(aead, master, o);
      if secret.Err? {
        return Err(secret.error);
      }
      entries := entries[o.policy.handle := o];
      secrets := secrets[o.policy.handle := secret.value];
      r := Ok(o.policy.handle);
    }

    method ExportSealed(h: Handle) returns (r: Result<Sealed>)
      requires Valid()
      ensures r == Export(entries, h)
      ensures r.Ok? ==> h in secrets && OpenSecret(aead, master, r.value) == Ok(secrets[h])
    {
      hide OpenSecret, Validate;
      if h !in entries {
        return Err(InvalidKey);
      }
      var allowed := Validate(entries[h], SealedExport, []);
      r := if allowed.Ok? then Ok(entries[h]) else Err(allowed.error);
    }

    method EraseKey(h: Handle) returns (r: Result<Unit>)
      requires Valid()
      modifies this
      ensures Valid() && (r, entries) == EraseStep(old(entries), h)
    {
      hide Intact;
      if h !in entries {
        return Err(InvalidKey);
      }
      EraseKeeps(aead, master, entries, secrets, h);
      entries := entries - {h};
      secrets := secrets - {h};
      r := Ok(Unit);
    }
  }
}
