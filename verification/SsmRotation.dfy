/** Key rotation and the lineage it leaves behind (src/security/ssm.cpp). Calls run one at a time: `rotate_key` takes the
    lock twice, and here nothing comes between. */
module SsmRotation {
  import opened Core
  import opened SsmObject
  import opened SsmModule
  import Hash
  import Aead

  const SYMMETRIC_ALGORITHM: u16 := 0x9001

  datatype CreateOptions = CreateOptions(name: Bytes, flags: u32, allowedDomain: Bytes, maxOperations: u64)

  datatype RotateOptions = RotateOptions(name: Bytes, reason: Bytes, retireOld: bool, preservePolicy: bool)

  /** What the clock, the key generator and the random generator answer during one call. */
  datatype Draw = Draw(createdAt: u64, publicKey: Bytes, secret: Result<Bytes>, nonce: Bytes, rotatedAt: u64)

  function Allowing(flags: u32, bit: nat): (f: u32)
    requires bit == ALLOW_SIGN || bit == ALLOW_DECAPSULATE
    ensures f == WithFlag(flags, bit)
  {
    assert Pow2(2) == 4 && Pow2(3) == 8;
    WithFlag(flags, bit)
  }

  /** What a new key is stored as: `generate_sign_key`, `generate_kem_key` and `generate_symmetric_key`. */
  function Generate(objectType: u16, algorithm: u16, bytes: nat, options: CreateOptions, draw: Draw): Result<(Policy, Bytes)> {
    if objectType == SYMMETRIC then
      if bytes == 0 || bytes > 128 then Err(InvalidArgument) else
      var raw :- draw.secret;
      if |raw| != bytes then Err(EntropyFailure) else
      Ok((Policy([], SYMMETRIC, SYMMETRIC_ALGORITHM, options.flags, draw.createdAt, options.name, Hash.Sha256(raw), [],
                 options.allowedDomain, options.maxOperations), raw))
    else if objectType == SIGN || objectType == KEM then
      var secret :- draw.secret;
      var flags := Allowing(options.flags, if objectType == SIGN then ALLOW_SIGN else ALLOW_DECAPSULATE);
      Ok((Policy([], objectType, algorithm, flags, draw.createdAt, options.name, Hash.Sha256(draw.publicKey), draw.publicKey,
                 options.allowedDomain, options.maxOperations), secret))
    else Err(InvalidArgument)
  }

  function RotatedOptions(p: Policy, options: RotateOptions): CreateOptions {
    CreateOptions(if options.name == [] then p.name + Ascii(" rotated") else options.name, p.flags,
                  if options.preservePolicy then p.allowedDomain else [], if options.preservePolicy then p.maxOperations else 0)
  }

  /** The key that replaces `o`. */
  function Replacement(aead: Aead.Provider, master: Bytes, o: Sealed, options: RotateOptions, draw: Draw): Result<(Policy, Bytes)> {
    var create := RotatedOptions(o.policy, options);
    if o.policy.objectType == SYMMETRIC then
      var secret :- OpenSecret(aead, master, o);
      Generate(SYMMETRIC, o.policy.algorithm, |secret|, create, draw)
    else Generate(o.policy.objectType, o.policy.algorithm, 0, create, draw)
  }

  function RotateStep(aead: Aead.Provider, master: Bytes, entries: Entries, h: Handle, options: RotateOptions, draw: Draw): (Result<Handle>, Entries) {
    if h !in entries || entries[h].status.state == DESTROYED || entries[h].status.state == COMPROMISED then (Err(InvalidKey), entries) else
    match Replacement(aead, master, entries[h], options, draw)
    case Err(e) => (Err(e), entries)
    case Ok((policy, secret)) =>
      var (stored, with) := StoreStep(aead, master, entries, policy, secret, draw.nonce);
      if stored.Err? then (stored, with) else
      var (linked, after) := LinkStep(with, h, stored.value, draw.rotatedAt, options.reason, options.retireOld);
      (if linked.Err? then Err(linked.error) else stored, after)
  }

  /** The replacement keeps type, algorithm and flags, and the domain and operation limit exactly when asked to. */
  lemma ReplacementKeepsPolicy(aead: Aead.Provider, master: Bytes, o: Sealed, options: RotateOptions, draw: Draw)
    requires Replacement(aead, master, o, options, draw).Ok?
    ensures var p := Replacement(aead, master, o, options, draw).value.0;
            && p.objectType == o.policy.objectType
            && p.algorithm == (if p.objectType == SYMMETRIC then SYMMETRIC_ALGORITHM else o.policy.algorithm)
            && HasFlag(p.flags, EXPORTABLE_PUBLIC) == HasFlag(o.policy.flags, EXPORTABLE_PUBLIC)
            && HasFlag(p.flags, EXPORTABLE_SEALED) == HasFlag(o.policy.flags, EXPORTABLE_SEALED)
            && (p.objectType == SIGN ==> HasFlag(p.flags, ALLOW_SIGN))
            && (p.objectType == KEM ==> HasFlag(p.flags, ALLOW_DECAPSULATE))
            && (options.preservePolicy ==> p.allowedDomain == o.policy.allowedDomain && p.maxOperations == o.policy.maxOperations)
            && (!options.preservePolicy ==> p.allowedDomain == [] && p.maxOperations == 0)
  {
    hide OpenSecret, HasFlag, Allowing;
    AllowingKeeps(o.policy.flags, ALLOW_SIGN);
    AllowingKeeps(o.policy.flags, ALLOW_DECAPSULATE);
  }

  lemma AllowingKeeps(flags: u32, bit: nat)
    requires bit == ALLOW_SIGN || bit == ALLOW_DECAPSULATE
    ensures HasFlag(Allowing(flags, bit), bit)
    ensures HasFlag(Allowing(flags, bit), EXPORTABLE_PUBLIC) == HasFlag(flags, EXPORTABLE_PUBLIC)
    ensures HasFlag(Allowing(flags, bit), EXPORTABLE_SEALED) == HasFlag(flags, EXPORTABLE_SEALED)
  {
    hide HasFlag, Pow2, WithFlag, Allowing;
    var allowing := Allowing(flags, bit);
    if !HasFlag(flags, bit) {
      assert allowing == flags + Pow2(bit);
      if bit == ALLOW_SIGN {
        PlusFour(flags);
      } else {
        PlusEight(flags);
      }
    }
  }

  lemma FlagBits(f: u32)
    ensures Pow2(2) == 4 && Pow2(3) == 8
    ensures HasFlag(f, 0) == (f % 2 == 1) && HasFlag(f, 1) == (f / 2 % 2 == 1)
    ensures HasFlag(f, 2) == (f / 4 % 2 == 1) && HasFlag(f, 3) == (f / 8 % 2 == 1)
  {
    assert Pow2(0) == 1 && Pow2(1) == 2;
  }

  lemma PlusFour(f: u32)
    requires !HasFlag(f, ALLOW_SIGN) && f + Pow2(ALLOW_SIGN) < TWO_TO_THE_32
    ensures var g: u32 := f + Pow2(ALLOW_SIGN);
            HasFlag(g, ALLOW_SIGN) && HasFlag(g, 0) == HasFlag(f, 0) && HasFlag(g, 1) == HasFlag(f, 1)
  {
    hide HasFlag, Pow2;
    FlagBits(f);
    FlagBits(f + 4);
    FourApart(f);
  }

  lemma PlusEight(f: u32)
    requires !HasFlag(f, ALLOW_DECAPSULATE) && f + Pow2(ALLOW_DECAPSULATE) < TWO_TO_THE_32
    ensures var g: u32 := f + Pow2(ALLOW_DECAPSULATE);
            HasFlag(g, ALLOW_DECAPSULATE) && HasFlag(g, 0) == HasFlag(f, 0) && HasFlag(g, 1) == HasFlag(f, 1)
  {
    hide HasFlag, Pow2;
    FlagBits(f);
    FlagBits(f + 8);
    FourApart(f);
    FourApart(f + 4);
    assert (f + 8) / 8 == f / 8 + 1;
  }

  lemma FourApart(n: nat)
    ensures (n + 4) % 2 == n % 2 && (n + 4) / 2 % 2 == n / 2 % 2 && (n + 4) / 4 % 2 != n / 4 % 2
  {
    assert (n + 4) / 2 == n / 2 + 2 && (n + 4) / 4 == n / 4 + 1;
  }

  /** A symmetric key whose rotation succeeds gets its own handle again, so that the old secret is overwritten and the key
      replaces itself, if and only if it is rotated under its own name within the second it was made, or the shortened
      hash collides on the two inputs. */
  lemma RotatedOntoItself(aead: Aead.Provider, master: Bytes, entries: Entries, h: Handle, options: RotateOptions, draw: Draw)
    requires h in entries && entries[h].policy.objectType == SYMMETRIC && entries[h].policy.algorithm == SYMMETRIC_ALGORITHM
    requires entries[h].policy.publicKey == [] && h == MakeHandle(entries[h].policy) && ShortPolicy(entries[h].policy)
    requires |RotatedOptions(entries[h].policy, options).name| < TWO_TO_THE_32
    requires RotateStep(aead, master, entries, h, options, draw).0.Ok?
    ensures var (r, after) := RotateStep(aead, master, entries, h, options, draw);
            var p, q := Replacement(aead, master, entries[h], options, draw).value.0, entries[h].policy;
            && (r == Ok(h) <==>
                  || (RotatedOptions(q, options).name == q.name && draw.createdAt == q.createdAt)
                  || TruncatedCollision(HandleMaterial(p), HandleMaterial(q)))
            && (r == Ok(h) ==>
                  && after.Keys == entries.Keys
                  && after[h].status.rotation.replacement == after[h].status.rotation.original == h)
  {
    hide OpenSecret, MakeHandle, SealSecret, TruncatedCollision, HandleMaterial;
    var (policy, secret) := Replacement(aead, master, entries[h], options, draw).value;
    ReplacementIsShort(aead, master, entries[h], options, draw);
    SymmetricHandlesClash(policy, entries[h].policy);
  }

  lemma ReplacementIsShort(aead: Aead.Provider, master: Bytes, o: Sealed, options: RotateOptions, draw: Draw)
    requires o.policy.objectType == SYMMETRIC && ShortPolicy(o.policy) && |RotatedOptions(o.policy, options).name| < TWO_TO_THE_32
    requires Replacement(aead, master, o, options, draw).Ok?
    ensures var p := Replacement(aead, master, o, options, draw).value.0;
            && ShortPolicy(p) && p.objectType == SYMMETRIC && p.algorithm == SYMMETRIC_ALGORITHM && p.publicKey == []
            && p.name == RotatedOptions(o.policy, options).name && p.createdAt == draw.createdAt
  {
    hide OpenSecret, Hash.Sha256;
  }

  /** `rotate_key`, when no other call comes between its two locked phases. */
  method RotateKey(m: SoftwareSecurityModule, h: Handle, options: RotateOptions, draw: Draw) returns (r: Result<Handle>)
    requires m.Valid()
    modifies m
    ensures m.Valid() && (r, m.entries) == RotateStep(m.aead, m.master, old(m.entries), h, options, draw)
  {
    hide StoreStep, LinkStep, Replacement, Intact;
    if h !in m.entries {
      return Err(InvalidKey);
    }
    var o := m.entries[h];
    if o.status.state == DESTROYED || o.status.state == COMPROMISED {
      return Err(InvalidKey);
    }
    var replacement := Replacement(m.aead, m.master, o, options, draw);
    if replacement.Err? {
      return Err(replacement.error);
    }
    var (policy, secret) := replacement.value;
    r := m.StoreSecret(policy, secret, draw.nonce);
    if r.Ok? {
      var linked := m.LinkRotation(h, r.value, draw.rotatedAt, options.reason, options.retireOld);
      if linked.Err? {
        r := Err(linked.error);
      }
    }
  }

  // ---- Lineage ----

  datatype Call =
    | Do(action: Action)
    | Rotate(handle: Handle, options: RotateOptions, draw: Draw)

  /** The entries, when each handle ever used was made, and how many calls there were. */
  datatype History = History(entries: Entries, born: map<Handle, nat>, calls: nat)

  function Rot(entries: Entries, h: Handle): Rotation
    requires h in entries
  {
    entries[h].status.rotation
  }

  /** The handle a call stores a key under, if it gets that far. */
  function MadeBy(aead: Aead.Provider, master: Bytes, entries: Entries, c: Call): Option<Handle> {
    match c
    case Do(a) => if a.Store? then Some(MakeHandle(a.policy)) else None
    case Rotate(h, options, draw) =>
      if h !in entries then None else
      match Replacement(aead, master, entries[h], options, draw)
      case Err(_) => None
      case Ok((policy, _)) => Some(MakeHandle(policy))
  }

  /** No imports, no bare links, and a new key gets a handle never used before. */
  predicate Fresh(aead: Aead.Provider, master: Bytes, s: History, c: Call) {
    && (c.Do? ==> !c.action.Import? && !c.action.Link?)
    && var made := MadeBy(aead, master, s.entries, c); made.Some? ==> made.value !in s.born
  }

  function EntriesAfter(aead: Aead.Provider, master: Bytes, entries: Entries, c: Call): Entries {
    match c
    case Do(a) => After(aead, master, entries, a)
    case Rotate(h, options, draw) => RotateStep(aead, master, entries, h, options, draw).1
  }

  function Perform(aead: Aead.Provider, master: Bytes, s: History, c: Call): History {
    var after := EntriesAfter(aead, master, s.entries, c);
    History(after, Births(s.born, after, MadeBy(aead, master, s.entries, c)), s.calls + 1)
  }

  /** A new handle is numbered above all old ones. */
  function Births(born: map<Handle, nat>, entries: Entries, made: Option<Handle>): map<Handle, nat> {
    if made.Some? && made.value in entries then born[made.value := |born|] else born
  }

  /** The old key knows its replacement and the replacement its original, and generations rise along the line. */
  ghost predicate Linked(s: History, h: Handle, r: Handle)
    requires h in s.entries && r in s.entries && h in s.born && r in s.born
  {
    && Rot(s.entries, r).original == h
    && Rot(s.entries, r).generation >= Rot(s.entries, h).generation
    && (Rot(s.entries, r).generation == Rot(s.entries, h).generation <==> Rot(s.entries, r).replacement == [])
    && s.born[h] < s.born[r]
  }

  ghost predicate Known(s: History, h: Handle) {
    h == [] || h in s.born
  }

  ghost predicate Lineage(s: History) {
    && [] !in s.born
    && (forall h | h in s.born :: s.born[h] < |s.born|)
    && (forall h | h in s.entries :: h in s.born && Rot(s.entries, h).generation <= s.calls)
    && (forall h | h in s.entries :: Known(s, Rot(s.entries, h).replacement) && Known(s, Rot(s.entries, h).original))
    && (forall h | h in s.entries && Rot(s.entries, h).replacement in s.entries :: Linked(s, h, Rot(s.entries, h).replacement))
    && (forall r | r in s.entries && Rot(s.entries, r).original in s.born :: s.born[Rot(s.entries, r).original] < s.born[r])
  }

  /** Dropping entries, or changing anything but their rotation, breaks no line. */
  lemma FewerKeeps(s: History, after: Entries)
    requires Lineage(s) && after.Keys <= s.entries.Keys
    requires forall h | h in after :: Rot(after, h) == Rot(s.entries, h)
    ensures Lineage(History(after, s.born, s.calls + 1))
  {
    var t := History(after, s.born, s.calls + 1);
    forall h | h in after && Rot(after, h).replacement in after
      ensures Linked(t, h, Rot(after, h).replacement)
    {
      assert Linked(s, h, Rot(s.entries, h).replacement);
    }
  }

  lemma LaterKeeps(s: History)
    requires Lineage(s)
    ensures Lineage(s.(calls := s.calls + 1))
  {
    FewerKeeps(s, s.entries);
  }

  lemma OneMore(born: map<Handle, nat>, r: Handle)
    requires r !in born
    ensures |born[r := |born|]| == |born| + 1
  {
    var more := born[r := |born|];
    assert more.Keys == born.Keys + {r};
    assert |more.Keys| == |born.Keys| + 1;
    assert |more| == |more.Keys| && |born| == |born.Keys|;
  }

  /** A new key with no links. */
  lemma AddKeeps(s: History, r: Handle, o: Sealed)
    requires Lineage(s) && r !in s.born && r != [] && o.status == FRESH
    ensures Lineage(History(s.entries[r := o], s.born[r := |s.born|], s.calls))
  {
    OneMore(s.born, r);
    var t := History(s.entries[r := o], s.born[r := |s.born|], s.calls);
    forall h | h in t.entries
      ensures h in t.born && Rot(t.entries, h).generation <= t.calls
      ensures Known(t, Rot(t.entries, h).replacement) && Known(t, Rot(t.entries, h).original)
      ensures Rot(t.entries, h).replacement in t.entries ==> Linked(t, h, Rot(t.entries, h).replacement)
      ensures Rot(t.entries, h).original in t.born ==> t.born[Rot(t.entries, h).original] < t.born[h]
    {
      if h != r && Rot(s.entries, h).replacement in s.entries {
        assert Linked(s, h, Rot(s.entries, h).replacement);
      }
    }
  }

  /** Linking a key to the one just made. */
  lemma LinkExtends(s: History, h: Handle, r: Handle, now: u64, reason: Bytes, retire: bool)
    requires Lineage(s) && h in s.entries && r in s.entries && s.born[h] < s.born[r] && s.calls + 1 < TWO_TO_THE_64
    requires Rot(s.entries, r).replacement == [] && forall x | x in s.entries :: Rot(s.entries, x).replacement != r
    ensures Lineage(History(LinkStep(s.entries, h, r, now, reason, retire).1, s.born, s.calls + 1))
    ensures LinkStep(s.entries, h, r, now, reason, retire).0.Ok?
  {
    var after := LinkStep(s.entries, h, r, now, reason, retire).1;
    LinkedRotations(s.entries, h, r, now, reason, retire);
    hide LinkStep;
    var t := History(after, s.born, s.calls + 1);
    assert Rot(s.entries, h).generation <= s.calls;
    forall x | x in after
      ensures Rot(after, x).generation <= t.calls
      ensures Known(t, Rot(after, x).replacement) && Known(t, Rot(after, x).original)
      ensures Rot(after, x).replacement in after ==> Linked(t, x, Rot(after, x).replacement)
      ensures Rot(after, x).original in t.born ==> t.born[Rot(after, x).original] < t.born[x]
    {
      assert Rot(s.entries, x).generation <= s.calls;
      assert Known(s, Rot(s.entries, x).replacement) && Known(s, Rot(s.entries, x).original);
      if x != h && x != r && Rot(s.entries, x).replacement in s.entries {
        assert Linked(s, x, Rot(s.entries, x).replacement);
      }
    }
  }

  lemma LinkedRotations(entries: Entries, h: Handle, r: Handle, now: u64, reason: Bytes, retire: bool)
    requires h in entries && r in entries && h != r && Rot(entries, h).generation + 1 < TWO_TO_THE_64
    ensures var (ok, after) := LinkStep(entries, h, r, now, reason, retire);
            && ok == Ok(Unit) && after.Keys == entries.Keys
            && (forall x | x in entries && x != h && x != r :: Rot(after, x) == Rot(entries, x))
            && Rot(after, h).original == Rot(entries, h).original && Rot(after, h).replacement == r
            && Rot(after, r).original == h && Rot(after, r).replacement == Rot(entries, r).replacement
            && Rot(after, h).generation == Rot(after, r).generation == Rot(entries, h).generation + 1
  {}

  lemma RotateKeeps(aead: Aead.Provider, master: Bytes, s: History, c: Call)
    requires Lineage(s) && c.Rotate? && Fresh(aead, master, s, c) && s.calls + 1 < TWO_TO_THE_64
    ensures Lineage(Perform(aead, master, s, c))
  {
    hide Lineage, LinkStep, Replacement, MakeHandle, SealSecret;
    Basics(s);
    var h, draw := c.handle, c.draw;
    FewerKeeps(s, s.entries);
    if h in s.entries && Replacement(aead, master, s.entries[h], c.options, draw).Ok? {
      var (policy, secret) := Replacement(aead, master, s.entries[h], c.options, draw).value;
      var p := policy.(handle := MakeHandle(policy));
      var r := p.handle;
      assert MadeBy(aead, master, s.entries, c) == Some(r);
      if SealSecret(aead, master, p, secret, draw.nonce).Ok? {
        SealedFresh(aead, master, p, secret, draw.nonce);
        var o := SealSecret(aead, master, p, secret, draw.nonce).value;
        assert r != [];
        AddAndLink(s, h, r, o, draw.rotatedAt, c.options.reason, c.options.retireOld);
      }
    }
  }

  lemma Basics(s: History)
    requires Lineage(s)
    ensures s.entries.Keys <= s.born.Keys
  {}

  lemma AddAndLink(s: History, h: Handle, r: Handle, o: Sealed, now: u64, reason: Bytes, retire: bool)
    requires Lineage(s) && h in s.entries && r !in s.born && r != [] && o.status == FRESH && s.calls + 1 < TWO_TO_THE_64
    ensures var (ok, after) := LinkStep(s.entries[r := o], h, r, now, reason, retire);
            ok.Ok? && r in after && Lineage(History(after, s.born[r := |s.born|], s.calls + 1))
  {
    hide LinkStep;
    AddKeeps(s, r, o);
    var t := History(s.entries[r := o], s.born[r := |s.born|], s.calls);
    LinkExtends(t, h, r, now, reason, retire);
    var after := LinkStep(t.entries, h, r, now, reason, retire).1;
    LinkedKeys(t.entries, h, r, now, reason, retire);
  }

  lemma LinkedKeys(entries: Entries, h: Handle, r: Handle, now: u64, reason: Bytes, retire: bool)
    ensures LinkStep(entries, h, r, now, reason, retire).1.Keys == entries.Keys
  {}

  lemma DoKeeps(aead: Aead.Provider, master: Bytes, s: History, c: Call)
    requires Lineage(s) && c.Do? && Fresh(aead, master, s, c)
    ensures Lineage(Perform(aead, master, s, c))
  {
    hide Lineage, MakeHandle, SealSecret;
    Basics(s);
    match c.action
    case Store(policy, secret, nonce) =>
      var p := policy.(handle := MakeHandle(policy));
      FewerKeeps(s, s.entries);
      if SealSecret(aead, master, p, secret, nonce).Ok? {
        SealedFresh(aead, master, p, secret, nonce);
        assert MadeBy(aead, master, s.entries, c) == Some(p.handle) && p.handle != [];
        LaterKeeps(s);
        var o := SealSecret(aead, master, p, secret, nonce).value;
        AddKeeps(s.(calls := s.calls + 1), p.handle, o);
      }
    case SetState(h, state) => FewerKeeps(s, SetStateStep(s.entries, h, state).1);
    case Record(h, now) => FewerKeeps(s, RecordStep(s.entries, h, now));
    case Erase(h) => FewerKeeps(s, EraseStep(s.entries, h).1);
    case Clear => FewerKeeps(s, map[]);
  }

  lemma CallKeeps(aead: Aead.Provider, master: Bytes, s: History, c: Call)
    requires Lineage(s) && Fresh(aead, master, s, c) && s.calls + 1 < TWO_TO_THE_64
    ensures Lineage(Perform(aead, master, s, c)) && Perform(aead, master, s, c).calls == s.calls + 1
  {
    hide Lineage, Fresh, After, RotateStep;
    if c.Do? {
      DoKeeps(aead, master, s, c);
    } else {
      RotateKeeps(aead, master, s, c);
    }
  }

  function Run(aead: Aead.Provider, master: Bytes, calls: seq<Call>): History {
    if calls == [] then History(map[], map[], 0)
    else Perform(aead, master, Run(aead, master, calls[..|calls| - 1]), calls[|calls| - 1])
  }

  ghost predicate FreshRun(aead: Aead.Provider, master: Bytes, calls: seq<Call>) {
    calls != [] ==>
      var earlier := calls[..|calls| - 1];
      FreshRun(aead, master, earlier) && Fresh(aead, master, Run(aead, master, earlier), calls[|calls| - 1])
  }

  lemma {:induction false} LineageHolds(aead: Aead.Provider, master: Bytes, calls: seq<Call>)
    requires FreshRun(aead, master, calls) && |calls| < TWO_TO_THE_64
    ensures Lineage(Run(aead, master, calls)) && Run(aead, master, calls).calls == |calls|
  {
    if calls != [] {
      hide Lineage, Fresh, Perform;
      var earlier := calls[..|calls| - 1];
      LineageHolds(aead, master, earlier);
      CallKeeps(aead, master, Run(aead, master, earlier), calls[|calls| - 1]);
    }
  }

  // ---- Following the line ----

  /** Live handles, each the replacement of the one before. */
  ghost predicate Successors(entries: Entries, path: seq<Handle>) {
    && (forall i | 0 <= i < |path| :: path[i] in entries)
    && forall i | 0 <= i < |path| - 1 :: Rot(entries, path[i]).replacement == path[i + 1]
  }

  /** Live handles, each the original of the one before. */
  ghost predicate Ancestors(entries: Entries, path: seq<Handle>) {
    && (forall i | 0 <= i < |path| :: path[i] in entries)
    && forall i | 0 <= i < |path| - 1 :: Rot(entries, path[i]).original == path[i + 1]
  }

  lemma {:induction false} BornLater(s: History, path: seq<Handle>, i: nat, j: nat)
    requires Lineage(s) && Successors(s.entries, path) && i < j < |path|
    ensures s.born[path[i]] < s.born[path[j]]
    ensures Rot(s.entries, path[i]).generation <= Rot(s.entries, path[j]).generation
  {
    assert Linked(s, path[j - 1], path[j]);
    if i < j - 1 {
      BornLater(s, path, i, j - 1);
    }
  }

  lemma {:induction false} BornEarlier(s: History, path: seq<Handle>, i: nat, j: nat)
    requires Lineage(s) && Ancestors(s.entries, path) && i < j < |path|
    ensures s.born[path[i]] > s.born[path[j]]
  {
    assert Rot(s.entries, path[j - 1]).original == path[j];
    if i < j - 1 {
      BornEarlier(s, path, i, j - 1);
    }
  }

  lemma {:induction false} DistinctFits(path: seq<Handle>, keys: set<Handle>)
    requires forall i | 0 <= i < |path| :: path[i] in keys
    requires forall i, j | 0 <= i < j < |path| :: path[i] != path[j]
    ensures |path| <= |keys|
  {
    if path != [] {
      DistinctFits(path[1..], keys - {path[0]});
    }
  }

  /** In every run of one-at-a-time calls with fresh handles and no imports, following replacements, or following
      originals, never comes back to a key and ends within as many steps as there are keys, however often keys were
      rotated. */
  lemma LinesEnd(aead: Aead.Provider, master: Bytes, calls: seq<Call>, path: seq<Handle>)
    requires FreshRun(aead, master, calls) && |calls| < TWO_TO_THE_64
    requires var entries := Run(aead, master, calls).entries; Successors(entries, path) || Ancestors(entries, path)
    ensures forall i, j | 0 <= i < j < |path| :: path[i] != path[j]
    ensures |path| <= |Run(aead, master, calls).entries|
  {
    LineageHolds(aead, master, calls);
    var s := Run(aead, master, calls);
    hide Run, FreshRun, Lineage;
    forall i, j | 0 <= i < j < |path|
      ensures path[i] != path[j]
    {
      if Successors(s.entries, path) {
        BornLater(s, path, i, j);
      } else {
        BornEarlier(s, path, i, j);
      }
    }
    DistinctFits(path, s.entries.Keys);
  }

  /** And in every such run a key and its live replacement point at each other, with one generation exactly as long as the
      replacement was not itself rotated, and a higher one for the replacement from then on. */
  lemma LinksAgree(aead: Aead.Provider, master: Bytes, calls: seq<Call>, h: Handle)
    requires FreshRun(aead, master, calls) && |calls| < TWO_TO_THE_64
    requires var entries := Run(aead, master, calls).entries; h in entries && Rot(entries, h).replacement in entries
    ensures var entries := Run(aead, master, calls).entries;
            var before, next := Rot(entries, h), Rot(entries, Rot(entries, h).replacement);
            && next.original == h && before.replacement != h
            && next.generation >= before.generation && (next.generation == before.generation <==> next.replacement == [])
  {
    LineageHolds(aead, master, calls);
    var s := Run(aead, master, calls);
    hide Run, FreshRun;
    assert Linked(s, h, Rot(s.entries, h).replacement);
  }

  /** What a rotation that succeeds leaves behind. */
  lemma RotationLinks(aead: Aead.Provider, master: Bytes, s: History, c: Call, r: Handle)
    requires Lineage(s) && c.Rotate? && Fresh(aead, master, s, c) && s.calls + 1 < TWO_TO_THE_64
    requires RotateStep(aead, master, s.entries, c.handle, c.options, c.draw).0 == Ok(r)
    ensures var h, after := c.handle, Perform(aead, master, s, c).entries;
            && h in s.entries && r !in s.entries && after.Keys == s.entries.Keys + {r}
            && Rot(after, h).replacement == r && Rot(after, r).original == h && Rot(after, r).replacement == []
            && Rot(after, h).generation == Rot(after, r).generation == Rot(s.entries, h).generation + 1
            && forall x | x in s.entries && x != h :: Rot(after, x) == Rot(s.entries, x)
  {
    hide LinkStep, Replacement, MakeHandle, SealSecret;
    var h, draw := c.handle, c.draw;
    assert Rot(s.entries, h).generation <= s.calls;
    var (policy, secret) := Replacement(aead, master, s.entries[h], c.options, draw).value;
    var p := policy.(handle := MakeHandle(policy));
    assert MadeBy(aead, master, s.entries, c) == Some(p.handle);
    SealedFresh(aead, master, p, secret, draw.nonce);
    var o := SealSecret(aead, master, p, secret, draw.nonce).value;
    LinkedRotations(s.entries[p.handle := o], h, p.handle, draw.rotatedAt, c.options.reason, c.options.retireOld);
  }

  /** From any reachable state, rotating a key and then its replacement: the three stand in a line, the first one
      generation below the other two. */
  lemma RotatedTwice(aead: Aead.Provider, master: Bytes, s: History, c: Call, r: Handle, d: Call, t: Handle)
    requires Lineage(s) && s.calls + 2 < TWO_TO_THE_64 && c.Rotate? && d.Rotate? && d.handle == r
    requires Fresh(aead, master, s, c) && RotateStep(aead, master, s.entries, c.handle, c.options, c.draw).0 == Ok(r)
    requires var mid := Perform(aead, master, s, c);
             Fresh(aead, master, mid, d) && RotateStep(aead, master, mid.entries, r, d.options, d.draw).0 == Ok(t)
    ensures var h, after := c.handle, Perform(aead, master, Perform(aead, master, s, c), d).entries;
            && h in after && r in after && t in after
            && Rot(after, h).replacement == r && Rot(after, r).replacement == t && Rot(after, t).replacement == []
            && Rot(after, h).generation < Rot(after, r).generation == Rot(after, t).generation
  {
    hide Fresh, RotateStep, Perform, Lineage;
    CallKeeps(aead, master, s, c);
    RotationLinks(aead, master, s, c, r);
    RotationLinks(aead, master, Perform(aead, master, s, c), d, t);
  }

  // ---- Destroyed keys ----

  /** The key is destroyed, or gone. */
  predicate Destroyed(entries: Entries, h: Handle) {
    h in entries ==> entries[h].status.state == DESTROYED
  }

  /** The ways a destroyed or erased key comes back in another state: an import of a copy that says so, since the seal
      does not bind the state; a new key that gets its handle; and, between the two locked phases of a rotation of that
      key, the second phase when it retires the old key. */
  predicate Revives(aead: Aead.Provider, master: Bytes, entries: Entries, c: Call, h: Handle) {
    match c
    case Do(Import(o)) => o.policy.handle == h && ImportStep(aead, master, entries, o).0.Ok? && o.status.state != DESTROYED
    case Do(Store(policy, secret, nonce)) => StoreStep(aead, master, entries, policy, secret, nonce).0 == Ok(h)
    case Do(Link(g, replacement, _, _, retire)) => g == h && h in entries && replacement in entries && retire
    case Do(_) => false
    case Rotate(g, options, draw) => RotateStep(aead, master, entries, g, options, draw).0 == Ok(h)
  }

  /** A locked step, and a call run with nothing in between, brings a destroyed or erased key back exactly in those ways;
      and it removes a destroyed key exactly by erasing it or clearing the module. */
  lemma DestroyedChangesExactly(aead: Aead.Provider, master: Bytes, entries: Entries, c: Call, h: Handle)
    requires Destroyed(entries, h)
    ensures var after := EntriesAfter(aead, master, entries, c);
            && (!Destroyed(after, h) <==> Revives(aead, master, entries, c, h))
            && (h in entries && h !in after <==> h in entries && (c == Do(Erase(h)) || c == Do(Clear)))
  {
    hide Replacement, OpenSecret, MakeHandle, SealSecret;
    if c.Rotate? && c.handle in entries && Replacement(aead, master, entries[c.handle], c.options, c.draw).Ok? {
      var (policy, secret) := Replacement(aead, master, entries[c.handle], c.options, c.draw).value;
      var p := policy.(handle := MakeHandle(policy));
      if SealSecret(aead, master, p, secret, c.draw.nonce).Ok? {
        SealedFresh(aead, master, p, secret, c.draw.nonce);
      }
    } else if c.Do? && c.action.Store? {
      var p := c.action.policy.(handle := MakeHandle(c.action.policy));
      if SealSecret(aead, master, p, c.action.secret, c.action.nonce).Ok? {
        SealedFresh(aead, master, p, c.action.secret, c.action.nonce);
      }
    }
  }

  function RunFrom(aead: Aead.Provider, master: Bytes, entries: Entries, calls: seq<Call>): Entries
    decreases |calls|
  {
    if calls == [] then entries else RunFrom(aead, master, EntriesAfter(aead, master, entries, calls[0]), calls[1..])
  }

  predicate NoneRevives(aead: Aead.Provider, master: Bytes, entries: Entries, calls: seq<Call>, h: Handle)
    decreases |calls|
  {
    calls != [] ==>
      && !Revives(aead, master, entries, calls[0], h)
      && NoneRevives(aead, master, EntriesAfter(aead, master, entries, calls[0]), calls[1..], h)
  }

  /** A destroyed key stays destroyed, or is gone, over any run none of whose steps is one of those. */
  lemma {:induction false} DestroyedIsFinal(aead: Aead.Provider, master: Bytes, entries: Entries, calls: seq<Call>, h: Handle)
    requires Destroyed(entries, h) && NoneRevives(aead, master, entries, calls, h)
    ensures Destroyed(RunFrom(aead, master, entries, calls), h)
    decreases |calls|
  {
    hide Destroyed, Revives, EntriesAfter;
    if calls != [] {
      DestroyedChangesExactly(aead, master, entries, calls[0], h);
      DestroyedIsFinal(aead, master, EntriesAfter(aead, master, entries, calls[0]), calls[1..], h);
    }
  }

  /** A call with no import, no bare link and a fresh handle is none of those. */
  lemma FreshNeverRevives(aead: Aead.Provider, master: Bytes, s: History, c: Call, h: Handle)
    requires Fresh(aead, master, s, c) && h in s.born && Destroyed(s.entries, h)
    ensures !Revives(aead, master, s.entries, c, h)
  {
    hide Replacement, OpenSecret, MakeHandle, SealSecret;
    if c.Rotate? && c.handle in s.entries && Replacement(aead, master, s.entries[c.handle], c.options, c.draw).Ok? {
      var (policy, secret) := Replacement(aead, master, s.entries[c.handle], c.options, c.draw).value;
      assert MadeBy(aead, master, s.entries, c) == Some(MakeHandle(policy));
    }
  }

  ghost predicate FreshFrom(aead: Aead.Provider, master: Bytes, s: History, calls: seq<Call>)
    decreases |calls|
  {
    calls != [] ==> Fresh(aead, master, s, calls[0]) && FreshFrom(aead, master, Perform(aead, master, s, calls[0]), calls[1..])
  }

  /** So in every run of one-at-a-time calls with fresh handles and no imports a destroyed key is final. */
  lemma {:induction false} FreshRunsKeepDestroyed(aead: Aead.Provider, master: Bytes, s: History, calls: seq<Call>, h: Handle)
    requires FreshFrom(aead, master, s, calls) && h in s.born && Destroyed(s.entries, h)
    ensures Destroyed(RunFrom(aead, master, s.entries, calls), h)
    decreases |calls|
  {
    hide Destroyed, Revives, EntriesAfter, Fresh;
    if calls != [] {
      FreshNeverRevives(aead, master, s, calls[0], h);
      DestroyedChangesExactly(aead, master, s.entries, calls[0], h);
      FreshRunsKeepDestroyed(aead, master, Perform(aead, master, s, calls[0]), calls[1..], h);
    }
  }

  /** Importing a copy of an entry sets its state, its counter and its rotation to whatever the copy says: the seal binds
      none of them. */
  lemma ImportSetsAnyStatus(aead: Aead.Provider, master: Bytes, entries: Entries, secrets: map<Handle, Bytes>, h: Handle, status: Status)
    requires Intact(aead, master, entries, secrets) && h in entries && h != []
    ensures var copy := entries[h].(status := status);
            ImportStep(aead, master, entries, copy) == (Ok(h), entries[h := copy])
  {
    hide OpenSecret;
    StatusDoesNotOpen(aead, master, entries[h], status);
  }

  /** The imports have to be left out of the runs above: a copy that names itself as its replacement makes a line that
      never ends. */
  lemma ImportMakesALoop(aead: Aead.Provider, master: Bytes, entries: Entries, secrets: map<Handle, Bytes>, h: Handle)
    requires Intact(aead, master, entries, secrets) && h in entries && h != []
    ensures var status := entries[h].status.(rotation := entries[h].status.rotation.(replacement := h));
            var after := EntriesAfter(aead, master, entries, Do(Import(entries[h].(status := status))));
            Successors(after, [h, h])
  {
    hide OpenSecret, Intact;
    var status := entries[h].status.(rotation := entries[h].status.rotation.(replacement := h));
    ImportSetsAnyStatus(aead, master, entries, secrets, h, status);
  }

  /** So a copy exported while the key was active undoes its destruction and rewinds its operation counter. */
  lemma ExportedCopyRevives(aead: Aead.Provider, master: Bytes, entries: Entries, secrets: map<Handle, Bytes>, h: Handle, now: u64)
    requires aead.Sound() && Intact(aead, master, entries, secrets) && h != []
    requires Export(entries, h).Ok? && entries[h].status.state == ACTIVE
    ensures var copy := Export(entries, h).value;
            var used := RunFrom(aead, master, entries, [Do(Record(h, now)), Do(SetState(h, DESTROYED))]);
            var after := EntriesAfter(aead, master, used, Do(Import(copy)));
            && h in used && used[h].status.state == DESTROYED
            && used[h].status.usedOperations == (entries[h].status.usedOperations + 1) % TWO_TO_THE_64
            && h in after && after[h] == entries[h] && after[h].status.state == ACTIVE
  {
    hide OpenSecret, Validate, Intact;
    var recorded := RecordStep(entries, h, now);
    var used := SetStateStep(recorded, h, DESTROYED).1;
    TwoCalls(aead, master, entries, Do(Record(h, now)), Do(SetState(h, DESTROYED)));
    RecordKeeps(aead, master, entries, secrets, h, now);
    SetStateKeeps(aead, master, recorded, secrets, h, DESTROYED);
    assert used[h].(status := entries[h].status) == entries[h];
    ImportSetsAnyStatus(aead, master, used, secrets, h, entries[h].status);
  }

  lemma TwoCalls(aead: Aead.Provider, master: Bytes, entries: Entries, c: Call, d: Call)
    ensures RunFrom(aead, master, entries, [c, d]) == EntriesAfter(aead, master, EntriesAfter(aead, master, entries, c), d)
  {
    hide EntriesAfter;
    assert [c, d][1..] == [d] && [d][1..] == [];
    var mid := EntriesAfter(aead, master, entries, c);
    assert RunFrom(aead, master, mid, [d]) == RunFrom(aead, master, EntriesAfter(aead, master, mid, d), []);
  }
}
