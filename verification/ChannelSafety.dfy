/** Two endpoints and a hostile network, over whole runs: nonces are never reused, and what is opened was sealed by
    the peer, once. */
module ChannelSafety {
  import opened Core
  import opened Codec
  import opened Session
  import opened Replay
  import opened Channel
  import Hash
  import Transcripts
  import Record
  import Aead

  // ---- The system ----

  /** One endpoint with its history: what its window let in since the last reset, and the key updates it went
      through since it was made. */
  datatype Party = Party(end: Endpoint, accepted: set<u64>, epochs: seq<Epoch>)

  /** A key update and the material it made. */
  datatype Epoch = Epoch(update: Update, material: KeyMaterial)

  /** A frame that was sealed. It was released unless the key update it announces failed. */
  datatype Sealed = Sealed(
    sender: Role, generation: u64, material: KeyMaterial, cfg: Config, associatedData: Bytes,
    contentType: u8, sequence: u64, plaintext: Bytes, frame: Record.Frame, released: bool)
  {
    function Key(): Bytes { material.WriteKey(sender) }
  }

  /** A record that `open` returned. */
  datatype Returned = Returned(
    receiver: Role, generation: u64, material: KeyMaterial, cfg: Config, associatedData: Bytes,
    record: Received, frame: Record.Frame)
  {
    function Key(): Bytes { material.WriteKey(Peer(receiver)) }
  }

  datatype System = System(client: Party, server: Party, sealed: seq<Sealed>, returned: seq<Returned>) {
    function At(role: Role): Party { if role.Client? then client else server }

    function With(role: Role, p: Party): System {
      if role.Client? then this.(client := p) else this.(server := p)
    }
  }

  datatype Action =
    | DoSeal(who: Role, cfg: Config, contentType: u8, plaintext: Bytes, associatedData: Bytes)
    | DoAlert(who: Role, cfg: Config, code: u8, associatedData: Bytes)
    | DoUpdate(who: Role, cfg: Config, hello: Hello, context: Bytes, associatedData: Bytes)
    | DoOpen(who: Role, cfg: Config, bytes: Bytes, associatedData: Bytes)
    | DoApply(who: Role, record: Received, hello: Hello, context: Bytes)
    | DoClose(who: Role)

  /** The log entry of a seal attempt, if the attempt reached the cipher. */
  function LogSeal(aead: Aead.Provider, e: Endpoint, cfg: Config, contentType: u8, plaintext: Bytes, ad: Bytes, released: bool): seq<Sealed> {
    match SealFrame(aead, e, cfg, contentType, plaintext, ad)
    case Err(_) => []
    case Ok(f) => [Sealed(e.role, e.generation, e.material, cfg, ad, contentType, e.sendSequence, plaintext, f, released)]
  }

  datatype Outcome = Outcome(party: Party, sealed: seq<Sealed>, returned: seq<Returned>)

  /** What an action does to the party that takes it, and what it adds to the logs. */
  function Act(aead: Aead.Provider, p: Party, a: Action): (o: Outcome)
    ensures |o.returned| <= 1
  {
    var e := p.end;
    match a
    case DoSeal(_, cfg, contentType, plaintext, ad) =>
      Outcome(p.(end := SealStep(aead, e, cfg, contentType, plaintext, ad).1),
              LogSeal(aead, e, cfg, contentType, plaintext, ad, true), [])
    case DoAlert(_, cfg, code, ad) =>
      Outcome(p.(end := AlertStep(aead, e, cfg, code, ad).1), LogSeal(aead, e, cfg, Record.ALERT, [code], ad, true), [])
    case DoUpdate(_, cfg, hello, context, ad) => ActUpdate(aead, p, cfg, hello, context, ad)
    case DoOpen(who, cfg, bytes, ad) =>
      var (r, after) := OpenStep(aead, e, cfg, bytes, ad);
      if r.Err? then Outcome(p, [], []) else
      OpenedDecodes(aead, e, cfg, bytes, ad);
      Outcome(p.(end := after, accepted := p.accepted + {r.value.sequence}), [],
              [Returned(who, e.generation, e.material, cfg, ad, r.value, Record.DecodeFrame(bytes).value)])
    case DoApply(_, record, hello, context) =>
      var (r, after) := ApplyStep(e, record, hello, context);
      if r.Err? then Outcome(p, [], []) else
      Outcome(Party(after, {}, p.epochs + [Epoch(Update(e.material, hello, after.generation, context), after.material)]), [], [])
    case DoClose(_) => Outcome(p.(end := e.(closed := true)), [], [])
  }

  function ActUpdate(aead: Aead.Provider, p: Party, cfg: Config, hello: Hello, context: Bytes, ad: Bytes): (o: Outcome)
    ensures o.returned == []
  {
    var e := p.end;
    var next := NextGeneration(e.generation);
    var (r, after) := UpdateStep(aead, e, cfg, hello, context, ad);
    var log := if e.closed || next == 0 then [] else
      match UpdatePayload(e.material, hello, next, context)
      case Err(_) => []
      case Ok(payload) => LogSeal(aead, e, cfg, Record.KEY_UPDATE, payload, ad, r.Ok?);
    var epoch := if r.Ok? then [Epoch(Update(e.material, hello, next, context), after.material)] else [];
    Outcome(p.(end := after, epochs := p.epochs + epoch), log, [])
  }

  function Step(aead: Aead.Provider, s: System, a: Action): System {
    var o := Act(aead, s.At(a.who), a);
    s.With(a.who, o.party).(sealed := s.sealed + o.sealed, returned := s.returned + o.returned)
  }

  lemma OpenedDecodes(aead: Aead.Provider, e: Endpoint, cfg: Config, bytes: Bytes, ad: Bytes)
    requires OpenFrame(aead, e, cfg, bytes, ad).Ok?
    ensures Record.DecodeFrame(bytes).Ok?
  {
    hide Record.DecodeFrame, Record.Open, MergedAad;
  }

  function Start(m: KeyMaterial, generation: u64): System
    requires m.SizesRight()
  {
    System(Party(Make(m, Client, generation).value, {}, []), Party(Make(m, Server, generation).value, {}, []), [], [])
  }

  function Run(aead: Aead.Provider, s: System, actions: seq<Action>): System {
    if actions == [] then s else Step(aead, Run(aead, s, actions[..|actions| - 1]), actions[|actions| - 1])
  }

  // ---- The invariant of every run ----

  /** The material an endpoint had after its first `n` updates. */
  function MaterialAfter(m: KeyMaterial, epochs: seq<Epoch>, n: nat): KeyMaterial
    requires n <= |epochs|
  {
    if n == 0 then m else epochs[n - 1].material
  }

  ghost predicate Lineage(m: KeyMaterial, generation: u64, epochs: seq<Epoch>) {
    forall i | 0 <= i < |epochs| :: EpochAt(m, generation, epochs, i)
  }

  ghost predicate EpochAt(m: KeyMaterial, generation: u64, epochs: seq<Epoch>, i: nat) {
    i < |epochs| && EpochRight(epochs[i], MaterialAfter(m, epochs, i), generation + i + 1)
  }

  ghost predicate EpochRight(x: Epoch, current: KeyMaterial, generation: nat) {
    x.update.current == current && x.update.generation == generation && x.update.Result() == Ok(x.material)
  }

  ghost predicate PartyRight(p: Party, role: Role, m: KeyMaterial, generation: u64) {
    && p.end.role == role
    && p.end.sendSequence <= Record.MAX_SEQUENCE + 1
    && p.end.generation == generation + |p.epochs|
    && Lineage(m, generation, p.epochs)
    && p.end.material == MaterialAfter(m, p.epochs, |p.epochs|)
    && p.end.material.SizesRight()
    && Tracks(p.end.window, p.accepted)
  }

  /** Generation first, then sequence. */
  predicate Before(g: u64, s: u64, h: u64, t: u64) {
    g < h || (g == h && s < t)
  }

  /** A log entry is the frame its fields describe, sealed under the material of its generation. */
  ghost predicate SealedRight(aead: Aead.Provider, x: Sealed, p: Party, m: KeyMaterial, generation: u64) {
    && generation <= x.generation <= p.end.generation == generation + |p.epochs|
    && x.material == MaterialAfter(m, p.epochs, x.generation - generation)
    && x.material.SizesRight()
    && Before(x.generation, x.sequence, p.end.generation, p.end.sendSequence)
    && x.sequence <= Record.MAX_SEQUENCE
    && MergedAad(x.cfg, x.associatedData).Ok?
    && Record.Seal(aead, x.cfg.algorithm, x.material, x.sender, x.contentType, x.sequence, x.plaintext,
                   MergedAad(x.cfg, x.associatedData).value) == Ok(x.frame)
  }

  ghost predicate ReturnedRight(y: Returned, p: Party, m: KeyMaterial, generation: u64) {
    && generation <= y.generation <= p.end.generation == generation + |p.epochs|
    && y.material == MaterialAfter(m, p.epochs, y.generation - generation)
    && (y.generation == p.end.generation ==> y.record.sequence in p.accepted)
  }

  /** The invariant: both parties are right, so is every log entry, each party's seals are in strictly rising
      (generation, sequence) order, and no party returned the same (generation, sequence) twice. */
  ghost predicate Inv(aead: Aead.Provider, s: System, m: KeyMaterial, generation: u64) {
    && PartyRight(s.client, Client, m, generation)
    && PartyRight(s.server, Server, m, generation)
    && (forall i | 0 <= i < |s.sealed| :: SealedRight(aead, s.sealed[i], s.At(s.sealed[i].sender), m, generation))
    && (forall i, j | 0 <= i < j < |s.sealed| && s.sealed[i].sender == s.sealed[j].sender ::
          Before(s.sealed[i].generation, s.sealed[i].sequence, s.sealed[j].generation, s.sealed[j].sequence))
    && (forall i | 0 <= i < |s.returned| :: ReturnedRight(s.returned[i], s.At(s.returned[i].receiver), m, generation))
    && (forall i, j | 0 <= i < j < |s.returned| && s.returned[i].receiver == s.returned[j].receiver ::
          s.returned[i].generation != s.returned[j].generation || s.returned[i].record.sequence != s.returned[j].record.sequence)
  }

  /** What a party may do to its history in one step. */
  ghost predicate Advances(p: Party, q: Party) {
    && p.epochs <= q.epochs
    && (p.end.generation == q.end.generation ==> p.end.sendSequence <= q.end.sendSequence && p.accepted <= q.accepted)
    && p.end.generation <= q.end.generation
  }

  lemma LogsKept(aead: Aead.Provider, p: Party, q: Party, role: Role, m: KeyMaterial, generation: u64)
    requires PartyRight(p, role, m, generation) && PartyRight(q, role, m, generation) && Advances(p, q)
    ensures forall x :: SealedRight(aead, x, p, m, generation) ==> SealedRight(aead, x, q, m, generation)
    ensures forall y :: ReturnedRight(y, p, m, generation) ==> ReturnedRight(y, q, m, generation)
  {
    hide MergedAad, Record.Seal, Tracks, Lineage, KeyMaterial.SizesRight;
    assert forall n: nat | n <= |p.epochs| :: MaterialAfter(m, p.epochs, n) == MaterialAfter(m, q.epochs, n);
  }

  /** An action moved its party on and made at most one right entry in each log. */
  ghost predicate Fits(aead: Aead.Provider, p: Party, o: Outcome, role: Role, m: KeyMaterial, generation: u64) {
    && PartyRight(o.party, role, m, generation) && Advances(p, o.party)
    && |o.sealed| <= 1 && |o.returned| <= 1
    && (forall x | x in o.sealed ::
          x.sender == role && SealedRight(aead, x, o.party, m, generation) &&
          x.generation == p.end.generation && x.sequence == p.end.sendSequence)
    && (forall y | y in o.returned ::
          y.receiver == role && ReturnedRight(y, o.party, m, generation) &&
          y.generation == p.end.generation && y.record.sequence !in p.accepted)
  }

  lemma SealedIsPast(aead: Aead.Provider, x: Sealed, p: Party, m: KeyMaterial, generation: u64)
    ensures SealedRight(aead, x, p, m, generation) ==> Before(x.generation, x.sequence, p.end.generation, p.end.sendSequence)
  {
    hide MergedAad, Record.Seal, MaterialAfter;
  }

  /** One party moving on keeps the sealing half of the invariant. */
  lemma ComposeSealed(aead: Aead.Provider, s: System, who: Role, o: Outcome, m: KeyMaterial, generation: u64)
    requires Inv(aead, s, m, generation) && Fits(aead, s.At(who), o, who, m, generation)
    ensures var t := s.With(who, o.party).(sealed := s.sealed + o.sealed, returned := s.returned + o.returned);
            && (forall i | 0 <= i < |t.sealed| :: SealedRight(aead, t.sealed[i], t.At(t.sealed[i].sender), m, generation))
            && (forall i, j | 0 <= i < j < |t.sealed| && t.sealed[i].sender == t.sealed[j].sender ::
                  Before(t.sealed[i].generation, t.sealed[i].sequence, t.sealed[j].generation, t.sealed[j].sequence))
  {
    hide SealedRight, ReturnedRight, PartyRight, Advances;
    LogsKept(aead, s.At(who), o.party, who, m, generation);
    var t := s.With(who, o.party).(sealed := s.sealed + o.sealed, returned := s.returned + o.returned);
    var n := |s.sealed|;
    assert forall i | 0 <= i < n :: t.sealed[i] == s.sealed[i];
    assert forall i | n <= i < |t.sealed| :: t.sealed[i] in o.sealed;
    forall i, j | 0 <= i < j < |t.sealed| && t.sealed[i].sender == t.sealed[j].sender
      ensures Before(t.sealed[i].generation, t.sealed[i].sequence, t.sealed[j].generation, t.sealed[j].sequence)
    {
      if j < n {
        assert t.sealed[i] == s.sealed[i] && t.sealed[j] == s.sealed[j];
      } else {
        assert t.sealed[j] in o.sealed && t.sealed[i] == s.sealed[i];
        SealedIsPast(aead, s.sealed[i], s.At(s.sealed[i].sender), m, generation);
      }
    }
  }

  lemma ReturnedIsPast(y: Returned, p: Party, m: KeyMaterial, generation: u64)
    ensures ReturnedRight(y, p, m, generation) && y.generation == p.end.generation ==> y.record.sequence in p.accepted
  {}

  /** And the opening half. */
  lemma ComposeReturned(aead: Aead.Provider, s: System, who: Role, o: Outcome, m: KeyMaterial, generation: u64)
    requires Inv(aead, s, m, generation) && Fits(aead, s.At(who), o, who, m, generation)
    ensures var t := s.With(who, o.party).(sealed := s.sealed + o.sealed, returned := s.returned + o.returned);
            && (forall i | 0 <= i < |t.returned| :: ReturnedRight(t.returned[i], t.At(t.returned[i].receiver), m, generation))
            && (forall i, j | 0 <= i < j < |t.returned| && t.returned[i].receiver == t.returned[j].receiver ::
                  t.returned[i].generation != t.returned[j].generation ||
                  t.returned[i].record.sequence != t.returned[j].record.sequence)
  {
    hide SealedRight, ReturnedRight, PartyRight, Advances;
    LogsKept(aead, s.At(who), o.party, who, m, generation);
    var t := s.With(who, o.party).(sealed := s.sealed + o.sealed, returned := s.returned + o.returned);
    var n := |s.returned|;
    assert forall i | 0 <= i < n :: t.returned[i] == s.returned[i];
    assert forall i | n <= i < |t.returned| :: t.returned[i] in o.returned;
    forall i, j | 0 <= i < j < |t.returned| && t.returned[i].receiver == t.returned[j].receiver
      ensures t.returned[i].generation != t.returned[j].generation || t.returned[i].record.sequence != t.returned[j].record.sequence
    {
      if j < n {
        assert t.returned[i] == s.returned[i] && t.returned[j] == s.returned[j];
      } else {
        assert t.returned[j] in o.returned && t.returned[i] == s.returned[i];
        ReturnedIsPast(s.returned[i], s.At(s.returned[i].receiver), m, generation);
      }
    }
  }

  /** One more update extends the lineage. */
  lemma LineageGrows(m: KeyMaterial, generation: u64, epochs: seq<Epoch>, x: Epoch)
    requires Lineage(m, generation, epochs) && EpochRight(x, MaterialAfter(m, epochs, |epochs|), generation + |epochs| + 1)
    ensures Lineage(m, generation, epochs + [x])
  {
    hide EpochRight;
    var longer := epochs + [x];
    forall i | 0 <= i < |longer|
      ensures EpochAt(m, generation, longer, i)
    {
      assert MaterialAfter(m, longer, i) == MaterialAfter(m, epochs, i);
      assert i < |epochs| ==> EpochAt(m, generation, epochs, i);
    }
  }

  /** A seal that reaches the cipher spends exactly the current sequence number. */
  lemma SealFits(aead: Aead.Provider, p: Party, role: Role, m: KeyMaterial, generation: u64, cfg: Config, contentType: u8,
                 plaintext: Bytes, ad: Bytes, released: bool)
    requires aead.Sound() && PartyRight(p, role, m, generation)
    ensures var (r, after) := SealStep(aead, p.end, cfg, contentType, plaintext, ad);
            var log := LogSeal(aead, p.end, cfg, contentType, plaintext, ad, released);
            && (r.Ok? <==> log != [])
            && after == (if r.Ok? then p.end.(sendSequence := p.end.sendSequence + 1) else p.end)
            && Fits(aead, p, Outcome(p.(end := after), log, []), role, m, generation)
  {
    hide Lineage, Tracks, MergedAad, Record.Seal, Record.EncodeFrame, Record.SequenceNonce;
    if SealFrame(aead, p.end, cfg, contentType, plaintext, ad).Ok? {
      Record.SealSucceeds(aead, cfg.algorithm, p.end.material, p.end.role, contentType, p.end.sendSequence, plaintext,
                          MergedAad(cfg, ad).value);
    }
  }

  /** A party that did nothing. */
  lemma IdleFits(aead: Aead.Provider, p: Party, role: Role, m: KeyMaterial, generation: u64, closed: bool)
    requires PartyRight(p, role, m, generation)
    ensures Fits(aead, p, Outcome(p.(end := p.end.(closed := closed)), [], []), role, m, generation)
  {
    hide Lineage, Tracks;
  }

  lemma ClosedFits(aead: Aead.Provider, p: Party, o: Outcome, role: Role, m: KeyMaterial, generation: u64, closed: bool)
    requires Fits(aead, p, o, role, m, generation)
    ensures Fits(aead, p, o.(party := o.party.(end := o.party.end.(closed := closed))), role, m, generation)
  {
    hide Lineage, Tracks, MergedAad, Record.Seal;
  }

  /** A party that moved on to the next generation, after the step to `via` if it sealed an update. */
  lemma EpochFits(aead: Aead.Provider, p: Party, via: Party, q: Party, x: Epoch, log: seq<Sealed>, role: Role, m: KeyMaterial,
                  generation: u64)
    requires PartyRight(p, role, m, generation) && Fits(aead, p, Outcome(via, log, []), role, m, generation)
    requires via.end.generation == p.end.generation && via.epochs == p.epochs
    requires p.end.generation < 0xffff_ffff_ffff_ffff
    requires q.end.role == role && q.end.sendSequence <= p.end.sendSequence && q.end.generation == p.end.generation + 1
    requires EpochRight(x, p.end.material, q.end.generation) && q.epochs == p.epochs + [x] && q.end.material == x.material
    requires Tracks(q.end.window, q.accepted)
    ensures Fits(aead, p, Outcome(q, log, []), role, m, generation)
  {
    hide EpochRight, Tracks, Lineage, KeyMaterial.SizesRight, SealedRight;
    EpochRightSizes(x, p.end.material, q.end.generation);
    LineageGrows(m, generation, p.epochs, x);
    assert PartyRight(q, role, m, generation);
    LogsKept(aead, via, q, role, m, generation);
  }

  lemma EpochRightSizes(x: Epoch, current: KeyMaterial, generation: nat)
    requires EpochRight(x, current, generation)
    ensures x.material.SizesRight()
  {
    hide UpdateKeys;
  }

  lemma UpdateFits(aead: Aead.Provider, p: Party, role: Role, m: KeyMaterial, generation: u64, cfg: Config, hello: Hello,
                   context: Bytes, ad: Bytes)
    requires aead.Sound() && PartyRight(p, role, m, generation)
    ensures Fits(aead, p, ActUpdate(aead, p, cfg, hello, context, ad), role, m, generation)
  {
    hide UpdateKeys, UpdatePayload, SealStep, LogSeal, PartyRight, Fits, SealedRight, Record.Seal, MergedAad, Tracks, Lineage;
    var e := p.end;
    var next := NextGeneration(e.generation);
    var (r, after) := UpdateStep(aead, e, cfg, hello, context, ad);
    assert p.epochs + [] == p.epochs;
    if e.closed || next == 0 || UpdatePayload(e.material, hello, next, context).Err? {
      IdleFits(aead, p, role, m, generation, e.closed);
    } else {
      var payload := UpdatePayload(e.material, hello, next, context).value;
      SealFits(aead, p, role, m, generation, cfg, Record.KEY_UPDATE, payload, ad, r.Ok?);
      if r.Ok? {
        UpdateSucceeds(aead, p, role, m, generation, cfg, hello, context, ad);
      }
    }
  }

  lemma UpdateSucceeds(aead: Aead.Provider, p: Party, role: Role, m: KeyMaterial, generation: u64, cfg: Config, hello: Hello,
                       context: Bytes, ad: Bytes)
    requires aead.Sound() && PartyRight(p, role, m, generation)
    requires UpdateStep(aead, p.end, cfg, hello, context, ad).0.Ok?
    ensures Fits(aead, p, ActUpdate(aead, p, cfg, hello, context, ad), role, m, generation)
  {
    hide UpdateKeys, UpdatePayload, SealStep, LogSeal, Fits, Record.Seal, MergedAad, Tracks, Lineage;
    var e := p.end;
    var next := NextGeneration(e.generation);
    var payload := UpdatePayload(e.material, hello, next, context).value;
    var o := ActUpdate(aead, p, cfg, hello, context, ad);
    SealFits(aead, p, role, m, generation, cfg, Record.KEY_UPDATE, payload, ad, true);
    var via := p.(end := SealStep(aead, e, cfg, Record.KEY_UPDATE, payload, ad).1);
    EpochFits(aead, p, via, o.party, o.party.epochs[|p.epochs|], o.sealed, role, m, generation);
  }

  lemma OpenFits(aead: Aead.Provider, p: Party, role: Role, m: KeyMaterial, generation: u64, a: Action)
    requires PartyRight(p, role, m, generation) && a.DoOpen? && a.who == role
    ensures Fits(aead, p, Act(aead, p, a), role, m, generation)
  {
    hide Lineage, OpenFrame, Record.DecodeFrame, SealedRight, Check, Admit, Tracks, Fits;
    hide SealStep, AlertStep, ActUpdate, ApplyStep, LogSeal;
    var (r, after) := OpenStep(aead, p.end, a.cfg, a.bytes, a.associatedData);
    if r.Ok? {
      OpenedIsNew(aead, p.end, a.cfg, a.bytes, a.associatedData);
      CheckIsExact(p.end.window, p.accepted, r.value.sequence);
      AdmitTracks(p.end.window, p.accepted, r.value.sequence);
      ReturnFits(aead, p, Act(aead, p, a), role, m, generation);
    } else {
      IdleFits(aead, p, role, m, generation, p.end.closed);
    }
  }

  lemma ReturnFits(aead: Aead.Provider, p: Party, o: Outcome, role: Role, m: KeyMaterial, generation: u64)
    requires PartyRight(p, role, m, generation) && |o.returned| == 1 && o.sealed == []
    requires var y := o.returned[0];
             && y.receiver == role && y.generation == p.end.generation && y.material == p.end.material
             && y.record.sequence !in p.accepted
             && o.party == p.(end := o.party.end, accepted := p.accepted + {y.record.sequence})
             && o.party.end == p.end.(window := o.party.end.window, closed := o.party.end.closed)
             && Tracks(o.party.end.window, o.party.accepted)
    ensures Fits(aead, p, o, role, m, generation)
  {
    hide Lineage, Tracks, KeyMaterial.SizesRight, SealedRight;
  }

  lemma ApplyFits(aead: Aead.Provider, p: Party, role: Role, m: KeyMaterial, generation: u64, a: Action)
    requires PartyRight(p, role, m, generation) && a.DoApply? && a.who == role
    ensures Fits(aead, p, Act(aead, p, a), role, m, generation)
  {
    hide AppliedKeys, UpdateKeys, SealedRight, ReturnedRight, Fits, Lineage;
    IdleFits(aead, p, role, m, generation, p.end.closed);
    var (r, after) := ApplyStep(p.end, a.record, a.hello, a.context);
    assert Tracks(EMPTY, {});
    hide Tracks;
    if r.Ok? {
      var q := Act(aead, p, a).party;
      EpochFits(aead, p, p, q, q.epochs[|p.epochs|], [], role, m, generation);
    }
  }

  lemma ActFits(aead: Aead.Provider, p: Party, a: Action, m: KeyMaterial, generation: u64)
    requires aead.Sound() && PartyRight(p, a.who, m, generation)
    ensures Fits(aead, p, Act(aead, p, a), a.who, m, generation)
  {
    hide SealStep, UpdateStep, OpenStep, ApplyStep, LogSeal, ActUpdate, PartyRight, Fits;
    match a
    case DoUpdate(_, cfg, hello, context, ad) => UpdateFits(aead, p, a.who, m, generation, cfg, hello, context, ad);
    case DoOpen(_, _, _, _) => OpenFits(aead, p, a.who, m, generation, a);
    case DoApply(_, _, _, _) => ApplyFits(aead, p, a.who, m, generation, a);
    case DoSeal(_, cfg, contentType, plaintext, ad) =>
      SealFits(aead, p, a.who, m, generation, cfg, contentType, plaintext, ad, true);
    case DoAlert(_, cfg, code, ad) =>
      SealFits(aead, p, a.who, m, generation, cfg, Record.ALERT, [code], ad, true);
      var (r, after) := SealStep(aead, p.end, cfg, Record.ALERT, [code], ad);
      ClosedFits(aead, p, Outcome(p.(end := after), LogSeal(aead, p.end, cfg, Record.ALERT, [code], ad, true), []),
                 a.who, m, generation, true);
    case DoClose(_) => IdleFits(aead, p, a.who, m, generation, true);
  }

  /** Every step keeps the invariant, whatever the network delivers and whatever fails. */
  lemma StepKeeps(aead: Aead.Provider, s: System, a: Action, m: KeyMaterial, generation: u64)
    requires aead.Sound() && Inv(aead, s, m, generation)
    ensures Inv(aead, Step(aead, s, a), m, generation)
  {
    hide Act, SealedRight, ReturnedRight, PartyRight, Advances;
    var p := s.At(a.who);
    ActFits(aead, p, a, m, generation);
    ComposeSealed(aead, s, a.who, Act(aead, p, a), m, generation);
    ComposeReturned(aead, s, a.who, Act(aead, p, a), m, generation);
  }

  lemma {:induction false} RunKeeps(aead: Aead.Provider, m: KeyMaterial, generation: u64, actions: seq<Action>)
    requires aead.Sound() && m.SizesRight()
    ensures Inv(aead, Run(aead, Start(m, generation), actions), m, generation)
  {
    if actions == [] {
      assert MaterialAfter(m, [], 0) == m;
    } else {
      hide Step, Inv;
      RunKeeps(aead, m, generation, actions[..|actions| - 1]);
      StepKeeps(aead, Run(aead, Start(m, generation), actions[..|actions| - 1]), actions[|actions| - 1], m, generation);
    }
  }

  // ---- Where keys come from ----

  /** A write key: of the direction `writer`, as `holder` knew it in some generation. */
  datatype KeyId = KeyId(holder: Role, writer: Role, generation: u64)

  ghost predicate Known(s: System, k: KeyId, generation: u64) {
    generation <= k.generation <= generation + |s.At(k.holder).epochs|
  }

  function KeyOf(s: System, k: KeyId, m: KeyMaterial, generation: u64): Bytes
    requires Known(s, k, generation)
  {
    MaterialAfter(m, s.At(k.holder).epochs, k.generation - generation).WriteKey(k.writer)
  }

  /** Two keys of different directions or generations are equal: one of them is an initial key, which the caller chose,
      or SHA-256 collides along their derivations. */
  ghost predicate Coincide(s: System, j: KeyId, k: KeyId, m: KeyMaterial, generation: u64)
    requires Known(s, j, generation) && Known(s, k, generation)
  {
    && (j.writer != k.writer || j.generation != k.generation)
    && KeyOf(s, j, m, generation) == KeyOf(s, k, m, generation)
    && (j.generation > generation && k.generation > generation ==>
          var a := s.At(j.holder).epochs[j.generation - generation - 1].update;
          var b := s.At(k.holder).epochs[k.generation - generation - 1].update;
          a.Result().Ok? && b.Result().Ok? && UpdateCollides(a, j.writer, b, k.writer))
  }

  lemma EqualKeys(aead: Aead.Provider, s: System, j: KeyId, k: KeyId, m: KeyMaterial, generation: u64)
    requires Inv(aead, s, m, generation) && Known(s, j, generation) && Known(s, k, generation)
    requires KeyOf(s, j, m, generation) == KeyOf(s, k, m, generation)
    ensures (j.writer == k.writer && j.generation == k.generation) || Coincide(s, j, k, m, generation)
  {
    hide UpdateKeys, UpdateCollides, SealedRight, ReturnedRight, Tracks, KeyMaterial.SizesRight;
    if j.generation > generation && k.generation > generation {
      var p, q := s.At(j.holder), s.At(k.holder);
      var x, y := p.epochs[j.generation - generation - 1], q.epochs[k.generation - generation - 1];
      assert PartyRight(p, j.holder, m, generation) && PartyRight(q, k.holder, m, generation);
      assert EpochAt(m, generation, p.epochs, j.generation - generation - 1);
      assert EpochAt(m, generation, q.epochs, k.generation - generation - 1);
      UpdateBinds(x.update, j.writer, y.update, k.writer);
    }
  }

  function LastUpdate(s: System, k: KeyId, generation: u64): Update
    requires Known(s, k, generation) && k.generation > generation
  {
    s.At(k.holder).epochs[k.generation - generation - 1].update
  }

  /** Why two keys of different directions or generations are equal when the first material was derived from `secret`:
      SHA-256 collides along their derivations, or a key update made the handshake secret over again. */
  ghost predicate Explained(s: System, j: KeyId, k: KeyId, secret: Bytes, hello: Hello, generation: u64) {
    && Known(s, j, generation) && Known(s, k, generation)
    && if j.generation == generation && k.generation == generation then
         OriginsCollide(WriteKeyOrigin(secret, hello, Client), WriteKeyOrigin(secret, hello, Server))
       else if j.generation == generation then
         FirstMeets(secret, hello, j.writer, LastUpdate(s, k, generation), k.writer)
       else if k.generation == generation then
         FirstMeets(secret, hello, k.writer, LastUpdate(s, j, generation), j.writer)
       else
         var a, b := LastUpdate(s, j, generation), LastUpdate(s, k, generation);
         a.Result().Ok? && b.Result().Ok? && UpdateCollides(a, j.writer, b, k.writer)
  }

  /** How a first key can equal one made by the update `b`. */
  predicate FirstMeets(secret: Bytes, hello: Hello, r: Role, b: Update, w: Role) {
    && b.Result().Ok?
    && (|| OriginsCollide(WriteKeyOrigin(secret, hello, r), b.KeyOrigin(w))
        || (r == w && hello == b.hello && UpdateSecret(b.current, b.hello, b.generation, b.context) == Ok(secret)))
  }

  lemma CoincideExplained(aead: Aead.Provider, s: System, j: KeyId, k: KeyId, secret: Bytes, hello: Hello, m: KeyMaterial, generation: u64)
    requires Inv(aead, s, m, generation) && Known(s, j, generation) && Known(s, k, generation)
    requires DeriveKeys(secret, hello) == Ok(m) && Coincide(s, j, k, m, generation)
    ensures Explained(s, j, k, secret, hello, generation)
  {
    hide DeriveKeys, UpdateKeys, UpdateCollides, OriginsCollide, SealedRight, ReturnedRight, Tracks, KeyMaterial.SizesRight, UpdateSecret;
    if j.generation == generation && k.generation == generation {
      DirectionsBind(secret, hello);
    } else if j.generation == generation {
      LaterKey(aead, s, k, m, generation);
      FirstKeyBinds(secret, hello, j.writer, LastUpdate(s, k, generation), k.writer);
    } else if k.generation == generation {
      LaterKey(aead, s, j, m, generation);
      FirstKeyBinds(secret, hello, k.writer, LastUpdate(s, j, generation), j.writer);
    }
  }

  /** A key of a later generation is the one its last update made. */
  lemma LaterKey(aead: Aead.Provider, s: System, k: KeyId, m: KeyMaterial, generation: u64)
    requires Inv(aead, s, m, generation) && Known(s, k, generation) && k.generation > generation
    ensures var b := LastUpdate(s, k, generation);
            b.Result().Ok? && b.Result().value.WriteKey(k.writer) == KeyOf(s, k, m, generation)
  {
    hide UpdateKeys, SealedRight, ReturnedRight, Tracks, KeyMaterial.SizesRight;
    assert PartyRight(s.At(k.holder), k.holder, m, generation);
    assert EpochAt(m, generation, s.At(k.holder).epochs, k.generation - generation - 1);
  }

  function SealedKey(x: Sealed): KeyId { KeyId(x.sender, x.sender, x.generation) }

  function ReturnedKey(y: Returned): KeyId { KeyId(y.receiver, Peer(y.receiver), y.generation) }

  lemma SealedFacts(aead: Aead.Provider, s: System, i: nat, m: KeyMaterial, generation: u64)
    requires aead.Sound() && Inv(aead, s, m, generation) && i < |s.sealed|
    ensures var x := s.sealed[i];
            && Known(s, SealedKey(x), generation) && KeyOf(s, SealedKey(x), m, generation) == x.Key()
            && x.material == MaterialAfter(m, s.At(x.sender).epochs, x.generation - generation)
            && Record.SequenceNonce(x.material.WriteNonce(x.sender), x.sequence) == Ok(x.frame.nonce)
            && x.frame.header == Record.Header(Record.VERSION, x.contentType, x.sender, x.sequence, |x.plaintext|, 16)
            && MergedAad(x.cfg, x.associatedData).Ok?
  {
    hide PartyRight, ReturnedRight, Record.Seal, MergedAad, Record.SequenceNonce, Record.EncodeFrame;
    var x := s.sealed[i];
    assert SealedRight(aead, x, s.At(x.sender), m, generation);
    Record.SealSucceeds(aead, x.cfg.algorithm, x.material, x.sender, x.contentType, x.sequence, x.plaintext,
                        MergedAad(x.cfg, x.associatedData).value);
  }

  // ---- The theorems ----

  /** The two directions share their key and the bytes of the nonce that no sequence number changes. */
  predicate DirectionsShare(m: KeyMaterial)
    requires m.SizesRight()
  {
    m.clientWriteKey == m.serverWriteKey && m.clientWriteNonce[..4] == m.serverWriteNonce[..4]
  }

  /** The base nonces of two frames agree in the bytes that no sequence number changes. */
  predicate BasesAgree(x: Sealed, y: Sealed) {
    var c, v := x.material.WriteNonce(x.sender), y.material.WriteNonce(y.sender);
    |c| == |v| == NONCE_BYTES && c[..4] == v[..4]
  }

  /** Over every run, whatever keys the caller chose: two sealed frames under one key have different nonces, unless two
      keys of different directions or generations coincide and their base nonces agree in four bytes. Two frames of the
      first generation repeat only if the caller gave both directions one key and the same first four bytes of nonce. */
  lemma NoncesForAnyKeys(aead: Aead.Provider, m: KeyMaterial, generation: u64, actions: seq<Action>, i: nat, j: nat)
    requires aead.Sound() && m.SizesRight()
    requires i < j < |Run(aead, Start(m, generation), actions).sealed|
    ensures var s := Run(aead, Start(m, generation), actions);
            var x, y := s.sealed[i], s.sealed[j];
            x.Key() == y.Key() && x.frame.nonce == y.frame.nonce ==>
              && Known(s, SealedKey(x), generation) && Known(s, SealedKey(y), generation)
              && Coincide(s, SealedKey(x), SealedKey(y), m, generation)
              && BasesAgree(x, y)
              && (x.generation == y.generation == generation ==> x.sender != y.sender && DirectionsShare(m))
  {
    hide Step, Run, SealedRight, ReturnedRight, PartyRight, Coincide, KeyOf, Known, Record.SequenceNonce, KeyMaterial.SizesRight,
         DirectionsShare, BasesAgree;
    RunKeeps(aead, m, generation, actions);
    var s := Run(aead, Start(m, generation), actions);
    var x, y := s.sealed[i], s.sealed[j];
    SealedFacts(aead, s, i, m, generation);
    SealedFacts(aead, s, j, m, generation);
    if x.Key() == y.Key() && x.frame.nonce == y.frame.nonce {
      EqualKeys(aead, s, SealedKey(x), SealedKey(y), m, generation);
      NonceShowsBase(x, y);
      if x.sender == y.sender && x.generation == y.generation {
        Record.SequenceNonceInjective(x.material.WriteNonce(x.sender), x.sequence, y.sequence);
      } else if x.generation == y.generation == generation {
        FirstGenerationShares(m, x, y);
      }
    }
  }

  lemma NonceShowsBase(x: Sealed, y: Sealed)
    requires Record.SequenceNonce(x.material.WriteNonce(x.sender), x.sequence) == Ok(x.frame.nonce)
    requires Record.SequenceNonce(y.material.WriteNonce(y.sender), y.sequence) == Ok(x.frame.nonce)
    ensures BasesAgree(x, y)
  {
    hide Xor, Be;
    var c, v := x.material.WriteNonce(x.sender), y.material.WriteNonce(y.sender);
    assert x.frame.nonce[..4] == c[..4] && x.frame.nonce[..4] == v[..4];
  }

  lemma FirstGenerationShares(m: KeyMaterial, x: Sealed, y: Sealed)
    requires m.SizesRight() && x.sender != y.sender && x.material == y.material == m && x.Key() == y.Key() && BasesAgree(x, y)
    ensures DirectionsShare(m)
  {}

  /** Over every run of two endpoints whose first material was derived from a handshake secret: no two sealed frames
      share key and nonce, unless SHA-256 collides along the derivations of two keys, or a key update made the handshake
      secret over again. */
  lemma NoncesNeverRepeat(aead: Aead.Provider, secret: Bytes, hello: Hello, m: KeyMaterial, generation: u64, actions: seq<Action>,
                          i: nat, j: nat)
    requires aead.Sound() && DeriveKeys(secret, hello) == Ok(m)
    requires i < j < |Run(aead, Start(m, generation), actions).sealed|
    ensures var s := Run(aead, Start(m, generation), actions);
            var x, y := s.sealed[i], s.sealed[j];
            x.Key() == y.Key() && x.frame.nonce == y.frame.nonce ==>
              Explained(s, SealedKey(x), SealedKey(y), secret, hello, generation)
  {
    hide Run, Coincide, Explained, KeyOf, Known, Inv, DirectionsShare, KeyMaterial.SizesRight;
    NoncesForAnyKeys(aead, m, generation, actions, i, j);
    RunKeeps(aead, m, generation, actions);
    var s := Run(aead, Start(m, generation), actions);
    var x, y := s.sealed[i], s.sealed[j];
    if x.Key() == y.Key() && x.frame.nonce == y.frame.nonce {
      CoincideExplained(aead, s, SealedKey(x), SealedKey(y), secret, hello, m, generation);
    }
  }

  /** Each party's released frames strictly rise in (generation, sequence), and neither counter wraps. */
  lemma CountersOnlyRise(aead: Aead.Provider, m: KeyMaterial, generation: u64, actions: seq<Action>)
    requires aead.Sound() && m.SizesRight()
    ensures var s := Run(aead, Start(m, generation), actions);
            && (forall i, j | 0 <= i < j < |s.sealed| && s.sealed[i].sender == s.sealed[j].sender ::
                  Before(s.sealed[i].generation, s.sealed[i].sequence, s.sealed[j].generation, s.sealed[j].sequence))
            && (forall role :: s.At(role).end.generation == generation + |s.At(role).epochs|)
            && (forall role :: s.At(role).end.sendSequence <= Record.MAX_SEQUENCE + 1)
  {
    hide Step, Run, SealedRight, ReturnedRight, Lineage, Tracks, KeyMaterial.SizesRight;
    RunKeeps(aead, m, generation, actions);
  }

  /** What the AEAD provider is trusted for: a frame opens only if an honest party sealed that very box. */
  ghost predicate Unforged(aead: Aead.Provider, s: System, a: Action) {
    var o := Act(aead, s.At(a.who), a);
    a.DoOpen? && o.returned != [] ==> exists i :: 0 <= i < |s.sealed| && SameBox(s.sealed[i], o.returned[0])
  }

  /** The AEAD calls behind a seal and an open: algorithm, key, nonce, data, tag and associated data agree. */
  ghost predicate SameBox(x: Sealed, y: Returned) {
    && x.cfg.algorithm == y.cfg.algorithm && x.Key() == y.Key()
    && x.frame.nonce == y.frame.nonce && x.frame.ciphertext == y.frame.ciphertext && x.frame.tag == y.frame.tag
    && MergedAad(x.cfg, x.associatedData).Ok? && MergedAad(y.cfg, y.associatedData).Ok?
    && Record.AadFor(x.frame.header, MergedAad(x.cfg, x.associatedData).value) ==
       Record.AadFor(y.frame.header, MergedAad(y.cfg, y.associatedData).value)
  }

  ghost predicate UnforgedRun(aead: Aead.Provider, s: System, actions: seq<Action>) {
    forall n: nat | n < |actions| :: Unforged(aead, Run(aead, s, actions[..n]), actions[n])
  }

  /** A returned record is what its frame opened to, under the receiver's material at the time. */
  ghost predicate OpenedRight(aead: Aead.Provider, y: Returned) {
    && y.frame.header.role == Peer(y.receiver)
    && y.record == Received(y.frame.header.contentType, y.frame.header.role, y.frame.header.sequence, y.record.plaintext)
    && MergedAad(y.cfg, y.associatedData).Ok?
    && Record.Open(aead, y.cfg.algorithm, y.material, y.frame, MergedAad(y.cfg, y.associatedData).value) == Ok(y.record.plaintext)
  }

  /** Sent by the peer, with the same type, sequence, plaintext, context and associated data. */
  predicate SameContent(x: Sealed, y: Returned) {
    && x.sender == Peer(y.receiver) == y.record.sender
    && x.contentType == y.record.contentType && x.sequence == y.record.sequence && x.plaintext == y.record.plaintext
    && x.cfg.associatedContext == y.cfg.associatedContext && x.associatedData == y.associatedData
  }

  /** The record comes from that sealed frame, in the same generation. The ways out are explicit: coinciding keys of
      that direction in two generations, or two record transcripts that collide under SHA-256. */
  ghost predicate Genuine(s: System, x: Sealed, y: Returned, m: KeyMaterial, generation: u64) {
    || TranscriptsCollide(x, y)
    || (&& SameContent(x, y)
        && (x.generation == y.generation ||
            (Known(s, SealedKey(x), generation) && Known(s, ReturnedKey(y), generation) &&
             Coincide(s, SealedKey(x), ReturnedKey(y), m, generation))))
  }

  /** The same when the first material was derived from `secret`. */
  ghost predicate GenuineDerived(s: System, x: Sealed, y: Returned, secret: Bytes, hello: Hello, generation: u64) {
    || TranscriptsCollide(x, y)
    || (&& SameContent(x, y)
        && (x.generation == y.generation || Explained(s, SealedKey(x), ReturnedKey(y), secret, hello, generation)))
  }

  ghost predicate TranscriptsCollide(x: Sealed, y: Returned) {
    && MergedAad(x.cfg, x.associatedData).Ok? && MergedAad(y.cfg, y.associatedData).Ok?
    && Hash.Collision(
         Transcripts.Frame(Record.RECORD_V1,
                           Record.AadFields(Record.HeaderBytes(x.frame.header), MergedAad(x.cfg, x.associatedData).value)),
         Transcripts.Frame(Record.RECORD_V1,
                           Record.AadFields(Record.HeaderBytes(y.frame.header), MergedAad(y.cfg, y.associatedData).value)))
  }

  ghost predicate Traced(aead: Aead.Provider, s: System) {
    forall k | 0 <= k < |s.returned| ::
      OpenedRight(aead, s.returned[k]) && exists i :: 0 <= i < |s.sealed| && SameBox(s.sealed[i], s.returned[k])
  }

  lemma ActOpens(aead: Aead.Provider, p: Party, a: Action)
    requires p.end.role == a.who
    ensures forall y | y in Act(aead, p, a).returned :: OpenedRight(aead, y)
    ensures Act(aead, p, a).returned != [] ==> a.DoOpen?
  {
    hide SealStep, AlertStep, ActUpdate, ApplyStep, LogSeal, Check, Admit, MergedAad, Record.Open, Record.DecodeFrame;
  }

  lemma {:induction false} RunTraced(aead: Aead.Provider, m: KeyMaterial, generation: u64, actions: seq<Action>)
    requires aead.Sound() && m.SizesRight() && UnforgedRun(aead, Start(m, generation), actions)
    ensures Traced(aead, Run(aead, Start(m, generation), actions))
  {
    if actions != [] {
      hide Unforged, Traced, Inv, Start, Step;
      var n := |actions| - 1;
      var s := Run(aead, Start(m, generation), actions[..n]);
      UnforgedEarlier(aead, Start(m, generation), actions);
      RunTraced(aead, m, generation, actions[..n]);
      RunKeeps(aead, m, generation, actions[..n]);
      RolesFixed(aead, s, actions[n].who, m, generation);
      TracedStep(aead, s, actions[n]);
    }
  }

  lemma RolesFixed(aead: Aead.Provider, s: System, role: Role, m: KeyMaterial, generation: u64)
    requires Inv(aead, s, m, generation)
    ensures s.At(role).end.role == role
  {
    hide SealedRight, ReturnedRight, Tracks, Lineage, KeyMaterial.SizesRight;
  }

  lemma UnforgedEarlier(aead: Aead.Provider, s: System, actions: seq<Action>)
    requires actions != [] && UnforgedRun(aead, s, actions)
    ensures var n := |actions| - 1;
            UnforgedRun(aead, s, actions[..n]) && Unforged(aead, Run(aead, s, actions[..n]), actions[n])
  {
    hide Unforged, Run;
    var n := |actions| - 1;
    forall k: nat | k < n
      ensures Unforged(aead, Run(aead, s, actions[..n][..k]), actions[..n][k])
    {
      assert actions[..n][..k] == actions[..k];
    }
  }

  lemma TracedStep(aead: Aead.Provider, s: System, a: Action)
    requires Traced(aead, s) && Unforged(aead, s, a) && s.At(a.who).end.role == a.who
    ensures Traced(aead, Step(aead, s, a))
  {
    ActOpens(aead, s.At(a.who), a);
    hide Act, SameBox, OpenedRight;
    var t := Step(aead, s, a);
    var o := Act(aead, s.At(a.who), a);
    forall k | 0 <= k < |t.returned|
      ensures OpenedRight(aead, t.returned[k]) && exists i :: 0 <= i < |t.sealed| && SameBox(t.sealed[i], t.returned[k])
    {
      var y := t.returned[k];
      assert k >= |s.returned| ==> y == o.returned[0] && y in o.returned;
      var i :| 0 <= i < |s.sealed| && SameBox(s.sealed[i], y);
      assert t.sealed[i] == s.sealed[i];
    }
  }

  lemma SameBoxIsGenuine(aead: Aead.Provider, s: System, i: nat, k: nat, m: KeyMaterial, generation: u64)
    requires aead.Sound() && Inv(aead, s, m, generation) && i < |s.sealed| && k < |s.returned|
    requires OpenedRight(aead, s.returned[k]) && SameBox(s.sealed[i], s.returned[k])
    ensures Genuine(s, s.sealed[i], s.returned[k], m, generation)
  {
    var x, y := s.sealed[i], s.returned[k];
    hide PartyRight, KeyOf, Known, Coincide, Record.HeaderBytes, Hash.Collision, Transcripts.Frame, KeyMaterial.SizesRight;
    SealedFacts(aead, s, i, m, generation);
    assert SealedRight(aead, x, s.At(x.sender), m, generation);
    SamePlaintext(aead, x, y);
    hide SealedRight;
    ReturnedKnown(s, y, m, generation);
    var a, b := MergedAad(x.cfg, x.associatedData).value, MergedAad(y.cfg, y.associatedData).value;
    EqualKeys(aead, s, SealedKey(x), ReturnedKey(y), m, generation);
    hide MergedAad;
    Record.AadBinds(x.frame.header, a, y.frame.header, b);
    if !TranscriptsCollide(x, y) {
      MergedAadInjective(x.cfg, x.associatedData, y.cfg, y.associatedData);
    }
  }

  lemma ReturnedKnown(s: System, y: Returned, m: KeyMaterial, generation: u64)
    requires ReturnedRight(y, s.At(y.receiver), m, generation)
    ensures Known(s, ReturnedKey(y), generation) && KeyOf(s, ReturnedKey(y), m, generation) == y.Key()
  {}

  /** One box opens to one plaintext. */
  lemma SamePlaintext(aead: Aead.Provider, x: Sealed, y: Returned)
    requires aead.Sound() && OpenedRight(aead, y) && SameBox(x, y)
    requires Record.Seal(aead, x.cfg.algorithm, x.material, x.sender, x.contentType, x.sequence, x.plaintext,
                         MergedAad(x.cfg, x.associatedData).value) == Ok(x.frame)
    ensures y.frame.header.role == x.sender ==> x.plaintext == y.record.plaintext
    ensures Record.AadFor(x.frame.header, MergedAad(x.cfg, x.associatedData).value).Ok?
  {
    hide MergedAad, Record.AadFor, Record.SequenceNonce;
  }

  /** Some sealed frame is the source of the record. */
  ghost predicate Sourced(s: System, y: Returned, m: KeyMaterial, generation: u64) {
    exists i :: 0 <= i < |s.sealed| && Genuine(s, s.sealed[i], y, m, generation)
  }

  lemma AllGenuine(aead: Aead.Provider, s: System, m: KeyMaterial, generation: u64)
    requires aead.Sound() && Inv(aead, s, m, generation) && Traced(aead, s)
    ensures forall k | 0 <= k < |s.returned| :: Sourced(s, s.returned[k], m, generation)
  {
    hide Inv, OpenedRight, SameBox, Genuine;
    forall k | 0 <= k < |s.returned|
      ensures Sourced(s, s.returned[k], m, generation)
    {
      assert OpenedRight(aead, s.returned[k]);
      var i :| 0 <= i < |s.sealed| && SameBox(s.sealed[i], s.returned[k]);
      SameBoxIsGenuine(aead, s, i, k, m, generation);
    }
  }

  /** Against a network that drops, repeats, reorders and injects at will, whatever keys the caller chose: every record
      `open` returns was sealed by the peer with the same content, and no (generation, sequence) is returned twice. */
  lemma OpenedForAnyKeys(aead: Aead.Provider, m: KeyMaterial, generation: u64, actions: seq<Action>)
    requires aead.Sound() && m.SizesRight() && UnforgedRun(aead, Start(m, generation), actions)
    ensures var s := Run(aead, Start(m, generation), actions);
            && Inv(aead, s, m, generation)
            && (forall k | 0 <= k < |s.returned| :: Sourced(s, s.returned[k], m, generation))
            && ReturnedOnce(s)
  {
    hide Step, Run, Start, SealedRight, ReturnedRight, PartyRight, OpenedRight, SameBox, Sourced, UnforgedRun, KeyMaterial.SizesRight;
    RunKeeps(aead, m, generation, actions);
    RunTraced(aead, m, generation, actions);
    var s := Run(aead, Start(m, generation), actions);
    AllGenuine(aead, s, m, generation);
    hide Traced;
    forall j, k | 0 <= j < k < |s.returned| && s.returned[j].receiver == s.returned[k].receiver
      ensures s.returned[j].generation != s.returned[k].generation || s.returned[j].record.sequence != s.returned[k].record.sequence
    {}
  }

  /** No party returned the same (generation, sequence) twice. */
  ghost predicate ReturnedOnce(s: System) {
    forall j, k | 0 <= j < k < |s.returned| && s.returned[j].receiver == s.returned[k].receiver ::
      s.returned[j].generation != s.returned[k].generation || s.returned[j].record.sequence != s.returned[k].record.sequence
  }

  ghost predicate SourcedDerived(s: System, y: Returned, secret: Bytes, hello: Hello, generation: u64) {
    exists i :: 0 <= i < |s.sealed| && GenuineDerived(s, s.sealed[i], y, secret, hello, generation)
  }

  lemma SourceExplained(aead: Aead.Provider, s: System, y: Returned, secret: Bytes, hello: Hello, m: KeyMaterial, generation: u64)
    requires Inv(aead, s, m, generation) && DeriveKeys(secret, hello) == Ok(m) && Sourced(s, y, m, generation)
    ensures SourcedDerived(s, y, secret, hello, generation)
  {
    hide Inv, DeriveKeys, TranscriptsCollide, SameContent, Coincide, Explained, Known;
    var i :| 0 <= i < |s.sealed| && Genuine(s, s.sealed[i], y, m, generation);
    var x := s.sealed[i];
    if !TranscriptsCollide(x, y) && x.generation != y.generation {
      CoincideExplained(aead, s, SealedKey(x), ReturnedKey(y), secret, hello, m, generation);
    }
    assert GenuineDerived(s, x, y, secret, hello, generation);
  }

  /** Against a network that drops, repeats, reorders and injects at will, for endpoints whose first material was derived
      from a handshake secret: every record `open` returns was sealed by the peer with the same content and in the same
      generation, unless SHA-256 collides or a key update made the handshake secret over again; and no sealed frame is
      returned twice, across window resets and all. */
  lemma OpenedWasSealedOnce(aead: Aead.Provider, secret: Bytes, hello: Hello, m: KeyMaterial, generation: u64, actions: seq<Action>)
    requires aead.Sound() && DeriveKeys(secret, hello) == Ok(m) && UnforgedRun(aead, Start(m, generation), actions)
    ensures var s := Run(aead, Start(m, generation), actions);
            && (forall k | 0 <= k < |s.returned| :: SourcedDerived(s, s.returned[k], secret, hello, generation))
            && ReturnedOnce(s)
  {
    hide Step, Run, Start, Inv, Sourced, SourcedDerived, UnforgedRun, KeyMaterial.SizesRight, ReturnedOnce;
    OpenedForAnyKeys(aead, m, generation, actions);
    var s := Run(aead, Start(m, generation), actions);
    forall k | 0 <= k < |s.returned|
      ensures SourcedDerived(s, s.returned[k], secret, hello, generation)
    {
      SourceExplained(aead, s, s.returned[k], secret, hello, m, generation);
    }
  }
}
