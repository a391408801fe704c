/** Two endpoints over first-in first-out links that lose nothing. If an endpoint starts a key update only when
    nothing from its peer is on the way, and the peer sends nothing while an update is on its way to it, then every
    frame opens to what was sent, through any number of updates from either side. And if not, then a frame that crosses
    an update is refused: the update has switched key and base nonce of both directions under it. */
module ChannelDelivery {
  import opened Core
  import opened Codec
  import opened Session
  import opened Replay
  import opened Channel
  import Record
  import Aead

  /** A frame on its way, with what the receiver should get out of it. */
  datatype Flight = Flight(bytes: Bytes, cfg: Config, associatedData: Bytes, record: Received, update: Option<(Hello, Bytes)>)

  /** What a receive returned, and what it should have returned. */
  datatype Delivery = Delivery(expected: Received, got: Result<Received>, applied: Result<Unit>)

  datatype Net = Net(client: Endpoint, server: Endpoint, toServer: seq<Flight>, toClient: seq<Flight>, log: seq<Delivery>) {
    function At(role: Role): Endpoint { if role.Client? then client else server }

    /** The link towards `role`. */
    function Inbox(role: Role): seq<Flight> { if role.Client? then toClient else toServer }

    function With(role: Role, e: Endpoint): Net {
      if role.Client? then this.(client := e) else this.(server := e)
    }

    function Deliver(role: Role, q: seq<Flight>): Net {
      if role.Client? then this.(toClient := q) else this.(toServer := q)
    }
  }

  datatype Action =
    | Send(who: Role, cfg: Config, contentType: u8, plaintext: Bytes, associatedData: Bytes)
    | Alert(who: Role, cfg: Config, code: u8, associatedData: Bytes)
    | Rekey(who: Role, cfg: Config, hello: Hello, context: Bytes, associatedData: Bytes)
    | Receive(who: Role)
    | CloseNow(who: Role)

  predicate HasUpdate(q: seq<Flight>) {
    exists f :: f in q && f.update.Some?
  }

  /** The action puts a frame on the way. */
  predicate Releases(aead: Aead.Provider, s: Net, a: Action) {
    match a
    case Send(who, cfg, contentType, plaintext, ad) => SealStep(aead, s.At(who), cfg, contentType, plaintext, ad).0.Ok?
    case Alert(who, cfg, code, ad) => AlertStep(aead, s.At(who), cfg, code, ad).0.Ok?
    case Rekey(who, cfg, hello, context, ad) => UpdateStep(aead, s.At(who), cfg, hello, context, ad).0.Ok?
    case Receive(_) => false
    case CloseNow(_) => false
  }

  /** The discipline, and that a closed endpoint stops reading. */
  predicate Allowed(aead: Aead.Provider, s: Net, a: Action) {
    match a
    case Send(who, _, _, _, _) => Releases(aead, s, a) ==> !HasUpdate(s.Inbox(who))
    case Alert(who, _, _, _) => Releases(aead, s, a) ==> !HasUpdate(s.Inbox(who))
    case Rekey(who, _, _, _, _) => Releases(aead, s, a) ==> s.Inbox(who) == []
    case Receive(who) => s.Inbox(who) != [] ==> !s.At(who).closed
    case CloseNow(_) => true
  }

  function Post(s: Net, who: Role, after: Endpoint, r: Result<Bytes>, cfg: Config, ad: Bytes, record: Received, update: Option<(Hello, Bytes)>): Net {
    var t := s.With(who, after);
    if r.Err? then t else t.Deliver(Peer(who), s.Inbox(Peer(who)) + [Flight(r.value, cfg, ad, record, update)])
  }

  function Step(aead: Aead.Provider, s: Net, a: Action): Net {
    var e := s.At(a.who);
    match a
    case Send(who, cfg, contentType, plaintext, ad) =>
      var (r, after) := SealStep(aead, e, cfg, contentType, plaintext, ad);
      Post(s, who, after, r, cfg, ad, Received(contentType, who, e.sendSequence, plaintext), None)
    case Alert(who, cfg, code, ad) =>
      var (r, after) := AlertStep(aead, e, cfg, code, ad);
      Post(s, who, after, r, cfg, ad, Received(Record.ALERT, who, e.sendSequence, [code]), None)
    case Rekey(who, cfg, hello, context, ad) =>
      var (r, after) := UpdateStep(aead, e, cfg, hello, context, ad);
      var payload := UpdatePayload(e.material, hello, NextGeneration(e.generation), context);
      if payload.Err? then s.With(who, after) else
      Post(s, who, after, r, cfg, ad, Received(Record.KEY_UPDATE, who, e.sendSequence, payload.value), Some((hello, context)))
    case Receive(who) =>
      if s.Inbox(who) == [] then s else
      var f := s.Inbox(who)[0];
      var (got, reader) := OpenStep(aead, e, f.cfg, f.bytes, f.associatedData);
      var (applied, after) := if got.Ok? && f.update.Some?
        then ApplyStep(reader, got.value, f.update.value.0, f.update.value.1) else (Ok(Unit), reader);
      s.With(who, after).Deliver(who, s.Inbox(who)[1..]).(log := s.log + [Delivery(f.record, got, applied)])
    case CloseNow(who) => s.With(who, e.(closed := true))
  }

  /** A run of allowed actions. */
  ghost predicate Disciplined(aead: Aead.Provider, s: Net, actions: seq<Action>)
    decreases |actions|
  {
    actions == [] || (Allowed(aead, s, actions[0]) && Disciplined(aead, Step(aead, s, actions[0]), actions[1..]))
  }

  function Run(aead: Aead.Provider, s: Net, actions: seq<Action>): Net
    decreases |actions|
  {
    if actions == [] then s else Run(aead, Step(aead, s, actions[0]), actions[1..])
  }

  function Start(m: KeyMaterial, generation: u64): Net
    requires m.SizesRight()
  {
    Net(Make(m, Client, generation).value, Make(m, Server, generation).value, [], [], [])
  }

  // ---- The invariant ----

  /** The next sequence a window waits for is `s`: 0 when it is empty, one above its highest otherwise. */
  predicate NextIs(w: Window, s: nat) {
    if w.initialized then s == w.highest + 1 else s == 0
  }

  /** The frame is the one its record describes, sealed by `sender` under `m`. */
  ghost predicate FlightRight(aead: Aead.Provider, f: Flight, m: KeyMaterial, sender: Role) {
    && f.record.sender == sender
    && MergedAad(f.cfg, f.associatedData).Ok?
    && var frame := Record.Seal(aead, f.cfg.algorithm, m, sender, f.record.contentType, f.record.sequence, f.record.plaintext,
                                MergedAad(f.cfg, f.associatedData).value);
       frame.Ok? && Record.EncodeFrame(frame.value) == Ok(f.bytes)
  }

  /** The frame announces the update from `m` to the next generation, and the update works. */
  ghost predicate UpdateRight(f: Flight, m: KeyMaterial, generation: nat) {
    && f.update.Some? && generation < 0xffff_ffff_ffff_ffff && f.record.contentType == Record.KEY_UPDATE
    && UpdatePayload(m, f.update.value.0, generation + 1, f.update.value.1) == Ok(f.record.plaintext)
    && UpdateKeys(m, f.update.value.0, generation + 1, f.update.value.1).Ok?
  }

  function Updated(f: Flight, m: KeyMaterial, generation: nat): KeyMaterial
    requires UpdateRight(f, m, generation)
  {
    UpdateKeys(m, f.update.value.0, generation + 1, f.update.value.1).value
  }

  /** A receiver with material `m` and window `w` that reads the whole queue opens every frame of it, and ends in step
      with the sender. */
  ghost predicate Flow(aead: Aead.Provider, q: seq<Flight>, m: KeyMaterial, generation: nat, w: Window, sender: Endpoint) {
    if q == [] then
      m == sender.material && generation == sender.generation && NextIs(w, sender.sendSequence)
    else
      var f := q[0];
      && FlightRight(aead, f, m, sender.role) && NextIs(w, f.record.sequence)
      && if f.update.None? then Flow(aead, q[1..], m, generation, Admitted(w, f.record.sequence), sender)
         else UpdateRight(f, m, generation) &&
              Flow(aead, q[1..], Updated(f, m, generation), generation + 1, EMPTY, sender)
  }

  function Admitted(w: Window, s: u64): Window
    requires NextIs(w, s)
  {
    Admit(w, s)
  }

  ghost predicate Healthy(e: Endpoint, role: Role) {
    e.role == role && e.material.SizesRight() && |e.material.exporterSecret| == KEY_BYTES && e.sendSequence <= Record.MAX_SEQUENCE + 1
  }

  /** Either `role` has an update on its way to the peer, and then nothing is on its way back, or the frames on their
      way to `role` flow. */
  ghost predicate LinkRight(aead: Aead.Provider, s: Net, role: Role) {
    var e, peer := s.At(role), s.At(Peer(role));
    if HasUpdate(s.Inbox(Peer(role))) then s.Inbox(role) == [] && NextIs(e.window, peer.sendSequence)
    else Flow(aead, s.Inbox(role), e.material, e.generation, e.window, peer)
  }

  ghost predicate Inv(aead: Aead.Provider, s: Net) {
    && Healthy(s.client, Client) && Healthy(s.server, Server)
    && LinkRight(aead, s, Client) && LinkRight(aead, s, Server)
    && forall d | d in s.log :: d.got == Ok(d.expected) && d.applied.Ok?
  }

  lemma {:induction false} FlowSnoc(aead: Aead.Provider, q: seq<Flight>, m: KeyMaterial, generation: nat, w: Window,
                                    before: Endpoint, f: Flight, after: Endpoint)
    requires Flow(aead, q, m, generation, w, before) && before.role == after.role
    requires FlightRight(aead, f, before.material, before.role) && f.record.sequence == before.sendSequence
    requires f.update.None? ==>
               after.material == before.material && after.generation == before.generation &&
               after.sendSequence == before.sendSequence + 1
    requires f.update.Some? ==>
               UpdateRight(f, before.material, before.generation) && after.generation == before.generation + 1 &&
               after.material == Updated(f, before.material, before.generation) && after.sendSequence == 0
    ensures Flow(aead, q + [f], m, generation, w, after)
  {
    hide FlightRight, UpdateRight, Updated, Admit, Check;
    if q == [] {
      assert (q + [f])[1..] == [];
      AdmittedNext(w, f.record.sequence);
    } else {
      assert (q + [f])[1..] == q[1..] + [f];
      var g := q[0];
      if g.update.None? {
        FlowSnoc(aead, q[1..], m, generation, Admitted(w, g.record.sequence), before, f, after);
      } else {
        FlowSnoc(aead, q[1..], Updated(g, m, generation), generation + 1, EMPTY, before, f, after);
      }
    }
  }

  lemma AdmittedNext(w: Window, s: u64)
    requires NextIs(w, s)
    ensures Check(w, s).Ok? && NextIs(Admitted(w, s), s + 1)
  {}

  /** A queue without updates leaves the receiver's material as it is, so it is the sender's. */
  lemma {:induction false} FlowInStep(aead: Aead.Provider, q: seq<Flight>, m: KeyMaterial, generation: nat, w: Window, sender: Endpoint)
    requires Flow(aead, q, m, generation, w, sender) && !HasUpdate(q)
    ensures m == sender.material && generation == sender.generation
  {
    hide FlightRight, UpdateRight, Updated, Admit;
    if q != [] {
      assert q[0] in q && q[0].update.None?;
      FlowInStep(aead, q[1..], m, generation, Admitted(w, q[0].record.sequence), sender);
    }
  }

  /** And it holds exactly the frames between what the receiver waits for and what the sender sends next. */
  lemma {:induction false} FlowCounts(aead: Aead.Provider, q: seq<Flight>, m: KeyMaterial, generation: nat, w: Window, sender: Endpoint)
    requires Flow(aead, q, m, generation, w, sender) && !HasUpdate(q)
    ensures |q| <= sender.sendSequence && NextIs(w, sender.sendSequence - |q|)
    ensures forall i | 0 <= i < |q| :: q[i].record.sequence == sender.sendSequence - |q| + i
  {
    hide FlightRight, UpdateRight, Updated, Admit, Check;
    if q != [] {
      assert q[0] in q && q[0].update.None?;
      var s := q[0].record.sequence;
      AdmittedNext(w, s);
      var after := Admitted(w, s);
      hide Admitted;
      FlowCounts(aead, q[1..], m, generation, after, sender);
      assert forall i | 1 <= i < |q| :: q[i] == q[1..][i - 1];
    }
  }

  /** Only the sender's role, material, generation and counter matter to the flow. */
  lemma {:induction false} FlowSame(aead: Aead.Provider, q: seq<Flight>, m: KeyMaterial, generation: nat, w: Window,
                                    e: Endpoint, f: Endpoint)
    requires Flow(aead, q, m, generation, w, e)
    requires e.role == f.role && e.material == f.material && e.generation == f.generation && e.sendSequence == f.sendSequence
    ensures Flow(aead, q, m, generation, w, f)
  {
    hide FlightRight, UpdateRight, Updated, Admit;
    if q != [] {
      if q[0].update.None? {
        FlowSame(aead, q[1..], m, generation, Admitted(w, q[0].record.sequence), e, f);
      } else {
        FlowSame(aead, q[1..], Updated(q[0], m, generation), generation + 1, EMPTY, e, f);
      }
    }
  }

  // ---- One step ----

  /** Sealing one frame: it goes out under the current material with the current sequence. */
  lemma SealFlies(aead: Aead.Provider, e: Endpoint, role: Role, cfg: Config, contentType: u8, plaintext: Bytes, ad: Bytes,
                  update: Option<(Hello, Bytes)>)
    requires aead.Sound() && Healthy(e, role)
    ensures var (r, after) := SealStep(aead, e, cfg, contentType, plaintext, ad);
            && (r.Err? ==> after == e)
            && (r.Ok? ==>
                  && after == e.(sendSequence := e.sendSequence + 1)
                  && FlightRight(aead, Flight(r.value, cfg, ad, Received(contentType, role, e.sendSequence, plaintext), update),
                                 e.material, role))
  {
    hide MergedAad, Record.Seal, Record.EncodeFrame;
  }

  /** Appending a flight to the peer's inbox while nothing waits in one's own. */
  lemma PostKeeps(aead: Aead.Provider, s: Net, who: Role, after: Endpoint, f: Flight)
    requires Inv(aead, s) && Healthy(after, who) && !HasUpdate(s.Inbox(who)) && after.window == s.At(who).window
    requires FlightRight(aead, f, s.At(who).material, who) && f.record.sequence == s.At(who).sendSequence
    requires f.update.None? ==>
               after.material == s.At(who).material && after.generation == s.At(who).generation &&
               after.sendSequence == s.At(who).sendSequence + 1
    requires f.update.Some? ==>
               s.Inbox(who) == [] &&
               UpdateRight(f, s.At(who).material, s.At(who).generation) && after.generation == s.At(who).generation + 1 &&
               after.material == Updated(f, s.At(who).material, s.At(who).generation) && after.sendSequence == 0
    ensures Inv(aead, s.With(who, after).Deliver(Peer(who), s.Inbox(Peer(who)) + [f]))
  {
    hide FlightRight, UpdateRight, Updated, Flow, KeyMaterial.SizesRight;
    var peer := s.At(Peer(who));
    var q := s.Inbox(Peer(who));
    var t := s.With(who, after).Deliver(Peer(who), q + [f]);
    assert LinkRight(aead, s, Peer(who)) && LinkRight(aead, s, who);
    FlowSnoc(aead, q, peer.material, peer.generation, peer.window, s.At(who), f, after);
    assert HasUpdate(q + [f]) <==> HasUpdate(q) || f.update.Some? by {
      assert forall g :: g in q + [f] <==> g in q || g == f;
    }
    if f.update.Some? && !HasUpdate(q) {
      EmptyFlow(aead, s.At(who).material, s.At(who).generation, s.At(who).window, peer);
    }
    assert LinkRight(aead, t, Peer(who)) && LinkRight(aead, t, who);
  }

  lemma EmptyFlow(aead: Aead.Provider, m: KeyMaterial, generation: nat, w: Window, sender: Endpoint)
    ensures Flow(aead, [], m, generation, w, sender) <==>
            m == sender.material && generation == sender.generation && NextIs(w, sender.sendSequence)
  {}

  /** Closing an endpoint changes nothing the links depend on. */
  lemma CloseKeeps(aead: Aead.Provider, s: Net, who: Role, closed: bool)
    requires Inv(aead, s)
    ensures Inv(aead, s.With(who, s.At(who).(closed := closed)))
  {
    hide Flow, KeyMaterial.SizesRight;
    var e := s.At(who);
    var t := s.With(who, e.(closed := closed));
    var peer := s.At(Peer(who));
    assert LinkRight(aead, s, Peer(who)) && LinkRight(aead, s, who);
    if !HasUpdate(s.Inbox(who)) {
      FlowSame(aead, s.Inbox(Peer(who)), peer.material, peer.generation, peer.window, e, e.(closed := closed));
    }
    assert LinkRight(aead, t, Peer(who)) && LinkRight(aead, t, who);
  }

  /** The frame a receiver waits for opens to exactly what was sent. */
  lemma FlightOpens(aead: Aead.Provider, e: Endpoint, f: Flight)
    requires aead.Sound() && !e.closed && FlightRight(aead, f, e.material, Peer(e.role)) && NextIs(e.window, f.record.sequence)
    ensures OpenFrame(aead, e, f.cfg, f.bytes, f.associatedData) == Ok(f.record)
  {
    hide Record.Seal, Record.Open, Record.EncodeFrame, Record.DecodeFrame, MergedAad;
    AdmittedNext(e.window, f.record.sequence);
    hide Check;
    var aad := MergedAad(f.cfg, f.associatedData).value;
    var sender := Peer(e.role);
    Record.OpenOfSeal(aead, f.cfg.algorithm, e.material, sender, f.record.contentType, f.record.sequence, f.record.plaintext, aad);
    SealedHeader(aead, f.cfg.algorithm, e.material, sender, f.record.contentType, f.record.sequence, f.record.plaintext, aad);
  }

  lemma SealedHeader(aead: Aead.Provider, alg: Aead.Algorithm, m: KeyMaterial, role: Role, contentType: u8, sequence: u64,
                     plaintext: Bytes, aad: Bytes)
    requires Record.Seal(aead, alg, m, role, contentType, sequence, plaintext, aad).Ok?
    ensures var h := Record.Seal(aead, alg, m, role, contentType, sequence, plaintext, aad).value.header;
            h.contentType == contentType && h.role == role && h.sequence == sequence
  {
    hide Record.AadFor, Record.SequenceNonce;
  }

  /** The update record a receiver opened is accepted, and brings it to the sender's next material. */
  lemma UpdateApplies(e: Endpoint, f: Flight, hello: Hello, context: Bytes, next: KeyMaterial, generation: u64)
    requires UpdateRight(f, e.material, e.generation) && f.update == Some((hello, context))
    requires next == Updated(f, e.material, e.generation) && generation == e.generation + 1
    ensures ApplyStep(e, f.record, hello, context) == (Ok(Unit), e.(material := next, generation := generation, window := EMPTY))
  {
    hide KeyUpdateTag, UpdateKeys, Be;
    Widths();
    FromBeOfBe(e.generation + 1, 8);
    assert f.record.plaintext[..8] == Be(e.generation + 1, 8);
  }

  lemma SendKeeps(aead: Aead.Provider, s: Net, who: Role, cfg: Config, contentType: u8, plaintext: Bytes, ad: Bytes)
    requires aead.Sound() && Inv(aead, s)
    requires SealStep(aead, s.At(who), cfg, contentType, plaintext, ad).0.Ok? ==> !HasUpdate(s.Inbox(who))
    ensures var (r, after) := SealStep(aead, s.At(who), cfg, contentType, plaintext, ad);
            Inv(aead, Post(s, who, after, r, cfg, ad, Received(contentType, who, s.At(who).sendSequence, plaintext), None))
  {
    hide SealStep, LinkRight, FlightRight, KeyMaterial.SizesRight;
    var e := s.At(who);
    var (r, after) := SealStep(aead, e, cfg, contentType, plaintext, ad);
    SealFlies(aead, e, who, cfg, contentType, plaintext, ad, None);
    if r.Ok? {
      var f := Flight(r.value, cfg, ad, Received(contentType, who, e.sendSequence, plaintext), None);
      SequenceBound(aead, e, cfg, contentType, plaintext, ad);
      PostKeeps(aead, s, who, after, f);
    } else {
      assert s.With(who, e) == s;
    }
  }

  lemma SequenceBound(aead: Aead.Provider, e: Endpoint, cfg: Config, contentType: u8, plaintext: Bytes, ad: Bytes)
    requires SealStep(aead, e, cfg, contentType, plaintext, ad).0.Ok?
    ensures e.sendSequence <= Record.MAX_SEQUENCE && !e.closed
  {
    hide Record.Seal, Record.EncodeFrame, MergedAad;
  }

  lemma RekeyKeeps(aead: Aead.Provider, s: Net, a: Action)
    requires aead.Sound() && Inv(aead, s) && a.Rekey? && Allowed(aead, s, a)
    ensures Inv(aead, Step(aead, s, a))
  {
    hide SealStep, LinkRight, FlightRight, KeyMaterial.SizesRight, UpdatePayload, UpdateKeys, AlertStep, OpenStep, ApplyStep, Updated;
    var e := s.At(a.who);
    var next := NextGeneration(e.generation);
    var payload := UpdatePayload(e.material, a.hello, next, a.context);
    assert s.With(a.who, e) == s;
    if !e.closed && next != 0 && payload.Ok? {
      UpdateWorks(e, a.hello, a.context);
      SealFlies(aead, e, a.who, a.cfg, Record.KEY_UPDATE, payload.value, a.associatedData, Some((a.hello, a.context)));
      var (r, sent) := SealStep(aead, e, a.cfg, Record.KEY_UPDATE, payload.value, a.associatedData);
      if r.Ok? {
        var f := Flight(r.value, a.cfg, a.associatedData, Received(Record.KEY_UPDATE, a.who, e.sendSequence, payload.value),
                        Some((a.hello, a.context)));
        var after := UpdateStep(aead, e, a.cfg, a.hello, a.context, a.associatedData).1;
        assert UpdateRight(f, e.material, e.generation);
        UpdatedIs(f, e.material, e.generation);
        PostKeeps(aead, s, a.who, after, f);
      }
    }
  }

  lemma UpdatedIs(f: Flight, m: KeyMaterial, generation: nat)
    requires UpdateRight(f, m, generation)
    ensures Updated(f, m, generation) == UpdateKeys(m, f.update.value.0, generation + 1, f.update.value.1).value
  {}

  lemma UpdateWorks(e: Endpoint, hello: Hello, context: Bytes)
    requires UpdatePayload(e.material, hello, NextGeneration(e.generation), context).Ok?
    requires |e.material.exporterSecret| == KEY_BYTES
    ensures UpdateKeys(e.material, hello, NextGeneration(e.generation), context).Ok?
    ensures e.generation < 0xffff_ffff_ffff_ffff
  {
    hide KeyUpdateTag, UpdateKeys;
    UpdateFollowsTag(e.material, hello, NextGeneration(e.generation), context);
  }

  lemma ReceiveKeeps(aead: Aead.Provider, s: Net, a: Action)
    requires aead.Sound() && Inv(aead, s) && a.Receive? && s.Inbox(a.who) != [] && !s.At(a.who).closed
    ensures Inv(aead, Step(aead, s, a))
  {
    hide OpenFrame, ApplyStep, FlightRight, KeyMaterial.SizesRight, UpdateRight, Updated, Admit, Check, SealStep, AlertStep, UpdateStep;
    var who, e := a.who, s.At(a.who);
    var peer, q := s.At(Peer(a.who)), s.Inbox(a.who);
    var f := q[0];
    assert LinkRight(aead, s, who) && LinkRight(aead, s, Peer(who));
    assert Flow(aead, q, e.material, e.generation, e.window, peer);
    FlightOpens(aead, e, f);
    var reader := OpenStep(aead, e, f.cfg, f.bytes, f.associatedData).1;
    assert reader == e.(window := Admitted(e.window, f.record.sequence), closed := IsCloseNotify(f.record));
    if f.update.Some? {
      UpdatedSizes(f, e.material, e.generation);
      UpdateApplies(reader, f, f.update.value.0, f.update.value.1, Updated(f, e.material, e.generation), e.generation + 1);
    }
    var t := Step(aead, s, a);
    var after := t.At(who);
    assert t.Inbox(who) == q[1..] && t.Inbox(Peer(who)) == s.Inbox(Peer(who)) && t.At(Peer(who)) == peer;
    assert Flow(aead, q[1..], after.material, after.generation, after.window, peer);
    ReceiverLink(aead, s, t, who, f);
  }

  lemma UpdatedSizes(f: Flight, m: KeyMaterial, generation: nat)
    requires UpdateRight(f, m, generation)
    ensures generation < 0xffff_ffff_ffff_ffff
    ensures Updated(f, m, generation).SizesRight() && |Updated(f, m, generation).exporterSecret| == KEY_BYTES
  {
    hide UpdateKeys, UpdatePayload;
  }

  /** Both links after a receive, given that the rest of the inbox flows. */
  lemma ReceiverLink(aead: Aead.Provider, s: Net, t: Net, who: Role, f: Flight)
    requires Inv(aead, s) && s.Inbox(who) != [] && s.Inbox(who)[0] == f
    requires t.Inbox(who) == s.Inbox(who)[1..] && t.Inbox(Peer(who)) == s.Inbox(Peer(who)) && t.At(Peer(who)) == s.At(Peer(who))
    requires t.At(who).role == s.At(who).role && t.At(who).sendSequence == s.At(who).sendSequence
    requires f.update.None? ==> t.At(who).material == s.At(who).material && t.At(who).generation == s.At(who).generation
    requires Flow(aead, t.Inbox(who), t.At(who).material, t.At(who).generation, t.At(who).window, s.At(Peer(who)))
    ensures LinkRight(aead, t, who) && LinkRight(aead, t, Peer(who))
  {
    hide Flow, KeyMaterial.SizesRight;
    var q, peer := s.Inbox(who), s.At(Peer(who));
    assert q == [f] + q[1..];
    assert HasUpdate(q) <==> f.update.Some? || HasUpdate(q[1..]) by {
      assert forall g :: g in q <==> g == f || g in q[1..];
    }
    assert LinkRight(aead, s, who) && LinkRight(aead, s, Peer(who));
    if HasUpdate(q) {
      if !HasUpdate(q[1..]) {
        FlowInStep(aead, q[1..], t.At(who).material, t.At(who).generation, t.At(who).window, peer);
        EmptyFlow(aead, peer.material, peer.generation, peer.window, t.At(who));
      }
    } else {
      FlowSame(aead, s.Inbox(Peer(who)), peer.material, peer.generation, peer.window, s.At(who), t.At(who));
    }
  }

  lemma StepKeeps(aead: Aead.Provider, s: Net, a: Action)
    requires aead.Sound() && Inv(aead, s) && Allowed(aead, s, a)
    ensures Inv(aead, Step(aead, s, a))
  {
    hide SealStep, UpdateStep, OpenStep, ApplyStep, Inv;
    match a
    case Send(who, cfg, contentType, plaintext, ad) => SendKeeps(aead, s, who, cfg, contentType, plaintext, ad);
    case Alert(who, cfg, code, ad) =>
      SendKeeps(aead, s, who, cfg, Record.ALERT, [code], ad);
      var t := Step(aead, s, a);
      var (r, sent) := SealStep(aead, s.At(who), cfg, Record.ALERT, [code], ad);
      var plain := Post(s, who, sent, r, cfg, ad, Received(Record.ALERT, who, s.At(who).sendSequence, [code]), None);
      CloseKeeps(aead, plain, who, t.At(who).closed);
    case Rekey(_, _, _, _, _) => RekeyKeeps(aead, s, a);
    case Receive(who) => if s.Inbox(who) != [] { ReceiveKeeps(aead, s, a); }
    case CloseNow(who) => CloseKeeps(aead, s, who, true);
  }

  lemma {:induction false} RunKeeps(aead: Aead.Provider, s: Net, actions: seq<Action>)
    requires aead.Sound() && Inv(aead, s) && Disciplined(aead, s, actions)
    ensures Inv(aead, Run(aead, s, actions))
    decreases |actions|
  {
    hide Inv, Step, Allowed;
    if actions != [] {
      StepKeeps(aead, s, actions[0]);
      RunKeeps(aead, Step(aead, s, actions[0]), actions[1..]);
    }
  }

  // ---- Without the discipline ----

  /** The endpoint that a violating action keeps from reading its next frame: the peer, when a frame is sent while an
      update waits; the sender itself, when an update is sent while frames wait. */
  function Reader(a: Action): Role {
    if a.Send? || a.Alert? then Peer(a.who) else a.who
  }

  /** The only ways a violation stays unseen: the base nonces before and after the update are the same for the direction
      of the crossing frame, or its reader is closed and never reads it. */
  predicate Excused(aead: Aead.Provider, s: Net, a: Action) {
    match a
    case Send(who, _, _, _, _) => s.At(Peer(who)).closed || s.At(Peer(who)).material.WriteNonce(who) == s.At(who).material.WriteNonce(who)
    case Alert(who, _, _, _) => s.At(Peer(who)).closed || s.At(Peer(who)).material.WriteNonce(who) == s.At(who).material.WriteNonce(who)
    case Rekey(who, _, _, _, _) => Step(aead, s, a).At(who).material.WriteNonce(Peer(who)) == s.At(who).material.WriteNonce(Peer(who))
    case Receive(_) => false
    case CloseNow(_) => false
  }

  /** A frame sealed under other material, with another base nonce, is refused before it is decrypted. */
  lemma StaleRefused(aead: Aead.Provider, e: Endpoint, f: Flight, m: KeyMaterial)
    requires aead.Sound() && m.SizesRight() && e.material.SizesRight() && !e.closed
    requires FlightRight(aead, f, m, Peer(e.role)) && NextIs(e.window, f.record.sequence)
    requires e.material.WriteNonce(Peer(e.role)) != m.WriteNonce(Peer(e.role))
    ensures OpenFrame(aead, e, f.cfg, f.bytes, f.associatedData) == Err(AuthenticationFailed)
  {
    hide Record.EncodeFrame, Record.DecodeFrame, MergedAad, KeyMaterial.SizesRight;
    AdmittedNext(e.window, f.record.sequence);
    hide Check;
    var aad, sender := MergedAad(f.cfg, f.associatedData).value, Peer(e.role);
    var frame := Record.Seal(aead, f.cfg.algorithm, m, sender, f.record.contentType, f.record.sequence, f.record.plaintext, aad).value;
    Record.OpenOfSeal(aead, f.cfg.algorithm, m, sender, f.record.contentType, f.record.sequence, f.record.plaintext, aad);
    StaleNonce(aead, f.cfg.algorithm, e.material, m, sender, f.record, aad);
    hide Record.Seal, Record.Open;
  }

  lemma StaleNonce(aead: Aead.Provider, alg: Aead.Algorithm, held: KeyMaterial, m: KeyMaterial, sender: Role, r: Received, aad: Bytes)
    requires aead.Sound() && m.SizesRight() && held.SizesRight() && held.WriteNonce(sender) != m.WriteNonce(sender)
    requires Record.Seal(aead, alg, m, sender, r.contentType, r.sequence, r.plaintext, aad).Ok?
    ensures var f := Record.Seal(aead, alg, m, sender, r.contentType, r.sequence, r.plaintext, aad).value;
            && Record.Open(aead, alg, held, f, aad) == Err(AuthenticationFailed)
            && f.header.role == sender && f.header.sequence == r.sequence
  {
    Record.SealSucceeds(aead, alg, m, sender, r.contentType, r.sequence, r.plaintext, aad);
    SealedSizes(aead, alg, m, sender, r, aad);
    hide Record.Seal, Record.AadFor, KeyMaterial.SizesRight;
    if Record.SequenceNonce(held.WriteNonce(sender), r.sequence) == Record.SequenceNonce(m.WriteNonce(sender), r.sequence) {
      Record.SequenceNonceKeepsBase(held.WriteNonce(sender), m.WriteNonce(sender), r.sequence);
    }
    NonceExists(held, sender, r.sequence);
    hide Record.SequenceNonce;
  }

  lemma NonceExists(held: KeyMaterial, sender: Role, sequence: u64)
    requires held.SizesRight() && sequence <= Record.MAX_SEQUENCE
    ensures Record.SequenceNonce(held.WriteNonce(sender), sequence).Ok?
  {}

  lemma SealedSizes(aead: Aead.Provider, alg: Aead.Algorithm, m: KeyMaterial, sender: Role, r: Received, aad: Bytes)
    requires aead.Sound() && Record.Seal(aead, alg, m, sender, r.contentType, r.sequence, r.plaintext, aad).Ok?
    ensures var f := Record.Seal(aead, alg, m, sender, r.contentType, r.sequence, r.plaintext, aad).value;
            |f.ciphertext| == f.header.ciphertextLen && |f.tag| == f.header.tagLen && Record.ValidateHeader(f.header).Ok?
  {
    Record.OpenOfSeal(aead, alg, m, sender, r.contentType, r.sequence, r.plaintext, aad);
    hide Record.Seal, Record.Open;
  }

  /** A read of a frame that does not open is logged as such. */
  lemma ReadFails(aead: Aead.Provider, s: Net, who: Role)
    requires s.Inbox(who) != []
    requires var f := s.Inbox(who)[0]; OpenFrame(aead, s.At(who), f.cfg, f.bytes, f.associatedData).Err?
    ensures !Delivered(Step(aead, s, Receive(who)))
  {
    hide OpenFrame, ApplyStep;
    var t := Step(aead, s, Receive(who));
    var d := t.log[|s.log|];
    assert d in t.log && d.got.Err?;
  }

  predicate Delivered(s: Net) {
    forall d | d in s.log :: d.got == Ok(d.expected) && d.applied.Ok?
  }

  /** A frame sent while an update waits for its sender: its peer's next read is that frame, and is refused. */
  lemma SendAcrossUpdate(aead: Aead.Provider, s: Net, a: Action)
    requires aead.Sound() && Inv(aead, s) && (a.Send? || a.Alert?) && Releases(aead, s, a) && HasUpdate(s.Inbox(a.who))
    requires !Excused(aead, s, a)
    ensures var t, reader := Step(aead, s, a), Peer(a.who);
            && |t.Inbox(reader)| == 1 && !t.At(reader).closed
            && OpenFrame(aead, t.At(reader), t.Inbox(reader)[0].cfg, t.Inbox(reader)[0].bytes, t.Inbox(reader)[0].associatedData) ==
                 Err(AuthenticationFailed)
  {
    hide SealStep, OpenFrame, FlightRight, Flow, KeyMaterial.SizesRight;
    var who, e := a.who, s.At(a.who);
    assert LinkRight(aead, s, Peer(who));
    var contentType, plaintext := if a.Send? then a.contentType else Record.ALERT, if a.Send? then a.plaintext else [a.code];
    SealFlies(aead, e, who, a.cfg, contentType, plaintext, a.associatedData, None);
    var t := Step(aead, s, a);
    StaleRefused(aead, t.At(Peer(who)), t.Inbox(Peer(who))[0], e.material);
  }

  /** An update sent while frames wait for its sender: its own next read is refused. */
  lemma RekeyAcrossFrames(aead: Aead.Provider, s: Net, a: Action)
    requires aead.Sound() && Inv(aead, s) && a.Rekey? && Releases(aead, s, a) && s.Inbox(a.who) != [] && !Excused(aead, s, a)
    ensures var t := Step(aead, s, a);
            && t.Inbox(a.who) == s.Inbox(a.who) && !t.At(a.who).closed
            && OpenFrame(aead, t.At(a.who), t.Inbox(a.who)[0].cfg, t.Inbox(a.who)[0].bytes, t.Inbox(a.who)[0].associatedData) ==
                 Err(AuthenticationFailed)
  {
    hide SealStep, OpenFrame, FlightRight, KeyMaterial.SizesRight, UpdateKeys, UpdatePayload;
    var who, e := a.who, s.At(a.who);
    SealFlies(aead, e, who, a.cfg, Record.KEY_UPDATE, UpdatePayload(e.material, a.hello, NextGeneration(e.generation), a.context).value,
              a.associatedData, None);
    assert LinkRight(aead, s, who);
    assert Flow(aead, s.Inbox(who), e.material, e.generation, e.window, s.At(Peer(who)));
    StaleRefused(aead, Step(aead, s, a).At(who), s.Inbox(who)[0], e.material);
  }

  /** Everything read so far was what was sent, and so is the next frame of each endpoint that still reads. */
  predicate ReadsWell(aead: Aead.Provider, s: Net) {
    && Delivered(s)
    && forall role: Role | !s.At(role).closed :: Delivered(Step(aead, s, Receive(role)))
  }

  /** An action outside the discipline, short of the excuses, is followed by a read that fails. */
  lemma ViolationShows(aead: Aead.Provider, s: Net, a: Action)
    requires aead.Sound() && Inv(aead, s) && !Allowed(aead, s, a) && !Excused(aead, s, a)
    ensures !ReadsWell(aead, Step(aead, s, a))
  {
    hide Inv, Step, Releases, OpenFrame, Delivered;
    var t := Step(aead, s, a);
    match a
    case Send(who, _, _, _, _) =>
      SendAcrossUpdate(aead, s, a);
      ReadFails(aead, t, Peer(who));
    case Alert(who, _, _, _) =>
      SendAcrossUpdate(aead, s, a);
      ReadFails(aead, t, Peer(who));
    case Rekey(who, _, _, _, _) =>
      RekeyAcrossFrames(aead, s, a);
      ReadFails(aead, t, who);
    case Receive(who) =>
      ClosedRefuses(aead, s, who);
      ReadFails(aead, s, who);
  }

  lemma ClosedRefuses(aead: Aead.Provider, s: Net, who: Role)
    requires s.Inbox(who) != [] && s.At(who).closed
    ensures var f := s.Inbox(who)[0]; OpenFrame(aead, s.At(who), f.cfg, f.bytes, f.associatedData).Err?
  {}

  lemma InvReadsWell(aead: Aead.Provider, s: Net)
    requires aead.Sound() && Inv(aead, s)
    ensures ReadsWell(aead, s)
  {
    InvDelivered(aead, s);
    forall role: Role | !s.At(role).closed
      ensures Delivered(Step(aead, s, Receive(role)))
    {
      StepKeeps(aead, s, Receive(role));
      InvDelivered(aead, Step(aead, s, Receive(role)));
    }
  }

  lemma InvDelivered(aead: Aead.Provider, s: Net)
    requires Inv(aead, s)
    ensures Delivered(s)
  {
    hide LinkRight, Healthy;
  }

  /** The run reads well in every state it goes through. */
  ghost predicate ReadsOn(aead: Aead.Provider, s: Net, actions: seq<Action>)
    decreases |actions|
  {
    ReadsWell(aead, s) && (actions != [] ==> ReadsOn(aead, Step(aead, s, actions[0]), actions[1..]))
  }

  /** No violation of the run is excused. */
  ghost predicate Unexcused(aead: Aead.Provider, s: Net, actions: seq<Action>)
    decreases |actions|
  {
    actions != [] ==>
      && (!Allowed(aead, s, actions[0]) ==> !Excused(aead, s, actions[0]))
      && Unexcused(aead, Step(aead, s, actions[0]), actions[1..])
  }

  lemma {:induction false} DisciplineSuffices(aead: Aead.Provider, s: Net, actions: seq<Action>)
    requires aead.Sound() && Inv(aead, s) && Disciplined(aead, s, actions)
    ensures ReadsOn(aead, s, actions)
    decreases |actions|
  {
    hide Inv, Step, Allowed, ReadsWell;
    InvReadsWell(aead, s);
    if actions != [] {
      StepKeeps(aead, s, actions[0]);
      DisciplineSuffices(aead, Step(aead, s, actions[0]), actions[1..]);
    }
  }

  lemma {:induction false} DisciplineNeeded(aead: Aead.Provider, s: Net, actions: seq<Action>)
    requires aead.Sound() && Inv(aead, s) && ReadsOn(aead, s, actions) && Unexcused(aead, s, actions)
    ensures Disciplined(aead, s, actions)
    decreases |actions|
  {
    hide Inv, Step, Allowed, ReadsWell, Excused;
    if actions != [] {
      if Allowed(aead, s, actions[0]) {
        StepKeeps(aead, s, actions[0]);
        DisciplineNeeded(aead, Step(aead, s, actions[0]), actions[1..]);
      } else {
        ViolationShows(aead, s, actions[0]);
      }
    }
  }

  /** The read of the only or first frame of an inbox that does not open. */
  lemma ReadIsRefused(aead: Aead.Provider, t: Net, who: Role)
    requires t.Inbox(who) != []
    requires var f := t.Inbox(who)[0]; OpenFrame(aead, t.At(who), f.cfg, f.bytes, f.associatedData) == Err(AuthenticationFailed)
    ensures Step(aead, t, Receive(who)).log == t.log + [Delivery(t.Inbox(who)[0].record, Err(AuthenticationFailed), Ok(Unit))]
  {
    hide OpenFrame, ApplyStep;
  }

  /** The failing inputs. From the start, the client announces an update and the server, which has not read it, sends
      (`late`); or the server sends and the client, which has not read that, announces an update. Either way the server's
      frame is refused, if the update changes the server's base nonce. */
  lemma CrossingFrameIsLost(aead: Aead.Provider, m: KeyMaterial, generation: u64, rekey: Action, send: Action, late: bool)
    requires aead.Sound() && m.SizesRight() && |m.exporterSecret| == KEY_BYTES
    requires rekey.Rekey? && rekey.who == Client && send.Send? && send.who == Server
    requires var mid := Step(aead, Start(m, generation), if late then rekey else send);
             && Releases(aead, Start(m, generation), if late then rekey else send)
             && Releases(aead, mid, if late then send else rekey)
             && Step(aead, mid, if late then send else rekey).client.material.serverWriteNonce != m.serverWriteNonce
    ensures var s := Run(aead, Start(m, generation), if late then [rekey, send, Receive(Client)] else [send, rekey, Receive(Client)]);
            |s.log| == 1 && s.log[0].got == Err(AuthenticationFailed)
  {
    hide Inv, Step, Releases, OpenFrame, KeyMaterial.SizesRight;
    var start := Start(m, generation);
    StartRight(aead, m, generation);
    var first, second := if late then rekey else send, if late then send else rekey;
    FirstIsAllowed(aead, m, generation, first);
    StepKeeps(aead, start, first);
    var mid := Step(aead, start, first);
    if late {
      RekeyPosts(aead, start, rekey);
      SendPosts(aead, mid, send);
      SendAcrossUpdate(aead, mid, send);
    } else {
      SendPosts(aead, start, send);
      RekeyPosts(aead, mid, rekey);
      RekeyAcrossFrames(aead, mid, rekey);
    }
    ReadIsRefused(aead, Step(aead, mid, second), Client);
    RunThree(aead, start, first, second, Receive(Client));
  }

  lemma FirstIsAllowed(aead: Aead.Provider, m: KeyMaterial, generation: u64, a: Action)
    requires m.SizesRight() && (a.Send? || a.Rekey?)
    ensures Allowed(aead, Start(m, generation), a)
  {
    hide Releases, KeyMaterial.SizesRight;
  }

  lemma RekeyPosts(aead: Aead.Provider, s: Net, a: Action)
    requires a.Rekey? && a.who == Client && Releases(aead, s, a)
    ensures var t := Step(aead, s, a);
            HasUpdate(t.toServer) && t.toClient == s.toClient && t.server == s.server && t.log == s.log && !t.client.closed
  {
    hide UpdateKeys, UpdatePayload, Record.Seal, Record.EncodeFrame, MergedAad;
    var t := Step(aead, s, a);
    assert t.toServer[|s.toServer|] in t.toServer;
  }

  lemma SendPosts(aead: Aead.Provider, s: Net, a: Action)
    requires a.Send? && a.who == Server && Releases(aead, s, a)
    ensures var t := Step(aead, s, a);
            && t.toClient != [] && t.toServer == s.toServer && t.client == s.client && t.server.material == s.server.material
            && t.log == s.log
  {
    hide Record.Seal, Record.EncodeFrame, MergedAad;
  }

  lemma RunThree(aead: Aead.Provider, s: Net, a: Action, b: Action, c: Action)
    ensures Run(aead, s, [a, b, c]) == Step(aead, Step(aead, Step(aead, s, a), b), c)
  {
    hide Step;
    var t := Step(aead, s, a);
    assert [a, b, c][1..] == [b, c] && [b, c][1..] == [c] && [c][1..] == [];
    assert Run(aead, t, [b, c]) == Run(aead, Step(aead, t, b), [c]);
    assert Run(aead, Step(aead, t, b), [c]) == Run(aead, Step(aead, Step(aead, t, b), c), []);
  }

  /** Delivery without loss, exactly: over every run, every frame read and every frame about to be read opens to what was
      sent, with every update applied, if and only if the run keeps the discipline; short of a base nonce that an update
      leaves as it was and of frames sent to a closed reader. */
  lemma DeliveryExactly(aead: Aead.Provider, m: KeyMaterial, generation: u64, actions: seq<Action>)
    requires aead.Sound() && m.SizesRight() && |m.exporterSecret| == KEY_BYTES
    requires Unexcused(aead, Start(m, generation), actions)
    ensures ReadsOn(aead, Start(m, generation), actions) <==> Disciplined(aead, Start(m, generation), actions)
  {
    hide Inv, ReadsOn, Disciplined, Unexcused, KeyMaterial.SizesRight;
    StartRight(aead, m, generation);
    if Disciplined(aead, Start(m, generation), actions) {
      DisciplineSuffices(aead, Start(m, generation), actions);
    }
    if ReadsOn(aead, Start(m, generation), actions) {
      DisciplineNeeded(aead, Start(m, generation), actions);
    }
  }

  /** Both ends agree, and so do their counters: each direction's receiver waits for the sequence number of the oldest
      frame on the way to it, or for the sender's next one if there is none. */
  ghost predicate InStep(s: Net) {
    && s.client.material == s.server.material && s.client.generation == s.server.generation
    && |s.toClient| <= s.server.sendSequence && NextIs(s.client.window, s.server.sendSequence - |s.toClient|)
    && |s.toServer| <= s.client.sendSequence && NextIs(s.server.window, s.client.sendSequence - |s.toServer|)
  }

  lemma NoUpdateInStep(aead: Aead.Provider, s: Net)
    requires Inv(aead, s) && !HasUpdate(s.toClient) && !HasUpdate(s.toServer)
    ensures InStep(s)
  {
    hide Flow, FlightRight, KeyMaterial.SizesRight;
    assert LinkRight(aead, s, Client) && LinkRight(aead, s, Server);
    FlowInStep(aead, s.toClient, s.client.material, s.client.generation, s.client.window, s.server);
    FlowCounts(aead, s.toClient, s.client.material, s.client.generation, s.client.window, s.server);
    FlowCounts(aead, s.toServer, s.server.material, s.server.generation, s.server.window, s.client);
  }

  /** Over every disciplined run every frame read opens to what was sent and every update applies; and whenever no
      update is on its way, whatever data frames are, both ends hold the same generation and material, and each
      receiver's window stands exactly as many frames behind its sender's counter as are on the way. */
  lemma EveryFrameOpens(aead: Aead.Provider, m: KeyMaterial, generation: u64, actions: seq<Action>)
    requires aead.Sound() && m.SizesRight() && |m.exporterSecret| == KEY_BYTES
    requires Disciplined(aead, Start(m, generation), actions)
    ensures var s := Run(aead, Start(m, generation), actions);
            && (forall d | d in s.log :: d.got == Ok(d.expected) && d.applied.Ok?)
            && (!HasUpdate(s.toClient) && !HasUpdate(s.toServer) ==> InStep(s))
  {
    hide Step, Run, Disciplined, KeyMaterial.SizesRight, HasUpdate, InStep;
    StartRight(aead, m, generation);
    RunKeeps(aead, Start(m, generation), actions);
    var s := Run(aead, Start(m, generation), actions);
    if !HasUpdate(s.toClient) && !HasUpdate(s.toServer) {
      NoUpdateInStep(aead, s);
    }
  }

  lemma StartRight(aead: Aead.Provider, m: KeyMaterial, generation: u64)
    requires m.SizesRight() && |m.exporterSecret| == KEY_BYTES
    ensures Inv(aead, Start(m, generation))
  {
    hide KeyMaterial.SizesRight;
  }
}
