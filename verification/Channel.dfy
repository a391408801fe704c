/** One end of an encrypted channel: sealing, replay-checked opening, alerts and key updates (src/protocol/channel.cpp).
    The step functions say what each operation does to a snapshot of the state; the methods of `ChannelState` do it in
    place. */
module Channel {
  import opened Core
  import opened Codec
  import opened Session
  import opened Replay
  import Hash
  import Record
  import Aead

  datatype Config = Config(algorithm: Aead.Algorithm, rekeyInterval: u64, associatedContext: Bytes)

  datatype Received = Received(contentType: u8, sender: Role, sequence: u64, plaintext: Bytes)

  /** A snapshot of `ChannelState`. */
  datatype Endpoint = Endpoint(
    material: KeyMaterial, role: Role, sendSequence: u64, generation: u64, window: Window, closed: bool)

  function Peer(role: Role): Role {
    if role.Client? then Server else Client
  }

  /** `merged_aad`: the configured context and the caller's data, each length-prefixed. */
  function MergedAad(cfg: Config, associatedData: Bytes): Result<Bytes> {
    if |cfg.associatedContext| > 0xffff_ffff || |associatedData| > 0xffff_ffff then Err(InvalidArgument)
    else Ok(PutBlobs([cfg.associatedContext, associatedData]))
  }

  lemma MergedAadInjective(c: Config, a: Bytes, d: Config, b: Bytes)
    requires MergedAad(c, a).Ok? && MergedAad(c, a) == MergedAad(d, b)
    ensures c.associatedContext == d.associatedContext && a == b
  {
    var x, y := [c.associatedContext, a], [d.associatedContext, b];
    PutBlobsInjective(x, y);
    assert x[0] == y[0] && x[1] == y[1];
  }

  function Make(material: KeyMaterial, role: Role, generation: u64): Result<Endpoint> {
    if !material.SizesRight() then Err(InvalidKey)
    else Ok(Endpoint(material, role, 0, generation, EMPTY, false))
  }

  /** The frame `seal` would send next. */
  function SealFrame(aead: Aead.Provider, e: Endpoint, cfg: Config, contentType: u8, plaintext: Bytes, associatedData: Bytes)
    : Result<Record.Frame>
  {
    if e.closed || e.sendSequence > Record.MAX_SEQUENCE then Err(InvalidArgument) else
    var aad :- MergedAad(cfg, associatedData);
    Record.Seal(aead, cfg.algorithm, e.material, e.role, contentType, e.sendSequence, plaintext, aad)
  }

  function SealStep(aead: Aead.Provider, e: Endpoint, cfg: Config, contentType: u8, plaintext: Bytes, associatedData: Bytes)
    : (Result<Bytes>, Endpoint)
  {
    match SealFrame(aead, e, cfg, contentType, plaintext, associatedData)
    case Err(error) => (Err(error), e)
    case Ok(frame) =>
      match Record.EncodeFrame(frame)
      case Err(error) => (Err(error), e)
      case Ok(bytes) => (Ok(bytes), e.(sendSequence := (e.sendSequence + 1) % TWO_TO_THE_64))
  }

  function IsCloseNotify(r: Received): bool {
    r.contentType == Record.ALERT && |r.plaintext| == 1 && r.plaintext[0] == Record.CLOSE_NOTIFY
  }

  /** What `open` makes of a frame, before it touches the state. */
  function OpenFrame(aead: Aead.Provider, e: Endpoint, cfg: Config, bytes: Bytes, associatedData: Bytes): Result<Received> {
    if e.closed then Err(InvalidArgument) else
    var frame :- Record.DecodeFrame(bytes);
    if frame.header.role != Peer(e.role) then Err(InvalidFormat) else
    var _ :- Check(e.window, frame.header.sequence);
    var aad :- MergedAad(cfg, associatedData);
    var plaintext :- Record.Open(aead, cfg.algorithm, e.material, frame, aad);
    Ok(Received(frame.header.contentType, frame.header.role, frame.header.sequence, plaintext))
  }

  lemma OpenedIsNew(aead: Aead.Provider, e: Endpoint, cfg: Config, bytes: Bytes, associatedData: Bytes)
    requires OpenFrame(aead, e, cfg, bytes, associatedData).Ok?
    ensures var r := OpenFrame(aead, e, cfg, bytes, associatedData).value; r.sender == Peer(e.role) && Check(e.window, r.sequence).Ok?
  {
    hide Record.DecodeFrame, Record.Open, MergedAad;
  }

  /** A failed open leaves the endpoint as it was. */
  function OpenStep(aead: Aead.Provider, e: Endpoint, cfg: Config, bytes: Bytes, associatedData: Bytes)
    : (Result<Received>, Endpoint)
  {
    match OpenFrame(aead, e, cfg, bytes, associatedData)
    case Err(error) => (Err(error), e)
    case Ok(r) =>
      OpenedIsNew(aead, e, cfg, bytes, associatedData);
      (Ok(r), e.(window := Admit(e.window, r.sequence), closed := IsCloseNotify(r)))
  }

  function AlertStep(aead: Aead.Provider, e: Endpoint, cfg: Config, code: u8, associatedData: Bytes): (Result<Bytes>, Endpoint) {
    var (r, after) := SealStep(aead, e, cfg, Record.ALERT, [code], associatedData);
    (r, if r.Ok? && code == Record.CLOSE_NOTIFY then after.(closed := true) else after)
  }

  function NextGeneration(generation: u64): u64 {
    (generation + 1) % TWO_TO_THE_64
  }

  function UpdatePayload(m: KeyMaterial, hello: Hello, generation: u64, context: Bytes): Result<Bytes> {
    var tag :- KeyUpdateTag(m, hello, generation, context);
    Ok(Be(generation, 8) + tag)
  }

  /** The update frame goes out under the old keys; only then may deriving the new ones fail, and in that case the
      sequence number is spent all the same. */
  function UpdateStep(aead: Aead.Provider, e: Endpoint, cfg: Config, hello: Hello, context: Bytes, associatedData: Bytes)
    : (Result<Bytes>, Endpoint)
  {
    var next := NextGeneration(e.generation);
    if e.closed || next == 0 then (Err(InvalidArgument), e) else
    match UpdatePayload(e.material, hello, next, context)
    case Err(error) => (Err(error), e)
    case Ok(payload) =>
      var (sealed, after) := SealStep(aead, e, cfg, Record.KEY_UPDATE, payload, associatedData);
      if sealed.Err? then (sealed, after) else
      match UpdateKeys(e.material, hello, next, context)
      case Err(error) => (Err(error), after)
      case Ok(m) => (sealed, after.(material := m, generation := next, sendSequence := 0))
  }

  /** What `apply_key_update` checks before it changes anything: the new key material. */
  function AppliedKeys(e: Endpoint, r: Received, hello: Hello, context: Bytes): (k: Result<KeyMaterial>)
    ensures k.Ok? ==> NextGeneration(e.generation) != 0 && UpdateKeys(e.material, hello, NextGeneration(e.generation), context) == k
  {
    if r.contentType != Record.KEY_UPDATE || |r.plaintext| != 8 + CONFIRMATION_BYTES then Err(InvalidFormat)
    else if FromBe(r.plaintext[..8]) != NextGeneration(e.generation) then Err(InvalidArgument)
    else
      var expected :- KeyUpdateTag(e.material, hello, NextGeneration(e.generation), context);
      if expected != r.plaintext[8..] then Err(AuthenticationFailed)
      else UpdateKeys(e.material, hello, NextGeneration(e.generation), context)
  }

  function ApplyStep(e: Endpoint, r: Received, hello: Hello, context: Bytes): (Result<Unit>, Endpoint) {
    match AppliedKeys(e, r, hello, context)
    case Err(error) => (Err(error), e)
    case Ok(m) => (Ok(Unit), e.(material := m, generation := NextGeneration(e.generation), window := EMPTY))
  }

  class ChannelState {
    var material: KeyMaterial
    const role: Role
    var sendSequence: u64
    var generation: u64
    const window: ReplayWindow
    var closed: bool

    ghost predicate Valid()
      reads this, window
    {
      window.Valid()
    }

    ghost function View(): Endpoint
      reads this, window
    {
      Endpoint(material, role, sendSequence, generation, window.View(), closed)
    }

    constructor (material: KeyMaterial, role: Role, generation: u64)
      ensures Valid() && fresh(window) && window.accepted == {}
      ensures View() == Endpoint(material, role, 0, generation, EMPTY, false)
    {
      this.material, this.role, this.generation := material, role, generation;
      sendSequence, closed := 0, false;
      window := new ReplayWindow();
    }

    /** `make_channel`. */
    static method Create(material: KeyMaterial, role: Role, generation: u64) returns (r: Result<ChannelState>)
      ensures r.Ok? <==> Make(material, role, generation).Ok?
      ensures r.Err? ==> r.error == Make(material, role, generation).error
      ensures r.Ok? ==> fresh(r.value) && fresh(r.value.window) && r.value.Valid()
      ensures r.Ok? ==> r.value.View() == Make(material, role, generation).value
    {
      if !material.SizesRight() {
        return Err(InvalidKey);
      }
      var state := new ChannelState(material, role, generation);
      r := Ok(state);
    }

    method Seal(aead: Aead.Provider, cfg: Config, contentType: u8, plaintext: Bytes, associatedData: Bytes)
      returns (r: Result<Bytes>)
      requires Valid()
      modifies this`sendSequence
      ensures Valid() && (r, View()) == SealStep(aead, old(View()), cfg, contentType, plaintext, associatedData)
    {
      hide Record.Seal, Record.EncodeFrame, MergedAad, Tracks;
      if closed || sendSequence > Record.MAX_SEQUENCE {
        return Err(InvalidArgument);
      }
      var aad := MergedAad(cfg, associatedData);
      if aad.Err? {
        return Err(aad.error);
      }
      var frame := Record.Seal(aead, cfg.algorithm, material, role, contentType, sendSequence, plaintext, aad.value);
      if frame.Err? {
        return Err(frame.error);
      }
      r := Record.WriteFrame(frame.value);
      if r.Ok? {
        sendSequence := (sendSequence + 1) % TWO_TO_THE_64;
      }
    }

    method Open(aead: Aead.Provider, cfg: Config, bytes: Bytes, associatedData: Bytes) returns (r: Result<Received>)
      requires Valid()
      modifies this`closed, window
      ensures Valid() && (r, View()) == OpenStep(aead, old(View()), cfg, bytes, associatedData)
      ensures r.Ok? ==> r.value.sequence !in old(window.accepted) && window.accepted == old(window.accepted) + {r.value.sequence}
      ensures r.Err? ==> window.accepted == old(window.accepted)
    {
      hide Record.DecodeFrame, Record.Open, MergedAad, Tracks, Check, Admit;
      if closed {
        return Err(InvalidArgument);
      }
      var frame := Record.DecodeFrame(bytes);
      if frame.Err? {
        return Err(frame.error);
      }
      var header := frame.value.header;
      if header.role != Peer(role) {
        return Err(InvalidFormat);
      }
      var check := Check(window.View(), header.sequence);
      if check.Err? {
        return Err(check.error);
      }
      var aad := MergedAad(cfg, associatedData);
      if aad.Err? {
        return Err(aad.error);
      }
      var plaintext := Record.Open(aead, cfg.algorithm, material, frame.value, aad.value);
      if plaintext.Err? {
        return Err(plaintext.error);
      }
      var accepted := window.Accept(header.sequence);
      assert accepted.Ok?;
      var out := Received(header.contentType, header.role, header.sequence, plaintext.value);
      if IsCloseNotify(out) {
        closed := true;
      }
      r := Ok(out);
    }

    method SealAlert(aead: Aead.Provider, cfg: Config, code: u8, associatedData: Bytes) returns (r: Result<Bytes>)
      requires Valid()
      modifies this`sendSequence, this`closed
      ensures Valid() && (r, View()) == AlertStep(aead, old(View()), cfg, code, associatedData)
    {
      hide SealStep, Tracks;
      r := Seal(aead, cfg, Record.ALERT, [code], associatedData);
      if r.Ok? && code == Record.CLOSE_NOTIFY {
        closed := true;
      }
    }

    method SealKeyUpdate(aead: Aead.Provider, cfg: Config, hello: Hello, context: Bytes, associatedData: Bytes)
      returns (r: Result<Bytes>)
      requires Valid()
      modifies this`sendSequence, this`material, this`generation
      ensures Valid() && (r, View()) == UpdateStep(aead, old(View()), cfg, hello, context, associatedData)
    {
      hide SealStep, UpdateKeys, UpdatePayload, Tracks;
      if closed {
        return Err(InvalidArgument);
      }
      var next := NextGeneration(generation);
      if next == 0 {
        return Err(InvalidArgument);
      }
      var payload := UpdatePayload(material, hello, next, context);
      if payload.Err? {
        return Err(payload.error);
      }
      r := Seal(aead, cfg, Record.KEY_UPDATE, payload.value, associatedData);
      if r.Err? {
        return;
      }
      var updated := UpdateKeys(material, hello, next, context);
      if updated.Err? {
        return Err(updated.error);
      }
      material := updated.value;
      generation := next;
      sendSequence := 0;
    }

    method ApplyKeyUpdate(record: Received, hello: Hello, context: Bytes) returns (r: Result<Unit>)
      requires Valid()
      modifies this`material, this`generation, window
      ensures Valid() && (r, View()) == ApplyStep(old(View()), record, hello, context)
      ensures window.accepted == if r.Ok? then {} else old(window.accepted)
    {
      hide UpdateKeys, KeyUpdateTag, FromBe, Tracks;
      if record.contentType != Record.KEY_UPDATE || |record.plaintext| != 8 + CONFIRMATION_BYTES {
        return Err(InvalidFormat);
      }
      var next := FromBe(record.plaintext[..8]);
      if next != NextGeneration(generation) {
        return Err(InvalidArgument);
      }
      var expected := KeyUpdateTag(material, hello, next, context);
      if expected.Err? {
        return Err(expected.error);
      }
      if expected.value != record.plaintext[8..] {
        return Err(AuthenticationFailed);
      }
      var updated := UpdateKeys(material, hello, next, context);
      if updated.Err? {
        return Err(updated.error);
      }
      material := updated.value;
      generation := next;
      window.Reset();
      r := Ok(Unit);
    }

    method Close()
      requires Valid()
      modifies this`closed
      ensures Valid() && View() == old(View()).(closed := true)
    {
      closed := true;
    }
  }
}
