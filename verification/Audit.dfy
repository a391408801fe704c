/** The audit log: a hash chain over events, and its byte format (src/security/audit.cpp). */
module Audit {
  import opened Core
  import opened Codec
  import opened Hash

  const MAGIC: Bytes := Ascii("AAUDIT1")
  const VERSION: u16 := 1
  const HASH_BYTES: nat := 32
  const GENESIS_TEXT: Bytes := Ascii("AegisCrypt Audit Genesis v1")
  const VAULT_UNLOCKED: u16 := 2

  datatype Event = Event(version: u16, sequence: u64, timestamp: u64, eventType: u16, subject: Bytes, detail: Bytes,
                         previousHash: Bytes, eventHash: Bytes)

  type Log = seq<Event>

  // ---- Hashing ----

  function HashedValues(e: Event): seq<Value> {
    [Num(2, e.version), Num(8, e.sequence), Num(8, e.timestamp), Num(2, e.eventType),
     Octets(e.subject), Octets(e.detail), Octets(e.previousHash)]
  }

  /** `hash_material` without the event's own hash. */
  function HashMaterial(e: Event): Bytes {
    MAGIC + PutAll(HashedValues(e))
  }

  function EventHash(e: Event): (h: Bytes)
    ensures |h| == HASH_BYTES
  {
    Sha256(HashMaterial(e))
  }

  function GenesisHash(): (h: Bytes)
    ensures |h| == HASH_BYTES
  {
    Sha256(GENESIS_TEXT)
  }

  /** The hash that event `i` must name as its predecessor. */
  function HeadAt(log: Log, i: nat): Bytes
    requires i <= |log|
  {
    if i == 0 then GenesisHash() else log[i - 1].eventHash
  }

  function HeadHash(log: Log): Bytes {
    HeadAt(log, |log|)
  }

  /** Event `i` of a log whose earlier events end in `previous`. */
  predicate EventRight(e: Event, i: nat, previous: Bytes) {
    && e.version == VERSION && e.sequence == i
    && e.previousHash == previous && |e.previousHash| == HASH_BYTES
    && e.eventHash == EventHash(e)
  }

  predicate RightAt(log: Log, i: nat) {
    i < |log| && EventRight(log[i], i, HeadAt(log, i))
  }

  /** `verify` as a predicate. */
  predicate Verified(log: Log) {
    forall i | 0 <= i < |log| :: RightAt(log, i)
  }

  function Verify(log: Log): Result<Unit> {
    if Verified(log) then Ok(Unit) else Err(InvalidFormat)
  }

  /** The checks on one event. */
  method CheckEvent(e: Event, i: nat, prev: Bytes) returns (ok: bool)
    requires |prev| == HASH_BYTES
    ensures ok == EventRight(e, i, prev)
    ensures ok ==> |e.eventHash| == HASH_BYTES
  {
    if e.version != VERSION || e.sequence != i || |e.previousHash| != HASH_BYTES || |e.eventHash| != HASH_BYTES {
      return false;
    }
    ok := e.previousHash == prev && e.eventHash == EventHash(e);
  }

  /** `verify` as the loop it is. */
  method VerifyLog(log: Log) returns (r: Result<Unit>)
    ensures r == Verify(log)
  {
    hide EventRight, EventHash, RightAt, HeadAt, GenesisHash;
    HeadSteps(log, 0);
    var prev := GenesisHash();
    for i := 0 to |log|
      invariant prev == HeadAt(log, i) && |prev| == HASH_BYTES
      invariant forall j | 0 <= j < i :: RightAt(log, j)
    {
      HeadSteps(log, i);
      var ok := CheckEvent(log[i], i, prev);
      if !ok {
        return Err(InvalidFormat);
      }
      prev := log[i].eventHash;
    }
    r := Ok(Unit);
  }

  lemma HeadSteps(log: Log, i: nat)
    requires i <= |log|
    ensures HeadAt(log, 0) == GenesisHash()
    ensures i < |log| ==> HeadAt(log, i + 1) == log[i].eventHash && RightAt(log, i) == EventRight(log[i], i, HeadAt(log, i))
  {
    hide EventRight, GenesisHash;
  }

  /** `make_event` and `append`: the clock is an input. */
  function Append(log: Log, now: u64, eventType: u16, subject: Bytes, detail: Bytes): Result<Log> {
    var _ :- Verify(log);
    Ok(log + [NewEvent(log, now, eventType, subject, detail)])
  }

  lemma VerifiedHead(log: Log)
    requires Verified(log)
    ensures |HeadHash(log)| == HASH_BYTES
  {
    if log != [] {
      assert RightAt(log, |log| - 1);
    }
  }

  lemma VerifiedPrefix(log: Log, n: nat)
    requires Verified(log) && n <= |log|
    ensures Verified(log[..n])
  {
    hide EventRight;
    forall i | 0 <= i < n
      ensures RightAt(log[..n], i)
    {
      assert RightAt(log, i);
      assert HeadAt(log[..n], i) == HeadAt(log, i);
    }
  }

  function NewEvent(log: Log, now: u64, eventType: u16, subject: Bytes, detail: Bytes): Event {
    var e := Event(VERSION, |log| % TWO_TO_THE_64, now, eventType, subject, detail, HeadHash(log), []);
    e.(eventHash := EventHash(e))
  }

  /** Appending works exactly on verified logs below 2^64 events, and extends the log by one verified event. */
  lemma AppendExtends(log: Log, now: u64, eventType: u16, subject: Bytes, detail: Bytes)
    requires |log| < TWO_TO_THE_64
    ensures var r := Append(log, now, eventType, subject, detail);
            && (r.Ok? <==> Verified(log))
            && (r.Ok? ==> Verified(r.value) && |r.value| == |log| + 1 && r.value[..|log|] == log)
            && (r.Ok? ==> r.value[|log|].timestamp == now && r.value[|log|].eventType == eventType)
            && (r.Ok? ==> r.value[|log|].subject == subject && r.value[|log|].detail == detail)
  {
    if Verified(log) {
      NewEventRight(log, now, eventType, subject, detail);
      hide Verified, EventRight, EventHash;
      VerifiedSnoc(log, NewEvent(log, now, eventType, subject, detail));
    }
  }

  lemma VerifiedSnoc(log: Log, e: Event)
    requires Verified(log) && EventRight(e, |log|, HeadHash(log))
    ensures Verified(log + [e])
  {
    hide EventRight;
    var longer := log + [e];
    forall i | 0 <= i < |longer|
      ensures RightAt(longer, i)
    {
      assert HeadAt(longer, i) == HeadAt(log, i);
      assert i < |log| ==> RightAt(log, i);
    }
  }

  /** An event's own hash is not part of what is hashed. */
  lemma NewEventRight(log: Log, now: u64, eventType: u16, subject: Bytes, detail: Bytes)
    requires |log| < TWO_TO_THE_64 && Verified(log)
    ensures EventRight(NewEvent(log, now, eventType, subject, detail), |log|, HeadHash(log))
  {
    hide Sha256, PutAll;
    VerifiedHead(log);
  }

  // ---- The head binds the history ----

  /** Lengths that survive the cast to 32 bits. */
  predicate Short(e: Event) {
    |e.subject| < TWO_TO_THE_32 && |e.detail| < TWO_TO_THE_32 && |e.previousHash| < TWO_TO_THE_32
  }

  predicate AllShort(log: Log) {
    forall e | e in log :: Short(e)
  }

  lemma HashedFit(e: Event)
    requires Short(e)
    ensures AllFit(HashedValues(e))
  {
    Widths();
  }

  /** What is hashed determines every field of the event but its own hash. */
  lemma HashMaterialInjective(e: Event, f: Event)
    requires Short(e) && Short(f) && HashMaterial(e) == HashMaterial(f)
    ensures e.(eventHash := []) == f.(eventHash := [])
  {
    HashedFit(e);
    HashedFit(f);
    var x, y := HashedValues(e), HashedValues(f);
    assert PutAll(x) == HashMaterial(e)[|MAGIC|..] == HashMaterial(f)[|MAGIC|..] == PutAll(y);
    assert PutAll(x) + [] == PutAll(x) && PutAll(y) + [] == PutAll(y);
    hide PutAll;
    PutAllInjective(x, [], y, []);
    assert x[0] == y[0] && x[1] == y[1] && x[2] == y[2] && x[3] == y[3] && x[4] == y[4] && x[5] == y[5] && x[6] == y[6];
  }

  lemma GenesisDiffers(e: Event)
    ensures HashMaterial(e) != GENESIS_TEXT
  {
    assert HashMaterial(e)[1] == MAGIC[1] == 'A' as int;
    assert GENESIS_TEXT[1] == 'e' as int;
  }

  /** Two hash inputs of the logs, or one and the genesis text, collide. */
  ghost predicate LogsCollide(a: Log, b: Log) {
    || (exists e, f :: e in a && f in b && Collision(HashMaterial(e), HashMaterial(f)))
    || (exists e :: (e in a || e in b) && Collision(GENESIS_TEXT, HashMaterial(e)))
  }

  /** Two verified logs with one head hash are one log, however long they are, or SHA-256 collides on an event of
      theirs. */
  lemma {:induction false} HeadBindsHistory(a: Log, b: Log)
    requires Verified(a) && Verified(b) && AllShort(a) && AllShort(b)
    requires HeadHash(a) == HeadHash(b)
    ensures a == b || LogsCollide(a, b)
  {
    hide Sha256, HashMaterial, Short, Verified, EventRight;
    if a == [] || b == [] {
      var rest := if a == [] then b else a;
      if rest != [] {
        var e := rest[|rest| - 1];
        LastEvent(rest);
        GenesisDiffers(e);
        assert e in rest && Collision(GENESIS_TEXT, HashMaterial(e));
      }
    } else {
      var m, n := |a| - 1, |b| - 1;
      var e, f := a[m], b[n];
      LastEvent(a);
      LastEvent(b);
      assert e in a && f in b;
      if HashMaterial(e) == HashMaterial(f) {
        HashMaterialInjective(e, f);
        VerifiedPrefix(a, m);
        VerifiedPrefix(b, n);
        HeadBindsHistory(a[..m], b[..n]);
        assert e == f;
        assert a == a[..m] + [e] && b == b[..n] + [f];
      } else {
        assert Collision(HashMaterial(e), HashMaterial(f));
      }
    }
  }

  lemma LastEvent(log: Log)
    requires Verified(log) && log != []
    ensures var e := log[|log| - 1];
            e.previousHash == HeadHash(log[..|log| - 1]) && e.eventHash == HeadHash(log) == Sha256(HashMaterial(e))
  {
    hide Sha256, HashMaterial;
    assert RightAt(log, |log| - 1);
  }

  // ---- The byte format ----

  const EVENT_KINDS: seq<Kind> := [Word(2), Word(8), Word(8), Word(2), Blob, Blob, Blob, Blob]

  function StoredValues(e: Event): seq<Value> {
    [Num(2, e.version), Num(8, e.sequence), Num(8, e.timestamp), Num(2, e.eventType),
     Octets(e.subject), Octets(e.detail), Octets(e.previousHash), Octets(e.eventHash)]
  }

  function EventBytes(e: Event): Bytes {
    MAGIC + PutAll(StoredValues(e))
  }

  /** The checks `encode_event` and `decode_event` share. */
  predicate Complete(e: Event) {
    e.version == VERSION && |e.previousHash| == HASH_BYTES && |e.eventHash| == HASH_BYTES && e.eventHash == EventHash(e)
  }

  function EncodeEvent(e: Event): Result<Bytes> {
    if Complete(e) then Ok(EventBytes(e)) else Err(InvalidArgument)
  }

  function FromValues(vs: seq<Value>): Event {
    Event(U16At(vs, 0), U64At(vs, 1), U64At(vs, 2), U16At(vs, 3), BytesAt(vs, 4), BytesAt(vs, 5), BytesAt(vs, 6), BytesAt(vs, 7))
  }

  function DecodeEvent(b: Bytes): Result<Event> {
    if |b| < |MAGIC| + 2 || b[..|MAGIC|] != MAGIC then Err(InvalidFormat) else
    match TakeAll(EVENT_KINDS, b[|MAGIC|..])
    case None => Err(InvalidFormat)
    case Some((vs, rest)) =>
      var e := FromValues(vs);
      if rest != [] || !Complete(e) then Err(InvalidFormat) else Ok(e)
  }

  lemma StoredKinds(e: Event)
    ensures Kinds(StoredValues(e)) == EVENT_KINDS
    ensures Short(e) && |e.eventHash| < TWO_TO_THE_32 ==> AllFit(StoredValues(e)) && FromValues(StoredValues(e)) == e
  {
    Widths();
    assert Kinds(StoredValues(e)) == EVENT_KINDS;
  }

  /** An event short enough to be written has short fields. */
  lemma BytesShort(e: Event)
    requires |EventBytes(e)| < TWO_TO_THE_32
    ensures Short(e)
  {
    var vs := StoredValues(e);
    PutAllHolds(vs, 4);
    PutAllHolds(vs, 5);
    PutAllHolds(vs, 6);
  }

  /** Decoding undoes encoding. */
  lemma DecodeOfEncodeEvent(e: Event)
    requires EncodeEvent(e).Ok? && Short(e)
    ensures DecodeEvent(EncodeEvent(e).value) == Ok(e)
  {
    hide EventHash, PutAll, TakeAll;
    StoredKinds(e);
    var vs := StoredValues(e);
    TakeAllOfPutAll(vs, []);
    assert EventBytes(e)[|MAGIC|..] == PutAll(vs) == PutAll(vs) + [];
    TwoAtLeast(vs);
  }

  lemma TwoAtLeast(vs: seq<Value>)
    requires Kinds(vs) == EVENT_KINDS
    ensures |PutAll(vs)| >= 2
  {
    assert vs[0].KindOf() == EVENT_KINDS[0];
    PutAllHolds(vs, 0);
  }

  /** The decoder accepts exactly what the encoder writes. */
  lemma EncodeOfDecodeEvent(b: Bytes)
    requires DecodeEvent(b).Ok?
    ensures EncodeEvent(DecodeEvent(b).value) == Ok(b)
  {
    hide EventHash, PutAll, TakeAll;
    var (vs, rest) := TakeAll(EVENT_KINDS, b[|MAGIC|..]).value;
    PutAllOfTakeAll(EVENT_KINDS, b[|MAGIC|..]);
    StoredOfFrom(vs);
    assert b == MAGIC + b[|MAGIC|..];
    assert PutAll(vs) + [] == PutAll(vs);
  }

  lemma StoredOfFrom(vs: seq<Value>)
    requires Kinds(vs) == EVENT_KINDS && AllFit(vs)
    ensures StoredValues(FromValues(vs)) == vs
  {
    hide AllFit, Kinds, U16At, U32At, U64At, BytesAt;
    var us := StoredValues(FromValues(vs));
    forall i | 0 <= i < 8
      ensures us[i] == vs[i]
    {
      FieldAt(vs, EVENT_KINDS, i);
    }
  }

  // ---- The log ----

  function AllEventBytes(log: Log): (bs: seq<Bytes>)
    ensures |bs| == |log|
  {
    seq(|log|, i requires 0 <= i < |log| => EventBytes(log[i]))
  }

  function LogHeader(count: nat): (b: Bytes)
    ensures |b| == |MAGIC| + 6
  {
    MAGIC + Be(VERSION, 2) + Be(count, 4)
  }

  function EncodeLog(log: Log): Result<Bytes> {
    var _ :- Verify(log);
    Ok(LogHeader(|log|) + PutBlobs(AllEventBytes(log)))
  }

  /** Read `n` length-prefixed events. */
  function TakeEvents(n: nat, input: Bytes): Option<(Log, Bytes)> {
    if n == 0 then Some(([], input)) else
    var (v, rest) :- Take(Blob, input);
    match DecodeEvent(v.bytes)
    case Err(_) => None
    case Ok(e) =>
      var (log, end) :- TakeEvents(n - 1, rest);
      Some(([e] + log, end))
  }

  function DecodeLog(b: Bytes): Result<Log> {
    if |b| < |MAGIC| + 6 || b[..|MAGIC|] != MAGIC || FromBe(b[7..9]) != VERSION then Err(InvalidFormat) else
    var count := FromBe(b[9..13]);
    if count > |b| then Err(InvalidFormat) else
    match TakeEvents(count, b[13..])
    case None => Err(InvalidFormat)
    case Some((log, rest)) =>
      if rest != [] || !Verified(log) then Err(InvalidFormat) else Ok(log)
  }

  /** Every event, and the number of them, can be written without truncation. */
  predicate Writable(log: Log) {
    |log| < TWO_TO_THE_32 && forall e | e in log :: |EventBytes(e)| < TWO_TO_THE_32
  }

  lemma {:induction false} TakeEventsOfPut(log: Log)
    requires forall e | e in log :: Complete(e) && |EventBytes(e)| < TWO_TO_THE_32
    ensures TakeEvents(|log|, PutBlobs(AllEventBytes(log))) == Some((log, []))
    ensures |log| <= |PutBlobs(AllEventBytes(log))|
  {
    hide EventBytes, Complete, DecodeEvent, EncodeEvent;
    if log != [] {
      var e := log[0];
      assert e in log && log == [e] + log[1..];
      var bs := AllEventBytes(log);
      assert bs[0] == EventBytes(e) && bs[1..] == AllEventBytes(log[1..]);
      TakeOfPut(Octets(EventBytes(e)), PutBlobs(bs[1..]));
      EncodeIsBytes(e);
      BytesShort(e);
      DecodeOfEncodeEvent(e);
      TakeEventsOfPut(log[1..]);
    }
  }

  lemma EncodeIsBytes(e: Event)
    requires Complete(e)
    ensures EncodeEvent(e) == Ok(EventBytes(e))
  {}

  lemma AllEventBytesCons(e: Event, log: Log)
    ensures AllEventBytes([e] + log) == [EventBytes(e)] + AllEventBytes(log)
    ensures AllEventBytes([]) == []
  {
    hide EventBytes;
  }

  lemma {:induction false} PutOfTakeEvents(n: nat, input: Bytes)
    requires TakeEvents(n, input).Some?
    ensures var (log, rest) := TakeEvents(n, input).value;
            |log| == n && PutBlobs(AllEventBytes(log)) + rest == input
    ensures forall e | e in TakeEvents(n, input).value.0 :: |EventBytes(e)| < TWO_TO_THE_32
  {
    hide EventBytes, Complete, DecodeEvent, EncodeEvent, PutBlobs, AllEventBytes;
    if n == 0 {
      NoBlobs();
      AllEventBytesCons(Event(0, 0, 0, 0, [], [], [], []), []);
    } else {
      PutOfTake(Blob, input);
      var (v, rest) := Take(Blob, input).value;
      EncodeOfDecodeEvent(v.bytes);
      var e := DecodeEvent(v.bytes).value;
      EncodedIsBytes(e);
      PutOfTakeEvents(n - 1, rest);
      var (log, end) := TakeEvents(n - 1, rest).value;
      PutBlobsCons(v.bytes, AllEventBytes(log), end);
      AllEventBytesCons(e, log);
    }
  }

  lemma EncodedIsBytes(e: Event)
    requires EncodeEvent(e).Ok?
    ensures EncodeEvent(e).value == EventBytes(e)
  {}

  lemma AllComplete(log: Log)
    requires Verified(log)
    ensures forall e | e in log :: Complete(e)
  {
    hide EventHash, GenesisHash;
    forall e | e in log
      ensures Complete(e)
    {
      var i :| 0 <= i < |log| && log[i] == e;
      assert RightAt(log, i);
    }
  }

  /** Reading back a written log returns it. */
  lemma DecodeOfEncodeLog(log: Log)
    requires Verified(log) && Writable(log)
    ensures EncodeLog(log).Ok? && DecodeLog(EncodeLog(log).value) == Ok(log)
  {
    AllComplete(log);
    hide EventBytes, EventHash, DecodeEvent, PutBlobs, TakeEvents, RightAt, Complete, LogHeader, AllEventBytes, Be, FromBe;
    Widths();
    FromBeOfBe(VERSION, 2);
    FromBeOfBe(|log|, 4);
    TakeEventsOfPut(log);
    HeaderSlices(|log|, PutBlobs(AllEventBytes(log)));
  }

  lemma HeaderSlices(count: nat, rest: Bytes)
    ensures var b := LogHeader(count) + rest;
            b[..7] == MAGIC && b[7..9] == Be(VERSION, 2) && b[9..13] == Be(count, 4) && b[13..] == rest
  {
    hide Be;
  }

  /** And the bytes the reader accepts are exactly the written logs. */
  lemma EncodeOfDecodeLog(b: Bytes)
    requires DecodeLog(b).Ok?
    ensures Verified(DecodeLog(b).value) && Writable(DecodeLog(b).value)
    ensures EncodeLog(DecodeLog(b).value) == Ok(b)
  {
    hide EventBytes, EventHash, DecodeEvent, PutBlobs, Verified;
    Widths();
    BeOfFromBe(b[7..9]);
    BeOfFromBe(b[9..13]);
    PutOfTakeEvents(FromBe(b[9..13]), b[13..]);
    assert b == b[..7] + b[7..9] + b[9..13] + b[13..];
    var log := DecodeLog(b).value;
    assert PutBlobs(AllEventBytes(log)) + [] == PutBlobs(AllEventBytes(log));
  }

  // ---- The loops ----

  /** `encode_log`. */
  method WriteLog(log: Log) returns (r: Result<Bytes>)
    ensures r == EncodeLog(log)
  {
    hide EventBytes, Verified, PutBlobs;
    var verified := VerifyLog(log);
    if verified.Err? {
      return Err(verified.error);
    }
    var out := MAGIC;
    out := PutWord(out, VERSION, 2);
    out := PutWord(out, |log|, 4);
    assert out == LogHeader(|log|);
    NoBlobs();
    for i := 0 to |log|
      invariant out == LogHeader(|log|) + PutBlobs(AllEventBytes(log)[..i])
    {
      var raw := EventBytes(log[i]);
      OneMoreBlob(AllEventBytes(log), i);
      out := PutWord(out, |raw|, 4);
      out := out + raw;
    }
    assert AllEventBytes(log)[..|log|] == AllEventBytes(log);
    r := Ok(out);
  }

  lemma NoBlobs()
    ensures PutBlobs([]) == []
  {}

  lemma OneMoreBlob(bs: seq<Bytes>, i: nat)
    requires i < |bs|
    ensures PutBlobs(bs[..i + 1]) == PutBlobs(bs[..i]) + (Be(|bs[i]|, 4) + bs[i])
  {
    assert bs[..i + 1] == bs[..i] + [bs[i]];
    PutBlobsAppend(bs[..i], [bs[i]]);
    assert PutBlobs([bs[i]]) == Put(Octets(bs[i])) + PutBlobs([]);
  }

  /** `decode_log`, with its cursor. */
  method ReadLog(b: Bytes) returns (r: Result<Log>)
    ensures r == DecodeLog(b)
  {
    hide DecodeEvent, Verified;
    if |b| < |MAGIC| + 6 || b[..|MAGIC|] != MAGIC {
      return Err(InvalidFormat);
    }
    var ok, o, version, count;
    ok, o, version := TakeWord(b, |MAGIC|, 2);
    if version != VERSION {
      return Err(InvalidFormat);
    }
    ok, o, count := TakeWord(b, o, 4);
    if count > |b| {
      return Err(InvalidFormat);
    }
    var log: Log := [];
    PrependNone(TakeEvents(count, b[13..]));
    for i := 0 to count
      invariant 13 <= o <= |b|
      invariant TakeEvents(count, b[13..]) == Prepend(log, TakeEvents(count - i, b[o..]))
    {
      var raw;
      ok, o, raw := TakeBlob(b, o);
      if !ok {
        return Err(InvalidFormat);
      }
      var e := DecodeEvent(raw);
      EventErrors(raw);
      if e.Err? {
        return Err(e.error);
      }
      PrependSnoc(log, e.value, TakeEvents(count - i - 1, b[o..]));
      log := log + [e.value];
    }
    assert TakeEvents(count, b[13..]) == Some((log + [], b[o..])) && log + [] == log;
    if o != |b| {
      return Err(InvalidFormat);
    }
    var verified := VerifyLog(log);
    r := if verified.Ok? then Ok(log) else Err(InvalidFormat);
  }

  function Prepend(log: Log, r: Option<(Log, Bytes)>): Option<(Log, Bytes)> {
    match r
    case None => None
    case Some((rest, end)) => Some((log + rest, end))
  }

  lemma PrependNone(r: Option<(Log, Bytes)>)
    ensures Prepend([], r) == r
  {
    if r.Some? {
      assert [] + r.value.0 == r.value.0;
    }
  }

  lemma PrependSnoc(log: Log, e: Event, r: Option<(Log, Bytes)>)
    ensures Prepend(log, Prepend([e], r)) == Prepend(log + [e], r)
  {
    if r.Some? {
      assert log + ([e] + r.value.0) == (log + [e]) + r.value.0;
    }
  }

  lemma EventErrors(b: Bytes)
    ensures DecodeEvent(b).Err? ==> DecodeEvent(b).error == InvalidFormat
  {}
}
