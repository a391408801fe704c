/** Exactly when two frames of the first generation, or one of the first and one of the next, can share key and nonce:
    `make_channel` takes any key material of the right sizes (src/protocol/channel.cpp). */
module ChannelReuse {
  import opened Core
  import opened Codec
  import opened Session
  import opened Channel
  import opened ChannelSafety
  import Record
  import Aead

  const PLAIN: Config := Config(Aead.Aes256Gcm, 0, [])

  /** Client frame `i` and server frame `j` of the run are of the first generation and share key and nonce. */
  ghost predicate CrossReuse(s: System, generation: u64, i: nat, j: nat) {
    && i < |s.sealed| && j < |s.sealed|
    && var x, y := s.sealed[i], s.sealed[j];
       && x.sender == Client && y.sender == Server && x.generation == y.generation == generation
       && x.Key() == y.Key() && x.frame.nonce == y.frame.nonce
  }

  // ---- A concrete failure ----

  /** Material whose two directions are equal: the first frame each side seals shares key and nonce with the other's,
      whatever the two frames say. */
  lemma EqualDirectionsRepeat(aead: Aead.Provider, m: KeyMaterial, generation: u64, p: Bytes, q: Bytes)
    requires aead.Sound() && m.SizesRight() && |p| < TWO_TO_THE_32 && |q| < TWO_TO_THE_32
    requires m.clientWriteKey == m.serverWriteKey && m.clientWriteNonce == m.serverWriteNonce
    ensures var s := Run(aead, Start(m, generation), [DoSeal(Client, PLAIN, Record.DATA, p, []), DoSeal(Server, PLAIN, Record.DATA, q, [])]);
            && CrossReuse(s, generation, 0, 1)
            && s.sealed[0].released && s.sealed[1].released && s.sealed[0].plaintext == p && s.sealed[1].plaintext == q
  {
    hide Step, KeyMaterial.SizesRight;
    var a, b := DoSeal(Client, PLAIN, Record.DATA, p, []), DoSeal(Server, PLAIN, Record.DATA, q, []);
    var start := Start(m, generation);
    RunTwo(aead, start, a, b);
    SealOne(aead, m, generation, start, Client, p);
    SealOne(aead, m, generation, Step(aead, start, a), Server, q);
  }

  /** The other way: a caller who takes for a first key, and its nonce, what a key update will make. The client's first
      frame before the update and its first frame after it share key and nonce. */
  lemma ChosenFromUpdateRepeats(aead: Aead.Provider, m: KeyMaterial, generation: u64, hello: Hello, context: Bytes)
    requires aead.Sound() && m.SizesRight() && generation < 0xffff_ffff_ffff_ffff
    requires UpdateKeys(m, hello, generation + 1, context).Ok?
    requires m.clientWriteKey == UpdateKeys(m, hello, generation + 1, context).value.clientWriteKey
    requires m.clientWriteNonce == UpdateKeys(m, hello, generation + 1, context).value.clientWriteNonce
    requires UpdateStep(aead, Make(m, Client, generation).value.(sendSequence := 1), PLAIN, hello, context, []).0.Ok?
    ensures var data := DoSeal(Client, PLAIN, Record.DATA, [], []);
            var s := Run(aead, Start(m, generation), [data, DoUpdate(Client, PLAIN, hello, context, []), data]);
            && |s.sealed| == 3 && s.sealed[0].generation == generation && s.sealed[2].generation == generation + 1
            && s.sealed[0].Key() == s.sealed[2].Key() && s.sealed[0].frame.nonce == s.sealed[2].frame.nonce
  {
    hide Step, KeyMaterial.SizesRight, UpdateKeys, UpdateStep, Record.SequenceNonce;
    var data, update := DoSeal(Client, PLAIN, Record.DATA, [], []), DoUpdate(Client, PLAIN, hello, context, []);
    var start := Start(m, generation);
    RunThree(aead, start, data, update, data);
    SealOne(aead, m, generation, start, Client, []);
    var s := Step(aead, start, data);
    var t := Step(aead, s, update);
    UpdateOne(aead, s, t, Client, generation + 1, hello, context);
    SealOne(aead, t.client.end.material, generation + 1, t, Client, []);
  }

  /** An update does not depend on the write keys, so there is such material for every exporter secret with which an
      update works. */
  lemma ChosenMaterialExists(m: KeyMaterial, hello: Hello, next: u64, context: Bytes)
    requires m.SizesRight() && UpdateKeys(m, hello, next, context).Ok?
    ensures var u := UpdateKeys(m, hello, next, context).value;
            var chosen := m.(clientWriteKey := u.clientWriteKey, clientWriteNonce := u.clientWriteNonce);
            chosen.SizesRight() && UpdateKeys(chosen, hello, next, context) == Ok(u)
  {
    hide DeriveKeys, ExpandSecret;
  }

  lemma UpdateOne(aead: Aead.Provider, s: System, t: System, who: Role, next: u64, hello: Hello, context: Bytes)
    requires next == s.At(who).end.generation + 1 && s.At(who).end.role == who
    requires UpdateStep(aead, s.At(who).end, PLAIN, hello, context, []).0.Ok?
    requires t == Step(aead, s, DoUpdate(who, PLAIN, hello, context, []))
    ensures !s.At(who).end.closed && UpdateKeys(s.At(who).end.material, hello, next, context) == Ok(t.At(who).end.material)
    ensures t.At(who).end == s.At(who).end.(material := t.At(who).end.material, generation := next, sendSequence := 0)
    ensures |t.sealed| == |s.sealed| + 1 && t.sealed[..|s.sealed|] == s.sealed
  {
    hide UpdateKeys, UpdatePayload, MergedAad, Record.Seal, Record.EncodeFrame;
  }

  lemma RunThree(aead: Aead.Provider, s: System, a: Action, b: Action, c: Action)
    ensures Run(aead, s, [a, b, c]) == Step(aead, Step(aead, Step(aead, s, a), b), c)
  {
    hide Step;
    RunTwo(aead, s, a, b);
    assert [a, b, c][..2] == [a, b];
  }

  lemma RunTwo(aead: Aead.Provider, s: System, a: Action, b: Action)
    ensures Run(aead, s, [a, b]) == Step(aead, Step(aead, s, a), b)
  {
    hide Step;
    assert [a, b][..1] == [a] && [a][..0] == [];
    assert Run(aead, s, [a]) == Step(aead, Run(aead, s, []), a);
  }

  /** One data frame of an open endpoint that still has its first material. */
  lemma SealOne(aead: Aead.Provider, m: KeyMaterial, generation: u64, s: System, who: Role, p: Bytes)
    requires aead.Sound() && m.SizesRight() && |p| < TWO_TO_THE_32
    requires var e := s.At(who).end;
             e.material == m && e.role == who && e.generation == generation && !e.closed && e.sendSequence <= Record.MAX_SEQUENCE
    ensures var t := Step(aead, s, DoSeal(who, PLAIN, Record.DATA, p, []));
            var e, n := s.At(who).end, |s.sealed|;
            && t.At(who).end == e.(sendSequence := e.sendSequence + 1) && t.At(Peer(who)) == s.At(Peer(who))
            && |t.sealed| == n + 1 && t.sealed[..n] == s.sealed
            && var x := t.sealed[n];
               && x.sender == who && x.generation == generation && x.material == m && x.sequence == e.sendSequence
               && x.plaintext == p && x.released
               && Record.SequenceNonce(m.WriteNonce(who), e.sendSequence) == Ok(x.frame.nonce)
  {
    var e := s.At(who).end;
    PlainAad();
    hide MergedAad, Record.Seal, Record.EncodeFrame, Record.SequenceNonce, KeyMaterial.SizesRight;
    Record.SealSucceeds(aead, PLAIN.algorithm, m, who, Record.DATA, e.sendSequence, p, MergedAad(PLAIN, []).value);
  }

  lemma PlainAad()
    ensures MergedAad(PLAIN, []).Ok? && |MergedAad(PLAIN, []).value| < TWO_TO_THE_32
  {
    hide PutBlobs;
    PlainBlobs();
  }

  lemma PlainBlobs()
    ensures |PutBlobs([[], []])| == 8
  {
    var none: Bytes := [];
    assert [none, none][1..] == [none] && [none][1..] == [];
  }

  // ---- The exact condition ----

  /** `c` frames from the client, then `v` from the server. */
  function Seals(c: nat, v: nat): seq<Action> {
    if v > 0 then Seals(c, v - 1) + [DoSeal(Server, PLAIN, Record.DATA, [], [])]
    else if c > 0 then Seals(c - 1, 0) + [DoSeal(Client, PLAIN, Record.DATA, [], [])]
    else []
  }

  ghost predicate SealedSo(s: System, m: KeyMaterial, generation: u64, c: nat, v: nat) {
    && |s.sealed| == c + v && c <= Record.MAX_SEQUENCE + 1 && v <= Record.MAX_SEQUENCE + 1
    && s.client.end == Endpoint(m, Client, c, generation, s.client.end.window, false)
    && s.server.end == Endpoint(m, Server, v, generation, s.server.end.window, false)
    && (forall i | 0 <= i < c :: IsFrame(s.sealed[i], m, generation, Client, i))
    && (forall i | c <= i < c + v :: IsFrame(s.sealed[i], m, generation, Server, i - c))
  }

  predicate IsFrame(x: Sealed, m: KeyMaterial, generation: u64, who: Role, sequence: nat) {
    && x.sender == who && x.generation == generation && x.material == m && x.sequence == sequence
    && Record.SequenceNonce(m.WriteNonce(who), x.sequence) == Ok(x.frame.nonce)
  }

  lemma {:induction false} SealsRun(aead: Aead.Provider, m: KeyMaterial, generation: u64, c: nat, v: nat)
    requires aead.Sound() && m.SizesRight() && c <= Record.MAX_SEQUENCE + 1 && v <= Record.MAX_SEQUENCE + 1
    ensures SealedSo(Run(aead, Start(m, generation), Seals(c, v)), m, generation, c, v)
    decreases c, v
  {
    hide Step, SealedSo, KeyMaterial.SizesRight;
    var actions := Seals(c, v);
    if v > 0 {
      SealsRun(aead, m, generation, c, v - 1);
      assert actions[..|actions| - 1] == Seals(c, v - 1);
      OneMoreServer(aead, m, generation, Run(aead, Start(m, generation), Seals(c, v - 1)), c, v - 1);
    } else if c > 0 {
      SealsRun(aead, m, generation, c - 1, 0);
      assert actions[..|actions| - 1] == Seals(c - 1, 0);
      OneMoreClient(aead, m, generation, Run(aead, Start(m, generation), Seals(c - 1, 0)), c - 1);
    } else {
      NothingSealed(m, generation);
    }
  }

  lemma NothingSealed(m: KeyMaterial, generation: u64)
    requires m.SizesRight()
    ensures SealedSo(Start(m, generation), m, generation, 0, 0)
  {
    hide KeyMaterial.SizesRight;
  }

  lemma OneMoreServer(aead: Aead.Provider, m: KeyMaterial, generation: u64, s: System, c: nat, v: nat)
    requires aead.Sound() && m.SizesRight() && SealedSo(s, m, generation, c, v) && v <= Record.MAX_SEQUENCE
    ensures SealedSo(Step(aead, s, DoSeal(Server, PLAIN, Record.DATA, [], [])), m, generation, c, v + 1)
  {
    hide Step, Record.SequenceNonce, KeyMaterial.SizesRight, MergedAad;
    SealOne(aead, m, generation, s, Server, []);
    var t := Step(aead, s, DoSeal(Server, PLAIN, Record.DATA, [], []));
    assert IsFrame(t.sealed[c + v], m, generation, Server, v);
    hide IsFrame;
    assert forall i | 0 <= i < c + v :: t.sealed[i] == s.sealed[i];
  }

  lemma OneMoreClient(aead: Aead.Provider, m: KeyMaterial, generation: u64, s: System, c: nat)
    requires aead.Sound() && m.SizesRight() && SealedSo(s, m, generation, c, 0) && c <= Record.MAX_SEQUENCE
    ensures SealedSo(Step(aead, s, DoSeal(Client, PLAIN, Record.DATA, [], [])), m, generation, c + 1, 0)
  {
    hide Step, Record.SequenceNonce, KeyMaterial.SizesRight, MergedAad;
    SealOne(aead, m, generation, s, Client, []);
    var t := Step(aead, s, DoSeal(Client, PLAIN, Record.DATA, [], []));
    assert IsFrame(t.sealed[c], m, generation, Client, c);
    hide IsFrame;
    assert forall i | 0 <= i < c :: t.sealed[i] == s.sealed[i];
  }

  /** Sequence numbers for the two directions that give one nonce. */
  lemma MeetingSequences(c: Bytes, v: Bytes) returns (a: u64, b: u64)
    requires |c| == |v| == NONCE_BYTES && c[..4] == v[..4]
    ensures a <= 1 && b <= Record.MAX_SEQUENCE
    ensures Record.SequenceNonce(c, a) == Record.SequenceNonce(v, b)
  {
    hide Xor, Be, FromBe;
    Widths();
    var d := XorAll(c[4..], v[4..]);
    a := 0;
    var e := XorAll(d, Be(a, 8));
    BeOfFromBe(e);
    if FromBe(e) > Record.MAX_SEQUENCE {
      var f := XorAll(d, Be(1, 8));
      BeOfFromBe(f);
      if FromBe(f) > Record.MAX_SEQUENCE {
        OneApart(d);
      }
      a, e := 1, f;
    }
    b := FromBe(e);
    MixedBack(c[4..], v[4..], Be(a, 8));
  }

  /** Mixing in 0 and mixing in 1 differ. */
  lemma OneApart(d: Bytes)
    requires |d| == 8
    ensures XorAll(d, Be(0, 8)) != XorAll(d, Be(1, 8))
  {
    hide Xor;
    LastBytes();
    hide Be;
    var x := Xor(d[7], 0);
    if x == Xor(d[7], 1) {
      XorCommutes(d[7], 0);
      XorCommutes(d[7], 1);
      XorCancels(0, d[7]);
      XorCancels(1, d[7]);
    }
    assert XorAll(d, Be(0, 8))[7] == Xor(d[7], Be(0, 8)[7]) && XorAll(d, Be(1, 8))[7] == Xor(d[7], Be(1, 8)[7]);
  }

  lemma LastBytes()
    ensures Be(0, 8)[7] == 0 && Be(1, 8)[7] == 1
  {}

  lemma MixedBack(a: Bytes, b: Bytes, e: Bytes)
    requires |a| == |b| == |e|
    ensures XorAll(b, XorAll(XorAll(a, b), e)) == XorAll(a, e)
  {
    hide Xor;
    forall i | 0 <= i < |a|
      ensures XorAll(b, XorAll(XorAll(a, b), e))[i] == XorAll(a, e)[i]
    {
      XorAssociates(b[i], Xor(a[i], b[i]), e[i]);
      XorCommutes(b[i], Xor(a[i], b[i]));
      XorCancels(a[i], b[i]);
    }
  }

  /** A frame of each direction in the first generation can share key and nonce, in some run, if and only if the caller
      gave both directions one write key and the same first four bytes of nonce. */
  lemma FirstGenerationExactly(aead: Aead.Provider, m: KeyMaterial, generation: u64)
    requires aead.Sound() && m.SizesRight()
    ensures (exists actions, i, j :: CrossReuse(Run(aead, Start(m, generation), actions), generation, i, j)) <==> DirectionsShare(m)
  {
    hide Run, Start, Record.SequenceNonce, Seals;
    if DirectionsShare(m) {
      var a, b := MeetingSequences(m.clientWriteNonce, m.serverWriteNonce);
      SealsRun(aead, m, generation, a + 1, b + 1);
      var s := Run(aead, Start(m, generation), Seals(a + 1, b + 1));
      var first: nat, second: nat := a, b;
      var j := first + 1 + second;
      assert IsFrame(s.sealed[a], m, generation, Client, a) && IsFrame(s.sealed[j], m, generation, Server, b);
      assert CrossReuse(s, generation, a, j);
    }
    if actions, i, j :| CrossReuse(Run(aead, Start(m, generation), actions), generation, i, j) {
      Shares(aead, m, generation, actions, i, j);
    }
  }

  lemma Shares(aead: Aead.Provider, m: KeyMaterial, generation: u64, actions: seq<Action>, i: nat, j: nat)
    requires aead.Sound() && m.SizesRight() && CrossReuse(Run(aead, Start(m, generation), actions), generation, i, j)
    ensures DirectionsShare(m)
  {
    hide Run, Start, DirectionsShare, Coincide, Known, KeyMaterial.SizesRight;
    if i < j {
      NoncesForAnyKeys(aead, m, generation, actions, i, j);
    } else {
      NoncesForAnyKeys(aead, m, generation, actions, j, i);
    }
  }

  // ---- The first generation against the next ----

  /** Frame `i` of direction `r` in the first generation and frame `j` of direction `w` in the next share key and nonce. */
  ghost predicate NextReuse(s: System, generation: u64, r: Role, w: Role, i: nat, j: nat) {
    && i < |s.sealed| && j < |s.sealed|
    && var x, y := s.sealed[i], s.sealed[j];
       && x.sender == r && y.sender == w && x.generation == generation && y.generation == generation + 1
       && x.Key() == y.Key() && x.frame.nonce == y.frame.nonce
  }

  /** The update makes for `w` the key that `r` has, and a base nonce that agrees in four bytes. */
  predicate UpdateMeets(m: KeyMaterial, hello: Hello, generation: u64, context: Bytes, r: Role, w: Role)
    requires m.SizesRight() && generation < 0xffff_ffff_ffff_ffff
  {
    var u := UpdateKeys(m, hello, generation + 1, context);
    u.Ok? && u.value.WriteKey(w) == m.WriteKey(r) && u.value.WriteNonce(w)[..4] == m.WriteNonce(r)[..4]
  }

  function SealsOf(who: Role, n: nat): seq<Action> {
    if n == 0 then [] else SealsOf(who, n - 1) + [DoSeal(who, PLAIN, Record.DATA, [], [])]
  }

  /** What `n` frames of `who` add to a state. */
  ghost predicate SealedBy(s: System, t: System, who: Role, n: nat) {
    var e := s.At(who).end;
    && e.sendSequence + n <= Record.MAX_SEQUENCE + 1
    && t.At(who).end == e.(sendSequence := e.sendSequence + n) && t.At(Peer(who)) == s.At(Peer(who))
    && |t.sealed| == |s.sealed| + n && t.sealed[..|s.sealed|] == s.sealed
    && forall i: nat | i < n :: FrameAt(s, t, who, i)
  }

  predicate FrameAt(s: System, t: System, who: Role, i: nat) {
    var e, k := s.At(who).end, |s.sealed| + i;
    k < |t.sealed| && IsFrame(t.sealed[k], e.material, e.generation, who, e.sendSequence + i)
  }

  lemma {:induction false} SealsOfRun(aead: Aead.Provider, s: System, who: Role, n: nat)
    requires aead.Sound() && s.At(who).end.material.SizesRight() && s.At(who).end.role == who && !s.At(who).end.closed
    requires s.At(who).end.sendSequence + n <= Record.MAX_SEQUENCE + 1
    ensures SealedBy(s, Run(aead, s, SealsOf(who, n)), who, n)
  {
    hide Step, KeyMaterial.SizesRight, Record.SequenceNonce;
    if n > 0 {
      SealsOfRun(aead, s, who, n - 1);
      var actions := SealsOf(who, n);
      assert actions[..|actions| - 1] == SealsOf(who, n - 1);
      var t := Run(aead, s, SealsOf(who, n - 1));
      OneMoreOf(aead, s, t, who, n - 1);
    }
  }

  lemma OneMoreOf(aead: Aead.Provider, s: System, t: System, who: Role, n: nat)
    requires aead.Sound() && s.At(who).end.material.SizesRight() && s.At(who).end.role == who && !s.At(who).end.closed
    requires s.At(who).end.sendSequence + n <= Record.MAX_SEQUENCE && SealedBy(s, t, who, n)
    ensures SealedBy(s, Step(aead, t, DoSeal(who, PLAIN, Record.DATA, [], [])), who, n + 1)
  {
    hide Step, KeyMaterial.SizesRight, Record.SequenceNonce, MergedAad;
    var e := s.At(who).end;
    SealOne(aead, e.material, e.generation, t, who, []);
    var u := Step(aead, t, DoSeal(who, PLAIN, Record.DATA, [], []));
    assert FrameAt(s, u, who, n);
    assert u.sealed[..|s.sealed|] == s.sealed by {
      assert u.sealed[..|s.sealed|] == u.sealed[..|t.sealed|][..|s.sealed|];
    }
    forall i: nat | i < n
      ensures FrameAt(s, u, who, i)
    {
      assert FrameAt(s, t, who, i);
      assert u.sealed[..|t.sealed|][|s.sealed| + i] == u.sealed[|s.sealed| + i];
    }
  }

  lemma {:induction false} RunAppend(aead: Aead.Provider, s: System, a: seq<Action>, b: seq<Action>)
    ensures Run(aead, s, a + b) == Run(aead, Run(aead, s, a), b)
    decreases |b|
  {
    hide Step;
    if b == [] {
      assert a + b == a;
    } else {
      var n := |b| - 1;
      assert (a + b)[..|a + b| - 1] == a + b[..n] && (a + b)[|a + b| - 1] == b[n];
      RunAppend(aead, s, a, b[..n]);
    }
  }

  lemma PayloadGoesOut(aead: Aead.Provider, e: Endpoint, payload: Bytes)
    requires aead.Sound() && e.material.SizesRight() && !e.closed && e.sendSequence <= Record.MAX_SEQUENCE && |payload| == 40
    ensures SealStep(aead, e, PLAIN, Record.KEY_UPDATE, payload, []).0.Ok?
  {
    PlainAad();
    hide MergedAad, Record.Seal, Record.EncodeFrame, KeyMaterial.SizesRight;
    Record.SealSucceeds(aead, PLAIN.algorithm, e.material, e.role, Record.KEY_UPDATE, e.sendSequence, payload, MergedAad(PLAIN, []).value);
  }

  /** An update that works goes out. */
  lemma UpdateGoesOut(aead: Aead.Provider, e: Endpoint, hello: Hello, context: Bytes)
    requires aead.Sound() && e.material.SizesRight() && !e.closed && e.sendSequence <= Record.MAX_SEQUENCE
    requires e.generation < 0xffff_ffff_ffff_ffff && UpdateKeys(e.material, hello, e.generation + 1, context).Ok?
    ensures UpdateStep(aead, e, PLAIN, hello, context, []).0.Ok?
  {
    hide SealStep, KeyMaterial.SizesRight, UpdateKeys, KeyUpdateTag, Be;
    TagFollowsUpdate(e.material, hello, e.generation + 1, context);
    PayloadGoesOut(aead, e, UpdatePayload(e.material, hello, e.generation + 1, context).value);
  }

  lemma MeetingRun(aead: Aead.Provider, m: KeyMaterial, generation: u64, hello: Hello, context: Bytes, r: Role, w: Role, a: u64, b: u64)
    requires aead.Sound() && m.SizesRight() && generation < 0xffff_ffff_ffff_ffff && a < Record.MAX_SEQUENCE && b <= Record.MAX_SEQUENCE
    requires UpdateMeets(m, hello, generation, context, r, w)
    requires Record.SequenceNonce(m.WriteNonce(r), a) ==
             Record.SequenceNonce(UpdateKeys(m, hello, generation + 1, context).value.WriteNonce(w), b)
    ensures exists actions, i, j :: NextReuse(Run(aead, Start(m, generation), actions), generation, r, w, i, j)
  {
    hide Run, Step, UpdateKeys, UpdateStep, Record.SequenceNonce;
    var before, after: nat := a, b;
    var start := Start(m, generation);
    var s := Run(aead, start, SealsOf(r, before + 1));
    SealsOfRun(aead, start, r, before + 1);
    assert s.At(w).end.material == m && s.At(w).end.generation == generation && s.At(w).end.role == w;
    UpdateGoesOut(aead, s.At(w).end, hello, context);
    var update := DoUpdate(w, PLAIN, hello, context, []);
    var t := Step(aead, s, update);
    UpdateOne(aead, s, t, w, generation + 1, hello, context);
    var u := Run(aead, t, SealsOf(w, after + 1));
    SealsOfRun(aead, t, w, after + 1);
    var actions := SealsOf(r, before + 1) + ([update] + SealsOf(w, after + 1));
    RunAppend(aead, start, SealsOf(r, before + 1), [update] + SealsOf(w, after + 1));
    RunAppend(aead, s, [update], SealsOf(w, after + 1));
    RunOne(aead, s, update);
    assert u == Run(aead, start, actions);
    var j := |t.sealed| + after;
    assert FrameAt(start, s, r, before) && FrameAt(t, u, w, after);
    assert u.sealed[before] == s.sealed[before] by {
      assert u.sealed[..|t.sealed|][before] == u.sealed[before] && t.sealed[..|s.sealed|][before] == t.sealed[before];
    }
    assert NextReuse(u, generation, r, w, before, j);
  }

  lemma RunOne(aead: Aead.Provider, s: System, a: Action)
    ensures Run(aead, s, [a]) == Step(aead, s, a)
  {
    hide Step;
    assert [a][..0] == [];
  }

  /** A frame of the first generation and one of the next, of whatever directions, can share key and nonce in some run, if
      and only if some update makes the first one's key for the second one's direction, with the same first four bytes of
      nonce. */
  lemma NextGenerationExactly(aead: Aead.Provider, m: KeyMaterial, generation: u64, r: Role, w: Role)
    requires aead.Sound() && m.SizesRight() && generation < 0xffff_ffff_ffff_ffff
    ensures (exists actions, i, j :: NextReuse(Run(aead, Start(m, generation), actions), generation, r, w, i, j)) <==>
            (exists hello, context :: UpdateMeets(m, hello, generation, context, r, w))
  {
    hide Run, Start, Record.SequenceNonce, UpdateKeys;
    if hello, context :| UpdateMeets(m, hello, generation, context, r, w) {
      var a, b := MeetingSequences(m.WriteNonce(r), UpdateKeys(m, hello, generation + 1, context).value.WriteNonce(w));
      MeetingRun(aead, m, generation, hello, context, r, w, a, b);
    }
    if actions, i, j :| NextReuse(Run(aead, Start(m, generation), actions), generation, r, w, i, j) {
      ReuseMeets(aead, m, generation, actions, r, w, i, j);
    }
  }

  lemma ReuseMeets(aead: Aead.Provider, m: KeyMaterial, generation: u64, actions: seq<Action>, r: Role, w: Role, i: nat, j: nat)
    requires aead.Sound() && m.SizesRight() && generation < 0xffff_ffff_ffff_ffff
    requires NextReuse(Run(aead, Start(m, generation), actions), generation, r, w, i, j)
    ensures exists hello, context :: UpdateMeets(m, hello, generation, context, r, w)
  {
    hide Run, Start, UpdateKeys, Record.SequenceNonce;
    RunKeeps(aead, m, generation, actions);
    var s := Run(aead, Start(m, generation), actions);
    var x, y := s.sealed[i], s.sealed[j];
    SealedFacts(aead, s, i, m, generation);
    SealedFacts(aead, s, j, m, generation);
    NonceShowsBase(x, y);
    FirstUpdate(aead, s, w, m, generation);
    var b := s.At(w).epochs[0].update;
    assert UpdateMeets(m, b.hello, generation, b.context, r, w);
  }

  /** The first update of a party was one of the first material. */
  lemma FirstUpdate(aead: Aead.Provider, s: System, w: Role, m: KeyMaterial, generation: u64)
    requires Inv(aead, s, m, generation) && s.At(w).epochs != []
    ensures var x := s.At(w).epochs[0];
            && x.update.current == m && x.update.generation == generation + 1 && x.update.Result() == Ok(x.material)
            && MaterialAfter(m, s.At(w).epochs, 1) == x.material && MaterialAfter(m, s.At(w).epochs, 0) == m
  {
    hide UpdateKeys, SealedRight, ReturnedRight, KeyMaterial.SizesRight;
    assert PartyRight(s.At(w), w, m, generation) && EpochAt(m, generation, s.At(w).epochs, 0);
  }
}
