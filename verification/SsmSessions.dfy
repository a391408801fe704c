/** Sessions over the security module, and what the operation counters promise when many callers use one key at once
    (src/security/ssm.cpp). A call is cut where it releases a lock; between the cuts any other caller may run. */
module SsmSessions {
  import opened Core
  import opened SsmObject
  import opened SsmModule
  import Aead

  type Token = Bytes

  const MAY_SIGN: nat := 0
  const MAY_DECAPSULATE: nat := 1
  const MAY_EXPORT_PUBLIC: nat := 2

  datatype Session = Session(expiresAt: u64, permissions: u32, signs: u64, decapsulations: u64, maxSigns: u64, maxDecapsulations: u64,
                             allowedHandles: seq<Handle>, allowedDomains: seq<Bytes>, closed: bool)

  datatype SessionOptions = SessionOptions(ttl: u64, permissions: u32, maxSigns: u64, maxDecapsulations: u64,
                                           allowedHandles: seq<Handle>, allowedDomains: seq<Bytes>)

  type Sessions = map<Token, Session>

  /** `sign_message` has no domain, `sign_domain` has one. */
  datatype Purpose = SignMessage | SignDomain(domain: Bytes) | Decapsulate

  datatype Request = Request(handle: Handle, purpose: Purpose) {
    function Domain(): Bytes { if purpose.SignDomain? then purpose.domain else [] }

    function Permission(): nat { if purpose.Decapsulate? then MAY_DECAPSULATE else MAY_SIGN }

    function Operation(): Operation { if purpose.Decapsulate? then Decapsulating else Signing }
  }

  /** `open_session`; the token comes from the random generator. */
  function OpenStep(sessions: Sessions, token: Token, o: SessionOptions, now: u64): (Result<Token>, Sessions) {
    if o.ttl == 0 || o.permissions == 0 then (Err(InvalidArgument), sessions) else
    var s := Session((now + o.ttl) % TWO_TO_THE_64, o.permissions, 0, 0, o.maxSigns, o.maxDecapsulations, o.allowedHandles,
                     o.allowedDomains, false);
    (Ok(token), sessions[token := s])
  }

  function CloseStep(sessions: Sessions, token: Token): (Result<Unit>, Sessions) {
    if token !in sessions then (Err(AuthenticationFailed), sessions)
    else (Ok(Unit), sessions[token := sessions[token].(closed := true)])
  }

  /** `mutable_session`: finding a session expired closes it. */
  function CheckStep(sessions: Sessions, token: Token, permission: nat, h: Handle, domain: Bytes, now: u64): (Result<Session>, Sessions) {
    if token !in sessions || sessions[token].closed then (Err(AuthenticationFailed), sessions) else
    var s := sessions[token];
    if s.expiresAt <= now then (Err(AuthenticationFailed), sessions[token := s.(closed := true)])
    else if !HasFlag(s.permissions, permission) then (Err(AuthenticationFailed), sessions)
    else if h != [] && s.allowedHandles != [] && h !in s.allowedHandles then (Err(AuthenticationFailed), sessions)
    else if domain != [] && s.allowedDomains != [] && domain !in s.allowedDomains then (Err(AuthenticationFailed), sessions)
    else (Ok(s), sessions)
  }

  function Used(s: Session, decapsulate: bool): u64 { if decapsulate then s.decapsulations else s.signs }

  function Limit(s: Session, decapsulate: bool): u64 { if decapsulate then s.maxDecapsulations else s.maxSigns }

  function Counted(s: Session, decapsulate: bool): Session {
    if decapsulate then s.(decapsulations := (s.decapsulations + 1) % TWO_TO_THE_64)
    else s.(signs := (s.signs + 1) % TWO_TO_THE_64)
  }

  /** The first locked part of a session call: the check and the session's own limit. */
  function AskStep(sessions: Sessions, token: Token, q: Request, now: u64): (Result<Unit>, Sessions) {
    var (r, after) := CheckStep(sessions, token, q.Permission(), q.handle, q.Domain(), now);
    match r
    case Err(e) => (Err(e), after)
    case Ok(s) =>
      var d := q.purpose.Decapsulate?;
      (if Limit(s, d) != 0 && Used(s, d) >= Limit(s, d) then Err(AuthenticationFailed) else Ok(Unit), after)
  }

  /** The last locked part: the check again, and the count. */
  function SettleStep(sessions: Sessions, token: Token, q: Request, now: u64): (Result<Unit>, Sessions) {
    var (r, after) := CheckStep(sessions, token, q.Permission(), q.handle, q.Domain(), now);
    match r
    case Err(e) => (Err(e), after)
    case Ok(s) => (Ok(Unit), after[token := Counted(s, q.purpose.Decapsulate?)])
  }

  /** The module's first part: the entry is copied under the lock and the copy is checked. */
  function Begin(entries: Entries, q: Request): Result<Sealed> {
    if q.handle !in entries then Err(InvalidKey) else
    var _ :- Validate(entries[q.handle], q.Operation(), q.Domain());
    Ok(entries[q.handle])
  }

  // ---- Callers ----

  /** Where a caller's current call stands. */
  datatype Phase =
    | Idle
    | Admitted(token: Token, request: Request)
    | Working(request: Request, via: Option<Token>)
    | Spent(token: Token, request: Request)

  /** A module operation returned a result; a session call returned one. */
  datatype Event = KeyUsed(use: Request) | Served(token: Token, request: Request)

  datatype System = System(entries: Entries, sessions: Sessions, callers: seq<Phase>, log: seq<Event>)

  datatype Step =
    | Admin(action: Action)
    | OpenSession(token: Token, options: SessionOptions, now: u64)
    | CloseSession(token: Token)
    | ExportPublic(token: Token, handle: Handle, now: u64)
    | AskSession(caller: nat, token: Token, request: Request, now: u64)
    | AskModule(caller: nat, request: Request)
    | Proceed(caller: nat)
    | Finish(caller: nat, works: bool, now: u64)
    | Settle(caller: nat, now: u64)

  function At(s: System, i: nat): Phase {
    if i < |s.callers| then s.callers[i] else Idle
  }

  function Move(s: System, i: nat, p: Phase): System
    requires i < |s.callers|
  {
    s.(callers := s.callers[i := p])
  }

  /** One locked step of one caller. A step the caller is not ready for does nothing. `works` says whether opening the
      secret and the primitive succeeded. */
  function Next(aead: Aead.Provider, master: Bytes, s: System, t: Step): System {
    match t
    case Admin(a) => if a.Record? then s else s.(entries := After(aead, master, s.entries, a))
    case OpenSession(token, o, now) => s.(sessions := OpenStep(s.sessions, token, o, now).1)
    case CloseSession(token) => s.(sessions := CloseStep(s.sessions, token).1)
    case ExportPublic(token, h, now) => s.(sessions := CheckStep(s.sessions, token, MAY_EXPORT_PUBLIC, h, [], now).1)
    case AskSession(i, token, q, now) =>
      if i >= |s.callers| || !s.callers[i].Idle? || q.purpose.SignMessage? then s else
      var (r, sessions) := AskStep(s.sessions, token, q, now);
      Move(s.(sessions := sessions), i, if r.Ok? then Admitted(token, q) else Idle)
    case AskModule(i, q) =>
      if i >= |s.callers| || !s.callers[i].Idle? || Begin(s.entries, q).Err? then s else Move(s, i, Working(q, None))
    case Proceed(i) =>
      if !At(s, i).Admitted? then s else
      var p := s.callers[i];
      Move(s, i, if Begin(s.entries, p.request).Ok? then Working(p.request, Some(p.token)) else Idle)
    case Finish(i, works, now) =>
      if !At(s, i).Working? then s else
      var p := s.callers[i];
      if !works || p.request.purpose == SignDomain([]) then Move(s, i, Idle) else
      var recorded := s.(entries := RecordStep(s.entries, p.request.handle, now), log := s.log + [KeyUsed(p.request)]);
      Move(recorded, i, if p.via.Some? then Spent(p.via.value, p.request) else Idle)
    case Settle(i, now) =>
      if !At(s, i).Spent? then s else
      var p := s.callers[i];
      var (r, sessions) := SettleStep(s.sessions, p.token, p.request, now);
      var settled := Move(s.(sessions := sessions), i, Idle);
      if r.Ok? then settled.(log := s.log + [Served(p.token, p.request)]) else settled
  }

  function Run(aead: Aead.Provider, master: Bytes, s: System, steps: seq<Step>): System
    decreases |steps|
  {
    if steps == [] then s else Run(aead, master, Next(aead, master, s, steps[0]), steps[1..])
  }

  // ---- Counting ----

  function Count<T>(xs: seq<T>, p: T -> bool): (n: nat)
    ensures n <= |xs|
  {
    if xs == [] then 0 else (if p(xs[0]) then 1 else 0) + Count(xs[1..], p)
  }

  function One(b: bool): nat { if b then 1 else 0 }

  lemma {:induction false} CountUpdate<T>(xs: seq<T>, i: nat, x: T, p: T -> bool)
    requires i < |xs|
    ensures Count(xs[i := x], p) + One(p(xs[i])) == Count(xs, p) + One(p(x))
  {
    if i == 0 {
      assert xs[0 := x][1..] == xs[1..];
    } else {
      CountUpdate(xs[1..], i - 1, x, p);
      assert xs[i := x][1..] == xs[1..][i - 1 := x];
    }
  }

  lemma {:induction false} CountSnoc<T>(xs: seq<T>, x: T, p: T -> bool)
    ensures Count(xs + [x], p) == Count(xs, p) + One(p(x))
  {
    if xs == [] {
      assert ([x])[1..] == [];
    } else {
      CountSnoc(xs[1..], x, p);
      assert (xs + [x])[1..] == xs[1..] + [x];
    }
  }

  lemma {:induction false} CountNone<T>(xs: seq<T>, p: T -> bool)
    requires forall x | x in xs :: !p(x)
    ensures Count(xs, p) == 0
  {
    if xs != [] {
      CountNone(xs[1..], p);
    }
  }

  /** Callers past the key's limit check. */
  function WorksOn(h: Handle): Phase -> bool { (p: Phase) => p.Working? && p.request.handle == h }

  /** Callers past a session's limit check that have not been counted yet. */
  function Owes(token: Token, decapsulate: bool): Phase -> bool {
    (p: Phase) =>
      && (p.Admitted? || p.Spent? || (p.Working? && p.via.Some?))
      && (if p.Working? then p.via.value else p.token) == token
      && p.request.purpose.Decapsulate? == decapsulate
  }

  /** Callers whose key operation is recorded and whose session is not. */
  function Unsettled(): Phase -> bool { (p: Phase) => p.Spent? }

  function UseOf(h: Handle): Event -> bool { (e: Event) => e.KeyUsed? && e.use.handle == h }

  function AnyUse(): Event -> bool { (e: Event) => e.KeyUsed? }

  // ---- One key ----

  /** The step puts no other object under `h`; it may erase it. */
  predicate Spares(t: Step, h: Handle) {
    t.Admin? ==>
      match t.action
      case Store(policy, _, _) => MakeHandle(policy) != h
      case Import(o) => o.policy.handle != h
      case _ => true
  }

  lemma AdminSpares(aead: Aead.Provider, master: Bytes, entries: Entries, a: Action, h: Handle)
    requires Spares(Admin(a), h) && !a.Record?
    ensures var after := After(aead, master, entries, a);
            h in after ==>
              && h in entries && after[h].policy == entries[h].policy
              && after[h].status.usedOperations == entries[h].status.usedOperations
  {
    hide OpenSecret, SealSecret, MakeHandle;
  }

  function Max(a: nat, b: nat): nat { if a < b then b else a }

  /** The counter is where it started plus the number of operations that returned a result, and running past a limit is
      bounded by the callers that were at work when it was reached. */
  ghost predicate KeyCounted(s: System, h: Handle, o: Policy, start: nat) {
    && (h in s.entries ==>
          && s.entries[h].policy == o
          && s.entries[h].status.usedOperations == (start + Count(s.log, UseOf(h))) % TWO_TO_THE_64)
    && (o.maxOperations != 0 && |s.callers| > 0 && start + |s.log| < TWO_TO_THE_64 ==>
          start + Count(s.log, UseOf(h)) + Count(s.callers, WorksOn(h)) <= Max(start, o.maxOperations + |s.callers| - 1))
  }

  lemma Moved(s: System, i: nat, p: Phase, h: Handle)
    requires i < |s.callers|
    ensures Count(Move(s, i, p).callers, WorksOn(h)) + One(WorksOn(h)(s.callers[i])) == Count(s.callers, WorksOn(h)) + One(WorksOn(h)(p))
  {
    CountUpdate(s.callers, i, p, WorksOn(h));
  }

  /** Entering the module needs room under the limit. */
  lemma BeginHasRoom(entries: Entries, q: Request)
    requires Begin(entries, q).Ok?
    ensures q.handle in entries && !Exhausted(entries[q.handle])
  {}

  lemma RecordCounts(entries: Entries, g: Handle, now: u64, h: Handle)
    ensures var after := RecordStep(entries, g, now);
            && (h in after <==> h in entries)
            && (h in entries ==>
                  && after[h].policy == entries[h].policy && after[h].status.state == entries[h].status.state
                  && after[h].status.usedOperations ==
                       (if g == h then (entries[h].status.usedOperations + 1) % TWO_TO_THE_64 else entries[h].status.usedOperations))
  {}

  lemma Wraps(n: nat)
    ensures (n % TWO_TO_THE_64 + 1) % TWO_TO_THE_64 == (n + 1) % TWO_TO_THE_64
  {}

  lemma FinishKeepsKey(aead: Aead.Provider, master: Bytes, s: System, t: Step, h: Handle, o: Policy, start: nat)
    requires t.Finish? && KeyCounted(s, h, o, start)
    ensures KeyCounted(Next(aead, master, s, t), h, o, start)
  {
    hide RecordStep, Count, WorksOn, UseOf, Max;
    var i := t.caller;
    if At(s, i).Working? {
      var p := s.callers[i];
      var g := p.request.handle;
      Worker(p, g, h);
      Moved(s, i, Idle, h);
      Worker(Idle, g, h);
      if t.works && p.request.purpose != SignDomain([]) {
        var next := if p.via.Some? then Spent(p.via.value, p.request) else Idle;
        Worker(next, g, h);
        Moved(s, i, next, h);
        RecordCounts(s.entries, g, t.now, h);
        CountSnoc(s.log, KeyUsed(p.request), UseOf(h));
        assert UseOf(h)(KeyUsed(p.request)) == (g == h) by { UseIs(h, p.request); }
        Wraps(start + Count(s.log, UseOf(h)));
      }
    }
  }

  lemma UseIs(h: Handle, q: Request)
    ensures UseOf(h)(KeyUsed(q)) == (q.handle == h)
  {}

  lemma Worker(p: Phase, g: Handle, h: Handle)
    ensures WorksOn(h)(p) == (p.Working? && p.request.handle == h)
  {}

  lemma StepKeepsKey(aead: Aead.Provider, master: Bytes, s: System, t: Step, h: Handle, o: Policy, start: nat)
    requires KeyCounted(s, h, o, start) && Spares(t, h)
    ensures KeyCounted(Next(aead, master, s, t), h, o, start)
  {
    hide Count, After, AskStep, SettleStep, OpenStep, CloseStep, CheckStep, Begin, RecordStep, WorksOn, MakeHandle;
    match t
    case Admin(a) => if !a.Record? { AdminSpares(aead, master, s.entries, a, h); }
    case Finish(_, _, _) => FinishKeepsKey(aead, master, s, t, h, o, start);
    case AskSession(i, token, q, now) =>
      if i < |s.callers| {
        Moved(s, i, Idle, h);
        Moved(s, i, Admitted(token, q), h);
        Worker(s.callers[i], [], h);
        Worker(Idle, [], h);
        Worker(Admitted(token, q), [], h);
      }
    case AskModule(i, q) => if i < |s.callers| && s.callers[i].Idle? { EnterKeepsKey(s, i, q, None, h, o, start); }
    case Proceed(i) =>
      if At(s, i).Admitted? {
        EnterKeepsKey(s, i, s.callers[i].request, Some(s.callers[i].token), h, o, start);
      }
    case Settle(i, now) =>
      if At(s, i).Spent? {
        Moved(s, i, Idle, h);
        Worker(s.callers[i], [], h);
        Worker(Idle, [], h);
        CountSnoc(s.log, Served(s.callers[i].token, s.callers[i].request), UseOf(h));
      }
    case _ =>
  }

  lemma WorkersFit(callers: seq<Phase>, i: nat, q: Request, via: Option<Token>, h: Handle)
    requires i < |callers|
    ensures Count(callers[i := Working(q, via)], WorksOn(h)) <= |callers|
  {}

  lemma EnterKeepsKey(s: System, i: nat, q: Request, via: Option<Token>, h: Handle, o: Policy, start: nat)
    requires KeyCounted(s, h, o, start) && i < |s.callers| && !s.callers[i].Working?
    ensures KeyCounted(Move(s, i, if Begin(s.entries, q).Ok? then Working(q, via) else Idle), h, o, start)
  {
    hide Count, Begin, WorksOn, UseOf;
    WorkersFit(s.callers, i, q, via, h);
    Moved(s, i, Idle, h);
    Moved(s, i, Working(q, via), h);
    Worker(s.callers[i], [], h);
    Worker(Idle, [], h);
    Worker(Working(q, via), [], h);
    if Begin(s.entries, q).Ok? {
      BeginHasRoom(s.entries, q);
    }
  }

  lemma {:induction false} RunKeepsKey(aead: Aead.Provider, master: Bytes, s: System, steps: seq<Step>, h: Handle, o: Policy, start: nat)
    requires KeyCounted(s, h, o, start) && forall t | t in steps :: Spares(t, h)
    ensures KeyCounted(Run(aead, master, s, steps), h, o, start)
    decreases |steps|
  {
    hide KeyCounted, Next, Spares;
    if steps != [] {
      StepKeepsKey(aead, master, s, steps[0], h, o, start);
      RunKeepsKey(aead, master, Next(aead, master, s, steps[0]), steps[1..], h, o, start);
    }
  }

  predicate Quiet(s: System) {
    forall i | 0 <= i < |s.callers| :: s.callers[i].Idle?
  }

  predicate AllIdle(s: System) {
    s.log == [] && Quiet(s)
  }

  /** Whatever `n` callers do, through sessions or directly and in any order, and whatever administrators do short of
      putting another object under its handle: a key's counter is what it was at the start plus the number of its
      operations that returned a result, and no more than `n - 1` of them go past a limit; a single caller never does. */
  lemma OperationsAreCounted(aead: Aead.Provider, master: Bytes, s: System, steps: seq<Step>, h: Handle)
    requires AllIdle(s) && |s.callers| > 0 && h in s.entries && forall t | t in steps :: Spares(t, h)
    requires s.entries[h].status.usedOperations + |Run(aead, master, s, steps).log| < TWO_TO_THE_64
    ensures var start, after := s.entries[h].status.usedOperations, Run(aead, master, s, steps);
            var limit := s.entries[h].policy.maxOperations;
            && (h in after.entries ==> after.entries[h].status.usedOperations == start + Count(after.log, UseOf(h)))
            && (limit != 0 ==> start + Count(after.log, UseOf(h)) <= Max(start, limit + |s.callers| - 1))
  {
    hide Next, Spares, MakeHandle;
    var o, start := s.entries[h].policy, s.entries[h].status.usedOperations;
    CountNone(s.callers, WorksOn(h));
    assert KeyCounted(s, h, o, start);
    RunKeepsKey(aead, master, s, steps, h, o, start);
    CallersStay(aead, master, s, steps);
  }

  lemma {:induction false} CallersStay(aead: Aead.Provider, master: Bytes, s: System, steps: seq<Step>)
    ensures |Run(aead, master, s, steps).callers| == |s.callers|
    decreases |steps|
  {
    if steps != [] {
      hide After, AskStep, SettleStep, OpenStep, CloseStep, CheckStep, Begin, RecordStep;
      CallersStay(aead, master, Next(aead, master, s, steps[0]), steps[1..]);
    }
  }

  lemma {:induction false} RunSnoc(aead: Aead.Provider, master: Bytes, s: System, steps: seq<Step>, t: Step)
    ensures Run(aead, master, s, steps + [t]) == Next(aead, master, Run(aead, master, s, steps), t)
    decreases |steps|
  {
    hide Next;
    if steps == [] {
      RunCons(aead, master, s, t, []);
      assert [t] + [] == [] + [t];
    } else {
      assert steps + [t] == [steps[0]] + (steps[1..] + [t]);
      RunCons(aead, master, s, steps[0], steps[1..] + [t]);
      RunSnoc(aead, master, Next(aead, master, s, steps[0]), steps[1..], t);
    }
  }

  lemma RunCons(aead: Aead.Provider, master: Bytes, s: System, t: Step, rest: seq<Step>)
    ensures Run(aead, master, s, [t] + rest) == Run(aead, master, Next(aead, master, s, t), rest)
  {
    hide Next;
    assert ([t] + rest)[1..] == rest;
  }

  lemma Run4(aead: Aead.Provider, master: Bytes, s: System, t: Step, u: Step, v: Step, w: Step)
    ensures Run(aead, master, s, [t, u, v, w]) ==
            Next(aead, master, Next(aead, master, Next(aead, master, Next(aead, master, s, t), u), v), w)
  {
    hide Next;
    assert [t, u, v, w] == [t] + [u, v, w] && [u, v, w] == [u] + [v, w] && [v, w] == [v] + [w] && [w] == [w] + [];
    var a := Next(aead, master, s, t);
    var b := Next(aead, master, a, u);
    RunCons(aead, master, s, t, [u, v, w]);
    RunCons(aead, master, a, u, [v, w]);
    RunCons(aead, master, b, v, [w]);
    RunCons(aead, master, Next(aead, master, b, v), w, []);
  }

  // ---- One session ----

  lemma CheckOnlyCloses(sessions: Sessions, token: Token, permission: nat, h: Handle, domain: Bytes, now: u64)
    ensures var (r, after) := CheckStep(sessions, token, permission, h, domain, now);
            && (r.Ok? ==> after == sessions && token in sessions && r.value == sessions[token] && !sessions[token].closed)
            && OnlyCloses(sessions, after)
  {}

  /** Nothing but `closed` flags changed. */
  ghost predicate OnlyCloses(sessions: Sessions, after: Sessions) {
    && after.Keys == sessions.Keys
    && forall k | k in sessions :: after[k] == sessions[k] || after[k] == sessions[k].(closed := true)
  }

  ghost predicate SessionCounted(s: System, token: Token, d: bool) {
    token in s.sessions && Limit(s.sessions[token], d) != 0 && |s.callers| > 0 ==>
      Used(s.sessions[token], d) + Count(s.callers, Owes(token, d)) <= Limit(s.sessions[token], d) + |s.callers| - 1
  }

  lemma Ower(p: Phase, token: Token, d: bool)
    ensures Owes(token, d)(p) ==
            (&& (p.Admitted? || p.Spent? || (p.Working? && p.via.Some?))
             && (if p.Working? then p.via.value else p.token) == token
             && p.request.purpose.Decapsulate? == d)
  {}

  lemma MovedOwer(s: System, i: nat, p: Phase, token: Token, d: bool)
    requires i < |s.callers|
    ensures Count(s.callers[i := p], Owes(token, d)) + One(Owes(token, d)(s.callers[i])) ==
            Count(s.callers, Owes(token, d)) + One(Owes(token, d)(p))
  {
    CountUpdate(s.callers, i, p, Owes(token, d));
  }

  lemma SettleKeepsSession(aead: Aead.Provider, master: Bytes, s: System, t: Step, token: Token, d: bool)
    requires t.Settle? && SessionCounted(s, token, d)
    ensures SessionCounted(Next(aead, master, s, t), token, d)
  {
    hide Count, CheckStep, Owes;
    var i := t.caller;
    if At(s, i).Spent? {
      var p := s.callers[i];
      MovedOwer(s, i, Idle, token, d);
      Ower(p, token, d);
      Ower(Idle, token, d);
      CheckOnlyCloses(s.sessions, p.token, p.request.Permission(), p.request.handle, p.request.Domain(), t.now);
    }
  }

  lemma AskKeepsSession(aead: Aead.Provider, master: Bytes, s: System, t: Step, token: Token, d: bool)
    requires t.AskSession? && SessionCounted(s, token, d)
    ensures SessionCounted(Next(aead, master, s, t), token, d)
  {
    hide Count, CheckStep, Owes;
    var i, q := t.caller, t.request;
    if i < |s.callers| && s.callers[i].Idle? && !q.purpose.SignMessage? {
      var entering := Admitted(t.token, q);
      MovedOwer(s, i, Idle, token, d);
      MovedOwer(s, i, entering, token, d);
      Ower(s.callers[i], token, d);
      Ower(Idle, token, d);
      Ower(entering, token, d);
      CheckOnlyCloses(s.sessions, t.token, q.Permission(), q.handle, q.Domain(), t.now);
    }
  }

  lemma StepKeepsSession(aead: Aead.Provider, master: Bytes, s: System, t: Step, token: Token, d: bool)
    requires SessionCounted(s, token, d)
    ensures SessionCounted(Next(aead, master, s, t), token, d)
  {
    hide Count, After, CheckStep, Begin, RecordStep, Owes, AskStep, SettleStep, HasFlag;
    match t
    case AskSession(_, _, _, _) => AskKeepsSession(aead, master, s, t, token, d);
    case Settle(_, _) => SettleKeepsSession(aead, master, s, t, token, d);
    case ExportPublic(k, h, now) => CheckOnlyCloses(s.sessions, k, MAY_EXPORT_PUBLIC, h, [], now);
    case AskModule(i, q) =>
      if i < |s.callers| {
        MovedOwer(s, i, Working(q, None), token, d);
        Ower(s.callers[i], token, d);
        Ower(Working(q, None), token, d);
      }
    case Proceed(i) =>
      if At(s, i).Admitted? {
        var p := s.callers[i];
        MovedOwer(s, i, Idle, token, d);
        MovedOwer(s, i, Working(p.request, Some(p.token)), token, d);
        Ower(p, token, d);
        Ower(Idle, token, d);
        Ower(Working(p.request, Some(p.token)), token, d);
      }
    case Finish(i, _, _) =>
      if At(s, i).Working? {
        var p := s.callers[i];
        var next := if p.via.Some? then Spent(p.via.value, p.request) else Idle;
        MovedOwer(s, i, Idle, token, d);
        MovedOwer(s, i, next, token, d);
        Ower(p, token, d);
        Ower(Idle, token, d);
        Ower(next, token, d);
      }
    case _ =>
  }

  lemma {:induction false} RunKeepsSession(aead: Aead.Provider, master: Bytes, s: System, steps: seq<Step>, token: Token, d: bool)
    requires SessionCounted(s, token, d)
    ensures SessionCounted(Run(aead, master, s, steps), token, d)
    decreases |steps|
  {
    hide SessionCounted, Next;
    if steps != [] {
      StepKeepsSession(aead, master, s, steps[0], token, d);
      RunKeepsSession(aead, master, Next(aead, master, s, steps[0]), steps[1..], token, d);
    }
  }

  /** The same bound for each counter of each session, over every run that starts without sessions: at most `n - 1` calls
      go past a session's limit. */
  lemma SessionLimitHolds(aead: Aead.Provider, master: Bytes, s: System, steps: seq<Step>, token: Token, d: bool)
    requires AllIdle(s) && s.sessions == map[] && |s.callers| > 0
    ensures var after := Run(aead, master, s, steps);
            token in after.sessions && Limit(after.sessions[token], d) != 0 ==>
              Used(after.sessions[token], d) <= Limit(after.sessions[token], d) + |s.callers| - 1
  {
    hide Next;
    RunKeepsSession(aead, master, s, steps, token, d);
    CallersStay(aead, master, s, steps);
  }

  // ---- All sessions together ----

  function OperationsOf(s: Session): nat { s.signs + s.decapsulations }

  /** The sum of all session counters. */
  ghost function Total(sessions: Sessions): nat {
    if sessions == map[] then 0 else
    var k :| k in sessions;
    OperationsOf(sessions[k]) + Total(sessions - {k})
  }

  lemma {:induction false} TotalWithout(sessions: Sessions, k: Token)
    requires k in sessions
    ensures Total(sessions) == OperationsOf(sessions[k]) + Total(sessions - {k})
    decreases |sessions|
  {
    hide OperationsOf;
    var j :| j in sessions && Total(sessions) == OperationsOf(sessions[j]) + Total(sessions - {j});
    if j != k {
      TotalWithout(sessions - {j}, k);
      assert (sessions - {j}) - {k} == (sessions - {k}) - {j};
      TotalWithout(sessions - {k}, j);
    }
  }

  lemma TotalUpdate(sessions: Sessions, k: Token, s: Session)
    ensures Total(sessions[k := s]) == OperationsOf(s) + Total(sessions - {k})
  {
    hide OperationsOf, Total;
    TotalWithout(sessions[k := s], k);
    assert sessions[k := s] - {k} == sessions - {k};
  }

  /** Replacing one session moves the sum by the difference of their counters. */
  lemma TotalMoves(sessions: Sessions, k: Token, s: Session)
    ensures Total(sessions[k := s]) + (if k in sessions then OperationsOf(sessions[k]) else 0) == Total(sessions) + OperationsOf(s)
  {
    hide OperationsOf, Total;
    TotalUpdate(sessions, k, s);
    if k in sessions {
      TotalWithout(sessions, k);
    } else {
      assert sessions - {k} == sessions;
    }
  }

  ghost predicate Covered(s: System) {
    Total(s.sessions) + Count(s.callers, Unsettled()) <= Count(s.log, AnyUse())
  }

  lemma CheckKeepsTotal(sessions: Sessions, token: Token, permission: nat, h: Handle, domain: Bytes, now: u64)
    ensures Total(CheckStep(sessions, token, permission, h, domain, now).1) == Total(sessions)
  {
    hide Total;
    if token in sessions {
      TotalMoves(sessions, token, sessions[token].(closed := true));
    }
  }

  lemma MovedUnsettled(s: System, i: nat, p: Phase)
    requires i < |s.callers|
    ensures Count(s.callers[i := p], Unsettled()) + One(s.callers[i].Spent?) == Count(s.callers, Unsettled()) + One(p.Spent?)
  {
    CountUpdate(s.callers, i, p, Unsettled());
    assert Unsettled()(s.callers[i]) == s.callers[i].Spent? && Unsettled()(p) == p.Spent?;
  }

  lemma LogGrows(log: seq<Event>, e: Event)
    ensures Count(log + [e], AnyUse()) == Count(log, AnyUse()) + One(e.KeyUsed?)
  {
    CountSnoc(log, e, AnyUse());
    assert AnyUse()(e) == e.KeyUsed?;
  }

  lemma SettleCovered(aead: Aead.Provider, master: Bytes, s: System, t: Step)
    requires t.Settle? && Covered(s)
    ensures Covered(Next(aead, master, s, t))
  {
    hide Count, Total, CheckStep, Unsettled, AnyUse;
    var i := t.caller;
    if At(s, i).Spent? {
      var p := s.callers[i];
      var q := p.request;
      MovedUnsettled(s, i, Idle);
      CheckKeepsTotal(s.sessions, p.token, q.Permission(), q.handle, q.Domain(), t.now);
      CheckOnlyCloses(s.sessions, p.token, q.Permission(), q.handle, q.Domain(), t.now);
      LogGrows(s.log, Served(p.token, q));
      if p.token in s.sessions {
        TotalMoves(s.sessions, p.token, Counted(s.sessions[p.token], q.purpose.Decapsulate?));
      }
    }
  }

  lemma StepCovered(aead: Aead.Provider, master: Bytes, s: System, t: Step)
    requires Covered(s)
    ensures Covered(Next(aead, master, s, t))
  {
    hide Count, Total, After, CheckStep, Begin, RecordStep, SettleStep, Unsettled, AnyUse;
    match t
    case Settle(_, _) => SettleCovered(aead, master, s, t);
    case OpenSession(token, o, now) =>
      if OpenStep(s.sessions, token, o, now).0.Ok? {
        TotalMoves(s.sessions, token, OpenStep(s.sessions, token, o, now).1[token]);
      }
    case CloseSession(token) => if token in s.sessions { TotalMoves(s.sessions, token, s.sessions[token].(closed := true)); }
    case ExportPublic(token, h, now) => CheckKeepsTotal(s.sessions, token, MAY_EXPORT_PUBLIC, h, [], now);
    case AskSession(i, token, q, now) =>
      CheckKeepsTotal(s.sessions, token, q.Permission(), q.handle, q.Domain(), now);
      if i < |s.callers| {
        MovedUnsettled(s, i, Idle);
        MovedUnsettled(s, i, Admitted(token, q));
      }
    case AskModule(i, q) => if i < |s.callers| { MovedUnsettled(s, i, Working(q, None)); }
    case Proceed(i) =>
      if At(s, i).Admitted? {
        MovedUnsettled(s, i, Idle);
        MovedUnsettled(s, i, Working(s.callers[i].request, Some(s.callers[i].token)));
      }
    case Finish(i, _, _) =>
      if At(s, i).Working? {
        var p := s.callers[i];
        MovedUnsettled(s, i, Idle);
        MovedUnsettled(s, i, if p.via.Some? then Spent(p.via.value, p.request) else Idle);
        LogGrows(s.log, KeyUsed(p.request));
      }
    case Admin(_) =>
  }

  lemma {:induction false} RunCovered(aead: Aead.Provider, master: Bytes, s: System, steps: seq<Step>)
    requires Covered(s)
    ensures Covered(Run(aead, master, s, steps))
    decreases |steps|
  {
    hide Covered, Next;
    if steps != [] {
      StepCovered(aead, master, s, steps[0]);
      RunCovered(aead, master, Next(aead, master, s, steps[0]), steps[1..]);
    }
  }

  /** However calls interleave, the counters of all sessions together never exceed the key operations that returned, over
      every run that starts without sessions. */
  lemma SessionsCovered(aead: Aead.Provider, master: Bytes, s: System, steps: seq<Step>)
    requires AllIdle(s) && s.sessions == map[]
    ensures var after := Run(aead, master, s, steps); Total(after.sessions) <= Count(after.log, AnyUse())
  {
    hide Next;
    CountNone(s.callers, Unsettled());
    RunCovered(aead, master, s, steps);
  }

  // ---- Closed for good ----

  function ServedBy(token: Token): Event -> bool { (e: Event) => e.Served? && e.token == token }

  lemma StepStaysClosed(aead: Aead.Provider, master: Bytes, s: System, t: Step, token: Token)
    requires token in s.sessions && s.sessions[token].closed && !(t.OpenSession? && t.token == token)
    ensures var after := Next(aead, master, s, t);
            && token in after.sessions && after.sessions[token] == s.sessions[token]
            && Count(after.log, ServedBy(token)) == Count(s.log, ServedBy(token))
  {
    hide Count, After, Begin, RecordStep;
    match t
    case Finish(i, _, _) =>
      if At(s, i).Working? { CountSnoc(s.log, KeyUsed(s.callers[i].request), ServedBy(token)); }
    case Settle(i, _) =>
      if At(s, i).Spent? { CountSnoc(s.log, Served(s.callers[i].token, s.callers[i].request), ServedBy(token)); }
    case _ =>
  }

  /** A closed session never serves a call again, whatever the clock says later: its record does not change. */
  lemma {:induction false} ClosedForGood(aead: Aead.Provider, master: Bytes, s: System, steps: seq<Step>, token: Token)
    requires token in s.sessions && s.sessions[token].closed
    requires forall t | t in steps :: !(t.OpenSession? && t.token == token)
    ensures var after := Run(aead, master, s, steps);
            && token in after.sessions && after.sessions[token] == s.sessions[token]
            && Count(after.log, ServedBy(token)) == Count(s.log, ServedBy(token))
    decreases |steps|
  {
    hide Next, Count;
    if steps != [] {
      StepStaysClosed(aead, master, s, steps[0], token);
      ClosedForGood(aead, master, Next(aead, master, s, steps[0]), steps[1..], token);
    }
  }

  /** And one refusal for expiry closes it, even if the clock then moves back. */
  lemma ExpiredForGood(aead: Aead.Provider, master: Bytes, s: System, i: nat, token: Token, q: Request, now: u64, steps: seq<Step>)
    requires token in s.sessions && s.sessions[token].expiresAt <= now && At(s, i).Idle? && i < |s.callers| && !q.purpose.SignMessage?
    requires forall t | t in steps :: !(t.OpenSession? && t.token == token)
    ensures var asked := Next(aead, master, s, AskSession(i, token, q, now));
            var after := Run(aead, master, asked, steps);
            && At(asked, i).Idle? && token in after.sessions && after.sessions[token].closed
            && after.sessions[token].(closed := false) == s.sessions[token].(closed := false)
            && Count(after.log, ServedBy(token)) == Count(s.log, ServedBy(token))
  {
    hide Run, Count;
    ClosedForGood(aead, master, Next(aead, master, s, AskSession(i, token, q, now)), steps, token);
  }

  /** But a call that was let in before the session closed still uses up one operation of the key; only its result is
      withheld. */
  lemma ClosedCallStillSpends(aead: Aead.Provider, master: Bytes, s: System, i: nat, now: u64, later: u64)
    requires At(s, i).Admitted? && s.callers[i].token in s.sessions && Begin(s.entries, s.callers[i].request).Ok?
    requires s.callers[i].request.purpose != SignDomain([])
    ensures var p := s.callers[i];
            var after := Run(aead, master, s, [CloseSession(p.token), Proceed(i), Finish(i, true, now), Settle(i, later)]);
            && after.entries == RecordStep(s.entries, p.request.handle, now) && At(after, i).Idle?
            && after.log == s.log + [KeyUsed(p.request)]
  {
    hide Begin, RecordStep;
    var p := s.callers[i];
    Run4(aead, master, s, CloseSession(p.token), Proceed(i), Finish(i, true, now), Settle(i, later));
  }

  // ---- The object ----

  /** One session call with nothing in between, as a run of a single caller. */
  function Alone(aead: Aead.Provider, master: Bytes, entries: Entries, sessions: Sessions, token: Token, q: Request, works: bool,
                 asked: u64, worked: u64, settled: u64): System
  {
    Run(aead, master, System(entries, sessions, [Idle], []),
        [AskSession(0, token, q, asked), Proceed(0), Finish(0, works, worked), Settle(0, settled)])
  }

  lemma AloneIs(aead: Aead.Provider, master: Bytes, entries: Entries, sessions: Sessions, token: Token, q: Request, works: bool,
                asked: u64, worked: u64, settled: u64)
    ensures Alone(aead, master, entries, sessions, token, q, works, asked, worked, settled) ==
            var a := Next(aead, master, System(entries, sessions, [Idle], []), AskSession(0, token, q, asked));
            var b := Next(aead, master, a, Proceed(0));
            Next(aead, master, Next(aead, master, b, Finish(0, works, worked)), Settle(0, settled))
  {
    hide Next, Run;
    Run4(aead, master, System(entries, sessions, [Idle], []), AskSession(0, token, q, asked), Proceed(0),
         Finish(0, works, worked), Settle(0, settled));
  }

  class SsmSessionManager {
    const ssm: SoftwareSecurityModule
    var sessions: Sessions

    constructor (ssm: SoftwareSecurityModule)
      ensures this.ssm == ssm && sessions == map[]
    {
      this.ssm := ssm;
      sessions := map[];
    }

    method OpenNew(token: Token, o: SessionOptions, now: u64) returns (r: Result<Token>)
      modifies this`sessions
      ensures (r, sessions) == OpenStep(old(sessions), token, o, now)
    {
      if o.ttl == 0 || o.permissions == 0 {
        return Err(InvalidArgument);
      }
      var s := Session((now + o.ttl) % TWO_TO_THE_64, o.permissions, 0, 0, o.maxSigns, o.maxDecapsulations, o.allowedHandles,
                       o.allowedDomains, false);
      sessions := sessions[token := s];
      r := Ok(token);
    }

    method Close(token: Token) returns (r: Result<Unit>)
      modifies this`sessions
      ensures (r, sessions) == CloseStep(old(sessions), token)
    {
      if token !in sessions {
        return Err(AuthenticationFailed);
      }
      sessions := sessions[token := sessions[token].(closed := true)];
      r := Ok(Unit);
    }

    method MutableSession(token: Token, permission: nat, h: Handle, domain: Bytes, now: u64) returns (r: Result<Session>)
      modifies this`sessions
      ensures (r, sessions) == CheckStep(old(sessions), token, permission, h, domain, now)
    {
      if token !in sessions {
        return Err(AuthenticationFailed);
      }
      var s := sessions[token];
      if s.closed {
        return Err(AuthenticationFailed);
      }
      if s.expiresAt <= now {
        sessions := sessions[token := s.(closed := true)];
        return Err(AuthenticationFailed);
      }
      if !HasFlag(s.permissions, permission) {
        return Err(AuthenticationFailed);
      }
      if h != [] && s.allowedHandles != [] && h !in s.allowedHandles {
        return Err(AuthenticationFailed);
      }
      if domain != [] && s.allowedDomains != [] && domain !in s.allowedDomains {
        return Err(AuthenticationFailed);
      }
      r := Ok(s);
    }

    method Ask(token: Token, q: Request, now: u64) returns (r: Result<Unit>)
      modifies this`sessions
      ensures (r, sessions) == AskStep(old(sessions), token, q, now)
    {
      hide CheckStep;
      var s := MutableSession(token, q.Permission(), q.handle, q.Domain(), now);
      if s.Err? {
        return Err(s.error);
      }
      var d := q.purpose.Decapsulate?;
      if Limit(s.value, d) != 0 && Used(s.value, d) >= Limit(s.value, d) {
        return Err(AuthenticationFailed);
      }
      r := Ok(Unit);
    }

    method SettleCall(token: Token, q: Request, now: u64) returns (r: Result<Unit>)
      modifies this`sessions
      ensures (r, sessions) == SettleStep(old(sessions), token, q, now)
    {
      hide CheckStep;
      var s := MutableSession(token, q.Permission(), q.handle, q.Domain(), now);
      if s.Err? {
        return Err(s.error);
      }
      sessions := sessions[token := Counted(s.value, q.purpose.Decapsulate?)];
      r := Ok(Unit);
    }

    /** `sign_domain` and `decapsulate` of a session: the steps of one caller in order. */
    method Operate(token: Token, q: Request, works: bool, asked: u64, worked: u64, settled: u64) returns (r: Result<Unit>)
      requires ssm.Valid() && !q.purpose.SignMessage?
      modifies this`sessions, ssm`entries
      ensures ssm.Valid()
      ensures var after := Alone(ssm.aead, ssm.master, old(ssm.entries), old(sessions), token, q, works, asked, worked, settled);
              && sessions == after.sessions && ssm.entries == after.entries
              && (r.Ok? <==> after.log == [KeyUsed(q), Served(token, q)])
    {
      hide Intact, AskStep, SettleStep, Begin, RecordStep, Alone;
      AloneIs(ssm.aead, ssm.master, ssm.entries, sessions, token, q, works, asked, worked, settled);
      var admitted := Ask(token, q, asked);
      if admitted.Err? {
        return admitted;
      }
      var entry := Begin(ssm.entries, q);
      if entry.Err? {
        return Err(entry.error);
      }
      if !works || q.purpose == SignDomain([]) {
        return Err(InternalError);
      }
      ssm.RecordOperation(q.handle, worked);
      r := SettleCall(token, q, settled);
    }
  }
}
