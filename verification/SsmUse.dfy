/** What the checks in front of a key and a session amount to over whole runs of many callers (src/security/ssm.cpp). */
module SsmUse {
  import opened Core
  import opened SsmObject
  import opened SsmModule
  import opened SsmSessions
  import Aead

  // ---- A key is used only for what its policy permits ----

  /** What a key may be used for. Without a domain of its own a key signs for any domain; with one it signs for that
      domain only, and no plain messages. */
  predicate Permits(p: Policy, purpose: Purpose) {
    match purpose
    case SignMessage => p.objectType == SIGN && HasFlag(p.flags, ALLOW_SIGN) && p.allowedDomain == []
    case SignDomain(d) => p.objectType == SIGN && HasFlag(p.flags, ALLOW_SIGN) && (p.allowedDomain == [] || d == p.allowedDomain)
    case Decapsulate => p.objectType == KEM && HasFlag(p.flags, ALLOW_DECAPSULATE)
  }

  /** A call gets past the module's checks exactly when its key is there and active, has room under its limit and
      permits the purpose. */
  lemma BeginExactly(entries: Entries, q: Request)
    ensures Begin(entries, q).Ok? <==>
            && q.handle in entries && entries[q.handle].status.state == ACTIVE && !Exhausted(entries[q.handle])
            && Permits(entries[q.handle].policy, q.purpose)
  {
    hide HasFlag;
  }

  ghost predicate Lawful(s: System, h: Handle, o: Policy) {
    && (h in s.entries ==> s.entries[h].policy == o)
    && (forall i | 0 <= i < |s.callers| :: PhaseLawful(s.callers[i], h, o))
    && (forall e | e in s.log :: UseLawful(e, h, o))
  }

  predicate PhaseLawful(p: Phase, h: Handle, o: Policy) {
    p.Working? && p.request.handle == h ==> Permits(o, p.request.purpose)
  }

  predicate UseLawful(e: Event, h: Handle, o: Policy) {
    e.KeyUsed? && e.use.handle == h ==> Permits(o, e.use.purpose) && e.use.purpose != SignDomain([])
  }

  lemma StepStaysLawful(aead: Aead.Provider, master: Bytes, s: System, t: Step, h: Handle, o: Policy)
    requires Lawful(s, h, o) && Spares(t, h)
    ensures Lawful(Next(aead, master, s, t), h, o)
  {
    hide After, AskStep, SettleStep, OpenStep, CloseStep, CheckStep, Begin, RecordStep, MakeHandle, Permits;
    match t
    case Admin(a) => if !a.Record? { AdminSpares(aead, master, s.entries, a, h); }
    case AskModule(i, q) => BeginExactly(s.entries, q);
    case Proceed(i) => if At(s, i).Admitted? { BeginExactly(s.entries, s.callers[i].request); }
    case Finish(i, works, now) => if At(s, i).Working? { RecordCounts(s.entries, s.callers[i].request.handle, now, h); }
    case _ =>
  }

  lemma {:induction false} RunStaysLawful(aead: Aead.Provider, master: Bytes, s: System, steps: seq<Step>, h: Handle, o: Policy)
    requires Lawful(s, h, o) && forall t | t in steps :: Spares(t, h)
    ensures Lawful(SsmSessions.Run(aead, master, s, steps), h, o)
    decreases |steps|
  {
    hide Lawful, Next, Spares;
    if steps != [] {
      StepStaysLawful(aead, master, s, steps[0], h, o);
      RunStaysLawful(aead, master, Next(aead, master, s, steps[0]), steps[1..], h, o);
    }
  }

  /** Whatever callers and administrators do at once, erasing the key included, as long as no other object is put under
      its handle: every operation of a key that returned a result was one its policy permits, with the right type, the
      flag, and the key's own domain if it has one. */
  lemma UsesWerePermitted(aead: Aead.Provider, master: Bytes, s: System, steps: seq<Step>, h: Handle)
    requires AllIdle(s) && h in s.entries && forall t | t in steps :: Spares(t, h)
    ensures forall e | e in SsmSessions.Run(aead, master, s, steps).log && e.KeyUsed? && e.use.handle == h ::
              Permits(s.entries[h].policy, e.use.purpose) && e.use.purpose != SignDomain([])
  {
    RunStaysLawful(aead, master, s, steps, h, s.entries[h].policy);
    hide SsmSessions.Run, Spares;
  }

  // ---- A key that is no longer active stops ----

  /** The step does not make `h` active again. */
  predicate LeavesInactive(t: Step, h: Handle) {
    Spares(t, h) && t != Admin(SetState(h, ACTIVE))
  }

  ghost predicate Stopped(s: System, h: Handle, most: nat) {
    && (h in s.entries ==> s.entries[h].status.state != ACTIVE)
    && Count(s.log, UseOf(h)) + Count(s.callers, WorksOn(h)) <= most
  }

  lemma AdminLeavesInactive(aead: Aead.Provider, master: Bytes, entries: Entries, a: Action, h: Handle)
    requires h in entries ==> entries[h].status.state != ACTIVE
    requires LeavesInactive(Admin(a), h) && !a.Record?
    ensures var after := After(aead, master, entries, a); h in after ==> after[h].status.state != ACTIVE
  {
    hide OpenSecret, SealSecret, MakeHandle;
  }

  lemma FinishStaysStopped(aead: Aead.Provider, master: Bytes, s: System, t: Step, h: Handle, most: nat)
    requires t.Finish? && Stopped(s, h, most)
    ensures Stopped(Next(aead, master, s, t), h, most)
  {
    hide RecordStep, Count, WorksOn, UseOf;
    var i := t.caller;
    if At(s, i).Working? {
      var p := s.callers[i];
      var next := if p.via.Some? then Spent(p.via.value, p.request) else Idle;
      Worker(p, [], h);
      Worker(next, [], h);
      Worker(Idle, [], h);
      Moved(s, i, Idle, h);
      Moved(s, i, next, h);
      RecordCounts(s.entries, p.request.handle, t.now, h);
      CountSnoc(s.log, KeyUsed(p.request), UseOf(h));
      UseIs(h, p.request);
    }
  }

  lemma StepStaysStopped(aead: Aead.Provider, master: Bytes, s: System, t: Step, h: Handle, most: nat)
    requires Stopped(s, h, most) && LeavesInactive(t, h)
    ensures Stopped(Next(aead, master, s, t), h, most)
  {
    hide Count, After, AskStep, SettleStep, OpenStep, CloseStep, CheckStep, Begin, RecordStep, WorksOn, MakeHandle, Spares;
    match t
    case Admin(a) => if !a.Record? { AdminLeavesInactive(aead, master, s.entries, a, h); }
    case Finish(_, _, _) => FinishStaysStopped(aead, master, s, t, h, most);
    case AskSession(i, token, q, now) =>
      if i < |s.callers| {
        Moved(s, i, Idle, h);
        Moved(s, i, Admitted(token, q), h);
        Worker(Idle, [], h);
        Worker(Admitted(token, q), [], h);
      }
    case AskModule(i, q) => if i < |s.callers| && s.callers[i].Idle? { EnterStaysStopped(s, i, q, None, h, most); }
    case Proceed(i) =>
      if At(s, i).Admitted? {
        EnterStaysStopped(s, i, s.callers[i].request, Some(s.callers[i].token), h, most);
      }
    case Settle(i, now) =>
      if At(s, i).Spent? {
        Moved(s, i, Idle, h);
        Worker(Idle, [], h);
        CountSnoc(s.log, Served(s.callers[i].token, s.callers[i].request), UseOf(h));
      }
    case _ =>
  }

  lemma EnterStaysStopped(s: System, i: nat, q: Request, via: Option<Token>, h: Handle, most: nat)
    requires Stopped(s, h, most) && i < |s.callers| && !s.callers[i].Working?
    ensures Stopped(Move(s, i, if Begin(s.entries, q).Ok? then Working(q, via) else Idle), h, most)
  {
    hide Count, Begin, WorksOn, UseOf;
    Moved(s, i, Idle, h);
    Moved(s, i, Working(q, via), h);
    Worker(s.callers[i], [], h);
    Worker(Idle, [], h);
    Worker(Working(q, via), [], h);
    BeginExactly(s.entries, q);
  }

  /** Once a key is disabled, locked, retired, destroyed, marked in any other way or erased, and until it is made active
      again or another object is put under its handle, it yields no more results than there were callers already at work
      on it. */
  lemma {:induction false} DisabledKeyStops(aead: Aead.Provider, master: Bytes, s: System, steps: seq<Step>, h: Handle, most: nat)
    requires Stopped(s, h, most) && forall t | t in steps :: LeavesInactive(t, h)
    ensures Count(SsmSessions.Run(aead, master, s, steps).log, UseOf(h)) <= most
    decreases |steps|
  {
    hide Next, LeavesInactive;
    if steps != [] {
      StepStaysStopped(aead, master, s, steps[0], h, most);
      DisabledKeyStops(aead, master, Next(aead, master, s, steps[0]), steps[1..], h, most);
    }
  }

  // ---- A session serves only what it allows ----

  predicate Allows(s: Session, q: Request) {
    && HasFlag(s.permissions, q.Permission())
    && (s.allowedHandles == [] || q.handle == [] || q.handle in s.allowedHandles)
    && (s.allowedDomains == [] || q.Domain() == [] || q.Domain() in s.allowedDomains)
  }

  ghost predicate Granted(e: Event, sessions: Sessions) {
    e.Served? ==> e.token in sessions && Allows(sessions[e.token], e.request)
  }

  ghost predicate AllGranted(s: System) {
    forall e | e in s.log :: Granted(e, s.sessions)
  }

  /** Sessions of `after` allow what they allowed before. */
  ghost predicate SameGrants(before: Sessions, after: Sessions) {
    forall k | k in before ::
      && k in after && after[k].permissions == before[k].permissions
      && after[k].allowedHandles == before[k].allowedHandles && after[k].allowedDomains == before[k].allowedDomains
  }

  lemma CheckGrants(sessions: Sessions, token: Token, q: Request, now: u64)
    ensures var (r, after) := SettleStep(sessions, token, q, now);
            SameGrants(sessions, after) && (r.Ok? ==> token in after && Allows(after[token], q))
    ensures SameGrants(sessions, AskStep(sessions, token, q, now).1)
  {
    hide HasFlag;
  }

  lemma ExportGrants(sessions: Sessions, token: Token, h: Handle, now: u64)
    ensures SameGrants(sessions, CheckStep(sessions, token, MAY_EXPORT_PUBLIC, h, [], now).1)
  {
    hide HasFlag;
  }

  lemma GrantsStay(log: seq<Event>, before: Sessions, after: Sessions)
    requires SameGrants(before, after) && forall e | e in log :: Granted(e, before)
    ensures forall e | e in log :: Granted(e, after)
  {
    hide HasFlag;
  }

  /** The session tokens drawn are new. */
  ghost predicate FreshTokens(aead: Aead.Provider, master: Bytes, s: System, steps: seq<Step>)
    decreases |steps|
  {
    steps != [] ==>
      && (steps[0].OpenSession? ==> steps[0].token !in s.sessions)
      && FreshTokens(aead, master, Next(aead, master, s, steps[0]), steps[1..])
  }

  lemma StepStaysGranted(aead: Aead.Provider, master: Bytes, s: System, t: Step)
    requires AllGranted(s) && (t.OpenSession? ==> t.token !in s.sessions)
    ensures AllGranted(Next(aead, master, s, t))
  {
    hide After, AskStep, SettleStep, CheckStep, Begin, RecordStep, Allows;
    var after := Next(aead, master, s, t).sessions;
    match t {
      case AskSession(i, token, q, now) => CheckGrants(s.sessions, token, q, now);
      case ExportPublic(token, h, now) => ExportGrants(s.sessions, token, h, now);
      case Settle(i, now) =>
        if At(s, i).Spent? {
          CheckGrants(s.sessions, s.callers[i].token, s.callers[i].request, now);
        }
      case _ =>
    }
    assert SameGrants(s.sessions, after);
    GrantsStay(s.log, s.sessions, after);
  }

  /** Over every run with fresh tokens, whatever a session served was within its permissions, its handles and its
      domains. */
  lemma {:induction false} ServedWasAllowed(aead: Aead.Provider, master: Bytes, s: System, steps: seq<Step>)
    requires AllGranted(s) && FreshTokens(aead, master, s, steps)
    ensures AllGranted(SsmSessions.Run(aead, master, s, steps))
    decreases |steps|
  {
    hide AllGranted, Next;
    if steps != [] {
      StepStaysGranted(aead, master, s, steps[0]);
      ServedWasAllowed(aead, master, Next(aead, master, s, steps[0]), steps[1..]);
    }
  }
}
