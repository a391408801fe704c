/** How far operation limits can be overrun when several callers use a key or a session at once, and by a single caller
    when copies of the key are imported (src/security/ssm.cpp). */
module SsmLimits {
  import opened Core
  import opened SsmObject
  import opened SsmModule
  import opened SsmSessions
  import Aead

  // ---- A key ----

  /** The first `n` callers ask, then the first `m` of them finish. */
  function Rush(q: Request, n: nat, m: nat, now: u64): seq<Step> {
    if m > 0 then Rush(q, n, m - 1, now) + [Finish(m - 1, true, now)]
    else if n > 0 then Rush(q, n - 1, 0, now) + [AskModule(n - 1, q)]
    else []
  }

  ghost predicate Rushed(s: System, t: System, q: Request, n: nat, m: nat) {
    && |t.callers| == |s.callers| && |t.log| == |s.log| + m && q.handle in s.entries && q.handle in t.entries
    && t.entries[q.handle].policy == s.entries[q.handle].policy && t.entries[q.handle].status.state == s.entries[q.handle].status.state
    && t.entries[q.handle].status.usedOperations == s.entries[q.handle].status.usedOperations + m
    && (m == 0 ==> t.entries == s.entries)
    && (forall i | 0 <= i < m && i < |t.callers| :: t.callers[i] == Idle)
    && (forall i | m <= i < n && i < |t.callers| :: t.callers[i] == Working(q, None))
    && (forall i | n <= i < |t.callers| :: t.callers[i] == Idle)
  }

  lemma {:induction false} RushLetsAllIn(aead: Aead.Provider, master: Bytes, s: System, q: Request, n: nat, m: nat, now: u64)
    requires Quiet(s) && Begin(s.entries, q).Ok? && q.purpose != SignDomain([]) && m <= n <= |s.callers|
    requires q.handle in s.entries && s.entries[q.handle].status.usedOperations + m < TWO_TO_THE_64
    ensures Rushed(s, SsmSessions.Run(aead, master, s, Rush(q, n, m, now)), q, n, m)
    decreases n, m
  {
    hide Begin, RecordStep, SsmSessions.Run;
    if m > 0 {
      RushLetsAllIn(aead, master, s, q, n, m - 1, now);
      var t := SsmSessions.Run(aead, master, s, Rush(q, n, m - 1, now));
      RunSnoc(aead, master, s, Rush(q, n, m - 1, now), Finish(m - 1, true, now));
      RecordCounts(t.entries, q.handle, now, q.handle);
    } else if n > 0 {
      RushLetsAllIn(aead, master, s, q, n - 1, 0, now);
      RunSnoc(aead, master, s, Rush(q, n - 1, 0, now), AskModule(n - 1, q));
    } else {
      NoSteps(aead, master, s);
    }
  }

  lemma NoSteps(aead: Aead.Provider, master: Bytes, s: System)
    ensures SsmSessions.Run(aead, master, s, []) == s
  {}

  /** The first caller alone, `k` times. */
  function Spend(q: Request, k: nat, now: u64): seq<Step> {
    if k == 0 then [] else Spend(q, k - 1, now) + Rush(q, 1, 1, now)
  }

  lemma {:induction false} RunAppend(aead: Aead.Provider, master: Bytes, s: System, a: seq<Step>, b: seq<Step>)
    ensures SsmSessions.Run(aead, master, s, a + b) == SsmSessions.Run(aead, master, SsmSessions.Run(aead, master, s, a), b)
    decreases |a|
  {
    hide Next;
    if a == [] {
      assert a + b == b;
    } else {
      assert a + b == [a[0]] + (a[1..] + b);
      RunCons(aead, master, s, a[0], a[1..] + b);
      RunAppend(aead, master, Next(aead, master, s, a[0]), a[1..], b);
    }
  }

  /** A key keeps letting callers in until its counter meets its limit. */
  lemma BeginDepends(before: Entries, after: Entries, q: Request)
    requires Begin(before, q).Ok? && q.handle in after
    requires after[q.handle].policy == before[q.handle].policy && after[q.handle].status.state == before[q.handle].status.state
    requires !Exhausted(after[q.handle])
    ensures Begin(after, q).Ok?
  {
    hide HasFlag;
  }

  lemma {:induction false} SpendCounts(aead: Aead.Provider, master: Bytes, s: System, q: Request, k: nat, now: u64)
    requires Quiet(s) && |s.callers| > 0 && Begin(s.entries, q).Ok? && q.purpose != SignDomain([]) && q.handle in s.entries
    requires var o := s.entries[q.handle]; o.status.usedOperations + k < o.policy.maxOperations
    ensures var t := SsmSessions.Run(aead, master, s, Spend(q, k, now)); Quiet(t) && Rushed(s, t, q, k, k)
    ensures Begin(SsmSessions.Run(aead, master, s, Spend(q, k, now)).entries, q).Ok?
  {
    hide Begin, SsmSessions.Run, Rush;
    if k == 0 {
      NoSteps(aead, master, s);
    } else {
      SpendCounts(aead, master, s, q, k - 1, now);
      var t := SsmSessions.Run(aead, master, s, Spend(q, k - 1, now));
      RunAppend(aead, master, s, Spend(q, k - 1, now), Rush(q, 1, 1, now));
      RushLetsAllIn(aead, master, t, q, 1, 1, now);
      BeginDepends(s.entries, SsmSessions.Run(aead, master, t, Rush(q, 1, 1, now)).entries, q);
    }
  }

  /** From any counter below the limit: one caller uses up all operations but one, then all callers ask before any of
      them is recorded, and all of them get the last one. */
  function Overrun(q: Request, k: nat, n: nat, now: u64): seq<Step> {
    Spend(q, k, now) + Rush(q, n, n, now)
  }

  /** The bound is met for every number of callers and every counter below the limit. */
  lemma AllCallersOvershoot(aead: Aead.Provider, master: Bytes, s: System, q: Request, k: nat, now: u64)
    requires Quiet(s) && |s.callers| > 0 && Begin(s.entries, q).Ok? && q.purpose != SignDomain([]) && q.handle in s.entries
    requires var o := s.entries[q.handle];
             o.policy.maxOperations == o.status.usedOperations + k + 1 && o.policy.maxOperations + |s.callers| < TWO_TO_THE_64
    ensures var n := |s.callers|;
            var after := SsmSessions.Run(aead, master, s, Overrun(q, k, n, now));
            && q.handle in after.entries && |after.log| == |s.log| + k + n
            && after.entries[q.handle].status.usedOperations == s.entries[q.handle].policy.maxOperations + n - 1
  {
    hide Begin, SsmSessions.Run, Rush, Spend;
    var n := |s.callers|;
    SpendCounts(aead, master, s, q, k, now);
    var t := SsmSessions.Run(aead, master, s, Spend(q, k, now));
    RunAppend(aead, master, s, Spend(q, k, now), Rush(q, n, n, now));
    RushLetsAllIn(aead, master, t, q, n, n, now);
  }

  lemma {:induction false} RushSpares(q: Request, n: nat, m: nat, now: u64)
    ensures forall t | t in Rush(q, n, m, now) :: !t.Admin?
    decreases n, m
  {
    if m > 0 {
      RushSpares(q, n, m - 1, now);
    } else if n > 0 {
      RushSpares(q, n - 1, 0, now);
    }
  }

  lemma {:induction false} SpendSpares(q: Request, k: nat, now: u64)
    ensures forall t | t in Spend(q, k, now) :: !t.Admin?
  {
    hide Rush;
    if k > 0 {
      SpendSpares(q, k - 1, now);
      RushSpares(q, 1, 1, now);
    }
  }

  /** The run is short enough for the counter. */
  ghost predicate Short(aead: Aead.Provider, master: Bytes, s: System, steps: seq<Step>, h: Handle)
    requires h in s.entries
  {
    s.entries[h].status.usedOperations + |SsmSessions.Run(aead, master, s, steps).log| < TWO_TO_THE_64
  }

  /** The run puts nothing else under `h`. */
  ghost predicate Ordinary(aead: Aead.Provider, master: Bytes, s: System, steps: seq<Step>, h: Handle)
    requires h in s.entries
  {
    Short(aead, master, s, steps, h) && forall t | t in steps :: Spares(t, h)
  }

  ghost predicate KeyWithin(aead: Aead.Provider, master: Bytes, s: System, steps: seq<Step>, h: Handle)
    requires h in s.entries
  {
    s.entries[h].status.usedOperations + Count(SsmSessions.Run(aead, master, s, steps).log, UseOf(h)) <= s.entries[h].policy.maxOperations
  }

  /** In runs that put no other object under its handle, a key's limit is enforced if and only if there is a single
      caller. */
  lemma KeyLimitExactly(aead: Aead.Provider, master: Bytes, s: System, q: Request)
    requires AllIdle(s) && |s.callers| > 0 && Begin(s.entries, q).Ok? && q.purpose != SignDomain([]) && q.handle in s.entries
    requires var limit := s.entries[q.handle].policy.maxOperations; limit != 0 && limit + |s.callers| < TWO_TO_THE_64
    ensures (forall steps | Ordinary(aead, master, s, steps, q.handle) :: KeyWithin(aead, master, s, steps, q.handle)) <==>
            |s.callers| == 1
  {
    hide Begin, SsmSessions.Run, Spend, Rush, Spares, Count;
    var h, n := q.handle, |s.callers|;
    BeginHasRoom(s.entries, q);
    if n == 1 {
      forall steps | Ordinary(aead, master, s, steps, h)
        ensures KeyWithin(aead, master, s, steps, h)
      {
        OperationsAreCounted(aead, master, s, steps, h);
      }
    } else {
      var limit, used := s.entries[h].policy.maxOperations, s.entries[h].status.usedOperations;
      var k := limit - used - 1;
      var steps := Overrun(q, k, n, 0);
      AllCallersOvershoot(aead, master, s, q, k, 0);
      OverrunSpares(q, k, n, h);
      OperationsAreCounted(aead, master, s, steps, h);
      assert Ordinary(aead, master, s, steps, h) && !KeyWithin(aead, master, s, steps, h);
    }
  }

  // ---- A key whose copy is imported ----

  /** One caller uses the key once and then has an earlier copy of it imported, `k` times over. */
  function UseAndRestore(q: Request, copy: Sealed, k: nat): seq<Step> {
    if k == 0 then [] else UseAndRestore(q, copy, k - 1) + (Rush(q, 1, 1, 0) + [Admin(Import(copy))])
  }

  /** Whatever the limit: a single caller can use the key any number of times, as the import rewinds a counter that the
      seal does not bind. */
  lemma {:induction false} ImportsLiftTheLimit(aead: Aead.Provider, master: Bytes, s: System, secrets: map<Handle, Bytes>, q: Request, k: nat)
    requires Quiet(s) && |s.callers| > 0 && Begin(s.entries, q).Ok? && q.purpose != SignDomain([])
    requires Intact(aead, master, s.entries, secrets) && q.handle in s.entries && q.handle != []
    requires s.entries[q.handle].status.usedOperations < TWO_TO_THE_64 - 1
    ensures var t := SsmSessions.Run(aead, master, s, UseAndRestore(q, s.entries[q.handle], k));
            && Quiet(t) && |t.callers| == |s.callers| && t.entries == s.entries && |t.log| == |s.log| + k
            && Count(t.log, UseOf(q.handle)) == Count(s.log, UseOf(q.handle)) + k
  {
    hide Begin, SsmSessions.Run, Rush, Intact, Count, Next;
    if k == 0 {
      NoSteps(aead, master, s);
    } else {
      var copy := s.entries[q.handle];
      ImportsLiftTheLimit(aead, master, s, secrets, q, k - 1);
      var earlier := UseAndRestore(q, copy, k - 1);
      var t := SsmSessions.Run(aead, master, s, earlier);
      RunAppend(aead, master, s, earlier, Rush(q, 1, 1, 0) + [Admin(Import(copy))]);
      UseThenRestore(aead, master, t, secrets, q);
    }
  }

  lemma UseThenRestore(aead: Aead.Provider, master: Bytes, s: System, secrets: map<Handle, Bytes>, q: Request)
    requires Quiet(s) && |s.callers| > 0 && Begin(s.entries, q).Ok? && q.purpose != SignDomain([])
    requires Intact(aead, master, s.entries, secrets) && q.handle in s.entries && q.handle != []
    requires s.entries[q.handle].status.usedOperations < TWO_TO_THE_64 - 1
    ensures var t := SsmSessions.Run(aead, master, s, Rush(q, 1, 1, 0) + [Admin(Import(s.entries[q.handle]))]);
            && Quiet(t) && |t.callers| == |s.callers| && t.entries == s.entries && |t.log| == |s.log| + 1
            && Count(t.log, UseOf(q.handle)) == Count(s.log, UseOf(q.handle)) + 1
  {
    hide Begin, Intact, Count, UseOf, RecordStep, ImportStep, SsmSessions.Run;
    var h, copy := q.handle, s.entries[q.handle];
    RushIsTwo(q);
    RunTwo(aead, master, s, AskModule(0, q), Finish(0, true, 0));
    RunSnoc(aead, master, s, Rush(q, 1, 1, 0), Admin(Import(copy)));
    var t := SsmSessions.Run(aead, master, s, Rush(q, 1, 1, 0));
    assert t == System(RecordStep(s.entries, h, 0), s.sessions, s.callers, s.log + [KeyUsed(q)]) by {
      assert s.callers[0 := Working(q, None)][0 := Idle] == s.callers;
    }
    CountSnoc(s.log, KeyUsed(q), UseOf(h));
    UseIs(h, q);
    RestoreUndoes(aead, master, s.entries, secrets, h);
  }

  lemma RushIsTwo(q: Request)
    ensures Rush(q, 1, 1, 0) == [AskModule(0, q), Finish(0, true, 0)]
  {
    assert Rush(q, 1, 1, 0) == Rush(q, 1, 0, 0) + [Finish(0, true, 0)];
    assert Rush(q, 1, 0, 0) == Rush(q, 0, 0, 0) + [AskModule(0, q)];
  }

  lemma RunTwo(aead: Aead.Provider, master: Bytes, s: System, a: Step, b: Step)
    ensures SsmSessions.Run(aead, master, s, [a, b]) == Next(aead, master, Next(aead, master, s, a), b)
  {
    hide Next;
    NoSteps(aead, master, s);
    RunSnoc(aead, master, s, [], a);
    RunSnoc(aead, master, s, [a], b);
    assert [] + [a] == [a] && [a] + [b] == [a, b];
  }

  /** Importing the copy taken before an operation is recorded undoes the record. */
  lemma RestoreUndoes(aead: Aead.Provider, master: Bytes, entries: Entries, secrets: map<Handle, Bytes>, h: Handle)
    requires Intact(aead, master, entries, secrets) && h in entries && h != []
    ensures ImportStep(aead, master, RecordStep(entries, h, 0), entries[h]).1 == entries
  {
    hide OpenSecret;
  }

  /** Over all runs, imports included: the limit is not enforced for any number of callers, not even for one. And with one
      caller every run past it puts another object under the handle: an import or a store. */
  lemma KeyLimitWithImports(aead: Aead.Provider, master: Bytes, s: System, secrets: map<Handle, Bytes>, q: Request)
    requires AllIdle(s) && |s.callers| > 0 && Begin(s.entries, q).Ok? && q.purpose != SignDomain([]) && q.handle in s.entries
    requires Intact(aead, master, s.entries, secrets) && q.handle != []
    requires var limit := s.entries[q.handle].policy.maxOperations; limit != 0 && limit + 1 < TWO_TO_THE_64
    ensures exists steps :: Short(aead, master, s, steps, q.handle) && !KeyWithin(aead, master, s, steps, q.handle)
    ensures |s.callers| == 1 ==>
              forall steps | Short(aead, master, s, steps, q.handle) && !KeyWithin(aead, master, s, steps, q.handle) ::
                exists t :: t in steps && Replaces(t, q.handle)
  {
    hide Begin, SsmSessions.Run, UseAndRestore, Count, Intact, MakeHandle;
    var h := q.handle;
    BeginHasRoom(s.entries, q);
    var k := s.entries[h].policy.maxOperations - s.entries[h].status.usedOperations + 1;
    var steps := UseAndRestore(q, s.entries[h], k);
    ImportsLiftTheLimit(aead, master, s, secrets, q, k);
    assert Short(aead, master, s, steps, h) && !KeyWithin(aead, master, s, steps, h);
    if |s.callers| == 1 {
      forall other | Short(aead, master, s, other, h) && !KeyWithin(aead, master, s, other, h)
        ensures exists t :: t in other && Replaces(t, h)
      {
        if forall t | t in other :: !Replaces(t, h) {
          forall t | t in other
            ensures Spares(t, h)
          {
            assert !Replaces(t, h);
          }
          OperationsAreCounted(aead, master, s, other, h);
          assert false;
        }
      }
    }
  }

  /** The step stores or imports an object under `h`, or tries to. */
  predicate Replaces(t: Step, h: Handle) {
    t.Admin? && ((t.action.Store? && MakeHandle(t.action.policy) == h) || (t.action.Import? && t.action.sealed.policy.handle == h))
  }

  lemma OverrunSpares(q: Request, k: nat, n: nat, h: Handle)
    ensures forall t | t in Overrun(q, k, n, 0) :: Spares(t, h)
  {
    hide Spend, Rush;
    SpendSpares(q, k, 0);
    RushSpares(q, n, n, 0);
    forall t | t in Overrun(q, k, n, 0)
      ensures Spares(t, h)
    {
      assert !t.Admin?;
    }
  }

  // ---- A session ----

  /** `n` callers ask the session, `p` of them proceed, `f` of those finish, and `m` of those settle. */
  function Surge(token: Token, q: Request, n: nat, p: nat, f: nat, m: nat, now: u64): seq<Step>
    decreases n + p + f + m
  {
    if m > 0 then Surge(token, q, n, p, f, m - 1, now) + [Settle(m - 1, now)]
    else if f > 0 then Surge(token, q, n, p, f - 1, 0, now) + [Finish(f - 1, true, now)]
    else if p > 0 then Surge(token, q, n, p - 1, 0, 0, now) + [Proceed(p - 1)]
    else if n > 0 then Surge(token, q, n - 1, 0, 0, 0, now) + [AskSession(n - 1, token, q, now)]
    else []
  }

  function PhaseOf(token: Token, q: Request, n: nat, p: nat, f: nat, m: nat, i: nat): Phase {
    if i < m then Idle
    else if i < f then Spent(token, q)
    else if i < p then Working(q, Some(token))
    else if i < n then Admitted(token, q)
    else Idle
  }

  function CountedBy(s: Session, d: bool, m: nat): Session
    requires Used(s, d) + m < TWO_TO_THE_64
  {
    if d then s.(decapsulations := s.decapsulations + m) else s.(signs := s.signs + m)
  }

  ghost predicate Surged(s: System, t: System, token: Token, q: Request, n: nat, p: nat, f: nat, m: nat) {
    && |t.callers| == |s.callers| && token in s.sessions && token in t.sessions
    && (f == 0 ==> t.entries == s.entries) && (m == 0 ==> t.sessions == s.sessions)
    && Used(s.sessions[token], q.purpose.Decapsulate?) + m < TWO_TO_THE_64
    && t.sessions[token] == CountedBy(s.sessions[token], q.purpose.Decapsulate?, m)
    && forall i | 0 <= i < |t.callers| :: t.callers[i] == PhaseOf(token, q, n, p, f, m, i)
  }

  /** The session admits the request now. */
  predicate Admits(sessions: Sessions, token: Token, q: Request, now: u64) {
    && token in sessions && !q.purpose.SignMessage? && q.purpose != SignDomain([])
    && AskStep(sessions, token, q, now) == (Ok(Unit), sessions)
  }

  /** A session that admitted a request counts it however often it was counted since: the limit is not looked at again. */
  lemma SettlesAnyway(sessions: Sessions, later: Sessions, token: Token, q: Request, now: u64, m: nat)
    requires Admits(sessions, token, q, now) && token in later
    requires var d := q.purpose.Decapsulate?;
             Used(sessions[token], d) + m + 1 < TWO_TO_THE_64 && later[token] == CountedBy(sessions[token], d, m)
    ensures var (r, after) := SettleStep(later, token, q, now);
            r.Ok? && after == later[token := CountedBy(sessions[token], q.purpose.Decapsulate?, m + 1)]
  {
    hide HasFlag;
  }

  lemma SurgeAsks(aead: Aead.Provider, master: Bytes, s: System, t: System, token: Token, q: Request, n: nat, now: u64)
    requires Admits(s.sessions, token, q, now) && n < |s.callers| && Surged(s, t, token, q, n, 0, 0, 0)
    ensures Surged(s, Next(aead, master, t, AskSession(n, token, q, now)), token, q, n + 1, 0, 0, 0)
  {
    hide AskStep, CountedBy;
  }

  lemma SurgeProceeds(aead: Aead.Provider, master: Bytes, s: System, t: System, token: Token, q: Request, n: nat, p: nat)
    requires Begin(s.entries, q).Ok? && p < n <= |s.callers| && Surged(s, t, token, q, n, p, 0, 0)
    ensures Surged(s, Next(aead, master, t, Proceed(p)), token, q, n, p + 1, 0, 0)
  {
    hide Begin, CountedBy;
  }

  lemma SurgeFinishes(aead: Aead.Provider, master: Bytes, s: System, t: System, token: Token, q: Request, n: nat, f: nat, now: u64)
    requires q.purpose != SignDomain([]) && f < n <= |s.callers| && Surged(s, t, token, q, n, n, f, 0)
    ensures Surged(s, Next(aead, master, t, Finish(f, true, now)), token, q, n, n, f + 1, 0)
  {
    hide RecordStep, CountedBy;
  }

  lemma SurgeSettles(aead: Aead.Provider, master: Bytes, s: System, t: System, token: Token, q: Request, n: nat, m: nat, now: u64)
    requires Admits(s.sessions, token, q, now) && 0 <= m < n <= |s.callers| && Surged(s, t, token, q, n, n, n, m)
    requires Used(s.sessions[token], q.purpose.Decapsulate?) + m + 1 < TWO_TO_THE_64
    ensures Surged(s, Next(aead, master, t, Settle(m, now)), token, q, n, n, n, m + 1)
  {
    SettlesAnyway(s.sessions, t.sessions, token, q, now, m);
    hide SettleStep, CountedBy, Admits;
  }

  lemma {:induction false} SurgeLetsAllIn(aead: Aead.Provider, master: Bytes, s: System, token: Token, q: Request,
                                          n: nat, p: nat, f: nat, m: nat, now: u64)
    requires Quiet(s) && Begin(s.entries, q).Ok? && Admits(s.sessions, token, q, now) && m <= f <= p <= n <= |s.callers|
    requires Used(s.sessions[token], q.purpose.Decapsulate?) + m < TWO_TO_THE_64
    requires (f > 0 ==> p == n) && (m > 0 ==> f == n)
    ensures Surged(s, SsmSessions.Run(aead, master, s, Surge(token, q, n, p, f, m, now)), token, q, n, p, f, m)
    decreases n + p + f + m
  {
    if m > 0 {
      hide Begin, SsmSessions.Run, AskStep, Next, Surged, Quiet;
      SurgeLetsAllIn(aead, master, s, token, q, n, p, f, m - 1, now);
      var before := Surge(token, q, n, p, f, m - 1, now);
      RunSnoc(aead, master, s, before, Settle(m - 1, now));
      SurgeSettles(aead, master, s, SsmSessions.Run(aead, master, s, before), token, q, n, m - 1, now);
    } else if f > 0 {
      hide Begin, SsmSessions.Run, AskStep, Next, Surged, Quiet;
      SurgeLetsAllIn(aead, master, s, token, q, n, p, f - 1, 0, now);
      var before := Surge(token, q, n, p, f - 1, 0, now);
      RunSnoc(aead, master, s, before, Finish(f - 1, true, now));
      SurgeFinishes(aead, master, s, SsmSessions.Run(aead, master, s, before), token, q, n, f - 1, now);
    } else if p > 0 {
      hide Begin, SsmSessions.Run, AskStep, Next, Surged, Quiet;
      SurgeLetsAllIn(aead, master, s, token, q, n, p - 1, 0, 0, now);
      var before := Surge(token, q, n, p - 1, 0, 0, now);
      RunSnoc(aead, master, s, before, Proceed(p - 1));
      SurgeProceeds(aead, master, s, SsmSessions.Run(aead, master, s, before), token, q, n, p - 1);
    } else if n > 0 {
      hide Begin, SsmSessions.Run, AskStep, Next, Surged, Quiet;
      SurgeLetsAllIn(aead, master, s, token, q, n - 1, 0, 0, 0, now);
      var before := Surge(token, q, n - 1, 0, 0, 0, now);
      RunSnoc(aead, master, s, before, AskSession(n - 1, token, q, now));
      SurgeAsks(aead, master, s, SsmSessions.Run(aead, master, s, before), token, q, n - 1, now);
    } else {
      NothingSurged(aead, master, s, token, q, now);
    }
  }

  lemma NothingSurged(aead: Aead.Provider, master: Bytes, s: System, token: Token, q: Request, now: u64)
    requires Quiet(s) && Admits(s.sessions, token, q, now)
    ensures Surged(s, SsmSessions.Run(aead, master, s, []), token, q, 0, 0, 0, 0)
  {
    NoSteps(aead, master, s);
    CountedNone(s.sessions[token], q.purpose.Decapsulate?);
    hide AskStep, CountedBy;
  }

  lemma CountedNone(s: Session, d: bool)
    ensures CountedBy(s, d, 0) == s
  {}

  /** The bound on a session is met too: when one operation of the session is left and all callers ask before any of them
      settles, all of them are served and counted. */
  lemma SessionOvershoot(aead: Aead.Provider, master: Bytes, s: System, token: Token, q: Request, now: u64)
    requires Quiet(s) && |s.callers| > 0 && Begin(s.entries, q).Ok? && Admits(s.sessions, token, q, now)
    requires var d, k := q.purpose.Decapsulate?, s.sessions[token];
             Limit(k, d) == Used(k, d) + 1 && Limit(k, d) + |s.callers| < TWO_TO_THE_64
    ensures var n, d := |s.callers|, q.purpose.Decapsulate?;
            var after := SsmSessions.Run(aead, master, s, Surge(token, q, n, n, n, n, now));
            && token in after.sessions && Limit(after.sessions[token], d) == Limit(s.sessions[token], d)
            && Used(after.sessions[token], d) == Limit(after.sessions[token], d) + n - 1
  {
    hide Begin, SsmSessions.Run, Surge, AskStep;
    var n := |s.callers|;
    SurgeLetsAllIn(aead, master, s, token, q, n, n, n, n, now);
  }

  ghost predicate SessionsWithin(s: System) {
    forall token, d | token in s.sessions && Limit(s.sessions[token], d) != 0 :: Used(s.sessions[token], d) <= Limit(s.sessions[token], d)
  }

  const ONE_EACH: SessionOptions := SessionOptions(1, 3, 1, 1, [], [])

  /** Session limits are enforced in every run from a manager without sessions if and only if there is a single caller. */
  lemma SessionLimitExactly(aead: Aead.Provider, master: Bytes, s: System, q: Request)
    requires AllIdle(s) && s.sessions == map[] && 0 < |s.callers| < TWO_TO_THE_64 - 1
    requires Begin(s.entries, q).Ok? && !q.purpose.SignMessage? && q.purpose != SignDomain([])
    ensures (forall steps :: SessionsWithin(SsmSessions.Run(aead, master, s, steps))) <==> |s.callers| == 1
  {
    hide Begin, SsmSessions.Run, Surge, AskStep;
    var n, d := |s.callers|, q.purpose.Decapsulate?;
    if n == 1 {
      forall steps
        ensures SessionsWithin(SsmSessions.Run(aead, master, s, steps))
      {
        forall token, e
          ensures var after := SsmSessions.Run(aead, master, s, steps);
                  token in after.sessions && Limit(after.sessions[token], e) != 0 ==>
                    Used(after.sessions[token], e) <= Limit(after.sessions[token], e)
        {
          SessionLimitHolds(aead, master, s, steps, token, e);
        }
      }
    } else {
      var opening := OpenSession([], ONE_EACH, 0);
      var t := Next(aead, master, s, opening);
      OpenedAdmits(s.sessions, q);
      var steps := [opening] + Surge([], q, n, n, n, n, 0);
      RunCons(aead, master, s, opening, Surge([], q, n, n, n, n, 0));
      SessionOvershoot(aead, master, t, [], q, 0);
      Outside(SsmSessions.Run(aead, master, s, steps), [], d);
    }
  }

  lemma Outside(s: System, token: Token, d: bool)
    requires token in s.sessions && 0 < Limit(s.sessions[token], d) < Used(s.sessions[token], d)
    ensures !SessionsWithin(s)
  {}

  lemma OpenedAdmits(sessions: Sessions, q: Request)
    requires !q.purpose.SignMessage? && q.purpose != SignDomain([])
    ensures var after := OpenStep(sessions, [], ONE_EACH, 0).1;
            && [] in after && Admits(after, [], q, 0)
            && Used(after[[]], q.purpose.Decapsulate?) == 0 && Limit(after[[]], q.purpose.Decapsulate?) == 1
  {
    assert Pow2(0) == 1 && Pow2(1) == 2;
  }
}
