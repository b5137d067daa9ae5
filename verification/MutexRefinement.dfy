/** Threads inside the limiter: every interleaving of their steps amounts to
    running the calls one after the other, in the order in which they took the
    lock. */
module MutexRefinement {
  import opened TokenBucket
  import opened RateLimiting
  import opened EvictionTransparency
  import opened WindowBounds
  import opened BoundedMemory
  import opened Wrappers

  type Tid = nat

  /** Where a call stands, with what the clock has shown it so far. */
  datatype Pc =
    | Waiting
    | AtGlobalCheck
    | AtLookup(paidAt: Time)
    | AtClientCheck(paidAt: Time, seenAt: Time)
    | AtSweep(from: Time, unvisited: set<string>, readings: map<string, Time>)
    | AtUnlock(event: Event, ok: bool)
    | Returned(ok: bool)

  /** `slot` is the call's place in the order in which the lock was taken; it
      means nothing while the call is waiting. */
  datatype Thread = Thread(call: Call, pc: Pc, slot: nat)

  /** `order` lists the calls that have taken the lock, and `log` the events of
      those that have released it. */
  datatype Machine = Machine(
    state: State, lock: Option<Tid>, clock: Time, threads: map<Tid, Thread>,
    order: seq<Tid>, log: seq<Event>)

  /** `Work` is one statement of the body, under the lock, which reads the clock
      anew; `pick` is the entry the map iteration turns to next. */
  datatype Move =
    | Tick(d: nat)
    | Arrive(tid: Tid, call: Call)
    | Lock(tid: Tid)
    | Work(tid: Tid, pick: string)
    | Unlock(tid: Tid)

  function Start(p: Params): Machine {
    Machine(Initial(p), None, 0, map[], [], [])
  }

  predicate Inside(pc: Pc) {
    !pc.Waiting? && !pc.Returned?
  }

  /** The first position of a call's body. */
  function Enter(call: Call, s: State, now: Time): Pc {
    if call.AllowCall? then AtGlobalCheck else AtSweep(now, s.clients.Keys, map[])
  }

  predicate CanWork(call: Call, pc: Pc, s: State, pick: string) {
    match pc
    case AtGlobalCheck => call.AllowCall?
    case AtLookup(_) => call.AllowCall?
    case AtClientCheck(_, _) => call.AllowCall? && call.client in s.clients
    case AtSweep(_, unvisited, _) => unvisited != {} ==> pick in unvisited && pick in s.clients
    case _ => false
  }

  function NextPc(p: Params, call: Call, pc: Pc, s: State, now: Time, pick: string): Pc
    requires CanWork(call, pc, s, pick)
  {
    match pc
    case AtGlobalCheck =>
      if Admits(p.global, s.global, now) then AtLookup(now)
      else AtUnlock(Request(call.client, now, now, now), false)
    case AtLookup(paidAt) => AtClientCheck(paidAt, now)
    case AtClientCheck(paidAt, seenAt) =>
      AtUnlock(Request(call.client, paidAt, seenAt, now),
               Admits(p.client, s.clients[call.client].bucket, now))
    case AtSweep(from, unvisited, readings) =>
      if unvisited == {} then AtUnlock(Eviction(from, now, readings), false)
      else AtSweep(from, unvisited - {pick}, readings[pick := now])
  }

  function NextState(p: Params, call: Call, pc: Pc, s: State, now: Time, pick: string): State
    requires CanWork(call, pc, s, pick)
  {
    match pc
    case AtGlobalCheck => if Admits(p.global, s.global, now) then Paid(p, s, now) else s
    case AtLookup(_) => Visited(p, s, call.client, now)
    case AtClientCheck(_, _) => Charged(p, s, call.client, now)
    case AtSweep(_, unvisited, _) => if unvisited == {} then s else SweptAt(p, s, pick, now)
  }

  predicate Enabled(m: Machine, move: Move) {
    match move
    case Tick(_) => true
    case Arrive(t, _) => t !in m.threads
    case Lock(t) => t in m.threads && m.threads[t].pc.Waiting? && m.lock == None
    case Work(t, pick) => t in m.threads && CanWork(m.threads[t].call, m.threads[t].pc, m.state, pick)
    case Unlock(t) => t in m.threads && m.threads[t].pc.AtUnlock?
  }

  function Apply(p: Params, m: Machine, move: Move): Machine
    requires Enabled(m, move)
  {
    match move
    case Tick(d) => m.(clock := m.clock + d)
    case Arrive(t, call) => m.(threads := m.threads[t := Thread(call, Waiting, 0)])
    case Lock(t) =>
      var call := m.threads[t].call;
      m.(lock := Some(t),
         threads := m.threads[t := Thread(call, Enter(call, m.state, m.clock), |m.order|)],
         order := m.order + [t])
    case Work(t, pick) =>
      var th := m.threads[t];
      m.(threads := m.threads[t := th.(pc := NextPc(p, th.call, th.pc, m.state, m.clock, pick))],
         state := NextState(p, th.call, th.pc, m.state, m.clock, pick))
    case Unlock(t) =>
      var pc := m.threads[t].pc;
      m.(lock := None, threads := m.threads[t := m.threads[t].(pc := Returned(pc.ok))], log := m.log + [pc.event])
  }

  ghost predicate Steps(p: Params, m: Machine, m': Machine) {
    exists move :: Enabled(m, move) && m' == Apply(p, m, move)
  }

  /** A finite execution: it starts with a new limiter and each state follows
      from the one before by an enabled move. */
  ghost predicate Execution(p: Params, trace: seq<Machine>) {
    && trace != [] && trace[0] == Start(p)
    && forall i :: 0 <= i < |trace| - 1 ==> Steps(p, trace[i], trace[i + 1])
  }

  // ---------------------------------------------------------------------
  // The invariant
  // ---------------------------------------------------------------------

  ghost predicate EndedBy(log: seq<Event>, now: Time) {
    forall k :: 0 <= k < |log| ==> End(log[k]) <= now
  }

  ghost predicate WellLogged(m: Machine) {
    && |m.order| == |m.log| + (if m.lock.Some? then 1 else 0)
    && Timed(m.log) && EndedBy(m.log, m.clock)
    && (forall k :: 0 <= k < |m.order| ==>
          && m.order[k] in m.threads
          && !m.threads[m.order[k]].pc.Waiting?
          && m.threads[m.order[k]].slot == k)
    && (forall t :: t in m.threads && !m.threads[t].pc.Waiting? ==>
          var k := m.threads[t].slot;
          && k < |m.order| && m.order[k] == t
          && (k < |m.log| ==> Answers(m.log[k], m.threads[t].call)))
  }

  /** At most the holder is between lock and unlock, and it is the last to have
      taken the lock. */
  ghost predicate Exclusive(m: Machine) {
    && (forall t :: t in m.threads ==> (Inside(m.threads[t].pc) <==> m.lock == Some(t)))
    && (m.lock.Some? ==> m.lock.value in m.threads && m.threads[m.lock.value].slot == |m.log|)
  }

  /** What a holder at `pc` has done of its call so far, since the last call left
      the state `before`. */
  ghost predicate Midway(p: Params, before: State, call: Call, pc: Pc, s: State) {
    match pc
    case AtGlobalCheck => call.AllowCall? && s == before
    case AtLookup(paidAt) =>
      call.AllowCall? && Admits(p.global, before.global, paidAt) && s == Paid(p, before, paidAt)
    case AtClientCheck(paidAt, seenAt) =>
      && call.AllowCall? && Admits(p.global, before.global, paidAt)
      && s == Visited(p, Paid(p, before, paidAt), call.client, seenAt)
    case AtSweep(_, unvisited, readings) =>
      && call.EvictCall? && unvisited <= before.clients.Keys
      && readings.Keys == before.clients.Keys - unvisited
      && s == Swept(p, before, unvisited, readings)
    case AtUnlock(e, ok) =>
      Answers(e, call) && s == Next(p, before, e) && ok == VerdictIn(p, before, e).Admitted?
    case _ => false
  }

  /** What the clock has shown it, not before `since` and in this order. */
  ghost predicate Punctual(pc: Pc, since: Time, now: Time) {
    match pc
    case AtGlobalCheck => since <= now
    case AtLookup(paidAt) => since <= paidAt <= now
    case AtClientCheck(paidAt, seenAt) => since <= paidAt <= seenAt <= now
    case AtSweep(from, _, readings) =>
      since <= from <= now && forall c :: c in readings ==> from <= readings[c] <= now
    case AtUnlock(e, _) => Clocked(e) && since <= Begin(e) && End(e) <= now
    case _ => false
  }

  function LastEnd(log: seq<Event>): Time {
    if log == [] then 0 else End(log[|log| - 1])
  }

  /** The shared state is that of the sequential run of the log, up to what the
      holder has done since. */
  ghost predicate Linearized(p: Params, m: Machine) {
    match m.lock
    case None => m.state == StateAt(p, m.log, |m.log|)
    case Some(t) =>
      && t in m.threads
      && Midway(p, StateAt(p, m.log, |m.log|), m.threads[t].call, m.threads[t].pc, m.state)
      && Punctual(m.threads[t].pc, LastEnd(m.log), m.clock)
  }

  ghost predicate AnswersAgree(p: Params, m: Machine) {
    forall t :: t in m.threads && m.threads[t].pc.Returned? ==>
      && m.threads[t].slot < |m.log|
      && m.threads[t].pc.ok == VerdictAt(p, m.log, m.threads[t].slot).Admitted?
  }

  ghost predicate Inv(p: Params, m: Machine) {
    WellLogged(m) && Exclusive(m) && Linearized(p, m) && AnswersAgree(p, m)
  }

  // ---------------------------------------------------------------------
  // Every move keeps it
  // ---------------------------------------------------------------------

  lemma TickKeeps(p: Params, m: Machine, d: nat)
    requires Inv(p, m)
    ensures Inv(p, Apply(p, m, Tick(d)))
  {
  }

  lemma LockKeeps(p: Params, m: Machine, t: Tid)
    requires Inv(p, m) && Enabled(m, Lock(t))
    ensures Inv(p, Apply(p, m, Lock(t)))
  {
    NothingSwept(p, m.state, map[]);
  }

  /** One statement under the lock carries the holder from one stage of the
      sequential step to the next. */
  lemma WorkKeepsMidway(p: Params, before: State, call: Call, pc: Pc, s: State, now: Time, pick: string)
    requires Midway(p, before, call, pc, s) && CanWork(call, pc, s, pick)
    ensures Midway(p, before, call, NextPc(p, call, pc, s, now, pick), NextState(p, call, pc, s, now, pick))
  {
    match pc {
      case AtGlobalCheck => AllowInStages(p, before, Request(call.client, now, now, now));
      case AtLookup(paidAt) =>
      case AtClientCheck(paidAt, seenAt) => AllowInStages(p, before, Request(call.client, paidAt, seenAt, now));
      case AtSweep(from, unvisited, readings) =>
        if unvisited == {} {
          AllSwept(p, before, Eviction(from, now, readings));
        } else {
          SweepOne(p, before, unvisited, readings, pick, now);
        }
    }
  }

  lemma WorkKeepsPunctual(p: Params, call: Call, pc: Pc, s: State, since: Time, now: Time, pick: string)
    requires Punctual(pc, since, now) && CanWork(call, pc, s, pick)
    ensures Punctual(NextPc(p, call, pc, s, now, pick), since, now)
  {
  }

  lemma WorkKeeps(p: Params, m: Machine, t: Tid, pick: string)
    requires Inv(p, m) && Enabled(m, Work(t, pick))
    ensures Inv(p, Apply(p, m, Work(t, pick)))
  {
    hide Midway, Punctual;
    assert m.lock == Some(t);
    var th := m.threads[t];
    WorkKeepsMidway(p, StateAt(p, m.log, |m.log|), th.call, th.pc, m.state, m.clock, pick);
    WorkKeepsPunctual(p, th.call, th.pc, m.state, LastEnd(m.log), m.clock, pick);
  }

  lemma UnlockKeeps(p: Params, m: Machine, t: Tid)
    requires Inv(p, m) && Enabled(m, Unlock(t))
    ensures Inv(p, Apply(p, m, Unlock(t)))
  {
    hide StateAt, VerdictAt;
    assert m.lock == Some(t);
    OneMore(p, m.log, m.threads[t].pc.event);
  }

  lemma MoveKeeps(p: Params, m: Machine, move: Move)
    requires Inv(p, m) && Enabled(m, move)
    ensures Inv(p, Apply(p, m, move))
  {
    match move {
      case Tick(d) => TickKeeps(p, m, d);
      case Arrive(_, _) =>
      case Lock(t) => LockKeeps(p, m, t);
      case Work(t, pick) => WorkKeeps(p, m, t, pick);
      case Unlock(t) => UnlockKeeps(p, m, t);
    }
  }

  lemma {:induction false} ExecutionKeeps(p: Params, trace: seq<Machine>, i: nat)
    requires Execution(p, trace) && i < |trace|
    ensures Inv(p, trace[i])
  {
    if i != 0 {
      ExecutionKeeps(p, trace, i - 1);
      assert Steps(p, trace[i - 1], trace[i - 1 + 1]);
      var move :| Enabled(trace[i - 1], move) && trace[i] == Apply(p, trace[i - 1], move);
      MoveKeeps(p, trace[i - 1], move);
    }
  }

  // ---------------------------------------------------------------------
  // What follows
  // ---------------------------------------------------------------------

  /** Whenever the lock is free, the shared state is that of the sequential run
      of the calls in the order they took the lock; each call that took it is in
      that order exactly once; and every answer given so far is the answer that
      run gives. */
  lemma Linearizable(p: Params, trace: seq<Machine>, i: nat)
    requires Execution(p, trace) && i < |trace| && trace[i].lock == None
    ensures var m := trace[i];
            && |m.order| == |m.log| && Timed(m.log) && EndedBy(m.log, m.clock)
            && m.state == StateAt(p, m.log, |m.log|)
            && (forall j, k :: 0 <= j < k < |m.order| ==> m.order[j] != m.order[k])
            && (forall t :: t in m.threads && m.threads[t].pc.Returned? ==>
                  var k := m.threads[t].slot;
                  && k < |m.order| && m.order[k] == t
                  && Answers(m.log[k], m.threads[t].call)
                  && m.threads[t].pc.ok == VerdictAt(p, m.log, k).Admitted?)
  {
    ExecutionKeeps(p, trace, i);
  }

  // --- what the threads are told ------------------------------------------------

  /** If idle buckets refill in time, every thread is told what a limiter that
      never forgets would have told it. */
  lemma AnswersAreIdeal(p: Params, trace: seq<Machine>, i: nat, lag: nat, t: Tid)
    requires Execution(p, trace) && i < |trace|
    requires Transparent(p, lag) && Prompt(trace[i].log, lag)
    requires t in trace[i].threads && trace[i].threads[t].pc.Returned?
    ensures var m := trace[i];
            && m.threads[t].slot < |m.log| && Answers(m.log[m.threads[t].slot], m.threads[t].call)
            && m.threads[t].pc.ok == VerdictAt(Ideal(p), m.log, m.threads[t].slot).Admitted?
  {
    ExecutionKeeps(p, trace, i);
    EvictionUnobservable(p, trace[i].log, trace[i].threads[t].slot, lag);
  }

  predicate WasAdmitted(m: Machine, t: Tid, first: nat, end: nat) {
    && t in m.threads && m.threads[t].pc.Returned? && m.threads[t].pc.ok
    && first <= m.threads[t].slot < end
  }

  /** The threads told yes whose calls took the lock in this stretch. */
  function Admittees(m: Machine, first: nat, end: nat): set<Tid> {
    set t | t in m.threads && WasAdmitted(m, t, first, end)
  }

  function AdmitteesOf(m: Machine, client: string, first: nat, end: nat): set<Tid> {
    set t | t in m.threads && WasAdmitted(m, t, first, end) && m.threads[t].call == AllowCall(client)
  }

  /** The thread at a place in the log is back with the answer of that place. */
  lemma ReturnedFrom(p: Params, m: Machine, k: nat)
    requires Inv(p, m) && k < |m.log|
    ensures k < |m.order| && m.order[k] in m.threads
    ensures var th := m.threads[m.order[k]];
            && th.pc.Returned? && th.slot == k && Answers(m.log[k], th.call)
            && th.pc.ok == VerdictAt(p, m.log, k).Admitted?
    ensures forall t :: t in m.threads && m.threads[t].pc.Returned? && m.threads[t].slot == k ==> t == m.order[k]
  {
    hide Linearized, VerdictAt;
    var t := m.order[k];
    assert !Inside(m.threads[t].pc);
  }

  lemma AdmitteesGrow(m: Machine, client: string, first: nat, k: nat, t: Tid)
    requires first <= k && t in m.threads && m.threads[t].pc.Returned? && m.threads[t].slot == k
    requires forall u :: u in m.threads && m.threads[u].pc.Returned? && m.threads[u].slot == k ==> u == t
    ensures t !in Admittees(m, first, k) && t !in AdmitteesOf(m, client, first, k)
    ensures Admittees(m, first, k + 1) == Admittees(m, first, k) + if m.threads[t].pc.ok then {t} else {}
    ensures AdmitteesOf(m, client, first, k + 1)
         == AdmitteesOf(m, client, first, k)
            + if m.threads[t].pc.ok && m.threads[t].call == AllowCall(client) then {t} else {}
  {
  }

  lemma {:induction false} AdmitteesCounted(p: Params, m: Machine, client: string, first: nat, end: nat)
    requires Inv(p, m) && first <= end <= |m.log|
    ensures |Admittees(m, first, end)| == Admissions(p, m.log, first, end)
    ensures |AdmitteesOf(m, client, first, end)| == AdmissionsOf(p, m.log, client, first, end)
    decreases end
  {
    hide Inv, StateAt, AllowVerdict, Admittees, AdmitteesOf;
    if first == end {
      NoAdmittees(m, client, first);
    } else {
      var k := end - 1;
      AdmitteesCounted(p, m, client, first, k);
      ReturnedFrom(p, m, k);
      AdmitteesGrow(m, client, first, k, m.order[k]);
    }
  }

  lemma NoAdmittees(m: Machine, client: string, first: nat)
    ensures Admittees(m, first, first) == {} && AdmitteesOf(m, client, first, first) == {}
  {
  }

  /** However the threads interleave, at most burst + limit * window of them are
      let through in any window. */
  lemma ThreadsKeepToBound(p: Params, trace: seq<Machine>, i: nat, first: nat, end: nat, window: nat)
    requires Execution(p, trace) && i < |trace| && Within(trace[i].log, first, end, window)
    ensures NANO * |Admittees(trace[i], first, end)| <= Capacity(p.global) + Gain(p.global.limit, window)
  {
    hide Linearized, Midway;
    ExecutionKeeps(p, trace, i);
    AdmitteesCounted(p, trace[i], "", first, end);
    GlobalWindowBound(p, trace[i].log, first, end, window);
  }

  /** And of those that ask for one client, at most its own share. */
  lemma ThreadsKeepToShare(p: Params, trace: seq<Machine>, i: nat, client: string,
                           first: nat, end: nat, window: nat, lag: nat)
    requires Execution(p, trace) && i < |trace|
    requires Transparent(p, lag) && Prompt(trace[i].log, lag) && EndsWithin(trace[i].log, first, end, window)
    ensures NANO * |AdmitteesOf(trace[i], client, first, end)| <= Capacity(p.client) + Gain(p.client.limit, window)
  {
    hide Linearized, Midway;
    ExecutionKeeps(p, trace, i);
    AdmitteesCounted(p, trace[i], client, first, end);
    ClientWindowBound(p, trace[i].log, client, first, end, window, lag);
  }

  // --- the map, also while someone is working on it --------------------------------

  /** The event a holder at `pc` would leave if it finished now. */
  function EventSoFar(call: Call, pc: Pc, now: Time): Event {
    match pc
    case AtClientCheck(paidAt, seenAt) =>
      Request(if call.AllowCall? then call.client else "", paidAt, seenAt, now)
    case AtUnlock(e, _) => e
    case _ => Eviction(now, now, map[])
  }

  lemma SweptIsPart(p: Params, s: State, unvisited: set<string>, readings: map<string, Time>)
    ensures |Swept(p, s, unvisited, readings).clients| <= |s.clients|
  {
    SubsetSize(Swept(p, s, unvisited, readings).clients.Keys, s.clients.Keys);
  }

  /** What the holder works on is no larger than what was there before, or than
      what its finished call will leave. */
  lemma MidwayMap(p: Params, before: State, call: Call, pc: Pc, s: State, now: Time)
    requires Midway(p, before, call, pc, s)
    ensures || |s.clients| <= |before.clients|
            || ((pc.AtClientCheck? || pc.AtUnlock?)
                && s.clients.Keys == Next(p, before, EventSoFar(call, pc, now)).clients.Keys)
  {
    if pc.AtSweep? {
      SweptIsPart(p, before, pc.unvisited, pc.readings);
    }
  }

  lemma SoFarTimed(p: Params, m: Machine, t: Tid)
    requires WellLogged(m) && m.lock == Some(t) && t in m.threads
    requires m.threads[t].pc.AtClientCheck? || m.threads[t].pc.AtUnlock?
    requires Punctual(m.threads[t].pc, LastEnd(m.log), m.clock)
    ensures var e := EventSoFar(m.threads[t].call, m.threads[t].pc, m.clock);
            Timed(m.log + [e]) && EndedBy(m.log + [e], m.clock)
  {
  }

  lemma SameSize<T, U>(a: map<T, U>, b: map<T, U>)
    requires a.Keys == b.Keys
    ensures |a| == |b|
  {
    assert |a| == |a.Keys| && |b| == |b.Keys|;
  }

  lemma StillRecent(log: seq<Event>, e: Event, now: Time, interval: nat)
    requires RecentlyEvicted(log, |log|, 0, now, interval)
    ensures RecentlyEvicted(log + [e], |log| + 1, 0, now, interval)
  {
    if k :| 0 <= k < |log| && log[k].Eviction? && now - log[k].from <= interval {
      assert (log + [e])[k] == log[k];
    }
  }

  lemma MapBounded(p: Params, log: seq<Event>, now: Time, interval: nat)
    requires Timed(log) && EndedBy(log, now) && p.lifetime.Limited?
    requires RecentlyEvicted(log, |log|, 0, now, interval)
    ensures NANO * |StateAt(p, log, |log|).clients|
         <= Capacity(p.global) + Gain(p.global.limit, p.lifetime.ttl + interval) + NANO
  {
    ClientsAreBounded(p, log, |log|, 0, now, interval);
  }

  /** In every state of every interleaving, inside a critical section or not: if an
      eviction that has returned began within the last `interval`, the map is as
      small as it would be in a sequential run. */
  lemma ThreadsKeepMapBounded(p: Params, trace: seq<Machine>, i: nat, interval: nat)
    requires Execution(p, trace) && i < |trace| && p.lifetime.Limited?
    requires RecentlyEvicted(trace[i].log, |trace[i].log|, 0, trace[i].clock, interval)
    ensures NANO * |trace[i].state.clients|
         <= Capacity(p.global) + Gain(p.global.limit, p.lifetime.ttl + interval) + NANO
  {
    hide Exclusive, Midway, Punctual, AnswersAgree, StateAt, Gain, Capacity, Clocked;
    var m := trace[i];
    ExecutionKeeps(p, trace, i);
    MapBounded(p, m.log, m.clock, interval);
    if m.lock.Some? {
      var t := m.lock.value;
      var th := m.threads[t];
      var e := EventSoFar(th.call, th.pc, m.clock);
      MidwayMap(p, StateAt(p, m.log, |m.log|), th.call, th.pc, m.state, m.clock);
      if |m.state.clients| > |StateAt(p, m.log, |m.log|).clients| {
        SoFarTimed(p, m, t);
        OneMore(p, m.log, e);
        StillRecent(m.log, e, m.clock, interval);
        MapBounded(p, m.log + [e], m.clock, interval);
        SameSize(m.state.clients, StateAt(p, m.log + [e], |m.log| + 1).clients);
      }
    }
  }

  // --- order and progress ---------------------------------------------------------

  lemma {:induction false} OrderGrows(p: Params, trace: seq<Machine>, i: nat, j: nat)
    requires Execution(p, trace) && i <= j < |trace|
    ensures trace[i].order <= trace[j].order && trace[i].log <= trace[j].log
    decreases j
  {
    if i < j {
      OrderGrows(p, trace, i, j - 1);
      assert Steps(p, trace[j - 1], trace[j - 1 + 1]);
    }
  }

  /** The order respects real time: a call that has returned comes before every
      call that begins later. */
  lemma RealTimeOrder(p: Params, trace: seq<Machine>, i: nat, j: nat, early: Tid, late: Tid)
    requires Execution(p, trace) && i <= j < |trace|
    requires early in trace[i].threads && trace[i].threads[early].pc.Returned?
    requires late !in trace[i].threads
    requires late in trace[j].threads && !trace[j].threads[late].pc.Waiting?
    ensures var a, b := trace[i].threads[early].slot, trace[j].threads[late].slot;
            a < b < |trace[j].order| && trace[j].order[a] == early && trace[j].order[b] == late
  {
    ExecutionKeeps(p, trace, i);
    ExecutionKeeps(p, trace, j);
    OrderGrows(p, trace, i, j);
    var a, b := trace[i].threads[early].slot, trace[j].threads[late].slot;
    assert forall k :: 0 <= k < |trace[i].order| ==> trace[i].order[k] == trace[j].order[k];
  }

  /** Moves the holder has left before the lock is free again. */
  function StepsLeft(pc: Pc): nat {
    match pc
    case AtGlobalCheck => 4
    case AtLookup(_) => 3
    case AtClientCheck(_, _) => 2
    case AtSweep(_, unvisited, _) => |unvisited| + 2
    case AtUnlock(_, _) => 1
    case _ => 0
  }

  predicate MovesThread(move: Move, t: Tid) {
    !move.Tick? && move.tid == t
  }

  lemma HolderCanMove(p: Params, m: Machine, t: Tid) returns (move: Move)
    requires Inv(p, m) && m.lock == Some(t)
    ensures MovesThread(move, t) && Enabled(m, move)
  {
    var pc := m.threads[t].pc;
    var pick := "";
    if pc.AtSweep? && pc.unvisited != {} {
      pick :| pick in pc.unvisited;
    }
    move := if pc.AtUnlock? then Unlock(t) else Work(t, pick);
  }

  /** Each move of the holder brings it closer to the release, and the last one is
      the release; no other thread touches the limiter or moves it meanwhile. */
  lemma HolderAdvances(p: Params, m: Machine, t: Tid, move: Move)
    requires Inv(p, m) && m.lock == Some(t) && Enabled(m, move)
    ensures MovesThread(move, t) ==>
              && StepsLeft(Apply(p, m, move).threads[t].pc) < StepsLeft(m.threads[t].pc)
              && (Apply(p, m, move).lock == None <==> StepsLeft(Apply(p, m, move).threads[t].pc) == 0)
    ensures !MovesThread(move, t) ==>
              var m' := Apply(p, m, move);
              m'.lock == m.lock && t in m'.threads && m'.threads[t] == m.threads[t] && m'.state == m.state
  {
    hide WellLogged, Linearized, AnswersAgree, NextState;
    if MovesThread(move, t) {
      WorkAdvances(p, m.threads[t].call, m.threads[t].pc, m.state, m.clock, if move.Work? then move.pick else "");
    }
  }

  lemma WorkAdvances(p: Params, call: Call, pc: Pc, s: State, now: Time, pick: string)
    ensures CanWork(call, pc, s, pick) ==> 0 < StepsLeft(NextPc(p, call, pc, s, now, pick)) < StepsLeft(pc)
  {
    if pc.AtSweep? && pick in pc.unvisited {
      assert |pc.unvisited - {pick}| == |pc.unvisited| - 1;
    }
  }

  lemma Extend(p: Params, trace: seq<Machine>, move: Move) returns (longer: seq<Machine>)
    requires Execution(p, trace) && Enabled(trace[|trace| - 1], move)
    ensures Execution(p, longer) && trace <= longer
    ensures longer[|longer| - 1] == Apply(p, trace[|trace| - 1], move)
  {
    hide Enabled, Apply;
    var m' := Apply(p, trace[|trace| - 1], move);
    longer := trace + [m'];
    assert Steps(p, trace[|trace| - 1], m');
    forall i | 0 <= i < |longer| - 1
      ensures Steps(p, longer[i], longer[i + 1])
    {
      if i < |trace| - 1 {
        assert Steps(p, trace[i], trace[i + 1]);
      }
    }
  }

  function HolderSteps(m: Machine): nat {
    if m.lock.Some? && m.lock.value in m.threads then StepsLeft(m.threads[m.lock.value].pc) else 0
  }

  lemma HolderMove(p: Params, m: Machine, u: Tid, t: Tid) returns (move: Move)
    requires Inv(p, m) && m.lock == Some(u) && t in m.threads
    ensures Enabled(m, move) && t in Apply(p, m, move).threads
    ensures HolderSteps(Apply(p, m, move)) < HolderSteps(m)
    ensures t != u ==> Apply(p, m, move).threads[t] == m.threads[t]
    ensures t == u ==> !Apply(p, m, move).threads[t].pc.Waiting?
  {
    move := HolderCanMove(p, m, u);
    HolderAdvances(p, m, u, move);
    HolderStays(p, m, u, t, move);
  }

  lemma HolderStays(p: Params, m: Machine, u: Tid, t: Tid, move: Move)
    requires Inv(p, m) && m.lock == Some(u) && t in m.threads && Enabled(m, move) && MovesThread(move, u)
    ensures var m' := Apply(p, m, move);
            && t in m'.threads && (m'.lock == None || m'.lock == Some(u))
            && (t != u ==> m'.threads[t] == m.threads[t]) && (t == u ==> !m'.threads[t].pc.Waiting?)
  {
    hide WellLogged, Linearized, AnswersAgree, NextState;
  }

  /** Nothing is ever stuck: from every reachable state every call, however many
      wait before it, can still run to its return. */
  lemma {:induction false} EveryCallCanReturn(p: Params, trace: seq<Machine>, t: Tid) returns (longer: seq<Machine>)
    requires Execution(p, trace) && t in trace[|trace| - 1].threads
    ensures Execution(p, longer) && trace <= longer
    ensures t in longer[|longer| - 1].threads && longer[|longer| - 1].threads[t].pc.Returned?
    decreases if trace[|trace| - 1].threads[t].pc.Returned? then 0 else 1,
              if trace[|trace| - 1].threads[t].pc.Waiting? then 1 else 0,
              HolderSteps(trace[|trace| - 1])
  {
    hide Inv, Apply, Enabled, HolderSteps;
    var m := trace[|trace| - 1];
    ExecutionKeeps(p, trace, |trace| - 1);
    if m.threads[t].pc.Returned? {
      longer := trace;
    } else {
      var move;
      if m.lock.Some? {
        move := HolderMove(p, m, m.lock.value, t);
      } else {
        move := Lock(t);
        LockMove(p, m, t);
      }
      var next := Extend(p, trace, move);
      longer := EveryCallCanReturn(p, next, t);
    }
  }

  lemma LockMove(p: Params, m: Machine, t: Tid)
    requires Inv(p, m) && m.lock == None && t in m.threads && !m.threads[t].pc.Returned?
    ensures m.threads[t].pc.Waiting? && Enabled(m, Lock(t))
    ensures var m' := Apply(p, m, Lock(t));
            t in m'.threads && !m'.threads[t].pc.Waiting?
  {
    hide WellLogged, Linearized, AnswersAgree;
    assert !Inside(m.threads[t].pc);
  }

  // ---------------------------------------------------------------------
  // Every sequential run is an interleaving
  // ---------------------------------------------------------------------

  /** As the machine writes events down: a request that gets no global token reads
      the clock once, and an eviction reads it for every entry there is. */
  ghost predicate AsLogged(p: Params, s: State, e: Event) {
    match e
    case Request(_, paidAt, seenAt, chargedAt) =>
      !Admits(p.global, s.global, paidAt) ==> paidAt == seenAt == chargedAt
    case Eviction(_, _, readings) => readings.Keys == s.clients.Keys
  }

  function CallOf(e: Event): Call {
    if e.Request? then AllowCall(e.client) else EvictCall
  }

  /** A call comes in at the right time and takes the lock. */
  lemma Enters(p: Params, trace: seq<Machine>, t: Tid, call: Call, now: Time) returns (longer: seq<Machine>)
    requires Execution(p, trace)
    requires var m := trace[|trace| - 1];
             m.lock == None && t !in m.threads && m.clock <= now
    ensures Execution(p, longer) && longer != []
    ensures var m, m' := trace[|trace| - 1], longer[|longer| - 1];
            && m'.state == m.state && m'.lock == Some(t) && m'.clock == now && m'.log == m.log
            && m'.threads.Keys == m.threads.Keys + {t}
            && m'.threads[t].call == call && m'.threads[t].pc == Enter(call, m.state, now)
  {
    hide CanWork, NextPc, NextState;
    longer := Extend(p, trace, Tick(now - trace[|trace| - 1].clock));
    longer := Extend(p, longer, Arrive(t, call));
    longer := Extend(p, longer, Lock(t));
  }

  /** The holder takes its next statement at `now`. */
  lemma Works(p: Params, trace: seq<Machine>, t: Tid, now: Time, pick: string) returns (longer: seq<Machine>)
    requires Execution(p, trace)
    requires var m := trace[|trace| - 1];
             && m.clock <= now && t in m.threads
             && CanWork(m.threads[t].call, m.threads[t].pc, m.state, pick)
    ensures Execution(p, longer) && longer != []
    ensures var m, m' := trace[|trace| - 1], longer[|longer| - 1];
            var th := m.threads[t];
            && m'.lock == m.lock && m'.clock == now && m'.log == m.log && m'.threads.Keys == m.threads.Keys
            && m'.threads[t].call == th.call
            && m'.threads[t].pc == NextPc(p, th.call, th.pc, m.state, now, pick)
            && m'.state == NextState(p, th.call, th.pc, m.state, now, pick)
  {
    hide CanWork, NextPc, NextState;
    longer := Extend(p, trace, Tick(now - trace[|trace| - 1].clock));
    longer := Extend(p, longer, Work(t, pick));
  }

  lemma Leaves(p: Params, trace: seq<Machine>, t: Tid, e: Event) returns (longer: seq<Machine>)
    requires Execution(p, trace)
    requires var m := trace[|trace| - 1];
             t in m.threads && m.threads[t].pc.AtUnlock? && m.threads[t].pc.event == e
    ensures Execution(p, longer) && longer != []
    ensures var m, m' := trace[|trace| - 1], longer[|longer| - 1];
            && m'.lock == None && m'.clock == m.clock && m'.log == m.log + [e]
            && m'.threads.Keys == m.threads.Keys
  {
    hide CanWork, NextPc, NextState;
    longer := Extend(p, trace, Unlock(t));
  }

  lemma RequestRuns(p: Params, trace: seq<Machine>, t: Tid, e: Event) returns (longer: seq<Machine>)
    requires Execution(p, trace) && e.Request? && Clocked(e)
    requires var m := trace[|trace| - 1];
             m.lock == None && t !in m.threads && m.clock <= Begin(e) && AsLogged(p, m.state, e)
    ensures Execution(p, longer) && longer != []
    ensures var m, m' := trace[|trace| - 1], longer[|longer| - 1];
            && m'.lock == None && m'.clock == End(e) && m'.log == m.log + [e]
            && m'.threads.Keys == m.threads.Keys + {t}
  {
    hide Execution, Admits, Take;
    longer := Enters(p, trace, t, CallOf(e), e.paidAt);
    longer := Works(p, longer, t, e.paidAt, "");
    if longer[|longer| - 1].threads[t].pc.AtLookup? {
      longer := Works(p, longer, t, e.seenAt, "");
      longer := Works(p, longer, t, e.chargedAt, "");
    }
    longer := Leaves(p, longer, t, e);
  }

  /** Of finitely many entries some is looked at first. */
  lemma {:induction false} FirstRead(unvisited: set<string>, readings: map<string, Time>) returns (c: string)
    requires unvisited != {} && unvisited <= readings.Keys
    ensures c in unvisited && forall d :: d in unvisited ==> readings[c] <= readings[d]
    decreases unvisited
  {
    var first :| first in unvisited;
    var rest := unvisited - {first};
    c := first;
    if rest != {} {
      var d := FirstRead(rest, readings);
      if readings[d] < readings[first] {
        c := d;
      }
    }
    forall d | d in unvisited
      ensures readings[c] <= readings[d]
    {
      assert d == first || d in rest;
    }
  }

  /** The entries still to be visited are looked at when `e` says, in that order. */
  lemma {:induction false} SweepRuns(p: Params, trace: seq<Machine>, t: Tid, e: Event) returns (longer: seq<Machine>)
    requires Execution(p, trace) && e.Eviction? && Clocked(e)
    requires var m := trace[|trace| - 1];
             && m.lock == Some(t) && t in m.threads && m.threads[t].call == EvictCall && m.threads[t].pc.AtSweep?
             && var pc := m.threads[t].pc;
             && pc.from == e.from && m.clock <= e.until
             && pc.unvisited <= m.state.clients.Keys && pc.unvisited <= e.readings.Keys
             && pc.readings.Keys == e.readings.Keys - pc.unvisited
             && (forall c :: c in pc.readings ==> pc.readings[c] == e.readings[c])
             && (forall c :: c in pc.unvisited ==> m.clock <= e.readings[c])
    ensures Execution(p, longer) && longer != []
    ensures var m, m' := trace[|trace| - 1], longer[|longer| - 1];
            && m'.clock == e.until && m'.log == m.log && m'.threads.Keys == m.threads.Keys
            && m'.threads[t].pc == AtUnlock(e, false)
    decreases trace[|trace| - 1].threads[t].pc.unvisited
  {
    var m := trace[|trace| - 1];
    hide Execution, Expired;
    var pc := m.threads[t].pc;
    if pc.unvisited == {} {
      longer := Works(p, trace, t, e.until, "");
      assert pc.readings == e.readings;
    } else {
      var c := FirstRead(pc.unvisited, e.readings);
      longer := Works(p, trace, t, e.readings[c], c);
      longer := SweepRuns(p, longer, t, e);
    }
  }

  lemma EvictionRuns(p: Params, trace: seq<Machine>, t: Tid, e: Event) returns (longer: seq<Machine>)
    requires Execution(p, trace) && e.Eviction? && Clocked(e)
    requires var m := trace[|trace| - 1];
             m.lock == None && t !in m.threads && m.clock <= Begin(e) && AsLogged(p, m.state, e)
    ensures Execution(p, longer) && longer != []
    ensures var m, m' := trace[|trace| - 1], longer[|longer| - 1];
            && m'.lock == None && m'.clock == End(e) && m'.log == m.log + [e]
            && m'.threads.Keys == m.threads.Keys + {t}
  {
    hide Execution;
    longer := Enters(p, trace, t, EvictCall, e.from);
    longer := SweepRuns(p, longer, t, e);
    longer := Leaves(p, longer, t, e);
  }

  /** Every timed run of the state machine, as the machine would write it down, is
      what some interleaving does: the threads can do no less than one after the
      other. */
  lemma {:induction false} EveryRunHappens(p: Params, es: seq<Event>, n: nat) returns (trace: seq<Machine>)
    requires Timed(es) && n <= |es|
    requires forall i :: 0 <= i < |es| ==> AsLogged(p, StateAt(p, es, i), es[i])
    ensures Execution(p, trace) && trace != []
    ensures var m := trace[|trace| - 1];
            && m.lock == None && m.log == es[..n] && m.clock == (if n == 0 then 0 else End(es[n - 1]))
            && forall t :: t in m.threads ==> t < n
  {
    hide Execution, AsLogged, Timed, Clocked, StateAt, Begin, End;
    if n == 0 {
      trace := Beginning(p);
    } else {
      var k := n - 1;
      var e := es[k];
      trace := EveryRunHappens(p, es, k);
      StateOfLog(p, trace, es, k);
      InOrder(es, k);
      trace := EventRuns(p, trace, k, e);
      assert es[..n] == es[..k] + [e];
    }
  }

  lemma EventRuns(p: Params, trace: seq<Machine>, t: Tid, e: Event) returns (longer: seq<Machine>)
    requires Execution(p, trace) && Clocked(e)
    requires var m := trace[|trace| - 1];
             m.lock == None && t !in m.threads && m.clock <= Begin(e) && AsLogged(p, m.state, e)
    ensures Execution(p, longer) && longer != []
    ensures var m, m' := trace[|trace| - 1], longer[|longer| - 1];
            && m'.lock == None && m'.clock == End(e) && m'.log == m.log + [e]
            && m'.threads.Keys == m.threads.Keys + {t}
  {
    if e.Request? {
      longer := RequestRuns(p, trace, t, e);
    } else {
      longer := EvictionRuns(p, trace, t, e);
    }
  }

  lemma InOrder(es: seq<Event>, k: nat)
    requires Timed(es) && k < |es|
    ensures Clocked(es[k]) && (k != 0 ==> End(es[k - 1]) <= Begin(es[k]))
  {
  }

  lemma Beginning(p: Params) returns (trace: seq<Machine>)
    ensures Execution(p, trace) && trace == [Start(p)]
  {
    trace := [Start(p)];
  }

  lemma StateOfLog(p: Params, trace: seq<Machine>, es: seq<Event>, n: nat)
    requires Execution(p, trace) && n <= |es|
    requires trace[|trace| - 1].lock == None && trace[|trace| - 1].log == es[..n]
    ensures trace[|trace| - 1].state == StateAt(p, es, n)
  {
    ExecutionKeeps(p, trace, |trace| - 1);
    RunPrefix(p, es[..n], es, n);
  }
}
