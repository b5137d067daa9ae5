/** The two-tier limiter as a state machine over timed events. */
module RateLimiting {
  import opened TokenBucket

  /** How long an idle client is remembered. `Forever` is the ideal limiter
      whose client map is never deleted from. */
  datatype Lifetime = Forever | Limited(ttl: nat)

  datatype Params = Params(global: Rate, client: Rate, lifetime: Lifetime)

  datatype Entry = Entry(bucket: Bucket, lastSeen: Time)

  datatype State = State(global: Bucket, clients: map<string, Entry>)

  /** A request with the clock readings of its three stages, and an eviction with
      the reading it took for each entry it visited. */
  datatype Event =
    | Request(client: string, paidAt: Time, seenAt: Time, chargedAt: Time)
    | Eviction(from: Time, until: Time, readings: map<string, Time>)

  /** What is asked of the limiter. */
  datatype Call = AllowCall(client: string) | EvictCall

  /** The outcome of one event. The caller of `Allow` sees only whether it is
      `Admitted`. */
  datatype Verdict = Admitted | RefusedGlobally | RefusedForClient | Housekeeping

  const CLEANUP_INTERVAL: nat := 10 * 60 * NANO
  const CLIENT_TTL: nat := 30 * 60 * NANO
  const BURST_MULTIPLIER: nat := 2

  /** A burst that is not positive means twice the rate. */
  function EffectiveRate(limit: nat, burst: int): Rate {
    Rate(limit, if burst <= 0 then limit * BURST_MULTIPLIER else burst)
  }

  function Initial(p: Params): State {
    State(Fresh(p.global), map[])
  }

  predicate Expired(p: Params, e: Entry, now: Time) {
    p.lifetime.Limited? && now - e.lastSeen > p.lifetime.ttl
  }

  /** The bucket a request of `client` would meet: a stranger's is full. */
  function BucketOf(p: Params, s: State, client: string): Bucket {
    if client in s.clients then s.clients[client].bucket else Fresh(p.client)
  }

  function AllowState(p: Params, s: State, e: Event): State
    requires e.Request?
  {
    if !Admits(p.global, s.global, e.paidAt) then s
    else State(Take(p.global, s.global, e.paidAt),
               s.clients[e.client := Entry(Take(p.client, BucketOf(p, s, e.client), e.chargedAt), e.seenAt)])
  }

  function AllowVerdict(p: Params, s: State, e: Event): Verdict
    requires e.Request?
  {
    if !Admits(p.global, s.global, e.paidAt) then RefusedGlobally
    else if Admits(p.client, BucketOf(p, s, e.client), e.chargedAt) then Admitted
    else RefusedForClient
  }

  // The same request in the three stages of the code: a global token is paid,
  // the client's record is found or made and its visit noted, and the client's
  // bucket is charged.

  function Paid(p: Params, s: State, now: Time): State {
    s.(global := Take(p.global, s.global, now))
  }

  function Visited(p: Params, s: State, client: string, now: Time): State {
    s.(clients := s.clients[client := Entry(BucketOf(p, s, client), now)])
  }

  function Charged(p: Params, s: State, client: string, now: Time): State
    requires client in s.clients
  {
    s.(clients := s.clients[client :=
         s.clients[client].(bucket := Take(p.client, s.clients[client].bucket, now))])
  }

  lemma AllowInStages(p: Params, s: State, e: Event)
    requires e.Request?
    ensures !Admits(p.global, s.global, e.paidAt) ==>
              && AllowState(p, s, e) == s == Paid(p, s, e.paidAt)
              && AllowVerdict(p, s, e) == RefusedGlobally
    ensures var visited := Visited(p, Paid(p, s, e.paidAt), e.client, e.seenAt);
            Admits(p.global, s.global, e.paidAt) ==>
              && AllowState(p, s, e) == Charged(p, visited, e.client, e.chargedAt)
              && (AllowVerdict(p, s, e).Admitted? <==> Admits(p.client, visited.clients[e.client].bucket, e.chargedAt))
  {
  }

  /** When the eviction looked at the client's entry. */
  function ReadingFor(e: Event, client: string): Time
    requires e.Eviction?
  {
    if client in e.readings then e.readings[client] else e.until
  }

  function EvictState(p: Params, s: State, e: Event): State
    requires e.Eviction?
  {
    s.(clients := map c | c in s.clients && !Expired(p, s.clients[c], ReadingFor(e, c)) :: s.clients[c])
  }

  // And the eviction entry by entry.

  /** Looking at one entry, and what is left after looking at all but some. */
  function SweptAt(p: Params, s: State, ip: string, now: Time): State
    requires ip in s.clients
  {
    if Expired(p, s.clients[ip], now) then s.(clients := s.clients - {ip}) else s
  }

  function Swept(p: Params, s: State, unvisited: set<string>, readings: map<string, Time>): State {
    s.(clients := map c | && c in s.clients
                          && (c in unvisited || c !in readings || !Expired(p, s.clients[c], readings[c]))
                        :: s.clients[c])
  }

  lemma NothingSwept(p: Params, s: State, readings: map<string, Time>)
    ensures Swept(p, s, s.clients.Keys, readings) == s
  {
    assert Swept(p, s, s.clients.Keys, readings).clients == s.clients;
  }

  lemma StillThere(p: Params, s: State, unvisited: set<string>, readings: map<string, Time>, ip: string)
    requires ip in unvisited && ip in s.clients
    ensures ip in Swept(p, s, unvisited, readings).clients
  {
  }

  lemma SweepOne(p: Params, s: State, unvisited: set<string>, readings: map<string, Time>, ip: string, now: Time)
    requires ip in unvisited && ip in s.clients
    ensures ip in Swept(p, s, unvisited, readings).clients
    ensures Swept(p, s, unvisited - {ip}, readings[ip := now]) == SweptAt(p, Swept(p, s, unvisited, readings), ip, now)
  {
    var before, after := Swept(p, s, unvisited, readings), Swept(p, s, unvisited - {ip}, readings[ip := now]);
    assert after.clients == SweptAt(p, before, ip, now).clients;
  }

  lemma AllSwept(p: Params, s: State, e: Event)
    requires e.Eviction? && e.readings.Keys == s.clients.Keys
    ensures Swept(p, s, {}, e.readings) == EvictState(p, s, e)
  {
    assert Swept(p, s, {}, e.readings).clients == EvictState(p, s, e).clients;
  }

  function Next(p: Params, s: State, e: Event): State {
    if e.Request? then AllowState(p, s, e) else EvictState(p, s, e)
  }

  function VerdictIn(p: Params, s: State, e: Event): Verdict {
    if e.Request? then AllowVerdict(p, s, e) else Housekeeping
  }

  // ---------------------------------------------------------------------
  // Runs
  // ---------------------------------------------------------------------

  /** The event is what became of the call. */
  predicate Answers(e: Event, call: Call) {
    match call
    case AllowCall(client) => e.Request? && e.client == client
    case EvictCall => e.Eviction?
  }

  /** The state just before event `i` of a run from a new limiter. */
  function StateAt(p: Params, es: seq<Event>, i: nat): State
    requires i <= |es|
  {
    if i == 0 then Initial(p) else Next(p, StateAt(p, es, i - 1), es[i - 1])
  }

  function VerdictAt(p: Params, es: seq<Event>, i: nat): Verdict
    requires i < |es|
  {
    VerdictIn(p, StateAt(p, es, i), es[i])
  }

  function Begin(e: Event): Time {
    if e.Request? then e.paidAt else e.from
  }

  function End(e: Event): Time {
    if e.Request? then e.chargedAt else e.until
  }

  /** The clock does not run backwards within an event. */
  ghost predicate Clocked(e: Event) {
    match e
    case Request(_, paid, seen, charged) => paid <= seen <= charged
    case Eviction(from, until, readings) =>
      from <= until && forall c :: c in readings ==> from <= readings[c] <= until
  }

  /** Nor from one event to the next: the lock keeps events apart. */
  ghost predicate Timed(es: seq<Event>) {
    && (forall i :: 0 <= i < |es| ==> Clocked(es[i]))
    && (forall i, j :: 0 <= i < j < |es| ==> End(es[i]) <= Begin(es[j]))
  }

  /** No request holds the lock for more than `lag` between its first and its last
      reading of the clock. */
  ghost predicate Prompt(es: seq<Event>, lag: nat) {
    forall i :: 0 <= i < |es| && es[i].Request? ==> es[i].chargedAt - es[i].paidAt <= lag
  }

  /** The request got a token of the global tier. */
  predicate Passed(v: Verdict) {
    v.Admitted? || v.RefusedForClient?
  }

  predicate PassesAt(p: Params, es: seq<Event>, i: nat)
    requires i < |es|
  {
    Passed(VerdictAt(p, es, i))
  }

  predicate PassesFor(p: Params, es: seq<Event>, client: string, i: nat)
    requires i < |es|
  {
    es[i].Request? && es[i].client == client && PassesAt(p, es, i)
  }

  predicate AdmittedFor(p: Params, es: seq<Event>, client: string, i: nat)
    requires i < |es|
  {
    es[i].Request? && es[i].client == client && VerdictAt(p, es, i) == Admitted
  }

  function Passes(p: Params, es: seq<Event>, i: nat, j: nat): nat
    requires j <= |es|
  {
    if j <= i then 0 else Passes(p, es, i, j - 1) + (if PassesAt(p, es, j - 1) then 1 else 0)
  }

  function Admissions(p: Params, es: seq<Event>, i: nat, j: nat): nat
    requires j <= |es|
  {
    if j <= i then 0
    else Admissions(p, es, i, j - 1) + (if VerdictAt(p, es, j - 1) == Admitted then 1 else 0)
  }

  function ClientRefusals(p: Params, es: seq<Event>, i: nat, j: nat): nat
    requires j <= |es|
  {
    if j <= i then 0
    else ClientRefusals(p, es, i, j - 1) + (if VerdictAt(p, es, j - 1) == RefusedForClient then 1 else 0)
  }

  function AdmissionsOf(p: Params, es: seq<Event>, client: string, i: nat, j: nat): nat
    requires j <= |es|
  {
    if j <= i then 0
    else AdmissionsOf(p, es, client, i, j - 1) + (if AdmittedFor(p, es, client, j - 1) then 1 else 0)
  }

  /** What has happened does not depend on what comes later. */
  lemma {:induction false} RunPrefix(p: Params, es: seq<Event>, fs: seq<Event>, i: nat)
    requires i <= |es| && es <= fs
    ensures StateAt(p, fs, i) == StateAt(p, es, i)
    ensures i < |es| ==> VerdictAt(p, fs, i) == VerdictAt(p, es, i)
  {
    if i != 0 {
      RunPrefix(p, es, fs, i - 1);
    }
  }

  lemma NewRun(p: Params)
    ensures StateAt(p, [], 0) == Initial(p)
  {
  }

  lemma OneMore(p: Params, es: seq<Event>, e: Event)
    ensures StateAt(p, es + [e], |es| + 1) == Next(p, StateAt(p, es, |es|), e)
    ensures VerdictAt(p, es + [e], |es|) == VerdictIn(p, StateAt(p, es, |es|), e)
    ensures forall i :: 0 <= i < |es| ==> VerdictAt(p, es + [e], i) == VerdictAt(p, es, i)
  {
    forall i | 0 <= i <= |es|
      ensures StateAt(p, es + [e], i) == StateAt(p, es, i)
      ensures i < |es| ==> VerdictAt(p, es + [e], i) == VerdictAt(p, es, i)
    {
      RunPrefix(p, es, es + [e], i);
    }
  }

  // ---------------------------------------------------------------------
  // What every reachable state keeps
  // ---------------------------------------------------------------------

  /** Nothing in the state is from the future. */
  ghost predicate Settled(s: State, now: Time) {
    && s.global.last <= now
    && forall c :: c in s.clients ==> s.clients[c].lastSeen <= now && s.clients[c].bucket.last <= now
  }

  lemma NextSettled(p: Params, s: State, e: Event, now: Time)
    requires Settled(s, now) && now <= Begin(e) && Clocked(e)
    ensures Settled(Next(p, s, e), End(e))
  {
  }

  lemma {:induction false} StateSettled(p: Params, es: seq<Event>, i: nat, now: Time)
    requires Timed(es) && i <= |es|
    requires i != 0 ==> End(es[i - 1]) <= now
    ensures Settled(StateAt(p, es, i), now)
  {
    if i != 0 {
      var before := if i == 1 then 0 else End(es[i - 2]);
      StateSettled(p, es, i - 1, before);
      NextSettled(p, StateAt(p, es, i - 1), es[i - 1], before);
    }
  }
}
