/** The limiter object: a map of client records, each with its own bucket
    object, all updated in place. */
module RateLimiter {
  import opened TokenBucket
  import opened RateLimiting
  import opened EvictionTransparency

  /** A monotone clock. `advance` says by how much it moves before each reading;
      nothing is known about it. */
  class Clock {
    const advance: nat -> nat
    var readings: nat
    var now: Time

    constructor (advance: nat -> nat)
      ensures this.advance == advance && now == 0 && readings == 0
    {
      this.advance := advance;
      readings, now := 0, 0;
    }

    method Read() returns (t: Time)
      modifies this
      ensures t == now == old(now) + advance(old(readings)) && readings == old(readings) + 1
    {
      now := now + advance(readings);
      readings := readings + 1;
      t := now;
    }
  }

  class ClientLimiter {
    const limiter: Limiter
    var lastSeen: Time

    constructor (limiter: Limiter, lastSeen: Time)
      ensures this.limiter == limiter && this.lastSeen == lastSeen
    {
      this.limiter, this.lastSeen := limiter, lastSeen;
    }
  }

  datatype RateLimiterConfig = RateLimiterConfig(
    globalLimit: nat, globalBurst: int, perClientLimit: nat, perClientBurst: int)

  /** The parameters of the state machine a configuration stands for. */
  function ParamsOf(config: RateLimiterConfig): Params {
    Params(EffectiveRate(config.globalLimit, config.globalBurst),
           EffectiveRate(config.perClientLimit, config.perClientBurst),
           Limited(CLIENT_TTL))
  }

  class RateLimiter {
    const config: RateLimiterConfig
    const clock: Clock
    const global: Limiter
    var clients: map<string, ClientLimiter>

    /** The state of the state machine that the object graph represents. */
    ghost var state: State
    ghost var Repr: set<object>

    /** Every client owns its record and its bucket, all buckets run at the
        configured rates, and the objects hold what `state` says. */
    ghost predicate Valid()
      reads this, Repr
    {
      && this in Repr && global in Repr && clock !in Repr
      && global.rate == ParamsOf(config).global
      && state.global == global.State()
      && state.clients.Keys == clients.Keys
      && (forall c :: c in clients ==>
            && clients[c] in Repr
            && clients[c].limiter in Repr
            && clients[c].limiter.rate == ParamsOf(config).client
            && clients[c].limiter != global
            && state.clients[c] == Entry(clients[c].limiter.State(), clients[c].lastSeen))
      && (forall c, d :: c in clients && d in clients && c != d ==>
            clients[c] != clients[d] && clients[c].limiter != clients[d].limiter)
    }

    constructor (config: RateLimiterConfig, clock: Clock)
      ensures Valid() && fresh(Repr)
      ensures this.config == config && this.clock == clock && state == Initial(ParamsOf(config))
      ensures global.rate.limit == config.globalLimit
      ensures global.rate.burst == if 0 < config.globalBurst then config.globalBurst else 2 * config.globalLimit
      ensures global.tokens == 1_000_000_000 * global.rate.burst && clients == map[]
    {
      this.config, this.clock := config, clock;
      var burst := config.globalBurst;
      if burst <= 0 {
        burst := config.globalLimit * BURST_MULTIPLIER;
      }
      this.global := new Limiter(Rate(config.globalLimit, burst));
      this.clients := map[];
      this.state := Initial(ParamsOf(config));
      this.Repr := {this, global};
    }

    /** One request is the step of the state machine for the times the clock
        showed; the answer is whether it was admitted. */
    method Allow(clientIP: string) returns (ok: bool, ghost e: Event)
      requires Valid()
      modifies Repr, clock
      ensures Valid() && fresh(Repr - old(Repr))
      ensures Answers(e, AllowCall(clientIP)) && Clocked(e)
      ensures old(clock.now) <= Begin(e) && End(e) <= clock.now
      ensures ok == AllowVerdict(ParamsOf(config), old(state), e).Admitted?
      ensures state == AllowState(ParamsOf(config), old(state), e)
    {
      hide AllowState, AllowVerdict, Paid, Visited, Charged;
      ghost var p, before := ParamsOf(config), state;
      ghost var paidAt;
      ok, paidAt := Pay();
      if !ok {
        e := Request(clientIP, paidAt, paidAt, paidAt);
        AllowInStages(p, before, e);
        return;
      }
      var clientLim;
      ghost var seenAt;
      clientLim, seenAt := Lookup(clientIP);
      ghost var chargedAt;
      ok, chargedAt := Charge(clientIP, clientLim);
      e := Request(clientIP, paidAt, seenAt, chargedAt);
      AllowInStages(p, before, e);
    }

    method Pay() returns (ok: bool, ghost paidAt: Time)
      requires Valid()
      modifies global, this`state, clock
      ensures Valid() && old(clock.now) <= paidAt == clock.now
      ensures ok == Admits(ParamsOf(config).global, old(state).global, paidAt)
      ensures state == Paid(ParamsOf(config), old(state), paidAt)
    {
      var now := clock.Read();
      paidAt := now;
      ok := global.Allow(now);
      state := Paid(ParamsOf(config), state, now);
    }

    method Charge(clientIP: string, clientLim: ClientLimiter) returns (ok: bool, ghost chargedAt: Time)
      requires Valid() && clientIP in clients && clientLim == clients[clientIP] && clientIP in state.clients
      modifies clientLim.limiter, this`state, clock
      ensures Valid() && old(clock.now) <= chargedAt == clock.now
      ensures ok == Admits(ParamsOf(config).client, old(state).clients[clientIP].bucket, chargedAt)
      ensures state == Charged(ParamsOf(config), old(state), clientIP, chargedAt)
    {
      var now := clock.Read();
      chargedAt := now;
      ok := clientLim.limiter.Allow(now);
      state := Charged(ParamsOf(config), state, clientIP, now);
    }

    /** The client's record, made with a full bucket if there is none, with the
        time of this visit noted. */
    method Lookup(clientIP: string) returns (clientLim: ClientLimiter, ghost seenAt: Time)
      requires Valid()
      modifies Repr, clock
      ensures Valid() && fresh(Repr - old(Repr))
      ensures old(clock.now) <= seenAt == clock.now
      ensures clientIP in clients && clients[clientIP] == clientLim
      ensures state == Visited(ParamsOf(config), old(state), clientIP, seenAt)
    {
      if clientIP !in clients {
        clientLim, seenAt := Meet(clientIP);
      } else {
        clientLim, seenAt := Touch(clientIP);
      }
    }

    method Meet(clientIP: string) returns (clientLim: ClientLimiter, ghost seenAt: Time)
      requires Valid() && clientIP !in clients
      modifies this`clients, this`state, this`Repr, clock
      ensures Valid() && fresh(Repr - old(Repr))
      ensures old(clock.now) <= seenAt == clock.now
      ensures clientIP in clients && clients[clientIP] == clientLim
      ensures state == Visited(ParamsOf(config), old(state), clientIP, seenAt)
    {
      clientLim, seenAt := NewClient();
      clients := clients[clientIP := clientLim];
      Repr := Repr + {clientLim, clientLim.limiter};
      state := Visited(ParamsOf(config), state, clientIP, seenAt);
    }

    method NewClient() returns (clientLim: ClientLimiter, ghost seenAt: Time)
      modifies clock
      ensures fresh(clientLim) && fresh(clientLim.limiter) && old(clock.now) <= seenAt == clock.now
      ensures clientLim.limiter.rate == ParamsOf(config).client
      ensures clientLim.limiter.State() == Fresh(clientLim.limiter.rate) && clientLim.lastSeen == seenAt
      ensures var rate := clientLim.limiter.rate;
              && rate.limit == config.perClientLimit
              && rate.burst == (if 0 < config.perClientBurst then config.perClientBurst else 2 * config.perClientLimit)
              && clientLim.limiter.tokens == 1_000_000_000 * rate.burst
    {
      var perBurst := config.perClientBurst;
      if perBurst <= 0 {
        perBurst := config.perClientLimit * BURST_MULTIPLIER;
      }
      var limiter := new Limiter(Rate(config.perClientLimit, perBurst));
      var now := clock.Read();
      clientLim := new ClientLimiter(limiter, now);
      seenAt := now;
    }

    method Touch(clientIP: string) returns (clientLim: ClientLimiter, ghost seenAt: Time)
      requires Valid() && clientIP in clients
      modifies clients[clientIP], this`state, clock
      ensures Valid()
      ensures old(clock.now) <= seenAt == clock.now
      ensures clients[clientIP] == clientLim
      ensures state == Visited(ParamsOf(config), old(state), clientIP, seenAt)
    {
      clientLim := clients[clientIP];
      var now := clock.Read();
      clientLim.lastSeen, seenAt := now, now;
      state := Visited(ParamsOf(config), state, clientIP, seenAt);
    }

    /** Visits the entries in any order, and drops those idle for too long. */
    method EvictExpired() returns (ghost e: Event)
      requires Valid()
      modifies this`clients, this`state, clock
      ensures Valid()
      ensures Answers(e, EvictCall) && Clocked(e)
      ensures old(clock.now) <= Begin(e) && End(e) <= clock.now
      ensures state == EvictState(ParamsOf(config), old(state), e)
    {
      hide Expired, ParamsOf, Swept, SweptAt, EvictState;
      ghost var p, before := ParamsOf(config), state;
      ghost var readings: map<string, Time> := map[];
      var unvisited := clients.Keys;
      NothingSwept(p, before, readings);
      while unvisited != {}
        invariant Valid() && state == Swept(p, before, unvisited, readings)
        invariant unvisited <= before.clients.Keys && readings.Keys == before.clients.Keys - unvisited
        invariant old(clock.now) <= clock.now
        invariant forall c :: c in readings ==> old(clock.now) <= readings[c] <= clock.now
        decreases unvisited
      {
        var ip :| ip in unvisited;
        StillThere(p, before, unvisited, readings, ip);
        ghost var now := Inspect(ip);
        SweepOne(p, before, unvisited, readings, ip, now);
        unvisited, readings := unvisited - {ip}, readings[ip := now];
      }
      e := Eviction(old(clock.now), clock.now, readings);
      AllSwept(p, before, e);
    }

    /** One turn of the loop: the clock is read and the entry dropped if it is too old. */
    method Inspect(ip: string) returns (ghost now: Time)
      requires Valid() && ip in state.clients
      modifies this`clients, this`state, clock
      ensures Valid() && old(clock.now) <= now == clock.now
      ensures state == SweptAt(ParamsOf(config), old(state), ip, now)
    {
      var reading := clock.Read();
      now := reading;
      state := SweptAt(ParamsOf(config), state, ip, now);
      if reading - clients[ip].lastSeen > CLIENT_TTL {
        clients := clients - {ip};
      }
    }
  }

  method Serve(limiter: RateLimiter, call: Call) returns (ok: bool, ghost e: Event)
    requires limiter.Valid()
    modifies limiter.Repr, limiter.clock
    ensures limiter.Valid() && fresh(limiter.Repr - old(limiter.Repr))
    ensures Answers(e, call) && Clocked(e)
    ensures old(limiter.clock.now) <= Begin(e) && End(e) <= limiter.clock.now
    ensures ok == VerdictIn(ParamsOf(limiter.config), old(limiter.state), e).Admitted?
    ensures limiter.state == Next(ParamsOf(limiter.config), old(limiter.state), e)
  {
    ok := false;
    match call {
      case AllowCall(client) => ok, e := limiter.Allow(client);
      case EvictCall => e := limiter.EvictExpired();
    }
  }

  /** The answers given up to `now` are those of the run `es` of these calls. */
  ghost predicate Recorded(p: Params, calls: seq<Call>, answers: seq<bool>, es: seq<Event>, now: Time) {
    && |answers| == |es| <= |calls| && Timed(es)
    && (forall i :: 0 <= i < |es| ==> Answers(es[i], calls[i]) && End(es[i]) <= now)
    && (forall i :: 0 <= i < |es| ==> answers[i] == VerdictAt(p, es, i).Admitted?)
  }

  lemma RecordOne(p: Params, calls: seq<Call>, answers: seq<bool>, es: seq<Event>, now: Time,
                  ok: bool, e: Event, later: Time)
    requires Recorded(p, calls, answers, es, now) && |es| < |calls|
    requires Answers(e, calls[|es|]) && Clocked(e) && now <= Begin(e) && End(e) <= later
    requires ok == VerdictIn(p, StateAt(p, es, |es|), e).Admitted?
    ensures Recorded(p, calls, answers + [ok], es + [e], later)
    ensures StateAt(p, es + [e], |es| + 1) == Next(p, StateAt(p, es, |es|), e)
  {
    hide VerdictAt, StateAt, Next;
    OneMore(p, es, e);
  }

  /** A new limiter driven through any calls, whatever the clock shows, answers
      as the state machine does on a timed run of these calls, and, if idle
      buckets refill in time, as one that never forgets. */
  method Drive(config: RateLimiterConfig, advance: nat -> nat, calls: seq<Call>)
    returns (answers: seq<bool>, ghost es: seq<Event>)
    ensures |answers| == |es| == |calls| && Timed(es)
    ensures forall i :: 0 <= i < |es| ==> Answers(es[i], calls[i])
    ensures forall i :: 0 <= i < |es| ==> answers[i] == VerdictAt(ParamsOf(config), es, i).Admitted?
    ensures forall i, lag :: 0 <= i < |es| && Transparent(ParamsOf(config), lag) && Prompt(es, lag) ==>
              answers[i] == VerdictAt(Ideal(ParamsOf(config)), es, i).Admitted?
  {
    hide ParamsOf, StateAt, Next, VerdictAt;
    ghost var p := ParamsOf(config);
    var clock := new Clock(advance);
    var limiter := new RateLimiter(config, clock);
    answers, es := [], [];
    NewRun(p);
    for i := 0 to |calls|
      invariant limiter.Valid() && fresh(limiter.Repr) && fresh(clock)
      invariant limiter.config == config && limiter.clock == clock
      invariant |es| == i && Recorded(p, calls, answers, es, clock.now)
      invariant limiter.state == StateAt(p, es, i)
    {
      ghost var now := clock.now;
      var ok;
      ghost var e;
      ok, e := Serve(limiter, calls[i]);
      RecordOne(p, calls, answers, es, now, ok, e, clock.now);
      answers, es := answers + [ok], es + [e];
    }
    forall i, lag | 0 <= i < |es| && Transparent(p, lag) && Prompt(es, lag)
      ensures answers[i] == VerdictAt(Ideal(p), es, i).Admitted?
    {
      EvictionUnobservable(p, es, i, lag);
    }
  }
}
