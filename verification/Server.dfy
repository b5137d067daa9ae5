/** The server as it is wired: twice the configured rates as bursts, eviction
    every ten minutes of clients idle for more than thirty. */
module Server {
  import opened TokenBucket
  import opened RateLimiting
  import opened RateLimiter
  import opened EvictionTransparency
  import opened WindowBounds
  import opened BoundedMemory
  import opened Middleware

  function ServerConfig(rateLimitGlobal: nat, rateLimitPerClient: nat): RateLimiterConfig {
    RateLimiterConfig(rateLimitGlobal, rateLimitGlobal * BURST_MULTIPLIER,
                      rateLimitPerClient, rateLimitPerClient * BURST_MULTIPLIER)
  }

  function ServerParams(rateLimitGlobal: nat, rateLimitPerClient: nat): Params {
    ParamsOf(ServerConfig(rateLimitGlobal, rateLimitPerClient))
  }

  lemma ServerRates(rateLimitGlobal: nat, rateLimitPerClient: nat, seconds: nat)
    ensures var p := ServerParams(rateLimitGlobal, rateLimitPerClient);
            && Capacity(p.global) + Gain(p.global.limit, seconds * NANO) == NANO * (rateLimitGlobal * (seconds + 2))
            && Capacity(p.client) + Gain(p.client.limit, seconds * NANO) == NANO * (rateLimitPerClient * (seconds + 2))
  {
    var p := ServerParams(rateLimitGlobal, rateLimitPerClient);
    assert p.global.burst == rateLimitGlobal * 2 && p.client.burst == rateLimitPerClient * 2;
    GainOfSeconds(rateLimitGlobal, seconds);
    GainOfSeconds(rateLimitPerClient, seconds);
  }

  lemma GainOfSeconds(limit: nat, seconds: nat)
    ensures Gain(limit, seconds * NANO) == NANO * (limit * seconds)
    ensures limit * (seconds + 2) == limit * seconds + limit * 2
  {
  }

  /** Bursts left out come to the same: the limiter's own default is the server's
      wiring. */
  lemma UnsetBurstsAreTheServers(rateLimitGlobal: nat, rateLimitPerClient: nat, globalBurst: int, perClientBurst: int)
    ensures ParamsOf(RateLimiterConfig(rateLimitGlobal, globalBurst, rateLimitPerClient, perClientBurst))
         == ServerParams(rateLimitGlobal, rateLimitPerClient)
        <==> && (globalBurst <= 0 || globalBurst == 2 * rateLimitGlobal)
             && (perClientBurst <= 0 || perClientBurst == 2 * rateLimitPerClient)
  {
  }

  /** Far longer than any request holds the lock. */
  const LONGEST_HOLD: nat := CLIENT_TTL - 2 * NANO

  /** Forgetting idle clients never shows in the server, at any rates; nor in a
      limiter to which bursts are left. */
  lemma ServerForgetsUnnoticed(rateLimitGlobal: nat, rateLimitPerClient: nat, globalBurst: int, perClientBurst: int)
    requires globalBurst <= 0 || globalBurst == 2 * rateLimitGlobal
    requires perClientBurst <= 0 || perClientBurst == 2 * rateLimitPerClient
    ensures var p := ParamsOf(RateLimiterConfig(rateLimitGlobal, globalBurst, rateLimitPerClient, perClientBurst));
            && p == ServerParams(rateLimitGlobal, rateLimitPerClient)
            && Transparent(p, LONGEST_HOLD) && Unobservable(p, LONGEST_HOLD)
  {
    var p := ServerParams(rateLimitGlobal, rateLimitPerClient);
    UnsetBurstsAreTheServers(rateLimitGlobal, rateLimitPerClient, globalBurst, perClientBurst);
    GainGrows(rateLimitPerClient, 2 * NANO, CLIENT_TTL + 1 - LONGEST_HOLD);
    forall es, i | Timed(es) && Prompt(es, LONGEST_HOLD) && 0 <= i < |es|
      ensures VerdictAt(p, es, i) == VerdictAt(Ideal(p), es, i)
    {
      EvictionUnobservable(p, es, i, LONGEST_HOLD);
    }
  }

  /** In any stretch of so many seconds the server admits at most that many
      seconds' worth of requests and two more, and hands at most a hundred times
      as many messages on. */
  lemma ServerBounds(rateLimitGlobal: nat, rateLimitPerClient: nat,
                     arrivals: seq<Arrival>, i: nat, j: nat, seconds: nat)
    requires Timed(Events(arrivals)) && Within(Events(arrivals), i, j, seconds * NANO)
    requires forall k :: 0 <= k < |arrivals| && arrivals[k].Http? ==> Readable(arrivals[k].body)
    ensures var p := ServerParams(rateLimitGlobal, rateLimitPerClient);
            && Admissions(p, Events(arrivals), i, j) <= rateLimitGlobal * (seconds + 2)
            && Messages(p, arrivals, i, j) <= 100 * (rateLimitGlobal * (seconds + 2))
  {
    hide ServerParams;
    var p := ServerParams(rateLimitGlobal, rateLimitPerClient);
    ServerRates(rateLimitGlobal, rateLimitPerClient, seconds);
    GlobalWindowBound(p, Events(arrivals), i, j, seconds * NANO);
    MessagesPerAdmission(p, arrivals, i, j);
  }

  /** The same for each client, evicted in between or not. */
  lemma ServerClientBounds(rateLimitGlobal: nat, rateLimitPerClient: nat,
                           arrivals: seq<Arrival>, client: string, i: nat, j: nat, seconds: nat)
    requires Timed(Events(arrivals)) && Prompt(Events(arrivals), LONGEST_HOLD)
    requires EndsWithin(Events(arrivals), i, j, seconds * NANO)
    requires forall k :: 0 <= k < |arrivals| && arrivals[k].Http? ==> Readable(arrivals[k].body)
    ensures var p := ServerParams(rateLimitGlobal, rateLimitPerClient);
            && AdmissionsOf(p, Events(arrivals), client, i, j) <= rateLimitPerClient * (seconds + 2)
            && MessagesOf(p, arrivals, client, i, j) <= 100 * (rateLimitPerClient * (seconds + 2))
  {
    hide ServerParams;
    var p := ServerParams(rateLimitGlobal, rateLimitPerClient);
    ServerRates(rateLimitGlobal, rateLimitPerClient, seconds);
    ServerForgetsUnnoticed(rateLimitGlobal, rateLimitPerClient, 2 * rateLimitGlobal, 2 * rateLimitPerClient);
    ClientWindowBound(p, Events(arrivals), client, i, j, seconds * NANO, LONGEST_HOLD);
    MessagesPerAdmissionOf(p, arrivals, client, i, j);
  }

  /** Cleaned on time, the client map holds at most forty minutes' worth of
      requests and two seconds' more, and perhaps one client on top; not that one
      if requests take less time than a token takes to come in. */
  lemma ServerMapIsBounded(rateLimitGlobal: nat, rateLimitPerClient: nat,
                           es: seq<Event>, i: nat, start: Time, now: Time, lag: nat)
    requires Timed(es) && i <= |es|
    requires forall k :: 0 <= k < |es| ==> start <= Begin(es[k])
    requires i != 0 ==> End(es[i - 1]) <= now
    requires RecentlyEvicted(es, i, start, now, CLEANUP_INTERVAL)
    ensures var clients := |StateAt(ServerParams(rateLimitGlobal, rateLimitPerClient), es, i).clients|;
            && clients <= rateLimitGlobal * 2402 + 1
            && (Prompt(es, lag) && Gain(rateLimitGlobal, lag) < NANO ==> clients <= rateLimitGlobal * 2402)
  {
    var p := ServerParams(rateLimitGlobal, rateLimitPerClient);
    ClientsAreBounded(p, es, i, start, now, CLEANUP_INTERVAL);
    ServerRates(rateLimitGlobal, rateLimitPerClient, 2400);
    assert CLIENT_TTL + CLEANUP_INTERVAL == 2400 * NANO;
    if Prompt(es, lag) {
      PromptClientsAreBounded(p, es, i, start, now, CLEANUP_INTERVAL, lag);
      GainAdds(rateLimitGlobal, 2400 * NANO, lag);
    }
  }
}
