/** The client map stays bounded. */
module BoundedMemory {
  import opened TokenBucket
  import opened RateLimiting
  import opened WindowBounds

  /** At `now`, with `i` events done, the last eviction began (or the limiter was
      started) at most `interval` ago. */
  ghost predicate RecentlyEvicted(es: seq<Event>, i: nat, start: Time, now: Time, interval: nat) {
    i <= |es| &&
    (now - start <= interval || exists k :: 0 <= k < i && es[k].Eviction? && now - es[k].from <= interval)
  }

  /** Clients with a request among the given events that passed the global tier. */
  function Passers(p: Params, es: seq<Event>, i: nat, j: nat): set<string>
    requires j <= |es|
  {
    if j <= i then {}
    else Passers(p, es, i, j - 1) + (if PassesAt(p, es, j - 1) then {es[j - 1].client} else {})
  }

  lemma {:induction false} PassersArePasses(p: Params, es: seq<Event>, i: nat, j: nat)
    requires j <= |es|
    ensures |Passers(p, es, i, j)| <= Passes(p, es, i, j)
  {
    if i < j {
      PassersArePasses(p, es, i, j - 1);
    }
  }

  lemma {:induction false} PassersHas(p: Params, es: seq<Event>, i: nat, j: nat, k: nat)
    requires i <= k < j <= |es| && PassesAt(p, es, k)
    ensures es[k].client in Passers(p, es, i, j)
    decreases j
  {
    if k < j - 1 {
      PassersHas(p, es, i, j - 1, k);
    }
  }

  /** An entry is there because of a request that passed the global tier and whose
      visit the entry remembers. */
  lemma {:induction false} EntryHasPass(p: Params, es: seq<Event>, i: nat, client: string) returns (k: nat)
    requires i <= |es| && client in StateAt(p, es, i).clients
    ensures k < i && PassesFor(p, es, client, k)
    ensures es[k].seenAt == StateAt(p, es, i).clients[client].lastSeen
  {
    if PassesFor(p, es, client, i - 1) {
      k := i - 1;
    } else {
      k := EntryHasPass(p, es, i - 1, client);
    }
  }

  /** What an eviction leaves behind is young, and what is touched later is
      younger still. */
  lemma {:induction false} EntriesSinceEviction(p: Params, es: seq<Event>, k: nat, i: nat, client: string)
    requires Timed(es) && k < i <= |es| && es[k].Eviction? && p.lifetime.Limited?
    requires client in StateAt(p, es, i).clients
    ensures es[k].from - p.lifetime.ttl <= StateAt(p, es, i).clients[client].lastSeen
    decreases i
  {
    if k < i - 1 && !PassesFor(p, es, client, i - 1) {
      EntriesSinceEviction(p, es, k, i - 1, client);
    }
  }

  lemma EntryIsYoung(p: Params, es: seq<Event>, i: nat, start: Time, now: Time, interval: nat, client: string)
    requires Timed(es) && i <= |es| && p.lifetime.Limited?
    requires forall k :: 0 <= k < |es| ==> start <= Begin(es[k])
    requires RecentlyEvicted(es, i, start, now, interval)
    requires client in StateAt(p, es, i).clients
    ensures now - (p.lifetime.ttl + interval) <= StateAt(p, es, i).clients[client].lastSeen
  {
    if now - start <= interval {
      var k := EntryHasPass(p, es, i, client);
    } else {
      var k :| 0 <= k < i && es[k].Eviction? && now - es[k].from <= interval;
      EntriesSinceEviction(p, es, k, i, client);
    }
  }

  /** Each entry is owed to a different recent pass. */
  lemma EntriesAreRecentPasses(p: Params, es: seq<Event>, i: nat, start: Time, now: Time, interval: nat)
    returns (first: nat)
    requires Timed(es) && i <= |es| && p.lifetime.Limited?
    requires forall k :: 0 <= k < |es| ==> start <= Begin(es[k])
    requires RecentlyEvicted(es, i, start, now, interval)
    ensures first <= i && |StateAt(p, es, i).clients| <= Passes(p, es, first, i)
    ensures first < i ==> now - (p.lifetime.ttl + interval) <= End(es[first])
  {
    first := FirstSince(es, i, now - (p.lifetime.ttl + interval));
    var clients := StateAt(p, es, i).clients;
    forall c | c in clients
      ensures c in Passers(p, es, first, i)
    {
      EntryIsYoung(p, es, i, start, now, interval, c);
      var k := EntryHasPass(p, es, i, c);
      assert Clocked(es[k]);
      PassersHas(p, es, first, i, k);
    }
    assert clients.Keys <= Passers(p, es, first, i);
    SubsetSize(clients.Keys, Passers(p, es, first, i));
    PassersArePasses(p, es, first, i);
  }

  /** Passes that end within `window`: all but the first also begin in it. */
  lemma PassesEndingWithin(p: Params, es: seq<Event>, i: nat, j: nat, now: Time, window: nat)
    requires Timed(es) && i <= j <= |es|
    requires i < j ==> now - window <= End(es[i]) && End(es[j - 1]) <= now
    ensures NANO * Passes(p, es, i, j) <= Capacity(p.global) + Gain(p.global.limit, window) + NANO
  {
    hide VerdictAt, Gain;
    if i < j {
      BeginsInOrder(es, j - 1, j - 1);
      PassesInWindow(p, es, i + 1, j, window);
      OneMorePass(p, es, i, j);
    }
  }

  /** And that one not long before. */
  lemma PromptPassesEndingWithin(p: Params, es: seq<Event>, i: nat, j: nat, now: Time, window: nat, lag: nat)
    requires Timed(es) && Prompt(es, lag) && i <= j <= |es|
    requires i < j ==> now - window <= End(es[i]) && End(es[j - 1]) <= now
    ensures NANO * Passes(p, es, i, j) <= Capacity(p.global) + Gain(p.global.limit, window + lag)
  {
    hide VerdictAt, Gain;
    if i < j {
      BeginsInOrder(es, j - 1, j - 1);
      var wider := window + lag;
      if es[i].Request? {
        PassesInWindow(p, es, i, j, wider);
      } else {
        PassesInWindow(p, es, i + 1, j, window);
        OneMorePass(p, es, i, j);
        HousekeepingPaysNothing(p, es, i);
        GainGrows(p.global.limit, window, wider);
      }
    }
  }

  lemma HousekeepingPaysNothing(p: Params, es: seq<Event>, i: nat)
    requires i < |es| && es[i].Eviction?
    ensures !PassesAt(p, es, i)
  {
  }

  /** If the map was cleaned within the last `interval`, it holds at most
      burst + limit * (ttl + interval) clients of the global tier, and perhaps
      one whose request paid before that period and was noted within it. */
  lemma ClientsAreBounded(p: Params, es: seq<Event>, i: nat, start: Time, now: Time, interval: nat)
    requires Timed(es) && i <= |es| && p.lifetime.Limited?
    requires forall k :: 0 <= k < |es| ==> start <= Begin(es[k])
    requires i != 0 ==> End(es[i - 1]) <= now
    requires RecentlyEvicted(es, i, start, now, interval)
    ensures NANO * |StateAt(p, es, i).clients|
         <= Capacity(p.global) + Gain(p.global.limit, p.lifetime.ttl + interval) + NANO
  {
    hide StateAt, Passes;
    var first := EntriesAreRecentPasses(p, es, i, start, now, interval);
    PassesEndingWithin(p, es, first, i, now, p.lifetime.ttl + interval);
  }

  /** Until the first eviction is due the same holds without any. */
  lemma FirstClientsAreBounded(p: Params, es: seq<Event>, i: nat, start: Time, now: Time, interval: nat)
    requires Timed(es) && i <= |es| && p.lifetime.Limited?
    requires forall k :: 0 <= k < |es| ==> start <= Begin(es[k])
    requires i != 0 ==> End(es[i - 1]) <= now
    requires now - start <= interval
    ensures NANO * |StateAt(p, es, i).clients|
         <= Capacity(p.global) + Gain(p.global.limit, p.lifetime.ttl + interval) + NANO
  {
    hide StateAt;
    ClientsAreBounded(p, es, i, start, now, interval);
  }

  const TIGHT_RUN: seq<Event> := [Request("a", 0, 1, 1), Eviction(1, 1, map["a" := 1]), Request("b", 1, 1, 1)]

  /** That one can be there: a request pays, is kept waiting until the token it
      paid with has come in again, and another client pays with that. */
  lemma BoundIsReached(client: Rate) returns (p: Params, es: seq<Event>)
    ensures p == Params(Rate(NANO, 1), client, Limited(0))
    ensures Timed(es) && |es| == 3 && End(es[2]) == 1 && RecentlyEvicted(es, |es|, 0, 1, 0)
    ensures NANO * |StateAt(p, es, |es|).clients|
         == Capacity(p.global) + Gain(p.global.limit, p.lifetime.ttl + 0) + NANO
  {
    hide AllowState, EvictState;
    p, es := Params(Rate(NANO, 1), client, Limited(0)), TIGHT_RUN;
    assert es[1].Eviction? && 1 - es[1].from <= 0;
    assert StateAt(p, es, 0) == Initial(p);
    FirstPasses(p);
    FirstStays(p, StateAt(p, es, 1));
    SecondPasses(p, StateAt(p, es, 2));
    assert |StateAt(p, es, 3).clients| == |StateAt(p, es, 3).clients.Keys|;
  }

  lemma FirstPasses(p: Params)
    requires p.global == Rate(NANO, 1)
    ensures var s := AllowState(p, Initial(p), TIGHT_RUN[0]);
            s.global == Bucket(0, 0) && s.clients.Keys == {"a"} && s.clients["a"].lastSeen == 1
  {
  }

  lemma FirstStays(p: Params, s: State)
    requires p.lifetime == Limited(0) && s.clients.Keys == {"a"} && s.clients["a"].lastSeen == 1
    ensures EvictState(p, s, TIGHT_RUN[1]) == s
  {
    assert EvictState(p, s, TIGHT_RUN[1]).clients == s.clients;
  }

  lemma SecondPasses(p: Params, s: State)
    requires p.global == Rate(NANO, 1) && s.global == Bucket(0, 0) && s.clients.Keys == {"a"}
    ensures AllowState(p, s, TIGHT_RUN[2]).clients.Keys == {"a", "b"}
  {
    assert Level(p.global, Bucket(0, 0), 1) == NANO;
  }

  /** Without that one, if requests are prompt. */
  lemma PromptClientsAreBounded(p: Params, es: seq<Event>, i: nat, start: Time, now: Time, interval: nat, lag: nat)
    requires Timed(es) && Prompt(es, lag) && i <= |es| && p.lifetime.Limited?
    requires forall k :: 0 <= k < |es| ==> start <= Begin(es[k])
    requires i != 0 ==> End(es[i - 1]) <= now
    requires RecentlyEvicted(es, i, start, now, interval)
    ensures NANO * |StateAt(p, es, i).clients|
         <= Capacity(p.global) + Gain(p.global.limit, p.lifetime.ttl + interval + lag)
  {
    hide StateAt, Passes;
    var first := EntriesAreRecentPasses(p, es, i, start, now, interval);
    PromptPassesEndingWithin(p, es, first, i, now, p.lifetime.ttl + interval, lag);
  }

  lemma {:induction false} OneMorePass(p: Params, es: seq<Event>, i: nat, j: nat)
    requires i < j <= |es|
    ensures Passes(p, es, i, j) == Passes(p, es, i + 1, j) + (if PassesAt(p, es, i) then 1 else 0)
    decreases j
  {
    if i + 1 < j {
      OneMorePass(p, es, i, j - 1);
    }
  }

  lemma {:induction false} FirstSince(es: seq<Event>, i: nat, cutoff: int) returns (first: nat)
    requires Timed(es) && i <= |es|
    ensures first <= i && (first < i ==> cutoff <= End(es[first]))
    ensures forall k :: 0 <= k < i && cutoff <= End(es[k]) ==> first <= k
  {
    if i == 0 {
      first := 0;
    } else if End(es[i - 1]) < cutoff {
      first := i;
      forall k | 0 <= k < i
        ensures End(es[k]) < cutoff
      {
        BeginsInOrder(es, k, i - 1);
      }
    } else {
      first := FirstSince(es, i - 1, cutoff);
    }
  }

  lemma SubsetSize<T>(a: set<T>, b: set<T>)
    requires a <= b
    ensures |a| <= |b|
  {
    assert b == a + (b - a);
  }
}
