/** What the limiter promises over every run and every window of time. */
module WindowBounds {
  import opened TokenBucket
  import opened RateLimiting
  import opened Decomposition
  import opened EvictionTransparency

  // A window is a stretch of events, measured between the times at which a tier
  // takes its tokens: the global tier as an event begins, the client tier as it
  // ends.

  /** The events with indices from `i` up to `j` begin within `window`. */
  ghost predicate Within(es: seq<Event>, i: nat, j: nat, window: nat) {
    i <= j <= |es| && (i < j ==> Begin(es[j - 1]) - Begin(es[i]) <= window)
  }

  /** They end within `window`. */
  ghost predicate EndsWithin(es: seq<Event>, i: nat, j: nat, window: nat) {
    i <= j <= |es| && (i < j ==> End(es[j - 1]) - End(es[i]) <= window)
  }

  // --- accounting ----------------------------------------------------------

  lemma {:induction false} PassesAreAnswered(p: Params, es: seq<Event>, i: nat, j: nat)
    requires j <= |es|
    ensures Passes(p, es, i, j) == Admissions(p, es, i, j) + ClientRefusals(p, es, i, j)
  {
    if i < j {
      PassesAreAnswered(p, es, i, j - 1);
    }
  }

  /** Global tokens spent are the admissions plus the refusals of the client
      tier: a refusal there is paid for as well. */
  lemma TokensSpent(p: Params, es: seq<Event>, i: nat)
    requires i <= |es|
    ensures var ts := RequestTimes(es, i);
            Grants(p.global, Fresh(p.global), ts, 0, |ts|)
              == Admissions(p, es, 0, i) + ClientRefusals(p, es, 0, i)
  {
    GlobalTierIsABucket(p, es, i);
    PassesAreAnswered(p, es, 0, i);
  }

  // --- all clients together --------------------------------------------------

  lemma BeginsInOrder(es: seq<Event>, i: nat, j: nat)
    requires Timed(es) && i <= j < |es|
    ensures Begin(es[i]) <= Begin(es[j]) && End(es[i]) <= End(es[j])
  {
    assert Clocked(es[i]) && Clocked(es[j]);
  }

  lemma PassesInWindow(p: Params, es: seq<Event>, i: nat, j: nat, window: nat)
    requires Timed(es) && Within(es, i, j, window)
    ensures NANO * Passes(p, es, i, j) <= Capacity(p.global) + Gain(p.global.limit, window)
  {
    var ts, us := RequestTimes(es, i), RequestTimes(es, j);
    RequestTimesOrdered(es, j);
    RequestTimesPrefix(es, i, j);
    if |ts| < |us| {
      var m :| i <= m < j && Begin(es[m]) == us[|ts|];
      BeginsInOrder(es, i, m);
    }
    WindowBound(p.global, Fresh(p.global), us, |ts|, |us|, window);
    GlobalTierIsABucket(p, es, i);
    GlobalTierIsABucket(p, es, j);
    GrantsPrefix(p.global, Fresh(p.global), ts, us, 0, |ts|);
    GrantsSplit(p.global, Fresh(p.global), us, |ts|, |us|);
    PassesSplit(p, es, i, j);
  }

  /** In every window of length `window` of every run, with any eviction, at
      most burst + limit * window requests are admitted. */
  lemma GlobalWindowBound(p: Params, es: seq<Event>, i: nat, j: nat, window: nat)
    requires Timed(es) && Within(es, i, j, window)
    ensures NANO * Admissions(p, es, i, j) <= Capacity(p.global) + Gain(p.global.limit, window)
  {
    PassesInWindow(p, es, i, j, window);
    PassesAreAnswered(p, es, i, j);
  }

  // --- one client -------------------------------------------------------------

  /** Transparent eviction changes neither the times a client passes the global
      tier nor which of its requests are admitted. */
  lemma {:induction false} SameForClient(p: Params, es: seq<Event>, client: string, i: nat, lag: nat)
    requires Transparent(p, lag) && Timed(es) && Prompt(es, lag) && i <= |es|
    ensures PassTimes(p, es, client, i) == PassTimes(Ideal(p), es, client, i)
    ensures AdmissionsOf(p, es, client, 0, i) == AdmissionsOf(Ideal(p), es, client, 0, i)
  {
    if i != 0 {
      SameForClient(p, es, client, i - 1, lag);
      EvictionUnobservable(p, es, i - 1, lag);
    }
  }

  /** Isolation: however other clients behave and however often this one is
      forgotten, its admissions are those of one bucket of its own, fed with the
      times at which it passed the global tier. */
  lemma ClientIsIsolated(p: Params, es: seq<Event>, client: string, i: nat, lag: nat)
    requires Transparent(p, lag) && Timed(es) && Prompt(es, lag) && i <= |es|
    ensures var ts := PassTimes(p, es, client, i);
            AdmissionsOf(p, es, client, 0, i) == Grants(p.client, Fresh(p.client), ts, 0, |ts|)
  {
    SameForClient(p, es, client, i, lag);
    ClientTierIsABucket(Ideal(p), es, client, i);
  }

  /** Two runs in which a client passes the global tier at the same times admit
      it equally often, whatever else happens in them. */
  lemma ClientsDoNotInterfere(p: Params, es: seq<Event>, fs: seq<Event>, client: string, i: nat, j: nat, lag: nat)
    requires Transparent(p, lag) && Timed(es) && Timed(fs) && i <= |es| && j <= |fs|
    requires Prompt(es, lag) && Prompt(fs, lag)
    requires PassTimes(p, es, client, i) == PassTimes(p, fs, client, j)
    ensures AdmissionsOf(p, es, client, 0, i) == AdmissionsOf(p, fs, client, 0, j)
  {
    ClientIsIsolated(p, es, client, i, lag);
    ClientIsIsolated(p, fs, client, j, lag);
  }

  /** One client gets at most its own burst + limit * window in any window, even
      when it is forgotten and starts afresh inside it. */
  lemma ClientWindowBound(p: Params, es: seq<Event>, client: string, i: nat, j: nat, window: nat, lag: nat)
    requires Transparent(p, lag) && Timed(es) && Prompt(es, lag) && EndsWithin(es, i, j, window)
    ensures NANO * AdmissionsOf(p, es, client, i, j) <= Capacity(p.client) + Gain(p.client.limit, window)
  {
    var ts, us := PassTimes(p, es, client, i), PassTimes(p, es, client, j);
    PassTimesOrdered(p, es, client, j);
    PassTimesPrefix(p, es, client, i, j);
    if |ts| < |us| {
      var m :| i <= m < j && End(es[m]) == us[|ts|];
      BeginsInOrder(es, i, m);
    }
    WindowBound(p.client, Fresh(p.client), us, |ts|, |us|, window);
    ClientIsIsolated(p, es, client, i, lag);
    ClientIsIsolated(p, es, client, j, lag);
    GrantsPrefix(p.client, Fresh(p.client), ts, us, 0, |ts|);
    GrantsSplit(p.client, Fresh(p.client), us, |ts|, |us|);
    AdmissionsOfSplit(p, es, client, i, j);
  }

  /** No other way of choosing among a client's requests that pass the global
      tier, at its rate and burst, serves more of them. */
  lemma ClientTierIsOptimal(p: Params, es: seq<Event>, client: string, i: nat, chosen: seq<bool>, lag: nat)
    requires Transparent(p, lag) && Timed(es) && Prompt(es, lag) && i <= |es|
    requires |chosen| == |PassTimes(p, es, client, i)|
    requires Feasible(p.client, Fresh(p.client), PassTimes(p, es, client, i), chosen)
    ensures Served(chosen, |chosen|) <= AdmissionsOf(p, es, client, 0, i)
  {
    var ts := PassTimes(p, es, client, i);
    PassTimesOrdered(p, es, client, i);
    ClientIsIsolated(p, es, client, i, lag);
    GreedyIsOptimal(p.client, Fresh(p.client), ts, chosen, |ts|);
  }

  // --- without transparency ---------------------------------------------------

  /** Up to event `i` the visitor's bucket has overflowed nothing: what it granted
      and still holds is all it started with and all that came in. */
  ghost predicate Conserved(p: Params, es: seq<Event>, i: nat, now: Time)
    requires i <= |es|
  {
    var b := BucketOf(p, StateAt(p, es, i), VISITOR);
    && b.last <= now
    && NANO * AdmissionsOf(p, es, VISITOR, 0, i) + Level(p.client, b, now)
         == Capacity(p.client) + Gain(p.client.limit, now)
  }

  lemma ConservedAtStart(p: Params, es: seq<Event>)
    ensures Conserved(p, es, 0, 0)
  {
    assert Gain(p.client.limit, 0) == 0;
  }

  lemma ConservedLater(p: Params, es: seq<Event>, i: nat, now: Time, later: Time)
    requires i <= |es| && Conserved(p, es, i, now) && now <= later
    requires Level(p.client, BucketOf(p, StateAt(p, es, i), VISITOR), now) + Gain(p.client.limit, later - now)
          <= Capacity(p.client)
    ensures Conserved(p, es, i, later)
  {
    hide Level, Gain, StateAt, AdmissionsOf;
    LevelLater(p.client, BucketOf(p, StateAt(p, es, i), VISITOR), now, later);
    GainAdds(p.client.limit, now, later - now);
  }

  lemma ConservedByVisit(p: Params, es: seq<Event>, i: nat)
    requires i < |es| <= p.global.burst && es[i].Request? && es[i].client == VISITOR
    requires Conserved(p, es, i, es[i].chargedAt)
    ensures Conserved(p, es, i + 1, es[i].chargedAt)
  {
    hide Level, Gain, StateAt, VerdictAt;
    VisitCharges(p, es, i);
    LevelAfterTake(p.client, BucketOf(p, StateAt(p, es, i), VISITOR), es[i].chargedAt);
  }

  /** In the story the bucket overflows nothing up to the client's last visit. */
  lemma {:induction false} StoryConserved(p: Params, ttl: nat, lag: nat, i: nat)
    requires 0 < p.client.burst && |Story(p.client, ttl, lag)| <= p.global.burst
    requires i <= Drained(p.client, lag) + LastVisit(p.client, lag)
    ensures var d := Drained(p.client, lag);
            Conserved(p, Story(p.client, ttl, lag), i, if i <= d then 0 else i - d)
  {
    hide Conserved, Level, Gain, Drained, LastVisit;
    var es, d := Story(p.client, ttl, lag), Drained(p.client, lag);
    if i == 0 {
      ConservedAtStart(p, es);
    } else {
      var k := i - 1;
      StoryConserved(p, ttl, lag, k);
      if i <= d {
        assert es[k] == Visit(0);
      } else {
        assert es[k] == Visit(i - d);
        TokenByTokenFits(p, ttl, lag, k - d);
        ConservedLater(p, es, k, k - d, i - d);
      }
      ConservedByVisit(p, es, k);
    }
  }

  lemma TokenByTokenFits(p: Params, ttl: nat, lag: nat, t: nat)
    requires 0 < p.client.burst && |Story(p.client, ttl, lag)| <= p.global.burst
    requires t < LastVisit(p.client, lag)
    ensures var b := BucketOf(p, StateAt(p, Story(p.client, ttl, lag), Drained(p.client, lag) + t), VISITOR);
            Level(p.client, b, t) + Gain(p.client.limit, 1) <= Capacity(p.client)
  {
    hide Level;
    TimedLastVisit(p.client, lag);
    ShortLag(p.client.limit, lag);
    TokenByToken(p, ttl, lag, t);
    assert Gain(p.client.limit, 1) == p.client.limit;
  }

  /** The refill during the lag makes the bucket overflow at the last visit. */
  predicate Overfills(r: Rate, lag: nat) {
    Capacity(r) < Gain(r.limit, lag) || (r.burst == 1 && 0 < Gain(r.limit, lag) < NANO)
  }

  lemma LastRefillFits(p: Params, ttl: nat, lag: nat)
    requires 0 < p.client.burst && |Story(p.client, ttl, lag)| <= p.global.burst
    requires !Overfills(p.client, lag)
    ensures var t := LastVisit(p.client, lag);
            var b := BucketOf(p, StateAt(p, Story(p.client, ttl, lag), Drained(p.client, lag) + t), VISITOR);
            Level(p.client, b, t) + Gain(p.client.limit, lag) <= Capacity(p.client)
  {
    var r := p.client;
    DrainedLeaves(r, lag);
    if LastVisit(r, lag) == 0 {
      FirstDrain(p, ttl, lag, Drained(r, lag));
      RefillFitsAtOnce(r, lag);
    } else {
      TimedLastVisit(r, lag);
      ShortLag(r.limit, lag);
      TokenByToken(p, ttl, lag, LastVisit(r, lag));
    }
  }

  lemma RefillFitsAtOnce(r: Rate, lag: nat)
    requires 0 < r.burst && LastVisit(r, lag) == 0 && !Overfills(r, lag)
    ensures var left := NANO * (r.burst - Drained(r, lag));
            Level(r, Bucket(left, 0), 0) == left && left + Gain(r.limit, lag) <= Capacity(r)
  {
    assert Gain(r.limit, 0) == 0;
    if 0 < Gain(r.limit, lag) < NANO {
      ShortLag(r.limit, lag);
    }
  }

  /** Nor at that visit, unless the lag overfills it. */
  lemma QuietConserved(p: Params, ttl: nat, lag: nat)
    requires 0 < p.client.burst && |Story(p.client, ttl, lag)| <= p.global.burst
    requires !Overfills(p.client, lag)
    ensures var t := LastVisit(p.client, lag);
            var n := Drained(p.client, lag) + t + 1;
            NANO * AdmissionsOf(p, Story(p.client, ttl, lag), VISITOR, 0, n) + Remainder(p.client, lag)
              == Capacity(p.client) + Gain(p.client.limit, t + lag)
  {
    hide Drained, LastVisit, Overfills, StateAt, AdmissionsOf;
    var r := p.client;
    var es, t := Story(r, ttl, lag), LastVisit(r, lag);
    var k := Drained(r, lag) + t;
    assert es[k] == StoryEvent(r, ttl, lag, k) == Request(VISITOR, t, t, t + lag);
    StoryConserved(p, ttl, lag, k);
    LastRefillFits(p, ttl, lag);
    ConservedLater(p, es, k, t, t + lag);
    ConservedByVisit(p, es, k);
    Quiet(p, ttl, lag);
    assert Gain(r.limit, 0) == 0;
  }

  /** If the lag overfills the bucket, that visit is admitted, and the rest of the
      story is excessive by itself. */
  lemma OverfullVisit(p: Params, ttl: nat, lag: nat)
    requires 0 < p.client.burst && |Story(p.client, ttl, lag)| <= p.global.burst
    requires Overfills(p.client, lag)
    ensures LastVisit(p.client, lag) == 0
    ensures AdmittedFor(p, Story(p.client, ttl, lag), VISITOR, Drained(p.client, lag))
  {
    var r := p.client;
    var es, d := Story(r, ttl, lag), Drained(r, lag);
    assert es[d] == StoryEvent(r, ttl, lag, d);
    DrainedLeaves(r, lag);
    FirstDrain(p, ttl, lag, d);
    VisitCharges(p, es, d);
  }

  lemma OverfullRefillsTooLittle(r: Rate, ttl: nat, lag: nat)
    requires Overfills(r, lag) && !RefillsInTime(r, ttl, lag)
    ensures Gain(r.limit, Elapsed(lag, ttl + 1)) < NANO
  {
  }

  lemma {:induction false} SecondDrainAdmitted(p: Params, ttl: nat, lag: nat, from: nat, n: nat)
    requires p.lifetime == Limited(ttl) && 0 < p.client.burst && |Story(p.client, ttl, lag)| <= p.global.burst
    requires from < Return(p.client, lag) && n <= p.client.burst
    ensures AdmissionsOf(p, Story(p.client, ttl, lag), VISITOR, from, Return(p.client, lag) + n)
         == AdmissionsOf(p, Story(p.client, ttl, lag), VISITOR, from, Return(p.client, lag) - 1) + n
  {
    hide VerdictAt, StateAt, Drained, LastVisit;
    var es, start := Story(p.client, ttl, lag), Return(p.client, lag);
    if n == 0 {
      assert es[start - 1] == StoryEvent(p.client, ttl, lag, start - 1);
    } else {
      var k := start + (n - 1);
      SecondDrainAdmitted(p, ttl, lag, from, n - 1);
      ForgottenDrainsAgain(p, ttl, lag, n);
      assert es[k] == StoryEvent(p.client, ttl, lag, k);
    }
  }

  lemma StoryEnds(r: Rate, ttl: nat, lag: nat)
    requires 0 < r.burst
    ensures var es, k := Story(r, ttl, lag), Drained(r, lag) + LastVisit(r, lag);
            && End(es[k]) == LastVisit(r, lag) + lag
            && End(es[|es| - 1]) == Forgetting(r, ttl, lag)
            && Forgetting(r, ttl, lag) == LastVisit(r, lag) + lag + Elapsed(lag, ttl + 1)
  {
    var es, k := Story(r, ttl, lag), Drained(r, lag) + LastVisit(r, lag);
    assert es[k] == StoryEvent(r, ttl, lag, k) && es[|es| - 1] == StoryEvent(r, ttl, lag, |es| - 1);
  }

  lemma OneAdmission(p: Params, es: seq<Event>, client: string, i: nat)
    requires i < |es| && AdmittedFor(p, es, client, i)
    ensures AdmissionsOf(p, es, client, i, i + 1) == 1
  {
    assert AdmissionsOf(p, es, client, i, i) == 0;
  }

  /** The transparency condition is needed: when it fails, some client that is
      forgotten too soon gets more than its share of a window. */
  lemma ForgottenClientExceedsItsShare(p: Params, ttl: nat, lag: nat)
    returns (es: seq<Event>, i: nat, window: nat)
    requires p.lifetime == Limited(ttl) && !RefillsInTime(p.client, ttl, lag)
    requires |Story(p.client, ttl, lag)| <= p.global.burst
    ensures Timed(es) && Prompt(es, lag) && EndsWithin(es, i, |es|, window)
    ensures Capacity(p.client) + Gain(p.client.limit, window)
          < NANO * AdmissionsOf(p, es, VISITOR, i, |es|)
  {
    hide StateAt, VerdictAt, AdmissionsOf, AdmittedFor, Drained, LastVisit, StoryEvent;
    var r := p.client;
    es := Story(r, ttl, lag);
    StoryIsTimed(r, ttl, lag);
    StoryEnds(r, ttl, lag);
    var d, t := Drained(r, lag), LastVisit(r, lag);
    if Overfills(r, lag) {
      OverfullVisit(p, ttl, lag);
      OverfullRefillsTooLittle(r, ttl, lag);
      i, window := d, Elapsed(lag, ttl + 1);
      SecondDrainAdmitted(p, ttl, lag, i, r.burst);
      OneAdmission(p, es, VISITOR, i);
    } else {
      i, window := 0, Forgetting(r, ttl, lag);
      QuietConserved(p, ttl, lag);
      SecondDrainAdmitted(p, ttl, lag, 0, r.burst);
      GainAdds(r.limit, t + lag, Elapsed(lag, ttl + 1));
    }
  }

  /** In every run of prompt requests, every client keeps to its share of every
      window. */
  ghost predicate KeepsToShare(p: Params, lag: nat) {
    forall es, client: string, i: nat, j: nat, window: nat ::
      Timed(es) && Prompt(es, lag) && EndsWithin(es, i, j, window) ==>
        NANO * AdmissionsOf(p, es, client, i, j) <= Capacity(p.client) + Gain(p.client.limit, window)
  }

  /** Exactly when clients keep to their share behind every global tier: when
      forgetting them cannot be noticed. */
  lemma KeepsToShareExactly(client: Rate, ttl: nat, lag: nat)
    ensures (forall global: Rate :: KeepsToShare(Params(global, client, Limited(ttl)), lag))
        <==> RefillsInTime(client, ttl, lag)
  {
    if RefillsInTime(client, ttl, lag) {
      forall global: Rate
        ensures KeepsToShare(Params(global, client, Limited(ttl)), lag)
      {
        var p := Params(global, client, Limited(ttl));
        forall es, c: string, i: nat, j: nat, window: nat
          | Timed(es) && Prompt(es, lag) && EndsWithin(es, i, j, window)
          ensures NANO * AdmissionsOf(p, es, c, i, j) <= Capacity(client) + Gain(client.limit, window)
        {
          ClientWindowBound(p, es, c, i, j, window, lag);
        }
      }
    } else {
      var p := Params(Rate(1, |Story(client, ttl, lag)|), client, Limited(ttl));
      var es, i, window := ForgottenClientExceedsItsShare(p, ttl, lag);
      assert !KeepsToShare(p, lag);
    }
  }
}
