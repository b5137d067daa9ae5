/** Forgetting idle clients: when it cannot be noticed, and when it can. */
module EvictionTransparency {
  import opened TokenBucket
  import opened RateLimiting

  /** The same limiter with a map that is never deleted from. */
  function Ideal(p: Params): Params {
    p.(lifetime := Forever)
  }

  /** What a bucket still holds, at the least, when a token is taken `d` after the
      visit was noted: by then it has refilled for `d`, from nothing at worst. */
  function Remainder(r: Rate, d: nat): nat {
    var refilled := AtMost(Capacity(r), Gain(r.limit, d));
    if refilled < NANO then 0 else refilled - NANO
  }

  /** An idle client's bucket refills completely before it is forgotten, even if
      its last token was taken `lag` after its last visit was noted. An entry goes
      once that visit is more than `ttl` ago, so at least `ttl + 1`. */
  predicate RefillsInTime(client: Rate, ttl: nat, lag: nat) {
    Capacity(client) <= Remainder(client, lag) + Gain(client.limit, Elapsed(lag, ttl + 1))
  }

  predicate Transparent(p: Params, lag: nat) {
    p.lifetime.Limited? ==> RefillsInTime(p.client, p.lifetime.ttl, lag)
  }

  // ---------------------------------------------------------------------
  // What a forgotten bucket holds
  // ---------------------------------------------------------------------

  /** No bucket was charged more than `lag` after the visit was noted, and it
      holds what must have refilled in between. */
  ghost predicate Lagging(p: Params, s: State, lag: nat) {
    forall c :: c in s.clients ==>
      var e := s.clients[c];
      && e.bucket.last <= e.lastSeen + lag
      && Remainder(p.client, Elapsed(e.lastSeen, e.bucket.last)) <= e.bucket.tokens
  }

  lemma ChargedLate(r: Rate, b: Bucket, seen: Time, charged: Time)
    requires b.last <= seen <= charged && Admits(r, b, charged)
    ensures Remainder(r, Elapsed(seen, charged)) <= Take(r, b, charged).tokens
  {
    GainGrows(r.limit, charged - seen, charged - b.last);
  }

  lemma AllowLagging(p: Params, s: State, e: Event, lag: nat)
    requires e.Request? && Clocked(e) && e.chargedAt - e.paidAt <= lag
    requires Lagging(p, s, lag) && Settled(s, e.paidAt)
    ensures Lagging(p, AllowState(p, s, e), lag)
  {
    var b := BucketOf(p, s, e.client);
    assert Gain(p.client.limit, 0) == 0;
    if Admits(p.client, b, e.chargedAt) {
      ChargedLate(p.client, b, e.seenAt, e.chargedAt);
    }
  }

  lemma {:induction false} StateLagging(p: Params, es: seq<Event>, i: nat, lag: nat)
    requires Timed(es) && Prompt(es, lag) && i <= |es|
    ensures Lagging(p, StateAt(p, es, i), lag)
  {
    if i != 0 {
      StateLagging(p, es, i - 1, lag);
      if es[i - 1].Request? {
        StateSettled(p, es, i - 1, es[i - 1].paidAt);
        AllowLagging(p, StateAt(p, es, i - 1), es[i - 1], lag);
      }
    }
  }

  /** Charging later within the lag never leaves the bucket emptier. */
  lemma ShorterLag(r: Rate, ttl: nat, lag: nat, d: nat, idle: nat)
    requires RefillsInTime(r, ttl, lag) && d <= lag && d <= idle && ttl < idle
    ensures Capacity(r) <= Remainder(r, d) + Gain(r.limit, idle - d)
  {
    if lag <= ttl + 1 {
      GainAdds(r.limit, d, lag - d);
      GainAdds(r.limit, lag - d, ttl + 1 - lag);
      GainGrows(r.limit, ttl + 1 - d, idle - d);
    }
  }

  lemma ForgottenIsFull(p: Params, s: State, c: string, lag: nat, reading: Time, now: Time)
    requires Transparent(p, lag) && Settled(s, now) && Lagging(p, s, lag)
    requires c in s.clients && Expired(p, s.clients[c], reading) && reading <= now
    ensures Level(p.client, s.clients[c].bucket, now) == Capacity(p.client)
  {
    var seen, last := s.clients[c].lastSeen, s.clients[c].bucket.last;
    ShorterLag(p.client, p.lifetime.ttl, lag, Elapsed(seen, last), now - seen);
    if last < seen {
      GainGrows(p.client.limit, now - seen, now - last);
    }
  }

  // ---------------------------------------------------------------------
  // Simulation of the ideal limiter
  // ---------------------------------------------------------------------

  /** Every client would meet equally full buckets in the two limiters. */
  ghost predicate Alike(p: Params, actual: State, ideal: State, now: Time) {
    && actual.global == ideal.global
    && Settled(actual, now)
    && Settled(ideal, now)
    && forall c: string ::
         Level(p.client, BucketOf(p, actual, c), now) == Level(p.client, BucketOf(p, ideal, c), now)
  }

  lemma BucketInThePast(p: Params, s: State, c: string, now: Time)
    requires Settled(s, now)
    ensures BucketOf(p, s, c).last <= now
  {
  }

  lemma AlikeLater(p: Params, actual: State, ideal: State, now: Time, later: Time)
    requires Alike(p, actual, ideal, now) && now <= later
    ensures Alike(p, actual, ideal, later)
  {
    forall c: string
      ensures Level(p.client, BucketOf(p, actual, c), later) == Level(p.client, BucketOf(p, ideal, c), later)
    {
      BucketInThePast(p, actual, c, now);
      BucketInThePast(p, ideal, c, now);
      LevelLater(p.client, BucketOf(p, actual, c), now, later);
      LevelLater(p.client, BucketOf(p, ideal, c), now, later);
    }
  }

  lemma AlikeAllow(p: Params, actual: State, ideal: State, e: Event)
    requires e.Request? && Clocked(e) && Alike(p, actual, ideal, e.paidAt)
    ensures AllowVerdict(p, actual, e) == AllowVerdict(p, ideal, e)
    ensures Alike(p, AllowState(p, actual, e), AllowState(p, ideal, e), e.chargedAt)
  {
    var now := e.chargedAt;
    AlikeLater(p, actual, ideal, e.paidAt, now);
    NextSettled(p, actual, e, e.paidAt);
    NextSettled(p, ideal, e, e.paidAt);
    var actual', ideal' := AllowState(p, actual, e), AllowState(p, ideal, e);
    assert Level(p.client, BucketOf(p, actual, e.client), now) == Level(p.client, BucketOf(p, ideal, e.client), now);
    forall c: string
      ensures Level(p.client, BucketOf(p, actual', c), now) == Level(p.client, BucketOf(p, ideal', c), now)
    {
      assert Level(p.client, BucketOf(p, actual, c), now) == Level(p.client, BucketOf(p, ideal, c), now);
      LevelAfterTake(p.client, BucketOf(p, actual, c), now);
      LevelAfterTake(p.client, BucketOf(p, ideal, c), now);
    }
  }

  lemma AlikeEvict(p: Params, actual: State, ideal: State, e: Event, lag: nat)
    requires Transparent(p, lag) && Lagging(p, actual, lag)
    requires e.Eviction? && Clocked(e) && Alike(p, actual, ideal, e.from)
    ensures Alike(p, EvictState(p, actual, e), ideal, e.until)
  {
    var now := e.until;
    AlikeLater(p, actual, ideal, e.from, now);
    var actual' := EvictState(p, actual, e);
    forall c: string
      ensures Level(p.client, BucketOf(p, actual', c), now) == Level(p.client, BucketOf(p, ideal, c), now)
    {
      assert Level(p.client, BucketOf(p, actual, c), now) == Level(p.client, BucketOf(p, ideal, c), now);
      if c in actual.clients && Expired(p, actual.clients[c], ReadingFor(e, c)) {
        ForgottenIsFull(p, actual, c, lag, ReadingFor(e, c), now);
      }
    }
  }

  lemma IdealNeverEvicts(p: Params, s: State, e: Event)
    requires e.Eviction?
    ensures EvictState(Ideal(p), s, e) == s
  {
    assert EvictState(Ideal(p), s, e).clients == s.clients;
  }

  lemma {:induction false} RunsAlike(p: Params, es: seq<Event>, i: nat, lag: nat, now: Time)
    requires Transparent(p, lag) && Timed(es) && Prompt(es, lag) && i <= |es|
    requires i != 0 ==> End(es[i - 1]) <= now
    ensures Alike(p, StateAt(p, es, i), StateAt(Ideal(p), es, i), now)
  {
    if i != 0 {
      var e := es[i - 1];
      RunsAlike(p, es, i - 1, lag, Begin(e));
      var actual, ideal := StateAt(p, es, i - 1), StateAt(Ideal(p), es, i - 1);
      if e.Request? {
        AlikeAllow(p, actual, ideal, e);
        assert AllowState(Ideal(p), ideal, e) == AllowState(p, ideal, e);
      } else {
        StateLagging(p, es, i - 1, lag);
        AlikeEvict(p, actual, ideal, e, lag);
        IdealNeverEvicts(p, ideal, e);
      }
      AlikeLater(p, StateAt(p, es, i), StateAt(Ideal(p), es, i), End(e), now);
    }
  }

  /** Every answer of every timed run is the answer of the limiter that never
      forgets anyone. */
  lemma EvictionUnobservable(p: Params, es: seq<Event>, i: nat, lag: nat)
    requires Transparent(p, lag) && Timed(es) && Prompt(es, lag) && i < |es|
    ensures VerdictAt(p, es, i) == VerdictAt(Ideal(p), es, i)
  {
    RunsAlike(p, es, i, lag, Begin(es[i]));
    var actual, ideal := StateAt(p, es, i), StateAt(Ideal(p), es, i);
    if es[i].Request? {
      AlikeAllow(p, actual, ideal, es[i]);
      assert AllowVerdict(Ideal(p), ideal, es[i]) == AllowVerdict(p, ideal, es[i]);
    }
  }

  // ---------------------------------------------------------------------
  // The condition is exact
  // ---------------------------------------------------------------------

  /** No run of prompt requests tells the two limiters apart. */
  ghost predicate Unobservable(p: Params, lag: nat) {
    forall es, i :: Timed(es) && Prompt(es, lag) && 0 <= i < |es| ==>
      VerdictAt(p, es, i) == VerdictAt(Ideal(p), es, i)
  }

  const VISITOR := "client"

  function Visit(now: Time): Event {
    Request(VISITOR, now, now, now)
  }

  /** How the worst case comes about: a client drains its bucket, goes on taking
      every token as it comes in, and then makes one more request whose token is
      taken `lag` after the visit was noted. If the lag refills less than a token,
      that request is timed so that it finds just one. */
  function Drained(r: Rate, lag: nat): nat
    requires 0 < r.burst
  {
    var refill := Gain(r.limit, lag);
    if refill == 0 || (refill < NANO && r.burst == 1) then r.burst - 1 else r.burst
  }

  function LastVisit(r: Rate, lag: nat): Time {
    if 0 < Gain(r.limit, lag) < NANO && 1 < r.burst then Elapsed(lag, NANO) else 0
  }

  /** The first instant at which the client can be forgotten. */
  function Forgetting(r: Rate, ttl: nat, lag: nat): Time {
    LastVisit(r, lag) + (if lag <= ttl then ttl + 1 else lag)
  }

  /** Where the second drain begins. */
  function Return(r: Rate, lag: nat): nat
    requires 0 < r.burst
  {
    Drained(r, lag) + LastVisit(r, lag) + 2
  }

  function StoryEvent(r: Rate, ttl: nat, lag: nat, i: nat): Event
    requires 0 < r.burst
  {
    var d, t, late := Drained(r, lag), LastVisit(r, lag), Forgetting(r, ttl, lag);
    if i < d then Visit(0)
    else if i < d + t then Visit(i - d + 1)
    else if i == d + t then Request(VISITOR, t, t, t + lag)
    else if i == d + t + 1 then Eviction(late, late, map[VISITOR := late])
    else Visit(late)
  }

  /** That story, the eviction, and a second drain. */
  function Story(r: Rate, ttl: nat, lag: nat): (es: seq<Event>)
    requires 0 < r.burst
    ensures |es| == Return(r, lag) + r.burst
    ensures forall i :: 0 <= i < |es| ==> es[i] == StoryEvent(r, ttl, lag, i)
  {
    seq(Return(r, lag) + r.burst, i requires 0 <= i => StoryEvent(r, ttl, lag, i))
  }

  /** A global tier with a token for every event lets every request through. */
  lemma {:induction false} GlobalTierSuffices(p: Params, es: seq<Event>, i: nat)
    requires i <= |es| <= p.global.burst
    ensures NANO * (p.global.burst - i) <= StateAt(p, es, i).global.tokens <= Capacity(p.global)
    ensures i < |es| && es[i].Request? ==> Admits(p.global, StateAt(p, es, i).global, es[i].paidAt)
  {
    if i != 0 {
      GlobalTierSuffices(p, es, i - 1);
    }
  }

  /** So every visit charges the visitor's own bucket. */
  lemma VisitCharges(p: Params, es: seq<Event>, i: nat)
    requires i < |es| <= p.global.burst && es[i].Request? && es[i].client == VISITOR
    ensures BucketOf(p, StateAt(p, es, i + 1), VISITOR)
         == Take(p.client, BucketOf(p, StateAt(p, es, i), VISITOR), es[i].chargedAt)
    ensures VISITOR in StateAt(p, es, i + 1).clients
    ensures StateAt(p, es, i + 1).clients[VISITOR].lastSeen == es[i].seenAt
    ensures VerdictAt(p, es, i) == Admitted <==>
            Admits(p.client, BucketOf(p, StateAt(p, es, i), VISITOR), es[i].chargedAt)
  {
    hide Admits, Take;
    GlobalTierSuffices(p, es, i);
  }

  /** The first drain, at time 0. */
  lemma {:induction false} FirstDrain(p: Params, ttl: nat, lag: nat, i: nat)
    requires 0 < p.client.burst && |Story(p.client, ttl, lag)| <= p.global.burst && i <= Drained(p.client, lag)
    ensures var s := StateAt(p, Story(p.client, ttl, lag), i);
            BucketOf(p, s, VISITOR) == Bucket(NANO * (p.client.burst - i), 0)
  {
    hide Next;
    if i != 0 {
      var es := Story(p.client, ttl, lag);
      FirstDrain(p, ttl, lag, i - 1);
      assert es[i - 1] == Visit(0);
      VisitCharges(p, es, i - 1);
      assert Gain(p.client.limit, 0) == 0;
    }
  }

  /** Taking every token as it comes in leaves the broken part of one. */
  lemma {:induction false} TokenByToken(p: Params, ttl: nat, lag: nat, t: nat)
    requires 1 < p.client.burst && |Story(p.client, ttl, lag)| <= p.global.burst
    requires p.client.limit < NANO && Drained(p.client, lag) == p.client.burst && t <= LastVisit(p.client, lag)
    ensures var b := BucketOf(p, StateAt(p, Story(p.client, ttl, lag), p.client.burst + t), VISITOR);
            b.last <= t && Level(p.client, b, t) == Gain(p.client.limit, t) % NANO
  {
    hide Next, Level, Gain;
    var es, i := Story(p.client, ttl, lag), p.client.burst + t;
    if t == 0 {
      FirstDrain(p, ttl, lag, i);
      DrainedLevel(p.client);
    } else {
      TokenByToken(p, ttl, lag, t - 1);
      var k := i - 1;
      var b := BucketOf(p, StateAt(p, es, k), VISITOR);
      assert es[k] == Visit(t);
      VisitCharges(p, es, k);
      TakeNextPart(p.client, b, t);
    }
  }

  lemma DrainedLevel(r: Rate)
    ensures Level(r, Bucket(0, 0), 0) == 0 == Gain(r.limit, 0)
  {
  }

  lemma TakeNextPart(r: Rate, b: Bucket, t: nat)
    requires 0 < t && 1 < r.burst && r.limit < NANO
    requires b.last <= t - 1 && Level(r, b, t - 1) == Gain(r.limit, t - 1) % NANO
    ensures Take(r, b, t).last <= t && Level(r, Take(r, b, t), t) == Gain(r.limit, t) % NANO
  {
    hide Level;
    LevelLater(r, b, t - 1, t);
    LevelAfterTake(r, b, t);
    GainAdds(r.limit, t - 1, 1);
    NextPart(Gain(r.limit, t - 1), r.limit);
  }

  lemma NextPart(x: nat, more: nat)
    requires more < NANO
    ensures var y := x % NANO + more;
            (x + more) % NANO == if NANO <= y then y - NANO else y
  {
  }

  /** When the client has gone quiet its bucket holds the least it can. */
  lemma Quiet(p: Params, ttl: nat, lag: nat)
    requires 0 < p.client.burst && |Story(p.client, ttl, lag)| <= p.global.burst
    ensures var t := LastVisit(p.client, lag);
            var s := StateAt(p, Story(p.client, ttl, lag), Drained(p.client, lag) + t + 1);
            && VISITOR in s.clients
            && s.clients[VISITOR] == Entry(Bucket(Remainder(p.client, lag), t + lag), t)
  {
    hide Next, Level, Take, Admits, Remainder, Drained, LastVisit;
    var r := p.client;
    var es, d, t := Story(r, ttl, lag), Drained(r, lag), LastVisit(r, lag);
    var k := d + t;
    assert es[k] == Request(VISITOR, t, t, t + lag);
    VisitCharges(p, es, k);
    var b := BucketOf(p, StateAt(p, es, k), VISITOR);
    if t == 0 {
      DrainedLeaves(r, lag);
      FirstDrain(p, ttl, lag, d);
      LastChargeAtOnce(r, lag, b);
    } else {
      TimedLastVisit(r, lag);
      ShortLag(r.limit, lag);
      TokenByToken(p, ttl, lag, t);
      LastChargeTimed(r, lag, t, b);
    }
  }

  lemma DrainedLeaves(r: Rate, lag: nat)
    requires 0 < r.burst
    ensures Drained(r, lag) <= r.burst
  {
  }

  lemma TimedLastVisit(r: Rate, lag: nat)
    requires 0 < LastVisit(r, lag)
    ensures 0 < Gain(r.limit, lag) < NANO && 1 < r.burst
    ensures LastVisit(r, lag) == NANO - lag && Drained(r, lag) == r.burst
  {
  }

  lemma LastChargeAtOnce(r: Rate, lag: nat, b: Bucket)
    requires 0 < r.burst && LastVisit(r, lag) == 0 && b == Bucket(NANO * (r.burst - Drained(r, lag)), 0)
    ensures Take(r, b, lag) == Bucket(Remainder(r, lag), lag)
  {
    if 0 < Gain(r.limit, lag) < NANO {
      ShortLag(r.limit, lag);
    }
  }

  lemma LastChargeTimed(r: Rate, lag: nat, t: Time, b: Bucket)
    requires 0 < Gain(r.limit, lag) < NANO && 1 < r.burst
    requires b.last <= t && Level(r, b, t) == NANO - Gain(r.limit, lag)
    ensures Take(r, b, t + lag) == Bucket(Remainder(r, lag), t + lag)
  {
    hide Level, Gain;
    LevelLater(r, b, t, t + lag);
  }

  /** A lag that refills part of a token is less than a second, and ends a second
      of refilling with exactly that token. */
  lemma ShortLag(limit: nat, lag: nat)
    requires 0 < Gain(limit, lag) < NANO
    ensures lag < NANO && limit < NANO
    ensures Gain(limit, NANO - lag) % NANO == NANO - Gain(limit, lag)
  {
    GainAdds(limit, NANO - lag, lag);
    NextPart(Gain(limit, NANO - lag), Gain(limit, lag));
  }

  /** What the second drain finds: a full bucket if the client was forgotten, and
      otherwise what has refilled since. */
  lemma AfterForgetting(p: Params, ttl: nat, lag: nat)
    requires 0 < p.client.burst && |Story(p.client, ttl, lag)| <= p.global.burst
    requires p.lifetime == Limited(ttl) || p.lifetime == Forever
    ensures var i := Return(p.client, lag);
            var b := BucketOf(p, StateAt(p, Story(p.client, ttl, lag), i), VISITOR);
            Level(p.client, b, Forgetting(p.client, ttl, lag)) ==
              if p.lifetime.Limited? then Capacity(p.client)
              else AtMost(Capacity(p.client), Remainder(p.client, lag) + Gain(p.client.limit, Elapsed(lag, ttl + 1)))
  {
    var r := p.client;
    var es, late := Story(r, ttl, lag), Forgetting(r, ttl, lag);
    var k := Drained(r, lag) + LastVisit(r, lag) + 1;
    Quiet(p, ttl, lag);
    assert es[k] == Eviction(late, late, map[VISITOR := late]);
    assert StateAt(p, es, k + 1) == EvictState(p, StateAt(p, es, k), es[k]);
  }

  /** The second drain takes one token a request for as long as it is admitted. */
  lemma {:induction false} SecondDrain(p: Params, ttl: nat, lag: nat, n: nat)
    requires 0 < p.client.burst && |Story(p.client, ttl, lag)| <= p.global.burst && n <= p.client.burst
    requires forall k :: Return(p.client, lag) <= k < Return(p.client, lag) + n ==>
               VerdictAt(p, Story(p.client, ttl, lag), k) == Admitted
    ensures var es, late := Story(p.client, ttl, lag), Forgetting(p.client, ttl, lag);
            var i := Return(p.client, lag);
            Level(p.client, BucketOf(p, StateAt(p, es, i + n), VISITOR), late)
              == Level(p.client, BucketOf(p, StateAt(p, es, i), VISITOR), late) - NANO * n
  {
    hide Next, Level, Take, VerdictAt;
    var es, late := Story(p.client, ttl, lag), Forgetting(p.client, ttl, lag);
    var i := Return(p.client, lag);
    if n != 0 {
      SecondDrain(p, ttl, lag, n - 1);
      var k := i + (n - 1);
      assert es[k] == Visit(late);
      VisitCharges(p, es, k);
      LevelAfterTake(p.client, BucketOf(p, StateAt(p, es, k), VISITOR), late);
    }
  }

  /** A limiter that forgot the client admits all of it. */
  lemma {:induction false} ForgottenDrainsAgain(p: Params, ttl: nat, lag: nat, n: nat)
    requires 0 < p.client.burst && |Story(p.client, ttl, lag)| <= p.global.burst && n <= p.client.burst
    requires p.lifetime == Limited(ttl)
    ensures forall k :: Return(p.client, lag) <= k < Return(p.client, lag) + n ==>
              VerdictAt(p, Story(p.client, ttl, lag), k) == Admitted
  {
    hide Next, Level, Take, VerdictAt;
    var es, late := Story(p.client, ttl, lag), Forgetting(p.client, ttl, lag);
    if n != 0 {
      ForgottenDrainsAgain(p, ttl, lag, n - 1);
      SecondDrain(p, ttl, lag, n - 1);
      AfterForgetting(p, ttl, lag);
      var k := Return(p.client, lag) + (n - 1);
      assert es[k] == Visit(late);
      VisitCharges(p, es, k);
    }
  }

  /** A limiter that remembers refuses part of it, if too little has refilled. */
  lemma RememberedRunsDry(p: Params, ttl: nat, lag: nat) returns (i: nat)
    requires !RefillsInTime(p.client, ttl, lag) && p.lifetime == Forever
    requires |Story(p.client, ttl, lag)| <= p.global.burst
    ensures Return(p.client, lag) <= i < |Story(p.client, ttl, lag)|
    ensures VerdictAt(p, Story(p.client, ttl, lag), i) != Admitted
  {
    var es, start := Story(p.client, ttl, lag), Return(p.client, lag);
    if i' :| start <= i' < |es| && VerdictAt(p, es, i') != Admitted {
      i := i';
    } else {
      AfterForgetting(p, ttl, lag);
      SecondDrain(p, ttl, lag, p.client.burst);
      assert false;
    }
  }

  lemma StoryIsTimed(r: Rate, ttl: nat, lag: nat)
    requires 0 < r.burst
    ensures Timed(Story(r, ttl, lag)) && Prompt(Story(r, ttl, lag), lag)
  {
    var es := Story(r, ttl, lag);
    forall i | 0 <= i < |es|
      ensures Clocked(es[i]) && (es[i].Request? ==> es[i].chargedAt - es[i].paidAt <= lag)
    {
      assert es[i] == StoryEvent(r, ttl, lag, i);
    }
  }

  /** When the bucket does not refill in time, forgetting shows: some request of
      the second drain is answered differently. */
  lemma EvictionObservable(p: Params, ttl: nat, lag: nat) returns (es: seq<Event>, i: nat)
    requires p.lifetime == Limited(ttl) && !RefillsInTime(p.client, ttl, lag)
    requires |Story(p.client, ttl, lag)| <= p.global.burst
    ensures Timed(es) && Prompt(es, lag) && i < |es|
    ensures VerdictAt(p, es, i) != VerdictAt(Ideal(p), es, i)
  {
    es := Story(p.client, ttl, lag);
    StoryIsTimed(p.client, ttl, lag);
    i := RememberedRunsDry(Ideal(p), ttl, lag);
    ForgottenDrainsAgain(p, ttl, lag, p.client.burst);
  }

  /** Exactly when forgetting is unnoticeable behind every global tier, for
      requests that take at most `lag` under the lock. */
  lemma UnobservableExactly(client: Rate, ttl: nat, lag: nat)
    ensures (forall global: Rate :: Unobservable(Params(global, client, Limited(ttl)), lag))
        <==> RefillsInTime(client, ttl, lag)
  {
    if RefillsInTime(client, ttl, lag) {
      forall global: Rate
        ensures Unobservable(Params(global, client, Limited(ttl)), lag)
      {
        var p := Params(global, client, Limited(ttl));
        forall es, i | Timed(es) && Prompt(es, lag) && 0 <= i < |es|
          ensures VerdictAt(p, es, i) == VerdictAt(Ideal(p), es, i)
        {
          EvictionUnobservable(p, es, i, lag);
        }
      }
    } else {
      var p := Params(Rate(1, |Story(client, ttl, lag)|), client, Limited(ttl));
      var es, i := EvictionObservable(p, ttl, lag);
      assert !Unobservable(p, lag);
    }
  }

  // ---------------------------------------------------------------------
  // The condition in numbers
  // ---------------------------------------------------------------------

  /** The bucket refills in time exactly when the lifetime refills the whole burst,
      and one token more or as much of it as the lag refills, and at least one
      token after the lag. */
  lemma RefillsInTimeExactly(client: Rate, ttl: nat, lag: nat)
    requires 0 < client.burst
    ensures RefillsInTime(client, ttl, lag) <==>
              && Capacity(client) + AtMost(NANO, Gain(client.limit, lag)) <= Gain(client.limit, ttl + 1)
              && NANO <= Gain(client.limit, Elapsed(lag, ttl + 1))
  {
    var limit := client.limit;
    assert Gain(limit, 0) == 0;
    if lag <= ttl + 1 {
      GainAdds(limit, lag, ttl + 1 - lag);
    }
    hide Gain;
  }

  lemma HalfHour(limit: nat)
    ensures Gain(limit, CLIENT_TTL + 1) == NANO * (1800 * limit) + limit
  {
  }

  /** The largest safe burst for the half hour for which clients are kept. */
  function SafeBurst(limit: nat, lag: nat): int {
    1800 * limit + (limit - AtMost(NANO, Gain(limit, lag))) / NANO
  }

  /** A configured burst is safe exactly up to that, if a token comes in between the
      longest lag and the end of the lifetime; a burst that is left out always is. */
  lemma SafeBurstExactly(limit: nat, burst: int, lag: nat)
    requires 0 < limit
    ensures RefillsInTime(EffectiveRate(limit, burst), CLIENT_TTL, lag) <==>
              burst <= SafeBurst(limit, lag) && NANO <= Gain(limit, Elapsed(lag, CLIENT_TTL + 1))
  {
    hide Gain, RefillsInTime;
    var r := EffectiveRate(limit, burst);
    RefillsInTimeExactly(r, CLIENT_TTL, lag);
    HalfHour(limit);
    AtMostInTokens(r.burst, 1800 * limit, limit - AtMost(NANO, Gain(limit, lag)));
    AtMostInTokens(2 * limit, 1800 * limit, limit - AtMost(NANO, Gain(limit, lag)));
  }

  lemma AtMostInTokens(b: int, k: int, rest: int)
    ensures NANO * b <= NANO * k + rest <==> b <= k + rest / NANO
  {
  }

  /** For rates below a billion a second that is 1800 times the rate if requests
      take no time under the lock, and one less if they do. */
  lemma SafeBurstInSeconds(limit: nat, lag: nat)
    requires 0 < limit < NANO
    ensures SafeBurst(limit, lag) == 1800 * limit - (if lag <= 1 then 0 else 1)
    ensures lag <= 1799 * NANO ==> NANO <= Gain(limit, Elapsed(lag, CLIENT_TTL + 1))
  {
    assert Gain(limit, 0) == 0 && Gain(limit, 1) == limit;
    if 1 < lag {
      GainAdds(limit, 1, 1);
      GainGrows(limit, 2, lag);
    }
    if lag <= 1799 * NANO {
      GainGrows(limit, NANO, CLIENT_TTL + 1 - lag);
    }
  }

  // ---------------------------------------------------------------------
  // Behind a narrow global tier
  // ---------------------------------------------------------------------

  /** The client tier gives at least what the global tier lets through to it. */
  predicate OutlastsGlobal(p: Params, lag: nat) {
    && p.global.limit <= p.client.limit
    && Capacity(p.global) + AtMost(NANO, Gain(p.global.limit, lag)) <= Capacity(p.client)
  }

  /** Every client's bucket holds at least as much as the global one. */
  ghost predicate ClientsAhead(p: Params, s: State, now: Time) {
    && Settled(s, now)
    && forall c: string ::
         Level(p.global, s.global, now) <= Level(p.client, BucketOf(p, s, c), now)
  }

  lemma GainOfMore(limit: nat, more: nat, d: nat)
    requires limit <= more
    ensures Gain(limit, d) <= Gain(more, d)
  {
  }

  lemma AheadLater(p: Params, s: State, now: Time, later: Time, lag: nat)
    requires OutlastsGlobal(p, lag) && ClientsAhead(p, s, now) && now <= later
    ensures ClientsAhead(p, s, later)
  {
    forall c: string
      ensures Level(p.global, s.global, later) <= Level(p.client, BucketOf(p, s, c), later)
    {
      BucketInThePast(p, s, c, now);
      LevelLater(p.global, s.global, now, later);
      LevelLater(p.client, BucketOf(p, s, c), now, later);
      GainOfMore(p.global.limit, p.client.limit, later - now);
    }
  }

  /** After a request the global bucket holds at least one token less than the
      client's held when it was charged. */
  lemma GlobalAfterRequest(p: Params, s: State, e: Event, lag: nat)
    requires OutlastsGlobal(p, lag) && e.Request? && Clocked(e) && e.chargedAt - e.paidAt <= lag
    requires ClientsAhead(p, s, e.paidAt) && Admits(p.global, s.global, e.paidAt)
    ensures var after := Take(p.global, s.global, e.paidAt);
            var held := Level(p.client, BucketOf(p, s, e.client), e.chargedAt);
            && NANO + Level(p.global, after, e.chargedAt) <= held
            && Level(p.global, after, e.chargedAt) <= Level(p.global, s.global, e.chargedAt)
  {
    hide Level, Gain, Take;
    var d, after := e.chargedAt - e.paidAt, Take(p.global, s.global, e.paidAt);
    var b := BucketOf(p, s, e.client);
    BucketInThePast(p, s, e.client, e.paidAt);
    TakenAt(p.global, s.global, e.paidAt);
    LevelAfterTake(p.global, s.global, e.paidAt);
    LevelLater(p.global, s.global, e.paidAt, e.chargedAt);
    LevelLater(p.global, after, e.paidAt, e.chargedAt);
    LevelLater(p.client, b, e.paidAt, e.chargedAt);
    GainOfMore(p.global.limit, p.client.limit, d);
    GainGrows(p.global.limit, d, lag);
    LevelFits(p.global, s.global, e.paidAt);
    assert Level(p.global, s.global, e.paidAt) <= Level(p.client, b, e.paidAt);
  }

  lemma TakenAt(r: Rate, b: Bucket, now: Time)
    requires Admits(r, b, now)
    ensures Take(r, b, now).last == now
  {
  }

  lemma LevelFits(r: Rate, b: Bucket, now: Time)
    ensures Level(r, b, now) <= Capacity(r)
  {
  }

  lemma AheadAllow(p: Params, s: State, e: Event, lag: nat)
    requires OutlastsGlobal(p, lag) && e.Request? && Clocked(e) && e.chargedAt - e.paidAt <= lag
    requires ClientsAhead(p, s, e.paidAt)
    ensures AllowVerdict(p, s, e) != RefusedForClient
    ensures ClientsAhead(p, AllowState(p, s, e), e.chargedAt)
  {
    hide Level, Gain, Take;
    var now, s' := e.chargedAt, AllowState(p, s, e);
    AheadLater(p, s, e.paidAt, now, lag);
    NextSettled(p, s, e, e.paidAt);
    if Admits(p.global, s.global, e.paidAt) {
      GlobalAfterRequest(p, s, e, lag);
      forall c: string
        ensures Level(p.global, s'.global, now) <= Level(p.client, BucketOf(p, s', c), now)
      {
        assert Level(p.global, s.global, now) <= Level(p.client, BucketOf(p, s, c), now);
        LevelAfterTake(p.client, BucketOf(p, s, c), now);
      }
    }
  }

  lemma AheadEvict(p: Params, s: State, e: Event, lag: nat)
    requires OutlastsGlobal(p, lag) && e.Eviction? && Clocked(e) && ClientsAhead(p, s, e.from)
    ensures ClientsAhead(p, EvictState(p, s, e), e.until)
  {
    var now, s' := e.until, EvictState(p, s, e);
    AheadLater(p, s, e.from, now, lag);
    forall c: string
      ensures Level(p.global, s'.global, now) <= Level(p.client, BucketOf(p, s', c), now)
    {
      assert Level(p.global, s.global, now) <= Level(p.client, BucketOf(p, s, c), now);
      LevelFits(p.global, s.global, now);
    }
  }

  lemma {:induction false} RunsAhead(p: Params, es: seq<Event>, i: nat, lag: nat, now: Time)
    requires OutlastsGlobal(p, lag) && Timed(es) && Prompt(es, lag) && i <= |es|
    requires i != 0 ==> End(es[i - 1]) <= now
    ensures ClientsAhead(p, StateAt(p, es, i), now)
  {
    hide Level, AllowState, EvictState;
    if i == 0 {
      FullAtStart(p, lag, now);
    } else {
      var e := es[i - 1];
      RunsAhead(p, es, i - 1, lag, Begin(e));
      if e.Request? {
        AheadAllow(p, StateAt(p, es, i - 1), e, lag);
      } else {
        AheadEvict(p, StateAt(p, es, i - 1), e, lag);
      }
      AheadLater(p, StateAt(p, es, i), End(e), now, lag);
    }
  }

  lemma FullAtStart(p: Params, lag: nat, now: Time)
    requires OutlastsGlobal(p, lag)
    ensures ClientsAhead(p, Initial(p), now)
  {
  }

  /** Behind a global tier that lets no more through than a client may have, the
      client tier never refuses anyone. */
  lemma ClientTierNeverRefuses(p: Params, es: seq<Event>, i: nat, lag: nat)
    requires OutlastsGlobal(p, lag) && Timed(es) && Prompt(es, lag) && i < |es|
    ensures VerdictAt(p, es, i) != RefusedForClient
  {
    RunsAhead(p, es, i, lag, Begin(es[i]));
    if es[i].Request? {
      AheadAllow(p, StateAt(p, es, i), es[i], lag);
    }
  }

  lemma {:induction false} SameGlobal(p: Params, es: seq<Event>, i: nat)
    requires i <= |es|
    ensures StateAt(p, es, i).global == StateAt(Ideal(p), es, i).global
  {
    if i != 0 {
      SameGlobal(p, es, i - 1);
    }
  }

  /** So there forgetting is unnoticeable, whatever the lifetime. */
  lemma UnobservableBehindNarrowGlobal(p: Params, lag: nat)
    requires OutlastsGlobal(p, lag)
    ensures Unobservable(p, lag)
  {
    hide Level, OutlastsGlobal;
    assert OutlastsGlobal(Ideal(p), lag) by {
      NarrowIdeal(p, lag);
    }
    forall es, i | Timed(es) && Prompt(es, lag) && 0 <= i < |es|
      ensures VerdictAt(p, es, i) == VerdictAt(Ideal(p), es, i)
    {
      SameGlobal(p, es, i);
      ClientTierNeverRefuses(p, es, i, lag);
      ClientTierNeverRefuses(Ideal(p), es, i, lag);
    }
  }

  lemma NarrowIdeal(p: Params, lag: nat)
    requires OutlastsGlobal(p, lag)
    ensures OutlastsGlobal(Ideal(p), lag)
  {
  }
}
