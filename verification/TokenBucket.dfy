/** The token bucket behind both tiers of the rate limiter, in exact integer
    arithmetic: time is counted in nanoseconds and tokens in billionths of a
    token, so a rate of `limit` tokens a second refills `limit` units each
    nanosecond. */
module TokenBucket {

  /** Nanoseconds in a second, and units in a whole token. */
  const NANO: nat := 1_000_000_000

  /** Nanoseconds since the zero time. */
  type Time = nat

  datatype Rate = Rate(limit: nat, burst: nat)

  /** The stored state: the units left at the last successful take. */
  datatype Bucket = Bucket(tokens: nat, last: Time)

  function Capacity(r: Rate): nat {
    r.burst * NANO
  }

  /** A new bucket is full; its `last` is the zero time. */
  function Fresh(r: Rate): Bucket {
    Bucket(Capacity(r), 0)
  }

  /** Time never runs backwards for a bucket. */
  function Elapsed(last: Time, now: Time): nat {
    if now < last then 0 else now - last
  }

  function Gain(limit: nat, d: nat): nat {
    limit * d
  }

  function AtMost(cap: nat, x: nat): nat {
    if x <= cap then x else cap
  }

  /** Units present at `now`: refilled since `last`, never above capacity. */
  function Level(r: Rate, b: Bucket, now: Time): nat {
    AtMost(Capacity(r), b.tokens + Gain(r.limit, Elapsed(b.last, now)))
  }

  predicate Admits(r: Rate, b: Bucket, now: Time) {
    NANO <= Level(r, b, now)
  }

  /** One token is taken if a whole one is there; a refusal keeps the state. */
  function Take(r: Rate, b: Bucket, now: Time): Bucket {
    if Admits(r, b, now) then Bucket(Level(r, b, now) - NANO, now) else b
  }

  /** The limiter object: its fields are updated in place. */
  class Limiter {
    const rate: Rate
    var tokens: nat
    var last: Time

    constructor (rate: Rate)
      ensures this.rate == rate && State() == Fresh(rate)
    {
      this.rate := rate;
      tokens := rate.burst * NANO;
      last := 0;
    }

    function State(): Bucket
      reads this
    {
      Bucket(tokens, last)
    }

    method Allow(now: Time) returns (ok: bool)
      modifies this
      ensures ok == Admits(rate, old(State()), now)
      ensures State() == Take(rate, old(State()), now)
    {
      var elapsed := if now < last then 0 else now - last;
      var available := tokens + rate.limit * elapsed;
      if rate.burst * NANO < available {
        available := rate.burst * NANO;
      }
      ok := NANO <= available;
      if ok {
        tokens, last := available - NANO, now;
      }
    }
  }

  // ---------------------------------------------------------------------
  // Refilling
  // ---------------------------------------------------------------------

  lemma GainAdds(limit: nat, d: nat, e: nat)
    ensures Gain(limit, d + e) == Gain(limit, d) + Gain(limit, e)
  {
  }

  lemma GainGrows(limit: nat, d: nat, e: nat)
    requires d <= e
    ensures Gain(limit, d) <= Gain(limit, e)
  {
    GainAdds(limit, d, e - d);
  }

  /** Refilling in two stages is refilling once: the level at one instant
      decides every later level. */
  lemma LevelLater(r: Rate, b: Bucket, now: Time, later: Time)
    requires b.last <= now <= later
    ensures Level(r, b, later) == AtMost(Capacity(r), Level(r, b, now) + Gain(r.limit, later - now))
  {
    GainAdds(r.limit, now - b.last, later - now);
  }

  lemma LevelAfterTake(r: Rate, b: Bucket, now: Time)
    ensures Level(r, Take(r, b, now), now) ==
            if Admits(r, b, now) then Level(r, b, now) - NANO else Level(r, b, now)
  {
    assert Gain(r.limit, 0) == 0;
  }

  // ---------------------------------------------------------------------
  // Runs of one bucket over a sequence of arrival times
  // ---------------------------------------------------------------------

  ghost predicate Ordered(ts: seq<Time>) {
    forall i, j :: 0 <= i <= j < |ts| ==> ts[i] <= ts[j]
  }

  /** The bucket just before arrival `i`. */
  function After(r: Rate, b: Bucket, ts: seq<Time>, i: nat): Bucket
    requires i <= |ts|
  {
    if i == 0 then b else Take(r, After(r, b, ts, i - 1), ts[i - 1])
  }

  predicate Granted(r: Rate, b: Bucket, ts: seq<Time>, i: nat)
    requires i < |ts|
  {
    Admits(r, After(r, b, ts, i), ts[i])
  }

  /** Arrivals in the half-open index range that were granted a token. */
  function Grants(r: Rate, b: Bucket, ts: seq<Time>, i: nat, j: nat): nat
    requires j <= |ts|
  {
    if j <= i then 0
    else Grants(r, b, ts, i, j - 1) + (if Granted(r, b, ts, j - 1) then 1 else 0)
  }

  lemma {:induction false} LastInThePast(r: Rate, b: Bucket, ts: seq<Time>, i: nat)
    requires Ordered(ts) && i < |ts| && b.last <= ts[0]
    ensures After(r, b, ts, i).last <= ts[i] && After(r, b, ts, i + 1).last <= ts[i]
  {
    if i != 0 {
      LastInThePast(r, b, ts, i - 1);
    }
  }

  /** Conservation with overflow: tokens handed out plus the level left never
      exceed the level at the start plus what time has refilled. */
  lemma {:induction false} SpendingIsFunded(r: Rate, b: Bucket, ts: seq<Time>, i: nat, j: nat)
    requires Ordered(ts) && i < j <= |ts| && b.last <= ts[0]
    ensures NANO * Grants(r, b, ts, i, j) + Level(r, After(r, b, ts, j), ts[j - 1])
         <= Level(r, After(r, b, ts, i), ts[i]) + Gain(r.limit, ts[j - 1] - ts[i])
  {
    hide Level, Gain, Take;
    var k := j - 1;
    LevelAfterTake(r, After(r, b, ts, k), ts[k]);
    if i == k {
      assert Grants(r, b, ts, i, k) == 0;
    } else {
      SpendingIsFunded(r, b, ts, i, k);
      var mid := After(r, b, ts, k);
      LastInThePast(r, b, ts, k - 1);
      LevelLater(r, mid, ts[k - 1], ts[k]);
      GainAdds(r.limit, ts[k - 1] - ts[i], ts[k] - ts[k - 1]);
    }
  }

  /** Every window of length `window` grants at most burst + limit * window. */
  lemma WindowBound(r: Rate, b: Bucket, ts: seq<Time>, i: nat, j: nat, window: nat)
    requires Ordered(ts) && i <= j <= |ts|
    requires i < j ==> b.last <= ts[0] && ts[j - 1] - ts[i] <= window
    ensures NANO * Grants(r, b, ts, i, j) <= Capacity(r) + Gain(r.limit, window)
  {
    if i < j {
      SpendingIsFunded(r, b, ts, i, j);
      GainGrows(r.limit, ts[j - 1] - ts[i], window);
    }
  }

  // ---------------------------------------------------------------------
  // Greedy optimality
  // ---------------------------------------------------------------------

  /** The bucket of a scheduler that serves exactly the chosen arrivals. */
  function Serving(r: Rate, b: Bucket, ts: seq<Time>, chosen: seq<bool>, i: nat): Bucket
    requires i <= |ts| == |chosen|
  {
    if i == 0 then b
    else
      var prev := Serving(r, b, ts, chosen, i - 1);
      if chosen[i - 1] then Take(r, prev, ts[i - 1]) else prev
  }

  /** Every chosen arrival finds a whole token in that scheduler's bucket. */
  ghost predicate Feasible(r: Rate, b: Bucket, ts: seq<Time>, chosen: seq<bool>)
    requires |ts| == |chosen|
  {
    forall i :: 0 <= i < |ts| && chosen[i] ==> Admits(r, Serving(r, b, ts, chosen, i), ts[i])
  }

  function Served(chosen: seq<bool>, i: nat): nat
    requires i <= |chosen|
  {
    if i == 0 then 0 else Served(chosen, i - 1) + (if chosen[i - 1] then 1 else 0)
  }

  lemma {:induction false} ServingInThePast(r: Rate, b: Bucket, ts: seq<Time>, chosen: seq<bool>, i: nat)
    requires |ts| == |chosen| && Ordered(ts) && i < |ts| && b.last <= ts[0]
    ensures Serving(r, b, ts, chosen, i).last <= ts[i] && Serving(r, b, ts, chosen, i + 1).last <= ts[i]
  {
    if i != 0 {
      ServingInThePast(r, b, ts, chosen, i - 1);
    }
  }

  /** The greedy bucket has served at least as many, and what it has served
      and still holds outweighs what the other has. */
  lemma {:induction false} GreedyLeads(r: Rate, b: Bucket, ts: seq<Time>, chosen: seq<bool>, i: nat)
    requires |ts| == |chosen| && Ordered(ts) && 0 < i <= |ts| && b.last <= ts[0]
    requires Feasible(r, b, ts, chosen)
    ensures Served(chosen, i) <= Grants(r, b, ts, 0, i)
    ensures NANO * Served(chosen, i) + Level(r, Serving(r, b, ts, chosen, i), ts[i - 1])
         <= NANO * Grants(r, b, ts, 0, i) + Level(r, After(r, b, ts, i), ts[i - 1])
  {
    hide Level, Gain, Take;
    var k := i - 1;
    var mine, other := After(r, b, ts, k), Serving(r, b, ts, chosen, k);
    LevelAfterTake(r, mine, ts[k]);
    LevelAfterTake(r, other, ts[k]);
    if k == 0 {
      assert Grants(r, b, ts, 0, 0) == 0;
    } else {
      GreedyLeads(r, b, ts, chosen, k);
      LastInThePast(r, b, ts, k - 1);
      ServingInThePast(r, b, ts, chosen, k - 1);
      LevelLater(r, mine, ts[k - 1], ts[k]);
      LevelLater(r, other, ts[k - 1], ts[k]);
    }
  }

  /** At every prefix of every arrival sequence the greedy bucket admits at
      least as many as any selection the same rate and burst can pay for. */
  lemma GreedyIsOptimal(r: Rate, b: Bucket, ts: seq<Time>, chosen: seq<bool>, i: nat)
    requires |ts| == |chosen| && Ordered(ts) && i <= |ts|
    requires ts == [] || b.last <= ts[0]
    requires Feasible(r, b, ts, chosen)
    ensures Served(chosen, i) <= Grants(r, b, ts, 0, i)
  {
    if i != 0 {
      GreedyLeads(r, b, ts, chosen, i);
    }
  }

  /** The greedy bucket's own choices. */
  function GreedyChoice(r: Rate, b: Bucket, ts: seq<Time>): (chosen: seq<bool>)
    ensures |chosen| == |ts|
  {
    seq(|ts|, i requires 0 <= i < |ts| => Granted(r, b, ts, i))
  }

  lemma {:induction false} GreedyServesItself(r: Rate, b: Bucket, ts: seq<Time>, i: nat)
    requires i <= |ts|
    ensures Serving(r, b, ts, GreedyChoice(r, b, ts), i) == After(r, b, ts, i)
    ensures Served(GreedyChoice(r, b, ts), i) == Grants(r, b, ts, 0, i)
  {
    if i != 0 {
      GreedyServesItself(r, b, ts, i - 1);
    }
  }

  /** The bound is met: the greedy choices are themselves a feasible selection. */
  lemma GreedyIsFeasible(r: Rate, b: Bucket, ts: seq<Time>)
    ensures Feasible(r, b, ts, GreedyChoice(r, b, ts))
    ensures Served(GreedyChoice(r, b, ts), |ts|) == Grants(r, b, ts, 0, |ts|)
  {
    forall i | 0 <= i <= |ts|
      ensures Serving(r, b, ts, GreedyChoice(r, b, ts), i) == After(r, b, ts, i)
    {
      GreedyServesItself(r, b, ts, i);
    }
    GreedyServesItself(r, b, ts, |ts|);
  }
}
