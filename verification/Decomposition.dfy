/** The limiter taken apart: its global tier is one bucket fed with the request
    times, and a client's tier, if clients are never forgotten, is one bucket
    fed with the times at which that client passed the global tier. */
module Decomposition {
  import opened TokenBucket
  import opened RateLimiting

  /** Times of the first `i` events that are requests. */
  function RequestTimes(es: seq<Event>, i: nat): seq<Time>
    requires i <= |es|
  {
    if i == 0 then []
    else RequestTimes(es, i - 1) + (if es[i - 1].Request? then [es[i - 1].paidAt] else [])
  }

  /** Times, among the first `i` events, at which `client` passed the global tier. */
  function PassTimes(p: Params, es: seq<Event>, client: string, i: nat): seq<Time>
    requires i <= |es|
  {
    if i == 0 then []
    else PassTimes(p, es, client, i - 1) + (if PassesFor(p, es, client, i - 1) then [es[i - 1].chargedAt] else [])
  }

  // --- facts about a single bucket's run -------------------------------

  lemma {:induction false} AfterPrefix(r: Rate, b: Bucket, ts: seq<Time>, us: seq<Time>, i: nat)
    requires i <= |ts| && ts <= us
    ensures After(r, b, ts, i) == After(r, b, us, i)
  {
    if i != 0 {
      AfterPrefix(r, b, ts, us, i - 1);
    }
  }

  lemma {:induction false} GrantsPrefix(r: Rate, b: Bucket, ts: seq<Time>, us: seq<Time>, i: nat, j: nat)
    requires j <= |ts| && ts <= us
    ensures Grants(r, b, ts, i, j) == Grants(r, b, us, i, j)
  {
    if i < j {
      GrantsPrefix(r, b, ts, us, i, j - 1);
      AfterPrefix(r, b, ts, us, j - 1);
    }
  }

  // --- the global tier ---------------------------------------------------

  lemma {:induction false} RequestTimesOrdered(es: seq<Event>, i: nat)
    requires Timed(es) && i <= |es|
    ensures Ordered(RequestTimes(es, i))
    ensures forall k :: 0 <= k < |RequestTimes(es, i)| ==> RequestTimes(es, i)[k] <= Begin(es[i - 1])
  {
    if i != 0 {
      RequestTimesOrdered(es, i - 1);
    }
  }

  lemma {:induction false} RequestTimesPrefix(es: seq<Event>, i: nat, j: nat)
    requires i <= j <= |es|
    ensures RequestTimes(es, i) <= RequestTimes(es, j)
    ensures forall k :: |RequestTimes(es, i)| <= k < |RequestTimes(es, j)| ==>
              exists m :: i <= m < j && Begin(es[m]) == RequestTimes(es, j)[k]
    decreases j
  {
    if i < j {
      RequestTimesPrefix(es, i, j - 1);
      var ts, us := RequestTimes(es, j - 1), RequestTimes(es, j);
      forall k | |RequestTimes(es, i)| <= k < |us|
        ensures exists m :: i <= m < j && Begin(es[m]) == us[k]
      {
        if k < |ts| {
          var m :| i <= m < j - 1 && Begin(es[m]) == ts[k];
          assert Begin(es[m]) == us[k];
        } else {
          assert Begin(es[j - 1]) == us[k];
        }
      }
    }
  }

  /** The global bucket is a lone bucket over all request times: neither the
      clients nor eviction have any say in it. */
  lemma {:induction false} GlobalTierIsABucket(p: Params, es: seq<Event>, i: nat)
    requires i <= |es|
    ensures var ts := RequestTimes(es, i);
            && StateAt(p, es, i).global == After(p.global, Fresh(p.global), ts, |ts|)
            && Passes(p, es, 0, i) == Grants(p.global, Fresh(p.global), ts, 0, |ts|)
  {
    hide Level;
    if i != 0 {
      GlobalTierIsABucket(p, es, i - 1);
      var ts, us := RequestTimes(es, i - 1), RequestTimes(es, i);
      AfterPrefix(p.global, Fresh(p.global), ts, us, |ts|);
      GrantsPrefix(p.global, Fresh(p.global), ts, us, 0, |ts|);
    }
  }

  // --- the client tier ---------------------------------------------------

  lemma {:induction false} PassTimesOrdered(p: Params, es: seq<Event>, client: string, i: nat)
    requires Timed(es) && i <= |es|
    ensures Ordered(PassTimes(p, es, client, i))
    ensures forall k :: 0 <= k < |PassTimes(p, es, client, i)| ==> PassTimes(p, es, client, i)[k] <= End(es[i - 1])
  {
    if i != 0 {
      PassTimesOrdered(p, es, client, i - 1);
    }
  }

  lemma {:induction false} PassTimesPrefix(p: Params, es: seq<Event>, client: string, i: nat, j: nat)
    requires i <= j <= |es|
    ensures PassTimes(p, es, client, i) <= PassTimes(p, es, client, j)
    ensures forall k :: |PassTimes(p, es, client, i)| <= k < |PassTimes(p, es, client, j)| ==>
              exists m :: i <= m < j && End(es[m]) == PassTimes(p, es, client, j)[k]
    decreases j
  {
    if i < j {
      PassTimesPrefix(p, es, client, i, j - 1);
      var ts, us := PassTimes(p, es, client, j - 1), PassTimes(p, es, client, j);
      forall k | |PassTimes(p, es, client, i)| <= k < |us|
        ensures exists m :: i <= m < j && End(es[m]) == us[k]
      {
        if k < |ts| {
          var m :| i <= m < j - 1 && End(es[m]) == ts[k];
          assert End(es[m]) == us[k];
        } else {
          assert End(es[j - 1]) == us[k];
        }
      }
    }
  }

  /** Isolation: in a limiter that never forgets, a client's bucket and its
      admissions depend on nothing but that client's own pass times. */
  lemma {:induction false} ClientTierIsABucket(p: Params, es: seq<Event>, client: string, i: nat)
    requires i <= |es| && p.lifetime == Forever
    ensures var ts := PassTimes(p, es, client, i);
            && BucketOf(p, StateAt(p, es, i), client) == After(p.client, Fresh(p.client), ts, |ts|)
            && AdmissionsOf(p, es, client, 0, i) == Grants(p.client, Fresh(p.client), ts, 0, |ts|)
  {
    hide Level;
    if i != 0 {
      ClientTierIsABucket(p, es, client, i - 1);
      var ts, us := PassTimes(p, es, client, i - 1), PassTimes(p, es, client, i);
      AfterPrefix(p.client, Fresh(p.client), ts, us, |ts|);
      GrantsPrefix(p.client, Fresh(p.client), ts, us, 0, |ts|);
    }
  }

  // --- counting over a window ---------------------------------------------

  lemma {:induction false} GrantsSplit(r: Rate, b: Bucket, ts: seq<Time>, i: nat, j: nat)
    requires i <= j <= |ts|
    ensures Grants(r, b, ts, 0, j) == Grants(r, b, ts, 0, i) + Grants(r, b, ts, i, j)
  {
    if i < j {
      GrantsSplit(r, b, ts, i, j - 1);
    }
  }

  lemma {:induction false} PassesSplit(p: Params, es: seq<Event>, i: nat, j: nat)
    requires i <= j <= |es|
    ensures Passes(p, es, 0, j) == Passes(p, es, 0, i) + Passes(p, es, i, j)
  {
    if i < j {
      PassesSplit(p, es, i, j - 1);
    }
  }

  lemma {:induction false} AdmissionsOfSplit(p: Params, es: seq<Event>, client: string, i: nat, j: nat)
    requires i <= j <= |es|
    ensures AdmissionsOf(p, es, client, 0, j) == AdmissionsOf(p, es, client, 0, i) + AdmissionsOf(p, es, client, i, j)
  {
    if i < j {
      AdmissionsOfSplit(p, es, client, i, j - 1);
    }
  }
}
