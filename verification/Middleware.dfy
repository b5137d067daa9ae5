/** The middleware chain in front of the MCP handler: rate limit, body limit,
    batch limit. */
module Middleware {
  import opened TokenBucket
  import opened RateLimiting
  import opened WindowBounds
  import opened EvictionTransparency

  const MAX_REQUEST_BODY_SIZE: nat := 1048576
  const MAX_BATCH_SIZE: nat := 100

  /** What the JSON reader makes of a body: an array of so many elements, one
      other value, or no JSON at all. */
  datatype Shape = Batch(size: nat) | Single | Malformed

  /** Bytes are characters below 256. */
  datatype Body = Body(bytes: string, shape: Shape)

  type RequestEvent = e: Event | e.Request? witness Request("", 0, 0, 0)
  type EvictionEvent = e: Event | e.Eviction? witness Eviction(0, 0, map[])

  /** An HTTP request with what the rate limiter sees of it, or a run of the
      eviction. */
  datatype Arrival = Http(request: RequestEvent, body: Body) | Cleanup(eviction: EvictionEvent)

  datatype Outcome = TooManyRequests | BodyTooLarge | BatchTooLarge | Delivered(bytes: string) | NoRequest

  function TrimLeft(s: string): string {
    if s != "" && (s[0] == ' ' || '\t' <= s[0] <= '\r') then TrimLeft(s[1..]) else s
  }

  predicate OpensArray(s: string) {
    var trimmed := TrimLeft(s);
    trimmed != "" && trimmed[0] == '['
  }

  /** Only a text that opens an array is read as one. */
  ghost predicate Readable(b: Body) {
    b.shape.Batch? ==> OpensArray(b.bytes)
  }

  /** Messages the handler finds in a body. */
  function MessagesIn(shape: Shape): nat {
    match shape
    case Batch(n) => n
    case Single => 1
    case Malformed => 0
  }

  /** Batches are recognised by their first character and refused by their size. */
  predicate BatchAllowed(b: Body) {
    OpensArray(b.bytes) && b.shape.Batch? ==> b.shape.size <= MAX_BATCH_SIZE
  }

  /** Reading through the limit either yields the whole body or fails. */
  function ReadLimited(bytes: string, limit: nat): (r: (bool, string))
    ensures r.0 <==> |bytes| <= limit
    ensures r.0 ==> r.1 == bytes
  {
    if |bytes| <= limit then (true, bytes) else (false, bytes[..limit])
  }

  /** What the layers inside the rate limiter make of a body. */
  function ServeBody(b: Body): Outcome {
    var (ok, body) := ReadLimited(b.bytes, MAX_REQUEST_BODY_SIZE);
    if !ok then BodyTooLarge
    else if !BatchAllowed(b.(bytes := body)) then BatchTooLarge
    else Delivered(body)
  }

  function EventOf(a: Arrival): Event {
    match a
    case Http(request, _) => request
    case Cleanup(eviction) => eviction
  }

  function Events(arrivals: seq<Arrival>): (es: seq<Event>)
    ensures |es| == |arrivals|
    ensures forall i :: 0 <= i < |es| ==> es[i] == EventOf(arrivals[i])
  {
    seq(|arrivals|, i requires 0 <= i < |arrivals| => EventOf(arrivals[i]))
  }

  function OutcomeAt(p: Params, arrivals: seq<Arrival>, i: nat): Outcome
    requires i < |arrivals|
  {
    if arrivals[i].Cleanup? then NoRequest
    else if VerdictAt(p, Events(arrivals), i) != Admitted then TooManyRequests
    else ServeBody(arrivals[i].body)
  }

  /** Messages handed to the handler by arrivals `i` up to `j`. */
  function Messages(p: Params, arrivals: seq<Arrival>, i: nat, j: nat): nat
    requires j <= |arrivals|
  {
    if j <= i then 0
    else Messages(p, arrivals, i, j - 1) +
         (if OutcomeAt(p, arrivals, j - 1).Delivered? then MessagesIn(arrivals[j - 1].body.shape) else 0)
  }

  /** Exactly which requests reach the handler, and with what: those both tiers
      admit, of at most a mebibyte, that are no batch of more than a hundred; and
      they arrive byte for byte. */
  lemma DeliveredExactly(p: Params, arrivals: seq<Arrival>, i: nat)
    requires i < |arrivals| && arrivals[i].Http? && Readable(arrivals[i].body)
    ensures var b := arrivals[i].body;
            OutcomeAt(p, arrivals, i) == Delivered(b.bytes) <==>
              && VerdictAt(p, Events(arrivals), i) == Admitted
              && |b.bytes| <= MAX_REQUEST_BODY_SIZE
              && MessagesIn(b.shape) <= MAX_BATCH_SIZE
    ensures OutcomeAt(p, arrivals, i).Delivered? ==> OutcomeAt(p, arrivals, i).bytes == arrivals[i].body.bytes
  {
  }

  predicate Blank(c: char) {
    c == ' ' || c == '\t' || c == '\n' || c == '\U{0B}' || c == '\U{0C}' || c == '\r'
  }

  /** A bracket stands at `k`, behind blanks only. */
  predicate BracketAt(s: string, k: int) {
    0 <= k < |s| && s[k] == '[' && forall j :: 0 <= j < k ==> Blank(s[j])
  }

  lemma {:induction false} OpensArrayExactly(s: string)
    ensures OpensArray(s) <==> exists k :: BracketAt(s, k)
  {
    if s != "" && Blank(s[0]) {
      OpensArrayExactly(s[1..]);
      if k :| BracketAt(s[1..], k) {
        assert BracketAt(s, k + 1);
      }
      if k :| BracketAt(s, k) {
        assert BracketAt(s[1..], k - 1);
      }
    } else if OpensArray(s) {
      assert BracketAt(s, 0);
    }
  }

  /** Exactly when each answer is given. */
  lemma AnsweredExactly(p: Params, arrivals: seq<Arrival>, i: nat)
    requires i < |arrivals| && arrivals[i].Http?
    ensures var b, admitted := arrivals[i].body, VerdictAt(p, Events(arrivals), i) == Admitted;
            var batch := b.shape.Batch? && 100 < b.shape.size && exists k :: BracketAt(b.bytes, k);
            var outcome := OutcomeAt(p, arrivals, i);
            && (outcome == TooManyRequests <==> !admitted)
            && (outcome == BodyTooLarge <==> admitted && 1048576 < |b.bytes|)
            && (outcome == BatchTooLarge <==> admitted && |b.bytes| <= 1048576 && batch)
            && (outcome == Delivered(b.bytes) <==> admitted && |b.bytes| <= 1048576 && !batch)
  {
    hide VerdictAt, OpensArray;
    OpensArrayExactly(arrivals[i].body.bytes);
  }

  lemma {:induction false} MessagesPerAdmission(p: Params, arrivals: seq<Arrival>, i: nat, j: nat)
    requires j <= |arrivals|
    requires forall k :: 0 <= k < |arrivals| && arrivals[k].Http? ==> Readable(arrivals[k].body)
    ensures Messages(p, arrivals, i, j) <= MAX_BATCH_SIZE * Admissions(p, Events(arrivals), i, j)
  {
    if i < j {
      MessagesPerAdmission(p, arrivals, i, j - 1);
      if arrivals[j - 1].Http? {
        DeliveredExactly(p, arrivals, j - 1);
      }
    }
  }

  /** End to end: what reaches the handler was admitted by both tiers, arrives
      byte for byte, has at most a mebibyte and a hundred messages; and however
      clients split their traffic into requests and batches, in every window at most
      a hundred times burst + limit * window messages get there. */
  lemma AmplificationBound(p: Params, arrivals: seq<Arrival>, i: nat, j: nat, window: nat)
    requires forall k :: 0 <= k < |arrivals| && arrivals[k].Http? ==> Readable(arrivals[k].body)
    requires Timed(Events(arrivals)) && Within(Events(arrivals), i, j, window)
    ensures forall k :: i <= k < j && OutcomeAt(p, arrivals, k).Delivered? ==>
              var body := arrivals[k].body;
              && VerdictAt(p, Events(arrivals), k) == Admitted
              && OutcomeAt(p, arrivals, k).bytes == body.bytes
              && |body.bytes| <= MAX_REQUEST_BODY_SIZE && MessagesIn(body.shape) <= MAX_BATCH_SIZE
    ensures NANO * Messages(p, arrivals, i, j)
         <= MAX_BATCH_SIZE * (Capacity(p.global) + Gain(p.global.limit, window))
  {
    forall k | i <= k < j && OutcomeAt(p, arrivals, k).Delivered?
      ensures OutcomeAt(p, arrivals, k) == Delivered(arrivals[k].body.bytes)
      ensures VerdictAt(p, Events(arrivals), k) == Admitted
      ensures |arrivals[k].body.bytes| <= MAX_REQUEST_BODY_SIZE && MessagesIn(arrivals[k].body.shape) <= MAX_BATCH_SIZE
    {
      DeliveredExactly(p, arrivals, k);
    }
    hide OutcomeAt, VerdictAt;
    MessagesPerAdmission(p, arrivals, i, j);
    GlobalWindowBound(p, Events(arrivals), i, j, window);
  }

  /** Bodies that pass, with the number of messages in them: a batch of up to a
      hundred, one object, or what is no JSON. */
  predicate Holds(body: Body, each: nat) {
    || (body == Body("[", Batch(each)) && each <= 100)
    || (body == Body("{}", Single) && each == 1)
    || (body == Body("?", Malformed) && each == 0)
  }

  /** So many requests of one client with the same body, at time 0. */
  function Volley(n: nat, body: Body): (arrivals: seq<Arrival>)
    ensures |arrivals| == n && forall i :: 0 <= i < n ==> arrivals[i] == Http(Visit(0), body)
  {
    seq(n, i => Http(Visit(0), body))
  }

  lemma VolleyAdmitted(p: Params, n: nat, body: Body, i: nat)
    requires i < n <= p.global.burst && p.global.burst <= p.client.burst
    requires var s := StateAt(p, Events(Volley(n, body)), i);
             && s.global == Bucket(NANO * (p.global.burst - i), 0)
             && BucketOf(p, s, VISITOR) == Bucket(NANO * (p.client.burst - i), 0)
    ensures VerdictAt(p, Events(Volley(n, body)), i) == Admitted
    ensures var s := StateAt(p, Events(Volley(n, body)), i + 1);
            && s.global == Bucket(NANO * (p.global.burst - (i + 1)), 0)
            && BucketOf(p, s, VISITOR) == Bucket(NANO * (p.client.burst - (i + 1)), 0)
  {
    assert Gain(p.global.limit, 0) == 0 && Gain(p.client.limit, 0) == 0;
    assert Events(Volley(n, body))[i] == Visit(0);
  }

  lemma NothingSpent(p: Params, es: seq<Event>)
    ensures StateAt(p, es, 0).global == Bucket(NANO * p.global.burst, 0)
    ensures BucketOf(p, StateAt(p, es, 0), VISITOR) == Bucket(NANO * p.client.burst, 0)
  {
  }

  lemma BodyDelivered(p: Params, arrivals: seq<Arrival>, i: nat, body: Body, each: nat)
    requires i < |arrivals| && arrivals[i] == Http(Visit(0), body) && Holds(body, each)
    requires VerdictAt(p, Events(arrivals), i) == Admitted
    ensures OutcomeAt(p, arrivals, i) == Delivered(body.bytes) && MessagesIn(body.shape) == each
  {
  }

  lemma {:induction false} VolleyDelivered(p: Params, n: nat, body: Body, each: nat, i: nat)
    requires i <= n <= p.global.burst && p.global.burst <= p.client.burst && Holds(body, each)
    ensures var s := StateAt(p, Events(Volley(n, body)), i);
            && s.global == Bucket(NANO * (p.global.burst - i), 0)
            && BucketOf(p, s, VISITOR) == Bucket(NANO * (p.client.burst - i), 0)
    ensures Messages(p, Volley(n, body), 0, i) == each * i
    ensures MessagesOf(p, Volley(n, body), VISITOR, 0, i) == each * i
  {
    hide StateAt, VerdictAt, BucketOf, MessagesIn, OutcomeAt, Holds;
    if i == 0 {
      NothingSpent(p, Events(Volley(n, body)));
    } else {
      VolleyDelivered(p, n, body, each, i - 1);
      VolleyAdmitted(p, n, body, i - 1);
      BodyDelivered(p, Volley(n, body), i - 1, body, each);
      assert each * i == each * (i - 1) + each;
    }
  }

  /** The bound is met: from a new limiter that allows it, one client can hand over a
      hundred messages for every token of the burst at a single instant. */
  lemma AmplificationReached(p: Params)
    requires p.global.burst <= p.client.burst
    ensures var arrivals := Volley(p.global.burst, Body("[", Batch(100)));
            && Timed(Events(arrivals)) && Within(Events(arrivals), 0, |arrivals|, 0)
            && (forall k :: 0 <= k < |arrivals| && arrivals[k].Http? ==> Readable(arrivals[k].body))
            && NANO * Messages(p, arrivals, 0, |arrivals|) == 100 * (Capacity(p.global) + Gain(p.global.limit, 0))
            && NANO * MessagesOf(p, arrivals, VISITOR, 0, |arrivals|)
                 == 100 * (Capacity(p.global) + Gain(p.global.limit, 0))
  {
    hide StateAt, VerdictAt;
    VolleyDelivered(p, p.global.burst, Body("[", Batch(100)), 100, p.global.burst);
    assert Gain(p.global.limit, 0) == 0;
  }

  /** Messages of one client's requests. */
  function MessagesOf(p: Params, arrivals: seq<Arrival>, client: string, i: nat, j: nat): nat
    requires j <= |arrivals|
  {
    if j <= i then 0
    else MessagesOf(p, arrivals, client, i, j - 1) +
         (if OutcomeAt(p, arrivals, j - 1).Delivered? && arrivals[j - 1].request.client == client
          then MessagesIn(arrivals[j - 1].body.shape) else 0)
  }

  lemma {:induction false} MessagesPerAdmissionOf(p: Params, arrivals: seq<Arrival>, client: string, i: nat, j: nat)
    requires j <= |arrivals|
    requires forall k :: 0 <= k < |arrivals| && arrivals[k].Http? ==> Readable(arrivals[k].body)
    ensures MessagesOf(p, arrivals, client, i, j) <= MAX_BATCH_SIZE * AdmissionsOf(p, Events(arrivals), client, i, j)
  {
    if i < j {
      MessagesPerAdmissionOf(p, arrivals, client, i, j - 1);
      if arrivals[j - 1].Http? {
        DeliveredExactly(p, arrivals, j - 1);
      }
    }
  }

  /** The same for one client, against its own rate, even if it is forgotten in
      between. */
  lemma ClientAmplificationBound(p: Params, arrivals: seq<Arrival>, client: string, i: nat, j: nat,
                                 window: nat, lag: nat)
    requires forall k :: 0 <= k < |arrivals| && arrivals[k].Http? ==> Readable(arrivals[k].body)
    requires Transparent(p, lag) && Timed(Events(arrivals)) && Prompt(Events(arrivals), lag)
    requires EndsWithin(Events(arrivals), i, j, window)
    ensures NANO * MessagesOf(p, arrivals, client, i, j)
         <= MAX_BATCH_SIZE * (Capacity(p.client) + Gain(p.client.limit, window))
  {
    MessagesPerAdmissionOf(p, arrivals, client, i, j);
    ClientWindowBound(p, Events(arrivals), client, i, j, window, lag);
  }
}
