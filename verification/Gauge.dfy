/** The active-requests gauge under concurrent requests that are answered,
    refused or panic, each in its own goroutine. */
module Gauge {

  datatype Layer = Recovery | Metrics | RateLimit | BodyLimit | Logging | ClientIp | McpHandler

  const CHAIN: seq<Layer> := [Recovery, Metrics, RateLimit, BodyLimit, Logging, ClientIp, McpHandler]

  type Id = nat

  /** A request has entered the first `depth` layers of the chain and not left
      them; `called` says whether the innermost of them has already called the
      next. A request with no layers left is done. */
  datatype Request = Request(depth: nat, called: bool, panicking: bool)

  datatype Machine = Machine(gauge: int, requests: map<Id, Request>)

  /** `Unwind` is one frame of a panic: its deferred calls run. */
  datatype Move =
    | Arrive(id: Id)
    | CallNext(id: Id)
    | Return(id: Id)
    | Panic(id: Id)
    | Unwind(id: Id)

  /** Only these layers may return without having called the next. */
  predicate MayAnswer(l: Layer) {
    l.RateLimit? || l.Logging? || l.McpHandler?
  }

  predicate Enabled(m: Machine, move: Move) {
    match move
    case Arrive(id) => id !in m.requests
    case CallNext(id) => Active(m, id) && !m.requests[id].called && m.requests[id].depth < |CHAIN|
    case Return(id) => Active(m, id) && (m.requests[id].called || MayAnswer(CHAIN[m.requests[id].depth - 1]))
    case Panic(id) => Active(m, id)
    case Unwind(id) => id in m.requests && m.requests[id].panicking && 0 < m.requests[id].depth <= |CHAIN|
  }

  /** The innermost layer of the request is running its own code. */
  predicate Active(m: Machine, id: Id) {
    id in m.requests && !m.requests[id].panicking && 0 < m.requests[id].depth <= |CHAIN|
  }

  function With(m: Machine, id: Id, r: Request, change: int): Machine {
    Machine(m.gauge + change, m.requests[id := r])
  }

  /** Metrics counts up on entry; its deferred call counts down when it is left,
      by a return or by a panic. Recovery ends a panic. */
  function Apply(m: Machine, move: Move): Machine
    requires Enabled(m, move)
  {
    match move
    case Arrive(id) => With(m, id, Request(1, false, false), 0)
    case CallNext(id) =>
      var r := m.requests[id];
      With(m, id, Request(r.depth + 1, false, false), if CHAIN[r.depth].Metrics? then 1 else 0)
    case Return(id) =>
      var r := m.requests[id];
      With(m, id, Request(r.depth - 1, true, false), if CHAIN[r.depth - 1].Metrics? then -1 else 0)
    case Panic(id) => With(m, id, m.requests[id].(panicking := true), 0)
    case Unwind(id) =>
      var r := m.requests[id];
      var layer := CHAIN[r.depth - 1];
      With(m, id, Request(r.depth - 1, true, !layer.Recovery?), if layer.Metrics? then -1 else 0)
  }

  ghost predicate Steps(m: Machine, m': Machine) {
    exists move :: Enabled(m, move) && m' == Apply(m, move)
  }

  ghost predicate Execution(start: int, trace: seq<Machine>) {
    && trace != [] && trace[0] == Machine(start, map[])
    && forall i :: 0 <= i < |trace| - 1 ==> Steps(trace[i], trace[i + 1])
  }

  /** The requests that are inside the metrics layer. */
  function InFlight(m: Machine): set<Id> {
    set id | id in m.requests && 2 <= m.requests[id].depth
  }

  /** No request is deeper than the chain, or done with a panic under way. */
  ghost predicate Sound(m: Machine) {
    forall id :: id in m.requests ==>
      m.requests[id].depth <= |CHAIN| && (m.requests[id].panicking ==> 0 < m.requests[id].depth)
  }

  ghost predicate Inv(start: int, m: Machine) {
    m.gauge == start + |InFlight(m)| && Sound(m)
  }

  function Counted(m: Machine, id: Id): int {
    if id in m.requests && 2 <= m.requests[id].depth then 1 else 0
  }

  lemma InFlightAfter(m: Machine, id: Id, r: Request, change: int)
    ensures InFlight(With(m, id, r, change)) == if 2 <= r.depth then InFlight(m) + {id} else InFlight(m) - {id}
    ensures Counted(m, id) == if id in InFlight(m) then 1 else 0
  {
  }

  lemma SizeAfter(s: set<Id>, id: Id)
    ensures |s + {id}| == |s| + (if id in s then 0 else 1)
    ensures |s - {id}| == |s| - (if id in s then 1 else 0)
  {
    if id in s {
      assert s + {id} == s;
    } else {
      assert s - {id} == s;
    }
  }

  /** The gauge moves with the one request that moves. */
  lemma WithKeeps(start: int, m: Machine, id: Id, r: Request, change: int)
    requires Inv(start, m) && r.depth <= |CHAIN| && (r.panicking ==> 0 < r.depth)
    requires change == (if 2 <= r.depth then 1 else 0) - Counted(m, id)
    ensures Inv(start, With(m, id, r, change))
  {
    hide InFlight, Counted;
    InFlightAfter(m, id, r, change);
    SizeAfter(InFlight(m), id);
  }

  /** Metrics is the second layer, and the only one of its kind. */
  lemma MetricsIsSecond(depth: nat)
    requires 0 < depth <= |CHAIN|
    ensures CHAIN[depth - 1].Metrics? <==> depth == 2
    ensures CHAIN[depth - 1].Recovery? <==> depth == 1
  {
  }

  lemma MoveKeeps(start: int, m: Machine, move: Move)
    requires Inv(start, m) && Enabled(m, move)
    ensures Inv(start, Apply(m, move))
  {
    hide InFlight;
    var id := move.id;
    if !move.Arrive? {
      var depth := m.requests[id].depth;
      MetricsIsSecond(depth);
      if move.CallNext? {
        MetricsIsSecond(depth + 1);
      }
    }
    var m' := Apply(m, move);
    WithKeeps(start, m, id, m'.requests[id], m'.gauge - m.gauge);
    assert m' == With(m, id, m'.requests[id], m'.gauge - m.gauge);
  }

  lemma {:induction false} ExecutionKeeps(start: int, trace: seq<Machine>, i: nat)
    requires Execution(start, trace) && i < |trace|
    ensures Inv(start, trace[i])
  {
    if i == 0 {
      assert InFlight(trace[0]) == {};
    } else {
      ExecutionKeeps(start, trace, i - 1);
      assert Steps(trace[i - 1], trace[i - 1 + 1]);
      var move :| Enabled(trace[i - 1], move) && trace[i] == Apply(trace[i - 1], move);
      MoveKeeps(start, trace[i - 1], move);
    }
  }

  /** At every point of every interleaving the gauge is its start value plus the
      number of requests inside the metrics layer; so it is back at the start
      value whenever all requests are done; and no request is done with a panic
      still under way. */
  lemma GaugeIsExact(start: int, trace: seq<Machine>, i: nat)
    requires Execution(start, trace) && i < |trace|
    ensures trace[i].gauge == start + |InFlight(trace[i])|
    ensures (forall id :: id in trace[i].requests ==> trace[i].requests[id].depth == 0) ==> trace[i].gauge == start
    ensures forall id :: id in trace[i].requests && trace[i].requests[id].depth == 0 ==>
              !trace[i].requests[id].panicking
  {
    ExecutionKeeps(start, trace, i);
    if forall id :: id in trace[i].requests ==> trace[i].requests[id].depth == 0 {
      assert InFlight(trace[i]) == {};
    }
  }

  /** Moves a request has left at most. */
  function MovesLeft(r: Request): nat
    requires r.depth <= |CHAIN|
  {
    if r.panicking then r.depth
    else if r.called then 2 * r.depth
    else 3 * |CHAIN| - r.depth
  }

  /** The next move of a request that nothing makes panic: its innermost layer
      calls the next, or returns after its call, or, under a panic, gives way to
      its deferred calls. */
  function OrdinaryMove(m: Machine, id: Id): Move
    requires id in m.requests
  {
    var r := m.requests[id];
    if r.panicking then Unwind(id)
    else if r.called || r.depth == |CHAIN| then Return(id)
    else CallNext(id)
  }

  /** Every request that is not done can move on without panicking, each of its
      moves brings it closer to its end, and no other request's move touches it. */
  lemma RequestsEnd(start: int, m: Machine, id: Id, move: Move)
    requires Inv(start, m) && id in m.requests && 0 < m.requests[id].depth && Enabled(m, move)
    ensures !OrdinaryMove(m, id).Panic? && OrdinaryMove(m, id).id == id && Enabled(m, OrdinaryMove(m, id))
    ensures var m' := Apply(m, move);
            && m'.requests[id].depth <= |CHAIN|
            && (move.id == id ==> MovesLeft(m'.requests[id]) < MovesLeft(m.requests[id]))
            && (move.id != id ==> m'.requests[id] == m.requests[id])
  {
    assert MayAnswer(CHAIN[|CHAIN| - 1]);
  }

  lemma OrdinaryMoveAdvances(m: Machine, id: Id)
    requires Sound(m) && id in m.requests && 0 < m.requests[id].depth
    ensures Enabled(m, OrdinaryMove(m, id))
    ensures var m' := Apply(m, OrdinaryMove(m, id));
            && Sound(m') && m'.requests.Keys == m.requests.Keys
            && MovesLeft(m'.requests[id]) < MovesLeft(m.requests[id])
            && m'.gauge - Counted(m', id) == m.gauge - Counted(m, id)
            && forall other :: other in m.requests && other != id ==> m'.requests[other] == m.requests[other]
  {
    MetricsIsSecond(m.requests[id].depth);
    if !m.requests[id].panicking && !m.requests[id].called && m.requests[id].depth < |CHAIN| {
      MetricsIsSecond(m.requests[id].depth + 1);
    }
  }

  /** The machine when the request, left alone, has come to its end. */
  function Ended(m: Machine, id: Id): Machine
    requires Sound(m) && id in m.requests
    decreases MovesLeft(m.requests[id])
  {
    if m.requests[id].depth == 0 then m
    else
      OrdinaryMoveAdvances(m, id);
      Ended(Apply(m, OrdinaryMove(m, id)), id)
  }

  /** Wherever a request stands, under a panic or not, it comes to its end without
      a panic left over; by then it has taken from the gauge exactly what it had
      put there, and has touched no other request. */
  lemma {:induction false} EndingSettlesTheGauge(m: Machine, id: Id)
    requires Sound(m) && id in m.requests
    ensures var m' := Ended(m, id);
            && Sound(m') && m'.requests.Keys == m.requests.Keys
            && m'.requests[id].depth == 0 && !m'.requests[id].panicking
            && m'.gauge == m.gauge - Counted(m, id)
            && forall other :: other in m.requests && other != id ==> m'.requests[other] == m.requests[other]
    decreases MovesLeft(m.requests[id])
  {
    hide Enabled, Apply;
    if m.requests[id].depth != 0 {
      OrdinaryMoveAdvances(m, id);
      EndingSettlesTheGauge(Apply(m, OrdinaryMove(m, id)), id);
    }
  }

  lemma Extend(start: int, trace: seq<Machine>, move: Move) returns (longer: seq<Machine>)
    requires Execution(start, trace) && Enabled(trace[|trace| - 1], move)
    ensures Execution(start, longer) && longer[|longer| - 1] == Apply(trace[|trace| - 1], move)
  {
    hide Enabled, Apply;
    var m' := Apply(trace[|trace| - 1], move);
    longer := trace + [m'];
    assert Steps(trace[|trace| - 1], m');
    forall i | 0 <= i < |longer| - 1
      ensures Steps(longer[i], longer[i + 1])
    {
      if i < |trace| - 1 {
        assert Steps(trace[i], trace[i + 1]);
      }
    }
  }

  /** A request gets to every layer of the chain. There it may panic; and it may be
      answered before the next layer is called by the rate limiter, which is the
      third, the logging layer, which reads the body, and the handler. */
  lemma {:induction false} EveryLayerIsReached(start: int, depth: nat) returns (trace: seq<Machine>)
    requires 1 <= depth <= 7
    ensures Execution(start, trace)
    ensures var m := trace[|trace| - 1];
            && m.requests == map[0 := Request(depth, false, false)]
            && m.gauge == start + (if 2 <= depth then 1 else 0)
            && Enabled(m, Panic(0))
            && (Enabled(m, Return(0)) <==> depth == 3 || depth == 5 || depth == 7)
  {
    if depth == 1 {
      trace := Extend(start, [Machine(start, map[])], Arrive(0));
    } else {
      trace := EveryLayerIsReached(start, depth - 1);
      trace := Extend(start, trace, CallNext(0));
    }
  }
}
