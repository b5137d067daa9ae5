/** Starting and stopping: two serving goroutines, the limiter's eviction
    goroutine, and the main goroutine that waits and then shuts everything down. */
module Lifecycle {

  const ERR_BUFFER: nat := 2

  datatype Which = MainServer | MetricsServer

  /** A serving goroutine ends after reporting an error, or without one. */
  datatype Serving = AtServe | AtSend | Ended(failed: bool)

  datatype Main =
    | AtSelect
    | AtStop
    | AtShutdownMain
    | DrainingMain
    | AtShutdownMetrics
    | DrainingMetrics
    | ReturnedNil

  datatype Cause = NotYet | Signal | ServerError

  /** What the main goroutine does after it was woken. `expired` says whether the
      shutdown context was already done at the call. */
  datatype Action = StopLimiter | Shutdown(server: Which, expired: bool)

  /** `connections` counts those that are serving a request. A signal sets
      `cancelled`, and the shutdown's own time limit `timedOut`. */
  datatype Machine = Machine(
    main: Main, serving: map<Which, Serving>, connections: map<Which, nat>,
    buffered: nat, cancelled: bool, timedOut: bool, cause: Cause,
    stopCloses: nat, evicting: bool, actions: seq<Action>)

  datatype Move =
    | Cancel
    | TimeOut
    | Connect(w: Which)
    | Disconnect(w: Which)
    | ServeFails(w: Which)
    | ServeCloses(w: Which)
    | Send(w: Which)
    | WakeOnSignal
    | WakeOnError
    | DoStop
    | DoShutdown
    | ShutdownReturns
    | Evict
    | EvictorExits

  const START: Machine :=
    Machine(AtSelect, map[MainServer := AtServe, MetricsServer := AtServe], map[MainServer := 0, MetricsServer := 0],
            0, false, false, NotYet, 0, true, [])

  /** The shutdown context derives from the one that the signal cancels. */
  predicate ContextDone(m: Machine) {
    m.cancelled || m.timedOut
  }

  predicate Idle(m: Machine, w: Which) {
    w in m.connections && m.connections[w] == 0
  }

  predicate WasShutDown(m: Machine, w: Which) {
    Shutdown(w, false) in m.actions || Shutdown(w, true) in m.actions
  }

  /** A send waits for room in the buffer; the select for a cancelled context or
      a buffered error; a shutdown until no connection is left or its context is
      done. A server ends without an error only once it was shut down, but may fail
      at any time. */
  predicate Enabled(m: Machine, move: Move) {
    match move
    case Cancel => !m.cancelled
    case TimeOut => !m.main.AtSelect? && !m.timedOut
    case Connect(w) =>
      w in m.serving && m.serving[w].AtServe? && w in m.connections && !WasShutDown(m, w)
    case Disconnect(w) => w in m.connections && 0 < m.connections[w]
    case ServeFails(w) => w in m.serving && m.serving[w].AtServe?
    case ServeCloses(w) => w in m.serving && m.serving[w].AtServe? && WasShutDown(m, w)
    case Send(w) => w in m.serving && m.serving[w].AtSend? && m.buffered < ERR_BUFFER
    case WakeOnSignal => m.main.AtSelect? && m.cancelled
    case WakeOnError => m.main.AtSelect? && 0 < m.buffered
    case DoStop => m.main.AtStop?
    case DoShutdown => m.main.AtShutdownMain? || m.main.AtShutdownMetrics?
    case ShutdownReturns =>
      || (m.main.DrainingMain? && (Idle(m, MainServer) || ContextDone(m)))
      || (m.main.DrainingMetrics? && (Idle(m, MetricsServer) || ContextDone(m)))
    case Evict => m.evicting
    case EvictorExits => m.evicting && 0 < m.stopCloses
  }

  function Apply(m: Machine, move: Move): Machine
    requires Enabled(m, move)
  {
    match move
    case Cancel => m.(cancelled := true)
    case TimeOut => m.(timedOut := true)
    case Connect(w) => m.(connections := m.connections[w := m.connections[w] + 1])
    case Disconnect(w) => m.(connections := m.connections[w := m.connections[w] - 1])
    case ServeFails(w) => m.(serving := m.serving[w := AtSend])
    case ServeCloses(w) => m.(serving := m.serving[w := Ended(false)])
    case Send(w) => m.(serving := m.serving[w := Ended(true)], buffered := m.buffered + 1)
    case WakeOnSignal => m.(main := AtStop, cause := Signal)
    case WakeOnError => m.(main := AtStop, cause := ServerError, buffered := m.buffered - 1)
    case DoStop =>
      m.(main := AtShutdownMain, stopCloses := m.stopCloses + 1, actions := m.actions + [StopLimiter])
    case DoShutdown =>
      if m.main.AtShutdownMain?
      then m.(main := DrainingMain, actions := m.actions + [Shutdown(MainServer, ContextDone(m))])
      else m.(main := DrainingMetrics, actions := m.actions + [Shutdown(MetricsServer, ContextDone(m))])
    case ShutdownReturns => m.(main := if m.main.DrainingMain? then AtShutdownMetrics else ReturnedNil)
    case Evict => m
    case EvictorExits => m.(evicting := false)
  }

  ghost predicate Steps(m: Machine, m': Machine) {
    exists move :: Enabled(m, move) && m' == Apply(m, move)
  }

  ghost predicate Execution(trace: seq<Machine>) {
    && trace != [] && trace[0] == START
    && forall i :: 0 <= i < |trace| - 1 ==> Steps(trace[i], trace[i + 1])
  }

  // ---------------------------------------------------------------------
  // The invariant
  // ---------------------------------------------------------------------

  function Reported(s: Serving): nat {
    if s == Ended(true) then 1 else 0
  }

  function Done(main: Main): nat {
    match main
    case AtSelect => 0
    case AtStop => 0
    case AtShutdownMain => 1
    case DrainingMain => 2
    case AtShutdownMetrics => 2
    case DrainingMetrics => 3
    case ReturnedNil => 3
  }

  /** The actions so far are these three in this order, as far as they go. */
  predicate InOrder(actions: seq<Action>) {
    && |actions| <= 3
    && (0 < |actions| ==> actions[0] == StopLimiter)
    && (1 < |actions| ==> actions[1].Shutdown? && actions[1].server == MainServer)
    && (2 < |actions| ==> actions[2].Shutdown? && actions[2].server == MetricsServer)
  }

  /** Every error reported is in the buffer or is the one that was received. */
  predicate ErrorsAccounted(m: Machine) {
    && m.serving.Keys == {MainServer, MetricsServer}
    && m.buffered + (if m.cause.ServerError? then 1 else 0)
         == Reported(m.serving[MainServer]) + Reported(m.serving[MetricsServer])
    && (m.main.AtSelect? <==> m.cause.NotYet?)
  }

  predicate ActionsInOrder(m: Machine) {
    && |m.actions| == Done(m.main) && InOrder(m.actions)
    && m.stopCloses == (if m.actions == [] then 0 else 1)
    && (!m.evicting ==> 0 < m.stopCloses)
  }

  /** The context once done stays so, and after a signal it is done from the
      start. */
  predicate FlagsAgree(m: Machine) {
    && (m.main.AtSelect? <==> m.cause.NotYet?)
    && |m.actions| == Done(m.main)
    && (m.cause.Signal? ==>
          m.cancelled && forall i :: 0 <= i < |m.actions| && m.actions[i].Shutdown? ==> m.actions[i].expired)
    && (1 < |m.actions| && m.actions[1].Shutdown? && m.actions[1].expired ==>
          ContextDone(m) && (2 < |m.actions| && m.actions[2].Shutdown? ==> m.actions[2].expired))
  }

  predicate ConnectionsCounted(m: Machine) {
    m.connections.Keys == {MainServer, MetricsServer}
  }

  predicate Inv(m: Machine) {
    ConnectionsCounted(m) && ErrorsAccounted(m) && ActionsInOrder(m) && FlagsAgree(m)
  }

  lemma ServingStaysAccounted(m: Machine, move: Move)
    requires ErrorsAccounted(m) && Enabled(m, move)
    requires move.ServeFails? || move.ServeCloses? || move.Send?
    ensures ErrorsAccounted(Apply(m, move))
  {
  }

  lemma ErrorsStayAccounted(m: Machine, move: Move)
    requires ErrorsAccounted(m) && Enabled(m, move)
    ensures ErrorsAccounted(Apply(m, move))
  {
    hide WasShutDown, ContextDone, Idle;
    if move.ServeFails? || move.ServeCloses? || move.Send? {
      ServingStaysAccounted(m, move);
    } else {
      assert Apply(m, move).serving == m.serving;
    }
  }

  lemma ConnectionsStayCounted(m: Machine, move: Move)
    requires ConnectionsCounted(m) && Enabled(m, move)
    ensures ConnectionsCounted(Apply(m, move))
  {
    hide WasShutDown, ContextDone, Idle;
  }

  lemma ActionsStayInOrder(m: Machine, move: Move)
    requires ActionsInOrder(m) && Enabled(m, move)
    ensures ActionsInOrder(Apply(m, move))
  {
    hide WasShutDown, Idle, ContextDone;
  }

  lemma FlagsStayAgreed(m: Machine, move: Move)
    requires FlagsAgree(m) && Enabled(m, move)
    ensures FlagsAgree(Apply(m, move))
  {
    hide WasShutDown, Idle;
  }

  lemma ShutDownStaysSo(m: Machine)
    requires ActionsInOrder(m)
    ensures 2 <= Done(m.main) ==> WasShutDown(m, MainServer)
    ensures 3 <= Done(m.main) ==> WasShutDown(m, MetricsServer)
  {
    if 2 <= Done(m.main) {
      assert m.actions[1] == Shutdown(MainServer, m.actions[1].expired) && m.actions[1] in m.actions;
    }
    if 3 <= Done(m.main) {
      assert m.actions[2] == Shutdown(MetricsServer, m.actions[2].expired) && m.actions[2] in m.actions;
    }
  }

  lemma MoveKeeps(m: Machine, move: Move)
    requires Inv(m) && Enabled(m, move)
    ensures Inv(Apply(m, move))
  {
    hide Enabled, Apply, ConnectionsCounted, ErrorsAccounted, ActionsInOrder, FlagsAgree;
    ConnectionsStayCounted(m, move);
    ErrorsStayAccounted(m, move);
    ActionsStayInOrder(m, move);
    FlagsStayAgreed(m, move);
  }

  lemma {:induction false} ExecutionKeeps(trace: seq<Machine>, i: nat)
    requires Execution(trace) && i < |trace|
    ensures Inv(trace[i])
  {
    if i != 0 {
      ExecutionKeeps(trace, i - 1);
      assert Steps(trace[i - 1], trace[i - 1 + 1]);
      var move :| Enabled(trace[i - 1], move) && trace[i] == Apply(trace[i - 1], move);
      MoveKeeps(trace[i - 1], move);
    }
  }

  // ---------------------------------------------------------------------
  // What follows
  // ---------------------------------------------------------------------

  /** A goroutine that has an error to report can always report it at once: the
      buffer never fills up, even if both servers fail and nobody receives. */
  lemma SendsNeverBlock(trace: seq<Machine>, i: nat, w: Which)
    requires Execution(trace) && i < |trace|
    requires w in trace[i].serving && trace[i].serving[w].AtSend?
    ensures Enabled(trace[i], Send(w))
  {
    ExecutionKeeps(trace, i);
  }

  /** While the main goroutine waits, it can be woken by exactly the error of any
      server and by a signal. */
  lemma WakesExactly(trace: seq<Machine>, i: nat)
    requires Execution(trace) && i < |trace| && trace[i].main.AtSelect?
    ensures Enabled(trace[i], WakeOnError) <==>
            exists w :: w in trace[i].serving && trace[i].serving[w] == Ended(true)
    ensures Enabled(trace[i], WakeOnSignal) <==> trace[i].cancelled
  {
    ExecutionKeeps(trace, i);
    var m := trace[i];
    assert MainServer in m.serving && MetricsServer in m.serving;
  }

  /** So either server, failing while it serves, can bring about the shutdown at
      once. */
  lemma FailureWakes(trace: seq<Machine>, i: nat, w: Which)
    requires Execution(trace) && i < |trace| && trace[i].main.AtSelect?
    requires w in trace[i].serving && trace[i].serving[w].AtServe?
    ensures Enabled(trace[i], ServeFails(w))
    ensures var failed := Apply(trace[i], ServeFails(w));
            && Enabled(failed, Send(w))
            && var sent := Apply(failed, Send(w));
            && Enabled(sent, WakeOnError)
            && Apply(sent, WakeOnError).main.AtStop? && Apply(sent, WakeOnError).cause.ServerError?
  {
    ExecutionKeeps(trace, i);
  }

  /** Clients are evicted until the stop channel is closed. */
  lemma EvictsUntilStopped(trace: seq<Machine>, i: nat)
    requires Execution(trace) && i < |trace| && trace[i].stopCloses == 0
    ensures Enabled(trace[i], Evict) && !Enabled(trace[i], EvictorExits)
  {
    ExecutionKeeps(trace, i);
  }

  /** The stop channel is never closed twice, and when the main goroutine has
      returned, exactly one stop and one shutdown of each server have happened, in
      order. */
  lemma ShutsDownOnceInOrder(trace: seq<Machine>, i: nat)
    requires Execution(trace) && i < |trace|
    ensures trace[i].stopCloses <= 1
    ensures trace[i].main.ReturnedNil? ==>
              && trace[i].stopCloses == 1
              && exists a, b :: trace[i].actions == [StopLimiter, Shutdown(MainServer, a), Shutdown(MetricsServer, b)]
  {
    ExecutionKeeps(trace, i);
    var acts := trace[i].actions;
    if trace[i].main.ReturnedNil? {
      assert acts == [StopLimiter, Shutdown(MainServer, acts[1].expired), Shutdown(MetricsServer, acts[2].expired)];
    }
  }

  // --- whom the shutdown waits for ------------------------------------------------

  /** At some point before `i` the main goroutine was at `pc` and the shutdown
      context was done. */
  ghost predicate DoneAt(trace: seq<Machine>, i: nat, pc: Main)
    requires i <= |trace|
  {
    exists k :: 0 <= k < i && trace[k].main == pc && ContextDone(trace[k])
  }

  /** The call that makes action `a` is made at `pc`. */
  predicate MadeAt(a: nat, pc: Main) {
    (a == 1 && pc.AtShutdownMain?) || (a == 2 && pc.AtShutdownMetrics?)
  }

  lemma FlagStep(m: Machine, move: Move, a: nat, pc: Main)
    requires Inv(m) && Enabled(m, move) && MadeAt(a, pc)
    ensures var m' := Apply(m, move);
            if a < |m.actions| then
              a < |m'.actions| && m'.actions[a] == m.actions[a] && m.main != pc
            else if a < |m'.actions| then
              m.main == pc && m'.actions[a].Shutdown? && m'.actions[a].expired == ContextDone(m)
            else
              m.main == pc ==> m'.main == pc && (ContextDone(m) ==> ContextDone(m'))
  {
    hide ErrorsAccounted, FlagsAgree, WasShutDown;
  }

  lemma {:induction false} FlagExactly(trace: seq<Machine>, i: nat, a: nat, pc: Main)
    requires Execution(trace) && i < |trace| && MadeAt(a, pc)
    ensures if a < |trace[i].actions| then
              trace[i].actions[a].Shutdown? && (trace[i].actions[a].expired <==> DoneAt(trace, i, pc))
            else
              DoneAt(trace, i, pc) ==> trace[i].main == pc && ContextDone(trace[i])
  {
    hide Inv, Enabled, Apply;
    if i != 0 {
      FlagExactly(trace, i - 1, a, pc);
      ExecutionKeeps(trace, i - 1);
      assert Steps(trace[i - 1], trace[i - 1 + 1]);
      var move :| Enabled(trace[i - 1], move) && trace[i] == Apply(trace[i - 1], move);
      FlagStep(trace[i - 1], move, a, pc);
      assert DoneAt(trace, i, pc) <==>
             DoneAt(trace, i - 1, pc) || (trace[i - 1].main == pc && ContextDone(trace[i - 1]));
    }
  }

  /** Exactly when a server is shut down with a context that is already done, so
      that its connections are not waited for: when a signal, or the time limit,
      came before that call. It matters nothing what woke the main goroutine. */
  lemma ExpiredExactly(trace: seq<Machine>, i: nat)
    requires Execution(trace) && i < |trace| && trace[i].main.ReturnedNil?
    ensures var acts := trace[i].actions;
            && |acts| == 3 && acts[1].Shutdown? && acts[2].Shutdown?
            && (acts[1].expired <==> DoneAt(trace, i, AtShutdownMain))
            && (acts[2].expired <==> DoneAt(trace, i, AtShutdownMetrics))
            && (acts[1].expired ==> acts[2].expired)
  {
    hide DoneAt, ErrorsAccounted;
    ExecutionKeeps(trace, i);
    FlagExactly(trace, i, 1, AtShutdownMain);
    FlagExactly(trace, i, 2, AtShutdownMetrics);
  }

  /** Both shutdowns begin to wait exactly when neither a signal nor the time limit
      comes before the second. */
  lemma BothWaitExactly(trace: seq<Machine>, i: nat)
    requires Execution(trace) && i < |trace| && trace[i].main.ReturnedNil?
    ensures trace[i].actions == [StopLimiter, Shutdown(MainServer, false), Shutdown(MetricsServer, false)]
        <==> forall k :: 0 <= k < i && trace[k].main.AtShutdownMetrics? ==> !ContextDone(trace[k])
  {
    hide Inv;
    ExpiredExactly(trace, i);
    ShutsDownOnceInOrder(trace, i);
  }

  /** After a signal neither does. */
  lemma SignalDoesNotDrain(trace: seq<Machine>, i: nat)
    requires Execution(trace) && i < |trace|
    requires trace[i].cause.Signal? && trace[i].main.ReturnedNil?
    ensures trace[i].actions == [StopLimiter, Shutdown(MainServer, true), Shutdown(MetricsServer, true)]
  {
    ExecutionKeeps(trace, i);
    var acts := trace[i].actions;
    assert acts[1] in acts && acts[2] in acts;
  }

  lemma ShutDownCancelled(trace: seq<Machine>, busy: Which) returns (longer: seq<Machine>)
    requires Execution(trace)
    requires var m := trace[|trace| - 1];
             m.main.AtStop? && m.cancelled && m.actions == [] && !Idle(m, busy)
    ensures Execution(longer)
    ensures var m, m' := trace[|trace| - 1], longer[|longer| - 1];
            && m'.main.ReturnedNil? && m'.cause == m.cause && !Idle(m', busy)
            && m'.actions == [StopLimiter, Shutdown(MainServer, true), Shutdown(MetricsServer, true)]
  {
    longer := Extend(trace, DoStop);
    longer := Extend(longer, DoShutdown);
    longer := Extend(longer, ShutdownReturns);
    longer := Extend(longer, DoShutdown);
    longer := Extend(longer, ShutdownReturns);
  }

  /** So a signal that comes while a request is being served leaves its connection
      behind. */
  lemma SignalGivesUp(busy: Which) returns (trace: seq<Machine>)
    ensures Execution(trace) && trace != []
    ensures var m := trace[|trace| - 1];
            && m.main.ReturnedNil? && m.cause.Signal?
            && m.actions == [StopLimiter, Shutdown(MainServer, true), Shutdown(MetricsServer, true)]
            && !Idle(m, busy)
  {
    trace := [START];
    trace := Extend(trace, Connect(busy));
    trace := Extend(trace, Cancel);
    trace := Extend(trace, WakeOnSignal);
    trace := ShutDownCancelled(trace, busy);
  }

  /** A signal may also come after a server failed: what woke the main goroutine
      was the error, and still nothing is waited for. */
  lemma ErrorThenSignal(failing: Which, busy: Which) returns (trace: seq<Machine>)
    ensures Execution(trace) && trace != []
    ensures var m := trace[|trace| - 1];
            && m.main.ReturnedNil? && m.cause.ServerError?
            && m.actions == [StopLimiter, Shutdown(MainServer, true), Shutdown(MetricsServer, true)]
            && !Idle(m, busy)
  {
    trace := [START];
    trace := Extend(trace, Connect(busy));
    trace := Extend(trace, ServeFails(failing));
    trace := Extend(trace, Send(failing));
    trace := Extend(trace, WakeOnError);
    trace := Extend(trace, Cancel);
    trace := ShutDownCancelled(trace, busy);
  }

  lemma Extend(trace: seq<Machine>, move: Move) returns (longer: seq<Machine>)
    requires Execution(trace) && Enabled(trace[|trace| - 1], move)
    ensures Execution(longer) && longer[|longer| - 1] == Apply(trace[|trace| - 1], move)
  {
    var m' := Apply(trace[|trace| - 1], move);
    longer := trace + [m'];
    assert Steps(trace[|trace| - 1], m');
    forall i | 0 <= i < |longer| - 1
      ensures Steps(longer[i], longer[i + 1])
    {
      if i < |trace| - 1 {
        assert Steps(trace[i], trace[i + 1]);
      }
    }
  }

  /** Left alone by signals and the time limit, a shutdown waits until every
      connection has ended by itself. */
  lemma {:induction false} DrainCanFinish(trace: seq<Machine>, w: Which) returns (longer: seq<Machine>)
    requires Execution(trace)
    requires var m := trace[|trace| - 1];
             !ContextDone(m) && m.main == (if w.MainServer? then DrainingMain else DrainingMetrics)
    ensures Execution(longer)
    ensures var m, m' := trace[|trace| - 1], longer[|longer| - 1];
            && Idle(m', w) && !ContextDone(m') && m'.actions == m.actions
            && m'.main == (if w.MainServer? then AtShutdownMetrics else ReturnedNil)
    decreases var m := trace[|trace| - 1];
              if w in m.connections then m.connections[w] else 0
  {
    hide ErrorsAccounted, ActionsInOrder, FlagsAgree, WasShutDown;
    var m := trace[|trace| - 1];
    ExecutionKeeps(trace, |trace| - 1);
    if Idle(m, w) {
      longer := Extend(trace, ShutdownReturns);
    } else {
      longer := Extend(trace, Disconnect(w));
      longer := DrainCanFinish(longer, w);
    }
  }

  /** And it does not return before. */
  lemma WaitsForConnections(m: Machine)
    requires !ContextDone(m)
    requires (m.main.DrainingMain? && !Idle(m, MainServer)) || (m.main.DrainingMetrics? && !Idle(m, MetricsServer))
    ensures !Enabled(m, ShutdownReturns)
  {
  }

  predicate PastMain(main: Main) {
    main.AtShutdownMetrics? || main.DrainingMetrics? || main.ReturnedNil?
  }

  lemma DrainStep(m: Machine, move: Move)
    requires Inv(m) && Enabled(m, move)
    ensures var m' := Apply(m, move);
            && (PastMain(m.main) ==> PastMain(m'.main) && (Idle(m, MainServer) ==> Idle(m', MainServer)))
            && (!PastMain(m.main) && PastMain(m'.main) ==>
                  m.main.DrainingMain? && (Idle(m', MainServer) || ContextDone(m)))
            && (m.main.ReturnedNil? ==>
                  m'.main.ReturnedNil? && (Idle(m, MetricsServer) ==> Idle(m', MetricsServer)))
            && (!m.main.ReturnedNil? && m'.main.ReturnedNil? ==>
                  m.main.DrainingMetrics? && (Idle(m', MetricsServer) || ContextDone(m)))
  {
    hide WasShutDown, InOrder;
    ShutDownStaysSo(m);
  }

  lemma {:induction false} GivenUp(trace: seq<Machine>, i: nat)
    requires Execution(trace) && i < |trace|
    ensures PastMain(trace[i].main) ==> Idle(trace[i], MainServer) || DoneAt(trace, i, DrainingMain)
    ensures trace[i].main.ReturnedNil? ==> Idle(trace[i], MetricsServer) || DoneAt(trace, i, DrainingMetrics)
  {
    hide Inv, Enabled, Apply, Idle, ContextDone;
    if i != 0 {
      GivenUp(trace, i - 1);
      ExecutionKeeps(trace, i - 1);
      assert Steps(trace[i - 1], trace[i - 1 + 1]);
      var move :| Enabled(trace[i - 1], move) && trace[i] == Apply(trace[i - 1], move);
      DrainStep(trace[i - 1], move);
    }
  }

  /** The connections a server still has when the shutdown has returned were given
      up because the context was done while it was being drained. */
  lemma GivenUpOnlyWhenDone(trace: seq<Machine>, i: nat)
    requires Execution(trace) && i < |trace| && trace[i].main.ReturnedNil?
    ensures !Idle(trace[i], MainServer) ==> DoneAt(trace, i, DrainingMain)
    ensures !Idle(trace[i], MetricsServer) ==> DoneAt(trace, i, DrainingMetrics)
  {
    GivenUp(trace, i);
  }

  /** Moves left to the main goroutine once it was woken. */
  function StepsLeft(main: Main): nat {
    match main
    case AtSelect => 6
    case AtStop => 5
    case AtShutdownMain => 4
    case DrainingMain => 3
    case AtShutdownMetrics => 2
    case DrainingMetrics => 1
    case ReturnedNil => 0
  }

  predicate MovesMain(move: Move) {
    move.DoStop? || move.DoShutdown? || move.ShutdownReturns?
  }

  /** Every move of the main goroutine brings it closer to its return, and no
      other move moves it once it was woken. */
  lemma MainAdvances(m: Machine, move: Move)
    requires Inv(m) && Enabled(m, move)
    ensures if MovesMain(move) then StepsLeft(Apply(m, move).main) == StepsLeft(m.main) - 1
            else m.main.AtSelect? || Apply(m, move).main == m.main
  {
    hide Inv, WasShutDown;
  }

  lemma MainCanMove(m: Machine)
    requires !m.main.AtSelect? && !m.main.ReturnedNil?
    ensures || (exists move: Move :: MovesMain(move) && Enabled(m, move))
            || (Enabled(m, TimeOut) && Enabled(Apply(m, TimeOut), ShutdownReturns))
  {
    hide WasShutDown;
    assert || (MovesMain(DoStop) && Enabled(m, DoStop)) || (MovesMain(DoShutdown) && Enabled(m, DoShutdown))
           || (MovesMain(ShutdownReturns) && Enabled(m, ShutdownReturns)) || Enabled(m, TimeOut);
  }

  /** Once woken, the main goroutine is done in five moves. It can always make the
      next, unless it waits for connections, and then when the time limit passes
      at the latest. A server that was shut down and the evictor of a stopped
      limiter can always end. */
  lemma EverythingEnds(trace: seq<Machine>, i: nat)
    requires Execution(trace) && i < |trace|
    ensures var m := trace[i];
            && (!m.main.AtSelect? && !m.main.ReturnedNil? ==>
                  || (exists move: Move :: MovesMain(move) && Enabled(m, move))
                  || (Enabled(m, TimeOut) && Enabled(Apply(m, TimeOut), ShutdownReturns)))
            && (forall move: Move :: Enabled(m, move) ==>
                  if MovesMain(move) then StepsLeft(Apply(m, move).main) == StepsLeft(m.main) - 1
                  else m.main.AtSelect? || Apply(m, move).main == m.main)
            && (m.main.ReturnedNil? && m.evicting ==> Enabled(m, EvictorExits))
            && (m.main.ReturnedNil? ==> forall w :: w in m.serving && m.serving[w].AtServe? ==>
                  Enabled(m, ServeCloses(w)))
  {
    hide Inv, Enabled, Apply, StepsLeft, MovesMain;
    ExecutionKeeps(trace, i);
    var m := trace[i];
    if !m.main.AtSelect? && !m.main.ReturnedNil? {
      MainCanMove(m);
    }
    forall move: Move | Enabled(m, move)
      ensures if MovesMain(move) then StepsLeft(Apply(m, move).main) == StepsLeft(m.main) - 1
              else m.main.AtSelect? || Apply(m, move).main == m.main
    {
      MainAdvances(m, move);
    }
    if m.main.ReturnedNil? {
      AllCanEnd(m);
    }
  }

  lemma AllCanEnd(m: Machine)
    requires Inv(m) && m.main.ReturnedNil?
    ensures m.evicting ==> Enabled(m, EvictorExits)
    ensures forall w :: w in m.serving && m.serving[w].AtServe? ==> Enabled(m, ServeCloses(w))
  {
    hide WasShutDown;
    ShutDownStaysSo(m);
  }
}
