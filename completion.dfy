/**
 * The state one call of `timed_initiation::operator()` sets up, and the
 * completion handler of the parallel group that races the timer wait
 * (branch 0) against the wrapped operation (branch 1).
 *
 * The race itself (which branch finishes first, cancelling the other) is
 * not modelled; the group's completion handler is. It receives the
 * completion order, the timer's error code and the wrapped operation's
 * results, releases the shared timer and then hands the wrapped
 * operation's results, unchanged, to the caller's handler. There is no
 * separate timeout outcome: when the timer wins, the caller sees whatever
 * the cancelled operation reported.
 */
module Timed {
  import opened Wrappers
  import opened Executors

  /** A `std::error_code`, by its value (0 means success). */
  datatype ErrorCode = ErrorCode(value: int)

  /** The group's completion order: the indexes of its two branches, first finisher first. */
  datatype CompletionOrder = CompletionOrder(first: nat, second: nat)

  /** A branch of the parallel group, with the executor it is bound to. */
  datatype Branch = TimerWait(executor: Executor) | UnderlyingOperation(executor: Executor)

  /** What the group's completion handler does, in order. */
  datatype Event<R> = TimerReleased | HandlerInvoked(results: seq<R>)

  /** The timer, constructed on the selected executor. */
  class SteadyTimer {
    const executor: Executor

    constructor (ex: Executor)
      ensures executor == ex
    {
      executor := ex;
    }
  }

  /** The result tuples the caller's handler received, in the order it received them. */
  function Invocations<R>(trace: seq<Event<R>>): (calls: seq<seq<R>>)
    ensures |calls| <= |trace|
    ensures forall k | 0 <= k < |calls| :: HandlerInvoked(calls[k]) in trace
    decreases |trace|
  {
    if trace == [] then []
    else
      var earlier := Invocations(trace[..|trace| - 1]);
      match trace[|trace| - 1]
      case HandlerInvoked(results) => earlier + [results]
      case TimerReleased => earlier
  }

  /** Appending one event adds at most that event's results to the invocations. */
  lemma {:induction false} InvocationsAppend<R>(trace: seq<Event<R>>, e: Event<R>)
    ensures Invocations(trace + [e]) ==
            Invocations(trace) + (if e.HandlerInvoked? then [e.results] else [])
  {
    assert (trace + [e])[..|trace|] == trace;
  }

  /** Every handler invocation in `trace` comes after a release of the timer. */
  ghost predicate ReleasedBeforeInvoked<R>(trace: seq<Event<R>>) {
    forall i | 0 <= i < |trace| && trace[i].HandlerInvoked? :: TimerReleased in trace[..i]
  }

  /**
   * The first event of any trace that keeps release-before-invocation is the
   * timer's release, so a trace without a release is still empty.
   */
  lemma {:induction false} ReleaseComesFirst<R>(trace: seq<Event<R>>)
    requires ReleasedBeforeInvoked(trace)
    ensures trace != [] ==> trace[0] == TimerReleased
  {
    if trace != [] {
      var first := trace[0];
      assert trace[..0] == [];
    }
  }

  /**
   * The completion object: the handler's captures (`handler`, `timer`) and
   * the executor choice it shares with both branches of the group.
   */
  class TimedCompletion<R> {
    /** The one executor chosen for the whole operation. */
    const executor: Executor
    /** The two branches of the parallel group. */
    const branches: seq<Branch>
    /** The captured shared reference to the timer; null once released. */
    var timer: SteadyTimer?
    /** What the completion handler has done so far. */
    var trace: seq<Event<R>>

    ghost predicate Valid()
      reads this
    {
      && branches == [TimerWait(executor), UnderlyingOperation(executor)]
      && (timer != null ==> timer.executor == executor)
      && (timer == null <==> TimerReleased in trace)
      && ReleasedBeforeInvoked(trace)
      && |Invocations(trace)| <= 1
    }

    /** The result tuples delivered to the caller's handler so far. */
    function Delivered(): seq<seq<R>>
      reads this
    {
      Invocations(trace)
    }

    /**
     * `timed_initiation::operator()` up to the start of the race: choose the
     * executor once, construct the timer on it and bind both branches to it.
     */
    constructor (handlerEx: Option<Executor>, initiationEx: Option<Executor>)
      ensures Valid()
      ensures executor == SelectExecutor(handlerEx, initiationEx)
      ensures timer != null && fresh(timer) && timer.executor == executor
      ensures branches == [TimerWait(executor), UnderlyingOperation(executor)]
      ensures trace == [] && Delivered() == []
    {
      var ex := SelectExecutor(handlerEx, initiationEx);
      executor := ex;
      branches := [TimerWait(ex), UnderlyingOperation(ex)];
      timer := new SteadyTimer(ex);
      trace := [];
    }

    /** `timer.reset()`: drop the captured reference to the timer. */
    method ResetTimer()
      requires Valid() && timer != null
      modifies this
      ensures Valid()
      ensures timer == null
      ensures old(trace) == [] && trace == [TimerReleased]
      ensures Delivered() == []
    {
      ReleaseComesFirst(trace);
      InvocationsAppend(trace, TimerReleased);
      timer := null;
      trace := trace + [TimerReleased];
    }

    /** `std::move(handler)(results...)`: the caller's handler runs, once. */
    method InvokeHandler(results: seq<R>)
      requires Valid() && timer == null && Delivered() == []
      modifies this
      ensures Valid()
      ensures timer == null
      ensures trace == old(trace) + [HandlerInvoked(results)]
      ensures Delivered() == [results]
    {
      InvocationsAppend(trace, HandlerInvoked(results));
      trace := trace + [HandlerInvoked(results)];
    }

    /**
     * The group's completion handler. The completion order and the timer's
     * error code are ignored whichever branch finished first; the timer is
     * released and then the handler receives exactly the wrapped
     * operation's results.
     */
    method Complete(order: CompletionOrder, timerEc: ErrorCode, results: seq<R>)
      requires Valid() && timer != null
      modifies this
      ensures Valid()
      ensures timer == null
      ensures trace == [TimerReleased, HandlerInvoked(results)]
      ensures Delivered() == [results]
    {
      ResetTimer();
      InvokeHandler(results);
    }
  }
}
