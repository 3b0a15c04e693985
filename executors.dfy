/**
 * Executor selection for the timed operation: the completion handler's
 * associated executor if it has one, else the associated executor of the
 * wrapped operation's initiation, else the default (system) executor.
 */
module Executors {
  import opened Wrappers

  /** An executor: the process-wide system executor or one bound to an execution context. */
  datatype Executor = SystemExecutor | ContextExecutor(context: nat)

  /** `get_associated_executor(obj, fallback)`: the object's own executor, or the fallback. */
  function AssociatedExecutor(associated: Option<Executor>, fallback: Executor): Executor {
    match associated
    case Some(ex) => ex
    case None => fallback
  }

  /**
   * `get_associated_executor(handler, get_associated_executor(initiation))`,
   * where the inner call falls back to the system executor.
   */
  function SelectExecutor(handlerEx: Option<Executor>, initiationEx: Option<Executor>): (ex: Executor)
    ensures handlerEx.Some? ==> ex == handlerEx.value
    ensures handlerEx.None? && initiationEx.Some? ==> ex == initiationEx.value
    ensures handlerEx.None? && initiationEx.None? ==> ex == SystemExecutor
  {
    AssociatedExecutor(handlerEx, AssociatedExecutor(initiationEx, SystemExecutor))
  }

  /** Reference definition of a fallback chain: the first candidate present, else the default. */
  function FirstPresent(candidates: seq<Option<Executor>>, default: Executor): (ex: Executor)
    ensures (forall k | 0 <= k < |candidates| :: candidates[k].None?) ==> ex == default
    ensures (exists k | 0 <= k < |candidates| :: candidates[k].Some?) ==>
              exists k | 0 <= k < |candidates| ::
                candidates[k] == Some(ex) && forall j | 0 <= j < k :: candidates[j].None?
    decreases |candidates|
  {
    if candidates == [] then default
    else if candidates[0].Some? then candidates[0].value
    else FirstPresent(candidates[1..], default)
  }

  /** The selection is the fallback chain handler, then initiation, then system executor. */
  lemma {:induction false} SelectExecutorIsFallbackChain(handlerEx: Option<Executor>, initiationEx: Option<Executor>)
    ensures SelectExecutor(handlerEx, initiationEx) == FirstPresent([handlerEx, initiationEx], SystemExecutor)
  {
    var cs := [handlerEx, initiationEx];
    assert cs[1..] == [initiationEx];
    assert cs[1..][1..] == [];
  }
}
