/** The ticket the queue hands around: one submitted item and the write-once completion
    cell (a TaskCompletionSource) whose task the submitter holds as its future. */
module QueueingItem {
  import opened DotNet

  /** The observable state of a completion cell's task. `Pending` until the queue's worker
      settles it; `Resolved` and `Failed` are terminal. */
  datatype TaskState<U> = Pending | Resolved(result: U) | Failed(exception: Exception)

  /** The state a task settles in once the processing function returned (`Ok`) or threw (`Err`). */
  function Settled<U>(outcome: Result<U>): TaskState<U>
  {
    match outcome
    case Ok(result) => Resolved(result)
    case Err(exception) => Failed(exception)
  }

  /** One allowed change of a task's state: none at all, or from pending to a terminal state. */
  ghost predicate Transition<U>(before: TaskState<U>, after: TaskState<U>)
  {
    before == after || (before.Pending? && !after.Pending?)
  }

  /** Write-once: any number of allowed changes amounts to at most one, and a terminal
      state never changes again. */
  lemma TransitionsCompose<U>(s0: TaskState<U>, s1: TaskState<U>, s2: TaskState<U>)
    requires Transition(s0, s1) && Transition(s1, s2)
    ensures Transition(s0, s2)
    ensures !s0.Pending? ==> s2 == s0
  {
  }

  /** A TaskCompletionSource: a cell written at most once, by SetResult or SetException. */
  class CompletionSource<U> {
    var state: TaskState<U>

    constructor ()
      ensures state.Pending?
    {
      state := Pending;
    }

    /** Completes the task with a result; the queue calls it only on a pending task. */
    method SetResult(result: U)
      requires state.Pending?
      modifies this
      ensures state == Resolved(result)
      ensures Transition(old(state), state)
    {
      state := Resolved(result);
    }

    /** Completes the task with an exception; the queue calls it only on a pending task. */
    method SetException(exception: Exception)
      requires state.Pending?
      modifies this
      ensures state == Failed(exception)
      ensures Transition(old(state), state)
    {
      state := Failed(exception);
    }
  }

  /** ProcessorQueueItem: the item paired with a completion cell of its own. Both are set
      by the constructor and never reassigned afterwards, so they are constants here. */
  class ProcessorQueueItem<T, U> {
    const item: T
    const completionSource: CompletionSource<U>

    constructor (item: T)
      ensures this.item == item
      ensures fresh(completionSource) && completionSource.state.Pending?
    {
      this.item := item;
      completionSource := new CompletionSource();
    }
  }

  /** The items a sequence of tickets carries, in the same order. */
  function Items<T, U>(tickets: seq<ProcessorQueueItem<T, U>>): seq<T>
  {
    seq(|tickets|, i requires 0 <= i < |tickets| => tickets[i].item)
  }

  /** No ticket occurs twice. */
  ghost predicate NoDuplicates<X>(s: seq<X>)
  {
    forall i, j :: 0 <= i < j < |s| ==> s[i] != s[j]
  }

  lemma ItemsAppend<T, U>(a: seq<ProcessorQueueItem<T, U>>, b: seq<ProcessorQueueItem<T, U>>)
    ensures Items(a + b) == Items(a) + Items(b)
  {
    assert forall i :: 0 <= i < |a + b| ==> Items(a + b)[i] == (Items(a) + Items(b))[i];
  }
}
