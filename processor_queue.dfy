/** ProcessorQueue: two FIFO lanes of tickets ("file" and "console") over one processing
    function. Each lane's worker takes its head ticket, runs the function on the item and
    settles the ticket's task with the result or with the exception thrown. The two worker
    threads are modelled as step methods, one loop iteration each; the blocking take becomes
    the precondition that the lane is not empty. */
module Queueing {
  import opened DotNet
  import opened QueueingItem

  /** Each ticket sits in exactly one lane, at one position, and owns its own cell. */
  ghost predicate TicketsDistinct<T, U>(file: seq<ProcessorQueueItem<T, U>>, console: seq<ProcessorQueueItem<T, U>>)
  {
    && NoDuplicates(file)
    && NoDuplicates(console)
    && (forall t :: t in file ==> t !in console)
    && (forall t, t' :: t in file + console && t' in file + console && t != t' ==>
          t.completionSource != t'.completionSource)
  }

  /** A fresh ticket with a fresh cell, appended to one lane, keeps the tickets distinct. */
  lemma TicketsDistinctAppend<T, U>(file: seq<ProcessorQueueItem<T, U>>, console: seq<ProcessorQueueItem<T, U>>,
                                    ticket: ProcessorQueueItem<T, U>)
    requires TicketsDistinct(file, console)
    requires ticket !in file + console
    requires forall t :: t in file + console ==> t.completionSource != ticket.completionSource
    ensures TicketsDistinct(file + [ticket], console)
    ensures TicketsDistinct(file, console + [ticket])
  {
    assert forall t :: t in file + [ticket] + console ==> t in file + console || t == ticket;
    assert forall t :: t in file + (console + [ticket]) ==> t in file + console || t == ticket;
  }

  /** The head of a lane occurs nowhere else: not among the tickets its lane has taken,
      not further back in the lane, not in the other lane. */
  lemma HeadIsUnique<T, U>(taken: seq<ProcessorQueueItem<T, U>>, waiting: seq<ProcessorQueueItem<T, U>>,
                           other: seq<ProcessorQueueItem<T, U>>)
    requires NoDuplicates(taken + waiting) && waiting != []
    requires forall t :: t in taken + waiting ==> t !in other
    ensures waiting[0] !in taken && waiting[0] !in waiting[1..] && waiting[0] !in other
  {
    var s := taken + waiting;
    assert s[|taken|] == waiting[0];
    assert forall i :: 0 <= i < |taken| ==> taken[i] == s[i] != s[|taken|];
    assert forall j :: 0 <= j < |waiting[1..]| ==> waiting[1..][j] == s[|taken| + 1 + j] != s[|taken|];
  }

  class ProcessorQueue<T, U> {
    /** The file lane and the console lane: tickets submitted and not yet taken, head first. */
    var fileQueue: seq<ProcessorQueueItem<T, U>>
    var consoleQueue: seq<ProcessorQueueItem<T, U>>
    /** The processing function, fixed at construction; a thrown exception is an `Err`. */
    const processFunction: T -> Result<U>

    /** Tickets each lane's worker has taken, in the order it took them. */
    ghost var fileTaken: seq<ProcessorQueueItem<T, U>>
    ghost var consoleTaken: seq<ProcessorQueueItem<T, U>>
    /** The queue, every ticket it has handed out and every ticket's completion cell. */
    ghost var Repr: set<object>

    /** Every ticket ever submitted to the file lane, in submission order. */
    ghost function FileSubmitted(): seq<ProcessorQueueItem<T, U>>
      reads this
    {
      fileTaken + fileQueue
    }

    /** Every ticket ever submitted to the console lane, in submission order. */
    ghost function ConsoleSubmitted(): seq<ProcessorQueueItem<T, U>>
      reads this
    {
      consoleTaken + consoleQueue
    }

    /** Every ticket of both lanes, taken or waiting. */
    ghost function AllTickets(): seq<ProcessorQueueItem<T, U>>
      reads this
    {
      FileSubmitted() + ConsoleSubmitted()
    }

    /** The queue's invariant: tickets are distinct and owned by the queue; waiting tickets
        are pending; every taken ticket's task is settled with exactly what the processing
        function made of its item. */
    ghost predicate Valid()
      reads this, Repr
    {
      && this in Repr
      && (forall t :: t in AllTickets() ==> t in Repr && t.completionSource in Repr)
      && TicketsDistinct(FileSubmitted(), ConsoleSubmitted())
      && (forall t :: t in fileQueue + consoleQueue ==> t.completionSource.state.Pending?)
      && (forall t :: t in fileTaken + consoleTaken ==>
            t.completionSource.state == Settled(processFunction(t.item)))
    }

    /** Stores the processing function; both lanes start empty. (Starting the two
        long-running worker tasks is not modelled: see the step methods.) */
    constructor (processFunction: T -> Result<U>)
      ensures Valid() && fresh(Repr)
      ensures this.processFunction == processFunction
      ensures fileQueue == [] && consoleQueue == [] && fileTaken == [] && consoleTaken == []
    {
      this.processFunction := processFunction;
      fileQueue, consoleQueue := [], [];
      fileTaken, consoleTaken := [], [];
      Repr := {this};
    }

    /** QueueFileItem: wraps `item` in a new ticket, appends it to the tail of the file lane
        and returns the ticket's pending task. Submission cannot fail: the lane is unbounded. */
    method QueueFileItem(item: T) returns (task: CompletionSource<U>)
      requires Valid()
      modifies this
      ensures Valid() && fresh(Repr - old(Repr))
      ensures fresh(task) && task.state.Pending?
      ensures |fileQueue| == |old(fileQueue)| + 1 && fileQueue[..|old(fileQueue)|] == old(fileQueue)
      ensures var ticket := fileQueue[|old(fileQueue)|];
                fresh(ticket) && ticket.item == item && ticket.completionSource == task
      ensures Items(FileSubmitted()) == old(Items(FileSubmitted())) + [item]
      ensures consoleQueue == old(consoleQueue)
      ensures fileTaken == old(fileTaken) && consoleTaken == old(consoleTaken)
    {
      var processorQueueItem := new ProcessorQueueItem(item);
      TicketsDistinctAppend(FileSubmitted(), ConsoleSubmitted(), processorQueueItem);
      fileQueue := fileQueue + [processorQueueItem];
      Repr := Repr + {processorQueueItem, processorQueueItem.completionSource};
      task := processorQueueItem.completionSource;
      assert FileSubmitted() == old(FileSubmitted()) + [processorQueueItem];
      ItemsAppend(old(FileSubmitted()), [processorQueueItem]);
    }

    /** QueueConsoleItem: the same for the console lane. */
    method QueueConsoleItem(item: T) returns (task: CompletionSource<U>)
      requires Valid()
      modifies this
      ensures Valid() && fresh(Repr - old(Repr))
      ensures fresh(task) && task.state.Pending?
      ensures |consoleQueue| == |old(consoleQueue)| + 1 && consoleQueue[..|old(consoleQueue)|] == old(consoleQueue)
      ensures var ticket := consoleQueue[|old(consoleQueue)|];
                fresh(ticket) && ticket.item == item && ticket.completionSource == task
      ensures Items(ConsoleSubmitted()) == old(Items(ConsoleSubmitted())) + [item]
      ensures fileQueue == old(fileQueue)
      ensures fileTaken == old(fileTaken) && consoleTaken == old(consoleTaken)
    {
      var processorQueueItem := new ProcessorQueueItem(item);
      TicketsDistinctAppend(FileSubmitted(), ConsoleSubmitted(), processorQueueItem);
      consoleQueue := consoleQueue + [processorQueueItem];
      Repr := Repr + {processorQueueItem, processorQueueItem.completionSource};
      task := processorQueueItem.completionSource;
      assert ConsoleSubmitted() == old(ConsoleSubmitted()) + [processorQueueItem];
      ItemsAppend(old(ConsoleSubmitted()), [processorQueueItem]);
    }

    /** One iteration of ProcessFileQueue's loop: take the head ticket of the file lane and
        settle it. The rest of the lane, the console lane and every other ticket's task are
        left as they were; a failed item leaves the queue valid, so the loop goes on. */
    method ProcessFileQueueStep()
      requires Valid() && fileQueue != []
      modifies this, fileQueue[0].completionSource
      ensures Valid() && Repr == old(Repr)
      ensures fileQueue == old(fileQueue)[1..]
      ensures fileTaken == old(fileTaken) + [old(fileQueue)[0]]
      ensures FileSubmitted() == old(FileSubmitted())
      ensures consoleQueue == old(consoleQueue) && consoleTaken == old(consoleTaken)
      ensures var head := old(fileQueue)[0];
                old(head.completionSource.state).Pending? &&
                head.completionSource.state == Settled(processFunction(head.item))
      ensures forall t :: t in old(AllTickets()) && t != old(fileQueue)[0] ==>
                t.completionSource.state == old(t.completionSource.state)
    {
      var queueItem := fileQueue[0];
      HeadIsUnique(fileTaken, fileQueue, ConsoleSubmitted());
      assert fileQueue == [queueItem] + fileQueue[1..];
      fileQueue := fileQueue[1..];
      fileTaken := fileTaken + [queueItem];
      assert FileSubmitted() == old(FileSubmitted());
      assert forall t :: t in AllTickets() && t != queueItem ==> t.completionSource != queueItem.completionSource;
      ProcessItem(queueItem);
    }

    /** One iteration of ProcessConsoleQueue's loop, the same for the console lane. */
    method ProcessConsoleQueueStep()
      requires Valid() && consoleQueue != []
      modifies this, consoleQueue[0].completionSource
      ensures Valid() && Repr == old(Repr)
      ensures consoleQueue == old(consoleQueue)[1..]
      ensures consoleTaken == old(consoleTaken) + [old(consoleQueue)[0]]
      ensures ConsoleSubmitted() == old(ConsoleSubmitted())
      ensures fileQueue == old(fileQueue) && fileTaken == old(fileTaken)
      ensures var head := old(consoleQueue)[0];
                old(head.completionSource.state).Pending? &&
                head.completionSource.state == Settled(processFunction(head.item))
      ensures forall t :: t in old(AllTickets()) && t != old(consoleQueue)[0] ==>
                t.completionSource.state == old(t.completionSource.state)
    {
      var queueItem := consoleQueue[0];
      HeadIsUnique(consoleTaken, consoleQueue, FileSubmitted());
      assert consoleQueue == [queueItem] + consoleQueue[1..];
      consoleQueue := consoleQueue[1..];
      consoleTaken := consoleTaken + [queueItem];
      assert ConsoleSubmitted() == old(ConsoleSubmitted());
      assert forall t :: t in AllTickets() && t != queueItem ==> t.completionSource != queueItem.completionSource;
      ProcessItem(queueItem);
    }

    /** The body shared by both worker loops: run the processing function on the ticket's
        item; a normal return completes the task with the result, an exception faults it. */
    method ProcessItem(queueItem: ProcessorQueueItem<T, U>)
      requires queueItem.completionSource.state.Pending?
      modifies queueItem.completionSource
      ensures queueItem.completionSource.state == Settled(processFunction(queueItem.item))
    {
      var obj := queueItem.item;
      var tcs := queueItem.completionSource;
      match processFunction(obj)
      case Ok(result) =>
        tcs.SetResult(result);
      case Err(ex) =>
        tcs.SetException(ex);
    }
  }

  /** A worker survives a failing item: on a fresh queue, a file item whose processing throws
      followed by one that succeeds leaves the first task faulted with the exception and the
      second resolved with the result, after two iterations of the file worker; a console
      item submitted meanwhile stays pending, as only its own worker settles it. */
  method FailedItemDoesNotStopLane<T, U>(processFunction: T -> Result<U>, bad: T, good: T, other: T)
    returns (badState: TaskState<U>, goodState: TaskState<U>, otherState: TaskState<U>)
    requires processFunction(bad).Err? && processFunction(good).Ok?
    ensures badState == Failed(processFunction(bad).error)
    ensures goodState == Resolved(processFunction(good).value)
    ensures otherState.Pending?
  {
    var queue := new ProcessorQueue(processFunction);
    var badTask := queue.QueueFileItem(bad);
    var goodTask := queue.QueueFileItem(good);
    var otherTask := queue.QueueConsoleItem(other);
    queue.ProcessFileQueueStep();
    queue.ProcessFileQueueStep();
    badState, goodState, otherState := badTask.state, goodTask.state, otherTask.state;
  }
}
