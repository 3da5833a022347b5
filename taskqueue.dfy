/** The `queue.Queue` the pipeline shares between its producers and the
    worker, seen from one thread at a time. */
module TaskQueues {
  import opened Wrappers
  import opened Paths

  /** The dict `{"path": …, "to": …}` that producers put on the queue. */
  datatype Task = Task(path: Path, to: Path)

  /** A queue item: `None`, the poison value, or a task. */
  datatype Entry = Poison | Job(task: Task)

  /** An unbounded FIFO queue with Python's completion tracking: every `put`
      adds one unfinished task, every `task_done` removes one. */
  class TaskQueue {
    var items: seq<Entry>
    var unfinished: nat

    /** Items still waiting are among the unfinished tasks; the rest of the
        unfinished ones have been taken by `get` and not yet acknowledged. */
    ghost predicate Valid()
      reads this
    {
      |items| <= unfinished
    }

    constructor ()
      ensures Valid() && items == [] && unfinished == 0
    {
      items := [];
      unfinished := 0;
    }

    /** `put`: never blocks, the queue has no maximum size. */
    method Put(e: Entry)
      modifies this
      ensures items == old(items) + [e]
      ensures unfinished == old(unfinished) + 1
      ensures old(Valid()) ==> Valid()
    {
      items := items + [e];
      unfinished := unfinished + 1;
    }

    /** `get(timeout=1)`: the head item, or `None` when the wait times out
        on an empty queue (Python raises `queue.Empty` there). */
    method Get() returns (e: Option<Entry>)
      modifies this
      ensures old(items) == [] ==> e == None && items == old(items)
      ensures old(items) != [] ==> e == Some(old(items)[0]) && items == old(items)[1..]
      ensures unfinished == old(unfinished)
      ensures old(Valid()) ==> Valid()
    {
      if items == [] {
        e := None;
      } else {
        e := Some(items[0]);
        items := items[1..];
      }
    }

    /** `task_done`: acknowledge one unfinished task; called more often than
        `put`, Python raises `ValueError`. */
    method TaskDone() returns (r: Outcome<Error>)
      modifies this
      ensures items == old(items)
      ensures old(unfinished) == 0 ==>
        r == Fail(ValueError("task_done() called too many times")) && unfinished == 0
      ensures old(unfinished) > 0 ==> r == Pass && unfinished == old(unfinished) - 1
    {
      if unfinished == 0 {
        r := Fail(ValueError("task_done() called too many times"));
      } else {
        unfinished := unfinished - 1;
        r := Pass;
      }
    }
  }
}
