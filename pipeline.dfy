/** The control logic of main.py: the handler that waits for a new file to
    settle before queueing it, the startup reconciliation pass, the naming
    rule of `create_thumb`, and the worker that drains the queue.

    Collaborators the model cannot see are inputs: `get_processable_raw`
    and `is_processable_raw` are function parameters, the filesystem is a
    snapshot, `getsize` answers come from an oracle sequence, whether
    `create_thumb` raises for a task is a predicate, and the moment another
    thread sets `stop_flag` is a count of loop-head checks. */
module Pipeline {
  import opened Wrappers
  import opened Paths
  import opened Utils
  import opened TaskQueues
  import opened Stability

  // ---------------------------------------------------------------------
  // create_thumb: where the thumbnail goes

  /** `to / (path.stem + ".jpg")`. */
  function ThumbPath(path: Path, to: Path): Path
  {
    Join(to, Stem(path) + ".jpg")
  }

  /** The thumbnail of a file keeps the file's stem and is a ".jpg" in `to`;
      a second source with the same stem (say a.nef and a.cr2) is written to
      the same place and overwrites it, since nothing checks for it first. */
  lemma {:induction false} ThumbPathKeepsStem(path: Path, to: Path)
    requires Name(path) != ""
    ensures Name(ThumbPath(path, to)) == Stem(path) + ".jpg"
    ensures Stem(ThumbPath(path, to)) == Stem(path)
    ensures Suffix(ThumbPath(path, to)) == ".jpg"
    ensures forall other :: Stem(other) == Stem(path) ==> ThumbPath(other, to) == ThumbPath(path, to)
  {
    StemOfExtended(to, Stem(path), ".jpg");
  }

  // ---------------------------------------------------------------------
  // init_img_proc: which sources the startup pass queues

  function SetOf(paths: seq<Path>): set<Path>
  {
    set p | p in paths
  }

  /** The stems of the images already in the destination. */
  function Stems(paths: seq<Path>): set<string>
  {
    set p | p in paths :: Stem(p)
  }

  /** The sources whose stem has no image in the destination. */
  function MissingThumbs(sources: set<Path>, doneStems: set<string>): set<Path>
  {
    set p | p in sources && Stem(p) !in doneStems
  }

  /** The pass never invents work: it queues sources only, and every source
      it leaves out has its stem done. */
  lemma MissingThumbsSplitsSources(sources: set<Path>, doneStems: set<string>)
    ensures MissingThumbs(sources, doneStems) <= sources
    ensures forall p :: p in sources && p !in MissingThumbs(sources, doneStems) ==> Stem(p) in doneStems
  {
  }

  /** An empty destination gets every source queued, and the more stems the
      destination holds, the less is queued. */
  lemma MissingThumbsShrinks(sources: set<Path>, fewer: set<string>, more: set<string>)
    requires fewer <= more
    ensures MissingThumbs(sources, {}) == sources
    ensures MissingThumbs(sources, more) <= MissingThumbs(sources, fewer)
  {
  }

  predicate Distinct<T(==)>(s: seq<T>)
  {
    forall i, j :: 0 <= i < j < |s| ==> s[i] != s[j]
  }

  /** The queue items `init_img_proc` puts for a list of sources. */
  function JobsFor(paths: seq<Path>, to: Path): seq<Entry>
  {
    seq(|paths|, i requires 0 <= i < |paths| => Job(Task(paths[i], to)))
  }

  /** Queueing two lists of sources one after the other queues their
      concatenation. */
  lemma JobsForAppend(a: seq<Path>, b: seq<Path>, to: Path)
    ensures JobsFor(a + b, to) == JobsFor(a, to) + JobsFor(b, to)
  {
  }

  /** Queueing one more source appends its item. */
  lemma JobsForSnoc(paths: seq<Path>, k: nat, to: Path)
    requires k < |paths|
    ensures JobsFor(paths[..k + 1], to) == JobsFor(paths[..k], to) + [Job(Task(paths[k], to))]
  {
    assert JobsFor(paths[..k + 1], to)[..k] == JobsFor(paths[..k], to);
  }

  /** A source whose thumbnail `create_thumb` has written into `to` (and
      which `to` still lists as a file) is not queued again at startup. */
  lemma {:induction false} WrittenThumbIsReconciled(fs: FileSystem, to: Path, path: Path, sources: set<Path>)
    requires Name(path) != ""
    requires IsDir(fs, to) && ThumbPath(path, to) in fs[to].entries && IsFile(fs, ThumbPath(path, to))
    ensures path !in MissingThumbs(sources, Stems(ProcessableEntries(fs, fs[to].entries)))
  {
    var dest := ThumbPath(path, to);
    var kept := ProcessableEntries(fs, fs[to].entries);
    ThumbPathKeepsStem(path, to);
    JpgIsProcessable(dest);
    ProcessableEntriesMembers(fs, fs[to].entries, dest);
    assert dest in kept;
    assert Stem(path) in Stems(kept);
  }

  /** A one-image destination contributes exactly that image's stem. */
  lemma StemsOfOne(p: Path)
    ensures Stems([p]) == {Stem(p)}
  {
    assert forall q :: q in [p] <==> q == p;
  }

  /** Of three sources, the one whose stem is done is dropped and the other
      two are kept. */
  lemma {:induction false} MissingOfThree(x: Path, y: Path, z: Path, doneStems: set<string>)
    requires Stem(x) in doneStems && Stem(y) !in doneStems && Stem(z) !in doneStems
    ensures MissingThumbs({x, y, z}, doneStems) == {y, z}
  {
    var missing := MissingThumbs({x, y, z}, doneStems);
    assert y in missing && z in missing;
    assert forall q :: q in missing ==> q == y || q == z;
  }

  /** The comparison is by stem alone: with sources a.nef, b.nef and c.jpg
      and a destination holding a.png, the pass queues exactly b.nef and
      c.jpg; a.nef is skipped although its thumbnail would be a.jpg. */
  lemma {:induction false} ReconcileComparesStems(dir: Path, out: Path, a: string, b: string, c: string)
    requires a != [] && b != [] && c != [] && '/' !in a && '/' !in b && '/' !in c
    requires a != b && a != c
    ensures
      var aRaw, bRaw, cJpg := Join(dir, a + ".nef"), Join(dir, b + ".nef"), Join(dir, c + ".jpg");
      MissingThumbs({aRaw, bRaw, cJpg}, Stems([Join(out, a + ".png")])) == {bRaw, cJpg}
  {
    StemOfExtended(dir, a, ".nef");
    StemOfExtended(dir, b, ".nef");
    StemOfExtended(dir, c, ".jpg");
    StemOfExtended(out, a, ".png");
    StemsOfOne(Join(out, a + ".png"));
    MissingOfThree(Join(dir, a + ".nef"), Join(dir, b + ".nef"), Join(dir, c + ".jpg"),
                   Stems([Join(out, a + ".png")]));
  }

  /** `init_img_proc`: collect the raw sources into a set, drop those whose
      stem is among the destination's processable images, queue the rest.
      A destination that is not a directory makes `get_processable_img`
      raise, and nothing is queued. */
  method InitImgProc(fs: FileSystem, fromDir: Path, to: Path, taskQueue: TaskQueue,
                     getProcessableRaw: Path -> seq<Path>)
    returns (r: Outcome<Error>, ghost enqueued: seq<Path>)
    modifies taskQueue
    ensures old(taskQueue.Valid()) ==> taskQueue.Valid()
    ensures !IsDir(fs, to) ==>
      && r == Fail(ValueError("Not path"))
      && taskQueue.items == old(taskQueue.items) && taskQueue.unfinished == old(taskQueue.unfinished)
    ensures IsDir(fs, to) ==>
      && r == Pass
      && taskQueue.items == old(taskQueue.items) + JobsFor(enqueued, to)
      && taskQueue.unfinished == old(taskQueue.unfinished) + |enqueued|
      && Distinct(enqueued)
      && forall p :: p in enqueued <==>
           p in MissingThumbs(SetOf(getProcessableRaw(fromDir)), Stems(ProcessableEntries(fs, fs[to].entries)))
  {
    var imgsFrom := SetOf(getProcessableRaw(fromDir));
    var listing := GetProcessableImg(fs, to);
    if listing.Failure? {
      return Fail(listing.error), [];
    }
    var imgsToStem := Stems(listing.value);
    ghost var missing := MissingThumbs(imgsFrom, imgsToStem);
    assert missing == MissingThumbs(SetOf(getProcessableRaw(fromDir)), Stems(ProcessableEntries(fs, fs[to].entries)));
    var imgsToProc: seq<Path> := [];
    var pending := imgsFrom;
    while pending != {}
      invariant pending <= imgsFrom
      invariant Distinct(imgsToProc)
      invariant forall p :: p in imgsToProc <==> p in imgsFrom - pending && Stem(p) !in imgsToStem
      decreases pending
    {
      var i :| i in pending;
      pending := pending - {i};
      if Stem(i) !in imgsToStem {
        assert i !in imgsToProc;
        imgsToProc := imgsToProc + [i];
      }
    }
    assert forall p :: p in imgsToProc <==> p in missing;
    for k := 0 to |imgsToProc|
      invariant taskQueue.items == old(taskQueue.items) + JobsFor(imgsToProc[..k], to)
      invariant taskQueue.unfinished == old(taskQueue.unfinished) + k
      invariant old(taskQueue.Valid()) ==> taskQueue.Valid()
    {
      taskQueue.Put(Job(Task(imgsToProc[k], to)));
      JobsForSnoc(imgsToProc, k, to);
    }
    assert imgsToProc[..|imgsToProc|] == imgsToProc;
    return Pass, imgsToProc;
  }

  // ---------------------------------------------------------------------
  // ImgCreateHandler: wait for a new file to settle, then queue it

  class ImgCreateHandler {
    const fromDir: Path
    const to: Path
    const taskQueue: TaskQueue

    constructor (fromDir: Path, to: Path, taskQueue: TaskQueue)
      ensures this.fromDir == fromDir && this.to == to && this.taskQueue == taskQueue
    {
      this.fromDir := fromDir;
      this.to := to;
      this.taskQueue := taskQueue;
    }

    /** `wait_for_complete`: poll the size, sleeping between polls, until a
        poll repeats the previous one. Returns how the wait ended. */
    method WaitForComplete(samples: seq<SizeSample>) returns (w: WaitOutcome)
      ensures w == Wait(samples)
    {
      var previousSize: int := -1;
      var polls: nat := 0;
      var sleeps: nat := 0;
      while polls < |samples|
        invariant polls <= |samples| && sleeps == polls
        invariant Poll(samples, polls, previousSize) == Wait(samples)
      {
        var sample := samples[polls];
        polls := polls + 1;
        match sample
        case Vanished =>
          return StatFailed(polls, sleeps);
        case Size(currentSize) =>
          if currentSize == previousSize {
            return Complete(polls, sleeps);
          }
          previousSize := currentSize;
          sleeps := sleeps + 1;
      }
      return Unsettled(polls, sleeps);
    }

    /** `wait_and_process`: once the file has settled, queue it for this
        handler's destination if it is a processable raw file. */
    method WaitAndProcess(path: Path, samples: seq<SizeSample>, isProcessableRaw: Path -> bool)
      returns (w: WaitOutcome)
      modifies taskQueue
      ensures w == Wait(samples)
      ensures w.Complete? && isProcessableRaw(path) ==>
        && taskQueue.items == old(taskQueue.items) + [Job(Task(path, to))]
        && taskQueue.unfinished == old(taskQueue.unfinished) + 1
      ensures !(w.Complete? && isProcessableRaw(path)) ==>
        taskQueue.items == old(taskQueue.items) && taskQueue.unfinished == old(taskQueue.unfinished)
    {
      w := WaitForComplete(samples);
      if w.Complete? && isProcessableRaw(path) {
        taskQueue.Put(Job(Task(path, to)));
      }
    }
  }

  // ---------------------------------------------------------------------
  // worker: drain the queue

  datatype WorkerExit =
    | Poisoned   // took `None`, acknowledged it and left the loop
    | Stopped    // found `stop_flag` set at the loop head

  function Min(a: int, b: int): int
  {
    if a <= b then a else b
  }

  /** Index of the first `None` in the queue, or its length if there is none. */
  function FirstPoison(s: seq<Entry>): (k: nat)
    ensures k <= |s|
    ensures k < |s| ==> s[k].Poison?
    ensures forall j :: 0 <= j < k ==> s[j].Job?
  {
    if s == [] then 0
    else if s[0].Poison? then 0
    else 1 + FirstPoison(s[1..])
  }

  /** The worker reaches the `None` before the stop flag is seen. */
  predicate PoisonedWithin(s: seq<Entry>, stopSetAt: nat)
  {
    FirstPoison(s) < |s| && FirstPoison(s) < stopSetAt
  }

  /** How many items a run takes from the queue: one per pass that finds an
      item, up to and including the `None`; passes that find the queue empty
      take nothing. */
  function Taken(s: seq<Entry>, stopSetAt: nat): (k: nat)
    ensures k <= |s| && k <= stopSetAt
  {
    if PoisonedWithin(s, stopSetAt) then FirstPoison(s) + 1 else Min(stopSetAt, |s|)
  }

  /** The tasks among some queue items, in queue order. */
  function JobsOf(s: seq<Entry>): (r: seq<Task>)
    ensures |r| <= |s|
  {
    if s == [] then []
    else JobsOf(s[..|s| - 1]) + (if s[|s| - 1].Job? then [s[|s| - 1].task] else [])
  }

  /** The tasks for which `create_thumb` returns, in order. */
  function Succeeded(ts: seq<Task>, fails: Task -> bool): (r: seq<Task>)
    ensures |r| <= |ts|
  {
    if ts == [] then []
    else Succeeded(ts[..|ts| - 1], fails) + (if fails(ts[|ts| - 1]) then [] else [ts[|ts| - 1]])
  }

  /** The tasks for which `create_thumb` raises, in order. */
  function Failed(ts: seq<Task>, fails: Task -> bool): (r: seq<Task>)
    ensures |r| <= |ts|
  {
    if ts == [] then []
    else Failed(ts[..|ts| - 1], fails) + (if fails(ts[|ts| - 1]) then [ts[|ts| - 1]] else [])
  }

  /** The thumbnails written for some tasks, in order. */
  function ThumbPaths(ts: seq<Task>): (r: seq<Path>)
    ensures |r| == |ts|
  {
    if ts == [] then []
    else ThumbPaths(ts[..|ts| - 1]) + [ThumbPath(ts[|ts| - 1].path, ts[|ts| - 1].to)]
  }

  /** Every task ahead of the first `None` is taken in queue order: the
      tasks of the first k items, for k up to the `None`, are exactly those
      items' tasks. */
  lemma {:induction false} JobsBeforePoison(s: seq<Entry>, k: nat)
    requires k <= FirstPoison(s)
    ensures |JobsOf(s[..k])| == k
    ensures forall i :: 0 <= i < k ==> JobsOf(s[..k])[i] == s[i].task
  {
    if k > 0 {
      assert s[..k][..k - 1] == s[..k - 1];
      JobsBeforePoison(s, k - 1);
    }
  }

  /** A run that meets the `None` takes it and nothing after it, and has
      attempted exactly the tasks ahead of it. */
  lemma {:induction false} PoisonEndsTheRun(s: seq<Entry>, stopSetAt: nat)
    requires PoisonedWithin(s, stopSetAt)
    ensures Taken(s, stopSetAt) == FirstPoison(s) + 1
    ensures s[Taken(s, stopSetAt) - 1] == Poison
    ensures JobsOf(s[..Taken(s, stopSetAt)]) == JobsOf(s[..FirstPoison(s)])
    ensures |JobsOf(s[..Taken(s, stopSetAt)])| == FirstPoison(s)
  {
    var p := FirstPoison(s);
    assert s[..p + 1][..p] == s[..p];
    JobsBeforePoison(s, p);
  }

  /** Each attempted task either succeeds or fails. */
  lemma {:induction false} SucceededFailedPartition(ts: seq<Task>, fails: Task -> bool)
    ensures |Succeeded(ts, fails)| + |Failed(ts, fails)| == |ts|
  {
    if ts != [] {
      SucceededFailedPartition(ts[..|ts| - 1], fails);
    }
  }

  /** The number of taken-but-unacknowledged tasks grows by one for each
      task whose `create_thumb` raised, since that path skips `task_done`;
      successes and the `None` are acknowledged. */
  lemma {:induction false} BacklogGrowsByFailures(s: seq<Entry>, unfinished: int, stopSetAt: nat, fails: Task -> bool)
    ensures var k := Taken(s, stopSetAt);
      var attempted := JobsOf(s[..k]);
      var acknowledged := |Succeeded(attempted, fails)| + (if PoisonedWithin(s, stopSetAt) then 1 else 0);
      (unfinished - acknowledged) - |s[k..]| == (unfinished - |s|) + |Failed(attempted, fails)|
  {
    var k := Taken(s, stopSetAt);
    if PoisonedWithin(s, stopSetAt) {
      PoisonEndsTheRun(s, stopSetAt);
    } else {
      JobsBeforePoison(s, k);
    }
    SucceededFailedPartition(JobsOf(s[..k]), fails);
  }

  /** One more attempted task extends the successes by it exactly when
      `create_thumb` returns for it. */
  lemma SucceededSnoc(ts: seq<Task>, t: Task, fails: Task -> bool)
    ensures Succeeded(ts + [t], fails) == Succeeded(ts, fails) + (if fails(t) then [] else [t])
  {
    assert (ts + [t])[..|ts|] == ts;
  }

  /** The thumbnails of two task lists, one after the other. */
  lemma {:induction false} ThumbPathsAppend(a: seq<Task>, b: seq<Task>)
    ensures ThumbPaths(a + b) == ThumbPaths(a) + ThumbPaths(b)
    decreases |b|
  {
    if b == [] {
      assert a + b == a;
    } else {
      assert (a + b)[..|a + b| - 1] == a + b[..|b| - 1];
      ThumbPathsAppend(a, b[..|b| - 1]);
    }
  }

  /** One more attempt extends the written thumbnails by its own exactly
      when `create_thumb` returns for it. */
  lemma {:induction false} AttemptOne(before: seq<Task>, t: Task, fails: Task -> bool)
    ensures ThumbPaths(Succeeded(before + [t], fails))
      == ThumbPaths(Succeeded(before, fails)) + (if fails(t) then [] else [ThumbPath(t.path, t.to)])
  {
    SucceededSnoc(before, t, fails);
    ThumbPathsAppend(Succeeded(before, fails), if fails(t) then [] else [t]);
    assert ThumbPaths([t]) == [ThumbPath(t.path, t.to)];
  }

  /** Taking one more item, still ahead of the first `None`, extends the
      attempted tasks by its task. */
  lemma {:induction false} TakeOneJob(s: seq<Entry>, k: nat)
    requires k < FirstPoison(s)
    ensures |JobsOf(s[..k + 1])| == k + 1
    ensures JobsOf(s[..k + 1]) == JobsOf(s[..k]) + [s[k].task]
  {
    assert s[..k + 1][..k] == s[..k];
    JobsBeforePoison(s, k + 1);
  }

  /** `worker`: while the stop flag reads clear, take the next item; stop at
      `None` after acknowledging it; otherwise run `create_thumb`, and
      acknowledge the task only when it returns. */
  method Worker(taskQueue: TaskQueue, stopSetAt: nat, fails: Task -> bool)
    returns (attempted: seq<Task>, created: seq<Path>, exit: WorkerExit)
    requires taskQueue.Valid()
    modifies taskQueue
    ensures taskQueue.Valid()
    ensures exit == (if PoisonedWithin(old(taskQueue.items), stopSetAt) then Poisoned else Stopped)
    ensures taskQueue.items == old(taskQueue.items)[Taken(old(taskQueue.items), stopSetAt)..]
    ensures attempted == JobsOf(old(taskQueue.items)[..Taken(old(taskQueue.items), stopSetAt)])
    ensures created == ThumbPaths(Succeeded(attempted, fails))
    ensures taskQueue.unfinished ==
      old(taskQueue.unfinished) - |Succeeded(attempted, fails)| - (if exit == Poisoned then 1 else 0)
    ensures taskQueue.unfinished - |taskQueue.items| ==
      old(taskQueue.unfinished) - |old(taskQueue.items)| + |Failed(attempted, fails)|
  {
    ghost var items0 := taskQueue.items;
    ghost var unfinished0 := taskQueue.unfinished;
    ghost var taken: nat := 0;
    attempted, created, exit := [], [], Stopped;
    var checks: nat := 0;
    while checks < stopSetAt
      invariant checks <= stopSetAt
      invariant exit == Stopped
      invariant taken == Min(checks, |items0|) && taken <= FirstPoison(items0)
      invariant taskQueue.items == items0[taken..]
      invariant attempted == JobsOf(items0[..taken]) && |attempted| == taken
      invariant created == ThumbPaths(Succeeded(attempted, fails))
      invariant taskQueue.unfinished == unfinished0 - |Succeeded(attempted, fails)|
      invariant taskQueue.Valid()
      decreases stopSetAt - checks
    {
      checks := checks + 1;
      var got := taskQueue.Get();
      if got.Some? {
        assert got.value == items0[taken] && taskQueue.items == items0[taken + 1..];
        var entry := got.value;
        if entry.Poison? {
          var done := taskQueue.TaskDone();
          assert done == Pass;
          exit := Poisoned;
          taken := taken + 1;
          break;
        }
        var task := entry.task;
        TakeOneJob(items0, taken);
        AttemptOne(attempted, task, fails);
        if !fails(task) {
          created := created + [ThumbPath(task.path, task.to)];
          var done := taskQueue.TaskDone();
          assert done == Pass;
        }
        attempted := attempted + [task];
        taken := taken + 1;
      }
    }
    if exit == Poisoned {
      PoisonEndsTheRun(items0, stopSetAt);
    }
    BacklogGrowsByFailures(items0, unfinished0, stopSetAt, fails);
  }
}
