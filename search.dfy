/** The search driver of src/search.c: the task queue with its claim
    cursor, the search context with its aggregate counters, the worker
    loop and the two search entry points.

    Workers run as threads in the program. Here a worker is a small state
    machine (idle, holding a claimed task whose scan is done, exited) and
    the pool advances one atomic step at a time: a claim (the critical
    section of taskqueue_get_next) followed by the scan of the claimed
    task, or an aggregation (the critical section on the result mutex).
    A scan touches only the claimed task's own match list, so running it
    together with its claim loses no behaviour. Any interleaving of the
    threads is then a schedule: a sequence of worker numbers, one per step,
    after which the join lets every worker run until it exits. */
module Search {
  import opened Base
  import opened FileReader
  import opened RegexSimd

  /** First capacity of the task array; it doubles afterwards. */
  const InitialTaskCapacity: nat := 16

  /** SearchTask. The match list is held by value: it is private to the
      task, and only the worker that claimed the task writes it. */
  datatype SearchTask = SearchTask(pattern: Pattern, file: FileData, matches: seq<Match>, fileIndex: int)

  /** The capacity taskqueue_add grows a full queue to. */
  function GrownTaskCapacity(c: nat): (r: nat)
    ensures c < r
    ensures c == 0 ==> r == InitialTaskCapacity
    ensures c > 0 ==> r == 2 * c
  {
    if c == 0 then InitialTaskCapacity else 2 * c
  }

  /** Capacity of a task queue after `n` successful additions to a fresh one. */
  function TaskCapacityAfter(n: nat): nat
  {
    if n == 0 then 0
    else
      var c := TaskCapacityAfter(n - 1);
      if n - 1 >= c then GrownTaskCapacity(c) else c
  }

  /** The capacity goes 0, 16, 32, 64, ...: it always holds the tasks
      added, is 16 for the first sixteen and stays below twice the count
      after that. */
  lemma {:induction false} TaskCapacityAfterBounds(n: nat)
    ensures n <= TaskCapacityAfter(n)
    ensures 0 < n <= InitialTaskCapacity ==> TaskCapacityAfter(n) == InitialTaskCapacity
    ensures n > InitialTaskCapacity ==> TaskCapacityAfter(n) < 2 * n
  {
    if n > 0 {
      TaskCapacityAfterBounds(n - 1);
    }
  }

  class TaskQueue {
    var tasks: array<SearchTask>
    var count: nat
    var nextTask: nat
    ghost var Repr: set<object>

    ghost predicate Valid()
      reads this, Repr
    {
      Repr == {this, tasks} && count <= tasks.Length && nextTask <= count
    }

    function Capacity(): nat
      reads this
    {
      tasks.Length
    }

    /** The tasks added so far, in order. */
    function Items(): seq<SearchTask>
      reads this, tasks
      requires count <= tasks.Length
    {
      tasks[..count]
    }

    /** taskqueue_create: no task array yet, capacity 0, cursor 0. */
    constructor ()
      ensures Valid() && fresh(Repr)
      ensures Items() == [] && Capacity() == 0 && nextTask == 0
    {
      tasks := new SearchTask[0];
      count := 0;
      nextTask := 0;
      Repr := {this, tasks};
    }

    /** taskqueue_add. `None` stands for a null pattern or file;
        `reallocOk` is the outcome of growing a full queue and `listOk` the
        outcome of matchlist_create for the new task. */
    method Add(pattern: Option<Pattern>, file: Option<FileData>, fileIndex: int, reallocOk: bool, listOk: bool)
      returns (ok: bool)
      requires Valid()
      modifies Repr
      ensures Valid() && fresh(Repr - old(Repr))
      ensures ok <==> pattern.Some? && file.Some? && (old(count) < old(Capacity()) || reallocOk) && listOk
      ensures Items() == if ok then old(Items()) + [SearchTask(pattern.value, file.value, [], fileIndex)] else old(Items())
      ensures Capacity() ==
        if pattern.Some? && file.Some? && old(count) >= old(Capacity()) && reallocOk
        then GrownTaskCapacity(old(Capacity())) else old(Capacity())
      ensures nextTask == old(nextTask)
    {
      if pattern.None? || file.None? {
        return false;
      }
      var task := SearchTask(pattern.value, file.value, [], fileIndex);
      if count >= tasks.Length {
        if !reallocOk {
          return false;
        }
        var grown := Realloc(tasks, GrownTaskCapacity(tasks.Length), task);
        tasks := grown;
        Repr := {this, tasks};
      }
      tasks[count] := task;
      if !listOk {
        return false;
      }
      count := count + 1;
      ok := true;
    }

    /** taskqueue_get_next, as one atomic step: the index of the claimed
        task, or `None` once every task has been claimed. */
    method GetNext() returns (t: Option<nat>)
      requires Valid()
      modifies this
      ensures Valid() && Repr == old(Repr) && tasks == old(tasks) && count == old(count)
      ensures old(nextTask) < count ==> t == Some(old(nextTask)) && nextTask == old(nextTask) + 1
      ensures old(nextTask) >= count ==> t == None && nextTask == old(nextTask)
    {
      if nextTask >= count {
        return None;
      }
      t := Some(nextTask);
      nextTask := nextTask + 1;
    }

    /** Calling taskqueue_get_next until it fails claims every remaining
        task exactly once, in index order. */
    method ClaimAll() returns (claimed: seq<nat>)
      requires Valid()
      modifies this
      ensures Valid() && Repr == old(Repr) && Items() == old(Items())
      ensures claimed == Range(old(nextTask), count) && nextTask == count
    {
      claimed := [];
      while true
        invariant Valid() && Repr == old(Repr) && tasks == old(tasks) && count == old(count)
        invariant old(nextTask) <= nextTask && claimed == Range(old(nextTask), nextTask)
        decreases count - nextTask
      {
        var t := GetNext();
        if t.None? {
          return;
        }
        RangeSnoc(old(nextTask), t.value);
        claimed := claimed + [t.value];
      }
    }

    /** Writing a task's match list through the task pointer. */
    method SetMatches(i: nat, ms: seq<Match>)
      requires Valid() && i < count
      modifies tasks
      ensures Valid() && Items() == old(Items())[i := old(Items())[i].(matches := ms)]
    {
      tasks[i] := tasks[i].(matches := ms);
    }
  }

  /** The indices `lo .. hi-1` in increasing order. */
  function Range(lo: nat, hi: nat): (r: seq<nat>)
    ensures |r| == if lo <= hi then hi - lo else 0
    ensures forall j :: 0 <= j < |r| ==> r[j] == lo + j
    decreases hi - lo
  {
    if lo >= hi then [] else [lo] + Range(lo + 1, hi)
  }

  lemma RangeSnoc(lo: nat, hi: nat)
    requires lo <= hi
    ensures Range(lo, hi + 1) == Range(lo, hi) + [hi]
  {
  }

  // ---------------------------------------------------------------------
  // The worker pool as a transition system

  datatype Worker = Idle | Holding(task: nat) | Exited

  /** The state the workers share: the tasks, the claim cursor and the two
      aggregate counters of the context, and each worker's own state. */
  datatype Pool = Pool(tasks: seq<SearchTask>, next: nat, filesSearched: nat, totalMatches: nat, workers: seq<Worker>)

  predicate TasksScannable(ts: seq<SearchTask>)
  {
    forall i :: 0 <= i < |ts| ==> Scannable(ts[i].pattern, ts[i].file.data)
  }

  /** A task after its scan: search_pattern on a fresh, empty match list. */
  function Searched(pf: Platform, t: SearchTask): (r: SearchTask)
    requires PlatformOk(pf) && Scannable(t.pattern, t.file.data)
    ensures r.pattern == t.pattern && r.file == t.file && r.fileIndex == t.fileIndex
    ensures t.pattern.kind == MatchAscii ==> Genuine(t.pattern, t.file.data, r.matches)
  {
    var r := t.(matches := Dispatch(pf, t.pattern, t.file.data, 0));
    if t.pattern.kind == MatchAscii then
      DispatchSound(pf, t.pattern, t.file.data, 0);
      r
    else r
  }

  /** Every listed task searched. */
  function SearchedAll(pf: Platform, ts: seq<SearchTask>): (r: seq<SearchTask>)
    requires PlatformOk(pf) && TasksScannable(ts)
    ensures |r| == |ts| && forall i :: 0 <= i < |ts| ==> r[i] == Searched(pf, ts[i])
  {
    seq(|ts|, i requires 0 <= i < |ts| => Searched(pf, ts[i]))
  }

  /** Total length of the tasks' match lists. */
  function SumMatches(ts: seq<SearchTask>): nat
  {
    if ts == [] then 0 else SumMatches(ts[..|ts| - 1]) + |ts[|ts| - 1].matches|
  }

  /** Matches still held by workers: scanned but not yet aggregated. */
  function HeldSum(ws: seq<Worker>, ts: seq<SearchTask>): nat
  {
    if ws == [] then 0 else HeldSum(ws[..|ws| - 1], ts) + Held(ws[|ws| - 1], ts)
  }

  function Held(w: Worker, ts: seq<SearchTask>): nat
  {
    if w.Holding? && w.task < |ts| then |ts[w.task].matches| else 0
  }

  /** Number of workers holding a task. */
  function HeldCount(ws: seq<Worker>): nat
  {
    if ws == [] then 0 else HeldCount(ws[..|ws| - 1]) + (if ws[|ws| - 1].Holding? then 1 else 0)
  }

  /** How far a worker is from its next claim: a holder must aggregate,
      an idle worker claims or exits. */
  function Rank(w: Worker): nat
  {
    match w
    case Holding(_) => 2
    case Idle => 1
    case Exited => 0
  }

  /** Structural well-formedness of a pool. */
  predicate PoolOk(pf: Platform, s: Pool)
  {
    PlatformOk(pf) && TasksScannable(s.tasks) && s.next <= |s.tasks| &&
    forall k :: 0 <= k < |s.workers| && s.workers[k].Holding? ==> s.workers[k].task < s.next
  }

  /** One atomic step of worker `k`. */
  function StepPool(pf: Platform, s: Pool, k: nat): (r: Pool)
    requires PoolOk(pf, s) && k < |s.workers|
    ensures PoolOk(pf, r) && |r.workers| == |s.workers| && |r.tasks| == |s.tasks|
    ensures s.next <= r.next <= s.next + 1
    ensures r.filesSearched >= s.filesSearched && r.totalMatches >= s.totalMatches
    ensures forall j :: 0 <= j < |s.workers| && j != k ==> r.workers[j] == s.workers[j]
    ensures s.workers[k] == Exited ==> r == s
    ensures s.workers[k] != Exited ==> Rank(r.workers[k]) < Rank(s.workers[k]) || s.next < r.next
  {
    match s.workers[k]
    case Exited => s
    case Idle =>
      if s.next < |s.tasks| then
        s.(tasks := s.tasks[s.next := Searched(pf, s.tasks[s.next])],
           next := s.next + 1,
           workers := s.workers[k := Holding(s.next)])
      else s.(workers := s.workers[k := Exited])
    case Holding(i) =>
      s.(filesSearched := s.filesSearched + 1,
         totalMatches := s.totalMatches + |s.tasks[i].matches|,
         workers := s.workers[k := Idle])
  }

  /** The pool after the steps in `schedule`; a number that names no worker
      is a step of nobody. */
  function RunSchedule(pf: Platform, s: Pool, schedule: seq<nat>): (r: Pool)
    requires PoolOk(pf, s)
    ensures PoolOk(pf, r) && |r.workers| == |s.workers| && |r.tasks| == |s.tasks| && s.next <= r.next
  {
    if schedule == [] then s
    else
      var m := RunSchedule(pf, s, schedule[..|schedule| - 1]);
      var k := schedule[|schedule| - 1];
      if k < |m.workers| then StepPool(pf, m, k) else m
  }

  /** Worker `k` left to run alone until it exits. */
  function RunToExit(pf: Platform, s: Pool, k: nat): (r: Pool)
    requires PoolOk(pf, s) && k < |s.workers|
    ensures PoolOk(pf, r) && |r.workers| == |s.workers| && |r.tasks| == |s.tasks|
    ensures r.workers[k] == Exited
    ensures forall j :: 0 <= j < |s.workers| && j != k ==> r.workers[j] == s.workers[j]
    decreases |s.tasks| - s.next, Rank(s.workers[k])
  {
    if s.workers[k] == Exited then s else RunToExit(pf, StepPool(pf, s, k), k)
  }

  /** pthread_join on every worker from `k` on, in order. */
  function Join(pf: Platform, s: Pool, k: nat): (r: Pool)
    requires PoolOk(pf, s)
    ensures PoolOk(pf, r) && |r.workers| == |s.workers| && |r.tasks| == |s.tasks|
    ensures forall j :: 0 <= j < |s.workers| && (j >= k || s.workers[j] == Exited) ==> r.workers[j] == Exited
    decreases |s.workers| - k
  {
    if k >= |s.workers| then s else Join(pf, RunToExit(pf, s, k), k + 1)
  }

  /** The pool as search_context_run leaves it after starting `n` workers
      on the tasks. */
  function Start(ts: seq<SearchTask>, n: nat): Pool
  {
    Pool(ts, 0, 0, 0, seq(n, _ => Idle))
  }

  /** The invariant every step keeps: tasks before the cursor have been
      searched and the others are untouched; every claimed task is either
      aggregated or held by exactly the worker that claimed it; and once a
      worker has exited the queue is drained. */
  ghost predicate Inv(pf: Platform, orig: seq<SearchTask>, s: Pool)
  {
    PoolOk(pf, s) && TasksScannable(orig) && |s.tasks| == |orig| &&
    (forall i :: 0 <= i < |orig| ==> s.tasks[i] == if i < s.next then Searched(pf, orig[i]) else orig[i]) &&
    s.filesSearched + HeldCount(s.workers) == s.next &&
    s.totalMatches + HeldSum(s.workers, s.tasks) == SumMatches(s.tasks[..s.next]) &&
    (forall k :: 0 <= k < |s.workers| && s.workers[k] == Exited ==> s.next == |s.tasks|)
  }

  lemma {:induction false} HeldUpdate(ws: seq<Worker>, ts: seq<SearchTask>, k: nat, w: Worker)
    requires k < |ws|
    ensures HeldSum(ws[k := w], ts) + Held(ws[k], ts) == HeldSum(ws, ts) + Held(w, ts)
    ensures HeldCount(ws[k := w]) + (if ws[k].Holding? then 1 else 0) == HeldCount(ws) + (if w.Holding? then 1 else 0)
    decreases |ws|
  {
    var n := |ws| - 1;
    if k < n {
      HeldUpdate(ws[..n], ts, k, w);
      assert ws[k := w][..n] == ws[..n][k := w];
    } else {
      assert ws[k := w][..n] == ws[..n];
    }
  }

  /** Held sums look only at held tasks. */
  lemma {:induction false} HeldFrame(ws: seq<Worker>, ts: seq<SearchTask>, ts': seq<SearchTask>, bound: nat)
    requires |ts| == |ts'|
    requires forall i :: 0 <= i < bound && i < |ts| ==> ts[i] == ts'[i]
    requires forall k :: 0 <= k < |ws| && ws[k].Holding? ==> ws[k].task < bound
    ensures HeldSum(ws, ts) == HeldSum(ws, ts')
    decreases |ws|
  {
    if ws != [] {
      HeldFrame(ws[..|ws| - 1], ts, ts', bound);
    }
  }

  lemma {:induction false} IdleHoldsNothing(n: nat, ts: seq<SearchTask>)
    ensures HeldSum(seq(n, _ => Idle), ts) == 0 && HeldCount(seq(n, _ => Idle)) == 0
    decreases n
  {
    if n > 0 {
      assert seq(n, _ => Idle)[..n - 1] == seq(n - 1, _ => Idle);
      IdleHoldsNothing(n - 1, ts);
    }
  }

  lemma {:induction false} ExitedHoldNothing(ws: seq<Worker>, ts: seq<SearchTask>)
    requires forall k :: 0 <= k < |ws| ==> ws[k] == Exited
    ensures HeldSum(ws, ts) == 0 && HeldCount(ws) == 0
    decreases |ws|
  {
    if ws != [] {
      ExitedHoldNothing(ws[..|ws| - 1], ts);
    }
  }

  lemma StartInv(pf: Platform, ts: seq<SearchTask>, n: nat)
    requires PlatformOk(pf) && TasksScannable(ts)
    ensures Inv(pf, ts, Start(ts, n))
  {
    IdleHoldsNothing(n, ts);
    assert ts[..0] == [];
  }

  /** Every atomic step keeps the invariant. */
  lemma StepInv(pf: Platform, orig: seq<SearchTask>, s: Pool, k: nat)
    requires Inv(pf, orig, s) && k < |s.workers|
    ensures Inv(pf, orig, StepPool(pf, s, k))
  {
    match s.workers[k]
    case Exited =>
    case Idle =>
      if s.next < |s.tasks| {
        ClaimInv(pf, orig, s, k);
      } else {
        HeldUpdate(s.workers, s.tasks, k, Exited);
      }
    case Holding(i) =>
      HeldUpdate(s.workers, s.tasks, k, Idle);
  }

  /** A claim searches the task at the cursor and hands it to the worker. */
  lemma ClaimInv(pf: Platform, orig: seq<SearchTask>, s: Pool, k: nat)
    requires Inv(pf, orig, s) && k < |s.workers| && s.workers[k] == Idle && s.next < |s.tasks|
    ensures Inv(pf, orig, StepPool(pf, s, k))
  {
    var r := StepPool(pf, s, k);
    var i := s.next;
    HeldUpdate(s.workers, r.tasks, k, Holding(i));
    HeldFrame(s.workers, s.tasks, r.tasks, i);
    assert r.tasks[..i + 1] == s.tasks[..i] + [r.tasks[i]];
    assert r.tasks[..i + 1][..i] == s.tasks[..i];
  }

  lemma {:induction false} RunScheduleInv(pf: Platform, orig: seq<SearchTask>, s: Pool, schedule: seq<nat>)
    requires Inv(pf, orig, s)
    ensures Inv(pf, orig, RunSchedule(pf, s, schedule))
    decreases |schedule|
  {
    if schedule != [] {
      var m := RunSchedule(pf, s, schedule[..|schedule| - 1]);
      RunScheduleInv(pf, orig, s, schedule[..|schedule| - 1]);
      var k := schedule[|schedule| - 1];
      if k < |m.workers| {
        StepInv(pf, orig, m, k);
      }
    }
  }

  lemma {:induction false} RunToExitInv(pf: Platform, orig: seq<SearchTask>, s: Pool, k: nat)
    requires Inv(pf, orig, s) && k < |s.workers|
    ensures Inv(pf, orig, RunToExit(pf, s, k))
    decreases |s.tasks| - s.next, Rank(s.workers[k])
  {
    if s.workers[k] != Exited {
      StepInv(pf, orig, s, k);
      RunToExitInv(pf, orig, StepPool(pf, s, k), k);
    }
  }

  lemma {:induction false} JoinInv(pf: Platform, orig: seq<SearchTask>, s: Pool, k: nat)
    requires Inv(pf, orig, s)
    ensures Inv(pf, orig, Join(pf, s, k))
    decreases |s.workers| - k
  {
    if k < |s.workers| {
      RunToExitInv(pf, orig, s, k);
      JoinInv(pf, orig, RunToExit(pf, s, k), k + 1);
    }
  }

  /** Whatever the schedule, once the workers are joined every task has
      been searched exactly once: `files_searched` is the number of tasks
      and `total_matches` the sum of their match counts. With no worker
      at all nothing would be searched, which the clamp of
      search_context_create rules out. */
  lemma PoolOutcome(pf: Platform, ts: seq<SearchTask>, n: nat, schedule: seq<nat>)
    requires PlatformOk(pf) && TasksScannable(ts) && n >= 1
    ensures var r := Join(pf, RunSchedule(pf, Start(ts, n), schedule), 0);
      r.tasks == SearchedAll(pf, ts) && r.next == |ts| &&
      r.filesSearched == |ts| && r.totalMatches == SumMatches(r.tasks)
  {
    StartInv(pf, ts, n);
    var m := RunSchedule(pf, Start(ts, n), schedule);
    RunScheduleInv(pf, ts, Start(ts, n), schedule);
    JoinInv(pf, ts, m, 0);
    var r := Join(pf, m, 0);
    assert r.workers[0] == Exited;
    ExitedHoldNothing(r.workers, r.tasks);
    assert r.tasks[..r.next] == r.tasks;
  }

  // ---------------------------------------------------------------------
  // SearchContext

  class SearchContext {
    var queue: TaskQueue?
    var numThreads: nat
    var filesSearched: nat
    var totalMatches: nat

    /** search_context_create: at least one worker, counters at zero
        (allocation and mutex failures are not modelled). */
    constructor (n: nat)
      ensures queue == null && numThreads == (if n > 0 then n else 1) && numThreads >= 1
      ensures filesSearched == 0 && totalMatches == 0
    {
      queue := null;
      numThreads := if n > 0 then n else 1;
      filesSearched := 0;
      totalMatches := 0;
    }

    ghost predicate Valid()
      reads this, queue, if queue == null then {} else queue.Repr
    {
      queue != null && queue.Valid()
    }

    /** The pool as this context and its queue hold it, with the workers' states `st`. */
    ghost function Snapshot(st: seq<Worker>): Pool
      reads this, queue, if queue == null then {} else queue.Repr
      requires Valid()
    {
      Pool(queue.Items(), queue.nextTask, filesSearched, totalMatches, st)
    }

    /** One atomic step of worker `k` of search_worker: claim and scan a
        task, aggregate a scanned task, or exit. */
    method Step(pf: Platform, st: seq<Worker>, k: nat) returns (st': seq<Worker>)
      requires Valid() && k < |st| && PoolOk(pf, Snapshot(st))
      modifies this, queue, queue.tasks
      ensures Valid() && queue == old(queue) && queue.Repr == old(queue.Repr) && numThreads == old(numThreads)
      ensures Snapshot(st') == StepPool(pf, old(Snapshot(st)), k)
    {
      ghost var s := Snapshot(st);
      match st[k]
      case Exited =>
        st' := st;
      case Idle =>
        var t := queue.GetNext();
        if t.None? {
          st' := st[k := Exited];
        } else {
          var i := t.value;
          assert i == s.next < |s.tasks|;
          var task := queue.tasks[i];
          assert task == s.tasks[i];
          var list := new MatchList();
          var _ := SearchPattern(pf, task.pattern, task.file.data, list);
          assert list.Items() == Dispatch(pf, task.pattern, task.file.data, 0);
          var found := list.Contents();
          queue.SetMatches(i, found);
          st' := st[k := Holding(i)];
          assert queue.Items() == s.tasks[i := Searched(pf, s.tasks[i])];
        }
      case Holding(i) =>
        assert queue.tasks[i] == s.tasks[i];
        filesSearched := filesSearched + 1;
        totalMatches := totalMatches + |queue.tasks[i].matches|;
        st' := st[k := Idle];
    }

    /** The workers take the steps of `schedule`, one at a time. */
    method Steps(pf: Platform, st: seq<Worker>, schedule: seq<nat>) returns (st': seq<Worker>)
      requires Valid() && PoolOk(pf, Snapshot(st))
      modifies this, queue, queue.tasks
      ensures Valid() && queue == old(queue) && queue.Repr == old(queue.Repr) && numThreads == old(numThreads)
      ensures Snapshot(st') == RunSchedule(pf, old(Snapshot(st)), schedule)
    {
      ghost var start := Snapshot(st);
      st' := st;
      var s := 0;
      while s < |schedule|
        invariant 0 <= s <= |schedule|
        invariant Valid() && queue == old(queue) && queue.Repr == old(queue.Repr) && numThreads == old(numThreads)
        invariant Snapshot(st') == RunSchedule(pf, start, schedule[..s])
      {
        assert schedule[..s + 1][..s] == schedule[..s];
        if schedule[s] < |st'| {
          st' := Step(pf, st', schedule[s]);
        }
        s := s + 1;
      }
      assert schedule[..s] == schedule;
    }

    /** pthread_join on worker `k`: it runs until it finds the queue empty. */
    method Finish(pf: Platform, st: seq<Worker>, k: nat) returns (st': seq<Worker>)
      requires Valid() && k < |st| && PoolOk(pf, Snapshot(st))
      modifies this, queue, queue.tasks
      ensures Valid() && queue == old(queue) && queue.Repr == old(queue.Repr) && numThreads == old(numThreads)
      ensures Snapshot(st') == RunToExit(pf, old(Snapshot(st)), k)
    {
      ghost var start := Snapshot(st);
      st' := st;
      while st'[k] != Exited
        invariant Valid() && queue == old(queue) && queue.Repr == old(queue.Repr) && numThreads == old(numThreads)
        invariant |st'| == |st| && PoolOk(pf, Snapshot(st'))
        invariant RunToExit(pf, Snapshot(st'), k) == RunToExit(pf, start, k)
        decreases queue.count - queue.nextTask, Rank(st'[k])
      {
        st' := Step(pf, st', k);
      }
    }

    /** pthread_join on every worker, in order. */
    method JoinAll(pf: Platform, st: seq<Worker>) returns (st': seq<Worker>)
      requires Valid() && PoolOk(pf, Snapshot(st))
      modifies this, queue, queue.tasks
      ensures Valid() && queue == old(queue) && queue.Repr == old(queue.Repr) && numThreads == old(numThreads)
      ensures Snapshot(st') == Join(pf, old(Snapshot(st)), 0)
      ensures st' == seq(|st|, _ => Exited)
    {
      ghost var target := Join(pf, Snapshot(st), 0);
      st' := st;
      var k := 0;
      while k < |st|
        invariant 0 <= k <= |st|
        invariant Valid() && queue == old(queue) && queue.Repr == old(queue.Repr) && numThreads == old(numThreads)
        invariant |st'| == |st| && PoolOk(pf, Snapshot(st'))
        invariant Join(pf, Snapshot(st'), k) == target
      {
        st' := Finish(pf, st', k);
        k := k + 1;
      }
      ExitedWorkers(st');
    }

    /** search_context_run on a fresh context: start `numThreads`
        workers, let them take the steps of `schedule`, then join them. */
    method Run(pf: Platform, q: TaskQueue, schedule: seq<nat>) returns (ok: bool)
      requires q.Valid() && q.nextTask == 0 && filesSearched == 0 && totalMatches == 0
      requires PlatformOk(pf) && TasksScannable(q.Items())
      modifies this, q, q.tasks
      ensures queue == q && q.Valid() && q.Repr == old(q.Repr) && numThreads == old(numThreads) && ok
      ensures Snapshot(seq(numThreads, _ => Exited)) ==
        Join(pf, RunSchedule(pf, Start(old(q.Items()), numThreads), schedule), 0)
    {
      queue := q;
      var st: seq<Worker> := seq(numThreads, _ => Idle);
      assert Snapshot(st) == Start(q.Items(), numThreads);
      st := Steps(pf, st, schedule);
      st := JoinAll(pf, st);
      ok := true;
    }
  }

  lemma ExitedWorkers(st: seq<Worker>)
    requires forall k :: 0 <= k < |st| ==> st[k] == Exited
    ensures st == seq(|st|, _ => Exited)
  {
    var all := seq(|st|, _ => Exited);
    assert forall k :: 0 <= k < |st| ==> all[k] == Exited;
  }

  // ---------------------------------------------------------------------
  // Entry points

  /** search_single_file: `None` stands for a null pattern or file. */
  method SearchSingleFile(pf: Platform, pattern: Option<Pattern>, file: Option<FileData>, list: MatchList?)
    returns (found: bool)
    requires list != null ==> list.Valid()
    requires pattern.Some? && file.Some? ==> PlatformOk(pf) && Scannable(pattern.value, file.value.data)
    modifies if list == null then {} else list.Repr
    ensures pattern.None? || file.None? || list == null ==> !found
    ensures list != null ==> list.Valid() && fresh(list.Repr - old(list.Repr))
    ensures list != null && (pattern.None? || file.None?) ==> list.Items() == old(list.Items())
    ensures list != null && pattern.Some? && file.Some? ==>
      list.Items() == old(list.Items()) + Dispatch(pf, pattern.value, file.value.data, |old(list.Items())|)
    ensures list != null && pattern.Some? && file.Some? ==>
      (found <==> |list.Items()| > 0 && (pattern.value.kind == MatchRegex ==> pattern.value.regex.Some?))
  {
    if pattern.None? || file.None? || list == null {
      return false;
    }
    found := SearchPattern(pf, pattern.value, file.value.data, list);
  }

  /** Whether every taskqueue_add of search_multiple_files succeeds, given
      the allocation outcomes for each file index. */
  predicate AddsSucceed(n: nat, reallocOk: nat -> bool, listOk: nat -> bool)
  {
    forall i :: 0 <= i < n ==> listOk(i) && (i < TaskCapacityAfter(i) || reallocOk(i))
  }

  /** The tasks search_multiple_files queues: one per file, in order. */
  function TasksFor(p: Pattern, files: seq<FileData>): (r: seq<SearchTask>)
    ensures |r| == |files|
    ensures forall i :: 0 <= i < |files| ==> r[i].pattern == p && r[i].file == files[i] && r[i].fileIndex == i && r[i].matches == []
  {
    seq(|files|, i requires 0 <= i < |files| => SearchTask(p, files[i], [], i))
  }

  lemma TasksForSnoc(p: Pattern, files: seq<FileData>, i: nat)
    requires i < |files|
    ensures TasksFor(p, files[..i + 1]) == TasksFor(p, files[..i]) + [SearchTask(p, files[i], [], i)]
  {
    assert files[..i + 1] == files[..i] + [files[i]];
  }

  /** The result lists search_multiple_files hands back, in file order. */
  function ResultsFor(pf: Platform, p: Pattern, files: seq<FileData>): (r: seq<seq<Match>>)
    requires PlatformOk(pf) && forall i :: 0 <= i < |files| ==> Scannable(p, files[i].data)
    ensures |r| == |files|
    ensures forall i :: 0 <= i < |files| ==> r[i] == Dispatch(pf, p, files[i].data, 0)
  {
    seq(|files|, i requires 0 <= i < |files| => Dispatch(pf, p, files[i].data, 0))
  }

  /** The match list of every task, in task order. */
  function MatchLists(ts: seq<SearchTask>): (r: seq<seq<Match>>)
    ensures |r| == |ts| && forall j :: 0 <= j < |ts| ==> r[j] == ts[j].matches
  {
    seq(|ts|, j requires 0 <= j < |ts| => ts[j].matches)
  }

  /** The queued tasks of search_multiple_files, once searched, carry the
      result lists of the files in order. */
  lemma SearchedResults(pf: Platform, p: Pattern, files: seq<FileData>)
    requires PlatformOk(pf) && forall i :: 0 <= i < |files| ==> Scannable(p, files[i].data)
    ensures TasksScannable(TasksFor(p, files))
    ensures MatchLists(SearchedAll(pf, TasksFor(p, files))) == ResultsFor(pf, p, files)
  {
    var ts := TasksFor(p, files);
    assert TasksScannable(ts);
    var got, want := MatchLists(SearchedAll(pf, ts)), ResultsFor(pf, p, files);
    forall j | 0 <= j < |files| ensures got[j] == want[j] {
      assert SearchedAll(pf, ts)[j] == Searched(pf, ts[j]);
    }
  }

  /** The result loop of search_multiple_files: each task's match list, in
      task order. */
  method CollectResults(queue: TaskQueue) returns (results: seq<seq<Match>>)
    requires queue.Valid()
    ensures results == MatchLists(queue.Items())
  {
    results := [];
    var i := 0;
    while i < queue.count
      invariant 0 <= i <= queue.count
      invariant |results| == i && forall j :: 0 <= j < i ==> results[j] == queue.Items()[j].matches
    {
      results := results + [queue.tasks[i].matches];
      i := i + 1;
    }
  }

  /** One taskqueue_add of search_multiple_files, for file index `i`. */
  method QueueOne(queue: TaskQueue, p: Pattern, f: FileData, i: nat, reallocOk: bool, listOk: bool) returns (added: bool)
    requires queue.Valid() && queue.nextTask == 0 && queue.count == i && queue.Capacity() == TaskCapacityAfter(i)
    modifies queue.Repr
    ensures queue.Valid() && fresh(queue.Repr - old(queue.Repr)) && queue.nextTask == 0
    ensures added <==> listOk && (i < TaskCapacityAfter(i) || reallocOk)
    ensures added ==> queue.Items() == old(queue.Items()) + [SearchTask(p, f, [], i)]
    ensures added ==> queue.Capacity() == TaskCapacityAfter(i + 1)
  {
    added := queue.Add(Some(p), Some(f), i, reallocOk, listOk);
  }

  /** Queue one task per file, in order, as the first loop of
      search_multiple_files does. */
  method QueueFiles(p: Pattern, files: FileList, reallocOk: nat -> bool, listOk: nat -> bool)
    returns (queue: TaskQueue, ok: bool)
    requires files.Valid()
    ensures fresh(queue.Repr) && queue.Valid() && queue.nextTask == 0
    ensures ok <==> AddsSucceed(files.count, reallocOk, listOk)
    ensures ok ==> queue.Items() == TasksFor(p, files.Items())
  {
    queue := new TaskQueue();
    var i := 0;
    while i < files.count
      invariant 0 <= i <= files.count
      invariant queue.Valid() && fresh(queue.Repr) && queue.nextTask == 0
      invariant queue.Items() == TasksFor(p, files.Items()[..i])
      invariant queue.Capacity() == TaskCapacityAfter(i)
      invariant AddsSucceed(i, reallocOk, listOk)
    {
      var added := QueueOne(queue, p, files.files[i], i, reallocOk(i), listOk(i));
      if !added {
        return queue, false;
      }
      TasksForSnoc(p, files.Items(), i);
      i := i + 1;
    }
    assert files.Items()[..i] == files.Items();
    ok := true;
  }

  /** search_multiple_files. `None` stands for a null pattern, `null` for a
      null file list; `reallocOk` and `listOk` give the allocation
      outcomes of the queue growth and of matchlist_create per file index,
      and `schedule` the interleaving of the worker threads. */
  method SearchMultipleFiles(pf: Platform, pattern: Option<Pattern>, files: FileList?, numThreads: nat,
                             schedule: seq<nat>, reallocOk: nat -> bool, listOk: nat -> bool)
    returns (ok: bool, results: seq<seq<Match>>)
    requires files != null ==> files.Valid()
    requires pattern.Some? && files != null ==>
      PlatformOk(pf) && forall i :: 0 <= i < files.count ==> Scannable(pattern.value, files.files[i].data)
    ensures ok <==> pattern.Some? && files != null && AddsSucceed(files.count, reallocOk, listOk)
    ensures ok ==> results == ResultsFor(pf, pattern.value, files.Items())
  {
    if pattern.None? || files == null {
      return false, [];
    }
    var p := pattern.value;
    var queue, queued := QueueFiles(p, files, reallocOk, listOk);
    if !queued {
      return false, [];
    }
    assert TasksScannable(queue.Items());
    var context := new SearchContext(numThreads);
    var success := context.Run(pf, queue, schedule);
    PoolOutcome(pf, TasksFor(p, files.Items()), context.numThreads, schedule);
    results := CollectResults(queue);
    SearchedResults(pf, p, files.Items());
    ok := success;
  }
}
