/** The bulk downloader: a pool of download tasks with retries, the main thread that collects them,
    the `_SUCCESS` file and the clean-up of the target directory. */
module BulkDownloader {

  type Bytes = seq<bv8>

  // Paths are relative to the directory the manifest names.
  type Path = string

  const SENTINEL: Path := "_SUCCESS"
  const ATTEMPTS := 3

  // How the chunks of one answer end.
  datatype Ending = Complete | BrokenOff | WriteError

  datatype Reply =
    | Stream(chunks: seq<Bytes>, ending: Ending)
    | Expired      // 403 or 410
    | ServerError  // 5xx
    | OtherError   // another status, or a file that cannot be opened
    | NetworkError

  predicate Retryable(r: Reply) {
    r.ServerError? || r.NetworkError? || (r.Stream? && r.ending.BrokenOff?)
  }

  predicate AllRetryable(rs: seq<Reply>) {
    forall k :: 0 <= k < |rs| ==> Retryable(rs[k])
  }

  predicate Served(r: Reply) {
    r.Stream? && r.ending.Complete?
  }

  function Flatten(chunks: seq<Bytes>): Bytes {
    if chunks == [] then [] else Flatten(chunks[..|chunks| - 1]) + chunks[|chunks| - 1]
  }

  datatype Phase =
    | Queued
    | Requesting
    | Writing(chunks: seq<Bytes>, ending: Ending, next: nat, total: nat)
    | Sleeping
    | Done(total: nat)
    | Failed

  // The replies so far, one an attempt.
  datatype Task = Task(target: Path, replies: seq<Reply>, phase: Phase)

  datatype Content = Data(bytes: Bytes) | Summary(fileCount: nat)

  datatype Main =
    | Collecting
    | Joining(ok: bool)
    | Finishing
    | Cleaning
    | Succeeded
    | Aborted(removed: bool)

  // `disturbed` remembers a failure outside the download tasks.
  datatype State = State(
    files: map<Path, Content>,
    tasks: seq<Task>,
    collected: set<nat>,
    completed: nat,
    totalBytes: nat,
    main: Main,
    disturbed: bool)

  // A worker may take any queued task at any time, so every pool size is covered.
  datatype Step =
    | Start(i: nat)
    | Answer(i: nat, reply: Reply)
    | WriteChunk(i: nat)
    | EndStream(i: nat)
    | Wake(i: nat)
    | Collect(i: nat)
    | CollectedAll
    | Interrupt
    | Join
    | WriteSentinel(ok: bool)
    | Remove(ok: bool)

  function Init(files: map<Path, Content>, targets: seq<Path>): State {
    State(files, seq(|targets|, i requires 0 <= i < |targets| => Task(targets[i], [], Queued)),
          {}, 0, 0, Collecting, false)
  }

  predicate Over(p: Phase) {
    p.Done? || p.Failed?
  }

  function Append(files: map<Path, Content>, path: Path, chunk: Bytes): map<Path, Content> {
    var was := if path in files && files[path].Data? then files[path].bytes else [];
    files[path := Data(was + chunk)]
  }

  // What an answer makes of a task, before any of its bytes is written.
  function AfterAnswer(t: Task, reply: Reply): Task {
    var phase := match reply
      case Stream(chunks, ending) => Writing(chunks, ending, 0, 0)
      case Expired => Failed
      case OtherError => Failed
      case ServerError => Sleeping
      case NetworkError => Sleeping;
    Task(t.target, t.replies + [reply], phase)
  }

  function AfterStream(t: Task): Task
    requires t.phase.Writing?
  {
    t.(phase := match t.phase.ending
         case Complete => Done(t.phase.total)
         case BrokenOff => Sleeping
         case WriteError => Failed)
  }

  function DoTask(s: State, i: nat, step: Step): State
    requires i < |s.tasks|
  {
    var t := s.tasks[i];
    match step
    case Start(_) => if t.phase.Queued? then s.(tasks := s.tasks[i := t.(phase := Requesting)]) else s
    case Answer(_, reply) =>
      if t.phase.Requesting? then
        s.(tasks := s.tasks[i := AfterAnswer(t, reply)],
           files := if reply.Stream? then s.files[t.target := Data([])] else s.files)
      else s
    case WriteChunk(_) =>
      if t.phase.Writing? && t.phase.next < |t.phase.chunks| then
        var chunk := t.phase.chunks[t.phase.next];
        s.(tasks := s.tasks[i := t.(phase := t.phase.(next := t.phase.next + 1,
                                                       total := t.phase.total + |chunk|))],
           files := Append(s.files, t.target, chunk))
      else s
    case EndStream(_) =>
      if t.phase.Writing? && t.phase.next == |t.phase.chunks|
      then s.(tasks := s.tasks[i := AfterStream(t)]) else s
    case Wake(_) =>
      if t.phase.Sleeping?
      then s.(tasks := s.tasks[i := t.(phase := if |t.replies| < ATTEMPTS then Requesting else Failed)]) else s
    case _ => s
  }

  predicate IsTaskStep(step: Step) {
    step.Start? || step.Answer? || step.WriteChunk? || step.EndStream? || step.Wake?
  }

  function DoCollect(s: State, i: nat): State
    requires i < |s.tasks|
  {
    match s.tasks[i].phase
    case Done(total) =>
      s.(collected := s.collected + {i}, completed := s.completed + 1, totalBytes := s.totalBytes + total)
    case Failed => s.(main := Joining(false))
    case _ => s
  }

  function DoMain(s: State, step: Step): State {
    match step
    case Collect(i) =>
      if s.main.Collecting? && i < |s.tasks| && i !in s.collected then DoCollect(s, i) else s
    case CollectedAll =>
      if s.main.Collecting? && (forall i :: 0 <= i < |s.tasks| ==> i in s.collected)
      then s.(main := Joining(true)) else s
    case Interrupt => if s.main.Collecting? then s.(main := Joining(false), disturbed := true) else s
    case Join =>
      // Leaving the `with` block waits for every submitted task, queued ones included.
      if s.main.Joining? && (forall i :: 0 <= i < |s.tasks| ==> Over(s.tasks[i].phase))
      then s.(main := if s.main.ok then Finishing else Cleaning) else s
    case WriteSentinel(ok) =>
      if !s.main.Finishing? then s
      else if ok then s.(files := s.files[SENTINEL := Summary(s.completed)], main := Succeeded)
      else s.(files := s.files[SENTINEL := Data([])], main := Cleaning, disturbed := true)
    case Remove(ok) =>
      if !s.main.Cleaning? then s
      else s.(files := if ok then map[] else s.files, main := Aborted(ok))
    case _ => s
  }

  function Do(s: State, step: Step): State {
    if IsTaskStep(step) then (if step.i < |s.tasks| then DoTask(s, step.i, step) else s) else DoMain(s, step)
  }

  function Run(s: State, steps: seq<Step>): State
    decreases |steps|
  {
    if steps == [] then s else Run(Do(s, steps[0]), steps[1..])
  }

  // -------------------------------------------------------------------------
  // The invariant
  // -------------------------------------------------------------------------

  ghost predicate Distinct(targets: seq<Path>) {
    && (forall i :: 0 <= i < |targets| ==> targets[i] != SENTINEL)
    && (forall i, j :: 0 <= i < j < |targets| ==> targets[i] != targets[j])
  }

  ghost predicate Apart(s: State) {
    && (forall i :: 0 <= i < |s.tasks| ==> s.tasks[i].target != SENTINEL)
    && (forall i, j :: 0 <= i < j < |s.tasks| ==> s.tasks[i].target != s.tasks[j].target)
  }

  // The phase of a task is a function of the answers it got.
  predicate Explained(t: Task) {
    var n := |t.replies|;
    match t.phase
    case Queued => n == 0
    case Requesting => n < ATTEMPTS && AllRetryable(t.replies)
    case Sleeping => 1 <= n <= ATTEMPTS && AllRetryable(t.replies)
    case Writing(chunks, ending, _, _) =>
      1 <= n <= ATTEMPTS && AllRetryable(t.replies[..n - 1]) && t.replies[n - 1] == Stream(chunks, ending)
    case Done(_) => 1 <= n <= ATTEMPTS && AllRetryable(t.replies[..n - 1]) && Served(t.replies[n - 1])
    case Failed =>
      1 <= n <= ATTEMPTS && AllRetryable(t.replies[..n - 1]) &&
      if Retryable(t.replies[n - 1]) then n == ATTEMPTS else !Served(t.replies[n - 1])
  }

  predicate Holds(files: map<Path, Content>, t: Task, bytes: Bytes) {
    t.target in files && files[t.target] == Data(bytes)
  }

  // The file of a task holds what the current attempt wrote, and nothing of an earlier one.
  ghost predicate Kept(files: map<Path, Content>, t: Task) {
    (t.phase.Writing? ==>
      t.phase.next <= |t.phase.chunks| && Holds(files, t, Flatten(t.phase.chunks[..t.phase.next])) &&
      t.phase.total == |Flatten(t.phase.chunks[..t.phase.next])|) &&
    (t.phase.Done? ==> Downloaded(files, t))
  }

  // What the latest answer carried.
  function Body(t: Task): Bytes {
    var n := |t.replies|;
    if n > 0 && t.replies[n - 1].Stream? then Flatten(t.replies[n - 1].chunks) else []
  }

  // The file is the whole of the one answer that succeeded.
  predicate Downloaded(files: map<Path, Content>, t: Task) {
    t.phase.Done? && Holds(files, t, Body(t)) && t.phase.total == |Body(t)|
  }

  predicate AllOver(s: State) {
    forall i :: 0 <= i < |s.tasks| ==> Over(s.tasks[i].phase)
  }

  predicate AllDone(s: State) {
    forall i :: 0 <= i < |s.tasks| ==> s.tasks[i].phase.Done?
  }

  predicate SomeFailed(s: State) {
    exists i :: 0 <= i < |s.tasks| && s.tasks[i].phase.Failed?
  }

  predicate PoolGone(m: Main) {
    m.Finishing? || m.Cleaning? || m.Succeeded? || m.Aborted?
  }

  predicate Lost(m: Main) {
    m == Joining(false) || m.Cleaning? || m.Aborted?
  }

  predicate Collects(s: State) {
    && (forall i :: i in s.collected ==> i < |s.tasks| && s.tasks[i].phase.Done?)
    && (forall i :: 0 <= i < |s.tasks| && (s.main == Joining(true) || s.main.Finishing? || s.main.Succeeded?)
          ==> i in s.collected)
  }

  ghost predicate TasksInv(s: State) {
    && Apart(s)
    && (forall i :: 0 <= i < |s.tasks| ==> Explained(s.tasks[i]))
    && (!s.main.Aborted? ==> forall i :: 0 <= i < |s.tasks| ==> Kept(s.files, s.tasks[i]))
  }

  ghost predicate MainInv(s: State) {
    && Collects(s)
    && (PoolGone(s.main) ==> AllOver(s))
    && (Lost(s.main) ==> s.disturbed || SomeFailed(s))
    && (s.main.Succeeded? ==> SENTINEL in s.files && s.files[SENTINEL] == Summary(s.completed))
    && (s.main == Aborted(true) ==> s.files == map[])
  }

  // Sums over the collected tasks below n.
  function BytesOf(s: State, n: nat): nat
    requires n <= |s.tasks|
  {
    if n == 0 then 0
    else BytesOf(s, n - 1) +
         if n - 1 in s.collected && s.tasks[n - 1].phase.Done? then s.tasks[n - 1].phase.total else 0
  }

  function CountOf(collected: set<nat>, n: nat): nat {
    if n == 0 then 0 else CountOf(collected, n - 1) + if n - 1 in collected then 1 else 0
  }

  ghost predicate Counted(s: State) {
    s.totalBytes == BytesOf(s, |s.tasks|) && s.completed == CountOf(s.collected, |s.tasks|)
  }

  ghost predicate Inv(s: State) {
    TasksInv(s) && MainInv(s) && Counted(s)
  }

  // -------------------------------------------------------------------------
  // A worker's steps
  // -------------------------------------------------------------------------

  lemma FlattenNext(chunks: seq<Bytes>, k: nat)
    requires k < |chunks|
    ensures Flatten(chunks[..k + 1]) == Flatten(chunks[..k]) + chunks[k]
  {
    assert chunks[..k + 1][..k] == chunks[..k];
  }

  // Only the file of the task changes, and only while the task is not over.
  lemma TaskStepFrame(s: State, i: nat, step: Step)
    requires i < |s.tasks| && IsTaskStep(step)
    ensures var u := DoTask(s, i, step);
            && |u.tasks| == |s.tasks| && u.tasks[i].target == s.tasks[i].target
            && (forall j :: 0 <= j < |s.tasks| && j != i ==> u.tasks[j] == s.tasks[j])
            && (forall p :: p != s.tasks[i].target ==> (p in u.files <==> p in s.files))
            && (forall p :: p != s.tasks[i].target && p in s.files ==> u.files[p] == s.files[p])
            && (Over(s.tasks[i].phase) ==> u == s)
            && u == s.(files := u.files, tasks := u.tasks)
  {
  }

  lemma AnswerExplained(t: Task, reply: Reply)
    requires Explained(t) && t.phase.Requesting?
    ensures Explained(AfterAnswer(t, reply))
  {
    assert AfterAnswer(t, reply).replies[..|t.replies|] == t.replies;
  }

  lemma TaskStepExplained(s: State, i: nat, step: Step)
    requires i < |s.tasks| && IsTaskStep(step) && Explained(s.tasks[i])
    ensures Explained(DoTask(s, i, step).tasks[i])
  {
    if step.Answer? && s.tasks[i].phase.Requesting? {
      AnswerExplained(s.tasks[i], step.reply);
    }
  }

  lemma TaskStepKept(s: State, i: nat, step: Step)
    requires i < |s.tasks| && IsTaskStep(step) && Explained(s.tasks[i]) && Kept(s.files, s.tasks[i])
    ensures Kept(DoTask(s, i, step).files, DoTask(s, i, step).tasks[i])
  {
    var t := s.tasks[i];
    if step.WriteChunk? && t.phase.Writing? && t.phase.next < |t.phase.chunks| {
      FlattenNext(t.phase.chunks, t.phase.next);
    } else if step.EndStream? && t.phase.Writing? && t.phase.next == |t.phase.chunks| {
      assert t.phase.chunks[..t.phase.next] == t.phase.chunks;
    }
  }

  lemma TaskStepKeepsTasksInv(s: State, i: nat, step: Step)
    requires TasksInv(s) && i < |s.tasks| && IsTaskStep(step)
    requires s.main.Aborted? ==> Over(s.tasks[i].phase)
    ensures TasksInv(DoTask(s, i, step))
  {
    TaskStepFrame(s, i, step);
    if !Over(s.tasks[i].phase) {
      TaskStepExplained(s, i, step);
      TaskStepKept(s, i, step);
    }
  }

  lemma TaskStepKeepsMainInv(s: State, i: nat, step: Step)
    requires TasksInv(s) && MainInv(s) && i < |s.tasks| && IsTaskStep(step)
    ensures MainInv(DoTask(s, i, step))
  {
    TaskStepFrame(s, i, step);
    var u := DoTask(s, i, step);
    if SomeFailed(s) {
      var j :| 0 <= j < |s.tasks| && s.tasks[j].phase.Failed?;
      assert u.tasks[j] == s.tasks[j];
    }
  }

  lemma {:induction false} SameBytes(s: State, u: State, n: nat)
    requires n <= |s.tasks| == |u.tasks| && u.collected == s.collected
    requires forall i :: i in s.collected && i < n ==> u.tasks[i] == s.tasks[i]
    ensures BytesOf(u, n) == BytesOf(s, n)
  {
    if n > 0 {
      SameBytes(s, u, n - 1);
    }
  }

  // -------------------------------------------------------------------------
  // The main thread's steps
  // -------------------------------------------------------------------------

  lemma {:induction false} OneMore(s: State, u: State, i: nat, n: nat)
    requires n <= |s.tasks| && u.tasks == s.tasks && i < |s.tasks|
    requires i !in s.collected && u.collected == s.collected + {i} && s.tasks[i].phase.Done?
    ensures BytesOf(u, n) == BytesOf(s, n) + if i < n then s.tasks[i].phase.total else 0
    ensures CountOf(u.collected, n) == CountOf(s.collected, n) + if i < n then 1 else 0
  {
    if n > 0 {
      OneMore(s, u, i, n - 1);
    }
  }

  lemma MainStepCounts(s: State, step: Step)
    requires Counted(s) && !IsTaskStep(step)
    ensures Counted(DoMain(s, step))
  {
    var u := DoMain(s, step);
    assert u.tasks == s.tasks;
    if u.collected != s.collected {
      OneMore(s, u, step.i, |s.tasks|);
    } else {
      SameBytes(s, u, |s.tasks|);
    }
  }

  lemma MainStepKeepsTasksInv(s: State, step: Step)
    requires TasksInv(s) && !IsTaskStep(step)
    ensures TasksInv(DoMain(s, step))
  {
    var u := DoMain(s, step);
    assert u.tasks == s.tasks;
    if !u.main.Aborted? {
      forall i | 0 <= i < |u.tasks| ensures Kept(u.files, u.tasks[i]) {
        assert Kept(s.files, s.tasks[i]);
        assert u.files == s.files || u.files == s.files[SENTINEL := u.files[SENTINEL]];
      }
    }
  }

  lemma MainStepKeepsMainInv(s: State, step: Step)
    requires MainInv(s) && !IsTaskStep(step)
    ensures MainInv(DoMain(s, step))
  {
    var u := DoMain(s, step);
    assert u.tasks == s.tasks;
    if step.Collect? && s.main.Collecting? && step.i < |s.tasks| && s.tasks[step.i].phase.Failed? {
      assert SomeFailed(u);
    }
  }

  lemma DoKeepsInv(s: State, step: Step)
    requires Inv(s)
    ensures Inv(Do(s, step))
  {
    if !IsTaskStep(step) {
      MainStepKeepsTasksInv(s, step);
      MainStepKeepsMainInv(s, step);
      MainStepCounts(s, step);
    } else if step.i < |s.tasks| {
      TaskStepFrame(s, step.i, step);
      TaskStepKeepsTasksInv(s, step.i, step);
      TaskStepKeepsMainInv(s, step.i, step);
      SameBytes(s, Do(s, step), |s.tasks|);
    }
  }

  lemma {:induction false} RunKeepsInv(s: State, steps: seq<Step>)
    requires Inv(s)
    ensures Inv(Run(s, steps))
    decreases |steps|
  {
    if steps != [] {
      DoKeepsInv(s, steps[0]);
      RunKeepsInv(Do(s, steps[0]), steps[1..]);
    }
  }

  lemma {:induction false} NothingCounted(s: State, n: nat)
    requires n <= |s.tasks| && s.collected == {}
    ensures BytesOf(s, n) == 0 && CountOf(s.collected, n) == 0
  {
    if n > 0 {
      NothingCounted(s, n - 1);
    }
  }

  lemma InitInv(files: map<Path, Content>, targets: seq<Path>)
    requires Distinct(targets)
    ensures Inv(Init(files, targets))
  {
    NothingCounted(Init(files, targets), |targets|);
  }

  ghost predicate For(s: State, targets: seq<Path>) {
    |s.tasks| == |targets| && forall i :: 0 <= i < |targets| ==> s.tasks[i].target == targets[i]
  }

  lemma {:induction false} RunKeepsTargets(s: State, steps: seq<Step>, targets: seq<Path>)
    requires For(s, targets)
    ensures For(Run(s, steps), targets)
    decreases |steps|
  {
    if steps != [] {
      if IsTaskStep(steps[0]) && steps[0].i < |s.tasks| {
        TaskStepFrame(s, steps[0].i, steps[0]);
      } else {
        assert Do(s, steps[0]).tasks == s.tasks;
      }
      RunKeepsTargets(Do(s, steps[0]), steps[1..], targets);
    }
  }

  // -------------------------------------------------------------------------
  // All or nothing
  // -------------------------------------------------------------------------

  // The sizes of the files downloaded, over the first n tasks.
  function Totals(tasks: seq<Task>, n: nat): nat
    requires n <= |tasks|
  {
    if n == 0 then 0 else Totals(tasks, n - 1) + if tasks[n - 1].phase.Done? then tasks[n - 1].phase.total else 0
  }

  lemma {:induction false} AllCounted(collected: set<nat>, n: nat)
    requires forall i: nat :: i < n ==> i in collected
    ensures CountOf(collected, n) == n
  {
    if n > 0 {
      AllCounted(collected, n - 1);
    }
  }

  lemma {:induction false} AllSummed(s: State, n: nat)
    requires n <= |s.tasks| && forall i: nat :: i < n ==> i in s.collected
    ensures BytesOf(s, n) == Totals(s.tasks, n)
  {
    if n > 0 {
      AllSummed(s, n - 1);
    }
  }

  /** In every interleaving of workers, answers and failures the run ends either with every file
      holding exactly the one answer that succeeded, after retryable ones only, and a `_SUCCESS` file
      that counts them all, or with the directory empty. */
  lemma AllOrNothing(files: map<Path, Content>, targets: seq<Path>, steps: seq<Step>)
    requires Distinct(targets)
    ensures var s := Run(Init(files, targets), steps);
            && For(s, targets)
            && (s.main.Succeeded? ==>
                  && (forall i :: 0 <= i < |s.tasks| ==> Downloaded(s.files, s.tasks[i]) && Explained(s.tasks[i]))
                  && SENTINEL in s.files && s.files[SENTINEL] == Summary(|s.tasks|)
                  && s.totalBytes == Totals(s.tasks, |s.tasks|))
            && (s.main == Aborted(true) ==> s.files == map[])
            && (s.main.Aborted? ==> s.disturbed || SomeFailed(s))
  {
    InitInv(files, targets);
    RunKeepsInv(Init(files, targets), steps);
    RunKeepsTargets(Init(files, targets), steps, targets);
    var s := Run(Init(files, targets), steps);
    if s.main.Succeeded? {
      forall i | 0 <= i < |s.tasks| ensures Downloaded(s.files, s.tasks[i]) && Explained(s.tasks[i]) {
        assert Kept(s.files, s.tasks[i]);
      }
      AllCounted(s.collected, |s.tasks|);
      AllSummed(s, |s.tasks|);
    }
  }

  ghost predicate Announced(s: State) {
    SENTINEL in s.files ==> AllDone(s)
  }

  lemma DoKeepsAnnounced(s: State, step: Step)
    requires Inv(s) && Announced(s)
    ensures Announced(Do(s, step))
  {
    if IsTaskStep(step) && step.i < |s.tasks| {
      TaskStepFrame(s, step.i, step);
    }
  }

  lemma {:induction false} RunKeepsAnnounced(s: State, steps: seq<Step>)
    requires Inv(s) && Announced(s)
    ensures Announced(Run(s, steps))
    decreases |steps|
  {
    if steps != [] {
      DoKeepsInv(s, steps[0]);
      DoKeepsAnnounced(s, steps[0]);
      RunKeepsAnnounced(Do(s, steps[0]), steps[1..]);
    }
  }

  /** In a directory that had none, wherever `_SUCCESS` is seen, at the end or before, every file is
      complete. */
  lemma SentinelMeansComplete(files: map<Path, Content>, targets: seq<Path>, steps: seq<Step>)
    requires Distinct(targets) && SENTINEL !in files
    ensures var s := Run(Init(files, targets), steps);
            SENTINEL in s.files && !s.main.Aborted? ==>
              forall i :: 0 <= i < |s.tasks| ==> Downloaded(s.files, s.tasks[i])
  {
    InitInv(files, targets);
    RunKeepsInv(Init(files, targets), steps);
    RunKeepsAnnounced(Init(files, targets), steps);
  }

  predicate Closed(m: Main) {
    m.Succeeded? || m.Aborted?
  }

  /** Once the main thread is past the pool no worker step changes anything, so the clean-up never
      runs while a worker can still write. */
  lemma WorkersAreGone(files: map<Path, Content>, targets: seq<Path>, steps: seq<Step>, step: Step)
    requires Distinct(targets) && IsTaskStep(step)
    ensures var s := Run(Init(files, targets), steps);
            PoolGone(s.main) ==> Do(s, step) == s
  {
    InitInv(files, targets);
    RunKeepsInv(Init(files, targets), steps);
    var s := Run(Init(files, targets), steps);
    if PoolGone(s.main) && step.i < |s.tasks| {
      TaskStepFrame(s, step.i, step);
    }
  }

  /** What the run ends with stays: no later step of any thread changes it. */
  lemma {:induction false} EndIsFinal(s: State, steps: seq<Step>)
    requires Inv(s) && Closed(s.main)
    ensures Run(s, steps) == s
    decreases |steps|
  {
    if steps != [] {
      if IsTaskStep(steps[0]) && steps[0].i < |s.tasks| {
        TaskStepFrame(s, steps[0].i, steps[0]);
      }
      assert Do(s, steps[0]) == s;
      EndIsFinal(s, steps[1..]);
    }
  }

  /** A run that is interrupted while it collects, or that collects a failed task, never succeeds, however it
      goes on. */
  lemma LostNeverSucceeds(s: State, first: Step, steps: seq<Step>)
    requires s.main.Collecting?
    requires first.Interrupt? ||
             (first.Collect? && first.i < |s.tasks| && first.i !in s.collected && s.tasks[first.i].phase.Failed?)
    ensures Lost(Run(Do(s, first), steps).main) && !Run(Do(s, first), steps).main.Succeeded?
  {
    RunStaysLost(Do(s, first), steps);
  }

  lemma {:induction false} RunStaysLost(s: State, steps: seq<Step>)
    requires Lost(s.main)
    ensures Lost(Run(s, steps).main)
    decreases |steps|
  {
    if steps != [] {
      RunStaysLost(Do(s, steps[0]), steps[1..]);
    }
  }

  lemma TaskCanMove(s: State, i: nat) returns (step: Step)
    requires i < |s.tasks| && !Over(s.tasks[i].phase)
    requires s.tasks[i].phase.Writing? ==> s.tasks[i].phase.next <= |s.tasks[i].phase.chunks|
    ensures Do(s, step).tasks != s.tasks
  {
    var t := s.tasks[i];
    match t.phase
    case Queued => step := Start(i);
    case Requesting => step := Answer(i, Expired);
    case Writing(chunks, _, next, _) => step := if next < |chunks| then WriteChunk(i) else EndStream(i);
    case Sleeping => step := Wake(i);
    assert Do(s, step).tasks[i].phase != t.phase;
  }

  // Every task is over: the main thread can move.
  lemma MainCanMove(s: State) returns (step: Step)
    requires AllOver(s) && !Closed(s.main)
    ensures Do(s, step) != s
  {
    if s.main.Joining? {
      step := Join;
    } else if s.main.Finishing? {
      step := WriteSentinel(true);
    } else if s.main.Cleaning? {
      step := Remove(true);
    } else if i :| 0 <= i < |s.tasks| && i !in s.collected {
      step := Collect(i);
      assert Over(s.tasks[i].phase);
      assert s.tasks[i].phase.Done? ==> Do(s, step).completed == s.completed + 1;
    } else {
      step := CollectedAll;
    }
  }

  /** The run never gets stuck: until it has ended some thread can move. */
  lemma NeverStuck(files: map<Path, Content>, targets: seq<Path>, steps: seq<Step>) returns (step: Step)
    requires Distinct(targets) && !Closed(Run(Init(files, targets), steps).main)
    ensures Do(Run(Init(files, targets), steps), step) != Run(Init(files, targets), steps)
  {
    InitInv(files, targets);
    RunKeepsInv(Init(files, targets), steps);
    var s := Run(Init(files, targets), steps);
    if i :| 0 <= i < |s.tasks| && !Over(s.tasks[i].phase) {
      assert Kept(s.files, s.tasks[i]);
      step := TaskCanMove(s, i);
    } else {
      step := MainCanMove(s);
    }
  }

  lemma {:induction false} RunConcat(s: State, xs: seq<Step>, ys: seq<Step>)
    ensures Run(s, xs + ys) == Run(Run(s, xs), ys)
    decreases |xs|
  {
    if xs == [] {
      assert xs + ys == ys;
    } else {
      assert (xs + ys)[0] == xs[0] && (xs + ys)[1..] == xs[1..] + ys;
      RunConcat(Do(s, xs[0]), xs[1..], ys);
    }
  }

  lemma OneDownload(s: State, i: nat, a: Bytes)
    requires i < |s.tasks| && s.tasks[i].phase.Queued? && s.tasks[i].replies == []
    ensures Run(s, [Start(i), Answer(i, Stream([a], Complete)), WriteChunk(i), EndStream(i)]) ==
            s.(files := s.files[s.tasks[i].target := Data(a)],
               tasks := s.tasks[i := Task(s.tasks[i].target, [Stream([a], Complete)], Done(|a|))])
  {
    var steps := [Start(i), Answer(i, Stream([a], Complete)), WriteChunk(i), EndStream(i)];
    var t := s.tasks[i];
    var s1 := Do(s, steps[0]);
    assert s1 == s.(tasks := s.tasks[i := t.(phase := Requesting)]);
    var s2 := Do(s1, steps[1]);
    assert s2.tasks[i] == Task(t.target, [Stream([a], Complete)], Writing([a], Complete, 0, 0));
    var s3 := Do(s2, steps[2]);
    assert [] + a == a;
    assert s3.tasks[i] == Task(t.target, [Stream([a], Complete)], Writing([a], Complete, 1, |a|));
    assert s3.files == s.files[t.target := Data(a)];
    var s4 := Do(s3, steps[3]);
    assert s4.tasks == s.tasks[i := Task(t.target, [Stream([a], Complete)], Done(|a|))];
    assert steps[3..][1..] == [];
    assert Run(s3, steps[3..]) == s4;
    assert steps[2..][1..] == steps[3..];
    assert Run(s2, steps[2..]) == s4;
    assert steps[1..][1..] == steps[2..];
    assert Run(s1, steps[1..]) == s4;
  }
}
