/** Distinct targets are exactly what the download needs: without them some run succeeds over a file
    that is not the one that was downloaded. */
module SharedTargets {
  import opened BulkDownloader

  ghost predicate Reaches(s: State, u: State) {
    exists steps :: Run(s, steps) == u
  }

  lemma RunReaches(s: State, u: State, steps: seq<Step>)
    requires Reaches(s, u)
    ensures Reaches(s, Run(u, steps))
  {
    var before :| Run(s, before) == u;
    RunConcat(s, before, steps);
  }

  lemma StepReaches(s: State, u: State, step: Step)
    requires Reaches(s, u)
    ensures Reaches(s, Do(u, step))
  {
    RunReaches(s, u, [step]);
    assert [step][1..] == [];
    assert Run(u, [step]) == Run(Do(u, step), []);
  }

  // Item i is answered with a byte of its own.
  function ByteFor(i: nat, k: nat): Bytes {
    if k == i then [0] else [1]
  }

  function Fetched(target: Path, a: Bytes): Task {
    Task(target, [Stream([a], Complete)], Done(|a|))
  }

  // Items one after the other: the files and tasks once the first m are downloaded.
  function FilesAfter(files: map<Path, Content>, targets: seq<Path>, i: nat, m: nat): map<Path, Content>
    requires m <= |targets|
  {
    if m == 0 then files else FilesAfter(files, targets, i, m - 1)[targets[m - 1] := Data(ByteFor(i, m - 1))]
  }

  function After(files: map<Path, Content>, targets: seq<Path>, i: nat, m: nat): State
    requires m <= |targets|
  {
    Init(files, targets).(
      files := FilesAfter(files, targets, i, m),
      tasks := seq(|targets|, k requires 0 <= k < |targets| =>
        if k < m then Fetched(targets[k], ByteFor(i, k)) else Task(targets[k], [], Queued)))
  }

  lemma {:induction false} Downloads(files: map<Path, Content>, targets: seq<Path>, i: nat, m: nat)
    requires m <= |targets|
    ensures Reaches(Init(files, targets), After(files, targets, i, m))
  {
    var s := Init(files, targets);
    if m == 0 {
      assert After(files, targets, i, 0).tasks == s.tasks;
      assert Run(s, []) == After(files, targets, i, 0);
    } else {
      Downloads(files, targets, i, m - 1);
      var u, a := After(files, targets, i, m - 1), ByteFor(i, m - 1);
      OneDownload(u, m - 1, a);
      RunReaches(s, u, [Start(m - 1), Answer(m - 1, Stream([a], Complete)), WriteChunk(m - 1), EndStream(m - 1)]);
      assert u.tasks[m - 1 := Fetched(targets[m - 1], a)] == After(files, targets, i, m).tasks;
    }
  }

  lemma {:induction false} SharedFile(files: map<Path, Content>, targets: seq<Path>, i: nat, j: nat, m: nat)
    requires i < j < m <= |targets| && targets[i] == targets[j]
    ensures targets[i] in FilesAfter(files, targets, i, m) &&
            FilesAfter(files, targets, i, m)[targets[i]] == Data([1])
  {
    if m > j + 1 {
      SharedFile(files, targets, i, j, m - 1);
    }
  }

  function Below(m: nat): (r: set<nat>)
    ensures forall k: nat :: k in r <==> k < m
  {
    if m == 0 then {} else Below(m - 1) + {m - 1}
  }

  // The main thread collects them in order.
  function Collected(s: State, m: nat): State {
    s.(collected := Below(m), completed := m, totalBytes := m)
  }

  lemma {:induction false} Collects(s0: State, s: State, m: nat)
    requires Reaches(s0, Collected(s, 0)) && m <= |s.tasks| && s.main.Collecting?
    requires forall k :: 0 <= k < |s.tasks| ==> s.tasks[k].phase == Done(1)
    ensures Reaches(s0, Collected(s, m))
  {
    if m > 0 {
      Collects(s0, s, m - 1);
      StepReaches(s0, Collected(s, m - 1), Collect(m - 1));
      assert Do(Collected(s, m - 1), Collect(m - 1)) == Collected(s, m);
    }
  }

  // And closes.
  lemma Closes(s0: State, s: State)
    requires Reaches(s0, Collected(s, |s.tasks|)) && s.main.Collecting?
    requires forall k :: 0 <= k < |s.tasks| ==> s.tasks[k].phase == Done(1)
    ensures Reaches(s0, Collected(s, |s.tasks|).(files := s.files[SENTINEL := Summary(|s.tasks|)], main := Succeeded))
  {
    var s1 := Collected(s, |s.tasks|);
    StepReaches(s0, s1, CollectedAll);
    var s2 := s1.(main := Joining(true));
    assert Do(s1, CollectedAll) == s2;
    StepReaches(s0, s2, Join);
    var s3 := s1.(main := Finishing);
    assert Do(s2, Join) == s3;
    StepReaches(s0, s3, WriteSentinel(true));
  }

  // The state such a run ends in.
  function Closed(files: map<Path, Content>, targets: seq<Path>, i: nat): State {
    var n, s := |targets|, After(files, targets, i, |targets|);
    Collected(s, n).(files := s.files[SENTINEL := Summary(n)], main := Succeeded)
  }

  lemma ReachesClosed(files: map<Path, Content>, targets: seq<Path>, i: nat)
    ensures Reaches(Init(files, targets), Closed(files, targets, i))
  {
    var s := After(files, targets, i, |targets|);
    Downloads(files, targets, i, |targets|);
    assert Collected(s, 0) == s;
    Collects(Init(files, targets), s, |targets|);
    Closes(Init(files, targets), s);
  }

  lemma NotDownloaded(files: map<Path, Content>, targets: seq<Path>, i: nat)
    requires i < |targets|
    requires targets[i] == SENTINEL || exists j :: i < j < |targets| && targets[i] == targets[j]
    ensures var u := Closed(files, targets, i); !Downloaded(u.files, u.tasks[i])
  {
    if targets[i] != SENTINEL {
      var j :| i < j < |targets| && targets[i] == targets[j];
      SharedFile(files, targets, i, j, |targets|);
    }
    FetchedBody(targets[i], [0]);
    assert Closed(files, targets, i).tasks[i] == Fetched(targets[i], [0]);
  }

  lemma FetchedBody(target: Path, a: Bytes)
    ensures Body(Fetched(target, a)) == a
  {
    FlattenNext([a], 0);
    assert [a][..0] == [] && [a][..1] == [a];
  }

  /** If two items share a target, or one has that of `_SUCCESS`, there is a run from the start that
      succeeds, counts all files, and leaves one that is not what was downloaded. */
  lemma SharedTargetLosesOne(files: map<Path, Content>, targets: seq<Path>, i: nat) returns (steps: seq<Step>)
    requires i < |targets|
    requires targets[i] == SENTINEL || exists j :: i < j < |targets| && targets[i] == targets[j]
    ensures var s := Run(Init(files, targets), steps);
            s.main.Succeeded? && s.completed == |targets| == |s.tasks| && !Downloaded(s.files, s.tasks[i])
  {
    ReachesClosed(files, targets, i);
    NotDownloaded(files, targets, i);
    steps :| Run(Init(files, targets), steps) == Closed(files, targets, i);
  }

  ghost predicate SuccessIsComplete(files: map<Path, Content>, targets: seq<Path>) {
    forall steps :: Run(Init(files, targets), steps).main.Succeeded? ==>
      var s := Run(Init(files, targets), steps);
      forall i :: 0 <= i < |s.tasks| ==> Downloaded(s.files, s.tasks[i])
  }

  /** Every run that succeeds has every file downloaded if and only if the targets are pairwise
      distinct and none is that of `_SUCCESS`. */
  lemma CompleteIffDistinct(files: map<Path, Content>, targets: seq<Path>)
    ensures SuccessIsComplete(files, targets) <==> Distinct(targets)
  {
    if Distinct(targets) {
      forall steps | Run(Init(files, targets), steps).main.Succeeded?
        ensures var s := Run(Init(files, targets), steps);
                forall i :: 0 <= i < |s.tasks| ==> Downloaded(s.files, s.tasks[i])
      {
        AllOrNothing(files, targets, steps);
      }
    } else {
      var i :| 0 <= i < |targets| &&
        (targets[i] == SENTINEL || exists j :: i < j < |targets| && targets[i] == targets[j]);
      var steps := SharedTargetLosesOne(files, targets, i);
    }
  }
}
