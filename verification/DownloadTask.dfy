/** One download as the worker thread runs it, and the proof that it is a run of the task steps of
    the pool. */
module DownloadTask {
  import opened BulkDownloader

  datatype Outcome = Fetched(total: nat) | FastFail | Exhausted

  // How many of the answers are retried: those before the first that is not retryable.
  function Retried(replies: seq<Reply>): (n: nat)
    ensures n <= |replies| && AllRetryable(replies[..n])
    ensures n < |replies| ==> !Retryable(replies[n])
  {
    if replies == [] || !Retryable(replies[0]) then 0
    else
      assert forall k :: 0 < k <= Retried(replies[1..]) ==> replies[k] == replies[1..][k - 1];
      1 + Retried(replies[1..])
  }

  // What one answer leaves in the file: opening truncates, so nothing of an earlier answer stays.
  function AfterReply(files: map<Path, Content>, target: Path, reply: Reply): map<Path, Content> {
    if reply.Stream? then files[target := Data(Flatten(reply.chunks))] else files
  }

  function AfterReplies(files: map<Path, Content>, target: Path, replies: seq<Reply>): map<Path, Content> {
    if replies == [] then files
    else AfterReply(AfterReplies(files, target, replies[..|replies| - 1]), target, replies[|replies| - 1])
  }

  function OutcomeOf(replies: seq<Reply>): Outcome {
    var n := Retried(replies);
    if n == |replies| then Exhausted
    else if Served(replies[n]) then Fetched(|Flatten(replies[n].chunks)|)
    else FastFail
  }

  // The answers that are asked for at all.
  function Used(replies: seq<Reply>): seq<Reply> {
    var n := Retried(replies);
    replies[..if n < |replies| then n + 1 else n]
  }

  class Volume {
    var files: map<Path, Content>

    constructor (files: map<Path, Content>)
      ensures this.files == files
    {
      this.files := files;
    }

    /** Write the chunks of one answer, empty ones left out. */
    method WriteStream(target: Path, chunks: seq<Bytes>) returns (total: nat)
      modifies this
      ensures files == old(files)[target := Data(Flatten(chunks))]
      ensures total == |Flatten(chunks)|
    {
      files := files[target := Data([])];
      total := 0;
      for k := 0 to |chunks|
        invariant files == old(files)[target := Data(Flatten(chunks[..k]))]
        invariant total == |Flatten(chunks[..k])|
      {
        FlattenNext(chunks, k);
        assert chunks[k] == [] ==> Flatten(chunks[..k]) + chunks[k] == Flatten(chunks[..k]);
        if chunks[k] != [] {
          files := Append(files, target, chunks[k]);
          total := total + |chunks[k]|;
        }
      }
      assert chunks[..|chunks|] == chunks;
    }

    /** Fetch one file; `replies` are the answers the server would give to the attempts. */
    method DownloadOne(target: Path, replies: seq<Reply>) returns (r: Outcome)
      requires |replies| == 3
      modifies this
      ensures r == OutcomeOf(replies)
      ensures files == AfterReplies(old(files), target, Used(replies))
      ensures r.Fetched? ==> files == old(files)[target := Data(Flatten(replies[Retried(replies)].chunks))]
      ensures forall p :: p != target ==> (p in files <==> p in old(files))
      ensures forall p :: p != target && p in old(files) ==> files[p] == old(files)[p]
    {
      for attempt := 0 to ATTEMPTS
        invariant AllRetryable(replies[..attempt])
        invariant files == AfterReplies(old(files), target, replies[..attempt])
        invariant forall p :: p != target ==> (p in files <==> p in old(files))
        invariant forall p :: p != target && p in old(files) ==> files[p] == old(files)[p]
      {
        var reply := replies[attempt];
        assert replies[..attempt + 1][..attempt] == replies[..attempt];
        RetriedIs(replies, attempt);
        match reply {
          case Stream(chunks, ending) =>
            var total := WriteStream(target, chunks);
            if ending.Complete? {
              return Fetched(total);
            } else if ending.WriteError? {
              return FastFail;
            }
          case Expired => return FastFail;
          case OtherError => return FastFail;
          case ServerError =>
          case NetworkError =>
        }
      }
      RetriedIs(replies, ATTEMPTS);
      assert replies[..ATTEMPTS] == replies;
      return Exhausted;
    }
  }

  lemma {:induction false} RetriedIs(replies: seq<Reply>, k: nat)
    requires k <= |replies| && AllRetryable(replies[..k])
    ensures Retried(replies) >= k
    ensures k < |replies| && !Retryable(replies[k]) ==> Retried(replies) == k
  {
    if k > 0 {
      assert Retryable(replies[..k][0]);
      assert replies[1..][..k - 1] == replies[..k][1..];
      RetriedIs(replies[1..], k - 1);
    }
  }

  // 5xx, no connection, or a stream that breaks off.
  predicate IsTransient(r: Reply) {
    r.ServerError? || r.NetworkError? || (r.Stream? && r.ending == BrokenOff)
  }

  // The n-th answer is the first that is not transient.
  ghost predicate FirstOther(replies: seq<Reply>, n: int) {
    0 <= n < |replies| && !IsTransient(replies[n]) && forall k :: 0 <= k < n ==> IsTransient(replies[k])
  }

  /** How a download ends, by its answers: with the first stream that is complete if only a 5xx, network errors
      and broken streams came before it; at once with an expired URL, another status or a disk error, after the
      same; and exhausted if nothing else came at all. */
  lemma OutcomeIff(replies: seq<Reply>)
    ensures OutcomeOf(replies).Fetched? <==> exists n :: FirstOther(replies, n) && Served(replies[n])
    ensures forall n :: FirstOther(replies, n) && Served(replies[n]) ==>
      OutcomeOf(replies) == Fetched(|Flatten(replies[n].chunks)|)
    ensures OutcomeOf(replies).FastFail? <==>
      exists n :: FirstOther(replies, n) && (replies[n].Expired? || replies[n].OtherError? ||
                                             (replies[n].Stream? && replies[n].ending == WriteError))
    ensures OutcomeOf(replies).Exhausted? <==> forall k :: 0 <= k < |replies| ==> IsTransient(replies[k])
  {
    var n := Retried(replies);
    assert forall k :: 0 <= k < n ==> Retryable(replies[..n][k]);
    if n < |replies| {
      assert FirstOther(replies, n);
    }
    assert forall k :: FirstOther(replies, k) ==> k == n;
  }

  // -------------------------------------------------------------------------
  // The loop is a run of the pool's task steps
  // -------------------------------------------------------------------------

  function Writes(i: nat, n: nat): seq<Step> {
    if n == 0 then [] else [WriteChunk(i)] + Writes(i, n - 1)
  }

  function ReplySteps(i: nat, reply: Reply): seq<Step> {
    [Answer(i, reply)] + if reply.Stream? then Writes(i, |reply.chunks|) + [EndStream(i)] else []
  }

  // A task with `rest` still to be answered, after `before`.
  function AttemptSteps(i: nat, rest: seq<Reply>): seq<Step>
    decreases |rest|
  {
    if rest == [] then []
    else ReplySteps(i, rest[0]) +
         if Retryable(rest[0]) then [Wake(i)] + AttemptSteps(i, rest[1..]) else []
  }

  function PhaseOf(r: Outcome): Phase {
    if r.Fetched? then Done(r.total) else Failed
  }

  lemma {:induction false} WritesRun(s: State, i: nat, n: nat)
    requires i < |s.tasks| && s.tasks[i].phase.Writing?
    requires Kept(s.files, s.tasks[i]) && s.tasks[i].phase.next + n == |s.tasks[i].phase.chunks|
    ensures var t := s.tasks[i];
            var c := t.phase.chunks;
            Run(s, Writes(i, n)) ==
              s.(files := s.files[t.target := Data(Flatten(c))],
                 tasks := s.tasks[i := t.(phase := Writing(c, t.phase.ending, |c|, |Flatten(c)|))])
    decreases n
  {
    var t := s.tasks[i];
    var c := t.phase.chunks;
    if n == 0 {
      assert c[..t.phase.next] == c;
      assert s.files[t.target := Data(Flatten(c))] == s.files;
      assert s.tasks[i := t] == s.tasks;
    } else {
      var u := Do(s, WriteChunk(i));
      FlattenNext(c, t.phase.next);
      assert u.files == s.files[t.target := Data(Flatten(c[..t.phase.next + 1]))];
      WritesRun(u, i, n - 1);
      assert Writes(i, n)[1..] == Writes(i, n - 1);
      var w := t.(phase := Writing(c, t.phase.ending, |c|, |Flatten(c)|));
      assert u.tasks[i := w] == s.tasks[i := w];
      assert u.files[t.target := Data(Flatten(c))] == s.files[t.target := Data(Flatten(c))];
    }
  }

  // The phase a task is in once an answer is dealt with.
  function PhaseAfter(reply: Reply): Phase {
    if Served(reply) then Done(|Flatten(reply.chunks)|)
    else if Retryable(reply) then Sleeping
    else Failed
  }

  lemma ReplyRun(s: State, i: nat, reply: Reply)
    requires i < |s.tasks| && s.tasks[i].phase.Requesting?
    ensures var t := s.tasks[i];
            Run(s, ReplySteps(i, reply)) ==
              s.(files := AfterReply(s.files, t.target, reply),
                 tasks := s.tasks[i := Task(t.target, t.replies + [reply], PhaseAfter(reply))])
  {
    var t := s.tasks[i];
    if reply.Stream? {
      StreamRun(s, i, reply);
    } else {
      var s1 := Do(s, Answer(i, reply));
      assert ReplySteps(i, reply)[1..] == [];
      assert s1.tasks == s.tasks[i := Task(t.target, t.replies + [reply], PhaseAfter(reply))];
    }
  }

  // The state once the headers of a stream are in.
  function Answered(s: State, i: nat, reply: Reply): State
    requires i < |s.tasks| && reply.Stream?
  {
    var t := s.tasks[i];
    s.(files := s.files[t.target := Data([])],
       tasks := s.tasks[i := Task(t.target, t.replies + [reply], Writing(reply.chunks, reply.ending, 0, 0))])
  }

  lemma AnsweredIs(s: State, i: nat, reply: Reply)
    requires i < |s.tasks| && s.tasks[i].phase.Requesting? && reply.Stream?
    ensures Do(s, Answer(i, reply)) == Answered(s, i, reply)
  {
  }

  // And once all its chunks are written.
  function Written(s: State, i: nat, reply: Reply): State
    requires i < |s.tasks| && reply.Stream?
  {
    var t, c := s.tasks[i], reply.chunks;
    s.(files := s.files[t.target := Data(Flatten(c))],
       tasks := s.tasks[i := Task(t.target, t.replies + [reply], Writing(c, reply.ending, |c|, |Flatten(c)|))])
  }

  lemma AnsweredToWritten(s: State, i: nat, reply: Reply)
    requires i < |s.tasks| && reply.Stream?
    ensures Run(Answered(s, i, reply), Writes(i, |reply.chunks|)) == Written(s, i, reply)
  {
    var u := Answered(s, i, reply);
    assert reply.chunks[..0] == [];
    WritesRun(u, i, |reply.chunks|);
    assert u.tasks[i := Written(s, i, reply).tasks[i]] == Written(s, i, reply).tasks;
    assert u.files[s.tasks[i].target := Data(Flatten(reply.chunks))] == Written(s, i, reply).files;
  }

  lemma WrittenEnds(s: State, i: nat, reply: Reply)
    requires i < |s.tasks| && reply.Stream?
    ensures var t, u := s.tasks[i], Written(s, i, reply);
            Run(u, [EndStream(i)]) ==
              s.(files := u.files, tasks := s.tasks[i := Task(t.target, t.replies + [reply], PhaseAfter(reply))])
  {
    var t, u := s.tasks[i], Written(s, i, reply);
    StreamEnds(u, i);
    var ended := Task(t.target, t.replies + [reply], PhaseAfter(reply));
    assert AfterStream(u.tasks[i]) == ended;
    assert u.tasks[i := ended] == s.tasks[i := ended];
  }

  lemma StreamRun(s: State, i: nat, reply: Reply)
    requires i < |s.tasks| && s.tasks[i].phase.Requesting? && reply.Stream?
    ensures var t := s.tasks[i];
            Run(s, ReplySteps(i, reply)) ==
              s.(files := s.files[t.target := Data(Flatten(reply.chunks))],
                 tasks := s.tasks[i := Task(t.target, t.replies + [reply], PhaseAfter(reply))])
  {
    var writes := Writes(i, |reply.chunks|);
    AnsweredIs(s, i, reply);
    AnsweredToWritten(s, i, reply);
    WrittenEnds(s, i, reply);
    RunConcat(Answered(s, i, reply), writes, [EndStream(i)]);
    assert ReplySteps(i, reply) == [Answer(i, reply)] + (writes + [EndStream(i)]);
    assert ReplySteps(i, reply)[1..] == writes + [EndStream(i)];
  }

  lemma StreamEnds(s: State, i: nat)
    requires i < |s.tasks| && s.tasks[i].phase.Writing? && s.tasks[i].phase.next == |s.tasks[i].phase.chunks|
    ensures Run(s, [EndStream(i)]) == s.(tasks := s.tasks[i := AfterStream(s.tasks[i])])
  {
    assert [EndStream(i)][1..] == [];
    assert Run(Do(s, EndStream(i)), []) == Do(s, EndStream(i));
  }

  lemma {:induction false} AfterRepliesFirst(files: map<Path, Content>, target: Path, replies: seq<Reply>)
    requires replies != []
    ensures AfterReplies(files, target, replies) ==
            AfterReplies(AfterReply(files, target, replies[0]), target, replies[1..])
    decreases |replies|
  {
    if |replies| > 1 {
      var front := replies[..|replies| - 1];
      AfterRepliesFirst(files, target, front);
      assert replies[1..][..|replies| - 2] == front[1..];
    } else {
      assert replies[..0] == [] && replies[1..] == [];
    }
  }

  lemma UsedTail(rest: seq<Reply>)
    requires rest != []
    ensures Used(rest) == [rest[0]] + if Retryable(rest[0]) then Used(rest[1..]) else []
    ensures PhaseOf(OutcomeOf(rest)) ==
            if !Retryable(rest[0]) then PhaseAfter(rest[0])
            else if |rest| > 1 then PhaseOf(OutcomeOf(rest[1..])) else Failed
  {
  }

  lemma FilesTail(files: map<Path, Content>, target: Path, rest: seq<Reply>)
    requires rest != []
    ensures AfterReplies(files, target, Used(rest)) ==
            var first := AfterReply(files, target, rest[0]);
            if Retryable(rest[0]) then AfterReplies(first, target, Used(rest[1..])) else first
  {
    UsedTail(rest);
    AfterRepliesFirst(files, target, Used(rest));
    assert Used(rest)[1..] == if Retryable(rest[0]) then Used(rest[1..]) else [];
  }

  // Where the loop leaves the pool.
  function Ended(s: State, i: nat, rest: seq<Reply>): State
    requires i < |s.tasks|
  {
    var t := s.tasks[i];
    s.(files := AfterReplies(s.files, t.target, Used(rest)),
       tasks := s.tasks[i := Task(t.target, t.replies + Used(rest), PhaseOf(OutcomeOf(rest)))])
  }

  // After one answer that is retried.
  function Again(s: State, i: nat, reply: Reply): State
    requires i < |s.tasks|
  {
    var t := s.tasks[i];
    s.(files := AfterReply(s.files, t.target, reply),
       tasks := s.tasks[i := Task(t.target, t.replies + [reply], Requesting)])
  }

  lemma EndedAgain(s: State, i: nat, rest: seq<Reply>)
    requires i < |s.tasks| && |rest| > 1 && Retryable(rest[0])
    ensures Ended(Again(s, i, rest[0]), i, rest[1..]) == Ended(s, i, rest)
  {
    var t, u := s.tasks[i], Again(s, i, rest[0]);
    UsedTail(rest);
    FilesTail(s.files, t.target, rest);
    assert t.replies + Used(rest) == t.replies + [rest[0]] + Used(rest[1..]);
    assert u.tasks[i := Ended(s, i, rest).tasks[i]] == Ended(s, i, rest).tasks;
  }

  lemma FirstAttempt(s: State, i: nat, rest: seq<Reply>)
    requires i < |s.tasks| && s.tasks[i].phase.Requesting?
    requires rest != [] && |s.tasks[i].replies| + |rest| == ATTEMPTS
    ensures Run(s, AttemptSteps(i, rest)) ==
            if |rest| > 1 && Retryable(rest[0]) then Run(Again(s, i, rest[0]), AttemptSteps(i, rest[1..]))
            else Ended(s, i, rest)
  {
    var t := s.tasks[i];
    ReplyRun(s, i, rest[0]);
    var tail := if Retryable(rest[0]) then [Wake(i)] + AttemptSteps(i, rest[1..]) else [];
    RunConcat(s, ReplySteps(i, rest[0]), tail);
    var s1 := Run(s, ReplySteps(i, rest[0]));
    if Retryable(rest[0]) {
      WakeRun(s1, i, rest[1..]);
    }
    if |rest| > 1 && Retryable(rest[0]) {
      assert s1.tasks[i := Again(s, i, rest[0]).tasks[i]] == Again(s, i, rest[0]).tasks;
    } else {
      UsedTail(rest);
      FilesTail(s.files, t.target, rest);
      assert Used(rest) == [rest[0]];
      assert s1.tasks[i := Ended(s, i, rest).tasks[i]] == Ended(s, i, rest).tasks;
    }
  }

  /** Whatever the server answers, the loop of the worker does what the task steps of the pool do:
      the same file, the same answers used, the same end. */
  lemma {:induction false} DownloadIsARun(s: State, i: nat, rest: seq<Reply>)
    requires i < |s.tasks| && s.tasks[i].phase.Requesting?
    requires rest != [] && |s.tasks[i].replies| + |rest| == ATTEMPTS
    ensures var t := s.tasks[i];
            Run(s, AttemptSteps(i, rest)) ==
              s.(files := AfterReplies(s.files, t.target, Used(rest)),
                 tasks := s.tasks[i := Task(t.target, t.replies + Used(rest), PhaseOf(OutcomeOf(rest)))])
    decreases |rest|
  {
    FirstAttempt(s, i, rest);
    if |rest| > 1 && Retryable(rest[0]) {
      DownloadIsARun(Again(s, i, rest[0]), i, rest[1..]);
      EndedAgain(s, i, rest);
    }
  }

  lemma WakeRun(s: State, i: nat, rest: seq<Reply>)
    requires i < |s.tasks| && s.tasks[i].phase.Sleeping?
    requires |s.tasks[i].replies| + |rest| == ATTEMPTS
    ensures Run(s, [Wake(i)] + AttemptSteps(i, rest)) ==
            if rest == [] then s.(tasks := s.tasks[i := s.tasks[i].(phase := Failed)])
            else Run(s.(tasks := s.tasks[i := s.tasks[i].(phase := Requesting)]), AttemptSteps(i, rest))
  {
    assert ([Wake(i)] + AttemptSteps(i, rest))[1..] == AttemptSteps(i, rest);
  }
}
