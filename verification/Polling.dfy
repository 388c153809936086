/** Polling a workflow run or a pipeline update with an idle timeout: the clock starts again whenever
    the reported state changes. */
module Polling {
  import opened Wrappers

  // What a poll of a workflow run reports, as far as the loop looks at it.
  datatype Status = Status(lifeCycle: string, result: string, tasks: seq<TaskState>)

  datatype TaskState = TaskState(key: string, lifeCycle: string, result: string)

  datatype Reply<S> = Got(status: S) | Raised

  // One turn of the loop: the clock at the check, the answer, the clock after the answer.
  datatype Round<S> = Round(check: real, reply: Reply<S>, after: real)

  datatype Outcome = Finished(state: string) | TimedOut | Failed | Unfinished

  // Polls a minute: a workflow run is polled every 30 seconds, a pipeline update every 15.
  type Rate = r: nat | r == 2 || r == 4 witness 2

  const WORKFLOW: Rate := 2
  const PIPELINE: Rate := 4

  function Pause(rate: Rate): real {
    if rate == 2 then 30.0 else 15.0
  }

  predicate RunIsOver(s: Status) {
    s.lifeCycle in {"TERMINATED", "SKIPPED", "INTERNAL_ERROR"}
  }

  function Verdict(s: Status): string {
    if s.result != "" then s.result else s.lifeCycle
  }

  predicate UpdateIsOver(state: string) {
    state in {"COMPLETED", "FAILED", "CANCELED"}
  }

  // The clock never goes back, and a poll comes after a pause.
  ghost predicate Monotone<S>(rate: Rate, start: real, rounds: seq<Round<S>>) {
    && (rounds != [] ==> start <= rounds[0].check)
    && (forall i :: 0 <= i < |rounds| ==> rounds[i].check + Pause(rate) <= rounds[i].after)
    && (forall i :: 0 < i < |rounds| ==> rounds[i - 1].after <= rounds[i].check)
  }

  // The first answer counts as a change, an error does not.
  ghost predicate Changed<S>(rounds: seq<Round<S>>, i: nat)
    requires i < |rounds|
  {
    rounds[i].reply.Got? && (i == 0 || rounds[i].reply != rounds[i - 1].reply)
  }

  ghost function Changes<S>(rounds: seq<Round<S>>, n: nat): nat
    requires n <= |rounds|
  {
    if n == 0 then 0 else Changes(rounds, n - 1) + if Changed(rounds, n - 1) then 1 else 0
  }

  // When the state was last seen to change, before round n.
  ghost function LastChange<S>(start: real, rounds: seq<Round<S>>, n: nat): real
    requires n <= |rounds|
  {
    if n == 0 then start
    else if Changed(rounds, n - 1) then rounds[n - 1].after
    else LastChange(start, rounds, n - 1)
  }

  function Minutes(n: int): real {
    60.0 * n as real
  }

  // Rounds that were polled, in time, and did not end the loop.
  ghost predicate Going<S>(over: S -> bool, wait: int, start: real, rounds: seq<Round<S>>, n: nat)
    requires n <= |rounds|
  {
    forall i :: 0 <= i < n ==>
      rounds[i].check < LastChange(start, rounds, i) + Minutes(wait) && rounds[i].reply.Got? &&
      !over(rounds[i].reply.status)
  }

  // How often the loop polls: at most `rate` times a minute of the wait for every change it sees,
  // and once more.
  ghost predicate Bounded<S>(rate: Rate, wait: int, rounds: seq<Round<S>>, polls: nat)
    requires polls <= |rounds|
  {
    if wait > 0 then polls <= 1 + rate * wait * Changes(rounds, polls) else polls == 0
  }

  // The last poll was made in time, after polls that did not end the loop.
  ghost predicate LastPoll<S>(over: S -> bool, wait: int, start: real, rounds: seq<Round<S>>, polls: nat)
    requires polls <= |rounds|
  {
    polls > 0 && Going(over, wait, start, rounds, polls - 1) &&
    rounds[polls - 1].check < LastChange(start, rounds, polls - 1) + Minutes(wait)
  }

  // The ways the loop can end.
  ghost predicate EndsWell<S>(
    over: S -> bool, verdict: S -> string, rate: Rate, wait: int, start: real, rounds: seq<Round<S>>, r: Outcome,
    polls: nat)
  {
    polls <= |rounds| && Bounded(rate, wait, rounds, polls) &&
    match r
    case Unfinished => polls == |rounds| && Going(over, wait, start, rounds, polls)
    case TimedOut =>
      polls < |rounds| && Going(over, wait, start, rounds, polls) &&
      rounds[polls].check - LastChange(start, rounds, polls) >= Minutes(wait)
    case Failed => LastPoll(over, wait, start, rounds, polls) && rounds[polls - 1].reply.Raised?
    case Finished(state) =>
      LastPoll(over, wait, start, rounds, polls) && rounds[polls - 1].reply.Got? &&
      over(rounds[polls - 1].reply.status) && state == verdict(rounds[polls - 1].reply.status)
  }

  // `idle` polls since the last change took a pause each and fit into the wait.
  ghost predicate Tally<S>(rate: Rate, wait: int, start: real, rounds: seq<Round<S>>, polls: nat, idle: nat)
    requires polls <= |rounds|
  {
    if polls == 0 then idle == 0
    else
      && wait > 0 && idle <= rate * wait && Changes(rounds, polls) >= 1
      && polls <= 1 + rate * wait * (Changes(rounds, polls) - 1) + idle
      && LastChange(start, rounds, polls) + Pause(rate) * idle as real <= rounds[polls - 1].after
  }

  lemma OneMoreWait(rate: Rate, wait: int, k: int)
    ensures rate * wait * k == rate * wait * (k - 1) + rate * wait
  {
  }

  // A check that comes in time leaves room for one more poll.
  lemma InTime<S>(rate: Rate, wait: int, start: real, rounds: seq<Round<S>>, polls: nat, idle: nat)
    requires Monotone(rate, start, rounds) && 0 < polls < |rounds| && Tally(rate, wait, start, rounds, polls, idle)
    requires rounds[polls].check < LastChange(start, rounds, polls) + Minutes(wait)
    ensures idle < rate * wait
  {
    assert rounds[polls - 1].after <= rounds[polls].check;
  }

  lemma PollBound<S>(rate: Rate, wait: int, start: real, rounds: seq<Round<S>>, polls: nat, idle: nat)
    requires Monotone(rate, start, rounds) && polls < |rounds| && Tally(rate, wait, start, rounds, polls, idle)
    requires rounds[polls].check < LastChange(start, rounds, polls) + Minutes(wait)
    ensures wait > 0 && polls + 1 <= 1 + rate * wait * Changes(rounds, polls + 1)
  {
    var k := Changes(rounds, polls);
    if polls > 0 {
      InTime(rate, wait, start, rounds, polls, idle);
      OneMoreWait(rate, wait, k);
      OneMoreWait(rate, wait, k + 1);
    }
  }

  lemma TallyNext<S>(rate: Rate, wait: int, start: real, rounds: seq<Round<S>>, polls: nat, idle: nat)
    requires Monotone(rate, start, rounds) && polls < |rounds| && Tally(rate, wait, start, rounds, polls, idle)
    requires rounds[polls].check < LastChange(start, rounds, polls) + Minutes(wait) && rounds[polls].reply.Got?
    ensures Tally(rate, wait, start, rounds, polls + 1, if Changed(rounds, polls) then 0 else idle + 1)
  {
    if polls > 0 {
      InTime(rate, wait, start, rounds, polls, idle);
      assert rounds[polls - 1].after <= rounds[polls].check;
      OneMoreWait(rate, wait, Changes(rounds, polls));
    }
  }

  lemma TallyBound<S>(rate: Rate, wait: int, start: real, rounds: seq<Round<S>>, polls: nat, idle: nat)
    requires polls <= |rounds| && Tally(rate, wait, start, rounds, polls, idle)
    ensures wait > 0 ==> polls <= 1 + rate * wait * Changes(rounds, polls)
    ensures wait <= 0 ==> polls == 0
  {
    if polls > 0 {
      OneMoreWait(rate, wait, Changes(rounds, polls));
    }
  }

  // Where the loop is between two turns.
  ghost predicate Turn<S>(
    over: S -> bool, rate: Rate, wait: int, start: real, rounds: seq<Round<S>>, polls: nat, idle: nat,
    idleDeadline: real, last: Option<S>)
  {
    && polls <= |rounds| && Going(over, wait, start, rounds, polls)
    && idleDeadline == LastChange(start, rounds, polls) + Minutes(wait)
    && last == (if polls == 0 then None else Some(rounds[polls - 1].reply.status))
    && Tally(rate, wait, start, rounds, polls, idle)
  }

  lemma EndsBeforePoll<S>(
    over: S -> bool, verdict: S -> string, rate: Rate, wait: int, start: real, rounds: seq<Round<S>>, polls: nat,
    idle: nat, idleDeadline: real, last: Option<S>)
    requires Turn(over, rate, wait, start, rounds, polls, idle, idleDeadline, last)
    requires polls < |rounds| ==> rounds[polls].check >= idleDeadline
    ensures EndsWell(over, verdict, rate, wait, start, rounds, if polls < |rounds| then TimedOut else Unfinished, polls)
  {
    TallyBound(rate, wait, start, rounds, polls, idle);
  }

  lemma EndsAfterPoll<S>(
    over: S -> bool, verdict: S -> string, rate: Rate, wait: int, start: real, rounds: seq<Round<S>>, polls: nat,
    idle: nat, idleDeadline: real, last: Option<S>)
    requires Monotone(rate, start, rounds) && Turn(over, rate, wait, start, rounds, polls, idle, idleDeadline, last)
    requires polls < |rounds| && rounds[polls].check < idleDeadline
    ensures rounds[polls].reply.Raised? ==>
              EndsWell(over, verdict, rate, wait, start, rounds, Failed, polls + 1)
    ensures rounds[polls].reply.Got? && over(rounds[polls].reply.status) ==>
              var state := verdict(rounds[polls].reply.status);
              EndsWell(over, verdict, rate, wait, start, rounds, Finished(state), polls + 1)
  {
    PollBound(rate, wait, start, rounds, polls, idle);
  }

  lemma NextTurn<S>(
    over: S -> bool, rate: Rate, wait: int, start: real, rounds: seq<Round<S>>, polls: nat, idle: nat,
    idleDeadline: real, last: Option<S>)
    requires Monotone(rate, start, rounds) && Turn(over, rate, wait, start, rounds, polls, idle, idleDeadline, last)
    requires polls < |rounds| && rounds[polls].check < idleDeadline
    requires rounds[polls].reply.Got? && !over(rounds[polls].reply.status)
    ensures var status := rounds[polls].reply.status;
            Turn(over, rate, wait, start, rounds, polls + 1, if last != Some(status) then 0 else idle + 1,
                 if last != Some(status) then rounds[polls].after + Minutes(wait) else idleDeadline, Some(status))
  {
    TallyNext(rate, wait, start, rounds, polls, idle);
    assert Changed(rounds, polls) <==> last != Some(rounds[polls].reply.status);
  }

  /** Returns only at a terminal state, times out only when nothing changed for the whole wait, and
      polls at most 1 + 2 * wait times the changes it sees. */
  method PollWorkflowRun(wait: int, start: real, rounds: seq<Round<Status>>) returns (r: Outcome, polls: nat)
    requires Monotone(WORKFLOW, start, rounds)
    ensures EndsWell(RunIsOver, Verdict, WORKFLOW, wait, start, rounds, r, polls)
  {
    var idleDeadline := start + Minutes(wait);
    var last: Option<Status> := None;
    polls := 0;
    ghost var idle := 0;
    while polls < |rounds|
      invariant Turn(RunIsOver, WORKFLOW, wait, start, rounds, polls, idle, idleDeadline, last)
    {
      var round := rounds[polls];
      if round.check >= idleDeadline {
        EndsBeforePoll(RunIsOver, Verdict, WORKFLOW, wait, start, rounds, polls, idle, idleDeadline, last);
        return TimedOut, polls;
      }
      EndsAfterPoll(RunIsOver, Verdict, WORKFLOW, wait, start, rounds, polls, idle, idleDeadline, last);
      if round.reply.Raised? {
        return Failed, polls + 1;
      }
      var status := round.reply.status;
      var over := RunIsOver(status);
      if !over {
        NextTurn(RunIsOver, WORKFLOW, wait, start, rounds, polls, idle, idleDeadline, last);
      }
      polls := polls + 1;
      idle := if last != Some(status) then 0 else idle + 1;
      if last != Some(status) {
        last := Some(status);
        idleDeadline := round.after + Minutes(wait);
      }
      if over {
        return Finished(Verdict(status)), polls;
      }
    }
    EndsBeforePoll(RunIsOver, Verdict, WORKFLOW, wait, start, rounds, polls, idle, idleDeadline, last);
    return Unfinished, polls;
  }

  function Same(state: string): string {
    state
  }

  /** The same with a poll every 15 seconds, so at most 1 + 4 * wait times the changes; here the
      terminal check comes before the clock starts again. States are upper-cased names. */
  method PollPipelineUpdate(wait: int, start: real, rounds: seq<Round<string>>) returns (r: Outcome, polls: nat)
    requires Monotone(PIPELINE, start, rounds)
    ensures EndsWell(UpdateIsOver, Same, PIPELINE, wait, start, rounds, r, polls)
  {
    var idleDeadline := start + Minutes(wait);
    var last: Option<string> := None;
    polls := 0;
    ghost var idle := 0;
    while polls < |rounds|
      invariant Turn(UpdateIsOver, PIPELINE, wait, start, rounds, polls, idle, idleDeadline, last)
    {
      var round := rounds[polls];
      if round.check >= idleDeadline {
        EndsBeforePoll(UpdateIsOver, Same, PIPELINE, wait, start, rounds, polls, idle, idleDeadline, last);
        return TimedOut, polls;
      }
      EndsAfterPoll(UpdateIsOver, Same, PIPELINE, wait, start, rounds, polls, idle, idleDeadline, last);
      if round.reply.Raised? {
        return Failed, polls + 1;
      }
      var state := round.reply.status;
      if UpdateIsOver(state) {
        return Finished(state), polls + 1;
      }
      NextTurn(UpdateIsOver, PIPELINE, wait, start, rounds, polls, idle, idleDeadline, last);
      polls := polls + 1;
      idle := if last != Some(state) then 0 else idle + 1;
      if last != Some(state) {
        last := Some(state);
        idleDeadline := round.after + Minutes(wait);
      }
    }
    EndsBeforePoll(UpdateIsOver, Same, PIPELINE, wait, start, rounds, polls, idle, idleDeadline, last);
    return Unfinished, polls;
  }

  // -------------------------------------------------------------------------
  // What the ends mean
  // -------------------------------------------------------------------------

  // When the answer k was in, or the start.
  function Since<S>(start: real, rounds: seq<Round<S>>, k: nat): real
    requires k <= |rounds|
  {
    if k == 0 then start else rounds[k - 1].after
  }

  // Answers k, k + 1, ..., n - 1 repeat the answer before them; before the first answer nothing is repeated.
  ghost predicate Repeats<S>(rounds: seq<Round<S>>, k: nat, n: nat)
    requires k <= n <= |rounds|
  {
    (k == 0 ==> n == 0) && forall i :: k <= i < n ==> rounds[i].reply == rounds[k - 1].reply
  }

  lemma {:induction false} RepeatsSince<S>(start: real, rounds: seq<Round<S>>, n: nat) returns (k: nat)
    requires n <= |rounds| && forall i :: 0 <= i < n ==> rounds[i].reply.Got?
    ensures k <= n && Repeats(rounds, k, n) && LastChange(start, rounds, n) == Since(start, rounds, k)
  {
    if n == 0 || Changed(rounds, n - 1) {
      k := n;
    } else {
      k := RepeatsSince(start, rounds, n - 1);
    }
  }

  /** A timeout comes only after the same answer for 60 seconds times the wait, in whatever loop. */
  lemma TimeoutMeansQuiet<S>(
    over: S -> bool, verdict: S -> string, rate: Rate, wait: int, start: real, rounds: seq<Round<S>>, polls: nat)
    returns (k: nat)
    requires EndsWell(over, verdict, rate, wait, start, rounds, TimedOut, polls)
    ensures k <= polls < |rounds| && Repeats(rounds, k, polls)
    ensures rounds[polls].check - Since(start, rounds, k) >= 60.0 * wait as real
  {
    k := RepeatsSince(start, rounds, polls);
  }

  /** The poll of a workflow run ends well with its result, or with its state if it has none, and only in one
      of the three terminal states, none of which it saw before; it polls at most twice a minute. */
  lemma WorkflowEnds(wait: int, start: real, rounds: seq<Round<Status>>, r: Outcome, polls: nat)
    requires EndsWell(RunIsOver, Verdict, WORKFLOW, wait, start, rounds, r, polls)
    ensures r.Finished? ==>
      polls > 0 && rounds[polls - 1].reply.Got? && Terminal(rounds[polls - 1].reply.status.lifeCycle) &&
      var s := rounds[polls - 1].reply.status;
      r.state == if s.result == "" then s.lifeCycle else s.result
    ensures forall i :: 0 <= i < polls && (i < polls - 1 || r.TimedOut? || r.Unfinished?) ==>
      rounds[i].reply.Got? && !Terminal(rounds[i].reply.status.lifeCycle)
    ensures wait > 0 ==> polls <= 1 + 2 * wait * Changes(rounds, polls)
  {
  }

  predicate Terminal(lifeCycle: string) {
    lifeCycle == "TERMINATED" || lifeCycle == "SKIPPED" || lifeCycle == "INTERNAL_ERROR"
  }

  /** And of a pipeline update with its state, in one of its three terminal states; at most four times a
      minute. */
  lemma UpdateEnds(wait: int, start: real, rounds: seq<Round<string>>, r: Outcome, polls: nat)
    requires EndsWell(UpdateIsOver, Same, PIPELINE, wait, start, rounds, r, polls)
    ensures r.Finished? ==>
      polls > 0 && rounds[polls - 1].reply == Got(r.state) &&
      (r.state == "COMPLETED" || r.state == "FAILED" || r.state == "CANCELED")
    ensures forall i :: 0 <= i < polls && (i < polls - 1 || r.TimedOut? || r.Unfinished?) ==>
      rounds[i].reply != Got("COMPLETED") && rounds[i].reply != Got("FAILED") && rounds[i].reply != Got("CANCELED")
    ensures wait > 0 ==> polls <= 1 + 4 * wait * Changes(rounds, polls)
  {
  }

  // -------------------------------------------------------------------------
  // The bound is met
  // -------------------------------------------------------------------------

  // A run that reports the same state at every poll.
  function Stuck<S>(rate: Rate, status: S, n: nat): (rounds: seq<Round<S>>)
    ensures |rounds| == n
    ensures forall i :: 0 <= i < n ==>
      rounds[i] == Round(Pause(rate) * i as real, Got(status), Pause(rate) * i as real + Pause(rate))
  {
    if n == 0 then []
    else Stuck(rate, status, n - 1) +
         [Round(Pause(rate) * (n - 1) as real, Got(status), Pause(rate) * (n - 1) as real + Pause(rate))]
  }

  lemma {:induction false} StuckOnce<S>(rate: Rate, status: S, m: nat, n: nat)
    requires 0 < n <= m
    ensures Changes(Stuck(rate, status, m), n) == 1
    ensures LastChange(0.0, Stuck(rate, status, m), n) == Pause(rate)
  {
    if n > 1 {
      StuckOnce(rate, status, m, n - 1);
    }
  }

  /** The bound is tight: a run that never changes after its first answer is polled exactly
      1 + rate * wait times, then times out. */
  lemma BoundIsMet<S>(over: S -> bool, rate: Rate, wait: int, status: S)
    requires wait > 0 && !over(status)
    ensures var n := 1 + rate * wait;
            var rounds := Stuck(rate, status, n + 1);
            && Monotone(rate, 0.0, rounds) && Going(over, wait, 0.0, rounds, n)
            && rounds[n].check - LastChange(0.0, rounds, n) >= Minutes(wait)
            && n == 1 + rate * wait * Changes(rounds, n)
  {
    var n := 1 + rate * wait;
    var rounds := Stuck(rate, status, n + 1);
    StuckOnce(rate, status, n + 1, n);
    forall i | 0 <= i < n ensures rounds[i].check < LastChange(0.0, rounds, i) + Minutes(wait) {
      if i > 0 {
        StuckOnce(rate, status, n + 1, i);
      }
    }
  }
}
