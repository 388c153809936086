/** The in-memory timers of daily U2M syncs: a table under one lock, timers that fire into tick
    threads, and ticks that re-arm themselves. */
module AutoSyncTimers {
  // Several users may enable the same project.
  datatype Key = Key(user: string, project: string)

  // A timer keeps its number when it fires and becomes a tick: first the tick looks its key up,
  // then it syncs, then it looks the key up again.
  datatype Phase = Armed | Checking | Syncing

  datatype Work = Work(key: Key, phase: Phase)

  datatype State = State(table: map<Key, nat>, work: map<nat, Work>, next: nat, syncs: seq<Key>)

  const INIT := State(map[], map[], 0, [])

  datatype Step =
    | Start(key: Key)
    | Stop(key: Key)
    | Fire(timer: nat)
    | Check(tick: nat)
    | Finish(tick: nat)

  function Arm(s: State, key: Key): State {
    s.(table := s.table[key := s.next], work := s.work[s.next := Work(key, Armed)], next := s.next + 1)
  }

  function DoStart(s: State, key: Key): State {
    if key in s.table then s else Arm(s, key)
  }

  // Cancelling a timer that has fired already does nothing to its tick.
  function DoStop(s: State, key: Key): State {
    if key !in s.table then s
    else
      var timer := s.table[key];
      s.(table := s.table - {key},
         work := if timer in s.work && s.work[timer].phase.Armed? then s.work - {timer} else s.work)
  }

  function Do(s: State, step: Step): State {
    match step
    case Start(key) => DoStart(s, key)
    case Stop(key) => DoStop(s, key)
    case Fire(timer) =>
      if timer in s.work && s.work[timer].phase.Armed?
      then s.(work := s.work[timer := s.work[timer].(phase := Checking)]) else s
    case Check(tick) =>
      if tick !in s.work || !s.work[tick].phase.Checking? then s
      else if s.work[tick].key in s.table
      then s.(work := s.work[tick := s.work[tick].(phase := Syncing)], syncs := s.syncs + [s.work[tick].key])
      else s.(work := s.work - {tick})
    case Finish(tick) =>
      if tick !in s.work || !s.work[tick].phase.Syncing? then s
      else
        var ended := s.(work := s.work - {tick});
        if s.work[tick].key in s.table then Arm(ended, s.work[tick].key) else ended
  }

  function Run(s: State, steps: seq<Step>): State
    decreases |steps|
  {
    if steps == [] then s else Run(Do(s, steps[0]), steps[1..])
  }

  // -------------------------------------------------------------------------
  // What every interleaving keeps
  // -------------------------------------------------------------------------

  // A registered key has the timer it names, armed or fired into a tick in progress.
  ghost predicate Inv(s: State) {
    && (forall i :: i in s.work ==> i < s.next)
    && (forall k :: k in s.table ==> s.table[k] in s.work && s.work[s.table[k]].key == k)
  }

  ghost predicate Single(s: State) {
    forall i, j :: i in s.work && j in s.work && s.work[i].key == s.work[j].key ==> i == j
  }

  predicate TickInProgress(s: State, key: Key) {
    exists i :: i in s.work && s.work[i].key == key && !s.work[i].phase.Armed?
  }

  // Registered keys are the only ones with an armed timer.
  ghost predicate ArmedIsRegistered(s: State) {
    forall i :: i in s.work && s.work[i].phase.Armed? ==> s.work[i].key in s.table && s.table[s.work[i].key] == i
  }

  lemma DoKeepsInv(s: State, step: Step)
    requires Inv(s)
    ensures Inv(Do(s, step))
  {
  }

  /** In every interleaving a registered key has an armed timer or a tick in progress. */
  lemma {:induction false} RegisteredIsAlive(s: State, steps: seq<Step>)
    requires Inv(s)
    ensures Inv(Run(s, steps))
    decreases |steps|
  {
    if steps != [] {
      DoKeepsInv(s, steps[0]);
      RegisteredIsAlive(Do(s, steps[0]), steps[1..]);
    }
  }

  // No key is started while a tick of it is still in progress.
  ghost predicate NoRestart(s: State, steps: seq<Step>)
    decreases |steps|
  {
    steps == [] ||
    ((steps[0].Start? ==> steps[0].key in s.table || !TickInProgress(s, steps[0].key)) &&
     NoRestart(Do(s, steps[0]), steps[1..]))
  }

  lemma DoKeepsSingle(s: State, step: Step)
    requires Inv(s) && Single(s) && ArmedIsRegistered(s)
    requires step.Start? ==> step.key in s.table || !TickInProgress(s, step.key)
    ensures Single(Do(s, step)) && ArmedIsRegistered(Do(s, step))
  {
    match step
    case Start(key) => StartKeepsSingle(s, key);
    case Finish(tick) => FinishKeepsSingle(s, tick);
    case _ =>
  }

  lemma StartKeepsSingle(s: State, key: Key)
    requires Inv(s) && Single(s) && ArmedIsRegistered(s)
    requires key in s.table || !TickInProgress(s, key)
    ensures Single(DoStart(s, key)) && ArmedIsRegistered(DoStart(s, key))
  {
  }

  lemma FinishKeepsSingle(s: State, tick: nat)
    requires Inv(s) && Single(s) && ArmedIsRegistered(s)
    ensures Single(Do(s, Finish(tick))) && ArmedIsRegistered(Do(s, Finish(tick)))
  {
  }

  /** Without such restarts each key has at most one timer or tick, so a registered key has exactly
      one, and a timer that is armed belongs to a registered key. */
  lemma {:induction false} ExactlyOne(s: State, steps: seq<Step>)
    requires Inv(s) && Single(s) && ArmedIsRegistered(s) && NoRestart(s, steps)
    ensures Single(Run(s, steps)) && ArmedIsRegistered(Run(s, steps))
    decreases |steps|
  {
    if steps != [] {
      DoKeepsInv(s, steps[0]);
      DoKeepsSingle(s, steps[0]);
      ExactlyOne(Do(s, steps[0]), steps[1..]);
    }
  }

  /** A start keeps it so exactly when no tick of the key is in progress. */
  lemma StartKeepsSingleIff(s: State, key: Key)
    requires Inv(s) && Single(s) && ArmedIsRegistered(s) && key !in s.table
    ensures Single(Do(s, Start(key))) <==> !TickInProgress(s, key)
  {
    var u := Do(s, Start(key));
    if i :| i in s.work && s.work[i].key == key && !s.work[i].phase.Armed? {
      assert i in u.work && s.next in u.work && u.work[i].key == u.work[s.next].key;
    }
  }

  /** Stopping and starting a key while its tick runs ends with two armed timers, of which the
      table knows one. */
  lemma RestartDoubles(s: State, tick: nat)
    requires Inv(s) && tick in s.work && s.work[tick].phase.Syncing?
    requires s.work[tick].key in s.table && s.table[s.work[tick].key] == tick
    ensures var key := s.work[tick].key;
            var u := Run(s, [Stop(key), Start(key), Finish(tick)]);
            && s.next in u.work && u.work[s.next] == Work(key, Armed)
            && s.next + 1 in u.work && u.work[s.next + 1] == Work(key, Armed)
            && key in u.table && u.table[key] == s.next + 1
  {
    var key := s.work[tick].key;
    var s1 := Do(s, Stop(key));
    var s2 := Do(s1, Start(key));
    var s3 := Do(s2, Finish(tick));
    assert s3.next == s.next + 2;
    assert [Stop(key), Start(key), Finish(tick)][1..] == [Start(key), Finish(tick)];
    assert [Start(key), Finish(tick)][1..] == [Finish(tick)] && [Finish(tick)][1..] == [];
    assert Run(s2, [Finish(tick)]) == Run(s3, []);
  }

  // A timer was started, has fired, and its tick is syncing.
  lemma ReachesSyncing(key: Key)
    ensures Run(INIT, [Start(key), Fire(0), Check(0)]) == State(map[key := 0], map[0 := Work(key, Syncing)], 1, [key])
  {
    var s1 := State(map[key := 0], map[0 := Work(key, Armed)], 1, []);
    var s2 := s1.(work := map[0 := Work(key, Checking)]);
    var s3 := State(map[key := 0], map[0 := Work(key, Syncing)], 1, [key]);
    assert Do(INIT, Start(key)) == s1 && Do(s1, Fire(0)) == s2 && Do(s2, Check(0)) == s3;
    assert [Start(key), Fire(0), Check(0)][1..] == [Fire(0), Check(0)];
    assert [Fire(0), Check(0)][1..] == [Check(0)] && [Check(0)][1..] == [];
    assert Run(s2, [Check(0)]) == Run(s3, []);
    assert Run(s1, [Fire(0), Check(0)]) == Run(s2, [Check(0)]);
  }

  /** So from the empty table: start, let the timer fire, stop and start again before its sync ends. */
  lemma RestartDoublesFromStart(key: Key)
    ensures var u := Run(Run(INIT, [Start(key), Fire(0), Check(0)]), [Stop(key), Start(key), Finish(0)]);
            && 1 in u.work && u.work[1] == Work(key, Armed) && 2 in u.work && u.work[2] == Work(key, Armed)
            && key in u.table && u.table[key] == 2
  {
    ReachesSyncing(key);
    RestartDoubles(Run(INIT, [Start(key), Fire(0), Check(0)]), 0);
  }

  // -------------------------------------------------------------------------
  // Stopping
  // -------------------------------------------------------------------------

  /** A tick that finds its key unregistered runs no sync and arms nothing. */
  lemma UnregisteredTickEnds(s: State, tick: nat)
    requires Inv(s) && tick in s.work && !s.work[tick].phase.Armed? && s.work[tick].key !in s.table
    ensures var step := if s.work[tick].phase.Checking? then Check(tick) else Finish(tick);
            Do(s, step) == s.(work := s.work - {tick})
  {
  }

  /** A timer of a registered key that fires, if nothing comes between: one sync of that key, and then
      exactly the timer replaced by a new armed one that is registered; so it goes on every day. */
  lemma DailyCycle(s: State, timer: nat)
    requires Inv(s) && timer in s.work && s.work[timer].phase.Armed? && s.work[timer].key in s.table
    ensures var key := s.work[timer].key;
            var u := Do(Do(Do(s, Fire(timer)), Check(timer)), Finish(timer));
            && u.syncs == s.syncs + [key]
            && u.table == s.table[key := s.next]
            && u.work == (s.work - {timer})[s.next := Work(key, Armed)] && u.next == s.next + 1
  {
    var s1 := Do(s, Fire(timer));
    var s2 := Do(s1, Check(timer));
    assert s2.work - {timer} == s.work - {timer};
  }

  /** Stopping a key takes its armed timer away; a tick that has fired goes on to its next look at the table. */
  lemma StopCancels(s: State, key: Key)
    requires Inv(s) && key in s.table
    ensures var u, timer := Do(s, Stop(key)), s.table[key];
            && u.table == s.table - {key} && u.syncs == s.syncs && u.next == s.next
            && u.work == if s.work[timer].phase.Armed? then s.work - {timer} else s.work
  {
  }

  ghost predicate NeverStarts(steps: seq<Step>, key: Key) {
    forall k :: 0 <= k < |steps| && steps[k].Start? ==> steps[k].key != key
  }

  function SyncsOf(syncs: seq<Key>, key: Key): nat {
    if syncs == [] then 0
    else SyncsOf(syncs[..|syncs| - 1], key) + if syncs[|syncs| - 1] == key then 1 else 0
  }

  /** Once a key is stopped no further sync of it begins until it is started again, whatever timers
      and ticks of it are left over. */
  lemma {:induction false} StoppedStaysStopped(s: State, steps: seq<Step>, key: Key)
    requires key !in s.table && NeverStarts(steps, key)
    ensures key !in Run(s, steps).table && SyncsOf(Run(s, steps).syncs, key) == SyncsOf(s.syncs, key)
    decreases |steps|
  {
    if steps != [] {
      StoppedStep(s, steps[0], key);
      StoppedStaysStopped(Do(s, steps[0]), steps[1..], key);
    }
  }

  lemma StoppedStep(s: State, step: Step, key: Key)
    requires key !in s.table && (step.Start? ==> step.key != key)
    ensures key !in Do(s, step).table && SyncsOf(Do(s, step).syncs, key) == SyncsOf(s.syncs, key)
  {
    if Do(s, step).syncs != s.syncs {
      assert Do(s, step).syncs[..|s.syncs|] == s.syncs;
    }
  }

  // -------------------------------------------------------------------------
  // The module state
  // -------------------------------------------------------------------------

  class Timers {
    var table: map<Key, nat>
    var work: map<nat, Work>
    var next: nat
    ghost var syncs: seq<Key>

    ghost function Contents(): State
      reads this
    {
      State(table, work, next, syncs)
    }

    constructor ()
      ensures Contents() == INIT
    {
      table, work, next, syncs := map[], map[], 0, [];
    }

    method StartAutoSync(key: Key) returns (started: bool)
      modifies this
      ensures Contents() == Do(old(Contents()), Start(key))
      ensures started <==> key !in old(table)
    {
      if key in table {
        return false;
      }
      table, work, next := table[key := next], work[next := Work(key, Armed)], next + 1;
      return true;
    }

    method StopAutoSync(key: Key) returns (stopped: bool)
      modifies this
      ensures Contents() == Do(old(Contents()), Stop(key))
      ensures stopped <==> key in old(table)
    {
      if key !in table {
        return false;
      }
      var timer := table[key];
      table := table - {key};
      if timer in work && work[timer].phase.Armed? {
        work := work - {timer};
      }
      return true;
    }

    /** Stop every key of one user and nobody else's. */
    method StopAllForUser(user: string) returns (stopped: nat)
      requires Inv(Contents())
      modifies this
      ensures Inv(Contents())
      ensures table == map k | k in old(table) && k.user != user :: old(table)[k]
      ensures forall i :: i in old(work) && old(work)[i].key.user != user ==> i in work && work[i] == old(work)[i]
      ensures stopped == |set k | k in old(table) && k.user == user|
      ensures next == old(next) && syncs == old(syncs)
    {
      var keys := set k | k in table && k.user == user;
      var left := keys;
      stopped := 0;
      while left != {}
        invariant left <= keys
        invariant stopped == |keys| - |left|
        invariant Inv(Contents())
        invariant table == map k | k in old(table) && (k.user != user || k in left) :: old(table)[k]
        invariant forall i :: i in old(work) && old(work)[i].key.user != user ==> i in work && work[i] == old(work)[i]
        invariant forall i :: i in work ==> i in old(work)
        invariant next == old(next) && syncs == old(syncs)
        decreases |left|
      {
        var k :| k in left;
        DoKeepsInv(Contents(), Stop(k));
        left := left - {k};
        var s := StopAutoSync(k);
        assert s;
        stopped := stopped + 1;
      }
    }
  }
}
