/** Headless daily CDC: enabling and disabling it, and the scheduler tick. */
module CdcSchedule {
  import opened Wrappers

  const CDC_INTERVAL := 24 * 3600

  // The columns of a connection the schedule depends on, with its service-principal row.
  datatype Connection = Connection(ready: bool, principal: bool, enabled: bool, nextRun: Option<int>)

  type Rows = map<string, Connection>

  // UPDATE connections SET cdc_enabled, auto_cdc_next_run_at.
  function SetSchedule(rows: Rows, id: string, enabled: bool, nextRun: Option<int>): Rows {
    if id in rows then rows[id := rows[id].(enabled := enabled, nextRun := nextRun)] else rows
  }

  predicate IsDue(c: Connection, now: int) {
    c.ready && c.enabled && c.principal && (c.nextRun.None? || c.nextRun.value <= now)
  }

  ghost predicate Distinct(ids: seq<string>) {
    forall i, j :: 0 <= i < j < |ids| ==> ids[i] != ids[j]
  }

  // The due connections, each once.
  ghost predicate DueList(rows: Rows, now: int, ids: seq<string>) {
    Distinct(ids) && forall id :: id in ids <==> id in rows && IsDue(rows[id], now)
  }

  // ORDER BY auto_cdc_next_run_at: NULL comes first.
  predicate NotAfter(a: Connection, b: Connection) {
    a.nextRun.None? || (b.nextRun.Some? && a.nextRun.value <= b.nextRun.value)
  }

  predicate Ordered(rows: Rows, ids: seq<string>) {
    forall i, j :: 0 <= i < j < |ids| && ids[i] in rows && ids[j] in rows ==> NotAfter(rows[ids[i]], rows[ids[j]])
  }

  function InsertInOrder(rows: Rows, ids: seq<string>, id: string): (r: seq<string>)
    requires id in rows && forall k :: k in ids ==> k in rows
    ensures forall k :: k in r <==> k == id || k in ids
    ensures Distinct(ids) && id !in ids ==> Distinct(r)
    ensures Ordered(rows, ids) ==> Ordered(rows, r)
  {
    if ids == [] || NotAfter(rows[id], rows[ids[0]]) then
      InsertFirst(rows, ids, id);
      [id] + ids
    else
      var rest := InsertInOrder(rows, ids[1..], id);
      assert ids == [ids[0]] + ids[1..];
      assert Distinct(ids) && id !in ids ==> Distinct([ids[0]] + rest) by {
        if Distinct(ids) && id !in ids { DistinctLater(ids, id, rest); }
      }
      assert Ordered(rows, ids) ==> Ordered(rows, [ids[0]] + rest) by {
        if Ordered(rows, ids) { OrderedLater(rows, ids, id, rest); }
      }
      [ids[0]] + rest
  }

  lemma InsertFirst(rows: Rows, ids: seq<string>, id: string)
    requires id in rows && (forall k :: k in ids ==> k in rows) && (ids == [] || NotAfter(rows[id], rows[ids[0]]))
    ensures forall k :: k in [id] + ids <==> k == id || k in ids
    ensures Distinct(ids) && id !in ids ==> Distinct([id] + ids)
    ensures Ordered(rows, ids) ==> Ordered(rows, [id] + ids)
  {
  }

  lemma DistinctLater(ids: seq<string>, id: string, rest: seq<string>)
    requires ids != [] && Distinct(ids) && id !in ids && Distinct(rest)
    requires forall k :: k in rest ==> k == id || k in ids[1..]
    ensures Distinct([ids[0]] + rest)
  {
    forall j | 0 <= j < |rest| ensures rest[j] != ids[0] {
      assert rest[j] in rest && ids[0] in ids;
    }
  }

  lemma OrderedLater(rows: Rows, ids: seq<string>, id: string, rest: seq<string>)
    requires id in rows && ids != [] && ids[0] in rows && !NotAfter(rows[id], rows[ids[0]])
    requires forall k :: k in rest ==> k == id || k in ids[1..]
    requires Ordered(rows, ids) && Ordered(rows, rest)
    ensures Ordered(rows, [ids[0]] + rest)
  {
    forall j | 0 <= j < |rest| && rest[j] in rows ensures NotAfter(rows[ids[0]], rows[rest[j]]) {
      assert rest[j] in rest;
      if rest[j] != id {
        assert rest[j] in ids[1..];
      }
    }
  }

  datatype EnableResult = Enabled | UnknownConnection | NotBootstrapped | MissingPrincipal | ProbeFailed

  function EnableOutcome(rows: Rows, id: string, probePassed: bool): EnableResult {
    if id !in rows then UnknownConnection
    else if !rows[id].ready then NotBootstrapped
    else if !rows[id].principal then MissingPrincipal
    else if !probePassed then ProbeFailed
    else Enabled
  }

  function AfterEnable(rows: Rows, id: string, probePassed: bool, now: int): Rows {
    if EnableOutcome(rows, id, probePassed).Enabled?
    then SetSchedule(rows, id, true, Some(now + CDC_INTERVAL)) else rows
  }

  /** Enabling is refused, with nothing changed, for the first of four reasons that holds; otherwise it makes
      the connection due exactly from a day later on, and touches no other. */
  lemma EnableIff(rows: Rows, id: string, probePassed: bool, now: int)
    ensures var r, u := EnableOutcome(rows, id, probePassed), AfterEnable(rows, id, probePassed, now);
            && (r.UnknownConnection? <==> id !in rows)
            && (r.NotBootstrapped? <==> id in rows && !rows[id].ready)
            && (r.MissingPrincipal? <==> id in rows && rows[id].ready && !rows[id].principal)
            && (r.ProbeFailed? <==> id in rows && rows[id].ready && rows[id].principal && !probePassed)
            && (!r.Enabled? ==> u == rows)
            && (r.Enabled? ==> id in u && DueFrom(u[id], now + 86400))
            && u.Keys == rows.Keys && forall k :: k in rows && k != id ==> u[k] == rows[k]
  {
  }

  // The connection is due at a time from `time` on, and at no time before.
  ghost predicate DueFrom(c: Connection, time: int) {
    forall now :: IsDue(c, now) <==> now >= time
  }

  // -------------------------------------------------------------------------
  // One tick on its own
  // -------------------------------------------------------------------------

  datatype Summary = Summary(started: seq<string>, skipped: seq<string>, failed: seq<string>, due: nat)

  // The rows after a tick has claimed the next run of every listed connection that is not busy.
  function AfterTick(rows: Rows, ids: seq<string>, now: int, busy: string -> bool): Rows {
    if ids == [] then rows
    else
      var before := AfterTick(rows, ids[..|ids| - 1], now, busy);
      var last := ids[|ids| - 1];
      if busy(last) then before else SetSchedule(before, last, true, Some(now + CDC_INTERVAL))
  }

  ghost predicate Only(ids: seq<string>, p: string -> bool, from: seq<string>) {
    forall id :: id in ids <==> id in from && p(id)
  }

  class ConnectionStore {
    var rows: Rows

    constructor ()
      ensures rows == map[]
    {
      rows := map[];
    }

    method ListDueForCdc(now: int) returns (due: seq<string>)
      ensures DueList(rows, now, due)
      ensures forall i, j :: 0 <= i < j < |due| ==>
        var a, b := rows[due[i]].nextRun, rows[due[j]].nextRun;
        a.None? || (b.Some? && a.value <= b.value)
    {
      due := [];
      var left := rows.Keys;
      while left != {}
        invariant left <= rows.Keys
        invariant Distinct(due) && Ordered(rows, due)
        invariant forall id :: id in due <==> id in rows && id !in left && IsDue(rows[id], now)
        decreases |left|
      {
        var id :| id in left;
        left := left - {id};
        if IsDue(rows[id], now) {
          due := InsertInOrder(rows, due, id);
        }
      }
    }

    /** Refused without a change unless the connection exists, is bootstrapped, has a service
        principal and its robot probe passes. */
    method EnableCdc(id: string, probePassed: bool, now: int) returns (r: EnableResult)
      modifies this
      ensures r == EnableOutcome(old(rows), id, probePassed)
      ensures rows == AfterEnable(old(rows), id, probePassed, now)
    {
      if id !in rows {
        return UnknownConnection;
      }
      if !rows[id].ready {
        return NotBootstrapped;
      }
      if !rows[id].principal {
        return MissingPrincipal;
      }
      if !probePassed {
        return ProbeFailed;
      }
      rows := SetSchedule(rows, id, true, Some(now + CDC_INTERVAL));
      return Enabled;
    }

    /** From then on no due list holds the connection, whatever the time; no other row changes. What
        happens until somebody enables it is `OffStaysOff`. */
    method DisableCdc(id: string)
      modifies this
      ensures forall now, due :: DueList(rows, now, due) ==> id !in due
      ensures rows.Keys == old(rows).Keys && forall k :: k in rows && k != id ==> rows[k] == old(rows)[k]
      ensures rows == SetSchedule(old(rows), id, false, None)
    {
      rows := SetSchedule(rows, id, false, None);
    }

    /** One pass. Each due connection ends in exactly one of the three lists, decided by its own
        run state and its own sync; the next run is claimed for all that were not busy. */
    method ScheduledCdcTick(now: int, busy: string -> bool, fails: string -> bool)
      returns (summary: Summary, ghost due: seq<string>)
      modifies this
      ensures DueList(old(rows), now, due) && summary.due == |due|
      ensures Distinct(summary.started) && Distinct(summary.skipped) && Distinct(summary.failed)
      ensures Only(summary.skipped, id => busy(id), due)
      ensures Only(summary.started, id => !busy(id) && !fails(id), due)
      ensures Only(summary.failed, id => !busy(id) && fails(id), due)
      ensures rows == AfterTick(old(rows), due, now, busy)
    {
      var ids := ListDueForCdc(now);
      due := ids;
      var started, skipped, failed := [], [], [];
      for i := 0 to |ids|
        invariant rows == AfterTick(old(rows), ids[..i], now, busy)
        invariant Distinct(started) && Distinct(skipped) && Distinct(failed)
        invariant Only(skipped, id => busy(id), ids[..i])
        invariant Only(started, id => !busy(id) && !fails(id), ids[..i])
        invariant Only(failed, id => !busy(id) && fails(id), ids[..i])
      {
        var id := ids[i];
        assert ids[..i + 1][..i] == ids[..i] && ids[..i + 1] == ids[..i] + [id];
        assert id !in ids[..i];
        if busy(id) {
          skipped := skipped + [id];
        } else {
          rows := SetSchedule(rows, id, true, Some(now + CDC_INTERVAL));
          if fails(id) {
            failed := failed + [id];
          } else {
            started := started + [id];
          }
        }
      }
      assert ids[..|ids|] == ids;
      summary := Summary(started, skipped, failed, |ids|);
    }
  }

  // -------------------------------------------------------------------------
  // Ticks, requests and time, interleaved
  // -------------------------------------------------------------------------

  // A tick reads the clock and the due list once, then takes the connections one at a time while
  // requests go on. Ticks do not overlap.
  datatype Tick = Idle | Running(at: int, rest: seq<string>)

  // An attempt belongs to the tick that read the clock at `at`; its sync begins later.
  datatype Attempt = Attempt(id: string, at: int, began: int)

  datatype State = State(clock: int, rows: Rows, tick: Tick, attempts: seq<Attempt>)

  datatype Step =
    | Wait(seconds: nat)
    | Insert(id: string)
    | Delete(id: string)
    | Configure(id: string, ready: bool, principal: bool)
    | Enable(id: string, probePassed: bool)
    | Disable(id: string)
    | TickStart(due: seq<string>)
    | TickNext(busy: bool)
    | TickEnd

  ghost function Do(s: State, step: Step): State {
    match step
    case Wait(seconds) => s.(clock := s.clock + seconds)
    case Insert(id) => if id in s.rows then s else s.(rows := s.rows[id := Connection(false, false, false, None)])
    case Delete(id) => s.(rows := s.rows - {id})
    case Configure(id, ready, principal) =>
      if id in s.rows then s.(rows := s.rows[id := s.rows[id].(ready := ready, principal := principal)]) else s
    case Enable(id, probePassed) => s.(rows := AfterEnable(s.rows, id, probePassed, s.clock))
    case Disable(id) => s.(rows := SetSchedule(s.rows, id, false, None))
    case TickStart(due) =>
      if s.tick.Idle? && DueList(s.rows, s.clock, due) then s.(tick := Running(s.clock, due)) else s
    case TickNext(busy) =>
      if s.tick.Idle? || s.tick.rest == [] then s
      else
        var id, rest := s.tick.rest[0], Running(s.tick.at, s.tick.rest[1..]);
        if busy then s.(tick := rest)
        else s.(tick := rest, rows := SetSchedule(s.rows, id, true, Some(s.tick.at + CDC_INTERVAL)),
                attempts := s.attempts + [Attempt(id, s.tick.at, s.clock)])
    case TickEnd => if s.tick.Running? && s.tick.rest == [] then s.(tick := Idle) else s
  }

  ghost function Run(s: State, steps: seq<Step>): State
    decreases |steps|
  {
    if steps == [] then s else Run(Do(s, steps[0]), steps[1..])
  }

  predicate Listed(s: State, id: string) {
    s.tick.Running? && id in s.tick.rest
  }

  predicate AlwaysNext(rows: Rows) {
    forall id :: id in rows && rows[id].enabled ==> rows[id].nextRun.Some?
  }

  // What is planned for a connection leaves a day after the attempt.
  predicate DayAfter(s: State, a: Attempt) {
    && a.at <= a.began <= s.clock
    && (a.id in s.rows && s.rows[a.id].enabled && s.rows[a.id].nextRun.Some? ==>
          a.at + CDC_INTERVAL <= s.rows[a.id].nextRun.value)
    && (s.tick.Running? ==> a.at <= s.tick.at)
    && (Listed(s, a.id) ==> a.at + CDC_INTERVAL <= s.tick.at)
  }

  ghost predicate Spaced(attempts: seq<Attempt>) {
    forall i, j :: 0 <= i < j < |attempts| && attempts[i].id == attempts[j].id ==>
      attempts[i].at + CDC_INTERVAL <= attempts[j].at
  }

  ghost predicate Inv(s: State) {
    && AlwaysNext(s.rows)
    && (s.tick.Running? ==> s.tick.at <= s.clock && Distinct(s.tick.rest))
    && (forall k :: 0 <= k < |s.attempts| ==> DayAfter(s, s.attempts[k]))
    && Spaced(s.attempts)
  }

  lemma DoKeepsInv(s: State, step: Step)
    requires Inv(s)
    ensures Inv(Do(s, step))
  {
    if step.TickNext? {
      NextKeepsInv(s, step.busy);
    }
  }

  lemma NextKeepsInv(s: State, busy: bool)
    requires Inv(s)
    ensures Inv(Do(s, TickNext(busy)))
  {
  }

  lemma {:induction false} RunKeepsInv(s: State, steps: seq<Step>)
    requires Inv(s)
    ensures Inv(Run(s, steps))
    decreases |steps|
  {
    if steps != [] {
      DoKeepsInv(s, steps[0]);
      RunKeepsInv(Do(s, steps[0]), steps[1..]);
    }
  }

  /** However requests fall between and into ticks, two attempts on one connection belong to ticks at
      least a day apart, so their syncs begin a day apart less the time the first tick had been
      running; and an enabled connection always has a next run. */
  lemma AttemptsAreDaily(clock: int, steps: seq<Step>)
    ensures var s := Run(State(clock, map[], Idle, []), steps);
            && AlwaysNext(s.rows)
            && (forall i, j :: 0 <= i < j < |s.attempts| && s.attempts[i].id == s.attempts[j].id ==>
                  var a, b := s.attempts[i], s.attempts[j];
                  a.at + 86400 <= b.at && b.began - a.began >= 86400 - (a.began - a.at))
  {
    RunKeepsInv(State(clock, map[], Idle, []), steps);
    var s := Run(State(clock, map[], Idle, []), steps);
    assert forall k :: 0 <= k < |s.attempts| ==> DayAfter(s, s.attempts[k]);
  }

  // -------------------------------------------------------------------------
  // The method's tick is a run of these steps
  // -------------------------------------------------------------------------

  function TickSteps(ids: seq<string>, busy: string -> bool): seq<Step> {
    if ids == [] then [] else TickSteps(ids[..|ids| - 1], busy) + [TickNext(busy(ids[|ids| - 1]))]
  }

  lemma {:induction false} RunSnoc(s: State, steps: seq<Step>, step: Step)
    ensures Run(s, steps + [step]) == Do(Run(s, steps), step)
    decreases |steps|
  {
    if steps == [] {
      assert ([] + [step])[1..] == [];
      assert Run(Do(s, step), []) == Do(s, step);
    } else {
      assert (steps + [step])[0] == steps[0] && (steps + [step])[1..] == steps[1..] + [step];
      RunSnoc(Do(s, steps[0]), steps[1..], step);
    }
  }

  /** Left alone, a tick that has read its list takes the rows where the loop of the method takes
      them. */
  lemma {:induction false} TickIsARun(s: State, ids: seq<string>, more: seq<string>, busy: string -> bool)
    requires s.tick.Running? && s.tick.rest == ids + more
    ensures var u := Run(s, TickSteps(ids, busy));
            && u.rows == AfterTick(s.rows, ids, s.tick.at, busy)
            && u.tick == Running(s.tick.at, more) && u.clock == s.clock
    decreases |ids|
  {
    if ids == [] {
      assert ids + more == more;
    } else {
      var front, last := ids[..|ids| - 1], ids[|ids| - 1];
      assert ids + more == front + ([last] + more);
      TickIsARun(s, front, [last] + more, busy);
      RunSnoc(s, TickSteps(front, busy), TickNext(busy(last)));
      assert ([last] + more)[1..] == more;
    }
  }

  /** A tick lists exactly the connections that are ready, enabled and have a service principal, and whose
      next run is unset or has come. */
  lemma ListedIff(s: State, due: seq<string>, id: string)
    requires s.tick.Idle? && DueList(s.rows, s.clock, due)
    ensures Listed(Do(s, TickStart(due)), id) <==>
      && id in s.rows && s.rows[id].ready && s.rows[id].enabled && s.rows[id].principal
      && (s.rows[id].nextRun == None || s.rows[id].nextRun.value <= s.clock)
  {
  }

  /** A connection whose turn has come is attempted exactly if it is not busy, and then planned for a day
      after the tick read the clock; a busy one keeps its plan, and no other connection notices. */
  lemma TurnPlansNext(s: State, busy: bool)
    requires s.tick.Running? && s.tick.rest != [] && s.tick.rest[0] in s.rows
    ensures var u, id := Do(s, TickNext(busy)), s.tick.rest[0];
            && u.tick == Running(s.tick.at, s.tick.rest[1..]) && u.clock == s.clock
            && u.rows.Keys == s.rows.Keys && (forall k :: k in s.rows && k != id ==> u.rows[k] == s.rows[k])
            && (busy ==> u.rows == s.rows && u.attempts == s.attempts)
            && (!busy ==> u.attempts == s.attempts + [Attempt(id, s.tick.at, s.clock)])
            && (!busy && s.rows[id].ready && s.rows[id].principal ==> DueFrom(u.rows[id], s.tick.at + 86400))
  {
  }

  // A scheduled run may not use a person's token.
  predicate Barred(s: State, id: string) {
    id in s.rows ==> !s.rows[id].ready || !s.rows[id].principal
  }

  ghost predicate NeverConfigures(steps: seq<Step>, id: string) {
    forall k :: 0 <= k < |steps| && steps[k].Configure? ==> steps[k].id != id
  }

  lemma BarredStep(s: State, step: Step, id: string)
    requires Barred(s, id) && !Listed(s, id) && (step.Configure? ==> step.id != id)
    ensures var u := Do(s, step);
            && Barred(u, id) && !Listed(u, id)
            && |s.attempts| <= |u.attempts| && u.attempts[..|s.attempts|] == s.attempts
            && forall k :: |s.attempts| <= k < |u.attempts| ==> u.attempts[k].id != id
  {
  }

  /** A connection that is not bootstrapped or has no service principal is never attempted, whatever is
      enabled and whenever ticks come, until that is changed, unless a running tick has it on its list. */
  lemma {:induction false} BarredIsNeverAttempted(s: State, steps: seq<Step>, id: string)
    requires Barred(s, id) && !Listed(s, id) && NeverConfigures(steps, id)
    ensures |s.attempts| <= |Run(s, steps).attempts| && Run(s, steps).attempts[..|s.attempts|] == s.attempts
    ensures forall k :: |s.attempts| <= k < |Run(s, steps).attempts| ==> Run(s, steps).attempts[k].id != id
    decreases |steps|
  {
    if steps != [] {
      var next := Do(s, steps[0]);
      BarredStep(s, steps[0], id);
      BarredIsNeverAttempted(next, steps[1..], id);
      assert Run(s, steps).attempts[..|s.attempts|] == Run(s, steps).attempts[..|next.attempts|][..|s.attempts|];
      forall k | |s.attempts| <= k < |Run(s, steps).attempts| ensures Run(s, steps).attempts[k].id != id {
        if k < |next.attempts| {
          assert Run(s, steps).attempts[..|next.attempts|][k] == next.attempts[k];
        }
      }
    }
  }

  // -------------------------------------------------------------------------
  // Whether switching off sticks
  // -------------------------------------------------------------------------

  predicate Off(s: State, id: string) {
    id in s.rows ==> !s.rows[id].enabled
  }

  ghost predicate NeverEnables(steps: seq<Step>, id: string) {
    forall k :: 0 <= k < |steps| && steps[k].Enable? ==> steps[k].id != id
  }

  /** A connection that is off and on no running tick's list stays off and is not attempted until
      somebody enables it. */
  lemma {:induction false} OffStaysOff(s: State, steps: seq<Step>, id: string)
    requires Off(s, id) && !Listed(s, id) && NeverEnables(steps, id)
    ensures Off(Run(s, steps), id) && !Listed(Run(s, steps), id)
    ensures forall now, due :: DueList(Run(s, steps).rows, now, due) ==> id !in due
    ensures |s.attempts| <= |Run(s, steps).attempts| && Run(s, steps).attempts[..|s.attempts|] == s.attempts
    ensures forall k :: |s.attempts| <= k < |Run(s, steps).attempts| ==> Run(s, steps).attempts[k].id != id
    decreases |steps|
  {
    if steps != [] {
      var next := Do(s, steps[0]);
      OffStep(s, steps[0], id);
      OffStaysOff(next, steps[1..], id);
      assert Run(s, steps).attempts[..|s.attempts|] == Run(s, steps).attempts[..|next.attempts|][..|s.attempts|];
      forall k | |s.attempts| <= k < |Run(s, steps).attempts| ensures Run(s, steps).attempts[k].id != id {
        if k < |next.attempts| {
          assert Run(s, steps).attempts[..|next.attempts|][k] == next.attempts[k];
        }
      }
    }
  }

  lemma OffStep(s: State, step: Step, id: string)
    requires Off(s, id) && !Listed(s, id) && (step.Enable? ==> step.id != id)
    ensures var u := Do(s, step);
            && Off(u, id) && !Listed(u, id)
            && |s.attempts| <= |u.attempts| && u.attempts[..|s.attempts|] == s.attempts
            && forall k :: |s.attempts| <= k < |u.attempts| ==> u.attempts[k].id != id
  {
  }

  // However the run goes on, a disabled connection stays off until somebody enables it.
  ghost predicate StaysOff(s: State, id: string) {
    forall steps :: NeverEnables(steps, id) ==> Off(Run(s, steps), id)
  }

  // Passing over the first k connections of the list as busy, then taking the next one.
  function PassOver(k: nat): seq<Step> {
    if k == 0 then [] else PassOver(k - 1) + [TickNext(true)]
  }

  lemma {:induction false} PassedOver(s: State, k: nat)
    requires s.tick.Running? && k <= |s.tick.rest|
    ensures Run(s, PassOver(k)) == s.(tick := Running(s.tick.at, s.tick.rest[k..]))
    ensures forall i :: 0 <= i < |PassOver(k)| ==> PassOver(k)[i] == TickNext(true)
  {
    if k > 0 {
      PassedOver(s, k - 1);
      RunSnoc(s, PassOver(k - 1), TickNext(true));
      assert s.tick.rest[k - 1..][1..] == s.tick.rest[k..];
    }
  }

  /** A tick that finds every connection left on its list busy ends without a change, and the next one can
      start. */
  lemma TickEnds(s: State)
    requires s.tick.Running?
    ensures Run(s, PassOver(|s.tick.rest|) + [TickEnd]) == s.(tick := Idle)
  {
    PassedOver(s, |s.tick.rest|);
    RunSnoc(s, PassOver(|s.tick.rest|), TickEnd);
  }

  lemma ReachedByTick(s: State, id: string) returns (steps: seq<Step>)
    requires id in s.rows && Listed(s, id)
    ensures NeverEnables(steps, id) && !Off(Run(s, steps), id)
  {
    var k :| 0 <= k < |s.tick.rest| && s.tick.rest[k] == id;
    PassedOver(s, k);
    RunSnoc(s, PassOver(k), TickNext(false));
    steps := PassOver(k) + [TickNext(false)];
  }

  /** A connection that is disabled stays off in every run without an enable if and only if no running
      tick has it on its list. */
  lemma DisableSticksIff(s: State, id: string)
    requires id in s.rows
    ensures StaysOff(Do(s, Disable(id)), id) <==> !Listed(s, id)
  {
    var u := Do(s, Disable(id));
    if Listed(s, id) {
      var steps := ReachedByTick(u, id);
    } else {
      forall steps | NeverEnables(steps, id) ensures Off(Run(u, steps), id) {
        OffStaysOff(u, steps, id);
      }
    }
  }

  /** Disabling a connection just before a running tick reaches it: the tick attempts it and switches
      it on again exactly when it is not busy. */
  lemma DisableUndoneMidTick(s: State, id: string, busy: bool)
    requires id in s.rows && s.tick.Running? && s.tick.rest != [] && s.tick.rest[0] == id
    ensures var u := Do(Do(s, Disable(id)), TickNext(busy));
            (u.rows[id].enabled <==> !busy) && (u.attempts != s.attempts <==> !busy)
  {
  }
}
