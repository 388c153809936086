/** Rotation of single-use Databricks refresh tokens: threads that double-check under a lock per
    user, sign-in callbacks that write outside it, and the token server. One user. */
module TokenRefresh {
  import opened Wrappers

  const BUFFER := 60

  // A refresh token is a number; the server hands out fresh ones in order.
  type Token = nat

  datatype Record = Record(refresh: Option<Token>, expires: int)

  predicate Expiring(clock: int, r: Record) {
    clock >= r.expires - BUFFER
  }

  datatype Phase =
    | Reading                             // the check outside the lock
    | Waiting                             // for the lock
    | Rereading                           // holding the lock
    | Exchanging(token: Token, expires: int)
    | Saving(token: Token, lifetime: int)
    | Returning
    | Finished(ok: bool)

  // The lock table is per process, so a lock is named by the worker that runs the thread.
  datatype Thread = Thread(worker: nat, phase: Phase)

  // A callback saves its tokens, validates the workspace, then saves the same tokens again.
  datatype SignIn = SignIn(refresh: Option<Token>, lifetime: int, savedAt: int)

  datatype Save = Save(at: int, lifetime: int)

  // What the server saw: was the token burned already, and did it come too soon after a save.
  datatype Presented = Presented(token: Token, burned: bool, early: bool)

  datatype State = State(
    clock: int,
    record: Option<Record>,
    threads: map<nat, Thread>,
    holders: map<nat, nat>,
    pending: map<nat, SignIn>,
    next: Token,
    burned: set<Token>,
    lastSave: Option<Save>,
    log: seq<Presented>)

  datatype Response =
    | Rotated(lifetime: int)        // burns the token and answers with a new one
    | Kept(lifetime: int)           // no new token, the old one stays valid
    | Refused                       // 400, 401, 403 or an error that burns nothing
    | Unsent                        // client id or secret missing
    | BurnedSilently(lifetime: int) // burns the token and answers without a new one
    | Lost                          // burns the token, the answer never arrives

  // Section 6 of RFC 6749 with an answer that arrives: what is burned is replaced.
  predicate Faithful(r: Response) {
    !r.BurnedSilently? && !r.Lost?
  }

  datatype Step =
    | Call(t: nat, worker: nat)
    | Check(t: nat)
    | Acquire(t: nat)
    | Recheck(t: nat)
    | Exchange(t: nat, response: Response)
    | Store(t: nat)
    | Return(t: nat)
    | Callback(c: nat, hasRefresh: bool, lifetime: int)
    | CallbackAgain(c: nat)
    | Disconnect
    | Tick(seconds: nat)

  function Move(s: State, t: nat, phase: Phase): State
    requires t in s.threads
  {
    s.(threads := s.threads[t := s.threads[t].(phase := phase)])
  }

  function Unlock(s: State, t: nat, ok: bool): State
    requires t in s.threads
  {
    var s' := Move(s, t, Finished(ok));
    s'.(holders := s.holders - {s.threads[t].worker})
  }

  function DoCheck(s: State, t: nat): State
    requires t in s.threads
  {
    if s.record.None? then Move(s, t, Finished(false))
    else if !Expiring(s.clock, s.record.value) then Move(s, t, Finished(true))
    else Move(s, t, Waiting)
  }

  function DoRecheck(s: State, t: nat): State
    requires t in s.threads
  {
    if s.record.None? then Unlock(s, t, false)
    else if !Expiring(s.clock, s.record.value) then Unlock(s, t, true)
    else if s.record.value.refresh.None? then Unlock(s, t, false)
    else Move(s, t, Exchanging(s.record.value.refresh.value, s.record.value.expires))
  }

  function Present(s: State, token: Token): State {
    var early := s.lastSave.Some? && s.clock < s.lastSave.value.at + s.lastSave.value.lifetime - BUFFER;
    s.(log := s.log + [Presented(token, token in s.burned, early)])
  }

  function DoExchange(s: State, t: nat, token: Token, response: Response): State
    requires t in s.threads
  {
    match response
    case Unsent => Unlock(s, t, false)
    case Refused => Unlock(Present(s, token), t, false)
    case Lost => Unlock(Present(s, token).(burned := s.burned + {token}), t, false)
    case Kept(lifetime) => Move(Present(s, token), t, Saving(token, lifetime))
    case BurnedSilently(lifetime) =>
      Move(Present(s, token).(burned := s.burned + {token}), t, Saving(token, lifetime))
    case Rotated(lifetime) =>
      Move(Present(s, token).(burned := s.burned + {token}, next := s.next + 1), t, Saving(s.next, lifetime))
  }

  // A step whose guard fails changes nothing.
  function Do(s: State, step: Step): State {
    match step
    case Call(t, worker) => if t in s.threads then s else s.(threads := s.threads[t := Thread(worker, Reading)])
    case Check(t) => if t in s.threads && s.threads[t].phase.Reading? then DoCheck(s, t) else s
    case Acquire(t) =>
      if t in s.threads && s.threads[t].phase.Waiting? && s.threads[t].worker !in s.holders
      then Move(s, t, Rereading).(holders := s.holders[s.threads[t].worker := t]) else s
    case Recheck(t) => if t in s.threads && s.threads[t].phase.Rereading? then DoRecheck(s, t) else s
    case Exchange(t, response) =>
      if t in s.threads && s.threads[t].phase.Exchanging?
      then DoExchange(s, t, s.threads[t].phase.token, response) else s
    case Store(t) =>
      if t in s.threads && s.threads[t].phase.Saving? then
        var p := s.threads[t].phase;
        Move(s, t, Returning).(record := Some(Record(Some(p.token), s.clock + p.lifetime)),
                               lastSave := Some(Save(s.clock, p.lifetime)))
      else s
    case Return(t) =>
      if t in s.threads && s.threads[t].phase.Returning? then Unlock(s, t, s.record.Some?) else s
    case Callback(c, hasRefresh, lifetime) =>
      if c in s.pending then s
      else
        var refresh := if hasRefresh then Some(s.next) else None;
        s.(record := Some(Record(refresh, s.clock + lifetime)), lastSave := None, next := s.next + 1,
           pending := s.pending[c := SignIn(refresh, lifetime, s.clock)])
    case CallbackAgain(c) =>
      if c !in s.pending then s
      else
        var i := s.pending[c];
        s.(record := Some(Record(i.refresh, s.clock + i.lifetime)), lastSave := None, pending := s.pending - {c})
    case Disconnect => s.(record := None, lastSave := None)
    case Tick(seconds) => s.(clock := s.clock + seconds)
  }

  const INIT := State(0, None, map[], map[], map[], 0, {}, None, [])

  function Run(s: State, steps: seq<Step>): State
    decreases |steps|
  {
    if steps == [] then s else Run(Do(s, steps[0]), steps[1..])
  }

  // The second save of a callback lands before the first one counts as expiring.
  predicate Prompt(s: State, step: Step) {
    step.CallbackAgain? && step.c in s.pending ==>
      s.clock < s.pending[step.c].savedAt + s.pending[step.c].lifetime - BUFFER
  }

  // A call comes to the process that ran all the threads before it.
  predicate SameWorker(s: State, step: Step) {
    step.Call? ==> forall t :: t in s.threads ==> s.threads[t].worker == step.worker
  }

  // One worker process, answers that replace what they burn, prompt callbacks.
  ghost predicate Orderly(s: State, steps: seq<Step>)
    decreases |steps|
  {
    steps == [] ||
    (SameWorker(s, steps[0]) && (steps[0].Exchange? ==> Faithful(steps[0].response)) &&
     Prompt(s, steps[0]) && Orderly(Do(s, steps[0]), steps[1..]))
  }

  // -------------------------------------------------------------------------
  // The invariant
  // -------------------------------------------------------------------------

  predicate Inside(p: Phase) {
    p.Rereading? || p.Exchanging? || p.Saving? || p.Returning?
  }

  // There is one worker, and whoever is inside holds its lock.
  ghost predicate Exclusive(s: State) {
    && (forall t, u :: t in s.threads && u in s.threads ==> s.threads[t].worker == s.threads[u].worker)
    && (forall t :: t in s.threads && Inside(s.threads[t].phase) ==>
          s.threads[t].worker in s.holders && s.holders[s.threads[t].worker] == t)
  }

  predicate Known(s: State, token: Token) {
    token < s.next
  }

  // A callback's token that may still be written again has not been used.
  predicate Unused(s: State, i: SignIn, token: Token) {
    s.clock < i.savedAt + i.lifetime - BUFFER && i.refresh == Some(token)
  }

  // The lock holder is about to store a token over the one it had burned.
  predicate Rescue(s: State) {
    exists t :: t in s.threads && s.threads[t].phase.Saving?
  }

  ghost predicate RecordOk(s: State) {
    s.record.Some? && s.record.value.refresh.Some? ==>
      var token := s.record.value.refresh.value;
      && Known(s, token)
      && (token in s.burned ==> Rescue(s))
      && (forall c :: c in s.pending && Unused(s, s.pending[c], token) ==>
            s.record.value.expires >= s.pending[c].savedAt + s.pending[c].lifetime)
  }

  // Not burned, and no callback will write it again in time.
  ghost predicate Spendable(s: State, token: Token) {
    Known(s, token) && token !in s.burned && forall c :: c in s.pending ==> !Unused(s, s.pending[c], token)
  }

  ghost predicate PhaseOk(s: State, p: Phase) {
    match p
    case Exchanging(token, expires) =>
      && Spendable(s, token)
      && s.clock >= expires - BUFFER
      && (s.lastSave.Some? ==> s.record == Some(Record(Some(token), expires)))
    case Saving(token, _) =>
      Spendable(s, token) &&
      (s.lastSave.Some? ==> s.clock >= s.lastSave.value.at + s.lastSave.value.lifetime - BUFFER)
    case _ => true
  }

  ghost predicate PendingOk(s: State) {
    && (forall c :: c in s.pending && s.pending[c].refresh.Some? ==> Known(s, s.pending[c].refresh.value))
    && (forall c, token :: c in s.pending && Unused(s, s.pending[c], token) ==> token !in s.burned)
    && (forall c, d | c in s.pending && d in s.pending ::
          s.pending[c].refresh.Some? && s.pending[c].refresh == s.pending[d].refresh ==> c == d)
  }

  ghost predicate SaveOk(s: State) {
    s.lastSave.Some? ==> s.record.Some? && s.record.value.expires == s.lastSave.value.at + s.lastSave.value.lifetime
  }

  ghost predicate Clean(log: seq<Presented>) {
    forall k :: 0 <= k < |log| ==> !log[k].burned && !log[k].early
  }

  ghost predicate Inv(s: State) {
    && Exclusive(s) && RecordOk(s) && PendingOk(s) && SaveOk(s) && Clean(s.log)
    && (forall x :: x in s.burned ==> Known(s, x))
    && (forall t :: t in s.threads ==> PhaseOk(s, s.threads[t].phase))
  }

  // -------------------------------------------------------------------------
  // Preservation
  // -------------------------------------------------------------------------

  // A thread outside the lock moves to a phase outside the lock.
  lemma OutsideKeeps(s: State, t: nat, thread: Thread)
    requires Inv(s) && !Inside(thread.phase)
    requires forall u :: u in s.threads ==> s.threads[u].worker == thread.worker
    requires t in s.threads ==> !Inside(s.threads[t].phase)
    ensures Inv(s.(threads := s.threads[t := thread]))
  {
    var u := s.(threads := s.threads[t := thread]);
    if Rescue(s) {
      var saver :| saver in s.threads && s.threads[saver].phase.Saving?;
      assert saver in u.threads && u.threads[saver].phase.Saving?;
    }
  }

  // The holder leaves the lock without having burned the stored token.
  lemma LeaveKeeps(s: State, t: nat, ok: bool)
    requires Inv(s) && t in s.threads && Inside(s.threads[t].phase) && !s.threads[t].phase.Saving?
    ensures Inv(Unlock(s, t, ok))
  {
  }

  lemma CheckKeeps(s: State, t: nat)
    requires Inv(s)
    ensures Inv(Do(s, Check(t)))
  {
    if t in s.threads && s.threads[t].phase.Reading? {
      OutsideKeeps(s, t, DoCheck(s, t).threads[t]);
    }
  }

  lemma AcquireKeeps(s: State, t: nat)
    requires Inv(s)
    ensures Inv(Do(s, Acquire(t)))
  {
  }

  lemma ReadyKeeps(s: State, t: nat, token: Token)
    requires Inv(s) && t in s.threads && s.threads[t].phase.Rereading?
    requires s.record.Some? && Expiring(s.clock, s.record.value) && s.record.value.refresh == Some(token)
    ensures Inv(Move(s, t, Exchanging(token, s.record.value.expires)))
  {
    assert !Rescue(s);
  }

  lemma RecheckKeeps(s: State, t: nat)
    requires Inv(s)
    ensures Inv(Do(s, Recheck(t)))
  {
    if t in s.threads && s.threads[t].phase.Rereading? {
      if s.record.None? {
        LeaveKeeps(s, t, false);
      } else if !Expiring(s.clock, s.record.value) {
        LeaveKeeps(s, t, true);
      } else if s.record.value.refresh.None? {
        LeaveKeeps(s, t, false);
      } else {
        ReadyKeeps(s, t, s.record.value.refresh.value);
      }
    }
  }

  lemma PresentKeeps(s: State, t: nat)
    requires Inv(s) && t in s.threads && s.threads[t].phase.Exchanging?
    ensures Inv(Present(s, s.threads[t].phase.token))
  {
    assert PhaseOk(s, s.threads[t].phase);
  }

  lemma ExchangeKeeps(s: State, t: nat, response: Response)
    requires Inv(s) && Faithful(response)
    ensures Inv(Do(s, Exchange(t, response)))
  {
    if t in s.threads && s.threads[t].phase.Exchanging? {
      PresentKeeps(s, t);
      ResponseKeeps(s, t, response);
    }
  }

  lemma ResponseKeeps(s: State, t: nat, response: Response)
    requires t in s.threads && s.threads[t].phase.Exchanging? && Faithful(response)
    requires Inv(s) && Inv(Present(s, s.threads[t].phase.token))
    ensures Inv(DoExchange(s, t, s.threads[t].phase.token, response))
  {
    var u := Present(s, s.threads[t].phase.token);
    match response
    case Unsent => LeaveKeeps(s, t, false);
    case Refused => LeaveKeeps(u, t, false);
    case Kept(lifetime) => AnsweredKeeps(u, t, false, lifetime);
    case Rotated(lifetime) => AnsweredKeeps(u, t, true, lifetime);
  }

  lemma AnsweredKeeps(s: State, t: nat, rotated: bool, lifetime: int)
    requires Inv(s) && t in s.threads && s.threads[t].phase.Exchanging?
    ensures var token := s.threads[t].phase.token;
            Inv(if rotated then Move(s.(burned := s.burned + {token}, next := s.next + 1), t, Saving(s.next, lifetime))
                else Move(s, t, Saving(token, lifetime)))
  {
    var token := s.threads[t].phase.token;
    assert PhaseOk(s, s.threads[t].phase);
    if rotated {
      var u := Move(s.(burned := s.burned + {token}, next := s.next + 1), t, Saving(s.next, lifetime));
      assert u.threads[t].phase.Saving?;
    }
  }

  lemma StoreKeeps(s: State, t: nat)
    requires Inv(s)
    ensures Inv(Do(s, Store(t)))
  {
    if t in s.threads {
      assert PhaseOk(s, s.threads[t].phase);
    }
  }

  lemma ReturnKeeps(s: State, t: nat)
    requires Inv(s)
    ensures Inv(Do(s, Return(t)))
  {
    if t in s.threads && s.threads[t].phase.Returning? {
      LeaveKeeps(s, t, s.record.Some?);
    }
  }

  lemma CallbackKeeps(s: State, c: nat, hasRefresh: bool, lifetime: int)
    requires Inv(s)
    ensures Inv(Do(s, Callback(c, hasRefresh, lifetime)))
  {
  }

  lemma CallbackAgainKeeps(s: State, c: nat)
    requires Inv(s) && Prompt(s, CallbackAgain(c))
    ensures Inv(Do(s, CallbackAgain(c)))
  {
  }

  lemma TickKeeps(s: State, seconds: nat)
    requires Inv(s)
    ensures Inv(Do(s, Tick(seconds)))
  {
  }

  lemma DoKeepsInv(s: State, step: Step)
    requires Inv(s) && Prompt(s, step)
    requires SameWorker(s, step)
    requires step.Exchange? ==> Faithful(step.response)
    ensures Inv(Do(s, step))
  {
    match step
    case Call(t, worker) =>
      if t !in s.threads {
        OutsideKeeps(s, t, Thread(worker, Reading));
      }
    case Check(t) => CheckKeeps(s, t);
    case Acquire(t) => AcquireKeeps(s, t);
    case Recheck(t) => RecheckKeeps(s, t);
    case Exchange(t, response) => ExchangeKeeps(s, t, response);
    case Store(t) => StoreKeeps(s, t);
    case Return(t) => ReturnKeeps(s, t);
    case Callback(c, hasRefresh, lifetime) => CallbackKeeps(s, c, hasRefresh, lifetime);
    case CallbackAgain(c) => CallbackAgainKeeps(s, c);
    case Disconnect =>
    case Tick(seconds) => TickKeeps(s, seconds);
  }

  lemma {:induction false} RunKeepsInv(s: State, steps: seq<Step>)
    requires Inv(s) && Orderly(s, steps)
    ensures Inv(Run(s, steps))
    decreases |steps|
  {
    if steps != [] {
      DoKeepsInv(s, steps[0]);
      RunKeepsInv(Do(s, steps[0]), steps[1..]);
    }
  }

  // -------------------------------------------------------------------------
  // Main results
  // -------------------------------------------------------------------------

  /** However many threads and sign-ins interleave, no burned token is ever presented, and after a
      save the server is left alone until that save's tokens count as expiring. */
  lemma NoBurnedTokenPresented(steps: seq<Step>)
    requires Orderly(INIT, steps)
    ensures forall k :: 0 <= k < |Run(INIT, steps).log| ==>
      !Run(INIT, steps).log[k].burned && !Run(INIT, steps).log[k].early
  {
    RunKeepsInv(INIT, steps);
  }

  // Every presentation was answered by a rotation.
  predicate AlwaysRotates(steps: seq<Step>) {
    forall k :: 0 <= k < |steps| && steps[k].Exchange? ==> steps[k].response.Rotated? || steps[k].response.Unsent?
  }

  ghost predicate LogBurned(s: State) {
    && (forall k :: 0 <= k < |s.log| ==> s.log[k].token in s.burned)
    && (forall j, k :: 0 <= j < k < |s.log| ==> s.log[j].token != s.log[k].token)
  }

  lemma {:induction false} RunSingleUse(s: State, steps: seq<Step>)
    requires Inv(s) && LogBurned(s) && Orderly(s, steps) && AlwaysRotates(steps)
    ensures LogBurned(Run(s, steps))
    decreases |steps|
  {
    if steps != [] {
      DoKeepsInv(s, steps[0]);
      StepSingleUse(s, steps[0]);
      RunSingleUse(Do(s, steps[0]), steps[1..]);
    }
  }

  lemma StepSingleUse(s: State, step: Step)
    requires Inv(s) && LogBurned(s)
    requires step.Exchange? ==> step.response.Rotated? || step.response.Unsent?
    ensures LogBurned(Do(s, step))
  {
    if step.Exchange? && step.t in s.threads && s.threads[step.t].phase.Exchanging? {
      assert PhaseOk(s, s.threads[step.t].phase);
    }
  }

  /** With a server that rotates every time, no token is presented twice. */
  lemma TokensAreSingleUse(steps: seq<Step>)
    requires Orderly(INIT, steps) && AlwaysRotates(steps)
    ensures forall j, k :: 0 <= j < k < |Run(INIT, steps).log| ==>
      Run(INIT, steps).log[j].token != Run(INIT, steps).log[k].token
  {
    RunSingleUse(INIT, steps);
  }

  predicate NoSignIn(steps: seq<Step>) {
    forall k :: 0 <= k < |steps| ==> !steps[k].Callback? && !steps[k].CallbackAgain? && !steps[k].Disconnect?
  }

  /** One exchange serves a whole burst: from a save until its tokens count as expiring, threads
      may come and go, but without a new sign-in nothing is presented to the server. */
  lemma {:induction false} QuietAfterSave(s: State, steps: seq<Step>, save: Save)
    requires Inv(s) && Orderly(s, steps) && NoSignIn(steps) && s.lastSave == Some(save)
    requires Run(s, steps).clock < save.at + save.lifetime - BUFFER
    ensures Run(s, steps).log == s.log && Run(s, steps).lastSave == Some(save)
    decreases |steps|
  {
    if steps != [] {
      ClockOnlyAdvances(Do(s, steps[0]), steps[1..]);
      ClockStep(s, steps[0]);
      DoKeepsInv(s, steps[0]);
      QuietStep(s, steps[0], save);
      QuietAfterSave(Do(s, steps[0]), steps[1..], save);
    }
  }

  lemma QuietStep(s: State, step: Step, save: Save)
    requires Inv(s) && !step.Callback? && !step.CallbackAgain? && !step.Disconnect?
    requires s.lastSave == Some(save) && s.clock < save.at + save.lifetime - BUFFER
    ensures Do(s, step).log == s.log && Do(s, step).lastSave == Some(save)
  {
    assert forall t :: t in s.threads ==> PhaseOk(s, s.threads[t].phase);
  }

  lemma {:induction false} ClockOnlyAdvances(s: State, steps: seq<Step>)
    ensures s.clock <= Run(s, steps).clock
    decreases |steps|
  {
    if steps != [] {
      ClockStep(s, steps[0]);
      ClockOnlyAdvances(Do(s, steps[0]), steps[1..]);
    }
  }

  lemma ClockStep(s: State, step: Step)
    ensures s.clock <= Do(s, step).clock
  {
  }

  // -------------------------------------------------------------------------
  // The lock table
  // -------------------------------------------------------------------------

  /** One lock per user, made on first use and never replaced. A lock is named by the order in
      which it was made. */
  class RefreshLocks {
    var locks: map<string, nat>
    var made: nat

    ghost predicate Valid()
      reads this
    {
      && (forall u :: u in locks ==> locks[u] < made)
      && (forall u, v :: u in locks && v in locks && locks[u] == locks[v] ==> u == v)
    }

    constructor ()
      ensures Valid() && locks == map[]
    {
      locks, made := map[], 0;
    }

    method GetRefreshLock(user: string) returns (lock: nat)
      requires Valid()
      modifies this
      ensures Valid() && user in locks && locks[user] == lock
      ensures locks.Keys == old(locks).Keys + {user}
      ensures forall u :: u in old(locks) ==> locks[u] == old(locks)[u]
      ensures forall u :: u in locks && u != user ==> locks[u] != lock
    {
      if user !in locks {
        locks := locks[user := made];
        made := made + 1;
      }
      lock := locks[user];
    }
  }
}
