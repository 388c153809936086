/** When single use holds, exactly: for any set of worker processes, of token lifetimes, of answers
    beyond the faithful ones, and of delays of a callback's second save. */
module TokenSafety {
  import opened Wrappers
  import opened TokenRefresh

  // What runs may contain. `late` are the (lifetime, delay) pairs with which a callback may save its
  // tokens again; prompt second saves and faithful answers are always allowed.
  datatype Regime = Regime(workers: iset<nat>, lifetimes: iset<int>, answers: iset<Response>, late: iset<(int, int)>)

  ghost predicate Allowed(g: Regime, s: State, step: Step) {
    && (step.Call? ==> step.worker in g.workers)
    && (step.Callback? ==> step.lifetime in g.lifetimes)
    && (step.Exchange? ==> Faithful(step.response) || step.response in g.answers)
    && (step.CallbackAgain? && step.c in s.pending ==>
          Prompt(s, step) || (s.pending[step.c].lifetime, s.clock - s.pending[step.c].savedAt) in g.late)
  }

  ghost predicate Within(g: Regime, s: State, steps: seq<Step>)
    decreases |steps|
  {
    steps == [] || (Allowed(g, s, steps[0]) && Within(g, Do(s, steps[0]), steps[1..]))
  }

  // One worker, faithful answers only, and second saves before the first one counts as expiring.
  ghost predicate Tame(g: Regime) {
    && (forall v, w :: v in g.workers && w in g.workers ==> v == w)
    && (forall r :: r in g.answers ==> Faithful(r))
    && (forall lifetime, delay :: (lifetime, delay) in g.late && lifetime in g.lifetimes && delay >= 0 ==>
          delay < lifetime - BUFFER)
  }

  ghost predicate AlwaysClean(g: Regime) {
    forall steps :: Within(g, INIT, steps) ==> Clean(Run(INIT, steps).log)
  }

  // -------------------------------------------------------------------------
  // A tame regime is safe
  // -------------------------------------------------------------------------

  // All threads run in allowed workers, and pending callbacks began in the past.
  ghost predicate ThreadsFit(g: Regime, s: State) {
    forall t :: t in s.threads ==> s.threads[t].worker in g.workers
  }

  ghost predicate PendingFit(g: Regime, s: State) {
    forall c :: c in s.pending ==> s.pending[c].savedAt <= s.clock && s.pending[c].lifetime in g.lifetimes
  }

  lemma DoFitsThreads(g: Regime, s: State, step: Step)
    requires ThreadsFit(g, s) && Allowed(g, s, step)
    ensures ThreadsFit(g, Do(s, step))
  {
  }

  lemma DoFitsPending(g: Regime, s: State, step: Step)
    requires PendingFit(g, s) && Allowed(g, s, step)
    ensures PendingFit(g, Do(s, step))
  {
  }

  lemma {:induction false} TameIsOrderly(g: Regime, s: State, steps: seq<Step>)
    requires Tame(g) && ThreadsFit(g, s) && PendingFit(g, s) && Within(g, s, steps)
    ensures Orderly(s, steps)
    decreases |steps|
  {
    if steps != [] {
      DoFitsThreads(g, s, steps[0]);
      DoFitsPending(g, s, steps[0]);
      TameIsOrderly(g, Do(s, steps[0]), steps[1..]);
    }
  }

  // -------------------------------------------------------------------------
  // Runs, one step at a time
  // -------------------------------------------------------------------------

  ghost predicate Reached(g: Regime, s: State) {
    exists steps :: Within(g, INIT, steps) && Run(INIT, steps) == s
  }

  lemma {:induction false} RunSnoc(g: Regime, s: State, steps: seq<Step>, step: Step)
    requires Within(g, s, steps) && Allowed(g, Run(s, steps), step)
    ensures Within(g, s, steps + [step]) && Run(s, steps + [step]) == Do(Run(s, steps), step)
    decreases |steps|
  {
    if steps == [] {
      assert ([] + [step])[1..] == [] && ([] + [step])[0] == step;
      assert Run(Do(s, step), []) == Do(s, step) && Within(g, Do(s, step), []);
    } else {
      assert (steps + [step])[0] == steps[0] && (steps + [step])[1..] == steps[1..] + [step];
      RunSnoc(g, Do(s, steps[0]), steps[1..], step);
    }
  }

  lemma StepReaches(g: Regime, s: State, step: Step)
    requires Reached(g, s) && Allowed(g, s, step)
    ensures Reached(g, Do(s, step))
  {
    var steps :| Within(g, INIT, steps) && Run(INIT, steps) == s;
    RunSnoc(g, INIT, steps, step);
  }

  // Thread t of `worker`, up to the moment it presents the stored token.
  function Ready(s: State, t: nat, worker: nat, token: Token): State
    requires s.record.Some?
  {
    s.(threads := s.threads[t := Thread(worker, Exchanging(token, s.record.value.expires))],
       holders := s.holders[worker := t])
  }

  // The same thread, waiting for the lock.
  function Waits(s: State, t: nat, worker: nat): State {
    s.(threads := s.threads[t := Thread(worker, Waiting)])
  }

  lemma ReachesWaits(g: Regime, s: State, t: nat, worker: nat)
    requires Reached(g, s) && t !in s.threads && worker in g.workers
    requires s.record.Some? && Expiring(s.clock, s.record.value)
    ensures Reached(g, Waits(s, t, worker))
  {
    StepReaches(g, s, Call(t, worker));
    var s1 := s.(threads := s.threads[t := Thread(worker, Reading)]);
    assert Do(s, Call(t, worker)) == s1;
    StepReaches(g, s1, Check(t));
    assert s1.threads[t := Thread(worker, Waiting)] == Waits(s, t, worker).threads;
    assert Do(s1, Check(t)) == Waits(s, t, worker);
  }

  lemma ReachesReady(g: Regime, s: State, t: nat, worker: nat, token: Token)
    requires Reached(g, s) && t !in s.threads && worker in g.workers && worker !in s.holders
    requires s.record.Some? && Expiring(s.clock, s.record.value) && s.record.value.refresh == Some(token)
    ensures Reached(g, Ready(s, t, worker, token))
  {
    ReachesWaits(g, s, t, worker);
    WaitsToReady(g, s, t, worker, token);
  }

  // And holding it.
  function Locks(s: State, t: nat, worker: nat): State {
    s.(threads := s.threads[t := Thread(worker, Rereading)], holders := s.holders[worker := t])
  }

  lemma WaitsToLocks(g: Regime, s: State, t: nat, worker: nat)
    requires Reached(g, Waits(s, t, worker)) && worker !in s.holders
    ensures Reached(g, Locks(s, t, worker))
  {
    StepReaches(g, Waits(s, t, worker), Acquire(t));
    assert Waits(s, t, worker).threads[t := Thread(worker, Rereading)] == Locks(s, t, worker).threads;
    assert Do(Waits(s, t, worker), Acquire(t)) == Locks(s, t, worker);
  }

  lemma WaitsToReady(g: Regime, s: State, t: nat, worker: nat, token: Token)
    requires Reached(g, Waits(s, t, worker)) && worker !in s.holders
    requires s.record.Some? && Expiring(s.clock, s.record.value) && s.record.value.refresh == Some(token)
    ensures Reached(g, Ready(s, t, worker, token))
  {
    WaitsToLocks(g, s, t, worker);
    var thread := Thread(worker, Exchanging(token, s.record.value.expires));
    StepReaches(g, Locks(s, t, worker), Recheck(t));
    assert Locks(s, t, worker).threads[t := thread] == Ready(s, t, worker, token).threads;
    assert Do(Locks(s, t, worker), Recheck(t)) == Ready(s, t, worker, token);
  }

  // A thread that is about to present a burned token does so.
  lemma BurnedAgain(g: Regime, s: State, t: nat)
    requires Reached(g, s) && t in s.threads && s.threads[t].phase.Exchanging?
    requires s.threads[t].phase.token in s.burned
    ensures !AlwaysClean(g)
  {
    StepReaches(g, s, Exchange(t, Refused));
    var u := Do(s, Exchange(t, Refused));
    assert u.log[|s.log|].burned;
    var steps :| Within(g, INIT, steps) && Run(INIT, steps) == u;
  }

  // A sign-in, and the time until its tokens count as expiring.
  function SignedIn(lifetime: int, clock: int): State {
    State(clock, Some(Record(Some(0), lifetime)), map[], map[], map[0 := SignIn(Some(0), lifetime, 0)], 1, {}, None, [])
  }

  function Patience(lifetime: int): nat {
    if lifetime > BUFFER then lifetime - BUFFER else 0
  }

  lemma ReachesSignedIn(g: Regime, lifetime: int, clock: nat)
    requires lifetime in g.lifetimes
    ensures Reached(g, SignedIn(lifetime, clock))
  {
    assert Within(g, INIT, []) && Run(INIT, []) == INIT;
    StepReaches(g, INIT, Callback(0, true, lifetime));
    assert Do(INIT, Callback(0, true, lifetime)) == SignedIn(lifetime, 0);
    StepReaches(g, SignedIn(lifetime, 0), Tick(clock));
    assert Do(SignedIn(lifetime, 0), Tick(clock)) == SignedIn(lifetime, clock);
  }

  // Everything about a thread that is done but its number does not matter any more.
  ghost predicate Idle(s: State, worker: nat, record: Record) {
    s.record == Some(record) && worker !in s.holders && 1 !in s.threads && 0 in s.burned
  }

  // -------------------------------------------------------------------------
  // Four ways to present a burned token, each from the empty state
  // -------------------------------------------------------------------------

  /** Two worker processes have two locks: whatever the lifetime, both present the same token, the
      second time burned. */
  lemma TwoWorkersPresentTwice(g: Regime, v: nat, w: nat, lifetime: int)
    requires v in g.workers && w in g.workers && v != w && lifetime in g.lifetimes
    ensures !AlwaysClean(g)
  {
    var s := SignedIn(lifetime, Patience(lifetime));
    ReachesSignedIn(g, lifetime, Patience(lifetime));
    ReachesReady(g, s, 0, v, 0);
    var s1 := Ready(s, 0, v, 0);
    ReachesReady(g, s1, 1, w, 0);
    var s2 := Ready(s1, 1, w, 0);
    StepReaches(g, s2, Exchange(0, Rotated(3600)));
    BurnedAgain(g, Do(s2, Exchange(0, Rotated(3600))), 1);
  }

  // A first thread presents the token of the sign-in and is answered.
  function Presented1(worker: nat, lifetime: int, clock: int): State {
    Ready(SignedIn(lifetime, clock), 0, worker, 0)
  }

  lemma SecondThread(g: Regime, s: State, worker: nat, expires: int)
    requires Reached(g, s) && worker in g.workers && Idle(s, worker, Record(Some(0), expires))
    ensures !AlwaysClean(g)
  {
    var later := if expires - BUFFER > s.clock then expires - BUFFER - s.clock else 0;
    StepReaches(g, s, Tick(later));
    var u := s.(clock := s.clock + later);
    assert Do(s, Tick(later)) == u;
    ReachesReady(g, u, 1, worker, 0);
    BurnedAgain(g, Ready(u, 1, worker, 0), 1);
  }

  /** An answer that burns the token and never arrives leaves the burned token stored, and the next
      thread presents it. */
  lemma LostAnswerPresentsAgain(g: Regime, w: nat, lifetime: int)
    requires w in g.workers && lifetime in g.lifetimes && Lost in g.answers
    ensures !AlwaysClean(g)
  {
    ReachesSignedIn(g, lifetime, Patience(lifetime));
    ReachesReady(g, SignedIn(lifetime, Patience(lifetime)), 0, w, 0);
    var s := Presented1(w, lifetime, Patience(lifetime));
    StepReaches(g, s, Exchange(0, Lost));
    SecondThread(g, Do(s, Exchange(0, Lost)), w, lifetime);
  }

  // An exchange that is answered, the save and the end of the thread.
  lemma AnswerStored(g: Regime, s: State, t: nat, worker: nat, response: Response)
    requires Reached(g, s) && t in s.threads && s.threads[t].phase.Exchanging? && s.threads[t].worker == worker
    requires response.Rotated? || (response.BurnedSilently? && response in g.answers)
    ensures var token := s.threads[t].phase.token;
            var stored := if response.Rotated? then s.next else token;
            exists u :: Reached(g, u) && u.threads.Keys == s.threads.Keys && worker !in u.holders &&
              u.record == Some(Record(Some(stored), s.clock + response.lifetime)) && u.clock == s.clock &&
              token in u.burned && u.pending == s.pending
  {
    StepReaches(g, s, Exchange(t, response));
    var s1 := Do(s, Exchange(t, response));
    Answered(s, t, response);
    StoreAndReturn(g, s1, t, worker);
    var s3 := Do(Do(s1, Store(t)), Return(t));
    assert s3.threads.Keys == s.threads.Keys;
  }

  lemma Answered(s: State, t: nat, response: Response)
    requires t in s.threads && s.threads[t].phase.Exchanging? && (response.Rotated? || response.BurnedSilently?)
    ensures var token, u := s.threads[t].phase.token, Do(s, Exchange(t, response));
            && u.threads.Keys == s.threads.Keys && u.clock == s.clock && token in u.burned && u.pending == s.pending
            && u.threads[t] == Thread(s.threads[t].worker,
                                      Saving(if response.Rotated? then s.next else token, response.lifetime))
  {
  }

  lemma StoreAndReturn(g: Regime, s: State, t: nat, worker: nat)
    requires Reached(g, s) && t in s.threads && s.threads[t].phase.Saving? && s.threads[t].worker == worker
    ensures var p, u := s.threads[t].phase, Do(Do(s, Store(t)), Return(t));
            Reached(g, u) && u.threads.Keys == s.threads.Keys && worker !in u.holders &&
            u.record == Some(Record(Some(p.token), s.clock + p.lifetime)) && u.clock == s.clock &&
            u.burned == s.burned && u.pending == s.pending
  {
    StepReaches(g, s, Store(t));
    var s2 := Do(s, Store(t));
    assert s2.threads[t] == Thread(worker, Returning);
    StepReaches(g, s2, Return(t));
  }

  /** So does an answer that burns the token without a new one in it. */
  lemma SilentBurnPresentsAgain(g: Regime, w: nat, lifetime: int, response: Response)
    requires w in g.workers && lifetime in g.lifetimes && response in g.answers && response.BurnedSilently?
    ensures !AlwaysClean(g)
  {
    ReachesSignedIn(g, lifetime, Patience(lifetime));
    ReachesReady(g, SignedIn(lifetime, Patience(lifetime)), 0, w, 0);
    var s := Presented1(w, lifetime, Patience(lifetime));
    AnswerStored(g, s, 0, w, response);
    var u :| Reached(g, u) && u.threads.Keys == s.threads.Keys && w !in u.holders &&
      u.record == Some(Record(Some(0), s.clock + response.lifetime)) && u.clock == s.clock && 0 in u.burned &&
      u.pending == s.pending;
    SecondThread(g, u, w, s.clock + response.lifetime);
  }

  /** A second save that comes when the first one counts as expiring, or later: whatever the lifetime
      and the delay, the token may have been exchanged by then, and its burned form is stored and
      presented again. */
  lemma LateCallbackRevivesToken(g: Regime, w: nat, lifetime: int, delay: nat)
    requires w in g.workers && lifetime in g.lifetimes && (lifetime, delay) in g.late && delay >= lifetime - BUFFER
    ensures !AlwaysClean(g)
  {
    ReachesSignedIn(g, lifetime, delay);
    ReachesReady(g, SignedIn(lifetime, delay), 0, w, 0);
    var s := Presented1(w, lifetime, delay);
    AnswerStored(g, s, 0, w, Rotated(3600));
    var u :| Reached(g, u) && u.threads.Keys == s.threads.Keys && w !in u.holders &&
      u.record == Some(Record(Some(s.next), s.clock + 3600)) && u.clock == s.clock && 0 in u.burned &&
      u.pending == s.pending;
    StepReaches(g, u, CallbackAgain(0));
    SecondThread(g, Do(u, CallbackAgain(0)), w, u.clock + lifetime);
  }

  // -------------------------------------------------------------------------
  // The exact condition
  // -------------------------------------------------------------------------

  /** No burned token, and none before its time, is presented in any run of a regime if and only if the
      regime has one worker process, answers that replace what they burn, and second saves of
      callbacks less than the lifetime minus 60 seconds after the first. */
  lemma SafeIff(g: Regime, worker: nat, lifetime: int)
    requires worker in g.workers && lifetime in g.lifetimes
    ensures AlwaysClean(g) <==> Tame(g)
  {
    if Tame(g) {
      forall steps | Within(g, INIT, steps) ensures Clean(Run(INIT, steps).log) {
        TameIsOrderly(g, INIT, steps);
        NoBurnedTokenPresented(steps);
      }
    } else if v, w :| v in g.workers && w in g.workers && v != w {
      TwoWorkersPresentTwice(g, v, w, lifetime);
    } else if r :| r in g.answers && !Faithful(r) {
      if r.Lost? {
        LostAnswerPresentsAgain(g, worker, lifetime);
      } else {
        SilentBurnPresentsAgain(g, worker, lifetime, r);
      }
    } else {
      var l, d :| (l, d) in g.late && l in g.lifetimes && d >= 0 && d >= l - BUFFER;
      LateCallbackRevivesToken(g, worker, l, d);
    }
  }
}
