/** What a call for a token answers, and when it answers at all. */
module TokenAnswers {
  import opened Wrappers
  import opened TokenRefresh

  predicate Answered(s: State, t: nat) {
    t in s.threads && s.threads[t].phase.Finished?
  }

  /** A step that ends a call answers well exactly if there is a record and, except right after a save of its
      own, the record is good for more than 60 seconds; and never if the server had the last word. */
  lemma AnswerIff(s: State, step: Step, t: nat)
    requires t in s.threads && !Answered(s, t) && Answered(Do(s, step), t)
    ensures Do(s, step).threads[t].phase.ok <==>
      s.record.Some? && !step.Exchange? && (step.Return? || s.clock < s.record.value.expires - 60)
  {
  }

  /** And when it ends: a check that finds no record or a good one, inside the lock also one without a
      refresh token; an answer that brings no token; and the read after the save. */
  lemma EndsIff(s: State, step: Step, t: nat)
    requires t in s.threads && !Answered(s, t)
    ensures var good := s.record.Some? && s.clock < s.record.value.expires - 60;
            Answered(Do(s, step), t) <==>
              || (step == Check(t) && s.threads[t].phase.Reading? && (s.record.None? || good))
              || (step == Recheck(t) && s.threads[t].phase.Rereading? &&
                  (s.record.None? || good || s.record.value.refresh.None?))
              || (step.Exchange? && step.t == t && s.threads[t].phase.Exchanging? &&
                  (step.response.Refused? || step.response.Unsent? || step.response.Lost?))
              || (step == Return(t) && s.threads[t].phase.Returning?)
  {
  }

  /** A call that ends inside the lock frees it, whichever way it ends; one that ends outside frees none. */
  lemma EndsUnlock(s: State, step: Step, t: nat)
    requires t in s.threads && !Answered(s, t) && Answered(Do(s, step), t)
    ensures Do(s, step).holders ==
      if Inside(s.threads[t].phase) then s.holders - {s.threads[t].worker} else s.holders
  {
    EndsIff(s, step, t);
  }

  /** A call that finds a record good for more than 60 seconds answers well at once, without the lock and
      without the server; so does one that finds it good when its turn at the lock comes. */
  lemma GoodRecordAnswers(s: State, t: nat, worker: nat)
    requires s.record.Some? && s.clock < s.record.value.expires - 60
    ensures t !in s.threads ==>
      var u := Do(Do(s, Call(t, worker)), Check(t));
      u == s.(threads := s.threads[t := Thread(worker, Finished(true))])
    ensures t in s.threads && s.threads[t].phase.Rereading? ==>
      var u := Do(s, Recheck(t));
      u == s.(threads := s.threads[t := Thread(s.threads[t].worker, Finished(true))],
              holders := s.holders - {s.threads[t].worker})
  {
    if t !in s.threads {
      var u := s.threads[t := Thread(worker, Reading)];
      assert u[t := Thread(worker, Finished(true))] == s.threads[t := Thread(worker, Finished(true))];
    }
  }

  predicate Presents(s: State, t: nat, token: Token) {
    t in s.threads && s.threads[t].phase.Exchanging? && s.threads[t].phase.token == token
  }

  /** A call that finds the record expired or missing a token comes to an end or to the server with the
      stored token: inside the lock it presents exactly what is stored. */
  lemma ExpiredIsPresented(s: State, t: nat)
    requires t in s.threads && s.threads[t].phase.Rereading?
    ensures var u := Do(s, Recheck(t));
            if s.record.Some? && s.record.value.expires - 60 <= s.clock && s.record.value.refresh.Some?
            then Presents(u, t, s.record.value.refresh.value) && u.holders == s.holders
            else Answered(u, t) && u.holders == s.holders - {s.threads[t].worker}
  {
  }

  // -------------------------------------------------------------------------
  // A call the server has answered
  // -------------------------------------------------------------------------

  predicate NoDisconnect(steps: seq<Step>) {
    forall k :: 0 <= k < |steps| ==> !steps[k].Disconnect?
  }

  // The token and lifetime a response gives to be saved.
  function Brought(s: State, token: Token, r: Response): Option<(Token, int)> {
    match r
    case Rotated(lifetime) => Some((s.next, lifetime))
    case Kept(lifetime) => Some((token, lifetime))
    case BurnedSilently(lifetime) => Some((token, lifetime))
    case _ => None
  }

  // On the way from the answer to a good end.
  predicate OnTheWay(s: State, t: nat, token: Token, lifetime: int) {
    && t in s.threads
    && match s.threads[t].phase
       case Saving(k, l) => k == token && l == lifetime
       case Returning => s.record.Some?
       case Finished(ok) => ok
       case _ => false
  }

  lemma StepOnTheWay(s: State, step: Step, t: nat, token: Token, lifetime: int)
    requires OnTheWay(s, t, token, lifetime) && !step.Disconnect?
    ensures OnTheWay(Do(s, step), t, token, lifetime)
  {
  }

  lemma {:induction false} RunOnTheWay(s: State, steps: seq<Step>, t: nat, token: Token, lifetime: int)
    requires OnTheWay(s, t, token, lifetime) && NoDisconnect(steps)
    ensures OnTheWay(Run(s, steps), t, token, lifetime)
    decreases |steps|
  {
    if steps != [] {
      StepOnTheWay(s, steps[0], t, token, lifetime);
      RunOnTheWay(Do(s, steps[0]), steps[1..], t, token, lifetime);
    }
  }

  /** A call whose exchange brought tokens never answers badly, whatever runs beside it, unless the user
      disconnects; and wherever it stands, its own next two steps end it, with the tokens stored. */
  lemma ExchangedEndsWell(s: State, t: nat, response: Response, steps: seq<Step>)
    requires t in s.threads && s.threads[t].phase.Exchanging? && NoDisconnect(steps)
    requires !response.Refused? && !response.Unsent? && !response.Lost?
    ensures var u := Do(s, Exchange(t, response));
            var v, brought := Run(u, steps), Brought(s, s.threads[t].phase.token, response);
            && brought.Some? && OnTheWay(v, t, brought.value.0, brought.value.1)
            && var z := Do(Do(v, Store(t)), Return(t));
               && t in z.threads && z.threads[t].phase == Finished(true)
               && (v.threads[t].phase.Saving? ==>
                     z.record == Some(Record(Some(brought.value.0), v.clock + brought.value.1)))
  {
    var u := Do(s, Exchange(t, response));
    var brought := Brought(s, s.threads[t].phase.token, response).value;
    RunOnTheWay(u, steps, t, brought.0, brought.1);
  }

  /** A disconnect between the save and the read is the one way to lose it. */
  lemma DisconnectAnswersBadly(s: State, t: nat)
    requires t in s.threads && s.threads[t].phase.Returning?
    ensures Do(Do(s, Disconnect), Return(t)).threads[t].phase == Finished(false)
  {
  }

  /** A burst: however many calls wait when one has saved, each of them that gets the lock while the saved
      tokens are good answers well and presents nothing. */
  lemma WaitersAreServed(s: State, t: nat, save: Save)
    requires Inv(s) && s.lastSave == Some(save) && s.clock < save.at + save.lifetime - 60
    requires t in s.threads && s.threads[t].phase.Waiting? && s.threads[t].worker !in s.holders
    ensures var u := Do(Do(s, Acquire(t)), Recheck(t));
            t in u.threads && u.threads[t].phase == Finished(true) && u.log == s.log && u.record == s.record
  {
  }
}
