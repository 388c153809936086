/** One call from its first statement to its last, and one bootstrap from its claim to its end. */
module BootstrapRuns {
  import opened Wrappers
  import opened PyText
  import opened ConnectionIdentity
  import opened CatalogClaims
  import opened ClaimSystem
  import opened ClaimRaces

  // -------------------------------------------------------------------------
  // A bootstrap and the runs beside it
  // -------------------------------------------------------------------------

  predicate AtUserClaim(s: State, p: nat) {
    p in s.processes && (s.processes[p].UserSelect? || s.processes[p].UserWrite?)
  }

  ghost predicate HasRival(t: Table, place: Place, owner: string) {
    exists o :: o != owner && HoldsPlace(t, place, o)
  }

  // The worker has the id of its user's active claim on `place`, and knows whether a snapshot
  // pipeline id was on it.
  predicate Took(t: Table, pc: Process, user: string, place: Place) {
    && pc.UserWorker? && pc.user == user && pc.claimId in t.rows
    && t.rows[pc.claimId].owner == user && ActiveOn(t.rows[pc.claimId], place.workspace, place.catalog)
    && (pc.unprovisioned <==> !t.rows[pc.claimId].provisioned)
  }

  lemma SelectTakes(t: Table, user: string, place: Place)
    requires WellFormed(t)
    ensures var next := AfterUserSelect(t, user, place);
            && (next.UserDone? <==> HasRival(t, place, user))
            && (HoldsPlace(t, place, user) ==> Took(t, next, user, place))
            && (!HoldsPlace(t, place, user) && !HasRival(t, place, user) ==> next == UserWrite(user, place))
  {
    ClaimedIffHeld(t, place.workspace, place.catalog);
    assert forall o :: HoldsPlace(t, place, o) <==> Holds(t, place.workspace, place.catalog, o);
  }

  lemma WriteTakes(t: Table, user: string, place: Place)
    requires WellFormed(t)
    ensures var (u, next) := AfterUserWrite(t, user, place);
            && (next.UserDone? <==> HasRival(t, place, user))
            && (if next.UserDone? then u == t else Took(u, next, user, place) && next.unprovisioned)
  {
    ClaimEffect(t, place.workspace, place.catalog, user);
    assert forall o :: HoldsPlace(t, place, o) <==> Holds(t, place.workspace, place.catalog, o);
  }

  /** A claim statement of a bootstrap refuses exactly when another owner holds the catalog, and then
      changes no claim; a bootstrap that gets its claim has the id of an active claim of its user on
      that catalog, marked unprovisioned exactly if no snapshot pipeline id is on it. */
  lemma WorkerTakes(digest: Digest, s: State, p: nat)
    requires BaseInv(s) && AtUserClaim(s, p)
    ensures var pc, u := s.processes[p], Do(digest, s, Advance(p));
            var next := u.processes[p];
            && (next.UserDone? <==> HasRival(s.claims, pc.place, pc.user))
            && (next.UserDone? ==> u.claims == s.claims)
            && (HoldsPlace(s.claims, pc.place, pc.user) || pc.UserWrite? ==>
                  next.UserDone? || Took(u.claims, next, pc.user, pc.place))
            && (next.UserDone? || next == UserWrite(pc.user, pc.place) || Took(u.claims, next, pc.user, pc.place))
  {
    var pc := s.processes[p];
    AdvancedIs(digest, s, p);
    if pc.UserSelect? {
      SelectTakes(s.claims, pc.user, pc.place);
    } else {
      WriteTakes(s.claims, pc.user, pc.place);
    }
  }

  // A worker keeps its claim id and its mark until it ends, and does not come back.
  predicate Follows(before: Process, after: Process) {
    after == before || after.UserDone? || after.Failed?
  }

  lemma StepFollows(digest: Digest, s: State, step: Step, p: nat, pc: Process)
    requires p in s.processes && pc.UserWorker? && Follows(pc, s.processes[p])
    ensures p in Do(digest, s, step).processes && Follows(pc, Do(digest, s, step).processes[p])
  {
    if step.Advance? && step.p in s.processes {
      AdvancedIs(digest, s, step.p);
    }
  }

  lemma {:induction false} RunFollows(digest: Digest, s: State, steps: seq<Step>, p: nat, pc: Process)
    requires p in s.processes && pc.UserWorker? && Follows(pc, s.processes[p])
    ensures p in Run(digest, s, steps).processes && Follows(pc, Run(digest, s, steps).processes[p])
    decreases |steps|
  {
    if steps != [] {
      StepFollows(digest, s, steps[0], p, pc);
      RunFollows(digest, Do(digest, s, steps[0]), steps[1..], p, pc);
    }
  }

  lemma SameHandsTrans(t: Table, u: Table, v: Table)
    requires SameHands(t, u) && SameHands(u, v)
    ensures SameHands(t, v)
  {
  }

  lemma DoSameHands(digest: Digest, s: State, step: Step)
    requires BaseInv(s)
    ensures SameHands(s.claims, Do(digest, s, step).claims)
  {
    if !step.Advance? {
      OtherClaims(digest, s, step);
    } else if step.p in s.processes {
      AdvanceBase(digest, s, step.p);
      AdvancedIs(digest, s, step.p);
    }
  }

  lemma {:induction false} RunSameHands(digest: Digest, s: State, steps: seq<Step>)
    requires BaseInv(s)
    ensures SameHands(s.claims, Run(digest, s, steps).claims)
    decreases |steps|
  {
    if steps != [] {
      var u := Do(digest, s, steps[0]);
      DoKeepsBase(digest, s, steps[0]);
      DoSameHands(digest, s, steps[0]);
      RunSameHands(digest, u, steps[1..]);
      SameHandsTrans(s.claims, u.claims, Run(digest, u, steps[1..]).claims);
    }
  }

  // The worker's claim is still its user's active claim on `place`.
  predicate StillClaims(s: State, p: nat, user: string, place: Place) {
    && p in s.processes && s.processes[p].UserWorker? && s.processes[p].claimId in s.claims.rows
    && s.claims.rows[s.processes[p].claimId].owner == user
    && ActiveOn(s.claims.rows[s.processes[p].claimId], place.workspace, place.catalog)
  }

  // The end of a bootstrap whose claim is to be ended with it, or kept.
  ghost predicate EndsWith(v: State, z: State, id: nat, user: string, place: Place, kept: bool) {
    && id in z.claims.rows && (z.claims.rows[id].active <==> kept)
    && (HoldsPlace(z.claims, place, user) <==> kept)
    && (forall at, o :: at != place || o != user ==> (HoldsPlace(z.claims, at, o) <==> HoldsPlace(v.claims, at, o)))
  }

  lemma FailureEnds(digest: Digest, v: State, p: nat, user: string, place: Place)
    requires WellFormed(v.claims) && StillClaims(v, p, user, place)
    ensures EndsWith(v, Do(digest, v, WorkerEnds(p, true)), v.processes[p].claimId, user, place,
                     !v.processes[p].unprovisioned)
  {
    var (t, id) := (v.claims, v.processes[p].claimId);
    WorkerEndsIs(digest, v, p, true);
    ReleaseEffect(t, id);
    assert HoldsPlace(t, place, user);
    forall at, o | at != place || o != user
      ensures HoldsPlace(Release(t, id), at, o) <==> HoldsPlace(t, at, o)
    {
      if at == place && HoldsPlace(t, at, o) {
        SameHolder(t, place, user, o);
      }
    }
  }

  /** A bootstrap that ends in failure ends its claim exactly if no snapshot pipeline id was on the claim
      when it was taken, whatever was done in between, a snapshot pipeline of its own included. It takes
      no catalog from anybody else, and a bootstrap that succeeds ends no claim. */
  lemma FailureReleasesIff(digest: Digest, s: State, p: nat, during: seq<Step>)
    requires BaseInv(s) && AtUserClaim(s, p) && Do(digest, s, Advance(p)).processes[p].UserWorker?
    ensures var user, place, taken := s.processes[p].user, s.processes[p].place, Do(digest, s, Advance(p));
            var v, id := Run(digest, taken, during), taken.processes[p].claimId;
            && id in taken.claims.rows
            && (p in v.processes && v.processes[p].UserWorker? && id in v.claims.rows && v.claims.rows[id].active ==>
                  EndsWith(v, Do(digest, v, WorkerEnds(p, true)), id, user, place, taken.claims.rows[id].provisioned))
            && Do(digest, v, WorkerEnds(p, false)).claims == v.claims
            && (forall failed :: p in v.processes ==> !Do(digest, v, WorkerEnds(p, failed)).processes[p].UserWorker?)
  {
    var taken := Do(digest, s, Advance(p));
    var v := Run(digest, taken, during);
    WorkerTakes(digest, s, p);
    DoKeepsBase(digest, s, Advance(p));
    RunFollows(digest, taken, during, p, taken.processes[p]);
    RunSameHands(digest, taken, during);
    RunKeepsBase(digest, taken, during);
    StillThere(taken, v, p, s.processes[p].user, s.processes[p].place);
    if StillClaims(v, p, s.processes[p].user, s.processes[p].place) {
      FailureEnds(digest, v, p, s.processes[p].user, s.processes[p].place);
    }
  }

  // A claim that is still active is still on the same catalog.
  lemma StillThere(taken: State, v: State, p: nat, user: string, place: Place)
    requires BaseInv(taken) && SameHands(taken.claims, v.claims)
    requires p in taken.processes && Took(taken.claims, taken.processes[p], user, place)
    requires p in v.processes && Follows(taken.processes[p], v.processes[p])
    ensures var id := taken.processes[p].claimId;
            v.processes[p].UserWorker? && id in v.claims.rows && v.claims.rows[id].active ==>
              v.processes[p] == taken.processes[p] && StillClaims(v, p, user, place)
  {
  }

  // -------------------------------------------------------------------------
  // One call that nothing comes between
  // -------------------------------------------------------------------------

  ghost function Advance2(digest: Digest, s: State, p: nat): State {
    Do(digest, Do(digest, s, Advance(p)), Advance(p))
  }

  // What a claim leaves for `owner`: the catalog, and no other of its workspace unless it had it already.
  ghost predicate Moved(t: Table, u: Table, place: Place, owner: string) {
    forall at, o :: HoldsPlace(u, at, o) <==>
      if at.workspace == place.workspace && o == owner && !HoldsPlace(t, place, owner) then at == place
      else HoldsPlace(t, at, o)
  }

  lemma ClaimMoves(t: Table, place: Place, owner: string)
    requires WellFormed(t) && !HoldsPlace(t, place, owner)
    ensures var r := ClaimTransaction(t, place.workspace, place.catalog, owner);
            (r.None? <==> HasRival(t, place, owner)) && (r.Some? ==> Moved(t, r.value, place, owner))
  {
    ClaimEffect(t, place.workspace, place.catalog, owner);
    assert forall o :: HoldsPlace(t, place, o) <==> Holds(t, place.workspace, place.catalog, o);
  }

  lemma NoRivalIsFree(t: Table, place: Place, owner: string)
    requires WellFormed(t)
    ensures HoldsPlace(t, place, owner) ==> !HasRival(t, place, owner)
    ensures PlaceClaimed(t, place) <==> HoldsPlace(t, place, owner) || HasRival(t, place, owner)
  {
    ClaimedIffHeld(t, place.workspace, place.catalog);
    assert forall o :: HoldsPlace(t, place, o) <==> Holds(t, place.workspace, place.catalog, o);
  }

  // The claims and the process two statements later: refused by a rival, else holding the catalog.
  ghost predicate Claims(
    t: Table, u: Table, place: Place, owner: string, next: Process, refused: Process, held: Process)
  {
    if HasRival(t, place, owner) then next == refused && u == t
    else next == held && HoldsPlace(u, place, owner) && Moved(t, u, place, owner)
  }

  // SELECT, then the write if the SELECT saw no claim, of a connection.
  lemma ConnectionClaims(digest: Digest, s: State, p: nat)
    requires WellFormed(s.claims) && p in s.processes && s.processes[p].SelectClaim?
    ensures var pc, u := s.processes[p], Do(digest, s, Advance(p));
            var v := if u.processes[p].WriteClaim? then Do(digest, u, Advance(p)) else u;
            && v.connections == s.connections && v.processes.Keys == s.processes.Keys
            && Claims(s.claims, v.claims, pc.place, ClaimOwner(pc.id), v.processes[p], Refused(pc.id),
                      if pc.resume then Connected(pc.id, true) else InsertRow(pc.id, pc.target, pc.place))
  {
    var pc := s.processes[p];
    AdvancedIs(digest, s, p);
    NoRivalIsFree(s.claims, pc.place, ClaimOwner(pc.id));
    var u := Do(digest, s, Advance(p));
    if u.processes[p].WriteClaim? {
      AdvancedIs(digest, u, p);
      ClaimMoves(s.claims, pc.place, ClaimOwner(pc.id));
    }
  }

  // A call that has ended does not move.
  lemma AtRest(digest: Digest, s: State, p: nat)
    requires p in s.processes
    requires s.processes[p].Connected? || s.processes[p].Refused? || s.processes[p].Failed?
    ensures Do(digest, s, Advance(p)) == s
  {
    AdvancedIs(digest, s, p);
    assert s.processes[p := s.processes[p]] == s.processes;
  }

  // A call has at most four statements: look up, SELECT, write, insert.
  ghost function CallToEnd(digest: Digest, s: State, p: nat): State {
    Advance2(digest, Advance2(digest, s, p), p)
  }

  predicate Blank(t: Target) {
    Strip(t.hub) == "" || Strip(t.project) == "" || Strip(t.url) == "" || Strip(t.catalog) == ""
  }

  // What a call for `t` leaves of s, in one piece.
  ghost predicate CallResult(digest: Digest, s: State, t: Target, v: State, p: nat)
    requires p in v.processes
  {
    var id := ComputeId(digest, t);
    var known := id in s.connections;
    var place := if known then RowPlace(s.connections[id]) else PlaceOf(t.url, t.catalog);
    if Blank(t) || place.workspace == "" then
      v.processes[p] == Failed && v.claims == s.claims && v.connections == s.connections
    else
      && Claims(s.claims, v.claims, place, ClaimOwner(id), v.processes[p], Refused(id), Connected(id, known))
      && v.connections == if known || HasRival(s.claims, place, ClaimOwner(id)) then s.connections
                          else s.connections[id := Stored(t)]
  }

  lemma FirstStatement(digest: Digest, s: State, p: nat)
    requires p in s.processes && s.processes[p].LookUp?
    ensures var t, u := s.processes[p].target, Do(digest, s, Advance(p));
            var id := ComputeId(digest, t);
            var place := if id in s.connections then RowPlace(s.connections[id]) else PlaceOf(t.url, t.catalog);
            && u.claims == s.claims && u.connections == s.connections && u.processes.Keys == s.processes.Keys
            && u.processes[p] == if Blank(t) || place.workspace == "" then Failed
                                 else SelectClaim(id, t, place, id in s.connections)
  {
    AdvancedIs(digest, s, p);
  }

  lemma LastStatement(digest: Digest, s: State, p: nat)
    requires RowsNamed(digest, s.connections) && p in s.processes && s.processes[p].InsertRow?
    requires var pc := s.processes[p];
             pc.id == ComputeId(digest, pc.target) && Strip(pc.target.url) == pc.target.url && pc.id !in s.connections
    ensures var (pc, u) := (s.processes[p], Do(digest, s, Advance(p)));
            && u.claims == s.claims && u.connections == s.connections[pc.id := Stored(pc.target)]
            && u.processes == s.processes[p := Connected(pc.id, false)]
  {
    AdvancedIs(digest, s, p);
    ConflictIsOwnRow(digest, s.connections, s.processes[p].target);
  }

  ghost function Advance3(digest: Digest, s: State, p: nat): State {
    Do(digest, Advance2(digest, s, p), Advance(p))
  }

  // A call from its first claim statement to its end.
  lemma ClaimToEnd(digest: Digest, s: State, p: nat)
    requires WellFormed(s.claims) && RowsNamed(digest, s.connections) && p in s.processes && s.processes[p].SelectClaim?
    requires var pc := s.processes[p];
             pc.id == ComputeId(digest, pc.target) && Strip(pc.target.url) == pc.target.url &&
             (pc.resume <==> pc.id in s.connections)
    ensures var pc, v := s.processes[p], Advance3(digest, s, p);
            && p in v.processes
            && Claims(s.claims, v.claims, pc.place, ClaimOwner(pc.id), v.processes[p], Refused(pc.id),
                      Connected(pc.id, pc.resume))
            && v.connections == if pc.resume || HasRival(s.claims, pc.place, ClaimOwner(pc.id)) then s.connections
                                else s.connections[pc.id := Stored(pc.target)]
  {
    ConnectionClaims(digest, s, p);
    var v := Do(digest, s, Advance(p));
    var w := if v.processes[p].WriteClaim? then Do(digest, v, Advance(p)) else v;
    if w.processes[p].InsertRow? {
      LastStatement(digest, w, p);
      AtRest(digest, Do(digest, w, Advance(p)), p);
    } else {
      AtRest(digest, w, p);
    }
  }

  /** A call of create_or_resume that nothing comes between: it fails, with nothing changed, exactly for a
      blank part or a URL without a key; it is refused, with nothing changed, exactly when another owner
      holds the catalog; otherwise it ends connected, holds the catalog, has resumed exactly if there was a
      row, and has stored its target exactly if there was none. */
  lemma CallAlone(digest: Digest, s: State, p: nat)
    requires WellFormed(s.claims) && RowsNamed(digest, s.connections)
    requires p in s.processes && s.processes[p].LookUp? && Strip(s.processes[p].target.url) == s.processes[p].target.url
    ensures p in CallToEnd(digest, s, p).processes
    ensures CallResult(digest, s, s.processes[p].target, CallToEnd(digest, s, p), p)
  {
    var u := Do(digest, s, Advance(p));
    FirstStatement(digest, s, p);
    if u.processes[p].Failed? {
      AtRest(digest, u, p);
    } else {
      ClaimToEnd(digest, u, p);
      assert Advance3(digest, u, p) == CallToEnd(digest, s, p);
    }
  }

  /** A call that loses the race for its row adopts the winner's: it changes nothing, and answers that it
      has resumed it, unless the row has been deleted by then. */
  lemma LoserAdopts(digest: Digest, s: State, p: nat, between: seq<Step>)
    requires p in s.processes && s.processes[p].InsertRow?
    requires s.processes[p].id in s.connections
    ensures var u, id := Do(digest, s, Advance(p)), s.processes[p].id;
            var v := Run(digest, u, between);
            && u.claims == s.claims && u.connections == s.connections
            && p in v.processes
            && (v.processes[p] == u.processes[p] ==>
                  Do(digest, v, Advance(p)) ==
                    v.(processes := v.processes[p := if id in v.connections then Connected(id, true) else Failed]))
  {
    var u := Do(digest, s, Advance(p));
    AdvancedIs(digest, s, p);
    RunKeepsProcess(digest, u, between, p);
    AdvancedIs(digest, Run(digest, u, between), p);
  }

  lemma {:induction false} RunKeepsProcess(digest: Digest, s: State, steps: seq<Step>, p: nat)
    requires p in s.processes
    ensures p in Run(digest, s, steps).processes
    decreases |steps|
  {
    if steps != [] {
      RunKeepsProcess(digest, Do(digest, s, steps[0]), steps[1..], p);
    }
  }

  ghost predicate NamedInv(digest: Digest, s: State) {
    RowsNamed(digest, s.connections) && forall p :: p in s.processes ==> Named(digest, s.processes[p])
  }

  lemma ClaimNamed(digest: Digest, t: Table, pc: Process)
    requires Named(digest, pc)
    ensures pc.SelectClaim? ==> Named(digest, AfterSelectClaim(t, pc))
    ensures pc.WriteClaim? ==> Named(digest, AfterWriteClaim(t, pc).1)
  {
  }

  lemma InsertNamed(digest: Digest, connections: map<string, ConnectionRow>, pc: Process)
    requires RowsNamed(digest, connections) && Named(digest, pc) && pc.InsertRow?
    ensures RowsNamed(digest, AfterInsertRow(connections, pc).0) && Named(digest, AfterInsertRow(connections, pc).1)
  {
    StoredRowId(digest, pc.target);
  }

  lemma AdvanceNamed(digest: Digest, s: State, pc: Process)
    requires RowsNamed(digest, s.connections) && Named(digest, pc)
    ensures RowsNamed(digest, Advanced(digest, s.claims, s.connections, pc).connections)
    ensures Named(digest, Advanced(digest, s.claims, s.connections, pc).process)
  {
    if pc.LookUp? {
      LookUpAnchored(digest, s.connections, pc.target);
    } else if pc.InsertRow? {
      InsertNamed(digest, s.connections, pc);
    } else {
      ClaimNamed(digest, s.claims, pc);
    }
  }

  lemma MoveNamed(digest: Digest, s: State, p: nat, pc: Process)
    requires NamedInv(digest, s) && Named(digest, pc)
    ensures NamedInv(digest, s.(processes := s.processes[p := pc]))
  {
  }

  lemma AdvanceKeepsNamed(digest: Digest, s: State, p: nat)
    requires NamedInv(digest, s)
    ensures NamedInv(digest, Do(digest, s, Advance(p)))
  {
    if p in s.processes {
      AdvanceNamed(digest, s, s.processes[p]);
      AdvancedIs(digest, s, p);
    }
  }

  lemma CreateKeepsNamed(digest: Digest, s: State, step: Step)
    requires NamedInv(digest, s) && step.Create?
    ensures NamedInv(digest, Do(digest, s, step))
  {
    StripIdempotent(step.url);
    MoveNamed(digest, s, step.p, LookUp(FromPayload(step.hub, step.project, step.url, step.catalog)));
  }

  lemma DoKeepsNamed(digest: Digest, s: State, step: Step)
    requires NamedInv(digest, s)
    ensures NamedInv(digest, Do(digest, s, step))
  {
    match step
    case Create(_, _, _, _, _) => CreateKeepsNamed(digest, s, step);
    case Advance(p) => AdvanceKeepsNamed(digest, s, p);
    case Retake(_, _) =>
    case UserClaim(p, user, url, catalog) => MoveNamed(digest, s, p, UserSelect(user, PlaceOf(url, catalog)));
    case WorkerEnds(p, failed) =>
      if p in s.processes && s.processes[p].UserWorker? {
        WorkerEndsIs(digest, s, p, failed);
      }
    case Crash(p) => MoveNamed(digest, s, p, Failed);
    case _ =>
  }

  lemma {:induction false} RunKeepsNamed(digest: Digest, s: State, steps: seq<Step>)
    requires NamedInv(digest, s)
    ensures NamedInv(digest, Run(digest, s, steps))
    decreases |steps|
  {
    if steps != [] {
      DoKeepsNamed(digest, s, steps[0]);
      RunKeepsNamed(digest, Do(digest, s, steps[0]), steps[1..]);
    }
  }

  /** So it is for what a client sends, stripped, in every reachable state. */
  lemma CreateAlone(digest: Digest, steps: seq<Step>, p: nat, hub: string, project: string, url: string,
                    catalog: string)
    requires p !in Run(digest, INIT, steps).processes
    ensures var s := Run(digest, INIT, steps);
            var v := CallToEnd(digest, Do(digest, s, Create(p, hub, project, url, catalog)), p);
            p in v.processes && CallResult(digest, s, Target(hub, Strip(project), Strip(url), Strip(catalog)), v, p)
  {
    var s := Run(digest, INIT, steps);
    RunKeepsNamed(digest, INIT, steps);
    RunKeepsBase(digest, INIT, steps);
    StripIdempotent(url);
    CallAlone(digest, Do(digest, s, Create(p, hub, project, url, catalog)), p);
  }

  lemma RetakeIs(digest: Digest, s: State, p: nat, id: string)
    requires p !in s.processes && id in s.connections && RowPlace(s.connections[id]).workspace != ""
    ensures var u := Do(digest, s, Retake(p, id));
            && u.claims == s.claims && u.connections == s.connections && p in u.processes
            && u.processes[p].SelectClaim? && u.processes[p].id == id && u.processes[p].resume
            && u.processes[p].place == RowPlace(s.connections[id])
  {
  }

  /** Claiming again for a stored row is refused, with nothing changed, exactly when another owner holds its
      catalog; otherwise the row's owner holds it afterwards and no row changes. */
  lemma RetakeAlone(digest: Digest, s: State, p: nat, id: string)
    requires WellFormed(s.claims) && p !in s.processes && id in s.connections
    requires RowPlace(s.connections[id]).workspace != ""
    ensures var v := Advance2(digest, Do(digest, s, Retake(p, id)), p);
            p in v.processes && v.connections == s.connections &&
            Claims(s.claims, v.claims, RowPlace(s.connections[id]), ClaimOwner(id), v.processes[p], Refused(id),
                   Connected(id, true))
  {
    RetakeIs(digest, s, p, id);
    ResumeToEnd(digest, Do(digest, s, Retake(p, id)), p);
  }

  lemma ResumeToEnd(digest: Digest, u: State, p: nat)
    requires WellFormed(u.claims) && p in u.processes && u.processes[p].SelectClaim? && u.processes[p].resume
    ensures var pc, v := u.processes[p], Advance2(digest, u, p);
            && p in v.processes && v.connections == u.connections
            && Claims(u.claims, v.claims, pc.place, ClaimOwner(pc.id), v.processes[p], Refused(pc.id),
                      Connected(pc.id, true))
  {
    ConnectionClaims(digest, u, p);
    var v := Do(digest, u, Advance(p));
    if !v.processes[p].WriteClaim? {
      AtRest(digest, v, p);
    }
  }

  /** A bootstrap that nothing comes between is refused, with nothing changed, exactly when another owner
      holds the catalog; otherwise its worker has an active claim of its user on that catalog. If the user
      did not hold it before, it is the user's only one in the workspace; nobody else's change. */
  lemma BootstrapAlone(digest: Digest, s: State, p: nat, user: string, url: string, catalog: string)
    requires WellFormed(s.claims) && p !in s.processes
    requires WorkspaceKey(url) != "" && catalog != "" && user != ""
    ensures var v := Advance2(digest, Do(digest, s, UserClaim(p, user, url, catalog)), p);
            var place := Place(WorkspaceKey(url), catalog);
            p in v.processes && v.connections == s.connections &&
            if HasRival(s.claims, place, user) then v.processes[p] == UserDone && v.claims == s.claims
            else Took(v.claims, v.processes[p], user, place) && Moved(s.claims, v.claims, place, user)
  {
    var place := Place(WorkspaceKey(url), catalog);
    UserAlone(digest, Do(digest, s, UserClaim(p, user, url, catalog)), p, user, place);
  }

  lemma UserAlone(digest: Digest, u: State, p: nat, user: string, place: Place)
    requires WellFormed(u.claims) && p in u.processes && u.processes[p] == UserSelect(user, place)
    ensures var v := Advance2(digest, u, p);
            p in v.processes && v.connections == u.connections &&
            if HasRival(u.claims, place, user) then v.processes[p] == UserDone && v.claims == u.claims
            else Took(v.claims, v.processes[p], user, place) && Moved(u.claims, v.claims, place, user)
  {
    SelectTakes(u.claims, user, place);
    NoRivalIsFree(u.claims, place, user);
    AdvancedIs(digest, u, p);
    var v := Do(digest, u, Advance(p));
    AdvancedIs(digest, v, p);
    if v.processes[p].UserWrite? {
      WriteTakes(u.claims, user, place);
      ClaimMoves(u.claims, place, user);
    }
  }

  // -------------------------------------------------------------------------
  // The other steps
  // -------------------------------------------------------------------------

  /** What the steps that are not statements of a call do to the holders: a reset and a release take every
      catalog from their user and none from anybody else; a start-up gives a free catalog to the user of
      the first bootstrap stored for it; a snapshot pipeline id changes no holder. */
  lemma OwnerStepsEffect(digest: Digest, s: State, user: string, bootstraps: seq<Bootstrap>, at: Place, owner: string)
    requires WellFormed(s.claims)
    ensures HoldsPlace(Do(digest, s, Reset(user)).claims, at, owner) <==>
      HoldsPlace(s.claims, at, owner) && owner != user
    ensures HoldsPlace(Do(digest, s, ReleaseAll(user)).claims, at, owner) <==>
      HoldsPlace(s.claims, at, owner) && owner != user
    ensures var first := FirstOn(bootstraps, at.workspace, at.catalog);
            HoldsPlace(Do(digest, s, StartUp(bootstraps)).claims, at, owner) <==>
              HoldsPlace(s.claims, at, owner) ||
              (!PlaceClaimed(s.claims, at) && at.workspace != "" && first.Some? && first.value.user == owner)
  {
    DeleteOwnerEffect(s.claims, user);
    ReleaseEverywhereEffect(s.claims, user);
    BackfillEffect(s.claims, bootstraps, at.workspace, at.catalog, owner);
  }

  /** A call that dies between its claim and its row leaves the claim and no row, and does not lock its target:
      calling again, with nothing in between, ends connected with a new row. */
  lemma CrashThenRetry(digest: Digest, s: State, p: nat, q: nat)
    requires WellFormed(s.claims) && RowsNamed(digest, s.connections)
    requires p in s.processes && s.processes[p].InsertRow? && Named(digest, s.processes[p])
    requires q in s.processes && q != p && s.processes[q] == LookUp(s.processes[p].target)
    requires var pc := s.processes[p];
             && pc.id !in s.connections && pc.place == PlaceOf(pc.target.url, pc.target.catalog)
             && HoldsPlace(s.claims, pc.place, ClaimOwner(pc.id)) && Claimable(pc.target)
    ensures var (pc, u) := (s.processes[p], Do(digest, s, Crash(p)));
            && u == s.(processes := s.processes[p := Failed])
            && Retried(digest, s, pc, CallToEnd(digest, u, q), q)
  {
    CrashIs(digest, s, p);
    HolderCalls(digest, s.(processes := s.processes[p := Failed]), q, s.processes[p]);
  }

  lemma CrashIs(digest: Digest, s: State, p: nat)
    requires p in s.processes && !s.processes[p].Connected? && !s.processes[p].Refused?
    ensures Do(digest, s, Crash(p)) == s.(processes := s.processes[p := Failed])
  {
  }

  // A second call has connected where the first one, pc, had got to.
  ghost predicate Retried(digest: Digest, s: State, pc: Process, v: State, q: nat)
    requires pc.InsertRow?
  {
    && q in v.processes && v.processes[q] == Connected(pc.id, false)
    && v.connections == s.connections[pc.id := Stored(pc.target)]
    && HoldsPlace(v.claims, pc.place, ClaimOwner(pc.id))
  }

  lemma HolderCalls(digest: Digest, u: State, q: nat, pc: Process)
    requires WellFormed(u.claims) && RowsNamed(digest, u.connections) && pc.InsertRow? && Named(digest, pc)
    requires q in u.processes && u.processes[q] == LookUp(pc.target)
    requires pc.id !in u.connections && pc.place == PlaceOf(pc.target.url, pc.target.catalog)
    requires HoldsPlace(u.claims, pc.place, ClaimOwner(pc.id)) && Claimable(pc.target)
    ensures Retried(digest, u, pc, CallToEnd(digest, u, q), q)
  {
    NoRivalIsFree(u.claims, pc.place, ClaimOwner(pc.id));
    CallAlone(digest, u, q);
  }

  /** A worker that notes its snapshot pipeline changes no holder, and the next bootstrap of its user on
      that catalog then keeps the claim even if it fails. */
  lemma ProvisionedStays(digest: Digest, s: State, p: nat, q: nat, place: Place)
    requires BaseInv(s) && p in s.processes && s.processes[p].UserWorker?
    requires StillClaims(s, p, s.processes[p].user, place)
    requires q in s.processes && s.processes[q] == UserSelect(s.processes[p].user, place)
    ensures var u := Do(digest, s, Provision(p));
            && (forall at, o :: HoldsPlace(u.claims, at, o) <==> HoldsPlace(s.claims, at, o))
            && var v := Do(digest, u, Advance(q));
               var z := Do(digest, v, WorkerEnds(q, true));
               v.processes[q].UserWorker? && z.claims == v.claims == u.claims
  {
    var user, id := s.processes[p].user, s.processes[p].claimId;
    var u := Do(digest, s, Provision(p));
    MarkEffect(s.claims, id);
    DoKeepsBase(digest, s, Provision(p));
    assert HoldsPlace(u.claims, place, user);
    SelectTakes(u.claims, user, place);
    AdvancedIs(digest, u, q);
    var v := Do(digest, u, Advance(q));
    assert v.processes[q].claimId == id;
    WorkerEndsIs(digest, v, q, true);
  }

  /** Deleting a connection frees its row and nothing else: its catalog stays claimed by it, so every claim
      of anybody else on that catalog is refused. */
  lemma DeletedStillHolds(digest: Digest, s: State, id: string, owner: string)
    requires id in s.connections && HoldsPlace(s.claims, RowPlace(s.connections[id]), ClaimOwner(id))
    requires owner != ClaimOwner(id)
    ensures var u := Do(digest, s, DeleteRow(id));
            && id !in u.connections && u.claims == s.claims
            && (forall k :: k in s.connections && k != id ==>
                  k in u.connections && u.connections[k] == s.connections[k])
            && HasRival(u.claims, RowPlace(s.connections[id]), owner)
  {
  }
}
