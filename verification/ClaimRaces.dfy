/** What races over claims can and cannot end in. */
module ClaimRaces {
  import opened Wrappers
  import opened PyText
  import opened ConnectionIdentity
  import opened CatalogClaims
  import opened ClaimSystem

  // -------------------------------------------------------------------------
  // Concurrent create_or_resume calls
  // -------------------------------------------------------------------------

  predicate NoDeletes(steps: seq<Step>) {
    forall k :: 0 <= k < |steps| ==> !steps[k].DeleteRow?
  }

  // The id of a stored row: its URL is normalised already.
  function RowId(digest: Digest, row: ConnectionRow): string {
    "cnx_" + digest(Join(Strip(row.hub), Strip(row.project), row.url, Strip(row.catalog)))
  }

  lemma StoredRowId(digest: Digest, t: Target)
    requires Strip(t.url) == t.url
    ensures RowId(digest, Stored(t)) == ComputeId(digest, t)
  {
  }

  // A call carries the target its id was computed from.
  predicate Named(digest: Digest, pc: Process) {
    match pc
    case LookUp(t) => Strip(t.url) == t.url
    case SelectClaim(id, t, _, resume) => resume || (Strip(t.url) == t.url && ComputeId(digest, t) == id)
    case WriteClaim(id, t, _, resume) => resume || (Strip(t.url) == t.url && ComputeId(digest, t) == id)
    case InsertRow(id, t, _) => Strip(t.url) == t.url && ComputeId(digest, t) == id
    case _ => true
  }

  // Every row is stored under the id of its own quadruple.
  ghost predicate RowsNamed(digest: Digest, connections: map<string, ConnectionRow>) {
    forall id :: id in connections ==> RowId(digest, connections[id]) == id
  }

  predicate NeedsRow(pc: Process) {
    pc.Connected? || pc.AdoptRow? || ((pc.SelectClaim? || pc.WriteClaim?) && pc.resume)
  }

  ghost predicate Anchored(connections: map<string, ConnectionRow>, processes: map<nat, Process>) {
    forall p :: p in processes && NeedsRow(processes[p]) ==> processes[p].id in connections
  }

  // Call p made the row of `id`: it is the one that answers resumed=False.
  predicate Created(processes: map<nat, Process>, p: nat, id: string) {
    p in processes && processes[p] == Connected(id, false)
  }

  ghost predicate OneCreator(connections: map<string, ConnectionRow>, processes: map<nat, Process>) {
    && (forall id :: id in connections ==> exists p :: Created(processes, p, id))
    && (forall p, q, id :: Created(processes, p, id) && Created(processes, q, id) ==> p == q)
  }

  ghost predicate Race(digest: Digest, connections: map<string, ConnectionRow>, processes: map<nat, Process>) {
    && (forall p :: p in processes ==> Named(digest, processes[p]))
    && RowsNamed(digest, connections) && Anchored(connections, processes) && OneCreator(connections, processes)
  }

  ghost predicate RaceInv(digest: Digest, s: State) {
    Race(digest, s.connections, s.processes)
  }

  // The unique quadruple adds nothing to the primary key.
  lemma ConflictIsOwnRow(digest: Digest, connections: map<string, ConnectionRow>, t: Target)
    requires RowsNamed(digest, connections) && Strip(t.url) == t.url
    ensures RowConflict(connections, ComputeId(digest, t), Stored(t)) <==> ComputeId(digest, t) in connections
  {
    StoredRowId(digest, t);
  }

  lemma MoveKeepsCreator(connections: map<string, ConnectionRow>, processes: map<nat, Process>, p: nat, pc: Process)
    requires OneCreator(connections, processes)
    requires p in processes ==> !processes[p].Connected?
    requires pc.Connected? ==> pc.resumed
    ensures OneCreator(connections, processes[p := pc])
  {
    var after := processes[p := pc];
    forall id | id in connections ensures exists q :: Created(after, q, id) {
      var q :| Created(processes, q, id);
      assert Created(after, q, id);
    }
    assert forall q, id :: Created(after, q, id) ==> Created(processes, q, id);
  }

  lemma InsertKeepsCreator(
    connections: map<string, ConnectionRow>, processes: map<nat, Process>, p: nat, id: string, row: ConnectionRow)
    requires OneCreator(connections, processes) && Anchored(connections, processes)
    requires p in processes && !processes[p].Connected? && id !in connections
    ensures OneCreator(connections[id := row], processes[p := Connected(id, false)])
  {
    var after := processes[p := Connected(id, false)];
    assert Created(after, p, id);
    forall k | k in connections ensures exists q :: Created(after, q, k) {
      var q :| Created(processes, q, k);
      assert Created(after, q, k);
    }
    assert forall q, k :: Created(after, q, k) ==> (q == p && k == id) || Created(processes, q, k);
  }

  // A process that is connected because it resumed or adopted a row, or that relies on one.
  predicate Anchor(connections: map<string, ConnectionRow>, pc: Process) {
    (NeedsRow(pc) ==> pc.id in connections) && (pc.Connected? ==> pc.resumed)
  }

  lemma LookUpAnchored(digest: Digest, connections: map<string, ConnectionRow>, t: Target)
    requires Strip(t.url) == t.url
    ensures Anchor(connections, AfterLookUp(digest, connections, t))
    ensures Named(digest, AfterLookUp(digest, connections, t))
  {
  }

  // One statement other than the INSERT of a row.
  lemma OtherStatement(digest: Digest, s: State, pc: Process)
    requires !pc.InsertRow? && !pc.Connected? && Named(digest, pc)
    requires NeedsRow(pc) ==> pc.id in s.connections
    ensures var o := Advanced(digest, s.claims, s.connections, pc);
            o.connections == s.connections && Anchor(s.connections, o.process) && Named(digest, o.process)
  {
    match pc
    case LookUp(t) => LookUpAnchored(digest, s.connections, t);
    case SelectClaim(_, _, _, _) => SelectAnchored(digest, s, pc);
    case WriteClaim(_, _, _, _) => WriteAnchored(digest, s, pc);
    case _ =>
  }

  lemma SelectAnchored(digest: Digest, s: State, pc: Process)
    requires pc.SelectClaim? && Named(digest, pc) && (pc.resume ==> pc.id in s.connections)
    ensures var next := AfterSelectClaim(s.claims, pc); Anchor(s.connections, next) && Named(digest, next)
  {
  }

  lemma WriteAnchored(digest: Digest, s: State, pc: Process)
    requires pc.WriteClaim? && Named(digest, pc) && (pc.resume ==> pc.id in s.connections)
    ensures var next := AfterWriteClaim(s.claims, pc).1; Anchor(s.connections, next) && Named(digest, next)
  {
  }

  // A process moves without touching the rows.
  lemma MoveKeepsRace(digest: Digest, s: State, p: nat, pc: Process)
    requires RaceInv(digest, s) && Anchor(s.connections, pc) && Named(digest, pc)
    requires p in s.processes ==> !s.processes[p].Connected?
    ensures Race(digest, s.connections, s.processes[p := pc])
  {
    MoveKeepsCreator(s.connections, s.processes, p, pc);
    assert Anchored(s.connections, s.processes[p := pc]);
  }

  lemma InsertKeepsRace(digest: Digest, s: State, p: nat)
    requires RaceInv(digest, s) && p in s.processes && s.processes[p].InsertRow?
    ensures var (c, next) := AfterInsertRow(s.connections, s.processes[p]); Race(digest, c, s.processes[p := next])
  {
    var pc := s.processes[p];
    assert Named(digest, pc);
    ConflictIsOwnRow(digest, s.connections, pc.target);
    if pc.id in s.connections {
      MoveKeepsRace(digest, s, p, AdoptRow(pc.id, pc.target, pc.place));
    } else {
      StoredRowId(digest, pc.target);
      NewRow(digest, s, p, pc.id, Stored(pc.target));
    }
  }

  lemma NewRow(digest: Digest, s: State, p: nat, id: string, row: ConnectionRow)
    requires RaceInv(digest, s) && RowId(digest, row) == id && id !in s.connections
    requires p in s.processes && !s.processes[p].Connected?
    ensures Race(digest, s.connections[id := row], s.processes[p := Connected(id, false)])
  {
    InsertKeepsCreator(s.connections, s.processes, p, id, row);
  }

  lemma AdvanceKeepsRace(digest: Digest, s: State, p: nat)
    requires RaceInv(digest, s) && p in s.processes
    ensures var o := Advanced(digest, s.claims, s.connections, s.processes[p]);
            Race(digest, o.connections, s.processes[p := o.process])
  {
    var pc := s.processes[p];
    assert Named(digest, pc);
    if pc.InsertRow? {
      InsertKeepsRace(digest, s, p);
    } else if pc.Connected? {
      assert s.processes[p := pc] == s.processes;
    } else {
      OtherStatement(digest, s, pc);
      MoveKeepsRace(digest, s, p, Advanced(digest, s.claims, s.connections, pc).process);
    }
  }

  lemma StatementKeepsRace(digest: Digest, s: State, p: nat)
    requires RaceInv(digest, s)
    ensures RaceInv(digest, Do(digest, s, Advance(p)))
  {
    if p in s.processes {
      AdvanceKeepsRace(digest, s, p);
      AdvancedIs(digest, s, p);
    }
  }

  lemma CreateKeepsRace(digest: Digest, s: State, step: Step)
    requires RaceInv(digest, s) && step.Create?
    ensures RaceInv(digest, Do(digest, s, step))
  {
    if step.p !in s.processes {
      StripIdempotent(step.url);
      MoveKeepsRace(digest, s, step.p, LookUp(FromPayload(step.hub, step.project, step.url, step.catalog)));
    }
  }

  lemma RetakeKeepsRace(digest: Digest, s: State, p: nat, id: string)
    requires RaceInv(digest, s)
    ensures RaceInv(digest, Do(digest, s, Retake(p, id)))
  {
    if p !in s.processes && id in s.connections {
      var row := s.connections[id];
      MoveKeepsRace(digest, s, p,
        SelectClaim(id, Target(row.hub, row.project, row.url, row.catalog), RowPlace(row), true));
    }
  }

  lemma UserClaimKeepsRace(digest: Digest, s: State, step: Step)
    requires RaceInv(digest, s) && step.UserClaim?
    ensures RaceInv(digest, Do(digest, s, step))
  {
    if step.p !in s.processes {
      MoveKeepsRace(digest, s, step.p, UserSelect(step.user, PlaceOf(step.url, step.catalog)));
    }
  }

  lemma WorkerEndsKeepsRace(digest: Digest, s: State, p: nat, failed: bool)
    requires RaceInv(digest, s)
    ensures RaceInv(digest, Do(digest, s, WorkerEnds(p, failed)))
  {
    if p in s.processes && s.processes[p].UserWorker? {
      WorkerEndsIs(digest, s, p, failed);
      MoveKeepsRace(digest, s, p, UserDone);
    }
  }

  lemma CrashKeepsRace(digest: Digest, s: State, p: nat)
    requires RaceInv(digest, s)
    ensures RaceInv(digest, Do(digest, s, Crash(p)))
  {
    if p in s.processes && !s.processes[p].Connected? {
      MoveKeepsRace(digest, s, p, Failed);
    }
  }

  // Steps that change claims only.
  lemma ClaimsOnly(digest: Digest, s: State, step: Step)
    requires step.Provision? || step.Reset? || step.ReleaseAll? || step.StartUp?
    ensures Do(digest, s, step).connections == s.connections && Do(digest, s, step).processes == s.processes
  {
  }

  lemma DoKeepsRace(digest: Digest, s: State, step: Step)
    requires RaceInv(digest, s) && !step.DeleteRow?
    ensures RaceInv(digest, Do(digest, s, step))
  {
    match step
    case Create(_, _, _, _, _) => CreateKeepsRace(digest, s, step);
    case Retake(p, id) => RetakeKeepsRace(digest, s, p, id);
    case UserClaim(_, _, _, _) => UserClaimKeepsRace(digest, s, step);
    case Advance(p) => StatementKeepsRace(digest, s, p);
    case WorkerEnds(p, failed) => WorkerEndsKeepsRace(digest, s, p, failed);
    case Crash(p) => CrashKeepsRace(digest, s, p);
    case _ => ClaimsOnly(digest, s, step);
  }

  lemma {:induction false} RunKeepsRace(digest: Digest, s: State, steps: seq<Step>)
    requires RaceInv(digest, s) && NoDeletes(steps)
    ensures RaceInv(digest, Run(digest, s, steps))
    decreases |steps|
  {
    if steps != [] {
      DoKeepsRace(digest, s, steps[0]);
      RunKeepsRace(digest, Do(digest, s, steps[0]), steps[1..]);
    }
  }

  /** Without deletes, however the calls interleave: a target has a row exactly when some call
      answered for it, exactly one call answered resumed=False, and every answer names the row. */
  lemma OneWinnerPerTarget(digest: Digest, steps: seq<Step>, id: string)
    requires NoDeletes(steps)
    ensures var s := Run(digest, INIT, steps);
            && (id in s.connections <==>
                  exists p, resumed :: p in s.processes && s.processes[p] == Connected(id, resumed))
            && (id in s.connections <==> exists p :: Created(s.processes, p, id))
            && (forall p, q :: Created(s.processes, p, id) && Created(s.processes, q, id) ==> p == q)
            && (forall p :: p in s.processes && s.processes[p].AdoptRow? ==> s.processes[p].id in s.connections)
  {
    RunKeepsRace(digest, INIT, steps);
    var s := Run(digest, INIT, steps);
    if id in s.connections {
      var p :| Created(s.processes, p, id);
      assert s.processes[p] == Connected(id, false);
    }
  }

  // -------------------------------------------------------------------------
  // What every step keeps, whatever the targets
  // -------------------------------------------------------------------------

  // The worker of a bootstrap holds the id of a claim of its own user.
  predicate WorkerOk(t: Table, pc: Process) {
    pc.UserWorker? ==> pc.claimId < t.nextId && (pc.claimId in t.rows ==> t.rows[pc.claimId].owner == pc.user)
  }

  ghost predicate BaseInv(s: State) {
    WellFormed(s.claims) && forall p :: p in s.processes ==> WorkerOk(s.claims, s.processes[p])
  }

  // Ids never change hands, and a claim never moves.
  ghost predicate SameHands(t: Table, u: Table) {
    t.nextId <= u.nextId &&
    forall i :: i in u.rows && i < t.nextId ==> i in t.rows && SameLot(t.rows[i], u.rows[i])
  }

  lemma UserRowsBase(t: Table, u: Table, user: string)
    requires WellFormed(t) && UserRows(t, u, user)
    ensures WellFormed(u) && SameHands(t, u)
  {
  }

  lemma {:induction false} BackfillBase(t: Table, bootstraps: seq<Bootstrap>)
    requires WellFormed(t)
    ensures WellFormed(Backfill(t, bootstraps)) && SameHands(t, Backfill(t, bootstraps))
    decreases |bootstraps|
  {
    if bootstraps != [] {
      var b := bootstraps[0];
      var r := if b.workspace == "" then None else Insert(t, b.workspace, b.catalog, b.user, b.provisioned);
      InsertEffect(t, b.workspace, b.catalog, b.user, b.provisioned);
      BackfillBase(if r.Some? then r.value else t, bootstraps[1..]);
    }
  }

  lemma ClaimBase(t: Table, place: Place, owner: string)
    requires WellFormed(t)
    ensures var r := ClaimTransaction(t, place.workspace, place.catalog, owner);
            r.Some? ==> WellFormed(r.value) && SameHands(t, r.value)
  {
    ClaimEffect(t, place.workspace, place.catalog, owner);
    ClaimIds(t, place.workspace, place.catalog, owner);
  }

  lemma AdvanceBase(digest: Digest, s: State, p: nat)
    requires BaseInv(s) && p in s.processes
    ensures var o := Advanced(digest, s.claims, s.connections, s.processes[p]);
            WellFormed(o.claims) && SameHands(s.claims, o.claims) && WorkerOk(o.claims, o.process)
  {
    var pc := s.processes[p];
    assert WorkerOk(s.claims, pc);
    if pc.WriteClaim? {
      ClaimBase(s.claims, pc.place, ClaimOwner(pc.id));
    } else if pc.UserWrite? {
      ClaimBase(s.claims, pc.place, pc.user);
      ClaimEffect(s.claims, pc.place.workspace, pc.place.catalog, pc.user);
    }
  }

  // What a step makes of the claims, other than a statement of a process.
  lemma OtherClaims(digest: Digest, s: State, step: Step)
    requires BaseInv(s) && !step.Advance?
    ensures WellFormed(Do(digest, s, step).claims) && SameHands(s.claims, Do(digest, s, step).claims)
  {
    match step
    case Provision(p) =>
      if p in s.processes && s.processes[p].UserWorker? {
        assert WorkerOk(s.claims, s.processes[p]);
        OneRow(s.claims, s.processes[p].claimId, s.processes[p].user);
        UserRowsBase(s.claims, MarkProvisioned(s.claims, s.processes[p].claimId), s.processes[p].user);
      }
    case WorkerEnds(p, failed) =>
      if p in s.processes && s.processes[p].UserWorker? {
        assert WorkerOk(s.claims, s.processes[p]);
        OneRow(s.claims, s.processes[p].claimId, s.processes[p].user);
        UserRowsBase(s.claims, Release(s.claims, s.processes[p].claimId), s.processes[p].user);
      }
    case Reset(user) => UserRowsBase(s.claims, DeleteOwner(s.claims, user), user);
    case ReleaseAll(user) => UserRowsBase(s.claims, ReleaseEverywhere(s.claims, user), user);
    case StartUp(bootstraps) => BackfillBase(s.claims, bootstraps);
    case _ =>
  }

  // And of the processes: none becomes a worker.
  lemma OtherProcesses(digest: Digest, s: State, step: Step)
    requires !step.Advance?
    ensures var u := Do(digest, s, step);
            forall p :: p in u.processes && u.processes[p].UserWorker? ==>
              p in s.processes && u.processes[p] == s.processes[p]
  {
  }

  lemma DoKeepsBase(digest: Digest, s: State, step: Step)
    requires BaseInv(s)
    ensures BaseInv(Do(digest, s, step))
  {
    if !step.Advance? {
      OtherClaims(digest, s, step);
      OtherProcesses(digest, s, step);
      WorkersStayOk(s, Do(digest, s, step));
    } else if step.p in s.processes {
      AdvanceBase(digest, s, step.p);
      AdvancedIs(digest, s, step.p);
      WorkersStayOk(s, Do(digest, s, step).(processes := s.processes));
    }
  }

  lemma WorkersStayOk(s: State, u: State)
    requires BaseInv(s) && WellFormed(u.claims) && SameHands(s.claims, u.claims)
    requires forall p :: p in u.processes && u.processes[p].UserWorker? ==>
      p in s.processes && u.processes[p] == s.processes[p]
    ensures BaseInv(u)
  {
  }

  lemma {:induction false} RunKeepsBase(digest: Digest, s: State, steps: seq<Step>)
    requires BaseInv(s)
    ensures BaseInv(Run(digest, s, steps))
    decreases |steps|
  {
    if steps != [] {
      DoKeepsBase(digest, s, steps[0]);
      RunKeepsBase(digest, Do(digest, s, steps[0]), steps[1..]);
    }
  }

  // -------------------------------------------------------------------------
  // Refusals
  // -------------------------------------------------------------------------

  ghost predicate Rival(t: Table, pc: Process)
    requires pc.SelectClaim? || pc.WriteClaim?
  {
    exists o :: o != ClaimOwner(pc.id) && HoldsPlace(t, pc.place, o)
  }

  lemma SelectRefusal(t: Table, pc: Process)
    requires WellFormed(t) && pc.SelectClaim?
    ensures AfterSelectClaim(t, pc).Refused? <==> Rival(t, pc)
  {
    var mine := HoldsPlace(t, pc.place, ClaimOwner(pc.id));
    if !mine && PlaceClaimed(t, pc.place) {
      var i :| i in t.rows && ActiveOn(t.rows[i], pc.place.workspace, pc.place.catalog);
      assert HoldsPlace(t, pc.place, t.rows[i].owner);
    }
  }

  lemma WriteRefusal(t: Table, pc: Process)
    requires WellFormed(t) && pc.WriteClaim?
    ensures AfterWriteClaim(t, pc).1.Refused? <==> Rival(t, pc)
    ensures Rival(t, pc) ==> AfterWriteClaim(t, pc).0 == t
  {
    ClaimEffect(t, pc.place.workspace, pc.place.catalog, ClaimOwner(pc.id));
    assert forall o :: HoldsPlace(t, pc.place, o) <==> Holds(t, pc.place.workspace, pc.place.catalog, o);
  }

  predicate AtClaim(s: State, p: nat) {
    p in s.processes && (s.processes[p].SelectClaim? || s.processes[p].WriteClaim?)
  }

  lemma ClaimStatement(digest: Digest, s: State, p: nat)
    requires WellFormed(s.claims) && AtClaim(s, p)
    ensures var o := Advanced(digest, s.claims, s.connections, s.processes[p]);
            && (o.process.Refused? <==> Rival(s.claims, s.processes[p]))
            && (o.process.Refused? ==> o.claims == s.claims && o.connections == s.connections)
  {
    var pc := s.processes[p];
    if pc.SelectClaim? {
      SelectRefusal(s.claims, pc);
    } else {
      WriteRefusal(s.claims, pc);
    }
  }

  /** In every reachable state, a claim statement of a connection refuses exactly when another owner
      holds the catalog at that moment; a refusal changes no claim and no row. */
  lemma RefusedIffRival(digest: Digest, steps: seq<Step>, p: nat)
    ensures var s := Run(digest, INIT, steps);
            AtClaim(s, p) ==>
              var o := Advanced(digest, s.claims, s.connections, s.processes[p]);
              && (o.process.Refused? <==> Rival(s.claims, s.processes[p]))
              && (o.process.Refused? ==> o.claims == s.claims && o.connections == s.connections)
  {
    RunKeepsBase(digest, INIT, steps);
    if AtClaim(Run(digest, INIT, steps), p) {
      ClaimStatement(digest, Run(digest, INIT, steps), p);
    }
  }

  /** For targets that keep their key and do not clash, resuming an existing row is never refused. */
  lemma ResumeNeverRefused(digest: Digest, allowed: iset<Target>, steps: seq<Step>, p: nat)
    requires Separate(digest, allowed) && AllAdmissible(allowed, steps)
    ensures var s := Run(digest, INIT, steps);
            AtClaim(s, p) && s.processes[p].resume ==>
              Advanced(digest, s.claims, s.connections, s.processes[p]).process == Connected(s.processes[p].id, true)
  {
    RunKeepsInv(digest, allowed, INIT, steps);
    var s := Run(digest, INIT, steps);
    if AtClaim(s, p) {
      assert ProcessOk(digest, allowed, s.claims, s.processes[p]);
      if s.processes[p].SelectClaim? {
        SelectClaimOk(digest, allowed, s, s.processes[p]);
      }
    }
  }

  // -------------------------------------------------------------------------
  // Who can end a claim
  // -------------------------------------------------------------------------

  // The owner on whose behalf a step is taken, where a step ends or moves claims.
  function Actor(s: State, step: Step): Option<string> {
    match step
    case Advance(p) =>
      if p !in s.processes then None
      else if s.processes[p].WriteClaim? then Some(ClaimOwner(s.processes[p].id))
      else if s.processes[p].UserWrite? then Some(s.processes[p].user)
      else None
    case WorkerEnds(p, _) =>
      if p in s.processes && s.processes[p].UserWorker? then Some(s.processes[p].user) else None
    case Reset(user) => Some(user)
    case ReleaseAll(user) => Some(user)
    case _ => None
  }

  lemma ClaimKeepsOthers(t: Table, place: Place, actor: string, owner: string, at: Place)
    requires WellFormed(t) && HoldsPlace(t, at, owner) && owner != actor
    ensures var r := ClaimTransaction(t, place.workspace, place.catalog, actor);
            r.Some? ==> HoldsPlace(r.value, at, owner)
  {
    ClaimEffect(t, place.workspace, place.catalog, actor);
  }

  lemma UserRowsKeepOthers(t: Table, u: Table, actor: string, owner: string, at: Place)
    requires UserRows(t, u, actor) && HoldsPlace(t, at, owner) && owner != actor
    ensures HoldsPlace(u, at, owner)
  {
    var i :| i in t.rows && ActiveOn(t.rows[i], at.workspace, at.catalog) && t.rows[i].owner == owner;
    assert i in u.rows && u.rows[i] == t.rows[i];
  }

  lemma MarkKeeps(t: Table, id: nat, owner: string, at: Place)
    requires HoldsPlace(t, at, owner)
    ensures HoldsPlace(MarkProvisioned(t, id), at, owner)
  {
    var i :| i in t.rows && ActiveOn(t.rows[i], at.workspace, at.catalog) && t.rows[i].owner == owner;
    var u := MarkProvisioned(t, id);
    assert i in u.rows && ActiveOn(u.rows[i], at.workspace, at.catalog);
  }

  lemma {:induction false} BackfillKeepsAll(t: Table, bootstraps: seq<Bootstrap>, owner: string, at: Place)
    requires WellFormed(t) && HoldsPlace(t, at, owner)
    ensures HoldsPlace(Backfill(t, bootstraps), at, owner)
    decreases |bootstraps|
  {
    if bootstraps != [] {
      var b := bootstraps[0];
      var r := if b.workspace == "" then None else Insert(t, b.workspace, b.catalog, b.user, b.provisioned);
      InsertEffect(t, b.workspace, b.catalog, b.user, b.provisioned);
      BackfillKeepsAll(if r.Some? then r.value else t, bootstraps[1..], owner, at);
    }
  }

  lemma AdvanceKeepsOthers(digest: Digest, s: State, p: nat, owner: string, at: Place)
    requires WellFormed(s.claims) && HoldsPlace(s.claims, at, owner)
    requires p in s.processes && Actor(s, Advance(p)) != Some(owner)
    ensures HoldsPlace(Advanced(digest, s.claims, s.connections, s.processes[p]).claims, at, owner)
  {
    var pc := s.processes[p];
    if pc.WriteClaim? {
      ClaimKeepsOthers(s.claims, pc.place, ClaimOwner(pc.id), owner, at);
    } else if pc.UserWrite? {
      ClaimKeepsOthers(s.claims, pc.place, pc.user, owner, at);
    }
  }

  /** Nobody loses a claim to somebody else: a step that ends an owner's claim is that owner's own. */
  lemma OnlyTheOwnerEndsAClaim(digest: Digest, s: State, step: Step, owner: string, at: Place)
    requires BaseInv(s)
    requires HoldsPlace(s.claims, at, owner) && Actor(s, step) != Some(owner)
    ensures HoldsPlace(Do(digest, s, step).claims, at, owner)
  {
    match step
    case Advance(p) =>
      if p in s.processes {
        AdvanceKeepsOthers(digest, s, p, owner, at);
      }
    case Provision(p) =>
      if p in s.processes && s.processes[p].UserWorker? {
        MarkKeeps(s.claims, s.processes[p].claimId, owner, at);
      }
    case WorkerEnds(p, failed) =>
      if p in s.processes && s.processes[p].UserWorker? {
        var pc := s.processes[p];
        assert WorkerOk(s.claims, pc);
        OneRow(s.claims, pc.claimId, pc.user);
        UserRowsKeepOthers(s.claims, Release(s.claims, pc.claimId), pc.user, owner, at);
      }
    case Reset(user) => UserRowsKeepOthers(s.claims, DeleteOwner(s.claims, user), user, owner, at);
    case ReleaseAll(user) => UserRowsKeepOthers(s.claims, ReleaseEverywhere(s.claims, user), user, owner, at);
    case StartUp(bootstraps) => BackfillKeepsAll(s.claims, bootstraps, owner, at);
    case _ =>
  }

  // -------------------------------------------------------------------------
  // One claim per owner
  // -------------------------------------------------------------------------

  lemma UserRowsOnePerOwner(t: Table, u: Table, user: string)
    requires OnePerOwner(t) && UserRows(t, u, user)
    ensures OnePerOwner(u)
  {
  }

  lemma AdvanceOnePerOwner(digest: Digest, s: State, p: nat)
    requires WellFormed(s.claims) && OnePerOwner(s.claims) && p in s.processes
    ensures OnePerOwner(Advanced(digest, s.claims, s.connections, s.processes[p]).claims)
  {
    var pc := s.processes[p];
    if pc.WriteClaim? {
      ClaimOnePerOwner(s.claims, pc.place.workspace, pc.place.catalog, ClaimOwner(pc.id));
    } else if pc.UserWrite? {
      ClaimOnePerOwner(s.claims, pc.place.workspace, pc.place.catalog, pc.user);
    }
  }

  lemma DoOnePerOwner(digest: Digest, s: State, step: Step)
    requires BaseInv(s) && OnePerOwner(s.claims) && !step.StartUp?
    ensures OnePerOwner(Do(digest, s, step).claims)
  {
    match step
    case Advance(p) =>
      if p in s.processes {
        AdvanceOnePerOwner(digest, s, p);
      }
    case Provision(p) =>
      if p in s.processes && s.processes[p].UserWorker? {
        var pc := s.processes[p];
        assert WorkerOk(s.claims, pc);
        OneRow(s.claims, pc.claimId, pc.user);
        UserRowsOnePerOwner(s.claims, MarkProvisioned(s.claims, pc.claimId), pc.user);
      }
    case WorkerEnds(p, failed) =>
      if p in s.processes && s.processes[p].UserWorker? {
        var pc := s.processes[p];
        assert WorkerOk(s.claims, pc);
        OneRow(s.claims, pc.claimId, pc.user);
        UserRowsOnePerOwner(s.claims, Release(s.claims, pc.claimId), pc.user);
      }
    case Reset(user) => UserRowsOnePerOwner(s.claims, DeleteOwner(s.claims, user), user);
    case ReleaseAll(user) => UserRowsOnePerOwner(s.claims, ReleaseEverywhere(s.claims, user), user);
    case _ =>
  }

  predicate NoStartUp(steps: seq<Step>) {
    forall k :: 0 <= k < |steps| ==> !steps[k].StartUp?
  }

  /** Leaving the backfill aside, an owner never has two active claims in one workspace. */
  lemma {:induction false} OneClaimPerOwner(digest: Digest, s: State, steps: seq<Step>)
    requires BaseInv(s) && OnePerOwner(s.claims) && NoStartUp(steps)
    ensures OnePerOwner(Run(digest, s, steps).claims)
    decreases |steps|
  {
    if steps != [] {
      DoKeepsBase(digest, s, steps[0]);
      DoOnePerOwner(digest, s, steps[0]);
      OneClaimPerOwner(digest, Do(digest, s, steps[0]), steps[1..]);
    }
  }

  /** The backfill of one stored bootstrap keeps that exactly when the catalog is taken already or
      the user holds nothing in the workspace. */
  lemma BackfillOnePerOwnerIff(t: Table, b: Bootstrap)
    requires WellFormed(t) && OnePerOwner(t) && b.workspace != ""
    ensures OnePerOwner(Backfill(t, [b])) <==>
      (Claimed(t, b.workspace, b.catalog) || forall i :: i in t.rows ==> !ActiveOf(t.rows[i], b.workspace, b.user))
  {
    var r := Insert(t, b.workspace, b.catalog, b.user, b.provisioned);
    assert Backfill(t, [b]) == if r.Some? then r.value else t;
    if r.Some? {
      var u := r.value;
      assert forall i :: i in t.rows ==> u.rows[i] == t.rows[i];
      if i :| i in t.rows && ActiveOf(t.rows[i], b.workspace, b.user) {
        assert i in u.rows && t.nextId in u.rows && ActiveOf(u.rows[t.nextId], u.rows[i].workspace, u.rows[i].owner);
      }
    }
  }

  /** Passing the ownership check is momentary: on an unclaimed catalog every user passes, and
      one statement of a connection later no user does. */
  lemma OwnershipIsMomentary(t: Table, pc: Process, user: string)
    requires WellFormed(t) && UserId(user) && pc.WriteClaim?
    requires pc.place.workspace != "" && pc.place.catalog != "" && !PlaceClaimed(t, pc.place)
    ensures PassesOwnership(t, pc.place, user)
    ensures !PassesOwnership(AfterWriteClaim(t, pc).0, pc.place, user)
  {
    ClaimEffect(t, pc.place.workspace, pc.place.catalog, ClaimOwner(pc.id));
    UserOwnerDiffers(user, pc.id);
    assert HoldsPlace(AfterWriteClaim(t, pc).0, pc.place, ClaimOwner(pc.id));
  }
}
