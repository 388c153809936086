/** Every process that touches catalog claims, interleaved statement by statement on SQLite:
    a SELECT runs alone, a write transaction is one atomic step. */
module ClaimSystem {
  import opened Wrappers
  import opened PyText
  import opened ConnectionIdentity
  import opened CatalogClaims

  datatype ConnectionRow = ConnectionRow(hub: string, project: string, url: string, catalog: string)

  // The catalog a connection drives.
  datatype Place = Place(workspace: string, catalog: string)

  datatype Process =
    // create_or_resume: look the row up, SELECT the claim, write it, insert the row, adopt a winner's row
    | LookUp(target: Target)
    | SelectClaim(id: string, target: Target, place: Place, resume: bool)
    | WriteClaim(id: string, target: Target, place: Place, resume: bool)
    | InsertRow(id: string, target: Target, place: Place)
    | AdoptRow(id: string, target: Target, place: Place)
    | Connected(id: string, resumed: bool)
    | Refused(id: string)
    | Failed
    // bootstrap_start: SELECT the claim, write it, then a worker holding the claim id
    | UserSelect(user: string, place: Place)
    | UserWrite(user: string, place: Place)
    | UserWorker(user: string, claimId: nat, unprovisioned: bool)
    | UserDone

  datatype State = State(claims: Table, connections: map<string, ConnectionRow>, processes: map<nat, Process>)

  const INIT := State(Table(map[], 0), map[], map[])

  datatype Step =
    | Create(p: nat, hub: string, project: string, url: string, catalog: string)
    | Retake(p: nat, id: string)
    | UserClaim(p: nat, user: string, url: string, catalog: string)
    | Advance(p: nat)
    | Provision(p: nat)
    | WorkerEnds(p: nat, failed: bool)
    | Crash(p: nat)
    | Reset(user: string)
    | ReleaseAll(user: string)
    | StartUp(bootstraps: seq<Bootstrap>)
    | DeleteRow(id: string)

  function PlaceOf(url: string, catalog: string): Place {
    Place(WorkspaceKey(url), catalog)
  }

  function RowPlace(row: ConnectionRow): Place {
    PlaceOf(row.url, row.catalog)
  }

  // The route strips what the client sent; the hub comes from the session.
  function FromPayload(hub: string, project: string, url: string, catalog: string): Target {
    Target(hub, Strip(project), Strip(url), Strip(catalog))
  }

  function Stored(t: Target): ConnectionRow {
    ConnectionRow(t.hub, t.project, NormalizeUrl(t.url), t.catalog)
  }

  ghost predicate HoldsPlace(t: Table, place: Place, owner: string) {
    Holds(t, place.workspace, place.catalog, owner)
  }

  ghost predicate PlaceClaimed(t: Table, place: Place) {
    Claimed(t, place.workspace, place.catalog)
  }

  // INSERT INTO connections: the primary key and the unique quadruple.
  predicate RowConflict(connections: map<string, ConnectionRow>, id: string, row: ConnectionRow) {
    id in connections || exists k :: k in connections && connections[k] == row
  }

  // -------------------------------------------------------------------------
  // One statement of one process: the new database and the new process
  // -------------------------------------------------------------------------

  datatype Outcome = Outcome(claims: Table, connections: map<string, ConnectionRow>, process: Process)

  function AfterLookUp(digest: Digest, connections: map<string, ConnectionRow>, t: Target): Process {
    if !Complete(t) then Failed
    else
      var id := ComputeId(digest, t);
      var place := if id in connections then RowPlace(connections[id]) else PlaceOf(t.url, t.catalog);
      if place.workspace == "" then Failed else SelectClaim(id, t, place, id in connections)
  }

  function AfterOwnClaim(id: string, t: Target, place: Place, resume: bool): Process {
    if resume then Connected(id, true) else InsertRow(id, t, place)
  }

  ghost function AfterSelectClaim(t: Table, pc: Process): Process
    requires pc.SelectClaim?
  {
    if HoldsPlace(t, pc.place, ClaimOwner(pc.id)) then AfterOwnClaim(pc.id, pc.target, pc.place, pc.resume)
    else if PlaceClaimed(t, pc.place) then Refused(pc.id)
    else WriteClaim(pc.id, pc.target, pc.place, pc.resume)
  }

  ghost function AfterWriteClaim(t: Table, pc: Process): (Table, Process)
    requires pc.WriteClaim?
  {
    var r := ClaimTransaction(t, pc.place.workspace, pc.place.catalog, ClaimOwner(pc.id));
    if r.None? then (t, Refused(pc.id)) else (r.value, AfterOwnClaim(pc.id, pc.target, pc.place, pc.resume))
  }

  function AfterInsertRow(connections: map<string, ConnectionRow>, pc: Process): (map<string, ConnectionRow>, Process)
    requires pc.InsertRow?
  {
    if RowConflict(connections, pc.id, Stored(pc.target)) then (connections, AdoptRow(pc.id, pc.target, pc.place))
    else (connections[pc.id := Stored(pc.target)], Connected(pc.id, false))
  }

  ghost function AfterUserSelect(t: Table, user: string, place: Place): Process {
    if HoldsPlace(t, place, user) then
      var i :| i in t.rows && ActiveOn(t.rows[i], place.workspace, place.catalog) && t.rows[i].owner == user;
      UserWorker(user, i, !t.rows[i].provisioned)
    else if PlaceClaimed(t, place) then UserDone
    else UserWrite(user, place)
  }

  ghost function AfterUserWrite(t: Table, user: string, place: Place): (Table, Process) {
    var r := ClaimTransaction(t, place.workspace, place.catalog, user);
    if r.None? then (t, UserDone) else (r.value, UserWorker(user, t.nextId, true))
  }

  ghost function Advanced(digest: Digest, claims: Table, connections: map<string, ConnectionRow>, pc: Process): Outcome
  {
    match pc
    case LookUp(t) => Outcome(claims, connections, AfterLookUp(digest, connections, t))
    case SelectClaim(_, _, _, _) => Outcome(claims, connections, AfterSelectClaim(claims, pc))
    case WriteClaim(_, _, _, _) =>
      var (t, next) := AfterWriteClaim(claims, pc);
      Outcome(t, connections, next)
    case InsertRow(_, _, _) =>
      var (c, next) := AfterInsertRow(connections, pc);
      Outcome(claims, c, next)
    case AdoptRow(id, _, _) => Outcome(claims, connections, if id in connections then Connected(id, true) else Failed)
    case UserSelect(user, place) => Outcome(claims, connections, AfterUserSelect(claims, user, place))
    case UserWrite(user, place) =>
      var (t, next) := AfterUserWrite(claims, user, place);
      Outcome(t, connections, next)
    case _ => Outcome(claims, connections, pc)
  }

  // A step that cannot be taken leaves the state alone.
  ghost function Do(digest: Digest, s: State, step: Step): State {
    match step
    case Create(p, hub, project, url, catalog) =>
      if p in s.processes then s
      else s.(processes := s.processes[p := LookUp(FromPayload(hub, project, url, catalog))])
    case Retake(p, id) =>
      if p in s.processes || id !in s.connections || RowPlace(s.connections[id]).workspace == "" then s
      else
        var row := s.connections[id];
        var target := Target(row.hub, row.project, row.url, row.catalog);
        s.(processes := s.processes[p := SelectClaim(id, target, RowPlace(row), true)])
    case UserClaim(p, user, url, catalog) =>
      if p in s.processes || WorkspaceKey(url) == "" || catalog == "" || user == "" then s
      else s.(processes := s.processes[p := UserSelect(user, PlaceOf(url, catalog))])
    case Advance(p) =>
      if p !in s.processes then s
      else
        var o := Advanced(digest, s.claims, s.connections, s.processes[p]);
        State(o.claims, o.connections, s.processes[p := o.process])
    case Provision(p) =>
      if p in s.processes && s.processes[p].UserWorker?
      then s.(claims := MarkProvisioned(s.claims, s.processes[p].claimId)) else s
    case WorkerEnds(p, failed) =>
      if p in s.processes && s.processes[p].UserWorker?
      then
        var pc := s.processes[p];
        s.(claims := if failed && pc.unprovisioned then Release(s.claims, pc.claimId) else s.claims,
           processes := s.processes[p := UserDone])
      else s
    case Crash(p) =>
      if p in s.processes && !s.processes[p].Connected? && !s.processes[p].Refused?
      then s.(processes := s.processes[p := Failed]) else s
    case Reset(user) => s.(claims := DeleteOwner(s.claims, user))
    case ReleaseAll(user) => s.(claims := ReleaseEverywhere(s.claims, user))
    case StartUp(bootstraps) => s.(claims := Backfill(s.claims, bootstraps))
    case DeleteRow(id) => s.(connections := s.connections - {id})
  }

  // User ids are not connection owners.
  predicate UserId(user: string) {
    !IsConnectionOwner(user)
  }

  // Users are users, and connections are created for targets of `allowed` only.
  ghost predicate Admissible(allowed: iset<Target>, step: Step) {
    match step
    case Create(_, hub, project, url, catalog) => FromPayload(hub, project, url, catalog) in allowed
    case UserClaim(_, user, _, _) => UserId(user)
    case Reset(user) => UserId(user)
    case ReleaseAll(user) => UserId(user)
    case StartUp(bootstraps) => forall b :: b in bootstraps ==> UserId(b.user)
    case _ => true
  }

  ghost function Run(digest: Digest, s: State, steps: seq<Step>): State
    decreases |steps|
  {
    if steps == [] then s else Run(digest, Do(digest, s, steps[0]), steps[1..])
  }

  ghost predicate AllAdmissible(allowed: iset<Target>, steps: seq<Step>) {
    forall k :: 0 <= k < |steps| ==> Admissible(allowed, steps[k])
  }

  // -------------------------------------------------------------------------
  // The invariant
  // -------------------------------------------------------------------------

  // A target as the route hands it on: project, URL and catalog stripped.
  predicate Stripped(t: Target) {
    Strip(t.project) == t.project && Strip(t.url) == t.url && Strip(t.catalog) == t.catalog
  }

  // A call for this target gets as far as claiming.
  predicate Claimable(t: Target) {
    Complete(t) && WorkspaceKey(t.url) != ""
  }

  // The row is claimed under the key the call claimed.
  predicate KeyStable(t: Target) {
    WorkspaceKey(NormalizeUrl(t.url)) == WorkspaceKey(t.url)
  }

  // Two targets that share an id and a workspace but not the catalog.
  predicate Clash(digest: Digest, t: Target, u: Target) {
    && Claimable(t) && Claimable(u) && ComputeId(digest, t) == ComputeId(digest, u)
    && WorkspaceKey(t.url) == WorkspaceKey(u.url) && t.catalog != u.catalog
  }

  // Every target keeps its key when stored, and no two clash.
  ghost predicate Separate(digest: Digest, allowed: iset<Target>) {
    && (forall t {:trigger KeyStable(t)} :: t in allowed && Claimable(t) ==> KeyStable(t))
    && (forall t, u {:trigger Clash(digest, t, u)} :: t in allowed && u in allowed ==> !Clash(digest, t, u))
  }

  ghost predicate Names(digest: Digest, allowed: iset<Target>, t: Target, id: string, place: Place) {
    t in allowed && Claimable(t) && ComputeId(digest, t) == id && place == PlaceOf(t.url, t.catalog)
  }

  // `id` was computed from an allowed target at `place`.
  ghost predicate Authentic(digest: Digest, allowed: iset<Target>, id: string, place: Place) {
    exists t :: Names(digest, allowed, t, id, place)
  }

  // A claim touches one workspace only, so it is enough that an id has one catalog in each.
  lemma AuthenticFunctional(digest: Digest, allowed: iset<Target>, id: string, a: Place, b: Place)
    requires Separate(digest, allowed) && a.workspace == b.workspace
    requires Authentic(digest, allowed, id, a) && Authentic(digest, allowed, id, b)
    ensures a == b
  {
    var t :| Names(digest, allowed, t, id, a);
    var u :| Names(digest, allowed, u, id, b);
    assert !Clash(digest, t, u);
  }

  ghost predicate OwnersAuthentic(digest: Digest, allowed: iset<Target>, t: Table) {
    forall id, place :: HoldsPlace(t, place, ClaimOwner(id)) ==> Authentic(digest, allowed, id, place)
  }

  ghost predicate Secured(digest: Digest, allowed: iset<Target>, t: Table, id: string, place: Place) {
    Authentic(digest, allowed, id, place) && HoldsPlace(t, place, ClaimOwner(id))
  }

  ghost predicate ConnectionsSecured(
    digest: Digest, allowed: iset<Target>, t: Table, connections: map<string, ConnectionRow>)
  {
    forall id :: id in connections ==> RowSecured(digest, allowed, t, id, connections[id])
  }

  ghost predicate RowSecured(digest: Digest, allowed: iset<Target>, t: Table, id: string, row: ConnectionRow) {
    RowPlace(row).workspace != "" && Secured(digest, allowed, t, id, RowPlace(row))
  }

  ghost predicate ProcessOk(digest: Digest, allowed: iset<Target>, t: Table, pc: Process) {
    match pc
    case LookUp(target) => target in allowed
    case SelectClaim(id, target, place, resume) =>
      place.workspace != "" &&
      (if resume then Secured(digest, allowed, t, id, place) else Names(digest, allowed, target, id, place))
    case WriteClaim(id, target, place, resume) =>
      place.workspace != "" && !resume && Names(digest, allowed, target, id, place)
    case InsertRow(id, target, place) =>
      place.workspace != "" && Secured(digest, allowed, t, id, place) && Names(digest, allowed, target, id, place)
    case UserSelect(user, _) => UserId(user)
    case UserWrite(user, _) => UserId(user)
    case UserWorker(user, claimId, _) =>
      UserId(user) && claimId < t.nextId && (claimId in t.rows ==> t.rows[claimId].owner == user)
    case _ => true
  }

  ghost predicate Inv(digest: Digest, allowed: iset<Target>, s: State) {
    && WellFormed(s.claims)
    && OwnersAuthentic(digest, allowed, s.claims)
    && ConnectionsSecured(digest, allowed, s.claims, s.connections)
    && forall p :: p in s.processes ==> ProcessOk(digest, allowed, s.claims, s.processes[p])
  }

  // What every transaction does for everybody else: connection owners keep what they hold, and
  // claim ids never change hands.
  ghost predicate Keeps(t: Table, u: Table) {
    && t.nextId <= u.nextId
    && (forall i :: i in u.rows && i < t.nextId ==> i in t.rows && u.rows[i].owner == t.rows[i].owner)
    && (forall id, place :: HoldsPlace(t, place, ClaimOwner(id)) ==> HoldsPlace(u, place, ClaimOwner(id)))
  }

  lemma KeepsProcesses(digest: Digest, allowed: iset<Target>, t: Table, u: Table, pc: Process)
    requires Keeps(t, u) && ProcessOk(digest, allowed, t, pc)
    ensures ProcessOk(digest, allowed, u, pc)
  {
  }

  // A table change that keeps what connections hold, and adds nothing unauthentic, keeps the invariant.
  lemma KeepsInv(digest: Digest, allowed: iset<Target>, s: State, u: Table)
    requires Inv(digest, allowed, s) && WellFormed(u) && Keeps(s.claims, u) && OwnersAuthentic(digest, allowed, u)
    ensures Inv(digest, allowed, s.(claims := u))
  {
    forall p | p in s.processes ensures ProcessOk(digest, allowed, u, s.processes[p]) {
      KeepsProcesses(digest, allowed, s.claims, u, s.processes[p]);
    }
  }

  // -------------------------------------------------------------------------
  // Each transaction
  // -------------------------------------------------------------------------

  lemma UserOwnerDiffers(user: string, id: string)
    requires UserId(user)
    ensures user != ClaimOwner(id)
  {
  }

  predicate SameClaim(before: Claim, after: Claim) {
    after == before || after == before.(active := false) || after == before.(provisioned := true)
  }

  // Only rows of one user changed: deleted, released or marked provisioned.
  ghost predicate UserRows(t: Table, u: Table, user: string) {
    && u.nextId == t.nextId
    && (forall i :: i in u.rows ==> i in t.rows && SameClaim(t.rows[i], u.rows[i]))
    && (forall i :: i in t.rows && t.rows[i].owner != user ==> i in u.rows && u.rows[i] == t.rows[i])
  }

  // Changing rows of one user, by release or deletion, keeps every connection's claim.
  lemma UserRowsKeep(digest: Digest, allowed: iset<Target>, t: Table, u: Table, user: string)
    requires WellFormed(t) && OwnersAuthentic(digest, allowed, t) && UserId(user)
    requires UserRows(t, u, user)
    ensures WellFormed(u) && Keeps(t, u) && OwnersAuthentic(digest, allowed, u)
  {
    forall id, place | HoldsPlace(t, place, ClaimOwner(id)) ensures HoldsPlace(u, place, ClaimOwner(id)) {
      UserOwnerDiffers(user, id);
      var i :| i in t.rows && ActiveOn(t.rows[i], place.workspace, place.catalog) && t.rows[i].owner == ClaimOwner(id);
      assert i in u.rows && ActiveOn(u.rows[i], place.workspace, place.catalog);
    }
    forall id, place | HoldsPlace(u, place, ClaimOwner(id)) ensures Authentic(digest, allowed, id, place) {
      var i :| i in u.rows && ActiveOn(u.rows[i], place.workspace, place.catalog) && u.rows[i].owner == ClaimOwner(id);
      assert i in t.rows && ActiveOn(t.rows[i], place.workspace, place.catalog);
      assert HoldsPlace(t, place, ClaimOwner(id));
    }
  }

  lemma ClaimIds(t: Table, workspace: string, catalog: string, owner: string)
    ensures var r := ClaimTransaction(t, workspace, catalog, owner);
            r.Some? ==> forall i :: i in r.value.rows && i < t.nextId ==>
              i in t.rows && SameLot(t.rows[i], r.value.rows[i])
  {
  }

  lemma UserClaimKeeps(digest: Digest, allowed: iset<Target>, t: Table, place: Place, user: string)
    requires WellFormed(t) && OwnersAuthentic(digest, allowed, t) && UserId(user)
    ensures var r := ClaimTransaction(t, place.workspace, place.catalog, user);
            r.Some? ==> WellFormed(r.value) && Keeps(t, r.value) && OwnersAuthentic(digest, allowed, r.value)
  {
    ClaimEffect(t, place.workspace, place.catalog, user);
    ClaimIds(t, place.workspace, place.catalog, user);
    forall id ensures user != ClaimOwner(id) {
      UserOwnerDiffers(user, id);
    }
  }

  lemma ConnectionClaimKeeps(digest: Digest, allowed: iset<Target>, t: Table, id: string, place: Place)
    requires Separate(digest, allowed)
    requires WellFormed(t) && OwnersAuthentic(digest, allowed, t) && Authentic(digest, allowed, id, place)
    ensures var r := ClaimTransaction(t, place.workspace, place.catalog, ClaimOwner(id));
            r.Some? ==> WellFormed(r.value) && Keeps(t, r.value) && OwnersAuthentic(digest, allowed, r.value) &&
                        HoldsPlace(r.value, place, ClaimOwner(id))
  {
    var r := ClaimTransaction(t, place.workspace, place.catalog, ClaimOwner(id));
    ClaimEffect(t, place.workspace, place.catalog, ClaimOwner(id));
    ClaimIds(t, place.workspace, place.catalog, ClaimOwner(id));
    if r.Some? {
      forall other, at | HoldsPlace(t, at, ClaimOwner(other)) ensures HoldsPlace(r.value, at, ClaimOwner(other)) {
        if ClaimOwner(other) == ClaimOwner(id) && at.workspace == place.workspace {
          ClaimOwnerInjective(other, id);
          AuthenticFunctional(digest, allowed, id, at, place);
        }
      }
      forall other, at | HoldsPlace(r.value, at, ClaimOwner(other)) ensures Authentic(digest, allowed, other, at) {
        if ClaimOwner(other) == ClaimOwner(id) && at.workspace == place.workspace {
          ClaimOwnerInjective(other, id);
          assert at == place;
        } else {
          assert HoldsPlace(t, at, ClaimOwner(other));
        }
      }
    }
  }

  lemma InsertKeeps(digest: Digest, allowed: iset<Target>, t: Table, b: Bootstrap)
    requires WellFormed(t) && OwnersAuthentic(digest, allowed, t) && UserId(b.user)
    ensures var r := Insert(t, b.workspace, b.catalog, b.user, b.provisioned);
            r.Some? ==> WellFormed(r.value) && Keeps(t, r.value) && OwnersAuthentic(digest, allowed, r.value)
  {
    InsertEffect(t, b.workspace, b.catalog, b.user, b.provisioned);
    forall id ensures b.user != ClaimOwner(id) {
      UserOwnerDiffers(b.user, id);
    }
  }

  lemma KeepsTransitive(t: Table, u: Table, v: Table)
    requires Keeps(t, u) && Keeps(u, v)
    ensures Keeps(t, v)
  {
  }

  lemma {:induction false} BackfillKeeps(digest: Digest, allowed: iset<Target>, t: Table, bootstraps: seq<Bootstrap>)
    requires WellFormed(t) && OwnersAuthentic(digest, allowed, t)
    requires forall b :: b in bootstraps ==> UserId(b.user)
    ensures var u := Backfill(t, bootstraps); WellFormed(u) && Keeps(t, u) && OwnersAuthentic(digest, allowed, u)
    decreases |bootstraps|
  {
    if bootstraps != [] {
      var b := bootstraps[0];
      var r := if b.workspace == "" then None else Insert(t, b.workspace, b.catalog, b.user, b.provisioned);
      var u := if r.Some? then r.value else t;
      InsertKeeps(digest, allowed, t, b);
      BackfillKeeps(digest, allowed, u, bootstraps[1..]);
      KeepsTransitive(t, u, Backfill(u, bootstraps[1..]));
    }
  }

  // -------------------------------------------------------------------------
  // Every step keeps the invariant
  // -------------------------------------------------------------------------

  lemma LookUpOk(digest: Digest, allowed: iset<Target>, s: State, t: Target)
    requires Inv(digest, allowed, s) && t in allowed
    ensures ProcessOk(digest, allowed, s.claims, AfterLookUp(digest, s.connections, t))
  {
  }

  lemma SelectClaimOk(digest: Digest, allowed: iset<Target>, s: State, pc: Process)
    requires Inv(digest, allowed, s) && pc.SelectClaim? && ProcessOk(digest, allowed, s.claims, pc)
    ensures ProcessOk(digest, allowed, s.claims, AfterSelectClaim(s.claims, pc))
    ensures pc.resume ==> AfterSelectClaim(s.claims, pc) == Connected(pc.id, true)
  {
    var held := HoldsPlace(s.claims, pc.place, ClaimOwner(pc.id));
    if !pc.resume && held {
      assert Secured(digest, allowed, s.claims, pc.id, pc.place);
    }
  }

  lemma WriteClaimSound(digest: Digest, allowed: iset<Target>, t: Table, pc: Process)
    requires Separate(digest, allowed)
    requires WellFormed(t) && OwnersAuthentic(digest, allowed, t) && pc.WriteClaim? && ProcessOk(digest, allowed, t, pc)
    ensures var (u, next) := AfterWriteClaim(t, pc);
            WellFormed(u) && Keeps(t, u) && OwnersAuthentic(digest, allowed, u) && ProcessOk(digest, allowed, u, next)
  {
    assert Authentic(digest, allowed, pc.id, pc.place);
    ConnectionClaimKeeps(digest, allowed, t, pc.id, pc.place);
  }

  lemma InsertRowSound(
    digest: Digest, allowed: iset<Target>, t: Table, connections: map<string, ConnectionRow>, pc: Process)
    requires Separate(digest, allowed)
    requires ConnectionsSecured(digest, allowed, t, connections) && pc.InsertRow? && ProcessOk(digest, allowed, t, pc)
    ensures var (c, next) := AfterInsertRow(connections, pc);
            ConnectionsSecured(digest, allowed, t, c) && ProcessOk(digest, allowed, t, next)
  {
    StoredSecured(digest, allowed, t, pc);
    AddSecured(digest, allowed, t, connections, pc.id, Stored(pc.target));
  }

  lemma StoredSecured(digest: Digest, allowed: iset<Target>, t: Table, pc: Process)
    requires Separate(digest, allowed) && pc.InsertRow? && ProcessOk(digest, allowed, t, pc)
    ensures RowSecured(digest, allowed, t, pc.id, Stored(pc.target))
  {
    assert KeyStable(pc.target);
    assert RowPlace(Stored(pc.target)) == pc.place;
  }

  lemma AddSecured(
    digest: Digest, allowed: iset<Target>, t: Table, connections: map<string, ConnectionRow>, id: string,
    row: ConnectionRow)
    requires ConnectionsSecured(digest, allowed, t, connections)
    requires RowSecured(digest, allowed, t, id, row)
    ensures ConnectionsSecured(digest, allowed, t, connections[id := row])
  {
  }

  lemma UserWriteSound(digest: Digest, allowed: iset<Target>, t: Table, user: string, place: Place)
    requires WellFormed(t) && OwnersAuthentic(digest, allowed, t) && UserId(user)
    ensures var (u, next) := AfterUserWrite(t, user, place);
            WellFormed(u) && Keeps(t, u) && OwnersAuthentic(digest, allowed, u) && ProcessOk(digest, allowed, u, next)
  {
    UserClaimKeeps(digest, allowed, t, place, user);
    ClaimEffect(t, place.workspace, place.catalog, user);
  }

  lemma UserSelectOk(digest: Digest, allowed: iset<Target>, t: Table, user: string, place: Place)
    requires WellFormed(t) && UserId(user)
    ensures ProcessOk(digest, allowed, t, AfterUserSelect(t, user, place))
  {
  }

  // What one statement of one process must leave behind.
  ghost predicate Sound(digest: Digest, allowed: iset<Target>, s: State, o: Outcome) {
    && WellFormed(o.claims) && Keeps(s.claims, o.claims) && OwnersAuthentic(digest, allowed, o.claims)
    && ConnectionsSecured(digest, allowed, o.claims, o.connections)
    && ProcessOk(digest, allowed, o.claims, o.process)
  }

  lemma KeepsConnections(
    digest: Digest, allowed: iset<Target>, t: Table, u: Table, connections: map<string, ConnectionRow>)
    requires ConnectionsSecured(digest, allowed, t, connections) && Keeps(t, u)
    ensures ConnectionsSecured(digest, allowed, u, connections)
  {
  }

  lemma AdvanceSound(digest: Digest, allowed: iset<Target>, s: State, p: nat)
    requires Separate(digest, allowed) && Inv(digest, allowed, s) && p in s.processes
    ensures Sound(digest, allowed, s, Advanced(digest, s.claims, s.connections, s.processes[p]))
  {
    var pc := s.processes[p];
    assert ProcessOk(digest, allowed, s.claims, pc);
    match pc
    case LookUp(t) => LookUpOk(digest, allowed, s, t);
    case SelectClaim(_, _, _, _) => SelectClaimOk(digest, allowed, s, pc);
    case WriteClaim(_, _, _, _) =>
      WriteClaimSound(digest, allowed, s.claims, pc);
      KeepsConnections(digest, allowed, s.claims, AfterWriteClaim(s.claims, pc).0, s.connections);
    case InsertRow(_, _, _) => InsertRowSound(digest, allowed, s.claims, s.connections, pc);
    case UserSelect(user, place) => UserSelectOk(digest, allowed, s.claims, user, place);
    case UserWrite(user, place) =>
      UserWriteSound(digest, allowed, s.claims, user, place);
      KeepsConnections(digest, allowed, s.claims, AfterUserWrite(s.claims, user, place).0, s.connections);
    case _ =>
  }

  lemma AdvancedIs(digest: Digest, s: State, p: nat)
    requires p in s.processes
    ensures var o := Advanced(digest, s.claims, s.connections, s.processes[p]);
            Do(digest, s, Advance(p)) == State(o.claims, o.connections, s.processes[p := o.process])
  {
  }

  lemma AdvanceInv(digest: Digest, allowed: iset<Target>, s: State, p: nat)
    requires Separate(digest, allowed) && Inv(digest, allowed, s) && p in s.processes
    ensures Inv(digest, allowed, Do(digest, s, Advance(p)))
  {
    AdvanceSound(digest, allowed, s, p);
    var o := Advanced(digest, s.claims, s.connections, s.processes[p]);
    forall q | q in s.processes ensures ProcessOk(digest, allowed, o.claims, s.processes[q]) {
      KeepsProcesses(digest, allowed, s.claims, o.claims, s.processes[q]);
    }
  }

  lemma UserRowsInv(digest: Digest, allowed: iset<Target>, s: State, u: Table, user: string)
    requires Inv(digest, allowed, s) && UserId(user)
    requires UserRows(s.claims, u, user)
    ensures Inv(digest, allowed, s.(claims := u))
  {
    UserRowsKeep(digest, allowed, s.claims, u, user);
    KeepsInv(digest, allowed, s, u);
  }

  lemma NewProcessInv(digest: Digest, allowed: iset<Target>, s: State, p: nat, pc: Process)
    requires Inv(digest, allowed, s) && ProcessOk(digest, allowed, s.claims, pc)
    ensures Inv(digest, allowed, s.(processes := s.processes[p := pc]))
  {
  }

  lemma OneRow(t: Table, id: nat, user: string)
    requires id in t.rows ==> t.rows[id].owner == user
    ensures UserRows(t, Release(t, id), user) && UserRows(t, MarkProvisioned(t, id), user)
  {
  }

  lemma ProvisionInv(digest: Digest, allowed: iset<Target>, s: State, p: nat)
    requires Inv(digest, allowed, s) && p in s.processes && s.processes[p].UserWorker?
    ensures Inv(digest, allowed, s.(claims := MarkProvisioned(s.claims, s.processes[p].claimId)))
  {
    var pc := s.processes[p];
    assert ProcessOk(digest, allowed, s.claims, pc);
    OneRow(s.claims, pc.claimId, pc.user);
    UserRowsInv(digest, allowed, s, MarkProvisioned(s.claims, pc.claimId), pc.user);
  }

  lemma WorkerReleaseInv(digest: Digest, allowed: iset<Target>, s: State, p: nat)
    requires Inv(digest, allowed, s) && p in s.processes && s.processes[p].UserWorker?
    ensures Inv(digest, allowed, s.(claims := Release(s.claims, s.processes[p].claimId)))
  {
    var pc := s.processes[p];
    assert ProcessOk(digest, allowed, s.claims, pc);
    OneRow(s.claims, pc.claimId, pc.user);
    UserRowsInv(digest, allowed, s, Release(s.claims, pc.claimId), pc.user);
  }

  lemma WorkerEndsIs(digest: Digest, s: State, p: nat, failed: bool)
    requires p in s.processes && s.processes[p].UserWorker?
    ensures var pc := s.processes[p];
            var claims := if failed && pc.unprovisioned then Release(s.claims, pc.claimId) else s.claims;
            Do(digest, s, WorkerEnds(p, failed)) == State(claims, s.connections, s.processes[p := UserDone])
  {
  }

  lemma WorkerEndsInv(digest: Digest, allowed: iset<Target>, s: State, p: nat, failed: bool)
    requires Inv(digest, allowed, s) && p in s.processes && s.processes[p].UserWorker?
    ensures Inv(digest, allowed, Do(digest, s, WorkerEnds(p, failed)))
  {
    var pc := s.processes[p];
    WorkerEndsIs(digest, s, p, failed);
    var released := s.(claims := if failed && pc.unprovisioned then Release(s.claims, pc.claimId) else s.claims);
    WorkerReleaseInv(digest, allowed, s, p);
    NewProcessInv(digest, allowed, released, p, UserDone);
  }

  // Sign-in side effects and start-up: no process moves.
  lemma OwnerStepInv(digest: Digest, allowed: iset<Target>, s: State, step: Step)
    requires Inv(digest, allowed, s) && Admissible(allowed, step)
    requires step.Reset? || step.ReleaseAll? || step.StartUp?
    ensures Inv(digest, allowed, Do(digest, s, step))
  {
    match step
    case Reset(user) => UserRowsInv(digest, allowed, s, DeleteOwner(s.claims, user), user);
    case ReleaseAll(user) => UserRowsInv(digest, allowed, s, ReleaseEverywhere(s.claims, user), user);
    case StartUp(bootstraps) =>
      BackfillKeeps(digest, allowed, s.claims, bootstraps);
      KeepsInv(digest, allowed, s, Backfill(s.claims, bootstraps));
  }

  lemma CreateInv(digest: Digest, allowed: iset<Target>, s: State, step: Step)
    requires Inv(digest, allowed, s) && Admissible(allowed, step) && step.Create?
    ensures Inv(digest, allowed, Do(digest, s, step))
  {
    NewProcessInv(digest, allowed, s, step.p, LookUp(FromPayload(step.hub, step.project, step.url, step.catalog)));
  }

  lemma RetakeInv(digest: Digest, allowed: iset<Target>, s: State, p: nat, id: string)
    requires Inv(digest, allowed, s)
    ensures Inv(digest, allowed, Do(digest, s, Retake(p, id)))
  {
    if id in s.connections && RowPlace(s.connections[id]).workspace != "" {
      var row := s.connections[id];
      NewProcessInv(digest, allowed, s, p,
        SelectClaim(id, Target(row.hub, row.project, row.url, row.catalog), RowPlace(row), true));
    }
  }

  lemma DoKeepsInv(digest: Digest, allowed: iset<Target>, s: State, step: Step)
    requires Separate(digest, allowed) && Inv(digest, allowed, s) && Admissible(allowed, step)
    ensures Inv(digest, allowed, Do(digest, s, step))
  {
    match step
    case Advance(p) =>
      if p in s.processes {
        AdvanceInv(digest, allowed, s, p);
      }
    case Provision(p) =>
      if p in s.processes && s.processes[p].UserWorker? {
        ProvisionInv(digest, allowed, s, p);
      }
    case WorkerEnds(p, failed) =>
      if p in s.processes && s.processes[p].UserWorker? {
        WorkerEndsInv(digest, allowed, s, p, failed);
      }
    case Reset(_) => OwnerStepInv(digest, allowed, s, step);
    case ReleaseAll(_) => OwnerStepInv(digest, allowed, s, step);
    case StartUp(_) => OwnerStepInv(digest, allowed, s, step);
    case Create(_, _, _, _, _) => CreateInv(digest, allowed, s, step);
    case Retake(p, id) => RetakeInv(digest, allowed, s, p, id);
    case UserClaim(p, user, url, catalog) =>
      NewProcessInv(digest, allowed, s, p, UserSelect(user, PlaceOf(url, catalog)));
    case Crash(p) => NewProcessInv(digest, allowed, s, p, Failed);
    case DeleteRow(_) =>
  }

  lemma {:induction false} RunKeepsInv(digest: Digest, allowed: iset<Target>, s: State, steps: seq<Step>)
    requires Separate(digest, allowed) && Inv(digest, allowed, s) && AllAdmissible(allowed, steps)
    ensures Inv(digest, allowed, Run(digest, s, steps))
    decreases |steps|
  {
    if steps != [] {
      DoKeepsInv(digest, allowed, s, steps[0]);
      RunKeepsInv(digest, allowed, Do(digest, s, steps[0]), steps[1..]);
    }
  }

  // -------------------------------------------------------------------------
  // Main results
  // -------------------------------------------------------------------------

  // Each connection's own owner holds its catalog, so no two connections share one, no user holds it,
  // and a user whose ownership check passes is not aiming at it.
  ghost predicate Exclusive(s: State) {
    && WellFormed(s.claims)
    && (forall id :: id in s.connections ==> HoldsPlace(s.claims, RowPlace(s.connections[id]), ClaimOwner(id)))
    && (forall a, b | a in s.connections && b in s.connections ::
          RowPlace(s.connections[a]) == RowPlace(s.connections[b]) ==> a == b)
    && (forall id, user :: id in s.connections && UserId(user) ==>
          !HoldsPlace(s.claims, RowPlace(s.connections[id]), user))
    && (forall place, user :: UserId(user) && PassesOwnership(s.claims, place, user) ==>
          forall id :: id in s.connections ==> RowPlace(s.connections[id]) != place)
  }

  lemma InvExclusive(digest: Digest, allowed: iset<Target>, s: State)
    requires Inv(digest, allowed, s)
    ensures Exclusive(s)
  {
    forall a, b | a in s.connections && b in s.connections && RowPlace(s.connections[a]) == RowPlace(s.connections[b])
      ensures a == b
    {
      SameHolder(s.claims, RowPlace(s.connections[a]), ClaimOwner(a), ClaimOwner(b));
      ClaimOwnerInjective(a, b);
    }
    forall id, user | id in s.connections && UserId(user)
      ensures !HoldsPlace(s.claims, RowPlace(s.connections[id]), user)
    {
      UserOwnerDiffers(user, id);
      if HoldsPlace(s.claims, RowPlace(s.connections[id]), user) {
        SameHolder(s.claims, RowPlace(s.connections[id]), user, ClaimOwner(id));
      }
    }
    forall place, user, id | UserId(user) && PassesOwnership(s.claims, place, user) && id in s.connections
      ensures RowPlace(s.connections[id]) != place
    {
      UserOwnerDiffers(user, id);
      assert HoldsPlace(s.claims, RowPlace(s.connections[id]), ClaimOwner(id));
    }
  }

  /** Exclusivity holds in every reachable state of every run that creates connections only for
      targets that keep their key and do not clash. `ExclusivityIff` shows that this is exact. */
  lemma SeparateIsExclusive(digest: Digest, allowed: iset<Target>, steps: seq<Step>)
    requires Separate(digest, allowed) && AllAdmissible(allowed, steps)
    ensures Exclusive(Run(digest, INIT, steps))
  {
    RunKeepsInv(digest, allowed, INIT, steps);
    InvExclusive(digest, allowed, Run(digest, INIT, steps));
  }

  // Stripped targets without bars, except in the catalog, whose normalised URL does not end in a space.
  ghost function BarFreeTargets(): iset<Target> {
    iset t | BarFree(t) && Stripped(t) && !EndsInSpace(NormalizeUrl(t.url))
  }

  lemma BarFreeSeparate(digest: Digest)
    ensures Separate(digest, BarFreeTargets())
  {
    forall t | t in BarFreeTargets() ensures KeyStable(t) {
      NormalizeKeepsKey(t.url);
    }
    forall t, u | t in BarFreeTargets() && u in BarFreeTargets() ensures !Clash(digest, t, u) {
      IdDeterminesTarget(digest, t, u);
    }
  }

  /** In particular for all targets whose hub, project and URL contain no bar and whose URL has no
      space before its last slashes. */
  lemma CatalogExclusivity(digest: Digest, steps: seq<Step>)
    requires AllAdmissible(BarFreeTargets(), steps)
    ensures Exclusive(Run(digest, INIT, steps))
  {
    BarFreeSeparate(digest);
    SeparateIsExclusive(digest, BarFreeTargets(), steps);
  }

  // owns_catalog on a stored bootstrap that has a catalog and a workspace.
  ghost predicate PassesOwnership(t: Table, place: Place, user: string) {
    place.workspace != "" && place.catalog != "" && !exists o :: o != user && HoldsPlace(t, place, o)
  }

  lemma SameHolder(t: Table, place: Place, a: string, b: string)
    requires WellFormed(t) && HoldsPlace(t, place, a) && HoldsPlace(t, place, b)
    ensures a == b
  {
  }
}
