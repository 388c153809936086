/** The `catalog_claims` table: one active claim per (workspace, catalog). */
module CatalogClaims {
  import opened Wrappers

  datatype Claim = Claim(workspace: string, catalog: string, owner: string, provisioned: bool, active: bool)

  // `nextId` is the AUTOINCREMENT counter: ids are never used twice, not even after a DELETE.
  datatype Table = Table(rows: map<nat, Claim>, nextId: nat)

  predicate ActiveOn(c: Claim, workspace: string, catalog: string) {
    c.active && c.workspace == workspace && c.catalog == catalog
  }

  predicate ActiveOf(c: Claim, workspace: string, owner: string) {
    c.active && c.workspace == workspace && c.owner == owner
  }

  // The same owner and catalog: what a claim keeps for good.
  predicate SameLot(a: Claim, b: Claim) {
    a.owner == b.owner && a.workspace == b.workspace && a.catalog == b.catalog
  }

  // The partial unique index, and ids below the counter.
  ghost predicate WellFormed(t: Table) {
    && (forall i :: i in t.rows ==> i < t.nextId)
    && (forall i, j |
          i in t.rows && j in t.rows && t.rows[i].active &&
          ActiveOn(t.rows[j], t.rows[i].workspace, t.rows[i].catalog)
        :: i == j)
  }

  // One active claim per owner in a workspace: what claiming maintains beyond the index.
  ghost predicate OnePerOwner(t: Table) {
    forall i, j |
      i in t.rows && j in t.rows && t.rows[i].active &&
      ActiveOf(t.rows[j], t.rows[i].workspace, t.rows[i].owner)
    :: i == j
  }

  ghost predicate Holds(t: Table, workspace: string, catalog: string, owner: string) {
    exists i :: i in t.rows && ActiveOn(t.rows[i], workspace, catalog) && t.rows[i].owner == owner
  }

  ghost predicate HeldByOther(t: Table, workspace: string, catalog: string, owner: string) {
    exists o :: o != owner && Holds(t, workspace, catalog, o)
  }

  ghost predicate Claimed(t: Table, workspace: string, catalog: string) {
    exists i :: i in t.rows && ActiveOn(t.rows[i], workspace, catalog)
  }

  // -------------------------------------------------------------------------
  // The write transactions, each atomic
  // -------------------------------------------------------------------------

  function ReleaseOwner(t: Table, workspace: string, owner: string): Table {
    t.(rows := map i | i in t.rows ::
      if ActiveOf(t.rows[i], workspace, owner) then t.rows[i].(active := false) else t.rows[i])
  }

  // An INSERT of an active claim, refused by the index.
  ghost function Insert(t: Table, workspace: string, catalog: string, owner: string, provisioned: bool): Option<Table> {
    if Claimed(t, workspace, catalog) then None
    else Some(Table(t.rows[t.nextId := Claim(workspace, catalog, owner, provisioned, true)], t.nextId + 1))
  }

  // UPDATE then INSERT. None is the integrity error, which rolls both back.
  ghost function ClaimTransaction(t: Table, workspace: string, catalog: string, owner: string): Option<Table> {
    Insert(ReleaseOwner(t, workspace, owner), workspace, catalog, owner, false)
  }

  // The table after the transaction, or after its rollback.
  ghost function AfterTransaction(t: Table, workspace: string, catalog: string, owner: string): Table {
    var r := ClaimTransaction(t, workspace, catalog, owner);
    if r.Some? then r.value else t
  }

  function Release(t: Table, id: nat): Table {
    if id in t.rows then t.(rows := t.rows[id := t.rows[id].(active := false)]) else t
  }

  function ReleaseEverywhere(t: Table, owner: string): Table {
    t.(rows := map i | i in t.rows ::
      if t.rows[i].active && t.rows[i].owner == owner then t.rows[i].(active := false) else t.rows[i])
  }

  function DeleteOwner(t: Table, owner: string): Table {
    t.(rows := map i | i in t.rows && t.rows[i].owner != owner :: t.rows[i])
  }

  function MarkProvisioned(t: Table, id: nat): Table {
    if id in t.rows then t.(rows := t.rows[id := t.rows[id].(provisioned := true)]) else t
  }

  // A stored bootstrap; `provisioned` says whether it has a snapshot pipeline id to copy.
  datatype Bootstrap = Bootstrap(workspace: string, catalog: string, user: string, provisioned: bool)

  // The backfill, at start-up and on a reset: one insert-if-unclaimed per stored bootstrap, in one transaction.
  ghost function Backfill(t: Table, rows: seq<Bootstrap>): Table
    decreases |rows|
  {
    if rows == [] then t
    else
      var b := rows[0];
      var next := if b.workspace == "" then None else Insert(t, b.workspace, b.catalog, b.user, b.provisioned);
      Backfill(if next.Some? then next.value else t, rows[1..])
  }

  // -------------------------------------------------------------------------
  // What the transactions do
  // -------------------------------------------------------------------------

  // The table as the claimants see it: who holds a catalog now.
  ghost function Holder(t: Table, workspace: string, catalog: string): Option<string> {
    if Claimed(t, workspace, catalog) then
      var i :| i in t.rows && ActiveOn(t.rows[i], workspace, catalog);
      Some(t.rows[i].owner)
    else None
  }

  lemma HolderIs(t: Table, workspace: string, catalog: string, owner: string)
    requires WellFormed(t)
    ensures Holder(t, workspace, catalog) == Some(owner) <==> Holds(t, workspace, catalog, owner)
  {
  }

  lemma ReleaseOwnerEffect(t: Table, workspace: string, owner: string)
    requires WellFormed(t)
    ensures var u := ReleaseOwner(t, workspace, owner);
            WellFormed(u) && u.nextId == t.nextId &&
            (forall i | i in u.rows :: u.rows[i].active ==> t.rows[i] == u.rows[i]) &&
            (forall w, c, o :: Holds(u, w, c, o) <==> Holds(t, w, c, o) && !(w == workspace && o == owner))
  {
    var u := ReleaseOwner(t, workspace, owner);
    forall w, c, o ensures Holds(u, w, c, o) <==> Holds(t, w, c, o) && !(w == workspace && o == owner) {
      if Holds(t, w, c, o) && !(w == workspace && o == owner) {
        var i :| i in t.rows && ActiveOn(t.rows[i], w, c) && t.rows[i].owner == o;
        assert i in u.rows && ActiveOn(u.rows[i], w, c);
      }
    }
  }

  // Of the holders exactly those other than `owner` are left.
  ghost predicate OnlyOthersHold(t: Table, u: Table, owner: string) {
    forall w, c, o :: Holds(u, w, c, o) <==> Holds(t, w, c, o) && o != owner
  }

  /** Releasing a user everywhere takes from that user every catalog, from nobody else any, and keeps
      every row as history. */
  lemma ReleaseEverywhereEffect(t: Table, owner: string)
    ensures var u := ReleaseEverywhere(t, owner);
            && OnlyOthersHold(t, u, owner) && u.rows.Keys == t.rows.Keys && u.nextId == t.nextId
            && (WellFormed(t) ==> WellFormed(u))
  {
    var u := ReleaseEverywhere(t, owner);
    OthersKeep(t, u, owner);
  }

  /** Resetting a user does too, and leaves no row of that user behind; ids are not used again. */
  lemma DeleteOwnerEffect(t: Table, owner: string)
    ensures var u := DeleteOwner(t, owner);
            && OnlyOthersHold(t, u, owner) && u.nextId == t.nextId
            && (forall i :: i in t.rows ==> if t.rows[i].owner == owner then i !in u.rows
                                            else i in u.rows && u.rows[i] == t.rows[i])
            && (WellFormed(t) ==> WellFormed(u))
  {
    var u := DeleteOwner(t, owner);
    OthersKeep(t, u, owner);
  }

  /** Releasing a claim ends that claim, and takes its catalog from nobody else. */
  lemma ReleaseEffect(t: Table, id: nat)
    requires WellFormed(t) && id in t.rows
    ensures WellFormed(Release(t, id))
    ensures forall w, c, o ::
      Holds(Release(t, id), w, c, o) <==> Holds(t, w, c, o) && !ActiveOn(t.rows[id], w, c)
  {
    var u := Release(t, id);
    forall w, c, o | Holds(t, w, c, o) && !ActiveOn(t.rows[id], w, c) ensures Holds(u, w, c, o) {
      var i :| i in t.rows && ActiveOn(t.rows[i], w, c) && t.rows[i].owner == o;
      assert i in u.rows && ActiveOn(u.rows[i], w, c);
    }
    forall w, c, o | Holds(u, w, c, o) ensures Holds(t, w, c, o) && !ActiveOn(t.rows[id], w, c) {
      var i :| i in u.rows && ActiveOn(u.rows[i], w, c) && u.rows[i].owner == o;
      assert i != id && t.rows[i] == u.rows[i];
    }
  }

  /** Noting a snapshot pipeline on a claim changes no holder. */
  lemma MarkEffect(t: Table, id: nat)
    requires id in t.rows
    ensures var u := MarkProvisioned(t, id);
            && u.rows.Keys == t.rows.Keys && u.rows[id].provisioned
            && (forall i :: i in t.rows && i != id ==> u.rows[i] == t.rows[i])
            && (forall w, c, o :: Holds(u, w, c, o) <==> Holds(t, w, c, o))
  {
    var u := MarkProvisioned(t, id);
    forall w, c, o | Holds(t, w, c, o) ensures Holds(u, w, c, o) {
      var i :| i in t.rows && ActiveOn(t.rows[i], w, c) && t.rows[i].owner == o;
      assert i in u.rows && ActiveOn(u.rows[i], w, c) && u.rows[i].owner == o;
    }
    forall w, c, o | Holds(u, w, c, o) ensures Holds(t, w, c, o) {
      var i :| i in u.rows && ActiveOn(u.rows[i], w, c) && u.rows[i].owner == o;
      assert i in t.rows && ActiveOn(t.rows[i], w, c) && t.rows[i].owner == o;
    }
  }

  // The first stored bootstrap of a catalog.
  function FirstOn(rows: seq<Bootstrap>, workspace: string, catalog: string): Option<Bootstrap> {
    if rows == [] then None
    else if rows[0].workspace == workspace && rows[0].catalog == catalog then Some(rows[0])
    else FirstOn(rows[1..], workspace, catalog)
  }

  /** The backfill leaves every holder in place and gives every free catalog to the user of the first
      bootstrap stored for it; a bootstrap without a workspace gives nothing. */
  lemma {:induction false} BackfillEffect(
    t: Table, rows: seq<Bootstrap>, workspace: string, catalog: string, owner: string)
    requires WellFormed(t)
    ensures var first := FirstOn(rows, workspace, catalog);
            Holds(Backfill(t, rows), workspace, catalog, owner) <==>
              Holds(t, workspace, catalog, owner) ||
              (!Claimed(t, workspace, catalog) && workspace != "" && first.Some? && first.value.user == owner)
    decreases |rows|
  {
    if rows != [] {
      var b := rows[0];
      var r := if b.workspace == "" then None else Insert(t, b.workspace, b.catalog, b.user, b.provisioned);
      var u := if r.Some? then r.value else t;
      InsertEffect(t, b.workspace, b.catalog, b.user, b.provisioned);
      BackfillEffect(u, rows[1..], workspace, catalog, owner);
      ClaimedIffHeld(t, workspace, catalog);
      ClaimedIffHeld(u, workspace, catalog);
    }
  }

  lemma ClaimedIffHeld(t: Table, workspace: string, catalog: string)
    ensures Claimed(t, workspace, catalog) <==> exists o :: Holds(t, workspace, catalog, o)
  {
    if Claimed(t, workspace, catalog) {
      var i :| i in t.rows && ActiveOn(t.rows[i], workspace, catalog);
      assert Holds(t, workspace, catalog, t.rows[i].owner);
    }
  }

  /** A claim the backfill makes is provisioned exactly if its bootstrap was. */
  lemma {:induction false} BackfillProvisions(t: Table, rows: seq<Bootstrap>, i: nat)
    requires WellFormed(t)
    ensures i in t.rows ==> i in Backfill(t, rows).rows && Backfill(t, rows).rows[i] == t.rows[i]
    ensures i in Backfill(t, rows).rows && i !in t.rows ==>
      var c := Backfill(t, rows).rows[i];
      c.active &&
      FirstOn(rows, c.workspace, c.catalog) == Some(Bootstrap(c.workspace, c.catalog, c.owner, c.provisioned))
    decreases |rows|
  {
    if rows != [] {
      var b := rows[0];
      var r := if b.workspace == "" then None else Insert(t, b.workspace, b.catalog, b.user, b.provisioned);
      var u := if r.Some? then r.value else t;
      InsertEffect(t, b.workspace, b.catalog, b.user, b.provisioned);
      BackfillProvisions(u, rows[1..], i);
      if i in Backfill(u, rows[1..]).rows && i !in u.rows {
        var c := Backfill(u, rows[1..]).rows[i];
        NewIsFree(u, rows[1..], i);
      }
    }
  }

  // A catalog the backfill claims was free and has a workspace.
  lemma {:induction false} NewIsFree(t: Table, rows: seq<Bootstrap>, i: nat)
    requires WellFormed(t) && i in Backfill(t, rows).rows && i !in t.rows
    ensures var c := Backfill(t, rows).rows[i]; c.workspace != "" && !Claimed(t, c.workspace, c.catalog)
    decreases |rows|
  {
    if rows != [] {
      var b := rows[0];
      var r := if b.workspace == "" then None else Insert(t, b.workspace, b.catalog, b.user, b.provisioned);
      var u := if r.Some? then r.value else t;
      InsertEffect(t, b.workspace, b.catalog, b.user, b.provisioned);
      if i in u.rows {
        BackfillKeepsRow(u, rows[1..], i);
      } else {
        NewIsFree(u, rows[1..], i);
        var c := Backfill(u, rows[1..]).rows[i];
        ClaimedIffHeld(t, c.workspace, c.catalog);
        ClaimedIffHeld(u, c.workspace, c.catalog);
      }
    }
  }

  lemma {:induction false} BackfillKeepsRow(t: Table, rows: seq<Bootstrap>, i: nat)
    requires WellFormed(t) && i in t.rows
    ensures i in Backfill(t, rows).rows && Backfill(t, rows).rows[i] == t.rows[i]
    decreases |rows|
  {
    if rows != [] {
      var b := rows[0];
      var r := if b.workspace == "" then None else Insert(t, b.workspace, b.catalog, b.user, b.provisioned);
      InsertEffect(t, b.workspace, b.catalog, b.user, b.provisioned);
      BackfillKeepsRow(if r.Some? then r.value else t, rows[1..], i);
    }
  }

  lemma OthersKeep(t: Table, u: Table, owner: string)
    requires forall i ::
      i in t.rows && t.rows[i].active && t.rows[i].owner != owner ==> i in u.rows && u.rows[i] == t.rows[i]
    requires forall i ::
      i in u.rows && u.rows[i].active ==> i in t.rows && t.rows[i] == u.rows[i] && u.rows[i].owner != owner
    ensures OnlyOthersHold(t, u, owner)
  {
    forall w, c, o | Holds(t, w, c, o) && o != owner ensures Holds(u, w, c, o) {
      var i :| i in t.rows && ActiveOn(t.rows[i], w, c) && t.rows[i].owner == o;
      assert i in u.rows && ActiveOn(u.rows[i], w, c);
    }
  }

  lemma InsertEffect(t: Table, workspace: string, catalog: string, owner: string, provisioned: bool)
    requires WellFormed(t)
    ensures var r := Insert(t, workspace, catalog, owner, provisioned);
            r.Some? ==>
              && WellFormed(r.value)
              && r.value.nextId == t.nextId + 1
              && t.nextId in r.value.rows && r.value.rows[t.nextId].owner == owner
              && forall w, c, o :: Holds(r.value, w, c, o) <==>
                   Holds(t, w, c, o) || (w == workspace && c == catalog && o == owner)
  {
    var r := Insert(t, workspace, catalog, owner, provisioned);
    if r.Some? {
      var u := r.value;
      assert u.rows[t.nextId].active;
      forall w, c, o ensures Holds(u, w, c, o) <==>
        Holds(t, w, c, o) || (w == workspace && c == catalog && o == owner)
      {
        if Holds(t, w, c, o) {
          var i :| i in t.rows && ActiveOn(t.rows[i], w, c) && t.rows[i].owner == o;
          assert i in u.rows && u.rows[i] == t.rows[i];
        }
        if w == workspace && c == catalog && o == owner {
          assert ActiveOn(u.rows[t.nextId], w, c);
        }
      }
    }
  }

  /** A claim succeeds exactly when nobody else holds the catalog. It then moves the owner's one
      claim in that workspace there and changes nobody else's. */
  lemma ClaimEffect(t: Table, workspace: string, catalog: string, owner: string)
    requires WellFormed(t)
    ensures var r := ClaimTransaction(t, workspace, catalog, owner);
            && (r.None? <==> exists o :: o != owner && Holds(t, workspace, catalog, o))
            && (r.Some? ==>
                 && WellFormed(r.value)
                 && r.value.nextId == t.nextId + 1
                 && t.nextId in r.value.rows && r.value.rows[t.nextId].owner == owner
                 && forall w, c, o :: Holds(r.value, w, c, o) <==>
                      (if w == workspace && o == owner then c == catalog else Holds(t, w, c, o)))
  {
    var u := ReleaseOwner(t, workspace, owner);
    ReleaseOwnerEffect(t, workspace, owner);
    InsertEffect(u, workspace, catalog, owner, false);
    if Claimed(u, workspace, catalog) {
      var i :| i in u.rows && ActiveOn(u.rows[i], workspace, catalog);
      assert Holds(u, workspace, catalog, u.rows[i].owner);
    }
    if o :| o != owner && Holds(t, workspace, catalog, o) {
      assert Holds(u, workspace, catalog, o);
    }
  }

  /** Claiming restores one claim per owner in the claimed workspace and never loses it elsewhere. */
  lemma ClaimOnePerOwner(t: Table, workspace: string, catalog: string, owner: string)
    requires WellFormed(t) && OnePerOwner(t)
    ensures var r := ClaimTransaction(t, workspace, catalog, owner); r.Some? ==> OnePerOwner(r.value)
  {
    var u := ReleaseOwner(t, workspace, owner);
    var r := ClaimTransaction(t, workspace, catalog, owner);
    if r.Some? {
      var v := r.value;
      assert forall i | i in u.rows :: !ActiveOf(u.rows[i], workspace, owner);
      forall i, j | i in v.rows && j in v.rows && v.rows[i].active &&
                    ActiveOf(v.rows[j], v.rows[i].workspace, v.rows[i].owner)
        ensures i == j
      {
        assert forall k | k in u.rows :: k != t.nextId && v.rows[k] == u.rows[k];
        if i != t.nextId && j != t.nextId {
          assert u.rows[i] == t.rows[i] && u.rows[j] == t.rows[j];
        }
      }
    }
  }

  // -------------------------------------------------------------------------
  // The repository
  // -------------------------------------------------------------------------

  datatype ClaimResult = Granted(claimId: nat) | Locked | Rejected

  class ClaimStore {
    var rows: map<nat, Claim>
    var nextId: nat

    ghost function Contents(): Table
      reads this
    {
      Table(rows, nextId)
    }

    constructor ()
      ensures Contents() == Table(map[], 0)
    {
      rows, nextId := map[], 0;
    }

    method GetActiveClaim(workspace: string, catalog: string) returns (found: Option<nat>)
      requires WellFormed(Contents())
      ensures found.Some? <==> workspace != "" && catalog != "" && Claimed(Contents(), workspace, catalog)
      ensures found.Some? ==> found.value in rows && ActiveOn(rows[found.value], workspace, catalog)
    {
      if workspace == "" || catalog == "" {
        return None;
      }
      if i :| i in rows && ActiveOn(rows[i], workspace, catalog) {
        found := Some(i);
      } else {
        found := None;
      }
    }

    /** Claim a catalog. `meanwhile` is the table as other writers have left it between the SELECT
        and the write transaction. A refusal leaves that table as it was, whether the SELECT sees the
        other claim or the INSERT runs into it and rolls the UPDATE back, so the caller keeps the claim
        it had; the owner asking again is given the claim it holds. */
    method ClaimCatalog(workspace: string, catalog: string, owner: string, meanwhile: Table) returns (r: ClaimResult)
      requires WellFormed(Contents()) && WellFormed(meanwhile)
      modifies this
      ensures WellFormed(Contents())
      ensures r.Rejected? <==> workspace == "" || catalog == "" || owner == ""
      ensures r.Locked? <==>
        !r.Rejected? &&
        HeldByOther(if Claimed(old(Contents()), workspace, catalog) then old(Contents()) else meanwhile,
                    workspace, catalog, owner)
      ensures r.Granted? ==>
        r.claimId in rows && ActiveOn(rows[r.claimId], workspace, catalog) && rows[r.claimId].owner == owner
      ensures Contents() ==
        if r.Rejected? || Claimed(old(Contents()), workspace, catalog) then old(Contents())
        else AfterTransaction(meanwhile, workspace, catalog, owner)
    {
      if workspace == "" || catalog == "" || owner == "" {
        return Rejected;
      }
      ghost var before := Contents();
      var existing := GetActiveClaim(workspace, catalog);
      if existing.Some? {
        assert Holds(before, workspace, catalog, rows[existing.value].owner);
        if rows[existing.value].owner != owner {
          return Locked;
        }
        return Granted(existing.value);
      }
      rows, nextId := meanwhile.rows, meanwhile.nextId;
      ClaimEffect(meanwhile, workspace, catalog, owner);
      rows := map i | i in rows ::
        if ActiveOf(rows[i], workspace, owner) then rows[i].(active := false) else rows[i];
      assert Contents() == ReleaseOwner(meanwhile, workspace, owner);
      if exists i :: i in rows && ActiveOn(rows[i], workspace, catalog) {
        rows := meanwhile.rows;
        return Locked;
      }
      var claimId := nextId;
      rows := rows[claimId := Claim(workspace, catalog, owner, false, true)];
      nextId := nextId + 1;
      r := Granted(claimId);
    }

    /** Ends one claim, taking its catalog from its owner and nobody else; says whether it was active. */
    method ReleaseClaim(claimId: nat) returns (released: bool)
      requires WellFormed(Contents())
      modifies this
      ensures WellFormed(Contents())
      ensures claimId in rows ==> !rows[claimId].active
      ensures forall w, c, o :: Holds(Contents(), w, c, o) <==>
        old(Holds(Contents(), w, c, o)) && !(claimId in old(rows) && ActiveOn(old(rows)[claimId], w, c))
      ensures Contents() == Release(old(Contents()), claimId)
      ensures released <==> claimId in old(rows) && old(rows)[claimId].active
    {
      ghost var before := Contents();
      if claimId in rows {
        ReleaseEffect(before, claimId);
      }
      released := claimId in rows && rows[claimId].active;
      if claimId in rows && rows[claimId].active {
        rows := rows[claimId := rows[claimId].(active := false)];
      } else if claimId in rows {
        assert rows[claimId := rows[claimId].(active := false)] == rows;
      }
    }

    /** Takes every catalog from one owner and none from anybody else; says how many. */
    method ReleaseUserClaims(owner: string) returns (released: nat)
      modifies this
      ensures OnlyOthersHold(old(Contents()), Contents(), owner)
      ensures released == |set i | i in old(rows) && old(rows)[i].active && old(rows)[i].owner == owner|
      ensures Contents() == ReleaseEverywhere(old(Contents()), owner)
    {
      ReleaseEverywhereEffect(Contents(), owner);
      released := |set i | i in rows && rows[i].active && rows[i].owner == owner|;
      rows := map i | i in rows ::
        if rows[i].active && rows[i].owner == owner then rows[i].(active := false) else rows[i];
    }

    /** Takes every catalog from one owner and none from anybody else, and forgets the owner. */
    method ResetUser(owner: string)
      modifies this
      ensures OnlyOthersHold(old(Contents()), Contents(), owner)
      ensures forall i :: i in rows ==> rows[i].owner != owner
      ensures Contents() == DeleteOwner(old(Contents()), owner)
    {
      DeleteOwnerEffect(Contents(), owner);
      rows := map i | i in rows && rows[i].owner != owner :: rows[i];
    }

    method BackfillCatalogClaims(bootstraps: seq<Bootstrap>)
      requires WellFormed(Contents())
      modifies this
      ensures WellFormed(Contents())
      ensures Contents() == Backfill(old(Contents()), bootstraps)
    {
      for k := 0 to |bootstraps|
        invariant WellFormed(Contents())
        invariant Backfill(Contents(), bootstraps[k..]) == Backfill(old(Contents()), bootstraps)
      {
        var b := bootstraps[k];
        assert bootstraps[k..][1..] == bootstraps[k + 1..];
        InsertEffect(Contents(), b.workspace, b.catalog, b.user, b.provisioned);
        if b.workspace != "" && !exists i :: i in rows && ActiveOn(rows[i], b.workspace, b.catalog) {
          rows := rows[nextId := Claim(b.workspace, b.catalog, b.user, b.provisioned, true)];
          nextId := nextId + 1;
        }
      }
    }

    /** Only somebody else's active claim says no: an unclaimed catalog is everybody's. */
    method OwnsCatalog(workspace: string, catalog: string, user: string) returns (owns: bool)
      requires WellFormed(Contents())
      ensures owns <==>
        workspace == "" || catalog == "" || !exists o :: o != user && Holds(Contents(), workspace, catalog, o)
    {
      var claim := GetActiveClaim(workspace, catalog);
      if claim.None? {
        return true;
      }
      assert Holds(Contents(), workspace, catalog, rows[claim.value].owner);
      return rows[claim.value].owner == user;
    }
  }
}
