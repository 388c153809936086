/** How long a passing ownership check is worth something. */
module OwnershipCheck {
  import opened Wrappers
  import opened ConnectionIdentity
  import opened CatalogClaims
  import opened ClaimSystem
  import opened ClaimRaces

  // No step of the run is taken on behalf of `user`.
  ghost predicate NotBy(digest: Digest, s: State, steps: seq<Step>, user: string)
    decreases |steps|
  {
    steps == [] ||
    (Actor(s, steps[0]) != Some(user) && NotBy(digest, Do(digest, s, steps[0]), steps[1..], user))
  }

  lemma {:induction false} HolderKeepsHolding(digest: Digest, s: State, steps: seq<Step>, place: Place, user: string)
    requires BaseInv(s) && HoldsPlace(s.claims, place, user) && NotBy(digest, s, steps, user)
    ensures BaseInv(Run(digest, s, steps)) && HoldsPlace(Run(digest, s, steps).claims, place, user)
    decreases |steps|
  {
    if steps != [] {
      OnlyTheOwnerEndsAClaim(digest, s, steps[0], user, place);
      DoKeepsBase(digest, s, steps[0]);
      HolderKeepsHolding(digest, Do(digest, s, steps[0]), steps[1..], place, user);
    }
  }

  lemma Above(s: set<nat>) returns (p: nat)
    ensures forall x :: x in s ==> x < p
    decreases |s|
  {
    if s == {} {
      p := 0;
    } else {
      var x :| x in s;
      var q := Above(s - {x});
      p := if x < q then q else x + 1;
      assert forall y :: y in s ==> y == x || y in s - {x};
    }
  }

  // A free catalog, as another user finds it and claims it.
  lemma OtherSelects(t: Table, place: Place, other: string)
    requires !PlaceClaimed(t, place)
    ensures AfterUserSelect(t, other, place) == UserWrite(other, place)
  {
    assert !HoldsPlace(t, place, other);
  }

  lemma OtherWrites(t: Table, place: Place, other: string)
    requires WellFormed(t) && !PlaceClaimed(t, place)
    ensures HoldsPlace(AfterUserWrite(t, other, place).0, place, other)
  {
    ClaimEffect(t, place.workspace, place.catalog, other);
    assert forall o :: !HoldsPlace(t, place, o);
  }

  lemma Unroll3(digest: Digest, s: State, a: Step, b: Step, c: Step, user: string)
    requires var s1 := Do(digest, s, a);
             Actor(s, a) != Some(user) && Actor(s1, b) != Some(user) && Actor(Do(digest, s1, b), c) != Some(user)
    ensures Run(digest, s, [a, b, c]) == Do(digest, Do(digest, Do(digest, s, a), b), c)
    ensures NotBy(digest, s, [a, b, c], user)
  {
    var s1 := Do(digest, s, a);
    var s2 := Do(digest, s1, b);
    var s3 := Do(digest, s2, c);
    assert [a, b, c][1..] == [b, c] && [b, c][1..] == [c] && [c][1..] == [];
    assert Run(digest, s3, []) == s3 && NotBy(digest, s3, [], user);
    assert Run(digest, s2, [c]) == s3 && NotBy(digest, s2, [c], user);
    assert Run(digest, s1, [b, c]) == s3 && NotBy(digest, s1, [b, c], user);
  }

  function Begins(s: State, p: nat, user: string, place: Place): State {
    s.(processes := s.processes[p := UserSelect(user, place)])
  }

  lemma BeginsIs(digest: Digest, s: State, p: nat, user: string, url: string, catalog: string)
    requires p !in s.processes && WorkspaceKey(url) != "" && catalog != "" && user != ""
    ensures Do(digest, s, UserClaim(p, user, url, catalog)) == Begins(s, p, user, PlaceOf(url, catalog))
  {
  }

  function Selected(s: State, p: nat, user: string, place: Place): State {
    s.(processes := s.processes[p := UserWrite(user, place)])
  }

  lemma SelectedIs(digest: Digest, s: State, p: nat, user: string, place: Place)
    requires !PlaceClaimed(s.claims, place)
    ensures Do(digest, Begins(s, p, user, place), Advance(p)) == Selected(s, p, user, place)
  {
    var s1 := Begins(s, p, user, place);
    AdvancedIs(digest, s1, p);
    OtherSelects(s.claims, place, user);
    assert s1.processes[p := UserWrite(user, place)] == Selected(s, p, user, place).processes;
  }

  lemma WrittenHolds(digest: Digest, s: State, p: nat, user: string, place: Place)
    requires WellFormed(s.claims) && !PlaceClaimed(s.claims, place)
    ensures HoldsPlace(Do(digest, Selected(s, p, user, place), Advance(p)).claims, place, user)
  {
    AdvancedIs(digest, Selected(s, p, user, place), p);
    OtherWrites(s.claims, place, user);
  }

  // The three steps in which another user takes a free catalog.
  lemma OtherTakes(digest: Digest, s: State, url: string, catalog: string, user: string, other: string)
    returns (steps: seq<Step>)
    requires BaseInv(s) && WorkspaceKey(url) != "" && catalog != "" && other != "" && other != user
    requires !PlaceClaimed(s.claims, PlaceOf(url, catalog))
    ensures NotBy(digest, s, steps, user)
    ensures HoldsPlace(Run(digest, s, steps).claims, PlaceOf(url, catalog), other)
  {
    var p := Above(s.processes.Keys);
    BeginsIs(digest, s, p, other, url, catalog);
    SelectedIs(digest, s, p, other, PlaceOf(url, catalog));
    WrittenHolds(digest, s, p, other, PlaceOf(url, catalog));
    Unroll3(digest, s, UserClaim(p, other, url, catalog), Advance(p), Advance(p), user);
    steps := [UserClaim(p, other, url, catalog), Advance(p), Advance(p)];
  }

  // However the others go on, the check of `user` goes on passing.
  ghost predicate KeepsPassing(digest: Digest, s: State, place: Place, user: string) {
    forall steps :: NotBy(digest, s, steps, user) ==> PassesOwnership(Run(digest, s, steps).claims, place, user)
  }

  /** A check that passes goes on passing in every run without a step of that user if and only if the
      user holds the catalog: on a free one it is worth nothing. */
  lemma OwnershipLastsIff(digest: Digest, s: State, url: string, catalog: string, user: string)
    requires BaseInv(s) && PassesOwnership(s.claims, PlaceOf(url, catalog), user)
    ensures KeepsPassing(digest, s, PlaceOf(url, catalog), user) <==>
            HoldsPlace(s.claims, PlaceOf(url, catalog), user)
  {
    var place := PlaceOf(url, catalog);
    if HoldsPlace(s.claims, place, user) {
      forall steps | NotBy(digest, s, steps, user)
        ensures PassesOwnership(Run(digest, s, steps).claims, place, user)
      {
        HolderKeepsHolding(digest, s, steps, place, user);
        OnlyHolder(Run(digest, s, steps).claims, place, user);
      }
    } else {
      NobodyElse(s.claims, place, user);
      var other := if user == "a" then "b" else "a";
      var steps := OtherTakes(digest, s, url, catalog, user, other);
    }
  }

  lemma OnlyHolder(t: Table, place: Place, user: string)
    requires WellFormed(t) && HoldsPlace(t, place, user)
    ensures forall o :: HoldsPlace(t, place, o) ==> o == user
  {
    forall o | HoldsPlace(t, place, o) ensures o == user {
      SameHolder(t, place, o, user);
    }
  }

  lemma NobodyElse(t: Table, place: Place, user: string)
    requires PassesOwnership(t, place, user) && !HoldsPlace(t, place, user)
    ensures !PlaceClaimed(t, place)
  {
    if PlaceClaimed(t, place) {
      var i :| i in t.rows && ActiveOn(t.rows[i], place.workspace, place.catalog);
      assert HoldsPlace(t, place, t.rows[i].owner);
    }
  }
}
