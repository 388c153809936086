/** Exclusivity is exact: it holds in every run that creates connections for a set of targets if and
    only if those targets keep their workspace key when stored and no two of them clash. */
module ExclusivityIff {
  import opened Wrappers
  import opened PyText
  import opened ConnectionIdentity
  import opened CatalogClaims
  import opened ClaimSystem

  const NO_CLAIMS := Table(map[], 0)

  function Two(a: Process, b: Process): map<nat, Process> {
    map[0 := a, 1 := b]
  }

  lemma {:induction false} RunSnoc(digest: Digest, s: State, steps: seq<Step>, step: Step)
    ensures Run(digest, s, steps + [step]) == Do(digest, Run(digest, s, steps), step)
    decreases |steps|
  {
    if steps == [] {
      assert ([] + [step])[1..] == [];
      assert Run(digest, s, [] + [step]) == Run(digest, Do(digest, s, step), []);
    } else {
      assert (steps + [step])[0] == steps[0] && (steps + [step])[1..] == steps[1..] + [step];
      RunSnoc(digest, Do(digest, s, steps[0]), steps[1..], step);
    }
  }

  ghost predicate Reachable(digest: Digest, allowed: iset<Target>, s: State) {
    exists steps :: AllAdmissible(allowed, steps) && Run(digest, INIT, steps) == s
  }

  lemma StepReaches(digest: Digest, allowed: iset<Target>, s: State, step: Step)
    requires Reachable(digest, allowed, s) && Admissible(allowed, step)
    ensures Reachable(digest, allowed, Do(digest, s, step))
  {
    var steps :| AllAdmissible(allowed, steps) && Run(digest, INIT, steps) == s;
    RunSnoc(digest, INIT, steps, step);
    assert AllAdmissible(allowed, steps + [step]);
  }

  // Two calls, `a` and `b`, over the same tables.
  ghost predicate Reached(
    digest: Digest, allowed: iset<Target>, claims: Table, rows: map<string, ConnectionRow>, a: Process, b: Process)
  {
    Reachable(digest, allowed, State(claims, rows, Two(a, b)))
  }

  lemma TwoUpdated(a: Process, b: Process, c: Process)
    ensures Two(a, b)[0 := c] == Two(c, b) && Two(a, b)[1 := c] == Two(a, c)
    ensures Two(a, b)[0] == a && Two(a, b)[1] == b
  {
  }

  lemma StatementReaches(digest: Digest, allowed: iset<Target>, s: State, p: nat, o: Outcome)
    requires Reachable(digest, allowed, s) && p in s.processes
    requires Advanced(digest, s.claims, s.connections, s.processes[p]) == o
    ensures Reachable(digest, allowed, State(o.claims, o.connections, s.processes[p := o.process]))
  {
    AdvancedIs(digest, s, p);
    StepReaches(digest, allowed, s, Advance(p));
  }

  // One more statement of either call.
  lemma First(
    digest: Digest, allowed: iset<Target>, claims: Table, rows: map<string, ConnectionRow>, a: Process, b: Process,
    o: Outcome)
    requires Reached(digest, allowed, claims, rows, a, b) && Advanced(digest, claims, rows, a) == o
    ensures Reached(digest, allowed, o.claims, o.connections, o.process, b)
  {
    TwoUpdated(a, b, o.process);
    StatementReaches(digest, allowed, State(claims, rows, Two(a, b)), 0, o);
  }

  lemma Second(
    digest: Digest, allowed: iset<Target>, claims: Table, rows: map<string, ConnectionRow>, a: Process, b: Process,
    o: Outcome)
    requires Reached(digest, allowed, claims, rows, a, b) && Advanced(digest, claims, rows, b) == o
    ensures Reached(digest, allowed, o.claims, o.connections, a, o.process)
  {
    TwoUpdated(a, b, o.process);
    StatementReaches(digest, allowed, State(claims, rows, Two(a, b)), 1, o);
  }

  lemma NoneHolds(place: Place)
    ensures !PlaceClaimed(NO_CLAIMS, place)
    ensures forall o :: !HoldsPlace(NO_CLAIMS, place, o)
  {
  }

  // The claims after the first call's transaction.
  ghost function Claimed1(w: string, catalog: string, id: string): Table {
    var r := ClaimTransaction(NO_CLAIMS, w, catalog, ClaimOwner(id));
    if r.Some? then r.value else NO_CLAIMS
  }

  lemma Claimed1Is(w: string, catalog: string, id: string)
    ensures ClaimTransaction(NO_CLAIMS, w, catalog, ClaimOwner(id)) == Some(Claimed1(w, catalog, id))
    ensures WellFormed(Claimed1(w, catalog, id))
    ensures forall at, o ::
      HoldsPlace(Claimed1(w, catalog, id), at, o) <==> o == ClaimOwner(id) && at == Place(w, catalog)
  {
    NoneHolds(Place(w, catalog));
    ClaimEffect(NO_CLAIMS, w, catalog, ClaimOwner(id));
    assert forall at, o :: !HoldsPlace(NO_CLAIMS, at, o);
  }

  lemma LooksUp(digest: Digest, t: Target, id: string, w: string)
    requires Complete(t) && ComputeId(digest, t) == id && WorkspaceKey(t.url) == w && w != ""
    ensures Advanced(digest, NO_CLAIMS, map[], LookUp(t)) ==
            Outcome(NO_CLAIMS, map[], SelectClaim(id, t, Place(w, t.catalog), false))
  {
  }

  lemma Selects(digest: Digest, claims: Table, rows: map<string, ConnectionRow>, t: Target, id: string, place: Place)
    requires !PlaceClaimed(claims, place)
    ensures Advanced(digest, claims, rows, SelectClaim(id, t, place, false)) ==
            Outcome(claims, rows, WriteClaim(id, t, place, false))
  {
    assert !HoldsPlace(claims, place, ClaimOwner(id));
  }

  lemma Writes(
    digest: Digest, claims: Table, rows: map<string, ConnectionRow>, t: Target, id: string, place: Place, after: Table)
    requires ClaimTransaction(claims, place.workspace, place.catalog, ClaimOwner(id)) == Some(after)
    ensures Advanced(digest, claims, rows, WriteClaim(id, t, place, false)) ==
            Outcome(after, rows, InsertRow(id, t, place))
  {
  }

  lemma Inserts(digest: Digest, claims: Table, t: Target, id: string, place: Place)
    ensures Advanced(digest, claims, map[], InsertRow(id, t, place)) ==
            Outcome(claims, map[id := Stored(t)], Connected(id, false))
  {
  }

  // Two calls for claimable targets with the same id and workspace.
  predicate Racing(digest: Digest, t: Target, u: Target, id: string, w: string) {
    && Complete(t) && ComputeId(digest, t) == id && WorkspaceKey(t.url) == w
    && Complete(u) && ComputeId(digest, u) == id && WorkspaceKey(u.url) == w && w != ""
  }

  // Both calls look up in vain, then the first claims and inserts its row.
  lemma FirstCall(digest: Digest, allowed: iset<Target>, t: Target, u: Target, id: string, w: string)
    requires Racing(digest, t, u, id, w) && Reached(digest, allowed, NO_CLAIMS, map[], LookUp(t), LookUp(u))
    ensures Reached(digest, allowed, Claimed1(w, t.catalog, id), map[id := Stored(t)],
                    Connected(id, false), SelectClaim(id, u, Place(w, u.catalog), false))
  {
    var place, claims := Place(w, t.catalog), Claimed1(w, t.catalog, id);
    var waiting := SelectClaim(id, u, Place(w, u.catalog), false);
    LooksUp(digest, t, id, w);
    First(digest, allowed, NO_CLAIMS, map[], LookUp(t), LookUp(u),
          Outcome(NO_CLAIMS, map[], SelectClaim(id, t, place, false)));
    LooksUp(digest, u, id, w);
    Second(digest, allowed, NO_CLAIMS, map[], SelectClaim(id, t, place, false), LookUp(u),
           Outcome(NO_CLAIMS, map[], waiting));
    NoneHolds(place);
    Selects(digest, NO_CLAIMS, map[], t, id, place);
    First(digest, allowed, NO_CLAIMS, map[], SelectClaim(id, t, place, false), waiting,
          Outcome(NO_CLAIMS, map[], WriteClaim(id, t, place, false)));
    Claimed1Is(w, t.catalog, id);
    Writes(digest, NO_CLAIMS, map[], t, id, place, claims);
    First(digest, allowed, NO_CLAIMS, map[], WriteClaim(id, t, place, false), waiting,
          Outcome(claims, map[], InsertRow(id, t, place)));
    Inserts(digest, claims, t, id, place);
    First(digest, allowed, claims, map[], InsertRow(id, t, place), waiting,
          Outcome(claims, map[id := Stored(t)], Connected(id, false)));
  }

  // Then the second call claims, which releases the first call's claim.
  lemma SecondCall(digest: Digest, allowed: iset<Target>, t: Target, u: Target, id: string, w: string)
    returns (after: Table)
    requires Racing(digest, t, u, id, w) && t.catalog != u.catalog
    requires Reached(digest, allowed, Claimed1(w, t.catalog, id), map[id := Stored(t)],
                     Connected(id, false), SelectClaim(id, u, Place(w, u.catalog), false))
    ensures !PlaceClaimed(after, Place(w, t.catalog))
    ensures Reached(digest, allowed, after, map[id := Stored(t)],
                    Connected(id, false), InsertRow(id, u, Place(w, u.catalog)))
  {
    var claims, rows, other := Claimed1(w, t.catalog, id), map[id := Stored(t)], Place(w, u.catalog);
    after := SecondClaim(w, t.catalog, u.catalog, id);
    Selects(digest, claims, rows, u, id, other);
    Second(digest, allowed, claims, rows, Connected(id, false), SelectClaim(id, u, other, false),
           Outcome(claims, rows, WriteClaim(id, u, other, false)));
    Writes(digest, claims, rows, u, id, other, after);
    Second(digest, allowed, claims, rows, Connected(id, false), WriteClaim(id, u, other, false),
           Outcome(after, rows, InsertRow(id, u, other)));
  }

  lemma SecondClaim(w: string, catalog: string, other: string, id: string) returns (after: Table)
    requires catalog != other
    ensures !PlaceClaimed(Claimed1(w, catalog, id), Place(w, other))
    ensures ClaimTransaction(Claimed1(w, catalog, id), w, other, ClaimOwner(id)) == Some(after)
    ensures !PlaceClaimed(after, Place(w, catalog))
  {
    var claims := Claimed1(w, catalog, id);
    Claimed1Is(w, catalog, id);
    Unclaimed(claims, w, catalog, other, ClaimOwner(id));
    ClaimEffect(claims, w, other, ClaimOwner(id));
    var r := ClaimTransaction(claims, w, other, ClaimOwner(id));
    assert forall o :: !HoldsPlace(claims, Place(w, other), o);
    assert r.Some?;
    after := r.value;
    forall o ensures !HoldsPlace(after, Place(w, catalog), o) {
      assert HoldsPlace(claims, Place(w, catalog), o) ==> o == ClaimOwner(id);
    }
    NobodyHolds(after, Place(w, catalog));
  }

  // Only `catalog` is held in the workspace, so another one is free.
  lemma Unclaimed(t: Table, w: string, catalog: string, other: string, owner: string)
    requires catalog != other
    requires forall at, o :: HoldsPlace(t, at, o) ==> o == owner && at == Place(w, catalog)
    ensures !PlaceClaimed(t, Place(w, other)) && forall o :: !HoldsPlace(t, Place(w, other), o)
  {
    assert forall o :: !HoldsPlace(t, Place(w, other), o);
    NobodyHolds(t, Place(w, other));
  }

  lemma NobodyHolds(t: Table, place: Place)
    requires forall o :: !HoldsPlace(t, place, o)
    ensures !PlaceClaimed(t, place)
  {
    if PlaceClaimed(t, place) {
      var i :| i in t.rows && ActiveOn(t.rows[i], place.workspace, place.catalog);
      assert HoldsPlace(t, place, t.rows[i].owner);
    }
  }

  // From nothing to two calls that have just begun.
  lemma Begin(digest: Digest, allowed: iset<Target>, t: Target, u: Target)
    requires Stripped(t) && Stripped(u) && t in allowed && u in allowed
    ensures Reached(digest, allowed, NO_CLAIMS, map[], LookUp(t), LookUp(u))
  {
    var first, second := Create(0, t.hub, t.project, t.url, t.catalog), Create(1, u.hub, u.project, u.url, u.catalog);
    assert Run(digest, INIT, []) == INIT && AllAdmissible(allowed, []);
    StepReaches(digest, allowed, INIT, first);
    StepReaches(digest, allowed, Do(digest, INIT, first), second);
    assert map[0 := LookUp(t)][1 := LookUp(u)] == Two(LookUp(t), LookUp(u));
  }

  // -------------------------------------------------------------------------
  // The two ways to lose exclusivity
  // -------------------------------------------------------------------------

  /** A claimable target that does not keep its key: one call ends with a connection whose owner does
      not hold its catalog. */
  lemma UnstableBreaks(digest: Digest, allowed: iset<Target>, t: Target) returns (steps: seq<Step>)
    requires t in allowed && Stripped(t) && Claimable(t) && !KeyStable(t)
    ensures AllAdmissible(allowed, steps) && !Exclusive(Run(digest, INIT, steps))
  {
    var id, w := ComputeId(digest, t), WorkspaceKey(t.url);
    Begin(digest, allowed, t, t);
    FirstCall(digest, allowed, t, t, id, w);
    Claimed1Is(w, t.catalog, id);
    var s := State(Claimed1(w, t.catalog, id), map[id := Stored(t)],
                   Two(Connected(id, false), SelectClaim(id, t, Place(w, t.catalog), false)));
    steps :| AllAdmissible(allowed, steps) && Run(digest, INIT, steps) == s;
    assert RowPlace(s.connections[id]) != Place(w, t.catalog);
  }

  /** Two targets that clash, the first keeping its key: two calls that race end with a connection
      whose catalog is free for anybody. */
  lemma ClashBreaks(digest: Digest, allowed: iset<Target>, t: Target, u: Target) returns (steps: seq<Step>, id: string)
    requires t in allowed && Stripped(t) && u in allowed && Stripped(u) && Clash(digest, t, u) && KeyStable(t)
    ensures AllAdmissible(allowed, steps) && !Exclusive(Run(digest, INIT, steps))
    ensures var s := Run(digest, INIT, steps);
            id in s.connections && !PlaceClaimed(s.claims, RowPlace(s.connections[id]))
  {
    id := ComputeId(digest, t);
    var w := WorkspaceKey(t.url);
    Begin(digest, allowed, t, u);
    FirstCall(digest, allowed, t, u, id, w);
    var after := SecondCall(digest, allowed, t, u, id, w);
    var s := State(after, map[id := Stored(t)], Two(Connected(id, false), InsertRow(id, u, Place(w, u.catalog))));
    steps :| AllAdmissible(allowed, steps) && Run(digest, INIT, steps) == s;
    assert RowPlace(s.connections[id]) == Place(w, t.catalog);
  }

  ghost predicate AlwaysExclusive(digest: Digest, allowed: iset<Target>) {
    forall steps :: AllAdmissible(allowed, steps) ==> Exclusive(Run(digest, INIT, steps))
  }

  /** For any set of stripped targets: exclusivity holds in every reachable state of every run that
      creates connections for them if and only if each of them that can be claimed keeps its key when
      stored and no two of them clash. */
  lemma ExclusiveIffSeparate(digest: Digest, allowed: iset<Target>)
    requires forall t :: t in allowed ==> Stripped(t)
    ensures AlwaysExclusive(digest, allowed) <==> Separate(digest, allowed)
  {
    if Separate(digest, allowed) {
      forall steps | AllAdmissible(allowed, steps) ensures Exclusive(Run(digest, INIT, steps)) {
        SeparateIsExclusive(digest, allowed, steps);
      }
    } else if t :| t in allowed && Claimable(t) && !KeyStable(t) {
      var steps := UnstableBreaks(digest, allowed, t);
    } else {
      var t, u :| t in allowed && u in allowed && Clash(digest, t, u);
      var steps, id := ClashBreaks(digest, allowed, t, u);
    }
  }

  // -------------------------------------------------------------------------
  // A target of each kind
  // -------------------------------------------------------------------------

  lemma PlainStripped(t: Target)
    requires Plain(t.hub) && Plain(t.project) && Plain(t.url) && Plain(t.catalog)
    ensures Stripped(t) && Complete(t) && Normal(t) == t
  {
    PlainIsNormal(t);
    StripSpaceless(t.project);
    StripSpaceless(t.url);
    StripSpaceless(t.catalog);
  }

  lemma HttpsPlain(h: string, a: string)
    requires IsHost(h) && Plain(a)
    ensures Plain(Https(h + (['/'] + a)))
  {
    var url := Https(h + (['/'] + a));
    assert url[|url| - 1] == a[|a| - 1];
  }

  lemma KeyWithPath(h: string, p: string)
    requires IsHost(h) && Plain(p)
    ensures WorkspaceKey(Https(h + (['/'] + p))) == Lower(h)
  {
    var tail := ['/'] + p;
    assert tail[|tail| - 1] == p[|p| - 1] && p[|p| - 1] in p;
    KeyOfHost("https", h, tail);
  }

  lemma BarredUrl(h: string, a: string, b: string)
    ensures Https(h + (['/'] + a)) + ['|'] + b == Https(h + (['/'] + (a + ['|'] + b)))
  {
  }

  /** With a bar in a URL path, whatever the digest, targets clash. */
  lemma BarsClash(digest: Digest, hub: string, project: string, h: string, a: string, b: string, c: string)
    requires Plain(hub) && Plain(project) && IsHost(h) && Plain(a) && Plain(b) && Plain(c)
    ensures var url := Https(h + (['/'] + a));
            var t, u := Target(hub, project, url, b + ['|'] + c), Target(hub, project, url + ['|'] + b, c);
            Clash(digest, t, u) && KeyStable(t) && Stripped(t) && Stripped(u)
  {
    var url := Https(h + (['/'] + a));
    var t, u := Target(hub, project, url, b + ['|'] + c), Target(hub, project, url + ['|'] + b, c);
    HttpsPlain(h, a);
    PlainBar(url, b);
    PlainBar(b, c);
    BarsCollide(digest, Target(hub, project, url, c), b);
    PlainStripped(t);
    PlainStripped(u);
    PlainBar(a, b);
    KeyWithPath(h, a);
    KeyWithPath(h, a + ['|'] + b);
    BarredUrl(h, a, b);
    LowerNonEmpty(h);
    assert NormalizeUrl(url) == url;
    assert |t.catalog| != |u.catalog|;
  }

  lemma LowerNonEmpty(h: string)
    requires h != ""
    ensures Lower(h) != ""
  {
    assert |Lower(h)| == |h|;
  }

  /** So there is a run of two concurrent calls that ends with a connection whose catalog is free for
      anybody. */
  lemma BarsBreakExclusivity(digest: Digest, hub: string, project: string, h: string, a: string, b: string, c: string)
    returns (steps: seq<Step>, id: string)
    requires Plain(hub) && Plain(project) && IsHost(h) && Plain(a) && Plain(b) && Plain(c)
    ensures var s := Run(digest, INIT, steps);
            id in s.connections && !PlaceClaimed(s.claims, RowPlace(s.connections[id]))
  {
    var url := Https(h + (['/'] + a));
    var t, u := Target(hub, project, url, b + ['|'] + c), Target(hub, project, url + ['|'] + b, c);
    BarsClash(digest, hub, project, h, a, b, c);
    steps, id := ClashBreaks(digest, iset{t, u}, t, u);
  }

  /** With a space before its last slash a URL may not keep its key, and then a single call breaks
      exclusivity. */
  lemma SpaceBreaksExclusivity(digest: Digest, hub: string, project: string, h: string, c: string)
    returns (steps: seq<Step>)
    requires Plain(hub) && Plain(project) && IsHost(h) && Plain(c)
    ensures AllAdmissible(iset{Target(hub, project, Doubled(h) + [' ', '/'], c)}, steps)
    ensures !Exclusive(Run(digest, INIT, steps))
  {
    var t := Target(hub, project, Doubled(h) + [' ', '/'], c);
    EndSpaceLosesKey(h);
    CutToSpace(h);
    StripSpaceless(hub);
    StripSpaceless(project);
    StripSpaceless(c);
    LowerNonEmpty(h + [':']);
    steps := UnstableBreaks(digest, iset{t}, t);
  }
}
