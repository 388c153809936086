/** The expiring claim on creating a hub's robot: one conditional UPDATE used as a mutex. */
module ProvisioningLease {
  import opened Wrappers

  const STALE_SEC := 300

  // provisioning_claimed_at IS NULL OR provisioning_claimed_at < now - stale
  predicate Free(claimedAt: Option<int>, now: int, stale: int) {
    claimedAt.None? || claimedAt.value < now - stale
  }

  // -------------------------------------------------------------------------
  // The workers of one hub
  // -------------------------------------------------------------------------

  // `holders` are the workers between a successful claim and their release, with their claim time.
  datatype State = State(clock: int, claimedAt: Option<int>, holders: map<nat, int>)

  datatype Step = Wait(seconds: nat) | TryClaim(w: nat) | Release(w: nat) | Die(w: nat)

  predicate Succeeds(s: State, w: nat) {
    w !in s.holders && Free(s.claimedAt, s.clock, STALE_SEC)
  }

  function Do(s: State, step: Step): State {
    match step
    case Wait(seconds) => s.(clock := s.clock + seconds)
    case TryClaim(w) =>
      if Succeeds(s, w) then s.(claimedAt := Some(s.clock), holders := s.holders[w := s.clock]) else s
    case Release(w) => if w in s.holders then s.(claimedAt := None, holders := s.holders - {w}) else s
    case Die(w) => s.(holders := s.holders - {w})
  }

  function Run(s: State, steps: seq<Step>): State
    decreases |steps|
  {
    if steps == [] then s else Run(Do(s, steps[0]), steps[1..])
  }

  // Every living holder is done within the stale time.
  ghost predicate Timely(s: State) {
    forall w :: w in s.holders ==> s.clock <= s.holders[w] + STALE_SEC
  }

  ghost predicate TimelyRun(s: State, steps: seq<Step>)
    decreases |steps|
  {
    Timely(s) && (steps == [] || TimelyRun(Do(s, steps[0]), steps[1..]))
  }

  // The stored time is the holder's own.
  ghost predicate Inv(s: State) {
    && (forall v, w :: v in s.holders && w in s.holders ==> v == w)
    && (forall w :: w in s.holders ==> s.claimedAt == Some(s.holders[w]))
  }

  /** If every holder releases in time, no two workers ever hold the claim, and the stored time is
      always the holder's own, so a release clears nobody else's claim. */
  lemma {:induction false} MutualExclusion(s: State, steps: seq<Step>)
    requires Inv(s) && TimelyRun(s, steps)
    ensures Inv(Run(s, steps))
    decreases |steps|
  {
    if steps != [] {
      MutualExclusion(Do(s, steps[0]), steps[1..]);
    }
  }

  /** A claim succeeds exactly if none is stored or the stored one is more than 300 seconds old, and stores the
      time at which it is made; a failed one changes nothing. */
  lemma ClaimIff(s: State, w: nat)
    requires w !in s.holders
    ensures var u := Do(s, TryClaim(w));
            && (w in u.holders <==> s.claimedAt.None? || s.clock > s.claimedAt.value + 300)
            && (if w in u.holders then u.claimedAt == Some(s.clock) && u.holders == s.holders[w := s.clock] else u == s)
  {
  }

  ghost predicate NoRelease(steps: seq<Step>) {
    forall k :: 0 <= k < |steps| ==> !steps[k].Release?
  }

  /** A claim lasts: until it is released, or 300 seconds have passed since it was made, it stays as it is and
      nobody gets in, however often it is tried and whoever dies. */
  lemma {:induction false} ClaimLasts(s: State, steps: seq<Step>, made: int)
    requires s.claimedAt == Some(made) && NoRelease(steps) && Run(s, steps).clock <= made + 300
    ensures Run(s, steps).claimedAt == Some(made)
    ensures forall w :: w in Run(s, steps).holders ==> w in s.holders
    decreases |steps|
  {
    if steps != [] {
      ClockAdvances(Do(s, steps[0]), steps[1..]);
      ClaimLasts(Do(s, steps[0]), steps[1..], made);
    }
  }

  lemma {:induction false} ClockAdvances(s: State, steps: seq<Step>)
    ensures s.clock <= Run(s, steps).clock
    decreases |steps|
  {
    if steps != [] {
      ClockAdvances(Do(s, steps[0]), steps[1..]);
    }
  }

  /** A second worker gets in exactly when the holder has overstayed. */
  lemma SecondHolderIff(s: State, v: nat, w: nat)
    requires Inv(s) && v in s.holders && w !in s.holders
    ensures (exists x, y :: x in Do(s, TryClaim(w)).holders && y in Do(s, TryClaim(w)).holders && x != y) <==>
      s.clock > s.holders[v] + STALE_SEC
  {
    var u := Do(s, TryClaim(w));
    if s.clock > s.holders[v] + STALE_SEC {
      assert v in u.holders && w in u.holders;
    }
  }

  /** The claim of a worker that died can be taken over from just after the stale time on, by anyone,
      and not earlier. */
  lemma DeadHolderExpires(s: State, v: nat, w: nat, seconds: nat)
    requires Inv(s) && v in s.holders && w != v
    ensures var u := Run(s, [Die(v), Wait(seconds)]);
            Succeeds(u, w) <==> s.clock + seconds > s.holders[v] + STALE_SEC
  {
    assert [Die(v), Wait(seconds)][1..] == [Wait(seconds)] && [Wait(seconds)][1..] == [];
    var u := Do(s, Die(v));
    assert Run(u, [Wait(seconds)]) == Do(u, Wait(seconds));
  }

  /** A late holder's release clears the claim of the worker that took over, and lets a third in
      beside it. */
  lemma LateReleaseClearsSuccessor(s: State, v: nat, w: nat, x: nat)
    requires Inv(s) && v in s.holders && w !in s.holders && x !in s.holders && x != w
    requires s.clock > s.holders[v] + STALE_SEC
    ensures var u := Run(s, [TryClaim(w), Release(v), TryClaim(x)]);
            w in u.holders && x in u.holders && u.claimedAt == Some(u.holders[x])
  {
    var steps := [TryClaim(w), Release(v), TryClaim(x)];
    assert steps[1..] == [Release(v), TryClaim(x)] && steps[1..][1..] == [TryClaim(x)] && steps[1..][1..][1..] == [];
    var u1 := Do(s, TryClaim(w));
    var u2 := Do(u1, Release(v));
    assert Run(u2, [TryClaim(x)]) == Do(u2, TryClaim(x));
  }

  // -------------------------------------------------------------------------
  // The repository
  // -------------------------------------------------------------------------

  /** The `tenants` rows. `holders` are the attempts at provisioning, one number each, that have
      claimed and not yet released. */
  class TenantStore {
    var claims: map<string, Option<int>>
    ghost var holders: map<string, map<nat, int>>

    ghost function Holders(hub: string): map<nat, int>
      reads this
    {
      if hub in holders then holders[hub] else map[]
    }

    // One hub as the machine above sees it at a given time.
    ghost function Hub(hub: string, now: int): State
      reads this
      requires hub in claims
    {
      State(now, claims[hub], Holders(hub))
    }

    /** The machine's claim, of a new attempt. An unknown hub is nobody's, and other hubs do not
        notice. */
    method TryClaimProvisioning(hub: string, now: int, ghost w: nat) returns (claimed: bool)
      requires w !in Holders(hub)
      modifies this
      ensures claims.Keys == old(claims).Keys && (claimed ==> hub in claims)
      ensures hub in claims ==> Hub(hub, now) == Do(old(Hub(hub, now)), TryClaim(w))
      ensures claimed <==> w in Holders(hub)
      ensures claimed <==>
        hub in old(claims) && (old(claims)[hub].None? || old(claims)[hub].value + 300 < now)
      ensures claims == if claimed then old(claims)[hub := Some(now)] else old(claims)
      ensures forall k :: k != hub && k in claims ==> claims[k] == old(claims)[k]
      ensures forall k :: k != hub ==> Holders(k) == old(Holders(k))
    {
      claimed := hub in claims && Free(claims[hub], now, STALE_SEC);
      if claimed {
        claims := claims[hub := Some(now)];
        holders := holders[hub := Holders(hub)[w := now]];
      }
    }

    /** The machine's release, when the attempt that releases is one that claimed, as in the `finally`
        block of the caller. */
    method ReleaseProvisioning(hub: string, ghost w: nat)
      modifies this
      ensures claims.Keys == old(claims).Keys
      ensures hub in claims ==> claims[hub] == None
      ensures forall now :: hub in claims && old(w in Holders(hub)) ==>
        Hub(hub, now) == Do(old(Hub(hub, now)), Release(w))
      ensures forall k :: k != hub && k in claims ==> claims[k] == old(claims)[k]
      ensures forall k :: k != hub ==> Holders(k) == old(Holders(k))
    {
      if hub in claims {
        claims := claims[hub := None];
        holders := holders[hub := Holders(hub) - {w}];
      }
    }
  }
}
