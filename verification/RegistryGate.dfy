/** When the hash gate of the registry sync is sound, exactly: for any set of files and of projects,
    with syncs that may be cut off or not. */
module RegistryGate {
  import opened Wrappers
  import opened PkRegistry

  const EMPTY := Meta(map[], map[])

  // What runs may contain: syncs of these files for these projects, cut off only if `cuts` says so,
  // discoveries, and curated rows of operators. Any project's digest may be the one that is compared.
  datatype Regime = Regime(files: iset<string>, projects: iset<string>, cuts: bool)

  ghost predicate Allowed(g: Regime, step: Step) {
    match step
    case SyncStep(p, digest, pick) => p in g.projects && pick in g.projects && digest in g.files
    case CutStep(digest, pick, _) => g.cuts && pick in g.projects && digest in g.files
    case DiscoverStep(_, _) => true
    case OverrideStep(_, row) => !Updatable(row.source)
  }

  ghost predicate AllAllowed(g: Regime, steps: seq<Step>) {
    forall k :: 0 <= k < |steps| ==> Allowed(g, steps[k])
  }

  // A JSON file has each table once.
  ghost predicate WellFormed(contents: string -> seq<Entry>, g: Regime) {
    forall d :: d in g.files ==> Distinct(contents(d))
  }

  ghost predicate Agree(a: seq<Entry>, b: seq<Entry>) {
    forall e, f :: e in a && f in b && e.key == f.key ==> e.pk == f.pk
  }

  // No two files give one table different columns.
  ghost predicate Compatible(contents: string -> seq<Entry>, g: Regime) {
    forall c, d :: c in g.files && d in g.files ==> Agree(Rows(contents(c)), Rows(contents(d)))
  }

  ghost predicate OneProject(g: Regime) {
    forall p, q :: p in g.projects && q in g.projects ==> p == q
  }

  // Skipping gives the registry that merging every time gives.
  ghost predicate GateSound(contents: string -> seq<Entry>, g: Regime) {
    forall steps :: AllAllowed(g, steps) ==>
      Run(contents, EMPTY, steps, true).registry == Run(contents, EMPTY, steps, false).registry
  }

  // -------------------------------------------------------------------------
  // Settled rows
  // -------------------------------------------------------------------------

  ghost predicate SettledRows(reg: Registry, rows: seq<Entry>) {
    forall e :: e in rows ==> e.key in reg && reg[e.key] == Settled(reg, e)
  }

  lemma MergeSettles(reg: Registry, rows: seq<Entry>)
    requires Distinct(rows)
    ensures SettledRows(Merge(reg, rows), rows)
  {
    MergeEffect(reg, rows);
  }

  lemma MergeKeepsSettled(reg: Registry, rows: seq<Entry>, applied: seq<Entry>)
    requires Distinct(rows) && SettledRows(reg, applied) && Agree(rows, applied)
    ensures SettledRows(Merge(reg, rows), applied)
  {
    forall a | a in applied
      ensures a.key in Merge(reg, rows) && Merge(reg, rows)[a.key] == Settled(Merge(reg, rows), a)
    {
      MergeAt(reg, rows, a.key);
    }
  }

  // Every stored digest is of one of the files, for one of the projects, and its rows are settled.
  ghost predicate AllSettled(contents: string -> seq<Entry>, g: Regime, m: Meta) {
    forall p :: p in m.versions ==>
      p in g.projects && m.versions[p] in g.files && SettledRows(m.registry, Rows(contents(m.versions[p])))
  }

  // -------------------------------------------------------------------------
  // One step, gated and not
  // -------------------------------------------------------------------------

  ghost predicate Condition(contents: string -> seq<Entry>, g: Regime) {
    Compatible(contents, g) || (OneProject(g) && !g.cuts)
  }

  lemma SyncSame(contents: string -> seq<Entry>, g: Regime, m: Meta, u: Meta, step: Step)
    requires WellFormed(contents, g) && Condition(contents, g) && step.SyncStep? && Allowed(g, step)
    requires AllSettled(contents, g, m) && m.registry == u.registry
    ensures var next := Do(contents, m, step, true);
            AllSettled(contents, g, next) && next.registry == Do(contents, u, step, false).registry
  {
    var rows := Rows(contents(step.digest));
    RowsDistinct(contents(step.digest));
    if Unchanged(m, step.digest, step.pick) {
      FixedPointIff(m.registry, rows);
    } else if rows != [] {
      MergeSettles(m.registry, rows);
      forall p | p in m.versions && p != step.project
        ensures SettledRows(Merge(m.registry, rows), Rows(contents(m.versions[p])))
      {
        MergeKeepsSettled(m.registry, rows, Rows(contents(m.versions[p])));
      }
    }
  }

  lemma CutSame(contents: string -> seq<Entry>, g: Regime, m: Meta, u: Meta, step: Step)
    requires WellFormed(contents, g) && Compatible(contents, g) && step.CutStep? && Allowed(g, step)
    requires AllSettled(contents, g, m) && m.registry == u.registry
    ensures var next := Do(contents, m, step, true);
            AllSettled(contents, g, next) && next.registry == Do(contents, u, step, false).registry
  {
    var all := Rows(contents(step.digest));
    var rows := Batches(all, step.batches);
    RowsDistinct(contents(step.digest));
    assert forall e :: e in rows ==> e in all;
    if Unchanged(m, step.digest, step.pick) {
      FixedPointIff(m.registry, rows);
    } else {
      forall p | p in m.versions ensures SettledRows(Merge(m.registry, rows), Rows(contents(m.versions[p]))) {
        assert Agree(all, Rows(contents(m.versions[p])));
        MergeKeepsSettled(m.registry, rows, Rows(contents(m.versions[p])));
      }
    }
  }

  lemma DoSame(contents: string -> seq<Entry>, g: Regime, m: Meta, u: Meta, step: Step)
    requires WellFormed(contents, g) && Condition(contents, g) && Allowed(g, step)
    requires AllSettled(contents, g, m) && m.registry == u.registry
    ensures var next := Do(contents, m, step, true);
            AllSettled(contents, g, next) && next.registry == Do(contents, u, step, false).registry
  {
    match step
    case SyncStep(_, _, _) => SyncSame(contents, g, m, u, step);
    case CutStep(_, _, _) => CutSame(contents, g, m, u, step);
    case DiscoverStep(_, _) =>
    case OverrideStep(_, _) =>
  }

  lemma {:induction false} RunSame(contents: string -> seq<Entry>, g: Regime, m: Meta, u: Meta, steps: seq<Step>)
    requires WellFormed(contents, g) && Condition(contents, g) && AllAllowed(g, steps)
    requires AllSettled(contents, g, m) && m.registry == u.registry
    ensures Run(contents, m, steps, true).registry == Run(contents, u, steps, false).registry
    decreases |steps|
  {
    if steps != [] {
      assert Allowed(g, steps[0]);
      DoSame(contents, g, m, u, steps[0]);
      RunSame(contents, g, Do(contents, m, steps[0], true), Do(contents, u, steps[0], false), steps[1..]);
    }
  }

  // -------------------------------------------------------------------------
  // Where the gate goes wrong
  // -------------------------------------------------------------------------

  lemma Unroll(contents: string -> seq<Entry>, m: Meta, a: Step, b: Step, c: Step, gated: bool)
    ensures Run(contents, m, [a, b, c], gated) ==
            Do(contents, Do(contents, Do(contents, m, a, gated), b, gated), c, gated)
  {
    var m1 := Do(contents, m, a, gated);
    var m2 := Do(contents, m1, b, gated);
    assert [a, b, c][1..] == [b, c] && [b, c][1..] == [c] && [c][1..] == [];
    assert Run(contents, m2, [c], gated) == Run(contents, Do(contents, m2, c, gated), [], gated);
    assert Run(contents, m1, [b, c], gated) == Run(contents, m2, [c], gated);
  }

  // What a merge leaves of a listed table that is not curated.
  lemma Listed(reg: Registry, rows: seq<Entry>, e: Entry)
    requires Distinct(rows) && e in rows && (e.key in reg ==> Updatable(reg[e.key].source))
    ensures e.key in Merge(reg, rows) && Merge(reg, rows)[e.key] == Row(e.pk, EXPLICIT)
  {
    FindListed(rows, e);
    MergeAt(reg, rows, e.key);
  }

  // The second file is merged while the digest of the first stays stored for `p`: for another project,
  // or cut off after its last batch.
  ghost predicate Overwrites(contents: string -> seq<Entry>, p: string, c: string, d: string, step: Step) {
    (step.SyncStep? && step.project != p && step.pick == p && step.digest == d) ||
    (step == CutStep(d, p, |Rows(contents(d))|))
  }

  lemma FirstSync(contents: string -> seq<Entry>, p: string, c: string, gated: bool)
    requires Rows(contents(c)) != []
    ensures Do(contents, EMPTY, SyncStep(p, c, p), gated) == Meta(Merge(map[], Rows(contents(c))), map[p := c])
  {
  }

  lemma SecondWrites(
    contents: string -> seq<Entry>, m: Meta, p: string, c: string, d: string, step: Step, gated: bool)
    requires Overwrites(contents, p, c, d, step) && c != d && m.versions == map[p := c] && Rows(contents(d)) != []
    ensures var u := Do(contents, m, step, gated);
            && u == Do(contents, m, step, false) && u.registry == Merge(m.registry, Rows(contents(d)))
            && p in u.versions && u.versions[p] == c
  {
    assert Batches(Rows(contents(d)), |Rows(contents(d))|) == Rows(contents(d));
  }

  lemma ThirdDiffers(contents: string -> seq<Entry>, m: Meta, p: string, c: string, e: Entry)
    requires Distinct(contents(c)) && e in Rows(contents(c)) && p in m.versions && m.versions[p] == c
    requires e.key in m.registry && m.registry[e.key].source == EXPLICIT && m.registry[e.key].pk != e.pk
    ensures Do(contents, m, SyncStep(p, c, p), true).registry != Do(contents, m, SyncStep(p, c, p), false).registry
  {
    RowsDistinct(contents(c));
    Listed(m.registry, Rows(contents(c)), e);
  }

  // The tables after the first file, and after the second.
  lemma TwoMerges(
    contents: string -> seq<Entry>, p: string, c: string, d: string, step: Step, e: Entry, f: Entry)
    returns (m1: Meta, m2: Meta)
    requires Distinct(contents(c)) && Distinct(contents(d)) && Overwrites(contents, p, c, d, step)
    requires e in Rows(contents(c)) && f in Rows(contents(d)) && e.key == f.key && e.pk != f.pk
    ensures forall gated :: Do(contents, EMPTY, SyncStep(p, c, p), gated) == m1
    ensures forall gated :: Do(contents, m1, step, gated) == m2
    ensures p in m2.versions && m2.versions[p] == c
    ensures e.key in m2.registry && m2.registry[e.key] == Row(f.pk, EXPLICIT)
  {
    DifferentFiles(contents, c, d, e, f);
    FirstSync(contents, p, c, true);
    FirstSync(contents, p, c, false);
    m1 := Meta(Merge(map[], Rows(contents(c))), map[p := c]);
    SecondWrites(contents, m1, p, c, d, step, true);
    m2 := Do(contents, m1, step, true);
    RowsDistinct(contents(c));
    RowsDistinct(contents(d));
    Listed(map[], Rows(contents(c)), e);
    Listed(m1.registry, Rows(contents(d)), f);
  }

  /** Sync one file, merge a second one that gives a table other columns in such a way, and offer the
      first again: it is skipped, though merging it would restore the columns. */
  lemma GateFooled(
    contents: string -> seq<Entry>, p: string, c: string, d: string, step: Step, e: Entry, f: Entry)
    returns (steps: seq<Step>)
    requires Distinct(contents(c)) && Distinct(contents(d)) && Overwrites(contents, p, c, d, step)
    requires e in Rows(contents(c)) && f in Rows(contents(d)) && e.key == f.key && e.pk != f.pk
    ensures forall k :: 0 <= k < |steps| ==> steps[k] == step || steps[k] == SyncStep(p, c, p)
    ensures Run(contents, EMPTY, steps, true).registry != Run(contents, EMPTY, steps, false).registry
  {
    var first := SyncStep(p, c, p);
    var m1, m2 := TwoMerges(contents, p, c, d, step, e, f);
    ThirdDiffers(contents, m2, p, c, e);
    Unroll(contents, EMPTY, first, step, first, true);
    Unroll(contents, EMPTY, first, step, first, false);
    steps := [first, step, first];
  }

  lemma DifferentFiles(contents: string -> seq<Entry>, c: string, d: string, e: Entry, f: Entry)
    requires Distinct(contents(c)) && e in Rows(contents(c)) && f in Rows(contents(d))
    requires e.key == f.key && e.pk != f.pk
    ensures c != d
  {
  }

  // -------------------------------------------------------------------------
  // The exact condition
  // -------------------------------------------------------------------------

  lemma ConditionSuffices(contents: string -> seq<Entry>, g: Regime)
    requires WellFormed(contents, g) && Condition(contents, g)
    ensures GateSound(contents, g)
  {
    forall steps | AllAllowed(g, steps)
      ensures Run(contents, EMPTY, steps, true).registry == Run(contents, EMPTY, steps, false).registry
    {
      RunSame(contents, g, EMPTY, EMPTY, steps);
    }
  }

  lemma FooledRun(contents: string -> seq<Entry>, g: Regime, p: string, c: string, d: string, step: Step)
    returns (steps: seq<Step>)
    requires WellFormed(contents, g) && p in g.projects && c in g.files && d in g.files
    requires !Agree(Rows(contents(c)), Rows(contents(d)))
    requires Allowed(g, step) && Overwrites(contents, p, c, d, step)
    ensures AllAllowed(g, steps)
    ensures Run(contents, EMPTY, steps, true).registry != Run(contents, EMPTY, steps, false).registry
  {
    var e, f :| e in Rows(contents(c)) && f in Rows(contents(d)) && e.key == f.key && e.pk != f.pk;
    steps := GateFooled(contents, p, c, d, step, e, f);
  }

  lemma ClashFools(contents: string -> seq<Entry>, g: Regime, p: string, c: string, d: string, step: Step)
    requires WellFormed(contents, g) && p in g.projects && c in g.files && d in g.files
    requires !Agree(Rows(contents(c)), Rows(contents(d)))
    requires Allowed(g, step) && Overwrites(contents, p, c, d, step)
    ensures !GateSound(contents, g)
  {
    var steps := FooledRun(contents, g, p, c, d, step);
  }

  /** From empty tables, the gated registry equals the one merged every time in every run of a regime if
      and only if no two of its files give a table different columns, or it has one project and no
      sync is cut off. */
  lemma GateSoundIff(contents: string -> seq<Entry>, g: Regime, project: string)
    requires WellFormed(contents, g) && project in g.projects
    ensures GateSound(contents, g) <==> Compatible(contents, g) || (OneProject(g) && !g.cuts)
  {
    if Condition(contents, g) {
      ConditionSuffices(contents, g);
    } else {
      var c, d :| c in g.files && d in g.files && !Agree(Rows(contents(c)), Rows(contents(d)));
      if g.cuts {
        ClashFools(contents, g, project, c, d, CutStep(d, project, |Rows(contents(d))|));
      } else {
        var p, q :| p in g.projects && q in g.projects && p != q;
        ClashFools(contents, g, p, c, d, SyncStep(q, d, p));
      }
    }
  }
}
