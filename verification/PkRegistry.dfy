/** Synchronising the primary-key registry of one catalog from pk_config.json, behind a hash gate. */
module PkRegistry {
  import opened Wrappers

  datatype Key = Key(schema: string, table: string)

  datatype Row = Row(pk: seq<string>, source: string)

  // One table of pk_config.json. An entry without columns is skipped.
  datatype Entry = Entry(key: Key, pk: seq<string>)

  type Registry = map<Key, Row>

  const AUTO := "auto_position_1"
  const EXPLICIT := "explicit_pk_config"

  const BATCH := 50

  // Rows a sync may rewrite; manual_override, expert_curated and any other source are curated.
  predicate Updatable(source: string) {
    source == AUTO || source == EXPLICIT
  }

  // A JSON object has each key once.
  ghost predicate Distinct(rows: seq<Entry>) {
    forall i, j :: 0 <= i < j < |rows| ==> rows[i].key != rows[j].key
  }

  function Rows(entries: seq<Entry>): (rows: seq<Entry>)
    ensures forall e :: e in rows <==> e in entries && e.pk != []
  {
    if entries == [] then []
    else if entries[0].pk != [] then [entries[0]] + Rows(entries[1..])
    else Rows(entries[1..])
  }

  lemma {:induction false} RowsDistinct(entries: seq<Entry>)
    requires Distinct(entries)
    ensures Distinct(Rows(entries))
  {
    if entries != [] {
      RowsDistinct(entries[1..]);
      var rest := Rows(entries[1..]);
      forall j | 0 <= j < |rest| ensures rest[j].key != entries[0].key {
        assert rest[j] in entries[1..];
      }
    }
  }

  // -------------------------------------------------------------------------
  // MERGE
  // -------------------------------------------------------------------------

  // whenMatchedUpdate with its condition.
  function Matched(row: Row, pk: seq<string>): Row {
    if Updatable(row.source) && (row.pk != pk || row.source != EXPLICIT) then Row(pk, EXPLICIT) else row
  }

  // whenNotMatchedInsertAll.
  function MergeOne(reg: Registry, e: Entry): Registry {
    reg[e.key := if e.key in reg then Matched(reg[e.key], e.pk) else Row(e.pk, EXPLICIT)]
  }

  // One MERGE of distinct source rows: each acts on its own target row.
  function Merge(reg: Registry, rows: seq<Entry>): Registry
    decreases |rows|
  {
    if rows == [] then reg else Merge(MergeOne(reg, rows[0]), rows[1..])
  }

  // What a source row leaves on its key.
  function Settled(reg: Registry, e: Entry): Row {
    if e.key in reg && !Updatable(reg[e.key].source) then reg[e.key] else Row(e.pk, EXPLICIT)
  }

  function Find(rows: seq<Entry>, k: Key): (r: Option<Entry>)
    ensures r.Some? ==> r.value in rows && r.value.key == k
    ensures r.None? ==> forall e :: e in rows ==> e.key != k
  {
    if rows == [] then None else if rows[0].key == k then Some(rows[0]) else Find(rows[1..], k)
  }

  lemma {:induction false} FindListed(rows: seq<Entry>, e: Entry)
    requires Distinct(rows) && e in rows
    ensures Find(rows, e.key) == Some(e)
  {
    if rows[0] != e {
      assert e in rows[1..];
      FindListed(rows[1..], e);
    }
  }

  // What a merge does to one key.
  lemma {:induction false} MergeAt(reg: Registry, rows: seq<Entry>, k: Key)
    requires Distinct(rows)
    ensures var e := Find(rows, k);
            && (k in Merge(reg, rows) <==> k in reg || e.Some?)
            && (e.Some? ==> Merge(reg, rows)[k] == Settled(reg, e.value))
            && (e.None? && k in reg ==> Merge(reg, rows)[k] == reg[k])
    decreases |rows|
  {
    if rows != [] {
      MergeAt(MergeOne(reg, rows[0]), rows[1..], k);
    }
  }

  /** A merge inserts or rewrites exactly the rows it lists, leaves curated rows and unlisted rows
      as they were, and removes nothing. */
  lemma MergeEffect(reg: Registry, rows: seq<Entry>)
    requires Distinct(rows)
    ensures forall k :: k in Merge(reg, rows) <==> k in reg || exists e :: e in rows && e.key == k
    ensures forall e :: e in rows ==> e.key in Merge(reg, rows) && Merge(reg, rows)[e.key] == Settled(reg, e)
    ensures forall k :: k in reg && (forall e :: e in rows ==> e.key != k) ==> Merge(reg, rows)[k] == reg[k]
  {
    forall k ensures k in Merge(reg, rows) <==> k in reg || exists e :: e in rows && e.key == k {
      MergeAt(reg, rows, k);
    }
    forall e | e in rows ensures Merge(reg, rows)[e.key] == Settled(reg, e) {
      FindListed(rows, e);
      MergeAt(reg, rows, e.key);
    }
    forall k | k in reg && (forall e :: e in rows ==> e.key != k) ensures Merge(reg, rows)[k] == reg[k] {
      MergeAt(reg, rows, k);
    }
  }

  // The row came from a discovery or from an earlier sync, not from an operator.
  predicate FromPipeline(row: Row) {
    row.source == "auto_position_1" || row.source == "explicit_pk_config"
  }

  /** What a listed table ends with, by where its row came from: an operator's row stays, every other row
      takes the listed columns and is explicit from then on. */
  lemma ListedEndsWith(reg: Registry, rows: seq<Entry>, e: Entry)
    requires Distinct(rows) && e in rows
    ensures e.key in Merge(reg, rows)
    ensures Merge(reg, rows)[e.key] ==
      if e.key in reg && !FromPipeline(reg[e.key]) then reg[e.key] else Row(e.pk, "explicit_pk_config")
  {
    MergeEffect(reg, rows);
  }

  /** So a listed row keeps its value if and only if an operator set it or it agrees already. */
  lemma KeepsValueIff(reg: Registry, rows: seq<Entry>, e: Entry)
    requires Distinct(rows) && e in rows && e.key in reg
    ensures e.key in Merge(reg, rows)
    ensures Merge(reg, rows)[e.key] == reg[e.key] <==>
      !FromPipeline(reg[e.key]) || (reg[e.key].pk == e.pk && reg[e.key].source == "explicit_pk_config")
  {
    ListedEndsWith(reg, rows, e);
  }

  // Two registries with the effect of the same merge are the same.
  lemma MergeUnique(reg: Registry, rows: seq<Entry>, other: Registry)
    requires Distinct(rows)
    requires forall k :: k in other <==> k in reg || exists e :: e in rows && e.key == k
    requires forall e :: e in rows ==> e.key in other && other[e.key] == Settled(reg, e)
    requires forall k :: k in reg && (forall e :: e in rows ==> e.key != k) ==> k in other && other[k] == reg[k]
    ensures Merge(reg, rows) == other
  {
    MergeEffect(reg, rows);
    var merged := Merge(reg, rows);
    assert merged.Keys == other.Keys;
    forall k | k in merged ensures merged[k] == other[k] {
      if e :| e in rows && e.key == k {
      }
    }
  }

  /** A registry is unchanged by a merge exactly when every listed key is there, curated or
      already explicit with the listed columns. */
  lemma FixedPointIff(reg: Registry, rows: seq<Entry>)
    requires Distinct(rows)
    ensures Merge(reg, rows) == reg <==>
      forall e :: e in rows ==> e.key in reg && reg[e.key] == Settled(reg, e)
  {
    MergeEffect(reg, rows);
    if forall e :: e in rows ==> e.key in reg && reg[e.key] == Settled(reg, e) {
      MergeUnique(reg, rows, reg);
    }
  }

  lemma MergeTwice(reg: Registry, rows: seq<Entry>)
    requires Distinct(rows)
    ensures Merge(Merge(reg, rows), rows) == Merge(reg, rows)
  {
    MergeEffect(reg, rows);
    FixedPointIff(Merge(reg, rows), rows);
  }

  lemma {:induction false} MergeConcat(reg: Registry, a: seq<Entry>, b: seq<Entry>)
    ensures Merge(reg, a + b) == Merge(Merge(reg, a), b)
    decreases |a|
  {
    if a == [] {
      assert a + b == b;
    } else {
      assert (a + b)[1..] == a[1..] + b;
      MergeConcat(MergeOne(reg, a[0]), a[1..], b);
    }
  }

  lemma {:induction false} FindInPrefix(rows: seq<Entry>, n: nat, k: Key)
    requires n <= |rows|
    ensures Find(rows[..n], k).None? || Find(rows[..n], k) == Find(rows, k)
  {
    if n > 0 {
      assert rows[..n][1..] == rows[1..][..n - 1];
      FindInPrefix(rows[1..], n - 1, k);
    }
  }

  /** A sync cut off after any prefix of its rows and run again with the same file ends where an
      uninterrupted one does. */
  lemma CutThenRerun(reg: Registry, rows: seq<Entry>, n: nat)
    requires Distinct(rows) && n <= |rows|
    ensures Merge(Merge(reg, rows[..n]), rows) == Merge(reg, rows)
  {
    var once, twice := Merge(reg, rows), Merge(Merge(reg, rows[..n]), rows);
    forall k ensures (k in twice <==> k in once) && (k in once ==> twice[k] == once[k]) {
      CutThenRerunAt(reg, rows, n, k);
    }
  }

  lemma CutThenRerunAt(reg: Registry, rows: seq<Entry>, n: nat, k: Key)
    requires Distinct(rows) && n <= |rows|
    ensures var once, twice := Merge(reg, rows), Merge(Merge(reg, rows[..n]), rows);
            (k in twice <==> k in once) && (k in once ==> twice[k] == once[k])
  {
    FindInPrefix(rows, n, k);
    MergeAt(reg, rows[..n], k);
    MergeAt(Merge(reg, rows[..n]), rows, k);
    MergeAt(reg, rows, k);
  }

  // -------------------------------------------------------------------------
  // The gated sync
  // -------------------------------------------------------------------------

  // `versions` maps a project to the digest of the file it last applied. A digest stands for one
  // file: `contents` says which.
  datatype Meta = Meta(registry: Registry, versions: map<string, string>)

  // SELECT config_hash ... takes the first row of the catalog, whatever its project: `pick`.
  predicate Unchanged(m: Meta, digest: string, pick: string) {
    pick in m.versions && m.versions[pick] == digest && m.registry != map[]
  }

  function FullSync(m: Meta, project: string, digest: string, entries: seq<Entry>): Meta {
    if Rows(entries) == [] then m
    else Meta(Merge(m.registry, Rows(entries)), m.versions[project := digest])
  }

  function Sync(m: Meta, project: string, digest: string, pick: string, entries: seq<Entry>): Meta {
    if Unchanged(m, digest, pick) then m else FullSync(m, project, digest, entries)
  }

  // The rows of the first batches.
  function Batches(rows: seq<Entry>, batches: nat): seq<Entry> {
    rows[..if BATCH * batches < |rows| then BATCH * batches else |rows|]
  }

  // The same, stopped after `batches` MERGE statements and before the digest is stored.
  function CutFull(m: Meta, entries: seq<Entry>, batches: nat): Meta {
    m.(registry := Merge(m.registry, Batches(Rows(entries), batches)))
  }

  function CutSync(m: Meta, digest: string, pick: string, entries: seq<Entry>, batches: nat): Meta {
    if Unchanged(m, digest, pick) then m else CutFull(m, entries, batches)
  }

  function Discover(m: Meta, key: Key, column: string): Meta {
    if key in m.registry then m else m.(registry := m.registry[key := Row([column], AUTO)])
  }

  ghost predicate Files(contents: string -> seq<Entry>) {
    forall d :: Distinct(contents(d))
  }

  // The stored digest names a file the registry already agrees with.
  ghost predicate Applied(contents: string -> seq<Entry>, m: Meta, project: string) {
    project in m.versions ==>
      Merge(m.registry, Rows(contents(m.versions[project]))) == m.registry
  }

  /** Discovery leaves every row as it is, and the stored digest applied. */
  lemma DiscoverKeepsApplied(contents: string -> seq<Entry>, m: Meta, project: string, key: Key, column: string)
    requires Files(contents) && Applied(contents, m, project)
    ensures Applied(contents, Discover(m, key, column), project)
  {
    var after := Discover(m, key, column);
    if project in m.versions {
      var rows := Rows(contents(m.versions[project]));
      RowsDistinct(contents(m.versions[project]));
      FixedPointIff(m.registry, rows);
      FixedPointIff(after.registry, rows);
    }
  }

  class MetaTables {
    var registry: Registry
    var versions: map<string, string>

    ghost function Contents(): Meta
      reads this
    {
      Meta(registry, versions)
    }

    constructor ()
      ensures Contents() == Meta(map[], map[])
    {
      registry, versions := map[], map[];
    }

    /** The sync of the pipeline. It may be stopped after `limit` batches; a limit beyond the last
        batch lets it finish and store the digest. */
    method SeedFromConfig(project: string, digest: string, pick: string, entries: seq<Entry>, limit: nat)
      returns (finished: bool)
      modifies this
      ensures finished <==>
        Unchanged(old(Contents()), digest, pick) || Rows(entries) == [] || |Rows(entries)| <= 50 * (limit - 1)
      ensures Contents() ==
        if finished then Sync(old(Contents()), project, digest, pick, entries)
        else CutSync(old(Contents()), digest, pick, entries, limit)
    {
      ghost var before := Contents();
      if pick in versions && versions[pick] == digest && registry != map[] {
        return true;
      }
      var rows := Rows(entries);
      if rows == [] {
        return true;
      }
      var i, done := 0, 0;
      while i < |rows| && done < limit
        invariant 0 <= i <= |rows| && 0 <= done <= limit
        invariant i == if BATCH * done < |rows| then BATCH * done else |rows|
        invariant done > 0 ==> BATCH * (done - 1) < |rows|
        invariant versions == before.versions
        invariant registry == Merge(before.registry, rows[..i])
        decreases |rows| - i
      {
        var end := if i + BATCH < |rows| then i + BATCH else |rows|;
        assert rows[..end] == rows[..i] + rows[i..end];
        MergeConcat(before.registry, rows[..i], rows[i..end]);
        registry := Merge(registry, rows[i..end]);
        i, done := end, done + 1;
      }
      if i < |rows| || done == limit {
        return false;
      }
      assert rows[..i] == rows;
      versions := versions[project := digest];
      return true;
    }

    /** A CSV of an unlisted table: insert only, keyed on its first column. Every row there was stays
        as it was, and a digest that was applied stays applied, so the next sync may still skip. */
    method InsertRegistryRow(key: Key, column: string)
      modifies this
      ensures versions == old(versions)
      ensures registry.Keys == old(registry).Keys + {key}
      ensures forall k :: k in old(registry) ==> registry[k] == old(registry)[k]
      ensures key !in old(registry) ==> registry[key] == Row([column], AUTO)
      ensures forall contents: string -> seq<Entry>, project ::
        Files(contents) && Applied(contents, old(Contents()), project) ==> Applied(contents, Contents(), project)
      ensures Contents() == Discover(old(Contents()), key, column)
    {
      ghost var before := Contents();
      if key !in registry {
        registry := registry[key := Row([column], AUTO)];
      }
      forall contents: string -> seq<Entry>, project | Files(contents) && Applied(contents, before, project)
        ensures Applied(contents, Contents(), project)
      {
        DiscoverKeepsApplied(contents, before, project, key, column);
      }
    }
  }

  // -------------------------------------------------------------------------
  // Runs
  // -------------------------------------------------------------------------

  datatype Step =
    | SyncStep(project: string, digest: string, pick: string)
    | CutStep(digest: string, pick: string, batches: nat)
    | DiscoverStep(key: Key, column: string)
    | OverrideStep(key: Key, row: Row)

  // Operators write curated rows only; every sync runs for one project and is completed.
  predicate Legal(step: Step, project: string) {
    match step
    case SyncStep(p, _, pick) => p == project && pick == project
    case CutStep(_, _, _) => false
    case DiscoverStep(_, _) => true
    case OverrideStep(_, row) => !Updatable(row.source)
  }

  function Do(contents: string -> seq<Entry>, m: Meta, step: Step, gated: bool): Meta {
    match step
    case SyncStep(p, digest, pick) =>
      if gated then Sync(m, p, digest, pick, contents(digest)) else FullSync(m, p, digest, contents(digest))
    case CutStep(digest, pick, batches) =>
      if gated then CutSync(m, digest, pick, contents(digest), batches) else CutFull(m, contents(digest), batches)
    case DiscoverStep(key, column) => Discover(m, key, column)
    case OverrideStep(key, row) => m.(registry := m.registry[key := row])
  }

  function Run(contents: string -> seq<Entry>, m: Meta, steps: seq<Step>, gated: bool): Meta
    decreases |steps|
  {
    if steps == [] then m else Run(contents, Do(contents, m, steps[0], gated), steps[1..], gated)
  }

  ghost predicate AllLegal(steps: seq<Step>, project: string) {
    forall k :: 0 <= k < |steps| ==> Legal(steps[k], project)
  }

  lemma DoKeepsApplied(contents: string -> seq<Entry>, m: Meta, project: string, step: Step)
    requires Files(contents) && Applied(contents, m, project) && Legal(step, project)
    ensures Applied(contents, Do(contents, m, step, true), project)
    ensures Do(contents, m, step, true) == Do(contents, m, step, false)
  {
    var after := Do(contents, m, step, true);
    match step
    case SyncStep(_, digest, _) =>
      RowsDistinct(contents(digest));
      MergeTwice(m.registry, Rows(contents(digest)));
      if Unchanged(m, digest, project) {
        assert m.versions[project := digest] == m.versions;
      }
    case DiscoverStep(key, column) => DiscoverKeepsApplied(contents, m, project, key, column);
    case OverrideStep(_, _) =>
      if project in m.versions {
        var rows := Rows(contents(m.versions[project]));
        RowsDistinct(contents(m.versions[project]));
        FixedPointIff(m.registry, rows);
        FixedPointIff(after.registry, rows);
      }
  }

  /** The hash gate is sound: over completed syncs, discoveries and operator overrides of one
      project, skipping unchanged files gives the registry that merging every time gives. */
  lemma {:induction false} GateIsSound(contents: string -> seq<Entry>, m: Meta, project: string, steps: seq<Step>)
    requires Files(contents) && Applied(contents, m, project) && AllLegal(steps, project)
    ensures Run(contents, m, steps, true) == Run(contents, m, steps, false)
    ensures Applied(contents, Run(contents, m, steps, true), project)
    decreases |steps|
  {
    if steps != [] {
      DoKeepsApplied(contents, m, project, steps[0]);
      GateIsSound(contents, Do(contents, m, steps[0], true), project, steps[1..]);
    }
  }

  ghost predicate NeverOverrides(steps: seq<Step>, key: Key) {
    forall k :: 0 <= k < |steps| && steps[k].OverrideStep? ==> steps[k].key != key
  }

  /** A table found in its CSV first and listed in pk_config.json later gets its listed key: whatever else is
      synced, cut off or discovered between, as long as no operator takes it over, a completed sync that is not
      skipped leaves it with the listed columns, marked explicit. */
  lemma DiscoveredGetsListed(
    contents: string -> seq<Entry>, m: Meta, column: string, between: seq<Step>, gated: bool, e: Entry,
    project: string, digest: string, pick: string)
    requires Files(contents) && e.key !in m.registry && NeverOverrides(between, e.key)
    requires e in contents(digest) && e.pk != []
    ensures var found := Do(contents, m, DiscoverStep(e.key, column), gated);
            var before := Run(contents, found, between, gated);
            && found.registry == m.registry[e.key := Row([column], "auto_position_1")]
            && (!gated || !Unchanged(before, digest, pick) ==>
                  var after := Do(contents, before, SyncStep(project, digest, pick), gated);
                  && e.key in after.registry && after.registry[e.key] == Row(e.pk, "explicit_pk_config")
                  && project in after.versions && after.versions[project] == digest)
  {
    var found := Do(contents, m, DiscoverStep(e.key, column), gated);
    StaysFromPipeline(contents, found, between, gated, e.key);
    RowsDistinct(contents(digest));
    ListedEndsWith(Run(contents, found, between, gated).registry, Rows(contents(digest)), e);
  }

  // A row no operator touches stays the pipeline's.
  lemma {:induction false} StaysFromPipeline(
    contents: string -> seq<Entry>, m: Meta, steps: seq<Step>, gated: bool, key: Key)
    requires Files(contents) && NeverOverrides(steps, key)
    requires key in m.registry && FromPipeline(m.registry[key])
    ensures var r := Run(contents, m, steps, gated).registry; key in r && FromPipeline(r[key])
    decreases |steps|
  {
    if steps != [] {
      if steps[0].SyncStep? || steps[0].CutStep? {
        var rows := Rows(contents(steps[0].digest));
        RowsDistinct(contents(steps[0].digest));
        MergeAt(m.registry, rows, key);
        if steps[0].CutStep? {
          MergeAt(m.registry, Batches(rows, steps[0].batches), key);
        }
      }
      StaysFromPipeline(contents, Do(contents, m, steps[0], gated), steps[1..], gated, key);
    }
  }

  /** When the gate lets a sync through: a digest that differs or is missing, or an empty registry. A file
      without a row then still changes nothing, and any other file stores its digest. */
  lemma SyncSkipsIff(m: Meta, project: string, digest: string, pick: string, entries: seq<Entry>)
    requires Distinct(entries)
    ensures var after := Sync(m, project, digest, pick, entries);
            if (pick in m.versions && m.versions[pick] == digest && m.registry != map[]) ||
               forall e :: e in entries ==> e.pk == []
            then after == m
            else after.versions == m.versions[project := digest] &&
                 forall e :: e in entries && e.pk != [] ==>
                   e.key in after.registry && (e.key !in m.registry ==> after.registry[e.key].pk == e.pk)
  {
    var rows := Rows(entries);
    RowsDistinct(entries);
    if rows != [] {
      assert rows[0] in rows;
    }
    MergeEffect(m.registry, rows);
  }

  /** A curated row stays as the operator left it, whatever is synced or discovered. */
  lemma {:induction false} CuratedRowsStay(
    contents: string -> seq<Entry>, m: Meta, steps: seq<Step>, gated: bool, key: Key)
    requires Files(contents) && NeverOverrides(steps, key)
    requires key in m.registry && !Updatable(m.registry[key].source)
    ensures var r := Run(contents, m, steps, gated).registry; key in r && r[key] == m.registry[key]
    decreases |steps|
  {
    if steps != [] {
      if steps[0].SyncStep? || steps[0].CutStep? {
        var rows := Rows(contents(steps[0].digest));
        RowsDistinct(contents(steps[0].digest));
        MergeAt(m.registry, rows, key);
        if steps[0].CutStep? {
          MergeAt(m.registry, Batches(rows, steps[0].batches), key);
        }
      }
      CuratedRowsStay(contents, Do(contents, m, steps[0], gated), steps[1..], gated, key);
    }
  }

  // -------------------------------------------------------------------------
  // Where the gate goes wrong
  // -------------------------------------------------------------------------

  /** After a sync of another file was cut off, the gate still takes the old digest for the truth.
      Skipping the old file is then right exactly when every row the cut sync wrote is curated,
      unlisted in the old file, or listed there with the same columns. */
  lemma GateAfterCutIff(m: Meta, applied: seq<Entry>, written: seq<Entry>)
    requires Distinct(applied) && Distinct(written) && Merge(m.registry, applied) == m.registry
    ensures var half := Merge(m.registry, written);
            Merge(half, applied) == half <==>
            forall e, a :: e in written && a in applied && e.key == a.key ==>
              a.pk == e.pk || (a.key in m.registry && !Updatable(m.registry[a.key].source))
  {
    var half := Merge(m.registry, written);
    MergeEffect(m.registry, written);
    FixedPointIff(m.registry, applied);
    FixedPointIff(half, applied);
    if forall e, a :: e in written && a in applied && e.key == a.key ==>
         a.pk == e.pk || (a.key in m.registry && !Updatable(m.registry[a.key].source))
    {
      forall a | a in applied ensures a.key in half && half[a.key] == Settled(half, a) {
        if e :| e in written && e.key == a.key {
          assert half[e.key] == Settled(m.registry, e);
        } else {
          assert half[a.key] == m.registry[a.key];
        }
      }
    }
  }

  /** One table, two files: applying the first, cutting the second off after its only batch, and
      offering the first again is skipped, though a full merge would restore its columns. */
  lemma CutOfAnotherFileFoolsGate(p: string, d1: string, d2: string, k: Key, a: string, b: string)
    requires d1 != d2 && a != b
    ensures var f1, f2 := [Entry(k, [a])], [Entry(k, [b])];
            var m := CutSync(FullSync(Meta(map[], map[]), p, d1, f1), d2, p, f2, 1);
            Unchanged(m, d1, p) && Merge(m.registry, Rows(f1)) != m.registry
  {
    MergeSingle(map[], Entry(k, [a]));
    MergeSingle(map[k := Row([a], EXPLICIT)], Entry(k, [b]));
    MergeSingle(map[k := Row([b], EXPLICIT)], Entry(k, [a]));
    assert [Entry(k, [b])][..1] == [Entry(k, [b])];
  }

  lemma MergeSingle(reg: Registry, e: Entry)
    requires e.pk != []
    ensures Rows([e]) == [e] && Merge(reg, [e]) == MergeOne(reg, e)
  {
    assert [e][1..] == [];
  }

  /** Two projects in one catalog: the digest of the first answers for a registry the second has
      since rewritten. */
  lemma TwoProjectsFoolGate(p: string, q: string, d1: string, d2: string, k: Key, a: string, b: string)
    requires p != q && d1 != d2 && a != b
    ensures var f1, f2 := [Entry(k, [a])], [Entry(k, [b])];
            var m := Sync(FullSync(Meta(map[], map[]), p, d1, f1), q, d2, p, f2);
            Unchanged(m, d1, p) && Merge(m.registry, Rows(f1)) != m.registry
  {
    MergeSingle(map[], Entry(k, [a]));
    MergeSingle(map[k := Row([a], EXPLICIT)], Entry(k, [b]));
    MergeSingle(map[k := Row([b], EXPLICIT)], Entry(k, [a]));
  }
}
