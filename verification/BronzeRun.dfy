/** One run of the snapshot pipeline: every CSV is gated, counted and given a status row, then the
    heartbeat sweep covers the registry rows that had no CSV. */
module BronzeRun {
  import opened Wrappers
  import opened PyText
  import opened SchemaEvolution
  import opened SchemaResolution

  datatype Status = Ok | PkMissingInCsv | CsvUnreadable | TypeIncompat | SkippedNoCsv | NotInSchemaJson

  // What reading the header of a CSV comes to. Reading an empty header fails.
  datatype Header = NoSnapshotFolder | NoFile | Unreadable | Columns(names: seq<string>)

  // `run` tells which run wrote the row last: the heartbeat. `diff` is the column diff recorded last.
  datatype StatusRow = StatusRow(status: Status, run: nat, diff: Diff)

  type StatusTable = map<Name, StatusRow>

  // The primary keys of one catalog, by table.
  type Registry = map<Name, seq<string>>

  datatype Counts = Counts(
    ok: nat, pkMissing: nat, unreadable: nat, typeIncompat: nat, skipped: nat, notInSchema: nat, discovered: nat,
    schemaChanges: nat)

  const ZERO := Counts(0, 0, 0, 0, 0, 0, 0, 0)

  function Bump(c: Counts, s: Status, n: nat): Counts {
    match s
    case Ok => c.(ok := c.ok + n)
    case PkMissingInCsv => c.(pkMissing := c.pkMissing + n)
    case CsvUnreadable => c.(unreadable := c.unreadable + n)
    case TypeIncompat => c.(typeIncompat := c.typeIncompat + n)
    case SkippedNoCsv => c.(skipped := c.skipped + n)
    case NotInSchemaJson => c.(notInSchema := c.notInSchema + n)
  }

  // The six status counters together.
  function Total(c: Counts): nat {
    c.ok + c.pkMissing + c.unreadable + c.typeIncompat + c.skipped + c.notInSchema
  }

  // -------------------------------------------------------------------------
  // One CSV
  // -------------------------------------------------------------------------

  // What is loaded before the loop: the registry, the schema names in it, whether schema.json changed,
  // the reconciled structs, and the Bronze tables as they are.
  datatype Lookup = Lookup(
    rows: map<string, Row>, known: set<string>, changed: bool, evolved: map<string, Struct>,
    tables: map<string, Struct>)

  // Where a file belongs, how gating it ends, the column a newly found table is keyed on, and the diff.
  datatype Outcome = Outcome(name: Name, status: Status, discovered: Option<string>, diff: Diff)

  // The diff the gate records: the reconciled struct against the same table once more.
  function ColumnDiff(flat: string, name: Name, l: Lookup): Diff {
    var key := Lower(Flat(name));
    if l.changed && key in l.evolved && flat in l.tables then EvolvedDiff(l.evolved[key], l.tables[flat]) else NO_DIFF
  }

  predicate AllIn(pk: seq<string>, header: seq<string>) {
    forall c :: c in pk ==> c in header
  }

  function Gate(flat: string, l: Lookup, header: Header): Outcome {
    var name := Resolve(flat, l.rows, l.known);
    match header
    case NoSnapshotFolder => Outcome(name, SkippedNoCsv, None, NO_DIFF)
    case NoFile => Outcome(name, SkippedNoCsv, None, NO_DIFF)
    case Unreadable => Outcome(name, CsvUnreadable, None, NO_DIFF)
    case Columns(h) =>
      if flat in l.rows then
        if AllIn(l.rows[flat].pk, h) then Outcome(name, Ok, None, ColumnDiff(flat, name, l))
        else Outcome(name, PkMissingInCsv, None, NO_DIFF)
      else if name.schema == UNKNOWN then Outcome(name, NotInSchemaJson, None, NO_DIFF)
      else if h == [] || h[0] == "" then Outcome(name, CsvUnreadable, None, NO_DIFF)
      else Outcome(name, Ok, Some(h[0]), ColumnDiff(flat, name, l))
  }

  /** A table that is found in this run is keyed on a column it has, so it is never turned away for
      a missing key; a registered table is accepted exactly when its key columns are all there. */
  lemma GateAccepts(flat: string, l: Lookup, h: seq<string>)
    ensures var o := Gate(flat, l, Columns(h));
            && (o.discovered.Some? ==> o.status == Ok && o.discovered.value in h && flat !in l.rows)
            && (flat in l.rows ==> (o.status == Ok <==> AllIn(l.rows[flat].pk, h)))
            && (o.status == PkMissingInCsv ==> exists c :: c in l.rows[flat].pk && c !in h)
  {
  }

  // The file belongs to no known schema.
  predicate Homeless(flat: string, l: Lookup) {
    flat !in l.rows && Split(flat, l.known).schema == "unknown"
  }

  // A new table of a known schema.
  predicate Newcomer(flat: string, l: Lookup) {
    flat !in l.rows && Split(flat, l.known).schema != "unknown"
  }

  predicate NoFirstColumn(h: seq<string>) {
    h == [] || h[0] == ""
  }

  /** How gating a CSV ends, status by status: skipped without a file; unreadable if it cannot be read, or if
      it is new and has no first column; not in schema.json if it is new and of no known schema; a key missing
      if it is registered and one of its key columns is not in the header; and well in all other cases. The
      gate itself never finds types incompatible. */
  lemma StatusIff(flat: string, l: Lookup, header: Header)
    ensures var o := Gate(flat, l, header);
            && (o.status == SkippedNoCsv <==> header.NoSnapshotFolder? || header.NoFile?)
            && (o.status == CsvUnreadable <==>
                  header.Unreadable? || (header.Columns? && Newcomer(flat, l) && NoFirstColumn(header.names)))
            && (o.status == NotInSchemaJson <==> header.Columns? && Homeless(flat, l))
            && (o.status == PkMissingInCsv <==>
                  header.Columns? && flat in l.rows && exists c :: c in l.rows[flat].pk && c !in header.names)
            && (o.status == Ok <==>
                  header.Columns? &&
                  if flat in l.rows then forall c :: c in l.rows[flat].pk ==> c in header.names
                  else Newcomer(flat, l) && !NoFirstColumn(header.names))
            && o.status != TypeIncompat
  {
  }

  /** A table is found exactly when it is new, of a known schema and has a first column, and that column
      becomes its key; the row is written for the registered name, or for the name the stem splits into. */
  lemma FoundIff(flat: string, l: Lookup, header: Header)
    ensures var o := Gate(flat, l, header);
            && o.name == (if flat in l.rows then l.rows[flat].name else Split(flat, l.known))
            && o.discovered ==
                 if header.Columns? && Newcomer(flat, l) && !NoFirstColumn(header.names) then Some(header.names[0])
                 else None
  {
  }

  /** Whatever columns are absent from schema.json or kept at an old type, the diff recorded for a
      table never says so: the gate compares the reconciled struct with the table. It is recorded exactly for a
      table that passes while schema.json has changed, and then says all that was added and widened. */
  lemma RecordedDiffIsPartial(flat: string, l: Lookup, header: Header, forma: Struct)
    requires flat in l.tables && Unique(forma) && Unique(l.tables[flat])
    requires var key := Lower(Flat(Gate(flat, l, header).name));
             key in l.evolved ==> l.evolved[key] == Evolved(forma, l.tables[flat])
    ensures var o, whole := Gate(flat, l, header), EvolvedDiff(forma, l.tables[flat]);
            && o.diff.absent == [] && o.diff.keptOld == []
            && if o.status == Ok && l.changed && Lower(Flat(o.name)) in l.evolved
               then o.diff.added == whole.added && o.diff.widened == whole.widened
               else o.diff.added == [] && o.diff.widened == []
  {
    SecondPass(forma, l.tables[flat]);
  }

  // A table that does not exist yet has no diff.
  lemma NoTableNoDiff(flat: string, l: Lookup, header: Header)
    requires flat !in l.tables
    ensures Gate(flat, l, header).diff == NO_DIFF
  {
  }

  // -------------------------------------------------------------------------
  // A whole run, as a specification
  // -------------------------------------------------------------------------

  // A CSV with the table name it stands for.
  datatype Csv = Csv(flat: string, header: Header)

  function OutcomeOf(l: Lookup, c: Csv): Outcome {
    Gate(c.flat, l, c.header)
  }

  function Outcomes(l: Lookup, csvs: seq<Csv>): seq<Outcome> {
    seq(|csvs|, i requires 0 <= i < |csvs| => OutcomeOf(l, csvs[i]))
  }

  function NamesOf(os: seq<Outcome>): set<Name> {
    set o | o in os :: o.name
  }

  // The tables a loop over the CSVs leaves.
  datatype Tables = Tables(registry: Registry, status: StatusTable, counts: Counts)

  function AfterCsv(run: nat, t: Tables, o: Outcome): Tables {
    Tables(if o.discovered.None? || o.name in t.registry then t.registry
           else t.registry[o.name := [o.discovered.value]],
           t.status[o.name := StatusRow(o.status, run, o.diff)],
           Bump(t.counts, o.status, 1).(
             discovered := t.counts.discovered + (if o.discovered.Some? then 1 else 0),
             schemaChanges := t.counts.schemaChanges + (if o.diff != NO_DIFF then 1 else 0)))
  }

  function AfterLoop(run: nat, t: Tables, os: seq<Outcome>): Tables {
    if os == [] then t else AfterCsv(run, AfterLoop(run, t, os[..|os| - 1]), os[|os| - 1])
  }

  // The sweep leaves the diff of a row as it was.
  function DiffBefore(status: StatusTable, n: Name): Diff {
    if n in status then status[n].diff else NO_DIFF
  }

  function SkippedRows(run: nat, status: StatusTable, swept: set<Name>): StatusTable {
    map n | n in swept :: StatusRow(SkippedNoCsv, run, DiffBefore(status, n))
  }

  function AfterSweep(run: nat, t: Tables, processed: set<Name>): Tables {
    var swept := t.registry.Keys - processed;
    t.(status := t.status + SkippedRows(run, t.status, swept),
       counts := Bump(t.counts, SkippedNoCsv, |swept|))
  }

  function AfterRun(run: nat, t: Tables, os: seq<Outcome>): Tables {
    AfterSweep(run, AfterLoop(run, t, os), NamesOf(os))
  }

  // What the loop writes last for a name, if it writes anything.
  function LastStatus(os: seq<Outcome>, name: Name): Option<Outcome> {
    if os == [] then None
    else if os[|os| - 1].name == name then Some(os[|os| - 1])
    else LastStatus(os[..|os| - 1], name)
  }

  lemma Unsnoc(os: seq<Outcome>)
    requires os != []
    ensures NamesOf(os) == NamesOf(os[..|os| - 1]) + {os[|os| - 1].name}
  {
    assert os == os[..|os| - 1] + [os[|os| - 1]];
  }

  lemma {:induction false} LastStatusIff(os: seq<Outcome>, name: Name)
    ensures LastStatus(os, name).Some? <==> name in NamesOf(os)
  {
    if os != [] {
      LastStatusIff(os[..|os| - 1], name);
      Unsnoc(os);
    }
  }

  lemma {:induction false} LoopStatus(run: nat, t: Tables, os: seq<Outcome>, name: Name)
    ensures var u, last := AfterLoop(run, t, os).status, LastStatus(os, name);
            if last.Some? then name in u && u[name] == StatusRow(last.value.status, run, last.value.diff)
            else (name in u <==> name in t.status) && (name in u ==> u[name] == t.status[name])
  {
    if os != [] {
      LoopStatus(run, t, os[..|os| - 1], name);
    }
  }

  /** After the loop and the sweep every registry row of the catalog carries this run's stamp, a row
      the loop wrote is still as the loop wrote it, and other rows are untouched. */
  lemma HeartbeatIsComplete(run: nat, t: Tables, os: seq<Outcome>, name: Name)
    ensures var u, last := AfterRun(run, t, os), LastStatus(os, name);
            && (name in u.registry ==> name in u.status && u.status[name].run == run)
            && (last.Some? ==> name in u.status && u.status[name] == StatusRow(last.value.status, run, last.value.diff))
            && (last.None? && name in u.registry ==>
                  u.status[name] ==
                    StatusRow(SkippedNoCsv, run, if name in t.status then t.status[name].diff else NO_DIFF))
            && (last.None? && name !in u.registry ==>
                  (name in u.status <==> name in t.status) && (name in u.status ==> u.status[name] == t.status[name]))
  {
    LastStatusIff(os, name);
    LoopStatus(run, t, os, name);
  }

  /** The six counters account for every CSV and for every row the sweep stamped. */
  lemma CountsAddUp(run: nat, t: Tables, os: seq<Outcome>)
    ensures var u := AfterRun(run, t, os);
            Total(u.counts) == Total(t.counts) + |os| + |u.registry.Keys - NamesOf(os)|
  {
    LoopCounts(run, t, os);
  }

  lemma {:induction false} LoopCounts(run: nat, t: Tables, os: seq<Outcome>)
    ensures Total(AfterLoop(run, t, os).counts) == Total(t.counts) + |os|
  {
    if os != [] {
      LoopCounts(run, t, os[..|os| - 1]);
    }
  }

  /** A run registers only what it found, and never changes the key of a registered table. */
  lemma {:induction false} KeysAreKept(run: nat, t: Tables, os: seq<Outcome>)
    ensures var r := AfterLoop(run, t, os).registry;
            && t.registry.Keys <= r.Keys <= t.registry.Keys + NamesOf(os)
            && forall n :: n in t.registry ==> r[n] == t.registry[n]
  {
    if os != [] {
      KeysAreKept(run, t, os[..|os| - 1]);
      Unsnoc(os);
    }
  }

  // The i-th CSV is the first to find the table.
  ghost predicate FindsFirst(os: seq<Outcome>, name: Name, i: nat)
    requires i < |os|
  {
    && os[i].name == name && os[i].discovered.Some?
    && forall j :: 0 <= j < i && os[j].name == name ==> os[j].discovered.None?
  }

  // The registry after the loop.
  lemma {:induction false} LoopRegisters(run: nat, t: Tables, os: seq<Outcome>, i: nat)
    requires i < |os| && FindsFirst(os, os[i].name, i) && os[i].name !in t.registry
    ensures var r := AfterLoop(run, t, os).registry; os[i].name in r && r[os[i].name] == [os[i].discovered.value]
  {
    var init := os[..|os| - 1];
    if i < |os| - 1 {
      LoopRegisters(run, t, init, i);
    } else {
      StaysUnregistered(run, t, init, os[i].name);
    }
  }

  lemma {:induction false} StaysUnregistered(run: nat, t: Tables, os: seq<Outcome>, name: Name)
    requires name !in t.registry && forall o :: o in os && o.name == name ==> o.discovered.None?
    ensures name !in AfterLoop(run, t, os).registry
  {
    if os != [] {
      assert os[|os| - 1] in os;
      StaysUnregistered(run, t, os[..|os| - 1], name);
    }
  }

  /** The registry after a run: what was in it stays, a table that was not is in it exactly if a CSV found it,
      and then under the first column of the first such CSV. */
  lemma RegistryAfterRun(run: nat, t: Tables, os: seq<Outcome>, name: Name)
    ensures var r := AfterRun(run, t, os).registry;
            && (name in t.registry ==> name in r && r[name] == t.registry[name])
            && (name in r <==> name in t.registry || exists o :: o in os && o.name == name && o.discovered.Some?)
            && (name !in t.registry ==>
                  forall i :: 0 <= i < |os| && FindsFirst(os, name, i) ==> r[name] == [os[i].discovered.value])
  {
    KeysAreKept(run, t, os);
    if name !in t.registry {
      NewInRegistry(run, t, os, name);
    }
  }

  lemma NewInRegistry(run: nat, t: Tables, os: seq<Outcome>, name: Name)
    requires name !in t.registry
    ensures var r := AfterLoop(run, t, os).registry;
            && (name in r <==> exists o :: o in os && o.name == name && o.discovered.Some?)
            && (forall i :: 0 <= i < |os| && FindsFirst(os, name, i) ==>
                  name in r && r[name] == [os[i].discovered.value])
  {
    if exists o :: o in os && o.name == name && o.discovered.Some? {
      var i := FirstFound(os, name);
      LoopRegisters(run, t, os, i);
    } else {
      StaysUnregistered(run, t, os, name);
    }
    forall i | 0 <= i < |os| && FindsFirst(os, name, i)
      ensures name in AfterLoop(run, t, os).registry
      ensures AfterLoop(run, t, os).registry[name] == [os[i].discovered.value]
    {
      LoopRegisters(run, t, os, i);
    }
  }

  lemma {:induction false} FirstFound(os: seq<Outcome>, name: Name) returns (i: nat)
    requires exists o :: o in os && o.name == name && o.discovered.Some?
    ensures i < |os| && FindsFirst(os, name, i)
  {
    if os[0].name == name && os[0].discovered.Some? {
      i := 0;
    } else {
      var o :| o in os && o.name == name && o.discovered.Some?;
      assert o in os[1..];
      i := FirstFound(os[1..], name);
      i := i + 1;
    }
  }

  // No other CSV of the run stands for the same table.
  ghost predicate OnlyCsv(l: Lookup, csvs: seq<Csv>, i: nat)
    requires i < |csvs|
  {
    forall j :: 0 <= j < |csvs| && OutcomeOf(l, csvs[j]).name == OutcomeOf(l, csvs[i]).name ==> j == i
  }

  lemma {:induction false} LastStatusAt(os: seq<Outcome>, i: nat)
    requires i < |os| && forall j :: i < j < |os| ==> os[j].name != os[i].name
    ensures LastStatus(os, os[i].name) == Some(os[i])
  {
    if i < |os| - 1 {
      LastStatusAt(os[..|os| - 1], i);
    }
  }

  /** A run over the CSVs of a folder, for a table with one of them: its status row is that of its gate,
      stamped by this run. If it is new, of a known schema and has a first column, it ends well and in the
      registry under that column; if it is not, the registry says of it what it said before. */
  lemma NewTableIsRegistered(run: nat, l: Lookup, t: Tables, csvs: seq<Csv>, i: nat)
    requires i < |csvs| && OnlyCsv(l, csvs, i)
    ensures var c, u := csvs[i], AfterRun(run, t, Outcomes(l, csvs));
            var o := OutcomeOf(l, c);
            && o.name in u.status && u.status[o.name] == StatusRow(o.status, run, o.diff)
            && (if c.header.Columns? && Newcomer(c.flat, l) && !NoFirstColumn(c.header.names)
                then && u.status[o.name].status == Ok && o.name == Split(c.flat, l.known) && o.name in u.registry
                     && u.registry[o.name] ==
                          if o.name in t.registry then t.registry[o.name] else [c.header.names[0]]
                else (o.name in u.registry <==> o.name in t.registry) &&
                     (o.name in t.registry ==> u.registry[o.name] == t.registry[o.name]))
  {
    OnlyOutcome(run, t, Outcomes(l, csvs), i);
    FoundIff(csvs[i].flat, l, csvs[i].header);
    StatusIff(csvs[i].flat, l, csvs[i].header);
  }

  // An outcome whose name no other one has.
  lemma OnlyOutcome(run: nat, t: Tables, os: seq<Outcome>, i: nat)
    requires i < |os| && forall j :: 0 <= j < |os| && os[j].name == os[i].name ==> j == i
    ensures var o, u := os[i], AfterRun(run, t, os);
            && o.name in u.status && u.status[o.name] == StatusRow(o.status, run, o.diff)
            && (o.name in u.registry <==> o.name in t.registry || o.discovered.Some?)
            && (o.name in u.registry ==>
                  u.registry[o.name] ==
                    if o.name in t.registry then t.registry[o.name] else [o.discovered.value])
  {
    var o := os[i];
    LastStatusAt(os, i);
    HeartbeatIsComplete(run, t, os, o.name);
    RegistryAfterRun(run, t, os, o.name);
    assert o.discovered.Some? ==> FindsFirst(os, o.name, i);
  }

  // -------------------------------------------------------------------------
  // The counters, one by one
  // -------------------------------------------------------------------------

  function Counter(c: Counts, s: Status): nat {
    if s == Ok then c.ok
    else if s == PkMissingInCsv then c.pkMissing
    else if s == CsvUnreadable then c.unreadable
    else if s == TypeIncompat then c.typeIncompat
    else if s == SkippedNoCsv then c.skipped
    else c.notInSchema
  }

  function StatusesOf(os: seq<Outcome>): multiset<Status> {
    multiset(seq(|os|, i requires 0 <= i < |os| => os[i].status))
  }

  lemma StatusesSnoc(os: seq<Outcome>)
    requires os != []
    ensures StatusesOf(os) == StatusesOf(os[..|os| - 1]) + multiset{os[|os| - 1].status}
  {
    var all := seq(|os|, i requires 0 <= i < |os| => os[i].status);
    var init := os[..|os| - 1];
    assert all == seq(|init|, i requires 0 <= i < |init| => init[i].status) + [os[|os| - 1].status];
  }

  lemma BumpCounter(c: Counts, b: Status, n: nat, s: Status)
    ensures Counter(Bump(c, b, n), s) == Counter(c, s) + if s == b then n else 0
  {
  }

  lemma CsvCounter(run: nat, t: Tables, o: Outcome, s: Status)
    ensures Counter(AfterCsv(run, t, o).counts, s) == Counter(t.counts, s) + if s == o.status then 1 else 0
  {
    BumpCounter(t.counts, o.status, 1, s);
  }

  lemma SweepCounter(run: nat, t: Tables, processed: set<Name>, s: Status)
    ensures Counter(AfterSweep(run, t, processed).counts, s) ==
      Counter(t.counts, s) + if s == SkippedNoCsv then |t.registry.Keys - processed| else 0
  {
    BumpCounter(t.counts, SkippedNoCsv, |t.registry.Keys - processed|, s);
  }

  lemma {:induction false} LoopCounter(run: nat, t: Tables, os: seq<Outcome>, s: Status)
    ensures Counter(AfterLoop(run, t, os).counts, s) == Counter(t.counts, s) + StatusesOf(os)[s]
  {
    if os != [] {
      LoopCounter(run, t, os[..|os| - 1], s);
      StatusesSnoc(os);
      CsvCounter(run, AfterLoop(run, t, os[..|os| - 1]), os[|os| - 1], s);
    }
  }

  /** Each counter is raised by the number of CSVs that ended with its status, the one of skipped tables also
      by the rows the sweep stamped. */
  lemma EachCounter(run: nat, t: Tables, os: seq<Outcome>, s: Status)
    ensures var u := AfterRun(run, t, os);
            Counter(u.counts, s) == Counter(t.counts, s) + StatusesOf(os)[s] +
                                    if s == SkippedNoCsv then |u.registry.Keys - NamesOf(os)| else 0
  {
    LoopCounter(run, t, os, s);
    SweepCounter(run, AfterLoop(run, t, os), NamesOf(os), s);
  }

  function Finders(os: seq<Outcome>): set<nat> {
    set i | 0 <= i < |os| && os[i].discovered.Some? :: i
  }

  function Changers(os: seq<Outcome>): set<nat> {
    set i | 0 <= i < |os| && os[i].diff != NO_DIFF :: i
  }

  lemma FindersSnoc(os: seq<Outcome>)
    requires os != []
    ensures |Finders(os)| == |Finders(os[..|os| - 1])| + if os[|os| - 1].discovered.Some? then 1 else 0
  {
    var n, before := |os| - 1, Finders(os[..|os| - 1]);
    if os[n].discovered.Some? {
      assert Finders(os) == before + {n};
    } else {
      assert Finders(os) == before;
    }
  }

  lemma ChangersSnoc(os: seq<Outcome>)
    requires os != []
    ensures |Changers(os)| == |Changers(os[..|os| - 1])| + if os[|os| - 1].diff != NO_DIFF then 1 else 0
  {
    var n, before := |os| - 1, Changers(os[..|os| - 1]);
    if os[n].diff != NO_DIFF {
      assert Changers(os) == before + {n};
    } else {
      assert Changers(os) == before;
    }
  }

  /** The tables counted as discovered are the CSVs that found one, and those counted as changed the CSVs
      with a diff that says anything. */
  lemma {:induction false} FoundCounter(run: nat, t: Tables, os: seq<Outcome>)
    ensures var c := AfterRun(run, t, os).counts;
            && c.discovered == t.counts.discovered + |Finders(os)|
            && c.schemaChanges == t.counts.schemaChanges + |Changers(os)|
  {
    if os != [] {
      FoundCounter(run, t, os[..|os| - 1]);
      FindersSnoc(os);
      ChangersSnoc(os);
    }
  }

  // The tables once a found table has its registry row.
  function AfterFound(t: Tables, name: Name, found: Option<string>): Tables {
    if found.None? then t
    else
      t.(registry := if name in t.registry then t.registry else t.registry[name := [found.value]],
         counts := t.counts.(discovered := t.counts.discovered + 1))
  }

  lemma FoundThenOk(run: nat, t: Tables, name: Name, found: Option<string>, diff: Diff)
    ensures AfterCsv(run, AfterFound(t, name, found), Outcome(name, Ok, None, diff)) ==
            AfterCsv(run, t, Outcome(name, Ok, found, diff))
  {
  }

  lemma LoopStep(run: nat, t: Tables, os: seq<Outcome>, i: nat)
    requires i < |os|
    ensures AfterLoop(run, t, os[..i + 1]) == AfterCsv(run, AfterLoop(run, t, os[..i]), os[i])
    ensures NamesOf(os[..i + 1]) == NamesOf(os[..i]) + {os[i].name}
  {
    assert os[..i + 1][..i] == os[..i];
    Unsnoc(os[..i + 1]);
  }

  // -------------------------------------------------------------------------
  // The notebook
  // -------------------------------------------------------------------------

  class Run {
    const run: nat
    const lookup: Lookup
    var registry: Registry
    var status: StatusTable
    var counts: Counts
    var processed: set<Name>

    ghost function Contents(): Tables
      reads this
    {
      Tables(registry, status, counts)
    }

    constructor (run: nat, lookup: Lookup, registry: Registry, status: StatusTable)
      ensures this.run == run && this.lookup == lookup
      ensures Contents() == Tables(registry, status, ZERO) && processed == {}
    {
      this.run, this.lookup, this.registry, this.status := run, lookup, registry, status;
      counts, processed := ZERO, {};
    }

    // MERGE of one status row.
    method RecordStatus(name: Name, s: Status, diff: Diff)
      modifies this`status, this`counts
      ensures status == old(status)[name := StatusRow(s, run, diff)]
      ensures counts == Bump(old(counts), s, 1)
      ensures diff == NO_DIFF ==> Contents() == AfterCsv(run, old(Contents()), Outcome(name, s, None, NO_DIFF))
    {
      status := status[name := StatusRow(s, run, diff)];
      counts := Bump(counts, s, 1);
    }

    method InsertRegistryRow(name: Name, column: string)
      modifies this`registry, this`counts
      ensures Contents() == AfterFound(old(Contents()), name, Some(column))
    {
      if name !in registry {
        registry := registry[name := [column]];
      }
      counts := counts.(discovered := counts.discovered + 1);
    }

    // The name the main loop marks as processed: the very one the gate writes a status for.
    method ResolveSchemaTable(c: Csv) returns (name: Name)
      ensures name == OutcomeOf(lookup, c).name
    {
      if c.flat in lookup.rows {
        name := lookup.rows[c.flat].name;
      } else {
        name := Split(c.flat, lookup.known);
      }
    }

    // The column diff of a table that passed, counted if it says anything.
    method DiffColumns(flat: string, name: Name) returns (diff: Diff)
      modifies this`counts
      ensures diff == ColumnDiff(flat, name, lookup)
      ensures counts == old(counts).(schemaChanges := old(counts).schemaChanges + if diff != NO_DIFF then 1 else 0)
    {
      diff := NO_DIFF;
      var key := Lower(Flat(name));
      if lookup.changed && key in lookup.evolved {
        var fields;
        fields, diff := BuildEvolvedSchema(
          lookup.evolved[key], if flat in lookup.tables then Some(lookup.tables[flat]) else None);
        if diff != NO_DIFF {
          counts := counts.(schemaChanges := counts.schemaChanges + 1);
        }
      }
    }

    // The table passed: compute its diff and record success.
    method RegisterFlow(flat: string, name: Name)
      modifies this`status, this`counts
      ensures Contents() == AfterCsv(run, old(Contents()), Outcome(name, Ok, None, ColumnDiff(flat, name, lookup)))
    {
      var diff := DiffColumns(flat, name);
      RecordStatus(name, Ok, diff);
    }

    /** Gate one CSV. Every way out writes one status row for the name the file resolves to and
        raises one of the six counters. */
    method RegisterTable(c: Csv)
      modifies this`registry, this`status, this`counts
      ensures Contents() == AfterCsv(run, old(Contents()), OutcomeOf(lookup, c))
    {
      ghost var before := Contents();
      var name := Resolve(c.flat, lookup.rows, lookup.known);
      if c.header.NoSnapshotFolder? || c.header.NoFile? {
        RecordStatus(name, SkippedNoCsv, NO_DIFF);
        return;
      }
      if c.header.Unreadable? {
        RecordStatus(name, CsvUnreadable, NO_DIFF);
        return;
      }
      var header := c.header.names;
      var pk;
      if c.flat in lookup.rows {
        pk := lookup.rows[c.flat].pk;
      } else {
        if name.schema == UNKNOWN {
          RecordStatus(name, NotInSchemaJson, NO_DIFF);
          return;
        }
        if header == [] || header[0] == "" {
          RecordStatus(name, CsvUnreadable, NO_DIFF);
          return;
        }
        InsertRegistryRow(name, header[0]);
        pk := [header[0]];
      }
      if exists k :: k in pk && k !in header {
        assert OutcomeOf(lookup, c) == Outcome(name, PkMissingInCsv, None, NO_DIFF);
        RecordStatus(name, PkMissingInCsv, NO_DIFF);
        return;
      }
      ghost var found := if c.flat in lookup.rows then None else Some(header[0]);
      assert OutcomeOf(lookup, c) == Outcome(name, Ok, found, ColumnDiff(c.flat, name, lookup));
      FoundThenOk(run, before, name, found, ColumnDiff(c.flat, name, lookup));
      RegisterFlow(c.flat, name);
    }

    /** Every registry row without a CSV in this run is stamped as skipped; nothing else changes. */
    method SweepHeartbeat()
      modifies this`status, this`counts
      ensures Contents() == AfterSweep(run, old(Contents()), processed)
    {
      var swept := registry.Keys - processed;
      if swept == {} {
        assert status + SkippedRows(run, status, swept) == status;
        return;
      }
      status := status + SkippedRows(run, status, swept);
      counts := Bump(counts, SkippedNoCsv, |swept|);
    }

    /** The main loop, then the sweep over what the loop did not process. */
    method RunPipeline(csvs: seq<Csv>)
      requires processed == {}
      modifies this
      ensures Contents() == AfterRun(run, old(Contents()), Outcomes(lookup, csvs))
    {
      ghost var os := Outcomes(lookup, csvs);
      for i := 0 to |csvs|
        invariant Contents() == AfterLoop(run, old(Contents()), os[..i])
        invariant processed == NamesOf(os[..i])
      {
        LoopStep(run, old(Contents()), os, i);
        var name := ResolveSchemaTable(csvs[i]);
        processed := processed + {name};
        RegisterTable(csvs[i]);
      }
      assert os[..|csvs|] == os;
      SweepHeartbeat();
    }
  }
}
