/** Reconciling the columns of a Bronze table with schema.json. */
module SchemaEvolution {
  import opened Wrappers

  // The simple names of Spark types that widening speaks of; every other name is one it does not.
  datatype SqlType = TinyInt | SmallInt | Int | BigInt | Float | Double | Other(name: string)

  datatype Column = Column(name: string, sqlType: SqlType)

  type Struct = seq<Column>

  const SAFE_WIDENINGS: set<(SqlType, SqlType)> := {
    (Int, BigInt), (Int, Double), (Int, Float),
    (BigInt, Double),
    (Float, Double),
    (SmallInt, Int), (SmallInt, BigInt), (SmallInt, Double),
    (TinyInt, SmallInt), (TinyInt, Int), (TinyInt, BigInt)
  }

  predicate Widens(old_: SqlType, new_: SqlType) {
    (old_, new_) in SAFE_WIDENINGS
  }

  ghost predicate Unique(s: Struct) {
    forall i, j :: 0 <= i < j < |s| ==> s[i].name != s[j].name
  }

  predicate Has(s: Struct, name: string) {
    exists i :: 0 <= i < |s| && s[i].name == name
  }

  function TypeOf(s: Struct, name: string): (t: SqlType)
    requires Has(s, name)
    ensures exists i :: 0 <= i < |s| && s[i] == Column(name, t)
  {
    if s[0].name == name then s[0].sqlType else TypeOf(s[1..], name)
  }

  lemma {:induction false} TypeOfAt(s: Struct, i: nat)
    requires Unique(s) && i < |s|
    ensures TypeOf(s, s[i].name) == s[i].sqlType
  {
    if i > 0 {
      assert s[1..][i - 1] == s[i];
      TypeOfAt(s[1..], i - 1);
    }
  }

  // A column with the type in the table and the type schema.json asks for.
  datatype Change = Change(name: string, was: SqlType, wanted: SqlType)

  datatype Diff = Diff(added: seq<string>, absent: seq<string>, widened: seq<Change>, keptOld: seq<Change>)

  const NO_DIFF := Diff([], [], [], [])

  // -------------------------------------------------------------------------
  // One column
  // -------------------------------------------------------------------------

  // The type a wanted column ends with, given the table so far.
  function Reconciled(existing: Struct, c: Column): SqlType {
    if !Has(existing, c.name) then c.sqlType
    else
      var old_ := TypeOf(existing, c.name);
      if old_ == c.sqlType || Widens(old_, c.sqlType) then c.sqlType else old_
  }

  predicate IsAdded(existing: Struct, c: Column) {
    !Has(existing, c.name)
  }

  predicate IsWidened(existing: Struct, c: Column) {
    Has(existing, c.name) && Widens(TypeOf(existing, c.name), c.sqlType)
  }

  predicate IsKeptOld(existing: Struct, c: Column) {
    Has(existing, c.name) && TypeOf(existing, c.name) != c.sqlType && !Widens(TypeOf(existing, c.name), c.sqlType)
  }

  // -------------------------------------------------------------------------
  // The whole struct, as a specification
  // -------------------------------------------------------------------------

  function Wanted(forma: Struct, existing: Struct): Struct {
    seq(|forma|, i requires 0 <= i < |forma| => Column(forma[i].name, Reconciled(existing, forma[i])))
  }

  function Leftover(forma: Struct, existing: Struct): Struct {
    if existing == [] then []
    else
      var rest := Leftover(forma, existing[..|existing| - 1]);
      var last := existing[|existing| - 1];
      if Has(forma, last.name) then rest else rest + [last]
  }

  function Evolved(forma: Struct, existing: Struct): Struct {
    Wanted(forma, existing) + Leftover(forma, existing)
  }

  function Select<T>(forma: Struct, p: Column -> bool, f: Column -> T): seq<T> {
    if forma == [] then []
    else
      var rest := Select(forma[..|forma| - 1], p, f);
      var last := forma[|forma| - 1];
      if p(last) then rest + [f(last)] else rest
  }

  function ChangeOf(existing: Struct, c: Column): Change {
    Change(c.name, if Has(existing, c.name) then TypeOf(existing, c.name) else c.sqlType, c.sqlType)
  }

  function Names(s: Struct): seq<string> {
    seq(|s|, i requires 0 <= i < |s| => s[i].name)
  }

  function EvolvedDiff(forma: Struct, existing: Struct): Diff {
    Diff(Select(forma, c => IsAdded(existing, c), (c: Column) => c.name), Names(Leftover(forma, existing)),
         Select(forma, c => IsWidened(existing, c), c => ChangeOf(existing, c)),
         Select(forma, c => IsKeptOld(existing, c), c => ChangeOf(existing, c)))
  }

  lemma SelectNext<T>(forma: Struct, i: nat, p: Column -> bool, f: Column -> T)
    requires i < |forma|
    ensures Select(forma[..i + 1], p, f) == Select(forma[..i], p, f) + if p(forma[i]) then [f(forma[i])] else []
  {
    assert forma[..i + 1][..i] == forma[..i];
  }

  // The diff over the first i columns of schema.json, before the leftover columns are known.
  function DiffUpTo(forma: Struct, existing: Struct, i: nat): Diff
    requires i <= |forma|
  {
    EvolvedDiff(forma[..i], existing).(absent := [])
  }

  lemma DiffNext(forma: Struct, existing: Struct, i: nat)
    requires i < |forma|
    ensures var d, c := DiffUpTo(forma, existing, i), forma[i];
            DiffUpTo(forma, existing, i + 1) ==
              d.(added := d.added + if IsAdded(existing, c) then [c.name] else [],
                 widened := d.widened + if IsWidened(existing, c) then [ChangeOf(existing, c)] else [],
                 keptOld := d.keptOld + if IsKeptOld(existing, c) then [ChangeOf(existing, c)] else [])
  {
    SelectNext(forma, i, c => IsAdded(existing, c), (c: Column) => c.name);
    SelectNext(forma, i, c => IsWidened(existing, c), c => ChangeOf(existing, c));
    SelectNext(forma, i, c => IsKeptOld(existing, c), c => ChangeOf(existing, c));
  }

  lemma LeftoverNext(forma: Struct, existing: Struct, j: nat)
    requires j < |existing|
    ensures var before, after := Leftover(forma, existing[..j]), Leftover(forma, existing[..j + 1]);
            if Has(forma, existing[j].name) then after == before
            else after == before + [existing[j]] && Names(after) == Names(before) + [existing[j].name]
  {
    assert existing[..j + 1][..j] == existing[..j];
  }

  /** The reconciliation itself: two passes that append to the field list and to the lists of the
      column diff. A table that does not exist yet takes schema.json as it is. */
  method BuildEvolvedSchema(forma: Struct, table: Option<Struct>) returns (fields: Struct, diff: Diff)
    ensures table.None? ==> fields == forma && diff == NO_DIFF
    ensures table.Some? ==> fields == Evolved(forma, table.value) && diff == EvolvedDiff(forma, table.value)
  {
    if table.None? {
      return forma, NO_DIFF;
    }
    var existing := table.value;
    fields, diff := [], NO_DIFF;
    for i := 0 to |forma|
      invariant fields == Wanted(forma, existing)[..i]
      invariant diff == DiffUpTo(forma, existing, i)
    {
      var field := forma[i];
      assert Wanted(forma, existing)[..i + 1] ==
        Wanted(forma, existing)[..i] + [Column(field.name, Reconciled(existing, field))];
      DiffNext(forma, existing, i);
      if !Has(existing, field.name) {
        fields := fields + [field];
        diff := diff.(added := diff.added + [field.name]);
      } else {
        var old_ := TypeOf(existing, field.name);
        if old_ == field.sqlType {
          fields := fields + [field];
        } else if Widens(old_, field.sqlType) {
          fields := fields + [field];
          diff := diff.(widened := diff.widened + [Change(field.name, old_, field.sqlType)]);
        } else {
          fields := fields + [Column(field.name, old_)];
          diff := diff.(keptOld := diff.keptOld + [Change(field.name, old_, field.sqlType)]);
        }
      }
    }
    assert forma[..|forma|] == forma;
    for j := 0 to |existing|
      invariant fields == Wanted(forma, existing) + Leftover(forma, existing[..j])
      invariant diff == EvolvedDiff(forma, existing).(absent := Names(Leftover(forma, existing[..j])))
    {
      var column := existing[j];
      LeftoverNext(forma, existing, j);
      if !Has(forma, column.name) {
        fields := fields + [column];
        diff := diff.(absent := diff.absent + [column.name]);
      }
    }
    assert existing[..|existing|] == existing;
  }

  // -------------------------------------------------------------------------
  // One reconciliation
  // -------------------------------------------------------------------------

  lemma HasAt(s: Struct, i: nat)
    requires i < |s|
    ensures Has(s, s[i].name)
  {
  }

  lemma {:induction false} LeftoverIs(forma: Struct, existing: Struct)
    ensures forall c :: c in Leftover(forma, existing) <==> c in existing && !Has(forma, c.name)
  {
    if existing != [] {
      var init, last := existing[..|existing| - 1], existing[|existing| - 1];
      LeftoverIs(forma, init);
      assert existing == init + [last];
    }
  }

  lemma {:induction false} LeftoverUnique(forma: Struct, existing: Struct)
    requires Unique(existing)
    ensures Unique(Leftover(forma, existing))
  {
    if existing != [] {
      var init := existing[..|existing| - 1];
      LeftoverUnique(forma, init);
      LeftoverIs(forma, init);
      var rest := Leftover(forma, init);
      forall j | 0 <= j < |rest| ensures rest[j].name != existing[|existing| - 1].name {
        assert rest[j] in init;
      }
    }
  }

  lemma EvolvedUnique(forma: Struct, existing: Struct)
    requires Unique(forma) && Unique(existing)
    ensures Unique(Evolved(forma, existing))
  {
    LeftoverUnique(forma, existing);
    LeftoverIs(forma, existing);
    var w, l, e := Wanted(forma, existing), Leftover(forma, existing), Evolved(forma, existing);
    forall i, j | 0 <= i < j < |e| ensures e[i].name != e[j].name {
      if i < |w| && j >= |w| {
        assert l[j - |w|] in l;
        HasAt(forma, i);
      }
    }
  }

  // A column of the new struct comes from schema.json or is left over from the table.
  lemma EvolvedColumn(forma: Struct, existing: Struct, k: nat)
    requires Unique(existing) && k < |Evolved(forma, existing)|
    ensures var c := Evolved(forma, existing)[k];
            if k < |forma| then c == Column(forma[k].name, Reconciled(existing, forma[k]))
            else c in existing && !Has(forma, c.name) && TypeOf(existing, c.name) == c.sqlType && Has(existing, c.name)
  {
    if k >= |forma| {
      LeftoverIs(forma, existing);
      var c := Leftover(forma, existing)[k - |forma|];
      assert c in existing;
      var i :| 0 <= i < |existing| && existing[i] == c;
      TypeOfAt(existing, i);
    }
  }

  lemma EvolvedHas(forma: Struct, existing: Struct, name: string)
    requires Unique(existing) && (Has(forma, name) || Has(existing, name))
    ensures Has(Evolved(forma, existing), name)
  {
    var e := Evolved(forma, existing);
    if Has(forma, name) {
      var i :| 0 <= i < |forma| && forma[i].name == name;
      HasAt(e, i);
    } else {
      var i :| 0 <= i < |existing| && existing[i].name == name;
      LeftoverIs(forma, existing);
      assert existing[i] in Leftover(forma, existing);
      var l := Leftover(forma, existing);
      var j :| 0 <= j < |l| && l[j] == existing[i];
      HasAt(e, |forma| + j);
    }
  }

  lemma EvolvedType(forma: Struct, existing: Struct, name: string)
    requires Unique(forma) && Unique(existing) && Has(Evolved(forma, existing), name)
    ensures Has(forma, name) || Has(existing, name)
    ensures Has(existing, name) ==>
      var before, after := TypeOf(existing, name), TypeOf(Evolved(forma, existing), name);
      after == before || Widens(before, after)
  {
    var e := Evolved(forma, existing);
    EvolvedUnique(forma, existing);
    var k :| 0 <= k < |e| && e[k].name == name;
    EvolvedColumn(forma, existing, k);
    TypeOfAt(e, k);
    if k < |forma| {
      HasAt(forma, k);
    }
  }

  /** No column of the table or of schema.json is missing afterwards, none is invented, and an
      existing column keeps its type or is safely widened. */
  lemma NothingIsLost(forma: Struct, existing: Struct, name: string)
    requires Unique(forma) && Unique(existing)
    ensures Has(Evolved(forma, existing), name) <==> Has(forma, name) || Has(existing, name)
    ensures Has(existing, name) ==>
      var before, after := TypeOf(existing, name), TypeOf(Evolved(forma, existing), name);
      after == before || Widens(before, after)
  {
    if Has(forma, name) || Has(existing, name) {
      EvolvedHas(forma, existing, name);
    }
    if Has(Evolved(forma, existing), name) {
      EvolvedType(forma, existing, name);
    }
  }

  // Bits of an integer type.
  function Width(t: SqlType): Option<nat> {
    match t
    case TinyInt => Some(8)
    case SmallInt => Some(16)
    case Int => Some(32)
    case BigInt => Some(64)
    case _ => None
  }

  // What is widened, by the types themselves.
  predicate Wider(a: SqlType, b: SqlType) {
    || (Width(a).Some? && Width(b).Some? && Width(a).value < Width(b).value)
    || (b.Double? && (a.SmallInt? || a.Int? || a.BigInt? || a.Float?))
    || (b.Float? && a.Int?)
  }

  /** The safe widenings: an integer to any wider one, every number but a tinyint to a double, and an int to
      a float. */
  lemma WidensIff(a: SqlType, b: SqlType)
    ensures Widens(a, b) <==> Wider(a, b)
  {
    if a.Other? || b.Other? {
      assert forall n, m :: (Other(n), m) !in SAFE_WIDENINGS && (m, Other(n)) !in SAFE_WIDENINGS;
    }
  }

  /** What the reconciled table holds under any name: the column of schema.json if the table has none; the
      wanted type if the table has that type or a narrower one; and otherwise what the table has. */
  lemma EndsWithType(forma: Struct, existing: Struct, name: string)
    requires Unique(forma) && Unique(existing) && (Has(forma, name) || Has(existing, name))
    ensures Has(Evolved(forma, existing), name)
    ensures TypeOf(Evolved(forma, existing), name) ==
      if !Has(existing, name) then TypeOf(forma, name)
      else if Has(forma, name) && Wider(TypeOf(existing, name), TypeOf(forma, name)) then TypeOf(forma, name)
      else TypeOf(existing, name)
  {
    var e := Evolved(forma, existing);
    EvolvedUnique(forma, existing);
    EvolvedHas(forma, existing, name);
    var k :| 0 <= k < |e| && e[k].name == name;
    EvolvedColumn(forma, existing, k);
    TypeOfAt(e, k);
    if k < |forma| {
      TypeOfAt(forma, k);
      HasAt(forma, k);
      if Has(existing, name) {
        WidensIff(TypeOf(existing, name), TypeOf(forma, name));
      }
    }
  }

  // A wanted column that the table has with another type.
  predicate Differs(forma: Struct, existing: Struct, c: Change) {
    && Has(existing, c.name) && TypeOf(existing, c.name) == c.was && c.was != c.wanted
    && Column(c.name, c.wanted) in forma
  }

  /** What the diff reports: as added the wanted columns the table does not have, as absent the table's
      columns schema.json does not have, and of the columns whose type differs, with both types, as widened
      those that are wanted wider and as kept all others. */
  lemma DiffReports(forma: Struct, existing: Struct)
    ensures var d := EvolvedDiff(forma, existing);
            && (forall name :: name in d.added <==> Has(forma, name) && !Has(existing, name))
            && (forall name :: name in d.absent <==> Has(existing, name) && !Has(forma, name))
            && (forall c :: c in d.widened <==> Differs(forma, existing, c) && Wider(c.was, c.wanted))
            && (forall c :: c in d.keptOld <==> Differs(forma, existing, c) && !Wider(c.was, c.wanted))
  {
    var d := EvolvedDiff(forma, existing);
    forall name ensures name in d.added <==> Has(forma, name) && !Has(existing, name) {
      AddedIs(forma, existing, name);
    }
    forall name ensures name in d.absent <==> Has(existing, name) && !Has(forma, name) {
      AbsentIs(forma, existing, name);
    }
    forall c ensures c in d.widened <==> Differs(forma, existing, c) && Wider(c.was, c.wanted) {
      ChangeIs(forma, existing, c);
    }
    forall c ensures c in d.keptOld <==> Differs(forma, existing, c) && !Wider(c.was, c.wanted) {
      ChangeIs(forma, existing, c);
    }
  }

  lemma AddedIs(forma: Struct, existing: Struct, name: string)
    ensures name in EvolvedDiff(forma, existing).added <==> Has(forma, name) && !Has(existing, name)
  {
    SelectIs(forma, c => IsAdded(existing, c), (c: Column) => c.name, name);
    if Has(forma, name) && !Has(existing, name) {
      var i :| 0 <= i < |forma| && forma[i].name == name;
      assert forma[i] in forma;
    }
  }

  lemma {:induction false} SelectIs<T>(s: Struct, p: Column -> bool, f: Column -> T, x: T)
    ensures x in Select(s, p, f) <==> exists c :: c in s && p(c) && f(c) == x
  {
    if s != [] {
      var init, last := s[..|s| - 1], s[|s| - 1];
      SelectIs(init, p, f, x);
      assert s == init + [last];
    }
  }

  lemma AbsentIs(forma: Struct, existing: Struct, name: string)
    ensures name in EvolvedDiff(forma, existing).absent <==> Has(existing, name) && !Has(forma, name)
  {
    var l := Leftover(forma, existing);
    LeftoverIs(forma, existing);
    if Has(existing, name) && !Has(forma, name) {
      var i :| 0 <= i < |existing| && existing[i].name == name;
      assert existing[i] in l;
      var j :| 0 <= j < |l| && l[j] == existing[i];
      assert Names(l)[j] == name;
    }
    if name in Names(l) {
      var j :| 0 <= j < |l| && Names(l)[j] == name;
      assert l[j] in l;
    }
  }

  lemma ChangeIs(forma: Struct, existing: Struct, c: Change)
    ensures c in EvolvedDiff(forma, existing).widened <==> Differs(forma, existing, c) && Wider(c.was, c.wanted)
    ensures c in EvolvedDiff(forma, existing).keptOld <==> Differs(forma, existing, c) && !Wider(c.was, c.wanted)
  {
    var wanted := Column(c.name, c.wanted);
    SelectIs(forma, x => IsWidened(existing, x), x => ChangeOf(existing, x), c);
    SelectIs(forma, x => IsKeptOld(existing, x), x => ChangeOf(existing, x), c);
    WidensIff(c.was, c.wanted);
    NoSelfWidening(c.wanted);
    assert forall x: Column :: ChangeOf(existing, x) == c ==> x == wanted;
  }

  // -------------------------------------------------------------------------
  // Any number of reconciliations
  // -------------------------------------------------------------------------

  const MAX_RANK := 4

  function Rank(t: SqlType): (r: nat)
    ensures r <= MAX_RANK
  {
    match t
    case TinyInt => 0
    case SmallInt => 1
    case Int => 2
    case BigInt => 3
    case Float => 3
    case Double => 4
    case Other(_) => 0
  }

  /** Every safe widening climbs. */
  lemma WideningClimbs(a: SqlType, b: SqlType)
    requires Widens(a, b)
    ensures Rank(a) < Rank(b)
  {
  }

  // The table after a run of reconciling updates, one schema.json after the other.
  function After(existing: Struct, formas: seq<Struct>): Struct
    decreases |formas|
  {
    if formas == [] then existing else After(Evolved(formas[0], existing), formas[1..])
  }

  // How often a column changed its type on the way.
  ghost function Changes(existing: Struct, formas: seq<Struct>, name: string): nat
    decreases |formas|
  {
    if formas == [] then 0
    else
      var next := Evolved(formas[0], existing);
      (if Has(existing, name) && Has(next, name) && TypeOf(existing, name) != TypeOf(next, name) then 1 else 0) +
      Changes(next, formas[1..], name)
  }

  /** Over any run of updates a column never disappears or doubles, its type only climbs, and it
      changes type at most four times. */
  lemma {:induction false} HistoryIsMonotone(existing: Struct, formas: seq<Struct>, name: string)
    requires Unique(existing) && (forall f :: f in formas ==> Unique(f)) && Has(existing, name)
    ensures Unique(After(existing, formas)) && Has(After(existing, formas), name)
    ensures Rank(TypeOf(existing, name)) + Changes(existing, formas, name) <=
            Rank(TypeOf(After(existing, formas), name))
    ensures Changes(existing, formas, name) <= MAX_RANK
    decreases |formas|
  {
    if formas != [] {
      var next := Evolved(formas[0], existing);
      EvolvedUnique(formas[0], existing);
      NothingIsLost(formas[0], existing, name);
      if TypeOf(existing, name) != TypeOf(next, name) {
        WideningClimbs(TypeOf(existing, name), TypeOf(next, name));
      }
      HistoryIsMonotone(next, formas[1..], name);
    }
  }

  // -------------------------------------------------------------------------
  // Reconciling twice
  // -------------------------------------------------------------------------

  lemma {:induction false} SelectNone<T>(s: Struct, p: Column -> bool, f: Column -> T)
    requires forall c :: c in s ==> !p(c)
    ensures Select(s, p, f) == []
  {
    if s != [] {
      assert s[|s| - 1] in s;
      SelectNone(s[..|s| - 1], p, f);
    }
  }

  lemma {:induction false} SelectConcat<T>(a: Struct, b: Struct, p: Column -> bool, f: Column -> T)
    ensures Select(a + b, p, f) == Select(a, p, f) + Select(b, p, f)
  {
    if b == [] {
      assert a + b == a;
    } else {
      assert (a + b)[..|a + b| - 1] == a + b[..|b| - 1];
      SelectConcat(a, b[..|b| - 1], p, f);
    }
  }

  // Two structs of which the same columns are selected, with the same entries.
  lemma {:induction false} SelectSame<T>(a: Struct, b: Struct, p: Column -> bool, f: Column -> T)
    requires |a| == |b|
    requires forall i :: 0 <= i < |a| ==> p(a[i]) == p(b[i]) && (p(a[i]) ==> f(a[i]) == f(b[i]))
    ensures Select(a, p, f) == Select(b, p, f)
  {
    if a != [] {
      SelectSame(a[..|a| - 1], b[..|b| - 1], p, f);
    }
  }

  lemma WidenedTypeSettles(existing: Struct, c: Column)
    ensures var d := Column(c.name, Reconciled(existing, c));
            Reconciled(existing, d) == d.sqlType && IsAdded(existing, d) == IsAdded(existing, c) &&
            IsWidened(existing, d) == IsWidened(existing, c) && !IsKeptOld(existing, d) &&
            (IsWidened(existing, c) ==> d == c)
  {
    if Has(existing, c.name) {
      NoSelfWidening(TypeOf(existing, c.name));
    }
  }

  lemma NoSelfWidening(t: SqlType)
    ensures !Widens(t, t)
  {
  }

  // Every column of a reconciled struct is one the same table would leave alone.
  lemma EvolvedSettled(forma: Struct, existing: Struct, k: nat)
    requires Unique(existing) && k < |Evolved(forma, existing)|
    ensures var c := Evolved(forma, existing)[k];
            Reconciled(existing, c) == c.sqlType && !IsKeptOld(existing, c) &&
            (k >= |forma| ==> !IsAdded(existing, c) && !IsWidened(existing, c))
  {
    EvolvedColumn(forma, existing, k);
    if k < |forma| {
      WidenedTypeSettles(existing, forma[k]);
    } else {
      NoSelfWidening(Evolved(forma, existing)[k].sqlType);
    }
  }

  /** The gate reconciles the already reconciled struct with the same table. That returns the same
      struct; its diff repeats the added and widened columns and never has anything to say about
      absent columns or kept types. */
  lemma SecondPass(forma: Struct, existing: Struct)
    requires Unique(forma) && Unique(existing)
    ensures var e := Evolved(forma, existing);
            Evolved(e, existing) == e &&
            EvolvedDiff(e, existing) == EvolvedDiff(forma, existing).(absent := [], keptOld := [])
  {
    var e, w, l := Evolved(forma, existing), Wanted(forma, existing), Leftover(forma, existing);
    forall k | 0 <= k < |e| ensures Wanted(e, existing)[k] == e[k] {
      EvolvedSettled(forma, existing, k);
    }
    NothingLeft(forma, existing);
    assert Wanted(e, existing) == e && Leftover(e, existing) == [];
    SecondSelect(forma, existing);
  }

  lemma NothingLeft(forma: Struct, existing: Struct)
    requires Unique(forma) && Unique(existing)
    ensures Leftover(Evolved(forma, existing), existing) == []
  {
    var e := Evolved(forma, existing);
    LeftoverIs(e, existing);
    var l := Leftover(e, existing);
    if l != [] {
      assert l[0] in l;
      var i :| 0 <= i < |existing| && existing[i] == l[0];
      HasAt(existing, i);
      NothingIsLost(forma, existing, existing[i].name);
    }
  }

  lemma SecondSelect(forma: Struct, existing: Struct)
    requires Unique(existing)
    ensures EvolvedDiff(Evolved(forma, existing), existing).added == EvolvedDiff(forma, existing).added
    ensures EvolvedDiff(Evolved(forma, existing), existing).widened == EvolvedDiff(forma, existing).widened
    ensures EvolvedDiff(Evolved(forma, existing), existing).keptOld == []
  {
    var e, kept := Evolved(forma, existing), c => IsKeptOld(existing, c);
    var added, widened := c => IsAdded(existing, c), c => IsWidened(existing, c);
    var nameOf, changeOf := (c: Column) => c.name, c => ChangeOf(existing, c);
    forall c: Column ensures SaidAgain(existing, added, nameOf, c) {
      WidenedTypeSettles(existing, c);
    }
    SecondAgain(forma, existing, added, nameOf);
    forall c: Column ensures SaidAgain(existing, widened, changeOf, c) {
      WidenedTypeSettles(existing, c);
    }
    SecondAgain(forma, existing, widened, changeOf);
    forall k | 0 <= k < |e| ensures !kept(e[k]) {
      EvolvedSettled(forma, existing, k);
    }
    SelectNone(e, kept, changeOf);
  }

  // A column is selected, with its entry, when its reconciled form is, and only if added or widened.
  predicate SaidAgain<T(==)>(existing: Struct, p: Column -> bool, f: Column -> T, c: Column) {
    var d := Column(c.name, Reconciled(existing, c));
    p(d) == p(c) && (p(c) ==> f(d) == f(c)) && (p(c) ==> IsAdded(existing, c) || IsWidened(existing, c))
  }

  lemma SecondAgain<T>(forma: Struct, existing: Struct, p: Column -> bool, f: Column -> T)
    requires Unique(existing) && forall c :: SaidAgain(existing, p, f, c)
    ensures Select(Evolved(forma, existing), p, f) == Select(forma, p, f)
  {
    var e, w, l := Evolved(forma, existing), Wanted(forma, existing), Leftover(forma, existing);
    forall c | c in l ensures !p(c) {
      var j :| 0 <= j < |l| && l[j] == c;
      assert e[|forma| + j] == c;
      EvolvedSettled(forma, existing, |forma| + j);
      assert SaidAgain(existing, p, f, c);
    }
    forall k | 0 <= k < |forma| ensures p(w[k]) == p(forma[k]) && (p(w[k]) ==> f(w[k]) == f(forma[k])) {
      assert SaidAgain(existing, p, f, forma[k]);
    }
    SelectConcat(w, l, p, f);
    SelectNone(l, p, f);
    SelectSame(w, forma, p, f);
  }

  /** Applying the same schema.json to the table it produced changes nothing more. */
  lemma Stable(forma: Struct, existing: Struct)
    requires Unique(forma) && Unique(existing)
    ensures Evolved(forma, Evolved(forma, existing)) == Evolved(forma, existing)
  {
    var e := Evolved(forma, existing);
    EvolvedUnique(forma, existing);
    forall k | 0 <= k < |forma| ensures Wanted(forma, e)[k] == e[k] {
      TypeOfAt(e, k);
      HasAt(e, k);
    }
    assert Wanted(forma, e) == Wanted(forma, existing);
    LeftoverIs(forma, existing);
    forall i | 0 <= i < |forma| ensures Has(forma, Wanted(forma, existing)[i].name) {
      HasAt(forma, i);
    }
    LeftoverOfConcat(forma, Wanted(forma, existing), Leftover(forma, existing));
  }

  // Dropping the columns of schema.json from a struct of which exactly a prefix is in it.
  lemma {:induction false} LeftoverOfConcat(forma: Struct, a: Struct, b: Struct)
    requires forall i :: 0 <= i < |a| ==> Has(forma, a[i].name)
    requires forall c :: c in b ==> !Has(forma, c.name)
    ensures Leftover(forma, a + b) == b
    decreases |a| + |b|
  {
    if b != [] {
      assert (a + b)[..|a + b| - 1] == a + b[..|b| - 1];
      assert b[|b| - 1] in b;
      LeftoverOfConcat(forma, a, b[..|b| - 1]);
    } else if a != [] {
      assert (a + b)[..|a + b| - 1] == a[..|a| - 1] + b;
      LeftoverOfConcat(forma, a[..|a| - 1], b);
    } else {
      assert a + b == [];
    }
  }

  // -------------------------------------------------------------------------
  // The hash gate
  // -------------------------------------------------------------------------

  // With an unchanged schema.json the raw types are handed on instead.
  function Gated(forma: Struct, existing: Struct, changed: bool): Struct {
    if changed then Evolved(forma, existing) else forma
  }

  /** Skipping the reconciliation is harmless exactly when there is nothing absent and nothing kept
      old; otherwise the struct loses a column or takes an unsafe type. */
  lemma SkippingHarmlessIff(forma: Struct, existing: Struct)
    ensures Gated(forma, existing, false) == Gated(forma, existing, true) <==>
      EvolvedDiff(forma, existing).absent == [] && EvolvedDiff(forma, existing).keptOld == []
  {
    var kept := c => IsKeptOld(existing, c);
    assert forall i :: 0 <= i < |forma| ==>
      (Wanted(forma, existing)[i] == forma[i] <==> !kept(forma[i]));
    SelectNoneIff(forma, kept, c => ChangeOf(existing, c));
    if Evolved(forma, existing) == forma {
      assert |Evolved(forma, existing)| == |forma|;
      assert Leftover(forma, existing) == [];
      assert Wanted(forma, existing) == forma;
    }
    if Leftover(forma, existing) == [] && EvolvedDiff(forma, existing).keptOld == [] {
      assert Wanted(forma, existing) == forma;
    }
  }

  lemma {:induction false} SelectNoneIff<T>(s: Struct, p: Column -> bool, f: Column -> T)
    ensures Select(s, p, f) == [] <==> forall i :: 0 <= i < |s| ==> !p(s[i])
  {
    if s != [] {
      SelectNoneIff(s[..|s| - 1], p, f);
    }
  }

  /** A column dropped from schema.json survives the update that notices it and is gone from the
      struct of the next update, whose schema.json has not changed. */
  lemma UnchangedUpdateLosesColumn(a: Column, b: Column)
    requires a.name != b.name
    ensures var table := Gated([a], [a, b], true);
            Has(table, b.name) && !Has(Gated([a], table, false), b.name)
  {
    NothingIsLost([a], [a, b], b.name);
    assert [a, b][1].name == b.name;
  }
}
