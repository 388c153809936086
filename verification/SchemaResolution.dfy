/** From a CSV file name to the (schema, table) it belongs to, and to the pipeline that owns it. */
module SchemaResolution {
  import opened Wrappers
  import opened PyText

  const UNKNOWN := "unknown"

  datatype Name = Name(schema: string, table: string)

  function Flat(n: Name): string {
    n.schema + ['_'] + n.table
  }

  // -------------------------------------------------------------------------
  // Splitting a stem
  // -------------------------------------------------------------------------

  // `stem` is `schema`, an underscore and something.
  predicate Matches(stem: string, schema: string) {
    |schema| < |stem| && stem[..|schema|] == schema && stem[|schema|] == '_'
  }

  // Length of the longest known schema that matches, not counting those longer than k.
  function LongestMatch(stem: string, known: set<string>, k: nat): (r: Option<nat>)
    requires k <= |stem|
    ensures r.Some? ==> r.value <= k && r.value < |stem| && stem[..r.value] in known && Matches(stem, stem[..r.value])
    ensures forall s :: s in known && Matches(stem, s) && |s| <= k ==> r.Some? && |s| <= r.value
  {
    if k < |stem| && stem[k] == '_' && stem[..k] in known then Some(k)
    else if k == 0 then None
    else LongestMatch(stem, known, k - 1)
  }

  function Split(stem: string, known: set<string>): Name {
    match LongestMatch(stem, known, |stem|)
    case Some(k) => Name(stem[..k], stem[k + 1..])
    case None => Name(UNKNOWN, stem)
  }

  lemma JoinMatches(n: Name)
    ensures Matches(Flat(n), n.schema)
    ensures Flat(n)[|n.schema| + 1..] == n.table
  {
  }

  lemma SplitOfLongest(n: Name, known: set<string>)
    requires n.schema in known
    requires forall s :: s in known && Matches(Flat(n), s) ==> |s| <= |n.schema|
    ensures Split(Flat(n), known) == n
  {
    JoinMatches(n);
    var k := LongestMatch(Flat(n), known, |Flat(n)|);
    assert k == Some(|n.schema|);
  }

  /** What a stem splits into: a schema that is known and prefixes it with an underscore, and the rest after
      that; or `unknown` and the whole stem, exactly if no known schema does. */
  lemma SplitIs(flat: string, known: set<string>)
    ensures var n := Split(flat, known);
            if exists s :: s in known && Matches(flat, s)
            then n.schema in known && flat == Flat(n)
            else n == Name("unknown", flat)
  {
    var r := LongestMatch(flat, known, |flat|);
    if r.Some? {
      assert flat == flat[..r.value] + ['_'] + flat[r.value + 1..];
    }
  }

  // Two names that both match a stem are the same, or one extends the other with an underscore.
  lemma BothMatch(flat: string, s: string, t: string)
    requires Matches(flat, s) && Matches(flat, t)
    ensures s == t || Matches(s, t) || Matches(t, s)
    ensures |s| < |t| ==> Matches(t, s)
  {
    LongerExtends(flat, s, t);
    LongerExtends(flat, t, s);
  }

  lemma LongerExtends(flat: string, s: string, t: string)
    requires Matches(flat, s) && Matches(flat, t)
    ensures |s| < |t| ==> Matches(t, s)
    ensures |s| == |t| ==> s == t
  {
    if |s| < |t| {
      assert t[..|s|] == flat[..|s|] && t[|s|] == flat[|s|];
    }
  }

  // No known schema is another one, an underscore and more.
  ghost predicate PrefixFree(known: set<string>) {
    forall s, t :: s in known && t in known ==> !Matches(t, s)
  }

  /** Splitting inverts joining for every known schema and every table name exactly when no known
      schema extends another one with an underscore. */
  lemma SplitInvertsJoinIff(known: set<string>)
    ensures (forall n: Name :: n.schema in known ==> Split(Flat(n), known) == n) <==> PrefixFree(known)
  {
    if PrefixFree(known) {
      forall n: Name | n.schema in known ensures Split(Flat(n), known) == n {
        JoinMatches(n);
        forall s | s in known && Matches(Flat(n), s) ensures |s| <= |n.schema| {
          BothMatch(Flat(n), n.schema, s);
        }
        SplitOfLongest(n, known);
      }
    }
    if s, t :| s in known && t in known && Matches(t, s) {
      var n := Name(s, t[|s| + 1..] + ['_']);
      assert Flat(n) == t + ['_'];
      assert Matches(Flat(n), t);
      assert Split(Flat(n), known) != n;
    }
  }

  // -------------------------------------------------------------------------
  // Independence of the known schemas
  // -------------------------------------------------------------------------

  // The same schema, or one of the two does not know it.
  predicate Agree(a: string, b: string) {
    a == b || a == UNKNOWN || b == UNKNOWN
  }

  ghost predicate SplitsAgree(names: set<string>) {
    forall flat, known1, known2 :: known1 <= names && known2 <= names ==>
      Agree(Split(flat, known1).schema, Split(flat, known2).schema)
  }

  /** Whatever subsets of a set of names are known, every stem splits to the same schema or to
      `unknown`, if and only if no name in the set extends another one with an underscore. */
  lemma SplitsAgreeIff(names: set<string>)
    requires UNKNOWN !in names
    ensures SplitsAgree(names) <==> PrefixFree(names)
  {
    if PrefixFree(names) {
      forall flat, known1, known2 | known1 <= names && known2 <= names
        ensures Agree(Split(flat, known1).schema, Split(flat, known2).schema)
      {
        var a, b := Split(flat, known1).schema, Split(flat, known2).schema;
        if a != UNKNOWN && b != UNKNOWN {
          BothMatch(flat, a, b);
        }
      }
    } else {
      var s, t :| s in names && t in names && Matches(t, s);
      ExtensionDisagrees(s, t);
      assert {s} <= names && {t} <= names;
    }
  }

  lemma ExtensionDisagrees(s: string, t: string)
    requires Matches(t, s)
    ensures Split(t + ['_'], {s}).schema == s && Split(t + ['_'], {t}).schema == t
  {
    var a, b := Name(s, t[|s| + 1..] + ['_']), Name(t, "");
    assert Flat(a) == t + ['_'] && Flat(b) == t + ['_'];
    SplitOfLongest(a, {s});
    SplitOfLongest(b, {t});
  }

  // -------------------------------------------------------------------------
  // Independence of the registry
  // -------------------------------------------------------------------------

  // The registry as it is loaded: rows by the lower-cased join of their name.
  datatype Row = Row(name: Name, pk: seq<string>)

  ghost predicate Keyed(rows: map<string, Row>) {
    forall f :: f in rows ==> f == Lower(Flat(rows[f].name))
  }

  // With all schema names in `names`.
  ghost predicate Loaded(names: set<string>, rows: map<string, Row>, known: set<string>) {
    Keyed(rows) && known <= names && forall f :: f in rows ==> rows[f].name.schema in names
  }

  function Resolve(flat: string, rows: map<string, Row>, known: set<string>): Name {
    if flat in rows then rows[flat].name else Split(flat, known)
  }

  // No two names are alike but for their case, and none extends another one with an underscore.
  ghost predicate Separated(names: set<string>) {
    forall s, t :: s in names && t in names && s != t ==> Lower(s) != Lower(t) && !Matches(Lower(t), Lower(s))
  }

  lemma LowerFlat(n: Name)
    ensures Lower(Flat(n)) == Lower(n.schema) + ['_'] + Lower(n.table)
  {
  }

  // A schema that is resolved matches the stem in lower case.
  lemma ResolvedMatches(flat: string, rows: map<string, Row>, known: set<string>)
    requires Keyed(rows) && IsLower(flat)
    ensures var x := Resolve(flat, rows, known).schema; x == UNKNOWN || Matches(flat, Lower(x))
  {
    if flat in rows {
      LowerFlat(rows[flat].name);
    } else if Split(flat, known).schema != UNKNOWN {
      var x := Split(flat, known).schema;
      assert forall c :: c in x ==> c in flat;
      LowerOfLower(x);
    }
  }

  /** Two registries with separated schema names resolve a file to the same schema, or one of them
      does not know it. A stem is in lower case. */
  lemma ResolutionAgrees(
    flat: string, names: set<string>, rows1: map<string, Row>, known1: set<string>, rows2: map<string, Row>,
    known2: set<string>)
    requires Separated(names) && IsLower(flat) && Loaded(names, rows1, known1) && Loaded(names, rows2, known2)
    ensures Agree(Resolve(flat, rows1, known1).schema, Resolve(flat, rows2, known2).schema)
  {
    ResolvedMatches(flat, rows1, known1);
    ResolvedMatches(flat, rows2, known2);
    var a, b := Resolve(flat, rows1, known1).schema, Resolve(flat, rows2, known2).schema;
    if a != UNKNOWN && b != UNKNOWN {
      BothMatch(flat, Lower(a), Lower(b));
    }
  }

  ghost predicate ResolutionsAgree(names: set<string>) {
    forall flat, rows1, known1, rows2, known2 ::
      IsLower(flat) && Loaded(names, rows1, known1) && Loaded(names, rows2, known2) ==>
        Agree(Resolve(flat, rows1, known1).schema, Resolve(flat, rows2, known2).schema)
  }

  /** And that is exact: any two registries over a set of schema names agree on every file if and only
      if the names are separated. */
  lemma ResolutionsAgreeIff(names: set<string>)
    requires UNKNOWN !in names
    ensures ResolutionsAgree(names) <==> Separated(names)
  {
    if Separated(names) {
      forall flat, rows1, known1, rows2, known2 |
        IsLower(flat) && Loaded(names, rows1, known1) && Loaded(names, rows2, known2)
        ensures Agree(Resolve(flat, rows1, known1).schema, Resolve(flat, rows2, known2).schema)
      {
        ResolutionAgrees(flat, names, rows1, known1, rows2, known2);
      }
    } else {
      var s, t :| s in names && t in names && s != t && (Lower(s) == Lower(t) || Matches(Lower(t), Lower(s)));
      var a := Name(s, if Lower(s) == Lower(t) then "" else t[|s| + 1..] + ['_']);
      SameFile(s, t);
      OneRow(names, a);
      OneRow(names, Name(t, ""));
      LowerIsLower(Flat(a));
    }
  }

  // One row of each registry, for the same file.
  lemma SameFile(s: string, t: string)
    requires Lower(s) == Lower(t) || Matches(Lower(t), Lower(s))
    ensures |s| <= |t|
    ensures Lower(s) != Lower(t) ==> |s| < |t|
    ensures Lower(Flat(Name(s, if Lower(s) == Lower(t) then "" else t[|s| + 1..] + ['_']))) == Lower(Flat(Name(t, "")))
  {
    if Lower(s) != Lower(t) {
      var rest := t[|s| + 1..];
      var x, y := Lower(Flat(Name(s, rest + ['_']))), Lower(Flat(Name(t, "")));
      assert |x| == |y|;
      forall i | 0 <= i < |x| ensures x[i] == y[i] {
        if i < |s| {
          assert Lower(t)[..|s|][i] == Lower(s)[i];
        }
      }
    }
  }

  lemma OneRow(names: set<string>, n: Name)
    requires n.schema in names
    ensures var f := Lower(Flat(n)); var rows := map[f := Row(n, [])];
            Loaded(names, rows, {n.schema}) && Resolve(f, rows, {n.schema}) == n
  {
  }

  lemma LowerIsLower(s: string)
    ensures IsLower(Lower(s))
  {
    forall c | c in Lower(s) ensures !('A' <= c <= 'Z') {
      var i :| 0 <= i < |s| && Lower(s)[i] == c;
    }
  }

  predicate NoUnderscore(s: string) {
    '_' !in s
  }

  lemma NoExtension(t: string, s: string)
    requires NoUnderscore(t)
    ensures !Matches(t, s)
  {
  }

  /** Lower-case names without underscores, such as the service groups, are separated. */
  lemma PlainAreSeparated(names: set<string>)
    requires forall s :: s in names ==> NoUnderscore(s) && IsLower(s)
    ensures Separated(names)
  {
    forall s, t | s in names && t in names && s != t ensures Lower(s) != Lower(t) && !Matches(Lower(t), Lower(s)) {
      LowerOfLower(s);
      LowerOfLower(t);
      NoExtension(t, s);
    }
  }

  // -------------------------------------------------------------------------
  // The two pipelines
  // -------------------------------------------------------------------------

  const SNAPSHOT_ONLY_GROUPS := {
    "assets", "checklists", "clashes", "classifications", "dailylogs",
    "estimates", "forms", "iq", "issuesbim360", "markups", "packages", "photos",
    "relationships", "reviews", "submittals", "takeoff"
  }

  const DELTA_CDC_GROUPS := {
    "cdcadmin", "cdccost", "cdcissues", "cdclocations", "cdcmeetingminutes",
    "cdcrfis", "cdcschedule", "cdcsubmittalsacc", "cdcsheets", "cdctransmittals"
  }

  // Pipeline A registers a table of a snapshot-only schema, pipeline B one of a delta schema.
  predicate SnapshotRegisters(flat: string, rows: map<string, Row>, known: set<string>) {
    Resolve(flat, rows, known).schema in SNAPSHOT_ONLY_GROUPS
  }

  predicate DeltaRegisters(flat: string, rows: map<string, Row>, known: set<string>) {
    Resolve(flat, rows, known).schema in DELTA_CDC_GROUPS
  }

  predicate IsCdc(s: string) {
    |s| > 4 && s != UNKNOWN && s[0] == 'c' && s[1] == 'd' && s[2] == 'c'
  }

  lemma DeltaGroupsAreCdc(s: string)
    requires s in DELTA_CDC_GROUPS
    ensures IsCdc(s)
  {
  }

  // A snapshot group starts otherwise, in its first two letters.
  predicate StartsOtherwise(s: string) {
    |s| > 1 && s != UNKNOWN && 'a' <= s[0] <= 'z' && (s[0] == 'c' ==> s[1] == 'h' || s[1] == 'l')
  }

  lemma SnapshotGroupsAreNot(s: string)
    requires s in SNAPSHOT_ONLY_GROUPS
    ensures StartsOtherwise(s)
  {
    assert s[0] == 'a' || s[0] == 'c' || s[0] == 'd' || s[0] == 'e' || s[0] == 'f' || s[0] == 'i' || s[0] == 'm' ||
           s[0] == 'p' || s[0] == 'r' || s[0] == 's' || s[0] == 't';
    assert s[0] == 'c' ==> s[1] == 'h' || s[1] == 'l';
  }

  // A stem that matches in lower case begins with the name.
  lemma MatchBegins(flat: string, s: string, i: nat)
    requires Matches(flat, Lower(s)) && i < |s|
    ensures i < |flat| && flat[i] == LowerChar(s[i])
  {
    assert flat[..|s|][i] == Lower(s)[i];
  }

  lemma NoStemOfBoth(flat: string, a: string, b: string)
    requires StartsOtherwise(a) && IsCdc(b)
    ensures !(Matches(flat, Lower(a)) && Matches(flat, Lower(b)))
  {
    if Matches(flat, Lower(a)) {
      MatchBegins(flat, a, 0);
      MatchBegins(flat, a, 1);
      CdcBegins(flat, b);
    }
  }

  lemma CdcBegins(flat: string, b: string)
    requires IsCdc(b)
    ensures Matches(flat, Lower(b)) ==> |flat| > 1 && flat[0] == 'c' && flat[1] == 'd'
  {
    if Matches(flat, Lower(b)) {
      MatchBegins(flat, b, 0);
      MatchBegins(flat, b, 1);
    }
  }

  /** No Bronze table is ever registered by both pipelines, whatever the registry holds and even if
      each loads it at a different time. */
  lemma NeverBothPipelines(
    flat: string, rows1: map<string, Row>, known1: set<string>, rows2: map<string, Row>, known2: set<string>)
    requires IsLower(flat) && Keyed(rows1) && Keyed(rows2)
    ensures !(SnapshotRegisters(flat, rows1, known1) && DeltaRegisters(flat, rows2, known2))
  {
    var a, b := Resolve(flat, rows1, known1).schema, Resolve(flat, rows2, known2).schema;
    ResolvedMatches(flat, rows1, known1);
    ResolvedMatches(flat, rows2, known2);
    if a in SNAPSHOT_ONLY_GROUPS {
      SnapshotGroupsAreNot(a);
    }
    if b in DELTA_CDC_GROUPS {
      DeltaGroupsAreCdc(b);
    }
    if StartsOtherwise(a) && IsCdc(b) {
      NoStemOfBoth(flat, a, b);
    }
  }
}
