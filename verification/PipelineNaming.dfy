/** Names of the five Databricks artifacts provisioned for a catalog. Artifacts are found, replaced
    and deleted by name, so two catalogs that share a name share the artifact. */
module PipelineNaming {
  import opened PyText
  import opened Wrappers

  const MAX_SLUG := 40
  const HASH_LEN := 8

  // The first hex digits of a SHA-256 digest: any function with answers of that length.
  ghost predicate Short(f: string -> string) {
    forall s: string {:trigger f(s)} :: |f(s)| == HASH_LEN
  }

  type ShortDigest = f: string -> string | Short(f) ghost witness (s: string) => "00000000"

  datatype Role = SnapshotPipeline | CdcPipeline | SnapshotWorkflow | CdcWorkflow | DownloadJob

  function Prefix(role: Role): string {
    if role.DownloadJob? then "CCTech_FormaConnector_" else "CCTech_ACCConnector_"
  }

  function Suffix(role: Role): string {
    match role
    case SnapshotPipeline => "_PipelineA_Snapshot"
    case CdcPipeline => "_PipelineB_DeltaCDC"
    case SnapshotWorkflow => "_Snapshot_Sync"
    case CdcWorkflow => "_CDC_Sync"
    case DownloadJob => "_DCDownloader"
  }

  function Shorten(digest: ShortDigest, name: string): string {
    if |name| <= MAX_SLUG then name else name[..MAX_SLUG] + "_" + digest(name)
  }

  // None for a blank name, where the source raises.
  function CatalogSlug(digest: ShortDigest, catalog: string): Option<string> {
    var name := Strip(catalog);
    if name == "" then None else Some(Shorten(digest, name))
  }

  function Named(role: Role, slug: string): string {
    Prefix(role) + slug + Suffix(role)
  }

  function ArtifactName(digest: ShortDigest, role: Role, catalog: string): Option<string> {
    var slug := CatalogSlug(digest, catalog);
    if slug.None? then None else Some(Named(role, slug.value))
  }

  // Long names the slug cannot tell apart.
  predicate Confused(digest: ShortDigest, a: string, b: string) {
    |a| > 40 && |b| > 40 && a[..40] == b[..40] && digest(a) == digest(b)
  }

  lemma ShortenEqualIff(digest: ShortDigest, a: string, b: string)
    ensures Shorten(digest, a) == Shorten(digest, b) <==> a == b || Confused(digest, a, b)
  {
    var x, y := Shorten(digest, a), Shorten(digest, b);
    if |a| > MAX_SLUG {
      assert x[..MAX_SLUG] == a[..MAX_SLUG] && x[MAX_SLUG + 1..] == digest(a);
    }
    if |b| > MAX_SLUG {
      assert y[..MAX_SLUG] == b[..MAX_SLUG] && y[MAX_SLUG + 1..] == digest(b);
    }
  }

  // The role shows in the last character, or for the workflows in the sixth from the end.
  lemma RoleShows(r: Role, a: string, q: Role, b: string)
    requires Named(r, a) == Named(q, b)
    ensures r == q
  {
    var x, y := Named(r, a), Named(q, b);
    var n := |x|;
    assert x[n - 1] == Suffix(r)[|Suffix(r)| - 1] && y[n - 1] == Suffix(q)[|Suffix(q)| - 1];
    assert x[n - 6] == Suffix(r)[|Suffix(r)| - 6] && y[n - 6] == Suffix(q)[|Suffix(q)| - 6];
  }

  lemma SlugShows(role: Role, a: string, b: string)
    requires Named(role, a) == Named(role, b)
    ensures a == b
  {
    var x, y := Named(role, a), Named(role, b);
    assert |a| == |b|;
    assert a == x[|Prefix(role)|..|Prefix(role)| + |a|];
    assert b == y[|Prefix(role)|..|Prefix(role)| + |b|];
  }

  /** Two artifact names are equal exactly when they are the same role of the same catalog, or of two
      catalogs over 40 characters that agree in the first 40 and in the short digest. */
  lemma NamesCollideIff(digest: ShortDigest, r: Role, a: string, q: Role, b: string)
    requires Strip(a) != "" && Strip(b) != ""
    ensures ArtifactName(digest, r, a) == ArtifactName(digest, q, b) <==>
            r == q && (Strip(a) == Strip(b) || Confused(digest, Strip(a), Strip(b)))
  {
    var x, y := Shorten(digest, Strip(a)), Shorten(digest, Strip(b));
    ShortenEqualIff(digest, Strip(a), Strip(b));
    if Named(r, x) == Named(q, y) {
      RoleShows(r, x, q, y);
      SlugShows(r, x, y);
    }
  }

  /** So catalogs of which one has at most 40 characters never share an artifact. */
  lemma ShortCatalogsAreApart(digest: ShortDigest, a: string, b: string)
    requires Strip(a) != "" && Strip(b) != "" && Strip(a) != Strip(b) && |Strip(a)| <= 40
    ensures forall r, q :: ArtifactName(digest, r, a) != ArtifactName(digest, q, b)
  {
    forall r, q ensures ArtifactName(digest, r, a) != ArtifactName(digest, q, b) {
      NamesCollideIff(digest, r, a, q, b);
    }
  }
}
