/** Derivation of connection ids, claim owners and workspace keys. */
module ConnectionIdentity {
  import opened PyText

  // The id keeps 32 hex digits of a SHA-256 digest. The model takes any injective function
  // in its place: what is proved holds up to digest collisions.
  ghost predicate Injective(f: string -> string) {
    forall a: string, b: string {:trigger f(a), f(b)} :: f(a) == f(b) ==> a == b
  }

  type Digest = f: string -> string | Injective(f) ghost witness (s: string) => s

  datatype Target = Target(hub: string, project: string, url: string, catalog: string)

  function NormalizeUrl(url: string): string {
    RStripSlash(Strip(url))
  }

  function Join(hub: string, project: string, url: string, catalog: string): string {
    hub + ['|'] + (project + ['|'] + (url + ['|'] + catalog))
  }

  // The normalised quadruple the id is computed from.
  function Normal(t: Target): Target {
    Target(Strip(t.hub), Strip(t.project), NormalizeUrl(Strip(t.url)), Strip(t.catalog))
  }

  // Every component is required; the workspace is checked before its slashes are cut.
  predicate Complete(t: Target) {
    Strip(t.hub) != "" && Strip(t.project) != "" && Strip(t.url) != "" && Strip(t.catalog) != ""
  }

  function ComputeId(digest: Digest, t: Target): string {
    var n := Normal(t);
    "cnx_" + digest(Join(n.hub, n.project, n.url, n.catalog))
  }

  const CLAIM_OWNER_PREFIX := "cnx:"

  function ClaimOwner(id: string): string {
    CLAIM_OWNER_PREFIX + id
  }

  predicate IsConnectionOwner(owner: string) {
    StartsWith(owner, CLAIM_OWNER_PREFIX)
  }

  lemma ClaimOwnerInjective(a: string, b: string)
    requires ClaimOwner(a) == ClaimOwner(b)
    ensures a == b
  {
    assert ClaimOwner(a)[4..] == a && ClaimOwner(b)[4..] == b;
  }

  predicate NoBar(s: string) {
    '|' !in s
  }

  // Cutting at the first bar undoes putting one there.
  lemma {:induction false} CutAtBar(a: string, x: string, b: string, y: string)
    requires NoBar(a) && NoBar(b)
    requires a + ['|'] + x == b + ['|'] + y
    ensures a == b && x == y
  {
    FirstOfConcat(a, '|', x, {'|'});
    FirstOfConcat(b, '|', y, {'|'});
    assert a == (a + ['|'] + x)[..|a|] && x == (a + ['|'] + x)[|a| + 1..];
    assert b == (b + ['|'] + y)[..|b|] && y == (b + ['|'] + y)[|b| + 1..];
  }

  predicate BarFree(t: Target) {
    NoBar(t.hub) && NoBar(t.project) && NoBar(t.url)
  }

  lemma NormalBarFree(t: Target)
    requires BarFree(t)
    ensures BarFree(Normal(t))
  {
    StripChars(t.hub);
    StripChars(t.project);
    StripChars(t.url);
    StripChars(Strip(t.url));
  }

  /** Equal ids come from equal normalised quadruples. The catalog may contain bars. */
  lemma {:induction false} IdDeterminesTarget(digest: Digest, t: Target, u: Target)
    requires BarFree(t) && BarFree(u)
    ensures ComputeId(digest, t) == ComputeId(digest, u) <==> Normal(t) == Normal(u)
  {
    if ComputeId(digest, t) == ComputeId(digest, u) {
      var m, n := Normal(t), Normal(u);
      NormalBarFree(t);
      NormalBarFree(u);
      var p, q := Join(m.hub, m.project, m.url, m.catalog), Join(n.hub, n.project, n.url, n.catalog);
      assert ("cnx_" + digest(p))[4..] == digest(p) && ("cnx_" + digest(q))[4..] == digest(q);
      assert p == q;
      CutAtBar(m.hub, m.project + ['|'] + (m.url + ['|'] + m.catalog),
               n.hub, n.project + ['|'] + (n.url + ['|'] + n.catalog));
      CutAtBar(m.project, m.url + ['|'] + m.catalog, n.project, n.url + ['|'] + n.catalog);
      CutAtBar(m.url, m.catalog, n.url, n.catalog);
    }
  }

  /** Without the bar condition targets that differ share an id, whatever the digest. */
  lemma BarsCollide(digest: Digest, t: Target, rest: string)
    requires Plain(t.hub) && Plain(t.project) && Plain(t.url) && Plain(rest) && Plain(t.catalog)
    ensures var u, v := t.(url := t.url + ['|'] + rest), t.(catalog := rest + ['|'] + t.catalog);
            Normal(u) != Normal(v) && ComputeId(digest, u) == ComputeId(digest, v)
  {
    var u, v := t.(url := t.url + ['|'] + rest), t.(catalog := rest + ['|'] + t.catalog);
    PlainBar(t.url, rest);
    PlainBar(rest, t.catalog);
    PlainIsNormal(u);
    PlainIsNormal(v);
    assert u.url + ['|'] + u.catalog == v.url + ['|'] + v.catalog;
    assert |u.catalog| != |v.catalog|;
  }

  lemma PlainBar(a: string, b: string)
    requires Plain(a) && Plain(b)
    ensures Plain(a + ['|'] + b)
  {
  }

  // Text that stripping and cutting slashes leave alone.
  predicate Plain(s: string) {
    s != "" && Spaceless(s) && s[|s| - 1] != '/'
  }

  lemma PlainIsNormal(t: Target)
    requires Plain(t.hub) && Plain(t.project) && Plain(t.url) && Plain(t.catalog)
    ensures Normal(t) == t && Complete(t)
  {
    StripSpaceless(t.hub);
    StripSpaceless(t.project);
    StripSpaceless(t.url);
    StripSpaceless(t.catalog);
  }

  // -------------------------------------------------------------------------
  // Workspace keys
  // -------------------------------------------------------------------------

  predicate IsLetter(c: char) {
    'a' <= c <= 'z' || 'A' <= c <= 'Z'
  }

  predicate IsScheme(s: string) {
    s != [] && IsLetter(s[0]) && forall c :: c in s ==> IsLetter(c) || '0' <= c <= '9' || c in {'+', '-', '.'}
  }

  // What ends an authority (section 3.2 of RFC 3986).
  const STOPS := {'/', '?', '#'}

  // urlparse(url).netloc: the authority after an optional scheme.
  function Authority(url: string): string {
    var i := FirstOf(url, {':'});
    var rest := if i < |url| && IsScheme(url[..i]) then url[i + 1..] else url;
    if |rest| >= 2 && rest[0] == '/' && rest[1] == '/' then rest[2..][..FirstOf(rest[2..], STOPS)] else ""
  }

  predicate HasSchemeMark(s: string) {
    exists k :: 0 <= k < |s| - 2 && s[k] == ':' && s[k + 1] == '/' && s[k + 2] == '/'
  }

  function Https(s: string): string {
    "https" + "://" + s
  }

  function WithScheme(raw: string): string {
    if HasSchemeMark(raw) then raw else Https(raw)
  }

  function WorkspaceKey(url: string): string {
    var raw := NormalizeUrl(url);
    if raw == "" then "" else Lower(Strip(Authority(WithScheme(raw))))
  }

  predicate EndsInSpace(s: string) {
    s != "" && IsSpace(s[|s| - 1])
  }

  lemma {:induction false} RStripSlashIdempotent(s: string)
    ensures RStripSlash(RStripSlash(s)) == RStripSlash(s)
  {
  }

  lemma NormalStarts(url: string)
    ensures StripLeft(NormalizeUrl(url)) == NormalizeUrl(url)
  {
    var n := NormalizeUrl(url);
    assert n <= Strip(url);
    assert n != "" ==> n[0] == Strip(url)[0];
  }

  /** Storing the normalised URL is idempotent exactly when cutting slashes left no space at the
      end, and then it keeps the workspace key. Spaces elsewhere do no harm. */
  lemma NormalizeKeepsKey(url: string)
    ensures NormalizeUrl(NormalizeUrl(url)) == NormalizeUrl(url) <==> !EndsInSpace(NormalizeUrl(url))
    ensures !EndsInSpace(NormalizeUrl(url)) ==> WorkspaceKey(NormalizeUrl(url)) == WorkspaceKey(url)
  {
    var n := NormalizeUrl(url);
    NormalStarts(url);
    RStripSlashIdempotent(Strip(url));
    if EndsInSpace(n) {
      assert |StripRight(n)| < |n|;
    } else {
      assert StripRight(n) == n;
    }
  }

  function Doubled(h: string): string {
    ['/', '/'] + h + [':', '/', '/']
  }

  /** With a space at its end the stored form can lose its key: cutting the space uncovers the slashes
      of the scheme mark. So it is for `//host:// /`, whatever the host. */
  lemma EndSpaceLosesKey(h: string)
    requires IsHost(h)
    ensures var url := Doubled(h) + [' ', '/'];
            WorkspaceKey(url) == Lower(h + [':']) && WorkspaceKey(NormalizeUrl(url)) == ""
  {
    CutToSpace(h);
    SpacedMark(h);
    SpacedAuthority(h);
    KeyIs(Doubled(h) + [' ', '/'], Doubled(h) + [' '], h + [':']);
    CutToColon(h);
    ColonAuthority(h);
  }

  lemma KeyIs(url: string, raw: string, host: string)
    requires NormalizeUrl(url) == raw != "" && Authority(WithScheme(raw)) == host && Spaceless(host)
    ensures WorkspaceKey(url) == Lower(host)
  {
    StripSpaceless(host);
  }

  lemma CutToSpace(h: string)
    ensures var url := Doubled(h) + [' ', '/'];
            Strip(url) == url && NormalizeUrl(url) == Doubled(h) + [' ']
  {
    var url, n := Doubled(h) + [' ', '/'], Doubled(h) + [' '];
    assert StripLeft(url) == url && StripRight(url) == url;
    assert url == n + ['/'];
    RStripOneSlash(n);
  }

  lemma SpacedMark(h: string)
    ensures var n := Doubled(h) + [' ']; WithScheme(n) == n
  {
    var n := Doubled(h) + [' '];
    assert n[|h| + 2] == ':' && n[|h| + 2 + 1] == '/' && n[|h| + 2 + 2] == '/';
  }

  lemma SpacedAuthority(h: string)
    requires IsHost(h)
    ensures Authority(Doubled(h) + [' ']) == h + [':']
  {
    var x := h + [':', '/', '/', ' '];
    assert Doubled(h) + [' '] == ['/', '/'] + x;
    AuthorityWithoutScheme(x);
    HostStops(h + [':'], ['/', '/', ' ']);
    assert x == h + [':'] + ['/', '/', ' '];
  }

  lemma CutToColon(h: string)
    ensures NormalizeUrl(Doubled(h) + [' ']) == ['/', '/'] + h + [':']
  {
    var d, e := Doubled(h), ['/', '/'] + h + [':'];
    assert StripLeft(d + [' ']) == d + [' '];
    StripRightSpace(d, ' ');
    assert StripRight(d) == d;
    assert d == e + ['/'] + ['/'];
    RStripOneSlash(e + ['/']);
    RStripOneSlash(e);
  }

  lemma ColonAuthority(h: string)
    requires IsHost(h)
    ensures var e := ['/', '/'] + h + [':']; Lower(Strip(Authority(WithScheme(e)))) == ""
  {
    var e := ['/', '/'] + h + [':'];
    assert forall i | 0 <= i < |h| :: h[i] in h;
    assert forall k | 2 <= k < |e| :: e[k] != '/';
    assert !HasSchemeMark(e);
    AuthorityAfterScheme("https", e);
    assert FirstOf(e, STOPS) == 0;
  }

  // Text that begins with two slashes has no scheme.
  lemma AuthorityWithoutScheme(x: string)
    ensures Authority(['/', '/'] + x) == x[..FirstOf(x, STOPS)]
  {
    var url := ['/', '/'] + x;
    var i := FirstOf(url, {':'});
    assert i > 0 && !IsScheme(url[..i]);
    assert url[2..] == x;
  }

  lemma {:induction false} StripLeftSnoc(s: string, c: char)
    requires !IsSpace(c)
    ensures StripLeft(s + [c]) == StripLeft(s) + [c]
  {
    if s == "" {
      assert s + [c] == [c];
    } else if IsSpace(s[0]) {
      assert (s + [c])[1..] == s[1..] + [c];
      StripLeftSnoc(s[1..], c);
    }
  }

  lemma {:induction false} StripLeftKeepsEnd(s: string)
    requires s != "" && !IsSpace(s[|s| - 1])
    ensures StripLeft(s) != "" && StripLeft(s)[|StripLeft(s)| - 1] == s[|s| - 1]
  {
    if IsSpace(s[0]) {
      StripLeftKeepsEnd(s[1..]);
    }
  }

  /** One more trailing slash keeps the key of a URL that does not end in a space. */
  lemma TrailingSlash(url: string)
    requires !EndsInSpace(url)
    ensures NormalizeUrl(url + ['/']) == NormalizeUrl(url) && WorkspaceKey(url + ['/']) == WorkspaceKey(url)
  {
    StripLeftSnoc(url, '/');
    if url != "" {
      StripLeftKeepsEnd(url);
    }
    var s := StripLeft(url);
    assert (s + ['/'])[..|s|] == s;
  }

  predicate IsHost(h: string) {
    h != "" && Spaceless(h) && forall c :: c in h ==> c !in STOPS
  }

  // What may follow the host in a trimmed URL: a path, a query or a fragment, not ending in a slash.
  predicate IsTail(tail: string) {
    tail == "" || (tail[0] in STOPS && tail[|tail| - 1] != '/' && !IsSpace(tail[|tail| - 1]))
  }

  /** Every shape in which a workspace is pasted has the host, in lower case, as its key: any scheme
      or none, and nothing, a path, a query or a fragment after the host. Trailing slashes are
      `TrailingSlash`. Without a scheme the text must not hold a scheme mark further on. */
  lemma KeyOfHost(scheme: string, h: string, tail: string)
    requires IsHost(h) && IsTail(tail)
    requires if scheme == "" then !HasSchemeMark(h + tail) else IsScheme(scheme)
    ensures WorkspaceKey(if scheme == "" then h + tail else scheme + "://" + (h + tail)) == Lower(h)
  {
    var url := if scheme == "" then h + tail else scheme + "://" + (h + tail);
    NoTrim(scheme, h, tail);
    HostStops(h, tail);
    AuthorityAfterScheme(if scheme == "" then "https" else scheme, h + tail);
    if scheme != "" {
      SchemeMarked(scheme, h + tail);
    }
    KeyIs(url, url, h);
  }

  lemma SchemeMarked(scheme: string, x: string)
    requires x != ""
    ensures WithScheme(scheme + "://" + x) == scheme + "://" + x
  {
    var url := scheme + "://" + x;
    assert url[|scheme|] == ':' && url[|scheme| + 1] == '/' && url[|scheme| + 2] == '/';
  }

  lemma NoTrim(scheme: string, h: string, tail: string)
    requires IsHost(h) && IsTail(tail) && (scheme == "" || IsScheme(scheme))
    ensures var url := if scheme == "" then h + tail else scheme + "://" + (h + tail); NormalizeUrl(url) == url
  {
    var url := if scheme == "" then h + tail else scheme + "://" + (h + tail);
    assert h[0] in h && h[|h| - 1] in h;
    assert url[|url| - 1] == if tail == "" then h[|h| - 1] else tail[|tail| - 1];
    assert url[0] == if scheme == "" then h[0] else scheme[0];
    assert StripLeft(url) == url && StripRight(url) == url && RStripSlash(url) == url;
  }

  lemma AuthorityAfterScheme(scheme: string, x: string)
    requires IsScheme(scheme)
    ensures Authority(scheme + "://" + x) == x[..FirstOf(x, STOPS)]
  {
    var url := scheme + "://" + x;
    assert forall i | 0 <= i < |scheme| :: scheme[i] in scheme;
    FirstOfConcat(scheme, ':', "//" + x, {':'});
    assert url == scheme + [':'] + ("//" + x);
    assert url[..|scheme|] == scheme && url[|scheme| + 1..][2..] == x;
  }

  lemma HostStops(h: string, tail: string)
    requires IsHost(h) && (tail == "" || tail[0] in STOPS)
    ensures (h + tail)[..FirstOf(h + tail, STOPS)] == h
  {
    assert forall i | 0 <= i < |h| :: h[i] in h;
    if tail == "" {
      assert h + tail == h;
    } else {
      FirstOfConcat(h, tail[0], tail[1..], STOPS);
      assert h + tail == h + [tail[0]] + tail[1..];
    }
  }
}
