/** Reference arithmetic of go-shim/sigstore.go: the repository of a reference,
    the one form given to the spellings of a repository, and whether a
    signature's claimed identity names the repository pulled from. */
module Repository {
  import opened Wrappers
  import opened Text

  const HUB: Bytes := "docker.io"
  const INDEX: Bytes := "index.docker.io"
  const REGISTRY: Bytes := "registry-1.docker.io"
  const LIBRARY: Bytes := "library/"
  const SLASH: Bytes := "/"

  function RepositoryOf(ref: Bytes): Bytes {
    var at := LastIndex(ref, '@');
    var named := if at >= 0 then ref[..at] else ref;
    var colon := LastIndex(named, ':');
    if colon > LastIndex(named, '/') then named[..colon] else named
  }

  /** The part before the first slash and, if there is a slash, the part after
      it. */
  function Cut(s: Bytes): (r: (Bytes, Option<Bytes>))
    ensures '/' !in r.0
    ensures s == Rendered(r.0, r.1)
  {
    if s == [] then ([], None)
    else if s[0] == '/' then ([], Some(s[1..]))
    else
      var r := Cut(s[1..]);
      ([s[0]] + r.0, r.1)
  }

  function Rendered(first: Bytes, rest: Option<Bytes>): Bytes {
    match rest
    case None => first
    case Some(path) => first + SLASH + path
  }

  /** Docker's rule for telling a registry host from a namespace. */
  predicate IsHost(first: Bytes) {
    '.' in first || ':' in first || first == "localhost"
  }

  function CutPrefix(s: Bytes, p: Bytes): Option<Bytes> {
    if |p| <= |s| && s[..|p|] == p then Some(s[|p|..]) else None
  }

  function CanonicalHere(repo: Bytes): Bytes {
    var (first, rest) := Cut(repo);
    if !IsHost(first) then
      if rest.Some? then HUB + SLASH + first + SLASH + rest.value else HUB + SLASH + LIBRARY + first
    else
      var path := CutPrefix(repo, HUB + SLASH);
      if path.Some? && '/' !in path.value then HUB + SLASH + LIBRARY + path.value else repo
  }

  function Canonical(repo: Bytes): Bytes
    decreases if CutPrefix(repo, HUB + SLASH).Some? then 0 else 1
  {
    if repo == INDEX then HUB
    else if CutPrefix(repo, INDEX + SLASH).Some? then
      HubPrefixed(CutPrefix(repo, INDEX + SLASH).value);
      NotHub(repo, INDEX);
      Canonical(HUB + SLASH + CutPrefix(repo, INDEX + SLASH).value)
    else if repo == REGISTRY then HUB
    else if CutPrefix(repo, REGISTRY + SLASH).Some? then
      HubPrefixed(CutPrefix(repo, REGISTRY + SLASH).value);
      NotHub(repo, REGISTRY);
      Canonical(HUB + SLASH + CutPrefix(repo, REGISTRY + SLASH).value)
    else CanonicalHere(repo)
  }

  lemma HubPrefixed(rest: Bytes)
    ensures CutPrefix(HUB + SLASH + rest, HUB + SLASH) == Some(rest)
  {
  }

  lemma NotHub(repo: Bytes, alias: Bytes)
    requires alias == INDEX || alias == REGISTRY
    requires CutPrefix(repo, alias + SLASH).Some?
    ensures CutPrefix(repo, HUB + SLASH).None?
  {
    assert repo[0] == alias[0];
    assert repo[0] != HUB[0];
  }

  // ----- the host and the path a repository names -----

  predicate IsHub(host: Bytes) {
    host == HUB || host == INDEX || host == REGISTRY
  }

  /** The registry host, Docker Hub's spellings and the implicit default being
      one, and the path there, with the implied `library/`. */
  function Resolved(repo: Bytes): (Bytes, Option<Bytes>) {
    var (first, rest) := Cut(repo);
    if !IsHost(first) then (HUB, Some(InLibrary(repo)))
    else if IsHub(first) then (HUB, if rest.Some? then Some(InLibrary(rest.value)) else None)
    else (first, rest)
  }

  function InLibrary(path: Bytes): Bytes {
    if '/' in path then path else LIBRARY + path
  }

  lemma {:induction false} CutIs(first: Bytes, rest: Option<Bytes>)
    requires '/' !in first
    ensures Cut(Rendered(first, rest)) == (first, rest)
  {
    var s: Bytes := Rendered(first, rest);
    if first == [] {
      if rest.Some? {
        assert s[1..] == rest.value;
      }
    } else {
      CutIs(first[1..], rest);
      assert s[0] == first[0] && s[1..] == Rendered(first[1..], rest);
      assert [first[0]] + first[1..] == first;
    }
  }

  lemma HostPrefix(repo: Bytes, host: Bytes)
    requires '/' !in host
    ensures CutPrefix(repo, host + SLASH).Some? <==> Cut(repo).0 == host && Cut(repo).1.Some?
    ensures CutPrefix(repo, host + SLASH).Some? ==> Cut(repo).1 == CutPrefix(repo, host + SLASH)
    ensures repo == host <==> Cut(repo) == (host, None)
  {
    var cut := CutPrefix(repo, host + SLASH);
    CutIs(host, None);
    if cut.Some? {
      assert repo == Rendered(host, cut);
      CutIs(host, cut);
    }
    if Cut(repo).0 == host && Cut(repo).1.Some? {
      RenderedPrefix(host, Cut(repo).1.value);
    }
  }

  lemma RenderedPrefix(host: Bytes, path: Bytes)
    ensures CutPrefix(Rendered(host, Some(path)), host + SLASH) == Some(path)
  {
  }

  lemma HubCases(path: Bytes)
    ensures CanonicalHere(HUB + SLASH + path) == HUB + SLASH + InLibrary(path)
  {
    hide InLibrary;
    assert HUB + SLASH + path == Rendered(HUB, Some(path));
    CutIs(HUB, Some(path));
    HubPrefixed(path);
    assert HUB[6] == '.';
    LibraryOnce(path);
  }

  lemma LibraryOnce(path: Bytes)
    ensures HUB + SLASH + InLibrary(path) == if '/' in path then HUB + SLASH + path else HUB + SLASH + LIBRARY + path
  {
  }

  lemma NamespaceIsRendered(repo: Bytes)
    requires !IsHost(Cut(repo).0)
    ensures CanonicalHere(repo) == HUB + SLASH + InLibrary(repo)
  {
  }

  lemma {:induction false} HereIsRendered(repo: Bytes)
    requires Cut(repo).0 != INDEX && Cut(repo).0 != REGISTRY
    ensures CanonicalHere(repo) == Rendered(Resolved(repo).0, Resolved(repo).1)
  {
    hide CutPrefix, Cut, InLibrary;
    var (first, rest) := Cut(repo);
    HostPrefix(repo, HUB);
    if !IsHost(first) {
      NamespaceIsRendered(repo);
    } else if first == HUB && rest.Some? {
      HubCases(rest.value);
    }
  }

  /** Not an alias: only the last branch of `Canonical` applies. */
  lemma {:induction false} NoAlias(repo: Bytes)
    requires Cut(repo).0 != INDEX && Cut(repo).0 != REGISTRY
    ensures Canonical(repo) == CanonicalHere(repo)
  {
    hide CutPrefix, CanonicalHere, Cut;
    HostPrefix(repo, INDEX);
    HostPrefix(repo, REGISTRY);
  }

  lemma HubItself(path: Bytes)
    ensures Canonical(HUB + SLASH + path) == HUB + SLASH + InLibrary(path)
  {
    hide Canonical, CanonicalHere, InLibrary;
    CutIs(HUB, Some(path));
    assert HUB[0] != INDEX[0] && HUB[0] != REGISTRY[0];
    NoAlias(HUB + SLASH + path);
    HubCases(path);
  }

  lemma {:induction false} Aliased(repo: Bytes)
    requires Cut(repo).0 == INDEX || Cut(repo).0 == REGISTRY
    ensures Canonical(repo) == match Cut(repo).1 { case None => HUB case Some(path) => Canonical(HUB + SLASH + path) }
  {
    hide CutPrefix, CanonicalHere, Cut;
    HostPrefix(repo, INDEX);
    HostPrefix(repo, REGISTRY);
    assert INDEX[0] != REGISTRY[0];
  }

  /** The canonical form spells out the resolved host and path. */
  lemma {:induction false} CanonicalIsRendered(repo: Bytes)
    ensures Canonical(repo) == Rendered(Resolved(repo).0, Resolved(repo).1)
  {
    hide Canonical, CanonicalHere, Cut, InLibrary;
    var (first, rest) := Cut(repo);
    assert INDEX[5] == '.' && REGISTRY[10] == '.';
    if first == INDEX || first == REGISTRY {
      Aliased(repo);
      if rest.Some? {
        HubItself(rest.value);
      }
    } else {
      NoAlias(repo);
      HereIsRendered(repo);
    }
  }

  /** The canonical form, spelled out: without a dot, a colon or `localhost` the
      part before the first slash is no host and the repository is on Docker Hub,
      whose three names are one; any other repository is its own form. */
  lemma FormIs(first: Bytes, path: Option<Bytes>)
    requires '/' !in first
    ensures var repo: Bytes := if path.Some? then first + "/" + path.value else first;
      if '.' !in first && ':' !in first && first != "localhost" then
        Canonical(repo) == if path.Some? then "docker.io/" + repo else "docker.io/library/" + repo
      else if first == "docker.io" || first == "index.docker.io" || first == "registry-1.docker.io" then
        Canonical(repo) ==
          if path.None? then "docker.io"
          else if '/' in path.value then "docker.io/" + path.value
          else "docker.io/library/" + path.value
      else Canonical(repo) == repo
  {
    hide Canonical, Cut, Rendered;
    var repo: Bytes := if path.Some? then first + "/" + path.value else first;
    RenderedIs(first, path);
    CutIs(first, path);
    CanonicalIsRendered(repo);
    RenderedIs(Resolved(repo).0, Resolved(repo).1);
    if path.Some? {
      assert repo[|first|] == '/';
      InHub(path.value);
    }
    InHub(repo);
  }

  lemma RenderedIs(first: Bytes, rest: Option<Bytes>)
    ensures Rendered(first, rest) == if rest.Some? then first + "/" + rest.value else first
  {
  }

  lemma InHub(path: Bytes)
    ensures HUB + "/" + InLibrary(path) == if '/' in path then "docker.io/" + path else "docker.io/library/" + path
  {
    var hub, library: Bytes := "docker.io/", "docker.io/library/";
    assert HUB + "/" == hub && hub + LIBRARY == library;
    assert hub + (LIBRARY + path) == (hub + LIBRARY) + path;
  }

  lemma ResolvedHost(repo: Bytes)
    ensures var (host, path) := Resolved(repo);
      '/' !in host && IsHost(host) && (IsHub(host) ==> host == HUB && (path.Some? ==> '/' in path.value))
  {
    assert HUB[6] == '.';
    assert LIBRARY[7] == '/';
  }

  /** Two repositories get one form exactly when they name the same host and the
      same path there. */
  lemma CanonicalIffSame(a: Bytes, b: Bytes)
    ensures Canonical(a) == Canonical(b) <==> Resolved(a) == Resolved(b)
  {
    hide Canonical, Cut, Rendered, Resolved, IsHost, IsHub;
    CanonicalIsRendered(a);
    CanonicalIsRendered(b);
    ResolvedHost(a);
    ResolvedHost(b);
    CutIs(Resolved(a).0, Resolved(a).1);
    CutIs(Resolved(b).0, Resolved(b).1);
  }

  lemma {:induction false} CanonicalIsIdempotent(repo: Bytes)
    ensures Resolved(Canonical(repo)) == Resolved(repo)
    ensures Canonical(Canonical(repo)) == Canonical(repo)
  {
    hide Canonical, Cut, Rendered;
    CanonicalIsRendered(repo);
    ResolvedHost(repo);
    CutIs(Resolved(repo).0, Resolved(repo).1);
    CanonicalIsRendered(Canonical(repo));
  }

  // ----- references to a repository -----

  /** No digest mark, and no colon where a tag would begin. */
  predicate PlainRepository(repo: Bytes) {
    '@' !in repo && LastIndex(repo, ':') <= LastIndex(repo, '/')
  }

  predicate PlainTag(tag: Bytes) {
    '/' !in tag && ':' !in tag && '@' !in tag
  }

  function Tagged(repo: Bytes, tag: Option<Bytes>): Bytes {
    if tag.Some? then repo + [':'] + tag.value else repo
  }

  function Reference(repo: Bytes, tag: Option<Bytes>, digest: Option<Bytes>): Bytes {
    if digest.Some? then Tagged(repo, tag) + ['@'] + digest.value else Tagged(repo, tag)
  }

  predicate WellFormed(repo: Bytes, tag: Option<Bytes>, digest: Option<Bytes>) {
    PlainRepository(repo) && (tag.Some? ==> PlainTag(tag.value)) && (digest.Some? ==> '@' !in digest.value)
  }

  lemma NotPast(repo: Bytes, tag: Bytes, c: Byte)
    requires c !in tag
    ensures forall k | |repo| < k < |repo + [':'] + tag| :: (repo + [':'] + tag)[k] != c
    ensures c != ':' ==> forall k | LastIndex(repo, c) < k < |repo + [':'] + tag| :: (repo + [':'] + tag)[k] != c
  {
  }

  lemma {:induction false} TagIsStripped(repo: Bytes, tag: Bytes)
    requires PlainRepository(repo) && PlainTag(tag)
    ensures LastIndex(repo + [':'] + tag, ':') == |repo|
    ensures LastIndex(repo + [':'] + tag, '/') == LastIndex(repo, '/')
    ensures '@' !in repo + [':'] + tag
  {
    hide LastIndex;
    var s: Bytes := repo + [':'] + tag;
    NotPast(repo, tag, ':');
    NotPast(repo, tag, '/');
    LastIndexIs(s, ':', |repo|);
    LastIndexIs(s, '/', LastIndex(repo, '/'));
  }

  lemma {:induction false} DigestIsStripped(named: Bytes, digest: Bytes)
    requires '@' !in digest
    ensures LastIndex(named + ['@'] + digest, '@') == |named|
  {
    LastIndexIs(named + ['@'] + digest, '@', |named|);
  }

  lemma NoneThere(s: Bytes, c: Byte)
    requires c !in s
    ensures LastIndex(s, c) == -1
  {
  }

  /** The repository of a reference is what tag and digest were added to. */
  lemma RepositoryIsKept(repo: Bytes, tag: Option<Bytes>, digest: Option<Bytes>)
    requires WellFormed(repo, tag, digest)
    ensures RepositoryOf(Reference(repo, tag, digest)) == repo
  {
    hide LastIndex;
    var named: Bytes := Tagged(repo, tag);
    if tag.Some? {
      TagIsStripped(repo, tag.value);
      assert named[..|repo|] == repo;
    }
    if digest.Some? {
      DigestIsStripped(named, digest.value);
      assert (named + ['@'] + digest.value)[..|named|] == named;
    } else {
      NoneThere(named, '@');
    }
  }

  /** The reference a signature is published at is in the repository signed. */
  function SignatureTagFor(ref: Bytes, tag: Bytes): Bytes {
    RepositoryOf(ref) + [':'] + tag
  }

  lemma {:induction false} SignedInPlace(repo: Bytes, tag: Option<Bytes>, digest: Option<Bytes>, signatureTag: Bytes)
    requires WellFormed(repo, tag, digest) && PlainTag(signatureTag)
    ensures RepositoryOf(SignatureTagFor(Reference(repo, tag, digest), signatureTag)) == repo
  {
    hide RepositoryOf, Reference, PlainRepository, PlainTag;
    RepositoryIsKept(repo, tag, digest);
    RepositoryIsKept(repo, Some(signatureTag), None);
    assert SignatureTagFor(Reference(repo, tag, digest), signatureTag) == Reference(repo, Some(signatureTag), None) by {
      ReferenceIs(repo, signatureTag);
    }
  }

  lemma ReferenceIs(repo: Bytes, tag: Bytes)
    ensures Reference(repo, Some(tag), None) == repo + [':'] + tag
  {
  }

  /** How many bytes of UTF-8 spell the white space character that s begins
      with; none when it begins with something else. */
  function SpaceWidth(s: Bytes): (n: nat)
    ensures n <= |s|
  {
    if |s| >= 1 && (s[0] == ' ' || 0x09 <= s[0] as int <= 0x0D) then 1
    else if |s| >= 2 && s[0] as int == 0xC2 && (s[1] as int == 0x85 || s[1] as int == 0xA0) then 2
    else if |s| >= 3 && WideSpace(s[0] as int, s[1] as int, s[2] as int) then 3
    else 0
  }

  /** U+1680, U+2000 to U+200A, U+2028, U+2029, U+202F, U+205F and U+3000. */
  predicate WideSpace(a: int, b: int, c: int) {
    (a == 0xE1 && b == 0x9A && c == 0x80) ||
    (a == 0xE2 && b == 0x80 && (0x80 <= c <= 0x8A || c == 0xA8 || c == 0xA9 || c == 0xAF)) ||
    (a == 0xE2 && b == 0x81 && c == 0x9F) ||
    (a == 0xE3 && b == 0x80 && c == 0x80)
  }

  /** Nothing is left of s when white space is trimmed. */
  predicate Blank(s: Bytes)
    decreases |s|
  {
    s == [] || (SpaceWidth(s) > 0 && Blank(s[SpaceWidth(s)..]))
  }

  /** UTF-8 of such a code point, RFC 3629 section 3. */
  function Utf8(c: nat): Bytes
    requires WhiteSpace(c)
  {
    if c < 0x80 then [c as char]
    else if c < 0x800 then [(0xC0 + c / 64) as char, (0x80 + c % 64) as char]
    else [(0xE0 + c / 4096) as char, (0x80 + c / 64 % 64) as char, (0x80 + c % 64) as char]
  }

  function Spelled(points: seq<nat>): Bytes
    requires forall c | c in points :: WhiteSpace(c)
  {
    if points == [] then [] else
      assert points[0] in points;
      Utf8(points[0]) + Spelled(points[1..])
  }

  /** The code point whose spelling s begins with. */
  function PointAt(s: Bytes): (c: nat)
    requires SpaceWidth(s) > 0
    ensures WhiteSpace(c) && Utf8(c) == s[..SpaceWidth(s)]
  {
    if SpaceWidth(s) == 1 then s[0] as int
    else if SpaceWidth(s) == 2 then s[1] as int
    else (s[0] as int - 0xE0) * 4096 + (s[1] as int - 0x80) * 64 + (s[2] as int - 0x80)
  }

  lemma SpaceBehind(c: nat, rest: Bytes)
    requires WhiteSpace(c)
    ensures SpaceWidth(Utf8(c) + rest) == |Utf8(c)| > 0
    ensures (Utf8(c) + rest)[|Utf8(c)|..] == rest
  {
  }

  lemma {:induction false} SpelledIsBlank(points: seq<nat>)
    requires forall c | c in points :: WhiteSpace(c)
    ensures Blank(Spelled(points))
  {
    hide SpaceWidth, Utf8, WhiteSpace;
    if points == [] {
    } else {
      assert points[0] in points;
      SpelledIsBlank(points[1..]);
      SpaceBehind(points[0], Spelled(points[1..]));
    }
  }

  lemma {:induction false} BlankIsSpelled(s: Bytes) returns (points: seq<nat>)
    requires Blank(s)
    ensures (forall c | c in points :: WhiteSpace(c)) && Spelled(points) == s
    decreases |s|
  {
    hide SpaceWidth, Utf8, WhiteSpace;
    if s == [] {
      points := [];
    } else {
      var n := SpaceWidth(s);
      var more := BlankIsSpelled(s[n..]);
      points := [PointAt(s)] + more;
      assert points[1..] == more && s[..n] + s[n..] == s;
    }
  }

  /** Blank is what spells white space and nothing else. */
  lemma BlankIffWhiteSpace(s: Bytes)
    ensures Blank(s) <==> exists points: seq<nat> :: (forall c | c in points :: WhiteSpace(c)) && Spelled(points) == s
  {
    hide Blank, WhiteSpace, Spelled;
    if Blank(s) {
      var points := BlankIsSpelled(s);
    }
    forall points: seq<nat> | (forall c | c in points :: WhiteSpace(c)) && Spelled(points) == s ensures Blank(s) {
      SpelledIsBlank(points);
    }
  }

  predicate IdentityMatches(claimed: Bytes, ref: Bytes) {
    !Blank(claimed) && Canonical(RepositoryOf(claimed)) == Canonical(RepositoryOf(ref))
  }

  /** A claimed identity matches exactly when it is not blank and names the same
      host and path, whatever tags and digests either side carries. */
  lemma {:induction false} IdentityIsTheRepository(
      claimed: Bytes, tag: Option<Bytes>, digest: Option<Bytes>,
      pulled: Bytes, tag': Option<Bytes>, digest': Option<Bytes>)
    requires WellFormed(claimed, tag, digest) && WellFormed(pulled, tag', digest')
    ensures IdentityMatches(Reference(claimed, tag, digest), Reference(pulled, tag', digest')) <==>
      !Blank(Reference(claimed, tag, digest)) && Resolved(claimed) == Resolved(pulled)
  {
    hide RepositoryOf, Reference, WellFormed, Canonical, Resolved, Blank;
    RepositoryIsKept(claimed, tag, digest);
    RepositoryIsKept(pulled, tag', digest');
    CanonicalIffSame(claimed, pulled);
  }
}
