/** The legacy pointer tree of go-shim/manifest_ref.go: its paths, exactly which
    references share one, and a condition under which none do. */
module RefLegacy {
  import opened Text
  import opened RefCodec

  /** `sanitizeRefSegment`. */
  function Sanitize(s: Bytes): Bytes {
    if s == [] || s == "." || s == ".." then "__"
    else seq(|s|, i requires 0 <= i < |s| => if s[i] == ':' || s[i] == '\\' then '_' else s[i])
  }

  function SanitizeAll(segments: seq<Bytes>): seq<Bytes> {
    if segments == [] then []
    else
      var last := segments[|segments| - 1];
      SanitizeAll(segments[..|segments| - 1]) + if last == [] then [] else [Sanitize(last)]
  }

  function NameAndTag(ref: Bytes): (Bytes, Bytes) {
    var i := LastIndex(ref, ':');
    if i > LastIndex(ref, '/') then (ref[..i], ref[i + 1..]) else (ref, "latest")
  }

  function LegacyParts(ref: Bytes): seq<Bytes> {
    var (name, tag) := NameAndTag(ref);
    SanitizeAll(Split(name, '/')) + [Sanitize(tag)]
  }

  /** `refPathSegments`, the components below the legacy `manifests`. */
  method RefPathSegments(ref: Bytes) returns (parts: seq<Bytes>)
    ensures parts == LegacyParts(ref)
  {
    var tag: Bytes, name := "latest", ref;
    var i := LastIndex(ref, ':');
    if i > LastIndex(ref, '/') {
      tag := ref[i + 1..];
      name := ref[..i];
    }
    parts := [];
    var segments := Split(name, '/');
    for k := 0 to |segments|
      invariant parts == SanitizeAll(segments[..k])
    {
      assert segments[..k + 1][..k] == segments[..k];
      if segments[k] != [] {
        parts := parts + [Sanitize(segments[k])];
      }
    }
    assert segments[..|segments|] == segments;
    parts := parts + [Sanitize(tag)];
  }

  // ----- the path depends on the key alone -----

  lemma TagIsPlain(ref: Bytes)
    ensures var (name, tag) := NameAndTag(ref);
      ':' !in tag && '/' !in tag
  {
  }

  lemma AfterColon(name: Bytes, tag: Bytes, k: nat)
    requires |name| < k < |name + [':'] + tag|
    ensures (name + [':'] + tag)[k] in tag
  {
    assert (name + [':'] + tag)[k] == tag[k - |name| - 1];
  }

  lemma NoLaterSlash(name: Bytes, tag: Bytes)
    requires '/' !in tag
    ensures LastIndex(name + [':'] + tag, '/') < |name|
  {
    hide LastIndex;
    var ref: Bytes := name + [':'] + tag;
    var i := LastIndex(ref, '/');
    if i > |name| {
      AfterColon(name, tag, i);
    }
  }

  lemma TagSplitsOff(name: Bytes, tag: Bytes)
    requires '/' !in tag && ':' !in tag
    ensures NameAndTag(name + [':'] + tag) == (name, tag)
  {
    hide LastIndex;
    var ref: Bytes := name + [':'] + tag;
    forall k | |name| < k < |ref| ensures ref[k] != ':' {
      AfterColon(name, tag, k);
    }
    assert ref[|name|] == ':';
    LastIndexIs(ref, ':', |name|);
    NoLaterSlash(name, tag);
    assert ref[..|name|] == name && ref[|name| + 1..] == tag;
  }

  lemma KeyParts(ref: Bytes)
    requires !Opaque(ref)
    ensures var (name, tag) := NameAndTag(ref);
      CanonicalKey(ref) == name + [':'] + tag
  {
    hide LastIndex, Opaque;
    var i := LastIndex(ref, ':');
    if i > LastIndex(ref, '/') {
      assert ref == ref[..i] + [':'] + ref[i + 1..];
    } else {
      assert ref + ":latest" == ref + [':'] + "latest";
    }
  }

  /** Adding the default tag says nothing new. */
  lemma NameAndTagOfKey(ref: Bytes)
    requires !Opaque(ref)
    ensures var (name, tag) := NameAndTag(ref);
      CanonicalKey(ref) == name + [':'] + tag && NameAndTag(CanonicalKey(ref)) == (name, tag)
  {
    hide NameAndTag, Opaque, CanonicalKey;
    var (name, tag) := NameAndTag(ref);
    KeyParts(ref);
    TagIsPlain(ref);
    TagSplitsOff(name, tag);
  }

  lemma LegacyOfKey(ref: Bytes)
    ensures LegacyParts(CanonicalKey(ref)) == LegacyParts(ref)
  {
    hide NameAndTag, Opaque;
    if !Opaque(ref) {
      NameAndTagOfKey(ref);
    }
  }

  // ----- exactly which references share a path -----

  /** What the legacy path is made of, before it is sanitised: empty name
      segments vanish, an empty tag does not. */
  function LegacyNames(ref: Bytes): seq<Bytes> {
    var (name, tag) := NameAndTag(ref);
    NonEmpty(Split(name, '/')) + [tag]
  }

  function NonEmpty(segments: seq<Bytes>): seq<Bytes> {
    if segments == [] then []
    else
      var last := segments[|segments| - 1];
      NonEmpty(segments[..|segments| - 1]) + if last == [] then [] else [last]
  }

  predicate Mark(b: Byte) {
    b == ':' || b == '\\' || b == '_'
  }

  /** Names that all become `__`. */
  predicate Blank(s: Bytes) {
    s == [] || s == "." || s == ".." || (|s| == 2 && Mark(s[0]) && Mark(s[1]))
  }

  /** Names that differ at most in which marks they have, or are both blank. */
  predicate Alike(a: Bytes, b: Bytes) {
    (Blank(a) && Blank(b)) ||
    (!Blank(a) && !Blank(b) && |a| == |b| && forall i | 0 <= i < |a| :: a[i] == b[i] || (Mark(a[i]) && Mark(b[i])))
  }

  predicate AllAlike(a: seq<Bytes>, b: seq<Bytes>) {
    |a| == |b| && forall i | 0 <= i < |a| :: Alike(a[i], b[i])
  }

  lemma SanitizeBlank(s: Bytes)
    ensures Sanitize(s) == "__" <==> Blank(s)
  {
    if Blank(s) && |s| == 2 && Mark(s[0]) {
      assert Sanitize(s) == "__";
    }
    if Sanitize(s) == "__" && s != [] && s != "." && s != ".." {
      assert Sanitize(s)[0] == '_' && Sanitize(s)[1] == '_';
    }
  }

  lemma SanitizeAlike(a: Bytes, b: Bytes)
    ensures Sanitize(a) == Sanitize(b) <==> Alike(a, b)
  {
    SanitizeBlank(a);
    SanitizeBlank(b);
    if !Blank(a) && !Blank(b) && Sanitize(a) == Sanitize(b) {
      assert |a| == |Sanitize(a)| == |Sanitize(b)| == |b|;
      forall i | 0 <= i < |a| ensures a[i] == b[i] || (Mark(a[i]) && Mark(b[i])) {
        assert Sanitize(a)[i] == Sanitize(b)[i];
      }
    }
    if !Blank(a) && !Blank(b) && Alike(a, b) {
      assert Sanitize(a) == Sanitize(b);
    }
  }

  function Sanitized(names: seq<Bytes>): seq<Bytes> {
    seq(|names|, i requires 0 <= i < |names| => Sanitize(names[i]))
  }

  lemma {:induction false} SanitizeAllIs(segments: seq<Bytes>)
    ensures SanitizeAll(segments) == Sanitized(NonEmpty(segments))
  {
    hide Sanitize;
    if segments == [] {
    } else {
      SanitizeAllIs(segments[..|segments| - 1]);
    }
  }

  lemma LegacyPartsAre(ref: Bytes)
    ensures LegacyParts(ref) == Sanitized(LegacyNames(ref))
  {
    hide Sanitize, NameAndTag, Split;
    var (name, tag) := NameAndTag(ref);
    SanitizeAllIs(Split(name, '/'));
  }

  /** Two references share their legacy path exactly when their names and tags,
      empty segments aside, are alike one by one. */
  lemma SameLegacyIffAlike(r1: Bytes, r2: Bytes)
    ensures LegacyParts(r1) == LegacyParts(r2) <==> AllAlike(LegacyNames(r1), LegacyNames(r2))
  {
    hide LegacyParts, LegacyNames, Sanitize, Alike;
    LegacyPartsAre(r1);
    LegacyPartsAre(r2);
    var n1, n2 := LegacyNames(r1), LegacyNames(r2);
    if LegacyParts(r1) == LegacyParts(r2) {
      assert |n1| == |Sanitized(n1)| == |n2|;
      forall i | 0 <= i < |n1| ensures Alike(n1[i], n2[i]) {
        assert Sanitized(n1)[i] == Sanitized(n2)[i];
        SanitizeAlike(n1[i], n2[i]);
      }
    }
    if AllAlike(n1, n2) {
      forall i | 0 <= i < |n1| ensures Sanitize(n1[i]) == Sanitize(n2[i]) {
        SanitizeAlike(n1[i], n2[i]);
      }
      assert Sanitized(n1) == Sanitized(n2);
    }
  }

  // ----- references the tree tells apart -----

  predicate Plain(s: Bytes) {
    s != [] && s != "." && s != ".." && ':' !in s && '\\' !in s
  }

  /** Nothing in the reference is dropped or replaced. */
  predicate PlainRef(ref: Bytes) {
    var (name, tag) := NameAndTag(ref);
    !Opaque(ref) && Plain(tag) && forall s | s in Split(name, '/') :: Plain(s)
  }

  lemma {:induction false} PlainKept(segments: seq<Bytes>)
    requires forall s | s in segments :: Plain(s)
    ensures SanitizeAll(segments) == segments
  {
    if segments == [] {
    } else {
      var n := |segments| - 1;
      PlainKept(segments[..n]);
      PlainSanitized(segments[n]);
      assert segments[..n] + [segments[n]] == segments;
    }
  }

  lemma PlainSanitized(s: Bytes)
    requires Plain(s)
    ensures Sanitize(s) == s
  {
  }

  /** A plain reference's legacy path spells out its canonical key. */
  lemma PlainPath(ref: Bytes)
    requires PlainRef(ref)
    ensures var parts := LegacyParts(ref);
      parts != [] && CanonicalKey(ref) == Join(parts[..|parts| - 1], '/') + [':'] + parts[|parts| - 1]
  {
    hide Plain, NameAndTag, Split, Opaque;
    var (name, tag) := NameAndTag(ref);
    PlainKept(Split(name, '/'));
    PlainSanitized(tag);
    JoinSplit(name, '/');
    NameAndTagOfKey(ref);
    assert LegacyParts(ref)[..|LegacyParts(ref)| - 1] == Split(name, '/');
  }

  /** Among plain references the legacy tree has one path per canonical key. */
  lemma PlainLegacyIffSameKey(r1: Bytes, r2: Bytes)
    requires PlainRef(r1) && PlainRef(r2)
    ensures LegacyParts(r1) == LegacyParts(r2) <==> CanonicalKey(r1) == CanonicalKey(r2)
  {
    hide PlainRef, LegacyParts, CanonicalKey;
    PlainPath(r1);
    PlainPath(r2);
    LegacyOfKey(r1);
    LegacyOfKey(r2);
  }

  // ----- and some it does not -----

  lemma {:induction false} NonEmptyMore(first: Bytes, more: seq<Bytes>)
    ensures NonEmpty([first] + more) == (if first == [] then [] else [first]) + NonEmpty(more)
    decreases |more|
  {
    if more == [] {
      assert [first] + more == [first] && [first][..0] == [];
    } else {
      var n := |more| - 1;
      assert ([first] + more)[..n + 1] == [first] + more[..n];
      NonEmptyMore(first, more[..n]);
    }
  }

  /** The names of `host/path:tag`. */
  lemma NamesOf(host: Bytes, path: Bytes, tag: Bytes)
    requires '/' !in host && '/' !in tag && ':' !in tag
    ensures var ref := host + ['/'] + path + [':'] + tag;
      NameAndTag(ref) == (host + ['/'] + path, tag) &&
      LegacyNames(ref) == (if host == [] then [] else [host]) + NonEmpty(Split(path, '/')) + [tag]
  {
    hide NameAndTag, NonEmpty, Split;
    TagSplitsOff(host + ['/'] + path, tag);
    SplitAfterPiece(host, path, '/');
    NonEmptyMore(host, Split(path, '/'));
  }

  lemma TaggedKey(name: Bytes, tag: Bytes)
    requires '/' !in tag && ':' !in tag
    ensures CanonicalKey(name + [':'] + tag) == name + [':'] + tag
  {
    hide NameAndTag, Opaque;
    if !Opaque(name + [':'] + tag) {
      TagSplitsOff(name, tag);
      KeyParts(name + [':'] + tag);
    }
  }

  /** A registry with a port and one with an underscore there share a path,
      although their keys differ. */
  lemma {:induction false} LegacyCollision(name: Bytes, port: Bytes, path: Bytes, tag: Bytes)
    requires '/' !in name + port && '/' !in tag && ':' !in tag
    ensures var r1, r2 := name + [':'] + port + ['/'] + path + [':'] + tag, name + ['_'] + port + ['/'] + path + [':'] + tag;
      LegacyParts(r1) == LegacyParts(r2) && CanonicalKey(r1) != CanonicalKey(r2)
  {
    hide LegacyParts, CanonicalKey, LegacyNames, NonEmpty, Split;
    var h1: Bytes, h2: Bytes := name + [':'] + port, name + ['_'] + port;
    var r1: Bytes, r2: Bytes := h1 + ['/'] + path + [':'] + tag, h2 + ['/'] + path + [':'] + tag;
    HostHasNoSlash(name, port, ':');
    HostHasNoSlash(name, port, '_');
    NamesOf(h1, path, tag);
    NamesOf(h2, path, tag);
    HostsAlike(name, port);
    SelfAlike(NonEmpty(Split(path, '/')) + [tag]);
    SameRest(h1, h2, NonEmpty(Split(path, '/')) + [tag]);
    assert LegacyNames(r1) == [h1] + (NonEmpty(Split(path, '/')) + [tag]);
    assert LegacyNames(r2) == [h2] + (NonEmpty(Split(path, '/')) + [tag]);
    SameLegacyIffAlike(r1, r2);
    TaggedKey(h1 + ['/'] + path, tag);
    TaggedKey(h2 + ['/'] + path, tag);
    assert r1[|name|] != r2[|name|];
  }

  lemma HostHasNoSlash(name: Bytes, port: Bytes, mark: Byte)
    requires '/' !in name + port && mark != '/'
    ensures '/' !in name + [mark] + port
  {
    forall k | 0 <= k < |name + [mark] + port| ensures (name + [mark] + port)[k] != '/' {
      if k < |name| {
        assert (name + port)[k] != '/';
      } else if k > |name| {
        assert (name + port)[k - 1] != '/';
      }
    }
  }

  lemma HostsAlike(name: Bytes, port: Bytes)
    ensures Alike(name + [':'] + port, name + ['_'] + port)
  {
    var h1, h2 := name + [':'] + port, name + ['_'] + port;
    assert h1[|name|] == ':' && h2[|name|] == '_';
    assert forall k | 0 <= k < |h1| && k != |name| :: h1[k] == h2[k];
  }

  lemma SelfAlike(names: seq<Bytes>)
    ensures AllAlike(names, names)
  {
  }

  lemma SameRest(a: Bytes, b: Bytes, rest: seq<Bytes>)
    requires Alike(a, b) && AllAlike(rest, rest)
    ensures AllAlike([a] + rest, [b] + rest)
  {
  }

  /** A doubled slash vanishes. */
  lemma {:induction false} EmptySegmentCollision(host: Bytes, path: Bytes, tag: Bytes)
    requires '/' !in host && '/' !in tag && ':' !in tag
    ensures var r1, r2 := host + ['/', '/'] + path + [':'] + tag, host + ['/'] + path + [':'] + tag;
      LegacyParts(r1) == LegacyParts(r2) && CanonicalKey(r1) != CanonicalKey(r2)
  {
    hide LegacyParts, CanonicalKey, LegacyNames, NonEmpty, Split;
    var doubled: Bytes := ['/'] + path;
    var r1: Bytes, r2: Bytes := host + ['/'] + doubled + [':'] + tag, host + ['/'] + path + [':'] + tag;
    assert r1 == host + ['/', '/'] + path + [':'] + tag;
    NamesOf(host, doubled, tag);
    NamesOf(host, path, tag);
    assert doubled == [] + ['/'] + path;
    SplitAfterPiece([], path, '/');
    NonEmptyMore([], Split(path, '/'));
    SelfAlike(LegacyNames(r1));
    assert LegacyNames(r1) == LegacyNames(r2);
    SameLegacyIffAlike(r1, r2);
    TaggedKey(host + ['/'] + doubled, tag);
    TaggedKey(host + ['/'] + path, tag);
    assert |r1| != |r2|;
  }
}
