/** The legacy pointer tree of go-shim/manifest_ref.go on a disk that does not
    tell upper case from lower: exactly which references share a path there. */
module RefLegacyFolded {
  import opened Text
  import opened RefCodec
  import opened RefDecode
  import opened RefLegacy

  /** Like `Alike`, with letters compared ignoring case. */
  predicate AlikeFolded(a: Bytes, b: Bytes) {
    (Blank(a) && Blank(b)) ||
    (!Blank(a) && !Blank(b) && |a| == |b| &&
     forall i | 0 <= i < |a| :: LowerChar(a[i]) == LowerChar(b[i]) || (Mark(a[i]) && Mark(b[i])))
  }

  predicate AllAlikeFolded(a: seq<Bytes>, b: seq<Bytes>) {
    |a| == |b| && forall i | 0 <= i < |a| :: AlikeFolded(a[i], b[i])
  }

  lemma LowerBlank(s: Bytes)
    ensures Lower(Sanitize(s)) == "__" <==> Blank(s)
  {
    SanitizeBlank(s);
    if Lower(Sanitize(s)) == "__" {
      assert |Sanitize(s)| == 2;
      assert Lower(Sanitize(s))[0] == '_' && Lower(Sanitize(s))[1] == '_';
      assert Sanitize(s) == "__";
    }
  }

  lemma SanitizeAlikeFolded(a: Bytes, b: Bytes)
    ensures Lower(Sanitize(a)) == Lower(Sanitize(b)) <==> AlikeFolded(a, b)
  {
    LowerBlank(a);
    LowerBlank(b);
    if !Blank(a) && !Blank(b) && Lower(Sanitize(a)) == Lower(Sanitize(b)) {
      assert |a| == |Lower(Sanitize(a))| == |Lower(Sanitize(b))| == |b|;
      forall i | 0 <= i < |a| ensures LowerChar(a[i]) == LowerChar(b[i]) || (Mark(a[i]) && Mark(b[i])) {
        assert Lower(Sanitize(a))[i] == Lower(Sanitize(b))[i];
      }
    }
    if !Blank(a) && !Blank(b) && AlikeFolded(a, b) {
      assert Lower(Sanitize(a)) == Lower(Sanitize(b));
    }
  }

  /** On such a disk two references share their legacy path exactly when their
      names and tags, empty segments and case aside, are alike one by one. */
  lemma SameFoldedIffAlike(r1: Bytes, r2: Bytes)
    ensures LowerAll(LegacyParts(r1)) == LowerAll(LegacyParts(r2)) <==>
      AllAlikeFolded(LegacyNames(r1), LegacyNames(r2))
  {
    hide LegacyParts, LegacyNames, Sanitize, AlikeFolded, Lower;
    LegacyPartsAre(r1);
    LegacyPartsAre(r2);
    var n1, n2 := LegacyNames(r1), LegacyNames(r2);
    var p1, p2 := LowerAll(Sanitized(n1)), LowerAll(Sanitized(n2));
    if p1 == p2 {
      assert |n1| == |p1| == |n2|;
      forall i | 0 <= i < |n1| ensures AlikeFolded(n1[i], n2[i]) {
        assert p1[i] == p2[i];
        SanitizeAlikeFolded(n1[i], n2[i]);
      }
    }
    if AllAlikeFolded(n1, n2) {
      forall i | 0 <= i < |n1| ensures p1[i] == p2[i] {
        SanitizeAlikeFolded(n1[i], n2[i]);
      }
      assert p1 == p2;
    }
  }

  // ----- keys that differ in case alone share a path -----

  lemma SameSeparators(s: Bytes, t: Bytes, c: Byte)
    requires Lower(s) == Lower(t) && (c == '/' || c == ':')
    ensures LastIndex(s, c) == LastIndex(t, c)
  {
    assert |s| == |Lower(s)| == |t|;
    forall i | 0 <= i < |s| ensures s[i] == c <==> t[i] == c {
      assert Lower(s)[i] == Lower(t)[i];
    }
    LastIndexIs(t, c, LastIndex(s, c));
  }

  lemma FoldedSlices(s: Bytes, t: Bytes, i: nat)
    requires Lower(s) == Lower(t) && i <= |s|
    ensures i <= |t| && Lower(s[..i]) == Lower(t[..i]) && Lower(s[i..]) == Lower(t[i..])
  {
    assert |s| == |Lower(s)| == |t|;
    assert Lower(s[..i]) == Lower(s)[..i] && Lower(t[..i]) == Lower(t)[..i];
    assert Lower(s[i..]) == Lower(s)[i..] && Lower(t[i..]) == Lower(t)[i..];
  }

  lemma FoldedNames(s: Bytes, t: Bytes)
    requires Lower(s) == Lower(t)
    ensures Lower(NameAndTag(s).0) == Lower(NameAndTag(t).0) && Lower(NameAndTag(s).1) == Lower(NameAndTag(t).1)
  {
    hide LastIndex, Lower;
    SameSeparators(s, t, ':');
    SameSeparators(s, t, '/');
    var i := LastIndex(s, ':');
    if i > LastIndex(s, '/') {
      FoldedSlices(s, t, i);
      FoldedSlices(s, t, i + 1);
    }
  }

  lemma {:induction false} FoldedSplit(s: Bytes, t: Bytes)
    requires Lower(s) == Lower(t)
    ensures LowerAll(Split(s, '/')) == LowerAll(Split(t, '/'))
  {
    assert |s| == |Lower(s)| == |t|;
    if s == [] {
    } else {
      assert LowerChar(s[0]) == Lower(s)[0] == Lower(t)[0] == LowerChar(t[0]);
      FoldedSlices(s, t, 1);
      FoldedSplit(s[1..], t[1..]);
      var p, q := Split(s[1..], '/'), Split(t[1..], '/');
      assert |p| == |LowerAll(p)| == |q|;
      assert forall i | 0 <= i < |p| :: Lower(p[i]) == LowerAll(p)[i] == LowerAll(q)[i] == Lower(q[i]);
      if s[0] != '/' {
        FoldedFirst(s[0], t[0], p[0], q[0]);
      }
    }
  }

  lemma FoldedFirst(b: Byte, c: Byte, s: Bytes, t: Bytes)
    requires LowerChar(b) == LowerChar(c) && Lower(s) == Lower(t)
    ensures Lower([b] + s) == Lower([c] + t)
  {
    LowerConcat([b], s);
    LowerConcat([c], t);
    assert Lower([b]) == Lower([c]);
  }

  lemma FoldedSanitize(s: Bytes, t: Bytes)
    requires Lower(s) == Lower(t)
    ensures Lower(Sanitize(s)) == Lower(Sanitize(t))
  {
    assert |s| == |Lower(s)| == |t|;
    forall i | 0 <= i < |s| ensures LowerChar(s[i]) == LowerChar(t[i]) {
      assert Lower(s)[i] == Lower(t)[i];
    }
    assert Blank(s) <==> Blank(t);
    SanitizeAlikeFolded(s, t);
  }

  lemma {:induction false} FoldedSanitizeAll(p: seq<Bytes>, q: seq<Bytes>)
    requires LowerAll(p) == LowerAll(q)
    ensures LowerAll(SanitizeAll(p)) == LowerAll(SanitizeAll(q))
  {
    hide Sanitize;
    assert |p| == |LowerAll(p)| == |q|;
    if p == [] {
    } else {
      var n := |p| - 1;
      assert LowerAll(p[..n]) == LowerAll(p)[..n] && LowerAll(q[..n]) == LowerAll(q)[..n];
      FoldedSanitizeAll(p[..n], q[..n]);
      assert Lower(p[n]) == LowerAll(p)[n] == LowerAll(q)[n] == Lower(q[n]);
      FoldedSanitize(p[n], q[n]);
      assert p[n] == [] <==> q[n] == [] by { assert |p[n]| == |Lower(p[n])| == |q[n]|; }
      LowerAllConcat(SanitizeAll(p[..n]), if p[n] == [] then [] else [Sanitize(p[n])]);
      LowerAllConcat(SanitizeAll(q[..n]), if q[n] == [] then [] else [Sanitize(q[n])]);
    }
  }

  /** Keys that differ in case alone have one legacy path there, for all
      references. */
  lemma FoldedKeyFoldedPath(r1: Bytes, r2: Bytes)
    requires Lower(CanonicalKey(r1)) == Lower(CanonicalKey(r2))
    ensures LowerAll(LegacyParts(r1)) == LowerAll(LegacyParts(r2))
  {
    hide CanonicalKey, NameAndTag, Sanitize, SanitizeAll, Split, Lower;
    var k1, k2 := CanonicalKey(r1), CanonicalKey(r2);
    LegacyOfKey(r1);
    LegacyOfKey(r2);
    FoldedNames(k1, k2);
    FoldedSplit(NameAndTag(k1).0, NameAndTag(k2).0);
    FoldedSanitizeAll(Split(NameAndTag(k1).0, '/'), Split(NameAndTag(k2).0, '/'));
    FoldedSanitize(NameAndTag(k1).1, NameAndTag(k2).1);
    LowerAllConcat(SanitizeAll(Split(NameAndTag(k1).0, '/')), [Sanitize(NameAndTag(k1).1)]);
    LowerAllConcat(SanitizeAll(Split(NameAndTag(k2).0, '/')), [Sanitize(NameAndTag(k2).1)]);
  }

  // ----- and among plain references only those -----

  lemma {:induction false} FoldedJoin(p: seq<Bytes>, q: seq<Bytes>)
    requires LowerAll(p) == LowerAll(q)
    ensures Lower(Join(p, '/')) == Lower(Join(q, '/'))
    decreases |p|
  {
    assert |p| == |LowerAll(p)| == |q|;
    if |p| == 0 {
    } else {
      assert Lower(p[0]) == LowerAll(p)[0] == LowerAll(q)[0] == Lower(q[0]);
      if |p| > 1 {
        assert LowerAll(p[1..]) == LowerAll(p)[1..] && LowerAll(q[1..]) == LowerAll(q)[1..];
        FoldedJoin(p[1..], q[1..]);
        LowerConcat(p[0] + ['/'], Join(p[1..], '/'));
        LowerConcat(q[0] + ['/'], Join(q[1..], '/'));
        LowerConcat(p[0], ['/']);
        LowerConcat(q[0], ['/']);
      }
    }
  }

  lemma KeyFromParts(front: seq<Bytes>, last: Bytes, front': seq<Bytes>, last': Bytes)
    requires LowerAll(front) == LowerAll(front') && Lower(last) == Lower(last')
    ensures Lower(Join(front, '/') + [':'] + last) == Lower(Join(front', '/') + [':'] + last')
  {
    hide Join, LowerAll;
    FoldedJoin(front, front');
    LowerConcat(Join(front, '/') + [':'], last);
    LowerConcat(Join(front', '/') + [':'], last');
    LowerConcat(Join(front, '/'), [':']);
    LowerConcat(Join(front', '/'), [':']);
  }

  /** Among plain references, on such a disk, legacy paths are equal exactly when
      canonical keys are, both ignoring case. */
  lemma PlainFoldedIffSameKey(r1: Bytes, r2: Bytes)
    requires PlainRef(r1) && PlainRef(r2)
    ensures LowerAll(LegacyParts(r1)) == LowerAll(LegacyParts(r2)) <==>
      Lower(CanonicalKey(r1)) == Lower(CanonicalKey(r2))
  {
    hide PlainRef, LegacyParts, CanonicalKey, Lower, Join;
    var p1, p2 := LegacyParts(r1), LegacyParts(r2);
    PlainPath(r1);
    PlainPath(r2);
    if LowerAll(p1) == LowerAll(p2) {
      var n := |p1| - 1;
      assert |p1| == |LowerAll(p1)| == |p2|;
      assert LowerAll(p1[..n]) == LowerAll(p1)[..n] && LowerAll(p2[..n]) == LowerAll(p2)[..n];
      assert Lower(p1[n]) == LowerAll(p1)[n] == LowerAll(p2)[n] == Lower(p2[n]);
      KeyFromParts(p1[..n], p1[n], p2[..n], p2[n]);
    }
    if Lower(CanonicalKey(r1)) == Lower(CanonicalKey(r2)) {
      FoldedKeyFoldedPath(r1, r2);
    }
  }
}
