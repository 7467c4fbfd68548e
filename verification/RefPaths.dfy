/** What the pointer paths promise: one path per canonical key, no pointer file
    above another, and components any file system takes as they are. */
module RefPaths {
  import opened Wrappers
  import opened Text
  import opened RefCodec
  import opened RefDecode

  /** The key put together again from its layout. */
  lemma LayoutKey(ref: Bytes)
    ensures var l := LayoutOf(ref);
      Join(l.directories, '/') + (if l.opaquely then "/" else ":") + l.tag == CanonicalKey(ref)
  {
    hide Split, LastIndex, Opaque;
    var key := CanonicalKey(ref);
    if Opaque(ref) {
      OpaqueHasSlash(ref);
      var i := LastIndex(key, '/');
      JoinSplit(key[..i], '/');
      assert key == key[..i] + "/" + key[i + 1..];
    } else {
      var i := LastIndex(key, ':');
      JoinSplit(key[..i], '/');
      assert key == key[..i] + ":" + key[i + 1..];
    }
  }

  /** A registry reference's path never starts with the marker of opaque ones. */
  lemma NotMarked(segment: Bytes, directory: bool)
    requires !directory || segment != []
    ensures SegmentParts(segment, directory) != []
    ensures Lower(SegmentParts(segment, directory)[0]) != "~"
  {
    var encoded := Escape(segment, directory);
    if segment != [] {
      EscapeAlphabet(segment, directory);
      if |encoded| > WHOLE {
        LongHead(encoded);
      } else {
        ShortHead(encoded);
      }
    }
  }

  lemma {:induction false} FirstDirectory(segments: seq<Bytes>)
    requires segments != []
    ensures SegmentParts(segments[0], true) <= DirectoryParts(segments)
  {
    if |segments| == 1 {
      assert DirectoryParts(segments[..0]) == [];
    } else {
      FirstDirectory(segments[..|segments| - 1]);
    }
  }

  lemma FirstSegment(ref: Bytes)
    requires !Opaque(ref) && LayoutOf(ref).directories != []
    ensures LayoutOf(ref).directories[0] != []
  {
  }

  lemma LayoutKind(ref: Bytes)
    ensures LayoutOf(ref).opaquely == Opaque(ref)
  {
  }

  lemma {:induction false} RegistryHead(ref: Bytes)
    requires !Opaque(ref)
    ensures PathParts(ref) != [] && Lower(PathParts(ref)[0]) != "~"
  {
    hide SegmentParts, LayoutOf;
    var l := LayoutOf(ref);
    LayoutKind(ref);
    if l.directories == [] {
      NotMarked(l.tag, false);
      assert PathParts(ref) == SegmentParts(l.tag, false);
    } else {
      FirstSegment(ref);
      FirstDirectory(l.directories);
      NotMarked(l.directories[0], true);
    }
  }

  /** Decoding a case-folded pointer path gives back the canonical key and
      consumes exactly the path, whatever components follow it. */
  lemma {:induction false} DecodeUndoesPath(ref: Bytes, rest: seq<string>)
    ensures DecodePath(LowerAll(PathParts(ref)) + rest) == Some((CanonicalKey(ref), rest))
  {
    hide SegmentParts, DirectoryParts, LayoutOf, DecodeSegments;
    var l := LayoutOf(ref);
    var body := DirectoryParts(l.directories) + SegmentParts(l.tag, false);
    LayoutKind(ref);
    LayoutKey(ref);
    DecodeLayout(l.directories, l.tag, rest);
    if Opaque(ref) {
      LowerLiteral("~");
      LowerAllThen(["~"], body, rest);
      assert LayoutParts(l) == ["~"] + body;
      assert (["~"] + (LowerAll(body) + rest))[1..] == LowerAll(body) + rest;
    } else {
      RegistryHead(ref);
      assert PathParts(ref) == body;
    }
  }

  /** One path per canonical key: two references share their pointer file if
      and only if they have the same key, also on a case-folding disk. */
  lemma {:induction false} SamePathIffSameKey(r1: Bytes, r2: Bytes)
    ensures PathParts(r1) == PathParts(r2) <==> CanonicalKey(r1) == CanonicalKey(r2)
    ensures LowerAll(PathParts(r1)) == LowerAll(PathParts(r2)) <==> CanonicalKey(r1) == CanonicalKey(r2)
  {
    if CanonicalKey(r1) == CanonicalKey(r2) {
      KeyDecidesLayout(r1, r2);
    }
    if LowerAll(PathParts(r1)) == LowerAll(PathParts(r2)) {
      DecodeUndoesPath(r1, []);
      DecodeUndoesPath(r2, []);
    }
  }

  /** A key says whether its reference is opaque: adding the default tag never
      makes a registry reference look like an object-store key. */
  lemma {:induction false} KeyDecidesLayout(r1: Bytes, r2: Bytes)
    requires CanonicalKey(r1) == CanonicalKey(r2)
    ensures LayoutOf(r1) == LayoutOf(r2)
  {
    KeyIsOpaque(r1);
    KeyIsOpaque(r2);
  }

  lemma KeyIsOpaque(ref: Bytes)
    ensures Opaque(CanonicalKey(ref)) == Opaque(ref)
    ensures CanonicalKey(CanonicalKey(ref)) == CanonicalKey(ref)
  {
    if Opaque(ref + ":latest") {
      UntaggedOpaque(ref);
    }
  }

  lemma UntaggedOpaque(ref: Bytes)
    requires Opaque(ref + ":latest")
    ensures Opaque(ref)
  {
    var key := ref + ":latest";
    if key[0] == '/' {
      assert ref[0] == '/';
    } else {
      var i := Find(key, "://").value;
      assert key[i + 2] == key[i..i + 3][2] == '/';
      assert forall j | |ref| <= j < |key| :: key[j] == ":latest"[j - |ref|] != '/';
      assert i + 3 <= |ref|;
      assert ref[i..i + 3] == key[i..i + 3];
      assert OccursAt(ref, "://", i);
    }
  }

  /** No pointer file is a directory on another reference's path, so any set of
      references fits in one tree, also on a case-folding disk. */
  lemma {:induction false} NoFileAboveAnother(r1: Bytes, r2: Bytes)
    ensures !(PathParts(r1) < PathParts(r2))
    ensures !(LowerAll(PathParts(r1)) < LowerAll(PathParts(r2)))
  {
    hide PathParts, LowerAll, CanonicalKey, Opaque;
    var p1, p2 := LowerAll(PathParts(r1)), LowerAll(PathParts(r2));
    if p1 < p2 {
      var rest := p2[|p1|..];
      assert p1 + rest == p2 + [];
      DecodeUndoesPath(r1, rest);
      DecodeUndoesPath(r2, []);
    }
    LowerKeepsAbove(PathParts(r1), PathParts(r2));
  }

  lemma LowerKeepsAbove(a: seq<string>, b: seq<string>)
    ensures a < b ==> LowerAll(a) < LowerAll(b)
  {
  }
}
