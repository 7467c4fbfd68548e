/** The loops of go-shim/manifest_ref.go that build a pointer path. */
module RefBuild {
  import opened Text
  import opened RefCodec

  /** `escapeRefSegment`. */
  method EscapeRefSegment(segment: Bytes, directory: bool) returns (encoded: Bytes)
    ensures encoded == Escape(segment, directory)
  {
    hide GuardDirectory, Lower, Base;
    if segment == [] {
      return "~";
    }
    var reserved := Base(Lower(segment)) in RESERVED_NAMES;
    encoded := [];
    for i := 0 to |segment|
      invariant encoded == EscapedPrefix(segment, i)
    {
      var b := segment[i];
      var safe := 'a' <= b <= 'z' || '0' <= b <= '9' || b == '-' || b == '_' || b == '.';
      if safe && (!reserved || i != 0) && segment != "." && segment != ".." {
        encoded := encoded + [b];
      } else {
        encoded := encoded + ['%', HexDigit(b as int / 16), HexDigit(b as int % 16)];
      }
    }
    if directory {
      encoded := GuardDirectory(encoded);
    }
  }

  lemma OnePiece(before: seq<Bytes>, encoded: Bytes)
    requires |encoded| > CHUNK
    ensures before + [PieceName(encoded[..CHUNK])] + ChunkParts(encoded[CHUNK..]) == before + ChunkParts(encoded)
  {
  }

  lemma LastPiece(before: seq<Bytes>, encoded: Bytes)
    requires |encoded| <= CHUNK
    ensures before + [PieceName(encoded)] == before + ChunkParts(encoded)
  {
  }

  lemma LongParts(before: seq<Bytes>, segment: Bytes, directory: bool, end: Bytes)
    requires |Escape(segment, directory)| > WHOLE
    requires end == if directory then "~~" else "~~.json"
    ensures before + ChunkParts(Escape(segment, directory)) + [end] == before + SegmentParts(segment, directory)
  {
  }

  /** `appendRefSegment`: cuts a long name into marked pieces. */
  method AppendRefSegment(before: seq<Bytes>, segment: Bytes, directory: bool) returns (parts: seq<Bytes>)
    ensures parts == before + SegmentParts(segment, directory)
  {
    hide Escape, ChunkParts, PieceName;
    var encoded: Bytes := EscapeRefSegment(segment, directory);
    if |encoded| <= WHOLE {
      return before + [if directory then encoded else encoded + ".json"];
    }
    var end: Bytes := if directory then "~~" else "~~.json";
    LongParts(before, segment, directory, end);
    parts := before;
    while |encoded| > CHUNK
      invariant parts + ChunkParts(encoded) == before + ChunkParts(Escape(segment, directory))
      decreases |encoded|
    {
      OnePiece(parts, encoded);
      parts := parts + [PieceName(encoded[..CHUNK])];
      encoded := encoded[CHUNK..];
    }
    LastPiece(parts, encoded);
    parts := parts + [PieceName(encoded)];
    parts := parts + [end];
  }

  lemma {:induction false} OneMoreDirectory(segments: seq<Bytes>, i: nat)
    requires i < |segments|
    ensures DirectoryParts(segments[..i + 1]) == DirectoryParts(segments[..i]) + SegmentParts(segments[i], true)
  {
    hide SegmentParts;
    assert segments[..i + 1][..i] == segments[..i];
  }

  lemma NoDirectories()
    ensures DirectoryParts([]) == []
  {
  }

  lemma LayoutAt(ref: Bytes, i: int)
    requires i == LastIndex(CanonicalKey(ref), if Opaque(ref) then '/' else ':')
    ensures 0 <= i < |CanonicalKey(ref)|
    ensures var name := CanonicalKey(ref)[..i];
      LayoutOf(ref) == Layout(Opaque(ref), if name != [] || Opaque(ref) then Split(name, '/') else [], CanonicalKey(ref)[i + 1..])
  {
    hide Split, LastIndex, Opaque;
    if Opaque(ref) {
      OpaqueHasSlash(ref);
    }
  }

  method AppendDirectories(before: seq<Bytes>, segments: seq<Bytes>) returns (parts: seq<Bytes>)
    ensures parts == before + DirectoryParts(segments)
  {
    hide SegmentParts, DirectoryParts;
    NoDirectories();
    assert segments[..0] == [];
    parts := before;
    for k := 0 to |segments|
      invariant parts == before + DirectoryParts(segments[..k])
    {
      parts := AppendRefSegment(parts, segments[k], true);
      OneMoreDirectory(segments, k);
    }
    assert segments[..|segments|] == segments;
  }

  /** `manifestRefPath`, below `manifests-v2`. */
  method ManifestRefPath(ref: Bytes) returns (parts: seq<Bytes>)
    ensures parts == PathParts(ref)
  {
    hide SegmentParts, DirectoryParts, Opaque, Split, LastIndex, CanonicalKey, LayoutOf;
    var key := CanonicalKey(ref);
    var opaquely := Opaque(ref);
    parts := if opaquely then ["~"] else [];
    var i := LastIndex(key, if opaquely then '/' else ':');
    LayoutAt(ref, i);
    var name, tag := key[..i], key[i + 1..];
    NoDirectories();
    if name != [] || opaquely {
      parts := AppendDirectories(parts, Split(name, '/'));
    }
    parts := AppendRefSegment(parts, tag, false);
  }
}
