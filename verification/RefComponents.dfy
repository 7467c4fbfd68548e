/** Every component of a pointer path is a name any file system takes as it
    is, so joining the components is the whole path. */
module RefComponents {
  import opened Wrappers
  import opened Text
  import opened RefCodec
  import opened RefDecode
  import opened RefPaths

  predicate InPathAlphabet(c: char) {
    InAlphabet(c) || c == '~'
  }

  /** Windows keeps the device names, whatever their case and extension. */
  predicate DeviceName(name: string) {
    Base(Lower(name)) in RESERVED_NAMES
  }

  predicate SafeComponent(name: string) {
    && 1 <= |name| <= 205
    && (forall i | 0 <= i < |name| :: InPathAlphabet(name[i]))
    && name[|name| - 1] != '.'
    && name != "." && name != ".."
    && !DeviceName(name)
  }

  // ----- the part before the first dot -----

  predicate BaseEnds(s: string, k: nat) {
    k <= |s| && (forall i | 0 <= i < k :: s[i] != '.') && (k < |s| ==> s[k] == '.')
  }

  lemma BaseIs(s: string, k: nat)
    requires BaseEnds(s, k)
    ensures Base(s) == s[..k]
  {
    if k < |s| {
      forall i: nat | i < k ensures !OccursAt(s, ".", i) {
        assert s[i..i + 1] == [s[i]];
      }
      assert s[k..k + 1] == ".";
      FindIs(s, ".", k);
    } else {
      forall i: nat ensures !OccursAt(s, ".", i) {
        if i < |s| { assert s[i..i + 1] == [s[i]]; }
      }
      FindNone(s, ".");
    }
  }

  lemma BaseLength(s: string) returns (k: nat)
    ensures BaseEnds(s, k) && Base(s) == s[..k]
  {
    match Find(s, ".") {
      case Some(i) =>
        k := i;
        forall j | 0 <= j < k ensures s[j] != '.' {
          assert !OccursAt(s, ".", j);
          assert s[j..j + 1] == [s[j]];
        }
        assert s[k] == s[k..k + 1][0];
      case None =>
        k := |s|;
        forall j | 0 <= j < k ensures s[j] != '.' {
          assert !OccursAt(s, ".", j);
          assert s[j..j + 1] == [s[j]];
        }
    }
  }

  lemma ReservedLetters(name: string)
    requires name in RESERVED_NAMES
    ensures name != "" && name[0] in {'c', 'p', 'a', 'n', 'l'}
    ensures forall i | 0 <= i < |name| :: 'a' <= name[i] <= 'z' || '1' <= name[i] <= '9'
  {
  }

  lemma DeviceLetters(name: string)
    requires DeviceName(name)
    ensures name != "" && LowerChar(name[0]) in {'c', 'p', 'a', 'n', 'l'}
  {
  }

  // ----- where the encoding is still the original text -----

  predicate Plain(e: string, k: nat) {
    k <= |e| && forall i | 0 <= i < k :: e[i] != '%'
  }

  predicate Agree(e: string, s: string, k: nat) {
    k <= |e| && k <= |s| && forall i | 0 <= i < k :: e[i] == s[i]
  }

  lemma PlainToken(segment: Bytes, i: nat)
    requires i < |segment|
    ensures Token(segment, i) != []
    ensures Token(segment, i)[0] != '%' ==> Token(segment, i) == [segment[i]]
  {
  }

  lemma {:induction false} PlainPrefix(segment: Bytes, n: nat, k: nat)
    requires n <= |segment| && Plain(EscapedPrefix(segment, n), k)
    ensures k <= n && Agree(EscapedPrefix(segment, n), segment, k)
  {
    hide Token;
    if n == 0 {
    } else {
      var before, e := EscapedPrefix(segment, n - 1), EscapedPrefix(segment, n);
      assert e == before + Token(segment, n - 1);
      assert forall i | 0 <= i < |before| :: e[i] == before[i];
      if k <= |before| {
        PlainPrefix(segment, n - 1, k);
      } else {
        PlainPrefix(segment, n - 1, |before|);
        PrefixAlphabet(segment, n - 1);
        PlainToken(segment, n - 1);
        assert e[|before|] == Token(segment, n - 1)[0];
      }
    }
  }

  /** A base without escapes is the segment's own. */
  lemma {:induction false} PlainBase(segment: Bytes, e: string, k: nat)
    requires e == EscapedPrefix(segment, |segment|)
    requires BaseEnds(e, k) && Plain(e, k)
    ensures BaseEnds(segment, k) && Agree(e, segment, k)
  {
    hide EscapedPrefix;
    if k < |e| {
      PlainPrefix(segment, |segment|, k + 1);
    } else {
      PlainPrefix(segment, |segment|, k);
      PrefixAlphabet(segment, |segment|);
    }
  }

  lemma LowerBaseEnds(s: string, k: nat)
    ensures BaseEnds(Lower(s), k) == BaseEnds(s, k)
  {
    assert forall i | 0 <= i < |s| :: Lower(s)[i] == '.' <==> s[i] == '.';
  }

  /** If the base of an encoded name is a device name, so is the segment's. */
  lemma {:induction false} OnlyReserved(segment: Bytes, e: string, k: nat)
    requires e == EscapedPrefix(segment, |segment|)
    requires BaseEnds(e, k) && Lower(e)[..k] in RESERVED_NAMES
    ensures Reserved(segment)
  {
    hide EscapedPrefix;
    ReservedLetters(Lower(e)[..k]);
    forall i | 0 <= i < k ensures e[i] != '%' {
      assert Lower(e)[..k][i] == LowerChar(e[i]);
    }
    PlainBase(segment, e, k);
    LowerBaseEnds(segment, k);
    BaseIs(Lower(segment), k);
    assert Lower(segment)[..k] == Lower(e)[..k];
  }

  lemma ReservedIsMarked(segment: Bytes, n: nat)
    requires Reserved(segment) && 0 < n <= |segment|
    ensures EscapedPrefix(segment, n) != [] && EscapedPrefix(segment, n)[0] == '%'
  {
  }

  // ----- the components -----

  lemma FileBase(e: Bytes, k: nat)
    requires Encoded(e) && BaseEnds(e + ".json", k)
    ensures BaseEnds(e, k) && Lower(e + ".json")[..k] == Lower(e)[..k]
  {
    var f := e + ".json";
    assert f[|e|] == '.';
    assert forall i | 0 <= i < |e| :: f[i] == e[i];
  }

  lemma GuardedBase(e: Bytes, k: nat)
    requires Encoded(e) && BaseEnds(GuardDirectory(e), k) && Plain(GuardDirectory(e), k)
    ensures BaseEnds(e, k) && Lower(GuardDirectory(e))[..k] == Lower(e)[..k]
  {
    if HasSuffix(e, ".json") || HasSuffix(e, ".") {
      hide HasSuffix, LastIndex;
      LastDot(e);
      var g, i := GuardDirectory(e), LastIndex(e, '.');
      assert g == e[..i] + "%2E" + e[i + 1..];
      assert g[i] == '%' && |g| > i;
      assert k < i;
      assert forall j | 0 <= j < i :: g[j] == e[j];
    }
  }

  lemma EscapedDevice(segment: Bytes, directory: bool, name: Bytes)
    requires segment != []
    requires name == Escape(segment, directory) + if directory then [] else ".json"
    ensures !DeviceName(name)
  {
    var e := EscapedPrefix(segment, |segment|);
    EscapeAlphabet(segment, directory);
    PrefixAlphabet(segment, |segment|);
    if DeviceName(name) {
      var k := BaseLength(Lower(name));
      DeviceLetters(name);
      ReservedLetters(Lower(name)[..k]);
      LowerBaseEnds(name, k);
      assert Plain(name, k) by {
        forall i | 0 <= i < k ensures name[i] != '%' {
          assert Lower(name)[..k][i] == LowerChar(name[i]);
        }
      }
      EscapedBase(segment, directory, name, k);
      OnlyReserved(segment, e, k);
      ReservedIsMarked(segment, |segment|);
    }
  }

  lemma {:induction false} EscapedBase(segment: Bytes, directory: bool, name: Bytes, k: nat)
    requires segment != []
    requires name == Escape(segment, directory) + if directory then [] else ".json"
    requires BaseEnds(name, k) && Plain(name, k)
    ensures BaseEnds(EscapedPrefix(segment, |segment|), k)
    ensures Lower(name)[..k] == Lower(EscapedPrefix(segment, |segment|))[..k]
  {
    var e := EscapedPrefix(segment, |segment|);
    PrefixAlphabet(segment, |segment|);
    if directory {
      assert name == GuardDirectory(e);
      GuardedBase(e, k);
    } else {
      FileBase(e, k);
    }
  }

  lemma DirectoryEnd(segment: Bytes)
    requires segment != []
    ensures var e := Escape(segment, true);
      e != [] && e[|e| - 1] != '.'
  {
  }

  lemma SafeUnmarked(name: Bytes)
    requires 1 <= |name| <= 205 && Encoded(name) && name[|name| - 1] != '.' && !DeviceName(name)
    ensures SafeComponent(name)
  {
  }

  lemma SafeWhole(segment: Bytes, directory: bool, name: Bytes)
    requires segment != [] && |Escape(segment, directory)| <= WHOLE
    requires name == Escape(segment, directory) + if directory then [] else ".json"
    ensures SafeComponent(name)
  {
    EscapeAlphabet(segment, directory);
    EscapedDevice(segment, directory, name);
    hide DeviceName, Escape, SafeComponent;
    if directory {
      DirectoryEnd(segment);
    } else {
      assert name[|name| - 1] == ".json"[4];
    }
    SafeUnmarked(name);
  }

  /** Marked names: pieces of a long segment and the markers themselves. */
  lemma SafeMarked(name: Bytes)
    requires 1 <= |name| <= 205 && name[0] == '~'
    requires forall i | 0 <= i < |name| :: InPathAlphabet(name[i])
    requires name[|name| - 1] != '.'
    ensures SafeComponent(name)
  {
  }

  lemma SafeChunk(chunk: Bytes)
    requires Encoded(chunk) && 0 < |chunk| <= CHUNK
    ensures SafeComponent(PieceName(chunk))
  {
    var name := PieceName(chunk);
    if HasSuffix(chunk, ".") {
      assert name == "~" + chunk[..|chunk| - 1] + "%2E";
    } else {
      assert chunk[|chunk| - 1..] == [chunk[|chunk| - 1]];
    }
    assert forall i | 0 <= i < |name| :: InPathAlphabet(name[i]);
    SafeMarked(name);
  }

  lemma {:induction false} SafeChunks(encoded: Bytes)
    requires Encoded(encoded) && encoded != []
    ensures forall name | name in ChunkParts(encoded) :: SafeComponent(name)
    decreases |encoded|
  {
    hide SafeComponent, ChunkName;
    if |encoded| <= CHUNK {
      SafeChunk(encoded);
    } else {
      SafeChunk(encoded[..CHUNK]);
      SafeChunks(encoded[CHUNK..]);
    }
  }

  lemma SafeSegment(segment: Bytes, directory: bool)
    ensures forall name | name in SegmentParts(segment, directory) :: SafeComponent(name)
  {
    var encoded := Escape(segment, directory);
    var end := if directory then "~~" else "~~.json";
    hide SafeComponent;
    if segment == [] {
      SafeMarked("~");
      SafeMarked("~.json");
      assert "~" + ".json" == "~.json";
    } else if |encoded| <= WHOLE {
      SafeWhole(segment, directory, encoded + if directory then [] else ".json");
      assert encoded + [] == encoded;
    } else {
      EscapeAlphabet(segment, directory);
      SafeChunks(encoded);
      SafeMarked("~~");
      SafeMarked("~~.json");
      assert SegmentParts(segment, directory) == ChunkParts(encoded) + [end];
    }
  }

  lemma {:induction false} SafeDirectories(segments: seq<Bytes>)
    ensures forall name | name in DirectoryParts(segments) :: SafeComponent(name)
  {
    hide SafeComponent, SegmentParts;
    if segments == [] {
    } else {
      SafeDirectories(segments[..|segments| - 1]);
      SafeSegment(segments[|segments| - 1], true);
    }
  }

  /** Every component of every pointer path is safe. */
  lemma {:induction false} SafePath(ref: Bytes)
    ensures forall name | name in PathParts(ref) :: SafeComponent(name)
  {
    hide SafeComponent, SegmentParts, DirectoryParts, LayoutOf;
    var l := LayoutOf(ref);
    SafeMarked("~");
    SafeDirectories(l.directories);
    SafeSegment(l.tag, false);
  }

  // ----- joining the components -----

  /** What `filepath.Join` makes of the elements after a fixed root: empty ones
      and `.` vanish, `..` takes back the one before it. */
  function Cleaned(elements: seq<Bytes>, kept: seq<Bytes>): seq<Bytes>
    decreases |elements|
  {
    if elements == [] then kept
    else if elements[0] == [] || elements[0] == "." then Cleaned(elements[1..], kept)
    else if elements[0] == ".." && kept != [] then Cleaned(elements[1..], kept[..|kept| - 1])
    else Cleaned(elements[1..], kept + [elements[0]])
  }

  lemma {:induction false} CleanedKeeps(elements: seq<Bytes>, kept: seq<Bytes>)
    requires forall name | name in elements :: SafeComponent(name)
    ensures Cleaned(elements, kept) == kept + elements
  {
    if elements == [] {
    } else {
      assert elements[0] in elements && SafeComponent(elements[0]);
      CleanedKeeps(elements[1..], kept + [elements[0]]);
      assert kept + [elements[0]] + elements[1..] == kept + elements;
    }
  }

  lemma SafeHasNoSlash(name: Bytes)
    requires SafeComponent(name)
    ensures '/' !in name
  {
  }

  /** Joining drops and merges nothing: the joined path has exactly the
      components, so equal path strings mean equal components. */
  lemma {:induction false} JoinKeepsComponents(ref: Bytes)
    ensures Cleaned(PathParts(ref), []) == PathParts(ref)
    ensures Split(Join(PathParts(ref), '/'), '/') == PathParts(ref)
  {
    hide SafeComponent, PathParts;
    var parts := PathParts(ref);
    SafePath(ref);
    CleanedKeeps(parts, []);
    assert [] + parts == parts;
    forall name | name in parts ensures '/' !in name {
      SafeHasNoSlash(name);
    }
    PathNotEmpty(ref);
    SplitJoin(parts, '/');
  }

  lemma PathNotEmpty(ref: Bytes)
    ensures PathParts(ref) != []
  {
  }

  /** The pointer file of ref as one string below `manifests-v2`. */
  function PathString(ref: Bytes): Bytes {
    Join(PathParts(ref), '/')
  }

  lemma {:induction false} SamePathString(r1: Bytes, r2: Bytes)
    ensures PathString(r1) == PathString(r2) <==> CanonicalKey(r1) == CanonicalKey(r2)
  {
    hide PathParts;
    JoinKeepsComponents(r1);
    JoinKeepsComponents(r2);
    SamePathIffSameKey(r1, r2);
  }
}
