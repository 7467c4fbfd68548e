/** What a pointer path looks like, byte by byte (go-shim/manifest_ref.go): which
    bytes are kept and which are escaped, where long names are cut, and the path
    of an ordinary reference, which is the reference itself. */
module RefSpelled {
  import opened Wrappers
  import opened Text
  import opened RefCodec
  import opened RefBuild
  import opened RefLegacy
  import opened RefComponents

  // ----- names and bytes -----

  predicate Stays(b: Byte) {
    'a' <= b <= 'z' || '0' <= b <= '9' || b in {'-', '_', '.'}
  }

  function Percent(b: Byte): Bytes {
    var digits: Bytes := "0123456789ABCDEF";
    ['%', digits[b as int / 16], digits[b as int % 16]]
  }

  /** Every byte by itself: kept, or `%` and two upper-case digits. */
  function ByByte(s: Bytes): Bytes {
    if s == [] then []
    else
      var b := s[|s| - 1];
      ByByte(s[..|s| - 1]) + if Stays(b) then [b] else Percent(b)
  }

  /** The names Windows keeps for devices. */
  predicate IsDevice(name: string) {
    name in {"con", "prn", "aux", "nul"} ||
    (|name| == 4 && name[..3] in {"com", "lpt"} && '1' <= name[3] <= '9')
  }

  ghost predicate DeviceAt(s: string, k: nat) {
    BaseEnds(s, k) && IsDevice(Lower(s[..k]))
  }

  /** What stands before the first dot, in any case, is such a name. */
  ghost predicate BeginsAsDevice(s: string) {
    exists k: nat :: DeviceAt(s, k)
  }

  lemma DevicesAreReserved(name: string)
    ensures IsDevice(name) <==> name in RESERVED_NAMES
  {
    assert "com" + ['1'] == "com1" && "com" + ['2'] == "com2" && "com" + ['3'] == "com3" &&
      "com" + ['4'] == "com4" && "com" + ['5'] == "com5" && "com" + ['6'] == "com6" &&
      "com" + ['7'] == "com7" && "com" + ['8'] == "com8" && "com" + ['9'] == "com9";
    assert "lpt" + ['1'] == "lpt1" && "lpt" + ['2'] == "lpt2" && "lpt" + ['3'] == "lpt3" &&
      "lpt" + ['4'] == "lpt4" && "lpt" + ['5'] == "lpt5" && "lpt" + ['6'] == "lpt6" &&
      "lpt" + ['7'] == "lpt7" && "lpt" + ['8'] == "lpt8" && "lpt" + ['9'] == "lpt9";
    if |name| == 4 {
      assert name[..3] == [name[0], name[1], name[2]] && name == name[..3] + [name[3]];
      assert '1' <= name[3] <= '9' <==> name[3] in {'1', '2', '3', '4', '5', '6', '7', '8', '9'};
    }
  }

  lemma LowerPrefix(s: string, k: nat)
    requires k <= |s|
    ensures |Lower(s)| == |s| && Lower(s)[..k] == Lower(s[..k])
  {
    assert s == s[..k] + s[k..];
    LowerConcat(s[..k], s[k..]);
  }

  lemma ReservedIsDevice(s: Bytes)
    ensures Reserved(s) <==> BeginsAsDevice(s)
  {
    hide Lower, Base, IsDevice, BaseEnds;
    forall k: nat | DeviceAt(s, k) ensures Reserved(s) {
      DeviceIsReserved(s, k);
    }
    var k := BaseLength(s);
    DeviceIsReserved(s, k);
    if Reserved(s) {
      assert DeviceAt(s, k);
    }
  }

  lemma DeviceIsReserved(s: Bytes, k: nat)
    requires BaseEnds(s, k)
    ensures IsDevice(Lower(s[..k])) <==> Reserved(s)
  {
    hide Lower, Base, IsDevice;
    LowerPrefix(s, k);
    LowerBaseEnds(s, k);
    BaseIs(Lower(s), k);
    DevicesAreReserved(Lower(s[..k]));
  }

  lemma SafeStays(b: Byte)
    ensures Safe(b) <==> Stays(b)
  {
  }

  // ----- one segment -----

  lemma TokenIs(segment: Bytes, i: nat)
    requires i < |segment| && segment != "." && segment != ".."
    ensures Token(segment, i) ==
      if Stays(segment[i]) && (i > 0 || !BeginsAsDevice(segment)) then [segment[i]] else Percent(segment[i])
  {
    hide Safe, Reserved, BeginsAsDevice;
    SafeStays(segment[i]);
    ReservedIsDevice(segment);
  }

  lemma {:induction false} PrefixByByte(segment: Bytes, n: nat)
    requires n <= |segment| && segment != "." && segment != ".." && !BeginsAsDevice(segment)
    ensures EscapedPrefix(segment, n) == ByByte(segment[..n])
  {
    hide Token, BeginsAsDevice, Percent;
    if n == 0 {
    } else {
      PrefixByByte(segment, n - 1);
      TokenIs(segment, n - 1);
      assert segment[..n][..n - 1] == segment[..n - 1];
    }
  }

  lemma {:induction false} DevicePrefix(segment: Bytes, n: nat)
    requires 0 < n <= |segment| && BeginsAsDevice(segment) && segment != "." && segment != ".."
    ensures EscapedPrefix(segment, n) == Percent(segment[0]) + ByByte(segment[1..n])
  {
    hide Token, BeginsAsDevice, Percent, Stays;
    TokenIs(segment, n - 1);
    if n == 1 {
      assert EscapedPrefix(segment, 0) == [] && segment[1..1] == [];
      assert [] + Percent(segment[0]) == Percent(segment[0]) == Percent(segment[0]) + [];
    } else {
      DevicePrefix(segment, n - 1);
      var more: Bytes := segment[1..n];
      assert more[..n - 2] == segment[1..n - 1] && more[n - 2] == segment[n - 1];
      var token: Bytes := if Stays(segment[n - 1]) then [segment[n - 1]] else Percent(segment[n - 1]);
      assert ByByte(more) == ByByte(segment[1..n - 1]) + token;
    }
  }

  lemma DotsAreNoDevice(s: Bytes)
    requires s == "." || s == ".."
    ensures !BeginsAsDevice(s)
  {
  }

  /** How a segment is written, of any bytes: by bytes, except that `.` and `..`
      are escaped altogether and a device name's first byte is. */
  lemma {:induction false} EscapeIs(segment: Bytes)
    ensures segment == [] ==> Escape(segment, false) == "~"
    ensures segment == "." ==> Escape(segment, false) == "%2E"
    ensures segment == ".." ==> Escape(segment, false) == "%2E%2E"
    ensures segment != [] && segment != "." && segment != ".." && !BeginsAsDevice(segment) ==>
      Escape(segment, false) == ByByte(segment)
    ensures BeginsAsDevice(segment) ==>
      segment != [] && Escape(segment, false) == Percent(segment[0]) + ByByte(segment[1..])
  {
    hide BeginsAsDevice, Percent, ByByte;
    if segment == "." || segment == ".." {
      DotsAreNoDevice(segment);
      DotsEscaped(segment);
    } else if segment == [] {
      NothingIsNoDevice();
    } else if BeginsAsDevice(segment) {
      DevicePrefix(segment, |segment|);
      assert segment[1..|segment|] == segment[1..];
    } else {
      PrefixByByte(segment, |segment|);
      assert segment[..|segment|] == segment;
    }
  }

  lemma NothingIsNoDevice()
    ensures !BeginsAsDevice([])
  {
  }

  lemma DotsEscaped(segment: Bytes)
    requires segment == "." || segment == ".."
    ensures Escape(segment, false) == if segment == "." then "%2E" else "%2E%2E"
  {
    hide Token;
    DotToken(segment, 0);
    assert EscapedPrefix(segment, 0) == [];
    assert EscapedPrefix(segment, 1) == [] + "%2E" == "%2E";
    if segment == ".." {
      DotToken(segment, 1);
      assert EscapedPrefix(segment, 2) == "%2E" + "%2E" == "%2E%2E";
    }
  }

  lemma DotToken(segment: Bytes, i: nat)
    requires i < |segment| && (segment == "." || segment == "..")
    ensures Token(segment, i) == "%2E"
  {
    hide Reserved, Safe;
  }

  /** A directory's name differs from a file's in one dot at most: that of a last
      `.json`, or a last dot. */
  lemma DirectoryIs(segment: Bytes)
    requires segment != []
    ensures var e := Escape(segment, false);
      Escape(segment, true) ==
        if HasSuffix(e, ".json") then e[..|e| - 5] + "%2Ejson"
        else if HasSuffix(e, ".") then e[..|e| - 1] + "%2E"
        else e
  {
    hide EscapedPrefix, LastIndex;
    var e: Bytes := Escape(segment, false);
    if HasSuffix(e, ".json") {
      EndsInJson(e);
      assert e[|e| - 4..] == "json" by { assert e[|e| - 5..][1..] == e[|e| - 4..]; }
    } else if HasSuffix(e, ".") {
      EndsInDot(e);
      assert e[|e|..] == [];
    }
  }

  lemma {:induction false} KeptByByte(s: Bytes)
    requires forall i | 0 <= i < |s| :: Stays(s[i])
    ensures ByByte(s) == s
  {
    hide Stays, Percent;
    if s == [] {
    } else {
      var before := s[..|s| - 1];
      assert forall i | 0 <= i < |before| :: before[i] == s[i];
      KeptByByte(before);
      assert before + [s[|s| - 1]] == s;
    }
  }

  /** An ordinary name is not changed at all. */
  lemma OrdinaryKept(s: Bytes)
    requires s != [] && s != "." && s != ".." && !BeginsAsDevice(s)
    requires forall i | 0 <= i < |s| :: Stays(s[i])
    ensures Escape(s, false) == s
    ensures !HasSuffix(s, ".json") && !HasSuffix(s, ".") ==> Escape(s, true) == s
  {
    hide BeginsAsDevice, Escape, HasSuffix;
    EscapeIs(s);
    KeptByByte(s);
    DirectoryIs(s);
  }

  // ----- where it is cut -----

  /** A piece of a long name; one that ends in a dot hides it. */
  function Piece(encoded: Bytes, i: nat): Bytes
    requires 180 * i < |encoded|
  {
    var end := if 180 * (i + 1) < |encoded| then 180 * (i + 1) else |encoded|;
    var text := encoded[180 * i..end];
    ['~'] + if text[|text| - 1] == '.' then text[..|text| - 1] + "%2E" else text
  }

  lemma PieceIs(chunk: Bytes)
    requires chunk != []
    ensures PieceName(chunk) ==
      ['~'] + if chunk[|chunk| - 1] == '.' then chunk[..|chunk| - 1] + "%2E" else chunk
  {
    assert chunk[|chunk| - 1..] == [chunk[|chunk| - 1]];
  }

  lemma {:induction false} PiecesAre(encoded: Bytes, i: nat)
    requires 180 * i < |encoded|
    ensures |ChunkParts(encoded)| == (|encoded| + 179) / 180 && i < |ChunkParts(encoded)|
    ensures ChunkParts(encoded)[i] == Piece(encoded, i)
    decreases |encoded|
  {
    hide PieceName;
    if |encoded| <= 180 {
      PieceIs(encoded);
      assert encoded[0..|encoded|] == encoded;
    } else {
      var rest: Bytes := encoded[180..];
      var j := if i == 0 then 0 else i - 1;
      PiecesAre(rest, j);
      assert ChunkParts(encoded) == [PieceName(encoded[..180])] + ChunkParts(rest);
      if i == 0 {
        PieceIs(encoded[..180]);
        assert encoded[0..180] == encoded[..180];
      } else {
        PieceLater(encoded, i);
      }
    }
  }

  lemma PieceLater(encoded: Bytes, i: nat)
    requires i > 0 && 180 * i < |encoded|
    ensures 180 * (i - 1) < |encoded[180..]| && Piece(encoded[180..], i - 1) == Piece(encoded, i)
  {
    var end := if 180 * (i + 1) < |encoded| then 180 * (i + 1) else |encoded|;
    assert encoded[180..][180 * i - 180..end - 180] == encoded[180 * i..end];
  }

  ghost predicate InPieces(parts: seq<Bytes>, encoded: Bytes) {
    && |parts| == (|encoded| + 179) / 180
    && forall i | 0 <= i < |parts| :: parts[i] == Piece(encoded, i)
  }

  /** Up to 200 encoded bytes a name is one component; a longer one is cut into
      pieces of 180, the last of at most 180, with an end marker behind them. */
  lemma CutIs(segment: Bytes, directory: bool)
    ensures var e, parts := Escape(segment, directory), SegmentParts(segment, directory);
      if |e| <= 200 then parts == [if directory then e else e + ".json"]
      else
        var n := |parts| - 1;
        n >= 0 && InPieces(parts[..n], e) && parts[n] == if directory then "~~" else "~~.json"
  {
    hide Escape, InPieces, ChunkParts;
    var e, parts := Escape(segment, directory), SegmentParts(segment, directory);
    if |e| > 200 {
      ChunksAre(e);
      assert parts[..|parts| - 1] == ChunkParts(e);
    }
  }

  lemma ChunksAre(encoded: Bytes)
    requires encoded != []
    ensures InPieces(ChunkParts(encoded), encoded)
  {
    hide Piece, ChunkParts;
    PiecesAre(encoded, 0);
    forall i | 0 <= i < |ChunkParts(encoded)| ensures ChunkParts(encoded)[i] == Piece(encoded, i) {
      PiecesAre(encoded, i);
    }
  }

  // ----- whole references -----

  ghost predicate Ordinary(s: Bytes) {
    s != [] && s != "." && s != ".." && |s| <= 200 && !BeginsAsDevice(s) && forall i | 0 <= i < |s| :: Stays(s[i])
  }

  ghost predicate OrdinaryDirectory(s: Bytes) {
    Ordinary(s) && !HasSuffix(s, ".json") && !HasSuffix(s, ".")
  }

  lemma {:induction false} DirectoriesKept(segments: seq<Bytes>)
    requires forall s | s in segments :: OrdinaryDirectory(s)
    ensures DirectoryParts(segments) == segments
  {
    hide OrdinaryDirectory, SegmentParts;
    if segments == [] {
    } else {
      var n := |segments| - 1;
      assert segments[n] in segments && forall s | s in segments[..n] :: s in segments;
      DirectoriesKept(segments[..n]);
      DirectoryKept(segments[n]);
      assert segments[..n] + [segments[n]] == segments;
    }
  }

  lemma DirectoryKept(s: Bytes)
    requires OrdinaryDirectory(s)
    ensures SegmentParts(s, true) == [s]
  {
    hide Escape, BeginsAsDevice, HasSuffix;
    OrdinaryKept(s);
  }

  lemma FileKept(s: Bytes)
    requires Ordinary(s)
    ensures SegmentParts(s, false) == [s + ".json"]
  {
    hide Escape, BeginsAsDevice, HasSuffix;
    OrdinaryKept(s);
  }

  lemma LatestIsOrdinary()
    ensures Ordinary("latest")
  {
    hide IsDevice;
    var s: Bytes := "latest";
    forall k: nat ensures !DeviceAt(s, k) {
      if BaseEnds(s, k) && k == 6 {
        LongIsNoDevice(Lower(s[..6]));
      }
    }
    assert forall i | 0 <= i < |s| :: Stays(s[i]);
  }

  lemma LongIsNoDevice(name: string)
    requires |name| > 4
    ensures !IsDevice(name)
  {
  }

  lemma {:induction false} PlainName(names: seq<Bytes>)
    requires names != [] && forall s | s in names :: OrdinaryDirectory(s)
    ensures var name := Join(names, '/');
      name != [] && name[0] != '/' && ':' !in name
  {
    hide BeginsAsDevice, HasSuffix;
    assert OrdinaryDirectory(names[0]) && names[0][0] in names[0];
    NoSeparators(names[0]);
    if |names| == 1 {
    } else {
      PlainName(names[1..]);
    }
  }

  lemma NoSeparators(s: Bytes)
    requires forall i | 0 <= i < |s| :: Stays(s[i])
    ensures '/' !in s && ':' !in s
  {
  }

  lemma NoScheme(name: Bytes, tag: Bytes)
    requires name != [] && name[0] != '/' && ':' !in name && '/' !in tag
    ensures !Opaque(name + [':'] + tag) && !Opaque(name)
  {
    hide OccursAt, Find, Contains;
    var ref: Bytes := name + [':'] + tag;
    forall i: nat ensures !OccursAt(name, "://", i) && !OccursAt(ref, "://", i) {
      SchemeNeedsSlash(name, i);
      SchemeNeedsSlash(ref, i);
      if |name| < i + 1 < |ref| {
        AfterColon(name, tag, i + 1);
      }
    }
    SchemeFound(name);
    SchemeFound(ref);
    assert ref[0] == name[0];
  }

  lemma SchemeFound(s: Bytes)
    ensures Find(s, "://").Some? ==> OccursAt(s, "://", Find(s, "://").value)
  {
  }

  lemma SchemeNeedsSlash(s: Bytes, i: nat)
    ensures OccursAt(s, "://", i) ==> i + 2 < |s| && s[i] == ':' && s[i + 1] == '/'
  {
    if OccursAt(s, "://", i) {
      assert s[i..i + 3][0] == s[i] && s[i..i + 3][1] == s[i + 1];
    }
  }

  /** The pointer file of ordinary names and an ordinary tag lies where the
      reference says: the names are the directories, the tag is the file, and
      no tag is `latest`. */
  lemma OrdinaryPath(names: seq<Bytes>, tag: Bytes)
    requires names != [] && (forall s | s in names :: OrdinaryDirectory(s)) && Ordinary(tag)
    ensures PathParts(Join(names, '/') + [':'] + tag) == names + [tag + ".json"]
    ensures PathParts(Join(names, '/')) == names + ["latest.json"]
  {
    hide Join, OrdinaryDirectory, BeginsAsDevice, Opaque, PathParts, NameAndTag;
    var name := Join(names, '/');
    PlainName(names);
    NoSeparators(tag);
    NoScheme(name, tag);
    TagSplitsOff(name, tag);
    PathOfNames(name + [':'] + tag, names);
    Untagged(name);
    LatestIsOrdinary();
    PathOfNames(name, names);
    assert "latest" + ".json" == "latest.json";
  }

  lemma Untagged(name: Bytes)
    requires ':' !in name
    ensures NameAndTag(name) == (name, "latest")
  {
  }

  lemma PathOfNames(ref: Bytes, names: seq<Bytes>)
    requires !Opaque(ref) && names != [] && (forall s | s in names :: OrdinaryDirectory(s))
    requires NameAndTag(ref).0 == Join(names, '/') && Ordinary(NameAndTag(ref).1)
    ensures PathParts(ref) == names + [NameAndTag(ref).1 + ".json"]
  {
    hide Opaque, NameAndTag, BeginsAsDevice, SegmentParts, LayoutOf, DirectoryParts, Ordinary, Join;
    var (name, tag) := NameAndTag(ref);
    PlainName(names);
    NamesSplit(names);
    LayoutOfNames(ref);
    DirectoriesKept(names);
    FileKept(tag);
    assert [] + names == names;
  }

  lemma NamesSplit(names: seq<Bytes>)
    requires names != [] && (forall s | s in names :: OrdinaryDirectory(s))
    ensures Split(Join(names, '/'), '/') == names
  {
    hide BeginsAsDevice, HasSuffix, Join, Split;
    forall s | s in names ensures '/' !in s {
      NoSeparators(s);
    }
    SplitJoin(names, '/');
  }

  lemma LayoutOfNames(ref: Bytes)
    requires !Opaque(ref) && NameAndTag(ref).0 != []
    ensures LayoutOf(ref) == Layout(false, Split(NameAndTag(ref).0, '/'), NameAndTag(ref).1)
  {
    hide Opaque, Split, LastIndex, CanonicalKey, NameAndTag, LayoutOf;
    var (name, tag) := NameAndTag(ref);
    KeyParts(ref);
    TagIsPlain(ref);
    LastColon(name, tag);
    LayoutAt(ref, |name|);
    assert (name + [':'] + tag)[..|name|] == name && (name + [':'] + tag)[|name| + 1..] == tag;
  }

  lemma LastColon(name: Bytes, tag: Bytes)
    requires '/' !in tag && ':' !in tag
    ensures LastIndex(name + [':'] + tag, ':') == |name|
  {
    hide LastIndex;
    var ref: Bytes := name + [':'] + tag;
    forall k | |name| < k < |ref| ensures ref[k] != ':' {
      AfterColon(name, tag, k);
    }
    assert ref[|name|] == ':';
    LastIndexIs(ref, ':', |name|);
  }

  /** A reference that begins with a slash or holds a scheme is its own key and
      its path is marked; any other is tagged and its path is not. */
  lemma OpaqueByShape(ref: Bytes)
    ensures "/" <= ref || Contains(ref, "://") ==>
      CanonicalKey(ref) == ref && PathParts(ref) != [] && PathParts(ref)[0] == "~"
    ensures !("/" <= ref) && !Contains(ref, "://") ==>
      CanonicalKey(ref) == NormalizeTag(ref) && !LayoutOf(ref).opaquely
  {
    hide SegmentParts, DirectoryParts, LastIndex, Split, NormalizeTag, LayoutOf;
    LayoutKind(ref);
    if Find(ref, "://").Some? {
      assert OccursAt(ref, "://", Find(ref, "://").value);
    }
  }

  lemma LayoutKind(ref: Bytes)
    ensures LayoutOf(ref).opaquely == Opaque(ref)
  {
    hide Opaque, LastIndex, Split, NormalizeTag;
  }
}
