/** The pointer-path codec of go-shim/manifest_ref.go: how a model reference
    becomes the path components of its pointer file below `manifests-v2`. */
module RefCodec {
  import opened Wrappers
  import opened Text

  const RESERVED_NAMES: set<string> :=
    {"con", "prn", "aux", "nul",
     "com1", "com2", "com3", "com4", "com5", "com6", "com7", "com8", "com9",
     "lpt1", "lpt2", "lpt3", "lpt4", "lpt5", "lpt6", "lpt7", "lpt8", "lpt9"}

  /** The longest encoded segment kept as one component, and the size of the
      pieces a longer one is cut into. */
  const WHOLE := 200
  const CHUNK := 180

  // ----- the canonical key of a reference -----

  predicate Opaque(ref: Bytes) {
    (|ref| > 0 && ref[0] == '/') || Find(ref, "://").Some?
  }

  /** `normalizeTag` of go-shim/classify.go: the result always has a tag, that
      is, a colon after its last slash; one that is there is kept, and `latest`
      is the one that is added. */
  function NormalizeTag(ref: Bytes): (key: Bytes)
    ensures LastIndex(key, '/') < LastIndex(key, ':')
    ensures LastIndex(ref, '/') < LastIndex(ref, ':') <==> key == ref
    ensures key != ref ==> |key| == |ref| + 7 && ref <= key && HasSuffix(key, ":latest")
  {
    if LastIndex(ref, ':') <= LastIndex(ref, '/') then
      var key := ref + ":latest";
      LastIndexIs(key, ':', |ref|);
      LastIndexIs(key, '/', LastIndex(ref, '/'));
      key
    else ref
  }

  function CanonicalKey(ref: Bytes): Bytes {
    if Opaque(ref) then ref else NormalizeTag(ref)
  }

  lemma OpaqueHasSlash(ref: Bytes)
    requires Opaque(ref)
    ensures LastIndex(ref, '/') >= 0
  {
    if ref[0] != '/' {
      var i := Find(ref, "://").value;
      assert ref[i..i + 3][1] == '/';
      assert ref[i + 1] == '/';
    }
  }

  // ----- one segment -----

  predicate Safe(b: Byte) {
    'a' <= b <= 'z' || '0' <= b <= '9' || b == '-' || b == '_' || b == '.'
  }

  /** What comes before the first dot. */
  function Base(s: string): string {
    match Find(s, ".")
    case Some(i) => s[..i]
    case None => s
  }

  predicate Reserved(segment: string) {
    Base(Lower(segment)) in RESERVED_NAMES
  }

  function HexDigit(n: int): Byte
    requires 0 <= n < 16
  {
    "0123456789ABCDEF"[n]
  }

  predicate Kept(segment: Bytes, i: nat)
    requires i < |segment|
  {
    Safe(segment[i]) && (!Reserved(segment) || i != 0) && segment != "." && segment != ".."
  }

  function Token(segment: Bytes, i: nat): Bytes
    requires i < |segment|
  {
    var b := segment[i];
    if Kept(segment, i) then [b] else ['%', HexDigit(b as int / 16), HexDigit(b as int % 16)]
  }

  function EscapedPrefix(segment: Bytes, n: nat): Bytes
    requires n <= |segment|
  {
    if n == 0 then [] else EscapedPrefix(segment, n - 1) + Token(segment, n - 1)
  }

  lemma EndsInDot(encoded: Bytes)
    requires HasSuffix(encoded, ".")
    ensures LastIndex(encoded, '.') == |encoded| - 1
  {
  }

  lemma EndsInJson(encoded: Bytes)
    requires HasSuffix(encoded, ".json")
    ensures LastIndex(encoded, '.') == |encoded| - 5
  {
    var from := |encoded| - 5;
    SuffixAt(encoded, ".json", 0);
    forall k | from < k < |encoded| ensures encoded[k] != '.' {
      SuffixAt(encoded, ".json", k - from);
    }
    LastIndexIs(encoded, '.', from);
  }

  lemma LastDot(encoded: Bytes)
    requires HasSuffix(encoded, ".json") || HasSuffix(encoded, ".")
    ensures 0 <= LastIndex(encoded, '.')
  {
    if HasSuffix(encoded, ".") {
      EndsInDot(encoded);
    } else {
      EndsInJson(encoded);
    }
  }

  /** A directory name must neither look like a pointer file nor end in a dot. */
  function GuardDirectory(encoded: Bytes): Bytes {
    if HasSuffix(encoded, ".json") || HasSuffix(encoded, ".") then
      LastDot(encoded);
      var i := LastIndex(encoded, '.');
      encoded[..i] + "%2E" + encoded[i + 1..]
    else encoded
  }

  function Escape(segment: Bytes, directory: bool): Bytes {
    if segment == [] then "~"
    else
      var encoded := EscapedPrefix(segment, |segment|);
      if directory then GuardDirectory(encoded) else encoded
  }

  // ----- the components of one segment -----

  function ChunkName(chunk: Bytes): Bytes {
    if HasSuffix(chunk, ".") then chunk[..|chunk| - 1] + "%2E" else chunk
  }

  function PieceName(chunk: Bytes): Bytes {
    "~" + ChunkName(chunk)
  }

  function ChunkParts(encoded: Bytes): (parts: seq<Bytes>)
    decreases |encoded|
  {
    if |encoded| <= CHUNK then [PieceName(encoded)]
    else [PieceName(encoded[..CHUNK])] + ChunkParts(encoded[CHUNK..])
  }

  function SegmentParts(segment: Bytes, directory: bool): seq<Bytes> {
    var encoded := Escape(segment, directory);
    if |encoded| <= WHOLE then
      [if directory then encoded else encoded + ".json"]
    else
      ChunkParts(encoded) + [if directory then "~~" else "~~.json"]
  }

  function DirectoryParts(segments: seq<Bytes>): seq<Bytes> {
    if segments == [] then [] else DirectoryParts(segments[..|segments| - 1]) + SegmentParts(segments[|segments| - 1], true)
  }

  // ----- the whole path -----

  datatype Layout = Layout(opaquely: bool, directories: seq<Bytes>, tag: Bytes)

  /** How a reference is laid out: its directories and the tag its file is
      named after. */
  function LayoutOf(ref: Bytes): Layout {
    var key := CanonicalKey(ref);
    if Opaque(ref) then
      OpaqueHasSlash(ref);
      var i := LastIndex(key, '/');
      Layout(true, Split(key[..i], '/'), key[i + 1..])
    else
      var i := LastIndex(key, ':');
      Layout(false, if key[..i] == [] then [] else Split(key[..i], '/'), key[i + 1..])
  }

  function LayoutParts(l: Layout): seq<Bytes> {
    (if l.opaquely then ["~"] else []) + DirectoryParts(l.directories) + SegmentParts(l.tag, false)
  }

  /** The components below `manifests-v2` of ref's pointer file. */
  function PathParts(ref: Bytes): seq<Bytes> {
    LayoutParts(LayoutOf(ref))
  }
}
