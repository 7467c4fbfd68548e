/** A decoder for pointer paths, written from the documented format alone, and
    the proof that it undoes the codec even after the path was case folded.
    Because the decoder stops exactly at the end of a pointer path and returns
    what is left over, injectivity and prefix-freeness both follow from it. */
module RefDecode {
  import opened Wrappers
  import opened Text
  import opened RefCodec

  // ----- percent decoding -----

  function HexValue(c: char): Option<int> {
    if '0' <= c <= '9' then Some(c as int - '0' as int)
    else if 'a' <= c <= 'f' then Some(c as int - 'a' as int + 10)
    else None
  }

  /** The byte the encoding starts with, and how many characters spell it. */
  function UnescapeHead(e: string): (r: Option<(Byte, nat)>)
    ensures r.Some? ==> 0 < r.value.1 <= |e|
  {
    if e == "" then None
    else if e[0] != '%' then
      if e[0] as int < 256 then Some((e[0], 1)) else None
    else if |e| < 3 || HexValue(e[1]).None? || HexValue(e[2]).None? then None
    else Some(((HexValue(e[1]).value * 16 + HexValue(e[2]).value) as char, 3))
  }

  function Unescape(e: string): Option<Bytes> {
    if e == "" then Some([])
    else
      match UnescapeHead(e)
      case None => None
      case Some((b, n)) =>
        match Unescape(e[n..])
        case None => None
        case Some(rest) => Some([b] + rest)
  }

  lemma UnescapeFirst(e: string, first: Byte, n: nat, rest: Bytes)
    requires UnescapeHead(e) == Some((first, n))
    requires Unescape(e[n..]) == Some(rest)
    ensures Unescape(e) == Some([first] + rest)
  {
  }

  /** The first encoded byte is read from the first few characters alone. */
  lemma HeadStable(a: string, b: string)
    requires UnescapeHead(a).Some?
    ensures UnescapeHead(a + b) == UnescapeHead(a)
    ensures (a + b)[UnescapeHead(a).value.1..] == a[UnescapeHead(a).value.1..] + b
  {
  }

  lemma UnescapeParts(e: string)
    requires e != "" && Unescape(e).Some?
    ensures UnescapeHead(e).Some?
    ensures var (first, n) := UnescapeHead(e).value;
      Unescape(e[n..]).Some? && Unescape(e).value == [first] + Unescape(e[n..]).value
  {
  }

  lemma UnescapeEmpty()
    ensures Unescape("") == Some([])
  {
  }

  lemma {:induction false} UnescapeConcat(a: string, b: string)
    requires Unescape(a).Some? && Unescape(b).Some?
    ensures Unescape(a + b) == Some(Unescape(a).value + Unescape(b).value)
  {
    hide Unescape, UnescapeHead;
    var rb := Unescape(b).value;
    if a == "" {
      UnescapeEmpty();
      assert a + b == b && [] + rb == rb;
    } else {
      UnescapeParts(a);
      var (first, n) := UnescapeHead(a).value;
      var ra := Unescape(a[n..]).value;
      UnescapeConcat(a[n..], b);
      HeadStable(a, b);
      UnescapeFirst(a + b, first, n, ra + rb);
      assert [first] + (ra + rb) == [first] + ra + rb;
    }
  }

  lemma UnescapeDotFirst(b: string)
    requires Unescape("." + b).Some?
    ensures Unescape("%2e" + b) == Unescape("." + b)
  {
  }

  lemma HeadBeforeDot(a: string, b: string)
    requires a != "" && UnescapeHead(a + "." + b).Some?
    ensures UnescapeHead(a).Some? && UnescapeHead(a + "." + b) == UnescapeHead(a)
  {
  }

  /** A literal dot may be written as an escape without changing the meaning. */
  lemma {:induction false} UnescapeDot(a: string, b: string)
    requires Unescape(a + "." + b).Some?
    ensures Unescape(a + "%2e" + b) == Unescape(a + "." + b)
  {
    hide Unescape, UnescapeHead;
    if a == "" {
      assert a + "." + b == "." + b && a + "%2e" + b == "%2e" + b;
      UnescapeDotFirst(b);
    } else {
      UnescapeParts(a + "." + b);
      HeadBeforeDot(a, b);
      var (first, n) := UnescapeHead(a).value;
      HeadStable(a, "." + b);
      HeadStable(a, "%2e" + b);
      assert a + "." + b == a + ("." + b) && a + "%2e" + b == a + ("%2e" + b);
      assert a[n..] + "." + b == a[n..] + ("." + b) && a[n..] + "%2e" + b == a[n..] + ("%2e" + b);
      UnescapeDot(a[n..], b);
      UnescapeFirst(a + "%2e" + b, first, n, Unescape(a[n..] + "%2e" + b).value);
    }
  }

  lemma LowerHex(n: int)
    requires 0 <= n < 16
    ensures HexValue(LowerChar(HexDigit(n))) == Some(n)
  {
  }

  lemma UnescapeLiteral(b: Byte)
    requires Safe(b)
    ensures Unescape(Lower([b])) == Some([b])
  {
    assert Lower([b]) == [b];
    assert [b][1..] == "";
    assert [b] + [] == [b];
  }

  lemma UnescapeHex(b: Byte)
    ensures Unescape(Lower(['%', HexDigit(b as int / 16), HexDigit(b as int % 16)])) == Some([b])
  {
    var e := Lower(['%', HexDigit(b as int / 16), HexDigit(b as int % 16)]);
    LowerHex(b as int / 16);
    LowerHex(b as int % 16);
    assert |e| == 3 && e[0] == '%' && e[3..] == "";
    assert UnescapeHead(e) == Some((b, 3));
    assert [b] + [] == [b];
  }

  lemma UnescapeToken(segment: Bytes, i: nat)
    requires i < |segment|
    ensures Unescape(Lower(Token(segment, i))) == Some([segment[i]])
  {
    if Kept(segment, i) {
      UnescapeLiteral(segment[i]);
    } else {
      UnescapeHex(segment[i]);
    }
  }

  lemma UnescapeMore(e: string, t: string, s: Bytes, b: Byte)
    requires Unescape(Lower(e)) == Some(s)
    requires Unescape(Lower(t)) == Some([b])
    ensures Unescape(Lower(e + t)) == Some(s + [b])
  {
    LowerConcat(e, t);
    UnescapeConcat(Lower(e), Lower(t));
  }

  lemma UnescapeNothing()
    ensures Unescape(Lower([])) == Some([])
  {
  }

  lemma {:induction false} UnescapePrefix(segment: Bytes, n: nat)
    requires n <= |segment|
    ensures Unescape(Lower(EscapedPrefix(segment, n))) == Some(segment[..n])
  {
    hide Unescape, Token, Lower;
    if n == 0 {
      assert segment[..0] == [];
      UnescapeNothing();
    } else {
      UnescapePrefix(segment, n - 1);
      UnescapeToken(segment, n - 1);
      UnescapeMore(EscapedPrefix(segment, n - 1), Token(segment, n - 1), segment[..n - 1], segment[n - 1]);
      assert segment[..n - 1] + [segment[n - 1]] == segment[..n];
    }
  }

  lemma LowerDots()
    ensures Lower(".") == "." && Lower("%2E") == "%2e"
  {
  }

  lemma UnescapeGuarded(encoded: Bytes)
    requires Unescape(Lower(encoded)).Some?
    ensures Unescape(Lower(GuardDirectory(encoded))) == Unescape(Lower(encoded))
  {
    hide HasSuffix, LastIndex, Unescape, LowerChar;
    if HasSuffix(encoded, ".json") || HasSuffix(encoded, ".") {
      LastDot(encoded);
      var i := LastIndex(encoded, '.');
      var a, b := encoded[..i], encoded[i + 1..];
      assert encoded == a + "." + b;
      LowerAround(a, ".", b);
      LowerAround(a, "%2E", b);
      LowerDots();
      UnescapeDot(Lower(a), Lower(b));
    }
  }

  lemma LowerAround(a: string, m: string, b: string)
    ensures Lower(a + m + b) == Lower(a) + Lower(m) + Lower(b)
  {
  }

  /** Percent encoding loses nothing, whatever was escaped on top of it. */
  lemma UnescapeEscape(segment: Bytes, directory: bool)
    requires segment != []
    ensures Unescape(Lower(Escape(segment, directory))) == Some(segment)
  {
    UnescapePrefix(segment, |segment|);
    assert segment[..|segment|] == segment;
    UnescapeGuarded(EscapedPrefix(segment, |segment|));
  }

  // ----- the alphabet of encoded segments -----

  predicate InAlphabet(c: char) {
    'a' <= c <= 'z' || '0' <= c <= '9' || c == '-' || c == '_' || c == '.' || c == '%' || 'A' <= c <= 'F'
  }

  predicate Encoded(e: string) {
    forall i | 0 <= i < |e| :: InAlphabet(e[i])
  }

  lemma TokenAlphabet(segment: Bytes, i: nat)
    requires i < |segment|
    ensures Encoded(Token(segment, i)) && |Token(segment, i)| > 0
  {
    hide Reserved;
  }

  lemma {:induction false} PrefixAlphabet(segment: Bytes, n: nat)
    requires n <= |segment|
    ensures Encoded(EscapedPrefix(segment, n)) && n <= |EscapedPrefix(segment, n)|
  {
    hide Token, InAlphabet;
    if n == 0 {
    } else {
      PrefixAlphabet(segment, n - 1);
      TokenAlphabet(segment, n - 1);
    }
  }

  lemma {:induction false} GuardAlphabet(encoded: Bytes)
    requires Encoded(encoded) && encoded != []
    ensures Encoded(GuardDirectory(encoded)) && GuardDirectory(encoded) != []
  {
    hide HasSuffix, LastIndex;
    if HasSuffix(encoded, ".") || HasSuffix(encoded, ".json") {
      LastDot(encoded);
      var i := LastIndex(encoded, '.');
      assert Encoded(encoded[..i]) && Encoded("%2E") && Encoded(encoded[i + 1..]);
      assert GuardDirectory(encoded) == encoded[..i] + "%2E" + encoded[i + 1..];
    }
  }

  lemma EscapeAlphabet(segment: Bytes, directory: bool)
    requires segment != []
    ensures Encoded(Escape(segment, directory)) && Escape(segment, directory) != []
  {
    PrefixAlphabet(segment, |segment|);
    GuardAlphabet(EscapedPrefix(segment, |segment|));
  }

  /** No directory name ends like a pointer file or in a dot. */
  lemma GuardedEnd(encoded: Bytes)
    ensures !HasSuffix(GuardDirectory(encoded), ".json") && !HasSuffix(GuardDirectory(encoded), ".")
  {
    var g := GuardDirectory(encoded);
    if HasSuffix(encoded, ".") || HasSuffix(encoded, ".json") {
      LastDot(encoded);
      var i := LastIndex(encoded, '.');
      assert g == encoded[..i] + "%2E" + encoded[i + 1..];
      if HasSuffix(encoded, ".") {
        EndsInDot(encoded);
        NoSuffix(g, ".", 0);
        NoSuffix(g, ".json", 4);
      } else {
        EndsInJson(encoded);
        SuffixAt(encoded, ".json", 4);
        NoSuffix(g, ".", 0);
        NoSuffix(g, ".json", 0);
      }
    }
  }

  // ----- the decoder -----

  function LowerAll(parts: seq<string>): seq<string> {
    seq(|parts|, i requires 0 <= i < |parts| => Lower(parts[i]))
  }

  lemma LowerAllConcat(a: seq<string>, b: seq<string>)
    ensures LowerAll(a + b) == LowerAll(a) + LowerAll(b)
  {
  }

  lemma LowerAllThen(a: seq<string>, b: seq<string>, rest: seq<string>)
    ensures LowerAll(a + b) + rest == LowerAll(a) + (LowerAll(b) + rest)
  {
  }

  /** The pieces of a long segment up to its `~~` component: their text, that
      component, and the components after it. */
  function CollectChunks(parts: seq<string>): (r: Option<(string, string, seq<string>)>)
    ensures r.Some? ==> |r.value.2| < |parts|
  {
    if parts == [] || parts[0] == "" || parts[0][0] != '~' then None
    else if |parts[0]| >= 2 && parts[0][1] == '~' then Some(("", parts[0], parts[1..]))
    else
      match CollectChunks(parts[1..])
      case None => None
      case Some((text, end, rest)) => Some((parts[0][1..] + text, end, rest))
  }

  datatype Decoded = Decoded(directories: seq<Bytes>, tag: Bytes, rest: seq<string>)

  function AddDirectory(segment: Bytes, d: Option<Decoded>): Option<Decoded> {
    match d
    case None => None
    case Some(d) => Some(d.(directories := [segment] + d.directories))
  }

  /** Reads directories until the pointer file; what follows it is left over. */
  function DecodeSegments(parts: seq<string>): Option<Decoded>
    decreases |parts|
  {
    if parts == [] || parts[0] == "" then None
    else if parts[0] == "~" then AddDirectory([], DecodeSegments(parts[1..]))
    else if parts[0] == "~.json" then Some(Decoded([], [], parts[1..]))
    else if parts[0][0] == '~' then
      match CollectChunks(parts)
      case None => None
      case Some((text, end, rest)) =>
        match Unescape(text)
        case None => None
        case Some(segment) =>
          if end == "~~" then AddDirectory(segment, DecodeSegments(rest))
          else if end == "~~.json" then Some(Decoded([], segment, rest))
          else None
    else if HasSuffix(parts[0], ".json") then
      match Unescape(parts[0][..|parts[0]| - 5])
      case None => None
      case Some(segment) => Some(Decoded([], segment, parts[1..]))
    else
      match Unescape(parts[0])
      case None => None
      case Some(segment) => AddDirectory(segment, DecodeSegments(parts[1..]))
  }

  /** The canonical key a pointer path stands for, and what follows the path. */
  function DecodePath(parts: seq<string>): Option<(Bytes, seq<string>)> {
    var opaquely := parts != [] && parts[0] == "~";
    match DecodeSegments(if opaquely then parts[1..] else parts)
    case None => None
    case Some(d) => Some((Join(d.directories, '/') + (if opaquely then "/" else ":") + d.tag, d.rest))
  }

  // ----- long segments -----

  /** The text of all the pieces of a long segment. */
  function Dotted(encoded: Bytes): Bytes
    decreases |encoded|
  {
    if |encoded| <= CHUNK then ChunkName(encoded)
    else ChunkName(encoded[..CHUNK]) + Dotted(encoded[CHUNK..])
  }

  lemma ChunkComponent(chunk: Bytes)
    requires Encoded(chunk) && chunk != []
    ensures var name := Lower(PieceName(chunk));
      |name| >= 2 && name[0] == '~' && name[1] != '~' && name[1..] == Lower(ChunkName(chunk))
  {
  }

  lemma {:induction false} CollectOne(parts: seq<string>, text: string, end: string, rest: seq<string>)
    requires parts != []
    requires |parts[0]| >= 2 && parts[0][0] == '~' && parts[0][1] != '~'
    requires CollectChunks(parts[1..]) == Some((text, end, rest))
    ensures CollectChunks(parts) == Some((parts[0][1..] + text, end, rest))
  {
  }

  lemma {:induction false} CollectAll(encoded: Bytes, end: string, rest: seq<string>)
    requires Encoded(encoded) && encoded != []
    requires |end| >= 2 && end[0] == '~' && end[1] == '~'
    ensures CollectChunks(LowerAll(ChunkParts(encoded)) + [end] + rest) == Some((Lower(Dotted(encoded)), end, rest))
    decreases |encoded|
  {
    hide ChunkName, Lower, CollectChunks;
    var parts := LowerAll(ChunkParts(encoded)) + [end] + rest;
    if |encoded| <= CHUNK {
      ChunkComponent(encoded);
      CollectEnd(end, rest);
      assert parts[0] == Lower(PieceName(encoded));
      assert parts[1..] == [end] + rest;
      CollectOne(parts, "", end, rest);
      assert parts[0][1..] + "" == Lower(ChunkName(encoded));
    } else {
      var c, more := encoded[..CHUNK], encoded[CHUNK..];
      ChunkComponent(c);
      CollectAll(more, end, rest);
      LowerAllConcat([PieceName(c)], ChunkParts(more));
      assert parts[0] == Lower(PieceName(c));
      assert parts[1..] == LowerAll(ChunkParts(more)) + [end] + rest;
      CollectOne(parts, Lower(Dotted(more)), end, rest);
      LowerConcat(ChunkName(c), Dotted(more));
    }
  }

  lemma CollectEnd(end: string, rest: seq<string>)
    requires |end| >= 2 && end[0] == '~' && end[1] == '~'
    ensures CollectChunks([end] + rest) == Some(("", end, rest))
  {
  }

  /** Hiding a trailing dot of a piece does not change what the whole says. */
  lemma {:induction false} DottedMeaning(before: string, encoded: Bytes)
    requires Unescape(before + Lower(encoded)).Some?
    ensures Unescape(before + Lower(Dotted(encoded))) == Unescape(before + Lower(encoded))
    decreases |encoded|
  {
    var n := if |encoded| <= CHUNK then |encoded| else CHUNK;
    var c, more := encoded[..n], encoded[n..];
    assert encoded == c + more;
    LowerConcat(c, more);
    assert before + Lower(encoded) == before + Lower(c) + Lower(more);
    ChunkMeaning(before, c, Lower(more));
    if |encoded| <= CHUNK {
      assert c == encoded && Lower(more) == "";
      assert before + Lower(ChunkName(c)) + "" == before + Lower(ChunkName(c));
    } else {
      LowerConcat(ChunkName(c), Dotted(more));
      var through := before + Lower(ChunkName(c));
      DottedMeaning(through, more);
      assert before + Lower(Dotted(encoded)) == through + Lower(Dotted(more));
    }
  }

  lemma ChunkMeaning(before: string, chunk: Bytes, after: string)
    requires Unescape(before + Lower(chunk) + after).Some?
    ensures Unescape(before + Lower(ChunkName(chunk)) + after) == Unescape(before + Lower(chunk) + after)
  {
    if HasSuffix(chunk, ".") {
      var c := chunk[..|chunk| - 1];
      SuffixAt(chunk, ".", 0);
      assert chunk == c + ".";
      LowerConcat(c, ".");
      LowerConcat(c, "%2E");
      assert Lower(".") == "." && Lower("%2E") == "%2e";
      assert before + Lower(chunk) + after == before + Lower(c) + "." + after;
      assert before + Lower(ChunkName(chunk)) + after == before + Lower(c) + "%2e" + after;
      UnescapeDot(before + Lower(c), after);
    }
  }

  lemma LongSegment(segment: Bytes, directory: bool, end: string, rest: seq<string>)
    requires segment != []
    requires |end| >= 2 && end[0] == '~' && end[1] == '~'
    ensures var encoded := Escape(segment, directory);
      var parts := LowerAll(ChunkParts(encoded)) + [end] + rest;
      CollectChunks(parts) == Some((Lower(Dotted(encoded)), end, rest)) &&
      Unescape(Lower(Dotted(encoded))) == Some(segment)
  {
    var encoded := Escape(segment, directory);
    EscapeAlphabet(segment, directory);
    CollectAll(encoded, end, rest);
    UnescapeEscape(segment, directory);
    assert "" + Lower(encoded) == Lower(encoded);
    DottedMeaning("", encoded);
    assert "" + Lower(Dotted(encoded)) == Lower(Dotted(encoded));
  }

  // ----- the decoder undoes the codec -----

  lemma LowerJson(e: Bytes)
    requires Encoded(e) && HasSuffix(Lower(e), ".json")
    ensures HasSuffix(e, ".json")
  {
  }

  lemma LongHead(encoded: Bytes)
    requires Encoded(encoded) && |encoded| > WHOLE
    ensures var name := Lower(ChunkParts(encoded)[0]);
      |name| > 6 && name[0] == '~'
  {
  }

  lemma ShortHead(encoded: Bytes)
    requires Encoded(encoded) && encoded != []
    ensures Lower(encoded) != "" && Lower(encoded)[0] != '~'
  {
  }

  lemma LowerLiteral(name: string)
    requires forall c | c in name :: !('A' <= c <= 'Z')
    ensures LowerAll([name]) == [name]
  {
    assert forall i | 0 <= i < |name| :: name[i] in name;
    assert Lower(name) == name;
  }

  lemma StepDirectory(name: string, segment: Bytes, rest: seq<string>)
    requires name != "" && name[0] != '~' && !HasSuffix(name, ".json")
    requires Unescape(name) == Some(segment)
    ensures DecodeSegments([name] + rest) == AddDirectory(segment, DecodeSegments(rest))
  {
  }

  lemma StepFile(name: string, tag: Bytes, rest: seq<string>)
    requires name != "" && name[0] != '~'
    requires Unescape(name) == Some(tag)
    ensures DecodeSegments([name + ".json"] + rest) == Some(Decoded([], tag, rest))
  {
    var file := name + ".json";
    assert ([file] + rest)[1..] == rest;
    assert HasSuffix(file, ".json") && file[..|file| - 5] == name;
  }

  lemma StepLong(parts: seq<string>, text: string, end: string, rest: seq<string>, segment: Bytes)
    requires parts != [] && |parts[0]| > 6 && parts[0][0] == '~'
    requires CollectChunks(parts) == Some((text, end, rest))
    requires Unescape(text) == Some(segment)
    ensures end == "~~" ==> DecodeSegments(parts) == AddDirectory(segment, DecodeSegments(rest))
    ensures end == "~~.json" ==> DecodeSegments(parts) == Some(Decoded([], segment, rest))
  {
  }

  lemma DecodeLong(segment: Bytes, directory: bool, rest: seq<string>)
    requires segment != [] && |Escape(segment, directory)| > WHOLE
    ensures var parts := LowerAll(SegmentParts(segment, directory)) + rest;
      DecodeSegments(parts) ==
        if directory then AddDirectory(segment, DecodeSegments(rest)) else Some(Decoded([], segment, rest))
  {
    var encoded := Escape(segment, directory);
    var end := if directory then "~~" else "~~.json";
    var chunks := ChunkParts(encoded);
    EscapeAlphabet(segment, directory);
    LongSegment(segment, directory, end, rest);
    LongHead(encoded);
    LowerAllConcat(chunks, [end]);
    LowerLiteral(end);
    assert (LowerAll(chunks) + [end] + rest)[0] == Lower(chunks[0]);
    StepLong(LowerAll(chunks) + [end] + rest, Lower(Dotted(encoded)), end, rest, segment);
  }

  /** A directory is read back in full, and nothing after it is touched. */
  lemma {:induction false} DecodeDirectory(segment: Bytes, rest: seq<string>)
    ensures DecodeSegments(LowerAll(SegmentParts(segment, true)) + rest) == AddDirectory(segment, DecodeSegments(rest))
  {
    var encoded := Escape(segment, true);
    if segment == [] {
      var parts := ["~"] + rest;
      LowerLiteral("~");
      assert SegmentParts([], true) == ["~"];
      assert parts[1..] == rest;
    } else if |encoded| > WHOLE {
      DecodeLong(segment, true, rest);
    } else {
      EscapeAlphabet(segment, true);
      ShortHead(encoded);
      UnescapeEscape(segment, true);
      GuardedEnd(EscapedPrefix(segment, |segment|));
      assert !HasSuffix(Lower(encoded), ".json") by {
        if HasSuffix(Lower(encoded), ".json") { LowerJson(encoded); }
      }
      assert LowerAll(SegmentParts(segment, true)) == [Lower(encoded)];
      StepDirectory(Lower(encoded), segment, rest);
    }
  }

  /** The pointer file ends the path: decoding stops right after it. */
  lemma DecodeFile(tag: Bytes, rest: seq<string>)
    ensures DecodeSegments(LowerAll(SegmentParts(tag, false)) + rest) == Some(Decoded([], tag, rest))
  {
    var encoded := Escape(tag, false);
    if tag == [] {
      var parts := ["~.json"] + rest;
      LowerLiteral("~.json");
      assert "~" + ".json" == "~.json";
      assert SegmentParts([], false) == ["~.json"];
      assert parts[1..] == rest;
    } else if |encoded| > WHOLE {
      DecodeLong(tag, false, rest);
    } else {
      EscapeAlphabet(tag, false);
      ShortHead(encoded);
      UnescapeEscape(tag, false);
      LowerConcat(encoded, ".json");
      assert Lower(".json") == ".json";
      assert LowerAll(SegmentParts(tag, false)) == [Lower(encoded) + ".json"];
      StepFile(Lower(encoded), tag, rest);
    }
  }

  function AddDirectories(segments: seq<Bytes>, d: Option<Decoded>): Option<Decoded> {
    match d
    case None => None
    case Some(d) => Some(d.(directories := segments + d.directories))
  }

  lemma AddLast(init: seq<Bytes>, last: Bytes, d: Option<Decoded>)
    ensures AddDirectories(init, AddDirectory(last, d)) == AddDirectories(init + [last], d)
  {
    if d.Some? {
      assert init + ([last] + d.value.directories) == init + [last] + d.value.directories;
    }
  }

  lemma AddNone(d: Option<Decoded>)
    ensures AddDirectories([], d) == d
  {
    if d.Some? {
      assert [] + d.value.directories == d.value.directories;
    }
  }

  lemma {:induction false} DirectoryShape(segments: seq<Bytes>, rest: seq<string>)
    requires segments != []
    ensures LowerAll(DirectoryParts(segments)) + rest
      == LowerAll(DirectoryParts(segments[..|segments| - 1]))
         + (LowerAll(SegmentParts(segments[|segments| - 1], true)) + rest)
  {
    LowerAllThen(DirectoryParts(segments[..|segments| - 1]), SegmentParts(segments[|segments| - 1], true), rest);
  }

  lemma {:induction false} DecodeDirectories(segments: seq<Bytes>, rest: seq<string>)
    ensures DecodeSegments(LowerAll(DirectoryParts(segments)) + rest) == AddDirectories(segments, DecodeSegments(rest))
  {
    hide DecodeSegments, SegmentParts;
    if segments == [] {
      assert LowerAll(DirectoryParts(segments)) + rest == rest;
      AddNone(DecodeSegments(rest));
    } else {
      var init, last := segments[..|segments| - 1], segments[|segments| - 1];
      var more := LowerAll(SegmentParts(last, true)) + rest;
      DirectoryShape(segments, rest);
      assert DecodeSegments(more) == AddDirectory(last, DecodeSegments(rest)) by {
        DecodeDirectory(last, rest);
      }
      DecodeDirectories(init, more);
      AddLast(init, last, DecodeSegments(rest));
      assert init + [last] == segments;
    }
  }

  lemma {:induction false} DecodeLayout(directories: seq<Bytes>, tag: Bytes, rest: seq<string>)
    ensures DecodeSegments(LowerAll(DirectoryParts(directories) + SegmentParts(tag, false)) + rest)
      == Some(Decoded(directories, tag, rest))
  {
    hide DecodeSegments, DirectoryParts, SegmentParts, LowerAll;
    var file := LowerAll(SegmentParts(tag, false));
    LowerAllConcat(DirectoryParts(directories), SegmentParts(tag, false));
    assert LowerAll(DirectoryParts(directories) + SegmentParts(tag, false)) + rest ==
      LowerAll(DirectoryParts(directories)) + (file + rest);
    DecodeDirectories(directories, file + rest);
    DecodeFile(tag, rest);
    assert directories + [] == directories;
  }
}
