/** `parse_header` of src/harmony.rs. */
module HarmonyHeader {
  import opened Wrappers
  import opened Text

  datatype Header = Header(role: string, channel: string, recipient: string)

  const CHANNEL := "<|channel|>"
  const CONSTRAIN := "<|constrain|>"

  predicate Whitespace(c: char) {
    WhiteSpace(c as int)
  }

  /** The length of the longest prefix without whitespace. */
  function WordLength(s: string): (n: nat)
    ensures n <= |s|
    ensures forall i | 0 <= i < n :: !Whitespace(s[i])
    ensures n < |s| ==> Whitespace(s[n])
  {
    if s == "" || Whitespace(s[0]) then 0 else 1 + WordLength(s[1..])
  }

  function TrimStart(s: string): string {
    if s != "" && Whitespace(s[0]) then TrimStart(s[1..]) else s
  }

  function TrimEnd(s: string): string {
    if s != "" && Whitespace(s[|s| - 1]) then TrimEnd(s[..|s| - 1]) else s
  }

  function Trim(s: string): string {
    TrimEnd(TrimStart(s))
  }

  /** The words of s, in order. */
  function Words(s: string): seq<string> {
    if s == "" then []
    else if Whitespace(s[0]) then Words(s[1..])
    else
      var n := WordLength(s);
      [s[..n]] + Words(s[n..])
  }

  /** A `<|constrain|>` stuck to the word before it becomes a word of its own. */
  function SpaceConstrain(raw: string): string {
    match Find(raw, CONSTRAIN)
    case Some(i) => Trim(raw[..i] + " " + raw[i..])
    case None => raw
  }

  /** The channel tag's word, and the header without tag and word. */
  function TakeChannel(raw: string): (string, string) {
    match Find(raw, CHANNEL)
    case Some(i) =>
      var after := raw[i + |CHANNEL|..];
      var n := WordLength(after);
      (after[..n], Trim(raw[..i] + after[n..]))
    case None => ("", raw)
  }

  predicate ToWord(w: string) {
    "to=" <= w
  }

  /** Role and recipient are the leading words. */
  function FromWords(words: seq<string>, channel: string): Header {
    if words == [] then Header("", channel, "")
    else
      var recipient := if ToWord(words[0]) then words[0][3..] else "";
      Header(
        if ToWord(words[0]) then "tool" else words[0],
        channel,
        if recipient == "" && |words| > 1 && ToWord(words[1]) then words[1][3..] else recipient)
  }

  function HeaderOf(raw: string): Header {
    var (channel, rest) := TakeChannel(SpaceConstrain(raw));
    FromWords(Words(rest), channel)
  }

  /** `parse_header`. */
  method ParseHeader(original: string) returns (header: Header)
    ensures header == HeaderOf(original)
  {
    hide Words, Trim, WordLength, Find;
    var raw := original;
    header := Header("", "", "");
    match Find(raw, CONSTRAIN) {
      case Some(i) =>
        raw := raw[..i] + " " + raw[i..];
        raw := Trim(raw);
      case None =>
    }
    match Find(raw, CHANNEL) {
      case Some(i) =>
        var before, after := raw[..i], raw[i + |CHANNEL|..];
        var splitAt := WordLength(after);
        header := header.(channel := after[..splitAt]);
        after := after[splitAt..];
        raw := before + after;
        raw := Trim(raw);
      case None =>
    }
    var tokens := Words(raw);
    if tokens == [] {
      return;
    }
    var role, rest := tokens[0], tokens[1..];
    if "to=" <= role {
      header := header.(recipient := role[3..], role := "tool");
    } else {
      header := header.(role := role);
    }
    if header.recipient == "" && rest != [] && "to=" <= rest[0] {
      header := header.(recipient := rest[0][3..]);
    }
  }
}
