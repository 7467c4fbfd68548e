/** The streaming parser of src/harmony.rs as a function on its state: what one
    call of `add_content` emits and what it keeps. */
module Harmony {
  import opened Wrappers
  import opened Text
  import opened HarmonyHeader

  datatype ParserState = LookingForMessageStart | ParsingHeader | ParsingContent

  datatype Event = MessageStart | HeaderComplete(header: Header) | ContentEmitted(text: string) | MessageEnd

  datatype Tags = Tags(start: string, end: string, headerEnd: string)

  const GPT_OSS := Tags("<|start|>", "<|end|>", "<|message|>")

  /** The parser's state: where it is, and the text it has not used yet. */
  datatype Parser = Parser(state: ParserState, acc: string)

  function TagOf(tags: Tags, state: ParserState): string {
    match state
    case LookingForMessageStart => tags.start
    case ParsingHeader => tags.headerEnd
    case ParsingContent => tags.end
  }

  function After(state: ParserState): ParserState {
    match state
    case LookingForMessageStart => ParsingHeader
    case ParsingHeader => ParsingContent
    case ParsingContent => LookingForMessageStart
  }

  /** With three empty tags the parser would run forever. */
  predicate Usable(tags: Tags) {
    tags.start != "" || tags.headerEnd != "" || tags.end != ""
  }

  /** How many empty tags are matched before one that consumes text. */
  function Idle(tags: Tags, state: ParserState): nat {
    if TagOf(tags, state) != "" then 0
    else if TagOf(tags, After(state)) != "" then 1
    else 2
  }

  /** The longest k at most n such that s ends with the first k characters of
      delim. */
  function OverlapUpTo(s: string, delim: string, n: nat): (k: nat)
    requires n <= |delim|
    ensures k <= n && HasSuffix(s, delim[..k])
    ensures forall j | k < j <= n :: !HasSuffix(s, delim[..j])
  {
    if n == 0 then
      assert s[|s|..] == delim[..0];
      0
    else if HasSuffix(s, delim[..n]) then n
    else OverlapUpTo(s, delim, n - 1)
  }

  function Overlap(s: string, delim: string): nat {
    OverlapUpTo(s, delim, if |delim| < |s| then |delim| else |s|)
  }

  function Content(text: string): seq<Event> {
    if text == "" then [] else [ContentEmitted(text)]
  }

  /** What is emitted when the awaited tag is found after `before`. */
  function Found(state: ParserState, before: string): seq<Event> {
    match state
    case LookingForMessageStart => [MessageStart]
    case ParsingHeader => [HeaderComplete(HeaderOf(before))]
    case ParsingContent => Content(before) + [MessageEnd]
  }

  /** When the awaited tag is not there yet, a body is passed on except for an
      end that could be the beginning of the tag. */
  function Waiting(tags: Tags, p: Parser): (seq<Event>, Parser) {
    if p.state != ParsingContent then ([], p)
    else
      var split := |p.acc| - Overlap(p.acc, tags.end);
      (Content(p.acc[..split]), p.(acc := p.acc[split..]))
  }

  /** The state once the awaited tag was matched at pos. */
  function Rest(tags: Tags, p: Parser, pos: nat): Parser
    requires pos + |TagOf(tags, p.state)| <= |p.acc|
  {
    Parser(After(p.state), p.acc[pos + |TagOf(tags, p.state)|..])
  }

  lemma Progress(tags: Tags, p: Parser, pos: nat)
    requires Usable(tags) && FirstAt(p.acc, TagOf(tags, p.state), pos)
    ensures var q := Rest(tags, p, pos);
      |q.acc| < |p.acc| || (|q.acc| == |p.acc| && Idle(tags, q.state) < Idle(tags, p.state))
  {
  }

  /** The loop of `add_content`: match tags until the next one is missing. */
  function Run(tags: Tags, p: Parser): (seq<Event>, Parser)
    requires Usable(tags)
    decreases |p.acc|, Idle(tags, p.state)
  {
    match Find(p.acc, TagOf(tags, p.state))
    case None => Waiting(tags, p)
    case Some(pos) =>
      Progress(tags, p, pos);
      var (events, q) := Run(tags, Rest(tags, p, pos));
      (Found(p.state, p.acc[..pos]) + events, q)
  }

  function Feed(tags: Tags, p: Parser, text: string): (seq<Event>, Parser)
    requires Usable(tags)
  {
    Run(tags, p.(acc := p.acc + text))
  }

  function FeedAll(tags: Tags, p: Parser, chunks: seq<string>): (seq<Event>, Parser)
    requires Usable(tags)
    decreases |chunks|
  {
    if chunks == [] then ([], p)
    else
      var (first, q) := Feed(tags, p, chunks[0]);
      var (rest, r) := FeedAll(tags, q, chunks[1..]);
      (first + rest, r)
  }

  function Concat(chunks: seq<string>): string {
    if chunks == [] then "" else chunks[0] + Concat(chunks[1..])
  }

  // ----- emitted text, character by character -----

  datatype Atom = Start | Head(header: Header) | Char(c: char) | End

  function CharAtoms(text: string): seq<Atom> {
    seq(|text|, i requires 0 <= i < |text| => Char(text[i]))
  }

  function AtomsOf(e: Event): seq<Atom> {
    match e
    case MessageStart => [Start]
    case HeaderComplete(header) => [Head(header)]
    case ContentEmitted(text) => CharAtoms(text)
    case MessageEnd => [End]
  }

  /** What the events say once it no longer shows how body text was cut. */
  function Atoms(events: seq<Event>): seq<Atom> {
    if events == [] then [] else AtomsOf(events[0]) + Atoms(events[1..])
  }
}
