/** The message handler of src/harmony.rs: which bucket emitted text goes to,
    and why that, too, does not depend on how the stream was cut. */
module HarmonyRoute {
  import opened Wrappers
  import opened HarmonyHeader
  import opened Harmony
  import opened HarmonyChunks

  datatype Mode = Normal | Thinking | ToolCalling

  /** Where body text goes, and the tool of the last tool call seen. */
  datatype Router = Router(mode: Mode, toolName: Option<string>)

  datatype Output = Output(content: string, thinking: string, tool: string)

  const NOTHING := Output("", "", "")

  function Both(a: Output, b: Output): Output {
    Output(a.content + b.content, a.thinking + b.thinking, a.tool + b.tool)
  }

  function Turn(r: Router, h: Header): Router {
    if h.channel == "analysis" || h.channel == "commentary" then
      if h.recipient != "" then Router(ToolCalling, Some(h.recipient))
      else r.(mode := if h.channel == "analysis" then Thinking else Normal)
    else if h.channel == "final" then r.(mode := Normal)
    else r
  }

  function Bucket(mode: Mode, text: string): Output {
    match mode
    case Normal => Output(text, "", "")
    case Thinking => Output("", text, "")
    case ToolCalling => Output("", "", text)
  }

  function RouteEvent(r: Router, e: Event): (Router, Output) {
    match e
    case HeaderComplete(header) => (Turn(r, header), NOTHING)
    case ContentEmitted(text) => (r, Bucket(r.mode, text))
    case MessageEnd => (r.(mode := Normal), NOTHING)
    case MessageStart => (r, NOTHING)
  }

  function RouteEvents(r: Router, events: seq<Event>): (Router, Output) {
    if events == [] then (r, NOTHING)
    else
      var n := |events| - 1;
      var (q, before) := RouteEvents(r, events[..n]);
      var (s, last) := RouteEvent(q, events[n]);
      (s, Both(before, last))
  }

  function RouteAtom(r: Router, a: Atom): (Router, Output) {
    match a
    case Head(header) => (Turn(r, header), NOTHING)
    case Char(c) => (r, Bucket(r.mode, [c]))
    case End => (r.(mode := Normal), NOTHING)
    case Start => (r, NOTHING)
  }

  function RouteAtoms(r: Router, atoms: seq<Atom>): (Router, Output)
    decreases |atoms|
  {
    if atoms == [] then (r, NOTHING)
    else
      var (q, first) := RouteAtom(r, atoms[0]);
      var (s, rest) := RouteAtoms(q, atoms[1..]);
      (s, Both(first, rest))
  }

  lemma BothAssociative(a: Output, b: Output, c: Output)
    ensures Both(Both(a, b), c) == Both(a, Both(b, c))
    ensures Both(NOTHING, a) == a == Both(a, NOTHING)
  {
  }

  lemma {:induction false} RouteConcat(r: Router, a: seq<Atom>, b: seq<Atom>)
    ensures var (q, first) := RouteAtoms(r, a);
      var (s, second) := RouteAtoms(q, b);
      RouteAtoms(r, a + b) == (s, Both(first, second))
    decreases |a|
  {
    hide RouteAtom, Both;
    if a == [] {
      assert a + b == b;
      BothAssociative(RouteAtoms(r, b).1, NOTHING, NOTHING);
    } else {
      var (q, first) := RouteAtom(r, a[0]);
      RouteConcat(q, a[1..], b);
      assert (a + b)[1..] == a[1..] + b;
      var (s, middle) := RouteAtoms(q, a[1..]);
      BothAssociative(first, middle, RouteAtoms(s, b).1);
    }
  }

  lemma {:induction false} RouteChars(r: Router, text: string)
    ensures RouteAtoms(r, CharAtoms(text)) == (r, Bucket(r.mode, text))
  {
    if text == "" {
      assert CharAtoms("") == [] && Bucket(r.mode, "") == NOTHING;
    }
    if text != "" {
      hide CharAtoms, Bucket;
      RouteChars(r, text[1..]);
      CharsFirst(text);
      BucketJoins(r.mode, text);
    }
  }

  lemma CharsFirst(text: string)
    requires text != ""
    ensures CharAtoms(text) != [] && CharAtoms(text)[0] == Char(text[0]) && CharAtoms(text)[1..] == CharAtoms(text[1..])
  {
  }

  lemma BucketJoins(mode: Mode, text: string)
    requires text != ""
    ensures Both(Bucket(mode, [text[0]]), Bucket(mode, text[1..])) == Bucket(mode, text)
  {
  }

  lemma RouteOne(r: Router, e: Event)
    ensures RouteAtoms(r, AtomsOf(e)) == RouteEvent(r, e)
  {
    match e
    case ContentEmitted(text) => RouteChars(r, text);
    case _ =>
      assert AtomsOf(e)[1..] == [];
  }

  /** Routing whole pieces of text or single characters comes to the same. */
  lemma {:induction false} RouteByAtoms(r: Router, events: seq<Event>)
    ensures RouteEvents(r, events) == RouteAtoms(r, Atoms(events))
  {
    if events == [] {
    } else {
      hide RouteEvent, AtomsOf, Both;
      var n := |events| - 1;
      var init, last := events[..n], events[n];
      RouteByAtoms(r, init);
      assert init + [last] == events;
      AtomsConcat(init, [last]);
      AtomsFirst(last, []);
      assert [last] + [] == [last] && AtomsOf(last) + Atoms([]) == AtomsOf(last);
      RouteConcat(r, Atoms(init), AtomsOf(last));
      RouteOne(RouteEvents(r, init).0, last);
    }
  }

  // ----- the handler -----

  /** The handler's whole state: its parser, its router and the arguments of
      the tool call being collected. */
  datatype Handler = Handler(parser: Parser, router: Router, toolText: string)

  function Handle(tags: Tags, h: Handler, text: string): (Handler, Output)
    requires Usable(tags)
  {
    var (events, p) := Feed(tags, h.parser, text);
    var (r, out) := RouteEvents(h.router, events);
    (Handler(p, r, h.toolText + out.tool), out)
  }

  function HandleAll(tags: Tags, h: Handler, chunks: seq<string>): (Handler, Output)
    requires Usable(tags)
    decreases |chunks|
  {
    if chunks == [] then (h, NOTHING)
    else
      var (g, first) := Handle(tags, h, chunks[0]);
      var (f, rest) := HandleAll(tags, g, chunks[1..]);
      (f, Both(first, rest))
  }

  lemma HandleCut(tags: Tags, h: Handler, a: string, b: string)
    requires Usable(tags)
    ensures var (g, first) := Handle(tags, h, a);
      var (f, second) := Handle(tags, g, b);
      Handle(tags, h, a + b) == (f, Both(first, second))
  {
    hide Feed, Atoms, Usable, RouteEvents, RouteAtoms;
    var (firstEvents, q) := Feed(tags, h.parser, a);
    var (secondEvents, _) := Feed(tags, q, b);
    var (wholeEvents, _) := Feed(tags, h.parser, a + b);
    FeedCut(tags, h.parser, a, b);
    RouteByAtoms(h.router, firstEvents);
    var r := RouteEvents(h.router, firstEvents).0;
    RouteByAtoms(r, secondEvents);
    RouteByAtoms(h.router, wholeEvents);
    RouteConcat(h.router, Atoms(firstEvents), Atoms(secondEvents));
    Associative(h.toolText, RouteEvents(h.router, firstEvents).1.tool, RouteEvents(r, secondEvents).1.tool);
  }

  /** However a text is cut into chunks, the handler's three outputs, joined,
      are those of one call with the whole text, and so is everything it keeps:
      parser, router and tool call. */
  lemma {:induction false} HandleAllCut(tags: Tags, h: Handler, chunks: seq<string>)
    requires Usable(tags) && chunks != []
    ensures HandleAll(tags, h, chunks) == Handle(tags, h, Concat(chunks))
    decreases |chunks|
  {
    hide Handle, Usable, Both;
    var rest := chunks[1..];
    var (g, first) := Handle(tags, h, chunks[0]);
    if rest == [] {
      assert chunks[0] + "" == chunks[0];
      BothAssociative(first, NOTHING, NOTHING);
    } else {
      HandleAllCut(tags, g, rest);
      HandleCut(tags, h, chunks[0], Concat(rest));
    }
  }
}
