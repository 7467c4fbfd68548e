/** Parsing undoes rendering: a stream of whole messages comes out of the
    parser, and of the handler, as exactly those messages. */
module HarmonyRender {
  import opened Wrappers
  import opened Text
  import opened HarmonyHeader
  import opened Harmony
  import opened HarmonyChunks
  import opened HarmonyRoute

  /** A message and the text in front of it, which the parser ignores. */
  datatype Message = Message(before: string, header: string, body: string)

  function RenderOne(tags: Tags, m: Message): string {
    m.before + tags.start + m.header + tags.headerEnd + m.body + tags.end
  }

  function Render(tags: Tags, messages: seq<Message>): string {
    if messages == [] then "" else RenderOne(tags, messages[0]) + Render(tags, messages[1..])
  }

  /** No proper beginning of t is also an end of t. */
  predicate BorderFree(t: string) {
    t != "" && forall k | 0 < k < |t| :: !HasSuffix(t, t[..k])
  }

  predicate Plain(tags: Tags) {
    BorderFree(tags.start) && BorderFree(tags.headerEnd) && BorderFree(tags.end)
  }

  /** Each part of a message avoids the tag that closes it. */
  ghost predicate Avoids(tags: Tags, m: Message) {
    !Contains(m.before, tags.start) && !Contains(m.header, tags.headerEnd) && !Contains(m.body, tags.end)
  }

  function EventsOf(m: Message): seq<Event> {
    [MessageStart, HeaderComplete(HeaderOf(m.header))] + Content(m.body) + [MessageEnd]
  }

  function AllEvents(messages: seq<Message>): seq<Event> {
    if messages == [] then [] else EventsOf(messages[0]) + AllEvents(messages[1..])
  }

  lemma OnlyFirst(t: string)
    requires t != "" && forall i | 0 < i < |t| :: t[i] != t[0]
    ensures BorderFree(t)
  {
    forall k | 0 < k < |t| ensures !HasSuffix(t, t[..k]) {
      NoSuffix(t, t[..k], 0);
    }
  }

  lemma GptOssIsPlain()
    ensures Plain(GPT_OSS) && Usable(GPT_OSS)
  {
    OnlyFirst("<|start|>");
    OnlyFirst("<|end|>");
    OnlyFirst("<|message|>");
  }

  /** A tag that overlaps no copy of itself is found right where it was put. */
  lemma TagFound(x: string, t: string, rest: string)
    requires !Contains(x, t) && BorderFree(t)
    ensures Find(x + t + rest, t) == Some(|x|)
  {
    var s := x + t + rest;
    assert s[|x|..|x| + |t|] == t;
    forall k: nat | k < |x| ensures !OccursAt(s, t, k) {
      if k + |t| <= |x| {
        assert s == x + (t + rest);
        OccursBefore(x, t + rest, t, k);
      } else if OccursAt(s, t, k) {
        Straddles(x, t, rest, k);
      }
    }
    FindIs(s, t, |x|);
  }

  lemma Straddles(x: string, t: string, rest: string, k: nat)
    requires k < |x| < k + |t| && OccursAt(x + t + rest, t, k)
    ensures HasSuffix(t, t[..k + |t| - |x|])
  {
  }

  lemma StepTo(tags: Tags, state: ParserState, x: string, rest: string)
    requires Usable(tags) && !Contains(x, TagOf(tags, state)) && BorderFree(TagOf(tags, state))
    ensures var (events, q) := Run(tags, Parser(After(state), rest));
      Run(tags, Parser(state, x + TagOf(tags, state) + rest)) == (Harmony.Found(state, x) + events, q)
  {
    hide Run, Usable, BorderFree, Harmony.Found;
    var t := TagOf(tags, state);
    var p := Parser(state, x + t + rest);
    TagFound(x, t, rest);
    assert p.acc[..|x|] == x && p.acc[|x| + |t|..] == rest;
    RunTag(tags, p, |x|);
  }

  lemma RunOne(tags: Tags, m: Message, rest: string)
    requires Usable(tags) && Plain(tags) && Avoids(tags, m)
    ensures var (events, q) := Run(tags, Parser(LookingForMessageStart, rest));
      Run(tags, Parser(LookingForMessageStart, RenderOne(tags, m) + rest)) == (EventsOf(m) + events, q)
  {
    hide Run, Usable, Contains, BorderFree, HeaderOf;
    var afterBody := rest;
    var afterHeader := m.body + tags.end + rest;
    var afterStart := m.header + tags.headerEnd + afterHeader;
    StepTo(tags, ParsingContent, m.body, rest);
    StepTo(tags, ParsingHeader, m.header, afterHeader);
    StepTo(tags, LookingForMessageStart, m.before, afterStart);
    assert RenderOne(tags, m) + rest == m.before + tags.start + afterStart;
    var events := Run(tags, Parser(LookingForMessageStart, rest)).0;
    assert [MessageStart] + ([HeaderComplete(HeaderOf(m.header))] + (Content(m.body) + [MessageEnd] + events)) ==
      EventsOf(m) + events;
  }

  /** Whole messages come out as their starts, parsed headers, bodies and ends,
      and the parser goes on with what follows them. */
  lemma {:induction false} RunRendered(tags: Tags, messages: seq<Message>, rest: string)
    requires Usable(tags) && Plain(tags) && forall m | m in messages :: Avoids(tags, m)
    ensures var (events, q) := Run(tags, Parser(LookingForMessageStart, rest));
      Run(tags, Parser(LookingForMessageStart, Render(tags, messages) + rest)) == (AllEvents(messages) + events, q)
  {
    hide Run, Usable, Plain, EventsOf, Avoids, RenderOne;
    if messages == [] {
      assert "" + rest == rest;
      var events := Run(tags, Parser(LookingForMessageStart, rest)).0;
      assert [] + events == events;
    } else {
      var m, more := messages[0], messages[1..];
      RunRendered(tags, more, rest);
      RunOne(tags, m, Render(tags, more) + rest);
      Associative(RenderOne(tags, m), Render(tags, more), rest);
      Associative(EventsOf(m), AllEvents(more), Run(tags, Parser(LookingForMessageStart, rest)).0);
    }
  }

  lemma NothingLeft(tags: Tags)
    requires Usable(tags) && Plain(tags)
    ensures Run(tags, Parser(LookingForMessageStart, "")) == ([], Parser(LookingForMessageStart, ""))
  {
  }

  /** Parsing undoes rendering, in one call. */
  lemma ParseRendered(tags: Tags, messages: seq<Message>)
    requires Usable(tags) && Plain(tags) && forall m | m in messages :: Avoids(tags, m)
    ensures Feed(tags, Parser(LookingForMessageStart, ""), Render(tags, messages))
      == (AllEvents(messages), Parser(LookingForMessageStart, ""))
  {
    hide Run, Usable, Plain, AllEvents, Render;
    var text := Render(tags, messages);
    RunRendered(tags, messages, "");
    NothingLeft(tags);
    assert "" + text == text && text + "" == text;
    assert AllEvents(messages) + [] == AllEvents(messages);
  }

  // ----- what the handler delivers -----

  /** Every body, in the bucket its own header asks for. */
  function Delivered(r: Router, messages: seq<Message>): (Router, Output)
    decreases |messages|
  {
    if messages == [] then (r, NOTHING)
    else
      var turned := Turn(r, HeaderOf(messages[0].header));
      var (s, more) := Delivered(turned.(mode := Normal), messages[1..]);
      (s, Both(Bucket(turned.mode, messages[0].body), more))
  }

  lemma RouteMessage(r: Router, m: Message)
    ensures var turned := Turn(r, HeaderOf(m.header));
      RouteAtoms(r, Atoms(EventsOf(m))) == (turned.(mode := Normal), Bucket(turned.mode, m.body))
  {
    hide Turn, HeaderOf, Bucket, Both, CharAtoms;
    var header := HeaderOf(m.header);
    var turned := Turn(r, header);
    var out := Bucket(turned.mode, m.body);
    AtomsConcat([MessageStart, HeaderComplete(header)], Content(m.body) + [MessageEnd]);
    assert EventsOf(m) == [MessageStart, HeaderComplete(header)] + (Content(m.body) + [MessageEnd]);
    AtomsEnd(m.body);
    HeadAtoms(header);
    RouteConcat(r, [Start, Head(header)], CharAtoms(m.body) + [End]);
    RouteConcat(turned, CharAtoms(m.body), [End]);
    RouteChars(turned, m.body);
    RouteHead(r, header);
    RouteSingle(turned, End);
    BothAssociative(out, NOTHING, NOTHING);
  }

  lemma HeadAtoms(header: Header)
    ensures Atoms([MessageStart, HeaderComplete(header)]) == [Start, Head(header)]
  {
    var a, b := MessageStart, HeaderComplete(header);
    assert [a, b] == [a] + [b];
    AtomsConcat([a], [b]);
    AtomsSingle(a);
    AtomsSingle(b);
  }

  lemma RouteSingle(r: Router, a: Atom)
    ensures RouteAtoms(r, [a]) == RouteAtom(r, a)
  {
    hide RouteAtom, Both;
    assert [a][1..] == [];
    BothAssociative(RouteAtom(r, a).1, NOTHING, NOTHING);
  }

  lemma RouteHead(r: Router, header: Header)
    ensures RouteAtoms(r, [Start, Head(header)]) == (Turn(r, header), NOTHING)
  {
    hide Turn, RouteAtoms;
    assert [Start, Head(header)] == [Start] + [Head(header)];
    RouteConcat(r, [Start], [Head(header)]);
    RouteSingle(r, Start);
    RouteSingle(r, Head(header));
  }

  lemma {:induction false} RouteMessages(r: Router, messages: seq<Message>)
    ensures RouteAtoms(r, Atoms(AllEvents(messages))) == Delivered(r, messages)
    decreases |messages|
  {
    hide EventsOf, Turn, Bucket, Both, HeaderOf;
    if messages == [] {
    } else {
      var turned := Turn(r, HeaderOf(messages[0].header));
      RouteMessage(r, messages[0]);
      RouteMessages(turned.(mode := Normal), messages[1..]);
      AtomsConcat(EventsOf(messages[0]), AllEvents(messages[1..]));
      RouteConcat(r, Atoms(EventsOf(messages[0])), Atoms(AllEvents(messages[1..])));
    }
  }

  /** Rendered messages, streamed in any chunks, reach their own buckets whole,
      and the parser waits for the next message with nothing held back. */
  lemma StreamedMessages(tags: Tags, r: Router, toolText: string, messages: seq<Message>, chunks: seq<string>)
    requires Usable(tags) && Plain(tags) && forall m | m in messages :: Avoids(tags, m)
    requires chunks != [] && Concat(chunks) == Render(tags, messages)
    ensures var h := Handler(Parser(LookingForMessageStart, ""), r, toolText);
      var (s, out) := Delivered(r, messages);
      HandleAll(tags, h, chunks) == (Handler(Parser(LookingForMessageStart, ""), s, toolText + out.tool), out)
  {
    hide Plain, Usable, Feed, Render, AllEvents, RouteEvents, RouteAtoms, Atoms, Avoids;
    HandleAllCut(tags, Handler(Parser(LookingForMessageStart, ""), r, toolText), chunks);
    ParseRendered(tags, messages);
    RouteByAtoms(r, AllEvents(messages));
    RouteMessages(r, messages);
  }
}
