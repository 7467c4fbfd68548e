/** The objects of src/harmony.rs, which update their fields in place, tied to
    the functions the theorems are about. */
module HarmonyMachine {
  import opened Wrappers
  import opened Text
  import opened HarmonyHeader
  import opened Harmony
  import opened HarmonyChunks
  import opened HarmonyRoute

  /** `overlap`: tries the longest candidate first. */
  method FindOverlap(s: string, delim: string) returns (n: nat)
    ensures n == Overlap(s, delim)
    ensures n <= |delim| && n <= |s| && HasSuffix(s, delim[..n])
    ensures forall j | n < j <= |delim| :: !HasSuffix(s, delim[..j])
  {
    var max := if |delim| < |s| then |delim| else |s|;
    for i := max + 1 downto 1
      invariant forall j | i <= j <= max :: !HasSuffix(s, delim[..j])
    {
      if HasSuffix(s, delim[..i]) {
        OverlapIs(s, delim, i);
        return i;
      }
    }
    OverlapContract(s, delim);
    return 0;
  }

  class HarmonyParser {
    const tags: Tags
    var state: ParserState
    var acc: string

    function View(): Parser
      reads this
    {
      Parser(state, acc)
    }

    constructor (tags: Tags)
      ensures this.tags == tags && View() == Parser(LookingForMessageStart, "")
    {
      this.tags := tags;
      state := LookingForMessageStart;
      acc := "";
    }

    /** The start tag and the role are held as though they had just arrived: any
        text that is fed next is parsed as after them. */
    method AddImplicitStart()
      modifies this
      ensures View() == old(View()).(acc := old(acc) + tags.start + "assistant")
      ensures forall text: string | Usable(tags) ::
        var (received, q) := Feed(tags, old(View()), tags.start + "assistant");
        Feed(tags, View(), text).1 == Feed(tags, q, text).1 &&
        Atoms(Feed(tags, View(), text).0) == Atoms(received) + Atoms(Feed(tags, q, text).0)
    {
      hide Feed, Atoms, Usable;
      var held := tags.start + "assistant";
      ghost var before := View();
      acc := acc + held;
      assert acc == before.acc + tags.start + "assistant";
      forall text: string | Usable(tags) ensures
        var (received, q) := Feed(tags, before, held);
        Feed(tags, View(), text).1 == Feed(tags, q, text).1 &&
        Atoms(Feed(tags, View(), text).0) == Atoms(received) + Atoms(Feed(tags, q, text).0)
      {
        HeldCountsAsFed(tags, before, held, text);
      }
    }

    /** One step of the loop: matches the awaited tag, or passes on what body
        text it can and asks to stop. */
    method Eat() returns (events: seq<Event>, keepLooping: bool)
      modifies this
      ensures var p := old(View());
        match Find(p.acc, TagOf(tags, p.state))
        case Some(pos) => keepLooping && events == Found(p.state, p.acc[..pos]) && View() == Rest(tags, p, pos)
        case None => !keepLooping && (events, View()) == Waiting(tags, p)
    {
      hide Find, HeaderOf, Overlap, HasSuffix, Contains;
      match state {
        case LookingForMessageStart =>
          match Find(acc, tags.start) {
            case Some(pos) =>
              acc := acc[pos + |tags.start|..];
              state := ParsingHeader;
              return [MessageStart], true;
            case None =>
              return [], false;
          }
        case ParsingHeader =>
          match Find(acc, tags.headerEnd) {
            case Some(pos) =>
              var header := ParseHeader(acc[..pos]);
              acc := acc[pos + |tags.headerEnd|..];
              state := ParsingContent;
              return [HeaderComplete(header)], true;
            case None =>
              return [], false;
          }
        case ParsingContent =>
          match Find(acc, tags.end) {
            case Some(pos) =>
              var content := acc[..pos];
              acc := acc[pos + |tags.end|..];
              state := LookingForMessageStart;
              events := [];
              if content != "" {
                events := [ContentEmitted(content)];
              }
              events := events + [MessageEnd];
              return events, true;
            case None =>
              var overlapLength := FindOverlap(acc, tags.end);
              if overlapLength > 0 {
                var split := |acc| - overlapLength;
                var content := acc[..split];
                acc := acc[split..];
                return if content == "" then [] else [ContentEmitted(content)], false;
              } else if acc == "" {
                return [], false;
              } else {
                var content := acc;
                acc := "";
                assert content[..|content|] == content && content[|content|..] == "";
                return [ContentEmitted(content)], false;
              }
          }
      }
    }

    /** Adds text and runs until no awaited tag is left. */
    method AddContent(content: string) returns (events: seq<Event>)
      requires Usable(tags)
      modifies this
      ensures (events, View()) == Feed(tags, old(View()), content)
      ensures state == ParsingContent ==> |acc| < |tags.end|
    {
      hide Find, Found, Waiting, Usable, TagOf;
      acc := acc + content;
      ghost var start := View();
      events := [];
      var keepLooping := true;
      HeldIsShort(tags, start);
      assert [] + Run(tags, start).0 == Run(tags, start).0;
      while keepLooping
        invariant keepLooping ==> (events + Run(tags, View()).0, Run(tags, View()).1) == Run(tags, start)
        invariant !keepLooping ==> (events, View()) == Run(tags, start)
        decreases keepLooping, |acc|, Idle(tags, state)
      {
        ghost var before, p := events, View();
        var newEvents;
        newEvents, keepLooping := Eat();
        RunStep(tags, p);
        events := events + newEvents;
        match Find(p.acc, TagOf(tags, p.state)) {
          case Some(pos) =>
            Progress(tags, p, pos);
            Associative(before, newEvents, Run(tags, Rest(tags, p, pos)).0);
          case None =>
        }
      }
    }
  }

  lemma RouteNext(r: Router, events: seq<Event>, i: nat)
    requires i < |events|
    ensures var (q, before) := RouteEvents(r, events[..i]);
      var (s, next) := RouteEvent(q, events[i]);
      RouteEvents(r, events[..i + 1]) == (s, Both(before, next))
  {
    assert events[..i + 1][..i] == events[..i];
  }

  lemma BucketAdds(out: Output, mode: Mode, text: string)
    ensures Both(out, Bucket(mode, text)) ==
      match mode
      case Normal => out.(content := out.content + text)
      case Thinking => out.(thinking := out.thinking + text)
      case ToolCalling => out.(tool := out.tool + text)
  {
  }

  /** Running is one step, then running on. */
  lemma RunStep(tags: Tags, p: Parser)
    requires Usable(tags)
    ensures match Find(p.acc, TagOf(tags, p.state))
      case Some(pos) =>
        var (events, q) := Run(tags, Rest(tags, p, pos));
        Run(tags, p) == (Found(p.state, p.acc[..pos]) + events, q)
      case None => Run(tags, p) == Waiting(tags, p)
  {
  }

  class ToolCallAccumulator {
    var acc: string
    var toolName: Option<string>

    constructor ()
      ensures acc == "" && toolName == None
    {
      acc := "";
      toolName := None;
    }

    method SetToolName(name: string)
      modifies this`toolName
      ensures toolName == Some(name)
    {
      toolName := Some(name);
    }

    method Add(content: string)
      modifies this
      ensures acc == old(acc) + content && toolName == old(toolName)
    {
      acc := acc + content;
    }

    method Drain() returns (name: Option<string>, raw: string)
      modifies this
      ensures name == old(toolName) && raw == old(acc) && toolName == None && acc == ""
    {
      name, raw := toolName, acc;
      toolName, acc := None, "";
    }
  }

  const FUNCTIONS := "functions."

  /** The name of a tool is its recipient's, without the namespace of user
      defined ones. */
  predicate BareName(recipient: string, name: string) {
    if FUNCTIONS <= recipient then recipient == FUNCTIONS + name else recipient == name
  }

  lemma Stripped(recipient: string)
    ensures BareName(recipient, if FUNCTIONS <= recipient then recipient[10..] else recipient)
  {
  }

  class HarmonyMessageHandler {
    var state: Mode
    const parser: HarmonyParser
    const toolCalls: ToolCallAccumulator

    function View(): Handler
      reads this, parser, toolCalls
    {
      Handler(parser.View(), Router(state, toolCalls.toolName), toolCalls.acc)
    }

    constructor ()
      ensures fresh(parser) && fresh(toolCalls) && parser.tags == GPT_OSS
      ensures View() == Handler(Parser(LookingForMessageStart, ""), Router(Normal, None), "")
    {
      state := Normal;
      parser := new HarmonyParser(GPT_OSS);
      toolCalls := new ToolCallAccumulator();
    }

    /** A header decides where the body that follows it goes. */
    method TurnTo(header: Header)
      modifies this`state, toolCalls`toolName
      ensures Router(state, toolCalls.toolName) == Turn(Router(old(state), old(toolCalls.toolName)), header)
    {
      if header.channel == "analysis" {
        if header.recipient != "" {
          state := ToolCalling;
          toolCalls.SetToolName(header.recipient);
        } else {
          state := Thinking;
        }
      } else if header.channel == "commentary" {
        if header.recipient != "" {
          state := ToolCalling;
          toolCalls.SetToolName(header.recipient);
        } else {
          state := Normal;
        }
      } else if header.channel == "final" {
        state := Normal;
      }
    }

    /** Sorts one event: turns the router, or adds body text to its bucket. */
    method SortEvent(event: Event, before: Output) returns (out: Output)
      modifies this`state, toolCalls`toolName
      ensures var (r, more) := RouteEvent(Router(old(state), old(toolCalls.toolName)), event);
        Router(state, toolCalls.toolName) == r && out == Both(before, more)
    {
      hide Turn, Both;
      BothAssociative(before, NOTHING, NOTHING);
      out := before;
      match event {
        case HeaderComplete(header) => TurnTo(header);
        case ContentEmitted(text) =>
          BucketAdds(before, state, text);
          match state {
            case Normal => out := out.(content := out.content + text);
            case Thinking => out := out.(thinking := out.thinking + text);
            case ToolCalling => out := out.(tool := out.tool + text);
          }
        case MessageEnd => state := Normal;
        case MessageStart =>
      }
    }

    method AddContent(content: string) returns (out: Output)
      requires Usable(parser.tags)
      modifies this, parser, toolCalls
      ensures (View(), out) == Handle(parser.tags, old(View()), content)
    {
      hide Feed, Usable, RouteEvent, Both;
      var events := parser.AddContent(content);
      out := NOTHING;
      ghost var start := Router(state, toolCalls.toolName);
      for i := 0 to |events|
        invariant RouteEvents(start, events[..i]) == (Router(state, toolCalls.toolName), out)
        invariant toolCalls.acc == old(toolCalls.acc) && parser.View() == Feed(parser.tags, old(parser.View()), content).1
      {
        RouteNext(start, events, i);
        out := SortEvent(events[i], out);
      }
      assert events[..|events|] == events;
      if out.tool != "" {
        toolCalls.Add(out.tool);
      }
      assert old(toolCalls.acc) + "" == old(toolCalls.acc);
    }

    /** `drain_tool_call`: hands out the collected call under its bare name and
        starts the next one empty, even when there was no name. */
    method DrainToolCall() returns (call: Option<(string, string)>)
      modifies toolCalls
      ensures call.Some? == old(toolCalls.toolName).Some?
      ensures call.Some? ==> call.value.1 == old(toolCalls.acc)
      ensures call.Some? ==> BareName(old(toolCalls.toolName).value, call.value.0)
      ensures View() == old(View()).(router := Router(state, None), toolText := "")
    {
      hide BareName;
      var name, raw := toolCalls.Drain();
      if name.None? {
        return None;
      }
      var bare := if FUNCTIONS <= name.value then name.value[10..] else name.value;
      Stripped(name.value);
      return Some((bare, raw));
    }
  }
}
