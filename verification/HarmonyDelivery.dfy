/** Which bucket a message's body ends up in, said by the channel and recipient
    that its header was written with (src/harmony.rs), from the rendered stream
    in any chunks to the handler's outputs. */
module HarmonyDelivery {
  import opened Wrappers
  import opened HarmonyHeader
  import opened Harmony
  import opened HarmonyChunks
  import opened HarmonyRoute
  import opened HarmonyRender
  import opened HarmonyHeaderFields

  /** A message as its sender means it. */
  datatype Sent = Sent(before: string, fields: Fields, body: string)

  function MessageOf(m: Sent): Message {
    Message(m.before, RenderHeader(m.fields), m.body)
  }

  function MessagesOf(sent: seq<Sent>): seq<Message> {
    seq(|sent|, i requires 0 <= i < |sent| => MessageOf(sent[i]))
  }

  ghost predicate Sendable(tags: Tags, m: Sent) {
    WellFormed(m.fields) && Avoids(tags, MessageOf(m))
  }

  /** The model thinks aloud. */
  predicate IsThought(f: Fields) {
    f.channel == Some("analysis") && f.recipient.NoRecipient?
  }

  /** The model calls a tool. */
  predicate IsCall(f: Fields) {
    (f.channel == Some("analysis") || f.channel == Some("commentary")) && !f.recipient.NoRecipient?
  }

  // ----- one message -----

  lemma DeliveredOne(tool: Option<string>, m: Message, more: seq<Message>)
    ensures var turned := Turn(Router(Normal, tool), HeaderOf(m.header));
      var (s, rest) := Delivered(Router(Normal, turned.toolName), more);
      Delivered(Router(Normal, tool), [m] + more) == (s, Both(Bucket(turned.mode, m.body), rest))
  {
    hide HeaderOf, Bucket, Both, Turn;
    var all := [m] + more;
    assert all[0] == m && all[1..] == more;
  }

  /** What a header makes of the handler: another channel than the three, or
      none, leaves it in the mode it is in. */
  lemma TurnedBy(mode: Mode, tool: Option<string>, f: Fields)
    requires WellFormed(f)
    ensures Turn(Router(mode, tool), HeaderOf(RenderHeader(f))) ==
      if IsCall(f) then Router(ToolCalling, Some(f.recipient.name))
      else if IsThought(f) then Router(Thinking, tool)
      else if f.channel == Some("final") || f.channel == Some("commentary") then Router(Normal, tool)
      else Router(mode, tool)
  {
    hide HeaderOf, RenderHeader, Clean;
    HeaderSurvives(f);
  }

  /** One message, streamed in any chunks to a handler at rest: a body on the
      analysis channel is thinking, on analysis or commentary with a recipient it
      is the text of a call of that tool, and on final, commentary, any other
      channel or none it is content. Nothing else is put out, and the handler is
      at rest again. */
  lemma OneDelivered(tags: Tags, tool: Option<string>, toolText: string, m: Sent, chunks: seq<string>)
    requires Usable(tags) && Plain(tags) && Sendable(tags, m)
    requires chunks != [] && Concat(chunks) == Render(tags, [MessageOf(m)])
    ensures var rest := Parser(LookingForMessageStart, "");
      var (h, out) := HandleAll(tags, Handler(rest, Router(Normal, tool), toolText), chunks);
      var addressed := !m.fields.recipient.NoRecipient?;
      h.parser == rest && h.router.mode == Normal && h.toolText == toolText + out.tool &&
      (m.fields.channel == Some("analysis") && !addressed ==>
       out == Output("", m.body, "") && h.router.toolName == tool) &&
      ((m.fields.channel == Some("analysis") || m.fields.channel == Some("commentary")) && addressed ==>
       out == Output("", "", m.body) && h.router.toolName == Some(m.fields.recipient.name)) &&
      (m.fields.channel == Some("commentary") && !addressed ==>
       out == Output(m.body, "", "") && h.router.toolName == tool) &&
      (m.fields.channel == Some("final") ==> out == Output(m.body, "", "") && h.router.toolName == tool) &&
      (m.fields.channel != Some("analysis") && m.fields.channel != Some("commentary") ==>
       out == Output(m.body, "", "") && h.router.toolName == tool)
  {
    hide HandleAll, Render, Avoids, Plain, Usable, HeaderOf, Turn, WellFormed, MessageOf;
    DeliveredOne(tool, MessageOf(m), []);
    assert [MessageOf(m)] + [] == [MessageOf(m)];
    OneSent(tags, m);
    StreamedMessages(tags, Router(Normal, tool), toolText, [MessageOf(m)], chunks);
    HeaderIs(m);
    TurnedBy(Normal, tool, m.fields);
  }

  lemma OneSent(tags: Tags, m: Sent)
    requires Sendable(tags, m)
    ensures WellFormed(m.fields) && forall x | x in [MessageOf(m)] :: Avoids(tags, x)
  {
  }

  lemma HeaderIs(m: Sent)
    ensures MessageOf(m).header == RenderHeader(m.fields) && MessageOf(m).body == m.body
  {
  }

  // ----- any number of messages -----

  datatype Kind = Content | Thought | Call

  function KindOf(f: Fields): Kind {
    if IsCall(f) then Call else if IsThought(f) then Thought else Kind.Content
  }

  /** The bodies of all messages of one kind, in order. */
  function Bodies(sent: seq<Sent>, kind: Kind): string {
    if sent == [] then ""
    else (if KindOf(sent[0].fields) == kind then sent[0].body else "") + Bodies(sent[1..], kind)
  }

  /** The tool that was called last, if any was. */
  function LastTool(sent: seq<Sent>, tool: Option<string>): Option<string>
    decreases |sent|
  {
    if sent == [] then tool
    else LastTool(sent[1..], if IsCall(sent[0].fields) then Some(sent[0].fields.recipient.name) else tool)
  }

  lemma {:induction false} AllDelivered(tool: Option<string>, sent: seq<Sent>)
    requires forall m | m in sent :: WellFormed(m.fields)
    ensures Delivered(Router(Normal, tool), MessagesOf(sent)) ==
      (Router(Normal, LastTool(sent, tool)),
       Output(Bodies(sent, Kind.Content), Bodies(sent, Thought), Bodies(sent, Call)))
    decreases |sent|
  {
    hide HeaderOf, Turn, WellFormed, MessageOf, RenderHeader;
    if sent == [] {
      assert MessagesOf(sent) == [];
    } else {
      var m := sent[0];
      assert m in sent;
      TurnedBy(Normal, tool, m.fields);
      HeaderIs(m);
      AllDelivered(if IsCall(m.fields) then Some(m.fields.recipient.name) else tool, sent[1..]);
      assert MessagesOf(sent) == [MessageOf(m)] + MessagesOf(sent[1..]);
      DeliveredOne(tool, MessageOf(m), MessagesOf(sent[1..]));
    }
  }

  /** Any number of messages, streamed in any chunks to a handler at rest: each
      output is the bodies of its own kind of messages in order, the tool is the
      one called last, and the handler is at rest again. */
  lemma SentIsDelivered(tags: Tags, tool: Option<string>, toolText: string, sent: seq<Sent>, chunks: seq<string>)
    requires Usable(tags) && Plain(tags) && forall m | m in sent :: Sendable(tags, m)
    requires chunks != [] && Concat(chunks) == Render(tags, MessagesOf(sent))
    ensures var rest := Parser(LookingForMessageStart, "");
      HandleAll(tags, Handler(rest, Router(Normal, tool), toolText), chunks) ==
      (Handler(rest, Router(Normal, LastTool(sent, tool)), toolText + Bodies(sent, Call)),
       Output(Bodies(sent, Kind.Content), Bodies(sent, Thought), Bodies(sent, Call)))
  {
    hide HandleAll, Render, Plain, Usable, WellFormed, Avoids, Delivered, Bodies, LastTool;
    AllDelivered(tool, sent);
    AllSendable(tags, sent);
    StreamedMessages(tags, Router(Normal, tool), toolText, MessagesOf(sent), chunks);
  }

  lemma AllSendable(tags: Tags, sent: seq<Sent>)
    requires forall m | m in sent :: Sendable(tags, m)
    ensures forall m | m in MessagesOf(sent) :: Avoids(tags, m)
  {
    hide Avoids, MessageOf;
    forall m | m in MessagesOf(sent) ensures Avoids(tags, m) {
      var i :| 0 <= i < |sent| && MessagesOf(sent)[i] == m;
      assert sent[i] in sent && m == MessageOf(sent[i]);
    }
  }
}
