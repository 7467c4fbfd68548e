/** Header fields survive `parse_header`, wherever the recipient is put and
    however the constraint is attached. */
module HarmonyHeaderFields {
  import opened Wrappers
  import opened Text
  import opened HarmonyHeader
  import opened HarmonyRender
  import opened HarmonyChunks

  datatype Recipient = NoRecipient | AfterChannel(name: string) | BeforeChannel(name: string) | AsRole(name: string)

  datatype Constraint = Unconstrained | Constrained(spaced: bool, kind: string)

  datatype Fields = Fields(role: string, channel: Option<string>, recipient: Recipient, constraint: Constraint)

  predicate IsWord(w: string) {
    w != "" && forall i | 0 <= i < |w| :: !Whitespace(w[i])
  }

  /** No whitespace and no structural tag. */
  ghost predicate Clean(w: string) {
    (forall i | 0 <= i < |w| :: !Whitespace(w[i])) && !Contains(w, CHANNEL) && !Contains(w, CONSTRAIN)
  }

  ghost predicate WellFormed(f: Fields) {
    && (f.recipient.AsRole? || (f.role != "" && Clean(f.role) && !ToWord(f.role)))
    && (f.channel.Some? ==> Clean(f.channel.value))
    && (!f.recipient.NoRecipient? ==> f.recipient.name != "" && Clean(f.recipient.name))
    && (f.constraint.Constrained? ==> Clean(f.constraint.kind))
  }

  // ----- rendering -----

  function Front(f: Fields): string {
    match f.recipient
    case AsRole(name) => "to=" + name
    case BeforeChannel(name) => f.role + (" " + ("to=" + name))
    case _ => f.role
  }

  function ChannelText(f: Fields): string {
    match f.channel
    case Some(c) => CHANNEL + c
    case None => ""
  }

  function Back(f: Fields): string {
    match f.recipient
    case AfterChannel(name) => " " + ("to=" + name)
    case _ => ""
  }

  function ConstraintText(f: Fields): string {
    match f.constraint
    case Constrained(spaced, kind) => (if spaced then " " else "") + CONSTRAIN + kind
    case Unconstrained => ""
  }

  function RenderHeader(f: Fields): string {
    Front(f) + ChannelText(f) + Back(f) + ConstraintText(f)
  }

  function HeaderFor(f: Fields): Header {
    Header(
      if f.recipient.AsRole? then "tool" else f.role,
      if f.channel.Some? then f.channel.value else "",
      if f.recipient.NoRecipient? then "" else f.recipient.name)
  }

  // ----- where a tag cannot be -----

  predicate TagShaped(t: string) {
    |t| > 4 && t[0] == '<' && t[3] != '<' && forall i | 0 < i < |t| :: t[i] != '<' && t[i] != ' '
  }

  lemma Apart(a: string, b: string, t: string)
    requires TagShaped(t) && !Contains(a, t) && !Contains(b, t)
    requires b != "" ==> b[0] == ' ' || b[0] == '<'
    ensures !Contains(a + b, t)
  {
    forall i: nat ensures !OccursAt(a + b, t, i) {
      if i + |t| <= |a| {
        OccursBefore(a, b, t, i);
      } else if i >= |a| {
        OccursShifted(a, b, t, i - |a|);
      } else if i + |t| <= |a + b| {
        assert (a + b)[i..i + |t|][|a| - i] == b[0];
      }
    }
  }

  lemma NoAngle(a: string, b: string, t: string)
    requires TagShaped(t) && !Contains(b, t)
    requires forall i | 0 <= i < |a| :: a[i] != '<'
    ensures !Contains(a + b, t)
  {
    forall i: nat ensures !OccursAt(a + b, t, i) {
      if i >= |a| {
        OccursShifted(a, b, t, i - |a|);
      } else if i + |t| <= |a + b| {
        assert (a + b)[i..i + |t|][0] == a[i];
      }
    }
  }

  /** A tag followed by clean text holds no other tag. */
  lemma OtherTag(u: string, w: string, t: string)
    requires TagShaped(t) && TagShaped(u) && u[3] != t[3] && !Contains(w, t)
    ensures !Contains(u + w, t)
  {
    forall i: nat ensures !OccursAt(u + w, t, i) {
      if i >= |u| {
        OccursShifted(u, w, t, i - |u|);
      } else if i + |t| <= |u + w| {
        var piece := (u + w)[i..i + |t|];
        assert piece[0] == u[i];
        assert i == 0 ==> piece[3] == u[3];
      }
    }
  }

  lemma Shapes()
    ensures TagShaped(CHANNEL) && TagShaped(CONSTRAIN) && CHANNEL[3] != CONSTRAIN[3]
    ensures BorderFree(CHANNEL) && BorderFree(CONSTRAIN)
  {
    OnlyFirst(CHANNEL);
    OnlyFirst(CONSTRAIN);
  }

  lemma NoTagInSpace(t: string)
    requires TagShaped(t)
    ensures !Contains("", t) && !Contains(" ", t)
  {
  }

  lemma FrontClean(f: Fields, t: string)
    requires WellFormed(f) && t in {CHANNEL, CONSTRAIN}
    ensures !Contains(Front(f), t) && !Contains(Back(f), t) && (Back(f) == "" || Back(f)[0] == ' ')
  {
    hide Contains;
    Shapes();
    NoTagInSpace(t);
    if !f.recipient.NoRecipient? {
      var name := f.recipient.name;
      NoAngle("to=", name, t);
      NoAngle(" ", "to=" + name, t);
      if f.recipient.BeforeChannel? {
        Apart(f.role, " " + ("to=" + name), t);
      }
    }
  }

  /** Everything before the constraint avoids its tag. */
  lemma BeforeConstraintClean(f: Fields)
    requires WellFormed(f)
    ensures !Contains(Front(f) + ChannelText(f) + Back(f), CONSTRAIN)
    ensures !Contains(Front(f) + ChannelText(f) + Back(f) + " ", CONSTRAIN)
  {
    hide Contains, Front, Back, TagShaped;
    Shapes();
    FrontClean(f, CONSTRAIN);
    NoTagInSpace(CONSTRAIN);
    if f.channel.Some? {
      OtherTag(CHANNEL, f.channel.value, CONSTRAIN);
    }
    assert ChannelText(f) != "" ==> ChannelText(f)[0] == '<';
    Apart(Front(f), ChannelText(f), CONSTRAIN);
    Apart(Front(f) + ChannelText(f), Back(f), CONSTRAIN);
    Apart(Front(f) + ChannelText(f) + Back(f), " ", CONSTRAIN);
  }

  // ----- trimming and words -----

  lemma WordLengthIs(w: string, rest: string)
    requires forall i | 0 <= i < |w| :: !Whitespace(w[i])
    requires rest == "" || rest[0] == ' '
    ensures WordLength(w + rest) == |w|
  {
    assert forall i | 0 <= i < |w| :: (w + rest)[i] == w[i];
    assert rest != "" ==> (w + rest)[|w|] == rest[0];
  }

  lemma WordThen(w: string, rest: string)
    requires IsWord(w) && (rest == "" || rest[0] == ' ')
    ensures Words(w + rest) == [w] + Words(rest)
  {
    WordLengthIs(w, rest);
    assert (w + rest)[0] == w[0];
    assert (w + rest)[..|w|] == w && (w + rest)[|w|..] == rest;
  }

  lemma SpaceThen(rest: string)
    ensures Words(" " + rest) == Words(rest)
  {
  }

  // ----- the three steps -----

  /** What follows the channel once the constraint stands alone. */
  function Tail(f: Fields): string {
    match f.constraint
    case Constrained(spaced, kind) => Back(f) + (if spaced then " " else "") + (" " + (CONSTRAIN + kind))
    case Unconstrained => Back(f)
  }

  predicate Ends(s: string) {
    s != "" && !Whitespace(s[|s| - 1])
  }

  lemma TailShape(f: Fields)
    requires WellFormed(f)
    ensures Tail(f) != "" ==> Tail(f)[0] == ' ' && Ends(Tail(f))
    ensures f.constraint.Constrained? ==> Tail(f) != ""
  {
  }

  lemma FrontShape(f: Fields)
    requires WellFormed(f)
    ensures Front(f) != "" && !Whitespace(Front(f)[0]) && Ends(Front(f))
  {
  }

  lemma TrimBoth(front: string, tail: string)
    requires front != "" && !Whitespace(front[0]) && Ends(front)
    requires tail != "" ==> Ends(tail)
    ensures Trim(front + tail) == front + tail
  {
  }

  lemma SpaceBefore(x: string, gap: string, word: string)
    ensures var raw, y := x + (gap + word), x + gap;
      raw == y + word && raw[..|y|] + " " + raw[|y|..] == x + (gap + (" " + word))
  {
  }

  lemma {:induction false} ConstraintAt(f: Fields)
    requires WellFormed(f) && f.constraint.Constrained?
    ensures SpaceConstrain(RenderHeader(f)) == Trim(Front(f) + (ChannelText(f) + Tail(f)))
  {
    hide Front, Back, ChannelText, Trim, Contains, BorderFree, Find, WellFormed;
    var x := Front(f) + ChannelText(f) + Back(f);
    var gap, kind := if f.constraint.spaced then " " else "", f.constraint.kind;
    var y := x + gap;
    assert !Contains(y, CONSTRAIN) by {
      BeforeConstraintClean(f);
      assert x + "" == x;
    }
    SpaceBefore(x, gap, CONSTRAIN + kind);
    Associative(gap, CONSTRAIN, kind);
    Associative(y, CONSTRAIN, kind);
    Shapes();
    TagFound(y, CONSTRAIN, kind);
    TailAfter(f, x, gap, " " + (CONSTRAIN + kind));
  }

  lemma TailAfter(f: Fields, x: string, gap: string, word: string)
    requires x == Front(f) + ChannelText(f) + Back(f)
    requires Tail(f) == Back(f) + gap + word
    ensures x + (gap + word) == Front(f) + (ChannelText(f) + Tail(f))
  {
    hide Front, ChannelText, Back, Tail;
    var front, text, back := Front(f), ChannelText(f), Back(f);
    assert back + gap + word == back + (gap + word);
    assert front + text + back + (gap + word) == front + (text + (back + (gap + word)));
  }

  lemma SpacedConstraint(f: Fields)
    requires WellFormed(f)
    ensures SpaceConstrain(RenderHeader(f)) == Front(f) + ChannelText(f) + Tail(f)
  {
    hide Front, Back, ChannelText, Trim, Contains, Find, WellFormed, Tail;
    match f.constraint {
      case Unconstrained =>
        UnconstrainedTail(f);
        BeforeConstraintClean(f);
        FindNone(Front(f) + ChannelText(f) + Back(f), CONSTRAIN);
      case Constrained(_, _) =>
        ConstraintAt(f);
        FrontShape(f);
        TailShape(f);
        EndsJoin(ChannelText(f), Tail(f));
        TrimBoth(Front(f), ChannelText(f) + Tail(f));
        Associative(Front(f), ChannelText(f), Tail(f));
    }
  }

  lemma UnconstrainedTail(f: Fields)
    requires f.constraint.Unconstrained?
    ensures Tail(f) == Back(f) && RenderHeader(f) == Front(f) + ChannelText(f) + Back(f)
  {
  }

  lemma EndsJoin(a: string, b: string)
    requires Ends(b)
    ensures Ends(a + b)
  {
  }

  lemma TailClean(f: Fields)
    requires WellFormed(f)
    ensures !Contains(Front(f) + Tail(f), CHANNEL)
  {
    hide Contains, Front, Back, TagShaped;
    Shapes();
    FrontClean(f, CHANNEL);
    NoTagInSpace(CHANNEL);
    match f.constraint {
      case Unconstrained =>
        Apart(Front(f), Back(f), CHANNEL);
      case Constrained(spaced, kind) =>
        var word := CONSTRAIN + kind;
        var gap := if spaced then " " else "";
        OtherTag(CONSTRAIN, kind, CHANNEL);
        NoAngle(" ", word, CHANNEL);
        Apart(gap, " " + word, CHANNEL);
        Apart(Back(f), gap + (" " + word), CHANNEL);
        Associative(Back(f), gap, " " + word);
        Apart(Front(f), Tail(f), CHANNEL);
    }
  }

  lemma TakenChannel(f: Fields)
    requires WellFormed(f)
    ensures TakeChannel(Front(f) + ChannelText(f) + Tail(f))
      == (if f.channel.Some? then f.channel.value else "", Front(f) + Tail(f))
  {
    hide Front, Back, Trim, Contains, BorderFree, Find, WordLength;
    var front, tail := Front(f), Tail(f);
    match f.channel {
      case None =>
        TailClean(f);
        assert front + "" + tail == front + tail;
        FindNone(front + tail, CHANNEL);
      case Some(c) =>
        Shapes();
        FrontClean(f, CHANNEL);
        FrontShape(f);
        TailShape(f);
        var raw := front + ChannelText(f) + tail;
        assert raw == front + CHANNEL + (c + tail);
        TagFound(front, CHANNEL, c + tail);
        assert raw[..|front|] == front && raw[|front| + |CHANNEL|..] == c + tail;
        WordLengthIs(c, tail);
        assert (c + tail)[..|c|] == c && (c + tail)[|c|..] == tail;
        TrimBoth(front, tail);
    }
  }

  function BackWords(f: Fields): seq<string> {
    (match f.recipient
     case AfterChannel(name) => ["to=" + name]
     case _ => [])
    + match f.constraint
      case Constrained(_, kind) => [CONSTRAIN + kind]
      case Unconstrained => []
  }

  function FrontWords(f: Fields): seq<string> {
    match f.recipient
    case AsRole(name) => ["to=" + name]
    case BeforeChannel(name) => [f.role, "to=" + name]
    case _ => [f.role]
  }

  lemma ConstraintWords(f: Fields, rest: string)
    requires WellFormed(f) && f.constraint.Constrained?
    requires rest == (if f.constraint.spaced then " " else "") + (" " + (CONSTRAIN + f.constraint.kind))
    ensures Words(rest) == [CONSTRAIN + f.constraint.kind]
  {
    var word := CONSTRAIN + f.constraint.kind;
    assert IsWord(word);
    WordThen(word, "");
    assert word + "" == word;
    SpaceThen(word);
    SpaceThen(" " + word);
    assert "" + (" " + word) == " " + word;
  }

  lemma TailWords(f: Fields)
    requires WellFormed(f)
    ensures Words(Tail(f)) == BackWords(f)
  {
    hide Words, Contains;
    var rest := "";
    if f.constraint.Constrained? {
      rest := (if f.constraint.spaced then " " else "") + (" " + (CONSTRAIN + f.constraint.kind));
      ConstraintWords(f, rest);
    } else {
      NoWords();
    }
    if f.recipient.AfterChannel? {
      var word := "to=" + f.recipient.name;
      assert IsWord(word);
      WordThen(word, rest);
      SpaceThen(word + rest);
      assert Tail(f) == " " + (word + rest);
    } else {
      assert Tail(f) == "" + rest == rest;
    }
  }

  lemma NoWords()
    ensures Words("") == []
  {
  }

  lemma AllWords(f: Fields)
    requires WellFormed(f)
    ensures Words(Front(f) + Tail(f)) == FrontWords(f) + BackWords(f)
  {
    hide Words, Contains, Tail, BackWords;
    var tail := Tail(f);
    TailShape(f);
    TailWords(f);
    match f.recipient {
      case AsRole(name) =>
        assert IsWord("to=" + name);
        WordThen("to=" + name, tail);
      case BeforeChannel(name) =>
        assert IsWord("to=" + name);
        WordThen("to=" + name, tail);
        SpaceThen("to=" + name + tail);
        WordThen(f.role, " " + ("to=" + name + tail));
        assert Front(f) + tail == f.role + (" " + ("to=" + name + tail));
      case _ =>
        WordThen(f.role, tail);
    }
  }

  lemma FieldsFromWords(f: Fields, channel: string)
    requires WellFormed(f)
    ensures FromWords(FrontWords(f) + BackWords(f), channel) == HeaderFor(f).(channel := channel)
  {
    hide Contains;
    if !f.recipient.NoRecipient? {
      var name := f.recipient.name;
      assert ("to=" + name)[3..] == name;
    }
    if f.constraint.Constrained? {
      var word := CONSTRAIN + f.constraint.kind;
      assert word[0] == '<';
    }
  }

  /** Header fields survive: role, channel and recipient are read back as they
      were written, for every placement and every constraint. */
  lemma {:induction false} HeaderSurvives(f: Fields)
    requires WellFormed(f)
    ensures HeaderOf(RenderHeader(f)) == HeaderFor(f)
  {
    hide WellFormed, SpaceConstrain, TakeChannel, Words, FromWords, RenderHeader, Front, Tail, ChannelText, FrontWords, BackWords;
    SpacedConstraint(f);
    TakenChannel(f);
    AllWords(f);
    FieldsFromWords(f, HeaderFor(f).channel);
  }

  // ----- headers of words alone -----

  /** Words with a space between any two. */
  function Spaced(words: seq<string>): string {
    if words == [] then ""
    else if |words| == 1 then words[0]
    else words[0] + (" " + Spaced(words[1..]))
  }

  lemma {:induction false} WordsOfSpaced(words: seq<string>)
    requires forall i | 0 <= i < |words| :: IsWord(words[i])
    ensures Words(Spaced(words)) == words
  {
    hide IsWord, Words;
    if words == [] {
      NoWords();
    } else if |words| == 1 {
      NoWords();
      WordThen(words[0], "");
      assert words[0] + "" == words[0] && words == [words[0]] + [];
    } else {
      var rest := Spaced(words[1..]);
      WordsOfSpaced(words[1..]);
      WordThen(words[0], " " + rest);
      SpaceThen(rest);
      assert words == [words[0]] + words[1..];
    }
  }

  /** A header of words without tags: the first is the role, unless it addresses
      a tool, and the recipient is what the first or else the second addresses.
      No words give an empty header. */
  lemma WordsDecide(words: seq<string>)
    requires forall i | 0 <= i < |words| :: IsWord(words[i])
    requires !Contains(Spaced(words), CHANNEL) && !Contains(Spaced(words), CONSTRAIN)
    ensures HeaderOf(Spaced(words)) ==
      if words == [] then Header("", "", "")
      else if "to=" < words[0] then Header("tool", "", words[0][3..])
      else Header(
        if words[0] == "to=" then "tool" else words[0],
        "",
        if |words| > 1 && "to=" <= words[1] then words[1][3..] else "")
  {
    hide IsWord, Words, Find, Contains, Spaced, FromWords;
    FindNone(Spaced(words), CHANNEL);
    FindNone(Spaced(words), CONSTRAIN);
    WordsOfSpaced(words);
    FromWordsIs(words);
  }

  lemma FromWordsIs(words: seq<string>)
    ensures FromWords(words, "") ==
      if words == [] then Header("", "", "")
      else if "to=" < words[0] then Header("tool", "", words[0][3..])
      else Header(
        if words[0] == "to=" then "tool" else words[0],
        "",
        if |words| > 1 && "to=" <= words[1] then words[1][3..] else "")
  {
    if words != [] && "to=" <= words[0] {
      assert words[0] == "to=" + words[0][3..];
    }
  }
}
