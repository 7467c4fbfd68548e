/** The output of the streaming parser does not depend on how the stream was
    cut. Nothing is assumed of the tags, nor of the state the parser is in. */
module HarmonyChunks {
  import opened Wrappers
  import opened Text
  import opened Harmony

  // ----- atoms -----

  lemma Associative<T>(a: seq<T>, b: seq<T>, c: seq<T>)
    ensures a + b + c == a + (b + c)
  {
  }

  lemma AtomsFirst(e: Event, rest: seq<Event>)
    ensures Atoms([e] + rest) == AtomsOf(e) + Atoms(rest)
  {
  }

  lemma AtomsSingle(e: Event)
    ensures Atoms([e]) == AtomsOf(e)
  {
  }

  lemma {:induction false} AtomsConcat(a: seq<Event>, b: seq<Event>)
    ensures Atoms(a + b) == Atoms(a) + Atoms(b)
  {
    if a == [] {
      assert a + b == b;
    } else {
      hide AtomsOf, Atoms;
      var e, rest := a[0], a[1..];
      AtomsConcat(rest, b);
      AtomsFirst(e, rest);
      AtomsFirst(e, rest + b);
      assert a == [e] + rest;
      Associative([e], rest, b);
      Associative(AtomsOf(e), Atoms(rest), Atoms(b));
    }
  }

  lemma AtomsContent(text: string)
    ensures Atoms(Content(text)) == CharAtoms(text)
  {
  }

  lemma AtomsEnd(text: string)
    ensures Atoms(Content(text) + [MessageEnd]) == CharAtoms(text) + [End]
  {
    AtomsConcat(Content(text), [MessageEnd]);
    AtomsContent(text);
    assert [MessageEnd][1..] == [];
  }

  lemma CharAtomsConcat(a: string, b: string)
    ensures CharAtoms(a + b) == CharAtoms(a) + CharAtoms(b)
  {
  }

  // ----- first occurrences and overlaps -----

  lemma OccursBefore(s: string, more: string, t: string, i: nat)
    requires i + |t| <= |s|
    ensures OccursAt(s + more, t, i) == OccursAt(s, t, i)
  {
  }

  /** More text does not move the first occurrence. */
  lemma FirstStays(s: string, more: string, t: string, i: nat)
    requires FirstAt(s, t, i)
    ensures FirstAt(s + more, t, i)
  {
    OccursBefore(s, more, t, i);
    forall k: nat | k < i ensures !OccursAt(s + more, t, k) {
      OccursBefore(s, more, t, k);
    }
  }

  lemma OccursShifted(emit: string, rest: string, t: string, i: nat)
    ensures OccursAt(emit + rest, t, |emit| + i) == OccursAt(rest, t, i)
  {
  }

  /** The end of s that would begin an occurrence of t at i. */
  lemma BeginningAt(s: string, more: string, t: string, i: nat)
    requires i < |s| < i + |t|
    requires OccursAt(s + more, t, i)
    ensures HasSuffix(s, t[..|s| - i])
  {
  }

  /** Nothing is emitted that the tag, completed later, would have needed. */
  lemma NothingEarly(s: string, more: string, t: string, i: nat)
    requires !Contains(s, t) && i < |s| - Overlap(s, t)
    ensures !OccursAt(s + more, t, i)
  {
    if i + |t| <= |s| {
      OccursBefore(s, more, t, i);
    } else if OccursAt(s + more, t, i) {
      BeginningAt(s, more, t, i);
    }
  }

  lemma OverlapIs(s: string, t: string, k: nat)
    requires k <= |t| && HasSuffix(s, t[..k])
    requires forall j | k < j <= |t| && j <= |s| :: !HasSuffix(s, t[..j])
    ensures Overlap(s, t) == k
  {
  }

  lemma OverlapContract(s: string, t: string)
    ensures var k := Overlap(s, t);
      k <= |s| && k <= |t| && HasSuffix(s, t[..k]) &&
      forall j | k < j <= |t| && j <= |s| :: !HasSuffix(s, t[..j])
  {
  }

  lemma SuffixShifted(emit: string, rest: string, u: string)
    requires |u| <= |rest|
    ensures HasSuffix(emit + rest, u) == HasSuffix(rest, u)
  {
  }

  /** Holding back the longest overlap leaves the later overlaps as they are. */
  lemma {:induction false} OverlapShifted(s: string, more: string, t: string)
    requires !Contains(s, t)
    ensures var split := |s| - Overlap(s, t);
      Overlap(s + more, t) == Overlap(s[split..] + more, t)
  {
    hide HasSuffix;
    var split := |s| - Overlap(s, t);
    var emit, rest := s[..split], s[split..] + more;
    assert s + more == emit + rest;
    var k := Overlap(rest, t);
    OverlapContract(s, t);
    OverlapContract(rest, t);
    SuffixShifted(emit, rest, t[..k]);
    forall j | k < j <= |t| && j <= |s + more| ensures !HasSuffix(s + more, t[..j]) {
      if j <= |rest| {
        SuffixShifted(emit, rest, t[..j]);
      } else if HasSuffix(s + more, t[..j]) {
        LateOverlap(s, more, t, j);
      }
    }
    OverlapIs(s + more, t, k);
  }

  /** An overlap that starts in what was emitted would have been held back. */
  lemma LateOverlap(s: string, more: string, t: string, j: nat)
    requires j <= |t| && |more| <= j <= |s| + |more| && HasSuffix(s + more, t[..j])
    ensures HasSuffix(s, t[..j - |more|])
  {
    var i := |s| + |more| - j;
    assert (s + more)[i..] == t[..j];
    assert s[i..] == t[..j][..j - |more|] == t[..j - |more|];
  }

  // ----- one cut -----

  /** Body text that was already passed on only adds itself to the output. */
  lemma {:induction false} AfterEmitting(tags: Tags, emit: string, rest: string)
    requires Usable(tags)
    requires forall i: nat | i < |emit| :: !OccursAt(emit + rest, tags.end, i)
    requires !Contains(rest, tags.end) ==> Overlap(emit + rest, tags.end) == Overlap(rest, tags.end)
    ensures var (whole, p) := Run(tags, Parser(ParsingContent, emit + rest));
      var (part, q) := Run(tags, Parser(ParsingContent, rest));
      p == q && Atoms(whole) == CharAtoms(emit) + Atoms(part)
  {
    match Find(rest, tags.end) {
      case Some(pos) => EmittedThenTag(tags, emit, rest, pos);
      case None => EmittedThenWaiting(tags, emit, rest);
    }
  }

  lemma EmittedThenTag(tags: Tags, emit: string, rest: string, pos: nat)
    requires Usable(tags)
    requires forall i: nat | i < |emit| :: !OccursAt(emit + rest, tags.end, i)
    requires Find(rest, tags.end) == Some(pos)
    ensures var (whole, p) := Run(tags, Parser(ParsingContent, emit + rest));
      var (part, q) := Run(tags, Parser(ParsingContent, rest));
      p == q && Atoms(whole) == CharAtoms(emit) + Atoms(part)
  {
    hide Find, Usable, Content, CharAtoms, Atoms;
    var long, short := Parser(ParsingContent, emit + rest), Parser(ParsingContent, rest);
    FirstAfterEmitted(emit, rest, tags.end, pos);
    assert Rest(tags, long, |emit| + pos) == Rest(tags, short, pos) by {
      assert (emit + rest)[|emit| + pos + |tags.end|..] == rest[pos + |tags.end|..];
    }
    var (events, q) := Run(tags, Rest(tags, short, pos));
    assert long.acc[..|emit| + pos] == emit + rest[..pos];
    EmittedEnd(emit, rest[..pos], events);
  }

  lemma FirstAfterEmitted(emit: string, rest: string, t: string, pos: nat)
    requires forall i: nat | i < |emit| :: !OccursAt(emit + rest, t, i)
    requires Find(rest, t) == Some(pos)
    ensures Find(emit + rest, t) == Some(|emit| + pos)
  {
    OccursShifted(emit, rest, t, pos);
    forall k: nat | k < |emit| + pos ensures !OccursAt(emit + rest, t, k) {
      if k >= |emit| {
        OccursShifted(emit, rest, t, k - |emit|);
      }
    }
    FindIs(emit + rest, t, |emit| + pos);
  }

  lemma NoneAfterEmitted(emit: string, rest: string, t: string)
    requires forall i: nat | i < |emit| :: !OccursAt(emit + rest, t, i)
    requires Find(rest, t) == None
    ensures Find(emit + rest, t) == None
  {
    forall k: nat ensures !OccursAt(emit + rest, t, k) {
      if k >= |emit| {
        OccursShifted(emit, rest, t, k - |emit|);
      }
    }
    FindNone(emit + rest, t);
  }

  lemma EmittedEnd(emit: string, text: string, events: seq<Event>)
    ensures Atoms(Content(emit + text) + [MessageEnd] + events)
      == CharAtoms(emit) + Atoms(Content(text) + [MessageEnd] + events)
  {
  }

  lemma WaitsInBody(tags: Tags, p: Parser)
    requires Usable(tags) && Find(p.acc, tags.end) == None && p.state == ParsingContent
    ensures Overlap(p.acc, tags.end) <= |p.acc|
    ensures var split := |p.acc| - Overlap(p.acc, tags.end);
      Run(tags, p) == (Content(p.acc[..split]), Parser(ParsingContent, p.acc[split..]))
  {
    hide Overlap, OccursAt, HasSuffix, Contains, Find;
    OverlapContract(p.acc, tags.end);
  }

  lemma {:induction false} EmittedThenWaiting(tags: Tags, emit: string, rest: string)
    requires Usable(tags)
    requires forall i: nat | i < |emit| :: !OccursAt(emit + rest, tags.end, i)
    requires Find(rest, tags.end) == None && Overlap(emit + rest, tags.end) == Overlap(rest, tags.end)
    ensures var (whole, p) := Run(tags, Parser(ParsingContent, emit + rest));
      var (part, q) := Run(tags, Parser(ParsingContent, rest));
      p == q && Atoms(whole) == CharAtoms(emit) + Atoms(part)
  {
    hide Find, OccursAt, Contains, Overlap, HasSuffix, Run, Usable, Content, CharAtoms, Atoms;
    NoneAfterEmitted(emit, rest, tags.end);
    WaitsInBody(tags, Parser(ParsingContent, rest));
    WaitsInBody(tags, Parser(ParsingContent, emit + rest));
    var k := Overlap(rest, tags.end);
    var s := emit + rest;
    assert s[..|s| - k] == emit + rest[..|rest| - k];
    assert s[|s| - k..] == rest[|rest| - k..];
    AtomsContent(emit + rest[..|rest| - k]);
    AtomsContent(rest[..|rest| - k]);
    CharAtomsConcat(emit, rest[..|rest| - k]);
  }

  /** Cutting once: running on, then running on with more text, is running on
      with all of it. */
  lemma {:induction false} RunCut(tags: Tags, p: Parser, more: string)
    requires Usable(tags)
    ensures CutAgrees(tags, p, more)
    decreases |p.acc|, Idle(tags, p.state)
  {
    match Find(p.acc, TagOf(tags, p.state)) {
      case Some(pos) =>
        Progress(tags, p, pos);
        RunCut(tags, Rest(tags, p, pos), more);
        CutJoins(tags, p, more, pos);
      case None =>
        CutWaiting(tags, p, more);
    }
  }

  /** Running on, then running on with more text, against running on with all
      of it: the same final state and the same output. */
  predicate CutAgrees(tags: Tags, p: Parser, more: string)
    requires Usable(tags)
  {
    var (first, q) := Run(tags, p);
    var (second, r) := Run(tags, q.(acc := q.acc + more));
    var (whole, s) := Run(tags, p.(acc := p.acc + more));
    s == r && Atoms(whole) == Atoms(first) + Atoms(second)
  }

  /** The tag already there is matched in the longer text too. */
  lemma CutAfterTag(tags: Tags, p: Parser, more: string, pos: nat)
    requires Usable(tags) && Find(p.acc, TagOf(tags, p.state)) == Some(pos)
    ensures var long := p.(acc := p.acc + more);
      var after := Rest(tags, p, pos);
      Find(long.acc, TagOf(tags, p.state)) == Some(pos) &&
      Rest(tags, long, pos) == after.(acc := after.acc + more) &&
      long.acc[..pos] == p.acc[..pos]
  {
    FirstStays(p.acc, more, TagOf(tags, p.state), pos);
    FindIs(p.acc + more, TagOf(tags, p.state), pos);
  }

  lemma RunTag(tags: Tags, p: Parser, pos: nat)
    requires Usable(tags) && Find(p.acc, TagOf(tags, p.state)) == Some(pos)
    ensures var (events, q) := Run(tags, Rest(tags, p, pos));
      Run(tags, p) == (Harmony.Found(p.state, p.acc[..pos]) + events, q)
  {
  }

  lemma {:induction false} AtomsJoin(found: seq<Event>, first: seq<Event>, second: seq<Event>, whole: seq<Event>)
    requires Atoms(whole) == Atoms(first) + Atoms(second)
    ensures Atoms(found + whole) == Atoms(found + first) + Atoms(second)
  {
    hide Atoms;
    AtomsConcat(found, first);
    AtomsConcat(found, whole);
  }

  lemma {:induction false} CutJoins(tags: Tags, p: Parser, more: string, pos: nat)
    requires Usable(tags) && Find(p.acc, TagOf(tags, p.state)) == Some(pos)
    requires CutAgrees(tags, Rest(tags, p, pos), more)
    ensures CutAgrees(tags, p, more)
  {
    hide Run, Find, Atoms, Usable, Harmony.Found, Rest;
    var after, long := Rest(tags, p, pos), p.(acc := p.acc + more);
    var found := Harmony.Found(p.state, p.acc[..pos]);
    var (first, q) := Run(tags, after);
    var (second, r) := Run(tags, q.(acc := q.acc + more));
    var (whole, s) := Run(tags, after.(acc := after.acc + more));
    CutAfterTag(tags, p, more, pos);
    RunTag(tags, p, pos);
    RunTag(tags, long, pos);
    AtomsJoin(found, first, second, whole);
  }

  lemma WaitsOutside(tags: Tags, p: Parser, more: string)
    requires Usable(tags) && Find(p.acc, TagOf(tags, p.state)) == None && p.state != ParsingContent
    ensures CutAgrees(tags, p, more)
  {
    hide Find, Contains, OccursAt;
  }

  /** What may be emitted is not part of a tag that more text completes. */
  lemma EmittedIsClear(tags: Tags, p: Parser, more: string, split: nat)
    requires !Contains(p.acc, tags.end)
    requires Overlap(p.acc, tags.end) <= |p.acc| && split == |p.acc| - Overlap(p.acc, tags.end)
    ensures var emit, rest := p.acc[..split], p.acc[split..] + more;
      p.acc + more == emit + rest &&
      (forall i: nat | i < |emit| :: !OccursAt(emit + rest, tags.end, i)) &&
      Overlap(emit + rest, tags.end) == Overlap(rest, tags.end)
  {
    hide Overlap, OccursAt, Contains;
    var emit, rest := p.acc[..split], p.acc[split..] + more;
    assert p.acc + more == emit + rest;
    forall i: nat | i < |emit| ensures !OccursAt(emit + rest, tags.end, i) {
      NothingEarly(p.acc, more, tags.end, i);
    }
    OverlapShifted(p.acc, more, tags.end);
  }

  lemma {:induction false} CutWaiting(tags: Tags, p: Parser, more: string)
    requires Usable(tags) && Find(p.acc, TagOf(tags, p.state)) == None
    ensures CutAgrees(tags, p, more)
  {
    hide Run, Overlap, OccursAt, Contains, Find, Usable, Atoms, CharAtoms;
    if p.state == ParsingContent {
      WaitsInBody(tags, p);
      var split := |p.acc| - Overlap(p.acc, tags.end);
      EmittedIsClear(tags, p, more, split);
      AfterEmitting(tags, p.acc[..split], p.acc[split..] + more);
      AtomsContent(p.acc[..split]);
    } else {
      WaitsOutside(tags, p, more);
    }
  }

  // ----- any cuts -----

  lemma {:induction false} FeedAllCut(tags: Tags, p: Parser, chunks: seq<string>)
    requires Usable(tags) && chunks != []
    ensures var (pieces, q) := FeedAll(tags, p, chunks);
      var (whole, r) := Feed(tags, p, Concat(chunks));
      q == r && Atoms(pieces) == Atoms(whole)
    decreases |chunks|
  {
    hide Run, Atoms, Usable;
    var rest := chunks[1..];
    var (first, q) := Feed(tags, p, chunks[0]);
    if rest == [] {
      assert chunks[0] + "" == chunks[0];
      assert first + [] == first;
    } else {
      FeedAllCut(tags, q, rest);
      FeedCut(tags, p, chunks[0], Concat(rest));
      AtomsConcat(first, FeedAll(tags, q, rest).0);
    }
  }

  /** The output of a stream does not depend on its cuts: however a text is cut
      into chunks, the parser ends in the same state and emits the same. */
  lemma {:induction false} FeedCut(tags: Tags, p: Parser, a: string, b: string)
    requires Usable(tags)
    ensures var (first, q) := Feed(tags, p, a);
      var (second, r) := Feed(tags, q, b);
      var (whole, s) := Feed(tags, p, a + b);
      s == r && Atoms(whole) == Atoms(first) + Atoms(second)
  {
    hide Run, Atoms, Usable;
    RunCut(tags, p.(acc := p.acc + a), b);
    assert p.acc + a + b == p.acc + (a + b);
  }

  /** Text put in front of what is held, unread, counts as received: feeding any
      text afterwards ends in the same parser and says the same as feeding that
      text first. */
  lemma {:induction false} HeldCountsAsFed(tags: Tags, p: Parser, held: string, text: string)
    requires Usable(tags)
    ensures var (received, q) := Feed(tags, p, held);
      var (later, r) := Feed(tags, q, text);
      var (all, s) := Feed(tags, p.(acc := p.acc + held), text);
      s == r && Atoms(all) == Atoms(received) + Atoms(later)
  {
    hide Run, Atoms, Usable;
    FeedCut(tags, p, held, text);
    assert p.acc + held + text == p.acc + (held + text);
  }

  /** What is held back of a body is shorter than the tag that would end it. */
  lemma {:induction false} HeldIsShort(tags: Tags, p: Parser)
    requires Usable(tags)
    ensures var q := Run(tags, p).1;
      !Contains(q.acc, TagOf(tags, q.state)) &&
      (q.state == ParsingContent ==> |q.acc| < |tags.end| && q.acc == tags.end[..|q.acc|])
    decreases |p.acc|, Idle(tags, p.state)
  {
    match Find(p.acc, TagOf(tags, p.state)) {
      case Some(pos) =>
        Progress(tags, p, pos);
        HeldIsShort(tags, Rest(tags, p, pos));
      case None =>
        if p.state == ParsingContent {
          HeldOverlap(p.acc, tags.end);
        }
    }
  }

  lemma SuffixOccurs(s: string, t: string)
    ensures HasSuffix(s, t) ==> OccursAt(s, t, |s| - |t|)
  {
  }

  lemma HeldOverlap(s: string, t: string)
    requires !Contains(s, t)
    ensures var k := Overlap(s, t);
      k < |t| && s[|s| - k..] == t[..k] && !Contains(s[|s| - k..], t)
  {
    var k := Overlap(s, t);
    OverlapContract(s, t);
    SuffixOccurs(s, t);
    assert t[..|t|] == t;
  }
}
