/** One call of `signManifest` (go-shim/sigstore.go), seen from inside: a run of
    the whole protocol drives it by what the registry answers and by nothing
    else, and the method that makes the call goes exactly that way. */
module SigningCalls {
  import opened Wrappers
  import opened Words
  import opened Signatures
  import opened SigningProtocol

  /** What one call gets to know. */
  datatype Input =
    | ReadAnswer(seen: Option<Artifact>)
    | PushAnswer(outcome: Outcome)
    | ConfirmAnswer(seen: Option<Artifact>)
    | GivenUp

  /** Where a call is and what it has put in the registry. */
  datatype Call = Call(phase: Phase, published: seq<Artifact>)

  /** An answer to something the call did not ask changes nothing. */
  function Take(s: Scheme, key: nat, id: nat, c: Call, input: Input): Call {
    match input
    case ReadAnswer(seen) =>
      (match c.phase
       case Reading(attempt) => c.(phase := PhaseAfterRead(s, key, attempt, seen))
       case _ => c)
    case PushAnswer(outcome) =>
      (match c.phase
       case Pushing(attempt, base) =>
         Call(PhaseAfterPush(attempt, outcome), c.published + if outcome.Lost? then [] else [Appended(s, key, id, base)])
       case _ => c)
    case ConfirmAnswer(seen) =>
      (match c.phase
       case Confirming(attempt) => c.(phase := PhaseAfterConfirm(s, key, attempt, seen))
       case _ => c)
    case GivenUp => if c.phase.Success? then c else c.(phase := Failed)
  }

  function TakeAll(s: Scheme, key: nat, id: nat, c: Call, inputs: seq<Input>): Call {
    if inputs == [] then c
    else Take(s, key, id, TakeAll(s, key, id, c, inputs[..|inputs| - 1]), inputs[|inputs| - 1])
  }

  // ----- a call within a run -----

  function InputOf(st: System, i: nat, m: Move): seq<Input> {
    match m
    case Read(k, found) => if k == i then [ReadAnswer(Seen(st, found))] else []
    case Push(k, outcome) => if k == i then [PushAnswer(outcome)] else []
    case Confirm(k, found) => if k == i then [ConfirmAnswer(Seen(st, found))] else []
    case Fail(k) => if k == i then [GivenUp] else []
    case _ => []
  }

  /** What signer i gets to know in a run. */
  function InputsOf(w: World, st: System, i: nat, moves: seq<Move>): seq<Input> {
    if moves == [] then []
    else
      var before := moves[..|moves| - 1];
      InputsOf(w, st, i, before) + InputOf(Run(w, st, before), i, moves[|moves| - 1])
  }

  function PublishedBy(log: seq<Event>, i: nat): seq<Artifact> {
    if log == [] then []
    else
      var e := log[|log| - 1];
      PublishedBy(log[..|log| - 1], i) + if e.WasPublished? && e.signer == i then [e.artifact] else []
  }

  function CallOf(st: System, i: nat): Call
    requires i in st.phases
  {
    Call(st.phases[i], PublishedBy(st.log, i))
  }

  lemma OneMoreEvent(log: seq<Event>, e: Event, i: nat)
    ensures PublishedBy(log + [e], i) == PublishedBy(log, i) + if e.WasPublished? && e.signer == i then [e.artifact] else []
    ensures PublishedBy(log + [], i) == PublishedBy(log, i)
  {
    assert (log + [e])[..|log|] == log && log + [] == log;
  }

  lemma OneInput(s: Scheme, key: nat, id: nat, c: Call, inputs: seq<Input>, input: Input)
    ensures TakeAll(s, key, id, c, inputs + [input]) == Take(s, key, id, TakeAll(s, key, id, c, inputs), input)
    ensures TakeAll(s, key, id, c, inputs + []) == TakeAll(s, key, id, c, inputs)
  {
    assert (inputs + [input])[..|inputs|] == inputs && inputs + [] == inputs;
  }

  function TakeAny(s: Scheme, key: nat, id: nat, c: Call, inputs: seq<Input>): Call {
    if inputs == [] then c else Take(s, key, id, c, inputs[0])
  }

  lemma StepPhase(w: World, st: System, i: nat, m: Move)
    requires i in st.phases
    ensures i in Step(w, st, m).phases
    ensures Step(w, st, m).phases[i] == TakeAny(w.scheme, w.keyOf(i), i, CallOf(st, i), InputOf(st, i, m)).phase
  {
    hide Decide, Signatures.Confirm, Appended, PublishedBy;
  }

  lemma StepPublishes(w: World, st: System, i: nat, m: Move)
    requires i in st.phases
    ensures PublishedBy(Step(w, st, m).log, i) ==
      TakeAny(w.scheme, w.keyOf(i), i, CallOf(st, i), InputOf(st, i, m)).published
  {
    hide Decide, Signatures.Confirm, Appended, PublishedBy, PhaseAfterRead, PhaseAfterPush, PhaseAfterConfirm;
    var end := Step(w, st, m);
    if |end.log| > |st.log| {
      OneMoreEvent(st.log, end.log[|st.log|], i);
      assert end.log == st.log + [end.log[|st.log|]];
    } else {
      assert st.log + [] == st.log;
    }
  }

  /** A step of the protocol is, for each call, the call taking its input. */
  lemma StepIsTaken(w: World, st: System, i: nat, m: Move)
    requires i in st.phases
    ensures i in Step(w, st, m).phases
    ensures CallOf(Step(w, st, m), i) == TakeAll(w.scheme, w.keyOf(i), i, CallOf(st, i), InputOf(st, i, m))
  {
    hide Step, Take, PublishedBy;
    var inputs := InputOf(st, i, m);
    StepPhase(w, st, i, m);
    StepPublishes(w, st, i, m);
    if inputs != [] {
      OneInput(w.scheme, w.keyOf(i), i, CallOf(st, i), [], inputs[0]);
      assert [] + inputs == [inputs[0]] == [] + [inputs[0]];
    }
  }

  lemma {:induction false} TakenInTwo(s: Scheme, key: nat, id: nat, c: Call, a: seq<Input>, b: seq<Input>)
    ensures TakeAll(s, key, id, c, a + b) == TakeAll(s, key, id, TakeAll(s, key, id, c, a), b)
    decreases |b|
  {
    hide Take;
    if b == [] {
      assert a + b == a;
    } else {
      assert (a + b)[..|a + b| - 1] == a + b[..|b| - 1];
      TakenInTwo(s, key, id, c, a, b[..|b| - 1]);
    }
  }

  /** Whatever the other signers do, a call goes where its own answers take it,
      and publishes what they make it publish. */
  lemma {:induction false} CallFollowsAnswers(w: World, st: System, i: nat, moves: seq<Move>)
    requires i in st.phases
    ensures var end := Run(w, st, moves);
      i in end.phases &&
      CallOf(end, i) == TakeAll(w.scheme, w.keyOf(i), i, CallOf(st, i), InputsOf(w, st, i, moves))
  {
    hide Step, InputOf, Take, CallOf;
    if moves == [] {
    } else {
      var before := moves[..|moves| - 1];
      CallFollowsAnswers(w, st, i, before);
      var mid := Run(w, st, before);
      StepIsTaken(w, mid, i, moves[|moves| - 1]);
      TakenInTwo(w.scheme, w.keyOf(i), i, CallOf(st, i), InputsOf(w, st, i, before), InputOf(mid, i, moves[|moves| - 1]));
    }
  }

  // ----- the call itself -----

  /** What the registry answers during one attempt, as far as it is asked. */
  datatype Answers = Answers(read: Option<Artifact>, push: Outcome, confirm: Option<Artifact>)

  predicate InWidth(seen: Option<Artifact>) {
    seen.Some? ==> Wrap64(seen.value.configSize) == seen.value.configSize
  }

  function InputsFrom(answers: seq<Answers>): seq<Input> {
    if answers == [] then []
    else
      var a := answers[|answers| - 1];
      InputsFrom(answers[..|answers| - 1]) + [ReadAnswer(a.read), PushAnswer(a.push), ConfirmAnswer(a.confirm)]
  }

  function After(s: Scheme, key: nat, id: nat, answers: seq<Answers>): Call {
    TakeAll(s, key, id, Call(Reading(0), []), InputsFrom(answers))
  }

  /** Three answers of one attempt. */
  function Attempt(s: Scheme, key: nat, id: nat, c: Call, a: Answers): Call {
    Take(s, key, id, Take(s, key, id, Take(s, key, id, c, ReadAnswer(a.read)), PushAnswer(a.push)), ConfirmAnswer(a.confirm))
  }

  lemma OneAttempt(s: Scheme, key: nat, id: nat, answers: seq<Answers>, n: nat)
    requires n < |answers|
    ensures After(s, key, id, answers[..n + 1]) == Attempt(s, key, id, After(s, key, id, answers[..n]), answers[n])
  {
    hide Take;
    var a, start := answers[n], Call(Reading(0), []);
    var before := InputsFrom(answers[..n]);
    assert answers[..n + 1][..n] == answers[..n];
    OneInput(s, key, id, start, before, ReadAnswer(a.read));
    OneInput(s, key, id, start, before + [ReadAnswer(a.read)], PushAnswer(a.push));
    OneInput(s, key, id, start, before + [ReadAnswer(a.read)] + [PushAnswer(a.push)], ConfirmAnswer(a.confirm));
    assert InputsFrom(answers[..n + 1]) ==
      before + [ReadAnswer(a.read)] + [PushAnswer(a.push)] + [ConfirmAnswer(a.confirm)];
  }

  predicate Done(phase: Phase) {
    phase.Success? || phase.Failed?
  }

  lemma {:induction false} DoneStays(s: Scheme, key: nat, id: nat, answers: seq<Answers>, n: nat)
    requires n <= |answers| && Done(After(s, key, id, answers[..n]).phase)
    ensures After(s, key, id, answers) == After(s, key, id, answers[..n])
    decreases |answers| - n
  {
    hide After;
    if n == |answers| {
      assert answers[..n] == answers;
    } else {
      OneAttempt(s, key, id, answers, n);
      DoneStays(s, key, id, answers, n + 1);
    }
  }

  /** Some layer has a signature by the key over a payload that claims what is
      signed; if `typed`, one of the cosign type. */
  ghost predicate Bears(s: Scheme, key: nat, typed: bool, seen: Option<Artifact>) {
    seen.Some? && exists layer | layer in seen.value.layers ::
      (typed ==> layer.cosign) && layer.signature != "" && s.claims(layer.payload) &&
      s.accepts(key, layer.payload, layer.signature)
  }

  /** The attempt gets as far as its push. */
  ghost predicate Pushes(s: Scheme, key: nat, a: Answers) {
    Readable(a.read) && !Bears(s, key, false, a.read) && (a.read.Some? ==> |a.read.value.layers| < 64)
  }

  ghost predicate Succeeds(s: Scheme, key: nat, a: Answers) {
    || (Readable(a.read) && Bears(s, key, false, a.read))
    || (Pushes(s, key, a) && a.push.Accepted? && Readable(a.confirm) && Bears(s, key, true, a.confirm))
  }

  /** The attempt's push was answered, but what was read behind it lacks the
      signature. */
  ghost predicate GoesOn(s: Scheme, key: nat, a: Answers) {
    Pushes(s, key, a) && a.push.Accepted? && Readable(a.confirm) && !Bears(s, key, true, a.confirm)
  }

  lemma DecisionMeans(s: Scheme, key: nat, seen: Option<Artifact>)
    ensures Decide(s, key, seen) ==
      if !Readable(seen) then Rejected
      else if Bears(s, key, false, seen) then AlreadySigned
      else if seen.Some? && |seen.value.layers| >= 64 then Rejected
      else Append(if seen.Some? then seen.value.layers else [])
  {
    hide Plausible;
    if SignedBy(s, key, LayersOf(seen)) {
      var i :| 0 <= i < |LayersOf(seen)| && Verifies(s, key, LayersOf(seen)[i]);
      assert LayersOf(seen)[i] in LayersOf(seen);
    }
  }

  lemma ConfirmationMeans(s: Scheme, key: nat, seen: Option<Artifact>)
    ensures (exists k | k in [key] :: Verified(s, k, LayersOf(seen))) <==> Bears(s, key, true, seen)
  {
    VerifiedMeans(s, [key], LayersOf(seen));
    assert key in [key];
  }

  /** All of the first n attempts pushed in vain. */
  ghost predicate WentOn(s: Scheme, key: nat, answers: seq<Answers>, n: nat)
    requires n <= |answers|
  {
    forall m | 0 <= m < n :: GoesOn(s, key, answers[m])
  }

  /** What an attempt leaves in the registry: what it read and one more layer. */
  function Push(s: Scheme, key: nat, id: nat, a: Answers): Artifact {
    Artifact(2, LayersOf(a.read) + [Layer(true, s.payload, s.sign(key, id), s.payloadSize)])
  }

  lemma AttemptMeans(s: Scheme, key: nat, id: nat, n: nat, published: seq<Artifact>, a: Answers)
    ensures var c := Attempt(s, key, id, Call(Reading(n), published), a);
      && c.phase == (if Succeeds(s, key, a) then Success else if GoesOn(s, key, a) && n < 2 then Reading(n + 1) else Failed)
      && c.published == published + if Pushes(s, key, a) && !a.push.Lost? then [Push(s, key, id, a)] else []
  {
    hide Decide, SignedBy, Verified, Readable, Plausible, Bears;
    DecisionMeans(s, key, a.read);
    ConfirmationMeans(s, key, a.confirm);
    ReportConfirms(s, key, a.confirm);
    assert published + [] == published;
  }

  /** Where a call stands after its first n attempts: it has gone on through all
      of them, or is done, with success if and only if one of them succeeded
      after the ones before it went on. */
  ghost predicate Stands(s: Scheme, key: nat, id: nat, answers: seq<Answers>, n: nat, c: Call)
    requires n <= |answers| <= 3
  {
    && (WentOn(s, key, answers, n) ==> |c.published| == n && c.phase == if n < 3 then Reading(n) else Failed)
    && (!WentOn(s, key, answers, n) ==> Done(c.phase))
    && (c.phase.Success? <==> exists k | 0 <= k < n :: WentOn(s, key, answers, k) && Succeeds(s, key, answers[k]))
    && |c.published| <= n
    && (forall k: nat | k < n :: k < |c.published| <==>
          WentOn(s, key, answers, k) && Pushes(s, key, answers[k]) && !answers[k].push.Lost?)
    && (forall k | 0 <= k < |c.published| :: c.published[k] == Push(s, key, id, answers[k]))
  }

  lemma OneMoreStands(s: Scheme, key: nat, id: nat, answers: seq<Answers>, n: nat, c: Call)
    requires n < |answers| <= 3 && Stands(s, key, id, answers, n, c)
    ensures Stands(s, key, id, answers, n + 1, Attempt(s, key, id, c, answers[n]))
  {
    hide Take, Push, Succeeds, Bears, Readable;
    if WentOn(s, key, answers, n) {
      AttemptMeans(s, key, id, n, c.published, answers[n]);
      SuccessOrOn(s, key, answers[n]);
    } else {
      DoneTakesNone(s, key, id, c, answers[n]);
      assert !WentOn(s, key, answers, n + 1);
    }
  }

  lemma SuccessOrOn(s: Scheme, key: nat, a: Answers)
    ensures !(Succeeds(s, key, a) && GoesOn(s, key, a))
    ensures GoesOn(s, key, a) ==> Pushes(s, key, a) && !a.push.Lost?
  {
    hide Bears, Readable;
  }

  lemma DoneTakesNone(s: Scheme, key: nat, id: nat, c: Call, a: Answers)
    requires Done(c.phase)
    ensures Attempt(s, key, id, c, a) == c
  {
  }

  /** A call with three attempts succeeds if and only if one of them does and
      those before it went on; what it pushed is what it read and its own layer
      in every attempt it came to. */
  lemma {:induction false} CallMeans(s: Scheme, key: nat, id: nat, answers: seq<Answers>, n: nat)
    requires n <= |answers| <= 3
    ensures Stands(s, key, id, answers, n, After(s, key, id, answers[..n]))
  {
    hide Stands, After, Attempt;
    if n == 0 {
      NoAnswers(s, key, id, answers);
      StandsAtFirst(s, key, id, answers);
    } else {
      CallMeans(s, key, id, answers, n - 1);
      OneAttempt(s, key, id, answers, n - 1);
      OneMoreStands(s, key, id, answers, n - 1, After(s, key, id, answers[..n - 1]));
    }
  }

  lemma StandsAtFirst(s: Scheme, key: nat, id: nat, answers: seq<Answers>)
    requires |answers| <= 3
    ensures Stands(s, key, id, answers, 0, Call(Reading(0), []))
  {
  }

  /** `signManifest` after the payload was signed: up to three attempts to read,
      push and confirm. It ends where the answers take a call of the protocol,
      and `pushed` is what it put in the registry. */
  method SignManifest(s: Scheme, key: nat, id: nat, answers: seq<Answers>) returns (ok: bool, pushed: seq<Artifact>)
    requires |answers| == 3 && forall a | a in answers :: InWidth(a.read) && InWidth(a.confirm)
    ensures After(s, key, id, answers) == Call(if ok then Success else Failed, pushed)
    ensures Stands(s, key, id, answers, 3, Call(if ok then Success else Failed, pushed))
  {
    hide Plausible, SignedBy, Verified, After, Appended, Stands;
    pushed := [];
    CallMeans(s, key, id, answers, 3);
    assert answers[..3] == answers;
    assert After(s, key, id, answers[..0]) == Call(Reading(0), []) by { NoAnswers(s, key, id, answers); }
    for attempt := 0 to ATTEMPTS
      invariant After(s, key, id, answers[..attempt]) ==
        Call(if attempt < ATTEMPTS then Reading(attempt) else Failed, pushed)
    {
      var a := answers[attempt];
      OneAttempt(s, key, id, answers, attempt);
      var d := AppendSignature(s, key, a.read);
      if d == Rejected || d == AlreadySigned {
        DoneStays(s, key, id, answers, attempt + 1);
        return d == AlreadySigned, pushed;
      }
      if !a.push.Lost? {
        pushed := pushed + [Appended(s, key, id, d.base)];
      }
      if !a.push.Accepted? {
        DoneStays(s, key, id, answers, attempt + 1);
        return false, pushed;
      }
      var answered, _, matches := VerifyAgainst(s, [key], a.confirm);
      ReportConfirms(s, key, a.confirm);
      if !answered || matches != [] {
        DoneStays(s, key, id, answers, attempt + 1);
        return answered, pushed;
      }
    }
    return false, pushed;
  }

  lemma NoAnswers(s: Scheme, key: nat, id: nat, answers: seq<Answers>)
    ensures After(s, key, id, answers[..0]) == Call(Reading(0), [])
  {
    assert answers[..0] == [];
  }

  lemma {:induction false} DoneTakesNothing(s: Scheme, key: nat, id: nat, c: Call, inputs: seq<Input>)
    requires Done(c.phase)
    ensures TakeAll(s, key, id, c, inputs) == c
  {
    if inputs == [] {
    } else {
      DoneTakesNothing(s, key, id, c, inputs[..|inputs| - 1]);
    }
  }

  /** So in any run that answers a new call as `answers` does, until it is done,
      the call ends as the method ends, and the log shows what the method
      pushed. */
  lemma CallInRun(w: World, st: System, i: nat, moves: seq<Move>, answers: seq<Answers>)
    requires PhaseOf(st, i) == Some(Reading(0)) && PublishedBy(st.log, i) == []
    requires InputsOf(w, st, i, moves) <= InputsFrom(answers)
    requires var end := Run(w, st, moves);
      InputsOf(w, st, i, moves) == InputsFrom(answers) || (i in end.phases && Done(end.phases[i]))
    ensures var end := Run(w, st, moves);
      PhaseOf(end, i) == Some(After(w.scheme, w.keyOf(i), i, answers).phase) &&
      PublishedBy(end.log, i) == After(w.scheme, w.keyOf(i), i, answers).published
  {
    hide Run, InputsOf, InputsFrom, TakeAll, PublishedBy;
    var taken, all := InputsOf(w, st, i, moves), InputsFrom(answers);
    CallFollowsAnswers(w, st, i, moves);
    var c := TakeAll(w.scheme, w.keyOf(i), i, CallOf(st, i), taken);
    assert all == taken + all[|taken|..];
    TakenInTwo(w.scheme, w.keyOf(i), i, CallOf(st, i), taken, all[|taken|..]);
    if taken == all {
      assert all[|taken|..] == [];
      TakesNone(w.scheme, w.keyOf(i), i, c);
    } else {
      DoneTakesNothing(w.scheme, w.keyOf(i), i, c, all[|taken|..]);
    }
  }

  lemma TakesNone(s: Scheme, key: nat, id: nat, c: Call)
    ensures TakeAll(s, key, id, c, []) == c
  {
  }
}
