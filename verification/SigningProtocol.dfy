/** Any number of signers appending to one signature tag that has no
    compare-and-swap (go-shim/sigstore.go): their reads, pushes and confirming
    reads interleave in any order, and the tag may be removed at any time. */
module SigningProtocol {
  import opened Wrappers
  import opened Signatures

  const ATTEMPTS := 3

  /** Where one call of `signManifest` is. */
  datatype Phase =
    | Reading(attempt: nat)
    | Pushing(attempt: nat, base: seq<Layer>)
    | Confirming(attempt: nat)
    | Success
    | Failed

  /** What happened at the registry, oldest first. */
  datatype Event =
    | WasRead(signer: nat, seen: Option<Artifact>)
    | WasPublished(signer: nat, artifact: Artifact)

  /** The tag, the calls in progress, and the history. Signers are numbered;
      several may hold one key. */
  datatype System = System(tag: Option<Artifact>, phases: map<nat, Phase>, log: seq<Event>)

  datatype Outcome = Accepted | Lost | Unacknowledged

  /** One step: a call starts; it reads, perhaps finding nothing although there
      is something; it pushes, and may not learn that it did; it confirms; it
      fails; or someone removes the tag. */
  datatype Move =
    | Start(signer: nat)
    | Read(signer: nat, found: bool)
    | Push(signer: nat, outcome: Outcome)
    | Confirm(signer: nat, found: bool)
    | Fail(signer: nat)
    | Remove

  /** The signature scheme and which key each signer holds. */
  datatype World = World(scheme: Scheme, keyOf: nat -> nat)

  function PhaseOf(st: System, i: nat): Option<Phase> {
    if i in st.phases then Some(st.phases[i]) else None
  }

  function Seen(st: System, found: bool): Option<Artifact> {
    if found then st.tag else None
  }

  function With(st: System, i: nat, phase: Phase, events: seq<Event>): System {
    st.(phases := st.phases[i := phase], log := st.log + events)
  }

  // ----- what one call does next -----

  function PhaseAfterRead(s: Scheme, key: nat, attempt: nat, seen: Option<Artifact>): Phase {
    match Decide(s, key, seen)
    case AlreadySigned => Success
    case Rejected => Failed
    case Append(base) => Pushing(attempt, base)
  }

  function PhaseAfterPush(attempt: nat, outcome: Outcome): Phase {
    if outcome.Accepted? then Confirming(attempt) else Failed
  }

  function PhaseAfterConfirm(s: Scheme, key: nat, attempt: nat, seen: Option<Artifact>): Phase {
    match Signatures.Confirm(s, key, seen)
    case Landed => Success
    case Unanswered => Failed
    case Missing => if attempt + 1 < ATTEMPTS then Reading(attempt + 1) else Failed
  }

  // ----- what a step does to the system -----

  function AfterRead(w: World, st: System, i: nat, attempt: nat, seen: Option<Artifact>): System {
    With(st, i, PhaseAfterRead(w.scheme, w.keyOf(i), attempt, seen), [WasRead(i, seen)])
  }

  function AfterPush(w: World, st: System, i: nat, attempt: nat, base: seq<Layer>, outcome: Outcome): System {
    var artifact := Appended(w.scheme, w.keyOf(i), i, base);
    var phase := PhaseAfterPush(attempt, outcome);
    if outcome.Lost? then With(st, i, phase, [])
    else With(st, i, phase, [WasPublished(i, artifact)]).(tag := Some(artifact))
  }

  function AfterConfirm(w: World, st: System, i: nat, attempt: nat, seen: Option<Artifact>): System {
    With(st, i, PhaseAfterConfirm(w.scheme, w.keyOf(i), attempt, seen), [WasRead(i, seen)])
  }

  /** A move that is not enabled changes nothing. */
  function Step(w: World, st: System, m: Move): System {
    match m
    case Start(i) => if i in st.phases then st else With(st, i, Reading(0), [])
    case Read(i, found) =>
      (match PhaseOf(st, i)
       case Some(Reading(attempt)) => AfterRead(w, st, i, attempt, Seen(st, found))
       case _ => st)
    case Push(i, outcome) =>
      (match PhaseOf(st, i)
       case Some(Pushing(attempt, base)) => AfterPush(w, st, i, attempt, base, outcome)
       case _ => st)
    case Confirm(i, found) =>
      (match PhaseOf(st, i)
       case Some(Confirming(attempt)) => AfterConfirm(w, st, i, attempt, Seen(st, found))
       case _ => st)
    case Fail(i) =>
      (match PhaseOf(st, i)
       case Some(Success) => st
       case Some(_) => With(st, i, Failed, [])
       case None => st)
    case Remove => st.(tag := None)
  }

  function Run(w: World, st: System, moves: seq<Move>): System {
    if moves == [] then st else Step(w, Run(w, st, moves[..|moves| - 1]), moves[|moves| - 1])
  }

  function Initial(tag: Option<Artifact>): System {
    System(tag, map[], [])
  }

  // ----- what every reachable state keeps -----

  /** At most one layer a key verifies. */
  ghost predicate OnePerKey(s: Scheme, layers: seq<Layer>) {
    forall key, i, j | 0 <= i < j < |layers| :: !(Verifies(s, key, layers[i]) && Verifies(s, key, layers[j]))
  }

  ghost predicate WellFormed(s: Scheme, layers: seq<Layer>) {
    |layers| <= MAX_SIGNATURES && OnePerKey(s, layers)
  }

  /** What a tag can have held: nothing, what it held first, or something
      published. */
  ghost predicate WasHeld(first: Option<Artifact>, log: seq<Event>, held: Option<Artifact>) {
    held == None || held == first || exists e | e in log :: e.WasPublished? && held == Some(e.artifact)
  }

  /** What i read last. */
  function LastRead(log: seq<Event>, i: nat): Option<Option<Artifact>> {
    if log == [] then None
    else
      var e := log[|log| - 1];
      if e.WasRead? && e.signer == i then Some(e.seen) else LastRead(log[..|log| - 1], i)
  }

  ghost predicate HasRead(log: seq<Event>, i: nat, layers: seq<Layer>) {
    match LastRead(log, i)
    case Some(seen) => LayersOf(seen) == layers
    case None => false
  }

  /** Publishing adds exactly one layer, the publisher's own, to the artifact
      the publisher read last; reading sees what the tag once held. */
  ghost predicate GoodEvent(w: World, first: Option<Artifact>, before: seq<Event>, e: Event) {
    match e
    case WasRead(_, seen) => WasHeld(first, before, seen)
    case WasPublished(i, artifact) =>
      LastRead(before, i).Some? &&
      Extends(w, i, LayersOf(LastRead(before, i).value), artifact)
  }

  ghost predicate Extends(w: World, i: nat, base: seq<Layer>, artifact: Artifact) {
    artifact.layers == base + [OwnLayer(w.scheme, w.keyOf(i), i)] &&
    !SignedBy(w.scheme, w.keyOf(i), base) &&
    WellFormed(w.scheme, artifact.layers)
  }

  ghost predicate GoodLog(w: World, first: Option<Artifact>, log: seq<Event>) {
    forall k | 0 <= k < |log| :: GoodEvent(w, first, log[..k], log[k])
  }

  /** A read of i's own that saw a layer its key verifies. */
  ghost predicate Witnessed(w: World, log: seq<Event>, i: nat) {
    exists e | e in log :: e.WasRead? && e.signer == i && SignedBy(w.scheme, w.keyOf(i), LayersOf(e.seen))
  }

  ghost predicate GoodPhase(w: World, log: seq<Event>, i: nat, phase: Phase) {
    match phase
    case Pushing(attempt, base) =>
      attempt < ATTEMPTS && HasRead(log, i, base) && |base| < MAX_SIGNATURES &&
      OnePerKey(w.scheme, base) && !SignedBy(w.scheme, w.keyOf(i), base)
    case Success => Witnessed(w, log, i)
    case Reading(attempt) => attempt < ATTEMPTS
    case Confirming(attempt) => attempt < ATTEMPTS
    case Failed => true
  }

  ghost predicate Inv(w: World, first: Option<Artifact>, st: System) {
    && WellFormed(w.scheme, LayersOf(st.tag))
    && WasHeld(first, st.log, st.tag)
    && GoodLog(w, first, st.log)
    && forall i | i in st.phases :: GoodPhase(w, st.log, i, st.phases[i])
  }

  // ----- one step keeps it -----

  lemma PhaseStays(w: World, log: seq<Event>, e: Event, i: nat, phase: Phase)
    requires GoodPhase(w, log, i, phase) && e.signer != i
    ensures GoodPhase(w, log + [e], i, phase)
  {
  }

  lemma HeldStays(first: Option<Artifact>, log: seq<Event>, e: Event, held: Option<Artifact>)
    requires WasHeld(first, log, held)
    ensures WasHeld(first, log + [e], held)
  {
  }

  lemma {:induction false} LogGrows(w: World, first: Option<Artifact>, log: seq<Event>, e: Event)
    requires GoodLog(w, first, log) && GoodEvent(w, first, log, e)
    ensures GoodLog(w, first, log + [e])
  {
    hide GoodEvent;
    forall k | 0 <= k < |log + [e]| ensures GoodEvent(w, first, (log + [e])[..k], (log + [e])[k]) {
      assert (log + [e])[..k] == log[..k];
      assert log[..|log|] == log;
    }
  }

  /** Adding the signer's layer to an artifact without one keeps one per key. */
  lemma AppendedWellFormed(s: Scheme, key: nat, call: nat, base: seq<Layer>)
    requires Sound(s) && OnePerKey(s, base) && !SignedBy(s, key, base) && |base| < MAX_SIGNATURES
    ensures WellFormed(s, base + [OwnLayer(s, key, call)])
  {
  }

  lemma OwnVerifies(s: Scheme, key: nat, call: nat)
    requires Sound(s)
    ensures OwnLayer(s, key, call).cosign && Verifies(s, key, OwnLayer(s, key, call))
  {
  }

  /** A step that adds one event and changes one phase. */
  lemma {:induction false} EventKeeps(w: World, first: Option<Artifact>, st: System, i: nat, phase: Phase, e: Event)
    requires Inv(w, first, st)
    requires e.signer == i && GoodEvent(w, first, st.log, e) && GoodPhase(w, st.log + [e], i, phase)
    ensures Inv(w, first, With(st, i, phase, [e]))
  {
    hide GoodEvent, GoodPhase, GoodLog, WellFormed, WasHeld;
    LogGrows(w, first, st.log, e);
    HeldStays(first, st.log, e, st.tag);
    forall k | k in st.phases && k != i ensures GoodPhase(w, st.log + [e], k, st.phases[k]) {
      PhaseStays(w, st.log, e, k, st.phases[k]);
    }
  }

  lemma QuietKeeps(w: World, first: Option<Artifact>, st: System, i: nat, phase: Phase)
    requires Inv(w, first, st) && GoodPhase(w, st.log, i, phase)
    ensures Inv(w, first, With(st, i, phase, []))
  {
    hide GoodPhase, GoodLog, WellFormed, WasHeld;
    assert st.log + [] == st.log;
  }

  lemma {:induction false} ReadKeeps(w: World, first: Option<Artifact>, st: System, i: nat, attempt: nat, found: bool)
    requires Inv(w, first, st) && attempt < ATTEMPTS
    ensures Inv(w, first, AfterRead(w, st, i, attempt, Seen(st, found)))
  {
    hide GoodLog, Plausible, Verifies;
    var seen := Seen(st, found);
    var e := WasRead(i, seen);
    assert e in st.log + [e];
    EventKeeps(w, first, st, i, PhaseAfterRead(w.scheme, w.keyOf(i), attempt, seen), e);
  }

  lemma {:induction false} ConfirmKeeps(w: World, first: Option<Artifact>, st: System, i: nat, attempt: nat, found: bool)
    requires Inv(w, first, st) && attempt < ATTEMPTS
    ensures Inv(w, first, AfterConfirm(w, st, i, attempt, Seen(st, found)))
  {
    hide GoodLog, Plausible, Verifies, WellFormed;
    var seen := Seen(st, found);
    var e := WasRead(i, seen);
    assert e in st.log + [e];
    EventKeeps(w, first, st, i, PhaseAfterConfirm(w.scheme, w.keyOf(i), attempt, seen), e);
  }

  lemma {:induction false} PushKeeps(w: World, first: Option<Artifact>, st: System, i: nat, attempt: nat,
        base: seq<Layer>, outcome: Outcome)
    requires Sound(w.scheme) && Inv(w, first, st) && GoodPhase(w, st.log, i, Pushing(attempt, base))
    ensures Inv(w, first, AfterPush(w, st, i, attempt, base, outcome))
  {
    hide GoodLog, WellFormed, OnePerKey, SignedBy;
    if outcome.Lost? {
      QuietKeeps(w, first, st, i, Failed);
    } else {
      var artifact := Appended(w.scheme, w.keyOf(i), i, base);
      var e := WasPublished(i, artifact);
      AppendedWellFormed(w.scheme, w.keyOf(i), i, base);
      EventKeeps(w, first, st, i, PhaseAfterPush(attempt, outcome), e);
      assert e in st.log + [e];
    }
  }

  lemma {:induction false} StepKeeps(w: World, first: Option<Artifact>, st: System, m: Move)
    requires Sound(w.scheme) && Inv(w, first, st)
    ensures Inv(w, first, Step(w, st, m))
  {
    hide GoodLog, AfterRead, AfterPush, AfterConfirm, Sound, OnePerKey, SignedBy;
    match m
    case Start(i) =>
      if i !in st.phases { QuietKeeps(w, first, st, i, Reading(0)); }
    case Read(i, found) =>
      match PhaseOf(st, i) {
        case Some(Reading(attempt)) => ReadKeeps(w, first, st, i, attempt, found);
        case _ =>
      }
    case Push(i, outcome) =>
      match PhaseOf(st, i) {
        case Some(Pushing(attempt, base)) => PushKeeps(w, first, st, i, attempt, base, outcome);
        case _ =>
      }
    case Confirm(i, found) =>
      match PhaseOf(st, i) {
        case Some(Confirming(attempt)) => ConfirmKeeps(w, first, st, i, attempt, found);
        case _ =>
      }
    case Fail(i) =>
      if i in st.phases && st.phases[i] != Success { QuietKeeps(w, first, st, i, Failed); }
    case Remove =>
      assert OnePerKey(w.scheme, []) by { NothingPerKey(w.scheme); }
  }

  lemma NothingPerKey(s: Scheme)
    ensures OnePerKey(s, [])
  {
  }

  lemma {:induction false} RunKeeps(w: World, first: Option<Artifact>, moves: seq<Move>)
    requires Sound(w.scheme) && WellFormed(w.scheme, LayersOf(first))
    ensures Inv(w, first, Run(w, Initial(first), moves))
  {
    if moves == [] {
    } else {
      hide Inv, Sound, Step, WellFormed;
      RunKeeps(w, first, moves[..|moves| - 1]);
      StepKeeps(w, first, Run(w, Initial(first), moves[..|moves| - 1]), moves[|moves| - 1]);
    }
  }

  // ----- what that means -----

  /** Every artifact ever published, over any interleaving of any number of
      signers, is what its publisher read last plus the publisher's own layer,
      has at most one layer per key and at most 64 layers. */
  lemma PublishedExtendsRead(w: World, first: Option<Artifact>, moves: seq<Move>, k: nat)
    requires Sound(w.scheme) && WellFormed(w.scheme, LayersOf(first))
    requires var log := Run(w, Initial(first), moves).log;
      k < |log| && log[k].WasPublished?
    ensures var log := Run(w, Initial(first), moves).log;
      var i := log[k].signer;
      LastRead(log[..k], i).Some? &&
      log[k].artifact.layers == LayersOf(LastRead(log[..k], i).value) + [OwnLayer(w.scheme, w.keyOf(i), i)] &&
      |log[k].artifact.layers| <= 64 &&
      OnePerKey(w.scheme, log[k].artifact.layers)
  {
    hide Run, Sound, OnePerKey;
    RunKeeps(w, first, moves);
  }

  /** A signer reports success only after a read of its own showed a layer that
      its key verifies: signed, by that key, and over a payload that claims this
      type, digest and repository. */
  lemma SuccessIsWitnessed(w: World, first: Option<Artifact>, moves: seq<Move>, i: nat)
    requires Sound(w.scheme) && WellFormed(w.scheme, LayersOf(first))
    requires PhaseOf(Run(w, Initial(first), moves), i) == Some(Success)
    ensures exists e | e in Run(w, Initial(first), moves).log ::
      e.WasRead? && e.signer == i && SignedBy(w.scheme, w.keyOf(i), LayersOf(e.seen))
    ensures exists e, layer | e in Run(w, Initial(first), moves).log && e.WasRead? && layer in LayersOf(e.seen) ::
      e.signer == i && layer.signature != "" && w.scheme.claims(layer.payload) &&
      w.scheme.accepts(w.keyOf(i), layer.payload, layer.signature)
  {
    hide Run, Sound, WellFormed, GoodLog;
    RunKeeps(w, first, moves);
    var log := Run(w, Initial(first), moves).log;
    var e :| e in log && e.WasRead? && e.signer == i && SignedBy(w.scheme, w.keyOf(i), LayersOf(e.seen));
    var n :| 0 <= n < |LayersOf(e.seen)| && Verifies(w.scheme, w.keyOf(i), LayersOf(e.seen)[n]);
    assert LayersOf(e.seen)[n] in LayersOf(e.seen);
  }

  /** Where a layer can come from: the first artifact, or a signer that
      published it. */
  ghost predicate HasOrigin(w: World, first: Option<Artifact>, log: seq<Event>, layer: Layer) {
    layer in LayersOf(first) || exists e | e in log :: e.WasPublished? && layer == OwnLayer(w.scheme, w.keyOf(e.signer), e.signer)
  }

  ghost predicate Accounted(w: World, first: Option<Artifact>, log: seq<Event>, layers: seq<Layer>) {
    forall layer | layer in layers :: HasOrigin(w, first, log, layer)
  }

  lemma {:induction false} LastReadHeld(w: World, first: Option<Artifact>, log: seq<Event>, i: nat)
    requires GoodLog(w, first, log) && LastRead(log, i).Some?
    ensures WasHeld(first, log, LastRead(log, i).value)
  {
    var n := |log| - 1;
    assert GoodEvent(w, first, log[..n], log[n]);
    if log[n].WasRead? && log[n].signer == i {
    } else {
      PrefixGood(w, first, log, n);
      LastReadHeld(w, first, log[..n], i);
    }
    assert forall e | e in log[..n] :: e in log;
  }

  lemma PrefixGood(w: World, first: Option<Artifact>, log: seq<Event>, n: nat)
    requires GoodLog(w, first, log) && n <= |log|
    ensures GoodLog(w, first, log[..n])
  {
    hide GoodEvent;
    forall k | 0 <= k < n ensures GoodEvent(w, first, log[..n][..k], log[..n][k]) {
      assert log[..n][..k] == log[..k];
    }
  }

  lemma {:induction false} EveryLayerAccounted(w: World, first: Option<Artifact>, log: seq<Event>, k: nat)
    requires GoodLog(w, first, log) && k < |log| && log[k].WasPublished?
    ensures Accounted(w, first, log, log[k].artifact.layers)
    decreases k
  {
    hide SignedBy, WellFormed;
    var e := log[k];
    assert GoodEvent(w, first, log[..k], e);
    var seen := LastRead(log[..k], e.signer).value;
    PrefixGood(w, first, log, k);
    LastReadHeld(w, first, log[..k], e.signer);
    HeldAccounted(w, first, log, k, seen);
  }

  lemma HeldFirst(w: World, first: Option<Artifact>, log: seq<Event>)
    ensures Accounted(w, first, log, LayersOf(first))
  {
  }

  lemma {:induction false} HeldAccounted(w: World, first: Option<Artifact>, log: seq<Event>, k: nat, held: Option<Artifact>)
    requires GoodLog(w, first, log) && k <= |log| && WasHeld(first, log[..k], held)
    ensures Accounted(w, first, log, LayersOf(held))
    decreases k, 0
  {
    hide GoodLog, HasOrigin;
    if held == None {
    } else if held == first {
      HeldFirst(w, first, log);
    } else {
      var e :| e in log[..k] && e.WasPublished? && held == Some(e.artifact);
      var j :| 0 <= j < k && log[..k][j] == e;
      EveryLayerAccounted(w, first, log, j);
    }
  }

  /** No signature is invented or changed: every layer of every published
      artifact was there at first or was added by a signer as its own. */
  lemma NothingInvented(w: World, first: Option<Artifact>, moves: seq<Move>, k: nat)
    requires Sound(w.scheme) && WellFormed(w.scheme, LayersOf(first))
    requires var log := Run(w, Initial(first), moves).log;
      k < |log| && log[k].WasPublished?
    ensures var log := Run(w, Initial(first), moves).log;
      forall layer | layer in log[k].artifact.layers :: HasOrigin(w, first, log, layer)
  {
    hide Run, Sound, WellFormed, GoodLog;
    RunKeeps(w, first, moves);
    EveryLayerAccounted(w, first, Run(w, Initial(first), moves).log, k);
  }

  // ----- a signer nobody disturbs -----

  lemma OwnIsVerified(s: Scheme, key: nat, call: nat, base: seq<Layer>)
    requires Sound(s)
    ensures Verified(s, key, base + [OwnLayer(s, key, call)])
  {
    OwnVerifies(s, key, call);
    var layers := base + [OwnLayer(s, key, call)];
    assert layers[|base|] == OwnLayer(s, key, call);
  }

  /** Read, push and confirm without interference: the call succeeds and the
      tag has exactly one layer more. */
  lemma UndisturbedSigner(w: World, st: System, i: nat)
    requires Sound(w.scheme) && PhaseOf(st, i) == Some(Reading(0))
    requires st.tag.Some? ==> Plausible(st.tag.value)
    requires !SignedBy(w.scheme, w.keyOf(i), LayersOf(st.tag)) && |LayersOf(st.tag)| < 64
    requires Plausible(Appended(w.scheme, w.keyOf(i), i, LayersOf(st.tag)))
    ensures var end := Step(w, Step(w, Step(w, st, Read(i, true)), Push(i, Accepted)), Confirm(i, true));
      PhaseOf(end, i) == Some(Success) &&
      end.tag == Some(Appended(w.scheme, w.keyOf(i), i, LayersOf(st.tag))) &&
      forall j | j != i :: PhaseOf(end, j) == PhaseOf(st, j)
  {
    hide Sound, Plausible, Verifies, SignedBy, Verified;
    var base := LayersOf(st.tag);
    var afterRead := Step(w, st, Read(i, true));
    assert afterRead == With(st, i, Pushing(0, base), [WasRead(i, st.tag)]);
    var afterPush := Step(w, afterRead, Push(i, Accepted));
    OwnIsVerified(w.scheme, w.keyOf(i), i, base);
  }
}
