/** Why a call of `signManifest` tries again (go-shim/sigstore.go): every attempt
    whose confirmation does not show its key was disturbed between its own push
    and that read, so that a call out of attempts was disturbed three times. */
module SigningRetries {
  import opened Wrappers
  import opened Signatures
  import opened SigningProtocol

  /** A move that takes the key's signature off the tag: a removal, or a push by
      a signer with another key that did not read it. */
  predicate Harms(w: World, st: System, m: Move, key: nat) {
    match m
    case Remove => true
    case Push(j, outcome) =>
      PhaseOf(st, j).Some? && st.phases[j].Pushing? && !outcome.Lost? &&
      w.keyOf(j) != key && !Shows(w.scheme, key, true, st.phases[j].base)
    case _ => false
  }

  predicate Enabled(st: System, m: Move) {
    match m
    case Push(j, _) => PhaseOf(st, j).Some? && st.phases[j].Pushing?
    case Confirm(j, _) => PhaseOf(st, j).Some? && st.phases[j].Confirming?
    case _ => true
  }

  /** Whether i was harmed since its last push, and how many of its confirming
      reads so far came after harm or missed the tag. Each counts what happened
      since the push of its own attempt. */
  datatype Record = Record(harmed: bool, disturbed: nat)

  function Recorded(w: World, st: System, i: nat, r: Record, m: Move): Record {
    if m.Push? && m.signer == i && Enabled(st, m) then r.(harmed := false)
    else if Harms(w, st, m, w.keyOf(i)) then r.(harmed := true)
    else if m.Confirm? && m.signer == i && Enabled(st, m) && (r.harmed || !m.found) then
      r.(disturbed := r.disturbed + 1)
    else r
  }

  function Disturbances(w: World, st: System, i: nat, moves: seq<Move>): Record {
    if moves == [] then Record(false, 0)
    else
      var before := moves[..|moves| - 1];
      Recorded(w, Run(w, st, before), i, Disturbances(w, st, i, before), moves[|moves| - 1])
  }

  ghost predicate Counted(w: World, st: System, i: nat, r: Record) {
    match PhaseOf(st, i)
    case Some(Reading(attempt)) => attempt <= r.disturbed
    case Some(Pushing(attempt, _)) => attempt <= r.disturbed
    case Some(Confirming(attempt)) =>
      attempt <= r.disturbed && (r.harmed || Shows(w.scheme, w.keyOf(i), true, LayersOf(st.tag)))
    case _ => true
  }

  lemma PushCounted(w: World, st: System, i: nat, r: Record, j: nat, outcome: Outcome)
    requires Sound(w.scheme) && Counted(w, st, i, r)
    requires PhaseOf(st, j).Some? && st.phases[j].Pushing?
    ensures Counted(w, Step(w, st, Push(j, outcome)), i, Recorded(w, st, i, r, Push(j, outcome)))
  {
    hide Shows, Sound, Appended;
    AppendedShows(w.scheme, w.keyOf(i), true, w.keyOf(j), j, st.phases[j].base);
  }

  lemma ConfirmCounted(w: World, st: System, i: nat, r: Record, found: bool)
    requires Counted(w, st, i, r) && PhaseOf(st, i).Some? && st.phases[i].Confirming?
    ensures Counted(w, Step(w, st, SigningProtocol.Confirm(i, found)), i,
                    Recorded(w, st, i, r, SigningProtocol.Confirm(i, found)))
    ensures Signatures.Confirm(w.scheme, w.keyOf(i), Seen(st, found)) == Missing ==> r.harmed || !found
  {
    hide Shows, Plausible, Verified;
    ShowsBoth(w.scheme, w.keyOf(i), LayersOf(st.tag));
  }

  lemma StepCounted(w: World, st: System, i: nat, r: Record, m: Move)
    requires Sound(w.scheme) && Counted(w, st, i, r)
    ensures Counted(w, Step(w, st, m), i, Recorded(w, st, i, r, m))
  {
    hide Shows, Sound, Plausible, SignedBy, Signatures.Confirm, Appended;
    match m
    case Push(j, outcome) =>
      if Enabled(st, m) {
        PushCounted(w, st, i, r, j, outcome);
      }
    case Confirm(j, found) =>
      if j == i && Enabled(st, m) {
        ConfirmCounted(w, st, i, r, found);
      }
    case _ =>
  }

  lemma {:induction false} RunCounted(w: World, first: Option<Artifact>, i: nat, moves: seq<Move>)
    requires Sound(w.scheme)
    ensures Counted(w, Run(w, Initial(first), moves), i, Disturbances(w, Initial(first), i, moves))
  {
    hide Counted, Step, Recorded, Sound;
    if moves == [] {
      NotStarted(w, first, i);
    } else {
      var before := moves[..|moves| - 1];
      RunCounted(w, first, i, before);
      StepCounted(w, Run(w, Initial(first), before), i, Disturbances(w, Initial(first), i, before), moves[|moves| - 1]);
    }
  }

  lemma NotStarted(w: World, first: Option<Artifact>, i: nat)
    ensures Counted(w, Initial(first), i, Record(false, 0))
  {
  }

  /** A confirmation comes out missing only when, since the call's own push, the
      tag was removed or overwritten by a signer that had not read the key's
      signature, or the confirming read missed the tag. */
  lemma MissingMeansDisturbed(w: World, first: Option<Artifact>, i: nat, moves: seq<Move>, found: bool)
    requires Sound(w.scheme)
    requires var st := Run(w, Initial(first), moves);
      PhaseOf(st, i).Some? && st.phases[i].Confirming? &&
      Signatures.Confirm(w.scheme, w.keyOf(i), Seen(st, found)) == Missing
    ensures Disturbances(w, Initial(first), i, moves).harmed || !found
  {
    hide Run, Sound;
    RunCounted(w, first, i, moves);
    ConfirmCounted(w, Run(w, Initial(first), moves), i, Disturbances(w, Initial(first), i, moves), found);
  }

  /** A call that runs out of attempts was disturbed in every one of them. */
  lemma OutOfAttempts(w: World, first: Option<Artifact>, i: nat, moves: seq<Move>, found: bool)
    requires Sound(w.scheme)
    requires var st := Run(w, Initial(first), moves);
      PhaseOf(st, i) == Some(Confirming(2)) &&
      Signatures.Confirm(w.scheme, w.keyOf(i), Seen(st, found)) == Missing
    ensures var all := moves + [SigningProtocol.Confirm(i, found)];
      PhaseOf(Run(w, Initial(first), all), i) == Some(Failed) &&
      Disturbances(w, Initial(first), i, all).disturbed >= 3
  {
    hide Sound, Disturbances, Recorded, Run, Harms, Signatures.Confirm;
    var all := moves + [SigningProtocol.Confirm(i, found)];
    assert all[..|moves|] == moves;
    RunCounted(w, first, i, moves);
    MissingMeansDisturbed(w, first, i, moves, found);
    OneMoreRecorded(w, first, i, moves, found);
  }

  lemma OneMoreRecorded(w: World, first: Option<Artifact>, i: nat, moves: seq<Move>, found: bool)
    requires PhaseOf(Run(w, Initial(first), moves), i).Some? && Run(w, Initial(first), moves).phases[i].Confirming?
    ensures var m := SigningProtocol.Confirm(i, found);
      var st, r := Run(w, Initial(first), moves), Disturbances(w, Initial(first), i, moves);
      Run(w, Initial(first), moves + [m]) == Step(w, st, m) &&
      Disturbances(w, Initial(first), i, moves + [m]).disturbed == r.disturbed + (if r.harmed || !found then 1 else 0)
  {
    hide Step;
    assert (moves + [SigningProtocol.Confirm(i, found)])[..|moves|] == moves;
  }
}
