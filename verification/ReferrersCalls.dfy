/** One publication within a run of the protocol (go-shim/referrers.go): with the
    lock held, whatever the others try, it goes where its own answers take it,
    and the method that makes it goes exactly there. */
module ReferrersCalls {
  import opened Wrappers
  import opened ReferrersIndex
  import opened ReferrersProtocol

  predicate Ended(phase: Phase) {
    phase.Native? || phase.Listed? || phase.Failed?
  }

  /** Moves of the other publications. */
  predicate Others(i: nat, moves: seq<Move>) {
    forall k | 0 <= k < |moves| :: moves[k].i != i
  }

  predicate NobodyLocks(moves: seq<Move>) {
    forall k | 0 <= k < |moves| :: !moves[k].Lock?
  }

  /** While i holds the lock, or nobody does and nobody takes it, others change
      no index. */
  lemma OtherStep(w: World, st: System, i: nat, m: Move)
    requires Inv(w, st) && i in st.phases && m.i != i
    ensures PhaseOf(Step(w, st, m), i) == PhaseOf(st, i)
    ensures Locked(st.phases[i]) || (st.holder == None && !m.Lock?) ==>
      Step(w, st, m).indexes == st.indexes && Step(w, st, m).holder == st.holder
  {
    hide Lists, IsSortOf;
    assert GoodPhase(w, st, i, st.phases[i]);
    if m.i in st.phases {
      assert GoodPhase(w, st, m.i, st.phases[m.i]);
    }
  }

  lemma {:induction false} OthersRun(w: World, st: System, i: nat, moves: seq<Move>)
    requires Inv(w, st) && i in st.phases && Others(i, moves)
    ensures var end := Run(w, st, moves);
      Inv(w, end) && PhaseOf(end, i) == PhaseOf(st, i) &&
      (Locked(st.phases[i]) || (st.holder == None && NobodyLocks(moves)) ==>
       end.indexes == st.indexes && end.holder == st.holder)
    decreases |moves|
  {
    hide Inv, Step, Locked;
    if moves == [] {
    } else {
      var next := Step(w, st, moves[0]);
      OtherStep(w, st, i, moves[0]);
      StepKeeps(w, st, moves[0]);
      assert Others(i, moves[1..]);
      assert NobodyLocks(moves) ==> NobodyLocks(moves[1..]);
      OthersRun(w, next, i, moves[1..]);
    }
  }

  lemma EndedStep(w: World, st: System, m: Move)
    requires m.i in st.phases && Ended(st.phases[m.i])
    ensures Step(w, st, m) == st
  {
    hide Lists, IsSortOf;
  }

  /** Where a publication stands, for one that is under the lock or over. */
  datatype View = View(phase: Phase, indexes: map<string, seq<Entry>>)

  ghost predicate Seen(w: World, st: System, i: nat, v: View, quiet: bool) {
    Inv(w, st) && PhaseOf(st, i) == Some(v.phase) &&
    (if Ended(v.phase) then quiet ==> st.holder == None && st.indexes == v.indexes
     else Locked(v.phase) && st.indexes == v.indexes)
  }

  lemma SeenByOthers(w: World, st: System, i: nat, moves: seq<Move>, v: View, quiet: bool)
    requires Seen(w, st, i, v, quiet) && Others(i, moves) && (quiet ==> NobodyLocks(moves))
    ensures Seen(w, Run(w, st, moves), i, v, quiet)
  {
    hide Inv, Run;
    OthersRun(w, st, i, moves);
  }

  /** The view after a move of i's own. */
  function Next(w: World, i: nat, v: View, m: Move): View {
    var tag, artifact := w.tagOf(i), w.artifactOf(i);
    var listed := Lists(IndexIn(v.indexes, tag), artifact.digest);
    match (v.phase, m)
    case (Appending(attempt), Read(_, answered)) =>
      v.(phase := if !answered then Failed else if listed then Listed else Pushing(attempt, IndexIn(v.indexes, tag)))
    case (Pushing(attempt, base), Push(_, order, outcome)) =>
      if !IsSortOf(order, base + [artifact]) then v
      else if w.encodedSize(order) > MAX_MANIFEST_BYTES || outcome == Lost then v.(phase := Failed)
      else View(if outcome == Accepted then Confirming(attempt) else Failed, v.indexes[tag := order])
    case (Confirming(attempt), Confirm(_, answered)) =>
      v.(phase := if !answered then Failed else if listed then Listed
                  else if attempt + 1 < ATTEMPTS then Appending(attempt + 1) else Failed)
    case _ => v
  }

  lemma OwnStep(w: World, st: System, i: nat, m: Move, v: View, quiet: bool)
    requires Seen(w, st, i, v, quiet) && m.i == i && !m.Start? && !m.ProbeNative? && !m.Lock?
    ensures Seen(w, Step(w, st, m), i, Next(w, i, v, m), quiet)
  {
    hide Lists, IsSortOf, Inv;
    StepKeeps(w, st, m);
    if Ended(v.phase) {
      EndedStep(w, st, m);
    }
  }

  /** One publication's three moves, answered as `a`, with anything of others
      before and between them. */
  function Publication(w: World, st: System, i: nat, a: Answers, first: seq<Move>, second: seq<Move>,
        third: seq<Move>): seq<Move> {
    first + [Read(i, a.read)] + second + [Push(i, Extended(st.indexes, w.tagOf(i), w.artifactOf(i)), a.put)] +
    third + [Confirm(i, a.confirm)]
  }

  lemma OneMove(w: World, st: System, m: Move)
    ensures Run(w, st, [m]) == Step(w, st, m)
  {
    assert [m][1..] == [];
  }

  /** Others, then one own move. */
  lemma OneTurn(w: World, st: System, i: nat, moves: seq<Move>, m: Move, v: View, quiet: bool)
    requires Seen(w, st, i, v, quiet) && Others(i, moves) && (quiet ==> NobodyLocks(moves))
    requires m.i == i && !m.Start? && !m.ProbeNative? && !m.Lock?
    ensures Seen(w, Run(w, st, moves + [m]), i, Next(w, i, v, m), quiet)
  {
    hide Seen, Run, Step;
    SeenByOthers(w, st, i, moves, v, quiet);
    OwnStep(w, Run(w, st, moves), i, m, v, quiet);
    RunConcat(w, st, moves, [m]);
    OneMove(w, Run(w, st, moves), m);
  }

  lemma ThreeMoves(w: World, i: nat, indexes: map<string, seq<Entry>>, a: Answers)
    ensures var tag, artifact := w.tagOf(i), w.artifactOf(i);
      var order := Extended(indexes, tag, artifact);
      var (after, ok) := AfterPublication(indexes, tag, artifact, w.encodedSize(order), a);
      Next(w, i, Next(w, i, Next(w, i, View(Appending(0), indexes), Read(i, a.read)), Push(i, order, a.put)),
           Confirm(i, a.confirm)) == View(if ok then Listed else Failed, after)
  {
    hide Lists, IsSortOf, Extended;
    var tag, artifact := w.tagOf(i), w.artifactOf(i);
    var order := Extended(indexes, tag, artifact);
    ExtendedLists(indexes, tag, artifact);
    ExtendedSorts(indexes, tag, artifact);
    var read := Next(w, i, View(Appending(0), indexes), Read(i, a.read));
    assert read == View(if !a.read then Failed else if Lists(IndexIn(indexes, tag), artifact.digest) then Listed
                        else Pushing(0, IndexIn(indexes, tag)), indexes);
    var pushed := Next(w, i, read, Push(i, order, a.put));
    assert Puts(indexes, tag, artifact, w.encodedSize(order), a) ==>
      pushed == View(if a.put.Accepted? then Confirming(0) else Failed, indexes[tag := order]);
  }

  lemma ExtendedSorts(indexes: map<string, seq<Entry>>, tag: string, artifact: Entry)
    ensures IsSortOf(Extended(indexes, tag, artifact), IndexIn(indexes, tag) + [artifact])
  {
    SortSorts(IndexIn(indexes, tag) + [artifact]);
  }

  /** In any state that keeps the invariant, a publication that has the lock and
      is answered as `a` ends as the method ends, however the others interleave;
      and if none of them takes the lock after it, the indexes are the method's,
      too. */
  lemma PublicationInRun(w: World, st: System, i: nat, a: Answers, first: seq<Move>, second: seq<Move>,
        third: seq<Move>)
    requires Inv(w, st) && PhaseOf(st, i) == Some(Appending(0))
    requires Others(i, first) && Others(i, second) && Others(i, third)
    ensures var tag, artifact := w.tagOf(i), w.artifactOf(i);
      var (after, ok) := AfterPublication(st.indexes, tag, artifact,
                           w.encodedSize(Extended(st.indexes, tag, artifact)), a);
      var end := Run(w, st, Publication(w, st, i, a, first, second, third));
      PhaseOf(end, i) == Some(if ok then Listed else Failed) &&
      (NobodyLocks(first + second + third) ==> end.indexes == after)
  {
    hide Run, Step, Next, Inv, AfterPublication, Extended;
    var quiet := NobodyLocks(first + second + third);
    if quiet {
      AllQuiet(first, second, third);
    }
    var order := Extended(st.indexes, w.tagOf(i), w.artifactOf(i));
    var v := View(Appending(0), st.indexes);
    var m1, m2, m3 := Read(i, a.read), Push(i, order, a.put), Confirm(i, a.confirm);
    OneTurn(w, st, i, first, m1, v, quiet);
    var s1 := Run(w, st, first + [m1]);
    OneTurn(w, s1, i, second, m2, Next(w, i, v, m1), quiet);
    var s2 := Run(w, s1, second + [m2]);
    OneTurn(w, s2, i, third, m3, Next(w, i, Next(w, i, v, m1), m2), quiet);
    RunConcat(w, st, first + [m1], second + [m2]);
    RunConcat(w, st, first + [m1] + (second + [m2]), third + [m3]);
    assert Publication(w, st, i, a, first, second, third) == first + [m1] + (second + [m2]) + (third + [m3]);
    ThreeMoves(w, i, st.indexes, a);
  }

  lemma AllQuiet(first: seq<Move>, second: seq<Move>, third: seq<Move>)
    requires NobodyLocks(first + second + third)
    ensures NobodyLocks(first) && NobodyLocks(second) && NobodyLocks(third)
  {
    var all := first + second + third;
    assert forall k | 0 <= k < |first| :: all[k] == first[k];
    assert forall k | 0 <= k < |second| :: all[|first| + k] == second[k];
    assert forall k | 0 <= k < |third| :: all[|first| + |second| + k] == third[k];
  }
}
