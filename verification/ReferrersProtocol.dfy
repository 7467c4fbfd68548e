/** Any number of publications at once (go-shim/referrers.go): they interleave
    freely except that the fallback part of each runs under one lock. Nobody
    outside the process writes the fallback tags. */
module ReferrersProtocol {
  import opened Wrappers
  import opened ReferrersIndex

  datatype Phase =
    | Probing
    | Waiting
    | Appending(attempt: nat)
    | Pushing(attempt: nat, base: seq<Entry>)
    | Confirming(attempt: nat)
    | Native
    | Listed
    | Failed

  /** The registry's fallback indexes, the publications and who holds the lock. */
  datatype System = System(indexes: map<string, seq<Entry>>, phases: map<nat, Phase>, holder: Option<nat>)

  datatype Probe = HasNative | HasNone | NoAnswer

  /** One step of one publication, or a new one. The lock is given back when
      its holder ends; `order` is whatever order the sort came up with. */
  datatype Move =
    | Start(i: nat)
    | ProbeNative(i: nat, answer: Probe)
    | Lock(i: nat)
    | Read(i: nat, answered: bool)
    | Push(i: nat, order: seq<Entry>, outcome: Outcome)
    | Confirm(i: nat, answered: bool)

  /** What each publication is about, and how large an index is when encoded. */
  datatype World = World(tagOf: nat -> string, artifactOf: nat -> Entry, encodedSize: seq<Entry> -> nat)

  function Index(st: System, tag: string): seq<Entry> {
    IndexIn(st.indexes, tag)
  }

  function PhaseOf(st: System, i: nat): Option<Phase> {
    if i in st.phases then Some(st.phases[i]) else None
  }

  function To(st: System, i: nat, phase: Phase): System {
    st.(phases := st.phases[i := phase])
  }

  /** The holder ends and unlocks. */
  function End(st: System, i: nat, phase: Phase): System {
    To(st, i, phase).(holder := None)
  }

  function Step(w: World, st: System, m: Move): System
  {
    var phase := PhaseOf(st, m.i);
    var tag, artifact := w.tagOf(m.i), w.artifactOf(m.i);
    match m
    case Start(i) => if phase == None then To(st, i, Probing) else st
    case ProbeNative(i, answer) =>
      if phase != Some(Probing) then st
      else To(st, i, match answer case HasNative => Native case HasNone => Waiting case NoAnswer => Failed)
    case Lock(i) =>
      if phase == Some(Waiting) && st.holder == None then To(st, i, Appending(0)).(holder := Some(i)) else st
    case Read(i, answered) =>
      if phase.None? || !phase.value.Appending? then st
      else if !answered then End(st, i, Failed)
      else if Lists(Index(st, tag), artifact.digest) then End(st, i, Listed)
      else To(st, i, Pushing(phase.value.attempt, Index(st, tag)))
    case Push(i, order, outcome) =>
      if phase.None? || !phase.value.Pushing? || !IsSortOf(order, phase.value.base + [artifact]) then st
      else if w.encodedSize(order) > MAX_MANIFEST_BYTES || outcome == Lost then End(st, i, Failed)
      else
        var put := st.(indexes := st.indexes[tag := order]);
        if outcome == Accepted then To(put, i, Confirming(phase.value.attempt)) else End(put, i, Failed)
    case Confirm(i, answered) =>
      if phase.None? || !phase.value.Confirming? then st
      else if !answered then End(st, i, Failed)
      else if Lists(Index(st, tag), artifact.digest) then End(st, i, Listed)
      else if phase.value.attempt + 1 < ATTEMPTS then To(st, i, Appending(phase.value.attempt + 1))
      else End(st, i, Failed)
  }

  function Run(w: World, st: System, moves: seq<Move>): System
    decreases |moves|
  {
    if moves == [] then st else Run(w, Step(w, st, moves[0]), moves[1..])
  }

  function Initial(indexes: map<string, seq<Entry>>): System {
    System(indexes, map[], None)
  }

  // ----- what every reachable state keeps -----

  predicate Locked(phase: Phase) {
    phase.Appending? || phase.Pushing? || phase.Confirming?
  }

  /** Only the holder is in the locked part, what it read is still there, what
      it pushed has landed, and no one ever comes to a second attempt. */
  ghost predicate GoodPhase(w: World, st: System, i: nat, phase: Phase) {
    var index, digest := Index(st, w.tagOf(i)), w.artifactOf(i).digest;
    && (Locked(phase) ==> st.holder == Some(i))
    && match phase
       case Appending(attempt) => attempt == 0
       case Pushing(attempt, base) => attempt == 0 && base == index && !Lists(index, digest)
       case Confirming(attempt) => attempt == 0 && Lists(index, digest)
       case Listed => Lists(index, digest)
       case _ => true
  }

  ghost predicate Inv(w: World, st: System) {
    forall i | i in st.phases :: GoodPhase(w, st, i, st.phases[i])
  }

  /** No entry of any index is lost, and good order survives. */
  ghost predicate Preserves(before: System, after: System) {
    forall tag :: IndexPreserved(Index(before, tag), Index(after, tag))
  }

  ghost predicate IndexPreserved(before: seq<Entry>, after: seq<Entry>) {
    && (forall e | e in before :: e in after)
    && (Sorted(before) ==> Sorted(after))
    && (NoDuplicates(before) ==> NoDuplicates(after))
  }

  lemma StillListed(before: seq<Entry>, after: seq<Entry>, digest: string)
    requires IndexPreserved(before, after) && Lists(before, digest)
    ensures Lists(after, digest)
  {
    var k :| 0 <= k < |before| && before[k].digest == digest;
    assert before[k] in after;
  }

  /** A push made by the holder. */
  lemma PutKeeps(w: World, st: System, i: nat, order: seq<Entry>)
    requires Inv(w, st) && i in st.phases && st.phases[i].Pushing?
    requires IsSortOf(order, st.phases[i].base + [w.artifactOf(i)])
    ensures var put := st.(indexes := st.indexes[w.tagOf(i) := order]);
      Preserves(st, put) && Lists(order, w.artifactOf(i).digest) &&
      forall k | k in st.phases && k != i :: GoodPhase(w, put, k, st.phases[k])
  {
    var tag, base := w.tagOf(i), st.phases[i].base;
    var put := st.(indexes := st.indexes[tag := order]);
    assert GoodPhase(w, st, i, st.phases[i]);
    AfterAppend(base, order, w.artifactOf(i));
    assert forall t | t != tag :: Index(put, t) == Index(st, t);
    forall k | k in st.phases && k != i ensures GoodPhase(w, put, k, st.phases[k]) {
      assert GoodPhase(w, st, k, st.phases[k]);
      if st.phases[k] == Listed && w.tagOf(k) == tag {
        StillListed(base, order, w.artifactOf(k).digest);
      }
    }
  }

  /** A step that leaves the indexes alone. */
  lemma ToKeeps(w: World, st: System, st': System, i: nat)
    requires Inv(w, st) && i in st'.phases && GoodPhase(w, st', i, st'.phases[i])
    requires st'.indexes == st.indexes && st'.phases.Keys == st.phases.Keys + {i}
    requires forall k | k in st.phases && k != i :: st'.phases[k] == st.phases[k]
    requires st'.holder == st.holder || forall k | k in st.phases && k != i :: !Locked(st.phases[k])
    ensures Inv(w, st')
  {
  }

  lemma OthersOutside(w: World, st: System, i: nat)
    requires Inv(w, st) && (st.holder == None || st.holder == Some(i))
    ensures forall k | k in st.phases && k != i :: !Locked(st.phases[k])
  {
  }

  lemma SamePreserved(st: System, st': System)
    requires st'.indexes == st.indexes
    ensures Preserves(st, st')
  {
  }

  lemma PushStepKeeps(w: World, st: System, i: nat, order: seq<Entry>, outcome: Outcome)
    requires Inv(w, st)
    ensures Inv(w, Step(w, st, Push(i, order, outcome))) && Preserves(st, Step(w, st, Push(i, order, outcome)))
  {
    hide Sorted, NoDuplicates, Lists, IndexPreserved;
    var st' := Step(w, st, Push(i, order, outcome));
    if st' == st || st'.indexes == st.indexes {
      SamePreserved(st, st');
      if st' != st {
        assert GoodPhase(w, st, i, st.phases[i]);
        OthersOutside(w, st, i);
        ToKeeps(w, st, st', i);
      }
    } else {
      PutKeeps(w, st, i, order);
      assert GoodPhase(w, st, i, st.phases[i]);
      OthersOutside(w, st, i);
      var put := st.(indexes := st.indexes[w.tagOf(i) := order]);
      forall k | k in st'.phases ensures GoodPhase(w, st', k, st'.phases[k]) {
        if k != i { assert GoodPhase(w, put, k, st.phases[k]); }
      }
    }
  }

  lemma StepKeeps(w: World, st: System, m: Move)
    requires Inv(w, st)
    ensures Inv(w, Step(w, st, m)) && Preserves(st, Step(w, st, m))
  {
    if m.Push? {
      PushStepKeeps(w, st, m.i, m.order, m.outcome);
    } else {
      hide Sorted, NoDuplicates, Lists, IndexPreserved, IsSortOf;
      var st' := Step(w, st, m);
      SamePreserved(st, st');
      if st' != st {
        if m.i in st.phases { assert GoodPhase(w, st, m.i, st.phases[m.i]); }
        if st.holder == None || st.holder == Some(m.i) { OthersOutside(w, st, m.i); }
        ToKeeps(w, st, st', m.i);
      }
    }
  }

  lemma PreservesTransitive(a: System, b: System, c: System)
    requires Preserves(a, b) && Preserves(b, c)
    ensures Preserves(a, c)
  {
  }

  lemma {:induction false} RunKeeps(w: World, st: System, moves: seq<Move>)
    requires Inv(w, st)
    ensures Inv(w, Run(w, st, moves)) && Preserves(st, Run(w, st, moves))
    decreases |moves|
  {
    hide Inv, Step;
    if moves == [] {
      SamePreserved(st, st);
    } else {
      var next := Step(w, st, moves[0]);
      StepKeeps(w, st, moves[0]);
      RunKeeps(w, next, moves[1..]);
      PreservesTransitive(st, next, Run(w, next, moves[1..]));
    }
  }

  lemma {:induction false} RunConcat(w: World, st: System, a: seq<Move>, b: seq<Move>)
    ensures Run(w, st, a + b) == Run(w, Run(w, st, a), b)
    decreases |a|
  {
    hide Step;
    if a == [] {
      assert a + b == b;
    } else {
      assert (a + b)[1..] == a[1..] + b;
      RunConcat(w, Step(w, st, a[0]), a[1..], b);
    }
  }

  // ----- what that means -----

  /** Serialised publication never loses an entry: what any index lists at some
      point it lists ever after, and one that is sorted or free of duplicates
      stays so, whatever happens in between. */
  lemma NothingLost(w: World, indexes: map<string, seq<Entry>>, past: seq<Move>, future: seq<Move>, tag: string)
    ensures var now, later := Run(w, Initial(indexes), past), Run(w, Initial(indexes), past + future);
      (forall e | e in Index(now, tag) :: e in Index(later, tag)) &&
      (Sorted(Index(now, tag)) ==> Sorted(Index(later, tag))) &&
      (NoDuplicates(Index(now, tag)) ==> NoDuplicates(Index(later, tag)))
  {
    hide Sorted, NoDuplicates, Inv;
    Fresh(w, indexes);
    RunKeeps(w, Initial(indexes), past);
    RunConcat(w, Initial(indexes), past, future);
    RunKeeps(w, Run(w, Initial(indexes), past), future);
    var now, later := Run(w, Initial(indexes), past), Run(w, Initial(indexes), past + future);
    assert IndexPreserved(Index(now, tag), Index(later, tag));
  }

  lemma Fresh(w: World, indexes: map<string, seq<Entry>>)
    ensures Inv(w, Initial(indexes))
  {
  }

  /** Once a publisher has returned success through the fallback, its digest is
      listed in every later state. */
  lemma ListedForGood(w: World, indexes: map<string, seq<Entry>>, past: seq<Move>, future: seq<Move>, i: nat)
    requires PhaseOf(Run(w, Initial(indexes), past), i) == Some(Listed)
    ensures Lists(Index(Run(w, Initial(indexes), past + future), w.tagOf(i)), w.artifactOf(i).digest)
  {
    hide Lists, Sorted, NoDuplicates, Preserves, IndexPreserved;
    var now, later := Run(w, Initial(indexes), past), Run(w, Initial(indexes), past + future);
    Fresh(w, indexes);
    RunKeeps(w, Initial(indexes), past);
    assert GoodPhase(w, now, i, now.phases[i]);
    KeepsListed(w, indexes, past, future, w.tagOf(i), w.artifactOf(i).digest);
  }

  lemma KeepsListed(w: World, indexes: map<string, seq<Entry>>, past: seq<Move>, future: seq<Move>,
        tag: string, digest: string)
    requires Lists(Index(Run(w, Initial(indexes), past), tag), digest)
    ensures Lists(Index(Run(w, Initial(indexes), past + future), tag), digest)
  {
    hide Sorted, NoDuplicates, Lists, Run;
    NothingLost(w, indexes, past, future, tag);
    StillListed(Index(Run(w, Initial(indexes), past), tag), Index(Run(w, Initial(indexes), past + future), tag), digest);
  }

  /** Nobody is ever overwritten: under the lock no publication reaches a second
      attempt. */
  lemma NoRetries(w: World, indexes: map<string, seq<Entry>>, moves: seq<Move>, i: nat)
    ensures match PhaseOf(Run(w, Initial(indexes), moves), i)
      case Some(Appending(attempt)) => attempt == 0
      case Some(Pushing(attempt, _)) => attempt == 0
      case Some(Confirming(attempt)) => attempt == 0
      case _ => true
  {
    hide Run, Lists;
    Fresh(w, indexes);
    RunKeeps(w, Initial(indexes), moves);
    var st := Run(w, Initial(indexes), moves);
    if i in st.phases { assert GoodPhase(w, st, i, st.phases[i]); }
  }

  /** At most one publication is in the locked part at a time. */
  lemma MutualExclusion(w: World, indexes: map<string, seq<Entry>>, moves: seq<Move>, i: nat, k: nat)
    requires var st := Run(w, Initial(indexes), moves);
      i in st.phases && k in st.phases && Locked(st.phases[i]) && Locked(st.phases[k])
    ensures i == k
  {
    hide Run, Lists;
    Fresh(w, indexes);
    RunKeeps(w, Initial(indexes), moves);
    var st := Run(w, Initial(indexes), moves);
    assert GoodPhase(w, st, i, st.phases[i]) && GoodPhase(w, st, k, st.phases[k]);
  }
}
