/** How large a partial file gets (go-shim/shared_oci.go): never more than one
    byte past the declared size, through failing calls and crashes, as long as
    what is resumed is within the size; and what happens when it is not. */
module BlobBound {
  import opened Wrappers
  import opened Text
  import opened Words
  import opened BlobStream
  import opened BlobStore
  import opened BlobRuns

  predicate PartWithin(f: Files, size: int) {
    f.part.Some? ==> |f.part.value| <= size + 1
  }

  predicate FreshOrWithin(f: Files, size: int, offset: int) {
    offset <= 0 || (f.part.Some? && offset == |f.part.value| <= size)
  }

  /** Calls declare sizes of at most `size`, not all the same perhaps, and start
      afresh or resume, at its length, a partial file within the size they
      declare. What the reader delivers is not limited. */
  predicate Bounded(size: int, s: Slot, m: Move) {
    match m
    case BeginStream(_, n, offset) => Free(s) ==> 0 < n <= size && FreshOrWithin(s.files, n, offset)
    case _ => true
  }

  predicate BoundedRun(hash: Bytes -> string, d: string, size: int, s: Store, moves: seq<Move>)
    decreases |moves|
  {
    moves == [] ||
    ((Concerns(hash, d, moves[0]) ==> Bounded(size, At(s, d), moves[0])) &&
     BoundedRun(hash, d, size, Step(hash, s, moves[0]), moves[1..]))
  }

  predicate InStep(size: int, f: Files, c: Copied, pending: nat) {
    0 < c.size <= size && 0 <= c.counted <= c.size && f.part.Some? &&
    |f.part.value| == c.counted + c.written + pending <= c.size + 1
  }

  ghost predicate Within(size: int, s: Slot) {
    PartWithin(s.files, size) &&
    (match s.writer
     case StreamCheck(n, offset) => 0 < n <= size && FreshOrWithin(s.files, n, offset)
     case StreamHash(n, offset) => 0 < n <= size && FreshOrWithin(s.files, n, offset)
     case StreamOpen(n, offset, None) => 0 < n <= size
     case StreamOpen(n, offset, Some(bytes)) => 0 < n <= size && s.files.part == Some(bytes) && offset == |bytes| <= n
     case Reading(c) => InStep(size, s.files, c, 0)
     case Writing(c, chunk) => InStep(size, s.files, c, 0) && |s.files.part.value| + |chunk| <= c.size + 1
     case Hashing(c, chunk) => InStep(size, s.files, c, |chunk|)
     case _ => true)
  }

  lemma TakenFits(c: Copied, incoming: Bytes)
    requires 0 < c.size && 0 <= c.counted <= c.size && c.counted + c.written <= c.size + 1
    ensures c.counted + c.written + |Taken(incoming, Left(c))| <= c.size + 1
  {
  }

  lemma AdvanceWithin(hash: Bytes -> string, d: string, size: int, s: Slot, e: Outcome)
    requires 0 < size && Within(size, s)
    ensures Within(size, SlotStep(hash, d, s, e))
  {
    hide Taken, Limit, Left, Wrap64;
    if s.writer.Reading? && e.Works? {
      TakenFits(s.writer.copied, e.bytes);
    }
  }

  lemma StepWithin(hash: Bytes -> string, d: string, size: int, s: Store, m: Move)
    requires 0 < size && Within(size, At(s, d))
    requires Concerns(hash, d, m) ==> Bounded(size, At(s, d), m)
    ensures Within(size, At(Step(hash, s, m), d))
  {
    hide SlotStep;
    StepIsLocal(hash, d, s, s, m);
    if m.Advance? && m.digest == d {
      AdvanceWithin(hash, d, size, At(s, d), m.outcome);
    }
  }

  lemma {:induction false} RunWithin(hash: Bytes -> string, d: string, size: int, s: Store, moves: seq<Move>)
    requires 0 < size && Within(size, At(s, d)) && BoundedRun(hash, d, size, s, moves)
    ensures Within(size, At(Run(hash, s, moves), d))
    decreases |moves|
  {
    hide Within, Step, Bounded, Concerns;
    if moves == [] {
    } else {
      StepWithin(hash, d, size, s, moves[0]);
      RunWithin(hash, d, size, Step(hash, s, moves[0]), moves[1..]);
    }
  }

  /** In every state that such calls reach, whatever is delivered, fails or
      crashes, the partial file has at most one byte more than the largest
      declared size. */
  lemma PartStaysWithin(hash: Bytes -> string, d: string, size: int, s: Store, moves: seq<Move>)
    requires 0 < size && Free(At(s, d)) && PartWithin(At(s, d).files, size)
    requires BoundedRun(hash, d, size, s, moves)
    ensures PartWithin(At(Run(hash, s, moves), d).files, size)
  {
    hide Run, BoundedRun;
    RunWithin(hash, d, size, s, moves);
  }

  // ----- the byte too many -----

  lemma {:induction false} StepsWithin(hash: Bytes -> string, d: string, size: int, s: Slot, outcomes: seq<Outcome>)
    requires 0 < size && Within(size, s)
    ensures Within(size, Steps(hash, d, s, outcomes))
    decreases |outcomes|
  {
    hide Within, SlotStep;
    if outcomes == [] {
    } else {
      AdvanceWithin(hash, d, size, s, outcomes[0]);
      StepsWithin(hash, d, size, SlotStep(hash, d, s, outcomes[0]), outcomes[1..]);
    }
  }

  /** No larger than allowed, or than it was before the call. */
  ghost predicate StaysWithin(hash: Bytes -> string, d: string, size: int, s: Slot, outcomes: seq<Outcome>) {
    var part := Steps(hash, d, s, outcomes).files.part;
    part.Some? ==> |part.value| <= size + 1 || |part.value| <= PartLength(s.files)
  }

  /** The outcomes of a resumed call up to its first chunk. */
  function FirstChunk(more: Bytes): seq<Outcome> {
    [OK, OK, OK] + [Works(more), OK]
  }

  lemma OverlongResumes(hash: Bytes -> string, d: string, f: Files, temp: Option<Bytes>, part: Bytes, size: int,
        more: Bytes)
    requires 0 < size < |part| && f == Files(None, Some(part)) && more != []
    ensures Steps(hash, d, Slot(f, temp, StreamCheck(size, |part|)), FirstChunk(more)).files.part == Some(part + more)
  {
    hide Wrap64;
    var s := Slot(f, temp, StreamCheck(size, |part|));
    ThreeSteps(hash, d, s, OK, OK, OK, [Works(more), OK]);
    var c := Copied(size, |part|, part, 0);
    assert Left(c) == None;
    assert [Works(more), OK] + [] == [Works(more), OK];
    TwoSteps(hash, d, Slot(f, temp, Reading(c)), Works(more), OK, []);
  }

  /** A call resumed at the length of the partial file keeps the bound, whatever
      it meets, exactly when that file is within the declared size: with one byte
      too many, or any more, the copy is not limited at all. */
  lemma ResumeBoundedIff(hash: Bytes -> string, d: string, part: Bytes, temp: Option<Bytes>, size: int)
    requires 0 < size && 0 < |part|
    ensures (forall outcomes ::
        StaysWithin(hash, d, size, Slot(Files(None, Some(part)), temp, StreamCheck(size, |part|)), outcomes)) <==>
      |part| <= size
  {
    hide Steps, SlotStep;
    var s := Slot(Files(None, Some(part)), temp, StreamCheck(size, |part|));
    if |part| <= size {
      forall outcomes ensures StaysWithin(hash, d, size, s, outcomes) {
        StepsWithin(hash, d, size, s, outcomes);
      }
    } else {
      OverlongResumes(hash, d, s.files, temp, part, size, "x");
      assert !StaysWithin(hash, d, size, s, FirstChunk("x"));
    }
  }

  /** A process that dies before it notices the byte too many. */
  function Overrun(d: string, size: int, extra: Bytes): seq<Move> {
    [BeginStream(d, size, 0)] + Advances(d, FirstChunk(extra))
  }

  lemma OverrunPart(hash: Bytes -> string, d: string, size: int, extra: Bytes)
    requires 0 < size < MAX_INT64 && |extra| == size + 1
    ensures At(Run(hash, map[], Overrun(d, size, extra)), d) ==
      Slot(Files(None, Some(extra)), None, Hashing(Copied(size, 0, [], 0), extra))
  {
    hide Advances, Steps, SlotStep;
    var moves := Overrun(d, size, extra);
    assert moves[1..] == Advances(d, FirstChunk(extra));
    var begun := Step(hash, map[], moves[0]);
    AdvancesStep(hash, d, begun, FirstChunk(extra));
    FreshChunk(hash, d, size, extra);
  }

  lemma FreshChunk(hash: Bytes -> string, d: string, size: int, extra: Bytes)
    requires 0 < size < MAX_INT64 && |extra| == size + 1
    ensures Steps(hash, d, Slot(Files(None, None), None, StreamCheck(size, 0)), FirstChunk(extra)) ==
      Slot(Files(None, Some(extra)), None, Hashing(Copied(size, 0, [], 0), extra))
  {
    InRange(size + 1);
    var c := Copied(size, 0, [], 0);
    ThreeSteps(hash, d, Slot(Files(None, None), None, StreamCheck(size, 0)), OK, OK, OK, [Works(extra), OK]);
    assert Taken(extra, Left(c)) == extra;
    assert [Works(extra), OK] + [] == [Works(extra), OK];
    TwoSteps(hash, d, Slot(Files(None, Some([])), None, Reading(c)), Works(extra), OK, []);
    assert [] + extra == extra;
  }

  /** Such a crash is reached from nothing, and the next call, resumed at the
      length of what it left, writes whatever is delivered. */
  lemma UnlimitedAfterCrash(hash: Bytes -> string, d: string, size: int, extra: Bytes, more: Bytes, torn: string -> nat)
    requires 0 < size < MAX_INT64 && |extra| == size + 1 && more != []
    ensures var crashed := Step(hash, Run(hash, map[], Overrun(d, size, extra)), Crash(torn));
      At(crashed, d) == Slot(Files(None, Some(extra)), None, Idle) &&
      At(Run(hash, crashed, [BeginStream(d, size, |extra|)] + Advances(d, FirstChunk(more))), d).files.part ==
        Some(extra + more)
  {
    hide Run, Advances, Overrun, Steps, SlotStep;
    OverrunPart(hash, d, size, extra);
    var crashed := Step(hash, Run(hash, map[], Overrun(d, size, extra)), Crash(torn));
    var moves := [BeginStream(d, size, |extra|)] + Advances(d, FirstChunk(more));
    assert moves[1..] == Advances(d, FirstChunk(more));
    RunOne(hash, crashed, moves);
    AdvancesStep(hash, d, Step(hash, crashed, moves[0]), FirstChunk(more));
    OverlongResumes(hash, d, Files(None, Some(extra)), None, extra, size, more);
  }

  lemma RunOne(hash: Bytes -> string, s: Store, moves: seq<Move>)
    requires moves != []
    ensures Run(hash, s, moves) == Run(hash, Step(hash, s, moves[0]), moves[1..])
  {
  }
}
