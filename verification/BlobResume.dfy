/** Interrupted downloads from a registry that serves the blob
    (go-shim/shared_oci.go, with the resume offset as go-shim/backend_docker.go
    computes it): whatever crashes, the partial file stays a beginning of the
    blob, and the next undisturbed call stores it. */
module BlobResume {
  import opened Wrappers
  import opened Text
  import opened Words
  import opened BlobStream
  import opened BlobStore
  import opened BlobRuns

  predicate IsBeginning(part: Bytes, data: Bytes) {
    |part| <= |data| && part == data[..|part|]
  }

  /** The next bytes of the blob, and the end of the stream only at its end. */
  predicate Serves(data: Bytes, at: int, delivered: Bytes) {
    0 <= at <= |data| && IsBeginning(delivered, data[at..]) && (delivered == [] ==> at == |data|)
  }

  /** The moves of a caller that passes the length of the partial file, or
      nothing, and of a registry that serves `data`. Any system call may fail
      but those re-reading and re-opening a partial file being resumed. */
  predicate Honest(data: Bytes, s: Slot, m: Move) {
    match m
    case BeginStream(_, size, offset) => size == |data| && (offset == 0 || offset == PartLength(s.files))
    case Advance(_, e) =>
      (match s.writer
       case StreamHash(_, offset) => offset > 0 ==> e.Works?
       case StreamOpen(_, _, Some(_)) => e.Works?
       case Reading(c) => e.Works? ==> Serves(data, c.counted + c.written, e.bytes)
       case _ => true)
    case _ => true
  }

  predicate HonestRun(hash: Bytes -> string, d: string, data: Bytes, s: Store, moves: seq<Move>)
    decreases |moves|
  {
    moves == [] ||
    ((Concerns(hash, d, moves[0]) ==> Honest(data, At(s, d), moves[0])) &&
     HonestRun(hash, d, data, Step(hash, s, moves[0]), moves[1..]))
  }

  predicate ResumesAt(f: Files, offset: int) {
    offset == 0 || (f.part.Some? && offset == |f.part.value|)
  }

  predicate OnTrack(data: Bytes, f: Files, c: Copied) {
    c.size == |data| && 0 <= c.counted && |c.digested| == c.counted + c.written &&
    IsBeginning(c.digested, data) && f.part == Some(c.digested)
  }

  predicate Untroubled(r: Result) {
    r.Stored? || r.IoFailed?
  }

  ghost predicate Resumable(data: Bytes, s: Slot) {
    (s.files.part.Some? ==> IsBeginning(s.files.part.value, data)) &&
    (match s.writer
     case StreamCheck(size, offset) => size == |data| && ResumesAt(s.files, offset)
     case StreamHash(size, offset) => size == |data| && ResumesAt(s.files, offset)
     case StreamOpen(size, offset, None) => size == |data| && offset == 0
     case StreamOpen(size, offset, Some(bytes)) => size == |data| && s.files.part == Some(bytes) && offset == |bytes|
     case Reading(c) => OnTrack(data, s.files, c)
     case Writing(c, chunk) => OnTrack(data, s.files, c) && IsBeginning(c.digested + chunk, data)
     case Hashing(c, chunk) =>
       OnTrack(data, Files(None, Some(c.digested)), c) && IsBeginning(c.digested + chunk, data) &&
       s.files.part == Some(c.digested + chunk)
     case Checking(c) => OnTrack(data, s.files, c) && c.digested == data
     case Renaming(total) => s.files.part == Some(data) && total == |data|
     case Removing(result) => Untroubled(result)
     case Returned(result) => Untroubled(result)
     case _ => true)
  }

  lemma BeginningOfMore(part: Bytes, chunk: Bytes, data: Bytes, n: nat)
    requires IsBeginning(part + chunk, data)
    ensures IsBeginning(part + Prefix(chunk, n), data)
  {
  }

  lemma ReadKeeps(hash: Bytes -> string, data: Bytes, s: Slot, e: Outcome)
    requires s.writer.Reading? && |data| < MAX_INT64
    requires Resumable(data, s) && Honest(data, s, Advance(hash(data), e))
    ensures Resumable(data, SlotStep(hash, hash(data), s, e))
  {
  }

  lemma WriteKeeps(hash: Bytes -> string, data: Bytes, s: Slot, e: Outcome)
    requires s.writer.Writing? || s.writer.Hashing?
    requires Resumable(data, s)
    ensures Resumable(data, SlotStep(hash, hash(data), s, e))
  {
  }

  lemma CheckKeeps(hash: Bytes -> string, data: Bytes, s: Slot, e: Outcome)
    requires s.writer.Checking? && |data| < MAX_INT64
    requires Resumable(data, s)
    ensures Resumable(data, SlotStep(hash, hash(data), s, e))
  {
  }

  lemma OtherKeeps(hash: Bytes -> string, data: Bytes, s: Slot, e: Outcome)
    requires !s.writer.Reading? && !s.writer.Writing? && !s.writer.Hashing? && !s.writer.Checking?
    requires Resumable(data, s) && Honest(data, s, Advance(hash(data), e))
    ensures Resumable(data, SlotStep(hash, hash(data), s, e))
  {
  }

  lemma HonestStepKeeps(hash: Bytes -> string, data: Bytes, s: Store, m: Move)
    requires Resumable(data, At(s, hash(data))) && |data| < MAX_INT64
    requires Concerns(hash, hash(data), m) ==> Honest(data, At(s, hash(data)), m)
    ensures Resumable(data, At(Step(hash, s, m), hash(data)))
  {
    hide SlotStep, Limit, Left, Taken, Wrap64, IsBeginning, Serves;
    var d := hash(data);
    var slot := At(s, d);
    StepIsLocal(hash, d, s, s, m);
    match m
    case Advance(k, e) =>
      if k == d {
        if slot.writer.Reading? {
          ReadKeeps(hash, data, slot, e);
        } else if slot.writer.Writing? || slot.writer.Hashing? {
          WriteKeeps(hash, data, slot, e);
        } else if slot.writer.Checking? {
          CheckKeeps(hash, data, slot, e);
        } else {
          OtherKeeps(hash, data, slot, e);
        }
      }
    case Crash(torn) =>
      if slot.writer.Writing? {
        BeginningOfMore(slot.writer.copied.digested, slot.writer.chunk, data, torn(d));
      }
    case _ =>
  }

  /** Over every such run: the partial file is a beginning of the blob, and no
      call for it ends in a size or digest mismatch. */
  lemma {:induction false} HonestRunKeeps(hash: Bytes -> string, data: Bytes, s: Store, moves: seq<Move>)
    requires Resumable(data, At(s, hash(data))) && |data| < MAX_INT64
    requires HonestRun(hash, hash(data), data, s, moves)
    ensures Resumable(data, At(Run(hash, s, moves), hash(data)))
    decreases |moves|
  {
    hide Resumable, Step, Honest, Concerns;
    if moves == [] {
    } else {
      HonestStepKeeps(hash, data, s, moves[0]);
      HonestRunKeeps(hash, data, Step(hash, s, moves[0]), moves[1..]);
    }
  }

  lemma ResumedFromBeginning(hash: Bytes -> string, f: Files, data: Bytes)
    requires |data| < MAX_INT64 && !AlreadyStored(f, |data|)
    requires f.part.Some? ==> IsBeginning(f.part.value, data)
    ensures Resumed(hash, hash(data), f, data) == (Files(Some(data), None), Stored(|data|))
  {
    hide Streamed, Taken, Limit;
    FreshStoresIff(hash, Files(f.blob, None), data);
    if PartLength(f) > 0 {
      var part: Bytes := f.part.value;
      assert part + From(data, |part|) == data;
      ResumeRefinesFresh(hash, hash(data), f.blob, part, From(data, |part|), |data|);
    } else {
      NoPartNoMatter(hash, hash(data), f, data);
    }
  }

  lemma NoPartNoMatter(hash: Bytes -> string, d: string, f: Files, data: Bytes)
    requires PartLength(f) == 0 && !AlreadyStored(f, |data|)
    ensures Resumed(hash, d, f, data) == Resumed(hash, d, Files(f.blob, None), data)
  {
  }

  /** Killed at any points and started again any number of times, then left
      alone once: the blob is stored. */
  lemma {:induction false} ResumedAfterCrashes(hash: Bytes -> string, data: Bytes, s: Store, moves: seq<Move>,
        call: seq<Move>, chunks: seq<Bytes>)
    requires |data| < MAX_INT64 && At(s, hash(data)) == Slot(Files(None, None), None, Idle)
    requires HonestRun(hash, hash(data), data, s, moves)
    requires var slot := At(Run(hash, s, moves), hash(data));
      Free(slot) && NoneEmpty(chunks) && Flat(chunks) == From(data, PartLength(slot.files)) &&
      Own(hash, hash(data), call) == Call(hash(data), |data|, PartLength(slot.files), chunks)
    ensures var d := hash(data);
      var before, after := At(Run(hash, s, moves), d), At(Run(hash, Run(hash, s, moves), call), d);
      after.writer.Returned? && after.writer.result.Stored? &&
      (!AlreadyStored(before.files, |data|) ==> after.files == Files(Some(data), None))
  {
    hide Run, Own, Call, Streamed, HonestRun, Flat;
    HonestRunKeeps(hash, data, s, moves);
    var t := Run(hash, s, moves);
    var f := At(t, hash(data)).files;
    CallIsStreamed(hash, t, hash(data), |data|, PartLength(f), chunks, call);
    if AlreadyStored(f, |data|) {
      StoredAlready(hash, hash(data), f, data);
    } else {
      ResumedFromBeginning(hash, f, data);
    }
  }
}
