/** Whole runs over the blob directory (go-shim/shared_oci.go): blobs do not
    disturb each other, a call nobody interrupts does what its one-piece
    description says, and downloads resumed after crashes arrive. */
module BlobRuns {
  import opened Wrappers
  import opened Text
  import opened Words
  import opened BlobStream
  import opened BlobStore

  // ----- one blob among many -----

  predicate Concerns(hash: Bytes -> string, d: string, m: Move) {
    match m
    case BeginBlob(data) => hash(data) == d
    case BeginStream(k, _, _) => k == d
    case Advance(k, _) => k == d
    case Crash(_) => true
  }

  function Own(hash: Bytes -> string, d: string, moves: seq<Move>): seq<Move>
    decreases |moves|
  {
    if moves == [] then []
    else (if Concerns(hash, d, moves[0]) then [moves[0]] else []) + Own(hash, d, moves[1..])
  }

  lemma StepIsLocal(hash: Bytes -> string, d: string, s: Store, t: Store, m: Move)
    requires At(s, d) == At(t, d)
    ensures Concerns(hash, d, m) ==> At(Step(hash, s, m), d) == At(Step(hash, t, m), d)
    ensures !Concerns(hash, d, m) ==> At(Step(hash, s, m), d) == At(s, d)
  {
  }

  /** What becomes of a blob depends on the moves that concern it alone, in
      whatever way those of others are interleaved. */
  lemma {:induction false} OthersDoNotMatter(hash: Bytes -> string, d: string, s: Store, t: Store, moves: seq<Move>)
    requires At(s, d) == At(t, d)
    ensures At(Run(hash, s, moves), d) == At(Run(hash, t, Own(hash, d, moves)), d)
    decreases |moves|
  {
    hide Step, Concerns;
    if moves == [] {
    } else {
      StepIsLocal(hash, d, s, t, moves[0]);
      var s' := Step(hash, s, moves[0]);
      var own := Own(hash, d, moves[1..]);
      if Concerns(hash, d, moves[0]) {
        OthersDoNotMatter(hash, d, s', Step(hash, t, moves[0]), moves[1..]);
        assert ([moves[0]] + own)[1..] == own;
      } else {
        OthersDoNotMatter(hash, d, s', t, moves[1..]);
        assert [] + own == own;
      }
    }
  }

  // ----- a call nobody interrupts -----

  function Steps(hash: Bytes -> string, d: string, s: Slot, outcomes: seq<Outcome>): Slot
    decreases |outcomes|
  {
    if outcomes == [] then s else Steps(hash, d, SlotStep(hash, d, s, outcomes[0]), outcomes[1..])
  }

  function Advances(d: string, outcomes: seq<Outcome>): seq<Move> {
    seq(|outcomes|, i requires 0 <= i < |outcomes| => Advance(d, outcomes[i]))
  }

  lemma {:induction false} AdvancesStep(hash: Bytes -> string, d: string, s: Store, outcomes: seq<Outcome>)
    ensures At(Run(hash, s, Advances(d, outcomes)), d) == Steps(hash, d, At(s, d), outcomes)
    decreases |outcomes|
  {
    hide SlotStep;
    if outcomes == [] {
    } else {
      var moves := Advances(d, outcomes);
      assert moves[1..] == Advances(d, outcomes[1..]);
      AdvancesStep(hash, d, Step(hash, s, moves[0]), outcomes[1..]);
    }
  }

  const OK := Works([])

  /** The reader hands over one chunk after the other and ends; nothing fails. */
  function Deliveries(chunks: seq<Bytes>): seq<Outcome> {
    if chunks == [] then [OK, OK, OK] else [Works(chunks[0]), OK, OK] + Deliveries(chunks[1..])
  }

  function Flat(chunks: seq<Bytes>): Bytes {
    if chunks == [] then [] else chunks[0] + Flat(chunks[1..])
  }

  ghost predicate NoneEmpty(chunks: seq<Bytes>) {
    forall i | 0 <= i < |chunks| :: chunks[i] != []
  }

  function Call(d: string, size: int, offset: int, chunks: seq<Bytes>): seq<Move> {
    [BeginStream(d, size, offset)] + Advances(d, [OK, OK, OK] + Deliveries(chunks))
  }

  function AllCopied(c: Copied, incoming: Bytes): Copied {
    var taken := Taken(incoming, Left(c));
    Copied(c.size, c.counted, c.digested + taken, c.written + |taken|)
  }

  lemma TwoSteps(hash: Bytes -> string, d: string, s: Slot, a: Outcome, b: Outcome, rest: seq<Outcome>)
    ensures Steps(hash, d, s, [a, b] + rest) == Steps(hash, d, SlotStep(hash, d, SlotStep(hash, d, s, a), b), rest)
  {
  }

  lemma ThreeSteps(hash: Bytes -> string, d: string, s: Slot, a: Outcome, b: Outcome, c: Outcome, rest: seq<Outcome>)
    ensures Steps(hash, d, s, [a, b, c] + rest) ==
      Steps(hash, d, SlotStep(hash, d, SlotStep(hash, d, SlotStep(hash, d, s, a), b), c), rest)
  {
    hide SlotStep;
    var all := [a, b, c] + rest;
    assert all[1..] == [b, c] + rest;
    TwoSteps(hash, d, SlotStep(hash, d, s, a), b, c, rest);
  }

  lemma {:induction false} ReturnedStays(hash: Bytes -> string, d: string, s: Slot, outcomes: seq<Outcome>)
    requires s.writer.Returned?
    ensures Steps(hash, d, s, outcomes) == s
    decreases |outcomes|
  {
    if outcomes == [] {
    } else {
      ReturnedStays(hash, d, s, outcomes[1..]);
    }
  }

  /** The end of a call: the checks, then the rename or the removal. */
  function Closed(hash: Bytes -> string, d: string, blob: Option<Bytes>, temp: Option<Bytes>, c: Copied): Slot {
    var s := Slot(Files(blob, Some(c.digested)), temp, Checking(c));
    SlotStep(hash, d, SlotStep(hash, d, s, OK), OK)
  }

  lemma CopiedInTwo(c: Copied, first: Bytes, rest: Bytes)
    ensures AllCopied(AllCopied(c, first), rest) == AllCopied(c, first + rest)
  {
  }

  lemma NothingLeft(c: Copied, first: Bytes, rest: Bytes)
    requires first != [] && Taken(first, Left(c)) == []
    ensures AllCopied(c, first + rest) == c
  {
  }

  /** One chunk read, written and hashed. */
  lemma ChunkCopied(hash: Bytes -> string, d: string, s: Slot, c: Copied, chunk: Bytes)
    requires s.writer == Reading(c) && s.files.part == Some(c.digested)
    requires Taken(chunk, Left(c)) != []
    ensures SlotStep(hash, d, SlotStep(hash, d, SlotStep(hash, d, s, Works(chunk)), OK), OK) ==
      Slot(Files(s.files.blob, Some(AllCopied(c, chunk).digested)), s.temp, Reading(AllCopied(c, chunk)))
  {
  }

  lemma CopyEnds(hash: Bytes -> string, d: string, s: Slot, c: Copied, chunk: Bytes)
    requires s.writer == Reading(c) && s.files.part == Some(c.digested)
    requires Taken(chunk, Left(c)) == []
    ensures SlotStep(hash, d, SlotStep(hash, d, SlotStep(hash, d, s, Works(chunk)), OK), OK) ==
      Closed(hash, d, s.files.blob, s.temp, c)
    ensures Closed(hash, d, s.files.blob, s.temp, c).writer.Returned?
  {
  }

  lemma {:induction false} CopyAll(hash: Bytes -> string, d: string, s: Slot, c: Copied, chunks: seq<Bytes>)
    requires s.writer == Reading(c) && s.files.part == Some(c.digested)
    requires NoneEmpty(chunks)
    ensures Steps(hash, d, s, Deliveries(chunks)) == Closed(hash, d, s.files.blob, s.temp, AllCopied(c, Flat(chunks)))
    decreases |chunks|
  {
    hide SlotStep, Taken, Left, Closed, Steps, AllCopied;
    if chunks == [] {
      assert Taken([], Left(c)) == [] && AllCopied(c, []) == c by { NothingCopied(c); }
      CopyEnds(hash, d, s, c, []);
      assert Deliveries(chunks) == [OK, OK, OK] + [];
      ThreeSteps(hash, d, s, OK, OK, OK, []);
      ReturnedStays(hash, d, Closed(hash, d, s.files.blob, s.temp, c), []);
    } else {
      var rest := Deliveries(chunks[1..]);
      ThreeSteps(hash, d, s, Works(chunks[0]), OK, OK, rest);
      if Taken(chunks[0], Left(c)) == [] {
        CopyEnds(hash, d, s, c, chunks[0]);
        ReturnedStays(hash, d, Closed(hash, d, s.files.blob, s.temp, c), rest);
        NothingLeft(c, chunks[0], Flat(chunks[1..]));
      } else {
        ChunkCopied(hash, d, s, c, chunks[0]);
        var c' := AllCopied(c, chunks[0]);
        CopyAll(hash, d, Slot(Files(s.files.blob, Some(c'.digested)), s.temp, Reading(c')), c', chunks[1..]);
        CopiedInTwo(c, chunks[0], Flat(chunks[1..]));
      }
    }
  }

  lemma NothingCopied(c: Copied)
    ensures Taken([], Left(c)) == [] && AllCopied(c, []) == c
  {
  }

  /** What the call comes to in one piece. */
  lemma ClosedIsStreamed(hash: Bytes -> string, d: string, f: Files, temp: Option<Bytes>, incoming: Bytes,
        size: int, offset: int)
    requires !AlreadyStored(f, size)
    ensures var (start, counted) := Opened(f, offset);
      var s := Closed(hash, d, f.blob, temp, AllCopied(Copied(size, counted, start, 0), incoming));
      var (after, r) := Streamed(hash, d, f, incoming, size, offset);
      s == Slot(after, temp, Returned(r))
  {
  }

  /** The three steps before the copy. */
  lemma OpenedByThree(hash: Bytes -> string, d: string, f: Files, temp: Option<Bytes>, size: int, offset: int)
    requires !AlreadyStored(f, size)
    ensures var s := Slot(f, temp, StreamCheck(size, offset));
      var (start, counted) := Opened(f, offset);
      SlotStep(hash, d, SlotStep(hash, d, SlotStep(hash, d, s, OK), OK), OK) ==
        Slot(Files(f.blob, Some(start)), temp, Reading(Copied(size, counted, start, 0)))
  {
  }

  lemma StepsAreStreamed(hash: Bytes -> string, d: string, f: Files, temp: Option<Bytes>, size: int,
        offset: int, chunks: seq<Bytes>)
    requires NoneEmpty(chunks)
    ensures var s := Slot(f, temp, StreamCheck(size, offset));
      var (after, r) := Streamed(hash, d, f, Flat(chunks), size, offset);
      Steps(hash, d, s, [OK, OK, OK] + Deliveries(chunks)) == Slot(after, temp, Returned(r))
  {
    hide Taken, Limit, Wrap64, Closed, Steps, Deliveries, AllCopied;
    var s := Slot(f, temp, StreamCheck(size, offset));
    ThreeSteps(hash, d, s, OK, OK, OK, Deliveries(chunks));
    if AlreadyStored(f, size) {
      ReturnedStays(hash, d, SlotStep(hash, d, s, OK), Deliveries(chunks));
    } else {
      OpenedByThree(hash, d, f, temp, size, offset);
      var (start, counted) := Opened(f, offset);
      CopyAll(hash, d, Slot(Files(f.blob, Some(start)), temp, Reading(Copied(size, counted, start, 0))),
              Copied(size, counted, start, 0), chunks);
      ClosedIsStreamed(hash, d, f, temp, Flat(chunks), size, offset);
    }
  }

  /** A call that cannot look at the final file takes the blob for missing. */
  lemma UnseenIsFetched(hash: Bytes -> string, d: string, f: Files, temp: Option<Bytes>, size: int,
        offset: int, chunks: seq<Bytes>, done: nat)
    requires NoneEmpty(chunks)
    ensures var s := Slot(f, temp, StreamCheck(size, offset));
      var (after, r) := Streamed(hash, d, Files(None, f.part), Flat(chunks), size, offset);
      Steps(hash, d, s, [Fails(done), OK, OK] + Deliveries(chunks)) ==
        Slot(if r.Stored? then after else Files(f.blob, after.part), temp, Returned(r))
  {
    hide Taken, Limit, Wrap64, Closed, Steps, Deliveries, AllCopied;
    var s := Slot(f, temp, StreamCheck(size, offset));
    ThreeSteps(hash, d, s, Fails(done), OK, OK, Deliveries(chunks));
    OpenedByThree(hash, d, Files(None, f.part), temp, size, offset);
    var (start, counted) := Opened(f, offset);
    var c := Copied(size, counted, start, 0);
    CopyAll(hash, d, Slot(Files(f.blob, Some(start)), temp, Reading(c)), c, chunks);
    ClosedIsStreamed(hash, d, Files(None, f.part), temp, Flat(chunks), size, offset);
    ClosedOver(hash, d, f.blob, temp, AllCopied(c, Flat(chunks)));
  }

  lemma ClosedOver(hash: Bytes -> string, d: string, blob: Option<Bytes>, temp: Option<Bytes>, c: Copied)
    ensures var s, t := Closed(hash, d, None, temp, c), Closed(hash, d, blob, temp, c);
      t.writer == s.writer && s.writer.Returned? &&
      t == if s.writer.result.Stored? then s else s.(files := Files(blob, s.files.part))
  {
  }

  /** A call whose steps all succeed does what `Streamed` says, whatever the
      calls for other blobs do in between. */
  lemma CallIsStreamed(hash: Bytes -> string, s: Store, d: string, size: int, offset: int, chunks: seq<Bytes>,
        moves: seq<Move>)
    requires (At(s, d).writer.Idle? || At(s, d).writer.Returned?) && NoneEmpty(chunks)
    requires Own(hash, d, moves) == Call(d, size, offset, chunks)
    ensures var slot := At(Run(hash, s, moves), d);
      var (after, r) := Streamed(hash, d, At(s, d).files, Flat(chunks), size, offset);
      slot.files == after && slot.writer == Returned(r)
  {
    hide Streamed, SlotStep, Steps, Deliveries, Own, Advances;
    OthersDoNotMatter(hash, d, s, s, moves);
    var call := Call(d, size, offset, chunks);
    var outcomes := [OK, OK, OK] + Deliveries(chunks);
    assert call[1..] == Advances(d, outcomes);
    AdvancesStep(hash, d, Step(hash, s, call[0]), outcomes);
    StepsAreStreamed(hash, d, At(s, d).files, At(s, d).temp, size, offset, chunks);
  }

  /** `writeBlob`, undisturbed: the data is at its name afterwards, unless a
      file of its length was found there, which is left alone; failing to look
      is not finding one. */
  lemma BlobIsWritten(hash: Bytes -> string, s: Store, data: Bytes, moves: seq<Move>, look: Outcome)
    requires At(s, hash(data)).writer.Idle? || At(s, hash(data)).writer.Returned?
    requires Own(hash, hash(data), moves) == [BeginBlob(data)] + Advances(hash(data), [look, OK, OK, OK])
    ensures var f := At(s, hash(data)).files;
      var slot := At(Run(hash, s, moves), hash(data));
      slot.writer == Returned(Stored(|data|)) && slot.files.part == f.part &&
      slot.files.blob == if look.Works? && f.blob.Some? && |f.blob.value| == |data| then f.blob else Some(data)
  {
    hide SlotStep, Steps, Own, Advances;
    var d := hash(data);
    OthersDoNotMatter(hash, d, s, s, moves);
    var call := [BeginBlob(data)] + Advances(d, [look, OK, OK, OK]);
    assert call[1..] == Advances(d, [look, OK, OK, OK]);
    AdvancesStep(hash, d, Step(hash, s, call[0]), [look, OK, OK, OK]);
    BlobSteps(hash, d, At(s, d).(writer := BlobCheck(data)), data, look);
  }

  lemma BlobSteps(hash: Bytes -> string, d: string, s: Slot, data: Bytes, look: Outcome)
    requires s.writer == BlobCheck(data)
    ensures var slot := Steps(hash, d, s, [look, OK, OK, OK]);
      slot.writer == Returned(Stored(|data|)) && slot.files.part == s.files.part &&
      slot.files.blob == if look.Works? && s.files.blob.Some? && |s.files.blob.value| == |data| then s.files.blob else Some(data)
  {
    hide Taken, Limit, Left, Wrap64;
    assert [look, OK, OK, OK] == [look, OK, OK] + [OK];
    ThreeSteps(hash, d, s, look, OK, OK, [OK]);
    assert [OK][1..] == [];
  }

  // ----- calls that fail -----

  /** The call is at a system call it cannot do without. */
  predicate Essential(w: Writer) {
    || w.BlobCreate? || w.BlobWriting? || w.BlobRenaming? || w.Reading? || w.Writing? || w.Renaming?
    || (w.StreamOpen? && w.rehashed.None?)
  }

  /** The first such call that fails ends the whole one, once what is there of
      the partial file is removed. The final file is as it was. */
  lemma FailureEnds(hash: Bytes -> string, d: string, s: Slot, done: nat, remove: Outcome)
    requires Essential(s.writer)
    ensures var end := Steps(hash, d, s, [Fails(done), remove]);
      end.writer == Returned(IoFailed) && end.files.blob == s.files.blob &&
      if s.writer.Reading? || s.writer.Writing? || s.writer.Renaming? then remove.Works? ==> end.files.part == None
      else end.files.part == s.files.part
  {
    assert [Fails(done), remove] == [Fails(done), remove] + [];
    TwoSteps(hash, d, s, Fails(done), remove, []);
  }

  /** Whatever is left can be removed. */
  predicate RemovalsWork(hash: Bytes -> string, d: string, s: Slot, outcomes: seq<Outcome>)
    decreases |outcomes|
  {
    outcomes == [] ||
    ((s.writer.Removing? ==> outcomes[0].Works?) && RemovalsWork(hash, d, SlotStep(hash, d, s, outcomes[0]), outcomes[1..]))
  }

  /** What a streaming call may have done to the files it found. */
  ghost predicate Untouched(f: Files, s: Slot) {
    match s.writer
    case StreamCheck(_, _) => s.files == f
    case StreamHash(_, _) => s.files == f
    case StreamOpen(_, _, _) => s.files == f
    case Returned(r) =>
      !r.Stored? ==> s.files == Files(f.blob, None) || (r.IoFailed? && s.files == f)
    case Removing(r) => !r.Stored? && s.files.blob == f.blob
    case _ => Copying(s.writer) && s.files.blob == f.blob
  }

  predicate Copying(w: Writer) {
    w.Reading? || w.Writing? || w.Hashing? || w.Checking? || w.Renaming?
  }

  lemma StepUntouched(hash: Bytes -> string, d: string, f: Files, s: Slot, e: Outcome)
    requires Untouched(f, s) && (s.writer.Removing? ==> e.Works?)
    ensures Untouched(f, SlotStep(hash, d, s, e))
  {
  }

  /** A streaming call that fails, at whatever point and in whatever way, leaves
      the final file alone and no partial file, or, if it could not even open
      one, everything as it was. */
  lemma {:induction false} FailedCallIsTidy(hash: Bytes -> string, d: string, f: Files, s: Slot, outcomes: seq<Outcome>)
    requires Untouched(f, s) && RemovalsWork(hash, d, s, outcomes)
    ensures Untouched(f, Steps(hash, d, s, outcomes))
    decreases |outcomes|
  {
    hide Untouched, SlotStep;
    if outcomes == [] {
    } else {
      StepUntouched(hash, d, f, s, outcomes[0]);
      FailedCallIsTidy(hash, d, f, SlotStep(hash, d, s, outcomes[0]), outcomes[1..]);
    }
  }

  // ----- downloads that are interrupted and resumed -----

  /** A caller resumes at the length of the partial file. */
  function PartLength(f: Files): nat {
    if f.part.Some? then |f.part.value| else 0
  }

  function From(data: Bytes, n: nat): Bytes {
    if n <= |data| then data[n..] else []
  }

  function Resumed(hash: Bytes -> string, d: string, f: Files, data: Bytes): (Files, Result) {
    Streamed(hash, d, f, From(data, PartLength(f)), |data|, PartLength(f))
  }

  /** A fresh download from a registry that serves the blob stores it exactly
      when its size is not the largest there is: for that one the limit wraps
      around and nothing is taken. */
  lemma FreshStoresIff(hash: Bytes -> string, f: Files, data: Bytes)
    requires f.part.None? && |data| <= MAX_INT64 && !AlreadyStored(f, |data|)
    ensures var (after, r) := Resumed(hash, hash(data), f, data);
      (r.Stored? <==> |data| < MAX_INT64) &&
      (r.Stored? ==> after == Files(Some(data), None) && r == Stored(|data|)) &&
      (!r.Stored? ==> after == Files(f.blob, None) && r == SizeMismatch(0))
  {
    if |data| < MAX_INT64 {
      InRange(|data| + 1);
      InRange(|data|);
      assert [] + data == data;
    } else {
      LargestSizeNeverStored(hash, hash(data), f, data);
    }
  }

  lemma FirstCallClears(hash: Bytes -> string, d: string, f: Files, data: Bytes)
    ensures var (after, r) := Resumed(hash, d, f, data);
      !AlreadyStored(f, |data|) ==> after.part.None? && (!r.Stored? ==> after.blob == f.blob)
  {
  }

  /** Whatever partial file was left behind, two calls against a registry that
      serves the blob are enough: the first stores it or clears the way. */
  lemma TwoCallsSuffice(hash: Bytes -> string, f: Files, data: Bytes)
    requires |data| < MAX_INT64
    ensures var (once, r) := Resumed(hash, hash(data), f, data);
      var (twice, r') := Resumed(hash, hash(data), once, data);
      r'.Stored? && twice.blob.Some? && (f.blob.None? && !r.Stored? ==> twice.blob == Some(data))
  {
    hide Streamed;
    var (once, r) := Resumed(hash, hash(data), f, data);
    if AlreadyStored(f, |data|) {
      StoredAlready(hash, hash(data), f, data);
    } else {
      FirstCallClears(hash, hash(data), f, data);
      if !AlreadyStored(once, |data|) {
        FreshStoresIff(hash, once, data);
      } else {
        StoredAlready(hash, hash(data), once, data);
      }
    }
  }

  lemma StoredAlready(hash: Bytes -> string, d: string, f: Files, data: Bytes)
    requires AlreadyStored(f, |data|)
    ensures Resumed(hash, d, f, data) == (f, Stored(|f.blob.value|))
  {
  }

  // ----- a resume that loses its partial file -----

  /** The re-read, the re-open and, when one of them fails, the creation of a
      new file. */
  function Reopening(reread: Outcome, reopen: Outcome): seq<Outcome> {
    if reread.Fails? then [reread, OK]
    else if reopen.Fails? then [reread, reopen, OK]
    else [reread, reopen]
  }

  lemma Reopened(hash: Bytes -> string, d: string, f: Files, temp: Option<Bytes>, part: Bytes, size: int,
        reread: Outcome, reopen: Outcome, rest: seq<Outcome>)
    requires f.part == Some(part) && part != []
    ensures Steps(hash, d, Slot(f, temp, StreamHash(size, |part|)), Reopening(reread, reopen) + rest) ==
      Steps(hash, d,
        if reread.Fails? || reopen.Fails? then Slot(Files(f.blob, Some([])), temp, Reading(Copied(size, 0, [], 0)))
        else Slot(f, temp, Reading(Copied(size, |part|, part, 0))), rest)
  {
    hide Taken, Limit, Left, Wrap64, Steps;
    var s := Slot(f, temp, StreamHash(size, |part|));
    if reread.Fails? {
      TwoSteps(hash, d, s, reread, OK, rest);
    } else if reopen.Fails? {
      ThreeSteps(hash, d, s, reread, reopen, OK, rest);
    } else {
      TwoSteps(hash, d, s, reread, reopen, rest);
    }
  }

  /** A resumed call against a registry that serves the rest, in which nothing
      else fails, stores the blob, unless the partial file cannot be read or
      opened again: then it starts a new file although the reader stands behind
      the old bytes, and ends in a size mismatch. */
  lemma ResumeEnds(hash: Bytes -> string, f: Files, temp: Option<Bytes>, data: Bytes, part: Bytes, chunks: seq<Bytes>,
        reread: Outcome, reopen: Outcome)
    requires f.part == Some(part) && part != [] && |part| <= |data| < MAX_INT64 && part == data[..|part|]
    requires !AlreadyStored(f, |data|)
    requires Flat(chunks) == data[|part|..] && NoneEmpty(chunks)
    ensures var s := Slot(f, temp, StreamHash(|data|, |part|));
      Steps(hash, hash(data), s, Reopening(reread, reopen) + Deliveries(chunks)) ==
      if reread.Fails? || reopen.Fails? then
        Slot(Files(f.blob, None), temp, Returned(SizeMismatch(|data| - |part|)))
      else Slot(Files(Some(data), None), temp, Returned(Stored(|data|)))
  {
    hide Taken, Limit, Wrap64, Steps, Deliveries, AllCopied, Streamed;
    var size, rest := |data|, data[|part|..];
    Reopened(hash, hash(data), f, temp, part, size, reread, reopen, Deliveries(chunks));
    if reread.Fails? || reopen.Fails? {
      var anew := Copied(size, 0, [], 0);
      CopyAll(hash, hash(data), Slot(Files(f.blob, Some([])), temp, Reading(anew)), anew, chunks);
      ShortCopy(size, rest);
    } else {
      var c := Copied(size, |part|, part, 0);
      CopyAll(hash, hash(data), Slot(f, temp, Reading(c)), c, chunks);
      WholeCopy(data, part);
    }
  }

  /** So such a call ends in a mismatch if and only if one of the two fails. */
  lemma MismatchIffReopenFails(hash: Bytes -> string, f: Files, temp: Option<Bytes>, data: Bytes, part: Bytes,
        chunks: seq<Bytes>, reread: Outcome, reopen: Outcome)
    requires f.part == Some(part) && part != [] && |part| <= |data| < MAX_INT64 && part == data[..|part|]
    requires !AlreadyStored(f, |data|)
    requires Flat(chunks) == data[|part|..] && NoneEmpty(chunks)
    ensures var call := [OK] + (Reopening(reread, reopen) + Deliveries(chunks));
      var r := Steps(hash, hash(data), Slot(f, temp, StreamCheck(|data|, |part|)), call).writer;
      r.Returned? && (r.result.SizeMismatch? || r.result.DigestMismatch? <==> reread.Fails? || reopen.Fails?)
  {
    hide Flat, Deliveries, Reopening;
    ResumeEnds(hash, f, temp, data, part, chunks, reread, reopen);
    var rest := Reopening(reread, reopen) + Deliveries(chunks);
    assert ([OK] + rest)[1..] == rest;
  }

  lemma WholeCopy(data: Bytes, part: Bytes)
    requires part != [] && |part| <= |data| < MAX_INT64 && part == data[..|part|]
    ensures var c := Copied(|data|, |part|, part, 0);
      AllCopied(c, data[|part|..]) == Copied(|data|, |part|, data, |data| - |part|)
    ensures Wrap64(|part| + (|data| - |part|)) == |data|
  {
    InRange(|data| - |part| + 1);
    InRange(|data|);
    assert part + data[|part|..] == data;
  }

  lemma ShortCopy(size: int, rest: Bytes)
    requires |rest| < size < MAX_INT64
    ensures AllCopied(Copied(size, 0, [], 0), rest) == Copied(size, 0, rest, |rest|)
    ensures Wrap64(0 + |rest|) == |rest|
  {
  }
}
