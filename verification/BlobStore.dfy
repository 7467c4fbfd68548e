/** The blob directory of a layout as a transition system
    (go-shim/shared_oci.go): any number of blobs, one writer per blob at a time,
    every system call of `writeBlob` and `writeBlobStream` a step of its own
    that may fail, and the process dying between any two steps or in the middle
    of a write. */
module BlobStore {
  import opened Wrappers
  import opened Text
  import opened Words
  import opened BlobStream

  /** The bounded copy under way: what the digester has seen, what the opened
      file was counted for, and how much was copied. */
  datatype Copied = Copied(size: int, counted: int, digested: Bytes, written: nat)

  /** Where the writer of one blob stands. */
  datatype Writer =
    | Idle
    | BlobCheck(data: Bytes)
    | BlobCreate(data: Bytes)
    | BlobWriting(data: Bytes)
    | BlobRenaming(data: Bytes)
    | StreamCheck(size: int, offset: int)
    | StreamHash(size: int, offset: int)
    | StreamOpen(size: int, offset: int, rehashed: Option<Bytes>)
    | Reading(copied: Copied)
    | Writing(copied: Copied, chunk: Bytes)
    | Hashing(copied: Copied, chunk: Bytes)
    | Checking(copied: Copied)
    | Renaming(total: int)
    | Removing(result: Result)
    | Returned(result: Result)

  /** One digest's final file, partial file and temporary file, and the call
      writing them. */
  datatype Slot = Slot(files: Files, temp: Option<Bytes>, writer: Writer)

  type Store = map<string, Slot>

  function At(s: Store, d: string): Slot {
    if d in s then s[d] else Slot(Files(None, None), None, Idle)
  }

  /** The outcome of one system call. A read that works delivers bytes, none at
      the end of the stream; a write that fails may have written some. */
  datatype Outcome = Works(bytes: Bytes) | Fails(done: nat)

  datatype Move =
    | BeginBlob(data: Bytes)
    | BeginStream(digest: string, size: int, offset: int)
    | Advance(digest: string, outcome: Outcome)
    | Crash(torn: string -> nat)

  function Prefix(s: Bytes, n: nat): Bytes {
    if n < |s| then s[..n] else s
  }

  function Appended(part: Option<Bytes>, more: Bytes): Option<Bytes> {
    Some((if part.Some? then part.value else []) + more)
  }

  /** What the bounded reader will still pass on. */
  function Left(c: Copied): Option<nat> {
    match Limit(c.size, c.counted)
    case None => None
    case Some(limit) => Some(if c.written < limit then limit - c.written else 0)
  }

  function SlotStep(hash: Bytes -> string, d: string, s: Slot, e: Outcome): Slot {
    match s.writer
    case Idle => s
    case Returned(_) => s
    case BlobCheck(data) =>
      if e.Works? && s.files.blob.Some? && |s.files.blob.value| == |data| then s.(writer := Returned(Stored(|data|)))
      else s.(writer := BlobCreate(data))
    case BlobCreate(data) =>
      if e.Works? then s.(temp := Some([]), writer := BlobWriting(data))
      else s.(writer := Returned(IoFailed))
    case BlobWriting(data) =>
      if e.Works? then s.(temp := Some(data), writer := BlobRenaming(data))
      else s.(temp := Some(Prefix(data, e.done)), writer := Returned(IoFailed))
    case BlobRenaming(data) =>
      if e.Works? then Slot(Files(s.temp, s.files.part), None, Returned(Stored(|data|)))
      else s.(writer := Returned(IoFailed))
    case StreamCheck(size, offset) =>
      if e.Works? && AlreadyStored(s.files, size) then s.(writer := Returned(Stored(|s.files.blob.value|)))
      else s.(writer := StreamHash(size, offset))
    case StreamHash(size, offset) =>
      s.(writer := StreamOpen(size, offset, if e.Works? && offset > 0 then s.files.part else None))
    case StreamOpen(size, offset, Some(bytes)) =>
      s.(writer := if e.Works? then Reading(Copied(size, offset, bytes, 0)) else StreamOpen(size, offset, None))
    case StreamOpen(size, offset, None) =>
      if e.Works? then Slot(Files(s.files.blob, Some([])), s.temp, Reading(Copied(size, 0, [], 0)))
      else s.(writer := Returned(IoFailed))
    case Reading(c) =>
      if e.Fails? then s.(writer := Removing(IoFailed))
      else
        var chunk := Taken(e.bytes, Left(c));
        s.(writer := if chunk == [] then Checking(c) else Writing(c, chunk))
    case Writing(c, chunk) =>
      if e.Works? then s.(files := Files(s.files.blob, Appended(s.files.part, chunk)), writer := Hashing(c, chunk))
      else s.(files := Files(s.files.blob, Appended(s.files.part, Prefix(chunk, e.done))), writer := Removing(IoFailed))
    case Hashing(c, chunk) =>
      s.(writer := Reading(Copied(c.size, c.counted, c.digested + chunk, c.written + |chunk|)))
    case Checking(c) =>
      var total := Wrap64(c.counted + c.written);
      s.(writer := if c.size > 0 && total != c.size then Removing(SizeMismatch(total))
                   else if hash(c.digested) != d then Removing(DigestMismatch)
                   else Renaming(total))
    case Renaming(total) =>
      if e.Works? then Slot(Files(s.files.part, None), s.temp, Returned(Stored(total)))
      else s.(writer := Removing(IoFailed))
    case Removing(result) =>
      Slot(if e.Works? then Files(s.files.blob, None) else s.files, s.temp, Returned(result))
  }

  /** What a dead process leaves: the writes it was in the middle of may have
      happened in part. */
  function Torn(s: Slot, n: nat): Slot {
    match s.writer
    case BlobWriting(data) => Slot(s.files, Some(Prefix(data, n)), Idle)
    case Writing(_, chunk) => Slot(Files(s.files.blob, Appended(s.files.part, Prefix(chunk, n))), s.temp, Idle)
    case _ => s.(writer := Idle)
  }

  predicate Free(s: Slot) {
    s.writer.Idle? || s.writer.Returned?
  }

  function Step(hash: Bytes -> string, s: Store, m: Move): Store {
    match m
    case BeginBlob(data) =>
      var d := hash(data);
      if Free(At(s, d)) then s[d := At(s, d).(writer := BlobCheck(data))] else s
    case BeginStream(d, size, offset) =>
      if Free(At(s, d)) then s[d := At(s, d).(writer := StreamCheck(size, offset))] else s
    case Advance(d, e) => s[d := SlotStep(hash, d, At(s, d), e)]
    case Crash(torn) => map d | d in s :: Torn(s[d], torn(d))
  }

  function Run(hash: Bytes -> string, s: Store, moves: seq<Move>): Store
    decreases |moves|
  {
    if moves == [] then s else Run(hash, Step(hash, s, moves[0]), moves[1..])
  }

  // ----- every file at a final blob name hashes to that name -----

  ghost predicate Sound(hash: Bytes -> string, d: string, s: Slot) {
    (s.files.blob.Some? ==> hash(s.files.blob.value) == d) &&
    (match s.writer
     case BlobCheck(data) => hash(data) == d
     case BlobCreate(data) => hash(data) == d
     case BlobWriting(data) => hash(data) == d
     case BlobRenaming(data) => hash(data) == d && s.temp == Some(data)
     case StreamOpen(_, _, Some(bytes)) => s.files.part == Some(bytes)
     case Reading(c) => s.files.part == Some(c.digested)
     case Writing(c, _) => s.files.part == Some(c.digested)
     case Hashing(c, chunk) => s.files.part == Some(c.digested + chunk)
     case Checking(c) => s.files.part == Some(c.digested)
     case Renaming(_) => s.files.part.Some? && hash(s.files.part.value) == d
     case Removing(result) => !result.Stored?
     case Returned(Stored(_)) => s.files.blob.Some?
     case _ => true)
  }

  ghost predicate AllSound(hash: Bytes -> string, s: Store) {
    forall d :: Sound(hash, d, At(s, d))
  }

  lemma SlotStepKeeps(hash: Bytes -> string, d: string, s: Slot, e: Outcome)
    requires Sound(hash, d, s)
    ensures Sound(hash, d, SlotStep(hash, d, s, e))
  {
  }

  lemma StepKeeps(hash: Bytes -> string, s: Store, m: Move)
    requires AllSound(hash, s)
    ensures AllSound(hash, Step(hash, s, m))
  {
    hide SlotStep;
    var after := Step(hash, s, m);
    forall d ensures Sound(hash, d, At(after, d)) {
      assert Sound(hash, d, At(s, d));
      if m.Advance? && m.digest == d {
        SlotStepKeeps(hash, d, At(s, d), m.outcome);
      }
    }
  }

  /** Over any calls of the two writers with any arguments, any bytes delivered,
      any system call failing, any leftover partial or temporary file and any
      crashes: every file at a final name hashes to that name, and a call that
      reported its blob stored has it there. A wrong resume offset is one of the
      arguments. */
  lemma {:induction false} RunKeeps(hash: Bytes -> string, s: Store, moves: seq<Move>)
    requires AllSound(hash, s)
    ensures AllSound(hash, Run(hash, s, moves))
    decreases |moves|
  {
    if moves == [] {
    } else {
      StepKeeps(hash, s, moves[0]);
      RunKeeps(hash, Step(hash, s, moves[0]), moves[1..]);
    }
  }

  lemma NoWrongBlob(hash: Bytes -> string, s: Store, moves: seq<Move>, d: string)
    requires forall k :: At(s, k).writer.Idle?
    requires forall k :: At(s, k).files.blob.Some? ==> hash(At(s, k).files.blob.value) == k
    ensures var slot := At(Run(hash, s, moves), d);
      (slot.files.blob.Some? ==> hash(slot.files.blob.value) == d) &&
      (slot.writer.Returned? && slot.writer.result.Stored? ==> slot.files.blob.Some?)
  {
    hide Run;
    RunKeeps(hash, s, moves);
    assert Sound(hash, d, At(Run(hash, s, moves), d));
  }
}
