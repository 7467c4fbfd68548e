/** One call of `writeBlobStream` (go-shim/shared_oci.go), start to end: what
    it stores and what it leaves, and why resuming a download comes to the same
    as starting over. The hash is any function of the bytes. */
module BlobStream {
  import opened Wrappers
  import opened Text
  import opened Words

  datatype Result = Stored(size: int) | SizeMismatch(got: int) | DigestMismatch | IoFailed

  /** What there is of one blob: the file at its final name and the partial
      file of an interrupted download. */
  datatype Files = Files(blob: Option<Bytes>, part: Option<Bytes>)

  /** How many bytes are taken from the reader at most: one more than are still
      missing, in 64-bit arithmetic, when the size is known and not exceeded. */
  function Limit(size: int, offset: int): Option<nat> {
    if size > 0 && size - offset >= 0 then
      var limit := Wrap64(size - offset + 1);
      Some(if limit < 0 then 0 else limit)
    else None
  }

  function Taken(incoming: Bytes, limit: Option<nat>): Bytes {
    if limit.Some? && limit.value < |incoming| then incoming[..limit.value] else incoming
  }

  predicate AlreadyStored(f: Files, size: int) {
    f.blob.Some? && (size <= 0 || |f.blob.value| == size)
  }

  /** `openForResume`: the bytes the file starts with, and what is counted for
      them, which is the offset the caller passed. */
  function Opened(f: Files, offset: int): (Bytes, int) {
    if offset > 0 && f.part.Some? then (f.part.value, offset) else ([], 0)
  }

  /** The files and the result after a call in which the reader delivers
      `incoming` and nothing else fails. */
  function Streamed(hash: Bytes -> string, digest: string, f: Files, incoming: Bytes, size: int,
        offset: int): (Files, Result) {
    if AlreadyStored(f, size) then (f, Stored(|f.blob.value|))
    else
      var (start, counted) := Opened(f, offset);
      var taken := Taken(incoming, Limit(size, counted));
      var total := Wrap64(counted + |taken|);
      if size > 0 && total != size then (Files(f.blob, None), SizeMismatch(total))
      else if hash(start + taken) != digest then (Files(f.blob, None), DigestMismatch)
      else (Files(Some(start + taken), None), Stored(total))
  }

  // ----- resuming refines a fresh download -----

  lemma TakenTogether(part: Bytes, incoming: Bytes, size: int)
    requires 0 < size < MAX_INT64 && |part| <= size
    ensures part + Taken(incoming, Limit(size, |part|)) == Taken(part + incoming, Limit(size, 0))
  {
  }

  /** With the first bytes of a download in the partial file and the reader
      delivering the rest, the call stores and reports what a fetch of the whole
      into no partial file does. */
  lemma ResumeRefinesFresh(hash: Bytes -> string, digest: string, blob: Option<Bytes>, part: Bytes,
        incoming: Bytes, size: int)
    requires size < MAX_INT64 && |part + incoming| <= MAX_INT64
    requires 0 < |part| && (size <= 0 || |part| <= size)
    ensures var resumed := Streamed(hash, digest, Files(blob, Some(part)), incoming, size, |part|);
      var anew := Streamed(hash, digest, Files(blob, None), part + incoming, size, 0);
      resumed.1 == anew.1 && resumed.0.blob == anew.0.blob &&
      (!AlreadyStored(Files(blob, None), size) ==> resumed.0 == anew.0)
  {
    var taken := Taken(incoming, Limit(size, |part|));
    var all := Taken(part + incoming, Limit(size, 0));
    if size > 0 {
      TakenTogether(part, incoming, size);
    }
    assert [] + all == all == part + taken;
    InRange(|part| + |taken|);
  }

  /** A partial file longer than the declared size is not resumed into a blob:
      both ways the size is wrong and the partial file goes. */
  lemma OverlongPartFails(hash: Bytes -> string, digest: string, blob: Option<Bytes>, part: Bytes,
        incoming: Bytes, size: int)
    requires 0 < size < MAX_INT64 && size < |part| && |part + incoming| <= MAX_INT64
    requires !AlreadyStored(Files(blob, None), size)
    ensures var (resumed, r) := Streamed(hash, digest, Files(blob, Some(part)), incoming, size, |part|);
      var (anew, s) := Streamed(hash, digest, Files(blob, None), part + incoming, size, 0);
      resumed == anew == Files(blob, None) && r.SizeMismatch? && s.SizeMismatch?
  {
    InRange(|part| + |incoming|);
    InRange(size + 1);
  }

  /** A partial file that is not the beginning of the blob is rejected and
      removed, whatever is downloaded after it. */
  lemma CorruptPartRejected(hash: Bytes -> string, digest: string, f: Files, incoming: Bytes, size: int, offset: int)
    requires offset > 0 && f.part.Some? && !AlreadyStored(f, size)
    requires forall rest :: hash(f.part.value + rest) != digest
    ensures var (after, r) := Streamed(hash, digest, f, incoming, size, offset);
      after == Files(f.blob, None) && !r.Stored?
  {
  }

  /** The largest declarable size is out of reach of a fresh download: its limit
      wraps around and nothing is taken. */
  lemma LargestSizeNeverStored(hash: Bytes -> string, digest: string, f: Files, incoming: Bytes)
    requires !AlreadyStored(f, MAX_INT64)
    ensures Streamed(hash, digest, f, incoming, MAX_INT64, 0) == (Files(f.blob, None), SizeMismatch(0))
  {
  }

  /** What a call stores hashes to the digest it was stored under. */
  lemma StoredMatches(hash: Bytes -> string, digest: string, f: Files, incoming: Bytes, size: int, offset: int)
    requires f.blob.Some? ==> hash(f.blob.value) == digest
    ensures var (after, r) := Streamed(hash, digest, f, incoming, size, offset);
      (after.blob.Some? ==> hash(after.blob.value) == digest) &&
      (r.Stored? ==> after.blob.Some?) && (r.Stored? && size > 0 ==> r.size == size)
  {
  }

  /** When a call stores what: short of 64-bit overflow, exactly when the blob is
      there at its size already, or all that the partial file and the reader give
      has the declared size, if there is one, and the digest. In any other case
      the final file is as before, the partial file is gone, and a wrong size is
      reported before a wrong digest. */
  lemma StoredIff(hash: Bytes -> string, digest: string, f: Files, incoming: Bytes, size: int, offset: int)
    requires size < 0x7FFF_FFFF_FFFF_FFFF
    requires (if offset > 0 && f.part.Some? then offset else 0) + |incoming| <= 0x7FFF_FFFF_FFFF_FFFF
    ensures var (after, r) := Streamed(hash, digest, f, incoming, size, offset);
      var resumed := offset > 0 && f.part.Some?;
      var all := if resumed then f.part.value + incoming else incoming;
      var count := if resumed then offset + |incoming| else |incoming|;
      if f.blob.Some? && (size <= 0 || |f.blob.value| == size) then after == f && r == Stored(|f.blob.value|)
      else if size > 0 && count != size then
        after == Files(f.blob, None) && r.SizeMismatch? &&
        r.got == if count > size && (!resumed || offset <= size) then size + 1 else count
      else if hash(all) != digest then after == Files(f.blob, None) && r == DigestMismatch
      else after == Files(Some(all), None) && r == Stored(count)
  {
    hide Wrap64;
    var (start, counted) := Opened(f, offset);
    var taken := Taken(incoming, Limit(size, counted));
    assert [] + incoming == incoming;
    if 0 < size && counted <= size {
      InRange(size - counted + 1);
    }
    InRange(counted + |taken|);
  }

  // ----- the call itself -----

  /** One blob's files in a layout directory. */
  class BlobFiles {
    var blob: Option<Bytes>
    var part: Option<Bytes>

    function View(): Files
      reads this
    {
      Files(blob, part)
    }

    constructor (blob: Option<Bytes>, part: Option<Bytes>)
      ensures View() == Files(blob, part)
    {
      this.blob := blob;
      this.part := part;
    }

    /** `openForResume`: the digester starts with whatever the partial file
        holds, whether or not that is what the offset says. */
    method OpenForResume(offset: int) returns (digested: Bytes, startOffset: int)
      modifies this`part
      ensures (digested, startOffset) == Opened(old(View()), offset)
      ensures part == Some(digested)
    {
      if offset > 0 && part.Some? {
        return part.value, offset;
      }
      part := Some([]);
      return [], 0;
    }

    /** The bounded copy into file and digester, at most `buffer` bytes at a
        time. */
    method Copy(incoming: Bytes, limit: Option<nat>, buffer: nat, start: Bytes) returns (digested: Bytes, written: nat)
      requires buffer > 0 && part == Some(start)
      modifies this`part
      ensures digested == start + Taken(incoming, limit) && part == Some(digested)
      ensures written == |Taken(incoming, limit)|
    {
      ghost var taken := Taken(incoming, limit);
      var available := if limit.Some? && limit.value < |incoming| then limit.value else |incoming|;
      digested, written := start, 0;
      while written < available
        invariant written <= available == |taken|
        invariant digested == start + taken[..written] && part == Some(digested)
      {
        var n := if written + buffer <= available then buffer else available - written;
        var chunk := incoming[written..written + n];
        assert taken[..written + n] == taken[..written] + chunk;
        part := Some(part.value + chunk);
        digested := digested + chunk;
        written := written + n;
      }
      assert taken[..written] == taken;
    }

    /** `writeBlobStream`. `peak` is the largest size the partial file had: in a
        fresh download, or resumed at the length of a partial file within the
        declared size, at most one byte more than declared. */
    method WriteBlobStream(hash: Bytes -> string, digest: string, incoming: Bytes, size: int, offset: int, buffer: nat)
      returns (r: Result, peak: nat)
      requires buffer > 0
      modifies this
      ensures (View(), r) == Streamed(hash, digest, old(View()), incoming, size, offset)
      ensures size > 0 && (offset <= 0 || old(part).None? || offset == |old(part).value| <= size) ==> peak <= size + 1
    {
      hide Taken, Wrap64;
      if blob.Some? && (size <= 0 || |blob.value| == size) {
        return Stored(|blob.value|), 0;
      }
      var start, startOffset := OpenForResume(offset);
      var limit := Limit(size, startOffset);
      var digested, written := Copy(incoming, limit, buffer, start);
      peak := |digested|;
      PeakBound(incoming, size, startOffset);
      var total := Wrap64(startOffset + written);
      if size > 0 && total != size {
        part := None;
        return SizeMismatch(total), peak;
      }
      if hash(digested) != digest {
        part := None;
        return DigestMismatch, peak;
      }
      blob, part := part, None;
      return Stored(total), peak;
    }
  }

  /** Never more than one byte past the declared size. */
  lemma PeakBound(incoming: Bytes, size: int, offset: int)
    ensures 0 < size && 0 <= offset <= size ==> offset + |Taken(incoming, Limit(size, offset))| <= size + 1
  {
  }
}
