/** How many bytes a pull still has to write (go-shim/diskspace.go), computed
    in a 64-bit accumulator that may wrap around. */
module DiskSpace {
  import opened Words

  type Int64 = n: int | -MAX_INT64 - 1 <= n <= MAX_INT64

  datatype Layer = Layer(digest: string, size: Int64)

  /** The sizes of the stored blobs and of the partial files. */
  datatype Sizes = Sizes(blobs: map<string, nat>, parts: map<string, nat>)

  predicate BlobExists(on: Sizes, l: Layer) {
    l.digest in on.blobs && on.blobs[l.digest] == l.size
  }

  /** An entry that asks for bytes the directory does not have. */
  predicate Eligible(on: Sizes, l: Layer) {
    l.size > 0 && !BlobExists(on, l)
  }

  function Need(on: Sizes, l: Layer): (n: int)
    ensures Eligible(on, l) ==> 0 < n <= MAX_INT64
  {
    if l.digest in on.parts && on.parts[l.digest] < l.size then l.size - on.parts[l.digest] else l.size
  }

  /** The first eligible entry of its digest. */
  predicate Counts(on: Sizes, layers: seq<Layer>, i: nat)
    requires i < |layers|
  {
    Eligible(on, layers[i]) &&
    forall j | 0 <= j < i :: layers[j].digest == layers[i].digest ==> !Eligible(on, layers[j])
  }

  /** The true sum over the first `n` entries, each digest counted once. */
  function Total(on: Sizes, layers: seq<Layer>, n: nat): (total: nat)
    requires n <= |layers|
  {
    if n == 0 then 0
    else Total(on, layers, n - 1) + if Counts(on, layers, n - 1) then Need(on, layers[n - 1]) else 0
  }

  /** The wrap test catches every overflow and nothing else. */
  lemma WrapTestIsExact(needed: int, need: int)
    requires 0 <= needed < 0x1_0000_0000_0000_0000 && 0 <= need < 0x1_0000_0000_0000_0000
    ensures var sum := (needed + need) % (MAX_UINT64 + 1);
      (sum < need <==> needed + need > MAX_UINT64) && (sum >= need ==> sum == needed + need)
  {
    if needed + need > MAX_UINT64 {
      assert (needed + need) % (MAX_UINT64 + 1) == needed + need - (MAX_UINT64 + 1);
    }
  }

  lemma {:induction false} TotalGrows(on: Sizes, layers: seq<Layer>, n: nat, m: nat)
    requires n <= m <= |layers|
    ensures Total(on, layers, n) <= Total(on, layers, m)
    decreases m
  {
    if n >= m {
    } else {
      TotalGrows(on, layers, n, m - 1);
    }
  }

  /** `layersMissing`: the smaller of the largest 64-bit number and the sum. */
  method LayersMissing(on: Sizes, layers: seq<Layer>) returns (needed: int)
    ensures needed == Min(0xFFFF_FFFF_FFFF_FFFF, Total(on, layers, |layers|))
  {
    hide Total;
    var seen: set<string> := {};
    needed := 0;
    assert Total(on, layers, 0) == 0 by { TotalOfNone(on, layers); }
    for i := 0 to |layers|
      invariant needed == Total(on, layers, i) <= MAX_UINT64
      invariant forall d :: d in seen <==> exists j | 0 <= j < i :: layers[j].digest == d && Eligible(on, layers[j])
    {
      var layer := layers[i];
      TotalOfOneMore(on, layers, i);
      if layer.digest in seen || layer.size <= 0 || BlobExists(on, layer) {
        continue;
      }
      seen := seen + {layer.digest};
      var need := layer.size;
      if layer.digest in on.parts && on.parts[layer.digest] < need {
        need := need - on.parts[layer.digest];
      }
      WrapTestIsExact(needed, need);
      needed := (needed + need) % (MAX_UINT64 + 1);
      if needed < need {
        TotalGrows(on, layers, i + 1, |layers|);
        return MAX_UINT64;
      }
    }
  }

  lemma TotalOfNone(on: Sizes, layers: seq<Layer>)
    ensures Total(on, layers, 0) == 0
  {
  }

  lemma TotalOfOneMore(on: Sizes, layers: seq<Layer>, i: nat)
    requires i < |layers|
    ensures Total(on, layers, i + 1) == Total(on, layers, i) + if Counts(on, layers, i) then Need(on, layers[i]) else 0
  {
  }

  // ----- what the sum counts -----

  /** The digests named by an eligible entry. */
  function Missing(on: Sizes, layers: seq<Layer>): set<string> {
    set l | l in layers && Eligible(on, l) :: l.digest
  }

  function FirstEligible(on: Sizes, layers: seq<Layer>, d: string): (i: nat)
    requires d in Missing(on, layers)
    ensures i < |layers| && layers[i].digest == d && Counts(on, layers, i)
  {
    if layers[0].digest == d && Eligible(on, layers[0]) then 0 else
      var rest := layers[1..];
      assert layers == [layers[0]] + rest;
      assert d in Missing(on, rest);
      1 + FirstEligible(on, rest, d)
  }

  /** The sum has one term for every missing digest, and no other. */
  lemma OncePerDigest(on: Sizes, layers: seq<Layer>, d: string)
    ensures d in Missing(on, layers) <==> exists i | 0 <= i < |layers| :: layers[i].digest == d && Counts(on, layers, i)
    ensures forall i, j | 0 <= i < j < |layers| && Counts(on, layers, i) && Counts(on, layers, j) ::
      layers[i].digest != layers[j].digest
  {
    if d in Missing(on, layers) {
      var i := FirstEligible(on, layers, d);
      assert layers[i].digest == d;
    }
  }

  // ----- the sum is what pulling writes -----

  /** What pulling one layer does to the disk and how many bytes it writes: a blob
      of the right size is kept, a shorter partial file is continued. */
  function Pulled(on: Sizes, l: Layer): (Sizes, nat) {
    if l.size <= 0 || (l.digest in on.blobs && on.blobs[l.digest] == l.size) then (on, 0)
    else
      var have := if l.digest in on.parts && on.parts[l.digest] <= l.size then on.parts[l.digest] else 0;
      (Sizes(on.blobs[l.digest := l.size], on.parts - {l.digest}), l.size - have)
  }

  /** The disk, and the bytes written, after pulling the first n layers. */
  function PulledUpTo(on: Sizes, layers: seq<Layer>, n: nat): (Sizes, nat)
    requires n <= |layers|
  {
    if n == 0 then (on, 0)
    else
      var (before, wrote) := PulledUpTo(on, layers, n - 1);
      var (after, more) := Pulled(before, layers[n - 1]);
      (after, wrote + more)
  }

  /** Entries of one digest agree on its size. */
  ghost predicate Consistent(layers: seq<Layer>) {
    forall l, m | l in layers && m in layers && l.digest == m.digest :: l.size == m.size
  }

  /** The layer is there in full, but under the name of a partial file. */
  predicate WholePart(on: Sizes, l: Layer) {
    l.digest in on.parts && on.parts[l.digest] == l.size
  }

  ghost predicate NoWholePart(on: Sizes, layers: seq<Layer>, n: nat)
    requires n <= |layers|
  {
    forall i | 0 <= i < n && Counts(on, layers, i) :: !WholePart(on, layers[i])
  }

  /** A digest stands on disk as at first, or stored whole if an entry so far
      asked for it. */
  ghost predicate Stands(on: Sizes, now: Sizes, layers: seq<Layer>, n: nat, d: string)
    requires n <= |layers|
  {
    if exists j | 0 <= j < n :: layers[j].digest == d && Eligible(on, layers[j]) then
      d in now.blobs && forall l | l in layers && l.digest == d :: now.blobs[d] == l.size
    else
      && (d in now.blobs <==> d in on.blobs) && (d in on.blobs ==> now.blobs[d] == on.blobs[d])
      && (d in now.parts <==> d in on.parts) && (d in on.parts ==> now.parts[d] == on.parts[d])
  }

  lemma StandsAfter(on: Sizes, before: Sizes, layers: seq<Layer>, n: nat, d: string)
    requires n < |layers| && Consistent(layers)
    requires Stands(on, before, layers, n, d) && Stands(on, before, layers, n, layers[n].digest)
    ensures Stands(on, Pulled(before, layers[n]).0, layers, n + 1, d)
  {
    assert layers[n] in layers;
  }

  lemma WritesNeed(on: Sizes, before: Sizes, layers: seq<Layer>, n: nat)
    requires n < |layers| && Consistent(layers)
    requires Stands(on, before, layers, n, layers[n].digest)
    ensures var l := layers[n];
      Pulled(before, l).1 == if Counts(on, layers, n) && !WholePart(on, l) then Need(on, l) else 0
  {
    assert layers[n] in layers;
  }

  ghost predicate AllStand(on: Sizes, now: Sizes, layers: seq<Layer>, n: nat)
    requires n <= |layers|
  {
    forall d: string :: Stands(on, now, layers, n, d)
  }

  lemma {:induction false} PullingStands(on: Sizes, layers: seq<Layer>, n: nat)
    requires n <= |layers| && Consistent(layers)
    ensures AllStand(on, PulledUpTo(on, layers, n).0, layers, n)
    ensures PulledUpTo(on, layers, n).1 <= Total(on, layers, n)
    ensures PulledUpTo(on, layers, n).1 == Total(on, layers, n) <==> NoWholePart(on, layers, n)
  {
    hide AllStand, Pulled, Need, NoWholePart, Consistent, Counts;
    if n == 0 {
      AllStandAtFirst(on, layers);
    } else {
      PullingStands(on, layers, n - 1);
      var before := PulledUpTo(on, layers, n - 1).0;
      AllStandAfter(on, before, layers, n - 1);
      NeedsMore(on, before, layers, n - 1);
      OneMorePart(on, layers, n - 1);
    }
  }

  lemma AllStandAfter(on: Sizes, before: Sizes, layers: seq<Layer>, n: nat)
    requires n < |layers| && Consistent(layers) && AllStand(on, before, layers, n)
    ensures AllStand(on, Pulled(before, layers[n]).0, layers, n + 1)
  {
    hide Stands, Pulled;
    var after, more := Pulled(before, layers[n]).0, n + 1;
    forall d: string ensures Stands(on, after, layers, more, d) {
      StandsAfter(on, before, layers, n, d);
    }
  }

  /** A layer writes at most what it counts for, and less only if it lies there
      whole. */
  lemma NeedsMore(on: Sizes, before: Sizes, layers: seq<Layer>, n: nat)
    requires n < |layers| && Consistent(layers) && AllStand(on, before, layers, n)
    ensures var wrote, need := Pulled(before, layers[n]).1, if Counts(on, layers, n) then Need(on, layers[n]) else 0;
      0 <= wrote <= need && (wrote == need <==> !(Counts(on, layers, n) && WholePart(on, layers[n])))
  {
    hide Stands, Pulled;
    assert Stands(on, before, layers, n, layers[n].digest);
    WritesNeed(on, before, layers, n);
  }

  lemma OneMorePart(on: Sizes, layers: seq<Layer>, n: nat)
    requires n < |layers|
    ensures NoWholePart(on, layers, n + 1) <==>
      NoWholePart(on, layers, n) && !(Counts(on, layers, n) && WholePart(on, layers[n]))
  {
    hide Counts, WholePart;
  }

  lemma AllStandAtFirst(on: Sizes, layers: seq<Layer>)
    ensures AllStand(on, on, layers, 0) && NoWholePart(on, layers, 0)
  {
  }

  /** What is reserved is never less than what pulling the layers one after
      another writes, and is exactly that unless a layer asked for lies there
      whole as a partial file, which the sum takes for nothing. */
  lemma ReservesWhatIsWritten(on: Sizes, layers: seq<Layer>)
    requires Consistent(layers)
    ensures var wrote := PulledUpTo(on, layers, |layers|).1;
      wrote <= Total(on, layers, |layers|) &&
      (wrote == Total(on, layers, |layers|) <==> NoWholePart(on, layers, |layers|))
  {
    PullingStands(on, layers, |layers|);
  }
}
