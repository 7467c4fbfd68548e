/** The fallback referrers index of go-shim/referrers.go: one publication while
    the process-wide lock is held. */
module ReferrersIndex {

  const ATTEMPTS := 3
  const MAX_MANIFEST_BYTES := 0x10_0000

  /** A descriptor: its digest and everything else. */
  datatype Entry = Entry(digest: string, rest: string)

  /** Byte order of strings. */
  predicate AtMost(a: string, b: string) {
    a == [] || (b != [] && (a[0] < b[0] || (a[0] == b[0] && AtMost(a[1..], b[1..]))))
  }

  lemma {:induction false} AtMostTotal(a: string, b: string)
    ensures AtMost(a, b) || AtMost(b, a)
    decreases |a|
  {
    if a == [] || b == [] || a[0] != b[0] {
    } else {
      AtMostTotal(a[1..], b[1..]);
    }
  }

  lemma {:induction false} AtMostTransitive(a: string, b: string, c: string)
    requires AtMost(a, b) && AtMost(b, c)
    ensures AtMost(a, c)
    decreases |a|
  {
    if a == [] || a[0] != b[0] || b[0] != c[0] {
    } else {
      AtMostTransitive(a[1..], b[1..], c[1..]);
    }
  }

  /** The order of strings in a dictionary: one that another begins with comes
      before it, and otherwise the first difference decides. */
  ghost predicate Before(a: string, b: string) {
    a <= b || exists k: nat :: DiffersAt(a, b, k)
  }

  ghost predicate DiffersAt(a: string, b: string, k: nat) {
    k < |a| && k < |b| && a[..k] == b[..k] && a[k] < b[k]
  }

  lemma DifferLater(first: char, c: string, d: string, k: nat)
    ensures DiffersAt([first] + c, [first] + d, k + 1) <==> DiffersAt(c, d, k)
  {
    var a, b := [first] + c, [first] + d;
    if k <= |c| && k <= |d| {
      assert a[..k + 1] == [first] + c[..k] && b[..k + 1] == [first] + d[..k];
      assert c[..k] == a[..k + 1][1..] && d[..k] == b[..k + 1][1..];
    }
  }

  lemma BeginLater(first: char, c: string, d: string)
    ensures [first] + c <= [first] + d <==> c <= d
  {
    assert ([first] + c)[1..] == c && ([first] + d)[1..] == d;
  }

  lemma {:induction false} AtMostIsBefore(a: string, b: string)
    ensures AtMost(a, b) <==> Before(a, b)
    decreases |a|
  {
    hide DiffersAt;
    if a == [] || b == [] || a[0] != b[0] {
      FirstDiffers(a, b);
    } else {
      var c, d := a[1..], b[1..];
      AtMostIsBefore(c, d);
      BeginLater(a[0], c, d);
      assert a == [a[0]] + c && b == [b[0]] + d;
      NoneAtOnce(a, b);
      forall k: nat ensures DiffersAt(a, b, k + 1) <==> DiffersAt(c, d, k) {
        DifferLater(a[0], c, d, k);
      }
      if exists k: nat :: DiffersAt(a, b, k) {
        var k: nat :| DiffersAt(a, b, k);
        assert DiffersAt(c, d, k - 1);
      }
      if exists k: nat :: DiffersAt(c, d, k) {
        var k: nat :| DiffersAt(c, d, k);
        assert DiffersAt(a, b, k + 1);
      }
    }
  }

  lemma NoneAtOnce(a: string, b: string)
    requires a != [] && b != [] && a[0] == b[0]
    ensures !DiffersAt(a, b, 0)
  {
  }

  lemma FirstDiffers(a: string, b: string)
    requires a == [] || b == [] || a[0] != b[0]
    ensures AtMost(a, b) <==> Before(a, b)
  {
    if a != [] && b != [] {
      assert DiffersAt(a, b, 0) <==> a[0] < b[0];
      forall k: nat | k > 0 ensures !DiffersAt(a, b, k) {
        if k <= |a| && k <= |b| {
          assert a[..k][0] != b[..k][0];
        }
      }
    }
  }

  predicate Sorted(entries: seq<Entry>) {
    forall i, j | 0 <= i < j < |entries| :: AtMost(entries[i].digest, entries[j].digest)
  }

  ghost predicate NoDuplicates(entries: seq<Entry>) {
    forall i, j | 0 <= i < j < |entries| :: entries[i].digest != entries[j].digest
  }

  predicate Lists(entries: seq<Entry>, digest: string) {
    exists i | 0 <= i < |entries| :: entries[i].digest == digest
  }

  /** The outcome of a sort by digest; equal digests may come in any order. */
  predicate IsSortOf(sorted: seq<Entry>, entries: seq<Entry>) {
    Sorted(sorted) && multiset(sorted) == multiset(entries)
  }

  lemma SortKeepsEntries(sorted: seq<Entry>, entries: seq<Entry>)
    requires multiset(sorted) == multiset(entries)
    ensures forall e :: e in sorted <==> e in entries
  {
    assert forall e :: e in sorted <==> e in multiset(sorted);
    assert forall e :: e in entries <==> e in multiset(entries);
  }

  lemma InsertedOnce(base: seq<Entry>, artifact: Entry)
    requires NoDuplicates(base) && !Lists(base, artifact.digest)
    ensures NoDuplicates(base + [artifact])
  {
  }

  /** Rearranging entries without duplicates creates none. */
  lemma RearrangedOnce(sorted: seq<Entry>, entries: seq<Entry>)
    requires multiset(sorted) == multiset(entries) && NoDuplicates(entries)
    ensures NoDuplicates(sorted)
  {
    forall i, j | 0 <= i < j < |sorted| ensures sorted[i].digest != sorted[j].digest {
      if sorted[i] == sorted[j] {
        TwiceThere(sorted, i, j);
        AtMostOnce(entries, sorted[i]);
      } else {
        SortKeepsEntries(sorted, entries);
        assert sorted[i] in entries && sorted[j] in entries;
      }
    }
  }

  lemma TwiceThere(entries: seq<Entry>, i: nat, j: nat)
    requires i < j < |entries| && entries[i] == entries[j]
    ensures multiset(entries)[entries[i]] >= 2
  {
    var e := entries[i];
    assert entries == entries[..i] + [e] + entries[i + 1..j] + [e] + entries[j + 1..];
  }

  lemma {:induction false} AtMostOnce(entries: seq<Entry>, e: Entry)
    requires NoDuplicates(entries)
    ensures multiset(entries)[e] <= 1
  {
    if entries == [] {
    } else {
      var init, last := entries[..|entries| - 1], entries[|entries| - 1];
      AtMostOnce(init, e);
      assert entries == init + [last];
      if last == e {
        assert forall x | x in init :: x != e;
        assert e !in multiset(init);
      }
    }
  }

  // ----- sorting -----

  function Insert(sorted: seq<Entry>, e: Entry): seq<Entry> {
    if sorted == [] || AtMost(e.digest, sorted[0].digest) then [e] + sorted
    else [sorted[0]] + Insert(sorted[1..], e)
  }

  function SortByDigest(entries: seq<Entry>): seq<Entry> {
    if entries == [] then [] else Insert(SortByDigest(entries[1..]), entries[0])
  }

  lemma SortedFirst(first: Entry, more: seq<Entry>)
    requires Sorted(more) && forall x | x in more :: AtMost(first.digest, x.digest)
    ensures Sorted([first] + more)
  {
  }

  lemma FirstIsLeast(sorted: seq<Entry>)
    requires Sorted(sorted) && sorted != []
    ensures Sorted(sorted[1..]) && forall x | x in sorted[1..] :: AtMost(sorted[0].digest, x.digest)
  {
  }

  lemma {:induction false} InsertSorts(sorted: seq<Entry>, e: Entry)
    requires Sorted(sorted)
    ensures Sorted(Insert(sorted, e)) && multiset(Insert(sorted, e)) == multiset(sorted) + multiset{e}
    decreases |sorted|
  {
    hide Sorted, AtMost;
    if sorted == [] {
      NothingToSort(e);
    } else {
      var first, more := sorted[0], sorted[1..];
      assert sorted == [first] + more;
      FirstIsLeast(sorted);
      if AtMost(e.digest, first.digest) {
        forall x | x in sorted ensures AtMost(e.digest, x.digest) {
          if x != first { AtMostTransitive(e.digest, first.digest, x.digest); }
        }
        SortedFirst(e, sorted);
      } else {
        InsertSorts(more, e);
        AtMostTotal(e.digest, first.digest);
        InsertedFrom(more, e);
        SortedFirst(first, Insert(more, e));
      }
    }
  }

  lemma NothingToSort(e: Entry)
    ensures Sorted([]) && Sorted([e]) && [e] + [] == [e]
  {
  }

  lemma {:induction false} InsertedFrom(sorted: seq<Entry>, e: Entry)
    ensures forall x | x in Insert(sorted, e) :: x in sorted || x == e
    decreases |sorted|
  {
    hide AtMost;
    if sorted == [] {
    } else {
      InsertedFrom(sorted[1..], e);
    }
  }

  lemma {:induction false} SortSorts(entries: seq<Entry>)
    ensures IsSortOf(SortByDigest(entries), entries)
    decreases |entries|
  {
    if entries == [] {
    } else {
      SortSorts(entries[1..]);
      InsertSorts(SortByDigest(entries[1..]), entries[0]);
      assert entries == [entries[0]] + entries[1..];
    }
  }

  // ----- one publication under the lock -----

  datatype Outcome = Accepted | Lost | Unacknowledged

  /** What one append leaves of the index. */
  lemma AfterAppend(before: seq<Entry>, after: seq<Entry>, artifact: Entry)
    requires !Lists(before, artifact.digest)
    requires after == before || IsSortOf(after, before + [artifact])
    ensures forall e | e in before :: e in after
    ensures forall e | e in after :: e in before || e == artifact
    ensures Sorted(before) ==> Sorted(after)
    ensures NoDuplicates(before) ==> NoDuplicates(after)
    ensures IsSortOf(after, before + [artifact]) ==> Lists(after, artifact.digest)
  {
    if IsSortOf(after, before + [artifact]) {
      SortKeepsEntries(after, before + [artifact]);
      assert artifact in before + [artifact];
      assert artifact in after;
      if NoDuplicates(before) {
        InsertedOnce(before, artifact);
        RearrangedOnce(after, before + [artifact]);
      }
    }
  }

  /** What the registry answers to one publication: whether the read and the
      confirming read are answered, and what becomes of the put. */
  datatype Answers = Answers(read: bool, put: Outcome, confirm: bool)

  function IndexIn(indexes: map<string, seq<Entry>>, tag: string): seq<Entry> {
    if tag in indexes then indexes[tag] else []
  }

  /** The index a publisher puts. */
  function Extended(indexes: map<string, seq<Entry>>, tag: string, artifact: Entry): seq<Entry> {
    SortByDigest(IndexIn(indexes, tag) + [artifact])
  }

  /** Whether a put is made that reaches the registry. */
  predicate Puts(indexes: map<string, seq<Entry>>, tag: string, artifact: Entry, encodedSize: nat, a: Answers) {
    a.read && !Lists(IndexIn(indexes, tag), artifact.digest) && encodedSize <= MAX_MANIFEST_BYTES && !a.put.Lost?
  }

  /** The indexes and the result after the locked part of a publication. */
  function AfterPublication(indexes: map<string, seq<Entry>>, tag: string, artifact: Entry, encodedSize: nat,
        a: Answers): (map<string, seq<Entry>>, bool) {
    if Puts(indexes, tag, artifact, encodedSize, a) then
      (indexes[tag := Extended(indexes, tag, artifact)], a.put.Accepted? && a.confirm)
    else (indexes, a.read && Lists(IndexIn(indexes, tag), artifact.digest))
  }

  /** Success means the digest is listed; no entry is lost and none but the
      artifact is added; other tags stay, and so do order and absence of
      duplicates. */
  lemma PublicationKeeps(indexes: map<string, seq<Entry>>, tag: string, artifact: Entry, encodedSize: nat, a: Answers)
    ensures var (after, ok) := AfterPublication(indexes, tag, artifact, encodedSize, a);
      var was, now := IndexIn(indexes, tag), IndexIn(after, tag);
      (ok ==> Lists(now, artifact.digest)) &&
      (forall e | e in was :: e in now) && (forall e | e in now :: e in was || e == artifact) &&
      (forall t | t != tag :: IndexIn(after, t) == IndexIn(indexes, t)) &&
      (Sorted(was) ==> Sorted(now)) && (NoDuplicates(was) ==> NoDuplicates(now))
  {
    hide Sorted, NoDuplicates, Lists;
    var was := IndexIn(indexes, tag);
    if Puts(indexes, tag, artifact, encodedSize, a) {
      SortSorts(was + [artifact]);
      AfterAppend(was, Extended(indexes, tag, artifact), artifact);
    }
  }

  /** When a publication succeeds and when it changes anything: the digest must be
      listed already, or the index must be read, be small enough with the new
      entry, be taken and be confirmed. A put index is the old one and the
      artifact, in order. */
  lemma PublicationDecides(indexes: map<string, seq<Entry>>, tag: string, artifact: Entry, encodedSize: nat, a: Answers)
    ensures var (after, ok) := AfterPublication(indexes, tag, artifact, encodedSize, a);
      var was := if tag in indexes then indexes[tag] else [];
      var listed := exists e | e in was :: e.digest == artifact.digest;
      && (ok <==> a.read && (listed || (encodedSize <= 1_048_576 && a.put == Accepted && a.confirm)))
      && (if a.read && !listed && encodedSize <= 1_048_576 && a.put != Lost then
            tag in after && after == indexes[tag := after[tag]] && Sorted(after[tag]) &&
            multiset(after[tag]) == multiset(was + [artifact])
          else after == indexes)
  {
    hide Sorted;
    var was := IndexIn(indexes, tag);
    SortSorts(was + [artifact]);
    ListsSome(was, artifact.digest);
  }

  lemma ListsSome(entries: seq<Entry>, digest: string)
    ensures Lists(entries, digest) <==> exists e | e in entries :: e.digest == digest
  {
    if Lists(entries, digest) {
      var i :| 0 <= i < |entries| && entries[i].digest == digest;
      assert entries[i] in entries;
    }
    if exists e | e in entries :: e.digest == digest {
      var e :| e in entries && e.digest == digest;
      var i :| 0 <= i < |entries| && entries[i] == e;
    }
  }

  datatype Verdict = Published | AlreadyListed | Error

  /** The registry's side: the index behind every fallback tag. */
  class Registry {
    var indexes: map<string, seq<Entry>>

    constructor ()
      ensures indexes == map[]
    {
      indexes := map[];
    }

    /** `appendFallbackReferrer`: one read, append, sort and put. The verdict is
        Error when the read or the put was refused or the put's answer lost; in
        the last case alone the index has changed. */
    method AppendFallbackReferrer(tag: string, artifact: Entry, encodedSize: nat, a: Answers) returns (v: Verdict)
      modifies this
      ensures v ==
        if !a.read then Error
        else if Lists(IndexIn(old(indexes), tag), artifact.digest) then AlreadyListed
        else if encodedSize <= 1_048_576 && a.put == Accepted then Published
        else Error
      ensures indexes ==
        if Puts(old(indexes), tag, artifact, encodedSize, a) then
          old(indexes)[tag := Extended(old(indexes), tag, artifact)]
        else old(indexes)
    {
      if !a.read {
        return Error;
      }
      var entries := IndexIn(indexes, tag);
      for i := 0 to |entries|
        invariant forall j | 0 <= j < i :: entries[j].digest != artifact.digest
      {
        if entries[i].digest == artifact.digest {
          return AlreadyListed;
        }
      }
      entries := SortByDigest(entries + [artifact]);
      if encodedSize > MAX_MANIFEST_BYTES || a.put == Lost {
        return Error;
      }
      indexes := indexes[tag := entries];
      return if a.put == Accepted then Published else Error;
    }

    /** The locked part of `publishFallbackReferrer`: the loop never comes to a
        second attempt, so the first answers decide. */
    method PublishFallbackReferrer(tag: string, artifact: Entry, encodedSize: nat, answers: seq<Answers>)
      returns (ok: bool, pushes: nat)
      requires |answers| == ATTEMPTS
      modifies this
      ensures (indexes, ok) == AfterPublication(old(indexes), tag, artifact, encodedSize, answers[0])
      ensures pushes == if Puts(old(indexes), tag, artifact, encodedSize, answers[0]) && answers[0].put.Accepted? then 1 else 0
    {
      hide Sorted, NoDuplicates, Extended;
      pushes := 0;
      for attempt := 0 to ATTEMPTS
        invariant attempt == 0 && pushes == 0 && indexes == old(indexes)
      {
        var v := AppendFallbackReferrer(tag, artifact, encodedSize, answers[attempt]);
        if v == AlreadyListed {
          return true, pushes;
        }
        if v == Error {
          return false, pushes;
        }
        pushes := pushes + 1;
        if !answers[attempt].confirm {
          return false, pushes;
        }
        var landed := IndexIn(indexes, tag);
        ExtendedLists(old(indexes), tag, artifact);
        for i := 0 to |landed|
          invariant forall j | 0 <= j < i :: landed[j].digest != artifact.digest
        {
          if landed[i].digest == artifact.digest {
            return true, pushes;
          }
        }
      }
    }
  }

  lemma ExtendedLists(indexes: map<string, seq<Entry>>, tag: string, artifact: Entry)
    ensures Lists(Extended(indexes, tag, artifact), artifact.digest)
  {
    var entries := IndexIn(indexes, tag) + [artifact];
    SortSorts(entries);
    assert artifact in entries;
    SortKeepsEntries(SortByDigest(entries), entries);
    assert artifact in SortByDigest(entries);
  }
}
