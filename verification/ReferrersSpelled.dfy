/** What a listing of referrers must have met and what it gives, said of the
    pages themselves (`getReferrersIndex` of go-shim/referrers.go). */
module ReferrersSpelled {
  import opened Wrappers
  import opened ReferrersIndex
  import opened ReferrersListing

  /** The page was read in full, parses, and links to the endpoint asked next,
      on the starting origin; the last one links to nothing. */
  ghost predicate Answered(s: Server, asked: seq<string>, k: nat)
    requires k < |asked|
  {
    var page := s.answer(asked[..k + 1]);
    && page.Page? && page.bytes <= 4_194_304 && page.entries.Some?
    && if k + 1 < |asked| then page.next == Link(asked[k + 1]) && s.within(asked[k + 1])
       else page.next == NoNext || page.next == Link("")
  }

  /** The entries are those of the pages, page after page: `cuts` says where each
      page's begin and end. */
  ghost predicate CutAt(s: Server, asked: seq<string>, entries: seq<Entry>, cuts: seq<nat>) {
    && |cuts| == |asked| + 1 && cuts[0] == 0 && cuts[|asked|] == |entries|
    && forall k | 0 <= k < |asked| :: SliceIs(s, asked, entries, cuts, k)
  }

  ghost predicate SliceIs(s: Server, asked: seq<string>, entries: seq<Entry>, cuts: seq<nat>, k: nat)
    requires k < |asked| && |cuts| == |asked| + 1
  {
    var page := s.answer(asked[..k + 1]);
    page.Page? && cuts[k] <= cuts[k + 1] <= |entries| && page.entries == Some(entries[cuts[k]..cuts[k + 1]])
  }

  ghost predicate Collected(s: Server, asked: seq<string>, entries: seq<Entry>) {
    exists cuts :: CutAt(s, asked, entries, cuts)
  }

  /** The running totals of the pages' bytes. */
  ghost predicate Counted(s: Server, asked: seq<string>, totals: seq<nat>) {
    && |totals| == |asked| + 1 && totals[0] == 0
    && forall k | 0 <= k < |asked| :: AddsUp(s, asked, totals, k)
  }

  ghost predicate AddsUp(s: Server, asked: seq<string>, totals: seq<nat>, k: nat)
    requires k < |asked| && |totals| == |asked| + 1
  {
    var page := s.answer(asked[..k + 1]);
    totals[k + 1] == totals[k] + if page.Page? then page.bytes else 0
  }

  ghost predicate Affordable(s: Server, asked: seq<string>) {
    exists totals :: Counted(s, asked, totals) && totals[|asked|] <= 16_777_216
  }

  /** A chain of pages within all limits, and the entries in it. */
  ghost predicate Good(s: Server, start: string, asked: seq<string>, entries: seq<Entry>) {
    && 0 < |asked| <= 64 && asked[0] == start
    && (forall k | 0 <= k < |asked| :: asked[k] != "")
    && (forall i, j | 0 <= i < j < |asked| :: asked[i] != asked[j])
    && (forall k | 0 <= k < |asked| :: Answered(s, asked, k))
    && Collected(s, asked, entries) && |entries| <= 10_000
    && Affordable(s, asked)
  }

  // ----- the totals -----

  lemma {:induction false} CollectedIs(s: Server, asked: seq<string>, entries: seq<Entry>, cuts: seq<nat>)
    requires CutAt(s, asked, entries, cuts)
    ensures entries == EntriesOf(s, asked)
  {
    if asked == [] {
    } else {
      var n := |asked| - 1;
      assert SliceIs(s, asked, entries, cuts, n);
      assert asked[..n + 1] == asked;
      var before, sooner, fewer := entries[..cuts[n]], asked[..n], cuts[..n + 1];
      forall k | 0 <= k < n ensures SliceIs(s, sooner, before, fewer, k) {
        EarlierCut(s, asked, entries, cuts, n, k);
      }
      CollectedIs(s, sooner, before, fewer);
      assert entries == before + entries[cuts[n]..cuts[n + 1]];
    }
  }

  lemma EarlierCut(s: Server, asked: seq<string>, entries: seq<Entry>, cuts: seq<nat>, n: nat, k: nat)
    requires k < n < |asked| && CutAt(s, asked, entries, cuts)
    ensures cuts[n] <= |entries| && SliceIs(s, asked[..n], entries[..cuts[n]], cuts[..n + 1], k)
  {
    assert SliceIs(s, asked, entries, cuts, n);
    assert SliceIs(s, asked, entries, cuts, k);
    CutsGrow(s, asked, entries, cuts, k + 1, n);
    assert asked[..n][..k + 1] == asked[..k + 1];
    assert entries[..cuts[n]][cuts[k]..cuts[k + 1]] == entries[cuts[k]..cuts[k + 1]];
  }

  lemma {:induction false} CutsGrow(s: Server, asked: seq<string>, entries: seq<Entry>, cuts: seq<nat>, i: nat, j: nat)
    requires i <= j <= |asked| && CutAt(s, asked, entries, cuts)
    ensures cuts[i] <= cuts[j]
    decreases j
  {
    if i == j {
    } else {
      CutsGrow(s, asked, entries, cuts, i, j - 1);
      assert SliceIs(s, asked, entries, cuts, j - 1);
    }
  }

  ghost predicate HasEntries(s: Server, asked: seq<string>, k: nat)
    requires k < |asked|
  {
    var page := s.answer(asked[..k + 1]);
    page.Page? && page.entries.Some?
  }

  lemma EntriesThere(s: Server, asked: seq<string>, k: nat)
    requires k < |asked| && Answered(s, asked, k)
    ensures HasEntries(s, asked, k)
  {
  }

  lemma {:induction false} EntriesCut(s: Server, asked: seq<string>) returns (cuts: seq<nat>)
    requires forall k | 0 <= k < |asked| :: HasEntries(s, asked, k)
    ensures CutAt(s, asked, EntriesOf(s, asked), cuts)
  {
    if asked == [] {
      cuts := [0];
    } else {
      var n := |asked| - 1;
      forall k | 0 <= k < n ensures HasEntries(s, asked[..n], k) {
        assert HasEntries(s, asked, k);
        assert asked[..n][..k + 1] == asked[..k + 1];
      }
      var shorter := EntriesCut(s, asked[..n]);
      assert HasEntries(s, asked, n);
      cuts := shorter + [|EntriesOf(s, asked)|];
      CutsGoOn(s, asked, shorter);
    }
  }

  lemma CutsGoOn(s: Server, asked: seq<string>, cuts: seq<nat>)
    requires asked != [] && HasEntries(s, asked, |asked| - 1)
    requires CutAt(s, asked[..|asked| - 1], EntriesOf(s, asked[..|asked| - 1]), cuts)
    ensures CutAt(s, asked, EntriesOf(s, asked), cuts + [|EntriesOf(s, asked)|])
  {
    var n := |asked| - 1;
    var before, entries := EntriesOf(s, asked[..n]), EntriesOf(s, asked);
    var longer := cuts + [|entries|];
    assert asked[..n + 1] == asked;
    forall k | 0 <= k < |asked| ensures SliceIs(s, asked, entries, longer, k) {
      if k < n {
        assert SliceIs(s, asked[..n], before, cuts, k);
        assert asked[..n][..k + 1] == asked[..k + 1];
        assert entries[cuts[k]..cuts[k + 1]] == before[cuts[k]..cuts[k + 1]];
      } else {
        assert entries[|before|..|entries|] == s.answer(asked).entries.value;
      }
    }
  }

  lemma {:induction false} CountedIs(s: Server, asked: seq<string>, totals: seq<nat>, n: nat)
    requires Counted(s, asked, totals) && n <= |asked|
    ensures totals[n] == BytesOf(s, asked[..n])
  {
    if n == 0 {
    } else {
      CountedIs(s, asked, totals, n - 1);
      assert AddsUp(s, asked, totals, n - 1);
      assert asked[..n][..n - 1] == asked[..n - 1];
    }
  }

  lemma AffordableIs(s: Server, asked: seq<string>)
    ensures Affordable(s, asked) <==> BytesOf(s, asked) <= 16_777_216
  {
    assert asked[..|asked|] == asked;
    if Affordable(s, asked) {
      var totals :| Counted(s, asked, totals) && totals[|asked|] <= 16_777_216;
      CountedIs(s, asked, totals, |asked|);
    }
    var totals := seq(|asked| + 1, k requires 0 <= k <= |asked| => BytesOf(s, asked[..k]));
    forall k | 0 <= k < |asked| ensures AddsUp(s, asked, totals, k) {
      assert asked[..k + 1][..k] == asked[..k];
    }
    assert Counted(s, asked, totals);
  }

  // ----- the listing -----

  lemma AnsweredFollows(s: Server, asked: seq<string>, k: nat)
    requires 0 < k <= |asked| && forall i | 0 <= i < |asked| :: asked[i] != ""
    ensures Answered(s, asked, k - 1) <==> Follows(s, asked[..k], if k < |asked| then asked[k] else "")
  {
  }

  lemma ChainIs(s: Server, asked: seq<string>)
    requires forall i | 0 <= i < |asked| :: asked[i] != ""
    ensures Chain(s, asked) <==> forall k | 0 <= k < |asked| :: Answered(s, asked, k)
  {
    hide Answered, Follows;
    if forall k | 0 <= k < |asked| :: Answered(s, asked, k) {
      forall k | 0 < k <= |asked| ensures Follows(s, asked[..k], if k < |asked| then asked[k] else "") {
        assert Answered(s, asked, k - 1);
        AnsweredFollows(s, asked, k);
      }
    }
    if Chain(s, asked) {
      forall k | 0 <= k < |asked| ensures Answered(s, asked, k) {
        AnsweredFollows(s, asked, k + 1);
        LinkedTo(s, asked, k + 1);
      }
    }
  }

  lemma LinkedTo(s: Server, asked: seq<string>, k: nat)
    requires Chain(s, asked) && 0 < k <= |asked|
    ensures Follows(s, asked[..k], if k < |asked| then asked[k] else "")
  {
  }

  lemma GoodIs(s: Server, start: string, asked: seq<string>, entries: seq<Entry>)
    ensures Good(s, start, asked, entries) <==> GoodListing(s, start, asked) && entries == EntriesOf(s, asked)
  {
    hide Answered, Chain, CutAt, Affordable, BytesOf, EntriesOf;
    assert (forall i | 0 <= i < |asked| :: asked[i] != "") ==> forall url | url in asked :: url != "";
    if forall url | url in asked :: url != "" {
      forall i | 0 <= i < |asked| ensures asked[i] != "" {
        assert asked[i] in asked;
      }
    }
    if forall i | 0 <= i < |asked| :: asked[i] != "" {
      ChainIs(s, asked);
      AffordableIs(s, asked);
      if Collected(s, asked, entries) {
        var cuts :| CutAt(s, asked, entries, cuts);
        CollectedIs(s, asked, entries, cuts);
      }
      if forall k | 0 <= k < |asked| :: Answered(s, asked, k) {
        forall k | 0 <= k < |asked| ensures HasEntries(s, asked, k) {
          EntriesThere(s, asked, k);
        }
        var cuts := EntriesCut(s, asked);
        assert Collected(s, asked, EntriesOf(s, asked));
      }
    }
  }

  /** Against any server: a listing gives these entries exactly when the requests
      made are a good chain holding them, and there is no other good chain. */
  lemma ListingMeans(s: Server, start: string)
    requires start != ""
    ensures var (r, asked) := Walk(s, [], start);
      && (forall entries :: r == Listed(entries) <==> Good(s, start, asked, entries))
      && forall chain, entries | Good(s, start, chain, entries) :: chain == asked && r == Listed(entries)
  {
    hide Walk, GoodListing, Good, EntriesOf;
    var (r, asked) := Walk(s, [], start);
    ListingIsExact(s, start);
    forall chain, entries
      ensures Good(s, start, chain, entries) <==> GoodListing(s, start, chain) && entries == EntriesOf(s, chain)
    {
      GoodIs(s, start, chain, entries);
    }
  }
}
