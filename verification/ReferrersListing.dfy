/** Listing referrers page by page (`getReferrersIndex` of
    go-shim/referrers.go), against any server. */
module ReferrersListing {
  import opened Wrappers
  import opened ReferrersIndex

  const MAX_PAGE_BYTES := 0x40_0000
  const MAX_TOTAL_BYTES := 0x100_0000
  const MAX_PAGES := 64
  const MAX_DESCRIPTORS := 10000

  datatype Next = NoNext | BadLink | Link(url: string)

  /** The answer to one request: its body's size, the descriptors in it unless
      it does not parse, and the next link. */
  datatype Page = NotFound | NoAnswer | Page(bytes: nat, entries: Option<seq<Entry>>, next: Next)

  /** A server answers each request knowing all that came before it; `within`
      says which endpoints are on the origin the listing started from. */
  datatype Server = Server(answer: seq<string> -> Page, within: string -> bool)

  datatype Listing = Listed(entries: seq<Entry>) | Absent | Refused

  // ----- what a good listing is -----

  /** A page that is read in full and parses. */
  predicate Readable(p: Page) {
    p.Page? && p.bytes <= MAX_PAGE_BYTES && p.entries.Some?
  }

  function Linked(p: Page): string {
    if p.Page? && p.next.Link? then p.next.url else ""
  }

  function PageEntries(p: Page): seq<Entry> {
    if p.Page? && p.entries.Some? then p.entries.value else []
  }

  function PageBytes(p: Page): nat {
    if p.Page? then p.bytes else 0
  }

  /** The descriptors of all pages asked for, in order. */
  function EntriesOf(s: Server, asked: seq<string>): seq<Entry> {
    if asked == [] then [] else EntriesOf(s, asked[..|asked| - 1]) + PageEntries(s.answer(asked))
  }

  function BytesOf(s: Server, asked: seq<string>): nat {
    if asked == [] then 0 else BytesOf(s, asked[..|asked| - 1]) + PageBytes(s.answer(asked))
  }

  predicate Distinct(asked: seq<string>) {
    forall i, j | 0 <= i < j < |asked| :: asked[i] != asked[j]
  }

  /** Every page links to the endpoint asked next, on the starting origin, and
      the last to none; each is readable. */
  predicate Chain(s: Server, asked: seq<string>) {
    forall k | 0 < k <= |asked| :: Follows(s, asked[..k], if k < |asked| then asked[k] else "")
  }

  predicate Follows(s: Server, asked: seq<string>, next: string) {
    var p := s.answer(asked);
    Readable(p) && !p.next.BadLink? && Linked(p) == next && (next != "" ==> s.within(next))
  }

  /** A listing within all limits: no endpoint twice, and not too many pages,
      bytes or descriptors. */
  predicate GoodListing(s: Server, start: string, asked: seq<string>) {
    && 0 < |asked| <= MAX_PAGES && asked[0] == start
    && (forall url | url in asked :: url != "")
    && Distinct(asked) && Chain(s, asked)
    && BytesOf(s, asked) <= MAX_TOTAL_BYTES && |EntriesOf(s, asked)| <= MAX_DESCRIPTORS
  }

  // ----- the walk -----

  datatype Turn = Stop(listing: Listing) | Go(next: string)

  /** What the answer to the last request leads to. */
  function TurnAfter(s: Server, asked: seq<string>): Turn {
    var page := s.answer(asked);
    if page == NotFound && |asked| == 1 then Stop(Absent)
    else if !page.Page? || page.bytes > MAX_PAGE_BYTES || BytesOf(s, asked) > MAX_TOTAL_BYTES then Stop(Refused)
    else if page.entries.None? || |EntriesOf(s, asked)| > MAX_DESCRIPTORS || page.next.BadLink? then Stop(Refused)
    else if Linked(page) != "" && !s.within(Linked(page)) then Stop(Refused)
    else Go(Linked(page))
  }

  function Walk(s: Server, asked: seq<string>, endpoint: string): (Listing, seq<string>)
    decreases MAX_PAGES - |asked|
  {
    if endpoint == "" then (Listed(EntriesOf(s, asked)), asked)
    else if |asked| >= MAX_PAGES || endpoint in asked then (Refused, asked)
    else
      var now := asked + [endpoint];
      match TurnAfter(s, now)
      case Stop(listing) => (listing, now)
      case Go(next) => Walk(s, now, next)
  }

  lemma Latest(s: Server, asked: seq<string>, endpoint: string)
    ensures var now := asked + [endpoint];
      EntriesOf(s, now) == EntriesOf(s, asked) + PageEntries(s.answer(now)) &&
      BytesOf(s, now) == BytesOf(s, asked) + PageBytes(s.answer(now))
  {
  }

  /** `getReferrersIndex`: the loop follows the walk, adding up as it goes. */
  method GetReferrersIndex(s: Server, start: string) returns (r: Listing, asked: seq<string>)
    ensures (r, asked) == Walk(s, [], start)
  {
    hide EntriesOf, BytesOf;
    var endpoint := start;
    asked := [];
    var entries: seq<Entry> := [];
    var seen: set<string> := {};
    var totalBytes := 0;
    Nothing(s);
    while endpoint != ""
      invariant forall url :: url in seen <==> url in asked
      invariant |seen| == |asked| <= MAX_PAGES
      invariant entries == EntriesOf(s, asked) && totalBytes == BytesOf(s, asked)
      invariant Walk(s, asked, endpoint) == Walk(s, [], start)
      decreases MAX_PAGES - |asked|
    {
      if |seen| >= MAX_PAGES {
        return Refused, asked;
      }
      if endpoint in seen {
        return Refused, asked;
      }
      Latest(s, asked, endpoint);
      seen := seen + {endpoint};
      asked := asked + [endpoint];
      var page := s.answer(asked);
      if page == NotFound && |asked| == 1 {
        return Absent, asked;
      }
      if !page.Page? || page.bytes > MAX_PAGE_BYTES {
        return Refused, asked;
      }
      totalBytes := totalBytes + page.bytes;
      if totalBytes > MAX_TOTAL_BYTES || page.entries.None? {
        return Refused, asked;
      }
      entries := entries + page.entries.value;
      if |entries| > MAX_DESCRIPTORS || page.next.BadLink? {
        return Refused, asked;
      }
      var next := if page.next.NoNext? then "" else page.next.url;
      if next != "" && !s.within(next) {
        return Refused, asked;
      }
      endpoint := next;
    }
    return Listed(entries), asked;
  }

  lemma Nothing(s: Server)
    ensures EntriesOf(s, []) == [] && BytesOf(s, []) == 0
  {
  }

  // ----- what the walk promises -----

  /** Requests made so far, each one where the page before it pointed. */
  predicate Followed(s: Server, start: string, asked: seq<string>, endpoint: string) {
    && |asked| <= MAX_PAGES && Distinct(asked)
    && (forall url | url in asked :: url != "")
    && (forall k | 0 < k <= |asked| :: Follows(s, asked[..k], if k < |asked| then asked[k] else endpoint))
    && BytesOf(s, asked) <= MAX_TOTAL_BYTES && |EntriesOf(s, asked)| <= MAX_DESCRIPTORS
    && (if asked == [] then endpoint == start else asked[0] == start)
  }

  lemma FollowOn(s: Server, start: string, asked: seq<string>, endpoint: string)
    requires Followed(s, start, asked, endpoint)
    requires endpoint != "" && |asked| < MAX_PAGES && endpoint !in asked
    requires TurnAfter(s, asked + [endpoint]).Go?
    ensures Followed(s, start, asked + [endpoint], TurnAfter(s, asked + [endpoint]).next)
  {
    hide BytesOf, EntriesOf;
    var now := asked + [endpoint];
    var next := TurnAfter(s, now).next;
    forall k | 0 < k <= |now| ensures Follows(s, now[..k], if k < |now| then now[k] else next) {
      if k <= |asked| {
        assert now[..k] == asked[..k];
      } else {
        assert now[..k] == now;
      }
    }
  }

  lemma {:induction false} WalkFollows(s: Server, start: string, asked: seq<string>, endpoint: string)
    requires Followed(s, start, asked, endpoint)
    ensures var (r, requests) := Walk(s, asked, endpoint);
      |requests| <= MAX_PAGES && Distinct(requests) &&
      (forall k | 0 < k < |requests| :: s.within(requests[k])) &&
      (r.Listed? && requests != [] ==> GoodListing(s, start, requests) && r.entries == EntriesOf(s, requests)) &&
      (r.Listed? && requests == [] ==> start == "")
    decreases MAX_PAGES - |asked|
  {
    hide BytesOf, EntriesOf;
    FollowedWithin(s, start, asked, endpoint);
    if endpoint == "" || |asked| >= MAX_PAGES || endpoint in asked {
    } else {
      var now := asked + [endpoint];
      match TurnAfter(s, now) {
        case Go(next) =>
          FollowOn(s, start, asked, endpoint);
          WalkFollows(s, start, now, next);
        case Stop(_) =>
      }
    }
  }

  lemma FollowedWithin(s: Server, start: string, asked: seq<string>, endpoint: string)
    requires Followed(s, start, asked, endpoint)
    ensures forall k | 0 < k < |asked| :: s.within(asked[k])
    ensures asked != [] && endpoint != "" ==> s.within(endpoint)
  {
    forall k | 0 < k < |asked| ensures s.within(asked[k]) {
      assert Follows(s, asked[..k], asked[k]);
      assert asked[k] in asked;
    }
    if asked != [] {
      assert Follows(s, asked[..|asked|], endpoint);
    }
  }

  lemma {:induction false} SumsGrow(s: Server, asked: seq<string>, k: nat)
    requires k <= |asked|
    ensures BytesOf(s, asked[..k]) <= BytesOf(s, asked) && |EntriesOf(s, asked[..k])| <= |EntriesOf(s, asked)|
    decreases |asked|
  {
    if k == |asked| {
      assert asked[..k] == asked;
    } else {
      SumsGrow(s, asked[..|asked| - 1], k);
      assert asked[..|asked| - 1][..k] == asked[..k];
    }
  }

  lemma GoodTurn(s: Server, start: string, asked: seq<string>, k: nat)
    requires GoodListing(s, start, asked) && 0 < k <= |asked|
    ensures TurnAfter(s, asked[..k]) == Go(if k < |asked| then asked[k] else "")
  {
    hide BytesOf, EntriesOf;
    SumsGrow(s, asked, k);
    assert Follows(s, asked[..k], if k < |asked| then asked[k] else "");
  }

  lemma {:induction false} WalkReaches(s: Server, start: string, asked: seq<string>, k: nat)
    requires GoodListing(s, start, asked) && k <= |asked|
    ensures Walk(s, asked[..k], if k < |asked| then asked[k] else "") == (Listed(EntriesOf(s, asked)), asked)
    decreases |asked| - k
  {
    hide BytesOf, EntriesOf, Chain;
    if k == |asked| {
      assert asked[..k] == asked;
    } else {
      assert forall i | 0 <= i < k :: asked[..k][i] == asked[i] && asked[i] != asked[k];
      assert asked[k] in asked;
      assert asked[..k] + [asked[k]] == asked[..k + 1];
      GoodTurn(s, start, asked, k + 1);
      WalkReaches(s, start, asked, k + 1);
    }
  }

  /** Against any server: at most 64 requests, none twice, none off the origin;
      and it succeeds exactly when following the links is a good listing, with
      exactly the pages along that chain. */
  lemma ListingIsExact(s: Server, start: string)
    requires start != ""
    ensures var (r, asked) := Walk(s, [], start);
      |asked| <= 64 && Distinct(asked) &&
      (forall k | 0 < k < |asked| :: s.within(asked[k])) &&
      (r.Listed? ==> GoodListing(s, start, asked) && r.entries == EntriesOf(s, asked)) &&
      (forall chain | GoodListing(s, start, chain) :: r == Listed(EntriesOf(s, chain)) && asked == chain)
  {
    hide GoodListing, Walk;
    NothingFollowed(s, start);
    WalkFollows(s, start, [], start);
    FirstAsked(s, start);
    forall chain | GoodListing(s, start, chain)
      ensures Walk(s, [], start) == (Listed(EntriesOf(s, chain)), chain)
    {
      StartsThere(s, start, chain);
      assert chain[..0] == [];
      WalkReaches(s, start, chain, 0);
    }
  }

  lemma NothingFollowed(s: Server, start: string)
    ensures Followed(s, start, [], start)
  {
  }

  lemma StartsThere(s: Server, start: string, chain: seq<string>)
    requires GoodListing(s, start, chain)
    ensures chain != [] && chain[0] == start
  {
  }

  lemma FirstAsked(s: Server, start: string)
    requires start != ""
    ensures Walk(s, [], start).0.Listed? ==> Walk(s, [], start).1 != []
  {
    if Walk(s, [], start).0.Listed? && TurnAfter(s, [] + [start]).Go? {
      WalkKeeps(s, [] + [start], TurnAfter(s, [] + [start]).next);
    }
  }

  lemma {:induction false} WalkKeeps(s: Server, asked: seq<string>, endpoint: string)
    ensures |Walk(s, asked, endpoint).1| >= |asked|
    decreases MAX_PAGES - |asked|
  {
    hide EntriesOf, BytesOf;
    if endpoint == "" || |asked| >= MAX_PAGES || endpoint in asked {
    } else {
      match TurnAfter(s, asked + [endpoint]) {
        case Go(next) => WalkKeeps(s, asked + [endpoint], next);
        case Stop(_) =>
      }
    }
  }

  /** Nothing is listed as absent but a first page that is not there. */
  lemma AbsentMeansNotFound(s: Server, start: string)
    requires start != ""
    ensures Walk(s, [], start).0 == Absent <==> s.answer([start]) == NotFound
  {
    assert [] + [start] == [start];
    if TurnAfter(s, [start]).Go? {
      AbsentOnlyFirst(s, [start], TurnAfter(s, [start]).next);
    }
  }

  lemma {:induction false} AbsentOnlyFirst(s: Server, asked: seq<string>, endpoint: string)
    requires asked != []
    ensures Walk(s, asked, endpoint).0 != Absent
    decreases MAX_PAGES - |asked|
  {
    hide EntriesOf, BytesOf;
    if endpoint == "" || |asked| >= MAX_PAGES || endpoint in asked {
    } else {
      match TurnAfter(s, asked + [endpoint]) {
        case Go(next) => AbsentOnlyFirst(s, asked + [endpoint], next);
        case Stop(_) =>
      }
    }
  }
}
