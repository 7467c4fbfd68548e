/** What signers can rely on after a push (go-shim/sigstore.go): exactly when a
    layer of the tag, or a key's signature, is safe; that what is published can
    be read; and exactly when what a signer was told a verifier finds too. */
module SigningSafety {
  import opened Wrappers
  import opened Signatures
  import opened SigningProtocol

  // ----- when a layer is safe -----

  /** Every signer about to push will push the layer, too. */
  ghost predicate Safe(w: World, st: System, layer: Layer) {
    layer in LayersOf(st.tag) &&
    forall j | j in st.phases && st.phases[j].Pushing? ::
      layer in st.phases[j].base || layer == OwnLayer(w.scheme, w.keyOf(j), j)
  }

  /** No one removes the tag, and whoever reads it before pushing finds it. */
  predicate Clean(moves: seq<Move>) {
    forall k | 0 <= k < |moves| :: !moves[k].Remove? && (moves[k].Read? ==> moves[k].found)
  }

  lemma SafeStep(w: World, st: System, m: Move, layer: Layer)
    requires Safe(w, st, layer) && !m.Remove? && (m.Read? ==> m.found)
    ensures Safe(w, Step(w, st, m), layer)
  {
    hide Plausible, SignedBy, Signatures.Confirm;
  }

  lemma {:induction false} SafeStays(w: World, st: System, moves: seq<Move>, layer: Layer)
    requires Safe(w, st, layer) && Clean(moves)
    ensures Safe(w, Run(w, st, moves), layer)
  {
    hide Safe, Step;
    if moves == [] {
    } else {
      var before := moves[..|moves| - 1];
      assert Clean(before);
      SafeStays(w, st, before, layer);
      SafeStep(w, Run(w, st, before), moves[|moves| - 1], layer);
    }
  }

  /** A push keeps a layer of the tag exactly when the pushing signer read it or
      it is the signer's own. */
  lemma PushKeepsLayer(w: World, st: System, j: nat, layer: Layer)
    requires PhaseOf(st, j).Some? && st.phases[j].Pushing?
    ensures layer in LayersOf(Step(w, st, Push(j, Accepted)).tag) <==>
      layer in st.phases[j].base || layer == OwnLayer(w.scheme, w.keyOf(j), j)
  {
  }

  lemma OneMove(w: World, st: System, m: Move)
    ensures Run(w, st, [m]) == Step(w, st, m) && Run(w, st, []) == st
  {
    assert [m][..0] == [];
  }

  ghost predicate KeptBy(w: World, st: System, moves: seq<Move>, layer: Layer) {
    Clean(moves) ==> layer in LayersOf(Run(w, st, moves).tag)
  }

  /** A layer stays in the tag through every clean run exactly when it is safe:
      otherwise a single push loses it. */
  lemma KeptIffSafe(w: World, st: System, layer: Layer)
    ensures Safe(w, st, layer) <==> forall moves :: KeptBy(w, st, moves, layer)
  {
    hide Run, Step;
    if Safe(w, st, layer) {
      forall moves ensures KeptBy(w, st, moves, layer) {
        if Clean(moves) {
          SafeStays(w, st, moves, layer);
        }
      }
    }
    if forall moves :: KeptBy(w, st, moves, layer) {
      OneMove(w, st, Remove);
      assert KeptBy(w, st, [], layer);
      forall j | j in st.phases && st.phases[j].Pushing?
        ensures layer in st.phases[j].base || layer == OwnLayer(w.scheme, w.keyOf(j), j)
      {
        OneMove(w, st, Push(j, Accepted));
        PushKeepsLayer(w, st, j, layer);
        assert KeptBy(w, st, [Push(j, Accepted)], layer);
      }
    }
  }

  // ----- when a key's signature is safe -----

  /** The tag shows the key, and so does what every signer about to push will
      push; its own layer may be a different one. */
  ghost predicate KeySafe(w: World, st: System, key: nat, typed: bool) {
    Shows(w.scheme, key, typed, LayersOf(st.tag)) &&
    forall j | j in st.phases && st.phases[j].Pushing? ::
      Shows(w.scheme, key, typed, st.phases[j].base) || w.keyOf(j) == key
  }

  lemma KeySafeStep(w: World, st: System, m: Move, key: nat, typed: bool)
    requires Sound(w.scheme) && KeySafe(w, st, key, typed) && !m.Remove? && (m.Read? ==> m.found)
    ensures KeySafe(w, Step(w, st, m), key, typed)
  {
    hide Plausible, SignedBy, Signatures.Confirm, Shows, Appended, Sound;
    if m.Push? && m.signer in st.phases && st.phases[m.signer].Pushing? {
      AppendedShows(w.scheme, key, typed, w.keyOf(m.signer), m.signer, st.phases[m.signer].base);
    }
  }

  lemma {:induction false} KeySafeStays(w: World, st: System, moves: seq<Move>, key: nat, typed: bool)
    requires Sound(w.scheme) && KeySafe(w, st, key, typed) && Clean(moves)
    ensures KeySafe(w, Run(w, st, moves), key, typed)
  {
    hide KeySafe, Step, Sound;
    if moves == [] {
    } else {
      var before := moves[..|moves| - 1];
      assert Clean(before);
      KeySafeStays(w, st, before, key, typed);
      KeySafeStep(w, Run(w, st, before), moves[|moves| - 1], key, typed);
    }
  }

  ghost predicate KeyKeptBy(w: World, st: System, moves: seq<Move>, key: nat, typed: bool) {
    Clean(moves) ==> Shows(w.scheme, key, typed, LayersOf(Run(w, st, moves).tag))
  }

  lemma PushKeepsKey(w: World, st: System, j: nat, key: nat, typed: bool)
    requires Sound(w.scheme) && PhaseOf(st, j).Some? && st.phases[j].Pushing?
    ensures Shows(w.scheme, key, typed, LayersOf(Step(w, st, Push(j, Accepted)).tag)) <==>
      Shows(w.scheme, key, typed, st.phases[j].base) || w.keyOf(j) == key
  {
    hide Shows, Sound;
    AppendedShows(w.scheme, key, typed, w.keyOf(j), j, st.phases[j].base);
  }

  /** What a key has signed stays signed by it through every clean run, and what
      `verifyAgainst` confirms for it stays confirmed, exactly when the tag shows
      it and every signer about to push read it or holds the key. */
  lemma KeyKeptIffSafe(w: World, st: System, key: nat, typed: bool)
    requires Sound(w.scheme)
    ensures KeySafe(w, st, key, typed) <==> forall moves :: KeyKeptBy(w, st, moves, key, typed)
  {
    hide Run, Step, Shows, Sound;
    if KeySafe(w, st, key, typed) {
      forall moves ensures KeyKeptBy(w, st, moves, key, typed) {
        if Clean(moves) {
          KeySafeStays(w, st, moves, key, typed);
        }
      }
    }
    if forall moves :: KeyKeptBy(w, st, moves, key, typed) {
      OneMove(w, st, Remove);
      assert KeyKeptBy(w, st, [], key, typed);
      forall j | j in st.phases && st.phases[j].Pushing?
        ensures Shows(w.scheme, key, typed, st.phases[j].base) || w.keyOf(j) == key
      {
        OneMove(w, st, Push(j, Accepted));
        PushKeepsKey(w, st, j, key, typed);
        assert KeyKeptBy(w, st, [Push(j, Accepted)], key, typed);
      }
    }
  }

  /** Both halves of cleanness are needed: removing the tag loses every layer,
      and a signer that finds nothing pushes its own layer alone. */
  lemma OnlyCleanRunsKeep(w: World, st: System, j: nat, layer: Layer)
    requires PhaseOf(st, j).Some? && st.phases[j].Reading? && layer != OwnLayer(w.scheme, w.keyOf(j), j)
    ensures layer !in LayersOf(Run(w, st, [Remove]).tag)
    ensures layer !in LayersOf(Run(w, st, [Read(j, false), Push(j, Accepted)]).tag)
  {
    hide Run;
    OneMove(w, st, Remove);
    TwoMoves(w, st, Read(j, false), Push(j, Accepted));
    var read := Step(w, st, Read(j, false));
    assert read.phases[j] == Pushing(st.phases[j].attempt, []);
    PushKeepsLayer(w, read, j, layer);
  }

  lemma TwoMoves(w: World, st: System, a: Move, b: Move)
    ensures Run(w, st, [a, b]) == Step(w, Step(w, st, a), b)
  {
    OneMove(w, st, a);
    assert [a, b][..1] == [a];
  }

  // ----- a confirmed signature that is lost -----

  /** Two signers start; both find nothing; one pushes and confirms. */
  function Confirmed(i: nat, j: nat): seq<Move> {
    [Start(i), Start(j), Read(j, true), Read(i, true), Push(i, Accepted), SigningProtocol.Confirm(i, true)]
  }

  lemma BothStarted(w: World, i: nat, j: nat)
    requires i != j
    ensures var st := Run(w, Initial(None), Confirmed(i, j)[..3]);
      st.tag == None && PhaseOf(st, i) == Some(Reading(0)) && PhaseOf(st, j) == Some(Pushing(0, []))
  {
    hide Run, SignedBy;
    var moves := Confirmed(i, j);
    TwoMoves(w, Initial(None), moves[0], moves[1]);
    OneMoreMove(w, moves, 2);
    assert moves[..2] == [moves[0], moves[1]];
    assert !SignedBy(w.scheme, w.keyOf(j), []) by { NobodySigned(w.scheme, w.keyOf(j)); }
  }

  lemma NobodySigned(s: Scheme, key: nat)
    ensures !SignedBy(s, key, [])
  {
  }

  lemma OneMoreMove(w: World, moves: seq<Move>, n: nat)
    requires n < |moves|
    ensures Run(w, Initial(None), moves[..n + 1]) == Step(w, Run(w, Initial(None), moves[..n]), moves[n])
  {
    assert moves[..n + 1][..n] == moves[..n];
  }

  lemma FirstIsReadable(s: Scheme, key: nat, call: nat)
    requires 0 <= s.payloadSize <= MAX_PAYLOAD
    ensures Plausible(Appended(s, key, call, []))
  {
    AppendedFits(s, key, call, []);
  }

  /** A run from nothing in which a signer succeeds, with its layer in the tag,
      and a second signer that read earlier then removes it unnoticed. */
  lemma {:induction false} ConfirmedThenOverwritten(w: World, i: nat, j: nat)
    requires Sound(w.scheme) && i != j && w.keyOf(i) != w.keyOf(j) && 0 <= w.scheme.payloadSize <= 65_534
    ensures var confirmed := Run(w, Initial(None), Confirmed(i, j));
      var end := Run(w, Initial(None), Confirmed(i, j) + [Push(j, Accepted)]);
      PhaseOf(confirmed, i) == Some(Success) && SignedBy(w.scheme, w.keyOf(i), LayersOf(confirmed.tag)) &&
      !Safe(w, confirmed, OwnLayer(w.scheme, w.keyOf(i), i)) &&
      PhaseOf(end, i) == Some(Success) && !SignedBy(w.scheme, w.keyOf(i), LayersOf(end.tag))
  {
    hide Run, Step, Plausible, SignedBy, Verified, Sound, Safe;
    var moves := Confirmed(i, j);
    var st := Run(w, Initial(None), moves[..3]);
    BothStarted(w, i, j);
    FirstIsReadable(w.scheme, w.keyOf(i), i);
    NobodySigned(w.scheme, w.keyOf(i));
    UndisturbedSigner(w, st, i);
    OneMoreMove(w, moves, 3);
    OneMoreMove(w, moves, 4);
    OneMoreMove(w, moves, 5);
    assert moves[..6] == moves;
    var confirmed := Run(w, Initial(None), moves);
    var all := moves + [Push(j, Accepted)];
    OneMoreMove(w, all, 6);
    assert all[..6] == moves && all[..7] == all;
    Overwritten(w, confirmed, i, j);
  }

  lemma Overwritten(w: World, st: System, i: nat, j: nat)
    requires Sound(w.scheme) && i != j && w.keyOf(i) != w.keyOf(j)
    requires PhaseOf(st, i) == Some(Success) && PhaseOf(st, j) == Some(Pushing(0, []))
    requires st.tag == Some(Appended(w.scheme, w.keyOf(i), i, []))
    ensures var end := Step(w, st, Push(j, Accepted));
      SignedBy(w.scheme, w.keyOf(i), LayersOf(st.tag)) && !Safe(w, st, OwnLayer(w.scheme, w.keyOf(i), i)) &&
      PhaseOf(end, i) == Some(Success) && !SignedBy(w.scheme, w.keyOf(i), LayersOf(end.tag))
  {
    var own, other := OwnLayer(w.scheme, w.keyOf(i), i), OwnLayer(w.scheme, w.keyOf(j), j);
    OwnVerifies(w.scheme, w.keyOf(i), i);
    OwnVerifies(w.scheme, w.keyOf(j), j);
    assert !Verifies(w.scheme, w.keyOf(i), other);
    Alone(w.scheme, w.keyOf(i), own);
    Alone(w.scheme, w.keyOf(i), other);
  }

  lemma Alone(s: Scheme, key: nat, layer: Layer)
    ensures [] + [layer] == [layer] && (SignedBy(s, key, [layer]) <==> Verifies(s, key, layer))
  {
    assert [layer][0] == layer;
  }

  // ----- everything published can be read -----

  ghost predicate ReadableSo(w: World, first: Option<Artifact>, st: System) {
    && HonestSizes(LayersOf(st.tag))
    && (st.tag.Some? ==> st.tag == first || Plausible(st.tag.value))
    && (forall i | i in st.phases && st.phases[i].Pushing? ::
          HonestSizes(st.phases[i].base) && SmallLayers(st.phases[i].base) && |st.phases[i].base| < MAX_SIGNATURES)
    && (forall e | e in st.log && e.WasPublished? :: Plausible(e.artifact))
  }

  lemma HonestAppended(s: Scheme, key: nat, call: nat, base: seq<Layer>)
    requires HonestSizes(base) && 0 <= s.payloadSize
    ensures HonestSizes(Appended(s, key, call, base).layers)
  {
  }

  lemma ReadableStep(w: World, first: Option<Artifact>, st: System, m: Move)
    requires 0 <= w.scheme.payloadSize <= MAX_PAYLOAD && ReadableSo(w, first, st)
    ensures ReadableSo(w, first, Step(w, st, m))
  {
    hide Plausible, SignedBy, Signatures.Confirm, HonestSizes, SmallLayers, Appended;
    match m
    case Push(i, outcome) =>
      if i in st.phases && st.phases[i].Pushing? {
        HonestAppended(w.scheme, w.keyOf(i), i, st.phases[i].base);
        AppendedFits(w.scheme, w.keyOf(i), i, st.phases[i].base);
      }
    case Read(i, found) => SmallWhenPlausible(st.tag); NothingIsSmall();
    case Remove => NothingIsSmall();
    case _ =>
  }

  lemma SmallWhenPlausible(seen: Option<Artifact>)
    ensures seen.Some? && Plausible(seen.value) ==> SmallLayers(seen.value.layers)
  {
  }

  lemma NothingIsSmall()
    ensures SmallLayers([]) && HonestSizes([])
  {
  }

  lemma {:induction false} ReadableRun(w: World, first: Option<Artifact>, moves: seq<Move>)
    requires 0 <= w.scheme.payloadSize <= 65_534 && HonestSizes(LayersOf(first))
    ensures ReadableSo(w, first, Run(w, Initial(first), moves))
  {
    hide ReadableSo, Step;
    if moves == [] {
      ReadableAtFirst(w, first);
    } else {
      ReadableRun(w, first, moves[..|moves| - 1]);
      ReadableStep(w, first, Run(w, Initial(first), moves[..|moves| - 1]), moves[|moves| - 1]);
    }
  }

  lemma ReadableAtFirst(w: World, first: Option<Artifact>)
    requires HonestSizes(LayersOf(first))
    ensures ReadableSo(w, first, Initial(first))
  {
  }

  /** With honest sizes and payloads of at most 65534 bytes every artifact ever
      published passes the limits of its readers, over any interleaving; and the
      tag always does, if it did at first. */
  lemma PublishedIsReadable(w: World, first: Option<Artifact>, moves: seq<Move>)
    requires 0 <= w.scheme.payloadSize <= 65_534 && HonestSizes(LayersOf(first))
    ensures var st := Run(w, Initial(first), moves);
      (forall e | e in st.log && e.WasPublished? :: Plausible(e.artifact)) &&
      (Readable(first) ==> Readable(st.tag))
  {
    hide Run, Plausible;
    ReadableRun(w, first, moves);
  }

  // ----- what a signer saw, a verifier sees -----

  /** If the key shows at all, it shows to verifiers. */
  ghost predicate SeenAlike(s: Scheme, key: nat, layers: seq<Layer>) {
    SignedBy(s, key, layers) ==> Verified(s, key, layers)
  }

  /** With one layer per key, it is the one of the type that verifiers look at. */
  lemma TheOneIsTyped(s: Scheme, key: nat, layers: seq<Layer>, layer: Layer)
    requires OnePerKey(s, layers) && Verified(s, key, layers)
    requires layer in layers && Verifies(s, key, layer)
    ensures layer.cosign
  {
    hide Verifies;
    var i :| 0 <= i < |layers| && layers[i] == layer;
    var j :| 0 <= j < |layers| && layers[j].cosign && Verifies(s, key, layers[j]);
  }

  lemma PublishedAlike(w: World, first: Option<Artifact>, moves: seq<Move>, k: nat, key: nat)
    requires Sound(w.scheme) && WellFormed(w.scheme, LayersOf(first)) && SeenAlike(w.scheme, key, LayersOf(first))
    requires k < |Run(w, Initial(first), moves).log| && Run(w, Initial(first), moves).log[k].WasPublished?
    ensures SeenAlike(w.scheme, key, Run(w, Initial(first), moves).log[k].artifact.layers)
  {
    hide Run, Sound, Verifies;
    NothingInvented(w, first, moves, k);
    var log := Run(w, Initial(first), moves).log;
    var layers := log[k].artifact.layers;
    forall n | 0 <= n < |layers| && Verifies(w.scheme, key, layers[n]) ensures layers[n].cosign {
      assert HasOrigin(w, first, log, layers[n]);
      if layers[n] in LayersOf(first) {
        var f :| 0 <= f < |LayersOf(first)| && LayersOf(first)[f] == layers[n];
        TheOneIsTyped(w.scheme, key, LayersOf(first), layers[n]);
      }
    }
  }

  lemma ReadsAlike(w: World, first: Option<Artifact>, moves: seq<Move>, e: Event, key: nat)
    requires Sound(w.scheme) && WellFormed(w.scheme, LayersOf(first)) && SeenAlike(w.scheme, key, LayersOf(first))
    requires e in Run(w, Initial(first), moves).log && e.WasRead?
    ensures SeenAlike(w.scheme, key, LayersOf(e.seen))
  {
    hide Run, Sound, WellFormed, SignedBy, Verified;
    RunKeeps(w, first, moves);
    var log := Run(w, Initial(first), moves).log;
    var k :| 0 <= k < |log| && log[k] == e;
    assert GoodEvent(w, first, log[..k], log[k]);
    if e.seen == None {
      NobodySigned(w.scheme, key);
    } else if e.seen != first {
      var p :| p in log[..k] && p.WasPublished? && e.seen == Some(p.artifact);
      var j :| 0 <= j < k && log[j] == p;
      PublishedAlike(w, first, moves, j, key);
    }
  }

  /** An own read that showed what `verifyAgainst` accepts. */
  ghost predicate SawVerified(w: World, log: seq<Event>, i: nat) {
    exists e | e in log :: e.WasRead? && e.signer == i && Verified(w.scheme, w.keyOf(i), LayersOf(e.seen))
  }

  ghost predicate RunIsVerified(w: World, first: Option<Artifact>, i: nat, moves: seq<Move>) {
    var st := Run(w, Initial(first), moves);
    PhaseOf(st, i) == Some(Success) ==> SawVerified(w, st.log, i)
  }

  lemma RunSeesVerified(w: World, first: Option<Artifact>, i: nat, moves: seq<Move>)
    requires Sound(w.scheme) && WellFormed(w.scheme, LayersOf(first))
    requires SeenAlike(w.scheme, w.keyOf(i), LayersOf(first))
    ensures RunIsVerified(w, first, i, moves)
  {
    hide Run, Sound, WellFormed, SignedBy, Verified;
    var st := Run(w, Initial(first), moves);
    if PhaseOf(st, i) == Some(Success) {
      SuccessIsWitnessed(w, first, moves, i);
      var e :| e in st.log && e.WasRead? && e.signer == i && SignedBy(w.scheme, w.keyOf(i), LayersOf(e.seen));
      ReadsAlike(w, first, moves, e, w.keyOf(i));
    }
  }

  /** The run in which i finds itself done at its first read. */
  lemma DoneAtOnce(w: World, first: Option<Artifact>, i: nat)
    requires Readable(first) && SignedBy(w.scheme, w.keyOf(i), LayersOf(first))
    ensures Run(w, Initial(first), [Start(i), Read(i, true)]) ==
      System(first, map[i := Success], [WasRead(i, first)])
  {
    hide Run, SignedBy, Plausible;
    if first == None {
      NobodySigned(w.scheme, w.keyOf(i));
    }
    TwoMoves(w, Initial(first), Start(i), Read(i, true));
    assert [] + [] + [WasRead(i, first)] == [WasRead(i, first)];
  }

  /** Every run that ends in success for i has an own read that verifiers would
      accept, exactly when the first artifact, if it shows i's key at all, shows
      it to verifiers; what other keys' layers look like does not matter. */
  lemma SuccessIsVerifiedIff(w: World, first: Option<Artifact>, i: nat)
    requires Sound(w.scheme) && WellFormed(w.scheme, LayersOf(first)) && Readable(first)
    ensures (forall moves :: RunIsVerified(w, first, i, moves)) <==>
      (SignedBy(w.scheme, w.keyOf(i), LayersOf(first)) ==> Verified(w.scheme, w.keyOf(i), LayersOf(first)))
  {
    hide Run, Sound, WellFormed, SignedBy, Verified, Plausible;
    if SeenAlike(w.scheme, w.keyOf(i), LayersOf(first)) {
      forall moves ensures RunIsVerified(w, first, i, moves) {
        RunSeesVerified(w, first, i, moves);
      }
    }
    if SignedBy(w.scheme, w.keyOf(i), LayersOf(first)) && forall moves :: RunIsVerified(w, first, i, moves) {
      var moves := [Start(i), Read(i, true)];
      DoneAtOnce(w, first, i);
      assert RunIsVerified(w, first, i, moves);
      assert SawVerified(w, [WasRead(i, first)], i);
    }
  }

  /** Such a first artifact exists: an own layer under another media type. */
  lemma DoneUnseen(w: World, i: nat)
    requires Sound(w.scheme) && 0 <= w.scheme.payloadSize <= 65_534
    ensures var a := Artifact(CONFIG_BYTES, [OwnLayer(w.scheme, w.keyOf(i), i).(cosign := false)]);
      var end := Run(w, Initial(Some(a)), [Start(i), Read(i, true)]);
      PhaseOf(end, i) == Some(Success) && !SawVerified(w, end.log, i) &&
      Signatures.Confirm(w.scheme, w.keyOf(i), end.tag) == Missing
  {
    hide Run;
    var layer := OwnLayer(w.scheme, w.keyOf(i), i).(cosign := false);
    var a := Artifact(CONFIG_BYTES, [layer]);
    assert a.layers[..0] == [] && a.layers[0] == layer;
    assert TotalSize(CONFIG_BYTES, a.layers) == CONFIG_BYTES + w.scheme.payloadSize;
    PlausibleIsExact(a);
    assert Verifies(w.scheme, w.keyOf(i), a.layers[0]);
    assert SignedBy(w.scheme, w.keyOf(i), a.layers) && !Verified(w.scheme, w.keyOf(i), a.layers);
    DoneButMissing(w.scheme, w.keyOf(i), a);
    DoneAtOnce(w, Some(a), i);
  }
}
