/** Signature artifacts of go-shim/sigstore.go: what one read of the signature
    tag lets a signer or a verifier conclude. Keys, payload parsing and the
    signature check itself stay abstract. */
module Signatures {
  import opened Words
  import opened Wrappers

  const MAX_SIGNATURE_BYTES := 0x1_0000
  const MAX_ARTIFACT_BYTES := 0x40_0000
  const MAX_SIGNATURES := 64
  const CONFIG_BYTES := 2

  /** One signature: the media type's verdict, the payload, the signature text
      and the declared size. */
  datatype Layer = Layer(cosign: bool, payload: string, signature: string, size: int)

  datatype Artifact = Artifact(configSize: int, layers: seq<Layer>)

  /** The signatures over one digest in one repository. `claims` says that a
      payload parses and names this type, digest and repository; `accepts` that
      a key accepts a signature; `sign` is what a key signs this payload with in
      one call, which need not be what it signs with in the next. */
  datatype Scheme = Scheme(
    claims: string -> bool,
    accepts: (nat, string, string) -> bool,
    payload: string,
    payloadSize: int,
    sign: (nat, nat) -> string)

  /** A key's signature is accepted by that key and by no other. */
  ghost predicate Sound(s: Scheme) {
    && s.claims(s.payload)
    && (forall key, call :: s.sign(key, call) != "" && s.accepts(key, s.payload, s.sign(key, call)))
    && forall key, call, other :: s.accepts(other, s.payload, s.sign(key, call)) ==> other == key
  }

  /** The layer that one call adds for its key. */
  function OwnLayer(s: Scheme, key: nat, call: nat): Layer {
    Layer(true, s.payload, s.sign(key, call), s.payloadSize)
  }

  /** `verifySignatureLayer` for one key. */
  predicate Verifies(s: Scheme, key: nat, layer: Layer) {
    layer.signature != "" && s.claims(layer.payload) && s.accepts(key, layer.payload, layer.signature)
  }

  predicate SignedBy(s: Scheme, key: nat, layers: seq<Layer>) {
    exists i | 0 <= i < |layers| :: Verifies(s, key, layers[i])
  }

  predicate Verified(s: Scheme, key: nat, layers: seq<Layer>) {
    exists i | 0 <= i < |layers| :: layers[i].cosign && Verifies(s, key, layers[i])
  }

  // ----- the limits on what is fetched -----

  function TotalSize(config: int, layers: seq<Layer>): int {
    if layers == [] then config else TotalSize(config, layers[..|layers| - 1]) + layers[|layers| - 1].size
  }

  predicate SmallLayers(layers: seq<Layer>) {
    forall i | 0 <= i < |layers| :: layers[i].size <= MAX_SIGNATURE_BYTES
  }

  /** `checkSignatureManifest`; the sum is taken in 64 bits. */
  predicate Plausible(a: Artifact) {
    |a.layers| <= MAX_SIGNATURES && SmallLayers(a.layers) && Wrap64(TotalSize(a.configSize, a.layers)) <= MAX_ARTIFACT_BYTES
  }

  method CheckSignatureManifest(a: Artifact) returns (ok: bool)
    requires Wrap64(a.configSize) == a.configSize
    ensures ok == Plausible(a)
  {
    hide Wrap64;
    if |a.layers| > MAX_SIGNATURES {
      return false;
    }
    var total := a.configSize;
    for i := 0 to |a.layers|
      invariant SmallLayers(a.layers[..i])
      invariant total == Wrap64(TotalSize(a.configSize, a.layers[..i]))
    {
      assert a.layers[..i + 1][..i] == a.layers[..i];
      if a.layers[i].size > MAX_SIGNATURE_BYTES {
        return false;
      }
      WrapAdd(TotalSize(a.configSize, a.layers[..i]), a.layers[i].size);
      total := Wrap64(total + a.layers[i].size);
    }
    assert a.layers[..|a.layers|] == a.layers;
    return total <= MAX_ARTIFACT_BYTES;
  }

  ghost predicate HonestSizes(layers: seq<Layer>) {
    forall i | 0 <= i < |layers| :: 0 <= layers[i].size
  }

  lemma {:induction false} TotalAtMost(config: int, layers: seq<Layer>)
    requires SmallLayers(layers)
    ensures TotalSize(config, layers) <= config + MAX_SIGNATURE_BYTES * |layers|
  {
    if layers == [] {
    } else {
      TotalAtMost(config, layers[..|layers| - 1]);
    }
  }

  lemma {:induction false} TotalAtLeast(config: int, layers: seq<Layer>)
    requires HonestSizes(layers)
    ensures config <= TotalSize(config, layers)
  {
    if layers == [] {
    } else {
      TotalAtLeast(config, layers[..|layers| - 1]);
    }
  }

  lemma PlausibleWithin(a: Artifact)
    requires -MAX_INT64 - 1 <= TotalSize(a.configSize, a.layers)
    requires a.configSize <= MAX_INT64 - MAX_SIGNATURES * MAX_SIGNATURE_BYTES
    ensures Plausible(a) <==>
      |a.layers| <= MAX_SIGNATURES && SmallLayers(a.layers) && TotalSize(a.configSize, a.layers) <= MAX_ARTIFACT_BYTES
  {
    hide Wrap64;
    if |a.layers| <= MAX_SIGNATURES && SmallLayers(a.layers) {
      TotalAtMost(a.configSize, a.layers);
      InRange(TotalSize(a.configSize, a.layers));
    }
  }

  /** Whenever the sum fits 64 bits the artifact is let through exactly when all
      of it is within the limits. Negative sizes are summed like others. */
  lemma PlausibleIsExact(a: Artifact)
    requires -0x8000_0000_0000_0000 <= TotalSize(a.configSize, a.layers)
    requires a.configSize < 0x8000_0000_0000_0000 - 4_194_304
    ensures Plausible(a) <==>
      |a.layers| <= 64 && (forall layer | layer in a.layers :: layer.size <= 65_536) &&
      TotalSize(a.configSize, a.layers) <= 4_194_304
  {
    hide Plausible, TotalSize;
    PlausibleWithin(a);
    assert SmallLayers(a.layers) ==> forall layer | layer in a.layers :: layer.size <= 65_536;
    assert (forall layer | layer in a.layers :: layer.size <= 65_536) ==> SmallLayers(a.layers);
  }

  // ----- one signer's decisions -----

  datatype Decision = AlreadySigned | Rejected | Append(base: seq<Layer>)

  function LayersOf(seen: Option<Artifact>): seq<Layer> {
    match seen
    case Some(a) => a.layers
    case None => []
  }

  /** What `appendSignature` does with what it read. */
  function Decide(s: Scheme, key: nat, seen: Option<Artifact>): Decision {
    if seen.Some? && !Plausible(seen.value) then Rejected
    else if SignedBy(s, key, LayersOf(seen)) then AlreadySigned
    else if |LayersOf(seen)| + 1 > MAX_SIGNATURES then Rejected
    else Append(LayersOf(seen))
  }

  function Appended(s: Scheme, key: nat, call: nat, base: seq<Layer>): Artifact {
    Artifact(CONFIG_BYTES, base + [OwnLayer(s, key, call)])
  }

  datatype Confirmation = Landed | Missing | Unanswered

  /** What the confirming `verifyAgainst` makes of what it read. */
  function Confirm(s: Scheme, key: nat, seen: Option<Artifact>): Confirmation {
    if seen.Some? && !Plausible(seen.value) then Unanswered
    else if Verified(s, key, LayersOf(seen)) then Landed
    else Missing
  }

  /** `appendSignature` up to its push. */
  method AppendSignature(s: Scheme, key: nat, seen: Option<Artifact>) returns (d: Decision)
    requires seen.Some? ==> Wrap64(seen.value.configSize) == seen.value.configSize
    ensures d == Decide(s, key, seen)
  {
    hide Plausible, Verifies;
    var layers := [];
    if seen.Some? {
      var ok := CheckSignatureManifest(seen.value);
      if !ok {
        return Rejected;
      }
      layers := seen.value.layers;
    }
    for i := 0 to |layers|
      invariant forall j | 0 <= j < i :: !Verifies(s, key, layers[j])
    {
      if Verifies(s, key, layers[i]) {
        return AlreadySigned;
      }
    }
    if |layers| + 1 > MAX_SIGNATURES {
      return Rejected;
    }
    return Append(layers);
  }

  // ----- verifying against a list of keys -----

  /** A layer that verified, and the key that accepted it, by their places. */
  datatype Match = Match(layer: nat, key: nat)

  /** The first of the keys that accepts the layer. */
  ghost predicate FirstAccepting(s: Scheme, keys: seq<nat>, layer: Layer, k: nat) {
    k < |keys| && Verifies(s, keys[k], layer) && forall j | 0 <= j < k :: !Verifies(s, keys[j], layer)
  }

  /** `verifySignatureLayer`: the first key in order that accepts the signature,
      and none at all when there is no signature or the payload claims another
      type, digest or repository. */
  method VerifySignatureLayer(s: Scheme, layer: Layer, keys: seq<nat>) returns (accepted: Option<nat>)
    ensures forall k: nat :: accepted == Some(k) <==>
      layer.signature != "" && s.claims(layer.payload) &&
      k < |keys| && s.accepts(keys[k], layer.payload, layer.signature) &&
      forall j | 0 <= j < k :: !s.accepts(keys[j], layer.payload, layer.signature)
    ensures accepted.Some? ==> FirstAccepting(s, keys, layer, accepted.value)
    ensures accepted.None? ==> forall k | k in keys :: !Verifies(s, k, layer)
  {
    if layer.signature == "" || !s.claims(layer.payload) {
      return None;
    }
    for k := 0 to |keys|
      invariant forall j | 0 <= j < k :: !s.accepts(keys[j], layer.payload, layer.signature)
    {
      if s.accepts(keys[k], layer.payload, layer.signature) {
        return Some(k);
      }
    }
    return None;
  }

  function CosignLayers(layers: seq<Layer>): nat {
    if layers == [] then 0
    else CosignLayers(layers[..|layers| - 1]) + if layers[|layers| - 1].cosign then 1 else 0
  }

  /** The report names, in order and once each, exactly the cosign layers that
      some key accepts, each with the first key that does. */
  ghost predicate GoodReport(s: Scheme, keys: seq<nat>, layers: seq<Layer>, matches: seq<Match>) {
    && (forall m | m in matches ::
          m.layer < |layers| && layers[m.layer].cosign && FirstAccepting(s, keys, layers[m.layer], m.key))
    && (forall i, j | 0 <= i < j < |matches| :: matches[i].layer < matches[j].layer)
    && (forall i, k | 0 <= i < |layers| && layers[i].cosign && k in keys && Verifies(s, k, layers[i]) ::
          Reported(matches, i))
  }

  ghost predicate Reported(matches: seq<Match>, i: nat) {
    exists m | m in matches :: m.layer == i
  }

  /** What verifying makes of an artifact it could not read, or read. */
  predicate Readable(seen: Option<Artifact>) {
    seen.None? || Plausible(seen.value)
  }

  /** `verifyAgainst`. The one-key case is the verdict a signer waits for. */
  method VerifyAgainst(s: Scheme, keys: seq<nat>, seen: Option<Artifact>)
    returns (answered: bool, found: nat, matches: seq<Match>)
    requires seen.Some? ==> Wrap64(seen.value.configSize) == seen.value.configSize
    ensures answered == Readable(seen)
    ensures answered ==> found == CosignLayers(LayersOf(seen)) && GoodReport(s, keys, LayersOf(seen), matches)
    ensures answered ==> (matches != [] <==> exists key | key in keys :: Verified(s, key, LayersOf(seen)))
    ensures answered ==> (matches != [] <==>
      exists layer, key | layer in LayersOf(seen) && key in keys ::
        layer.cosign && layer.signature != "" && s.claims(layer.payload) &&
        s.accepts(key, layer.payload, layer.signature))
    ensures !answered ==> found == 0 && matches == []
  {
    hide Plausible, Verifies, CosignLayers, FirstAccepting, Wrap64;
    NoLayers();
    if seen.None? {
      return true, 0, [];
    }
    var ok := CheckSignatureManifest(seen.value);
    if !ok {
      return false, 0, [];
    }
    var layers := seen.value.layers;
    answered, found, matches := true, 0, [];
    for i := 0 to |layers|
      invariant found == CosignLayers(layers[..i])
      invariant GoodReport(s, keys, layers[..i], matches)
    {
      LayerCounted(layers, i);
      if !layers[i].cosign {
        SameReport(s, keys, layers, i, matches);
        continue;
      }
      found := found + 1;
      var accepted := VerifySignatureLayer(s, layers[i], keys);
      if accepted.None? {
        SameReport(s, keys, layers, i, matches);
      } else {
        LongerReport(s, keys, layers, i, matches, accepted.value);
        matches := matches + [Match(i, accepted.value)];
      }
    }
    assert layers[..|layers|] == layers;
    ReportDecides(s, keys, layers, matches);
    VerifiedMeans(s, keys, layers);
  }

  /** Verified, with its parts spelled out. */
  lemma VerifiedMeans(s: Scheme, keys: seq<nat>, layers: seq<Layer>)
    ensures (exists key | key in keys :: Verified(s, key, layers)) <==>
      exists layer, key | layer in layers && key in keys ::
        layer.cosign && layer.signature != "" && s.claims(layer.payload) &&
        s.accepts(key, layer.payload, layer.signature)
  {
    if exists key | key in keys :: Verified(s, key, layers) {
      var key :| key in keys && Verified(s, key, layers);
      var i :| 0 <= i < |layers| && layers[i].cosign && Verifies(s, key, layers[i]);
      assert layers[i] in layers;
    }
    if exists layer, key | layer in layers && key in keys ::
      layer.cosign && layer.signature != "" && s.claims(layer.payload) &&
      s.accepts(key, layer.payload, layer.signature)
    {
      var layer, key :| layer in layers && key in keys &&
        layer.cosign && layer.signature != "" && s.claims(layer.payload) &&
        s.accepts(key, layer.payload, layer.signature);
      var i :| 0 <= i < |layers| && layers[i] == layer;
      assert Verifies(s, key, layers[i]);
      assert Verified(s, key, layers);
    }
  }

  lemma NoLayers()
    ensures CosignLayers([]) == 0
  {
  }

  lemma LayerCounted(layers: seq<Layer>, i: nat)
    requires i < |layers|
    ensures CosignLayers(layers[..i + 1]) == CosignLayers(layers[..i]) + if layers[i].cosign then 1 else 0
  {
    assert layers[..i + 1][..i] == layers[..i];
  }

  lemma SameReport(s: Scheme, keys: seq<nat>, layers: seq<Layer>, i: nat, matches: seq<Match>)
    requires i < |layers| && GoodReport(s, keys, layers[..i], matches)
    requires layers[i].cosign ==> forall k | k in keys :: !Verifies(s, k, layers[i])
    ensures GoodReport(s, keys, layers[..i + 1], matches)
  {
    hide Verifies, FirstAccepting, Reported;
    assert forall j | 0 <= j < i :: layers[..i + 1][j] == layers[..i][j];
  }

  lemma LongerReport(s: Scheme, keys: seq<nat>, layers: seq<Layer>, i: nat, matches: seq<Match>, k: nat)
    requires i < |layers| && GoodReport(s, keys, layers[..i], matches)
    requires layers[i].cosign && FirstAccepting(s, keys, layers[i], k)
    ensures GoodReport(s, keys, layers[..i + 1], matches + [Match(i, k)])
  {
    hide Verifies, FirstAccepting;
    var longer := matches + [Match(i, k)];
    assert forall j | 0 <= j < i :: layers[..i + 1][j] == layers[..i][j];
    assert forall j: nat | Reported(matches, j) :: Reported(longer, j);
    assert Match(i, k) in longer;
  }

  lemma ReportDecides(s: Scheme, keys: seq<nat>, layers: seq<Layer>, matches: seq<Match>)
    requires GoodReport(s, keys, layers, matches)
    ensures matches != [] <==> exists key | key in keys :: Verified(s, key, layers)
  {
    if matches != [] {
      var m := matches[0];
      assert m in matches;
      assert Verified(s, keys[m.key], layers);
    }
  }

  /** For one key the report comes to the confirmation a signer acts on. */
  lemma ReportConfirms(s: Scheme, key: nat, seen: Option<Artifact>)
    ensures Confirm(s, key, seen) ==
      if !Readable(seen) then Unanswered
      else if exists k | k in [key] :: Verified(s, k, LayersOf(seen)) then Landed
      else Missing
  {
    assert key in [key];
  }

  // ----- what is published can be read -----

  /** The largest payload that leaves room for itself beside 63 of the largest
      signatures. */
  const MAX_PAYLOAD := MAX_ARTIFACT_BYTES - CONFIG_BYTES - (MAX_SIGNATURES - 1) * MAX_SIGNATURE_BYTES

  /** What a signer publishes passes the limits of the next reader exactly when
      its payload is small enough and the sum, in 64 bits, leaves the whole
      within the budget; unless that sum runs below 64 bits, it is the true
      one. */
  lemma AppendedPlausible(s: Scheme, key: nat, call: nat, seen: Option<Artifact>)
    requires Decide(s, key, seen).Append?
    ensures var base := Decide(s, key, seen).base;
      var total := TotalSize(CONFIG_BYTES, base) + s.payloadSize;
      (Plausible(Appended(s, key, call, base)) <==>
       s.payloadSize <= 65_536 && Wrap64(total) <= 4_194_304) &&
      (-0x8000_0000_0000_0000 <= total ==>
       (Plausible(Appended(s, key, call, base)) <==>
        s.payloadSize <= 65_536 && total <= 4_194_304))
  {
    hide Wrap64, SignedBy, SmallLayers, TotalSize;
    var base := Decide(s, key, seen).base;
    var a := Appended(s, key, call, base);
    SmallAppended(s, key, call, base);
    AppendedTotal(s, key, call, base);
    if -MAX_INT64 - 1 <= TotalSize(CONFIG_BYTES, a.layers) {
      PlausibleWithin(a);
    }
  }

  lemma AppendedTotal(s: Scheme, key: nat, call: nat, base: seq<Layer>)
    ensures TotalSize(CONFIG_BYTES, Appended(s, key, call, base).layers) == TotalSize(CONFIG_BYTES, base) + s.payloadSize
  {
    assert Appended(s, key, call, base).layers[..|base|] == base;
  }

  lemma SmallAppended(s: Scheme, key: nat, call: nat, base: seq<Layer>)
    requires SmallLayers(base)
    ensures SmallLayers(Appended(s, key, call, base).layers) <==> s.payloadSize <= MAX_SIGNATURE_BYTES
  {
    assert Appended(s, key, call, base).layers[|base|].size == s.payloadSize;
  }

  lemma AppendedFits(s: Scheme, key: nat, call: nat, base: seq<Layer>)
    requires 0 <= s.payloadSize <= MAX_PAYLOAD
    requires HonestSizes(base) && SmallLayers(base) && |base| < MAX_SIGNATURES
    ensures Plausible(Appended(s, key, call, base))
  {
    hide Wrap64;
    var a := Appended(s, key, call, base);
    assert a.layers[..|base|] == base;
    TotalAtMost(CONFIG_BYTES, base);
    TotalAtLeast(CONFIG_BYTES, base);
    PlausibleWithin(a);
  }

  /** With honest sizes, whatever can be appended to can be read afterwards. */
  lemma AppendedReadable(s: Scheme, key: nat, call: nat, seen: Option<Artifact>)
    requires 0 <= s.payloadSize <= MAX_PAYLOAD
    requires Decide(s, key, seen).Append? && HonestSizes(LayersOf(seen))
    ensures Plausible(Appended(s, key, call, Decide(s, key, seen).base))
  {
    AppendedFits(s, key, call, Decide(s, key, seen).base);
  }

  /** As many bytes as a layer may have, and no signature. */
  const FULL := Layer(false, "", "", MAX_SIGNATURE_BYTES)

  lemma {:induction false} FullLayers(n: nat)
    ensures TotalSize(CONFIG_BYTES, seq(n, i => FULL)) == CONFIG_BYTES + n * MAX_SIGNATURE_BYTES
  {
    if n == 0 {
    } else {
      FullLayers(n - 1);
      assert seq(n, i => FULL)[..n - 1] == seq(n - 1, i => FULL);
    }
  }

  lemma FullIsAppendable(s: Scheme, key: nat)
    ensures var seen := Artifact(CONFIG_BYTES, seq(MAX_SIGNATURES - 1, i => FULL));
      Decide(s, key, Some(seen)) == Append(seen.layers) && HonestSizes(seen.layers) &&
      TotalSize(CONFIG_BYTES, seen.layers) == MAX_ARTIFACT_BYTES - MAX_PAYLOAD
  {
    FullLayers(MAX_SIGNATURES - 1);
  }

  /** A signer leaves every artifact readable, with honest sizes, exactly when
      its payload has at most 65534 bytes. */
  lemma ReadableIffSmall(s: Scheme, key: nat, call: nat)
    requires 0 <= s.payloadSize
    ensures (forall seen | Decide(s, key, seen).Append? && HonestSizes(LayersOf(seen)) ::
               Plausible(Appended(s, key, call, Decide(s, key, seen).base))) <==>
      s.payloadSize <= 65_534
  {
    hide Wrap64, SignedBy, Plausible, Appended;
    if s.payloadSize <= MAX_PAYLOAD {
      forall seen | Decide(s, key, seen).Append? && HonestSizes(LayersOf(seen))
        ensures Plausible(Appended(s, key, call, Decide(s, key, seen).base))
      {
        AppendedReadable(s, key, call, seen);
      }
    } else {
      var seen := Some(Artifact(CONFIG_BYTES, seq(MAX_SIGNATURES - 1, i => FULL)));
      FullIsAppendable(s, key);
      AppendedPlausible(s, key, call, seen);
      assert Decide(s, key, seen).Append? && HonestSizes(LayersOf(seen));
    }
  }

  const DEEP := Layer(false, "", "", -MAX_INT64 - 1)
  const BELOW := Layer(false, "", "", -1000)

  lemma DeepTotal(config: int)
    ensures TotalSize(config, [DEEP, BELOW]) == config - MAX_INT64 - 1001
  {
    assert [DEEP, BELOW][..1] == [DEEP] && [DEEP][..0] == [];
    assert TotalSize(config, [DEEP]) == TotalSize(config, []) + DEEP.size;
  }

  /** Sizes that no layer can have are let through, and then a signer publishes
      what no one, itself included, will read: the sum that the larger config
      kept in range wraps around without it. */
  lemma UnreadableAppend(s: Scheme, key: nat, call: nat)
    requires 0 <= s.payloadSize < 998
    ensures var seen := Artifact(2000, [DEEP, BELOW]);
      Decide(s, key, Some(seen)) == Append(seen.layers) && !Plausible(Appended(s, key, call, seen.layers))
  {
    var seen := Artifact(2000, [DEEP, BELOW]);
    DeepTotal(2000);
    DeepTotal(CONFIG_BYTES);
    assert Decide(s, key, Some(seen)) == Append(seen.layers);
    AppendedPlausible(s, key, call, Some(seen));
  }

  // ----- a signature that only signers see -----

  /** Some layer verifies under the key; `typed` asks for the media type that
      verifiers look at, too. */
  predicate Shows(s: Scheme, key: nat, typed: bool, layers: seq<Layer>) {
    exists i | 0 <= i < |layers| :: (typed ==> layers[i].cosign) && Verifies(s, key, layers[i])
  }

  lemma ShowsBoth(s: Scheme, key: nat, layers: seq<Layer>)
    ensures Shows(s, key, false, layers) <==> SignedBy(s, key, layers)
    ensures Shows(s, key, true, layers) <==> Verified(s, key, layers)
  {
  }

  /** Adding a call's layer makes the artifact show that call's key, and changes
      nothing for any other. */
  lemma AppendedShows(s: Scheme, key: nat, typed: bool, other: nat, call: nat, base: seq<Layer>)
    requires Sound(s)
    ensures Shows(s, key, typed, Appended(s, other, call, base).layers) <==> Shows(s, key, typed, base) || other == key
  {
    hide Shows;
    var own := OwnLayer(s, other, call);
    assert Verifies(s, key, own) <==> other == key;
    ShowsOneMore(s, key, typed, base, own);
  }

  lemma ShowsOneMore(s: Scheme, key: nat, typed: bool, base: seq<Layer>, layer: Layer)
    ensures Shows(s, key, typed, base + [layer]) <==>
      Shows(s, key, typed, base) || ((typed ==> layer.cosign) && Verifies(s, key, layer))
  {
    hide Verifies;
    var layers := base + [layer];
    assert layers[|base|] == layer;
    assert forall i | 0 <= i < |base| :: layers[i] == base[i];
  }

  /** Signing finds itself done with an artifact in which a verifier with the
      same key finds nothing. */
  lemma DoneButMissing(s: Scheme, key: nat, a: Artifact)
    requires Plausible(a) && SignedBy(s, key, a.layers) && !Verified(s, key, a.layers)
    ensures Decide(s, key, Some(a)) == AlreadySigned && Confirm(s, key, Some(a)) == Missing
  {
  }
}
