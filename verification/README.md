# Verified models of llmman's protocol and codec core

llmman keeps models in OCI layouts, reads the headers of GGUF files, parses the
token stream of Harmony-style models and publishes signatures and referrers to
registries that offer no compare-and-swap. This project models the parts of it
whose correctness is an argument rather than a glance, and proves what they are
for. Six groups of modules share only `Wrappers`, `Text` and `Words`:

- **Pointer paths and the pointer store** (`RefCodec`, `RefDecode`, `RefPaths`,
  `RefComponents`, `RefBuild`, `RefSpelled`, `RefLegacy`, `RefLegacyFolded`,
  `RefStore`, `RefWriters`; go-shim/manifest_ref.go). A model reference becomes
  the path of a pointer file through percent escapes, reserved device names, hidden trailing dots, marked
  180-byte pieces and a marker for object-store keys. `RefDecode` is a decoder
  written from the format alone. It undoes the codec on case-folded paths and
  stops exactly at a path's end, so injectivity and prefix-freeness follow from
  one theorem; `RefSpelled` says byte by byte what the path is. On top of it the store, with its never-written legacy tree, is a
  map from canonical key to descriptor, also while any writers race and die.
- **GGUF headers** (`Gguf`, `GgufSkip`, `GgufEncode`, `GgufAccept`,
  `GgufCounts`, `GgufReader`; src/gguf.rs). The skipping read, whose seeks may pass the end of
  the file, refines the full read on every byte string, for every element limit
  (the program passes 1024); a file is accepted exactly when it begins with the
  encoding of a well-formed header, and gives that header; the saturating counts
  are exact.
- **Harmony streams** (`Harmony`, `HarmonyHeader`, `HarmonyChunks`,
  `HarmonyRoute`, `HarmonyMachine`, `HarmonyRender`, `HarmonyHeaderFields`,
  `HarmonyDelivery`; src/harmony.rs). How a text was cut into chunks never shows;
  parsing undoes rendering; header fields survive, and channel and recipient
  decide where a body goes.
- **Append protocols** (`Signatures`, `SigningProtocol`, `SigningSafety`,
  `SigningCalls`, `SigningRetries`, `Repository` for go-shim/sigstore.go;
  `ReferrersIndex`, `ReferrersProtocol`, `ReferrersCalls`, `ReferrersListing`,
  `ReferrersSpelled` for go-shim/referrers.go). Any number of signers or
  publishers interleave as transition systems; listing pages terminates against
  any server and is exact.
- **The blob directory** (`BlobStream`, `BlobStore`, `BlobRuns`, `BlobResume`,
  `BlobBound`; go-shim/shared_oci.go). Every system call is a step that may fail, the process
  may die between any two of them or inside a write, and still no file at a
  final name has the wrong content; resumed downloads arrive.
- **Disk space** (`DiskSpace`; go-shim/diskspace.go). A wrapping 64-bit sum that
  is exact up to saturation, and what pulling the layers writes.

Code that updates state in place is modelled by classes and by methods with
loops (`GgufReader.Reader`, `HarmonyMachine.*`, `RefBuild.*`,
`RefStore.ManifestStore`, `ReferrersIndex.Registry`, `BlobStream.BlobFiles` and
others). Each is proved against a function of its inputs or its old state, and
the theorems are about those functions. Where the theorems are about a
transition system instead, a lemma says that a run of the system takes one call
where the method takes it: `SigningCalls.CallInRun`,
`ReferrersCalls.PublicationInRun`, `BlobRuns.CallIsStreamed`. Hashes, signature
checks, what a server answers and the outcome of each system call are
parameters.

Most operations are functions that a method with the source's loop is proved to
compute. What each such function means is said once more in terms of its inputs
alone, with the constants written as numbers (`RefSpelled`, `GgufAccept`,
`HarmonyDelivery`, `ReferrersSpelled`, `SigningCalls.CallMeans`,
`BlobStream.StoredIff`, `Repository.FormIs` and others).

## Where the code falls short of a simple statement

Each of these comes with an input that shows it and with the exact condition
under which the simple statement holds:

- The legacy pointer tree is not injective (`RefLegacy.LegacyCollision`,
  `RefLegacy.EmptySegmentCollision`). Exactly which references share a path is
  `RefLegacy.SameLegacyIffAlike`; among references with plain segments and tag
  the path decides the key (`RefLegacy.PlainLegacyIffSameKey`). On a disk that
  ignores case, keys are decided up to case (`RefLegacyFolded.SameFoldedIffAlike`
  and `RefLegacyFolded.PlainFoldedIffSameKey`).
- A blob is stored by a fresh download exactly when its size is not the largest
  64-bit number, for which the limit wraps around (`BlobRuns.FreshStoresIff`).
- A resumed call against a serving registry ends in a mismatch exactly when its
  partial file cannot be read or opened again
  (`BlobRuns.MismatchIffReopenFails`); two more calls always suffice
  (`BlobRuns.TwoCallsSuffice`).
- The partial file stays within one byte of the declared size as long as what is
  resumed is within the size (`BlobBound.PartStaysWithin`), and exactly then
  (`BlobBound.ResumeBoundedIff`): after a crash that left the byte too many, the
  next resumed copy is not limited (`BlobBound.UnlimitedAfterCrash`).
- What a signer publishes can be read again, for all artifacts with honest
  sizes, exactly when its payload has at most 65534 bytes
  (`Signatures.ReadableIffSmall`), and then over all runs
  (`SigningSafety.PublishedIsReadable`). Negative sizes are let through and can
  make the sum wrap (`Signatures.UnreadableAppend`); the exact condition is
  `Signatures.AppendedPlausible`.
- A confirmed signature may still be overwritten by a slower signer
  (`SigningSafety.ConfirmedThenOverwritten`). A layer stays, through every run in
  which no one removes the tag or misses it, exactly when every signer about to
  push has read it (`SigningSafety.KeptIffSafe`); a key's signature, which
  another call may replace by a different one, exactly when every such signer
  has read one or holds the key (`SigningSafety.KeyKeptIffSafe`).
- The disk space asked for is never less than what pulling the layers one after
  another writes, and is exactly that unless a layer lies whole in a partial
  file, which is counted in full (`DiskSpace.ReservesWhatIsWritten`).
- Signing can be reported done although verifying with the same key finds
  nothing (`SigningSafety.DoneUnseen`): over all runs, exactly when the first
  artifact shows the key under another media type only
  (`SigningSafety.SuccessIsVerifiedIff`).

## Model

| member | source | states |
|---|---|---|
| RefPaths.SamePathIffSameKey | go-shim/manifest_ref.go:42-177 | two references have one pointer path if and only if their canonical keys are equal, also when paths are compared ignoring ASCII case |
| RefPaths.NoFileAboveAnother | go-shim/manifest_ref.go:94-177 | no reference's pointer file is a directory on another's path, also ignoring ASCII case |
| RefPaths.DecodeUndoesPath | go-shim/manifest_ref.go:94-116 | an independent decoder reads the canonical key back from the case-folded path and leaves whatever components follow untouched |
| RefPaths.LayoutKey | go-shim/manifest_ref.go:94-116 | directories and tag, joined again, spell the canonical key |
| RefPaths.RegistryHead | go-shim/manifest_ref.go:97-116 | the path of a registry reference never starts with the marker of opaque references |
| RefPaths.KeyIsOpaque | go-shim/manifest_ref.go:42-49 | canonical keys are fixed points, and adding the default tag never turns a registry reference into an opaque one |
| RefDecode.DecodeDirectory | go-shim/manifest_ref.go:121-138 | a directory segment is read back across its pieces and markers, and nothing after it is touched |
| RefDecode.DecodeFile | go-shim/manifest_ref.go:121-138 | the pointer file's components give back the tag and end the path, also when the last piece is only the marker and the suffix |
| RefDecode.DottedMeaning | go-shim/manifest_ref.go:140-145 | hiding a piece's trailing dot never changes what the whole encoding says, wherever it was cut |
| RefDecode.UnescapeEscape | go-shim/manifest_ref.go:150-177 | percent encoding with device-name, dot and suffix guards loses nothing, even after case folding |
| RefDecode.GuardedEnd | go-shim/manifest_ref.go:150-177 | no directory name ends like a pointer file or in a dot |
| RefCodec.NormalizeTag | go-shim/classify.go:83-88 | the result always has a tag; a tagged reference, and no other, is kept, and otherwise exactly `:latest` is added |
| RefComponents.SafePath | go-shim/manifest_ref.go:94-177 | every component has 1 to 205 bytes of the safe alphabet, is not `.` or `..`, does not end in a dot, and has no Windows device name before its first dot in any case |
| RefComponents.EscapedDevice | go-shim/manifest_ref.go:150-177 | an escaped segment has a device name as its base in no case, whatever the segment |
| RefComponents.JoinKeepsComponents | go-shim/manifest_ref.go:94-116 | joining and cleaning the path drops and merges no component, and splitting the joined string gives them back |
| RefComponents.SamePathString | go-shim/manifest_ref.go:94-116 | two pointer path strings are equal exactly when the canonical keys are |
| RefSpelled.EscapeIs | go-shim/manifest_ref.go:150-177 | for every segment: letters a to z, digits, hyphen, underscore and dot stay, every other byte becomes `%` and two upper-case hex digits; but nothing is `~`, `.` and `..` are escaped whole, and so is the first byte of a device name |
| RefSpelled.DirectoryIs | go-shim/manifest_ref.go:169-176 | a directory's name differs from a file's at most in the dot of a last `.json` or a last dot, which becomes `%2E` |
| RefSpelled.OrdinaryKept | go-shim/manifest_ref.go:150-177 | a name of kept bytes that is neither a dot name nor a device name is written unchanged |
| RefSpelled.CutIs | go-shim/manifest_ref.go:121-145 | up to 200 encoded bytes are one component; a longer name is cut into pieces of exactly 180 and a last one of at most 180, marked, with a trailing dot hidden, and an end marker |
| RefSpelled.OrdinaryPath | go-shim/manifest_ref.go:94-116 | ordinary names and an ordinary tag are the directories and the file of the path as they stand; without a tag the file is `latest.json` |
| RefSpelled.OpaqueByShape | go-shim/manifest_ref.go:42-49 | exactly the references that begin with a slash or hold `://` are their own keys with marked paths; others are tagged and unmarked |
| RefBuild.EscapeRefSegment | go-shim/manifest_ref.go:150-177 | the byte loop computes the escape that RefSpelled.EscapeIs and RefSpelled.DirectoryIs describe |
| RefBuild.AppendRefSegment | go-shim/manifest_ref.go:121-138 | the cutting loop appends exactly the segment's components, those of RefSpelled.CutIs |
| RefBuild.ManifestRefPath | go-shim/manifest_ref.go:94-116 | the path builder computes the path that RefPaths.LayoutKey and RefSpelled describe |
| RefLegacy.RefPathSegments | go-shim/manifest_ref.go:66-81 | the legacy builder computes the sanitised legacy path |
| RefLegacy.SameLegacyIffAlike | go-shim/manifest_ref.go:66-90 | two references share a legacy path if and only if their nonempty name segments and tags agree one by one up to which of colon, backslash and underscore they have, or are both blank |
| RefLegacy.PlainLegacyIffSameKey | go-shim/manifest_ref.go:42-90 | among references that are not opaque and whose segments and tag are plain, legacy paths as written are equal if and only if canonical keys are |
| RefLegacyFolded.SameFoldedIffAlike | go-shim/manifest_ref.go:66-90 | legacy paths are equal ignoring case if and only if names and tags agree one by one up to case and marks, for all references |
| RefLegacyFolded.PlainFoldedIffSameKey | go-shim/manifest_ref.go:42-90 | among plain references that is the case if and only if canonical keys are equal ignoring case |
| RefLegacyFolded.FoldedKeyFoldedPath | go-shim/manifest_ref.go:42-81 | keys that differ in case alone share a legacy path on such a disk, for all references |
| RefLegacy.LegacyOfKey | go-shim/manifest_ref.go:42-81 | the legacy path depends on the canonical key alone, for every reference |
| RefLegacy.LegacyCollision | go-shim/manifest_ref.go:66-90 | a port and an underscore collide in the legacy tree although the keys differ |
| RefLegacy.EmptySegmentCollision | go-shim/manifest_ref.go:73-78 | so do a doubled slash and a single one |
| RefStore.LastWrittenIs | go-shim/manifest_ref.go:213-254 | what a history of writes leaves under a key has the media type, digest and size of the last descriptor written under it, names that write's reference, and has every other annotation of the descriptor and no further one |
| RefStore.ReadsLastWritten | go-shim/manifest_ref.go:190-254 | on a tree built by writes, a reference's place holds the last descriptor written under its key, or nothing |
| RefStore.PutPointer | go-shim/manifest_ref.go:213-254 | one rename puts the new pointer under its own key and leaves every other key's pointer as it was |
| RefStore.ManifestStore.Read | go-shim/manifest_ref.go:190-208 | whatever the two trees hold, a read finds exactly an entry recorded under the key, in the new tree first, and passes over missing files and other keys' entries, while an unreadable file is an error; in a store built by writes it gives the media type, digest, size and annotations of the last write under the key, named by its reference, and the legacy answer only if there was none |
| RefStore.ManifestStore.Write | go-shim/manifest_ref.go:213-254 | a write on its own, whichever file operation fails, adds its one update or none, leaves no temporary file and keeps the store a map of its history; it succeeds when none fails |
| RefWriters.ReadsWhole | go-shim/manifest_ref.go:210-254 | over any number of writers racing, failing and dying between any two file operations, a reference's place holds, whole, what the last rename under its key recorded, and no file before the first |
| RefWriters.ReadersAreSafe | go-shim/manifest_ref.go:190-254 | so a read gives the last write under the key: its media type, digest, size and annotations, named by its reference; only if there was none, the legacy answer or an error; and a write that reported success has happened |
| RefWriters.RunKeeps | go-shim/manifest_ref.go:213-254 | the invariant behind both holds in every reachable state |
| RefWriters.WritesAlone | go-shim/manifest_ref.go:226-254 | in any such state, a writer left alone succeeds unless a file lies where a directory must be, with its pointer in place, no temporary file and only missing directories added |
| RefWriters.EarlyFailureEnds | go-shim/manifest_ref.go:226-237 | a directory or temporary file that cannot be made ends it too and leaves everything |
| RefWriters.FailureEnds | go-shim/manifest_ref.go:238-253 | a failing write, close or rename ends the write without success, takes the temporary file away and touches nothing else |
| GgufSkip.SkippingRefinesReading | src/gguf.rs:285-468 | for every file the skipping read succeeds exactly when the full read does, with the full result pruned at every level and the same end |
| GgufSkip.SkipValueAgrees | src/gguf.rs:293-311 | skipping a value and reading it succeed together and end at one place, unless the skip ran past the end of the file |
| GgufSkip.SkipElementsAgree | src/gguf.rs:315-330 | one seek over fixed-size elements, or skipping each, lands where reading them lands |
| GgufSkip.FixedElements | src/gguf.rs:315-330 | reading fixed-size elements succeeds exactly when the seek's target is inside the file |
| GgufSkip.ValueRefines | src/gguf.rs:341-370 | at every depth the limited read gives the full value pruned |
| GgufSkip.MetadataRefines | src/gguf.rs:412-419 | the same for a whole metadata table, in which later keys replace earlier ones |
| GgufSkip.FullValueIsWhole | src/gguf.rs:386-389 | the full read stands no array in by its length |
| GgufEncode.ReadValue | src/gguf.rs:341-370 | reading an encoded value within the depth, length and string limits gives it back and consumes exactly its bytes |
| GgufEncode.DecodeHeader | src/gguf.rs:391-468 | decoding an encoded header, followed by anything, gives its metadata and tensors and stops right behind it |
| GgufAccept.AcceptsExactly | src/gguf.rs:341-468 | a file is accepted with given metadata and tensors if and only if it begins with the encoding of a header that has them, of version 2 or later and within the limits on depth, ranks, strings and arrays, and ends there |
| GgufAccept.SkippingAccepts | src/gguf.rs:285-468 | the skipping read accepts exactly the same files |
| GgufAccept.OnlyGguf | src/gguf.rs:391-405 | whatever is accepted has at least 24 bytes and starts with `GGUF` |
| GgufAccept.ByteOrder | src/gguf.rs:255-283 | four bytes are read low byte first, the sign in the last |
| GgufEncode.DecodeHeaderSkipping | src/gguf.rs:391-468 | so does the skipping read, with the long arrays cut to their lengths |
| GgufCounts.FoldedProduct | src/gguf.rs:450-456 | a saturating 128-bit product is the true product cut at the limit, also when a zero follows saturation |
| GgufCounts.ParameterCountIsExact | src/gguf.rs:450-460 | the parameter count is the smaller of the largest 64-bit number and the true sum of products |
| GgufCounts.OneMoreTensor | src/gguf.rs:528-540 | a tensor of two or more dimensions adds its element count to its own type alone and makes it a candidate; others change nothing |
| GgufCounts.Totals | src/gguf.rs:528-540 | the map holds the saturated total of each type over tensors of rank 2 or more, and no other type |
| GgufCounts.DominantQuantization | src/gguf.rs:528-548 | the chosen type is a maximum of those totals; none is chosen exactly when every tensor has fewer than two dimensions |
| GgufReader.Reader.ValueOfType | src/gguf.rs:341-370 | the recursive reader returns what the value function says and moves the stream where it says |
| GgufReader.Reader.SkipOne | src/gguf.rs:293-311 | the recursive skipper succeeds and moves as the skip function says |
| GgufReader.Reader.SkipAll | src/gguf.rs:315-330 | likewise for runs of elements |
| GgufReader.ReadInfoUpTo | src/gguf.rs:391-468 | the whole read reports the header's metadata, its true tensor and parameter counts and a dominant type; it succeeds exactly for files that begin with a well-formed header, and otherwise gives the first error |
| Harmony.OverlapUpTo | src/harmony.rs:222-230 | the longest beginning of the tag that the text ends with |
| HarmonyChunks.NothingEarly | src/harmony.rs:104-167 | no text is passed on that a tag completed by later text would need |
| HarmonyChunks.OverlapShifted | src/harmony.rs:222-230 | holding back the longest overlap leaves all later overlaps as they were |
| HarmonyChunks.FeedCut | src/harmony.rs:90-167 | two calls end in the state of one call with the joined text and emit the same, for any tags and any state |
| HarmonyChunks.FeedAllCut | src/harmony.rs:90-167 | the same for any sequence of chunks |
| HarmonyChunks.HeldIsShort | src/harmony.rs:104-167 | after every call in a body the held text is a proper beginning of the end tag |
| HarmonyRoute.HandleAllCut | src/harmony.rs:299-341 | content, thinking, tool text, parser, router and accumulator do not depend on how a stream was cut |
| HarmonyRoute.RouteByAtoms | src/harmony.rs:299-341 | the router treats a piece of text as it treats its characters one by one |
| HarmonyRender.ParseRendered | src/harmony.rs:90-167 | rendered messages parse to exactly their starts, parsed headers, bodies and ends |
| HarmonyRender.RunRendered | src/harmony.rs:104-167 | and the parser goes on with the text behind them as if they had not been there |
| HarmonyRender.TagFound | src/harmony.rs:104-167 | a border-free tag is found where it was put, not earlier across a text that avoids it |
| HarmonyRender.GptOssIsPlain | src/harmony.rs:67-69 | the shipped tags are border-free |
| HarmonyRender.StreamedMessages | src/harmony.rs:299-341 | rendered messages of any headers, cut into any chunks, reach the router whole and in order, with nothing held back |
| HarmonyDelivery.OneDelivered | src/harmony.rs:299-341 | one message in any chunks: the body is thinking if the channel is analysis without a recipient, the text of that tool's call if it is analysis or commentary with one, and content if it is final, commentary without a recipient, another or none; nothing else is put out |
| HarmonyDelivery.TurnedBy | src/harmony.rs:306-328 | in any mode, channel and recipient of a rendered header turn the handler to thinking, to that tool's call or to content, and another channel or none leaves it as it is |
| HarmonyDelivery.SentIsDelivered | src/harmony.rs:299-341 | for any list of messages in any chunks each output is the bodies of its kind, in order |
| HarmonyHeaderFields.HeaderSurvives | src/harmony.rs:173-219 | role, channel and recipient are read back for every placement of the recipient and every constraint |
| HarmonyHeaderFields.WordsDecide | src/harmony.rs:195-219 | for headers of words alone: the first is the role, or addresses a tool; a recipient not named there may be the second; no words give an empty header |
| HarmonyHeader.ParseHeader | src/harmony.rs:173-219 | the step-by-step rewriting computes the header function |
| HarmonyMachine.FindOverlap | src/harmony.rs:222-230 | the descending loop finds the longest overlap |
| HarmonyMachine.HarmonyParser.Eat | src/harmony.rs:104-167 | one step matches the awaited tag or emits what may be emitted |
| HarmonyMachine.HarmonyParser.AddContent | src/harmony.rs:90-102 | the loop is the feed function, and in a body holds back less than the end tag |
| HarmonyMachine.HarmonyParser.AddImplicitStart | src/harmony.rs:85-88 | any text fed afterwards ends in the parser, and says what, feeding the start tag and the role and then the text does |
| HarmonyChunks.HeldCountsAsFed | src/harmony.rs:85-102 | text put in front of what is held counts as received, for any text |
| HarmonyMachine.HarmonyMessageHandler.AddContent | src/harmony.rs:299-341 | outputs, router and accumulator change as the handler function says, which HarmonyDelivery.OneDelivered describes |
| HarmonyMachine.HarmonyMessageHandler.DrainToolCall | src/harmony.rs:347-352 | the call is handed out under its bare name and the next one starts empty |
| Signatures.CheckSignatureManifest | go-shim/sigstore.go:376-392 | the bounded loop decides plausibility, with the sum in 64 bits |
| Signatures.PlausibleIsExact | go-shim/sigstore.go:376-392 | whenever the sum of the sizes, negative ones included, fits 64 bits, an artifact passes exactly when it has at most 64 layers of at most 65536 bytes and at most 4194304 bytes in all |
| Signatures.AppendSignature | go-shim/sigstore.go:642-730 | the loop pushes only when no layer verifies under the own key and there is room |
| Signatures.VerifySignatureLayer | go-shim/sigstore.go:281-315 | some key if and only if there is a signature, the payload claims this type, digest and repository, that key accepts it and none before it does |
| Signatures.VerifyAgainst | go-shim/sigstore.go:443-494 | the report names, in order and once each, exactly the cosign layers that some key accepts, with the first key that does, and counts all cosign layers; there is a match if and only if some cosign layer with a signature and such a payload is accepted by some key |
| Signatures.AppendedPlausible | go-shim/sigstore.go:642-730 | whatever was read, what is published passes the next reader's limits if and only if the payload and the 64-bit sum are within them, and the sum is the true one unless it runs below 64 bits |
| Signatures.ReadableIffSmall | go-shim/sigstore.go:642-730 | every append to an artifact with honest sizes can be read again if and only if the payload has at most 65534 bytes |
| Signatures.UnreadableAppend | go-shim/sigstore.go:376-392 | two layers of negative size are let through, and what is then published with an ordinary payload is refused |
| SigningProtocol.PublishedExtendsRead | go-shim/sigstore.go:577-730 | under any interleaving every published artifact is what its pusher last read plus exactly its own layer, has one layer per key and at most 64 |
| SigningProtocol.SuccessIsWitnessed | go-shim/sigstore.go:577-637 | success is reported only after an own read that saw a layer with a signature over a payload that claims this type, digest and repository, accepted by the own key |
| SigningProtocol.NothingInvented | go-shim/sigstore.go:642-730 | every layer of every published artifact was there at first or was added by a signer as its own |
| SigningProtocol.RunKeeps | go-shim/sigstore.go:577-730 | the protocol invariant holds in every reachable state |
| SigningSafety.KeptIffSafe | go-shim/sigstore.go:573-730 | in any state, a layer stays in the tag through every run without removals and missed reads if and only if it is in the tag and in what every pushing signer read, or is the very layer that signer's call pushes |
| SigningSafety.KeyKeptIffSafe | go-shim/sigstore.go:573-730 | a key's signature, or one that `verifyAgainst` accepts, stays through every such run if and only if the tag shows it and every pushing signer read one or holds the key |
| SigningSafety.OnlyCleanRunsKeep | go-shim/sigstore.go:402-422 | a removal, or one signer that finds nothing and pushes, loses the layer |
| SigningSafety.PublishedIsReadable | go-shim/sigstore.go:376-392 | over all runs with honest sizes and payloads up to 65534 bytes, every published artifact passes the limits, and so does the tag if it did at first |
| SigningSafety.SuccessIsVerifiedIff | go-shim/sigstore.go:443-637 | every run ending in success for a signer has an own read that `verifyAgainst` accepts for its key if and only if the first artifact, when it shows that key at all, shows it under the cosign type |
| SigningSafety.DoneUnseen | go-shim/sigstore.go:577-637 | a run that ends in success at once although no read of the signer's was verified: the first artifact holds its own layer under another media type |
| SigningRetries.MissingMeansDisturbed | go-shim/sigstore.go:611-637 | a confirmation comes out missing only when, since the call's own push, the tag was removed, or overwritten by a signer with another key that had not read the signature, or the confirming read missed it |
| SigningRetries.OutOfAttempts | go-shim/sigstore.go:611-637 | a call that runs out of its three attempts was so disturbed in each of them |
| SigningProtocol.UndisturbedSigner | go-shim/sigstore.go:577-637 | without interference one round succeeds and adds exactly one layer |
| SigningSafety.ConfirmedThenOverwritten | go-shim/sigstore.go:573-637 | a run from an empty registry in which a signer succeeds with its layer in the tag, and a signer that read earlier then removes it |
| SigningCalls.CallMeans | go-shim/sigstore.go:577-730 | of at most three attempts a call succeeds if and only if one reads its key's signature, or pushes and reads it back under the cosign type, after every earlier one pushed in vain; each push is what was read and one own layer |
| SigningCalls.SignManifest | go-shim/sigstore.go:577-637 | the three-attempt loop ends where its answers take a call of the protocol, having published what they make it publish; both are as SigningCalls.CallMeans says |
| SigningCalls.CallFollowsAnswers | go-shim/sigstore.go:577-637 | in every run of the protocol a call goes where its own answers take it, whatever other signers do |
| SigningCalls.CallInRun | go-shim/sigstore.go:577-637 | so a run that answers a new call as given leaves it in the method's final phase, with the method's pushes in the log |
| Repository.FormIs | go-shim/sigstore.go:164-186 | without a dot, a colon or `localhost` in front the form is `docker.io/`, with `library/` for a single name; Docker Hub's three names become the first, and every other repository is its own form |
| Repository.CanonicalIffSame | go-shim/sigstore.go:164-186 | two repositories get one form if and only if they name one registry host, Docker Hub's spellings being one, and one path with the implied `library/` |
| Repository.CanonicalIsIdempotent | go-shim/sigstore.go:164-186 | the form is a fixed point and still names the same host and path |
| Repository.RepositoryIsKept | go-shim/sigstore.go:146-154 | tag and digest are stripped from a well-formed reference, and a port is not |
| Repository.SignedInPlace | go-shim/sigstore.go:190-193 | a signature is published in the repository of what it signs |
| Repository.BlankIffWhiteSpace | go-shim/sigstore.go:209-214 | a text is blank if and only if it is the UTF-8 of white space code points and nothing else |
| Repository.IdentityIsTheRepository | go-shim/sigstore.go:209-214 | a claimed identity matches if and only if it is not blank and names the same host and path, whatever the tags and digests |
| ReferrersIndex.AtMostIsBefore | go-shim/referrers.go:537-539 | digests are ordered as in a dictionary: a beginning first, otherwise by the first byte that differs |
| ReferrersIndex.SortSorts | go-shim/referrers.go:537-539 | sorting by digest gives an ordered permutation |
| ReferrersIndex.AfterAppend | go-shim/referrers.go:527-561 | one append loses no entry, adds only the artifact, and keeps order and absence of duplicates |
| ReferrersIndex.PublicationKeeps | go-shim/referrers.go:505-523 | success means listed; nothing is lost and only the artifact added; other tags, order and absence of duplicates stay |
| ReferrersIndex.PublicationDecides | go-shim/referrers.go:505-561 | a publication succeeds if and only if the index is read and lists the digest, or has at most 1048576 bytes with it, is taken and confirmed; it changes the index in no other case, and then to the old one and the artifact, sorted |
| ReferrersIndex.Registry.AppendFallbackReferrer | go-shim/referrers.go:527-561 | verdict and indexes follow whether the read is answered, the digest listed, the size within the limit and the put accepted |
| ReferrersIndex.Registry.PublishFallbackReferrer | go-shim/referrers.go:505-523 | the loop comes to what the first answers decide, with at most one push |
| ReferrersCalls.PublicationInRun | go-shim/referrers.go:492-561 | in any run, a publication that has the lock ends as the method ends, however others interleave, and with the method's indexes if none locks after it |
| ReferrersProtocol.NothingLost | go-shim/referrers.go:36-38 | over any interleaving, what an index ever lists it lists in every later state, and order and absence of duplicates survive |
| ReferrersProtocol.ListedForGood | go-shim/referrers.go:492-523 | once a publisher returned success through the fallback, its digest is listed for good |
| ReferrersProtocol.NoRetries | go-shim/referrers.go:508-523 | under the lock no publication reaches a second attempt |
| ReferrersProtocol.MutualExclusion | go-shim/referrers.go:502-503 | at most one publication is in the locked part |
| ReferrersListing.ListingIsExact | go-shim/referrers.go:208-275 | against any server: at most 64 requests, none twice, none off the origin; success if and only if the link chain is within all limits, with exactly its pages |
| ReferrersSpelled.ListingMeans | go-shim/referrers.go:208-275 | a listing gives exactly the entries cut from the pages of a chain in order: at most 64 distinct pages, each of at most 4194304 bytes and linking to the next on the origin, 16777216 bytes and 10000 entries in all; there is at most one such chain |
| ReferrersListing.AbsentMeansNotFound | go-shim/referrers.go:233-238 | a listing is absent exactly when the first page is not found |
| ReferrersListing.GetReferrersIndex | go-shim/referrers.go:208-275 | the loop with its running totals follows the walk |
| BlobStore.NoWrongBlob | go-shim/shared_oci.go:37-159 | over any calls, bytes, failures, leftovers, offsets and crashes, every file at a final blob name hashes to that name, and a stored result means the blob is there |
| BlobStore.RunKeeps | go-shim/shared_oci.go:37-159 | the invariant behind it holds in every reachable state |
| BlobRuns.CallIsStreamed | go-shim/shared_oci.go:112-159 | the step machine, left alone, does what the one-piece description of a call says, for any chunking of the stream |
| BlobRuns.BlobIsWritten | go-shim/shared_oci.go:37-55 | an undisturbed write puts the data at its name unless it finds a file of its length there |
| BlobRuns.UnseenIsFetched | go-shim/shared_oci.go:117-119 | a call that cannot look at the final file fetches the blob as if it were missing, and leaves that file unless it stores |
| BlobRuns.FailureEnds | go-shim/shared_oci.go:37-159 | the first system call a write cannot do without that fails ends it with an error; the final file stays and the partial file goes |
| BlobRuns.FailedCallIsTidy | go-shim/shared_oci.go:112-159 | over any outcomes, a streaming call that fails leaves the final file alone and no partial file, or everything if it could open none |
| BlobRuns.ResumeEnds | go-shim/shared_oci.go:84-159 | a resumed call against a serving registry stores the blob, or ends in a size mismatch when the partial file cannot be read or opened again |
| BlobRuns.MismatchIffReopenFails | go-shim/shared_oci.go:84-159 | such a call ends in a mismatch if and only if the re-read or the re-open fails |
| BlobRuns.FreshStoresIff | go-shim/shared_oci.go:112-159 | a fresh download of a served blob stores it if and only if its size is not the largest 64-bit number; otherwise nothing is taken |
| BlobRuns.TwoCallsSuffice | go-shim/shared_oci.go:112-159 | whatever partial file is left, two calls against a registry that serves the blob store it |
| BlobResume.HonestRunKeeps | go-shim/shared_oci.go:84-159 | with correct offsets and a serving registry, the partial file is a beginning of the blob in every reachable state and no call ends in a mismatch |
| BlobResume.ResumedAfterCrashes | go-shim/backend_docker.go:861-877 | after any number of crashes a call resumed at the partial file's length stores exactly the blob |
| BlobStream.StoredIff | go-shim/shared_oci.go:112-159 | a call stores if and only if the blob is there at its size, or partial file and stream together have the declared size, if any, and the digest; otherwise the partial file goes, and a wrong size, one more than declared when too much is sent, is reported before a wrong digest |
| BlobStream.ResumeRefinesFresh | go-shim/shared_oci.go:84-159 | with the first bytes in the partial file and the rest delivered, result and files are those of a fresh fetch |
| BlobStream.OverlongPartFails | go-shim/shared_oci.go:112-159 | a partial file longer than declared fails both ways and is removed |
| BlobStream.CorruptPartRejected | go-shim/shared_oci.go:140-153 | a partial file that is no beginning of the blob is rejected and removed whatever follows |
| BlobStream.StoredMatches | go-shim/shared_oci.go:112-159 | what a call stores hashes to its digest and has the declared size |
| BlobStream.BlobFiles.OpenForResume | go-shim/shared_oci.go:84-108 | the digester starts with what the file holds, the count with what the caller passed |
| BlobStream.BlobFiles.Copy | go-shim/shared_oci.go:136-141 | the buffered, bounded copy appends exactly the taken bytes to file and digester |
| BlobStream.BlobFiles.WriteBlobStream | go-shim/shared_oci.go:112-159 | files and result are those of the description; fresh, or resumed at the length of a partial file within the declared size, that file never exceeds the size by more than one byte |
| BlobBound.PartStaysWithin | go-shim/shared_oci.go:127-141 | over every run of such calls, of one declared size or of several, with any bytes delivered, any system call failing and any crashes, the partial file has at most one byte more than the largest declared size |
| BlobBound.ResumeBoundedIff | go-shim/shared_oci.go:135-138 | a resumed call, whatever it meets, never makes the partial file longer than one byte past the size or than it was, if and only if that file is within the size; for every partial file |
| BlobBound.UnlimitedAfterCrash | go-shim/shared_oci.go:135-138 | a crash with the byte too many is reached from nothing, and the next resumed copy writes whatever is delivered |
| DiskSpace.LayersMissing | go-shim/diskspace.go:28-41 | the result is the smaller of the largest 64-bit number and the true sum |
| DiskSpace.WrapTestIsExact | go-shim/diskspace.go:35-38 | the wrap test catches every overflow and nothing else |
| DiskSpace.OncePerDigest | go-shim/diskspace.go:28-34 | the sum has one term for every missing digest, its first eligible entry, and no other |
| DiskSpace.ReservesWhatIsWritten | go-shim/diskspace.go:19-41 | it is at least what pulling the layers in order writes, keeping stored blobs and continuing shorter partial files, and equal to it if and only if no counted layer lies whole in a partial file |

## Left out

- The network, authentication, TLS, mirrors, FFI envelopes, progress bars, timers and locks on files: calls into libraries and the operating system, present only as parameters.
- Hashing, signature arithmetic, PEM and JSON: uninterpreted functions and outcomes; a digest is any function of the bytes.
- Power loss: a crash ends the process and tears the write in progress, but what was written before stays.
- Two writers of one blob at a time: they would share a temporary name; the model has one writer per blob, which `dedupBlobFetch` arranges and which is assumed here.
- What each caller of one shared fetch is credited (`dedupBlobFetch`): a call may return early without streaming anything.
- BlobResume.HonestRunKeeps: excludes a failing re-read or re-open of the partial file, because it is false then; BlobRuns.MismatchIffReopenFails is the exact statement about one call.
- BlobStream.ResumeRefinesFresh: excludes the largest 64-bit size, for which BlobRuns.FreshStoresIff shows it false, and files that exceed 64-bit lengths.
- BlobStream.BlobFiles.WriteBlobStream: failing system calls are in `BlobStore` only; here only the stream's content varies.
- Text is bytes or characters: Rust's lossy UTF-8 decoding of GGUF strings and Unicode lower-casing of device names are not modelled (all names concerned are ASCII).
- Harmony.OverlapUpTo: counts characters where the code counts bytes at character boundaries; the two agree for ASCII tags.
- `looks_like_harmony`, the `Info` and `Value` accessors, `file_type_name`, `humanSize`, `ensureRoom`: single tests and tables.
- Seeks near the largest 63-bit position: the model's positions are unbounded, while a real seek may fail there; such a file cannot exist.
- DiskSpace.ReservesWhatIsWritten: assumes that entries of one digest agree on its size; of entries that disagree only the first counts.
- GgufCounts.DominantQuantization: leaves ties open, as iteration over a hash map does, and takes the table of type names (`ggml_type_name`) as given.
- The wording of errors, including `findManifestForPush`'s, and `describeMissingSignature`.
- RefStore.ManifestStore.Read: the legacy tree is a parameter that gives any outcome per path.
- RefStore.ManifestStore.Write: is one writer whose removal of its temporary file succeeds; RefWriters has the others.
- RefWriters.ReadsWhole: a temporary file that a dead writer left may lie where another reference needs a directory; then that reference's writes fail and reads of it are errors, and nothing is said about how likely the name is.
- SigningProtocol.SuccessIsWitnessed: claims nothing about the time after success; when a layer is safe then is SigningSafety.KeptIffSafe.
- SigningProtocol.PublishedExtendsRead: a push that reaches the registry only after its signer gave up is not modelled; a push whose answer is lost takes effect at once.
- ReferrersProtocol.ListedForGood: a publication whose put was cancelled is over; a put that reaches the registry after its publisher gave up the lock is not modelled.
- ReferrersIndex.Registry.AppendFallbackReferrer: the index is a sequence, and the library's in-place sort is any ordered permutation.
- ReferrersListing.ListingIsExact: the Link header's grammar and URL resolution are part of what the server's page says.
- `fallbackTag`: truncates long digests, so two subjects may share a tag; tags are parameters.
- Repository.IdentityIsTheRepository: references with several `@`, or with tags that hold a slash or a colon, are outside well-formedness.
