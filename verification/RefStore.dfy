/** The pointer store of go-shim/manifest_ref.go: one file per reference in the
    `manifests-v2` tree, with the older tree still read when that has nothing. */
module RefStore {
  import opened Wrappers
  import opened Text
  import opened RefCodec
  import opened RefDecode
  import opened RefPaths
  import opened RefBuild
  import opened RefLegacy
  import RefComponents

  const REF_NAME: Bytes := "org.opencontainers.image.ref.name"

  datatype Descriptor = Descriptor(mediaType: Bytes, digest: Bytes, size: int, annotations: map<Bytes, Bytes>)

  /** The name a pointer records; a missing annotation reads as empty. */
  function RecordedName(d: Descriptor): Bytes {
    if REF_NAME in d.annotations then d.annotations[REF_NAME] else []
  }

  function Named(d: Descriptor, ref: Bytes): Descriptor {
    d.(annotations := d.annotations[REF_NAME := ref])
  }

  /** A file's bytes, by what parsing them as a descriptor gives. */
  datatype Content = Pointer(desc: Descriptor) | Garbled

  /** What reading a file can come to. */
  datatype FileRead = Data(content: Content) | Missing | NotADirectory | NameTooLong | Failed

  datatype ReadResult = Found(desc: Descriptor) | NotFound | Unreadable

  predicate MissingLegacyPointer(r: FileRead) {
    r.Missing? || r.NotADirectory? || r.NameTooLong?
  }

  /** What a reference's two files amount to: an unreadable file is an error, a
      file recorded under another key is passed over. */
  function Resolve(key: Bytes, current: FileRead, legacy: FileRead): ReadResult {
    match current
    case Data(Pointer(d)) =>
      if CanonicalKey(RecordedName(d)) == key then Found(d) else ResolveLegacy(key, legacy)
    case Missing => ResolveLegacy(key, legacy)
    case _ => Unreadable
  }

  function ResolveLegacy(key: Bytes, legacy: FileRead): ReadResult {
    match legacy
    case Data(Pointer(d)) => if CanonicalKey(RecordedName(d)) == key then Found(d) else NotFound
    case Data(Garbled) => Unreadable
    case Failed => Unreadable
    case _ => NotFound
  }

  /** The file is a pointer recorded under the key. */
  ghost predicate Own(key: Bytes, file: FileRead) {
    file.Data? && file.content.Pointer? && CanonicalKey(RecordedName(file.content.desc)) == key
  }

  /** The file is a pointer, but recorded under another key. */
  ghost predicate Foreign(key: Bytes, file: FileRead) {
    file.Data? && file.content.Pointer? && CanonicalKey(RecordedName(file.content.desc)) != key
  }

  /** Which answer a reader must give. */
  ghost predicate Answers(key: Bytes, current: FileRead, legacy: FileRead, r: ReadResult) {
    var passed := current.Missing? || Foreign(key, current);
    && (r.Found? <==> Own(key, current) || (passed && Own(key, legacy)))
    && (r.Found? ==> (if Own(key, current) then current else legacy) == Data(Pointer(r.desc)))
    && (r.Unreadable? <==>
          || current.NotADirectory? || current.NameTooLong? || current.Failed? || current == Data(Garbled)
          || (passed && (legacy.Failed? || legacy == Data(Garbled))))
  }

  lemma ResolveAnswers(key: Bytes, current: FileRead, legacy: FileRead)
    ensures Answers(key, current, legacy, Resolve(key, current, legacy))
  {
    hide CanonicalKey, RecordedName;
  }

  // ----- what a sequence of writes means -----

  datatype Update = Update(ref: Bytes, desc: Descriptor)

  /** The last descriptor written under a key. */
  function LastWritten(writes: seq<Update>, key: Bytes): Option<Descriptor> {
    if writes == [] then None
    else
      var w := writes[|writes| - 1];
      if CanonicalKey(w.ref) == key then Some(Named(w.desc, w.ref))
      else LastWritten(writes[..|writes| - 1], key)
  }

  lemma {:induction false} LastWrittenKey(writes: seq<Update>, key: Bytes)
    ensures LastWritten(writes, key).Some? ==> CanonicalKey(RecordedName(LastWritten(writes, key).value)) == key
  {
    if writes == [] {
    } else {
      LastWrittenKey(writes[..|writes| - 1], key);
    }
  }

  /** What a pointer recorded for desc under ref says: it points where desc does,
      has its annotations and no further one, and names ref. */
  ghost predicate Keeps(found: Descriptor, desc: Descriptor, ref: Bytes) {
    var name: Bytes := "org.opencontainers.image.ref.name";
    && found.mediaType == desc.mediaType
    && found.digest == desc.digest
    && found.size == desc.size
    && name in found.annotations && found.annotations[name] == ref
    && (forall a | a != name :: a in found.annotations <==> a in desc.annotations)
    && (forall a | a != name && a in desc.annotations :: found.annotations[a] == desc.annotations[a])
  }

  lemma NamedKeeps(desc: Descriptor, ref: Bytes)
    ensures Keeps(Named(desc, ref), desc, ref)
  {
  }

  /** The i-th write is the last one under the key. */
  ghost predicate LastUnder(writes: seq<Update>, key: Bytes, i: nat) {
    && i < |writes| && CanonicalKey(writes[i].ref) == key
    && forall j | i < j < |writes| :: CanonicalKey(writes[j].ref) != key
  }

  ghost predicate NeverUnder(writes: seq<Update>, key: Bytes) {
    forall j | 0 <= j < |writes| :: CanonicalKey(writes[j].ref) != key
  }

  /** What is found is what the last write under the key was given. */
  ghost predicate GivesLast(writes: seq<Update>, key: Bytes, found: Descriptor) {
    exists i: nat :: LastUnder(writes, key, i) && Keeps(found, writes[i].desc, writes[i].ref)
  }

  lemma {:induction false} LastWrittenIs(writes: seq<Update>, key: Bytes)
    ensures match LastWritten(writes, key)
      case Some(d) => GivesLast(writes, key, d)
      case None => NeverUnder(writes, key)
  {
    hide CanonicalKey, Named, Keeps;
    if writes == [] {
    } else {
      var n := |writes| - 1;
      LastWrittenIs(writes[..n], key);
      NamedKeeps(writes[n].desc, writes[n].ref);
      if CanonicalKey(writes[n].ref) == key {
        assert LastUnder(writes, key, n);
      } else if LastWritten(writes, key).Some? {
        var i: nat :| LastUnder(writes[..n], key, i) &&
          Keeps(LastWritten(writes, key).value, writes[..n][i].desc, writes[..n][i].ref);
        assert LastUnder(writes, key, i);
      }
    }
  }

  function StoredOrLegacy(stored: Option<Descriptor>, key: Bytes, legacy: FileRead): ReadResult {
    match stored
    case Some(d) => Found(d)
    case None => ResolveLegacy(key, legacy)
  }

  // ----- the tree on disk -----

  datatype Node = File(content: Content) | Directory

  type Tree = map<seq<string>, Node>

  /** The file operation of a write that fails: making a directory, creating
      (step 0), writing or closing the temporary file, or renaming it. */
  datatype Fault = NoFault | AtDirectory(n: nat) | AtTemporary(step: nat) | AtRename

  /** How the disk compares a path's components. */
  function OnDisk(folds: bool, parts: seq<string>): seq<string> {
    if folds then LowerAll(parts) else parts
  }

  function Place(folds: bool, ref: Bytes): seq<string> {
    OnDisk(folds, PathParts(ref))
  }

  /** The path of another name in the same directory. */
  function Beside(path: seq<string>, name: string): seq<string> {
    if path == [] then [name] else path[..|path| - 1] + [name]
  }

  predicate BelowFile(tree: Tree, path: seq<string>) {
    exists i | 0 < i < |path| :: path[..i] in tree && tree[path[..i]].File?
  }

  function ReadFile(tree: Tree, path: seq<string>): FileRead {
    if path in tree then
      match tree[path]
      case File(content) => Data(content)
      case Directory => Failed
    else if BelowFile(tree, path) then NotADirectory
    else Missing
  }

  lemma {:induction false} OnePlacePerKey(folds: bool, r1: Bytes, r2: Bytes)
    ensures Place(folds, r1) == Place(folds, r2) <==> CanonicalKey(r1) == CanonicalKey(r2)
  {
    SamePathIffSameKey(r1, r2);
  }

  lemma {:induction false} NoPlaceAbove(folds: bool, r1: Bytes, r2: Bytes)
    ensures !(Place(folds, r1) < Place(folds, r2))
  {
    NoFileAboveAnother(r1, r2);
  }

  ghost predicate AbovePointer(folds: bool, path: seq<string>) {
    exists ref: Bytes :: path < Place(folds, ref)
  }

  /** The tree holds pointer files at their own places and directories above
      such places, and nothing else. */
  ghost predicate WellPlaced(folds: bool, tree: Tree) {
    forall path | path in tree ::
      match tree[path]
      case File(Pointer(d)) => path == Place(folds, RecordedName(d))
      case File(Garbled) => false
      case Directory => AbovePointer(folds, path)
  }

  /** The tree holds for every key what was last written under it. */
  ghost predicate Holds(folds: bool, tree: Tree, writes: seq<Update>) {
    forall ref: Bytes :: Holding(folds, tree, writes, ref)
  }

  ghost predicate Holding(folds: bool, tree: Tree, writes: seq<Update>, ref: Bytes) {
    match LastWritten(writes, CanonicalKey(ref))
    case Some(d) => Place(folds, ref) in tree && tree[Place(folds, ref)] == File(Pointer(d))
    case None => Place(folds, ref) !in tree
  }

  lemma {:induction false} NeverBelowFile(folds: bool, tree: Tree, ref: Bytes)
    requires WellPlaced(folds, tree)
    ensures !BelowFile(tree, Place(folds, ref))
  {
    hide Place;
    var path := Place(folds, ref);
    forall i | 0 < i < |path| && path[..i] in tree && tree[path[..i]].File?
      ensures false
    {
      var d := tree[path[..i]].content.desc;
      NoPlaceAbove(folds, RecordedName(d), ref);
    }
  }

  lemma {:induction false} NeverDirectory(folds: bool, tree: Tree, ref: Bytes)
    requires WellPlaced(folds, tree)
    ensures Place(folds, ref) in tree ==> tree[Place(folds, ref)].File?
  {
    hide Place;
    var path := Place(folds, ref);
    if path in tree && tree[path].Directory? {
      var other: Bytes :| path < Place(folds, other);
      NoPlaceAbove(folds, ref, other);
    }
  }

  lemma {:induction false} MakeDirectory(folds: bool, tree: Tree, writes: seq<Update>, ref: Bytes, i: nat)
    requires WellPlaced(folds, tree) && Holds(folds, tree, writes)
    requires 0 < i < |Place(folds, ref)| && Place(folds, ref)[..i] !in tree
    ensures var tree' := tree[Place(folds, ref)[..i] := Directory];
      WellPlaced(folds, tree') && Holds(folds, tree', writes)
  {
    hide Place;
    var path := Place(folds, ref)[..i];
    var tree' := tree[path := Directory];
    assert path < Place(folds, ref);
    forall other: Bytes ensures Holding(folds, tree', writes, other) {
      NoPlaceAbove(folds, other, ref);
      assert Holding(folds, tree, writes, other);
    }
  }

  lemma NamedAfter(d: Descriptor, ref: Bytes)
    ensures RecordedName(Named(d, ref)) == ref
  {
  }

  lemma PutPlaced(folds: bool, tree: Tree, ref: Bytes, named: Descriptor)
    requires WellPlaced(folds, tree) && RecordedName(named) == ref
    ensures WellPlaced(folds, tree[Place(folds, ref) := File(Pointer(named))])
  {
  }

  lemma {:induction false} PutPointer(folds: bool, tree: Tree, writes: seq<Update>, w: Update)
    requires WellPlaced(folds, tree) && Holds(folds, tree, writes)
    ensures var tree' := tree[Place(folds, w.ref) := File(Pointer(Named(w.desc, w.ref)))];
      WellPlaced(folds, tree') && Holds(folds, tree', writes + [w])
  {
    hide Place, Named, RecordedName, CanonicalKey, WellPlaced;
    var tree' := tree[Place(folds, w.ref) := File(Pointer(Named(w.desc, w.ref)))];
    NamedAfter(w.desc, w.ref);
    PutPlaced(folds, tree, w.ref, Named(w.desc, w.ref));
    forall other: Bytes ensures Holding(folds, tree', writes + [w], other) {
      OneMoreWrite(writes, w, CanonicalKey(other));
      OnePlacePerKey(folds, other, w.ref);
      assert Holding(folds, tree, writes, other);
    }
  }

  lemma OneMoreWrite(writes: seq<Update>, w: Update, key: Bytes)
    ensures LastWritten(writes + [w], key) ==
      if CanonicalKey(w.ref) == key then Some(Named(w.desc, w.ref)) else LastWritten(writes, key)
  {
  }

  /** Reading a place gives what was last written under its key. */
  lemma {:induction false} ReadsLastWritten(folds: bool, tree: Tree, writes: seq<Update>, ref: Bytes)
    requires WellPlaced(folds, tree) && Holds(folds, tree, writes)
    ensures ReadFile(tree, Place(folds, ref)) ==
      match LastWritten(writes, CanonicalKey(ref))
      case Some(d) => Data(Pointer(d))
      case None => Missing
  {
    hide Place;
    NeverBelowFile(folds, tree, ref);
    assert Holding(folds, tree, writes, ref);
  }

  /** A store on disk: the tree new pointers go to, and the legacy tree, which
      is only ever read. */
  class ManifestStore {
    const folds: bool
    const legacy: seq<Bytes> -> FileRead
    var tree: Tree
    ghost var writes: seq<Update>

    ghost predicate Valid()
      reads this
    {
      WellPlaced(folds, tree) && Holds(folds, tree, writes)
    }

    constructor (folds: bool, legacy: seq<Bytes> -> FileRead)
      ensures Valid() && writes == [] && this.folds == folds && this.legacy == legacy
    {
      this.folds := folds;
      this.legacy := legacy;
      tree := map[];
      writes := [];
    }

    /** `readManifestRef`. The first clauses hold of any tree: what is found was
        recorded under the same key, a pointer of another key is passed over, a
        file that cannot be read is an error. The last ones say what a store that
        was only written through `Write` gives. */
    method Read(ref: Bytes) returns (r: ReadResult)
      ensures r.Found? ==> CanonicalKey(RecordedName(r.desc)) == CanonicalKey(ref)
      ensures Answers(CanonicalKey(ref), ReadFile(tree, Place(folds, ref)), legacy(LegacyParts(ref)), r)
      ensures r == Resolve(CanonicalKey(ref), ReadFile(tree, Place(folds, ref)), legacy(LegacyParts(ref)))
      ensures Valid() ==>
        match r
        case Found(d) => GivesLast(writes, CanonicalKey(ref), d) ||
          (NeverUnder(writes, CanonicalKey(ref)) && legacy(LegacyParts(ref)) == Data(Pointer(d)))
        case _ => NeverUnder(writes, CanonicalKey(ref))
      ensures Valid() ==> r == StoredOrLegacy(LastWritten(writes, CanonicalKey(ref)), CanonicalKey(ref), legacy(LegacyParts(ref)))
    {
      hide Place, CanonicalKey, LegacyParts, PathParts, WellPlaced, Holds, ReadFile, Answers, GivesLast, NeverUnder;
      var parts := ManifestRefPath(ref);
      var legacyParts := RefPathSegments(ref);
      var key := CanonicalKey(ref);
      ghost var current := ReadFile(tree, Place(folds, ref));
      if Valid() {
        ReadsLastWritten(folds, tree, writes, ref);
        LastWrittenKey(writes, key);
        LastWrittenIs(writes, key);
      }
      ResolveAnswers(key, current, legacy(legacyParts));
      for i := 0 to 2
        invariant i == 1 ==> Resolve(key, current, legacy(legacyParts)) == ResolveLegacy(key, legacy(legacyParts))
        invariant i == 2 ==> Resolve(key, current, legacy(legacyParts)) == NotFound
      {
        PlaceIs(folds, ref, parts);
        var data := if i == 0 then ReadFile(tree, OnDisk(folds, parts)) else legacy(legacyParts);
        if data.Missing? || (i == 1 && MissingLegacyPointer(data)) {
          continue;
        }
        if !data.Data? || data.content.Garbled? {
          return Unreadable;
        }
        if CanonicalKey(RecordedName(data.content.desc)) == key {
          return Found(data.content.desc);
        }
      }
      return NotFound;
    }

    /** `os.MkdirAll` on the directory of ref's pointer file. A directory that
        cannot be made leaves those above it. */
    method MakeDirectories(ghost ref: Bytes, path: seq<string>, fault: Fault) returns (ok: bool)
      requires Valid() && path == Place(folds, ref)
      modifies this`tree
      ensures Valid()
      ensures !fault.AtDirectory? ==> ok
      ensures forall p | p in tree :: p in old(tree) || |p| < |path|
    {
      hide Place, WellPlaced, Holds;
      ok := true;
      RefComponents.PathNotEmpty(ref);
      PlaceLength(folds, ref);
      for i := 1 to |path|
        invariant Valid()
        invariant forall p | p in tree :: p in old(tree) || |p| < |path|
      {
        if path[..i] in tree {
          NeverBelowFile(folds, tree, ref);
          if tree[path[..i]].File? {
            return false;
          }
        } else if fault == AtDirectory(i) {
          return false;
        } else {
          MakeDirectory(folds, tree, writes, ref, i);
          tree := tree[path[..i] := Directory];
        }
      }
    }

    /** `writeManifestRef`: the new pointer appears by one rename, or, whichever
        file operation fails, not at all, and the temporary file is gone. No
        other pointer is ever in the way. `temp` is a name not taken in the
        pointer's directory. */
    method Write(ref: Bytes, desc: Descriptor, temp: string, fault: Fault) returns (ok: bool)
      requires Valid()
      requires Beside(Place(folds, ref), temp) !in tree && Beside(Place(folds, ref), temp) != Place(folds, ref)
      modifies this
      ensures Valid()
      ensures fault == NoFault ==> ok
      ensures fault.AtTemporary? || fault.AtRename? ==> !ok
      ensures writes == if ok then old(writes) + [Update(ref, desc)] else old(writes)
    {
      hide Place, WellPlaced, Holds, PathParts, CanonicalKey, Beside, OnDisk, RecordedName;
      var named := desc.(annotations := desc.annotations[REF_NAME := ref]);
      var parts := ManifestRefPath(ref);
      var path := OnDisk(folds, parts);
      PlaceIs(folds, ref, parts);
      ok := MakeDirectories(ref, path, fault);
      if !ok || fault == AtTemporary(0) {
        return false;
      }
      RefComponents.PathNotEmpty(ref);
      PlaceLength(folds, ref);
      var place := Beside(path, temp);
      ghost var before := tree;
      BesideLength(path, temp);
      NeverDirectory(folds, before, ref);
      tree := tree[place := File(if fault.AtTemporary? then Garbled else Pointer(named))];
      TakenBack(before, place, tree[place]);
      if fault.AtTemporary? || fault.AtRename? || (path in tree && tree[path].Directory?) {
        tree := tree - {place};
        return false;
      }
      tree := (tree - {place})[path := tree[place]];
      PutPointer(folds, before, writes, Update(ref, desc));
      writes := writes + [Update(ref, desc)];
    }
  }

  lemma BesideLength(path: seq<string>, name: string)
    requires path != []
    ensures |Beside(path, name)| == |path|
  {
  }

  lemma TakenBack(tree: Tree, place: seq<string>, node: Node)
    requires place !in tree
    ensures tree[place := node] - {place} == tree
  {
  }

  lemma PlaceLength(folds: bool, ref: Bytes)
    ensures |Place(folds, ref)| == |PathParts(ref)|
  {
  }

  lemma {:induction false} PlaceIs(folds: bool, ref: Bytes, parts: seq<Bytes>)
    requires parts == PathParts(ref)
    ensures OnDisk(folds, parts) == Place(folds, ref)
  {
  }
}
