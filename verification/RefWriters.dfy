/** Any number of writers of pointer files at once (`writeManifestRef` of
    go-shim/manifest_ref.go), of one reference or of many: every file operation
    is a step of its own that may fail, and a writer may die between any two,
    leaving its temporary file. Each rename is the moment its write happens. */
module RefWriters {
  import opened Wrappers
  import opened Text
  import opened RefCodec
  import opened RefStore

  datatype Writer =
    | Making(write: Update, made: nat)
    | Creating(write: Update)
    | Filling(write: Update, temp: seq<string>)
    | Closing(write: Update, temp: seq<string>)
    | Renaming(write: Update, temp: seq<string>)
    | Removing(write: Update, temp: seq<string>)
    | Returned(write: Update, ok: bool)

  /** The tree, the writers, and the writes whose rename has happened. */
  datatype Disk = Disk(tree: Tree, writers: map<nat, Writer>, happened: seq<Update>)

  datatype Move =
    | Begin(writer: nat, write: Update)
    | Advance(writer: nat, name: string, works: bool)
    | Die(writer: nat)

  function Node(w: Update): RefStore.Node {
    File(Pointer(Named(w.desc, w.ref)))
  }

  /** `os.CreateTemp`: a name with the right ending that is not taken. */
  predicate Free(tree: Tree, path: seq<string>) {
    IsTemp(path) && path !in tree
  }

  predicate IsTemp(path: seq<string>) {
    path != [] && HasSuffix(path[|path| - 1], ".tmp")
  }

  function With(s: Disk, tree: Tree, i: nat, writer: Writer): Disk {
    s.(tree := tree, writers := s.writers[i := writer])
  }

  function Advanced(folds: bool, s: Disk, i: nat, writer: Writer, name: string, works: bool): Disk {
    var place := Place(folds, writer.write.ref);
    match writer
    case Returned(_, _) => s
    case Making(w, made) =>
      if made + 1 >= |place| then With(s, s.tree, i, Creating(w))
      else
        var directory := place[..made + 1];
        if directory in s.tree then
          With(s, s.tree, i, if s.tree[directory].Directory? then Making(w, made + 1) else Returned(w, false))
        else if works then With(s, s.tree[directory := Directory], i, Making(w, made + 1))
        else With(s, s.tree, i, Returned(w, false))
    case Creating(w) =>
      var temp := Beside(place, name);
      if works && Free(s.tree, temp) then With(s, s.tree[temp := File(Garbled)], i, Filling(w, temp))
      else With(s, s.tree, i, Returned(w, false))
    case Filling(w, temp) =>
      if works then With(s, s.tree[temp := Node(w)], i, Closing(w, temp))
      else With(s, s.tree, i, Removing(w, temp))
    case Closing(w, temp) =>
      With(s, s.tree, i, if works then Renaming(w, temp) else Removing(w, temp))
    case Renaming(w, temp) =>
      if works && temp in s.tree && (place in s.tree ==> s.tree[place].File?) then
        With(s, (s.tree - {temp})[place := s.tree[temp]], i, Returned(w, true)).(happened := s.happened + [w])
      else With(s, s.tree, i, Removing(w, temp))
    case Removing(w, temp) =>
      With(s, if works then s.tree - {temp} else s.tree, i, Returned(w, false))
  }

  function Step(folds: bool, s: Disk, m: Move): Disk {
    match m
    case Begin(i, w) => if i in s.writers then s else With(s, s.tree, i, Making(w, 0))
    case Advance(i, name, works) => if i in s.writers then Advanced(folds, s, i, s.writers[i], name, works) else s
    case Die(i) => s.(writers := s.writers - {i})
  }

  function Run(folds: bool, s: Disk, moves: seq<Move>): Disk
    decreases |moves|
  {
    if moves == [] then s else Run(folds, Step(folds, s, moves[0]), moves[1..])
  }

  // ----- temporary files and directories are not pointer files -----

  lemma {:induction false} FileEnds(tag: Bytes)
    ensures var parts := SegmentParts(tag, false);
      parts != [] && HasSuffix(parts[|parts| - 1], ".json")
  {
    hide Escape, ChunkParts;
  }

  lemma {:induction false} LastOfThree(ref: Bytes)
    requires SegmentParts(LayoutOf(ref).tag, false) != []
    ensures var parts, file := PathParts(ref), SegmentParts(LayoutOf(ref).tag, false);
      parts != [] && parts[|parts| - 1] == file[|file| - 1]
  {
    hide SegmentParts, DirectoryParts, LayoutOf;
  }

  lemma EndsApart(folds: bool, name: Bytes)
    requires HasSuffix(name, ".json")
    ensures !HasSuffix(if folds then Lower(name) else name, ".tmp")
  {
    SuffixAt(name, ".json", 4);
    NoSuffix(if folds then Lower(name) else name, ".tmp", 3);
  }

  lemma {:induction false} PlaceIsNoTemp(folds: bool, ref: Bytes)
    ensures Place(folds, ref) != [] && !IsTemp(Place(folds, ref))
  {
    hide SegmentParts, DirectoryParts, LayoutOf, HasSuffix, Lower;
    var file := SegmentParts(LayoutOf(ref).tag, false);
    FileEnds(LayoutOf(ref).tag);
    var parts := PathParts(ref);
    assert parts != [] && parts[|parts| - 1] == file[|file| - 1] by { LastOfThree(ref); }
    EndsApart(folds, parts[|parts| - 1]);
  }

  // ----- what every reachable state keeps -----

  predicate HasTemp(writer: Writer) {
    writer.Filling? || writer.Closing? || writer.Renaming? || writer.Removing?
  }

  ghost predicate GoodWriter(s: Disk, writer: Writer) {
    && (HasTemp(writer) ==> IsTemp(writer.temp) && writer.temp in s.tree)
    && (writer.Closing? || writer.Renaming? ==> s.tree[writer.temp] == Node(writer.write))
    && (writer.Returned? && writer.ok ==> writer.write in s.happened)
  }

  /** No two writers have one temporary file. */
  ghost predicate Apart(s: Disk) {
    forall i, j | i in s.writers && j in s.writers && i != j && HasTemp(s.writers[i]) && HasTemp(s.writers[j]) ::
      s.writers[i].temp != s.writers[j].temp
  }

  ghost predicate Inv(folds: bool, s: Disk) {
    && Holds(folds, s.tree, s.happened)
    && (forall i | i in s.writers :: GoodWriter(s, s.writers[i]))
    && Apart(s)
  }

  lemma TempKeeps(folds: bool, tree: Tree, happened: seq<Update>, temp: seq<string>, node: RefStore.Node)
    requires Holds(folds, tree, happened) && IsTemp(temp)
    ensures Holds(folds, tree[temp := node], happened) && Holds(folds, tree - {temp}, happened)
  {
    hide Place, IsTemp, LastWritten;
    var more, less := tree[temp := node], tree - {temp};
    forall ref: Bytes ensures Holding(folds, more, happened, ref) && Holding(folds, less, happened, ref) {
      PlaceIsNoTemp(folds, ref);
      assert Holding(folds, tree, happened, ref);
    }
  }

  lemma DirectoryKeeps(folds: bool, tree: Tree, happened: seq<Update>, ref: Bytes, n: nat)
    requires Holds(folds, tree, happened) && n < |Place(folds, ref)|
    ensures Holds(folds, tree[Place(folds, ref)[..n] := Directory], happened)
  {
    hide Place, LastWritten;
    var path := Place(folds, ref)[..n];
    assert path < Place(folds, ref);
    var more := tree[path := Directory];
    forall other: Bytes ensures Holding(folds, more, happened, other) {
      NoPlaceAbove(folds, other, ref);
      assert Holding(folds, tree, happened, other);
    }
  }

  lemma PointerKeeps(folds: bool, tree: Tree, happened: seq<Update>, w: Update)
    requires Holds(folds, tree, happened)
    ensures Holds(folds, tree[Place(folds, w.ref) := Node(w)], happened + [w])
  {
    hide Place, Named, CanonicalKey, LastWritten;
    var more := tree[Place(folds, w.ref) := Node(w)];
    forall other: Bytes ensures Holding(folds, more, happened + [w], other) {
      OneMoreWrite(happened, w, CanonicalKey(other));
      OnePlacePerKey(folds, other, w.ref);
      assert Holding(folds, tree, happened, other);
    }
  }

  lemma NeverADirectory(folds: bool, tree: Tree, happened: seq<Update>, ref: Bytes)
    requires Holds(folds, tree, happened)
    ensures Place(folds, ref) in tree ==> tree[Place(folds, ref)].File?
  {
    hide Place, LastWritten;
    assert Holding(folds, tree, happened, ref);
  }

  /** What a step must leave alone for the other writers. */
  lemma OthersKeep(folds: bool, s: Disk, t: Disk, i: nat)
    requires Inv(folds, s) && Holds(folds, t.tree, t.happened)
    requires i in t.writers && GoodWriter(t, t.writers[i])
    requires forall k | k in t.writers && k != i :: k in s.writers && t.writers[k] == s.writers[k]
    requires forall w | w in s.happened :: w in t.happened
    requires forall k | k in s.writers && k != i && HasTemp(s.writers[k]) ::
      s.writers[k].temp in t.tree && t.tree[s.writers[k].temp] == s.tree[s.writers[k].temp]
    requires HasTemp(t.writers[i]) ==>
      forall k | k in s.writers && k != i && HasTemp(s.writers[k]) :: s.writers[k].temp != t.writers[i].temp
    ensures Inv(folds, t)
  {
    hide Holds;
    forall k | k in t.writers && k != i ensures GoodWriter(t, t.writers[k]) {
      assert GoodWriter(s, s.writers[k]);
    }
  }

  lemma MakingKeeps(folds: bool, s: Disk, i: nat, name: string, works: bool)
    requires Inv(folds, s) && i in s.writers && (s.writers[i].Making? || s.writers[i].Creating?)
    ensures Inv(folds, Advanced(folds, s, i, s.writers[i], name, works))
  {
    hide Holds, Place, Beside;
    var writer := s.writers[i];
    var t := Advanced(folds, s, i, writer, name, works);
    var place := Place(folds, writer.write.ref);
    if writer.Making? && writer.made + 1 < |place| {
      DirectoryKeeps(folds, s.tree, s.happened, writer.write.ref, writer.made + 1);
    }
    if t.writers[i].Filling? {
      TempKeeps(folds, s.tree, s.happened, t.writers[i].temp, File(Garbled));
    }
    forall k | k in s.writers && k != i && HasTemp(s.writers[k])
      ensures s.writers[k].temp in t.tree && t.tree[s.writers[k].temp] == s.tree[s.writers[k].temp]
    {
      assert GoodWriter(s, s.writers[k]);
    }
    forall k | k in s.writers && k != i && HasTemp(s.writers[k]) && HasTemp(t.writers[i])
      ensures s.writers[k].temp != t.writers[i].temp
    {
      assert GoodWriter(s, s.writers[k]);
    }
    OthersKeep(folds, s, t, i);
  }

  lemma FillingKeeps(folds: bool, s: Disk, i: nat, name: string, works: bool)
    requires Inv(folds, s) && i in s.writers && HasTemp(s.writers[i]) && !s.writers[i].Renaming?
    ensures Inv(folds, Advanced(folds, s, i, s.writers[i], name, works))
  {
    hide Holds, Place, Node;
    var writer := s.writers[i];
    var t := Advanced(folds, s, i, writer, name, works);
    assert GoodWriter(s, writer);
    TempKeeps(folds, s.tree, s.happened, writer.temp, Node(writer.write));
    forall k | k in s.writers && k != i && HasTemp(s.writers[k])
      ensures s.writers[k].temp in t.tree && t.tree[s.writers[k].temp] == s.tree[s.writers[k].temp]
    {
      assert GoodWriter(s, s.writers[k]);
    }
    OthersKeep(folds, s, t, i);
  }

  lemma RenamingKeeps(folds: bool, s: Disk, i: nat, name: string, works: bool)
    requires Inv(folds, s) && i in s.writers && s.writers[i].Renaming?
    ensures Inv(folds, Advanced(folds, s, i, s.writers[i], name, works))
  {
    hide Holds, Place, Node, IsTemp;
    var writer := s.writers[i];
    var t := Advanced(folds, s, i, writer, name, works);
    assert GoodWriter(s, writer);
    TempKeeps(folds, s.tree, s.happened, writer.temp, Node(writer.write));
    PointerKeeps(folds, s.tree - {writer.temp}, s.happened, writer.write);
    NeverADirectory(folds, s.tree, s.happened, writer.write.ref);
    PlaceIsNoTemp(folds, writer.write.ref);
    forall k | k in s.writers && k != i && HasTemp(s.writers[k])
      ensures s.writers[k].temp in t.tree && t.tree[s.writers[k].temp] == s.tree[s.writers[k].temp]
    {
      assert GoodWriter(s, s.writers[k]);
    }
    OthersKeep(folds, s, t, i);
  }

  lemma StepKeeps(folds: bool, s: Disk, m: Move)
    requires Inv(folds, s)
    ensures Inv(folds, Step(folds, s, m))
  {
    hide Holds, Advanced;
    match m
    case Begin(i, w) =>
      if i !in s.writers {
        OthersKeep(folds, s, Step(folds, s, m), i);
      }
    case Advance(i, name, works) =>
      if i in s.writers {
        if s.writers[i].Making? || s.writers[i].Creating? {
          MakingKeeps(folds, s, i, name, works);
        } else if s.writers[i].Renaming? {
          RenamingKeeps(folds, s, i, name, works);
        } else if HasTemp(s.writers[i]) {
          FillingKeeps(folds, s, i, name, works);
        } else {
          ReturnedStays(folds, s, i, name, works);
        }
      }
    case Die(i) =>
  }

  lemma ReturnedStays(folds: bool, s: Disk, i: nat, name: string, works: bool)
    requires i in s.writers && s.writers[i].Returned?
    ensures Advanced(folds, s, i, s.writers[i], name, works) == s
  {
  }

  lemma {:induction false} RunKeeps(folds: bool, s: Disk, moves: seq<Move>)
    requires Inv(folds, s)
    ensures Inv(folds, Run(folds, s, moves))
    decreases |moves|
  {
    hide Inv, Step;
    if moves == [] {
    } else {
      StepKeeps(folds, s, moves[0]);
      RunKeeps(folds, Step(folds, s, moves[0]), moves[1..]);
    }
  }

  // ----- what readers get -----

  /** However any writers race, fail and die: a read of r at any moment finds what
      the last write under r's key whose rename has happened recorded, whole;
      before the first one nothing is at its place, though a leftover temporary
      file may lie above it. */
  lemma {:induction false} ReadsWhole(folds: bool, moves: seq<Move>, ref: Bytes)
    ensures var s := Run(folds, Disk(map[], map[], []), moves);
      var read := ReadFile(s.tree, Place(folds, ref));
      match LastWritten(s.happened, CanonicalKey(ref))
      case Some(d) => read == Data(Pointer(d))
      case None => read == Missing || read == NotADirectory
  {
    hide Run, Place, CanonicalKey, LastWritten;
    EmptyDisk(folds);
    RunKeeps(folds, Disk(map[], map[], []), moves);
    assert Holding(folds, Run(folds, Disk(map[], map[], []), moves).tree,
                   Run(folds, Disk(map[], map[], []), moves).happened, ref);
  }

  lemma EmptyDisk(folds: bool)
    ensures Inv(folds, Disk(map[], map[], []))
  {
    hide Place, CanonicalKey;
    forall ref: Bytes ensures Holding(folds, map[], [], ref) {
    }
  }

  /** A read therefore gives what the last write under the same key was given;
      only if there was none what the legacy tree gives, or an error; and a write
      that reported success has happened. */
  lemma {:induction false} ReadersAreSafe(folds: bool, moves: seq<Move>, ref: Bytes, legacy: FileRead)
    ensures var s := Run(folds, Disk(map[], map[], []), moves);
      var key := CanonicalKey(ref);
      var r := Resolve(key, ReadFile(s.tree, Place(folds, ref)), legacy);
      || (r.Found? && GivesLast(s.happened, key, r.desc))
      || (NeverUnder(s.happened, key) && (r == Unreadable || r == ResolveLegacy(key, legacy)))
    ensures var s := Run(folds, Disk(map[], map[], []), moves);
      forall i | i in s.writers && s.writers[i].Returned? && s.writers[i].ok :: s.writers[i].write in s.happened
  {
    hide Run, Place, CanonicalKey, LastWritten, RecordedName, Named, Holds, ReadFile, GivesLast, NeverUnder;
    var s := Run(folds, Disk(map[], map[], []), moves);
    var key := CanonicalKey(ref);
    EmptyDisk(folds);
    RunKeeps(folds, Disk(map[], map[], []), moves);
    ReadsWhole(folds, moves, ref);
    LastWrittenKey(s.happened, key);
    LastWrittenIs(s.happened, key);
  }

  // ----- what one writer comes to -----

  lemma AdvanceIs(folds: bool, s: Disk, i: nat, name: string, works: bool, moves: seq<Move>)
    requires i in s.writers
    ensures Run(folds, s, [Advance(i, name, works)] + moves) ==
      Run(folds, Advanced(folds, s, i, s.writers[i], name, works), moves)
  {
    hide Advanced;
    assert ([Advance(i, name, works)] + moves)[1..] == moves;
  }

  lemma RunsNone(folds: bool, s: Disk)
    ensures Run(folds, s, []) == s
  {
  }

  /** A file operation that fails ends the write without success: the temporary
      file goes, and nothing else is touched. */
  lemma FailureEnds(folds: bool, s: Disk, i: nat, name: string, again: string)
    requires i in s.writers && HasTemp(s.writers[i]) && !s.writers[i].Removing? && s.writers[i].temp in s.tree
    ensures var writer := s.writers[i];
      Run(folds, s, [Advance(i, name, false)] + ([Advance(i, again, true)] + [])) ==
        Disk(s.tree - {writer.temp}, s.writers[i := Returned(writer.write, false)], s.happened)
  {
    hide Run, Place, Node;
    var writer := s.writers[i];
    AdvanceIs(folds, s, i, name, false, [Advance(i, again, true)] + []);
    var t := With(s, s.tree, i, Removing(writer.write, writer.temp));
    AdvanceIs(folds, t, i, again, true, []);
    RunsNone(folds, With(t, t.tree - {writer.temp}, i, Returned(writer.write, false)));
    assert t.writers[i := Returned(writer.write, false)] == s.writers[i := Returned(writer.write, false)];
  }

  /** One that fails before there is a temporary file leaves everything. */
  lemma EarlyFailureEnds(folds: bool, s: Disk, i: nat, name: string)
    requires i in s.writers
    requires var writer := s.writers[i];
      writer.Creating? || (writer.Making? && writer.made + 1 < |Place(folds, writer.write.ref)| &&
       Place(folds, writer.write.ref)[..writer.made + 1] !in s.tree)
    ensures Run(folds, s, [Advance(i, name, false)] + []) ==
      s.(writers := s.writers[i := Returned(s.writers[i].write, false)])
  {
    hide Run, Place;
    AdvanceIs(folds, s, i, name, false, []);
    RunsNone(folds, Advanced(folds, s, i, s.writers[i], name, false));
  }

  function Advances(i: nat, name: string, n: nat): seq<Move> {
    if n == 0 then [] else [Advance(i, name, true)] + Advances(i, name, n - 1)
  }

  /** The tree once the directories of a path, the first `made` of which are
      there, are. */
  function WithDirectories(tree: Tree, place: seq<string>, made: nat): Tree
    decreases |place| - made
  {
    if made + 1 >= |place| then tree
    else WithDirectories(if place[..made + 1] in tree then tree else tree[place[..made + 1] := Directory], place, made + 1)
  }

  /** Nothing but directories above the path were added. */
  lemma {:induction false} OnlyAbove(tree: Tree, place: seq<string>, made: nat)
    ensures var after := WithDirectories(tree, place, made);
      (forall p | p in tree :: p in after && after[p] == tree[p]) &&
      (forall p | p in after && p !in tree :: |p| < |place| && after[p] == Directory)
    decreases |place| - made
  {
    if made + 1 >= |place| {
    } else {
      OnlyAbove(if place[..made + 1] in tree then tree else tree[place[..made + 1] := Directory], place, made + 1);
    }
  }

  lemma MakesOne(folds: bool, s: Disk, i: nat, w: Update, made: nat, name: string)
    requires i in s.writers && s.writers[i] == Making(w, made) && made + 1 < |Place(folds, w.ref)|
    requires !BelowFile(s.tree, Place(folds, w.ref))
    ensures var place := Place(folds, w.ref);
      var tree := if place[..made + 1] in s.tree then s.tree else s.tree[place[..made + 1] := Directory];
      Advanced(folds, s, i, s.writers[i], name, true) ==
        Disk(tree, s.writers[i := Making(w, made + 1)], s.happened) && !BelowFile(tree, place)
  {
    hide Place;
    var place := Place(folds, w.ref);
    assert place[..made + 1] in s.tree ==> s.tree[place[..made + 1]].Directory?;
  }

  lemma {:induction false} MakesAll(folds: bool, s: Disk, i: nat, w: Update, made: nat, name: string, more: nat)
    requires i in s.writers && s.writers[i] == Making(w, made) && made < |Place(folds, w.ref)|
    requires !BelowFile(s.tree, Place(folds, w.ref))
    ensures var place := Place(folds, w.ref);
      Run(folds, s, Advances(i, name, |place| - made + more)) ==
      Run(folds, Disk(WithDirectories(s.tree, place, made), s.writers[i := Creating(w)], s.happened), Advances(i, name, more))
    decreases |Place(folds, w.ref)| - made
  {
    hide Place, Run, Advanced, BelowFile;
    var place := Place(folds, w.ref);
    AdvanceIs(folds, s, i, name, true, Advances(i, name, |place| - made - 1 + more));
    if made + 1 >= |place| {
      LastMade(folds, s, i, w, made, name);
    } else {
      MakesOne(folds, s, i, w, made, name);
      var t := Advanced(folds, s, i, s.writers[i], name, true);
      MakesAll(folds, t, i, w, made + 1, name, more);
      assert t.writers[i := Creating(w)] == s.writers[i := Creating(w)];
    }
  }

  lemma LastMade(folds: bool, s: Disk, i: nat, w: Update, made: nat, name: string)
    requires i in s.writers && s.writers[i] == Making(w, made) && made + 1 >= |Place(folds, w.ref)|
    ensures Advanced(folds, s, i, s.writers[i], name, true) == Disk(s.tree, s.writers[i := Creating(w)], s.happened)
  {
    hide Place;
  }

  /** Making, filling, closing and renaming a temporary file. */
  lemma LastFour(folds: bool, s: Disk, i: nat, w: Update, name: string)
    requires i in s.writers && s.writers[i] == Creating(w)
    requires var place := Place(folds, w.ref);
      Free(s.tree, Beside(place, name)) && (place in s.tree ==> s.tree[place].File?) && Beside(place, name) != place
    ensures Run(folds, s, Advances(i, name, 4)) ==
      Disk(s.tree[Place(folds, w.ref) := Node(w)], s.writers[i := Returned(w, true)], s.happened + [w])
  {
    hide Place, Node, Beside, IsTemp, Run;
    var place := Place(folds, w.ref);
    var temp := Beside(place, name);
    AdvanceIs(folds, s, i, name, true, Advances(i, name, 3));
    var filling := With(s, s.tree[temp := File(Garbled)], i, Filling(w, temp));
    AdvanceIs(folds, filling, i, name, true, Advances(i, name, 2));
    var closing := With(s, s.tree[temp := Node(w)], i, Closing(w, temp));
    LastTwo(folds, s, i, w, name, closing, temp);
    assert filling.tree[temp := Node(w)] == closing.tree && filling.writers[i := Closing(w, temp)] == closing.writers;
  }

  lemma LastTwo(folds: bool, s: Disk, i: nat, w: Update, name: string, closing: Disk, temp: seq<string>)
    requires closing == With(s, s.tree[temp := Node(w)], i, Closing(w, temp)) && temp !in s.tree
    requires var place := Place(folds, w.ref);
      (place in s.tree ==> s.tree[place].File?) && temp != place
    ensures Run(folds, closing, Advances(i, name, 2)) ==
      Disk(s.tree[Place(folds, w.ref) := Node(w)], s.writers[i := Returned(w, true)], s.happened + [w])
  {
    hide Place, Node, Run;
    AdvanceIs(folds, closing, i, name, true, Advances(i, name, 1));
    var renaming := With(closing, closing.tree, i, Renaming(w, temp));
    AdvanceIs(folds, renaming, i, name, true, []);
    assert Advances(i, name, 1) == [Advance(i, name, true)] + [];
    assert closing.tree - {temp} == s.tree;
    assert renaming.writers[i := Returned(w, true)] == s.writers[i := Returned(w, true)];
    RunsNone(folds, Disk(s.tree[Place(folds, w.ref) := Node(w)], s.writers[i := Returned(w, true)], s.happened + [w]));
  }

  /** A writer left alone succeeds if no file lies where a directory must be: its
      pointer is at its place, its temporary file is gone, and but for missing
      directories everything else is as before. */
  lemma WritesAlone(folds: bool, s: Disk, i: nat, w: Update, name: string)
    requires Inv(folds, s) && i !in s.writers
    requires var place := Place(folds, w.ref);
      !BelowFile(s.tree, place) && Free(s.tree, Beside(place, name))
    ensures var place := Place(folds, w.ref);
      Run(folds, Step(folds, s, Begin(i, w)), Advances(i, name, |place| + 4)) ==
        Disk(WithDirectories(s.tree, place, 0)[place := Node(w)], s.writers[i := Returned(w, true)], s.happened + [w])
  {
    hide Place, Inv, Node, Free, Run, WithDirectories, Advances, Advanced, BelowFile, Beside;
    var place := Place(folds, w.ref);
    RoomThere(folds, s, w, name);
    var t := Disk(s.tree, s.writers[i := Making(w, 0)], s.happened);
    MakesAll(folds, t, i, w, 0, name, 4);
    var u := Disk(WithDirectories(s.tree, place, 0), s.writers[i := Creating(w)], s.happened);
    assert t.writers[i := Creating(w)] == u.writers;
    LastFour(folds, u, i, w, name);
    assert u.writers[i := Returned(w, true)] == s.writers[i := Returned(w, true)];
  }

  lemma RoomThere(folds: bool, s: Disk, w: Update, name: string)
    requires Inv(folds, s) && Free(s.tree, Beside(Place(folds, w.ref), name))
    ensures var place := Place(folds, w.ref);
      var tree := WithDirectories(s.tree, place, 0);
      && place != [] && Beside(place, name) != place
      && Free(tree, Beside(place, name)) && (place in tree ==> tree[place].File?)
  {
    hide Place, Inv, IsTemp, WithDirectories, Beside, Holds;
    var place := Place(folds, w.ref);
    PlaceIsNoTemp(folds, w.ref);
    BesideLength(place, name);
    OnlyAbove(s.tree, place, 0);
    HoldsIn(folds, s);
    NeverADirectory(folds, s.tree, s.happened, w.ref);
  }

  lemma HoldsIn(folds: bool, s: Disk)
    requires Inv(folds, s)
    ensures Holds(folds, s.tree, s.happened)
  {
  }
}
