/** The inputs at which the drive falls short: a move that reports an error, a purge that
    stops, a trash that stays, a second merge that adds rows. */
module Witnesses {
  import opened Wrappers
  import opened Nodes
  import opened Numerals
  import opened TreeOps
  import opened SearchIndex
  import opened Stores
  import opened Services
  import opened ImportOrder
  import opened MergeSpec
  import opened MergeProofs
  import opened MergeRuns
  import opened MergeTwice
  import opened DriveRuns

  lemma FreshIsSound()
    ensures Sound(Fresh())
  {
    assert Up(Fresh().nodes, ROOT, 0) == Some(ROOT);
  }

  // ---- a move that fails after it moved ----

  /** `mkdir`, with what it does to the index left to `Upserted`. */
  function WithFolder(s: Db, id: Id): Db {
    var t := s.nodes[id := FolderRow(ROOT, id)];
    s.(nodes := t, fts := Upserted(t, s.fts, id))
  }

  function FailingMoveOps(): seq<Op> {
    StrandingOps() + [MakeDir("e", "", "e"), MakeDir("f", "", "f")]
  }

  function FailingMoveStates(): seq<Db> {
    var s := WithFolder(StrandingStates()[4], "e");
    StrandingStates() + [s, WithFolder(s, "f")]
  }

  lemma MakesFolder(s: Db, id: Id)
    requires id !in s.nodes && id != "" && LiveFolder(s.nodes, ROOT) && forall c :: !IsChild(s.nodes, ROOT, id, c)
    ensures Next(s, MakeDir(id, "", id), WithFolder(s, id))
  {}

  /** After a run that stranded an upload, moving one empty folder into another is
      accepted, yet the rebuild of the index fails: `Move` reports an error for a move
      it has made, by its own contract. */
  lemma FailingMove()
    ensures IsRun(FailingMoveStates(), FailingMoveOps())
    ensures var t := FailingMoveStates()[6].nodes;
      && Movable(t, "e", "f") && t["e"].kind == Folder && t["e"].parent != Some("f")
      && !Anchored(t) && !AllPaths(SetParent(t, "e", "f"))
  {
    StrandedUpload();
    var states, ops := FailingMoveStates(), FailingMoveOps();
    var s4 := StrandingStates()[4];
    var s5 := WithFolder(s4, "e");
    MakesFolder(s4, "e");
    MakesFolder(s5, "f");
    forall i | 0 <= i < |ops| ensures Next(states[i], ops[i], states[i + 1]) {
      if i < 4 {
        assert states[i] == StrandingStates()[i] && states[i + 1] == StrandingStates()[i + 1] &&
          ops[i] == StrandingOps()[i];
      }
    }
    var t := states[6].nodes;
    assert t == s4.nodes["e" := FolderRow(ROOT, "e")]["f" := FolderRow(ROOT, "f")];
    forall k: nat ensures Up(t, "f", k) != Some("e") {
      if k > 0 {
        assert Up(t, "f", k) == Up(t, ROOT, k - 1);
      }
    }
    assert IsReady(t, "u") && !ParentLive(t, "u");
    var u := SetParent(t, "e", "f");
    OrphanHasNoPath(u, "u");
    assert Searchable(u, "u");
  }

  // ---- a purge that stops ----

  lemma UploadInside()
    ensures var t := StrandingStates()[2].nodes; Kept(t) && Live(t, "d") && PendingInside(t, "d")
  {
    var t := StrandingStates()[2].nodes;
    assert t["u"].status == Pending && t["u"].parent.value in ReadyDown(t, "d");
  }

  /** A folder with an unfinished upload goes to the trash, and cannot be purged. */
  lemma BlockedPurge()
    ensures var t := StrandingStates()[2].nodes;
      && Tree(t) && Kept(t) && Live(t, "d") && PendingInside(t, "d") && !AllDeletedUnder(Trashed(t, "d"), "d")
  {
    hide StrandingStates, PendingInside, AllDeletedUnder, Trashed, Shape, UniqueNames, FoldersAnchored, Anchored,
      StagedAnchored;
    StrandedUpload();
    FreshIsSound();
    FirstIsFresh();
    EveryRunKeepsTree(StrandingStates(), StrandingOps(), 2);
    UploadInside();
    TrashThenPurge(StrandingStates()[2].nodes, "d");
  }

  lemma FirstIsFresh()
    ensures |StrandingStates()| == 5 && StrandingStates()[0] == Fresh()
  {}

  // ---- a trash that stays ----

  const CROWD: nat := TRASH_BATCH + 1

  function CrowdIds(n: nat): set<Id> {
    set i | 0 <= i < n :: Format(i, 10)
  }

  lemma NotRootId(i: nat)
    ensures Format(i, 10) != ROOT && Format(i, 10) != ""
  {
    FormatDigits(i, 10);
    assert DigitValue(ROOT[0]) == 27;
  }

  lemma {:induction false} ManyCrowdIds(n: nat)
    ensures |CrowdIds(n)| == n
  {
    hide Format;
    if n > 0 {
      ManyCrowdIds(n - 1);
      var last := Format(n - 1, 10);
      assert CrowdIds(n) == CrowdIds(n - 1) + {last};
      if last in CrowdIds(n - 1) {
        var i :| 0 <= i < n - 1 && Format(i, 10) == last;
        FormatOnce(i, n - 1, 10);
      }
    }
  }

  /** The root and `CROWD` deleted files below it. */
  function CrowdedTrash(): Table {
    (map id | id in CrowdIds(CROWD) :: Node(Some(ROOT), id, File, "", 0, Deleted, 0))
      [ROOT := Node(None, "Root", Folder, "inode/directory", 0, Ready, 0)]
  }

  lemma CrowdIsApart()
    ensures ROOT !in CrowdIds(CROWD) && "" !in CrowdIds(CROWD)
  {
    hide Format;
    forall id | id in CrowdIds(CROWD) ensures id != ROOT && id != "" {
      var i :| 0 <= i < CROWD && Format(i, 10) == id;
      NotRootId(i);
    }
  }

  lemma CrowdIsTree()
    ensures Tree(CrowdedTrash()) && "" !in CrowdedTrash() && Kept(CrowdedTrash())
  {
    hide CrowdIds;
    var t := CrowdedTrash();
    CrowdIsApart();
    assert Up(t, ROOT, 0) == Some(ROOT);
    forall id | id in t ensures ReachesRoot(t, id) {
      if id != ROOT {
        assert Up(t, id, 1) == Some(ROOT);
      }
    }
  }

  /** One deleted file more than a batch: emptying the trash leaves a deleted row. */
  lemma CrowdedTrashStays()
    ensures var t := CrowdedTrash();
      Tree(t) && "" !in t && Kept(t) && |TrashRoots(t)| == TRASH_BATCH + 1
  {
    hide CrowdIds, Shape, UniqueNames, FoldersAnchored, Kept;
    CrowdIsApart();
    CrowdIsTree();
    assert TrashRoots(CrowdedTrash()) == CrowdIds(CROWD);
    ManyCrowdIds(CROWD);
  }

  method EmptyCrowdedTrash(drive: Drive) returns (r: Done, ghost gone: set<Id>)
    requires drive.store.Valid() && drive.store.nodes == CrowdedTrash()
    modifies drive.store
    ensures r.Ok? && exists x | x in drive.store.nodes :: drive.store.nodes[x].status == Deleted
  {
    CrowdedTrashStays();
    hide CrowdedTrash;
    r, gone := drive.EmptyTrash();
  }

  // ---- a second merge that adds rows ----

  function RootRowOnly(): Node {
    Node(None, "Root", Folder, "inode/directory", 0, Ready, 0)
  }

  function Incoming(id: Id, kind: SourceKind): ImportNode {
    ImportNode(id, "", "a", kind, "", 0, true, 0)
  }

  function NoData(): ImportData {
    ImportData(map[], map[])
  }

  lemma OneRowRun(m: Merge, n: ImportNode, data: ImportData, gen: Generator)
    ensures MergeRun(m, [n], data, gen) == MergeNode(m, n, data, gen)
  {
    assert [n][..0] == [];
  }

  lemma SmallBaseOpens(t: Table)
    requires t.Keys == {ROOT} || t.Keys == {ROOT, "x"}
    requires t[ROOT] == RootRowOnly()
    ensures Opened(Start(t, map[], map[]))
  {}

  /** A file without a content hash: the second merge inserts it again, or fails. */
  lemma UnhashedFileAgain(gen: Generator, gen2: Generator)
    requires Unused(gen) && Unused(gen2)
    ensures var base := Start(map[ROOT := RootRowOnly()], map[], map[]);
      var ns := [Incoming("f", SourceFile)];
      var first := MergeRun(base, ns, NoData(), gen);
      && first.Ok? && "f" in first.value.nodes
      && var again := MergeRun(Reopened(first.value), ns, NoData(), gen2);
         again.Ok? ==> again.value.nodes.Keys > first.value.nodes.Keys
  {
    var t := map[ROOT := RootRowOnly()];
    var base := Start(t, map[], map[]);
    var n := Incoming("f", SourceFile);
    SmallBaseOpens(t);
    OneRowRun(base, n, NoData(), gen);
    NothingHeld(t, "a");
    var first := MergeNode(base, n, NoData(), gen).value;
    OneRowRun(Reopened(first), n, NoData(), gen2);
    if MergeNode(Reopened(first), n, NoData(), gen2).Ok? {
      LooseAdds(n, NoData(), first, Reopened(first), gen2);
    }
  }

  lemma NothingHeld(t: Table, name: string)
    requires forall c | c in t :: t[c].parent == Some(ROOT) ==> t[c].name != name
    ensures FindChild(t, ROOT, name) == None
  {}

  /** A file named "a" at the top. */
  function Blocking(): Table {
    map[ROOT := RootRowOnly(), "x" := Node(Some(ROOT), "a", File, "", 0, Ready, 0)]
  }

  lemma BlockedName(n: ImportNode)
    requires n == Incoming("d", SourceFolder)
    ensures FindChild(Blocking(), ROOT, "a") == Some("x") && ImportName(Blocking(), ROOT, n) == "a (imported)"
    ensures FindChild(Blocking(), ROOT, "a (imported)") == None
  {
    var t := Blocking();
    assert IsChild(t, ROOT, "a", "x");
    FindChildIs(t, ROOT, "a", "x");
    assert Suffixed("a", false, 1) == "a (imported)";
    NothingHeld(t, "a (imported)");
  }

  lemma FirstRenames(n: ImportNode, base: Merge, gen: Generator)
    requires n == Incoming("d", SourceFolder) && base == Start(Blocking(), map[], map[]) && Unused(gen)
    ensures var first := MergeNode(base, n, NoData(), gen);
      && first.Ok? && "d" in first.value.nodes && first.value.nodes["d"].name == "a (imported)" &&
        ROOT in first.value.nodes
      && Loose(n, NoData(), first.value) && KeepsMap(Reopened(first.value).idMap, first.value.idMap)
  {
    hide ImportName, UniqueNames;
    SmallBaseOpens(Blocking());
    OneRowRun(base, n, NoData(), gen);
    BlockedName(n);
    var first := MergeNode(base, n, NoData(), gen).value;
    RunMerges(base, [n], NoData(), gen, first);
    FoundAgain(Blocking(), first.nodes, ROOT, "a");
  }

  /** A folder whose name a file holds: the first merge renames it, and the second
      inserts it again, or fails. */
  lemma BlockedFolderAgain(gen: Generator, gen2: Generator)
    requires Unused(gen) && Unused(gen2)
    ensures var base := Start(Blocking(), map[], map[]);
      var ns := [Incoming("d", SourceFolder)];
      var first := MergeRun(base, ns, NoData(), gen);
      && first.Ok? && "d" in first.value.nodes && first.value.nodes["d"].name == "a (imported)"
      && var again := MergeRun(Reopened(first.value), ns, NoData(), gen2);
         again.Ok? ==> again.value.nodes.Keys > first.value.nodes.Keys
  {
    hide MergeNode, MergeRun, Loose;
    var base := Start(Blocking(), map[], map[]);
    var n := Incoming("d", SourceFolder);
    OneRowRun(base, n, NoData(), gen);
    FirstRenames(n, base, gen);
    var first := MergeNode(base, n, NoData(), gen).value;
    OneRowRun(Reopened(first), n, NoData(), gen2);
    if MergeNode(Reopened(first), n, NoData(), gen2).Ok? {
      LooseAdds(n, NoData(), first, Reopened(first), gen2);
    }
  }
}
