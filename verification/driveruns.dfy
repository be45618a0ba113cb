/** Runs of the drive: any sequence of successful calls, each atomic. */
module DriveRuns {
  import opened Wrappers
  import opened Nodes
  import opened TreeOps
  import opened SearchIndex
  import opened Stores
  import opened ImportOrder
  import opened MergeSpec
  import opened MergeProofs
  import opened MergeRuns

  datatype Db = Db(nodes: Table, parts: Parts, hashes: Hashes, fts: Index)

  datatype Op =
    | MakeDir(id: Id, parent: Id, name: string)
    | Stage(id: Id, parent: Id, name: string, mime: string, channel: int)
    | SaveParts(id: Id, rows: seq<FilePart>)
    | Resize(id: Id, size: int)
    | Finish(id: Id)
    | Publish(id: Id, name: string)
    | Abandon(id: Id)
    | RenameTo(id: Id, name: string)
    | MoveTo(id: Id, target: Id)
    | Trash(id: Id)
    | PurgeRows(gone: set<Id>)
    | MergeIn(ns: seq<ImportNode>, data: ImportData, gen: Generator)

  ghost predicate Creates(s: Db, id: Id, n: Node, u: Db) {
    && id !in s.nodes && id != "" && n.parent.Some? && LiveFolder(s.nodes, n.parent.value)
    && FindChild(s.nodes, n.parent.value, n.name).None?
    && u == s.(nodes := s.nodes[id := n], fts := if n.status == Ready then Upserted(s.nodes[id := n], s.fts, id)
      else s.fts)
  }

  ghost predicate Publishes(s: Db, id: Id, name: string, u: Db) {
    && id in s.nodes && s.nodes[id].kind == File && s.nodes[id].status == Pending
    && var previous := FindOther(s.nodes, id, name);
       && (previous.Some? ==> s.nodes[previous.value].kind == File && IsReady(s.nodes, previous.value))
       && var t := Published(s.nodes, id, previous, name);
          u == s.(nodes := t, fts := Upserted(t, if previous.Some? then Removed(s.fts, previous.value) else s.fts, id))
  }

  ghost predicate Renames(s: Db, id: Id, name: string, u: Db) {
    && Live(s.nodes, id) && id != ROOT && FindOther(s.nodes, id, name).None?
    && u.parts == s.parts && u.hashes == s.hashes && u.nodes == SetName(s.nodes, id, name)
    && (if s.nodes[id].kind == Folder then Rebuilt(u.nodes, u.fts) else u.fts == Upserted(u.nodes, s.fts, id))
  }

  /** A move, whether or not the rebuild of the index that follows reports an error. */
  ghost predicate Moves(s: Db, id: Id, target: Id, u: Db) {
    && Movable(s.nodes, id, Dest(target))
    && u.parts == s.parts && u.hashes == s.hashes
    && if s.nodes[id].parent == Some(Dest(target)) then u == s
       else u.nodes == SetParent(s.nodes, id, Dest(target)) &&
            (if s.nodes[id].kind == Folder then Rebuilt(u.nodes, u.fts) else u.fts == Upserted(u.nodes, s.fts, id))
  }

  /** A purge, finished or stopped half way: deleted rows go, children before parents. */
  ghost predicate Purges(s: Db, gone: set<Id>, u: Db) {
    && DownClosed(s.nodes, gone) && (forall x | x in gone && x in s.nodes :: s.nodes[x].status == Deleted)
    && u == Db(s.nodes - gone, s.parts - gone, HashesWithout(s.hashes, gone), s.fts - gone)
  }

  ghost predicate Merges(s: Db, ns: seq<ImportNode>, data: ImportData, gen: Generator, u: Db) {
    && Unused(gen) && DistinctIds(ns)
    && var run := MergeRun(Start(s.nodes, s.parts, s.hashes), ns, data, gen);
       && run.Ok? && UnderFolders(run.value) && u.nodes == run.value.nodes && u.parts == run.value.parts &&
         u.hashes == run.value.hashes
       && Rebuilt(u.nodes, u.fts)
  }

  /** What one successful call does, with folders as parents. */
  ghost predicate Next(s: Db, op: Op, u: Db) {
    match op
    case MakeDir(id, parent, name) =>
      Creates(s, id, Node(Some(Dest(parent)), name, Folder, "inode/directory", 0, Ready, 0), u)
    case Stage(id, parent, name, mime, channel) =>
      Creates(s, id, Node(Some(Dest(parent)), name, File, mime, 0, Pending, channel), u)
    case SaveParts(id, rows) => id in s.nodes && u == s.(parts := s.parts[id := rows])
    case Resize(id, size) => Live(s.nodes, id) && id != ROOT && u == s.(nodes := SetSize(s.nodes, id, size))
    case Finish(id) =>
      Live(s.nodes, id) && s.nodes[id].kind == File &&
      u == s.(nodes := SetStatus(s.nodes, id, Ready), fts := Upserted(SetStatus(s.nodes, id, Ready), s.fts, id))
    case Publish(id, name) => Publishes(s, id, name, u)
    case Abandon(id) =>
      Live(s.nodes, id) && s.nodes[id].kind == File &&
        u == s.(nodes := SetStatus(s.nodes, id, Deleted), fts := Removed(s.fts, id))
    case RenameTo(id, name) => Renames(s, id, name, u)
    case MoveTo(id, target) => Moves(s, id, target, u)
    case Trash(id) => Live(s.nodes, id) && id != ROOT &&
      u == s.(nodes := Trashed(s.nodes, id), fts := s.fts - ReadyDown(s.nodes, id))
    case PurgeRows(gone) => Purges(s, gone, u)
    case MergeIn(ns, data, gen) => Merges(s, ns, data, gen, u)
  }

  // ---- what every call keeps ----

  /** No parent cycle, every row reaches the root, live siblings have distinct
      names, live folders have live folder parents; parts and hashes name rows. */
  ghost predicate Sound(s: Db) {
    Tree(s.nodes) && "" !in s.nodes && s.parts.Keys <= s.nodes.Keys && s.hashes.Values <= s.nodes.Keys
  }

  /** Ready rows are anchored and the search index is exact. */
  ghost predicate Indexed(s: Db) {
    Anchored(s.nodes) && IndexExact(s.nodes, s.fts)
  }

  /** The calls that break the index: a file turns ready below a deleted folder. */
  ghost predicate Orphans(s: Db, op: Op) {
    (op.Finish? || op.Publish?) && !ParentLive(s.nodes, op.id)
  }

  /** The call that can bring this about: a trash over an unfinished upload. */
  ghost predicate Strands(s: Db, op: Op) {
    op.Trash? && PendingInside(s.nodes, op.id)
  }

  lemma CreateKeeps(s: Db, id: Id, n: Node, u: Db)
    requires Sound(s) && Creates(s, id, n, u) && (n.kind == Folder ==> n.status == Ready) && n.status != Deleted
    ensures Sound(u)
    ensures Indexed(s) ==> Indexed(u)
    ensures StagedAnchored(s.nodes) ==> StagedAnchored(u.nodes)
  {
    hide Shape, UniqueNames, FoldersAnchored, Anchored, StagedAnchored, IndexExact, FindChild;
    NoSuchChild(s.nodes, n.parent.value, n.name);
    InsertKeepsTree(s.nodes, id, n);
    if Indexed(s) {
      CreateIndex(s.nodes, id, n, s.fts);
    }
  }

  /** A new row has no row under it. */
  lemma CreateIndex(t: Table, id: Id, n: Node, fts: Index)
    requires Tree(t) && Anchored(t) && IndexExact(t, fts) && id !in t && id != ""
    requires Tree(t[id := n]) && Anchored(t[id := n]) && n.status != Deleted
    ensures IndexExact(t[id := n], if n.status == Ready then Upserted(t[id := n], fts, id) else fts)
  {
    var u := t[id := n];
    ShapeClosed(t);
    forall x | x != id && IsReady(t, x) && t[x].parent.Some? ensures t[x].parent.value != id {}
    UpsertKeepsExact(t, u, id, fts);
    if n.status != Ready {
      assert id !in IndexOf(t);
      assert Removed(fts, id) == fts;
    }
  }

  /** A ready row is told from the index by nothing but its path and name. */
  lemma SizeIndex(t: Table, id: Id, size: int, fts: Index)
    requires Tree(t) && Anchored(t) && IndexExact(t, fts) && Live(t, id) && id != ROOT
    requires Tree(SetSize(t, id, size)) && Anchored(SetSize(t, id, size))
    ensures IndexExact(SetSize(t, id, size), fts)
  {
    hide Shape, UniqueNames, FoldersAnchored, Anchored, SameOutside, IndexOf, AllPaths;
    var u := SetSize(t, id, size);
    SizeOutside(t, u, id);
    IndexOutside(t, u, {});
    assert IndexOf(t) - {} == IndexOf(t) && IndexOf(u) - {} == IndexOf(u);
    AnchoredPaths(u);
  }

  lemma SizeOutside(t: Table, u: Table, id: Id)
    requires id in t && exists size :: u == SetSize(t, id, size)
    ensures SameOutside(t, u, {})
  {}

  lemma ResizeKeeps(s: Db, id: Id, size: int, u: Db)
    requires Sound(s) && Next(s, Resize(id, size), u)
    ensures Sound(u)
    ensures Indexed(s) ==> Indexed(u)
    ensures StagedAnchored(s.nodes) ==> StagedAnchored(u.nodes)
  {
    hide Shape, UniqueNames, FoldersAnchored, Anchored, StagedAnchored, IndexExact;
    SizeKeepsTree(s.nodes, id, size);
    if Indexed(s) {
      SizeIndex(s.nodes, id, size, s.fts);
    }
  }

  lemma FinishKeeps(s: Db, id: Id, u: Db)
    requires Sound(s) && Next(s, Finish(id), u)
    ensures Sound(u)
    ensures Indexed(s) ==> (Indexed(u) <==> ParentLive(s.nodes, id))
    ensures StagedAnchored(s.nodes) ==> StagedAnchored(u.nodes)
  {
    hide Shape, UniqueNames, FoldersAnchored, Anchored, StagedAnchored, IndexExact, ParentLive;
    ReadyKeepsTree(s.nodes, id);
    if Indexed(s) && ParentLive(s.nodes, id) {
      FileOutside(s.nodes, u.nodes, id);
      UpsertKeepsExact(s.nodes, u.nodes, id, s.fts);
    }
  }

  lemma PublishKeeps(s: Db, id: Id, name: string, u: Db)
    requires Sound(s) && Publishes(s, id, name, u)
    ensures Sound(u)
    ensures Indexed(s) ==> (Indexed(u) <==> ParentLive(s.nodes, id))
    ensures StagedAnchored(s.nodes) ==> StagedAnchored(u.nodes)
  {
    hide Shape, UniqueNames, FoldersAnchored, Anchored, StagedAnchored, IndexExact, ParentLive;
    var previous := FindOther(s.nodes, id, name);
    PublishKeepsTree(s.nodes, id, previous, name);
    if Indexed(s) && ParentLive(s.nodes, id) {
      PublishIndex(s.nodes, id, previous, name, s.fts);
    }
  }

  lemma AbandonKeeps(s: Db, id: Id, u: Db)
    requires Sound(s) && Next(s, Abandon(id), u)
    ensures Sound(u)
    ensures Indexed(s) ==> Indexed(u)
    ensures StagedAnchored(s.nodes) ==> StagedAnchored(u.nodes)
  {
    hide Shape, UniqueNames, FoldersAnchored, Anchored, StagedAnchored, IndexExact, ParentLive;
    RootIsFolder(s.nodes);
    DeleteFileKeeps(s.nodes, id);
    if Indexed(s) {
      FileOutside(s.nodes, u.nodes, id);
      RemoveKeepsExact(s.nodes, u.nodes, {id}, s.fts);
    }
  }

  lemma RenameKeeps(s: Db, id: Id, name: string, u: Db)
    requires Sound(s) && Renames(s, id, name, u)
    ensures Sound(u)
    ensures Indexed(s) ==> Indexed(u)
    ensures StagedAnchored(s.nodes) ==> StagedAnchored(u.nodes)
  {
    hide Shape, UniqueNames, FoldersAnchored, Anchored, StagedAnchored, IndexExact, ParentLive, FindOther;
    NameFree(s.nodes, id, name);
    RenameKeepsTree(s.nodes, id, name);
    if Indexed(s) {
      if s.nodes[id].kind == Folder {
        RebuiltExact(u.nodes, u.fts);
      } else {
        FileOutside(s.nodes, u.nodes, id);
        UpsertKeepsExact(s.nodes, u.nodes, id, s.fts);
      }
    }
  }

  lemma NameFree(t: Table, id: Id, name: string)
    requires Shape(t) && Live(t, id) && id != ROOT && FindOther(t, id, name).None?
    ensures t[id].parent.Some? && forall c | IsChild(t, t[id].parent.value, name, c) :: c == id
  {
    RowParent(t, id);
    assert forall c | IsChild(t, t[id].parent.value, name, c) && c != id :: IsOther(t, id, name, c);
  }

  lemma RebuiltExact(t: Table, fts: Index)
    requires Tree(t) && Anchored(t) && Rebuilt(t, fts)
    ensures IndexExact(t, fts)
  {
    AnchoredPaths(t);
  }

  lemma MoveKeeps(s: Db, id: Id, target: Id, u: Db)
    requires Sound(s) && Moves(s, id, target, u)
    ensures Sound(u)
    ensures Indexed(s) ==> Indexed(u)
    ensures StagedAnchored(s.nodes) ==> StagedAnchored(u.nodes)
  {
    hide Shape, UniqueNames, FoldersAnchored, Anchored, StagedAnchored, IndexExact, ParentLive, Under, FindChild;
    var p := Dest(target);
    if s.nodes[id].parent != Some(p) {
      NoSuchChild(s.nodes, p, s.nodes[id].name);
      MoveKeepsTree(s.nodes, id, p);
      if Indexed(s) {
        if s.nodes[id].kind == Folder {
          RebuiltExact(u.nodes, u.fts);
        } else {
          FileOutside(s.nodes, u.nodes, id);
          UpsertKeepsExact(s.nodes, u.nodes, id, s.fts);
        }
      }
    }
  }

  lemma TrashKeeps(s: Db, id: Id, u: Db)
    requires Sound(s) && Next(s, Trash(id), u)
    ensures Sound(u)
    ensures Indexed(s) ==> Indexed(u)
    ensures StagedAnchored(s.nodes) ==> (StagedAnchored(u.nodes) <==> !PendingInside(s.nodes, id))
  {
    hide Shape, UniqueNames, FoldersAnchored, Anchored, StagedAnchored, IndexExact, PendingInside, ReadyDown;
    TrashKeepsTree(s.nodes, id);
    assert u.nodes.Keys == s.nodes.Keys;
    if StagedAnchored(s.nodes) {
      TrashStrands(s.nodes, id);
    }
    if Indexed(s) {
      TrashKeepsExact(s.nodes, id, s.fts);
    }
  }

  lemma PurgeKeeps(s: Db, gone: set<Id>, u: Db)
    requires Sound(s) && Purges(s, gone, u)
    ensures Sound(u)
    ensures Indexed(s) ==> Indexed(u)
    ensures StagedAnchored(s.nodes) ==> StagedAnchored(u.nodes)
  {
    hide Shape, UniqueNames, FoldersAnchored, Anchored, StagedAnchored, IndexExact, DownClosed;
    RemoveKeepsTree(s.nodes, gone);
    HashesInRows(s.hashes, s.nodes, gone);
    if Indexed(s) {
      PurgeKeepsExact(s.nodes, gone, s.fts);
    }
  }

  lemma HashesInRows(h: Hashes, t: Table, gone: set<Id>)
    requires h.Values <= t.Keys
    ensures HashesWithout(h, gone).Values <= (t - gone).Keys
  {
    forall v | v in HashesWithout(h, gone).Values ensures v in (t - gone).Keys {
      var k :| k in HashesWithout(h, gone) && HashesWithout(h, gone)[k] == v;
      assert v == h[k] && k in h && v in h.Values;
    }
  }

  lemma MergeKeeps(s: Db, ns: seq<ImportNode>, data: ImportData, gen: Generator, u: Db)
    requires Sound(s) && Merges(s, ns, data, gen, u)
    ensures Sound(u)
    ensures Indexed(s) ==> Indexed(u)
    ensures StagedAnchored(s.nodes) ==> StagedAnchored(u.nodes)
  {
    hide Shape, UniqueNames, FoldersAnchored, Anchored, StagedAnchored, IndexExact, DistinctIds, UnderFolders, MergeRun,
      Additive, KeepsHashes, NewRows, Mapped, Rebuilt;
    var base := Start(s.nodes, s.parts, s.hashes);
    var m := MergeRun(base, ns, data, gen).value;
    RootIsFolder(s.nodes);
    assert Opened(base);
    RunMerges(base, ns, data, gen, m);
    RunTree(base, ns, data, gen, m);
    if Indexed(s) {
      RebuiltExact(u.nodes, u.fts);
    }
  }

  /** Every call keeps the tree. A call breaks the index exactly when it makes a file
      ready below a deleted folder; a call leaves an unfinished upload below a deleted
      folder exactly when it trashes a folder that holds one. */
  lemma StepKeeps(s: Db, op: Op, u: Db)
    requires Sound(s) && Next(s, op, u)
    ensures Sound(u)
    ensures Indexed(s) ==> (Indexed(u) <==> !Orphans(s, op))
    ensures StagedAnchored(s.nodes) ==> (StagedAnchored(u.nodes) <==> !Strands(s, op))
  {
    hide Sound, Indexed, PendingInside, StagedAnchored, ParentLive, Creates, Publishes, Renames, Moves, Purges, Merges;
    match op
    case MakeDir(id, parent, name) =>
      CreateKeeps(s, id, Node(Some(Dest(parent)), name, Folder, "inode/directory", 0, Ready, 0), u);
    case Stage(id, parent, name, mime, channel) =>
      CreateKeeps(s, id, Node(Some(Dest(parent)), name, File, mime, 0, Pending, channel), u);
    case SaveParts(id, rows) => SaveKeeps(s, id, rows, u);
    case Resize(id, size) => ResizeKeeps(s, id, size, u);
    case Finish(id) => FinishKeeps(s, id, u);
    case Publish(id, name) => PublishKeeps(s, id, name, u);
    case Abandon(id) => AbandonKeeps(s, id, u);
    case RenameTo(id, name) => RenameKeeps(s, id, name, u);
    case MoveTo(id, target) => MoveKeeps(s, id, target, u);
    case Trash(id) => TrashKeeps(s, id, u);
    case PurgeRows(gone) => PurgeKeeps(s, gone, u);
    case MergeIn(ns, data, gen) => MergeKeeps(s, ns, data, gen, u);
  }

  lemma SaveKeeps(s: Db, id: Id, rows: seq<FilePart>, u: Db)
    requires Sound(s) && Next(s, SaveParts(id, rows), u)
    ensures Sound(u)
    ensures Indexed(s) ==> Indexed(u)
    ensures StagedAnchored(s.nodes) ==> StagedAnchored(u.nodes)
  {
    hide Tree, Anchored, StagedAnchored, IndexExact;
  }

  // ---- runs ----

  /** `states[i + 1]` follows `states[i]` by `ops[i]`. */
  ghost predicate IsRun(states: seq<Db>, ops: seq<Op>) {
    |states| == |ops| + 1 && forall i | 0 <= i < |ops| :: Next(states[i], ops[i], states[i + 1])
  }

  lemma {:induction false} EveryRunKeepsTree(states: seq<Db>, ops: seq<Op>, i: nat)
    requires IsRun(states, ops) && Sound(states[0]) && i < |states|
    ensures Sound(states[i])
  {
    hide Sound, Indexed, Next;
    if i > 0 {
      EveryRunKeepsTree(states, ops, i - 1);
      assert Next(states[i - 1], ops[i - 1], states[i - 1 + 1]);
      StepKeeps(states[i - 1], ops[i - 1], states[i]);
    }
  }

  ghost predicate AllIndexed(states: seq<Db>) {
    forall i | 0 <= i < |states| :: Indexed(states[i])
  }

  ghost predicate NoOrphans(states: seq<Db>, ops: seq<Op>)
    requires |states| == |ops| + 1
  {
    forall i | 0 <= i < |ops| :: !Orphans(states[i], ops[i])
  }

  lemma RunStepKeeps(states: seq<Db>, ops: seq<Op>, i: nat)
    requires IsRun(states, ops) && Sound(states[0]) && i < |ops|
    ensures Indexed(states[i]) ==> (Indexed(states[i + 1]) <==> !Orphans(states[i], ops[i]))
    ensures StagedAnchored(states[i].nodes) ==> (StagedAnchored(states[i + 1].nodes) <==> !Strands(states[i], ops[i]))
  {
    hide Sound, Indexed, Next, Strands, Orphans, StagedAnchored;
    EveryRunKeepsTree(states, ops, i);
    StepKeeps(states[i], ops[i], states[i + 1]);
  }

  /** The index is exact in every state of a run exactly when every upload that is
      finished or published in it has a live folder at that moment. */
  lemma IndexedRuns(states: seq<Db>, ops: seq<Op>)
    requires IsRun(states, ops) && Sound(states[0]) && Indexed(states[0])
    ensures AllIndexed(states) <==> NoOrphans(states, ops)
  {
    hide Sound, Indexed, Next, Orphans, StagedAnchored;
    if AllIndexed(states) {
      forall i | 0 <= i < |ops| ensures !Orphans(states[i], ops[i]) {
        RunStepKeeps(states, ops, i);
        assert Indexed(states[i]) && Indexed(states[i + 1]);
      }
    }
    if NoOrphans(states, ops) {
      forall i | 0 <= i < |states| ensures Indexed(states[i]) {
        StaysIndexed(states, ops, i);
      }
    }
  }

  lemma {:induction false} StaysIndexed(states: seq<Db>, ops: seq<Op>, i: nat)
    requires IsRun(states, ops) && Sound(states[0]) && Indexed(states[0]) && i < |states| && NoOrphans(states, ops)
    ensures Indexed(states[i])
  {
    hide Sound, Indexed, Next, Orphans, StagedAnchored;
    if i > 0 {
      StaysIndexed(states, ops, i - 1);
      RunStepKeeps(states, ops, i - 1);
      assert !Orphans(states[i - 1], ops[i - 1]);
    }
  }

  /** What an exact index says of a state: one entry for each ready row but the root, with
      its name and the path of its parent, " / ", its name; no entry for any other row. */
  lemma EntriesOfRun(states: seq<Db>, ops: seq<Op>, i: nat)
    requires IsRun(states, ops) && Sound(states[0]) && Indexed(states[0]) && NoOrphans(states, ops) && i < |states|
    ensures EntriesNest(states[i].nodes, states[i].fts)
    ensures forall x | x in states[i].fts :: Searchable(states[i].nodes, x)
  {
    hide Next, Orphans, EntriesNest;
    StaysIndexed(states, ops, i);
    EveryRunKeepsTree(states, ops, i);
    IndexedNests(states[i]);
  }

  lemma IndexedNests(s: Db)
    requires Sound(s) && Indexed(s)
    ensures EntriesNest(s.nodes, s.fts) && forall x | x in s.fts :: Searchable(s.nodes, x)
  {
    hide EntriesNest, Shape, UniqueNames, FoldersAnchored, Anchored, IndexExact;
    ExactNests(s.nodes, s.fts);
  }

  /** In particular the index is exact through a run that trashes no folder with an
      unfinished upload in it. */
  lemma {:induction false} EveryRunKeepsIndex(states: seq<Db>, ops: seq<Op>, i: nat)
    requires IsRun(states, ops) && Sound(states[0]) && i < |states|
    requires Indexed(states[0]) && StagedAnchored(states[0].nodes)
    requires forall k | 0 <= k < i :: !Strands(states[k], ops[k])
    ensures Indexed(states[i]) && StagedAnchored(states[i].nodes)
    ensures EntriesNest(states[i].nodes, states[i].fts)
    ensures forall x | x in states[i].fts :: Searchable(states[i].nodes, x)
  {
    hide Sound, Indexed, Next, Strands, Orphans, StagedAnchored, EntriesNest;
    if i > 0 {
      EveryRunKeepsIndex(states, ops, i - 1);
      EveryRunKeepsTree(states, ops, i - 1);
      RunStepKeeps(states, ops, i - 1);
      assert !Strands(states[i - 1], ops[i - 1]);
      NoOrphanYet(states, ops, i - 1);
    }
    EveryRunKeepsTree(states, ops, i);
    IndexedNests(states[i]);
  }

  /** A live file is anchored where ready rows and unfinished uploads are. */
  lemma NoOrphanYet(states: seq<Db>, ops: seq<Op>, i: nat)
    requires IsRun(states, ops) && i < |ops| && Sound(states[i]) && Indexed(states[i]) &&
      StagedAnchored(states[i].nodes)
    ensures !Orphans(states[i], ops[i])
  {
    var s, op := states[i], ops[i];
    assert Next(s, op, states[i + 1]);
    hide UniqueNames, FoldersAnchored, IndexExact, Creates, Renames, Moves, Purges, Merges;
    if op.Finish? || op.Publish? {
      LiveFileAnchored(s.nodes, op.id);
    }
  }

  lemma LiveFileAnchored(t: Table, id: Id)
    requires Shape(t) && Anchored(t) && StagedAnchored(t) && Live(t, id) && t[id].kind == File
    ensures ParentLive(t, id)
  {}

  /** What `Sound` gives a reader: the parent chain of any row ends at the root and
      never returns to the row. */
  lemma RunHasNoCycle(states: seq<Db>, ops: seq<Op>, i: nat, x: Id, k: nat)
    requires IsRun(states, ops) && Sound(states[0]) && i < |states| && x in states[i].nodes && k > 0
    ensures ReachesRoot(states[i].nodes, x) && Up(states[i].nodes, x, k) != Some(x)
  {
    EveryRunKeepsTree(states, ops, i);
    NoCycle(states[i].nodes, x, k);
  }

  // ---- a stranded upload ----

  function Fresh(): Db {
    Db(map[ROOT := Node(None, "Root", Folder, "inode/directory", 0, Ready, 0)], map[], map[], map[])
  }

  function StrandingOps(): seq<Op> {
    [MakeDir("d", "", "docs"), Stage("u", "d", "report", "", 0), Trash("d"), Finish("u")]
  }

  function StrandingStates(): seq<Db> {
    var root := Node(None, "Root", Folder, "inode/directory", 0, Ready, 0);
    var d := Node(Some(ROOT), "docs", Folder, "inode/directory", 0, Ready, 0);
    var u := Node(Some("d"), "report", File, "", 0, Pending, 0);
    var row := map["d" := [Entry("docs", "My Drive / docs")]];
    [ Fresh(),
      Db(map[ROOT := root, "d" := d], map[], map[], row),
      Db(map[ROOT := root, "d" := d, "u" := u], map[], map[], row),
      Db(map[ROOT := root, "d" := d.(status := Deleted), "u" := u], map[], map[], map[]),
      Db(map[ROOT := root, "d" := d.(status := Deleted), "u" := u.(status := Ready)], map[], map[], map[]) ]
  }

  /** A folder with an unfinished upload goes to the trash, then the upload finishes:
      a ready file under a deleted folder, with no path and no row in the index. */
  lemma StrandedUpload()
    ensures IsRun(StrandingStates(), StrandingOps())
    ensures var last := StrandingStates()[4];
      IsReady(last.nodes, "u") && !Live(last.nodes, "d") && PathText(last.nodes, "u") == None &&
        !IndexExact(last.nodes, last.fts)
  {
    StrandStep0();
    StrandStep1();
    StrandStep2();
    StrandStep3();
    var states, ops := StrandingStates(), StrandingOps();
    forall i | 0 <= i < |ops| ensures Next(states[i], ops[i], states[i + 1]) {
      assert i == 0 || i == 1 || i == 2 || i == 3;
    }
    var t := states[4].nodes;
    OrphanHasNoPath(t, "u");
    assert Searchable(t, "u");
  }

  lemma StrandStep0()
    ensures Next(StrandingStates()[0], StrandingOps()[0], StrandingStates()[1])
  {
    var s := StrandingStates()[0];
    var n := Node(Some(ROOT), "docs", Folder, "inode/directory", 0, Ready, 0);
    var t := s.nodes["d" := n];
    assert Crumbs(t, ROOT, 1) == Some(["My Drive"]);
    assert t["d"] == n && t[ROOT].parent == None && CrumbName(t, "d") == "docs";
    assert Crumbs(t, "d", 0) == Some(["My Drive"] + ["docs"]);
    assert ["My Drive"] + ["docs"] == ["My Drive", "docs"];
    assert ["My Drive", "docs"][1..] == ["docs"];
    assert JoinPath(["docs"]) == "docs";
    assert JoinPath(["My Drive", "docs"]) == "My Drive" + " / " + "docs";
    assert Crumbs(t, "d", 0) == Some(["My Drive", "docs"]);
    assert "My Drive" + " / " + "docs" == "My Drive / docs";
    assert PathText(t, "d") == Some("My Drive / docs");
    assert t == StrandingStates()[1].nodes;
    assert forall c :: !IsChild(s.nodes, ROOT, "docs", c);
  }

  lemma StrandStep1()
    ensures Next(StrandingStates()[1], StrandingOps()[1], StrandingStates()[2])
  {
    var s := StrandingStates()[1];
    assert forall c :: !IsChild(s.nodes, "d", "report", c);
    assert s.nodes["u" := Node(Some("d"), "report", File, "", 0, Pending, 0)] == StrandingStates()[2].nodes;
  }

  lemma StrandStep2()
    ensures Next(StrandingStates()[2], StrandingOps()[2], StrandingStates()[3])
  {
    var s, u := StrandingStates()[2], StrandingStates()[3];
    assert ReadyDown(s.nodes, "d") == {"d"} by {
      forall x | x in s.nodes && Down(s.nodes, "d", x) ensures x == "d" {
        if x != "d" { DownParent(s.nodes, "d", x); }
      }
    }
    assert u.nodes == DeleteRows(s.nodes, {"d"});
    assert u.fts == s.fts - {"d"};
  }

  lemma StrandStep3()
    ensures Next(StrandingStates()[3], StrandingOps()[3], StrandingStates()[4])
  {
    var s, u := StrandingStates()[3], StrandingStates()[4];
    assert u.nodes == SetStatus(s.nodes, "u", Ready);
    OrphanHasNoPath(u.nodes, "u");
  }
}
