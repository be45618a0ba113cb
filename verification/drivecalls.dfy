/** Every successful call of the drive is a step of `DriveRuns.Next`. */
module DriveCalls {
  import opened Wrappers
  import opened Nodes
  import opened TreeOps
  import opened SearchIndex
  import opened Stores
  import opened Services
  import opened Text
  import opened ImportOrder
  import opened MergeSpec
  import opened MergeProofs
  import opened MergeRuns
  import opened MergeDatabases
  import opened DriveRuns

  ghost function Snapshot(store: Store): Db
    reads store
  {
    Db(store.nodes, store.parts, store.hashes, store.fts)
  }

  method CallMkdir(drive: Drive, id: Id, parent: Id, name: string) returns (r: Done)
    requires drive.store.Valid() && id != "" && id !in drive.store.nodes
    modifies drive.store
    ensures r.Ok? && old(LiveFolder(drive.store.nodes, Dest(parent))) ==>
              Next(old(Snapshot(drive.store)), MakeDir(id, parent, name), Snapshot(drive.store))
    ensures r.Err? ==> unchanged(drive.store)
  {
    hide Shape, UniqueNames, FoldersAnchored, Anchored, StagedAnchored, IndexExact, FindChild;
    r := drive.Mkdir(id, parent, name);
  }

  /** The insert that opens an upload, after `uniqueChildName` chose the name. */
  method CallStage(drive: Drive, id: Id, parent: Id, name: string, mime: string, channel: int) returns (r: Done)
    requires drive.store.Valid() && id != "" && id !in drive.store.nodes
    modifies drive.store
    ensures r.Ok? && old(LiveFolder(drive.store.nodes, Dest(parent))) ==>
              Next(old(Snapshot(drive.store)), Stage(id, parent, name, mime, channel), Snapshot(drive.store))
    ensures r.Err? ==> unchanged(drive.store)
  {
    hide Shape, UniqueNames, FoldersAnchored, Anchored, StagedAnchored, IndexExact, FindChild;
    if !Live(drive.store.nodes, Dest(parent)) {
      return Err(NotFound);
    }
    r := drive.store.Create(id, Node(Some(Dest(parent)), name, File, mime, 0, Pending, channel));
  }

  method CallFinish(drive: Drive, id: Id) returns (r: Done)
    requires drive.store.Valid() && (Live(drive.store.nodes, id) ==> drive.store.nodes[id].kind == File)
    modifies drive.store
    ensures r.Ok? ==> Next(old(Snapshot(drive.store)), Finish(id), Snapshot(drive.store))
    ensures r.Err? ==> unchanged(drive.store)
  {
    hide Shape, UniqueNames, FoldersAnchored, Anchored, StagedAnchored, IndexExact;
    r := drive.store.MakeReady(id);
  }

  method CallResize(drive: Drive, id: Id, size: int) returns (r: Done)
    requires drive.store.Valid() && id != ROOT
    modifies drive.store
    ensures r.Ok? ==> Next(old(Snapshot(drive.store)), Resize(id, size), Snapshot(drive.store))
    ensures r.Err? ==> unchanged(drive.store)
  {
    hide Shape, UniqueNames, FoldersAnchored;
    r := drive.store.UpdateSize(id, size);
  }

  method CallSaveParts(drive: Drive, id: Id, ps: seq<FilePart>, gen: Generator)
      returns (r: Done, ghost rows: seq<FilePart>)
    requires drive.store.Valid() && id in drive.store.nodes
    modifies drive.store
    ensures r.Ok? ==> Next(old(Snapshot(drive.store)), SaveParts(id, rows), Snapshot(drive.store))
    ensures r.Err? ==> unchanged(drive.store)
  {
    hide Shape, UniqueNames, FoldersAnchored, Storable, Numbered;
    r := drive.store.ReplaceParts(id, ps, gen);
    rows := if r.Ok? then drive.store.parts[id] else [];
  }

  method CallPublish(drive: Drive, id: Id, name: string) returns (r: Done)
    requires drive.store.Valid()
    modifies drive.store
    ensures r.Ok? ==> Next(old(Snapshot(drive.store)), Publish(id, name), Snapshot(drive.store))
    ensures r.Err? ==> unchanged(drive.store)
  {
    hide Shape, UniqueNames, FoldersAnchored, Anchored, StagedAnchored, IndexExact, FindOther;
    ghost var s := Snapshot(drive.store);
    r := drive.store.Replace(id, name);
    if r.Ok? {
      assert drive.store.nodes == Published(s.nodes, id, FindOther(s.nodes, id, name), name);
    }
  }

  method CallAbandon(drive: Drive, id: Id) returns (r: Done)
    requires drive.store.Valid() && (Live(drive.store.nodes, id) ==> drive.store.nodes[id].kind == File)
    modifies drive.store
    ensures r.Ok? ==> Next(old(Snapshot(drive.store)), Abandon(id), Snapshot(drive.store))
    ensures r.Err? ==> unchanged(drive.store)
  {
    hide Shape, UniqueNames, FoldersAnchored;
    r := drive.store.SoftDelete(id);
  }

  ghost predicate HasName(t: Table, id: Id, name: string) {
    id in t && t[id].name == name
  }

  /** A rename to the present name succeeds and changes nothing. */
  method CallRename(drive: Drive, id: Id, name: string) returns (r: Done)
    requires drive.store.Valid()
    modifies drive.store
    ensures r.Ok? ==> if old(HasName(drive.store.nodes, id, TrimSpace(name)))
                      then Snapshot(drive.store) == old(Snapshot(drive.store))
                      else Next(old(Snapshot(drive.store)), RenameTo(id, TrimSpace(name)), Snapshot(drive.store))
    ensures r.Err? ==> unchanged(drive.store)
  {
    hide Shape, UniqueNames, FoldersAnchored, Anchored, StagedAnchored, IndexExact, FindOther, TrimSpace, ValidName;
    ghost var t := drive.store.nodes;
    r := drive.Rename(id, name);
    assert r.Ok? && HasName(t, id, TrimSpace(name)) ==> SetName(t, id, TrimSpace(name)) == t;
  }

  /** A move that is accepted is a step, also when it reports the error of the rebuild. */
  method CallMove(drive: Drive, id: Id, target: string) returns (r: Done)
    requires drive.store.Valid()
    modifies drive.store
    ensures old(Reachable(drive.store.nodes, id, Dest(TrimSpace(target)))) ==>
              Next(old(Snapshot(drive.store)), MoveTo(id, Dest(TrimSpace(target))), Snapshot(drive.store))
    ensures !old(Reachable(drive.store.nodes, id, Dest(TrimSpace(target)))) ==> r.Err? && unchanged(drive.store)
  {
    hide Shape, UniqueNames, FoldersAnchored, Anchored, StagedAnchored, IndexExact, Movable, TrimSpace;
    r := drive.Move(id, target);
    assert Dest(Dest(TrimSpace(target))) == Dest(TrimSpace(target));
  }

  method CallTrash(drive: Drive, id: Id) returns (r: Done)
    requires drive.store.Valid()
    modifies drive.store
    ensures r.Ok? ==> Next(old(Snapshot(drive.store)), Trash(id), Snapshot(drive.store))
    ensures r.Err? ==> unchanged(drive.store)
  {
    hide Shape, UniqueNames, FoldersAnchored, Anchored, StagedAnchored, IndexExact, ReadyDown;
    r := drive.MoveToTrash(id);
  }

  /** A purge is a step even when it stops half way. */
  method CallPurge(drive: Drive, id: Id) returns (r: Done, ghost gone: set<Id>)
    requires drive.store.Valid()
    modifies drive.store
    ensures Next(old(Snapshot(drive.store)), PurgeRows(gone), Snapshot(drive.store))
  {
    hide Shape, UniqueNames, FoldersAnchored, Subtree, DownClosed, HashesWithout;
    r, gone := drive.Purge(id);
  }

  /** So is every emptying of the trash. */
  method CallEmptyTrash(drive: Drive) returns (r: Done, ghost gone: set<Id>)
    requires drive.store.Valid()
    modifies drive.store
    ensures Next(old(Snapshot(drive.store)), PurgeRows(gone), Snapshot(drive.store))
  {
    hide Shape, UniqueNames, FoldersAnchored, Kept, DownClosed, HashesWithout, TrashRoots;
    r, gone := drive.EmptyTrash();
  }

  method CallMerge(drive: Drive, nodes: seq<ImportNode>, data: ImportData, gen: Generator)
    returns (r: Result<Summary, Error>, ghost m: Merge)
    requires drive.store.Valid() && DistinctIds(nodes) && Unused(gen)
    modifies drive.store
    ensures r.Ok? && UnderFolders(m) ==>
              Next(old(Snapshot(drive.store)), MergeIn(Ordered(nodes), data, gen), Snapshot(drive.store))
    ensures r.Ok? && FolderParents(nodes) ==> UnderFolders(m)
    ensures r.Err? ==> unchanged(drive.store)
  {
    hide Tree, Anchored, StagedAnchored, IndexExact, DistinctIds, MergeRun, Indexes, ParentsFirst, Ordered,
      UnderFolders;
    hide Opened, IndexSound;
    ValidInSchema(drive.store);
    r, m := MergeDatabase(drive.store, nodes, data, gen);
  }
}
