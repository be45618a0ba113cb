/** The store and the drive services above it: the `nodes`, `file_parts`,
    `file_hashes` and `nodes_fts` tables with the operations that change them. */
module Stores {
  import opened Wrappers
  import opened Nodes
  import opened TreeOps
  import opened SearchIndex

  datatype FilePart = FilePart(id: string, partNo: int, messageId: int, size: int, channel: int)

  datatype Error = NotFound | Conflict | Validation | ForeignKey

  type Done = Result<(), Error>

  type Parts = map<Id, seq<FilePart>>

  type Hashes = map<string, Id>

  function HashesWithout(h: Hashes, gone: set<Id>): Hashes {
    map k | k in h && h[k] !in gone :: h[k]
  }

  /** Rows that still name `id` as their parent make the foreign key refuse its deletion. */
  predicate HasChildRow(t: Table, id: Id) {
    exists c | c in t :: t[c].parent == Some(id)
  }

  predicate DeletedChild(t: Table, parent: Id, c: Id) {
    c in t && t[c].status == Deleted && t[c].parent == Some(parent)
  }

  /** A deleted row whose parent is not deleted. */
  predicate TrashRoot(t: Table, id: Id) {
    id in t && t[id].status == Deleted && id != ROOT &&
    (t[id].parent == None || t[id].parent.value !in t || t[t[id].parent.value].status != Deleted)
  }

  function TrashRoots(t: Table): set<Id> {
    set id | id in t && TrashRoot(t, id)
  }

  const TRASH_CAP: nat := 500

  function TrashLimit(limit: int): nat {
    if limit <= 0 || limit > TRASH_CAP then 200 else limit
  }

  // ---- part rows ----

  /** A source of unused identifiers: `uuid.NewString`, given the ones in use. */
  type Generator = set<string> -> string

  ghost predicate Unused(gen: Generator) {
    forall s: set<string> :: gen(s) !in s
  }

  function PartIds(parts: Parts): set<string> {
    set f, i | f in parts && 0 <= i < |parts[f]| :: parts[f][i].id
  }

  /** The unique index on (file, part number). */
  predicate DistinctNumbers(ps: seq<FilePart>) {
    forall i, j | 0 <= i < j < |ps| :: ps[i].partNo != ps[j].partNo
  }

  function GivenIds(ps: seq<FilePart>): set<string> {
    set p | p in ps && p.id != "" :: p.id
  }

  /** The part rows of a file fit the schema beside the rows of the other files. */
  predicate Storable(others: Parts, ps: seq<FilePart>) {
    && DistinctNumbers(ps)
    && (forall i, j | 0 <= i < j < |ps| && ps[i].id != "" :: ps[i].id != ps[j].id)
    && forall p | p in ps && p.id != "" :: p.id !in PartIds(others)
  }

  /** The same parts, each with a row id. */
  function Numbered(ps: seq<FilePart>, used: set<string>, gen: Generator): seq<FilePart> {
    if ps == [] then []
    else if ps[0].id != "" then [ps[0]] + Numbered(ps[1..], used, gen)
    else
      var id := gen(used + {""});
      [ps[0].(id := id)] + Numbered(ps[1..], used + {id}, gen)
  }

  /** A row keeps its content, and its id unless that is empty. */
  lemma {:induction false} NumberedRow(ps: seq<FilePart>, used: set<string>, gen: Generator, i: nat)
    requires Unused(gen) && GivenIds(ps) <= used && i < |ps|
    ensures |Numbered(ps, used, gen)| == |ps|
    ensures var row := Numbered(ps, used, gen)[i];
      row.id != "" && row.(id := ps[i].id) == ps[i] && (if ps[i].id == "" then row.id !in used else row.id == ps[i].id)
    decreases |ps|
  {
    var rest := ps[1..];
    assert forall p | p in rest :: p in ps;
    assert ps[0] in ps;
    var id := gen(used + {""});
    assert id !in used + {""};
    var more := if ps[0].id != "" then used else used + {id};
    if rest == [] {
      assert Numbered(rest, more, gen) == [];
    } else {
      NumberedRow(rest, more, gen, if i == 0 then 0 else i - 1);
    }
  }

  /** A number drawn is not the id of an earlier row. */
  lemma {:induction false} NumberedApart(ps: seq<FilePart>, used: set<string>, gen: Generator, i: nat, j: nat)
    requires Unused(gen) && GivenIds(ps) <= used && i < j < |ps| && ps[j].id == ""
    ensures |Numbered(ps, used, gen)| == |ps| && Numbered(ps, used, gen)[i].id != Numbered(ps, used, gen)[j].id
    decreases |ps|
  {
    var rest := ps[1..];
    assert forall p | p in rest :: p in ps;
    assert ps[0] in ps;
    assert ps[0].id != "" ==> ps[0].id in GivenIds(ps);
    var more := if ps[0].id != "" then used else used + {gen(used + {""})};
    if i == 0 {
      NumberedRow(rest, more, gen, j - 1);
    } else {
      NumberedApart(rest, more, gen, i - 1, j - 1);
    }
  }

  /** The rows written are the parts given, under distinct ids of their own. */
  lemma NumberedRows(ps: seq<FilePart>, used: set<string>, gen: Generator)
    requires Unused(gen) && GivenIds(ps) <= used
    ensures |Numbered(ps, used, gen)| == |ps|
    ensures forall i | 0 <= i < |ps| ::
              var row := Numbered(ps, used, gen)[i];
              row.id != "" && row.(id := ps[i].id) == ps[i] &&
                (if ps[i].id == "" then row.id !in used else row.id == ps[i].id)
    ensures forall i, j | 0 <= i < j < |ps| && ps[j].id == "" ::
      Numbered(ps, used, gen)[i].id != Numbered(ps, used, gen)[j].id
  {
    hide Numbered, Unused, GivenIds;
    var rows := Numbered(ps, used, gen);
    if ps == [] {
      NoRows(used, gen);
    } else {
      NumberedRow(ps, used, gen, 0);
    }
    forall i | 0 <= i < |ps|
      ensures rows[i].id != "" && rows[i].(id := ps[i].id) == ps[i] &&
        (if ps[i].id == "" then rows[i].id !in used else rows[i].id == ps[i].id)
    {
      NumberedRow(ps, used, gen, i);
    }
    forall i, j | 0 <= i < j < |ps| && ps[j].id == "" ensures rows[i].id != rows[j].id {
      NumberedApart(ps, used, gen, i, j);
    }
  }

  lemma NoRows(used: set<string>, gen: Generator)
    ensures Numbered([], used, gen) == []
  {}

  class Store {
    var nodes: Table
    var parts: Parts
    var hashes: Hashes
    var fts: Index

    /** The schema's foreign keys and the shape of the tree. */
    ghost predicate Valid()
      reads this
    {
      Tree(nodes) && "" !in nodes && parts.Keys <= nodes.Keys && hashes.Values <= nodes.Keys
    }

    /** Each ready node is anchored and the index is exact. */
    ghost predicate InStep()
      reads this
    {
      Anchored(nodes) && IndexExact(nodes, fts)
    }

    /** `EnsureRoot` on an empty database. */
    constructor ()
      ensures Valid() && InStep() && StagedAnchored(nodes)
      ensures nodes.Keys == {ROOT} && parts == map[] && hashes == map[]
    {
      nodes := map[ROOT := Node(None, "Root", Folder, "inode/directory", 0, Ready, 0)];
      parts, hashes, fts := map[], map[], map[];
      new;
      assert Up(nodes, ROOT, 0) == Some(ROOT);
      assert IndexOf(nodes) == map[];
    }

    // ---- queries ----

    method FindChildByName(parent: Id, name: string) returns (r: Option<Id>)
      requires UniqueNames(nodes)
      ensures r == FindChild(nodes, parent, name)
    {
      if c :| c in nodes && IsChild(nodes, parent, name, c) {
        FindChildIs(nodes, parent, name, c);
        r := Some(c);
      } else {
        r := None;
      }
    }

    method ListChildren(parent: Id) returns (out: seq<Id>)
      ensures forall c :: c in out <==> ReadyChild(nodes, parent, c)
      ensures Distinct(out)
    {
      out := ListWhere(set c | c in nodes && ReadyChild(nodes, parent, c));
    }

    /** The rows of a result set, in some order. */
    static method ListWhere(rows: set<Id>) returns (out: seq<Id>)
      ensures forall c :: c in out <==> c in rows
      ensures Distinct(out)
      ensures |out| == |rows|
    {
      out := [];
      var left := rows;
      while left != {}
        invariant left <= rows
        invariant forall c :: c in out <==> c in rows && c !in left
        invariant Distinct(out)
        invariant |out| + |left| == |rows|
        decreases |left|
      {
        var c :| c in left;
        out := out + [c];
        left := left - {c};
      }
    }

    /** `pathForNode`: climb at most `PATH_CAP` rows, then turn the chain around. */
    method PathForNode(id: Id) returns (r: Option<seq<string>>)
      ensures r == Crumbs(nodes, id, 0)
    {
      var chain: seq<string> := [];
      var cur := id;
      var i := 0;
      OntoNothing(Crumbs(nodes, id, 0));
      while i < PATH_CAP
        invariant 0 <= i <= PATH_CAP
        invariant Crumbs(nodes, id, 0) == Onto(Crumbs(nodes, cur, i), Reverse(chain))
      {
        if !Live(nodes, cur) {
          return None;
        }
        var name := CrumbName(nodes, cur);
        CrumbStep(nodes, cur, i, chain);
        chain := chain + [name];
        if nodes[cur].parent == None || nodes[cur].parent == Some("") {
          break;
        }
        cur := nodes[cur].parent.value;
        i := i + 1;
      }
      assert Crumbs(nodes, id, 0) == Some(Reverse(chain)) by {
        assert [] + Reverse(chain) == Reverse(chain);
      }
      chain := ReverseInPlace(chain);
      r := Some(chain);
    }

    /** The two-index swap loop that turns root-last into root-first. */
    static method ReverseInPlace(names: seq<string>) returns (out: seq<string>)
      ensures out == Reverse(names)
    {
      out := names;
      var i, j := 0, |out| - 1;
      while i < j
        invariant 0 <= i <= j + 2 <= |out| + 1 && j == |names| - 1 - i && |out| == |names|
        invariant forall k | 0 <= k < i :: out[k] == names[|names| - 1 - k] && out[|names| - 1 - k] == names[k]
        invariant forall k | i <= k <= j :: out[k] == names[k]
      {
        out := out[i := out[j]][j := out[i]];
        i, j := i + 1, j - 1;
      }
    }

    /** `folderSubtreeIDs`: breadth-first over ready children. */
    method FolderSubtreeIds(folder: Id) returns (out: set<Id>)
      requires Shape(nodes) && folder in nodes
      ensures out == ReadyDown(nodes, folder)
    {
      out := {folder};
      var queue := [folder];
      ghost var seen: set<Id> := {};
      DownSelf(nodes, folder);
      while queue != []
        invariant Frontier(nodes, folder, out, queue, seen)
        decreases nodes.Keys - seen
      {
        var cur := queue[0];
        var children := ListChildren(cur);
        FrontierStep(nodes, folder, out, queue, seen, children);
        seen := seen + {cur};
        ghost var next := out + Elems(children);
        out, queue := Enqueue(children, out, queue[1..]);
        assert out == next;
      }
      FrontierDone(nodes, folder, out, seen);
    }

    /** The inner loop of `folderSubtreeIDs`. */
    method Enqueue(children: seq<Id>, out0: set<Id>, queue0: seq<Id>) returns (out: set<Id>, queue: seq<Id>)
      requires forall c | c in children :: c in nodes
      ensures forall x :: x in out <==> x in out0 || x in children
      ensures queue == queue0 + Folders(nodes, children)
    {
      out, queue := out0, queue0;
      var i := 0;
      assert children[0..] == children;
      while i < |children|
        invariant 0 <= i <= |children|
        invariant forall x :: x in out0 || x in children <==> x in out || x in children[i..]
        invariant queue + Folders(nodes, children[i..]) == queue0 + Folders(nodes, children)
      {
        var c := children[i];
        FoldersStep(nodes, children, i, queue);
        out := out + {c};
        if nodes[c].kind == Folder {
          queue := queue + [c];
        }
        i := i + 1;
      }
      assert children[i..] == [];
    }

    // ---- the search index ----

    method UpsertFts(id: Id) returns (ok: bool)
      modifies this`fts
      ensures fts == Upserted(nodes, old(fts), id)
      ensures ok <==> id == "" || id == ROOT || (Live(nodes, id) && (IsReady(nodes, id) ==> PathText(nodes, id).Some?))
    {
      if id == "" || id == ROOT {
        return true;
      }
      if !Live(nodes, id) {
        return false;
      }
      if nodes[id].status != Ready {
        RemoveFts(id);
        return true;
      }
      var names := PathForNode(id);
      if names.None? {
        return false;
      }
      RemoveFts(id);
      fts := fts[id := [Entry(nodes[id].name, JoinPath(names.value))]];
      ok := true;
    }

    method RemoveFts(id: Id)
      modifies this`fts
      ensures fts == Removed(old(fts), id)
    {
      fts := fts - {id};
    }

    /** Stops at the first node without a path; otherwise the index is exact. */
    method RebuildFts() returns (ok: bool)
      requires "" !in nodes
      modifies this`fts
      ensures ok <==> AllPaths(nodes)
      ensures ok ==> IndexExact(nodes, fts)
      ensures Rebuilt(nodes, fts) && IndexSound(nodes, fts)
    {
      hide PathText;
      fts := map[];
      var ids := ListWhere(set id | id in nodes && Searchable(nodes, id));
      ghost var done: set<Id> := {};
      var i := 0;
      while i < |ids|
        invariant 0 <= i <= |ids|
        invariant forall x :: x in done <==> x in ids[..i]
        invariant fts == IndexPart(nodes, done)
        invariant forall x | x in done :: PathText(nodes, x).Some?
      {
        assert ids[i] in ids;
        IndexPartStep(nodes, done, ids[i]);
        var ok1 := UpsertFts(ids[i]);
        if !ok1 {
          return false;
        }
        done := done + {ids[i]};
        i := i + 1;
      }
      assert ids[..i] == ids;
      assert IndexPart(nodes, done) == IndexOf(nodes);
      ok := true;
    }

    /** The end of `Open`: an existing database opens exactly when its ready rows are
        anchored, and then with an exact index. */
    method Open() returns (r: Done)
      requires Valid()
      modifies this`fts
      ensures Valid()
      ensures r.Ok? <==> Anchored(nodes)
      ensures r.Ok? ==> IndexExact(nodes, fts)
      ensures IndexSound(nodes, fts)
    {
      hide Shape, UniqueNames, FoldersAnchored, Anchored, IndexExact, IndexSound, AllPaths;
      PathsIffAnchored(nodes);
      var ok := RebuildFts();
      r := if ok then Ok(()) else Err(NotFound);
    }

    // ---- statements ----

    /** `Create`: the insert, refused by the primary key, the foreign key or the
        unique index on live siblings. */
    method Create(id: Id, n: Node) returns (r: Done)
      requires Valid() && id != "" && n.parent.Some?
      modifies this`nodes, this`fts
      ensures r.Ok? <==> old(id !in nodes && n.parent.value in nodes &&
                             (n.status != Deleted ==> FindChild(nodes, n.parent.value, n.name).None?))
      ensures r.Ok? ==> nodes == old(nodes)[id := n]
      ensures r.Ok? ==> fts == if n.status == Ready then Upserted(nodes, old(fts), id) else old(fts)
      ensures r.Err? ==> unchanged(this)
    {
      if id in nodes {
        return Err(Conflict);
      }
      if n.parent.value !in nodes {
        return Err(ForeignKey);
      }
      if n.status != Deleted {
        var sibling := FindChildByName(n.parent.value, n.name);
        if sibling.Some? {
          return Err(Conflict);
        }
      }
      nodes := nodes[id := n];
      if n.status == Ready {
        var _ := UpsertFts(id);
      }
      r := Ok(());
    }

    /** `UpdateStatus` as the upload calls it: a live row becomes ready. */
    method MakeReady(id: Id) returns (r: Done)
      requires Valid() && (Live(nodes, id) ==> nodes[id].kind == File)
      modifies this`nodes, this`fts
      ensures Valid()
      ensures r.Ok? <==> old(Live(nodes, id))
      ensures r.Ok? ==>
        nodes == old(nodes)[id := old(nodes)[id].(status := Ready)] && fts == Upserted(nodes, old(fts), id)
      ensures r.Err? ==> unchanged(this)
      ensures r.Ok? && old(InStep()) ==> (InStep() <==> old(ParentLive(nodes, id)))
      ensures old(StagedAnchored(nodes)) ==> StagedAnchored(nodes)
    {
      hide Shape, UniqueNames, FoldersAnchored, Anchored, StagedAnchored, IndexExact, ParentLive;
      if !Live(nodes, id) {
        return Err(NotFound);
      }
      ghost var t := nodes;
      ReadyKeepsTree(nodes, id);
      nodes := SetStatus(nodes, id, Ready);
      var _ := UpsertFts(id);
      if Anchored(t) && IndexExact(t, old(fts)) && ParentLive(t, id) {
        FileOutside(t, nodes, id);
        UpsertKeepsExact(t, nodes, id, old(fts));
      }
      r := Ok(());
    }

    method UpdateSize(id: Id, size: int) returns (r: Done)
      requires Valid() && id != ROOT
      modifies this`nodes
      ensures Valid()
      ensures r.Ok? <==> old(Live(nodes, id))
      ensures r.Ok? ==> nodes == old(nodes)[id := old(nodes)[id].(size := size)]
      ensures r.Err? ==> unchanged(this)
    {
      if !Live(nodes, id) {
        return Err(NotFound);
      }
      SizeKeepsTree(nodes, id, size);
      nodes := SetSize(nodes, id, size);
      r := Ok(());
    }

    /** `Replace`: publish a staged file, trashing the file that held the name. The
        index stays exact exactly when the staged file's folder is still live. */
    method Replace(id: Id, name: string) returns (r: Done)
      requires Valid()
      modifies this`nodes, this`fts
      ensures Valid()
      ensures r.Ok? <==> old(id in nodes && nodes[id].kind == File && nodes[id].status == Pending &&
                             (FindOther(nodes, id, name).Some? ==>
                               nodes[FindOther(nodes, id, name).value].kind == File &&
                                 IsReady(nodes, FindOther(nodes, id, name).value)))
      ensures r.Ok? ==> var previous := FindOther(old(nodes), id, name);
        nodes == map x | x in old(nodes) ::
          if x == id then old(nodes)[x].(name := name, status := Ready)
          else if previous == Some(x) then old(nodes)[x].(status := Deleted)
          else old(nodes)[x]
      ensures r.Ok? ==> var previous := FindOther(old(nodes), id, name);
        fts == Upserted(nodes, if previous.Some? then Removed(old(fts), previous.value) else old(fts), id)
      ensures r.Err? ==> unchanged(this)
      ensures r.Ok? && old(InStep()) ==> (InStep() <==> old(ParentLive(nodes, id)))
      ensures old(StagedAnchored(nodes)) ==> StagedAnchored(nodes)
    {
      hide Shape, UniqueNames, FoldersAnchored, Anchored, StagedAnchored, IndexExact, ParentLive, Upserted;
      if id !in nodes || nodes[id].kind != File || nodes[id].status != Pending {
        return Err(NotFound);
      }
      ghost var t := nodes;
      var previous: Option<Id> := None;
      if c :| c in nodes && IsOther(nodes, id, name, c) {
        previous := Some(c);
      }
      OtherUnique(nodes, id, name, previous);
      if previous.Some? && (nodes[previous.value].kind == Folder || nodes[previous.value].status == Pending) {
        return Err(Conflict);
      }
      PublishKeepsTree(nodes, id, previous, name);
      if previous.Some? {
        nodes := SetStatus(nodes, previous.value, Deleted);
      }
      nodes := nodes[id := nodes[id].(name := name, status := Ready)];
      if previous.Some? {
        RemoveFts(previous.value);
      }
      var _ := UpsertFts(id);
      assert nodes == Published(t, id, previous, name);
      PublishedRows(t, id, previous, name);
      if Anchored(t) && IndexExact(t, old(fts)) && ParentLive(t, id) {
        PublishIndex(t, id, previous, name, old(fts));
      }
      r := Ok(());
    }

    /** The update behind a rename; the unique index refuses a name a live sibling holds. */
    method Rename(id: Id, name: string) returns (r: Done)
      requires Valid() && id != ROOT
      modifies this`nodes, this`fts
      ensures Valid()
      ensures r.Ok? <==> old(Live(nodes, id) && FindOther(nodes, id, name).None?)
      ensures r.Ok? ==> nodes == old(nodes)[id := old(nodes)[id].(name := name)]
      ensures r.Ok? ==> if old(nodes)[id].kind == Folder then Rebuilt(nodes, fts)
        else fts == Upserted(nodes, old(fts), id)
      ensures r.Err? ==> unchanged(this)
      ensures old(InStep()) ==> InStep()
      ensures old(StagedAnchored(nodes)) ==> StagedAnchored(nodes)
    {
      hide Shape, UniqueNames, FoldersAnchored, Anchored, StagedAnchored, IndexExact, ParentLive;
      if !Live(nodes, id) {
        return Err(NotFound);
      }
      if c :| c in nodes && IsOther(nodes, id, name, c) {
        return Err(Conflict);
      }
      ghost var t := nodes;
      RowParent(t, id);
      assert forall c | IsChild(t, t[id].parent.value, name, c) && c != id :: IsOther(t, id, name, c);
      RenameKeepsTree(nodes, id, name);
      nodes := SetName(nodes, id, name);
      if Anchored(nodes) {
        AnchoredPaths(nodes);
      }
      if nodes[id].kind == Folder {
        var _ := RebuildFts();
      } else {
        var _ := UpsertFts(id);
        if Anchored(t) && IndexExact(t, old(fts)) {
          FileOutside(t, nodes, id);
          UpsertKeepsExact(t, nodes, id, old(fts));
        }
      }
      r := Ok(());
    }

    /** `Move`. The breadth-first search refuses exactly the folders under the moved
        one. A folder's move ends in a rebuild of the index, whose error is returned:
        the call fails, with the row moved, exactly when a ready row is not anchored. */
    method Move(id: Id, target: Id) returns (r: Done)
      requires Valid()
      modifies this`nodes, this`fts
      ensures Valid()
      ensures r.Ok? <==> old(Movable(nodes, id, Dest(target)) &&
                             (nodes[id].parent == Some(Dest(target)) || nodes[id].kind == File || Anchored(nodes)))
      ensures old(Movable(nodes, id, Dest(target))) ==>
                nodes == old(nodes)[id := old(nodes)[id].(parent := Some(if target == "" then ROOT else target))]
      ensures old(Movable(nodes, id, Dest(target))) ==>
                if old(nodes[id].parent) == Some(Dest(target)) then fts == old(fts)
                else if old(nodes)[id].kind == Folder then Rebuilt(nodes, fts) && IndexSound(nodes, fts)
                else fts == Upserted(nodes, old(fts), id)
      ensures !old(Movable(nodes, id, Dest(target))) ==> unchanged(this)
      ensures old(InStep()) ==> InStep()
      ensures old(StagedAnchored(nodes)) ==> StagedAnchored(nodes)
    {
      hide Shape, UniqueNames, FoldersAnchored, Anchored, StagedAnchored, IndexExact, ParentLive, IndexSound;
      if id == ROOT {
        return Err(Validation);
      }
      var parent := Dest(target);
      if !Live(nodes, id) {
        return Err(NotFound);
      }
      RowParent(nodes, id);
      if nodes[id].parent.value == parent {
        return Ok(());
      }
      if id == parent {
        UnderSelf(nodes, id);
        return Err(Validation);
      }
      if !Live(nodes, parent) {
        return Err(NotFound);
      }
      if nodes[parent].kind != Folder {
        return Err(Validation);
      }
      if nodes[id].kind == Folder {
        var subtree := FolderSubtreeIds(id);
        UnderByDown(nodes, id, parent);
        if parent in subtree {
          return Err(Validation);
        }
      } else {
        NothingUnderFile(nodes, id, parent);
      }
      var existing := FindChildByName(parent, nodes[id].name);
      if existing.Some? && existing.value != id {
        return Err(Conflict);
      }
      ghost var t := nodes;
      assert forall c :: !IsChild(t, parent, t[id].name, c);
      MoveKeepsTree(nodes, id, parent);
      nodes := SetParent(nodes, id, parent);
      var ok;
      if nodes[id].kind == Folder {
        MoveFolderAnchored(t, id, parent);
        PathsIffAnchored(nodes);
        ok := RebuildFts();
      } else {
        ChildHasPath(nodes, id, parent);
        ok := UpsertFts(id);
        if Anchored(t) && IndexExact(t, old(fts)) {
          FileOutside(t, nodes, id);
          UpsertKeepsExact(t, nodes, id, old(fts));
        }
      }
      r := if ok then Ok(()) else Err(NotFound);
    }

    /** `SoftDelete` of one row. */
    method SoftDelete(id: Id) returns (r: Done)
      modifies this`nodes, this`fts
      ensures r.Ok? <==> old(Live(nodes, id))
      ensures r.Ok? ==> nodes == old(nodes)[id := old(nodes)[id].(status := Deleted)] && fts == old(fts) - {id}
      ensures r.Err? ==> unchanged(this)
    {
      if !Live(nodes, id) {
        return Err(NotFound);
      }
      nodes := SetStatus(nodes, id, Deleted);
      RemoveFts(id);
      r := Ok(());
    }

    /** `HardDelete`: refused while any row names `id` as its parent; parts and
        hashes of the row go with it. */
    method HardDelete(id: Id) returns (r: Done)
      modifies this
      ensures r.Ok? <==> id != ROOT && old(id in nodes) && !HasChildRow(old(nodes), id)
      ensures r.Ok? ==> nodes == old(nodes) - {id} && parts == old(parts) - {id} &&
                        hashes == (map k | k in old(hashes) && old(hashes)[k] != id :: old(hashes)[k]) &&
                        fts == old(fts) - {id}
      ensures r.Err? ==> unchanged(this)
    {
      if id == ROOT {
        return Err(Validation);
      }
      if id !in nodes {
        return Err(NotFound);
      }
      if HasChildRow(nodes, id) {
        return Err(ForeignKey);
      }
      nodes := nodes - {id};
      parts := parts - {id};
      hashes := HashesWithout(hashes, {id});
      RemoveFts(id);
      r := Ok(());
    }

    method ListDeletedChildren(parent: Id) returns (out: seq<Id>)
      ensures forall c :: c in out <==> DeletedChild(nodes, parent, c)
      ensures Distinct(out)
    {
      out := ListWhere(set c | c in nodes && DeletedChild(nodes, parent, c));
    }

    /** `ListTrashRoots`: deleted rows whose parent is not deleted, at most `limit` of
        them, or 200 where the limit is out of range. */
    method ListTrashRoots(limit: int) returns (out: seq<Id>)
      ensures forall c | c in out :: TrashRoot(nodes, c)
      ensures Distinct(out)
      ensures var most := if 0 < limit <= 500 then limit else 200;
        && |out| == (if |TrashRoots(nodes)| > most then most else |TrashRoots(nodes)|)
        && (|TrashRoots(nodes)| <= most ==> forall c | TrashRoot(nodes, c) :: c in out)
    {
      var most := TrashLimit(limit);
      var all := ListWhere(TrashRoots(nodes));
      out := if |all| > most then all[..most] else all;
      assert forall c | c in out :: c in all;
    }

    /** `ReplaceParts`, one transaction: refused by the unique index on part numbers or
        the primary key of the part rows. Rows without an id get an unused one. */
    method ReplaceParts(file: Id, ps: seq<FilePart>, gen: Generator) returns (r: Done)
      requires Valid() && file in nodes
      modifies this`parts
      ensures Valid()
      ensures r.Ok? <==> Storable(old(parts) - {file}, ps)
      ensures r.Ok? ==> parts == old(parts)[file := Numbered(ps, PartIds(old(parts) - {file}) + GivenIds(ps), gen)]
      ensures r.Err? ==> parts == old(parts)
    {
      if !Storable(parts - {file}, ps) {
        return Err(Conflict);
      }
      parts := parts[file := Numbered(ps, PartIds(parts - {file}) + GivenIds(ps), gen)];
      r := Ok(());
    }
  }

  function IndexPart(t: Table, done: set<Id>): Index {
    map x | x in IndexOf(t) && x in done :: IndexOf(t)[x]
  }

  lemma IndexPartStep(t: Table, done: set<Id>, id: Id)
    requires Searchable(t, id)
    ensures PathText(t, id).Some? && id != "" ==> Upserted(t, IndexPart(t, done), id) == IndexPart(t, done + {id})
  {
    if PathText(t, id).Some? && id != "" {
      assert id in IndexOf(t);
      MapsAgree(Upserted(t, IndexPart(t, done), id), IndexPart(t, done + {id}), id);
    }
  }

  // ---- breadth-first search ----

  function Folders(t: Table, ids: seq<Id>): (r: seq<Id>)
    requires forall c | c in ids :: c in t
    ensures forall x :: x in r <==> x in ids && t[x].kind == Folder
  {
    if ids == [] then []
    else (if t[ids[0]].kind == Folder then [ids[0]] else []) + Folders(t, ids[1..])
  }

  lemma FoldersStep(t: Table, ids: seq<Id>, i: nat, queue: seq<Id>)
    requires i < |ids| && forall c | c in ids :: c in t
    ensures forall x :: x in ids[i..] <==> x == ids[i] || x in ids[i + 1..]
    ensures queue + Folders(t, ids[i..]) ==
            (if t[ids[i]].kind == Folder then queue + [ids[i]] else queue) + Folders(t, ids[i + 1..])
  {
    assert ids[i..] == [ids[i]] + ids[i + 1..];
  }

  ghost predicate Distinct(s: seq<Id>) {
    forall i, j | 0 <= i < j < |s| :: s[i] != s[j]
  }

  lemma {:induction false} FoldersDistinct(t: Table, ids: seq<Id>)
    requires forall c | c in ids :: c in t
    requires Distinct(ids)
    ensures Distinct(Folders(t, ids))
  {
    if ids != [] {
      FoldersDistinct(t, ids[1..]);
      assert ids[0] !in ids[1..];
    }
  }

  /** `seen` are the folders already expanded and `todo` those still queued:
      everything found hangs, by ready rows, under `folder`, from an expanded folder. */
  ghost predicate Found(t: Table, folder: Id, out: set<Id>, todo: set<Id>, seen: set<Id>) {
    && seen <= out && folder in out && out <= t.Keys && todo <= out && todo !! seen
    && (forall x | x in out :: Down(t, folder, x))
    && (forall x | x in out && x != folder :: t[x].parent.Some? && t[x].parent.value in seen)
    && (forall x | x in out && t[x].kind == Folder :: x in seen || x in todo)
    && (forall x, c | x in seen && ReadyChild(t, x, c) :: c in out)
  }

  ghost function Elems<T>(s: seq<T>): set<T> {
    set x | x in s
  }

  ghost predicate Frontier(t: Table, folder: Id, out: set<Id>, queue: seq<Id>, seen: set<Id>) {
    Distinct(queue) && Found(t, folder, out, Elems(queue), seen)
  }

  lemma NewChild(t: Table, folder: Id, out: set<Id>, todo: set<Id>, seen: set<Id>, cur: Id, c: Id)
    requires Shape(t) && Found(t, folder, out, todo, seen) && cur in todo && ReadyChild(t, cur, c)
    ensures c !in out && Down(t, folder, c)
  {
    DownChild(t, folder, c);
    if c == folder {
      DownUnder(t, folder, cur);
      NotUnderChild(t, cur, folder);
    }
  }

  lemma FoundStep(t: Table, folder: Id, out: set<Id>, todo: set<Id>, seen: set<Id>, cur: Id, children: set<Id>,
      more: set<Id>)
    requires Found(t, folder, out, todo, seen) && cur in todo
    requires forall c :: c in children <==> ReadyChild(t, cur, c)
    requires forall c | c in children :: c in t && c !in out && Down(t, folder, c)
    requires forall c :: c in more <==> c in children && c in t && t[c].kind == Folder
    ensures Found(t, folder, out + children, todo - {cur} + more, seen + {cur})
  {
    assert cur in out;
  }

  lemma FrontierStep(t: Table, folder: Id, out: set<Id>, queue: seq<Id>, seen: set<Id>, children: seq<Id>)
    requires Shape(t) && Frontier(t, folder, out, queue, seen) && queue != []
    requires forall c :: c in children <==> ReadyChild(t, queue[0], c)
    requires Distinct(children) && forall c | c in children :: c in t
    ensures Frontier(t, folder, out + Elems(children), queue[1..] + Folders(t, children), seen + {queue[0]})
  {
    var cur := queue[0];
    forall c | c in children ensures c !in out && Down(t, folder, c) {
      NewChild(t, folder, out, Elems(queue), seen, cur, c);
    }
    FoldersDistinct(t, children);
    FoundStep(t, folder, out, Elems(queue), seen, cur, Elems(children), Elems(Folders(t, children)));
    QueueStep(queue, Folders(t, children));
  }

  lemma QueueStep(queue: seq<Id>, more: seq<Id>)
    requires queue != [] && Distinct(queue) && Distinct(more) && Elems(queue) !! Elems(more)
    ensures Distinct(queue[1..] + more)
    ensures Elems(queue[1..] + more) == Elems(queue) - {queue[0]} + Elems(more)
  {
    var rest := queue[1..];
    assert forall x | x in more :: x in Elems(more);
    assert forall x | x in queue :: x in Elems(queue);
    assert forall x | x in rest :: x in queue;
    var both := rest + more;
    forall i, j | 0 <= i < j < |both| ensures both[i] != both[j] {
      if i < |rest| <= j { assert both[i] in rest && both[j] in more; }
    }
  }

  lemma FrontierDone(t: Table, folder: Id, out: set<Id>, seen: set<Id>)
    requires Shape(t) && folder in t && Frontier(t, folder, out, [], seen)
    ensures out == ReadyDown(t, folder)
  {
    forall x | Down(t, folder, x) ensures x in out {
      var k: nat :| DownBy(t, folder, x, k);
      ClosedDown(t, folder, out, x, k);
    }
  }

  lemma {:induction false} ClosedDown(t: Table, a: Id, s: set<Id>, x: Id, k: nat)
    requires Shape(t) && a in s && DownBy(t, a, x, k)
    requires forall y, c | y in s && y in t && t[y].kind == Folder && ReadyChild(t, y, c) :: c in s
    ensures x in s
    decreases k
  {
    if k > 0 {
      var p := t[x].parent.value;
      assert x != ROOT;
      assert ParentRow(t, x);
      ClosedDown(t, a, s, p, k - 1);
      assert ReadyChild(t, p, x);
    }
  }

  ghost function Reverse<T>(s: seq<T>): seq<T> {
    seq(|s|, i requires 0 <= i < |s| => s[|s| - 1 - i])
  }

  lemma OntoNothing(above: Option<seq<string>>)
    ensures Onto(above, Reverse([])) == above
  {
    assert above.Some? ==> above.value + Reverse([]) == above.value;
  }

  /** One row climbed: its name goes in front of those already collected. */
  lemma CrumbStep(t: Table, cur: Id, i: nat, chain: seq<string>)
    requires i < PATH_CAP && Live(t, cur)
    ensures t[cur].parent == None || t[cur].parent == Some("") ==>
              Onto(Crumbs(t, cur, i), Reverse(chain)) == Some(Reverse(chain + [CrumbName(t, cur)]))
    ensures !(t[cur].parent == None || t[cur].parent == Some("")) ==>
              Onto(Crumbs(t, cur, i), Reverse(chain)) ==
                Onto(Crumbs(t, t[cur].parent.value, i + 1), Reverse(chain + [CrumbName(t, cur)]))
  {
    var name := CrumbName(t, cur);
    assert Reverse(chain + [name]) == [name] + Reverse(chain);
    if t[cur].parent.Some? && t[cur].parent != Some("") {
      var above := Crumbs(t, t[cur].parent.value, i + 1);
      if above.Some? {
        assert above.value + [name] + Reverse(chain) == above.value + ([name] + Reverse(chain));
      }
    }
  }

  /** The part of a path above `tail`, put in front of it. */
  ghost function Onto(above: Option<seq<string>>, tail: seq<string>): Option<seq<string>> {
    match above
    case None => None
    case Some(names) => Some(names + tail)
  }

  // ---- facts the statements use ----

  function Dest(target: Id): Id {
    if target == "" then ROOT else target
  }

  function Moved(t: Table, id: Id, p: Id): Table
    requires id in t
  {
    if t[id].parent == Some(p) then t else SetParent(t, id, p)
  }

  /** What `Move` accepts: a live row other than the root, and either its own
      folder or a live folder outside its subtree with the name free. */
  ghost predicate Movable(t: Table, id: Id, p: Id) {
    && id != ROOT && Live(t, id)
    && (t[id].parent == Some(p) || (LiveFolder(t, p) && !Under(t, id, p) && FindChild(t, p, t[id].name).None?))
  }

  lemma UnderByDown(t: Table, id: Id, p: Id)
    requires Tree(t) && LiveFolder(t, p)
    ensures p in ReadyDown(t, id) <==> Under(t, id, p)
  {
    if Under(t, id, p) {
      var k: nat :| Up(t, p, k) == Some(id);
      FolderUnderIsDown(t, id, p, k);
    }
    if p in ReadyDown(t, id) {
      if p == id { UnderSelf(t, id); } else { DownUnder(t, id, p); }
    }
  }

  lemma NothingUnderFile(t: Table, id: Id, p: Id)
    requires Shape(t) && id in t && t[id].kind == File && p != id
    ensures !Under(t, id, p)
  {
    if Under(t, id, p) {
      var k: nat :| Up(t, p, k) == Some(id);
      FileHasNothingUnder(t, id, p, k);
    }
  }

  lemma OtherUnique(t: Table, id: Id, name: string, r: Option<Id>)
    requires UniqueNames(t)
    requires r.Some? ==> IsOther(t, id, name, r.value)
    requires r.None? ==> forall c | c in t :: !IsOther(t, id, name, c)
    ensures r == FindOther(t, id, name)
  {
    if r.Some? {
      assert IsOther(t, id, name, FindOther(t, id, name).value);
    }
  }

  /** A file is nobody's parent, so a change to its row is local. */
  lemma FileOutside(t: Table, u: Table, id: Id)
    requires Tree(t) && id in t && t[id].kind == File && u.Keys == t.Keys
    requires forall x | x in t && x != id :: t[x] == u[x]
    ensures SameOutside(t, u, {id})
  {
    forall x | x != id && IsReady(t, x) && t[x].parent.Some? ensures t[x].parent.value != id {
      assert x != ROOT;
      assert ParentRow(t, x);
    }
  }

  /** A publish keeps an exact index if the row's folder is live. */
  lemma PublishIndex(t: Table, id: Id, previous: Option<Id>, name: string, fts: Index)
    requires Tree(t) && Anchored(t) && IndexExact(t, fts) && "" !in t
    requires id in t && t[id].kind == File && t[id].status == Pending && ParentLive(t, id)
    requires previous == FindOther(t, id, name) && (previous.Some? ==> t[previous.value].kind == File)
    ensures var u := Published(t, id, previous, name);
      IndexExact(u, Upserted(u, if previous.Some? then Removed(fts, previous.value) else fts, id))
  {
    hide Shape, UniqueNames, FoldersAnchored, Anchored, StagedAnchored, IndexExact, ParentLive;
    var v := Published(t, id, previous, name);
    PublishKeepsTree(t, id, previous, name);
    if previous.Some? {
      var u := SetStatus(t, previous.value, Deleted);
      RootIsFolder(t);
      DeleteFileKeeps(t, previous.value);
      FileOutside(t, u, previous.value);
      RemoveKeepsExact(t, u, {previous.value}, fts);
      FileOutside(u, v, id);
      UpsertKeepsExact(u, v, id, Removed(fts, previous.value));
    } else {
      FileOutside(t, v, id);
      UpsertKeepsExact(t, v, id, fts);
    }
  }

  /** A publish row by row. */
  lemma PublishedRows(t: Table, id: Id, previous: Option<Id>, name: string)
    requires id in t && previous == FindOther(t, id, name)
    ensures Published(t, id, previous, name) == map x | x in t ::
      if x == id then t[x].(name := name, status := Ready)
      else if previous == Some(x) then t[x].(status := Deleted)
      else t[x]
  {}
}
