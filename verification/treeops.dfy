/** The statements that change the `nodes` table, as functions from table to
    table, and what each keeps of the tree. */
module TreeOps {
  import opened Wrappers
  import opened Nodes

  // ---- the statements ----

  function SetStatus(t: Table, id: Id, s: Status): Table
    requires id in t
  {
    t[id := t[id].(status := s)]
  }

  function SetName(t: Table, id: Id, name: string): Table
    requires id in t
  {
    t[id := t[id].(name := name)]
  }

  function SetSize(t: Table, id: Id, size: int): Table
    requires id in t
  {
    t[id := t[id].(size := size)]
  }

  function SetParent(t: Table, id: Id, parent: Id): Table
    requires id in t
  {
    t[id := t[id].(parent := Some(parent))]
  }

  /** `Replace` after its checks: the old holder of the name is deleted and the
      staged row takes the name and becomes ready. */
  function Published(t: Table, id: Id, previous: Option<Id>, name: string): Table
    requires id in t && (previous.Some? ==> previous.value in t)
  {
    var u := if previous.Some? then SetStatus(t, previous.value, Deleted) else t;
    u[id := u[id].(name := name, status := Ready)]
  }

  function DeleteRows(t: Table, d: set<Id>): Table {
    map x | x in t :: if x in d then t[x].(status := Deleted) else t[x]
  }

  /** `MoveToTrash`: every row its lists of ready children reach is deleted. */
  ghost function Trashed(t: Table, id: Id): Table {
    DeleteRows(t, ReadyDown(t, id))
  }

  /** `Purge`: the rows under `id` are removed. */
  ghost function Purged(t: Table, id: Id): Table {
    t - Subtree(t, id)
  }

  // ---- frames ----

  /** Both tables hold the rows of `s` with the same parents, and `s` is closed
      under taking parents. */
  ghost predicate SameParents(t: Table, u: Table, s: set<Id>) {
    forall x | x in s ::
      x in t && x in u && t[x].parent == u[x].parent && (t[x].parent.Some? ==> t[x].parent.value in s)
  }

  lemma {:induction false} UpFrame(t: Table, u: Table, s: set<Id>, x: Id, k: nat)
    requires SameParents(t, u, s) && x in s
    ensures Up(t, x, k) == Up(u, x, k)
    decreases k
  {
    if k > 0 && t[x].parent.Some? {
      UpFrame(t, u, s, t[x].parent.value, k - 1);
    }
  }

  lemma ReachFrame(t: Table, u: Table, s: set<Id>)
    requires SameParents(t, u, s)
    ensures forall x | x in s && ReachesRoot(t, x) :: ReachesRoot(u, x)
  {
    forall x | x in s && ReachesRoot(t, x) ensures ReachesRoot(u, x) {
      var k: nat :| Up(t, x, k) == Some(ROOT);
      UpFrame(t, u, s, x, k);
    }
  }

  lemma ShapeClosed(t: Table)
    requires Shape(t)
    ensures forall x | x in t && t[x].parent.Some? :: t[x].parent.value in t
  {
    forall x | x in t && t[x].parent.Some? ensures t[x].parent.value in t {
      assert x != ROOT;
      assert ParentRow(t, x);
    }
  }

  // ---- insert ----

  /** Only row `id` may clash, and it does not. */
  lemma OneRowUnique(t: Table, u: Table, id: Id)
    requires UniqueNames(t)
    requires forall x | x != id && Live(u, x) :: Live(t, x) && t[x].parent == u[x].parent && t[x].name == u[x].name
    requires forall x | x != id && Live(u, x) && Live(u, id) && u[id].parent.Some? && u[x].parent == u[id].parent ::
      u[x].name != u[id].name
    ensures UniqueNames(u)
  {
    forall a, b | Live(u, a) && Live(u, b) && u[a].parent.Some? && u[a].parent == u[b].parent && u[a].name == u[b].name
      ensures a == b
    {
      assert a != id && b != id ==> Live(t, a) && Live(t, b);
    }
  }

  lemma InsertKeepsShape(t: Table, id: Id, n: Node)
    requires Shape(t) && id !in t
    requires n.parent.Some? && LiveFolder(t, n.parent.value)
    requires n.kind == Folder ==> n.status == Ready
    ensures Shape(t[id := n])
  {
    var u := t[id := n];
    var p := n.parent.value;
    ShapeClosed(t);
    assert SameParents(t, u, t.Keys);
    ReachFrame(t, u, t.Keys);
    assert ReachesRoot(u, p);
    var k: nat :| Up(u, p, k) == Some(ROOT);
    assert Up(u, id, k + 1) == Some(ROOT);
    forall x | x in u && x != ROOT ensures ParentRow(u, x) {
      if x != id { assert ParentRow(t, x); }
    }
  }

  lemma InsertKeepsAnchors(t: Table, id: Id, n: Node)
    requires id !in t && n.parent.Some? && LiveFolder(t, n.parent.value)
    ensures FoldersAnchored(t) ==> FoldersAnchored(t[id := n])
    ensures Anchored(t) ==> Anchored(t[id := n])
    ensures StagedAnchored(t) ==> StagedAnchored(t[id := n])
  {
    var u := t[id := n];
    forall x | ParentLive(t, x) || x == id ensures ParentLive(u, x) {}
    assert forall x | x != id :: LiveFolder(u, x) ==> LiveFolder(t, x);
    assert forall x | x != id :: IsReady(u, x) ==> IsReady(t, x);
  }

  lemma InsertKeepsTree(t: Table, id: Id, n: Node)
    requires Tree(t) && id !in t
    requires n.parent.Some? && LiveFolder(t, n.parent.value)
    requires n.kind == Folder ==> n.status == Ready
    requires forall c :: !IsChild(t, n.parent.value, n.name, c)
    ensures Tree(t[id := n])
    ensures Anchored(t) ==> Anchored(t[id := n])
    ensures StagedAnchored(t) ==> StagedAnchored(t[id := n])
  {
    hide Shape, FoldersAnchored, Anchored, StagedAnchored, UniqueNames;
    var u := t[id := n];
    InsertKeepsShape(t, id, n);
    InsertKeepsAnchors(t, id, n);
    forall x | x != id && Live(u, x) && u[x].parent == n.parent ensures u[x].name != n.name {
      assert !IsChild(t, n.parent.value, n.name, x);
    }
    OneRowUnique(t, u, id);
  }

  // ---- updates of one row that keep its parent ----

  lemma UpdateKeepsShape(t: Table, id: Id, n: Node)
    requires Shape(t) && id in t && id != ROOT
    requires n.parent == t[id].parent && n.kind == t[id].kind
    requires n.kind == Folder ==> n.status != Pending
    ensures Shape(t[id := n])
  {
    var u := t[id := n];
    ShapeClosed(t);
    assert SameParents(t, u, t.Keys);
    ReachFrame(t, u, t.Keys);
    forall x | x in u && x != ROOT ensures ParentRow(u, x) {
      assert ParentRow(t, x);
    }
  }

  /** Same rows, same parents, same live rows. */
  ghost predicate SameLinks(t: Table, u: Table) {
    && t.Keys == u.Keys
    && forall x | x in t :: t[x].parent == u[x].parent && t[x].kind == u[x].kind && (Live(t, x) <==> Live(u, x))
  }

  lemma LinksKeepAnchors(t: Table, u: Table)
    requires SameLinks(t, u)
    ensures forall x :: ParentLive(t, x) <==> ParentLive(u, x)
    ensures FoldersAnchored(t) <==> FoldersAnchored(u)
  {
    forall x ensures ParentLive(t, x) <==> ParentLive(u, x) {}
    assert forall x :: LiveFolder(t, x) <==> LiveFolder(u, x);
  }

  lemma StatusKeepsAnchors(t: Table, u: Table)
    requires SameLinks(t, u) && forall x | x in t :: t[x].status == u[x].status
    ensures Anchored(t) ==> Anchored(u)
    ensures StagedAnchored(t) ==> StagedAnchored(u)
  {
    LinksKeepAnchors(t, u);
    assert forall x :: IsReady(u, x) <==> IsReady(t, x);
  }

  lemma SizeKeepsTree(t: Table, id: Id, size: int)
    requires Tree(t) && id in t && id != ROOT
    ensures Tree(SetSize(t, id, size))
    ensures Anchored(t) ==> Anchored(SetSize(t, id, size))
    ensures StagedAnchored(t) ==> StagedAnchored(SetSize(t, id, size))
  {
    hide Shape, FoldersAnchored, Anchored, StagedAnchored, UniqueNames;
    var u := SetSize(t, id, size);
    NoPendingFolder(t, id);
    UpdateKeepsShape(t, id, u[id]);
    LinksKeepAnchors(t, u);
    StatusKeepsAnchors(t, u);
    SameNamesUnique(t, u);
  }

  lemma SameNamesUnique(t: Table, u: Table)
    requires UniqueNames(t)
    requires forall x | Live(u, x) :: Live(t, x) && t[x].parent == u[x].parent && t[x].name == u[x].name
    ensures UniqueNames(u)
  {
    forall a, b | Live(u, a) && Live(u, b) && u[a].parent.Some? && u[a].parent == u[b].parent && u[a].name == u[b].name
      ensures a == b
    {
      assert Live(t, a) && Live(t, b);
    }
  }

  lemma RenameKeepsTree(t: Table, id: Id, name: string)
    requires Tree(t) && Live(t, id) && id != ROOT
    requires forall c | IsChild(t, t[id].parent.value, name, c) :: c == id
    ensures Tree(SetName(t, id, name))
    ensures Anchored(t) ==> Anchored(SetName(t, id, name))
    ensures StagedAnchored(t) ==> StagedAnchored(SetName(t, id, name))
  {
    hide Shape, FoldersAnchored, Anchored, StagedAnchored, UniqueNames;
    var u := SetName(t, id, name);
    RowParent(t, id);
    NoPendingFolder(t, id);
    UpdateKeepsShape(t, id, u[id]);
    LinksKeepAnchors(t, u);
    StatusKeepsAnchors(t, u);
    forall x | x != id && Live(u, x) && u[x].parent == u[id].parent ensures u[x].name != name {
      assert IsChild(t, t[id].parent.value, name, x) ==> x == id;
    }
    OneRowUnique(t, u, id);
  }

  /** Deleting one row keeps the tree when no live folder is left below it. */
  lemma DeleteRowKeepsTree(t: Table, id: Id)
    requires Tree(t) && id in t && id != ROOT
    requires forall c | LiveFolder(t, c) :: t[c].parent != Some(id)
    ensures Tree(SetStatus(t, id, Deleted))
  {
    var u := SetStatus(t, id, Deleted);
    UpdateKeepsShape(t, id, u[id]);
    forall x | LiveFolder(u, x) && x != ROOT ensures ParentLive(u, x) {
      assert LiveFolder(t, x) && ParentLive(t, x);
    }
  }

  /** Deleting a file keeps everything. */
  lemma DeleteFileKeeps(t: Table, id: Id)
    requires Tree(t) && id in t && id != ROOT && t[id].kind == File
    ensures Tree(SetStatus(t, id, Deleted))
    ensures Anchored(t) ==> Anchored(SetStatus(t, id, Deleted))
    ensures StagedAnchored(t) ==> StagedAnchored(SetStatus(t, id, Deleted))
  {
    var u := SetStatus(t, id, Deleted);
    forall c | c in t && c != ROOT ensures t[c].parent != Some(id) {
      assert ParentRow(t, c);
    }
    DeleteRowKeepsTree(t, id);
    assert forall x | x != id :: ParentLive(t, x) ==> ParentLive(u, x);
  }

  // ---- publish ----

  predicate IsOther(t: Table, id: Id, name: string, c: Id) {
    c != id && Live(t, c) && id in t && t[id].parent.Some? && t[c].parent == t[id].parent && t[c].name == name
  }

  /** The other live row that holds `name` next to `id`. */
  ghost function FindOther(t: Table, id: Id, name: string): (r: Option<Id>)
    ensures r.Some? ==> IsOther(t, id, name, r.value)
    ensures r.None? ==> forall c :: !IsOther(t, id, name, c)
  {
    if c :| IsOther(t, id, name, c) then Some(c) else None
  }

  /** A file becomes ready under a free name. It is anchored exactly when its
      folder is still live. */
  lemma PublishFree(t: Table, id: Id, name: string)
    requires Tree(t) && Live(t, id) && t[id].kind == File
    requires forall c :: !IsOther(t, id, name, c)
    ensures Tree(Published(t, id, None, name))
    ensures Anchored(t) ==> (Anchored(Published(t, id, None, name)) <==> ParentLive(t, id))
    ensures StagedAnchored(t) ==> StagedAnchored(Published(t, id, None, name))
  {
    hide Shape, FoldersAnchored, Anchored, StagedAnchored, UniqueNames;
    var u := Published(t, id, None, name);
    RootIsFolder(t);
    UpdateKeepsShape(t, id, u[id]);
    LinksKeepAnchors(t, u);
    forall x | x != id && Live(u, x) && u[id].parent.Some? && u[x].parent == u[id].parent ensures u[x].name != name {
      assert !IsOther(t, id, name, x);
    }
    OneRowUnique(t, u, id);
    PublishAnchors(t, u, id);
  }

  lemma PublishAnchors(t: Table, u: Table, id: Id)
    requires SameLinks(t, u) && id in t && id != ROOT && u[id].status == Ready
    requires forall x | x in t && x != id :: t[x].status == u[x].status
    ensures Anchored(t) ==> (Anchored(u) <==> ParentLive(t, id))
    ensures StagedAnchored(t) ==> StagedAnchored(u)
  {
    LinksKeepAnchors(t, u);
    assert IsReady(u, id);
    assert forall x | x != id :: IsReady(u, x) <==> IsReady(t, x);
  }

  /** Once the old holder is deleted the name is free, and the folder's status is untouched. */
  lemma FreedName(t: Table, id: Id, holder: Id, name: string)
    requires UniqueNames(t) && IsOther(t, id, name, holder) && ParentRow(t, id) && t[holder].kind == File
    ensures forall c :: !IsOther(SetStatus(t, holder, Deleted), id, name, c)
    ensures ParentLive(t, id) <==> ParentLive(SetStatus(t, holder, Deleted), id)
  {
    forall c ensures !IsOther(SetStatus(t, holder, Deleted), id, name, c) {
      if IsOther(SetStatus(t, holder, Deleted), id, name, c) {
        assert IsOther(t, id, name, c);
      }
    }
  }

  /** `Replace` keeps the tree; it keeps ready rows anchored exactly when the
      staged file's folder is still live. */
  lemma PublishKeepsTree(t: Table, id: Id, previous: Option<Id>, name: string)
    requires Tree(t) && id in t && t[id].kind == File && t[id].status == Pending
    requires previous == FindOther(t, id, name)
    requires previous.Some? ==> t[previous.value].kind == File
    ensures Tree(Published(t, id, previous, name))
    ensures Anchored(t) ==> (Anchored(Published(t, id, previous, name)) <==> ParentLive(t, id))
    ensures StagedAnchored(t) ==> StagedAnchored(Published(t, id, previous, name))
  {
    if previous.Some? {
      PublishOver(t, id, previous.value, name);
    } else {
      PublishFree(t, id, name);
    }
  }

  lemma PublishOver(t: Table, id: Id, holder: Id, name: string)
    requires Tree(t) && id in t && t[id].kind == File && t[id].status == Pending
    requires IsOther(t, id, name, holder) && t[holder].kind == File
    ensures Tree(Published(t, id, Some(holder), name))
    ensures Anchored(t) ==> (Anchored(Published(t, id, Some(holder), name)) <==> ParentLive(t, id))
    ensures StagedAnchored(t) ==> StagedAnchored(Published(t, id, Some(holder), name))
  {
    var u := SetStatus(t, holder, Deleted);
    assert Published(t, id, Some(holder), name) == Published(u, id, None, name);
    assert Tree(u) && (Anchored(t) ==> Anchored(u)) && (StagedAnchored(t) ==> StagedAnchored(u)) by {
      DeleteFileKeeps(t, holder);
    }
    assert (forall c :: !IsOther(u, id, name, c)) && (ParentLive(t, id) <==> ParentLive(u, id)) by {
      assert ParentRow(t, id);
      FreedName(t, id, holder, name);
    }
    PublishFree(u, id, name);
  }

  /** The dedup upload becomes ready under its own name: same law. */
  lemma ReadyKeepsTree(t: Table, id: Id)
    requires Tree(t) && Live(t, id) && t[id].kind == File
    ensures Tree(SetStatus(t, id, Ready))
    ensures Anchored(t) ==> (Anchored(SetStatus(t, id, Ready)) <==> ParentLive(t, id))
    ensures StagedAnchored(t) ==> StagedAnchored(SetStatus(t, id, Ready))
  {
    PublishFree(t, id, t[id].name);
    assert SetStatus(t, id, Ready) == Published(t, id, None, t[id].name);
  }

  // ---- move ----

  lemma {:induction false} FileHasNothingUnder(t: Table, id: Id, x: Id, k: nat)
    requires Shape(t) && id in t && t[id].kind == File
    requires Up(t, x, k) == Some(id)
    ensures x == id
    decreases k
  {
    if k > 0 {
      assert x != ROOT;
      assert ParentRow(t, x);
      FileHasNothingUnder(t, id, t[x].parent.value, k - 1);
    }
  }

  lemma {:induction false} MovedReach(t: Table, id: Id, p: Id, x: Id, k: nat)
    requires Shape(t) && id in t && id != ROOT && ReachesRoot(SetParent(t, id, p), id)
    requires x in t && Up(t, x, k) == Some(ROOT)
    ensures ReachesRoot(SetParent(t, id, p), x)
    decreases k
  {
    var u := SetParent(t, id, p);
    if k == 0 {
      assert Up(u, x, 0) == Some(ROOT);
    } else if x != id {
      var q := t[x].parent.value;
      assert x != ROOT;
      assert ParentRow(t, x);
      MovedReach(t, id, p, q, k - 1);
      var j: nat :| Up(u, q, j) == Some(ROOT);
      assert Up(u, x, j + 1) == Some(ROOT);
    }
  }

  lemma MoveKeepsShape(t: Table, id: Id, p: Id)
    requires Shape(t) && id in t && id != ROOT
    requires LiveFolder(t, p) && !Under(t, id, p)
    ensures Shape(SetParent(t, id, p))
  {
    var u := SetParent(t, id, p);
    var s := set x | x in t && !Under(t, id, x);
    assert SameParents(t, u, s) by {
      UnderSelf(t, id);
      forall x | x in s && t[x].parent.Some? ensures t[x].parent.value in s {
        ShapeClosed(t);
        if Under(t, id, t[x].parent.value) { UnderParent(t, id, x); }
      }
    }
    ReachFrame(t, u, s);
    assert ReachesRoot(u, p);
    var k: nat :| Up(u, p, k) == Some(ROOT);
    assert Up(u, id, k + 1) == Some(ROOT);
    forall x | x in u ensures ReachesRoot(u, x) {
      var j: nat :| Up(t, x, j) == Some(ROOT);
      MovedReach(t, id, p, x, j);
    }
    forall x | x in u && x != ROOT ensures ParentRow(u, x) {
      assert ParentRow(t, x);
    }
  }

  lemma MoveKeepsTree(t: Table, id: Id, p: Id)
    requires Tree(t) && Live(t, id) && id != ROOT
    requires LiveFolder(t, p) && !Under(t, id, p)
    requires forall c | IsChild(t, p, t[id].name, c) :: c == id
    ensures Tree(SetParent(t, id, p))
    ensures Anchored(t) ==> Anchored(SetParent(t, id, p))
    ensures StagedAnchored(t) ==> StagedAnchored(SetParent(t, id, p))
  {
    hide Shape, FoldersAnchored, Anchored, StagedAnchored, UniqueNames, Under;
    var u := SetParent(t, id, p);
    MoveKeepsShape(t, id, p);
    MoveKeepsAnchors(t, id, p);
    forall x | x != id && Live(u, x) && u[x].parent == Some(p) ensures u[x].name != t[id].name {
      assert IsChild(t, p, t[id].name, x) ==> x == id;
    }
    OneRowUnique(t, u, id);
  }

  /** Moving a live folder to a live folder changes nothing about which rows are anchored. */
  lemma MoveFolderAnchored(t: Table, id: Id, p: Id)
    requires FoldersAnchored(t) && LiveFolder(t, id) && id != ROOT && LiveFolder(t, p)
    ensures Anchored(SetParent(t, id, p)) <==> Anchored(t)
  {
    var u := SetParent(t, id, p);
    assert ParentLive(t, id);
    forall x ensures ParentLive(t, x) <==> ParentLive(u, x) {}
    assert forall x :: IsReady(u, x) <==> IsReady(t, x);
  }

  lemma MoveKeepsAnchors(t: Table, id: Id, p: Id)
    requires id in t && LiveFolder(t, p)
    ensures FoldersAnchored(t) ==> FoldersAnchored(SetParent(t, id, p))
    ensures Anchored(t) ==> Anchored(SetParent(t, id, p))
    ensures StagedAnchored(t) ==> StagedAnchored(SetParent(t, id, p))
  {
    var u := SetParent(t, id, p);
    forall x | ParentLive(t, x) || x == id ensures ParentLive(u, x) {}
    assert forall x :: LiveFolder(u, x) <==> LiveFolder(t, x);
    assert forall x :: IsReady(u, x) <==> IsReady(t, x);
  }

  // ---- trash ----

  lemma RootNotDown(t: Table, id: Id)
    requires RootRow(t) && id != ROOT
    ensures ROOT !in ReadyDown(t, id)
  {
    if Down(t, id, ROOT) {
      DownParent(t, id, ROOT);
    }
  }

  /** The folder of a row below the trashed one goes with it; a ready row outside
      stays under a row outside. */
  lemma OutsideDown(t: Table, id: Id, x: Id)
    requires IsReady(t, x) && t[x].parent.Some? && x !in ReadyDown(t, id)
    ensures t[x].parent.value !in ReadyDown(t, id)
  {
    if t[x].parent.value in ReadyDown(t, id) {
      DownSelf(t, id);
      DownChild(t, id, x);
    }
  }

  /** An unfinished upload, other than the trashed row, sits in a folder being trashed. */
  ghost predicate PendingInside(t: Table, id: Id) {
    exists x :: x in t && x != id && t[x].status == Pending && t[x].parent.Some? &&
      t[x].parent.value in ReadyDown(t, id)
  }

  lemma TrashKeepsShape(t: Table, id: Id)
    requires Shape(t) && id in t && id != ROOT
    ensures Shape(Trashed(t, id))
  {
    var u := Trashed(t, id);
    RootNotDown(t, id);
    ShapeClosed(t);
    assert SameParents(t, u, t.Keys);
    ReachFrame(t, u, t.Keys);
    forall x | x in u && x != ROOT ensures ParentRow(u, x) {
      assert ParentRow(t, x);
    }
  }

  lemma TrashKeepsTree(t: Table, id: Id)
    requires Tree(t) && Live(t, id) && id != ROOT
    ensures Tree(Trashed(t, id))
    ensures Anchored(t) ==> Anchored(Trashed(t, id))
  {
    var u := Trashed(t, id);
    TrashKeepsShape(t, id);
    forall x | LiveFolder(u, x) && x != ROOT ensures ParentLive(u, x) {
      assert LiveFolder(t, x) && ParentLive(t, x) && ParentRow(t, x);
      OutsideDown(t, id, x);
    }
    if Anchored(t) {
      forall x | IsReady(u, x) && x != ROOT ensures ParentLive(u, x) {
        assert IsReady(t, x) && ParentLive(t, x) && ParentRow(t, x);
        OutsideDown(t, id, x);
      }
    }
  }

  /** Trashing strands an unfinished upload exactly when one sits in a trashed folder. */
  lemma TrashStrands(t: Table, id: Id)
    requires Tree(t) && Live(t, id) && id != ROOT && StagedAnchored(t)
    ensures StagedAnchored(Trashed(t, id)) <==> !PendingInside(t, id)
  {
    var u := Trashed(t, id);
    forall x | x in t && t[x].status == Pending && x != id ensures x !in ReadyDown(t, id) {
      if Down(t, id, x) { DownParent(t, id, x); }
    }
    if PendingInside(t, id) {
      var x :| x in t && x != id && t[x].status == Pending && t[x].parent.Some? &&
        t[x].parent.value in ReadyDown(t, id);
      assert u[x].status == Pending && !ParentLive(u, x);
    } else {
      forall x | x in u && u[x].status == Pending ensures ParentLive(u, x) {
        assert t[x].status == Pending && ParentLive(t, x);
        assert ParentRow(t, x);
      }
    }
  }

  // ---- purge ----

  ghost predicate AllDeletedUnder(t: Table, id: Id) {
    forall x | x in Subtree(t, id) :: t[x].status == Deleted
  }

  /** Whatever hangs below a row of `d` is in `d`. */
  ghost predicate DownClosed(t: Table, d: set<Id>) {
    forall x | x in t && t[x].parent.Some? && t[x].parent.value in d :: x in d
  }

  lemma SubtreeDownClosed(t: Table, id: Id)
    ensures DownClosed(t, Subtree(t, id))
  {
    forall x | x in t && t[x].parent.Some? && t[x].parent.value in Subtree(t, id) ensures x in Subtree(t, id) {
      UnderParent(t, id, x);
    }
  }

  lemma RemoveSameParents(t: Table, d: set<Id>)
    requires Shape(t) && DownClosed(t, d)
    ensures SameParents(t, t - d, (t - d).Keys)
  {
    ShapeClosed(t);
  }

  lemma RemoveKeepsShape(t: Table, d: set<Id>)
    requires Shape(t) && DownClosed(t, d) && ROOT !in d
    ensures Shape(t - d)
  {
    var u := t - d;
    RemoveSameParents(t, d);
    ReachFrame(t, u, u.Keys);
    forall x | x in u && x != ROOT ensures ParentRow(u, x) {
      assert ParentRow(t, x);
    }
  }

  lemma RemoveKeepsTree(t: Table, d: set<Id>)
    requires Tree(t) && DownClosed(t, d) && forall x | x in d && x in t :: t[x].status == Deleted
    ensures Tree(t - d)
    ensures Anchored(t) ==> Anchored(t - d)
    ensures StagedAnchored(t) ==> StagedAnchored(t - d)
  {
    var u := t - d;
    RemoveKeepsShape(t, d);
    forall x | x in u && ParentLive(t, x) ensures ParentLive(u, x) {
      assert t[x].parent.value in u;
    }
    assert forall x :: LiveFolder(u, x) ==> LiveFolder(t, x);
    assert forall x :: IsReady(u, x) ==> IsReady(t, x);
    SameNamesUnique(t, u);
  }

  lemma PurgeKeepsTree(t: Table, id: Id)
    requires Tree(t) && AllDeletedUnder(t, id)
    ensures Tree(Purged(t, id))
    ensures Anchored(t) ==> Anchored(Purged(t, id))
    ensures StagedAnchored(t) ==> StagedAnchored(Purged(t, id))
  {
    SubtreeDownClosed(t, id);
    RemoveKeepsTree(t, Subtree(t, id));
  }

  /** Removing rows elsewhere leaves the rest of a subtree as it was. */
  lemma SubtreeAfterRemove(t: Table, d: set<Id>, id: Id)
    requires Shape(t) && DownClosed(t, d)
    ensures Subtree(t - d, id) == Subtree(t, id) - d
  {
    var u := t - d;
    RemoveSameParents(t, d);
    forall x | x in u ensures Under(t, id, x) <==> Under(u, id, x) {
      if Under(t, id, x) {
        var k: nat :| Up(t, x, k) == Some(id);
        UpFrame(t, u, u.Keys, x, k);
      }
      if Under(u, id, x) {
        var k: nat :| Up(u, x, k) == Some(id);
        UpFrame(t, u, u.Keys, x, k);
      }
    }
  }

  lemma SubtreeAfterDelete(t: Table, d: set<Id>, id: Id)
    requires Shape(t)
    ensures Subtree(DeleteRows(t, d), id) == Subtree(t, id)
  {
    var u := DeleteRows(t, d);
    ShapeClosed(t);
    assert SameParents(t, u, t.Keys);
    forall x | x in u ensures Under(t, id, x) <==> Under(u, id, x) {
      if Under(t, id, x) {
        var k: nat :| Up(t, x, k) == Some(id);
        UpFrame(t, u, t.Keys, x, k);
      }
      if Under(u, id, x) {
        var k: nat :| Up(u, x, k) == Some(id);
        UpFrame(t, u, t.Keys, x, k);
      }
    }
  }

  // ---- the recursion of MoveToTrash ----

  lemma {:induction false} DownByAfterDelete(t: Table, d: set<Id>, c: Id, x: Id, k: nat)
    requires d !! Subtree(t, c) && c in t
    ensures DownBy(DeleteRows(t, d), c, x, k) <==> DownBy(t, c, x, k)
    decreases k
  {
    if k > 0 && IsReady(t, x) && t[x].parent.Some? {
      DownByAfterDelete(t, d, c, t[x].parent.value, k - 1);
      if DownBy(t, c, x, k) {
        DownByUp(t, c, x, k);
        assert x in Subtree(t, c);
      }
    }
  }

  /** Trashing one child leaves what its siblings' lists reach as it was. */
  lemma ReadyDownAfterDelete(t: Table, d: set<Id>, c: Id)
    requires d !! Subtree(t, c) && c in t
    ensures ReadyDown(DeleteRows(t, d), c) == ReadyDown(t, c)
  {
    var u := DeleteRows(t, d);
    forall x | x in t ensures Down(u, c, x) <==> Down(t, c, x) {
      if Down(t, c, x) {
        var k: nat :| DownBy(t, c, x, k);
        DownByAfterDelete(t, d, c, x, k);
      }
      if Down(u, c, x) {
        var k: nat :| DownBy(u, c, x, k);
        DownByAfterDelete(t, d, c, x, k);
      }
    }
  }

  ghost function DownOfAll(t: Table, ids: seq<Id>): set<Id> {
    set c, x | c in ids && x in ReadyDown(t, c) :: x
  }

  /** Trashing a row is trashing each of its ready children, then the row. */
  lemma ReadyDownByChildren(t: Table, id: Id, children: seq<Id>)
    requires forall c :: c in children <==> ReadyChild(t, id, c)
    ensures ReadyDown(t, id) == DownOfAll(t, children) + {id}
  {
    forall x | x in ReadyDown(t, id) && x != id ensures x in DownOfAll(t, children) {
      var k: nat :| DownBy(t, id, x, k);
      LastChild(t, id, x, k);
    }
    forall x | x in DownOfAll(t, children) ensures x in ReadyDown(t, id) {
      var c :| c in children && x in ReadyDown(t, c);
      DownSelf(t, id);
      DownChild(t, id, c);
      if x != c { DownTrans(t, id, c, x); }
    }
  }

  lemma {:induction false} LastChild(t: Table, id: Id, x: Id, k: nat)
    requires DownBy(t, id, x, k) && k > 0
    ensures exists c :: ReadyChild(t, id, c) && x in ReadyDown(t, c)
    decreases k
  {
    if k == 1 {
      assert DownBy(t, id, t[x].parent.value, 0);
      assert ReadyChild(t, id, x) && x in ReadyDown(t, x);
    } else {
      var p := t[x].parent.value;
      LastChild(t, id, p, k - 1);
      var c :| ReadyChild(t, id, c) && p in ReadyDown(t, c);
      DownSelf(t, c);
      DownChild(t, c, x);
      assert x in ReadyDown(t, c);
    }
  }

  lemma DownTrans(t: Table, a: Id, b: Id, x: Id)
    requires Down(t, a, b) && Down(t, b, x)
    ensures Down(t, a, x)
  {
    var k: nat :| DownBy(t, b, x, k);
    DownByTrans(t, a, b, x, k);
  }

  lemma {:induction false} DownByTrans(t: Table, a: Id, b: Id, x: Id, k: nat)
    requires Down(t, a, b) && DownBy(t, b, x, k)
    ensures Down(t, a, x)
    decreases k
  {
    if k > 0 {
      DownByTrans(t, a, b, t[x].parent.value, k - 1);
      DownChild(t, a, x);
    }
  }
}
