/** The drive services: validation, the recursive trash and the purge. */
module Services {
  import opened Wrappers
  import opened Nodes
  import opened TreeOps
  import opened SearchIndex
  import opened Stores
  import opened Text

  const TRASH_BATCH: nat := 500

  /** No live row hangs under a deleted one. */
  ghost predicate Kept(t: Table) {
    Anchored(t) && StagedAnchored(t)
  }

  function FolderRow(parent: Id, name: string): Node {
    Node(Some(parent), name, Folder, "inode/directory", 0, Ready, 0)
  }

  /** What the service's `Move` accepts. */
  ghost predicate Reachable(t: Table, id: Id, p: Id) {
    id in t && LiveFolder(t, p) && Movable(t, id, p)
  }

  /** The index after a move. */
  ghost predicate MoveIndex(t: Table, f: Index, id: Id, p: Id, u: Table, g: Index)
    requires id in t
  {
    if t[id].parent == Some(p) then g == f
    else if t[id].kind == Folder then Rebuilt(u, g) && IndexSound(u, g)
    else g == Upserted(u, f, id)
  }

  class Drive {
    const store: Store

    constructor (store: Store)
      ensures this.store == store
    {
      this.store := store;
    }

    /** `Mkdir`. It asks only that the parent is live, so the tree is kept exactly when
        the parent is not a file. */
    method Mkdir(id: Id, parent: Id, name: string) returns (r: Done)
      requires store.Valid() && id != "" && id !in store.nodes
      modifies store
      ensures r.Ok? <==>
                ValidName(name) && old(Live(store.nodes, Dest(parent)) &&
                  FindChild(store.nodes, Dest(parent), name).None?)
      ensures r.Ok? ==> store.nodes == old(store.nodes)[
        id := Node(Some(if parent == "" then ROOT else parent), name, Folder, "inode/directory", 0, Ready, 0)]
      ensures r.Ok? ==> store.fts == Upserted(store.nodes, old(store.fts), id)
      ensures r.Ok? ==> unchanged(store`parts) && unchanged(store`hashes)
      ensures r.Err? ==> unchanged(store)
      ensures r.Ok? ==> (store.Valid() <==> old(LiveFolder(store.nodes, Dest(parent))))
      ensures old(store.InStep()) && store.Valid() ==> store.InStep()
      ensures old(StagedAnchored(store.nodes)) && store.Valid() ==> StagedAnchored(store.nodes)
    {
      hide Shape, UniqueNames, FoldersAnchored, Anchored, StagedAnchored, IndexExact, ParentLive;
      if !ValidName(name) {
        return Err(Validation);
      }
      var pid := Dest(parent);
      if !Live(store.nodes, pid) {
        return Err(NotFound);
      }
      ghost var t, f := store.nodes, store.fts;
      var n := FolderRow(pid, name);
      r := store.Create(id, n);
      if r.Ok? {
        assert FindChild(t, pid, name).None?;
        if LiveFolder(t, pid) {
          InsertKeepsTree(t, id, n);
          InsertIndex(t, id, n, f);
        } else if store.Valid() {
          RootIsFolder(t);
          RowParent(store.nodes, id);
        }
      }
    }

    /** `Rename`, with `name` as typed. */
    method Rename(id: Id, name: string) returns (r: Done)
      requires store.Valid()
      modifies store
      ensures store.Valid()
      ensures var n := TrimSpace(name);
        r.Ok? <==> ValidName(n) && id != ROOT && old(Live(store.nodes, id)) &&
                   (old(store.nodes[id].name == n) || old(FindOther(store.nodes, id, n).None?))
      ensures r.Ok? ==> store.nodes == old(store.nodes)[id := old(store.nodes)[id].(name := TrimSpace(name))]
      ensures r.Ok? ==> if old(store.nodes)[id].name == TrimSpace(name) then store.fts == old(store.fts)
                        else if old(store.nodes)[id].kind == Folder then Rebuilt(store.nodes, store.fts)
                        else store.fts == Upserted(store.nodes, old(store.fts), id)
      ensures unchanged(store`parts) && unchanged(store`hashes)
      ensures r.Err? ==> unchanged(store)
      ensures old(store.InStep()) ==> store.InStep()
      ensures old(StagedAnchored(store.nodes)) ==> StagedAnchored(store.nodes)
    {
      hide Shape, UniqueNames, FoldersAnchored, Anchored, StagedAnchored, IndexExact, ParentLive;
      var n := TrimSpace(name);
      if !ValidName(n) || id == ROOT {
        return Err(Validation);
      }
      if !Live(store.nodes, id) {
        return Err(NotFound);
      }
      if store.nodes[id].name == n {
        assert store.nodes == SetName(store.nodes, id, n);
        return Ok(());
      }
      RowParent(store.nodes, id);
      var existing := store.FindChildByName(store.nodes[id].parent.value, n);
      if existing.Some? && existing.value != id {
        assert IsOther(store.nodes, id, n, existing.value);
        return Err(Conflict);
      }
      assert forall c | IsOther(store.nodes, id, n, c) :: IsChild(store.nodes, store.nodes[id].parent.value, n, c);
      r := store.Rename(id, n);
    }

    /** `Move`: the service asks in addition that the target is a live folder, also
        where nothing is to be moved. */
    method Move(id: Id, target: string) returns (r: Done)
      requires store.Valid()
      modifies store`nodes, store`fts
      ensures store.Valid()
      ensures var p := Dest(TrimSpace(target));
        r.Ok? <==> old(Reachable(store.nodes, id, p) &&
                       (store.nodes[id].parent == Some(p) || store.nodes[id].kind == File || Anchored(store.nodes)))
      ensures var p := Dest(TrimSpace(target));
        if old(Reachable(store.nodes, id, p))
        then store.nodes == Moved(old(store.nodes), id, p) &&
          MoveIndex(old(store.nodes), old(store.fts), id, p, store.nodes, store.fts)
        else unchanged(store)
      ensures old(store.InStep()) ==> store.InStep()
      ensures old(StagedAnchored(store.nodes)) ==> StagedAnchored(store.nodes)
    {
      hide Shape, UniqueNames, FoldersAnchored, Anchored, StagedAnchored, IndexExact, ParentLive, Movable, IndexSound;
      var p := Dest(TrimSpace(target));
      RootIsFolder(store.nodes);
      if id == ROOT || id == p {
        NotMovable(store.nodes, id, p);
        return Err(Validation);
      }
      if !Live(store.nodes, id) {
        NotMovable(store.nodes, id, p);
        return Err(NotFound);
      }
      if p != ROOT {
        if !Live(store.nodes, p) {
          return Err(NotFound);
        }
        if store.nodes[p].kind != Folder {
          return Err(Validation);
        }
      }
      assert LiveFolder(store.nodes, p);
      assert Dest(p) == p;
      MovableLive(store.nodes, id, p);
      r := store.Move(id, p);
    }

    /** `MoveToTrash`: ready children first, then the row itself. */
    method MoveToTrash(id: Id) returns (r: Done)
      requires store.Valid()
      modifies store`nodes, store`fts
      ensures store.Valid()
      ensures r.Ok? <==> id != ROOT && old(Live(store.nodes, id))
      ensures r.Ok? ==>
        store.nodes == (map x | x in old(store.nodes) ::
          if x in ReadyDown(old(store.nodes), id) then old(store.nodes)[x].(status := Deleted)
            else old(store.nodes)[x]) &&
        store.fts == old(store.fts) - ReadyDown(old(store.nodes), id)
      ensures r.Err? ==> unchanged(store)
      ensures old(store.InStep()) ==> store.InStep()
      ensures r.Ok? && old(StagedAnchored(store.nodes)) ==>
        (StagedAnchored(store.nodes) <==> !old(PendingInside(store.nodes, id)))
      decreases Subtree(store.nodes, id)
    {
      hide Shape, UniqueNames, FoldersAnchored, Subtree, ReadyDown, DownOfAll, Anchored, StagedAnchored, IndexExact,
        PendingInside;
      if !Live(store.nodes, id) {
        return Err(NotFound);
      }
      if id == ROOT {
        return Err(Validation);
      }
      ghost var t := store.nodes;
      ghost var d: set<Id> := {};
      if store.nodes[id].kind == Folder {
        var children := store.ListChildren(id);
        var i := 0;
        NoChildrenYet(t, children);
        while i < |children|
          invariant 0 <= i <= |children|
          invariant store.Valid() && unchanged(store`parts) && unchanged(store`hashes)
          invariant d == DownOfAll(t, children[..i])
          invariant store.nodes == DeleteRows(t, d)
          invariant store.fts == old(store.fts) - d
        {
          var c := children[i];
          TrashChild(t, id, children, i);
          r := MoveToTrash(c);
          assert r.Ok?;
          DeleteRowsTwice(t, d, ReadyDown(t, c));
          d := d + ReadyDown(t, c);
          i := i + 1;
        }
        assert children[..i] == children;
        ReadyDownByChildren(t, id, children);
      } else {
        FileDown(t, id);
      }
      TrashSelf(t, id, d);
      TrashKeepsTree(t, id);
      r := store.SoftDelete(id);
      assert store.nodes == Trashed(t, id);
      assert store.nodes.Keys == t.Keys;
      if Anchored(t) && IndexExact(t, old(store.fts)) {
        TrashKeepsExact(t, id, old(store.fts));
      }
      if StagedAnchored(t) {
        TrashStrands(t, id);
      }
    }

    /** `Purge` of a deleted row: deleted children first, then the row, which the
        foreign key keeps while it has children left. `gone` are the rows removed,
        also when a purge stops half way. */
    method Purge(id: Id) returns (r: Done, ghost gone: set<Id>)
      requires store.Valid()
      modifies store
      ensures store.Valid()
      ensures gone <= old(Subtree(store.nodes, id)) && gone <= old(store.nodes.Keys) &&
        DownClosed(old(store.nodes), gone)
      ensures forall x | x in gone :: old(store.nodes)[x].status == Deleted
      ensures r.Ok? <==> old(id in store.nodes && AllDeletedUnder(store.nodes, id))
      ensures r.Ok? ==> gone == old(Subtree(store.nodes, id))
      ensures store.nodes == old(store.nodes) - gone && store.parts == old(store.parts) - gone
      ensures store.hashes == HashesWithout(old(store.hashes), gone) && store.fts == old(store.fts) - gone
      decreases Subtree(store.nodes, id)
    {
      hide Shape, UniqueNames, FoldersAnchored, Subtree, DownClosed, AllDeletedUnder, SubtreeOfAll, HasChildRow,
        HashesWithout;
      gone := {};
      NothingGone(store.nodes);
      RootStays(store.nodes, id);
      if id !in store.nodes || store.nodes[id].status != Deleted {
        return Err(NotFound), gone;
      }
      ghost var t := store.nodes;
      if store.nodes[id].kind == Folder {
        var children := store.ListDeletedChildren(id);
        var i := 0;
        while i < |children|
          invariant 0 <= i <= |children|
          invariant store.Valid()
          invariant gone == SubtreeOfAll(t, children[..i]) && gone <= Subtree(t, id) && gone <= t.Keys &&
            DownClosed(t, gone)
          invariant forall x | x in gone :: t[x].status == Deleted
          invariant forall c | c in children[..i] :: AllDeletedUnder(t, c)
          invariant store.nodes == t - gone && store.parts == old(store.parts) - gone
          invariant store.hashes == HashesWithout(old(store.hashes), gone) && store.fts == old(store.fts) - gone
        {
          var c := children[i];
          PurgeChild(t, id, children, i);
          ghost var more;
          r, more := Purge(c);
          PurgeMore(t, id, c, gone, more);
          gone := gone + more;
          if r.Err? {
            return r, gone;
          }
          i := i + 1;
        }
        assert children[..i] == children;
        LastRow(t, id, children);
      } else {
        store.parts := store.parts - {id};
        LeafRow(t, id);
      }
      HashesWithoutBoth(old(store.hashes), gone, {id});
      HashesWithoutOne(store.hashes, id);
      r := store.HardDelete(id);
      if r.Ok? {
        gone := gone + {id};
      }
      WholeSubtree(t, id, gone);
      HashesStay(old(store.hashes), t, gone);
      if r.Ok? {
        assert store.nodes == t - gone;
        assert Tree(store.nodes);
      }
    }

    /** `EmptyTrash`: purge up to `TRASH_BATCH` trash roots. It removes deleted rows
        only; with no live row under a deleted one it succeeds, and it leaves no
        deleted row exactly when there were at most `TRASH_BATCH` roots. */
    method EmptyTrash() returns (r: Done, ghost gone: set<Id>)
      requires store.Valid()
      modifies store
      ensures store.Valid()
      ensures gone <= old(store.nodes.Keys) && DownClosed(old(store.nodes), gone)
      ensures forall x | x in gone :: old(store.nodes)[x].status == Deleted
      ensures store.nodes == old(store.nodes) - gone && store.parts == old(store.parts) - gone
      ensures store.hashes == HashesWithout(old(store.hashes), gone) && store.fts == old(store.fts) - gone
      ensures old(Kept(store.nodes)) ==> r.Ok?
      ensures old(Kept(store.nodes)) ==>
                ((forall x | x in store.nodes :: store.nodes[x].status != Deleted) <==>
                  |TrashRoots(old(store.nodes))| <= TRASH_BATCH)
    {
      hide Shape, UniqueNames, FoldersAnchored, Subtree, DownClosed, AllDeletedUnder, SubtreeOfAll, HasChildRow, Kept,
        TrashRoot;
      var roots := store.ListTrashRoots(TRASH_BATCH);
      ghost var t := store.nodes;
      gone := {};
      NothingGone(t);
      var i := 0;
      r := Ok(());
      while i < |roots|
        invariant 0 <= i <= |roots|
        invariant store.Valid() && r.Ok?
        invariant gone == SubtreeOfAll(t, roots[..i]) && gone <= t.Keys && DownClosed(t, gone)
        invariant forall x | x in gone :: t[x].status == Deleted
        invariant store.nodes == t - gone && store.parts == old(store.parts) - gone
        invariant store.hashes == HashesWithout(old(store.hashes), gone) && store.fts == old(store.fts) - gone
      {
        if Kept(t) {
          NextRoot(t, roots, i);
        }
        ghost var more;
        r, more := Purge(roots[i]);
        PurgedMore(t, roots, i, gone, more);
        gone := gone + more;
        if r.Err? {
          return r, gone;
        }
        i := i + 1;
      }
      assert roots[..i] == roots;
      if Kept(t) {
        AllGone(t, roots);
      }
    }
  }

  lemma NotMovable(t: Table, id: Id, p: Id)
    requires Shape(t) && (id == ROOT || id == p || !Live(t, id))
    ensures !Movable(t, id, p)
  {
    if id == p && id in t && id != ROOT {
      UnderSelf(t, id);
      if t[id].parent == Some(id) {
        NotUnderChild(t, id, id);
      }
    }
  }

  lemma MovableLive(t: Table, id: Id, p: Id)
    ensures Movable(t, id, p) ==> Live(t, id)
  {}

  lemma InsertIndex(t: Table, id: Id, n: Node, fts: Index)
    requires id !in t && id != ""
    requires Tree(t[id := n]) && (Anchored(t) ==> Anchored(t[id := n])) && n.status == Ready
    ensures Tree(t) && Anchored(t) && IndexExact(t, fts) ==> IndexExact(t[id := n], Upserted(t[id := n], fts, id))
  {
    if Tree(t) && Anchored(t) && IndexExact(t, fts) {
      var u := t[id := n];
      forall x | x != id && IsReady(t, x) && t[x].parent.Some? ensures t[x].parent.value != id {
        ShapeClosed(t);
      }
      UpsertKeepsExact(t, u, id, fts);
    }
  }

  // ---- the recursion of the trash ----

  lemma NoChildrenYet(t: Table, children: seq<Id>)
    ensures DownOfAll(t, children[..0]) == {}
    ensures t == DeleteRows(t, {})
  {}

  /** Before child `i` is trashed: it is untouched, its lists still reach what they
      did, and it has a smaller subtree than its parent. */
  lemma TrashChild(t: Table, id: Id, children: seq<Id>, i: nat)
    requires Tree(t) && i < |children| && id in t
    requires forall c :: c in children <==> ReadyChild(t, id, c)
    requires Distinct(children)
    ensures var d := DownOfAll(t, children[..i]); var c := children[i];
      && c != ROOT && Live(DeleteRows(t, d), c)
      && ReadyDown(DeleteRows(t, d), c) == ReadyDown(t, c)
      && Subtree(DeleteRows(t, d), c) < Subtree(t, id)
      && DownOfAll(t, children[..i + 1]) == d + ReadyDown(t, c)
  {
    var d := DownOfAll(t, children[..i]);
    var c := children[i];
    assert ReadyChild(t, id, c);
    forall x | x in d ensures x !in Subtree(t, c) {
      var b :| b in children[..i] && x in ReadyDown(t, b);
      assert ReadyChild(t, id, b) && b != c;
      if x == b { UnderSelf(t, b); } else { DownUnder(t, b, x); }
      if Under(t, c, x) { SiblingsDisjoint(t, b, c, x); }
    }
    UnderSelf(t, c);
    ReadyDownAfterDelete(t, d, c);
    SubtreeAfterDelete(t, d, c);
    ChildSubtree(t, id, c);
    assert children[..i + 1] == children[..i] + [c];
  }

  lemma DeleteRowsTwice(t: Table, d: set<Id>, e: set<Id>)
    ensures DeleteRows(DeleteRows(t, d), e) == DeleteRows(t, d + e)
  {}

  lemma FileDown(t: Table, id: Id)
    requires Shape(t) && id in t && t[id].kind == File
    ensures ReadyDown(t, id) == {id}
  {
    forall x | Down(t, id, x) ensures x == id {
      DownUnder(t, id, x);
      var k: nat :| Up(t, x, k) == Some(id);
      FileHasNothingUnder(t, id, x, k);
    }
  }

  /** The last step: the row itself was still live, and its deletion completes the set. */
  lemma TrashSelf(t: Table, id: Id, d: set<Id>)
    requires Tree(t) && Live(t, id) && ReadyDown(t, id) == d + {id}
    requires t[id].kind == Folder ==>
               exists children: seq<Id> :: d == DownOfAll(t, children) && forall c :: c in children <==>
                 ReadyChild(t, id, c)
    requires t[id].kind == File ==> d == {}
    ensures Live(DeleteRows(t, d), id)
    ensures SetStatus(DeleteRows(t, d), id, Deleted) == Trashed(t, id)
  {
    hide UniqueNames, FoldersAnchored, ReadyDown, DownOfAll;
    if id in d {
      var children: seq<Id> :| d == DownOfAll(t, children) && forall c :: c in children <==> ReadyChild(t, id, c);
      NotBelowItself(t, id, children);
    }
  }

  /** No row is below its own children. */
  lemma NotBelowItself(t: Table, id: Id, children: seq<Id>)
    requires Shape(t) && id in t && forall c :: c in children <==> ReadyChild(t, id, c)
    ensures id !in DownOfAll(t, children)
  {
    forall c | c in children ensures id !in ReadyDown(t, c) {
      NotUnderChild(t, id, c);
      UnderSelf(t, id);
      if Down(t, c, id) {
        DownUnder(t, c, id);
      }
    }
  }

  // ---- the recursion of the purge ----

  ghost function SubtreeOfAll(t: Table, ids: seq<Id>): set<Id> {
    set c, x | c in ids && x in Subtree(t, c) :: x
  }

  lemma NothingGone(t: Table)
    ensures SubtreeOfAll(t, []) == {} && DownClosed(t, {})
    ensures t == t - {} && forall h: Hashes :: HashesWithout(h, {}) == h
  {}

  lemma RootStays(t: Table, id: Id)
    requires Tree(t)
    ensures id in t && AllDeletedUnder(t, id) ==> id != ROOT && t[id].status == Deleted
    ensures id == ROOT ==> t[id].status == Ready
    ensures id in t && t[id].status == Deleted ==> id in Subtree(t, id)
  {
    UnderSelf(t, id);
  }

  lemma PurgeChild(t: Table, id: Id, children: seq<Id>, i: nat)
    requires Tree(t) && i < |children| && id in t
    requires forall c :: c in children <==> DeletedChild(t, id, c)
    requires Distinct(children) && DownClosed(t, SubtreeOfAll(t, children[..i]))
    ensures var gone := SubtreeOfAll(t, children[..i]); var c := children[i];
      && c in t - gone
      && Subtree(t - gone, c) == Subtree(t, c) && Subtree(t, c) < Subtree(t, id)
      && (AllDeletedUnder(t - gone, c) <==> AllDeletedUnder(t, c))
      && (AllDeletedUnder(t, id) ==> AllDeletedUnder(t, c))
      && SubtreeOfAll(t, children[..i + 1]) == gone + Subtree(t, c)
  {
    var gone := SubtreeOfAll(t, children[..i]);
    var c := children[i];
    assert DeletedChild(t, id, c);
    forall x | x in gone ensures x !in Subtree(t, c) {
      var b :| b in children[..i] && x in Subtree(t, b);
      assert DeletedChild(t, id, b) && b != c;
      if Under(t, c, x) { SiblingsDisjoint(t, b, c, x); }
    }
    UnderSelf(t, c);
    SubtreeAfterRemove(t, gone, c);
    ChildSubtree(t, id, c);
    assert children[..i + 1] == children[..i] + [c];
  }

  /** What one more child's purge removed joins what was removed before. */
  lemma PurgeMore(t: Table, id: Id, c: Id, gone: set<Id>, more: set<Id>)
    requires Tree(t) && DownClosed(t, gone) && DownClosed(t - gone, more)
    requires more <= Subtree(t - gone, c) && Subtree(t - gone, c) <= Subtree(t, id)
    requires forall x | x in more :: (t - gone)[x].status == Deleted
    ensures more <= Subtree(t, id) && DownClosed(t, gone + more) && t - gone - more == t - (gone + more)
    ensures forall x | x in more :: t[x].status == Deleted
    ensures gone <= t.Keys ==> gone + more <= t.Keys
    ensures forall h :: HashesWithout(HashesWithout(h, gone), more) == HashesWithout(h, gone + more)
  {
    var u := t - gone;
    forall x | x in t && t[x].parent.Some? && t[x].parent.value in gone + more ensures x in gone + more {
      if x !in gone {
        assert x in u && u[x].parent.value in more;
      }
    }
  }

  /** When every deleted child is purged, what is left below `id` is what was not deleted. */
  lemma LastRow(t: Table, id: Id, children: seq<Id>)
    requires Tree(t) && id in t && t[id].status == Deleted
    requires forall c :: c in children <==> DeletedChild(t, id, c)
    requires forall c | c in children :: AllDeletedUnder(t, c)
    requires SubtreeOfAll(t, children) <= Subtree(t, id)
    ensures id !in SubtreeOfAll(t, children)
    ensures HasChildRow(t - SubtreeOfAll(t, children), id) <==> !AllDeletedUnder(t, id)
    ensures AllDeletedUnder(t, id) ==> SubtreeOfAll(t, children) + {id} == Subtree(t, id)
  {
    var gone := SubtreeOfAll(t, children);
    if id in gone {
      var c :| c in children && id in Subtree(t, c);
      assert DeletedChild(t, id, c);
      NotUnderChild(t, id, c);
    }
    if AllDeletedUnder(t, id) {
      PurgedAll(t, id, children);
    } else {
      LeftOver(t, id, children);
    }
  }

  lemma PurgedAll(t: Table, id: Id, children: seq<Id>)
    requires Tree(t) && id in t && AllDeletedUnder(t, id)
    requires forall c :: c in children <==> DeletedChild(t, id, c)
    requires SubtreeOfAll(t, children) <= Subtree(t, id)
    ensures !HasChildRow(t - SubtreeOfAll(t, children), id)
    ensures SubtreeOfAll(t, children) + {id} == Subtree(t, id)
  {
    var gone := SubtreeOfAll(t, children);
    UnderSelf(t, id);
    forall c | c in t && t[c].parent == Some(id) ensures c in children && c in Subtree(t, c) {
      UnderSelf(t, c);
      UnderParent(t, id, c);
      assert DeletedChild(t, id, c);
    }
    forall x | x in Subtree(t, id) && x != id ensures x in gone {
      var k: nat :| Up(t, x, k) == Some(id);
      ChildAbove(t, id, x, k);
      var c :| c in t && t[c].parent == Some(id) && x in Subtree(t, c);
    }
  }

  lemma LeftOver(t: Table, id: Id, children: seq<Id>)
    requires Tree(t) && id in t && t[id].status == Deleted && !AllDeletedUnder(t, id)
    requires forall c :: c in children <==> DeletedChild(t, id, c)
    requires forall c | c in children :: AllDeletedUnder(t, c)
    ensures HasChildRow(t - SubtreeOfAll(t, children), id)
  {
    var gone := SubtreeOfAll(t, children);
    var x :| x in Subtree(t, id) && t[x].status != Deleted;
    var k: nat :| Up(t, x, k) == Some(id);
    ChildAbove(t, id, x, k);
    var c :| c in t && t[c].parent == Some(id) && x in Subtree(t, c);
    forall b | b in children ensures !Under(t, b, c) {
      if Under(t, b, c) {
        assert AllDeletedUnder(t, b);
        UnderTrans(t, b, c, x);
      }
    }
    assert c in t - gone && (t - gone)[c].parent == Some(id);
  }

  lemma HashesWithoutOne(h: Hashes, id: Id)
    ensures HashesWithout(h, {id}) == map k | k in h && h[k] != id :: h[k]
  {}

  lemma HashesWithoutBoth(h: Hashes, gone: set<Id>, more: set<Id>)
    ensures HashesWithout(HashesWithout(h, gone), more) == HashesWithout(h, gone + more)
  {}

  lemma HashesStay(h: Hashes, t: Table, gone: set<Id>)
    requires h.Values <= t.Keys
    ensures HashesWithout(h, gone).Values <= (t - gone).Keys
  {
    forall v | v in HashesWithout(h, gone).Values ensures v in t - gone {
      var k :| k in HashesWithout(h, gone) && HashesWithout(h, gone)[k] == v;
      assert h[k] in h.Values;
    }
  }

  lemma {:induction false} ChildAbove(t: Table, id: Id, x: Id, k: nat)
    requires Up(t, x, k) == Some(id) && k > 0 && x in t
    ensures exists c :: c in t && t[c].parent == Some(id) && x in Subtree(t, c)
    decreases k
  {
    if k == 1 {
      UnderSelf(t, x);
    } else {
      var p := t[x].parent.value;
      ChildAbove(t, id, p, k - 1);
      var c :| c in t && t[c].parent == Some(id) && p in Subtree(t, c);
      UnderParent(t, c, x);
    }
  }

  lemma LeafRow(t: Table, id: Id)
    requires Tree(t) && id in t && t[id].kind == File && t[id].status == Deleted
    ensures Subtree(t, id) == {id} && AllDeletedUnder(t, id) && !HasChildRow(t, id)
  {
    UnderSelf(t, id);
    forall x | x in Subtree(t, id) ensures x == id {
      NothingUnderFileRow(t, id, x);
    }
    forall c | c in t ensures t[c].parent != Some(id) {
      if c != ROOT { RowParent(t, c); }
    }
  }

  lemma NothingUnderFileRow(t: Table, id: Id, x: Id)
    requires Shape(t) && id in t && t[id].kind == File && Under(t, id, x)
    ensures x == id
  {
    var k: nat :| Up(t, x, k) == Some(id);
    FileHasNothingUnder(t, id, x, k);
  }

  lemma WholeSubtree(t: Table, id: Id, gone: set<Id>)
    requires Tree(t)
    ensures gone == Subtree(t, id) && AllDeletedUnder(t, id) ==> DownClosed(t, gone) && Tree(t - gone)
  {
    SubtreeDownClosed(t, id);
    if gone == Subtree(t, id) && AllDeletedUnder(t, id) {
      PurgeKeepsTree(t, id);
    }
  }

  // ---- emptying the trash ----

  lemma {:induction false} LiveAbove(t: Table, b: Id, x: Id, k: nat)
    requires Tree(t) && Kept(t) && Live(t, x) && Up(t, x, k) == Some(b)
    ensures Live(t, b)
    decreases k
  {
    if k > 0 {
      assert x != ROOT;
      assert ParentLive(t, x);
      LiveAbove(t, b, t[x].parent.value, k - 1);
    }
  }

  lemma RootAllDeleted(t: Table, b: Id)
    requires Tree(t) && Kept(t) && b in t && t[b].status == Deleted
    ensures AllDeletedUnder(t, b)
  {
    forall x | x in Subtree(t, b) ensures t[x].status == Deleted {
      var k: nat :| Up(t, x, k) == Some(b);
      if t[x].status != Deleted { LiveAbove(t, b, x, k); }
    }
  }

  /** Neither of two trash roots hangs below the other. */
  lemma RootsApart(t: Table, a: Id, b: Id)
    requires Tree(t) && Kept(t) && TrashRoot(t, a) && TrashRoot(t, b) && a != b
    ensures !Under(t, b, a)
  {
    if Under(t, b, a) {
      UnderStep(t, b, a);
      RowParent(t, a);
      var k: nat :| Up(t, t[a].parent.value, k) == Some(b);
      LiveAbove(t, b, t[a].parent.value, k);
    }
  }

  lemma RootNotGone(t: Table, roots: seq<Id>, a: Id)
    requires Tree(t) && Kept(t) && TrashRoot(t, a) && a !in roots
    requires forall c | c in roots :: TrashRoot(t, c)
    ensures a !in SubtreeOfAll(t, roots)
  {
    if a in SubtreeOfAll(t, roots) {
      var b :| b in roots && a in Subtree(t, b);
      RootsApart(t, a, b);
    }
  }

  lemma NextRoot(t: Table, roots: seq<Id>, i: nat)
    requires Tree(t) && Kept(t) && i < |roots| && Distinct(roots)
    requires forall c | c in roots :: TrashRoot(t, c)
    requires DownClosed(t, SubtreeOfAll(t, roots[..i]))
    ensures var gone := SubtreeOfAll(t, roots[..i]); var c := roots[i];
      c in t - gone && AllDeletedUnder(t - gone, c) && Subtree(t - gone, c) == Subtree(t, c) - gone
  {
    var gone := SubtreeOfAll(t, roots[..i]);
    var c := roots[i];
    assert c !in roots[..i];
    assert forall b | b in roots[..i] :: b in roots;
    RootNotGone(t, roots[..i], c);
    RootAllDeleted(t, c);
    SubtreeAfterRemove(t, gone, c);
  }

  lemma PurgedMore(t: Table, roots: seq<Id>, i: nat, gone: set<Id>, more: set<Id>)
    requires Tree(t) && i < |roots| && gone == SubtreeOfAll(t, roots[..i]) && gone <= t.Keys
    requires DownClosed(t, gone) && DownClosed(t - gone, more) && more <= (t - gone).Keys
    requires forall x | x in more :: (t - gone)[x].status == Deleted
    ensures gone + more <= t.Keys && DownClosed(t, gone + more) && t - gone - more == t - (gone + more)
    ensures forall x | x in more :: t[x].status == Deleted
    ensures more == Subtree(t - gone, roots[i]) ==> gone + more == SubtreeOfAll(t, roots[..i + 1])
    ensures forall h :: HashesWithout(HashesWithout(h, gone), more) == HashesWithout(h, gone + more)
  {
    var u := t - gone;
    forall x | x in t && t[x].parent.Some? && t[x].parent.value in gone + more ensures x in gone + more {
      if x !in gone {
        assert x in u && u[x].parent.value in more;
      }
    }
    SubtreeAfterRemove(t, gone, roots[i]);
    assert roots[..i + 1] == roots[..i] + [roots[i]];
  }

  /** Every deleted row hangs under a trash root. */
  lemma {:induction false} TopDeleted(t: Table, x: Id, k: nat)
    requires Tree(t) && x in t && t[x].status == Deleted && Up(t, x, k) == Some(ROOT)
    ensures exists b :: TrashRoot(t, b) && Under(t, b, x)
    decreases k
  {
    RootIsFolder(t);
    RowParent(t, x);
    var p := t[x].parent.value;
    if t[p].status == Deleted {
      TopDeleted(t, p, k - 1);
      var b :| TrashRoot(t, b) && Under(t, b, p);
      UnderParent(t, b, x);
    } else {
      UnderSelf(t, x);
      assert TrashRoot(t, x);
    }
  }

  lemma AllGone(t: Table, roots: seq<Id>)
    requires Tree(t) && Kept(t) && Distinct(roots)
    requires forall c | c in roots :: TrashRoot(t, c)
    requires |TrashRoots(t)| <= TRASH_BATCH ==> forall c | TrashRoot(t, c) :: c in roots
    requires |TrashRoots(t)| > TRASH_BATCH ==> |roots| == TRASH_BATCH
    ensures (forall x | x in t - SubtreeOfAll(t, roots) :: t[x].status != Deleted) <==> |TrashRoots(t)| <= TRASH_BATCH
  {
    var gone := SubtreeOfAll(t, roots);
    if |TrashRoots(t)| <= TRASH_BATCH {
      forall x | x in t && t[x].status == Deleted ensures x in gone {
        var k: nat :| Up(t, x, k) == Some(ROOT);
        TopDeleted(t, x, k);
        var b :| TrashRoot(t, b) && Under(t, b, x);
        assert x in Subtree(t, b);
      }
    } else {
      SmallerThan(roots, TrashRoots(t));
      var a :| a in TrashRoots(t) && a !in roots;
      RootNotGone(t, roots, a);
      assert a in t - gone;
    }
  }

  lemma {:induction false} SmallerThan(s: seq<Id>, all: set<Id>)
    requires |s| < |all|
    ensures exists a :: a in all && a !in s
  {
    if s == [] {
      var a :| a in all;
    } else {
      var rest := all - {s[0]};
      SmallerThan(s[1..], rest);
      var a :| a in rest && a !in s[1..];
      assert a in all && a !in s;
    }
  }

  // ---- trash, then purge ----

  /** Of a drive with no live row under a deleted one, `MoveToTrash` deletes the
      whole subtree, and a later `Purge` removes exactly that subtree, exactly when
      no unfinished upload sits inside. */
  lemma TrashThenPurge(t: Table, id: Id)
    requires Tree(t) && Kept(t) && Live(t, id) && id != ROOT
    ensures AllDeletedUnder(Trashed(t, id), id) <==> !PendingInside(t, id)
    ensures forall x | x in t && x !in Subtree(t, id) :: Trashed(t, id)[x] == t[x]
    ensures Purged(Trashed(t, id), id) == t - Subtree(t, id)
  {
    hide Anchored, StagedAnchored, Subtree, Shape, UniqueNames, FoldersAnchored, ReadyDown, PendingInside;
    var u := Trashed(t, id);
    SubtreeAfterDelete(t, ReadyDown(t, id), id);
    forall x | x in t && x !in Subtree(t, id) ensures u[x] == t[x] {
      DownInSubtree(t, id, x);
    }
    if !PendingInside(t, id) {
      forall x | x in u && x in Subtree(t, id) ensures u[x].status == Deleted {
        if u[x].status != Deleted { LeftLive(t, id, x); }
      }
      assert AllDeletedUnder(u, id) by { InTable(u, id); }
    } else {
      PendingStays(t, id);
    }
  }

  lemma InTable(t: Table, id: Id)
    ensures Subtree(t, id) <= t.Keys
  {}

  lemma PendingStays(t: Table, id: Id)
    requires Tree(t) && id in t && PendingInside(t, id)
    ensures !AllDeletedUnder(Trashed(t, id), id)
  {
    var x :| x in t && x != id && t[x].status == Pending && t[x].parent.Some? && t[x].parent.value in ReadyDown(t, id);
    SubtreeAfterDelete(t, ReadyDown(t, id), id);
    PendingUnder(t, id, x);
  }

  lemma DownInSubtree(t: Table, id: Id, x: Id)
    requires id in t
    ensures x in ReadyDown(t, id) ==> x in Subtree(t, id)
  {
    UnderSelf(t, id);
    if x in ReadyDown(t, id) && x != id { DownUnder(t, id, x); }
  }

  lemma LeftLive(t: Table, id: Id, x: Id)
    requires Tree(t) && Kept(t) && Live(t, id) && x in Subtree(t, id) && x !in ReadyDown(t, id) &&
      t[x].status != Deleted
    ensures PendingInside(t, id)
  {
    var k: nat :| Up(t, x, k) == Some(id);
    if t[x].status == Ready {
      UnderIsDown(t, id, x, k);
    } else {
      RootIsFolder(t);
      RowParent(t, x);
      var p := t[x].parent.value;
      assert ParentLive(t, x);
      assert Up(t, p, k - 1) == Some(id);
      FolderUnderIsDown(t, id, p, k - 1);
    }
  }

  lemma PendingUnder(t: Table, id: Id, x: Id)
    requires Tree(t) && id in t && x in t && t[x].status == Pending && x != id
    requires t[x].parent.Some? && t[x].parent.value in ReadyDown(t, id)
    ensures x in Subtree(t, id) && Trashed(t, id)[x].status == Pending
  {
    DownSelf(t, id);
    DownUnder(t, id, t[x].parent.value);
    UnderParent(t, id, x);
    if x in ReadyDown(t, id) { DownParent(t, id, x); }
  }
}
