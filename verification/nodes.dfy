/** The `nodes` table: rows, schema constraints, the parent relation and the
    shape every run of the drive keeps. */
module Nodes {
  import opened Wrappers

  type Id = string

  const ROOT: Id := "root"

  datatype Kind = File | Folder

  datatype Status = Ready | Pending | Deleted

  datatype Node = Node(
    parent: Option<Id>, name: string, kind: Kind, mime: string,
    size: int, status: Status, channel: int)

  type Table = map<Id, Node>

  // ---- row predicates: the WHERE clauses of the store's queries ----

  predicate Live(t: Table, id: Id) {
    id in t && t[id].status != Deleted
  }

  predicate IsReady(t: Table, id: Id) {
    id in t && t[id].status == Ready
  }

  predicate LiveFolder(t: Table, id: Id) {
    Live(t, id) && t[id].kind == Folder
  }

  predicate IsChild(t: Table, parent: Id, name: string, c: Id) {
    Live(t, c) && t[c].parent == Some(parent) && t[c].name == name
  }

  predicate ReadyChild(t: Table, parent: Id, c: Id) {
    IsReady(t, c) && t[c].parent == Some(parent)
  }

  /** `FindChildByName`: some live row with that parent and name. */
  ghost function FindChild(t: Table, parent: Id, name: string): (r: Option<Id>)
    ensures r.Some? ==> IsChild(t, parent, name, r.value)
    ensures r.None? ==> forall c :: !IsChild(t, parent, name, c)
  {
    if c :| IsChild(t, parent, name, c) then Some(c) else None
  }

  // ---- schema ----

  /** The partial unique index on (parent_id, name) over rows that are not deleted. */
  ghost predicate UniqueNames(t: Table) {
    forall a, b | Live(t, a) && Live(t, b) && t[a].parent.Some? && t[a].parent == t[b].parent &&
      t[a].name == t[b].name ::
      a == b
  }

  lemma FindChildIs(t: Table, parent: Id, name: string, c: Id)
    requires UniqueNames(t) && IsChild(t, parent, name, c)
    ensures FindChild(t, parent, name) == Some(c)
  {}

  // ---- the parent relation ----

  /** The k-th ancestor, following parent_id whatever the status of the rows. */
  ghost function Up(t: Table, id: Id, k: nat): Option<Id>
    decreases k
  {
    if k == 0 then Some(id)
    else if id in t && t[id].parent.Some? then Up(t, t[id].parent.value, k - 1)
    else None
  }

  ghost predicate ReachesRoot(t: Table, id: Id) {
    exists k: nat :: Up(t, id, k) == Some(ROOT)
  }

  /** `a` is `x` or one of its ancestors. */
  ghost predicate Under(t: Table, a: Id, x: Id) {
    exists k: nat :: Up(t, x, k) == Some(a)
  }

  ghost function Subtree(t: Table, a: Id): set<Id> {
    set x | x in t && Under(t, a, x)
  }

  ghost predicate RootRow(t: Table) {
    ROOT in t && t[ROOT].parent == None && t[ROOT].kind == Folder && t[ROOT].status == Ready
  }

  ghost predicate ParentRow(t: Table, id: Id) {
    id in t && t[id].parent.Some? && t[id].parent.value in t && t[t[id].parent.value].kind == Folder
  }

  /** Foreign keys, folder parents, no pending folder, no parent cycle. */
  ghost predicate Shape(t: Table) {
    && RootRow(t)
    && (forall id | id in t && id != ROOT :: ParentRow(t, id))
    && (forall id | id in t && t[id].kind == Folder :: t[id].status != Pending)
    && (forall id | id in t :: ReachesRoot(t, id))
  }

  ghost predicate ParentLive(t: Table, id: Id) {
    id in t && t[id].parent.Some? && Live(t, t[id].parent.value)
  }

  /** No live folder hangs under a deleted one. */
  ghost predicate FoldersAnchored(t: Table) {
    forall id | LiveFolder(t, id) && id != ROOT :: ParentLive(t, id)
  }

  /** What every run of the drive keeps. */
  ghost predicate Tree(t: Table) {
    Shape(t) && UniqueNames(t) && FoldersAnchored(t)
  }

  /** Ready rows have live parents; with `Tree`, live ancestors up to the root. */
  ghost predicate Anchored(t: Table) {
    forall id | IsReady(t, id) && id != ROOT :: ParentLive(t, id)
  }

  /** No unfinished upload sits in a deleted folder. */
  ghost predicate StagedAnchored(t: Table) {
    forall id | id in t && t[id].status == Pending :: ParentLive(t, id)
  }

  lemma RowParent(t: Table, id: Id)
    requires Shape(t) && id in t && id != ROOT
    ensures ParentRow(t, id)
  {}

  lemma NoPendingFolder(t: Table, id: Id)
    requires Shape(t) && id in t
    ensures t[id].kind == Folder ==> t[id].status != Pending
  {}

  lemma RootIsFolder(t: Table)
    requires Shape(t)
    ensures RootRow(t)
  {}

  // ---- facts about ancestors ----

  lemma {:induction false} UpUp(t: Table, x: Id, j: nat, k: nat)
    requires Up(t, x, j).Some?
    ensures Up(t, x, j + k) == Up(t, Up(t, x, j).value, k)
    decreases j
  {
    if j > 0 {
      UpUp(t, t[x].parent.value, j - 1, k);
    }
  }

  lemma UnderTrans(t: Table, a: Id, b: Id, x: Id)
    requires Under(t, a, b) && Under(t, b, x)
    ensures Under(t, a, x)
  {
    var j: nat :| Up(t, b, j) == Some(a);
    var k: nat :| Up(t, x, k) == Some(b);
    UpUp(t, x, k, j);
  }

  lemma UnderSelf(t: Table, x: Id)
    ensures Under(t, x, x)
  {
    assert Up(t, x, 0) == Some(x);
  }

  lemma UnderParent(t: Table, a: Id, x: Id)
    requires x in t && t[x].parent.Some? && Under(t, a, t[x].parent.value)
    ensures Under(t, a, x)
  {
    var k: nat :| Up(t, t[x].parent.value, k) == Some(a);
    assert Up(t, x, k + 1) == Some(a);
  }

  lemma UnderStep(t: Table, a: Id, x: Id)
    requires Under(t, a, x) && a != x
    ensures x in t && t[x].parent.Some? && Under(t, a, t[x].parent.value)
  {
    var k: nat :| Up(t, x, k) == Some(a);
    assert Up(t, t[x].parent.value, k - 1) == Some(a);
  }

  /** A row meets the root at one height only. */
  lemma {:induction false} HeightUnique(t: Table, x: Id, j: nat, k: nat)
    requires RootRow(t)
    requires Up(t, x, j) == Some(ROOT) && Up(t, x, k) == Some(ROOT)
    ensures j == k
    decreases j
  {
    if j > 0 && k > 0 {
      HeightUnique(t, t[x].parent.value, j - 1, k - 1);
    }
  }

  /** No row is its own proper ancestor. */
  lemma NoCycle(t: Table, x: Id, k: nat)
    requires RootRow(t) && ReachesRoot(t, x)
    requires k > 0
    ensures Up(t, x, k) != Some(x)
  {
    if Up(t, x, k) == Some(x) {
      var h: nat :| Up(t, x, h) == Some(ROOT);
      UpUp(t, x, k, h);
      HeightUnique(t, x, h, k + h);
    }
  }

  /** A parent is never under its own child. */
  lemma NotUnderChild(t: Table, p: Id, c: Id)
    requires RootRow(t) && ReachesRoot(t, c)
    requires c in t && t[c].parent == Some(p)
    ensures !Under(t, c, p)
  {
    if Under(t, c, p) {
      var k: nat :| Up(t, p, k) == Some(c);
      assert Up(t, c, k + 1) == Some(c);
      NoCycle(t, c, k + 1);
    }
  }

  /** Two siblings have no common descendant. */
  lemma SiblingsDisjoint(t: Table, a: Id, b: Id, x: Id)
    requires RootRow(t) && ReachesRoot(t, a) && ReachesRoot(t, b)
    requires a in t && b in t && t[a].parent.Some? && t[a].parent == t[b].parent
    requires Under(t, a, x) && Under(t, b, x)
    ensures a == b
  {
    var p := t[a].parent.value;
    var j: nat :| Up(t, x, j) == Some(a);
    var k: nat :| Up(t, x, k) == Some(b);
    if j < k {
      UpUp(t, x, j, k - j);
      assert Up(t, p, k - j - 1) == Some(b);
      NotUnderChild(t, p, b);
    } else if k < j {
      UpUp(t, x, k, j - k);
      assert Up(t, p, j - k - 1) == Some(a);
      NotUnderChild(t, p, a);
    }
  }

  lemma ChildSubtree(t: Table, p: Id, c: Id)
    requires RootRow(t) && ReachesRoot(t, c)
    requires p in t && c in t && t[c].parent == Some(p)
    ensures Subtree(t, c) < Subtree(t, p)
  {
    UnderSelf(t, p);
    NotUnderChild(t, p, c);
    UnderSelf(t, p);
    UnderParent(t, p, c);
    forall x | x in Subtree(t, c) ensures x in Subtree(t, p) {
      UnderTrans(t, p, c, x);
    }
    assert p in Subtree(t, p) && p !in Subtree(t, c);
  }

  // ---- the subtree that lists of ready children can see ----

  /** `x` is reached from `a` by k steps, each to a ready child. */
  ghost predicate DownBy(t: Table, a: Id, x: Id, k: nat)
    decreases k
  {
    if k == 0 then x == a
    else IsReady(t, x) && t[x].parent.Some? && DownBy(t, a, t[x].parent.value, k - 1)
  }

  ghost predicate Down(t: Table, a: Id, x: Id) {
    exists k: nat :: DownBy(t, a, x, k)
  }

  ghost function ReadyDown(t: Table, a: Id): set<Id> {
    (set x | x in t && Down(t, a, x)) + {a}
  }

  lemma {:induction false} DownByUp(t: Table, a: Id, x: Id, k: nat)
    requires DownBy(t, a, x, k)
    ensures Up(t, x, k) == Some(a)
    decreases k
  {
    if k > 0 {
      DownByUp(t, a, t[x].parent.value, k - 1);
    }
  }

  lemma DownUnder(t: Table, a: Id, x: Id)
    requires Down(t, a, x)
    ensures Under(t, a, x)
  {
    var k: nat :| DownBy(t, a, x, k);
    DownByUp(t, a, x, k);
  }

  lemma DownSelf(t: Table, a: Id)
    ensures Down(t, a, a)
  {
    assert DownBy(t, a, a, 0);
  }

  lemma DownChild(t: Table, a: Id, x: Id)
    requires IsReady(t, x) && t[x].parent.Some? && Down(t, a, t[x].parent.value)
    ensures Down(t, a, x)
  {
    var k: nat :| DownBy(t, a, t[x].parent.value, k);
    assert DownBy(t, a, x, k + 1);
  }

  lemma DownParent(t: Table, a: Id, x: Id)
    requires Down(t, a, x) && x != a
    ensures IsReady(t, x) && t[x].parent.Some? && Down(t, a, t[x].parent.value)
  {
    var k: nat :| DownBy(t, a, x, k);
    assert DownBy(t, a, t[x].parent.value, k - 1);
  }

  /** Where ready rows are anchored, lists of ready children see every ready
      descendant: `Down` is `Under` on ready rows. */
  lemma {:induction false} UnderIsDown(t: Table, a: Id, x: Id, k: nat)
    requires Shape(t) && Anchored(t) && IsReady(t, x) && Up(t, x, k) == Some(a)
    ensures Down(t, a, x)
    decreases k
  {
    if k == 0 {
      DownSelf(t, a);
    } else {
      var p := t[x].parent.value;
      assert ParentRow(t, x) && ParentLive(t, x);
      UnderIsDown(t, a, p, k - 1);
      DownChild(t, a, x);
    }
  }

  /** The same for folders, with no assumption about files. */
  lemma {:induction false} FolderUnderIsDown(t: Table, a: Id, x: Id, k: nat)
    requires Shape(t) && FoldersAnchored(t) && LiveFolder(t, x) && Up(t, x, k) == Some(a)
    ensures Down(t, a, x)
    decreases k
  {
    if k == 0 {
      DownSelf(t, a);
    } else {
      var p := t[x].parent.value;
      assert x != ROOT;
      assert ParentRow(t, x) && ParentLive(t, x);
      FolderUnderIsDown(t, a, p, k - 1);
      DownChild(t, a, x);
    }
  }
}
