/** The search index: `pathForNode`, the rows of `nodes_fts`, and what keeps them
    in step with the tree. */
module SearchIndex {
  import opened Wrappers
  import opened Nodes
  import opened TreeOps

  datatype Entry = Entry(name: string, path: string)

  /** The rows of `nodes_fts` grouped by their id column. The table has no unique
      constraint, so an id may own any number of rows. */
  type Index = map<Id, seq<Entry>>

  /** `pathForNode` gives up climbing after this many rows. */
  const PATH_CAP: nat := 64

  function JoinPath(names: seq<string>): string {
    if |names| == 0 then ""
    else if |names| == 1 then names[0]
    else names[0] + " / " + JoinPath(names[1..])
  }

  function CrumbName(t: Table, id: Id): string
    requires id in t
  {
    if id == ROOT then "My Drive" else t[id].name
  }

  /** The names from the highest row reached down to `id`, after `i` rows have been
      climbed already; `None` when a row on the way is deleted or missing. */
  function Crumbs(t: Table, id: Id, i: nat): Option<seq<string>>
    decreases PATH_CAP - i
  {
    if i >= PATH_CAP then Some([])
    else if !Live(t, id) then None
    else if t[id].parent == None || t[id].parent == Some("") then Some([CrumbName(t, id)])
    else
      match Crumbs(t, t[id].parent.value, i + 1)
      case None => None
      case Some(above) => Some(above + [CrumbName(t, id)])
  }

  function PathText(t: Table, id: Id): Option<string> {
    match Crumbs(t, id, 0)
    case None => None
    case Some(names) => Some(JoinPath(names))
  }

  predicate Searchable(t: Table, id: Id) {
    IsReady(t, id) && id != ROOT
  }

  /** One row per searchable node with a path. */
  function IndexOf(t: Table): Index {
    map id | id in t && Searchable(t, id) && PathText(t, id).Some? :: [Entry(t[id].name, PathText(t, id).value)]
  }

  ghost predicate AllPaths(t: Table) {
    forall id | Searchable(t, id) :: PathText(t, id).Some?
  }

  /** Every searchable node has a path, and the index holds exactly one row for it,
      with its present name and path, and no other row. */
  ghost predicate IndexExact(t: Table, fts: Index) {
    AllPaths(t) && fts == IndexOf(t)
  }

  /** What a rebuild leaves: an exact index, if every searchable node has a path. */
  ghost predicate Rebuilt(t: Table, fts: Index) {
    AllPaths(t) ==> fts == IndexOf(t)
  }

  /** Rows for some of the searchable nodes, each right: what a rebuild that stopped leaves. */
  ghost predicate IndexSound(t: Table, fts: Index) {
    forall x | x in fts :: x in IndexOf(t) && fts[x] == IndexOf(t)[x]
  }

  // ---- what a path is ----

  lemma {:induction false} JoinAppend(names: seq<string>, name: string)
    ensures JoinPath(names + [name]) == if names == [] then name else JoinPath(names) + " / " + name
    decreases |names|
  {
    if |names| == 1 {
      assert (names + [name])[1..] == [name];
    } else if names != [] {
      JoinAppend(names[1..], name);
      assert (names + [name])[1..] == names[1..] + [name];
      assert (names + [name])[0] == names[0];
    }
  }

  lemma CrumbsEnd(t: Table, id: Id, i: nat)
    requires i < PATH_CAP && Crumbs(t, id, i).Some?
    ensures var ns := Crumbs(t, id, i).value; id in t && ns != [] && ns[|ns| - 1] == CrumbName(t, id)
  {}

  /** Starting later only cuts names off the front, and none within the cap. */
  lemma {:induction false} CrumbsWithin(t: Table, id: Id, k: nat, i: nat, j: nat)
    requires RootRow(t) && "" !in t && Up(t, id, k) == Some(ROOT) && i <= j && j + k < PATH_CAP
    ensures Crumbs(t, id, i) == Crumbs(t, id, j)
    decreases k
  {
    if k > 0 && Live(t, id) {
      var p := t[id].parent.value;
      if k == 1 { assert p == ROOT; }
      UpInTable(t, p, k - 1);
      CrumbsWithin(t, p, k - 1, i + 1, j + 1);
    }
  }

  lemma UpInTable(t: Table, id: Id, k: nat)
    requires RootRow(t) && Up(t, id, k) == Some(ROOT)
    ensures id in t
  {}

  /** The root is "My Drive". */
  lemma RootPath(t: Table)
    requires RootRow(t)
    ensures PathText(t, ROOT) == Some("My Drive")
  {
    assert Crumbs(t, ROOT, 0) == Some(["My Drive"]);
  }

  /** Below it a path is the parent's path, " / ", the name, as long as the climb to the
      root stays within the cap. */
  lemma PathStep(t: Table, id: Id, k: nat)
    requires RootRow(t) && "" !in t && id != ROOT && Live(t, id) && Up(t, id, k) == Some(ROOT) && k < PATH_CAP
    ensures t[id].parent.Some? && var above := PathText(t, t[id].parent.value);
      PathText(t, id) == if above.Some? then Some(above.value + " / " + t[id].name) else None
  {
    hide JoinPath;
    assert k > 0;
    var p := t[id].parent.value;
    UpInTable(t, p, k - 1);
    CrumbsWithin(t, p, k - 1, 0, 1);
    var above := Crumbs(t, p, 1);
    assert Crumbs(t, id, 0) == if above.Some? then Some(above.value + [t[id].name]) else None;
    if above.Some? {
      if k == 1 { assert p == ROOT; }
      CrumbsEnd(t, p, 0);
      JoinAppend(above.value, t[id].name);
    }
  }

  /** The climb to the root stays within the cap. */
  ghost predicate Shallow(t: Table, id: Id) {
    exists k: nat :: k < PATH_CAP && Up(t, id, k) == Some(ROOT)
  }

  ghost predicate AllShallow(t: Table) {
    forall id | Searchable(t, id) :: Shallow(t, id)
  }

  /** The path the index has for a folder. */
  function IndexedPath(fts: Index, id: Id): string {
    if id == ROOT then "My Drive" else if id in fts && |fts[id]| == 1 then fts[id][0].path else ""
  }

  /** Each searchable row within the cap has one entry: its name, and the path of its
      parent, " / ", its name. */
  ghost predicate EntriesNest(t: Table, fts: Index) {
    forall id | Searchable(t, id) && Shallow(t, id) :: id in fts && Nests(t, fts, id)
  }

  ghost predicate Nests(t: Table, fts: Index, id: Id)
    requires id in t && id in fts
  {
    && t[id].parent.Some?
    && fts[id] == [Entry(t[id].name, IndexedPath(fts, t[id].parent.value) + " / " + t[id].name)]
  }

  lemma ShallowParent(t: Table, id: Id)
    requires RootRow(t) && Shallow(t, id) && id != ROOT
    ensures id in t && t[id].parent.Some? && Shallow(t, t[id].parent.value)
  {
    var k: nat :| k < PATH_CAP && Up(t, id, k) == Some(ROOT);
    assert Up(t, t[id].parent.value, k - 1) == Some(ROOT);
  }

  lemma ExactNests(t: Table, fts: Index)
    requires Tree(t) && "" !in t && Anchored(t) && IndexExact(t, fts)
    ensures EntriesNest(t, fts) && forall id | id in fts :: Searchable(t, id)
  {
    hide Crumbs, PathText, JoinPath;
    forall id | Searchable(t, id) && Shallow(t, id) ensures id in fts && Nests(t, fts, id) {
      EntryNests(t, fts, id);
    }
  }

  lemma EntryNests(t: Table, fts: Index, id: Id)
    requires Tree(t) && "" !in t && Anchored(t) && IndexExact(t, fts) && Searchable(t, id) && Shallow(t, id)
    ensures id in fts && Nests(t, fts, id)
  {
    hide Crumbs, PathText, JoinPath;
    RootPath(t);
    var k: nat :| k < PATH_CAP && Up(t, id, k) == Some(ROOT);
    PathStep(t, id, k);
    ReadyParent(t, id);
    var p := t[id].parent.value;
    assert p == ROOT || Searchable(t, p);
  }

  /** Where every searchable row is within the cap, this is all there is to an exact
      index: one such entry for each, and no other row. */
  lemma ExactIffNests(t: Table, fts: Index)
    requires Tree(t) && "" !in t && Anchored(t) && AllShallow(t)
    ensures IndexExact(t, fts) <==> (EntriesNest(t, fts) && forall id | id in fts :: Searchable(t, id))
  {
    hide Crumbs, PathText, JoinPath;
    if IndexExact(t, fts) {
      ExactNests(t, fts);
    }
    if EntriesNest(t, fts) && forall id | id in fts :: Searchable(t, id) {
      AnchoredPaths(t);
      forall id | id in fts ensures id in IndexOf(t) && fts[id] == IndexOf(t)[id] {
        var k: nat :| k < PATH_CAP && Up(t, id, k) == Some(ROOT);
        NestedEntry(t, fts, id, k);
      }
      forall id | id in IndexOf(t) ensures id in fts {
        assert Searchable(t, id) && Shallow(t, id);
      }
    }
  }

  lemma {:induction false} NestedEntry(t: Table, fts: Index, id: Id, k: nat)
    requires Tree(t) && "" !in t && Anchored(t) && EntriesNest(t, fts)
    requires Searchable(t, id) && k < PATH_CAP && Up(t, id, k) == Some(ROOT)
    ensures id in fts && PathText(t, id).Some? && fts[id] == [Entry(t[id].name, PathText(t, id).value)]
    decreases k
  {
    hide Crumbs, PathText, JoinPath;
    assert Shallow(t, id);
    RootPath(t);
    PathStep(t, id, k);
    ReadyParent(t, id);
    var p := t[id].parent.value;
    if p != ROOT {
      NestedEntry(t, fts, p, k - 1);
    }
    assert Nests(t, fts, id);
  }

  // ---- the statements on the index ----

  function Removed(fts: Index, id: Id): Index {
    fts - {id}
  }

  /** `upsertFTS`: delete the rows of `id`, then insert one if it is searchable; an
      error on the way leaves the table alone. */
  function Upserted(t: Table, fts: Index, id: Id): Index {
    if id == "" || id == ROOT || !Live(t, id) then fts
    else if t[id].status != Ready then Removed(fts, id)
    else if PathText(t, id).None? then fts
    else fts[id := [Entry(t[id].name, PathText(t, id).value)]]
  }

  // ---- paths of anchored trees ----

  lemma {:induction false} CrumbsSome(t: Table, id: Id, i: nat)
    requires Shape(t) && Anchored(t) && IsReady(t, id)
    ensures Crumbs(t, id, i).Some?
    decreases PATH_CAP - i
  {
    if i < PATH_CAP && id != ROOT {
      assert ParentRow(t, id) && ParentLive(t, id);
      CrumbsSome(t, t[id].parent.value, i + 1);
    }
  }

  lemma AnchoredPaths(t: Table)
    requires Shape(t) && Anchored(t)
    ensures AllPaths(t)
  {
    forall id | Searchable(t, id) ensures PathText(t, id).Some? {
      CrumbsSome(t, id, 0);
    }
  }

  /** Folders are anchored in every tree, so a live folder always has a path. */
  lemma {:induction false} FolderCrumbs(t: Table, id: Id, i: nat)
    requires Shape(t) && FoldersAnchored(t) && LiveFolder(t, id)
    ensures Crumbs(t, id, i).Some?
    decreases PATH_CAP - i
  {
    if i < PATH_CAP && id != ROOT {
      assert ParentRow(t, id) && ParentLive(t, id);
      FolderCrumbs(t, t[id].parent.value, i + 1);
    }
  }

  /** So has a live row in a live folder. */
  lemma ChildHasPath(t: Table, id: Id, p: Id)
    requires Shape(t) && FoldersAnchored(t) && Live(t, id) && t[id].parent == Some(p) && LiveFolder(t, p)
    ensures PathText(t, id).Some?
  {
    FolderCrumbs(t, p, 1);
  }

  /** Below the cap, a missing path means a dead ancestor: this is what `Anchored` is for. */
  lemma OrphanHasNoPath(t: Table, id: Id)
    requires id in t && id != ROOT && t[id].parent.Some? && t[id].parent.value != "" && !Live(t, t[id].parent.value)
    ensures PathText(t, id) == None
  {
    assert Crumbs(t, t[id].parent.value, 1) == None;
  }

  lemma ExactNeedsAnchored(t: Table, fts: Index)
    requires Shape(t) && "" !in t && IndexExact(t, fts)
    ensures Anchored(t)
  {
    forall id | IsReady(t, id) && id != ROOT ensures ParentLive(t, id) {
      assert Searchable(t, id) && ParentRow(t, id);
      if !ParentLive(t, id) { OrphanHasNoPath(t, id); }
    }
  }

  /** All searchable rows have paths exactly when the ready rows are anchored. */
  lemma PathsIffAnchored(t: Table)
    requires Shape(t) && "" !in t
    ensures AllPaths(t) <==> Anchored(t)
  {
    if AllPaths(t) {
      ExactNeedsAnchored(t, IndexOf(t));
    }
    if Anchored(t) {
      AnchoredPaths(t);
    }
  }

  // ---- frames ----

  /** Both tables agree, on a set closed under parents, about everything a path shows. */
  ghost predicate SamePaths(t: Table, u: Table, s: set<Id>) {
    forall x | x in s ::
      && Live(t, x) && Live(u, x) && t[x].parent == u[x].parent && t[x].name == u[x].name
      && (t[x].parent.Some? ==> t[x].parent.value in s)
  }

  lemma {:induction false} CrumbsFrame(t: Table, u: Table, s: set<Id>, x: Id, i: nat)
    requires SamePaths(t, u, s) && x in s
    ensures Crumbs(t, x, i) == Crumbs(u, x, i)
    decreases PATH_CAP - i
  {
    if i < PATH_CAP && t[x].parent.Some? {
      CrumbsFrame(t, u, s, t[x].parent.value, i + 1);
    }
  }

  lemma PathsFrame(t: Table, u: Table, s: set<Id>)
    requires SamePaths(t, u, s)
    ensures forall x | x in s :: PathText(t, x) == PathText(u, x)
  {
    forall x | x in s ensures PathText(t, x) == PathText(u, x) {
      CrumbsFrame(t, u, s, x, 0);
    }
  }

  /** Outside `d` the two tables show the same ready rows, and no ready row outside hangs below a row of `d`. */
  ghost predicate SameOutside(t: Table, u: Table, d: set<Id>) {
    && ROOT !in d
    && (forall x | x !in d :: (IsReady(t, x) <==> IsReady(u, x)))
    && (forall x | x !in d && IsReady(t, x) :: t[x].parent == u[x].parent && t[x].name == u[x].name)
    && (forall x | x !in d && IsReady(t, x) && t[x].parent.Some? :: t[x].parent.value !in d)
  }

  lemma ReadyParent(t: Table, x: Id)
    requires Tree(t) && Anchored(t) && IsReady(t, x) && t[x].parent.Some?
    ensures IsReady(t, t[x].parent.value)
  {
    assert x != ROOT;
    assert ParentLive(t, x) && ParentRow(t, x);
  }

  lemma OutsideKeepsPaths(t: Table, u: Table, d: set<Id>)
    requires Tree(t) && Anchored(t) && SameOutside(t, u, d)
    ensures forall x | IsReady(t, x) && x !in d :: PathText(t, x) == PathText(u, x)
  {
    var s := set x | x in t && IsReady(t, x) && x !in d;
    forall x | x in s && t[x].parent.Some? ensures t[x].parent.value in s {
      ReadyParent(t, x);
    }
    PathsFrame(t, u, s);
  }

  /** What the index says outside `d` is still right. */
  lemma IndexOutside(t: Table, u: Table, d: set<Id>)
    requires Tree(t) && Anchored(t) && SameOutside(t, u, d)
    ensures IndexOf(t) - d == IndexOf(u) - d
  {
    OutsideKeepsPaths(t, u, d);
    forall x | x !in d ensures x in IndexOf(t) <==> x in IndexOf(u) {
      assert IsReady(t, x) <==> IsReady(u, x);
    }
    forall x | x in IndexOf(t) && x !in d ensures IndexOf(t)[x] == IndexOf(u)[x] {
      assert IsReady(t, x);
    }
  }

  /** A row that is no ready row's parent changes: one `upsertFTS` of it puts the
      index right. Files are never parents, so file changes need no more. */
  lemma UpsertKeepsExact(t: Table, u: Table, c: Id, fts: Index)
    requires Tree(t) && Anchored(t) && SameOutside(t, u, {c}) && IndexExact(t, fts)
    requires Shape(u) && Anchored(u) && c != "" && Live(u, c)
    ensures IndexExact(u, Upserted(u, fts, c))
  {
    IndexOutside(t, u, {c});
    AnchoredPaths(u);
    UpsertedRow(u, fts, c);
    MapsAgree(Upserted(u, fts, c), IndexOf(u), c);
  }

  lemma UpsertedRow(u: Table, fts: Index, c: Id)
    requires AllPaths(u) && c != "" && c != ROOT && Live(u, c)
    ensures Upserted(u, fts, c) - {c} == fts - {c}
    ensures c in Upserted(u, fts, c) <==> c in IndexOf(u)
    ensures c in Upserted(u, fts, c) ==> Upserted(u, fts, c)[c] == IndexOf(u)[c]
  {
    if IsReady(u, c) {
      assert Searchable(u, c);
    }
  }

  lemma MapsAgree<K, V>(f: map<K, V>, g: map<K, V>, c: K)
    requires f - {c} == g - {c}
    requires c in f <==> c in g
    requires c in f ==> f[c] == g[c]
    ensures f == g
  {
    forall x ensures x in f <==> x in g {
      assert x != c ==> (x in f <==> x in f - {c}) && (x in g <==> x in g - {c});
    }
    forall x | x in f ensures f[x] == g[x] {
      assert x != c ==> f[x] == (f - {c})[x] && g[x] == (g - {c})[x];
    }
  }

  /** Rows stop being searchable: deleting their index rows is enough. */
  lemma RemoveKeepsExact(t: Table, u: Table, d: set<Id>, fts: Index)
    requires Tree(t) && Anchored(t) && SameOutside(t, u, d) && IndexExact(t, fts)
    requires Shape(u) && Anchored(u) && forall x | x in d :: !IsReady(u, x)
    ensures IndexExact(u, fts - d)
  {
    IndexOutside(t, u, d);
    AnchoredPaths(u);
    assert forall x | x in d :: x !in IndexOf(u);
    assert IndexOf(u) - d == IndexOf(u);
  }

  /** Trashing a folder needs no rebuild: dropping the trashed rows leaves an exact index. */
  lemma TrashKeepsExact(t: Table, id: Id, fts: Index)
    requires Tree(t) && Anchored(t) && Live(t, id) && id != ROOT && IndexExact(t, fts)
    ensures IndexExact(Trashed(t, id), fts - ReadyDown(t, id))
  {
    var u := Trashed(t, id);
    var d := ReadyDown(t, id);
    TrashKeepsTree(t, id);
    RootNotDown(t, id);
    forall x | x !in d && IsReady(t, x) && t[x].parent.Some? ensures t[x].parent.value !in d {
      OutsideDown(t, id, x);
    }
    RemoveKeepsExact(t, u, d, fts);
  }

  /** Purging deleted rows, children before parents, touches no path. */
  lemma PurgeKeepsExact(t: Table, gone: set<Id>, fts: Index)
    requires Tree(t) && Anchored(t) && IndexExact(t, fts)
    requires DownClosed(t, gone) && forall x | x in gone && x in t :: t[x].status == Deleted
    ensures Tree(t - gone) && Anchored(t - gone) && IndexExact(t - gone, fts - gone)
  {
    hide Shape, UniqueNames, FoldersAnchored, IndexExact;
    RemoveKeepsTree(t, gone);
    RootIsFolder(t);
    forall x | x !in gone && IsReady(t, x) && t[x].parent.Some? ensures t[x].parent.value !in gone {
      ReadyParent(t, x);
    }
    RemoveKeepsExact(t, t - gone, gone, fts);
  }
}
