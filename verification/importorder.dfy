/** `orderedImportNodes`: the depth walk that survives parent cycles, and the sort. */
module ImportOrder {
  import opened Wrappers
  import opened Nodes

  datatype SourceKind = SourceFile | SourceFolder | Unknown

  /** A row of the imported database; `parent` is empty for NULL. */
  datatype ImportNode = ImportNode(
    id: Id, parent: Id, name: string, kind: SourceKind, mime: string,
    size: int, ready: bool, channel: int)

  type Source = map<Id, ImportNode>

  /** The primary key of the imported table. */
  ghost predicate DistinctIds(ns: seq<ImportNode>) {
    forall i, j | 0 <= i < j < |ns| :: ns[i].id != ns[j].id
  }

  predicate TopLevel(n: ImportNode) {
    n.parent == "" || n.parent == ROOT
  }

  /** `id` stands `k` levels below a top-level row or a missing one. */
  ghost predicate LevelIs(src: Source, id: Id, k: nat)
    decreases k
  {
    if id !in src || TopLevel(src[id]) then k == 0
    else k > 0 && LevelIs(src, src[id].parent, k - 1)
  }

  /** The chain of parents ends: `id` is neither on nor below a cycle. */
  ghost predicate Grounded(src: Source, id: Id) {
    exists k: nat :: LevelIs(src, id, k)
  }

  const CYCLE_DEPTH: nat := 0x10_0000

  lemma {:induction false} LevelUnique(src: Source, id: Id, j: nat, k: nat)
    requires LevelIs(src, id, j) && LevelIs(src, id, k)
    ensures j == k
    decreases j
  {
    if j > 0 {
      LevelUnique(src, src[id].parent, j - 1, k - 1);
    }
  }

  lemma GroundedParent(src: Source, id: Id)
    requires id in src && !TopLevel(src[id])
    ensures Grounded(src, id) <==> Grounded(src, src[id].parent)
  {
    if Grounded(src, id) {
      var k: nat :| LevelIs(src, id, k);
      assert LevelIs(src, src[id].parent, k - 1);
    }
    if Grounded(src, src[id].parent) {
      var k: nat :| LevelIs(src, src[id].parent, k);
      assert LevelIs(src, id, k + 1);
    }
  }

  /** `b` is reached from `a` by k parent steps. */
  ghost predicate Leads(src: Source, a: Id, b: Id, k: nat)
    decreases k
  {
    if k == 0 then a == b
    else a in src && !TopLevel(src[a]) && Leads(src, src[a].parent, b, k - 1)
  }

  lemma {:induction false} LeadsLevel(src: Source, a: Id, b: Id, j: nat, k: nat)
    requires Leads(src, a, b, j) && LevelIs(src, a, k)
    ensures j <= k && LevelIs(src, b, k - j)
    decreases j
  {
    if j > 0 {
      LeadsLevel(src, src[a].parent, b, j - 1, k - 1);
    }
  }

  lemma {:induction false} LeadsOn(src: Source, a: Id, b: Id, k: nat)
    requires Leads(src, a, b, k) && b in src && !TopLevel(src[b])
    ensures Leads(src, a, src[b].parent, k + 1)
    decreases k
  {
    if k > 0 {
      LeadsOn(src, src[a].parent, b, k - 1);
    } else {
      assert Leads(src, src[b].parent, src[b].parent, 0);
    }
  }

  /** A row met again while its own walk is open lies on a cycle. */
  lemma BackOnItself(src: Source, id: Id, k: nat)
    requires Leads(src, id, id, k) && k > 0
    ensures !Grounded(src, id)
  {
    if Grounded(src, id) {
      var j: nat :| LevelIs(src, id, j);
      LeadsLevel(src, id, id, k, j);
      LevelUnique(src, id, j, j - k);
    }
  }

  ghost predicate Leading(src: Source, seen: set<Id>, id: Id) {
    forall a | a in seen :: exists k: nat :: k > 0 && Leads(src, a, id, k)
  }

  /** The memo table: the level of every grounded row in it, something no smaller
      than `CYCLE_DEPTH` for the others. */
  ghost predicate Memo(src: Source, depth: map<Id, int>) {
    && depth.Keys <= src.Keys
    && forall id | id in depth ::
         if Grounded(src, id) then depth[id] >= 0 && LevelIs(src, id, depth[id]) else depth[id] >= CYCLE_DEPTH
  }

  /** `walk` as a function: the memo table after it, and the depth of `id`. */
  function WalkDepth(src: Source, depth: map<Id, int>, seen: set<Id>, id: Id): (map<Id, int>, int)
    decreases src.Keys - seen
  {
    if id in depth then (depth, depth[id])
    else if id !in src then (depth, 0)
    else if TopLevel(src[id]) then (depth[id := 0], 0)
    else if id in seen then (depth[id := CYCLE_DEPTH], CYCLE_DEPTH)
    else
      var (above, d) := WalkDepth(src, depth, seen + {id}, src[id].parent);
      (above[id := d + 1], d + 1)
  }

  /** The closure `walk` with the tables it captures. */
  class DepthWalk {
    const byId: Source
    var depth: map<Id, int>
    var seen: set<Id>

    constructor (byId: Source)
      ensures this.byId == byId && depth == map[] && seen == {}
    {
      this.byId := byId;
      depth := map[];
      seen := {};
    }

    method Walk(id: Id) returns (d: int)
      requires Memo(byId, depth) && seen <= byId.Keys && Leading(byId, seen, id)
      modifies this
      ensures Memo(byId, depth) && seen == old(seen) && old(depth.Keys) <= depth.Keys
      ensures id in byId ==> id in depth && d == depth[id]
      ensures id !in byId ==> d == 0
      ensures (depth, d) == WalkDepth(byId, old(depth), old(seen), id)
      decreases |byId| - |seen|
    {
      hide Memo, Leading, Leads, LevelIs;
      MemoKeys(byId, depth);
      if id in depth {
        return depth[id];
      }
      if id !in byId {
        return 0;
      }
      var n := byId[id];
      if TopLevel(n) {
        TopMemo(byId, depth, id);
        depth := depth[id := 0];
        return 0;
      }
      if id in seen {
        CycleMemo(byId, depth, seen, id);
        depth := depth[id := CYCLE_DEPTH];
        return depth[id];
      }
      seen := seen + {id};
      StillLeading(byId, old(seen), id);
      FitsIn(seen, byId.Keys);
      d := Walk(n.parent);
      d := d + 1;
      OneDeeper(byId, depth, id, d);
      depth := depth[id := d];
      seen := seen - {id};
      assert seen == old(seen);
    }
  }

  lemma MemoKeys(src: Source, depth: map<Id, int>)
    requires Memo(src, depth)
    ensures depth.Keys <= src.Keys
  {}

  lemma TopMemo(src: Source, depth: map<Id, int>, id: Id)
    requires Memo(src, depth) && id in src && TopLevel(src[id])
    ensures Memo(src, depth[id := 0])
  {
    assert LevelIs(src, id, 0);
  }

  lemma CycleMemo(src: Source, depth: map<Id, int>, seen: set<Id>, id: Id)
    requires Memo(src, depth) && Leading(src, seen, id) && id in seen && id in src
    ensures Memo(src, depth[id := CYCLE_DEPTH])
  {
    var k: nat :| k > 0 && Leads(src, id, id, k);
    BackOnItself(src, id, k);
  }

  lemma StillLeading(src: Source, seen: set<Id>, id: Id)
    requires Leading(src, seen, id) && id in src && !TopLevel(src[id])
    ensures Leading(src, seen + {id}, src[id].parent)
  {
    forall a | a in seen + {id} ensures exists k: nat :: k > 0 && Leads(src, a, src[id].parent, k) {
      if a in seen {
        var k: nat :| k > 0 && Leads(src, a, id, k);
        LeadsOn(src, a, id, k);
      } else {
        assert Leads(src, id, id, 0);
        LeadsOn(src, id, id, 0);
      }
    }
  }

  lemma FitsIn(s: set<Id>, all: set<Id>)
    requires s <= all
    ensures |s| <= |all|
  {
    if s != {} {
      var x :| x in s;
      FitsIn(s - {x}, all - {x});
    }
  }

  lemma OneDeeper(src: Source, depth: map<Id, int>, id: Id, d: int)
    requires Memo(src, depth) && id in src && !TopLevel(src[id])
    requires var p := src[id].parent; if p in src then p in depth && d == depth[p] + 1 else d == 1
    ensures Memo(src, depth[id := d])
  {
    var p := src[id].parent;
    GroundedParent(src, id);
    if p !in src {
      assert LevelIs(src, p, 0);
      assert LevelIs(src, id, 1);
    } else if Grounded(src, p) {
      assert LevelIs(src, id, d);
    }
  }

  // ---- the sort ----

  ghost predicate SortedBy(depth: map<Id, int>, ns: seq<ImportNode>) {
    && (forall i | 0 <= i < |ns| :: ns[i].id in depth)
    && forall i, j | 0 <= i < j < |ns| :: depth[ns[i].id] <= depth[ns[j].id]
  }

  function DepthOf(depth: map<Id, int>, n: ImportNode): int {
    if n.id in depth then depth[n.id] else 0
  }

  /** Where a stable sort puts one more element: after its equals. */
  function InsertOrdered(sorted: seq<ImportNode>, depth: map<Id, int>, n: ImportNode): seq<ImportNode> {
    if sorted != [] && DepthOf(depth, sorted[|sorted| - 1]) > DepthOf(depth, n)
    then InsertOrdered(sorted[..|sorted| - 1], depth, n) + [sorted[|sorted| - 1]]
    else sorted + [n]
  }

  /** `sort.SliceStable` by depth. */
  function StableSort(nodes: seq<ImportNode>, depth: map<Id, int>): seq<ImportNode> {
    if nodes == [] then [] else InsertOrdered(StableSort(nodes[..|nodes| - 1], depth), depth, nodes[|nodes| - 1])
  }

  /** The rows of one depth, in their order. */
  function AtDepth(nodes: seq<ImportNode>, depth: map<Id, int>, d: int): seq<ImportNode> {
    if nodes == [] then []
    else
      var n := nodes[|nodes| - 1];
      AtDepth(nodes[..|nodes| - 1], depth, d) + (if DepthOf(depth, n) == d then [n] else [])
  }

  lemma {:induction false} InsertIsStable(sorted: seq<ImportNode>, depth: map<Id, int>, n: ImportNode, d: int)
    ensures AtDepth(InsertOrdered(sorted, depth, n), depth, d) == AtDepth(sorted + [n], depth, d)
    decreases |sorted|
  {
    assert (sorted + [n])[..|sorted|] == sorted;
    if sorted != [] && DepthOf(depth, sorted[|sorted| - 1]) > DepthOf(depth, n) {
      var before, last := sorted[..|sorted| - 1], sorted[|sorted| - 1];
      InsertIsStable(before, depth, n, d);
      var out := InsertOrdered(before, depth, n);
      assert (out + [last])[..|out|] == out;
      assert (before + [n])[..|before|] == before;
    }
  }

  /** Rows of equal depth keep the order they were read in. */
  lemma {:induction false} SortIsStable(nodes: seq<ImportNode>, depth: map<Id, int>, d: int)
    ensures AtDepth(StableSort(nodes, depth), depth, d) == AtDepth(nodes, depth, d)
    decreases |nodes|
  {
    if nodes != [] {
      var before, n := nodes[..|nodes| - 1], nodes[|nodes| - 1];
      SortIsStable(before, depth, d);
      var sorted := StableSort(before, depth);
      InsertIsStable(sorted, depth, n, d);
      assert (sorted + [n])[..|sorted|] == sorted;
    }
  }

  method InsertByDepth(sorted: seq<ImportNode>, depth: map<Id, int>, n: ImportNode) returns (out: seq<ImportNode>)
    requires SortedBy(depth, sorted) && n.id in depth
    ensures SortedBy(depth, out) && multiset(out) == multiset(sorted) + multiset{n}
    ensures out == InsertOrdered(sorted, depth, n)
  {
    hide InsertOrdered;
    var i := |sorted|;
    assert sorted[..i] == sorted && sorted[i..] == [];
    assert InsertOrdered(sorted, depth, n) + [] == InsertOrdered(sorted, depth, n);
    while i > 0 && depth[sorted[i - 1].id] > depth[n.id]
      invariant 0 <= i <= |sorted|
      invariant forall k | i <= k < |sorted| :: depth[sorted[k].id] > depth[n.id]
      invariant InsertOrdered(sorted, depth, n) == InsertOrdered(sorted[..i], depth, n) + sorted[i..]
    {
      InsertBefore(sorted, depth, n, i);
      i := i - 1;
    }
    hide SortedBy;
    InsertHere(sorted, depth, n, i);
    InsertSorts(sorted, depth, n, i);
    out := sorted[..i] + [n] + sorted[i..];
  }

  lemma InsertBefore(sorted: seq<ImportNode>, depth: map<Id, int>, n: ImportNode, i: nat)
    requires 0 < i <= |sorted| && DepthOf(depth, sorted[i - 1]) > DepthOf(depth, n)
    ensures InsertOrdered(sorted[..i], depth, n) + sorted[i..] ==
      InsertOrdered(sorted[..i - 1], depth, n) + sorted[i - 1..]
  {
    assert sorted[..i][..i - 1] == sorted[..i - 1];
    assert [sorted[i - 1]] + sorted[i..] == sorted[i - 1..];
  }

  lemma InsertHere(sorted: seq<ImportNode>, depth: map<Id, int>, n: ImportNode, i: nat)
    requires i <= |sorted| && (i > 0 ==> DepthOf(depth, sorted[i - 1]) <= DepthOf(depth, n))
    ensures InsertOrdered(sorted[..i], depth, n) + sorted[i..] == sorted[..i] + [n] + sorted[i..]
  {}

  lemma InsertSorts(sorted: seq<ImportNode>, depth: map<Id, int>, n: ImportNode, i: nat)
    requires SortedBy(depth, sorted) && n.id in depth && i <= |sorted|
    requires i > 0 ==> depth[sorted[i - 1].id] <= depth[n.id]
    requires forall k | i <= k < |sorted| :: depth[sorted[k].id] > depth[n.id]
    ensures SortedBy(depth, sorted[..i] + [n] + sorted[i..])
    ensures multiset(sorted[..i] + [n] + sorted[i..]) == multiset(sorted) + multiset{n}
  {
    hide SortedBy;
    InsertMultiset(sorted, n, i);
    InsertAt(sorted, depth, n, i, sorted[..i] + [n] + sorted[i..]);
  }

  lemma InsertMultiset<T>(sorted: seq<T>, n: T, i: nat)
    requires i <= |sorted|
    ensures multiset(sorted[..i] + [n] + sorted[i..]) == multiset(sorted) + multiset{n}
  {
    assert sorted == sorted[..i] + sorted[i..];
    assert multiset(sorted) == multiset(sorted[..i]) + multiset(sorted[i..]);
  }

  lemma InsertAt(sorted: seq<ImportNode>, depth: map<Id, int>, n: ImportNode, i: nat, out: seq<ImportNode>)
    requires SortedBy(depth, sorted) && n.id in depth && i <= |sorted| && |out| == |sorted| + 1
    requires forall k {:trigger out[k]} | 0 <= k < i :: out[k] == sorted[k]
    requires out[i] == n
    requires forall k {:trigger out[k]} | i < k < |out| :: out[k] == sorted[k - 1]
    requires i > 0 ==> depth[sorted[i - 1].id] <= depth[n.id]
    requires forall k | i <= k < |sorted| :: depth[sorted[k].id] > depth[n.id]
    ensures SortedBy(depth, out)
  {
    forall k | 0 <= k < |out| ensures out[k].id in depth {
      assert k < i ==> out[k] == sorted[k];
      assert k > i ==> out[k] == sorted[k - 1];
    }
    forall j, k | 0 <= j < k < |out| ensures depth[out[j].id] <= depth[out[k].id] {
      if k < i {
        assert out[j] == sorted[j] && out[k] == sorted[k];
      } else if j > i {
        assert out[j] == sorted[j - 1] && out[k] == sorted[k - 1];
      } else if j < i {
        assert out[j] == sorted[j] && depth[sorted[j].id] <= depth[sorted[i - 1].id];
        assert k > i ==> out[k] == sorted[k - 1] && depth[sorted[k - 1].id] > depth[n.id];
      } else {
        assert j == i && out[i] == n;
        assert out[k] == sorted[k - 1] && depth[sorted[k - 1].id] > depth[n.id];
      }
    }
  }

  /** A grounded row comes after its parent. */
  ghost predicate ParentsFirst(src: Source, ns: seq<ImportNode>) {
    forall i | 0 <= i < |ns| && !TopLevel(ns[i]) && ns[i].parent in src && Grounded(src, ns[i].id) ::
      exists j | 0 <= j < i :: ns[j].id == ns[i].parent
  }

  ghost predicate Indexes(src: Source, ns: seq<ImportNode>) {
    && (forall n | n in ns :: n.id in src && src[n.id] == n)
    && (forall id | id in src :: src[id] in ns && src[id].id == id)
  }

  function ById(nodes: seq<ImportNode>): Source {
    if nodes == [] then map[] else ById(nodes[..|nodes| - 1])[nodes[|nodes| - 1].id := nodes[|nodes| - 1]]
  }

  /** The memo table after every row was walked. */
  function AllDepths(src: Source, nodes: seq<ImportNode>): map<Id, int> {
    if nodes == [] then map[]
    else WalkDepth(src, AllDepths(src, nodes[..|nodes| - 1]), {}, nodes[|nodes| - 1].id).0
  }

  /** The order of the merge: a function of the rows as they were read. */
  function Ordered(nodes: seq<ImportNode>): seq<ImportNode> {
    StableSort(nodes, AllDepths(ById(nodes), nodes))
  }

  method IndexById(nodes: seq<ImportNode>) returns (byId: Source)
    requires DistinctIds(nodes)
    ensures Indexes(byId, nodes) && byId == ById(nodes)
  {
    hide Indexes, DistinctIds, ById;
    byId := map[];
    var i := 0;
    assert byId == ById(nodes[..i]) && Indexes(byId, nodes[..i]) by { NothingIndexed(nodes); }
    while i < |nodes|
      invariant 0 <= i <= |nodes|
      invariant Indexes(byId, nodes[..i]) && byId == ById(nodes[..i])
    {
      IndexStep(byId, nodes, i);
      byId := byId[nodes[i].id := nodes[i]];
      i := i + 1;
    }
    assert nodes[..i] == nodes;
  }

  lemma NothingIndexed(nodes: seq<ImportNode>)
    ensures ById(nodes[..0]) == map[] && Indexes(map[], nodes[..0])
  {}

  lemma IndexStep(byId: Source, nodes: seq<ImportNode>, i: nat)
    requires i < |nodes| && DistinctIds(nodes) && Indexes(byId, nodes[..i]) && byId == ById(nodes[..i])
    ensures Indexes(byId[nodes[i].id := nodes[i]], nodes[..i + 1])
    ensures byId[nodes[i].id := nodes[i]] == ById(nodes[..i + 1])
  {
    hide Indexes;
    assert nodes[..i + 1] == nodes[..i] + [nodes[i]];
    assert nodes[..i + 1][..i] == nodes[..i];
    forall n | n in nodes[..i] ensures n.id != nodes[i].id {
      var k :| 0 <= k < i && nodes[k] == n;
    }
    IndexAdd(byId, nodes[..i], nodes[i]);
  }

  lemma IndexAdd(byId: Source, ns: seq<ImportNode>, n: ImportNode)
    requires Indexes(byId, ns) && forall m | m in ns :: m.id != n.id
    ensures Indexes(byId[n.id := n], ns + [n])
  {
    var all := ns + [n];
    assert n in all;
    assert forall m | m in all :: m in ns || m == n;
    assert forall m | m in ns :: m in all;
  }

  method Depths(nodes: seq<ImportNode>, byId: Source) returns (depth: map<Id, int>)
    requires Indexes(byId, nodes)
    ensures Memo(byId, depth) && forall n | n in nodes :: n.id in depth
    ensures depth == AllDepths(byId, nodes)
  {
    hide Memo, WalkDepth;
    var w := new DepthWalk(byId);
    var i := 0;
    assert Memo(byId, map[]) by { EmptyMemo(byId); }
    while i < |nodes|
      invariant 0 <= i <= |nodes|
      invariant fresh(w) && w.byId == byId && w.seen == {} && Memo(byId, w.depth)
      invariant forall k | 0 <= k < i :: nodes[k].id in w.depth
      invariant w.depth == AllDepths(byId, nodes[..i])
    {
      assert nodes[i] in nodes;
      assert nodes[..i + 1][..i] == nodes[..i];
      var _ := w.Walk(nodes[i].id);
      i := i + 1;
    }
    assert nodes[..i] == nodes;
    depth := w.depth;
  }

  lemma EmptyMemo(src: Source)
    ensures Memo(src, map[])
  {}

  method SortByDepth(nodes: seq<ImportNode>, depth: map<Id, int>) returns (out: seq<ImportNode>)
    requires forall n | n in nodes :: n.id in depth
    ensures SortedBy(depth, out) && multiset(out) == multiset(nodes)
    ensures out == StableSort(nodes, depth)
  {
    hide SortedBy, StableSort;
    out := [];
    var i := 0;
    NothingSorted(nodes, depth);
    while i < |nodes|
      invariant 0 <= i <= |nodes|
      invariant SortedBy(depth, out) && multiset(out) == multiset(nodes[..i])
      invariant out == StableSort(nodes[..i], depth)
    {
      assert nodes[..i + 1] == nodes[..i] + [nodes[i]];
      SortStep(nodes, depth, i);
      out := InsertByDepth(out, depth, nodes[i]);
      i := i + 1;
    }
    assert nodes[..i] == nodes;
  }

  lemma NothingSorted(nodes: seq<ImportNode>, depth: map<Id, int>)
    ensures StableSort(nodes[..0], depth) == [] && SortedBy(depth, []) && multiset(nodes[..0]) == multiset{}
  {}

  lemma SortStep(nodes: seq<ImportNode>, depth: map<Id, int>, i: nat)
    requires i < |nodes|
    ensures StableSort(nodes[..i + 1], depth) == InsertOrdered(StableSort(nodes[..i], depth), depth, nodes[i])
  {
    assert nodes[..i + 1][..i] == nodes[..i];
  }

  /** It ends on any parent graph; the result is the stable sort of the rows by depth,
      a permutation that puts every grounded row after its parent. */
  method OrderedImportNodes(nodes: seq<ImportNode>) returns (out: seq<ImportNode>, ghost src: Source)
    requires DistinctIds(nodes)
    ensures out == Ordered(nodes) && src == ById(nodes)
    ensures Indexes(src, nodes)
    ensures multiset(out) == multiset(nodes)
    ensures ParentsFirst(src, out)
  {
    hide DistinctIds, Indexes, ParentsFirst, SortedBy, Memo, StableSort, AllDepths, ById;
    var byId := IndexById(nodes);
    src := byId;
    var depth := Depths(nodes, byId);
    out := SortByDepth(nodes, depth);
    SortPutsParentsFirst(src, nodes, out, depth);
  }

  lemma SortPutsParentsFirst(src: Source, nodes: seq<ImportNode>, out: seq<ImportNode>, depth: map<Id, int>)
    requires Indexes(src, nodes) && multiset(out) == multiset(nodes) && Memo(src, depth) && SortedBy(depth, out)
    ensures ParentsFirst(src, out)
  {
    forall i | 0 <= i < |out| && !TopLevel(out[i]) && out[i].parent in src && Grounded(src, out[i].id)
      ensures exists j | 0 <= j < i :: out[j].id == out[i].parent
    {
      var n := out[i];
      assert n in multiset(out);
      assert n in nodes && src[n.id] == n;
      var p := src[n.parent];
      assert p in nodes;
      assert p in multiset(nodes) && p in multiset(out);
      var j :| 0 <= j < |out| && out[j] == p;
      GroundedParent(src, n.id);
      assert LevelIs(src, n.id, depth[n.id]) && LevelIs(src, p.id, depth[p.id]);
      LevelUnique(src, p.id, depth[p.id], depth[n.id] - 1);
      assert j < i;
    }
  }
}
