/** Whole merges: what they add, which rows they map, and merging twice. */
module MergeRuns {
  import opened Wrappers
  import opened Nodes
  import opened TreeOps
  import opened Stores
  import opened ImportOrder
  import opened MergeSpec
  import opened MergeProofs

  // ---- every run ----

  /** A transaction opened on tables that satisfy the foreign keys. */
  ghost predicate Opened(base: Merge) {
    && base == Start(base.nodes, base.parts, base.hashes)
    && Live(base.nodes, ROOT) && UniqueNames(base.nodes)
    && base.parts.Keys <= base.nodes.Keys && base.hashes.Values <= base.nodes.Keys
  }

  /** Additive, structure-preserving, and within the schema. */
  ghost predicate Merged(base: Merge, m: Merge, ns: seq<ImportNode>, data: ImportData) {
    && Additive(base, m) && KeepsHashes(base, m) && NewRows(base, m, data) && Mapped(m, ns)
    && ROOT in m.nodes && UniqueNames(m.nodes)
    && m.parts.Keys <= m.nodes.Keys && m.hashes.Values <= m.nodes.Keys
  }

  lemma StepSchema(m: Merge, n: ImportNode, data: ImportData, gen: Generator, k: Merge)
    requires Unused(gen) && ROOT in m.nodes && UniqueNames(m.nodes) && m.hashes.Values <= m.nodes.Keys
    requires MergeNode(m, n, data, gen) == Ok(k)
    ensures UniqueNames(k.nodes) && k.hashes.Values <= k.nodes.Keys
  {
    hide MergeNode, ImportParts, PartIds, PartsFor, HashFor, UniqueNames, HashNode, FindChild;
    Outcomes(m, n, data, gen, k);
    if id, parent, name :| InsertsAs(m, n, data, gen, k, id, parent, name) {
      NewNameUnique(m.nodes, id, ImportedRow(n, parent, name), parent);
    }
  }

  lemma NewNameUnique(t: Table, id: Id, row: Node, parent: Id)
    requires UniqueNames(t) && row.parent == Some(parent) && FindChild(t, parent, row.name).None?
    ensures UniqueNames(t[id := row])
  {
    hide UniqueNames;
    var u := t[id := row];
    forall x | x != id && Live(u, x) && Live(u, id) && u[id].parent.Some? && u[x].parent == u[id].parent
      ensures u[x].name != u[id].name
    {
      assert !IsChild(t, parent, row.name, x);
    }
    OneRowUnique(t, u, id);
  }

  lemma DistinctPrefix(ns: seq<ImportNode>)
    requires DistinctIds(ns) && ns != []
    ensures DistinctIds(ns[..|ns| - 1]) && NewTo(ns[..|ns| - 1], ns[|ns| - 1])
  {}

  /** Every successful merge, row by row. */
  lemma {:induction false} RunMerges(base: Merge, ns: seq<ImportNode>, data: ImportData, gen: Generator, m: Merge)
    requires Unused(gen) && Opened(base) && DistinctIds(ns)
    requires MergeRun(base, ns, data, gen) == Ok(m)
    ensures Merged(base, m, ns, data)
    ensures forall x | x in m.origin :: x in m.nodes && Copied(m.origin[x], m.nodes[x])
    decreases |ns|
  {
    hide Copied;
    hide DistinctIds, NewTo, MergeNode, Additive, KeepsHashes, NewRow, Mapped, UniqueNames, HashNode;
    if ns == [] {
      NothingMerged(base, data);
    } else {
      var before, n := ns[..|ns| - 1], ns[|ns| - 1];
      DistinctPrefix(ns);
      var k := MergeRun(base, before, data, gen).value;
      RunMerges(base, before, data, gen, k);
      if n.id == ROOT {
        RootSkipped(k, n, data, gen);
        StepMapped(k, before, n, data, gen, m);
      } else {
        NotMappedYet(k, before, n);
        StepAdds(k, n, data, gen, m);
        AddsTrans(base, k, m);
        HashesTrans(base, k, m);
        StepNewRows(base, k, n, data, gen, m);
        StepMapped(k, before, n, data, gen, m);
        StepSchema(k, n, data, gen, m);
      }
      assert ns == before + [n];
    }
    MergedCopies(base, m, ns, data);
  }

  lemma MergedCopies(base: Merge, m: Merge, ns: seq<ImportNode>, data: ImportData)
    requires Merged(base, m, ns, data)
    ensures forall x | x in m.origin :: x in m.nodes && Copied(m.origin[x], m.nodes[x])
  {
    hide Copied, Renamed, SameParts;
    forall x | x in m.origin ensures x in m.nodes && Copied(m.origin[x], m.nodes[x]) {
      assert NewRow(m, data, x);
    }
  }

  lemma RootSkipped(m: Merge, n: ImportNode, data: ImportData, gen: Generator)
    requires n.id == ROOT
    ensures MergeNode(m, n, data, gen) == Ok(m)
  {}

  lemma NothingMerged(base: Merge, data: ImportData)
    requires Opened(base)
    ensures Merged(base, base, [], data)
  {}

  lemma HashesTrans(a: Merge, b: Merge, c: Merge)
    requires KeepsHashes(a, b) && KeepsHashes(b, c)
    ensures KeepsHashes(a, c)
  {
    hide HashNode;
  }

  /** A merge keeps the tree exactly when it inserted no row below a file. */
  lemma {:induction false} RunTree(base: Merge, ns: seq<ImportNode>, data: ImportData, gen: Generator, m: Merge)
    requires Unused(gen) && Opened(base) && DistinctIds(ns) && Tree(base.nodes) && "" !in base.nodes
    requires MergeRun(base, ns, data, gen) == Ok(m)
    ensures Tree(m.nodes) <==> UnderFolders(m)
    ensures UnderFolders(m) ==> "" !in m.nodes
    ensures UnderFolders(m) && Anchored(base.nodes) ==> Anchored(m.nodes)
    ensures UnderFolders(m) && StagedAnchored(base.nodes) ==> StagedAnchored(m.nodes)
    decreases |ns|
  {
    hide DistinctIds, NewTo, MergeNode, Opened, Tree, Anchored, StagedAnchored, UnderFolders, Merged;
    RunMerges(base, ns, data, gen, m);
    if ns != [] {
      var before, n := ns[..|ns| - 1], ns[|ns| - 1];
      DistinctPrefix(ns);
      var k := MergeRun(base, before, data, gen).value;
      RunMerges(base, before, data, gen, k);
      if UnderFolders(m) {
        FewerRows(base, before, k, n, data, gen, m);
        RunTree(base, before, data, gen, k);
        MergedMapped(base, k, before, data);
        StepTree(k, before, n, data, gen, m);
      }
      if Tree(m.nodes) {
        TreeUnderFolders(base, m, ns, data);
      }
    } else {
      assert m == base;
      NoNewRows(base);
    }
  }

  lemma NoNewRows(base: Merge)
    requires Opened(base)
    ensures UnderFolders(base)
  {}

  lemma MergedMapped(base: Merge, m: Merge, ns: seq<ImportNode>, data: ImportData)
    requires Merged(base, m, ns, data)
    ensures Mapped(m, ns)
  {}

  lemma TreeUnderFolders(base: Merge, m: Merge, ns: seq<ImportNode>, data: ImportData)
    requires Opened(base) && Merged(base, m, ns, data) && Tree(m.nodes)
    ensures UnderFolders(m)
  {
    hide Additive, KeepsHashes, NewRow, Mapped, UniqueNames, FoldersAnchored;
    forall x | x in m.origin ensures ParentRow(m.nodes, x) {
      RowParent(m.nodes, x);
    }
  }

  /** What holds of the inserted rows in the end holds of those inserted before. */
  lemma FewerRows(base: Merge, before: seq<ImportNode>, k: Merge, n: ImportNode, data: ImportData, gen: Generator,
      m: Merge)
    requires Unused(gen) && Merged(base, k, before, data) && NewTo(before, n)
    requires MergeNode(k, n, data, gen) == Ok(m) && UnderFolders(m)
    ensures UnderFolders(k)
  {
    hide KeepsHashes, Mapped, UniqueNames, MergeNode, NewRow;
    if n.id == ROOT {
      RootSkipped(k, n, data, gen);
    } else {
      NotMappedYet(k, before, n);
      StepAdds(k, n, data, gen, m);
      StepOrigin(k, n, data, gen, m);
      forall x | x in k.origin ensures ParentRow(k.nodes, x) {
        NewRowParent(k, before, data, x);
        assert ParentRow(m.nodes, x);
      }
    }
  }

  lemma NewRowParent(m: Merge, ns: seq<ImportNode>, data: ImportData, x: Id)
    requires Mapped(m, ns) && NewRow(m, data, x) && ROOT in m.nodes
    ensures m.nodes[x].parent.Some? && m.nodes[x].parent.value in m.nodes
  {}

  /** Rows inserted before stay recorded. */
  lemma StepOrigin(m: Merge, n: ImportNode, data: ImportData, gen: Generator, k: Merge)
    requires Unused(gen) && ROOT in m.nodes && m.origin.Keys <= m.nodes.Keys && MergeNode(m, n, data, gen) == Ok(k)
    ensures forall x | x in m.origin :: x in k.origin && k.origin[x] == m.origin[x]
    ensures forall x | x in k.origin ::
      (x in m.origin && k.origin[x] == m.origin[x]) || (n.id != ROOT && k.origin[x] == n)
  {
    hide MergeNode, FindChild, ImportParts, PartIds, PartsFor, HashFor, HashNode;
    Outcomes(m, n, data, gen, k);
  }

  /** Each new row came from an imported row other than the root. */
  lemma {:induction false} OriginsAreRows(base: Merge, ns: seq<ImportNode>, data: ImportData, gen: Generator, m: Merge)
    requires Unused(gen) && Opened(base) && DistinctIds(ns) && MergeRun(base, ns, data, gen) == Ok(m)
    ensures forall x | x in m.origin :: m.origin[x] in ns && m.origin[x].id != ROOT
    decreases |ns|
  {
    hide DistinctIds, MergeNode, Merged, Reached, FindChild, ImportParts, PartIds, PartsFor, HashFor, HashNode;
    if ns != [] {
      var before, n := ns[..|ns| - 1], ns[|ns| - 1];
      DistinctPrefix(ns);
      var k := MergeRun(base, before, data, gen).value;
      OriginsAreRows(base, before, data, gen, k);
      RunMerges(base, before, data, gen, k);
      MergedMap(base, k, before, data, n);
      MergedOrigin(base, k, before, data);
      StepOrigin(k, n, data, gen, m);
      assert forall q | q in before :: q in ns;
    }
  }

  lemma MergedOrigin(base: Merge, m: Merge, ns: seq<ImportNode>, data: ImportData)
    requires Merged(base, m, ns, data)
    ensures m.origin.Keys <= m.nodes.Keys && UniqueNames(m.nodes)
  {}

  /** A source whose parents are folders leaves no row below a file. */
  lemma RunUnderFolders(base: Merge, ns: seq<ImportNode>, data: ImportData, gen: Generator, m: Merge)
    requires Unused(gen) && Opened(base) && DistinctIds(ns) && Tree(base.nodes)
    requires MergeRun(base, ns, data, gen) == Ok(m) && FolderParents(ns)
    ensures UnderFolders(m)
  {
    hide DistinctIds, Opened, MergeNode, KeepsHashes, Additive, NewRows, Mapped, UniqueNames, FoldersAnchored,
      UnderFolders;
    RunMerges(base, ns, data, gen, m);
    OriginsAreRows(base, ns, data, gen, m);
    RootIsFolder(base.nodes);
    FolderParentsSuffice(base, m, ns, data);
  }

  /** Each row but the root is counted once, in one of the five counters. */
  lemma {:induction false} RunCounts(base: Merge, ns: seq<ImportNode>, data: ImportData, gen: Generator, m: Merge)
    requires base.sum == Summary(0, 0, 0, 0, 0, 0, 0, 0)
    requires MergeRun(base, ns, data, gen) == Ok(m)
    ensures NodeCount(m.sum) == NotRoot(ns)
    decreases |ns|
  {
    hide MergeNode;
    if ns != [] {
      var k := MergeRun(base, ns[..|ns| - 1], data, gen).value;
      RunCounts(base, ns[..|ns| - 1], data, gen, k);
      StepCounts(k, ns[|ns| - 1], data, gen, m);
    }
  }

  // ---- which rows are mapped ----

  predicate Importable(n: ImportNode) {
    n.id != ROOT && n.ready && n.kind != Unknown
  }

  /** `id` and the k rows above it are importable, and the last one is at top level. */
  ghost predicate GoodBy(src: Source, id: Id, k: nat)
    decreases k
  {
    id in src && Importable(src[id]) &&
    (if TopLevel(src[id]) then k == 0 else k > 0 && GoodBy(src, src[id].parent, k - 1))
  }

  ghost predicate Good(src: Source, id: Id) {
    exists k: nat :: GoodBy(src, id, k)
  }

  lemma GoodParent(src: Source, id: Id)
    requires id in src && !TopLevel(src[id])
    ensures Good(src, id) <==> Importable(src[id]) && Good(src, src[id].parent)
  {
    if Good(src, id) {
      var k: nat :| GoodBy(src, id, k);
      assert GoodBy(src, src[id].parent, k - 1);
    }
    if Importable(src[id]) && Good(src, src[id].parent) {
      var k: nat :| GoodBy(src, src[id].parent, k);
      assert GoodBy(src, id, k + 1);
    }
  }

  lemma GoodTop(src: Source, id: Id)
    requires id in src && TopLevel(src[id])
    ensures Good(src, id) <==> Importable(src[id])
  {
    if Importable(src[id]) {
      assert GoodBy(src, id, 0);
    }
  }

  lemma {:induction false} GoodByLevel(src: Source, id: Id, k: nat)
    requires GoodBy(src, id, k)
    ensures LevelIs(src, id, k)
    decreases k
  {
    if k > 0 {
      GoodByLevel(src, src[id].parent, k - 1);
    }
  }

  /** Nothing on or below a parent cycle is good. */
  lemma GoodIsGrounded(src: Source, id: Id)
    requires Good(src, id)
    ensures Grounded(src, id)
  {
    var k: nat :| GoodBy(src, id, k);
    GoodByLevel(src, id, k);
  }

  ghost predicate MapsGood(src: Source, ns: seq<ImportNode>, m: Merge) {
    && (forall x | x in m.idMap && x != ROOT :: Good(src, x))
    && (forall n | n in ns && Good(src, n.id) :: n.id in m.idMap)
  }

  lemma ReachedIsGood(src: Source, ns: seq<ImportNode>, m: Merge, n: ImportNode)
    requires n.id in src && src[n.id] == n && MapsGood(src, ns, m) && ROOT in m.idMap
    requires !TopLevel(n) && Good(src, n.id) ==> exists p :: p in ns && p.id == n.parent
    ensures Reached(m, n) <==> Good(src, n.id)
  {
    if TopLevel(n) {
      GoodTop(src, n.id);
    } else {
      GoodParent(src, n.id);
      if Good(src, n.id) {
        var p :| p in ns && p.id == n.parent;
      }
    }
  }

  lemma ParentBefore(src: Source, nodes: seq<ImportNode>, ns: seq<ImportNode>, i: nat)
    requires Indexes(src, nodes) && multiset(ns) == multiset(nodes) && ParentsFirst(src, ns) && i < |ns|
    requires !TopLevel(ns[i]) && Good(src, ns[i].id)
    ensures ns[i].id in src && src[ns[i].id] == ns[i]
    ensures exists p :: p in ns[..i] && p.id == ns[i].parent
  {
    var n := ns[i];
    assert n in multiset(ns) && n in nodes;
    GoodIsGrounded(src, n.id);
    GoodParent(src, n.id);
    var j :| 0 <= j < i && ns[j].id == n.parent;
    assert ns[..i][j] == ns[j];
  }

  /** The merge maps exactly the importable rows whose ancestors are all importable
      and reach top level; in particular nothing on or below a parent cycle. */
  lemma {:induction false} RunMaps(
      src: Source, nodes: seq<ImportNode>, ns: seq<ImportNode>, i: nat,
      base: Merge, data: ImportData, gen: Generator, m: Merge)
    requires Unused(gen) && Opened(base) && DistinctIds(ns)
    requires Indexes(src, nodes) && multiset(ns) == multiset(nodes) && ParentsFirst(src, ns) && i <= |ns|
    requires MergeRun(base, ns[..i], data, gen) == Ok(m)
    ensures MapsGood(src, ns[..i], m)
    decreases i
  {
    hide Indexes, ParentsFirst, Good, MergeNode, Merged, Opened, Mapped, Grounded, Reached, KeepsHashes, Additive;
    if i == 0 {
      assert m == base && base == Start(base.nodes, base.parts, base.hashes) by { OpenedIsStart(base); }
    } else {
      var n := ns[i - 1];
      RunStep(base, ns, data, gen, i - 1);
      var k := MergeRun(base, ns[..i - 1], data, gen).value;
      RunMaps(src, nodes, ns, i - 1, base, data, gen, k);
      TakeDistinct(ns, i - 1);
      RunMerges(base, ns[..i - 1], data, gen, k);
      MergedMap(base, k, ns[..i - 1], data, n);
      FromSource(src, nodes, ns, i - 1);
      if !TopLevel(n) && Good(src, n.id) {
        ParentBefore(src, nodes, ns, i - 1);
      }
      ReachedIsGood(src, ns[..i - 1], k, n);
      if n.id == ROOT {
        RootSkipped(k, n, data, gen);
        NotGood(src, n);
      } else {
        StepAdds(k, n, data, gen, m);
        StepMapsOne(k, n, data, gen, m);
      }
      assert ns[..i] == ns[..i - 1] + [n];
      MapsOneMore(src, ns[..i - 1], n, k, m);
    }
  }

  lemma MapsOneMore(src: Source, ns: seq<ImportNode>, n: ImportNode, k: Merge, m: Merge)
    requires MapsGood(src, ns, k) && KeepsMap(k.idMap, m.idMap)
    requires forall x | x in m.idMap :: x in k.idMap || x == n.id
    requires n.id in m.idMap && n.id != ROOT ==> Good(src, n.id)
    requires Good(src, n.id) ==> n.id in m.idMap
    ensures MapsGood(src, ns + [n], m)
  {
    hide Good;
    assert forall q | q in ns + [n] :: q in ns || q == n;
  }

  lemma OpenedIsStart(base: Merge)
    requires Opened(base)
    ensures base == Start(base.nodes, base.parts, base.hashes)
  {}

  lemma NotGood(src: Source, n: ImportNode)
    requires n.id == ROOT && n.id in src && src[n.id] == n
    ensures !Good(src, n.id)
  {}

  lemma FromSource(src: Source, nodes: seq<ImportNode>, ns: seq<ImportNode>, i: nat)
    requires Indexes(src, nodes) && multiset(ns) == multiset(nodes) && i < |ns|
    ensures ns[i].id in src && src[ns[i].id] == ns[i]
  {
    assert ns[i] in multiset(ns);
    assert ns[i] in nodes;
  }

  lemma TakeDistinct(ns: seq<ImportNode>, i: nat)
    requires DistinctIds(ns) && i < |ns|
    ensures DistinctIds(ns[..i]) && NewTo(ns[..i], ns[i])
  {}

  lemma MergedMap(base: Merge, m: Merge, ns: seq<ImportNode>, data: ImportData, n: ImportNode)
    requires Merged(base, m, ns, data) && NewTo(ns, n)
    ensures ROOT in m.idMap && ROOT in m.nodes && m.parts.Keys <= m.nodes.Keys
    ensures n.id != ROOT ==> n.id !in m.idMap
  {}
}
