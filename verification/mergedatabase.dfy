/** `MergeDatabase`: the loops, on the tables of one open transaction. */
module MergeDatabases {
  import opened Wrappers
  import opened Nodes
  import opened Numerals
  import opened TreeOps
  import opened SearchIndex
  import opened Stores
  import opened ImportOrder
  import opened MergeSpec
  import opened MergeProofs
  import opened MergeRuns
  import opened MergeContents
  import opened MergeTwice

  /** The transaction: copies of the tables that `Commit` writes back. */
  class Transaction {
    var nodes: Table
    var parts: Parts
    var hashes: Hashes
    var idMap: map<Id, Id>
    var sum: Summary
    ghost var origin: map<Id, ImportNode>

    constructor (store: Store)
      ensures State() == Start(store.nodes, store.parts, store.hashes)
    {
      nodes, parts, hashes := store.nodes, store.parts, store.hashes;
      idMap := map[ROOT := ROOT];
      sum := Summary(0, 0, 0, 0, 0, 0, 0, 0);
      origin := map[];
    }

    ghost function State(): Merge
      reads this
    {
      Merge(nodes, parts, hashes, idMap, origin, sum)
    }

    method ImportChild(parent: Id, name: string) returns (r: Option<Id>)
      requires UniqueNames(nodes)
      ensures r == FindChild(nodes, parent, name)
    {
      if c :| c in nodes && IsChild(nodes, parent, name, c) {
        FindChildIs(nodes, parent, name, c);
        r := Some(c);
      } else {
        r := None;
      }
    }

    /** `uniqueImportName`: the first suffix nobody uses; it gives up after
        `MAX_SUFFIX - 1` tries and returns the first suffix again. */
    method UniqueImportName(parent: Id, name: string, isFile: bool) returns (r: string)
      requires UniqueNames(nodes)
      ensures r == UniqueName(nodes, parent, name, isFile, 1)
      ensures FindChild(nodes, parent, r).None? <==>
                exists i :: 1 <= i < MAX_SUFFIX && FindChild(nodes, parent, Suffixed(name, isFile, i)).None?
    {
      hide FindChild, UniqueNames, Suffixed;
      var i := 1;
      while i < MAX_SUFFIX
        invariant 1 <= i <= MAX_SUFFIX
        invariant UniqueName(nodes, parent, name, isFile, i) == UniqueName(nodes, parent, name, isFile, 1)
        invariant forall j | 1 <= j < i :: FindChild(nodes, parent, Suffixed(name, isFile, j)).Some?
      {
        var candidate := Suffixed(name, isFile, i);
        var taken := ImportChild(parent, candidate);
        if taken.None? {
          return candidate;
        }
        i := i + 1;
      }
      r := Suffixed(name, isFile, 1);
      assert FindChild(nodes, parent, r).Some?;
    }

    /** The part rows of a new file; a repeated part number violates the unique index. */
    method ImportAllParts(ps: seq<FilePart>, used0: set<string>, gen: Generator)
        returns (r: Result<seq<FilePart>, Error>)
      ensures r.Ok? <==> DistinctNumbers(ps)
      ensures r.Ok? ==> r.value == ImportParts(ps, used0, gen)
    {
      hide DistinctNumbers, ImportParts, Numbers;
      var rows: seq<FilePart> := [];
      var used := used0;
      var numbers: set<int> := {};
      var i := 0;
      NoNumbers(ps);
      assert rows + ImportParts(ps, used, gen) == ImportParts(ps, used0, gen);
      while i < |ps|
        invariant 0 <= i <= |ps|
        invariant rows + ImportParts(ps[i..], used, gen) == ImportParts(ps, used0, gen)
        invariant numbers == Numbers(ps[..i]) && DistinctNumbers(ps[..i])
      {
        NextNumber(ps, i);
        if ps[i].partNo in numbers {
          return Err(Conflict);
        }
        NextPart(ps, i, used, gen, rows);
        var p := ps[i].(id := if ps[i].id == "" || ps[i].id in used then gen(used + {""}) else ps[i].id);
        rows := rows + [p];
        used := used + {p.id};
        numbers := numbers + {ps[i].partNo};
        i := i + 1;
      }
      assert ps[..i] == ps && ps[i..] == [];
      NoParts(used, gen);
      assert rows + [] == rows;
      r := Ok(rows);
    }

    /** `insertImportNode` with the id and name chosen for it. */
    method InsertNode(n: ImportNode, parent: Id, name: string, gen: Generator) returns (r: Result<Id, Error>)
      requires UniqueNames(nodes) && name == ImportName(nodes, parent, n)
      modifies this`nodes, this`idMap, this`origin
      ensures r.Ok? <==> FindChild(old(nodes), parent, name).None?
      ensures r.Ok? ==> r.value == NewId(old(nodes), n.id, gen) && State() == Inserted(old(State()), n, parent, gen)
      ensures r.Err? ==> unchanged(this) && r.error == Conflict
    {
      var clash := ImportChild(parent, name);
      if clash.Some? {
        return Err(Conflict);
      }
      var id := NewId(nodes, n.id, gen);
      nodes := nodes[id := ImportedRow(n, parent, name)];
      idMap := idMap[n.id := id];
      origin := origin[id := n];
      r := Ok(id);
    }

    method ImportFolder(n: ImportNode, parent: Id, gen: Generator) returns (r: Done)
      requires UniqueNames(nodes) && n.kind == SourceFolder
      modifies this
      ensures r.Ok? <==> MergeFolder(old(State()), n, parent, gen).Ok?
      ensures r.Ok? ==> Ok(State()) == MergeFolder(old(State()), n, parent, gen)
    {
      var existing := ImportChild(parent, n.name);
      if existing.Some? && nodes[existing.value].kind == Folder {
        idMap := idMap[n.id := existing.value];
        sum := sum.(foldersMerged := sum.foldersMerged + 1);
        return Ok(());
      }
      var name := n.name;
      if existing.Some? {
        name := UniqueImportName(parent, n.name, false);
      }
      var id := InsertNode(n, parent, name, gen);
      if id.Err? {
        return Err(id.error);
      }
      sum := sum.(foldersCreated := sum.foldersCreated + 1);
      r := Ok(());
    }

    method ImportFile(n: ImportNode, parent: Id, data: ImportData, gen: Generator) returns (r: Done)
      requires UniqueNames(nodes) && n.kind == SourceFile
      modifies this
      ensures r.Ok? <==> MergeFile(old(State()), n, parent, data, gen).Ok?
      ensures r.Ok? ==> Ok(State()) == MergeFile(old(State()), n, parent, data, gen)
    {
      hide UniqueNames, FindChild, UniqueName, PartIds, DistinctNumbers, ImportParts;
      var hash := HashFor(data, n.id);
      if hash != "" && hash in hashes && IsReady(nodes, hashes[hash]) {
        idMap := idMap[n.id := hashes[hash]];
        sum := sum.(filesSkipped := sum.filesSkipped + 1);
        return Ok(());
      }
      var id := ImportRow(n, parent, gen);
      if id.Err? {
        return Err(id.error);
      }
      r := ImportContent(id.value, PartsFor(data, n.id), hash, gen);
    }

    /** The node row of a new file, under a free name. */
    method ImportRow(n: ImportNode, parent: Id, gen: Generator) returns (r: Result<Id, Error>)
      requires UniqueNames(nodes) && n.kind == SourceFile
      modifies this`nodes, this`idMap, this`origin, this`sum
      ensures r.Ok? <==> FindChild(old(nodes), parent, ImportName(old(nodes), parent, n)).None?
      ensures r.Ok? ==>
        && r.value == NewId(old(nodes), n.id, gen)
        && State().(sum := old(sum)) == Inserted(old(State()), n, parent, gen)
        && sum == old(sum).(filesImported := old(sum).filesImported + 1,
             filesRenamed := old(sum).filesRenamed + (if FindChild(old(nodes), parent, n.name).Some? then 1 else 0))
    {
      hide UniqueNames, FindChild, UniqueName, PartIds;
      var name := n.name;
      var existing := ImportChild(parent, n.name);
      if existing.Some? {
        name := UniqueImportName(parent, n.name, true);
        sum := sum.(filesRenamed := sum.filesRenamed + 1);
      }
      r := InsertNode(n, parent, name, gen);
      if r.Ok? {
        sum := sum.(filesImported := sum.filesImported + 1);
      }
    }

    /** The part rows and the hash row of a new file. */
    method ImportContent(id: Id, ps: seq<FilePart>, hash: string, gen: Generator) returns (r: Done)
      modifies this`parts, this`hashes, this`sum
      ensures r.Ok? <==> DistinctNumbers(ps)
      ensures r.Ok? ==> parts == if ps == [] then old(parts)
        else old(parts)[id := ImportParts(ps, PartIds(old(parts)), gen)]
      ensures r.Ok? ==> hashes == if hash == "" then old(hashes) else old(hashes)[hash := id]
      ensures r.Ok? ==> sum == old(sum).(partsImported := old(sum).partsImported + |ps|,
                                         hashesImported := old(sum).hashesImported + (if hash == "" then 0 else 1))
    {
      hide PartIds, DistinctNumbers, ImportParts;
      var rows := ImportAllParts(ps, PartIds(parts), gen);
      if rows.Err? {
        return Err(rows.error);
      }
      if ps != [] {
        parts := parts[id := rows.value];
      }
      sum := sum.(partsImported := sum.partsImported + |ps|);
      if hash != "" {
        hashes := hashes[hash := id];
        sum := sum.(hashesImported := sum.hashesImported + 1);
      }
      r := Ok(());
    }

    /** The body of the loop over the ordered rows. */
    method ImportOne(n: ImportNode, data: ImportData, gen: Generator) returns (r: Done)
      requires UniqueNames(nodes)
      modifies this
      ensures r.Ok? <==> MergeNode(old(State()), n, data, gen).Ok?
      ensures r.Ok? ==> Ok(State()) == MergeNode(old(State()), n, data, gen)
    {
      hide UniqueNames, MergeFolder, MergeFile;
      if n.id == ROOT {
        return Ok(());
      }
      if !n.ready || n.kind == Unknown {
        sum := sum.(nodesSkipped := sum.nodesSkipped + 1);
        return Ok(());
      }
      var parent := ROOT;
      if n.parent != "" && n.parent != ROOT {
        if n.parent !in idMap {
          sum := sum.(nodesSkipped := sum.nodesSkipped + 1);
          return Ok(());
        }
        parent := idMap[n.parent];
      }
      if n.kind == SourceFolder {
        r := ImportFolder(n, parent, gen);
      } else {
        r := ImportFile(n, parent, data, gen);
      }
    }
  }

  ghost function Numbers(ps: seq<FilePart>): set<int> {
    set i | 0 <= i < |ps| :: ps[i].partNo
  }

  lemma NoNumbers(ps: seq<FilePart>)
    ensures Numbers(ps[..0]) == {} && DistinctNumbers(ps[..0]) && ps[0..] == ps
  {}

  lemma NoParts(used: set<string>, gen: Generator)
    ensures ImportParts([], used, gen) == []
  {}

  /** A part number met before breaks the unique index; a new one does not. */
  lemma NextNumber(ps: seq<FilePart>, i: nat)
    requires i < |ps| && DistinctNumbers(ps[..i])
    ensures ps[i].partNo in Numbers(ps[..i]) ==> !DistinctNumbers(ps)
    ensures ps[i].partNo !in Numbers(ps[..i]) ==> DistinctNumbers(ps[..i + 1])
    ensures Numbers(ps[..i + 1]) == Numbers(ps[..i]) + {ps[i].partNo}
  {
    var before, after := ps[..i], ps[..i + 1];
    assert forall j | 0 <= j < i :: before[j] == ps[j] && after[j] == ps[j];
    assert after[i] == ps[i];
    forall x | x in Numbers(after) ensures x in Numbers(before) + {ps[i].partNo} {
      var j :| 0 <= j < |after| && after[j].partNo == x;
      if j < i { assert before[j].partNo == x; }
    }
    forall x | x in Numbers(before) + {ps[i].partNo} ensures x in Numbers(after) {
      if x == ps[i].partNo {
        assert after[i].partNo == x;
      } else {
        var j :| 0 <= j < |before| && before[j].partNo == x;
        assert after[j].partNo == x;
      }
    }
  }

  lemma NextPart(ps: seq<FilePart>, i: nat, used: set<string>, gen: Generator, rows: seq<FilePart>)
    requires i < |ps|
    ensures var p := ps[i].(id := if ps[i].id == "" || ps[i].id in used then gen(used + {""}) else ps[i].id);
      rows + ImportParts(ps[i..], used, gen) == rows + [p] + ImportParts(ps[i + 1..], used + {p.id}, gen)
  {
    assert ps[i..][1..] == ps[i + 1..];
  }

  lemma PrefixUnique(base: Merge, ns: seq<ImportNode>, i: nat, data: ImportData, gen: Generator, m: Merge)
    requires Unused(gen) && Opened(base) && DistinctIds(ns) && i <= |ns|
    requires MergeRun(base, ns[..i], data, gen) == Ok(m)
    ensures UniqueNames(m.nodes)
  {
    assert DistinctIds(ns[..i]);
    hide DistinctIds, MergeNode, Additive, KeepsHashes, NewRows, Mapped, UniqueNames, Opened;
    RunMerges(base, ns[..i], data, gen, m);
  }

  lemma FailsForGood(base: Merge, ns: seq<ImportNode>, i: nat, data: ImportData, gen: Generator)
    requires i <= |ns| && MergeRun(base, ns[..i], data, gen).Err?
    ensures MergeRun(base, ns, data, gen).Err?
  {
    hide MergeNode;
    if MergeRun(base, ns, data, gen).Ok? {
      RunPrefix(base, ns, data, gen, i);
    }
  }

  lemma SameIds(ns: seq<ImportNode>, out: seq<ImportNode>)
    requires DistinctIds(ns) && multiset(ns) == multiset(out)
    ensures DistinctIds(out)
  {
    forall i, j | 0 <= i < j < |out| ensures out[i].id != out[j].id {
      assert out[i] in multiset(out) && out[j] in multiset(out);
      if out[i].id == out[j].id {
        var a :| 0 <= a < |ns| && ns[a] == out[i];
        var b :| 0 <= b < |ns| && ns[b] == out[j];
        assert a == b;
        TwoPlaces(out, i, j);
        OnePlace(ns, a);
      }
    }
  }

  lemma TwoPlaces(s: seq<ImportNode>, i: nat, j: nat)
    requires i < j < |s| && s[i] == s[j]
    ensures multiset(s)[s[i]] >= 2
  {
    var x := s[i];
    assert s == s[..i] + [x] + s[i + 1..j] + [x] + s[j + 1..];
    assert multiset(s) == multiset(s[..i]) + multiset{x} + multiset(s[i + 1..j]) + multiset{x} + multiset(s[j + 1..]);
  }

  lemma OnePlace(s: seq<ImportNode>, i: nat)
    requires DistinctIds(s) && i < |s|
    ensures multiset(s)[s[i]] == 1
  {
    var x := s[i];
    assert s == s[..i] + [x] + s[i + 1..];
    assert multiset(s) == multiset(s[..i]) + multiset{x} + multiset(s[i + 1..]);
    assert x !in s[..i] && x !in s[i + 1..];
  }

  /** The tables a merge works on. */
  ghost function Tables(store: Store): (Table, Parts, Hashes)
    reads store
  {
    (store.nodes, store.parts, store.hashes)
  }

  ghost function Opening(t: (Table, Parts, Hashes)): Merge {
    Start(t.0, t.1, t.2)
  }

  /** The unique index and the foreign keys, and a root that is there. */
  ghost predicate InSchema(store: Store)
    reads store
  {
    Opened(Opening(Tables(store))) && "" !in store.nodes
  }

  lemma ValidInSchema(store: Store)
    requires store.Valid()
    ensures InSchema(store)
  {
    hide Shape, UniqueNames, FoldersAnchored;
    RootIsFolder(store.nodes);
  }

  /** The order of the merge is a permutation that puts grounded rows after their parents. */
  ghost predicate InMergeOrder(nodes: seq<ImportNode>) {
    && Indexes(ById(nodes), nodes) && ParentsFirst(ById(nodes), Ordered(nodes))
    && multiset(Ordered(nodes)) == multiset(nodes) && DistinctIds(Ordered(nodes))
  }

  /** `MergeDatabase`. All or nothing: an error leaves the store as it was. The rows are
      merged in the order `Ordered(nodes)`; `m` is the transaction that was committed. */
  method MergeDatabase(store: Store, nodes: seq<ImportNode>, data: ImportData, gen: Generator)
    returns (r: Result<Summary, Error>, ghost m: Merge)
    requires InSchema(store) && DistinctIds(nodes) && Unused(gen)
    modifies store
    ensures InSchema(store)
    ensures InMergeOrder(nodes)
    ensures var run := MergeRun(Opening(old(Tables(store))), Ordered(nodes), data, gen);
      && (r.Ok? <==> run.Ok?)
      && (r.Ok? ==> run == Ok(m) && r.value == m.sum && Tables(store) == (m.nodes, m.parts, m.hashes))
    ensures r.Ok? ==>
      Reflects(Opening(old(Tables(store))), m, Ordered(nodes), data) && r.value == Tally(Ordered(nodes), data, m)
    ensures r.Ok? ==> Rebuilt(store.nodes, store.fts) && IndexSound(store.nodes, store.fts)
    ensures r.Err? ==> unchanged(store)
    ensures r.Ok? && old(store.Valid()) ==> (store.Valid() <==> UnderFolders(m))
    ensures r.Ok? && FolderParents(nodes) && old(store.Valid()) ==> UnderFolders(m)
    ensures r.Ok? && UnderFolders(m) && old(store.Valid() && store.InStep()) ==> store.InStep()
    ensures r.Ok? && UnderFolders(m) && old(store.Valid() && StagedAnchored(store.nodes)) ==>
      StagedAnchored(store.nodes)
  {
    hide Opened, UniqueNames, DistinctIds, Indexes, ParentsFirst, Tree, Anchored, StagedAnchored, IndexExact, MergeNode;
    hide FolderParents, UnderFolders, Ordered, AllPaths, IndexSound, IndexOf, Reflects;
    ghost var base := Opening(Tables(store));
    ghost var src;
    var ordered;
    ordered, src := OrderedImportNodes(nodes);
    SameIds(nodes, ordered);
    var tx := new Transaction(store);
    var i := 0;
    while i < |ordered|
      invariant 0 <= i <= |ordered| && fresh(tx)
      invariant MergeRun(base, ordered[..i], data, gen) == Ok(tx.State())
      modifies tx
    {
      PrefixUnique(base, ordered, i, data, gen, tx.State());
      RunStep(base, ordered, data, gen, i);
      var done := tx.ImportOne(ordered[i], data, gen);
      if done.Err? {
        FailsForGood(base, ordered, i + 1, data, gen);
        return Err(done.error), base;
      }
      i := i + 1;
    }
    assert ordered[..i] == ordered;
    m := tx.State();
    CommitKeeps(store, nodes, base, ordered, data, gen, m);
    ReopenedOpens(base, ordered, data, gen, m);
    EmptyIdUnused(base, ordered, data, gen, m);
    RunReflects(base, ordered, data, gen, m);
    store.nodes, store.parts, store.hashes := tx.nodes, tx.parts, tx.hashes;
    var _ := store.RebuildFts();
    r := Ok(tx.sum);
  }

  /** The same database imported twice in a row: the second call succeeds without a new
      node, part or hash row exactly when every imported file carries a hash and no file
      stands where a folder belongs. */
  method MergeTwiceInARow(store: Store, nodes: seq<ImportNode>, data: ImportData, gen: Generator, gen2: Generator)
    returns (first: Result<Summary, Error>, second: Result<Summary, Error>, ghost m: Merge)
    requires InSchema(store) && DistinctIds(nodes) && Unused(gen) && Unused(gen2)
    modifies store
    ensures first.Ok? ==> MergeRun(Opening(old(Tables(store))), Ordered(nodes), data, gen) == Ok(m)
    ensures first.Ok? ==>
              ((second.Ok? && Tables(store) == (m.nodes, m.parts, m.hashes)) <==>
               (AllHashed(nodes, data, m) && NoFolderBlocked(nodes, m)))
  {
    hide Opened, UniqueNames, DistinctIds, Tree, Anchored, StagedAnchored, IndexExact, MergeNode, Indexes, ParentsFirst;
    hide FolderParents, UnderFolders, Ordered, AllPaths, IndexSound, IndexOf, AllHashed, NoFolderBlocked;
    ghost var base := Opening(Tables(store));
    first, m := MergeDatabase(store, nodes, data, gen);
    second := Err(NotFound);
    if first.Ok? {
      ghost var again;
      second, again := MergeDatabase(store, nodes, data, gen2);
      SecondMerge(base, Ordered(nodes), data, gen, m, gen2);
      SameRows(nodes, Ordered(nodes), data, m);
    }
  }

  /** The tables say what was imported: every row that was there, each new row as it came,
      under its parent, with its parts; each row mapped to the node with its content. */
  ghost predicate Reflects(base: Merge, m: Merge, ns: seq<ImportNode>, data: ImportData) {
    Merged(base, m, ns, data) && AllMapWell(ns, data, m) && HashRows(base, m, data)
  }

  lemma RunReflects(base: Merge, ns: seq<ImportNode>, data: ImportData, gen: Generator, m: Merge)
    requires Unused(gen) && Opened(base) && DistinctIds(ns) && MergeRun(base, ns, data, gen) == Ok(m)
    ensures Reflects(base, m, ns, data) && m.sum == Tally(ns, data, m)
  {
    hide Merged, AllMapWell, HashRows, Opened, DistinctIds, MergeRun;
    RunMerges(base, ns, data, gen, m);
    RunContents(base, ns, data, gen, m);
    RunSummary(base, ns, data, gen, m);
  }

  lemma SameRows(a: seq<ImportNode>, b: seq<ImportNode>, data: ImportData, m: Merge)
    requires multiset(a) == multiset(b)
    ensures AllHashed(a, data, m) <==> AllHashed(b, data, m)
    ensures NoFolderBlocked(a, m) <==> NoFolderBlocked(b, m)
  {
    hide FolderBlocked, HashFor;
    forall n ensures n in a <==> n in b {
      assert n in multiset(a) <==> n in multiset(b);
    }
  }

  lemma {:induction false} EmptyIdUnused(base: Merge, ns: seq<ImportNode>, data: ImportData, gen: Generator, m: Merge)
    requires Unused(gen) && Opened(base) && "" !in base.nodes && MergeRun(base, ns, data, gen) == Ok(m)
    ensures "" !in m.nodes && ROOT in m.nodes
    decreases |ns|
  {
    if ns != [] {
      var k := MergeRun(base, ns[..|ns| - 1], data, gen).value;
      EmptyIdUnused(base, ns[..|ns| - 1], data, gen, k);
      hide MergeNode, UniqueNames, FindChild, ImportParts, PartIds, PartsFor, HashFor, HashNode;
      Outcomes(k, ns[|ns| - 1], data, gen, m);
    }
  }

  lemma CommitKeeps(
      store: Store, nodes: seq<ImportNode>, base: Merge, ns: seq<ImportNode>, data: ImportData, gen: Generator,
        m: Merge)
    requires base == Opening(Tables(store)) && Opened(base)
    requires Unused(gen) && DistinctIds(ns) && multiset(ns) == multiset(nodes)
    requires MergeRun(base, ns, data, gen) == Ok(m)
    ensures m.parts.Keys <= m.nodes.Keys && m.hashes.Values <= m.nodes.Keys
    ensures store.Valid() ==> (Tree(m.nodes) <==> UnderFolders(m))
    ensures store.Valid() && FolderParents(nodes) ==> UnderFolders(m)
    ensures store.Valid() && UnderFolders(m) ==>
              && "" !in m.nodes
              && (Anchored(store.nodes) ==> Anchored(m.nodes) && AllPaths(m.nodes))
              && (StagedAnchored(store.nodes) ==> StagedAnchored(m.nodes))
  {
    hide Opened, UniqueNames, DistinctIds, Tree, Anchored, StagedAnchored, FolderParents, UnderFolders, MergeNode;
    hide Additive, KeepsHashes, NewRows, Mapped;
    RunMerges(base, ns, data, gen, m);
    if store.Valid() {
      RunTree(base, ns, data, gen, m);
      if FolderParents(nodes) {
        SameParents(nodes, ns);
        RunUnderFolders(base, ns, data, gen, m);
      }
      if UnderFolders(m) && Anchored(store.nodes) {
        PathsOfTree(m.nodes);
      }
    }
  }

  lemma SameParents(nodes: seq<ImportNode>, ns: seq<ImportNode>)
    requires multiset(ns) == multiset(nodes) && FolderParents(nodes)
    ensures FolderParents(ns)
  {
    forall n | n in ns ensures n in nodes {
      assert n in multiset(ns);
    }
  }

  lemma PathsOfTree(t: Table)
    requires Tree(t) && Anchored(t)
    ensures AllPaths(t)
  {
    AnchoredPaths(t);
  }
}
