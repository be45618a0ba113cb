/** What the mapping and the summary of a merge say, in terms of its result. */
module MergeContents {
  import opened Wrappers
  import opened Nodes
  import opened TreeOps
  import opened Stores
  import opened ImportOrder
  import opened MergeSpec
  import opened MergeProofs
  import opened MergeRuns

  // ---- where a row is mapped to ----

  /** The row came in as a new node. */
  ghost predicate IsNew(n: ImportNode, m: Merge) {
    n.id in m.idMap && m.idMap[n.id] in m.origin && m.origin[m.idMap[n.id]] == n
  }

  /** A mapped file is the node that holds its content now, or is new if it has no hash. A
      mapped folder is new or has the folder's name. */
  ghost predicate MapsWell(n: ImportNode, data: ImportData, m: Merge)
    requires n.id in m.idMap
  {
    if n.kind == SourceFolder
    then IsNew(n, m) || (m.idMap[n.id] in m.nodes && m.nodes[m.idMap[n.id]].name == n.name)
    else if HashFor(data, n.id) == "" then IsNew(n, m)
    else HashNode(m, HashFor(data, n.id)) == Some(m.idMap[n.id])
  }

  ghost predicate AllMapWell(ns: seq<ImportNode>, data: ImportData, m: Merge) {
    forall n | n in ns && n.id != ROOT && n.id in m.idMap :: MapsWell(n, data, m)
  }

  /** The content index: rows of new files, and rows that were there, unless a new file
      with the same content took over one that pointed at no ready node. */
  ghost predicate HashRow(base: Merge, m: Merge, data: ImportData, h: string)
    requires h in m.hashes
  {
    (h in base.hashes && m.hashes[h] == base.hashes[h]) ||
    (m.hashes[h] in m.origin && m.origin[m.hashes[h]].kind == SourceFile &&
     HashFor(data, m.origin[m.hashes[h]].id) == h && (h in base.hashes ==> HashNode(base, h) == None))
  }

  ghost predicate HashRows(base: Merge, m: Merge, data: ImportData) {
    base.hashes.Keys <= m.hashes.Keys && forall h | h in m.hashes :: HashRow(base, m, data, h)
  }

  lemma MapsWellStays(n: ImportNode, data: ImportData, m: Merge, k: Merge)
    requires n.id in m.idMap && MapsWell(n, data, m)
    requires Additive(m, k) && KeepsMap(m.idMap, k.idMap) && KeepsHashes(m, k)
    requires forall x | x in m.origin :: x in k.origin && k.origin[x] == m.origin[x]
    ensures MapsWell(n, data, k)
  {
    hide HashNode, HashFor;
  }

  lemma StepMapsWell(m: Merge, n: ImportNode, data: ImportData, gen: Generator, k: Merge)
    requires Unused(gen) && ROOT in m.nodes && n.id !in m.idMap && n.id in k.idMap
    requires MergeNode(m, n, data, gen) == Ok(k)
    ensures MapsWell(n, data, k)
  {
    hide MergeNode, ImportParts, PartIds, PartsFor, HashFor, IsSuffixed, FindChild;
    Outcomes(m, n, data, gen, k);
    if v :| MapsTo(m, n, data, k, v) && n.kind == SourceFolder {
      FoundName(m.nodes, Image(m.idMap, n.parent).value, n.name);
    }
  }

  lemma FoundName(t: Table, parent: Id, name: string)
    requires FindChild(t, parent, name).Some?
    ensures IsChild(t, parent, name, FindChild(t, parent, name).value)
  {}

  lemma StepHashRows(base: Merge, m: Merge, n: ImportNode, data: ImportData, gen: Generator, k: Merge)
    requires Unused(gen) && ROOT in m.nodes && m.origin.Keys <= m.nodes.Keys && n.kind != Unknown
    requires MergeNode(m, n, data, gen) == Ok(k) && HashRows(base, m, data) && KeepsHashes(base, m)
    ensures HashRows(base, k, data)
  {
    hide MergeNode, ImportParts, PartIds, PartsFor, HashFor, IsSuffixed, FindChild;
    Outcomes(m, n, data, gen, k);
    forall h | h in k.hashes ensures HashRow(base, k, data, h) {
      if h in m.hashes { assert HashRow(base, m, data, h); }
    }
  }

  /** In the end, too. */
  lemma {:induction false} RunContents(base: Merge, ns: seq<ImportNode>, data: ImportData, gen: Generator, m: Merge)
    requires Unused(gen) && Opened(base) && DistinctIds(ns) && MergeRun(base, ns, data, gen) == Ok(m)
    ensures AllMapWell(ns, data, m) && HashRows(base, m, data)
    decreases |ns|
  {
    hide DistinctIds, NewTo, MergeNode, MapsWell, HashRows, Merged, Copied;
    if ns == [] {
      NoContents(base, data);
    } else {
      var before, n := ns[..|ns| - 1], ns[|ns| - 1];
      DistinctPrefix(ns);
      var k := MergeRun(base, before, data, gen).value;
      RunContents(base, before, data, gen, k);
      RunMerges(base, before, data, gen, k);
      assert ns == before + [n];
      StepContents(base, before, k, n, data, gen, m);
    }
  }

  lemma NoContents(base: Merge, data: ImportData)
    ensures HashRows(base, base, data)
  {}

  lemma StepContents(base: Merge, before: seq<ImportNode>, k: Merge, n: ImportNode, data: ImportData, gen: Generator,
      m: Merge)
    requires Unused(gen) && Merged(base, k, before, data) && NewTo(before, n) && MergeNode(k, n, data, gen) == Ok(m)
    requires AllMapWell(before, data, k) && HashRows(base, k, data)
    ensures AllMapWell(before + [n], data, m) && HashRows(base, m, data)
  {
    hide MergeNode, MapsWell, HashRows, HashNode, Copied, Renamed, SameParts, UniqueNames, Reached;
    if n.id == ROOT {
      RootSkipped(k, n, data, gen);
      assert forall q | q in before + [n] && q.id != ROOT :: q in before;
    } else {
      NotMappedYet(k, before, n);
      StepAdds(k, n, data, gen, m);
      StepOrigin(k, n, data, gen, m);
      if n.kind == Unknown {
        UnknownSkipped(k, n, data, gen);
        SameHashRows(base, k, m, data);
      } else {
        StepHashRows(base, k, n, data, gen, m);
      }
      forall q | q in before + [n] && q.id != ROOT && q.id in m.idMap ensures MapsWell(q, data, m) {
        if q.id == n.id {
          assert q == n;
          StepMapsWell(k, n, data, gen, m);
        } else {
          assert q in before && q.id in k.idMap;
          MapsWellStays(q, data, k, m);
        }
      }
    }
  }

  lemma UnknownSkipped(m: Merge, n: ImportNode, data: ImportData, gen: Generator)
    requires n.id != ROOT && n.kind == Unknown
    ensures MergeNode(m, n, data, gen) == Ok(Skip(m))
  {}

  lemma SameHashRows(base: Merge, m: Merge, k: Merge, data: ImportData)
    requires HashRows(base, m, data) && k.hashes == m.hashes && k.origin == m.origin
    ensures HashRows(base, k, data)
  {
    forall h | h in k.hashes ensures HashRow(base, k, data, h) {
      assert HashRow(base, m, data, h);
    }
  }

  // ---- the summary ----

  /** What one row adds to the summary, seen from the result. */
  ghost function Counted(n: ImportNode, data: ImportData, m: Merge, sum: Summary): Summary {
    if n.id == ROOT then sum
    else if n.id !in m.idMap then sum.(nodesSkipped := sum.nodesSkipped + 1)
    else if n.kind == SourceFolder then
      if IsNew(n, m) then sum.(foldersCreated := sum.foldersCreated + 1)
      else sum.(foldersMerged := sum.foldersMerged + 1)
    else if !IsNew(n, m) then sum.(filesSkipped := sum.filesSkipped + 1)
    else
      var name := if m.idMap[n.id] in m.nodes then m.nodes[m.idMap[n.id]].name else n.name;
      sum.(filesImported := sum.filesImported + 1,
           filesRenamed := sum.filesRenamed + (if name == n.name then 0 else 1),
           partsImported := sum.partsImported + |PartsFor(data, n.id)|,
           hashesImported := sum.hashesImported + (if HashFor(data, n.id) == "" then 0 else 1))
  }

  ghost function Tally(ns: seq<ImportNode>, data: ImportData, m: Merge): Summary {
    if ns == [] then Summary(0, 0, 0, 0, 0, 0, 0, 0)
    else Counted(ns[|ns| - 1], data, m, Tally(ns[..|ns| - 1], data, m))
  }

  lemma SuffixedDiffers(name: string, isFile: bool, suffixed: string)
    requires IsSuffixed(name, isFile, suffixed)
    ensures suffixed != name
  {
    var i: nat :| 1 <= i < MAX_SUFFIX && suffixed == Suffixed(name, isFile, i);
    ExtFits(name, |name|);
    assert |Suffixed(name, isFile, i)| > |name|;
  }

  lemma NotNewYet(m: Merge, data: ImportData, n: ImportNode, v: Id)
    requires n.id !in m.idMap && forall x | x in m.origin :: NewRow(m, data, x)
    ensures v in m.origin ==> m.origin[v] != n
  {
    if v in m.origin { assert NewRow(m, data, v); }
  }

  lemma FolderCounted(m: Merge, n: ImportNode, data: ImportData, gen: Generator, k: Merge)
    requires Unused(gen) && ROOT in m.nodes && m.origin.Keys <= m.nodes.Keys && n.id != ROOT && n.id !in m.idMap
    requires Reached(m, n) && n.kind == SourceFolder && forall x | x in m.origin :: NewRow(m, data, x)
    requires MergeFolder(m, n, Image(m.idMap, n.parent).value, gen) == Ok(k)
    ensures k.sum == Counted(n, data, k, m.sum)
  {
    hide FindChild, UniqueName, ImportName, NewId, NewRow, HashFor, PartsFor, ImportedRow;
    NewIdUnused(m.nodes, n.id, gen);
    var e := FindChild(m.nodes, Image(m.idMap, n.parent).value, n.name);
    if e.Some? { NotNewYet(m, data, n, e.value); }
  }

  lemma FileCounted(m: Merge, n: ImportNode, data: ImportData, gen: Generator, k: Merge)
    requires Unused(gen) && ROOT in m.nodes && m.origin.Keys <= m.nodes.Keys && n.id != ROOT && n.id !in m.idMap
    requires Reached(m, n) && n.kind == SourceFile && forall x | x in m.origin :: NewRow(m, data, x)
    requires MergeFile(m, n, Image(m.idMap, n.parent).value, data, gen) == Ok(k)
    ensures k.sum == Counted(n, data, k, m.sum)
  {
    hide FindChild, UniqueName, NewId, NewRow, HashFor, HashNode, PartsFor, ImportParts, PartIds, DistinctNumbers;
    NewIdUnused(m.nodes, n.id, gen);
    var h := HashFor(data, n.id);
    if h != "" && HashNode(m, h).Some? {
      NotNewYet(m, data, n, HashNode(m, h).value);
    } else {
      var parent := Image(m.idMap, n.parent).value;
      UniqueIsSuffixed(m.nodes, parent, n.name, true, 1);
      SuffixedDiffers(n.name, true, UniqueName(m.nodes, parent, n.name, true, 1));
    }
  }

  lemma StepCounted(m: Merge, n: ImportNode, data: ImportData, gen: Generator, k: Merge)
    requires Unused(gen) && ROOT in m.nodes && m.origin.Keys <= m.nodes.Keys && n.id !in m.idMap && n.id != ROOT
    requires forall x | x in m.origin :: NewRow(m, data, x)
    requires MergeNode(m, n, data, gen) == Ok(k)
    ensures k.sum == Counted(n, data, k, m.sum)
  {
    hide MergeFolder, MergeFile, NewRow, Counted;
    if !Reached(m, n) {
      SkipCounted(m, n, data, k);
    } else if n.kind == SourceFolder {
      FolderCounted(m, n, data, gen, k);
    } else {
      FileCounted(m, n, data, gen, k);
    }
  }

  lemma SkipCounted(m: Merge, n: ImportNode, data: ImportData, k: Merge)
    requires n.id !in m.idMap && n.id != ROOT && k == Skip(m)
    ensures k.sum == Counted(n, data, k, m.sum)
  {}

  /** A row counts the same in every later state. */
  lemma CountedStays(n: ImportNode, data: ImportData, m: Merge, k: Merge, sum: Summary)
    requires Additive(m, k) && (n.id == ROOT || (n.id in m.idMap <==> n.id in k.idMap)) && KeepsMap(m.idMap, k.idMap)
    requires m.origin.Keys <= m.nodes.Keys && forall x | x in m.idMap :: m.idMap[x] in m.nodes
    requires forall x | x in m.nodes && x in k.origin :: x in m.origin
    requires forall x | x in m.origin :: x in k.origin && k.origin[x] == m.origin[x]
    ensures Counted(n, data, k, sum) == Counted(n, data, m, sum)
  {
    hide PartsFor, HashFor;
  }

  lemma {:induction false} TallyStays(ns: seq<ImportNode>, data: ImportData, m: Merge, k: Merge)
    requires Additive(m, k) && KeepsMap(m.idMap, k.idMap)
    requires forall n | n in ns && n.id != ROOT :: n.id in m.idMap <==> n.id in k.idMap
    requires m.origin.Keys <= m.nodes.Keys && forall x | x in m.idMap :: m.idMap[x] in m.nodes
    requires forall x | x in m.nodes && x in k.origin :: x in m.origin
    requires forall x | x in m.origin :: x in k.origin && k.origin[x] == m.origin[x]
    ensures Tally(ns, data, k) == Tally(ns, data, m)
    decreases |ns|
  {
    hide Counted, Additive, KeepsMap;
    if ns != [] {
      var before, n := ns[..|ns| - 1], ns[|ns| - 1];
      assert forall q | q in before :: q in ns;
      TallyStays(before, data, m, k);
      CountedStays(n, data, m, k, Tally(before, data, m));
    }
  }

  lemma NewOriginIsNewNode(m: Merge, n: ImportNode, data: ImportData, gen: Generator, k: Merge)
    requires Unused(gen) && ROOT in m.nodes && MergeNode(m, n, data, gen) == Ok(k)
    ensures forall x | x in k.origin :: x in m.origin || x !in m.nodes
  {
    hide MergeNode, FindChild, ImportParts, PartIds, PartsFor, HashFor, HashNode, IsSuffixed, Reached;
    Outcomes(m, n, data, gen, k);
  }

  lemma MergedFacts(base: Merge, m: Merge, ns: seq<ImportNode>, data: ImportData)
    requires Merged(base, m, ns, data)
    ensures m.origin.Keys <= m.nodes.Keys && ROOT in m.nodes && m.parts.Keys <= m.nodes.Keys
    ensures forall x | x in m.idMap :: m.idMap[x] in m.nodes
    ensures forall x | x in m.origin :: NewRow(m, data, x)
  {
    hide NewRow, Additive, KeepsHashes, UniqueNames;
    forall x | x in m.idMap ensures m.idMap[x] in m.nodes {
      assert Live(m.nodes, m.idMap[x]);
    }
  }

  lemma StepTally(base: Merge, before: seq<ImportNode>, k: Merge, n: ImportNode, data: ImportData, gen: Generator,
      m: Merge)
    requires Unused(gen) && Merged(base, k, before, data) && NewTo(before, n) && MergeNode(k, n, data, gen) == Ok(m)
    requires k.sum == Tally(before, data, k)
    ensures m.sum == Tally(before + [n], data, m)
  {
    hide MergeNode, Counted, Merged, NewRow, Additive, KeepsMap, KeepsHashes;
    MergedFacts(base, k, before, data);
    assert (before + [n])[..|before|] == before;
    if n.id == ROOT {
      RootSkipped(k, n, data, gen);
      RootUncounted(n, data, k, k.sum);
    } else {
      MergedNew(base, k, before, data, n);
      StepAdds(k, n, data, gen, m);
      StepOrigin(k, n, data, gen, m);
      NewOriginIsNewNode(k, n, data, gen, m);
      StepCounted(k, n, data, gen, m);
      StayMapped(before, n, k, m);
      TallyStays(before, data, k, m);
    }
  }

  lemma RootUncounted(n: ImportNode, data: ImportData, m: Merge, sum: Summary)
    requires n.id == ROOT
    ensures Counted(n, data, m, sum) == sum
  {}

  lemma MergedNew(base: Merge, k: Merge, before: seq<ImportNode>, data: ImportData, n: ImportNode)
    requires Merged(base, k, before, data) && NewTo(before, n) && n.id != ROOT
    ensures n.id !in k.idMap
  {
    hide NewRow, Additive, KeepsHashes, UniqueNames;
    NotMappedYet(k, before, n);
  }

  lemma StayMapped(before: seq<ImportNode>, n: ImportNode, k: Merge, m: Merge)
    requires NewTo(before, n) && KeepsMap(k.idMap, m.idMap) && forall x | x in m.idMap :: x in k.idMap || x == n.id
    ensures forall q | q in before && q.id != ROOT :: q.id in k.idMap <==> q.id in m.idMap
  {}

  /** The summary of a merge counts what came of each row: folders created and merged,
      files imported, renamed and skipped, rows passed over, parts and hashes written. */
  lemma {:induction false} RunSummary(base: Merge, ns: seq<ImportNode>, data: ImportData, gen: Generator, m: Merge)
    requires Unused(gen) && Opened(base) && DistinctIds(ns) && MergeRun(base, ns, data, gen) == Ok(m)
    ensures m.sum == Tally(ns, data, m)
    decreases |ns|
  {
    hide DistinctIds, NewTo, MergeNode, Merged, Counted, Copied;
    if ns != [] {
      var before, n := ns[..|ns| - 1], ns[|ns| - 1];
      DistinctPrefix(ns);
      var k := MergeRun(base, before, data, gen).value;
      RunSummary(base, before, data, gen, k);
      RunMerges(base, before, data, gen, k);
      assert ns == before + [n];
      StepTally(base, before, k, n, data, gen, m);
    }
  }

  // ---- when a merge fails ----

  ghost predicate Held(t: Table, parent: Id, name: string) {
    exists c :: IsChild(t, parent, name, c)
  }

  /** The name and all its suffixed forms are held. */
  ghost predicate NoNameLeft(t: Table, parent: Id, name: string, isFile: bool) {
    Held(t, parent, name) && forall i: nat | 1 <= i < MAX_SUFFIX :: Held(t, parent, Suffixed(name, isFile, i))
  }

  /** The step fails: for a row that takes part and is not found to be there already, no
      name is left, or its part numbers repeat. */
  ghost predicate StepFails(m: Merge, n: ImportNode, data: ImportData) {
    n.id != ROOT && Reached(m, n) &&
    var parent := Image(m.idMap, n.parent).value;
    if n.kind == SourceFolder
    then (forall c | IsChild(m.nodes, parent, n.name, c) :: m.nodes[c].kind == File) &&
         NoNameLeft(m.nodes, parent, n.name, false)
    else (HashFor(data, n.id) != "" ==> HashNode(m, HashFor(data, n.id)) == None) &&
         (NoNameLeft(m.nodes, parent, n.name, true) || !DistinctNumbers(PartsFor(data, n.id)))
  }

  lemma HeldMeans(t: Table, parent: Id, name: string)
    ensures FindChild(t, parent, name).Some? <==> Held(t, parent, name)
  {}

  lemma {:induction false} UniqueHeld(t: Table, parent: Id, name: string, isFile: bool, i: nat)
    requires 1 <= i <= MAX_SUFFIX
    ensures Held(t, parent, UniqueName(t, parent, name, isFile, i)) <==>
      Held(t, parent, Suffixed(name, isFile, 1)) &&
      forall j: nat | i <= j < MAX_SUFFIX :: Held(t, parent, Suffixed(name, isFile, j))
    decreases MAX_SUFFIX - i
  {
    hide FindChild, Suffixed, Held;
    if i < MAX_SUFFIX {
      HeldMeans(t, parent, Suffixed(name, isFile, i));
      UniqueHeld(t, parent, name, isFile, i + 1);
    }
  }

  lemma NameHeld(t: Table, parent: Id, n: ImportNode)
    ensures FindChild(t, parent, ImportName(t, parent, n)).Some? <==>
      NoNameLeft(t, parent, n.name, n.kind == SourceFile)
  {
    hide FindChild, Suffixed, UniqueName, Held;
    HeldMeans(t, parent, n.name);
    HeldMeans(t, parent, ImportName(t, parent, n));
    UniqueHeld(t, parent, n.name, n.kind == SourceFile, 1);
  }

  lemma FailsMeans(m: Merge, n: ImportNode, data: ImportData, gen: Generator)
    requires UniqueNames(m.nodes)
    ensures MergeNode(m, n, data, gen).Err? <==> StepFails(m, n, data)
  {
    hide NoNameLeft, ImportName, UniqueName, NewId, ImportParts, PartIds, PartsFor, HashFor, HashNode, DistinctNumbers,
      Inserted;
    if n.id != ROOT && Reached(m, n) {
      var parent := Image(m.idMap, n.parent).value;
      NameHeld(m.nodes, parent, n);
      forall c | IsChild(m.nodes, parent, n.name, c) ensures FindChild(m.nodes, parent, n.name) == Some(c) {
        FindChildIs(m.nodes, parent, n.name, c);
      }
    }
  }

  /** A merge fails exactly when one of its steps does: names and part numbers are all that
      can stop it. */
  lemma {:induction false} RunFails(base: Merge, ns: seq<ImportNode>, data: ImportData, gen: Generator)
    requires Unused(gen) && Opened(base) && DistinctIds(ns)
    ensures MergeRun(base, ns, data, gen).Err? <==>
      exists i :: 0 <= i < |ns| && MergeRun(base, ns[..i], data, gen).Ok? &&
        StepFails(MergeRun(base, ns[..i], data, gen).value, ns[i], data)
    decreases |ns|
  {
    hide MergeNode, StepFails, DistinctIds, Opened, Merged, Copied;
    if ns != [] {
      var before, n := ns[..|ns| - 1], ns[|ns| - 1];
      DistinctPrefix(ns);
      RunFails(base, before, data, gen);
      forall i | 0 <= i < |before| ensures ns[..i] == before[..i] && ns[i] == before[i] {}
      if MergeRun(base, before, data, gen).Ok? {
        var k := MergeRun(base, before, data, gen).value;
        RunMerges(base, before, data, gen, k);
        MergedUnique(base, k, before, data);
        FailsMeans(k, n, data, gen);
        assert ns[..|before|] == before && ns[|before|] == n;
      }
    }
  }

  lemma MergedUnique(base: Merge, m: Merge, ns: seq<ImportNode>, data: ImportData)
    requires Merged(base, m, ns, data)
    ensures UniqueNames(m.nodes)
  {}
}
