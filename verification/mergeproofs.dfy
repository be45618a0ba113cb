/** What a merge keeps, adds and maps. */
module MergeProofs {
  import opened Wrappers
  import opened Nodes
  import opened TreeOps
  import opened Stores
  import opened ImportOrder
  import opened MergeSpec

  // ---- the outcomes of a step ----

  ghost predicate SameTables(m: Merge, k: Merge) {
    k.nodes == m.nodes && k.parts == m.parts && k.hashes == m.hashes && k.origin == m.origin
  }

  /** The row is passed over. */
  ghost predicate PassesOver(m: Merge, n: ImportNode, k: Merge) {
    SameTables(m, k) && k.idMap == m.idMap && !Reached(m, n)
  }

  /** The row is mapped to a node that is there already. */
  ghost predicate MapsTo(m: Merge, n: ImportNode, data: ImportData, k: Merge, v: Id) {
    && Reached(m, n) && SameTables(m, k) && k.idMap == m.idMap[n.id := v]
    && (if n.kind == SourceFolder
        then FindChild(m.nodes, Image(m.idMap, n.parent).value, n.name) == Some(v) && m.nodes[v].kind == Folder
        else HashFor(data, n.id) != "" && HashNode(m, HashFor(data, n.id)) == Some(v))
  }

  ghost predicate IsSuffixed(name: string, isFile: bool, suffixed: string) {
    exists i: nat :: 1 <= i < MAX_SUFFIX && suffixed == Suffixed(name, isFile, i)
  }

  lemma {:induction false} UniqueIsSuffixed(t: Table, parent: Id, name: string, isFile: bool, i: nat)
    requires i >= 1
    ensures IsSuffixed(name, isFile, UniqueName(t, parent, name, isFile, i))
    decreases MAX_SUFFIX - i
  {
    hide FindChild, Suffixed;
    if i < MAX_SUFFIX && FindChild(t, parent, Suffixed(name, isFile, i)).Some? {
      UniqueIsSuffixed(t, parent, name, isFile, i + 1);
    } else if i >= MAX_SUFFIX {
      assert 1 <= 1 < MAX_SUFFIX;
    }
  }

  /** The row is inserted as `id` under a name no live sibling holds. */
  ghost predicate InsertsAs(m: Merge, n: ImportNode, data: ImportData, gen: Generator, k: Merge, id: Id, parent: Id,
      name: string) {
    && Reached(m, n) && id !in m.nodes && id != "" && Image(m.idMap, n.parent) == Some(parent)
    && k.nodes == m.nodes[id := ImportedRow(n, parent, name)]
    && k.idMap == m.idMap[n.id := id] && k.origin == m.origin[id := n]
    && FindChild(m.nodes, parent, name).None?
    && (FindChild(m.nodes, parent, n.name).None? ==> name == n.name)
    && (FindChild(m.nodes, parent, n.name).Some? ==> IsSuffixed(n.name, n.kind == SourceFile, name))
    && (id == n.id || n.id == "" || n.id == ROOT || n.id in m.nodes)
    && (n.kind == SourceFolder ==>
          (k.parts == m.parts && k.hashes == m.hashes &&
           (FindChild(m.nodes, parent, n.name).Some? ==>
             m.nodes[FindChild(m.nodes, parent, n.name).value].kind == File)))
    && (n.kind != SourceFolder ==>
          && k.parts == (if PartsFor(data, n.id) == [] then m.parts
                         else m.parts[id := ImportParts(PartsFor(data, n.id), PartIds(m.parts), gen)])
          && k.hashes == (if HashFor(data, n.id) == "" then m.hashes else m.hashes[HashFor(data, n.id) := id])
          && (HashFor(data, n.id) != "" ==> HashNode(m, HashFor(data, n.id)) == None))
  }

  lemma NewIdUnused(t: Table, preferred: Id, gen: Generator)
    requires Unused(gen) && ROOT in t
    ensures NewId(t, preferred, gen) !in t && NewId(t, preferred, gen) != "" && NewId(t, preferred, gen) != ROOT
  {
    assert gen(t.Keys + {""}) !in t.Keys + {""};
  }

  lemma NewIdKept(t: Table, preferred: Id, gen: Generator)
    ensures NewId(t, preferred, gen) == preferred || preferred == "" || preferred == ROOT || preferred in t
  {}

  lemma FolderOutcome(m: Merge, n: ImportNode, data: ImportData, gen: Generator, k: Merge)
    requires Unused(gen) && ROOT in m.nodes && Reached(m, n) && n.kind == SourceFolder
    requires MergeFolder(m, n, Image(m.idMap, n.parent).value, gen) == Ok(k)
    ensures (exists v :: MapsTo(m, n, data, k, v)) ||
      (exists id, parent, name :: InsertsAs(m, n, data, gen, k, id, parent, name))
  {
    hide FindChild, UniqueName, Suffixed, NewId, ImportParts, PartIds, PartsFor, HashFor, HashNode, DistinctNumbers;
    hide IsSuffixed;
    NewIdUnused(m.nodes, n.id, gen);
    NewIdKept(m.nodes, n.id, gen);
    UniqueIsSuffixed(m.nodes, Image(m.idMap, n.parent).value, n.name, n.kind == SourceFile, 1);
    var parent := Image(m.idMap, n.parent).value;
    var e := FindChild(m.nodes, parent, n.name);
    if e.Some? && m.nodes[e.value].kind == Folder {
      assert MapsTo(m, n, data, k, e.value);
    } else {
      assert InsertsAs(m, n, data, gen, k, NewId(m.nodes, n.id, gen), parent, ImportName(m.nodes, parent, n));
    }
  }

  lemma FileOutcome(m: Merge, n: ImportNode, data: ImportData, gen: Generator, k: Merge)
    requires Unused(gen) && ROOT in m.nodes && Reached(m, n) && n.kind == SourceFile
    requires MergeFile(m, n, Image(m.idMap, n.parent).value, data, gen) == Ok(k)
    ensures (exists v :: MapsTo(m, n, data, k, v)) ||
      (exists id, parent, name :: InsertsAs(m, n, data, gen, k, id, parent, name))
  {
    hide FindChild, UniqueName, Suffixed, NewId, ImportParts, PartIds, PartsFor, HashFor, HashNode, DistinctNumbers;
    hide IsSuffixed;
    NewIdUnused(m.nodes, n.id, gen);
    NewIdKept(m.nodes, n.id, gen);
    UniqueIsSuffixed(m.nodes, Image(m.idMap, n.parent).value, n.name, n.kind == SourceFile, 1);
    var parent := Image(m.idMap, n.parent).value;
    var h := HashFor(data, n.id);
    if h != "" && HashNode(m, h).Some? {
      assert MapsTo(m, n, data, k, HashNode(m, h).value);
    } else {
      assert InsertsAs(m, n, data, gen, k, NewId(m.nodes, n.id, gen), parent, ImportName(m.nodes, parent, n));
    }
  }

  /** A successful step passes over, maps or inserts its row. */
  lemma Outcomes(m: Merge, n: ImportNode, data: ImportData, gen: Generator, k: Merge)
    requires Unused(gen) && ROOT in m.nodes && MergeNode(m, n, data, gen) == Ok(k)
    ensures PassesOver(m, n, k) || (exists v :: MapsTo(m, n, data, k, v)) ||
            (exists id, parent, name :: InsertsAs(m, n, data, gen, k, id, parent, name))
  {
    hide MergeFolder, MergeFile, MapsTo, InsertsAs;
    if Reached(m, n) {
      if n.kind == SourceFolder {
        FolderOutcome(m, n, data, gen, k);
      } else {
        FileOutcome(m, n, data, gen, k);
      }
    }
  }

  /** What is mapped stays mapped. */
  ghost predicate KeepsMap(a: map<Id, Id>, b: map<Id, Id>) {
    forall k | k in a :: k in b && b[k] == a[k]
  }

  lemma ImageStays(a: map<Id, Id>, b: map<Id, Id>, parent: Id)
    requires KeepsMap(a, b) && Image(a, parent).Some?
    ensures Image(b, parent) == Image(a, parent)
  {}

  /** Rows and part rows of `base` are as they were. */
  ghost predicate Additive(base: Merge, m: Merge) {
    && (forall x | x in base.nodes :: x in m.nodes && m.nodes[x] == base.nodes[x])
    && (forall x | x in base.nodes ::
      (x in m.parts <==> x in base.parts) && (x in base.parts ==> m.parts[x] == base.parts[x]))
  }

  /** Content that had a ready node keeps that node. */
  ghost predicate KeepsHashes(base: Merge, m: Merge) {
    forall h | HashNode(base, h).Some? :: HashNode(m, h) == HashNode(base, h)
  }

  lemma StepAdds(m: Merge, n: ImportNode, data: ImportData, gen: Generator, k: Merge)
    requires Unused(gen) && ROOT in m.nodes && m.parts.Keys <= m.nodes.Keys && n.id !in m.idMap
    requires MergeNode(m, n, data, gen) == Ok(k)
    ensures Additive(m, k) && KeepsMap(m.idMap, k.idMap) && KeepsHashes(m, k)
    ensures k.parts.Keys <= k.nodes.Keys && ROOT in k.nodes
    ensures forall x | x in k.idMap :: x in m.idMap || x == n.id
  {
    hide MergeNode, Additive, KeepsMap, KeepsHashes, Reached;
    Outcomes(m, n, data, gen, k);
    StepAddsRows(m, n, data, gen, k);
    StepKeepsHashes(m, n, data, gen, k);
  }

  lemma StepAddsRows(m: Merge, n: ImportNode, data: ImportData, gen: Generator, k: Merge)
    requires m.parts.Keys <= m.nodes.Keys && n.id !in m.idMap
    requires PassesOver(m, n, k) || (exists v :: MapsTo(m, n, data, k, v)) ||
            (exists id, parent, name :: InsertsAs(m, n, data, gen, k, id, parent, name))
    ensures Additive(m, k) && KeepsMap(m.idMap, k.idMap) && k.parts.Keys <= k.nodes.Keys
  {
    hide FindChild, ImportParts, PartIds, PartsFor, HashFor, HashNode, IsSuffixed, Image, Reached;
  }

  lemma StepKeepsHashes(m: Merge, n: ImportNode, data: ImportData, gen: Generator, k: Merge)
    requires PassesOver(m, n, k) || (exists v :: MapsTo(m, n, data, k, v)) ||
            (exists id, parent, name :: InsertsAs(m, n, data, gen, k, id, parent, name))
    ensures KeepsHashes(m, k)
  {
    hide FindChild, ImportParts, PartIds, PartsFor, HashFor, IsSuffixed, Image, Reached;
  }

  lemma AddsTrans(a: Merge, b: Merge, c: Merge)
    requires Additive(a, b) && Additive(b, c)
    ensures Additive(a, c)
  {}

  // ---- new rows ----

  /** The same part, whatever its row id. */
  predicate SamePart(p: FilePart, q: FilePart) {
    p.partNo == q.partNo && p.messageId == q.messageId && p.size == q.size && p.channel == q.channel
  }

  predicate SameParts(ps: seq<FilePart>, qs: seq<FilePart>) {
    |ps| == |qs| && forall i | 0 <= i < |ps| :: SamePart(ps[i], qs[i])
  }

  /** Part rows are copied one for one, under ids used nowhere else. */
  lemma {:induction false} PartsCopied(ps: seq<FilePart>, used: set<string>, gen: Generator)
    requires Unused(gen)
    ensures SameParts(ImportParts(ps, used, gen), ps)
    ensures forall i | 0 <= i < |ps| ::
      ImportParts(ps, used, gen)[i].id !in used && ImportParts(ps, used, gen)[i].id != ""
    ensures forall i, j | 0 <= i < j < |ps| :: ImportParts(ps, used, gen)[i].id != ImportParts(ps, used, gen)[j].id
    decreases |ps|
  {
    if ps != [] {
      assert gen(used + {""}) !in used + {""};
      var p := ps[0].(id := if ps[0].id == "" || ps[0].id in used then gen(used + {""}) else ps[0].id);
      PartsCopied(ps[1..], used + {p.id}, gen);
    }
  }

  function PartsAt(parts: Parts, id: Id): seq<FilePart> {
    if id in parts then parts[id] else []
  }

  /** A new node holds what its imported row says. */
  ghost predicate Copied(n: ImportNode, row: Node) {
    && row.status == Ready && row.size == n.size && row.mime == n.mime && row.channel == n.channel
    && (row.kind == Folder <==> n.kind == SourceFolder)
  }

  /** It has the imported name, or one made from it because a sibling has that. */
  ghost predicate Renamed(t: Table, n: ImportNode, x: Id)
    requires x in t
  {
    t[x].name == n.name ||
    (t[x].parent.Some? && IsSuffixed(n.name, n.kind == SourceFile, t[x].name) &&
     exists c :: c != x && IsChild(t, t[x].parent.value, n.name, c))
  }

  /** A new row is its imported row, under the image of the imported parent, with its
      parts, and with its id unless that is taken. */
  ghost predicate NewRow(m: Merge, data: ImportData, x: Id) {
    && x in m.origin && x in m.nodes
    && var n := m.origin[x];
      && Image(m.idMap, n.parent) == m.nodes[x].parent && m.nodes[x].parent.Some?
      && Copied(n, m.nodes[x]) && Renamed(m.nodes, n, x)
      && (x == n.id || n.id == "" || n.id == ROOT || n.id in m.nodes)
      && n.id in m.idMap && m.idMap[n.id] == x
      && SameParts(PartsAt(m.parts, x), if n.kind == SourceFile then PartsFor(data, n.id) else [])
  }

  ghost predicate NewRows(base: Merge, m: Merge, data: ImportData) {
    && m.nodes.Keys == base.nodes.Keys + m.origin.Keys && base.nodes.Keys !! m.origin.Keys
    && forall x | x in m.origin :: NewRow(m, data, x)
  }

  lemma NewRowStays(m: Merge, k: Merge, data: ImportData, x: Id)
    requires NewRow(m, data, x) && x in k.origin && k.origin[x] == m.origin[x]
    requires Additive(m, k) && KeepsMap(m.idMap, k.idMap)
    ensures NewRow(k, data, x)
  {
    hide IsSuffixed;
    ImageStays(m.idMap, k.idMap, m.origin[x].parent);
    var n, row := m.origin[x], m.nodes[x];
    if row.name != n.name {
      var c :| c != x && IsChild(m.nodes, row.parent.value, n.name, c);
      assert IsChild(k.nodes, row.parent.value, n.name, c);
    }
  }

  /** The row a step inserts. */
  lemma InsertedRow(m: Merge, n: ImportNode, data: ImportData, gen: Generator, k: Merge, id: Id, parent: Id,
      name: string)
    requires Unused(gen) && m.parts.Keys <= m.nodes.Keys && n.id !in m.idMap
    requires InsertsAs(m, n, data, gen, k, id, parent, name)
    ensures k.nodes.Keys == m.nodes.Keys + {id} && NewRow(k, data, id)
  {
    hide ImportParts, PartIds, PartsFor, HashFor, IsSuffixed;
    if FindChild(m.nodes, parent, n.name).Some? {
      assert IsChild(k.nodes, parent, n.name, FindChild(m.nodes, parent, n.name).value);
    }
    PartsCopied(PartsFor(data, n.id), PartIds(m.parts), gen);
    ImageStays(m.idMap, k.idMap, n.parent);
    assert id !in m.parts;
  }

  lemma StepNewRows(base: Merge, m: Merge, n: ImportNode, data: ImportData, gen: Generator, k: Merge)
    requires Unused(gen) && ROOT in m.nodes && m.parts.Keys <= m.nodes.Keys && n.id !in m.idMap
    requires MergeNode(m, n, data, gen) == Ok(k) && NewRows(base, m, data)
    ensures NewRows(base, k, data)
  {
    hide MergeNode, NewRow, InsertsAs, Additive;
    StepAdds(m, n, data, gen, k);
    Outcomes(m, n, data, gen, k);
    if id, parent, name :| InsertsAs(m, n, data, gen, k, id, parent, name) {
      InsertedRow(m, n, data, gen, k, id, parent, name);
      InsertOrigin(m, n, data, gen, k, id, parent, name);
    }
    forall x | x in m.origin && x in k.origin && k.origin[x] == m.origin[x] ensures NewRow(k, data, x) {
      NewRowStays(m, k, data, x);
    }
    forall x | x in m.origin ensures x in m.nodes {}
  }

  lemma InsertOrigin(m: Merge, n: ImportNode, data: ImportData, gen: Generator, k: Merge, id: Id, parent: Id,
      name: string)
    requires InsertsAs(m, n, data, gen, k, id, parent, name)
    ensures id !in m.nodes && k.origin == m.origin[id := n]
  {}

  // ---- mapped folders ----

  /** Every mapped row was processed and its image is live; a mapped folder is a live
      folder under the image of its parent. */
  ghost predicate Mapped(m: Merge, ns: seq<ImportNode>) {
    && ROOT in m.idMap && m.idMap[ROOT] == ROOT
    && (forall x | x in m.idMap :: Live(m.nodes, m.idMap[x]))
    && (forall x | x in m.idMap && x != ROOT :: exists n :: n in ns && n.id == x)
    && (forall n | n in ns && n.id != ROOT && n.id in m.idMap && n.kind == SourceFolder ::
          LiveFolder(m.nodes, m.idMap[n.id]) && m.nodes[m.idMap[n.id]].parent == Image(m.idMap, n.parent) &&
            Image(m.idMap, n.parent).Some?)
  }

  ghost predicate NewTo(ns: seq<ImportNode>, n: ImportNode) {
    forall k | k in ns :: k.id != n.id
  }

  lemma NotMappedYet(m: Merge, ns: seq<ImportNode>, n: ImportNode)
    requires Mapped(m, ns) && NewTo(ns, n) && n.id != ROOT
    ensures n.id !in m.idMap
  {}

  lemma StepMapped(m: Merge, ns: seq<ImportNode>, n: ImportNode, data: ImportData, gen: Generator, k: Merge)
    requires Unused(gen) && ROOT in m.nodes && m.parts.Keys <= m.nodes.Keys && Mapped(m, ns) && NewTo(ns, n)
    requires MergeNode(m, n, data, gen) == Ok(k)
    ensures Mapped(k, ns + [n])
  {
    if n.id != ROOT {
      NotMappedYet(m, ns, n);
      StepAdds(m, n, data, gen, k);
      StepMapsOne(m, n, data, gen, k);
      forall x | x in k.idMap ensures Live(k.nodes, k.idMap[x]) {
        if x != n.id { assert x in m.idMap; }
      }
      forall x | x in k.idMap && x != ROOT ensures exists q :: q in ns + [n] && q.id == x {
        if x == n.id { assert n in ns + [n]; } else {
          var q :| q in ns && q.id == x;
          assert q in ns + [n];
        }
      }
      forall q | q in ns + [n] && q.id != ROOT && q.id in k.idMap && q.kind == SourceFolder
        ensures LiveFolder(k.nodes, k.idMap[q.id]) && k.nodes[k.idMap[q.id]].parent == Image(k.idMap, q.parent) &&
          Image(k.idMap, q.parent).Some?
      {
        if q.id != n.id {
          assert q in ns && q.id in m.idMap;
          ImageStays(m.idMap, k.idMap, q.parent);
        } else {
          assert q == n;
        }
      }
    } else {
      assert forall q | q in ns + [n] && q.id != ROOT :: q in ns;
      forall x | x in k.idMap && x != ROOT ensures exists q :: q in ns + [n] && q.id == x {
        var q :| q in ns && q.id == x;
        assert q in ns + [n];
      }
    }
  }

  /** What a step maps its own row to. */
  lemma StepMapsOne(m: Merge, n: ImportNode, data: ImportData, gen: Generator, k: Merge)
    requires Unused(gen) && ROOT in m.nodes && n.id !in m.idMap && n.id != ROOT
    requires MergeNode(m, n, data, gen) == Ok(k)
    ensures n.id in k.idMap <==> Reached(m, n)
    ensures n.id in k.idMap ==> Live(k.nodes, k.idMap[n.id])
    ensures n.id in k.idMap && n.kind == SourceFolder ==>
              LiveFolder(k.nodes, k.idMap[n.id]) && k.nodes[k.idMap[n.id]].parent == Image(k.idMap, n.parent) &&
                Image(k.idMap, n.parent).Some?
  {
    hide MergeNode, ImportParts, PartIds, PartsFor, HashFor;
    Outcomes(m, n, data, gen, k);
  }

  // ---- the tree ----

  /** Parents in the imported database are folders. */
  ghost predicate FolderParents(ns: seq<ImportNode>) {
    forall n, p | n in ns && p in ns && !TopLevel(n) && p.id == n.parent :: p.kind == SourceFolder
  }

  /** No row was inserted below a file. */
  ghost predicate UnderFolders(m: Merge) {
    forall x | x in m.origin :: ParentRow(m.nodes, x)
  }

  /** Folder parents in the source are enough for that. */
  lemma FolderParentsSuffice(base: Merge, m: Merge, ns: seq<ImportNode>, data: ImportData)
    requires RootRow(base.nodes) && Additive(base, m) && NewRows(base, m, data) && Mapped(m, ns)
    requires FolderParents(ns) && forall x | x in m.origin :: m.origin[x] in ns
    ensures UnderFolders(m)
  {
    forall x | x in m.origin ensures ParentRow(m.nodes, x) {
      var n := m.origin[x];
      assert NewRow(m, data, x);
      if !TopLevel(n) {
        if n.parent != ROOT {
          var p :| p in ns && p.id == n.parent;
          assert p.kind == SourceFolder;
        }
      }
    }
  }

  lemma ParentImage(m: Merge, ns: seq<ImportNode>, n: ImportNode)
    requires RootRow(m.nodes) && Mapped(m, ns) && Reached(m, n)
    ensures Live(m.nodes, Image(m.idMap, n.parent).value)
  {}

  /** A merge step that inserts below a folder, if at all, keeps the tree, and keeps
      ready rows anchored. */
  lemma StepTree(m: Merge, ns: seq<ImportNode>, n: ImportNode, data: ImportData, gen: Generator, k: Merge)
    requires Unused(gen) && Tree(m.nodes) && "" !in m.nodes && Mapped(m, ns)
    requires MergeNode(m, n, data, gen) == Ok(k) && UnderFolders(k)
    ensures Tree(k.nodes) && "" !in k.nodes
    ensures Anchored(m.nodes) ==> Anchored(k.nodes)
    ensures StagedAnchored(m.nodes) ==> StagedAnchored(k.nodes)
  {
    hide Shape, UniqueNames, FoldersAnchored, Anchored, StagedAnchored, Mapped, MergeNode;
    hide FindChild, ImportParts, PartIds, HashNode, HashFor, PartsFor;
    RootIsFolder(m.nodes);
    Outcomes(m, n, data, gen, k);
    if id, parent, name :| InsertsAs(m, n, data, gen, k, id, parent, name) {
      ParentImage(m, ns, n);
      assert id in k.origin && ParentRow(k.nodes, id);
      NoSuchChild(m.nodes, parent, name);
      InsertKeepsTree(m.nodes, id, ImportedRow(n, parent, name));
    }
  }

  lemma NoSuchChild(t: Table, parent: Id, name: string)
    requires FindChild(t, parent, name).None?
    ensures forall c :: !IsChild(t, parent, name, c)
  {}

  // ---- counters ----

  function NodeCount(s: Summary): nat {
    s.foldersCreated + s.foldersMerged + s.filesImported + s.filesSkipped + s.nodesSkipped
  }

  function NotRoot(ns: seq<ImportNode>): nat {
    if ns == [] then 0 else NotRoot(ns[..|ns| - 1]) + (if ns[|ns| - 1].id == ROOT then 0 else 1)
  }

  /** One counter of the five went up by one. */
  ghost predicate OneMore(a: Summary, b: Summary) {
    || (b.foldersCreated == a.foldersCreated + 1 && SameBut(a, b.(foldersCreated := a.foldersCreated)))
    || (b.foldersMerged == a.foldersMerged + 1 && SameBut(a, b.(foldersMerged := a.foldersMerged)))
    || (b.filesImported == a.filesImported + 1 && SameBut(a, b.(filesImported := a.filesImported)))
    || (b.filesSkipped == a.filesSkipped + 1 && SameBut(a, b.(filesSkipped := a.filesSkipped)))
    || (b.nodesSkipped == a.nodesSkipped + 1 && SameBut(a, b.(nodesSkipped := a.nodesSkipped)))
  }

  ghost predicate SameBut(a: Summary, b: Summary) {
    && a.foldersCreated == b.foldersCreated && a.foldersMerged == b.foldersMerged
    && a.filesImported == b.filesImported && a.filesSkipped == b.filesSkipped && a.nodesSkipped == b.nodesSkipped
  }

  /** Each row but the root adds one to exactly one of the five node counters. */
  lemma StepCounts(m: Merge, n: ImportNode, data: ImportData, gen: Generator, k: Merge)
    requires MergeNode(m, n, data, gen) == Ok(k)
    ensures if n.id == ROOT then k.sum == m.sum else OneMore(m.sum, k.sum)
  {
    hide FindChild, UniqueName, ImportName, NewId, ImportParts, PartIds, PartsFor, HashFor, HashNode, DistinctNumbers,
      Inserted, Image;
    if Reached(m, n) {
      if n.kind == SourceFolder {
        var e := FindChild(m.nodes, Image(m.idMap, n.parent).value, n.name);
        if e.Some? && m.nodes[e.value].kind == Folder {
          assert k.sum == m.sum.(foldersMerged := m.sum.foldersMerged + 1);
        } else {
          assert k.sum == m.sum.(foldersCreated := m.sum.foldersCreated + 1);
        }
      } else if HashFor(data, n.id) != "" && HashNode(m, HashFor(data, n.id)).Some? {
        assert k.sum == m.sum.(filesSkipped := m.sum.filesSkipped + 1);
      } else {
        assert k.sum.filesImported == m.sum.filesImported + 1;
      }
    }
  }
}
