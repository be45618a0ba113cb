/** Merging the same database a second time. */
module MergeTwice {
  import opened Wrappers
  import opened Nodes
  import opened TreeOps
  import opened Stores
  import opened ImportOrder
  import opened MergeSpec
  import opened MergeProofs
  import opened MergeRuns

  /** No importable file came without a content hash. */
  ghost predicate AllHashed(ns: seq<ImportNode>, data: ImportData, m: Merge) {
    forall n | n in ns && n.id != ROOT && n.id in m.idMap && n.kind == SourceFile :: HashFor(data, n.id) != ""
  }

  /** A live file holds the folder's name where the folder belongs. */
  ghost predicate FolderBlocked(n: ImportNode, m: Merge) {
    && Image(m.idMap, n.parent).Some?
    && var c := FindChild(m.nodes, Image(m.idMap, n.parent).value, n.name);
       c.Some? && m.nodes[c.value].kind == File
  }

  ghost predicate NoFolderBlocked(ns: seq<ImportNode>, m: Merge) {
    forall n | n in ns && n.id != ROOT && n.id in m.idMap && n.kind == SourceFolder :: !FolderBlocked(n, m)
  }

  /** A row that a second merge will insert again. */
  ghost predicate Loose(n: ImportNode, data: ImportData, m: Merge) {
    && n.id != ROOT && n.id in m.idMap
    && (if n.kind == SourceFolder then FolderBlocked(n, m) else HashFor(data, n.id) == "")
  }

  /** `fin` extends `a`: same rows, same mapping so far, same content index so far. */
  ghost predicate Extends(a: Merge, fin: Merge) {
    && Additive(a, fin) && KeepsMap(a.idMap, fin.idMap) && KeepsHashes(a, fin)
    && (forall x | x in a.origin :: x in fin.origin && fin.origin[x] == a.origin[x])
  }

  lemma ExtendsTrans(a: Merge, b: Merge, c: Merge)
    requires Extends(a, b) && Extends(b, c)
    ensures Extends(a, c)
  {
    hide Additive, KeepsHashes;
    AddsTrans(a, b, c);
    HashesTrans(a, b, c);
  }

  lemma StepExtends(m: Merge, n: ImportNode, data: ImportData, gen: Generator, k: Merge)
    requires Unused(gen) && ROOT in m.nodes && m.parts.Keys <= m.nodes.Keys && n.id !in m.idMap &&
      m.origin.Keys <= m.nodes.Keys
    requires MergeNode(m, n, data, gen) == Ok(k)
    ensures Extends(m, k)
  {
    hide MergeNode, FindChild, ImportParts, PartIds, PartsFor, HashFor, HashNode, Additive, KeepsHashes;
    StepAdds(m, n, data, gen, k);
    Outcomes(m, n, data, gen, k);
  }

  /** Every moment of a merge is extended by its end. */
  lemma {:induction false} PrefixExtends(base: Merge, ns: seq<ImportNode>, data: ImportData, gen: Generator, i: nat,
      m: Merge, a: Merge)
    requires Unused(gen) && Opened(base) && DistinctIds(ns) && i <= |ns|
    requires MergeRun(base, ns, data, gen) == Ok(m) && MergeRun(base, ns[..i], data, gen) == Ok(a)
    ensures Extends(a, m)
    decreases |ns| - i
  {
    hide DistinctIds, Opened, MergeNode, Extends, Merged, NewRows;
    if i == |ns| {
      assert ns[..i] == ns;
      ExtendsSelf(a);
    } else {
      RunPrefix(base, ns, data, gen, i + 1);
      RunStep(base, ns, data, gen, i);
      var b := MergeRun(base, ns[..i + 1], data, gen).value;
      PrefixExtends(base, ns, data, gen, i + 1, m, b);
      TakeDistinct(ns, i);
      RunMerges(base, ns[..i], data, gen, a);
      MergedMap(base, a, ns[..i], data, ns[i]);
      MergedOrigin(base, a, ns[..i], data);
      if ns[i].id == ROOT {
        RootSkipped(a, ns[i], data, gen);
      } else {
        StepExtends(a, ns[i], data, gen, b);
        ExtendsTrans(a, b, m);
      }
    }
  }

  lemma ExtendsSelf(a: Merge)
    ensures Extends(a, a)
  {}

  // ---- one row, the second time ----

  /** A child found once is found again among more rows. */
  lemma FoundAgain(t: Table, u: Table, parent: Id, name: string)
    requires UniqueNames(u) && FindChild(t, parent, name).Some?
    requires forall x | x in t :: x in u && u[x] == t[x]
    ensures FindChild(u, parent, name) == FindChild(t, parent, name)
  {
    var c := FindChild(t, parent, name).value;
    assert IsChild(u, parent, name, c);
    FindChildIs(u, parent, name, c);
  }

  lemma NotReachedSkips(b: Merge, n: ImportNode, data: ImportData, gen: Generator)
    requires !Reached(b, n) && n.id != ROOT
    ensures MergeNode(b, n, data, gen) == Ok(Skip(b))
  {}

  lemma MapsFolder(b: Merge, n: ImportNode, data: ImportData, gen: Generator, v: Id)
    requires Reached(b, n) && n.kind == SourceFolder
    requires FindChild(b.nodes, Image(b.idMap, n.parent).value, n.name) == Some(v) && b.nodes[v].kind == Folder
    ensures MergeNode(b, n, data, gen).Ok? && MapsTo(b, n, data, MergeNode(b, n, data, gen).value, v)
  {
    hide FindChild, UniqueName, ImportName, Inserted, HashNode;
  }

  lemma MapsFile(b: Merge, n: ImportNode, data: ImportData, gen: Generator, v: Id)
    requires Reached(b, n) && n.kind == SourceFile
    requires HashFor(data, n.id) != "" && HashNode(b, HashFor(data, n.id)) == Some(v)
    ensures MergeNode(b, n, data, gen).Ok? && MapsTo(b, n, data, MergeNode(b, n, data, gen).value, v)
  {
    hide FindChild, UniqueName, ImportName, Inserted, HashNode, HashFor;
  }

  lemma FolderAgain(
      a: Merge, n: ImportNode, data: ImportData, gen: Generator, c: Merge, fin: Merge, b: Merge, gen2: Generator)
    requires Unused(gen) && ROOT in a.nodes && n.id != ROOT && n.id !in a.idMap && Reached(a, n) &&
      n.kind == SourceFolder
    requires MergeNode(a, n, data, gen) == Ok(c) && Extends(c, fin) && UniqueNames(fin.nodes) && !Loose(n, data, fin)
    requires b.idMap == a.idMap && b.nodes == fin.nodes
    ensures n.id in c.idMap && MergeNode(b, n, data, gen2).Ok?
    ensures MapsTo(b, n, data, MergeNode(b, n, data, gen2).value, c.idMap[n.id])
  {
    hide MergeNode, UniqueNames, FindChild, UniqueName, NewId, ImportParts, PartIds, PartsFor, HashFor, HashNode;
    hide DistinctNumbers, KeepsHashes, IsSuffixed;
    Outcomes(a, n, data, gen, c);
    var parent := Image(a.idMap, n.parent).value;
    FindIsRow(a.nodes, parent, n.name);
    if v :| MapsTo(a, n, data, c, v) {
      FoundAgain(a.nodes, fin.nodes, parent, n.name);
      MapsFolder(b, n, data, gen2, v);
    } else {
      var id, p, name :| InsertsAs(a, n, data, gen, c, id, p, name);
      assert id in c.nodes && fin.nodes[id] == c.nodes[id];
      assert fin.idMap[n.id] == id;
      ImageStays(a.idMap, fin.idMap, n.parent);
      if FindChild(a.nodes, parent, n.name).Some? {
        FoundAgain(a.nodes, fin.nodes, parent, n.name);
      }
      assert IsChild(fin.nodes, parent, n.name, id);
      FindChildIs(fin.nodes, parent, n.name, id);
      MapsFolder(b, n, data, gen2, id);
    }
  }

  lemma FindIsRow(t: Table, parent: Id, name: string)
    ensures FindChild(t, parent, name).Some? ==> IsChild(t, parent, name, FindChild(t, parent, name).value)
  {}

  lemma FileAgain(a: Merge, n: ImportNode, data: ImportData, gen: Generator, c: Merge, fin: Merge, b: Merge,
      gen2: Generator)
    requires Unused(gen) && ROOT in a.nodes && n.id != ROOT && n.id !in a.idMap && Reached(a, n) && n.kind == SourceFile
    requires MergeNode(a, n, data, gen) == Ok(c) && Extends(c, fin) && !Loose(n, data, fin)
    requires b.idMap == a.idMap && b.nodes == fin.nodes && b.hashes == fin.hashes
    ensures n.id in c.idMap && MergeNode(b, n, data, gen2).Ok? &&
      MapsTo(b, n, data, MergeNode(b, n, data, gen2).value, c.idMap[n.id])
  {
    hide MergeNode, FindChild, UniqueName, NewId, ImportParts, PartIds, PartsFor, HashFor, DistinctNumbers, Additive;
    Outcomes(a, n, data, gen, c);
    var h := HashFor(data, n.id);
    assert h != "";
    assert HashNode(c, h) == Some(c.idMap[n.id]) by {
      if id, p, name :| InsertsAs(a, n, data, gen, c, id, p, name) {
        assert c.hashes[h] == id && IsReady(c.nodes, id);
      }
    }
    assert HashNode(fin, h) == HashNode(c, h);
    assert HashNode(b, h) == HashNode(fin, h);
    MapsFile(b, n, data, gen2, c.idMap[n.id]);
  }

  /** Where the first merge took step `n` from `a` to `c`, the second merge, standing
      at `b` with the first one's final tables and the same mapping, maps the row to
      the same node, unless it is loose. */
  lemma StepAgain(a: Merge, n: ImportNode, data: ImportData, gen: Generator, c: Merge, fin: Merge, b: Merge,
      gen2: Generator)
    requires Unused(gen) && ROOT in a.nodes && n.id != ROOT && n.id !in a.idMap && Reached(a, n)
    requires MergeNode(a, n, data, gen) == Ok(c) && Extends(c, fin) && UniqueNames(fin.nodes) && !Loose(n, data, fin)
    requires b.idMap == a.idMap && b.nodes == fin.nodes && b.hashes == fin.hashes
    ensures n.id in c.idMap && MergeNode(b, n, data, gen2).Ok? &&
      MapsTo(b, n, data, MergeNode(b, n, data, gen2).value, c.idMap[n.id])
  {
    hide MergeNode, UniqueNames, Extends, Loose, MapsTo, Image;
    if n.kind == SourceFolder {
      FolderAgain(a, n, data, gen, c, fin, b, gen2);
    } else {
      FileAgain(a, n, data, gen, c, fin, b, gen2);
    }
  }

  // ---- the whole second merge ----

  /** Up to row i the second merge has added nothing and maps as the first one did. */
  ghost predicate Quiet(fin: Merge, a: Merge, b: Merge) {
    b.nodes == fin.nodes && b.parts == fin.parts && b.hashes == fin.hashes && b.idMap == a.idMap
  }

  function Reopened(fin: Merge): Merge {
    Start(fin.nodes, fin.parts, fin.hashes)
  }

  lemma {:induction false} QuietPrefix(base: Merge, ns: seq<ImportNode>, data: ImportData, gen: Generator, fin: Merge,
      gen2: Generator, i: nat)
    requires Unused(gen) && Unused(gen2) && Opened(base) && DistinctIds(ns) && i <= |ns|
    requires MergeRun(base, ns, data, gen) == Ok(fin) && forall j | 0 <= j < i :: !Loose(ns[j], data, fin)
    ensures MergeRun(base, ns[..i], data, gen).Ok? && MergeRun(Reopened(fin), ns[..i], data, gen2).Ok?
    ensures Quiet(fin, MergeRun(base, ns[..i], data, gen).value, MergeRun(Reopened(fin), ns[..i], data, gen2).value)
    decreases i
  {
    hide DistinctIds, Opened, MergeNode, Extends, Merged, Loose, MapsTo, Reached;
    RunPrefix(base, ns, data, gen, i);
    if i > 0 {
      var n := ns[i - 1];
      QuietPrefix(base, ns, data, gen, fin, gen2, i - 1);
      RunStep(base, ns, data, gen, i - 1);
      RunStep(Reopened(fin), ns, data, gen2, i - 1);
      var a := MergeRun(base, ns[..i - 1], data, gen).value;
      var b := MergeRun(Reopened(fin), ns[..i - 1], data, gen2).value;
      var c := MergeRun(base, ns[..i], data, gen).value;
      StepQuiet(base, ns, data, gen, fin, gen2, i - 1, a, b, c);
    } else {
      OpenedIsStart(base);
    }
  }

  lemma StepQuiet(base: Merge, ns: seq<ImportNode>, data: ImportData, gen: Generator, fin: Merge, gen2: Generator,
      i: nat, a: Merge, b: Merge, c: Merge)
    requires Unused(gen) && Unused(gen2) && Opened(base) && DistinctIds(ns) && i < |ns|
    requires MergeRun(base, ns, data, gen) == Ok(fin)
    requires MergeRun(base, ns[..i], data, gen) == Ok(a) && MergeRun(base, ns[..i + 1], data, gen) == Ok(c)
    requires MergeNode(a, ns[i], data, gen) == Ok(c) && Quiet(fin, a, b) && !Loose(ns[i], data, fin)
    ensures MergeNode(b, ns[i], data, gen2).Ok? && Quiet(fin, c, MergeNode(b, ns[i], data, gen2).value)
  {
    hide DistinctIds, Opened, MergeNode, Extends, Merged, Loose, Reached, FindChild, HashNode, HashFor;
    var n := ns[i];
    TakeDistinct(ns, i);
    RunMerges(base, ns[..i], data, gen, a);
    RunMerges(base, ns, data, gen, fin);
    MergedMap(base, a, ns[..i], data, n);
    MergedOrigin(base, fin, ns, data);
    PrefixExtends(base, ns, data, gen, i + 1, fin, c);
    if n.id == ROOT {
      RootSkipped(a, n, data, gen);
      RootSkipped(b, n, data, gen2);
    } else {
      StepMapsOwn(a, n, data, gen, c);
      SameReach(a, b, n);
      if Reached(a, n) {
        StepAgain(a, n, data, gen, c, fin, b, gen2);
      } else {
        NotReachedSkips(b, n, data, gen2);
        NotReachedSkips(a, n, data, gen);
      }
    }
  }

  lemma SameReach(a: Merge, b: Merge, n: ImportNode)
    requires a.idMap == b.idMap
    ensures Reached(a, n) <==> Reached(b, n)
  {}

  lemma StepMapsOwn(a: Merge, n: ImportNode, data: ImportData, gen: Generator, c: Merge)
    requires Unused(gen) && ROOT in a.nodes && n.id !in a.idMap && n.id != ROOT && MergeNode(a, n, data, gen) == Ok(c)
    ensures n.id in c.idMap <==> Reached(a, n)
    ensures n.id in c.idMap ==> c.idMap == a.idMap[n.id := c.idMap[n.id]]
  {
    hide MergeNode, FindChild, ImportParts, PartIds, PartsFor, HashFor, HashNode;
    Outcomes(a, n, data, gen, c);
  }

  /** At a loose row the second merge fails or inserts a row. */
  lemma LooseAdds(n: ImportNode, data: ImportData, fin: Merge, b: Merge, gen2: Generator)
    requires Unused(gen2) && ROOT in b.nodes && Reached(b, n) && Loose(n, data, fin)
    requires KeepsMap(b.idMap, fin.idMap) && b.nodes == fin.nodes
    requires MergeNode(b, n, data, gen2).Ok?
    ensures MergeNode(b, n, data, gen2).value.nodes.Keys > b.nodes.Keys
  {
    hide MergeNode, FindChild, UniqueName, NewId, ImportParts, PartIds, PartsFor, HashFor, HashNode, DistinctNumbers;
    Outcomes(b, n, data, gen2, MergeNode(b, n, data, gen2).value);
    ImageStays(b.idMap, fin.idMap, n.parent);
  }

  /** The first loose row, if there is one. */
  ghost predicate FirstLoose(ns: seq<ImportNode>, data: ImportData, fin: Merge, i: nat) {
    i < |ns| && Loose(ns[i], data, fin) && forall j | 0 <= j < i :: !Loose(ns[j], data, fin)
  }

  lemma {:induction false} FindLoose(ns: seq<ImportNode>, data: ImportData, fin: Merge, i: nat) returns (j: nat)
    requires i < |ns| && Loose(ns[i], data, fin)
    ensures FirstLoose(ns, data, fin, j)
    decreases i
  {
    hide Loose;
    if k: nat :| k < i && Loose(ns[k], data, fin) {
      j := FindLoose(ns, data, fin, k);
    } else {
      j := i;
    }
  }

  /** A merge that has a loose row fails the second time, or adds a node. */
  lemma LooseIsNotQuiet(base: Merge, ns: seq<ImportNode>, data: ImportData, gen: Generator, fin: Merge, gen2: Generator,
      i: nat, again: Merge)
    requires Unused(gen) && Unused(gen2) && Opened(base) && DistinctIds(ns)
    requires MergeRun(base, ns, data, gen) == Ok(fin) && FirstLoose(ns, data, fin, i)
    requires MergeRun(Reopened(fin), ns, data, gen2) == Ok(again)
    ensures again.nodes != fin.nodes
  {
    hide DistinctIds, Opened, MergeNode, Extends, Merged, Loose, Reached, Additive;
    var n := ns[i];
    QuietPrefix(base, ns, data, gen, fin, gen2, i);
    RunPrefix(base, ns, data, gen, i + 1);
    RunPrefix(Reopened(fin), ns, data, gen2, i + 1);
    RunStep(base, ns, data, gen, i);
    RunStep(Reopened(fin), ns, data, gen2, i);
    var a := MergeRun(base, ns[..i], data, gen).value;
    var b := MergeRun(Reopened(fin), ns[..i], data, gen2).value;
    var c := MergeRun(base, ns[..i + 1], data, gen).value;
    var d := MergeRun(Reopened(fin), ns[..i + 1], data, gen2).value;
    LooseGrows(base, ns, data, gen, fin, gen2, i, a, b, c);
    ReopenedOpens(base, ns, data, gen, fin);
    PrefixExtends(Reopened(fin), ns, data, gen2, i + 1, again, d);
    ExtendsRows(d, again);
  }

  lemma ExtendsRows(a: Merge, fin: Merge)
    requires Extends(a, fin)
    ensures a.nodes.Keys <= fin.nodes.Keys
  {
    assert forall x | x in a.nodes :: x in fin.nodes;
  }

  lemma ReopenedOpens(base: Merge, ns: seq<ImportNode>, data: ImportData, gen: Generator, fin: Merge)
    requires Unused(gen) && Opened(base) && DistinctIds(ns) && MergeRun(base, ns, data, gen) == Ok(fin)
    ensures Opened(Reopened(fin))
  {
    hide DistinctIds, MergeNode, KeepsHashes, NewRows, Mapped, UniqueNames;
    RunMerges(base, ns, data, gen, fin);
  }

  lemma LooseGrows(base: Merge, ns: seq<ImportNode>, data: ImportData, gen: Generator, fin: Merge, gen2: Generator,
      i: nat, a: Merge, b: Merge, c: Merge)
    requires Unused(gen) && Unused(gen2) && Opened(base) && DistinctIds(ns) && i < |ns|
    requires MergeRun(base, ns, data, gen) == Ok(fin) && Loose(ns[i], data, fin)
    requires MergeRun(base, ns[..i], data, gen) == Ok(a) && MergeRun(base, ns[..i + 1], data, gen) == Ok(c)
    requires MergeNode(a, ns[i], data, gen) == Ok(c) && Quiet(fin, a, b) && MergeNode(b, ns[i], data, gen2).Ok?
    ensures MergeNode(b, ns[i], data, gen2).value.nodes.Keys > fin.nodes.Keys
  {
    hide DistinctIds, Opened, MergeNode, Extends, Merged, Loose, Reached;
    RunMerges(base, ns, data, gen, fin);
    MergedMapEnd(base, fin, ns, data);
    PrefixExtends(base, ns, data, gen, i, fin, a);
    ExtendsMap(a, fin);
    LooseIsReached(base, ns, data, gen, fin, i, a);
    SameReach(a, b, ns[i]);
    LooseAdds(ns[i], data, fin, b, gen2);
  }

  lemma ExtendsMap(a: Merge, fin: Merge)
    requires Extends(a, fin)
    ensures KeepsMap(a.idMap, fin.idMap)
  {}

  lemma MergedMapEnd(base: Merge, m: Merge, ns: seq<ImportNode>, data: ImportData)
    requires Merged(base, m, ns, data)
    ensures ROOT in m.nodes && UniqueNames(m.nodes)
  {}

  /** A row is mapped in the end only if its own step mapped it. */
  lemma LooseIsReached(base: Merge, ns: seq<ImportNode>, data: ImportData, gen: Generator, fin: Merge, i: nat, a: Merge)
    requires Unused(gen) && Opened(base) && DistinctIds(ns) && i < |ns|
    requires MergeRun(base, ns, data, gen) == Ok(fin) && Loose(ns[i], data, fin)
    requires MergeRun(base, ns[..i], data, gen) == Ok(a)
    ensures Reached(a, ns[i])
  {
    hide DistinctIds, Opened, MergeNode, Merged, Reached;
    RunPrefix(base, ns, data, gen, i + 1);
    RunStep(base, ns, data, gen, i);
    var c := MergeRun(base, ns[..i + 1], data, gen).value;
    TakeDistinct(ns, i);
    RunMerges(base, ns[..i], data, gen, a);
    MergedMap(base, a, ns[..i], data, ns[i]);
    StepMapsOwn(a, ns[i], data, gen, c);
    MapsOnlyAtOwnStep(base, ns, data, gen, fin, i, i + 1, c);
  }

  lemma {:induction false} MapsOnlyAtOwnStep(base: Merge, ns: seq<ImportNode>, data: ImportData, gen: Generator,
      fin: Merge, i: nat, j: nat, c: Merge)
    requires Unused(gen) && Opened(base) && DistinctIds(ns) && i < j <= |ns| && ns[i].id != ROOT
    requires MergeRun(base, ns, data, gen) == Ok(fin) && MergeRun(base, ns[..j], data, gen) == Ok(c)
    ensures ns[i].id in fin.idMap ==> ns[i].id in c.idMap
    decreases |ns| - j
  {
    hide Opened, MergeNode, Merged, Reached;
    if j == |ns| {
      assert ns[..j] == ns;
    } else {
      RunPrefix(base, ns, data, gen, j + 1);
      RunStep(base, ns, data, gen, j);
      var d := MergeRun(base, ns[..j + 1], data, gen).value;
      MapsOnlyAtOwnStep(base, ns, data, gen, fin, i, j + 1, d);
      if ns[j].id == ROOT {
        RootSkipped(c, ns[j], data, gen);
      } else {
        TakeDistinct(ns, j);
        RunMerges(base, ns[..j], data, gen, c);
        MergedMap(base, c, ns[..j], data, ns[j]);
        StepAdds(c, ns[j], data, gen, d);
      }
    }
  }

  /** Merging the same database again adds no node, part or hash row exactly when
      every imported file carries a hash and no file stands where a folder belongs. */
  lemma SecondMerge(base: Merge, ns: seq<ImportNode>, data: ImportData, gen: Generator, fin: Merge, gen2: Generator)
    requires Unused(gen) && Unused(gen2) && Opened(base) && DistinctIds(ns)
    requires MergeRun(base, ns, data, gen) == Ok(fin)
    ensures var again := MergeRun(Reopened(fin), ns, data, gen2);
      (again.Ok? && again.value.nodes == fin.nodes && again.value.parts == fin.parts &&
        again.value.hashes == fin.hashes) <==>
      (AllHashed(ns, data, fin) && NoFolderBlocked(ns, fin))
  {
    hide DistinctIds, Opened, MergeNode, Merged, Loose, Reached;
    LooseRows(base, ns, data, gen, fin);
    if i: nat :| i < |ns| && Loose(ns[i], data, fin) {
      var j := FindLoose(ns, data, fin, i);
      if MergeRun(Reopened(fin), ns, data, gen2).Ok? {
        LooseIsNotQuiet(base, ns, data, gen, fin, gen2, j, MergeRun(Reopened(fin), ns, data, gen2).value);
      }
    } else {
      QuietPrefix(base, ns, data, gen, fin, gen2, |ns|);
      assert ns[..|ns|] == ns;
    }
  }

  /** What keeps rows from being loose, by kind. */
  lemma LooseRows(base: Merge, ns: seq<ImportNode>, data: ImportData, gen: Generator, fin: Merge)
    requires Unused(gen) && Opened(base) && DistinctIds(ns) && MergeRun(base, ns, data, gen) == Ok(fin)
    ensures (forall i | 0 <= i < |ns| :: !Loose(ns[i], data, fin)) <==>
      (AllHashed(ns, data, fin) && NoFolderBlocked(ns, fin))
  {
    hide DistinctIds, Opened, MergeNode, FolderBlocked, HashFor;
    forall i | 0 <= i < |ns| ensures ns[i].id != ROOT && ns[i].id in fin.idMap ==> ns[i].kind != Unknown {
      MappedKnown(base, ns, data, gen, fin, i);
    }
    if forall i | 0 <= i < |ns| :: !Loose(ns[i], data, fin) {
      forall n | n in ns ensures !Loose(n, data, fin) {
        var i :| 0 <= i < |ns| && ns[i] == n;
        assert !Loose(ns[i], data, fin);
      }
    }
  }

  /** Only recognised rows are mapped. */
  lemma MappedKnown(base: Merge, ns: seq<ImportNode>, data: ImportData, gen: Generator, fin: Merge, i: nat)
    requires Unused(gen) && Opened(base) && DistinctIds(ns) && i < |ns| && MergeRun(base, ns, data, gen) == Ok(fin)
    ensures ns[i].id != ROOT && ns[i].id in fin.idMap ==> ns[i].kind != Unknown
  {
    hide DistinctIds, Opened, MergeNode, Merged;
    if ns[i].id != ROOT && ns[i].id in fin.idMap {
      RunPrefix(base, ns, data, gen, i);
      RunPrefix(base, ns, data, gen, i + 1);
      RunStep(base, ns, data, gen, i);
      var a := MergeRun(base, ns[..i], data, gen).value;
      var c := MergeRun(base, ns[..i + 1], data, gen).value;
      TakeDistinct(ns, i);
      RunMerges(base, ns[..i], data, gen, a);
      MergedMap(base, a, ns[..i], data, ns[i]);
      StepMapsOwn(a, ns[i], data, gen, c);
      MapsOnlyAtOwnStep(base, ns, data, gen, fin, i, i + 1, c);
    }
  }
}
