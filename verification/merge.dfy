/** `MergeDatabase`: one imported row at a time, as a function of the state of the
    transaction, and the method that runs it. */
module MergeSpec {
  import opened Wrappers
  import opened Nodes
  import opened Numerals
  import opened Stores
  import opened ImportOrder

  datatype Summary = Summary(
    foldersCreated: nat, foldersMerged: nat, filesImported: nat, filesSkipped: nat, nodesSkipped: nat,
    filesRenamed: nat, partsImported: nat, hashesImported: nat)

  /** The tables `file_hashes` and `file_parts` of the imported database, by node. */
  datatype ImportData = ImportData(hashes: map<Id, string>, parts: map<Id, seq<FilePart>>)

  /** The open transaction. `origin` remembers which imported row each new row came from. */
  datatype Merge = Merge(
    nodes: Table, parts: Parts, hashes: Hashes,
    idMap: map<Id, Id>, origin: map<Id, ImportNode>, sum: Summary)

  function Start(nodes: Table, parts: Parts, hashes: Hashes): Merge {
    Merge(nodes, parts, hashes, map[ROOT := ROOT], map[], Summary(0, 0, 0, 0, 0, 0, 0, 0))
  }

  // ---- names ----

  /** `filepath.Ext`. */
  function Ext(name: string, i: nat): string
    requires i <= |name|
  {
    if i == 0 || name[i - 1] == '/' then ""
    else if name[i - 1] == '.' then name[i - 1..]
    else Ext(name, i - 1)
  }

  lemma ExtFits(name: string, i: nat)
    requires i <= |name|
    ensures |Ext(name, i)| <= |name|
  {}

  function Extension(name: string, isFile: bool): string {
    if isFile then Ext(name, |name|) else ""
  }

  function Stem(name: string, isFile: bool): string {
    ExtFits(name, |name|);
    name[..|name| - |Extension(name, isFile)|]
  }

  function Suffixed(name: string, isFile: bool, i: nat): string {
    Stem(name, isFile) + (if i > 1 then " (imported " + Format(i, 10) + ")"
      else " (imported)") + Extension(name, isFile)
  }

  lemma {:induction false} ExtAt(stem: string, e: string, i: nat)
    requires '.' !in e && '/' !in e && |stem| < i <= |stem| + 1 + |e|
    ensures Ext(stem + "." + e, i) == "." + e
    decreases i
  {
    var name := stem + "." + e;
    if i == |stem| + 1 {
      assert name[i - 1..] == "." + e;
    } else {
      assert name[i - 1] == e[i - |stem| - 2] && e[i - |stem| - 2] in e;
      ExtAt(stem, e, i - 1);
    }
  }

  lemma {:induction false} NoExt(name: string, i: nat)
    requires '.' !in name && i <= |name|
    ensures Ext(name, i) == ""
    decreases i
  {
    if i > 0 {
      assert name[i - 1] in name;
      NoExt(name, i - 1);
    }
  }

  /** The extension is what follows the last dot, with the dot. */
  lemma ExtensionIs(stem: string, e: string)
    requires '.' !in e && '/' !in e
    ensures Extension(stem + "." + e, true) == "." + e && Stem(stem + "." + e, true) == stem
  {
    ExtAt(stem, e, |stem + "." + e|);
  }

  lemma NoExtension(name: string, isFile: bool)
    requires '.' !in name || !isFile
    ensures Extension(name, isFile) == "" && Stem(name, isFile) == name
  {
    if isFile { NoExt(name, |name|); }
  }

  /** A taken file name gets its suffix before the extension, a folder's at the end. */
  lemma SuffixedNames(stem: string, e: string, i: nat)
    requires '.' !in e && '/' !in e && i >= 2
    ensures Suffixed(stem + "." + e, true, 1) == stem + " (imported)" + "." + e
    ensures Suffixed(stem + "." + e, true, i) == stem + (" (imported " + Format(i, 10) + ")") + "." + e
    ensures '.' !in stem ==> Suffixed(stem, true, 1) == stem + " (imported)"
    ensures Suffixed(stem, false, 1) == stem + " (imported)"
    ensures Suffixed(stem, false, i) == stem + (" (imported " + Format(i, 10) + ")")
  {
    ExtensionIs(stem, e);
    NoExtension(stem, false);
    if '.' !in stem { NoExtension(stem, true); }
  }

  lemma SameMiddle(front: string, a: string, b: string, back: string)
    requires front + a + back == front + b + back
    ensures a == b
  {
    var s := front + a + back;
    assert |a| == |b|;
    assert s[|front|..|front| + |a|] == a;
    assert s == front + b + back && s[|front|..|front| + |b|] == b;
  }

  /** The suffixes are pairwise different. */
  lemma SuffixedApart(name: string, isFile: bool, i: nat, j: nat)
    requires 1 <= i < j
    ensures Suffixed(name, isFile, i) != Suffixed(name, isFile, j)
  {
    hide Format, Ext;
    ExtFits(name, |name|);
    var stem, ext := Stem(name, isFile), Extension(name, isFile);
    assert Suffixed(name, isFile, j) == stem + " (imported " + Format(j, 10) + (")" + ext);
    if i == 1 {
      assert |Suffixed(name, isFile, i)| == |stem| + |" (imported)"| + |ext|;
      assert |Suffixed(name, isFile, j)| == |stem| + |" (imported "| + |Format(j, 10)| + 1 + |ext|;
    } else if Suffixed(name, isFile, i) == Suffixed(name, isFile, j) {
      assert Suffixed(name, isFile, i) == stem + " (imported " + Format(i, 10) + (")" + ext);
      SameMiddle(stem + " (imported ", Format(i, 10), Format(j, 10), ")" + ext);
      FormatOnce(i, j, 10);
    }
  }

  const MAX_SUFFIX: nat := 1000

  /** `uniqueImportName` from suffix `i` on; when all are taken, the first one again. */
  ghost function UniqueName(t: Table, parent: Id, name: string, isFile: bool, i: nat): string
    decreases MAX_SUFFIX - i
  {
    if i >= MAX_SUFFIX then Suffixed(name, isFile, 1)
    else if FindChild(t, parent, Suffixed(name, isFile, i)).None? then Suffixed(name, isFile, i)
    else UniqueName(t, parent, name, isFile, i + 1)
  }

  ghost function ImportName(t: Table, parent: Id, n: ImportNode): string {
    if FindChild(t, parent, n.name).None? then n.name
    else UniqueName(t, parent, n.name, n.kind == SourceFile, 1)
  }

  // ---- identifiers and parts ----

  function NewId(t: Table, preferred: Id, gen: Generator): Id {
    if preferred == "" || preferred == ROOT || preferred in t then gen(t.Keys + {""}) else preferred
  }

  /** The part rows written for a new file: the same parts, with unused row ids. */
  function ImportParts(ps: seq<FilePart>, used: set<string>, gen: Generator): seq<FilePart> {
    if ps == [] then []
    else
      var p := ps[0].(id := if ps[0].id == "" || ps[0].id in used then gen(used + {""}) else ps[0].id);
      [p] + ImportParts(ps[1..], used + {p.id}, gen)
  }

  function PartsFor(data: ImportData, id: Id): seq<FilePart> {
    if id in data.parts then data.parts[id] else []
  }

  function HashFor(data: ImportData, id: Id): string {
    if id in data.hashes then data.hashes[id] else ""
  }

  /** `importHashNode`: the ready node that already holds this content. */
  function HashNode(m: Merge, hash: string): Option<Id> {
    if hash in m.hashes && IsReady(m.nodes, m.hashes[hash]) then Some(m.hashes[hash]) else None
  }

  // ---- one imported row ----

  function Image(idMap: map<Id, Id>, parent: Id): Option<Id> {
    if parent == "" || parent == ROOT then Some(ROOT)
    else if parent in idMap then Some(idMap[parent])
    else None
  }

  function KindOf(k: SourceKind): Kind {
    if k == SourceFolder then Folder else File
  }

  function ImportedRow(n: ImportNode, parent: Id, name: string): Node {
    Node(Some(parent), name, KindOf(n.kind), n.mime, n.size, Ready, n.channel)
  }

  function Skip(m: Merge): Merge {
    m.(sum := m.sum.(nodesSkipped := m.sum.nodesSkipped + 1))
  }

  /** The insert of a new row under an unused name. */
  ghost function Inserted(m: Merge, n: ImportNode, parent: Id, gen: Generator): Merge {
    var id := NewId(m.nodes, n.id, gen);
    m.(nodes := m.nodes[id := ImportedRow(n, parent, ImportName(m.nodes, parent, n))],
       idMap := m.idMap[n.id := id], origin := m.origin[id := n])
  }

  ghost function MergeFolder(m: Merge, n: ImportNode, parent: Id, gen: Generator): Result<Merge, Error> {
    var existing := FindChild(m.nodes, parent, n.name);
    if existing.Some? && m.nodes[existing.value].kind == Folder then
      Ok(m.(idMap := m.idMap[n.id := existing.value], sum := m.sum.(foldersMerged := m.sum.foldersMerged + 1)))
    else if FindChild(m.nodes, parent, ImportName(m.nodes, parent, n)).Some? then Err(Conflict)
    else Ok(Inserted(m, n, parent, gen).(sum := m.sum.(foldersCreated := m.sum.foldersCreated + 1)))
  }

  ghost function MergeFile(m: Merge, n: ImportNode, parent: Id, data: ImportData, gen: Generator)
      : Result<Merge, Error>
  {
    var hash := HashFor(data, n.id);
    var ps := PartsFor(data, n.id);
    var id := NewId(m.nodes, n.id, gen);
    if hash != "" && HashNode(m, hash).Some? then
      Ok(m.(idMap := m.idMap[n.id := HashNode(m, hash).value], sum := m.sum.(filesSkipped := m.sum.filesSkipped + 1)))
    else if FindChild(m.nodes, parent, ImportName(m.nodes, parent, n)).Some? || !DistinctNumbers(ps) then Err(Conflict)
    else Ok(Inserted(m, n, parent, gen).(
      parts := if ps == [] then m.parts else m.parts[id := ImportParts(ps, PartIds(m.parts), gen)],
      hashes := if hash == "" then m.hashes else m.hashes[hash := id],
      sum := m.sum.(
        filesImported := m.sum.filesImported + 1,
        filesRenamed := m.sum.filesRenamed + (if FindChild(m.nodes, parent, n.name).Some? then 1 else 0),
        partsImported := m.sum.partsImported + |ps|,
        hashesImported := m.sum.hashesImported + (if hash == "" then 0 else 1))))
  }

  /** A row that takes part in the merge: ready, a file or folder, with its parent's image known. */
  predicate Reached(m: Merge, n: ImportNode) {
    n.id != ROOT && n.ready && n.kind != Unknown && Image(m.idMap, n.parent).Some?
  }

  ghost function MergeNode(m: Merge, n: ImportNode, data: ImportData, gen: Generator): Result<Merge, Error> {
    if n.id == ROOT then Ok(m)
    else if !Reached(m, n) then Ok(Skip(m))
    else if n.kind == SourceFolder then MergeFolder(m, n, Image(m.idMap, n.parent).value, gen)
    else MergeFile(m, n, Image(m.idMap, n.parent).value, data, gen)
  }

  /** The loop over the ordered rows; an error ends it. */
  ghost function MergeRun(m: Merge, ns: seq<ImportNode>, data: ImportData, gen: Generator): Result<Merge, Error>
    decreases |ns|
  {
    if ns == [] then Ok(m)
    else
      match MergeRun(m, ns[..|ns| - 1], data, gen)
      case Err(e) => Err(e)
      case Ok(k) => MergeNode(k, ns[|ns| - 1], data, gen)
  }

  lemma {:induction false} RunPrefix(m: Merge, ns: seq<ImportNode>, data: ImportData, gen: Generator, i: nat)
    requires i <= |ns| && MergeRun(m, ns, data, gen).Ok?
    ensures MergeRun(m, ns[..i], data, gen).Ok?
    decreases |ns| - i
  {
    if i < |ns| {
      RunPrefix(m, ns, data, gen, i + 1);
      assert ns[..i + 1][..i] == ns[..i];
    } else {
      assert ns[..i] == ns;
    }
  }

  lemma RunStep(m: Merge, ns: seq<ImportNode>, data: ImportData, gen: Generator, i: nat)
    requires i < |ns|
    ensures MergeRun(m, ns[..i + 1], data, gen) ==
            (match MergeRun(m, ns[..i], data, gen) case Err(e) => Err(e) case Ok(k) => MergeNode(k, ns[i], data, gen))
  {
    assert ns[..i + 1][..i] == ns[..i];
  }
}
