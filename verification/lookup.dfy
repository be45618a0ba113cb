/** Resolving folders, looking objects up, and listing below a prefix. */
module Lookups {
  import opened Wrappers
  import opened Nodes
  import opened SearchIndex
  import opened Stores
  import opened Text
  import opened Keys
  import opened Walks

  /** The folder that `path` leads to below `start`. */
  ghost predicate Resolves(t: Table, start: Id, path: seq<string>, y: Id) {
    NamedFrom(t, start, path, y) && y in t && t[y].kind == Folder
  }

  lemma {:induction false} ResolvesPrefix(t: Table, start: Id, path: seq<string>, i: nat, y: Id) returns (z: Id)
    requires Shape(t) && UniqueNames(t) && LiveFolder(t, start) && i < |path| && Resolves(t, start, path, y)
    ensures Resolves(t, start, path[..i], z) && FindChild(t, z, path[i]).Some?
    ensures LiveFolder(t, FindChild(t, z, path[i]).value)
  {
    assert path == path[..i + 1] + path[i + 1..];
    var c := NamedCut(t, start, path[..i + 1], path[i + 1..], y);
    assert path[..i + 1][..i] == path[..i];
    z := t[c].parent.value;
    FindChildIs(t, z, path[i], c);
    RootIsFolder(t);
    RowParent(t, c);
    if i + 1 < |path| {
      NamedFolder(t, c, path[i + 1..], y);
    } else {
      assert path[i + 1..] == [];
    }
  }

  /** `resolveFolder`: succeeds exactly when the path leads to a folder. */
  method ResolveFolder(store: Store, start: Id, path: string) returns (r: Result<Id, Error>)
    requires Tree(store.nodes) && LiveFolder(store.nodes, start)
    ensures r.Ok? ==> Resolves(store.nodes, start, SplitSegments(path), r.value)
    ensures r.Err? ==> r.error == NotFound && forall y :: !Resolves(store.nodes, start, SplitSegments(path), y)
  {
    hide Shape, UniqueNames, FoldersAnchored, FindChild;
    ghost var t := store.nodes;
    var segments := SplitSegments(path);
    var node := start;
    var i := 0;
    while i < |segments|
      invariant 0 <= i <= |segments| && LiveFolder(t, node)
      invariant NamedFrom(t, start, segments[..i], node)
    {
      var child := store.FindChildByName(node, segments[i]);
      if child.None? || store.nodes[child.value].kind != Folder {
        forall y ensures !Resolves(t, start, segments, y) {
          if Resolves(t, start, segments, y) {
            var z := ResolvesPrefix(t, start, segments, i, y);
            NamedUnique(t, start, segments[..i], node, z);
          }
        }
        return Err(NotFound);
      }
      StepDown(t, start, segments, i, node, child.value);
      node := child.value;
      i := i + 1;
    }
    assert segments[..i] == segments;
    r := Ok(node);
  }

  lemma StepDown(t: Table, start: Id, segments: seq<string>, i: nat, node: Id, c: Id)
    requires Shape(t) && i < |segments| && NamedFrom(t, start, segments[..i], node)
    requires FindChild(t, node, segments[i]) == Some(c) && t[c].kind == Folder
    ensures NamedFrom(t, start, segments[..i + 1], c) && LiveFolder(t, c)
  {
    NoPendingFolder(t, c);
    assert segments[..i + 1][..i] == segments[..i];
  }

  ghost predicate IsBucket(t: Table, bucket: string, b: Id) {
    FindChild(t, ROOT, bucket) == Some(b) && t[b].kind == Folder
  }

  /** The live row at a key: in its folder, under its name. */
  ghost predicate AtKey(t: Table, b: Id, key: string, y: Id) {
    exists f :: Resolves(t, b, SplitSegments(SplitKey(key).0), f) && IsChild(t, f, SplitKey(key).1, y)
  }

  /** `lookupObject`. */
  method LookupObject(store: Store, bucket: string, key: string) returns (r: Result<Id, Error>)
    requires Tree(store.nodes)
    ensures r.Ok? ==> ValidKey(key) && exists b ::
      IsBucket(store.nodes, bucket, b) && AtKey(store.nodes, b, key, r.value)
    ensures ValidKey(key) ==> forall b, y | IsBucket(store.nodes, bucket, b) && AtKey(store.nodes, b, key, y) ::
      r == Ok(y)
  {
    hide Shape, UniqueNames, FoldersAnchored, ValidKey, SplitSegments, SplitKey;
    if !ValidKey(key) {
      return Err(Validation);
    }
    var bNode := store.FindChildByName(ROOT, bucket);
    if bNode.None? || store.nodes[bNode.value].kind != Folder {
      return Err(NotFound);
    }
    var b := bNode.value;
    assert IsBucket(store.nodes, bucket, b);
    var (folderPath, name) := SplitKey(key);
    var folder := ResolveFolder(store, b, folderPath);
    if folder.Err? {
      return Err(NotFound);
    }
    var child := store.FindChildByName(folder.value, name);
    forall y | AtKey(store.nodes, b, key, y) ensures child == Some(y) {
      OneAtKey(store.nodes, b, key, folder.value, y);
    }
    if child.None? {
      return Err(NotFound);
    }
    assert AtKey(store.nodes, b, key, child.value);
    r := Ok(child.value);
  }

  lemma OneAtKey(t: Table, b: Id, key: string, f: Id, y: Id)
    requires UniqueNames(t) && Resolves(t, b, SplitSegments(SplitKey(key).0), f) && AtKey(t, b, key, y)
    ensures FindChild(t, f, SplitKey(key).1) == Some(y)
  {
    var g :| Resolves(t, b, SplitSegments(SplitKey(key).0), g) && IsChild(t, g, SplitKey(key).1, y);
    NamedUnique(t, b, SplitSegments(SplitKey(key).0), f, g);
    FindChildIs(t, f, SplitKey(key).1, y);
  }

  // ---- lookups against walks ----

  /** A key that can be looked up, or reported by a walk, and the path it stands for. */
  lemma ValidKeySplits(key: string)
    requires ValidKey(key)
    ensures Split(key) == SplitSegments(SplitKey(key).0) + [SplitKey(key).1]
  {
    CutLastIs(key);
    var (folder, name) := SplitKey(key);
    NoLeadingSlash(name);
    assert folder == "" && SLASH in key ==> key == [SLASH] + name;
    KeySegments(key);
  }

  lemma NoLeadingSlash(name: string)
    ensures !ValidKey([SLASH] + name)
  {
    assert [SLASH] + name == "" + [SLASH] + name;
    SplitCat("", name);
    assert Split("") == [""];
    assert (Split("") + Split(name))[0] == "";
  }

  /** A reported key, split at its slashes, is the path that was walked. */
  lemma ReportedPath(t: Table, b: Id, key: string, y: Id)
    requires Shape(t) && PlainNames(t)
    ensures Reports(t, b, "", key, y) <==> IsReady(t, y) && t[y].kind == File && NamedFrom(t, b, Split(key), y)
  {
    if Reports(t, b, "", key, y) {
      var p :| p != [] && NamedFrom(t, b, p, y) && key == KeyFrom("", p);
      PathPlain(t, b, p, y);
      KeyFromNothing(p);
      SplitJoin(p);
    }
    if IsReady(t, y) && t[y].kind == File && NamedFrom(t, b, Split(key), y) {
      var p := Split(key);
      PathPlain(t, b, p, y);
      KeyFromNothing(p);
      JoinSplit(key);
      assert p != [] && NamedFrom(t, b, p, y) && key == KeyFrom("", p);
    }
  }

  /** For every valid key, a lookup finds a ready file exactly when a walk of the
      bucket reports that key with that file. */
  lemma LookupIsWalk(t: Table, b: Id, key: string, y: Id)
    requires Shape(t) && PlainNames(t) && LiveFolder(t, b) && ValidKey(key)
    ensures AtKey(t, b, key, y) && IsReady(t, y) && t[y].kind == File <==> Reports(t, b, "", key, y)
  {
    ReportedPath(t, b, key, y);
    ValidKeySplits(key);
    var folder, name := SplitSegments(SplitKey(key).0), SplitKey(key).1;
    assert (folder + [name])[..|folder|] == folder;
    if NamedFrom(t, b, folder + [name], y) && IsReady(t, y) {
      var f := t[y].parent.value;
      RootIsFolder(t);
      RowParent(t, y);
      assert Resolves(t, b, folder, f) && IsChild(t, f, name, y);
    }
    if AtKey(t, b, key, y) && IsReady(t, y) {
      var f :| Resolves(t, b, folder, f) && IsChild(t, f, name, y);
    }
  }

  // ---- listing below a prefix ----

  /** Walking the folder that the prefix points at, and filtering, reports what
      walking the whole bucket and filtering does. */
  lemma PrefixWalk(t: Table, b: Id, prefix: string, f: Id, key: string, y: Id)
    requires Shape(t) && UniqueNames(t) && PlainNames(t) && Resolves(t, b, SplitSegments(PrefixFolder(prefix)), f)
    ensures Reports(t, f, PrefixFolder(prefix), key, y) && prefix <= key <==> Reports(t, b, "", key, y) && prefix <= key
  {
    var folder := PrefixFolder(prefix);
    if folder != "" {
      if Reports(t, f, folder, key, y) {
        var q :| q != [] && NamedFrom(t, f, q, y) && key == KeyFrom(folder, q);
        BelowFolder(t, b, folder, f, q, key, y);
      }
      if Reports(t, b, "", key, y) && prefix <= key {
        ReportedPath(t, b, key, y);
        var rest := KeyRest(prefix, key);
        SplitCat(folder, rest);
        var g := NamedCut(t, b, Split(folder), Split(rest), y);
        NamedUnique(t, b, Split(folder), f, g);
        KeyFromFolder(folder, Split(rest));
        JoinSplit(rest);
        assert Split(rest) != [] && NamedFrom(t, f, Split(rest), y) && key == KeyFrom(folder, Split(rest));
      }
    }
  }

  lemma BelowFolder(t: Table, b: Id, folder: string, f: Id, q: seq<string>, key: string, y: Id)
    requires Shape(t) && PlainNames(t) && folder != "" && NamedFrom(t, b, Split(folder), f)
    requires q != [] && NamedFrom(t, f, q, y) && key == KeyFrom(folder, q) && IsReady(t, y) && t[y].kind == File
    ensures Reports(t, b, "", key, y)
  {
    NamedCat(t, b, Split(folder), f, q, y);
    var p := Split(folder) + q;
    PathPlain(t, b, p, y);
    KeyFromFolder(folder, q);
    JoinSplit(folder);
    JoinCat(Split(folder), q);
    KeyFromNothing(p);
    assert p != [] && NamedFrom(t, b, p, y) && key == KeyFrom("", p);
  }

  lemma KeyRest(prefix: string, key: string) returns (rest: string)
    requires PrefixFolder(prefix) != "" && prefix <= key
    ensures key == PrefixFolder(prefix) + [SLASH] + rest
  {
    PrefixFolderIs(prefix);
    var head := PrefixFolder(prefix) + [SLASH];
    assert head <= key;
    rest := key[|head|..];
  }

  /** A key with the prefix lies in the folder that the prefix points at: where
      there is no such folder, no key of the bucket has the prefix. */
  lemma KeyHasFolder(t: Table, b: Id, prefix: string, key: string, y: Id) returns (f: Id)
    requires Shape(t) && PlainNames(t) && LiveFolder(t, b) && Reports(t, b, "", key, y) && prefix <= key
    ensures Resolves(t, b, SplitSegments(PrefixFolder(prefix)), f)
  {
    var folder := PrefixFolder(prefix);
    if folder == "" {
      f := b;
    } else {
      ReportedPath(t, b, key, y);
      var rest := KeyRest(prefix, key);
      SplitCat(folder, rest);
      f := NamedCut(t, b, Split(folder), Split(rest), y);
      NamedInTable(t, b, Split(folder), f);
      NamedFolder(t, f, Split(rest), y);
    }
  }

  lemma NamedInTable(t: Table, a: Id, p: seq<string>, y: Id)
    requires a in t && NamedFrom(t, a, p, y)
    ensures y in t
  {}

  /** The keys with a prefix, as `listObjects` gathers them: none if the folder is
      missing, otherwise its walk, filtered. */
  method KeysBelow(store: Store, b: Id, prefix: string) returns (out: seq<Listed>)
    requires Tree(store.nodes) && PlainNames(store.nodes) && LiveFolder(store.nodes, b)
    ensures forall e :: e in out <==> Reports(store.nodes, b, "", e.key, e.id) && prefix <= e.key
    ensures forall i, j | 0 <= i < j < |out| :: out[i].key != out[j].key
  {
    hide Shape, UniqueNames, FoldersAnchored, Reports, PrefixFolder, SplitSegments, Resolves, PlainNames;
    ghost var t := store.nodes;
    var folder := ResolveFolder(store, b, PrefixFolder(prefix));
    out := [];
    if folder.Err? {
      forall e: Listed ensures !(Reports(t, b, "", e.key, e.id) && prefix <= e.key) {
        if Reports(t, b, "", e.key, e.id) && prefix <= e.key {
          var f := KeyHasFolder(t, b, prefix, e.key, e.id);
        }
      }
      return;
    }
    ResolvedIn(t, b, SplitSegments(PrefixFolder(prefix)), folder.value);
    var all := WalkTree(store, folder.value, PrefixFolder(prefix));
    var i := 0;
    while i < |all|
      invariant 0 <= i <= |all|
      invariant forall e :: e in out <==> e in all[..i] && prefix <= e.key
      invariant forall j, k | 0 <= j < k < |out| :: out[j].id != out[k].id
    {
      assert all[..i + 1] == all[..i] + [all[i]];
      NotYet(all, i);
      if prefix <= all[i].key {
        out := out + [all[i]];
      }
      i := i + 1;
    }
    assert all[..i] == all;
    forall e: Listed ensures e in out <==> Reports(t, b, "", e.key, e.id) && prefix <= e.key {
      PrefixWalk(t, b, prefix, folder.value, e.key, e.id);
      assert e == Listed(e.key, e.id);
    }
    forall j, k | 0 <= j < k < |out| ensures out[j].key != out[k].key {
      assert out[j] in out && out[k] in out;
      if out[j].key == out[k].key {
        SameKeySameFile(t, b, out[j].key, out[j].id, out[k].id);
      }
    }
  }

  lemma ResolvedIn(t: Table, b: Id, path: seq<string>, f: Id)
    requires Resolves(t, b, path, f)
    ensures f in t
  {}

  lemma NotYet(all: seq<Listed>, i: nat)
    requires i < |all| && forall j, k | 0 <= j < k < |all| :: all[j].id != all[k].id
    ensures forall e | e in all[..i] :: e.id != all[i].id
  {}

  lemma SameKeySameFile(t: Table, b: Id, key: string, y: Id, z: Id)
    requires Shape(t) && UniqueNames(t) && PlainNames(t) && Reports(t, b, "", key, y) && Reports(t, b, "", key, z)
    ensures y == z
  {
    ReportedPath(t, b, key, y);
    ReportedPath(t, b, key, z);
    NamedUnique(t, b, Split(key), y, z);
  }
}
