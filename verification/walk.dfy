/** Walking a bucket and looking keys up: two views of the same paths. */
module Walks {
  import opened Wrappers
  import opened Nodes
  import opened SearchIndex
  import opened Stores
  import opened Text
  import opened Keys

  // ---- paths below a folder ----

  /** `y` is the ready row that the names `p` lead to from `a`. */
  ghost predicate NamedFrom(t: Table, a: Id, p: seq<string>, y: Id)
    decreases |p|
  {
    if p == [] then y == a
    else
      IsReady(t, y) && t[y].parent.Some? && t[y].name == p[|p| - 1] &&
      NamedFrom(t, a, p[..|p| - 1], t[y].parent.value)
  }

  lemma {:induction false} NamedCat(t: Table, a: Id, p: seq<string>, b: Id, q: seq<string>, y: Id)
    requires NamedFrom(t, a, p, b) && NamedFrom(t, b, q, y)
    ensures NamedFrom(t, a, p + q, y)
    decreases |q|
  {
    if q == [] {
      assert p + q == p;
    } else {
      NamedCat(t, a, p, b, q[..|q| - 1], t[y].parent.value);
      assert (p + q)[..|p + q| - 1] == p + q[..|q| - 1];
    }
  }

  lemma {:induction false} NamedCut(t: Table, a: Id, p: seq<string>, q: seq<string>, y: Id) returns (b: Id)
    requires NamedFrom(t, a, p + q, y)
    ensures NamedFrom(t, a, p, b) && NamedFrom(t, b, q, y)
    decreases |q|
  {
    if q == [] {
      assert p + q == p;
      b := y;
    } else {
      assert (p + q)[..|p + q| - 1] == p + q[..|q| - 1];
      b := NamedCut(t, a, p, q[..|q| - 1], t[y].parent.value);
    }
  }

  lemma {:induction false} NamedUnique(t: Table, a: Id, p: seq<string>, y: Id, z: Id)
    requires UniqueNames(t) && NamedFrom(t, a, p, y) && NamedFrom(t, a, p, z)
    ensures y == z
    decreases |p|
  {
    if p != [] {
      NamedUnique(t, a, p[..|p| - 1], t[y].parent.value, t[z].parent.value);
    }
  }

  lemma {:induction false} NamedUnder(t: Table, a: Id, p: seq<string>, y: Id)
    requires NamedFrom(t, a, p, y)
    ensures Up(t, y, |p|) == Some(a)
    decreases |p|
  {
    if p != [] {
      NamedUnder(t, a, p[..|p| - 1], t[y].parent.value);
    }
  }

  /** A row met on the way to something is a folder. */
  lemma NamedFolder(t: Table, a: Id, q: seq<string>, y: Id)
    requires Shape(t) && a in t && q != [] && NamedFrom(t, a, q, y)
    ensures t[a].kind == Folder
  {
    assert [q[0]] + q[1..] == q;
    var c := NamedCut(t, a, [q[0]], q[1..], y);
    assert t[c].parent == Some(a) && c in t;
    RootIsFolder(t);
    RowParent(t, c);
  }

  // ---- names the gateway can put in a key ----

  /** Names hold no slash, and folders have names: what `ValidateNodeName` sees to. */
  ghost predicate PlainNames(t: Table) {
    forall x | IsReady(t, x) && x != ROOT :: SLASH !in t[x].name && (t[x].kind == Folder ==> t[x].name != "")
  }

  lemma {:induction false} PathPlain(t: Table, a: Id, p: seq<string>, y: Id)
    requires Shape(t) && PlainNames(t) && NamedFrom(t, a, p, y)
    ensures SlashFree(p)
    ensures y in t && t[y].kind == Folder ==> forall s | s in p :: s != ""
    ensures forall i | 0 <= i < |p| - 1 :: p[i] != ""
    decreases |p|
  {
    if p != [] {
      RootIsFolder(t);
      RowParent(t, y);
      PathPlain(t, a, p[..|p| - 1], t[y].parent.value);
      assert p == p[..|p| - 1] + [t[y].name];
    }
  }

  /** The key that `walkTree` builds on the way down. */
  function KeyFrom(prefix: string, p: seq<string>): string {
    if p == [] then prefix else JoinKey(KeyFrom(prefix, p[..|p| - 1]), p[|p| - 1])
  }

  lemma {:induction false} KeyFromCat(prefix: string, p: seq<string>, q: seq<string>)
    ensures KeyFrom(prefix, p + q) == KeyFrom(KeyFrom(prefix, p), q)
    decreases |q|
  {
    if q == [] {
      assert p + q == p;
    } else {
      KeyFromCat(prefix, p, q[..|q| - 1]);
      assert (p + q)[..|p + q| - 1] == p + q[..|q| - 1];
    }
  }

  lemma {:induction false} KeyFromNothing(p: seq<string>)
    requires p != [] && forall i | 0 <= i < |p| - 1 :: p[i] != ""
    ensures KeyFrom("", p) == Join(p)
    ensures KeyFrom("", p) == "" ==> |p| == 1 && p[0] == ""
    decreases |p|
  {
    var init := p[..|p| - 1];
    if init != [] {
      KeyFromNothing(init);
      JoinCat(init, [p[|p| - 1]]);
      assert p == init + [p[|p| - 1]];
    }
  }

  lemma {:induction false} KeyFromFolder(prefix: string, p: seq<string>)
    requires prefix != "" && p != []
    ensures KeyFrom(prefix, p) == prefix + [SLASH] + Join(p)
    decreases |p|
  {
    var init, last := p[..|p| - 1], p[|p| - 1];
    if init != [] {
      KeyFromFolder(prefix, init);
      JoinCat(init, [last]);
      assert p == init + [last];
      assert prefix + [SLASH] + Join(init) + [SLASH] + last == prefix + [SLASH] + (Join(init) + [SLASH] + last);
    }
  }

  /** What a walk from `node` reports. */
  ghost predicate Reports(t: Table, node: Id, prefix: string, key: string, y: Id) {
    IsReady(t, y) && t[y].kind == File && exists p :: p != [] && NamedFrom(t, node, p, y) && key == KeyFrom(prefix, p)
  }

  // ---- walkTree ----

  datatype Listed = Listed(key: string, id: Id)

  ghost predicate WalkOf(t: Table, node: Id, prefix: string, out: seq<Listed>) {
    && (forall e | e in out :: Reports(t, node, prefix, e.key, e.id))
    && (forall key, y | Reports(t, node, prefix, key, y) :: Listed(key, y) in out)
    && (forall i, j | 0 <= i < j < |out| :: out[i].id != out[j].id)
  }

  /** What the children visited so far account for. */
  ghost predicate WalkPart(t: Table, node: Id, prefix: string, children: seq<Id>, out: seq<Listed>) {
    && (forall e | e in out :: Reports(t, node, prefix, e.key, e.id) && exists c | c in children :: Under(t, c, e.id))
    && (forall c, key, y | c in children && Under(t, c, y) && Reports(t, node, prefix, key, y) :: Listed(key, y) in out)
    && (forall i, j | 0 <= i < j < |out| :: out[i].id != out[j].id)
  }

  /** `walkTree`: each ready file below the node, once, with its full key. */
  method WalkTree(store: Store, node: Id, prefix: string) returns (out: seq<Listed>)
    requires Tree(store.nodes) && node in store.nodes
    ensures WalkOf(store.nodes, node, prefix, out)
    decreases Subtree(store.nodes, node)
  {
    hide Shape, UniqueNames, FoldersAnchored, Subtree, WalkOf, WalkPart, Reports, NamedFrom, Under;
    ghost var t := store.nodes;
    var children := store.ListChildren(node);
    out := [];
    var i := 0;
    WalkNone(t, node, prefix, children);
    while i < |children|
      invariant 0 <= i <= |children|
      invariant WalkPart(t, node, prefix, children[..i], out)
    {
      var c := children[i];
      assert c in children;
      assert ReadyChild(t, node, c);
      var key := JoinKey(prefix, store.nodes[c].name);
      if store.nodes[c].kind == Folder {
        ChildReaches(t, node, c);
        ChildSubtree(t, node, c);
        var below := WalkTree(store, c, key);
        WalkInto(t, node, prefix, children, i, out, below);
        out := out + below;
      } else {
        WalkFile(t, node, prefix, children, i, out);
        out := out + [Listed(key, c)];
      }
      i := i + 1;
    }
    assert children[..i] == children;
    WalkAll(t, node, prefix, children, out);
  }

  lemma ChildReaches(t: Table, node: Id, c: Id)
    requires Shape(t) && ReadyChild(t, node, c)
    ensures RootRow(t) && ReachesRoot(t, c)
  {}

  lemma WalkNone(t: Table, node: Id, prefix: string, children: seq<Id>)
    ensures WalkPart(t, node, prefix, children[..0], [])
  {}

  /** The first step of a path goes to a ready child, whose walk reports the rest of it. */
  lemma ReportsChild(t: Table, node: Id, prefix: string, c: Id, key: string, y: Id)
    requires Shape(t) && UniqueNames(t) && ReadyChild(t, node, c) && Under(t, c, y)
    ensures Reports(t, node, prefix, key, y) <==>
              if y == c then t[c].kind == File && key == JoinKey(prefix, t[c].name)
              else Reports(t, c, JoinKey(prefix, t[c].name), key, y)
  {
    var name := t[c].name;
    assert NamedFrom(t, node, [name], c) by { assert NamedFrom(t, node, [], node); assert [name][..0] == []; }
    assert KeyFrom(prefix, [name]) == JoinKey(prefix, name) by { assert [name][..0] == []; }
    if Reports(t, node, prefix, key, y) {
      var p :| p != [] && NamedFrom(t, node, p, y) && key == KeyFrom(prefix, p);
      assert p == [p[0]] + p[1..];
      var b := NamedCut(t, node, [p[0]], p[1..], y);
      assert ReadyChild(t, node, b) by { assert [p[0]][..0] == []; }
      NamedUnder(t, b, p[1..], y);
      SiblingsDisjoint(t, b, c, y);
      KeyFromCat(prefix, [p[0]], p[1..]);
      if y == c {
        if p[1..] != [] {
          NamedUnder(t, c, p[1..], c);
          NoCycle(t, c, |p[1..]|);
        }
      } else {
        assert p[1..] != [];
      }
    }
    if y != c && Reports(t, c, JoinKey(prefix, name), key, y) {
      var q :| q != [] && NamedFrom(t, c, q, y) && key == KeyFrom(JoinKey(prefix, name), q);
      NamedCat(t, node, [name], c, q, y);
      KeyFromCat(prefix, [name], q);
    }
    if y == c && t[c].kind == File && key == JoinKey(prefix, name) {
      assert [name] != [] && NamedFrom(t, node, [name], c);
    }
  }

  lemma ReportsUnder(t: Table, node: Id, prefix: string, key: string, y: Id)
    requires Reports(t, node, prefix, key, y)
    ensures Under(t, node, y)
  {
    var p :| p != [] && NamedFrom(t, node, p, y) && key == KeyFrom(prefix, p);
    NamedUnder(t, node, p, y);
  }

  lemma ReportsIsFile(t: Table, node: Id, prefix: string, key: string, y: Id)
    requires Reports(t, node, prefix, key, y)
    ensures y in t && t[y].kind == File
  {}

  lemma Apart(t: Table, node: Id, children: seq<Id>, i: nat, y: Id)
    requires Shape(t) && i < |children| && Distinct(children) && forall c | c in children :: ReadyChild(t, node, c)
    requires Under(t, children[i], y)
    ensures forall c | c in children[..i] :: !Under(t, c, y)
  {
    assert children[i] in children;
    forall c | c in children[..i] ensures !Under(t, c, y) {
      var j :| 0 <= j < i && children[j] == c;
      assert c in children && c != children[i];
      if Under(t, c, y) {
        SiblingsDisjoint(t, c, children[i], y);
      }
    }
  }

  lemma WalkInto(t: Table, node: Id, prefix: string, children: seq<Id>, i: nat, out: seq<Listed>, below: seq<Listed>)
    requires Shape(t) && UniqueNames(t) && i < |children| && Distinct(children) && forall c :: c in children <==>
      ReadyChild(t, node, c)
    requires WalkPart(t, node, prefix, children[..i], out)
    requires children[i] in t && t[children[i]].kind == Folder &&
      WalkOf(t, children[i], JoinKey(prefix, t[children[i]].name), below)
    ensures WalkPart(t, node, prefix, children[..i + 1], out + below)
  {
    hide Shape, UniqueNames, Reports, NamedFrom, Under, Distinct;
    var c := children[i];
    var key := JoinKey(prefix, t[c].name);
    assert c in children;
    forall e | e in below ensures Reports(t, node, prefix, e.key, e.id) && Under(t, c, e.id) &&
      forall b | b in children[..i] :: !Under(t, b, e.id)
    {
      ReportsUnder(t, c, key, e.key, e.id);
      ReportsIsFile(t, c, key, e.key, e.id);
      ReportsChild(t, node, prefix, c, e.key, e.id);
      Apart(t, node, children, i, e.id);
    }
    forall k, y | Under(t, c, y) && Reports(t, node, prefix, k, y) ensures Listed(k, y) in below {
      ReportsIsFile(t, node, prefix, k, y);
      ReportsChild(t, node, prefix, c, k, y);
    }
    AddPart(t, node, prefix, children, i, out, below);
  }

  lemma WalkFile(t: Table, node: Id, prefix: string, children: seq<Id>, i: nat, out: seq<Listed>)
    requires Shape(t) && UniqueNames(t) && i < |children| && Distinct(children) && forall c :: c in children <==>
      ReadyChild(t, node, c)
    requires WalkPart(t, node, prefix, children[..i], out) && children[i] in t && t[children[i]].kind == File
    ensures WalkPart(t, node, prefix, children[..i + 1],
      out + [Listed(JoinKey(prefix, t[children[i]].name), children[i])])
  {
    hide Shape, UniqueNames, Reports, NamedFrom, Under, Distinct;
    var c := children[i];
    var e := Listed(JoinKey(prefix, t[c].name), c);
    assert c in children;
    UnderSelf(t, c);
    ReportsChild(t, node, prefix, c, e.key, c);
    Apart(t, node, children, i, c);
    forall k, y | Under(t, c, y) && Reports(t, node, prefix, k, y) ensures Listed(k, y) == e {
      OnlyItself(t, c, y);
      ReportsChild(t, node, prefix, c, k, y);
    }
    AddPart(t, node, prefix, children, i, out, [e]);
  }

  lemma OnlyItself(t: Table, c: Id, y: Id)
    requires Shape(t) && c in t && t[c].kind == File && Under(t, c, y)
    ensures y == c
  {
    if y != c {
      NothingUnderFile(t, c, y);
    }
  }

  lemma AddPart(t: Table, node: Id, prefix: string, children: seq<Id>, i: nat, out: seq<Listed>, more: seq<Listed>)
    requires i < |children| && WalkPart(t, node, prefix, children[..i], out)
    requires forall e | e in more ::
      Reports(t, node, prefix, e.key, e.id) && Under(t, children[i], e.id) && forall b | b in children[..i] ::
      !Under(t, b, e.id)
    requires forall k, y | Under(t, children[i], y) && Reports(t, node, prefix, k, y) :: Listed(k, y) in more
    requires forall j, k | 0 <= j < k < |more| :: more[j].id != more[k].id
    ensures WalkPart(t, node, prefix, children[..i + 1], out + more)
  {
    hide Reports, Under;
    var seen := children[..i + 1];
    assert forall c | c in seen :: c in children[..i] || c == children[i];
    assert children[i] in seen && forall c | c in children[..i] :: c in seen;
    var all := out + more;
    forall e | e in all ensures Reports(t, node, prefix, e.key, e.id) && exists c | c in seen :: Under(t, c, e.id) {
      if e in out {
        var c :| c in children[..i] && Under(t, c, e.id);
        assert c in seen;
      }
    }
    forall j, k | 0 <= j < k < |all| ensures all[j].id != all[k].id {
      if j < |out| <= k {
        assert all[j] in out && all[k] in more;
        var c :| c in children[..i] && Under(t, c, all[j].id);
      } else if k < |out| {
        assert all[j] == out[j] && all[k] == out[k];
      } else {
        assert all[j] == more[j - |out|] && all[k] == more[k - |out|];
      }
    }
  }

  lemma WalkAll(t: Table, node: Id, prefix: string, children: seq<Id>, out: seq<Listed>)
    requires Shape(t) && node in t && forall c :: c in children <==> ReadyChild(t, node, c)
    requires WalkPart(t, node, prefix, children, out)
    ensures WalkOf(t, node, prefix, out)
  {
    forall k, y | Reports(t, node, prefix, k, y) ensures Listed(k, y) in out {
      var p :| p != [] && NamedFrom(t, node, p, y) && k == KeyFrom(prefix, p);
      assert p == [p[0]] + p[1..];
      var c := NamedCut(t, node, [p[0]], p[1..], y);
      assert ReadyChild(t, node, c) by { assert [p[0]][..0] == []; }
      NamedUnder(t, c, p[1..], y);
    }
  }
}
