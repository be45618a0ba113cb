/** The other requests of the gateway when nothing runs in between: a delete frees its
    key, a bucket can be made and removed. */
module GatewayEnds {
  import opened Wrappers
  import opened Nodes
  import opened TreeOps
  import opened SearchIndex
  import opened Stores
  import opened Text
  import opened Gateway
  import opened GatewayProofs
  import opened GatewaySteps
  import opened GatewayRefinement
  import opened GatewayPuts
  import opened GatewayRaces

  // ---- a delete ----

  ghost function NextRemove(s: State, r: RequestId): Action
    requires IsRemove(s, r)
  {
    var q := s.requests[r];
    match q.dpc
    case Walking(_, i) =>
      if i < |q.dirs| then FindDir(r) else if q.found.None? then FindObject(r) else DeleteObject(r)
    case _ => FindBucket(r)
  }

  ghost function RemoveAlone(s: State, r: RequestId, k: nat): State
    decreases k
  {
    if k == 0 || !IsRemove(s, r) then s else RemoveAlone(Step(s, NextRemove(s, r)), r, k - 1)
  }

  ghost predicate Removes(s: State, r: RequestId, k: nat)
    requires IsRemove(s, r)
  {
    var e := RemoveAlone(s, r, k);
    r !in e.requests && View(e) == Flat(View(s), Erase(OwnAddress(s.requests[r])))
  }

  lemma RemovesLater(s: State, r: RequestId, u: State, k: nat)
    requires IsRemove(s, r) && u == Step(s, NextRemove(s, r)) && View(u) == View(s)
    requires IsRemove(u, r) && OwnAddress(u.requests[r]) == OwnAddress(s.requests[r]) && Removes(u, r, k)
    ensures Removes(s, r, k + 1)
  {
    hide View, NextRemove, Step, Flat;
  }

  lemma RemovesNow(s: State, r: RequestId, u: State)
    requires IsRemove(s, r) && u == Step(s, NextRemove(s, r)) && r !in u.requests
    requires View(u) == Flat(View(s), Erase(OwnAddress(s.requests[r])))
    ensures Removes(s, r, 1)
  {
    hide View, NextRemove, Step, Flat;
    assert RemoveAlone(u, r, 0) == u;
  }

  lemma NothingThere(m: Objects, p: Address)
    requires p !in m
    ensures Flat(m, Erase(p)) == m
  {}

  /** A front of a live path is a live path, and before its end it is one of folders. */
  lemma {:induction false} NamedFront(t: Table, p: seq<string>, y: Id, n: nat) returns (z: Id)
    requires Shape(t) && Named(t, p, y) && n < |p|
    ensures Named(t, p[..n], z) && z in t && t[z].kind == Folder
    decreases |p|
  {
    z := t[y].parent.value;
    if y != ROOT { RowParent(t, y); }
    if n < |p| - 1 {
      z := NamedFront(t, p[..|p| - 1], z, n);
      assert p[..|p| - 1][..n] == p[..n];
    }
  }

  lemma KeyHolder(s: State, p: Address) returns (y: Id)
    requires p in View(s)
    ensures Named(s.nodes, p, y)
  {
    y := Holder(s.nodes, p);
  }

  lemma NextName(t: Table, q: seq<string>, at: Id, name: string, z: Id)
    requires Shape(t) && UniqueNames(t) && Named(t, q, at) && Named(t, q + [name], z)
    ensures IsChild(t, at, name, z)
  {
    assert (q + [name])[..|q|] == q;
    NameUnique(t, q, t[z].parent.value, at);
  }

  /** An object below a folder of its key's path is reached through the next one. */
  lemma KeyThrough(s: State, bucket: string, dirs: seq<string>, i: nat, at: Id, name: string)
    requires TreeInv(s.nodes) && i < |dirs| && AtFolder(s.nodes, bucket, dirs[..i], at)
    requires Path(bucket, dirs) + [name] in View(s)
    ensures exists c :: IsChild(s.nodes, at, dirs[i], c) && s.nodes[c].kind == Folder
  {
    hide View, Named, UniqueNames, FoldersAnchored, Anchored, Shape;
    var p: Address := Path(bucket, dirs) + [name];
    var y := KeyHolder(s, p);
    var z := NamedFront(s.nodes, p, y, i + 2);
    assert p[..i + 2] == Path(bucket, dirs[..i]) + [dirs[i]];
    NextName(s.nodes, Path(bucket, dirs[..i]), at, dirs[i], z);
  }

  lemma BucketThrough(s: State, bucket: string, dirs: seq<string>, name: string)
    requires TreeInv(s.nodes) && Path(bucket, dirs) + [name] in View(s)
    ensures BucketFolder(s.nodes, bucket)
  {
    hide View, UniqueNames, FoldersAnchored, Anchored, Shape;
    var p: Address := Path(bucket, dirs) + [name];
    var y := KeyHolder(s, p);
    var z := NamedFront(s.nodes, p, y, 1);
    assert p[..1] == [bucket] && [bucket][..0] == [];
    FindChildIs(s.nodes, ROOT, bucket, z);
  }

  lemma FoundEnds(s: State, r: RequestId)
    requires Inv(s) && IsRemove(s, r) && s.requests[r].dpc.Walking? && s.requests[r].dpc.i == |s.requests[r].dirs|
    requires var q := s.requests[r];
      q.found.Some? && IsChild(s.nodes, q.dpc.at, q.name, q.found.value) && s.nodes[q.found.value].kind == File
    ensures Removes(s, r, 1)
  {
    hide TreeInv, Intact, UploadsInv, BlobsInv, View, Content, OwnMessages, AtFolder, Removes, RemoveAlone, Flat;
    var q := s.requests[r];
    DeleteObjectKeeps(s, r);
    assert RequestInv(s, q);
    assert q.dirs[..q.dpc.i] == q.dirs;
    ChildHoldsKey(s, q.bucket, q.dirs, q.dpc.at, q.name, q.found.value);
    if !IsReady(s.nodes, q.found.value) {
      NothingThere(View(s), OwnAddress(q));
      FlatStutter(View(s));
    }
    RemovesNow(s, r, RemoveStep(s, DeleteObject(r), r));
  }

  lemma FindEnds(s: State, r: RequestId) returns (k: nat)
    requires Inv(s) && IsRemove(s, r) && s.requests[r].dpc.Walking? && s.requests[r].dpc.i == |s.requests[r].dirs|
    requires s.requests[r].found.None?
    ensures Removes(s, r, k)
  {
    hide Inv, View, Removes, RemoveAlone, FindChild, Flat;
    var q := s.requests[r];
    var u := RemoveStep(s, FindObject(r), r);
    var c := FindChild(s.nodes, q.dpc.at, q.name);
    FindObjectKeeps(s, r);
    if c.Some? && s.nodes[c.value].kind == File {
      FoundEnds(u, r);
      RemovesLater(s, r, u, 1);
      k := 2;
    } else {
      NoObject(s, r);
      NothingThere(View(s), OwnAddress(q));
      RemovesNow(s, r, u);
      k := 1;
    }
  }

  /** No live file of that name, no object. */
  lemma NoObject(s: State, r: RequestId)
    requires Inv(s) && IsRemove(s, r) && s.requests[r].dpc.Walking? && s.requests[r].dpc.i == |s.requests[r].dirs|
    requires var c := FindChild(s.nodes, s.requests[r].dpc.at, s.requests[r].name);
      c.None? || s.nodes[c.value].kind == Folder
    ensures OwnAddress(s.requests[r]) !in View(s)
  {
    hide Intact, UploadsInv, BlobsInv;
    var q, t := s.requests[r], s.nodes;
    assert RequestInv(s, q);
    assert q.dirs[..q.dpc.i] == q.dirs;
    var p := OwnAddress(q);
    assert p[..|p| - 1] == Path(q.bucket, q.dirs);
    if Taken(t, p) {
      var y := Holder(t, p);
      NameUnique(t, p[..|p| - 1], t[y].parent.value, q.dpc.at);
      FindChildIs(t, q.dpc.at, q.name, y);
    }
  }

  lemma {:induction false} RemoveWalkEnds(s: State, r: RequestId) returns (k: nat)
    requires Inv(s) && IsRemove(s, r) && s.requests[r].dpc.Walking? && s.requests[r].dpc.i <= |s.requests[r].dirs|
    requires s.requests[r].found.None?
    ensures Removes(s, r, k)
    decreases |s.requests[r].dirs| - s.requests[r].dpc.i
  {
    hide Inv, View, Removes, RemoveAlone, FindChild, Flat;
    var q := s.requests[r];
    if q.dpc.i == |q.dirs| {
      k := FindEnds(s, r);
    } else {
      var u := RemoveStep(s, FindDir(r), r);
      var c := FindChild(s.nodes, q.dpc.at, q.dirs[q.dpc.i]);
      RemoveWalks(s, FindDir(r), r);
      if c.Some? && s.nodes[c.value].kind == Folder {
        k := RemoveWalkEnds(u, r);
        RemovesLater(s, r, u, k);
        k := k + 1;
      } else {
        NoFolder(s, r);
        NothingThere(View(s), OwnAddress(q));
        RemovesNow(s, r, u);
        k := 1;
      }
    }
  }

  lemma NoFolder(s: State, r: RequestId)
    requires Inv(s) && IsRemove(s, r) && s.requests[r].dpc.Walking? && s.requests[r].dpc.i < |s.requests[r].dirs|
    requires var c := FindChild(s.nodes, s.requests[r].dpc.at, s.requests[r].dirs[s.requests[r].dpc.i]);
      c.None? || s.nodes[c.value].kind == File
    ensures OwnAddress(s.requests[r]) !in View(s)
  {
    hide Intact, UploadsInv, BlobsInv, View, AtFolder;
    var q := s.requests[r];
    assert RequestInv(s, q);
    if OwnAddress(q) in View(s) {
      KeyThrough(s, q.bucket, q.dirs, q.dpc.i, q.dpc.at, q.name);
      var c :| IsChild(s.nodes, q.dpc.at, q.dirs[q.dpc.i], c) && s.nodes[c].kind == Folder;
      FindChildIs(s.nodes, q.dpc.at, q.dirs[q.dpc.i], c);
    }
  }

  lemma NoBucket(s: State, bucket: string, dirs: seq<string>, name: string)
    requires Inv(s) && !BucketFolder(s.nodes, bucket)
    ensures Path(bucket, dirs) + [name] !in View(s)
  {
    hide View, Intact, UploadsInv, BlobsInv;
    if Path(bucket, dirs) + [name] in View(s) { BucketThrough(s, bucket, dirs, name); }
  }

  /** A delete that nothing disturbs returns; afterwards its key holds no object, and every
      other key what it held. */
  lemma RemoveEnds(s: State, r: RequestId, q: Request) returns (k: nat)
    requires Inv(s) && r !in s.requests && s.deleting.None? && q.Remove? && Fresh(q)
    ensures var e := RemoveAlone(Step(s, Begin(r, q)), r, k);
      r !in e.requests && View(e) == Flat(View(s), Erase(OwnAddress(q)))
  {
    hide Inv, View, RemoveAlone, FindChild, BucketFolder, Flat;
    var begun := Step(s, Begin(r, q));
    BeginKeeps(s, r, q);
    assert begun == With(s, r, q);
    var u := RemoveStep(begun, FindBucket(r), r);
    RemoveWalks(begun, FindBucket(r), r);
    if BucketFolder(s.nodes, q.bucket) {
      k := RemoveWalkEnds(u, r);
      RemovesLater(begun, r, u, k);
      k := k + 1;
    } else {
      NoBucket(begun, q.bucket, q.dirs, q.name);
      NothingThere(View(begun), OwnAddress(q));
      RemovesNow(begun, r, u);
      k := 1;
    }
  }

  // ---- buckets ----

  /** A bucket request that nothing disturbs leaves the bucket there exactly when it was
      there, or its name is valid and free. */
  lemma BucketMakes(s: State, r: RequestId, bucket: string, id: Id)
    requires Inv(s) && r !in s.requests && s.deleting.None? && id !in s.nodes && id != ""
    ensures var e := Step(Step(Step(s, Begin(r, NewBucket(bucket, false))), CheckBucket(r)), MakeBucket(r, id));
      && r !in e.requests && View(e) == View(s)
      && (BucketFolder(e.nodes, bucket) <==>
            BucketFolder(s.nodes, bucket) || (ValidName(bucket) && forall c :: !IsChild(s.nodes, ROOT, bucket, c)))
  {
    hide Inv, View, ValidName, FindChild;
    var q := NewBucket(bucket, false);
    var a := With(s, r, q);
    BeginKeeps(s, r, q);
    CheckBucketKeeps(a, r);
    var b := BucketRequestStep(a, CheckBucket(r), r);
    RootIsLive(s);
    if FindChild(s.nodes, ROOT, bucket).None? {
      FreeName(s.nodes, ROOT, bucket);
      MakeBucketKeeps(b, r, id);
      if ValidName(bucket) {
        NewChildFound(s.nodes, id, ROOT, bucket);
      }
    } else {
      FoundIsChild(s.nodes, ROOT, bucket);
    }
  }

  lemma RootIsLive(s: State)
    requires Inv(s)
    ensures Live(s.nodes, ROOT)
  {}

  lemma FoundIsChild(t: Table, at: Id, name: string)
    requires FindChild(t, at, name).Some?
    ensures IsChild(t, at, name, FindChild(t, at, name).value)
  {}

  lemma NewChildFound(t: Table, id: Id, at: Id, name: string)
    requires id !in t && forall c :: !IsChild(t, at, name, c)
    ensures FindChild(t[id := FolderRow(at, name)], at, name) == Some(id)
  {
    var u := t[id := FolderRow(at, name)];
    assert IsChild(u, at, name, id);
    forall c | IsChild(u, at, name, c) ensures c == id {
      assert c != id ==> IsChild(t, at, name, c);
    }
  }

  /** The checks of a bucket delete: the bucket is there, no key in it holds an object, and
      no upload to it is open. */
  lemma RemovableMeans(s: State, bucket: string)
    requires Inv(s)
    ensures Removable(s, bucket) <==>
      BucketFolder(s.nodes, bucket) && (forall p: Address | p in View(s) :: p[0] != bucket) &&
      forall u | u in s.uploads :: s.uploads[u].bucket != bucket
  {
    hide Intact, UploadsInv, BlobsInv, View, NoFiles;
    if BucketFolder(s.nodes, bucket) {
      NoFilesMeans(s, bucket);
    }
  }

  lemma NoFilesMeans(s: State, bucket: string)
    requires Inv(s) && BucketFolder(s.nodes, bucket)
    ensures NoFiles(s.nodes, FindChild(s.nodes, ROOT, bucket).value) <==>
      forall p: Address | p in View(s) :: p[0] != bucket
  {
    hide Intact, UploadsInv, BlobsInv;
    var t := s.nodes;
    var b := FindChild(t, ROOT, bucket).value;
    NoPendingFolder(t, b);
    assert [bucket][..0] == [];
    assert Named(t, [bucket], b);
    if NoFiles(t, b) {
      forall p: Address | p in View(s) ensures p[0] != bucket {
        if p[0] == bucket {
          var y := Holder(t, p);
          NamedDown(t, bucket, b, p, y);
        }
      }
    }
    if forall p: Address | p in View(s) :: p[0] != bucket {
      forall x | x in ReadyDown(t, b) && x in t ensures t[x].kind == Folder {
        if x != b && t[x].kind == File {
          FileInBucket(s, bucket, b, x);
        }
      }
    }
  }

  lemma FileInBucket(s: State, bucket: string, b: Id, x: Id)
    requires Named(s.nodes, [bucket], b)
    requires x in ReadyDown(s.nodes, b) && x in s.nodes && s.nodes[x].kind == File && x != b
    ensures exists p: Address :: p in View(s) && p[0] == bucket
  {
    var k: nat :| DownBy(s.nodes, b, x, k);
    var p: Address := DownNamed(s.nodes, [bucket], b, x, k);
    assert Holds(s.nodes, p, x);
    assert Taken(s.nodes, p);
  }

  /** What a path through the bucket leads to is reached from the bucket. */
  lemma {:induction false} NamedDown(t: Table, bucket: string, b: Id, p: seq<string>, y: Id)
    requires Shape(t) && UniqueNames(t) && Named(t, [bucket], b) && p != [] && p[0] == bucket && Named(t, p, y)
    ensures y in ReadyDown(t, b)
    decreases |p|
  {
    if |p| == 1 {
      assert p == [bucket];
      NameUnique(t, p, y, b);
    } else {
      NamedDown(t, bucket, b, p[..|p| - 1], t[y].parent.value);
      DownOne(t, b, t[y].parent.value, y);
    }
  }

  lemma DownOne(t: Table, b: Id, x: Id, y: Id)
    requires x in ReadyDown(t, b) && ReadyChild(t, x, y)
    ensures y in ReadyDown(t, b)
  {
    if x != b {
      var k: nat :| DownBy(t, b, x, k);
      assert DownBy(t, b, y, k + 1);
    } else {
      assert DownBy(t, b, b, 0);
      assert DownBy(t, b, y, 1);
    }
  }

  lemma {:induction false} DownNamed(t: Table, q: seq<string>, b: Id, x: Id, k: nat) returns (p: seq<string>)
    requires Named(t, q, b) && DownBy(t, b, x, k)
    ensures Named(t, p, x) && |p| == |q| + k && q <= p
    decreases k
  {
    if k == 0 {
      p := q;
    } else {
      p := DownNamed(t, q, b, t[x].parent.value, k - 1);
      p := p + [t[x].name];
      assert p[..|p| - 1] + [t[x].name] == p;
    }
  }

  /** There is always a folder to trash next: one without ready children. */
  lemma {:induction false} LeafBelow(t: Table, b: Id, x: Id) returns (f: Id)
    requires Shape(t) && x in ReadyDown(t, b) && IsReady(t, x)
    ensures TrashNext(t, b, f)
    decreases Subtree(t, x)
  {
    if c :| ReadyChild(t, x, c) {
      DownOne(t, b, x, c);
      ChildSmaller(t, x, c);
      f := LeafBelow(t, b, c);
    } else {
      f := x;
    }
  }

  lemma ChildSmaller(t: Table, x: Id, c: Id)
    requires Shape(t) && ReadyChild(t, x, c)
    ensures Subtree(t, c) < Subtree(t, x)
  {
    RootIsFolder(t);
    ChildSubtree(t, x, c);
  }

  /** Rows only turn deleted. */
  ghost predicate OnlyTrashed(t: Table, u: Table) {
    t.Keys == u.Keys && forall x | x in t :: u[x] == t[x] || u[x] == t[x].(status := Deleted)
  }

  ghost function ReadyRows(t: Table): set<Id> {
    set x | x in t && t[x].status == Ready
  }

  lemma FewerReady(t: Table, f: Id)
    requires IsReady(t, f)
    ensures |ReadyRows(SetStatus(t, f, Deleted))| < |ReadyRows(t)|
  {
    assert ReadyRows(SetStatus(t, f, Deleted)) == ReadyRows(t) - {f};
  }

  /** The recursion of a bucket delete comes to its end: the bucket itself. */
  lemma {:induction false} TrashEnds(s: State, b: Id, name: string) returns (actions: seq<Action>)
    requires Inv(s) && s.deleting == Some((b, name))
    ensures var e := Run(s, actions);
      Inv(e) && View(e) == View(s) && e.deleting == s.deleting && !IsReady(e.nodes, b) && OnlyTrashed(s.nodes, e.nodes)
    ensures forall a | a in actions :: a.TrashFolder?
    decreases |ReadyRows(s.nodes)|
  {
    hide Inv, View, TrashNext, Run, Step;
    RunNothing(s);
    if !IsReady(s.nodes, b) {
      actions := [];
    } else {
      InvShape(s);
      var f := LeafBelow(s.nodes, b, b);
      var u := Trash(s, b, name, f);
      actions := TrashEnds(u, b, name);
      RunCat(s, [TrashFolder(f)], actions);
      RunOne(s, TrashFolder(f));
      actions := [TrashFolder(f)] + actions;
    }
  }

  lemma RunNothing(s: State)
    ensures Run(s, []) == s
  {}

  lemma RunOne(s: State, a: Action)
    ensures Run(s, [a]) == Step(s, a)
  {
    RunStep(s, [], a);
    RunNothing(s);
    assert [] + [a] == [a];
  }

  lemma Trash(s: State, b: Id, name: string, f: Id) returns (u: State)
    requires Inv(s) && s.deleting == Some((b, name)) && TrashNext(s.nodes, b, f)
    ensures u == Step(s, TrashFolder(f)) && Inv(u) && View(u) == View(s) && u.deleting == s.deleting
    ensures OnlyTrashed(s.nodes, u.nodes) && |ReadyRows(u.nodes)| < |ReadyRows(s.nodes)|
  {
    hide Inv, View, ReadyRows;
    u := s.(nodes := SetStatus(s.nodes, f, Deleted));
    TrashFolderKeeps(s, f);
    FewerReady(s.nodes, f);
  }

  lemma Locked(s: State, bucket: string) returns (u: State)
    requires Inv(s) && s.requests == map[] && s.deleting.None? && BucketFolder(s.nodes, bucket)
    requires forall p: Address | p in View(s) :: p[0] != bucket
    requires forall u | u in s.uploads :: s.uploads[u].bucket != bucket
    ensures u == Step(s, LockBucket(bucket)) && Inv(u) && View(u) == View(s) && u.nodes == s.nodes
    ensures u.deleting == Some((FindChild(s.nodes, ROOT, bucket).value, bucket))
  {
    hide Inv, View, FindChild, Removable;
    RemovableMeans(s, bucket);
    LockKeeps(s, bucket);
    u := s.(deleting := Some((FindChild(s.nodes, ROOT, bucket).value, bucket)));
  }

  lemma Unlocked(s: State)
    requires Inv(s)
    ensures Step(s, Unlock).deleting.None? && View(Step(s, Unlock)) == View(s) && Step(s, Unlock).nodes == s.nodes
  {
    hide Inv, View;
    ControlKeeps(s, Unlock);
  }

  /** An idle gateway removes a bucket that holds no object and has no open upload, and
      nothing else shows. */
  lemma BucketGoes(s: State, bucket: string) returns (actions: seq<Action>)
    requires Inv(s) && s.requests == map[] && s.deleting.None? && BucketFolder(s.nodes, bucket)
    requires forall p: Address | p in View(s) :: p[0] != bucket
    requires forall u | u in s.uploads :: s.uploads[u].bucket != bucket
    ensures forall a | a in actions :: a.TrashFolder?
    ensures var e := Step(Run(Step(s, LockBucket(bucket)), actions), Unlock);
      e.deleting.None? && View(e) == View(s) && forall c :: !IsChild(e.nodes, ROOT, bucket, c)
  {
    hide Inv, View, FindChild, Run, Step;
    var locked := Locked(s, bucket);
    var b := FindChild(s.nodes, ROOT, bucket).value;
    actions := TrashEnds(locked, b, bucket);
    var e := Run(locked, actions);
    Unlocked(e);
    UniqueRows(s);
    NameFree(s, e, bucket, b);
  }

  lemma NameFree(s: State, e: State, bucket: string, b: Id)
    requires UniqueNames(s.nodes) && FindChild(s.nodes, ROOT, bucket) == Some(b) && s.nodes[b].kind == Folder
    requires OnlyTrashed(s.nodes, e.nodes) && !IsReady(e.nodes, b) && Inv(s)
    ensures forall c :: !IsChild(e.nodes, ROOT, bucket, c)
  {
    InvShape(s);
    NoPendingFolder(s.nodes, b);
    forall c ensures !IsChild(e.nodes, ROOT, bucket, c) {
      if IsChild(s.nodes, ROOT, bucket, c) { FindChildIs(s.nodes, ROOT, bucket, c); }
    }
  }

  // ---- a failed put ----

  lemma MessagesWiped(s: State, r: RequestId) returns (u: State)
    requires Inv(s) && IsPut(s, r) && s.requests[r].pc.Cleaning?
    ensures var q := s.requests[r];
      && u == Step(s, DeleteMessages(r)) && Inv(u) && View(u) == View(s)
      && IsPut(u, r) && u.requests[r] == q.(pc := Wiped(q.pc.at, q.pc.id)) && u.nodes == s.nodes
      && u.parts == s.parts && u.blobs == s.blobs - MessageIds(q.pc.sent)
  {
    hide Inv, View;
    u := PutStep(s, DeleteMessages(r), r);
    DeleteMessagesKeeps(s, r);
  }

  lemma PartsWiped(s: State, r: RequestId) returns (u: State)
    requires Inv(s) && IsPut(s, r) && s.requests[r].pc.Wiped?
    ensures var q := s.requests[r];
      && u == Step(s, DeleteParts(r)) && Inv(u) && View(u) == View(s)
      && IsPut(u, r) && u.requests[r] == q.(pc := Bare(q.pc.at, q.pc.id)) && u.nodes == s.nodes
      && u.parts == s.parts - {q.pc.id} && u.blobs == s.blobs
  {
    hide Inv, View;
    u := PutStep(s, DeleteParts(r), r);
    DeletePartsKeeps(s, r);
  }

  lemma RowDropped(s: State, r: RequestId) returns (u: State)
    requires Inv(s) && IsPut(s, r) && s.requests[r].pc.Bare?
    ensures var id := s.requests[r].pc.id;
      && u == Step(s, DropStaged(r)) && View(u) == View(s) && r !in u.requests
      && id in u.nodes && u.nodes[id].status == Deleted && u.parts == s.parts && u.blobs == s.blobs
  {
    hide Inv, View;
    u := PutStep(s, DropStaged(r), r);
    DropStagedKeeps(s, r);
    OwnerRow(s, r);
  }

  /** The rollback of a put removes its messages and its part rows, and drops its row. */
  lemma FailedPutCleansUp(s: State, r: RequestId)
    requires Inv(s) && IsPut(s, r) && s.requests[r].pc.Cleaning?
    ensures var pc := s.requests[r].pc;
      var e := Step(Step(Step(s, DeleteMessages(r)), DeleteParts(r)), DropStaged(r));
      && r !in e.requests && View(e) == View(s) && pc.id in e.nodes && e.nodes[pc.id].status == Deleted
      && pc.id !in e.parts && forall p | p in pc.sent :: p.messageId !in e.blobs
  {
    hide Inv, View, Step;
    var a := MessagesWiped(s, r);
    var b := PartsWiped(a, r);
    var e := RowDropped(b, r);
    forall p | p in s.requests[r].pc.sent ensures p.messageId in MessageIds(s.requests[r].pc.sent) {}
  }

  /** A put that fails while it sends, or before its size is written, goes on to that rollback. */
  lemma FailureRollsBack(s: State, r: RequestId)
    requires Inv(s) && IsPut(s, r) && (s.requests[r].pc.Sending? || s.requests[r].pc.Recorded?)
    ensures var pc := s.requests[r].pc;
      var e := Step(Step(Step(Step(s, Fail(r)), DeleteMessages(r)), DeleteParts(r)), DropStaged(r));
      && r !in e.requests && View(e) == View(s) && pc.id in e.nodes && e.nodes[pc.id].status == Deleted
      && pc.id !in e.parts && forall p | p in pc.sent :: p.messageId !in e.blobs
  {
    hide Inv, View;
    FailKeeps(s, r);
    FailedPutCleansUp(PutStep(s, Fail(r), r), r);
  }

  // ---- multipart uploads ----

  /** A multipart upload that nothing disturbs is opened for its bucket and key exactly when
      the bucket is there; no other upload is touched. */
  lemma UploadOpens(s: State, r: RequestId, bucket: string, key: string, upload: string)
    requires Inv(s) && r !in s.requests && s.deleting.None? && upload !in s.uploads
    ensures var e :=
        Step(Step(Step(s, Begin(r, NewUpload(bucket, key, false))), CheckBucket(r)), OpenUpload(r, upload));
      && r !in e.requests && View(e) == View(s)
      && e.uploads == if BucketFolder(s.nodes, bucket) then s.uploads[upload := Upload(bucket, key)] else s.uploads
  {
    hide Inv, View, BucketFolder;
    var begun := With(s, r, NewUpload(bucket, key, false));
    BeginKeeps(s, r, NewUpload(bucket, key, false));
    CheckUploadKeeps(begun, r);
    if BucketFolder(s.nodes, bucket) {
      OpenUploadKeeps(UploadRequestStep(begun, CheckBucket(r), r), r, upload);
    }
  }
}
