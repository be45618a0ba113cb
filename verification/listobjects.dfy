/** `listObjects` against the flat object map of the gateway. */
module ObjectListing {
  import opened Wrappers
  import opened Nodes
  import opened TreeOps
  import opened Stores
  import opened Keys
  import opened Text
  import W = Walks
  import L = Lookups
  import P = Listing
  import G = Gateway
  import GP = GatewayProofs

  /** One request to list a bucket: a page of the keys that walking the bucket reports. */
  method ListObjects(store: Store, bucket: string, prefix: string, delimiter: string, marker: string, maxKeys: nat)
    returns (r: Result<(seq<P.Line>, bool, string), Error>, ghost keys: set<string>)
    requires Tree(store.nodes) && W.PlainNames(store.nodes)
    ensures r.Err? <==> forall b :: !L.IsBucket(store.nodes, bucket, b)
    ensures r.Ok? ==> forall b, k | L.IsBucket(store.nodes, bucket, b) ::
                        k in keys <==> prefix <= k && exists y :: W.Reports(store.nodes, b, "", k, y)
    ensures r.Ok? ==> P.IsPage(P.Lines(keys, prefix, delimiter), marker, maxKeys, r.value.0, r.value.1)
    ensures r.Ok? && r.value.1 ==> r.value.0 != [] && r.value.2 == r.value.0[|r.value.0| - 1].key
    ensures r.Ok? && marker == "" && |P.Lines(keys, prefix, delimiter)| <= maxKeys ==>
              !r.value.1 && forall x | x in P.Lines(keys, prefix, delimiter) && x.key != "" :: x in r.value.0
  {
    hide Shape, UniqueNames, FoldersAnchored, W.PlainNames, W.Reports, P.IsPage, P.Lines;
    keys := {};
    var node := store.FindChildByName(ROOT, bucket);
    if node.None? || store.nodes[node.value].kind != Folder {
      return Err(NotFound), keys;
    }
    var b := node.value;
    assert L.IsBucket(store.nodes, bucket, b);
    NoPendingFolder(store.nodes, b);
    var found := L.KeysBelow(store, b, prefix);
    var ks: seq<string> := [];
    var i := 0;
    while i < |found|
      invariant 0 <= i <= |found| && |ks| == i && forall j | 0 <= j < i :: ks[j] == found[j].key
    {
      ks := ks + [found[i].key];
      i := i + 1;
    }
    keys := P.KeySet(ks);
    forall k ensures k in keys <==> prefix <= k && exists y :: W.Reports(store.nodes, b, "", k, y) {
      if k in keys {
        var j :| 0 <= j < |ks| && ks[j] == k;
        assert found[j] in found;
      }
      if prefix <= k && exists y :: W.Reports(store.nodes, b, "", k, y) {
        var y :| W.Reports(store.nodes, b, "", k, y);
        assert W.Listed(k, y) in found;
        var j :| 0 <= j < |found| && found[j] == W.Listed(k, y);
        assert ks[j] == k;
      }
    }
    var lines, truncated, next := P.ListPage(ks, prefix, delimiter, marker, maxKeys);
    r := Ok((lines, truncated, next));
  }

  lemma {:induction false} SameNames(t: Table, p: seq<string>, y: Id)
    ensures G.Named(t, p, y) <==> W.NamedFrom(t, ROOT, p, y)
    decreases |p|
  {
    if p != [] && IsReady(t, y) && t[y].parent.Some? {
      SameNames(t, p[..|p| - 1], t[y].parent.value);
    }
  }

  /** The keys of a bucket are exactly the addresses of the flat object map. */
  lemma KeysAreAddresses(s: G.State, bucket: string, b: Id, key: string)
    requires GP.Inv(s) && W.PlainNames(s.nodes) && L.IsBucket(s.nodes, bucket, b)
    ensures (exists y :: W.Reports(s.nodes, b, "", key, y)) <==> ([bucket] + Split(key)) in G.View(s)
  {
    hide GP.RequestsInv, GP.OneOwner, GP.UploadsInv, GP.DeletingInv, GP.Intact, GP.BlobsInv, UniqueNames,
      FoldersAnchored;
    var t := s.nodes;
    var p: G.Address := [bucket] + Split(key);
    NoPendingFolder(t, b);
    assert p[..|p|] == p;
    forall y ensures W.Reports(t, b, "", key, y) <==> G.Holds(t, p, y) {
      L.ReportedPath(t, b, key, y);
      SameNames(t, p, y);
      BelowBucket(t, bucket, b, Split(key), y);
      assert |p| > 0;
    }
    assert G.Taken(t, p) <==> p in G.View(s);
  }

  lemma BelowBucket(t: Table, bucket: string, b: Id, q: seq<string>, y: Id)
    requires Tree(t) && L.IsBucket(t, bucket, b) && IsReady(t, b)
    ensures W.NamedFrom(t, b, q, y) <==> W.NamedFrom(t, ROOT, [bucket] + q, y)
  {
    assert [bucket][..0] == [];
    assert W.NamedFrom(t, ROOT, [], ROOT);
    assert W.NamedFrom(t, ROOT, [bucket], b);
    if W.NamedFrom(t, b, q, y) {
      W.NamedCat(t, ROOT, [bucket], b, q, y);
    }
    if W.NamedFrom(t, ROOT, [bucket] + q, y) {
      var c := W.NamedCut(t, ROOT, [bucket], q, y);
      W.NamedUnique(t, ROOT, [bucket], b, c);
    }
  }

  // ---- names in gateway runs ----

  /** Requests name objects by the last segment of a key, which holds no slash. */
  ghost predicate KeyNames(rs: map<G.RequestId, G.Request>) {
    forall r | r in rs && rs[r].Put? :: SLASH !in rs[r].name
  }

  ghost predicate KeyAction(a: G.Action) {
    a.Begin? && a.req.Put? ==> SLASH !in a.req.name
  }

  /** The rows that turn ready, or change their name, have a plain name. */
  ghost predicate PlainChange(t: Table, u: Table) {
    forall x | IsReady(u, x) && x != ROOT ::
      (IsReady(t, x) && u[x].name == t[x].name && u[x].kind == t[x].kind) ||
      (SLASH !in u[x].name && (u[x].kind == Folder ==> u[x].name != ""))
  }

  lemma PlainStays(t: Table, u: Table)
    requires W.PlainNames(t) && PlainChange(t, u)
    ensures W.PlainNames(u)
  {}

  lemma FolderName(name: string)
    requires ValidName(name)
    ensures SLASH !in name && name != ""
  {
    TrimKeepsSlash(name);
  }

  lemma {:induction false} TrimLeftKeeps(s: string)
    ensures SLASH in s <==> SLASH in TrimLeft(s)
    decreases |s|
  {
    if s != "" && IsSpace(s[0]) {
      TrimLeftKeeps(s[1..]);
      assert s == [s[0]] + s[1..];
    }
  }

  lemma {:induction false} TrimRightKeeps(s: string)
    ensures SLASH in s <==> SLASH in TrimRight(s)
    decreases |s|
  {
    if s != "" && IsSpace(s[|s| - 1]) {
      TrimRightKeeps(s[..|s| - 1]);
      assert s == s[..|s| - 1] + [s[|s| - 1]];
    }
  }

  lemma TrimKeepsSlash(s: string)
    ensures SLASH in s <==> SLASH in TrimSpace(s)
  {
    TrimLeftKeeps(s);
    TrimRightKeeps(TrimLeft(s));
  }

  /** A step of request `r` keeps names plain, the name it carries, and the other requests. */
  ghost predicate PlainStep(s: G.State, r: G.RequestId, u: G.State) {
    && PlainChange(s.nodes, u.nodes)
    && (r in u.requests && u.requests[r].Put? ==>
      r in s.requests && s.requests[r].Put? && u.requests[r].name == s.requests[r].name)
    && (forall q | q != r && q in u.requests :: q in s.requests && u.requests[q] == s.requests[q])
  }

  lemma PutMakeDirPlain(s: G.State, r: G.RequestId, newId: Id)
    requires G.IsPut(s, r) && SLASH !in s.requests[r].name
    ensures PlainStep(s, r, G.PutStep(s, G.MakeDir(r, newId), r))
  {
    hide ValidName, FindChild, G.CanInsert, FindOther, G.WalkStep, G.BucketStep;
    var q := s.requests[r];
    if q.pc.Absent? && q.pc.i < |q.dirs| && ValidName(q.dirs[q.pc.i]) {
      FolderName(q.dirs[q.pc.i]);
    }
  }

  lemma StagedPlain(t: Table, id: Id, n: Node)
    requires n.status == Pending
    ensures PlainChange(t, t[id := n])
  {}

  lemma PutStagePlain(s: G.State, r: G.RequestId, newId: Id, stageName: string, channel: int)
    requires G.IsPut(s, r) && SLASH !in s.requests[r].name
    ensures PlainStep(s, r, G.PutStep(s, G.Stage(r, newId, stageName, channel), r))
  {
    hide ValidName, FindChild, G.CanInsert, FindOther, G.WalkStep, G.BucketStep, PlainChange;
    SameNodesPlain(s.nodes);
    var q := s.requests[r];
    if q.pc.Cleared? {
      StagedPlain(s.nodes, newId, Node(Some(q.pc.at), stageName, File, q.mime, 0, Pending, channel));
    }
  }

  lemma ResizedPlain(t: Table, id: Id, size: int)
    requires id in t
    ensures PlainChange(t, SetSize(t, id, size))
  {}

  lemma PutResizePlain(s: G.State, r: G.RequestId)
    requires G.IsPut(s, r) && SLASH !in s.requests[r].name
    ensures PlainStep(s, r, G.PutStep(s, G.Resize(r), r))
  {
    hide ValidName, FindChild, G.CanInsert, FindOther, G.WalkStep, G.BucketStep, PlainChange, SetSize;
    SameNodesPlain(s.nodes);
    var q := s.requests[r];
    if q.pc.Recorded? && Live(s.nodes, q.pc.id) {
      ResizedPlain(s.nodes, q.pc.id, |q.body|);
    }
  }

  lemma PublishedPlain(t: Table, id: Id, name: string)
    requires G.Replaceable(t, id, name) && SLASH !in name
    ensures PlainChange(t, Published(t, id, FindOther(t, id, name), name))
  {}

  lemma PutPublishPlain(s: G.State, r: G.RequestId)
    requires G.IsPut(s, r) && SLASH !in s.requests[r].name
    ensures PlainStep(s, r, G.PutStep(s, G.Publish(r), r))
  {
    hide ValidName, FindChild, G.CanInsert, FindOther, G.WalkStep, G.BucketStep, PlainChange, Published;
    SameNodesPlain(s.nodes);
    var q := s.requests[r];
    if q.pc.Sized? && G.Replaceable(s.nodes, q.pc.id, q.name) {
      PublishedPlain(s.nodes, q.pc.id, q.name);
    }
  }

  lemma PutDropStagedPlain(s: G.State, r: G.RequestId)
    requires G.IsPut(s, r) && SLASH !in s.requests[r].name
    ensures PlainStep(s, r, G.PutStep(s, G.DropStaged(r), r))
  {
    hide ValidName, FindChild, G.CanInsert, FindOther, G.WalkStep, G.BucketStep;
  }

  lemma SameNodesPlain(t: Table)
    ensures PlainChange(t, t)
  {}

  /** The other steps of a put change no node. */
  lemma ResolveQuiet(s: G.State, a: G.Action, r: G.RequestId)
    requires G.IsPut(s, r) && (a.FindBucket? || a.FindDir? || a.CheckName?)
    ensures PlainStep(s, r, G.PutStep(s, a, r))
  {
    hide ValidName, FindChild, G.CanInsert, FindOther, G.WalkStep, G.BucketStep, G.MessageIds, PlainChange;
    var u := G.PutStep(s, a, r);
    SameNodesPlain(s.nodes);
    match a
    case FindBucket(_) => assert u.nodes == s.nodes;
    case FindDir(_) => assert u.nodes == s.nodes;
    case CheckName(_) => assert u.nodes == s.nodes;
  }

  lemma SendQuiet(s: G.State, a: G.Action, r: G.RequestId)
    requires G.IsPut(s, r) && (a.Send? || a.Record? || a.Fail?)
    ensures PlainStep(s, r, G.PutStep(s, a, r))
  {
    hide ValidName, FindChild, G.CanInsert, FindOther, G.WalkStep, G.BucketStep, G.MessageIds, PlainChange;
    var u := G.PutStep(s, a, r);
    SameNodesPlain(s.nodes);
    match a
    case Send(_, _) => assert u.nodes == s.nodes;
    case Record(_) => assert u.nodes == s.nodes;
    case Fail(_) => assert u.nodes == s.nodes;
  }

  lemma CleanQuiet(s: G.State, a: G.Action, r: G.RequestId)
    requires G.IsPut(s, r) && (a.SaveParts? || a.DeleteMessages? || a.DeleteParts?)
    ensures PlainStep(s, r, G.PutStep(s, a, r))
  {
    hide ValidName, FindChild, G.CanInsert, FindOther, G.WalkStep, G.BucketStep, G.MessageIds, PlainChange;
    var u := G.PutStep(s, a, r);
    SameNodesPlain(s.nodes);
    match a
    case SaveParts(_) => assert u.nodes == s.nodes;
    case DeleteMessages(_) => assert u.nodes == s.nodes;
    case DeleteParts(_) => assert u.nodes == s.nodes;
  }

  lemma ForeignQuiet(s: G.State, a: G.Action, r: G.RequestId)
    requires G.IsPut(s, r) && (a.FindObject? || a.DeleteObject? || a.CheckBucket? || a.MakeBucket? || a.OpenUpload?)
    ensures PlainStep(s, r, G.PutStep(s, a, r))
  {
    hide ValidName, FindChild, G.CanInsert, FindOther, G.WalkStep, G.BucketStep, G.MessageIds, PlainChange;
    var u := G.PutStep(s, a, r);
    SameNodesPlain(s.nodes);
    match a
    case FindObject(_) => assert u == s;
    case DeleteObject(_) => assert u == s;
    case CheckBucket(_) => assert u == s;
    case MakeBucket(_, _) => assert u == s;
    case OpenUpload(_, _) => assert u == s;
  }

  lemma PutPlain(s: G.State, a: G.Action, r: G.RequestId)
    requires G.IsPut(s, r) && SLASH !in s.requests[r].name && G.RequestAction(a) && a.r == r
    ensures PlainStep(s, r, G.PutStep(s, a, r))
  {
    hide G.PutStep, PlainStep;
    match a
    case MakeDir(_, newId) => PutMakeDirPlain(s, r, newId);
    case Stage(_, newId, stageName, channel) => PutStagePlain(s, r, newId, stageName, channel);
    case Resize(_) => PutResizePlain(s, r);
    case Publish(_) => PutPublishPlain(s, r);
    case DropStaged(_) => PutDropStagedPlain(s, r);
    case _ =>
      if a.FindBucket? || a.FindDir? || a.CheckName? {
        ResolveQuiet(s, a, r);
      } else if a.Send? || a.Record? || a.Fail? {
        SendQuiet(s, a, r);
      } else if a.SaveParts? || a.DeleteMessages? || a.DeleteParts? {
        CleanQuiet(s, a, r);
      } else {
        ForeignQuiet(s, a, r);
      }
  }

  lemma DeletedPlain(t: Table, id: Id)
    requires id in t
    ensures PlainChange(t, SetStatus(t, id, Deleted))
  {}

  lemma RemoveDeletePlain(s: G.State, r: G.RequestId)
    requires G.IsRemove(s, r)
    ensures PlainStep(s, r, G.RemoveStep(s, G.DeleteObject(r), r))
  {
    hide PlainChange, SetStatus;
    SameNodesPlain(s.nodes);
    var found := s.requests[r].found;
    if found.Some? && Live(s.nodes, found.value) { DeletedPlain(s.nodes, found.value); }
  }

  lemma RemoveFindPlain(s: G.State, r: G.RequestId)
    requires G.IsRemove(s, r)
    ensures PlainStep(s, r, G.RemoveStep(s, G.FindObject(r), r))
  {
    hide FindChild, PlainChange;
    SameNodesPlain(s.nodes);
  }

  lemma RemovePlain(s: G.State, a: G.Action, r: G.RequestId)
    requires G.IsRemove(s, r) && (a.FindObject? || a.DeleteObject? ==> a.r == r)
    ensures PlainStep(s, r, G.RemoveStep(s, a, r))
  {
    hide FindChild, G.WalkStep, G.BucketStep, PlainChange, SetStatus;
    SameNodesPlain(s.nodes);
    match a
    case FindBucket(_) => assert G.RemoveStep(s, a, r).nodes == s.nodes;
    case FindDir(_) => assert G.RemoveStep(s, a, r).nodes == s.nodes;
    case FindObject(_) => RemoveFindPlain(s, r);
    case DeleteObject(_) => RemoveDeletePlain(s, r);
    case _ => assert G.RemoveStep(s, a, r) == s;
  }

  lemma BucketPlain(s: G.State, a: G.Action, r: G.RequestId)
    requires r in s.requests && s.requests[r].NewBucket?
    ensures PlainStep(s, r, G.BucketRequestStep(s, a, r))
  {
    hide ValidName, FindChild, G.CanInsert;
    if ValidName(s.requests[r].bucket) {
      FolderName(s.requests[r].bucket);
    }
    match a
    case MakeBucket(_, _) =>
    case CheckBucket(_) => assert G.BucketRequestStep(s, a, r).nodes == s.nodes;
    case _ => assert G.BucketRequestStep(s, a, r) == s;
  }

  lemma UploadPlain(s: G.State, a: G.Action, r: G.RequestId)
    requires r in s.requests && s.requests[r].NewUpload?
    ensures PlainStep(s, r, G.UploadRequestStep(s, a, r))
  {
    hide FindChild, G.BucketFolder;
    match a
    case OpenUpload(_, _) => assert G.UploadRequestStep(s, a, r).nodes == s.nodes;
    case CheckBucket(_) => assert G.UploadRequestStep(s, a, r).nodes == s.nodes;
    case _ => assert G.UploadRequestStep(s, a, r) == s;
  }

  lemma PlainStepKeeps(s: G.State, r: G.RequestId, u: G.State)
    requires W.PlainNames(s.nodes) && KeyNames(s.requests) && PlainStep(s, r, u)
    ensures W.PlainNames(u.nodes) && KeyNames(u.requests)
  {
    PlainStays(s.nodes, u.nodes);
  }

  lemma RequestPlain(s: G.State, a: G.Action, r: G.RequestId)
    requires KeyNames(s.requests) && r in s.requests && G.RequestAction(a) && a.r == r
    ensures PlainStep(s, r, G.RequestStep(s, a, r))
  {
    hide PlainStep, G.PutStep, G.RemoveStep, G.BucketRequestStep, G.UploadRequestStep;
    if s.requests[r].Put? {
      PutPlain(s, a, r);
    } else if s.requests[r].Remove? {
      RemovePlain(s, a, r);
    } else if s.requests[r].NewBucket? {
      BucketPlain(s, a, r);
    } else {
      UploadPlain(s, a, r);
    }
  }

  lemma StepPlain(s: G.State, a: G.Action)
    requires W.PlainNames(s.nodes) && KeyNames(s.requests) && KeyAction(a)
    ensures W.PlainNames(G.Step(s, a).nodes) && KeyNames(G.Step(s, a).requests)
  {
    hide G.RequestStep, G.Removable, G.TrashNext, FindChild, PlainStep;
    if G.RequestAction(a) {
      if a.r in s.requests {
        RequestPlain(s, a, a.r);
        PlainStepKeeps(s, a.r, G.Step(s, a));
      }
    } else {
      GlobalPlain(s, a);
    }
  }

  lemma GlobalPlain(s: G.State, a: G.Action)
    requires W.PlainNames(s.nodes) && KeyNames(s.requests) && KeyAction(a) && !G.RequestAction(a)
    ensures W.PlainNames(G.Step(s, a).nodes) && KeyNames(G.Step(s, a).requests)
  {
    hide G.RequestStep, G.Removable, G.TrashNext, FindChild;
  }

  /** In every run of the gateway whose requests carry keys, the names are plain: the
      premise of the lookups and listings. */
  lemma {:induction false} EveryRunPlain(s: G.State, actions: seq<G.Action>)
    requires G.Initial(s) && forall a | a in actions :: KeyAction(a)
    ensures W.PlainNames(G.Run(s, actions).nodes) && KeyNames(G.Run(s, actions).requests)
    decreases |actions|
  {
    hide G.Step;
    if actions != [] {
      var before, a := actions[..|actions| - 1], actions[|actions| - 1];
      assert forall x | x in before :: x in actions;
      EveryRunPlain(s, before);
      StepPlain(G.Run(s, before), a);
    }
  }
}
