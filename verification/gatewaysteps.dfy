/** Each gateway step keeps the invariant and refines one step of the flat map. */
module GatewaySteps {
  import opened Wrappers
  import opened Bytes
  import opened Nodes
  import opened TreeOps
  import opened SearchIndex
  import opened Stores
  import opened Text
  import opened Gateway
  import opened GatewayProofs

  // ---- what a request's step may touch ----

  /** Folders stay, files keep their place unless deleted, no file is unpublished or
      renamed once published, and parts and messages of rows other than `c` stay. */
  ghost predicate Touch(s: State, s': State, c: Id) {
    var t, u := s.nodes, s'.nodes;
    && FoldersStay(t, u)
    && (forall x | x in t && t[x].kind == File ::
          FileStays(t, u, x) && (x != c ==> u[x] == t[x] || u[x] == t[x].(status := Deleted)))
    && (forall x | x != c && IsReady(u, x) && u[x].kind == File :: IsReady(t, x) && t[x].kind == File)
    && (forall x | x != c :: PartsOf(s'.parts, x) == PartsOf(s.parts, x))
    && (forall m | m in s.blobs && s.blobs[m].file != c :: m in s'.blobs && s'.blobs[m] == s.blobs[m])
  }

  ghost predicate FileStays(t: Table, u: Table, x: Id)
    requires x in t
  {
    && x in u && u[x].kind == File && u[x].parent == t[x].parent
    && (t[x].status != Pending ==> u[x].status != Pending && u[x].name == t[x].name)
  }

  lemma {:induction false} ContentStays(b: Blobs, b': Blobs, ps: seq<FilePart>)
    requires forall p | p in ps :: p.messageId in b && p.messageId in b' && b'[p.messageId] == b[p.messageId]
    ensures Content(b', ps) == Content(b, ps)
    decreases |ps|
  {
    if ps != [] {
      ContentStays(b, b', ps[..|ps| - 1]);
    }
  }

  lemma MessagesStay(s: State, s': State, c: Id, ps: seq<FilePart>, id: Id)
    requires Touch(s, s', c) && id != c && OwnMessages(s.blobs, ps, id)
    ensures OwnMessages(s'.blobs, ps, id) && Content(s'.blobs, ps) == Content(s.blobs, ps)
  {
    hide FoldersStay;
    forall p | p in ps ensures p.messageId in s'.blobs && s'.blobs[p.messageId] == s.blobs[p.messageId] {
      assert p.messageId in s.blobs && s.blobs[p.messageId].file == id;
    }
    ContentStays(s.blobs, s'.blobs, ps);
  }

  lemma AtFolderStays(t: Table, u: Table, bucket: string, dirs: seq<string>, at: Id)
    requires Tree(t) && Anchored(t) && FoldersStay(t, u) && AtFolder(t, bucket, dirs, at)
    ensures AtFolder(u, bucket, dirs, at)
  {
    NamedStays(t, u, Path(bucket, dirs), at);
  }

  lemma BucketStays(t: Table, u: Table, bucket: string)
    requires UniqueNames(u) && FoldersStay(t, u) && BucketFolder(t, bucket)
    ensures BucketFolder(u, bucket)
  {
    var f := FindChild(t, ROOT, bucket).value;
    assert LiveFolder(t, f);
    FindChildIs(u, ROOT, bucket, f);
  }

  lemma StagedStays(s: State, s': State, c: Id, id: Id, at: Id, mime: string)
    requires Touch(s, s', c) && id != c && StagedRow(s.nodes, id, at, mime)
    ensures StagedRow(s'.nodes, id, at, mime)
    ensures s'.nodes[id].status == Pending ==> s'.nodes[id] == s.nodes[id]
  {
    hide FoldersStay;
  }

  /** A request that does not own `c` does not notice. */
  lemma RequestStays(s: State, s': State, c: Id, q: Request)
    requires TreeInv(s.nodes) && TreeInv(s'.nodes) && Touch(s, s', c)
    requires RequestInv(s, q) && Staged(q) != Some(c)
    ensures RequestInv(s', q)
  {
    hide AtFolder, Shape, UniqueNames, FoldersAnchored, Anchored, StagedRow, OwnMessages, FoldersStay, BucketFolder,
      Content;
    var t, u := s.nodes, s'.nodes;
    forall dirs, at | AtFolder(t, q.bucket, dirs, at) ensures AtFolder(u, q.bucket, dirs, at) {
      AtFolderStays(t, u, q.bucket, dirs, at);
    }
    match q {
      case Put(_, _, _, _, _, pc) =>
        if Staged(q).Some? {
          StagedStays(s, s', c, Staged(q).value, pc.at, q.mime);
          if !pc.Wiped? && !pc.Bare? {
            MessagesStay(s, s', c, pc.sent, pc.id);
          }
        }
      case Remove(_, _, _, _, _, _) =>
      case NewBucket(_, _) =>
      case NewUpload(bucket, _, checked) =>
        if checked { BucketStays(t, u, bucket); }
    }
  }

  /** One request moves, owning at most `c` afterwards; everything else is kept. */
  lemma StepKeeps(s: State, s': State, r: RequestId, c: Id)
    requires Inv(s) && r in s.requests && TreeInv(s'.nodes) && BlobsInv(s') && Touch(s, s', c)
    requires s'.uploads == s.uploads && s'.deleting == s.deleting
    requires s'.requests - {r} == s.requests - {r}
    requires r in s'.requests ==>
      RequestInv(s', s'.requests[r]) && (Staged(s'.requests[r]) == None || Staged(s'.requests[r]) == Some(c))
    requires forall r2 | r2 in s.requests && r2 != r :: Staged(s.requests[r2]) != Some(c)
    requires IsReady(s'.nodes, c) && s'.nodes[c].kind == File ==> OwnMessages(s'.blobs, PartsOf(s'.parts, c), c)
    ensures Inv(s')
  {
    hide TreeInv, Touch, RequestInv, BucketFolder, Intact, UploadsInv;
    forall r2 | r2 in s'.requests ensures RequestInv(s', s'.requests[r2]) {
      if r2 != r {
        OtherRequest(s.requests, s'.requests, r, r2);
        assert RequestInv(s, s.requests[r2]);
        RequestStays(s, s', c, s.requests[r2]);
      }
    }
    forall r2 | r2 in s'.requests && r2 != r ensures r2 in s.requests && s.requests[r2] == s'.requests[r2] {
      OtherRequest(s.requests, s'.requests, r, r2);
    }
    IntactStays(s, s', c);
    UploadsStay(s, s', c);
    NotDeleting(s, r);
  }

  lemma NotDeleting(s: State, r: RequestId)
    requires DeletingInv(s) && r in s.requests
    ensures s.deleting == None
  {}

  lemma OtherRequest(a: map<RequestId, Request>, b: map<RequestId, Request>, r: RequestId, r2: RequestId)
    requires b - {r} == a - {r} && r2 != r && r2 in b
    ensures r2 in a && a[r2] == b[r2]
  {
    assert r2 in b - {r} && (b - {r})[r2] == b[r2];
    assert r2 in a - {r} && (a - {r})[r2] == a[r2];
  }

  lemma IntactStays(s: State, s': State, c: Id)
    requires Intact(s) && Touch(s, s', c)
    requires IsReady(s'.nodes, c) && s'.nodes[c].kind == File ==> OwnMessages(s'.blobs, PartsOf(s'.parts, c), c)
    ensures Intact(s')
  {
    hide OwnMessages, FoldersStay;
    forall x | IsReady(s'.nodes, x) && s'.nodes[x].kind == File ensures OwnMessages(s'.blobs, PartsOf(s'.parts, x), x) {
      if x != c {
        MessagesStay(s, s', c, PartsOf(s.parts, x), x);
      }
    }
  }

  lemma UploadsStay(s: State, s': State, c: Id)
    requires UploadsInv(s) && Touch(s, s', c) && TreeInv(s'.nodes) && s'.uploads == s.uploads
    ensures UploadsInv(s')
  {
    hide BucketFolder, FoldersStay;
    forall k | k in s'.uploads ensures BucketFolder(s'.nodes, s'.uploads[k].bucket) {
      BucketStays(s.nodes, s'.nodes, s.uploads[k].bucket);
    }
  }

  // ---- steps that change only requests ----

  ghost predicate SameData(s: State, s': State) {
    s'.nodes == s.nodes && s'.parts == s.parts && s'.blobs == s.blobs && s'.nextMessage == s.nextMessage
  }

  lemma SameDataView(s: State, s': State)
    requires SameData(s, s')
    ensures View(s') == View(s)
  {
    forall p: Address ensures p in View(s') ==> View(s')[p] == View(s)[p] {}
  }

  lemma SameDataTouch(s: State, s': State, c: Id)
    requires SameData(s, s')
    ensures Touch(s, s', c)
  {}

  /** A request's program counter moves, or the request returns. */
  lemma MovePc(s: State, s': State, r: RequestId)
    requires Inv(s) && r in s.requests && SameData(s, s')
    requires s'.uploads == s.uploads && s'.deleting == s.deleting && s'.requests - {r} == s.requests - {r}
    requires r in s'.requests ==>
      RequestInv(s, s'.requests[r]) &&
      (Staged(s'.requests[r]) == None || Staged(s'.requests[r]) == Staged(s.requests[r]))
    ensures Inv(s') && View(s') == View(s)
  {
    hide Tree, Anchored, Touch, RequestInv, Intact, UploadsInv;
    var c := if Staged(s.requests[r]).Some? then Staged(s.requests[r]).value else "";
    SameDataTouch(s, s', c);
    SameDataView(s, s');
    if r in s'.requests {
      RequestSameData(s, s', s'.requests[r]);
    }
    NotOwned(s, r, c);
    SameIntact(s, s', c);
    StepKeeps(s, s', r, c);
  }

  lemma RequestSameData(s: State, s': State, q: Request)
    requires SameData(s, s')
    ensures RequestInv(s, q) <==> RequestInv(s', q)
  {}

  lemma SameIntact(s: State, s': State, c: Id)
    requires SameData(s, s') && Intact(s)
    ensures IsReady(s'.nodes, c) && s'.nodes[c].kind == File ==> OwnMessages(s'.blobs, PartsOf(s'.parts, c), c)
  {}

  /** Nobody else owns what `r` owns, and nobody owns a row that is not there. */
  lemma NotOwned(s: State, r: RequestId, c: Id)
    requires Inv(s) && r in s.requests
    requires Staged(s.requests[r]) == Some(c) || c !in s.nodes
    ensures forall r2 | r2 in s.requests && r2 != r :: Staged(s.requests[r2]) != Some(c)
  {
    hide TreeInv, Intact, UploadsInv, AtFolder, OwnMessages, Content;
    forall r2 | r2 in s.requests && r2 != r ensures Staged(s.requests[r2]) != Some(c) {
      assert RequestInv(s, s.requests[r2]);
    }
  }

  // ---- new rows ----

  lemma InsertTouch(s: State, s': State, id: Id, n: Node)
    requires id !in s.nodes && s'.nodes == s.nodes[id := n]
    requires s'.parts == s.parts && s'.blobs == s.blobs
    ensures Touch(s, s', id)
  {}

  lemma CanInsertFree(t: Table, id: Id, parent: Id, name: string)
    requires CanInsert(t, id, parent, name)
    ensures id !in t && forall c :: !IsChild(t, parent, name, c)
  {
    forall c ensures !IsChild(t, parent, name, c) {
      if c in t {}
    }
  }

  lemma InsertTree(t: Table, id: Id, n: Node)
    requires TreeInv(t) && n.parent.Some? && LiveFolder(t, n.parent.value) && CanInsert(t, id, n.parent.value, n.name)
    requires n.kind == Folder ==> n.status == Ready
    ensures TreeInv(t[id := n])
  {
    CanInsertFree(t, id, n.parent.value, n.name);
    InsertKeepsTree(t, id, n);
  }

  /** A new row that is not a ready file changes no object. */
  lemma InsertView(s: State, s': State, id: Id, n: Node)
    requires TreeInv(s.nodes) && TreeInv(s'.nodes) && id !in s.nodes && s'.nodes == s.nodes[id := n]
    requires s'.parts == s.parts && s'.blobs == s.blobs
    requires n.kind == Folder || n.status != Ready
    ensures View(s') == View(s)
  {
    var t, u := s.nodes, s'.nodes;
    RootIsFolder(t);
    forall x | IsReady(t, x) && t[x].parent.Some? ensures t[x].parent.value != id {
      ReadyParent(t, x);
    }
    assert SameOutside(t, u, {id});
    NotHeld(t, u, id);
    ViewSame(s, s', {id});
  }

  lemma NotHeld(t: Table, u: Table, id: Id)
    requires !(IsReady(t, id) && t[id].kind == File) && !(IsReady(u, id) && u[id].kind == File)
    ensures forall p: Address, y | y in {id} :: !Holds(t, p, y) && !Holds(u, p, y)
  {}

  /** The folder inserted under a resolved one is the next folder of the path. */
  lemma NewFolderNamed(t: Table, u: Table, bucket: string, dirs: seq<string>, at: Id, id: Id, name: string)
    requires TreeInv(t) && AtFolder(t, bucket, dirs, at) && id !in t && u == t[id := FolderRow(at, name)]
    ensures AtFolder(u, bucket, dirs + [name], id)
  {
    AtFolderStays(t, u, bucket, dirs, at);
    var p := Path(bucket, dirs + [name]);
    assert p[..|p| - 1] == Path(bucket, dirs);
  }

  /** A live child folder of a resolved folder is the next folder of the path. */
  lemma ChildNamed(t: Table, bucket: string, dirs: seq<string>, at: Id, name: string, c: Id)
    requires TreeInv(t) && AtFolder(t, bucket, dirs, at) && IsChild(t, at, name, c) && t[c].kind == Folder
    ensures AtFolder(t, bucket, dirs + [name], c)
  {
    NoPendingFolder(t, c);
    var p := Path(bucket, dirs + [name]);
    assert p[..|p| - 1] == Path(bucket, dirs);
  }

  lemma BucketNamed(t: Table, bucket: string)
    requires TreeInv(t) && BucketFolder(t, bucket)
    ensures AtFolder(t, bucket, [], FindChild(t, ROOT, bucket).value)
  {
    var b := FindChild(t, ROOT, bucket).value;
    NoPendingFolder(t, b);
    assert Path(bucket, [])[..0] == [];
  }

  lemma WalkKeeps(t: Table, bucket: string, dirs: seq<string>, pc: PutPc, create: bool)
    requires TreeInv(t) && pc.Walking? && pc.i < |dirs| && AtFolder(t, bucket, dirs[..pc.i], pc.at)
    ensures var n := WalkStep(t, dirs, pc, create);
      && (n.Some? && n.value.Walking? ==> n.value.i <= |dirs| && AtFolder(t, bucket, dirs[..n.value.i], n.value.at))
      && (n.Some? && n.value.Absent? ==> n.value.i < |dirs| && AtFolder(t, bucket, dirs[..n.value.i], n.value.at))
      && (n.Some? ==> n.value.Walking? || n.value.Absent?) && (!create && n.Some? ==> n.value.Walking?)
  {
    hide TreeInv;
    var c := FindChild(t, pc.at, dirs[pc.i]);
    if c.Some? && t[c.value].kind == Folder {
      ChildNamed(t, bucket, dirs[..pc.i], pc.at, dirs[pc.i], c.value);
      assert dirs[..pc.i] + [dirs[pc.i]] == dirs[..pc.i + 1];
    }
  }

  lemma MakeDirKeeps(s: State, r: RequestId, newId: Id)
    requires Inv(s) && IsPut(s, r)
    ensures Inv(PutStep(s, MakeDir(r, newId), r)) && View(PutStep(s, MakeDir(r, newId), r)) == View(s)
  {
    hide TreeInv, Touch, RequestInv, Intact, UploadsInv, CanInsert, AtFolder, View;
    var q := s.requests[r];
    if q.pc.Absent? && q.pc.i < |q.dirs| && ValidName(q.dirs[q.pc.i]) &&
      CanInsert(s.nodes, newId, q.pc.at, q.dirs[q.pc.i]) {
      DirMade(s, r, newId);
    } else {
      MovePc(s, PutStep(s, MakeDir(r, newId), r), r);
    }
  }

  lemma DirMade(s: State, r: RequestId, newId: Id)
    requires Inv(s) && IsPut(s, r) && s.requests[r].pc.Absent? && s.requests[r].pc.i < |s.requests[r].dirs|
    requires var q := s.requests[r]; CanInsert(s.nodes, newId, q.pc.at, q.dirs[q.pc.i])
    ensures var q := s.requests[r]; var n := FolderRow(q.pc.at, q.dirs[q.pc.i]);
      var s' := PutAt(s.(nodes := s.nodes[newId := n]), r, Some(Walking(newId, q.pc.i + 1)));
      Inv(s') && View(s') == View(s)
  {
    hide TreeInv, Touch, RequestInv, Intact, UploadsInv, CanInsert, AtFolder, View;
    var q := s.requests[r];
    var n := FolderRow(q.pc.at, q.dirs[q.pc.i]);
    var s' := PutAt(s.(nodes := s.nodes[newId := n]), r, Some(Walking(newId, q.pc.i + 1)));
    AbsentAt(s, r);
    InsertFolder(s, s', newId, q.pc.at, q.dirs[q.pc.i]);
    NewFolderNamed(s.nodes, s'.nodes, q.bucket, q.dirs[..q.pc.i], q.pc.at, newId, q.dirs[q.pc.i]);
    assert q.dirs[..q.pc.i] + [q.dirs[q.pc.i]] == q.dirs[..q.pc.i + 1];
    WalkingInv(s', s'.requests[r]);
    NotOwned(s, r, newId);
    StepKeeps(s, s', r, newId);
  }

  lemma AbsentAt(s: State, r: RequestId)
    requires Inv(s) && IsPut(s, r) && s.requests[r].pc.Absent?
    ensures var q := s.requests[r];
      q.pc.i < |q.dirs| && AtFolder(s.nodes, q.bucket, q.dirs[..q.pc.i], q.pc.at) && LiveFolder(s.nodes, q.pc.at)
  {
    hide TreeInv, Intact, UploadsInv;
    assert RequestInv(s, s.requests[r]);
  }

  lemma WalkingInv(s: State, q: Request)
    requires q.Put? && q.pc.Walking? && q.pc.i <= |q.dirs| && AtFolder(s.nodes, q.bucket, q.dirs[..q.pc.i], q.pc.at)
    ensures RequestInv(s, q)
  {}

  lemma InsertFolder(s: State, s': State, id: Id, at: Id, name: string)
    requires TreeInv(s.nodes) && LiveFolder(s.nodes, at) && CanInsert(s.nodes, id, at, name)
    requires s'.nodes == s.nodes[id := FolderRow(at, name)] && s'.parts == s.parts && s'.blobs == s.blobs
    ensures TreeInv(s'.nodes) && Touch(s, s', id) && View(s') == View(s) && id !in s.nodes
    ensures IsReady(s'.nodes, id) && s'.nodes[id].kind == File ==> OwnMessages(s'.blobs, PartsOf(s'.parts, id), id)
  {
    hide TreeInv, Touch;
    InsertTree(s.nodes, id, FolderRow(at, name));
    InsertTouch(s, s', id, FolderRow(at, name));
    InsertView(s, s', id, FolderRow(at, name));
  }

  lemma MakeBucketKeeps(s: State, r: RequestId, newId: Id)
    requires Inv(s) && r in s.requests && s.requests[r].NewBucket?
    ensures var s' := BucketRequestStep(s, MakeBucket(r, newId), r); Inv(s') && View(s') == View(s)
  {
    hide TreeInv, Touch, RequestInv, Intact, UploadsInv, CanInsert;
    var q := s.requests[r];
    var s' := BucketRequestStep(s, MakeBucket(r, newId), r);
    if q.free && ValidName(q.bucket) && CanInsert(s.nodes, newId, ROOT, q.bucket) {
      RootLive(s.nodes);
      InsertFolder(s, s', newId, ROOT, q.bucket);
      NotOwned(s, r, newId);
      StepKeeps(s, s', r, newId);
    } else {
      MovePc(s, s', r);
    }
  }

  lemma RootLive(t: Table)
    requires TreeInv(t)
    ensures LiveFolder(t, ROOT)
  {}

  lemma StageKeeps(s: State, r: RequestId, newId: Id, stageName: string, channel: int)
    requires Inv(s) && IsPut(s, r)
    ensures var s' := PutStep(s, Stage(r, newId, stageName, channel), r); Inv(s') && View(s') == View(s)
  {
    hide TreeInv, Touch, RequestInv, Intact, UploadsInv, CanInsert, AtFolder;
    var q := s.requests[r];
    var s' := PutStep(s, Stage(r, newId, stageName, channel), r);
    if q.pc.Cleared? && CanInsert(s.nodes, newId, q.pc.at, stageName) {
      var n := Node(Some(q.pc.at), stageName, File, q.mime, 0, Pending, channel);
      ClearedAt(s, r);
      CanInsertFree(s.nodes, newId, q.pc.at, stageName);
      InsertTree(s.nodes, newId, n);
      InsertTouch(s, s', newId, n);
      InsertView(s, s', newId, n);
      StagedInv(s, s', r, newId, n);
      NotOwned(s, r, newId);
      StepKeeps(s, s', r, newId);
    } else {
      MovePc(s, s', r);
    }
  }

  lemma ClearedAt(s: State, r: RequestId)
    requires Inv(s) && IsPut(s, r) && s.requests[r].pc.Cleared?
    ensures var q := s.requests[r]; AtFolder(s.nodes, q.bucket, q.dirs, q.pc.at) && LiveFolder(s.nodes, q.pc.at)
  {
    hide TreeInv, Intact, UploadsInv;
    assert RequestInv(s, s.requests[r]);
  }

  lemma StagedInv(s: State, s': State, r: RequestId, id: Id, n: Node)
    requires TreeInv(s.nodes) && id !in s.nodes && s'.nodes == s.nodes[id := n] && s'.parts == s.parts && IsPut(s', r)
    requires n.kind == File && n.status == Pending && n.size == 0
    requires var q := s'.requests[r];
      && q.pc != Start && (q.pc == Sending(q.pc.at, id, [], q.body) ||
        (q.pc == Sized(q.pc.at, id, []) && q.body == [] && PartsOf(s.parts, id) == []))
      && n.parent == Some(q.pc.at) && n.mime == q.mime && AtFolder(s.nodes, q.bucket, q.dirs, q.pc.at)
    ensures RequestInv(s', s'.requests[r])
  {
    var q := s'.requests[r];
    AtFolderStays(s.nodes, s'.nodes, q.bucket, q.dirs, q.pc.at);
    assert Content(s'.blobs, []) + q.body == q.body;
  }

  // ---- steps of the stream ----

  /** The ready rows and everything published are as before. */
  lemma QuietView(s: State, s': State, c: Id)
    requires TreeInv(s.nodes) && TreeInv(s'.nodes) && Touch(s, s', c) && Intact(s) && !IsReady(s.nodes, c)
    requires forall x :: IsReady(s.nodes, x) <==> IsReady(s'.nodes, x)
    requires forall x | IsReady(s.nodes, x) :: s'.nodes[x] == s.nodes[x]
    ensures View(s') == View(s)
  {
    hide OwnMessages, FoldersStay, Content, Named;
    forall y | IsReady(s.nodes, y) && s.nodes[y].kind == File ensures ObjectOf(s', y) == ObjectOf(s, y) {
      MessagesStay(s, s', c, PartsOf(s.parts, y), y);
    }
    ViewSame(s, s', {});
  }

  /** The facts about a request that owns a staged row. */
  lemma OwnerFacts(s: State, r: RequestId)
    requires Inv(s) && IsPut(s, r) && Staged(s.requests[r]).Some?
    ensures PutInv(s, s.requests[r]) && StagedRow(s.nodes, s.requests[r].pc.id, s.requests[r].pc.at, s.requests[r].mime)
    ensures !IsReady(s.nodes, s.requests[r].pc.id)
  {
    hide TreeInv, Intact, UploadsInv, AtFolder, OwnMessages, Content;
    assert RequestInv(s, s.requests[r]);
  }

  lemma SendKeeps(s: State, r: RequestId, n: nat)
    requires Inv(s) && IsPut(s, r)
    ensures var s' := PutStep(s, Send(r, n), r); Inv(s') && View(s') == View(s)
  {
    hide TreeInv, Touch, Intact, UploadsInv, AtFolder, Content, OwnMessages;
    var q := s.requests[r];
    var s' := PutStep(s, Send(r, n), r);
    if q.pc.Sending? && 0 < n <= |q.pc.rest| {
      OwnerFacts(s, r);
      var id := q.pc.id;
      SendTouch(s, s', id, q.pc.rest[..n]);
      QuietView(s, s', id);
      SentInv(s, s', q, n);
      NotOwned(s, r, id);
      StepKeeps(s, s', r, id);
    } else {
      assert s' == s;
    }
  }

  lemma SendTouch(s: State, s': State, id: Id, chunk: ByteString)
    requires BlobsInv(s) && s'.nodes == s.nodes && s'.parts == s.parts
    requires s'.blobs == s.blobs[s.nextMessage := Message(id, chunk)] && s'.nextMessage == s.nextMessage + 1
    ensures Touch(s, s', id) && BlobsInv(s')
  {}

  /** The stream invariant: what was sent, the new message, and the rest are the body. */
  lemma SentCarries(s: State, s': State, id: Id, sent: seq<FilePart>, rest: ByteString, body: ByteString, n: nat)
    requires BlobsInv(s) && Carries(s, id, sent, rest, body) && n <= |rest|
    requires s'.blobs == s.blobs[s.nextMessage := Message(id, rest[..n])]
    ensures Carries(s', id, sent + [FilePart("", |sent|, s.nextMessage, n, 0)], rest[n..], body)
  {
    var p := FilePart("", |sent|, s.nextMessage, n, 0);
    var more := sent + [p];
    assert more[..|more| - 1] == sent;
    ContentStays(s.blobs, s'.blobs, sent);
    assert Content(s'.blobs, more) == Content(s.blobs, sent) + rest[..n];
    assert rest[..n] + rest[n..] == rest;
    assert Content(s'.blobs, more) + rest[n..] == Content(s.blobs, sent) + (rest[..n] + rest[n..]);
  }

  lemma SentInv(s: State, s': State, q: Request, n: nat)
    requires BlobsInv(s) && q.Put? && q.pc.Sending? && PutInv(s, q) && 0 < n <= |q.pc.rest|
    requires s'.nodes == s.nodes && s'.blobs == s.blobs[s.nextMessage := Message(q.pc.id, q.pc.rest[..n])]
    ensures var more := q.pc.sent + [FilePart("", |q.pc.sent|, s.nextMessage, n, 0)];
      PutInv(s', q.(pc := Sending(q.pc.at, q.pc.id, more, q.pc.rest[n..])))
  {
    hide AtFolder, StagedRow, Carries;
    SentCarries(s, s', q.pc.id, q.pc.sent, q.pc.rest, q.body, n);
  }

  /** Part rows of a staged file are written or dropped. */
  lemma PartsStep(s: State, s': State, r: RequestId)
    requires Inv(s) && IsPut(s, r) && Staged(s.requests[r]).Some?
    requires var id := s.requests[r].pc.id;
      s'.parts == s.parts - {id} || (id in s'.parts && s'.parts == s.parts[id := s'.parts[id]])
    requires s'.nodes == s.nodes && s'.blobs == s.blobs && s'.nextMessage == s.nextMessage
    requires s'.uploads == s.uploads && s'.deleting == s.deleting && s'.requests - {r} == s.requests - {r}
    requires IsPut(s', r) && PutInv(s', s'.requests[r]) && Staged(s'.requests[r]) == Staged(s.requests[r])
    ensures Inv(s') && View(s') == View(s)
  {
    hide TreeInv, Touch, Intact, UploadsInv, AtFolder, Content, OwnMessages, PutInv;
    var id := s.requests[r].pc.id;
    OwnerFacts(s, r);
    PartsTouch(s, s', id);
    QuietView(s, s', id);
    NotOwned(s, r, id);
    StepKeeps(s, s', r, id);
  }

  lemma PartsTouch(s: State, s': State, id: Id)
    requires s'.nodes == s.nodes && s'.blobs == s.blobs && id in s.nodes && BlobsInv(s) &&
      s'.nextMessage == s.nextMessage
    requires s'.parts == s.parts - {id} || (id in s'.parts && s'.parts == s.parts[id := s'.parts[id]])
    ensures Touch(s, s', id) && BlobsInv(s')
  {}

  lemma RecordKeeps(s: State, r: RequestId)
    requires Inv(s) && IsPut(s, r)
    ensures var s' := PutStep(s, Record(r), r); Inv(s') && View(s') == View(s)
  {
    hide TreeInv, Intact, UploadsInv, AtFolder, Content, OwnMessages, BlobsInv;
    var q := s.requests[r];
    var s' := PutStep(s, Record(r), r);
    if q.pc.Sending? && q.pc.rest == [] && q.pc.id in s.nodes {
      OwnerFacts(s, r);
      PartsStep(s, s', r);
    } else {
      assert s' == s;
    }
  }

  lemma SavePartsKeeps(s: State, r: RequestId)
    requires Inv(s) && IsPut(s, r)
    ensures var s' := PutStep(s, SaveParts(r), r); Inv(s') && View(s') == View(s)
  {
    hide TreeInv, Intact, UploadsInv, AtFolder, Content, OwnMessages, BlobsInv;
    var q := s.requests[r];
    var s' := PutStep(s, SaveParts(r), r);
    if q.pc.Cleaning? && q.pc.id in s.nodes {
      OwnerFacts(s, r);
      PartsStep(s, s', r);
    } else {
      assert s' == s;
    }
  }

  lemma DeletePartsKeeps(s: State, r: RequestId)
    requires Inv(s) && IsPut(s, r)
    ensures var s' := PutStep(s, DeleteParts(r), r); Inv(s') && View(s') == View(s)
  {
    hide TreeInv, Intact, UploadsInv, AtFolder, Content, OwnMessages, BlobsInv;
    var q := s.requests[r];
    var s' := PutStep(s, DeleteParts(r), r);
    if q.pc.Wiped? {
      OwnerFacts(s, r);
      PartsStep(s, s', r);
    } else {
      assert s' == s;
    }
  }

  lemma DeleteMessagesKeeps(s: State, r: RequestId)
    requires Inv(s) && IsPut(s, r)
    ensures var s' := PutStep(s, DeleteMessages(r), r); Inv(s') && View(s') == View(s)
  {
    hide TreeInv, Touch, Intact, UploadsInv, AtFolder, Content;
    var q := s.requests[r];
    var s' := PutStep(s, DeleteMessages(r), r);
    if q.pc.Cleaning? {
      OwnerFacts(s, r);
      var id := q.pc.id;
      WipeTouch(s, s', id, q.pc.sent);
      QuietView(s, s', id);
      NotOwned(s, r, id);
      StepKeeps(s, s', r, id);
    } else {
      assert s' == s;
    }
  }

  lemma WipeTouch(s: State, s': State, id: Id, sent: seq<FilePart>)
    requires BlobsInv(s) && s'.nodes == s.nodes && s'.parts == s.parts && s'.nextMessage == s.nextMessage
    requires s'.blobs == s.blobs - MessageIds(sent) && OwnMessages(s.blobs, sent, id)
    ensures Touch(s, s', id) && BlobsInv(s')
  {
    forall m | m in MessageIds(sent) ensures m in s.blobs && s.blobs[m].file == id {
      var p :| p in sent && p.messageId == m;
    }
  }

  lemma ResizeKeeps(s: State, r: RequestId)
    requires Inv(s) && IsPut(s, r)
    ensures var s' := PutStep(s, Resize(r), r); Inv(s') && View(s') == View(s)
  {
    hide TreeInv, Touch, Intact, UploadsInv, AtFolder, Content, OwnMessages, BlobsInv, View;
    var q := s.requests[r];
    if q.pc.Recorded? {
      OwnerFacts(s, r);
      if Live(s.nodes, q.pc.id) {
        Resized(s, r);
      } else {
        MovePc(s, PutStep(s, Resize(r), r), r);
      }
    } else {
      assert PutStep(s, Resize(r), r) == s;
    }
  }

  lemma Resized(s: State, r: RequestId)
    requires Inv(s) && IsPut(s, r) && s.requests[r].pc.Recorded? && s.requests[r].pc.id in s.nodes
    ensures var q := s.requests[r];
      var s' := PutAt(s.(nodes := SetSize(s.nodes, q.pc.id, |q.body|)), r, Some(Sized(q.pc.at, q.pc.id, q.pc.sent)));
      Inv(s') && View(s') == View(s)
  {
    hide TreeInv, Touch, Intact, UploadsInv, AtFolder, Content, OwnMessages, BlobsInv, View, PutInv;
    var q := s.requests[r];
    var id := q.pc.id;
    var s' := PutAt(s.(nodes := SetSize(s.nodes, id, |q.body|)), r, Some(Sized(q.pc.at, id, q.pc.sent)));
    OwnerFacts(s, r);
    ResizeTouch(s, s', id, |q.body|);
    QuietView(s, s', id);
    ResizedInv(s, s', q);
    NotOwned(s, r, id);
    StepKeeps(s, s', r, id);
  }

  lemma ResizeTouch(s: State, s': State, id: Id, size: int)
    requires TreeInv(s.nodes) && id in s.nodes && id != ROOT && s.nodes[id].kind == File && BlobsInv(s)
    requires s'.nodes == SetSize(s.nodes, id, size) && s'.parts == s.parts && s'.blobs == s.blobs &&
      s'.nextMessage == s.nextMessage
    ensures Touch(s, s', id) && TreeInv(s'.nodes) && BlobsInv(s')
  {
    hide Tree, Anchored;
    SizeKeepsTree(s.nodes, id, size);
  }

  lemma ResizedInv(s: State, s': State, q: Request)
    requires TreeInv(s.nodes) && q.Put? && q.pc.Recorded? && PutInv(s, q)
    requires s'.nodes == SetSize(s.nodes, q.pc.id, |q.body|) && s'.parts == s.parts && s'.blobs == s.blobs
    ensures PutInv(s', q.(pc := Sized(q.pc.at, q.pc.id, q.pc.sent)))
  {
    hide AtFolder;
    AtFolderStays(s.nodes, s'.nodes, q.bucket, q.dirs, q.pc.at);
  }

  // ---- publishing and deleting ----

  /** The rows `Replace` touches. */
  ghost function Swapped(t: Table, id: Id, name: string): set<Id> {
    var previous := FindOther(t, id, name);
    if previous.Some? then {id, previous.value} else {id}
  }

  lemma PublishRows(t: Table, id: Id, name: string)
    requires Replaceable(t, id, name)
    ensures var d := Swapped(t, id, name); var u := Published(t, id, FindOther(t, id, name), name);
      && u.Keys == t.Keys && FoldersStay(t, u)
      && (forall x | x in t && x !in d :: u[x] == t[x])
      && (forall x | x in d ::
            && x in t && t[x].kind == File && u[x].kind == File
            && t[x].parent == t[id].parent && u[x].parent == t[id].parent
            && (x != id ==> t[x].name == name && u[x] == t[x].(status := Deleted)))
      && u[id] == t[id].(name := name, status := Ready) && t[id].status == Pending && id in d
  {}

  lemma PublishTree(t: Table, id: Id, name: string)
    requires TreeInv(t) && Replaceable(t, id, name) && t[id].parent.Some? && LiveFolder(t, t[id].parent.value)
    ensures TreeInv(Published(t, id, FindOther(t, id, name), name))
  {
    hide Shape, UniqueNames, FoldersAnchored, Anchored, StagedAnchored;
    PublishKeepsTree(t, id, FindOther(t, id, name), name);
  }

  /** Nothing else moves: files are nobody's parents. */
  lemma FilesOutside(t: Table, u: Table, d: set<Id>)
    requires TreeInv(t) && u.Keys == t.Keys && forall x | x in t && x !in d :: u[x] == t[x]
    requires forall x | x in d :: x in t && t[x].kind == File
    ensures SameOutside(t, u, d)
  {
    RootIsFolder(t);
    forall x | x !in d && IsReady(t, x) && t[x].parent.Some? ensures t[x].parent.value !in d {
      ReadyParent(t, x);
      RootIsFolder(t);
      if x == ROOT {} else { RowParent(t, x); }
    }
  }

  /** `Replace` puts exactly the staged object at its address. */
  lemma PublishView(s: State, s': State, id: Id, at: Id, bucket: string, dirs: seq<string>, name: string)
    requires TreeInv(s.nodes) && Replaceable(s.nodes, id, name) && s.nodes[id].parent == Some(at) &&
      AtFolder(s.nodes, bucket, dirs, at)
    requires s'.nodes == Published(s.nodes, id, FindOther(s.nodes, id, name), name) && s'.parts == s.parts &&
      s'.blobs == s.blobs
    ensures TreeInv(s'.nodes)
    ensures View(s') == View(s)[Path(bucket, dirs) + [name] := ObjectOf(s', id)]
  {
    hide TreeInv, Replaceable, FoldersStay, UniqueNames, View, Holds, SameObjects, Swapped, Published, Named;
    var t, u := s.nodes, s'.nodes;
    var d := Swapped(t, id, name);
    var path: Address := Path(bucket, dirs) + [name];
    AtFolderLive(t, bucket, dirs, at);
    PublishTree(t, id, name);
    PublishRows(t, id, name);
    TreeUnique(t);
    TreeUnique(u);
    SwappedObjects(s, s', id, name);
    PublishedHere(t, u, id, at, bucket, dirs, name);
    HolderUnique(s', path, id);
    forall p: Address | p != path
      ensures (p in View(s) <==> p in View(s')) && (p in View(s) ==> View(s')[p] == View(s)[p])
    {
      forall y | y in d ensures !Holds(t, p, y) && !Holds(u, p, y) {
        OnlyThere(t, u, id, at, bucket, dirs, name, p, y);
      }
      ViewAt(s, s', d, p);
    }
  }

  lemma AtFolderLive(t: Table, bucket: string, dirs: seq<string>, at: Id)
    requires AtFolder(t, bucket, dirs, at)
    ensures LiveFolder(t, at)
  {}

  lemma SwappedObjects(s: State, s': State, id: Id, name: string)
    requires TreeInv(s.nodes) && Replaceable(s.nodes, id, name)
    requires s'.nodes == Published(s.nodes, id, FindOther(s.nodes, id, name), name) && s'.parts == s.parts &&
      s'.blobs == s.blobs
    ensures SameObjects(s, s', Swapped(s.nodes, id, name))
  {
    hide TreeInv, Replaceable, FoldersStay, Swapped, Published, Content;
    PublishRows(s.nodes, id, name);
    FilesOutside(s.nodes, s'.nodes, Swapped(s.nodes, id, name));
  }

  lemma TreeUnique(t: Table)
    requires TreeInv(t)
    ensures UniqueNames(t)
  {}

  lemma PublishedHere(t: Table, u: Table, id: Id, at: Id, bucket: string, dirs: seq<string>, name: string)
    requires TreeInv(t) && FoldersStay(t, u) && AtFolder(t, bucket, dirs, at)
    requires id in u && u[id].kind == File && u[id].status == Ready && u[id].parent == Some(at) && u[id].name == name
    ensures Holds(u, Path(bucket, dirs) + [name], id)
  {
    AtFolderStays(t, u, bucket, dirs, at);
    var p := Path(bucket, dirs) + [name];
    assert p[..|p| - 1] == Path(bucket, dirs);
  }

  /** Neither the staged row nor the replaced one is held at another address. */
  lemma OnlyThere(t: Table, u: Table, id: Id, at: Id, bucket: string, dirs: seq<string>, name: string, p: Address,
      y: Id)
    requires TreeInv(t) && TreeInv(u) && FoldersStay(t, u) && AtFolder(t, bucket, dirs, at)
    requires y in t && y in u && t[y].parent == Some(at) && u[y].parent == Some(at)
    requires IsReady(t, y) ==> t[y].name == name
    requires IsReady(u, y) ==> u[y].name == name
    requires p != Path(bucket, dirs) + [name]
    ensures !Holds(t, p, y) && !Holds(u, p, y)
  {
    var q := Path(bucket, dirs);
    assert p == p[..|p| - 1] + [p[|p| - 1]];
    if Holds(t, p, y) {
      PathUnique(t, p[..|p| - 1], q, at);
    }
    if Holds(u, p, y) {
      AtFolderStays(t, u, bucket, dirs, at);
      PathUnique(u, p[..|p| - 1], q, at);
    }
  }

  lemma PublishKeeps(s: State, r: RequestId)
    requires Inv(s) && IsPut(s, r)
    ensures var s' := PutStep(s, Publish(r), r); var q := s.requests[r];
      && Inv(s')
      && View(s') == (if q.pc.Sized? && Replaceable(s.nodes, q.pc.id, q.name)
                      then View(s)[Path(q.bucket, q.dirs) + [q.name] := Object(q.mime, |q.body|, q.body)] else View(s))
  {
    hide TreeInv, Touch, Intact, UploadsInv, AtFolder, Content, OwnMessages, BlobsInv, Replaceable, View;
    var q := s.requests[r];
    var s' := PutStep(s, Publish(r), r);
    if q.pc.Sized? {
      OwnerFacts(s, r);
      var id := q.pc.id;
      if Replaceable(s.nodes, id, q.name) {
        PublishView(s, s', id, q.pc.at, q.bucket, q.dirs, q.name);
        PublishRows(s.nodes, id, q.name);
        PublishTouch(s, s', id, q.name);
        assert Content(s.blobs, q.pc.sent) + [] == Content(s.blobs, q.pc.sent);
        NotOwned(s, r, id);
        StepKeeps(s, s', r, id);
      } else {
        MovePc(s, s', r);
      }
    } else {
      assert s' == s;
    }
  }

  lemma PublishTouch(s: State, s': State, id: Id, name: string)
    requires Replaceable(s.nodes, id, name) && BlobsInv(s) && s'.nextMessage == s.nextMessage
    requires s'.nodes == Published(s.nodes, id, FindOther(s.nodes, id, name), name) && s'.parts == s.parts &&
      s'.blobs == s.blobs
    ensures Touch(s, s', id) && BlobsInv(s')
  {
    hide Replaceable, Published, Swapped;
    PublishRows(s.nodes, id, name);
  }

  // ---- deletions ----

  lemma DeleteFileTouch(s: State, s': State, x: Id, c: Id)
    requires x in s.nodes && s.nodes[x].kind == File && s'.nodes == SetStatus(s.nodes, x, Deleted)
    requires s'.parts == s.parts && s'.blobs == s.blobs && s'.nextMessage == s.nextMessage && BlobsInv(s)
    ensures Touch(s, s', c) && BlobsInv(s')
  {}

  lemma DeleteFileTree(t: Table, x: Id)
    requires TreeInv(t) && x in t && t[x].kind == File
    ensures TreeInv(SetStatus(t, x, Deleted))
  {
    RootIsFolder(t);
    DeleteFileKeeps(t, x);
  }

  /** The addresses that lead to `x` are free afterwards, the others as before. */
  ghost predicate Erased(s: State, s': State, x: Id) {
    && (forall p: Address | !Named(s.nodes, p, x) ::
          (p in View(s') <==> p in View(s)) && (p in View(s) ==> View(s')[p] == View(s)[p]))
    && forall p: Address | Named(s.nodes, p, x) :: p !in View(s')
  }

  /** Deleting a file erases its address and no other. */
  lemma DeleteFileView(s: State, s': State, x: Id)
    requires TreeInv(s.nodes) && x in s.nodes && s.nodes[x].kind == File
    requires s'.nodes == SetStatus(s.nodes, x, Deleted) && s'.parts == s.parts && s'.blobs == s.blobs
    ensures Erased(s, s', x)
  {
    hide TreeInv, UniqueNames, View, Content;
    var t, u := s.nodes, s'.nodes;
    DeleteFileTree(t, x);
    TreeUnique(t);
    TreeUnique(u);
    FilesOutside(t, u, {x});
    assert SameObjects(s, s', {x});
    forall p: Address | !Named(t, p, x)
      ensures (p in View(s') <==> p in View(s)) && (p in View(s) ==> View(s')[p] == View(s)[p])
    {
      ViewAt(s, s', {x}, p);
    }
    forall p: Address | Named(t, p, x) ensures p !in View(s') {
      Vacant(s, s', x, p);
    }
  }

  lemma Vacant(s: State, s': State, x: Id, p: Address)
    requires TreeInv(s.nodes) && SameOutside(s.nodes, s'.nodes, {x}) && !IsReady(s'.nodes, x) && Named(s.nodes, p, x)
    ensures p !in View(s')
  {
    if Taken(s'.nodes, p) {
      var y := Holder(s'.nodes, p);
      NamedFrame(s.nodes, s'.nodes, {x}, p, y);
      NameUnique(s.nodes, p, x, y);
    }
  }

  lemma DropStagedKeeps(s: State, r: RequestId)
    requires Inv(s) && IsPut(s, r)
    ensures var s' := PutStep(s, DropStaged(r), r); Inv(s') && View(s') == View(s)
  {
    hide TreeInv, Touch, Intact, UploadsInv, AtFolder, Content, OwnMessages, BlobsInv, View;
    var q := s.requests[r];
    if q.pc.Bare? && Live(s.nodes, q.pc.id) {
      StagedDropped(s, r);
    } else if q.pc.Bare? {
      MovePc(s, PutStep(s, DropStaged(r), r), r);
    } else {
      assert PutStep(s, DropStaged(r), r) == s;
    }
  }

  lemma StagedDropped(s: State, r: RequestId)
    requires Inv(s) && IsPut(s, r) && s.requests[r].pc.Bare? && s.requests[r].pc.id in s.nodes
    ensures var s' := Without(s.(nodes := SetStatus(s.nodes, s.requests[r].pc.id, Deleted)), r);
      Inv(s') && View(s') == View(s)
  {
    hide TreeInv, Touch, Intact, UploadsInv, AtFolder, Content, OwnMessages, BlobsInv, View, PutInv;
    var id := s.requests[r].pc.id;
    var s' := Without(s.(nodes := SetStatus(s.nodes, id, Deleted)), r);
    OwnerFacts(s, r);
    DeleteFileTree(s.nodes, id);
    DeleteFileTouch(s, s', id, id);
    QuietView(s, s', id);
    NotOwned(s, r, id);
    StepKeeps(s, s', r, id);
  }

  // ---- object deletes ----

  function OwnAddress(q: Request): Address
    requires q.Put? || q.Remove?
  {
    Path(q.bucket, q.dirs) + [q.name]
  }

  /** An object delete takes effect when the row it found is still published. */
  ghost predicate Erases(s: State, r: RequestId) {
    IsRemove(s, r) && s.requests[r].dpc.Walking? && s.requests[r].found.Some? &&
      IsReady(s.nodes, s.requests[r].found.value)
  }

  /** The row an object delete is about to delete is published under another name
      than the one the request asked for. */
  ghost predicate Misses(s: State, r: RequestId) {
    Erases(s, r) && s.nodes[s.requests[r].found.value].name != s.requests[r].name
  }

  /** The key such a delete erases instead. */
  ghost function EraseOther(s: State, r: RequestId): FlatOp
    requires Misses(s, r)
  {
    Erase(Path(s.requests[r].bucket, s.requests[r].dirs) + [s.nodes[s.requests[r].found.value].name])
  }

  /** What a delete of `r` should do to the flat map: erase its own key, or nothing. */
  ghost function EraseOwn(s: State, r: RequestId): FlatOp {
    if Erases(s, r) then Erase(OwnAddress(s.requests[r])) else Stutter
  }

  /** A delete erases the request's own key exactly when it finds that key's object;
      otherwise it erases the key its row was published at since. */
  lemma DeleteObjectKeeps(s: State, r: RequestId)
    requires Inv(s) && IsRemove(s, r)
    ensures var s' := RemoveStep(s, DeleteObject(r), r);
      && Inv(s')
      && (View(s') == Flat(View(s), EraseOwn(s, r)) <==> !Misses(s, r))
      && (Misses(s, r) ==> s.requests[r].early && View(s') == Flat(View(s), EraseOther(s, r)))
  {
    hide TreeInv, Touch, Intact, UploadsInv, AtFolder, Content, OwnMessages, BlobsInv, View, EraseOther, FoundRow;
    var q := s.requests[r];
    FlatStutter(View(s));
    if q.dpc.Walking? {
      if q.found.Some? && Live(s.nodes, q.found.value) {
        FoundDeleted(s, r);
      } else {
        MovePc(s, RemoveStep(s, DeleteObject(r), r), r);
      }
    } else {
      assert RemoveStep(s, DeleteObject(r), r) == s;
    }
  }

  lemma FoundDeleted(s: State, r: RequestId)
    requires Inv(s) && IsRemove(s, r) && s.requests[r].dpc.Walking? && s.requests[r].found.Some? &&
      s.requests[r].found.value in s.nodes
    ensures var s' := Without(s.(nodes := SetStatus(s.nodes, s.requests[r].found.value, Deleted)), r);
      && Inv(s')
      && (View(s') == Flat(View(s), EraseOwn(s, r)) <==> !Misses(s, r))
      && (Misses(s, r) ==> s.requests[r].early && View(s') == Flat(View(s), EraseOther(s, r)))
  {
    hide TreeInv, Touch, Intact, UploadsInv, AtFolder, Content, OwnMessages, BlobsInv, View, RemoveInv, EraseOther,
      EraseOwn, Misses;
    var q := s.requests[r];
    var x := q.found.value;
    var s' := Without(s.(nodes := SetStatus(s.nodes, x, Deleted)), r);
    assert RequestInv(s, q);
    FoundFile(s.nodes, q);
    DeleteFileTree(s.nodes, x);
    DeleteFileTouch(s, s', x, "");
    DeleteFileView(s, s', x);
    FoundErased(s, s', r);
    NoEmptyId(s);
    NotOwned(s, r, "");
    StepKeeps(s, s', r, "");
  }

  lemma FlatStutter(m: Objects)
    ensures Flat(m, Stutter) == m
  {}

  lemma NoEmptyId(s: State)
    requires TreeInv(s.nodes)
    ensures "" !in s.nodes
  {}

  lemma FoundFile(t: Table, q: Request)
    requires q.Remove? && RemoveInv(t, q) && q.found.Some?
    ensures q.found.value in t && t[q.found.value].kind == File
  {
    hide AtFolder;
  }

  /** A found row that is published is held in the request's own folder. */
  lemma FoundHeld(t: Table, q: Request)
    requires q.Remove? && RemoveInv(t, q) && q.found.Some? && IsReady(t, q.found.value)
    ensures Holds(t, Path(q.bucket, q.dirs) + [t[q.found.value].name], q.found.value)
    ensures t[q.found.value].name != q.name ==> q.early
  {
    assert q.dirs[..q.dpc.i] == q.dirs;
    var p := Path(q.bucket, q.dirs) + [t[q.found.value].name];
    assert p[..|p| - 1] == Path(q.bucket, q.dirs);
  }

  lemma FoundErased(s: State, s': State, r: RequestId)
    requires IsRemove(s, r) && s.requests[r].dpc.Walking? && s.requests[r].found.Some?
    requires TreeInv(s.nodes) && RemoveInv(s.nodes, s.requests[r])
    requires Erased(s, s', s.requests[r].found.value)
    ensures View(s') == Flat(View(s), EraseOwn(s, r)) <==> !Misses(s, r)
    ensures Misses(s, r) ==> s.requests[r].early && View(s') == Flat(View(s), EraseOther(s, r))
  {
    hide TreeInv, View, RemoveInv, Holds, Named, Erased;
    var q := s.requests[r];
    var x := q.found.value;
    if IsReady(s.nodes, x) {
      FoundHeld(s.nodes, q);
      var e: Address := Path(q.bucket, q.dirs) + [s.nodes[x].name];
      ErasedAt(s, s', x, e);
      TreeUnique(s.nodes);
      HolderUnique(s, e, x);
      if s.nodes[x].name != q.name {
        assert e[|e| - 1] != OwnAddress(q)[|e| - 1];
        assert e in Flat(View(s), Erase(OwnAddress(q))) && e !in View(s');
      }
    } else {
      ErasedNowhere(s, s', x);
      FlatStutter(View(s));
    }
  }

  /** Deleting a row erases the one address that leads to it. */
  lemma ErasedAt(s: State, s': State, x: Id, e: Address)
    requires TreeInv(s.nodes) && Erased(s, s', x) && Holds(s.nodes, e, x)
    ensures View(s') == Flat(View(s), Erase(e))
  {
    hide TreeInv, View, Named;
    forall p: Address | p != e ensures !Named(s.nodes, p, x) {
      if Named(s.nodes, p, x) { OnePath(s.nodes, p, e, x); }
    }
  }

  lemma ErasedNowhere(s: State, s': State, x: Id)
    requires Erased(s, s', x) && !IsReady(s.nodes, x)
    ensures View(s') == View(s)
  {
    hide View;
    forall p: Address ensures !Named(s.nodes, p, x) {
      assert |p| > 0;
    }
  }

  lemma OnePath(t: Table, p: seq<string>, q: seq<string>, y: Id)
    requires TreeInv(t) && Named(t, p, y) && Named(t, q, y)
    ensures p == q
  {
    RootIsFolder(t);
    PathUnique(t, p, q, y);
  }
}
