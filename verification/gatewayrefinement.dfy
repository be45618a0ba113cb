/** The main results about the gateway: over every interleaving the invariant
    holds and the tree refines the flat object map. */
module GatewayRefinement {
  import opened Wrappers
  import opened Bytes
  import opened Nodes
  import opened TreeOps
  import opened SearchIndex
  import opened Stores
  import opened Gateway
  import opened GatewayProofs
  import opened GatewaySteps

  /** What each action should do to the flat map: a publish stores one complete object
      at the address its request names, an object delete erases the address its request
      names, nothing else shows. */
  ghost function Label(s: State, a: Action): FlatOp {
    match a
    case Publish(r) =>
      if IsPut(s, r) && s.requests[r].pc.Sized? && Replaceable(s.nodes, s.requests[r].pc.id, s.requests[r].name) then
        var q := s.requests[r];
        Store(OwnAddress(q), Object(q.mime, |q.body|, q.body))
      else Stutter
    case DeleteObject(r) => EraseOwn(s, r)
    case _ => Stutter
  }

  /** An object delete that hits another key: the row it found before its publish is
      published by now, under another name. */
  ghost predicate Strays(s: State, a: Action) {
    a.DeleteObject? && Misses(s, a.r)
  }

  // ---- the requests' remaining steps ----

  lemma PutPcInv(s: State, r: RequestId, n: Option<PutPc>)
    requires Inv(s) && IsPut(s, r)
    requires n.Some? ==> PutInv(s, s.requests[r].(pc := n.value)) &&
                         (Staged(s.requests[r].(pc := n.value)) == None ||
                           Staged(s.requests[r].(pc := n.value)) == Staged(s.requests[r]))
    ensures Inv(PutAt(s, r, n)) && View(PutAt(s, r, n)) == View(s)
  {
    hide TreeInv, Intact, UploadsInv, AtFolder, Content, OwnMessages, BlobsInv, View, PutInv;
    MovePc(s, PutAt(s, r, n), r);
  }

  lemma FindBucketKeeps(s: State, r: RequestId)
    requires Inv(s) && IsPut(s, r)
    ensures Inv(PutStep(s, FindBucket(r), r)) && View(PutStep(s, FindBucket(r), r)) == View(s)
  {
    hide TreeInv, Intact, UploadsInv, AtFolder, Content, OwnMessages, BlobsInv, View;
    var q := s.requests[r];
    if q.pc.Start? {
      if BucketFolder(s.nodes, q.bucket) { BucketNamed(s.nodes, q.bucket); }
      assert q.dirs[..0] == [];
      PutPcInv(s, r, BucketStep(s.nodes, q.bucket));
    }
  }

  lemma FindDirKeeps(s: State, r: RequestId)
    requires Inv(s) && IsPut(s, r)
    ensures Inv(PutStep(s, FindDir(r), r)) && View(PutStep(s, FindDir(r), r)) == View(s)
  {
    hide TreeInv, Intact, UploadsInv, AtFolder, Content, OwnMessages, BlobsInv, View, WalkStep;
    var q := s.requests[r];
    if q.pc.Walking? && q.pc.i < |q.dirs| {
      assert RequestInv(s, q);
      WalkKeeps(s.nodes, q.bucket, q.dirs, q.pc, true);
      PutPcInv(s, r, WalkStep(s.nodes, q.dirs, q.pc, true));
    }
  }

  lemma CheckNameKeeps(s: State, r: RequestId)
    requires Inv(s) && IsPut(s, r)
    ensures Inv(PutStep(s, CheckName(r), r)) && View(PutStep(s, CheckName(r), r)) == View(s)
  {
    hide TreeInv, Intact, UploadsInv, AtFolder, Content, OwnMessages, BlobsInv, View;
    var q := s.requests[r];
    if q.pc.Walking? && q.pc.i == |q.dirs| {
      assert RequestInv(s, q);
      assert q.dirs[..q.pc.i] == q.dirs;
      PutPcInv(s, r, None);
      PutPcInv(s, r, Some(Cleared(q.pc.at)));
    }
  }

  lemma FailKeeps(s: State, r: RequestId)
    requires Inv(s) && IsPut(s, r)
    ensures Inv(PutStep(s, Fail(r), r)) && View(PutStep(s, Fail(r), r)) == View(s)
  {
    hide TreeInv, Intact, UploadsInv, AtFolder, Content, OwnMessages, BlobsInv, View;
    var q := s.requests[r];
    assert RequestInv(s, q);
    match q.pc {
      case Sending(at, id, sent, _) => PutPcInv(s, r, Some(Cleaning(at, id, sent)));
      case Recorded(at, id, sent) => PutPcInv(s, r, Some(Cleaning(at, id, sent)));
      case Sized(at, id, sent) => PutPcInv(s, r, Some(Bare(at, id)));
      case _ =>
    }
  }

  lemma PutStepRefines(s: State, a: Action, r: RequestId)
    requires Inv(s) && IsPut(s, r) && RequestAction(a) && a.r == r
    ensures Inv(PutStep(s, a, r)) && View(PutStep(s, a, r)) == Flat(View(s), Label(s, a))
  {
    hide Inv, View;
    match a {
      case MakeDir(_, newId) => MakeDirKeeps(s, r, newId);
      case Stage(_, newId, stageName, channel) => StageKeeps(s, r, newId, stageName, channel);
      case Send(_, n) => SendKeeps(s, r, n);
      case Record(_) => RecordKeeps(s, r);
      case Resize(_) => ResizeKeeps(s, r);
      case Publish(_) => PublishKeeps(s, r);
      case SaveParts(_) => SavePartsKeeps(s, r);
      case DeleteMessages(_) => DeleteMessagesKeeps(s, r);
      case DeleteParts(_) => DeletePartsKeeps(s, r);
      case DropStaged(_) => DropStagedKeeps(s, r);
      case FindBucket(_) => FindBucketKeeps(s, r);
      case FindDir(_) => FindDirKeeps(s, r);
      case CheckName(_) => CheckNameKeeps(s, r);
      case Fail(_) => FailKeeps(s, r);
      case _ =>
    }
  }

  /** Actions that belong to a running request. */
  lemma RemovePcInv(s: State, r: RequestId, n: Option<PutPc>)
    requires Inv(s) && IsRemove(s, r)
    requires n.Some? ==> RemoveInv(s.nodes, s.requests[r].(dpc := n.value))
    ensures Inv(RemoveAt(s, r, n)) && View(RemoveAt(s, r, n)) == View(s)
  {
    hide TreeInv, Intact, UploadsInv, AtFolder, Content, OwnMessages, BlobsInv, View, RemoveInv;
    MovePc(s, RemoveAt(s, r, n), r);
  }

  lemma RemoveWalks(s: State, a: Action, r: RequestId)
    requires Inv(s) && IsRemove(s, r) && (a.FindBucket? || a.FindDir?)
    ensures Inv(RemoveStep(s, a, r)) && View(RemoveStep(s, a, r)) == View(s)
  {
    hide TreeInv, Intact, UploadsInv, AtFolder, Content, OwnMessages, BlobsInv, View;
    var q := s.requests[r];
    assert RequestInv(s, q);
    match (a, q.dpc) {
      case (FindBucket(_), Start) =>
        if BucketFolder(s.nodes, q.bucket) { BucketNamed(s.nodes, q.bucket); }
        assert q.dirs[..0] == [];
        RemovePcInv(s, r, BucketStep(s.nodes, q.bucket));
      case (FindDir(_), Walking(at, i)) =>
        if i < |q.dirs| {
          WalkKeeps(s.nodes, q.bucket, q.dirs, q.dpc, false);
          RemovePcInv(s, r, WalkStep(s.nodes, q.dirs, q.dpc, false));
        }
      case _ =>
    }
  }

  lemma FindObjectKeeps(s: State, r: RequestId)
    requires Inv(s) && IsRemove(s, r)
    ensures Inv(RemoveStep(s, FindObject(r), r)) && View(RemoveStep(s, FindObject(r), r)) == View(s)
  {
    hide TreeInv, Intact, UploadsInv, AtFolder, Content, OwnMessages, BlobsInv, View, RemoveInv;
    var s' := RemoveStep(s, FindObject(r), r);
    if r in s'.requests {
      FoundInv(s, r);
    }
    MovePc(s, s', r);
  }

  lemma FoundInv(s: State, r: RequestId)
    requires RequestsInv(s) && IsRemove(s, r) && r in RemoveStep(s, FindObject(r), r).requests
    ensures IsRemove(RemoveStep(s, FindObject(r), r), r) &&
      RemoveInv(s.nodes, RemoveStep(s, FindObject(r), r).requests[r])
  {
    hide AtFolder;
    assert RequestInv(s, s.requests[r]);
  }

  lemma RemoveStepRefines(s: State, a: Action, r: RequestId)
    requires Inv(s) && IsRemove(s, r) && RequestAction(a) && a.r == r
    ensures Inv(RemoveStep(s, a, r))
    ensures View(RemoveStep(s, a, r)) == Flat(View(s), Label(s, a)) <==> !Strays(s, a)
  {
    hide Inv, View, EraseOwn, Misses;
    match a {
      case FindBucket(_) => RemoveWalks(s, a, r);
      case FindDir(_) => RemoveWalks(s, a, r);
      case FindObject(_) => FindObjectKeeps(s, r);
      case DeleteObject(_) => DeleteObjectKeeps(s, r);
      case _ =>
    }
  }

  lemma CheckBucketKeeps(s: State, r: RequestId)
    requires Inv(s) && r in s.requests && s.requests[r].NewBucket?
    ensures var s' := BucketRequestStep(s, CheckBucket(r), r); Inv(s') && View(s') == View(s)
  {
    hide TreeInv, Intact, UploadsInv, View, BlobsInv, DeletingInv, FindChild;
    MovePc(s, BucketRequestStep(s, CheckBucket(r), r), r);
  }

  lemma BucketRequestRefines(s: State, a: Action, r: RequestId)
    requires Inv(s) && r in s.requests && s.requests[r].NewBucket? && RequestAction(a) && a.r == r
    ensures Inv(BucketRequestStep(s, a, r)) && View(BucketRequestStep(s, a, r)) == Flat(View(s), Label(s, a))
  {
    hide Inv, View, FindChild, CanInsert;
    match a {
      case MakeBucket(_, newId) => MakeBucketKeeps(s, r, newId);
      case CheckBucket(_) => CheckBucketKeeps(s, r);
      case _ =>
    }
    FlatStutter(View(s));
  }

  lemma UploadRequestRefines(s: State, a: Action, r: RequestId)
    requires Inv(s) && r in s.requests && s.requests[r].NewUpload? && RequestAction(a) && a.r == r
    ensures Inv(UploadRequestStep(s, a, r)) && View(UploadRequestStep(s, a, r)) == Flat(View(s), Label(s, a))
  {
    hide Inv, View, BucketFolder;
    match a {
      case OpenUpload(_, upload) => OpenUploadKeeps(s, r, upload);
      case CheckBucket(_) => CheckUploadKeeps(s, r);
      case _ =>
    }
    FlatStutter(View(s));
  }

  lemma CheckUploadKeeps(s: State, r: RequestId)
    requires Inv(s) && r in s.requests && s.requests[r].NewUpload?
    ensures var s' := UploadRequestStep(s, CheckBucket(r), r); Inv(s') && View(s') == View(s)
  {
    hide TreeInv, Intact, View, BlobsInv, BucketFolder, UploadsInv, DeletingInv;
    MovePc(s, UploadRequestStep(s, CheckBucket(r), r), r);
  }

  lemma OpenUploadKeeps(s: State, r: RequestId, upload: string)
    requires Inv(s) && r in s.requests && s.requests[r].NewUpload?
    ensures var s' := UploadRequestStep(s, OpenUpload(r, upload), r); Inv(s') && View(s') == View(s)
  {
    hide Inv, View, UploadsInv, DeletingInv;
    var q := s.requests[r];
    if q.checked && upload !in s.uploads {
      var mid := Without(s, r);
      OpenUploadFacts(s, r, upload);
      ControlOnly(mid, UploadRequestStep(s, OpenUpload(r, upload), r));
    }
  }

  lemma OpenUploadFacts(s: State, r: RequestId, upload: string)
    requires Inv(s) && r in s.requests && s.requests[r].NewUpload? && s.requests[r].checked && upload !in s.uploads
    ensures var s' := UploadRequestStep(s, OpenUpload(r, upload), r);
      Inv(Without(s, r)) && View(Without(s, r)) == View(s) && UploadsInv(s') && DeletingInv(s')
  {
    hide TreeInv, Intact, View, BlobsInv, BucketFolder;
    assert RequestInv(s, s.requests[r]);
    MovePc(s, Without(s, r), r);
    NotDeleting(s, r);
  }

  lemma IntactSame(s: State, s': State)
    requires Intact(s) && SameData(s, s')
    ensures Intact(s')
  {}

  // ---- the namespace lock ----

  /** Only the requests, the uploads or the lock change, within their invariants. */
  lemma ControlOnly(s: State, s': State)
    requires Inv(s) && SameData(s, s') && s'.requests.Keys <= s.requests.Keys
    requires forall r | r in s'.requests :: s'.requests[r] == s.requests[r]
    requires UploadsInv(s') && DeletingInv(s')
    ensures Inv(s') && View(s') == View(s)
  {
    hide TreeInv, Intact, UploadsInv, DeletingInv;
    SameDataView(s, s');
    forall r | r in s'.requests ensures RequestInv(s', s'.requests[r]) {
      assert RequestInv(s, s.requests[r]);
      RequestSameData(s, s', s.requests[r]);
    }
    IntactSame(s, s');
  }

  lemma BeginKeeps(s: State, r: RequestId, req: Request)
    requires Inv(s) && r !in s.requests && s.deleting.None? && Fresh(req)
    ensures Inv(With(s, r, req)) && View(With(s, r, req)) == View(s)
  {
    hide TreeInv, Intact, UploadsInv;
    var s' := With(s, r, req);
    SameDataView(s, s');
    forall k | k in s'.requests ensures RequestInv(s', s'.requests[k]) {
      if k != r {
        assert RequestInv(s, s.requests[k]);
        RequestSameData(s, s', s.requests[k]);
      }
    }
    IntactSame(s, s');
    UploadsSame(s, s');
  }

  lemma UploadsSame(s: State, s': State)
    requires UploadsInv(s) && s'.nodes == s.nodes && s'.uploads.Keys <= s.uploads.Keys
    requires forall u | u in s'.uploads :: s'.uploads[u] == s.uploads[u]
    ensures UploadsInv(s')
  {}

  lemma LockKeeps(s: State, bucket: string)
    requires Inv(s) && s.requests == map[] && s.deleting.None? && Removable(s, bucket)
    ensures var s' := s.(deleting := Some((FindChild(s.nodes, ROOT, bucket).value, bucket)));
      Inv(s') && View(s') == View(s)
  {
    var s' := s.(deleting := Some((FindChild(s.nodes, ROOT, bucket).value, bucket)));
    RootNotItsChild(s.nodes, bucket);
    assert DeletingInv(s');
    UploadsSame(s, s');
    ControlOnly(s, s');
  }

  lemma RootNotItsChild(t: Table, bucket: string)
    requires TreeInv(t) && FindChild(t, ROOT, bucket).Some?
    ensures FindChild(t, ROOT, bucket).value != ROOT
  {
    RootIsFolder(t);
  }

  /** A folder the bucket delete removes holds no file, so no address is lost, and
      no open upload names its bucket. */
  lemma TrashFolderKeeps(s: State, folder: Id)
    requires Inv(s) && s.deleting.Some? && TrashNext(s.nodes, s.deleting.value.0, folder)
    ensures var s' := s.(nodes := SetStatus(s.nodes, folder, Deleted)); Inv(s') && View(s') == View(s)
  {
    hide TreeInv, UploadsInv, View, UniqueNames, BucketFolder;
    var s' := s.(nodes := SetStatus(s.nodes, folder, Deleted));
    FolderTrashed(s.nodes, s.deleting.value.0, folder);
    TreeUnique(s.nodes);
    TreeUnique(s'.nodes);
    NotHeld(s.nodes, s'.nodes, folder);
    ViewSame(s, s', {folder});
    TrashUploads(s, s', folder);
    StillNoFiles(s.nodes, s.deleting.value.0, folder);
  }

  lemma FolderTrashed(t: Table, b: Id, folder: Id)
    requires TreeInv(t) && b != ROOT && TrashNext(t, b, folder) && NoFiles(t, b)
    ensures t[folder].kind == Folder && folder != ROOT && TreeInv(SetStatus(t, folder, Deleted))
    ensures SameOutside(t, SetStatus(t, folder, Deleted), {folder})
  {
    RootIsFolder(t);
    RootNotDown(t, b);
    forall c | LiveFolder(t, c) ensures t[c].parent != Some(folder) {
      NoPendingFolder(t, c);
      assert !ReadyChild(t, folder, c);
    }
    DeleteRowKeepsTree(t, folder);
    forall x | IsReady(t, x) ensures t[x].parent != Some(folder) {
      assert !ReadyChild(t, folder, x);
    }
    TrashedAnchored(t, folder);
  }

  lemma TrashedAnchored(t: Table, folder: Id)
    requires Anchored(t) && folder in t && forall x | IsReady(t, x) :: t[x].parent != Some(folder)
    ensures Anchored(SetStatus(t, folder, Deleted))
  {
    var u := SetStatus(t, folder, Deleted);
    forall x | IsReady(u, x) && x != ROOT ensures ParentLive(u, x) {
      assert IsReady(t, x) && ParentLive(t, x);
    }
  }

  lemma TrashUploads(s: State, s': State, folder: Id)
    requires UploadsInv(s) && DeletingInv(s) && s.deleting.Some? && TreeInv(s.nodes) && TreeInv(s'.nodes) &&
      folder in s.nodes
    requires s'.uploads == s.uploads && s'.nodes == SetStatus(s.nodes, folder, Deleted)
    requires folder in ReadyDown(s.nodes, s.deleting.value.0)
    ensures UploadsInv(s')
  {
    var b, name := s.deleting.value.0, s.deleting.value.1;
    forall k | k in s'.uploads ensures BucketFolder(s'.nodes, s'.uploads[k].bucket) {
      var bucket := s.uploads[k].bucket;
      assert BucketFolder(s.nodes, bucket);
      var f := FindChild(s.nodes, ROOT, bucket).value;
      if f == folder {
        RootIsFolder(s.nodes);
        RootNotDown(s.nodes, b);
        if folder != b {
          DownParent(s.nodes, b, folder);
        }
      }
      assert f != folder;
      FindChildIs(s'.nodes, ROOT, bucket, f);
    }
  }

  lemma StillNoFiles(t: Table, b: Id, folder: Id)
    requires NoFiles(t, b) && b in t && folder in t
    ensures NoFiles(SetStatus(t, folder, Deleted), b)
  {
    var u := SetStatus(t, folder, Deleted);
    forall x | x in ReadyDown(u, b) && x in u ensures u[x].kind == Folder {
      if x != b {
        var k: nat :| DownBy(u, b, x, k);
        FewerDown(t, u, b, x, k);
        DownByUp(t, b, x, k);
        assert Down(t, b, x);
      }
    }
  }

  lemma {:induction false} FewerDown(t: Table, u: Table, b: Id, x: Id, k: nat)
    requires forall y | IsReady(u, y) :: IsReady(t, y) && t[y].parent == u[y].parent
    requires DownBy(u, b, x, k)
    ensures DownBy(t, b, x, k)
    decreases k
  {
    if k > 0 {
      FewerDown(t, u, b, u[x].parent.value, k - 1);
    }
  }

  // ---- main results ----

  /** The other ways in and out of the lock. */
  lemma ControlKeeps(s: State, a: Action)
    requires Inv(s) && (a.End? || a.AbortUpload? || a.Unlock? || a.Restart?)
    ensures Inv(Step(s, a)) && View(Step(s, a)) == View(s)
  {
    hide TreeInv, Intact, View, BlobsInv, RequestsInv, OneOwner, BucketFolder, UploadsInv;
    UploadsSame(s, Step(s, a));
    ControlOnly(s, Step(s, a));
  }

  /** One step: the invariant is kept, and the flat map makes the move its request
      asks for, exactly unless an object delete strays. */
  lemma StepRefines(s: State, a: Action)
    requires Inv(s)
    ensures Inv(Step(s, a)) && (View(Step(s, a)) == Flat(View(s), Label(s, a)) <==> !Strays(s, a))
  {
    hide Inv, View, Removable, TrashNext;
    match a {
      case Begin(r, req) =>
        if r !in s.requests && s.deleting.None? && Fresh(req) { BeginKeeps(s, r, req); }
      case End(r) => ControlKeeps(s, a);
      case AbortUpload(u) => ControlKeeps(s, a);
      case LockBucket(bucket) =>
        if s.requests == map[] && s.deleting.None? && Removable(s, bucket) { LockKeeps(s, bucket); }
      case TrashFolder(folder) =>
        if s.deleting.Some? && TrashNext(s.nodes, s.deleting.value.0, folder) { TrashFolderKeeps(s, folder); }
      case Unlock => ControlKeeps(s, a);
      case Restart => ControlKeeps(s, a);
      case _ => RequestRefines(s, a);
    }
  }

  lemma RequestRefines(s: State, a: Action)
    requires Inv(s) && RequestAction(a)
    ensures Inv(Step(s, a)) && (View(Step(s, a)) == Flat(View(s), Label(s, a)) <==> !Strays(s, a))
  {
    hide Inv, View;
    FlatStutter(View(s));
    if a.r in s.requests {
      match s.requests[a.r] {
        case Put(_, _, _, _, _, _) => PutStepRefines(s, a, a.r);
        case Remove(_, _, _, _, _, _) => RemoveStepRefines(s, a, a.r);
        case NewBucket(_, _) => BucketRequestRefines(s, a, a.r);
        case NewUpload(_, _, _) => UploadRequestRefines(s, a, a.r);
      }
    }
  }

  lemma InitialInv(s: State)
    requires Initial(s)
    ensures Inv(s) && View(s) == imap[]
  {
    assert Up(s.nodes, ROOT, 0) == Some(ROOT);
    assert TreeInv(s.nodes);
  }

  ghost function FlatRun(s: State, actions: seq<Action>): Objects
    decreases |actions|
  {
    if actions == [] then View(s)
    else
      var before := actions[..|actions| - 1];
      Flat(FlatRun(s, before), Label(Run(s, before), actions[|actions| - 1]))
  }

  /** Along the whole run the gateway presents what the flat map reaches. */
  ghost predicate Agrees(s: State, actions: seq<Action>)
    decreases |actions|
  {
    View(Run(s, actions)) == FlatRun(s, actions) && (actions != [] ==> Agrees(s, actions[..|actions| - 1]))
  }

  ghost predicate NoStray(s: State, actions: seq<Action>)
    decreases |actions|
  {
    actions != [] ==>
      var before := actions[..|actions| - 1];
      NoStray(s, before) && !Strays(Run(s, before), actions[|actions| - 1])
  }

  /** Every interleaving of gateway steps from an empty drive keeps the invariant, and
      what it presents is what the flat map reaches by the moves its requests ask for,
      exactly when no object delete of the run strays. */
  lemma {:induction false} EveryRunRefines(s: State, actions: seq<Action>)
    requires Initial(s)
    ensures Inv(Run(s, actions)) && (Agrees(s, actions) <==> NoStray(s, actions))
    decreases |actions|
  {
    hide Inv, View, Step, Label, Flat, Strays;
    if actions == [] {
      InitialInv(s);
    } else {
      var before := actions[..|actions| - 1];
      EveryRunRefines(s, before);
      StepRefines(Run(s, before), actions[|actions| - 1]);
    }
  }

  /** The lookup of an object delete meets an upload that is not published yet. */
  ghost predicate FindsEarly(s: State, a: Action) {
    a.FindObject? && IsRemove(s, a.r) && s.requests[a.r].dpc.Walking? &&
    var at := FindChild(s.nodes, s.requests[a.r].dpc.at, s.requests[a.r].name);
    at.Some? && s.nodes[at.value].status == Pending
  }

  ghost predicate NoEarlyFind(s: State, actions: seq<Action>)
    decreases |actions|
  {
    actions != [] ==>
      var before := actions[..|actions| - 1];
      NoEarlyFind(s, before) && !FindsEarly(Run(s, before), actions[|actions| - 1])
  }

  ghost predicate NoneEarly(rs: map<RequestId, Request>) {
    forall r | r in rs && rs[r].Remove? :: !rs[r].early
  }

  lemma PutStepEarly(s: State, a: Action, r: RequestId)
    requires IsPut(s, r) && NoneEarly(s.requests)
    ensures NoneEarly(PutStep(s, a, r).requests)
  {
    hide NoneEarly, PutAt, Without, BucketStep, WalkStep, BucketFolder, CanInsert, Replaceable, FindOther, FindChild,
      MessageIds, Published, SetSize, SetStatus, Live;
    forall m: State, pc | m.requests == s.requests ensures NoneEarly(PutAt(m, r, pc).requests) {
      PutAtEarly(s, m, r, pc);
    }
    forall m: State | m.requests == s.requests ensures NoneEarly(Without(m, r).requests) {
      WithoutEarly(m, r);
    }
  }

  lemma PutAtEarly(s: State, m: State, r: RequestId, pc: Option<PutPc>)
    requires IsPut(s, r) && NoneEarly(s.requests) && m.requests == s.requests
    ensures NoneEarly(PutAt(m, r, pc).requests)
  {}

  lemma WithoutEarly(s: State, r: RequestId)
    requires NoneEarly(s.requests)
    ensures NoneEarly(Without(s, r).requests)
  {}

  lemma RemoveStepEarly(s: State, a: Action, r: RequestId)
    requires IsRemove(s, r) && NoneEarly(s.requests) && RequestAction(a) && a.r == r && !FindsEarly(s, a)
    ensures NoneEarly(RemoveStep(s, a, r).requests)
  {
    hide BucketStep, WalkStep, SetStatus, FindChild;
  }

  lemma OtherStepEarly(s: State, a: Action, r: RequestId)
    requires r in s.requests && !IsPut(s, r) && !IsRemove(s, r) && NoneEarly(s.requests) && RequestAction(a)
    ensures NoneEarly(RequestStep(s, a, r).requests)
  {
    hide FindChild, BucketFolder, CanInsert;
  }

  lemma StepEarly(s: State, a: Action)
    requires NoneEarly(s.requests) && !FindsEarly(s, a)
    ensures NoneEarly(Step(s, a).requests)
  {
    hide PutStep, RemoveStep, BucketRequestStep, UploadRequestStep, Removable, TrashNext, FindsEarly;
    if RequestAction(a) && a.r in s.requests {
      if IsPut(s, a.r) {
        PutStepEarly(s, a, a.r);
      } else if IsRemove(s, a.r) {
        RemoveStepEarly(s, a, a.r);
      } else {
        OtherStepEarly(s, a, a.r);
      }
    }
  }

  /** The guard at the lookup: where no object delete finds an unpublished upload, the
      gateway is the flat map throughout. */
  lemma {:induction false} PublishedFindsSuffice(s: State, actions: seq<Action>)
    requires Initial(s) && NoEarlyFind(s, actions)
    ensures Agrees(s, actions) && NoneEarly(Run(s, actions).requests)
    decreases |actions|
  {
    hide Inv, View, Step, Label, Flat, FindsEarly, Misses;
    EveryRunRefines(s, actions);
    if actions != [] {
      var before, a := actions[..|actions| - 1], actions[|actions| - 1];
      PublishedFindsSuffice(s, before);
      EveryRunRefines(s, before);
      StepEarly(Run(s, before), a);
      if a.DeleteObject? { MissIsEarly(Run(s, before), a.r); }
    }
  }

  lemma MissIsEarly(s: State, r: RequestId)
    requires Inv(s) && NoneEarly(s.requests)
    ensures !Misses(s, r)
  {
    hide Inv, View, Flat;
    if Misses(s, r) {
      DeleteObjectKeeps(s, r);
    }
  }

  /** In every reachable state every ready row, so every published object, has a live
      path from the root, and every open multipart upload still has its bucket. */
  lemma EveryRunAnchored(s: State, actions: seq<Action>, x: Id)
    requires Initial(s) && IsReady(Run(s, actions).nodes, x)
    ensures exists p :: Named(Run(s, actions).nodes, p, x)
    ensures UploadsInv(Run(s, actions))
  {
    EveryRunRefines(s, actions);
    var e := Run(s, actions);
    var k: nat :| Up(e.nodes, x, k) == Some(ROOT);
    var p := HasPath(e.nodes, x, k);
  }

  /** A bucket delete takes no step that loses an object or the bucket of an open
      upload, whatever ran before it. */
  lemma BucketDeleteIsSafe(s: State, actions: seq<Action>, folder: Id)
    requires Initial(s)
    ensures var e := Run(s, actions); var e' := Step(e, TrashFolder(folder));
      && View(e') == View(e)
      && forall u | u in e.uploads :: BucketFolder(e'.nodes, e.uploads[u].bucket)
  {
    hide View, Flat;
    EveryRunRefines(s, actions);
    var e := Run(s, actions);
    StepRefines(e, TrashFolder(folder));
    assert Label(e, TrashFolder(folder)) == Stutter;
    FlatStutter(View(e));
  }
}
