/** The S3 gateway as a transition system: requests run as interleaved steps, one
    database or blob-store call each, and hold the namespace lock for reading;
    bucket removal holds it for writing. */
module Gateway {
  import opened Wrappers
  import opened Bytes
  import opened Nodes
  import opened TreeOps
  import opened Stores
  import opened Text

  /** A stored message and the file it was sent for. */
  datatype Message = Message(file: Id, bytes: ByteString)

  type Blobs = map<int, Message>

  datatype Upload = Upload(bucket: string, key: string)

  /** The folders of a request are those of its bucket and key directories. */
  datatype PutPc =
    | Start                                    // nothing resolved yet
    | Walking(at: Id, i: nat)                  // `dirs[..i]` resolved to folder `at`
    | Absent(at: Id, i: nat)                   // `dirs[i]` was not found under `at`
    | Cleared(at: Id)                          // no folder holds the object's name
    | Sending(at: Id, id: Id, sent: seq<FilePart>, rest: ByteString)
    | Recorded(at: Id, id: Id, sent: seq<FilePart>)
    | Sized(at: Id, id: Id, sent: seq<FilePart>)
    | Cleaning(at: Id, id: Id, sent: seq<FilePart>)
    | Wiped(at: Id, id: Id)                    // messages deleted, part rows not yet
    | Bare(at: Id, id: Id)                     // only the staged row is left to delete

  datatype Request =
    | Put(bucket: string, dirs: seq<string>, name: string, mime: string, body: ByteString, pc: PutPc)
    // `early` records that the row found was an upload not yet published
    | Remove(bucket: string, dirs: seq<string>, name: string, dpc: PutPc, found: Option<Id>, early: bool)
    | NewBucket(bucket: string, free: bool)
    | NewUpload(bucket: string, key: string, checked: bool)

  type RequestId = nat

  datatype State = State(
    nodes: Table, parts: Parts, blobs: Blobs, nextMessage: nat,
    uploads: map<string, Upload>, requests: map<RequestId, Request>,
    deleting: Option<(Id, string)>)

  datatype Action =
    | Begin(r: RequestId, req: Request)        // RLock
    | End(r: RequestId)                        // the request returns, whatever is left to do
    | FindBucket(r: RequestId)
    | FindDir(r: RequestId)
    | MakeDir(r: RequestId, newId: Id)
    | CheckName(r: RequestId)
    | Stage(r: RequestId, newId: Id, stageName: string, channel: int)
    | Send(r: RequestId, n: nat)
    | Record(r: RequestId)
    | Resize(r: RequestId)
    | Publish(r: RequestId)
    | Fail(r: RequestId)                       // any error after staging
    | SaveParts(r: RequestId)
    | DeleteMessages(r: RequestId)
    | DeleteParts(r: RequestId)
    | DropStaged(r: RequestId)
    | FindObject(r: RequestId)
    | DeleteObject(r: RequestId)
    | CheckBucket(r: RequestId)
    | MakeBucket(r: RequestId, newId: Id)
    | OpenUpload(r: RequestId, upload: string)
    | AbortUpload(upload: string)
    | LockBucket(bucket: string)               // Lock, and the emptiness checks of a bucket delete
    | TrashFolder(folder: Id)                  // one soft delete of its recursion
    | Unlock
    | Restart                                  // in-memory state is lost

  // ---- names along live paths ----

  /** `y` is the ready row that the names `p` lead to from the root. */
  ghost predicate Named(t: Table, p: seq<string>, y: Id) {
    if p == [] then y == ROOT
    else IsReady(t, y) && t[y].parent.Some? && t[y].name == p[|p| - 1] && Named(t, p[..|p| - 1], t[y].parent.value)
  }

  function Path(bucket: string, dirs: seq<string>): seq<string> {
    [bucket] + dirs
  }

  // ---- contents ----

  function Content(blobs: Blobs, ps: seq<FilePart>): ByteString {
    if ps == [] then []
    else Content(blobs, ps[..|ps| - 1]) +
         (if ps[|ps| - 1].messageId in blobs then blobs[ps[|ps| - 1].messageId].bytes else [])
  }

  function PartsOf(parts: Parts, id: Id): seq<FilePart> {
    if id in parts then parts[id] else []
  }

  datatype Object = Object(mime: string, size: int, bytes: ByteString)

  function ObjectOf(s: State, id: Id): Object
    requires id in s.nodes
  {
    Object(s.nodes[id].mime, s.nodes[id].size, Content(s.blobs, PartsOf(s.parts, id)))
  }

  /** (bucket, key) pairs, the key split at its slashes. */
  type Address = p: seq<string> | |p| >= 2 witness ["bucket", "key"]

  type Objects = imap<Address, Object>

  ghost predicate Holds(t: Table, p: seq<string>, y: Id) {
    Named(t, p, y) && y in t && t[y].kind == File
  }

  ghost predicate Taken(t: Table, p: seq<string>) {
    exists y :: Holds(t, p, y)
  }

  ghost function Holder(t: Table, p: seq<string>): (y: Id)
    requires Taken(t, p)
    ensures Holds(t, p, y)
  {
    var y :| Holds(t, p, y); y
  }

  /** The flat object map the gateway presents. */
  ghost function View(s: State): Objects {
    imap p: Address | Taken(s.nodes, p) :: ObjectOf(s, Holder(s.nodes, p))
  }

  // ---- steps ----

  function With(s: State, r: RequestId, req: Request): State {
    s.(requests := s.requests[r := req])
  }

  function Without(s: State, r: RequestId): State {
    s.(requests := s.requests - {r})
  }

  predicate IsPut(s: State, r: RequestId) {
    r in s.requests && s.requests[r].Put?
  }

  predicate IsRemove(s: State, r: RequestId) {
    r in s.requests && s.requests[r].Remove?
  }

  predicate Fresh(req: Request) {
    match req
    case Put(_, _, _, _, _, pc) => pc == Start
    case Remove(_, _, _, pc, found, early) => pc == Start && found == None && !early
    case NewBucket(_, free) => !free
    case NewUpload(_, _, checked) => !checked
  }

  ghost predicate BucketFolder(t: Table, bucket: string) {
    FindChild(t, ROOT, bucket).Some? && t[FindChild(t, ROOT, bucket).value].kind == Folder
  }

  function MessageIds(ps: seq<FilePart>): set<int> {
    set p | p in ps :: p.messageId
  }

  /** One more folder of the walk: where it leads, or `None` to stop the request. */
  ghost function WalkStep(t: Table, dirs: seq<string>, pc: PutPc, create: bool): Option<PutPc>
    requires pc.Walking? && pc.i < |dirs|
  {
    match FindChild(t, pc.at, dirs[pc.i])
    case None => if create then Some(Absent(pc.at, pc.i)) else None
    case Some(c) => if t[c].kind == Folder then Some(Walking(c, pc.i + 1)) else None
  }

  ghost function BucketStep(t: Table, bucket: string): Option<PutPc> {
    if BucketFolder(t, bucket) then Some(Walking(FindChild(t, ROOT, bucket).value, 0)) else None
  }

  ghost function PutAt(s: State, r: RequestId, pc: Option<PutPc>): State
    requires IsPut(s, r)
  {
    if pc.Some? then With(s, r, s.requests[r].(pc := pc.value)) else Without(s, r)
  }

  ghost function RemoveAt(s: State, r: RequestId, pc: Option<PutPc>): State
    requires IsRemove(s, r)
  {
    if pc.Some? then With(s, r, s.requests[r].(dpc := pc.value)) else Without(s, r)
  }

  function FolderRow(parent: Id, name: string): Node {
    Node(Some(parent), name, Folder, "inode/directory", 0, Ready, 0)
  }

  predicate CanInsert(t: Table, id: Id, parent: Id, name: string) {
    id !in t && id != "" && Live(t, parent) && forall c | c in t :: !IsChild(t, parent, name, c)
  }

  /** `Replace` finds a staged file and no folder or unfinished upload under the name. */
  ghost predicate Replaceable(t: Table, id: Id, name: string) {
    && id in t && t[id].kind == File && t[id].status == Pending
    && (FindOther(t, id, name).Some? ==>
          t[FindOther(t, id, name).value].kind == File && t[FindOther(t, id, name).value].status == Ready)
  }

  ghost function PutStep(s: State, a: Action, r: RequestId): State
    requires IsPut(s, r)
  {
    var q := s.requests[r];
    var t := s.nodes;
    match (a, q.pc)
    case (FindBucket(_), Start) => PutAt(s, r, BucketStep(t, q.bucket))
    case (FindDir(_), Walking(at, i)) => if i < |q.dirs| then PutAt(s, r, WalkStep(t, q.dirs, q.pc, true)) else s
    case (MakeDir(_, newId), Absent(at, i)) =>
      if i < |q.dirs| && ValidName(q.dirs[i]) && CanInsert(t, newId, at, q.dirs[i])
      then PutAt(s.(nodes := t[newId := FolderRow(at, q.dirs[i])]), r, Some(Walking(newId, i + 1)))
      else Without(s, r)
    case (CheckName(_), Walking(at, i)) =>
      if i == |q.dirs| then
        (if FindChild(t, at, q.name).Some? && t[FindChild(t, at, q.name).value].kind == Folder then Without(s, r)
         else PutAt(s, r, Some(Cleared(at))))
      else s
    case (Stage(_, newId, stageName, channel), Cleared(at)) =>
      if CanInsert(t, newId, at, stageName)
      then PutAt(s.(nodes := t[newId := Node(Some(at), stageName, File, q.mime, 0, Pending, channel)]), r,
                 Some(if q.body == [] then Sized(at, newId, []) else Sending(at, newId, [], q.body)))
      else Without(s, r)
    case (Send(_, n), Sending(at, id, sent, rest)) =>
      if 0 < n <= |rest|
      then PutAt(s.(blobs := s.blobs[s.nextMessage := Message(id, rest[..n])], nextMessage := s.nextMessage + 1), r,
                 Some(Sending(at, id, sent + [FilePart("", |sent|, s.nextMessage, n, 0)], rest[n..])))
      else s
    case (Record(_), Sending(at, id, sent, rest)) =>
      if rest == [] && id in t then PutAt(s.(parts := s.parts[id := sent]), r, Some(Recorded(at, id, sent))) else s
    case (Resize(_), Recorded(at, id, sent)) =>
      if Live(t, id) then PutAt(s.(nodes := SetSize(t, id, |q.body|)), r, Some(Sized(at, id, sent)))
      else PutAt(s, r, Some(Cleaning(at, id, sent)))
    case (Publish(_), Sized(at, id, sent)) =>
      if Replaceable(t, id, q.name) then Without(s.(nodes := Published(t, id, FindOther(t, id, q.name), q.name)), r)
      else PutAt(s, r, Some(Bare(at, id)))
    case (Fail(_), Sending(at, id, sent, _)) => PutAt(s, r, Some(Cleaning(at, id, sent)))
    case (Fail(_), Recorded(at, id, sent)) => PutAt(s, r, Some(Cleaning(at, id, sent)))
    case (Fail(_), Sized(at, id, sent)) => PutAt(s, r, Some(Bare(at, id)))
    case (SaveParts(_), Cleaning(at, id, sent)) => if id in t then s.(parts := s.parts[id := sent]) else s
    case (DeleteMessages(_), Cleaning(at, id, sent)) =>
      PutAt(s.(blobs := s.blobs - MessageIds(sent)), r, Some(Wiped(at, id)))
    case (DeleteParts(_), Wiped(at, id)) => PutAt(s.(parts := s.parts - {id}), r, Some(Bare(at, id)))
    case (DropStaged(_), Bare(at, id)) =>
      if Live(t, id) then Without(s.(nodes := SetStatus(t, id, Deleted)), r) else Without(s, r)
    case _ => s
  }

  ghost function RemoveStep(s: State, a: Action, r: RequestId): State
    requires IsRemove(s, r)
  {
    var q := s.requests[r];
    var t := s.nodes;
    match (a, q.dpc)
    case (FindBucket(_), Start) => RemoveAt(s, r, BucketStep(t, q.bucket))
    case (FindDir(_), Walking(at, i)) => if i < |q.dirs| then RemoveAt(s, r, WalkStep(t, q.dirs, q.dpc, false)) else s
    case (FindObject(_), Walking(at, i)) =>
      if i == |q.dirs| && q.found == None then
        (if FindChild(t, at, q.name).Some? && t[FindChild(t, at, q.name).value].kind == File
         then With(s, r, q.(found := FindChild(t, at, q.name),
           early := t[FindChild(t, at, q.name).value].status == Pending))
         else Without(s, r))
      else s
    case (DeleteObject(_), Walking(at, i)) =>
      if q.found.Some? && Live(t, q.found.value) then Without(s.(nodes := SetStatus(t, q.found.value, Deleted)), r)
      else Without(s, r)
    case _ => s
  }

  ghost function BucketRequestStep(s: State, a: Action, r: RequestId): State
    requires r in s.requests && s.requests[r].NewBucket?
  {
    var q := s.requests[r];
    match a
    case CheckBucket(_) =>
      if FindChild(s.nodes, ROOT, q.bucket).None? then With(s, r, q.(free := true)) else Without(s, r)
    case MakeBucket(_, newId) =>
      if q.free && ValidName(q.bucket) && CanInsert(s.nodes, newId, ROOT, q.bucket)
      then Without(s.(nodes := s.nodes[newId := FolderRow(ROOT, q.bucket)]), r)
      else Without(s, r)
    case _ => s
  }

  ghost function UploadRequestStep(s: State, a: Action, r: RequestId): State
    requires r in s.requests && s.requests[r].NewUpload?
  {
    var q := s.requests[r];
    match a
    case CheckBucket(_) => if BucketFolder(s.nodes, q.bucket) then With(s, r, q.(checked := true)) else Without(s, r)
    case OpenUpload(_, upload) =>
      if q.checked && upload !in s.uploads
      then Without(s.(uploads := s.uploads[upload := Upload(q.bucket, q.key)]), r)
      else s
    case _ => s
  }

  ghost function RequestStep(s: State, a: Action, r: RequestId): State
    requires r in s.requests
  {
    match s.requests[r]
    case Put(_, _, _, _, _, _) => PutStep(s, a, r)
    case Remove(_, _, _, _, _, _) => RemoveStep(s, a, r)
    case NewBucket(_, _) => BucketRequestStep(s, a, r)
    case NewUpload(_, _, _) => UploadRequestStep(s, a, r)
  }

  /** `hasFiles`: lists of ready children meet no file. */
  ghost predicate NoFiles(t: Table, bucket: Id) {
    forall x | x in ReadyDown(t, bucket) && x in t :: t[x].kind == Folder
  }

  ghost predicate Removable(s: State, bucket: string) {
    && BucketFolder(s.nodes, bucket)
    && NoFiles(s.nodes, FindChild(s.nodes, ROOT, bucket).value)
    && forall u | u in s.uploads :: s.uploads[u].bucket != bucket
  }

  ghost predicate TrashNext(t: Table, bucket: Id, folder: Id) {
    folder in ReadyDown(t, bucket) && IsReady(t, folder) && forall c :: !ReadyChild(t, folder, c)
  }

  predicate RequestAction(a: Action) {
    !a.Begin? && !a.End? && !a.AbortUpload? && !a.LockBucket? && !a.TrashFolder? && !a.Unlock? && !a.Restart?
  }

  /** One step of the whole gateway. An action whose guard fails changes nothing. */
  ghost function Step(s: State, a: Action): State {
    match a
    case Begin(r, req) =>
      if r !in s.requests && s.deleting.None? && Fresh(req) then With(s, r, req) else s
    case End(r) => Without(s, r)
    case AbortUpload(u) => s.(uploads := s.uploads - {u})
    case LockBucket(bucket) =>
      if s.requests == map[] && s.deleting.None? && Removable(s, bucket)
      then s.(deleting := Some((FindChild(s.nodes, ROOT, bucket).value, bucket))) else s
    case TrashFolder(folder) =>
      if s.deleting.Some? && TrashNext(s.nodes, s.deleting.value.0, folder)
      then s.(nodes := SetStatus(s.nodes, folder, Deleted)) else s
    case Unlock => s.(deleting := None)
    case Restart => s.(requests := map[], uploads := map[], deleting := None)
    case _ => if a.r in s.requests then RequestStep(s, a, a.r) else s
  }

  ghost function Run(s: State, actions: seq<Action>): State
    decreases |actions|
  {
    if actions == [] then s else Step(Run(s, actions[..|actions| - 1]), actions[|actions| - 1])
  }

  /** An empty drive and an idle gateway. */
  predicate Initial(s: State) {
    && s.nodes == map[ROOT := Node(None, "Root", Folder, "inode/directory", 0, Ready, 0)]
    && s.parts == map[] && s.blobs == map[] && s.uploads == map[] && s.requests == map[] && s.deleting == None
  }

  // ---- the flat store it refines ----

  datatype FlatOp = Stutter | Store(address: Address, object: Object) | Erase(address: Address)

  ghost function Flat(m: Objects, op: FlatOp): Objects {
    match op
    case Stutter => m
    case Store(p, o) => m[p := o]
    case Erase(p) => imap k | k in m && k != p :: m[k]
  }
}
