/** Every interleaving of gateway requests refines the flat object map. */
module GatewayProofs {
  import opened Wrappers
  import opened Bytes
  import opened Nodes
  import opened TreeOps
  import opened SearchIndex
  import opened Stores
  import opened Text
  import opened Gateway

  // ---- the invariant ----

  ghost predicate AtFolder(t: Table, bucket: string, dirs: seq<string>, at: Id) {
    LiveFolder(t, at) && Named(t, Path(bucket, dirs), at)
  }

  ghost predicate StagedRow(t: Table, id: Id, at: Id, mime: string) {
    id in t && id != ROOT && t[id].kind == File && t[id].parent == Some(at) && t[id].status != Ready &&
      t[id].mime == mime
  }

  /** The messages of these parts are stored, and were sent for `id`. */
  ghost predicate OwnMessages(blobs: Blobs, ps: seq<FilePart>, id: Id) {
    forall p | p in ps :: p.messageId in blobs && blobs[p.messageId].file == id
  }

  /** The parts sent so far and the rest of the stream make up the body. */
  ghost predicate Carries(s: State, id: Id, sent: seq<FilePart>, rest: ByteString, body: ByteString) {
    OwnMessages(s.blobs, sent, id) && Content(s.blobs, sent) + rest == body
  }

  ghost predicate PutInv(s: State, q: Request)
    requires q.Put?
  {
    var t := s.nodes;
    match q.pc
    case Start => true
    case Walking(at, i) => i <= |q.dirs| && AtFolder(t, q.bucket, q.dirs[..i], at)
    case Absent(at, i) => i < |q.dirs| && AtFolder(t, q.bucket, q.dirs[..i], at)
    case Cleared(at) => AtFolder(t, q.bucket, q.dirs, at)
    case Sending(at, id, sent, rest) =>
      AtFolder(t, q.bucket, q.dirs, at) && StagedRow(t, id, at, q.mime) && Carries(s, id, sent, rest, q.body)
    case Recorded(at, id, sent) =>
      AtFolder(t, q.bucket, q.dirs, at) && StagedRow(t, id, at, q.mime) && Carries(s, id, sent, [], q.body) &&
      PartsOf(s.parts, id) == sent
    case Sized(at, id, sent) =>
      AtFolder(t, q.bucket, q.dirs, at) && StagedRow(t, id, at, q.mime) && Carries(s, id, sent, [], q.body) &&
      PartsOf(s.parts, id) == sent && (t[id].status == Pending ==> t[id].size == |q.body|)
    case Cleaning(at, id, sent) => StagedRow(t, id, at, q.mime) && OwnMessages(s.blobs, sent, id)
    case Wiped(at, id) => StagedRow(t, id, at, q.mime)
    case Bare(at, id) => StagedRow(t, id, at, q.mime)
  }

  ghost predicate RemoveInv(t: Table, q: Request)
    requires q.Remove?
  {
    && (q.dpc.Walking? ==> q.dpc.i <= |q.dirs| && AtFolder(t, q.bucket, q.dirs[..q.dpc.i], q.dpc.at))
    && (q.found.Some? ==>
          q.dpc.Walking? && q.dpc.i == |q.dirs| && FoundRow(t, q.found.value, q.dpc.at, q.name, q.early))
  }

  /** What a remove found: a file of its folder, of the name it asked for unless it
      found an upload before its publish, which renames it. */
  ghost predicate FoundRow(t: Table, x: Id, at: Id, name: string, early: bool) {
    && x in t && t[x].kind == File && t[x].parent == Some(at)
    && (!early ==> t[x].status != Pending && t[x].name == name)
  }

  ghost predicate RequestInv(s: State, q: Request) {
    match q
    case Put(_, _, _, _, _, _) => PutInv(s, q)
    case Remove(_, _, _, _, _, _) => RemoveInv(s.nodes, q)
    case NewBucket(_, _) => true
    case NewUpload(bucket, _, checked) => checked ==> BucketFolder(s.nodes, bucket)
  }

  /** The staged row a request owns. */
  function Staged(q: Request): Option<Id> {
    if !q.Put? then None else
    match q.pc
    case Sending(_, id, _, _) => Some(id)
    case Recorded(_, id, _) => Some(id)
    case Sized(_, id, _) => Some(id)
    case Cleaning(_, id, _) => Some(id)
    case Wiped(_, id) => Some(id)
    case Bare(_, id) => Some(id)
    case _ => None
  }

  ghost predicate OneOwner(rs: map<RequestId, Request>) {
    forall r1, r2 | r1 in rs && r2 in rs && Staged(rs[r1]).Some? && Staged(rs[r1]) == Staged(rs[r2]) :: r1 == r2
  }

  ghost predicate RequestsInv(s: State) {
    forall r | r in s.requests :: RequestInv(s, s.requests[r])
  }

  /** Every published object still has every message of its parts. */
  ghost predicate Intact(s: State) {
    forall x | IsReady(s.nodes, x) && s.nodes[x].kind == File :: OwnMessages(s.blobs, PartsOf(s.parts, x), x)
  }

  /** The bucket of every open multipart upload is there. */
  ghost predicate UploadsInv(s: State) {
    forall u | u in s.uploads :: BucketFolder(s.nodes, s.uploads[u].bucket)
  }

  /** While a bucket is being removed no request runs, it holds no file and no upload. */
  ghost predicate DeletingInv(s: State) {
    s.deleting.Some? ==>
      var b := s.deleting.value.0; var name := s.deleting.value.1;
      && s.requests == map[] && b != ROOT && b in s.nodes && NoFiles(s.nodes, b)
      && s.nodes[b].parent == Some(ROOT) && s.nodes[b].name == name
      && forall u | u in s.uploads :: s.uploads[u].bucket != name
  }

  ghost predicate TreeInv(t: Table) {
    Tree(t) && Anchored(t) && "" !in t
  }

  /** Message numbers are not reused, and part rows belong to node rows. */
  ghost predicate BlobsInv(s: State) {
    (forall m | m in s.blobs :: m < s.nextMessage) && s.parts.Keys <= s.nodes.Keys
  }

  ghost predicate Inv(s: State) {
    && TreeInv(s.nodes) && BlobsInv(s) && Intact(s)
    && RequestsInv(s) && OneOwner(s.requests) && UploadsInv(s) && DeletingInv(s)
  }

  // ---- names ----

  lemma {:induction false} NameUnique(t: Table, p: seq<string>, y: Id, z: Id)
    requires UniqueNames(t) && Named(t, p, y) && Named(t, p, z)
    ensures y == z
    decreases |p|
  {
    if p != [] {
      NameUnique(t, p[..|p| - 1], t[y].parent.value, t[z].parent.value);
    }
  }

  lemma {:induction false} PathUnique(t: Table, p: seq<string>, q: seq<string>, y: Id)
    requires RootRow(t) && Named(t, p, y) && Named(t, q, y)
    ensures p == q
    decreases |p|
  {
    if p != [] && q != [] {
      PathUnique(t, p[..|p| - 1], q[..|q| - 1], t[y].parent.value);
      assert p == p[..|p| - 1] + [t[y].name];
      assert q == q[..|q| - 1] + [t[y].name];
    }
  }

  /** Every ready row has a live path from the root: its ancestors are all ready. */
  lemma {:induction false} HasPath(t: Table, y: Id, k: nat) returns (p: seq<string>)
    requires Tree(t) && Anchored(t) && IsReady(t, y) && Up(t, y, k) == Some(ROOT)
    ensures Named(t, p, y)
    decreases k
  {
    if k == 0 {
      p := [];
    } else {
      ReadyParent(t, y);
      p := HasPath(t, t[y].parent.value, k - 1);
      p := p + [t[y].name];
      assert p[..|p| - 1] + [t[y].name] == p;
    }
  }

  /** A live path survives any change that leaves the ready rows outside `d` alone. */
  lemma {:induction false} NamedFrame(t: Table, u: Table, d: set<Id>, p: seq<string>, y: Id)
    requires SameOutside(t, u, d) && y !in d
    ensures Named(t, p, y) <==> Named(u, p, y)
    decreases |p|
  {
    if p != [] && IsReady(t, y) && t[y].parent.Some? {
      NamedFrame(t, u, d, p[..|p| - 1], t[y].parent.value);
    }
  }

  ghost predicate FoldersStay(t: Table, u: Table) {
    forall x | LiveFolder(t, x) :: x in u && u[x] == t[x]
  }

  lemma {:induction false} NamedStays(t: Table, u: Table, p: seq<string>, y: Id)
    requires Tree(t) && Anchored(t) && FoldersStay(t, u)
    requires Named(t, p, y) && LiveFolder(t, y)
    ensures Named(u, p, y)
    decreases |p|
  {
    if p != [] {
      NamedParent(t, p, y);
      NamedStays(t, u, p[..|p| - 1], t[y].parent.value);
    }
  }

  lemma NamedParent(t: Table, p: seq<string>, y: Id)
    requires Tree(t) && Anchored(t) && p != [] && Named(t, p, y)
    ensures LiveFolder(t, t[y].parent.value)
  {
    RootIsFolder(t);
    RowParent(t, y);
    assert ParentLive(t, y);
  }

  // ---- the view ----

  lemma HolderUnique(s: State, p: Address, y: Id)
    requires UniqueNames(s.nodes) && Holds(s.nodes, p, y)
    ensures p in View(s) && View(s)[p] == ObjectOf(s, y)
  {
    assert Taken(s.nodes, p);
    NameUnique(s.nodes, p, y, Holder(s.nodes, p));
  }

  /** Files outside `d` keep their names and contents. */
  ghost predicate SameObjects(s: State, s': State, d: set<Id>) {
    && SameOutside(s.nodes, s'.nodes, d)
    && forall y | IsReady(s.nodes, y) && y !in d ::
         s'.nodes[y].kind == s.nodes[y].kind && (s.nodes[y].kind == File ==> ObjectOf(s', y) == ObjectOf(s, y))
  }

  /** An address that no row of `d` holds, before or after, keeps its object. */
  lemma ViewAt(s: State, s': State, d: set<Id>, p: Address)
    requires UniqueNames(s.nodes) && UniqueNames(s'.nodes) && SameObjects(s, s', d)
    requires forall y | y in d :: !Holds(s.nodes, p, y) && !Holds(s'.nodes, p, y)
    ensures p in View(s) <==> p in View(s')
    ensures p in View(s) ==> View(s')[p] == View(s)[p]
  {
    if Taken(s.nodes, p) {
      var y := Holder(s.nodes, p);
      NamedFrame(s.nodes, s'.nodes, d, p, y);
      HolderUnique(s, p, y);
      HolderUnique(s', p, y);
    }
    if Taken(s'.nodes, p) {
      var y := Holder(s'.nodes, p);
      NamedFrame(s.nodes, s'.nodes, d, p, y);
      assert IsReady(s'.nodes, y) && IsReady(s.nodes, y);
      assert Holds(s.nodes, p, y);
    }
  }

  lemma ViewSame(s: State, s': State, d: set<Id>)
    requires UniqueNames(s.nodes) && UniqueNames(s'.nodes) && SameObjects(s, s', d)
    requires forall p: Address, y | y in d :: !Holds(s.nodes, p, y) && !Holds(s'.nodes, p, y)
    ensures View(s') == View(s)
  {
    forall p: Address ensures (p in View(s) <==> p in View(s')) && (p in View(s) ==> View(s')[p] == View(s)[p]) {
      ViewAt(s, s', d, p);
    }
  }
}
