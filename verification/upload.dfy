/** The parallel upload of one file: a reader loop, workers that finish in any
    order, and the rollback, as a transition system. */
module Uploads {
  import opened Wrappers
  import opened Bytes
  import opened Nodes
  import opened Stores
  import opened Chunks

  /** `content` is what the stream delivers; a broken stream then fails instead of ending. */
  datatype Job = Job(content: ByteString, broken: bool, chunkSize: nat, workers: nat, channel: int, dedup: bool)

  ghost predicate ValidJob(j: Job) {
    j.chunkSize > 0 && j.workers > 0
  }

  datatype Pc =
    | Reading
    | Launching(chunk: ByteString, failed: bool)
    | Draining(bad: bool)
    | SavingParts | Sizing | Readying
    | Persisting | Deleting | Unlisting | Dropping
    | Succeeded | Failed

  /** `parts` grows as workers finish; `listed` are the file's rows in the part table;
      `messages` is the storage channel. */
  datatype Upload = Upload(
    pc: Pc, offset: nat, next: nat, total: nat,
    inflight: map<nat, ByteString>, parts: seq<FilePart>, workerFailed: bool, cancelled: bool,
    messages: map<int, ByteString>, listed: seq<FilePart>, status: Status, size: nat,
    persistFailed: bool, deleteFailed: bool)

  function Begin(messages: map<int, ByteString>): Upload {
    Upload(Reading, 0, 0, 0, map[], [], false, false, messages, [], Pending, 0, false, false)
  }

  datatype Action =
    | Read
    | Launch
    | GiveUp
    | Finish(partNo: nat, message: int, id: string)
    | Fault(partNo: nat, orphan: Option<int>)
    | Cancel
    | Drained
    | SaveParts(saved: bool, rows: seq<FilePart>)
    | SaveSize(saved: bool)
    | MakeReady(saved: bool)
    | Persist(saved: bool)
    | Delete(deleted: bool, gone: set<int>)
    | Unlist(saved: bool)
    | Drop(saved: bool)

  function MessageIds(ps: seq<FilePart>): set<int> {
    set p | p in ps :: p.messageId
  }

  function Numbers(ps: seq<FilePart>): set<int> {
    set p | p in ps :: p.partNo
  }

  /** The order of `sort.Slice` by part number. */
  ghost predicate ByNumber(ps: seq<FilePart>) {
    forall i, j | 0 <= i < j < |ps| :: ps[i].partNo <= ps[j].partNo
  }

  /** Where the reader loop goes once a chunk of `n` bytes is dealt with. */
  function AfterChunk(j: Job, n: nat, failed: bool): Pc {
    if failed then Draining(true)
    else if n == 0 || n < j.chunkSize then Draining(false)
    else Reading
  }

  /** One `io.ReadAll` of at most a chunk. */
  ghost predicate ReadStep(j: Job, s: Upload, u: Upload) {
    && s.pc == Reading && s.offset <= |j.content|
    && var n := Min(j.chunkSize, |j.content| - s.offset);
       var failed := j.broken && n < j.chunkSize;
       u == if n == 0 then s.(pc := AfterChunk(j, 0, failed))
            else s.(pc := Launching(j.content[s.offset..s.offset + n], failed), offset := s.offset + n,
              next := s.next + 1, total := s.total + n)
  }

  ghost predicate LaunchStep(j: Job, s: Upload, u: Upload) {
    && s.pc.Launching? && s.next > 0 && |s.inflight| < j.workers
    && u == s.(pc := AfterChunk(j, |s.pc.chunk|, s.pc.failed), inflight := s.inflight[s.next - 1 := s.pc.chunk])
  }

  /** The context is cancelled before a worker slot is free. */
  ghost predicate GiveUpStep(s: Upload, u: Upload) {
    s.pc.Launching? && (s.workerFailed || s.cancelled) && u == s.(pc := Draining(true))
  }

  /** A worker's message is sent and its part recorded. */
  ghost predicate FinishStep(j: Job, s: Upload, n: nat, message: int, id: string, u: Upload) {
    && n in s.inflight && message !in s.messages
    && u == s.(inflight := s.inflight - {n},
               parts := s.parts + [FilePart(id, n, message, |s.inflight[n]|, j.channel)],
               messages := s.messages[message := s.inflight[n]])
  }

  /** A worker reports an error; its message may be in the channel all the same. */
  ghost predicate FaultStep(s: Upload, n: nat, orphan: Option<int>, u: Upload) {
    && n in s.inflight && (orphan.Some? ==> orphan.value !in s.messages)
    && u == s.(inflight := s.inflight - {n}, workerFailed := true,
               messages := if orphan.Some? then s.messages[orphan.value := s.inflight[n]] else s.messages)
  }

  ghost predicate DrainedStep(s: Upload, u: Upload) {
    && s.pc.Draining? && s.inflight == map[]
    && u == s.(pc := if s.pc.bad || s.workerFailed || s.total == 0 then Persisting else SavingParts)
  }

  ghost predicate SavePartsStep(s: Upload, saved: bool, rows: seq<FilePart>, u: Upload) {
    && s.pc == SavingParts && ByNumber(rows) && multiset(rows) == multiset(s.parts)
    && u == if saved then s.(pc := Sizing, listed := rows) else s.(pc := Persisting)
  }

  ghost predicate SaveSizeStep(j: Job, s: Upload, saved: bool, u: Upload) {
    s.pc == Sizing && u == if saved then s.(pc := if j.dedup then Readying else Succeeded, size := s.total)
      else s.(pc := Persisting)
  }

  ghost predicate MakeReadyStep(s: Upload, saved: bool, u: Upload) {
    s.pc == Readying && u == if saved then s.(pc := Succeeded, status := Ready) else s.(pc := Persisting)
  }

  ghost predicate PersistStep(s: Upload, saved: bool, u: Upload) {
    s.pc == Persisting && u == if saved then s.(pc := Deleting, listed := s.parts)
      else s.(pc := Deleting, persistFailed := true)
  }

  /** A deletion that fails may have deleted some of the messages. */
  ghost predicate DeleteStep(s: Upload, deleted: bool, gone: set<int>, u: Upload) {
    && s.pc == Deleting && gone <= MessageIds(s.parts) && (deleted ==> gone == MessageIds(s.parts))
    && u == s.(messages := s.messages - gone, pc := if deleted then Unlisting else Failed, deleteFailed := !deleted)
  }

  ghost predicate UnlistStep(s: Upload, saved: bool, u: Upload) {
    s.pc == Unlisting && u == if saved then s.(pc := Dropping, listed := []) else s.(pc := Failed)
  }

  ghost predicate DropStep(s: Upload, saved: bool, u: Upload) {
    s.pc == Dropping && u == s.(pc := Failed, status := if saved then Deleted else s.status)
  }

  ghost predicate Next(j: Job, s: Upload, a: Action, u: Upload) {
    match a
    case Read => ReadStep(j, s, u)
    case Launch => LaunchStep(j, s, u)
    case GiveUp => GiveUpStep(s, u)
    case Finish(n, message, id) => FinishStep(j, s, n, message, id, u)
    case Fault(n, orphan) => FaultStep(s, n, orphan, u)
    case Cancel => u == s.(cancelled := true)
    case Drained => DrainedStep(s, u)
    case SaveParts(saved, rows) => SavePartsStep(s, saved, rows, u)
    case SaveSize(saved) => SaveSizeStep(j, s, saved, u)
    case MakeReady(saved) => MakeReadyStep(s, saved, u)
    case Persist(saved) => PersistStep(s, saved, u)
    case Delete(deleted, gone) => DeleteStep(s, deleted, gone, u)
    case Unlist(saved) => UnlistStep(s, saved, u)
    case Drop(saved) => DropStep(s, saved, u)
  }

  // ---- the invariant ----

  /** Parts handed to a worker so far. */
  function Launched(s: Upload): nat {
    if s.pc.Launching? && s.next > 0 then s.next - 1 else s.next
  }

  /** Where part `n` begins. */
  function Edge(j: Job, n: nat): nat {
    n * j.chunkSize
  }

  /** The reader has read whole chunks from the front. */
  ghost predicate ReadSoFar(j: Job, s: Upload) {
    && s.offset == Min(Edge(j, s.next), |j.content|) && s.total == s.offset
    && (s.pc == Reading ==> s.offset == Edge(j, s.next))
    && (s.pc.Launching? ==> s.next > 0 && s.pc.chunk != [] && s.pc.chunk == Chunk(j.content, j.chunkSize, s.next - 1) &&
                            s.pc.failed == (j.broken && |s.pc.chunk| < j.chunkSize))
    && (s.next > 0 ==> Edge(j, s.next - 1) < |j.content|)
  }

  /** Each started part is its own chunk, in one place only. */
  ghost predicate PartsSoFar(j: Job, s: Upload) {
    && (forall n | n in s.inflight :: n < Launched(s) && s.inflight[n] == Chunk(j.content, j.chunkSize, n))
    && (forall p | p in s.parts :: 0 <= p.partNo < Launched(s) && p.partNo !in s.inflight &&
                                   p.size == |Chunk(j.content, j.chunkSize, p.partNo)| && p.channel == j.channel)
    && (forall a, b | 0 <= a < b < |s.parts| :: s.parts[a].partNo != s.parts[b].partNo)
  }

  ghost predicate Clean(s: Upload) {
    !s.workerFailed && !(s.pc == Draining(true)) && !RollingBack(s.pc)
  }

  /** As long as nothing failed, every started part is in flight or finished. */
  ghost predicate NoneLost(s: Upload) {
    Clean(s) ==> forall n: nat | n < Launched(s) :: n in s.inflight || n in Numbers(s.parts)
  }

  /** The rollback, up to its end. */
  predicate RollingBack(pc: Pc) {
    pc.Persisting? || pc.Deleting? || pc.Unlisting? || pc.Dropping? || pc.Failed?
  }

  predicate Finishing(pc: Pc) {
    pc.SavingParts? || pc.Sizing? || pc.Readying? || pc.Succeeded?
  }

  ghost predicate Stored(j: Job, s: Upload) {
    forall p | p in s.parts && p.partNo >= 0 ::
      p.messageId in s.messages && s.messages[p.messageId] == Chunk(j.content, j.chunkSize, p.partNo)
  }

  ghost predicate Removed(s: Upload) {
    forall p | p in s.parts :: p.messageId !in s.messages
  }

  /** A recorded message is deleted, or still listed, unless recording and deleting both failed. */
  ghost predicate Recoverable(s: Upload) {
    forall p | p in s.parts :: p.messageId !in s.messages || p in s.listed || (s.persistFailed && s.deleteFailed)
  }

  ghost predicate Phases(j: Job, s: Upload) {
    && (s.pc == Draining(false) ==> s.offset == |j.content| && !j.broken)
    && (Finishing(s.pc) ==>
          s.inflight == map[] && !s.workerFailed && s.offset == |j.content| && !j.broken && j.content != [])
    && (RollingBack(s.pc) ==> s.inflight == map[])
    && (s.pc.Sizing? || s.pc.Readying? || s.pc.Succeeded? ==>
      ByNumber(s.listed) && multiset(s.listed) == multiset(s.parts))
    && (s.pc.Readying? || s.pc.Succeeded? ==> s.size == s.total)
    && (s.pc.Readying? ==> j.dedup) && (s.status == Ready <==> s.pc.Succeeded? && j.dedup)
    && (s.status == Deleted ==> s.pc.Failed?)
    && (s.pc.Deleting? ==> s.persistFailed || s.listed == s.parts)
    && (s.pc.Failed? ==> Recoverable(s))
    && (s.pc.Unlisting? || s.pc.Dropping? ==> Removed(s))
    && (!s.pc.Unlisting? && !s.pc.Dropping? && !s.pc.Failed? ==> Stored(j, s))
  }

  ghost predicate Inv(j: Job, s: Upload) {
    |s.inflight| <= j.workers && ReadSoFar(j, s) && PartsSoFar(j, s) && NoneLost(s) && Phases(j, s)
  }

  // ---- each action keeps it ----

  lemma ReadKeeps(j: Job, s: Upload, u: Upload)
    requires ValidJob(j) && Inv(j, s) && ReadStep(j, s, u)
    ensures Inv(j, u) && u.parts == s.parts
  {
    hide Chunk, ByNumber, ReadSoFar, PartsSoFar, Phases, NoneLost;
    ReadKeepsReading(j, s, u);
    ReadKeepsParts(j, s, u);
    ReadKeepsPhases(j, s, u);
  }

  lemma ReadKeepsReading(j: Job, s: Upload, u: Upload)
    requires ValidJob(j) && ReadSoFar(j, s) && ReadStep(j, s, u)
    ensures ReadSoFar(j, u)
  {
    hide Chunk, Edge, ReadSoFar;
    var n := Min(j.chunkSize, |j.content| - s.offset);
    if n == 0 {
      ReadNone(j, s, u);
    } else {
      ReadSome(j, s, n, u);
    }
  }

  lemma ReadNone(j: Job, s: Upload, u: Upload)
    requires ReadSoFar(j, s) && s.pc == Reading && u == s.(pc := AfterChunk(j, 0, u.pc.Draining? && u.pc.bad))
    ensures ReadSoFar(j, u) || u.pc == Reading
  {
    hide Chunk, Edge;
  }

  lemma ReadSome(j: Job, s: Upload, n: nat, u: Upload)
    requires ValidJob(j) && ReadSoFar(j, s) && s.pc == Reading
    requires n > 0 && n == Min(j.chunkSize, |j.content| - s.offset)
    requires u.pc == Launching(j.content[s.offset..s.offset + n], j.broken && n < j.chunkSize)
    requires u.offset == s.offset + n && u.next == s.next + 1 && u.total == s.total + n
    ensures ReadSoFar(j, u)
  {
    hide Chunk, Edge;
    NextChunk(j, s.next);
    assert u.next - 1 == s.next;
  }

  lemma NextChunk(j: Job, n: nat)
    requires ValidJob(j) && Edge(j, n) <= |j.content|
    ensures var k := Min(j.chunkSize, |j.content| - Edge(j, n));
      && Edge(j, n) + k == Min(Edge(j, n + 1), |j.content|)
      && j.content[Edge(j, n)..Edge(j, n) + k] == Chunk(j.content, j.chunkSize, n)
  {
    assert (n + 1) * j.chunkSize == n * j.chunkSize + j.chunkSize;
  }

  lemma ReadKeepsParts(j: Job, s: Upload, u: Upload)
    requires ReadStep(j, s, u) && PartsSoFar(j, s) && NoneLost(s)
    ensures PartsSoFar(j, u) && NoneLost(u)
  {
    hide Chunk, Numbers, Min, PartsSoFar, NoneLost;
    var n := Min(j.chunkSize, |j.content| - s.offset);
    if n == 0 {
      assert u.inflight == s.inflight && u.parts == s.parts;
    } else {
      assert u.inflight == s.inflight && u.parts == s.parts;
    }
    PartsStay(j, s, u);
  }

  lemma PartsStay(j: Job, s: Upload, u: Upload)
    requires Launched(u) == Launched(s) && u.parts == s.parts && u.inflight == s.inflight
    requires PartsSoFar(j, s) && NoneLost(s) && (Clean(u) ==> Clean(s))
    ensures PartsSoFar(j, u) && NoneLost(u)
  {
    hide Chunk, Launched, Clean;
  }

  lemma ReadKeepsPhases(j: Job, s: Upload, u: Upload)
    requires ValidJob(j) && ReadStep(j, s, u) && Phases(j, s)
    ensures Phases(j, u)
  {
    hide Chunk, ByNumber, Stored, Recoverable, Removed;
    assert s.parts == u.parts && s.messages == u.messages && s.status == u.status;
    SameStored(j, s, u);
    if u.pc.Launching? {
      assert Phases(j, u);
    } else {
      assert u == s.(pc := Draining(j.broken));
    }
  }

  lemma SameStored(j: Job, s: Upload, u: Upload)
    requires s.parts == u.parts && s.messages == u.messages
    ensures Stored(j, s) <==> Stored(j, u)
    ensures Removed(s) <==> Removed(u)
  {
    hide Chunk;
  }

  lemma LaunchKeeps(j: Job, s: Upload, u: Upload)
    requires ValidJob(j) && Inv(j, s) && LaunchStep(j, s, u)
    ensures Inv(j, u) && u.parts == s.parts
  {
    hide Chunk, ByNumber, ReadSoFar, PartsSoFar, Phases, NoneLost;
    LaunchReading(j, s, u);
    LaunchParts(j, s, u);
    LaunchPhases(j, s, u);
    assert |u.inflight| <= |s.inflight| + 1;
  }

  lemma LaunchReading(j: Job, s: Upload, u: Upload)
    requires ValidJob(j) && ReadSoFar(j, s) && LaunchStep(j, s, u)
    ensures ReadSoFar(j, u)
  {
    hide Chunk, Edge;
    ShortIsLast(j, s);
  }

  lemma LaunchParts(j: Job, s: Upload, u: Upload)
    requires ReadSoFar(j, s) && LaunchStep(j, s, u) && PartsSoFar(j, s) && NoneLost(s)
    ensures PartsSoFar(j, u) && NoneLost(u)
  {
    hide Chunk, Numbers;
    assert Launched(u) == Launched(s) + 1 && u.parts == s.parts;
    assert Clean(u) ==> Clean(s);
    assert forall n | n in u.inflight :: n in s.inflight || n == s.next - 1;
  }

  lemma LaunchPhases(j: Job, s: Upload, u: Upload)
    requires ValidJob(j) && ReadSoFar(j, s) && LaunchStep(j, s, u) && Phases(j, s)
    ensures Phases(j, u)
  {
    hide Chunk, ByNumber, Stored, Recoverable, Removed;
    ShortIsLast(j, s);
    SameStored(j, s, u);
  }

  /** A short chunk ends the content. */
  lemma ShortIsLast(j: Job, s: Upload)
    requires ValidJob(j) && ReadSoFar(j, s) && s.pc.Launching?
    ensures |s.pc.chunk| < j.chunkSize ==> s.offset == |j.content|
    ensures |s.pc.chunk| >= j.chunkSize ==> |s.pc.chunk| == j.chunkSize && s.offset == Edge(j, s.next)
  {
    var n := s.next - 1;
    assert s.next * j.chunkSize == n * j.chunkSize + j.chunkSize;
  }

  lemma FinishKeeps(j: Job, s: Upload, n: nat, message: int, id: string, u: Upload)
    requires ValidJob(j) && Inv(j, s) && FinishStep(j, s, n, message, id, u)
    ensures Inv(j, u)
  {
    hide Chunk, ByNumber, PartsSoFar, Phases, NoneLost;
    FewerInFlight(s.inflight, n);
    FinishParts(j, s, n, message, id, u);
    FinishLosesNone(j, s, n, message, id, u);
    FinishPhases(j, s, n, message, id, u);
  }

  lemma FinishLosesNone(j: Job, s: Upload, n: nat, message: int, id: string, u: Upload)
    requires NoneLost(s) && FinishStep(j, s, n, message, id, u)
    ensures NoneLost(u)
  {
    var p := u.parts[|s.parts|];
    assert p in u.parts && p.partNo == n;
    forall k | k in Numbers(s.parts) ensures k in Numbers(u.parts) {
      var q :| q in s.parts && q.partNo == k;
      assert q in u.parts;
    }
  }

  lemma FinishPhases(j: Job, s: Upload, n: nat, message: int, id: string, u: Upload)
    requires Phases(j, s) && PartsSoFar(j, s) && FinishStep(j, s, n, message, id, u)
    ensures Phases(j, u)
  {
    hide Chunk, ByNumber, Recoverable, Removed, Stored;
    assert !Finishing(s.pc) && !RollingBack(s.pc);
    FinishStored(j, s, n, message, id, u);
  }

  lemma FinishStored(j: Job, s: Upload, n: nat, message: int, id: string, u: Upload)
    requires Stored(j, s) && PartsSoFar(j, s) && FinishStep(j, s, n, message, id, u)
    ensures Stored(j, u)
  {
    hide Chunk;
    assert forall q | q in u.parts :: q in s.parts || q == u.parts[|s.parts|];
  }

  lemma FewerInFlight(m: map<nat, ByteString>, n: nat)
    requires n in m
    ensures |m - {n}| == |m| - 1
  {
    assert (m - {n}).Keys == m.Keys - {n};
    assert |m.Keys| == |m| && |(m - {n}).Keys| == |m - {n}|;
  }

  lemma FinishParts(j: Job, s: Upload, n: nat, message: int, id: string, u: Upload)
    requires PartsSoFar(j, s) && FinishStep(j, s, n, message, id, u)
    ensures PartsSoFar(j, u)
  {
    hide Chunk;
    assert forall q | q in u.parts :: q in s.parts || q == u.parts[|s.parts|];
    forall a, b | 0 <= a < b < |u.parts| ensures u.parts[a].partNo != u.parts[b].partNo {
      assert u.parts[a] == s.parts[a] && s.parts[a] in s.parts;
      if b < |s.parts| { assert u.parts[b] == s.parts[b]; }
    }
  }

  lemma FaultKeeps(j: Job, s: Upload, n: nat, orphan: Option<int>, u: Upload)
    requires ValidJob(j) && Inv(j, s) && FaultStep(s, n, orphan, u)
    ensures Inv(j, u) && u.parts == s.parts
  {
    hide Chunk, ByNumber, Recoverable, Removed;
    FewerInFlight(s.inflight, n);
    assert !Finishing(s.pc) && !RollingBack(s.pc);
  }

  lemma DrainedKeeps(j: Job, s: Upload, u: Upload)
    requires ValidJob(j) && Inv(j, s) && DrainedStep(s, u)
    ensures Inv(j, u) && u.parts == s.parts
  {
    hide Chunk, ByNumber, Stored, Recoverable, Removed;
    SameStored(j, s, u);
  }

  /** The steps after the workers are done leave what they did alone. */
  ghost predicate SameWork(s: Upload, u: Upload) {
    && u.offset == s.offset && u.next == s.next && u.total == s.total && u.inflight == s.inflight
    && u.parts == s.parts && u.workerFailed == s.workerFailed
    && !s.pc.Launching? && !u.pc.Launching? && !u.pc.Reading? && !u.pc.Draining? && !s.pc.Reading? && !s.pc.Draining?
    && (RollingBack(s.pc) ==> RollingBack(u.pc))
  }

  lemma SameWorkKeeps(j: Job, s: Upload, u: Upload)
    requires SameWork(s, u) && ReadSoFar(j, s) && PartsSoFar(j, s) && NoneLost(s)
    ensures ReadSoFar(j, u) && PartsSoFar(j, u) && NoneLost(u)
  {
    hide Chunk;
  }

  lemma PersistKeeps(j: Job, s: Upload, saved: bool, u: Upload)
    requires Inv(j, s) && PersistStep(s, saved, u)
    ensures Inv(j, u) && u.parts == s.parts
  {
    hide Chunk, ByNumber, ReadSoFar, PartsSoFar, NoneLost, Recoverable, Removed, Stored;
    SameWorkKeeps(j, s, u);
    SameStored(j, s, u);
  }

  lemma DeleteKeeps(j: Job, s: Upload, deleted: bool, gone: set<int>, u: Upload)
    requires Inv(j, s) && DeleteStep(s, deleted, gone, u)
    ensures Inv(j, u) && u.parts == s.parts
  {
    hide Chunk, ByNumber, ReadSoFar, PartsSoFar, NoneLost, Stored;
    SameWorkKeeps(j, s, u);
    assert forall p | p in s.parts :: p.messageId in MessageIds(s.parts);
  }

  lemma UnlistKeeps(j: Job, s: Upload, saved: bool, u: Upload)
    requires Inv(j, s) && UnlistStep(s, saved, u)
    ensures Inv(j, u) && u.parts == s.parts
  {
    hide Chunk, ByNumber, ReadSoFar, PartsSoFar, NoneLost, Stored;
    SameWorkKeeps(j, s, u);
  }

  lemma DropKeeps(j: Job, s: Upload, saved: bool, u: Upload)
    requires Inv(j, s) && DropStep(s, saved, u)
    ensures Inv(j, u) && u.parts == s.parts
  {
    hide Chunk, ByNumber, ReadSoFar, PartsSoFar, NoneLost, Stored;
    SameWorkKeeps(j, s, u);
  }

  lemma SavePartsKeeps(j: Job, s: Upload, saved: bool, rows: seq<FilePart>, u: Upload)
    requires Inv(j, s) && SavePartsStep(s, saved, rows, u)
    ensures Inv(j, u) && u.parts == s.parts
  {
    hide Chunk, ByNumber, ReadSoFar, PartsSoFar, NoneLost, Stored, Recoverable, Removed;
    SameWorkKeeps(j, s, u);
    SameStored(j, s, u);
  }

  lemma SaveSizeKeeps(j: Job, s: Upload, saved: bool, u: Upload)
    requires Inv(j, s) && SaveSizeStep(j, s, saved, u)
    ensures Inv(j, u) && u.parts == s.parts
  {
    hide Chunk, ByNumber, ReadSoFar, PartsSoFar, NoneLost, Stored, Recoverable, Removed;
    SameWorkKeeps(j, s, u);
    SameStored(j, s, u);
  }

  lemma MakeReadyKeeps(j: Job, s: Upload, saved: bool, u: Upload)
    requires Inv(j, s) && MakeReadyStep(s, saved, u)
    ensures Inv(j, u) && u.parts == s.parts
  {
    hide Chunk, ByNumber, ReadSoFar, PartsSoFar, NoneLost, Stored, Recoverable, Removed;
    SameWorkKeeps(j, s, u);
    SameStored(j, s, u);
  }

  lemma CancelKeeps(j: Job, s: Upload, u: Upload)
    requires Inv(j, s) && u == s.(cancelled := true)
    ensures Inv(j, u) && u.parts == s.parts
  {
    hide Chunk, ByNumber, Stored, Removed;
    SameStored(j, s, u);
    assert Launched(u) == Launched(s) && (Recoverable(s) <==> Recoverable(u));
  }

  lemma GiveUpKeeps(j: Job, s: Upload, u: Upload)
    requires Inv(j, s) && GiveUpStep(s, u)
    ensures Inv(j, u) && u.parts == s.parts
  {
    hide Chunk, ByNumber, Stored, Removed, Recoverable;
    SameStored(j, s, u);
    assert Launched(u) == Launched(s) + 1;
  }

  lemma StepKeeps(j: Job, s: Upload, a: Action, u: Upload)
    requires ValidJob(j) && Inv(j, s) && Next(j, s, a, u)
    ensures Inv(j, u) && (!a.Finish? ==> u.parts == s.parts)
  {
    hide Inv, ReadStep, LaunchStep, GiveUpStep, FinishStep, FaultStep, DrainedStep, SavePartsStep, SaveSizeStep,
      MakeReadyStep;
    hide PersistStep, DeleteStep, UnlistStep, DropStep;
    match a
    case Read => ReadKeeps(j, s, u);
    case Launch => LaunchKeeps(j, s, u);
    case Finish(n, message, id) => FinishKeeps(j, s, n, message, id, u);
    case Fault(n, orphan) => FaultKeeps(j, s, n, orphan, u);
    case Drained => DrainedKeeps(j, s, u);
    case Cancel => CancelKeeps(j, s, u);
    case GiveUp => GiveUpKeeps(j, s, u);
    case SaveParts(saved, rows) => SavePartsKeeps(j, s, saved, rows, u);
    case SaveSize(saved) => SaveSizeKeeps(j, s, saved, u);
    case MakeReady(saved) => MakeReadyKeeps(j, s, saved, u);
    case Persist(saved) => PersistKeeps(j, s, saved, u);
    case Delete(deleted, gone) => DeleteKeeps(j, s, deleted, gone, u);
    case Unlist(saved) => UnlistKeeps(j, s, saved, u);
    case Drop(saved) => DropKeeps(j, s, saved, u);
  }

  // ---- runs ----

  ghost predicate IsRun(j: Job, states: seq<Upload>, actions: seq<Action>) {
    && ValidJob(j) && |states| == |actions| + 1 && states[0] == Begin(states[0].messages)
    && forall i | 0 <= i < |actions| :: Next(j, states[i], actions[i], states[i + 1])
  }

  lemma {:induction false} RunKeeps(j: Job, states: seq<Upload>, actions: seq<Action>, i: nat)
    requires IsRun(j, states, actions) && i < |states|
    ensures Inv(j, states[i])
  {
    if i > 0 {
      hide Inv, Next;
      RunKeeps(j, states, actions, i - 1);
      assert Next(j, states[i - 1], actions[i - 1], states[i - 1 + 1]);
      StepKeeps(j, states[i - 1], actions[i - 1], states[i]);
    } else {
      hide Next;
      assert states[0].parts == [];
    }
  }

  // ---- success ----

  /** Strictly increasing numbers that fill 0..n-1 are 0, 1, ..., n-1. */
  lemma {:induction false} Consecutive(ps: seq<FilePart>, n: nat)
    requires forall a, b | 0 <= a < b < |ps| :: ps[a].partNo < ps[b].partNo
    requires forall k :: k in Numbers(ps) <==> 0 <= k < n
    ensures |ps| == n && forall k | 0 <= k < n :: ps[k].partNo == k
    decreases n
  {
    assert ps != [] ==> ps[0] in ps && ps[0].partNo in Numbers(ps);
    if n > 0 {
      assert n - 1 in Numbers(ps);
      var p :| p in ps && p.partNo == n - 1;
      var m :| 0 <= m < |ps| && ps[m] == p;
      var last := |ps| - 1;
      assert ps[last] in ps;
      assert ps[last].partNo in Numbers(ps);
      assert m == last;
      forall k ensures k in Numbers(ps[..last]) <==> 0 <= k < n - 1 {
        AllButLast(ps, k);
      }
      Consecutive(ps[..last], n - 1);
    }
  }

  lemma AllButLast(ps: seq<FilePart>, k: int)
    requires ps != [] && forall a, b | 0 <= a < b < |ps| :: ps[a].partNo < ps[b].partNo
    ensures k in Numbers(ps[..|ps| - 1]) <==> k in Numbers(ps) && k < ps[|ps| - 1].partNo
  {
    var last := |ps| - 1;
    if k in Numbers(ps[..last]) {
      var q :| q in ps[..last] && q.partNo == k;
      var m :| 0 <= m < last && ps[m] == q;
      assert ps[m] in ps;
    }
    if k in Numbers(ps) && k < ps[last].partNo {
      var q :| q in ps && q.partNo == k;
      var m :| 0 <= m < |ps| && ps[m] == q;
      assert ps[..last][m] == q;
    }
  }

  /** The bytes behind the listed parts, in the order of the part table. */
  function Downloaded(messages: map<int, ByteString>, ps: seq<FilePart>): seq<ByteString>
    requires forall p | p in ps :: p.messageId in messages
  {
    seq(|ps|, i requires 0 <= i < |ps| => messages[ps[i].messageId])
  }

  /** A successful upload lists parts 0..n-1, cut as `SplitChunks` cuts the stream,
      whose messages hold the stream; the node has its size, and is ready unless the
      gateway still has to publish it. */
  lemma SuccessHoldsStream(j: Job, states: seq<Upload>, actions: seq<Action>, i: nat)
    requires IsRun(j, states, actions) && i < |states| && states[i].pc == Succeeded
    ensures var s := states[i];
      && !j.broken && j.content != []
      && |s.listed| == ChunkCount(|j.content|, j.chunkSize)
      && (forall k | 0 <= k < |s.listed| :: s.listed[k].partNo == k && s.listed[k].channel == j.channel)
      && (forall p | p in s.listed :: p.messageId in s.messages && p.size == |s.messages[p.messageId]|)
      && Downloaded(s.messages, s.listed) == FirstChunks(j.content, j.chunkSize, |s.listed|)
      && Regular(Downloaded(s.messages, s.listed), j.chunkSize)
      && Flatten(Downloaded(s.messages, s.listed)) == j.content
      && s.size == |j.content|
      && s.status == (if j.dedup then Ready else Pending)
  {
    hide Next, Chunk, Regular, Flatten;
    var s := states[i];
    RunKeeps(j, states, actions, i);
    ListedNumbers(j, s);
    var n := |s.listed|;
    forall p | p in s.listed ensures p in s.parts {
      assert p in multiset(s.listed);
    }
    forall k | 0 <= k < n ensures Downloaded(s.messages, s.listed)[k] == Chunk(j.content, j.chunkSize, k) {
      assert s.listed[k] in s.listed;
    }
    assert Downloaded(s.messages, s.listed) == FirstChunks(j.content, j.chunkSize, n);
    WholeStream(j, s, n);
  }

  lemma WholeStream(j: Job, s: Upload, n: nat)
    requires ValidJob(j) && ReadSoFar(j, s) && n == s.next && s.offset == |j.content| && j.content != []
    ensures n == ChunkCount(|j.content|, j.chunkSize)
    ensures Flatten(FirstChunks(j.content, j.chunkSize, n)) == j.content &&
      Regular(FirstChunks(j.content, j.chunkSize, n), j.chunkSize)
  {
    hide Flatten, Chunk;
    CountIs(|j.content|, j.chunkSize, n);
    ChunkLengths(j.content, j.chunkSize, n);
    FirstChunksFlatten(j.content, j.chunkSize, n);
    assert j.content[..|j.content|] == j.content;
  }

  lemma ListedNumbers(j: Job, s: Upload)
    requires Inv(j, s) && s.pc == Succeeded
    ensures |s.listed| == s.next && forall k | 0 <= k < |s.listed| :: s.listed[k].partNo == k
  {
    hide Chunk, ReadSoFar;
    DistinctListed(j, s);
    forall k ensures k in Numbers(s.listed) <==> 0 <= k < s.next {
      if 0 <= k < s.next {
        var n: nat := k;
        assert n in Numbers(s.parts);
        var p :| p in s.parts && p.partNo == k;
        assert p in multiset(s.parts);
        assert p in s.listed;
      }
      if k in Numbers(s.listed) {
        var p :| p in s.listed && p.partNo == k;
        assert p in multiset(s.listed);
        assert p in s.parts;
      }
    }
    Consecutive(s.listed, s.next);
  }

  lemma DistinctListed(j: Job, s: Upload)
    requires PartsSoFar(j, s) && ByNumber(s.listed) && multiset(s.listed) == multiset(s.parts)
    ensures forall a, b | 0 <= a < b < |s.listed| :: s.listed[a].partNo < s.listed[b].partNo
  {
    forall a, b | 0 <= a < b < |s.listed| ensures s.listed[a].partNo < s.listed[b].partNo {
      if s.listed[a].partNo == s.listed[b].partNo {
        var p, q := s.listed[a], s.listed[b];
        assert p in multiset(s.listed) && q in multiset(s.listed);
        var x :| 0 <= x < |s.parts| && s.parts[x] == p;
        var y :| 0 <= y < |s.parts| && s.parts[y] == q;
        assert x == y;
        Twice(s.listed, a, b);
        Once(s.parts, x);
      }
    }
  }

  lemma Twice(ps: seq<FilePart>, a: nat, b: nat)
    requires a < b < |ps| && ps[a] == ps[b]
    ensures multiset(ps)[ps[a]] >= 2
  {
    var x := ps[a];
    assert ps == ps[..a] + [x] + ps[a + 1..b] + [x] + ps[b + 1..];
    assert multiset(ps) ==
      multiset(ps[..a]) + multiset{x} + multiset(ps[a + 1..b]) + multiset{x} + multiset(ps[b + 1..]);
  }

  lemma Once(ps: seq<FilePart>, a: nat)
    requires a < |ps| && forall x, y | 0 <= x < y < |ps| :: ps[x].partNo != ps[y].partNo
    ensures multiset(ps)[ps[a]] == 1
  {
    var x := ps[a];
    assert ps == ps[..a] + [x] + ps[a + 1..];
    assert multiset(ps) == multiset(ps[..a]) + multiset{x} + multiset(ps[a + 1..]);
    assert x !in ps[..a] && x !in ps[a + 1..];
  }

  // ---- failure ----

  /** At most `workers` uploads at a time; once the rollback starts no worker runs,
      so none can add a message behind its back; the node is ready only in success. */
  lemma RunIsBounded(j: Job, states: seq<Upload>, actions: seq<Action>, i: nat)
    requires IsRun(j, states, actions) && i < |states|
    ensures |states[i].inflight| <= j.workers
    ensures RollingBack(states[i].pc) || Finishing(states[i].pc) ==> states[i].inflight == map[]
    ensures i < |actions| && (RollingBack(states[i].pc) || Finishing(states[i].pc)) ==>
      !actions[i].Finish? && !actions[i].Fault?
    ensures states[i].status == Ready ==> states[i].pc == Succeeded
  {
    hide Chunk, ByNumber;
    RunKeeps(j, states, actions, i);
    if i < |actions| {
      assert Next(j, states[i], actions[i], states[i + 1]);
    }
  }

  /** A failed upload leaves each message it sent deleted, or still listed, unless
      recording the rollback and the remote deletion both failed; and its node is not ready. */
  lemma FailureIsRecoverable(j: Job, states: seq<Upload>, actions: seq<Action>, i: nat)
    requires IsRun(j, states, actions) && i < |states| && states[i].pc == Failed
    ensures states[i].status != Ready
    ensures forall p | p in states[i].parts ::
              p.messageId !in states[i].messages || p in states[i].listed ||
                (states[i].persistFailed && states[i].deleteFailed)
  {
    hide Chunk, ByNumber;
    RunKeeps(j, states, actions, i);
  }

  /** The parts reported by the workers, in the order they finished. */
  function Reported(actions: seq<Action>): seq<(nat, int)> {
    if actions == [] then []
    else
      var a := actions[|actions| - 1];
      Reported(actions[..|actions| - 1]) + (if a.Finish? then [(a.partNo, a.message)] else [])
  }

  function Recorded(ps: seq<FilePart>): seq<(int, int)> {
    seq(|ps|, i requires 0 <= i < |ps| => (ps[i].partNo, ps[i].messageId))
  }

  /** What a rollback records and deletes are exactly the parts that were uploaded. */
  lemma {:induction false} RollbackCovers(j: Job, states: seq<Upload>, actions: seq<Action>, i: nat)
    requires IsRun(j, states, actions) && i < |states|
    ensures Recorded(states[i].parts) == Reported(actions[..i])
    decreases i
  {
    if i > 0 {
      hide Next, Recorded;
      RollbackCovers(j, states, actions, i - 1);
      assert Next(j, states[i - 1], actions[i - 1], states[i - 1 + 1]);
      RunKeeps(j, states, actions, i - 1);
      RecordedStep(j, states[i - 1], actions[i - 1], states[i]);
      assert actions[..i][..i - 1] == actions[..i - 1];
    } else {
      assert states[0].parts == [] by { hide Next; }
    }
  }

  lemma RecordedStep(j: Job, s: Upload, a: Action, u: Upload)
    requires ValidJob(j) && Inv(j, s) && Next(j, s, a, u)
    ensures Recorded(u.parts) == Recorded(s.parts) + (if a.Finish? then [(a.partNo, a.message)] else [])
  {
    if a.Finish? {
      hide Inv;
      assert FinishStep(j, s, a.partNo, a.message, a.id, u);
    } else {
      hide Inv, Next;
      StepKeeps(j, s, a, u);
    }
  }
}
