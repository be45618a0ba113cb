/** An upload without faults succeeds, and every upload ends: the steps of the upload
    never get stuck, and each but a cancellation uses up something. */
module UploadProgress {
  import opened Wrappers
  import opened Bytes
  import opened Nodes
  import opened Stores
  import opened Chunks
  import opened Uploads

  predicate Final(s: Upload) {
    s.pc == Succeeded || s.pc == Failed
  }

  /** No worker fails, nobody cancels, and every database call works. */
  predicate Faultless(a: Action) {
    match a
    case Fault(_, _) => false
    case Cancel => false
    case SaveParts(saved, _) => saved
    case SaveSize(saved) => saved
    case MakeReady(saved) => saved
    case _ => true
  }

  // ---- no fault, no failure ----

  ghost predicate Quiet(s: Upload) {
    !s.workerFailed && !s.cancelled && s.pc != Draining(true) && !RollingBack(s.pc)
  }

  lemma QuietStep(j: Job, s: Upload, a: Action, u: Upload)
    requires ValidJob(j) && Inv(j, s) && Quiet(s) && Next(j, s, a, u) && Faultless(a)
    requires !j.broken && j.content != []
    ensures Quiet(u)
  {
    hide Chunk, ByNumber, PartsSoFar, NoneLost, Edge, MessageIds;
  }

  /** Of a whole stream with bytes in it, an upload whose calls all work never drains as
      failed and never rolls back. */
  lemma {:induction false} FaultlessNeverFails(j: Job, states: seq<Upload>, actions: seq<Action>, i: nat)
    requires IsRun(j, states, actions) && i < |states|
    requires !j.broken && j.content != [] && forall k | 0 <= k < i :: Faultless(actions[k])
    ensures !RollingBack(states[i].pc) && states[i].pc != Draining(true)
    ensures !states[i].workerFailed && !states[i].cancelled
    decreases i
  {
    hide Next, Inv;
    if i > 0 {
      FaultlessNeverFails(j, states, actions, i - 1);
      RunKeeps(j, states, actions, i - 1);
      assert Next(j, states[i - 1], actions[i - 1], states[i - 1 + 1]);
      QuietStep(j, states[i - 1], actions[i - 1], states[i]);
    }
  }

  /** A worker that fails, a reader that gives up, and a database call that fails on the
      way all end in a rollback. */
  lemma {:induction false} SuccessHadNoFault(j: Job, states: seq<Upload>, actions: seq<Action>, i: nat, k: nat)
    requires IsRun(j, states, actions) && k < i < |states| && states[i].pc == Succeeded
    ensures Faultless(actions[k]) || actions[k] == Cancel
    ensures !actions[k].GiveUp?
    decreases i
  {
    hide Next, Inv, Faultless;
    if (!Faultless(actions[k]) && actions[k] != Cancel) || actions[k].GiveUp? {
      RunKeeps(j, states, actions, k);
      assert Next(j, states[k], actions[k], states[k + 1]);
      FaultSpoils(j, states[k], actions[k], states[k + 1]);
      StaysSpoilt(j, states, actions, k + 1, i);
      SpoiltFails(j, states, actions, i);
    }
  }

  ghost predicate Spoilt(s: Upload) {
    s.workerFailed || s.pc == Draining(true) || RollingBack(s.pc)
  }

  lemma FaultSpoils(j: Job, s: Upload, a: Action, u: Upload)
    requires Next(j, s, a, u) && ((!Faultless(a) && a != Cancel) || a.GiveUp?)
    ensures Spoilt(u)
  {
    hide ByNumber, MessageIds;
  }

  lemma WorkerStaysFailed(j: Job, s: Upload, a: Action, u: Upload)
    requires Next(j, s, a, u) && s.workerFailed
    ensures u.workerFailed
  {
    hide ReadStep, LaunchStep, GiveUpStep, FinishStep, FaultStep, DrainedStep, ByNumber, MessageIds;
    match a {
      case Read => ReadKeepsFailed(j, s, u);
      case Launch => LaunchKeepsFailed(j, s, u);
      case GiveUp => LaunchKeepsFailed(j, s, u);
      case Drained => LaunchKeepsFailed(j, s, u);
      case Finish(n, message, id) => FinishKeepsFailed(j, s, n, message, id, u);
      case Fault(n, orphan) => FaultFails(s, n, orphan, u);
      case _ =>
    }
  }

  lemma ReadKeepsFailed(j: Job, s: Upload, u: Upload)
    requires ReadStep(j, s, u)
    ensures u.workerFailed == s.workerFailed
  {
    hide Min, AfterChunk;
  }

  lemma LaunchKeepsFailed(j: Job, s: Upload, u: Upload)
    requires LaunchStep(j, s, u) || GiveUpStep(s, u) || DrainedStep(s, u)
    ensures u.workerFailed == s.workerFailed
  {
    hide AfterChunk;
  }

  lemma FinishKeepsFailed(j: Job, s: Upload, n: nat, message: int, id: string, u: Upload)
    requires FinishStep(j, s, n, message, id, u)
    ensures u.workerFailed == s.workerFailed
  {}

  lemma FaultFails(s: Upload, n: nat, orphan: Option<int>, u: Upload)
    requires FaultStep(s, n, orphan, u)
    ensures u.workerFailed
  {}

  lemma StaysBad(j: Job, s: Upload, a: Action, u: Upload)
    requires Next(j, s, a, u) && s.pc == Draining(true)
    ensures u.pc == Draining(true) || RollingBack(u.pc)
  {
    hide ByNumber, MessageIds, Min, AfterChunk;
  }

  lemma StaysInRollback(j: Job, s: Upload, a: Action, u: Upload)
    requires Next(j, s, a, u) && RollingBack(s.pc)
    ensures RollingBack(u.pc)
  {
    hide ByNumber, MessageIds, Min, AfterChunk;
    if a.Finish? || a.Fault? || a.Cancel? {
      assert u.pc == s.pc;
    } else if a.Persist? {
      assert u.pc == Deleting;
    } else if a.Delete? {
      assert u.pc == Unlisting || u.pc == Failed;
    } else if a.Unlist? {
      assert u.pc == Dropping || u.pc == Failed;
    } else if a.Drop? {
      assert u.pc == Failed;
    }
  }

  lemma SpoiltStep(j: Job, s: Upload, a: Action, u: Upload)
    requires Next(j, s, a, u) && Spoilt(s)
    ensures Spoilt(u)
  {
    hide Next, RollingBack;
    if s.workerFailed {
      WorkerStaysFailed(j, s, a, u);
    } else if s.pc == Draining(true) {
      StaysBad(j, s, a, u);
    } else {
      StaysInRollback(j, s, a, u);
    }
  }

  lemma {:induction false} StaysSpoilt(j: Job, states: seq<Upload>, actions: seq<Action>, k: nat, i: nat)
    requires IsRun(j, states, actions) && k <= i < |states| && Spoilt(states[k])
    ensures Spoilt(states[i])
    decreases i
  {
    hide Next, Inv, Spoilt;
    if k < i {
      StaysSpoilt(j, states, actions, k, i - 1);
      RunKeeps(j, states, actions, i - 1);
      assert Next(j, states[i - 1], actions[i - 1], states[i - 1 + 1]);
      SpoiltStep(j, states[i - 1], actions[i - 1], states[i]);
    }
  }

  lemma SpoiltFails(j: Job, states: seq<Upload>, actions: seq<Action>, i: nat)
    requires IsRun(j, states, actions) && i < |states| && Spoilt(states[i])
    ensures states[i].pc != Succeeded
  {
    hide Next, Chunk, ByNumber;
    RunKeeps(j, states, actions, i);
  }

  // ---- every run ends ----

  function Rank(pc: Pc): nat {
    match pc
    case Launching(_, _) => 17
    case Reading => 15
    case Draining(_) => 12
    case SavingParts => 9
    case Sizing => 8
    case Readying => 7
    case Persisting => 5
    case Deleting => 4
    case Unlisting => 3
    case Dropping => 2
    case Succeeded => 0
    case Failed => 0
  }

  /** What is left to do, at most. */
  function Left(j: Job, s: Upload): nat
    requires s.offset <= |j.content|
  {
    3 * (|j.content| - s.offset) + |s.inflight| + Rank(s.pc)
  }

  lemma OffsetFits(j: Job, s: Upload)
    requires Inv(j, s)
    ensures s.offset <= |j.content|
  {
    hide PartsSoFar, NoneLost, Phases;
  }

  lemma FlightLess(m: map<nat, ByteString>, n: nat)
    requires n in m
    ensures |m - {n}| == |m| - 1
  {
    assert (m - {n}).Keys == m.Keys - {n};
    assert |(m - {n}).Keys| == |m - {n}| && |m.Keys| == |m|;
  }

  lemma FlightMore(m: map<nat, ByteString>, n: nat, b: ByteString)
    ensures |m[n := b]| <= |m| + 1
  {
    assert m[n := b].Keys == m.Keys + {n};
    assert |m[n := b].Keys| == |m[n := b]| && |m.Keys| == |m|;
  }

  ghost predicate LeavesLess(j: Job, s: Upload, u: Upload) {
    s.offset <= |j.content| && u.offset <= |j.content| && Left(j, u) < Left(j, s)
  }

  lemma ReadLeavesLess(j: Job, s: Upload, u: Upload)
    requires ValidJob(j) && s.offset <= |j.content| && ReadStep(j, s, u)
    ensures LeavesLess(j, s, u)
  {
    hide Min, Rank;
    Ranks();
    var n := Min(j.chunkSize, |j.content| - s.offset);
    if n == 0 {
      assert u.inflight == s.inflight && u.offset == s.offset;
      assert Rank(u.pc) < Rank(s.pc);
    } else {
      assert u.inflight == s.inflight && u.offset == s.offset + n && u.pc.Launching?;
      MinFits(j.chunkSize, |j.content| - s.offset);
    }
  }

  lemma MinFits(a: nat, b: nat)
    ensures 0 <= Min(a, b) <= b && (Min(a, b) == 0 ==> a == 0 || b == 0)
  {}

  lemma Ranks()
    ensures forall chunk, failed :: Rank(Launching(chunk, failed)) == 17
    ensures forall bad :: Rank(Draining(bad)) == 12
    ensures Rank(Reading) == 15 && Rank(Pc.SavingParts) == 9 && Rank(Sizing) == 8 && Rank(Readying) == 7
    ensures Rank(Persisting) == 5 && Rank(Deleting) == 4 && Rank(Unlisting) == 3 && Rank(Dropping) == 2
    ensures Rank(Succeeded) == 0 && Rank(Failed) == 0
  {}

  lemma LaunchLeavesLess(j: Job, s: Upload, u: Upload)
    requires s.offset <= |j.content| && (LaunchStep(j, s, u) || GiveUpStep(s, u))
    ensures LeavesLess(j, s, u)
  {
    if LaunchStep(j, s, u) {
      FlightMore(s.inflight, s.next - 1, s.pc.chunk);
    }
  }

  lemma WorkerLeavesLess(j: Job, s: Upload, a: Action, u: Upload)
    requires s.offset <= |j.content| && Next(j, s, a, u) && (a.Finish? || a.Fault?)
    ensures LeavesLess(j, s, u)
  {
    FlightLess(s.inflight, a.partNo);
  }

  lemma LaterPhase(j: Job, s: Upload, u: Upload)
    requires s.offset <= |j.content| && u.inflight == s.inflight && u.offset == s.offset && Rank(u.pc) < Rank(s.pc)
    ensures LeavesLess(j, s, u)
  {}

  lemma DrainedIsLater(j: Job, s: Upload, u: Upload)
    requires s.offset <= |j.content| && DrainedStep(s, u)
    ensures LeavesLess(j, s, u)
  {
    hide LeavesLess, Rank;
    Ranks();
    assert u.pc == Persisting || u.pc == Pc.SavingParts;
    LaterPhase(j, s, u);
  }

  lemma PartsSavedIsLater(j: Job, s: Upload, saved: bool, rows: seq<FilePart>, u: Upload)
    requires s.offset <= |j.content| && SavePartsStep(s, saved, rows, u)
    ensures LeavesLess(j, s, u)
  {
    hide ByNumber, LeavesLess, Rank;
    Ranks();
    assert u.pc == Persisting || u.pc == Sizing;
    LaterPhase(j, s, u);
  }

  lemma ReadyIsLater(j: Job, s: Upload, saved: bool, u: Upload)
    requires s.offset <= |j.content| && MakeReadyStep(s, saved, u)
    ensures LeavesLess(j, s, u)
  {
    hide LeavesLess, Rank;
    Ranks();
    assert u.pc == Persisting || u.pc == Succeeded;
    LaterPhase(j, s, u);
  }

  lemma SizeSavedIsLater(j: Job, s: Upload, saved: bool, u: Upload)
    requires s.offset <= |j.content| && SaveSizeStep(j, s, saved, u)
    ensures LeavesLess(j, s, u)
  {
    hide LeavesLess, Rank;
    Ranks();
    assert u.pc == Persisting || u.pc == Readying || u.pc == Succeeded;
    LaterPhase(j, s, u);
  }

  lemma RollbackIsLater(j: Job, s: Upload, a: Action, u: Upload)
    requires s.offset <= |j.content| && Next(j, s, a, u) && (a.Persist? || a.Delete? || a.Unlist? || a.Drop?)
    ensures LeavesLess(j, s, u)
  {
    hide MessageIds, LeavesLess, Rank;
    Ranks();
    assert u.inflight == s.inflight && u.offset == s.offset;
    if a.Persist? {
      assert u.pc == Deleting;
    } else if a.Delete? {
      assert u.pc == Unlisting || u.pc == Failed;
    } else if a.Unlist? {
      assert u.pc == Dropping || u.pc == Failed;
    } else {
      assert u.pc == Failed;
    }
    LaterPhase(j, s, u);
  }

  /** Each step but a cancellation leaves less to do. */
  lemma StepLeavesLess(j: Job, s: Upload, a: Action, u: Upload)
    requires ValidJob(j) && Inv(j, s) && Next(j, s, a, u)
    ensures if a == Cancel then u == s.(cancelled := true) else LeavesLess(j, s, u)
    ensures s.offset <= |j.content| && u.offset <= |j.content|
  {
    hide Inv, ReadStep, LaunchStep, GiveUpStep, FinishStep, FaultStep, SaveSizeStep, LeavesLess;
    OffsetFits(j, s);
    if a.Read? {
      ReadLeavesLess(j, s, u);
    } else if a.Launch? || a.GiveUp? {
      LaunchLeavesLess(j, s, u);
    } else if a.Finish? || a.Fault? {
      WorkerLeavesLess(j, s, a, u);
    } else if a.Drained? {
      DrainedIsLater(j, s, u);
    } else if a.SaveSize? {
      SizeSavedIsLater(j, s, a.saved, u);
    } else if a.SaveParts? {
      PartsSavedIsLater(j, s, a.saved, a.rows, u);
    } else if a.MakeReady? {
      ReadyIsLater(j, s, a.saved, u);
    } else if a != Cancel {
      RollbackIsLater(j, s, a, u);
    }
    FitsToo(j, s, a, u);
  }

  lemma FitsToo(j: Job, s: Upload, a: Action, u: Upload)
    requires s.offset <= |j.content| && (if a == Cancel then u == s.(cancelled := true) else LeavesLess(j, s, u))
    ensures u.offset <= |j.content|
  {}

  function Busy(actions: seq<Action>): nat {
    if actions == [] then 0 else Busy(actions[..|actions| - 1]) + (if actions[|actions| - 1] == Cancel then 0 else 1)
  }

  /** A run has at most three steps a byte and fifteen more, cancellations not counted. */
  lemma {:induction false} RunsEnd(j: Job, states: seq<Upload>, actions: seq<Action>, i: nat)
    requires IsRun(j, states, actions) && i < |states|
    ensures states[i].offset <= |j.content| && Busy(actions[..i]) + Left(j, states[i]) <= 3 * |j.content| + 15
    decreases i
  {
    hide Next, Inv;
    if i > 0 {
      RunsEnd(j, states, actions, i - 1);
      RunKeeps(j, states, actions, i - 1);
      assert Next(j, states[i - 1], actions[i - 1], states[i - 1 + 1]);
      StepLeavesLess(j, states[i - 1], actions[i - 1], states[i]);
      assert actions[..i][..i - 1] == actions[..i - 1];
    }
  }

  // ---- no run gets stuck ----

  lemma {:induction false} UnusedMessage(ms: set<int>) returns (m: int)
    ensures forall x | x in ms :: x < m
    decreases |ms|
  {
    if x :| x in ms {
      m := UnusedMessage(ms - {x});
      assert forall y | y in ms :: y == x || y in ms - {x};
      if m <= x { m := x + 1; }
    } else {
      m := 0;
    }
  }

  /** `sort.Slice` has a result. */
  lemma {:induction false} SortParts(ps: seq<FilePart>) returns (rows: seq<FilePart>)
    ensures ByNumber(rows) && multiset(rows) == multiset(ps)
    decreases |ps|
  {
    if ps == [] {
      rows := [];
    } else {
      var before, p := ps[..|ps| - 1], ps[|ps| - 1];
      rows := SortParts(before);
      rows := InsertPart(rows, p);
      assert ps == before + [p];
    }
  }

  lemma {:induction false} InsertPart(sorted: seq<FilePart>, p: FilePart) returns (rows: seq<FilePart>)
    requires ByNumber(sorted)
    ensures ByNumber(rows) && multiset(rows) == multiset(sorted) + multiset{p}
    ensures forall q | q in rows :: q in sorted || q == p
    decreases |sorted|
  {
    hide ByNumber;
    if sorted == [] {
      rows := sorted + [p];
      AppendLargest(sorted, p);
    } else {
      var front, last := sorted[..|sorted| - 1], sorted[|sorted| - 1];
      FrontByNumber(front, last, sorted);
      if last.partNo <= p.partNo {
        rows := sorted + [p];
        AppendLargest(sorted, p);
      } else {
        var more := InsertPart(front, p);
        rows := more + [last];
        AppendLargest(more, last);
      }
    }
  }

  lemma FrontByNumber(front: seq<FilePart>, last: FilePart, sorted: seq<FilePart>)
    requires sorted == front + [last] && ByNumber(sorted)
    ensures ByNumber(front) && multiset(sorted) == multiset(front) + multiset{last}
    ensures forall q | q in front :: q in sorted && q.partNo <= last.partNo
  {
    assert forall i | 0 <= i < |front| :: front[i] == sorted[i];
    assert sorted[|front|] == last;
  }

  lemma AppendLargest(ps: seq<FilePart>, p: FilePart)
    requires ByNumber(ps) && forall q | q in ps :: q.partNo <= p.partNo
    ensures ByNumber(ps + [p]) && multiset(ps + [p]) == multiset(ps) + multiset{p}
    ensures forall q | q in ps + [p] :: q in ps || q == p
  {}

  /** A worker can always finish. */
  lemma CanFinish(j: Job, s: Upload) returns (a: Action, u: Upload)
    requires s.inflight != map[]
    ensures Next(j, s, a, u) && Faultless(a)
  {
    var n :| n in s.inflight;
    var message := UnusedMessage(s.messages.Keys);
    a := Action.Finish(n, message, "");
    u := s.(inflight := s.inflight - {n},
            parts := s.parts + [FilePart("", n, message, |s.inflight[n]|, j.channel)],
            messages := s.messages[message := s.inflight[n]]);
  }

  lemma CanRead(j: Job, s: Upload) returns (a: Action, u: Upload)
    requires ValidJob(j) && s.offset <= |j.content| && (s.pc == Reading || (s.pc.Launching? && s.next > 0))
    ensures Next(j, s, a, u) && Faultless(a) &&
      (if s.pc == Reading then a == Read else |s.inflight| < j.workers ==> a == Launch)
  {
    if s.pc == Reading {
      var n := Min(j.chunkSize, |j.content| - s.offset);
      var failed := j.broken && n < j.chunkSize;
      a := Read;
      u := if n == 0 then s.(pc := AfterChunk(j, 0, failed))
           else s.(pc := Launching(j.content[s.offset..s.offset + n], failed), offset := s.offset + n,
             next := s.next + 1, total := s.total + n);
    } else if |s.inflight| < j.workers {
      a := Launch;
      u := s.(pc := AfterChunk(j, |s.pc.chunk|, s.pc.failed), inflight := s.inflight[s.next - 1 := s.pc.chunk]);
    } else {
      assert s.inflight != map[];
      a, u := CanFinish(j, s);
    }
  }

  lemma CanEnd(j: Job, s: Upload) returns (a: Action, u: Upload)
    requires s.pc.Draining? || Finishing(s.pc) || RollingBack(s.pc)
    requires !Final(s)
    ensures Next(j, s, a, u) && Faultless(a)
  {
    hide ByNumber;
    match s.pc
    case Draining(bad) =>
      if s.inflight != map[] {
        a, u := CanFinish(j, s);
      } else {
        a, u := Drained, s.(pc := if bad || s.workerFailed || s.total == 0 then Persisting else Pc.SavingParts);
      }
    case SavingParts =>
      var rows := SortParts(s.parts);
      a, u := Action.SaveParts(true, rows), s.(pc := Sizing, listed := rows);
    case Sizing => a, u := SaveSize(true), s.(pc := if j.dedup then Readying else Succeeded, size := s.total);
    case Readying => a, u := MakeReady(true), s.(pc := Succeeded, status := Ready);
    case Persisting => a, u := Persist(true), s.(pc := Deleting, listed := s.parts);
    case Deleting =>
      a := Delete(true, MessageIds(s.parts));
      u := s.(messages := s.messages - MessageIds(s.parts), pc := Unlisting, deleteFailed := false);
    case Unlisting => a, u := Unlist(true), s.(pc := Dropping, listed := []);
    case Dropping => a, u := Drop(true), s.(pc := Failed, status := Deleted);
  }

  /** From every reachable state short of the end a step without a fault is possible: the
      reader goes on reading, and launches a worker as long as fewer than `workers` run. */
  lemma NeverStuck(j: Job, s: Upload) returns (a: Action, u: Upload)
    requires ValidJob(j) && Inv(j, s) && !Final(s)
    ensures Next(j, s, a, u) && Faultless(a)
    ensures s.pc == Reading ==> a == Read
    ensures s.pc.Launching? && |s.inflight| < j.workers ==> a == Launch
  {
    hide Next, Chunk, ByNumber, PartsSoFar, NoneLost, Faultless, Final, Phases;
    if s.pc == Reading || s.pc.Launching? {
      a, u := CanRead(j, s);
    } else {
      a, u := CanEnd(j, s);
    }
  }

  // ---- every upload can be finished ----

  lemma ExtendRun(j: Job, states: seq<Upload>, actions: seq<Action>, a: Action, u: Upload)
    requires IsRun(j, states, actions) && Next(j, states[|actions|], a, u)
    ensures IsRun(j, states + [u], actions + [a])
  {
    hide Next;
    var ss, aa := states + [u], actions + [a];
    forall i | 0 <= i < |aa| ensures Next(j, ss[i], aa[i], ss[i + 1]) {
      if i < |actions| {
        assert Next(j, states[i], actions[i], states[i + 1]);
      }
    }
  }

  /** Every run can be carried to an end by steps without a fault. */
  lemma {:induction false} Finishable(j: Job, states: seq<Upload>, actions: seq<Action>)
    returns (ss: seq<Upload>, aa: seq<Action>)
    requires IsRun(j, states, actions)
    ensures IsRun(j, ss, aa) && states <= ss && actions <= aa && Final(ss[|aa|])
    ensures forall k | |actions| <= k < |aa| :: Faultless(aa[k])
    decreases if states[|actions|].offset <= |j.content| then Left(j, states[|actions|]) else 0
  {
    hide Next, Inv, Faultless, Final, Left;
    var s := states[|actions|];
    RunKeeps(j, states, actions, |actions|);
    OffsetFits(j, s);
    if Final(s) {
      ss, aa := states, actions;
    } else {
      var a, u := NeverStuck(j, s);
      ExtendRun(j, states, actions, a, u);
      StepLeavesLess(j, s, a, u);
      NotCancel(a);
      ss, aa := Finishable(j, states + [u], actions + [a]);
    }
  }

  lemma NotCancel(a: Action)
    requires Faultless(a)
    ensures a != Cancel
  {}

  lemma BeginRun(j: Job, messages: map<int, ByteString>)
    requires ValidJob(j)
    ensures IsRun(j, [Begin(messages)], [])
  {}

  /** A whole stream with bytes in it can be uploaded, in chunks of any size by any
      number of workers, and only such a stream can. */
  lemma UploadSucceeds(j: Job, messages: map<int, ByteString>) returns (states: seq<Upload>, actions: seq<Action>)
    requires j.chunkSize > 0 && j.workers > 0 && !j.broken && j.content != []
    ensures IsRun(j, states, actions) && states[0] == Begin(messages)
    ensures (forall k | 0 <= k < |actions| :: Faultless(actions[k])) && states[|actions|].pc == Succeeded
  {
    hide Next, Faultless;
    BeginRun(j, messages);
    states, actions := Finishable(j, [Begin(messages)], []);
    FaultlessNeverFails(j, states, actions, |actions|);
  }

  /** Once a worker failed or the request was cancelled, the reader can give up before the
      next launch, and then the upload fails. */
  lemma CanGiveUp(j: Job, states: seq<Upload>, actions: seq<Action>) returns (ss: seq<Upload>, aa: seq<Action>)
    requires IsRun(j, states, actions) && states[|actions|].pc.Launching?
    requires states[|actions|].workerFailed || states[|actions|].cancelled
    ensures IsRun(j, ss, aa) && states <= ss && actions + [GiveUp] <= aa && ss[|aa|].pc == Failed
  {
    hide Next, Spoilt;
    var s := states[|actions|];
    var u := s.(pc := Draining(true));
    assert Next(j, s, GiveUp, u) by { GivesUp(j, s); }
    ExtendRun(j, states, actions, GiveUp, u);
    ss, aa := Finishable(j, states + [u], actions + [GiveUp]);
    assert ss[|actions| + 1] == (states + [u])[|actions| + 1];
    assert Spoilt(u) by { BadIsSpoilt(u); }
    StaysSpoilt(j, ss, aa, |actions| + 1, |aa|);
    SpoiltFails(j, ss, aa, |aa|);
  }

  lemma GivesUp(j: Job, s: Upload)
    requires s.pc.Launching? && (s.workerFailed || s.cancelled)
    ensures Next(j, s, GiveUp, s.(pc := Draining(true)))
  {}

  lemma BadIsSpoilt(s: Upload)
    requires s.pc == Draining(true)
    ensures Spoilt(s)
  {}

  /** A rollback whose calls all work leaves no message of a part, no part row and no
      live node. */
  lemma RollbackCleansUp(j: Job, states: seq<Upload>, actions: seq<Action>) returns (ss: seq<Upload>)
    requires IsRun(j, states, actions) && states[|actions|].pc == Persisting
    ensures var parts := states[|actions|].parts;
      && IsRun(j, ss, actions + [Persist(true), Delete(true, MessageIds(parts)), Unlist(true), Drop(true)])
      && states <= ss && |ss| == |states| + 4
      && var end := ss[|ss| - 1];
         && end.pc == Failed && end.parts == parts && end.listed == [] && end.status == Deleted
         && forall p | p in parts :: p.messageId !in end.messages
  {
    hide Next;
    var s := states[|actions|];
    var a := s.(pc := Deleting, listed := s.parts);
    var b := a.(messages := a.messages - MessageIds(s.parts), pc := Unlisting, deleteFailed := false);
    var c := b.(pc := Dropping, listed := []);
    var d := c.(pc := Failed, status := Deleted);
    RollbackSteps(j, s, a, b, c, d);
    ExtendRun(j, states, actions, Persist(true), a);
    ExtendRun(j, states + [a], actions + [Persist(true)], Delete(true, MessageIds(s.parts)), b);
    ExtendRun(j, states + [a] + [b], actions + [Persist(true)] + [Delete(true, MessageIds(s.parts))], Unlist(true), c);
    ss := states + [a] + [b] + [c] + [d];
    var before := actions + [Persist(true)] + [Delete(true, MessageIds(s.parts))] + [Unlist(true)];
    ExtendRun(j, states + [a] + [b] + [c], before, Drop(true), d);
    assert before + [Drop(true)] ==
      actions + [Persist(true), Delete(true, MessageIds(s.parts)), Unlist(true), Drop(true)];
  }

  lemma RollbackSteps(j: Job, s: Upload, a: Upload, b: Upload, c: Upload, d: Upload)
    requires s.pc == Persisting && a == s.(pc := Deleting, listed := s.parts)
    requires b == a.(messages := a.messages - MessageIds(s.parts), pc := Unlisting, deleteFailed := false)
    requires c == b.(pc := Dropping, listed := []) && d == c.(pc := Failed, status := Deleted)
    ensures Next(j, s, Persist(true), a) && Next(j, a, Delete(true, MessageIds(s.parts)), b)
    ensures Next(j, b, Unlist(true), c) && Next(j, c, Drop(true), d)
  {}
}
