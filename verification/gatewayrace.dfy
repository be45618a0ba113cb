/** The delete of one key that removes another: the run in which it happens. */
module GatewayRaces {
  import opened Wrappers
  import opened Nodes
  import opened TreeOps
  import opened Stores
  import opened Text
  import opened Gateway
  import opened GatewayProofs
  import opened GatewaySteps
  import opened GatewayRefinement

  /** Request `remove` found the staged row of request `put`, which is about to publish
      it under its own key, another one. */
  ghost predicate Racing(s: State, put: RequestId, remove: RequestId) {
    && IsPut(s, put) && s.requests[put].pc.Sized? && Replaceable(s.nodes, s.requests[put].pc.id, s.requests[put].name)
    && IsRemove(s, remove) && s.requests[remove].dpc.Walking? && s.requests[remove].found == Some(s.requests[put].pc.id)
    && s.requests[remove].name != s.requests[put].name
  }

  /** The publish succeeds, and then the delete of the other key erases the object. */
  lemma RaceLosesObject(s: State, put: RequestId, remove: RequestId)
    requires Inv(s) && Racing(s, put, remove)
    ensures var key := OwnAddress(s.requests[put]);
      var published := Step(s, Publish(put)); var deleted := Step(published, DeleteObject(remove));
      && key != OwnAddress(s.requests[remove]) && key in View(published)
      && Strays(published, DeleteObject(remove)) && key !in View(deleted)
  {
    hide Inv, View, Replaceable, FindOther;
    var q, d := s.requests[put], s.requests[remove];
    var key := OwnAddress(q);
    var published := Step(s, Publish(put));
    PublishKeeps(s, put);
    PublishRows(s.nodes, q.pc.id, q.name);
    assert published == PutStep(s, Publish(put), put);
    assert published.requests[remove] == d;
    DeleteObjectKeeps(published, remove);
    SameFolder(s, put, remove);
    assert EraseOther(published, remove) == Erase(key);
    assert key[|key| - 1] != OwnAddress(d)[|OwnAddress(d)| - 1];
  }

  /** Both requests resolved their folders to the one the staged row lies in. */
  lemma SameFolder(s: State, put: RequestId, remove: RequestId)
    requires Inv(s) && Racing(s, put, remove)
    ensures Path(s.requests[put].bucket, s.requests[put].dirs) ==
      Path(s.requests[remove].bucket, s.requests[remove].dirs)
  {
    hide TreeInv, Intact, UploadsInv, BlobsInv, Replaceable, OwnMessages, Content, Named;
    var q, d := s.requests[put], s.requests[remove];
    assert RequestInv(s, q) && RequestInv(s, d);
    assert d.dirs[..d.dpc.i] == d.dirs;
    OnePath(s.nodes, Path(q.bucket, q.dirs), Path(d.bucket, d.dirs), q.pc.at);
  }

  // ---- the run ----

  const ROOT_ROW := Node(None, "Root", Folder, "inode/directory", 0, Ready, 0)
  const STAGED := Node(Some("B"), "tmp", File, "", 0, Pending, 0)

  const BUCKET: Table := map[ROOT := ROOT_ROW, "B" := FolderRow(ROOT, "b")]

  const PUT := Put("b", [], "k", "", [], Start)
  const REMOVE := Remove("b", [], "tmp", Start, None, false)

  /** A bucket is made; an empty object is put at "b/k" while a request removes the name
      the upload is staged under. */
  const MAKE: seq<Action> := [Begin(0, NewBucket("b", false)), CheckBucket(0), MakeBucket(0, "B")]
  const UPLOAD: seq<Action> := [Begin(1, PUT), FindBucket(1), CheckName(1), Stage(1, "N", "tmp", 0)]
  const LOOKUP: seq<Action> := [Begin(2, REMOVE), FindBucket(2), FindObject(2)]

  lemma RunStep(s: State, actions: seq<Action>, a: Action)
    ensures Run(s, actions + [a]) == Step(Run(s, actions), a)
  {
    assert (actions + [a])[..|actions|] == actions;
  }

  lemma {:induction false} RunCat(s: State, before: seq<Action>, after: seq<Action>)
    ensures Run(s, before + after) == Run(Run(s, before), after)
    decreases |after|
  {
    if after == [] {
      assert before + after == before;
    } else {
      RunCat(s, before, after[..|after| - 1]);
      assert (before + after)[..|before + after| - 1] == before + after[..|after| - 1];
    }
  }

  lemma RunThree(s: State, a: Action, b: Action, c: Action)
    ensures Run(s, [a, b, c]) == Step(Step(Step(s, a), b), c)
  {
    hide Step;
    assert [] + [a] == [a] && [a] + [b] == [a, b] && [a, b] + [c] == [a, b, c];
    assert Run(s, []) == s;
    RunStep(s, [], a);
    RunStep(s, [a], b);
    RunStep(s, [a, b], c);
  }

  lemma ChildIs(t: Table, parent: Id, name: string, c: Id)
    requires IsChild(t, parent, name, c) && forall x | IsChild(t, parent, name, x) :: x == c
    ensures FindChild(t, parent, name) == Some(c)
  {}

  /** Requests resolve the bucket alike. */
  lemma BucketThere(t: Table)
    requires t == BUCKET || t == BUCKET["N" := STAGED]
    ensures BucketFolder(t, "b") && FindChild(t, ROOT, "b") == Some("B")
  {
    ChildIs(t, ROOT, "b", "B");
  }

  lemma BucketFree(s: State)
    requires Initial(s)
    ensures Step(Step(s, MAKE[0]), MAKE[1]) == With(s, 0, NewBucket("b", true))
  {
    hide FindChild, ValidName, CanInsert;
    var q := NewBucket("b", false);
    assert Step(s, MAKE[0]) == With(s, 0, q);
    assert FindChild(s.nodes, ROOT, "b") == None;
    assert BucketRequestStep(With(s, 0, q), MAKE[1], 0) == With(s, 0, q.(free := true));
  }

  lemma BucketInserted(s: State)
    requires Initial(s)
    ensures Step(With(s, 0, NewBucket("b", true)), MAKE[2]) == s.(nodes := BUCKET)
  {
    hide FindChild;
    assert ValidName("b");
    assert BucketRequestStep(With(s, 0, NewBucket("b", true)), MAKE[2], 0) == s.(nodes := BUCKET);
  }

  lemma BucketMade(s: State)
    requires Initial(s)
    ensures Run(s, MAKE) == s.(nodes := BUCKET)
  {
    hide Run, Step;
    RunThree(s, MAKE[0], MAKE[1], MAKE[2]);
    BucketFree(s);
    BucketInserted(s);
  }

  lemma BucketFound(m: State)
    requires m.nodes == BUCKET && m.requests == map[] && m.deleting == None
    ensures Step(Step(Step(m, UPLOAD[0]), UPLOAD[1]), UPLOAD[2]) == With(m, 1, PUT.(pc := Cleared("B")))
  {
    hide Run, FindChild, ValidName, Replaceable, FindOther, CanInsert;
    assert Step(m, UPLOAD[0]) == With(m, 1, PUT);
    BucketThere(BUCKET);
    assert Step(With(m, 1, PUT), UPLOAD[1]) == With(m, 1, PUT.(pc := Walking("B", 0)));
    assert FindChild(m.nodes, "B", "k") == None;
  }

  lemma ObjectStaged(m: State)
    requires m.nodes == BUCKET && m.requests == map[] && m.deleting == None
    ensures Run(m, UPLOAD) == With(m.(nodes := BUCKET["N" := STAGED]), 1, PUT.(pc := Sized("B", "N", [])))
  {
    hide Run, Step;
    RunThree(m, UPLOAD[0], UPLOAD[1], UPLOAD[2]);
    RunStep(m, [UPLOAD[0], UPLOAD[1], UPLOAD[2]], UPLOAD[3]);
    assert [UPLOAD[0], UPLOAD[1], UPLOAD[2]] + [UPLOAD[3]] == UPLOAD;
    BucketFound(m);
    RowStaged(m);
  }

  lemma RowStaged(m: State)
    requires m.nodes == BUCKET && m.requests == map[]
    ensures Step(With(m, 1, PUT.(pc := Cleared("B"))), UPLOAD[3])
      == With(m.(nodes := BUCKET["N" := STAGED]), 1, PUT.(pc := Sized("B", "N", [])))
  {
    hide Run, FindChild, ValidName, Replaceable, FindOther;
    assert CanInsert(BUCKET, "N", "B", "tmp");
  }

  lemma RemoveWalked(m: State)
    requires m.nodes == BUCKET["N" := STAGED] && 2 !in m.requests && m.deleting == None
    ensures Step(Step(m, LOOKUP[0]), LOOKUP[1]) == With(m, 2, REMOVE.(dpc := Walking("B", 0)))
  {
    hide FindChild;
    assert Step(m, LOOKUP[0]) == With(m, 2, REMOVE);
    BucketThere(m.nodes);
    assert RemoveStep(With(m, 2, REMOVE), LOOKUP[1], 2) == With(m, 2, REMOVE.(dpc := Walking("B", 0)));
  }

  lemma RowFound(m: State)
    requires m.nodes == BUCKET["N" := STAGED]
    ensures Step(With(m, 2, REMOVE.(dpc := Walking("B", 0))), LOOKUP[2])
      == With(m, 2, Remove("b", [], "tmp", Walking("B", 0), Some("N"), true))
  {
    hide FindChild;
    ChildIs(m.nodes, "B", "tmp", "N");
    var d := REMOVE.(dpc := Walking("B", 0));
    assert RemoveStep(With(m, 2, d), LOOKUP[2], 2) == With(m, 2, d.(found := Some("N"), early := true));
  }

  lemma StagedFound(m: State)
    requires m.nodes == BUCKET["N" := STAGED] && 2 !in m.requests && m.deleting == None
    ensures Run(m, LOOKUP) == With(m, 2, Remove("b", [], "tmp", Walking("B", 0), Some("N"), true))
  {
    hide Run, Step;
    RunThree(m, LOOKUP[0], LOOKUP[1], LOOKUP[2]);
    RemoveWalked(m);
    RowFound(m);
  }

  const RACE := MAKE + UPLOAD + LOOKUP

  lemma RaceReached(s: State)
    requires Initial(s)
    ensures var e := Run(s, RACE);
      && e.nodes == BUCKET["N" := STAGED] && e.requests.Keys == {1, 2}
      && e.requests[1] == PUT.(pc := Sized("B", "N", []))
      && e.requests[2] == Remove("b", [], "tmp", Walking("B", 0), Some("N"), true)
  {
    hide Run;
    BucketMade(s);
    var m := s.(nodes := BUCKET);
    ObjectStaged(m);
    StagedFound(Run(m, UPLOAD));
    RunCat(s, MAKE, UPLOAD);
    RunCat(s, MAKE + UPLOAD, LOOKUP);
  }

  /** From an empty drive: the delete of "b/tmp" erases the object just put at "b/k". */
  lemma DeleteRemovesOtherKey(s: State)
    requires Initial(s)
    ensures !NoStray(s, RACE + [Publish(1), DeleteObject(2)])
    ensures var published := Run(s, RACE + [Publish(1)]); var deleted := Run(s, RACE + [Publish(1), DeleteObject(2)]);
      ["b", "k"] in View(published) && ["b", "k"] !in View(deleted)
  {
    hide View, Inv, Run, Step, Strays;
    RaceReached(s);
    var e := Run(s, RACE);
    EveryRunRefines(s, RACE);
    PutRaces(e);
    RaceLosesObject(e, 1, 2);
    assert OwnAddress(e.requests[1]) == ["b", "k"];
    RunStep(s, RACE, Publish(1));
    RunStep(s, RACE + [Publish(1)], DeleteObject(2));
    var all := RACE + [Publish(1), DeleteObject(2)];
    assert RACE + [Publish(1)] + [DeleteObject(2)] == all;
    assert all[..|all| - 1] == RACE + [Publish(1)];
  }

  lemma PutRaces(e: State)
    requires e.nodes == BUCKET["N" := STAGED] && e.requests.Keys == {1, 2}
    requires e.requests[1] == PUT.(pc := Sized("B", "N", []))
    requires e.requests[2] == Remove("b", [], "tmp", Walking("B", 0), Some("N"), true)
    ensures Racing(e, 1, 2)
  {
    assert FindOther(e.nodes, "N", "k") == None;
  }
}
