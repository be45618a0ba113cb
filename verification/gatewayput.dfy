/** What the requests of the gateway come to when nothing runs in between: a put ends with
    its object at its key. */
module GatewayPuts {
  import opened Wrappers
  import opened Bytes
  import opened Nodes
  import opened TreeOps
  import opened SearchIndex
  import opened Stores
  import opened Text
  import opened Gateway
  import opened GatewayProofs
  import opened GatewaySteps
  import opened GatewayRefinement

  // ---- the publish, in terms of the tree ----

  /** Another live row than `id` holds the name, and it is a folder or unfinished. */
  ghost predicate Blocked(t: Table, id: Id, at: Id, name: string) {
    exists c :: c != id && IsChild(t, at, name, c) && (t[c].kind == Folder || t[c].status == Pending)
  }

  lemma ReplaceableMeans(t: Table, id: Id, at: Id, name: string)
    requires UniqueNames(t) && id in t && t[id].kind == File && t[id].parent == Some(at)
    ensures Replaceable(t, id, name) <==> t[id].status == Pending && !Blocked(t, id, at, name)
  {
    var other := FindOther(t, id, name);
    if other.Some? {
      assert IsChild(t, at, name, other.value);
      forall c | c != id && IsChild(t, at, name, c) ensures c == other.value {}
    }
    if c :| c != id && IsChild(t, at, name, c) {
      assert IsOther(t, id, name, c);
    }
  }

  function ObjectAt(q: Request): Object
    requires q.Put?
  {
    Object(q.mime, |q.body|, q.body)
  }

  /** The publish of a staged upload puts the whole object at its key exactly when no
      folder and no other unfinished upload holds the name there; otherwise nothing shows. */
  lemma PublishMeans(s: State, r: RequestId)
    requires Inv(s) && IsPut(s, r) && s.requests[r].pc.Sized?
    ensures var q := s.requests[r]; var s' := Step(s, Publish(r)); var key := OwnAddress(q);
      && s.nodes[q.pc.id].parent == Some(q.pc.at)
      && (s.nodes[q.pc.id].status == Pending ==>
            (View(s') == View(s)[key := ObjectAt(q)] <==> !Blocked(s.nodes, q.pc.id, q.pc.at, q.name)))
      && (s.nodes[q.pc.id].status != Pending || Blocked(s.nodes, q.pc.id, q.pc.at, q.name) ==> View(s') == View(s))
  {
    hide TreeInv, Intact, UploadsInv, BlobsInv, View, Content, OwnMessages, AtFolder, PutStep, Replaceable, Blocked;
    var q := s.requests[r];
    OwnerFacts(s, r);
    TreeUnique(s.nodes);
    PublishKeeps(s, r);
    ReplaceableMeans(s.nodes, q.pc.id, q.pc.at, q.name);
    if Blocked(s.nodes, q.pc.id, q.pc.at, q.name) {
      BlockedKeyFree(s, r);
      assert OwnAddress(q) in View(s)[OwnAddress(q) := ObjectAt(q)];
    }
  }

  /** Where a folder or an unfinished upload holds the name, there is no object. */
  lemma BlockedKeyFree(s: State, r: RequestId)
    requires Inv(s) && IsPut(s, r) && s.requests[r].pc.Sized?
    requires var q := s.requests[r]; Blocked(s.nodes, q.pc.id, q.pc.at, q.name)
    ensures OwnAddress(s.requests[r]) !in View(s)
  {
    hide Intact, UploadsInv, BlobsInv, Content, OwnMessages;
    var q := s.requests[r];
    assert RequestInv(s, q);
    var c :| c != q.pc.id && IsChild(s.nodes, q.pc.at, q.name, c) &&
      (s.nodes[c].kind == Folder || s.nodes[c].status == Pending);
    ChildHoldsKey(s, q.bucket, q.dirs, q.pc.at, q.name, c);
  }

  /** The live child of that name is the only row that can hold the key. */
  lemma ChildHoldsKey(s: State, bucket: string, dirs: seq<string>, at: Id, name: string, c: Id)
    requires TreeInv(s.nodes) && AtFolder(s.nodes, bucket, dirs, at) && IsChild(s.nodes, at, name, c)
    ensures Path(bucket, dirs) + [name] in View(s) <==> IsReady(s.nodes, c) && s.nodes[c].kind == File
  {
    var t := s.nodes;
    var p: Address := Path(bucket, dirs) + [name];
    assert p[..|p| - 1] == Path(bucket, dirs);
    if Taken(t, p) {
      var y := Holder(t, p);
      NameUnique(t, p[..|p| - 1], t[y].parent.value, at);
      assert IsChild(t, at, name, y);
    }
    if IsReady(t, c) && t[c].kind == File {
      assert Holds(t, p, c);
    }
  }

  /** The step publishes exactly when the transaction of the store does, with its result. */
  method PublishAsReplace(store: Store, ghost s: State, ghost r: RequestId, id: Id, name: string) returns (done: Done)
    requires store.Valid() && store.nodes == s.nodes
    requires Inv(s) && IsPut(s, r) && s.requests[r].pc.Sized? && id == s.requests[r].pc.id && name == s.requests[r].name
    modifies store
    ensures done.Ok? <==> r !in Step(s, Publish(r)).requests
    ensures store.nodes == Step(s, Publish(r)).nodes
  {
    hide Inv, Tree, Anchored, StagedAnchored, IndexExact, FindOther;
    done := store.Replace(id, name);
  }

  // ---- the program of a put ----

  /** What a request draws: unused ids, a staging name, its channel, the sizes of its parts. */
  datatype Oracle = Oracle(gen: Generator, stage: string, channel: int, cut: ByteString -> nat)

  ghost predicate ValidOracle(o: Oracle) {
    Unused(o.gen) && forall rest: ByteString | rest != [] :: 0 < o.cut(rest) <= |rest|
  }

  function NewRowId(s: State, o: Oracle): Id {
    o.gen(s.nodes.Keys + {""})
  }

  /** The call the code makes next. */
  ghost function NextCall(s: State, r: RequestId, o: Oracle): Action
    requires IsPut(s, r)
  {
    var q := s.requests[r];
    match q.pc
    case Start => FindBucket(r)
    case Walking(_, i) => if i < |q.dirs| then FindDir(r) else CheckName(r)
    case Absent(_, _) => MakeDir(r, NewRowId(s, o))
    case Cleared(_) => Stage(r, NewRowId(s, o), o.stage, o.channel)
    case Sending(_, _, _, rest) => if rest == [] then Record(r) else Send(r, o.cut(rest))
    case Recorded(_, _, _) => Resize(r)
    case Sized(_, _, _) => Publish(r)
    case Cleaning(_, _, _) => DeleteMessages(r)
    case Wiped(_, _) => DeleteParts(r)
    case Bare(_, _) => DropStaged(r)
  }

  /** `k` calls of the request in a row, or as many as it makes. */
  ghost function Alone(s: State, r: RequestId, o: Oracle, k: nat): State
    decreases k
  {
    if k == 0 || !IsPut(s, r) then s else Alone(Step(s, NextCall(s, r, o)), r, o, k - 1)
  }

  /** After `k` calls the request has returned, with its object stored or nothing changed. */
  ghost predicate Ends(s: State, r: RequestId, o: Oracle, k: nat, stored: bool)
    requires IsPut(s, r)
  {
    var e := Alone(s, r, o, k);
    r !in e.requests && View(e) == if stored then View(s)[OwnAddress(s.requests[r]) := ObjectAt(s.requests[r])]
      else View(s)
  }

  /** One call that does not show, then the rest. */
  lemma EndsLater(s: State, r: RequestId, o: Oracle, u: State, k: nat, stored: bool)
    requires IsPut(s, r) && u == Step(s, NextCall(s, r, o)) && View(u) == View(s)
    requires IsPut(u, r) && OwnAddress(u.requests[r]) == OwnAddress(s.requests[r])
    requires ObjectAt(u.requests[r]) == ObjectAt(s.requests[r])
    requires Ends(u, r, o, k, stored)
    ensures Ends(s, r, o, k + 1, stored)
  {
    hide View, NextCall, Step;
  }

  lemma EndsNow(s: State, r: RequestId, o: Oracle, u: State, stored: bool)
    requires IsPut(s, r) && u == Step(s, NextCall(s, r, o)) && r !in u.requests
    requires View(u) == if stored then View(s)[OwnAddress(s.requests[r]) := ObjectAt(s.requests[r])] else View(s)
    ensures Ends(s, r, o, 1, stored)
  {
    hide View, NextCall, Step;
    assert Alone(u, r, o, 0) == u;
  }

  lemma BareEnds(s: State, r: RequestId, o: Oracle) returns (k: nat)
    requires Inv(s) && IsPut(s, r) && s.requests[r].pc.Bare?
    ensures Ends(s, r, o, k, false)
  {
    hide Inv, View, Alone, Ends;
    DropStagedKeeps(s, r);
    EndsNow(s, r, o, PutStep(s, DropStaged(r), r), false);
    k := 1;
  }

  lemma SizedEnds(s: State, r: RequestId, o: Oracle) returns (k: nat)
    requires Inv(s) && IsPut(s, r) && s.requests[r].pc.Sized? && s.requests[r].pc.id in s.nodes
    requires s.nodes[s.requests[r].pc.id].status == Pending
    ensures var q := s.requests[r]; Ends(s, r, o, k, !Blocked(s.nodes, q.pc.id, q.pc.at, q.name))
  {
    hide Inv, View, Alone, Ends, Blocked, Replaceable, Published;
    var q := s.requests[r];
    var u := PutStep(s, Publish(r), r);
    OwnerRow(s, r);
    PublishKeeps(s, r);
    UniqueRows(s);
    ReplaceableMeans(s.nodes, q.pc.id, q.pc.at, q.name);
    if Blocked(s.nodes, q.pc.id, q.pc.at, q.name) {
      k := BareEnds(u, r, o);
      EndsLater(s, r, o, u, k, false);
      k := k + 1;
    } else {
      EndsNow(s, r, o, u, true);
      k := 1;
    }
  }

  lemma UniqueRows(s: State)
    requires Inv(s)
    ensures UniqueNames(s.nodes) && "" !in s.nodes
  {}

  lemma OwnerRow(s: State, r: RequestId)
    requires Inv(s) && IsPut(s, r) && Staged(s.requests[r]).Some?
    ensures var pc := s.requests[r].pc;
      pc.id in s.nodes && s.nodes[pc.id].kind == File && s.nodes[pc.id].parent == Some(pc.at)
  {
    OwnerFacts(s, r);
  }

  lemma RecordedEnds(s: State, r: RequestId, o: Oracle) returns (k: nat)
    requires Inv(s) && IsPut(s, r) && s.requests[r].pc.Recorded? && s.requests[r].pc.id in s.nodes
    requires s.nodes[s.requests[r].pc.id].status == Pending
    ensures var q := s.requests[r]; Ends(s, r, o, k, !Blocked(s.nodes, q.pc.id, q.pc.at, q.name))
  {
    hide Inv, View, Alone, Ends, Blocked;
    var q := s.requests[r];
    var u := PutStep(s, Resize(r), r);
    ResizeKeeps(s, r);
    SameBlocked(s.nodes, u.nodes, q.pc.id, q.pc.at, q.name);
    k := SizedEnds(u, r, o);
    EndsLater(s, r, o, u, k, !Blocked(s.nodes, q.pc.id, q.pc.at, q.name));
    k := k + 1;
  }

  lemma SameBlocked(t: Table, u: Table, id: Id, at: Id, name: string)
    requires t.Keys == u.Keys && forall x | x in t && x != id :: u[x] == t[x]
    ensures Blocked(t, id, at, name) <==> Blocked(u, id, at, name)
  {
    if c :| c != id && IsChild(t, at, name, c) && (t[c].kind == Folder || t[c].status == Pending) {
      assert IsChild(u, at, name, c);
    }
    if c :| c != id && IsChild(u, at, name, c) && (u[c].kind == Folder || u[c].status == Pending) {
      assert IsChild(t, at, name, c);
    }
  }

  lemma {:induction false} SendingEnds(s: State, r: RequestId, o: Oracle) returns (k: nat)
    requires Inv(s) && IsPut(s, r) && s.requests[r].pc.Sending? && s.requests[r].pc.id in s.nodes
    requires s.nodes[s.requests[r].pc.id].status == Pending && ValidOracle(o)
    ensures var q := s.requests[r]; Ends(s, r, o, k, !Blocked(s.nodes, q.pc.id, q.pc.at, q.name))
    decreases |s.requests[r].pc.rest|
  {
    hide Inv, View, Alone, Ends, Blocked;
    var q := s.requests[r];
    if q.pc.rest == [] {
      var u := PutStep(s, Record(r), r);
      RecordKeeps(s, r);
      k := RecordedEnds(u, r, o);
      EndsLater(s, r, o, u, k, !Blocked(s.nodes, q.pc.id, q.pc.at, q.name));
    } else {
      var n := o.cut(q.pc.rest);
      var u := PutStep(s, Send(r, n), r);
      SendKeeps(s, r, n);
      k := SendingEnds(u, r, o);
      EndsLater(s, r, o, u, k, !Blocked(s.nodes, q.pc.id, q.pc.at, q.name));
    }
    k := k + 1;
  }

  // ---- the folders ----

  /** A put to `name` under `dirs` below `at` can be stored: each folder is there or can be
      made, and the name is free or a finished file's. */
  ghost predicate CanPut(t: Table, at: Id, dirs: seq<string>, name: string)
    decreases |dirs|
  {
    if dirs == [] then !Blocked(t, "", at, name)
    else if exists c :: IsChild(t, at, dirs[0], c) then
      forall c | IsChild(t, at, dirs[0], c) :: t[c].kind == Folder && CanPut(t, c, dirs[1..], name)
    else forall d | d in dirs :: ValidName(d)
  }

  /** The staging name is new. */
  ghost predicate NewName(t: Table, stage: string) {
    forall x | x in t :: t[x].name != stage
  }

  lemma NewRowFree(s: State, o: Oracle, at: Id, name: string)
    requires Inv(s) && ValidOracle(o) && LiveFolder(s.nodes, at) && forall c :: !IsChild(s.nodes, at, name, c)
    ensures CanInsert(s.nodes, NewRowId(s, o), at, name)
  {
    assert o.gen(s.nodes.Keys + {""}) !in s.nodes.Keys + {""};
  }

  lemma ClearedEnds(s: State, r: RequestId, o: Oracle) returns (k: nat)
    requires Inv(s) && IsPut(s, r) && s.requests[r].pc.Cleared? && ValidOracle(o)
    requires forall c :: !IsChild(s.nodes, s.requests[r].pc.at, o.stage, c)
    ensures var q := s.requests[r]; Ends(s, r, o, k, !Blocked(s.nodes, "", q.pc.at, q.name))
  {
    hide Inv, View, Alone, Ends, Blocked;
    var q := s.requests[r];
    var at := q.pc.at;
    var id := NewRowId(s, o);
    ClearedAt(s, r);
    UniqueRows(s);
    NewRowFree(s, o, at, o.stage);
    StageKeeps(s, r, id, o.stage, o.channel);
    var u := PutStep(s, Stage(r, id, o.stage, o.channel), r);
    StagedBlocked(s.nodes, u.nodes, id, at, q.name);
    if q.body == [] {
      k := SizedEnds(u, r, o);
    } else {
      k := SendingEnds(u, r, o);
    }
    EndsLater(s, r, o, u, k, !Blocked(s.nodes, "", at, q.name));
    k := k + 1;
  }

  lemma StagedBlocked(t: Table, u: Table, id: Id, at: Id, name: string)
    requires id !in t && "" !in t && id in u && u == t[id := u[id]]
    ensures Blocked(u, id, at, name) <==> Blocked(t, "", at, name)
  {
    if c :| c != "" && IsChild(t, at, name, c) && (t[c].kind == Folder || t[c].status == Pending) {
      assert IsChild(u, at, name, c);
    }
    if c :| c != id && IsChild(u, at, name, c) && (u[c].kind == Folder || u[c].status == Pending) {
      assert IsChild(t, at, name, c);
    }
  }

  lemma CheckedEnds(s: State, r: RequestId, o: Oracle) returns (k: nat)
    requires Inv(s) && IsPut(s, r) && s.requests[r].pc.Walking? && s.requests[r].pc.i == |s.requests[r].dirs|
    requires ValidOracle(o) && forall c :: !IsChild(s.nodes, s.requests[r].pc.at, o.stage, c)
    ensures Ends(s, r, o, k, !Blocked(s.nodes, "", s.requests[r].pc.at, s.requests[r].name))
  {
    hide Inv, View, Alone, Ends, Blocked, FindChild;
    var q := s.requests[r];
    var at := q.pc.at;
    var u := PutStep(s, CheckName(r), r);
    CheckNameKeeps(s, r);
    UniqueRows(s);
    if FindChild(s.nodes, at, q.name).Some? && s.nodes[FindChild(s.nodes, at, q.name).value].kind == Folder {
      FolderBlocks(s.nodes, at, q.name);
      EndsNow(s, r, o, u, false);
      k := 1;
    } else {
      k := ClearedEnds(u, r, o);
      EndsLater(s, r, o, u, k, !Blocked(s.nodes, "", at, q.name));
      k := k + 1;
    }
  }

  lemma FolderBlocks(t: Table, at: Id, name: string)
    requires "" !in t && FindChild(t, at, name).Some? && t[FindChild(t, at, name).value].kind == Folder
    ensures Blocked(t, "", at, name)
  {
    assert IsChild(t, at, name, FindChild(t, at, name).value);
  }

  /** The walk, from folder `at` on: it ends, with the object stored exactly when it can be. */
  lemma {:induction false} WalkEnds(s: State, r: RequestId, o: Oracle) returns (k: nat)
    requires Inv(s) && IsPut(s, r) && s.requests[r].pc.Walking? && s.requests[r].pc.i <= |s.requests[r].dirs|
    requires ValidOracle(o) && Unstaged(s.nodes, s.requests[r], o.stage)
    ensures var q := s.requests[r]; Ends(s, r, o, k, CanPut(s.nodes, q.pc.at, q.dirs[q.pc.i..], q.name))
    decreases |s.requests[r].dirs| - s.requests[r].pc.i, 1
  {
    hide Inv, View, Alone, Ends, Blocked, FindChild, ValidName, Unstaged, CanPut;
    var q := s.requests[r];
    var at, i := q.pc.at, q.pc.i;
    if i == |q.dirs| {
      assert q.dirs[i..] == [];
      AtEnd(s.nodes, at, q.name);
      NoneStaged(s.nodes, q, o.stage);
      k := CheckedEnds(s, r, o);
    } else {
      assert q.dirs[i..][0] == q.dirs[i] && q.dirs[i..][1..] == q.dirs[i + 1..];
      var c := FindChild(s.nodes, at, q.dirs[i]);
      var u := PutStep(s, FindDir(r), r);
      FindDirKeeps(s, r);
      UniqueRows(s);
      Descend(s.nodes, at, q.dirs[i..], q.name);
      if c.None? {
        StillUnstaged(s.nodes, q, u.requests[r], o.stage);
        k := AbsentEnds(u, r, o);
        EndsLater(s, r, o, u, k, CanPut(s.nodes, at, q.dirs[i..], q.name));
        k := k + 1;
      } else if s.nodes[c.value].kind == Folder {
        StillUnstaged(s.nodes, q, u.requests[r], o.stage);
        k := WalkEnds(u, r, o);
        EndsLater(s, r, o, u, k, CanPut(s.nodes, at, q.dirs[i..], q.name));
        k := k + 1;
      } else {
        EndsNow(s, r, o, u, false);
        k := 1;
      }
    }
  }

  /** Nobody uses the staging name yet, nor will this walk. */
  ghost predicate Unstaged(t: Table, q: Request, stage: string)
    requires q.Put?
  {
    NewName(t, stage) && stage !in q.dirs
  }

  lemma NoneStaged(t: Table, q: Request, stage: string)
    requires q.Put? && q.pc.Walking? && Unstaged(t, q, stage)
    ensures forall c :: !IsChild(t, q.pc.at, stage, c)
  {}

  lemma StillUnstaged(t: Table, q: Request, p: Request, stage: string)
    requires q.Put? && p.Put? && p.dirs == q.dirs && Unstaged(t, q, stage)
    ensures Unstaged(t, p, stage)
  {}

  lemma AtEnd(t: Table, at: Id, name: string)
    ensures CanPut(t, at, [], name) <==> !Blocked(t, "", at, name)
  {}

  lemma Descend(t: Table, at: Id, dirs: seq<string>, name: string)
    requires UniqueNames(t) && dirs != []
    ensures var c := FindChild(t, at, dirs[0]);
      CanPut(t, at, dirs, name) <==>
        if c.None? then forall d | d in dirs :: ValidName(d)
        else t[c.value].kind == Folder && CanPut(t, c.value, dirs[1..], name)
  {
    hide ValidName;
    var c := FindChild(t, at, dirs[0]);
    if c.Some? {
      assert IsChild(t, at, dirs[0], c.value);
      forall x | IsChild(t, at, dirs[0], x) ensures x == c.value {
        FindChildIs(t, at, dirs[0], x);
      }
    }
  }

  lemma DirMadeAlone(s: State, r: RequestId, o: Oracle) returns (u: State)
    requires Inv(s) && IsPut(s, r) && s.requests[r].pc.Absent? && s.requests[r].pc.i < |s.requests[r].dirs|
    requires ValidOracle(o) && ValidName(s.requests[r].dirs[s.requests[r].pc.i])
    requires FindChild(s.nodes, s.requests[r].pc.at, s.requests[r].dirs[s.requests[r].pc.i]) == None
    ensures var q := s.requests[r]; var id := NewRowId(s, o);
      && u == Step(s, NextCall(s, r, o)) && Inv(u) && View(u) == View(s) && id !in s.nodes
      && u.nodes == s.nodes[id := FolderRow(q.pc.at, q.dirs[q.pc.i])] && Shape(s.nodes) && q.pc.at in s.nodes
      && IsPut(u, r) && u.requests[r] == q.(pc := Walking(id, q.pc.i + 1))
  {
    hide Inv, View, FindChild, ValidName;
    var q := s.requests[r];
    var id := NewRowId(s, o);
    u := PutStep(s, MakeDir(r, id), r);
    MakeDirKeeps(s, r, id);
    AbsentAt(s, r);
    FreeName(s.nodes, q.pc.at, q.dirs[q.pc.i]);
    NewRowFree(s, o, q.pc.at, q.dirs[q.pc.i]);
    InvShape(s);
  }

  lemma InvShape(s: State)
    requires Inv(s)
    ensures Shape(s.nodes)
  {}

  lemma BadNameEnds(s: State, r: RequestId, o: Oracle)
    requires Inv(s) && IsPut(s, r) && s.requests[r].pc.Absent? && s.requests[r].pc.i < |s.requests[r].dirs|
    requires !ValidName(s.requests[r].dirs[s.requests[r].pc.i])
    ensures Ends(s, r, o, 1, false)
  {
    hide Inv, View, Alone, Ends, FindChild, ValidName, CanInsert;
    MakeDirKeeps(s, r, NewRowId(s, o));
    EndsNow(s, r, o, PutStep(s, MakeDir(r, NewRowId(s, o)), r), false);
  }

  /** A missing folder is made, and those below it after it. */
  lemma {:induction false} AbsentEnds(s: State, r: RequestId, o: Oracle) returns (k: nat)
    requires Inv(s) && IsPut(s, r) && s.requests[r].pc.Absent? && s.requests[r].pc.i < |s.requests[r].dirs|
    requires ValidOracle(o) && Unstaged(s.nodes, s.requests[r], o.stage)
    requires FindChild(s.nodes, s.requests[r].pc.at, s.requests[r].dirs[s.requests[r].pc.i]) == None
    ensures var q := s.requests[r]; Ends(s, r, o, k, forall d | d in q.dirs[q.pc.i..] :: ValidName(d))
    decreases |s.requests[r].dirs| - s.requests[r].pc.i, 0
  {
    hide Inv, View, Alone, Ends, FindChild, ValidName, Unstaged, CanPut, Step, NextCall, PutStep, Shape;
    var q := s.requests[r];
    FirstAndRest(q.dirs, q.pc.i);
    if ValidName(q.dirs[q.pc.i]) {
      var u := DirMadeAlone(s, r, o);
      var id := NewRowId(s, o);
      MadeUnstaged(s.nodes, u.nodes, q, u.requests[r], id, o.stage);
      k := WalkEnds(u, r, o);
      EmptyFolder(s.nodes, u.nodes, id, q.dirs[q.pc.i + 1..], q.name);
      EndsLater(s, r, o, u, k, forall d | d in q.dirs[q.pc.i..] :: ValidName(d));
      k := k + 1;
    } else {
      BadNameEnds(s, r, o);
      k := 1;
    }
  }

  lemma FreeName(t: Table, at: Id, name: string)
    requires FindChild(t, at, name) == None
    ensures forall c :: !IsChild(t, at, name, c)
  {}

  lemma FirstAndRest(dirs: seq<string>, i: nat)
    requires i < |dirs|
    ensures (forall d | d in dirs[i..] :: ValidName(d)) <==>
      ValidName(dirs[i]) && forall d | d in dirs[i + 1..] :: ValidName(d)
  {
    hide ValidName;
    assert dirs[i..] == [dirs[i]] + dirs[i + 1..];
  }

  lemma MadeUnstaged(t: Table, u: Table, q: Request, p: Request, id: Id, stage: string)
    requires q.Put? && q.pc.Absent? && q.pc.i < |q.dirs| && p.Put? && p.dirs == q.dirs && Unstaged(t, q, stage)
    requires u == t[id := FolderRow(q.pc.at, q.dirs[q.pc.i])]
    ensures Unstaged(u, p, stage)
  {
    assert q.dirs[q.pc.i] in q.dirs;
  }

  /** Nothing is in the way in a new folder. */
  lemma EmptyFolder(t: Table, u: Table, id: Id, dirs: seq<string>, name: string)
    requires Shape(t) && id !in t && id in u && u == t[id := u[id]] && u[id].parent.Some? && u[id].parent.value in t
    ensures CanPut(u, id, dirs, name) <==> forall d | d in dirs :: ValidName(d)
  {
    hide ValidName;
    forall c | c in u ensures u[c].parent != Some(id) {
      if c != id && c != ROOT { RowParent(t, c); }
    }
    assert forall n, c :: !IsChild(u, id, n, c);
  }

  // ---- whole puts ----

  /** The key can be put: its bucket is there, and below it nothing is in the way. */
  ghost predicate Puttable(t: Table, bucket: string, dirs: seq<string>, name: string) {
    exists b :: IsChild(t, ROOT, bucket, b) && t[b].kind == Folder && CanPut(t, b, dirs, name)
  }

  lemma InBucket(t: Table, bucket: string, dirs: seq<string>, name: string)
    requires UniqueNames(t)
    ensures Puttable(t, bucket, dirs, name) <==>
      BucketFolder(t, bucket) && CanPut(t, FindChild(t, ROOT, bucket).value, dirs, name)
  {
    hide CanPut;
    forall b | IsChild(t, ROOT, bucket, b) ensures FindChild(t, ROOT, bucket) == Some(b) {
      FindChildIs(t, ROOT, bucket, b);
    }
  }

  /** A put that nothing disturbs returns; afterwards its key holds its object, all of it,
      and every other key what it held, exactly when the key can be put. Otherwise
      nothing has changed. Folders on the way are made, and a finished object at the key
      is replaced. */
  lemma PutEnds(s: State, r: RequestId, q: Request, o: Oracle) returns (k: nat)
    requires Inv(s) && r !in s.requests && s.deleting.None? && q.Put? && q.pc.Start?
    requires ValidOracle(o) && Unstaged(s.nodes, q, o.stage)
    ensures var e := Alone(Step(s, Begin(r, q)), r, o, k);
      && r !in e.requests
      && View(e) == if Puttable(s.nodes, q.bucket, q.dirs, q.name) then View(s)[OwnAddress(q) := ObjectAt(q)]
        else View(s)
  {
    hide Inv, View, Alone, FindChild, Unstaged, CanPut, Puttable, BucketFolder;
    var begun := Step(s, Begin(r, q));
    BeginKeeps(s, r, q);
    assert begun == With(s, r, q);
    var u := PutStep(begun, FindBucket(r), r);
    FindBucketKeeps(begun, r);
    UniqueRows(s);
    InBucket(s.nodes, q.bucket, q.dirs, q.name);
    if BucketFolder(s.nodes, q.bucket) {
      assert q.dirs[0..] == q.dirs;
      StillUnstaged(s.nodes, q, u.requests[r], o.stage);
      k := WalkEnds(u, r, o);
      EndsLater(begun, r, o, u, k, Puttable(s.nodes, q.bucket, q.dirs, q.name));
      k := k + 1;
    } else {
      EndsNow(begun, r, o, u, false);
      k := 1;
    }
  }
}
