/** Multipart uploads: parts staged on disk, put again, aborted and assembled. Each
    method is one atomic step of a request; requests interleave between steps. */
module Multipart {
  import opened Wrappers
  import opened Bytes
  import opened Chunks

  type UploadId = string

  datatype Error = UnknownUpload | InvalidPart | MalformedXml | InvalidPartOrder | EntityTooSmall | Io

  const MIN_PART: nat := 5 * 1024 * 1024

  const MAX_PART_NO: int := 10000

  datatype PartBuffer = PartBuffer(size: nat, md5: string)

  datatype PartRequest = PartRequest(number: int, etag: string)

  /** An assembly in progress: it holds the upload's mutex. */
  datatype Session = Session(requested: seq<PartRequest>, bodies: seq<ByteString>)

  datatype Upload = Upload(bucket: string, key: string, parts: map<int, PartBuffer>, session: Option<Session>)

  datatype Version = Version(upload: UploadId, number: int, data: ByteString)

  /** The last version of a part that was committed. */
  function Latest(log: seq<Version>, id: UploadId, number: int): Option<ByteString> {
    if log == [] then None
    else
      var v := log[|log| - 1];
      if v.upload == id && v.number == number then Some(v.data) else Latest(log[..|log| - 1], id, number)
  }

  lemma LatestAdd(log: seq<Version>, v: Version, id: UploadId, number: int)
    ensures Latest(log + [v], id, number) == if v.upload == id && v.number == number then Some(v.data)
      else Latest(log, id, number)
  {
    assert (log + [v])[..|log|] == log;
  }

  // ---- the checks of `assemble` ----

  function TrimQuotes(s: string): string {
    if s != "" && s[0] == '"' then TrimQuotes(s[1..])
    else if s != "" && s[|s| - 1] == '"' then TrimQuotes(s[..|s| - 1])
    else s
  }

  ghost predicate Unquoted(s: string) {
    s != "" ==> s[0] != '"' && s[|s| - 1] != '"'
  }

  /** Quotes around a digest are dropped, however many, and nothing else. */
  lemma {:induction false} QuotesDropped(front: string, s: string, back: string)
    requires (forall i | 0 <= i < |front| :: front[i] == '"') && (forall i | 0 <= i < |back| :: back[i] == '"') &&
      Unquoted(s)
    ensures TrimQuotes(front + s + back) == s
    decreases |front| + |back|
  {
    var t := front + s + back;
    if front != "" {
      assert t[0] == front[0] && t[1..] == front[1..] + s + back;
      QuotesDropped(front[1..], s, back);
    } else if back != "" {
      var n := |back| - 1;
      assert t[|t| - 1] == back[n] && t[..|t| - 1] == front + s + back[..n];
      if s == "" {
        assert t == back && t[1..] == front + s + back[1..];
        QuotesDropped(front, s, back[1..]);
      } else {
        QuotesDropped(front, s, back[..n]);
      }
    } else {
      assert t == s;
    }
  }

  /** The first complaint about requests `i` and later, after number `previous`. */
  function Check(parts: map<int, PartBuffer>, requested: seq<PartRequest>, i: nat, previous: int): Option<Error>
    requires i <= |requested|
    decreases |requested| - i
  {
    if i == |requested| then None
    else
      var p := requested[i];
      if p.number <= previous then Some(InvalidPartOrder)
      else if p.number !in parts then Some(InvalidPart)
      else if TrimQuotes(p.etag) != parts[p.number].md5 then Some(InvalidPart)
      else if i < |requested| - 1 && parts[p.number].size < MIN_PART then Some(EntityTooSmall)
      else Check(parts, requested, i + 1, p.number)
  }

  /** Numbers strictly increasing from 1, each uploaded with the given ETag, all but
      the last of at least `MIN_PART` bytes. */
  ghost predicate Acceptable(parts: map<int, PartBuffer>, requested: seq<PartRequest>) {
    && (forall i | 0 <= i < |requested| ::
      requested[i].number in parts && TrimQuotes(requested[i].etag) == parts[requested[i].number].md5)
    && (forall i, j | 0 <= i < j < |requested| :: requested[i].number < requested[j].number)
    && (requested != [] ==> requested[0].number > 0)
    && (forall i | 0 <= i < |requested| - 1 :: parts[requested[i].number].size >= MIN_PART)
  }

  ghost predicate Passes(parts: map<int, PartBuffer>, requested: seq<PartRequest>, i: nat, k: nat, previous: int)
    requires i <= k < |requested|
  {
    && requested[k].number in parts && TrimQuotes(requested[k].etag) == parts[requested[k].number].md5
    && requested[k].number > (if k == i then previous else requested[k - 1].number)
    && (k < |requested| - 1 ==> parts[requested[k].number].size >= MIN_PART)
  }

  lemma {:induction false} CheckFrom(parts: map<int, PartBuffer>, requested: seq<PartRequest>, i: nat, previous: int)
    requires i <= |requested|
    ensures Check(parts, requested, i, previous) == None <==> forall k | i <= k < |requested| ::
      Passes(parts, requested, i, k, previous)
    decreases |requested| - i
  {
    if i < |requested| {
      var number, next := requested[i].number, i + 1;
      CheckFrom(parts, requested, next, number);
      if forall k | i <= k < |requested| :: Passes(parts, requested, i, k, previous) {
        assert Passes(parts, requested, i, i, previous);
        forall k | next <= k < |requested| ensures Passes(parts, requested, next, k, number) {
          assert Passes(parts, requested, i, k, previous);
        }
      }
      if Check(parts, requested, i, previous) == None {
        forall k | i <= k < |requested| ensures Passes(parts, requested, i, k, previous) {
          if k > i { assert Passes(parts, requested, next, k, number); }
        }
      }
    }
  }

  lemma {:induction false} Increasing(requested: seq<PartRequest>, i: nat, j: nat)
    requires i < j < |requested| && forall k | 1 <= k < |requested| :: requested[k].number > requested[k - 1].number
    ensures requested[i].number < requested[j].number
    decreases j
  {
    if i < j - 1 {
      Increasing(requested, i, j - 1);
    }
  }

  /** The checks pass exactly for an acceptable list. */
  lemma CheckMeans(parts: map<int, PartBuffer>, requested: seq<PartRequest>)
    ensures Check(parts, requested, 0, 0) == None <==> Acceptable(parts, requested)
  {
    CheckFrom(parts, requested, 0, 0);
    if Check(parts, requested, 0, 0) == None {
      forall k | 0 <= k < |requested|
        ensures requested[k].number in parts && TrimQuotes(requested[k].etag) == parts[requested[k].number].md5
        ensures requested[k].number > (if k == 0 then 0 else requested[k - 1].number)
        ensures k < |requested| - 1 ==> parts[requested[k].number].size >= MIN_PART
      {
        assert Passes(parts, requested, 0, k, 0);
      }
      forall i, j | 0 <= i < j < |requested| ensures requested[i].number < requested[j].number {
        Increasing(requested, i, j);
      }
    }
    if Acceptable(parts, requested) {
      forall k | 0 <= k < |requested| ensures Passes(parts, requested, 0, k, 0) {}
    }
  }

  /** The complaint about one request: a number that does not increase, a part that is not
      there or has another digest, a part too small that is not the last. */
  ghost predicate Complains(parts: map<int, PartBuffer>, requested: seq<PartRequest>, k: nat, e: Error)
    requires k < |requested|
  {
    var p := requested[k];
    var increases := p.number > (if k == 0 then 0 else requested[k - 1].number);
    var matches := p.number in parts && TrimQuotes(p.etag) == parts[p.number].md5;
    || (e == InvalidPartOrder && !increases)
    || (e == InvalidPart && increases && !matches)
    || (e == EntityTooSmall && increases && matches && k < |requested| - 1 && parts[p.number].size < MIN_PART)
  }

  lemma {:induction false} FirstComplaint(parts: map<int, PartBuffer>, requested: seq<PartRequest>, i: nat,
      previous: int)
    returns (k: nat)
    requires i <= |requested| && Check(parts, requested, i, previous).Some?
    requires previous == if i == 0 then 0 else requested[i - 1].number
    ensures i <= k < |requested| && Complains(parts, requested, k, Check(parts, requested, i, previous).value)
    ensures forall j | i <= j < k :: Passes(parts, requested, 0, j, 0)
    decreases |requested| - i
  {
    if Complains(parts, requested, i, Check(parts, requested, i, previous).value) {
      k := i;
    } else {
      k := FirstComplaint(parts, requested, i + 1, requested[i].number);
      assert Passes(parts, requested, 0, i, 0);
    }
  }

  /** An error is the complaint about the first request that does not pass. */
  lemma CheckError(parts: map<int, PartBuffer>, requested: seq<PartRequest>)
    requires Check(parts, requested, 0, 0).Some?
    ensures exists k: nat ::
      k < |requested| && Complains(parts, requested, k, Check(parts, requested, 0, 0).value) &&
      forall j | 0 <= j < k :: Passes(parts, requested, 0, j, 0)
  {
    var k := FirstComplaint(parts, requested, 0, 0);
  }

  /** The current versions of the requested parts. */
  function Versions(log: seq<Version>, id: UploadId, requested: seq<PartRequest>): seq<ByteString> {
    seq(|requested|, i requires 0 <= i < |requested| =>
      match Latest(log, id, requested[i].number) case None => [] case Some(data) => data)
  }

  type Files = map<(UploadId, int), ByteString>

  type Digest = ByteString -> string

  /** A part buffer describes the latest committed version, and its file, while it is there, holds it. */
  ghost predicate Current(uploads: map<UploadId, Upload>, files: Files, log: seq<Version>, md5: Digest) {
    forall id, n | id in uploads && n in uploads[id].parts ::
      && 1 <= n <= MAX_PART_NO
      && Latest(log, id, n).Some?
      && uploads[id].parts[n] == PartBuffer(|Latest(log, id, n).value|, md5(Latest(log, id, n).value))
      && ((id, n) in files ==> files[(id, n)] == Latest(log, id, n).value)
  }

  /** An assembly under way passed the checks and has opened latest versions so far. */
  ghost predicate SessionsSound(uploads: map<UploadId, Upload>, log: seq<Version>) {
    forall id | id in uploads && uploads[id].session.Some? ::
      var s := uploads[id].session.value;
      Acceptable(uploads[id].parts, s.requested) && |s.bodies| <= |s.requested| && s.requested != [] &&
      s.bodies == Versions(log, id, s.requested)[..|s.bodies|]
  }

  class MultipartTracker {
    const md5: Digest
    /** The uploads a request can still look up. */
    var known: set<UploadId>
    /** Every upload ever created; a request may hold one that is no longer known. */
    var uploads: map<UploadId, Upload>
    /** The staging directories, the files of committed parts, and the temporary files. */
    var dirs: set<UploadId>
    var files: Files
    var temps: map<nat, UploadId>
    ghost var log: seq<Version>

    ghost predicate Valid()
      reads this
    {
      && known <= uploads.Keys && dirs <= uploads.Keys
      && (forall t | t in temps :: temps[t] in dirs)
      && (forall f | f in files :: f.0 in dirs && f.0 in uploads && f.1 in uploads[f.0].parts)
      && Current(uploads, files, log, md5) && SessionsSound(uploads, log)
    }

    constructor (md5: Digest)
      ensures Valid() && uploads == map[] && this.md5 == md5
    {
      this.md5 := md5;
      known, uploads, dirs, files, temps, log := {}, map[], {}, map[], map[], [];
    }

    method Create(id: UploadId, bucket: string, key: string)
      requires Valid() && id !in uploads
      modifies this
      ensures Valid()
      ensures known == old(known) + {id} && uploads == old(uploads)[id := Upload(bucket, key, map[], None)]
      ensures log == old(log) && files == old(files)
    {
      uploads := uploads[id := Upload(bucket, key, map[], None)];
      dirs := dirs + {id};
      known := known + {id};
    }

    /** `get`: a request that passed it goes on with the upload, whatever becomes of it. */
    method Find(id: UploadId) returns (r: Result<(), Error>)
      requires Valid()
      ensures r == if id in known then Ok(()) else Err(UnknownUpload)
      ensures r.Ok? ==> id in uploads
    {
      r := if id in known then Ok(()) else Err(UnknownUpload);
    }

    /** The start of `putPart`: the part number, then the lookup. */
    method CheckPart(id: UploadId, number: int) returns (r: Result<(), Error>)
      requires Valid()
      ensures r == if number < 1 || number > MAX_PART_NO then Err(InvalidPart)
                   else if id !in known then Err(UnknownUpload)
                   else Ok(())
      ensures r.Ok? ==> id in uploads
    {
      if number < 1 || number > MAX_PART_NO {
        return Err(InvalidPart);
      }
      r := Find(id);
    }

    /** The next step of `putPart` opens a temporary file, if an abort has not removed
        the directory since the lookup. */
    method StagePart(id: UploadId, temp: nat) returns (r: Result<nat, Error>)
      requires Valid() && id in uploads && temp !in temps
      modifies this`temps
      ensures Valid()
      ensures r == if id in dirs then Ok(temp) else Err(Io)
      ensures temps == if r.Ok? then old(temps)[temp := id] else old(temps)
    {
      if id !in dirs {
        return Err(Io);
      }
      temps := temps[temp := id];
      r := Ok(temp);
    }

    /** A copy that failed: the temporary file goes. */
    method DropTemp(temp: nat)
      requires Valid()
      modifies this`temps
      ensures Valid() && temps == old(temps) - {temp}
    {
      temps := temps - {temp};
    }

    /** The end of `putPart`, under the upload's mutex: the renamed file replaces
        the part. It fails, and changes nothing else, once the file was removed. */
    method CommitPart(id: UploadId, number: int, temp: nat, data: ByteString) returns (r: Result<string, Error>)
      requires Valid() && id in uploads && uploads[id].session.None? && 1 <= number <= MAX_PART_NO
      requires temp in temps ==> temps[temp] == id
      modifies this
      ensures Valid() && known == old(known) && dirs == old(dirs) && temps == old(temps) - {temp}
      ensures r.Ok? <==> temp in old(temps)
      ensures r.Ok? ==> r.value == md5(data) && log == old(log) + [Version(id, number, data)]
      ensures r.Ok? ==> Latest(log, id, number) == Some(data) &&
                        forall i, n | i != id || n != number :: Latest(log, i, n) == Latest(old(log), i, n)
      ensures r.Err? ==> log == old(log) && uploads == old(uploads) && files == old(files)
    {
      hide Current, SessionsSound, Latest;
      if temp !in temps {
        return Err(Io);
      }
      temps := temps - {temp};
      ghost var before, ups, disk := log, uploads, files;
      log := log + [Version(id, number, data)];
      AddVersion(before, id, number, data);
      CommitCurrent(ups, disk, before, log, id, number, data, md5);
      CommitSessions(ups, before, log, id, number, PartBuffer(|data|, md5(data)));
      files := files[(id, number) := data];
      uploads := uploads[id := uploads[id].(parts := uploads[id].parts[number := PartBuffer(|data|, md5(data))])];
      r := Ok(md5(data));
    }

    /** First half of `abort`: the upload can no longer be looked up. */
    method Forget(id: UploadId)
      requires Valid()
      modifies this`known
      ensures Valid() && known == old(known) - {id}
    {
      known := known - {id};
    }

    /** Second half of `abort`: files of the upload are removed, perhaps not all at once. */
    method RemoveFiles(id: UploadId, numbers: set<int>, open: set<nat>)
      requires Valid()
      modifies this`files, this`temps, this`dirs
      ensures Valid() && (forall f | f in files :: f in old(files) && files[f] == old(files)[f])
      ensures forall f | f in old(files) && f !in files :: f.0 == id
    {
      files := map f | f in files && !(f.0 == id && f.1 in numbers) :: files[f];
      temps := map t | t in temps && !(temps[t] == id && t in open) :: temps[t];
      if (forall f | f in files :: f.0 != id) && (forall t | t in temps :: temps[t] != id) {
        dirs := dirs - {id};
      }
    }

    /** `assemble` after its lookup, up to the checks; on success it keeps the mutex and
        opens the parts next. An abort may have come in between. */
    method BeginAssemble(id: UploadId, requested: seq<PartRequest>) returns (r: Result<(), Error>)
      requires Valid() && id in uploads && uploads[id].session.None?
      modifies this`uploads
      ensures Valid()
      ensures r == if requested == [] then Err(MalformedXml)
                   else match Check(old(uploads)[id].parts, requested, 0, 0) case Some(e) => Err(e) case None => Ok(())
      ensures r.Ok? ==> uploads == old(uploads)[id := old(uploads)[id].(session := Some(Session(requested, [])))]
      ensures r.Err? ==> uploads == old(uploads)
    {
      if |requested| == 0 {
        return Err(MalformedXml);
      }
      var parts := uploads[id].parts;
      var previous := 0;
      var i := 0;
      while i < |requested|
        invariant 0 <= i <= |requested| && uploads == old(uploads)
        invariant Check(parts, requested, 0, 0) == Check(parts, requested, i, previous)
      {
        var p := requested[i];
        if p.number <= previous {
          return Err(InvalidPartOrder);
        }
        previous := p.number;
        if p.number !in parts {
          return Err(InvalidPart);
        }
        if TrimQuotes(p.etag) != parts[p.number].md5 {
          return Err(InvalidPart);
        }
        if i < |requested| - 1 && parts[p.number].size < MIN_PART {
          return Err(EntityTooSmall);
        }
        i := i + 1;
      }
      CheckMeans(parts, requested);
      uploads := uploads[id := uploads[id].(session := Some(Session(requested, [])))];
      r := Ok(());
    }

    /** Open the next part; a file removed meanwhile ends the assembly in an error. */
    method OpenNext(id: UploadId) returns (r: Result<(), Error>)
      requires Valid() && id in uploads && uploads[id].session.Some?
      requires var s := uploads[id].session.value; |s.bodies| < |s.requested|
      modifies this`uploads
      ensures Valid() && id in uploads
      ensures r.Ok? <==> var s := old(uploads)[id].session.value; (id, s.requested[|s.bodies|].number) in files
      ensures r.Ok? ==>
        uploads[id].session.Some? &&
        uploads[id].session.value.requested == old(uploads)[id].session.value.requested
      ensures r.Ok? ==> |uploads[id].session.value.bodies| == |old(uploads)[id].session.value.bodies| + 1
      ensures r.Err? ==> uploads == old(uploads)[id := old(uploads)[id].(session := None)]
    {
      var s := uploads[id].session.value;
      var k := |s.bodies|;
      var f := (id, s.requested[k].number);
      if f !in files {
        uploads := uploads[id := uploads[id].(session := None)];
        return Err(Io);
      }
      uploads := uploads[id := uploads[id].(session := Some(s.(bodies := s.bodies + [files[f]])))];
      assert Versions(log, id, s.requested)[..k + 1] ==
        Versions(log, id, s.requested)[..k] + [Versions(log, id, s.requested)[k]];
      r := Ok(());
    }

    /** The end of `assemble`: the reader over the open files, and the mutex released.
        Whatever other requests did in between, the numbers are strictly increasing,
        all parts but the last have the least size, each ETag is that of the latest
        version of its part, and the stream is the concatenation of those versions. */
    method EndAssemble(id: UploadId) returns (stream: ByteString)
      requires Valid() && id in uploads && uploads[id].session.Some?
      requires var s := uploads[id].session.value; |s.bodies| == |s.requested|
      modifies this`uploads
      ensures Valid()
      ensures uploads == old(uploads)[id := old(uploads)[id].(session := None)]
      ensures var requested := old(uploads)[id].session.value.requested;
        && requested != [] && (forall i | 0 <= i < |requested| :: 1 <= requested[i].number <= MAX_PART_NO)
        && (forall i, j | 0 <= i < j < |requested| :: requested[i].number < requested[j].number)
        && (forall i | 0 <= i < |requested| :: Latest(log, id, requested[i].number).Some? &&
              TrimQuotes(requested[i].etag) == md5(Latest(log, id, requested[i].number).value))
        && (forall i | 0 <= i < |requested| - 1 :: |Latest(log, id, requested[i].number).value| >= MIN_PART)
        && stream == Flatten(Versions(log, id, requested))
    {
      var s := uploads[id].session.value;
      stream := Flatten(s.bodies);
      assert s.bodies == Versions(log, id, s.requested);
      uploads := uploads[id := uploads[id].(session := None)];
    }
  }

  lemma AddVersion(before: seq<Version>, id: UploadId, number: int, data: ByteString)
    ensures var log := before + [Version(id, number, data)];
      Latest(log, id, number) == Some(data) && forall i, n | i != id || n != number ::
        Latest(log, i, n) == Latest(before, i, n)
  {
    forall i, n ensures Latest(before + [Version(id, number, data)], i, n) == if i == id && n == number then Some(data)
      else Latest(before, i, n)
    {
      LatestAdd(before, Version(id, number, data), i, n);
    }
  }

  lemma CommitCurrent(uploads: map<UploadId, Upload>, files: Files, before: seq<Version>, log: seq<Version>,
      id: UploadId, number: int, data: ByteString, md5: Digest)
    requires Current(uploads, files, before, md5) && id in uploads && 1 <= number <= MAX_PART_NO
    requires Latest(log, id, number) == Some(data) && forall i, n | i != id || n != number ::
      Latest(log, i, n) == Latest(before, i, n)
    ensures Current(uploads[id := uploads[id].(parts := uploads[id].parts[number := PartBuffer(|data|, md5(data))])],
                    files[(id, number) := data], log, md5)
  {
    hide Latest;
  }

  /** A commit cannot disturb an assembly: one of the same upload would hold the mutex,
      and the versions of every other upload are as they were. */
  lemma CommitSessions(uploads: map<UploadId, Upload>, before: seq<Version>, log: seq<Version>, id: UploadId,
      number: int, part: PartBuffer)
    requires SessionsSound(uploads, before) && id in uploads && uploads[id].session.None?
    requires forall i, n | i != id || n != number :: Latest(log, i, n) == Latest(before, i, n)
    ensures SessionsSound(uploads[id := uploads[id].(parts := uploads[id].parts[number := part])], log)
  {
    hide Latest, Acceptable;
    forall i, rs: seq<PartRequest> | i != id ensures Versions(log, i, rs) == Versions(before, i, rs) {
      assert forall k | 0 <= k < |rs| :: Latest(log, i, rs[k].number) == Latest(before, i, rs[k].number);
    }
  }
}
