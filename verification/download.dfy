/** `DownloadRange`: the disk cache, the filled cache and the streamed parts. */
module Downloads {
  import opened Wrappers
  import opened Bytes
  import opened Nodes
  import opened Stores
  import opened Chunks

  /** Files up to this size are cached before they are served. */
  const WAIT_CACHE_MAX: nat := 80 * 1024 * 1024

  datatype Fault = Missing | BadRange | Io

  /** The message of a part. */
  function Blob(messages: map<int, ByteString>, p: FilePart): ByteString {
    if p.messageId in messages then messages[p.messageId] else []
  }

  function Blobs(messages: map<int, ByteString>, ps: seq<FilePart>): seq<ByteString> {
    seq(|ps|, i requires 0 <= i < |ps| => Blob(messages, ps[i]))
  }

  /** What the file holds: its messages, in part order. */
  function Content(messages: map<int, ByteString>, ps: seq<FilePart>): ByteString {
    Flatten(Blobs(messages, ps))
  }

  /** The part table tells the size of each message, as a successful upload left it. */
  ghost predicate Recorded(messages: map<int, ByteString>, ps: seq<FilePart>) {
    forall p | p in ps :: p.messageId in messages && p.size == |messages[p.messageId]|
  }

  lemma BlobsAdd(messages: map<int, ByteString>, ps: seq<FilePart>, p: FilePart)
    ensures Content(messages, ps + [p]) == Content(messages, ps) + Blob(messages, p)
  {
    assert Blobs(messages, ps + [p]) == Blobs(messages, ps) + [Blob(messages, p)];
    FlattenAdd(Blobs(messages, ps), Blob(messages, p));
  }

  lemma {:induction false} PrefixOfContent(messages: map<int, ByteString>, ps: seq<FilePart>, i: nat)
    requires i <= |ps|
    ensures Content(messages, ps[..i]) <= Content(messages, ps)
    decreases |ps| - i
  {
    if i < |ps| {
      hide Content;
      BlobsAdd(messages, ps[..i], ps[i]);
      assert ps[..i + 1] == ps[..i] + [ps[i]];
      PrefixOfContent(messages, ps, i + 1);
    } else {
      assert ps[..i] == ps;
    }
  }

  function PartSizes(ps: seq<FilePart>): seq<nat>
    requires forall p | p in ps :: p.size >= 0
  {
    seq(|ps|, i requires 0 <= i < |ps| => assert ps[i] in ps; ps[i].size)
  }

  lemma RecordedSizes(messages: map<int, ByteString>, ps: seq<FilePart>)
    requires Recorded(messages, ps)
    ensures forall p | p in ps :: p.size >= 0
    ensures PartSizes(ps) == Sizes(Blobs(messages, ps))
    ensures Sum(PartSizes(ps)) == |Content(messages, ps)|
  {
    assert forall i | 0 <= i < |ps| :: ps[i] in ps;
    assert PartSizes(ps) == Sizes(Blobs(messages, ps));
    SumFlatten(Blobs(messages, ps));
  }

  /** The end of the range once it is cut to the file. */
  function LastByte(end: int, total: nat): int {
    if end < 0 || end >= total then total - 1 else end
  }

  class Downloader {
    /** The messages as they were sent. */
    const messages: map<int, ByteString>
    /** Which calls to Telegram and to the disk fail, in the order of the calls. Any may:
        a message that is gone from the channel is one whose calls all fail. */
    const fails: nat -> bool
    /** The calls so far. */
    var calls: nat
    /** Files under `mediacache`, by node. */
    var cache: map<Id, ByteString>

    constructor (messages: map<int, ByteString>, fails: nat -> bool)
      ensures this.messages == messages && this.fails == fails && calls == 0 && cache == map[]
    {
      this.messages := messages;
      this.fails := fails;
      calls := 0;
      cache := map[];
    }

    /** A cache file of the full length is the file. */
    ghost predicate CacheSound(id: Id, ps: seq<FilePart>)
      reads this`cache
    {
      id in cache && |cache[id]| == |Content(messages, ps)| ==> cache[id] == Content(messages, ps)
    }

    /** A call that was made since then has failed. */
    ghost predicate Failed(since: nat)
      reads this`calls
    {
      exists n: nat | since <= n < calls :: fails(n)
    }

    /** A call to the disk. */
    method Disk() returns (ok: bool)
      modifies this`calls
      ensures calls == old(calls) + 1 && ok == !fails(old(calls))
    {
      ok := !fails(calls);
      calls := calls + 1;
    }

    /** `DownloadPart`: the whole message, or an error after some of it. */
    method DownloadPart(p: FilePart) returns (ok: bool, w: ByteString)
      modifies this`calls
      ensures calls == old(calls) + 1
      ensures ok <==> p.messageId in messages && !fails(old(calls))
      ensures ok ==> w == messages[p.messageId]
      ensures w <= Blob(messages, p)
    {
      calls := calls + 1;
      if p.messageId !in messages {
        return false, [];
      }
      ok, w := true, messages[p.messageId];
      if fails(calls - 1) {
        var n :| 0 <= n <= |w|;
        ok, w := false, w[..n];
      }
    }

    /** `writePartSlice`. It fails only for a message that is not there or a failed call. */
    method WritePartSlice(p: FilePart, skip: nat, take: nat) returns (ok: bool, w: ByteString)
      requires p.messageId in messages ==> |messages[p.messageId]| == p.size
      requires skip + take <= p.size
      modifies this`calls
      ensures calls == old(calls) + 1
      ensures ok <==> p.messageId in messages && !fails(old(calls))
      ensures ok ==> w == messages[p.messageId][skip..skip + take]
      ensures !ok && p.messageId in messages ==> w <= messages[p.messageId][skip..skip + take]
      ensures !ok && p.messageId !in messages ==> w == []
    {
      if skip == 0 && take == p.size {
        ok, w := DownloadPart(p);
        return;
      }
      var data;
      ok, data := DownloadPart(p);
      if !ok || |data| < skip + take {
        return false, [];
      }
      w := data[skip..skip + take];
    }

    /** `ensureMediaCache`: fill a temporary file and move it into place. A cache file that
        is not the whole file is removed before the move, and may be lost if that fails. A
        fill fails only for an empty file or by a call that failed. */
    method EnsureMediaCache(id: Id, ps: seq<FilePart>) returns (ok: bool)
      requires Recorded(messages, ps) && CacheSound(id, ps)
      modifies this`cache, this`calls
      ensures old(calls) <= calls && CacheSound(id, ps)
      ensures ok ==> id in cache && cache[id] == Content(messages, ps)
      ensures !ok ==> Failed(old(calls)) || Content(messages, ps) == []
      ensures ok || cache == old(cache) ||
        (cache == old(cache) - {id} && id in old(cache) && old(cache)[id] != Content(messages, ps))
      ensures forall x | x != id :: (x in cache <==> x in old(cache)) && (x in cache ==> cache[x] == old(cache)[x])
    {
      hide Content, Recorded;
      RecordedSizes(messages, ps);
      var total := TotalOf(ps);
      if id in cache && |cache[id]| == total && total > 0 {
        return true;
      }
      ok := Disk();
      if !ok {
        return;
      }
      var tmp;
      ok, tmp := FetchParts(ps);
      if !ok || |tmp| == 0 {
        return false;
      }
      cache := cache - {id};
      ok := Disk();
      if ok {
        cache := cache[id := tmp];
      }
    }

    /** Every part in turn, into the temporary file. */
    method FetchParts(ps: seq<FilePart>) returns (ok: bool, tmp: ByteString)
      requires Recorded(messages, ps)
      modifies this`calls
      ensures old(calls) <= calls
      ensures if ok then tmp == Content(messages, ps) else Failed(old(calls))
    {
      tmp := [];
      var i := 0;
      assert Content(messages, ps[..0]) == [];
      while i < |ps|
        invariant 0 <= i <= |ps| && tmp == Content(messages, ps[..i]) && old(calls) <= calls
      {
        var got, w := DownloadPart(ps[i]);
        BlobsAdd(messages, ps[..i], ps[i]);
        assert ps[..i + 1] == ps[..i] + [ps[i]];
        assert ps[i] in ps;
        tmp := tmp + w;
        if !got {
          return false, tmp;
        }
        i := i + 1;
      }
      assert ps[..i] == ps;
      ok := true;
    }

    method TotalOf(ps: seq<FilePart>) returns (total: nat)
      requires forall p | p in ps :: p.size >= 0
      ensures total == Sum(PartSizes(ps))
    {
      total := 0;
      var i := 0;
      while i < |ps|
        invariant 0 <= i <= |ps| && total == Sum(PartSizes(ps)[..i])
      {
        assert ps[i] in ps;
        assert PartSizes(ps)[..i + 1] == PartSizes(ps)[..i] + [PartSizes(ps)[i]];
        SumAdd(PartSizes(ps)[..i], PartSizes(ps)[i]);
        total := total + ps[i].size;
        i := i + 1;
      }
      assert PartSizes(ps)[..i] == PartSizes(ps);
    }

    /** `serveLocalRange`: seek and copy. A file that is too short is an error; so is a
        read or a write that fails, after a front of the range. */
    method ServeLocalRange(file: ByteString, start: nat, end: int) returns (ok: bool, w: ByteString)
      requires start <= end
      modifies this`calls
      ensures calls == old(calls) + 1
      ensures ok <==> end < |file| && !fails(old(calls))
      ensures ok ==> w == Slice(file, start, end)
      ensures w <= Slice(file, start, end)
    {
      w := file[Min(start, |file|)..Min(end + 1, |file|)];
      var read := Disk();
      ok := read && |w| == end - start + 1;
      if !read {
        var n :| 0 <= n <= |w|;
        w := w[..n];
      }
    }

    /** The streaming loop over the reads. */
    method StreamParts(ps: seq<FilePart>, start: nat, end: nat) returns (ok: bool, w: ByteString)
      requires Recorded(messages, ps) && start <= end < |Content(messages, ps)|
      modifies this`calls
      ensures old(calls) <= calls
      ensures if ok then w == Content(messages, ps)[start..end + 1] else Failed(old(calls))
      ensures w <= Content(messages, ps)[start..end + 1]
    {
      hide Content, Gather, Fits, InOrder, Reads, Recorded;
      RecordedSizes(messages, ps);
      var ranges := MapRangeToParts(PartSizes(ps), start, end);
      assert ranges.Ok?;
      var rs := ranges.value;
      ghost var blobs := Blobs(messages, ps);
      WholeRange(messages, ps, start, end);
      w := [];
      var i := 0;
      NoneGathered(blobs, rs);
      while i < |rs|
        invariant 0 <= i <= |rs| && Fits(rs[..i], Sizes(blobs)) && old(calls) <= calls
        invariant w == Gather(blobs, rs[..i])
      {
        var r := rs[i];
        ReadAt(messages, ps, rs, i);
        var p := ps[r.partNo];
        GatherStep(blobs, rs, i);
        var got, piece := WritePartSlice(p, r.skip, r.take);
        if !got {
          StillPrefix(w, piece, blobs[r.partNo][r.skip..r.skip + r.take], Gather(blobs, rs[..i + 1]),
            Gather(blobs, rs));
          return false, w + piece;
        }
        w := w + piece;
        i := i + 1;
      }
      assert rs[..i] == rs;
      ok := true;
    }

    /** `DownloadRange`. A request is refused exactly for a file that is not ready or
        has no parts and for a range outside the file. What is written is always the
        front of the requested bytes, and all of them unless some call failed, whichever
        of the three ways serves it. */
    method DownloadRange(id: Id, kind: Kind, status: Status, size: int, ps: seq<FilePart>, start: int, end: int)
      returns (r: Result<(), Fault>, w: ByteString)
      requires Recorded(messages, ps) && CacheSound(id, ps)
      modifies this`cache, this`calls
      ensures old(calls) <= calls && CacheSound(id, ps)
      ensures forall x | x != id :: (x in cache <==> x in old(cache)) && (x in cache ==> cache[x] == old(cache)[x])
      ensures var total := |Content(messages, ps)|;
        var last := if 0 <= end < total then end else total - 1;
        if kind != File || status != Ready then r == Err(Missing) && w == []
        else if size == 0 && start == 0 && end < 0 then r.Ok? && w == []
        else if ps == [] then r == Err(Missing) && w == []
        else if start < 0 || start > last then r == Err(BadRange) && w == []
        else (r.Ok? ==> w == Content(messages, ps)[start..last + 1]) &&
             (r.Err? ==> r == Err(Io) && w <= Content(messages, ps)[start..last + 1] && Failed(old(calls)))
    {
      hide Content, Recorded;
      if kind != File || status != Ready {
        return Err(Missing), [];
      }
      if size == 0 && start == 0 && end < 0 {
        return Ok(()), [];
      }
      if ps == [] {
        return Err(Missing), [];
      }
      RecordedSizes(messages, ps);
      var total := TotalOf(ps);
      var last := LastByte(end, total);
      if start < 0 || start > last || start >= total {
        return Err(BadRange), [];
      }
      r, w := ServeRange(id, ps, start, last);
    }

    /** The three ways to serve a range: from the cache file, from a cache file filled first,
        or part by part. */
    method ServeRange(id: Id, ps: seq<FilePart>, start: nat, last: nat) returns (r: Result<(), Fault>, w: ByteString)
      requires Recorded(messages, ps) && CacheSound(id, ps) && start <= last < |Content(messages, ps)|
      modifies this`cache, this`calls
      ensures old(calls) <= calls && CacheSound(id, ps)
      ensures forall x | x != id :: (x in cache <==> x in old(cache)) && (x in cache ==> cache[x] == old(cache)[x])
      ensures r.Ok? ==> w == Content(messages, ps)[start..last + 1]
      ensures r.Err? ==> r == Err(Io) && w <= Content(messages, ps)[start..last + 1] && Failed(old(calls))
    {
      hide Content, Recorded;
      RecordedSizes(messages, ps);
      var total := TotalOf(ps);
      var ok := false;
      if id in cache && |cache[id]| == total {
        ok, w := ServeLocalRange(cache[id], start, last);
      } else if 0 < total <= WAIT_CACHE_MAX {
        var cached := EnsureMediaCache(id, ps);
        if !cached {
          return Err(Io), [];
        }
        ok, w := ServeLocalRange(cache[id], start, last);
      } else {
        if * {
          var _ := EnsureMediaCache(id, ps);
        }
        ok, w := StreamParts(ps, start, last);
      }
      r := if ok then Ok(()) else Err(Io);
    }
  }

  /** The reads of a range bring its bytes. */
  lemma WholeRange(messages: map<int, ByteString>, ps: seq<FilePart>, start: nat, end: nat)
    requires Recorded(messages, ps) && start <= end < |Content(messages, ps)| && (forall p | p in ps :: p.size >= 0)
    ensures var rs := Reads(PartSizes(ps), start, end);
      Fits(rs, Sizes(Blobs(messages, ps))) && Gather(Blobs(messages, ps), rs) == Content(messages, ps)[start..end + 1]
  {
    hide Reads, Gather, Fits;
    RecordedSizes(messages, ps);
    ReadsBringSlice(Blobs(messages, ps), start, end);
    OrderFits(Reads(PartSizes(ps), start, end), Sizes(Blobs(messages, ps)));
  }

  lemma NoneGathered(blobs: seq<ByteString>, rs: seq<PartRange>)
    ensures Fits(rs[..0], Sizes(blobs)) && Gather(blobs, rs[..0]) == []
  {}

  lemma ReadAt(messages: map<int, ByteString>, ps: seq<FilePart>, rs: seq<PartRange>, i: nat)
    requires Recorded(messages, ps) && Fits(rs, Sizes(Blobs(messages, ps))) && i < |rs|
    ensures rs[i].partNo < |ps|
    ensures var p := ps[rs[i].partNo];
      p in ps && p.messageId in messages && messages[p.messageId] == Blobs(messages, ps)[rs[i].partNo] &&
      |messages[p.messageId]| == p.size && rs[i].skip + rs[i].take <= p.size
  {}

  lemma GatherOne<T>(parts: seq<seq<T>>, rs: seq<PartRange>, i: nat)
    requires Fits(rs, Sizes(parts)) && i < |rs|
    ensures Fits(rs[..i], Sizes(parts)) && Fits(rs[..i + 1], Sizes(parts))
    ensures rs[i].partNo < |parts| && rs[i].skip + rs[i].take <= |parts[rs[i].partNo]|
    ensures Gather(parts, rs[..i + 1]) ==
      Gather(parts, rs[..i]) + parts[rs[i].partNo][rs[i].skip..rs[i].skip + rs[i].take]
  {
    assert rs[..i + 1][..i] == rs[..i];
  }

  lemma {:induction false} GatherStep<T>(parts: seq<seq<T>>, rs: seq<PartRange>, i: nat)
    requires Fits(rs, Sizes(parts)) && i < |rs|
    ensures Fits(rs[..i], Sizes(parts)) && Fits(rs[..i + 1], Sizes(parts))
    ensures rs[i].partNo < |parts| && rs[i].skip + rs[i].take <= |parts[rs[i].partNo]|
    ensures Gather(parts, rs[..i + 1]) ==
      Gather(parts, rs[..i]) + parts[rs[i].partNo][rs[i].skip..rs[i].skip + rs[i].take]
    ensures Gather(parts, rs[..i + 1]) <= Gather(parts, rs)
    decreases |rs| - i
  {
    hide Gather, Fits;
    GatherOne(parts, rs, i);
    if i + 1 == |rs| {
      assert rs[..i + 1] == rs;
    } else {
      GatherStep(parts, rs, i + 1);
    }
  }

  lemma StillPrefix<T>(before: seq<T>, piece: seq<T>, whole: seq<T>, next: seq<T>, all: seq<T>)
    requires piece <= whole && next == before + whole && next <= all
    ensures before + piece <= all
  {}
}
