/** What was uploaded is what is downloaded. */
module RoundTrips {
  import opened Wrappers
  import opened Bytes
  import opened Nodes
  import opened Stores
  import opened Chunks
  import opened Uploads
  import opened ObjectRanges
  import opened Numerals
  import D = Downloads

  /** A successful upload leaves part rows from which every range of the stream is
      read back: the premise of `DownloadRange`, with the stream as the content. */
  lemma UploadReadsBack(j: Job, states: seq<Upload>, actions: seq<Action>, i: nat)
    requires IsRun(j, states, actions) && i < |states| && states[i].pc == Succeeded
    ensures D.Recorded(states[i].messages, states[i].listed)
    ensures D.Content(states[i].messages, states[i].listed) == j.content
    ensures states[i].size == |j.content| && states[i].listed != [] && j.content != []
  {
    hide Next, Chunk, Regular, Flatten;
    SuccessHoldsStream(j, states, actions, i);
    var s := states[i];
    forall k | 0 <= k < |s.listed| ensures D.Blob(s.messages, s.listed[k]) == s.messages[s.listed[k].messageId] {
      assert s.listed[k] in s.listed;
    }
    assert D.Blobs(s.messages, s.listed) == Downloaded(s.messages, s.listed);
    CountBounds(|j.content|, j.chunkSize);
  }

  /** The answer to an object request: refused for its Range header, or the outcome of
      the download with what was written. */
  datatype Answer = Unsatisfiable | Served(outcome: Result<(), D.Fault>, written: ByteString)

  /** `getObject` on a published object that an upload of this server left: a header is
      unsatisfiable exactly as it parses, and otherwise the download never refuses it.
      What is written is the selected part of the uploaded stream, or, after a failure,
      a front of it. */
  method GetUploaded(
      d: D.Downloader, id: Id, header: string, ghost j: Job, ghost states: seq<Upload>, ghost actions: seq<Action>,
      ghost i: nat, size: int, ps: seq<FilePart>)
    returns (a: Answer)
    requires IsRun(j, states, actions) && i < |states| && states[i].pc == Succeeded
    requires d.messages == states[i].messages && ps == states[i].listed && size == states[i].size
    requires d.CacheSound(id, ps)
    modifies d`cache, d`calls
    ensures d.CacheSound(id, ps)
    ensures a.Unsatisfiable? <==> ObjectRange(header, size) == Refused
    ensures size == |j.content|
    ensures a.Served? ==> var r := ObjectRange(header, size);
      var wanted := if r.Part? then Slice(j.content, r.start, r.end) else j.content;
      (a.outcome.Ok? && a.written == wanted) ||
        (a.outcome == Err(D.Io) && a.written <= wanted && d.Failed(old(d.calls)))
    ensures forall n: nat | 0 < n <= MAX_INT64 && header == UNIT + "-" + Format(n, 10) ::
      a.Served? && (a.outcome.Ok? ==> a.written == j.content[if n < size then size - n else 0..])
    ensures forall n: nat | n <= MAX_INT64 && header == UNIT + Format(n, 10) + "-" ::
      if n < size then a.Served? && (a.outcome.Ok? ==> a.written == j.content[n..]) else a.Unsatisfiable?
    ensures forall m: nat, n: nat | m <= MAX_INT64 && n <= MAX_INT64 &&
      header == UNIT + Format(m, 10) + ("-" + Format(n, 10)) ::
      if m <= n && m < size
      then a.Served? && (a.outcome.Ok? ==> a.written == j.content[m..if n < size then n + 1 else size])
      else a.Unsatisfiable?
  {
    hide IsRun, D.Content, D.Recorded, ObjectRange;
    UploadReadsBack(j, states, actions, i);
    var r := ParseObjectRange(header, size);
    Forms(header, size, j.content);
    if r == Refused {
      return Unsatisfiable;
    }
    var outcome, w;
    if r == Whole {
      outcome, w := d.DownloadRange(id, File, Ready, size, ps, 0, -1);
      assert j.content[0..|j.content|] == j.content;
    } else {
      outcome, w := d.DownloadRange(id, File, Ready, size, ps, r.start, r.end);
    }
    a := Served(outcome, w);
  }

  /** What the forms of a header select of a stream. */
  lemma Forms(header: string, size: int, content: ByteString)
    requires size == |content| && size > 0
    ensures forall n: nat | 0 < n <= MAX_INT64 && header == UNIT + "-" + Format(n, 10) ::
      var r := ObjectRange(header, size);
      r.Part? && Slice(content, r.start, r.end) == content[if n < size then size - n else 0..]
    ensures forall n: nat | n <= MAX_INT64 && header == UNIT + Format(n, 10) + "-" ::
      var r := ObjectRange(header, size);
      if n < size then r.Part? && Slice(content, r.start, r.end) == content[n..] else r.Refused?
    ensures forall m: nat, n: nat | m <= MAX_INT64 && n <= MAX_INT64 &&
      header == UNIT + Format(m, 10) + ("-" + Format(n, 10)) ::
      var r := ObjectRange(header, size);
      if m <= n && m < size then r.Part? &&
        Slice(content, r.start, r.end) == content[m..if n < size then n + 1 else size]
      else r.Refused?
  {
    hide ObjectRange, Format;
    forall n: nat | 0 < n <= MAX_INT64 && header == UNIT + "-" + Format(n, 10)
      ensures var r := ObjectRange(header, size);
        r.Part? && Slice(content, r.start, r.end) == content[if n < size then size - n else 0..]
    {
      SuffixForm(n, size);
    }
    forall n: nat | n <= MAX_INT64 && header == UNIT + Format(n, 10) + "-"
      ensures var r := ObjectRange(header, size);
        if n < size then r.Part? && Slice(content, r.start, r.end) == content[n..] else r.Refused?
    {
      OpenForm(n, size);
    }
    forall m: nat, n: nat | m <= MAX_INT64 && n <= MAX_INT64 && header == UNIT + Format(m, 10) + ("-" + Format(n, 10))
      ensures var r := ObjectRange(header, size);
        if m <= n && m < size then r.Part? &&
          Slice(content, r.start, r.end) == content[m..if n < size then n + 1 else size]
        else r.Refused?
    {
      ClosedForm(m, n, size);
    }
  }
}
