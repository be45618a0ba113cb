/** What an upload settles before its first byte: a free name, and room on the disk. */
module UploadStart {
  import opened Wrappers
  import opened Nodes
  import opened Numerals
  import opened SearchIndex
  import opened Stores
  import opened MergeSpec

  // ---- the name ----

  /** `<stem> (<i>)<ext>`; the 0-th candidate is the name itself. */
  function Candidate(name: string, i: nat): string {
    if i == 0 then name else Stem(name, true) + " (" + Format(i, 10) + ")" + Extension(name, true)
  }

  /** A number in brackets before the extension. */
  lemma CandidateNames(stem: string, e: string, i: nat)
    requires '.' !in e && '/' !in e && i >= 1
    ensures Candidate(stem + "." + e, i) == stem + " (" + Format(i, 10) + ")" + "." + e
    ensures '.' !in stem ==> Candidate(stem, i) == stem + " (" + Format(i, 10) + ")"
  {
    ExtensionIs(stem, e);
    if '.' !in stem { NoExtension(stem, true); }
  }

  /** The candidates are pairwise different. */
  lemma CandidatesApart(name: string, i: nat, j: nat)
    requires i < j
    ensures Candidate(name, i) != Candidate(name, j)
  {
    hide Format, Ext;
    ExtFits(name, |name|);
    var stem, ext := Stem(name, true), Extension(name, true);
    if i == 0 {
      assert |Candidate(name, j)| > |name|;
    } else if Candidate(name, i) == Candidate(name, j) {
      assert Candidate(name, i) == stem + " (" + Format(i, 10) + (")" + ext);
      assert Candidate(name, j) == stem + " (" + Format(j, 10) + (")" + ext);
      SameMiddle(stem + " (", Format(i, 10), Format(j, 10), ")" + ext);
      FormatOnce(i, j, 10);
    }
  }

  const MAX_CANDIDATES: nat := 1000

  /** `uniqueChildName`: the first candidate no live sibling holds; it fails exactly
      when all of them are held. */
  method UniqueChildName(store: Store, parent: Id, name: string) returns (r: Result<string, Error>)
    requires UniqueNames(store.nodes)
    ensures r.Ok? ==> exists i :: 0 <= i < MAX_CANDIDATES && r.value == Candidate(name, i) &&
                        FindChild(store.nodes, parent, r.value).None? &&
                        forall j | 0 <= j < i :: FindChild(store.nodes, parent, Candidate(name, j)).Some?
    ensures r.Err? ==> r.error == Conflict && forall i | 0 <= i < MAX_CANDIDATES ::
      FindChild(store.nodes, parent, Candidate(name, i)).Some?
  {
    hide FindChild, UniqueNames, Candidate;
    var held := store.FindChildByName(parent, name);
    assert Candidate(name, 0) == name by { FirstCandidate(name); }
    if held.None? {
      return Ok(name);
    }
    var i := 1;
    while i < MAX_CANDIDATES
      invariant 1 <= i <= MAX_CANDIDATES
      invariant forall j | 0 <= j < i :: FindChild(store.nodes, parent, Candidate(name, j)).Some?
    {
      held := store.FindChildByName(parent, Candidate(name, i));
      if held.None? {
        return Ok(Candidate(name, i));
      }
      i := i + 1;
    }
    r := Err(Conflict);
  }

  lemma FirstCandidate(name: string)
    ensures Candidate(name, 0) == name
  {}

  // ---- the disk ----

  /** A reservation handed out: it is open until its release runs. */
  datatype Hold = Hold(device: int, size: int, open: bool)

  const DISK_RESERVE: int := 256 * 1024 * 1024

  /** What the open reservations of a device add up to. */
  function Held(holds: seq<Hold>, device: int): int {
    if holds == [] then 0
    else
      var h := holds[|holds| - 1];
      Held(holds[..|holds| - 1], device) + (if h.open && h.device == device then h.size else 0)
  }

  lemma HeldAdd(holds: seq<Hold>, h: Hold, device: int)
    ensures Held(holds + [h], device) == Held(holds, device) + (if h.open && h.device == device then h.size else 0)
  {
    assert (holds + [h])[..|holds|] == holds;
  }

  lemma {:induction false} HeldClose(holds: seq<Hold>, i: nat, device: int)
    requires i < |holds| && holds[i].open
    ensures Held(holds[i := holds[i].(open := false)], device) ==
            Held(holds, device) - (if holds[i].device == device then holds[i].size else 0)
    decreases |holds|
  {
    var closed := holds[i := holds[i].(open := false)];
    var n := |holds| - 1;
    if i < n {
      HeldClose(holds[..n], i, device);
      assert closed[..n] == holds[..n][i := holds[i].(open := false)];
    } else {
      assert closed[..n] == holds[..n];
    }
  }

  lemma {:induction false} HeldPositive(holds: seq<Hold>, device: int)
    requires forall h | h in holds :: h.size > 0
    ensures Held(holds, device) >= 0
    ensures forall i | 0 <= i < |holds| && holds[i].open && holds[i].device == device ::
      Held(holds, device) >= holds[i].size
    decreases |holds|
  {
    if holds != [] {
      var n := |holds| - 1;
      assert holds[n] in holds;
      assert forall h | h in holds[..n] :: h in holds;
      HeldPositive(holds[..n], device);
      forall i | 0 <= i < |holds| && holds[i].open && holds[i].device == device
        ensures Held(holds, device) >= holds[i].size
      {
        if i < n { assert holds[..n][i] == holds[i]; }
      }
    }
  }

  function BytesOf(bytes: map<int, int>, device: int): int {
    if device in bytes then bytes[device] else 0
  }

  /** `uploadReservations`. */
  class Reservations {
    var bytes: map<int, int>
    /** One entry for each reservation ever made; its index is the release function. */
    var holds: seq<Hold>

    /** The counters are the sums of the open reservations, and a device with none has no entry. */
    ghost predicate Valid()
      reads this
    {
      && (forall h | h in holds :: h.size > 0)
      && (forall d :: BytesOf(bytes, d) == Held(holds, d))
      && (forall d | d in bytes :: bytes[d] != 0)
    }

    constructor ()
      ensures Valid() && bytes == map[]
    {
      bytes, holds := map[], [];
    }

    /** `reserveUpload`: grant the size asked for, or all there is for an unknown size;
        what is reserved never exceeds the free space less the reserve. */
    method Reserve(device: int, free: int, size: int) returns (r: Result<(int, nat), ()>)
      requires Valid()
      modifies this
      ensures Valid()
      ensures var available := free - DISK_RESERVE - old(BytesOf(bytes, device));
        && (r.Ok? <==> available > 0 && size <= available)
        && (r.Ok? ==>
          r.value.0 == (if size <= 0 then available else size) &&
          BytesOf(bytes, device) <= free - DISK_RESERVE)
      ensures r.Ok? ==> holds == old(holds) + [Hold(device, r.value.0, true)] && r.value.1 == |old(holds)|
      ensures r.Err? ==> unchanged(this)
    {
      var available := free - DISK_RESERVE - BytesOf(bytes, device);
      if available <= 0 || size > available {
        return Err(());
      }
      var granted := if size <= 0 then available else size;
      ghost var before := holds;
      HeldPositive(holds, device);
      forall d ensures Held(before + [Hold(device, granted, true)], d) ==
        Held(before, d) + (if device == d then granted else 0)
      {
        HeldAdd(before, Hold(device, granted, true), d);
      }
      bytes := bytes[device := BytesOf(bytes, device) + granted];
      holds := holds + [Hold(device, granted, true)];
      r := Ok((granted, |holds| - 1));
    }

    /** The release, which works once. */
    method Release(i: nat)
      requires Valid() && i < |holds|
      modifies this
      ensures Valid() && |holds| == |old(holds)|
      ensures holds == old(holds)[i := old(holds)[i].(open := false)]
      ensures !old(holds)[i].open ==> bytes == old(bytes)
      ensures forall d ::
        BytesOf(bytes, d) ==
        old(BytesOf(bytes, d)) - (if old(holds)[i].open && d == old(holds)[i].device then old(holds)[i].size else 0)
    {
      if !holds[i].open {
        assert holds == holds[i := holds[i].(open := false)];
        return;
      }
      var h := holds[i];
      ghost var before := holds;
      ghost var was := bytes;
      assert h in holds;
      HeldPositive(before, h.device);
      var left := BytesOf(bytes, h.device) - h.size;
      if left == 0 {
        bytes := bytes - {h.device};
      } else {
        bytes := bytes[h.device := left];
      }
      holds := holds[i := h.(open := false)];
      forall d ensures BytesOf(bytes, d) == Held(holds, d) &&
        BytesOf(bytes, d) == BytesOf(was, d) - (if d == h.device then h.size else 0)
      {
        HeldClose(before, i, d);
        assert BytesOf(was, d) == Held(before, d);
      }
      forall x | x in holds ensures x.size > 0 {
        var k :| 0 <= k < |holds| && holds[k] == x;
        assert before[k] in before;
      }
    }
  }
}
