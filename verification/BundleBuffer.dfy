/** Reassembly of bundles from blobs, after crates/downloader/src/bundle_buffer.rs.

`Insert` is the source's `IncompleteBundleBuffers::insert` on values: one sorted vector of blobs per bundle
id. `MapInsert` is an independent reading of the same operation, on a map of maps. */
module BundleBuffer {
  import opened Wrappers
  import opened Codec

  datatype Entry = Entry(header: Header, blob: Blob)

  type Buffers = map<u32, seq<Entry>>

  datatype InsertError = UnreadableHeader | DuplicateBlob | UndecodableBundle

  datatype Inserted =
    | Complete(blocks: seq<Bytes>)
    | Incomplete
    | Rejected(error: InsertError)

  ghost predicate Sorted(v: seq<Entry>) {
    forall i, j | 0 <= i < j < |v| :: v[i].header.idx < v[j].header.idx
  }

  /** How many leading entries have a smaller index. */
  function Position(v: seq<Entry>, idx: u32): (p: nat)
    ensures p <= |v|
  {
    if |v| == 0 || v[0].header.idx >= idx then 0 else 1 + Position(v[1..], idx)
  }

  predicate Holds(v: seq<Entry>, idx: u32) {
    var p := Position(v, idx);
    p < |v| && v[p].header.idx == idx
  }

  function InsertAt(v: seq<Entry>, p: nat, e: Entry): seq<Entry>
    requires p <= |v|
  {
    v[..p] + [e] + v[p..]
  }

  /** The greatest entry is marked last and the indices are 0, 1, 2, ... */
  predicate IsComplete(v: seq<Entry>) {
    |v| > 0 && v[|v| - 1].header.isLast && forall i | 0 <= i < |v| :: v[i].header.idx == i
  }

  function Blobs(v: seq<Entry>): seq<Blob> {
    seq(|v|, i requires 0 <= i < |v| => v[i].blob)
  }

  /** Decode the blobs of a complete bundle. */
  function Decode(codec: Decoders, blobs: seq<Blob>): Inserted {
    match codec.decodeBundle(blobs)
    case Some(blocks) => Complete(blocks)
    case None => Rejected(UndecodableBundle)
  }

  function Vector(bufs: Buffers, id: u32): seq<Entry> {
    if id in bufs then bufs[id] else []
  }

  function Insert(codec: Decoders, bufs: Buffers, blob: Blob): (Buffers, Inserted) {
    match codec.readHeader(blob)
    case None => (bufs, Rejected(UnreadableHeader))
    case Some(header) =>
      var v := Vector(bufs, header.bundleId);
      if Holds(v, header.idx) then
        (bufs, Rejected(DuplicateBlob))
      else
        var w := InsertAt(v, Position(v, header.idx), Entry(header, blob));
        if IsComplete(w) then
          (bufs - {header.bundleId}, Decode(codec, Blobs(w)))
        else
          (bufs[header.bundleId := w], Incomplete)
  }

  // ---------------------------------------------------------------- the imperative form

  /** `binary_search_by_key` on a vector sorted by index. */
  method BinarySearch(v: seq<Entry>, idx: u32) returns (found: bool, at: nat)
    requires Sorted(v)
    ensures at == Position(v, idx) && found == Holds(v, idx)
  {
    var lo, hi := 0, |v|;
    while lo < hi
      invariant 0 <= lo <= hi <= |v|
      invariant forall i | 0 <= i < lo :: v[i].header.idx < idx
      invariant forall i | hi <= i < |v| :: v[i].header.idx > idx
    {
      var mid := (lo + hi) / 2;
      if v[mid].header.idx == idx {
        PositionIsSplit(v, idx, mid);
        return true, mid;
      } else if v[mid].header.idx < idx {
        lo := mid + 1;
      } else {
        hi := mid;
      }
    }
    PositionIsSplit(v, idx, lo);
    return false, lo;
  }

  /** The completeness check after the last entry has been found to be marked last. */
  method IndicesAreConsecutive(v: seq<Entry>) returns (ok: bool)
    ensures ok <==> forall i | 0 <= i < |v| :: v[i].header.idx == i
  {
    var expected := 0;
    while expected < |v|
      invariant 0 <= expected <= |v|
      invariant forall i | 0 <= i < expected :: v[i].header.idx == i
    {
      if v[expected].header.idx != expected {
        return false;
      }
      expected := expected + 1;
    }
    ok := true;
  }

  class IncompleteBundleBuffers {
    const codec: Decoders
    var byId: Buffers

    ghost predicate Valid()
      reads this
    {
      forall id | id in byId :: Sorted(byId[id])
    }

    constructor (codec: Decoders)
      ensures Valid() && this.codec == codec && byId == map[]
    {
      this.codec := codec;
      byId := map[];
    }

    method InsertBlob(blob: Blob) returns (r: Inserted)
      requires Valid()
      modifies this
      ensures Valid()
      ensures (byId, r) == Insert(codec, old(byId), blob)
    {
      var read := codec.readHeader(blob);
      if read.None? {
        return Rejected(UnreadableHeader);
      }
      var header := read.value;
      var blobs := if header.bundleId in byId then byId[header.bundleId] else [];
      var found, at := BinarySearch(blobs, header.idx);
      if found {
        return Rejected(DuplicateBlob);
      }
      InsertKeepsSorted(blobs, Entry(header, blob));
      blobs := blobs[..at] + [Entry(header, blob)] + blobs[at..];
      byId := byId[header.bundleId := blobs];
      r := TakeIfComplete(header.bundleId);
      assert old(byId)[header.bundleId := blobs] - {header.bundleId} == old(byId) - {header.bundleId};
    }

    /** Hand out a bundle if it is complete. */
    method TakeIfComplete(id: u32) returns (r: Inserted)
      requires Valid() && id in byId && |byId[id]| > 0
      modifies this
      ensures Valid()
      ensures var v := old(byId)[id];
        (byId, r) == if IsComplete(v) then (old(byId) - {id}, Decode(codec, Blobs(v))) else (old(byId), Incomplete)
    {
      var blobs := byId[id];
      if !blobs[|blobs| - 1].header.isLast {
        return Incomplete;
      }
      var consecutive := IndicesAreConsecutive(blobs);
      if !consecutive {
        return Incomplete;
      }
      byId := byId - {id};
      r := Decode(codec, Blobs(blobs));
    }
  }

  // ---------------------------------------------------------------- sorted vectors

  lemma {:induction false} PositionSplits(v: seq<Entry>, idx: u32)
    requires Sorted(v)
    ensures forall i | 0 <= i < Position(v, idx) :: v[i].header.idx < idx
    ensures forall i | Position(v, idx) <= i < |v| :: v[i].header.idx >= idx
    decreases |v|
  {
    if |v| == 0 {
    } else if v[0].header.idx < idx {
      var rest := v[1..];
      PositionSplits(rest, idx);
      forall i | Position(v, idx) <= i < |v| ensures v[i].header.idx >= idx {
        assert v[i] == rest[i - 1];
      }
    }
  }

  /** The insertion point a binary search finds is the only one. */
  lemma {:induction false} PositionIsSplit(v: seq<Entry>, idx: u32, p: nat)
    requires p <= |v|
    requires forall i | 0 <= i < p :: v[i].header.idx < idx
    requires forall i | p <= i < |v| :: v[i].header.idx >= idx
    ensures p == Position(v, idx)
    decreases |v|
  {
    if p == 0 {
    } else {
      PositionIsSplit(v[1..], idx, p - 1);
    }
  }

  lemma InsertKeepsSorted(v: seq<Entry>, e: Entry)
    requires Sorted(v) && !Holds(v, e.header.idx)
    ensures Sorted(InsertAt(v, Position(v, e.header.idx), e))
  {
    PositionSplits(v, e.header.idx);
    var p := Position(v, e.header.idx);
    var w := InsertAt(v, p, e);
    forall i, j | 0 <= i < j < |w| ensures w[i].header.idx < w[j].header.idx {
      if i == p {
        assert v[p].header.idx <= v[j - 1].header.idx && w[j] == v[j - 1];
      } else if j == p {
        assert w[i] == v[i];
      } else {
        assert w[i] == (if i < p then v[i] else v[i - 1]) && w[j] == (if j < p then v[j] else v[j - 1]);
      }
    }
  }
}
