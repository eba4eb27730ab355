/** The sorted bundle buffers refine a map of maps, and reassemble bundles from any interleaving of blobs. */
module BundleBufferProofs {
  import opened Wrappers
  import opened Codec
  import opened BundleBuffer

  // ---------------------------------------------------------------- the map of maps

  type EntryMap = map<u32, Entry>
  type MapBuffers = map<u32, EntryMap>

  /** The indices are 0, ..., n - 1 and the greatest is marked last. */
  predicate MapComplete(m: EntryMap) {
    |m| > 0 && (forall i: nat | i < |m| :: i in m) && m[|m| - 1].header.isLast
  }

  function InOrder(m: EntryMap): seq<Blob>
    requires forall i: nat | i < |m| :: i in m
  {
    seq(|m|, i requires 0 <= i < |m| => m[i].blob)
  }

  function Entries(bufs: MapBuffers, id: u32): EntryMap {
    if id in bufs then bufs[id] else map[]
  }

  /** `insert` without vectors, positions or order. */
  function MapInsert(codec: Decoders, bufs: MapBuffers, blob: Blob): (MapBuffers, Inserted) {
    match codec.readHeader(blob)
    case None => (bufs, Rejected(UnreadableHeader))
    case Some(header) =>
      var m := Entries(bufs, header.bundleId);
      if header.idx in m then
        (bufs, Rejected(DuplicateBlob))
      else
        var n := m[header.idx := Entry(header, blob)];
        if MapComplete(n) then
          (bufs - {header.bundleId}, Decode(codec, InOrder(n)))
        else
          (bufs[header.bundleId := n], Incomplete)
  }

  // ---------------------------------------------------------------- the abstraction

  function AsMap(v: seq<Entry>): EntryMap {
    if |v| == 0 then map[] else AsMap(v[..|v| - 1])[v[|v| - 1].header.idx := v[|v| - 1]]
  }

  function AsMaps(bufs: Buffers): MapBuffers {
    map id | id in bufs :: AsMap(bufs[id])
  }

  lemma {:induction false} AsMapAt(v: seq<Entry>, i: nat)
    requires Sorted(v) && i < |v|
    ensures v[i].header.idx in AsMap(v) && AsMap(v)[v[i].header.idx] == v[i]
    decreases |v|
  {
    if i == |v| - 1 {
    } else {
      AsMapAt(v[..|v| - 1], i);
    }
  }

  lemma {:induction false} Where(v: seq<Entry>, k: u32) returns (i: nat)
    requires k in AsMap(v)
    ensures i < |v| && v[i].header.idx == k
    decreases |v|
  {
    if v[|v| - 1].header.idx == k {
      i := |v| - 1;
    } else {
      i := Where(v[..|v| - 1], k);
    }
  }

  lemma {:induction false} AsMapSize(v: seq<Entry>)
    requires Sorted(v)
    ensures |AsMap(v)| == |v|
    decreases |v|
  {
    if |v| == 0 {
    } else {
      var u, k := v[..|v| - 1], v[|v| - 1].header.idx;
      AsMapSize(u);
      if k in AsMap(u) {
        var i := Where(u, k);
        assert false;
      }
    }
  }

  lemma HoldsAgrees(v: seq<Entry>, idx: u32)
    requires Sorted(v)
    ensures Holds(v, idx) <==> idx in AsMap(v)
  {
    PositionSplits(v, idx);
    if Holds(v, idx) { AsMapAt(v, Position(v, idx)); }
    if idx in AsMap(v) {
      var i := Where(v, idx);
      PositionIsSplit(v, idx, i);
    }
  }

  /** Inserting into the vector is inserting into the map. */
  lemma {:induction false} InsertAtIsMapUpdate(v: seq<Entry>, p: nat, e: Entry)
    requires p <= |v| && e.header.idx !in AsMap(v)
    ensures AsMap(InsertAt(v, p, e)) == AsMap(v)[e.header.idx := e]
    decreases |v|
  {
    var w := InsertAt(v, p, e);
    if p == |v| {
      assert w[..|v|] == v;
    } else {
      var u, last := v[..|v| - 1], v[|v| - 1];
      assert w[..|w| - 1] == InsertAt(u, p, e);
      InsertAtIsMapUpdate(u, p, e);
    }
  }

  lemma {:induction false} Spread(v: seq<Entry>, i: nat, j: nat)
    requires Sorted(v) && i <= j < |v|
    ensures v[j].header.idx - v[i].header.idx >= j - i
    decreases j - i
  {
    if i == j {
    } else {
      Spread(v, i, j - 1);
    }
  }

  /** The indices 0, ..., n - 1. */
  function FirstIndices(n: nat): (s: set<u32>)
    requires n <= U32_MAX + 1
    ensures |s| == n
    ensures forall i: u32 :: i in s <==> i < n
  {
    if n == 0 then {} else FirstIndices(n - 1) + {n - 1}
  }

  lemma SameSizeSubset(s: set<u32>, t: set<u32>)
    requires t <= s && |s| <= |t|
    ensures s == t
  {
    assert |s - t| == |s| - |t|;
  }

  lemma CompleteVectorIsCompleteMap(v: seq<Entry>)
    requires Sorted(v) && IsComplete(v)
    ensures MapComplete(AsMap(v)) && Blobs(v) == InOrder(AsMap(v))
  {
    var m := AsMap(v);
    AsMapSize(v);
    forall i: nat | i < |v| ensures i in m && m[i] == v[i] {
      AsMapAt(v, i);
      assert v[i].header.idx == i;
    }
  }

  lemma CompleteMapIsCompleteVector(v: seq<Entry>)
    requires Sorted(v) && MapComplete(AsMap(v))
    ensures IsComplete(v)
  {
    var m := AsMap(v);
    var n := |v|;
    AsMapSize(v);
    assert n - 1 in m;
    assert FirstIndices(n) <= m.Keys;
    SameSizeSubset(m.Keys, FirstIndices(n));
    AsMapAt(v, n - 1);
    assert v[n - 1].header.idx in FirstIndices(n);
    forall i: nat | i < n ensures v[i].header.idx == i {
      Spread(v, 0, i);
      Spread(v, i, n - 1);
    }
  }

  /** A sorted vector is complete exactly when the map is, and then lists its blobs in index order. */
  lemma CompleteAgrees(v: seq<Entry>)
    requires Sorted(v)
    ensures IsComplete(v) <==> MapComplete(AsMap(v))
    ensures IsComplete(v) ==> Blobs(v) == InOrder(AsMap(v))
  {
    if IsComplete(v) { CompleteVectorIsCompleteMap(v); }
    if MapComplete(AsMap(v)) { CompleteMapIsCompleteVector(v); }
  }

  // ---------------------------------------------------------------- refinement

  /** The vector holds only blobs of bundle `id`, under the headers they carry. */
  ghost predicate OwnBlobs(codec: Decoders, id: u32, v: seq<Entry>) {
    forall i | 0 <= i < |v| :: v[i].header.bundleId == id && codec.readHeader(v[i].blob) == Some(v[i].header)
  }

  /** Between calls: vectors are non-empty, strictly increasing in index, hold only their own bundle's blobs
      with the headers those blobs carry, and are not complete. */
  ghost predicate WellKept(codec: Decoders, bufs: Buffers) {
    forall id | id in bufs :: KeptVector(codec, id, bufs[id]) && !IsComplete(bufs[id])
  }

  ghost predicate KeptVector(codec: Decoders, id: u32, v: seq<Entry>) {
    |v| > 0 && Sorted(v) && OwnBlobs(codec, id, v)
  }

  lemma InsertAtKeepsVector(codec: Decoders, id: u32, v: seq<Entry>, e: Entry)
    requires v == [] || KeptVector(codec, id, v)
    requires e.header.bundleId == id && codec.readHeader(e.blob) == Some(e.header) && !Holds(v, e.header.idx)
    ensures KeptVector(codec, id, InsertAt(v, Position(v, e.header.idx), e))
  {
    InsertKeepsSorted(v, e);
  }

  lemma UpdateKeepsWellKept(codec: Decoders, bufs: Buffers, id: u32, w: seq<Entry>)
    requires WellKept(codec, bufs) && KeptVector(codec, id, w) && !IsComplete(w)
    ensures WellKept(codec, bufs[id := w])
  {
  }

  lemma InsertKeepsWellKept(codec: Decoders, bufs: Buffers, blob: Blob)
    requires WellKept(codec, bufs)
    ensures WellKept(codec, Insert(codec, bufs, blob).0)
  {
    var read := codec.readHeader(blob);
    if read.Some? {
      var id, e := read.value.bundleId, Entry(read.value, blob);
      var v := Vector(bufs, id);
      if !Holds(v, e.header.idx) {
        var w := InsertAt(v, Position(v, e.header.idx), e);
        InsertAtKeepsVector(codec, id, v, e);
        if !IsComplete(w) { UpdateKeepsWellKept(codec, bufs, id, w); }
      }
    }
  }

  /** The sorted buffers refine the map of maps: same new state, same result, for every blob. In particular
      a duplicate or unreadable blob changes nothing, and a bundle completes exactly when its indices are
      {0, ..., n - 1} and the greatest is marked last. */
  lemma InsertRefinesMaps(codec: Decoders, bufs: Buffers, blob: Blob)
    requires WellKept(codec, bufs)
    ensures var (next, r) := Insert(codec, bufs, blob);
      (AsMaps(next), r) == MapInsert(codec, AsMaps(bufs), blob)
  {
    var read := codec.readHeader(blob);
    if read.Some? {
      var id, e := read.value.bundleId, Entry(read.value, blob);
      var v := Vector(bufs, id);
      assert AsMap(v) == Entries(AsMaps(bufs), id);
      HoldsAgrees(v, e.header.idx);
      if !Holds(v, e.header.idx) {
        var w := InsertAt(v, Position(v, e.header.idx), e);
        InsertKeepsSorted(v, e);
        InsertAtIsMapUpdate(v, Position(v, e.header.idx), e);
        CompleteAgrees(w);
        AsMapsUpdate(bufs, id, w);
      }
    }
  }

  lemma AsMapsUpdate(bufs: Buffers, id: u32, w: seq<Entry>)
    ensures AsMaps(bufs - {id}) == AsMaps(bufs) - {id}
    ensures AsMaps(bufs[id := w]) == AsMaps(bufs)[id := AsMap(w)]
  {
  }

  // ---------------------------------------------------------------- whole deliveries

  /** The buffers after inserting all blobs, in order. */
  function Feed(codec: Decoders, bufs: Buffers, blobs: seq<Blob>): Buffers
    decreases |blobs|
  {
    if |blobs| == 0 then bufs
    else Insert(codec, Feed(codec, bufs, blobs[..|blobs| - 1]), blobs[|blobs| - 1]).0
  }

  /** The bundles that exist: for each id, its blobs in index order. */
  type Catalog = map<u32, seq<Blob>>

  ghost predicate WellFormed(codec: Decoders, cat: Catalog) {
    forall id | id in cat ::
      && 0 < |cat[id]| <= U32_MAX
      && forall i: nat | i < |cat[id]| :: codec.readHeader(cat[id][i]) == Some(HeaderOf(cat, id, i))
  }

  function HeaderOf(cat: Catalog, id: u32, i: u32): Header
    requires id in cat
  {
    Header(id, i, i == |cat[id]| - 1)
  }

  /** One blob of one bundle. */
  datatype Piece = Piece(id: u32, idx: u32)

  /** Any sequence of blobs of the catalog, in any order, repeats included. */
  ghost predicate Pieces(cat: Catalog, d: seq<Piece>) {
    forall k | 0 <= k < |d| :: Known(cat, d[k])
  }

  ghost predicate Known(cat: Catalog, p: Piece) {
    p.id in cat && p.idx < |cat[p.id]|
  }

  /** Any interleaving and any permutation of any selection of blobs, each at most once. */
  ghost predicate Delivery(cat: Catalog, d: seq<Piece>) {
    Pieces(cat, d) && forall j, k | 0 <= j < k < |d| :: d[j] != d[k]
  }

  function BlobsOf(cat: Catalog, d: seq<Piece>): seq<Blob>
    requires Pieces(cat, d)
  {
    seq(|d|, k requires 0 <= k < |d| => cat[d[k].id][d[k].idx])
  }

  /** Every blob of bundle `id` has been delivered. */
  predicate FullyDelivered(cat: Catalog, d: seq<Piece>, id: u32) {
    id in cat && forall i: u32 | i < |cat[id]| :: Piece(id, i) in d
  }

  // ---------------------------------------------------------------- rounds

  predicate Whole(cat: Catalog, o: set<Piece>, id: u32) {
    id in cat && forall i: u32 | i < |cat[id]| :: Piece(id, i) in o
  }

  /** The piece that makes its bundle whole takes the bundle's pieces away: a later one starts a new round. */
  function Advance(cat: Catalog, o: set<Piece>, p: Piece): set<Piece> {
    var n := o + {p};
    if Whole(cat, n, p.id) then set q | q in n && q.id != p.id else n
  }

  /** The pieces delivered in the unfinished round of their bundle. */
  function Open(cat: Catalog, d: seq<Piece>): set<Piece>
    decreases |d|
  {
    if |d| == 0 then {} else Advance(cat, Open(cat, d[..|d| - 1]), d[|d| - 1])
  }

  /** No piece comes twice in one round of its bundle. */
  ghost predicate Rounds(cat: Catalog, d: seq<Piece>) {
    Pieces(cat, d) && forall k | 0 <= k < |d| :: d[k] !in Open(cat, d[..k])
  }

  /** Known pieces, and no bundle whole. */
  ghost predicate Unfinished(cat: Catalog, o: set<Piece>) {
    (forall q | q in o :: Known(cat, q)) && (forall id | id in cat :: !Whole(cat, o, id))
  }

  lemma AdvanceKeepsUnfinished(codec: Decoders, cat: Catalog, o: set<Piece>, p: Piece)
    requires WellFormed(codec, cat) && Unfinished(cat, o) && Known(cat, p)
    ensures Unfinished(cat, Advance(cat, o, p))
    ensures p in o ==> Advance(cat, o, p) == o
  {
    var n := Advance(cat, o, p);
    if p in o { assert o + {p} == o; }
    forall id | id in cat ensures !Whole(cat, n, id) {
      if id == p.id {
        if Whole(cat, o + {p}, id) { assert Piece(id, 0) !in n; }
      } else {
        var i: u32 :| i < |cat[id]| && Piece(id, i) !in o;
        assert Piece(id, i) !in n;
      }
    }
  }

  /** An open piece has been delivered, and an undelivered bundle is in its first round: all its pieces are open. */
  lemma {:induction false} OpenPieces(cat: Catalog, d: seq<Piece>, q: Piece)
    ensures q in Open(cat, d) ==> q in d
    ensures q in d && q.id in cat && !FullyDelivered(cat, d, q.id) ==> q in Open(cat, d)
    decreases |d|
  {
    if |d| == 0 {
    } else {
      var u, p := d[..|d| - 1], d[|d| - 1];
      assert d == u + [p];
      OpenPieces(cat, u, q);
      if q in d && q.id in cat && !FullyDelivered(cat, d, q.id) {
        UndeliveredIsNotWhole(cat, u, p, q.id);
      }
    }
  }

  lemma {:induction false} OpenIsDelivered(cat: Catalog, d: seq<Piece>)
    ensures forall q | q in Open(cat, d) :: q in d
    decreases |d|
  {
    if |d| == 0 {
    } else {
      OpenIsDelivered(cat, d[..|d| - 1]);
    }
  }

  lemma UndeliveredIsNotWhole(cat: Catalog, d: seq<Piece>, p: Piece, id: u32)
    requires id in cat && !FullyDelivered(cat, d + [p], id)
    ensures !FullyDelivered(cat, d, id) && !Whole(cat, Open(cat, d) + {p}, id)
  {
    OpenIsDelivered(cat, d);
    var i: u32 :| i < |cat[id]| && Piece(id, i) !in d + [p];
    assert Piece(id, i) !in d;
  }

  /** A bundle is fully delivered once its first round has ended. */
  lemma FullyDeliveredStep(cat: Catalog, d: seq<Piece>, p: Piece, id: u32)
    ensures FullyDelivered(cat, d + [p], id)
      <==> FullyDelivered(cat, d, id) || (id == p.id && Whole(cat, Open(cat, d) + {p}, id))
  {
    OpenIsDelivered(cat, d);
    if FullyDelivered(cat, d + [p], id) && !FullyDelivered(cat, d, id) {
      var j: u32 :| j < |cat[id]| && Piece(id, j) !in d;
      assert Piece(id, j) in d + [p];
      forall i: u32 | i < |cat[id]| ensures Piece(id, i) in Open(cat, d) + {p} {
        assert Piece(id, i) in d + [p];
        OpenPieces(cat, d, Piece(id, i));
      }
    }
  }

  /** Without duplicates, a piece is open exactly while its bundle is incomplete. */
  lemma {:induction false} OpenOfDelivery(cat: Catalog, d: seq<Piece>, q: Piece)
    requires Delivery(cat, d) && q.id in cat
    ensures q in Open(cat, d) <==> q in d && !FullyDelivered(cat, d, q.id)
    decreases |d|
  {
    OpenPieces(cat, d, q);
    if |d| == 0 {
    } else {
      var u, p := d[..|d| - 1], d[|d| - 1];
      assert d == u + [p];
      OpenOfDelivery(cat, u, q);
      FullyDeliveredStep(cat, u, p, q.id);
      if q.id == p.id && FullyDelivered(cat, u, q.id) {
        assert false;
      }
    }
  }

  lemma DeliveryHasRounds(cat: Catalog, d: seq<Piece>)
    requires Delivery(cat, d)
    ensures Rounds(cat, d)
  {
    forall k | 0 <= k < |d| ensures d[k] !in Open(cat, d[..k]) { OpenIsDelivered(cat, d[..k]); }
  }

  // ---------------------------------------------------------------- what the buffers hold

  function OpenEntries(cat: Catalog, o: set<Piece>, id: u32): EntryMap
    requires id in cat
  {
    map i: u32 | i < |cat[id]| && Piece(id, i) in o :: Entry(HeaderOf(cat, id, i), cat[id][i])
  }

  /** What the buffers should hold: the open pieces of every bundle that has any. */
  ghost function Pending(cat: Catalog, o: set<Piece>): MapBuffers {
    map id | id in cat && OpenEntries(cat, o, id) != map[] :: OpenEntries(cat, o, id)
  }

  /** The open pieces of a bundle form a complete map exactly when the bundle is whole. */
  lemma WholeIsComplete(codec: Decoders, cat: Catalog, o: set<Piece>, id: u32)
    requires WellFormed(codec, cat) && id in cat
    ensures MapComplete(OpenEntries(cat, o, id)) <==> Whole(cat, o, id)
    ensures Whole(cat, o, id) ==>
      MapComplete(OpenEntries(cat, o, id)) && InOrder(OpenEntries(cat, o, id)) == cat[id]
  {
    var m := OpenEntries(cat, o, id);
    var n := |cat[id]|;
    if Whole(cat, o, id) {
      assert m.Keys == FirstIndices(n);
      assert |m| == |m.Keys| == n;
    }
    if MapComplete(m) {
      assert |m| - 1 in m && m[|m| - 1].header == HeaderOf(cat, id, |m| - 1);
      forall i: u32 | i < n ensures Piece(id, i) in o { assert i in m; }
    }
  }

  lemma PendingElsewhere(cat: Catalog, o: set<Piece>, p: Piece, id: u32)
    requires id in cat && id != p.id
    ensures OpenEntries(cat, Advance(cat, o, p), id) == OpenEntries(cat, o, id)
  {
  }

  lemma PendingOwn(cat: Catalog, o: set<Piece>, p: Piece)
    requires Known(cat, p)
    ensures OpenEntries(cat, o + {p}, p.id)
         == OpenEntries(cat, o, p.id)[p.idx := Entry(HeaderOf(cat, p.id, p.idx), cat[p.id][p.idx])]
    ensures Whole(cat, o + {p}, p.id) ==> OpenEntries(cat, Advance(cat, o, p), p.id) == map[]
  {
  }

  lemma PendingStep(cat: Catalog, o: set<Piece>, p: Piece)
    requires Known(cat, p)
    ensures Pending(cat, Advance(cat, o, p)) ==
      if Whole(cat, o + {p}, p.id) then Pending(cat, o) - {p.id}
      else Pending(cat, o)[p.id := OpenEntries(cat, o + {p}, p.id)]
  {
    var m, n := Pending(cat, o), Pending(cat, Advance(cat, o, p));
    var next := if Whole(cat, o + {p}, p.id) then m - {p.id} else m[p.id := OpenEntries(cat, o + {p}, p.id)];
    PendingOwn(cat, o, p);
    assert p.idx in OpenEntries(cat, o + {p}, p.id);
    forall id: u32
      ensures id in n <==> id in next
      ensures id in n ==> n[id] == next[id]
    {
      if id in cat && id != p.id { PendingElsewhere(cat, o, p, id); }
    }
  }

  /** What inserting the piece `p` should answer while the pieces `o` are open. */
  function Expected(codec: Decoders, cat: Catalog, o: set<Piece>, p: Piece): Inserted
    requires p.id in cat
  {
    if p in o then Rejected(DuplicateBlob)
    else if Whole(cat, o + {p}, p.id) then Decode(codec, cat[p.id])
    else Incomplete
  }

  /** One more piece, on maps. */
  lemma PieceStep(codec: Decoders, cat: Catalog, o: set<Piece>, p: Piece)
    requires WellFormed(codec, cat) && Unfinished(cat, o) && Known(cat, p)
    ensures MapInsert(codec, Pending(cat, o), cat[p.id][p.idx])
         == (Pending(cat, Advance(cat, o, p)), Expected(codec, cat, o, p))
  {
    AdvanceKeepsUnfinished(codec, cat, o, p);
    PendingOwn(cat, o, p);
    PendingStep(cat, o, p);
    WholeIsComplete(codec, cat, o + {p}, p.id);
    assert Entries(Pending(cat, o), p.id) == OpenEntries(cat, o, p.id);
  }

  lemma LastPiece(cat: Catalog, d: seq<Piece>)
    requires Pieces(cat, d) && |d| > 0
    ensures var u, p := d[..|d| - 1], d[|d| - 1];
      Pieces(cat, u) && Known(cat, p) && d == u + [p] && BlobsOf(cat, d) == BlobsOf(cat, u) + [cat[p.id][p.idx]]
  {
  }

  /** After any sequence of pieces the buffers hold exactly the open ones. */
  lemma {:induction false} FeedHoldsPending(codec: Decoders, cat: Catalog, d: seq<Piece>)
    requires WellFormed(codec, cat) && Pieces(cat, d)
    ensures WellKept(codec, Feed(codec, map[], BlobsOf(cat, d)))
    ensures AsMaps(Feed(codec, map[], BlobsOf(cat, d))) == Pending(cat, Open(cat, d))
    ensures Unfinished(cat, Open(cat, d))
    decreases |d|
  {
    if |d| == 0 {
      var o: set<Piece> := {};
      assert Pending(cat, o) == map[];
      forall id | id in cat ensures !Whole(cat, o, id) { assert Piece(id, 0) !in o; }
    } else {
      var u, p := d[..|d| - 1], d[|d| - 1];
      LastPiece(cat, d);
      FeedHoldsPending(codec, cat, u);
      var bufs := Feed(codec, map[], BlobsOf(cat, u));
      InsertKeepsWellKept(codec, bufs, cat[p.id][p.idx]);
      InsertRefinesMaps(codec, bufs, cat[p.id][p.idx]);
      PieceStep(codec, cat, Open(cat, u), p);
      AdvanceKeepsUnfinished(codec, cat, Open(cat, u), p);
    }
  }

  /** Any order, any interleaving, any repeats: a piece already delivered in the unfinished round of its bundle is
      a duplicate; the piece that completes a round, and no other, yields the bundle, decoded from its blobs in
      index order; every other piece is answered Incomplete. */
  lemma AnyRedeliveryReassembles(codec: Decoders, cat: Catalog, d: seq<Piece>, p: Piece)
    requires WellFormed(codec, cat) && Pieces(cat, d) && Known(cat, p)
    ensures var o := Open(cat, d);
      var (next, r) := Insert(codec, Feed(codec, map[], BlobsOf(cat, d)), cat[p.id][p.idx]);
      && r == (if p in o then Rejected(DuplicateBlob)
               else if Whole(cat, o + {p}, p.id) then Decode(codec, cat[p.id]) else Incomplete)
      && AsMaps(next) == Pending(cat, Advance(cat, o, p))
  {
    FeedHoldsPending(codec, cat, d);
    InsertRefinesMaps(codec, Feed(codec, map[], BlobsOf(cat, d)), cat[p.id][p.idx]);
    PieceStep(codec, cat, Open(cat, d), p);
  }

  /** After pieces that are all different, one more: it is a duplicate exactly when it has been delivered and its
      bundle is incomplete; a new piece yields its bundle exactly when it is the last one missing. */
  lemma AnyInterleavingReassembles(codec: Decoders, cat: Catalog, d: seq<Piece>, p: Piece)
    requires WellFormed(codec, cat) && Delivery(cat, d) && Known(cat, p)
    ensures var r := Insert(codec, Feed(codec, map[], BlobsOf(cat, d)), cat[p.id][p.idx]).1;
      && (r == Rejected(DuplicateBlob) <==> p in d && !FullyDelivered(cat, d, p.id))
      && (p !in d ==>
            r == if FullyDelivered(cat, d + [p], p.id) then Decode(codec, cat[p.id]) else Incomplete)
  {
    AnyRedeliveryReassembles(codec, cat, d, p);
    OpenOfDelivery(cat, d, p);
    FullyDeliveredStep(cat, d, p, p.id);
  }
}
