/** The Fuel blocks emitted depend only on which blobs were delivered, not on their order. */
module Confluence {
  import opened Wrappers
  import opened Codec
  import opened BundleBuffer
  import opened BundleBufferProofs
  import opened Downloader
  import opened ReorderProofs
  import BB = BlockBuffer

  // ---------------------------------------------------------------- hypotheses

  ghost predicate AllDecode(codec: Decoders, raw: seq<Bytes>) {
    forall j | 0 <= j < |raw| :: codec.decodeBlock(raw[j]).Some?
  }

  ghost function Decoded(codec: Decoders, raw: seq<Bytes>): seq<CompressedBlock>
    requires AllDecode(codec, raw)
  {
    seq(|raw|, j requires 0 <= j < |raw| => codec.decodeBlock(raw[j]).value)
  }

  /** The blocks of a bundle, if all of it decodes. */
  ghost function BundleBlocks(codec: Decoders, blobs: seq<Blob>): seq<CompressedBlock> {
    match codec.decodeBundle(blobs)
    case None => []
    case Some(raw) => if AllDecode(codec, raw) then Decoded(codec, raw) else []
  }

  /** The bundle decodes, and so does each of its blocks. */
  ghost predicate Decodes(codec: Decoders, blobs: seq<Blob>) {
    codec.decodeBundle(blobs).Some? && AllDecode(codec, codec.decodeBundle(blobs).value)
  }

  /** Bundles that decode agree at shared heights: there is one block per height. */
  ghost predicate Coherent(codec: Decoders, cat: Catalog, canon: u32 -> CompressedBlock) {
    forall id | id in cat && Decodes(codec, cat[id]) :: Canonical(canon, BundleBlocks(codec, cat[id]))
  }

  /** Why the stream cannot go on after the piece `p` while the pieces `o` are open: it is there already, or it makes
      its bundle whole and that, or one of its blocks, does not decode. */
  ghost function Offence(codec: Decoders, cat: Catalog, o: set<Piece>, p: Piece): Outcome
    requires p.id in cat
  {
    if p in o then Err(BadBlob(DuplicateBlob))
    else if !Whole(cat, o + {p}, p.id) then Ok
    else if codec.decodeBundle(cat[p.id]).None? then Err(BadBlob(UndecodableBundle))
    else if !AllDecode(codec, codec.decodeBundle(cat[p.id]).value) then Err(UndecodableBlock)
    else Ok
  }

  /** No piece comes twice in one round of its bundle, and every bundle made whole decodes. */
  ghost predicate Clean(codec: Decoders, cat: Catalog, d: seq<Piece>) {
    Pieces(cat, d) && forall k | 0 <= k < |d| :: CleanAt(codec, cat, d, k)
  }

  ghost predicate CleanAt(codec: Decoders, cat: Catalog, d: seq<Piece>, k: nat)
    requires k < |d| && d[k].id in cat
  {
    Offence(codec, cat, Open(cat, d[..k]), d[k]).Ok?
  }

  /** If every bundle decodes, a delivery is clean exactly when nothing repeats within a round. */
  lemma RoundsAreClean(codec: Decoders, cat: Catalog, d: seq<Piece>)
    requires Pieces(cat, d) && forall id | id in cat :: Decodes(codec, cat[id])
    ensures Clean(codec, cat, d) <==> Rounds(cat, d)
  {
    if Clean(codec, cat, d) {
      forall k | 0 <= k < |d| ensures d[k] !in Open(cat, d[..k]) { assert CleanAt(codec, cat, d, k); }
    }
    if Rounds(cat, d) {
      forall k | 0 <= k < |d| ensures CleanAt(codec, cat, d, k) { assert d[k] !in Open(cat, d[..k]); }
    }
  }

  ghost predicate Canonical(canon: u32 -> CompressedBlock, blocks: seq<CompressedBlock>) {
    forall i | 0 <= i < |blocks| :: blocks[i] == canon(blocks[i].height)
  }

  /** Height h is in some fully delivered bundle. */
  ghost predicate Covered(codec: Decoders, cat: Catalog, d: seq<Piece>, h: u32) {
    exists id :: id in cat && FullyDelivered(cat, d, id) && PushedIn(BundleBlocks(codec, cat[id]), h)
  }

  // ---------------------------------------------------------------- absorbing a decoded bundle

  lemma {:induction false} PushAllDecodes(codec: Decoders, s: State, raw: seq<Bytes>)
    requires AllDecode(codec, raw)
    ensures PushAll(codec, s, raw) == (s.(blocks := PushSeq(s.blocks, Decoded(codec, raw))), Ok)
    decreases |raw|
  {
    if |raw| == 0 {
    } else {
      var block := codec.decodeBlock(raw[0]).value;
      PushAllDecodes(codec, s.(blocks := s.blocks[block.height := block]), raw[1..]);
      assert Decoded(codec, raw)[1..] == Decoded(codec, raw[1..]);
    }
  }

  lemma AbsorbDecodes(codec: Decoders, s: State, raw: seq<Bytes>)
    requires AllDecode(codec, raw)
    ensures Absorb(codec, s, raw) == AbsorbBlocks(s, Decoded(codec, raw))
  {
    PushAllDecodes(codec, s, raw);
  }

  // ---------------------------------------------------------------- one blob

  /** The downloader after the pieces `d`, which completed bundles with the blocks `pushed`. */
  ghost predicate After(codec: Decoders, cat: Catalog, canon: u32 -> CompressedBlock, start: u32,
                        d: seq<Piece>, pushed: seq<CompressedBlock>, s: State) {
    && WellKept(codec, s.buffers) && AsMaps(s.buffers) == Pending(cat, Open(cat, d)) && Unfinished(cat, Open(cat, d))
    && Reordered(start, pushed, s)
    && Accounts(codec, cat, canon, d, pushed)
    && Emitted(canon, start, s.sent)
  }

  ghost predicate Accounts(codec: Decoders, cat: Catalog, canon: u32 -> CompressedBlock,
                           d: seq<Piece>, pushed: seq<CompressedBlock>) {
    && Canonical(canon, pushed)
    && forall h: u32 :: PushedIn(pushed, h) <==> Covered(codec, cat, d, h)
  }

  ghost predicate Emitted(canon: u32 -> CompressedBlock, start: u32, sent: seq<CompressedBlock>) {
    && |sent| <= U32_MAX + 1 - start
    && forall i: nat | i < |sent| :: sent[i] == canon(start + i)
  }

  lemma CoveredStep(codec: Decoders, cat: Catalog, d: seq<Piece>, p: Piece, h: u32)
    requires p.id in cat
    ensures Covered(codec, cat, d + [p], h) <==>
      Covered(codec, cat, d, h) ||
      (Whole(cat, Open(cat, d) + {p}, p.id) && PushedIn(BundleBlocks(codec, cat[p.id]), h))
  {
    forall id
      ensures FullyDelivered(cat, d + [p], id)
        <==> FullyDelivered(cat, d, id) || (id == p.id && Whole(cat, Open(cat, d) + {p}, id))
    {
      FullyDeliveredStep(cat, d, p, id);
    }
  }

  lemma PushedInAppend(a: seq<CompressedBlock>, b: seq<CompressedBlock>, h: u32)
    ensures PushedIn(a + b, h) <==> PushedIn(a, h) || PushedIn(b, h)
  {
    if PushedIn(a, h) {
      var i :| 0 <= i < |a| && a[i].height == h;
      assert (a + b)[i].height == h;
    }
    if PushedIn(b, h) {
      var i :| 0 <= i < |b| && b[i].height == h;
      assert (a + b)[|a| + i].height == h;
    }
  }

  /** The blocks pushed so far and those of the bundle that the piece `p` makes whole. */
  ghost function PushedWith(codec: Decoders, cat: Catalog, d: seq<Piece>, pushed: seq<CompressedBlock>, p: Piece):
    seq<CompressedBlock>
    requires p.id in cat
  {
    if Whole(cat, Open(cat, d) + {p}, p.id) then pushed + BundleBlocks(codec, cat[p.id]) else pushed
  }

  lemma AccountsStep(codec: Decoders, cat: Catalog, canon: u32 -> CompressedBlock,
                     d: seq<Piece>, pushed: seq<CompressedBlock>, p: Piece)
    requires p.id in cat && Coherent(codec, cat, canon)
    requires Accounts(codec, cat, canon, d, pushed)
    ensures Accounts(codec, cat, canon, d + [p], PushedWith(codec, cat, d, pushed, p))
  {
    forall h: u32
      ensures Covered(codec, cat, d + [p], h) <==> PushedIn(PushedWith(codec, cat, d, pushed, p), h)
    {
      CoveredStep(codec, cat, d, p, h);
      PushedInAppend(pushed, BundleBlocks(codec, cat[p.id]), h);
    }
  }

  /** Blocks sent are canonical if everything pushed is. */
  lemma SentIsCanonical(canon: u32 -> CompressedBlock, start: u32, pushed: seq<CompressedBlock>,
                        before: seq<CompressedBlock>, sent: seq<CompressedBlock>)
    requires Canonical(canon, pushed) && Emitted(canon, start, before)
    requires before <= sent && SentLatest(start, pushed, |before|, sent)
    ensures Emitted(canon, start, sent)
  {
    forall i: nat | i < |sent| ensures sent[i] == canon(start + i) {
      if i >= |before| { assert LatestAt(start, pushed, sent, i); }
    }
  }

  /** What a run of the downloader amounts to, once the pieces `d` have been delivered: the canonical blocks
      from `start` to the first height that is not covered, or the first `room` of them. */
  ghost predicate EmitsCoveredRun(codec: Decoders, cat: Catalog, canon: u32 -> CompressedBlock, start: u32,
                                  room: nat, d: seq<Piece>, sent: seq<CompressedBlock>, r: Outcome) {
    && (r.Ok? || r == Err(ReceiverGone) || r == Err(OutOfFuelBlockNumbers))
    && Emitted(canon, start, sent)
    && |sent| <= room
    && (forall h: u32 | start <= h < start + |sent| :: Covered(codec, cat, d, h))
    && (r == Err(ReceiverGone) ==>
          |sent| == room && start + |sent| <= U32_MAX && Covered(codec, cat, d, start + |sent|))
    && (r == Err(OutOfFuelBlockNumbers) ==> start + |sent| == U32_MAX + 1)
    && (r.Ok? ==> start + |sent| <= U32_MAX && !Covered(codec, cat, d, start + |sent|))
  }

  /** One more blob that completes its bundle. */
  lemma BundleStep(codec: Decoders, cat: Catalog, canon: u32 -> CompressedBlock, start: u32, room: nat,
                   d: seq<Piece>, pushed: seq<CompressedBlock>, s: State, id: u32)
      returns (t: State, r: Outcome)
    requires Coherent(codec, cat, canon) && id in cat && Decodes(codec, cat[id])
    requires Reordered(start, pushed, s) && Emitted(canon, start, s.sent) && s.room + |s.sent| == room
    requires Accounts(codec, cat, canon, d, pushed + BundleBlocks(codec, cat[id]))
    ensures (t, r) == Absorb(codec, s, codec.decodeBundle(cat[id]).value)
    ensures t.buffers == s.buffers && t.room + |t.sent| == room
    ensures r.Ok? ==> Reordered(start, pushed + BundleBlocks(codec, cat[id]), t)
    ensures EmitsCoveredRun(codec, cat, canon, start, room, d, t.sent, r)
  {
    var raw := codec.decodeBundle(cat[id]).value;
    var pushed' := pushed + BundleBlocks(codec, cat[id]);
    AbsorbDecodes(codec, s, raw);
    AbsorbReorders(start, pushed, s, Decoded(codec, raw));
    t, r := AbsorbBlocks(s, Decoded(codec, raw)).0, AbsorbBlocks(s, Decoded(codec, raw)).1;
    SentIsCanonical(canon, start, pushed', s.sent, t.sent);
    forall h: u32 | PushedIn(pushed, h) ensures PushedIn(pushed', h) {
      PushedInAppend(pushed, BundleBlocks(codec, cat[id]), h);
    }
    SentIsCovered(codec, cat, canon, start, d, pushed', s, t, r);
  }

  lemma SentIsCovered(codec: Decoders, cat: Catalog, canon: u32 -> CompressedBlock, start: u32,
                      d: seq<Piece>, pushed: seq<CompressedBlock>, s: State, t: State, r: Outcome)
    requires DrainResult(start, pushed, |s.sent|, s, t, r) && Accounts(codec, cat, canon, d, pushed)
    requires forall h: u32 | start <= h < start + |s.sent| :: PushedIn(pushed, h)
    ensures forall h: u32 | start <= h < start + |t.sent| :: Covered(codec, cat, d, h)
  {
    forall h: u32 | start <= h < start + |t.sent| ensures Covered(codec, cat, d, h) {
      if h >= start + |s.sent| { assert LatestAt(start, pushed, t.sent, h - start); }
      assert PushedIn(pushed, h);
    }
  }

  /** What one more blob does to the bundle buffers. */
  lemma InsertStep(codec: Decoders, cat: Catalog, d: seq<Piece>, bufs: Buffers, p: Piece) returns (next: Buffers)
    requires WellFormed(codec, cat) && Known(cat, p)
    requires WellKept(codec, bufs) && AsMaps(bufs) == Pending(cat, Open(cat, d)) && Unfinished(cat, Open(cat, d))
    ensures Insert(codec, bufs, cat[p.id][p.idx]) == (next, Expected(codec, cat, Open(cat, d), p))
    ensures WellKept(codec, next) && AsMaps(next) == Pending(cat, Open(cat, d + [p]))
    ensures Unfinished(cat, Open(cat, d + [p]))
  {
    var blob := cat[p.id][p.idx];
    next := Insert(codec, bufs, blob).0;
    assert (d + [p])[..|d|] == d;
    InsertKeepsWellKept(codec, bufs, blob);
    InsertRefinesMaps(codec, bufs, blob);
    PieceStep(codec, cat, Open(cat, d), p);
    AdvanceKeepsUnfinished(codec, cat, Open(cat, d), p);
  }

  /** One more blob that does not offend. */
  lemma BlobStep(codec: Decoders, cat: Catalog, canon: u32 -> CompressedBlock, start: u32, room: nat,
                 d: seq<Piece>, pushed: seq<CompressedBlock>, s: State, p: Piece)
      returns (pushed': seq<CompressedBlock>)
    requires WellFormed(codec, cat) && Coherent(codec, cat, canon) && Known(cat, p)
    requires Offence(codec, cat, Open(cat, d), p).Ok?
    requires After(codec, cat, canon, start, d, pushed, s) && s.room + |s.sent| == room
    ensures var (t, r) := ProcessBlob(codec, s, cat[p.id][p.idx]);
      && (r.Ok? ==> After(codec, cat, canon, start, d + [p], pushed', t) && t.room + |t.sent| == room)
      && EmitsCoveredRun(codec, cat, canon, start, room, d + [p], t.sent, r)
  {
    var next := InsertStep(codec, cat, d, s.buffers, p);
    pushed' := PushedWith(codec, cat, d, pushed, p);
    AccountsStep(codec, cat, canon, d, pushed, p);
    var u := s.(buffers := next);
    if Whole(cat, Open(cat, d) + {p}, p.id) {
      var t, r := BundleStep(codec, cat, canon, start, room, d + [p], pushed, u, p.id);
      assert ProcessBlob(codec, s, cat[p.id][p.idx]) == (t, r);
    } else {
      QuietRun(codec, cat, canon, start, room, d + [p], pushed, u);
      assert ProcessBlob(codec, s, cat[p.id][p.idx]) == (u, Ok);
    }
  }

  /** Between bundles, the run so far is the covered run. */
  lemma QuietRun(codec: Decoders, cat: Catalog, canon: u32 -> CompressedBlock, start: u32, room: nat,
                 d: seq<Piece>, pushed: seq<CompressedBlock>, s: State)
    requires Reordered(start, pushed, s) && Accounts(codec, cat, canon, d, pushed)
    requires Emitted(canon, start, s.sent) && s.room + |s.sent| == room
    ensures EmitsCoveredRun(codec, cat, canon, start, room, d, s.sent, Ok)
  {
  }

  // ---------------------------------------------------------------- whole deliveries

  lemma {:induction false} ProcessBlobsAppend(codec: Decoders, s: State, a: seq<Blob>, b: seq<Blob>)
    ensures ProcessBlobs(codec, s, a + b) ==
      var (t, r) := ProcessBlobs(codec, s, a);
      if r.Err? then (t, r) else ProcessBlobs(codec, t, b)
    decreases |a|
  {
    if |a| == 0 {
      assert a + b == b;
    } else {
      assert (a + b)[0] == a[0] && (a + b)[1..] == a[1..] + b;
      var (t, r) := ProcessBlob(codec, s, a[0]);
      if r.Ok? { ProcessBlobsAppend(codec, t, a[1..], b); }
    }
  }

  lemma ProcessLastBlob(codec: Decoders, s: State, a: seq<Blob>, blob: Blob)
    ensures ProcessBlobs(codec, s, a + [blob]) ==
      var (t, r) := ProcessBlobs(codec, s, a);
      if r.Err? then (t, r) else ProcessBlob(codec, t, blob)
  {
    ProcessBlobsAppend(codec, s, a, [blob]);
    assert [blob][1..] == [];
  }

  /** The downloader has run over the pieces `d`, with the outcome (t, r). */
  ghost predicate HasRun(codec: Decoders, cat: Catalog, canon: u32 -> CompressedBlock, start: u32, room: nat,
                         d: seq<Piece>, pushed: seq<CompressedBlock>, t: State, r: Outcome) {
    && EmitsCoveredRun(codec, cat, canon, start, room, d, t.sent, r)
    && (r.Ok? ==> After(codec, cat, canon, start, d, pushed, t) && t.room + |t.sent| == room)
  }

  lemma OneMorePiece(codec: Decoders, cat: Catalog, canon: u32 -> CompressedBlock, start: u32, room: nat, u: seq<Piece>,
                   p: Piece, pushed: seq<CompressedBlock>, s: State, r: Outcome)
      returns (pushed': seq<CompressedBlock>, t: State, e: Outcome)
    requires WellFormed(codec, cat) && Coherent(codec, cat, canon) && Known(cat, p)
    requires Offence(codec, cat, Open(cat, u), p).Ok?
    requires HasRun(codec, cat, canon, start, room, u, pushed, s, r)
    ensures (t, e) == if r.Ok? then ProcessBlob(codec, s, cat[p.id][p.idx]) else (s, r)
    ensures HasRun(codec, cat, canon, start, room, u + [p], pushed', t, e)
  {
    if r.Ok? {
      pushed' := BlobStep(codec, cat, canon, start, room, u, pushed, s, p);
      t, e := ProcessBlob(codec, s, cat[p.id][p.idx]).0, ProcessBlob(codec, s, cat[p.id][p.idx]).1;
    } else {
      pushed', t, e := pushed, s, r;
      StoppedRun(codec, cat, canon, start, room, u, [p], s.sent, r);
    }
  }

  lemma {:induction false} CleanRun(codec: Decoders, cat: Catalog, canon: u32 -> CompressedBlock, start: u32,
                                    room: nat, d: seq<Piece>)
      returns (pushed: seq<CompressedBlock>, t: State, r: Outcome)
    requires WellFormed(codec, cat) && Coherent(codec, cat, canon) && Clean(codec, cat, d)
    ensures (t, r) == ProcessBlobs(codec, Init(start, room), BlobsOf(cat, d))
    ensures HasRun(codec, cat, canon, start, room, d, pushed, t, r)
    decreases |d|
  {
    if |d| == 0 {
      pushed, t, r := [], Init(start, room), Ok;
      NothingDelivered(codec, cat, canon, start, room);
    } else {
      var u, p := d[..|d| - 1], d[|d| - 1];
      CleanPrefix(codec, cat, d, |d| - 1);
      assert CleanAt(codec, cat, d, |d| - 1);
      LastPiece(cat, d);
      pushed, t, r := CleanRun(codec, cat, canon, start, room, u);
      ProcessLastBlob(codec, Init(start, room), BlobsOf(cat, u), cat[p.id][p.idx]);
      pushed, t, r := OneMorePiece(codec, cat, canon, start, room, u, p, pushed, t, r);
    }
  }

  lemma CleanPrefix(codec: Decoders, cat: Catalog, d: seq<Piece>, k: nat)
    requires Clean(codec, cat, d) && k <= |d|
    ensures Clean(codec, cat, d[..k])
  {
    var u := d[..k];
    forall j | 0 <= j < |u| ensures Known(cat, u[j]) { assert u[j] == d[j]; }
    forall j | 0 <= j < |u| ensures CleanAt(codec, cat, u, j) {
      assert u[..j] == d[..j] && CleanAt(codec, cat, d, j);
    }
  }

  /** More pieces only cover more. */
  lemma CoverGrows(codec: Decoders, cat: Catalog, d1: seq<Piece>, d2: seq<Piece>, h: u32)
    requires forall p | p in d1 :: p in d2
    ensures Covered(codec, cat, d1, h) ==> Covered(codec, cat, d2, h)
  {
    if Covered(codec, cat, d1, h) {
      var id :| id in cat && FullyDelivered(cat, d1, id) && PushedIn(BundleBlocks(codec, cat[id]), h);
      assert FullyDelivered(cat, d2, id);
    }
  }

  /** A stream that has ended is not changed by what arrives later. */
  lemma StoppedRun(codec: Decoders, cat: Catalog, canon: u32 -> CompressedBlock, start: u32, room: nat,
                   d: seq<Piece>, more: seq<Piece>, sent: seq<CompressedBlock>, r: Outcome)
    requires EmitsCoveredRun(codec, cat, canon, start, room, d, sent, r) && !r.Ok?
    ensures EmitsCoveredRun(codec, cat, canon, start, room, d + more, sent, r)
  {
    forall h: u32 | Covered(codec, cat, d, h) ensures Covered(codec, cat, d + more, h) {
      CoverGrows(codec, cat, d, d + more, h);
    }
  }

  lemma NothingDelivered(codec: Decoders, cat: Catalog, canon: u32 -> CompressedBlock, start: u32, room: nat)
    requires WellFormed(codec, cat)
    ensures After(codec, cat, canon, start, [], [], Init(start, room))
    ensures EmitsCoveredRun(codec, cat, canon, start, room, [], [], Ok)
  {
    FeedHoldsPending(codec, cat, []);
    forall id | id in cat ensures !FullyDelivered(cat, [], id) {
      var first: Piece := Piece(id, 0);
      assert first !in [];
    }
    assert forall h: u32 :: !PushedIn([], h) && !Covered(codec, cat, [], h);
  }

  /** End to end: delivering any selection of blobs, in any order, each again only after its bundle has been
      completed, of bundles that decode if they are completed, emits the canonical blocks start, start + 1, ... up to
      the first height that no fully delivered bundle covers. */
  lemma DownloaderEmits(codec: Decoders, cat: Catalog, canon: u32 -> CompressedBlock, start: u32, room: nat,
                        d: seq<Piece>)
    requires WellFormed(codec, cat) && Coherent(codec, cat, canon) && Clean(codec, cat, d)
    ensures var (t, r) := ProcessBlobs(codec, Init(start, room), BlobsOf(cat, d));
      EmitsCoveredRun(codec, cat, canon, start, room, d, t.sent, r)
  {
    var pushed, t, r := CleanRun(codec, cat, canon, start, room, d);
  }

  /** Delivering more blobs, in any order, extends what is emitted; it never changes it. */
  lemma MoreBlobsExtend(codec: Decoders, cat: Catalog, canon: u32 -> CompressedBlock, start: u32, room: nat,
                        d1: seq<Piece>, d2: seq<Piece>)
    requires WellFormed(codec, cat) && Coherent(codec, cat, canon)
    requires Clean(codec, cat, d1) && Clean(codec, cat, d2)
    requires forall p | p in d1 :: p in d2
    ensures ProcessBlobs(codec, Init(start, room), BlobsOf(cat, d1)).0.sent
         <= ProcessBlobs(codec, Init(start, room), BlobsOf(cat, d2)).0.sent
  {
    DownloaderEmits(codec, cat, canon, start, room, d1);
    DownloaderEmits(codec, cat, canon, start, room, d2);
    var (t1, r1) := ProcessBlobs(codec, Init(start, room), BlobsOf(cat, d1));
    var (t2, r2) := ProcessBlobs(codec, Init(start, room), BlobsOf(cat, d2));
    var top := start + |t2.sent|;
    if top <= U32_MAX {
      CoverGrows(codec, cat, d1, d2, top);
      assert r2.Ok? ==> !Covered(codec, cat, d1, top);
    }
  }

  /** Confluence: two deliveries of the same blobs, in any two orders, with any repeats of completed bundles, emit
      the same Fuel blocks. */
  lemma SameBlobsSameBlocks(codec: Decoders, cat: Catalog, canon: u32 -> CompressedBlock, start: u32, room: nat,
                            d1: seq<Piece>, d2: seq<Piece>)
    requires WellFormed(codec, cat) && Coherent(codec, cat, canon)
    requires Clean(codec, cat, d1) && Clean(codec, cat, d2)
    requires forall p :: p in d1 <==> p in d2
    ensures ProcessBlobs(codec, Init(start, room), BlobsOf(cat, d1)).0.sent
         == ProcessBlobs(codec, Init(start, room), BlobsOf(cat, d2)).0.sent
  {
    MoreBlobsExtend(codec, cat, canon, start, room, d1, d2);
    MoreBlobsExtend(codec, cat, canon, start, room, d2, d1);
  }

  // ---------------------------------------------------------------- blobs that end the stream

  /** Where a piece first offends; the length if none does. */
  ghost function FirstOffence(codec: Decoders, cat: Catalog, d: seq<Piece>): (k: nat)
    requires Pieces(cat, d)
    ensures k <= |d|
    decreases |d|
  {
    if |d| == 0 then 0
    else
      assert Known(cat, d[|d| - 1]);
      var k := FirstOffence(codec, cat, d[..|d| - 1]);
      if k == |d| - 1 && CleanAt(codec, cat, d, k) then |d| else k
  }

  lemma {:induction false} FirstOffenceIsFirst(codec: Decoders, cat: Catalog, d: seq<Piece>)
    requires Pieces(cat, d)
    ensures var k := FirstOffence(codec, cat, d); Clean(codec, cat, d[..k]) && (k < |d| ==> !CleanAt(codec, cat, d, k))
    decreases |d|
  {
    if |d| == 0 {
    } else {
      var u, k := d[..|d| - 1], FirstOffence(codec, cat, d);
      LastPiece(cat, d);
      FirstOffenceIsFirst(codec, cat, u);
      if k < |u| {
        assert u[..k] == d[..k];
        assert u[k] == d[k];
      } else if k == |d| {
        assert d[..|d|] == d && u[..|u|] == u;
        CleanOneMore(codec, cat, d);
      } else {
        assert u[..k] == u == d[..k];
      }
    }
  }

  lemma CleanOneMore(codec: Decoders, cat: Catalog, d: seq<Piece>)
    requires |d| > 0 && Pieces(cat, d) && Clean(codec, cat, d[..|d| - 1]) && CleanAt(codec, cat, d, |d| - 1)
    ensures Clean(codec, cat, d)
  {
    var u := d[..|d| - 1];
    forall j | 0 <= j < |d| ensures CleanAt(codec, cat, d, j) {
      if j < |u| { assert u[..j] == d[..j] && u[j] == d[j] && CleanAt(codec, cat, u, j); }
    }
  }

  /** The pieces before the first that offends. */
  ghost function BeforeOffence(codec: Decoders, cat: Catalog, d: seq<Piece>): seq<Piece>
    requires Pieces(cat, d)
  {
    d[..FirstOffence(codec, cat, d)]
  }

  /** How the pieces end the stream, if it still listens. */
  ghost function EndOf(codec: Decoders, cat: Catalog, d: seq<Piece>): Outcome
    requires Pieces(cat, d)
  {
    var k := FirstOffence(codec, cat, d);
    if k == |d| then Ok
    else
      assert Known(cat, d[k]);
      Offence(codec, cat, Open(cat, d[..k]), d[k])
  }

  /** The stream still listens: some height it could send next is not covered. */
  ghost predicate StillOpen(codec: Decoders, cat: Catalog, start: u32, room: nat, d: seq<Piece>) {
    exists m: u32 :: start <= m <= start + room && !Covered(codec, cat, d, m)
  }

  lemma OkExactlyWhileOpen(codec: Decoders, cat: Catalog, canon: u32 -> CompressedBlock, start: u32, room: nat,
                           d: seq<Piece>, sent: seq<CompressedBlock>, r: Outcome)
    requires EmitsCoveredRun(codec, cat, canon, start, room, d, sent, r)
    ensures r.Ok? <==> StillOpen(codec, cat, start, room, d)
  {
  }

  /** A block that does not decode ends the push loop; nothing has been sent. */
  lemma {:induction false} PushAllFails(codec: Decoders, s: State, raw: seq<Bytes>)
    requires !AllDecode(codec, raw)
    ensures PushAll(codec, s, raw).1 == Err(UndecodableBlock) && PushAll(codec, s, raw).0.sent == s.sent
    decreases |raw|
  {
    if codec.decodeBlock(raw[0]).None? {
    } else {
      var j :| 0 <= j < |raw| && codec.decodeBlock(raw[j]).None?;
      assert raw[1..][j - 1] == raw[j];
      PushAllFails(codec, s.(blocks := BB.Pushed(s.blocks, codec.decodeBlock(raw[0]).value)), raw[1..]);
    }
  }

  /** A piece that offends ends the stream with its error, and nothing more has been sent. */
  lemma OffenceEndsStream(codec: Decoders, cat: Catalog, canon: u32 -> CompressedBlock, start: u32,
                          d: seq<Piece>, pushed: seq<CompressedBlock>, s: State, p: Piece)
    requires WellFormed(codec, cat) && After(codec, cat, canon, start, d, pushed, s)
    requires Known(cat, p) && Offence(codec, cat, Open(cat, d), p).Err?
    ensures var (t, r) := ProcessBlob(codec, s, cat[p.id][p.idx]);
      r == Offence(codec, cat, Open(cat, d), p) && t.sent == s.sent && (p in Open(cat, d) ==> t == s)
  {
    var next := Insert(codec, s.buffers, cat[p.id][p.idx]).0;
    assert Insert(codec, s.buffers, cat[p.id][p.idx]).1 == Expected(codec, cat, Open(cat, d), p) by {
      var same := InsertStep(codec, cat, d, s.buffers, p);
    }
    if p !in Open(cat, d) && codec.decodeBundle(cat[p.id]).Some? {
      PushAllFails(codec, s.(buffers := next), codec.decodeBundle(cat[p.id]).value);
    }
  }

  /** A blob whose header cannot be read ends the stream and changes nothing, whatever has come before. */
  lemma UnreadableBlobEndsStream(codec: Decoders, s: State, before: seq<Blob>, blob: Blob, rest: seq<Blob>)
    requires codec.readHeader(blob).None?
    ensures var (t, r) := ProcessBlobs(codec, s, before);
      ProcessBlobs(codec, s, before + [blob] + rest)
        == (t, if r.Ok? then Err(BadBlob(UnreadableHeader)) else r)
  {
    var t := ProcessBlobs(codec, s, before).0;
    assert ProcessBlob(codec, t, blob) == (t, Err(BadBlob(UnreadableHeader))) by {
      assert Insert(codec, t.buffers, blob) == (t.buffers, Rejected(UnreadableHeader));
    }
    ProcessLastBlob(codec, s, before, blob);
    ProcessBlobsAppend(codec, s, before + [blob], rest);
  }

  /** The run up to the k-th piece decides, if it has ended or if that piece ends it. */
  lemma RunUpTo(codec: Decoders, cat: Catalog, s: State, d: seq<Piece>, k: nat)
    requires Pieces(cat, d) && k < |d|
    ensures Pieces(cat, d[..k]) && Known(cat, d[k])
    ensures var (t, r) := ProcessBlobs(codec, s, BlobsOf(cat, d[..k]));
      var (v, e) := ProcessBlob(codec, t, cat[d[k].id][d[k].idx]);
      && (r.Err? ==> ProcessBlobs(codec, s, BlobsOf(cat, d)) == (t, r))
      && (r.Ok? && e.Err? ==> ProcessBlobs(codec, s, BlobsOf(cat, d)) == (v, e))
  {
    var u, rest := BlobsOf(cat, d[..k]), BlobsOf(cat, d)[k..];
    assert BlobsOf(cat, d) == u + rest && rest[0] == cat[d[k].id][d[k].idx];
    ProcessBlobsAppend(codec, s, u, rest);
  }

  /** Any blobs of the catalog in any order with any repeats, with bundles and blocks that do not decode among them: the
      stream sends the covered run of the blobs before the first that offends. If it still listens then, it ends with
      that offence, if there is one; else it has ended for want of a receiver or of heights. */
  lemma StreamEndsExactlyWhen(codec: Decoders, cat: Catalog, canon: u32 -> CompressedBlock, start: u32, room: nat,
                              d: seq<Piece>) returns (t: State, r: Outcome)
    requires WellFormed(codec, cat) && Coherent(codec, cat, canon) && Pieces(cat, d)
    ensures (t, r) == ProcessBlobs(codec, Init(start, room), BlobsOf(cat, d))
    ensures var u := BeforeOffence(codec, cat, d); var open := StillOpen(codec, cat, start, room, u);
      && (open ==> r == EndOf(codec, cat, d))
      && EmitsCoveredRun(codec, cat, canon, start, room, u, t.sent, if open then Ok else r)
  {
    var k, s := FirstOffence(codec, cat, d), Init(start, room);
    FirstOffenceIsFirst(codec, cat, d);
    var pushed;
    pushed, t, r := CleanRun(codec, cat, canon, start, room, d[..k]);
    OkExactlyWhileOpen(codec, cat, canon, start, room, d[..k], t.sent, r);
    if k == |d| {
      assert d[..k] == d;
    } else {
      RunUpTo(codec, cat, s, d, k);
      if r.Ok? {
        OffenceEndsStream(codec, cat, canon, start, d[..k], pushed, t, d[k]);
        var (v, e) := ProcessBlob(codec, t, cat[d[k].id][d[k].idx]);
        t, r := v, e;
      }
    }
  }

  /** The stream ends with the duplicate error exactly when the first blob that offends is one that has come in the same
      round of its bundle, and the stream still listened until then. */
  lemma RepeatsEndStreamExactlyWhen(codec: Decoders, cat: Catalog, canon: u32 -> CompressedBlock, start: u32,
                                    room: nat, d: seq<Piece>)
    requires WellFormed(codec, cat) && Coherent(codec, cat, canon) && Pieces(cat, d)
    ensures var k := FirstOffence(codec, cat, d);
      ProcessBlobs(codec, Init(start, room), BlobsOf(cat, d)).1 == Err(BadBlob(DuplicateBlob)) <==>
        k < |d| && d[k] in Open(cat, d[..k]) && StillOpen(codec, cat, start, room, d[..k])
  {
    var t, r := StreamEndsExactlyWhen(codec, cat, canon, start, room, d);
  }
}
