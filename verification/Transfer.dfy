/**
 What moves between the two sides: chunks written with pwrite, and one bulk
 pull that gathers the client's non-empty segments and scatters them over the
 server's. All three ways of sending are shown to copy the fileset.
 */
module Transfer {
  import opened Codes

  type Byte = b: int | 0 <= b < 256
  type Bytes = seq<Byte>

  /** A migrate_write request: file number, offset, payload. */
  datatype Chunk = Chunk(file: nat, offset: nat, data: Bytes)

  function Max(a: int, b: int): int {
    if a < b then b else a
  }

  function Min(a: int, b: int): int {
    if a < b then a else b
  }

  /** Effect of a pwrite that stores all of `d` at `off`; a gap reads as zeros. */
  function PWrite(f: Bytes, off: nat, d: Bytes): (r: Bytes)
    ensures |r| == if d == [] then |f| else Max(|f|, off + |d|)
    ensures forall k :: 0 <= k < |r| ==>
                          r[k] == if off <= k < off + |d| then d[k - off] else if k < |f| then f[k] else 0
  {
    if d == [] then f
    else
      seq(Max(|f|, off + |d|), k requires 0 <= k < Max(|f|, off + |d|) =>
        if off <= k < off + |d| then d[k - off] else if k < |f| then f[k] else 0)
  }

  /** Appending at the end of file: the only pwrite an honest sender causes. */
  lemma PWriteAppends(f: Bytes, d: Bytes)
    ensures PWrite(f, |f|, d) == f + d
  {
  }

  /** The server's acceptance test; the sum is a size_t, so it wraps. */
  predicate Accepts(sizes: seq<nat>, k: Chunk) {
    k.file < |sizes| && (k.offset + |k.data|) % SIZE_LIMIT <= sizes[k.file]
  }

  predicate NoWrap(k: Chunk) {
    k.offset + |k.data| < SIZE_LIMIT
  }

  /** What a request can carry at all: an offset that is a size_t, and a vector of bytes. */
  predicate Sendable(k: Chunk) {
    k.offset < SIZE_LIMIT && |k.data| < OFFSET_LIMIT
  }

  /** pwrite takes a signed offset and refuses a negative one. */
  predicate Storable(k: Chunk) {
    k.offset < OFFSET_LIMIT
  }

  /** Destination contents after the first `n` bytes of `k` are stored. */
  function Store(c: seq<Bytes>, k: Chunk, n: nat): (r: seq<Bytes>)
    requires k.file < |c| && n <= |k.data|
    ensures |r| == |c|
  {
    c[k.file := PWrite(c[k.file], k.offset, k.data[..n])]
  }

  /** Destination contents after the chunks of `plan` are stored in order. */
  function Deliver(c: seq<Bytes>, plan: seq<Chunk>): (r: seq<Bytes>)
    requires forall k <- plan :: k.file < |c|
    ensures |r| == |c|
    decreases |plan|
  {
    if plan == [] then c else Deliver(Store(c, plan[0], |plan[0].data|), plan[1..])
  }

  lemma {:induction false} DeliverAppend(c: seq<Bytes>, a: seq<Chunk>, b: seq<Chunk>)
    requires forall k <- a + b :: k.file < |c|
    ensures (forall k <- a :: k.file < |c|) && (forall k <- b :: k.file < |c|)
    ensures Deliver(c, a + b) == Deliver(Deliver(c, a), b)
    decreases |a|
  {
    assert forall k <- a :: k in a + b;
    assert forall k <- b :: k in a + b;
    if a == [] {
      assert a + b == b;
    } else {
      assert (a + b)[0] == a[0] && (a + b)[1..] == a[1..] + b;
      DeliverAppend(Store(c, a[0], |a[0].data|), a[1..], b);
    }
  }

  /** What pwrite can do with an accepted chunk never outgrows the declared size: a wrapping sum has an offset it refuses. */
  lemma StoreKeepsSizes(c: seq<Bytes>, sizes: seq<nat>, k: Chunk, n: nat)
    requires |c| == |sizes| && Accepts(sizes, k) && Sendable(k) && n <= |k.data| && (!Storable(k) ==> n == 0)
    requires forall i :: 0 <= i < |c| ==> |c[i]| <= sizes[i]
    ensures forall i :: 0 <= i < |c| ==> |Store(c, k, n)[i]| <= sizes[i]
  {
    if Storable(k) { AcceptedFitsExactly(sizes, k); }
  }

  /**
   The sum in the size test wraps at 2^64, so a chunk that is accepted may claim
   bytes beyond the declared size. It does so exactly when the sum wraps, and
   then its offset is one that pwrite refuses.
   */
  lemma AcceptedFitsExactly(sizes: seq<nat>, k: Chunk)
    requires Accepts(sizes, k) && Sendable(k)
    ensures NoWrap(k) ==> k.offset + |k.data| <= sizes[k.file]
    ensures sizes[k.file] < SIZE_LIMIT ==> (k.offset + |k.data| <= sizes[k.file] <==> NoWrap(k))
    ensures Storable(k) ==> NoWrap(k)
  {
    if NoWrap(k) {
      assert (k.offset + |k.data|) % SIZE_LIMIT == k.offset + |k.data|;
    }
  }

  /**
   The two tests without the machine's arithmetic: the file number is known,
   and the chunk ends within the declared size, or as far beyond the largest
   size_t as that size allows.
   */
  lemma AcceptsExactly(sizes: seq<nat>, k: Chunk)
    requires Sendable(k) && forall s <- sizes :: s < SIZE_LIMIT
    ensures Accepts(sizes, k) <==>
            && k.file < |sizes|
            && (k.offset + |k.data| <= sizes[k.file] || SIZE_LIMIT <= k.offset + |k.data| <= SIZE_LIMIT + sizes[k.file])
  {
    var sum := k.offset + |k.data|;
    if k.file < |sizes| {
      assert sizes[k.file] in sizes;
      if sum < SIZE_LIMIT { assert sum % SIZE_LIMIT == sum; } else { assert sum % SIZE_LIMIT == sum - SIZE_LIMIT; }
    }
  }

  /** The guard fails to guard: whatever the declared size and the payload, some offset makes the sum wrap to zero and pass. */
  lemma WrappedSumIsAccepted(size: nat, data: Bytes)
    requires 0 < |data| < OFFSET_LIMIT
    ensures exists k: Chunk :: k.data == data && Sendable(k) && Accepts([size], k) && !NoWrap(k) && !Storable(k)
  {
    var k := Chunk(0, SIZE_LIMIT - |data|, data);
    assert k.offset + |k.data| == SIZE_LIMIT;
    assert Sendable(k) && Accepts([size], k) && !NoWrap(k) && !Storable(k);
  }

  // ---------------------------------------------------------------- chunk plans

  /** Chunks of one file from `off` on, at most `xfer` bytes each. */
  function FileChunks(i: nat, src: Bytes, xfer: nat, off: nat): seq<Chunk>
    requires xfer > 0 && off <= |src|
    decreases |src| - off
  {
    if off == |src| then []
    else
      var n := Min(xfer, |src| - off);
      [Chunk(i, off, src[off..off + n])] + FileChunks(i, src, xfer, off + n)
  }

  /** What the pipelined loop sends for one file: an empty file still costs one empty write. */
  function PipelinedChunks(i: nat, src: Bytes, xfer: nat): seq<Chunk>
    requires xfer > 0
  {
    if src == [] then [Chunk(i, 0, [])] else FileChunks(i, src, xfer, 0)
  }

  datatype Policy = Sequential | Pipelined

  function ChunksOf(p: Policy, i: nat, src: Bytes, xfer: nat): seq<Chunk>
    requires xfer > 0
  {
    if p.Sequential? then FileChunks(i, src, xfer, 0) else PipelinedChunks(i, src, xfer)
  }

  /** The whole series of write requests, file by file from number `i`. */
  function Plan(p: Policy, srcs: seq<Bytes>, xfer: nat, i: nat): seq<Chunk>
    requires xfer > 0 && i <= |srcs|
    decreases |srcs| - i
  {
    if i == |srcs| then [] else ChunksOf(p, i, srcs[i], xfer) + Plan(p, srcs, xfer, i + 1)
  }

  function Sizes(srcs: seq<Bytes>): (r: seq<nat>)
    ensures |r| == |srcs| && forall i :: 0 <= i < |srcs| ==> r[i] == |srcs[i]|
  {
    seq(|srcs|, i requires 0 <= i < |srcs| => |srcs[i]|)
  }

  function Blank(n: nat): (r: seq<Bytes>)
    ensures |r| == n && forall i :: 0 <= i < n ==> r[i] == []
  {
    seq(n, _ => [])
  }

  lemma {:induction false} FileChunksInFile(i: nat, src: Bytes, xfer: nat, off: nat)
    requires xfer > 0 && off <= |src|
    ensures forall k <- FileChunks(i, src, xfer, off) ::
              k.file == i && off <= k.offset && k.offset + |k.data| <= |src|
    decreases |src| - off
  {
    if off < |src| {
      FileChunksInFile(i, src, xfer, off + Min(xfer, |src| - off));
    }
  }

  /** A chunk that carries the source bytes of its range. */
  predicate CarriesSource(k: Chunk, src: Bytes) {
    k.offset + |k.data| <= |src| && k.data == src[k.offset..k.offset + |k.data|]
  }

  /** Chunks that start at `off`, follow each other without gap or overlap and end at `end`. */
  predicate Tile(ks: seq<Chunk>, off: nat, end: nat) {
    if ks == [] then off == end
    else ks[0].offset == off && Tile(ks[1..], off + |ks[0].data|, end)
  }

  lemma FileChunksCons(i: nat, src: Bytes, xfer: nat, off: nat)
    requires xfer > 0 && off < |src|
    ensures var n := Min(xfer, |src| - off);
            FileChunks(i, src, xfer, off) == [Chunk(i, off, src[off..off + n])] + FileChunks(i, src, xfer, off + n)
  {
  }

  /**
   The chunks of a file tile it exactly, carry the source bytes of their
   range, are full except perhaps the last, and are as few as the transfer
   size allows.
   */
  lemma ChunkPartition(i: nat, src: Bytes, xfer: nat, off: nat)
    requires xfer > 0 && off <= |src|
    ensures var ks := FileChunks(i, src, xfer, off);
            && Tile(ks, off, |src|)
            && (forall k <- ks :: CarriesSource(k, src) && 0 < |k.data| <= xfer)
            && (forall j :: 0 <= j < |ks| - 1 ==> |ks[j].data| == xfer)
            && IsCeiling(|ks|, |src| - off, xfer)
  {
    ChunksTile(i, src, xfer, off);
    ChunksAreFull(i, src, xfer, off);
    ChunkCount(i, src, xfer, off);
  }

  lemma {:induction false} ChunksTile(i: nat, src: Bytes, xfer: nat, off: nat)
    requires xfer > 0 && off <= |src|
    ensures Tile(FileChunks(i, src, xfer, off), off, |src|)
    ensures forall k <- FileChunks(i, src, xfer, off) :: CarriesSource(k, src) && 0 < |k.data| <= xfer
    decreases |src| - off
  {
    if off < |src| {
      FileChunksCons(i, src, xfer, off);
      ChunksTile(i, src, xfer, off + Min(xfer, |src| - off));
    }
  }

  lemma {:induction false} ChunksAreFull(i: nat, src: Bytes, xfer: nat, off: nat)
    requires xfer > 0 && off <= |src|
    ensures var ks := FileChunks(i, src, xfer, off); forall j :: 0 <= j < |ks| - 1 ==> |ks[j].data| == xfer
    decreases |src| - off
  {
    if off < |src| {
      FileChunksCons(i, src, xfer, off);
      ChunksAreFull(i, src, xfer, off + Min(xfer, |src| - off));
    }
  }

  lemma {:induction false} ChunkCount(i: nat, src: Bytes, xfer: nat, off: nat)
    requires xfer > 0 && off <= |src|
    ensures IsCeiling(|FileChunks(i, src, xfer, off)|, |src| - off, xfer)
    decreases |src| - off
  {
    if off < |src| {
      var n := Min(xfer, |src| - off);
      ChunkCount(i, src, xfer, off + n);
      CeilingStep(|FileChunks(i, src, xfer, off + n)|, |src| - off, xfer);
    }
  }

  /** `n` is `a` divided by `d`, rounded up. */
  predicate IsCeiling(n: nat, a: nat, d: nat) {
    a <= n * d && (n > 0 ==> (n - 1) * d < a)
  }

  lemma CeilingStep(n: nat, a: nat, d: nat)
    requires d > 0 && a > 0 && IsCeiling(n, a - Min(d, a), d)
    ensures IsCeiling(n + 1, a, d)
  {
    assert (n + 1) * d == n * d + d;
    if n > 0 { assert (n - 1) * d + d == n * d; }
  }

  /** Requests per file: the size over the transfer size rounded up, at least one when pipelined. */
  lemma RequestCount(p: Policy, i: nat, src: Bytes, xfer: nat)
    requires xfer > 0
    ensures var n := |ChunksOf(p, i, src, xfer)|;
            if p.Pipelined? && src == [] then n == 1 else IsCeiling(n, |src|, xfer)
  {
    ChunkPartition(i, src, xfer, 0);
  }

  lemma DeliverCons(c: seq<Bytes>, k: Chunk, rest: seq<Chunk>)
    requires k.file < |c| && forall l <- rest :: l.file < |c|
    ensures Deliver(c, [k] + rest) == Deliver(Store(c, k, |k.data|), rest)
  {
    assert ([k] + rest)[1..] == rest;
  }

  /** One chunk of a file, appended to what is there of it. */
  lemma StoreAppends(c: seq<Bytes>, i: nat, src: Bytes, off: nat, n: nat)
    requires off + n <= |src| && i < |c| && c[i] == src[..off]
    ensures var k := Chunk(i, off, src[off..off + n]);
            Store(c, k, n) == c[i := src[..off + n]] && Store(c, k, n)[i := src] == c[i := src]
  {
    PWriteAppends(c[i], src[off..off + n]);
    assert src[off..off + n][..n] == src[off..off + n];
    assert src[..off] + src[off..off + n] == src[..off + n];
  }

  /** One step of the delivery of a file. */
  lemma DeliverChunk(c: seq<Bytes>, i: nat, src: Bytes, off: nat, n: nat, rest: seq<Chunk>)
    requires off + n <= |src| && i < |c| && c[i] == src[..off] && forall k <- rest :: k.file == i
    ensures Deliver(c, [Chunk(i, off, src[off..off + n])] + rest) == Deliver(c[i := src[..off + n]], rest)
  {
    StoreAppends(c, i, src, off, n);
    DeliverCons(c, Chunk(i, off, src[off..off + n]), rest);
  }

  lemma {:induction false} DeliverFile(c: seq<Bytes>, i: nat, src: Bytes, xfer: nat, off: nat)
    requires xfer > 0 && off <= |src| && i < |c| && c[i] == src[..off]
    ensures forall k <- FileChunks(i, src, xfer, off) :: k.file < |c|
    ensures Deliver(c, FileChunks(i, src, xfer, off)) == c[i := src]
    decreases |src| - off
  {
    FileChunksInFile(i, src, xfer, off);
    if off < |src| {
      var n := Min(xfer, |src| - off);
      FileChunksInFile(i, src, xfer, off + n);
      FileChunksCons(i, src, xfer, off);
      DeliverChunk(c, i, src, off, n, FileChunks(i, src, xfer, off + n));
      DeliverFile(c[i := src[..off + n]], i, src, xfer, off + n);
      assert c[i := src[..off + n]][i := src] == c[i := src];
    } else {
      assert src[..off] == src && c[i := src] == c;
    }
  }

  lemma DeliverOne(p: Policy, c: seq<Bytes>, i: nat, src: Bytes, xfer: nat)
    requires xfer > 0 && i < |c| && c[i] == []
    ensures forall k <- ChunksOf(p, i, src, xfer) :: k.file < |c|
    ensures Deliver(c, ChunksOf(p, i, src, xfer)) == c[i := src]
  {
    if p.Pipelined? && src == [] {
      var k := Chunk(i, 0, []);
      assert Deliver(c, [k]) == Deliver(Store(c, k, 0), []);
      assert Store(c, k, 0) == c[i := src];
    } else {
      DeliverFile(c, i, src, xfer, 0);
    }
  }

  lemma {:induction false} PlanInRange(p: Policy, srcs: seq<Bytes>, xfer: nat, i: nat)
    requires xfer > 0 && i <= |srcs|
    ensures forall k <- Plan(p, srcs, xfer, i) :: k.file < |srcs| && k.offset + |k.data| <= |srcs[k.file]|
    decreases |srcs| - i
  {
    if i < |srcs| {
      FileChunksInFile(i, srcs[i], xfer, 0);
      PlanInRange(p, srcs, xfer, i + 1);
    }
  }

  lemma NextFileCopied(c: seq<Bytes>, srcs: seq<Bytes>, i: nat)
    requires i < |srcs| == |c| && c[..i] == srcs[..i]
    ensures c[i := srcs[i]][..i + 1] == srcs[..i + 1]
  {
    forall j | 0 <= j < i ensures c[j] == srcs[j] { assert c[..i][j] == srcs[..i][j]; }
  }

  lemma {:induction false} DeliverFrom(p: Policy, c: seq<Bytes>, srcs: seq<Bytes>, xfer: nat, i: nat)
    requires xfer > 0 && i <= |srcs| == |c|
    requires c[..i] == srcs[..i] && forall j :: i <= j < |c| ==> c[j] == []
    ensures forall k <- Plan(p, srcs, xfer, i) :: k.file < |c|
    ensures Deliver(c, Plan(p, srcs, xfer, i)) == srcs
    decreases |srcs| - i
  {
    PlanInRange(p, srcs, xfer, i);
    if i < |srcs| {
      var first, rest := ChunksOf(p, i, srcs[i], xfer), Plan(p, srcs, xfer, i + 1);
      NextFileCopied(c, srcs, i);
      DeliverFrom(p, c[i := srcs[i]], srcs, xfer, i + 1);
      DeliverOne(p, c, i, srcs[i], xfer);
      DeliverAppend(c, first, rest);
    } else {
      assert c == c[..i] && srcs == srcs[..i];
    }
  }

  /** Both chunked senders copy every file, whatever the sizes and the transfer size. */
  lemma PlanCopies(p: Policy, srcs: seq<Bytes>, xfer: nat)
    requires xfer > 0
    ensures forall k <- Plan(p, srcs, xfer, 0) :: k.file < |srcs|
    ensures Deliver(Blank(|srcs|), Plan(p, srcs, xfer, 0)) == srcs
  {
    DeliverFrom(p, Blank(|srcs|), srcs, xfer, 0);
  }

  /** Every chunk an honest sender emits passes the server's test, without wrap, at an offset pwrite takes. */
  lemma PlanAccepted(p: Policy, srcs: seq<Bytes>, xfer: nat)
    requires xfer > 0 && forall f <- srcs :: |f| < OFFSET_LIMIT
    ensures forall k <- Plan(p, srcs, xfer, 0) :: Accepts(Sizes(srcs), k) && NoWrap(k) && Sendable(k) && Storable(k)
  {
    PlanInRange(p, srcs, xfer, 0);
    forall k <- Plan(p, srcs, xfer, 0) ensures Accepts(Sizes(srcs), k) && NoWrap(k) && Sendable(k) && Storable(k) {
      assert srcs[k.file] in srcs;
      assert (k.offset + |k.data|) % SIZE_LIMIT == k.offset + |k.data|;
    }
  }

  // ------------------------------------------------------------ gather / scatter

  function NonEmpty(segs: seq<Bytes>): seq<Bytes> {
    if segs == [] then [] else (if segs[0] == [] then [] else [segs[0]]) + NonEmpty(segs[1..])
  }

  function NonZero(sizes: seq<nat>): seq<nat> {
    if sizes == [] then [] else (if sizes[0] == 0 then [] else [sizes[0]]) + NonZero(sizes[1..])
  }

  function Flatten(segs: seq<Bytes>): Bytes {
    if segs == [] then [] else segs[0] + Flatten(segs[1..])
  }

  function Sum(sizes: seq<nat>): nat {
    if sizes == [] then 0 else sizes[0] + Sum(sizes[1..])
  }

  lemma {:induction false} SumAppend(s: seq<nat>, v: nat)
    ensures Sum(s + [v]) == Sum(s) + v
  {
    if s != [] {
      assert (s + [v])[1..] == s[1..] + [v];
      SumAppend(s[1..], v);
    }
  }

  /** A pulled byte stream laid over consecutive local segments. */
  function Scatter(sizes: seq<nat>, data: Bytes): (r: seq<Bytes>)
    requires |data| == Sum(sizes)
    ensures |r| == |sizes| && forall i :: 0 <= i < |r| ==> |r[i]| == sizes[i]
  {
    if sizes == [] then [] else [data[..sizes[0]]] + Scatter(sizes[1..], data[sizes[0]..])
  }

  /** Contents of all files when the segments back the non-empty ones, in order. */
  function Spread(sizes: seq<nat>, segs: seq<Bytes>): (r: seq<Bytes>)
    requires |segs| == |NonZero(sizes)|
    ensures |r| == |sizes|
  {
    if sizes == [] then []
    else if sizes[0] == 0 then [[]] + Spread(sizes[1..], segs)
    else [segs[0]] + Spread(sizes[1..], segs[1..])
  }

  lemma {:induction false} GatheredLength(srcs: seq<Bytes>)
    ensures |Flatten(NonEmpty(srcs))| == Sum(NonZero(Sizes(srcs))) == Sum(Sizes(srcs))
    ensures NonZero(Sizes(srcs)) == Sizes(NonEmpty(srcs))
  {
    if srcs != [] {
      assert Sizes(srcs)[1..] == Sizes(srcs[1..]);
      GatheredLength(srcs[1..]);
      var a := if srcs[0] == [] then [] else [srcs[0]];
      assert NonEmpty(srcs) == a + NonEmpty(srcs[1..]);
      if srcs[0] != [] {
        assert NonEmpty(srcs)[1..] == NonEmpty(srcs[1..]);
        assert NonZero(Sizes(srcs))[1..] == NonZero(Sizes(srcs[1..]));
      } else {
        assert NonEmpty(srcs) == NonEmpty(srcs[1..]);
        assert NonZero(Sizes(srcs)) == NonZero(Sizes(srcs[1..]));
      }
    }
  }

  lemma {:induction false} NonZeroSum(sizes: seq<nat>)
    ensures Sum(NonZero(sizes)) == Sum(sizes)
  {
    if sizes != [] {
      NonZeroSum(sizes[1..]);
      if sizes[0] != 0 {
        assert NonZero(sizes)[1..] == NonZero(sizes[1..]);
      } else {
        assert NonZero(sizes) == NonZero(sizes[1..]);
      }
    }
  }

  /** Skipping the empty files and giving the others consecutive pieces is the same as giving every file its piece. */
  lemma {:induction false} SpreadScatter(sizes: seq<nat>, data: Bytes)
    requires |data| == Sum(sizes)
    ensures Sum(NonZero(sizes)) == Sum(sizes)
    ensures Spread(sizes, Scatter(NonZero(sizes), data)) == Scatter(sizes, data)
  {
    NonZeroSum(sizes);
    if sizes != [] {
      if sizes[0] == 0 {
        assert NonZero(sizes) == NonZero(sizes[1..]);
        assert data[..0] == [] && data[0..] == data;
        SpreadScatter(sizes[1..], data);
      } else {
        assert NonZero(sizes)[1..] == NonZero(sizes[1..]);
        SpreadScatter(sizes[1..], data[sizes[0]..]);
        assert Scatter(NonZero(sizes), data)[1..] == Scatter(NonZero(sizes[1..]), data[sizes[0]..]);
      }
    }
  }

  /** Piece number `i` starts where the pieces before it end. */
  lemma {:induction false} ScatterAt(sizes: seq<nat>, data: Bytes, i: nat)
    requires |data| == Sum(sizes) && i < |sizes|
    ensures Sum(sizes[..i]) + sizes[i] == Sum(sizes[..i + 1]) <= |data|
    ensures Scatter(sizes, data)[i] == data[Sum(sizes[..i])..Sum(sizes[..i + 1])]
  {
    assert sizes[..i + 1][1..] == sizes[1..][..i];
    if i == 0 {
      assert sizes[..0] == [] && sizes[..1] == [sizes[0]];
    } else {
      assert sizes[..i][1..] == sizes[1..][..i - 1];
      ScatterAt(sizes[1..], data[sizes[0]..], i - 1);
    }
  }

  /** What migrate_mmap leaves in files of the declared sizes once `segs` has been pulled whole. */
  function Pulled(sizes: seq<nat>, segs: seq<Bytes>): (r: seq<Bytes>)
    requires |Flatten(segs)| == Sum(sizes)
    ensures |r| == |sizes|
  {
    NonZeroSum(sizes);
    Spread(sizes, Scatter(NonZero(sizes), Flatten(segs)))
  }

  /** The same when the segments are the non-empty files of `srcs`, declared with their true sizes. */
  function BulkContents(srcs: seq<Bytes>): (r: seq<Bytes>)
    ensures |r| == |srcs|
  {
    GatheredLength(srcs);
    Pulled(Sizes(srcs), NonEmpty(srcs))
  }

  /** Splitting the gathered stream by the declared sizes gives back every file. */
  lemma {:induction false} BulkCopies(srcs: seq<Bytes>)
    ensures BulkContents(srcs) == srcs
  {
    GatheredLength(srcs);
    if srcs != [] {
      var rest := srcs[1..];
      GatheredLength(rest);
      BulkCopies(rest);
      assert Sizes(srcs)[1..] == Sizes(rest);
      if srcs[0] == [] {
        assert NonEmpty(srcs) == NonEmpty(rest);
        assert NonZero(Sizes(srcs)) == NonZero(Sizes(rest));
      } else {
        assert NonEmpty(srcs)[1..] == NonEmpty(rest);
        assert NonZero(Sizes(srcs))[1..] == NonZero(Sizes(rest));
        var data := Flatten(NonEmpty(srcs));
        assert data[..|srcs[0]|] == srcs[0] && data[|srcs[0]|..] == Flatten(NonEmpty(rest));
        assert Scatter(NonZero(Sizes(srcs)), data)[1..] == Scatter(NonZero(Sizes(rest)), Flatten(NonEmpty(rest)));
      }
      assert srcs == [srcs[0]] + rest;
    }
  }

  /** The mode a caller picks does not change what arrives. */
  lemma ModeIndependence(srcs: seq<Bytes>, xfer1: nat, xfer2: nat)
    requires xfer1 > 0 && xfer2 > 0
    ensures forall k <- Plan(Sequential, srcs, xfer1, 0) :: k.file < |srcs|
    ensures forall k <- Plan(Pipelined, srcs, xfer2, 0) :: k.file < |srcs|
    ensures Deliver(Blank(|srcs|), Plan(Sequential, srcs, xfer1, 0))
            == Deliver(Blank(|srcs|), Plan(Pipelined, srcs, xfer2, 0))
            == BulkContents(srcs)
  {
    PlanCopies(Sequential, srcs, xfer1);
    PlanCopies(Pipelined, srcs, xfer2);
    BulkCopies(srcs);
  }
}
