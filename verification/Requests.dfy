/**
 What a client says in one migration and what it makes of the replies, told
 from the log of its requests alone. The automaton of Sender is shown to
 produce such logs and no others.
 */
module Requests {
  import opened Codes
  import opened Transfer
  import opened Sender

  /** The payloads of the write requests. */
  function Payloads(log: seq<Exchange>): seq<Chunk> {
    if log == [] then [] else (if log[0].req.Write? then [log[0].req.chunk] else []) + Payloads(log[1..])
  }

  /** Those of file number `i`. */
  function OfFile(ks: seq<Chunk>, i: nat): seq<Chunk> {
    if ks == [] then [] else (if ks[0].file == i then [ks[0]] else []) + OfFile(ks[1..], i)
  }

  /**
   The result of a call: the last return code, and in `*status` what a refused
   start or migrate_end reported with REMI_ERR_USER, 0 after any other reply to
   migrate_end. After anything else `*status` is not written (None).
   */
  predicate Told(log: seq<Exchange>, ret: int, st: Option<int>) {
    if log == [] then st.None?
    else
      var last := log[|log| - 1];
      && ret == last.ret
      && st == if last.req.End? then Some(if ret == ERR_USER then last.status else 0)
               else if last.req.Start? && ret == ERR_USER then Some(last.status) else None
  }

  /**
   A migration starts with migrate_start, and goes on only if that succeeds. It
   ends with migrate_end if the request before that succeeded, and otherwise
   with a failure.
   */
  predicate Framed(log: seq<Exchange>) {
    log != [] &&
    var n := |log|;
    && (forall k :: 0 <= k < n ==> (log[k].req.Start? <==> k == 0) && (log[k].req.End? ==> k == n - 1))
    && (n > 1 ==> log[0].ret == SUCCESS)
    && (if log[n - 1].req.End? then n > 1 && log[n - 2].ret == SUCCESS else log[n - 1].ret != SUCCESS)
  }

  /**
   Write requests for one file, or the first of them: they follow each other
   from offset 0, each with the bytes of the source, and each as large as the
   transfer size unless it ends the file.
   */
  ghost predicate FileSent(ks: seq<Chunk>, src: Bytes, xfer: nat) {
    && (exists end: nat :: end <= |src| && Tile(ks, 0, end))
    && (forall k <- ks :: CarriesSource(k, src) && |k.data| <= xfer && (|k.data| == xfer || k.offset + |k.data| == |src|))
    && (forall a :: 0 <= a < |ks| - 1 ==> |ks[a].data| == xfer)
  }

  /** They reach the end of the file, and are as few as the transfer size allows. */
  predicate FileDone(p: Policy, ks: seq<Chunk>, src: Bytes, xfer: nat) {
    Tile(ks, 0, |src|) && if p.Pipelined? && src == [] then |ks| == 1 else IsCeiling(|ks|, |src|, xfer)
  }

  /** No write request is left out. */
  predicate Through(p: Policy, log: seq<Exchange>)
    requires log != []
  {
    log[|log| - 1].req.End? || (p.Sequential? && log[0].ret == SUCCESS)
  }

  /**
   The write requests of a migration, file by file. Without an ABT-IO instance
   all of them are sent, whatever the replies; with one the first failure ends
   them, and the files before the one it hits are complete.
   */
  ghost predicate WritesSent(p: Policy, srcs: seq<Bytes>, xfer: nat, log: seq<Exchange>) {
    && Framed(log) && (forall k :: 0 <= k < |log| ==> !log[k].req.Pull?)
    && (p.Pipelined? ==> forall k :: 0 <= k < |log| - 1 ==> log[k].ret == SUCCESS)
    && var ks := Payloads(log);
       && (forall k <- ks :: k.file < |srcs|)
       && (forall a, b :: 0 <= a < b < |ks| ==> ks[a].file <= ks[b].file)
       && forall i: nat :: i < |srcs| ==>
            && FileSent(OfFile(ks, i), srcs[i], xfer)
            && (Through(p, log) || (ks != [] && i < ks[|ks| - 1].file) ==> FileDone(p, OfFile(ks, i), srcs[i], xfer))
  }

  /** The one transfer request of the bulk mode exposes the non-empty files, in order: all bytes there are. */
  predicate PullSent(srcs: seq<Bytes>, log: seq<Exchange>) {
    && Framed(log) && |log| <= 3
    && (|log| > 1 ==>
          && log[1].req.Pull? && log[1].req.segments == NonEmpty(srcs)
          && (forall s <- log[1].req.segments :: s != []) && Flatten(log[1].req.segments) == Flatten(srcs))
  }

  // ---------------------------------------------------------- logs of the automaton

  lemma DoneStops(j: Job, s: Sender, log: seq<Exchange>)
    requires s.Done? && Replay(j, s, log).Some?
    ensures log == []
  {
  }

  /** From the `k`-th write request on. */
  lemma {:induction false} WritesReplay(j: Job, k: nat, ret0: int, log: seq<Exchange>, ret: int, st: Option<int>)
    requires j.work.Chunked? && k <= |j.work.plan| && Replay(j, Ready(k, ret0), log) == Some(Done(ret, st))
    ensures log != []
    ensures var z := log[|log| - 1];
            var n := if z.req.End? then |log| - 1 else |log|;
            && k + n <= |j.work.plan| && (z.req.End? || j.work.policy.Sequential? ==> k + n == |j.work.plan|)
            && Payloads(log) == j.work.plan[k..k + n] && (forall a :: 0 <= a < n ==> log[a].req.Write?)
            && ret == z.ret && st == (if z.req.End? then Some(if ret == ERR_USER then z.status else 0) else None)
            && (if z.req.End? then n > 0 ==> log[n - 1].ret == SUCCESS else ret != SUCCESS)
            && (j.work.policy.Pipelined? ==> forall a :: 0 <= a < |log| - 1 ==> log[a].ret == SUCCESS)
    decreases |log|
  {
    var t := OnReply(j, Ready(k, ret0), log[0].ret, log[0].status);
    assert log == [log[0]] + log[1..];
    if t.Done? {
      DoneStops(j, t, log[1..]);
      assert Payloads(log[1..]) == [];
    } else {
      WritesReplay(j, k + 1, log[0].ret, log[1..], ret, st);
      assert Payloads(log) == [j.work.plan[k]] + Payloads(log[1..]);
    }
  }

  lemma {:induction false} OfFileAppend(a: seq<Chunk>, b: seq<Chunk>, i: nat)
    ensures OfFile(a + b, i) == OfFile(a, i) + OfFile(b, i)
  {
    if a == [] {
      assert a + b == b;
    } else {
      var one := if a[0].file == i then [a[0]] else [];
      assert (a + b)[0] == a[0] && (a + b)[1..] == a[1..] + b;
      OfFileAppend(a[1..], b, i);
      assert one + (OfFile(a[1..], i) + OfFile(b, i)) == (one + OfFile(a[1..], i)) + OfFile(b, i);
    }
  }

  lemma {:induction false} OfFileAll(ks: seq<Chunk>, i: nat)
    ensures (forall k <- ks :: k.file == i) ==> OfFile(ks, i) == ks
    ensures (forall k <- ks :: k.file != i) ==> OfFile(ks, i) == []
  {
    if ks != [] {
      OfFileAll(ks[1..], i);
      assert ks == [ks[0]] + ks[1..];
    }
  }

  lemma ChunksOfOneFile(p: Policy, i: nat, src: Bytes, xfer: nat)
    requires xfer > 0
    ensures forall k <- ChunksOf(p, i, src, xfer) :: k.file == i
  {
    FileChunksInFile(i, src, xfer, 0);
  }

  /** The plan is ordered by file. */
  lemma {:induction false} PlanOrdered(p: Policy, srcs: seq<Bytes>, xfer: nat, i: nat)
    requires xfer > 0 && i <= |srcs|
    ensures var plan := Plan(p, srcs, xfer, i);
            && (forall k <- plan :: i <= k.file < |srcs|)
            && (forall a, b :: 0 <= a < b < |plan| ==> plan[a].file <= plan[b].file)
    decreases |srcs| - i
  {
    if i < |srcs| {
      var first, rest := ChunksOf(p, i, srcs[i], xfer), Plan(p, srcs, xfer, i + 1);
      PlanOrdered(p, srcs, xfer, i + 1);
      ChunksOfOneFile(p, i, srcs[i], xfer);
      OrderedAfter(first, rest, i);
    }
  }

  lemma OrderedAfter(first: seq<Chunk>, rest: seq<Chunk>, i: nat)
    requires (forall k <- first :: k.file == i) && (forall k <- rest :: i <= k.file)
    requires forall a, b :: 0 <= a < b < |rest| ==> rest[a].file <= rest[b].file
    ensures forall a, b :: 0 <= a < b < |first + rest| ==> (first + rest)[a].file <= (first + rest)[b].file
  {
    forall a, b | 0 <= a < b < |first + rest| ensures (first + rest)[a].file <= (first + rest)[b].file {
      if a < |first| { assert first[a] in first; }
      if b < |first| { assert first[b] in first; } else { assert rest[b - |first|] in rest; }
    }
  }

  lemma FileAhead(first: seq<Chunk>, rest: seq<Chunk>, i: nat, f: nat)
    requires forall k <- first :: k.file == i
    ensures OfFile(first + rest, f) == if f == i then first + OfFile(rest, f) else OfFile(rest, f)
  {
    OfFileAll(first, f);
    OfFileAppend(first, rest, f);
    if f != i { assert forall k <- first :: k.file != f; }
  }

  /** It holds exactly the chunks of each file. */
  lemma {:induction false} PlanByFile(p: Policy, srcs: seq<Bytes>, xfer: nat, i: nat, f: nat)
    requires xfer > 0 && i <= |srcs| && f < |srcs|
    ensures OfFile(Plan(p, srcs, xfer, i), f) == if f < i then [] else ChunksOf(p, f, srcs[f], xfer)
    decreases |srcs| - i
  {
    if i < |srcs| {
      var first, rest := ChunksOf(p, i, srcs[i], xfer), Plan(p, srcs, xfer, i + 1);
      PlanByFile(p, srcs, xfer, i + 1, f);
      ChunksOfOneFile(p, i, srcs[i], xfer);
      FileAhead(first, rest, i, f);
      assert first + [] == first;
    }
  }

  lemma {:induction false} TilePrefix(a: seq<Chunk>, b: seq<Chunk>, off: nat, end: nat) returns (m: nat)
    requires Tile(a + b, off, end)
    ensures off <= m <= end && Tile(a, off, m)
    decreases |a + b|
  {
    m := off;
    if a != [] {
      assert (a + b)[1..] == a[1..] + b;
      m := TilePrefix(a[1..], b, off + |a[0].data|, end);
    } else if b != [] {
      assert a + b == b && b[1..] == [] + b[1..];
      var _ := TilePrefix([], b[1..], off + |b[0].data|, end);
    }
  }

  lemma {:induction false} FullUnlessLast(i: nat, src: Bytes, xfer: nat, off: nat)
    requires xfer > 0 && off <= |src|
    ensures forall k <- FileChunks(i, src, xfer, off) :: |k.data| == xfer || k.offset + |k.data| == |src|
    decreases |src| - off
  {
    if off < |src| {
      FileChunksCons(i, src, xfer, off);
      FullUnlessLast(i, src, xfer, off + Min(xfer, |src| - off));
    }
  }

  /** A first part of the chunks of a file, or all of them. */
  lemma PartSent(p: Policy, i: nat, src: Bytes, xfer: nat, ks: seq<Chunk>, rest: seq<Chunk>)
    requires xfer > 0 && ks + rest == ChunksOf(p, i, src, xfer)
    ensures FileSent(ks, src, xfer) && (rest == [] ==> FileDone(p, ks, src, xfer))
  {
    var all := ChunksOf(p, i, src, xfer);
    assert forall k <- ks :: k in all;
    assert forall a :: 0 <= a < |ks| ==> ks[a] == all[a];
    ChunkPartition(i, src, xfer, 0);
    FullUnlessLast(i, src, xfer, 0);
    RequestCount(p, i, src, xfer);
    assert Tile(all, 0, |src|) by {
      if p.Pipelined? && src == [] { assert Tile([Chunk(i, 0, [])], 0, 0); }
    }
    var m := TilePrefix(ks, rest, 0, |src|);
    if rest == [] { assert ks == all; }
  }

  /** The writes of one file, when those of the log are the first of the plan. */
  lemma WritesOfPlan(p: Policy, srcs: seq<Bytes>, xfer: nat, ks: seq<Chunk>, i: nat)
    requires xfer > 0 && ks <= Plan(p, srcs, xfer, 0) && i < |srcs|
    ensures FileSent(OfFile(ks, i), srcs[i], xfer)
    ensures |ks| == |Plan(p, srcs, xfer, 0)| || (ks != [] && i < ks[|ks| - 1].file) ==> FileDone(p, OfFile(ks, i), srcs[i], xfer)
  {
    var plan, n := Plan(p, srcs, xfer, 0), |ks|;
    assert plan == ks + plan[n..];
    PlanByFile(p, srcs, xfer, 0, i);
    OfFileAppend(ks, plan[n..], i);
    if ks != [] && i < ks[n - 1].file {
      PlanOrdered(p, srcs, xfer, 0);
      OfFileAll(plan[n..], i);
    }
    PartSent(p, i, srcs[i], xfer, OfFile(ks, i), OfFile(plan[n..], i));
  }

  lemma FilesSent(p: Policy, srcs: seq<Bytes>, xfer: nat, ks: seq<Chunk>, whole: bool)
    requires xfer > 0 && ks <= Plan(p, srcs, xfer, 0) && (whole ==> |ks| == |Plan(p, srcs, xfer, 0)|)
    ensures forall i: nat :: i < |srcs| ==>
              && FileSent(OfFile(ks, i), srcs[i], xfer)
              && (whole || (ks != [] && i < ks[|ks| - 1].file) ==> FileDone(p, OfFile(ks, i), srcs[i], xfer))
  {
    forall i: nat | i < |srcs|
      ensures FileSent(OfFile(ks, i), srcs[i], xfer)
      ensures whole || (ks != [] && i < ks[|ks| - 1].file) ==> FileDone(p, OfFile(ks, i), srcs[i], xfer)
    {
      WritesOfPlan(p, srcs, xfer, ks, i);
    }
  }

  lemma FirstOrdered(p: Policy, srcs: seq<Bytes>, xfer: nat, ks: seq<Chunk>)
    requires xfer > 0 && ks <= Plan(p, srcs, xfer, 0)
    ensures (forall k <- ks :: k.file < |srcs|) && (forall a, b :: 0 <= a < b < |ks| ==> ks[a].file <= ks[b].file)
  {
    PlanOrdered(p, srcs, xfer, 0);
  }

  /** The writes of a whole log are the first of the plan. */
  lemma LogOfPlan(j: Job, log: seq<Exchange>, ret: int, st: Option<int>)
    requires j.work.Chunked? && Replay(j, Idle, log) == Some(Done(ret, st))
    ensures Told(log, ret, st) && Framed(log)
    ensures forall k :: 0 <= k < |log| ==> !log[k].req.Pull?
    ensures j.work.policy.Pipelined? ==> forall k :: 0 <= k < |log| - 1 ==> log[k].ret == SUCCESS
    ensures var n := |Payloads(log)|;
            && n <= |j.work.plan| && Payloads(log) == j.work.plan[..n]
            && (Through(j.work.policy, log) ==> n == |j.work.plan|)
  {
    var t := OnReply(j, Idle, log[0].ret, log[0].status);
    assert log == [log[0]] + log[1..];
    if t.Done? {
      DoneStops(j, t, log[1..]);
    } else {
      WritesReplay(j, 0, SUCCESS, log[1..], ret, st);
    }
  }

  /** What the automaton does over a whole log, for a chunked job. */
  lemma ChunkedLog(j: Job, p: Policy, srcs: seq<Bytes>, xfer: nat, log: seq<Exchange>, ret: int, st: Option<int>)
    requires xfer > 0 && j.work == Chunked(p, Plan(p, srcs, xfer, 0)) && Replay(j, Idle, log) == Some(Done(ret, st))
    ensures Told(log, ret, st)
    ensures WritesSent(p, srcs, xfer, log)
  {
    LogOfPlan(j, log, ret, st);
    FirstOrdered(p, srcs, xfer, Payloads(log));
    FilesSent(p, srcs, xfer, Payloads(log), Through(p, log));
  }

  lemma {:induction false} NonEmptyFlattens(srcs: seq<Bytes>)
    ensures Flatten(NonEmpty(srcs)) == Flatten(srcs) && forall s <- NonEmpty(srcs) :: s != []
  {
    if srcs != [] {
      NonEmptyFlattens(srcs[1..]);
      if srcs[0] == [] {
        assert NonEmpty(srcs) == NonEmpty(srcs[1..]);
      } else {
        assert NonEmpty(srcs) == [srcs[0]] + NonEmpty(srcs[1..]);
        assert NonEmpty(srcs)[1..] == NonEmpty(srcs[1..]);
      }
    }
  }

  /** From the bulk request on. */
  lemma PullReplay(j: Job, log: seq<Exchange>, ret: int, st: Option<int>)
    requires j.work.Bulk? && Replay(j, Ready(0, SUCCESS), log) == Some(Done(ret, st))
    ensures 0 < |log| <= 2 && log[0].req == Pull(NonEmpty(j.work.sources)) && (|log| == 2 <==> log[0].ret == SUCCESS)
    ensures |log| == 2 ==> log[1].req.End?
    ensures ret == log[|log| - 1].ret
    ensures st == if |log| == 2 then Some(if ret == ERR_USER then log[1].status else 0) else None
  {
    var t := OnReply(j, Ready(0, SUCCESS), log[0].ret, log[0].status);
    if t.Done? {
      DoneStops(j, t, log[1..]);
    } else {
      var rest := log[1..];
      DoneStops(j, OnReply(j, t, rest[0].ret, rest[0].status), rest[1..]);
    }
  }

  /** The same for a bulk job. */
  lemma BulkLog(j: Job, srcs: seq<Bytes>, log: seq<Exchange>, ret: int, st: Option<int>)
    requires j.work == Bulk(srcs) && Replay(j, Idle, log) == Some(Done(ret, st))
    ensures Told(log, ret, st)
    ensures PullSent(srcs, log)
  {
    NonEmptyFlattens(srcs);
    var t := OnReply(j, Idle, log[0].ret, log[0].status);
    assert log == [log[0]] + log[1..];
    if t.Done? {
      DoneStops(j, t, log[1..]);
    } else {
      PullReplay(j, log[1..], ret, st);
    }
  }
}
