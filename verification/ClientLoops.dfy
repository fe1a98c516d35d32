/**
 The transfer loops of src/remi-client.cpp. They are verified against a server
 that may answer anything: whatever the replies, the exchanges they produce
 are exactly those of the Sender automaton.
 */
module ClientLoops {
  import opened Codes
  import opened Transfer
  import opened Sender

  /** The RPCs of one client, with the replies they got. */
  class Channel {
    var log: seq<Exchange>

    constructor ()
      ensures log == []
    {
      log := [];
    }

    /** A synchronous RPC; nothing is known about the reply. */
    method Call(req: Request) returns (ret: int, status: int)
      modifies this
      ensures log == old(log) + [Exchange(req, ret, status)]
    {
      ret, status := *, *;
      log := log + [Exchange(req, ret, status)];
    }

    /** Completion of an asynchronous write, whose payload is read from its buffer as late as now. */
    method Wait(r: AsyncWrite) returns (ret: int)
      requires r.buffer[..] == r.issued
      modifies this
      ensures log == old(log) + [Exchange(Write(Chunk(r.file, r.offset, r.issued)), ret, 0)]
    {
      ret := *;
      log := log + [Exchange(Write(Chunk(r.file, r.offset, r.buffer[..])), ret, 0)];
    }
  }

  /** A write RPC in flight. `issued` is what the buffer held when the RPC was issued. */
  class AsyncWrite {
    const file: nat
    const offset: nat
    const buffer: array<Byte>
    ghost const issued: Bytes

    constructor (file: nat, offset: nat, buffer: array<Byte>)
      ensures this.file == file && this.offset == offset && this.buffer == buffer && issued == buffer[..]
    {
      this.file, this.offset, this.buffer, this.issued := file, offset, buffer, buffer[..];
    }
  }

  /** A source file opened for reading; its data does not change during a migration. */
  class OpenFile {
    const data: Bytes
    var pos: nat

    constructor (data: Bytes)
      ensures this.data == data && pos == 0
    {
      this.data, pos := data, 0;
    }

    /** read(fd, buf, buf.Length), assumed to be full. */
    method Read(buf: array<Byte>)
      requires pos + buf.Length <= |data|
      modifies this, buf
      ensures pos == old(pos) + buf.Length && buf[..] == data[old(pos)..pos]
    {
      forall i | 0 <= i < buf.Length { buf[i] := data[pos + i]; }
      pos := pos + buf.Length;
    }

    /** pread at `off`, assumed to be full. */
    method Pread(buf: array<Byte>, off: nat)
      requires off + buf.Length <= |data|
      modifies buf
      ensures buf[..] == data[off..off + buf.Length]
    {
      forall i | 0 <= i < buf.Length { buf[i] := data[off + i]; }
    }
  }

  /** vector::resize; contents are not relied on. */
  method Resize(buf: array<Byte>, n: nat) returns (r: array<Byte>)
    ensures r.Length == n && (r == buf || fresh(r))
  {
    r := buf;
    if buf.Length != n { r := new Byte[n](_ => 0); }
  }

  function DataOf(fds: seq<OpenFile>): (r: seq<Bytes>)
    ensures |r| == |fds| && forall i :: 0 <= i < |r| ==> r[i] == fds[i].data
  {
    seq(|fds|, i requires 0 <= i < |fds| => fds[i].data)
  }

  /** The automaton has come to where `k` transfer requests are answered, the last one with `ret`. */
  predicate At(j: Job, log: seq<Exchange>, k: nat, ret: int) {
    Replay(j, Idle, log) == Some(Settle(j, k, ret))
  }

  lemma ReplayOne(j: Job, log: seq<Exchange>, x: Exchange)
    requires Replay(j, Idle, log).Some? && Wants(j, Replay(j, Idle, log).value) == Some(x.req)
    ensures Replay(j, Idle, log + [x]) == Some(OnReply(j, Replay(j, Idle, log).value, x.ret, x.status))
  {
    ReplayAppend(j, Idle, log, [x]);
  }

  /** The next chunk of the plan, sent and answered. */
  lemma SentOne(j: Job, log: seq<Exchange>, k: nat, ret: int, x: Exchange)
    requires j.work.Chunked? && k < |j.work.plan| && At(j, log, k, ret)
    requires j.work.policy.Sequential? || ret == SUCCESS
    requires x.req == Write(j.work.plan[k])
    ensures At(j, log + [x], k + 1, x.ret)
  {
    ReplayOne(j, log, x);
  }

  lemma PlanUnfolds(p: Policy, srcs: seq<Bytes>, xfer: nat, i: nat)
    requires xfer > 0 && i < |srcs|
    ensures Plan(p, srcs, xfer, i) == ChunksOf(p, i, srcs[i], xfer) + Plan(p, srcs, xfer, i + 1)
  {
  }

  /** Where the plan stands inside file `i`: `off` bytes of it are sent. */
  predicate Within(plan: seq<Chunk>, k: nat, i: nat, src: Bytes, xfer: nat, off: nat, rest: seq<Chunk>)
    requires xfer > 0 && off <= |src|
  {
    k <= |plan| && plan[k..] == FileChunks(i, src, xfer, off) + rest
  }

  lemma WithinNext(plan: seq<Chunk>, k: nat, i: nat, src: Bytes, xfer: nat, off: nat, rest: seq<Chunk>)
    requires xfer > 0 && off < |src| && Within(plan, k, i, src, xfer, off, rest)
    ensures var n := Min(xfer, |src| - off);
            && k < |plan| && plan[k] == Chunk(i, off, src[off..off + n])
            && Within(plan, k + 1, i, src, xfer, off + n, rest)
  {
    var tail := plan[k..];
    assert plan[k] == tail[0] && plan[k + 1..] == tail[1..];
  }

  /** One file in the sequential loop: while(remaining_size != 0). */
  method SendFile(ch: Channel, f: OpenFile, i: nat, size: nat, xfer: nat, ret0: int,
                  ghost j: Job, ghost k0: nat, ghost rest: seq<Chunk>)
    returns (ret: int, ghost k: nat)
    requires xfer > 0 && size == |f.data| && f.pos == 0
    requires j.work.Chunked? && j.work.policy.Sequential?
    requires Within(j.work.plan, k0, i, f.data, xfer, 0, rest) && At(j, ch.log, k0, ret0)
    modifies ch, f
    ensures k <= |j.work.plan| && j.work.plan[k..] == rest && At(j, ch.log, k, ret)
    ensures old(ch.log) <= ch.log
  {
    ret, k := ret0, k0;
    var buffer := new Byte[xfer](_ => 0);
    var remaining: nat, offset: nat := size, 0;
    while remaining != 0
      invariant remaining + offset == size && f.pos == offset && fresh(buffer)
      invariant Within(j.work.plan, k, i, f.data, xfer, offset, rest) && At(j, ch.log, k, ret)
      invariant old(ch.log) <= ch.log
      decreases remaining
    {
      var chunk := if remaining < xfer then remaining else xfer;
      buffer := Resize(buffer, chunk);
      f.Read(buffer);
      WithinNext(j.work.plan, k, i, f.data, xfer, offset, rest);
      ghost var log, before := ch.log, ret;
      var status;
      ret, status := ch.Call(Write(Chunk(i, offset, buffer[..])));
      SentOne(j, log, k, before, Exchange(Write(j.work.plan[k]), ret, status));
      k := k + 1;
      offset := offset + chunk;
      remaining := remaining - chunk;
    }
  }

  /** migrate_using_abtio without an ABT-IO instance: the write requests of all files. */
  method SendSequential(ch: Channel, fds: seq<OpenFile>, sizes: seq<nat>, xfer: nat, ghost j: Job) returns (ret: int)
    requires xfer > 0 && sizes == Sizes(DataOf(fds))
    requires forall a, b :: 0 <= a < b < |fds| ==> fds[a] != fds[b]
    requires forall a :: 0 <= a < |fds| ==> fds[a].pos == 0
    requires j.work == Chunked(Sequential, Plan(Sequential, DataOf(fds), xfer, 0))
    requires Replay(j, Idle, ch.log) == Some(Ready(0, SUCCESS))
    modifies ch, fds
    ensures At(j, ch.log, |j.work.plan|, ret) && old(ch.log) <= ch.log
  {
    ret := SUCCESS;
    ghost var k: nat := 0;
    assert j.work.plan[0..] == j.work.plan;
    var i: nat := 0;
    while i < |fds|
      invariant i <= |fds| && k <= |j.work.plan| && j.work.plan[k..] == Plan(Sequential, DataOf(fds), xfer, i)
      invariant At(j, ch.log, k, ret) && old(ch.log) <= ch.log
      invariant forall a :: i <= a < |fds| ==> fds[a].pos == 0
    {
      PlanUnfolds(Sequential, DataOf(fds), xfer, i);
      ret, k := SendFile(ch, fds[i], i, sizes[i], xfer, ret, j, k, Plan(Sequential, DataOf(fds), xfer, i + 1));
      i := i + 1;
    }
  }

  lemma PipelinedNext(plan: seq<Chunk>, k: nat, i: nat, src: Bytes, xfer: nat, rest: seq<Chunk>)
    requires xfer > 0 && k <= |plan| && plan[k..] == PipelinedChunks(i, src, xfer) + rest
    ensures var n := Min(xfer, |src|);
            && k < |plan| && plan[k] == Chunk(i, 0, src[..n])
            && Within(plan, k + 1, i, src, xfer, n, rest)
  {
    var tail := plan[k..];
    assert plan[k] == tail[0] && plan[k + 1..] == tail[1..];
    if src == [] {
      assert src[..0] == [];
    }
  }

  /** The chunk in `previous` is the next one of the plan, and `current` is a different buffer. */
  ghost predicate Primed(j: Job, k: nat, i: nat, src: Bytes, xfer: nat, previous: array<Byte>, previousOffset: nat,
                         currentOffset: nat, rest: seq<Chunk>)
    requires xfer > 0
    reads previous
  {
    && j.work.Chunked? && k < |j.work.plan| && currentOffset <= |src|
    && j.work.plan[k] == Chunk(i, previousOffset, previous[..])
    && Within(j.work.plan, k + 1, i, src, xfer, currentOffset, rest)
  }

  /**
   The pipeline of one file: chunk n + 1 is read into one buffer while the
   write of chunk n is in flight from the other, then the buffers swap.
   */
  method Pump(ch: Channel, f: OpenFile, i: nat, remaining0: nat, xfer: nat, current0: array<Byte>, previous0: array<Byte>,
              previousOffset0: nat, currentOffset0: nat, ghost j: Job, ghost k0: nat, ghost rest: seq<Chunk>)
    returns (ret: int, current: array<Byte>, previous: array<Byte>, ghost k: nat)
    requires xfer > 0 && currentOffset0 + remaining0 == |f.data| && current0 != previous0
    requires j.work.Chunked? && j.work.policy.Pipelined? && At(j, ch.log, k0, SUCCESS)
    requires Primed(j, k0, i, f.data, xfer, previous0, previousOffset0, currentOffset0, rest)
    modifies ch, current0, previous0
    ensures current != previous
    ensures (current in {current0, previous0} || fresh(current)) && (previous in {current0, previous0} || fresh(previous))
    ensures k <= |j.work.plan| && At(j, ch.log, k, ret) && old(ch.log) <= ch.log
    ensures ret == SUCCESS ==> j.work.plan[k..] == rest
  {
    current, previous, k, ret := current0, previous0, k0, SUCCESS;
    var remaining: nat, previousOffset: nat, currentOffset: nat := remaining0, previousOffset0, currentOffset0;
    var canStop := false;
    while !canStop
      invariant current != previous && currentOffset + remaining == |f.data|
      invariant current in {current0, previous0} || fresh(current)
      invariant previous in {current0, previous0} || fresh(previous)
      invariant k <= |j.work.plan| && At(j, ch.log, k, ret) && old(ch.log) <= ch.log
      invariant !canStop ==> ret == SUCCESS && Primed(j, k, i, f.data, xfer, previous, previousOffset, currentOffset, rest)
      invariant canStop && ret == SUCCESS ==> j.work.plan[k..] == rest
      decreases !canStop, remaining
    {
      var request := new AsyncWrite(i, previousOffset, previous);
      var currentSize: nat := 0;
      if remaining == 0 {
        canStop := true;
      } else {
        currentSize := if remaining < xfer then remaining else xfer;
        current := Resize(current, currentSize);
        f.Pread(current, currentOffset);
      }
      ghost var log := ch.log;
      ret := ch.Wait(request);
      SentOne(j, log, k, SUCCESS, Exchange(Write(j.work.plan[k]), ret, 0));
      k := k + 1;
      if ret != SUCCESS {
        canStop := true;
      }
      if !canStop {
        WithinNext(j.work.plan, k, i, f.data, xfer, currentOffset, rest);
        previousOffset := currentOffset;
        currentOffset := currentOffset + currentSize;
        remaining := remaining - currentSize;
        current, previous := previous, current;
      }
    }
  }

  /** One file in the pipelined loop: read the first chunk, then pump. */
  method SendFilePipelined(ch: Channel, f: OpenFile, i: nat, size: nat, xfer: nat, current0: array<Byte>, previous0: array<Byte>,
                           ghost j: Job, ghost k0: nat, ghost rest: seq<Chunk>)
    returns (ret: int, current: array<Byte>, previous: array<Byte>, ghost k: nat)
    requires xfer > 0 && size == |f.data| && current0 != previous0
    requires j.work.Chunked? && j.work.policy.Pipelined? && k0 <= |j.work.plan|
    requires j.work.plan[k0..] == PipelinedChunks(i, f.data, xfer) + rest && At(j, ch.log, k0, SUCCESS)
    modifies ch, current0, previous0
    ensures current != previous
    ensures (current in {current0, previous0} || fresh(current)) && (previous in {current0, previous0} || fresh(previous))
    ensures k <= |j.work.plan| && At(j, ch.log, k, ret) && old(ch.log) <= ch.log
    ensures ret == SUCCESS ==> j.work.plan[k..] == rest
  {
    current, previous := current0, previous0;
    var currentSize := if size < xfer then size else xfer;
    current := Resize(current, currentSize);
    f.Pread(current, 0);
    current, previous := previous, current;
    PipelinedNext(j.work.plan, k0, i, f.data, xfer, rest);
    assert f.data[0..currentSize] == f.data[..currentSize];
    ret, current, previous, k := Pump(ch, f, i, size - currentSize, xfer, current, previous, 0, currentSize, j, k0, rest);
  }

  /** migrate_using_abtio with an ABT-IO instance. */
  method SendPipelined(ch: Channel, fds: seq<OpenFile>, sizes: seq<nat>, xfer: nat, ghost j: Job) returns (ret: int)
    requires xfer > 0 && sizes == Sizes(DataOf(fds))
    requires j.work == Chunked(Pipelined, Plan(Pipelined, DataOf(fds), xfer, 0))
    requires Replay(j, Idle, ch.log) == Some(Ready(0, SUCCESS))
    modifies ch
    ensures exists k: nat :: At(j, ch.log, k, ret) && k <= |j.work.plan| && (ret == SUCCESS ==> k == |j.work.plan|)
    ensures old(ch.log) <= ch.log
  {
    ret := SUCCESS;
    ghost var k: nat := 0;
    assert j.work.plan[0..] == j.work.plan;
    var current, previous := new Byte[xfer](_ => 0), new Byte[xfer](_ => 0);
    var i: nat := 0;
    while i < |fds|
      invariant i <= |fds| && fresh(current) && fresh(previous) && current != previous
      invariant k <= |j.work.plan| && j.work.plan[k..] == Plan(Pipelined, DataOf(fds), xfer, i)
      invariant ret == SUCCESS && At(j, ch.log, k, ret) && old(ch.log) <= ch.log
    {
      PlanUnfolds(Pipelined, DataOf(fds), xfer, i);
      ret, current, previous, k := SendFilePipelined(ch, fds[i], i, sizes[i], xfer, current, previous, j, k,
                                                     Plan(Pipelined, DataOf(fds), xfer, i + 1));
      if ret != SUCCESS {
        break;
      }
      i := i + 1;
    }
  }
}
