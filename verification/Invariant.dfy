/** What every reachable state of the protocol keeps, and that every step keeps it. */
module Invariant {
  import opened Codes
  import opened Transfer
  import opened Sender
  import opened Protocol

  /** Pc of a session's handler; Finished stands for "no such handler". */
  function PcAt(s: State, h: Option<nat>): Pc {
    if h.Some? && h.value < |s.handlers| then s.handlers[h.value].pc else Finished
  }

  /** Everything about one session except file contents. `cp`, `tp`: pcs of `cur` and `tail`; `it`: in the table. */
  predicate Shape(j: Job, x: Session, cp: Pc, tp: Pc, it: bool) {
    var n := |j.names|;
    var N := Steps(j.work);
    && x.error in {SUCCESS, ERR_IO} && (x.failed <==> x.error != SUCCESS)
    && (x.cur.None? <==> cp.Finished?) && (x.tail.None? <==> tp.Finished?)
    && match x.sender
       case Idle =>
         && tp.Finished? && x.error == SUCCESS && x.closes == 0 && x.acked == 0 && !x.short && !x.started && x.lock.None?
         && cp in {Finished, Checking, StartWantTable, StartInTable, StartReply}
         && x.created == (if cp in {Finished, Checking} then 0 else n)
         && (it <==> cp.StartReply?)
         && x.after.None? && x.before == if cp in {Finished, Checking} then None else Some(0)
       case Ready(next, last) =>
         && x.started && x.created == n && next <= N && x.acked <= next && x.closes == 0 && !x.short
         && x.before == Some(0) && x.after.None?
         && if it then
              && last == SUCCESS && x.acked == next
              && cp in {Finished, WantTable, InTable, WantOp, Locked, Pulling, ErrWantTable, ErrInTable}
              && (next == N ==> cp !in {Pulling, ErrWantTable, ErrInTable})
              && (next < N ==> if j.work.Bulk? then cp !in {WantOp, Locked} else !cp.Pulling?)
              && tp in {Finished, Writing}
              && (tp.Writing? ==> x.acked > 0 && j.work.Chunked? && cp in {Finished, WantTable, InTable, WantOp})
              && x.lock == (if tp.Writing? then x.tail
                            else if cp.Locked? || (j.work.Chunked? && cp in {ErrWantTable, ErrInTable}) then x.cur
                            else None)
            else
              && tp.Finished? && next < N
              && cp in {Finished, WantTable, InTable, ErrReply}
              && (!cp.ErrReply? ==> last != SUCCESS)
              && x.lock == (if cp.ErrReply? && j.work.Chunked? then x.cur else None)
       case Done(ret, status) =>
         && cp.Finished? && x.created <= n && x.closes <= 1 && x.acked <= N
         && tp in {Finished, EndErrWantTable, EndErrInTable, EndUnlock, EndWantTable, EndInTable}
         && (it <==> (x.short || !tp.Finished?))
         && (!tp.Finished? ==> x.closes == 1)
         && (tp in {EndErrWantTable, EndErrInTable} ==> x.error != SUCCESS)
         && (tp in {EndUnlock, EndWantTable, EndInTable} ==> x.error == SUCCESS)
         && x.lock == (if tp in {EndErrWantTable, EndErrInTable, EndUnlock} then x.tail else None)
         && (x.short ==> x.started && j.work.Bulk? && x.closes == 0 && ret == ERR_MIGRATION)
         && (x.closes == 0 ==> ret != SUCCESS && !(x.started && x.acked == N))
         && (x.closes == 1 ==>
               && x.started && x.created == n && x.acked == N && status.Some?
               && if x.error != SUCCESS then ret == x.error && status == Some(0)
                  else x.after == status && ret == if status == Some(0) then SUCCESS else ERR_USER)
         && (x.started ==> x.before == Some(0)) && (x.after.Some? ==> x.closes == 1 && x.error == SUCCESS)
         && (x.before.Some? && x.before != Some(0) ==> ret == ERR_USER && status == x.before)
         && (x.started ==> x.created == n) && (x.acked > 0 ==> x.started)
  }

  predicate Held(files: map<string, Bytes>, j: Job, n: nat) {
    n <= |j.names| && forall i :: 0 <= i < n ==> PathOf(j, i) in files
  }

  function Contents(files: map<string, Bytes>, j: Job, n: nat): (r: seq<Bytes>)
    requires Held(files, j, n)
    ensures |r| == n && forall i :: 0 <= i < n ==> r[i] == files[PathOf(j, i)]
  {
    seq(n, i requires 0 <= i < n => files[PathOf(j, i)])
  }

  predicate AckedAccepted(j: Job, x: Session) {
    j.work.Chunked? ==>
      x.acked <= |j.work.plan| && forall i :: 0 <= i < x.acked ==> Accepts(j.sizes, j.work.plan[i])
  }

  /** Number of chunks whose pwrite has returned. */
  function Written(x: Session, tp: Pc): int {
    x.acked - if tp.Writing? then 1 else 0
  }

  lemma PrefixInRange(j: Job, x: Session, w: nat)
    requires AckedAccepted(j, x) && j.work.Chunked? && w <= x.acked && |j.sizes| == |j.names|
    ensures forall k <- j.work.plan[..w] :: k.file < |j.names|
  {
  }

  /** As long as no pwrite fell short, the files hold exactly the chunks written so far, all at offsets pwrite takes. */
  predicate ContentOk(j: Job, x: Session, tp: Pc, c: seq<Bytes>)
    requires AckedAccepted(j, x) && WellFormed(j)
  {
    |c| == |j.names| &&
    match j.work
    case Chunked(_, plan) =>
      x.error == SUCCESS && Written(x, tp) >= 0 ==>
        && (forall k <- plan[..Written(x, tp)] :: Storable(k))
        && (PrefixInRange(j, x, Written(x, tp)); c == Deliver(Blank(|j.names|), plan[..Written(x, tp)]))
    case Bulk(srcs) => x.acked > 0 ==> c == BulkContents(srcs)
  }

  /** No file has outgrown its declared size. */
  predicate Bounded(j: Job, c: seq<Bytes>)
    requires |c| <= |j.sizes|
  {
    forall i :: 0 <= i < |c| ==> |c[i]| <= j.sizes[i]
  }

  predicate CurOk(j: Job, s: State, c: nat, x: Session) {
    x.cur.Some? ==>
      && x.cur.value < |s.handlers|
      && s.handlers[x.cur.value].job == c
      && Wants(j, x.sender) == Some(s.handlers[x.cur.value].req)
  }

  predicate TailOk(j: Job, s: State, c: nat, x: Session) {
    x.tail.Some? ==>
      && x.tail.value < |s.handlers|
      && s.handlers[x.tail.value].job == c
      && (s.handlers[x.tail.value].pc.Writing? ==>
            j.work.Chunked? && 0 < x.acked <= |j.work.plan|
            && s.handlers[x.tail.value].req == Write(j.work.plan[x.acked - 1]))
  }

  predicate FilesOk(j: Job, files: map<string, Bytes>, x: Session, tp: Pc)
    requires WellFormed(j)
  {
    && Held(files, j, x.created)
    && AckedAccepted(j, x)
    && Bounded(j, Contents(files, j, x.created))
    && (x.created == |j.names| ==> ContentOk(j, x, tp, Contents(files, j, x.created)))
  }

  predicate SessionInv(jobs: seq<Job>, s: State, c: nat)
    requires c < |jobs| == |s.sessions|
  {
    var j, x := jobs[c], s.sessions[c];
    && WellFormed(j)
    && CurOk(j, s, c, x) && TailOk(j, s, c, x)
    && Shape(j, x, PcAt(s, x.cur), PcAt(s, x.tail), c in s.table)
    && FilesOk(j, s.files, x, PcAt(s, x.tail))
  }

  predicate HandlerInv(s: State, h: nat)
    requires h < |s.handlers|
  {
    var g := s.handlers[h];
    && g.job < |s.sessions|
    && (!g.pc.Finished? ==> s.sessions[g.job].cur == Some(h) || s.sessions[g.job].tail == Some(h))
  }

  predicate TableInv(s: State) {
    && (forall h :: 0 <= h < |s.handlers| && HoldsTable(s.handlers[h].pc) ==> s.tableLock == Some(h))
    && (s.tableLock.Some? ==> s.tableLock.value < |s.handlers| && HoldsTable(s.handlers[s.tableLock.value].pc))
    && (forall c <- s.table :: c < |s.sessions|)
  }

  /** `p` is a file the job of session `c` has created. */
  predicate Owns(jobs: seq<Job>, s: State, c: nat, p: string)
    requires c < |jobs| == |s.sessions|
  {
    exists i :: 0 <= i < |jobs[c].names| && i < s.sessions[c].created && PathOf(jobs[c], i) == p
  }

  /** Files that were there first are untouched, and no file belongs to two jobs. */
  ghost predicate Isolated(jobs: seq<Job>, files0: map<string, Bytes>, s: State)
    requires |jobs| == |s.sessions|
  {
    && (forall p <- files0 :: p in s.files && s.files[p] == files0[p])
    && (forall c, p :: 0 <= c < |jobs| && Owns(jobs, s, c, p) ==> p !in files0)
    && (forall c, d, p :: 0 <= c < |jobs| && 0 <= d < |jobs| && Owns(jobs, s, c, p) && Owns(jobs, s, d, p) ==> c == d)
  }

  ghost predicate Inv(jobs: seq<Job>, files0: map<string, Bytes>, s: State) {
    && |jobs| == |s.sessions|
    && (forall c :: 0 <= c < |jobs| ==> SessionInv(jobs, s, c))
    && (forall h :: 0 <= h < |s.handlers| ==> HandlerInv(s, h))
    && TableInv(s)
    && Isolated(jobs, files0, s)
  }

  lemma InitInv(jobs: seq<Job>, files0: map<string, Bytes>)
    requires forall j <- jobs :: WellFormed(j)
    ensures Inv(jobs, files0, Init(jobs, files0))
  {
  }

  // -------------------------------------------------------------------- framing

  /** Handler `h`, if there is one, is the same in both states. */
  predicate SameHandler(s: State, s': State, h: Option<nat>) {
    h.Some? && h.value < |s.handlers| ==> h.value < |s'.handlers| && s'.handlers[h.value] == s.handlers[h.value]
  }

  predicate SameFiles(j: Job, n: nat, f: map<string, Bytes>, f': map<string, Bytes>) {
    n <= |j.names| && forall i :: 0 <= i < n && PathOf(j, i) in f ==> PathOf(j, i) in f' && f'[PathOf(j, i)] == f[PathOf(j, i)]
  }

  lemma SameContents(j: Job, n: nat, f: map<string, Bytes>, f': map<string, Bytes>)
    requires SameFiles(j, n, f, f') && Held(f, j, n)
    ensures Held(f', j, n) && Contents(f', j, n) == Contents(f, j, n)
  {
  }

  /** A session whose record, handlers, table entry and files did not change. */
  lemma SessionFrame(jobs: seq<Job>, s: State, s': State, d: nat)
    requires d < |jobs| == |s.sessions| == |s'.sessions| && SessionInv(jobs, s, d)
    requires s'.sessions[d] == s.sessions[d]
    requires SameHandler(s, s', s.sessions[d].cur) && SameHandler(s, s', s.sessions[d].tail)
    requires d in s'.table <==> d in s.table
    requires SameFiles(jobs[d], s.sessions[d].created, s.files, s'.files)
    ensures SessionInv(jobs, s', d)
  {
    SameContents(jobs[d], s.sessions[d].created, s.files, s'.files);
  }

  // -------------------------------------------------------------- client steps

  lemma SendKeepsSession(jobs: seq<Job>, s: State, c: nat)
    requires |s.sessions| == |jobs| && Enabled(jobs, s, Send(c)) && SessionInv(jobs, s, c)
    ensures SessionInv(jobs, Next(jobs, s, Send(c)), c)
  {
    var s' := Next(jobs, s, Send(c));
    SameContents(jobs[c], s.sessions[c].created, s.files, s'.files);
  }

  lemma SendKeepsSessions(jobs: seq<Job>, s: State, c: nat, d: nat)
    requires |s.sessions| == |jobs| && Enabled(jobs, s, Send(c)) && d < |jobs| && SessionInv(jobs, s, d)
    ensures SessionInv(jobs, Next(jobs, s, Send(c)), d)
  {
    if d == c { SendKeepsSession(jobs, s, c); } else { SessionFrame(jobs, s, Next(jobs, s, Send(c)), d); }
  }

  lemma SendKeepsHandlers(jobs: seq<Job>, s: State, c: nat)
    requires |s.sessions| == |jobs| && Enabled(jobs, s, Send(c)) && forall h :: 0 <= h < |s.handlers| ==> HandlerInv(s, h)
    ensures var s' := Next(jobs, s, Send(c)); forall h :: 0 <= h < |s'.handlers| ==> HandlerInv(s', h)
  {
    var s' := Next(jobs, s, Send(c));
    forall h | 0 <= h < |s'.handlers| ensures HandlerInv(s', h) {
      if h < |s.handlers| { assert HandlerInv(s, h); }
    }
  }

  lemma SendKeepsInv(jobs: seq<Job>, files0: map<string, Bytes>, s: State, c: nat)
    requires Inv(jobs, files0, s) && Enabled(jobs, s, Send(c))
    ensures Inv(jobs, files0, Next(jobs, s, Send(c)))
  {
    forall d | 0 <= d < |jobs| ensures SessionInv(jobs, Next(jobs, s, Send(c)), d) {
      SendKeepsSessions(jobs, s, c, d);
    }
    SendKeepsHandlers(jobs, s, c);
    SendKeepsIsolation(jobs, files0, s, c);
  }

  lemma SendKeepsIsolation(jobs: seq<Job>, files0: map<string, Bytes>, s: State, c: nat)
    requires |s.sessions| == |jobs| && Enabled(jobs, s, Send(c)) && Isolated(jobs, files0, s)
    ensures Isolated(jobs, files0, Next(jobs, s, Send(c)))
  {
    forall d, p | 0 <= d < |jobs| ensures Owns(jobs, Next(jobs, s, Send(c)), d, p) <==> Owns(jobs, s, d, p) {
    }
  }
}
