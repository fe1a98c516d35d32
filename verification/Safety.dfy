/** What the protocol guarantees in every reachable state and over every continuation. */
module Safety {
  import opened Codes
  import opened Transfer
  import opened Sender
  import opened Protocol
  import opened Invariant
  import opened Preservation

  /** `s` is reached by `run` from the state in which no client has started. */
  ghost predicate Reached(jobs: seq<Job>, files0: map<string, Bytes>, run: seq<Event>, s: State) {
    && (forall j <- jobs :: WellFormed(j))
    && Legal(jobs, Init(jobs, files0), run)
    && s == Exec(jobs, Init(jobs, files0), run)
  }

  lemma ReachedInv(jobs: seq<Job>, files0: map<string, Bytes>, run: seq<Event>, s: State)
    requires Reached(jobs, files0, run, s)
    ensures Inv(jobs, files0, s)
  {
    InitInv(jobs, files0);
    RunsKeepInv(jobs, files0, Init(jobs, files0), run);
  }

  // ------------------------------------------------- early acknowledgement is safe

  /**
   A client that was told SUCCESS: every chunk of its plan was accepted and
   written in full, and the destination holds exactly the plan's effect,
   although each chunk was acknowledged before it was written.
   */
  lemma SuccessMeansWritten(jobs: seq<Job>, files0: map<string, Bytes>, run: seq<Event>, s: State, c: nat)
    requires Reached(jobs, files0, run, s) && c < |jobs|
    requires s.sessions[c].sender.Done? && s.sessions[c].sender.ret == SUCCESS && jobs[c].work.Chunked?
    ensures var j := jobs[c];
            && s.sessions[c].sender.status == Some(0)
            && !s.sessions[c].failed
            && |j.sizes| == |j.names| && (forall k <- j.work.plan :: Accepts(j.sizes, k))
            && (forall k <- j.work.plan :: Storable(k) && NoWrap(k))
            && Held(s.files, j, |j.names|)
            && Contents(s.files, j, |j.names|) == Deliver(Blank(|j.names|), j.work.plan)
  {
    ReachedInv(jobs, files0, run, s);
    assert SessionInv(jobs, s, c);
    var plan := jobs[c].work.plan;
    assert plan[..|plan|] == plan;
    forall k | k in plan ensures NoWrap(k) { AcceptedFitsExactly(jobs[c].sizes, k); }
  }

  /** A client told SUCCESS: both callbacks let it pass, a missing after-callback counting as one that returns 0. */
  lemma SuccessMeansCallbacksPassed(jobs: seq<Job>, files0: map<string, Bytes>, run: seq<Event>, s: State, c: nat)
    requires Reached(jobs, files0, run, s) && c < |jobs|
    requires s.sessions[c].sender.Done? && s.sessions[c].sender.ret == SUCCESS
    ensures s.sessions[c].before == Some(0) && s.sessions[c].after == Some(0)
  {
    ReachedInv(jobs, files0, run, s);
    assert SessionInv(jobs, s, c);
  }

  /** An honest client told SUCCESS, in any of the three modes: callbacks passed, and every file arrived byte for byte. */
  lemma SuccessMeansDelivered(jobs: seq<Job>, files0: map<string, Bytes>, run: seq<Event>, s: State, c: nat, srcs: seq<Bytes>)
    requires Reached(jobs, files0, run, s) && c < |jobs| && Sends(jobs[c], srcs)
    requires s.sessions[c].sender.Done? && s.sessions[c].sender.ret == SUCCESS
    ensures s.sessions[c].sender.status == s.sessions[c].before == s.sessions[c].after == Some(0)
    ensures forall i :: 0 <= i < |srcs| ==>
                          PathOf(jobs[c], i) in s.files && s.files[PathOf(jobs[c], i)] == srcs[i]
  {
    var j := jobs[c];
    ReachedInv(jobs, files0, run, s);
    assert SessionInv(jobs, s, c);
    SuccessMeansCallbacksPassed(jobs, files0, run, s, c);
    if j.work.Chunked? {
      SuccessMeansWritten(jobs, files0, run, s, c);
      var xfer: nat :| xfer > 0 && j.work.plan == Plan(j.work.policy, srcs, xfer, 0);
      PlanCopies(j.work.policy, srcs, xfer);
    } else {
      BulkCopies(srcs);
    }
    assert Contents(s.files, j, |j.names|) == srcs;
  }

  /** An acknowledged chunk of job `c` is being written. */
  predicate ChunkPending(s: State, c: nat) {
    exists h :: 0 <= h < |s.handlers| && s.handlers[h].job == c && s.handlers[h].pc.Writing?
  }

  lemma PendingIsTail(jobs: seq<Job>, s: State, c: nat)
    requires c < |jobs| == |s.sessions| && SessionInv(jobs, s, c) && jobs[c].work.Chunked?
    requires forall h :: 0 <= h < |s.handlers| ==> HandlerInv(s, h)
    ensures ChunkPending(s, c) <==> PcAt(s, s.sessions[c].tail).Writing?
  {
    if h :| 0 <= h < |s.handlers| && s.handlers[h].job == c && s.handlers[h].pc.Writing? {
      assert HandlerInv(s, h);
    }
  }

  /** At any moment, with no pwrite short so far: exactly the acknowledged chunks, minus the one being written. */
  lemma WrittenPrefix(jobs: seq<Job>, files0: map<string, Bytes>, run: seq<Event>, s: State, c: nat)
    requires Reached(jobs, files0, run, s) && c < |jobs| && jobs[c].work.Chunked?
    requires s.sessions[c].started && !s.sessions[c].failed
    ensures var j, x := jobs[c], s.sessions[c];
            var written := x.acked - if ChunkPending(s, c) then 1 else 0;
            && 0 <= written <= |j.work.plan|
            && (forall k <- j.work.plan[..written] :: k.file < |j.names|)
            && Held(s.files, j, |j.names|)
            && Contents(s.files, j, |j.names|) == Deliver(Blank(|j.names|), j.work.plan[..written])
  {
    ReachedInv(jobs, files0, run, s);
    var j, x := jobs[c], s.sessions[c];
    assert SessionInv(jobs, s, c);
    PendingIsTail(jobs, s, c);
    PrefixInRange(j, x, Written(x, PcAt(s, x.tail)));
  }

  // ------------------------------------------- one step, seen from a given session

  /** Steps of other jobs leave a session, its handlers and its table entry alone. */
  lemma OthersLeaveAlone(jobs: seq<Job>, files0: map<string, Bytes>, s: State, e: Event, c: nat)
    requires Inv(jobs, files0, s) && Enabled(jobs, s, e) && c < |jobs|
    requires match e case Send(d) => d != c case Run(h, _) => s.handlers[h].job != c
    ensures var s' := Next(jobs, s, e);
            && s'.sessions[c] == s.sessions[c]
            && PcAt(s', s.sessions[c].cur) == PcAt(s, s.sessions[c].cur)
            && PcAt(s', s.sessions[c].tail) == PcAt(s, s.sessions[c].tail)
            && (c in s'.table <==> c in s.table)
  {
    assert SessionInv(jobs, s, c);
    if e.Run? { StepTable(jobs[s.handlers[e.handler].job], s, e.handler, e.choice); }
  }

  /** What cannot be undone: a short pwrite, a started operation, and its removal from the table. */
  predicate Later(x: Session, it: bool, x': Session, it': bool) {
    && (x.failed ==> x'.failed)
    && (x.started ==> x'.started)
    && (x.started && !it ==> !it')
    && (x.sender.Done? ==> x'.sender == x.sender && x'.closes == x.closes)
    // refused by the server once: whatever the client still sends is refused too
    && (x.sender.Ready? && x.started && !it ==>
          if x'.sender.Done? then x'.sender.ret != SUCCESS && x'.closes == 0 else x'.sender.Ready?)
  }

  lemma OwnStepLater(jobs: seq<Job>, s: State, h: nat, ch: Choice)
    requires |jobs| == |s.sessions| && Enabled(jobs, s, Run(h, ch)) && HandlerInv(s, h) && SessionInv(jobs, s, s.handlers[h].job)
    ensures var s', c := Next(jobs, s, Run(h, ch)), s.handlers[h].job;
            Later(s.sessions[c], c in s.table, s'.sessions[c], c in s'.table)
  {
    StepLater(jobs[s.handlers[h].job], s, h, ch);
  }

  lemma StepIsLater(jobs: seq<Job>, files0: map<string, Bytes>, s: State, e: Event, c: nat)
    requires Inv(jobs, files0, s) && Enabled(jobs, s, e) && c < |jobs|
    ensures var s' := Next(jobs, s, e); Later(s.sessions[c], c in s.table, s'.sessions[c], c in s'.table)
  {
    assert SessionInv(jobs, s, c);
    if e.Run? && s.handlers[e.handler].job == c {
      assert HandlerInv(s, e.handler);
      OwnStepLater(jobs, s, e.handler, e.choice);
    } else if e != Send(c) {
      OthersLeaveAlone(jobs, files0, s, e, c);
    }
  }

  lemma StepLater(j: Job, s: State, h: nat, ch: Choice)
    requires CanStep(j, s, h, ch)
    ensures var c, f := s.handlers[h].job, StepOf(j, s, h, ch);
            Later(s.sessions[c], c in s.table, f.x, c in f.table)
  {
    if s.sessions[s.handlers[h].job].sender.Ready? { ReadyLater(j, s, h, ch); } else { NotReadyLater(j, s, h, ch); }
  }

  lemma ReadyLater(j: Job, s: State, h: nat, ch: Choice)
    requires CanStep(j, s, h, ch) && s.sessions[s.handlers[h].job].sender.Ready?
    ensures var c, f := s.handlers[h].job, StepOf(j, s, h, ch);
            Later(s.sessions[c], c in s.table, f.x, c in f.table)
  {
  }

  lemma NotReadyLater(j: Job, s: State, h: nat, ch: Choice)
    requires CanStep(j, s, h, ch) && !s.sessions[s.handlers[h].job].sender.Ready?
    ensures var c, f := s.handlers[h].job, StepOf(j, s, h, ch);
            Later(s.sessions[c], c in s.table, f.x, c in f.table)
  {
  }

  lemma {:induction false} RunIsLater(jobs: seq<Job>, files0: map<string, Bytes>, s: State, run: seq<Event>, c: nat)
    requires Inv(jobs, files0, s) && Legal(jobs, s, run) && c < |jobs|
    ensures var s' := Exec(jobs, s, run); Later(s.sessions[c], c in s.table, s'.sessions[c], c in s'.table)
    decreases |run|
  {
    if run != [] {
      var t := Next(jobs, s, run[0]);
      StepIsLater(jobs, files0, s, run[0], c);
      StepKeepsInv(jobs, files0, s, run[0]);
      RunIsLater(jobs, files0, t, run[1..], c);
      assert SessionInv(jobs, t, c);
    }
  }

  /** A pwrite of an acknowledged chunk that stored too little shows, in every continuation, as a non-success. */
  lemma ShortWriteSurfaces(jobs: seq<Job>, files0: map<string, Bytes>, run: seq<Event>, s: State, more: seq<Event>, c: nat)
    requires Reached(jobs, files0, run, s) && c < |jobs| && s.sessions[c].failed
    requires Legal(jobs, s, more)
    ensures var x := Exec(jobs, s, more).sessions[c]; x.sender.Done? ==> x.sender.ret != SUCCESS
  {
    ReachedInv(jobs, files0, run, s);
    RunIsLater(jobs, files0, s, more, c);
    RunsKeepInv(jobs, files0, s, more);
    assert SessionInv(jobs, Exec(jobs, s, more), c);
  }

  /**
   Failure is sticky. A client whose operation left the table during the
   transfer never gets it back, never sends migrate_end and never returns
   SUCCESS, even if it goes on sending.
   */
  lemma RefusalIsSticky(jobs: seq<Job>, files0: map<string, Bytes>, run: seq<Event>, s: State, more: seq<Event>, c: nat)
    requires Reached(jobs, files0, run, s) && c < |jobs| && Legal(jobs, s, more)
    requires s.sessions[c].sender.Ready? && c !in s.table
    ensures var s' := Exec(jobs, s, more);
            var x := s'.sessions[c];
            && c !in s'.table
            && Wants(jobs[c], x.sender) != Some(End)
            && (x.sender.Done? ==> x.sender.ret != SUCCESS && x.closes == 0)
  {
    ReachedInv(jobs, files0, run, s);
    assert SessionInv(jobs, s, c);
    RunIsLater(jobs, files0, s, more, c);
    RunsKeepInv(jobs, files0, s, more);
    assert SessionInv(jobs, Exec(jobs, s, more), c);
  }

  // --------------------------------------------------------- exact outcome

  predicate AllAccepted(j: Job) {
    j.work.Chunked? && forall k <- j.work.plan :: Accepts(j.sizes, k)
  }

  predicate NeverRefused(j: Job, x: Session, cp: Pc, it: bool) {
    AllAccepted(j) ==>
      && (x.sender.Ready? ==> it && cp !in {ErrWantTable, ErrInTable, ErrReply})
      && (x.sender.Done? && x.started ==> x.closes == 1)
  }

  lemma StepNeverRefused(j: Job, s: State, h: nat, ch: Choice)
    requires CanStep(j, s, h, ch)
    requires var c := s.handlers[h].job; NeverRefused(j, s.sessions[c], PcAt(s, s.sessions[c].cur), c in s.table)
    ensures var f, c := StepOf(j, s, h, ch), s.handlers[h].job;
            NeverRefused(j, f.x, if f.x.cur == Some(h) then f.pc else PcAt(s, f.x.cur), c in f.table)
  {
    if s.sessions[s.handlers[h].job].sender.Ready? { ReadyNeverRefused(j, s, h, ch); } else { NotReadyNeverRefused(j, s, h, ch); }
  }

  lemma ReadyNeverRefused(j: Job, s: State, h: nat, ch: Choice)
    requires CanStep(j, s, h, ch) && s.sessions[s.handlers[h].job].sender.Ready?
    requires var c := s.handlers[h].job; NeverRefused(j, s.sessions[c], PcAt(s, s.sessions[c].cur), c in s.table)
    ensures var f, c := StepOf(j, s, h, ch), s.handlers[h].job;
            NeverRefused(j, f.x, if f.x.cur == Some(h) then f.pc else PcAt(s, f.x.cur), c in f.table)
  {
  }

  lemma NotReadyNeverRefused(j: Job, s: State, h: nat, ch: Choice)
    requires CanStep(j, s, h, ch) && !s.sessions[s.handlers[h].job].sender.Ready?
    requires var c := s.handlers[h].job; NeverRefused(j, s.sessions[c], PcAt(s, s.sessions[c].cur), c in s.table)
    ensures var f, c := StepOf(j, s, h, ch), s.handlers[h].job;
            NeverRefused(j, f.x, if f.x.cur == Some(h) then f.pc else PcAt(s, f.x.cur), c in f.table)
  {
  }

  lemma OwnStepNeverRefused(jobs: seq<Job>, s: State, h: nat, ch: Choice)
    requires |jobs| == |s.sessions| && Enabled(jobs, s, Run(h, ch)) && HandlerInv(s, h) && SessionInv(jobs, s, s.handlers[h].job)
    requires var c := s.handlers[h].job; NeverRefused(jobs[c], s.sessions[c], PcAt(s, s.sessions[c].cur), c in s.table)
    ensures var s', c := Next(jobs, s, Run(h, ch)), s.handlers[h].job;
            NeverRefused(jobs[c], s'.sessions[c], PcAt(s', s'.sessions[c].cur), c in s'.table)
  {
    StepNeverRefused(jobs[s.handlers[h].job], s, h, ch);
  }

  lemma AnyStepNeverRefused(jobs: seq<Job>, files0: map<string, Bytes>, s: State, e: Event, c: nat)
    requires Inv(jobs, files0, s) && Enabled(jobs, s, e) && c < |jobs|
    requires NeverRefused(jobs[c], s.sessions[c], PcAt(s, s.sessions[c].cur), c in s.table)
    ensures var s' := Next(jobs, s, e);
            NeverRefused(jobs[c], s'.sessions[c], PcAt(s', s'.sessions[c].cur), c in s'.table)
  {
    assert SessionInv(jobs, s, c);
    if e.Run? && s.handlers[e.handler].job == c {
      assert HandlerInv(s, e.handler);
      OwnStepNeverRefused(jobs, s, e.handler, e.choice);
    } else if e != Send(c) {
      OthersLeaveAlone(jobs, files0, s, e, c);
    }
  }

  lemma {:induction false} RunNeverRefused(jobs: seq<Job>, files0: map<string, Bytes>, s: State, run: seq<Event>, c: nat)
    requires Inv(jobs, files0, s) && Legal(jobs, s, run) && c < |jobs|
    requires NeverRefused(jobs[c], s.sessions[c], PcAt(s, s.sessions[c].cur), c in s.table)
    ensures var s' := Exec(jobs, s, run);
            NeverRefused(jobs[c], s'.sessions[c], PcAt(s', s'.sessions[c].cur), c in s'.table)
    decreases |run|
  {
    if run != [] {
      AnyStepNeverRefused(jobs, files0, s, run[0], c);
      StepKeepsInv(jobs, files0, s, run[0]);
      RunNeverRefused(jobs, files0, Next(jobs, s, run[0]), run[1..], c);
    }
  }

  /**
   The outcome of an honest chunked migration, exactly: if it started, it
   reached migrate_end and returned REMI_ERR_IO when some pwrite fell short,
   and otherwise SUCCESS or REMI_ERR_USER as the after-callback said.
   */
  lemma ExactOutcome(jobs: seq<Job>, files0: map<string, Bytes>, run: seq<Event>, s: State, c: nat, srcs: seq<Bytes>)
    requires Reached(jobs, files0, run, s) && c < |jobs| && Sends(jobs[c], srcs) && jobs[c].work.Chunked?
    requires s.sessions[c].sender.Done?
    ensures var x := s.sessions[c];
            if x.started then
              && x.closes == 1 && x.acked == |jobs[c].work.plan| && x.sender.status.Some?
              && x.sender.ret == (if x.failed then ERR_IO else if x.sender.status == Some(0) then SUCCESS else ERR_USER)
            else x.closes == 0 && x.sender.ret != SUCCESS
  {
    var j := jobs[c];
    var xfer: nat :| xfer > 0 && j.work.plan == Plan(j.work.policy, srcs, xfer, 0);
    PlanAccepted(j.work.policy, srcs, xfer);
    ReachedInv(jobs, files0, run, s);
    InitInv(jobs, files0);
    RunNeverRefused(jobs, files0, Init(jobs, files0), run, c);
    assert SessionInv(jobs, s, c);
  }

  /**
   The descriptors of a started chunked migration are closed, once, if and only
   if every chunk it asked for passes the index and size tests. Otherwise the
   operation is erased with its descriptors open.
   */
  lemma ClosedExactly(jobs: seq<Job>, files0: map<string, Bytes>, run: seq<Event>, s: State, c: nat)
    requires Reached(jobs, files0, run, s) && c < |jobs| && jobs[c].work.Chunked?
    requires s.sessions[c].sender.Done? && s.sessions[c].started
    ensures s.sessions[c].closes == if forall k <- jobs[c].work.plan :: Accepts(jobs[c].sizes, k) then 1 else 0
  {
    ReachedInv(jobs, files0, run, s);
    InitInv(jobs, files0);
    RunNeverRefused(jobs, files0, Init(jobs, files0), run, c);
    assert SessionInv(jobs, s, c);
  }

  /**
   In any mode: the descriptors of a started migration are closed if and only if
   every transfer request was answered SUCCESS; for the bulk mode that is its
   one pull.
   */
  lemma ClosedWhenAnswered(jobs: seq<Job>, files0: map<string, Bytes>, run: seq<Event>, s: State, c: nat)
    requires Reached(jobs, files0, run, s) && c < |jobs|
    requires s.sessions[c].sender.Done? && s.sessions[c].started
    ensures s.sessions[c].acked <= Steps(jobs[c].work)
    ensures s.sessions[c].closes == if s.sessions[c].acked == Steps(jobs[c].work) then 1 else 0
  {
    ReachedInv(jobs, files0, run, s);
    assert SessionInv(jobs, s, c);
  }

  /** The write of an acknowledged chunk whose offset pwrite refuses: no file changes, and the failure is noted. */
  lemma UnstorableStoresNothing(jobs: seq<Job>, s: State, h: nat, ch: Choice)
    requires |jobs| == |s.sessions| && Enabled(jobs, s, Run(h, ch))
    requires s.handlers[h].pc.Writing? && s.handlers[h].req.Write? && !Storable(s.handlers[h].req.chunk)
    ensures var s' := Next(jobs, s, Run(h, ch));
            s'.files == s.files && s'.sessions[s.handlers[h].job].failed
  {
  }

  /**
   A chunk whose sum wraps in the size test: if all chunks of its migration are
   accepted, it is acknowledged like the others, and the migration ends with
   REMI_ERR_IO; in no case does it end with SUCCESS.
   */
  lemma WrappedChunkSurfaces(jobs: seq<Job>, files0: map<string, Bytes>, run: seq<Event>, s: State, c: nat, k: Chunk)
    requires Reached(jobs, files0, run, s) && c < |jobs| && jobs[c].work.Chunked?
    requires k in jobs[c].work.plan && !NoWrap(k) && s.sessions[c].sender.Done?
    ensures s.sessions[c].sender.ret != SUCCESS
    ensures s.sessions[c].started && (forall l <- jobs[c].work.plan :: Accepts(jobs[c].sizes, l)) ==>
              s.sessions[c].acked == |jobs[c].work.plan| && s.sessions[c].sender.ret == ERR_IO
  {
    var plan := jobs[c].work.plan;
    if s.sessions[c].sender.ret == SUCCESS { SuccessMeansWritten(jobs, files0, run, s, c); }
    if s.sessions[c].started && forall l <- plan :: Accepts(jobs[c].sizes, l) {
      ClosedExactly(jobs, files0, run, s, c);
      ReachedInv(jobs, files0, run, s);
      assert SessionInv(jobs, s, c);
      assert plan[..|plan|] == plan;
      AcceptedFitsExactly(jobs[c].sizes, k);
    }
  }

  // ------------------------------------------------------------- handler overlap

  /** On its way to erase the operation, the entry still being there. */
  predicate Erases(pc: Pc) {
    pc in {ErrWantTable, ErrInTable, EndErrWantTable, EndErrInTable, EndWantTable, EndInTable}
  }

  /**
   Handlers of one operation overlap in one way only: one has acknowledged its
   chunk and is still writing, under the operation mutex, and the other has
   not got past that mutex. Whoever erases the operation is alone with it.
   */
  lemma Overlap(jobs: seq<Job>, files0: map<string, Bytes>, run: seq<Event>, s: State, g: nat, h: nat)
    requires Reached(jobs, files0, run, s) && g < |s.handlers| && h < |s.handlers| && g != h
    requires s.handlers[g].job == s.handlers[h].job
    requires !s.handlers[g].pc.Finished? && !s.handlers[h].pc.Finished?
    ensures !Erases(s.handlers[g].pc) && !Erases(s.handlers[h].pc)
    ensures s.handlers[g].pc.Writing? != s.handlers[h].pc.Writing?
    ensures s.handlers[g].pc.Writing? ==>
              && s.handlers[h].pc in {WantTable, InTable, WantOp}
              && s.handlers[g].job < |s.sessions| && s.sessions[s.handlers[g].job].lock == Some(g)
  {
    ReachedInv(jobs, files0, run, s);
    assert HandlerInv(s, g) && HandlerInv(s, h);
    assert SessionInv(jobs, s, s.handlers[g].job);
  }

  /** Inside the section of its operation's mutex, error clean-up included; migrate_mmap has no such section. */
  predicate HoldsOperation(h: Handler) {
    || h.pc in {Locked, Writing, EndErrWantTable, EndErrInTable, EndUnlock}
    || (h.req.Write? && h.pc in {ErrWantTable, ErrInTable, ErrReply})
  }

  /** Mutual exclusion on the table and on each operation; who is in an operation's section is its lock owner. */
  lemma MutualExclusion(jobs: seq<Job>, files0: map<string, Bytes>, run: seq<Event>, s: State, g: nat, h: nat)
    requires Reached(jobs, files0, run, s) && g < |s.handlers| && h < |s.handlers| && g != h
    ensures !(HoldsTable(s.handlers[g].pc) && HoldsTable(s.handlers[h].pc))
    ensures s.handlers[g].job == s.handlers[h].job ==> !(HoldsOperation(s.handlers[g]) && HoldsOperation(s.handlers[h]))
    ensures HoldsOperation(s.handlers[g]) ==>
              s.handlers[g].job < |s.sessions| && s.sessions[s.handlers[g].job].lock == Some(g)
  {
    ReachedInv(jobs, files0, run, s);
    assert HandlerInv(s, g) && HandlerInv(s, h);
    HolderOwnsLock(jobs, s, g);
    HolderOwnsLock(jobs, s, h);
  }

  lemma HolderOwnsLock(jobs: seq<Job>, s: State, g: nat)
    requires |jobs| == |s.sessions| && g < |s.handlers| && HandlerInv(s, g) && SessionInv(jobs, s, s.handlers[g].job)
    ensures HoldsOperation(s.handlers[g]) ==> s.sessions[s.handlers[g].job].lock == Some(g)
  {
  }

  // ------------------------------------------------- descriptors, sizes, isolation

  /** Descriptors are closed at most once, by migrate_end, and no write is under way or still to come then. */
  lemma DescriptorDiscipline(jobs: seq<Job>, files0: map<string, Bytes>, run: seq<Event>, s: State, h: nat)
    requires Reached(jobs, files0, run, s) && h < |s.handlers|
    ensures s.handlers[h].job < |s.sessions|
    ensures var x := s.sessions[s.handlers[h].job];
            && x.closes <= 1
            && (s.handlers[h].pc in {WantOp, Locked, Writing, Pulling} ==> x.closes == 0)
            && (s.handlers[h].pc in {EndErrWantTable, EndErrInTable, EndUnlock, EndWantTable, EndInTable} ==> x.closes == 1)
  {
    ReachedInv(jobs, files0, run, s);
    assert HandlerInv(s, h);
    assert SessionInv(jobs, s, s.handlers[h].job);
  }

  /** Whatever chunks are requested, no file outgrows its declared size. */
  lemma SizeBound(jobs: seq<Job>, files0: map<string, Bytes>, run: seq<Event>, s: State, c: nat, i: nat)
    requires Reached(jobs, files0, run, s) && c < |jobs| && i < s.sessions[c].created
    ensures i < |jobs[c].names| == |jobs[c].sizes| && PathOf(jobs[c], i) in s.files
    ensures |s.files[PathOf(jobs[c], i)]| <= jobs[c].sizes[i]
  {
    ReachedInv(jobs, files0, run, s);
    assert SessionInv(jobs, s, c);
    assert Contents(s.files, jobs[c], s.sessions[c].created)[i] == s.files[PathOf(jobs[c], i)];
  }

  /** Jobs own disjoint sets of files, none of which was there before any of them started. */
  lemma DisjointTargets(jobs: seq<Job>, files0: map<string, Bytes>, run: seq<Event>, s: State)
    requires Reached(jobs, files0, run, s)
    ensures Isolated(jobs, files0, s)
  {
    ReachedInv(jobs, files0, run, s);
  }

  /** A step changes at most files its own job owns before the step. */
  lemma StepsStayAtHome(jobs: seq<Job>, files0: map<string, Bytes>, run: seq<Event>, s: State, h: nat, ch: Choice, p: string)
    requires Reached(jobs, files0, run, s) && Enabled(jobs, s, Run(h, ch)) && p in s.files
    requires !Owns(jobs, s, s.handlers[h].job, p)
    ensures p in Next(jobs, s, Run(h, ch)).files && Next(jobs, s, Run(h, ch)).files[p] == s.files[p]
  {
    ReachedInv(jobs, files0, run, s);
    assert HandlerInv(s, h);
    assert SessionInv(jobs, s, s.handlers[h].job);
    OwnStepIsolated(jobs, s, h, ch, p);
  }

  lemma OwnStepIsolated(jobs: seq<Job>, s: State, h: nat, ch: Choice, p: string)
    requires |jobs| == |s.sessions| && Enabled(jobs, s, Run(h, ch)) && SessionInv(jobs, s, s.handlers[h].job) && HandlerInv(s, h)
    requires p in s.files && !Owns(jobs, s, s.handlers[h].job, p)
    ensures p in Next(jobs, s, Run(h, ch)).files && Next(jobs, s, Run(h, ch)).files[p] == s.files[p]
  {
    StepIsolated(jobs[s.handlers[h].job], s, h, ch, p);
  }
}
