/** Every step of a handler keeps the invariant. */
module Preservation {
  import opened Codes
  import opened Transfer
  import opened Sender
  import opened Protocol
  import opened Invariant

  /** Handler `h`, live, with all that the invariant says about its session. */
  predicate CanStep(j: Job, s: State, h: nat, ch: Choice) {
    && h < |s.handlers| && s.handlers[h].job < |s.sessions| && WellFormed(j) && Allowed(j, s, h, ch)
    && var c := s.handlers[h].job;
       var x := s.sessions[c];
       && CurOk(j, s, c, x) && TailOk(j, s, c, x)
       && Shape(j, x, PcAt(s, x.cur), PcAt(s, x.tail), c in s.table)
       && (x.cur == Some(h) || x.tail == Some(h))
  }

  /** The state after the step, seen from the session. */
  function After(j: Job, s: State, h: nat, ch: Choice): (s': State)
    requires CanStep(j, s, h, ch)
  {
    Apply(s, h, StepOf(j, s, h, ch))
  }

  predicate ShapeOk(j: Job, s: State, c: nat)
    requires c < |s.sessions|
  {
    var x := s.sessions[c];
    CurOk(j, s, c, x) && TailOk(j, s, c, x) && Shape(j, x, PcAt(s, x.cur), PcAt(s, x.tail), c in s.table)
  }

  lemma ShapeStart(j: Job, s: State, h: nat, ch: Choice)
    requires CanStep(j, s, h, ch) && s.handlers[h].pc in {Checking, StartWantTable, StartInTable, StartReply}
    ensures ShapeOk(j, After(j, s, h, ch), s.handlers[h].job)
  {
  }

  lemma ShapeLookup(j: Job, s: State, h: nat, ch: Choice)
    requires CanStep(j, s, h, ch) && s.handlers[h].pc in {WantTable, InTable, WantOp}
    ensures ShapeOk(j, After(j, s, h, ch), s.handlers[h].job)
  {
  }

  lemma ShapeLocked(j: Job, s: State, h: nat, ch: Choice)
    requires CanStep(j, s, h, ch) && s.handlers[h].pc.Locked?
    ensures ShapeOk(j, After(j, s, h, ch), s.handlers[h].job)
  {
  }

  lemma ShapeWriting(j: Job, s: State, h: nat, ch: Choice)
    requires CanStep(j, s, h, ch) && s.handlers[h].pc.Writing?
    ensures ShapeOk(j, After(j, s, h, ch), s.handlers[h].job)
  {
  }

  lemma ShapePulling(j: Job, s: State, h: nat, ch: Choice)
    requires CanStep(j, s, h, ch) && s.handlers[h].pc.Pulling?
    ensures ShapeOk(j, After(j, s, h, ch), s.handlers[h].job)
  {
  }

  lemma ShapeError(j: Job, s: State, h: nat, ch: Choice)
    requires CanStep(j, s, h, ch) && s.handlers[h].pc in {ErrWantTable, ErrInTable, ErrReply}
    ensures ShapeOk(j, After(j, s, h, ch), s.handlers[h].job)
  {
  }

  lemma ShapeEnd(j: Job, s: State, h: nat, ch: Choice)
    requires CanStep(j, s, h, ch)
    requires s.handlers[h].pc in {EndErrWantTable, EndErrInTable, EndUnlock, EndWantTable, EndInTable}
    ensures ShapeOk(j, After(j, s, h, ch), s.handlers[h].job)
  {
  }

  lemma StepKeepsShape(j: Job, s: State, h: nat, ch: Choice)
    requires CanStep(j, s, h, ch)
    ensures ShapeOk(j, After(j, s, h, ch), s.handlers[h].job)
  {
    match s.handlers[h].pc
    case Checking | StartWantTable | StartInTable | StartReply => ShapeStart(j, s, h, ch);
    case WantTable | InTable | WantOp => ShapeLookup(j, s, h, ch);
    case Locked => ShapeLocked(j, s, h, ch);
    case Writing => ShapeWriting(j, s, h, ch);
    case Pulling => ShapePulling(j, s, h, ch);
    case ErrWantTable | ErrInTable | ErrReply => ShapeError(j, s, h, ch);
    case EndErrWantTable | EndErrInTable | EndUnlock | EndWantTable | EndInTable => ShapeEnd(j, s, h, ch);
  }

  // --------------------------------------------------------------- file contents

  predicate FilesBefore(j: Job, s: State, h: nat)
    requires h < |s.handlers| && s.handlers[h].job < |s.sessions| && WellFormed(j)
  {
    var x := s.sessions[s.handlers[h].job];
    FilesOk(j, s.files, x, PcAt(s, x.tail))
  }

  predicate FilesAfter(j: Job, s: State, h: nat, f: Effect)
    requires WellFormed(j)
  {
    FilesOk(j, f.files, f.x, if f.x.tail == Some(h) then f.pc else PcAt(s, f.x.tail))
  }

  predicate TouchesFiles(pc: Pc) {
    pc in {Checking, Writing, Pulling}
  }

  /** What FilesOk looks at besides the files. */
  predicate SameCounts(x: Session, tp: Pc, x': Session, tp': Pc) {
    x'.created == x.created && x'.acked == x.acked && x'.error == x.error && (tp'.Writing? <==> tp.Writing?)
  }

  lemma FilesStayOk(j: Job, files: map<string, Bytes>, x: Session, tp: Pc, x': Session, tp': Pc)
    requires WellFormed(j) && FilesOk(j, files, x, tp) && SameCounts(x, tp, x', tp')
    ensures FilesOk(j, files, x', tp')
  {
  }

  lemma StepLeavesFiles(j: Job, s: State, h: nat, ch: Choice)
    requires CanStep(j, s, h, ch) && !TouchesFiles(s.handlers[h].pc) && !s.handlers[h].pc.Locked?
    ensures var x, f := s.sessions[s.handlers[h].job], StepOf(j, s, h, ch);
            f.files == s.files && SameCounts(x, PcAt(s, x.tail), f.x, if f.x.tail == Some(h) then f.pc else PcAt(s, f.x.tail))
  {
  }

  lemma FilesUntouched(j: Job, s: State, h: nat, ch: Choice)
    requires CanStep(j, s, h, ch) && !TouchesFiles(s.handlers[h].pc) && !s.handlers[h].pc.Locked?
    requires FilesBefore(j, s, h)
    ensures FilesAfter(j, s, h, StepOf(j, s, h, ch))
  {
    var x, f := s.sessions[s.handlers[h].job], StepOf(j, s, h, ch);
    StepLeavesFiles(j, s, h, ch);
    FilesStayOk(j, s.files, x, PcAt(s, x.tail), f.x, if f.x.tail == Some(h) then f.pc else PcAt(s, f.x.tail));
  }

  /** The acknowledged chunk joins the accepted ones but is not written yet. */
  lemma FilesLocked(j: Job, s: State, h: nat, ch: Choice)
    requires CanStep(j, s, h, ch) && s.handlers[h].pc.Locked?
    requires FilesBefore(j, s, h)
    ensures FilesAfter(j, s, h, StepOf(j, s, h, ch))
  {
  }

  lemma PutContents(files: map<string, Bytes>, j: Job, n: nat, c: seq<Bytes>)
    requires WellFormed(j) && n <= |j.names| && n <= |c|
    ensures Held(Put(files, j, n, c), j, n) && Contents(Put(files, j, n, c), j, n) == c[..n]
  {
    forall i | 0 <= i < n ensures PathOf(j, i) in Put(files, j, n, c) && Put(files, j, n, c)[PathOf(j, i)] == c[i] {
      PutAt(files, j, n, c, i);
    }
  }

  /** The first `k` files of a start that has just created them. */
  lemma BlankOk(j: Job, files: map<string, Bytes>, k: nat, x: Session, tp: Pc)
    requires WellFormed(j) && k <= |j.names| && x.created == k && x.acked == 0 && !tp.Writing?
    ensures FilesOk(j, Put(files, j, k, Blank(|j.names|)), x, tp)
  {
    var n := |j.names|;
    PutContents(files, j, k, Blank(n));
    assert Blank(n)[..n] == Blank(n);
  }

  lemma FilesChecking(j: Job, s: State, h: nat, ch: Choice)
    requires CanStep(j, s, h, ch) && s.handlers[h].pc.Checking?
    requires FilesBefore(j, s, h)
    ensures FilesAfter(j, s, h, StepOf(j, s, h, ch))
  {
    var f, x := StepOf(j, s, h, ch), s.sessions[s.handlers[h].job];
    var tp := if f.x.tail == Some(h) then f.pc else PcAt(s, f.x.tail);
    if ch.Refuse? || Blocked(j, s.files) {
      FilesStayOk(j, s.files, x, PcAt(s, x.tail), f.x, tp);
    } else {
      BlankOk(j, s.files, f.x.created, f.x, tp);
    }
  }

  lemma FullPull(j: Job, segs: seq<Bytes>)
    requires WellFormed(j) && j.work.Bulk? && segs == NonEmpty(j.work.sources)
    ensures |Flatten(segs)| == Sum(j.sizes) && Pulled(j.sizes, segs) == BulkContents(j.work.sources)
    ensures Bounded(j, Pulled(j.sizes, segs))
  {
    GatheredLength(j.work.sources);
    BulkCopies(j.work.sources);
  }

  lemma FilesFullPull(j: Job, s: State, h: nat)
    requires CanStep(j, s, h, Normal) && s.handlers[h].pc.Pulling?
    requires FilesBefore(j, s, h)
    ensures FilesAfter(j, s, h, StepOf(j, s, h, Normal))
  {
    var segs := s.handlers[h].req.segments;
    FullPull(j, segs);
    PutContents(s.files, j, |j.names|, Pulled(j.sizes, segs));
    assert Pulled(j.sizes, segs)[..|j.names|] == Pulled(j.sizes, segs);
  }

  lemma FilesPulling(j: Job, s: State, h: nat, ch: Choice)
    requires CanStep(j, s, h, ch) && s.handlers[h].pc.Pulling?
    requires FilesBefore(j, s, h)
    ensures FilesAfter(j, s, h, StepOf(j, s, h, ch))
  {
    if ch.Normal? {
      FilesFullPull(j, s, h);
    } else {
      PutContents(s.files, j, |j.names|, ch.data);
      assert ch.data[..|j.names|] == ch.data;
    }
  }

  lemma PwriteContents(files: map<string, Bytes>, j: Job, i: nat, b: Bytes)
    requires WellFormed(j) && i < |j.names| && Held(files, j, |j.names|)
    ensures Held(files[PathOf(j, i) := b], j, |j.names|)
    ensures Contents(files[PathOf(j, i) := b], j, |j.names|) == Contents(files, j, |j.names|)[i := b]
  {
    forall k | 0 <= k < |j.names| && k != i ensures PathOf(j, k) != PathOf(j, i) {
      PathsDistinct(j, i, k);
    }
  }

  /** Writing chunk number `w` in full takes the delivered prefix one chunk further. */
  lemma DeliverOneMore(n: nat, plan: seq<Chunk>, w: nat)
    requires w < |plan| && forall k <- plan[..w + 1] :: k.file < n
    ensures forall k <- plan[..w] :: k.file < n
    ensures plan[w].file < n
    ensures Deliver(Blank(n), plan[..w + 1]) == Store(Deliver(Blank(n), plan[..w]), plan[w], |plan[w].data|)
  {
    assert plan[..w + 1] == plan[..w] + [plan[w]];
    DeliverAppend(Blank(n), plan[..w], [plan[w]]);
    var c := Deliver(Blank(n), plan[..w]);
    assert plan[w] in plan[..w + 1];
    assert Deliver(c, [plan[w]]) == Deliver(Store(c, plan[w], |plan[w].data|), []);
  }

  lemma WritingBounded(j: Job, c: seq<Bytes>, k: Chunk, stored: nat)
    requires WellFormed(j) && |c| == |j.sizes| && Bounded(j, c) && j.work.Chunked? && k in j.work.plan
    requires Accepts(j.sizes, k) && stored <= |k.data| && (!Storable(k) ==> stored == 0)
    ensures Bounded(j, Store(c, k, stored))
  {
    StoreKeepsSizes(c, j.sizes, k, stored);
  }

  /** The pwrite of chunk number `w` and what it leaves behind. */
  lemma WrittenOk(j: Job, files: map<string, Bytes>, x: Session, w: nat, result: int, x': Session)
    requires WellFormed(j) && x.created == |j.names| && FilesOk(j, files, x, Writing)
    requires j.work.Chunked? && x.acked == w + 1 <= |j.work.plan|
    requires -1 <= result <= |j.work.plan[w].data| && (!Storable(j.work.plan[w]) ==> result == -1)
    requires x'.created == x.created && x'.acked == x.acked && x'.error == if result == |j.work.plan[w].data| then x.error else ERR_IO
    ensures j.work.plan[w].file < |j.names| && PathOf(j, j.work.plan[w].file) in files
    ensures var k := j.work.plan[w];
            var p := PathOf(j, k.file);
            FilesOk(j, files[p := PWrite(files[p], k.offset, k.data[..Max(result, 0)])], x', Finished)
  {
    var n, k, stored := |j.names|, j.work.plan[w], Max(result, 0);
    assert Accepts(j.sizes, k);
    PwriteContents(files, j, k.file, PWrite(files[PathOf(j, k.file)], k.offset, k.data[..stored]));
    WritingBounded(j, Contents(files, j, n), k, stored);
    ContentWritten(j, x, w, result, x', Contents(files, j, n));
  }

  lemma ContentWritten(j: Job, x: Session, w: nat, result: int, x': Session, c: seq<Bytes>)
    requires WellFormed(j) && j.work.Chunked? && x.acked == w + 1 <= |j.work.plan| && AckedAccepted(j, x) && ContentOk(j, x, Writing, c)
    requires -1 <= result <= |j.work.plan[w].data| && (!Storable(j.work.plan[w]) ==> result == -1)
    requires x'.acked == x.acked && x'.error == if result == |j.work.plan[w].data| then x.error else ERR_IO
    ensures j.work.plan[w].file < |c| && AckedAccepted(j, x')
    ensures ContentOk(j, x', Finished, Store(c, j.work.plan[w], Max(result, 0)))
  {
    var plan := j.work.plan;
    assert Accepts(j.sizes, plan[w]);
    if result == |plan[w].data| && x.error == SUCCESS {
      PrefixInRange(j, x, w + 1);
      DeliverOneMore(|j.names|, plan, w);
      assert plan[..w + 1] == plan[..w] + [plan[w]];
    }
  }

  lemma FilesWriting(j: Job, s: State, h: nat, ch: Choice)
    requires CanStep(j, s, h, ch) && s.handlers[h].pc.Writing?
    requires FilesBefore(j, s, h)
    ensures FilesAfter(j, s, h, StepOf(j, s, h, ch))
  {
    var x := s.sessions[s.handlers[h].job];
    WrittenOk(j, s.files, x, x.acked - 1, ch.result, StepOf(j, s, h, ch).x);
  }

  lemma StepKeepsFiles(j: Job, s: State, h: nat, ch: Choice)
    requires CanStep(j, s, h, ch)
    requires FilesBefore(j, s, h)
    ensures FilesAfter(j, s, h, StepOf(j, s, h, ch))
  {
    match s.handlers[h].pc
    case Checking => FilesChecking(j, s, h, ch);
    case Writing => FilesWriting(j, s, h, ch);
    case Pulling => FilesPulling(j, s, h, ch);
    case Locked => FilesLocked(j, s, h, ch);
    case _ => FilesUntouched(j, s, h, ch);
  }

  // -------------------------------------------------------------------- isolation

  /** A step changes no existing file except those its own job has created. */
  lemma StepIsolated(j: Job, s: State, h: nat, ch: Choice, p: string)
    requires CanStep(j, s, h, ch) && p in s.files
    requires forall i :: 0 <= i < s.sessions[s.handlers[h].job].created && i < |j.names| ==> PathOf(j, i) != p
    ensures p in StepOf(j, s, h, ch).files && StepOf(j, s, h, ch).files[p] == s.files[p]
  {
    var n := |j.names|;
    match s.handlers[h].pc
    case Checking =>
      if !Blocked(j, s.files) {
        forall i | 0 <= i < n ensures PathOf(j, i) != p {
          assert PathOf(j, i) !in s.files;
        }
        PutFrame(s.files, j, if ch.OpenFails? then ch.at else n, Blank(n), p);
      }
    case Pulling =>
      PutFrame(s.files, j, n, if ch.Normal? then Pulled(j.sizes, s.handlers[h].req.segments) else ch.data, p);
    case _ =>
  }

  /** Files a step creates were not there before. */
  lemma CreatedAreNew(j: Job, s: State, h: nat, ch: Choice, i: nat)
    requires CanStep(j, s, h, ch) && i < |j.names|
    requires s.sessions[s.handlers[h].job].created <= i < StepOf(j, s, h, ch).x.created
    ensures PathOf(j, i) !in s.files
  {
    assert !Blocked(j, s.files);
  }

  lemma OthersKeepFile(jobs: seq<Job>, files0: map<string, Bytes>, s: State, h: nat, ch: Choice, d: nat, p: string)
    requires |jobs| == |s.sessions| && Isolated(jobs, files0, s) && Enabled(jobs, s, Run(h, ch))
    requires SessionInv(jobs, s, s.handlers[h].job) && HandlerInv(s, h)
    requires d < |jobs| && d != s.handlers[h].job && Owns(jobs, s, d, p) && p in s.files
    ensures var f := StepOf(jobs[s.handlers[h].job], s, h, ch).files; p in f && f[p] == s.files[p]
  {
    var c := s.handlers[h].job;
    assert !Owns(jobs, s, c, p);
    StepIsolated(jobs[c], s, h, ch, p);
  }

  lemma OthersKeepFiles(jobs: seq<Job>, files0: map<string, Bytes>, s: State, h: nat, ch: Choice, d: nat)
    requires |jobs| == |s.sessions| && Isolated(jobs, files0, s) && Enabled(jobs, s, Run(h, ch))
    requires SessionInv(jobs, s, s.handlers[h].job) && HandlerInv(s, h)
    requires d < |jobs| && d != s.handlers[h].job && s.sessions[d].created <= |jobs[d].names|
    ensures SameFiles(jobs[d], s.sessions[d].created, s.files, Next(jobs, s, Run(h, ch)).files)
  {
    var j := jobs[d];
    forall i | 0 <= i < s.sessions[d].created && PathOf(j, i) in s.files
      ensures var f := StepOf(jobs[s.handlers[h].job], s, h, ch).files; PathOf(j, i) in f && f[PathOf(j, i)] == s.files[PathOf(j, i)]
    {
      assert Owns(jobs, s, d, PathOf(j, i));
      OthersKeepFile(jobs, files0, s, h, ch, d, PathOf(j, i));
    }
  }

  /** The table changes at most at the handler's own job, and its mutex passes properly. */
  predicate TableStep(s: State, h: nat, f: Effect)
    requires h < |s.handlers|
  {
    var pc, c := s.handlers[h].pc, s.handlers[h].job;
    && (f.table == s.table || f.table == s.table + {c} || f.table == s.table - {c})
    && (if WantsTable(pc) then s.tableLock.None? && f.tableLock == Some(h) && HoldsTable(f.pc)
        else !HoldsTable(f.pc) && f.tableLock == if HoldsTable(pc) then None else s.tableLock)
  }

  lemma StepTable(j: Job, s: State, h: nat, ch: Choice)
    requires h < |s.handlers| && s.handlers[h].job < |s.sessions| && WellFormed(j) && Allowed(j, s, h, ch)
    ensures TableStep(s, h, StepOf(j, s, h, ch))
  {
  }

  lemma ApplyKeepsTable(s: State, h: nat, f: Effect)
    requires h < |s.handlers| && s.handlers[h].job < |s.sessions| && TableInv(s) && TableStep(s, h, f)
    ensures TableInv(Apply(s, h, f))
  {
  }

  lemma ApplyKeepsOthers(jobs: seq<Job>, s: State, h: nat, f: Effect, d: nat)
    requires |jobs| == |s.sessions| && h < |s.handlers| && s.handlers[h].job < |jobs|
    requires d < |jobs| && d != s.handlers[h].job && SessionInv(jobs, s, d) && TableStep(s, h, f)
    requires SameFiles(jobs[d], s.sessions[d].created, s.files, f.files)
    ensures SessionInv(jobs, Apply(s, h, f), d)
  {
    SessionFrame(jobs, s, Apply(s, h, f), d);
  }

  lemma OthersKeepSession(jobs: seq<Job>, files0: map<string, Bytes>, s: State, h: nat, ch: Choice, d: nat)
    requires Inv(jobs, files0, s) && Enabled(jobs, s, Run(h, ch))
    requires d < |jobs| && d != s.handlers[h].job
    ensures SessionInv(jobs, Next(jobs, s, Run(h, ch)), d)
  {
    var c := s.handlers[h].job;
    assert SessionInv(jobs, s, c) && SessionInv(jobs, s, d) && HandlerInv(s, h);
    OthersKeepFiles(jobs, files0, s, h, ch, d);
    StepTable(jobs[c], s, h, ch);
    ApplyKeepsOthers(jobs, s, h, StepOf(jobs[c], s, h, ch), d);
  }

  lemma RunKeepsIsolation(jobs: seq<Job>, files0: map<string, Bytes>, s: State, h: nat, ch: Choice)
    requires Inv(jobs, files0, s) && Enabled(jobs, s, Run(h, ch))
    ensures Isolated(jobs, files0, Next(jobs, s, Run(h, ch)))
  {
    var c := s.handlers[h].job;
    var f := StepOf(jobs[c], s, h, ch);
    assert SessionInv(jobs, s, c) && HandlerInv(s, h);
    forall p | p in files0 ensures p in f.files && f.files[p] == files0[p] {
      assert !Owns(jobs, s, c, p);
      StepIsolated(jobs[c], s, h, ch, p);
    }
    forall d, p | 0 <= d < |jobs| && Owns(jobs, Apply(s, h, f), d, p) ensures Owns(jobs, s, d, p) || (d == c && p !in s.files) {
      OwnedBefore(jobs, files0, s, h, ch, d, p);
    }
    forall d, p | 0 <= d < |jobs| && Owns(jobs, s, d, p) ensures p in s.files {
      assert SessionInv(jobs, s, d);
    }
    ApplyKeepsIsolation(jobs, files0, s, h, f);
  }

  lemma ApplyKeepsIsolation(jobs: seq<Job>, files0: map<string, Bytes>, s: State, h: nat, f: Effect)
    requires h < |s.handlers| && s.handlers[h].job < |s.sessions| == |jobs| && Isolated(jobs, files0, s)
    requires forall p <- files0 :: p in f.files && f.files[p] == files0[p]
    requires forall d, p :: 0 <= d < |jobs| && Owns(jobs, Apply(s, h, f), d, p) ==> Owns(jobs, s, d, p) || (d == s.handlers[h].job && p !in s.files)
    requires forall d, p :: 0 <= d < |jobs| && Owns(jobs, s, d, p) ==> p in s.files
    ensures Isolated(jobs, files0, Apply(s, h, f))
  {
  }

  lemma OwnedBefore(jobs: seq<Job>, files0: map<string, Bytes>, s: State, h: nat, ch: Choice, d: nat, p: string)
    requires Inv(jobs, files0, s) && Enabled(jobs, s, Run(h, ch))
    requires d < |jobs| && Owns(jobs, Next(jobs, s, Run(h, ch)), d, p)
    ensures Owns(jobs, s, d, p) || (d == s.handlers[h].job && p !in s.files)
  {
    var c := s.handlers[h].job;
    assert SessionInv(jobs, s, c) && HandlerInv(s, h);
    if d == c {
      var i :| 0 <= i < |jobs[c].names| && i < StepOf(jobs[c], s, h, ch).x.created && PathOf(jobs[c], i) == p;
      if i >= s.sessions[c].created { CreatedAreNew(jobs[c], s, h, ch, i); }
    }
  }

  // ------------------------------------------------------------- the whole invariant

  /** A live handler is one of its session's two; the session drops no other handler. */
  predicate HandlerStep(x: Session, h: nat, f: Effect) {
    && (f.pc.Finished? || f.x.cur == Some(h) || f.x.tail == Some(h))
    && (x.cur.Some? && x.cur != Some(h) ==> x.cur in {f.x.cur, f.x.tail})
    && (x.tail.Some? && x.tail != Some(h) ==> x.tail in {f.x.cur, f.x.tail})
  }

  lemma StepHandlers(j: Job, s: State, h: nat, ch: Choice)
    requires CanStep(j, s, h, ch)
    ensures HandlerStep(s.sessions[s.handlers[h].job], h, StepOf(j, s, h, ch))
  {
  }

  lemma ApplyKeepsHandlers(s: State, h: nat, f: Effect)
    requires h < |s.handlers| && s.handlers[h].job < |s.sessions| && HandlerStep(s.sessions[s.handlers[h].job], h, f)
    requires forall g :: 0 <= g < |s.handlers| ==> HandlerInv(s, g)
    ensures var s' := Apply(s, h, f); forall g :: 0 <= g < |s'.handlers| ==> HandlerInv(s', g)
  {
    var s' := Apply(s, h, f);
    forall g | 0 <= g < |s'.handlers| ensures HandlerInv(s', g) {
      assert HandlerInv(s, g);
    }
  }

  lemma OwnHandlerStep(jobs: seq<Job>, s: State, h: nat, ch: Choice)
    requires |jobs| == |s.sessions| && Enabled(jobs, s, Run(h, ch)) && SessionInv(jobs, s, s.handlers[h].job) && HandlerInv(s, h)
    ensures HandlerStep(s.sessions[s.handlers[h].job], h, StepOf(jobs[s.handlers[h].job], s, h, ch))
  {
    StepHandlers(jobs[s.handlers[h].job], s, h, ch);
  }

  lemma RunKeepsHandlers(jobs: seq<Job>, files0: map<string, Bytes>, s: State, h: nat, ch: Choice)
    requires Inv(jobs, files0, s) && Enabled(jobs, s, Run(h, ch))
    ensures var s' := Next(jobs, s, Run(h, ch)); forall g :: 0 <= g < |s'.handlers| ==> HandlerInv(s', g)
  {
    var c := s.handlers[h].job;
    assert SessionInv(jobs, s, c) && HandlerInv(s, h);
    OwnHandlerStep(jobs, s, h, ch);
    ApplyKeepsHandlers(s, h, StepOf(jobs[c], s, h, ch));
  }

  lemma RunKeepsTable(jobs: seq<Job>, s: State, h: nat, ch: Choice)
    requires |jobs| == |s.sessions| && Enabled(jobs, s, Run(h, ch)) && TableInv(s)
    ensures TableInv(Next(jobs, s, Run(h, ch)))
  {
    StepTable(jobs[s.handlers[h].job], s, h, ch);
    ApplyKeepsTable(s, h, StepOf(jobs[s.handlers[h].job], s, h, ch));
  }

  lemma RunKeepsSession(jobs: seq<Job>, s: State, h: nat, ch: Choice)
    requires |jobs| == |s.sessions| && Enabled(jobs, s, Run(h, ch))
    requires SessionInv(jobs, s, s.handlers[h].job) && HandlerInv(s, h)
    ensures SessionInv(jobs, Next(jobs, s, Run(h, ch)), s.handlers[h].job)
  {
    var j := jobs[s.handlers[h].job];
    StepKeepsShape(j, s, h, ch);
    StepKeepsFiles(j, s, h, ch);
  }

  lemma RunKeepsInv(jobs: seq<Job>, files0: map<string, Bytes>, s: State, h: nat, ch: Choice)
    requires Inv(jobs, files0, s) && Enabled(jobs, s, Run(h, ch))
    ensures Inv(jobs, files0, Next(jobs, s, Run(h, ch)))
  {
    var s' := Next(jobs, s, Run(h, ch));
    forall d | 0 <= d < |jobs| ensures SessionInv(jobs, s', d) {
      if d == s.handlers[h].job {
        assert HandlerInv(s, h) && SessionInv(jobs, s, d);
        RunKeepsSession(jobs, s, h, ch);
      } else {
        OthersKeepSession(jobs, files0, s, h, ch, d);
      }
    }
    RunKeepsHandlers(jobs, files0, s, h, ch);
    RunKeepsTable(jobs, s, h, ch);
    RunKeepsIsolation(jobs, files0, s, h, ch);
  }

  /** One step of anybody. */
  lemma StepKeepsInv(jobs: seq<Job>, files0: map<string, Bytes>, s: State, e: Event)
    requires Inv(jobs, files0, s) && Enabled(jobs, s, e)
    ensures Inv(jobs, files0, Next(jobs, s, e))
  {
    match e
    case Send(c) => SendKeepsInv(jobs, files0, s, c);
    case Run(h, ch) => RunKeepsInv(jobs, files0, s, h, ch);
  }

  /** Whole runs. */
  lemma {:induction false} RunsKeepInv(jobs: seq<Job>, files0: map<string, Bytes>, s: State, run: seq<Event>)
    requires Inv(jobs, files0, s) && Legal(jobs, s, run)
    ensures Inv(jobs, files0, Exec(jobs, s, run))
    decreases |run|
  {
    if run != [] {
      StepKeepsInv(jobs, files0, s, run[0]);
      RunsKeepInv(jobs, files0, Next(jobs, s, run[0]), run[1..]);
    }
  }
}
