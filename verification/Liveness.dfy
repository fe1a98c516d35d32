/** No deadlock, and every set of migrations comes to an end with a clean operation table. */
module Liveness {
  import opened Transfer
  import opened Sender
  import opened Protocol
  import opened Invariant
  import opened Preservation
  import opened Safety

  // --------------------------------------------------------------------- progress

  /** A handler that is not waiting for a mutex can always go on. */
  lemma CanGoOn(jobs: seq<Job>, files0: map<string, Bytes>, s: State, h: nat) returns (e: Event)
    requires Inv(jobs, files0, s) && h < |s.handlers|
    requires !s.handlers[h].pc.Finished? && !WantsTable(s.handlers[h].pc) && !s.handlers[h].pc.WantOp?
    ensures Enabled(jobs, s, e)
  {
    var g := s.handlers[h];
    assert HandlerInv(s, h);
    assert SessionInv(jobs, s, g.job);
    if g.pc.Pulling? { GatheredLength(jobs[g.job].work.sources); }
    e := Run(h, match g.pc
                case Locked => if g.req.Write? then Normal else After(0)
                case Writing => Wrote(if Storable(g.req.chunk) then |g.req.chunk.data| else -1)
                case _ => Normal);
  }

  /** Who holds the mutex a handler waits for is itself not waiting for an operation mutex. */
  lemma LockHolder(jobs: seq<Job>, files0: map<string, Bytes>, s: State, c: nat) returns (g: nat)
    requires Inv(jobs, files0, s) && c < |jobs| && s.sessions[c].lock.Some?
    ensures g < |s.handlers| && !s.handlers[g].pc.Finished? && !s.handlers[g].pc.WantOp?
  {
    assert SessionInv(jobs, s, c);
    var x := s.sessions[c];
    g := x.lock.value;
  }

  /** Deadlock freedom: with the table mutex free, a live handler leads to one that can move. */
  lemma HandlerProgress(jobs: seq<Job>, files0: map<string, Bytes>, s: State, h: nat) returns (e: Event)
    requires Inv(jobs, files0, s) && h < |s.handlers| && !s.handlers[h].pc.Finished?
    ensures Enabled(jobs, s, e)
  {
    if s.tableLock.Some? {
      e := CanGoOn(jobs, files0, s, s.tableLock.value);
    } else {
      var g := h;
      assert HandlerInv(s, h);
      if s.handlers[h].pc.WantOp? && s.sessions[s.handlers[h].job].lock.Some? {
        g := LockHolder(jobs, files0, s, s.handlers[h].job);
      }
      assert HandlerInv(s, g);
      assert SessionInv(jobs, s, s.handlers[g].job);
      if WantsTable(s.handlers[g].pc) || s.handlers[g].pc.WantOp? {
        e := Run(g, Normal);
      } else {
        e := CanGoOn(jobs, files0, s, g);
      }
    }
  }

  /** Everybody has returned. */
  predicate Quiet(s: State) {
    && (forall c :: 0 <= c < |s.sessions| ==> s.sessions[c].sender.Done?)
    && (forall h :: 0 <= h < |s.handlers| ==> s.handlers[h].pc.Finished?)
  }

  /** Any reachable state in which someone has not returned has an enabled step. */
  lemma Progress(jobs: seq<Job>, files0: map<string, Bytes>, run: seq<Event>, s: State) returns (e: Event)
    requires Reached(jobs, files0, run, s) && !Quiet(s)
    ensures Enabled(jobs, s, e)
  {
    ReachedInv(jobs, files0, run, s);
    if h :| 0 <= h < |s.handlers| && !s.handlers[h].pc.Finished? {
      e := HandlerProgress(jobs, files0, s, h);
    } else {
      var c :| 0 <= c < |s.sessions| && !s.sessions[c].sender.Done?;
      assert SessionInv(jobs, s, c);
      e := Send(c);
    }
  }

  // ------------------------------------------------------------------ termination

  /** Steps a handler may still take. */
  function Rank(pc: Pc): nat {
    match pc
    case Checking => 5
    case StartWantTable => 4
    case StartInTable => 3
    case StartReply => 2
    case WantTable => 10
    case InTable => 9
    case WantOp => 8
    case Pulling => 8
    case Locked => 7
    case ErrWantTable => 6
    case ErrInTable => 5
    case ErrReply => 4
    case EndErrWantTable => 4
    case EndErrInTable => 3
    case EndUnlock => 6
    case EndWantTable => 5
    case EndInTable => 4
    case Writing => 1
    case Finished => 0
  }

  /** Requests a client may still issue. */
  function Remaining(w: Work, x: Session): nat {
    var sent := if x.cur.Some? then 1 else 0;
    match x.sender
    case Idle => Steps(w) + 2 - sent
    case Ready(k, _) => if k <= Steps(w) then Steps(w) - k + 1 - sent else 0
    case Done(_, _) => 0
  }

  function Ranks(hs: seq<Handler>): (r: seq<nat>)
    ensures |r| == |hs| && forall i :: 0 <= i < |r| ==> r[i] == Rank(hs[i].pc)
  {
    seq(|hs|, i requires 0 <= i < |hs| => Rank(hs[i].pc))
  }

  function Loads(jobs: seq<Job>, xs: seq<Session>): (r: seq<nat>)
    requires |jobs| == |xs|
    ensures |r| == |xs| && forall i :: 0 <= i < |r| ==> r[i] == 11 * Remaining(jobs[i].work, xs[i])
  {
    seq(|xs|, i requires 0 <= i < |xs| => 11 * Remaining(jobs[i].work, xs[i]))
  }

  function Measure(jobs: seq<Job>, s: State): nat
    requires |jobs| == |s.sessions|
  {
    Sum(Ranks(s.handlers)) + Sum(Loads(jobs, s.sessions))
  }

  lemma {:induction false} SumUpdate(s: seq<nat>, i: nat, v: nat)
    requires i < |s|
    ensures Sum(s[i := v]) == Sum(s) - s[i] + v
  {
    if i == 0 {
      assert s[0 := v][1..] == s[1..];
    } else {
      assert s[i := v][1..] == s[1..][i - 1 := v];
      SumUpdate(s[1..], i - 1, v);
    }
  }

  lemma StepLowersRank(j: Job, s: State, h: nat, ch: Choice)
    requires h < |s.handlers| && s.handlers[h].job < |s.sessions| && WellFormed(j) && Allowed(j, s, h, ch)
    ensures Rank(StepOf(j, s, h, ch).pc) < Rank(s.handlers[h].pc)
  {
  }

  lemma StepAddsNoRequest(j: Job, s: State, h: nat, ch: Choice)
    requires CanStep(j, s, h, ch)
    ensures Remaining(j.work, StepOf(j, s, h, ch).x) <= Remaining(j.work, s.sessions[s.handlers[h].job])
  {
    if s.sessions[s.handlers[h].job].sender.Ready? { ReadyAddsNoRequest(j, s, h, ch); } else { OtherAddsNoRequest(j, s, h, ch); }
  }

  lemma ReadyAddsNoRequest(j: Job, s: State, h: nat, ch: Choice)
    requires CanStep(j, s, h, ch) && s.sessions[s.handlers[h].job].sender.Ready?
    ensures Remaining(j.work, StepOf(j, s, h, ch).x) <= Remaining(j.work, s.sessions[s.handlers[h].job])
  {
  }

  lemma OtherAddsNoRequest(j: Job, s: State, h: nat, ch: Choice)
    requires CanStep(j, s, h, ch) && !s.sessions[s.handlers[h].job].sender.Ready?
    ensures Remaining(j.work, StepOf(j, s, h, ch).x) <= Remaining(j.work, s.sessions[s.handlers[h].job])
  {
  }

  lemma ApplyMeasure(jobs: seq<Job>, s: State, h: nat, f: Effect)
    requires |jobs| == |s.sessions| && h < |s.handlers| && s.handlers[h].job < |jobs|
    requires Rank(f.pc) < Rank(s.handlers[h].pc)
    requires var c := s.handlers[h].job; Remaining(jobs[c].work, f.x) <= Remaining(jobs[c].work, s.sessions[c])
    ensures Measure(jobs, Apply(s, h, f)) < Measure(jobs, s)
  {
    var s', c := Apply(s, h, f), s.handlers[h].job;
    assert Ranks(s'.handlers) == Ranks(s.handlers)[h := Rank(f.pc)];
    assert Loads(jobs, s'.sessions) == Loads(jobs, s.sessions)[c := 11 * Remaining(jobs[c].work, f.x)];
    SumUpdate(Ranks(s.handlers), h, Rank(f.pc));
    SumUpdate(Loads(jobs, s.sessions), c, 11 * Remaining(jobs[c].work, f.x));
  }

  lemma RunLowersMeasure(jobs: seq<Job>, files0: map<string, Bytes>, s: State, h: nat, ch: Choice)
    requires Inv(jobs, files0, s) && Enabled(jobs, s, Run(h, ch))
    ensures Measure(jobs, Next(jobs, s, Run(h, ch))) < Measure(jobs, s)
  {
    var c := s.handlers[h].job;
    assert HandlerInv(s, h) && SessionInv(jobs, s, c);
    StepLowersRank(jobs[c], s, h, ch);
    StepAddsNoRequest(jobs[c], s, h, ch);
    ApplyMeasure(jobs, s, h, StepOf(jobs[c], s, h, ch));
  }

  lemma SendLowersMeasure(jobs: seq<Job>, files0: map<string, Bytes>, s: State, c: nat)
    requires Inv(jobs, files0, s) && Enabled(jobs, s, Send(c))
    ensures Measure(jobs, Next(jobs, s, Send(c))) < Measure(jobs, s)
  {
    var s' := Next(jobs, s, Send(c));
    assert SessionInv(jobs, s, c);
    var r := Rank(s'.handlers[|s.handlers|].pc);
    assert Ranks(s'.handlers) == Ranks(s.handlers) + [r];
    assert Loads(jobs, s'.sessions) == Loads(jobs, s.sessions)[c := 11 * Remaining(jobs[c].work, s'.sessions[c])];
    SumAppend(Ranks(s.handlers), r);
    SumUpdate(Loads(jobs, s.sessions), c, 11 * Remaining(jobs[c].work, s'.sessions[c]));
  }

  lemma {:induction false} RunsAreBounded(jobs: seq<Job>, files0: map<string, Bytes>, s: State, run: seq<Event>)
    requires Inv(jobs, files0, s) && Legal(jobs, s, run)
    ensures |run| + Measure(jobs, Exec(jobs, s, run)) <= Measure(jobs, s)
    decreases |run|
  {
    if run != [] {
      match run[0] {
        case Send(c) => SendLowersMeasure(jobs, files0, s, c);
        case Run(h, ch) => RunLowersMeasure(jobs, files0, s, h, ch);
      }
      StepKeepsInv(jobs, files0, s, run[0]);
      RunsAreBounded(jobs, files0, Next(jobs, s, run[0]), run[1..]);
    }
  }

  function Requests(jobs: seq<Job>): (r: seq<nat>)
    ensures |r| == |jobs| && forall c :: 0 <= c < |jobs| ==> r[c] == 11 * (Steps(jobs[c].work) + 2)
  {
    seq(|jobs|, c requires 0 <= c < |jobs| => 11 * (Steps(jobs[c].work) + 2))
  }

  /** Termination: no interleaving takes more steps than a number fixed by the jobs. */
  lemma Termination(jobs: seq<Job>, files0: map<string, Bytes>, run: seq<Event>, s: State)
    requires Reached(jobs, files0, run, s)
    ensures |run| <= Sum(Requests(jobs))
  {
    InitInv(jobs, files0);
    RunsAreBounded(jobs, files0, Init(jobs, files0), run);
    assert Loads(jobs, Init(jobs, files0).sessions) == Requests(jobs);
  }

  /**
   A run that cannot be extended has let everybody return, with no mutex
   held; the only operations left in the table are those of bulk transfers
   that came up short, so chunked migrations leave it empty.
   */
  lemma EndsClean(jobs: seq<Job>, files0: map<string, Bytes>, run: seq<Event>, s: State)
    requires Reached(jobs, files0, run, s) && forall e :: !Enabled(jobs, s, e)
    ensures Quiet(s) && s.tableLock.None?
    ensures forall c :: 0 <= c < |jobs| ==> s.sessions[c].lock.None?
    ensures forall c :: c in s.table <==> 0 <= c < |jobs| && s.sessions[c].short
    ensures (forall j <- jobs :: j.work.Chunked?) ==> s.table == {}
  {
    ReachedInv(jobs, files0, run, s);
    if !Quiet(s) {
      var e := Progress(jobs, files0, run, s);
    }
    forall c | 0 <= c < |jobs|
      ensures s.sessions[c].lock.None? && (c in s.table <==> s.sessions[c].short)
      ensures s.sessions[c].short ==> jobs[c].work.Bulk?
    {
      assert SessionInv(jobs, s, c);
    }
  }

  /** From any reachable state every migration can be brought to its end. */
  lemma {:induction false} CanFinish(jobs: seq<Job>, files0: map<string, Bytes>, run: seq<Event>, s: State)
    returns (full: seq<Event>, t: State)
    requires Reached(jobs, files0, run, s)
    ensures run <= full && Reached(jobs, files0, full, t) && Quiet(t)
    decreases Sum(Requests(jobs)) - |run|
  {
    full, t := run, s;
    if !Quiet(s) {
      var e := Progress(jobs, files0, run, s);
      assert [e][1..] == [] && Exec(jobs, s, [e]) == Exec(jobs, Next(jobs, s, e), []);
      ExecConcat(jobs, Init(jobs, files0), run, [e]);
      Termination(jobs, files0, run, s);
      Termination(jobs, files0, run + [e], Next(jobs, s, e));
      full, t := CanFinish(jobs, files0, run + [e], Next(jobs, s, e));
    }
  }
}
