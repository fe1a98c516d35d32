/**
 Overlapping handlers are an illusion: whatever the interleaving, clients and
 files end up as they do when some run serves the same requests one by one,
 each handler from its first phase to its last before the next one starts.

 In that run a request is served at the moment its fate is sealed in the
 interleaved one: when a start has checked and created its files, when the
 pwrite of an acknowledged chunk returns, when migrate_end decides its reply.
 */
module Serialization {
  import opened Codes
  import opened Transfer
  import opened Sender
  import opened Protocol
  import opened Invariant
  import opened Preservation
  import opened Safety
  import opened Solo
  import opened Refinement
  import Liveness

  predicate StartDecided(cp: Pc) {
    cp in {StartWantTable, StartInTable, StartReply}
  }

  predicate RefusalDecided(cp: Pc) {
    cp in {ErrWantTable, ErrInTable, ErrReply}
  }

  predicate EndDecided(tp: Pc) {
    tp in {EndErrWantTable, EndErrInTable, EndUnlock, EndWantTable, EndInTable}
  }

  /**
   The session as it stands in the serial run: requests whose fate is sealed
   are answered, all others, an acknowledged chunk not yet written included,
   have not been sent.
   */
  function Settled(j: Job, x: Session, cp: Pc, tp: Pc): Session {
    var y := x.(cur := None, tail := None, lock := None);
    if StartDecided(cp) then y.(sender := OnReply(j, x.sender, SUCCESS, 0), started := true)
    else if RefusalDecided(cp) then y.(sender := OnReply(j, x.sender, ERR_IO, 0))
    else if tp.Writing? && x.sender.Ready? && x.sender.next > 0 && x.acked > 0 then
      y.(sender := Ready(x.sender.next - 1, SUCCESS), acked := x.acked - 1)
    else y
  }

  /** Whether the operation is in the table of the serial run. */
  predicate SettledIn(cp: Pc, tp: Pc, it: bool) {
    (it || cp in {StartWantTable, StartInTable}) && cp !in {ErrWantTable, ErrInTable} && !EndDecided(tp)
  }

  /** `z` is the still state of the serial run that goes with `s`. */
  predicate Matches(jobs: seq<Job>, s: State, z: State) {
    && |jobs| == |s.sessions| == |z.sessions|
    && z.files == s.files
    && forall c :: 0 <= c < |jobs| ==>
         && z.sessions[c] == Settled(jobs[c], s.sessions[c], PcAt(s, s.sessions[c].cur), PcAt(s, s.sessions[c].tail))
         && (c in z.table <==> SettledIn(PcAt(s, s.sessions[c].cur), PcAt(s, s.sessions[c].tail), c in s.table))
  }

  /** The pcs of a session's two handlers after handler `h` had effect `f`. */
  function PcAfter(s: State, h: nat, f: Effect, g: Option<nat>): Pc {
    if g == Some(h) then f.pc else PcAt(s, g)
  }

  /** The serial run takes the same step: its session, table entry and files follow. */
  predicate Follows(j: Job, s: State, h: nat, f: Effect, y: Session, it: bool, files: map<string, Bytes>)
    requires h < |s.handlers|
  {
    && y == Settled(j, f.x, PcAfter(s, h, f, f.x.cur), PcAfter(s, h, f, f.x.tail))
    && (it <==> SettledIn(PcAfter(s, h, f, f.x.cur), PcAfter(s, h, f, f.x.tail), s.handlers[h].job in f.table))
    && files == f.files
  }

  /** Steps that seal no request's fate. */
  predicate Quietly(j: Job, s: State, h: nat)
    requires h < |s.handlers|
  {
    var g := s.handlers[h];
    match g.pc
    case Checking => false
    case InTable => g.job in s.table
    case Locked => g.req.Write? && Accepts(j.sizes, g.req.chunk)
    case Writing => false
    case Pulling => false
    case _ => true
  }

  lemma QuietCurStep(j: Job, s: State, h: nat, ch: Choice)
    requires CanStep(j, s, h, ch) && Quietly(j, s, h) && s.sessions[s.handlers[h].job].cur == Some(h)
    ensures var x, c := s.sessions[s.handlers[h].job], s.handlers[h].job;
            Follows(j, s, h, StepOf(j, s, h, ch), Settled(j, x, PcAt(s, x.cur), PcAt(s, x.tail)),
                    SettledIn(PcAt(s, x.cur), PcAt(s, x.tail), c in s.table), s.files)
  {
  }

  lemma QuietTailStep(j: Job, s: State, h: nat, ch: Choice)
    requires CanStep(j, s, h, ch) && Quietly(j, s, h) && s.sessions[s.handlers[h].job].cur != Some(h)
    ensures var x, c := s.sessions[s.handlers[h].job], s.handlers[h].job;
            Follows(j, s, h, StepOf(j, s, h, ch), Settled(j, x, PcAt(s, x.cur), PcAt(s, x.tail)),
                    SettledIn(PcAt(s, x.cur), PcAt(s, x.tail), c in s.table), s.files)
  {
  }

  // ------------------------------------------------- steps that seal a request

  /** Handler `zh` of the serial state `zs` is about to serve the request of handler `h`. */
  predicate Counterpart(j: Job, s: State, h: nat, ch: Choice, zs: State, zh: nat, f: Effect) {
    && CanStep(j, s, h, ch)
    && var g, x := s.handlers[h], s.sessions[s.handlers[h].job];
       && zh < |zs.handlers| && zs.handlers[zh].job == g.job < |zs.sessions| && zs.handlers[zh].req == g.req
       && f.x == Settled(j, x, PcAt(s, x.cur), PcAt(s, x.tail)).(cur := Some(zh))
       && f.pc == (if g.req.Start? then Checking else WantTable) && f.tableLock.None? && f.files == s.files
       && (g.job in f.table <==> SettledIn(PcAt(s, x.cur), PcAt(s, x.tail), g.job in s.table))
  }

  /** Served alone, with choices `chs`, it ends in `g`, which goes with the state after the step. */
  predicate Sealed(j: Job, s: State, h: nat, ch: Choice, zs: State, zh: nat, f: Effect, chs: seq<Choice>, g: Effect)
    requires Counterpart(j, s, h, ch, zs, zh, f)
  {
    var c := s.handlers[h].job;
    && Alone(j, zs, zh, f, chs, g) && g.pc.Finished? && g.tableLock.None?
    && (g.table == f.table || g.table == f.table + {c} || g.table == f.table - {c})
    && Follows(j, s, h, StepOf(j, s, h, ch), g.x, c in g.table, g.files)
  }

  lemma StopFollows(j: Job, s: State, h: nat, ch: Choice, zs: State, zh: nat, f: Effect, r: Choice)
    requires Counterpart(j, s, h, ch, zs, zh, f) && s.handlers[h].pc.Checking? && s.handlers[h].req.Start?
    requires if ch.Refuse? || ch.OpenFails? then r == ch else Blocked(j, s.files) && r == Refuse(ERR_FILE_EXISTS, 1)
    ensures Allowed(j, Apply(zs, zh, f), zh, r)
    ensures var g := StoppedEffect(j, f, r); Follows(j, s, h, StepOf(j, s, h, ch), g.x, s.handlers[h].job in g.table, g.files)
  {
  }

  lemma AcceptFollows(j: Job, s: State, h: nat, ch: Choice, zs: State, zh: nat, f: Effect)
    requires Counterpart(j, s, h, ch, zs, zh, f) && s.handlers[h].pc.Checking? && s.handlers[h].req.Start?
    requires !ch.Refuse? && !ch.OpenFails? && !Blocked(j, s.files)
    ensures var c := s.handlers[h].job;
            var g := StartAlone(j, f, c); Follows(j, s, h, StepOf(j, s, h, ch), g.x, c in g.table, g.files)
  {
  }

  lemma SealStart(j: Job, s: State, h: nat, ch: Choice, zs: State, zh: nat, f: Effect) returns (chs: seq<Choice>, g: Effect)
    requires Counterpart(j, s, h, ch, zs, zh, f) && s.handlers[h].pc.Checking? && s.handlers[h].req.Start?
    ensures Sealed(j, s, h, ch, zs, zh, f, chs, g)
  {
    if ch.Refuse? || ch.OpenFails? {
      StopFollows(j, s, h, ch, zs, zh, f, ch);
      chs, g := [ch], StoppedEffect(j, f, ch);
      StopAlone(j, zs, zh, f, ch);
    } else if Blocked(j, s.files) {
      var r := Refuse(ERR_FILE_EXISTS, 1);
      StopFollows(j, s, h, ch, zs, zh, f, r);
      chs, g := [r], StoppedEffect(j, f, r);
      StopAlone(j, zs, zh, f, r);
    } else {
      AcceptFollows(j, s, h, ch, zs, zh, f);
      chs, g := [Normal] + ([Normal] + ([Normal] + [Normal])), StartAlone(j, f, zs.handlers[zh].job);
      StartRuns(j, zs, zh, f);
    }
  }

  lemma SealUnknown(j: Job, s: State, h: nat, ch: Choice, zs: State, zh: nat, f: Effect) returns (chs: seq<Choice>, g: Effect)
    requires Counterpart(j, s, h, ch, zs, zh, f) && s.handlers[h].pc.InTable? && !s.handlers[h].req.Start? && s.handlers[h].job !in s.table
    ensures Sealed(j, s, h, ch, zs, zh, f, chs, g)
  {
    chs, g := [Normal] + [Normal], Effect(Reply(j, f.x, ERR_INVALID_OPID, 0, f.x.tail), Finished, f.table, None, f.files);
    UnknownRuns(j, zs, zh, f);
  }

  lemma SealRejected(j: Job, s: State, h: nat, ch: Choice, zs: State, zh: nat, f: Effect, k: Chunk) returns (chs: seq<Choice>, g: Effect)
    requires Counterpart(j, s, h, ch, zs, zh, f) && s.handlers[h].pc.Locked? && s.handlers[h].req == Write(k) && !Accepts(j.sizes, k)
    requires Held(s.files, j, |j.names|)
    ensures Sealed(j, s, h, ch, zs, zh, f, chs, g)
  {
    chs, g := [Normal] + ([Normal] + ([Normal] + WriteChoices(j, k, -1))), WriteAlone(j, f, zs.handlers[zh].job, k, -1);
    WriteRuns(j, zs, zh, f, k, -1);
  }

  lemma SealEnd(j: Job, s: State, h: nat, ch: Choice, zs: State, zh: nat, f: Effect) returns (chs: seq<Choice>, g: Effect)
    requires Counterpart(j, s, h, ch, zs, zh, f) && s.handlers[h].pc.Locked? && s.handlers[h].req.End?
    ensures Sealed(j, s, h, ch, zs, zh, f, chs, g)
  {
    chs := [Normal] + ([Normal] + ([Normal] + EndChoices(f.x.error, ch.status)));
    g := EndAlone(j, f, zs.handlers[zh].job, ch.status);
    EndRuns(j, zs, zh, f, ch.status);
  }

  lemma WriteFollows(j: Job, s: State, h: nat, ch: Choice, zs: State, zh: nat, f: Effect, k: Chunk)
    requires Counterpart(j, s, h, ch, zs, zh, f) && s.handlers[h].pc.Writing? && s.handlers[h].req == Write(k) && Accepts(j.sizes, k)
    requires Held(s.files, j, |j.names|)
    ensures var c := s.handlers[h].job;
            var g := WriteAlone(j, f, c, k, ch.result);
            Follows(j, s, h, StepOf(j, s, h, ch), g.x, c in g.table, g.files) && g.table == f.table
  {
  }

  lemma SealWrite(j: Job, s: State, h: nat, ch: Choice, zs: State, zh: nat, f: Effect, k: Chunk) returns (chs: seq<Choice>, g: Effect)
    requires Counterpart(j, s, h, ch, zs, zh, f) && s.handlers[h].pc.Writing? && s.handlers[h].req == Write(k) && Accepts(j.sizes, k)
    requires Held(s.files, j, |j.names|)
    ensures Sealed(j, s, h, ch, zs, zh, f, chs, g)
  {
    chs, g := [Normal] + ([Normal] + ([Normal] + WriteChoices(j, k, ch.result))), WriteAlone(j, f, zs.handlers[zh].job, k, ch.result);
    WriteFollows(j, s, h, ch, zs, zh, f, k);
    WriteCanRun(j, s, h, ch, zs, zh, f, k);
    WriteRuns(j, zs, zh, f, k, ch.result);
  }

  lemma WriteCanRun(j: Job, s: State, h: nat, ch: Choice, zs: State, zh: nat, f: Effect, k: Chunk)
    requires Counterpart(j, s, h, ch, zs, zh, f) && s.handlers[h].pc.Writing? && s.handlers[h].req == Write(k)
    ensures f.x.lock.None? && f.x.tail.None? && f.x.closes == 0 && zs.handlers[zh].job in f.table
    ensures -1 <= ch.result <= |k.data| && (!Storable(k) ==> ch.result == -1)
  {
  }

  lemma PullFollows(j: Job, s: State, h: nat, ch: Choice, zs: State, zh: nat, f: Effect, segments: seq<Bytes>)
    requires Counterpart(j, s, h, ch, zs, zh, f) && s.handlers[h].pc.Pulling? && s.handlers[h].req == Pull(segments)
    ensures PullCan(j, segments, ch)
    ensures var c := s.handlers[h].job;
            var g := PullAlone(j, f, c, segments, ch);
            Follows(j, s, h, StepOf(j, s, h, ch), g.x, c in g.table, g.files)
  {
  }

  lemma SealPull(j: Job, s: State, h: nat, ch: Choice, zs: State, zh: nat, f: Effect, segments: seq<Bytes>) returns (chs: seq<Choice>, g: Effect)
    requires Counterpart(j, s, h, ch, zs, zh, f) && s.handlers[h].pc.Pulling? && s.handlers[h].req == Pull(segments)
    ensures Sealed(j, s, h, ch, zs, zh, f, chs, g)
  {
    PullFollows(j, s, h, ch, zs, zh, f, segments);
    chs, g := PullChoices(ch), PullAlone(j, f, zs.handlers[zh].job, segments, ch);
    PullRuns(j, zs, zh, f, segments, ch);
  }

  /** What the serial run's client wants now is the request whose fate the step seals. */
  lemma SealedIsWanted(j: Job, s: State, h: nat, ch: Choice)
    requires CanStep(j, s, h, ch) && !Quietly(j, s, h)
    ensures var x := s.sessions[s.handlers[h].job];
            Wants(j, Settled(j, x, PcAt(s, x.cur), PcAt(s, x.tail)).sender) == Some(s.handlers[h].req)
  {
  }

  /** The requests of handlers that seal something are of the kind their phase says. */
  lemma SealedKind(j: Job, s: State, h: nat, ch: Choice)
    requires CanStep(j, s, h, ch) && !Quietly(j, s, h)
    ensures var g := s.handlers[h];
            && (g.pc.Checking? <==> g.req.Start?) && (g.pc.Writing? ==> g.req.Write?) && (g.pc.Pulling? ==> g.req.Pull?)
            && (g.pc.Locked? ==> g.req.Write? || g.req.End?) && g.pc in {Checking, InTable, Locked, Writing, Pulling}
  {
  }

  /** A write that is under way, or about to be refused, is of an operation whose files are all there. */
  lemma SealedFiles(j: Job, s: State, h: nat, ch: Choice)
    requires CanStep(j, s, h, ch) && FilesBefore(j, s, h) && s.handlers[h].pc in {Locked, Writing}
    ensures Held(s.files, j, |j.names|)
    ensures s.handlers[h].pc.Writing? ==> s.handlers[h].req.Write? && Accepts(j.sizes, s.handlers[h].req.chunk)
  {
  }

  lemma Seal(j: Job, s: State, h: nat, ch: Choice, zs: State, zh: nat, f: Effect) returns (chs: seq<Choice>, g: Effect)
    requires Counterpart(j, s, h, ch, zs, zh, f) && FilesBefore(j, s, h) && !Quietly(j, s, h)
    ensures Sealed(j, s, h, ch, zs, zh, f, chs, g)
  {
    SealedKind(j, s, h, ch);
    match s.handlers[h].pc {
      case Checking => chs, g := SealStart(j, s, h, ch, zs, zh, f);
      case InTable => chs, g := SealUnknown(j, s, h, ch, zs, zh, f);
      case Pulling => chs, g := SealPull(j, s, h, ch, zs, zh, f, s.handlers[h].req.segments);
      case Writing =>
        SealedFiles(j, s, h, ch);
        chs, g := SealWrite(j, s, h, ch, zs, zh, f, s.handlers[h].req.chunk);
      case Locked =>
        SealedFiles(j, s, h, ch);
        if s.handlers[h].req.Write? {
          chs, g := SealRejected(j, s, h, ch, zs, zh, f, s.handlers[h].req.chunk);
        } else {
          chs, g := SealEnd(j, s, h, ch, zs, zh, f);
        }
    }
  }

  // ----------------------------------------------------------- one step, whole states

  /** The serial state changed at most at the handler's own job, and followed there. */
  lemma MatchesAfter(jobs: seq<Job>, files0: map<string, Bytes>, s: State, h: nat, ch: Choice, z: State, z': State)
    requires Inv(jobs, files0, s) && Enabled(jobs, s, Run(h, ch)) && Matches(jobs, s, z)
    requires var c := s.handlers[h].job;
             && |z'.sessions| == |z.sessions| && z'.sessions == z.sessions[c := z'.sessions[c]] && z'.table - {c} == z.table - {c}
             && Follows(jobs[c], s, h, StepOf(jobs[c], s, h, ch), z'.sessions[c], c in z'.table, z'.files)
    ensures Matches(jobs, Next(jobs, s, Run(h, ch)), z')
  {
    var c, s' := s.handlers[h].job, Next(jobs, s, Run(h, ch));
    forall d | 0 <= d < |jobs|
      ensures z'.sessions[d] == Settled(jobs[d], s'.sessions[d], PcAt(s', s'.sessions[d].cur), PcAt(s', s'.sessions[d].tail))
      ensures d in z'.table <==> SettledIn(PcAt(s', s'.sessions[d].cur), PcAt(s', s'.sessions[d].tail), d in s'.table)
    {
      if d == c {
        OwnPcs(jobs, s, h, StepOf(jobs[c], s, h, ch));
      } else {
        OthersLeaveAlone(jobs, files0, s, Run(h, ch), d);
        assert d in z'.table <==> d in z'.table - {c};
        assert d in z.table <==> d in z.table - {c};
      }
    }
  }

  lemma OwnPcs(jobs: seq<Job>, s: State, h: nat, f: Effect)
    requires h < |s.handlers| && s.handlers[h].job < |s.sessions|
    ensures var s' := Apply(s, h, f);
            && s'.sessions[s.handlers[h].job] == f.x
            && PcAt(s', f.x.cur) == PcAfter(s, h, f, f.x.cur) && PcAt(s', f.x.tail) == PcAfter(s, h, f, f.x.tail)
  {
  }

  /** What the invariants say about one step, in the terms used above. */
  lemma StepFacts(jobs: seq<Job>, files0: map<string, Bytes>, s: State, h: nat, ch: Choice)
    requires Inv(jobs, files0, s) && Enabled(jobs, s, Run(h, ch))
    ensures CanStep(jobs[s.handlers[h].job], s, h, ch) && FilesBefore(jobs[s.handlers[h].job], s, h)
  {
    assert HandlerInv(s, h) && SessionInv(jobs, s, s.handlers[h].job);
  }

  /** A quiet step leaves the serial run where it is. */
  lemma QuietStep(jobs: seq<Job>, files0: map<string, Bytes>, s: State, h: nat, ch: Choice, z: State)
    requires Inv(jobs, files0, s) && Enabled(jobs, s, Run(h, ch)) && Matches(jobs, s, z) && Quietly(jobs[s.handlers[h].job], s, h)
    ensures Matches(jobs, Next(jobs, s, Run(h, ch)), z)
  {
    var c := s.handlers[h].job;
    StepFacts(jobs, files0, s, h, ch);
    if s.sessions[c].cur == Some(h) { QuietCurStep(jobs[c], s, h, ch); } else { QuietTailStep(jobs[c], s, h, ch); }
    assert z.sessions == z.sessions[c := z.sessions[c]];
    MatchesAfter(jobs, files0, s, h, ch, z, z);
  }

  /** The same request, sent in the serial state. */
  lemma CounterpartNext(jobs: seq<Job>, s: State, h: nat, ch: Choice, z: State)
    requires h < |s.handlers| && s.handlers[h].job < |jobs| && CanStep(jobs[s.handlers[h].job], s, h, ch) && Matches(jobs, s, z) && Still(z)
    requires var c := s.handlers[h].job;
             && z.sessions[c].cur.None? && Wants(jobs[c], z.sessions[c].sender) == Some(s.handlers[h].req)
    ensures var c := s.handlers[h].job;
            && Enabled(jobs, z, Send(c))
            && Counterpart(jobs[c], s, h, ch, Next(jobs, z, Send(c)), |z.handlers|, FirstView(z, c, s.handlers[h].req))
  {
  }

  /** Any other step is one block of the serial run. */
  lemma SealingStep(jobs: seq<Job>, files0: map<string, Bytes>, s: State, h: nat, ch: Choice, z: State) returns (b: seq<Event>)
    requires Inv(jobs, files0, s) && Enabled(jobs, s, Run(h, ch)) && Matches(jobs, s, z) && !Quietly(jobs[s.handlers[h].job], s, h)
    requires Inv(jobs, files0, z) && Still(z)
    ensures IsBlock(jobs, z, b)
    ensures var z' := Exec(jobs, z, b); Inv(jobs, files0, z') && Still(z') && Matches(jobs, Next(jobs, s, Run(h, ch)), z')
  {
    var c := s.handlers[h].job;
    var j, r := jobs[c], s.handlers[h].req;
    StepFacts(jobs, files0, s, h, ch);
    SealedIsWanted(j, s, h, ch);
    SealedKind(j, s, h, ch);
    StillSession(jobs, files0, z, c);
    CounterpartNext(jobs, s, h, ch, z);
    var chs, g := Seal(j, s, h, ch, Next(jobs, z, Send(c)), |z.handlers|, FirstView(z, c, r));
    b := Served(jobs, files0, z, c, chs, g);
    MatchesAfter(jobs, files0, s, h, ch, z, Exec(jobs, z, b));
  }

  /** A request just sent has not been decided on. */
  lemma SendSession(jobs: seq<Job>, s: State, c: nat, d: nat)
    requires |jobs| == |s.sessions| && Enabled(jobs, s, Send(c)) && d < |jobs| && SessionInv(jobs, s, d)
    ensures var s' := Next(jobs, s, Send(c));
            && Settled(jobs[d], s'.sessions[d], PcAt(s', s'.sessions[d].cur), PcAt(s', s'.sessions[d].tail))
               == Settled(jobs[d], s.sessions[d], PcAt(s, s.sessions[d].cur), PcAt(s, s.sessions[d].tail))
            && (SettledIn(PcAt(s', s'.sessions[d].cur), PcAt(s', s'.sessions[d].tail), d in s'.table) <==>
                SettledIn(PcAt(s, s.sessions[d].cur), PcAt(s, s.sessions[d].tail), d in s.table))
  {
    if d == c { SendOwnSession(jobs, s, c); }
  }

  lemma SendOwnSession(jobs: seq<Job>, s: State, c: nat)
    requires |jobs| == |s.sessions| && Enabled(jobs, s, Send(c)) && SessionInv(jobs, s, c)
    ensures var s' := Next(jobs, s, Send(c));
            && s'.sessions[c] == s.sessions[c].(cur := s'.sessions[c].cur)
            && PcAt(s', s'.sessions[c].cur) in {Checking, WantTable} && PcAt(s, s.sessions[c].cur) == Finished
            && PcAt(s', s'.sessions[c].tail) == PcAt(s, s.sessions[c].tail)
  {
  }

  lemma SendStep(jobs: seq<Job>, files0: map<string, Bytes>, s: State, c: nat, z: State)
    requires Inv(jobs, files0, s) && Enabled(jobs, s, Send(c)) && Matches(jobs, s, z)
    ensures Matches(jobs, Next(jobs, s, Send(c)), z)
  {
    forall d | 0 <= d < |jobs| ensures SessionInv(jobs, s, d) { }
    forall d: nat | d < |jobs|
      ensures var s' := Next(jobs, s, Send(c));
              && z.sessions[d] == Settled(jobs[d], s'.sessions[d], PcAt(s', s'.sessions[d].cur), PcAt(s', s'.sessions[d].tail))
              && (d in z.table <==> SettledIn(PcAt(s', s'.sessions[d].cur), PcAt(s', s'.sessions[d].tail), d in s'.table))
    {
      SendSession(jobs, s, c, d);
    }
  }

  // ----------------------------------------------------------------------- whole runs

  /** Requests served one by one. */
  predicate Blocks(jobs: seq<Job>, s: State, bs: seq<seq<Event>>)
    requires |jobs| == |s.sessions|
    decreases |bs|
  {
    bs == [] || (IsBlock(jobs, s, bs[0]) && Blocks(jobs, Exec(jobs, s, bs[0]), bs[1..]))
  }

  function Join(bs: seq<seq<Event>>): seq<Event> {
    if bs == [] then [] else bs[0] + Join(bs[1..])
  }

  lemma {:induction false} BlocksRun(jobs: seq<Job>, s: State, bs: seq<seq<Event>>)
    requires |jobs| == |s.sessions| && Blocks(jobs, s, bs)
    ensures Legal(jobs, s, Join(bs))
    decreases |bs|
  {
    if bs != [] {
      BlocksRun(jobs, Exec(jobs, s, bs[0]), bs[1..]);
      ExecConcat(jobs, s, bs[0], Join(bs[1..]));
    }
  }

  /** One more step of the interleaved run, none or one more block of the serial one. */
  lemma Follow(jobs: seq<Job>, files0: map<string, Bytes>, s: State, e: Event, z: State) returns (bs: seq<seq<Event>>, z': State)
    requires Inv(jobs, files0, s) && Enabled(jobs, s, e) && Matches(jobs, s, z) && Inv(jobs, files0, z) && Still(z)
    ensures Blocks(jobs, z, bs) && Legal(jobs, z, Join(bs)) && z' == Exec(jobs, z, Join(bs))
    ensures Inv(jobs, files0, z') && Still(z') && Matches(jobs, Next(jobs, s, e), z')
  {
    bs, z' := [], z;
    match e {
      case Send(c) => SendStep(jobs, files0, s, c, z);
      case Run(h, ch) =>
        if Quietly(jobs[s.handlers[h].job], s, h) {
          QuietStep(jobs, files0, s, h, ch, z);
        } else {
          var b := SealingStep(jobs, files0, s, h, ch, z);
          bs, z' := [b], Exec(jobs, z, b);
          assert [b][1..] == [] && Join([b]) == b + Join([]) && b + [] == b;
        }
    }
  }

  lemma {:induction false} JoinConcat(a: seq<seq<Event>>, b: seq<seq<Event>>)
    ensures Join(a + b) == Join(a) + Join(b)
    decreases |a|
  {
    if a == [] {
      assert a + b == b;
    } else {
      assert (a + b)[0] == a[0] && (a + b)[1..] == a[1..] + b;
      JoinConcat(a[1..], b);
      assert a[0] + (Join(a[1..]) + Join(b)) == a[0] + Join(a[1..]) + Join(b);
    }
  }

  lemma {:induction false} BlocksConcat(jobs: seq<Job>, s: State, a: seq<seq<Event>>, b: seq<seq<Event>>)
    requires |jobs| == |s.sessions| && Blocks(jobs, s, a) && Legal(jobs, s, Join(a)) && Blocks(jobs, Exec(jobs, s, Join(a)), b)
    ensures Blocks(jobs, s, a + b)
    decreases |a|
  {
    if a == [] {
      assert a + b == b;
    } else {
      assert (a + b)[0] == a[0] && (a + b)[1..] == a[1..] + b;
      BlocksRun(jobs, Exec(jobs, s, a[0]), a[1..]);
      ExecConcat(jobs, s, a[0], Join(a[1..]));
      BlocksConcat(jobs, Exec(jobs, s, a[0]), a[1..], b);
    }
  }

  lemma {:induction false} RunSerialized(jobs: seq<Job>, files0: map<string, Bytes>, s: State, run: seq<Event>, z: State)
    returns (bs: seq<seq<Event>>, z': State)
    requires Inv(jobs, files0, s) && Legal(jobs, s, run) && Matches(jobs, s, z) && Inv(jobs, files0, z) && Still(z)
    ensures Blocks(jobs, z, bs) && Legal(jobs, z, Join(bs)) && z' == Exec(jobs, z, Join(bs))
    ensures Still(z') && Matches(jobs, Exec(jobs, s, run), z')
    decreases |run|
  {
    bs, z' := [], z;
    if run != [] {
      var first, z1 := Follow(jobs, files0, s, run[0], z);
      StepKeepsInv(jobs, files0, s, run[0]);
      var rest, z2 := RunSerialized(jobs, files0, Next(jobs, s, run[0]), run[1..], z1);
      BlocksConcat(jobs, z, first, rest);
      JoinConcat(first, rest);
      ExecConcat(jobs, z, Join(first), Join(rest));
      bs, z' := first + rest, z2;
    }
  }

  /**
   Serializability. For every run of any number of clients there is a run that
   serves the same requests one by one and ends with the same files, each
   client and operation where its sealed requests have taken it.
   */
  lemma Serializable(jobs: seq<Job>, files0: map<string, Bytes>, run: seq<Event>, s: State) returns (bs: seq<seq<Event>>, z: State)
    requires Reached(jobs, files0, run, s)
    ensures Blocks(jobs, Init(jobs, files0), bs) && Reached(jobs, files0, Join(bs), z) && Still(z)
    ensures Matches(jobs, s, z)
  {
    var init := Init(jobs, files0);
    InitInv(jobs, files0);
    assert Matches(jobs, init, init);
    bs, z := RunSerialized(jobs, files0, init, run, init);
  }

  /** Once everybody has returned, nothing tells the two runs apart: same files, same table, same outcome for every client. */
  lemma SerializableOutcome(jobs: seq<Job>, files0: map<string, Bytes>, run: seq<Event>, s: State) returns (bs: seq<seq<Event>>, z: State)
    requires Reached(jobs, files0, run, s) && Liveness.Quiet(s)
    ensures Blocks(jobs, Init(jobs, files0), bs) && Reached(jobs, files0, Join(bs), z)
    ensures z.files == s.files && z.table == s.table && z.sessions == s.sessions
  {
    bs, z := Serializable(jobs, files0, run, s);
    ReachedInv(jobs, files0, run, s);
    ReachedInv(jobs, files0, Join(bs), z);
    forall c | 0 <= c < |jobs| ensures z.sessions[c] == s.sessions[c] && (c in z.table <==> c in s.table) {
      QuietSession(jobs, files0, s, c);
    }
    forall c ensures c in z.table <==> c in s.table { }
  }

  lemma QuietSession(jobs: seq<Job>, files0: map<string, Bytes>, s: State, c: nat)
    requires Inv(jobs, files0, s) && Liveness.Quiet(s) && c < |jobs|
    ensures var x := s.sessions[c];
            && Settled(jobs[c], x, PcAt(s, x.cur), PcAt(s, x.tail)) == x
            && (SettledIn(PcAt(s, x.cur), PcAt(s, x.tail), c in s.table) <==> c in s.table)
  {
    assert SessionInv(jobs, s, c);
  }
}
