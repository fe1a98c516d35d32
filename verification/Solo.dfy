/**
 A handler nobody interferes with: what its phases amount to when they run in
 one go, from the first to the last.
 */
module Solo {
  import opened Codes
  import opened Transfer
  import opened Sender
  import opened Protocol
  import opened Invariant

  /** Handler `h` alone takes what it sees from `f` to `g`, the environment choosing `chs`. */
  predicate Alone(j: Job, s: State, h: nat, f: Effect, chs: seq<Choice>, g: Effect)
    requires h < |s.handlers| && s.handlers[h].job < |s.sessions| && WellFormed(j)
    decreases |chs|
  {
    if chs == [] then f == g
    else Allowed(j, Apply(s, h, f), h, chs[0]) && Alone(j, s, h, StepOf(j, Apply(s, h, f), h, chs[0]), chs[1..], g)
  }

  function EventsOf(h: nat, chs: seq<Choice>): seq<Event> {
    if chs == [] then [] else [Run(h, chs[0])] + EventsOf(h, chs[1..])
  }

  lemma {:induction false} AloneRuns(jobs: seq<Job>, s: State, h: nat, f: Effect, chs: seq<Choice>, g: Effect)
    requires |jobs| == |s.sessions| && h < |s.handlers| && s.handlers[h].job < |jobs|
    requires WellFormed(jobs[s.handlers[h].job]) && Alone(jobs[s.handlers[h].job], s, h, f, chs, g)
    ensures Legal(jobs, Apply(s, h, f), EventsOf(h, chs))
    ensures Exec(jobs, Apply(s, h, f), EventsOf(h, chs)) == Apply(s, h, g)
    decreases |chs|
  {
    if chs != [] {
      var f' := StepOf(jobs[s.handlers[h].job], Apply(s, h, f), h, chs[0]);
      assert Next(jobs, Apply(s, h, f), Run(h, chs[0])) == Apply(s, h, f');
      AloneRuns(jobs, s, h, f', chs[1..], g);
      assert EventsOf(h, chs)[1..] == EventsOf(h, chs[1..]);
    }
  }

  lemma OneMore(j: Job, s: State, h: nat, f: Effect, ch: Choice, chs: seq<Choice>, g: Effect)
    requires h < |s.handlers| && s.handlers[h].job < |s.sessions| && WellFormed(j)
    requires Allowed(j, Apply(s, h, f), h, ch) && Alone(j, s, h, StepOf(j, Apply(s, h, f), h, ch), chs, g)
    ensures Alone(j, s, h, f, [ch] + chs, g)
  {
    assert ([ch] + chs)[1..] == chs;
  }

  /** Lookup: three free mutexes on the way to the operation's, or the reply that it is unknown. */
  lemma LookUp(j: Job, s: State, h: nat, f: Effect, chs: seq<Choice>, g: Effect)
    requires h < |s.handlers| && s.handlers[h].job < |s.sessions| && WellFormed(j) && !s.handlers[h].req.Pull?
    requires f.pc.WantTable? && f.tableLock.None? && f.x.lock.None? && s.handlers[h].job in f.table
    requires Alone(j, s, h, f.(pc := Locked, x := f.x.(lock := Some(h))), chs, g)
    ensures Alone(j, s, h, f, [Normal] + ([Normal] + ([Normal] + chs)), g)
  {
    var f1 := f.(pc := InTable, tableLock := Some(h));
    var f2 := f.(pc := WantOp);
    OneMore(j, s, h, f2, Normal, chs, g);
    OneMore(j, s, h, f1, Normal, [Normal] + chs, g);
    OneMore(j, s, h, f, Normal, [Normal] + ([Normal] + chs), g);
  }

  /** The write handler from the moment it has the operation: two phases if the chunk is accepted, else the clean-up. */
  lemma WriteLocked(j: Job, s: State, h: nat, f: Effect, k: Chunk, result: int)
    requires h < |s.handlers| && s.handlers[h].job < |s.sessions| && WellFormed(j) && s.handlers[h].req == Write(k)
    requires f.pc.Locked? && f.x.lock == Some(h) && f.x.tail.None? && f.x.closes == 0 && f.tableLock.None?
    requires Held(f.files, j, |j.names|) && -1 <= result <= |k.data| && (!Storable(k) ==> result == -1)
    ensures Alone(j, s, h, f, WriteChoices(j, k, result), WriteAlone(j, f, s.handlers[h].job, k, result))
  {
    var g := WriteAlone(j, f, s.handlers[h].job, k, result);
    if Accepts(j.sizes, k) {
      var f1 := f.(x := Reply(j, f.x, SUCCESS, 0, Some(h)).(acked := f.x.acked + 1), pc := Writing);
      OneMore(j, s, h, f1, Wrote(result), [], g);
      OneMore(j, s, h, f, Normal, [Wrote(result)], g);
      assert [Wrote(result)] + [] == [Wrote(result)];
    } else {
      CleanUp(j, s, h, f.(pc := ErrWantTable), g);
      OneMore(j, s, h, f, Normal, [Normal] + ([Normal] + [Normal]), g);
    }
  }

  lemma CleanUp(j: Job, s: State, h: nat, f: Effect, g: Effect)
    requires h < |s.handlers| && s.handlers[h].job < |s.sessions| && WellFormed(j)
    requires f.pc.ErrWantTable? && f.tableLock.None? && (s.handlers[h].req.Write? || f.x.lock.None?)
    requires g == Effect(Reply(j, f.x, ERR_IO, 0, None).(lock := None), Finished, f.table - {s.handlers[h].job}, None, f.files)
    ensures Alone(j, s, h, f, [Normal] + ([Normal] + [Normal]), g)
  {
    var f1 := f.(pc := ErrInTable, tableLock := Some(h));
    var f2 := f.(pc := ErrReply, table := f.table - {s.handlers[h].job});
    OneMore(j, s, h, f2, Normal, [], g);
    assert [Normal] + [] == [Normal];
    OneMore(j, s, h, f1, Normal, [Normal], g);
    OneMore(j, s, h, f, Normal, [Normal] + [Normal], g);
  }

  function WriteChoices(j: Job, k: Chunk, result: int): seq<Choice> {
    [Normal] + if Accepts(j.sizes, k) then [Wrote(result)] else [Normal] + ([Normal] + [Normal])
  }

  /** Where a write handler alone with operation `c` ends up when pwrite returns `result`. */
  function WriteAlone(j: Job, f: Effect, c: nat, k: Chunk, result: int): Effect
    requires -1 <= result <= |k.data| && WellFormed(j) && Held(f.files, j, |j.names|)
  {
    if !Accepts(j.sizes, k) then Effect(Reply(j, f.x, ERR_IO, 0, None).(lock := None), Finished, f.table - {c}, None, f.files)
    else
      var p := PathOf(j, k.file);
      var y := Reply(j, f.x, SUCCESS, 0, None).(acked := f.x.acked + 1, lock := None);
      Effect(if result == |k.data| then y else y.(error := ERR_IO, failed := true), Finished, f.table, None,
             f.files[p := PWrite(f.files[p], k.offset, k.data[..Max(result, 0)])])
  }

  /** The end handler from the moment it has the operation: replies, then cleans up in one of two orders. */
  lemma EndLocked(j: Job, s: State, h: nat, f: Effect, status: int)
    requires h < |s.handlers| && s.handlers[h].job < |s.sessions| && WellFormed(j) && s.handlers[h].req.End?
    requires f.pc.Locked? && f.x.lock == Some(h) && f.x.tail.None? && f.tableLock.None?
    ensures Alone(j, s, h, f, EndChoices(f.x.error, status), EndAlone(j, f, s.handlers[h].job, status))
  {
    var g := EndAlone(j, f, s.handlers[h].job, status);
    EndReplies(j, s, h, f, status);
    if f.x.error != SUCCESS {
      EndFailed(j, s, h, EndReplied(j, f, h, status), g);
      OneMore(j, s, h, f, After(status), [Normal] + [Normal], g);
    } else {
      EndUnlocked(j, s, h, EndReplied(j, f, h, status), g);
      OneMore(j, s, h, f, After(status), [Normal] + ([Normal] + [Normal]), g);
    }
  }

  /** The reply of migrate_end has gone out, its operation is still locked. */
  function EndReplied(j: Job, f: Effect, h: nat, status: int): Effect {
    var y := f.x.(closes := f.x.closes + 1);
    if f.x.error != SUCCESS then f.(x := Reply(j, y, f.x.error, 0, Some(h)), pc := EndErrWantTable)
    else f.(x := Reply(j, y, if status == 0 then SUCCESS else ERR_USER, status, Some(h)).(after := Some(status)), pc := EndUnlock)
  }

  lemma EndReplies(j: Job, s: State, h: nat, f: Effect, status: int)
    requires h < |s.handlers| && s.handlers[h].job < |s.sessions| && WellFormed(j) && s.handlers[h].req.End? && f.pc.Locked?
    ensures Allowed(j, Apply(s, h, f), h, After(status))
    ensures StepOf(j, Apply(s, h, f), h, After(status)) == EndReplied(j, f, h, status)
  {
  }

  lemma EndFailed(j: Job, s: State, h: nat, f: Effect, g: Effect)
    requires h < |s.handlers| && s.handlers[h].job < |s.sessions| && WellFormed(j)
    requires f.pc.EndErrWantTable? && f.tableLock.None?
    requires g == Effect(f.x.(lock := None, tail := None), Finished, f.table - {s.handlers[h].job}, None, f.files)
    ensures Alone(j, s, h, f, [Normal] + [Normal], g)
  {
    var f1 := f.(pc := EndErrInTable, tableLock := Some(h));
    OneMore(j, s, h, f1, Normal, [], g);
    assert [Normal] + [] == [Normal];
    OneMore(j, s, h, f, Normal, [Normal], g);
  }

  lemma EndUnlocked(j: Job, s: State, h: nat, f: Effect, g: Effect)
    requires h < |s.handlers| && s.handlers[h].job < |s.sessions| && WellFormed(j)
    requires f.pc.EndUnlock? && f.tableLock.None?
    requires g == Effect(f.x.(lock := None, tail := None), Finished, f.table - {s.handlers[h].job}, None, f.files)
    ensures Alone(j, s, h, f, [Normal] + ([Normal] + [Normal]), g)
  {
    var f1 := f.(x := f.x.(lock := None), pc := EndWantTable);
    var f2 := f1.(pc := EndInTable, tableLock := Some(h));
    OneMore(j, s, h, f2, Normal, [], g);
    assert [Normal] + [] == [Normal];
    OneMore(j, s, h, f1, Normal, [Normal], g);
    OneMore(j, s, h, f, Normal, [Normal] + [Normal], g);
  }

  function EndChoices(error: int, status: int): seq<Choice> {
    [After(status)] + if error != SUCCESS then [Normal] + [Normal] else [Normal] + ([Normal] + [Normal])
  }

  function EndAlone(j: Job, f: Effect, c: nat, status: int): Effect {
    var ret := if f.x.error != SUCCESS then f.x.error else if status == 0 then SUCCESS else ERR_USER;
    var y := Reply(j, f.x.(closes := f.x.closes + 1), ret, if f.x.error != SUCCESS then 0 else status, None);
    Effect(y.(lock := None, after := if f.x.error != SUCCESS then f.x.after else Some(status)), Finished, f.table - {c}, None, f.files)
  }

  // ------------------------------------------------------ whole handlers, alone

  /** The lookup of an identifier that is not in the table. */
  lemma UnknownRuns(j: Job, s: State, h: nat, f: Effect)
    requires h < |s.handlers| && s.handlers[h].job < |s.sessions| && WellFormed(j)
    requires f.pc.WantTable? && f.tableLock.None? && s.handlers[h].job !in f.table
    ensures Alone(j, s, h, f, [Normal] + [Normal],
                  Effect(Reply(j, f.x, ERR_INVALID_OPID, 0, f.x.tail), Finished, f.table, None, f.files))
  {
    var g := Effect(Reply(j, f.x, ERR_INVALID_OPID, 0, f.x.tail), Finished, f.table, None, f.files);
    OneMore(j, s, h, f.(pc := InTable, tableLock := Some(h)), Normal, [], g);
    assert [Normal] + [] == [Normal];
    OneMore(j, s, h, f, Normal, [Normal], g);
  }

  lemma LockForgotten(j: Job, f: Effect, c: nat, k: Chunk, result: int, h: nat)
    requires -1 <= result <= |k.data| && WellFormed(j) && Held(f.files, j, |j.names|) && f.pc.WantTable? && f.x.lock.None?
    ensures WriteAlone(j, f.(pc := Locked, x := f.x.(lock := Some(h))), c, k, result) == WriteAlone(j, f, c, k, result)
  {
  }

  lemma WriteRuns(j: Job, s: State, h: nat, f: Effect, k: Chunk, result: int)
    requires h < |s.handlers| && s.handlers[h].job < |s.sessions| && WellFormed(j) && s.handlers[h].req == Write(k)
    requires f.pc.WantTable? && f.tableLock.None? && f.x.lock.None? && f.x.tail.None? && f.x.closes == 0
    requires s.handlers[h].job in f.table && Held(f.files, j, |j.names|)
    requires -1 <= result <= |k.data| && (!Storable(k) ==> result == -1)
    ensures Alone(j, s, h, f, [Normal] + ([Normal] + ([Normal] + WriteChoices(j, k, result))),
                  WriteAlone(j, f, s.handlers[h].job, k, result))
  {
    var locked := f.(pc := Locked, x := f.x.(lock := Some(h)));
    WriteLocked(j, s, h, locked, k, result);
    LockForgotten(j, f, s.handlers[h].job, k, result, h);
    LookUp(j, s, h, f, WriteChoices(j, k, result), WriteAlone(j, f, s.handlers[h].job, k, result));
  }

  lemma EndLockForgotten(j: Job, f: Effect, c: nat, status: int, h: nat)
    requires f.pc.WantTable? && f.x.lock.None?
    ensures EndAlone(j, f.(pc := Locked, x := f.x.(lock := Some(h))), c, status) == EndAlone(j, f, c, status)
  {
  }

  lemma EndRuns(j: Job, s: State, h: nat, f: Effect, status: int)
    requires h < |s.handlers| && s.handlers[h].job < |s.sessions| && WellFormed(j) && s.handlers[h].req.End?
    requires f.pc.WantTable? && f.tableLock.None? && f.x.lock.None? && f.x.tail.None? && s.handlers[h].job in f.table
    ensures Alone(j, s, h, f, [Normal] + ([Normal] + ([Normal] + EndChoices(f.x.error, status))),
                  EndAlone(j, f, s.handlers[h].job, status))
  {
    var locked := f.(pc := Locked, x := f.x.(lock := Some(h)));
    EndLocked(j, s, h, locked, status);
    EndLockForgotten(j, f, s.handlers[h].job, status, h);
    LookUp(j, s, h, f, EndChoices(f.x.error, status), EndAlone(j, f, s.handlers[h].job, status));
  }

  /** Where a pull handler alone with operation `c` ends up when its transfer goes as `ch` says. */
  function PullAlone(j: Job, f: Effect, c: nat, segments: seq<Bytes>, ch: Choice): Effect
    requires WellFormed(j) && PullCan(j, segments, ch)
  {
    var n := |j.names|;
    if ch.ShortPull? then
      Effect(Reply(j, f.x, ERR_MIGRATION, 0, None).(short := true), Finished, f.table, None, Put(f.files, j, n, ch.data))
    else if ch.PullFails? then
      Effect(Reply(j, f.x, ERR_IO, 0, None).(lock := None), Finished, f.table - {c}, None, Put(f.files, j, n, ch.data))
    else
      Effect(Reply(j, f.x, SUCCESS, 0, None).(acked := f.x.acked + 1), Finished, f.table, None,
             Put(f.files, j, n, Pulled(j.sizes, segments)))
  }

  predicate PullCan(j: Job, segments: seq<Bytes>, ch: Choice) {
    match ch
    case Normal => |j.sizes| == |j.names| && |Flatten(segments)| == Sum(j.sizes)
    case ShortPull(d) => |d| == |j.names| == |j.sizes| && forall i :: 0 <= i < |d| ==> |d[i]| <= j.sizes[i]
    case PullFails(d) => |d| == |j.names| == |j.sizes| && forall i :: 0 <= i < |d| ==> |d[i]| <= j.sizes[i]
    case _ => false
  }

  function PullChoices(ch: Choice): seq<Choice> {
    [Normal] + ([Normal] + ([ch] + if ch.PullFails? then [Normal] + ([Normal] + [Normal]) else []))
  }

  lemma PullRuns(j: Job, s: State, h: nat, f: Effect, segments: seq<Bytes>, ch: Choice)
    requires h < |s.handlers| && s.handlers[h].job < |s.sessions| && WellFormed(j) && s.handlers[h].req == Pull(segments)
    requires f.pc.WantTable? && f.tableLock.None? && f.x.lock.None? && s.handlers[h].job in f.table && PullCan(j, segments, ch)
    ensures Alone(j, s, h, f, PullChoices(ch), PullAlone(j, f, s.handlers[h].job, segments, ch))
  {
    var g := PullAlone(j, f, s.handlers[h].job, segments, ch);
    var tail := if ch.PullFails? then [Normal] + ([Normal] + [Normal]) else [];
    PullTransfers(j, s, h, f.(pc := Pulling), segments, ch, g);
    OneMore(j, s, h, f.(pc := InTable, tableLock := Some(h)), Normal, [ch] + tail, g);
    OneMore(j, s, h, f, Normal, [Normal] + ([ch] + tail), g);
  }

  lemma PullTransfers(j: Job, s: State, h: nat, f: Effect, segments: seq<Bytes>, ch: Choice, g: Effect)
    requires h < |s.handlers| && s.handlers[h].job < |s.sessions| && WellFormed(j) && s.handlers[h].req == Pull(segments)
    requires f.pc.Pulling? && f.tableLock.None? && f.x.lock.None? && PullCan(j, segments, ch)
    requires g == PullAlone(j, f, s.handlers[h].job, segments, ch)
    ensures Alone(j, s, h, f, [ch] + if ch.PullFails? then [Normal] + ([Normal] + [Normal]) else [], g)
  {
    if ch.PullFails? {
      CleanUp(j, s, h, f.(pc := ErrWantTable, files := Put(f.files, j, |j.names|, ch.data)), g);
      OneMore(j, s, h, f, ch, [Normal] + ([Normal] + [Normal]), g);
    } else {
      OneMore(j, s, h, f, ch, [], g);
    }
  }

  /** An accepted start alone. */
  function StartAlone(j: Job, f: Effect, c: nat): Effect {
    var n := |j.names|;
    Effect(Reply(j, f.x.(created := n, before := Some(0)), SUCCESS, 0, None).(started := true), Finished, f.table + {c}, None,
           Put(f.files, j, n, Blank(n)))
  }

  lemma StartRuns(j: Job, s: State, h: nat, f: Effect)
    requires h < |s.handlers| && s.handlers[h].job < |s.sessions| && WellFormed(j)
    requires f.pc.Checking? && f.tableLock.None? && !Blocked(j, f.files)
    ensures Alone(j, s, h, f, [Normal] + ([Normal] + ([Normal] + [Normal])), StartAlone(j, f, s.handlers[h].job))
  {
    var n, g := |j.names|, StartAlone(j, f, s.handlers[h].job);
    var f1 := f.(x := f.x.(created := n, before := Some(0)), pc := StartWantTable, files := Put(f.files, j, n, Blank(n)));
    var f2 := f1.(pc := StartInTable, tableLock := Some(h));
    var f3 := f1.(pc := StartReply, table := f.table + {s.handlers[h].job});
    OneMore(j, s, h, f3, Normal, [], g);
    assert [Normal] + [] == [Normal];
    OneMore(j, s, h, f2, Normal, [Normal], g);
    OneMore(j, s, h, f1, Normal, [Normal] + [Normal], g);
    OneMore(j, s, h, f, Normal, [Normal] + ([Normal] + [Normal]), g);
  }
}
