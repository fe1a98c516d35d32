/**
 The migration protocol as a step system: any number of clients, each with at
 most one outstanding RPC, and the server's handlers running as threads over
 the operation table (one mutex) and the operations (one mutex each).

 Operation identifiers are fresh, so an operation is named after the job that
 started it. Its record outlives its removal from the table, which lets the
 model talk about handlers that still hold a pointer to it.
 */
module Protocol {
  import opened Codes
  import opened Transfer
  import opened Sender

  /** Where a handler stands. */
  datatype Pc =
    // migrate_start
    | Checking | StartWantTable | StartInTable | StartReply
    // lookup, shared by migrate_write, migrate_mmap and migrate_end
    | WantTable | InTable | WantOp | Locked
    // migrate_write: acknowledged, chunk not written yet
    | Writing
    // migrate_mmap: segments mapped, transfer not done; takes no operation mutex
    | Pulling
    // error clean-up of migrate_write and migrate_mmap: erase, then reply
    | ErrWantTable | ErrInTable | ErrReply
    // migrate_end after its reply: erase under the operation mutex on error, after releasing it otherwise
    | EndErrWantTable | EndErrInTable | EndUnlock | EndWantTable | EndInTable
    | Finished

  datatype Handler = Handler(job: nat, req: Request, pc: Pc)

  /**
   One client and the operation it started. `cur` is the outstanding RPC.
   `tail`, `started`, `acked`, `failed` and `short` are history: the handler
   that has replied but not returned, whether migrate_start succeeded, the
   number of transfer requests answered SUCCESS, whether a pwrite stored less
   than its chunk, whether a bulk transfer was short.
   */
  datatype Session = Session(
    sender: Sender, cur: Option<nat>,
    created: nat, error: int, lock: Option<nat>, closes: nat,
    tail: Option<nat>, started: bool, acked: nat, failed: bool, short: bool,
    before: Option<int>, after: Option<int>)

  datatype State = State(
    table: set<nat>, tableLock: Option<nat>,
    files: map<string, Bytes>,
    sessions: seq<Session>, handlers: seq<Handler>)

  /** What the environment decides in a step. */
  datatype Choice =
    | Normal
    | Refuse(ret: int, status: int)  // unknown class, a target that exists as a directory or under
                                     // another name, or a before-callback that returns non-zero
    | OpenFails(at: nat)             // open of file number `at` fails
    | Wrote(result: int)             // return value of pwrite
    | After(status: int)             // value of the after-callback, 0 when there is none
    | ShortPull(data: seq<Bytes>)    // fewer bytes than declared arrived
    | PullFails(data: seq<Bytes>)    // ftruncate, mmap or msync failed

  datatype Event = Send(client: nat) | Run(handler: nat, choice: Choice)

  // ------------------------------------------------------------------ file names

  function PathOf(j: Job, i: nat): string
    requires i < |j.names|
  {
    j.root + j.names[i]
  }

  predicate WellFormed(j: Job) {
    && |j.sizes| == |j.names|
    && (forall i, k :: 0 <= i < k < |j.names| ==> j.names[i] != j.names[k])
    && (j.work.Bulk? ==> j.sizes == Sizes(j.work.sources))
    && (j.work.Chunked? ==> forall k <- j.work.plan :: Sendable(k))
  }

  lemma PathsDistinct(j: Job, i: nat, k: nat)
    requires WellFormed(j) && i < |j.names| && k < |j.names| && i != k
    ensures PathOf(j, i) != PathOf(j, k)
  {
    var p, q := PathOf(j, i), PathOf(j, k);
    assert p[|j.root|..] == j.names[i] && q[|j.root|..] == j.names[k];
  }

  /** Some target exists already. */
  predicate Blocked(j: Job, files: map<string, Bytes>) {
    exists i :: 0 <= i < |j.names| && PathOf(j, i) in files
  }

  /** The first `n` files of the job given the contents `c`. */
  function Put(files: map<string, Bytes>, j: Job, n: nat, c: seq<Bytes>): map<string, Bytes>
    requires n <= |j.names| && n <= |c|
  {
    if n == 0 then files else Put(files, j, n - 1, c)[PathOf(j, n - 1) := c[n - 1]]
  }

  lemma {:induction false} PutFrame(files: map<string, Bytes>, j: Job, n: nat, c: seq<Bytes>, p: string)
    requires n <= |j.names| && n <= |c|
    requires forall i :: 0 <= i < n ==> PathOf(j, i) != p
    ensures p in Put(files, j, n, c) <==> p in files
    ensures p in files ==> Put(files, j, n, c)[p] == files[p]
  {
    if n > 0 {
      PutFrame(files, j, n - 1, c, p);
      assert PathOf(j, n - 1) != p;
    }
  }

  lemma {:induction false} PutAt(files: map<string, Bytes>, j: Job, n: nat, c: seq<Bytes>, i: nat)
    requires WellFormed(j) && i < n <= |j.names| && n <= |c|
    ensures PathOf(j, i) in Put(files, j, n, c) && Put(files, j, n, c)[PathOf(j, i)] == c[i]
  {
    if i < n - 1 {
      PutAt(files, j, n - 1, c, i);
      PathsDistinct(j, i, n - 1);
    }
  }

  // ----------------------------------------------------------------------- steps

  function Fresh(): Session {
    Session(Idle, None, 0, SUCCESS, None, 0, None, false, 0, false, false, None, None)
  }

  function Init(jobs: seq<Job>, files: map<string, Bytes>): State {
    State({}, None, files, seq(|jobs|, _ => Fresh()), [])
  }

  predicate HoldsTable(pc: Pc) {
    pc in {StartInTable, InTable, ErrInTable, EndErrInTable, EndInTable}
  }

  predicate WantsTable(pc: Pc) {
    pc in {StartWantTable, WantTable, ErrWantTable, EndErrWantTable, EndWantTable}
  }

  function Granted(pc: Pc): Pc
    requires WantsTable(pc)
  {
    match pc
    case StartWantTable => StartInTable
    case WantTable => InTable
    case ErrWantTable => ErrInTable
    case EndErrWantTable => EndErrInTable
    case EndWantTable => EndInTable
  }

  /** The part of the state one step of a handler can touch. */
  datatype Effect = Effect(x: Session, pc: Pc, table: set<nat>, tableLock: Option<nat>, files: map<string, Bytes>)

  /** The client gets its reply; the handler goes on as `tail`, or not at all. */
  function Reply(j: Job, x: Session, ret: int, status: int, tail: Option<nat>): Session {
    x.(sender := OnReply(j, x.sender, ret, status), cur := None, tail := tail)
  }

  predicate Allowed(j: Job, s: State, h: nat, ch: Choice)
    requires h < |s.handlers| && s.handlers[h].job < |s.sessions| && WellFormed(j)
  {
    var g := s.handlers[h];
    var x := s.sessions[g.job];
    if WantsTable(g.pc) then s.tableLock.None? && ch == Normal
    else match g.pc
      case Checking =>
        (match ch
         case Normal => true
         case Refuse(ret, st) => (ret in {ERR_UNKNOWN_CLASS, ERR_FILE_EXISTS} && st == 1) || (ret == ERR_USER && st != 0 && !Blocked(j, s.files))
         case OpenFails(k) => k < |j.names| && !Blocked(j, s.files)
         case _ => false)
      case WantOp => x.lock.None? && ch == Normal
      case Locked => if g.req.Write? then ch == Normal else ch.After?
      case Writing =>
        && ch.Wrote? && g.req.Write? && -1 <= ch.result <= |g.req.chunk.data|
        && (!Storable(g.req.chunk) ==> ch.result == -1)
      case Pulling =>
        (match ch
         case Normal => g.req.Pull? && |Flatten(g.req.segments)| == Sum(j.sizes)
         case ShortPull(d) => |d| == |j.names| && forall i :: 0 <= i < |d| ==> |d[i]| <= j.sizes[i]
         case PullFails(d) => |d| == |j.names| && forall i :: 0 <= i < |d| ==> |d[i]| <= j.sizes[i]
         case _ => false)
      case Finished => false
      case _ => ch == Normal
  }

  /** One step of handler `h`, working for job `c`. */
  function StepOf(j: Job, s: State, h: nat, ch: Choice): Effect
    requires h < |s.handlers| && s.handlers[h].job < |s.sessions| && WellFormed(j)
    requires Allowed(j, s, h, ch)
  {
    var g := s.handlers[h];
    var c := g.job;
    var x := s.sessions[c];
    var n := |j.names|;
    var e := Effect(x, g.pc, s.table, s.tableLock, s.files);
    if WantsTable(g.pc) then e.(pc := Granted(g.pc), tableLock := Some(h))
    else match g.pc
      case Checking =>
        if ch.Refuse? then
          e.(x := Reply(j, x, ch.ret, ch.status, None).(before := if ch.ret == ERR_USER then Some(ch.status) else None),
             pc := Finished)
        else if Blocked(j, s.files) then e.(x := Reply(j, x, ERR_FILE_EXISTS, 1, None), pc := Finished)
        else if ch.OpenFails? then
          e.(x := Reply(j, x, ERR_IO, 0, None).(created := ch.at, before := Some(0)), pc := Finished, files := Put(s.files, j, ch.at, Blank(n)))
        else e.(x := x.(created := n, before := Some(0)), pc := StartWantTable, files := Put(s.files, j, n, Blank(n)))
      case StartInTable => e.(pc := StartReply, table := s.table + {c}, tableLock := None)
      case StartReply => e.(x := Reply(j, x, SUCCESS, 0, None).(started := true), pc := Finished)
      case InTable =>
        if c !in s.table then e.(x := Reply(j, x, ERR_INVALID_OPID, 0, x.tail), pc := Finished, tableLock := None)
        else e.(pc := if g.req.Pull? then Pulling else WantOp, tableLock := None)
      case WantOp => e.(x := x.(lock := Some(h)), pc := Locked)
      case Locked =>
        if g.req.Write? then
          if Accepts(j.sizes, g.req.chunk) then
            e.(x := Reply(j, x, SUCCESS, 0, Some(h)).(acked := x.acked + 1), pc := Writing)
          else e.(pc := ErrWantTable)
        else
          var y := x.(closes := x.closes + 1);
          if x.error != SUCCESS then e.(x := Reply(j, y, x.error, 0, Some(h)), pc := EndErrWantTable)
          else
            e.(x := Reply(j, y, if ch.status == 0 then SUCCESS else ERR_USER, ch.status, Some(h)).(after := Some(ch.status)),
               pc := EndUnlock)
      case Writing =>
        var k := g.req.chunk;
        var y := x.(lock := None, tail := None);
        if x.closes > 0 || k.file >= n || PathOf(j, k.file) !in s.files then
          e.(x := y.(error := ERR_IO, failed := true), pc := Finished)  // not an open descriptor
        else
          var p := PathOf(j, k.file);
          e.(x := if ch.result == |k.data| then y else y.(error := ERR_IO, failed := true),
             pc := Finished,
             files := s.files[p := PWrite(s.files[p], k.offset, k.data[..Max(ch.result, 0)])])
      case Pulling =>
        if ch.ShortPull? then
          e.(x := Reply(j, x, ERR_MIGRATION, 0, None).(short := true), pc := Finished, files := Put(s.files, j, n, ch.data))
        else if ch.PullFails? then e.(pc := ErrWantTable, files := Put(s.files, j, n, ch.data))
        else
          e.(x := Reply(j, x, SUCCESS, 0, None).(acked := x.acked + 1), pc := Finished,
             files := Put(s.files, j, n, Pulled(j.sizes, g.req.segments)))
      case ErrInTable => e.(pc := ErrReply, table := s.table - {c}, tableLock := None)
      case ErrReply => e.(x := Reply(j, x, ERR_IO, 0, None).(lock := if g.req.Write? then None else x.lock), pc := Finished)
      case EndErrInTable => e.(x := x.(lock := None, tail := None), pc := Finished, table := s.table - {c}, tableLock := None)
      case EndUnlock => e.(x := x.(lock := None), pc := EndWantTable)
      case EndInTable => e.(x := x.(tail := None), pc := Finished, table := s.table - {c}, tableLock := None)
      case _ => e
  }

  /** The state once handler `h` has had effect `f`. */
  function Apply(s: State, h: nat, f: Effect): State
    requires h < |s.handlers| && s.handlers[h].job < |s.sessions|
  {
    State(f.table, f.tableLock, f.files, s.sessions[s.handlers[h].job := f.x], s.handlers[h := s.handlers[h].(pc := f.pc)])
  }

  predicate Enabled(jobs: seq<Job>, s: State, e: Event)
    requires |s.sessions| == |jobs|
  {
    match e
    case Send(c) => c < |jobs| && s.sessions[c].cur.None? && Wants(jobs[c], s.sessions[c].sender).Some?
    case Run(h, ch) =>
      && h < |s.handlers|
      && s.handlers[h].job < |jobs|
      && WellFormed(jobs[s.handlers[h].job])
      && Allowed(jobs[s.handlers[h].job], s, h, ch)
  }

  function Next(jobs: seq<Job>, s: State, e: Event): (s': State)
    requires |s.sessions| == |jobs| && Enabled(jobs, s, e)
    ensures |s'.sessions| == |jobs|
  {
    match e
    case Send(c) =>
      var r := Wants(jobs[c], s.sessions[c].sender).value;
      s.(sessions := s.sessions[c := s.sessions[c].(cur := Some(|s.handlers|))],
         handlers := s.handlers + [Handler(c, r, if r.Start? then Checking else WantTable)])
    case Run(h, ch) =>
      Apply(s, h, StepOf(jobs[s.handlers[h].job], s, h, ch))
  }

  /** A run: events that are enabled one after the other. */
  predicate Legal(jobs: seq<Job>, s: State, run: seq<Event>)
    requires |s.sessions| == |jobs|
    decreases |run|
  {
    run == [] || (Enabled(jobs, s, run[0]) && Legal(jobs, Next(jobs, s, run[0]), run[1..]))
  }

  function Exec(jobs: seq<Job>, s: State, run: seq<Event>): (s': State)
    requires |s.sessions| == |jobs| && Legal(jobs, s, run)
    ensures |s'.sessions| == |jobs|
    decreases |run|
  {
    if run == [] then s else Exec(jobs, Next(jobs, s, run[0]), run[1..])
  }

  lemma {:induction false} ExecConcat(jobs: seq<Job>, s: State, a: seq<Event>, b: seq<Event>)
    requires |jobs| == |s.sessions| && Legal(jobs, s, a) && Legal(jobs, Exec(jobs, s, a), b)
    ensures Legal(jobs, s, a + b) && Exec(jobs, s, a + b) == Exec(jobs, Exec(jobs, s, a), b)
    decreases |a|
  {
    if a == [] {
      assert a + b == b;
    } else {
      assert (a + b)[0] == a[0] && (a + b)[1..] == a[1..] + b;
      ExecConcat(jobs, Next(jobs, s, a[0]), a[1..], b);
    }
  }
}
