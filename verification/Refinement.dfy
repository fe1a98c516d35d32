/**
 The provider's methods refine the protocol. A provider state and a protocol
 state in which no handler is at work are related when they agree on the
 operations, on the contents of files and on their modes. From related states,
 whatever a method of the provider does to a request, the protocol can do by
 running one handler alone, to the same reply and a related state.
 */
module Refinement {
  import opened Codes
  import opened Transfer
  import opened Paths
  import opened Sender
  import opened Protocol
  import opened Invariant
  import opened Preservation
  import opened Solo
  import opened Provider
  import FileTree
  import Registry

  type Tree = FileTree.Tree

  /** What a start request tells the provider about the fileset. */
  function InfoOf(j: Job, key: Registry.ClassKey): Registry.FilesetInfo {
    Registry.FilesetInfo(key, j.root, j.names)
  }

  predicate OpMatches(j: Job, key: Registry.ClassKey, error: int, op: Operation) {
    op.info == InfoOf(j, key) && op.sizes == j.sizes && op.modes == j.modes && op.error == error
  }

  predicate TableMatches(jobs: seq<Job>, keys: seq<Registry.ClassKey>, xs: seq<Session>, table: set<nat>, ops: map<nat, Operation>)
    requires |jobs| == |keys| == |xs|
  {
    table == ops.Keys && forall c <- table :: c < |jobs| && OpMatches(jobs[c], keys[c], xs[c].error, ops[c])
  }

  /** Every file the protocol knows of is in the tree, under one name. */
  predicate FilesMatch(files: map<string, Bytes>, t: Tree) {
    && (forall n <- files :: !EndsInSlash(n) && FileTree.IsFile(t, Components(n)) && t[Components(n)].data == files[n])
    && (forall n, m :: n in files && m in files && Components(n) == Components(m) ==> n == m)
  }

  /** The files of a job carry the modes it declared, position by position. */
  predicate ModesOf(j: Job, t: Tree) {
    |j.modes| == |j.names| &&
    forall i: nat :: i < |j.names| ==>
                       FileTree.IsFile(t, Components(PathOf(j, i))) && t[Components(PathOf(j, i))].mode == j.modes[i]
  }

  predicate ModesMatch(jobs: seq<Job>, xs: seq<Session>, t: Tree)
    requires |jobs| == |xs|
  {
    forall c :: 0 <= c < |jobs| && xs[c].started ==> ModesOf(jobs[c], t)
  }

  predicate Related(jobs: seq<Job>, keys: seq<Registry.ClassKey>, xs: seq<Session>, table: set<nat>, files: map<string, Bytes>, p: Server)
    requires |jobs| == |keys| == |xs|
  {
    && InOrder(p)
    && TableMatches(jobs, keys, xs, table, p.table)
    && FilesMatch(files, p.tree)
    && ModesMatch(jobs, xs, p.tree)
  }

  /** Nobody is at work. */
  predicate Still(s: State) {
    s.tableLock.None? && forall h :: 0 <= h < |s.handlers| ==> s.handlers[h].pc.Finished?
  }

  ghost predicate Serial(jobs: seq<Job>, keys: seq<Registry.ClassKey>, files0: map<string, Bytes>, s: State, p: Server) {
    && |jobs| == |keys| == |s.sessions|
    && Inv(jobs, files0, s) && Still(s)
    && Related(jobs, keys, s.sessions, s.table, s.files, p)
  }

  // ------------------------------------------------------------ one request alone

  /** A client's request and the whole of its handler, from a still state to a still state. */
  predicate IsBlock(jobs: seq<Job>, s: State, b: seq<Event>)
    requires |jobs| == |s.sessions|
  {
    && Still(s) && b != [] && b[0].Send? && (forall e <- b[1..] :: e.Run? && e.handler == |s.handlers|)
    && Legal(jobs, s, b) && Still(Exec(jobs, s, b))
  }

  lemma {:induction false} EventsAreOfHandler(h: nat, chs: seq<Choice>)
    ensures forall e <- EventsOf(h, chs) :: e.Run? && e.handler == h
    decreases |chs|
  {
    if chs != [] { EventsAreOfHandler(h, chs[1..]); }
  }

  /** In a still state a client has no outstanding request, and an operation in the table is ready for the next one. */
  lemma StillSession(jobs: seq<Job>, files0: map<string, Bytes>, s: State, c: nat)
    requires Inv(jobs, files0, s) && Still(s) && c < |jobs|
    ensures var j, x := jobs[c], s.sessions[c];
            && WellFormed(j) && x.cur.None? && x.tail.None? && x.lock.None?
            && (x.sender.Idle? ==> c !in s.table && !x.started)
            && (x.sender.Ready? ==>
                  x.closes == 0 && x.created == |j.names| && x.started && x.after.None? && Held(s.files, j, |j.names|))
  {
    assert SessionInv(jobs, s, c);
  }

  /** What the handler of client `c`'s next request sees first. */
  function FirstView(s: State, c: nat, r: Request): Effect
    requires c < |s.sessions|
  {
    Effect(s.sessions[c].(cur := Some(|s.handlers|)), if r.Start? then Checking else WantTable, s.table, s.tableLock, s.files)
  }

  /** A request sent in a still state, and its handler alone. */
  lemma Served(jobs: seq<Job>, files0: map<string, Bytes>, s: State, c: nat, chs: seq<Choice>, g: Effect) returns (run: seq<Event>)
    requires Inv(jobs, files0, s) && Still(s) && c < |jobs| && Enabled(jobs, s, Send(c)) && WellFormed(jobs[c])
    requires Alone(jobs[c], Next(jobs, s, Send(c)), |s.handlers|, FirstView(s, c, Wants(jobs[c], s.sessions[c].sender).value), chs, g)
    requires g.pc.Finished? && g.tableLock.None?
    ensures IsBlock(jobs, s, run)
    ensures var s' := Exec(jobs, s, run);
            && Inv(jobs, files0, s') && Still(s')
            && s'.sessions == s.sessions[c := g.x] && s'.table == g.table && s'.files == g.files
  {
    var h, s1 := |s.handlers|, Next(jobs, s, Send(c));
    var f := FirstView(s, c, Wants(jobs[c], s.sessions[c].sender).value);
    assert Apply(s1, h, f) == s1;
    AloneRuns(jobs, s1, h, f, chs, g);
    EventsAreOfHandler(h, chs);
    run := [Send(c)] + EventsOf(h, chs);
    assert run[1..] == EventsOf(h, chs);
    RunsKeepInv(jobs, files0, s, run);
    assert s1.sessions[c := g.x] == s.sessions[c := g.x];
  }

  /** The same, when its effect leads to a related state. */
  lemma ServedRelated(jobs: seq<Job>, keys: seq<Registry.ClassKey>, files0: map<string, Bytes>, s: State, p': Server, c: nat, chs: seq<Choice>, g: Effect)
    returns (run: seq<Event>)
    requires |jobs| == |keys| == |s.sessions| && Inv(jobs, files0, s) && Still(s) && c < |jobs| && Enabled(jobs, s, Send(c)) && WellFormed(jobs[c])
    requires Alone(jobs[c], Next(jobs, s, Send(c)), |s.handlers|, FirstView(s, c, Wants(jobs[c], s.sessions[c].sender).value), chs, g)
    requires g.pc.Finished? && g.tableLock.None? && Related(jobs, keys, s.sessions[c := g.x], g.table, g.files, p')
    ensures Legal(jobs, s, run)
    ensures var s' := Exec(jobs, s, run); Serial(jobs, keys, files0, s', p') && s'.sessions == s.sessions[c := g.x]
  {
    run := Served(jobs, files0, s, c, chs, g);
  }

  /** The client got reply `ret`, `status`; the other sessions are what they were. */
  predicate Answered(jobs: seq<Job>, xs: seq<Session>, xs': seq<Session>, c: nat, ret: int, status: int)
    requires c < |jobs| == |xs|
  {
    |xs'| == |xs| && xs' == xs[c := xs'[c]] && xs'[c].sender == OnReply(jobs[c], xs[c].sender, ret, status)
  }

  /** Nothing changed except what the client was told. */
  lemma UnchangedRelated(jobs: seq<Job>, keys: seq<Registry.ClassKey>, s: State, c: nat, x: Session, p: Server, p': Server)
    requires |jobs| == |keys| == |s.sessions| && c < |jobs| && Related(jobs, keys, s.sessions, s.table, s.files, p) && InOrder(p')
    requires p'.table == p.table && p'.tree == p.tree && x.error == s.sessions[c].error && x.started == s.sessions[c].started
    ensures Related(jobs, keys, s.sessions[c := x], s.table, s.files, p')
  {
  }

  // --------------------------------------------------------------- files and trees

  /** The protocol's contents of a job's files are the provider's. */
  lemma SameView(j: Job, key: Registry.ClassKey, files: map<string, Bytes>, t: Tree)
    requires FilesMatch(files, t) && Held(files, j, |j.names|)
    ensures AllThere(InfoOf(j, key), t) && Contents(files, j, |j.names|) == ContentsOf(InfoOf(j, key), t)
  {
    forall i: nat | i < |j.names| ensures FileTree.IsFile(t, Target(InfoOf(j, key), i)) && t[Target(InfoOf(j, key), i)].data == files[PathOf(j, i)] {
      assert PathOf(j, i) in files;
    }
  }

  /** New contents for the files of one job, on both sides. */
  lemma FilesFollow(j: Job, key: Registry.ClassKey, files: map<string, Bytes>, files': map<string, Bytes>, t: Tree, u: Tree)
    requires FilesMatch(files, t) && AllThere(InfoOf(j, key), u) && OnlyTouches(InfoOf(j, key), t, u)
    requires files'.Keys == files.Keys && Held(files, j, |j.names|) && Held(files', j, |j.names|)
    requires Contents(files', j, |j.names|) == ContentsOf(InfoOf(j, key), u)
    requires forall n <- files :: (forall i :: 0 <= i < |j.names| ==> PathOf(j, i) != n) ==> files'[n] == files[n]
    ensures FilesMatch(files', u)
  {
    var info := InfoOf(j, key);
    forall n | n in files' ensures FileTree.IsFile(u, Components(n)) && u[Components(n)].data == files'[n] {
      assert n in files;
      if i: nat :| i < |j.names| && PathOf(j, i) == n {
        assert Contents(files', j, |j.names|)[i] == files'[n];
        assert Target(info, i) == Components(n);
      } else {
        forall i: nat | i < |info.files| ensures Target(info, i) != Components(n) {
          assert PathOf(j, i) in files;
          assert Target(info, i) == Components(PathOf(j, i));
        }
      }
    }
  }

  lemma ModesFollow(jobs: seq<Job>, xs: seq<Session>, info: Registry.FilesetInfo, t: Tree, u: Tree)
    requires |jobs| == |xs| && ModesMatch(jobs, xs, t) && OnlyTouches(info, t, u)
    ensures ModesMatch(jobs, xs, u)
  {
    forall c | 0 <= c < |jobs| && xs[c].started ensures ModesOf(jobs[c], u) {
      forall i: nat | i < |jobs[c].names|
        ensures FileTree.IsFile(u, Components(PathOf(jobs[c], i))) && u[Components(PathOf(jobs[c], i))].mode == jobs[c].modes[i]
      {
        assert FileTree.IsFile(t, Components(PathOf(jobs[c], i)));
      }
    }
  }

  /** The first `n` targets of a start, created empty on both sides. */
  lemma FilesCreated(j: Job, key: Registry.ClassKey, files: map<string, Bytes>, t: Tree, u: Tree, n: nat)
    requires WellFormed(j) && n <= |j.names| == |j.modes| && FilesMatch(files, t)
    requires CreatedTo(InfoOf(j, key), j.modes, t, u, n) && DistinctTargets(InfoOf(j, key))
    ensures FilesMatch(Put(files, j, n, Blank(|j.names|)), u)
    decreases n
  {
    var info := InfoOf(j, key);
    var files' := Put(files, j, n, Blank(|j.names|));
    forall m | m in files'
      ensures m in files || exists i: nat :: i < n && PathOf(j, i) == m
      ensures (exists i: nat :: i < n && PathOf(j, i) == m) ==> files'[m] == []
      ensures !(exists i: nat :: i < n && PathOf(j, i) == m) ==> m in files && files'[m] == files[m]
    {
      if i: nat :| i < n && PathOf(j, i) == m { PutAt(files, j, n, Blank(|j.names|), i); }
      else { PutFrame(files, j, n, Blank(|j.names|), m); }
    }
    forall m | m in files' ensures !EndsInSlash(m) && FileTree.IsFile(u, Components(m)) && u[Components(m)].data == files'[m] {
      if i: nat :| i < n && PathOf(j, i) == m {
        assert Target(info, i) == Components(m);
      }
    }
    forall i: nat | i < n && i < |j.names| ensures Components(PathOf(j, i)) !in t {
      assert Target(info, i) == Components(PathOf(j, i));
    }
    forall i: nat, k: nat | i < k < |j.names| ensures Components(PathOf(j, i)) != Components(PathOf(j, k)) {
      assert Target(info, i) != Target(info, k);
    }
    forall m, l | m in files' && l in files' && Components(m) == Components(l) ensures m == l {
      assert m in files || IsNew(j, n, m);
      assert l in files || IsNew(j, n, l);
      NamesApart(j, files, t, n, m, l);
    }
  }

  predicate IsNew(j: Job, n: nat, m: string) {
    exists i: nat :: i < n && i < |j.names| && PathOf(j, i) == m
  }

  /** Names of different files lead to different places: the old ones are in the tree, the new ones were not. */
  lemma NamesApart(j: Job, files: map<string, Bytes>, t: Tree, n: nat, m: string, l: string)
    requires FilesMatch(files, t)
    requires forall i: nat :: i < n && i < |j.names| ==> Components(PathOf(j, i)) !in t
    requires forall i: nat, k: nat :: i < k < |j.names| ==> Components(PathOf(j, i)) != Components(PathOf(j, k))
    requires (m in files || IsNew(j, n, m)) && (l in files || IsNew(j, n, l)) && Components(m) == Components(l)
    ensures m == l
  {
    if IsNew(j, n, m) {
      var i: nat :| i < n && i < |j.names| && PathOf(j, i) == m;
      assert l !in files;
      var k: nat :| k < n && k < |j.names| && PathOf(j, k) == l;
    } else {
      assert l in files;
    }
  }

  // ---------------------------------------------------------------- migrate_start

  /** The mutual agreement after an accepted start. */
  lemma StartRelated(jobs: seq<Job>, keys: seq<Registry.ClassKey>, s: State, c: nat, x: Session, p: Server, p': Server)
    requires |jobs| == |keys| == |s.sessions| && c < |jobs| && Related(jobs, keys, s.sessions, s.table, s.files, p) && InOrder(p')
    requires var j := jobs[c];
             && WellFormed(j) && |j.modes| == |j.names| && DistinctTargets(InfoOf(j, keys[c])) && c !in s.table
             && exists status :: StartDone(p, p', c, InfoOf(j, keys[c]), j.sizes, j.modes, SUCCESS, status)
    requires x.error == SUCCESS
    ensures Related(jobs, keys, s.sessions[c := x], s.table + {c}, Put(s.files, jobs[c], |jobs[c].names|, Blank(|jobs[c].names|)), p')
  {
    FilesCreated(jobs[c], keys[c], s.files, p.tree, p'.tree, |jobs[c].names|);
    ModesStay(jobs, s.sessions, p.tree, p'.tree);
    ModesStarted(jobs, keys, s.sessions, c, x, p.tree, p'.tree);
    TableStarted(jobs, keys, s.sessions, s.table, p.table, c, x, p'.table[c]);
  }

  lemma ModesStarted(jobs: seq<Job>, keys: seq<Registry.ClassKey>, xs: seq<Session>, c: nat, x: Session, t: Tree, u: Tree)
    requires c < |jobs| == |xs| == |keys| && ModesMatch(jobs, xs, u) && |jobs[c].modes| == |jobs[c].names|
    requires CreatedTo(InfoOf(jobs[c], keys[c]), jobs[c].modes, t, u, |jobs[c].names|)
    ensures ModesMatch(jobs, xs[c := x], u)
  {
    var j := jobs[c];
    forall i: nat | i < |j.names|
      ensures FileTree.IsFile(u, Components(PathOf(j, i))) && u[Components(PathOf(j, i))].mode == j.modes[i]
    {
      assert Target(InfoOf(j, keys[c]), i) == Components(PathOf(j, i));
    }
  }

  lemma TableStarted(jobs: seq<Job>, keys: seq<Registry.ClassKey>, xs: seq<Session>, table: set<nat>, ops: map<nat, Operation>, c: nat, x: Session, op: Operation)
    requires |jobs| == |keys| == |xs| && TableMatches(jobs, keys, xs, table, ops) && c !in table && c < |jobs|
    requires OpMatches(jobs[c], keys[c], x.error, op)
    ensures TableMatches(jobs, keys, xs[c := x], table + {c}, ops[c := op])
  {
  }

  lemma ModesStay(jobs: seq<Job>, xs: seq<Session>, t: Tree, u: Tree)
    requires |jobs| == |xs| && ModesMatch(jobs, xs, t) && forall q <- t :: q in u && u[q] == t[q]
    ensures ModesMatch(jobs, xs, u)
  {
    forall c | 0 <= c < |jobs| && xs[c].started ensures ModesOf(jobs[c], u) {
      assert ModesOf(jobs[c], t);
    }
  }

  /** Nothing but directories and empty files was added by a start that failed while opening. */
  lemma FailedStartRelated(jobs: seq<Job>, keys: seq<Registry.ClassKey>, s: State, c: nat, x: Session, p: Server, p': Server, n: nat)
    requires |jobs| == |keys| == |s.sessions| && c < |jobs| && Related(jobs, keys, s.sessions, s.table, s.files, p) && InOrder(p')
    requires var j := jobs[c];
             && WellFormed(j) && n <= |j.names| == |j.modes| && DistinctTargets(InfoOf(j, keys[c]))
             && CreatedTo(InfoOf(j, keys[c]), j.modes, p.tree, p'.tree, n)
    requires c !in s.table && p'.table == p.table && !x.started
    ensures Related(jobs, keys, s.sessions[c := x], s.table, Put(s.files, jobs[c], n, Blank(|jobs[c].names|)), p')
  {
    FilesCreated(jobs[c], keys[c], s.files, p.tree, p'.tree, n);
    ModesStay(jobs, s.sessions, p.tree, p'.tree);
  }

  /** No target exists for the provider: none is blocked for the protocol. */
  lemma NotBlocked(j: Job, key: Registry.ClassKey, files: map<string, Bytes>, t: Tree)
    requires FilesMatch(files, t) && NoneExists(InfoOf(j, key), t)
    ensures !Blocked(j, files)
  {
    var info := InfoOf(j, key);
    forall i | 0 <= i < |j.names| ensures PathOf(j, i) !in files {
      assert !TargetExists(info, t, i);
    }
  }

  /** The effect of a start that ends with its first phase. */
  function StoppedStart(j: Job, x: Session, ch: Choice, files: map<string, Bytes>): Session
    requires ch.Refuse? || ch.OpenFails?
  {
    if ch.Refuse? then Reply(j, x, ch.ret, ch.status, None).(before := if ch.ret == ERR_USER then Some(ch.status) else None)
    else Reply(j, x, ERR_IO, 0, None).(created := ch.at, before := Some(0))
  }

  function StoppedEffect(j: Job, f: Effect, ch: Choice): Effect
    requires ch.Refuse? || (ch.OpenFails? && ch.at <= |j.names|)
  {
    Effect(StoppedStart(j, f.x, ch, f.files), Finished, f.table, None,
           if ch.Refuse? then f.files else Put(f.files, j, ch.at, Blank(|j.names|)))
  }

  lemma StopAlone(j: Job, s: State, h: nat, f: Effect, ch: Choice)
    requires h < |s.handlers| && s.handlers[h].job < |s.sessions| && WellFormed(j)
    requires f.pc.Checking? && f.tableLock.None? && (ch.Refuse? || ch.OpenFails?) && Allowed(j, Apply(s, h, f), h, ch)
    ensures Alone(j, s, h, f, [ch], StoppedEffect(j, f, ch))
  {
    if ch.Refuse? { RefuseStep(j, s, h, f, ch); } else { OpenFailsStep(j, s, h, f, ch); }
    OneMore(j, s, h, f, ch, [], StoppedEffect(j, f, ch));
    assert [ch] + [] == [ch];
  }

  lemma RefuseStep(j: Job, s: State, h: nat, f: Effect, ch: Choice)
    requires h < |s.handlers| && s.handlers[h].job < |s.sessions| && WellFormed(j)
    requires f.pc.Checking? && f.tableLock.None? && ch.Refuse? && Allowed(j, Apply(s, h, f), h, ch)
    ensures StepOf(j, Apply(s, h, f), h, ch) == StoppedEffect(j, f, ch)
  {
  }

  lemma OpenFailsStep(j: Job, s: State, h: nat, f: Effect, ch: Choice)
    requires h < |s.handlers| && s.handlers[h].job < |s.sessions| && WellFormed(j)
    requires f.pc.Checking? && f.tableLock.None? && ch.OpenFails? && Allowed(j, Apply(s, h, f), h, ch)
    ensures StepOf(j, Apply(s, h, f), h, ch) == StoppedEffect(j, f, ch)
  {
  }

  /** What a start needs to be comparable: distinct targets with a directory part, and as many modes as files. */
  predicate Startable(j: Job, key: Registry.ClassKey) {
    GoodTargets(InfoOf(j, key)) && |j.modes| == |j.names|
  }

  /** What the protocol remembers of the before-callback is what the provider's class returned, or 1 for a class without one. */
  predicate BeforeIs(x: Session, p: Server, info: Registry.FilesetInfo, ret: int) {
    if ret in {ERR_UNKNOWN_CLASS, ERR_FILE_EXISTS} then x.before.None?
    else
      && info.key in p.reg.table
      && match p.reg.table[info.key].before
         case None => x.before == Some(1)
         case Some(before) => x.before == Some(before(info))
  }

  /** migrate_start of the provider, as a run of the protocol. */
  lemma StartServed(jobs: seq<Job>, keys: seq<Registry.ClassKey>, files0: map<string, Bytes>, s: State, p: Server, p': Server,
                    c: nat, ret: int, status: int)
    returns (run: seq<Event>)
    requires Serial(jobs, keys, files0, s, p) && c < |jobs| && s.sessions[c].sender.Idle? && Startable(jobs[c], keys[c])
    requires InOrder(p') && StartDone(p, p', c, InfoOf(jobs[c], keys[c]), jobs[c].sizes, jobs[c].modes, ret, status)
    ensures Legal(jobs, s, run)
    ensures var s' := Exec(jobs, s, run);
            && Serial(jobs, keys, files0, s', p') && Answered(jobs, s.sessions, s'.sessions, c, ret, status)
            && BeforeIs(s'.sessions[c], p, InfoOf(jobs[c], keys[c]), ret)
  {
    StillSession(jobs, files0, s, c);
    if ret == SUCCESS {
      run := AcceptedStartServed(jobs, keys, files0, s, p, p', c, status);
    } else if ret == ERR_IO {
      run := FailedStartServed(jobs, keys, files0, s, p, p', c, status);
    } else {
      run := RefusedStartServed(jobs, keys, files0, s, p, p', c, ret, status);
    }
  }

  lemma AcceptedStartServed(jobs: seq<Job>, keys: seq<Registry.ClassKey>, files0: map<string, Bytes>, s: State, p: Server, p': Server,
                            c: nat, status: int)
    returns (run: seq<Event>)
    requires Serial(jobs, keys, files0, s, p) && c < |jobs| && s.sessions[c].sender.Idle? && Startable(jobs[c], keys[c])
    requires InOrder(p') && StartDone(p, p', c, InfoOf(jobs[c], keys[c]), jobs[c].sizes, jobs[c].modes, SUCCESS, status)
    ensures Legal(jobs, s, run)
    ensures var s' := Exec(jobs, s, run);
            && Serial(jobs, keys, files0, s', p') && Answered(jobs, s.sessions, s'.sessions, c, SUCCESS, status)
            && s'.sessions[c].before == Some(0)
  {
    StillSession(jobs, files0, s, c);
    var j := jobs[c];
    var f := FirstView(s, c, Start(j.root, j.names, j.sizes, j.modes));
    NotBlocked(j, keys[c], s.files, p.tree);
    StartRuns(j, Next(jobs, s, Send(c)), |s.handlers|, f);
    var g := StartAlone(j, f, c);
    run := Served(jobs, files0, s, c, [Normal] + ([Normal] + ([Normal] + [Normal])), g);
    NoErrorYet(jobs, files0, s, c);
    StartRelated(jobs, keys, s, c, g.x, p, p');
  }

  lemma NoErrorYet(jobs: seq<Job>, files0: map<string, Bytes>, s: State, c: nat)
    requires Inv(jobs, files0, s) && c < |jobs| && s.sessions[c].sender.Idle?
    ensures s.sessions[c].error == SUCCESS && !s.sessions[c].started
  {
    assert SessionInv(jobs, s, c);
  }

  lemma FailedStartServed(jobs: seq<Job>, keys: seq<Registry.ClassKey>, files0: map<string, Bytes>, s: State, p: Server, p': Server,
                          c: nat, status: int)
    returns (run: seq<Event>)
    requires Serial(jobs, keys, files0, s, p) && c < |jobs| && s.sessions[c].sender.Idle? && Startable(jobs[c], keys[c])
    requires InOrder(p') && StartDone(p, p', c, InfoOf(jobs[c], keys[c]), jobs[c].sizes, jobs[c].modes, ERR_IO, status)
    ensures Legal(jobs, s, run)
    ensures var s' := Exec(jobs, s, run);
            && Serial(jobs, keys, files0, s', p') && Answered(jobs, s.sessions, s'.sessions, c, ERR_IO, status)
            && s'.sessions[c].before == Some(0)
  {
    var n: nat :| n < |jobs[c].names| && CreatedTo(InfoOf(jobs[c], keys[c]), jobs[c].modes, p.tree, p'.tree, n);
    NotBlocked(jobs[c], keys[c], s.files, p.tree);
    run := StartFailedAt(jobs, keys, files0, s, p, p', c, n);
  }

  lemma StartFailedAt(jobs: seq<Job>, keys: seq<Registry.ClassKey>, files0: map<string, Bytes>, s: State, p: Server, p': Server, c: nat, n: nat)
    returns (run: seq<Event>)
    requires Serial(jobs, keys, files0, s, p) && c < |jobs| && s.sessions[c].sender.Idle? && Startable(jobs[c], keys[c])
    requires n < |jobs[c].names| && CreatedTo(InfoOf(jobs[c], keys[c]), jobs[c].modes, p.tree, p'.tree, n)
    requires InOrder(p') && p'.table == p.table && !Blocked(jobs[c], s.files)
    ensures Legal(jobs, s, run)
    ensures var s' := Exec(jobs, s, run);
            && Serial(jobs, keys, files0, s', p') && Answered(jobs, s.sessions, s'.sessions, c, ERR_IO, 0)
            && s'.sessions[c].before == Some(0)
  {
    StillSession(jobs, files0, s, c);
    var j := jobs[c];
    var f := FirstView(s, c, Start(j.root, j.names, j.sizes, j.modes));
    StopAlone(j, Next(jobs, s, Send(c)), |s.handlers|, f, OpenFails(n));
    var x := StoppedStart(j, f.x, OpenFails(n), f.files);
    FailedStartRelated(jobs, keys, s, c, x, p, p', n);
    run := ServedRelated(jobs, keys, files0, s, p', c, [OpenFails(n)], Effect(x, Finished, s.table, None, Put(s.files, j, n, Blank(|j.names|))));
  }

  lemma RefusedStartServed(jobs: seq<Job>, keys: seq<Registry.ClassKey>, files0: map<string, Bytes>, s: State, p: Server, p': Server,
                           c: nat, ret: int, status: int)
    returns (run: seq<Event>)
    requires Serial(jobs, keys, files0, s, p) && c < |jobs| && s.sessions[c].sender.Idle? && Startable(jobs[c], keys[c])
    requires InOrder(p') && StartDone(p, p', c, InfoOf(jobs[c], keys[c]), jobs[c].sizes, jobs[c].modes, ret, status)
    requires ret !in {SUCCESS, ERR_IO}
    ensures Legal(jobs, s, run)
    ensures var s' := Exec(jobs, s, run);
            && Serial(jobs, keys, files0, s', p') && Answered(jobs, s.sessions, s'.sessions, c, ret, status)
            && s'.sessions[c].before == if ret == ERR_USER then Some(status) else None
  {
    StillSession(jobs, files0, s, c);
    var j := jobs[c];
    var f := FirstView(s, c, Start(j.root, j.names, j.sizes, j.modes));
    if ret == ERR_USER { NotBlocked(j, keys[c], s.files, p.tree); }
    var ch := Refuse(ret, status);
    StopAlone(j, Next(jobs, s, Send(c)), |s.handlers|, f, ch);
    var x := StoppedStart(j, f.x, ch, f.files);
    UnchangedRelated(jobs, keys, s, c, x, p, p');
    run := ServedRelated(jobs, keys, files0, s, p', c, [ch], Effect(x, Finished, s.table, None, s.files));
  }

  // ----------------------------------------------------------- unknown identifiers

  /** A request for an operation that is no longer in the table changes nothing on either side. */
  lemma UnknownServed(jobs: seq<Job>, keys: seq<Registry.ClassKey>, files0: map<string, Bytes>, s: State, p: Server, p': Server, c: nat)
    returns (run: seq<Event>)
    requires Serial(jobs, keys, files0, s, p) && c < |jobs| && s.sessions[c].sender.Ready? && c !in s.table
    requires InOrder(p') && p'.table == p.table && p'.tree == p.tree
    ensures Legal(jobs, s, run)
    ensures var s' := Exec(jobs, s, run);
            && Serial(jobs, keys, files0, s', p') && Answered(jobs, s.sessions, s'.sessions, c, ERR_INVALID_OPID, 0)
            && s'.sessions[c].after == s.sessions[c].after
  {
    StillSession(jobs, files0, s, c);
    var j, r := jobs[c], Wants(jobs[c], s.sessions[c].sender).value;
    var f := FirstView(s, c, r);
    UnknownRuns(j, Next(jobs, s, Send(c)), |s.handlers|, f);
    var g := Effect(Reply(j, f.x, ERR_INVALID_OPID, 0, f.x.tail), Finished, f.table, None, f.files);
    UnchangedRelated(jobs, keys, s, c, g.x, p, p');
    run := ServedRelated(jobs, keys, files0, s, p', c, [Normal] + [Normal], g);
  }

  // ---------------------------------------------------------------- migrate_write

  /** The protocol's files after the chunk, against the provider's tree after it. */
  lemma WrittenFilesMatch(j: Job, key: Registry.ClassKey, files: map<string, Bytes>, t: Tree, u: Tree, op: Operation, op': Operation, k: Chunk, stored: int)
    requires WellFormed(j) && FilesMatch(files, t) && Held(files, j, |j.names|) && op.info == InfoOf(j, key)
    requires ChunkWritten(op, op', t, u, k, stored)
    ensures k.file < |j.names|
    ensures var q := PathOf(j, k.file); FilesMatch(files[q := PWrite(files[q], k.offset, k.data[..Max(stored, 0)])], u)
  {
    var q := PathOf(j, k.file);
    var files' := files[q := PWrite(files[q], k.offset, k.data[..Max(stored, 0)])];
    SameView(j, key, files, t);
    PwriteContents(files, j, k.file, files'[q]);
    FilesFollow(j, key, files, files', t, u);
  }

  /** The table after one operation took an error note, or left. */
  lemma TableNoted(jobs: seq<Job>, keys: seq<Registry.ClassKey>, xs: seq<Session>, table: set<nat>, ops: map<nat, Operation>, c: nat, x: Session, op: Operation)
    requires |jobs| == |keys| == |xs| && TableMatches(jobs, keys, xs, table, ops) && c in table && c < |jobs|
    requires OpMatches(jobs[c], keys[c], x.error, op)
    ensures TableMatches(jobs, keys, xs[c := x], table, ops[c := op])
    ensures TableMatches(jobs, keys, xs[c := x], table - {c}, ops - {c})
  {
  }

  lemma WriteServed(jobs: seq<Job>, keys: seq<Registry.ClassKey>, files0: map<string, Bytes>, s: State, p: Server, p': Server,
                    c: nat, k: Chunk, ret: int, stored: int)
    returns (run: seq<Event>)
    requires Serial(jobs, keys, files0, s, p) && c < |jobs| && Wants(jobs[c], s.sessions[c].sender) == Some(Write(k))
    requires InOrder(p') && WriteDone(p, p', c, k, ret, stored)
    ensures Legal(jobs, s, run)
    ensures var s' := Exec(jobs, s, run);
            Serial(jobs, keys, files0, s', p') && Answered(jobs, s.sessions, s'.sessions, c, ret, 0)
  {
    StillSession(jobs, files0, s, c);
    if c !in s.table {
      run := UnknownServed(jobs, keys, files0, s, p, p', c);
    } else if !Accepts(jobs[c].sizes, k) {
      run := RejectedWriteServed(jobs, keys, files0, s, p, p', c, k);
    } else {
      run := AcceptedWriteServed(jobs, keys, files0, s, p, p', c, k, stored);
    }
  }

  lemma RejectedWriteServed(jobs: seq<Job>, keys: seq<Registry.ClassKey>, files0: map<string, Bytes>, s: State, p: Server, p': Server, c: nat, k: Chunk)
    returns (run: seq<Event>)
    requires Serial(jobs, keys, files0, s, p) && c < |jobs| && Wants(jobs[c], s.sessions[c].sender) == Some(Write(k))
    requires c in s.table && !Accepts(jobs[c].sizes, k)
    requires InOrder(p') && p'.tree == p.tree && p'.table == p.table - {c}
    ensures Legal(jobs, s, run)
    ensures var s' := Exec(jobs, s, run);
            Serial(jobs, keys, files0, s', p') && Answered(jobs, s.sessions, s'.sessions, c, ERR_IO, 0)
  {
    StillSession(jobs, files0, s, c);
    var j := jobs[c];
    var f := FirstView(s, c, Write(k));
    WriteRuns(j, Next(jobs, s, Send(c)), |s.handlers|, f, k, -1);
    var g := WriteAlone(j, f, c, k, -1);
    LeftRelated(jobs, keys, s, p, p', c, g.x);
    run := ServedRelated(jobs, keys, files0, s, p', c, [Normal] + ([Normal] + ([Normal] + WriteChoices(j, k, -1))), g);
  }

  lemma AcceptedWriteServed(jobs: seq<Job>, keys: seq<Registry.ClassKey>, files0: map<string, Bytes>, s: State, p: Server, p': Server,
                            c: nat, k: Chunk, stored: int)
    returns (run: seq<Event>)
    requires Serial(jobs, keys, files0, s, p) && c < |jobs| && Wants(jobs[c], s.sessions[c].sender) == Some(Write(k))
    requires c in s.table && Accepts(jobs[c].sizes, k) && c in p.table && c in p'.table && p'.table == p.table[c := p'.table[c]]
    requires InOrder(p') && ChunkWritten(p.table[c], p'.table[c], p.tree, p'.tree, k, stored)
    ensures Legal(jobs, s, run)
    ensures var s' := Exec(jobs, s, run);
            Serial(jobs, keys, files0, s', p') && Answered(jobs, s.sessions, s'.sessions, c, SUCCESS, 0)
  {
    StillSession(jobs, files0, s, c);
    var j := jobs[c];
    var f := FirstView(s, c, Write(k));
    WriteRuns(j, Next(jobs, s, Send(c)), |s.handlers|, f, k, stored);
    var g := WriteAlone(j, f, c, k, stored);
    WriteRelated(jobs, keys, s, p, p', c, k, stored, g.x);
    run := ServedRelated(jobs, keys, files0, s, p', c, [Normal] + ([Normal] + ([Normal] + WriteChoices(j, k, stored))), g);
  }

  lemma WriteRelated(jobs: seq<Job>, keys: seq<Registry.ClassKey>, s: State, p: Server, p': Server, c: nat, k: Chunk, stored: int, x: Session)
    requires |jobs| == |keys| == |s.sessions| && c < |jobs| && WellFormed(jobs[c]) && Held(s.files, jobs[c], |jobs[c].names|)
    requires Related(jobs, keys, s.sessions, s.table, s.files, p) && InOrder(p')
    requires c in s.table && c in p.table && c in p'.table && p'.table == p.table[c := p'.table[c]]
    requires ChunkWritten(p.table[c], p'.table[c], p.tree, p'.tree, k, stored)
    requires x.started == s.sessions[c].started && x.error == p'.table[c].error
    ensures k.file < |jobs[c].names|
    ensures var q := PathOf(jobs[c], k.file);
            Related(jobs, keys, s.sessions[c := x], s.table,
                    s.files[q := PWrite(s.files[q], k.offset, k.data[..Max(stored, 0)])], p')
  {
    TableNoted(jobs, keys, s.sessions, s.table, p.table, c, x, p'.table[c]);
    WrittenFilesMatch(jobs[c], keys[c], s.files, p.tree, p'.tree, p.table[c], p'.table[c], k, stored);
    ModesFollow(jobs, s.sessions, p.table[c].info, p.tree, p'.tree);
    ModesOfOne(jobs, s.sessions, c, x, p'.tree);
  }

  /** Only whether a migration has started matters for modes. */
  lemma ModesOfOne(jobs: seq<Job>, xs: seq<Session>, c: nat, x: Session, t: Tree)
    requires c < |jobs| == |xs| && ModesMatch(jobs, xs, t) && x.started == xs[c].started
    ensures ModesMatch(jobs, xs[c := x], t)
  {
  }

  /** An operation left the table, and no file changed. */
  lemma LeftRelated(jobs: seq<Job>, keys: seq<Registry.ClassKey>, s: State, p: Server, p': Server, c: nat, x: Session)
    requires |jobs| == |keys| == |s.sessions| && c < |jobs| && Related(jobs, keys, s.sessions, s.table, s.files, p) && InOrder(p')
    requires c in s.table && p'.table == p.table - {c} && p'.tree == p.tree
    requires x.started == s.sessions[c].started && x.error == s.sessions[c].error
    ensures Related(jobs, keys, s.sessions[c := x], s.table - {c}, s.files, p')
  {
    TableNoted(jobs, keys, s.sessions, s.table, p.table, c, x, p.table[c]);
    ModesOfOne(jobs, s.sessions, c, x, p'.tree);
  }

  // ------------------------------------------------------------------ migrate_end

  /** What the protocol remembers of the after-callback is what the provider's class returned, or 0 for a class without one. */
  predicate AfterIs(x: Session, p': Server, info: Registry.FilesetInfo) {
    x.after.Some? ==>
      && info.key in p'.reg.table
      && match p'.reg.table[info.key].after
         case None => x.after == Some(0)
         case Some(after) => x.after == Some(after(info))
  }

  /** migrate_end of the provider, as a run of the protocol. */
  lemma EndServed(jobs: seq<Job>, keys: seq<Registry.ClassKey>, files0: map<string, Bytes>, s: State, p: Server, p': Server,
                  c: nat, ret: int, status: int)
    returns (run: seq<Event>)
    requires Serial(jobs, keys, files0, s, p) && c < |jobs| && Wants(jobs[c], s.sessions[c].sender) == Some(End)
    requires InOrder(p') && EndDone(p, p', c, ret, status)
    ensures Legal(jobs, s, run)
    ensures var s' := Exec(jobs, s, run);
            && Serial(jobs, keys, files0, s', p') && Answered(jobs, s.sessions, s'.sessions, c, ret, status)
            && AfterIs(s'.sessions[c], p', InfoOf(jobs[c], keys[c]))
  {
    StillSession(jobs, files0, s, c);
    if c !in s.table {
      run := UnknownServed(jobs, keys, files0, s, p, p', c);
    } else {
      run := KnownEndServed(jobs, keys, files0, s, p, p', c, ret, status);
    }
  }

  lemma KnownEndServed(jobs: seq<Job>, keys: seq<Registry.ClassKey>, files0: map<string, Bytes>, s: State, p: Server, p': Server,
                       c: nat, ret: int, status: int)
    returns (run: seq<Event>)
    requires Serial(jobs, keys, files0, s, p) && c < |jobs| && Wants(jobs[c], s.sessions[c].sender) == Some(End)
    requires c in s.table && InOrder(p') && EndDone(p, p', c, ret, status)
    ensures Legal(jobs, s, run)
    ensures var s' := Exec(jobs, s, run);
            && Serial(jobs, keys, files0, s', p') && Answered(jobs, s.sessions, s'.sessions, c, ret, status)
            && AfterIs(s'.sessions[c], p', InfoOf(jobs[c], keys[c]))
  {
    StillSession(jobs, files0, s, c);
    var j := jobs[c];
    var f := FirstView(s, c, End);
    EndRuns(j, Next(jobs, s, Send(c)), |s.handlers|, f, status);
    var g := EndAlone(j, f, c, status);
    EndEffect(j, keys[c], f, c, p, p', ret, status);
    LeftRelated(jobs, keys, s, p, p', c, g.x);
    run := ServedRelated(jobs, keys, files0, s, p', c, [Normal] + ([Normal] + ([Normal] + EndChoices(f.x.error, status))), g);
  }

  lemma EndEffect(j: Job, key: Registry.ClassKey, f: Effect, c: nat, p: Server, p': Server, ret: int, status: int)
    requires f.x.after.None? && c in p.table && OpMatches(j, key, f.x.error, p.table[c]) && EndDone(p, p', c, ret, status)
    ensures var g := EndAlone(j, f, c, status);
            && g.x.sender == OnReply(j, f.x.sender, ret, status) && AfterIs(g.x, p', InfoOf(j, key))
            && g.x.started == f.x.started && g.x.error == f.x.error && g.table == f.table - {c} && g.files == f.files
            && p'.table == p.table - {c} && p'.tree == p.tree
  {
  }

  // ----------------------------------------------------------------- migrate_mmap

  /** How the transfer went, for the protocol: the files hold what the provider's files hold now. */
  function PullOutcome(info: Registry.FilesetInfo, sizes: seq<nat>, u: Tree, refused: set<nat>, transferred: nat, synced: bool): Choice
    requires AllThere(info, u)
  {
    if !AllMapped(sizes, refused) then PullFails(ContentsOf(info, u))
    else if transferred != Sum(sizes) then ShortPull(ContentsOf(info, u))
    else if synced then Normal else PullFails(ContentsOf(info, u))
  }

  lemma StillBounded(jobs: seq<Job>, files0: map<string, Bytes>, s: State, c: nat)
    requires Inv(jobs, files0, s) && c < |jobs| && s.sessions[c].created == |jobs[c].names|
    ensures Held(s.files, jobs[c], |jobs[c].names|) && |jobs[c].names| == |jobs[c].sizes|
    ensures Bounded(jobs[c], Contents(s.files, jobs[c], |jobs[c].names|))
  {
    assert SessionInv(jobs, s, c);
  }

  /** A client exposes as many bytes as it has declared. */
  lemma ExposesAll(j: Job, x: Sender, segments: seq<Bytes>)
    requires WellFormed(j) && Wants(j, x) == Some(Pull(segments))
    ensures |Flatten(segments)| == Sum(j.sizes)
  {
    GatheredLength(j.work.sources);
  }

  /** The protocol allows what the provider's transfer did. */
  lemma OutcomeAllowed(j: Job, key: Registry.ClassKey, files: map<string, Bytes>, p: Server, p': Server, c: nat, segments: seq<Bytes>,
                       refused: set<nat>, transferred: nat, synced: bool, ret: int)
    requires |Flatten(segments)| == Sum(j.sizes)
    requires WellFormed(j) && Held(files, j, |j.names|) && Bounded(j, Contents(files, j, |j.names|)) && FilesMatch(files, p.tree)
    requires c in p.table && p.table[c].info == InfoOf(j, key) && p.table[c].sizes == j.sizes
    requires MmapDone(p, p', c, segments, refused, transferred, synced, ret)
    ensures var ch := PullOutcome(InfoOf(j, key), j.sizes, p'.tree, refused, transferred, synced);
            PullCan(j, segments, ch) && (ret == SUCCESS ==> ContentsOf(InfoOf(j, key), p'.tree) == Pulled(j.sizes, segments))
  {
    SameView(j, key, files, p.tree);
    var a, b := ContentsOf(InfoOf(j, key), p.tree), ContentsOf(InfoOf(j, key), p'.tree);
    forall i | 0 <= i < |b| ensures |b[i]| <= j.sizes[i] {
      assert |a[i]| <= j.sizes[i];
    }
  }

  lemma PutFollows(j: Job, key: Registry.ClassKey, files: map<string, Bytes>, t: Tree, u: Tree, d: seq<Bytes>)
    requires WellFormed(j) && FilesMatch(files, t) && Held(files, j, |j.names|)
    requires AllThere(InfoOf(j, key), u) && OnlyTouches(InfoOf(j, key), t, u) && d == ContentsOf(InfoOf(j, key), u)
    ensures FilesMatch(Put(files, j, |j.names|, d), u)
  {
    var n, files' := |j.names|, Put(files, j, |j.names|, d);
    PutContents(files, j, n, d);
    assert d[..n] == d;
    forall m ensures m in files' <==> m in files {
      if i: nat :| i < n && PathOf(j, i) == m { assert m in files'; } else { PutFrame(files, j, n, d, m); }
    }
    forall m | m in files && (forall i :: 0 <= i < n ==> PathOf(j, i) != m) ensures files'[m] == files[m] {
      PutFrame(files, j, n, d, m);
    }
    FilesFollow(j, key, files, files', t, u);
  }

  /** migrate_mmap of the provider, as a run of the protocol. */
  lemma PullServed(jobs: seq<Job>, keys: seq<Registry.ClassKey>, files0: map<string, Bytes>, s: State, p: Server, p': Server,
                   c: nat, segments: seq<Bytes>, refused: set<nat>, transferred: nat, synced: bool, ret: int)
    returns (run: seq<Event>)
    requires Serial(jobs, keys, files0, s, p) && c < |jobs| && Wants(jobs[c], s.sessions[c].sender) == Some(Pull(segments))
    requires InOrder(p') && MmapDone(p, p', c, segments, refused, transferred, synced, ret)
    ensures Legal(jobs, s, run)
    ensures var s' := Exec(jobs, s, run);
            Serial(jobs, keys, files0, s', p') && Answered(jobs, s.sessions, s'.sessions, c, ret, 0)
  {
    StillSession(jobs, files0, s, c);
    if c !in s.table {
      run := UnknownServed(jobs, keys, files0, s, p, p', c);
    } else {
      run := KnownPullServed(jobs, keys, files0, s, p, p', c, segments, refused, transferred, synced, ret);
    }
  }

  lemma KnownPullServed(jobs: seq<Job>, keys: seq<Registry.ClassKey>, files0: map<string, Bytes>, s: State, p: Server, p': Server,
                        c: nat, segments: seq<Bytes>, refused: set<nat>, transferred: nat, synced: bool, ret: int)
    returns (run: seq<Event>)
    requires Serial(jobs, keys, files0, s, p) && c < |jobs| && Wants(jobs[c], s.sessions[c].sender) == Some(Pull(segments))
    requires c in s.table && InOrder(p') && MmapDone(p, p', c, segments, refused, transferred, synced, ret)
    ensures Legal(jobs, s, run)
    ensures var s' := Exec(jobs, s, run);
            Serial(jobs, keys, files0, s', p') && Answered(jobs, s.sessions, s'.sessions, c, ret, 0)
  {
    StillSession(jobs, files0, s, c);
    StillBounded(jobs, files0, s, c);
    var j := jobs[c];
    var info := InfoOf(j, keys[c]);
    ExposesAll(j, s.sessions[c].sender, segments);
    OutcomeAllowed(j, keys[c], s.files, p, p', c, segments, refused, transferred, synced, ret);
    var ch := PullOutcome(info, j.sizes, p'.tree, refused, transferred, synced);
    var f := FirstView(s, c, Pull(segments));
    PullRuns(j, Next(jobs, s, Send(c)), |s.handlers|, f, segments, ch);
    var g := PullAlone(j, f, c, segments, ch);
    PullEffect(j, f, c, segments, info, p'.tree, refused, transferred, synced, ret);
    PullRelated(jobs, keys, s, p, p', c, segments, refused, transferred, synced, ret, g.x);
    run := ServedRelated(jobs, keys, files0, s, p', c, PullChoices(ch), g);
  }

  lemma PullEffect(j: Job, f: Effect, c: nat, segments: seq<Bytes>, info: Registry.FilesetInfo, u: Tree,
                   refused: set<nat>, transferred: nat, synced: bool, ret: int)
    requires WellFormed(j) && AllThere(info, u)
    requires ret == if !AllMapped(j.sizes, refused) then ERR_IO else if transferred != Sum(j.sizes) then ERR_MIGRATION else if !synced then ERR_IO else SUCCESS
    requires PullCan(j, segments, PullOutcome(info, j.sizes, u, refused, transferred, synced))
    requires ret == SUCCESS ==> ContentsOf(info, u) == Pulled(j.sizes, segments)
    requires f.x.lock.None? && |info.files| == |j.names|
    ensures PullAlone(j, f, c, segments, PullOutcome(info, j.sizes, u, refused, transferred, synced)).files == Put(f.files, j, |j.names|, ContentsOf(info, u))
    ensures var g := PullAlone(j, f, c, segments, PullOutcome(info, j.sizes, u, refused, transferred, synced));
            && g.x.sender == OnReply(j, f.x.sender, ret, 0) && g.x.started == f.x.started && g.x.error == f.x.error
            && g.table == (if ret == ERR_IO then f.table - {c} else f.table) && g.pc.Finished? && g.tableLock.None?
  {
  }

  lemma PullRelated(jobs: seq<Job>, keys: seq<Registry.ClassKey>, s: State, p: Server, p': Server, c: nat,
                    segments: seq<Bytes>, refused: set<nat>, transferred: nat, synced: bool, ret: int, x: Session)
    requires |jobs| == |keys| == |s.sessions| && c < |jobs| && WellFormed(jobs[c]) && Held(s.files, jobs[c], |jobs[c].names|)
    requires Related(jobs, keys, s.sessions, s.table, s.files, p) && InOrder(p')
    requires c in s.table && c in p.table && MmapDone(p, p', c, segments, refused, transferred, synced, ret)
    requires x.started == s.sessions[c].started && x.error == s.sessions[c].error
    ensures AllThere(InfoOf(jobs[c], keys[c]), p'.tree)
    ensures Related(jobs, keys, s.sessions[c := x], if ret == ERR_IO then s.table - {c} else s.table,
                    Put(s.files, jobs[c], |jobs[c].names|, ContentsOf(InfoOf(jobs[c], keys[c]), p'.tree)), p')
  {
    var info := InfoOf(jobs[c], keys[c]);
    TableNoted(jobs, keys, s.sessions, s.table, p.table, c, x, p.table[c]);
    assert p.table[c := p.table[c]] == p.table;
    PutFollows(jobs[c], keys[c], s.files, p.tree, p'.tree, ContentsOf(info, p'.tree));
    ModesFollow(jobs, s.sessions, info, p.tree, p'.tree);
    ModesOfOne(jobs, s.sessions, c, x, p'.tree);
  }
}
