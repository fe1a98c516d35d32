/**
 Histories of a provider that serves its requests one after the other, in any
 order among any number of clients, with classes registered and deregistered in
 between. Each of them is a run of the protocol, so what holds in every run
 holds for the provider's tree, its modes and its callbacks.
 */
module Histories {
  import opened Codes
  import opened Transfer
  import opened Paths
  import opened Sender
  import opened Protocol
  import opened Invariant
  import opened Provider
  import opened Refinement
  import FileTree
  import Registry
  import Safety
  import SourceRemoval
  import Walk

  /** One request of `client` served: the registry it met, the reply, and the provider's state afterwards. */
  datatype Call = Call(client: nat, reg: Registry.Classes, ret: int, status: int, next: Server)

  /** The provider's method for request `r` of client `c` took `p` to `p'`. */
  ghost predicate Handles(j: Job, key: Registry.ClassKey, r: Request, c: nat, p: Server, p': Server, ret: int, status: int)
    requires Startable(j, key)
  {
    InOrder(p') &&
    match r
    case Start(_, _, _, _) => StartDone(p, p', c, InfoOf(j, key), j.sizes, j.modes, ret, status)
    case Write(k) => status == 0 && exists stored :: WriteDone(p, p', c, k, ret, stored)
    case Pull(segments) =>
      status == 0 && exists refused: set<nat>, transferred: nat, synced: bool ::
        transferred <= |Flatten(segments)| && MmapDone(p, p', c, segments, refused, transferred, synced, ret)
    case End => EndDone(p, p', c, ret, status)
  }

  /** What the system decides while the provider serves a request: see the methods for what each is. */
  datatype Environment = Environment(refused: set<nat>, taken: int, transferred: nat, leftover: Bytes, synced: bool)

  /** The provider serving one request with the method meant for it: its calls are those of a history. */
  method Serve(v: Provider, ghost j: Job, key: Registry.ClassKey, c: nat, r: Request, env: Environment) returns (ret: int, status: int)
    requires v.Valid() && Startable(j, key) && |j.sizes| == |j.names|
    requires r.Pull? ==> env.transferred <= |Flatten(r.segments)|
    requires r.Start? ==> c !in v.table && r == Start(j.root, j.names, j.sizes, j.modes)
    modifies v, v.store
    ensures v.Valid() && Handles(j, key, r, c, old(v.Now()), v.Now(), ret, status)
  {
    match r {
      case Start(root, names, sizes, modes) =>
        ret, status := v.MigrateStart(c, Registry.FilesetInfo(key, root, names), sizes, modes, env.refused);
      case Write(k) =>
        ghost var stored;
        ret, stored := v.MigrateWrite(c, k, env.taken);
        status := 0;
      case Pull(segments) =>
        ret := v.MigrateMmap(c, segments, env.refused, env.transferred, env.leftover, env.synced);
        status := 0;
      case End =>
        ret, status := v.MigrateEnd(c);
    }
  }

  ghost predicate AllStartable(jobs: seq<Job>, keys: seq<Registry.ClassKey>) {
    |jobs| == |keys| && forall c :: 0 <= c < |jobs| ==> Startable(jobs[c], keys[c])
  }

  /** Clients in states `ss` make the calls `calls` to a provider in state `p`. */
  ghost predicate History(jobs: seq<Job>, keys: seq<Registry.ClassKey>, ss: seq<Sender>, p: Server, calls: seq<Call>)
    requires AllStartable(jobs, keys) && |ss| == |jobs|
    decreases |calls|
  {
    calls == [] ||
    var e := calls[0];
    && e.client < |jobs|
    && Wants(jobs[e.client], ss[e.client]).Some?
    && Handles(jobs[e.client], keys[e.client], Wants(jobs[e.client], ss[e.client]).value, e.client, p.(reg := e.reg), e.next, e.ret, e.status)
    && History(jobs, keys, Told(jobs, ss, e), e.next, calls[1..])
  }

  function Told(jobs: seq<Job>, ss: seq<Sender>, e: Call): (r: seq<Sender>)
    requires e.client < |jobs| == |ss|
    ensures |r| == |ss|
  {
    ss[e.client := OnReply(jobs[e.client], ss[e.client], e.ret, e.status)]
  }

  /** The clients after the calls. */
  function Clients(jobs: seq<Job>, ss: seq<Sender>, calls: seq<Call>): (r: seq<Sender>)
    requires |ss| == |jobs| && forall e <- calls :: e.client < |jobs|
    ensures |r| == |ss|
    decreases |calls|
  {
    if calls == [] then ss else Clients(jobs, Told(jobs, ss, calls[0]), calls[1..])
  }

  function LastServer(p: Server, calls: seq<Call>): Server {
    if calls == [] then p else calls[|calls| - 1].next
  }

  lemma {:induction false} ClientsExist(jobs: seq<Job>, keys: seq<Registry.ClassKey>, ss: seq<Sender>, p: Server, calls: seq<Call>)
    requires AllStartable(jobs, keys) && |ss| == |jobs| && History(jobs, keys, ss, p, calls)
    ensures forall e <- calls :: e.client < |jobs|
    decreases |calls|
  {
    if calls != [] {
      ClientsExist(jobs, keys, Told(jobs, ss, calls[0]), calls[0].next, calls[1..]);
    }
  }

  predicate SameSenders(xs: seq<Session>, ss: seq<Sender>) {
    |xs| == |ss| && forall c :: 0 <= c < |xs| ==> xs[c].sender == ss[c]
  }

  // ------------------------------------------------------- a history is a run

  /** One call, by whichever of the four methods, is a run of the protocol to a related state. */
  lemma CallRuns(jobs: seq<Job>, keys: seq<Registry.ClassKey>, files0: map<string, Bytes>, s: State, p: Server, e: Call)
    returns (run: seq<Event>)
    requires AllStartable(jobs, keys) && Serial(jobs, keys, files0, s, p) && e.client < |jobs|
    requires Wants(jobs[e.client], s.sessions[e.client].sender).Some?
    requires Handles(jobs[e.client], keys[e.client], Wants(jobs[e.client], s.sessions[e.client].sender).value, e.client, p, e.next, e.ret, e.status)
    ensures Legal(jobs, s, run)
    ensures var s' := Exec(jobs, s, run);
            Serial(jobs, keys, files0, s', e.next) && Answered(jobs, s.sessions, s'.sessions, e.client, e.ret, e.status)
  {
    match Wants(jobs[e.client], s.sessions[e.client].sender).value
    case Start(_, _, _, _) => run := StartServed(jobs, keys, files0, s, p, e.next, e.client, e.ret, e.status);
    case Write(k) =>
      var stored :| WriteDone(p, e.next, e.client, k, e.ret, stored);
      run := WriteServed(jobs, keys, files0, s, p, e.next, e.client, k, e.ret, stored);
    case Pull(segments) =>
      var refused: set<nat>, transferred: nat, synced: bool :| MmapDone(p, e.next, e.client, segments, refused, transferred, synced, e.ret);
      run := PullServed(jobs, keys, files0, s, p, e.next, e.client, segments, refused, transferred, synced, e.ret);
    case End => run := EndServed(jobs, keys, files0, s, p, e.next, e.client, e.ret, e.status);
  }

  /** Classes may come and go between calls. */
  lemma RegistryAside(jobs: seq<Job>, keys: seq<Registry.ClassKey>, files0: map<string, Bytes>, s: State, p: Server, reg: Registry.Classes)
    requires Serial(jobs, keys, files0, s, p)
    ensures Serial(jobs, keys, files0, s, p.(reg := reg))
  {
  }

  lemma SendersFollow(jobs: seq<Job>, xs: seq<Session>, xs': seq<Session>, ss: seq<Sender>, e: Call)
    requires e.client < |jobs| == |xs| && SameSenders(xs, ss) && Answered(jobs, xs, xs', e.client, e.ret, e.status)
    ensures SameSenders(xs', Told(jobs, ss, e))
  {
  }

  lemma LastOfRest(p: Server, calls: seq<Call>)
    requires calls != []
    ensures LastServer(calls[0].next, calls[1..]) == LastServer(p, calls)
  {
  }

  /** Refinement: every history of the provider is a run of the protocol, to the same replies and a related state. */
  lemma {:induction false} HistoryRuns(jobs: seq<Job>, keys: seq<Registry.ClassKey>, files0: map<string, Bytes>, s: State, ss: seq<Sender>,
                                       p: Server, calls: seq<Call>)
    returns (run: seq<Event>)
    requires AllStartable(jobs, keys) && Serial(jobs, keys, files0, s, p) && SameSenders(s.sessions, ss)
    requires History(jobs, keys, ss, p, calls)
    ensures forall e <- calls :: e.client < |jobs|
    ensures Legal(jobs, s, run)
    ensures var s' := Exec(jobs, s, run);
            Serial(jobs, keys, files0, s', LastServer(p, calls)) && SameSenders(s'.sessions, Clients(jobs, ss, calls))
    decreases |calls|
  {
    ClientsExist(jobs, keys, ss, p, calls);
    run := [];
    if calls != [] {
      var e := calls[0];
      RegistryAside(jobs, keys, files0, s, p, e.reg);
      var first := CallRuns(jobs, keys, files0, s, p.(reg := e.reg), e);
      var s1 := Exec(jobs, s, first);
      SendersFollow(jobs, s.sessions, s1.sessions, ss, e);
      LastOfRest(p, calls);
      var rest := HistoryRuns(jobs, keys, files0, s1, Told(jobs, ss, e), e.next, calls[1..]);
      ExecConcat(jobs, s, first, rest);
      run := first + rest;
    }
  }

  // -------------------------------------------------- from a provider just started

  /** An absolute name of a path. */
  function NameOf(q: FileTree.Path): string
    requires q != []
  {
    "/" + Walk.RelName(q)
  }

  lemma NameLeadsBack(t: Tree, q: FileTree.Path)
    requires FileTree.WellFormed(t) && FileTree.IsFile(t, q)
    ensures q != [] && Components(NameOf(q)) == q && !EndsInSlash(NameOf(q))
  {
    SourceRemoval.RelNameComponents(q);
    Walk.RelNameTidy(q);
    assert NameOf(q)[1..] == Walk.RelName(q);
  }

  function FileNames(t: Tree): set<string> {
    set q | q in t && t[q].Regular? && q != [] :: NameOf(q)
  }

  /** The files of a tree, by name. */
  function FilesOf(t: Tree): map<string, Bytes> {
    map n | n in FileNames(t) && FileTree.IsFile(t, Components(n)) :: t[Components(n)].data
  }

  lemma FilesOfMatch(t: Tree)
    requires FileTree.WellFormed(t)
    ensures FilesMatch(FilesOf(t), t)
  {
    forall n | n in FilesOf(t) ensures !EndsInSlash(n) && exists q :: FileTree.IsFile(t, q) && q != [] && n == NameOf(q) && Components(n) == q {
      var q :| q in t && t[q].Regular? && q != [] && NameOf(q) == n;
      NameLeadsBack(t, q);
    }
  }

  function AllIdle(n: nat): (r: seq<Sender>)
    ensures |r| == n && forall c :: 0 <= c < n ==> r[c] == Idle
  {
    seq(n, _ => Idle)
  }

  lemma StartSerial(jobs: seq<Job>, keys: seq<Registry.ClassKey>, p: Server)
    requires |jobs| == |keys| && (forall j <- jobs :: WellFormed(j)) && InOrder(p) && p.table == map[]
    ensures var s := Init(jobs, FilesOf(p.tree)); Serial(jobs, keys, FilesOf(p.tree), s, p) && SameSenders(s.sessions, AllIdle(|jobs|))
  {
    InitInv(jobs, FilesOf(p.tree));
    FilesOfMatch(p.tree);
  }

  /**
   What a client that was told SUCCESS finds in the provider's tree, whatever
   the other clients asked for in between: each of its files, with the bytes and
   the mode of the source; and its class let it pass at both ends. Files that
   were there first are what they were.
   */
  lemma HistoryDelivers(jobs: seq<Job>, keys: seq<Registry.ClassKey>, p: Server, calls: seq<Call>, c: nat, srcs: seq<Bytes>)
    requires AllStartable(jobs, keys) && (forall j <- jobs :: WellFormed(j)) && InOrder(p) && p.table == map[]
    requires History(jobs, keys, AllIdle(|jobs|), p, calls) && c < |jobs| && Sends(jobs[c], srcs)
    ensures forall e <- calls :: e.client < |jobs|
    ensures var last := Clients(jobs, AllIdle(|jobs|), calls)[c];
            last.Done? && last.ret == SUCCESS ==>
              forall i: nat :: i < |srcs| ==>
                var q := Components(PathOf(jobs[c], i));
                q in LastServer(p, calls).tree && LastServer(p, calls).tree[q] == FileTree.Regular(srcs[i], jobs[c].modes[i])
    ensures var last := Clients(jobs, AllIdle(|jobs|), calls)[c];
            last.Done? && last.ret == SUCCESS ==>
              && BeforePassed(keys[c], InfoOf(jobs[c], keys[c]), calls, c)
              && AfterPassed(keys[c], InfoOf(jobs[c], keys[c]), calls, c)
    ensures forall q <- p.tree :: p.tree[q].Regular? ==>
              FileTree.IsFile(LastServer(p, calls).tree, q) && LastServer(p, calls).tree[q].data == p.tree[q].data
  {
    var files0 := FilesOf(p.tree);
    var s := Init(jobs, files0);
    StartSerial(jobs, keys, p);
    var run := HistoryRuns(jobs, keys, files0, s, AllIdle(|jobs|), p, calls);
    var s', last := Exec(jobs, s, run), Clients(jobs, AllIdle(|jobs|), calls)[c];
    if last.Done? && last.ret == SUCCESS {
      DeliveredToTree(jobs, keys, files0, run, s', LastServer(p, calls), c, srcs);
    }
    HistoryCallbacks(jobs, keys, files0, s, AllIdle(|jobs|), p, calls, c);
    UntouchedInTree(jobs, keys, files0, run, s', p, LastServer(p, calls));
  }

  lemma DeliveredToTree(jobs: seq<Job>, keys: seq<Registry.ClassKey>, files0: map<string, Bytes>, run: seq<Event>, s: State, p: Server,
                        c: nat, srcs: seq<Bytes>)
    requires Safety.Reached(jobs, files0, run, s) && Serial(jobs, keys, files0, s, p) && c < |jobs| && Sends(jobs[c], srcs)
    requires s.sessions[c].sender.Done? && s.sessions[c].sender.ret == SUCCESS && |jobs[c].modes| == |jobs[c].names|
    ensures forall i: nat :: i < |srcs| ==>
              var q := Components(PathOf(jobs[c], i));
              q in p.tree && p.tree[q] == FileTree.Regular(srcs[i], jobs[c].modes[i])
  {
    Safety.SuccessMeansDelivered(jobs, files0, run, s, c, srcs);
    SuccessStarted(jobs, files0, s, c);
    assert ModesOf(jobs[c], p.tree);
    forall i: nat | i < |srcs|
      ensures var q := Components(PathOf(jobs[c], i)); q in p.tree && p.tree[q] == FileTree.Regular(srcs[i], jobs[c].modes[i])
    {
      assert PathOf(jobs[c], i) in s.files;
    }
  }

  lemma SuccessStarted(jobs: seq<Job>, files0: map<string, Bytes>, s: State, c: nat)
    requires Inv(jobs, files0, s) && c < |jobs| && s.sessions[c].sender.Done? && s.sessions[c].sender.ret == SUCCESS
    ensures s.sessions[c].started
  {
    assert SessionInv(jobs, s, c);
  }

  lemma UntouchedInTree(jobs: seq<Job>, keys: seq<Registry.ClassKey>, files0: map<string, Bytes>, run: seq<Event>, s: State, p: Server, p': Server)
    requires FileTree.WellFormed(p.tree) && files0 == FilesOf(p.tree) && Serial(jobs, keys, files0, s, p')
    ensures forall q <- p.tree :: p.tree[q].Regular? ==> FileTree.IsFile(p'.tree, q) && p'.tree[q].data == p.tree[q].data
  {
    forall q | q in p.tree && p.tree[q].Regular? ensures FileTree.IsFile(p'.tree, q) && p'.tree[q].data == p.tree[q].data {
      NameLeadsBack(p.tree, q);
      assert NameOf(q) in FileNames(p.tree);
      assert NameOf(q) in files0 && NameOf(q) in s.files;
    }
  }

  // ---------------------------------------------------------------- directories

  /** `q` is, or lies on the way to, a target of job `d`. */
  predicate TowardsTarget(jobs: seq<Job>, d: nat, q: FileTree.Path) {
    d < |jobs| && exists i: nat :: i < |jobs[d].names| && q <= Components(PathOf(jobs[d], i))
  }

  /** A call adds entries only towards targets of its client. */
  lemma CallAdds(jobs: seq<Job>, keys: seq<Registry.ClassKey>, r: Request, c: nat, p: Server, p': Server, ret: int, status: int, q: FileTree.Path)
    requires AllStartable(jobs, keys) && c < |jobs| && Handles(jobs[c], keys[c], r, c, p, p', ret, status)
    requires q in p'.tree && q !in p.tree
    ensures TowardsTarget(jobs, c, q)
  {
    assert r.Start?;
    if ret == SUCCESS {
      CreatedTowards(jobs, keys, c, p.tree, p'.tree, |jobs[c].names|, q);
    } else {
      var n: nat :| n < |jobs[c].names| && CreatedTo(InfoOf(jobs[c], keys[c]), jobs[c].modes, p.tree, p'.tree, n);
      CreatedTowards(jobs, keys, c, p.tree, p'.tree, n, q);
    }
  }

  lemma CreatedTowards(jobs: seq<Job>, keys: seq<Registry.ClassKey>, c: nat, t: Tree, u: Tree, n: nat, q: FileTree.Path)
    requires c < |jobs| == |keys| && n <= |jobs[c].names| == |jobs[c].modes|
    requires CreatedTo(InfoOf(jobs[c], keys[c]), jobs[c].modes, t, u, n) && q in u && q !in t
    ensures TowardsTarget(jobs, c, q)
  {
    var info := InfoOf(jobs[c], keys[c]);
    GrownAt(info, t, u, n, q);
    var i: nat :| i < |info.files| && q <= Target(info, i);
    assert Target(info, i) == Components(PathOf(jobs[c], i));
  }

  lemma {:induction false} HistoryAdds(jobs: seq<Job>, keys: seq<Registry.ClassKey>, ss: seq<Sender>, p: Server, calls: seq<Call>, q: FileTree.Path)
    requires AllStartable(jobs, keys) && |ss| == |jobs| && History(jobs, keys, ss, p, calls) && InOrder(p)
    ensures InOrder(LastServer(p, calls))
    ensures q in LastServer(p, calls).tree ==> q in p.tree || exists d :: TowardsTarget(jobs, d, q)
    decreases |calls|
  {
    if calls != [] {
      var e := calls[0];
      LastOfRest(p, calls);
      if q in e.next.tree && q !in p.tree {
        CallAdds(jobs, keys, Wants(jobs[e.client], ss[e.client]).value, e.client, p.(reg := e.reg), e.next, e.ret, e.status, q);
      }
      HistoryAdds(jobs, keys, Told(jobs, ss, e), e.next, calls[1..], q);
    }
  }

  /**
   Over any history, seen from a client told SUCCESS: a directory that was not
   there, and towards which no other client sends anything, is there at the end
   if and only if it lies on the way to one of the client's files.
   */
  lemma HistoryDirectories(jobs: seq<Job>, keys: seq<Registry.ClassKey>, p: Server, calls: seq<Call>, c: nat, srcs: seq<Bytes>, q: FileTree.Path)
    requires AllStartable(jobs, keys) && (forall j <- jobs :: WellFormed(j)) && InOrder(p) && p.table == map[]
    requires History(jobs, keys, AllIdle(|jobs|), p, calls) && c < |jobs| && Sends(jobs[c], srcs)
    requires q !in p.tree && forall d :: d != c ==> !TowardsTarget(jobs, d, q)
    ensures forall e <- calls :: e.client < |jobs|
    ensures var last := Clients(jobs, AllIdle(|jobs|), calls)[c];
            last.Done? && last.ret == SUCCESS ==>
              (FileTree.IsDir(LastServer(p, calls).tree, q) <==> exists i: nat :: i < |srcs| && q < Components(PathOf(jobs[c], i)))
  {
    HistoryDelivers(jobs, keys, p, calls, c, srcs);
    HistoryAdds(jobs, keys, AllIdle(|jobs|), p, calls, q);
    var last := Clients(jobs, AllIdle(|jobs|), calls)[c];
    if last.Done? && last.ret == SUCCESS {
      OnTheWayExactly(jobs, p.tree, LastServer(p, calls).tree, c, q);
    }
  }

  lemma OnTheWayExactly(jobs: seq<Job>, t: Tree, u: Tree, c: nat, q: FileTree.Path)
    requires FileTree.WellFormed(u) && c < |jobs| && q !in t
    requires q in u ==> q in t || TowardsTarget(jobs, c, q)
    requires forall i: nat :: i < |jobs[c].names| ==> FileTree.IsFile(u, Components(PathOf(jobs[c], i)))
    ensures FileTree.IsDir(u, q) <==> exists i: nat :: i < |jobs[c].names| && q < Components(PathOf(jobs[c], i))
  {
    if i: nat :| i < |jobs[c].names| && q < Components(PathOf(jobs[c], i)) {
      FileTree.AncestorIsDir(u, q, Components(PathOf(jobs[c], i)));
    }
    if FileTree.IsDir(u, q) {
      var i: nat :| i < |jobs[c].names| && q <= Components(PathOf(jobs[c], i));
      var b := Components(PathOf(jobs[c], i));
      assert FileTree.IsFile(u, b) && q != b;
      assert q < b;
    }
  }

  // ------------------------------------------------------------ a client's log

  /** The requests of client `c` with the replies they got. */
  function LogOf(jobs: seq<Job>, ss: seq<Sender>, calls: seq<Call>, c: nat): seq<Exchange>
    requires |ss| == |jobs| && c < |jobs| && forall e <- calls :: e.client < |jobs|
    decreases |calls|
  {
    if calls == [] then []
    else
      var e := calls[0];
      var rest := LogOf(jobs, Told(jobs, ss, e), calls[1..], c);
      if e.client == c && Wants(jobs[c], ss[c]).Some? then [Exchange(Wants(jobs[c], ss[c]).value, e.ret, e.status)] + rest else rest
  }

  /** The automaton takes a client through its log to the state it ends in. */
  lemma {:induction false} LogReplays(jobs: seq<Job>, keys: seq<Registry.ClassKey>, ss: seq<Sender>, p: Server, calls: seq<Call>, c: nat)
    requires AllStartable(jobs, keys) && |ss| == |jobs| && History(jobs, keys, ss, p, calls) && c < |jobs|
    ensures forall e <- calls :: e.client < |jobs|
    ensures Replay(jobs[c], ss[c], LogOf(jobs, ss, calls, c)) == Some(Clients(jobs, ss, calls)[c])
    decreases |calls|
  {
    ClientsExist(jobs, keys, ss, p, calls);
    if calls != [] {
      var e := calls[0];
      LogReplays(jobs, keys, Told(jobs, ss, e), e.next, calls[1..], c);
      var rest := LogOf(jobs, Told(jobs, ss, e), calls[1..], c);
      if e.client == c {
        var x := Exchange(Wants(jobs[c], ss[c]).value, e.ret, e.status);
        assert ([x] + rest)[0] == x && ([x] + rest)[1..] == rest;
      }
    }
  }

  // ---------------------------------------------------------------- callbacks

  predicate FirstCall(calls: seq<Call>, c: nat, i: int) {
    0 <= i < |calls| && calls[i].client == c && forall k :: 0 <= k < i ==> calls[k].client != c
  }

  predicate LastCall(calls: seq<Call>, c: nat, i: int) {
    0 <= i < |calls| && calls[i].client == c && forall k :: i < k < |calls| ==> calls[k].client != c
  }

  /** The first call of client `c` found its class with a before-callback that returned 0. */
  ghost predicate BeforePassed(key: Registry.ClassKey, info: Registry.FilesetInfo, calls: seq<Call>, c: nat) {
    exists i :: FirstCall(calls, c, i) && key in calls[i].reg.table &&
                var before := calls[i].reg.table[key].before; before.Some? && before.value(info) == 0
  }

  /** The last call of client `c` left its class with an after-callback that returned 0, or with none. */
  ghost predicate AfterPassed(key: Registry.ClassKey, info: Registry.FilesetInfo, calls: seq<Call>, c: nat) {
    exists i :: LastCall(calls, c, i) && key in calls[i].next.reg.table &&
                var after := calls[i].next.reg.table[key].after; after.None? || after.value(info) == 0
  }

  lemma BeforePassedLater(key: Registry.ClassKey, info: Registry.FilesetInfo, calls: seq<Call>, c: nat)
    requires calls != [] && calls[0].client != c && BeforePassed(key, info, calls[1..], c)
    ensures BeforePassed(key, info, calls, c)
  {
    var i :| FirstCall(calls[1..], c, i) && key in calls[1..][i].reg.table &&
             var before := calls[1..][i].reg.table[key].before; before.Some? && before.value(info) == 0;
    assert calls[i + 1] == calls[1..][i];
    assert FirstCall(calls, c, i + 1) by {
      forall k | 0 < k < i + 1 ensures calls[k].client != c { assert calls[k] == calls[1..][k - 1]; }
    }
  }

  lemma AfterPassedLater(key: Registry.ClassKey, info: Registry.FilesetInfo, calls: seq<Call>, c: nat)
    requires calls != [] && AfterPassed(key, info, calls[1..], c)
    ensures AfterPassed(key, info, calls, c)
  {
    var i :| LastCall(calls[1..], c, i) && key in calls[1..][i].next.reg.table &&
             var after := calls[1..][i].next.reg.table[key].after; after.None? || after.value(info) == 0;
    assert calls[i + 1] == calls[1..][i];
    assert LastCall(calls, c, i + 1) by {
      forall k | i + 1 < k < |calls| ensures calls[k].client != c { assert calls[k] == calls[1..][k - 1]; }
    }
  }

  /** A client that has returned makes no more calls. */
  lemma {:induction false} DoneStays(jobs: seq<Job>, keys: seq<Registry.ClassKey>, ss: seq<Sender>, p: Server, calls: seq<Call>, c: nat)
    requires AllStartable(jobs, keys) && |ss| == |jobs| && History(jobs, keys, ss, p, calls) && c < |jobs| && ss[c].Done?
    ensures forall e <- calls :: e.client < |jobs| && e.client != c
    ensures Clients(jobs, ss, calls)[c] == ss[c]
    decreases |calls|
  {
    if calls != [] {
      DoneStays(jobs, keys, Told(jobs, ss, calls[0]), calls[0].next, calls[1..], c);
    }
  }

  /**
   A client told SUCCESS had both callbacks of its class called by the provider,
   the one at its first call and the other at its last, in the state the class
   had at that time, and both returned 0; only the after-callback may be missing.
   */
  lemma {:induction false} HistoryCallbacks(jobs: seq<Job>, keys: seq<Registry.ClassKey>, files0: map<string, Bytes>, s: State, ss: seq<Sender>,
                                            p: Server, calls: seq<Call>, c: nat)
    requires AllStartable(jobs, keys) && Serial(jobs, keys, files0, s, p) && SameSenders(s.sessions, ss)
    requires History(jobs, keys, ss, p, calls) && c < |jobs| && !ss[c].Done?
    ensures forall e <- calls :: e.client < |jobs|
    ensures var last := Clients(jobs, ss, calls)[c];
            last.Done? && last.ret == SUCCESS ==>
              && AfterPassed(keys[c], InfoOf(jobs[c], keys[c]), calls, c)
              && (ss[c].Idle? ==> BeforePassed(keys[c], InfoOf(jobs[c], keys[c]), calls, c))
    decreases |calls|
  {
    ClientsExist(jobs, keys, ss, p, calls);
    if calls != [] {
      var e, ss' := calls[0], Told(jobs, ss, calls[0]);
      RegistryAside(jobs, keys, files0, s, p, e.reg);
      var first := CallRuns(jobs, keys, files0, s, p.(reg := e.reg), e);
      if e.client == c && e.ret == SUCCESS {
        CallPassed(jobs, keys, files0, s, p.(reg := e.reg), e, ss[c]);
        assert FirstCall(calls, c, 0);
      }
      if ss'[c].Done? {
        DoneStays(jobs, keys, ss', e.next, calls[1..], c);
        assert LastCall(calls, c, 0) by { forall k | 0 < k < |calls| ensures calls[k].client != c { assert calls[k] in calls[1..]; } }
      } else {
        SendersFollow(jobs, s.sessions, Exec(jobs, s, first).sessions, ss, e);
        HistoryCallbacks(jobs, keys, files0, Exec(jobs, s, first), ss', e.next, calls[1..], c);
        if BeforePassed(keys[c], InfoOf(jobs[c], keys[c]), calls[1..], c) && e.client != c {
          BeforePassedLater(keys[c], InfoOf(jobs[c], keys[c]), calls, c);
        }
        if AfterPassed(keys[c], InfoOf(jobs[c], keys[c]), calls[1..], c) {
          AfterPassedLater(keys[c], InfoOf(jobs[c], keys[c]), calls, c);
        }
      }
    }
  }

  /** What the reply SUCCESS to the first and to the last request says about the class. */
  lemma CallPassed(jobs: seq<Job>, keys: seq<Registry.ClassKey>, files0: map<string, Bytes>, s: State, p: Server, e: Call, x: Sender)
    requires AllStartable(jobs, keys) && Serial(jobs, keys, files0, s, p) && e.client < |jobs| && x == s.sessions[e.client].sender
    requires Wants(jobs[e.client], x).Some? && e.ret == SUCCESS
    requires Handles(jobs[e.client], keys[e.client], Wants(jobs[e.client], x).value, e.client, p, e.next, e.ret, e.status)
    ensures var key := keys[e.client];
            var info := InfoOf(jobs[e.client], key);
            && (x.Idle? ==> key in p.reg.table && var before := p.reg.table[key].before; before.Some? && before.value(info) == 0)
            && (Wants(jobs[e.client], x).value.End? ==>
                  key in e.next.reg.table && var after := e.next.reg.table[key].after; after.None? || after.value(info) == 0)
  {
  }
}
