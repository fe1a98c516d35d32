/** The client loops, the protocol and the removal of the source put together. */
module EndToEnd {
  import opened Codes
  import opened Transfer
  import opened Sender
  import opened Names
  import opened Paths
  import opened FileTree
  import opened Walk
  import opened SourceRemoval
  import opened Filesets
  import opened Client
  import Protocol
  import Invariant
  import Preservation
  import Safety
  import ClientLoops
  import Provider
  import Registry
  import Histories

  /** A migration of increasing names is a job the protocol can run. */
  lemma JobIsWellFormed(t: Tree, root: string, names: seq<string>, remote: string, m: Mode, xfer: nat)
    requires Increasing(names) && AllOpen(t, root, names) && xfer > 0
    requires forall f <- Sources(t, root, names) :: |f| < OFFSET_LIMIT
    ensures Protocol.WellFormed(JobOf(t, root, names, remote, m, xfer))
  {
    IncreasingDistinct(names);
    if m.Abtio? { PlanAccepted(m.policy, Sources(t, root, names), xfer); }
  }

  /** Unless it returns at once, a client's first request announces the sizes of all its files. */
  lemma FirstRequest(j: Job, log: seq<Exchange>, ret: int, status: Option<int>)
    requires Replay(j, Idle, log) == Some(Done(ret, status))
    ensures log != [] && log[0].req == Start(j.root, j.names, j.sizes, j.modes)
  {
  }

  /**
   A caller that computes the size of a fileset and then migrates it. The
   computation succeeds exactly when the migration gets past opening the files
   and sends its start request, and its result is the sum of the sizes in that
   request, which the provider adds up again.
   */
  method SizeThenMigrate(ch: ClientLoops.Channel, fs: FileSystem, fset: Fileset, remoteRoot: string, removeSource: bool, mode: Mode)
    returns (sized: int, size: nat, total: nat, ret: int)
    requires fset.Valid() && FileTree.WellFormed(fs.tree) && ch.log == []
    requires remoteRoot != "" && remoteRoot[0] == '/'
    modifies ch, fs, fset`root, fset`files, fset`directories
    ensures sized == SUCCESS <==> ch.log != []
    ensures sized != SUCCESS ==> sized == ERR_IO && ret == ERR_UNKNOWN_FILE && fs.tree == old(fs.tree)
    ensures sized == SUCCESS ==> ch.log[0].req.Start? && size == total == Sum(ch.log[0].req.sizes)
  {
    sized, size := fset.ComputeSize(fs);
    ghost var t, root, files, dirs, xfer := fs.tree, fset.root, Elements(fset.files), fset.directories, fset.xferSize;
    var status;
    ghost var names, st;
    ret, status, names, st := Client.Migrate(ch, fs, fset, remoteRoot, removeSource, mode, 0);
    total := 0;
    if sized == SUCCESS {
      FirstRequest(JobOf(t, root, names, Slashed(remoteRoot), mode, xfer), ch.log, ret, st);
      total := Provider.Provider.TotalSize(ch.log[0].req.sizes);
    }
  }

  // ------------------------------------ the protocol's clients follow the automaton

  /** A handler step either leaves the client's automaton alone or hands it a reply to what it asked. */
  lemma StepReply(j: Job, s: Protocol.State, h: nat, ch: Protocol.Choice) returns (x: Option<Exchange>)
    requires Preservation.CanStep(j, s, h, ch)
    ensures var a, b := s.sessions[s.handlers[h].job].sender, Protocol.StepOf(j, s, h, ch).x.sender;
            match x
            case None => b == a
            case Some(e) => Wants(j, a) == Some(e.req) && b == OnReply(j, a, e.ret, e.status)
  {
    var g := s.handlers[h];
    var y := s.sessions[g.job];
    x := match g.pc
      case Checking =>
        if ch.Refuse? then Some(Exchange(g.req, ch.ret, ch.status))
        else if Protocol.Blocked(j, s.files) then Some(Exchange(g.req, ERR_FILE_EXISTS, 1))
        else if ch.OpenFails? then Some(Exchange(g.req, ERR_IO, 0)) else None
      case StartReply => Some(Exchange(g.req, SUCCESS, 0))
      case InTable => if g.job !in s.table then Some(Exchange(g.req, ERR_INVALID_OPID, 0)) else None
      case Locked =>
        if g.req.Write? then (if Accepts(j.sizes, g.req.chunk) then Some(Exchange(g.req, SUCCESS, 0)) else None)
        else if y.error != SUCCESS then Some(Exchange(g.req, y.error, 0))
        else Some(Exchange(g.req, if ch.status == 0 then SUCCESS else ERR_USER, ch.status))
      case Pulling =>
        if ch.ShortPull? then Some(Exchange(g.req, ERR_MIGRATION, 0))
        else if ch.PullFails? then None else Some(Exchange(g.req, SUCCESS, 0))
      case ErrReply => Some(Exchange(g.req, ERR_IO, 0))
      case _ => None;
  }

  lemma EventReply(jobs: seq<Job>, files0: map<string, Bytes>, s: Protocol.State, e: Protocol.Event, c: nat)
    returns (x: Option<Exchange>)
    requires Invariant.Inv(jobs, files0, s) && Protocol.Enabled(jobs, s, e) && c < |jobs|
    ensures var a, b := s.sessions[c].sender, Protocol.Next(jobs, s, e).sessions[c].sender;
            match x
            case None => b == a
            case Some(y) => Wants(jobs[c], a) == Some(y.req) && b == OnReply(jobs[c], a, y.ret, y.status)
  {
    x := None;
    if e.Run? && s.handlers[e.handler].job == c {
      assert Invariant.HandlerInv(s, e.handler) && Invariant.SessionInv(jobs, s, c);
      x := StepReply(jobs[c], s, e.handler, e.choice);
    }
  }

  /**
   In every run, each client's replies form a log over which the automaton
   comes to the client's state: the log the client loops are specified by.
   */
  lemma {:induction false} SessionsReplay(jobs: seq<Job>, files0: map<string, Bytes>, s: Protocol.State, run: seq<Protocol.Event>, c: nat)
    returns (log: seq<Exchange>)
    requires Invariant.Inv(jobs, files0, s) && Protocol.Legal(jobs, s, run) && c < |jobs|
    ensures Replay(jobs[c], s.sessions[c].sender, log) == Some(Protocol.Exec(jobs, s, run).sessions[c].sender)
    decreases |run|
  {
    log := [];
    if run != [] {
      var x := EventReply(jobs, files0, s, run[0], c);
      Preservation.StepKeepsInv(jobs, files0, s, run[0]);
      log := SessionsReplay(jobs, files0, Protocol.Next(jobs, s, run[0]), run[1..], c);
      if x.Some? {
        assert ([x.value] + log)[1..] == log;
        log := [x.value] + log;
      }
    }
  }

  // ------------------------------------------------------------------- end to end

  /** SUCCESS from a migration of a fileset: each of its files is at the destination, under its name, byte for byte. */
  lemma Delivered(t: Tree, root: string, names: seq<string>, remote: string, m: Mode, xfer: nat,
                  jobs: seq<Job>, files0: map<string, Bytes>, run: seq<Protocol.Event>, s: Protocol.State, c: nat, i: nat)
    requires Increasing(names) && AllOpen(t, root, names) && xfer > 0 && i < |names|
    requires forall f <- Sources(t, root, names) :: |f| < OFFSET_LIMIT
    requires Safety.Reached(jobs, files0, run, s) && c < |jobs| && jobs[c] == JobOf(t, root, names, remote, m, xfer)
    requires s.sessions[c].sender.Done? && s.sessions[c].sender.ret == SUCCESS
    ensures remote + names[i] in s.files
    ensures IsFile(t, Components(root + names[i])) && s.files[remote + names[i]] == t[Components(root + names[i])].data
  {
    var srcs := Sources(t, root, names);
    JobIsHonest(t, root, names, remote, m, xfer);
    Safety.SuccessMeansDelivered(jobs, files0, run, s, c, srcs);
    assert Protocol.PathOf(jobs[c], i) == remote + names[i];
    assert OpenRead(t, root + names[i]) == Some(Regular(srcs[i], Opened(t, root, names)[i].value.mode));
  }

  /**
   No data loss from end to end. Whatever the other clients do and however the
   handlers interleave: a source file that a successful migration with removal
   deletes is at the destination, provided the root ends in a slash and the
   registered directories are spelled with one.
   */
  lemma NothingLost(t: Tree, root: string, files: set<string>, dirs: seq<string>, names: seq<string>, remote: string, m: Mode, xfer: nat,
                    jobs: seq<Job>, files0: map<string, Bytes>, run: seq<Protocol.Event>, s: Protocol.State, c: nat, p: Path)
    returns (i: nat)
    requires FileTree.WellFormed(t) && EndsInSlash(root) && forall d <- dirs :: Terminated(d)
    requires Increasing(names) && Elements(names) == Migrated(t, root, files, dirs)
    requires AllOpen(t, root, names) && xfer > 0 && forall f <- Sources(t, root, names) :: |f| < OFFSET_LIMIT
    requires Safety.Reached(jobs, files0, run, s) && c < |jobs| && jobs[c] == JobOf(t, root, names, remote, m, xfer)
    requires s.sessions[c].sender.Done? && s.sessions[c].sender.ret == SUCCESS
    requires IsFile(t, p) && p !in AfterRemoval(t, root, names, dirs)
    ensures i < |names| && Components(root + names[i]) == p
    ensures remote + names[i] in s.files && s.files[remote + names[i]] == t[p].data
  {
    NoDataLoss(t, root, files, dirs, names);
    assert p in PathsOf(root, Elements(names));
    var x :| x in Elements(names) && Components(root + x) == p;
    i :| 0 <= i < |names| && names[i] == x;
    Delivered(t, root, names, remote, m, xfer, jobs, files0, run, s, c, i);
  }

  /**
   The same in the provider's tree, over any history of calls: where the client
   was told SUCCESS, the entry at the destination is the entry at the source,
   bytes and mode.
   */
  lemma DeliveredInTree(t: FileTree.Tree, root: string, names: seq<string>, remote: string, m: Mode, xfer: nat,
                        jobs: seq<Job>, keys: seq<Registry.ClassKey>, p: Provider.Server, calls: seq<Histories.Call>, c: nat, i: nat)
    requires Increasing(names) && AllOpen(t, root, names) && xfer > 0 && i < |names|
    requires forall f <- Sources(t, root, names) :: |f| < OFFSET_LIMIT
    requires Histories.AllStartable(jobs, keys) && (forall j <- jobs :: Protocol.WellFormed(j))
    requires Provider.InOrder(p) && p.table == map[] && Histories.History(jobs, keys, Histories.AllIdle(|jobs|), p, calls)
    requires c < |jobs| && jobs[c] == JobOf(t, root, names, remote, m, xfer)
    ensures forall e <- calls :: e.client < |jobs|
    ensures var last := Histories.Clients(jobs, Histories.AllIdle(|jobs|), calls)[c];
            var u := Histories.LastServer(p, calls).tree;
            last.Done? && last.ret == SUCCESS ==>
              && Components(root + names[i]) in t && Components(remote + names[i]) in u
              && u[Components(remote + names[i])] == t[Components(root + names[i])]
  {
    var srcs := Sources(t, root, names);
    JobIsHonest(t, root, names, remote, m, xfer);
    Histories.HistoryDelivers(jobs, keys, p, calls, c, srcs);
    assert Protocol.PathOf(jobs[c], i) == remote + names[i];
    assert OpenRead(t, root + names[i]) == Some(Regular(srcs[i], Opened(t, root, names)[i].value.mode));
  }

  /** No data loss, in the provider's tree: a source file that removal deletes is there, with its bytes and its mode. */
  lemma NothingLostInTree(t: FileTree.Tree, root: string, files: set<string>, dirs: seq<string>, names: seq<string>, remote: string, m: Mode, xfer: nat,
                          jobs: seq<Job>, keys: seq<Registry.ClassKey>, p: Provider.Server, calls: seq<Histories.Call>, c: nat, q: Path)
    returns (i: nat)
    requires FileTree.WellFormed(t) && EndsInSlash(root) && forall d <- dirs :: Terminated(d)
    requires Increasing(names) && Elements(names) == Migrated(t, root, files, dirs)
    requires AllOpen(t, root, names) && xfer > 0 && forall f <- Sources(t, root, names) :: |f| < OFFSET_LIMIT
    requires Histories.AllStartable(jobs, keys) && (forall j <- jobs :: Protocol.WellFormed(j))
    requires Provider.InOrder(p) && p.table == map[] && Histories.History(jobs, keys, Histories.AllIdle(|jobs|), p, calls)
    requires c < |jobs| && jobs[c] == JobOf(t, root, names, remote, m, xfer)
    requires IsFile(t, q) && q !in AfterRemoval(t, root, names, dirs)
    ensures forall e <- calls :: e.client < |jobs|
    ensures i < |names| && Components(root + names[i]) == q
    ensures var last := Histories.Clients(jobs, Histories.AllIdle(|jobs|), calls)[c];
            var u := Histories.LastServer(p, calls).tree;
            last.Done? && last.ret == SUCCESS ==> Components(remote + names[i]) in u && u[Components(remote + names[i])] == t[q]
  {
    NoDataLoss(t, root, files, dirs, names);
    assert q in PathsOf(root, Elements(names));
    var x :| x in Elements(names) && Components(root + x) == q;
    i :| 0 <= i < |names| && names[i] == x;
    DeliveredInTree(t, root, names, remote, m, xfer, jobs, keys, p, calls, c, i);
  }

  /**
   Subdirectories, over any history into a destination where the directory is
   not there yet and nobody else sends anything towards it: the directory `rel`
   below the remote root is there after SUCCESS if and only if some migrated
   file lies below `rel` at the source.
   */
  lemma SubdirectoryArrives(t: FileTree.Tree, root: string, names: seq<string>, remote: string, m: Mode, xfer: nat,
                            jobs: seq<Job>, keys: seq<Registry.ClassKey>, p: Provider.Server, calls: seq<Histories.Call>, c: nat, rel: Path)
    requires Increasing(names) && AllOpen(t, root, names) && xfer > 0 && EndsInSlash(root) && EndsInSlash(remote)
    requires forall f <- Sources(t, root, names) :: |f| < OFFSET_LIMIT
    requires Histories.AllStartable(jobs, keys) && (forall j <- jobs :: Protocol.WellFormed(j))
    requires Provider.InOrder(p) && p.table == map[] && Histories.History(jobs, keys, Histories.AllIdle(|jobs|), p, calls)
    requires c < |jobs| && jobs[c] == JobOf(t, root, names, remote, m, xfer)
    requires Components(remote) + rel !in p.tree
    requires forall d :: d != c ==> !Histories.TowardsTarget(jobs, d, Components(remote) + rel)
    ensures forall e <- calls :: e.client < |jobs|
    ensures var last := Histories.Clients(jobs, Histories.AllIdle(|jobs|), calls)[c];
            last.Done? && last.ret == SUCCESS ==>
              (IsDir(Histories.LastServer(p, calls).tree, Components(remote) + rel) <==>
               exists x :: x in names && Components(root) + rel < Components(root + x))
  {
    JobIsHonest(t, root, names, remote, m, xfer);
    Histories.HistoryDirectories(jobs, keys, p, calls, c, Sources(t, root, names), Components(remote) + rel);
    forall i: nat | i < |names|
      ensures Components(remote) + rel < Components(Protocol.PathOf(jobs[c], i)) <==> Components(root) + rel < Components(root + names[i])
    {
      SamePlaceBelow(root, remote, names[i], rel);
    }
    if x :| x in names && Components(root) + rel < Components(root + x) {
      var i: nat :| i < |names| && names[i] == x;
    }
  }

  lemma SamePlaceBelow(root: string, remote: string, x: string, rel: Path)
    requires EndsInSlash(root) && EndsInSlash(remote)
    ensures Components(remote) + rel < Components(remote + x) <==> Components(root) + rel < Components(root + x)
  {
    ComponentsAfterSlash(root, x);
    ComponentsAfterSlash(remote, x);
    PrefixBelow(Components(root), rel, Components(x));
    PrefixBelow(Components(remote), rel, Components(x));
  }

  lemma PrefixBelow(a: Path, rel: Path, b: Path)
    ensures a + rel < a + b <==> rel < b
  {
    if a + rel < a + b {
      assert forall i :: 0 <= i < |rel| ==> (a + rel)[|a| + i] == rel[i] && (a + b)[|a| + i] == b[i];
    }
  }

  // ------------------------------------------------------- the client's own call

  /** What `names` of a fileset under `root` have become at the destination. */
  predicate Arrived(t: FileTree.Tree, root: string, names: seq<string>, remote: string, u: FileTree.Tree) {
    forall i: nat :: i < |names| ==>
      var a, b := Components(root + names[i]), Components(remote + names[i]); a in t && b in u && u[b] == t[a]
  }

  /** Client `c` of the history is the one that migrates `names` of `t`, and `log` is what it said and was told. */
  ghost predicate IsClient(t: FileTree.Tree, root: string, names: seq<string>, remote: string, m: Mode, xfer: nat,
                           jobs: seq<Job>, keys: seq<Registry.ClassKey>, p: Provider.Server, calls: seq<Histories.Call>, c: nat, log: seq<Exchange>) {
    && Histories.AllStartable(jobs, keys) && (forall j <- jobs :: Protocol.WellFormed(j))
    && Provider.InOrder(p) && p.table == map[] && Histories.History(jobs, keys, Histories.AllIdle(|jobs|), p, calls)
    && (forall e <- calls :: e.client < |jobs|)
    && c < |jobs| && AllOpen(t, root, names) && xfer > 0 && jobs[c] == JobOf(t, root, names, remote, m, xfer)
    && log == Histories.LogOf(jobs, Histories.AllIdle(|jobs|), calls, c)
  }

  lemma ClientArrived(before: Members, after: Members, t: FileTree.Tree, names: seq<string>, remote: string, m: Mode, xfer: nat, ret: int, st: Option<int>,
                      jobs: seq<Job>, keys: seq<Registry.ClassKey>, p: Provider.Server, calls: seq<Histories.Call>, c: nat, log: seq<Exchange>)
    requires MigrationDone(before, after, t, names, remote, m, xfer, log, ret, st) && ret == SUCCESS && Increasing(names)
    requires IsClient(t, before.root, names, remote, m, xfer, jobs, keys, p, calls, c, log)
    requires forall f <- Sources(t, before.root, names) :: |f| < OFFSET_LIMIT
    ensures Arrived(t, before.root, names, remote, Histories.LastServer(p, calls).tree)
  {
    Histories.LogReplays(jobs, keys, Histories.AllIdle(|jobs|), p, calls, c);
    forall i: nat | i < |names|
      ensures var a, b := Components(before.root + names[i]), Components(remote + names[i]);
              var u := Histories.LastServer(p, calls).tree; a in t && b in u && u[b] == t[a]
    {
      DeliveredInTree(t, before.root, names, remote, m, xfer, jobs, keys, p, calls, c, i);
    }
  }

  /**
   The client's call against overlapping handlers: its log is that of a client
   of some run, as SessionsReplay gives one, and it returned SUCCESS.
   */
  lemma ClientDelivered(before: Members, after: Members, t: FileTree.Tree, names: seq<string>, remote: string, m: Mode, xfer: nat, ret: int, st: Option<int>,
                        jobs: seq<Job>, files0: map<string, Bytes>, run: seq<Protocol.Event>, s: Protocol.State, c: nat, log: seq<Exchange>)
    requires MigrationDone(before, after, t, names, remote, m, xfer, log, ret, st) && ret == SUCCESS && Increasing(names)
    requires Sendables(t, before.root, names) && Safety.Reached(jobs, files0, run, s) && c < |jobs| == |s.sessions|
    requires jobs[c] == JobOf(t, before.root, names, remote, m, xfer) && Replay(jobs[c], Idle, log) == Some(s.sessions[c].sender)
    ensures forall i: nat :: i < |names| ==>
              && IsFile(t, Components(before.root + names[i])) && remote + names[i] in s.files
              && s.files[remote + names[i]] == t[Components(before.root + names[i])].data
  {
    forall i: nat | i < |names|
      ensures IsFile(t, Components(before.root + names[i])) && remote + names[i] in s.files
      ensures s.files[remote + names[i]] == t[Components(before.root + names[i])].data
    {
      Delivered(t, before.root, names, remote, m, xfer, jobs, files0, run, s, c, i);
    }
  }

  /**
   remi_fileset_migrate against a provider, for every history of that provider
   in which the requests and replies of this very call are those of one of its
   clients. When the call returns SUCCESS every file of the fileset is at the
   destination, the same entry as at the source was; and every file that the
   call has made disappear from the source is one of them, provided root and
   directories are spelled with a final slash.
   */
  method MigrateAgainst(ch: ClientLoops.Channel, fs: FileSystem, fset: Fileset, remoteRoot: string, removeSource: bool, mode: Mode,
                        ghost jobs: seq<Job>, ghost keys: seq<Registry.ClassKey>, ghost p: Provider.Server, ghost calls: seq<Histories.Call>, ghost c: nat)
    returns (ret: int, ghost names: seq<string>)
    requires fset.Valid() && FileTree.WellFormed(fs.tree) && ch.log == [] && remoteRoot != "" && remoteRoot[0] == '/'
    modifies ch, fs, fset`root, fset`files, fset`directories
    ensures Increasing(names)
    ensures ret == SUCCESS && Sendables(old(fs.tree), old(fset.root), names)
            && IsClient(old(fs.tree), old(fset.root), names, Slashed(remoteRoot), mode, fset.xferSize, jobs, keys, p, calls, c, ch.log) ==>
              Arrived(old(fs.tree), old(fset.root), names, Slashed(remoteRoot), Histories.LastServer(p, calls).tree)
    ensures ret == SUCCESS && EndsInSlash(old(fset.root)) && (forall d <- old(fset.directories) :: Terminated(d)) ==>
              forall q :: IsFile(old(fs.tree), q) && q !in fs.tree ==> exists i: nat :: i < |names| && Components(old(fset.root) + names[i]) == q
    ensures ret != SUCCESS ==> fs.tree == old(fs.tree)
  {
    ghost var t, before := fs.tree, MembersOf(fset);
    ghost var files := Elements(fset.files);
    var status;
    ghost var st;
    ret, status, names, st := Client.Migrate(ch, fs, fset, remoteRoot, removeSource, mode, 0);
    if ret == SUCCESS {
      if Sendables(t, before.root, names) && IsClient(t, before.root, names, Slashed(remoteRoot), mode, fset.xferSize, jobs, keys, p, calls, c, ch.log) {
        ClientArrived(before, MembersOf(fset), t, names, Slashed(remoteRoot), mode, fset.xferSize, ret, st, jobs, keys, p, calls, c, ch.log);
      }
      if EndsInSlash(before.root) && (forall d <- before.directories :: Terminated(d)) && removeSource {
        NoDataLoss(t, before.root, files, before.directories, names);
        forall q | IsFile(t, q) && q !in fs.tree ensures exists i: nat :: i < |names| && Components(before.root + names[i]) == q {
          assert q in PathsOf(before.root, Elements(names));
        }
      }
    }
  }

  /** Every file can be opened, and is of a size that off_t can hold. */
  predicate Sendables(t: FileTree.Tree, root: string, names: seq<string>) {
    AllOpen(t, root, names) && forall f <- Sources(t, root, names) :: |f| < OFFSET_LIMIT
  }
}
