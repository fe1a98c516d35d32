/** remi_fileset_migrate and its two transfer modes, src/remi-client.cpp. */
module Client {
  import opened Codes
  import opened Transfer
  import opened Sender
  import opened Paths
  import opened Names
  import opened FileTree
  import opened Walk
  import opened SourceRemoval
  import opened Filesets
  import opened ClientLoops
  import opened Requests

  /** How the data travels: REMI_USE_MMAP, or write requests without and with an ABT-IO instance. */
  datatype Mode = Mmap | Abtio(policy: Policy)

  function WorkOf(m: Mode, srcs: seq<Bytes>, xfer: nat): Work
    requires xfer > 0
  {
    match m
    case Mmap => Bulk(srcs)
    case Abtio(p) => Chunked(p, Plan(p, srcs, xfer, 0))
  }

  /** The job a call of remi_fileset_migrate works for, when all files open. */
  function JobOf(t: Tree, root: string, names: seq<string>, remote: string, m: Mode, xfer: nat): Job
    requires AllOpen(t, root, names) && xfer > 0
  {
    var srcs := Sources(t, root, names);
    Job(remote, names, Sizes(srcs), Modes(t, root, names), WorkOf(m, srcs, xfer))
  }

  /** Such a job is one the protocol model calls honest, if the files have representable sizes. */
  lemma JobIsHonest(t: Tree, root: string, names: seq<string>, remote: string, m: Mode, xfer: nat)
    requires AllOpen(t, root, names) && xfer > 0
    requires forall f <- Sources(t, root, names) :: |f| < OFFSET_LIMIT
    ensures Sends(JobOf(t, root, names, remote, m, xfer), Sources(t, root, names))
  {
  }

  /** open and fstat every file, in the order of the set. */
  method OpenAll(fs: FileSystem, root: string, names: seq<string>)
    returns (ret: int, fds: seq<OpenFile>, sizes: seq<nat>, modes: seq<nat>)
    ensures ret == if AllOpen(fs.tree, root, names) then SUCCESS else ERR_UNKNOWN_FILE
    ensures ret == SUCCESS ==>
              && DataOf(fds) == Sources(fs.tree, root, names)
              && sizes == Sizes(Sources(fs.tree, root, names))
              && modes == Modes(fs.tree, root, names)
    ensures forall k :: 0 <= k < |fds| ==> fresh(fds[k]) && fds[k].pos == 0
    ensures forall a, b :: 0 <= a < b < |fds| ==> fds[a] != fds[b]
  {
    fds, sizes, modes := [], [], [];
    var i: nat := 0;
    while i < |names|
      invariant i <= |names| && AllOpen(fs.tree, root, names[..i])
      invariant DataOf(fds) == Sources(fs.tree, root, names[..i])
      invariant sizes == Sizes(Sources(fs.tree, root, names[..i]))
      invariant modes == Modes(fs.tree, root, names[..i])
      invariant forall k :: 0 <= k < |fds| ==> fresh(fds[k]) && fds[k].pos == 0
      invariant forall a, b :: 0 <= a < b < |fds| ==> fds[a] != fds[b]
    {
      assert names[..i + 1] == names[..i] + [names[i]];
      OpenOneMore(fs.tree, root, names[..i], names[i]);
      var e := OpenRead(fs.tree, root + names[i]);
      if e.None? {
        assert Opened(fs.tree, root, names)[i] in Opened(fs.tree, root, names);
        return ERR_UNKNOWN_FILE, fds, sizes, modes;
      }
      var f := new OpenFile(e.value.data);
      assert DataOf(fds + [f]) == DataOf(fds) + [f.data];
      fds := fds + [f];
      sizes := sizes + [|e.value.data|];
      modes := modes + [e.value.mode];
      i := i + 1;
    }
    assert names[..|names|] == names;
    ret := SUCCESS;
  }

  /** open, fstat and map every file; empty files are not mapped. */
  method MapAll(fs: FileSystem, root: string, names: seq<string>)
    returns (ret: int, segments: seq<Bytes>, sizes: seq<nat>, modes: seq<nat>)
    ensures ret == if AllOpen(fs.tree, root, names) then SUCCESS else ERR_UNKNOWN_FILE
    ensures ret == SUCCESS ==>
              && segments == NonEmpty(Sources(fs.tree, root, names))
              && sizes == Sizes(Sources(fs.tree, root, names))
              && modes == Modes(fs.tree, root, names)
  {
    segments, sizes, modes := [], [], [];
    var i: nat := 0;
    while i < |names|
      invariant i <= |names| && AllOpen(fs.tree, root, names[..i])
      invariant segments == NonEmpty(Sources(fs.tree, root, names[..i]))
      invariant sizes == Sizes(Sources(fs.tree, root, names[..i]))
      invariant modes == Modes(fs.tree, root, names[..i])
    {
      assert names[..i + 1] == names[..i] + [names[i]];
      OpenOneMore(fs.tree, root, names[..i], names[i]);
      var e := OpenRead(fs.tree, root + names[i]);
      if e.None? {
        assert Opened(fs.tree, root, names)[i] in Opened(fs.tree, root, names);
        return ERR_UNKNOWN_FILE, segments, sizes, modes;
      }
      NonEmptyAppend(Sources(fs.tree, root, names[..i]), e.value.data);
      sizes := sizes + [|e.value.data|];
      modes := modes + [e.value.mode];
      if |e.value.data| != 0 {
        segments := segments + [e.value.data];
      }
      i := i + 1;
    }
    assert names[..|names|] == names;
    ret := SUCCESS;
  }

  lemma {:induction false} NonEmptyAppend(segs: seq<Bytes>, d: Bytes)
    ensures NonEmpty(segs + [d]) == NonEmpty(segs) + if d == [] then [] else [d]
  {
    if segs != [] {
      assert (segs + [d])[1..] == segs[1..] + [d];
      NonEmptyAppend(segs[1..], d);
    }
  }

  /** The fileset's members, as they are swapped out for the start request and put back. */
  datatype Members = Members(root: string, files: seq<string>, directories: seq<string>)

  function MembersOf(fset: Fileset): Members
    reads fset
  {
    Members(fset.root, fset.files, fset.directories)
  }

  /** A migration of which the server refused the start. */
  predicate StartFailed(log: seq<Exchange>) {
    log != [] && log[0].ret != SUCCESS
  }

  /**
   What goes over the wire, told from the files and the fileset alone: the
   start request announces each file's size and mode, position by position, and
   the transfer requests are those of the mode.
   */
  ghost predicate Sent(log: seq<Exchange>, t: Tree, root: string, names: seq<string>, remote: string, m: Mode, xfer: nat) {
    && AllOpen(t, root, names) && Framed(log)
    && log[0].req.root == remote && log[0].req.names == names && |log[0].req.sizes| == |log[0].req.modes| == |names|
    && (forall i :: 0 <= i < |names| ==>
          var p := Components(root + names[i]);
          IsFile(t, p) && log[0].req.sizes[i] == |t[p].data| && log[0].req.modes[i] == t[p].mode)
    && match m
       case Mmap => PullSent(Sources(t, root, names), log)
       case Abtio(p) => WritesSent(p, Sources(t, root, names), xfer, log)
  }

  /** A complete run of the automaton over the job of a call is what the call sends, and told. */
  lemma LogIsSent(log: seq<Exchange>, t: Tree, root: string, names: seq<string>, remote: string, m: Mode, xfer: nat, ret: int, st: Option<int>)
    requires AllOpen(t, root, names) && xfer > 0 && Replay(JobOf(t, root, names, remote, m, xfer), Idle, log) == Some(Done(ret, st))
    ensures Sent(log, t, root, names, remote, m, xfer) && Told(log, ret, st)
  {
    var j, srcs := JobOf(t, root, names, remote, m, xfer), Sources(t, root, names);
    match m
    case Mmap => BulkLog(j, srcs, log, ret, st);
    case Abtio(p) => ChunkedLog(j, p, srcs, xfer, log, ret, st);
  }

  /**
   What either mode leaves behind. Unless a file does not open, the RPCs and
   their replies are a complete run of the automaton, which returned `ret` and
   `status`. The fileset gets its members back, except after a failed start,
   which leaves it with the remote root and the resolved files.
   */
  predicate MigrationDone(before: Members, after: Members, t: Tree, names: seq<string>, remote: string, m: Mode, xfer: nat,
                          log: seq<Exchange>, ret: int, status: Option<int>)
  {
    xfer > 0 &&
    if !AllOpen(t, before.root, names) then
      ret == ERR_UNKNOWN_FILE && status.None? && log == [] && after == before
    else
      && Replay(JobOf(t, before.root, names, remote, m, xfer), Idle, log) == Some(Done(ret, status))
      && after == if StartFailed(log) then Members(remote, names, []) else before
  }

  /**
   The start request. For it the fileset takes on the remote root and the
   resolved files; `saved` is what it had.
   */
  method Announce(ch: Channel, fset: Fileset, names: seq<string>, remote: string, sizes: seq<nat>, modes: seq<nat>, ghost j: Job)
    returns (ret: int, status: Option<int>, saved: Members)
    requires ch.log == [] && j.root == remote && j.names == names && j.sizes == sizes && j.modes == modes
    modifies ch, fset`root, fset`files, fset`directories
    ensures saved == old(MembersOf(fset)) && MembersOf(fset) == Members(remote, names, [])
    ensures |ch.log| == 1 && ch.log[0].ret == ret
    ensures Replay(j, Idle, ch.log) == Some(if ret == SUCCESS then Ready(0, SUCCESS) else Done(ret, status))
  {
    saved := Members(fset.root, fset.files, fset.directories);
    fset.files, fset.directories, fset.root := names, [], remote;
    var s;
    ret, s := ch.Call(Start(fset.root, fset.files, sizes, modes));
    ReplayOne(j, [], ch.log[0]);
    assert ch.log == [] + [ch.log[0]];
    status := if ret == ERR_USER then Some(s) else None;
  }

  /** migrate_end and what the client makes of its reply. */
  method Finish(ch: Channel, ghost j: Job) returns (ret: int, status: Option<int>)
    requires Replay(j, Idle, ch.log) == Some(Ready(Steps(j.work), SUCCESS))
    modifies ch
    ensures Replay(j, Idle, ch.log) == Some(Done(ret, status)) && old(ch.log) <= ch.log
  {
    var s;
    ghost var log := ch.log;
    ret, s := ch.Call(End);
    ReplayOne(j, log, Exchange(End, ret, s));
    status := Some(if ret == ERR_USER then s else 0);
  }

  /** The write requests and what follows, once the operation is open on the server. */
  method SendAll(ch: Channel, fds: seq<OpenFile>, sizes: seq<nat>, xfer: nat, policy: Policy, ghost j: Job)
    returns (ret: int, status: Option<int>)
    requires xfer > 0 && sizes == Sizes(DataOf(fds))
    requires forall a, b :: 0 <= a < b < |fds| ==> fds[a] != fds[b]
    requires forall a :: 0 <= a < |fds| ==> fds[a].pos == 0
    requires j.work == Chunked(policy, Plan(policy, DataOf(fds), xfer, 0))
    requires Replay(j, Idle, ch.log) == Some(Ready(0, SUCCESS))
    modifies ch, fds
    ensures Replay(j, Idle, ch.log) == Some(Done(ret, status)) && old(ch.log) <= ch.log
  {
    if policy.Sequential? {
      ret := SendSequential(ch, fds, sizes, xfer, j);
    } else {
      ret := SendPipelined(ch, fds, sizes, xfer, j);
    }
    if ret != SUCCESS {
      return ret, None;
    }
    ret, status := Finish(ch, j);
  }

  /** migrate_using_abtio. */
  method MigrateUsingAbtio(ch: Channel, fs: FileSystem, fset: Fileset, names: seq<string>, remote: string, policy: Policy)
    returns (ret: int, status: Option<int>)
    requires fset.Valid() && Increasing(names) && ch.log == []
    modifies ch, fset`root, fset`files, fset`directories
    ensures MigrationDone(old(MembersOf(fset)), MembersOf(fset), fs.tree, names, remote, Abtio(policy), fset.xferSize, ch.log, ret, status)
    ensures Told(ch.log, ret, status)
    ensures ch.log != [] ==> Sent(ch.log, fs.tree, old(fset.root), names, remote, Abtio(policy), fset.xferSize)
  {
    var xfer := fset.xferSize;
    ghost var t, root := fs.tree, fset.root;
    var r, fds, sizes, modes := OpenAll(fs, fset.root, names);
    if r != SUCCESS {
      return r, None;
    }
    ghost var j := JobOf(t, root, names, remote, Abtio(policy), xfer);
    var saved;
    ret, status, saved := Announce(ch, fset, names, remote, sizes, modes, j);
    if ret != SUCCESS {
      LogIsSent(ch.log, t, root, names, remote, Abtio(policy), xfer, ret, status);
      return;
    }
    fset.root, fset.files, fset.directories := saved.root, saved.files, saved.directories;
    ret, status := SendAll(ch, fds, sizes, xfer, policy, j);
    LogIsSent(ch.log, t, root, names, remote, Abtio(policy), xfer, ret, status);
  }

  /** migrate_using_mmap. */
  method MigrateUsingMmap(ch: Channel, fs: FileSystem, fset: Fileset, names: seq<string>, remote: string)
    returns (ret: int, status: Option<int>)
    requires fset.Valid() && Increasing(names) && ch.log == []
    modifies ch, fset`root, fset`files, fset`directories
    ensures MigrationDone(old(MembersOf(fset)), MembersOf(fset), fs.tree, names, remote, Mmap, fset.xferSize, ch.log, ret, status)
    ensures Told(ch.log, ret, status)
    ensures ch.log != [] ==> Sent(ch.log, fs.tree, old(fset.root), names, remote, Mmap, fset.xferSize)
  {
    ghost var t, root := fs.tree, fset.root;
    var r, segments, sizes, modes := MapAll(fs, fset.root, names);
    if r != SUCCESS {
      return r, None;
    }
    ghost var j := JobOf(t, root, names, remote, Mmap, fset.xferSize);
    var saved;
    ret, status, saved := Announce(ch, fset, names, remote, sizes, modes, j);
    if ret != SUCCESS {
      LogIsSent(ch.log, t, root, names, remote, Mmap, fset.xferSize, ret, status);
      return;
    }
    ghost var log := ch.log;
    var s;
    ret, s := ch.Call(Pull(segments));
    ReplayOne(j, log, Exchange(Pull(segments), ret, s));
    fset.root, fset.files, fset.directories := saved.root, saved.files, saved.directories;
    if ret != SUCCESS {
      status := None;
    } else {
      ret, status := Finish(ch, j);
    }
    LogIsSent(ch.log, t, root, names, remote, Mmap, fset.xferSize, ret, status);
  }

  /** A log after which the client returned SUCCESS ends with a migrate_end answered SUCCESS; `*status` is then 0. */
  lemma {:induction false} SuccessComesFromEnd(j: Job, s: Sender, log: seq<Exchange>)
    requires Replay(j, s, log).Some? && Replay(j, s, log).value.Done? && Replay(j, s, log).value.ret == SUCCESS && !s.Done?
    ensures Replay(j, s, log).value.status == Some(0)
    ensures log != [] && log[|log| - 1].req == End && log[|log| - 1].ret == SUCCESS
    ensures s.Idle? ==> log[0].ret == SUCCESS
    decreases |log|
  {
    var t := OnReply(j, s, log[0].ret, log[0].status);
    if t.Done? {
      DoneStops(j, t, log[1..]);
    } else {
      SuccessComesFromEnd(j, t, log[1..]);
    }
  }

  /** The removal loop over the migrated files. */
  method RemoveAll(fs: FileSystem, root: string, names: seq<string>)
    requires FileTree.WellFormed(fs.tree)
    modifies fs
    ensures fs.tree == RemoveFiles(old(fs.tree), root, names) && FileTree.WellFormed(fs.tree)
  {
    var i: nat := 0;
    ghost var rest := names;
    while i < |names|
      invariant i <= |names| && rest == names[i..] && FileTree.WellFormed(fs.tree)
      invariant RemoveFiles(fs.tree, root, rest) == RemoveFiles(old(fs.tree), root, names)
    {
      RemoveOneIs(fs.tree, root + names[i]);
      fs.Remove(root + names[i]);
      rest := rest[1..];
      i := i + 1;
    }
  }

  /** The removal loop over the registered directories. */
  method RemoveDirectories(fs: FileSystem, root: string, dirs: seq<string>)
    requires FileTree.WellFormed(fs.tree)
    modifies fs
    ensures fs.tree == RemoveDirs(old(fs.tree), root, dirs)
  {
    var i: nat := 0;
    ghost var rest := dirs;
    while i < |dirs|
      invariant i <= |dirs| && rest == dirs[i..] && FileTree.WellFormed(fs.tree)
      invariant RemoveDirs(fs.tree, root, rest) == RemoveDirs(old(fs.tree), root, dirs)
    {
      RemoveRec(fs, root + dirs[i]);
      rest := rest[1..];
      i := i + 1;
    }
  }

  /** Removal of the source, as remi_fileset_migrate ends with it. */
  method RemoveSource(fs: FileSystem, root: string, names: seq<string>, dirs: seq<string>)
    requires FileTree.WellFormed(fs.tree)
    modifies fs
    ensures fs.tree == AfterRemoval(old(fs.tree), root, names, dirs)
  {
    RemoveAll(fs, root, names);
    RemoveDirectories(fs, root, dirs);
  }

  /** The transfer in the mode asked for. */
  method Dispatch(ch: Channel, fs: FileSystem, fset: Fileset, names: seq<string>, remote: string, mode: Mode)
    returns (ret: int, st: Option<int>)
    requires fset.Valid() && Increasing(names) && ch.log == []
    modifies ch, fset`root, fset`files, fset`directories
    ensures MigrationDone(old(MembersOf(fset)), MembersOf(fset), fs.tree, names, remote, mode, fset.xferSize, ch.log, ret, st)
    ensures Told(ch.log, ret, st)
    ensures ch.log != [] ==> Sent(ch.log, fs.tree, old(fset.root), names, remote, mode, fset.xferSize)
    ensures ret == SUCCESS ==>
              && st == Some(0) && MembersOf(fset) == old(MembersOf(fset))
              && ch.log != [] && ch.log[|ch.log| - 1].req == End && ch.log[|ch.log| - 1].ret == SUCCESS
  {
    match mode {
      case Mmap => ret, st := MigrateUsingMmap(ch, fs, fset, names, remote);
      case Abtio(policy) => ret, st := MigrateUsingAbtio(ch, fs, fset, names, remote, policy);
    }
    if ret == SUCCESS {
      SuccessComesFromEnd(JobOf(fs.tree, old(fset.root), names, remote, mode, fset.xferSize), Idle, ch.log);
    }
  }

  /**
   remi_fileset_migrate. The source tree changes only when SUCCESS is returned
   with removal asked for, and then exactly as AfterRemoval says. `status0` is
   what the caller had in `*status`; `st` tells whether a reply set it.
   */
  method Migrate(ch: Channel, fs: FileSystem, fset: Fileset, remoteRoot: string, removeSource: bool, mode: Mode, status0: int)
    returns (ret: int, status: int, ghost names: seq<string>, ghost st: Option<int>)
    requires fset.Valid() && FileTree.WellFormed(fs.tree) && ch.log == []
    modifies ch, fs, fset`root, fset`files, fset`directories
    ensures status == if st.Some? then st.value else status0
    ensures if ch.log == [] then status == status0 && ret in {ERR_INVALID_ARG, ERR_UNKNOWN_FILE}
            else
              var last := ch.log[|ch.log| - 1];
              && ret == last.ret
              && status == if last.req.End? then (if ret == ERR_USER then last.status else 0)
                           else if last.req.Start? && ret == ERR_USER then last.status else status0
    ensures ch.log != [] ==>
              remoteRoot != "" && Sent(ch.log, old(fs.tree), old(fset.root), names, Slashed(remoteRoot), mode, fset.xferSize)
    ensures if remoteRoot == "" || remoteRoot[0] != '/' then
              ret == ERR_INVALID_ARG && ch.log == [] && MembersOf(fset) == old(MembersOf(fset)) && st.None?
            else
              && Increasing(names)
              && Elements(names) == Migrated(old(fs.tree), old(fset.root), old(Elements(fset.files)), old(fset.directories))
              && MigrationDone(old(MembersOf(fset)), MembersOf(fset), old(fs.tree), names, Slashed(remoteRoot), mode,
                               fset.xferSize, ch.log, ret, st)
    ensures ret == SUCCESS ==>
              && status == 0 && MembersOf(fset) == old(MembersOf(fset))
              && ch.log != [] && ch.log[|ch.log| - 1].req == End && ch.log[|ch.log| - 1].ret == SUCCESS
    ensures fs.tree == if ret == SUCCESS && removeSource then AfterRemoval(old(fs.tree), fset.root, names, fset.directories)
                       else old(fs.tree)
  {
    names, st := [], None;
    if remoteRoot == "" || remoteRoot[0] != '/' {
      return ERR_INVALID_ARG, status0, names, st;
    }
    var files := fset.Walkthrough(fs);
    names := files;
    var s;
    ret, s := Dispatch(ch, fs, fset, files, Slashed(remoteRoot), mode);
    st := s;
    status := if s.Some? then s.value else status0;
    if ret != SUCCESS {
      return;
    }
    if status != 0 {
      assert false;  // a non-zero status never comes with SUCCESS
    }
    if removeSource {
      RemoveSource(fs, fset.root, files, fset.directories);
    }
  }

  /** The remote root with the final slash that is added when it lacks one. */
  function Slashed(root: string): (r: string)
    requires root != ""
    ensures EndsInSlash(r) && Components(r) == Components(root)
    ensures r == root || (r == root + "/" && !EndsInSlash(root))
  {
    TrailingSlash(root);
    if root[|root| - 1] != '/' then root + "/" else root
  }
}
