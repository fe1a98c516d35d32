/**
 The handlers of src/remi-server.cpp as methods of the provider, each run from
 start to finish without interference. Their effect is stated with the same
 functions (Accepts, Store, Pulled) the protocol model interleaves.
 */
module Provider {
  import opened Codes
  import opened Transfer
  import opened Paths
  import opened FileTree
  import Mkdirs
  import opened Registry

  datatype Operation = Operation(info: FilesetInfo, sizes: seq<nat>, modes: seq<nat>, fds: seq<nat>, error: int)

  /** find_last_of('/'), -1 when there is none. */
  function LastSlash(s: string): (n: int)
    ensures -1 <= n < |s| && (forall i :: n < i < |s| ==> s[i] != '/') && (n >= 0 ==> s[n] == '/')
  {
    if s == "" then -1 else if s[|s| - 1] == '/' then |s| - 1 else LastSlash(s[..|s| - 1])
  }

  /** substr(0, find_last_of('/')): all of the string when it has no slash. */
  function DirPart(s: string): string {
    if LastSlash(s) < 0 then s else s[..LastSlash(s)]
  }

  /** access(F_OK) */
  predicate Exists(t: Tree, s: string) {
    var p := Components(s);
    p in t && (t[p].Directory? || !EndsInSlash(s))
  }

  /** open cannot find a regular file to truncate. */
  predicate Free(t: Tree, s: string) {
    !IsFile(t, Components(s)) || EndsInSlash(s)
  }

  /** open(O_CREAT | O_TRUNC) */
  function OpenCreate(t: Tree, s: string, mode: nat): Option<Tree> {
    var p := Components(s);
    if p == [] || EndsInSlash(s) || !IsDir(t, Up(p)) || IsDir(t, p) then None
    else Some(t[p := Regular([], if p in t then t[p].mode else mode)])
  }

  /** An absolute path whose directory part is not empty: what mkdirs needs. */
  predicate HasDir(s: string) {
    s != "" && s[0] == '/' && DirPart(s) != "" && Mkdirs.NUL !in s
  }

  /** The directory part is empty exactly for a name right below the file system's root. */
  lemma NoDirExactly(s: string)
    requires s != "" && s[0] == '/' && Mkdirs.NUL !in s
    ensures !HasDir(s) <==> forall i :: 0 < i < |s| ==> s[i] != '/'
  {
    assert LastSlash(s) >= 0;
  }

  /** The parent mkdirs prepares is the parent open needs. */
  lemma DirPartIsParent(s: string)
    requires HasDir(s) && !EndsInSlash(s)
    ensures Components(s) != [] && Components(DirPart(s)) == Up(Components(s))
  {
    var n := LastSlash(s);
    assert 0 < n < |s| - 1;
    Mkdirs.CutAtSlash(s, n);
    var base := s[n + 1..];
    assert IsName(base);
    ComponentsOfName(base);
    assert Components(s) == Components(s[..n]) + [base];
  }

  /** After mkdirs of the directory part, open fails only where a directory or a file is in the way. */
  lemma MkdirsThenOpen(t: Tree, s: string, mode: nat)
    requires FileTree.WellFormed(t) && HasDir(s) && !EndsInSlash(s)
    ensures var p, u := Components(s), Mkdirs.MakeAll(t, Components(DirPart(s)));
            OpenCreate(u, s, mode).Some? <==>
            !IsDir(t, p) && forall i :: 0 <= i < |p| ==> !IsFile(t, p[..i])
  {
    var p, d := Components(s), Components(DirPart(s));
    DirPartIsParent(s);
    ComponentsAreNames(DirPart(s));
    Mkdirs.MkdirsReaches(t, d);
    var u := Mkdirs.MakeAll(t, d);
    assert forall i :: 0 <= i <= |d| ==> d[..i] == p[..i];
    assert forall i :: 0 < i <= |d| ==> |d[..i]| < |p|;
  }

  // ------------------------------------------------------------------- operations

  function Target(info: FilesetInfo, i: nat): Path
    requires i < |info.files|
  {
    Components(info.root + info.files[i])
  }

  /** Every target has a directory part, and no two names denote the same file. */
  predicate GoodTargets(info: FilesetInfo) {
    && (forall i: nat :: i < |info.files| ==> HasDir(info.root + info.files[i]))
    && DistinctTargets(info)
  }

  /** The files of an operation exist, and its descriptors are open on them, in order. */
  predicate OpOk(op: Operation, t: Tree, fdTable: map<nat, Path>) {
    var n := |op.info.files|;
    && |op.sizes| == |op.fds| == n
    && AllThere(op.info, t)
    && (forall i: nat :: i < n ==> op.fds[i] in fdTable && fdTable[op.fds[i]] == Target(op.info, i))
    && DistinctTargets(op.info)
  }

  predicate Disjoint(a: FilesetInfo, b: FilesetInfo) {
    forall i: nat, k: nat :: i < |a.files| && k < |b.files| ==> Target(a, i) != Target(b, k)
  }

  predicate AllThere(info: FilesetInfo, t: Tree) {
    forall i: nat :: i < |info.files| ==> IsFile(t, Target(info, i))
  }

  function ContentsOf(info: FilesetInfo, t: Tree): (r: seq<Bytes>)
    requires AllThere(info, t)
    ensures |r| == |info.files| && forall i: nat :: i < |r| ==> r[i] == t[Target(info, i)].data
  {
    seq(|info.files|, (i: nat) requires i < |info.files| && IsFile(t, Target(info, i)) => t[Target(info, i)].data)
  }

  /** Outside the contents of the files of `info` nothing changed. */
  predicate OnlyTouches(info: FilesetInfo, t: Tree, u: Tree) {
    && t.Keys == u.Keys
    && forall p <- t :: t[p] == u[p] || (t[p].Regular? && u[p].Regular? && u[p].mode == t[p].mode && exists i: nat :: i < |info.files| && Target(info, i) == p)
  }

  function FdSet(fds: seq<nat>): set<nat> {
    set fd <- fds
  }

  /** The provider's state as a value. */
  datatype Server = Server(table: map<nat, Operation>, fdTable: map<nat, Path>, nextFd: nat, tree: Tree, reg: Classes)

  /** Operations own disjoint sets of existing files, each open through descriptors of their own. */
  predicate InOrder(p: Server) {
    && FileTree.WellFormed(p.tree)
    && (forall fd <- p.fdTable :: fd < p.nextFd)
    && (forall u <- p.table :: OpOk(p.table[u], p.tree, p.fdTable))
    && (forall u, v :: u in p.table && v in p.table && u != v ==> Disjoint(p.table[u].info, p.table[v].info))
  }

  // ------------------------------------------------ what each handler does to it

  /** A file or directory is there under the name of target `i`; a final slash only fits a directory. */
  predicate TargetExists(info: FilesetInfo, t: Tree, i: nat)
    requires i < |info.files|
  {
    var p := Components(info.root + info.files[i]);
    p in t && (EndsInSlash(info.root + info.files[i]) ==> t[p].Directory?)
  }

  /**
   migrate_start. Nothing that exists is lost or changed. A refused start
   leaves no operation and no open descriptor; an accepted one has created
   every target empty, with the mode of the same index, and opened it. The
   before-callback decides whether it comes to that; a class without one is
   refused, with status 1.
   */
  ghost predicate StartDone(p: Server, p': Server, uuid: nat, info: FilesetInfo, sizes: seq<nat>, modes: seq<nat>, ret: int, status: int)
    requires |modes| == |info.files|
  {
    && (if info.key !in p.reg.table then ret == ERR_UNKNOWN_CLASS && status == 1
        else if exists i: nat :: i < |info.files| && TargetExists(info, p.tree, i) then ret == ERR_FILE_EXISTS && status == 1
        else match p.reg.table[info.key].before
          case None => ret == ERR_USER && status == 1
          case Some(before) => status == before(info) && if status != 0 then ret == ERR_USER else ret in {SUCCESS, ERR_IO})
    && p'.reg == p.reg
    && (ret !in {SUCCESS, ERR_IO} ==> p'.tree == p.tree)
    && (ret != SUCCESS ==> p'.table == p.table && p'.fdTable == p.fdTable)
    && (ret == ERR_IO ==> exists n: nat :: n < |info.files| && CreatedTo(info, modes, p.tree, p'.tree, n))
    && (ret == SUCCESS ==>
          && CreatedTo(info, modes, p.tree, p'.tree, |info.files|)
          && uuid in p'.table && p'.table == p.table[uuid := Operation(info, sizes, modes, p'.table[uuid].fds, SUCCESS)]
          && |p'.table[uuid].fds| == |info.files|
          && Created(info, modes, p'.tree, p.fdTable, p'.fdTable, p'.table[uuid].fds, p.nextFd))
  }

  /**
   Nothing in the tree, and no earlier target, keeps target `i` from being
   created: its name does not end in a slash, no regular file is where a
   directory on its way has to be, and it neither lies below an earlier target
   nor is a directory on the way to one.
   */
  ghost predicate Openable(info: FilesetInfo, t: Tree, i: nat)
    requires i < |info.files|
  {
    var p := Target(info, i);
    && !EndsInSlash(info.root + info.files[i])
    && (forall k: nat :: k < |p| ==> !IsFile(t, p[..k]))
    && forall j: nat :: j < i ==> !(Target(info, j) < p) && !(p < Target(info, j))
  }

  /**
   migrate_write. An unknown identifier changes nothing, a chunk that fails the
   tests costs the operation its place in the table, an accepted one is stored
   as far as pwrite took it.
   */
  ghost predicate WriteDone(p: Server, p': Server, uuid: nat, k: Chunk, ret: int, stored: int) {
    && p'.fdTable == p.fdTable && p'.reg == p.reg
    && if uuid !in p.table then ret == ERR_INVALID_OPID && p'.table == p.table && p'.tree == p.tree
       else if !Accepts(p.table[uuid].sizes, k) then ret == ERR_IO && p'.table == p.table - {uuid} && p'.tree == p.tree
       else
         && ret == SUCCESS && uuid in p'.table && p'.table == p.table[uuid := p'.table[uuid]]
         && ChunkWritten(p.table[uuid], p'.table[uuid], p.tree, p'.tree, k, stored)
  }

  /**
   migrate_end. The descriptors of the operation are closed and the operation
   leaves the table, whatever the outcome; a sticky error is the result,
   otherwise the after-callback decides. A class that is gone is re-created empty.
   */
  ghost predicate EndDone(p: Server, p': Server, uuid: nat, ret: int, status: int) {
    && p'.tree == p.tree
    && if uuid !in p.table then
         ret == ERR_INVALID_OPID && status == 0 && p'.table == p.table && p'.fdTable == p.fdTable && p'.reg == p.reg
       else
         var op := p.table[uuid];
         && p'.table == p.table - {uuid} && p'.fdTable == p.fdTable - FdSet(op.fds)
         && if op.error != SUCCESS then ret == op.error && status == 0 && p'.reg == p.reg
            else
              && ClassFound(p.reg, p'.reg, op.info.key)
              && (match p'.reg.table[op.info.key].after
                  case None => status == 0
                  case Some(after) => status == after(op.info))
              && ret == if status == 0 then SUCCESS else ERR_USER
  }

  /** The class of `key` after it was looked up for writing: what it was, or else an entry without callbacks and nothing to free. */
  ghost predicate ClassFound(c: Classes, c': Classes, key: ClassKey) {
    && key in c'.table
    && (key in c.table ==> c'.table[key] == c.table[key])
    && (key !in c.table ==> c'.table[key].before.None? && c'.table[key].after.None? && !c'.table[key].frees)
    && c'.table - {key} == c.table - {key} && c'.freed == c.freed && c'.owed == c.owed && c'.next == c.next
  }

  /** Which files of an operation can be mapped: those that ftruncate and mmap do not refuse. */
  predicate AllMapped(sizes: seq<nat>, refused: set<nat>) {
    forall i: nat :: i < |sizes| && sizes[i] != 0 ==> i !in refused && sizes[i] < OFFSET_LIMIT
  }

  /**
   migrate_mmap, given the files the system refuses to truncate or map, the
   number of bytes the bulk transfer brings, and whether msync succeeds. When
   it is SUCCESS, the client's segments, laid end to end, were split over the
   files by their declared sizes. An I/O error erases the operation; a short
   transfer does not. Whatever happens, a file keeps its contents or has its
   declared size.
   */
  ghost predicate MmapDone(p: Server, p': Server, uuid: nat, segments: seq<Bytes>, refused: set<nat>, transferred: nat, synced: bool, ret: int) {
    && p'.fdTable == p.fdTable && p'.reg == p.reg
    && if uuid !in p.table then ret == ERR_INVALID_OPID && p'.table == p.table && p'.tree == p.tree
       else
         var op := p.table[uuid];
         && ret == (if !AllMapped(op.sizes, refused) then ERR_IO
                    else if transferred != Sum(op.sizes) then ERR_MIGRATION
                    else if !synced then ERR_IO else SUCCESS)
         && p'.table == (if AllMapped(op.sizes, refused) && (transferred != Sum(op.sizes) || synced) then p.table else p.table - {uuid})
         && AllThere(op.info, p.tree) && AllThere(op.info, p'.tree) && OnlyTouches(op.info, p.tree, p'.tree)
         && KeptOrSized(op.sizes, ContentsOf(op.info, p.tree), ContentsOf(op.info, p'.tree), AllMapped(op.sizes, refused))
         && (ret == SUCCESS && |Flatten(segments)| == Sum(op.sizes) && EmptyAreEmpty(op.sizes, ContentsOf(op.info, p.tree)) ==>
               ContentsOf(op.info, p'.tree) == Pulled(op.sizes, segments))
  }

  class Provider {
    const store: FileSystem
    var table: map<nat, Operation>
    var fdTable: map<nat, Path>
    var nextFd: nat
    var classes: map<ClassKey, MigrationClass>
    var freed: multiset<nat>
    var owed: set<nat>
    var registered: nat

    function Now(): Server
      reads this, store
    {
      Server(table, fdTable, nextFd, store.tree, Reg())
    }

    predicate Valid()
      reads this, store
    {
      InOrder(Now())
    }

    function Reg(): Classes
      reads this
    {
      Classes(classes, freed, owed, registered)
    }

    constructor (store: FileSystem)
      requires FileTree.WellFormed(store.tree)
      ensures Valid() && this.store == store && table == map[] && fdTable == map[]
      ensures Reg() == Classes(map[], multiset{}, {}, 0)
    {
      this.store := store;
      table, fdTable, nextFd := map[], map[], 0;
      classes, freed, owed, registered := map[], multiset{}, {}, 0;
    }

    // ------------------------------------------------------------------ registry

    method RegisterClass(key: ClassKey, before: Option<Callback>, after: Option<Callback>, frees: bool) returns (ret: int)
      modifies `classes, `owed, `registered
      ensures Reg() == Step(old(Reg()), Register(key, before, after, frees))
      ensures if key in old(classes) then ret == ERR_CLASS_EXISTS && Reg() == old(Reg())
              else ret == SUCCESS && classes == old(classes)[key := MigrationClass(before, after, frees, old(registered))]
    {
      if key in classes { return ERR_CLASS_EXISTS; }
      classes := classes[key := MigrationClass(before, after, frees, registered)];
      if frees { owed := owed + {registered}; }
      registered := registered + 1;
      ret := SUCCESS;
    }

    method DeregisterClass(key: ClassKey) returns (ret: int)
      modifies `classes, `freed
      ensures Reg() == Step(old(Reg()), Deregister(key))
      ensures ret == (if key in old(classes) then SUCCESS else ERR_UNKNOWN_CLASS) && classes == old(classes) - {key}
      ensures freed == old(freed) + if key in old(classes) && old(classes)[key].frees then multiset{old(classes)[key].id} else multiset{}
    {
      if key !in classes { return ERR_UNKNOWN_CLASS; }
      if classes[key].frees { freed := freed + multiset{classes[key].id}; }
      classes := classes - {key};
      ret := SUCCESS;
    }

    /** remi_on_finalize: one pass over the entries. */
    method Finalize()
      requires Accounted(Reg())
      modifies `freed
      ensures freed == Finalized(old(Reg()))
    {
      var todo := classes.Keys;
      ghost var called: set<nat> := {};
      while todo != {}
        invariant todo <= classes.Keys && freed == old(freed) + multiset(called)
        invariant called == set k | k in classes && k !in todo && classes[k].frees :: classes[k].id
      {
        var k :| k in todo;
        if classes[k].frees {
          freed := freed + multiset{classes[k].id};
          called := called + {classes[k].id};
        }
        todo := todo - {k};
      }
      assert called == Live(old(Reg()));
    }

    // --------------------------------------------------------------- descriptors

    method Close(fd: nat)
      requires fd in fdTable
      modifies `fdTable
      ensures fdTable == old(fdTable) - {fd}
    {
      fdTable := fdTable - {fd};
    }

    /** Every descriptor is open when its turn comes, so each is closed once. */
    method CloseAll(fds: seq<nat>)
      requires forall i :: 0 <= i < |fds| ==> fds[i] in fdTable
      requires forall i, k :: 0 <= i < k < |fds| ==> fds[i] != fds[k]
      modifies `fdTable
      ensures fdTable == old(fdTable) - FdSet(fds)
    {
      var i: nat := 0;
      while i < |fds|
        invariant i <= |fds| && fdTable == old(fdTable) - FdSet(fds[..i])
        invariant forall k :: i <= k < |fds| ==> fds[k] in fdTable
      {
        assert fds[..i + 1] == fds[..i] + [fds[i]];
        Close(fds[i]);
        i := i + 1;
      }
      assert fds[..|fds|] == fds;
    }

    // ------------------------------------------------------------- migrate_start

    /** mkdirs and open for one target; the system may refuse the latter for reasons of its own. */
    method CreateFile(s: string, mode: nat, refused: bool) returns (fd: Option<nat>)
      requires HasDir(s) && FileTree.WellFormed(store.tree) && Free(store.tree, s)
      modifies store, `fdTable, `nextFd
      ensures FileMade(s, mode, old(store.tree), store.tree, old(fdTable), fdTable, old(nextFd), fd)
      ensures nextFd == old(nextFd) + if fd.Some? then 1 else 0
      ensures fd.Some? <==> !refused && OpenCreate(Mkdirs.MakeAll(old(store.tree), Components(DirPart(s))), s, mode).Some?
    {
      CreationGrows(store.tree, s, mode);
      Mkdirs.MakeDirs(store, DirPart(s));
      var u := OpenCreate(store.tree, s, mode);
      if u.None? || refused { return None; }
      store.tree := u.value;
      fdTable := fdTable[nextFd := Components(s)];
      nextFd := nextFd + 1;
      fd := Some(nextFd - 1);
    }

    /** One round of the creation loop. */
    method CreateNext(info: FilesetInfo, modes: seq<nat>, fds: seq<nat>, refused: bool,
                      ghost t0: Tree, ghost fdt0: map<nat, Path>, ghost fd0: nat)
      returns (fd: Option<nat>)
      requires GoodTargets(info) && |modes| == |info.files| && |fds| < |info.files| && nextFd == fd0 + |fds|
      requires NoneExists(info, t0)
      requires Underway(info, modes, t0, store.tree, fdt0, fdTable, fds, fd0)
      modifies store, `fdTable, `nextFd
      ensures nextFd == old(nextFd) + if fd.Some? then 1 else 0
      ensures fd.Some? <==> !refused && Openable(info, t0, |fds|)
      ensures if fd.Some? then Underway(info, modes, t0, store.tree, fdt0, fdTable, fds + [fd.value], fd0)
              else Stopped(info, modes, t0, store.tree, fdt0, fdTable, fds, fd0)
    {
      ghost var t, table := store.tree, fdTable;
      NextIsFree(info, modes, t0, t, fdt0, table, fds, fd0);
      OpensExactly(info, modes, t0, t, fdt0, table, fds, fd0);
      fd := CreateFile(info.root + info.files[|fds|], modes[|fds|], refused);
      UnderwayNext(info, modes, t0, t, store.tree, fdt0, table, fdTable, fds, fd0, fd);
    }

    /**
     The creation loop of migrate_start. It stops at the first file that the
     system refuses or that cannot be created, and closes what it has opened.
     */
    method CreateFiles(info: FilesetInfo, modes: seq<nat>, refused: set<nat>) returns (ok: bool, fds: seq<nat>, ghost n: nat)
      requires FileTree.WellFormed(store.tree) && GoodTargets(info) && |modes| == |info.files|
      requires forall fd <- fdTable :: fd < nextFd
      requires NoneExists(info, store.tree)
      modifies store, `fdTable, `nextFd
      ensures n <= |info.files| && (ok <==> n == |info.files|) && nextFd == old(nextFd) + n
      ensures forall i: nat :: i < n ==> i !in refused && Openable(info, old(store.tree), i)
      ensures n < |info.files| ==> n in refused || !Openable(info, old(store.tree), n)
      ensures GrownTo(info, old(store.tree), store.tree, n) && Blanks(info, modes, store.tree, n)
      ensures if !ok then fdTable == old(fdTable)
              else |fds| == n && Created(info, modes, store.tree, old(fdTable), fdTable, fds, old(nextFd))
    {
      fds := [];
      n := 0;
      while |fds| < |info.files|
        invariant n == |fds| <= |info.files| && nextFd == old(nextFd) + n
        invariant Underway(info, modes, old(store.tree), store.tree, old(fdTable), fdTable, fds, old(nextFd))
        invariant forall i: nat :: i < n ==> i !in refused && Openable(info, old(store.tree), i)
      {
        var fd := CreateNext(info, modes, fds, |fds| in refused, old(store.tree), old(fdTable), old(nextFd));
        if fd.None? {
          GrownWidely(info, old(store.tree), store.tree, n, n + 1);
          CloseAll(fds);
          return false, [], n;
        }
        fds := fds + [fd.value];
        n := n + 1;
      }
      GrownWidely(info, old(store.tree), store.tree, n, n);
      ok := true;
    }

    /** Whether one of the targets exists. */
    method AnyExists(info: FilesetInfo) returns (found: bool)
      ensures found <==> exists i: nat :: i < |info.files| && TargetExists(info, store.tree, i)
    {
      var i: nat := 0;
      while i < |info.files|
        invariant i <= |info.files| && forall k: nat :: k < i ==> !TargetExists(info, store.tree, k)
      {
        if Exists(store.tree, info.root + info.files[i]) {
          assert TargetExists(info, store.tree, i);
          return true;
        }
        i := i + 1;
      }
      found := false;
    }

    /** The checks in front of the creation of files. */
    method Admit(info: FilesetInfo) returns (ret: int, status: int)
      ensures if info.key !in classes then ret == ERR_UNKNOWN_CLASS && status == 1
              else if exists i: nat :: i < |info.files| && TargetExists(info, store.tree, i) then ret == ERR_FILE_EXISTS && status == 1
              else match classes[info.key].before
                case None => ret == ERR_USER && status == 1
                case Some(before) => status == before(info) && ret == if status != 0 then ERR_USER else SUCCESS
    {
      status := 1;
      if info.key !in classes {
        return ERR_UNKNOWN_CLASS, status;
      }
      var found := AnyExists(info);
      if found {
        return ERR_FILE_EXISTS, status;
      }
      var klass := classes[info.key];
      if klass.before.Some? {
        status := klass.before.value(info);
      }
      ret := if status != 0 then ERR_USER else SUCCESS;
    }

    /**
     migrate_start, given the files the system refuses to open. Once admitted,
     it is SUCCESS exactly when no file is refused and every target can be
     created; otherwise it has stopped at the first one.
     */
    method MigrateStart(uuid: nat, info: FilesetInfo, sizes: seq<nat>, modes: seq<nat>, refused: set<nat>) returns (ret: int, status: int)
      requires Valid() && uuid !in table && GoodTargets(info) && |sizes| == |modes| == |info.files|
      modifies `table, `fdTable, `nextFd, store
      ensures Valid() && StartDone(old(Now()), Now(), uuid, info, sizes, modes, ret, status)
      ensures ret in {SUCCESS, ERR_IO} ==>
                (ret == SUCCESS <==> forall i: nat :: i < |info.files| ==> i !in refused && Openable(info, old(store.tree), i))
      ensures ret == ERR_IO ==>
                exists n: nat ::
                  && n < |info.files| && (n in refused || !Openable(info, old(store.tree), n))
                  && (forall i: nat :: i < n ==> i !in refused && Openable(info, old(store.tree), i))
                  && CreatedTo(info, modes, old(store.tree), store.tree, n)
    {
      ret, status := Admit(info);
      if ret != SUCCESS {
        return;
      }
      var ok, fds, n := CreateFiles(info, modes, refused);
      StillOk(old(table), old(store.tree), store.tree, old(fdTable), fdTable, info, n);
      NoneExistedBefore(info, modes, old(store.tree), store.tree, n);
      if !ok {
        return ERR_IO, status;
      }
      CreatedFresh(info, modes, old(store.tree), store.tree, old(fdTable), fdTable, fds, old(nextFd), old(table), sizes);
      table := table[uuid := Operation(info, sizes, modes, fds, SUCCESS)];
    }

    // ------------------------------------------------------------- migrate_write

    /** pwrite on the descriptor of the chunk's file, when the system is ready to take `taken` bytes, or to fail if that is negative. */
    method WriteChunk(op: Operation, k: Chunk, taken: int) returns (s: int)
      requires OpOk(op, store.tree, fdTable) && FileTree.WellFormed(store.tree) && k.file < |op.fds|
      modifies store
      ensures s == PwriteResult(k, taken) && FileTree.WellFormed(store.tree)
      ensures AllThere(op.info, store.tree) && OnlyTouches(op.info, old(store.tree), store.tree)
      ensures ContentsOf(op.info, store.tree) == Store(ContentsOf(op.info, old(store.tree)), k, Max(s, 0))
    {
      var path := fdTable[op.fds[k.file]];
      s := PwriteResult(k, taken);
      var f := store.tree[path];
      var d := PWrite(f.data, k.offset, k.data[..Max(s, 0)]);
      WriteInto(op.info, store.tree, k.file, d);
      store.tree := store.tree[path := Regular(d, f.mode)];
    }

    /** The write that follows the early reply; a short one is noted in the operation only. */
    method WriteAfterReply(uuid: nat, k: Chunk, taken: int) returns (stored: int)
      requires Valid() && uuid in table && Accepts(table[uuid].sizes, k)
      modifies `table, store
      ensures Valid() && stored == PwriteResult(k, taken)
      ensures uuid in table && table == old(table)[uuid := table[uuid]]
      ensures ChunkWritten(old(table)[uuid], table[uuid], old(store.tree), store.tree, k, stored)
    {
      var op := table[uuid];
      stored := WriteChunk(op, k, taken);
      TouchKeepsOps(table, fdTable, op.info, old(store.tree), store.tree);
      if stored != |k.data| {
        ErrorKeepsOps(table, uuid, store.tree, fdTable);
        table := table[uuid := op.(error := ERR_IO)];
      }
    }

    /** The two tests on a chunk: index, then size, whose sum is a size_t. */
    method Fits(op: Operation, k: Chunk) returns (ok: bool)
      requires |op.sizes| == |op.fds|
      ensures ok <==> Accepts(op.sizes, k)
    {
      if k.file >= |op.fds| {
        return false;
      }
      ok := op.sizes[k.file] >= (k.offset + |k.data|) % SIZE_LIMIT;
    }

    /** The clean-up shared by the error paths: the operation leaves the table, its descriptors stay open. */
    method Erase(uuid: nat)
      requires Valid()
      modifies `table
      ensures Valid() && table == old(table) - {uuid}
    {
      table := table - {uuid};
    }

    /**
     migrate_write, in the order of the source: refuse an unknown id; on a bad
     index or size erase the operation and fail; otherwise answer SUCCESS
     first and write after. `stored` is what pwrite returned, given what the
     system was ready to take.
     */
    method MigrateWrite(uuid: nat, k: Chunk, taken: int) returns (ret: int, ghost stored: int)
      requires Valid()
      modifies `table, store
      ensures Valid() && WriteDone(old(Now()), Now(), uuid, k, ret, stored)
      ensures ret == SUCCESS ==> stored == if taken < 0 || k.offset >= OFFSET_LIMIT then -1 else Min(taken, |k.data|)
    {
      stored := 0;
      if uuid !in table {
        return ERR_INVALID_OPID, 0;
      }
      var fits := Fits(table[uuid], k);
      if !fits {
        Erase(uuid);
        return ERR_IO, 0;
      }
      ret := SUCCESS;
      var s := WriteAfterReply(uuid, k, taken);
      stored := s;
    }

    // --------------------------------------------------------------- migrate_end

    method MigrateEnd(uuid: nat) returns (ret: int, status: int)
      requires Valid()
      modifies `table, `fdTable, `classes
      ensures Valid() && EndDone(old(Now()), Now(), uuid, ret, status)
    {
      status := 0;
      if uuid !in table {
        return ERR_INVALID_OPID, 0;
      }
      var op := table[uuid];
      DescriptorsDiffer(op, store.tree, fdTable);
      CloseAll(op.fds);
      ClosingKeepsOps(table, uuid, store.tree, old(fdTable));
      if op.error != SUCCESS {
        ret := op.error;
        table := table - {uuid};
        return;
      }
      if op.info.key !in classes {
        classes := classes[op.info.key := MigrationClass(None, None, false, 0)];
      }
      var klass := classes[op.info.key];
      if klass.after.Some? {
        status := klass.after.value(op.info);
      }
      ret := if status == 0 then SUCCESS else ERR_USER;
      table := table - {uuid};
    }

    // -------------------------------------------------------------- migrate_mmap

    /** ftruncate and mmap of one file: it gets its declared size, a new tail reading as zeros, unless the system refuses; ftruncate does for a size beyond off_t. */
    method MapFile(info: FilesetInfo, i: nat, size: nat, refused: bool) returns (ok: bool)
      requires i < |info.files| && AllThere(info, store.tree) && FileTree.WellFormed(store.tree) && DistinctTargets(info)
      modifies store
      ensures AllThere(info, store.tree) && FileTree.WellFormed(store.tree)
      ensures OnlyTouches(info, old(store.tree), store.tree)
      ensures ContentsOf(info, store.tree) ==
              if ok then ContentsOf(info, old(store.tree))[i := Resized(ContentsOf(info, old(store.tree))[i], size)]
              else ContentsOf(info, old(store.tree))
      ensures ok <==> !refused && size < OFFSET_LIMIT
    {
      ok := !refused && size < OFFSET_LIMIT;
      if ok {
        var p := Target(info, i);
        var d := Resized(store.tree[p].data, size);
        WriteInto(info, store.tree, i, d);
        store.tree := store.tree[p := Regular(d, store.tree[p].mode)];
      }
    }

    /**
     The mapping loop: every non-empty file is given its declared size, empty
     ones are skipped. A failure leaves the files behind it as they were.
     */
    method MapFiles(info: FilesetInfo, sizes: seq<nat>, refused: set<nat>) returns (ok: bool)
      requires AllThere(info, store.tree) && FileTree.WellFormed(store.tree) && DistinctTargets(info) && |sizes| == |info.files|
      modifies store
      ensures AllThere(info, store.tree) && FileTree.WellFormed(store.tree)
      ensures OnlyTouches(info, old(store.tree), store.tree)
      ensures ok <==> AllMapped(sizes, refused)
      ensures exists n: nat :: n <= |sizes| && (ok <==> n == |sizes|) &&
                ContentsOf(info, store.tree) == Mapped(sizes, ContentsOf(info, old(store.tree)), n)
    {
      ghost var c0 := ContentsOf(info, store.tree);
      var i: nat := 0;
      while i < |info.files|
        invariant i <= |info.files| && AllThere(info, store.tree) && FileTree.WellFormed(store.tree)
        invariant OnlyTouches(info, old(store.tree), store.tree)
        invariant ContentsOf(info, store.tree) == Mapped(sizes, c0, i)
        invariant forall k: nat :: k < i && sizes[k] != 0 ==> k !in refused && sizes[k] < OFFSET_LIMIT
      {
        if sizes[i] != 0 {
          ghost var t := store.tree;
          var mapped := MapFile(info, i, sizes[i], i in refused);
          TouchesMore(info, old(store.tree), t, store.tree);
          if !mapped { return false; }
        }
        MappedNext(sizes, c0, i);
        i := i + 1;
      }
      ok := true;
    }

    /** The bulk transfer lands in the mapped files one after the other, in file order. */
    method Land(info: FilesetInfo, sizes: seq<nat>, data: Bytes)
      requires AllThere(info, store.tree) && FileTree.WellFormed(store.tree) && DistinctTargets(info)
      requires |sizes| == |info.files| && |data| == Sum(sizes)
      modifies store
      ensures AllThere(info, store.tree) && FileTree.WellFormed(store.tree)
      ensures OnlyTouches(info, old(store.tree), store.tree)
      ensures forall k :: 0 <= k < |sizes| ==>
                ContentsOf(info, store.tree)[k] == if sizes[k] == 0 then ContentsOf(info, old(store.tree))[k] else Scatter(sizes, data)[k]
    {
      ghost var c0 := ContentsOf(info, store.tree);
      var i: nat, off: nat := 0, 0;
      assert sizes[..0] == [];
      while i < |info.files|
        invariant i <= |info.files| && AllThere(info, store.tree) && FileTree.WellFormed(store.tree) && off == Sum(sizes[..i])
        invariant OnlyTouches(info, old(store.tree), store.tree)
        invariant forall k :: 0 <= k < |sizes| ==>
                    ContentsOf(info, store.tree)[k] == if sizes[k] == 0 || k >= i then c0[k] else Scatter(sizes, data)[k]
      {
        ScatterAt(sizes, data, i);
        if sizes[i] != 0 {
          ghost var t := store.tree;
          var p, d := Target(info, i), data[off..off + sizes[i]];
          WriteInto(info, store.tree, i, d);
          store.tree := store.tree[p := Regular(d, store.tree[p].mode)];
          TouchesMore(info, old(store.tree), t, store.tree);
          off := off + sizes[i];
        }
        i := i + 1;
      }
    }

    /** The declared sizes added up. */
    static method TotalSize(sizes: seq<nat>) returns (total: nat)
      ensures total == Sum(sizes)
    {
      total := 0;
      var i: nat := 0;
      while i < |sizes|
        invariant i <= |sizes| && total == Sum(sizes[..i])
      {
        assert sizes[..i + 1] == sizes[..i] + [sizes[i]];
        SumAppend(sizes[..i], sizes[i]);
        total := total + sizes[i];
        i := i + 1;
      }
      assert sizes[..|sizes|] == sizes;
    }

    /** Truncation and mapping of an operation's files. */
    method MapOperation(uuid: nat, refused: set<nat>) returns (ok: bool)
      requires Valid() && uuid in table
      modifies store
      ensures ok <==> AllMapped(table[uuid].sizes, refused)
      ensures Valid() && AllThere(table[uuid].info, old(store.tree)) && AllThere(table[uuid].info, store.tree)
      ensures OnlyTouches(table[uuid].info, old(store.tree), store.tree)
      ensures KeptOrSized(table[uuid].sizes, ContentsOf(table[uuid].info, old(store.tree)), ContentsOf(table[uuid].info, store.tree), ok)
    {
      var op := table[uuid];
      ok := MapFiles(op.info, op.sizes, refused);
      TouchKeepsOps(table, fdTable, op.info, old(store.tree), store.tree);
      MappedKept(op.sizes, ContentsOf(op.info, old(store.tree)), ContentsOf(op.info, store.tree), ok);
    }

    /** The transfer into an operation's mapped files. */
    method LandOperation(uuid: nat, data: Bytes)
      requires Valid() && uuid in table && |data| == Sum(table[uuid].sizes)
      modifies store
      ensures Valid() && AllThere(table[uuid].info, old(store.tree)) && AllThere(table[uuid].info, store.tree)
      ensures OnlyTouches(table[uuid].info, old(store.tree), store.tree)
      ensures Landed(table[uuid].sizes, ContentsOf(table[uuid].info, old(store.tree)), ContentsOf(table[uuid].info, store.tree), data)
    {
      var op := table[uuid];
      Land(op.info, op.sizes, data);
      TouchKeepsOps(table, fdTable, op.info, old(store.tree), store.tree);
    }

    method MigrateMmap(uuid: nat, segments: seq<Bytes>, refused: set<nat>, transferred: nat, leftover: Bytes, synced: bool) returns (ret: int)
      requires Valid() && transferred <= |Flatten(segments)|
      modifies `table, store
      ensures Valid() && MmapDone(old(Now()), Now(), uuid, segments, refused, transferred, synced, ret)
    {
      if uuid !in table {
        return ERR_INVALID_OPID;
      }
      var op := table[uuid];
      var total := TotalSize(op.sizes);
      var mapped := MapOperation(uuid, refused);
      if !mapped {
        Erase(uuid);
        return ERR_IO;
      }
      ghost var t := store.tree;
      // a short transfer leaves anything in the mapped memory
      var landed := if transferred == total then Flatten(segments)[..total] else if |leftover| == total then leftover else seq(total, _ => 0);
      LandOperation(uuid, landed);
      TouchesMore(op.info, old(store.tree), t, store.tree);
      LandedKept(op.sizes, ContentsOf(op.info, old(store.tree)), ContentsOf(op.info, t), ContentsOf(op.info, store.tree), landed);
      if transferred != total {
        return ERR_MIGRATION;
      }
      if !synced {
        Erase(uuid);
        return ERR_IO;
      }
      LandedWhole(op.sizes, ContentsOf(op.info, old(store.tree)), ContentsOf(op.info, t), ContentsOf(op.info, store.tree), segments);
      ret := SUCCESS;
    }
  }

  /** What pwrite returns when the system is ready to take `taken` bytes. */
  function PwriteResult(k: Chunk, taken: int): (s: int)
    ensures -1 <= s <= |k.data|
  {
    if taken < 0 || !Storable(k) then -1 else Min(taken, |k.data|)
  }

  /**
   The first `stored` bytes of `k` (none for -1) went into the file and at the
   offset it names, nothing else changed, and a short write is noted.
   */
  predicate ChunkWritten(op: Operation, op': Operation, t: Tree, u: Tree, k: Chunk, stored: int) {
    && -1 <= stored <= |k.data| && (!Storable(k) ==> stored == -1) && k.file < |op.info.files|
    && op' == (if stored == |k.data| then op else op.(error := ERR_IO))
    && AllThere(op.info, t) && AllThere(op.info, u)
    && ContentsOf(op.info, u) == Store(ContentsOf(op.info, t), k, Max(stored, 0))
    && OnlyTouches(op.info, t, u)
  }

  /** A file cut or extended with zeros. */
  function Resized(d: Bytes, size: nat): (r: Bytes)
    ensures |r| == size && forall k :: 0 <= k < size ==> r[k] == if k < |d| then d[k] else 0
  {
    if size <= |d| then d[..size] else d + seq(size - |d|, _ => 0)
  }

  /** Contents once the first `n` files have been looked at by the mapping loop. */
  function Mapped(sizes: seq<nat>, c: seq<Bytes>, n: nat): (r: seq<Bytes>)
    requires |c| == |sizes|
    ensures |r| == |c|
  {
    seq(|c|, i requires 0 <= i < |c| => if i < n && sizes[i] != 0 then Resized(c[i], sizes[i]) else c[i])
  }

  lemma MappedNext(sizes: seq<nat>, c: seq<Bytes>, n: nat)
    requires |c| == |sizes| && n < |c|
    ensures var m := Mapped(sizes, c, n);
            Mapped(sizes, c, n + 1) == if sizes[n] == 0 then m else m[n := Resized(m[n], sizes[n])]
  {
  }

  /** Empty files are left alone, and the others keep their contents or have got their declared size; all of them have if `all`. */
  predicate KeptOrSized(sizes: seq<nat>, c: seq<Bytes>, c': seq<Bytes>, all: bool) {
    |c| == |c'| == |sizes| &&
    forall i :: 0 <= i < |c| ==> if sizes[i] == 0 then c'[i] == c[i] else |c'[i]| == sizes[i] || (!all && c'[i] == c[i])
  }

  lemma MappedKept(sizes: seq<nat>, c: seq<Bytes>, c': seq<Bytes>, all: bool)
    requires |c| == |sizes| && exists n: nat :: n <= |sizes| && (all <==> n == |sizes|) && c' == Mapped(sizes, c, n)
    ensures KeptOrSized(sizes, c, c', all)
  {
  }

  /** Every non-empty file holds its piece of `data`. */
  predicate Landed(sizes: seq<nat>, c: seq<Bytes>, c': seq<Bytes>, data: Bytes) {
    |data| == Sum(sizes) && |c| == |c'| == |sizes| &&
    forall k :: 0 <= k < |sizes| ==> c'[k] == if sizes[k] == 0 then c[k] else Scatter(sizes, data)[k]
  }

  lemma LandedKept(sizes: seq<nat>, c: seq<Bytes>, c1: seq<Bytes>, c2: seq<Bytes>, data: Bytes)
    requires KeptOrSized(sizes, c, c1, true) && Landed(sizes, c1, c2, data)
    ensures KeptOrSized(sizes, c, c2, true)
  {
  }

  lemma LandedWhole(sizes: seq<nat>, c: seq<Bytes>, c1: seq<Bytes>, c2: seq<Bytes>, segments: seq<Bytes>)
    requires Sum(sizes) <= |Flatten(segments)|
    requires KeptOrSized(sizes, c, c1, true) && Landed(sizes, c1, c2, Flatten(segments)[..Sum(sizes)])
    ensures |Flatten(segments)| == Sum(sizes) && EmptyAreEmpty(sizes, c) ==> c2 == Pulled(sizes, segments)
  {
    if |Flatten(segments)| == Sum(sizes) {
      assert Flatten(segments)[..Sum(sizes)] == Flatten(segments);
      SpreadScatter(sizes, Flatten(segments));
    }
  }

  predicate EmptyAreEmpty(sizes: seq<nat>, c: seq<Bytes>) {
    |c| == |sizes| && forall i :: 0 <= i < |c| && sizes[i] == 0 ==> c[i] == []
  }

  predicate DistinctTargets(info: FilesetInfo) {
    forall i: nat, k: nat :: i < k < |info.files| ==> Target(info, i) != Target(info, k)
  }

  /** New contents for one file of an operation. */
  lemma WriteInto(info: FilesetInfo, t: Tree, i: nat, d: Bytes)
    requires FileTree.WellFormed(t) && AllThere(info, t) && DistinctTargets(info) && i < |info.files|
    ensures var u := t[Target(info, i) := Regular(d, t[Target(info, i)].mode)];
            && FileTree.WellFormed(u) && AllThere(info, u) && OnlyTouches(info, t, u)
            && ContentsOf(info, u) == ContentsOf(info, t)[i := d]
  {
    var p := Target(info, i);
    assert IsFile(t, p);
    var u := t[p := Regular(d, t[p].mode)];
    forall q | q in u && q != [] ensures IsDir(u, Up(q)) { assert IsDir(t, Up(q)); }
    forall k: nat | k < |info.files| && k != i ensures Target(info, k) != p {
      assert k < i || i < k;
    }
  }

  lemma TouchesMore(info: FilesetInfo, t: Tree, u: Tree, v: Tree)
    requires OnlyTouches(info, t, u) && OnlyTouches(info, u, v)
    ensures OnlyTouches(info, t, v)
  {
  }

  /** Writing to an operation's own files keeps every operation in order. */
  lemma TouchKeepsOps(table: map<nat, Operation>, fdt: map<nat, Path>, info: FilesetInfo, t: Tree, u: Tree)
    requires OnlyTouches(info, t, u) && forall w <- table :: OpOk(table[w], t, fdt)
    ensures forall w <- table :: OpOk(table[w], u, fdt)
  {
  }

  lemma ErrorKeepsOps(table: map<nat, Operation>, uuid: nat, t: Tree, fdt: map<nat, Path>)
    requires uuid in table && forall w <- table :: OpOk(table[w], t, fdt)
    requires forall u, v :: u in table && v in table && u != v ==> Disjoint(table[u].info, table[v].info)
    ensures var table' := table[uuid := table[uuid].(error := ERR_IO)];
            && (forall w <- table' :: OpOk(table'[w], t, fdt))
            && (forall u, v :: u in table' && v in table' && u != v ==> Disjoint(table'[u].info, table'[v].info))
  {
  }

  lemma DescriptorsDiffer(op: Operation, t: Tree, fdt: map<nat, Path>)
    requires OpOk(op, t, fdt)
    ensures forall i, k :: 0 <= i < k < |op.fds| ==> op.fds[i] != op.fds[k]
  {
  }

  /** Closing one operation's descriptors leaves those of the others open. */
  lemma ClosingKeepsOps(table: map<nat, Operation>, uuid: nat, t: Tree, fdt: map<nat, Path>)
    requires uuid in table && forall w <- table :: OpOk(table[w], t, fdt)
    requires forall u, v :: u in table && v in table && u != v ==> Disjoint(table[u].info, table[v].info)
    ensures forall w <- table :: w != uuid ==> OpOk(table[w], t, fdt - FdSet(table[uuid].fds))
  {
    var op := table[uuid];
    forall w, i: nat | w in table && w != uuid && i < |table[w].fds| ensures table[w].fds[i] !in FdSet(op.fds) {
      forall k: nat | k < |op.fds| ensures op.fds[k] != table[w].fds[i] {
        assert Target(table[w].info, i) != Target(op.info, k);
      }
    }
  }

  /** The new operation is in order and shares no file with the old ones. */
  lemma CreatedFresh(info: FilesetInfo, modes: seq<nat>, t: Tree, u: Tree, fdt0: map<nat, Path>, fdt: map<nat, Path>, fds: seq<nat>, fd0: nat,
                     table: map<nat, Operation>, sizes: seq<nat>)
    requires GoodTargets(info) && |modes| == |info.files| == |fds| == |sizes| && NoneExists(info, t)
    requires Created(info, modes, u, fdt0, fdt, fds, fd0) && forall q <- t :: q in u && u[q] == t[q]
    requires forall w <- table :: OpOk(table[w], t, fdt0)
    ensures OpOk(Operation(info, sizes, modes, fds, SUCCESS), u, fdt)
    ensures forall k: nat :: k < |info.files| ==> Target(info, k) !in t
    ensures forall w <- table :: Disjoint(table[w].info, info) && Disjoint(info, table[w].info)
  {
    forall k: nat | k < |info.files| ensures Target(info, k) !in t {
      assert !TargetExists(info, t, k);
      assert IsFile(u, Target(info, k));
    }
  }

  predicate NoneExists(info: FilesetInfo, t: Tree) {
    forall i: nat :: i < |info.files| ==> !TargetExists(info, t, i)
  }

  /** Operations do not notice that the tree has grown and more descriptors are open. */
  lemma StillOk(table: map<nat, Operation>, t: Tree, u: Tree, fdt: map<nat, Path>, fdt': map<nat, Path>, info: FilesetInfo, n: nat)
    requires forall w <- table :: OpOk(table[w], t, fdt)
    requires GrownTo(info, t, u, n)
    requires forall fd <- fdt :: fd in fdt' && fdt'[fd] == fdt[fd]
    ensures forall w <- table :: OpOk(table[w], u, fdt')
  {
  }

  /** The first |fds| targets are there, empty, and open as consecutive new descriptors. */
  predicate Created(info: FilesetInfo, modes: seq<nat>, t: Tree, fdt0: map<nat, Path>, fdt: map<nat, Path>, fds: seq<nat>, fd0: nat)
    requires |modes| == |info.files|
  {
    && |fds| <= |info.files| && fdt - FdSet(fds) == fdt0
    && (forall fd <- fdt :: fd < fd0 + |fds|)
    && (forall k: nat :: k < |fds| ==> fds[k] == fd0 + k && fds[k] in fdt && fdt[fds[k]] == Target(info, k))
    && (forall k: nat :: k < |fds| ==> !EndsInSlash(info.root + info.files[k]))
    && (forall k: nat :: k < |fds| ==> Target(info, k) in t && t[Target(info, k)] == Regular([], modes[k]))
  }

  lemma CreatedMore(info: FilesetInfo, modes: seq<nat>, t: Tree, u: Tree, fdt0: map<nat, Path>, fdt: map<nat, Path>, fds: seq<nat>, fd0: nat)
    requires |modes| == |info.files| && Created(info, modes, t, fdt0, fdt, fds, fd0) && |fds| < |info.files|
    requires Target(info, |fds|) in u && u[Target(info, |fds|)] == Regular([], modes[|fds|])
    requires !EndsInSlash(info.root + info.files[|fds|])
    requires forall q <- t :: q in u && u[q] == t[q]
    ensures Created(info, modes, u, fdt0, fdt[fd0 + |fds| := Target(info, |fds|)], fds + [fd0 + |fds|], fd0)
  {
    var fd := fd0 + |fds|;
    assert FdSet(fds + [fd]) == FdSet(fds) + {fd};
    assert fd !in fdt;
  }

  /** The state of the creation loop. */
  ghost predicate Underway(info: FilesetInfo, modes: seq<nat>, t0: Tree, t: Tree, fdt0: map<nat, Path>, fdt: map<nat, Path>, fds: seq<nat>, fd0: nat)
    requires |modes| == |info.files|
  {
    GrownJust(info, t0, t, |fds|, |fds|) && Created(info, modes, t, fdt0, fdt, fds, fd0)
  }

  /** The same when the next file could not be opened: directories on its way may have been made. */
  ghost predicate Stopped(info: FilesetInfo, modes: seq<nat>, t0: Tree, t: Tree, fdt0: map<nat, Path>, fdt: map<nat, Path>, fds: seq<nat>, fd0: nat)
    requires |modes| == |info.files| && |fds| < |info.files|
  {
    GrownJust(info, t0, t, |fds|, |fds| + 1) && Created(info, modes, t, fdt0, fdt, fds, fd0)
  }

  /** One target was prepared, and created and opened if `fd` says so; nothing else happened. */
  ghost predicate FileMade(s: string, mode: nat, t: Tree, u: Tree, fdt: map<nat, Path>, fdt': map<nat, Path>, next: nat, fd: Option<nat>) {
    var p := Components(s);
    && Grown(t, u, if fd.Some? then {p} else {}, {p})
    && if fd.None? then fdt' == fdt
       else fd.value == next && !EndsInSlash(s) && fdt' == fdt[next := p] && p in u && u[p] == Regular([], mode)
  }

  lemma UnderwayNext(info: FilesetInfo, modes: seq<nat>, t0: Tree, t: Tree, u: Tree, fdt0: map<nat, Path>, fdt: map<nat, Path>, fdt': map<nat, Path>,
                     fds: seq<nat>, fd0: nat, fd: Option<nat>)
    requires |fds| < |info.files| == |modes| && Underway(info, modes, t0, t, fdt0, fdt, fds, fd0)
    requires FileMade(info.root + info.files[|fds|], modes[|fds|], t, u, fdt, fdt', fd0 + |fds|, fd)
    ensures if fd.Some? then Underway(info, modes, t0, u, fdt0, fdt', fds + [fd.value], fd0)
            else Stopped(info, modes, t0, u, fdt0, fdt', fds, fd0)
  {
    if fd.Some? {
      UnderwayOpened(info, modes, t0, t, u, fdt0, fdt, fdt', fds, fd0, fd);
    } else {
      UnderwayStays(info, modes, t0, t, u, fdt0, fdt, fds, fd0);
    }
  }

  lemma UnderwayOpened(info: FilesetInfo, modes: seq<nat>, t0: Tree, t: Tree, u: Tree, fdt0: map<nat, Path>, fdt: map<nat, Path>, fdt': map<nat, Path>,
                       fds: seq<nat>, fd0: nat, fd: Option<nat>)
    requires |fds| < |info.files| == |modes| && Underway(info, modes, t0, t, fdt0, fdt, fds, fd0) && fd.Some?
    requires FileMade(info.root + info.files[|fds|], modes[|fds|], t, u, fdt, fdt', fd0 + |fds|, fd)
    ensures Underway(info, modes, t0, u, fdt0, fdt', fds + [fd.value], fd0)
  {
    assert Target(info, |fds|) == Components(info.root + info.files[|fds|]);
    UnderwayMore(info, modes, t0, t, u, fdt0, fdt, fds, fd0);
  }

  lemma NextIsFree(info: FilesetInfo, modes: seq<nat>, t0: Tree, t: Tree, fdt0: map<nat, Path>, fdt: map<nat, Path>, fds: seq<nat>, fd0: nat)
    requires GoodTargets(info) && |fds| < |info.files| == |modes| && Underway(info, modes, t0, t, fdt0, fdt, fds, fd0)
    requires NoneExists(info, t0)
    ensures var s := info.root + info.files[|fds|]; HasDir(s) && FileTree.WellFormed(t) && Free(t, s) && Components(s) == Target(info, |fds|)
  {
    assert !TargetExists(info, t0, |fds|);
    GrownWidely(info, t0, t, |fds|, |fds|);
    NotCreatedYet(info, t0, t, |fds|);
  }

  /** Whether the next target can be created, told from the tree there was before the first. */
  lemma OpensExactly(info: FilesetInfo, modes: seq<nat>, t0: Tree, t: Tree, fdt0: map<nat, Path>, fdt: map<nat, Path>, fds: seq<nat>, fd0: nat)
    requires GoodTargets(info) && |fds| < |info.files| == |modes| && Underway(info, modes, t0, t, fdt0, fdt, fds, fd0) && NoneExists(info, t0)
    ensures var s := info.root + info.files[|fds|];
            OpenCreate(Mkdirs.MakeAll(t, Components(DirPart(s))), s, modes[|fds|]).Some? <==> Openable(info, t0, |fds|)
  {
    var s := info.root + info.files[|fds|];
    assert HasDir(s) && Target(info, |fds|) == Components(s);
    if !EndsInSlash(s) {
      MkdirsThenOpen(t, s, modes[|fds|]);
      assert !TargetExists(info, t0, |fds|);
      InTheWayExactly(info, modes, t0, t, |fds|);
    }
  }

  /** What stands in the way of target `i` once those before it are there. */
  lemma InTheWayExactly(info: FilesetInfo, modes: seq<nat>, t0: Tree, t: Tree, i: nat)
    requires i < |info.files| == |modes| && GrownJust(info, t0, t, i, i) && Blanks(info, modes, t, i) && DistinctTargets(info)
    requires Target(info, i) !in t0
    ensures IsDir(t, Target(info, i)) <==> exists j: nat :: j < i && Target(info, i) < Target(info, j)
    ensures (exists k: nat :: k < |Target(info, i)| && IsFile(t, Target(info, i)[..k])) <==>
            || (exists k: nat :: k < |Target(info, i)| && IsFile(t0, Target(info, i)[..k]))
            || (exists j: nat :: j < i && Target(info, j) < Target(info, i))
  {
    var p := Target(info, i);
    if IsDir(t, p) {
      NewEntry(info, t0, t, i, p);
      var j: nat :| j < i && p <= Target(info, j);
      assert p != Target(info, j);
    }
    if j: nat :| j < i && p < Target(info, j) { AncestorIsDir(t, p, Target(info, j)); }
    if k: nat :| k < |p| && IsFile(t, p[..k]) && p[..k] !in t0 {
      NewEntry(info, t0, t, i, p[..k]);
      var j: nat :| j < i && Target(info, j) == p[..k];
      assert Target(info, j) < p;
    }
    if j: nat :| j < i && Target(info, j) < p {
      assert p[..|Target(info, j)|] == Target(info, j) && IsFile(t, Target(info, j));
    }
  }

  /** An entry that is new is one of the targets so far, or a directory on the way to one. */
  lemma NewEntry(info: FilesetInfo, t: Tree, u: Tree, n: nat, q: Path)
    requires GrownJust(info, t, u, n, n) && q in u && q !in t
    ensures exists i: nat :: i < n && q <= Target(info, i)
    ensures u[q].Regular? ==> exists i: nat :: i < n && Target(info, i) == q
  {
    if q in TargetSet(info, n) {
      var i: nat :| i < n && Target(info, i) == q;
    } else {
      var r :| r in TargetSet(info, n) && q <= r;
      var i: nat :| i < n && Target(info, i) == r;
    }
  }

  lemma UnderwayStays(info: FilesetInfo, modes: seq<nat>, t0: Tree, t: Tree, u: Tree, fdt0: map<nat, Path>, fdt: map<nat, Path>, fds: seq<nat>, fd0: nat)
    requires |fds| < |info.files| == |modes| && Underway(info, modes, t0, t, fdt0, fdt, fds, fd0) && Grown(t, u, {}, {Target(info, |fds|)})
    ensures Stopped(info, modes, t0, u, fdt0, fdt, fds, fd0)
  {
    GrownOnTheWay(info, t0, t, u, |fds|);
    CreatedStays(info, modes, t, u, fdt0, fdt, fds, fd0);
  }

  lemma UnderwayMore(info: FilesetInfo, modes: seq<nat>, t0: Tree, t: Tree, u: Tree, fdt0: map<nat, Path>, fdt: map<nat, Path>, fds: seq<nat>, fd0: nat)
    requires |fds| < |info.files| == |modes| && Underway(info, modes, t0, t, fdt0, fdt, fds, fd0)
    requires Grown(t, u, {Target(info, |fds|)}, {Target(info, |fds|)}) && !EndsInSlash(info.root + info.files[|fds|])
    requires Target(info, |fds|) in u && u[Target(info, |fds|)] == Regular([], modes[|fds|])
    ensures Underway(info, modes, t0, u, fdt0, fdt[fd0 + |fds| := Target(info, |fds|)], fds + [fd0 + |fds|], fd0)
  {
    GrownByOne(info, t0, t, u, |fds|);
    CreatedMore(info, modes, t, u, fdt0, fdt, fds, fd0);
  }

  lemma CreatedStays(info: FilesetInfo, modes: seq<nat>, t: Tree, u: Tree, fdt0: map<nat, Path>, fdt: map<nat, Path>, fds: seq<nat>, fd0: nat)
    requires |modes| == |info.files| && Created(info, modes, t, fdt0, fdt, fds, fd0)
    requires forall q <- t :: q in u && u[q] == t[q]
    ensures Created(info, modes, u, fdt0, fdt, fds, fd0)
  {
  }

  lemma TargetSetNext(info: FilesetInfo, i: nat)
    requires i < |info.files|
    ensures TargetSet(info, i + 1) == TargetSet(info, i) + {Target(info, i)}
  {
  }

  function TargetSet(info: FilesetInfo, n: nat): set<Path>
    requires n <= |info.files|
  {
    set i: nat | i < n :: Target(info, i)
  }

  /** `u` is `t` with added directories on the way to `way` and files only where `files` says; nothing is lost or changed. */
  ghost predicate Grown(t: Tree, u: Tree, files: set<Path>, way: set<Path>) {
    && FileTree.WellFormed(u)
    && (forall q <- t :: q in u && u[q] == t[q])
    && (forall q {:trigger q in files} :: q in u ==> q in t || q in files || (u[q].Directory? && exists r :: r in way && q <= r))
  }

  lemma GrownMore(t: Tree, u: Tree, v: Tree, a: set<Path>, b: set<Path>, c: set<Path>, wa: set<Path>, wb: set<Path>, w: set<Path>)
    requires Grown(t, u, a, wa) && Grown(u, v, b, wb) && a + b <= c && wa + wb <= w
    ensures Grown(t, v, c, w)
  {
  }

  /** The creation loop has come to file number `n`. */
  ghost predicate GrownTo(info: FilesetInfo, t: Tree, u: Tree, n: nat) {
    n <= |info.files| && Grown(t, u, TargetSet(info, n), TargetSet(info, |info.files|))
  }

  /** The same, counting only directories on the way to the first `w` targets. */
  ghost predicate GrownJust(info: FilesetInfo, t: Tree, u: Tree, n: nat, w: nat) {
    n <= w <= |info.files| && Grown(t, u, TargetSet(info, n), TargetSet(info, w))
  }

  lemma GrownWidely(info: FilesetInfo, t: Tree, u: Tree, n: nat, w: nat)
    requires GrownJust(info, t, u, n, w)
    ensures GrownTo(info, t, u, n)
  {
    assert TargetSet(info, w) <= TargetSet(info, |info.files|);
    GrownNever(u);
    GrownMore(t, u, u, TargetSet(info, n), {}, TargetSet(info, n), TargetSet(info, w), {}, TargetSet(info, |info.files|));
  }

  lemma GrownNever(t: Tree)
    requires FileTree.WellFormed(t)
    ensures Grown(t, t, {}, {})
  {
  }

  lemma GrownOnTheWay(info: FilesetInfo, t: Tree, u: Tree, v: Tree, i: nat)
    requires i < |info.files| && GrownJust(info, t, u, i, i) && Grown(u, v, {}, {Target(info, i)})
    ensures GrownJust(info, t, v, i, i + 1)
  {
    var a := TargetSet(info, i);
    TargetSetNext(info, i);
    GrownMore(t, u, v, a, {}, a, a, {Target(info, i)}, TargetSet(info, i + 1));
  }

  lemma GrownByOne(info: FilesetInfo, t: Tree, u: Tree, v: Tree, i: nat)
    requires i < |info.files| && GrownJust(info, t, u, i, i) && Grown(u, v, {Target(info, i)}, {Target(info, i)})
    ensures GrownJust(info, t, v, i + 1, i + 1)
  {
    var a, b := TargetSet(info, i), TargetSet(info, i + 1);
    TargetSetNext(info, i);
    GrownMore(t, u, v, a, {Target(info, i)}, b, a, {Target(info, i)}, b);
  }

  /** An entry that is new is a target, or a directory on the way to one. */
  lemma GrownAt(info: FilesetInfo, t: Tree, u: Tree, n: nat, q: Path)
    requires GrownTo(info, t, u, n) && q in u && q !in t
    ensures || (exists i: nat :: i < n && Target(info, i) == q)
            || (u[q].Directory? && exists i: nat :: i < |info.files| && q <= Target(info, i))
  {
    if q !in TargetSet(info, n) {
      var r :| r in TargetSet(info, |info.files|) && q <= r;
      var i: nat :| i < |info.files| && Target(info, i) == r;
    }
  }

  /** The first `n` targets are empty files with their modes. */
  predicate Blanks(info: FilesetInfo, modes: seq<nat>, t: Tree, n: nat)
    requires n <= |info.files| == |modes|
  {
    forall k: nat :: k < n ==>
                       && !EndsInSlash(info.root + info.files[k])
                       && Target(info, k) in t && t[Target(info, k)] == Regular([], modes[k])
  }

  /** The first `n` targets, none of which existed, have been created; besides them only directories on the way to targets. */
  ghost predicate CreatedTo(info: FilesetInfo, modes: seq<nat>, t: Tree, u: Tree, n: nat)
    requires n <= |info.files| == |modes|
  {
    GrownTo(info, t, u, n) && Blanks(info, modes, u, n) && forall k: nat :: k < n ==> Target(info, k) !in t
  }

  lemma NoneExistedBefore(info: FilesetInfo, modes: seq<nat>, t: Tree, u: Tree, n: nat)
    requires n <= |info.files| == |modes| && NoneExists(info, t) && GrownTo(info, t, u, n) && Blanks(info, modes, u, n)
    ensures CreatedTo(info, modes, t, u, n)
  {
    forall k: nat | k < n ensures Target(info, k) !in t {
      assert !TargetExists(info, t, k);
    }
  }

  /**
   A directory that was not there is created by an accepted start if and only if
   it lies on the way to one of its targets: directories without files do not
   arrive.
   */
  lemma DirectoryCreatedExactly(info: FilesetInfo, modes: seq<nat>, t: Tree, u: Tree, q: Path)
    requires |modes| == |info.files| && CreatedTo(info, modes, t, u, |info.files|) && q !in t
    ensures IsDir(u, q) <==> exists i: nat :: i < |info.files| && q < Target(info, i)
  {
    if i: nat :| i < |info.files| && q < Target(info, i) {
      AncestorIsDir(u, q, Target(info, i));
    }
    if IsDir(u, q) {
      NewDirectory(info, modes, t, u, q);
    }
  }

  lemma NewDirectory(info: FilesetInfo, modes: seq<nat>, t: Tree, u: Tree, q: Path)
    requires |modes| == |info.files| && CreatedTo(info, modes, t, u, |info.files|) && q !in t && IsDir(u, q)
    ensures exists i: nat :: i < |info.files| && q < Target(info, i)
  {
    GrownAt(info, t, u, |info.files|, q);
    var i: nat :| i < |info.files| && q <= Target(info, i);
    assert q != Target(info, i) by { assert u[Target(info, i)].Regular?; }
  }

  lemma NotCreatedYet(info: FilesetInfo, t: Tree, u: Tree, i: nat)
    requires GoodTargets(info) && i < |info.files| && GrownTo(info, t, u, i) && Free(t, info.root + info.files[i])
    ensures Free(u, info.root + info.files[i])
  {
    var p := Target(info, i);
    assert p == Components(info.root + info.files[i]);
    assert p !in TargetSet(info, i);
    assert IsFile(u, p) ==> p in t && u[p] == t[p];
  }

  lemma DirPartAbove(s: string)
    requires HasDir(s)
    ensures Components(DirPart(s)) <= Components(s)
  {
    Mkdirs.CutAtSlash(s, LastSlash(s));
  }

  /** mkdirs and open together only add: directories on the way, and the file. */
  lemma CreationGrows(t: Tree, s: string, mode: nat)
    requires HasDir(s) && FileTree.WellFormed(t) && Free(t, s)
    ensures var u := Mkdirs.MakeAll(t, Components(DirPart(s)));
            var v := OpenCreate(u, s, mode);
            var p := Components(s);
            && Grown(t, u, {}, {p})
            && (v.Some? ==> Grown(t, v.value, {p}, {p}) && p in v.value && v.value[p] == Regular([], mode))
  {
    var p, d := Components(s), Components(DirPart(s));
    ComponentsAreNames(DirPart(s));
    ComponentsAreNames(s);
    DirPartAbove(s);
    Mkdirs.MkdirsReaches(t, d);
    var u := Mkdirs.MakeAll(t, d);
    forall q | q in u && q !in t ensures q <= p {
      var i :| 0 < i <= |d| && q == d[..i];
    }
    var v := OpenCreate(u, s, mode);
    if v.Some? {
      DirPartIsParent(s);
      assert p !in u;
      forall q | q in v.value && q != [] ensures IsDir(v.value, Up(q)) {
        assert |Up(q)| < |q|;
      }
    }
  }
}
