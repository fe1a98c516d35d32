/** src/remi-fileset.cpp: the ordered sets a fileset keeps, its walkthrough and its size. */
module Filesets {
  import opened Codes
  import opened Transfer
  import opened Paths
  import opened Names
  import opened FileTree
  import opened Walk
  import opened SourceRemoval

  /** A name without its leading slashes. */
  function Stripped(s: string): (r: string)
    ensures r == "" || r[0] != '/'
    ensures |r| <= |s| && s[|s| - |r|..] == r && forall i :: 0 <= i < |s| - |r| ==> s[i] == '/'
  {
    if s != "" && s[0] == '/' then Stripped(s[1..]) else s
  }

  /** The index loop in front of every registration. */
  method SkipSlashes(s: string) returns (i: nat)
    ensures i <= |s| && s[i..] == Stripped(s)
  {
    i := 0;
    while i < |s| && s[i] == '/'
      invariant i <= |s| && Stripped(s[i..]) == Stripped(s)
    {
      assert s[i..][1..] == s[i + 1..];
      i := i + 1;
    }
  }

  /** The files that open, as one lookup per name; None where open fails. */
  function Opened(t: Tree, root: string, names: seq<string>): (r: seq<Option<Entry>>)
    ensures |r| == |names| && forall i :: 0 <= i < |r| ==> r[i] == OpenRead(t, root + names[i])
  {
    seq(|names|, i requires 0 <= i < |names| => OpenRead(t, root + names[i]))
  }

  predicate AllOpen(t: Tree, root: string, names: seq<string>) {
    forall e <- Opened(t, root, names) :: e.Some?
  }

  function Sources(t: Tree, root: string, names: seq<string>): (r: seq<Bytes>)
    requires AllOpen(t, root, names)
    ensures |r| == |names|
    ensures forall i :: 0 <= i < |r| ==> OpenRead(t, root + names[i]) == Some(Regular(r[i], Opened(t, root, names)[i].value.mode))
  {
    seq(|names|, i requires 0 <= i < |names| => Opened(t, root, names)[i].value.data)
  }

  function Modes(t: Tree, root: string, names: seq<string>): (r: seq<nat>)
    requires AllOpen(t, root, names)
    ensures |r| == |names| && forall i :: 0 <= i < |r| ==> r[i] == Opened(t, root, names)[i].value.mode
  {
    seq(|names|, i requires 0 <= i < |names| => Opened(t, root, names)[i].value.mode)
  }

  class Fileset {
    var cls: string
    var providerId: nat
    var root: string
    var files: seq<string>
    var directories: seq<string>
    var xferSize: nat

    predicate Valid()
      reads this
    {
      Increasing(files) && Increasing(directories) && 0 < xferSize < SIZE_LIMIT
    }

    /** The members of a fileset of an absolute root, which gets a final slash. */
    constructor (cls: string, providerId: nat, root: string)
      requires root != "" && root[0] == '/'
      ensures Valid() && this.cls == cls && files == [] && directories == []
      ensures EndsInSlash(this.root) && Components(this.root) == Components(root)
      ensures this.root == root || (this.root == root + "/" && !EndsInSlash(root))
      ensures this.providerId == providerId && xferSize == 1048576
    {
      this.cls := cls;
      this.providerId := providerId;
      this.root := if root[|root| - 1] == '/' then root else root + "/";
      files, directories, xferSize := [], [], 1048576;
      TrailingSlash(root);
    }

    /** remi_fileset_create: only an absolute root is accepted. */
    static method Create(cls: string, providerId: nat, root: string) returns (ret: int, fset: Fileset?)
      ensures ret == if root != "" && root[0] == '/' then SUCCESS else ERR_INVALID_ARG
      ensures ret != SUCCESS ==> fset == null
      ensures ret == SUCCESS ==>
                && fset != null && fresh(fset) && fset.Valid() && fset.cls == cls && fset.files == [] && fset.directories == []
                && EndsInSlash(fset.root) && Components(fset.root) == Components(root)
                && (fset.root == root || (fset.root == root + "/" && !EndsInSlash(root)))
                && fset.providerId == providerId && fset.xferSize == 1048576
    {
      if root == "" || root[0] != '/' { return ERR_INVALID_ARG, null; }
      fset := new Fileset(cls, providerId, root);
      ret := SUCCESS;
    }

    /** remi_fileset_set_root: any string is taken as it is, also one without a final slash. */
    method SetRoot(root: string) returns (ret: int)
      requires Valid()
      modifies `root
      ensures Valid() && ret == SUCCESS && this.root == root
    {
      this.root := root;
      ret := SUCCESS;
    }

    /** Zero is refused, so the transfer size stays positive and the chunk loops end. */
    method SetXferSize(size: nat) returns (ret: int)
      requires Valid() && size < SIZE_LIMIT
      modifies `xferSize
      ensures Valid()
      ensures if size == 0 then ret == ERR_INVALID_ARG && xferSize == old(xferSize) else ret == SUCCESS && xferSize == size
    {
      if size == 0 { return ERR_INVALID_ARG; }
      xferSize := size;
      ret := SUCCESS;
    }

    method RegisterFile(filename: string) returns (ret: int)
      requires Valid()
      modifies `files
      ensures Valid() && ret == SUCCESS && Elements(files) == old(Elements(files)) + {Stripped(filename)}
    {
      var i := SkipSlashes(filename);
      InsertKeepsOrder(files, filename[i..]);
      files := Insert(files, filename[i..]);
      ret := SUCCESS;
    }

    method DeregisterFile(filename: string) returns (ret: int)
      requires Valid()
      modifies `files
      ensures Valid() && Elements(files) == old(Elements(files)) - {Stripped(filename)}
      ensures ret == if Stripped(filename) in old(Elements(files)) then SUCCESS else ERR_UNKNOWN_FILE
    {
      var i := SkipSlashes(filename);
      if filename[i..] !in files { return ERR_UNKNOWN_FILE; }
      RemoveKeepsOrder(files, filename[i..]);
      files := Names.Remove(files, filename[i..]);
      ret := SUCCESS;
    }

    method RegisterDirectory(dirname: string) returns (ret: int)
      requires Valid()
      modifies `directories
      ensures Valid() && ret == SUCCESS && Elements(directories) == old(Elements(directories)) + {Stripped(dirname)}
    {
      var i := SkipSlashes(dirname);
      InsertKeepsOrder(directories, dirname[i..]);
      directories := Insert(directories, dirname[i..]);
      ret := SUCCESS;
    }

    method DeregisterDirectory(dirname: string) returns (ret: int)
      requires Valid()
      modifies `directories
      ensures Valid() && Elements(directories) == old(Elements(directories)) - {Stripped(dirname)}
      ensures ret == if Stripped(dirname) in old(Elements(directories)) then SUCCESS else ERR_UNKNOWN_FILE
    {
      var i := SkipSlashes(dirname);
      if dirname[i..] !in directories { return ERR_UNKNOWN_FILE; }
      RemoveKeepsOrder(directories, dirname[i..]);
      directories := Names.Remove(directories, dirname[i..]);
      ret := SUCCESS;
    }

    /** The copy of the registered files that the walkthrough starts from. */
    method CopyFiles() returns (names: seq<string>)
      requires Valid()
      ensures Increasing(names) && Elements(names) == Elements(files)
    {
      names := [];
      var i := 0;
      while i < |files|
        invariant i <= |files| && Increasing(names) && Elements(names) == Elements(files[..i])
      {
        InsertKeepsOrder(names, files[i]);
        names := Insert(names, files[i]);
        assert files[..i + 1] == files[..i] + [files[i]];
        i := i + 1;
      }
      assert files[..|files|] == files;
    }

    /** Every registered or reachable file exactly once, in increasing order. */
    method Walkthrough(fs: FileSystem) returns (names: seq<string>)
      requires Valid() && FileTree.WellFormed(fs.tree)
      ensures Increasing(names) && Elements(names) == Migrated(fs.tree, root, Elements(files), directories)
      ensures forall i, k :: 0 <= i < k < |names| ==> Precedes(names[i], names[k])
    {
      names := CopyFiles();
      MigratedGrows(fs.tree, root, Elements(files), directories);
      var i := 0;
      ghost var rest := directories;
      while i < |directories|
        invariant i <= |directories| && rest == directories[i..] && Increasing(names)
        invariant Elements(names) + Migrated(fs.tree, root, {}, rest)
                  == Migrated(fs.tree, root, Elements(files), directories)
      {
        names := ListFiles(fs, root, directories[i], names);
        rest := rest[1..];
        i := i + 1;
      }
      forall i, k | 0 <= i < k < |names| ensures Precedes(names[i], names[k]) { LessExactly(names[i], names[k]); }
    }

    /** remi_fileset_compute_size without metadata, for the (only) increasing enumeration `names` of the files. */
    method ComputeSize(fs: FileSystem) returns (ret: int, size: nat)
      requires Valid() && FileTree.WellFormed(fs.tree)
      ensures forall names :: Increasing(names) && Elements(names) == Migrated(fs.tree, root, Elements(files), directories) ==>
                && ret == (if AllOpen(fs.tree, root, names) then SUCCESS else ERR_IO)
                && (ret == SUCCESS ==> size == Sum(Sizes(Sources(fs.tree, root, names))))
    {
      var ns := Walkthrough(fs);
      var err := 0;
      size := 0;
      var i := 0;
      while i < |ns|
        invariant i <= |ns| && (err == 0 <==> AllOpen(fs.tree, root, ns[..i]))
        invariant err == 0 ==> size == Sum(Sizes(Sources(fs.tree, root, ns[..i])))
      {
        assert ns[..i + 1] == ns[..i] + [ns[i]];
        OpenOneMore(fs.tree, root, ns[..i], ns[i]);
        if err == 0 {
          var e := OpenRead(fs.tree, root + ns[i]);
          if e.None? {
            err := -1;
          } else {
            size := size + |e.value.data|;
          }
        }
        i := i + 1;
      }
      assert ns[..|ns|] == ns;
      ret := if err != 0 then ERR_IO else SUCCESS;
      forall names | Increasing(names) && Elements(names) == Elements(ns) ensures names == ns {
        EnumerationUnique(names, ns);
      }
    }
  }

  lemma OpenOneMore(t: Tree, root: string, names: seq<string>, n: string)
    ensures Opened(t, root, names + [n]) == Opened(t, root, names) + [OpenRead(t, root + n)]
    ensures AllOpen(t, root, names + [n]) <==> AllOpen(t, root, names) && OpenRead(t, root + n).Some?
    ensures AllOpen(t, root, names + [n]) ==>
              && Sources(t, root, names + [n]) == Sources(t, root, names) + [OpenRead(t, root + n).value.data]
              && Modes(t, root, names + [n]) == Modes(t, root, names) + [OpenRead(t, root + n).value.mode]
              && Sum(Sizes(Sources(t, root, names + [n]))) == Sum(Sizes(Sources(t, root, names))) + |OpenRead(t, root + n).value.data|
  {
    var a, b := Opened(t, root, names), Opened(t, root, names + [n]);
    assert b == a + [OpenRead(t, root + n)];
    assert forall e <- a :: e in b;
    assert b[|names|] in b;
    if AllOpen(t, root, names + [n]) {
      var x := OpenRead(t, root + n).value;
      assert Sources(t, root, names + [n]) == Sources(t, root, names) + [x.data];
      assert Modes(t, root, names + [n]) == Modes(t, root, names) + [x.mode];
      assert Sizes(Sources(t, root, names + [n])) == Sizes(Sources(t, root, names)) + [|x.data|];
      SumAppend(Sizes(Sources(t, root, names)), |x.data|);
    }
  }
}
