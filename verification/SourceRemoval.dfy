/**
 REMI_REMOVE_SOURCE: the migrated files are removed one by one, then every
 registered directory with removeRec. Whether that deletes a file which was
 never migrated depends on how the root and the directories are spelled.
 */
module SourceRemoval {
  import opened Paths
  import opened Names
  import opened FileTree
  import opened Mkdirs
  import opened Walk

  /** The names of a fileset: registered files, and what the walk of each directory reports. */
  function Migrated(t: Tree, root: string, files: set<string>, dirs: seq<string>): set<string> {
    if dirs == [] then files else Listing(t, root, dirs[0]) + Migrated(t, root, files, dirs[1..])
  }

  function PathsOf(root: string, names: set<string>): set<Path> {
    set x | x in names :: Components(root + x)
  }

  function RemoveFiles(t: Tree, root: string, names: seq<string>): Tree
    decreases |names|
  {
    if names == [] then t else RemoveFiles(RemoveOne(t, root + names[0]), root, names[1..])
  }

  ghost function RemoveDirs(t: Tree, root: string, dirs: seq<string>): Tree
    decreases |dirs|
  {
    if dirs == [] then t else RemoveDirs(t - Removed(t, root + dirs[0]), root, dirs[1..])
  }

  /** The source tree after a migration that removed its source. */
  ghost function AfterRemoval(t: Tree, root: string, names: seq<string>, dirs: seq<string>): Tree {
    RemoveDirs(RemoveFiles(t, root, names), root, dirs)
  }

  /** `u` is `t` with some entries missing. */
  predicate Part(u: Tree, t: Tree) {
    forall q <- u :: q in t && u[q] == t[q]
  }

  lemma {:induction false} RelNameComponents(rel: Path)
    requires rel != [] && forall n <- rel :: IsName(n)
    ensures Components(RelName(rel)) == rel
  {
    ComponentsOfName(rel[0]);
    if |rel| > 1 {
      RelNameComponents(rel[1..]);
      ComponentsOfJoin(rel[0], RelName(rel[1..]));
      assert rel == [rel[0]] + rel[1..];
    }
  }

  /** With a root that ends in a slash both walks start from the same directory. */
  lemma SameStart(root: string, path: string)
    requires EndsInSlash(root)
    ensures Components(Full(root, path)) == Components(root) + Components(path) == Components(root + path)
  {
    ComponentsOfJoin(root, path);
    ComponentsAfterSlash(root, path);
  }

  /** A file named from `path` below the directory that `root + path` denotes. */
  lemma NamedBelow(root: string, path: string, rel: Path)
    requires EndsInSlash(path) && rel != [] && forall n <- rel :: IsName(n)
    ensures Components(root + (path + RelName(rel))) == Components(root + path) + rel
  {
    RelNameComponents(rel);
    Associate(root, path, RelName(rel));
    ComponentsAfterSlash(root + path, RelName(rel));
  }

  lemma SubOf(root: string, d: string, n: string)
    ensures Sub(root + d, n) == root + Sub(d, n) && root + d + n == root + (d + n)
  {
    Associate(root, d, n);
    Associate(root, d + n, "/");
  }

  lemma ViaDirAgrees(t: Tree, root: string, d: string, n: string, p: Path) returns (x: string)
    requires FileTree.WellFormed(t) && EndsInSlash(root) && IsFile(t, p)
    requires p in RemovedBelow(t, Components(root + Sub(d, n)))
    ensures x in ListedBelow(t, Components(Full(root, Sub(d, n))), Sub(d, n)) && Components(root + x) == p
  {
    SameStart(root, Sub(d, n));
    var q := Components(root + Sub(d, n));
    var rel := p[|q|..];
    assert p == q + rel && forall m <- rel :: m in p;
    x := Sub(d, n) + RelName(rel);
    NamedBelow(root, Sub(d, n), rel);
  }

  lemma ViaAgrees(t: Tree, root: string, d: string, n: string, p: Path) returns (x: string)
    requires FileTree.WellFormed(t) && EndsInSlash(root) && IsFile(t, p)
    requires n in Children(t, Components(root + d)) && p in RemovedVia(t, root + d, n)
    ensures x in ListedVia(t, root, d, n) && Components(root + x) == p
  {
    SameStart(root, d);
    SubOf(root, d, n);
    if IsDir(t, Components(root + d) + [n]) {
      x := ViaDirAgrees(t, root, d, n, p);
    } else {
      x := d + n;
      RemoveOneIs(t, root + d + n);
    }
  }

  /** Every file removeRec deletes, listFiles reports, except one: a plain file registered as a directory. */
  lemma WalksAgree(t: Tree, root: string, d: string, p: Path)
    requires FileTree.WellFormed(t) && EndsInSlash(root)
    requires IsFile(t, p) && p in Removed(t, root + d)
    ensures p in PathsOf(root, Listing(t, root, d)) || (p == Components(root + d) && !EndsInSlash(root + d))
  {
    var s := root + d;
    var a := Components(s);
    SameStart(root, d);
    if IsDir(t, a) {
      var u := RemovedEntries(t, s, Children(t, a));
      assert p in RemovedOne(t - u, s) ==> p == a;
      var n :| n in Children(t, a) && Visible(n) && p in RemovedVia(t, s, n);
      var x := ViaAgrees(t, root, d, n, p);
      assert x in Listing(t, root, d);
    } else {
      RemoveOneIs(t, s);
    }
  }

  lemma ListingMonotone(u: Tree, t: Tree, root: string, d: string)
    requires Part(u, t)
    ensures Listing(u, root, d) <= Listing(t, root, d)
  {
    var p := Components(Full(root, d));
    forall x | x in Listing(u, root, d) ensures x in Listing(t, root, d) {
      var n :| n in Children(u, p) && Visible(n) && x in ListedVia(u, root, d, n);
      ChildIn(u, p, n);
      ChildIn(t, p, n);
      assert x in ListedVia(t, root, d, n);
    }
  }

  lemma {:induction false} RemoveFilesTakes(t: Tree, root: string, names: seq<string>)
    requires FileTree.WellFormed(t)
    ensures var u := RemoveFiles(t, root, names);
            && FileTree.WellFormed(u) && Part(u, t)
            && forall p <- t :: p in u || p in PathsOf(root, Elements(names))
    decreases |names|
  {
    if names != [] {
      RemoveOneIs(t, root + names[0]);
      RemoveFilesTakes(RemoveOne(t, root + names[0]), root, names[1..]);
      assert names == [names[0]] + names[1..];
      ElementsCons(names[0], names[1..]);
      forall p | p in PathsOf(root, Elements(names[1..])) || p == Components(root + names[0])
        ensures p in PathsOf(root, Elements(names))
      {
        if p == Components(root + names[0]) { assert names[0] in Elements(names); }
      }
    }
  }

  // ------------------------------------------------- the tree stays well formed

  /** A set of entries that contains everything below its members, and not the root. */
  ghost predicate Closed(t: Tree, u: set<Path>) {
    [] !in u && forall q, r :: q in u && r in t && q <= r ==> r in u
  }

  lemma ClosedLeavesWellFormed(t: Tree, u: set<Path>)
    requires FileTree.WellFormed(t) && Closed(t, u)
    ensures FileTree.WellFormed(t - u)
  {
    forall p | p in t - u && p != [] ensures IsDir(t - u, Up(p)) {
      assert IsDir(t, Up(p));
      assert Up(p) <= p;
    }
  }

  lemma BelowClosed(t: Tree, p: Path)
    requires FileTree.WellFormed(t)
    ensures Closed(t, RemovedBelow(t, p))
  {
    forall q, r | q in RemovedBelow(t, p) && r in t && q <= r ensures r in RemovedBelow(t, p) {
      if q != r {
        AncestorIsDir(t, q, r);
        assert VisibleUnder(q, r);
        forall i | |p| <= i < |r| ensures Visible(r[i]) {
          if i < |q| { assert q[i] == r[i]; }
        }
        HidesHigher(t, q, r);
      }
    }
  }

  lemma HidesHigher(t: Tree, q: Path, r: Path)
    requires q < r
    ensures HidesUnder(t, r) ==> HidesUnder(t, q)
  {
    if HidesUnder(t, r) {
      var h :| h in t && r < h && !VisibleUnder(r, h);
      assert q < h && !VisibleUnder(q, h);
    }
  }

  lemma OneClosed(t: Tree, s: string)
    requires FileTree.WellFormed(t)
    ensures Closed(t, RemovedOne(t, s))
  {
    RemoveOneIs(t, s);
    var p := Components(s);
    forall r | r in t && p <= r && r != p ensures p !in RemovedOne(t, s) {
      AncestorIsDir(t, p, r);
      StepTowards(t, p, r);
    }
  }

  lemma EntriesClosed(t: Tree, s: string, ns: set<string>)
    requires FileTree.WellFormed(t)
    ensures Closed(t, RemovedEntries(t, s, ns))
  {
    forall q | q in RemovedEntries(t, s, ns)
      ensures q != [] && forall r :: r in t && q <= r ==> r in RemovedEntries(t, s, ns)
    {
      var n :| n in ns && Visible(n) && q in RemovedVia(t, s, n);
      BelowClosed(t, Components(Sub(s, n)));
      OneClosed(t, s + n);
      forall r | r in t && q <= r ensures r in RemovedEntries(t, s, ns) {
        assert r in RemovedVia(t, s, n);
      }
    }
  }

  lemma RemovedKeepsShape(t: Tree, s: string)
    requires FileTree.WellFormed(t)
    ensures FileTree.WellFormed(t - Removed(t, s))
  {
    var p := Components(s);
    if IsDir(t, p) {
      var u := RemovedEntries(t, s, Children(t, p));
      EntriesClosed(t, s, Children(t, p));
      ClosedLeavesWellFormed(t, u);
      RemoveOneIs(t - u, s);
      assert t - u - RemovedOne(t - u, s) == t - (u + RemovedOne(t - u, s));
    } else {
      RemoveOneIs(t, s);
    }
  }

  /** Misnamed: registered as a directory, spelled without a slash, and a file. */
  predicate PlainFile(t: Tree, root: string, d: string) {
    IsFile(t, Components(root + d)) && !EndsInSlash(root + d)
  }

  lemma {:induction false} RemoveDirsTakes(t: Tree, u: Tree, root: string, dirs: seq<string>, p: Path)
    requires FileTree.WellFormed(u) && Part(u, t) && EndsInSlash(root)
    requires IsFile(u, p) && p !in RemoveDirs(u, root, dirs)
    ensures p in PathsOf(root, Migrated(t, root, {}, dirs)) || exists d :: d in dirs && PlainFile(t, root, d) && p == Components(root + d)
    decreases |dirs|
  {
    var d := dirs[0];
    if p in Removed(u, root + d) {
      WalksAgree(u, root, d, p);
      ListingMonotone(u, t, root, d);
      if p in PathsOf(root, Listing(u, root, d)) {
        var x :| x in Listing(u, root, d) && p == Components(root + x);
        assert x in Migrated(t, root, {}, dirs);
      } else {
        assert d in dirs && PlainFile(t, root, d);
      }
    } else {
      RemovedKeepsShape(u, root + d);
      RemoveDirsTakes(t, u - Removed(u, root + d), root, dirs[1..], p);
      if p in PathsOf(root, Migrated(t, root, {}, dirs[1..])) {
        var x :| x in Migrated(t, root, {}, dirs[1..]) && p == Components(root + x);
        assert x in Migrated(t, root, {}, dirs);
      }
    }
  }

  lemma {:induction false} RemoveDirsParts(t: Tree, root: string, dirs: seq<string>)
    requires FileTree.WellFormed(t)
    ensures FileTree.WellFormed(RemoveDirs(t, root, dirs)) && Part(RemoveDirs(t, root, dirs), t)
    decreases |dirs|
  {
    if dirs != [] {
      RemovedKeepsShape(t, root + dirs[0]);
      RemoveDirsParts(t - Removed(t, root + dirs[0]), root, dirs[1..]);
    }
  }

  /** A plain file among the registered directories does not survive. */
  lemma {:induction false} PlainFileGoes(t: Tree, root: string, dirs: seq<string>, d: string)
    requires FileTree.WellFormed(t) && d in dirs && Components(root + d) in t ==> PlainFile(t, root, d)
    ensures d in dirs && FileTree.WellFormed(t) ==> Components(root + d) !in RemoveDirs(t, root, dirs)
    decreases |dirs|
  {
    if dirs != [] && d in dirs && FileTree.WellFormed(t) {
      var u := t - Removed(t, root + dirs[0]);
      RemovedKeepsShape(t, root + dirs[0]);
      RemoveDirsParts(u, root, dirs[1..]);
      if dirs[0] != d {
        assert d in dirs[1..];
        PlainFileGoes(u, root, dirs[1..], d);
      } else if Components(root + d) in t {
        assert RemoveOne(t, root + d) == t - {Components(root + d)} by {
          assert Components(root + d) != [];
        }
      }
    }
  }

  /** Some regular file is deleted without having been migrated. */
  ghost predicate LosesData(t: Tree, root: string, names: seq<string>, dirs: seq<string>) {
    exists p :: IsFile(t, p) && p !in AfterRemoval(t, root, names, dirs) && p !in PathsOf(root, Elements(names))
  }

  /**
   With a root that ends in a slash, removal of the source loses a file that
   was never migrated if and only if some registered directory is spelled
   without a final slash and is really a regular file outside the fileset.
   What survives is unchanged.
   */
  lemma LossExactly(t: Tree, root: string, files: set<string>, dirs: seq<string>, names: seq<string>)
    requires FileTree.WellFormed(t) && EndsInSlash(root)
    requires Elements(names) == Migrated(t, root, files, dirs)
    ensures Part(AfterRemoval(t, root, names, dirs), t)
    ensures LosesData(t, root, names, dirs) <==>
            exists d :: d in dirs && PlainFile(t, root, d) && Components(root + d) !in PathsOf(root, Elements(names))
  {
    var u := RemoveFiles(t, root, names);
    RemoveFilesTakes(t, root, names);
    RemoveDirsParts(u, root, dirs);
    if LosesData(t, root, names, dirs) {
      var p :| IsFile(t, p) && p !in AfterRemoval(t, root, names, dirs) && p !in PathsOf(root, Elements(names));
      RemoveDirsTakes(t, u, root, dirs, p);
      MigratedGrows(t, root, files, dirs);
      PathsOfMonotone(root, Migrated(t, root, {}, dirs), Elements(names));
    }
    if d :| d in dirs && PlainFile(t, root, d) && Components(root + d) !in PathsOf(root, Elements(names)) {
      var p := Components(root + d);
      assert p in u;
      PlainFileGoes(u, root, dirs, d);
      assert IsFile(t, p) && p !in AfterRemoval(t, root, names, dirs);
    }
  }

  lemma PathsOfMonotone(root: string, a: set<string>, b: set<string>)
    requires a <= b
    ensures PathsOf(root, a) <= PathsOf(root, b)
  {
  }

  lemma {:induction false} MigratedGrows(t: Tree, root: string, files: set<string>, dirs: seq<string>)
    ensures Migrated(t, root, files, dirs) == files + Migrated(t, root, {}, dirs)
    decreases |dirs|
  {
    if dirs != [] { MigratedGrows(t, root, files, dirs[1..]); }
  }

  /** Nothing unmigrated is lost when every registered directory is empty or ends in a slash. */
  lemma NoDataLoss(t: Tree, root: string, files: set<string>, dirs: seq<string>, names: seq<string>)
    requires FileTree.WellFormed(t) && EndsInSlash(root) && forall d <- dirs :: Terminated(d)
    requires Elements(names) == Migrated(t, root, files, dirs)
    ensures !LosesData(t, root, names, dirs)
  {
    LossExactly(t, root, files, dirs, names);
  }

  /** A plain file registered as a directory is lost, whatever the tree and the root: nothing else needs to be wrong. */
  lemma PlainFileLost(t: Tree, root: string, d: string)
    requires FileTree.WellFormed(t) && EndsInSlash(root) && PlainFile(t, root, d)
    ensures Migrated(t, root, {}, [d]) == {} && LosesData(t, root, [], [d])
  {
    SameStart(root, d);
    assert [d][1..] == [];
    assert Elements([]) == {};
    LossExactly(t, root, {}, [d], []);
    assert d in [d] && Components(root + d) !in PathsOf(root, {});
  }

  /** Everything a walk reports through entry `n` lies where `root + d + n` leads. */
  lemma ListedViaPlace(t: Tree, root: string, d: string, n: string, x: string)
    requires FileTree.WellFormed(t) && EndsInSlash(root) && IsName(n) && x in ListedVia(t, root, d, n)
    ensures Components(root + d + n) <= Components(root + x)
  {
    SubOf(root, d, n);
    if IsDir(t, Components(Full(root, d)) + [n]) {
      SameStart(root, Sub(d, n));
      EntryPath(root + d, n);
      var q := Components(Full(root, Sub(d, n)));
      var r :| r in t && t[r].Regular? && VisibleUnder(q, r) && x == Sub(d, n) + RelName(r[|q|..]);
      assert forall m <- r[|q|..] :: m in r;
      NamedBelow(root, Sub(d, n), r[|q|..]);
    }
  }

  /** A path below `a` is not below the sibling of `a` with a longer name. */
  lemma NotGlued(a: Path, n: string, q: Path)
    requires a != [] && n != "" && a <= q
    ensures !(Up(a) + [a[|a| - 1] + n] <= q)
  {
    var k := |a| - 1;
    assert |a[k] + n| != |a[k]|;
    assert (Up(a) + [a[k] + n])[k] == a[k] + n && q[k] == a[k];
  }

  /** A name the walk gives leads back to the file. */
  lemma NamedBelowRoot(root: string, d: string, rel: Path)
    requires EndsInSlash(root) && Terminated(d) && rel != [] && forall n <- rel :: IsName(n)
    ensures Components(root + (d + RelName(rel))) == Components(root + d) + rel
  {
    if d == "" {
      assert root + d == root && root + (d + RelName(rel)) == root + RelName(rel);
      RelNameComponents(rel);
      ComponentsAfterSlash(root, RelName(rel));
    } else {
      NamedBelow(root, d, rel);
    }
  }

  /** A well spelled directory: the walk names every visible file below it. */
  lemma TerminatedLists(t: Tree, root: string, d: string, q: Path)
    requires FileTree.WellFormed(t) && EndsInSlash(root) && Terminated(d)
    requires q in t && t[q].Regular? && VisibleUnder(Components(root + d), q)
    ensures q in PathsOf(root, Listing(t, root, d))
  {
    var rel := q[|Components(root + d)|..];
    assert d + RelName(rel) in Listing(t, root, d) by {
      SameStart(root, d);
      ListedSplit(t, root, d, q);
    }
    LeadsBackTo(t, root, d, q);
  }

  /** The name the walk gives a file below `root + d` leads back to it. */
  lemma LeadsBackTo(t: Tree, root: string, d: string, q: Path)
    requires FileTree.WellFormed(t) && EndsInSlash(root) && Terminated(d) && q in t && Components(root + d) < q
    ensures Components(root + (d + RelName(q[|Components(root + d)|..]))) == q
  {
    var a := Components(root + d);
    forall m | m in q[|a|..] ensures IsName(m) { assert m in q; }
    NamedBelowRoot(root, d, q[|a|..]);
    assert q == a + q[|a|..];
  }

  /** Any other directory: no name the walk reports leads below it. */
  lemma UnterminatedMisses(t: Tree, root: string, d: string, q: Path)
    requires FileTree.WellFormed(t) && EndsInSlash(root) && !Terminated(d)
    requires Components(root + d) <= q
    ensures q !in PathsOf(root, Listing(t, root, d))
  {
    SameStart(root, d);
    var a := Components(root + d);
    forall x | x in Listing(t, root, d) ensures Components(root + x) != q {
      var n :| n in Children(t, a) && Visible(n) && x in ListedVia(t, root, d, n);
      ChildIsName(t, a, n);
      ListedViaPlace(t, root, d, n, x);
      EntryPath(root + d, n);
      NotGlued(a, n, q);
    }
  }

  lemma ListedFrom(t: Tree, root: string, d: string, x: string) returns (r: Path)
    requires FileTree.WellFormed(t) && EndsInSlash(root) && Terminated(d) && x in Listing(t, root, d)
    ensures var a := Components(root + d); IsFile(t, r) && VisibleUnder(a, r) && x == d + RelName(r[|a|..])
  {
    SameStart(root, d);
    ListingTerminated(t, root, d);
    var a := Components(root + d);
    assert x in ListedBelow(t, a, d);
    r :| r in t && t[r].Regular? && VisibleUnder(a, r) && x == d + RelName(r[|a|..]);
  }

  /** The converse: with a well spelled directory a reported name leads to a visible regular file. */
  lemma ListedIsVisible(t: Tree, root: string, d: string, x: string)
    requires FileTree.WellFormed(t) && EndsInSlash(root) && Terminated(d) && x in Listing(t, root, d)
    ensures IsFile(t, Components(root + x)) && VisibleUnder(Components(root + d), Components(root + x))
  {
    var a := Components(root + d);
    var r := ListedFrom(t, root, d, x);
    forall m | m in r[|a|..] ensures IsName(m) { assert m in r; }
    NamedBelowRoot(root, d, r[|a|..]);
    assert r == a + r[|a|..];
  }

  /** A file below a registered directory is migrated on its account exactly when the directory is well spelled and the file visible. */
  lemma FileListedExactly(t: Tree, root: string, d: string, q: Path)
    requires FileTree.WellFormed(t) && EndsInSlash(root) && IsFile(t, q) && Components(root + d) < q
    ensures q in PathsOf(root, Listing(t, root, d)) <==> Terminated(d) && VisibleUnder(Components(root + d), q)
    ensures q in PathsOf(root, Listing(t, root, d)) <==>
            (d == "" || d[|d| - 1] == '/') && forall i :: |Components(root + d)| <= i < |q| ==> q[i] != "" && q[i][0] != '.'
  {
    if Terminated(d) {
      if VisibleUnder(Components(root + d), q) { TerminatedLists(t, root, d, q); }
      if q in PathsOf(root, Listing(t, root, d)) {
        var x :| x in Listing(t, root, d) && Components(root + x) == q;
        ListedIsVisible(t, root, d, x);
      }
    } else {
      UnterminatedMisses(t, root, d, q);
    }
  }

  /**
   The documentation promises that all files in a registered directory, at any
   depth, are migrated. That holds exactly when the directory holds no file, or
   its name ends in a slash (or is empty) and no file in it is hidden or lies in
   a hidden directory.
   */
  lemma DirectoryMigratedExactly(t: Tree, root: string, d: string)
    requires FileTree.WellFormed(t) && EndsInSlash(root)
    ensures (forall q <- t :: t[q].Regular? && Components(root + d) < q ==> q in PathsOf(root, Listing(t, root, d)))
            <==> || (forall q <- t :: Components(root + d) < q ==> !t[q].Regular?)
                 || (Terminated(d) && forall q <- t :: t[q].Regular? && Components(root + d) < q ==> VisibleUnder(Components(root + d), q))
  {
    forall q | q in t && t[q].Regular? && Components(root + d) < q
      ensures q in PathsOf(root, Listing(t, root, d)) <==> Terminated(d) && VisibleUnder(Components(root + d), q)
    {
      FileListedExactly(t, root, d, q);
    }
  }

  /** Some migrated file of a registered directory lies below `q`: what makes a directory arrive at the destination. */
  predicate OnTheWay(t: Tree, root: string, d: string, q: Path) {
    exists x :: x in Listing(t, root, d) && q < Components(root + x)
  }

  /**
   The same promise for subdirectories. A migrated file lies below one of them
   exactly when the registered name is well spelled and a visible file lies
   below it: empty and hidden ones are not on the way to anything.
   */
  lemma SubdirectoryArrivesExactly(t: Tree, root: string, d: string, q: Path)
    requires FileTree.WellFormed(t) && EndsInSlash(root) && IsDir(t, q) && Components(root + d) < q
    ensures OnTheWay(t, root, d, q) <==>
            Terminated(d) && exists r :: r in t && t[r].Regular? && q < r && VisibleUnder(Components(root + d), r)
  {
    if x :| x in Listing(t, root, d) && q < Components(root + x) {
      var r := Components(root + x);
      if Terminated(d) {
        ListedIsVisible(t, root, d, x);
      } else {
        UnterminatedMisses(t, root, d, r);
      }
    }
    if Terminated(d) {
      if r :| r in t && t[r].Regular? && q < r && VisibleUnder(Components(root + d), r) {
        TerminatedLists(t, root, d, r);
        var x :| x in Listing(t, root, d) && Components(root + x) == r;
      }
    }
  }

  // -------------------------------------------------------------- the root matters

  lemma {:induction false} RemoveDirsTerminated(t: Tree, root: string, dirs: seq<string>, p: Path)
    requires FileTree.WellFormed(t) && IsFile(t, p) && forall d <- dirs :: EndsInSlash(root + d)
    ensures p !in RemoveDirs(t, root, dirs) <==> exists d :: d in dirs && VisibleUnder(Components(root + d), p)
    decreases |dirs|
  {
    if dirs != [] {
      var a := Components(root + dirs[0]);
      var u := t - Removed(t, root + dirs[0]);
      RemovedTerminated(t, root + dirs[0]);
      RemovedKeepsShape(t, root + dirs[0]);
      RemoveDirsParts(u, root, dirs[1..]);
      if VisibleUnder(a, p) {
        AncestorIsDir(t, a, p);
        assert dirs[0] in dirs;
      } else {
        RemoveDirsTerminated(u, root, dirs[1..], p);
      }
    }
  }

  /**
   Any root, also one without a final slash, any list of names migrated: removal
   loses a file of this tree if and only if a visible file below some root +
   directory is not among the migrated ones.
   */
  lemma LossAtAnyRoot(t: Tree, root: string, names: seq<string>, dirs: seq<string>)
    requires FileTree.WellFormed(t) && forall d <- dirs :: EndsInSlash(root + d)
    ensures LosesData(t, root, names, dirs) <==>
            exists d, p :: d in dirs && IsFile(t, p) && VisibleUnder(Components(root + d), p) && p !in PathsOf(root, Elements(names))
  {
    var u := RemoveFiles(t, root, names);
    RemoveFilesTakes(t, root, names);
    forall p | IsFile(t, p) && p !in PathsOf(root, Elements(names))
      ensures p !in AfterRemoval(t, root, names, dirs) <==> exists d :: d in dirs && VisibleUnder(Components(root + d), p)
    {
      assert IsFile(u, p);
      RemoveDirsTerminated(u, root, dirs, p);
    }
  }

  /** Whatever the tree and the (well spelled) directories, removal of the source loses nothing. */
  ghost predicate SafeRoot(root: string) {
    forall t, dirs, names | FileTree.WellFormed(t) && (forall d <- dirs :: Terminated(d))
                            && Elements(names) == Migrated(t, root, {}, dirs) ::
      !LosesData(t, root, names, dirs)
  }

  /** A tree holding nothing but the file "x" in directory `a`. */
  lemma LoneFile(a: Path) returns (t: Tree)
    requires forall n <- a :: IsName(n)
    ensures FileTree.WellFormed(t) && IsDir(t, a) && IsFile(t, a + ["x"])
    ensures forall q <- t :: q <= a + ["x"]
  {
    var empty: Tree := map[[] := Directory];
    MkdirsReaches(empty, a);
    var u := MakeAll(empty, a);
    t := u[a + ["x"] := Regular([], 0)];
    forall q | q in t ensures q <= a + ["x"] && (q != [] ==> IsDir(t, Up(q))) && forall n <- q :: IsName(n) {
      if q == a + ["x"] {
        assert Up(q) == a;
        forall n | n in q ensures IsName(n) { assert n in a || n == "x"; }
      } else if q !in empty {
        var i :| 0 < i <= |a| && q == a[..i];
        assert Up(q) == a[..i - 1];
        assert |Up(q)| < |a|;
      }
    }
  }

  /**
   remi_fileset_set_root stores a root as given. The walk opens root + "/" +
   directory, everything else uses root + directory, so a root without a final
   slash makes the two sides of a migration look at different places.
   */
  lemma UnsafeRoot(root: string) returns (t: Tree)
    requires root != "" && !EndsInSlash(root)
    ensures FileTree.WellFormed(t) && Migrated(t, root, {}, ["d/"]) == {} && LosesData(t, root, [], ["d/"])
  {
    ComponentsOfGlue(root, "d");
    ComponentsAreNames(root + "d");
    t := LoneFile(Components(root + "d"));
    WalkMisses(t, root);
    RemovalHits(t, root);
    var p := Components(root + "d") + ["x"];
    assert IsFile(t, p) && p !in AfterRemoval(t, root, [], ["d/"]) && p !in PathsOf(root, Elements([]));
  }

  /** The walk looks for a directory that is not there. */
  lemma WalkMisses(t: Tree, root: string)
    requires root != "" && !EndsInSlash(root)
    requires forall q <- t :: q <= Components(root + "d") + ["x"]
    ensures Migrated(t, root, {}, ["d/"]) == {}
  {
    var c, a := Components(root), Components(root + "d");
    ComponentsOfGlue(root, "d");
    ComponentsOfJoin(root, "d/");
    TrailingSlash("d");
    assert "d" + "/" == "d/";
    ComponentsOfName("d");
    var w := Components(Full(root, "d/"));
    assert w == c + ["d"];
    var k := |c| - 1;
    assert |c[k] + "d"| != |c[k]|;
    assert w[k] == c[k] && (a + ["x"])[k] == c[k] + "d";
    assert w !in t;
    assert ["d/"][1..] == [];
  }

  lemma OnlyDirectory(t: Tree, root: string, d: string)
    ensures AfterRemoval(t, root, [], [d]) == t - Removed(t, root + d)
  {
    assert [d][1..] == [];
    assert RemoveDirs(t, root, [d]) == RemoveDirs(t - Removed(t, root + d), root, []);
  }

  /** removeRec finds one that is. */
  lemma RemovalHits(t: Tree, root: string)
    requires FileTree.WellFormed(t) && IsDir(t, Components(root + "d")) && IsFile(t, Components(root + "d") + ["x"])
    ensures Components(root + "d") + ["x"] !in AfterRemoval(t, root, [], ["d/"])
  {
    OnlyDirectory(t, root, "d/");
    TrailingSlash(root + "d");
    Associate(root, "d", "/");
    assert "d" + "/" == "d/";
    RemovedTerminated(t, root + "d/");
    assert VisibleUnder(Components(root + "d"), Components(root + "d") + ["x"]);
  }

  /** Removal of the source is safe for every tree if and only if the root ends in a slash. */
  lemma RootMatters(root: string)
    requires root != ""
    ensures SafeRoot(root) <==> EndsInSlash(root)
  {
    if EndsInSlash(root) {
      forall t, dirs, names | FileTree.WellFormed(t) && (forall d <- dirs :: Terminated(d))
                              && Elements(names) == Migrated(t, root, {}, dirs)
        ensures !LosesData(t, root, names, dirs)
      {
        NoDataLoss(t, root, {}, dirs, names);
      }
    } else {
      var t := UnsafeRoot(root);
      assert Elements([]) == {};
    }
  }
}
