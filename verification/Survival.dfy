/**
 Which directories REMI_REMOVE_SOURCE leaves behind: the files go one by one,
 then removeRec runs on every registered directory in turn.
 */
module Survival {
  import opened Paths
  import opened Names
  import opened FileTree
  import opened Walk
  import opened SourceRemoval

  /** removeRec of `s` gets to `q`. */
  predicate Covers(s: string, q: Path) {
    q == Components(s) || VisibleUnder(Components(s), q)
  }

  /** One call: a directory it gets to survives exactly when something hidden is beneath it; others always do. */
  lemma SurvivesOneCall(t: Tree, s: string, q: Path)
    requires FileTree.WellFormed(t) && EndsInSlash(s) && IsDir(t, q) && q != []
    ensures q in t - Removed(t, s) <==> (Covers(s, q) ==> HidesUnder(t, q))
  {
    RemovedTerminated(t, s);
    if VisibleUnder(Components(s), q) { AncestorIsDir(t, Components(s), q); }
  }

  lemma PrefixAfterFirst(t: Tree, root: string, dirs: seq<string>, i: nat)
    requires 0 < i <= |dirs|
    ensures RemoveDirs(t, root, dirs[..i]) == RemoveDirs(t - Removed(t, root + dirs[0]), root, dirs[1..][..i - 1])
  {
    assert dirs[..i][0] == dirs[0] && dirs[..i][1..] == dirs[1..][..i - 1];
  }

  /** Whenever the call for directory number `i` gets to `q`, something hidden is left beneath it. */
  ghost predicate HiddenAtEachCall(t: Tree, root: string, dirs: seq<string>, q: Path) {
    forall i: nat :: i < |dirs| && Covers(root + dirs[i], q) ==> HidesUnder(RemoveDirs(t, root, dirs[..i]), q)
  }

  lemma HiddenFromSecond(t: Tree, root: string, dirs: seq<string>, q: Path)
    requires dirs != []
    ensures HiddenAtEachCall(t, root, dirs, q) <==>
            && (Covers(root + dirs[0], q) ==> HidesUnder(t, q))
            && HiddenAtEachCall(t - Removed(t, root + dirs[0]), root, dirs[1..], q)
  {
    var u := t - Removed(t, root + dirs[0]);
    assert dirs[..0] == [];
    forall i: nat | 0 < i < |dirs| ensures RemoveDirs(t, root, dirs[..i]) == RemoveDirs(u, root, dirs[1..][..i - 1]) {
      PrefixAfterFirst(t, root, dirs, i);
    }
    if HiddenAtEachCall(t, root, dirs, q) {
      forall k: nat | k < |dirs[1..]| && Covers(root + dirs[1..][k], q) ensures HidesUnder(RemoveDirs(u, root, dirs[1..][..k]), q) {
        assert dirs[1..][k] == dirs[k + 1] && Covers(root + dirs[k + 1], q);
      }
    }
    if HiddenAtEachCall(u, root, dirs[1..], q) {
      forall i: nat | 0 < i < |dirs| && Covers(root + dirs[i], q) ensures HidesUnder(RemoveDirs(t, root, dirs[..i]), q) {
        assert dirs[1..][i - 1] == dirs[i];
      }
    }
  }

  /** All calls, exactly, whatever the registered directories: the order of the calls matters. */
  lemma {:induction false} SurvivesCalls(t: Tree, root: string, dirs: seq<string>, q: Path)
    requires FileTree.WellFormed(t) && IsDir(t, q) && q != [] && forall d <- dirs :: EndsInSlash(root + d)
    ensures q in RemoveDirs(t, root, dirs) <==> HiddenAtEachCall(t, root, dirs, q)
    decreases |dirs|
  {
    if dirs != [] {
      var u := t - Removed(t, root + dirs[0]);
      SurvivesOneCall(t, root + dirs[0], q);
      RemovedKeepsShape(t, root + dirs[0]);
      HiddenFromSecond(t, root, dirs, q);
      if q in u {
        SurvivesCalls(u, root, dirs[1..], q);
      } else {
        RemoveDirsParts(u, root, dirs[1..]);
      }
    }
  }

  // --------------------------------------------- a condition on the tree alone

  /** No directory is registered in a hidden place below `q`. */
  predicate NoneHiddenBelow(root: string, dirs: seq<string>, q: Path) {
    forall d <- dirs :: q < Components(root + d) ==> VisibleUnder(q, Components(root + d))
  }

  /** What is hidden below `q` is then out of reach of every call. */
  lemma HiddenNotCovered(root: string, dirs: seq<string>, d: string, q: Path, r: Path)
    requires NoneHiddenBelow(root, dirs, q) && d in dirs && q < r && !VisibleUnder(q, r)
    ensures !Covers(root + d, r)
  {
  }

  lemma {:induction false} UncoveredStays(t: Tree, root: string, dirs: seq<string>, r: Path)
    requires FileTree.WellFormed(t) && r in t && (forall d <- dirs :: EndsInSlash(root + d)) && forall d <- dirs :: !Covers(root + d, r)
    ensures r in RemoveDirs(t, root, dirs)
    decreases |dirs|
  {
    if dirs != [] {
      RemovedTerminated(t, root + dirs[0]);
      RemovedKeepsShape(t, root + dirs[0]);
      assert dirs[0] in dirs;
      UncoveredStays(t - Removed(t, root + dirs[0]), root, dirs[1..], r);
    }
  }

  lemma HiddenStays(t: Tree, root: string, dirs: seq<string>, q: Path)
    requires FileTree.WellFormed(t) && (forall d <- dirs :: EndsInSlash(root + d)) && NoneHiddenBelow(root, dirs, q)
    ensures HidesUnder(RemoveDirs(t, root, dirs), q) <==> HidesUnder(t, q)
  {
    RemoveDirsParts(t, root, dirs);
    if HidesUnder(t, q) {
      var r :| r in t && q < r && !VisibleUnder(q, r);
      forall d | d in dirs ensures !Covers(root + d, r) { HiddenNotCovered(root, dirs, d, q, r); }
      UncoveredStays(t, root, dirs, r);
    }
  }

  /** The file loop takes exactly the files named, if each of them can be opened. */
  lemma {:induction false} RemoveFilesExactly(t: Tree, root: string, names: seq<string>)
    requires FileTree.WellFormed(t)
    requires forall n <- names :: Components(root + n) !in t || OpenRead(t, root + n).Some?
    ensures RemoveFiles(t, root, names) == t - PathsOf(root, Elements(names))
    decreases |names|
  {
    if names == [] {
      assert PathsOf(root, Elements(names)) == {};
    } else {
      var p := Components(root + names[0]);
      var u := RemoveOne(t, root + names[0]);
      RemoveOneIs(t, root + names[0]);
      assert names == [names[0]] + names[1..] && names[0] in names;
      assert u == t - {p};
      RemoveFilesExactly(u, root, names[1..]);
      ElementsCons(names[0], names[1..]);
      PathsOfCons(root, names[0], Elements(names[1..]));
    }
  }

  lemma PathsOfCons(root: string, n: string, ns: set<string>)
    ensures PathsOf(root, {n} + ns) == {Components(root + n)} + PathsOf(root, ns)
  {
    assert n in {n} + ns;
  }

  /** Something hidden below `q` is not itself among the migrated files. */
  ghost predicate LeftHidden(t: Tree, root: string, names: seq<string>, q: Path) {
    exists r :: r in t && q < r && !VisibleUnder(q, r) && r !in PathsOf(root, Elements(names))
  }

  /**
   The whole removal after a migration of `names`, all of which were opened. If
   no directory is registered in a hidden place below it, a directory survives
   if and only if no registered directory gets to it, or something hidden is
   beneath it that was not migrated; and then something hidden is still beneath.
   */
  lemma DirectorySurvives(t: Tree, root: string, names: seq<string>, dirs: seq<string>, q: Path)
    requires FileTree.WellFormed(t) && IsDir(t, q) && q != []
    requires (forall n <- names :: OpenRead(t, root + n).Some?) && forall d <- dirs :: EndsInSlash(root + d)
    requires NoneHiddenBelow(root, dirs, q)
    ensures q in AfterRemoval(t, root, names, dirs) <==>
            ((exists d :: d in dirs && Covers(root + d, q)) ==> LeftHidden(t, root, names, q))
    ensures LeftHidden(t, root, names, q) <==> HidesUnder(AfterRemoval(t, root, names, dirs), q)
  {
    var u := RemoveFiles(t, root, names);
    RemoveFilesExactly(t, root, names);
    RemoveFilesTakes(t, root, names);
    forall n | n in names ensures Components(root + n) != q { assert OpenRead(t, root + n).Some?; }
    assert IsDir(u, q);
    SurvivesCalls(u, root, dirs, q);
    HiddenStays(u, root, dirs, q);
    HiddenThroughout(u, root, dirs, q);
    assert LeftHidden(t, root, names, q) <==> HidesUnder(u, q);
  }

  lemma HiddenThroughout(t: Tree, root: string, dirs: seq<string>, q: Path)
    requires FileTree.WellFormed(t) && (forall d <- dirs :: EndsInSlash(root + d)) && NoneHiddenBelow(root, dirs, q)
    ensures HiddenAtEachCall(t, root, dirs, q) <==> ((exists d :: d in dirs && Covers(root + d, q)) ==> HidesUnder(t, q))
  {
    forall i: nat | i < |dirs| ensures HidesUnder(RemoveDirs(t, root, dirs[..i]), q) <==> HidesUnder(t, q) {
      forall d | d in dirs[..i] ensures d in dirs { }
      HiddenStays(t, root, dirs[..i], q);
    }
    if d :| d in dirs && Covers(root + d, q) {
      var i: nat :| i < |dirs| && dirs[i] == d;
    }
  }

  // -------------------------------------------------- without that condition

  lemma {:induction false} LongerIsLater(a: string, b: string)
    requires b != ""
    ensures Less(a, a + b)
  {
    if a != "" {
      LongerIsLater(a[1..], b);
      assert (a + b)[1..] == a[1..] + b;
    }
  }

  /**
   Directories registered in hidden places spoil it: with a directory and a
   hidden, empty one in it both registered, the first call spares the outer
   one for the sake of the inner, the second call takes the inner, and the
   outer stays behind with nothing beneath it.
   */
  lemma StrandedDirectory(t: Tree, root: string, d: string, n: string)
    requires FileTree.WellFormed(t) && EndsInSlash(root + d) && IsName(n) && !Visible(n)
    requires var a := Components(root + d); a != [] && IsDir(t, a + [n]) && forall r <- t :: a < r ==> r == a + [n]
    ensures Increasing([d, Sub(d, n)]) && forall e <- [d, Sub(d, n)] :: EndsInSlash(root + e)
    ensures var u := AfterRemoval(t, root, [], [d, Sub(d, n)]);
            Components(root + d) in u && forall r <- u :: !(Components(root + d) < r)
  {
    var a, e := Components(root + d), Sub(d, n);
    var b := a + [n];
    SubOf(root, d, n);
    EntryPath(root + d, n);
    assert Components(root + e) == b;
    assert e == d + (n + "/");
    LongerIsLater(d, n + "/");
    FirstCallSpares(t, root + d, n);
    SecondCallTakes(t, root + e, a, n);
    TwoCalls(t, root, d, e);
  }

  lemma TwoCalls(t: Tree, root: string, d: string, e: string)
    ensures var u := t - Removed(t, root + d); AfterRemoval(t, root, [], [d, e]) == u - Removed(u, root + e)
  {
    var u := t - Removed(t, root + d);
    assert [d, e][1..] == [e] && [e][1..] == [];
    assert RemoveDirs(t, root, [d, e]) == RemoveDirs(u, root, [e]);
    assert RemoveDirs(u, root, [e]) == RemoveDirs(u - Removed(u, root + e), root, []);
  }

  lemma SecondCallTakes(t: Tree, s: string, a: Path, n: string)
    requires FileTree.WellFormed(t) && EndsInSlash(s) && Components(s) == a + [n]
    requires IsDir(t, a + [n]) && forall r <- t :: a < r ==> r == a + [n]
    ensures a in t - Removed(t, s) && forall r <- t - Removed(t, s) :: !(a < r)
  {
    AncestorIsDir(t, a, a + [n]);
    RemovedTerminated(t, s);
    assert forall r <- t :: a + [n] < r ==> a < r;
  }

  lemma FirstCallSpares(t: Tree, s: string, n: string)
    requires FileTree.WellFormed(t) && EndsInSlash(s) && !Visible(n)
    requires var a := Components(s); IsDir(t, a + [n]) && forall r <- t :: a < r ==> r == a + [n]
    ensures Removed(t, s) == {} && t - Removed(t, s) == t
  {
    var a := Components(s);
    AncestorIsDir(t, a, a + [n]);
    assert (a + [n])[|a|] == n;
    assert !VisibleUnder(a, a + [n]) && HidesUnder(t, a);
    RemovedTerminated(t, s);
  }
}
