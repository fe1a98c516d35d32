/** listFiles and removeRec of src/fs-util.hpp. */
module Walk {
  import opened Paths
  import opened Names
  import opened FileTree

  predicate Visible(n: string) {
    n != "" && n[0] != '.'
  }

  /** `q` lies below `p` and no component in between is hidden. */
  predicate VisibleUnder(p: Path, q: Path) {
    p < q && forall i :: |p| <= i < |q| ==> Visible(q[i])
  }

  /** A hidden entry lies somewhere below `q`. */
  ghost predicate HidesUnder(t: Tree, q: Path) {
    exists r :: r in t && q < r && !VisibleUnder(q, r)
  }

  function RelName(rel: Path): string
    requires rel != []
  {
    if |rel| == 1 then rel[0] else rel[0] + "/" + RelName(rel[1..])
  }

  // -------------------------------------------------------------- specifications

  /** The regular files below `p` reached without entering anything hidden, named from `path`. */
  function ListedBelow(t: Tree, p: Path, path: string): set<string> {
    set q | q in t && t[q].Regular? && VisibleUnder(p, q) :: path + RelName(q[|p|..])
  }

  /** The string listFiles opens. */
  function Full(root: string, path: string): string {
    root + "/" + path
  }

  /** The name under which a walk continues in the subdirectory `n`. */
  function Sub(path: string, n: string): string {
    path + n + "/"
  }

  function ListedVia(t: Tree, root: string, path: string, n: string): set<string> {
    if IsDir(t, Components(Full(root, path)) + [n]) then
      ListedBelow(t, Components(Full(root, Sub(path, n))), Sub(path, n))
    else {path + n}
  }

  /** What listFiles reports. */
  function Listing(t: Tree, root: string, path: string): set<string> {
    var p := Components(Full(root, path));
    if !IsDir(t, p) then {}
    else set n, x | n in Children(t, p) && Visible(n) && x in ListedVia(t, root, path, n) :: x
  }

  /**
   What disappears below a directory named with a final slash: every visible
   file, and every visible directory (itself included) with nothing hidden below.
   */
  ghost function RemovedBelow(t: Tree, p: Path): set<Path> {
    if !IsDir(t, p) then {}
    else set q | q in t && q != [] && (q == p || VisibleUnder(p, q)) && (t[q].Regular? || !HidesUnder(t, q))
  }

  function RemovedOne(t: Tree, s: string): set<Path> {
    t.Keys - RemoveOne(t, s).Keys
  }

  ghost function RemovedVia(t: Tree, s: string, n: string): set<Path> {
    if IsDir(t, Components(s) + [n]) then RemovedBelow(t, Components(Sub(s, n))) else RemovedOne(t, s + n)
  }

  ghost function RemovedEntries(t: Tree, s: string, ns: set<string>): set<Path> {
    set n, q | n in ns && Visible(n) && q in RemovedVia(t, s, n) :: q
  }

  /** What removeRec deletes; an empty path names nothing. */
  ghost function Removed(t: Tree, s: string): set<Path> {
    if s == "" then {}
    else if !IsDir(t, Components(s)) then RemovedOne(t, s)
    else
      var u := RemovedEntries(t, s, Children(t, Components(s)));
      u + RemovedOne(t - u, s)
  }

  // ---------------------------------------------------------------- path strings

  lemma TrailingSlash(s: string)
    ensures Components(s + "/") == Components(s)
  {
    ComponentsOfJoin(s, "");
    assert s + "/" + "" == s + "/";
  }

  /** Where `s + n` leads: to the child after a slash, else to a sibling with a longer name. */
  lemma EntryPath(s: string, n: string)
    requires s != "" && IsName(n)
    ensures Components(s + n + "/") == Components(s + n)
    ensures EndsInSlash(s) ==> Components(s + n) == Components(s) + [n]
    ensures !EndsInSlash(s) ==>
              Components(s) != [] && Components(s + n) == Up(Components(s)) + [Components(s)[|Components(s)| - 1] + n]
  {
    TrailingSlash(s + n);
    if EndsInSlash(s) {
      ComponentsAfterSlash(s, n);
      ComponentsOfName(n);
    } else {
      ComponentsOfGlue(s, n);
    }
  }

  lemma Glue(l: string, m: string, n: string)
    requires m != n
    ensures l + m != l + n
  {
    assert (l + m)[|l|..] == m;
    assert (l + n)[|l|..] == n;
  }

  lemma Associate(a: string, b: string, c: string)
    ensures a + (b + c) == a + b + c
  {
  }

  /** Different entries lead to places with nothing in common. */
  lemma EntryPathsApart(s: string, m: string, n: string, q: Path)
    requires s != "" && IsName(m) && IsName(n) && m != n
    ensures !(Components(s + m) <= q && Components(s + n) <= q)
  {
    EntryPath(s, m);
    EntryPath(s, n);
    var a, b := Components(s + m), Components(s + n);
    var k := |a| - 1;
    if EndsInSlash(s) {
      assert a[k] == m && b[k] == n;
    } else {
      var l := Components(s)[|Components(s)| - 1];
      Glue(l, m, n);
      assert a[k] == l + m && b[k] == l + n;
    }
  }

  lemma ChildIsName(t: Tree, p: Path, n: string)
    requires FileTree.WellFormed(t) && n in Children(t, p)
    ensures IsName(n) && p + [n] in t
  {
    ChildIn(t, p, n);
    assert n in p + [n];
  }

  // ------------------------------------------------------------------- listFiles

  predicate Terminated(path: string) {
    path == "" || EndsInSlash(path)
  }

  lemma ListPath(root: string, path: string, n: string)
    requires Terminated(path) && IsName(n)
    ensures Components(Full(root, Sub(path, n))) == Components(Full(root, path)) + [n]
  {
    var s := Full(root, path);
    Associate(root + "/", path + n, "/");
    Associate(root + "/", path, n);
    assert Full(root, Sub(path, n)) == s + n + "/";
    assert EndsInSlash(s);
    EntryPath(s, n);
  }

  lemma ListedSplit(t: Tree, root: string, path: string, q: Path)
    requires FileTree.WellFormed(t) && Terminated(path)
    requires q in t && t[q].Regular? && VisibleUnder(Components(Full(root, path)), q)
    ensures path + RelName(q[|Components(Full(root, path))|..]) in Listing(t, root, path)
  {
    var p := Components(Full(root, path));
    var n := q[|p|];
    var x := path + RelName(q[|p|..]);
    AncestorIsDir(t, p, q);
    assert p + [n] == q[..|p| + 1];
    if |q| == |p| + 1 {
      assert q == p + [n];
    } else {
      AncestorIsDir(t, p + [n], q);
      ListedName(p, n, q, path);
    }
    ChildIn(t, p, n);
    ChildIsName(t, p, n);
    ListPath(root, path, n);
    assert x in ListedVia(t, root, path, n);
  }

  lemma ListedName(p: Path, n: string, q: Path, path: string)
    requires p + [n] < q
    ensures path + RelName(q[|p|..]) == Sub(path, n) + RelName(q[|p| + 1..])
  {
    var rel := q[|p|..];
    assert rel[0] == (p + [n])[|p|] && rel[1..] == q[|p| + 1..];
    Associate(path, n + "/", RelName(rel[1..]));
    Associate(path, n, "/");
  }

  lemma ListedJoin(t: Tree, root: string, path: string, n: string, x: string)
    requires FileTree.WellFormed(t) && Terminated(path)
    requires n in Children(t, Components(Full(root, path))) && Visible(n) && x in ListedVia(t, root, path, n)
    ensures x in ListedBelow(t, Components(Full(root, path)), path)
  {
    var p := Components(Full(root, path));
    ChildIsName(t, p, n);
    ListPath(root, path, n);
    if IsDir(t, p + [n]) {
      var q :| q in t && t[q].Regular? && VisibleUnder(p + [n], q) && x == Sub(path, n) + RelName(q[|p + [n]|..]);
      ListedName(p, n, q, path);
      assert q[|p|] == (p + [n])[|p|];
      assert VisibleUnder(p, q);
    } else {
      var q := p + [n];
      assert q[|p|..] == [n] && x == path + RelName(q[|p|..]);
    }
  }

  /** From a name that is empty or ends in a slash, the walk reports exactly the visible files below. */
  lemma ListingTerminated(t: Tree, root: string, path: string)
    requires FileTree.WellFormed(t) && Terminated(path)
    ensures Listing(t, root, path) == ListedBelow(t, Components(Full(root, path)), path)
  {
    var p := Components(Full(root, path));
    forall x | x in ListedBelow(t, p, path) ensures x in Listing(t, root, path) {
      var q :| q in t && t[q].Regular? && VisibleUnder(p, q) && x == path + RelName(q[|p|..]);
      ListedSplit(t, root, path, q);
    }
    forall x | x in Listing(t, root, path) ensures x in ListedBelow(t, p, path) {
      var n :| n in Children(t, p) && Visible(n) && x in ListedVia(t, root, path, n);
      ListedJoin(t, root, path, n, x);
    }
  }

  /** Single slashes between components, and none elsewhere. */
  predicate Tidy(s: string) {
    s != "" && s[0] != '/' && s[|s| - 1] != '/' && forall i :: 0 <= i < |s| - 1 ==> s[i] != '/' || s[i + 1] != '/'
  }

  lemma {:induction false} RelNameTidy(rel: Path)
    requires rel != [] && forall n <- rel :: IsName(n)
    ensures Tidy(RelName(rel))
    decreases |rel|
  {
    assert IsName(rel[0]);
    if |rel| > 1 {
      RelNameTidy(rel[1..]);
      TidyJoin(rel[0], RelName(rel[1..]));
    }
  }

  lemma TidyJoin(n: string, s: string)
    requires IsName(n) && Tidy(s)
    ensures Tidy(n + "/" + s)
  {
    var r := n + "/" + s;
    forall i | 0 <= i < |r| - 1 ensures r[i] != '/' || r[i + 1] != '/' {
      if i > |n| { assert r[i] == s[i - |n| - 1] && r[i + 1] == s[i - |n|]; }
    }
  }

  /** How the walk spells what it reports, whatever the directory is called: its name, then a tidy relative name. */
  lemma ListedNamesTidy(t: Tree, root: string, path: string, x: string)
    requires FileTree.WellFormed(t) && x in Listing(t, root, path)
    ensures |path| < |x| && x[..|path|] == path && Tidy(x[|path|..])
  {
    var p := Components(Full(root, path));
    var n :| n in Children(t, p) && Visible(n) && x in ListedVia(t, root, path, n);
    ChildIn(t, p, n);
    assert n in p + [n];
    if IsDir(t, p + [n]) {
      var d := Components(Full(root, Sub(path, n)));
      var q :| q in t && t[q].Regular? && VisibleUnder(d, q) && x == Sub(path, n) + RelName(q[|d|..]);
      forall m | m in q[|d|..] ensures IsName(m) { assert m in q; }
      RelNameTidy(q[|d|..]);
      TidyJoin(n, RelName(q[|d|..]));
      assert x == path + (n + "/" + RelName(q[|d|..]));
    }
  }

  function Subtree(t: Tree, p: Path): set<Path> {
    set q | q in t && p <= q
  }

  function ListedEntries(t: Tree, root: string, path: string, ns: set<string>): set<string> {
    set n, x | n in ns && Visible(n) && x in ListedVia(t, root, path, n) :: x
  }

  lemma NamesOfNext(es: seq<Dirent>, i: nat)
    requires i < |es|
    ensures NamesOf(es[..i + 1]) == NamesOf(es[..i]) + {es[i].name}
  {
    assert es[..i + 1] == es[..i] + [es[i]];
  }

  lemma NamesOfAll(t: Tree, p: Path, es: seq<Dirent>)
    requires Snapshot(t, p, es)
    ensures NamesOf(es[..|es|]) == Children(t, p)
  {
    assert es[..|es|] == es;
  }

  /** listFiles(root, path, insert into `files`). */
  method ListFiles(fs: FileSystem, root: string, path: string, files: seq<string>) returns (r: seq<string>)
    requires FileTree.WellFormed(fs.tree) && Increasing(files)
    ensures Increasing(r)
    ensures Elements(r) == Elements(files) + Listing(fs.tree, root, path)
    decreases if Terminated(path) then 0 else 1, Subtree(fs.tree, Components(Full(root, path)))
  {
    r := files;
    var ok, es := fs.ReadDir(Full(root, path));
    if ok {
      ghost var t, p := fs.tree, Components(Full(root, path));
      var i := 0;
      while i < |es|
        invariant i <= |es| && Increasing(r)
        invariant Elements(r) == Elements(files) + ListedEntries(t, root, path, NamesOf(es[..i]))
      {
        var e := es[i];
        NamesOfNext(es, i);
        assert e in es && e.name in NamesOf(es);
        if Visible(e.name) {
          ghost var before := r;
          if e.isDir {
            ListRecursion(t, root, path, e.name);
            r := ListFiles(fs, root, Sub(path, e.name), r);
          } else {
            InsertKeepsOrder(r, path + e.name);
            r := Insert(r, path + e.name);
          }
          ListedEntriesNext(t, root, path, NamesOf(es[..i]), e.name);
        }
        i := i + 1;
      }
      NamesOfAll(t, p, es);
    }
  }

  lemma ListRecursion(t: Tree, root: string, path: string, n: string)
    requires FileTree.WellFormed(t)
    requires n in Children(t, Components(Full(root, path))) && IsDir(t, Components(Full(root, path)) + [n])
    ensures Terminated(Sub(path, n))
    ensures Listing(t, root, Sub(path, n)) == ListedVia(t, root, path, n)
    ensures Terminated(path) ==>
              Subtree(t, Components(Full(root, Sub(path, n)))) < Subtree(t, Components(Full(root, path)))
  {
    var p := Components(Full(root, path));
    ChildIsName(t, p, n);
    ListingTerminated(t, root, Sub(path, n));
    if Terminated(path) {
      ListPath(root, path, n);
      SubtreeShrinks(t, t, p, n);
    }
  }

  lemma SubtreeShrinks(t: Tree, t': Tree, p: Path, n: string)
    requires FileTree.WellFormed(t) && p + [n] in t && t'.Keys <= t.Keys
    ensures Subtree(t', p + [n]) < Subtree(t, p)
  {
    AncestorIsDir(t, p, p + [n]);
    assert p in Subtree(t, p) && p !in Subtree(t', p + [n]);
  }

  lemma ListedEntriesNext(t: Tree, root: string, path: string, ns: set<string>, n: string)
    ensures ListedEntries(t, root, path, ns + {n}) ==
            ListedEntries(t, root, path, ns) + if Visible(n) then ListedVia(t, root, path, n) else {}
  {
  }

  // ------------------------------------------------------------------- removeRec

  lemma RemoveOneIs(t: Tree, s: string)
    requires FileTree.WellFormed(t)
    ensures RemoveOne(t, s) == t - RemovedOne(t, s)
    ensures RemovedOne(t, s) <= {Components(s)}
    ensures FileTree.WellFormed(RemoveOne(t, s))
  {
    var p, u := Components(s), RemoveOne(t, s);
    forall q | q in u && q != [] ensures IsDir(u, Up(q)) {
      assert IsDir(t, Up(q));
      if Up(q) == p && u != t {
        assert q == p + [q[|q| - 1]];
        ChildIn(t, p, q[|q| - 1]);
      }
    }
  }

  /** The trees agree at `p` and everywhere below. */
  ghost predicate SameBelow(t: Tree, u: Tree, p: Path) {
    forall q :: p <= q ==> (q in t <==> q in u) && (q in t ==> t[q] == u[q])
  }

  lemma RemovedBelowLocal(t: Tree, u: Tree, p: Path)
    requires SameBelow(t, u, p)
    ensures RemovedBelow(t, p) == RemovedBelow(u, p)
  {
    assert IsDir(t, p) <==> IsDir(u, p);
    forall q | p <= q ensures HidesUnder(t, q) <==> HidesUnder(u, q) {
      if r :| r in t && q < r && !VisibleUnder(q, r) { assert p <= r; }
      if r :| r in u && q < r && !VisibleUnder(q, r) { assert p <= r; }
    }
  }

  lemma ChildrenLocal(t: Tree, u: Tree, p: Path)
    requires SameBelow(t, u, p)
    ensures Children(t, p) == Children(u, p)
  {
    forall n ensures n in Children(t, p) <==> n in Children(u, p) {
      ChildIn(t, p, n);
      ChildIn(u, p, n);
    }
  }

  lemma RemovedOneLocal(t: Tree, u: Tree, s: string)
    requires SameBelow(t, u, Components(s))
    ensures RemovedOne(t, s) == RemovedOne(u, s)
  {
    ChildrenLocal(t, u, Components(s));
    assert RemovedOne(t, s) == if RemoveOne(t, s) == t then {} else {Components(s)};
    assert RemovedOne(u, s) == if RemoveOne(u, s) == u then {} else {Components(s)};
  }

  /** What an entry leads to, and where all of it lies. */
  lemma RemovedViaInside(t: Tree, s: string, n: string)
    requires s != "" && IsName(n) && FileTree.WellFormed(t)
    ensures forall q <- RemovedVia(t, s, n) :: Components(s + n) <= q
  {
    EntryPath(s, n);
    RemoveOneIs(t, s + n);
  }

  /** Removing entries leads away from the place of any other entry. */
  lemma OtherEntriesIntact(t: Tree, s: string, ns: set<string>, n: string)
    requires s != "" && IsName(n) && n !in ns && FileTree.WellFormed(t) && forall m <- ns :: IsName(m)
    ensures SameBelow(t, t - RemovedEntries(t, s, ns), Components(s + n))
  {
    var a := Components(s + n);
    forall q | a <= q ensures q !in RemovedEntries(t, s, ns) {
      if q in RemovedEntries(t, s, ns) {
        var m :| m in ns && Visible(m) && q in RemovedVia(t, s, m);
        RemovedViaInside(t, s, m);
        EntryPathsApart(s, m, n, q);
      }
    }
  }

  lemma RemovedEntriesNext(t: Tree, s: string, ns: set<string>, n: string)
    ensures RemovedEntries(t, s, ns + {n}) == RemovedEntries(t, s, ns) + if Visible(n) then RemovedVia(t, s, n) else {}
  {
  }

  /** Hidden entries below `p` show up below one of its children. */
  lemma HidesThroughChild(t: Tree, p: Path, n: string)
    requires FileTree.WellFormed(t) && p + [n] in t
    ensures !Visible(n) ==> HidesUnder(t, p)
    ensures Visible(n) && HidesUnder(t, p + [n]) ==> HidesUnder(t, p)
  {
    if !Visible(n) {
      assert (p + [n])[|p|] == n;
      assert !VisibleUnder(p, p + [n]);
    } else if HidesUnder(t, p + [n]) {
      var r :| r in t && p + [n] < r && !VisibleUnder(p + [n], r);
      assert p < r && !VisibleUnder(p, r);
    }
  }

  lemma VisibleThrough(p: Path, n: string, r: Path)
    requires p + [n] < r && Visible(n)
    ensures VisibleUnder(p + [n], r) ==> VisibleUnder(p, r)
  {
    assert r[|p|] == n;
    assert p == (p + [n])[..|p|];
  }

  /** The entry of `p` on the way to `r`. */
  lemma StepTowards(t: Tree, p: Path, r: Path)
    requires FileTree.WellFormed(t) && r in t && p < r
    ensures var c := p + [r[|p|]]; c in t && r[|p|] in Children(t, p) && (r == c || (c < r && IsDir(t, c)))
  {
    var c := p + [r[|p|]];
    assert c == r[..|p| + 1];
    if |r| == |c| {
      assert r == c;
    } else {
      AncestorIsDir(t, c, r);
    }
    ChildIn(t, p, r[|p|]);
  }

  lemma HiddenChildOf(t: Tree, p: Path) returns (n: string)
    requires FileTree.WellFormed(t) && HidesUnder(t, p)
    ensures n in Children(t, p) && p + [n] in t
    ensures Visible(n) ==> IsDir(t, p + [n]) && HidesUnder(t, p + [n])
  {
    var r :| r in t && p < r && !VisibleUnder(p, r);
    n := r[|p|];
    StepTowards(t, p, r);
    assert Visible(n) ==> VisibleUnder(p, p + [n]);
    if Visible(n) { VisibleThrough(p, n, r); }
  }

  /** With a final slash, an entry is removed exactly as the closed form says. */
  lemma RemovedViaTerminated(t: Tree, s: string, n: string)
    requires FileTree.WellFormed(t) && EndsInSlash(s) && n in Children(t, Components(s)) && Visible(n)
    ensures RemovedVia(t, s, n) == set q | q in RemovedBelow(t, Components(s)) && Components(s) + [n] <= q
  {
    var p := Components(s);
    var c := p + [n];
    ChildIsName(t, p, n);
    EntryPath(s, n);
    AncestorIsDir(t, p, c);
    forall q | q in t && c <= q ensures q in RemovedBelow(t, p) <==> (t[q].Regular? || !HidesUnder(t, q)) && (q == c || VisibleUnder(c, q)) {
      assert p < q && q[|p|] == c[|p|];
    }
    if !IsDir(t, c) {
      assert !EndsInSlash(s + n);
      forall q | q in t && c < q ensures false { AncestorIsDir(t, c, q); }
    }
  }

  lemma RemovedEntriesTerminated(t: Tree, s: string)
    requires FileTree.WellFormed(t) && EndsInSlash(s) && IsDir(t, Components(s))
    ensures RemovedEntries(t, s, Children(t, Components(s))) == RemovedBelow(t, Components(s)) - {Components(s)}
  {
    var p := Components(s);
    var ns := Children(t, p);
    forall q | q in RemovedBelow(t, p) && q != p ensures q in RemovedEntries(t, s, ns) {
      var n := q[|p|];
      assert p + [n] == q[..|p| + 1];
      if |q| > |p| + 1 { AncestorIsDir(t, p + [n], q); } else { assert q == p + [n]; }
      ChildIn(t, p, n);
      RemovedViaTerminated(t, s, n);
      assert q in RemovedVia(t, s, n);
    }
    forall q | q in RemovedEntries(t, s, ns) ensures q in RemovedBelow(t, p) && q != p {
      var n :| n in ns && Visible(n) && q in RemovedVia(t, s, n);
      RemovedViaTerminated(t, s, n);
    }
  }

  /** An entry stays exactly when it is hidden, or a directory with something hidden below. */
  lemma EntryStays(t: Tree, p: Path, n: string)
    requires FileTree.WellFormed(t) && p + [n] in t
    ensures p + [n] in RemovedBelow(t, p) <==>
            Visible(n) && (t[p + [n]].Regular? || !HidesUnder(t, p + [n]))
  {
    AncestorIsDir(t, p, p + [n]);
    assert (p + [n])[|p|] == n;
  }

  /** The directory itself goes exactly when nothing hidden was below. */
  lemma LastRemove(t: Tree, s: string, u: set<Path>)
    requires FileTree.WellFormed(t) && EndsInSlash(s) && IsDir(t, Components(s))
    requires u == RemovedBelow(t, Components(s)) - {Components(s)}
    ensures RemovedOne(t - u, s) == if Components(s) in RemovedBelow(t, Components(s)) then {Components(s)} else {}
  {
    var p := Components(s);
    var v := t - u;
    if HidesUnder(t, p) {
      var n := HiddenChildOf(t, p);
      EntryStays(t, p, n);
      ChildIn(v, p, n);
    } else {
      forall n | n in Children(v, p) ensures false {
        ChildIn(v, p, n);
        HidesThroughChild(t, p, n);
        EntryStays(t, p, n);
      }
    }
  }

  /** removeRec of a name with a final slash, in closed form. */
  lemma RemovedTerminated(t: Tree, s: string)
    requires FileTree.WellFormed(t) && EndsInSlash(s)
    ensures Removed(t, s) == RemovedBelow(t, Components(s))
  {
    if IsDir(t, Components(s)) {
      RemovedEntriesTerminated(t, s);
      LastRemove(t, s, RemovedEntries(t, s, Children(t, Components(s))));
    }
  }

  lemma RemoveEntry(t: Tree, s: string, ns: set<string>, n: string)
    requires FileTree.WellFormed(t) && s != "" && n in Children(t, Components(s)) && ns <= Children(t, Components(s)) && n !in ns
    requires FileTree.WellFormed(t - RemovedEntries(t, s, ns))
    ensures var u := t - RemovedEntries(t, s, ns);
            if IsDir(t, Components(s) + [n]) then Removed(u, Sub(s, n)) == RemovedVia(t, s, n)
            else RemovedOne(u, s + n) == RemovedVia(t, s, n)
  {
    var u := t - RemovedEntries(t, s, ns);
    ChildIsName(t, Components(s), n);
    forall m | m in ns ensures IsName(m) { ChildIsName(t, Components(s), m); }
    OtherEntriesIntact(t, s, ns, n);
    EntryPath(s, n);
    RemovedTerminated(u, Sub(s, n));
    RemovedBelowLocal(t, u, Components(s + n));
    RemovedOneLocal(t, u, s + n);
  }

  lemma MinusTwice(t: Tree, a: set<Path>, b: set<Path>)
    ensures t - (a + b) == t - a - b
  {
  }

  /** What one round of the loop adds to the entries removed so far. */
  lemma RemoveNext(t: Tree, s: string, ns: set<string>, n: string)
    requires FileTree.WellFormed(t) && s != "" && n in Children(t, Components(s)) && ns <= Children(t, Components(s)) && n !in ns
    requires FileTree.WellFormed(t - RemovedEntries(t, s, ns))
    ensures var u := t - RemovedEntries(t, s, ns);
            t - RemovedEntries(t, s, ns + {n}) ==
            if !Visible(n) then u
            else if IsDir(t, Components(s) + [n]) then u - Removed(u, Sub(s, n)) else RemoveOne(u, s + n)
  {
    RemovedEntriesNext(t, s, ns, n);
    if Visible(n) {
      MinusTwice(t, RemovedEntries(t, s, ns), RemovedVia(t, s, n));
      RemoveEntry(t, s, ns, n);
      RemoveOneIs(t - RemovedEntries(t, s, ns), s + n);
    }
  }

  /** One round of the loop of removeRec. */
  method RemoveDirent(fs: FileSystem, s: string, e: Dirent, ghost t: Tree, ghost done: set<string>)
    requires FileTree.WellFormed(t) && FileTree.WellFormed(fs.tree) && s != ""
    requires e.name in Children(t, Components(s)) && (e.isDir <==> IsDir(t, Components(s) + [e.name]))
    requires done <= Children(t, Components(s)) && e.name !in done
    requires fs.tree == t - RemovedEntries(t, s, done)
    modifies fs
    ensures fs.tree == t - RemovedEntries(t, s, done + {e.name}) && FileTree.WellFormed(fs.tree)
    decreases if EndsInSlash(s) then 0 else 1, Subtree(t, Components(s)), 0
  {
    RemoveNext(t, s, done, e.name);
    if Visible(e.name) {
      if e.isDir {
        RemoveRecursion(t, fs.tree, s, e.name);
        RemoveRec(fs, Sub(s, e.name));
      } else {
        RemoveOneIs(fs.tree, s + e.name);
        fs.Remove(s + e.name);
      }
    }
  }

  /** The loop of removeRec over what readdir returns. */
  method RemoveDirents(fs: FileSystem, s: string, es: seq<Dirent>)
    requires FileTree.WellFormed(fs.tree) && s != "" && Snapshot(fs.tree, Components(s), es)
    modifies fs
    ensures fs.tree == old(fs.tree) - RemovedEntries(old(fs.tree), s, Children(old(fs.tree), Components(s)))
    ensures FileTree.WellFormed(fs.tree)
    decreases if EndsInSlash(s) then 0 else 1, Subtree(fs.tree, Components(s)), 1
  {
    ghost var t := fs.tree;
    ghost var done: set<string> := {};
    var i := 0;
    while i < |es|
      invariant i <= |es| && done == NamesOf(es[..i]) && FileTree.WellFormed(fs.tree)
      invariant fs.tree == t - RemovedEntries(t, s, done)
    {
      NamesOfNext(es, i);
      assert es[i] in es && es[i].name in NamesOf(es);
      NotYetNamed(t, Components(s), es, i);
      RemoveDirent(fs, s, es[i], t, done);
      done := done + {es[i].name};
      i := i + 1;
    }
    NamesOfAll(t, Components(s), es);
  }

  /** removeRec. */
  method RemoveRec(fs: FileSystem, s: string)
    requires FileTree.WellFormed(fs.tree)
    modifies fs
    ensures fs.tree == old(fs.tree) - Removed(old(fs.tree), s)
    ensures FileTree.WellFormed(fs.tree)
    decreases if EndsInSlash(s) then 0 else 1, Subtree(fs.tree, Components(s)), 2
  {
    var ok, es := fs.ReadDir(s);
    if ok {
      RemoveDirents(fs, s, es);
    }
    RemoveOneIs(fs.tree, s);
    fs.Remove(s);
  }

  lemma NotYetNamed(t: Tree, p: Path, es: seq<Dirent>, i: nat)
    requires Snapshot(t, p, es) && i < |es|
    ensures es[i].name !in NamesOf(es[..i]) && NamesOf(es[..i]) <= Children(t, p)
  {
    forall e | e in es[..i] ensures e.name != es[i].name && e.name in Children(t, p) {
      var k :| 0 <= k < i && es[..i][k] == e;
      assert es[k] == e && e in es && e.name in NamesOf(es);
    }
  }

  lemma RemoveRecursion(t: Tree, u: Tree, s: string, n: string)
    requires FileTree.WellFormed(t) && s != "" && n in Children(t, Components(s)) && u.Keys <= t.Keys
    ensures EndsInSlash(Sub(s, n))
    ensures EndsInSlash(s) ==> Subtree(u, Components(Sub(s, n))) < Subtree(t, Components(s))
  {
    ChildIsName(t, Components(s), n);
    EntryPath(s, n);
    if EndsInSlash(s) { SubtreeShrinks(t, u, Components(s), n); }
  }
}
