/** mkdirs of src/fs-util.hpp: the scan that cuts the path at every slash in place. */
module Mkdirs {
  import opened Paths
  import opened FileTree

  const NUL: char := '\0'

  /** The C string in a buffer. */
  function CString(a: seq<char>): string {
    if a == [] || a[0] == NUL then "" else [a[0]] + CString(a[1..])
  }

  lemma {:induction false} CStringIs(a: seq<char>, n: nat)
    requires n < |a| && a[n] == NUL && forall i :: 0 <= i < n ==> a[i] != NUL
    ensures CString(a) == a[..n]
  {
    if n > 0 {
      CStringIs(a[1..], n - 1);
      assert a[..n] == [a[0]] + a[1..][..n - 1];
    }
  }

  /** The first `k` prefixes of `p` made directories, each only where its parent is one. */
  function MakeUpTo(t: Tree, p: Path, k: nat): Tree
    requires k <= |p|
  {
    if k == 0 then t
    else
      var u := MakeUpTo(t, p, k - 1);
      if p[..k] in u || !IsDir(u, p[..k - 1]) then u else u[p[..k] := Directory]
  }

  /** What mkdirs does to the tree. */
  function MakeAll(t: Tree, p: Path): Tree {
    MakeUpTo(t, p, |p|)
  }

  /** mkdir of a prefix already dealt with changes nothing; of the next one, it is the next step. */
  lemma MkdirPrefix(t: Tree, p: Path, k: nat, s: string)
    requires FileTree.WellFormed(t) && k <= |p|
    requires Components(s) == p[..k] || (k < |p| && Components(s) == p[..k + 1])
    ensures Mkdir(MakeUpTo(t, p, k), s) == MakeUpTo(t, p, |Components(s)|)
  {
    var q := Components(s);
    if |q| == k + 1 {
      assert Up(q) == p[..k];
    } else if k > 0 {
      assert Up(q) == p[..k - 1];
    }
  }

  lemma {:induction false} MakeUpToGrows(t: Tree, p: Path, k: nat)
    requires k <= |p|
    ensures var u := MakeUpTo(t, p, k);
            && (forall q <- t :: q in u && u[q] == t[q])
            && (forall q <- u :: q in t || (u[q] == Directory && exists i :: 0 < i <= k && q == p[..i]))
  {
    if k > 0 {
      MakeUpToGrows(t, p, k - 1);
    }
  }

  lemma {:induction false} MakeUpToWellFormed(t: Tree, p: Path, k: nat)
    requires FileTree.WellFormed(t) && k <= |p| && forall n <- p :: IsName(n)
    ensures FileTree.WellFormed(MakeUpTo(t, p, k))
  {
    if k > 0 {
      MakeUpToWellFormed(t, p, k - 1);
      assert Up(p[..k]) == p[..k - 1];
      assert forall n <- p[..k] :: n in p;
    }
  }

  /** No regular file among the first `k` prefixes of `p`, or at the root. */
  predicate Clear(t: Tree, p: Path, k: nat)
    requires k <= |p|
  {
    !IsFile(t, p[..k]) && (k > 0 ==> Clear(t, p, k - 1))
  }

  lemma {:induction false} ClearMeans(t: Tree, p: Path, k: nat)
    requires k <= |p|
    ensures Clear(t, p, k) <==> forall i :: 0 <= i <= k ==> !IsFile(t, p[..i])
  {
    if k > 0 { ClearMeans(t, p, k - 1); }
  }

  lemma {:induction false} MakeUpToReaches(t: Tree, p: Path, k: nat)
    requires FileTree.WellFormed(t) && k <= |p| && forall n <- p :: IsName(n)
    ensures IsDir(MakeUpTo(t, p, k), p[..k]) <==> Clear(t, p, k)
  {
    if k > 0 {
      var v, q := MakeUpTo(t, p, k - 1), p[..k];
      MakeUpToReaches(t, p, k - 1);
      MakeUpToGrows(t, p, k - 1);
      MakeUpToWellFormed(t, p, k - 1);
      assert Up(q) == p[..k - 1];
      assert q in v ==> IsDir(v, Up(q));
    }
  }

  /**
   Nothing is lost or changed, nothing but prefixes of the path is added, the
   tree stays well formed, and the path ends up a directory exactly when no
   prefix of it was a regular file.
   */
  lemma MkdirsReaches(t: Tree, p: Path)
    requires FileTree.WellFormed(t) && forall n <- p :: IsName(n)
    ensures var u := MakeAll(t, p);
            && FileTree.WellFormed(u)
            && (forall q <- t :: q in u && u[q] == t[q])
            && (forall q <- u :: q in t || (u[q] == Directory && exists i :: 0 < i <= |p| && q == p[..i]))
            && (IsDir(u, p) <==> forall i :: 0 <= i <= |p| ==> !IsFile(t, p[..i]))
  {
    MakeUpToGrows(t, p, |p|);
    MakeUpToWellFormed(t, p, |p|);
    MakeUpToReaches(t, p, |p|);
    ClearMeans(t, p, |p|);
    assert p[..|p|] == p;
  }

  /** Components of a prefix that ends where a slash-free run `s[b..p]` ends. */
  lemma PrefixComponents(s: string, b: nat, p: nat)
    requires b <= p <= |s| && (b == 0 || s[b - 1] == '/') && forall i :: b <= i < p ==> s[i] != '/'
    ensures Components(s[..p]) == Components(s[..b]) + if b == p then [] else [s[b..p]]
  {
    if b < p {
      assert s[..p] == s[..b] + s[b..p];
      ComponentsOfName(s[b..p]);
      if b == 0 {
        assert s[..0] == "" && s[0..p] == s[..p];
      } else {
        ComponentsAfterSlash(s[..b], s[b..p]);
      }
    }
  }

  lemma CutAtSlash(s: string, p: nat)
    requires p < |s| && s[p] == '/'
    ensures Components(s) == Components(s[..p]) + Components(s[p + 1..])
    ensures Components(s[..p + 1]) == Components(s[..p])
  {
    assert s == s[..p] + "/" + s[p + 1..];
    ComponentsOfJoin(s[..p], s[p + 1..]);
    assert s[..p + 1] == s[..p] + "/" + "";
    ComponentsOfJoin(s[..p], "");
  }

  /** The path without its last character if that is a slash. */
  function Trimmed(dir: string): string {
    if EndsInSlash(dir) then dir[..|dir| - 1] else dir
  }

  lemma TrimmedComponents(dir: string)
    ensures Components(Trimmed(dir)) == Components(dir)
  {
    if EndsInSlash(dir) {
      CutAtSlash(dir, |dir| - 1);
      assert dir[|dir| - 1 + 1..] == "";
    }
  }

  /**
   The scan of `s` stands at `p`: the slash-free run it is in starts at `b`,
   and the directories of everything before that run have been made.
   */
  ghost predicate Scanned(t: Tree, s: string, u: Tree, b: nat, p: nat) {
    && b <= p <= |s| && (b == 0 || s[b - 1] == '/') && (forall i :: b <= i < p ==> s[i] != '/')
    && Components(s[..b]) <= Components(s)
    && u == MakeUpTo(t, Components(s), |Components(s[..b])|)
  }

  lemma ScanStarts(t: Tree, s: string)
    requires s != ""
    ensures Scanned(t, s, t, if s[0] == '/' then 1 else 0, 1)
  {
    if s[0] == '/' { CutAtSlash(s, 0); }
    assert s[..0] == "";
  }

  lemma ScanPassesSlash(t: Tree, s: string, u: Tree, b: nat, p: nat)
    requires FileTree.WellFormed(t) && Scanned(t, s, u, b, p) && p < |s| && s[p] == '/'
    ensures Scanned(t, s, Mkdir(u, s[..p]), p + 1, p + 1)
  {
    PrefixComponents(s, b, p);
    CutAtSlash(s, p);
    MkdirPrefix(t, Components(s), |Components(s[..b])|, s[..p]);
  }

  lemma ScanEnds(t: Tree, s: string, u: Tree, b: nat)
    requires FileTree.WellFormed(t) && Scanned(t, s, u, b, |s|)
    ensures Mkdir(u, s) == MakeAll(t, Components(s))
  {
    assert s[..|s|] == s;
    PrefixComponents(s, b, |s|);
    MkdirPrefix(t, Components(s), |Components(s[..b])|, s);
  }

  /** A buffer that holds the C string `s`. */
  predicate Holds(buffer: seq<char>, s: string) {
    |s| < |buffer| && buffer[..|s|] == s && buffer[|s|] == NUL && NUL !in s
  }

  lemma HoldsCut(buffer: seq<char>, s: string, p: nat)
    requires Holds(buffer, s) && p <= |s|
    ensures CString(buffer[p := NUL]) == s[..p]
    ensures buffer[p := NUL][p := buffer[p]] == buffer
    ensures p < |s| ==> buffer[p] == s[p] && buffer[p] != NUL
  {
    var cut := buffer[p := NUL];
    forall i | 0 <= i < p ensures cut[i] == s[i] && cut[i] != NUL {
      assert buffer[..|s|][i] == s[i];
    }
    CStringIs(cut, p);
    assert cut[..p] == s[..p];
    assert p < |s| ==> buffer[..|s|][p] == s[p];
  }

  /** *p = 0; mkdir(tmp); *p = '/'. */
  method MakePrefix(fs: FileSystem, tmp: array<char>, p: nat, ghost s: string)
    requires Holds(tmp[..], s) && p < |s| && s[p] == '/'
    modifies fs, tmp
    ensures tmp[..] == old(tmp[..]) && fs.tree == Mkdir(old(fs.tree), s[..p])
  {
    HoldsCut(tmp[..], s, p);
    tmp[p] := NUL;
    assert tmp[..] == old(tmp[..])[p := NUL];
    fs.MakeDir(CString(tmp[..]));
    tmp[p] := '/';
    assert tmp[..] == old(tmp[..])[p := NUL][p := '/'];
  }

  /** How far the loop over `s` has come; it starts at 1, even for an empty string. */
  ghost predicate Swept(t: Tree, s: string, u: Tree, p: nat) {
    if s == "" then u == t && p == 1 else exists b :: Scanned(t, s, u, b, p)
  }

  lemma SweepStarts(t: Tree, s: string)
    ensures Swept(t, s, t, 1)
  {
    if s != "" { ScanStarts(t, s); }
  }

  lemma SweepStep(t: Tree, s: string, u: Tree, p: nat)
    requires FileTree.WellFormed(t) && Swept(t, s, u, p) && p < |s|
    ensures Swept(t, s, if s[p] == '/' then Mkdir(u, s[..p]) else u, p + 1)
  {
    var b :| Scanned(t, s, u, b, p);
    if s[p] == '/' {
      ScanPassesSlash(t, s, u, b, p);
    } else {
      assert Scanned(t, s, u, b, p + 1);
    }
  }

  /** In the buffer, the loop's test sees the end of `s` and nothing before it. */
  lemma SweepReads(buffer: seq<char>, t: Tree, s: string, u: Tree, p: nat)
    requires Holds(buffer, s) && Swept(t, s, u, p) && p < |buffer| && (s == "" ==> buffer[1] == NUL)
    ensures buffer[p] != NUL <==> p < |s|
    ensures p < |s| ==> buffer[p] == s[p]
    ensures s != "" ==> p <= |s|
  {
    if s != "" {
      var b :| Scanned(t, s, u, b, p);
      if p < |s| { HoldsCut(buffer, s, p); }
    }
  }

  /** The loop over the buffer that holds `s`. */
  method MakePrefixes(fs: FileSystem, tmp: array<char>, ghost s: string)
    requires Holds(tmp[..], s) && FileTree.WellFormed(fs.tree) && 1 < tmp.Length
    requires s == "" ==> tmp[1] == NUL
    modifies fs, tmp
    ensures tmp[..] == old(tmp[..])
    ensures s == "" ==> fs.tree == old(fs.tree)
    ensures s != "" ==> exists b :: Scanned(old(fs.tree), s, fs.tree, b, |s|)
  {
    ghost var t := fs.tree;
    SweepStarts(t, s);
    var p := 1;
    SweepReads(tmp[..], t, s, t, p);
    while tmp[p] != NUL
      invariant 1 <= p < tmp.Length && tmp[..] == old(tmp[..]) && Swept(t, s, fs.tree, p)
      invariant (tmp[p] != NUL <==> p < |s|) && (s != "" ==> p <= |s|)
      decreases tmp.Length - p
    {
      SweepReads(tmp[..], t, s, fs.tree, p);
      SweepStep(t, s, fs.tree, p);
      if tmp[p] == '/' {
        MakePrefix(fs, tmp, p, s);
      }
      p := p + 1;
      SweepReads(tmp[..], t, s, fs.tree, p);
    }
  }

  /** mkdirs; `dir` must not be empty, since its last character is looked at. */
  method MakeDirs(fs: FileSystem, dir: string)
    requires dir != "" && NUL !in dir && FileTree.WellFormed(fs.tree)
    modifies fs
    ensures fs.tree == MakeAll(old(fs.tree), Components(dir))
  {
    var len := |dir|;
    var tmp := new char[len + 1](i requires 0 <= i <= len => if i < len then dir[i] else NUL);
    if tmp[len - 1] == '/' {
      tmp[len - 1] := NUL;
    }
    ghost var t, s := fs.tree, Trimmed(dir);
    TrimmedComponents(dir);
    assert tmp[..][..|s|] == s;
    MakePrefixes(fs, tmp, s);
    HoldsCut(tmp[..], s, |s|);
    assert tmp[..][|s| := NUL] == tmp[..] && s[..|s|] == s;
    if s != "" {
      ghost var b :| Scanned(t, s, fs.tree, b, |s|);
      ScanEnds(t, s, fs.tree, b);
    }
    fs.MakeDir(CString(tmp[..]));
  }
}
