/**
 A file system of regular files and directories, and the calls the two sides
 make on it. Links, special files, `..` and permissions are not modelled.
 */
module FileTree {
  import opened Codes
  import opened Transfer
  import opened Paths

  type Path = seq<string>
  datatype Entry = Regular(data: Bytes, mode: nat) | Directory
  type Tree = map<Path, Entry>

  predicate IsDir(t: Tree, p: Path) {
    p in t && t[p].Directory?
  }

  predicate IsFile(t: Tree, p: Path) {
    p in t && t[p].Regular?
  }

  function Up(p: Path): Path
    requires p != []
  {
    p[..|p| - 1]
  }

  predicate WellFormed(t: Tree) {
    && IsDir(t, [])
    && (forall p {:trigger Up(p)} :: p in t && p != [] ==> IsDir(t, Up(p)))
    && (forall p <- t, n <- p :: IsName(n))
  }

  lemma {:induction false} AncestorIsDir(t: Tree, p: Path, q: Path)
    requires WellFormed(t) && q in t && p < q
    ensures IsDir(t, p)
    decreases |q|
  {
    assert Up(q) == q[..|q| - 1];
    if |q| == |p| + 1 {
      assert Up(q) == p;
    } else {
      AncestorIsDir(t, p, Up(q));
    }
  }

  function Children(t: Tree, p: Path): set<string> {
    set q | q in t && |q| == |p| + 1 && q[..|p|] == p :: q[|p|]
  }

  lemma ChildIn(t: Tree, p: Path, n: string)
    ensures n in Children(t, p) <==> p + [n] in t
  {
    var q := p + [n];
    if n in Children(t, p) {
      var r :| r in t && |r| == |p| + 1 && r[..|p|] == p && r[|p|] == n;
      assert r == q;
    }
    if q in t { assert q[..|p|] == p && q[|p|] == n; }
  }

  function Mkdir(t: Tree, s: string): Tree {
    var p := Components(s);
    if p == [] || p in t || !IsDir(t, Up(p)) then t else t[p := Directory]
  }

  /** remove(3): a file, unless the string ends in a slash, or an empty directory. */
  function RemoveOne(t: Tree, s: string): Tree {
    var p := Components(s);
    if p !in t || p == [] then t
    else if t[p].Directory? then (if Children(t, p) == {} then t - {p} else t)
    else if EndsInSlash(s) then t else t - {p}
  }

  /** open(O_RDONLY) of a regular file. */
  function OpenRead(t: Tree, s: string): (r: Option<Entry>)
    ensures r.Some? <==> IsFile(t, Components(s)) && !EndsInSlash(s)
    ensures r.Some? ==> r.value.Regular?
  {
    var p := Components(s);
    if IsFile(t, p) && !EndsInSlash(s) then Some(t[p]) else None
  }

  /** An entry as readdir returns it: name and d_type == DT_DIR. */
  datatype Dirent = Dirent(name: string, isDir: bool)

  function NamesOf(es: seq<Dirent>): set<string> {
    set e | e in es :: e.name
  }

  predicate Snapshot(t: Tree, p: Path, es: seq<Dirent>) {
    && (forall i, k :: 0 <= i < k < |es| ==> es[i].name != es[k].name)
    && (forall e <- es :: e.isDir <==> IsDir(t, p + [e.name]))
    && NamesOf(es) == Children(t, p)
  }

  class FileSystem {
    var tree: Tree

    constructor (t: Tree)
      ensures tree == t
    {
      tree := t;
    }

    method MakeDir(s: string)
      modifies this
      ensures tree == Mkdir(old(tree), s)
    {
      tree := Mkdir(tree, s);
    }

    method Remove(s: string)
      modifies this
      ensures tree == RemoveOne(old(tree), s)
    {
      tree := RemoveOne(tree, s);
    }

    /** opendir, all of readdir in any order, closedir. */
    method ReadDir(s: string) returns (ok: bool, es: seq<Dirent>)
      ensures ok <==> s != "" && IsDir(tree, Components(s))
      ensures ok ==> Snapshot(tree, Components(s), es)
      ensures !ok ==> es == []
    {
      var p := Components(s);
      ok, es := s != "" && IsDir(tree, p), [];
      if ok {
        var todo := Children(tree, p);
        while todo != {}
          invariant todo <= Children(tree, p) && NamesOf(es) == Children(tree, p) - todo
          invariant forall i, k :: 0 <= i < k < |es| ==> es[i].name != es[k].name
          invariant forall e <- es :: e.isDir <==> IsDir(tree, p + [e.name])
        {
          var n :| n in todo;
          forall i | 0 <= i < |es| ensures es[i].name != n { assert es[i].name in NamesOf(es); }
          assert NamesOf(es + [Dirent(n, IsDir(tree, p + [n]))]) == NamesOf(es) + {n};
          es := es + [Dirent(n, IsDir(tree, p + [n]))];
          todo := todo - {n};
        }
      }
    }
  }
}
