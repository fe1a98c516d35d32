/** Absolute path strings as the kernel reads them: components between slashes, empty ones dropped. */
module Paths {
  /** Length of the slash-free prefix. */
  function Span(s: string): (n: nat)
    ensures n <= |s| && (forall i :: 0 <= i < n ==> s[i] != '/') && (n < |s| ==> s[n] == '/')
  {
    if s == "" || s[0] == '/' then 0 else 1 + Span(s[1..])
  }

  lemma {:induction false} SpanIs(s: string, n: nat)
    requires n <= |s| && (forall i :: 0 <= i < n ==> s[i] != '/') && (n < |s| ==> s[n] == '/')
    ensures Span(s) == n
  {
    if n > 0 { SpanIs(s[1..], n - 1); }
  }

  function Components(s: string): seq<string>
    decreases |s|
  {
    if s == "" then []
    else if s[0] == '/' then Components(s[1..])
    else
      var n := Span(s);
      SpanPositive(s);
      [s[..n]] + Components(s[n..])
  }

  lemma SpanPositive(s: string)
    requires s != "" && s[0] != '/'
    ensures Span(s) > 0
  {
  }

  predicate EndsInSlash(s: string) {
    s != "" && s[|s| - 1] == '/'
  }

  /** A directory entry's name. */
  predicate IsName(n: string) {
    n != "" && forall i :: 0 <= i < |n| ==> n[i] != '/'
  }

  lemma {:induction false} ComponentsAreNames(s: string)
    ensures forall n <- Components(s) :: IsName(n)
    decreases |s|
  {
    if s != "" {
      if s[0] == '/' {
        ComponentsAreNames(s[1..]);
      } else {
        SpanPositive(s);
        ComponentsAreNames(s[Span(s)..]);
      }
    }
  }

  lemma FirstComponent(s: string, n: nat)
    requires 0 < n <= |s| && (forall i :: 0 <= i < n ==> s[i] != '/') && (n < |s| ==> s[n] == '/')
    ensures Components(s) == [s[..n]] + Components(s[n..])
  {
    SpanIs(s, n);
  }

  /** A slash between two strings separates their components. */
  lemma {:induction false} ComponentsOfJoin(a: string, b: string)
    ensures Components(a + "/" + b) == Components(a) + Components(b)
    decreases |a|
  {
    var s := a + "/" + b;
    if a == "" {
      assert s[1..] == b;
    } else if a[0] == '/' {
      assert s[1..] == a[1..] + "/" + b;
      ComponentsOfJoin(a[1..], b);
    } else {
      var n := Span(a);
      SpanPositive(a);
      FirstComponent(s, n);
      assert s[..n] == a[..n] && s[n..] == a[n..] + "/" + b;
      ComponentsOfJoin(a[n..], b);
    }
  }

  lemma ComponentsAfterSlash(a: string, b: string)
    requires EndsInSlash(a)
    ensures Components(a + b) == Components(a) + Components(b)
  {
    var a' := a[..|a| - 1];
    assert a == a' + "/" && a == a' + "/" + "" && a + b == a' + "/" + b;
    ComponentsOfJoin(a', b);
    ComponentsOfJoin(a', "");
  }

  lemma ComponentsOfName(n: string)
    requires IsName(n)
    ensures Components(n) == [n]
  {
    SpanIs(n, |n|);
    assert n[..|n|] == n && n[|n|..] == "";
  }

  /** Appending to a string that does not end in a slash lengthens its last component. */
  lemma {:induction false} ComponentsOfGlue(a: string, n: string)
    requires a != "" && !EndsInSlash(a) && IsName(n)
    ensures Components(a) != []
    ensures var c := Components(a); Components(a + n) == c[..|c| - 1] + [c[|c| - 1] + n]
    decreases |a|
  {
    var s := a + n;
    if a[0] == '/' {
      assert s[1..] == a[1..] + n;
      ComponentsOfGlue(a[1..], n);
    } else {
      var k := Span(a);
      SpanPositive(a);
      if k == |a| {
        assert IsName(a) && IsName(s);
        ComponentsOfName(a);
        ComponentsOfName(s);
      } else {
        FirstComponent(s, k);
        assert s[..k] == a[..k] && s[k..] == a[k..] + n;
        ComponentsOfGlue(a[k..], n);
      }
    }
  }
}
