/**
 Ordered sets of names (std::set<std::string>). Their increasing enumeration is
 what ties file number i to the same file in every vector on both sides.
 */
module Names {
  /** Lexicographic order on strings. */
  predicate Less(a: string, b: string) {
    b != "" && (a == "" || a[0] < b[0] || (a[0] == b[0] && Less(a[1..], b[1..])))
  }

  lemma {:induction false} LessTotal(a: string, b: string)
    ensures (Less(a, b) || a == b || Less(b, a)) && !(Less(a, b) && Less(b, a)) && !Less(a, a)
  {
    if a != "" {
      LessTotal(a[1..], a[1..]);
      if b != "" && a[0] == b[0] {
        LessTotal(a[1..], b[1..]);
        if a[1..] == b[1..] {
          assert a == [a[0]] + a[1..] && b == [b[0]] + b[1..];
        }
      }
    }
  }

  /** `a` comes first: the two agree up to some point where `a` ends, or has the smaller character. */
  ghost predicate Precedes(a: string, b: string) {
    exists k: nat :: DifferAt(a, b, k) && (if k == |a| then k < |b| else k < |b| && a[k] < b[k])
  }

  /** The first `k` characters agree, and the strings do not both go on alike. */
  predicate DifferAt(a: string, b: string, k: nat) {
    k <= |a| && k <= |b| && a[..k] == b[..k]
  }

  /** The order is the lexicographic one, ascending. */
  lemma {:induction false} LessExactly(a: string, b: string)
    ensures Less(a, b) <==> Precedes(a, b)
  {
    if a == "" || b == "" || a[0] != b[0] {
      assert DifferAt(a, b, 0);
      forall k: nat | 0 < k <= |a| && k <= |b| ensures !DifferAt(a, b, k) {
        assert a[..k][0] != b[..k][0];
      }
    } else {
      LessExactly(a[1..], b[1..]);
      if k: nat :| DifferAt(a[1..], b[1..], k) && (if k == |a[1..]| then k < |b[1..]| else k < |b[1..]| && a[1..][k] < b[1..][k]) {
        assert a[..k + 1] == [a[0]] + a[1..][..k] && b[..k + 1] == [b[0]] + b[1..][..k];
        assert DifferAt(a, b, k + 1);
      }
      if k: nat :| DifferAt(a, b, k) && (if k == |a| then k < |b| else k < |b| && a[k] < b[k]) {
        assert k > 0;
        assert a[1..][..k - 1] == a[..k][1..] && b[1..][..k - 1] == b[..k][1..];
        assert DifferAt(a[1..], b[1..], k - 1);
      }
    }
  }

  lemma {:induction false} LessTransitive(a: string, b: string, c: string)
    requires Less(a, b) && Less(b, c)
    ensures Less(a, c)
  {
    if a != "" && a[0] == b[0] == c[0] {
      LessTransitive(a[1..], b[1..], c[1..]);
    }
  }

  /** Strictly increasing: the enumeration order of std::set. */
  predicate Increasing(s: seq<string>) {
    forall i, k :: 0 <= i < k < |s| ==> Less(s[i], s[k])
  }

  function Elements(s: seq<string>): set<string> {
    set x <- s
  }

  lemma IncreasingDistinct(s: seq<string>)
    requires Increasing(s)
    ensures forall i, k :: 0 <= i < k < |s| ==> s[i] != s[k]
  {
    forall i, k | 0 <= i < k < |s| ensures s[i] != s[k] {
      LessTotal(s[i], s[k]);
    }
  }

  function Insert(s: seq<string>, x: string): seq<string> {
    if s == [] then [x]
    else if x == s[0] then s
    else if Less(x, s[0]) then [x] + s
    else [s[0]] + Insert(s[1..], x)
  }

  lemma {:induction false} InsertElements(s: seq<string>, x: string)
    ensures forall y :: y in Insert(s, x) <==> y == x || y in s
  {
    if s != [] && x != s[0] && !Less(x, s[0]) {
      InsertElements(s[1..], x);
      assert s == [s[0]] + s[1..];
    }
  }

  /** Insertion keeps the order and adds the one element. */
  lemma {:induction false} InsertKeepsOrder(s: seq<string>, x: string)
    requires Increasing(s)
    ensures Increasing(Insert(s, x)) && Elements(Insert(s, x)) == Elements(s) + {x}
  {
    InsertElements(s, x);
    if s != [] && x != s[0] {
      LessTotal(x, s[0]);
      if Less(x, s[0]) {
        forall k | 0 <= k < |s| ensures Less(x, s[k]) {
          if k > 0 { LessTransitive(x, s[0], s[k]); }
        }
      } else {
        InsertKeepsOrder(s[1..], x);
        InsertElements(s[1..], x);
        var t := Insert(s[1..], x);
        forall k | 0 <= k < |t| ensures Less(s[0], t[k]) {
          assert t[k] in t;
          if t[k] != x {
            var i :| 0 <= i < |s[1..]| && s[1..][i] == t[k];
            assert s[i + 1] == t[k];
          }
        }
      }
    }
  }

  function Remove(s: seq<string>, x: string): seq<string> {
    if s == [] then [] else if s[0] == x then s[1..] else [s[0]] + Remove(s[1..], x)
  }

  lemma {:induction false} RemoveKeepsOrder(s: seq<string>, x: string)
    requires Increasing(s)
    ensures Increasing(Remove(s, x)) && Elements(Remove(s, x)) == Elements(s) - {x}
  {
    if s != [] {
      IncreasingDistinct(s);
      assert s == [s[0]] + s[1..];
      if s[0] != x {
        RemoveKeepsOrder(s[1..], x);
        var t := Remove(s[1..], x);
        forall k | 0 <= k < |t| ensures Less(s[0], t[k]) {
          assert t[k] in Elements(t);
          var i :| 0 <= i < |s[1..]| && s[1..][i] == t[k];
          assert s[i + 1] == t[k];
        }
        ElementsCons(s[0], s[1..]);
        ElementsCons(s[0], t);
      }
    }
  }

  lemma ElementsCons(x: string, s: seq<string>)
    ensures Elements([x] + s) == {x} + Elements(s)
  {
  }

  /** An increasing enumeration is determined by its set of elements. */
  lemma {:induction false} EnumerationUnique(s: seq<string>, t: seq<string>)
    requires Increasing(s) && Increasing(t) && Elements(s) == Elements(t)
    ensures s == t
  {
    assert s != [] ==> s[0] in Elements(s);
    assert t != [] ==> t[0] in Elements(t);
    if s != [] {
      SameHead(s, t);
      IncreasingDistinct(s);
      IncreasingDistinct(t);
      forall y ensures y in Elements(s[1..]) <==> y in Elements(s) && y != s[0] {
        assert s == [s[0]] + s[1..];
      }
      forall y ensures y in Elements(t[1..]) <==> y in Elements(t) && y != t[0] {
        assert t == [t[0]] + t[1..];
      }
      EnumerationUnique(s[1..], t[1..]);
      assert s == [s[0]] + s[1..] && t == [t[0]] + t[1..];
    }
  }

  lemma SameHead(s: seq<string>, t: seq<string>)
    requires Increasing(s) && Increasing(t) && Elements(s) == Elements(t) && s != [] && t != []
    ensures s[0] == t[0]
  {
    assert s[0] in Elements(t) && t[0] in Elements(s);
    var i :| 0 <= i < |t| && t[i] == s[0];
    var k :| 0 <= k < |s| && s[k] == t[0];
    if i > 0 && k > 0 {
      LessTotal(s[0], t[0]);
    }
  }

  function InsertAll(s: seq<string>, xs: seq<string>): seq<string>
    decreases |xs|
  {
    if xs == [] then s else InsertAll(Insert(s, xs[0]), xs[1..])
  }

  lemma {:induction false} InsertAllElements(s: seq<string>, xs: seq<string>)
    requires Increasing(s)
    ensures Increasing(InsertAll(s, xs)) && Elements(InsertAll(s, xs)) == Elements(s) + Elements(xs)
    decreases |xs|
  {
    if xs != [] {
      InsertKeepsOrder(s, xs[0]);
      InsertAllElements(Insert(s, xs[0]), xs[1..]);
      assert xs == [xs[0]] + xs[1..];
    }
  }

  /**
   Positional alignment. A set rebuilt from its elements in whatever order they
   arrive enumerates them exactly as the sender did, so index i names the same file.
   */
  lemma RebuiltSetAligns(s: seq<string>, arrival: seq<string>)
    requires Increasing(s) && Elements(arrival) == Elements(s)
    ensures InsertAll([], arrival) == s
  {
    InsertAllElements([], arrival);
    EnumerationUnique(InsertAll([], arrival), s);
  }
}
