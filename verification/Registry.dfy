/**
 The migration-class registry of a provider. Every successful registration has
 an identity of its own, which stands for the user arguments handed to its
 free function.
 */
module Registry {
  import opened Codes

  datatype ClassKey = ClassKey(name: string, providerId: nat)

  /** What a callback gets to see of a fileset. */
  datatype FilesetInfo = FilesetInfo(key: ClassKey, root: string, files: seq<string>)

  type Callback = FilesetInfo -> int

  datatype MigrationClass = MigrationClass(before: Option<Callback>, after: Option<Callback>, frees: bool, id: nat)

  /** `freed`: calls of free functions so far; `owed`: registrations that came with one; `next`: registrations so far. */
  datatype Classes = Classes(table: map<ClassKey, MigrationClass>, freed: multiset<nat>, owed: set<nat>, next: nat)

  datatype RegistryEvent =
    | Register(key: ClassKey, before: Option<Callback>, after: Option<Callback>, frees: bool)
    | Deregister(key: ClassKey)
    | EndOf(key: ClassKey)  // migrate_end looking its class up

  function Step(c: Classes, e: RegistryEvent): Classes {
    match e
    case Register(k, b, a, f) =>
      if k in c.table then c
      else Classes(c.table[k := MigrationClass(b, a, f, c.next)], c.freed, c.owed + (if f then {c.next} else {}), c.next + 1)
    case Deregister(k) =>
      if k !in c.table then c
      else c.(table := c.table - {k}, freed := c.freed + if c.table[k].frees then multiset{c.table[k].id} else multiset{})
    case EndOf(k) => if k in c.table then c else c.(table := c.table[k := MigrationClass(None, None, false, 0)])
  }

  function Steps(c: Classes, es: seq<RegistryEvent>): Classes
    decreases |es|
  {
    if es == [] then c else Steps(Step(c, es[0]), es[1..])
  }

  /** Registrations whose free function is still to be called. */
  function Live(c: Classes): set<nat> {
    set k | k in c.table && c.table[k].frees :: c.table[k].id
  }

  /** Each owed call is either done, once, or still due from exactly one entry. */
  ghost predicate Accounted(c: Classes) {
    && (forall k <- c.table :: c.table[k].frees ==> c.table[k].id in c.owed)
    && (forall k, l :: k in c.table && l in c.table && c.table[k].frees && c.table[l].frees && c.table[k].id == c.table[l].id ==> k == l)
    && (forall i <- c.owed :: i < c.next && c.freed[i] == if i in Live(c) then 0 else 1)
    && (forall i :: i !in c.owed ==> c.freed[i] == 0)
  }

  lemma StepKeepsAccounts(c: Classes, e: RegistryEvent)
    requires Accounted(c)
    ensures Accounted(Step(c, e))
  {
    var d := Step(c, e);
    match e
    case Register(k, _, _, f) =>
      if k !in c.table {
        assert Live(d) == Live(c) + if f then {c.next} else {} by {
          assert d.table[k].id == c.next;
          forall i | i in Live(c) ensures i in Live(d) {
            var l :| l in c.table && c.table[l].frees && c.table[l].id == i;
            assert d.table[l] == c.table[l];
          }
        }
        assert c.next !in c.owed;
      }
    case Deregister(k) =>
      if k in c.table {
        LiveWithout(c, k);
      }
    case EndOf(k) =>
      if k !in c.table {
        forall i | i in Live(c) ensures i in Live(d) {
          var l :| l in c.table && c.table[l].frees && c.table[l].id == i;
          assert d.table[l] == c.table[l];
        }
      }
  }

  lemma LiveWithout(c: Classes, k: ClassKey)
    requires Accounted(c) && k in c.table
    ensures Live(c.(table := c.table - {k})) == Live(c) - if c.table[k].frees then {c.table[k].id} else {}
  {
    var d := c.(table := c.table - {k});
    forall i | i in Live(c) && !(c.table[k].frees && i == c.table[k].id) ensures i in Live(d) {
      var l :| l in c.table && c.table[l].frees && c.table[l].id == i;
      assert d.table[l] == c.table[l];
    }
  }

  lemma {:induction false} StepsKeepAccounts(c: Classes, es: seq<RegistryEvent>)
    requires Accounted(c)
    ensures Accounted(Steps(c, es))
    decreases |es|
  {
    if es != [] {
      StepKeepsAccounts(c, es[0]);
      StepsKeepAccounts(Step(c, es[0]), es[1..]);
    }
  }

  /** remi_on_finalize: the free function of every entry left. */
  function Finalized(c: Classes): multiset<nat> {
    c.freed + multiset(Live(c))
  }

  /**
   Over any history of registrations, deregistrations and migrate_end lookups,
   followed by one finalize, the free function of every successful
   registration that has one is called exactly once, and no other.
   */
  lemma FreedExactlyOnce(es: seq<RegistryEvent>, i: nat)
    ensures var c := Steps(Classes(map[], multiset{}, {}, 0), es);
            Finalized(c)[i] == if i in c.owed then 1 else 0
  {
    StepsKeepAccounts(Classes(map[], multiset{}, {}, 0), es);
    var c := Steps(Classes(map[], multiset{}, {}, 0), es);
    if i in Live(c) { assert i in c.owed; }
  }

  /** The first event of a history that creates an entry for `k`, in the absence of one. */
  function FirstEntry(es: seq<RegistryEvent>, k: ClassKey): Option<RegistryEvent>
    decreases |es|
  {
    if es == [] then None
    else if es[0] == EndOf(k) || (es[0].Register? && es[0].key == k) then Some(es[0])
    else FirstEntry(es[1..], k)
  }

  lemma {:induction false} StepsAppend(c: Classes, a: seq<RegistryEvent>, b: seq<RegistryEvent>)
    ensures Steps(c, a + b) == Steps(Steps(c, a), b)
    decreases |a|
  {
    if a == [] {
      assert a + b == b;
    } else {
      assert (a + b)[0] == a[0] && (a + b)[1..] == a[1..] + b;
      StepsAppend(Step(c, a[0]), a[1..], b);
    }
  }

  lemma {:induction false} EntryKept(c: Classes, es: seq<RegistryEvent>, k: ClassKey)
    requires k in c.table && Deregister(k) !in es
    ensures k in Steps(c, es).table && Steps(c, es).table[k] == c.table[k]
    decreases |es|
  {
    if es != [] {
      assert es[0] in es;
      EntryKept(Step(c, es[0]), es[1..], k);
    }
  }

  lemma {:induction false} EntryFrom(c: Classes, es: seq<RegistryEvent>, k: ClassKey)
    requires k !in c.table && Deregister(k) !in es
    ensures var t := Steps(c, es).table;
            match FirstEntry(es, k)
            case None => k !in t
            case Some(EndOf(_)) => k in t && t[k].before.None? && t[k].after.None? && !t[k].frees
            case Some(Register(_, b, a, f)) => k in t && t[k].before == b && t[k].after == a && t[k].frees == f
            case Some(Deregister(_)) => false
    decreases |es|
  {
    if es != [] {
      assert es[0] in es;
      var d := Step(c, es[0]);
      if k in d.table { EntryKept(d, es[1..], k); } else { EntryFrom(d, es[1..], k); }
    }
  }

  /**
   Over any history: after its last deregistration a class has an entry again
   if and only if it was registered anew or a migrate_end looked it up. When the
   migrate_end came first the entry is the empty one, and registering the class
   changes nothing: it is refused as existing.
   */
  lemma RecreatedEntryExactly(c: Classes, es: seq<RegistryEvent>, fs: seq<RegistryEvent>, k: ClassKey)
    requires Deregister(k) !in fs
    ensures var d := Steps(c, es + [Deregister(k)] + fs);
            && (k in d.table <==> FirstEntry(fs, k).Some?)
            && (FirstEntry(fs, k) == Some(EndOf(k)) ==>
                  d.table[k].before.None? && d.table[k].after.None? && !d.table[k].frees && forall b, a, f :: Step(d, Register(k, b, a, f)) == d)
  {
    StepsAppend(c, es + [Deregister(k)], fs);
    StepsAppend(c, es, [Deregister(k)]);
    var e := Steps(c, es);
    assert Steps(e, [Deregister(k)]) == Steps(Step(e, Deregister(k)), []);
    EntryFrom(Step(e, Deregister(k)), fs, k);
  }
}
