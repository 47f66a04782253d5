/** The `std::map` from member names that `artifact.cpp` iterates over: a list in strictly increasing
    name order, with `emplace`. */
module SortedEntries {
  import opened Bytes

  datatype Entry<V> = Entry(name: seq<Byte>, data: V)

  predicate StrictlySorted<V>(es: seq<Entry<V>>) {
    forall i, j :: 0 <= i < j < |es| ==> Less(es[i].name, es[j].name)
  }

  predicate Named<V>(es: seq<Entry<V>>, name: seq<Byte>) {
    exists i :: 0 <= i < |es| && es[i].name == name
  }

  /** `emplace`: an entry whose name is there already is not inserted. */
  function Emplace<V>(es: seq<Entry<V>>, e: Entry<V>): (seq<Entry<V>>, bool) {
    if es == [] then ([e], true)
    else if Less(e.name, es[0].name) then ([e] + es, true)
    else if e.name == es[0].name then (es, false)
    else
      var (rest, inserted) := Emplace(es[1..], e);
      ([es[0]] + rest, inserted)
  }

  lemma Cons<V>(e: Entry<V>, es: seq<Entry<V>>)
    requires StrictlySorted(es) && forall i :: 0 <= i < |es| ==> Less(e.name, es[i].name)
    ensures StrictlySorted([e] + es)
  {
  }

  /** All entries are after `name`. */
  predicate After<V>(name: seq<Byte>, es: seq<Entry<V>>) {
    forall i :: 0 <= i < |es| ==> Less(name, es[i].name)
  }

  lemma AfterFirst<V>(name: seq<Byte>, es: seq<Entry<V>>)
    requires StrictlySorted(es) && es != [] && Less(name, es[0].name)
    ensures After(name, es)
  {
    forall i | 0 < i < |es| ensures Less(name, es[i].name) {
      LessTransitive(name, es[0].name, es[i].name);
    }
  }

  lemma AfterNotNamed<V>(name: seq<Byte>, es: seq<Entry<V>>)
    requires After(name, es)
    ensures !Named(es, name)
  {
    LessIrreflexive(name);
  }

  /** Emplacing adds the entry or nothing, and drops nothing. */
  lemma {:induction false} EmplaceBag<V>(es: seq<Entry<V>>, e: Entry<V>)
    ensures multiset(Emplace(es, e).0) == if Emplace(es, e).1 then multiset(es) + multiset{e} else multiset(es)
  {
    hide Less;
    if es != [] && !Less(e.name, es[0].name) && e.name != es[0].name {
      EmplaceBag(es[1..], e);
      assert es == [es[0]] + es[1..];
    }
  }

  lemma AfterBag<V>(low: seq<Byte>, es: seq<Entry<V>>, more: seq<Entry<V>>, e: Entry<V>)
    requires After(low, es) && Less(low, e.name)
    requires multiset(more) == multiset(es) || multiset(more) == multiset(es) + multiset{e}
    ensures After(low, more)
  {
    hide Less;
    forall i | 0 <= i < |more| ensures Less(low, more[i].name) {
      assert more[i] in multiset(more);
      if more[i] != e {
        assert more[i] in multiset(es);
      }
    }
  }

  /** It keeps the order. */
  lemma {:induction false} EmplaceSorted<V>(es: seq<Entry<V>>, e: Entry<V>)
    requires StrictlySorted(es)
    ensures StrictlySorted(Emplace(es, e).0)
  {
    hide Less;
    if es == [] {
    } else if Less(e.name, es[0].name) {
      AfterFirst(e.name, es);
      Cons(e, es);
    } else if e.name != es[0].name {
      EmplaceSorted(es[1..], e);
      EmplaceBag(es[1..], e);
      LessTotal(e.name, es[0].name);
      AfterBag(es[0].name, es[1..], Emplace(es[1..], e).0, e);
      Cons(es[0], Emplace(es[1..], e).0);
    }
  }

  /** It inserts exactly when the name is new. */
  lemma {:induction false} EmplaceInserts<V>(es: seq<Entry<V>>, e: Entry<V>)
    requires StrictlySorted(es)
    ensures Emplace(es, e).1 <==> !Named(es, e.name)
  {
    hide Less;
    if es == [] {
    } else if Less(e.name, es[0].name) {
      AfterFirst(e.name, es);
      AfterNotNamed(e.name, es);
    } else if e.name != es[0].name {
      EmplaceInserts(es[1..], e);
      NamedRest(es, e.name);
    }
  }

  /** A new name: the list stays sorted and gains exactly this entry. */
  lemma EmplaceNew<V>(es: seq<Entry<V>>, e: Entry<V>)
    requires StrictlySorted(es) && !Named(es, e.name)
    ensures StrictlySorted(Emplace(es, e).0) && multiset(Emplace(es, e).0) == multiset(es) + multiset{e}
  {
    hide Less, Emplace, StrictlySorted, Named;
    EmplaceSorted(es, e);
    EmplaceBag(es, e);
    EmplaceInserts(es, e);
  }

  lemma NamedRest<V>(es: seq<Entry<V>>, name: seq<Byte>)
    requires es != [] && es[0].name != name
    ensures Named(es, name) <==> Named(es[1..], name)
  {
    if Named(es, name) {
      var i :| 0 <= i < |es| && es[i].name == name;
      assert es[1..][i - 1].name == name;
    }
  }

  lemma Tail<V>(a: seq<Entry<V>>)
    requires StrictlySorted(a) && a != []
    ensures StrictlySorted(a[1..]) && multiset(a[1..]) == multiset(a) - multiset{a[0]} && a == [a[0]] + a[1..]
  {
    hide Less;
    assert a == [a[0]] + a[1..];
  }

  /** A strictly sorted list is determined by what it holds. */
  lemma {:induction false} SortedUnique<V>(a: seq<Entry<V>>, b: seq<Entry<V>>)
    requires StrictlySorted(a) && StrictlySorted(b) && multiset(a) == multiset(b)
    ensures a == b
  {
    assert |a| == |multiset(a)| == |multiset(b)| == |b|;
    hide StrictlySorted;
    if a != [] {
      SmallestFirst(a, b);
      Tail(a);
      Tail(b);
      SortedUnique(a[1..], b[1..]);
    }
  }

  lemma SmallestFirst<V>(a: seq<Entry<V>>, b: seq<Entry<V>>)
    requires StrictlySorted(a) && StrictlySorted(b) && multiset(a) == multiset(b) && a != [] && b != []
    ensures a[0] == b[0]
  {
    hide Less;
    assert a[0] in multiset(b) && b[0] in multiset(a);
    var i :| 0 <= i < |b| && b[i] == a[0];
    var j :| 0 <= j < |a| && a[j] == b[0];
    if i > 0 && j > 0 {
      assert Less(b[0].name, b[i].name) && Less(a[0].name, a[j].name);
      LessTransitive(a[0].name, b[0].name, a[0].name);
      LessIrreflexive(a[0].name);
    }
  }
}
