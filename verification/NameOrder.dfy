/** Sorting named entries by name, as both revision scripts do before they hash or print.

    The comparison is a parameter. It may tie; what it takes for the sort to forget the order of
    insertion is `SortForgetsOrderExactlyWhen`. */
module NameOrder {

  ghost predicate StrictTotal<K(!new)>(less: (K, K) -> bool, names: set<K>) {
    && (forall a :: a in names ==> !less(a, a))
    && (forall a, b :: a in names && b in names && a != b ==> less(a, b) || less(b, a))
    && (forall a, b, c :: a in names && b in names && c in names && less(a, b) && less(b, c) ==> less(a, c))
  }

  function Names<K, V>(es: seq<(K, V)>): (ks: seq<K>)
    ensures |ks| == |es|
  {
    seq(|es|, i requires 0 <= i < |es| => es[i].0)
  }

  ghost predicate DistinctNames<K(!new), V>(es: seq<(K, V)>) {
    forall i, j :: 0 <= i < j < |es| ==> es[i].0 != es[j].0
  }

  ghost function NameSet<K, V>(es: seq<(K, V)>): set<K> {
    set e <- es :: e.0
  }

  function Insert<K, V>(less: (K, K) -> bool, s: seq<(K, V)>, e: (K, V)): (r: seq<(K, V)>)
    ensures multiset(r) == multiset(s) + multiset{e}
  {
    if s == [] then [e]
    else if less(e.0, s[0].0) then [e] + s
    else
      assert s == [s[0]] + s[1..];
      [s[0]] + Insert(less, s[1..], e)
  }

  /** A stable sort. */
  function SortByName<K, V>(less: (K, K) -> bool, es: seq<(K, V)>): (r: seq<(K, V)>)
    ensures multiset(r) == multiset(es)
    ensures |r| == |es|
  {
    if es == [] then []
    else
      var n := |es| - 1;
      assert es == es[..n] + [es[n]];
      var r := Insert(less, SortByName(less, es[..n]), es[n]);
      assert |multiset(r)| == |r| && |multiset(es)| == |es|;
      r
  }

  ghost predicate Sorted<K(!new), V>(less: (K, K) -> bool, s: seq<(K, V)>) {
    forall i, j :: 0 <= i < j < |s| ==> less(s[i].0, s[j].0)
  }

  lemma SameEntries<K, V>(s: seq<(K, V)>, t: seq<(K, V)>)
    requires multiset(s) == multiset(t)
    ensures forall e :: e in s <==> e in t
    ensures NameSet(s) == NameSet(t)
  {
    forall e
      ensures e in s <==> e in t
    {
      assert e in s <==> e in multiset(s);
      assert e in t <==> e in multiset(t);
    }
  }

  lemma {:induction false} InsertSorts<K(!new), V>(less: (K, K) -> bool, s: seq<(K, V)>, e: (K, V), names: set<K>)
    requires StrictTotal(less, names) && Sorted(less, s)
    requires NameSet(s) <= names && e.0 in names && e.0 !in NameSet(s)
    ensures Sorted(less, Insert(less, s, e))
  {
    if s != [] {
      assert s[0].0 in NameSet(s);
      assert forall x :: x in s ==> x.0 in NameSet(s);
      if less(e.0, s[0].0) {
        forall j | 0 <= j < |s|
          ensures less(e.0, s[j].0)
        {
          assert s[j] in s;
          assert s[j].0 in names;
        }
      } else {
        assert NameSet(s[1..]) <= NameSet(s);
        InsertSorts(less, s[1..], e, names);
        var rest := Insert(less, s[1..], e);
        forall j | 0 <= j < |rest|
          ensures less(s[0].0, rest[j].0)
        {
          assert rest[j] in multiset(rest);
          assert rest[j] in multiset(s[1..]) || rest[j] == e;
          if rest[j] != e {
            assert rest[j] in s[1..];
          }
        }
      }
    }
  }

  /** Distinct names come out strictly increasing. */
  lemma {:induction false} SortSorts<K(!new), V>(less: (K, K) -> bool, es: seq<(K, V)>)
    requires DistinctNames(es) && StrictTotal(less, NameSet(es))
    ensures Sorted(less, SortByName(less, es))
  {
    if es != [] {
      var n := |es| - 1;
      var front := es[..n];
      assert NameSet(front) <= NameSet(es);
      SortSorts(less, front);
      SameEntries(SortByName(less, front), front);
      assert es[n].0 !in NameSet(front);
      assert es[n] in es;
      InsertSorts(less, SortByName(less, front), es[n], NameSet(es));
    }
  }

  /** A set of names has one increasing enumeration. */
  lemma {:induction false} SortedIsUnique<K(!new), V, W>(
      less: (K, K) -> bool, s: seq<(K, V)>, t: seq<(K, W)>, names: set<K>)
    requires StrictTotal(less, names) && NameSet(s) == NameSet(t) <= names
    requires Sorted(less, s) && Sorted(less, t)
    ensures Names(s) == Names(t)
    decreases |s|
  {
    NoNames(s);
    NoNames(t);
    if s != [] {
      FirstIsLeast(less, s, t, names);
      TailNames(less, s, names);
      TailNames(less, t, names);
      SortedIsUnique(less, s[1..], t[1..], names);
      assert Names(s) == [s[0].0] + Names(s[1..]);
      assert Names(t) == [t[0].0] + Names(t[1..]);
    }
  }

  lemma NoNames<K(!new), V>(s: seq<(K, V)>)
    ensures NameSet(s) == {} <==> s == []
  {
    if s != [] {
      assert s[0] in s && s[0].0 in NameSet(s);
    }
  }

  lemma FirstIsLeast<K(!new), V, W>(less: (K, K) -> bool, s: seq<(K, V)>, t: seq<(K, W)>, names: set<K>)
    requires StrictTotal(less, names) && NameSet(s) == NameSet(t) <= names
    requires Sorted(less, s) && Sorted(less, t) && s != [] && t != []
    ensures s[0].0 == t[0].0
  {
    assert s[0] in s && t[0] in t;
    assert s[0].0 in NameSet(t) && t[0].0 in NameSet(s);
    var e :| e in t && e.0 == s[0].0;
    var f :| f in s && f.0 == t[0].0;
    var j :| 0 <= j < |t| && t[j] == e;
    var i :| 0 <= i < |s| && s[i] == f;
  }

  lemma TailNames<K(!new), V>(less: (K, K) -> bool, s: seq<(K, V)>, names: set<K>)
    requires StrictTotal(less, names) && NameSet(s) <= names && Sorted(less, s) && s != []
    ensures NameSet(s[1..]) == NameSet(s) - {s[0].0} && Sorted(less, s[1..])
  {
    assert s == [s[0]] + s[1..];
    forall k | k in NameSet(s[1..])
      ensures k in NameSet(s) && k != s[0].0
    {
      var e :| e in s[1..] && e.0 == k;
      var i :| 0 < i < |s| && s[i] == e;
      assert s[0] in s && e in s;
      assert s[0].0 in names && less(s[0].0, k);
    }
    forall k | k in NameSet(s) && k != s[0].0
      ensures k in NameSet(s[1..])
    {
      var e :| e in s && e.0 == k;
      assert e in s[1..];
    }
  }

  // ---- when the insertion order is forgotten ----

  /** The same entries, in any order. */
  ghost predicate Reorders<K(!new), V(!new)>(fs: seq<(K, V)>, es: seq<(K, V)>) {
    DistinctNames(fs) && forall e :: e in fs <==> e in es
  }

  /** The comparison does not contradict itself on the names; it may still tie. */
  ghost predicate Consistent<K(!new)>(less: (K, K) -> bool, names: set<K>) {
    && (forall a :: a in names ==> !less(a, a))
    && (forall a, b, c :: a in names && b in names && c in names && less(a, b) && less(b, c) ==> less(a, c))
  }

  lemma SameSort<K(!new), V(!new)>(less: (K, K) -> bool, es: seq<(K, V)>, fs: seq<(K, V)>)
    requires DistinctNames(es) && Reorders(fs, es) && StrictTotal(less, NameSet(es))
    ensures SortByName(less, es) == SortByName(less, fs)
  {
    var s, t := SortByName(less, es), SortByName(less, fs);
    SameEntries(s, es);
    SameEntries(t, fs);
    assert NameSet(es) == NameSet(fs);
    SortSorts(less, es);
    SortSorts(less, fs);
    SortedIsUnique(less, s, t, NameSet(es));
    SameNamesSameEntries(s, t, es);
  }

  lemma SameNamesSameEntries<K(!new), V(!new)>(s: seq<(K, V)>, t: seq<(K, V)>, es: seq<(K, V)>)
    requires Names(s) == Names(t) && DistinctNames(es)
    requires forall e :: e in s ==> e in es
    requires forall e :: e in t ==> e in es
    ensures s == t
  {
    forall i | 0 <= i < |s|
      ensures s[i] == t[i]
    {
      assert Names(s)[i] == Names(t)[i];
      assert s[i] in es && t[i] in es;
    }
  }

  /** Entry `e` stands somewhere before entry `f`. */
  ghost predicate Before<K(!new), V(!new)>(s: seq<(K, V)>, e: (K, V), f: (K, V)) {
    exists i, j :: 0 <= i < j < |s| && s[i] == e && s[j] == f
  }

  lemma {:induction false} InsertKeepsBefore<K(!new), V(!new)>(
      less: (K, K) -> bool, s: seq<(K, V)>, g: (K, V), i: nat, j: nat)
    requires i < j < |s|
    ensures Before(Insert(less, s, g), s[i], s[j])
  {
    var r := Insert(less, s, g);
    if less(g.0, s[0].0) {
      assert r[i + 1] == s[i] && r[j + 1] == s[j];
    } else if i > 0 {
      InsertKeepsBefore(less, s[1..], g, i - 1, j - 1);
      var k, l :| 0 <= k < l < |r| - 1 && r[1..][k] == s[i] && r[1..][l] == s[j];
      assert r[k + 1] == s[i] && r[l + 1] == s[j];
    } else {
      var rest := Insert(less, s[1..], g);
      assert s[1..][j - 1] in multiset(s[1..]) && s[j] in multiset(rest);
      var l :| 0 <= l < |rest| && rest[l] == s[j];
      assert r[0] == s[0] && r[l + 1] == s[j];
    }
  }

  lemma SortOfTwo<K, V>(less: (K, K) -> bool, e: (K, V), f: (K, V))
    requires !less(f.0, e.0)
    ensures SortByName(less, [e, f]) == [e, f]
  {
    var es := [e, f];
    assert es[..1] == [e] && [e][..0] == [];
    assert SortByName(less, [e]) == Insert(less, [], e) == [e];
    assert [e][1..] == [] && Insert(less, [e], f) == [e] + Insert(less, [], f);
  }

  lemma SortStep<K, V>(less: (K, K) -> bool, es: seq<(K, V)>, g: (K, V))
    ensures SortByName(less, es + [g]) == Insert(less, SortByName(less, es), g)
  {
    assert (es + [g])[..|es|] == es;
  }

  /** Of two tied entries that were set first, the sort keeps the order. */
  lemma {:induction false} TiedStayInOrder<K(!new), V(!new)>(
      less: (K, K) -> bool, e: (K, V), f: (K, V), rest: seq<(K, V)>)
    requires !less(f.0, e.0)
    ensures Before(SortByName(less, [e, f] + rest), e, f)
    decreases |rest|
  {
    if rest == [] {
      SortOfTwo(less, e, f);
      assert [e, f] + rest == [e, f];
      assert [e, f][0] == e && [e, f][1] == f;
    } else {
      var front, g := rest[..|rest| - 1], rest[|rest| - 1];
      assert [e, f] + rest == ([e, f] + front) + [g];
      SortStep(less, [e, f] + front, g);
      TiedStayInOrder(less, e, f, front);
      var s := SortByName(less, [e, f] + front);
      var i, j :| 0 <= i < j < |s| && s[i] == e && s[j] == f;
      InsertKeepsBefore(less, s, g, i, j);
    }
  }

  lemma {:induction false} AtMostOnce<K(!new), V(!new)>(es: seq<(K, V)>, e: (K, V))
    requires DistinctNames(es)
    ensures multiset(es)[e] <= 1
  {
    if es != [] {
      var n := |es| - 1;
      AtMostOnce(es[..n], e);
      assert es == es[..n] + [es[n]];
      assert e == es[n] ==> e !in es[..n];
    }
  }

  lemma TwoPlaces<K, V>(s: seq<(K, V)>, i: nat, j: nat)
    requires i < j < |s| && s[i] == s[j]
    ensures multiset(s)[s[i]] >= 2
  {
    assert s == s[..i + 1] + s[i + 1..];
    assert s[i] in s[..i + 1] && s[j] in s[i + 1..];
  }

  lemma NotBothBefore<K(!new), V(!new)>(s: seq<(K, V)>, es: seq<(K, V)>, e: (K, V), f: (K, V))
    requires DistinctNames(es) && multiset(s) == multiset(es) && Before(s, e, f)
    ensures !Before(s, f, e)
  {
    if Before(s, f, e) {
      var i, j :| 0 <= i < j < |s| && s[i] == e && s[j] == f;
      var k, l :| 0 <= k < l < |s| && s[k] == f && s[l] == e;
      AtMostOnce(es, e);
      AtMostOnce(es, f);
      if i != l {
        TwoPlaces(s, if i < l then i else l, if i < l then l else i);
      } else {
        TwoPlaces(s, k, j);
      }
    }
  }

  lemma MoveFirst<K(!new), V(!new)>(es: seq<(K, V)>, i: nat)
    requires DistinctNames(es) && i < |es|
    ensures Reorders([es[i]] + (es[..i] + es[i + 1..]), es)
  {
    assert es == es[..i] + [es[i]] + es[i + 1..];
  }

  lemma SwapFirst<K(!new), V(!new)>(e: (K, V), f: (K, V), rest: seq<(K, V)>)
    requires DistinctNames([e, f] + rest)
    ensures Reorders([f, e] + rest, [e, f] + rest)
  {
    var es, fs := [e, f] + rest, [f, e] + rest;
    forall i, j | 0 <= i < j < |fs|
      ensures fs[i].0 != fs[j].0
    {
      assert fs[i] == if i < 2 then es[1 - i] else es[i];
      assert fs[j] == if j < 2 then es[1 - j] else es[j];
    }
  }

  /** Any two entries may have been set first. */
  lemma TwoFirst<K(!new), V(!new)>(es: seq<(K, V)>, i: nat, j: nat) returns (rest: seq<(K, V)>)
    requires DistinctNames(es) && i < j < |es|
    ensures Reorders([es[i], es[j]] + rest, es)
  {
    var once := [es[j]] + (es[..j] + es[j + 1..]);
    MoveFirst(es, j);
    assert once[i + 1] == es[i];
    MoveFirst(once, i + 1);
    rest := once[1..i + 1] + once[i + 2..];
    assert once[..i + 1] == [es[j]] + once[1..i + 1];
    assert [es[i]] + (once[..i + 1] + once[i + 2..]) == [es[i], es[j]] + rest;
  }

  /** The sort forgets the order in which the entries were set exactly when the comparison ties on
      no two of their names. */
  lemma SortForgetsOrderExactlyWhen<K(!new), V(!new)>(less: (K, K) -> bool, es: seq<(K, V)>)
    requires DistinctNames(es) && Consistent(less, NameSet(es))
    ensures
      (forall fs :: Reorders(fs, es) ==> SortByName(less, fs) == SortByName(less, es))
        <==> StrictTotal(less, NameSet(es))
  {
    if StrictTotal(less, NameSet(es)) {
      forall fs | Reorders(fs, es)
        ensures SortByName(less, fs) == SortByName(less, es)
      {
        SameSort(less, es, fs);
      }
    } else {
      var a, b :| a in NameSet(es) && b in NameSet(es) && a != b && !less(a, b) && !less(b, a);
      var i :| 0 <= i < |es| && es[i].0 == a;
      var j :| 0 <= j < |es| && es[j].0 == b;
      var fs := TieShows(less, es, if i < j then i else j, if i < j then j else i);
    }
  }

  /** Two tied entries come out in the order in which they were set. */
  lemma TieShows<K(!new), V(!new)>(less: (K, K) -> bool, es: seq<(K, V)>, i: nat, j: nat) returns (fs: seq<(K, V)>)
    requires DistinctNames(es) && i < j < |es| && !less(es[i].0, es[j].0) && !less(es[j].0, es[i].0)
    ensures Reorders(fs, es) && SortByName(less, fs) != SortByName(less, es)
  {
    var rest := TwoFirst(es, i, j);
    fs := [es[i], es[j]] + rest;
    TieIsKept(less, es[i], es[j], rest);
    if SortByName(less, fs) == SortByName(less, es) {
      SwapFirst(es[i], es[j], rest);
      fs := [es[j], es[i]] + rest;
    }
  }

  lemma TieIsKept<K(!new), V(!new)>(less: (K, K) -> bool, e: (K, V), f: (K, V), rest: seq<(K, V)>)
    requires DistinctNames([e, f] + rest) && !less(e.0, f.0) && !less(f.0, e.0)
    ensures SortByName(less, [e, f] + rest) != SortByName(less, [f, e] + rest)
  {
    TiedStayInOrder(less, e, f, rest);
    TiedStayInOrder(less, f, e, rest);
    NotBothBefore(SortByName(less, [e, f] + rest), [e, f] + rest, e, f);
  }
}
