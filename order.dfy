/** Sorting and de-duplication over a strict total order, as Python's
    `sorted(...)` and `sorted(set(...))` use them. The order is a parameter so
    that strings, integers and table cells share one definition. */
module Order {

  /** `lt` is irreflexive, transitive and total: a strict total order. */
  ghost predicate StrictTotalOrder<T(!new)>(lt: (T, T) -> bool)
  {
    && (forall a :: !lt(a, a))
    && (forall a, b, c :: lt(a, b) && lt(b, c) ==> lt(a, c))
    && (forall a, b :: a == b || lt(a, b) || lt(b, a))
  }

  /** Ascending, duplicates allowed. */
  ghost predicate Sorted<T>(s: seq<T>, lt: (T, T) -> bool)
  {
    forall i, j :: 0 <= i < j < |s| ==> !lt(s[j], s[i])
  }

  /** Ascending with no two equal elements. */
  ghost predicate StrictlySorted<T>(s: seq<T>, lt: (T, T) -> bool)
  {
    forall i, j :: 0 <= i < j < |s| ==> lt(s[i], s[j])
  }

  /** No element occurs twice. */
  predicate Distinct<T(==)>(s: seq<T>)
  {
    forall i, j :: 0 <= i < j < |s| ==> s[i] != s[j]
  }

  /** Appending an element not already present keeps a sequence distinct. */
  lemma DistinctSnoc<T>(s: seq<T>, x: T)
    requires Distinct(s) && x !in s
    ensures Distinct(s + [x])
  {
    forall i, j | 0 <= i < j < |s| + 1 ensures (s + [x])[i] != (s + [x])[j] {
      assert s[i] in s;
    }
  }

  function Elems<T>(s: seq<T>): set<T>
  {
    set x | x in s
  }

  /** Places `x` before the first element that is not below it. */
  function Insert<T>(x: T, s: seq<T>, lt: (T, T) -> bool): (r: seq<T>)
    ensures |r| == |s| + 1
    ensures multiset(r) == multiset(s) + multiset{x}
  {
    if s == [] then [x]
    else
      assert s == [s[0]] + s[1..];
      if lt(s[0], x) then [s[0]] + Insert(x, s[1..], lt) else [x] + s
  }

  /** Insertion sort: the model of Python's `sorted`. */
  function Sort<T>(s: seq<T>, lt: (T, T) -> bool): (r: seq<T>)
    ensures |r| == |s|
    ensures multiset(r) == multiset(s)
  {
    if s == [] then []
    else (assert s == [s[0]] + s[1..]; Insert(s[0], Sort(s[1..], lt), lt))
  }

  /** Drops every element equal to its predecessor. */
  function Dedup<T(==)>(s: seq<T>): (r: seq<T>)
    ensures |r| <= |s|
  {
    if |s| <= 1 then s
    else if s[0] == s[1] then Dedup(s[1..])
    else [s[0]] + Dedup(s[1..])
  }

  /** The model of `sorted(set(s))`. */
  function SortedUnique<T(==)>(s: seq<T>, lt: (T, T) -> bool): seq<T>
  {
    Dedup(Sort(s, lt))
  }

  lemma {:induction false} InsertSorted<T(!new)>(x: T, s: seq<T>, lt: (T, T) -> bool)
    requires StrictTotalOrder(lt)
    requires Sorted(s, lt)
    ensures Sorted(Insert(x, s, lt), lt)
  {
    if s != [] && lt(s[0], x) {
      InsertSorted(x, s[1..], lt);
      var r := Insert(x, s, lt);
      forall i, j | 0 <= i < j < |r| ensures !lt(r[j], r[i]) {
        if i == 0 {
          assert r[j] in multiset(s[1..]) + multiset{x} by {
            assert r[j] in multiset(r[1..]);
          }
          if r[j] == x {
          } else {
            assert r[j] in s[1..];
            var k :| 0 <= k < |s[1..]| && s[1..][k] == r[j];
            assert s[k + 1] == r[j];
          }
        }
      }
    }
  }

  lemma {:induction false} SortSorted<T(!new)>(s: seq<T>, lt: (T, T) -> bool)
    requires StrictTotalOrder(lt)
    ensures Sorted(Sort(s, lt), lt)
  {
    if s != [] {
      SortSorted(s[1..], lt);
      InsertSorted(s[0], Sort(s[1..], lt), lt);
    }
  }

  lemma {:induction false} DedupElems<T>(s: seq<T>)
    ensures Elems(Dedup(s)) == Elems(s)
  {
    if |s| > 1 {
      DedupElems(s[1..]);
      assert s == [s[0]] + s[1..];
      assert Elems(s) == {s[0]} + Elems(s[1..]);
    }
  }

  /** The first element of `Dedup(s)` is the first element of `s`. */
  lemma {:induction false} DedupHead<T>(s: seq<T>)
    requires s != []
    ensures Dedup(s) != [] && Dedup(s)[0] == s[0]
  {
    if |s| > 1 && s[0] == s[1] {
      DedupHead(s[1..]);
    }
  }

  lemma {:induction false} DedupStrictlySorted<T(!new)>(s: seq<T>, lt: (T, T) -> bool)
    requires StrictTotalOrder(lt)
    requires Sorted(s, lt)
    ensures StrictlySorted(Dedup(s), lt)
  {
    if |s| > 1 {
      assert Sorted(s[1..], lt);
      DedupStrictlySorted(s[1..], lt);
      if s[0] != s[1] {
        var r := Dedup(s);
        DedupElems(s[1..]);
        forall j | 0 < j < |r| ensures lt(r[0], r[j]) {
          assert r[j] in Elems(Dedup(s[1..]));
          var k :| 0 <= k < |s[1..]| && s[1..][k] == r[j];
          assert !lt(s[k + 1], s[0]);
          if k == 0 {
            assert lt(s[0], s[1]);
          } else {
            assert !lt(s[1], s[0]);
            assert lt(s[0], s[1]);
            assert !lt(s[k + 1], s[1]);
          }
        }
      }
    }
  }

  /** `sorted(set(s))` is strictly ascending and holds exactly the elements
      of `s`. */
  lemma SortedUniqueSpec<T(!new)>(s: seq<T>, lt: (T, T) -> bool)
    requires StrictTotalOrder(lt)
    ensures StrictlySorted(SortedUnique(s, lt), lt)
    ensures Elems(SortedUnique(s, lt)) == Elems(s)
  {
    SortSorted(s, lt);
    DedupStrictlySorted(Sort(s, lt), lt);
    DedupElems(Sort(s, lt));
    assert forall x :: x in Sort(s, lt) <==> x in multiset(Sort(s, lt));
  }

  /** A strictly ascending sequence is determined by its set of elements. */
  lemma {:induction false} StrictlySortedUnique<T(!new)>(a: seq<T>, b: seq<T>, lt: (T, T) -> bool)
    requires StrictTotalOrder(lt)
    requires StrictlySorted(a, lt) && StrictlySorted(b, lt)
    requires Elems(a) == Elems(b)
    ensures a == b
  {
    if a != [] {
      assert a[0] in Elems(a);
    }
    if b != [] {
      assert b[0] in Elems(b);
    }
    if a != [] && b != [] {
      var a0, b0 := a[0], b[0];
      var i :| 0 <= i < |b| && b[i] == a0;
      var j :| 0 <= j < |a| && a[j] == b0;
      assert i == 0 || lt(b0, a0);
      assert j == 0 || lt(a0, b0);
      assert a0 == b0;
      assert Elems(a[1..]) == Elems(a) - {a[0]} by {
        assert a == [a[0]] + a[1..];
        forall x | x in a[1..] ensures x != a[0] {
          var k :| 0 <= k < |a[1..]| && a[1..][k] == x;
          assert lt(a[0], a[k + 1]);
        }
      }
      assert Elems(b[1..]) == Elems(b) - {b[0]} by {
        assert b == [b[0]] + b[1..];
        forall x | x in b[1..] ensures x != b[0] {
          var k :| 0 <= k < |b[1..]| && b[1..][k] == x;
          assert lt(b[0], b[k + 1]);
        }
      }
      StrictlySortedUnique(a[1..], b[1..], lt);
      assert a == [a[0]] + a[1..] && b == [b[0]] + b[1..];
    }
  }

  /** Two sorted sequences with one multiset start with the same element. */
  lemma SortedSameHead<T(!new)>(a: seq<T>, b: seq<T>, lt: (T, T) -> bool)
    requires StrictTotalOrder(lt)
    requires Sorted(a, lt) && Sorted(b, lt)
    requires multiset(a) == multiset(b)
    requires a != [] && b != []
    ensures a[0] == b[0]
  {
    var a0, b0 := a[0], b[0];
    assert a0 in multiset(b) && b0 in multiset(a);
    var i :| 0 <= i < |b| && b[i] == a0;
    var j :| 0 <= j < |a| && a[j] == b0;
    assert !lt(a0, b0) by {
      if i > 0 {
        assert !lt(b[i], b[0]);
      }
    }
    assert !lt(b0, a0) by {
      if j > 0 {
        assert !lt(a[j], a[0]);
      }
    }
  }

  /** A sorted sequence is determined by its multiset of elements. */
  lemma {:induction false} SortedDetermined<T(!new)>(a: seq<T>, b: seq<T>, lt: (T, T) -> bool)
    requires StrictTotalOrder(lt)
    requires Sorted(a, lt) && Sorted(b, lt)
    requires multiset(a) == multiset(b)
    ensures a == b
  {
    assert |a| == |b| by { assert |multiset(a)| == |multiset(b)|; }
    if a != [] {
      SortedSameHead(a, b, lt);
      var a', b' := a[1..], b[1..];
      assert a == [a[0]] + a' && b == [b[0]] + b';
      assert multiset(a') == multiset(b') by {
        assert multiset(a) == multiset{a[0]} + multiset(a');
        assert multiset(b) == multiset{b[0]} + multiset(b');
        forall x ensures multiset(a')[x] == multiset(b')[x] {
          assert multiset(a)[x] == multiset{a[0]}[x] + multiset(a')[x];
          assert multiset(b)[x] == multiset{b[0]}[x] + multiset(b')[x];
        }
      }
      assert Sorted(a', lt) && Sorted(b', lt);
      SortedDetermined(a', b', lt);
    }
  }

  /** Sorting two arrangements of the same multiset gives one result. */
  lemma SortPermutationInvariant<T(!new)>(a: seq<T>, b: seq<T>, lt: (T, T) -> bool)
    requires StrictTotalOrder(lt)
    requires multiset(a) == multiset(b)
    ensures Sort(a, lt) == Sort(b, lt)
  {
    SortSorted(a, lt);
    SortSorted(b, lt);
    SortedDetermined(Sort(a, lt), Sort(b, lt), lt);
  }
}
