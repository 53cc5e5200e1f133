/** Order-preserving selection from a sequence: the model of a boolean
    mask over a table's rows (`df[mask]`) and of a list comprehension with an
    `if` clause. */
module Sequences {

  /** The elements satisfying `keep`, in order. */
  function Filter<T>(s: seq<T>, keep: T -> bool): seq<T>
  {
    if s == [] then []
    else Filter(s[..|s| - 1], keep) + (if keep(s[|s| - 1]) then [s[|s| - 1]] else [])
  }

  /** The positions of the rows `Filter` keeps. */
  function KeptIndices<T>(s: seq<T>, keep: T -> bool): seq<nat>
  {
    if s == [] then []
    else KeptIndices(s[..|s| - 1], keep) + (if keep(s[|s| - 1]) then [|s| - 1] else [])
  }

  /** `Filter` keeps exactly the elements satisfying `keep`, each once and in
      their original order: its result is the input read at a strictly
      increasing list of positions, and a position is in that list exactly
      when its element satisfies `keep`. */
  lemma {:induction false} FilterSpec<T>(s: seq<T>, keep: T -> bool)
    ensures var f, ks := Filter(s, keep), KeptIndices(s, keep);
      && |f| == |ks|
      && (forall j :: 0 <= j < |ks| ==> ks[j] < |s| && f[j] == s[ks[j]])
      && (forall j, j' :: 0 <= j < j' < |ks| ==> ks[j] < ks[j'])
      && (forall i :: 0 <= i < |s| ==> (keep(s[i]) <==> i in ks))
  {
    if s != [] {
      var p := s[..|s| - 1];
      FilterSpec(p, keep);
      var ks := KeptIndices(s, keep);
      var kp := KeptIndices(p, keep);
      forall i | 0 <= i < |s| ensures keep(s[i]) <==> i in ks {
        if i < |s| - 1 {
          assert s[i] == p[i];
          assert |s| - 1 !in kp;
        }
      }
    }
  }

  /** The elements of a filtered sequence are exactly the kept elements. */
  lemma {:induction false} FilterMembers<T>(s: seq<T>, keep: T -> bool)
    ensures forall x | x in Filter(s, keep) :: x in s && keep(x)
    ensures forall x | x in s && keep(x) :: x in Filter(s, keep)
  {
    if s != [] {
      var p := s[..|s| - 1];
      FilterMembers(p, keep);
      assert s == p + [s[|s| - 1]];
    }
  }

  /** Filtering a concatenation filters each part. */
  lemma {:induction false} FilterConcat<T>(a: seq<T>, b: seq<T>, keep: T -> bool)
    ensures Filter(a + b, keep) == Filter(a, keep) + Filter(b, keep)
    decreases |b|
  {
    if b != [] {
      var b' := b[..|b| - 1];
      assert (a + b)[..|a + b| - 1] == a + b';
      FilterConcat(a, b', keep);
    } else {
      assert a + b == a;
    }
  }

  /** A sequence whose every element is kept is its own filtering. */
  lemma {:induction false} FilterAllKept<T>(s: seq<T>, keep: T -> bool)
    requires forall x | x in s :: keep(x)
    ensures Filter(s, keep) == s
  {
    if s != [] {
      FilterAllKept(s[..|s| - 1], keep);
      assert s[..|s| - 1] + [s[|s| - 1]] == s;
    }
  }

  /** Filtering twice by one test is filtering once. */
  lemma {:induction false} FilterIdempotent<T>(s: seq<T>, keep: T -> bool)
    ensures Filter(Filter(s, keep), keep) == Filter(s, keep)
  {
    FilterMembers(s, keep);
    FilterAllKept(Filter(s, keep), keep);
  }
}
