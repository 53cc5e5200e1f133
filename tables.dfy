/** The observation table (a pandas DataFrame of per-cell metadata) as rows
    keyed by column name, with the pandas operations the core uses:
    column access, row filtering, `str(x)` of a cell, group keys in sorted
    order, and the median. */
module Tables {
  import opened Wrappers
  import opened Strings
  import opened Sequences
  import Order

  /** One cell: missing (NaN/None), an integer, or a string. Floating-point
      cells are not modelled. */
  datatype Value = Missing | Int(i: int) | Str(s: String)

  type Row = map<String, Value>

  /** A table whose column names are distinct and whose every row has a
      value for exactly those columns. */
  datatype Table = Table(columns: seq<String>, rows: seq<Row>) {
    ghost predicate Valid()
    {
      && Order.Distinct(columns)
      && (forall r | r in rows :: r.Keys == Order.Elems(columns))
    }
  }

  /** The values of column `c`, row by row. */
  function Column(rows: seq<Row>, c: String): (vs: seq<Value>)
    requires forall r | r in rows :: c in r
    ensures |vs| == |rows| && forall i :: 0 <= i < |rows| ==> vs[i] == rows[i][c]
  {
    if rows == [] then [] else [rows[0][c]] + Column(rows[1..], c)
  }

  /** A value is in column `c` exactly when some row holds it there. */
  lemma ColumnMembers(rows: seq<Row>, c: String)
    requires forall r | r in rows :: c in r
    ensures forall v :: v in Column(rows, c) <==> exists r | r in rows :: r[c] == v
  {
    var vs := Column(rows, c);
    forall v ensures v in vs <==> exists r | r in rows :: r[c] == v {
      if v in vs {
        var i :| 0 <= i < |vs| && vs[i] == v;
        assert rows[i] in rows;
      }
      if exists r | r in rows :: r[c] == v {
        var r :| r in rows && r[c] == v;
        var i :| 0 <= i < |rows| && rows[i] == r;
        assert vs[i] == v;
      }
    }
  }

  /** `x.dropna()`: the non-missing values, in order, each as often as it
      occurs. */
  function DropMissing(vs: seq<Value>): (r: seq<Value>)
    ensures Missing !in r
    ensures forall v :: v in r <==> v in vs && v != Missing
  {
    if vs == [] then []
    else (if vs[0] == Missing then [] else [vs[0]]) + DropMissing(vs[1..])
  }

  /** `dropna` keeps every non-missing value as often as it occurs. */
  lemma {:induction false} DropMissingCounts(vs: seq<Value>)
    ensures multiset(DropMissing(vs)) == multiset(vs)[Missing := 0]
  {
    if vs != [] {
      assert vs == [vs[0]] + vs[1..];
      DropMissingCounts(vs[1..]);
    }
  }

  /** Python's `str(x)` of a non-missing cell; a missing one prints `nan`. */
  function Show(v: Value): String
  {
    match v
    case Missing => "nan"
    case Int(i) => IntToString(i)
    case Str(s) => s
  }

  /** The order pandas sorts group keys in: integers numerically, strings by
      code point. A column mixing both sorts integers first. */
  predicate ValueLess(a: Value, b: Value)
  {
    match (a, b)
    case (Missing, Missing) => false
    case (Missing, _) => true
    case (Int(x), Int(y)) => x < y
    case (Int(_), Str(_)) => true
    case (Str(x), Str(y)) => StrLess(x, y)
    case (_, _) => false
  }

  lemma ValueLessIsStrictTotalOrder()
    ensures Order.StrictTotalOrder(ValueLess)
  {
    StrLessIsStrictTotalOrder();
    forall a ensures !ValueLess(a, a) {
      if a.Str? {
        assert !StrLess(a.s, a.s);
      }
    }
    forall a, b, c | ValueLess(a, b) && ValueLess(b, c) ensures ValueLess(a, c) {
      if a.Str? && b.Str? && c.Str? {
        assert StrLess(a.s, b.s) && StrLess(b.s, c.s);
      }
    }
    forall a, b ensures a == b || ValueLess(a, b) || ValueLess(b, a) {
      if a.Str? && b.Str? {
        assert a.s == b.s || StrLess(a.s, b.s) || StrLess(b.s, a.s);
      }
    }
  }

  // ---- median, as pandas computes it for integer columns ----

  predicate IntLess(a: int, b: int)
  {
    a < b
  }

  lemma IntLessIsStrictTotalOrder()
    ensures Order.StrictTotalOrder(IntLess)
  {
  }

  /** The middle value of the sorted values, or the mean of the two middle
      values for an even count; no median (NaN) for no values. The mean is
      an exact rational here, where pandas rounds to a float. */
  function Median(xs: seq<int>): Option<real>
  {
    if xs == [] then None
    else
      var s := Order.Sort(xs, IntLess);
      var n := |s|;
      if n % 2 == 1 then Some(s[n / 2] as real)
      else Some((s[n / 2 - 1] + s[n / 2]) as real / 2.0)
  }

  /** The median depends only on the values, not on their order. */
  lemma MedianPermutationInvariant(xs: seq<int>, ys: seq<int>)
    requires multiset(xs) == multiset(ys)
    ensures Median(xs) == Median(ys)
  {
    assert Order.Sort(xs, IntLess) == Order.Sort(ys, IntLess) by {
      IntLessIsStrictTotalOrder();
      Order.SortPermutationInvariant(xs, ys, IntLess);
    }
    assert |xs| == |Order.Sort(xs, IntLess)|;
    assert |ys| == |Order.Sort(ys, IntLess)|;
  }

  /** The median of some values lies between the least and the greatest. */
  lemma MedianBounds(xs: seq<int>)
    requires xs != []
    ensures Median(xs).Some?
    ensures exists i | 0 <= i < |xs| :: xs[i] as real <= Median(xs).value
    ensures exists j | 0 <= j < |xs| :: Median(xs).value <= xs[j] as real
  {
    IntLessIsStrictTotalOrder();
    var s := Order.Sort(xs, IntLess);
    Order.SortSorted(xs, IntLess);
    var n := |s|;
    var lo, hi := if n % 2 == 1 then n / 2 else n / 2 - 1, n / 2;
    assert s[lo] <= s[hi] by { assert lo == hi || !IntLess(s[hi], s[lo]); }
    assert s[lo] in multiset(xs) && s[hi] in multiset(xs);
    var i :| 0 <= i < |xs| && xs[i] == s[lo];
    var j :| 0 <= j < |xs| && xs[j] == s[hi];
    assert xs[i] as real <= Median(xs).value <= xs[j] as real;
  }
}
