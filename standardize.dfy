/** Metadata standardisation (src/seafront/standardize.py): developmental
    stage text to integer ages, the table filtered to age-resolved rows, and
    the per-dataset summary of an observation table. */
module Standardize {
  import opened Wrappers
  import opened Strings
  import opened Tables
  import opened Sequences
  import Order

  // ---- filter_age ----

  const YearOldSuffix: String := "-year-old stage"
  const MonthOldSuffix: String := "-month-old stage"
  const LmpMonthStage: String := "LMP month stage"
  const CarnegiePrefix: String := "Carnegie stage"
  const WeekPostFertilization: String := "week post-fertilization stage"

  /** The default exact-match table of coarse life stages to a representative
      age in years. */
  const DefaultConvertMap: map<String, int> := map[
    "child stage (1-4 yo)" := 2,
    "juvenile stage (5-14 yo)" := 10,
    "newborn stage (0-28 days)" := 0,
    "fourth decade stage" := 45,
    "fifth decade stage" := 55,
    "sixth decade stage" := 65,
    "seventh decade stage" := 75,
    "eighth decade stage" := 85,
    "ninth decade stage" := 95,
    "third decade stage" := 35
  ]

  /** The named stages of the default drop set. */
  const DropStages: seq<String> := [
    "adult stage", "late adult stage", "postnatal stage", "prime adult stage", "young adult stage",
    "pediatric stage", "infant stage", "middle aged stage", "organogenesis stage",
    "blastula stage", "embryonic stage", "unknown",
    "fifth LMP month stage", "fourth LMP month stage", "eighth LMP month stage", "ninth LMP month stage"
  ]

  /** Python's `str(n).zfill(2)`. */
  function ZFill2(n: nat): String
  {
    if n < 10 then "0" + NatToString(n) else NatToString(n)
  }

  /** "Carnegie stage 09" through "Carnegie stage 23". */
  function CarnegieStages(): (r: seq<String>)
    ensures |r| == 15
  {
    seq(15, k requires 0 <= k < 15 => CarnegiePrefix + " " + ZFill2(k + 9))
  }

  /** The default drop set: stages that never resolve to an age. */
  function DefaultDropSet(): set<String>
  {
    Order.Elems(DropStages) + Order.Elems(CarnegieStages())
  }

  /** `re.match(r"(\d+)" + suffix, stage)`: the greedy run of leading digits
      followed by `suffix`; the number those digits spell. */
  function StageNumber(stage: String, suffix: String): Option<nat>
  {
    var k := LeadingDigits(stage);
    if k > 0 && StartsWith(stage[k..], suffix) then Some(DigitsValue(stage[..k])) else None
  }

  /** `filter_age`: the first rule that applies, in the source's order. */
  function FilterAge(stage: String, convertMap: map<String, int>, dropSet: set<String>): Option<int>
  {
    if stage in convertMap then Some(convertMap[stage])
    else if stage in dropSet then None
    else if Contains(stage, LmpMonthStage) then None
    else if StartsWith(stage, CarnegiePrefix) then None
    else match StageNumber(stage, YearOldSuffix)
      case Some(n) => Some(n)
      case None =>
        if StageNumber(stage, MonthOldSuffix).Some? then Some(0)
        else if Contains(stage, WeekPostFertilization) then None
        else None
  }

  /** An age comes only from the exact-match table or from one of the two
      numbered patterns reached past the drop set, the "LMP month stage"
      test and the "Carnegie stage" prefix; every other stage maps to none. */
  lemma FilterAgeSources(stage: String, convertMap: map<String, int>, dropSet: set<String>)
    ensures FilterAge(stage, convertMap, dropSet).Some? <==>
      || stage in convertMap
      || (&& stage !in dropSet && !Contains(stage, LmpMonthStage) && !StartsWith(stage, CarnegiePrefix)
          && (StageNumber(stage, YearOldSuffix).Some? || StageNumber(stage, MonthOldSuffix).Some?))
  {
  }

  /** `filter_age(stage)` with its default table and drop set. */
  function DefaultFilterAge(stage: String): Option<int>
  {
    FilterAge(stage, DefaultConvertMap, DefaultDropSet())
  }

  /** The exact-match table is consulted before the drop set: a stage in both
      still gets its table value. */
  lemma ConvertMapBeforeDropSet(stage: String, convertMap: map<String, int>, dropSet: set<String>)
    requires stage in convertMap
    ensures FilterAge(stage, convertMap, dropSet) == Some(convertMap[stage])
  {
  }

  /** Every default table entry maps to its value, e.g. "third decade stage"
      to 35. */
  lemma DefaultConvertMapValues()
    ensures forall s | s in DefaultConvertMap :: DefaultFilterAge(s) == Some(DefaultConvertMap[s])
    ensures DefaultFilterAge("third decade stage") == Some(35)
  {
  }

  /** Every default table key starts with a lower-case letter. */
  lemma ConvertKeysStartLower(s: String)
    ensures s in DefaultConvertMap ==> s != [] && 'a' <= s[0] <= 'z'
  {
  }

  /** No default table key has an 'L'. */
  lemma ConvertKeysLackL(s: String)
    ensures s in DefaultConvertMap ==> 'L' !in s
  {
    if s in DefaultConvertMap {
      if s == "child stage (1-4 yo)" {
        assert 'L' !in "child stage (1-4 yo)";
      } else if s == "juvenile stage (5-14 yo)" {
        assert 'L' !in "juvenile stage (5-14 yo)";
      } else if s == "newborn stage (0-28 days)" {
        assert 'L' !in "newborn stage (0-28 days)";
      } else if s == "fourth decade stage" {
        assert 'L' !in "fourth decade stage";
      } else if s == "fifth decade stage" {
        assert 'L' !in "fifth decade stage";
      } else if s == "sixth decade stage" {
        assert 'L' !in "sixth decade stage";
      } else if s == "seventh decade stage" {
        assert 'L' !in "seventh decade stage";
      } else if s == "eighth decade stage" {
        assert 'L' !in "eighth decade stage";
      } else if s == "ninth decade stage" {
        assert 'L' !in "ninth decade stage";
      } else if s == "third decade stage" {
        assert 'L' !in "third decade stage";
      }
    }
  }

  /** No named drop stage is a table key. */
  lemma DropStagesNotConverted()
    ensures forall s | s in DropStages :: s !in DefaultConvertMap
  {
  }

  /** "Carnegie stage 09" to "Carnegie stage 23" are in the default drop set. */
  lemma CarnegieStagesDropped()
    ensures forall n | 9 <= n <= 23 :: CarnegiePrefix + " " + ZFill2(n) in DefaultDropSet()
  {
    forall n | 9 <= n <= 23 ensures CarnegiePrefix + " " + ZFill2(n) in DefaultDropSet() {
      assert CarnegieStages()[n - 9] == CarnegiePrefix + " " + ZFill2(n);
    }
  }

  /** Every default drop-set member starts with a letter. */
  lemma DropSetStartsWithLetter(s: String)
    ensures s in DefaultDropSet() ==> s != [] && (('a' <= s[0] <= 'z') || ('A' <= s[0] <= 'Z'))
  {
    if s in Order.Elems(CarnegieStages()) {
      var k :| 0 <= k < 15 && CarnegieStages()[k] == s;
      assert s[0] == CarnegiePrefix[0];
    } else if s in DropStages {
      DropStagesStartLower(s);
    }
  }

  /** The named stages all start with a lower-case letter. */
  lemma DropStagesStartLower(s: String)
    requires s in DropStages
    ensures s != [] && 'a' <= s[0] <= 'z'
  {
  }

  /** Members of the default drop set are unmappable. */
  lemma DropSetUnmappable(s: String)
    requires s in DefaultDropSet()
    ensures DefaultFilterAge(s) == None
  {
    ConvertKeysStartLower(s);
    DropStagesNotConverted();
    if s in Order.Elems(CarnegieStages()) {
      var k :| 0 <= k < 15 && CarnegieStages()[k] == s;
      assert s[0] == 'C';
    }
  }

  /** A stage containing "LMP month stage" is unmappable. */
  lemma LmpMonthStageUnmappable(s: String)
    requires Contains(s, LmpMonthStage)
    ensures DefaultFilterAge(s) == None
  {
    ContainsChar(s, LmpMonthStage, 'L');
    ConvertKeysLackL(s);
  }

  /** A stage starting with "Carnegie stage" is unmappable, in or out of the
      drop set. */
  lemma CarnegiePrefixUnmappable(s: String)
    requires StartsWith(s, CarnegiePrefix)
    ensures DefaultFilterAge(s) == None
  {
    assert s[0] == 'C';
    ConvertKeysStartLower(s);
  }

  /** The stage rules that come before the two regular expressions never
      fire on a stage starting with a digit that lacks "LMP month stage". */
  lemma DigitStageReachesPatterns(s: String)
    requires s != [] && IsDigit(s[0]) && !Contains(s, LmpMonthStage)
    ensures s !in DefaultConvertMap && s !in DefaultDropSet() && !StartsWith(s, CarnegiePrefix)
  {
    ConvertKeysStartLower(s);
    DropSetStartsWithLetter(s);
  }

  /** `re.match(r"(\d+)" + suffix, ...)` on a number followed by a text
      that starts with a non-digit: the match reads exactly that number, and
      succeeds exactly when the text starts with the suffix. */
  lemma StageNumberOfDigits(digits: String, tail: String, suffix: String)
    requires digits != [] && AllDigits(digits)
    requires tail != [] && !IsDigit(tail[0])
    ensures StageNumber(digits + tail, suffix) == if StartsWith(tail, suffix) then Some(DigitsValue(digits)) else None
  {
    LeadingDigitsOfDigitsThen(digits, tail);
    assert (digits + tail)[|digits|..] == tail;
    assert (digits + tail)[..|digits|] == digits;
  }

  /** A stage made of a number N then "-year-old stage" maps to N, whatever
      follows, unless it also contains "LMP month stage". */
  lemma YearOldStage(digits: String, tail: String)
    requires digits != [] && AllDigits(digits)
    requires StartsWith(tail, YearOldSuffix)
    requires !Contains(digits + tail, LmpMonthStage)
    ensures DefaultFilterAge(digits + tail) == Some(DigitsValue(digits))
  {
    var s := digits + tail;
    assert s[0] == digits[0];
    DigitStageReachesPatterns(s);
    assert tail[0] == YearOldSuffix[0];
    StageNumberOfDigits(digits, tail, YearOldSuffix);
  }

  /** A stage made of a number then "-month-old stage" maps to age 0: ages
      under a year truncate to zero. */
  lemma MonthOldStage(digits: String, tail: String)
    requires digits != [] && AllDigits(digits)
    requires StartsWith(tail, MonthOldSuffix)
    requires !Contains(digits + tail, LmpMonthStage)
    ensures DefaultFilterAge(digits + tail) == Some(0)
  {
    var s := digits + tail;
    assert s[0] == digits[0];
    DigitStageReachesPatterns(s);
    assert tail[0] == MonthOldSuffix[0];
    StageNumberOfDigits(digits, tail, YearOldSuffix);
    StageNumberOfDigits(digits, tail, MonthOldSuffix);
    assert tail[1] == MonthOldSuffix[1] == 'm';
    assert !StartsWith(tail, YearOldSuffix) by {
      assert YearOldSuffix[1] == 'y';
    }
  }

  /** "<n>-year-old stage" maps to n for every natural n, for example
      "25-year-old stage" to 25; "<n>-month-old stage" maps to 0. */
  lemma NumberedStages(n: nat)
    ensures DefaultFilterAge(NatToString(n) + YearOldSuffix) == Some(n)
    ensures DefaultFilterAge(NatToString(n) + MonthOldSuffix) == Some(0)
  {
    var d := NatToString(n);
    DigitsValueOfNatToString(n);
    forall suffix | suffix == YearOldSuffix || suffix == MonthOldSuffix
      ensures !Contains(d + suffix, LmpMonthStage)
    {
      forall i | 0 <= i < |d + suffix| ensures (d + suffix)[i] != 'L' {
        if i < |d| {
          assert IsDigit(d[i]);
        } else {
          assert (d + suffix)[i] == suffix[i - |d|];
        }
      }
      assert 'L' in LmpMonthStage;
      LackingCharNotContains(d + suffix, LmpMonthStage, 'L');
    }
    YearOldStage(d, YearOldSuffix);
    MonthOldStage(d, MonthOldSuffix);
  }

  /** Every age the default rules produce is a non-negative integer. */
  lemma DefaultFilterAgeNonNegative(s: String)
    requires DefaultFilterAge(s).Some?
    ensures DefaultFilterAge(s).value >= 0
  {
  }

  // ---- filter_obs_with_age_int ----

  const DevelopmentStage: String := "development_stage"
  const AgeInt: String := "age_int"

  /** The age a row's stage maps to; none when the stage is not text. */
  function StageAge(r: Row): Option<int>
  {
    if DevelopmentStage in r && r[DevelopmentStage].Str? then DefaultFilterAge(r[DevelopmentStage].s) else None
  }

  /** The row with its `age_int` cell set: the age, or missing. */
  function WithAgeInt(r: Row): Row
  {
    r[AgeInt := match StageAge(r) case Some(a) => Int(a) case None => Missing]
  }

  /** Annotating a row adds the `age_int` column and no other. */
  lemma WithAgeIntKeys(r: Row)
    ensures WithAgeInt(r).Keys == r.Keys + {AgeInt}
  {
  }

  /** Every row annotated, in order. */
  function AnnotateAll(rows: seq<Row>): (r: seq<Row>)
    ensures |r| == |rows| && forall i | 0 <= i < |rows| :: r[i] == WithAgeInt(rows[i])
  {
    seq(|rows|, i requires 0 <= i < |rows| => WithAgeInt(rows[i]))
  }

  predicate AgeNotNull(r: Row)
  {
    AgeInt in r && r[AgeInt] != Missing
  }

  /** `filter_obs_with_age_int`: on a copy, set `age_int` from each row's
      stage, then keep the rows whose `age_int` is not missing. A missing
      `development_stage` column raises KeyError; a stage that is not text
      makes `filter_age`'s substring test raise TypeError. */
  function FilterObsWithAgeInt(obs: Table): (r: Result<Table>)
    requires obs.Valid()
    ensures r.Err? <==>
      || DevelopmentStage !in obs.columns
      || exists i | 0 <= i < |obs.rows| :: !obs.rows[i][DevelopmentStage].Str?
  {
    if DevelopmentStage !in obs.columns then Err(KeyError(DevelopmentStage))
    else if exists i | 0 <= i < |obs.rows| :: !obs.rows[i][DevelopmentStage].Str? then Err(TypeError(DevelopmentStage))
    else
      var annotated := AnnotateAll(obs.rows);
      var columns := if AgeInt in obs.columns then obs.columns else obs.columns + [AgeInt];
      Ok(Table(columns, Filter(annotated, AgeNotNull)))
  }

  /** The result holds exactly the input rows, in their order, whose stage
      maps to an age, each with `age_int` set to that age and nothing else
      changed; the input is a value and stays as it was. */
  lemma FilterObsWithAgeIntSpec(obs: Table)
    requires obs.Valid()
    requires FilterObsWithAgeInt(obs).Ok?
    ensures var t := FilterObsWithAgeInt(obs).value;
      var ks := KeptIndices(AnnotateAll(obs.rows), AgeNotNull);
      && |t.rows| == |ks|
      && (forall j, j' :: 0 <= j < j' < |ks| ==> ks[j] < ks[j'])
      && (forall i :: 0 <= i < |obs.rows| ==> (i in ks <==> StageAge(obs.rows[i]).Some?))
      && (forall j :: 0 <= j < |ks| ==>
            && ks[j] < |obs.rows|
            && StageAge(obs.rows[ks[j]]).Some?
            && t.rows[j] == obs.rows[ks[j]][AgeInt := Int(StageAge(obs.rows[ks[j]]).value)])
  {
    FilterSpec(AnnotateAll(obs.rows), AgeNotNull);
  }

  /** The result is a well-formed table with an `age_int` column. */
  lemma FilterObsWithAgeIntValid(obs: Table)
    requires obs.Valid()
    requires FilterObsWithAgeInt(obs).Ok?
    ensures FilterObsWithAgeInt(obs).value.Valid()
    ensures AgeInt in FilterObsWithAgeInt(obs).value.columns
  {
    var t := FilterObsWithAgeInt(obs).value;
    assert t.rows == Filter(AnnotateAll(obs.rows), AgeNotNull);
    assert Order.Elems(t.columns) == Order.Elems(obs.columns) + {AgeInt};
    AnnotatedKeys(obs);
    if AgeInt !in obs.columns {
      Order.DistinctSnoc(obs.columns, AgeInt);
    }
  }

  /** Every kept annotated row has the input's columns plus `age_int`. */
  lemma AnnotatedKeys(obs: Table)
    requires obs.Valid()
    ensures forall r | r in Filter(AnnotateAll(obs.rows), AgeNotNull) :: r.Keys == Order.Elems(obs.columns) + {AgeInt}
  {
    var annotated := AnnotateAll(obs.rows);
    FilterMembers(annotated, AgeNotNull);
    forall r | r in Filter(annotated, AgeNotNull) ensures r.Keys == Order.Elems(obs.columns) + {AgeInt} {
      var i :| 0 <= i < |annotated| && annotated[i] == r;
      assert obs.rows[i] in obs.rows;
      WithAgeIntKeys(obs.rows[i]);
    }
  }

  // ---- summarize_obs ----

  const DatasetId: String := "dataset_id"
  /** Join-only identifier columns that are never summarised. */
  const ExcludedColumns: seq<String> := ["observation_joinid", "soma_joinid"]
  const QcCountColumns: set<String> := {"raw_sum", "nnz", "raw_mean_nnz", "raw_variance_nnz"}
  const CategoricalColumns: set<String> := {
    "cell_type", "assay", "tissue", "disease", "self_reported_ethnicity",
    "sex", "development_stage", "tissue_general", "suspension_type", "donor_id"
  }
  const OntologySuffix: String := "_ontology_term_id"

  datatype Aggregation = MedianOf | UniqueValues

  /** One entry of `summary_dict`: source column, output name, aggregation. */
  datatype PlanEntry = PlanEntry(column: String, output: String, how: Aggregation)

  /** Count-like columns are summarised by their median. */
  predicate IsCountColumn(c: String)
  {
    StartsWith(c, "n_") || c in QcCountColumns
  }

  function MedianName(c: String): String
  {
    "median_" + c
  }

  function UniqueName(c: String): String
  {
    "unique_" + c + "s_present"
  }

  /** The `if`/`elif` chain of the column loop. The three fallback branches
      are written out as the source has them, and they agree. */
  function Classify(c: String): PlanEntry
  {
    if IsCountColumn(c) then PlanEntry(c, MedianName(c), MedianOf)
    else if c in CategoricalColumns then PlanEntry(c, UniqueName(c), UniqueValues)
    else if EndsWith(c, OntologySuffix) then PlanEntry(c, UniqueName(c), UniqueValues)
    else PlanEntry(c, UniqueName(c), UniqueValues)
  }

  /** Every column is either a median column or a unique-values column. */
  lemma ClassifyIsTwoWay(c: String)
    ensures Classify(c) == if IsCountColumn(c) then PlanEntry(c, MedianName(c), MedianOf)
                           else PlanEntry(c, UniqueName(c), UniqueValues)
  {
  }

  /** The columns left after dropping the join-only identifiers, in order. */
  function WithoutExcluded(columns: seq<String>): (r: seq<String>)
    ensures forall c :: c in r <==> c in columns && c !in ExcludedColumns
  {
    if columns == [] then []
    else (if columns[0] in ExcludedColumns then [] else [columns[0]]) + WithoutExcluded(columns[1..])
  }

  /** The summary plan for the given (already filtered) columns. */
  function Plan(columns: seq<String>): (plan: seq<PlanEntry>)
    ensures forall e | e in plan :: e == Classify(e.column) && e.column in columns && e.column != DatasetId
  {
    if columns == [] then []
    else (if columns[0] == DatasetId then [] else [Classify(columns[0])]) + Plan(columns[1..])
  }

  function Outputs(plan: seq<PlanEntry>): (names: seq<String>)
    ensures |names| == |plan| && forall j :: 0 <= j < |plan| ==> names[j] == plan[j].output
  {
    if plan == [] then [] else [plan[0].output] + Outputs(plan[1..])
  }

  /** One aggregated cell. `MedianValue(None)` is the NaN median of a group
      with no values. */
  datatype Aggregate = MedianValue(median: Option<real>) | JoinedValues(text: String)

  /** One summary row: the group key, then one cell per plan entry. */
  datatype SummaryRow = SummaryRow(datasetId: Value, aggregates: seq<Aggregate>)

  datatype Summary = Summary(columns: seq<String>, rows: seq<SummaryRow>)

  function IntsOf(vs: seq<Value>): seq<int>
  {
    if vs == [] then []
    else (if vs[0].Int? then [vs[0].i] else []) + IntsOf(vs[1..])
  }

  /** The integers of a list of cells, each as often as its cell occurs. */
  lemma {:induction false} IntsOfCounts(vs: seq<Value>)
    ensures forall x :: multiset(IntsOf(vs))[x] == multiset(vs)[Int(x)]
  {
    if vs != [] {
      assert vs == [vs[0]] + vs[1..];
      IntsOfCounts(vs[1..]);
    }
  }

  function ShowAll(vs: seq<Value>): (r: seq<String>)
    ensures |r| == |vs| && forall i :: 0 <= i < |vs| ==> r[i] == Show(vs[i])
  {
    if vs == [] then [] else [Show(vs[0])] + ShowAll(vs[1..])
  }

  /** `", ".join(sorted(set(map(str, x.dropna().unique()))))`. */
  function UniqueJoin(vs: seq<Value>): String
  {
    Join(Order.SortedUnique(ShowAll(DropMissing(vs)), StrLess), ", ")
  }

  function Aggregated(vs: seq<Value>, how: Aggregation): Aggregate
  {
    match how
    case MedianOf => MedianValue(Median(IntsOf(DropMissing(vs))))
    case UniqueValues => JoinedValues(UniqueJoin(vs))
  }

  predicate InGroup(key: Value, r: Row)
  {
    DatasetId in r && r[DatasetId] == key
  }

  /** The row test of the group `key`. */
  function InGroupOf(key: Value): Row -> bool
  {
    r => InGroup(key, r)
  }

  /** The values of column `c` in the rows of the group `key`. */
  function GroupValues(rows: seq<Row>, key: Value, c: String): seq<Value>
    requires forall r | r in rows :: c in r
  {
    FilterMembers(rows, InGroupOf(key));
    Column(Filter(rows, InGroupOf(key)), c)
  }

  /** The group keys in the order `groupby` returns them: the distinct
      non-missing dataset ids, sorted. */
  function GroupKeys(obs: Table): seq<Value>
    requires obs.Valid() && DatasetId in obs.columns
  {
    Order.SortedUnique(DropMissing(Column(obs.rows, DatasetId)), ValueLess)
  }

  /** Column `c` holds text in a row that belongs to a group. Rows whose
      `dataset_id` is missing belong to none: `groupby` drops them. */
  predicate GroupedText(obs: Table, c: String)
    requires obs.Valid() && DatasetId in obs.columns && c in obs.columns
  {
    exists i | 0 <= i < |obs.rows| :: obs.rows[i][DatasetId] != Missing && obs.rows[i][c].Str?
  }

  /** pandas' median, taken group by group, raises TypeError on a group
      holding text. */
  predicate MedianOfText(obs: Table, plan: seq<PlanEntry>)
    requires obs.Valid() && DatasetId in obs.columns
    requires forall e | e in plan :: e.column in obs.columns
  {
    exists j | 0 <= j < |plan| :: plan[j].how == MedianOf && GroupedText(obs, plan[j].column)
  }

  /** The first median column of the plan that holds grouped text: the
      column whose aggregation raises. */
  function TextMedianColumn(obs: Table, plan: seq<PlanEntry>): (c: String)
    requires obs.Valid() && DatasetId in obs.columns
    requires forall e | e in plan :: e.column in obs.columns
    requires MedianOfText(obs, plan)
    ensures exists j | 0 <= j < |plan| :: plan[j].how == MedianOf && plan[j].column == c
    ensures c in obs.columns && GroupedText(obs, c)
  {
    if plan[0].how == MedianOf && GroupedText(obs, plan[0].column) then plan[0].column
    else
      assert MedianOfText(obs, plan[1..]) by {
        var j :| 0 <= j < |plan| && plan[j].how == MedianOf && GroupedText(obs, plan[j].column);
        assert plan[1..][j - 1] == plan[j];
      }
      var c := TextMedianColumn(obs, plan[1..]);
      var j :| 0 <= j < |plan| - 1 && plan[1..][j].how == MedianOf && plan[1..][j].column == c;
      assert plan[j + 1] == plan[1..][j];
      c
  }

  /** `obs.groupby("dataset_id").agg(agg_dict).reset_index().rename(...)`
      for the plan the column loop built. */
  function GroupAndAggregate(obs: Table, plan: seq<PlanEntry>): (s: Summary)
    requires obs.Valid() && DatasetId in obs.columns
    requires forall e | e in plan :: e.column in obs.columns
    ensures s.columns == [DatasetId] + Outputs(plan)
    ensures |s.rows| == |GroupKeys(obs)|
    ensures forall i | 0 <= i < |s.rows| ::
      s.rows[i].datasetId == GroupKeys(obs)[i] && |s.rows[i].aggregates| == |plan|
  {
    Summary([DatasetId] + Outputs(plan), GroupRows(obs, plan, GroupKeys(obs)))
  }

  /** The summary rows of the groups `keys`, in order. */
  function GroupRows(obs: Table, plan: seq<PlanEntry>, keys: seq<Value>): (rows: seq<SummaryRow>)
    requires obs.Valid()
    requires forall e | e in plan :: e.column in obs.columns
    ensures |rows| == |keys|
    ensures forall i | 0 <= i < |keys| :: rows[i] == GroupRow(obs, plan, keys[i])
  {
    if keys == [] then [] else [GroupRow(obs, plan, keys[0])] + GroupRows(obs, plan, keys[1..])
  }

  /** The summary row of the group `key`: one aggregate per plan entry. */
  function GroupRow(obs: Table, plan: seq<PlanEntry>, key: Value): (r: SummaryRow)
    requires obs.Valid()
    requires forall e | e in plan :: e.column in obs.columns
    ensures r.datasetId == key && |r.aggregates| == |plan|
  {
    SummaryRow(key, seq(|plan|, j requires 0 <= j < |plan| =>
      Aggregated(GroupValues(obs.rows, key, plan[j].column), plan[j].how)))
  }

  /** What `summarize_obs` returns for `obs`. A table without a
      `dataset_id` column raises KeyError. */
  function Summarize(obs: Table): Result<Summary>
    requires obs.Valid()
  {
    var kept := WithoutExcluded(obs.columns);
    if DatasetId !in kept then Err(KeyError(DatasetId))
    else
      var plan := Plan(kept);
      if MedianOfText(obs, plan) then Err(TypeError(TextMedianColumn(obs, plan)))
      else Ok(GroupAndAggregate(obs, plan))
  }

  /** `summarize_obs`: drop the join-only columns, build the aggregation plan
      column by column, then group and aggregate. */
  method SummarizeObs(obs: Table) returns (r: Result<Summary>)
    requires obs.Valid()
    ensures r == Summarize(obs)
  {
    var kept := WithoutExcluded(obs.columns);
    var plan := BuildPlan(kept);
    if DatasetId !in kept {
      return Err(KeyError(DatasetId));
    }
    if MedianOfText(obs, plan) {
      return Err(TypeError(TextMedianColumn(obs, plan)));
    }
    r := Ok(GroupAndAggregate(obs, plan));
  }

  /** The column loop of `summarize_obs`, filling `summary_dict` in column
      order. */
  method BuildPlan(columns: seq<String>) returns (plan: seq<PlanEntry>)
    ensures plan == Plan(columns)
  {
    plan := [];
    var i := 0;
    while i < |columns|
      invariant 0 <= i <= |columns|
      invariant plan == Plan(columns[..i])
    {
      var col := columns[i];
      if col != DatasetId {
        plan := plan + [Classify(col)];
      }
      PlanSnoc(columns[..i], col);
      assert columns[..i + 1] == columns[..i] + [col];
      i := i + 1;
    }
    assert columns[..i] == columns;
  }

  /** The plan of one more column extends the plan of the others. */
  lemma {:induction false} PlanSnoc(columns: seq<String>, c: String)
    ensures Plan(columns + [c]) == Plan(columns) + (if c == DatasetId then [] else [Classify(c)])
  {
    if columns != [] {
      assert (columns + [c])[1..] == columns[1..] + [c];
      PlanSnoc(columns[1..], c);
    } else {
      assert [c][1..] == [];
    }
  }

  // ---- what the summary holds ----

  /** An output name starts with 'm' for a median column, 'u' otherwise. */
  lemma OutputNameHead(c: String)
    ensures Classify(c).output != [] && Classify(c).output[0] == if IsCountColumn(c) then 'm' else 'u'
  {
  }

  /** Output names identify their source column: no two columns share an
      output name. */
  lemma OutputNameInjective(c: String, d: String)
    requires Classify(c).output == Classify(d).output
    ensures c == d
  {
    var n := Classify(c).output;
    OutputNameHead(c);
    OutputNameHead(d);
    if IsCountColumn(c) {
      assert c == n[7..] && d == n[7..];
    } else {
      assert c == n[7..|n| - 9] && d == n[7..|n| - 9];
    }
  }

  /** No output name is the key column's name. */
  lemma OutputNameIsNotKey(c: String)
    ensures Classify(c).output != DatasetId
  {
    assert Classify(c).output[0] != DatasetId[0];
  }

  lemma {:induction false} PlanCovers(columns: seq<String>, c: String)
    requires c in columns && c != DatasetId
    ensures Classify(c) in Plan(columns)
  {
    if columns[0] != c {
      PlanCovers(columns[1..], c);
    }
  }

  lemma {:induction false} WithoutExcludedDistinct(columns: seq<String>)
    requires Order.Distinct(columns)
    ensures Order.Distinct(WithoutExcluded(columns))
  {
    if columns != [] {
      var r := WithoutExcluded(columns);
      var rest := WithoutExcluded(columns[1..]);
      WithoutExcludedDistinct(columns[1..]);
      assert columns[0] !in columns[1..];
      assert columns[0] !in rest;
      if columns[0] in ExcludedColumns {
        assert r == rest;
      } else {
        assert r == [columns[0]] + rest;
        forall i, j | 0 <= i < j < |r| ensures r[i] != r[j] {
          assert r[j] == rest[j - 1];
          if i == 0 {
            assert r[0] == columns[0];
            assert rest[j - 1] in rest;
          } else {
            assert r[i] == rest[i - 1];
            assert 0 <= i - 1 < j - 1 < |rest|;
            assert rest[i - 1] != rest[j - 1];
          }
        }
      }
    }
  }

  /** No two plan entries summarise the same column. */
  predicate DistinctColumns(plan: seq<PlanEntry>)
  {
    forall i, j :: 0 <= i < j < |plan| ==> plan[i].column != plan[j].column
  }

  /** An entry for a column no other entry summarises keeps the columns
      distinct. */
  lemma DistinctColumnsCons(e: PlanEntry, rest: seq<PlanEntry>)
    requires DistinctColumns(rest)
    requires forall x | x in rest :: x.column != e.column
    ensures DistinctColumns([e] + rest)
  {
    var plan := [e] + rest;
    forall i, j | 0 <= i < j < |plan| ensures plan[i].column != plan[j].column {
      assert plan[j] == rest[j - 1];
      if i == 0 {
        assert rest[j - 1] in rest;
      } else {
        assert plan[i] == rest[i - 1];
      }
    }
  }

  lemma {:induction false} PlanDistinct(columns: seq<String>)
    requires Order.Distinct(columns)
    ensures DistinctColumns(Plan(columns))
  {
    if columns != [] {
      var tail := columns[1..];
      PlanDistinct(tail);
      if columns[0] != DatasetId {
        assert columns[0] !in tail by {
          forall k | 0 <= k < |tail| ensures tail[k] != columns[0] {
            assert tail[k] == columns[k + 1];
          }
        }
        DistinctColumnsCons(Classify(columns[0]), Plan(tail));
      }
    }
  }

  /** A column has an output name in the plan exactly when it is neither
      join-only nor the key. */
  lemma PlanOutputsCover(columns: seq<String>)
    ensures var outs := Outputs(Plan(WithoutExcluded(columns)));
      forall c | c in columns :: Classify(c).output in outs <==> c !in ExcludedColumns && c != DatasetId
  {
    var kept := WithoutExcluded(columns);
    var plan := Plan(kept);
    var outs := Outputs(plan);
    forall c | c in columns
      ensures Classify(c).output in outs <==> c !in ExcludedColumns && c != DatasetId
    {
      if c !in ExcludedColumns && c != DatasetId {
        PlanCovers(kept, c);
        var j :| 0 <= j < |plan| && plan[j] == Classify(c);
        assert outs[j] == Classify(c).output;
      }
      if Classify(c).output in outs {
        var j :| 0 <= j < |outs| && outs[j] == Classify(c).output;
        assert plan[j] in plan;
        OutputNameInjective(c, plan[j].column);
      }
    }
  }

  /** Every output name comes from a column that is neither join-only nor
      the key. */
  lemma PlanOutputsFrom(columns: seq<String>)
    ensures var outs := Outputs(Plan(WithoutExcluded(columns)));
      forall n | n in outs :: exists c | c in columns :: c !in ExcludedColumns && c != DatasetId && n == Classify(c).output
  {
    var plan := Plan(WithoutExcluded(columns));
    var outs := Outputs(plan);
    forall n | n in outs
      ensures exists c | c in columns :: c !in ExcludedColumns && c != DatasetId && n == Classify(c).output
    {
      var j :| 0 <= j < |outs| && outs[j] == n;
      assert plan[j] in plan;
    }
  }

  /** The key and the output names are all distinct. */
  lemma PlanOutputsDistinct(columns: seq<String>)
    requires Order.Distinct(columns)
    ensures Order.Distinct([DatasetId] + Outputs(Plan(WithoutExcluded(columns))))
  {
    var kept := WithoutExcluded(columns);
    WithoutExcludedDistinct(columns);
    PlanDistinct(kept);
    OutputsDistinct(Plan(kept));
  }

  /** Entries for distinct columns have distinct output names, none of them
      the key's. */
  lemma OutputsDistinct(plan: seq<PlanEntry>)
    requires DistinctColumns(plan)
    requires forall e | e in plan :: e == Classify(e.column)
    ensures Order.Distinct([DatasetId] + Outputs(plan))
  {
    var outs := Outputs(plan);
    var cs := [DatasetId] + outs;
    forall i, j | 0 <= i < j < |cs| ensures cs[i] != cs[j] {
      var d := plan[j - 1];
      assert d in plan && cs[j] == d.output;
      if i == 0 {
        OutputNameIsNotKey(d.column);
      } else {
        var c := plan[i - 1];
        assert c in plan && cs[i] == c.output;
        if c.output == d.output {
          OutputNameInjective(c.column, d.column);
        }
      }
    }
  }

  /** The output names of the plan for `columns`. */
  lemma PlanOutputsSpec(columns: seq<String>)
    requires Order.Distinct(columns)
    ensures var cs := [DatasetId] + Outputs(Plan(WithoutExcluded(columns)));
      && (forall c | c in columns :: Classify(c).output in cs[1..] <==> c !in ExcludedColumns && c != DatasetId)
      && (forall n | n in cs[1..] :: exists c | c in columns :: c !in ExcludedColumns && c != DatasetId && n == Classify(c).output)
      && Order.Distinct(cs)
  {
    var outs := Outputs(Plan(WithoutExcluded(columns)));
    assert ([DatasetId] + outs)[1..] == outs;
    PlanOutputsCover(columns);
    PlanOutputsFrom(columns);
    PlanOutputsDistinct(columns);
  }

  /** The summary's columns: `dataset_id` first, as the group key, then one
      output per column of the input other than `dataset_id` and the two
      join-only identifiers, and no other; no output is derived from
      `observation_joinid` or `soma_joinid`; all names are distinct. */
  lemma SummaryColumnsSpec(obs: Table)
    requires obs.Valid()
    requires Summarize(obs).Ok?
    ensures var cs := Summarize(obs).value.columns;
      && |cs| >= 1 && cs[0] == DatasetId
      && (forall c | c in obs.columns :: Classify(c).output in cs[1..] <==> c !in ExcludedColumns && c != DatasetId)
      && (forall n | n in cs[1..] :: exists c | c in obs.columns :: c !in ExcludedColumns && c != DatasetId && n == Classify(c).output)
      && Order.Distinct(cs)
  {
    assert Summarize(obs).value.columns == [DatasetId] + Outputs(Plan(WithoutExcluded(obs.columns)));
    PlanOutputsSpec(obs.columns);
  }

  /** Some row with a `dataset_id` holds text in a count-like column that
      is not excluded. */
  predicate HasTextCountCell(obs: Table)
    requires obs.Valid() && DatasetId in obs.columns
  {
    exists c | c in obs.columns :: c !in ExcludedColumns && IsCountColumn(c) && GroupedText(obs, c)
  }

  /** A text cell, in a row with a `dataset_id`, of a kept count-like
      column makes the median fail. */
  lemma TextCountCellFails(obs: Table, c: String, k: int)
    requires obs.Valid() && DatasetId in obs.columns
    requires c in obs.columns && c !in ExcludedColumns && IsCountColumn(c)
    requires 0 <= k < |obs.rows| && obs.rows[k][DatasetId] != Missing && obs.rows[k][c].Str?
    ensures MedianOfText(obs, Plan(WithoutExcluded(obs.columns)))
  {
    var plan := Plan(WithoutExcluded(obs.columns));
    assert !IsCountColumn(DatasetId) by {
      assert DatasetId[0] == 'd';
    }
    PlanCovers(WithoutExcluded(obs.columns), c);
    var j :| 0 <= j < |plan| && plan[j] == Classify(c);
    assert plan[j].how == MedianOf && GroupedText(obs, plan[j].column);
  }

  /** The median fails only on grouped text in a kept count-like column,
      and the error names that column. */
  lemma MedianFailsOnTextCountCell(obs: Table)
    requires obs.Valid() && DatasetId in obs.columns
    requires MedianOfText(obs, Plan(WithoutExcluded(obs.columns)))
    ensures var c := TextMedianColumn(obs, Plan(WithoutExcluded(obs.columns)));
      c in obs.columns && c !in ExcludedColumns && IsCountColumn(c) && GroupedText(obs, c)
    ensures HasTextCountCell(obs)
  {
    var plan := Plan(WithoutExcluded(obs.columns));
    var c := TextMedianColumn(obs, plan);
    var j :| 0 <= j < |plan| && plan[j].how == MedianOf && plan[j].column == c;
    assert plan[j] in plan;
    assert c in obs.columns && c !in ExcludedColumns && IsCountColumn(c);
  }

  /** Grouped text in a kept count-like column makes `summarize_obs` raise. */
  lemma SummarizeRaisesOnText(obs: Table)
    requires obs.Valid() && DatasetId in obs.columns
    requires HasTextCountCell(obs)
    ensures Summarize(obs).Err?
  {
    var c :| c in obs.columns && c !in ExcludedColumns && IsCountColumn(c) && GroupedText(obs, c);
    var k :| 0 <= k < |obs.rows| && obs.rows[k][DatasetId] != Missing && obs.rows[k][c].Str?;
    TextCountCellFails(obs, c, k);
    assert DatasetId in WithoutExcluded(obs.columns);
  }

  /** With a `dataset_id` column, `summarize_obs` raises only TypeError, and
      only for grouped text in a kept count-like column, which it names. */
  lemma SummarizeTextError(obs: Table)
    requires obs.Valid() && DatasetId in obs.columns
    requires Summarize(obs).Err?
    ensures Summarize(obs).error.TypeError?
    ensures var c := Summarize(obs).error.what;
      c in obs.columns && c !in ExcludedColumns && IsCountColumn(c) && GroupedText(obs, c)
  {
    var plan := Plan(WithoutExcluded(obs.columns));
    assert DatasetId in WithoutExcluded(obs.columns);
    assert MedianOfText(obs, plan);
    MedianFailsOnTextCountCell(obs);
  }

  /** Text in `raw_sum` on a row without a `dataset_id` belongs to no
      group, so it does not make `summarize_obs` raise. */
  lemma UngroupedTextIgnored()
    ensures var obs := Table([DatasetId, "raw_sum"], [
        map[DatasetId := Missing, "raw_sum" := Str("x")],
        map[DatasetId := Str("d"), "raw_sum" := Int(5)]]);
      obs.Valid() && Summarize(obs).Ok?
  {
    var obs := Table([DatasetId, "raw_sum"], [
        map[DatasetId := Missing, "raw_sum" := Str("x")],
        map[DatasetId := Str("d"), "raw_sum" := Int(5)]]);
    assert obs.Valid();
    assert !HasTextCountCell(obs) by {
      assert !IsCountColumn(DatasetId) by {
        assert DatasetId[0] == 'd';
      }
      assert !GroupedText(obs, "raw_sum") by {
        assert obs.rows[0][DatasetId] == Missing && obs.rows[1]["raw_sum"] == Int(5);
      }
    }
    SummarizeErrors(obs);
  }

  /** `summarize_obs` raises exactly when `dataset_id` is absent (KeyError)
      or when a count-like column it keeps holds text in a row that has a
      `dataset_id` (TypeError). */
  lemma SummarizeErrors(obs: Table)
    requires obs.Valid()
    ensures Summarize(obs) == Err(KeyError(DatasetId)) <==> DatasetId !in obs.columns
    ensures Summarize(obs).Err? <==> DatasetId !in obs.columns || HasTextCountCell(obs)
  {
    assert DatasetId in WithoutExcluded(obs.columns) <==> DatasetId in obs.columns;
    if DatasetId in obs.columns {
      if HasTextCountCell(obs) {
        SummarizeRaisesOnText(obs);
      }
      if Summarize(obs).Err? {
        SummarizeTextError(obs);
        var c := Summarize(obs).error.what;
        assert c in obs.columns && c !in ExcludedColumns && IsCountColumn(c) && GroupedText(obs, c);
      }
    }
  }

  /** `keys` are the groups of `obs` as `groupby` yields them: strictly
      ascending, each the non-missing `dataset_id` of some row, and every
      row's non-missing `dataset_id` among them. */
  ghost predicate GroupsOf(obs: Table, keys: seq<Value>)
    requires obs.Valid() && DatasetId in obs.columns
  {
    && (forall i, j :: 0 <= i < j < |keys| ==> ValueLess(keys[i], keys[j]))
    && (forall i | 0 <= i < |keys| ::
          keys[i] != Missing && exists k | 0 <= k < |obs.rows| :: obs.rows[k][DatasetId] == keys[i])
    && (forall k | 0 <= k < |obs.rows| && obs.rows[k][DatasetId] != Missing :: obs.rows[k][DatasetId] in keys)
  }

  /** The keys of summary rows, in order. */
  function RowKeys(rows: seq<SummaryRow>): (keys: seq<Value>)
    ensures |keys| == |rows| && forall i | 0 <= i < |rows| :: keys[i] == rows[i].datasetId
  {
    if rows == [] then [] else [rows[0].datasetId] + RowKeys(rows[1..])
  }

  /** The group keys are the distinct non-missing ids, ascending. */
  lemma GroupKeysSpec(obs: Table)
    requires obs.Valid() && DatasetId in obs.columns
    ensures GroupsOf(obs, GroupKeys(obs))
  {
    var ids := Column(obs.rows, DatasetId);
    var keys := GroupKeys(obs);
    GroupKeysSorted(obs);
    GroupKeysMembers(obs);
    forall i | 0 <= i < |keys|
      ensures keys[i] != Missing && exists k | 0 <= k < |obs.rows| :: obs.rows[k][DatasetId] == keys[i]
    {
      assert keys[i] in keys;
      var k :| 0 <= k < |ids| && ids[k] == keys[i];
    }
    forall k | 0 <= k < |obs.rows| && obs.rows[k][DatasetId] != Missing
      ensures obs.rows[k][DatasetId] in keys
    {
      assert ids[k] == obs.rows[k][DatasetId];
    }
  }

  /** The group keys are strictly ascending. */
  lemma GroupKeysSorted(obs: Table)
    requires obs.Valid() && DatasetId in obs.columns
    ensures var keys := GroupKeys(obs);
      forall i, j :: 0 <= i < j < |keys| ==> ValueLess(keys[i], keys[j])
  {
    ValueLessIsStrictTotalOrder();
    Order.SortedUniqueSpec(DropMissing(Column(obs.rows, DatasetId)), ValueLess);
  }

  /** A value is a group key exactly when it is a non-missing id. */
  lemma GroupKeysMembers(obs: Table)
    requires obs.Valid() && DatasetId in obs.columns
    ensures forall v :: v in GroupKeys(obs) <==> v != Missing && v in Column(obs.rows, DatasetId)
  {
    var present := DropMissing(Column(obs.rows, DatasetId));
    var keys := GroupKeys(obs);
    ValueLessIsStrictTotalOrder();
    Order.SortedUniqueSpec(present, ValueLess);
    forall v ensures v in keys <==> v in present {
      assert v in keys <==> v in Order.Elems(keys);
      assert v in present <==> v in Order.Elems(present);
    }
  }

  /** A summary that succeeds is the grouping of the table by the plan of
      its kept columns. */
  lemma SummarizeOk(obs: Table)
    requires obs.Valid()
    requires Summarize(obs).Ok?
    ensures DatasetId in obs.columns
    ensures Summarize(obs).value == GroupAndAggregate(obs, Plan(WithoutExcluded(obs.columns)))
  {
  }

  /** One row per group, in key order, each with one cell per plan entry. */
  lemma GroupRowsSpec(obs: Table, plan: seq<PlanEntry>)
    requires obs.Valid() && DatasetId in obs.columns
    requires forall e | e in plan :: e.column in obs.columns
    ensures var s := GroupAndAggregate(obs, plan);
      && GroupsOf(obs, RowKeys(s.rows))
      && forall i | 0 <= i < |s.rows| :: |s.rows[i].aggregates| == |s.columns| - 1
  {
    var s := GroupAndAggregate(obs, plan);
    GroupKeysSpec(obs);
    assert RowKeys(s.rows) == GroupKeys(obs);
  }

  /** One summary row per distinct non-missing `dataset_id`, in ascending
      key order, each with one cell per output column. */
  lemma SummaryRowsSpec(obs: Table)
    requires obs.Valid()
    requires Summarize(obs).Ok?
    ensures DatasetId in obs.columns
    ensures var s := Summarize(obs).value;
      && GroupsOf(obs, RowKeys(s.rows))
      && forall i | 0 <= i < |s.rows| :: |s.rows[i].aggregates| == |s.columns| - 1
  {
    SummarizeOk(obs);
    GroupRowsSpec(obs, Plan(WithoutExcluded(obs.columns)));
  }

  /** The group's values of column `c` are the values of `c` in exactly the
      rows whose `dataset_id` is the key. */
  lemma GroupValuesSpec(rows: seq<Row>, key: Value, c: String)
    requires forall r | r in rows :: c in r
    ensures forall v :: v in GroupValues(rows, key, c) <==> exists r | r in rows :: InGroup(key, r) && r[c] == v
    ensures var vs, ks := GroupValues(rows, key, c), KeptIndices(rows, InGroupOf(key));
      && |vs| == |ks|
      && (forall j | 0 <= j < |ks| :: ks[j] < |rows| && vs[j] == rows[ks[j]][c])
      && (forall j, j' | 0 <= j < j' < |ks| :: ks[j] < ks[j'])
      && (forall i | 0 <= i < |rows| :: i in ks <==> InGroup(key, rows[i]))
  {
    var f := Filter(rows, InGroupOf(key));
    FilterMembers(rows, InGroupOf(key));
    ColumnMembers(f, c);
    FilterSpec(rows, InGroupOf(key));
  }

  /** The median of a group's integer values is the median of any list that
      holds each integer value of the group as often as the group does. */
  lemma GroupMedian(vs: seq<Value>, ns: seq<int>)
    requires forall x :: multiset(ns)[x] == multiset(vs)[Int(x)]
    ensures Median(IntsOf(DropMissing(vs))) == Median(ns)
  {
    var kept := DropMissing(vs);
    DropMissingCounts(vs);
    IntsOfCounts(kept);
    assert multiset(IntsOf(kept)) == multiset(ns) by {
      forall x ensures multiset(IntsOf(kept))[x] == multiset(ns)[x] {
        assert multiset(kept)[Int(x)] == multiset(vs)[Int(x)];
      }
    }
    MedianPermutationInvariant(IntsOf(kept), ns);
  }

  /** The text of the non-missing values, as a set. */
  function ShownValues(vs: seq<Value>): set<String>
  {
    set v | v in vs && v != Missing :: Show(v)
  }

  /** `UniqueJoin` joins, with ", ", the one strictly ascending list of the
      distinct texts of the non-missing values. */
  lemma UniqueJoinSpec(vs: seq<Value>, u: seq<String>)
    requires Order.StrictlySorted(u, StrLess)
    requires Order.Elems(u) == ShownValues(vs)
    ensures UniqueJoin(vs) == Join(u, ", ")
  {
    var shown := ShowAll(DropMissing(vs));
    StrLessIsStrictTotalOrder();
    Order.SortedUniqueSpec(shown, StrLess);
    ShownElems(vs);
    Order.StrictlySortedUnique(Order.SortedUnique(shown, StrLess), u, StrLess);
  }

  /** The texts `ShowAll` lists for the non-missing values are the shown
      values. */
  lemma ShownElems(vs: seq<Value>)
    ensures Order.Elems(ShowAll(DropMissing(vs))) == ShownValues(vs)
  {
    var kept := DropMissing(vs);
    var shown := ShowAll(kept);
    forall t | t in shown ensures t in ShownValues(vs) {
      var i :| 0 <= i < |shown| && shown[i] == t;
      assert kept[i] in kept;
    }
    forall t | t in ShownValues(vs) ensures t in shown {
      var v :| v in vs && v != Missing && Show(v) == t;
      assert v in kept;
      var i :| 0 <= i < |kept| && kept[i] == v;
      assert shown[i] == t;
    }
  }

  /** The distinct texts of `["B", "A", "B"]`. */
  lemma ShownExample()
    ensures ShownValues([Str("B"), Str("A"), Str("B")]) == Order.Elems(["A", "B"])
  {
    var vs := [Str("B"), Str("A"), Str("B")];
    ShownElems(vs);
    assert DropMissing(vs) == vs;
    assert ShowAll(vs) == ["B", "A", "B"];
    assert Order.Elems(["B", "A", "B"]) == Order.Elems(["A", "B"]);
  }

  /** `["A", "B"]` is strictly ascending. */
  lemma SortedExample()
    ensures Order.StrictlySorted(["A", "B"], StrLess)
  {
    assert StrLess("A", "B");
  }

  /** `", ".join(["A", "B"])`. */
  lemma JoinExample()
    ensures Join(["A", "B"], ", ") == "A, B"
  {
    assert Join(["A", "B"], ", ") == "A" + ", " + Join(["B"], ", ");
  }

  /** `["B", "A", "B"]` summarises to "A, B". */
  lemma UniqueJoinExample()
    ensures UniqueJoin([Str("B"), Str("A"), Str("B")]) == "A, B"
  {
    var vs := [Str("B"), Str("A"), Str("B")];
    ShownExample();
    SortedExample();
    UniqueJoinSpec(vs, ["A", "B"]);
    JoinExample();
  }

  /** Each summary cell: for a count-like column, the median of the group's
      integer values (none when the group has no value); for any other
      column, the ", "-joined ascending list of the distinct texts of the
      group's non-missing values. */
  lemma SummaryCellSpec(obs: Table, i: int, j: int)
    requires obs.Valid()
    requires Summarize(obs).Ok?
    requires 0 <= i < |Summarize(obs).value.rows|
    requires 0 <= j < |Summarize(obs).value.columns| - 1
    ensures var s := Summarize(obs).value;
      var plan := Plan(WithoutExcluded(obs.columns));
      var c := plan[j].column;
      var vs := GroupValues(obs.rows, s.rows[i].datasetId, c);
      && c in obs.columns && s.columns[j + 1] == Classify(c).output
      && (IsCountColumn(c) ==>
            forall ns | (forall x :: multiset(ns)[x] == multiset(vs)[Int(x)]) ::
              s.rows[i].aggregates[j] == MedianValue(Median(ns)))
      && (!IsCountColumn(c) ==>
            forall u | Order.StrictlySorted(u, StrLess) && Order.Elems(u) == ShownValues(vs) ::
              s.rows[i].aggregates[j] == JoinedValues(Join(u, ", ")))
  {
    var s := Summarize(obs).value;
    var plan := Plan(WithoutExcluded(obs.columns));
    SummarizeOk(obs);
    assert plan[j] in plan;
    var c := plan[j].column;
    var key := s.rows[i].datasetId;
    var vs := GroupValues(obs.rows, key, c);
    assert s.rows[i] == GroupRow(obs, plan, key);
    assert s.rows[i].aggregates[j] == Aggregated(vs, plan[j].how);
    ClassifyIsTwoWay(c);
    forall u | Order.StrictlySorted(u, StrLess) && Order.Elems(u) == ShownValues(vs) {
      UniqueJoinSpec(vs, u);
    }
    forall ns | (forall x :: multiset(ns)[x] == multiset(vs)[Int(x)]) {
      GroupMedian(vs, ns);
    }
  }

  /** The values `[10, 20, 30]` have median 20 and `[2000, 4000]` median
      3000. */
  lemma MedianExamples()
    ensures Median([10, 20, 30]) == Some(20.0)
    ensures Median([2000, 4000]) == Some(3000.0)
  {
    SortedListSortsToItself([10, 20, 30]);
    SortedListSortsToItself([2000, 4000]);
  }

  /** Sorting an ascending list of integers leaves it as it is. */
  lemma SortedListSortsToItself(xs: seq<int>)
    requires forall i, j :: 0 <= i < j < |xs| ==> xs[i] < xs[j]
    ensures Order.Sort(xs, IntLess) == xs
  {
    IntLessIsStrictTotalOrder();
    Order.SortSorted(xs, IntLess);
    Order.SortedDetermined(Order.Sort(xs, IntLess), xs, IntLess);
  }
}
