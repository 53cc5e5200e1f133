/** Census metadata checks (src/seafront/meta.py): dropping experiments whose
    median `raw_sum` is below a threshold, and checking that three sampled
    datasets share one gene list before saving it. The census gene-list
    lookup is a parameter `genesOf`, and the random sample is the caller's
    choice of three positions. */
module Meta {
  import opened Wrappers
  import opened Strings
  import opened Sequences
  import opened Tables
  import opened Standardize
  import Order

  // ---- filter_experiments_by_median_raw_sum ----

  const ExperimentColumn: String := "experiment"
  const RawSum: String := "raw_sum"
  const DefaultThreshold: int := 3000

  predicate InExperiment(e: Value, r: Row)
  {
    ExperimentColumn in r && r[ExperimentColumn] == e
  }

  /** The median `raw_sum` of the rows of experiment `e`, skipping missing
      values; none when the experiment has no value. */
  function ExperimentMedian(rows: seq<Row>, e: Value): Option<real>
    requires forall r | r in rows :: RawSum in r
  {
    FilterMembers(rows, InExperimentOf(e));
    Median(IntsOf(DropMissing(Column(Filter(rows, InExperimentOf(e)), RawSum))))
  }

  /** The row test of experiment `e`. */
  function InExperimentOf(e: Value): Row -> bool
  {
    r => InExperiment(e, r)
  }

  /** A row is kept when its experiment is not missing and that
      experiment's median reaches the threshold; a missing median (NaN)
      never does. */
  predicate Passes(rows: seq<Row>, threshold: int, r: Row)
    requires forall r | r in rows :: RawSum in r
  {
    ExperimentColumn in r && r[ExperimentColumn] != Missing &&
    match ExperimentMedian(rows, r[ExperimentColumn])
    case Some(m) => m >= threshold as real
    case None => false
  }

  /** The row test of the mask. */
  function Passing(rows: seq<Row>, threshold: int): Row -> bool
    requires forall r | r in rows :: RawSum in r
  {
    r => Passes(rows, threshold, r)
  }

  /** The rows of `obs` that pass. */
  function KeptRows(obs: Table, threshold: int): seq<Row>
    requires forall r | r in obs.rows :: RawSum in r
  {
    Filter(obs.rows, Passing(obs.rows, threshold))
  }

  /** `filter_experiments_by_median_raw_sum`: the filtered table and its
      summary. A missing `experiment` or `raw_sum` column raises KeyError;
      a text `raw_sum` makes the median raise TypeError; the summary's own
      errors propagate. */
  function FilterExperimentsByMedianRawSum(obs: Table, threshold: int): Result<(Table, Summary)>
    requires obs.Valid()
  {
    if ExperimentColumn !in obs.columns then Err(KeyError(ExperimentColumn))
    else if RawSum !in obs.columns then Err(KeyError(RawSum))
    else if exists k | 0 <= k < |obs.rows| :: obs.rows[k][RawSum].Str? then Err(TypeError(RawSum))
    else
      var kept := Table(obs.columns, KeptRows(obs, threshold));
      FilteredValid(obs, threshold);
      match Summarize(kept)
      case Err(e) => Err(e)
      case Ok(s) => Ok((kept, s))
  }

  /** Filtering rows keeps the table well formed. */
  lemma FilteredValid(obs: Table, threshold: int)
    requires obs.Valid() && RawSum in obs.columns
    ensures Table(obs.columns, KeptRows(obs, threshold)).Valid()
  {
    FilterMembers(obs.rows, Passing(obs.rows, threshold));
  }

  /** The raised errors: KeyError for a missing column, TypeError for text
      in `raw_sum`. */
  lemma FilterExperimentsErrors(obs: Table, threshold: int)
    requires obs.Valid()
    ensures ExperimentColumn !in obs.columns ==> FilterExperimentsByMedianRawSum(obs, threshold) == Err(KeyError(ExperimentColumn))
    ensures ExperimentColumn in obs.columns && RawSum !in obs.columns ==>
      FilterExperimentsByMedianRawSum(obs, threshold) == Err(KeyError(RawSum))
    ensures (ExperimentColumn in obs.columns && RawSum in obs.columns &&
             exists k | 0 <= k < |obs.rows| :: obs.rows[k][RawSum].Str?) ==>
      FilterExperimentsByMedianRawSum(obs, threshold) == Err(TypeError(RawSum))
  {
  }

  /** The kept rows are the input rows, in order and unchanged, that pass:
      their experiment is present and its median `raw_sum` is at least the
      threshold; the columns stay. */
  lemma FilterExperimentsSpec(obs: Table, threshold: int)
    requires obs.Valid()
    requires FilterExperimentsByMedianRawSum(obs, threshold).Ok?
    ensures ExperimentColumn in obs.columns && RawSum in obs.columns
    ensures var t := FilterExperimentsByMedianRawSum(obs, threshold).value.0;
      var ks := KeptIndices(obs.rows, Passing(obs.rows, threshold));
      && t.columns == obs.columns
      && |t.rows| == |ks|
      && (forall j :: 0 <= j < |ks| ==> ks[j] < |obs.rows| && t.rows[j] == obs.rows[ks[j]])
      && (forall j, j' :: 0 <= j < j' < |ks| ==> ks[j] < ks[j'])
      && (forall i :: 0 <= i < |obs.rows| ==> (i in ks <==> Passes(obs.rows, threshold, obs.rows[i])))
  {
    var keep := Passing(obs.rows, threshold);
    assert FilterExperimentsByMedianRawSum(obs, threshold).value.0 == Table(obs.columns, Filter(obs.rows, keep));
    FilterSpec(obs.rows, keep);
  }

  /** Rows of one experiment are all kept or all dropped. */
  lemma FilterKeepsWholeExperiments(obs: Table, threshold: int)
    requires obs.Valid() && ExperimentColumn in obs.columns && RawSum in obs.columns
    ensures var ks := KeptIndices(obs.rows, Passing(obs.rows, threshold));
      forall i, i' | 0 <= i < |obs.rows| && 0 <= i' < |obs.rows| &&
                     obs.rows[i][ExperimentColumn] == obs.rows[i'][ExperimentColumn] ::
        i in ks <==> i' in ks
  {
    var keep := Passing(obs.rows, threshold);
    FilterSpec(obs.rows, keep);
    forall i | 0 <= i < |obs.rows| ensures keep(obs.rows[i]) == Passes(obs.rows, threshold, obs.rows[i]) {
    }
  }

  /** The threshold is inclusive: an experiment whose median equals it
      exactly is kept. */
  lemma ThresholdIsInclusive(rows: seq<Row>, r: Row)
    requires forall r | r in rows :: RawSum in r
    requires ExperimentColumn in r && r[ExperimentColumn] != Missing
    requires ExperimentMedian(rows, r[ExperimentColumn]) == Some(DefaultThreshold as real)
    ensures Passes(rows, DefaultThreshold, r)
  {
  }

  /** Two rows of experiment "e" with `raw_sum` 2000 and 4000. */
  function ExampleRows(): seq<Row>
  {
    [map[ExperimentColumn := Str("e"), RawSum := Int(2000)],
     map[ExperimentColumn := Str("e"), RawSum := Int(4000)]]
  }

  lemma ExampleRawSums()
    ensures forall r | r in ExampleRows() :: RawSum in r
    ensures Filter(ExampleRows(), InExperimentOf(Str("e"))) == ExampleRows()
    ensures Column(ExampleRows(), RawSum) == [Int(2000), Int(4000)]
  {
    var rows := ExampleRows();
    assert rows[1..][1..] == [];
  }

  lemma ExampleInts()
    ensures IntsOf(DropMissing([Int(2000), Int(4000)])) == [2000, 4000]
  {
    var vs := [Int(2000), Int(4000)];
    assert vs[1..][1..] == [];
  }

  /** An experiment whose `raw_sum` values are 2000 and 4000 has median
      exactly the default threshold of 3000. */
  lemma ExampleMedian()
    ensures forall r | r in ExampleRows() :: RawSum in r
    ensures ExperimentMedian(ExampleRows(), Str("e")) == Some(DefaultThreshold as real)
  {
    ExampleRawSums();
    ExampleInts();
    MedianExamples();
  }

  /** Both rows of that experiment stay. */
  lemma ThresholdExample()
    ensures forall r | r in ExampleRows() :: RawSum in r
    ensures forall r | r in ExampleRows() :: Passes(ExampleRows(), DefaultThreshold, r)
  {
    ExampleMedian();
    forall r | r in ExampleRows() ensures Passes(ExampleRows(), DefaultThreshold, r) {
      assert r[ExperimentColumn] == Str("e");
      ThresholdIsInclusive(ExampleRows(), r);
    }
  }

  /** The summary is `summarize_obs` of the kept rows: each summarised
      dataset has at least one kept row carrying its id, and every kept row
      with an id is summarised. */
  lemma FilterExperimentsSummary(obs: Table, threshold: int)
    requires obs.Valid()
    requires FilterExperimentsByMedianRawSum(obs, threshold).Ok?
    ensures var (t, s) := FilterExperimentsByMedianRawSum(obs, threshold).value;
      && t.Valid() && DatasetId in t.columns && Summarize(t) == Ok(s)
      && GroupsOf(t, RowKeys(s.rows))
  {
    var t := Table(obs.columns, KeptRows(obs, threshold));
    FilteredValid(obs, threshold);
    SummaryRowsSpec(t);
  }

  // ---- check_var_consistency_and_save ----

  /** `series.dropna().unique()`: the distinct non-missing values in order of
      first appearance. */
  function DistinctNonMissing(vs: seq<Value>): (r: seq<Value>)
    ensures Order.Distinct(r)
    ensures forall v :: v in r <==> v in vs && v != Missing
  {
    if vs == [] then []
    else
      var p := DistinctNonMissing(vs[..|vs| - 1]);
      var last := vs[|vs| - 1];
      assert vs == vs[..|vs| - 1] + [last];
      if last == Missing || last in p then p else p + [last]
  }

  const VarPath: String := "meta/census_var.txt"

  /** Three distinct positions into a list of `n` ids: a draw of
      `random.sample(ids, 3)`. */
  predicate ValidDraw(draw: seq<nat>, n: nat)
  {
    |draw| == 3 && (forall i | 0 <= i < 3 :: draw[i] < n) && Order.Distinct(draw)
  }

  /** The files written so far and the datasets whose gene lists were
      fetched, in order. */
  datatype MetaState = MetaState(files: map<String, String>, fetched: seq<Value>)

  /** The gene file's text: one gene per line, in order. */
  function GeneFile(genes: seq<String>): String
  {
    if genes == [] then [] else genes[0] + "\n" + GeneFile(genes[1..])
  }

  /** The dataset ids `check_var_consistency_and_save` samples from. */
  function DatasetIds(obs: Table): seq<Value>
    requires obs.Valid() && DatasetId in obs.columns
  {
    DistinctNonMissing(Column(obs.rows, DatasetId))
  }

  /** `check_var_consistency_and_save`: the new state and an outcome. The
      source returns None; the boolean here only reports whether the three
      sampled gene lists agreed, which is when the file was written. */
  function CheckVarConsistency(st: MetaState, obs: Table, draw: seq<nat>, genesOf: Value -> seq<String>): (MetaState, Result<bool>)
    requires obs.Valid()
    requires DatasetId in obs.columns && |DatasetIds(obs)| >= 3 ==> ValidDraw(draw, |DatasetIds(obs)|)
  {
    if DatasetId !in obs.columns then (st, Err(KeyError(DatasetId)))
    else
      var ids := DatasetIds(obs);
      if |ids| < 3 then (st, Err(ValueError("Need at least 3 datasets to sample from.")))
      else
        var sampled := [ids[draw[0]], ids[draw[1]], ids[draw[2]]];
        var reference := genesOf(sampled[0]);
        var allMatch := genesOf(sampled[1]) == reference && genesOf(sampled[2]) == reference;
        var st' := st.(fetched := st.fetched + sampled);
        if allMatch then (st'.(files := st'.files[VarPath := GeneFile(reference)]), Ok(true))
        else (st', Ok(false))
  }

  /** Fewer than three distinct non-missing ids raise ValueError before any
      gene list is fetched or any file written. */
  lemma TooFewDatasetsRejected(st: MetaState, obs: Table, draw: seq<nat>, genesOf: Value -> seq<String>)
    requires obs.Valid() && DatasetId in obs.columns
    requires |DatasetIds(obs)| < 3
    ensures CheckVarConsistency(st, obs, draw, genesOf).0 == st
    ensures CheckVarConsistency(st, obs, draw, genesOf).1.Err?
    ensures CheckVarConsistency(st, obs, draw, genesOf).1.error.ValueError?
  {
  }

  /** With at least three ids, exactly three distinct ones are fetched, the
      first sampled being the reference; the gene file is written exactly
      when both other lists equal the reference, order included, and then
      holds the reference; otherwise no file changes. */
  lemma CheckVarConsistencySpec(st: MetaState, obs: Table, draw: seq<nat>, genesOf: Value -> seq<String>)
    requires obs.Valid() && DatasetId in obs.columns
    requires |DatasetIds(obs)| >= 3 && ValidDraw(draw, |DatasetIds(obs)|)
    ensures var (st', r) := CheckVarConsistency(st, obs, draw, genesOf);
      var ids := DatasetIds(obs);
      var sampled := st'.fetched[|st.fetched|..];
      && st'.fetched == st.fetched + [ids[draw[0]], ids[draw[1]], ids[draw[2]]]
      && |sampled| == 3 && Order.Distinct(sampled) && Missing !in sampled
      && r.Ok?
      && (r.value <==> genesOf(sampled[1]) == genesOf(sampled[0]) && genesOf(sampled[2]) == genesOf(sampled[0]))
      && (r.value ==> st'.files == st.files[VarPath := GeneFile(genesOf(sampled[0]))])
      && (!r.value ==> st'.files == st.files)
  {
    var ids := DatasetIds(obs);
    var st' := CheckVarConsistency(st, obs, draw, genesOf).0;
    var sampled := [ids[draw[0]], ids[draw[1]], ids[draw[2]]];
    assert st'.fetched == st.fetched + sampled;
    assert st'.fetched[|st.fetched|..] == sampled;
    SampleSpec(ids, draw);
  }

  /** Three distinct positions into a list of distinct non-missing ids pick
      three distinct non-missing ids. */
  lemma SampleSpec(ids: seq<Value>, draw: seq<nat>)
    requires Order.Distinct(ids) && Missing !in ids
    requires ValidDraw(draw, |ids|)
    ensures var sampled := [ids[draw[0]], ids[draw[1]], ids[draw[2]]];
      Order.Distinct(sampled) && Missing !in sampled
  {
    assert ids[draw[0]] in ids && ids[draw[1]] in ids && ids[draw[2]] in ids;
    assert draw[0] != draw[1] && draw[0] != draw[2] && draw[1] != draw[2];
  }

  /** The gene file reads back as the genes, one line each, in order, when
      no gene holds a newline. */
  lemma {:induction false} GeneFileLines(genes: seq<String>)
    requires forall g | g in genes :: '\n' !in g
    ensures ReadLines(GeneFile(genes)) == seq(|genes|, i requires 0 <= i < |genes| => genes[i] + "\n")
  {
    if genes != [] {
      var line := genes[0] + "\n";
      assert IsLine(line) by {
        assert line[..|line| - 1] == genes[0];
      }
      FirstLineLengthOfLine(line, GeneFile(genes[1..]));
      var text := GeneFile(genes);
      assert text == line + GeneFile(genes[1..]);
      assert text[..|line|] == line && text[|line|..] == GeneFile(genes[1..]);
      GeneFileLines(genes[1..]);
    }
  }

  /** The gene file's text, written one gene and newline at a time. */
  method WriteGenes(genes: seq<String>) returns (text: String)
    ensures text == GeneFile(genes)
  {
    text := [];
    var k := 0;
    while k < |genes|
      invariant 0 <= k <= |genes|
      invariant text + GeneFile(genes[k..]) == GeneFile(genes)
    {
      assert genes[k..] == [genes[k]] + genes[k + 1..];
      text := text + genes[k] + "\n";
      k := k + 1;
    }
    assert genes[k..] == [];
  }

  /** The metadata directory as an object whose method writes the gene file
      in place. */
  class MetaDir {
    var files: map<String, String>
    var fetched: seq<Value>

    function State(): MetaState
      reads this
    {
      MetaState(files, fetched)
    }

    constructor (st: MetaState)
      ensures State() == st
    {
      files, fetched := st.files, st.fetched;
    }

    /** The census lookup `get_var_names_for_dataset`, recorded. */
    method FetchGenes(id: Value, genesOf: Value -> seq<String>) returns (genes: seq<String>)
      modifies this
      ensures genes == genesOf(id)
      ensures State() == old(State()).(fetched := old(fetched) + [id])
    {
      fetched := fetched + [id];
      genes := genesOf(id);
    }

    /** `check_var_consistency_and_save`. */
    method CheckVarConsistencyAndSave(obs: Table, draw: seq<nat>, genesOf: Value -> seq<String>) returns (r: Result<bool>)
      requires obs.Valid()
      requires DatasetId in obs.columns && |DatasetIds(obs)| >= 3 ==> ValidDraw(draw, |DatasetIds(obs)|)
      modifies this
      ensures (State(), r) == CheckVarConsistency(old(State()), obs, draw, genesOf)
    {
      if DatasetId !in obs.columns {
        return Err(KeyError(DatasetId));
      }
      var ids := DatasetIds(obs);
      if |ids| < 3 {
        return Err(ValueError("Need at least 3 datasets to sample from."));
      }
      var sampled := [ids[draw[0]], ids[draw[1]], ids[draw[2]]];
      var reference := FetchGenes(sampled[0], genesOf);
      var allMatch := true;
      var i := 1;
      while i < 3
        invariant 1 <= i <= 3
        invariant files == old(files)
        invariant fetched == old(fetched) + sampled[..i]
        invariant allMatch <==> forall j | 1 <= j < i :: genesOf(sampled[j]) == reference
      {
        var current := FetchGenes(sampled[i], genesOf);
        if current != reference {
          allMatch := false;
        }
        assert sampled[..i + 1] == sampled[..i] + [sampled[i]];
        i := i + 1;
      }
      assert sampled[..3] == sampled;
      assert allMatch <==> genesOf(sampled[1]) == reference && genesOf(sampled[2]) == reference by {
        if !allMatch {
          var j :| 1 <= j < 3 && genesOf(sampled[j]) != reference;
          assert j == 1 || j == 2;
        }
      }
      if allMatch {
        var text := WriteGenes(reference);
        files := files[VarPath := text];
      }
      return Ok(allMatch);
    }
  }
}
