/** The dataset downloader (src/seafront/datasets.py): the `download`
    dispatcher and the identifier logic of the `ainciburu2023` combine —
    which `.h5` matrices are read and in what order, the sample id taken from
    a file name, the per-cell `<barcode>_<sample>` names, the patient id and
    age derived from a cell name, and the metadata key used to look up each
    cell's type. Reading the matrices (their barcodes) and the metadata
    tables (the cell-type labels) are parameters. */
module Datasets {
  import opened Wrappers
  import opened Strings
  import opened Sequences
  import Order

  const DatasetName: String := "ainciburu2023"
  const MatrixSuffix: String := "_filtered_feature_bc_matrix.h5"
  const H5Extension: String := ".h5"

  // ---- the matrices read, in order ----

  predicate IsH5(f: String)
  {
    EndsWith(f, H5Extension)
  }

  /** `sorted(f for f in os.listdir(dir) if f.endswith(".h5"))`. */
  function H5Files(listing: seq<String>): seq<String>
  {
    Order.Sort(Filter(listing, IsH5), StrLess)
  }

  /** The matrices read are exactly the listed `.h5` files, each as often as
      listed, in ascending code-point order. */
  lemma H5FilesSpec(listing: seq<String>)
    ensures Order.Sorted(H5Files(listing), StrLess)
    ensures multiset(H5Files(listing)) == multiset(Filter(listing, IsH5))
    ensures forall f :: f in H5Files(listing) <==> f in listing && IsH5(f)
  {
    StrLessIsStrictTotalOrder();
    Order.SortSorted(Filter(listing, IsH5), StrLess);
    FilterMembers(listing, IsH5);
    forall f ensures f in H5Files(listing) <==> f in Filter(listing, IsH5) {
      assert f in H5Files(listing) <==> f in multiset(H5Files(listing));
    }
  }

  // ---- sample ids and cell names ----

  /** `h5_fname.replace("_filtered_feature_bc_matrix.h5", "")`. */
  function SampleId(f: String): String
  {
    ReplaceAll(f, MatrixSuffix, "")
  }

  /** Removing a pattern that occurs only at the very end of `s + pattern`
      gives back `s`. */
  lemma {:induction false} ReplaceTrailingOnly(s: String, pattern: String)
    requires pattern != []
    requires forall i :: 0 <= i < |s| ==> !OccursAt(s + pattern, pattern, i)
    ensures ReplaceAll(s + pattern, pattern, "") == s
  {
    var t := s + pattern;
    if s == [] {
      assert t[..|pattern|] == pattern && t[|pattern|..] == [];
    } else {
      assert t[..|pattern|] != pattern by { assert !OccursAt(t, pattern, 0); }
      assert t[1..] == s[1..] + pattern;
      forall i | 0 <= i < |s[1..]| ensures !OccursAt(s[1..] + pattern, pattern, i) {
        assert !OccursAt(t, pattern, i + 1);
        assert t[i + 1..i + 1 + |pattern|] == (s[1..] + pattern)[i..i + |pattern|];
      }
      ReplaceTrailingOnly(s[1..], pattern);
    }
  }

  /** A matrix file `<sid>_filtered_feature_bc_matrix.h5` whose name holds
      the suffix only at its end has sample id `<sid>`. */
  lemma SampleIdOfMatrixFile(sid: String)
    requires forall i :: 0 <= i < |sid| ==> !OccursAt(sid + MatrixSuffix, MatrixSuffix, i)
    ensures SampleId(sid + MatrixSuffix) == sid
  {
    ReplaceTrailingOnly(sid, MatrixSuffix);
  }

  /** Any other file name is its own sample id. */
  lemma SampleIdOfOtherFile(f: String)
    requires !Contains(f, MatrixSuffix)
    ensures SampleId(f) == f
  {
    forall i | 0 <= i < |f| ensures !OccursAt(f, MatrixSuffix, i) {
      if i + |MatrixSuffix| <= |f| {
        assert 0 <= i <= |f| - |MatrixSuffix|;
      }
    }
    ReplaceAllAbsent(f, MatrixSuffix, "");
  }

  /** `f"{bc}_{sample_id}"`. */
  function ObsName(barcode: String, sampleId: String): String
  {
    barcode + "_" + sampleId
  }

  /** The position of the first `c` in `s`, if any. */
  function FirstIndex(s: String, c: char): (k: Option<nat>)
    ensures k.Some? ==> k.value < |s| && s[k.value] == c && c !in s[..k.value]
    ensures k.None? ==> c !in s
  {
    if s == [] then None
    else if s[0] == c then Some(0)
    else match FirstIndex(s[1..], c)
      case None => None
      case Some(k) => Some(k + 1)
  }

  /** A `c` with no `c` before it is the first one. */
  lemma {:induction false} FirstIndexOf(s: String, c: char, k: nat)
    requires k < |s| && s[k] == c && c !in s[..k]
    ensures FirstIndex(s, c) == Some(k)
  {
    if k > 0 {
      assert s[0] == s[..k][0];
      assert s[1..][..k - 1] == s[..k][1..];
      FirstIndexOf(s[1..], c, k - 1);
    }
  }

  /** Cell names determine their barcode and sample when barcodes hold no
      `_`. */
  lemma ObsNameInjective(b1: String, s1: String, b2: String, s2: String)
    requires '_' !in b1 && '_' !in b2
    requires ObsName(b1, s1) == ObsName(b2, s2)
    ensures b1 == b2 && s1 == s2
  {
    var n := ObsName(b1, s1);
    assert n[..|b1|] == b1 && n[|b1|] == '_';
    FirstIndexOf(n, '_', |b1|);
    assert ObsName(b2, s2)[..|b2|] == b2 && ObsName(b2, s2)[|b2|] == '_';
    FirstIndexOf(ObsName(b2, s2), '_', |b2|);
    assert b1 == n[..|b1|] == b2;
    assert s1 == n[|b1| + 1..] == s2;
  }

  /** Different barcode or sample, different name. */
  lemma ObsNameDistinct(b1: String, s1: String, b2: String, s2: String)
    requires '_' !in b1 && '_' !in b2
    requires b1 != b2 || s1 != s2
    ensures ObsName(b1, s1) != ObsName(b2, s2)
  {
    if ObsName(b1, s1) == ObsName(b2, s2) {
      ObsNameInjective(b1, s1, b2, s2);
    }
  }

  /** One cell of the combined matrix: its barcode, its sample and the index
      of its sample's matrix (the `batch` label of the concatenation). */
  datatype Cell = Cell(barcode: String, sampleId: String, batch: nat)
  {
    function Name(): String
    {
      ObsName(barcode, sampleId)
    }
  }

  /** The cells of one matrix, in barcode order. */
  function SampleCells(f: String, batch: nat, barcodes: seq<String>): seq<Cell>
  {
    seq(|barcodes|, i requires 0 <= i < |barcodes| => Cell(barcodes[i], SampleId(f), batch))
  }

  /** The concatenation of the matrices `files` in order, `barcodesOf(f)`
      being what `read_10x_h5` reads from `f`. */
  function Combined(files: seq<String>, barcodesOf: String -> seq<String>): seq<Cell>
  {
    if files == [] then []
    else
      var n := |files| - 1;
      Combined(files[..n], barcodesOf) + SampleCells(files[n], n, barcodesOf(files[n]))
  }

  /** Every combined cell comes from one matrix: its batch is that matrix's
      position and its sample id that matrix's sample id. */
  lemma {:induction false} CombinedOrigin(files: seq<String>, barcodesOf: String -> seq<String>)
    ensures forall c | c in Combined(files, barcodesOf) ::
      c.batch < |files| && c.sampleId == SampleId(files[c.batch]) && c.barcode in barcodesOf(files[c.batch])
  {
    if files != [] {
      var n := |files| - 1;
      CombinedOrigin(files[..n], barcodesOf);
    }
  }

  /** No two cells share a name (`obs_names` is unique). */
  predicate NamesDistinct(cells: seq<Cell>)
  {
    forall i, j :: 0 <= i < j < |cells| ==> cells[i].Name() != cells[j].Name()
  }

  /** Distinct sample ids and distinct `_`-free barcodes within each matrix
      give distinct cell names across the whole combination. */
  lemma {:induction false} CombinedNamesDistinct(files: seq<String>, barcodesOf: String -> seq<String>)
    requires forall f | f in files :: Order.Distinct(barcodesOf(f)) && forall b | b in barcodesOf(f) :: '_' !in b
    requires forall k, k' :: 0 <= k < k' < |files| ==> SampleId(files[k]) != SampleId(files[k'])
    ensures NamesDistinct(Combined(files, barcodesOf))
  {
    if files != [] {
      var n := |files| - 1;
      var prefix := Combined(files[..n], barcodesOf);
      var last := SampleCells(files[n], n, barcodesOf(files[n]));
      var cells := Combined(files, barcodesOf);
      CombinedNamesDistinct(files[..n], barcodesOf);
      CombinedOrigin(files[..n], barcodesOf);
      assert files[n] in files;
      forall i, j | 0 <= i < j < |cells| ensures cells[i].Name() != cells[j].Name() {
        if j >= |prefix| {
          var c, d := cells[i], cells[j];
          var barcodes := barcodesOf(files[n]);
          assert d == last[j - |prefix|];
          assert d.barcode == barcodes[j - |prefix|] && d.barcode in barcodes;
          assert d.sampleId == SampleId(files[n]);
          if i >= |prefix| {
            assert c == last[i - |prefix|];
            assert c.barcode == barcodes[i - |prefix|] && c.barcode in barcodes;
            assert c.barcode != d.barcode;
          } else {
            assert c == prefix[i] && c in prefix;
            var k := c.batch;
            assert k < n && files[..n][k] == files[k];
            assert files[k] in files && c.barcode in barcodesOf(files[k]);
            assert SampleId(files[k]) != SampleId(files[n]);
            assert c.sampleId != d.sampleId;
          }
          ObsNameDistinct(c.barcode, c.sampleId, d.barcode, d.sampleId);
        } else {
          assert cells[i] == prefix[i] && cells[j] == prefix[j];
          assert prefix[i].Name() != prefix[j].Name();
        }
      }
    }
  }

  /** The loop over the sorted `.h5` files that reads each matrix, renames
      its cells and appends it to the list to concatenate. */
  method CombineSamples(listing: seq<String>, barcodesOf: String -> seq<String>) returns (cells: seq<Cell>)
    ensures cells == Combined(H5Files(listing), barcodesOf)
  {
    var files := H5Files(listing);
    cells := [];
    var k := 0;
    while k < |files|
      invariant 0 <= k <= |files|
      invariant cells == Combined(files[..k], barcodesOf)
    {
      var sampleId := SampleId(files[k]);
      var barcodes := barcodesOf(files[k]);
      var renamed: seq<Cell> := [];
      var j := 0;
      while j < |barcodes|
        invariant 0 <= j <= |barcodes|
        invariant renamed == SampleCells(files[k], k, barcodes[..j])
      {
        renamed := renamed + [Cell(barcodes[j], sampleId, k)];
        j := j + 1;
      }
      assert barcodes[..j] == barcodes;
      assert files[..k + 1][..k] == files[..k];
      cells := cells + renamed;
      k := k + 1;
    }
    assert files[..k] == files;
  }

  // ---- patient id and age ----

  /** `index_str.split("_")[-1].lower()`. */
  function PatientId(name: String): String
  {
    Lower(LastToken(name, '_'))
  }

  /** The text after the last separator of `prefix + sep + tail` is the text
      after the last separator of `tail`. */
  lemma {:induction false} LastTokenOfSuffix(prefix: String, sep: char, tail: String)
    ensures LastToken(prefix + [sep] + tail, sep) == LastToken(tail, sep)
    decreases |tail|
  {
    var s := prefix + [sep] + tail;
    if tail != [] && tail[|tail| - 1] != sep {
      var t' := tail[..|tail| - 1];
      assert s[..|s| - 1] == prefix + [sep] + t';
      LastTokenOfSuffix(prefix, sep, t');
    }
  }

  /** A cell's patient id is read from its sample id alone: the lower-cased
      text after the sample id's last `_`, whatever the barcode. */
  lemma PatientIdOfCell(c: Cell)
    ensures PatientId(c.Name()) == Lower(LastToken(c.sampleId, '_'))
    ensures '_' !in PatientId(c.Name())
  {
    LastTokenOfSuffix(c.barcode, '_', c.sampleId);
    LastTokenSpec(c.sampleId, '_');
    LowerKeepsAbsentChar(LastToken(c.sampleId, '_'), '_');
  }

  /** The patient id of a sample named `<prefix>_<patient>` is the patient
      lower-cased, so `GSM…_MDS1` belongs to `mds1`. */
  lemma PatientIdOfSample(c: Cell, prefix: String, patient: String)
    requires '_' !in patient
    requires c.sampleId == prefix + "_" + patient
    ensures PatientId(c.Name()) == Lower(patient)
  {
    PatientIdOfCell(c);
    LastTokenAfterSep(prefix, '_', patient);
  }

  const PatientAgeMap: map<String, int> := map[
    "mds1" := 71, "mds2" := 54, "mds3" := 83, "mds4" := 83,
    "young1" := 20, "young2" := 23, "young3" := 20, "young4" := 19, "young5" := 23,
    "elderly1" := 61, "elderly2" := 74, "elderly3" := 72]

  /** `patient_id.map(patient_age_map)`: an id outside the table gives a
      missing age, never an error. */
  function PatientAge(patientId: String): Option<int>
  {
    if patientId in PatientAgeMap then Some(PatientAgeMap[patientId]) else None
  }

  /** The twelve patients' ages lie between 19 and 83. */
  lemma PatientAgeBounds(patientId: String)
    ensures PatientAge(patientId).Some? ==> 19 <= PatientAge(patientId).value <= 83
  {
  }

  /** A cell of sample `<prefix>_MDS1` has patient `mds1`, aged 71. */
  lemma PatientAgeExample(c: Cell, prefix: String)
    requires c.sampleId == prefix + "_MDS1"
    ensures PatientAge(PatientId(c.Name())) == Some(71)
  {
    PatientIdOfSample(c, prefix, "MDS1");
    assert Lower("MDS1") == "mds1";
  }

  // ---- metadata key ----

  /** `str.extract(r"^(?P<barcode>[^-]+)-1_(?P<patient>.+)$")` joined as
      `barcode + "_" + patient`. The barcode group runs to the first `-`;
      `.` matches anything but a newline, and `$` also matches before one
      final newline. No match gives a missing key. */
  function MetadataKey(name: String): Option<String>
  {
    match FirstIndex(name, '-')
    case None => None
    case Some(k) =>
      var rest := name[k..];
      if k == 0 || !StartsWith(rest, "-1_") then None
      else
        var tail := rest[3..];
        var patient := if tail != [] && tail[|tail| - 1] == '\n' then tail[..|tail| - 1] else tail;
        if patient == [] || '\n' in patient then None
        else Some(name[..k] + "_" + patient)
  }

  /** A cell named `<bc>-1_<sample>` has key `<bc>_<sample>`: the `-1` is
      dropped and the sample id is kept as it is, not lower-cased. */
  lemma MetadataKeyOfName(bc: String, sampleId: String)
    requires bc != [] && '-' !in bc
    requires sampleId != [] && '\n' !in sampleId
    ensures MetadataKey(ObsName(bc + "-1", sampleId)) == Some(bc + "_" + sampleId)
  {
    var name := ObsName(bc + "-1", sampleId);
    assert name == bc + "-1_" + sampleId;
    assert name[..|bc|] == bc && name[|bc|] == '-';
    assert FirstIndex(name, '-') == Some(|bc|);
    assert name[|bc|..] == "-1_" + sampleId;
    assert name[|bc|..][3..] == sampleId;
  }

  /** A name without `-`, or whose first `-` is not followed by `1_`, has no
      key. */
  lemma MetadataKeyMissing(name: String)
    requires '-' !in name || exists k | 0 <= k < |name| && name[k] == '-' && '-' !in name[..k] :: !StartsWith(name[k..], "-1_")
    ensures MetadataKey(name) == None
  {
    if '-' in name {
      var k :| 0 <= k < |name| && name[k] == '-' && '-' !in name[..k] && !StartsWith(name[k..], "-1_");
      FirstIndexOf(name, '-', k);
    }
  }

  /** Every key that is found is `<barcode>_<patient>` for a name
      `<barcode>-1_<patient>[newline]` whose barcode holds no `-`. */
  lemma MetadataKeyShape(name: String)
    requires MetadataKey(name).Some?
    ensures exists bc, patient ::
      && bc != [] && '-' !in bc && patient != [] && '\n' !in patient
      && (name == bc + "-1_" + patient || name == bc + "-1_" + patient + "\n")
      && MetadataKey(name) == Some(bc + "_" + patient)
  {
    var k := FirstIndex(name, '-').value;
    var bc := name[..k];
    var tail := name[k..][3..];
    var patient := if tail != [] && tail[|tail| - 1] == '\n' then tail[..|tail| - 1] else tail;
    MetadataKeySplit(name, k);
    if tail != [] && tail[|tail| - 1] == '\n' {
      assert tail == patient + "\n";
      assert name == bc + "-1_" + patient + "\n";
    } else {
      assert name == bc + "-1_" + patient;
    }
    assert MetadataKey(name) == Some(bc + "_" + patient);
  }

  lemma MetadataKeySplit(name: String, k: nat)
    requires k < |name| && StartsWith(name[k..], "-1_")
    ensures name == name[..k] + "-1_" + name[k..][3..]
  {
    assert name[k..] == name[k..][..3] + name[k..][3..];
  }

  // ---- annotation ----

  /** One row of the combined `obs` table. */
  datatype ObsRow = ObsRow(
    name: String, sampleId: String, batch: nat, patientId: String,
    patientAge: Option<int>, metadataKey: Option<String>, cellType: String)

  /** The `obs` columns derived from the cell names, and `CellType` looked
      up by metadata key in the metadata table `labels` (`.loc` with a list
      of keys): a missing or unknown key raises KeyError. */
  function Annotate(cells: seq<Cell>, labels: map<String, String>): Result<seq<ObsRow>>
  {
    if exists i | 0 <= i < |cells| :: MetadataKey(cells[i].Name()) !in OptionKeys(labels) then
      Err(KeyError("metadata_key"))
    else
      Ok(seq(|cells|, i requires 0 <= i < |cells| && MetadataKey(cells[i].Name()) in OptionKeys(labels) =>
        var name := cells[i].Name();
        var key := MetadataKey(name);
        ObsRow(name, cells[i].sampleId, cells[i].batch, PatientId(name),
               PatientAge(PatientId(name)), key, labels[key.value])))
  }

  /** The metadata keys as found by extraction: `Some(k)` for each label key. */
  function OptionKeys(labels: map<String, String>): set<Option<String>>
  {
    set k | k in labels :: Some(k)
  }

  /** Annotation fails exactly when some cell's key is missing or not in the
      metadata; otherwise it keeps the cells in order, one row each, with the
      cell type of its key. */
  lemma AnnotateSpec(cells: seq<Cell>, labels: map<String, String>)
    ensures Annotate(cells, labels).Err? <==>
      exists i | 0 <= i < |cells| :: MetadataKey(cells[i].Name()).None? || MetadataKey(cells[i].Name()).value !in labels
    ensures Annotate(cells, labels).Ok? ==>
      var rows := Annotate(cells, labels).value;
      && |rows| == |cells|
      && forall i | 0 <= i < |cells| ::
           && rows[i].name == cells[i].Name()
           && rows[i].sampleId == cells[i].sampleId
           && rows[i].batch == cells[i].batch
           && rows[i].patientId == Lower(LastToken(cells[i].sampleId, '_'))
           && rows[i].patientAge == PatientAge(rows[i].patientId)
           && rows[i].metadataKey.Some?
           && rows[i].metadataKey.value in labels
           && rows[i].cellType == labels[rows[i].metadataKey.value]
  {
    forall i | 0 <= i < |cells| ensures
      MetadataKey(cells[i].Name()) !in OptionKeys(labels) <==>
      MetadataKey(cells[i].Name()).None? || MetadataKey(cells[i].Name()).value !in labels
    {
      var key := MetadataKey(cells[i].Name());
      if key.Some? && key.value in labels {
        assert key in OptionKeys(labels);
      }
    }
    if Annotate(cells, labels).Ok? {
      forall i | 0 <= i < |cells| ensures PatientId(cells[i].Name()) == Lower(LastToken(cells[i].sampleId, '_')) {
        PatientIdOfCell(cells[i]);
      }
    }
  }

  // ---- download ----

  /** `_download_ainciburu2023` on a directory listing, with the matrices'
      barcodes and the metadata's cell types given. */
  function Ainciburu2023(listing: seq<String>, barcodesOf: String -> seq<String>, labels: map<String, String>): Result<seq<ObsRow>>
  {
    Annotate(Combined(H5Files(listing), barcodesOf), labels)
  }

  /** `download(name)`: only `ainciburu2023` is known. */
  method Download(name: String, listing: seq<String>, barcodesOf: String -> seq<String>, labels: map<String, String>)
    returns (r: Result<seq<ObsRow>>)
    ensures name != DatasetName ==> r == Err(ValueError("Unknown dataset: " + name))
    ensures name == DatasetName ==> r == Ainciburu2023(listing, barcodesOf, labels)
  {
    if name == DatasetName {
      var cells := CombineSamples(listing, barcodesOf);
      r := Annotate(cells, labels);
    } else {
      r := Err(ValueError("Unknown dataset: " + name));
    }
  }
}
