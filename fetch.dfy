/** The cache of downloaded datasets (src/seafront/fetch.py): one directory
    of `.h5ad` files plus a `.checksums` ledger of `<hash> <filename>` lines.
    The census download and the SHA-256 digest are parameters: `remote`
    gives the bytes written for an (organism, dataset id) request, `hash`
    the hex digest of some bytes. */
module Fetch {
  import opened Wrappers
  import opened Strings
  import opened Sequences

  type Bytes = seq<bv8>

  // ---- the checksum ledger ----

  /** A ledger line records `filename` when its stripped text ends with a
      space and the name. */
  predicate Mentions(line: String, filename: String)
  {
    EndsWith(Strip(line), " " + filename)
  }

  /** The line `_update_checksums_file` appends. */
  function LedgerEntry(checksum: String, filename: String): String
  {
    checksum + " " + filename + "\n"
  }

  /** The ledger's lines; a missing ledger reads as no lines. */
  function LedgerLines(ledger: Option<String>): seq<String>
  {
    match ledger
    case None => []
    case Some(text) => ReadLines(text)
  }

  /** The test the comprehension applies to each line. */
  function Unrecorded(filename: String): String -> bool
  {
    l => !Mentions(l, filename)
  }

  /** The lines that do not record `filename`, in order. */
  function KeepOthers(lines: seq<String>, filename: String): seq<String>
  {
    Filter(lines, Unrecorded(filename))
  }

  /** The lines `_update_checksums_file` writes back. */
  function UpdatedLines(lines: seq<String>, filename: String, checksum: String): seq<String>
  {
    KeepOthers(lines, filename) + [LedgerEntry(checksum, filename)]
  }

  /** The ledger text after `_update_checksums_file(dir, filename, checksum)`. */
  function UpdateLedger(ledger: Option<String>, filename: String, checksum: String): String
  {
    Concat(UpdatedLines(LedgerLines(ledger), filename, checksum))
  }

  /** The lines written: every line that does not record `filename`, in
      its original order and unchanged, then `"<checksum> <filename>\n"`
      last; no earlier line records `filename`. */
  lemma UpdatedLinesSpec(lines: seq<String>, filename: String, checksum: String)
    ensures var u := UpdatedLines(lines, filename, checksum);
      var ks := KeptIndices(lines, Unrecorded(filename));
      && |u| == |ks| + 1
      && u[|u| - 1] == LedgerEntry(checksum, filename)
      && (forall j :: 0 <= j < |ks| ==> ks[j] < |lines| && u[j] == lines[ks[j]] && !Mentions(u[j], filename))
      && (forall j, j' :: 0 <= j < j' < |ks| ==> ks[j] < ks[j'])
      && (forall i :: 0 <= i < |lines| ==> (!Mentions(lines[i], filename) <==> i in ks))
  {
    FilterSpec(lines, Unrecorded(filename));
  }

  /** A line that holds no newline, or one only at its end. */
  lemma EntryIsLine(checksum: String, filename: String)
    requires '\n' !in checksum && '\n' !in filename
    ensures IsLine(LedgerEntry(checksum, filename)) && Terminated(LedgerEntry(checksum, filename))
  {
    var e := LedgerEntry(checksum, filename);
    assert e[..|e| - 1] == checksum + " " + filename;
  }

  /** The appended line records its file, whatever text precedes it on
      its line, when the digest starts with a non-space character and the
      name ends with one. */
  lemma EntryMentions(prefix: String, checksum: String, filename: String)
    requires checksum != [] && !IsSpace(checksum[0])
    requires filename != [] && !IsSpace(filename[|filename| - 1])
    ensures Mentions(prefix + LedgerEntry(checksum, filename), filename)
  {
    var tail := " " + filename;
    assert prefix + LedgerEntry(checksum, filename) == (prefix + checksum) + (tail + "\n");
    StripLine(prefix + checksum, |prefix|, tail);
    var rest := TrimStart(prefix + checksum) + tail;
    assert rest[|rest| - |tail|..] == tail;
  }

  /** When the ledger is missing, or empty, or ends with a newline, its
      new text reads back as exactly the lines written. */
  lemma {:induction false} UpdateLedgerReadsBack(ledger: Option<String>, filename: String, checksum: String)
    requires '\n' !in checksum && '\n' !in filename
    requires ledger.Some? ==> ledger.value == [] || ledger.value[|ledger.value| - 1] == '\n'
    ensures ReadLines(UpdateLedger(ledger, filename, checksum)) == UpdatedLines(LedgerLines(ledger), filename, checksum)
  {
    var lines := LedgerLines(ledger);
    var u := UpdatedLines(lines, filename, checksum);
    if ledger.Some? {
      ReadLinesWellFormed(ledger.value);
    }
    assert forall l | l in lines :: IsLine(l) && Terminated(l) by {
      forall l | l in lines ensures IsLine(l) && Terminated(l) {
        var i :| 0 <= i < |lines| && lines[i] == l;
      }
    }
    FilterMembers(lines, Unrecorded(filename));
    EntryIsLine(checksum, filename);
    forall i | 0 <= i < |u| ensures IsLine(u[i]) && Terminated(u[i]) {
      if i < |u| - 1 {
        assert u[i] in KeepOthers(lines, filename);
      }
    }
    ReadLinesConcat(u);
  }

  /** A missing ledger becomes exactly one line. */
  lemma FirstUpdate(filename: String, checksum: String)
    requires '\n' !in checksum && '\n' !in filename
    ensures UpdateLedger(None, filename, checksum) == LedgerEntry(checksum, filename)
    ensures ReadLines(UpdateLedger(None, filename, checksum)) == [LedgerEntry(checksum, filename)]
  {
    UpdateLedgerReadsBack(None, filename, checksum);
    assert Concat([LedgerEntry(checksum, filename)]) == LedgerEntry(checksum, filename);
  }

  /** Recording the same digest twice leaves the ledger as recording it
      once, when the ledger was missing, empty or newline-terminated. */
  lemma UpdateLedgerIdempotent(ledger: Option<String>, filename: String, checksum: String)
    requires '\n' !in checksum && '\n' !in filename
    requires checksum != [] && !IsSpace(checksum[0])
    requires filename != [] && !IsSpace(filename[|filename| - 1])
    requires ledger.Some? ==> ledger.value == [] || ledger.value[|ledger.value| - 1] == '\n'
    ensures UpdateLedger(Some(UpdateLedger(ledger, filename, checksum)), filename, checksum)
         == UpdateLedger(ledger, filename, checksum)
  {
    var lines := LedgerLines(ledger);
    UpdateLedgerReadsBack(ledger, filename, checksum);
    assert LedgerLines(Some(UpdateLedger(ledger, filename, checksum))) == UpdatedLines(lines, filename, checksum);
    KeepOthersOfUpdated(lines, filename, checksum);
  }

  /** Filtering the written lines again leaves what the first filter left:
      the appended entry records the file and is dropped. */
  lemma KeepOthersOfUpdated(lines: seq<String>, filename: String, checksum: String)
    requires checksum != [] && !IsSpace(checksum[0])
    requires filename != [] && !IsSpace(filename[|filename| - 1])
    ensures KeepOthers(UpdatedLines(lines, filename, checksum), filename) == KeepOthers(lines, filename)
  {
    var keep := Unrecorded(filename);
    var e := LedgerEntry(checksum, filename);
    FilterConcat(Filter(lines, keep), [e], keep);
    FilterIdempotent(lines, keep);
    EntryMentions([], checksum, filename);
    assert [] + e == e;
    assert Filter([e], keep) == [];
  }

  /** A text holding one line reads as that line. */
  lemma ReadLinesOfOneLine(l: String)
    requires IsLine(l)
    ensures ReadLines(l) == [l]
  {
    FirstLineLengthOfLine(l, []);
    assert l + [] == l;
    assert l[|l|..] == [];
  }

  /** A one-line ledger keeps its line exactly when it does not record the
      file. */
  lemma KeepOthersOfOne(l: String, filename: String)
    ensures KeepOthers([l], filename) == if Mentions(l, filename) then [] else [l]
  {
    var keep := Unrecorded(filename);
    assert [l][..0] == [];
    assert Filter([l], keep) == Filter([], keep) + (if keep(l) then [l] else []);
    assert keep(l) == !Mentions(l, filename);
  }

  /** An unterminated last line is joined to the new entry: a ledger
      holding one line without a newline that does not record `filename`
      becomes one line, that line followed directly by the entry. */
  lemma UnterminatedLastLineIsJoined(last: String, filename: String, checksum: String)
    requires IsLine(last) && !Terminated(last) && !Mentions(last, filename)
    requires '\n' !in checksum && '\n' !in filename
    ensures UpdateLedger(Some(last), filename, checksum) == last + LedgerEntry(checksum, filename)
    ensures IsLine(last + LedgerEntry(checksum, filename))
    ensures ReadLines(UpdateLedger(Some(last), filename, checksum)) == [last + LedgerEntry(checksum, filename)]
  {
    ReadLinesOfOneLine(last);
    KeepOthersOfOne(last, filename);
    var e := LedgerEntry(checksum, filename);
    assert UpdatedLines([last], filename, checksum) == [last, e];
    ConcatPair(last, e);
    EntryIsLine(checksum, filename);
    JoinedLine(last, e);
    ReadLinesOfOneLine(last + e);
  }

  /** A ledger of one line that records `filename` is replaced by the new
      entry alone. */
  lemma UpdateMentionedLine(l: String, filename: String, checksum: String)
    requires IsLine(l) && Mentions(l, filename)
    ensures UpdateLedger(Some(l), filename, checksum) == LedgerEntry(checksum, filename)
  {
    ReadLinesOfOneLine(l);
    KeepOthersOfOne(l, filename);
    var e := LedgerEntry(checksum, filename);
    var u := UpdatedLines([l], filename, checksum);
    assert u == [e];
    assert u[1..] == [];
    assert Concat(u) == e + [];
  }

  /** Updating the joined ledger again with the same digest drops the whole
      joined line, and with it the earlier record: the update is idempotent
      only on newline-terminated ledgers. For "a x" and an entry "h g\n"
      the ledger goes from "a x" to "a xh g\n" to "h g\n". */
  lemma JoinedLineIsDroppedNextTime(last: String, filename: String, checksum: String)
    requires IsLine(last) && !Terminated(last) && !Mentions(last, filename)
    requires '\n' !in checksum && '\n' !in filename
    requires checksum != [] && !IsSpace(checksum[0])
    requires filename != [] && !IsSpace(filename[|filename| - 1])
    ensures var once := UpdateLedger(Some(last), filename, checksum);
      && UpdateLedger(Some(once), filename, checksum) == LedgerEntry(checksum, filename)
      && UpdateLedger(Some(once), filename, checksum) != once
  {
    UnterminatedLastLineIsJoined(last, filename, checksum);
    var e := LedgerEntry(checksum, filename);
    EntryMentions(last, checksum, filename);
    UpdateMentionedLine(last + e, filename, checksum);
    assert |last + e| > |e|;
  }

  // ---- the cached download ----

  /** Python truthiness of an optional string: neither None nor "". */
  predicate Truthy(s: Option<String>)
  {
    s.Some? && s.value != []
  }

  /** `f"adata_{organism.replace(' ', '_').lower()}_{dataset_id}.h5ad"`. */
  function CacheFileName(organism: String, datasetId: String): String
  {
    "adata_" + Lower(ReplaceAll(organism, " ", "_")) + "_" + datasetId + ".h5ad"
  }

  const LedgerName: String := ".checksums"

  /** The cached name spells the organism without spaces, starts with
      "adata_", ends with ".h5ad", and so is never the ledger's name. */
  lemma CacheFileNameSpec(organism: String, datasetId: String)
    ensures var name := CacheFileName(organism, datasetId);
      && StartsWith(name, "adata_")
      && EndsWith(name, ".h5ad")
      && name != LedgerName
      && (' ' !in datasetId ==> ' ' !in name)
  {
    var org := Lower(ReplaceAll(organism, " ", "_"));
    var name := CacheFileName(organism, datasetId);
    assert name == "adata_" + (org + "_" + datasetId + ".h5ad");
    assert name[..6] == "adata_";
    assert name[|name| - 5..] == ".h5ad";
    assert name[0] != LedgerName[0];
    ReplaceAllRemovesChar(organism, ' ', "_");
    LowerKeepsAbsentChar(ReplaceAll(organism, " ", "_"), ' ');
  }

  /** A two-word organism name is joined by an underscore and lower-cased:
      "Homo sapiens" gives "adata_homo_sapiens_<id>.h5ad". */
  lemma BinomialCacheName(genus: String, species: String, datasetId: String)
    requires ' ' !in genus && ' ' !in species
    ensures CacheFileName(genus + " " + species, datasetId)
         == "adata_" + (Lower(genus) + "_" + Lower(species)) + "_" + datasetId + ".h5ad"
  {
    ReplaceSpaceBetweenWords(genus, species);
    LowerUnderscoreJoin(genus, species);
  }

  /** The comprehension of `_update_checksums_file`: the lines that do
      not record `filename`, in order. */
  method DropRecordsOf(lines: seq<String>, filename: String) returns (kept: seq<String>)
    ensures kept == KeepOthers(lines, filename)
  {
    kept := [];
    var i := 0;
    while i < |lines|
      invariant 0 <= i <= |lines|
      invariant kept == KeepOthers(lines[..i], filename)
    {
      assert lines[..i + 1][..i] == lines[..i];
      if !Mentions(lines[i], filename) {
        kept := kept + [lines[i]];
      }
      i := i + 1;
    }
    assert lines[..i] == lines;
  }

  /** `writelines`: the text of the lines one after another. */
  method WriteLines(lines: seq<String>) returns (text: String)
    ensures text == Concat(lines)
  {
    text := [];
    var j := 0;
    while j < |lines|
      invariant 0 <= j <= |lines|
      invariant text == Concat(lines[..j])
    {
      assert lines[..j + 1] == lines[..j] + [lines[j]];
      ConcatSnoc(lines[..j], lines[j]);
      text := text + lines[j];
      j := j + 1;
    }
    assert lines[..j] == lines;
  }

  /** A download the cache asked the census for. */
  datatype Request = Request(organism: String, datasetId: String)

  /** The cache directory: whether it exists, its data files by name, the
      text of its `.checksums` file if there is one, and the downloads made
      so far. */
  datatype DirState = DirState(dirExists: bool, files: map<String, Bytes>, ledger: Option<String>, downloads: seq<Request>)

  /** `fetch_and_save_data`: download, write the file, record its digest,
      then compare it with the expected checksum, if one is given. The
      file and the ledger entry stay when the comparison fails. */
  function FetchAndSave(
    st: DirState, organism: String, datasetId: String, filename: String, checksum: Option<String>,
    hash: Bytes -> String, remote: (String, String) -> Bytes): (DirState, Result<Bytes>)
  {
    var data := remote(organism, datasetId);
    var sha := hash(data);
    var st' := st.(files := st.files[filename := data],
                   ledger := Some(UpdateLedger(st.ledger, filename, sha)),
                   downloads := st.downloads + [Request(organism, datasetId)]);
    if Truthy(checksum) && sha != checksum.value then
      (st', Err(RuntimeError("Checksum failed after download. Got " + sha + ", expected " + checksum.value)))
    else (st', Ok(data))
  }

  /** `fetch_cellxgene`: what the cache holds afterwards, and the loaded
      data or the exception raised. */
  function FetchCellxgene(
    st: DirState, organism: String, datasetId: Option<String>, checksum: Option<String>,
    hash: Bytes -> String, remote: (String, String) -> Bytes): (DirState, Result<Bytes>)
  {
    if !Truthy(datasetId) then (st, Err(ValueError("dataset_id must be specified")))
    else
      var st1 := st.(dirExists := true);
      var name := CacheFileName(organism, datasetId.value);
      if name in st1.files then
        if Truthy(checksum) && hash(st1.files[name]) != checksum.value then
          FetchAndSave(st1.(files := st1.files - {name}), organism, datasetId.value, name, None, hash, remote)
        else (st1, Ok(st1.files[name]))
      else FetchAndSave(st1, organism, datasetId.value, name, checksum, hash, remote)
  }

  /** A missing or empty dataset id raises ValueError before the directory
      is created or any file is touched. */
  lemma MissingIdRejected(
    st: DirState, organism: String, datasetId: Option<String>, checksum: Option<String>,
    hash: Bytes -> String, remote: (String, String) -> Bytes)
    requires datasetId == None || datasetId == Some([])
    ensures FetchCellxgene(st, organism, datasetId, checksum, hash, remote).0 == st
    ensures FetchCellxgene(st, organism, datasetId, checksum, hash, remote).1.Err?
    ensures FetchCellxgene(st, organism, datasetId, checksum, hash, remote).1.error.ValueError?
  {
  }

  /** A cached file is loaded, with no download and no ledger change, when
      no checksum is given or its digest matches. */
  lemma CacheHit(
    st: DirState, organism: String, id: String, checksum: Option<String>,
    hash: Bytes -> String, remote: (String, String) -> Bytes)
    requires id != []
    requires CacheFileName(organism, id) in st.files
    requires !Truthy(checksum) || hash(st.files[CacheFileName(organism, id)]) == checksum.value
    ensures var (st', r) := FetchCellxgene(st, organism, Some(id), checksum, hash, remote);
      && st' == st.(dirExists := true)
      && r == Ok(st.files[CacheFileName(organism, id)])
  {
  }

  /** On a digest mismatch the cached file is replaced by a fresh download
      whose digest is recorded but never compared with the checksum: the
      call succeeds even when the new file does not match either. */
  lemma StaleCacheRedownloadIsNotVerified(
    st: DirState, organism: String, id: String, checksum: String,
    hash: Bytes -> String, remote: (String, String) -> Bytes)
    requires id != [] && checksum != []
    requires CacheFileName(organism, id) in st.files
    requires hash(st.files[CacheFileName(organism, id)]) != checksum
    ensures var name := CacheFileName(organism, id);
      var data := remote(organism, id);
      var (st', r) := FetchCellxgene(st, organism, Some(id), Some(checksum), hash, remote);
      && r == Ok(data)
      && st'.dirExists
      && st'.files == st.files[name := data]
      && st'.ledger == Some(UpdateLedger(st.ledger, name, hash(data)))
      && st'.downloads == st.downloads + [Request(organism, id)]
  {
    var name := CacheFileName(organism, id);
    assert (st.files - {name})[name := remote(organism, id)] == st.files[name := remote(organism, id)];
  }

  /** A file not yet cached is downloaded, written and its digest recorded;
      the call raises RuntimeError exactly when a checksum is given and
      differs, and the file and ledger entry remain either way. */
  lemma FreshDownload(
    st: DirState, organism: String, id: String, checksum: Option<String>,
    hash: Bytes -> String, remote: (String, String) -> Bytes)
    requires id != []
    requires CacheFileName(organism, id) !in st.files
    ensures var name := CacheFileName(organism, id);
      var data := remote(organism, id);
      var (st', r) := FetchCellxgene(st, organism, Some(id), checksum, hash, remote);
      && st'.dirExists
      && st'.files == st.files[name := data]
      && st'.ledger == Some(UpdateLedger(st.ledger, name, hash(data)))
      && st'.downloads == st.downloads + [Request(organism, id)]
      && (r.Err? <==> Truthy(checksum) && hash(data) != checksum.value)
      && (r.Err? ==> r.error.RuntimeError?)
      && (r.Ok? ==> r == Ok(data))
  {
  }

  /** After a successful call the file is cached with the returned
      contents; calling again with a checksum it satisfies, or with none,
      downloads nothing, changes nothing and returns the same data. */
  lemma SecondCallIsCached(
    st: DirState, organism: String, id: String, checksum: Option<String>,
    hash: Bytes -> String, remote: (String, String) -> Bytes)
    requires id != []
    requires FetchCellxgene(st, organism, Some(id), checksum, hash, remote).1.Ok?
    ensures var (st1, r1) := FetchCellxgene(st, organism, Some(id), checksum, hash, remote);
      CacheFileName(organism, id) in st1.files && st1.files[CacheFileName(organism, id)] == r1.value
    ensures var (st1, r1) := FetchCellxgene(st, organism, Some(id), checksum, hash, remote);
      (!Truthy(checksum) || hash(r1.value) == checksum.value) ==>
        FetchCellxgene(st1, organism, Some(id), checksum, hash, remote) == (st1, r1)
  {
  }

  /** The cache directory as an object whose methods update its state in
      place. */
  class CacheDir {
    var dirExists: bool
    var files: map<String, Bytes>
    var ledger: Option<String>
    var downloads: seq<Request>

    function State(): DirState
      reads this
    {
      DirState(dirExists, files, ledger, downloads)
    }

    constructor (st: DirState)
      ensures State() == st
    {
      dirExists, files, ledger, downloads := st.dirExists, st.files, st.ledger, st.downloads;
    }

    /** `_update_checksums_file`: read the ledger's lines (none when it is
        missing), keep those not recording `filename`, append the new entry
        and write the lines back. */
    method UpdateChecksums(filename: String, checksum: String)
      requires dirExists
      modifies this
      ensures State() == old(State()).(ledger := Some(UpdateLedger(old(ledger), filename, checksum)))
    {
      var lines: seq<String> := [];
      if ledger.Some? {
        lines := ReadLines(ledger.value);
      }
      var kept := DropRecordsOf(lines, filename);
      var text := WriteLines(kept + [LedgerEntry(checksum, filename)]);
      ledger := Some(text);
    }

    /** `fetch_and_save_data`. */
    method FetchAndSaveData(
      organism: String, datasetId: String, filename: String, checksum: Option<String>,
      hash: Bytes -> String, remote: (String, String) -> Bytes) returns (r: Result<Bytes>)
      requires dirExists
      modifies this
      ensures (State(), r) == FetchAndSave(old(State()), organism, datasetId, filename, checksum, hash, remote)
    {
      var data := remote(organism, datasetId);
      downloads := downloads + [Request(organism, datasetId)];
      files := files[filename := data];
      var sha := hash(data);
      UpdateChecksums(filename, sha);
      if Truthy(checksum) && sha != checksum.value {
        return Err(RuntimeError("Checksum failed after download. Got " + sha + ", expected " + checksum.value));
      }
      return Ok(data);
    }

    /** `fetch_cellxgene`. */
    method Fetch(
      organism: String, datasetId: Option<String>, checksum: Option<String>,
      hash: Bytes -> String, remote: (String, String) -> Bytes) returns (r: Result<Bytes>)
      modifies this
      ensures (State(), r) == FetchCellxgene(old(State()), organism, datasetId, checksum, hash, remote)
    {
      if !Truthy(datasetId) {
        return Err(ValueError("dataset_id must be specified"));
      }
      dirExists := true;
      var name := CacheFileName(organism, datasetId.value);
      if name in files {
        if Truthy(checksum) {
          if hash(files[name]) != checksum.value {
            files := files - {name};
            r := FetchAndSaveData(organism, datasetId.value, name, None, hash, remote);
            return;
          }
          return Ok(files[name]);
        }
        return Ok(files[name]);
      }
      r := FetchAndSaveData(organism, datasetId.value, name, checksum, hash, remote);
    }
  }
}
