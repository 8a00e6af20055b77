/** The driver of correct_lore.py: the required-column check, the batch loop
    of `process_and_save_batches` with its recovery path, and `save_batch`,
    which writes the header with the first batch only. The model calls, the
    file system and the clock are parameters: for batch `i`, `envs[i]` says
    what the correction call replied and whether each save succeeded. */
module LorePipeline {
  import opened Wrappers
  import opened Text
  import opened Seqs
  import opened Table
  import opened Batching
  import opened RowBatches
  import opened LoreResponse

  const BatchSize := 5
  const DescriptionColumn := "DescriptionLore"
  const ImageColumn := "ImageURL"

  /** The output header; also the columns the input must have. */
  const OutputFieldnames: seq<string> := [NameColumn, RegionColumn, LoreColumn, DescriptionColumn, ImageColumn]

  const CriticalErrorPrefix := "Error during batch processing: "

  /** The keys of `header_map`: every detected header, normalized. */
  function HeaderKeys(headers: seq<string>): set<string> {
    set h | h in headers :: NameKey(h)
  }

  /** The required columns that no detected header matches once both sides
      are stripped and lower-cased. */
  function MissingColumns(headers: seq<string>): (missing: set<string>)
    ensures forall c :: c in missing <==> c in OutputFieldnames && forall h :: h in headers ==> NameKey(h) != NameKey(c)
  {
    set c | c in OutputFieldnames && NameKey(c) !in HeaderKeys(headers)
  }

  /** An input whose header holds the output columns verbatim passes the check,
      whatever other columns it has. */
  lemma {:induction false} ExactHeadersPass(extra: seq<string>)
    ensures MissingColumns(OutputFieldnames + extra) == {}
  {
    forall c | c in OutputFieldnames
      ensures c !in MissingColumns(OutputFieldnames + extra)
    {
      assert c in OutputFieldnames + extra;
    }
  }

  /** Headers that match the output columns up to ASCII case pass the check. */
  lemma {:induction false} CaseVariantsPass(headers: seq<string>)
    requires |headers| == |OutputFieldnames|
    requires forall i :: 0 <= i < |headers| ==> Lower(headers[i]) == Lower(OutputFieldnames[i])
    ensures MissingColumns(headers) == {}
  {
    forall c | c in OutputFieldnames
      ensures c !in MissingColumns(headers)
    {
      var i :| 0 <= i < |OutputFieldnames| && OutputFieldnames[i] == c;
      NameKeyIgnoresCase(headers[i], c);
    }
  }

  /** The check is looser than the lookups that follow it: when the name
      column is spelled in another case (say `item name`), the input passes,
      yet its rows, keyed by the header as written, have no "Item Name" key,
      so `process_item_batch` looks every one of them up as "Unknown". */
  lemma {:induction false} LooseHeaderCheck(headers: seq<string>, row: Row)
    requires |headers| == |OutputFieldnames|
    requires forall i :: 0 <= i < |headers| ==> Lower(headers[i]) == Lower(OutputFieldnames[i])
    requires NameColumn !in headers
    requires Keys(row) == headers
    ensures MissingColumns(headers) == {}
    ensures RowName(row) == "Unknown"
  {
    CaseVariantsPass(headers);
  }

  /** The outcome of one `save_batch` call. */
  datatype SaveResult = Saved | SaveFailed(error: string)

  /** What happened around batch `i`: the reply to the correction call, the
      first save, and the save of the error batch if the first one raised. */
  datatype BatchEnv = BatchEnv(reply: CorrectionReply, save: SaveResult, retry: SaveResult)

  /** `save_batch`: mode "w" plus the header for the first batch, mode "a"
      otherwise; a save that cannot open the file leaves it as it was. */
  function SaveBatch(file: seq<Line>, rows: seq<Row>, first: bool, ok: bool): seq<Line>
  {
    if !ok then file
    else if first then [HeaderLine(OutputFieldnames)] + Records(rows, OutputFieldnames)
    else file + Records(rows, OutputFieldnames)
  }

  /** Mode "w" replaces whatever the file held with the header and the
      batch's records; mode "a" keeps the file and adds the records after
      it, with no second header; a failed open changes nothing. */
  lemma {:induction false} SaveBatchModes(file: seq<Line>, rows: seq<Row>, first: bool, ok: bool)
    ensures var r := SaveBatch(file, rows, first, ok);
      && (!ok ==> r == file)
      && (ok ==> |r| == (if first then 1 else |file|) + |rows|)
      && (ok && first ==> r[0] == HeaderLine(OutputFieldnames) && HeaderCount(r) == 1)
      && (ok && !first ==> r[..|file|] == file && HeaderCount(r) == HeaderCount(file))
      && (ok ==> r[|r| - |rows|..] == Records(rows, OutputFieldnames))
  {
    var records := Records(rows, OutputFieldnames);
    HeaderCountRecords(rows, OutputFieldnames);
    if ok && first {
      var h := [HeaderLine(OutputFieldnames)];
      HeaderCountAppend(h, records);
      assert HeaderCount(h) == 1 by { assert h[1..] == []; }
      assert (h + records)[1..] == records;
    } else if ok {
      HeaderCountAppend(file, records);
      assert (file + records)[..|file|] == file;
      assert (file + records)[|file|..] == records;
    }
  }

  /** The error batch of the critical-error handler. */
  function CriticalRows(rows: seq<Row>, error: string): (r: seq<Row>)
    ensures |r| == |rows|
    ensures Follows(r, rows, Rewritten)
    ensures forall j :: 0 <= j < |rows| ==>
      Get(r[j], RegionColumn) == Some(CriticalErrorPrefix + error) && Get(r[j], LoreColumn) == Some(CriticalErrorPrefix + error)
  {
    seq(|rows|, j requires 0 <= j < |rows| => SetRegionLore(rows[j], CriticalErrorPrefix + error, CriticalErrorPrefix + error))
  }

  /** The batch gets written: by the first save, or as the error batch. */
  predicate BatchWritten(e: BatchEnv) {
    e.save.Saved? || e.retry.Saved?
  }

  /** The rows batch `i` is written with, when it is written: the corrected
      rows, or, if their save raised, the same rows marked with the error. */
  function WrittenRows(batch: seq<Row>, e: BatchEnv, decode: string -> Option<seq<LoreCorrection>>): (r: seq<Row>)
    ensures |r| == |batch|
    ensures Follows(r, batch, Rewritten)
  {
    var processed := ProcessLoreBatch(batch, e.reply, decode);
    var r := if e.save.Saved? then processed else CriticalRows(processed, e.save.error);
    assert forall k :: 0 <= k < |r| ==> SameOutside(r[k], processed[k], Rewritten) && SameOutside(processed[k], batch[k], Rewritten);
    r
  }

  /** The output file after saving, in order, batches written with the rows
      `outs[i]`, where `oks[i]` says whether batch `i` reached the file. */
  function FileOf(outs: seq<seq<Row>>, oks: seq<bool>): (file: seq<Line>)
    requires |outs| == |oks|
    ensures (forall i :: 0 <= i < |oks| ==> !oks[i]) ==> file == []
    decreases |outs|
  {
    if |outs| == 0 then []
    else
      var n := |outs| - 1;
      SaveBatch(FileOf(outs[..n], oks[..n]), outs[n], n == 0, oks[n])
  }

  /** One more pass of the loop saves one more batch onto the file. */
  lemma {:induction false} FileOfSnoc(outs: seq<seq<Row>>, oks: seq<bool>, rows: seq<Row>, ok: bool)
    requires |outs| == |oks|
    ensures FileOf(outs + [rows], oks + [ok]) == SaveBatch(FileOf(outs, oks), rows, |outs| == 0, ok)
  {
    assert (outs + [rows])[..|outs|] == outs;
    assert (oks + [ok])[..|oks|] == oks;
  }

  /** The file holds one header exactly when the first batch was written,
      and then it is the first line: later batches only append records. */
  lemma {:induction false} HeaderOnce(outs: seq<seq<Row>>, oks: seq<bool>)
    requires |outs| == |oks|
    ensures HeaderCount(FileOf(outs, oks)) == if |oks| > 0 && oks[0] then 1 else 0
    ensures |oks| > 0 && oks[0] ==> |FileOf(outs, oks)| > 0 && FileOf(outs, oks)[0] == HeaderLine(OutputFieldnames)
    decreases |outs|
  {
    if |outs| > 0 {
      var n := |outs| - 1;
      HeaderOnce(outs[..n], oks[..n]);
      var prev := FileOf(outs[..n], oks[..n]);
      var records := Records(outs[n], OutputFieldnames);
      HeaderCountRecords(outs[n], OutputFieldnames);
      assert n > 0 ==> oks[..n][0] == oks[0];
      if oks[n] {
        if n == 0 {
          var h := [HeaderLine(OutputFieldnames)];
          HeaderCountAppend(h, records);
          assert HeaderCount(h) == 1 by { assert h[1..] == []; }
        } else {
          HeaderCountAppend(prev, records);
        }
      }
    }
  }

  lemma {:induction false} RecordsAppend(a: seq<Row>, b: seq<Row>, fieldnames: seq<string>)
    ensures Records(a + b, fieldnames) == Records(a, fieldnames) + Records(b, fieldnames)
  {
    var l := Records(a + b, fieldnames);
    var r := Records(a, fieldnames) + Records(b, fieldnames);
    assert |l| == |r|;
    forall k | 0 <= k < |l|
      ensures l[k] == r[k]
    {
      if k < |a| {
        assert (a + b)[k] == a[k];
      } else {
        assert (a + b)[k] == b[k - |a|];
      }
    }
  }

  /** When every batch was written, the file is the header followed by the
      records of all the batches' rows, in order. */
  lemma {:induction false} FileWhenAllWritten(outs: seq<seq<Row>>, oks: seq<bool>)
    requires |outs| == |oks| > 0
    requires forall i :: 0 <= i < |oks| ==> oks[i]
    ensures FileOf(outs, oks) == [HeaderLine(OutputFieldnames)] + Records(Flatten(outs), OutputFieldnames)
    decreases |outs|
  {
    var n := |outs| - 1;
    var init := outs[..n];
    assert init + [outs[n]] == outs;
    FlattenAppend(init, outs[n]);
    if n == 0 {
      assert Flatten(init) == [];
      assert [] + outs[n] == outs[n];
    } else {
      assert forall i :: 0 <= i < n ==> oks[..n][i] == oks[i];
      FileWhenAllWritten(init, oks[..n]);
      RecordsAppend(Flatten(init), outs[n], OutputFieldnames);
    }
  }

  /** The rows batches 0 .. n-1 are written with, batch by batch. */
  function LoreOuts(items: seq<Row>, size: nat, envs: seq<BatchEnv>, decode: string -> Option<seq<LoreCorrection>>, n: nat): (outs: seq<seq<Row>>)
    requires n <= |envs|
    ensures |outs| == n
  {
    if n == 0 then []
    else LoreOuts(items, size, envs, decode, n - 1) + [WrittenRows(IndexBatch(items, size, n - 1), envs[n - 1], decode)]
  }

  /** Entry `i` of `LoreOuts` is what batch `i` is written with, and it has
      one row per input row of the batch, agreeing with it outside Region and Lore. */
  lemma {:induction false} LoreOutsAt(items: seq<Row>, size: nat, envs: seq<BatchEnv>, decode: string -> Option<seq<LoreCorrection>>, n: nat, i: nat)
    requires i < n <= |envs|
    ensures LoreOuts(items, size, envs, decode, n)[i] == WrittenRows(IndexBatch(items, size, i), envs[i], decode)
    ensures BatchFollows(items, size, Rewritten, LoreOuts(items, size, envs, decode, n)[i], i)
  {
    var b := IndexBatch(items, size, i);
    var w := WrittenRows(b, envs[i], decode);
    assert LoreOuts(items, size, envs, decode, n)[i] == w by {
      var prev := LoreOuts(items, size, envs, decode, n - 1);
      assert LoreOuts(items, size, envs, decode, n) == prev + [WrittenRows(IndexBatch(items, size, n - 1), envs[n - 1], decode)];
      if i < n - 1 {
        LoreOutsAt(items, size, envs, decode, n - 1, i);
        assert LoreOuts(items, size, envs, decode, n)[i] == prev[i];
      }
    }
    assert BatchFollows(items, size, Rewritten, w, i) by {
      assert |w| == |b| && Follows(w, b, Rewritten);
    }
  }

  /** What the file of the batch loop holds: one header, first, exactly when
      the first batch was written; and when every batch was written, the
      header followed by one record per input row, in input order, each row
      differing from its input row in Region and Lore only. */
  predicate LoreFileSound(items: seq<Row>, size: nat, envs: seq<BatchEnv>, decode: string -> Option<seq<LoreCorrection>>, file: seq<Line>)
    requires size > 0 && |envs| >= NumBatches(|items|, size)
  {
    var n := NumBatches(|items|, size);
    var outs := LoreOuts(items, size, envs, decode, n);
    && HeaderCount(file) == (if |items| > 0 && BatchWritten(envs[0]) then 1 else 0)
    && (|items| > 0 && BatchWritten(envs[0]) ==> |file| > 0 && file[0] == HeaderLine(OutputFieldnames))
    && (|items| > 0 && (forall i :: 0 <= i < n ==> BatchWritten(envs[i])) ==>
          && |Flatten(outs)| == |items|
          && Follows(Flatten(outs), items, Rewritten)
          && file == [HeaderLine(OutputFieldnames)] + Records(Flatten(outs), OutputFieldnames))
  }

  /** The loop's bookkeeping gives the file its shape. */
  lemma {:induction false} LoreFileFacts(items: seq<Row>, size: nat, envs: seq<BatchEnv>, decode: string -> Option<seq<LoreCorrection>>, oks: seq<bool>)
    requires size > 0 && |envs| >= NumBatches(|items|, size)
    requires |oks| == NumBatches(|items|, size)
    requires forall i :: 0 <= i < |oks| ==> oks[i] == BatchWritten(envs[i])
    ensures LoreFileSound(items, size, envs, decode, FileOf(LoreOuts(items, size, envs, decode, |oks|), oks))
  {
    var n := |oks|;
    var outs := LoreOuts(items, size, envs, decode, n);
    HeaderOnce(outs, oks);
    assert n > 0 <==> |items| > 0;
    if |items| > 0 && forall i :: 0 <= i < n ==> BatchWritten(envs[i]) {
      forall i | 0 <= i < n
        ensures BatchFollows(items, size, Rewritten, outs[i], i)
      {
        LoreOutsAt(items, size, envs, decode, n, i);
      }
      ConcatFollows(items, size, Rewritten, outs);
      FileWhenAllWritten(outs, oks);
      assert Min(n * size, |items|) == |items|;
    }
  }

  /** One pass of the loop in `process_and_save_batches`: correct the batch
      and save it; if the save raises, mark the rows with the error and try
      once more. `rows` are the rows the batch is written with. */
  method RunBatch(file: seq<Line>, batch: seq<Row>, i: nat, e: BatchEnv, decode: string -> Option<seq<LoreCorrection>>)
    returns (file': seq<Line>, rows: seq<Row>)
    ensures |rows| == |batch| && Follows(rows, batch, Rewritten)
    ensures e.save.Saved? ==> rows == ProcessLoreBatch(batch, e.reply, decode)
    ensures !e.save.Saved? ==> rows == CriticalRows(ProcessLoreBatch(batch, e.reply, decode), e.save.error)
    ensures !e.save.Saved? ==> forall j :: 0 <= j < |rows| ==>
      Get(rows[j], RegionColumn) == Some(CriticalErrorPrefix + e.save.error)
      && Get(rows[j], LoreColumn) == Some(CriticalErrorPrefix + e.save.error)
    ensures !BatchWritten(e) ==> file' == file
    ensures BatchWritten(e) && i == 0 ==> file' == [HeaderLine(OutputFieldnames)] + Records(rows, OutputFieldnames)
    ensures BatchWritten(e) && i > 0 ==> file' == file + Records(rows, OutputFieldnames)
  {
    var processed := ProcessLoreBatch(batch, e.reply, decode);
    if e.save.Saved? {
      rows := processed;
      file' := SaveBatch(file, rows, i == 0, true);
    } else {
      rows := CriticalRows(processed, e.save.error);
      file' := SaveBatch(file, rows, i == 0, e.retry.Saved?);
    }
  }

  /** Batches 0 .. i-1 have been saved: `oks` records which of them reached
      the file, and the file is what those saves made of it. */
  predicate SavedSoFar(items: seq<Row>, size: nat, envs: seq<BatchEnv>, decode: string -> Option<seq<LoreCorrection>>, i: nat, oks: seq<bool>, file: seq<Line>)
    requires i <= |envs|
  {
    && |oks| == i
    && (forall k :: 0 <= k < i ==> oks[k] == BatchWritten(envs[k]))
    && file == FileOf(LoreOuts(items, size, envs, decode, i), oks)
  }

  /** Saving batch `i` with the rows it is written with extends what has
      been saved by that one batch. */
  lemma {:induction false} SavedSoFarStep(items: seq<Row>, size: nat, envs: seq<BatchEnv>, decode: string -> Option<seq<LoreCorrection>>,
                                          i: nat, oks: seq<bool>, file: seq<Line>, rows: seq<Row>, file': seq<Line>)
    requires i < |envs|
    requires SavedSoFar(items, size, envs, decode, i, oks, file)
    requires rows == WrittenRows(IndexBatch(items, size, i), envs[i], decode)
    requires file' == SaveBatch(file, rows, i == 0, BatchWritten(envs[i]))
    ensures SavedSoFar(items, size, envs, decode, i + 1, oks + [BatchWritten(envs[i])], file')
  {
    var outs := LoreOuts(items, size, envs, decode, i);
    var oks' := oks + [BatchWritten(envs[i])];
    assert forall k :: 0 <= k < i + 1 ==> oks'[k] == BatchWritten(envs[k]) by {
      assert forall k :: 0 <= k < i ==> oks'[k] == oks[k];
    }
    assert file' == FileOf(LoreOuts(items, size, envs, decode, i + 1), oks') by {
      assert LoreOuts(items, size, envs, decode, i + 1) == outs + [rows];
      FileOfSnoc(outs, oks, rows, BatchWritten(envs[i]));
    }
  }

  /** One pass of the loop in `process_and_save_batches`, on batch `i`. */
  method SavePass(items: seq<Row>, size: nat, envs: seq<BatchEnv>, decode: string -> Option<seq<LoreCorrection>>, i: nat, file: seq<Line>, oks: seq<bool>)
    returns (file': seq<Line>, oks': seq<bool>)
    requires i < |envs|
    requires SavedSoFar(items, size, envs, decode, i, oks, file)
    ensures SavedSoFar(items, size, envs, decode, i + 1, oks', file')
  {
    var start := i * size;
    OffsetIsProduct(i, size);
    var batch := Slice(items, start, start + size);
    assert batch == IndexBatch(items, size, i);
    var rows;
    file', rows := RunBatch(file, batch, i, envs[i], decode);
    assert rows == WrittenRows(batch, envs[i], decode);
    assert file' == SaveBatch(file, rows, i == 0, BatchWritten(envs[i]));
    SavedSoFarStep(items, size, envs, decode, i, oks, file, rows, file');
    oks' := oks + [BatchWritten(envs[i])];
  }

  /** `process_and_save_batches`: batch `i` is met by `envs[i]`. */
  method ProcessAndSaveBatches(items: seq<Row>, size: nat, envs: seq<BatchEnv>, decode: string -> Option<seq<LoreCorrection>>)
    returns (file: seq<Line>)
    requires size > 0 && |envs| >= NumBatches(|items|, size)
    ensures LoreFileSound(items, size, envs, decode, file)
  {
    var n := NumBatches(|items|, size);
    file := [];
    var oks: seq<bool> := [];
    var i := 0;
    while i < n
      invariant 0 <= i <= n
      invariant SavedSoFar(items, size, envs, decode, i, oks, file)
    {
      file, oks := SavePass(items, size, envs, decode, i, file, oks);
      i := i + 1;
    }
    LoreFileFacts(items, size, envs, decode, oks);
  }

  /** How a run of `main` ends. */
  datatype LoreRun =
    | NoHeaders
    | MissingRequired(columns: set<string>)
    | EmptyInput
    | InitFailed
    | Finished(file: seq<Line>)

  /** `main` after the file names are read: the checks in their order, then
      the emptied output file and the batch loop with `BATCH_SIZE`. */
  method CorrectLore(headers: seq<string>, rows: seq<Row>, initOk: bool, envs: seq<BatchEnv>, decode: string -> Option<seq<LoreCorrection>>)
    returns (run: LoreRun)
    requires |envs| >= NumBatches(|rows|, BatchSize)
    ensures run.NoHeaders? <==> |headers| == 0
    ensures run.MissingRequired? <==> |headers| > 0 && MissingColumns(headers) != {}
    ensures run.MissingRequired? ==> run.columns == MissingColumns(headers)
    ensures run.EmptyInput? <==> |headers| > 0 && MissingColumns(headers) == {} && |rows| == 0
    ensures run.InitFailed? <==> |headers| > 0 && MissingColumns(headers) == {} && |rows| > 0 && !initOk
    ensures run.Finished? ==> LoreFileSound(rows, BatchSize, envs, decode, run.file)
  {
    if |headers| == 0 {
      return NoHeaders;
    }
    var missing := MissingColumns(headers);
    if missing != {} {
      return MissingRequired(missing);
    }
    if |rows| == 0 {
      return EmptyInput;
    }
    if !initOk {
      return InitFailed;
    }
    var file := ProcessAndSaveBatches(rows, BatchSize, envs, decode);
    return Finished(file);
  }
}
