/** generate_osr_powers.py: give every row an OSRPower, batch by batch,
    joining the model's results to rows by position, then write all rows
    under the first row's columns. The model call is a parameter:
    `replies[i]` is what the call for batch `i` gave. */
module OsrPowers {
  import opened Wrappers
  import opened Table
  import opened Seqs
  import opened Batching
  import opened RowBatches

  const PowerColumn := "OSRPower"
  const BatchSize := 5

  const NoPower := "No power generated"
  const PowerError := "Error generating power"

  /** The columns `create_batch_prompt` reads with `item[...]`, which
      raises for a row that lacks one. */
  const PromptColumns: seq<string> := ["Item Name", "Region", "Lore", "DescriptionGame", "DescriptionLore"]

  /** The only column the script writes. */
  const Powered: set<string> := {PowerColumn}

  /** One `OSRItemPower` of the reply. */
  datatype ItemPower = ItemPower(itemName: string, osrPower: string)

  /** What the call for one batch gave: it raised, or it returned, with
      `response.parsed` either absent (reading its items then raises) or the
      batch's results. */
  datatype PowerReply = Failed(error: string) | Returned(parsed: Option<seq<ItemPower>>)

  /** The power row `j` of a batch gets: result `j` when there is one, the
      fallback when the reply is short, the error note when the call or the
      reading of its results raised. */
  function PowerFor(j: nat, reply: PowerReply): string {
    match reply
    case Returned(Some(rs)) => if j < |rs| then rs[j].osrPower else NoPower
    case _ => PowerError
  }

  /** `item["OSRPower"] = text`. */
  function SetPower(row: Row, text: string): (r: Row)
    ensures Get(r, PowerColumn) == Some(text)
    ensures SameOutside(r, row, Powered)
    ensures Keys(row) <= Keys(r)
    ensures PowerColumn in Keys(r)
  {
    WithoutSet(row, PowerColumn, text, Powered);
    Set(row, PowerColumn, text)
  }

  /** One batch: every row appended once, in order, with its power. */
  function ProcessPowerBatch(batch: seq<Row>, reply: PowerReply): (r: seq<Row>)
    ensures |r| == |batch|
    ensures Follows(r, batch, Powered)
  {
    seq(|batch|, j requires 0 <= j < |batch| => SetPower(batch[j], PowerFor(j, reply)))
  }

  /** The join is by position only: the names in the results play no part,
      and results beyond the batch's length are ignored. */
  lemma {:induction false} PositionalJoin(batch: seq<Row>, rs: seq<ItemPower>, rs': seq<ItemPower>)
    requires |rs| == |rs'| || (|rs| >= |batch| && |rs'| >= |batch|)
    requires forall j :: 0 <= j < |rs| && j < |rs'| ==> rs[j].osrPower == rs'[j].osrPower
    ensures ProcessPowerBatch(batch, Returned(Some(rs))) == ProcessPowerBatch(batch, Returned(Some(rs')))
  {
    var a := ProcessPowerBatch(batch, Returned(Some(rs)));
    var b := ProcessPowerBatch(batch, Returned(Some(rs')));
    forall j | 0 <= j < |batch|
      ensures a[j] == b[j]
    {
      assert PowerFor(j, Returned(Some(rs))) == PowerFor(j, Returned(Some(rs')));
    }
  }

  /** The outputs of the first `n` batches. */
  function PowerOuts(batches: seq<seq<Row>>, replies: seq<PowerReply>, n: nat): (outs: seq<seq<Row>>)
    requires n <= |batches| && n <= |replies|
    ensures |outs| == n
  {
    if n == 0 then []
    else PowerOuts(batches, replies, n - 1) + [ProcessPowerBatch(batches[n - 1], replies[n - 1])]
  }

  lemma {:induction false} PowerOutsAt(batches: seq<seq<Row>>, replies: seq<PowerReply>, n: nat, i: nat)
    requires i < n <= |batches| && n <= |replies|
    ensures PowerOuts(batches, replies, n)[i] == ProcessPowerBatch(batches[i], replies[i])
  {
    var prev := PowerOuts(batches, replies, n - 1);
    assert PowerOuts(batches, replies, n) == prev + [ProcessPowerBatch(batches[n - 1], replies[n - 1])];
    if i < n - 1 {
      PowerOutsAt(batches, replies, n - 1, i);
      assert PowerOuts(batches, replies, n)[i] == prev[i];
    }
  }

  /** The `results` list `process_item_batch` returns when no prompt raises. */
  function PowerResults(items: seq<Row>, replies: seq<PowerReply>): seq<Row>
    requires |replies| >= NumBatches(|items|, BatchSize)
  {
    ChunksCount(items, BatchSize);
    var batches := Chunks(items, BatchSize);
    Flatten(PowerOuts(batches, replies, |batches|))
  }

  /** The results hold one row per input row, in input order, each equal to
      its input row outside OSRPower. */
  lemma {:induction false} PowerResultsFollow(items: seq<Row>, replies: seq<PowerReply>)
    requires |replies| >= NumBatches(|items|, BatchSize)
    ensures |PowerResults(items, replies)| == |items|
    ensures Follows(PowerResults(items, replies), items, Powered)
  {
    ChunksCount(items, BatchSize);
    ChunksCover(items, BatchSize);
    var batches := Chunks(items, BatchSize);
    var outs := PowerOuts(batches, replies, |batches|);
    forall i | 0 <= i < |outs|
      ensures |outs[i]| == |batches[i]| && Follows(outs[i], batches[i], Powered)
    {
      PowerOutsAt(batches, replies, |batches|, i);
    }
    FollowsFlatten(outs, batches, Powered);
  }

  /** Result row `k` is input row `k` with the power at its position `k % 5`
      in the reply to its batch, number `k / 5`. */
  lemma {:induction false} PowerResultsAt(items: seq<Row>, replies: seq<PowerReply>, k: nat)
    requires |replies| >= NumBatches(|items|, BatchSize)
    requires k < |items|
    ensures k < |PowerResults(items, replies)|
    ensures PowerResults(items, replies)[k] == SetPower(items[k], PowerFor(k % BatchSize, replies[k / BatchSize]))
  {
    var i := k / BatchSize;
    var j := k % BatchSize;
    assert k == i * BatchSize + j;
    ChunkIndex(items, BatchSize, i, j);
    ChunksCount(items, BatchSize);
    ChunksCover(items, BatchSize);
    var batches := Chunks(items, BatchSize);
    var outs := PowerOuts(batches, replies, |batches|);
    PowerOutsLengths(batches, replies, |batches|);
    PowerOutsAt(batches, replies, |batches|, i);
    FlattenAt(outs, BatchSize, i, j);
  }

  /** Each batch's output has one row per row of the batch. */
  lemma {:induction false} PowerOutsLengths(batches: seq<seq<Row>>, replies: seq<PowerReply>, n: nat)
    requires n <= |batches| && n <= |replies|
    ensures forall b :: 0 <= b < n ==> |PowerOuts(batches, replies, n)[b]| == |batches[b]|
  {
    if n > 0 {
      PowerOutsLengths(batches, replies, n - 1);
    }
  }

  /** The row has every column the prompt reads. */
  predicate PromptReady(row: Row) {
    forall c :: c in PromptColumns ==> c in Keys(row)
  }

  /** Every row of every batch below `i` is ready. */
  predicate ReadyBelow(batches: seq<seq<Row>>, i: nat)
    requires i <= |batches|
  {
    forall b, row :: 0 <= b < i && row in batches[b] ==> PromptReady(row)
  }

  /** `process_item_batch`: the comprehension's batches, in order, each met
      by its reply. Building a batch's prompt raises outside the `try` when a
      row lacks a prompt column, which ends the whole run: then the result is
      None. `time.sleep` between batches is left out. */
  method ProcessItemBatch(items: seq<Row>, replies: seq<PowerReply>) returns (results: Option<seq<Row>>)
    requires |replies| >= NumBatches(|items|, BatchSize)
    ensures results.None? <==> exists row :: row in items && !PromptReady(row)
    ensures results.Some? ==> results.value == PowerResults(items, replies)
    ensures results.Some? ==> |results.value| == |items| && Follows(results.value, items, Powered)
  {
    ChunksCount(items, BatchSize);
    var batches := Chunks(items, BatchSize);
    var done: seq<Row> := [];
    var i := 0;
    while i < |batches|
      invariant 0 <= i <= |batches|
      invariant done == Flatten(PowerOuts(batches, replies, i))
      invariant ReadyBelow(batches, i)
    {
      var batch := batches[i];
      if exists row :: row in batch && !PromptReady(row) {
        UnreadyRow(items, i);
        return None;
      }
      var rows := ProcessPowerBatch(batch, replies[i]);
      FlattenAppend(PowerOuts(batches, replies, i), rows);
      done := done + rows;
      i := i + 1;
    }
    AllReady(items);
    PowerResultsFollow(items, replies);
    return Some(done);
  }

  /** A row of some batch that the prompt cannot read is a row of the input. */
  lemma {:induction false} UnreadyRow(items: seq<Row>, i: nat)
    requires i < |Chunks(items, BatchSize)|
    requires exists row :: row in Chunks(items, BatchSize)[i] && !PromptReady(row)
    ensures exists row :: row in items && !PromptReady(row)
  {
    var batches := Chunks(items, BatchSize);
    ChunksCover(items, BatchSize);
    FlattenMember(batches, i);
    var row :| row in batches[i] && !PromptReady(row);
    assert row in Flatten(batches);
  }

  /** When every batch is ready, every input row is. */
  lemma {:induction false} AllReady(items: seq<Row>)
    requires ReadyBelow(Chunks(items, BatchSize), |Chunks(items, BatchSize)|)
    ensures forall row :: row in items ==> PromptReady(row)
  {
    var batches := Chunks(items, BatchSize);
    ChunksCover(items, BatchSize);
    forall row | row in items
      ensures PromptReady(row)
    {
      FlattenMemberOf(batches, row);
    }
  }

  /** Every row of batch `i` is a row of the concatenation. */
  lemma {:induction false} FlattenMember(batches: seq<seq<Row>>, i: nat)
    requires i < |batches|
    ensures forall row :: row in batches[i] ==> row in Flatten(batches)
    decreases |batches|
  {
    if i > 0 {
      FlattenMember(batches[1..], i - 1);
      assert batches[1..][i - 1] == batches[i];
    }
  }

  /** Every row of the concatenation comes from some batch. */
  lemma {:induction false} FlattenMemberOf(batches: seq<seq<Row>>, row: Row)
    requires row in Flatten(batches)
    ensures exists b :: 0 <= b < |batches| && row in batches[b]
    decreases |batches|
  {
    if row !in batches[0] {
      FlattenMemberOf(batches[1..], row);
      var b :| 0 <= b < |batches| - 1 && row in batches[1..][b];
      assert batches[b + 1] == batches[1..][b];
    }
  }

  /** `list(all_items[0].keys()) + ["OSRPower"]` as the script evaluates it:
      the first row was given its OSRPower in place while its batch was
      processed, so its keys already end the list with that column. */
  function FieldnamesAsWritten(items: seq<Row>, replies: seq<PowerReply>): seq<string>
    requires |replies| >= NumBatches(|items|, BatchSize)
    requires |items| > 0
  {
    PowerResultsFollow(items, replies);
    Keys(PowerResults(items, replies)[0]) + [PowerColumn]
  }

  /** For every non-empty input the header as written names OSRPower twice,
      so every record carries the power in two columns. */
  lemma {:induction false} FieldnamesAsWrittenRepeat(items: seq<Row>, replies: seq<PowerReply>)
    requires |replies| >= NumBatches(|items|, BatchSize)
    requires |items| > 0
    ensures !Distinct(FieldnamesAsWritten(items, replies))
    ensures exists p :: 0 <= p < |FieldnamesAsWritten(items, replies)| - 1 && FieldnamesAsWritten(items, replies)[p] == PowerColumn
    ensures FieldnamesAsWritten(items, replies)[|FieldnamesAsWritten(items, replies)| - 1] == PowerColumn
  {
    PowerResultsAt(items, replies, 0);
    var first := PowerResults(items, replies)[0];
    var fs := FieldnamesAsWritten(items, replies);
    assert PowerColumn in Keys(first);
    var p :| 0 <= p < |Keys(first)| && Keys(first)[p] == PowerColumn;
    assert fs[p] == PowerColumn && fs[|fs| - 1] == PowerColumn;
  }

  /** A one-row input shows it: the written header is
      `Item Name, OSRPower, OSRPower`. */
  lemma {:induction false} FieldnamesAsWrittenExample(name: string, reply: PowerReply)
    ensures FieldnamesAsWritten([[Cell("Item Name", name)]], [reply]) == ["Item Name", PowerColumn, PowerColumn]
  {
    var items := [[Cell("Item Name", name)]];
    PowerResultsAt(items, [reply], 0);
    var first := SetPower(items[0], PowerFor(0, reply));
    assert Keys(first) == ["Item Name", PowerColumn];
  }

  /** The header the comment in `main` describes: the input's columns, as
      read, plus OSRPower unless the input already has it. */
  function Fieldnames(first: Row): (fs: seq<string>)
    ensures Keys(first) <= fs
    ensures PowerColumn in fs
  {
    if PowerColumn in Keys(first) then Keys(first) else Keys(first) + [PowerColumn]
  }

  /** The corrected header never repeats a column of a well-formed row, so
      OSRPower occurs in it once. */
  lemma {:induction false} FieldnamesDistinct(first: Row)
    requires Distinct(Keys(first))
    ensures Distinct(Fieldnames(first))
  {
    var ks := Keys(first);
    var fs := Fieldnames(first);
    if PowerColumn !in ks {
      forall i, j | 0 <= i < j < |fs|
        ensures fs[i] != fs[j]
      {
        if j == |ks| {
          assert fs[i] == ks[i];
        }
      }
    }
  }

  /** Every key of the row is a fieldname: `DictWriter` with the default
      `extrasaction='raise'` accepts the row. */
  predicate Fits(row: Row, fieldnames: seq<string>) {
    forall k :: 0 <= k < |row| ==> row[k].key in fieldnames
  }

  /** `writerows` with `extrasaction='raise'`: rows are written in order
      until one has a key outside the fieldnames, which raises. */
  function WriteRows(rows: seq<Row>, fieldnames: seq<string>): (lines: seq<Line>)
    ensures |lines| <= |rows|
    ensures forall k :: 0 <= k < |lines| ==> Fits(rows[k], fieldnames) && lines[k] == RecordLine(Project(rows[k], fieldnames))
    decreases |rows|
  {
    if |rows| == 0 || !Fits(rows[0], fieldnames) then []
    else [RecordLine(Project(rows[0], fieldnames))] + WriteRows(rows[1..], fieldnames)
  }

  /** What reaches the file is exactly the records of the rows before the
      first one that does not fit. */
  lemma {:induction false} WriteRowsPrefix(rows: seq<Row>, fieldnames: seq<string>, p: nat)
    requires p <= |rows|
    requires forall k :: 0 <= k < p ==> Fits(rows[k], fieldnames)
    requires p < |rows| ==> !Fits(rows[p], fieldnames)
    ensures WriteRows(rows, fieldnames) == Records(rows[..p], fieldnames)
    decreases p
  {
    if p > 0 {
      WriteRowsPrefix(rows[1..], fieldnames, p - 1);
      assert rows[..p] == [rows[0]] + rows[1..][..p - 1];
      assert Records(rows[..p], fieldnames)[1..] == Records(rows[1..][..p - 1], fieldnames);
    }
  }

  /** Opening the file, `writeheader()` and `writerows(rows)`: the header,
      then the rows up to the first that does not fit; `complete` says
      whether every row was written. */
  method WriteOutput(rows: seq<Row>, fieldnames: seq<string>) returns (file: seq<Line>, written: nat, complete: bool)
    ensures written <= |rows|
    ensures forall k :: 0 <= k < written ==> Fits(rows[k], fieldnames)
    ensures written < |rows| ==> !Fits(rows[written], fieldnames)
    ensures file == [HeaderLine(fieldnames)] + Records(rows[..written], fieldnames)
    ensures complete <==> written == |rows|
    ensures complete <==> forall k :: 0 <= k < |rows| ==> Fits(rows[k], fieldnames)
    ensures complete ==> file == [HeaderLine(fieldnames)] + Records(rows, fieldnames)
  {
    var p := 0;
    while p < |rows| && Fits(rows[p], fieldnames)
      invariant 0 <= p <= |rows|
      invariant forall k :: 0 <= k < p ==> Fits(rows[k], fieldnames)
    {
      p := p + 1;
    }
    WriteRowsPrefix(rows, fieldnames, p);
    if p == |rows| {
      assert rows[..p] == rows;
    }
    file := [HeaderLine(fieldnames)] + WriteRows(rows, fieldnames);
    written := p;
    complete := p == |rows|;
  }

  /** How `main` ends. */
  datatype OsrRun =
    | NoApiKey
    | PromptKeyMissing
    | EmptyInput
    | Written(file: seq<Line>, complete: bool)

  /** `main` once the file names are read, with the corrected header: the
      API key check, the batches, the header from the first row, one write.
      An empty input fails on `all_items[0]` after the (empty) processing; a
      row that does not fit the header makes `writerows` raise after the
      header and the rows before it were written. */
  method GenerateOsrPowers(apiOk: bool, items: seq<Row>, replies: seq<PowerReply>) returns (run: OsrRun)
    requires |replies| >= NumBatches(|items|, BatchSize)
    ensures run.NoApiKey? <==> !apiOk
    ensures run.PromptKeyMissing? <==> apiOk && exists row :: row in items && !PromptReady(row)
    ensures run.EmptyInput? <==> apiOk && |items| == 0
    ensures run.Written? ==> |items| > 0 && |run.file| > 0 && run.file[0] == HeaderLine(Fieldnames(items[0]))
    ensures run.Written? ==> |PowerResults(items, replies)| == |items|
    ensures run.Written? ==>
      (run.complete <==> forall k :: 0 <= k < |items| ==> Fits(PowerResults(items, replies)[k], Fieldnames(items[0])))
    ensures run.Written? && run.complete ==>
      run.file == [HeaderLine(Fieldnames(items[0]))] + Records(PowerResults(items, replies), Fieldnames(items[0]))
  {
    if !apiOk {
      return NoApiKey;
    }
    var processed := ProcessItemBatch(items, replies);
    if processed.None? {
      return PromptKeyMissing;
    }
    if |items| == 0 {
      return EmptyInput;
    }
    var file, _, complete := WriteOutput(processed.value, Fieldnames(items[0]));
    return Written(file, complete);
  }
}
