/** correct_to_5e.py: rewrite one description column of every row into
    D&D 5e phrasing, batch by batch, joining the model's results to rows by
    exact item name, then write every row with the new column appended once.
    The model call is a parameter: `replies[i]` is what the call for batch
    `i` gave. */
module Description5e {
  import opened Wrappers
  import opened Table
  import opened Seqs
  import opened Batching
  import opened RowBatches

  const InputColumn := "DescriptionLore"
  const OutputColumn := "Description5e"
  const BatchSize := 5

  const NoDescription := "No description generated"
  const ParseError := "Error parsing response"
  const NoResponse := "Error receiving response"
  const ErrorPrefix := "Error: "

  /** The only column the script writes. */
  const Described: set<string> := {OutputColumn}

  /** One `Item5eDescription` of the reply. */
  datatype Item5e = Item5e(itemName: string, description: string)

  /** What the call for one batch gave: it raised (with the exception's
      text); the reply had no candidate or no part; the first part carried
      no usable function call; or it carried the batch's results. */
  datatype DescReply =
    | Raised(error: string)
    | NoContent
    | Unparsed
    | Parsed(results: seq<Item5e>)

  /** `{res.item_name: res.corrected_description_5e for res in ...}`: keyed by
      the exact name; when names repeat, the last result wins. */
  function DescriptionMap(rs: seq<Item5e>): map<string, string>
  {
    if |rs| == 0 then map[]
    else DescriptionMap(rs[..|rs| - 1])[rs[|rs| - 1].itemName := rs[|rs| - 1].description]
  }

  /** Result `j` is the last of `rs` named `name`. */
  predicate LastNamed(rs: seq<Item5e>, j: int, name: string)
    requires 0 <= j < |rs|
  {
    rs[j].itemName == name && forall j' :: j < j' < |rs| ==> rs[j'].itemName != name
  }

  /** The map has exactly the names the results carry, each mapped to the
      description of the last result with that name. */
  lemma {:induction false} DescriptionMapSpec(rs: seq<Item5e>)
    ensures forall name :: name in DescriptionMap(rs) <==> exists j :: 0 <= j < |rs| && rs[j].itemName == name
    ensures forall name, j :: 0 <= j < |rs| && LastNamed(rs, j, name) ==>
      name in DescriptionMap(rs) && DescriptionMap(rs)[name] == rs[j].description
  {
    if |rs| > 0 {
      var n := |rs| - 1;
      var init := rs[..n];
      DescriptionMapSpec(init);
      assert forall j :: 0 <= j < n ==> init[j] == rs[j];
      forall name, j | 0 <= j < |rs| && LastNamed(rs, j, name)
        ensures name in DescriptionMap(rs) && DescriptionMap(rs)[name] == rs[j].description
      {
        if j < n {
          assert LastNamed(init, j, name);
        }
      }
    }
  }

  /** The text batch reply `reply` puts into a row's Description5e. */
  function DescriptionFor(row: Row, reply: DescReply): string {
    match reply
    case Raised(e) => ErrorPrefix + e
    case NoContent => NoResponse
    case Unparsed => ParseError
    case Parsed(rs) =>
      var m := DescriptionMap(rs);
      if RowName(row) in m then m[RowName(row)] else NoDescription
  }

  /** Each failure gives its own sentinel; a parsed reply gives the
      description of the last result carrying the row's exact name, and the
      no-description sentinel when no result carries it. */
  lemma {:induction false} DescriptionForSpec(row: Row, reply: DescReply)
    ensures reply.Raised? ==> DescriptionFor(row, reply) == ErrorPrefix + reply.error
    ensures reply.NoContent? ==> DescriptionFor(row, reply) == NoResponse
    ensures reply.Unparsed? ==> DescriptionFor(row, reply) == ParseError
    ensures reply.Parsed? ==> forall j :: 0 <= j < |reply.results| && LastNamed(reply.results, j, RowName(row)) ==>
      DescriptionFor(row, reply) == reply.results[j].description
    ensures reply.Parsed? && (forall j :: 0 <= j < |reply.results| ==> reply.results[j].itemName != RowName(row)) ==>
      DescriptionFor(row, reply) == NoDescription
  {
    if reply.Parsed? {
      DescriptionMapSpec(reply.results);
    }
  }

  /** `item[OUTPUT_DESCRIPTION_COLUMN] = text`. */
  function SetDescription(row: Row, text: string): (r: Row)
    ensures Get(r, OutputColumn) == Some(text)
    ensures SameOutside(r, row, Described)
    ensures Keys(row) <= Keys(r)
  {
    WithoutSet(row, OutputColumn, text, Described);
    Set(row, OutputColumn, text)
  }

  /** One batch: every row of it appended to the results once, in order,
      with its Description5e set from the reply. */
  function ProcessDescBatch(batch: seq<Row>, reply: DescReply): (r: seq<Row>)
    ensures |r| == |batch|
    ensures Follows(r, batch, Described)
  {
    seq(|batch|, j requires 0 <= j < |batch| => SetDescription(batch[j], DescriptionFor(batch[j], reply)))
  }

  /** The outputs of the first `n` batches. */
  function DescOuts(batches: seq<seq<Row>>, replies: seq<DescReply>, n: nat): (outs: seq<seq<Row>>)
    requires n <= |batches| && n <= |replies|
    ensures |outs| == n
  {
    if n == 0 then []
    else DescOuts(batches, replies, n - 1) + [ProcessDescBatch(batches[n - 1], replies[n - 1])]
  }

  lemma {:induction false} DescOutsAt(batches: seq<seq<Row>>, replies: seq<DescReply>, n: nat, i: nat)
    requires i < n <= |batches| && n <= |replies|
    ensures DescOuts(batches, replies, n)[i] == ProcessDescBatch(batches[i], replies[i])
  {
    var prev := DescOuts(batches, replies, n - 1);
    assert DescOuts(batches, replies, n) == prev + [ProcessDescBatch(batches[n - 1], replies[n - 1])];
    if i < n - 1 {
      DescOutsAt(batches, replies, n - 1, i);
      assert DescOuts(batches, replies, n)[i] == prev[i];
    }
  }

  /** The `results` list `process_item_batch` returns. */
  function DescResults(items: seq<Row>, replies: seq<DescReply>): seq<Row>
    requires |replies| >= NumBatches(|items|, BatchSize)
  {
    ChunksCount(items, BatchSize);
    var batches := Chunks(items, BatchSize);
    Flatten(DescOuts(batches, replies, |batches|))
  }

  /** The results hold one row per input row, in input order, each equal to
      its input row outside Description5e. */
  lemma {:induction false} DescResultsFollow(items: seq<Row>, replies: seq<DescReply>)
    requires |replies| >= NumBatches(|items|, BatchSize)
    ensures |DescResults(items, replies)| == |items|
    ensures Follows(DescResults(items, replies), items, Described)
  {
    ChunksCount(items, BatchSize);
    ChunksCover(items, BatchSize);
    var batches := Chunks(items, BatchSize);
    var outs := DescOuts(batches, replies, |batches|);
    forall i | 0 <= i < |outs|
      ensures |outs[i]| == |batches[i]| && Follows(outs[i], batches[i], Described)
    {
      DescOutsAt(batches, replies, |batches|, i);
    }
    FollowsFlatten(outs, batches, Described);
  }

  /** Result row `k` is input row `k` with the description that the reply to
      its batch, number `k / 5`, gives it. */
  lemma {:induction false} DescResultsAt(items: seq<Row>, replies: seq<DescReply>, k: nat)
    requires |replies| >= NumBatches(|items|, BatchSize)
    requires k < |items|
    ensures k < |DescResults(items, replies)|
    ensures DescResults(items, replies)[k] == SetDescription(items[k], DescriptionFor(items[k], replies[k / BatchSize]))
  {
    var i := k / BatchSize;
    var j := k % BatchSize;
    assert k == i * BatchSize + j;
    ChunkIndex(items, BatchSize, i, j);
    ChunksCount(items, BatchSize);
    ChunksCover(items, BatchSize);
    var batches := Chunks(items, BatchSize);
    var outs := DescOuts(batches, replies, |batches|);
    DescOutsLengths(batches, replies, |batches|);
    DescOutsAt(batches, replies, |batches|, i);
    FlattenAt(outs, BatchSize, i, j);
  }

  /** Each batch's output has one row per row of the batch. */
  lemma {:induction false} DescOutsLengths(batches: seq<seq<Row>>, replies: seq<DescReply>, n: nat)
    requires n <= |batches| && n <= |replies|
    ensures forall b :: 0 <= b < n ==> |DescOuts(batches, replies, n)[b]| == |batches[b]|
  {
    if n > 0 {
      DescOutsLengths(batches, replies, n - 1);
    }
  }

  /** `process_item_batch`: the comprehension's batches, in order, each met
      by its reply; `time.sleep` between batches is left out. */
  method ProcessItemBatch(items: seq<Row>, replies: seq<DescReply>) returns (results: seq<Row>)
    requires |replies| >= NumBatches(|items|, BatchSize)
    ensures results == DescResults(items, replies)
    ensures |results| == |items|
    ensures Follows(results, items, Described)
  {
    ChunksCount(items, BatchSize);
    var batches := Chunks(items, BatchSize);
    results := [];
    var i := 0;
    while i < |batches|
      invariant 0 <= i <= |batches|
      invariant results == Flatten(DescOuts(batches, replies, i))
    {
      var rows := ProcessDescBatch(batches[i], replies[i]);
      FlattenAppend(DescOuts(batches, replies, i), rows);
      results := results + rows;
      i := i + 1;
    }
    DescResultsFollow(items, replies);
  }

  /** The output header: the input's fieldnames, with Description5e appended
      unless it is already one of them. */
  function Fieldnames(headers: seq<string>): (fs: seq<string>)
    ensures headers <= fs
    ensures OutputColumn in fs
  {
    if OutputColumn in headers then headers else headers + [OutputColumn]
  }

  /** Appending only when absent never duplicates a column: distinct input
      fieldnames stay distinct, so Description5e, always present, occurs once. */
  lemma {:induction false} FieldnamesDistinct(headers: seq<string>)
    requires Distinct(headers)
    ensures Distinct(Fieldnames(headers))
  {
    var fs := Fieldnames(headers);
    if OutputColumn !in headers {
      forall i, j | 0 <= i < j < |fs|
        ensures fs[i] != fs[j]
      {
        if j == |headers| {
          assert fs[i] == headers[i];
        }
      }
    }
  }

  /** How `main` ends. */
  datatype Run5e =
    | NoApiKey
    | NoHeader
    | MissingColumn
    | EmptyInput
    | Written(file: seq<Line>)

  /** `main` once the file names are read: the API key check, the exact
      (case-sensitive) input column check, the empty-input exit, then the
      batches and one write of the header and all the rows. A file without a
      header line makes the column check raise; it is reported like any
      unexpected error. */
  method Correct5e(apiOk: bool, headers: seq<string>, items: seq<Row>, replies: seq<DescReply>) returns (run: Run5e)
    requires |replies| >= NumBatches(|items|, BatchSize)
    ensures run.NoApiKey? <==> !apiOk
    ensures run.NoHeader? <==> apiOk && |headers| == 0
    ensures run.MissingColumn? <==> apiOk && |headers| > 0 && InputColumn !in headers
    ensures run.EmptyInput? <==> apiOk && InputColumn in headers && |items| == 0
    ensures run.Written? ==> |items| > 0 && InputColumn in headers
    ensures run.Written? ==> |run.file| == |items| + 1
    ensures run.Written? ==> run.file == [HeaderLine(Fieldnames(headers))] + Records(DescResults(items, replies), Fieldnames(headers))
  {
    if !apiOk {
      return NoApiKey;
    }
    if |headers| == 0 {
      return NoHeader;
    }
    if InputColumn !in headers {
      return MissingColumn;
    }
    if |items| == 0 {
      return EmptyInput;
    }
    var processed := ProcessItemBatch(items, replies);
    var fieldnames := Fieldnames(headers);
    return Written([HeaderLine(fieldnames)] + Records(processed, fieldnames));
  }

  /** In the written file, record `k + 1` holds, under Description5e, the
      text the reply to row `k`'s batch gives that row. */
  lemma {:induction false} WrittenDescription(headers: seq<string>, items: seq<Row>, replies: seq<DescReply>, k: nat, p: nat)
    requires |replies| >= NumBatches(|items|, BatchSize)
    requires k < |items|
    requires p < |Fieldnames(headers)| && Fieldnames(headers)[p] == OutputColumn
    ensures var lines := Records(DescResults(items, replies), Fieldnames(headers));
      k < |lines| && lines[k].fields[p] == DescriptionFor(items[k], replies[k / BatchSize])
  {
    DescResultsAt(items, replies, k);
    var fs := Fieldnames(headers);
    var r := DescResults(items, replies)[k];
    assert Records(DescResults(items, replies), fs)[k].fields == Project(r, fs);
  }
}
