/** Step 2 of `process_item_batch` in correct_lore.py: strip code fences
    from the model's reply, build the result map keyed by normalized item
    name, and write Region and Lore back onto every row of the batch, with
    a sentinel where no result applies. The JSON decoding and schema
    validation of the reply are a parameter, `decode`. */
module LoreResponse {
  import opened Wrappers
  import opened Text
  import opened Table
  import opened RowBatches
  import opened Seqs

  const RegionColumn := "Region"
  const LoreColumn := "Lore"

  const NoDataSentinel := "Error: No data returned for item"
  const ParseFailureSentinel := "Error: Failed parsing correction response"
  const CorrectionErrorPrefix := "Error during correction: "

  /** One validated `ItemLoreCorrection` from the reply. */
  datatype LoreCorrection = LoreCorrection(itemName: string, correctedRegion: string, correctedLore: string)

  /** The value side of `results_map`. */
  datatype RegionLore = RegionLore(region: string, lore: string)

  /** What the Step 2 call gave: it raised (with the exception's text), or it
      returned, with the text of the first part of the first candidate when
      there is such a part. */
  datatype CorrectionReply = Raised(error: string) | Replied(text: Option<string>)

  /** The two columns Step 2 writes. */
  const Rewritten: set<string> := {RegionColumn, LoreColumn}

  /** `s.strip().lower()`: the key that joins model results to rows. */
  function NameKey(s: string): string {
    Lower(Strip(s))
  }

  /** The join key ignores surrounding whitespace. */
  lemma {:induction false} NameKeyIgnoresPadding(w1: string, s: string, w2: string)
    requires AllSpace(w1) && AllSpace(w2)
    ensures NameKey(w1 + s + w2) == NameKey(s)
  {
    StripIgnoresPadding(w1, s, w2);
  }

  /** The join key ignores ASCII case: names equal up to case join. */
  lemma {:induction false} NameKeyIgnoresCase(s: string, t: string)
    requires Lower(s) == Lower(t)
    ensures NameKey(s) == NameKey(t)
  {
    StripLower(s);
    StripLower(t);
  }

  /** Python's `s[front:-back]` for positive `back`. */
  function DropEnds(s: string, front: nat, back: nat): (r: string)
    requires back > 0
    ensures front + back <= |s| ==> r == s[front..|s| - back]
    ensures front + back > |s| ==> r == ""
  {
    if front + back <= |s| then s[front..|s| - back] else ""
  }

  /** The fence handling of correct_lore.py: text whose stripped form opens
      with a ```json or ``` fence loses the opener and the last three
      characters and is stripped again; any other text is left as it came. */
  function StripFences(text: string): (r: string)
    ensures !StartsWith(Strip(text), "```") ==> r == text
    ensures StartsWith(Strip(text), "```") ==> Stripped(r) && (r == "" || |r| + 6 <= |Strip(text)|)
  {
    var s := Strip(text);
    if StartsWith(s, "```json") then Strip(DropEnds(s, 7, 3))
    else if StartsWith(s, "```") then Strip(DropEnds(s, 3, 3))
    else text
  }

  /** A payload wrapped in a ```json fence, with any whitespace around the
      fence markers, comes back exactly. */
  lemma {:induction false} JsonFenceRoundTrip(payload: string, w1: string, w2: string, w3: string, w4: string)
    requires Stripped(payload)
    requires AllSpace(w1) && AllSpace(w2) && AllSpace(w3) && AllSpace(w4)
    ensures StripFences(w1 + "```json" + w2 + payload + w3 + "```" + w4) == payload
  {
    var inner := w2 + payload + w3;
    var x := "```json" + inner + "```";
    assert w1 + "```json" + w2 + payload + w3 + "```" + w4 == w1 + x + w4;
    StripOfPadded(w1, x, w4);
    assert x[..7] == "```json";
    assert DropEnds(x, 7, 3) == inner;
    StripOfPadded(w2, payload, w3);
  }

  /** A bare fence followed by padding or by a payload that does not begin
      with "json" does not read as a ```json fence. */
  lemma {:induction false} NotJsonFence(w2: string, payload: string, w3: string)
    requires !(w2 == "" && StartsWith(payload, "json"))
    requires AllSpace(w2) && AllSpace(w3)
    ensures !StartsWith("```" + w2 + payload + w3 + "```", "```json")
  {
    var x := "```" + w2 + payload + w3 + "```";
    if |x| >= 7 {
      if |w2| > 0 {
        assert x[3] == w2[0];
      } else if |payload| < 4 {
        var m := |payload|;
        assert x[3 + m] == (w3 + "```")[0];
        assert x[..7][3 + m] == x[3 + m];
      } else {
        assert x[3..7] == payload[..4];
      }
    }
  }

  /** The same for a bare ``` fence, unless the fence is followed directly
      by a payload that begins with "json", which reads as a ```json fence. */
  lemma {:induction false} PlainFenceRoundTrip(payload: string, w1: string, w2: string, w3: string, w4: string)
    requires Stripped(payload) && !(w2 == "" && StartsWith(payload, "json"))
    requires AllSpace(w1) && AllSpace(w2) && AllSpace(w3) && AllSpace(w4)
    ensures StripFences(w1 + "```" + w2 + payload + w3 + "```" + w4) == payload
  {
    var inner := w2 + payload + w3;
    var x := "```" + inner + "```";
    assert w1 + "```" + w2 + payload + w3 + "```" + w4 == w1 + x + w4;
    assert Strip(w1 + x + w4) == x by {
      StripOfPadded(w1, x, w4);
    }
    assert StartsWith(x, "```") && !StartsWith(x, "```json") by {
      assert x[..3] == "```";
      NotJsonFence(w2, payload, w3);
      assert "```" + w2 + payload + w3 + "```" == x;
    }
    assert Strip(DropEnds(x, 3, 3)) == payload by {
      assert DropEnds(x, 3, 3) == inner;
      StripOfPadded(w2, payload, w3);
    }
  }

  /** Result `c` contributes to `results_map` under key `k`. */
  predicate KeyedBy(c: LoreCorrection, k: string) {
    c.itemName != "" && NameKey(c.itemName) == k
  }

  /** Result `j` is the last one of `rs` keyed by `k`. */
  predicate LastKeyed(rs: seq<LoreCorrection>, j: int, k: string)
    requires 0 <= j < |rs|
  {
    KeyedBy(rs[j], k) && forall j' :: j < j' < |rs| ==> !KeyedBy(rs[j'], k)
  }

  /** The `results_map` loop: one entry per normalized non-empty item name;
      when several results share a key, the last one wins. */
  function ResultsMap(rs: seq<LoreCorrection>): map<string, RegionLore>
  {
    if |rs| == 0 then map[]
    else
      var last := rs[|rs| - 1];
      var m := ResultsMap(rs[..|rs| - 1]);
      if last.itemName != "" then m[NameKey(last.itemName) := RegionLore(last.correctedRegion, last.correctedLore)]
      else m
  }

  /** The map has a key exactly for the keys some result carries, and under
      each one the value of the last result carrying it. */
  lemma {:induction false} ResultsMapSpec(rs: seq<LoreCorrection>)
    ensures forall k :: k in ResultsMap(rs) <==> exists j :: 0 <= j < |rs| && KeyedBy(rs[j], k)
    ensures forall k, j :: 0 <= j < |rs| && LastKeyed(rs, j, k) ==>
      k in ResultsMap(rs) && ResultsMap(rs)[k] == RegionLore(rs[j].correctedRegion, rs[j].correctedLore)
  {
    if |rs| > 0 {
      var init := rs[..|rs| - 1];
      var n := |rs| - 1;
      ResultsMapSpec(init);
      assert forall j :: 0 <= j < n ==> init[j] == rs[j];
      forall k, j | 0 <= j < |rs| && LastKeyed(rs, j, k)
        ensures k in ResultsMap(rs) && ResultsMap(rs)[k] == RegionLore(rs[j].correctedRegion, rs[j].correctedLore)
      {
        if j < n {
          assert LastKeyed(init, j, k);
        }
      }
    }
  }

  /** Writes Region and Lore on a row; every other column keeps its value,
      and existing columns keep their order. */
  function SetRegionLore(row: Row, region: string, lore: string): (r: Row)
    ensures Get(r, RegionColumn) == Some(region) && Get(r, LoreColumn) == Some(lore)
    ensures SameOutside(r, row, Rewritten)
    ensures Keys(row) <= Keys(r)
  {
    var r1 := Set(row, RegionColumn, region);
    var r := Set(r1, LoreColumn, lore);
    SetKeepsOthers(r1, LoreColumn, lore, RegionColumn);
    WithoutSet(row, RegionColumn, region, Rewritten);
    WithoutSet(r1, LoreColumn, lore, Rewritten);
    assert Keys(row) <= Keys(r1);
    r
  }

  /** How the Step 2 outcome settles the batch: a result map to join
      against, or one message for every row. */
  datatype Verdict = Matched(results: map<string, RegionLore>) | Uniform(message: string)

  /** The parsed reply, when there is one: non-empty text, fences stripped, decoded. */
  function ParsedReply(reply: CorrectionReply, decode: string -> Option<seq<LoreCorrection>>): (parsed: Option<seq<LoreCorrection>>)
    ensures parsed.Some? ==> reply.Replied? && reply.text.Some? && reply.text.value != ""
  {
    match reply
    case Replied(Some(text)) => if text == "" then None else decode(StripFences(text))
    case _ => None
  }

  function VerdictOf(reply: CorrectionReply, decode: string -> Option<seq<LoreCorrection>>): Verdict
  {
    if reply.Raised? then Uniform(CorrectionErrorPrefix + reply.error)
    else
      match ParsedReply(reply, decode)
      case Some(rs) => if |rs| > 0 then Matched(ResultsMap(rs)) else Uniform(ParseFailureSentinel)
      case None => Uniform(ParseFailureSentinel)
  }

  /** The map is joined against only when the call returned text that
      decodes to at least one item; a raised call gives its error text, and
      every other failure the parse-failure sentinel. */
  lemma {:induction false} VerdictOfCases(reply: CorrectionReply, decode: string -> Option<seq<LoreCorrection>>)
    ensures var v := VerdictOf(reply, decode);
      && (v.Matched? <==> reply.Replied? && reply.text.Some? && reply.text.value != ""
                          && decode(StripFences(reply.text.value)).Some? && |decode(StripFences(reply.text.value)).value| > 0)
      && (v.Uniform? ==> v.message == if reply.Raised? then CorrectionErrorPrefix + reply.error else ParseFailureSentinel)
  {
  }

  /** One row under a verdict: the mapped Region and Lore on a hit, the
      no-data sentinel on a miss, or the uniform message. */
  function ApplyVerdict(row: Row, v: Verdict): (r: Row)
    ensures SameOutside(r, row, Rewritten)
    ensures Keys(row) <= Keys(r)
  {
    match v
    case Uniform(msg) => SetRegionLore(row, msg, msg)
    case Matched(m) =>
      var key := NameKey(RowName(row));
      if key in m then SetRegionLore(row, m[key].region, m[key].lore)
      else SetRegionLore(row, NoDataSentinel, NoDataSentinel)
  }

  /** Step 2 of `process_item_batch` over a whole batch: one row out per row
      in, in order, with only Region and Lore rewritten. */
  function ProcessLoreBatch(items: seq<Row>, reply: CorrectionReply, decode: string -> Option<seq<LoreCorrection>>): (r: seq<Row>)
    ensures |r| == |items|
    ensures Follows(r, items, Rewritten)
  {
    var v := VerdictOf(reply, decode);
    seq(|items|, j requires 0 <= j < |items| => ApplyVerdict(items[j], v))
  }

  /** What Step 2 writes into Region and Lore of row `j`: the error text when
      the call raised; the parse-failure sentinel when there is no text, it
      does not decode, or it decodes to no items; otherwise the values of the
      last result whose normalized name is the row's, or the no-data
      sentinel when no result carries that name. */
  lemma {:induction false} ProcessLoreBatchOutcome(items: seq<Row>, reply: CorrectionReply, decode: string -> Option<seq<LoreCorrection>>, j: nat)
    requires j < |items|
    ensures var r := ProcessLoreBatch(items, reply, decode)[j];
      && (reply.Raised? ==>
            Get(r, RegionColumn) == Some(CorrectionErrorPrefix + reply.error)
            && Get(r, LoreColumn) == Some(CorrectionErrorPrefix + reply.error))
      && (reply.Replied? && (ParsedReply(reply, decode).None? || ParsedReply(reply, decode) == Some([])) ==>
            Get(r, RegionColumn) == Some(ParseFailureSentinel) && Get(r, LoreColumn) == Some(ParseFailureSentinel))
      && (reply.Replied? && ParsedReply(reply, decode).Some? && |ParsedReply(reply, decode).value| > 0 ==>
            var rs := ParsedReply(reply, decode).value;
            var key := NameKey(RowName(items[j]));
            && (forall i :: 0 <= i < |rs| && LastKeyed(rs, i, key) ==>
                  Get(r, RegionColumn) == Some(rs[i].correctedRegion) && Get(r, LoreColumn) == Some(rs[i].correctedLore))
            && ((forall i :: 0 <= i < |rs| ==> !KeyedBy(rs[i], key)) ==>
                  Get(r, RegionColumn) == Some(NoDataSentinel) && Get(r, LoreColumn) == Some(NoDataSentinel)))
  {
    if reply.Replied? && ParsedReply(reply, decode).Some? {
      ResultsMapSpec(ParsedReply(reply, decode).value);
    }
  }
  /** A row of the batch whose name lookup in the merge loop raises, with
      the exception's text. A record that `csv.DictReader` read short has
      `None` in its missing cells, so `item.get("Item Name", "Unknown")`
      returns `None` and `.strip()` raises; rows here hold strings only, so
      which row raises is given rather than derived. */
  datatype MergeFault = MergeFault(row: nat, error: string)

  /** Every row of the batch as the handler leaves it after a fault at row
      `f.row`: the rows before it had been merged, the rest had not, and the
      handler then writes the error text into Region and Lore of all of them. */
  function FaultMarked(items: seq<Row>, v: Verdict, f: MergeFault): (r: seq<Row>)
    requires f.row < |items|
    ensures |r| == |items| && Follows(r, items, Rewritten)
    ensures forall j :: 0 <= j < |r| ==>
      Get(r[j], RegionColumn) == Some(CorrectionErrorPrefix + f.error)
      && Get(r[j], LoreColumn) == Some(CorrectionErrorPrefix + f.error)
  {
    var msg := CorrectionErrorPrefix + f.error;
    seq(|items|, j requires 0 <= j < |items| => FaultMarkedRow(items[j], v, j < f.row, msg))
  }

  /** One row of `FaultMarked`: merged first when it came before the fault. */
  function FaultMarkedRow(row: Row, v: Verdict, merged: bool, msg: string): (r: Row)
    ensures Get(r, RegionColumn) == Some(msg) && Get(r, LoreColumn) == Some(msg)
    ensures SameOutside(r, row, Rewritten)
  {
    if merged then
      var a := ApplyVerdict(row, v);
      var r := SetRegionLore(a, msg, msg);
      assert SameOutside(r, a, Rewritten) && SameOutside(a, row, Rewritten);
      r
    else SetRegionLore(row, msg, msg)
  }

  /** Step 2 as written, when the merge loop may raise at `fault`: the rows
      before the faulty one were already appended to `results`, and the
      handler appends every row of the batch again. The appended rows are
      the same dicts, so the first `fault.row` rows come out twice, and both
      copies carry the error text. */
  function ProcessLoreBatchAsWritten(items: seq<Row>, reply: CorrectionReply, decode: string -> Option<seq<LoreCorrection>>, fault: Option<MergeFault>): seq<Row>
    requires fault.Some? ==> fault.value.row < |items|
  {
    var v := VerdictOf(reply, decode);
    if fault.Some? && v.Matched? then
      var marked := FaultMarked(items, v, fault.value);
      marked[..fault.value.row] + marked
    else ProcessLoreBatch(items, reply, decode)
  }

  /** A fault past the first row makes the batch longer than its input: the
      rows before the fault are returned twice. */
  lemma {:induction false} MergeFaultRepeatsRows(items: seq<Row>, reply: CorrectionReply, decode: string -> Option<seq<LoreCorrection>>, f: MergeFault)
    requires f.row < |items| && VerdictOf(reply, decode).Matched?
    ensures var r := ProcessLoreBatchAsWritten(items, reply, decode, Some(f));
      && |r| == |items| + f.row
      && (forall j :: 0 <= j < f.row ==> r[j] == r[f.row + j])
      && (f.row > 0 ==> !Follows(r, items, Rewritten))
  {
    var marked := FaultMarked(items, VerdictOf(reply, decode), f);
    var r := marked[..f.row] + marked;
    assert ProcessLoreBatchAsWritten(items, reply, decode, Some(f)) == r;
    PrefixRepeated(marked, f.row);
  }

  /** Two rows, the second of which faults, come back as three. */
  lemma {:induction false} MergeFaultExample()
    ensures var items := [[Cell(NameColumn, "Sword")], [Cell(RegionColumn, "Ionia")]];
      var decode := (t: string) => Some([LoreCorrection("Sword", "Demacia", "A blade.")]);
      |ProcessLoreBatchAsWritten(items, Replied(Some("[]")), decode, Some(MergeFault(1, "boom")))| == 3
  {
    var items := [[Cell(NameColumn, "Sword")], [Cell(RegionColumn, "Ionia")]];
    var decode := (t: string) => Some([LoreCorrection("Sword", "Demacia", "A blade.")]);
    assert ParsedReply(Replied(Some("[]")), decode) == Some([LoreCorrection("Sword", "Demacia", "A blade.")]);
    MergeFaultRepeatsRows(items, Replied(Some("[]")), decode, MergeFault(1, "boom"));
  }

  /** Step 2 with the handler appending each row once: after a fault in the
      merge loop the batch still has one row per input row, in order, each
      carrying the error text; without a fault it is `ProcessLoreBatch`,
      which the rest of this model uses. */
  function ProcessLoreBatchCorrected(items: seq<Row>, reply: CorrectionReply, decode: string -> Option<seq<LoreCorrection>>, fault: Option<MergeFault>): (r: seq<Row>)
    requires fault.Some? ==> fault.value.row < |items|
    ensures |r| == |items| && Follows(r, items, Rewritten)
    ensures fault.Some? && VerdictOf(reply, decode).Matched? ==> forall j :: 0 <= j < |r| ==>
      Get(r[j], RegionColumn) == Some(CorrectionErrorPrefix + fault.value.error)
      && Get(r[j], LoreColumn) == Some(CorrectionErrorPrefix + fault.value.error)
    ensures fault.None? ==> r == ProcessLoreBatch(items, reply, decode)
  {
    var v := VerdictOf(reply, decode);
    if fault.Some? && v.Matched? then FaultMarked(items, v, fault.value)
    else ProcessLoreBatch(items, reply, decode)
  }
}
