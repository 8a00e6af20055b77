/** The items of the browser catalogue in script.js: how a word is
    capitalized, how an uploaded table becomes items, and how items are
    exported back to a table. */
module CatalogueItems {
  import opened Wrappers
  import opened Text
  import opened Table

  /** Where an item came from: an uploaded table, or the add form. */
  datatype Source = Csv | Manual

  /** One catalogue item. Items added by hand have no file. */
  datatype Item = Item(
    id: string,
    name: string,
    region: string,
    lore: string,
    descriptionLore: string,
    image: string,
    fileId: Option<string>,
    source: Source)

  /** `word.charAt(0).toUpperCase() + word.slice(1)`. */
  function CapWord(w: string): string {
    if |w| == 0 then "" else [UpperChar(w[0])] + w[1..]
  }

  function CapWords(ws: seq<string>): (r: seq<string>)
    ensures |r| == |ws|
  {
    if |ws| == 0 then [] else [CapWord(ws[0])] + CapWords(ws[1..])
  }

  /** `capitalize`: split on single spaces, upper-case the first character
      of each piece, join with single spaces. */
  function Capitalize(text: string): (r: string)
    ensures |r| == |text|
  {
    if text == "" then ""
    else
      CapitalizePieces(text);
      CapFromSpec(text, true);
      Join(CapWords(Split(text, ' ')), ' ')
  }

  /** Position `i` of `s` starts a word: it is the first position, or it
      follows a space. */
  predicate WordStart(s: string, i: int)
    requires 0 <= i < |s|
  {
    i == 0 || s[i - 1] == ' '
  }

  /** A single left-to-right pass: upper-case a character at the start of
      the text (when `atStart`) or after a space, keep every other one. */
  function CapFrom(s: string, atStart: bool): string
    decreases |s|
  {
    if |s| == 0 then ""
    else [if atStart then UpperChar(s[0]) else s[0]] + CapFrom(s[1..], s[0] == ' ')
  }

  /** Splitting, capitalizing the pieces and joining is the single pass:
      from the start of the text, and from inside a word (where the first
      piece is left as it is). */
  lemma {:induction false} CapitalizePieces(s: string)
    ensures Join(CapWords(Split(s, ' ')), ' ') == CapFrom(s, true)
    ensures Join([Split(s, ' ')[0]] + CapWords(Split(s, ' ')[1..]), ' ') == CapFrom(s, false)
    decreases |s|
  {
    if |s| > 0 {
      var w := Split(s[1..], ' ');
      CapitalizePieces(s[1..]);
      if s[0] == ' ' {
        assert Split(s, ' ') == [""] + w;
        assert ([""] + w)[1..] == w;
        assert CapWords([""] + w) == [""] + CapWords(w);
        assert ([""] + CapWords(w))[1..] == CapWords(w);
      } else {
        var ws := Split(s, ' ');
        assert ws == [[s[0]] + w[0]] + w[1..];
        assert ws[1..] == w[1..];
        assert CapWords(ws) == [[UpperChar(s[0])] + w[0]] + CapWords(w[1..]);
        JoinConsHead([UpperChar(s[0])], w[0], CapWords(w[1..]), ' ');
        JoinConsHead([s[0]], w[0], CapWords(w[1..]), ' ');
      }
    }
  }

  lemma {:induction false} CapFromSpec(s: string, atStart: bool)
    ensures |CapFrom(s, atStart)| == |s|
    ensures forall i :: 0 <= i < |s| ==>
      CapFrom(s, atStart)[i] == if (if i == 0 then atStart else s[i - 1] == ' ') then UpperChar(s[i]) else s[i]
    decreases |s|
  {
    if |s| > 0 {
      CapFromSpec(s[1..], s[0] == ' ');
      var r := CapFrom(s, atStart);
      forall i | 1 <= i < |s|
        ensures r[i] == if s[i - 1] == ' ' then UpperChar(s[i]) else s[i]
      {
        assert r[i] == CapFrom(s[1..], s[0] == ' ')[i - 1];
        assert s[1..][i - 1] == s[i];
        if i > 1 {
          assert s[1..][i - 2] == s[i - 1];
        }
      }
    }
  }

  /** `capitalize` keeps the length and every space, upper-cases the first
      character of each word and changes nothing else. */
  lemma {:induction false} CapitalizeSpec(text: string)
    ensures |Capitalize(text)| == |text|
    ensures forall i :: 0 <= i < |text| ==>
      Capitalize(text)[i] == if WordStart(text, i) then UpperChar(text[i]) else text[i]
  {
    if text != "" {
      CapitalizePieces(text);
    }
    CapFromSpec(text, true);
  }

  /** Capitalizing twice is capitalizing once. */
  lemma {:induction false} CapitalizeIdempotent(text: string)
    ensures Capitalize(Capitalize(text)) == Capitalize(text)
  {
    var c := Capitalize(text);
    CapitalizeSpec(text);
    CapitalizeSpec(c);
    forall i | 0 <= i < |c|
      ensures Capitalize(c)[i] == c[i]
    {
      if i > 0 {
        assert c[i - 1] == ' ' <==> text[i - 1] == ' ';
      }
    }
  }

  /** Only the empty text capitalizes to the empty text. */
  lemma {:induction false} CapitalizeNonEmpty(text: string)
    requires text != ""
    ensures Capitalize(text) != ""
  {
    CapitalizeSpec(text);
  }

  /** `row[k1] || row[k2] || fallback` on a parsed record: the first of the
      two cells that is present and non-empty, else the fallback. */
  function Pick(row: Row, k1: string, k2: string, fallback: string): (r: string)
    ensures r in {CellText(row, k1), CellText(row, k2), fallback}
    ensures r == "" <==> CellText(row, k1) == "" && CellText(row, k2) == "" && fallback == ""
  {
    var a := CellText(row, k1);
    var b := CellText(row, k2);
    if a != "" then a else if b != "" then b else fallback
  }

  /** A cell as JavaScript reads it for `||`: a missing cell is as falsy as
      an empty one, so both read as "". */
  function CellText(row: Row, k: string): string {
    Get(row, k).GetOr("")
  }

  /** `v` is what `a || b || fallback` gives on strings: the first of `a`
      and `b` that is non-empty, else the fallback. */
  predicate FirstNonEmpty(v: string, a: string, b: string, fallback: string) {
    && (a != "" ==> v == a)
    && (a == "" && b != "" ==> v == b)
    && (a == "" && b == "" ==> v == fallback)
  }

  /** `${fileId}-${index}`: the file's id, a dash, and the index in
      decimal, which reads back as the index. */
  function CsvItemId(fileId: string, index: nat): (id: string)
    ensures |id| > |fileId| + 1 && id[..|fileId| + 1] == fileId + "-"
    ensures ParseDecimal(id[|fileId| + 1..]) == index
  {
    var id := fileId + "-" + NatToString(index);
    assert id[|fileId| + 1..] == NatToString(index);
    ParseNatToString(index);
    id
  }

  /** The item `processCSVData` makes of row `index`. */
  function CsvItem(row: Row, fileId: string, index: nat): (item: Item)
    ensures item.name != "" && item.region != ""
  {
    CapitalizeNonEmpty(Pick(row, "Region", "region", "Unknown"));
    Item(
      CsvItemId(fileId, index),
      Pick(row, "Item Name", "name", "Unknown Item"),
      Capitalize(Pick(row, "Region", "region", "Unknown")),
      Pick(row, "Lore", "lore", ""),
      Pick(row, "DescriptionLore", "descriptionLore", ""),
      Pick(row, "ImageURL", "image", ""),
      Some(fileId),
      Csv)
  }

  /** `processCSVData(csvData, fileId)`: one item per row, in order. */
  function ProcessCSVData(rows: seq<Row>, fileId: string): (items: seq<Item>)
    ensures |items| == |rows|
    ensures forall i :: 0 <= i < |rows| ==> items[i] == CsvItem(rows[i], fileId, i)
  {
    seq(|rows|, i requires 0 <= i < |rows| => CsvItem(rows[i], fileId, i))
  }

  /** What an uploaded row becomes: the item's id is the file's id, a dash
      and the row's index; it belongs to the file; each field holds the cell
      under the capitalized header when that is non-empty, else the cell
      under the lower-case header when that is, else the fallback ("Unknown
      Item" for the name, "Unknown" for the region, "" for the rest); and
      the region is capitalized. */
  lemma {:induction false} CsvItemSpec(rows: seq<Row>, fileId: string, i: nat)
    requires i < |rows|
    ensures var item := ProcessCSVData(rows, fileId)[i];
      var row := rows[i];
      && item.id == fileId + "-" + NatToString(i)
      && item.fileId == Some(fileId) && item.source == Csv
      && FirstNonEmpty(item.name, CellText(row, "Item Name"), CellText(row, "name"), "Unknown Item")
      && (CellText(row, "Region") != "" ==> item.region == Capitalize(CellText(row, "Region")))
      && (CellText(row, "Region") == "" && CellText(row, "region") != "" ==> item.region == Capitalize(CellText(row, "region")))
      && (CellText(row, "Region") == "" && CellText(row, "region") == "" ==> item.region == "Unknown")
      && FirstNonEmpty(item.lore, CellText(row, "Lore"), CellText(row, "lore"), "")
      && FirstNonEmpty(item.descriptionLore, CellText(row, "DescriptionLore"), CellText(row, "descriptionLore"), "")
      && FirstNonEmpty(item.image, CellText(row, "ImageURL"), CellText(row, "image"), "")
      && item.region == Capitalize(item.region)
  {
    var picked := Pick(rows[i], "Region", "region", "Unknown");
    CapitalizeIdempotent(picked);
    CapitalizeSpec("Unknown");
    assert Capitalize("Unknown") == "Unknown";
  }

  /** No two items imported from one file share an id. */
  lemma {:induction false} ProcessCSVDataIdsDistinct(rows: seq<Row>, fileId: string, i: nat, j: nat)
    requires i < |rows| && j < |rows| && i != j
    ensures ProcessCSVData(rows, fileId)[i].id != ProcessCSVData(rows, fileId)[j].id
  {
  }

  /** The export columns. */
  const ExportHeaders: seq<string> := ["Item Name", "Region", "Lore", "DescriptionLore", "ImageURL"]

  /** The object `exportToCSV` builds for one item. */
  function ExportRow(item: Item): Row {
    [Cell("Item Name", item.name), Cell("Region", item.region), Cell("Lore", item.lore),
     Cell("DescriptionLore", item.descriptionLore), Cell("ImageURL", item.image)]
  }

  /** The five exported fields, in header order. */
  function ExportFields(item: Item): seq<string> {
    [item.name, item.region, item.lore, item.descriptionLore, item.image]
  }

  /** Each exported column holds the field of the same name. */
  lemma {:induction false} ExportRowGet(item: Item)
    ensures Get(ExportRow(item), "Item Name") == Some(item.name)
    ensures Get(ExportRow(item), "Region") == Some(item.region)
    ensures Get(ExportRow(item), "Lore") == Some(item.lore)
    ensures Get(ExportRow(item), "DescriptionLore") == Some(item.descriptionLore)
    ensures Get(ExportRow(item), "ImageURL") == Some(item.image)
  {
    var r := ExportRow(item);
    assert Get(r, "Item Name") == Some(item.name) by { GetFirst(r, 0); }
    assert Get(r, "Region") == Some(item.region) by {
      assert |r[0].key| == 9 && |r[1].key| == 6;
      GetFirst(r, 1);
    }
    assert Get(r, "Lore") == Some(item.lore) by {
      assert |r[0].key| == 9 && |r[1].key| == 6 && |r[2].key| == 4;
      GetFirst(r, 2);
    }
    assert Get(r, "DescriptionLore") == Some(item.descriptionLore) by {
      assert |r[0].key| == 9 && |r[1].key| == 6 && |r[2].key| == 4 && |r[3].key| == 15;
      GetFirst(r, 3);
    }
    assert Get(r, "ImageURL") == Some(item.image) by {
      assert |r[0].key| == 9 && |r[1].key| == 6 && |r[2].key| == 4 && |r[3].key| == 15 && |r[4].key| == 8;
      GetFirst(r, 4);
    }
  }

  /** The exported row has no cell under the lower-case spellings. */
  lemma {:induction false} ExportRowAbsent(item: Item)
    ensures Get(ExportRow(item), "lore") == None
    ensures Get(ExportRow(item), "descriptionLore") == None
    ensures Get(ExportRow(item), "image") == None
  {
    var ks := Keys(ExportRow(item));
    assert ks == ExportHeaders;
    assert |ks[0]| == 9 && |ks[1]| == 6 && |ks[2]| == 4 && |ks[3]| == 15 && |ks[4]| == 8;
    assert "lore"[0] != ks[2][0] && "descriptionLore"[0] != ks[3][0] && |"image"| == 5;
  }

  lemma {:induction false} ExportRowProject(item: Item)
    ensures Project(ExportRow(item), ExportHeaders) == ExportFields(item)
  {
    ExportRowGet(item);
  }

  /** `exportToCSV`: nothing when there are no items; otherwise the header
      and one line per item, in order. */
  function ExportToCSV(items: seq<Item>): (lines: Option<seq<Line>>)
    ensures lines.None? <==> |items| == 0
    ensures lines.Some? ==> |lines.value| == |items| + 1 && lines.value[0] == HeaderLine(ExportHeaders)
    ensures lines.Some? ==> forall i :: 0 <= i < |items| ==> lines.value[i + 1] == RecordLine(ExportFields(items[i]))
  {
    if |items| == 0 then None
    else
      var rows := seq(|items|, i requires 0 <= i < |items| => ExportRow(items[i]));
      forall i | 0 <= i < |items|
        ensures Project(rows[i], ExportHeaders) == ExportFields(items[i])
      {
        ExportRowProject(items[i]);
      }
      Some([HeaderLine(ExportHeaders)] + Records(rows, ExportHeaders))
  }

  /** An item survives export and re-upload: the row it is exported as is
      read back into the same name, region, lore, description and image,
      provided its name is set and its region is set and capitalized, as
      every uploaded or added item's is. */
  lemma {:induction false} ExportUploadRoundTrip(item: Item, fileId: string, index: nat)
    requires item.name != "" && item.region != ""
    requires Capitalize(item.region) == item.region
    ensures var back := CsvItem(ExportRow(item), fileId, index);
      && back.name == item.name && back.region == item.region && back.lore == item.lore
      && back.descriptionLore == item.descriptionLore && back.image == item.image
  {
    ExportRowGet(item);
    ExportRowAbsent(item);
  }
}
