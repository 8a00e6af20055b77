# League item lore tools, modelled in Dafny

The repository turns a table of League of Legends items into tabletop
material, in two parts.

**Three batch scripts** read a delimited table of items. They send the rows
to a language model five at a time and join the model's answers back onto
the rows:

- `correct_lore.py` rewrites the Region and Lore columns. It joins the
  answers by the normalized item name (stripped, lower-cased). It saves every
  batch as soon as it is done: the first save writes the header, later saves
  append.
- `correct_to_5e.py` adds a `Description5e` column. It joins the answers by
  the exact item name and writes everything once at the end.
- `generate_osr_powers.py` adds an `OSRPower` column. It joins the answers by
  position in the batch.

**A browser page (`script.js`)** keeps a catalogue of items. It imports items
from uploaded tables, adds, edits and deletes single items, removes all items
of one file, filters, sorts and lists regions, and exports the catalogue back
to a table.

## Structure

The model keeps rows as association lists that preserve key order, as a
Python `dict` does. An output file is a sequence of lines, each a header or a
record, so "one header, and it comes first" can be stated. The model call is
a parameter: one reply per batch. What that reply is (an exception, an empty
answer, unparsable text, or results) is a datatype.

| file | module | contents |
|---|---|---|
| `wrappers.dfy` | `Wrappers` | `Option` |
| `text.dfy` | `Text` | Python `strip` with Python's whitespace set, ASCII case mapping, splitting and joining, code-point order, decimal digits |
| `seqs.dfy` | `Seqs` | concatenation of sequences, distinctness, subsequences, filtering |
| `table.dfy` | `Table` | rows, `get`, item assignment, `DictWriter` projection, output lines |
| `batching.dfy` | `Batching` | Python slicing, batch count, both ways of cutting batches |
| `row_batches.dfy` | `RowBatches` | "these rows equal those outside the written columns", across batches |
| `lore_response.dfy` | `LoreResponse` | correct_lore.py: fence stripping, the result map, writing a batch |
| `lore_pipeline.dfy` | `LorePipeline` | correct_lore.py: column check, `save_batch`, the batch loop, `main` |
| `description5e.dfy` | `Description5e` | correct_to_5e.py |
| `osr_powers.dfy` | `OsrPowers` | generate_osr_powers.py |
| `catalogue_items.dfy` | `CatalogueItems` | script.js: `capitalize`, `processCSVData`, `exportToCSV` |
| `sorting.dfy` | `Sorting` | a stable sort by a three-way comparison |
| `catalogue_view.dfy` | `CatalogueView` | script.js: `filterItems`, `sortItems`, the region list |
| `catalogue_state.dfy` | `CatalogueState` | script.js: add, edit, delete, remove a file, upload |

## Model

| member | source | states |
|---|---|---|
| `Batching.Slice` | correct_lore.py:294-296 | `items[start:end]` clamps both bounds to the length and is empty once the start is past the end or the range is empty |
| `Batching.NumBatches` | correct_lore.py:291 | the batch count is the least `k` with `k * size >= n`, that is, the ceiling of `n / size` |
| `Batching.NumBatchesUnique` | correct_lore.py:291 | only one count meets both bounds, so the count is determined |
| `Batching.Chunks` | correct_to_5e.py:42 | every batch of the comprehension is non-empty and at most `size` long |
| `Batching.ChunksCover` | correct_to_5e.py:42 | the comprehension's batches, concatenated, are exactly the items in order; each batch is non-empty and at most `size` long, and all but the last are full |
| `Batching.ChunksCount` | generate_osr_powers.py:31 | the comprehension makes as many batches as the ceiling division gives |
| `Batching.ChunkAt` | correct_to_5e.py:42 | batch `i` is the rows from `i * size` up to `i * size + size`, clamped to the end |
| `Batching.BatchPosition` | generate_osr_powers.py:31 | row `i * size + j` sits in batch `i` at position `j` |
| `Batching.IndexBatchAt` | correct_lore.py:293-296 | each batch of the index loop starts inside the input and the next starts where it ends |
| `Batching.IndexBatchIsChunk` | correct_lore.py:291-296 | the index loop over `range(num_batches)` visits exactly the batches of the comprehension |
| `Table.Get` | correct_lore.py:223 | `row.get(k)` finds a value exactly when `k` is a column of the row |
| `Table.Set` | correct_lore.py:227-228 | after `row[k] = v` the row holds `v` under `k`; the column order is kept, and a new column goes last |
| `Table.SetKeepsOthers` | correct_lore.py:227-228 | item assignment leaves every other column's value alone |
| `Table.GetFirst` | script.js:532-539 | a key is looked up at its first cell |
| `Table.HeaderCountAppend` | correct_lore.py:274-276 | header counts add up across appended saves |
| `Text.StripIdempotent` | correct_lore.py:179-182 | stripping twice is stripping once |
| `Text.StripOfPadded` | correct_lore.py:179-182 | stripping removes exactly the whitespace padding around a text that has none at its ends |
| `Text.JoinSplit` | script.js:30-35 | splitting on a separator and joining with it gives the text back |
| `Text.CompareAntisymmetric` | script.js:268-276 | swapping the operands of the string comparison negates it |
| `Text.CompareTransitive` | script.js:268-276 | the string comparison is transitive |
| `Text.ParseNatToString` | script.js:387 | the decimal form of a row index reads back as the index |
| `Text.NatToStringInjective` | script.js:387 | distinct indexes have distinct decimal forms |
| `Seqs.FilterSpec` | script.js:461-473 | filtering keeps every element that passes, as often as it occurs, drops the rest, and keeps the order |
| `Seqs.FilterMembers` | script.js:365-367 | an element is in the filtered list exactly when it was in the list and passes |
| `Seqs.DistinctCount` | script.js:399-412 | a list has no repeats exactly when each element occurs at most once |
| `RowBatches.FollowsFlatten` | correct_to_5e.py:100-126 | if each batch's output matches its batch outside the written columns, so does the concatenation |
| `RowBatches.ConcatFollows` | correct_lore.py:293-316 | outputs that match the index-loop batches one by one match the whole input in order |
| `RowBatches.ConcatAt` | correct_lore.py:293-316 | output row `i * size + j` comes from row `j` of batch `i` |
| `LoreResponse.NameKeyIgnoresPadding` | correct_lore.py:217-224 | the join key ignores whitespace around a name |
| `LoreResponse.NameKeyIgnoresCase` | correct_lore.py:217-224 | names that differ only in ASCII case get the same join key |
| `LoreResponse.DropEnds` | correct_lore.py:180-182 | `s[front:-back]` is the middle of `s`, or empty when `s` is too short |
| `LoreResponse.StripFences` | correct_lore.py:178-182 | text that does not open with a fence after stripping is left untouched; fenced text comes out stripped and, unless empty, at least six characters shorter than the stripped text |
| `LoreResponse.JsonFenceRoundTrip` | correct_lore.py:179-180 | a stripped payload inside a ```` ```json ```` fence, with any whitespace around the markers, comes out exactly |
| `LoreResponse.PlainFenceRoundTrip` | correct_lore.py:181-182 | the same for a bare ```` ``` ```` fence around any stripped payload, the empty one included, except a payload that starts with `json` right after the fence, which reads as a ```` ```json ```` fence |
| `LoreResponse.ResultsMapSpec` | correct_lore.py:213-220 | the result map has a key exactly for each normalized non-empty result name, and when names repeat the last result wins |
| `LoreResponse.ParsedReply` | correct_lore.py:175-184 | there are parsed results only when the call returned non-empty text |
| `LoreResponse.VerdictOfCases` | correct_lore.py:175-256 | the rows are joined against the result map exactly when the call returned non-empty text that decodes to at least one item; a raised call marks every row with its error text, any other failure with the parse-failure sentinel |
| `LoreResponse.SetRegionLore` | correct_lore.py:227-228 | the row then holds the given Region and Lore; every other column keeps its value and no column is lost |
| `LoreResponse.ApplyVerdict` | correct_lore.py:222-245 | whatever the outcome, a row changes only in Region and Lore and keeps all its columns |
| `LoreResponse.ProcessLoreBatch` | correct_lore.py:213-256 | a batch gives one row out per row in, in order, each differing from its input row only in Region and Lore |
| `LoreResponse.ProcessLoreBatchOutcome` | correct_lore.py:175-256 | Region and Lore of each row are: the error text if the call raised; the parse-failure sentinel if there was no text, it did not decode, or it held no items; otherwise the values of the last result whose normalized name is the row's, or the no-data sentinel if no result has that name |
| `LoreResponse.FaultMarked` | correct_lore.py:247-256 | after a fault in the merge loop, the handler leaves every row of the batch with the error text in Region and Lore and unchanged elsewhere |
| `LoreResponse.MergeFaultRepeatsRows` | correct_lore.py:222-256 | as written, a fault at row `k` of the merge loop returns `len(items) + k` rows, the first `k` of them twice, so the result no longer matches the batch row for row |
| `LoreResponse.MergeFaultExample` | correct_lore.py:222-256 | a two-row batch whose second row faults comes back as three rows |
| `LoreResponse.ProcessLoreBatchCorrected` | correct_lore.py:222-256 | with each row appended once, a faulted batch still gives one row per input row, in order, each carrying the error text; without a fault it is the ordinary batch result |
| `LorePipeline.MissingColumns` | correct_lore.py:356-373 | a required column is reported missing exactly when no detected header equals it once both are stripped and lower-cased |
| `LorePipeline.ExactHeadersPass` | correct_lore.py:356-374 | a header row that holds the output columns as written passes the check, whatever other columns it has |
| `LorePipeline.CaseVariantsPass` | correct_lore.py:356-374 | header rows that match the output columns up to case pass the check |
| `LorePipeline.LooseHeaderCheck` | correct_lore.py:223 | a differently-cased name column passes the check, yet every row is then looked up under "Unknown" |
| `LorePipeline.CriticalRows` | correct_lore.py:307-313 | the error batch has one row per row, each marked in Region and Lore with the batch-processing error and unchanged elsewhere |
| `LorePipeline.WrittenRows` | correct_lore.py:300-316 | the rows a batch is written with match its input rows outside Region and Lore |
| `LorePipeline.FileOfSnoc` | correct_lore.py:303-316 | each pass of the loop saves one more batch onto the file |
| `LorePipeline.SaveBatchModes` | correct_lore.py:261-279 | a failed save leaves the file as it was; mode "w" for the first batch replaces the file with exactly one header, first, and the batch's records; mode "a" keeps the file as its prefix, adds no header, and puts the batch's records after it |
| `LorePipeline.FileOf` | correct_lore.py:293-316 | when no batch reached the file, the file is empty |
| `LorePipeline.HeaderOnce` | correct_lore.py:261-279 | the file holds a header exactly when the first batch reached it, and then the header is the first line: later saves only append records |
| `LorePipeline.RecordsAppend` | correct_lore.py:276 | writing two lists of rows one after the other gives the records of both, in order |
| `LorePipeline.FileWhenAllWritten` | correct_lore.py:282-323 | when every batch was saved, the file is the header followed by the records of all batches, in order |
| `LorePipeline.LoreOutsAt` | correct_lore.py:293-316 | the rows batch `i` is written with match batch `i` of the input outside Region and Lore |
| `LorePipeline.LoreFileFacts` | correct_lore.py:282-323 | the loop leaves the file with one header, first, when the first batch was saved; when every batch was saved, with one record per input row in input order, each changed only in Region and Lore |
| `LorePipeline.RunBatch` | correct_lore.py:300-319 | the rows written have one row per batch row and differ from it only in Region and Lore; they are the corrected rows when the first save succeeds, and otherwise those same rows with Region and Lore set to the batch-processing error; a batch neither save wrote leaves the file as it was; the first batch replaces the file with the header and its records, and later batches append their records |
| `LorePipeline.SavedSoFarStep` | correct_lore.py:303-316 | saving batch `i` with the rows it is written with extends the record of saved batches by exactly that batch, and the file by exactly that save |
| `LorePipeline.SavePass` | correct_lore.py:293-319 | one pass of the loop keeps the record of which batches reached the file, and of what the file holds |
| `LorePipeline.ProcessAndSaveBatches` | correct_lore.py:282-323 | the batch loop's file has the shape `LoreFileFacts` states |
| `LorePipeline.CorrectLore` | correct_lore.py:326-405 | a run stops on a missing header line, on missing required columns (and names exactly those), on an empty input, or when the output cannot be opened; otherwise its file has the shape `LoreFileFacts` states |
| `Description5e.DescriptionMapSpec` | correct_to_5e.py:98 | the map has exactly the names the results carry; under each name is the description of the last result with that name |
| `Description5e.DescriptionForSpec` | correct_to_5e.py:96-126 | a row's Description5e is: the exception's text after "Error: " if the call raised; "Error receiving response" with no content; "Error parsing response" with no usable call; otherwise the description of the last result with the row's exact name, or "No description generated" if no result has it |
| `Description5e.SetDescription` | correct_to_5e.py:103 | the row then holds the text under Description5e and is unchanged elsewhere |
| `Description5e.ProcessDescBatch` | correct_to_5e.py:100-126 | a batch gives one row out per row in, in order, changed only in Description5e |
| `Description5e.DescResultsFollow` | correct_to_5e.py:40-132 | the results hold one row per input row, in input order, each changed only in Description5e |
| `Description5e.DescResultsAt` | correct_to_5e.py:42-126 | result row `k` is input row `k` with the description that the reply to batch `k / 5` gives it |
| `Description5e.ProcessItemBatch` | correct_to_5e.py:40-132 | the loop over the batches computes the results above |
| `Description5e.Fieldnames` | correct_to_5e.py:178 | the output header extends the input's and always contains Description5e |
| `Description5e.FieldnamesDistinct` | correct_to_5e.py:178 | when the input's columns are distinct, the output header's are too, so Description5e appears once |
| `Description5e.Correct5e` | correct_to_5e.py:155-183 | a run stops without an API key, without a header line, without the DescriptionLore column (matched exactly) or with no rows; otherwise the file is the header and one record per input row |
| `Description5e.WrittenDescription` | correct_to_5e.py:178-183 | record `k` carries, in the Description5e column, the text the reply to row `k`'s batch gives that row |
| `OsrPowers.SetPower` | generate_osr_powers.py:58 | the row then holds the text under OSRPower and is unchanged elsewhere |
| `OsrPowers.ProcessPowerBatch` | generate_osr_powers.py:55-72 | a batch gives one row out per row in, in order, changed only in OSRPower |
| `OsrPowers.PositionalJoin` | generate_osr_powers.py:55-61 | the join is by position alone: result names do not matter, and results past the batch's length are ignored |
| `OsrPowers.PowerResultsFollow` | generate_osr_powers.py:28-79 | the results hold one row per input row, in input order, each changed only in OSRPower |
| `OsrPowers.PowerResultsAt` | generate_osr_powers.py:31-72 | result row `k` gets the result at position `k % 5` of the reply to batch `k / 5`, "No power generated" when the reply is shorter, or "Error generating power" when the call raised |
| `OsrPowers.ProcessItemBatch` | generate_osr_powers.py:28-101 | the run fails exactly when some row lacks a column the prompt reads; otherwise it gives the results above |
| `OsrPowers.FieldnamesAsWrittenRepeat` | generate_osr_powers.py:126 | for every non-empty input, the header as written names OSRPower twice |
| `OsrPowers.FieldnamesAsWrittenExample` | generate_osr_powers.py:126 | a one-row input with a name column gives the header `Item Name, OSRPower, OSRPower` |
| `OsrPowers.Fieldnames` | generate_osr_powers.py:125-126 | the corrected header extends the first row's columns and contains OSRPower |
| `OsrPowers.FieldnamesDistinct` | generate_osr_powers.py:125-126 | the corrected header has no repeated column when the first row has none |
| `OsrPowers.WriteRowsPrefix` | generate_osr_powers.py:129-131 | `writerows` writes exactly the rows before the first one with a column outside the header |
| `OsrPowers.WriteRows` | generate_osr_powers.py:131 | `writerows` writes no more lines than rows, and line `k` is the record of row `k`, which fits the header |
| `OsrPowers.WriteOutput` | generate_osr_powers.py:128-131 | `written` rows reached the file: all of them fit the header and the next one, if any, does not; the file is the header and their records; it is complete exactly when every row fits, and is then the header and every row's record |
| `OsrPowers.GenerateOsrPowers` | generate_osr_powers.py:105-131 | a run stops without an API key, when a row lacks a prompt column, or on an empty input; otherwise the file starts with the header and, when every row fits, holds one record per input row |
| `CatalogueItems.CapitalizePieces` | script.js:30-35 | splitting on spaces, capitalizing each piece and joining is one left-to-right pass over the text |
| `CatalogueItems.CapitalizeSpec` | script.js:30-35 | `capitalize` keeps the length, upper-cases the character at each word start and changes no other character |
| `CatalogueItems.CapitalizeIdempotent` | script.js:30-35 | capitalizing twice is capitalizing once |
| `CatalogueItems.CapitalizeNonEmpty` | script.js:30-35 | only the empty text capitalizes to the empty text |
| `CatalogueItems.Capitalize` | script.js:30-35 | capitalizing keeps the length of the text |
| `CatalogueItems.Pick` | script.js:388-392 | chaining two cells and a fallback with a logical or gives one of the two cells or the fallback, and is empty only when all three are |
| `CatalogueItems.CsvItemId` | script.js:387 | an id is the file's id and a dash, followed by digits that read back as the row's index |
| `CatalogueItems.ProcessCSVDataIdsDistinct` | script.js:384-387 | no two items imported from one file share an id |
| `CatalogueItems.CsvItem` | script.js:386-395 | an imported item always has a name and a region |
| `CatalogueItems.ProcessCSVData` | script.js:384-397 | one item per row, in row order |
| `CatalogueItems.CsvItemSpec` | script.js:384-397 | the item of row `i` has the id `fileId-i`, belongs to the file and is marked as imported; each of name, region, lore, description and image holds the cell under the capitalized header (`Item Name`, `Region`, `Lore`, `DescriptionLore`, `ImageURL`) when that is non-empty, else the cell under the lower-case one (`name`, `region`, `lore`, `descriptionLore`, `image`) when that is, else the fallback: "Unknown Item", "Unknown", or "" for the other three; the region is passed through `capitalize` and is capitalized |
| `CatalogueItems.ExportRowGet` | script.js:532-539 | each exported column holds the item field of the same name |
| `CatalogueItems.ExportRowAbsent` | script.js:532-539 | the exported row has no cell under the lower-case spellings the import also accepts |
| `CatalogueItems.ExportRowProject` | script.js:532-549 | an exported record lists the five fields in header order |
| `CatalogueItems.ExportToCSV` | script.js:530-549 | nothing is exported exactly when the catalogue is empty; otherwise the export is the header and one record per item, in order |
| `CatalogueItems.ExportUploadRoundTrip` | script.js:530-549 | an item with a name and a capitalized region comes back from export and re-upload with the same name, region, lore, description and image |
| `Sorting.InsertPermutes` | script.js:265-280 | inserting adds exactly the inserted element |
| `Sorting.InsertionSort` | script.js:265-280 | sorting gives a permutation of its input |
| `Sorting.InsertSorted` | script.js:265-280 | inserting into an ordered list keeps it ordered |
| `Sorting.InsertionSortSorted` | script.js:265-280 | under a comparison that is antisymmetric and transitive, the result is ordered |
| `Sorting.InsertionSortAllTies` | script.js:277-279 | when everything ties, sorting changes nothing |
| `Sorting.InsertKeepsTies` | script.js:265-280 | inserting never moves an element past one it ties with |
| `Sorting.InsertionSortStable` | script.js:265-280 | for every value, the elements that tie with it come out in the order they went in |
| `CatalogueView.FilterItems` | script.js:461-473 | the shown items are those that match, each as often as it is in the catalogue, in catalogue order |
| `CatalogueView.FilterItemsMembers` | script.js:461-473 | an item is shown exactly when it is in the catalogue and matches the search and the region |
| `CatalogueView.FilterItemsNoCriteria` | script.js:461-473 | an empty search with all regions selected shows everything |
| `CatalogueView.SortItems` | script.js:265-280 | the sorted list is a permutation of the items |
| `CatalogueView.ItemCmpAntisymmetric` | script.js:265-280 | every sort order's comparison is antisymmetric |
| `CatalogueView.ItemCmpTransitive` | script.js:265-280 | every sort order's comparison is transitive, ties on region included |
| `CatalogueView.ItemOrderLaws` | script.js:265-280 | every sort order is a total preorder |
| `CatalogueView.SortItemsOrdered` | script.js:265-280 | names ascend or descend for the name orders; for the region orders regions ascend or descend, and within one region names ascend |
| `CatalogueView.SortItemsStable` | script.js:265-280 | items that tie keep their catalogue order |
| `CatalogueView.SortItemsUnsorted` | script.js:277-279 | an unknown order leaves the list as it is |
| `CatalogueView.RegionsSeen` | script.js:401-408 | the collected regions have no repeats and are exactly the non-empty regions of the items |
| `CatalogueView.RegionOptionsSpec` | script.js:399-418 | the region options strictly increase and are exactly the non-empty regions of the items |
| `CatalogueView.RegionSelection` | script.js:419-421 | the selection stays on an offered region or on "all regions", and is kept exactly when it is still offered |
| `CatalogueState.TrimOr` | script.js:183-187 | a form field gives its trimmed text or the fallback, and never the empty text when the fallback is not empty |
| `CatalogueState.RegionOf` | script.js:183 | a form's region is never empty and is already capitalized |
| `CatalogueState.AddItem` | script.js:174-191 | without a name nothing changes; otherwise one hand-added item without a file joins the end and nothing else changes |
| `CatalogueState.AddedItemRoundTrip` | script.js:174-191 | a hand-added item comes back from export and re-upload with the same fields |
| `CatalogueState.FindIndex` | script.js:208 | `findIndex` gives the first position with the id, or nothing exactly when no item has it |
| `CatalogueState.SaveEdited` | script.js:201-228 | the first item with the edited id takes the form's values, every other item stays, and nothing changes when no item has the id |
| `CatalogueState.Edited` | script.js:208-216 | the edited item keeps its id, file and origin, and its region is non-empty and capitalized |
| `CatalogueState.SaveEditedSpec` | script.js:208-216 | saving keeps the id, file and origin, gives a capitalized non-empty region, and saving the same form again changes nothing |
| `CatalogueState.Delete` | script.js:230-257 | a confirmed delete splices out the first item with the id; otherwise nothing changes |
| `CatalogueState.DeleteRemovesOne` | script.js:236-253 | a confirmed delete removes one item with the id and keeps the rest in order |
| `CatalogueState.DeleteUndoesAdd` | script.js:230-257 | deleting an item just added under a fresh id gives back the earlier list |
| `CatalogueState.Remove` | script.js:357-372 | the page refreshes exactly when the click removed an item |
| `CatalogueState.RemoveFileSpec` | script.js:363-367 | removing a file drops exactly its items and its list entry, keeps the rest in order, and reports a change exactly when the file had items |
| `CatalogueState.RemoveManualSpec` | script.js:368-372 | removing the hand-added items drops exactly those, keeps the files, and reports a change exactly when there were some |
| `CatalogueState.Upload` | script.js:282-313 | a file name already loaded is refused; a table that does not parse changes nothing; otherwise the file is listed with its row count and its rows join as items |
| `CatalogueState.UploadKeepsNamesDistinct` | script.js:286-290 | an upload that completes before the next one starts never lists a second file under a name already loaded |
| `CatalogueState.RemoveUndoesUpload` | script.js:363-367 | removing a file just uploaded under a fresh id restores the catalogue, and reports a change exactly when the file had rows |

## Left out

- Model calls, prompts and their answers: each batch's reply is a parameter. The JSON decoding and schema validation in correct_lore.py is the `decode` parameter.
- Step 1 of `process_item_batch` in correct_lore.py is left out: its output only feeds the prompt of Step 2.
- CSV parsing and quoting (`csv.DictReader`, `csv.DictWriter` quoting and delimiters, PapaParse): a table is a header and a list of rows, and a line is its list of field values. quote_csv.py is not part of this model.
- File I/O, `input()` prompts, console output and `time.sleep`. A failed save in correct_lore.py is a save that leaves the file as it was; partial writes are not modelled.
- Console output is assumed never to raise. Several `print("✓ …")` calls sit inside a `try`, and a raise there would make the `except` handler repeat work: at correct_lore.py:236 the Step 2 handler would append the batch again; at correct_lore.py:305 the error batch would be saved a second time; at correct_to_5e.py:108 and generate_osr_powers.py:65 the batch would be appended again. The model gives every `print` no effect.
- The API key check of correct_lore.py (`setup_api`, called twice in `main`) is left out: `main` is modelled from the header check on. In the other two scripts the key check is the `apiOk` flag.
- correct_to_5e.py's final write is not modelled as failing.
- script.js: the DOM, modal dialogs, `displayItems`, `showItemDetails`, the loaded-files list's HTML, `localStorage`, and the loading of the base items (script.js:86-130). `generateUniqueId` is a parameter (`id`, `newId`), and `confirm` is the `confirmed` parameter.
- `localeCompare` and the default `sort()` are modelled as comparison by code points. Locale collation is not modelled.
- Case mapping is ASCII only. JavaScript's `trim` is modelled by Python's `strip` whitespace set. The two differ: `trim` also removes U+FEFF, and keeps U+001C to U+001F and U+0085.
- The "all regions" option of the region selector is assumed to have the value "". index.html is not part of this model.
- `CatalogueState.UploadKeepsNamesDistinct`: each upload is modelled as finishing before the next one starts. In script.js the duplicate-name check (line 286) and `loadedFiles.push` (line 310) are separated by the asynchronous `Papa.parse` callback. Two overlapping uploads of one name can both pass the check.
- Rows hold strings only. The `None` that `csv.DictReader` puts in the missing cells of a short record is not modelled, except as the merge fault under Findings.
- `CatalogueView.SortItems`: `Array.prototype.sort` is modelled by one stable sort, insertion sort. Any stable sort gives the same result under a total preorder, and the properties are stated about the result.
- `OsrPowers.GenerateOsrPowers`: models the corrected header, not the one written at generate_osr_powers.py:126 (see Findings).

## Findings

| source | as written | input that shows it | evidently intended | confidence | as-written member | corrected member |
|---|---|---|---|---|---|---|
| generate_osr_powers.py:126 | `process_item_batch` sets `OSRPower` on the row dicts in place, so `all_items[0]` already has that key. Adding `"OSRPower"` again names the column twice, and every record carries the power in two columns | any non-empty input, e.g. one row with only `Item Name`: the header is `Item Name, OSRPower, OSRPower` | the input's columns plus OSRPower once, as the comment on line 125 says | not executed | `OsrPowers.FieldnamesAsWrittenRepeat` | `OsrPowers.FieldnamesDistinct` |
| correct_lore.py:222-256 | when the merge loop raises at row `k`, the handler appends every row of the batch again. The `k` rows appended before the fault come out twice, both copies marked with the error, because they are the same dict objects | a short record whose name cell is `None`: `None.strip()` raises at line 224. A two-row batch whose second row faults gives three rows, and the saved file gets an extra record | one row per input row, each marked with the error | not executed | `LoreResponse.MergeFaultRepeatsRows` | `LoreResponse.ProcessLoreBatchCorrected` |
