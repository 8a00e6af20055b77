/** The catalogue's state and the edits the page makes to it (script.js):
    adding an item, saving an edited item, deleting one, removing an
    uploaded file's items or the hand-added items, and uploading a file.
    Form fields, the confirmation dialog and fresh ids are parameters. */
module CatalogueState {
  import opened Wrappers
  import opened Text
  import opened Seqs
  import opened Table
  import opened CatalogueItems

  /** An entry of `loadedFiles`. */
  datatype LoadedFile = LoadedFile(name: string, id: string, count: nat)

  /** `leagueItems` and `loadedFiles`. */
  datatype Catalogue = Catalogue(items: seq<Item>, files: seq<LoadedFile>)

  /** The trimmed text of a form field, or `fallback` when that is empty:
      `field.trim() || fallback`. */
  function TrimOr(field: string, fallback: string): (r: string)
    ensures r == Strip(field) || r == fallback
    ensures fallback != "" ==> r != ""
  {
    if Strip(field) != "" then Strip(field) else fallback
  }

  /** The region an added or edited item gets: `capitalize(region || 'Unknown')`. */
  function RegionOf(field: string): (region: string)
    ensures region != ""
    ensures Capitalize(region) == region
  {
    CapitalizeNonEmpty(TrimOr(field, "Unknown"));
    CapitalizeIdempotent(TrimOr(field, "Unknown"));
    Capitalize(TrimOr(field, "Unknown"))
  }

  /** The text of the add form's five fields. */
  datatype AddForm = AddForm(name: string, region: string, description: string, lore: string, image: string)

  /** The add form's submit handler: nothing happens without a name;
      otherwise a hand-added item with a fresh `id` joins the end of the
      catalogue. */
  function AddItem(c: Catalogue, form: AddForm, id: string): (c': Catalogue)
    ensures Strip(form.name) == "" ==> c' == c
    ensures Strip(form.name) != "" ==>
      && c'.files == c.files
      && |c'.items| == |c.items| + 1
      && c'.items[..|c.items|] == c.items
      && c'.items[|c.items|] == Item(id, Strip(form.name), RegionOf(form.region), Strip(form.lore),
                                     Strip(form.description), Strip(form.image), None, Manual)
  {
    if Strip(form.name) == "" then c
    else
      var item := Item(id, Strip(form.name), RegionOf(form.region), Strip(form.lore),
                       Strip(form.description), Strip(form.image), None, Manual);
      assert (c.items + [item])[..|c.items|] == c.items;
      Catalogue(c.items + [item], c.files)
  }

  /** A hand-added item has a name and a capitalized region, so it comes
      back from an export and re-upload with the same fields. */
  lemma {:induction false} AddedItemRoundTrip(c: Catalogue, form: AddForm, id: string, fileId: string, index: nat)
    requires Strip(form.name) != ""
    ensures var item := AddItem(c, form, id).items[|c.items|];
      && item.source == Manual && item.fileId == None
      && var back := CsvItem(ExportRow(item), fileId, index);
         back.name == item.name && back.region == item.region && back.lore == item.lore
         && back.descriptionLore == item.descriptionLore && back.image == item.image
  {
    var item := AddItem(c, form, id).items[|c.items|];
    ExportUploadRoundTrip(item, fileId, index);
  }

  /** `items.findIndex(item => item.id === id)`, with `None` for -1. */
  function FindIndex(items: seq<Item>, id: string): (r: Option<nat>)
    ensures r.Some? ==> r.value < |items| && items[r.value].id == id
    ensures r.Some? ==> forall j :: 0 <= j < r.value ==> items[j].id != id
    ensures r.None? <==> forall j :: 0 <= j < |items| ==> items[j].id != id
  {
    if |items| == 0 then None
    else if items[0].id == id then Some(0)
    else
      match FindIndex(items[1..], id)
      case None =>
        assert forall j :: 1 <= j < |items| ==> items[j] == items[1..][j - 1];
        None
      case Some(k) =>
        assert forall j :: 1 <= j <= k ==> items[j] == items[1..][j - 1];
        Some(k + 1)
  }

  /** The edit dialog's fields. `image` is `None` when the dialog has no
      image-URL input. */
  datatype EditForm = EditForm(title: string, region: string, description: string, lore: string, image: Option<string>)

  /** The fields `saveEditedItem` writes into the item with the edited id. */
  function Edited(item: Item, current: Item, form: EditForm): (r: Item)
    ensures r.id == item.id && r.fileId == item.fileId && r.source == item.source
    ensures r.region != "" && r.region == Capitalize(r.region)
  {
    item.(name := Strip(form.title), region := RegionOf(form.region),
          descriptionLore := Strip(form.description), lore := Strip(form.lore),
          image := TrimOr(form.image.GetOr(""), current.image))
  }

  /** `saveEditedItem` for the item `current` open in the dialog: the first
      item carrying its id takes the form's values, every other item stays
      as it was, and nothing changes when no item carries the id. */
  function SaveEdited(items: seq<Item>, current: Item, form: EditForm): (r: seq<Item>)
    ensures |r| == |items|
    ensures FindIndex(items, current.id).None? ==> r == items
    ensures FindIndex(items, current.id).Some? ==>
      var i := FindIndex(items, current.id).value;
      && r[i] == Edited(items[i], current, form)
      && forall j :: 0 <= j < |items| && j != i ==> r[j] == items[j]
  {
    match FindIndex(items, current.id)
    case None => items
    case Some(i) => items[i := Edited(items[i], current, form)]
  }

  /** Saving keeps the edited item's id, file and origin, and gives it a
      capitalized, non-empty region; saving the same form again changes
      nothing more. */
  lemma {:induction false} SaveEditedSpec(items: seq<Item>, current: Item, form: EditForm)
    requires FindIndex(items, current.id).Some?
    ensures var i := FindIndex(items, current.id).value;
      var r := SaveEdited(items, current, form);
      && r[i].id == items[i].id && r[i].fileId == items[i].fileId && r[i].source == items[i].source
      && r[i].region != "" && Capitalize(r[i].region) == r[i].region
      && SaveEdited(r, current, form) == r
  {
    var i := FindIndex(items, current.id).value;
    var r := SaveEdited(items, current, form);
    assert FindIndex(r, current.id) == Some(i) by {
      assert forall j :: 0 <= j < i ==> r[j] == items[j];
      assert r[i].id == current.id;
    }
  }

  /** `deleteCurrentItem`: once confirmed, the first item carrying `id` is
      spliced out; without confirmation, or when no item carries `id`, the
      list is unchanged. */
  function Delete(items: seq<Item>, id: string, confirmed: bool): (r: seq<Item>)
    ensures !confirmed || FindIndex(items, id).None? ==> r == items
    ensures confirmed && FindIndex(items, id).Some? ==>
      var i := FindIndex(items, id).value;
      r == items[..i] + items[i + 1..]
  {
    if !confirmed then items
    else match FindIndex(items, id)
      case None => items
      case Some(i) => items[..i] + items[i + 1..]
  }

  /** A confirmed delete removes one item carrying `id` and nothing else. */
  lemma {:induction false} DeleteRemovesOne(items: seq<Item>, id: string)
    requires FindIndex(items, id).Some?
    ensures var r := Delete(items, id, true);
      && |r| == |items| - 1
      && multiset(r) + multiset{items[FindIndex(items, id).value]} == multiset(items)
      && IsSubsequence(r, items)
  {
    var i := FindIndex(items, id).value;
    var r := Delete(items, id, true);
    assert items == items[..i] + [items[i]] + items[i + 1..];
    SkipOneIsSubsequence(items, i);
  }

  lemma {:induction false} SkipOneIsSubsequence(s: seq<Item>, i: nat)
    requires i < |s|
    ensures IsSubsequence(s[..i] + s[i + 1..], s)
    decreases i
  {
    if i == 0 {
      assert s[..0] + s[1..] == s[1..];
      SubsequenceSelf(s[1..]);
    } else {
      SkipOneIsSubsequence(s[1..], i - 1);
      var a := s[..i] + s[i + 1..];
      assert a[0] == s[0];
      assert a[1..] == s[1..][..i - 1] + s[1..][i..];
    }
  }

  lemma {:induction false} SubsequenceSelf(s: seq<Item>)
    ensures IsSubsequence(s, s)
    decreases |s|
  {
    if |s| > 0 {
      SubsequenceSelf(s[1..]);
    }
  }

  /** Deleting an item just added by hand gives back the earlier list. */
  lemma {:induction false} DeleteUndoesAdd(c: Catalogue, form: AddForm, id: string)
    requires Strip(form.name) != ""
    requires forall j :: 0 <= j < |c.items| ==> c.items[j].id != id
    ensures Delete(AddItem(c, form, id).items, id, true) == c.items
  {
    var items := AddItem(c, form, id).items;
    assert items[..|c.items|] == c.items;
    assert FindIndex(items, id) == Some(|c.items|);
  }

  /** Items and files the remove button of the file `fileId` keeps. */
  function OutsideFile(fileId: string): Item -> bool {
    (x: Item) => x.fileId != Some(fileId)
  }

  function OtherFile(fileId: string): LoadedFile -> bool {
    (f: LoadedFile) => f.id != fileId
  }

  function NotManual(): Item -> bool {
    (x: Item) => x.source != Manual
  }

  /** The remove buttons of the loaded-files list. */
  datatype RemoveButton = FileButton(fileId: string) | ManualButton

  /** The click handler of a remove button: the new catalogue and whether
      any item went (only then is the page refreshed and the state saved). */
  function Remove(c: Catalogue, button: RemoveButton): (r: (Catalogue, bool))
    ensures r.1 <==> |r.0.items| < |c.items|
  {
    match button
    case FileButton(fileId) =>
      if fileId == "" then (c, false)
      else
        var items := Filter(c.items, OutsideFile(fileId));
        (Catalogue(items, Filter(c.files, OtherFile(fileId))), |items| < |c.items|)
    case ManualButton =>
      var items := Filter(c.items, NotManual());
      (Catalogue(items, c.files), |items| < |c.items|)
  }

  /** Removing a file drops exactly its items and its entry, keeps the rest
      in order, and reports a change exactly when the file had items. */
  lemma {:induction false} RemoveFileSpec(c: Catalogue, fileId: string)
    requires fileId != ""
    ensures var (c', removed) := Remove(c, FileButton(fileId));
      && IsSubsequence(c'.items, c.items)
      && (forall x :: multiset(c'.items)[x] == if x.fileId == Some(fileId) then 0 else multiset(c.items)[x])
      && (forall f :: f in c'.files <==> f in c.files && f.id != fileId)
      && (removed <==> exists i :: 0 <= i < |c.items| && c.items[i].fileId == Some(fileId))
  {
    var p := OutsideFile(fileId);
    FilterSpec(c.items, p);
    forall f
      ensures f in Filter(c.files, OtherFile(fileId)) <==> f in c.files && f.id != fileId
    {
      FilterMembers(c.files, OtherFile(fileId), f);
    }
    var kept := Filter(c.items, p);
    if exists i :: 0 <= i < |c.items| && c.items[i].fileId == Some(fileId) {
      var i :| 0 <= i < |c.items| && c.items[i].fileId == Some(fileId);
      FilterStrictlyShorter(c.items, p, i);
    } else {
      FilterAll(c.items, p);
    }
  }

  /** Removing the hand-added items drops exactly those and nothing else. */
  lemma {:induction false} RemoveManualSpec(c: Catalogue)
    ensures var (c', removed) := Remove(c, ManualButton);
      && IsSubsequence(c'.items, c.items)
      && c'.files == c.files
      && (forall x :: multiset(c'.items)[x] == if x.source == Manual then 0 else multiset(c.items)[x])
      && (removed <==> exists i :: 0 <= i < |c.items| && c.items[i].source == Manual)
  {
    var p := NotManual();
    FilterSpec(c.items, p);
    if exists i :: 0 <= i < |c.items| && c.items[i].source == Manual {
      var i :| 0 <= i < |c.items| && c.items[i].source == Manual;
      FilterStrictlyShorter(c.items, p, i);
    } else {
      FilterAll(c.items, p);
    }
  }

  /** A filter that rejects some element shortens the sequence. */
  lemma {:induction false} FilterStrictlyShorter(s: seq<Item>, p: Item -> bool, i: nat)
    requires i < |s| && !p(s[i])
    ensures |Filter(s, p)| < |s|
    decreases i
  {
    if i > 0 {
      FilterStrictlyShorter(s[1..], p, i - 1);
    }
  }

  /** How an upload ended. */
  datatype UploadStatus = AlreadyLoaded | ParseFailed | Loaded

  function FileNames(files: seq<LoadedFile>): (names: seq<string>)
    ensures |names| == |files|
    ensures forall i :: 0 <= i < |files| ==> names[i] == files[i].name
  {
    seq(|files|, i requires 0 <= i < |files| => files[i].name)
  }

  /** `handleFileUpload` for a chosen file `name`: a name already loaded is
      refused; a table that fails to parse (`rows` is `None`) leaves the
      catalogue as it was; otherwise the file is listed under the fresh id
      `newId` with its row count, and its rows join the catalogue as items. */
  function Upload(c: Catalogue, name: string, newId: string, rows: Option<seq<Row>>): (r: (Catalogue, UploadStatus))
    ensures r.1 == AlreadyLoaded <==> name in FileNames(c.files)
    ensures r.1 != Loaded ==> r.0 == c
    ensures r.1 == ParseFailed <==> name !in FileNames(c.files) && rows.None?
    ensures r.1 == Loaded ==>
      && r.0.files == c.files + [LoadedFile(name, newId, |rows.value|)]
      && r.0.items == c.items + ProcessCSVData(rows.value, newId)
  {
    if name in FileNames(c.files) then (c, AlreadyLoaded)
    else match rows
      case None => (c, ParseFailed)
      case Some(rs) =>
        (Catalogue(c.items + ProcessCSVData(rs, newId), c.files + [LoadedFile(name, newId, |rs|)]), Loaded)
  }

  /** An upload that completes before the next one starts never lists a
      second file under a name already loaded. */
  lemma {:induction false} UploadKeepsNamesDistinct(c: Catalogue, name: string, newId: string, rows: Option<seq<Row>>)
    requires Distinct(FileNames(c.files))
    ensures Distinct(FileNames(Upload(c, name, newId, rows).0.files))
  {
    var (c', status) := Upload(c, name, newId, rows);
    if status == Loaded {
      var ns := FileNames(c'.files);
      assert ns == FileNames(c.files) + [name];
    }
  }

  /** Removing a file right after uploading it under a fresh id gives back
      the catalogue as it was, and reports a change exactly when the file
      had rows. */
  lemma {:induction false} RemoveUndoesUpload(c: Catalogue, name: string, newId: string, rows: seq<Row>)
    requires name !in FileNames(c.files)
    requires newId != ""
    requires forall j :: 0 <= j < |c.items| ==> c.items[j].fileId != Some(newId)
    requires forall j :: 0 <= j < |c.files| ==> c.files[j].id != newId
    ensures Remove(Upload(c, name, newId, Some(rows)).0, FileButton(newId)) == (c, |rows| > 0)
  {
    var added := ProcessCSVData(rows, newId);
    var entry := [LoadedFile(name, newId, |rows|)];
    FilterAppend(c.items, added, OutsideFile(newId));
    FilterAll(c.items, OutsideFile(newId));
    FilterNone(added, OutsideFile(newId));
    FilterAppend(c.files, entry, OtherFile(newId));
    FilterAll(c.files, OtherFile(newId));
    FilterNone(entry, OtherFile(newId));
    assert c.items + [] == c.items && c.files + [] == c.files;
  }
}
