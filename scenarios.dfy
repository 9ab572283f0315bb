/** Concrete cases from the repository's tests, stated against the model. */
module Scenarios {
  import opened Wrappers
  import opened Errors
  import opened Xml
  import opened Strings
  import opened Tables
  import opened Records
  import opened Data
  import Sorting

  lemma InFoldersSnoc(es: seq<Entry>, e: Entry, uids: seq<string>)
    ensures InFolders(es + [e], uids) == InFolders(es, uids) + (if InFolder(e, uids) then [e] else [])
  {
    assert (es + [e])[..|es|] == es;
  }

  /** Filtering three entries by whether each is in the folders. */
  lemma InFoldersThree(a: Entry, b: Entry, c: Entry, uids: seq<string>)
    requires InFolder(a, uids) && !InFolder(b, uids)
    ensures InFolders([a, b, c], uids) == if InFolder(c, uids) then [a, c] else [a]
  {
    InFoldersSnoc([], a, uids);
    assert [] + [a] == [a];
    InFoldersSnoc([a], b, uids);
    assert [a] + [b] == [a, b];
    InFoldersSnoc([a, b], c, uids);
    assert [a, b] + [c] == [a, b, c];
  }

  lemma ExampleSelection(diary: Entry, other: Entry, quote: Entry)
    requires diary.FolderUid() == Some("2") && other.FolderUid() == Some("7") && quote.FolderUid() == Some("3")
    ensures InFolders([diary, other, quote], ["2", "3"]) == [diary, quote]
    ensures InFolders([diary, other, quote], ["2"]) == [diary]
  {
    assert InFolder(diary, ["2", "3"]) && !InFolder(other, ["2", "3"]) && InFolder(quote, ["2", "3"]);
    assert InFolder(diary, ["2"]) && !InFolder(other, ["2"]) && !InFolder(quote, ["2"]);
    InFoldersThree(diary, other, quote, ["2", "3"]);
    InFoldersThree(diary, other, quote, ["2"]);
  }

  lemma ExampleSort(diary: Entry, quote: Entry)
    requires diary.date == 1434997052007 && quote.date == 1434997052006
    ensures Sorting.SortBy([diary, quote], DateKey, IntLe) == [quote, diary]
    ensures Sorting.SortBy([diary], DateKey, IntLe) == [diary]
  {
    assert [diary, quote][..1] == [diary];
    assert [diary][..0] == [];
    assert Sorting.SortBy([diary], DateKey, IntLe) == [diary];
    assert Sorting.InsertBy([diary], quote, DateKey, IntLe) == [quote] + [diary];
  }

  lemma ExampleValues<V>(a: V, b: V, c: V)
    ensures Table(["1", "4", "5"], map["1" := a, "4" := b, "5" := c]).Values() == [a, b, c]
  {
    var t := Table(["1", "4", "5"], map["1" := a, "4" := b, "5" := c]);
    assert t.Valid();
  }

  /** The table of the folder-query test: three entries, in this order. */
  ghost predicate ExampleTable(d: Diaro, diary: Entry, other: Entry, quote: Entry)
    reads d
  {
    && diary.date == 1434997052007 && diary.FolderUid() == Some("2")
    && other.date == 1434997052007 && other.FolderUid() == Some("7")
    && quote.date == 1434997052006 && quote.FolderUid() == Some("3")
    && d.entries == Table(["1", "4", "5"], map["1" := diary, "4" := other, "5" := quote])
  }

  /** The query's result once the table's values, the selection and its sort are known. */
  lemma EntriesQuery(d: Diaro, uids: seq<string>, a: Entry, b: Entry, c: Entry, selected: seq<Entry>, sorted: seq<Entry>)
    requires d.entries.Values() == [a, b, c]
    requires a.FolderUid().Some? && b.FolderUid().Some? && c.FolderUid().Some?
    requires InFolders([a, b, c], uids) == selected && Sorting.SortBy(selected, DateKey, IntLe) == sorted
    ensures d.GetEntriesForFolders(Some(uids)) == Success(sorted)
  {
  }

  /** Folders "2" and "3" select two entries, and the earlier-dated quote comes first. */
  lemma EntriesForTwoFolders(d: Diaro, diary: Entry, other: Entry, quote: Entry)
    requires ExampleTable(d, diary, other, quote)
    ensures d.GetEntriesForFolders(Some(["2", "3"])) == Success([quote, diary])
  {
    ExampleValues(diary, other, quote);
    ExampleSelection(diary, other, quote);
    ExampleSort(diary, quote);
    EntriesQuery(d, ["2", "3"], diary, other, quote, [diary, quote], [quote, diary]);
  }

  /** Folder "2" alone selects one entry. */
  lemma EntriesForOneFolder(d: Diaro, diary: Entry, other: Entry, quote: Entry)
    requires ExampleTable(d, diary, other, quote)
    ensures d.GetEntriesForFolders(Some(["2"])) == Success([diary])
  {
    ExampleValues(diary, other, quote);
    ExampleSelection(diary, other, quote);
    ExampleSort(diary, quote);
    EntriesQuery(d, ["2"], diary, other, quote, [diary], [diary]);
  }

  lemma ExampleAttachmentSort(p2: Attachment, p10: Attachment)
    requires p2.position == "2" && p10.position == "10"
    ensures Sorting.SortBy([p2, p10], PositionKey, LexLe) == [p10, p2]
  {
    StringOrderIsNotNumeric();
    assert [p2, p10][..1] == [p2];
    assert [p2][..0] == [];
    assert Sorting.SortBy([p2], PositionKey, LexLe) == [p2];
    assert Sorting.InsertBy([p2], p10, PositionKey, LexLe) == [p10] + [p2];
  }

  lemma ExampleAttachmentFilter(p2: Attachment, p10: Attachment)
    requires p2.entryUid == "1" && p10.entryUid == "1"
    ensures ForEntry([p2, p10], "1") == [p2, p10]
  {
    assert [p2, p10][..1] == [p2];
    assert [p2][..0] == [];
    assert ForEntry([p2], "1") == [p2];
  }

  /** Attachments at positions "2" and "10" come back with "10" first. */
  lemma AttachmentsByStringPosition(d: Diaro, p2: Attachment, p10: Attachment)
    requires p2 == Attachment("3", "1", "photo", "photo2.jpg", "2")
    requires p10 == Attachment("2", "1", "photo", "photo1.jpg", "10")
    requires d.attachments == Table(["3", "2"], map["3" := p2, "2" := p10])
    ensures d.GetAttachmentsForEntry("1") == [p10, p2]
  {
    assert d.attachments.Valid();
    assert d.attachments.Values() == [p2, p10];
    ExampleAttachmentFilter(p2, p10);
    ExampleAttachmentSort(p2, p10);
  }

  /** A property element `<tag>text</tag>`. */
  function Prop(tag: string, text: string): Element
  {
    Element(tag, map[], Some(text), [])
  }

  lemma FolderRowProperties(uid: string, title: string, color: string, pattern: string)
    ensures Gathered([Prop("uid", uid), Prop("title", title), Prop("color", color), Prop("pattern", pattern)])
      == map["uid" := uid, "title" := title, "color" := color, "pattern" := pattern]
  {
    var cs := [Prop("uid", uid), Prop("title", title), Prop("color", color), Prop("pattern", pattern)];
    assert cs[..3][..2][..1][..0] == [];
    assert Gathered(cs[..3][..2][..1]) == map["uid" := uid];
    assert Gathered(cs[..3][..2]) == map["uid" := uid, "title" := title];
    assert Gathered(cs[..3]) == map["uid" := uid, "title" := title, "color" := color];
  }

  /** A document holding one complete folder row loads as a folder table with that one folder. */
  lemma OneFolderDocument(uid: string, title: string, color: string, pattern: string)
    ensures
      var row := Element("r", map[], None, [Prop("uid", uid), Prop("title", title), Prop("color", color), Prop("pattern", pattern)]);
      var table := Element("table", map["name" := "diaro_folders"], None, [row]);
      Load(Element("data", map["version" := "2"], None, [table]))
        == Success(Store(Table([uid], map[uid := Folder(uid, title, color, pattern)]), Empty(), Empty(), Empty()))
  {
    var row := Element("r", map[], None, [Prop("uid", uid), Prop("title", title), Prop("color", color), Prop("pattern", pattern)]);
    var table := Element("table", map["name" := "diaro_folders"], None, [row]);
    FolderRowProperties(uid, title, color, pattern);
    var props := map["uid" := uid, "title" := title, "color" := color, "pattern" := pattern];
    assert props.Keys == FieldSet(FolderProps);
    assert RowResult(row, MakeFolder) == Success((uid, Folder(uid, title, color, pattern)));
    var f := Folder(uid, title, color, pattern);
    assert [row][..0] == [] && [table][..0] == [];
    var empty: Table<Folder> := Empty();
    assert LoadRows(empty, [], MakeFolder) == Partial(empty, None);
    assert empty.Put(uid, f) == Table([uid], map[uid := f]);
    assert LoadRows(empty, [row], MakeFolder) == Partial(Table([uid], map[uid := f]), None);
    var s0 := EmptyStore();
    assert LoadTable(s0, table) == Partial(Store(Table([uid], map[uid := f]), Empty(), Empty(), Empty()), None);
    assert LoadTables(s0, []) == Partial(s0, None);
    assert LoadTables(s0, [table]) == LoadTable(s0, table);
    var root := Element("data", map["version" := "2"], None, [table]);
    assert LoadRoot(s0, root) == LoadTables(s0, [table]);
  }
}
