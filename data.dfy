/**
 * The Diaro backup loader and its two queries. Loading walks an
 * already-parsed XML tree: the root must be `<data version="2">`, each
 * child a `<table name=...>` of `<r>` rows, and each row's child elements
 * are the row's properties. Rows become records in four uid-keyed tables.
 * Any exception aborts the whole load. The queries filter a table and
 * stable-sort the result.
 */
module Data {
  import opened Wrappers
  import opened Errors
  import opened Xml
  import opened Strings
  import opened Sorting
  import opened Tables
  import opened Records

  /** The four tables of a backup. */
  datatype Store = Store(
    folders: Table<Folder>, locations: Table<Location>,
    entries: Table<Entry>, attachments: Table<Attachment>)
  {
    ghost predicate Valid()
    {
      folders.Valid() && locations.Valid() && entries.Valid() && attachments.Valid()
    }
  }

  function EmptyStore(): (s: Store)
    ensures s.Valid()
  {
    Store(Empty(), Empty(), Empty(), Empty())
  }

  /** How far a step got: the state reached, and the exception that stopped it, if one did. */
  datatype Partial<S> = Partial(state: S, failure: Option<Error>)

  // ---------------------------------------------------------------------------
  // Property gathering
  // ---------------------------------------------------------------------------

  /**
   * The properties of a row: each child's tag mapped to its text, or to ""
   * when it has none; a tag seen again later leaves the first value in place.
   */
  function Gathered(children: seq<Element>): (props: map<string, string>)
    ensures forall i :: 0 <= i < |children| ==> children[i].tag in props
  {
    if children == [] then map[]
    else
      var props := Gathered(children[..|children| - 1]);
      var prop := children[|children| - 1];
      if prop.tag in props then props else props[prop.tag := TextOrEmpty(prop)]
  }

  /** No child before `i` has the tag of child `i`. */
  ghost predicate FirstWithTag(children: seq<Element>, i: int)
    requires 0 <= i < |children|
  {
    forall j :: 0 <= j < i ==> children[j].tag != children[i].tag
  }

  /** The gathered keys are exactly the children's tags. */
  lemma {:induction false} GatheredKeys(children: seq<Element>)
    ensures forall k :: k in Gathered(children) <==> exists i :: 0 <= i < |children| && children[i].tag == k
  {
    if children != [] {
      var init, last := children[..|children| - 1], children[|children| - 1];
      GatheredKeys(init);
      var g := Gathered(children);
      assert g.Keys == Gathered(init).Keys + {last.tag};
      forall k
        ensures k in g <==> exists i :: 0 <= i < |children| && children[i].tag == k
      {
        if k in g && k != last.tag {
          var i :| 0 <= i < |init| && init[i].tag == k;
          assert children[i].tag == k;
        }
        if k !in g {
          assert forall i :: 0 <= i < |init| ==> init[i] == children[i];
        }
      }
    }
  }

  lemma {:induction false} GatheredAt(children: seq<Element>, i: nat)
    requires i < |children| && FirstWithTag(children, i)
    ensures children[i].tag in Gathered(children) && Gathered(children)[children[i].tag] == TextOrEmpty(children[i])
  {
    var init, last := children[..|children| - 1], children[|children| - 1];
    if i < |init| {
      assert init[i] == children[i];
      assert FirstWithTag(init, i);
      GatheredAt(init, i);
    } else {
      GatheredKeys(init);
      assert forall j :: 0 <= j < |init| ==> init[j] == children[j];
      assert last.tag !in Gathered(init);
    }
  }

  /** Each gathered value is the text of the first child with that tag. */
  lemma GatheredFirstWins(children: seq<Element>)
    ensures forall i :: 0 <= i < |children| && FirstWithTag(children, i) ==>
      children[i].tag in Gathered(children) && Gathered(children)[children[i].tag] == TextOrEmpty(children[i])
  {
    forall i | 0 <= i < |children| && FirstWithTag(children, i)
      ensures children[i].tag in Gathered(children) && Gathered(children)[children[i].tag] == TextOrEmpty(children[i])
    {
      GatheredAt(children, i);
    }
  }

  // ---------------------------------------------------------------------------
  // Rows and tables
  // ---------------------------------------------------------------------------

  /** One row: its tag must be `r`; its properties are gathered and its record is built. */
  function RowResult<V>(row: Element, build: map<string, string> -> Result<(string, V), Error>): Result<(string, V), Error>
  {
    if row.tag != "r" then Failure(AssertionError) else build(Gathered(row.children))
  }

  /** Every row of a table loads without raising. */
  ghost predicate RowsAccepted<V>(rows: seq<Element>, build: map<string, string> -> Result<(string, V), Error>)
  {
    forall i :: 0 <= i < |rows| ==> RowResult(rows[i], build).Success?
  }

  /**
   * The loop of `_parse_folders` (and its three siblings): each row's record is
   * stored under its uid, replacing any earlier record with that uid, until a
   * row raises.
   */
  function LoadRows<V>(t: Table<V>, rows: seq<Element>, build: map<string, string> -> Result<(string, V), Error>): (r: Partial<Table<V>>)
    ensures r.failure.None? <==> RowsAccepted(rows, build)
    ensures r.failure.Some? ==> exists i :: 0 <= i < |rows| && RowResult(rows[i], build) == Failure(r.failure.value)
  {
    if rows == [] then Partial(t, None)
    else
      var init := rows[..|rows| - 1];
      var p := LoadRows(t, init, build);
      assert forall i :: 0 <= i < |init| ==> init[i] == rows[i];
      if p.failure.Some? then p
      else
        match RowResult(rows[|rows| - 1], build)
        case Failure(e) => Partial(p.state, Some(e))
        case Success(kv) => Partial(p.state.Put(kv.0, kv.1), None)
  }

  /** One more row: it raises, or its record is assigned under its uid. */
  lemma LoadRowsStep<V>(t: Table<V>, rows: seq<Element>, build: map<string, string> -> Result<(string, V), Error>, i: nat)
    requires i < |rows| && LoadRows(t, rows[..i], build).failure.None?
    ensures RowResult(rows[i], build).Failure? ==>
      LoadRows(t, rows[..i + 1], build) == Partial(LoadRows(t, rows[..i], build).state, Some(RowResult(rows[i], build).error))
    ensures RowResult(rows[i], build).Success? ==>
      LoadRows(t, rows[..i + 1], build) ==
        Partial(LoadRows(t, rows[..i], build).state.Put(RowResult(rows[i], build).value.0, RowResult(rows[i], build).value.1), None)
  {
    assert rows[..i + 1][..i] == rows[..i];
  }

  /** One more row tagged `r`: its built record is assigned, or its error is raised. */
  lemma LoadRowsBuilt<V>(t: Table<V>, rows: seq<Element>, build: map<string, string> -> Result<(string, V), Error>, i: nat,
                         props: map<string, string>, result: Result<(string, V), Error>)
    requires i < |rows| && LoadRows(t, rows[..i], build).failure.None?
    requires rows[i].tag == "r" && props == Gathered(rows[i].children) && result == build(props)
    ensures result.Failure? ==>
      LoadRows(t, rows[..i + 1], build) == Partial(LoadRows(t, rows[..i], build).state, Some(result.error))
    ensures result.Success? ==>
      LoadRows(t, rows[..i + 1], build) == Partial(LoadRows(t, rows[..i], build).state.Put(result.value.0, result.value.1), None)
  {
    LoadRowsStep(t, rows, build, i);
  }

  /** Once a row has raised, the rows after it are never looked at. */
  lemma {:induction false} LoadRowsStops<V>(t: Table<V>, rows: seq<Element>, build: map<string, string> -> Result<(string, V), Error>, i: nat)
    requires i <= |rows| && LoadRows(t, rows[..i], build).failure.Some?
    ensures LoadRows(t, rows, build) == LoadRows(t, rows[..i], build)
  {
    if i < |rows| {
      var init := rows[..|rows| - 1];
      assert init[..i] == rows[..i];
      LoadRowsStops(t, init, build, i);
    } else {
      assert rows[..i] == rows;
    }
  }

  /** Loading rows keeps a table's keys distinct and in step with its map. */
  lemma {:induction false} LoadRowsValid<V>(t: Table<V>, rows: seq<Element>, build: map<string, string> -> Result<(string, V), Error>)
    requires t.Valid()
    ensures LoadRows(t, rows, build).state.Valid()
  {
    if rows != [] {
      var init := rows[..|rows| - 1];
      LoadRowsValid(t, init, build);
      var p := LoadRows(t, init, build);
      if p.failure.None? && RowResult(rows[|rows| - 1], build).Success? {
        var kv := RowResult(rows[|rows| - 1], build).value;
        PutValid(p.state, kv.0, kv.1);
      }
    }
  }

  /** Row `i` loads and no later row carries its uid. */
  ghost predicate LastWithUid<V>(rows: seq<Element>, build: map<string, string> -> Result<(string, V), Error>, i: int)
  {
    && 0 <= i < |rows|
    && RowResult(rows[i], build).Success?
    && forall j :: i < j < |rows| && RowResult(rows[j], build).Success? ==>
         RowResult(rows[j], build).value.0 != RowResult(rows[i], build).value.0
  }

  /** Some row of `rows` loads with uid `k`. */
  ghost predicate SomeRowHasUid<V>(rows: seq<Element>, build: map<string, string> -> Result<(string, V), Error>, k: string)
  {
    exists i :: 0 <= i < |rows| && RowResult(rows[i], build).Success? && RowResult(rows[i], build).value.0 == k
  }

  /** A uid is carried by some row iff an earlier row carries it or the last row does. */
  lemma SomeRowHasUidSnoc<V>(rows: seq<Element>, build: map<string, string> -> Result<(string, V), Error>, k: string)
    requires rows != [] && RowResult(rows[|rows| - 1], build).Success?
    ensures SomeRowHasUid(rows, build, k) <==>
      SomeRowHasUid(rows[..|rows| - 1], build, k) || RowResult(rows[|rows| - 1], build).value.0 == k
  {
    var init := rows[..|rows| - 1];
    if SomeRowHasUid(init, build, k) {
      var i :| 0 <= i < |init| && RowResult(init[i], build).Success? && RowResult(init[i], build).value.0 == k;
      assert rows[i] == init[i];
    }
    if SomeRowHasUid(rows, build, k) && RowResult(rows[|rows| - 1], build).value.0 != k {
      var i :| 0 <= i < |rows| && RowResult(rows[i], build).Success? && RowResult(rows[i], build).value.0 == k;
      assert i < |init| && init[i] == rows[i];
    }
  }

  /**
   * After a load that did not raise, the table holds the earlier keys and the
   * uid of every row; a key no row carries keeps its earlier record.
   */
  lemma {:induction false} LoadRowsKeys<V>(t: Table<V>, rows: seq<Element>, build: map<string, string> -> Result<(string, V), Error>)
    requires LoadRows(t, rows, build).failure.None?
    ensures forall k :: k in LoadRows(t, rows, build).state.rows <==> k in t.rows || SomeRowHasUid(rows, build, k)
    ensures forall k :: k in t.rows && !SomeRowHasUid(rows, build, k) ==> LoadRows(t, rows, build).state.rows[k] == t.rows[k]
  {
    if rows != [] {
      var init, last := rows[..|rows| - 1], rows[|rows| - 1];
      LoadRowsKeys(t, init, build);
      var before := LoadRows(t, init, build).state.rows;
      var kv := RowResult(last, build).value;
      var after := LoadRows(t, rows, build).state.rows;
      assert after == before[kv.0 := kv.1];
      forall k
        ensures k in after <==> k in t.rows || SomeRowHasUid(rows, build, k)
        ensures k in t.rows && !SomeRowHasUid(rows, build, k) ==> after[k] == t.rows[k]
      {
        SomeRowHasUidSnoc(rows, build, k);
      }
    }
  }


  /**
   * A duplicate uid silently replaces the earlier record: after a load that did
   * not raise, the record under a uid is the one built from the last row carrying it.
   */
  lemma {:induction false} LoadRowsLastWins<V>(t: Table<V>, rows: seq<Element>, build: map<string, string> -> Result<(string, V), Error>, i: int)
    requires LoadRows(t, rows, build).failure.None?
    requires LastWithUid(rows, build, i)
    ensures RowResult(rows[i], build).value.0 in LoadRows(t, rows, build).state.rows
    ensures LoadRows(t, rows, build).state.rows[RowResult(rows[i], build).value.0] == RowResult(rows[i], build).value.1
  {
    var init, last := rows[..|rows| - 1], rows[|rows| - 1];
    var before := LoadRows(t, init, build).state.rows;
    var kv := RowResult(last, build).value;
    assert LoadRows(t, rows, build).state.rows == before[kv.0 := kv.1];
    if i < |init| {
      assert init[i] == rows[i];
      assert LastWithUid(init, build, i) by {
        forall j | i < j < |init| && RowResult(init[j], build).Success?
          ensures RowResult(init[j], build).value.0 != RowResult(init[i], build).value.0
        {
          assert init[j] == rows[j];
        }
      }
      LoadRowsLastWins(t, init, build, i);
      assert kv.0 != RowResult(rows[i], build).value.0;
    }
  }

  /** The name of a `<table>` child, when it is one and has a name. */
  function TableName(child: Element): Option<string>
  {
    if child.tag == "table" && "name" in child.attrib then Some(child.attrib["name"]) else None
  }

  /** A table child that `_parse_root` gets through without raising. */
  ghost predicate TableAccepted(child: Element)
  {
    match TableName(child)
    case None => false
    case Some(name) =>
      if name == "diaro_folders" then RowsAccepted(child.children, MakeFolder)
      else if name == "diaro_locations" then RowsAccepted(child.children, MakeLocation)
      else if name == "diaro_entries" then RowsAccepted(child.children, MakeEntry)
      else if name == "diaro_attachments" then RowsAccepted(child.children, MakeAttachment)
      else name == "diaro_templates" || name == "diaro_moods"
  }

  /**
   * One child of the root: a `<table>` is dispatched on its name to the loop
   * for its record type, `diaro_templates` and `diaro_moods` are skipped
   * unread, and anything else raises.
   */
  function LoadTable(s: Store, child: Element): (r: Partial<Store>)
    ensures r.failure.None? <==> TableAccepted(child)
    ensures TableName(child) == Some("diaro_templates") || TableName(child) == Some("diaro_moods") ==> r == Partial(s, None)
    ensures TableName(child) != Some("diaro_folders") ==> r.state.folders == s.folders
    ensures TableName(child) != Some("diaro_locations") ==> r.state.locations == s.locations
    ensures TableName(child) != Some("diaro_entries") ==> r.state.entries == s.entries
    ensures TableName(child) != Some("diaro_attachments") ==> r.state.attachments == s.attachments
  {
    if child.tag != "table" then Partial(s, Some(NotImplementedError))
    else if "name" !in child.attrib then Partial(s, Some(KeyError("name")))
    else
      var name := child.attrib["name"];
      if name == "diaro_folders" then
        var p := LoadRows(s.folders, child.children, MakeFolder);
        Partial(s.(folders := p.state), p.failure)
      else if name == "diaro_locations" then
        var p := LoadRows(s.locations, child.children, MakeLocation);
        Partial(s.(locations := p.state), p.failure)
      else if name == "diaro_entries" then
        var p := LoadRows(s.entries, child.children, MakeEntry);
        Partial(s.(entries := p.state), p.failure)
      else if name == "diaro_attachments" then
        var p := LoadRows(s.attachments, child.children, MakeAttachment);
        Partial(s.(attachments := p.state), p.failure)
      else if name == "diaro_templates" || name == "diaro_moods" then
        Partial(s, None)
      else
        Partial(s, Some(NotImplementedError))
  }

  /** Loading a table keeps every table's keys distinct and in step with its map. */
  lemma LoadTableValid(s: Store, child: Element)
    requires s.Valid()
    ensures LoadTable(s, child).state.Valid()
  {
    LoadRowsValid(s.folders, child.children, MakeFolder);
    LoadRowsValid(s.locations, child.children, MakeLocation);
    LoadRowsValid(s.entries, child.children, MakeEntry);
    LoadRowsValid(s.attachments, child.children, MakeAttachment);
  }

  /** The loop of `_parse_root` over the root's children, until one raises. */
  function LoadTables(s: Store, children: seq<Element>): (r: Partial<Store>)
    ensures r.failure.None? <==> forall i :: 0 <= i < |children| ==> TableAccepted(children[i])
  {
    if children == [] then Partial(s, None)
    else
      var init := children[..|children| - 1];
      var p := LoadTables(s, init);
      assert forall i :: 0 <= i < |init| ==> init[i] == children[i];
      if p.failure.Some? then p else LoadTable(p.state, children[|children| - 1])
  }

  /** One more child table, loaded into the state the earlier ones left. */
  lemma LoadTablesStep(s: Store, children: seq<Element>, i: nat)
    requires i < |children| && LoadTables(s, children[..i]).failure.None?
    ensures LoadTables(s, children[..i + 1]) == LoadTable(LoadTables(s, children[..i]).state, children[i])
  {
    assert children[..i + 1][..i] == children[..i];
  }

  /** Once a table has raised, the children after it are never looked at. */
  lemma {:induction false} LoadTablesStops(s: Store, children: seq<Element>, i: nat)
    requires i <= |children| && LoadTables(s, children[..i]).failure.Some?
    ensures LoadTables(s, children) == LoadTables(s, children[..i])
  {
    if i < |children| {
      var init := children[..|children| - 1];
      assert init[..i] == children[..i];
      LoadTablesStops(s, init, i);
    } else {
      assert children[..i] == children;
    }
  }

  lemma {:induction false} LoadTablesValid(s: Store, children: seq<Element>)
    requires s.Valid()
    ensures LoadTables(s, children).state.Valid()
  {
    if children != [] {
      var init := children[..|children| - 1];
      LoadTablesValid(s, init);
      LoadTableValid(LoadTables(s, init).state, children[|children| - 1]);
    }
  }

  /** `_parse_root`: check the root's tag and version, then load its children in order. */
  function LoadRoot(s: Store, root: Element): (r: Partial<Store>)
    ensures r.failure.None? <==> DocumentAccepted(root)
    ensures !(root.tag == "data" && "version" in root.attrib && root.attrib["version"] == "2") ==> r.state == s
  {
    if root.tag != "data" then Partial(s, Some(AssertionError))
    else if "version" !in root.attrib then Partial(s, Some(KeyError("version")))
    else if root.attrib["version"] != "2" then Partial(s, Some(AssertionError))
    else LoadTables(s, root.children)
  }

  /** A document the loader accepts. */
  ghost predicate DocumentAccepted(root: Element)
  {
    && root.tag == "data"
    && "version" in root.attrib && root.attrib["version"] == "2"
    && forall i :: 0 <= i < |root.children| ==> TableAccepted(root.children[i])
  }

  /** `Diaro(filename)` from the parsed tree: four empty tables, then `_parse_root`; any exception aborts. */
  function Load(root: Element): (r: Result<Store, Error>)
    ensures r.Success? <==> DocumentAccepted(root)
    ensures r.Success? ==> r.value.Valid()
  {
    var p := LoadRoot(EmptyStore(), root);
    LoadTablesValid(EmptyStore(), root.children);
    if p.failure.Some? then Failure(p.failure.value) else Success(p.state)
  }

  /** A `<data version="2">` document with no tables loads as four empty tables. */
  lemma LoadNoTables(root: Element)
    requires root.tag == "data" && "version" in root.attrib && root.attrib["version"] == "2" && root.children == []
    ensures Load(root) == Success(EmptyStore())
  {
  }

  /** A wrong root tag or version aborts the load before any table is read. */
  lemma LoadRejectsRoot(root: Element)
    requires root.tag != "data" || "version" !in root.attrib || root.attrib["version"] != "2"
    ensures Load(root).Failure?
    ensures root.tag != "data" ==> Load(root) == Failure(AssertionError)
    ensures root.tag == "data" && "version" !in root.attrib ==> Load(root) == Failure(KeyError("version"))
    ensures root.tag == "data" && "version" in root.attrib && root.attrib["version"] != "2" ==> Load(root) == Failure(AssertionError)
  {
  }

  // ---------------------------------------------------------------------------
  // Query keys
  // ---------------------------------------------------------------------------

  function DateKey(e: Entry): int
  {
    e.date
  }

  predicate IntLe(a: int, b: int)
  {
    a <= b
  }

  function PositionKey(a: Attachment): string
  {
    a.position
  }

  lemma IntLeTotalOrder()
    ensures TotalOrder(IntLe)
  {
  }

  /** Python's string order is a total order. */
  lemma LexLeTotalOrder()
    ensures TotalOrder(LexLe)
  {
    forall a, b
      ensures LexLe(a, b) || LexLe(b, a)
    {
      LexLeTotal(a, b);
    }
    forall a, b, c | LexLe(a, b) && LexLe(b, c)
      ensures LexLe(a, c)
    {
      LexLeTransitive(a, b, c);
    }
    forall a, b | LexLe(a, b) && LexLe(b, a)
      ensures a == b
    {
      LexLeAntisymmetric(a, b);
    }
  }

  /** `entry.folder_uid in folder_uids`. */
  predicate InFolder(e: Entry, uids: seq<string>)
  {
    e.FolderUid().Some? && e.FolderUid().value in uids
  }

  /** The entries in any of the folders `uids`, in table order. */
  function InFolders(es: seq<Entry>, uids: seq<string>): seq<Entry>
  {
    if es == [] then []
    else InFolders(es[..|es| - 1], uids) + (if InFolder(es[|es| - 1], uids) then [es[|es| - 1]] else [])
  }

  /** Each entry is kept, as often as it occurs, exactly when it is in one of the folders. */
  lemma {:induction false} InFoldersSelects(es: seq<Entry>, uids: seq<string>)
    ensures forall e :: multiset(InFolders(es, uids))[e] == if InFolder(e, uids) then multiset(es)[e] else 0
  {
    if es != [] {
      var init := es[..|es| - 1];
      assert es == init + [es[|es| - 1]];
      InFoldersSelects(init, uids);
    }
  }

  /** Every selected entry is in one of the folders. */
  lemma {:induction false} InFoldersMembers(es: seq<Entry>, uids: seq<string>)
    ensures forall e :: e in InFolders(es, uids) ==> InFolder(e, uids)
  {
    if es != [] {
      InFoldersMembers(es[..|es| - 1], uids);
    }
  }

  /** Which folders are asked for matters, not their order or repetition. */
  lemma {:induction false} InFoldersSameUids(es: seq<Entry>, u1: seq<string>, u2: seq<string>)
    requires forall x :: x in u1 <==> x in u2
    ensures InFolders(es, u1) == InFolders(es, u2)
  {
    if es != [] {
      InFoldersSameUids(es[..|es| - 1], u1, u2);
    }
  }

  /** The attachments of entry `entryUid`, in table order. */
  function ForEntry(as_: seq<Attachment>, entryUid: string): seq<Attachment>
  {
    if as_ == [] then []
    else ForEntry(as_[..|as_| - 1], entryUid) + (if as_[|as_| - 1].entryUid == entryUid then [as_[|as_| - 1]] else [])
  }

  /** Every selected attachment belongs to the entry. */
  lemma {:induction false} ForEntryMembers(as_: seq<Attachment>, entryUid: string)
    ensures forall a :: a in ForEntry(as_, entryUid) ==> a.entryUid == entryUid
  {
    if as_ != [] {
      ForEntryMembers(as_[..|as_| - 1], entryUid);
    }
  }

  /** Each attachment is kept, as often as it occurs, exactly when it belongs to the entry. */
  lemma {:induction false} ForEntrySelects(as_: seq<Attachment>, entryUid: string)
    ensures forall a :: multiset(ForEntry(as_, entryUid))[a] == if a.entryUid == entryUid then multiset(as_)[a] else 0
  {
    if as_ != [] {
      var init := as_[..|as_| - 1];
      assert as_ == init + [as_[|as_| - 1]];
      ForEntrySelects(init, entryUid);
    }
  }


  // ---------------------------------------------------------------------------
  // The loader object
  // ---------------------------------------------------------------------------

  class Diaro {
    var folders: Table<Folder>
    var locations: Table<Location>
    var attachments: Table<Attachment>
    var entries: Table<Entry>

    ghost predicate Valid()
      reads this
    {
      Snapshot().Valid()
    }

    /** The four tables as a value. */
    function Snapshot(): Store
      reads this
    {
      Store(folders, locations, entries, attachments)
    }

    /** The four empty dictionaries `__init__` starts from. */
    constructor ()
      ensures Valid() && Snapshot() == EmptyStore()
    {
      folders := Empty();
      locations := Empty();
      attachments := Empty();
      entries := Empty();
    }

    /**
     * `_gather_properties`: the field list passed in is ignored; every child
     * becomes a property, and a repeated tag keeps its first value (the
     * warning it logs is not modelled).
     */
    static method GatherProperties(node: Element, properties: seq<string>) returns (props: map<string, string>)
      ensures props == Gathered(node.children)
    {
      var children := node.children;
      props := map[];
      var i := 0;
      while i < |children|
        invariant 0 <= i <= |children|
        invariant props == Gathered(children[..i])
      {
        assert children[..i + 1][..i] == children[..i];
        var prop := children[i];
        if prop.tag !in props {
          props := props[prop.tag := TextOrEmpty(prop)];
        }
        i := i + 1;
      }
      assert children[..i] == children;
    }

    /**
     * `_parse_folders`. The "incomplete property list" branch of the source
     * cannot be taken, since every gathered value is a string; a row with a
     * missing or extra property raises instead.
     */
    method ParseFolders(table: Element) returns (err: Option<Error>)
      requires Valid()
      modifies this
      ensures Valid()
      ensures Partial(folders, err) == LoadRows(old(folders), table.children, MakeFolder)
      ensures locations == old(locations) && entries == old(entries) && attachments == old(attachments)
    {
      var rows := table.children;
      err := None;
      var i := 0;
      while i < |rows| && err.None?
        invariant 0 <= i <= |rows|
        invariant Valid()
        invariant Partial(folders, err) == LoadRows(old(folders), rows[..i], MakeFolder)
        invariant locations == old(locations) && entries == old(entries) && attachments == old(attachments)
      {
        var row := rows[i];
        if row.tag != "r" {
          LoadRowsStep(old(folders), rows, MakeFolder, i);
          err := Some(AssertionError);
        } else {
          var properties := GatherProperties(row, FolderProps);
          var result := MakeFolder(properties);
          LoadRowsBuilt(old(folders), rows, MakeFolder, i, properties, result);
          match result {
            case Failure(e) =>
              err := Some(e);
            case Success(kv) =>
              PutValid(folders, kv.0, kv.1);
              folders := folders.Put(kv.0, kv.1);
          }
        }
        i := i + 1;
      }
      if err.Some? {
        LoadRowsStops(old(folders), rows, MakeFolder, i);
      } else {
        assert rows[..i] == rows;
      }
    }

    /** `_parse_locations`: as `_parse_folders`, for location rows. */
    method ParseLocations(table: Element) returns (err: Option<Error>)
      requires Valid()
      modifies this
      ensures Valid()
      ensures Partial(locations, err) == LoadRows(old(locations), table.children, MakeLocation)
      ensures folders == old(folders) && entries == old(entries) && attachments == old(attachments)
    {
      var rows := table.children;
      err := None;
      var i := 0;
      while i < |rows| && err.None?
        invariant 0 <= i <= |rows|
        invariant Valid()
        invariant Partial(locations, err) == LoadRows(old(locations), rows[..i], MakeLocation)
        invariant folders == old(folders) && entries == old(entries) && attachments == old(attachments)
      {
        var row := rows[i];
        if row.tag != "r" {
          LoadRowsStep(old(locations), rows, MakeLocation, i);
          err := Some(AssertionError);
        } else {
          var properties := GatherProperties(row, LocationProps);
          var result := MakeLocation(properties);
          LoadRowsBuilt(old(locations), rows, MakeLocation, i, properties, result);
          match result {
            case Failure(e) =>
              err := Some(e);
            case Success(kv) =>
              PutValid(locations, kv.0, kv.1);
              locations := locations.Put(kv.0, kv.1);
          }
        }
        i := i + 1;
      }
      if err.Some? {
        LoadRowsStops(old(locations), rows, MakeLocation, i);
      } else {
        assert rows[..i] == rows;
      }
    }

    /** `_parse_entries`: the `date` property is converted with `int()` before the entry is built. */
    method ParseEntries(table: Element) returns (err: Option<Error>)
      requires Valid()
      modifies this
      ensures Valid()
      ensures Partial(entries, err) == LoadRows(old(entries), table.children, MakeEntry)
      ensures folders == old(folders) && locations == old(locations) && attachments == old(attachments)
    {
      var rows := table.children;
      err := None;
      var i := 0;
      while i < |rows| && err.None?
        invariant 0 <= i <= |rows|
        invariant Valid()
        invariant Partial(entries, err) == LoadRows(old(entries), rows[..i], MakeEntry)
        invariant folders == old(folders) && locations == old(locations) && attachments == old(attachments)
      {
        var row := rows[i];
        if row.tag != "r" {
          LoadRowsStep(old(entries), rows, MakeEntry, i);
          err := Some(AssertionError);
        } else {
          var properties := GatherProperties(row, EntryProps);
          var result := MakeEntry(properties);
          LoadRowsBuilt(old(entries), rows, MakeEntry, i, properties, result);
          match result {
            case Failure(e) =>
              err := Some(e);
            case Success(kv) =>
              PutValid(entries, kv.0, kv.1);
              entries := entries.Put(kv.0, kv.1);
          }
        }
        i := i + 1;
      }
      if err.Some? {
        LoadRowsStops(old(entries), rows, MakeEntry, i);
      } else {
        assert rows[..i] == rows;
      }
    }

    /** `_parse_attachments`: as `_parse_folders`, for attachment rows. */
    method ParseAttachments(table: Element) returns (err: Option<Error>)
      requires Valid()
      modifies this
      ensures Valid()
      ensures Partial(attachments, err) == LoadRows(old(attachments), table.children, MakeAttachment)
      ensures folders == old(folders) && locations == old(locations) && entries == old(entries)
    {
      var rows := table.children;
      err := None;
      var i := 0;
      while i < |rows| && err.None?
        invariant 0 <= i <= |rows|
        invariant Valid()
        invariant Partial(attachments, err) == LoadRows(old(attachments), rows[..i], MakeAttachment)
        invariant folders == old(folders) && locations == old(locations) && entries == old(entries)
      {
        var row := rows[i];
        if row.tag != "r" {
          LoadRowsStep(old(attachments), rows, MakeAttachment, i);
          err := Some(AssertionError);
        } else {
          var properties := GatherProperties(row, AttachmentProps);
          var result := MakeAttachment(properties);
          LoadRowsBuilt(old(attachments), rows, MakeAttachment, i, properties, result);
          match result {
            case Failure(e) =>
              err := Some(e);
            case Success(kv) =>
              PutValid(attachments, kv.0, kv.1);
              attachments := attachments.Put(kv.0, kv.1);
          }
        }
        i := i + 1;
      }
      if err.Some? {
        LoadRowsStops(old(attachments), rows, MakeAttachment, i);
      } else {
        assert rows[..i] == rows;
      }
    }

    /** `_parse_root`: the returned error is the exception that escaped, if any. */
    method ParseRoot(root: Element) returns (err: Option<Error>)
      requires Valid()
      modifies this
      ensures Valid()
      ensures Partial(Snapshot(), err) == LoadRoot(old(Snapshot()), root)
    {
      if root.tag != "data" {
        return Some(AssertionError);
      }
      if "version" !in root.attrib {
        return Some(KeyError("version"));
      }
      if root.attrib["version"] != "2" {
        return Some(AssertionError);
      }
      var children := root.children;
      err := None;
      var i := 0;
      while i < |children| && err.None?
        invariant 0 <= i <= |children|
        invariant Valid()
        invariant Partial(Snapshot(), err) == LoadTables(old(Snapshot()), children[..i])
      {
        LoadTablesStep(old(Snapshot()), children, i);
        var child := children[i];
        if child.tag == "table" {
          if "name" !in child.attrib {
            err := Some(KeyError("name"));
          } else {
            var name := child.attrib["name"];
            if name == "diaro_folders" {
              err := ParseFolders(child);
            } else if name == "diaro_locations" {
              err := ParseLocations(child);
            } else if name == "diaro_entries" {
              err := ParseEntries(child);
            } else if name == "diaro_attachments" {
              err := ParseAttachments(child);
            } else if name == "diaro_templates" || name == "diaro_moods" {
              // skipped: no record type for these tables
            } else {
              err := Some(NotImplementedError);
            }
          }
        } else {
          err := Some(NotImplementedError);
        }
        i := i + 1;
      }
      if err.Some? {
        LoadTablesStops(old(Snapshot()), children, i);
      } else {
        assert children[..i] == children;
      }
    }

    /**
     * `get_entries_for_folders`: `list(None)` raises TypeError, and an entry
     * without a `folder_uid` attribute raises AttributeError; otherwise the
     * entries in the given folders, stably sorted by date.
     */
    function GetEntriesForFolders(folderUids: Option<seq<string>>): (r: Result<seq<Entry>, Error>)
      reads this
      ensures r.Failure? ==> r.error == TypeError || r.error == AttributeError("folder_uid")
      ensures r.Success? ==> folderUids.Some? && forall i :: 0 <= i < |r.value| ==> InFolder(r.value[i], folderUids.value)
    {
      match folderUids
      case None => Failure(TypeError)
      case Some(uids) =>
        var all := entries.Values();
        if exists i :: 0 <= i < |all| && all[i].FolderUid().None? then Failure(AttributeError("folder_uid"))
        else
          var selected := InFolders(all, uids);
          InFoldersMembers(all, uids);
          SortByMembers(selected, DateKey, IntLe);
          Success(SortBy(selected, DateKey, IntLe))
    }

    /**
     * `get_attachments_for_entry`: the attachments of one entry, stably
     * sorted by `position` compared as strings.
     */
    function GetAttachmentsForEntry(entryUid: string): (r: seq<Attachment>)
      reads this
      ensures forall i :: 0 <= i < |r| ==> r[i].entryUid == entryUid
    {
      var selected := ForEntry(attachments.Values(), entryUid);
      ForEntryMembers(attachments.Values(), entryUid);
      SortByMembers(selected, PositionKey, LexLe);
      SortBy(selected, PositionKey, LexLe)
    }
  }

  /** `Diaro(filename)`, from the parsed tree: the object exists only if loading raised nothing. */
  method Open(root: Element) returns (r: Result<Diaro, Error>)
    ensures r.Failure? ==> Load(root) == Failure(r.error)
    ensures r.Success? ==> fresh(r.value) && r.value.Valid() && Load(root) == Success(r.value.Snapshot())
  {
    var d := new Diaro();
    var err := d.ParseRoot(root);
    if err.Some? {
      return Failure(err.value);
    }
    return Success(d);
  }

  /**
   * The folder query raises TypeError for `None` and AttributeError when an
   * entry lacks `folder_uid`; otherwise it returns exactly the entries in the
   * given folders, each as often as in the table, non-decreasing by date,
   * with entries of equal date in table order.
   */
  lemma GetEntriesForFoldersSpec(d: Diaro, folderUids: Option<seq<string>>)
    ensures folderUids.None? ==> d.GetEntriesForFolders(folderUids) == Failure(TypeError)
    ensures folderUids.Some? ==>
      (d.GetEntriesForFolders(folderUids).Failure? <==>
         exists i :: 0 <= i < |d.entries.Values()| && d.entries.Values()[i].FolderUid().None?)
    ensures folderUids.Some? && d.GetEntriesForFolders(folderUids).Failure? ==>
      d.GetEntriesForFolders(folderUids).error == AttributeError("folder_uid")
    ensures d.GetEntriesForFolders(folderUids).Success? ==>
      var r := d.GetEntriesForFolders(folderUids).value;
      var selected := InFolders(d.entries.Values(), folderUids.value);
      && (forall e :: multiset(r)[e] == if InFolder(e, folderUids.value) then multiset(d.entries.Values())[e] else 0)
      && SortedBy(r, DateKey, IntLe)
      && forall t :: WithKey(r, DateKey, t) == WithKey(selected, DateKey, t)
  {
    if d.GetEntriesForFolders(folderUids).Success? {
      var selected := InFolders(d.entries.Values(), folderUids.value);
      InFoldersSelects(d.entries.Values(), folderUids.value);
      SortByPermutation(selected, DateKey, IntLe);
      IntLeTotalOrder();
      SortBySorted(selected, DateKey, IntLe);
      SortByStable(selected, DateKey, IntLe);
    }
  }

  /**
   * The attachment query returns exactly the attachments of the entry, each as
   * often as in the table, non-decreasing by position as strings, with equal
   * positions in table order.
   */
  lemma GetAttachmentsForEntrySpec(d: Diaro, entryUid: string)
    ensures var r := d.GetAttachmentsForEntry(entryUid);
      var selected := ForEntry(d.attachments.Values(), entryUid);
      && (forall a :: multiset(r)[a] == if a.entryUid == entryUid then multiset(d.attachments.Values())[a] else 0)
      && SortedBy(r, PositionKey, LexLe)
      && forall p :: WithKey(r, PositionKey, p) == WithKey(selected, PositionKey, p)
  {
    var selected := ForEntry(d.attachments.Values(), entryUid);
    ForEntrySelects(d.attachments.Values(), entryUid);
    SortByPermutation(selected, PositionKey, LexLe);
    LexLeTotalOrder();
    SortBySorted(selected, PositionKey, LexLe);
    SortByStable(selected, PositionKey, LexLe);
  }

  /** The folder filter depends only on which uids are given, not on their order or repetition. */
  lemma EntriesIgnoreUidOrder(d: Diaro, u1: seq<string>, u2: seq<string>)
    requires forall x :: x in u1 <==> x in u2
    ensures d.GetEntriesForFolders(Some(u1)) == d.GetEntriesForFolders(Some(u2))
  {
    InFoldersSameUids(d.entries.Values(), u1, u2);
  }
}
