/**
 * The four record types of a Diaro backup and how a row's gathered
 * properties become one of them. Folders, locations and attachments are
 * namedtuples, built by keyword from the gathered properties, which
 * succeeds only when the properties name exactly the tuple's fields. Entries are plain objects
 * that accept any subset of the entry property names.
 */
module Records {
  import opened Wrappers
  import opened Errors
  import opened Strings

  const FolderProps: seq<string> := ["uid", "title", "color", "pattern"]
  const LocationProps: seq<string> := ["uid", "title", "address", "lat", "lng", "zoom"]
  const AttachmentProps: seq<string> := ["uid", "entry_uid", "type", "filename", "position"]
  const EntryProps: seq<string> :=
    ["uid", "date", "tz_offset", "title", "text", "folder_uid", "location_uid", "tags",
     "primary_photo_uid", "weather_temperature", "weather_icon", "weather_description", "mood"]

  /** The names in a field list, as a set. */
  function FieldSet(fields: seq<string>): set<string>
  {
    set f | f in fields
  }

  datatype Folder = Folder(uid: string, title: string, color: string, pattern: string)
  {
    /** `_asdict()`: each field under its name. */
    function AsDict(): (d: map<string, string>)
      ensures d.Keys == FieldSet(FolderProps)
    {
      map["uid" := uid, "title" := title, "color" := color, "pattern" := pattern]
    }
  }

  /** `lat`, `lng` and `zoom` stay the strings the backup holds. */
  datatype Location = Location(uid: string, title: string, address: string, lat: string, lng: string, zoom: string)
  {
    function AsDict(): (d: map<string, string>)
      ensures d.Keys == FieldSet(LocationProps)
    {
      map["uid" := uid, "title" := title, "address" := address, "lat" := lat, "lng" := lng, "zoom" := zoom]
    }
  }

  /** `position` stays a string, and the attachment query orders by it as a string. */
  datatype Attachment = Attachment(uid: string, entryUid: string, kind: string, filename: string, position: string)
  {
    function AsDict(): (d: map<string, string>)
      ensures d.Keys == FieldSet(AttachmentProps)
    {
      map["uid" := uid, "entry_uid" := entryUid, "type" := kind, "filename" := filename, "position" := position]
    }
  }

  /**
   * An entry: the loader always sets `uid` and the integer `date`; `optional`
   * holds the other attributes, each present only when its row carried that
   * property (`folder_uid`, `title`, `text`, ...), under its property name.
   */
  datatype Entry = Entry(uid: string, date: int, optional: map<string, string>)
  {
    /** `entry.folder_uid`, absent (AttributeError) when the row had no such property. */
    function FolderUid(): Option<string>
    {
      Get(optional, "folder_uid")
    }
  }

  /** `props[name]` if present, else `None`. */
  function Get(props: map<string, string>, name: string): Option<string>
  {
    if name in props then Some(props[name]) else None
  }

  /**
   * Builds a folder from a row's properties: looking up the uid raises
   * KeyError first, then the namedtuple raises TypeError unless the
   * properties name exactly the folder fields.
   */
  function MakeFolder(props: map<string, string>): (r: Result<(string, Folder), Error>)
    ensures r.Success? <==> props.Keys == FieldSet(FolderProps)
    ensures r.Failure? ==> r.error == if "uid" in props then TypeError else KeyError("uid")
  {
    if "uid" !in props then Failure(KeyError("uid"))
    else if props.Keys != FieldSet(FolderProps) then Failure(TypeError)
    else
      assert "title" in FieldSet(FolderProps) && "color" in FieldSet(FolderProps) && "pattern" in FieldSet(FolderProps);
      Success((props["uid"], Folder(props["uid"], props["title"], props["color"], props["pattern"])))
  }

  /** A built folder holds exactly the properties, its uid under "uid". */
  lemma MakeFolderFields(props: map<string, string>)
    requires MakeFolder(props).Success?
    ensures MakeFolder(props).value.0 == MakeFolder(props).value.1.uid
    ensures MakeFolder(props).value.1.AsDict() == props
  {
  }

  /** Builds a location from a row's properties, failing as `MakeFolder` does. */
  function MakeLocation(props: map<string, string>): (r: Result<(string, Location), Error>)
    ensures r.Success? <==> props.Keys == FieldSet(LocationProps)
    ensures r.Failure? ==> r.error == if "uid" in props then TypeError else KeyError("uid")
  {
    if "uid" !in props then Failure(KeyError("uid"))
    else if props.Keys != FieldSet(LocationProps) then Failure(TypeError)
    else
      assert forall f :: f in LocationProps ==> f in FieldSet(LocationProps);
      Success((props["uid"], Location(props["uid"], props["title"], props["address"],
                                      props["lat"], props["lng"], props["zoom"])))
  }

  /** A built location holds exactly the properties, its uid under "uid". */
  lemma MakeLocationFields(props: map<string, string>)
    requires MakeLocation(props).Success?
    ensures MakeLocation(props).value.0 == MakeLocation(props).value.1.uid
    ensures MakeLocation(props).value.1.AsDict() == props
  {
  }

  /** Builds an attachment from a row's properties, failing as `MakeFolder` does. */
  function MakeAttachment(props: map<string, string>): (r: Result<(string, Attachment), Error>)
    ensures r.Success? <==> props.Keys == FieldSet(AttachmentProps)
    ensures r.Failure? ==> r.error == if "uid" in props then TypeError else KeyError("uid")
  {
    if "uid" !in props then Failure(KeyError("uid"))
    else if props.Keys != FieldSet(AttachmentProps) then Failure(TypeError)
    else
      assert forall f :: f in AttachmentProps ==> f in FieldSet(AttachmentProps);
      Success((props["uid"], Attachment(props["uid"], props["entry_uid"], props["type"],
                                        props["filename"], props["position"])))
  }

  /** A built attachment holds exactly the properties, its uid under "uid". */
  lemma MakeAttachmentFields(props: map<string, string>)
    requires MakeAttachment(props).Success?
    ensures MakeAttachment(props).value.0 == MakeAttachment(props).value.1.uid
    ensures MakeAttachment(props).value.1.AsDict() == props
  {
  }

  /**
   * Builds an entry from a row's properties: the uid is looked up, the date
   * is converted to an integer, a property named `self` clashes with the
   * initialiser's own first parameter (TypeError), and the entry's own
   * assertion rejects any other property name outside the entry field list.
   * Every other entry property is optional.
   */
  function MakeEntry(props: map<string, string>): (r: Result<(string, Entry), Error>)
    ensures r.Success? <==>
      "uid" in props && "date" in props && ParseInt(props["date"]).Some? && props.Keys <= FieldSet(EntryProps)
    ensures r.Failure? ==>
      r.error == (if "uid" !in props then KeyError("uid")
                  else if "date" !in props then KeyError("date")
                  else if ParseInt(props["date"]).None? then ValueError
                  else if "self" in props then TypeError
                  else AssertionError)
  {
    if "uid" !in props then Failure(KeyError("uid"))
    else if "date" !in props then Failure(KeyError("date"))
    else
      match ParseInt(props["date"])
      case None => Failure(ValueError)
      case Some(date) =>
        if "self" in props then Failure(TypeError)
        else if !(props.Keys <= FieldSet(EntryProps)) then Failure(AssertionError)
        else
          Success((props["uid"], Entry(props["uid"], date, props - {"uid", "date"})))
  }

  /** A built entry holds the uid, the parsed date, and every other property unchanged. */
  lemma MakeEntryFields(props: map<string, string>)
    requires MakeEntry(props).Success?
    ensures MakeEntry(props).value.0 == MakeEntry(props).value.1.uid == props["uid"]
    ensures MakeEntry(props).value.1.date == ParseInt(props["date"]).value
    ensures MakeEntry(props).value.1.optional == props - {"uid", "date"}
  {
  }

  /** A row carrying a `self` property fails with TypeError, not with the entry's assertion. */
  lemma MakeEntrySelfClash()
    ensures MakeEntry(map["uid" := "1", "date" := "5", "self" := "x"]) == Failure(TypeError)
  {
    assert ParseInt("5") == Some(5);
  }

  /** Every folder is rebuilt from its own field dictionary. */
  lemma FolderRoundTrip(f: Folder)
    ensures MakeFolder(f.AsDict()) == Success((f.uid, f))
  {
  }

  /** Every location is rebuilt from its own field dictionary. */
  lemma LocationRoundTrip(l: Location)
    ensures MakeLocation(l.AsDict()) == Success((l.uid, l))
  {
  }

  /** Every attachment is rebuilt from its own field dictionary. */
  lemma AttachmentRoundTrip(a: Attachment)
    ensures MakeAttachment(a.AsDict()) == Success((a.uid, a))
  {
  }

  /** An entry is rebuilt from its attributes, with its date written in decimal. */
  lemma EntryRoundTrip(e: Entry)
    requires e.optional.Keys <= FieldSet(EntryProps) - {"uid", "date"}
    ensures MakeEntry(e.optional["uid" := e.uid]["date" := FormatInt(e.date)]) == Success((e.uid, e))
  {
    var props := e.optional["uid" := e.uid]["date" := FormatInt(e.date)];
    ParseFormatInt(e.date);
    assert props - {"uid", "date"} == e.optional;
  }
}
