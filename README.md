# Diaro backup loader, modelled in Dafny

`diaro-render` reads the XML backup that the Diaro diary app exports and turns it into an HTML
document. This project models the loader at its core, `diaro_render/data.py`:

- the record types are built from each table's rows: folders, locations and attachments as
  namedtuples, and entries as attribute bags;
- the `Diaro` object holds four uid-keyed dictionaries and fills them from a parsed document;
- two queries: the entries of a set of folders in date order, and the attachments of one entry
  in position order.

The modules follow the program's structure:

- `Wrappers`: `Option` and `Result`.
- `Errors`: the Python exceptions the loader can raise.
- `Xml`: an already-parsed element tree.
- `Strings`:
  - Python's `str` ordering, `LexLe`, proved to be a total order;
  - `int()` on decimal literals, `ParseInt`, and `str()` on integers, `FormatInt`. `FormatInt` is
    only a left inverse: `int(str(i)) == i` holds for every integer, but "007" does not come back
    unchanged.
- `Sorting`: Python's stable `list.sort(key=...)`, proved sorted, a permutation and stable.
- `Tables`: a Python `dict` that keeps insertion order.
- `Records`: the four property lists and the four record types, each with its constructor
  (`MakeFolder`, `MakeEntry`, ...).
- `Data`:
  - a pure specification of the whole load (`Gathered`, `LoadRows`, `LoadTable`, `LoadTables`,
    `Load`);
  - the class `Diaro`, whose methods change its four dictionaries step by step and are proved
    equal to that specification;
  - the two queries, with lemmas stating what they return.
- `Scenarios`: examples taken from the repository's tests.

A Python exception that escapes a loop is modelled as `Partial(state, failure)`: the state
reached when the exception fires, and the exception. A loader that raises produces no `Diaro`
object, so `Open` returns `Failure(error)`.

The model follows the code where the code differs from what its documentation and tests
describe:

- Gathered property values are always strings (`prop.text or ''`). The "incomplete property
  list" branch therefore never runs, and a bad row is never skipped. The whole load is aborted
  by a folder, location or attachment row whose properties are not exactly its fields, and by
  an entry row without uid or date, with a date that is not an integer, or with a property
  outside `DIARO_ENTRY_PROPS`. The exception is KeyError('uid') or KeyError('date'),
  ValueError, TypeError (from a namedtuple, or from a `self` property), or the `DiaroEntry`
  assertion. An entry row that lacks only some optional properties loads.
- A row whose tag is not `r`, and a child of the root that is not a known table, abort the load.
  They are not ignored.
- `get_entries_for_folders(None)` raises TypeError (from `list(None)`). The repository's test
  expects it to return every entry.
- An entry row without `folder_uid` loads fine. Any later folder query given a folder list
  then raises AttributeError.
- Two rows with the same uid: the later row's record replaces the earlier one, and the key keeps
  its first position.
- Attachment positions are compared as strings, so "10" sorts before "2".

## Model

| member | source | states |
|---|---|---|
| Records.MakeFolder | diaro_render/data.py:99-100 | A folder is built exactly when the properties name the four folder fields and nothing else. Otherwise the error is KeyError('uid') when uid is missing, else TypeError. |
| Records.MakeFolderFields | diaro_render/data.py:28-29 | A built folder holds every property under its field name, and the dictionary key is its uid. |
| Records.FolderRoundTrip | diaro_render/data.py:28-29 | Every folder is rebuilt unchanged from its own `_asdict()`. |
| Records.MakeLocation | diaro_render/data.py:112-113 | A location is built exactly when the properties name the six location fields. The error cases are the same as for folders. |
| Records.MakeLocationFields | diaro_render/data.py:31-32 | A built location holds every property under its field name, keyed by its uid. |
| Records.LocationRoundTrip | diaro_render/data.py:31-32 | Every location is rebuilt unchanged from its own `_asdict()`. |
| Records.MakeAttachment | diaro_render/data.py:140-141 | An attachment is built exactly when the properties name the five attachment fields. The error cases are the same as for folders. |
| Records.MakeAttachmentFields | diaro_render/data.py:34-35 | A built attachment holds every property under its field name, keyed by its uid. |
| Records.AttachmentRoundTrip | diaro_render/data.py:34-35 | Every attachment is rebuilt unchanged from its own `_asdict()`. |
| Records.MakeEntry | diaro_render/data.py:125-127 | An entry is built exactly when uid and date are present, the date is an integer literal, and every property name is an entry property. The error raised first is KeyError('uid'), then KeyError('date'), then ValueError. After that, a `self` property raises TypeError (it clashes with the constructor's own parameter), and any other unknown property fails the assertion. |
| Records.MakeEntryFields | diaro_render/data.py:43-46 | A built entry carries the uid, the parsed date, and every other property unchanged under its own name. |
| Records.MakeEntrySelfClash | diaro_render/data.py:44-45 | A row with a `self` property fails with TypeError, not with the entry's assertion. |
| Records.EntryRoundTrip | diaro_render/data.py:125-127 | An entry is rebuilt unchanged from its attributes, with its date written in decimal. |
| Strings.ParseInt | diaro_render/data.py:126 | `int()` yields a value only for a non-empty literal, and a negative one only after '-'. A string of digits yields the number it spells. |
| Strings.ParseFormatInt | diaro_render/data.py:126 | `int(str(i)) == i` for every integer. |
| Strings.LexLeReflexive | diaro_render/data.py:77 | Every string is `<=` itself. |
| Strings.LexLeTotal | diaro_render/data.py:77 | Any two strings are comparable. |
| Strings.LexLeAntisymmetric | diaro_render/data.py:77 | Two strings each `<=` the other are equal. |
| Strings.LexLeTransitive | diaro_render/data.py:77 | String `<=` is transitive. |
| Strings.PrefixLexLe | diaro_render/data.py:77 | A prefix never sorts after the string it starts. |
| Strings.StringOrderIsNotNumeric | diaro_render/data.py:77 | Position "10" sorts before position "2". |
| Sorting.SortBy | diaro_render/data.py:67 | `list.sort(key=...)` as insertion sort: each element is inserted after every element whose key is not greater. Its properties are stated by SortByPermutation, SortBySorted and SortByStable. |
| Sorting.InsertByPermutation | diaro_render/data.py:67 | Insertion adds exactly the one element (multiset). |
| Sorting.SortByPermutation | diaro_render/data.py:67 | The sort is a permutation of its input. |
| Sorting.SortByMembers | diaro_render/data.py:67 | Every element of the sorted list comes from the input. |
| Sorting.SortBySorted | diaro_render/data.py:67 | Under a total order, the sort's result is non-decreasing by key. |
| Sorting.SortByStable | diaro_render/data.py:67 | Elements with equal keys keep their input order. |
| Tables.Values | diaro_render/data.py:65 | `values()` has one value per key, in insertion order. |
| Tables.Put | diaro_render/data.py:101 | `d[k] = v` maps k to v and leaves every other key's value alone. |
| Tables.PutValid | diaro_render/data.py:101 | Assignment keeps the keys distinct and in step with the map. |
| Tables.PutNewValues | diaro_render/data.py:101 | Assigning a new key appends its value after all the others. |
| Tables.PutKnownValues | diaro_render/data.py:101 | Re-assigning a key keeps its place and replaces only its value. |
| Tables.Empty | diaro_render/data.py:51-54 | `{}` is valid and has no values. |
| Data.EmptyStore | diaro_render/data.py:51-54 | The four empty dictionaries are valid. |
| Data.Gathered | diaro_render/data.py:80-89 | Every child's tag is a gathered property name. |
| Data.GatheredKeys | diaro_render/data.py:80-89 | The gathered property names are exactly the child tags. |
| Data.GatheredFirstWins | diaro_render/data.py:82-87 | Each property's value is the text (or '') of the first child with that tag. Later duplicates are ignored. |
| Data.Diaro.GatherProperties | diaro_render/data.py:80-89 | The loop's dictionary equals the gathered properties of all the node's children. |
| Data.RowResult | diaro_render/data.py:93-100 | One row: a tag other than `r` fails the assertion, otherwise the record is built from the gathered properties. LoadRowsStep states its effect on the loop. |
| Data.LoadRows | diaro_render/data.py:92-101 | A table loads without raising exactly when every row is accepted. A raised error is the error of some row. |
| Data.LoadRowsStops | diaro_render/data.py:92-93 | Once a row raises, no later row is looked at. |
| Data.LoadRowsValid | diaro_render/data.py:101 | Loading rows keeps a dictionary valid. |
| Data.LoadRowsKeys | diaro_render/data.py:99-101 | After a load, the keys are the earlier keys plus the uids of the rows. A key no row carries keeps its value. |
| Data.LoadRowsLastWins | diaro_render/data.py:99-101 | A uid maps to the record of the last row that carries it. |
| Data.LoadTable | diaro_render/data.py:150-165 | A child loads without raising exactly when it is an accepted table. Template and mood tables change nothing. A table changes only its own dictionary. |
| Data.LoadTableValid | diaro_render/data.py:150-165 | Loading a table keeps all four dictionaries valid. |
| Data.LoadTables | diaro_render/data.py:149-165 | The children load without raising exactly when each is an accepted table. |
| Data.LoadTablesStops | diaro_render/data.py:149 | Once a child raises, no later child is looked at. |
| Data.LoadTablesValid | diaro_render/data.py:149-165 | Loading the children keeps all four dictionaries valid. |
| Data.LoadRoot | diaro_render/data.py:145-165 | The root loads without raising exactly when it is `<data version="2">` with accepted tables only. A root rejected by the tag or version checks leaves the dictionaries untouched. |
| Data.Load | diaro_render/data.py:50-57 | A document loads exactly when it is `<data version="2">` with accepted tables only. The result is four valid dictionaries. |
| Data.LoadNoTables | diaro_render/data.py:145-149 | A version-2 document without tables loads as four empty dictionaries. |
| Data.LoadRejectsRoot | diaro_render/data.py:146-147 | A root that is not `data` raises AssertionError. A missing version raises KeyError('version'). A version other than "2" raises AssertionError. |
| Data.LexLeTotalOrder | diaro_render/data.py:77 | String `<=` is a total order, as the position sort needs. |
| Data.InFolders | diaro_render/data.py:65-66 | The comprehension over the entries, keeping table order. Its properties are stated by InFoldersSelects, InFoldersMembers and InFoldersSameUids. |
| Data.InFoldersSelects | diaro_render/data.py:65-66 | Each entry is kept, as often as it occurs, exactly when its folder is asked for. |
| Data.InFoldersMembers | diaro_render/data.py:65-66 | Every selected entry is in one of the given folders. |
| Data.InFoldersSameUids | diaro_render/data.py:64-66 | The selection depends only on which folders are asked for. |
| Data.ForEntry | diaro_render/data.py:75-76 | The comprehension over the attachments, keeping table order. Its properties are stated by ForEntrySelects and ForEntryMembers. |
| Data.ForEntrySelects | diaro_render/data.py:75-76 | Each attachment is kept, as often as it occurs, exactly when it belongs to the entry. |
| Data.ForEntryMembers | diaro_render/data.py:75-76 | Every selected attachment belongs to the entry. |
| Data.Diaro.constructor | diaro_render/data.py:51-54 | A new object holds four empty, valid dictionaries. |
| Data.Diaro.ParseFolders | diaro_render/data.py:91-102 | The loop leaves the folders and the raised error exactly as `LoadRows` specifies. The other dictionaries are unchanged. |
| Data.Diaro.ParseLocations | diaro_render/data.py:104-115 | The same, for locations. |
| Data.Diaro.ParseEntries | diaro_render/data.py:117-129 | The same, for entries, with the date parsed as an integer. |
| Data.Diaro.ParseAttachments | diaro_render/data.py:131-143 | The same, for attachments. |
| Data.Diaro.ParseRoot | diaro_render/data.py:145-165 | The root checks and the table loop leave the object and the raised error exactly as `LoadRoot` specifies. |
| Data.Open | diaro_render/data.py:50-57 | Opening a document fails with the error `Load` raises. Otherwise it yields a fresh object holding what `Load` returns. |
| Data.Diaro.GetEntriesForFolders | diaro_render/data.py:59-68 | The query fails only with TypeError or AttributeError('folder_uid'). On success a folder list was given and every returned entry is in one of its folders. |
| Data.Diaro.GetAttachmentsForEntry | diaro_render/data.py:70-78 | Every returned attachment belongs to the given entry. |
| Data.GetEntriesForFoldersSpec | diaro_render/data.py:59-68 | Passing `None` raises TypeError, and an entry without `folder_uid` raises AttributeError. Otherwise the result is exactly the entries in the given folders, non-decreasing by date, with ties in table order. |
| Data.GetAttachmentsForEntrySpec | diaro_render/data.py:70-78 | The result is exactly the entry's attachments, non-decreasing by position as a string, with ties in table order. |
| Data.EntriesIgnoreUidOrder | diaro_render/data.py:64-66 | Order and repetition in the folder list do not change the result. |
| Scenarios.EntriesForTwoFolders | tests/test_data.py:299-301 | In the test's table, folders "2" and "3" give the quote and then the diary entry. |
| Scenarios.EntriesForOneFolder | tests/test_data.py:295-297 | In the test's table, folder "2" gives the one diary entry. |
| Scenarios.AttachmentsByStringPosition | diaro_render/data.py:75-77 | Attachments at positions "2" and "10" come back with "10" first. |
| Scenarios.OneFolderDocument | tests/test_data.py:61-85 | A document with one complete folder row loads as exactly that folder. |

## Left out

- Reading and parsing the XML file (`ET.parse(filename).getroot()`): the model starts from an element tree. `Open` takes the root element where `Diaro(filename)` takes a file name. A parse error is not modelled.
- Logging (`logging.info`, `logging.warning`, `logging.error`) has no effect on the result and is not modelled. This includes the duplicate-property warning, whose format string has one argument too few.
- Strings.ParseInt: accepts only an optional sign followed by ASCII digits. Python's `int()` also accepts surrounding whitespace, underscores between digits and non-ASCII digits. Such dates are rejected with ValueError in the model but would load in Python.
- `get_entries_for_folders` accepts any iterable (a list, a tuple, a generator). The model takes `Option<seq<string>>`, with `None` standing for Python's `None`.
- Python is assumed to run with assertions enabled. Under `python -O` the asserts on row tags, the root tag and version, and entry property names are removed, so such documents would load.
- Exception messages and tracebacks: only the exception's kind, and the missing key or attribute name, are modelled.
- Python's arbitrary attribute access on `DiaroEntry` is modelled as a map from property name to value.
- `diaro_render/cli/main.py`, the HTML rendering, `setup.py` and the tests themselves are not part of this model.
