# Trip-log session service — a Dafny model

This project models the backend of the taxi trip administration viewer
(`rittenadministratie-web/src/routes/rittenadministratie.py`): the service
that turns an uploaded trip-log XML document into trip records ("ritten"),
keeps them in a process-wide session store, answers paged and searched
views of a session, and exports a session as a spreadsheet.

- `wrappers.dfy` — `Option` (Python's `None` or a value) and `Result` (a value or an error message).
- `py_builtins.dfy` — the Python built-ins the service relies on, with CPython's semantics:
  `str.lower`, the `in` test on strings, `str.endswith`, `str.replace`, `str()` of a possibly
  missing text, list slicing with negative and out-of-range bounds, and floor division `//`.
- `xml_tree.dfy` — the element tree `ET.fromstring` produces (expanded name, optional text,
  children), `find` (first direct child with a tag) and `findall(".//tag")` (all strictly
  lower elements with the tag, in document order).
- `ritten.dfy` — `parse_xml_to_data`: one eleven-field record per `Rit` element that has a
  `Data` child. A field is the element's text, `None` when the element has no text, and `""`
  when the element or its parent (`Bestuurder`, `LocBeg`, `LocEnd`) is absent.
- `query.dfy` — the search filter of `get_data` (case-insensitive substring test over all
  field values, an OR over fields; an empty term matches everything) and its pagination
  (`data[(page-1)*per_page : page*per_page]`, `pages = (total + per_page - 1) // per_page`).
- `export.dfy` — the rows, the renamed column headers and the download file name of
  `download_excel`.
- `sessions.dfy` — class `SessionStore`, the `sessions` dict. It keeps the map together with
  the ids in insertion order, which is the order in which a Python dict is iterated. Its
  methods are the handlers `upload_xml`, `get_data`, `download_excel`, `get_sessions` and
  `delete_session`. Each response datatype has one variant per HTTP status.

Behaviour of the code worth knowing before reading the model:
- A query with no matches reports 0 pages.
- A missing field element is the empty string `""`, while a field element without text is `None`.
- The export name replaces every exact-case `.xml` and appends nothing when there is none.
- The server's default page size is 50; the web viewer always asks for 20
  (`rittenadministratie-frontend/src/components/DataViewer.jsx:26`).
- Sessions are removed only by an explicit delete. Nothing expires them.

## Model

| member | source | states |
|---|---|---|
| `PyBuiltins.Lower` | rittenadministratie-web/src/routes/rittenadministratie.py:155 | lower-casing keeps the length, turns each letter A-Z into its lower-case letter (code point + 32) and changes no other character |
| `PyBuiltins.ContainsIffOccurs` | rittenadministratie-web/src/routes/rittenadministratie.py:158 | the `in` scan succeeds exactly when the term occurs at some index of the value |
| `PyBuiltins.ReplaceWithoutOccurrence` | rittenadministratie-web/src/routes/rittenadministratie.py:222 | `replace` returns a string with no occurrence of the pattern unchanged |
| `PyBuiltins.Slice` | rittenadministratie-web/src/routes/rittenadministratie.py:166 | a slice is never longer than the list; for non-negative bounds it is the window from `start`, clipped at `stop` and at the end, element for element |
| `PyBuiltins.FloorDiv` | rittenadministratie-web/src/routes/rittenadministratie.py:174 | `//` rounds towards negative infinity, for either sign of the divisor |
| `XmlTree.FirstWithTagIsFirst` | rittenadministratie-web/src/routes/rittenadministratie.py:30-47 | `find` is empty exactly when no child has the tag, and otherwise returns a child with the tag that has none before it |
| `XmlTree.PreorderAppend` | rittenadministratie-web/src/routes/rittenadministratie.py:29 | document order of two adjacent subtrees is the first's followed by the second's |
| `XmlTree.FindAll` | rittenadministratie-web/src/routes/rittenadministratie.py:29 | `findall(".//ns:Rit")` yields exactly the elements below the root with that tag |
| `XmlTree.FindAllSplitsAtChild` | rittenadministratie-web/src/routes/rittenadministratie.py:29 | the matches found below earlier children of the root all come before those found below later children |
| `Ritten.Values` | rittenadministratie-web/src/routes/rittenadministratie.py:32-83 | every record has one value for each of the eleven keys `rit_id` … `longitude_eind` |
| `Ritten.ExtractRitFollowsPath` | rittenadministratie-web/src/routes/rittenadministratie.py:32-83 | each hand-written field read equals the walk along that key's element path: its text, `None` without text, `""` when the element or its parent is absent |
| `Ritten.AbsentPathReadsEmpty` | rittenadministratie-web/src/routes/rittenadministratie.py:35-83 | a field whose element, or whose parent `Bestuurder`/`LocBeg`/`LocEnd`, is missing reads as `""` |
| `Ritten.Contribution` | rittenadministratie-web/src/routes/rittenadministratie.py:30-31 | one `Rit` element contributes at most one record, and exactly one when it has a `Data` child |
| `Ritten.Records` | rittenadministratie-web/src/routes/rittenadministratie.py:29-85 | a run of `Rit` elements never yields more records than elements |
| `Ritten.RittenOf` | rittenadministratie-web/src/routes/rittenadministratie.py:26-87 | a document yields at most one record per `Rit` element below its root |
| `Ritten.ParseXmlToData` | rittenadministratie-web/src/routes/rittenadministratie.py:15-91 | the parsing loop returns the records of the document, and a syntax error becomes the "XML parsing error: …" failure |
| `Ritten.RecordsAppend` | rittenadministratie-web/src/routes/rittenadministratie.py:29-85 | the records of two runs of `Rit` elements are those of the first followed by those of the second |
| `Ritten.RecordsFromDataElements` | rittenadministratie-web/src/routes/rittenadministratie.py:29-85 | exactly one record per `Rit` element with a `Data` child, read from that child, in document order; a `Rit` without `Data` contributes nothing |
| `Query.AnyFieldMatchesIff` | rittenadministratie-web/src/routes/rittenadministratie.py:158 | the short-circuiting `any` over the values is true exactly when some field contains the term |
| `Query.Filtered` | rittenadministratie-web/src/routes/rittenadministratie.py:154-159 | the filter keeps no more records than it is given, and every record it keeps matches the term |
| `Query.Matches` | rittenadministratie-web/src/routes/rittenadministratie.py:153-160 | the matched records are no more than the data; for a non-empty term each one matches the lower-cased term |
| `Query.SearchIgnoresCase` | rittenadministratie-web/src/routes/rittenadministratie.py:155 | a search term finds the same records as its lower-cased form |
| `Query.Search` | rittenadministratie-web/src/routes/rittenadministratie.py:153-160 | the search loop returns the whole data for an empty term, else the records matching the lower-cased term |
| `Query.FilteredMembership` | rittenadministratie-web/src/routes/rittenadministratie.py:154-160 | a record is in the result exactly when it is in the data and one of its fields contains the term |
| `Query.FilteredAppend` | rittenadministratie-web/src/routes/rittenadministratie.py:154-160 | filtering distributes over concatenation, so matches keep their original order |
| `Query.FilteredKeepsAllIff` | rittenadministratie-web/src/routes/rittenadministratie.py:153-160 | the filter returns the data unchanged exactly when every record matches |
| `Query.AbsentTextMatchesNone` | rittenadministratie-web/src/routes/rittenadministratie.py:158 | a field element without text prints as "None", so the term "none" matches its record |
| `Query.Window` | rittenadministratie-web/src/routes/rittenadministratie.py:164-166 | a page never holds more than the matches, nor more than a non-negative `per_page` records, whatever the page number |
| `Query.WindowIsSlice` | rittenadministratie-web/src/routes/rittenadministratie.py:164-166 | for page ≥ 1 and per_page ≥ 1 the page is the matches between `(page-1)*per_page` and `page*per_page`, both clamped to the number of matches |
| `Query.WindowIsPage` | rittenadministratie-web/src/routes/rittenadministratie.py:163-166 | for page ≥ 1 and per_page ≥ 1 the page holds `min(per_page, max(0, total - (page-1)*per_page))` records, the matches from index `(page-1)*per_page` on |
| `Query.PageCountIsCeiling` | rittenadministratie-web/src/routes/rittenadministratie.py:174 | the page count is the ceiling of total / per_page, and it is 0 exactly when nothing matches |
| `Query.PastLastPageIsEmpty` | rittenadministratie-web/src/routes/rittenadministratie.py:163-174 | a page past the page count is empty, not an error |
| `Query.FirstPagesArePrefix` | rittenadministratie-web/src/routes/rittenadministratie.py:163-166 | pages 1 to n together are the first n·per_page matches |
| `Query.AllPagesReassemble` | rittenadministratie-web/src/routes/rittenadministratie.py:163-174 | reading pages 1 to the page count in order gives back exactly the matches |
| `Query.FortyFiveRecordsExample` | rittenadministratie-web/src/routes/rittenadministratie.py:163-174 | 45 matches at 20 per page: 3 pages, 20 on the first, 5 on the third, none on the fourth |
| `Export.HeadersAreDutchTitles` | rittenadministratie-web/src/routes/rittenadministratie.py:194-211 | a non-empty export is headed by the eleven Dutch titles in key order; an export of no records has no columns |
| `Export.DutchTitlesDistinct` | rittenadministratie-web/src/routes/rittenadministratie.py:197-209 | no two columns receive the same title |
| `Export.ToSheet` | rittenadministratie-web/src/routes/rittenadministratie.py:214-216 | the sheet "Ritadministratie" has one row per record, in order, each as wide as the header |
| `Export.ExcelFilenameHasNoXml` | rittenadministratie-web/src/routes/rittenadministratie.py:222 | the export name never contains ".xml" any more |
| `Export.ExcelFilenameOfXmlName` | rittenadministratie-web/src/routes/rittenadministratie.py:222 | a name ending in its only ".xml" gets "_output.xlsx" in its place |
| `Export.ExcelFilenameAtOccurrence` | rittenadministratie-web/src/routes/rittenadministratie.py:222 | at the first ".xml" of any name, the text before it is kept and "_output.xlsx" takes its place, and the rest of the name is replaced in the same way; with `ExcelFilenameWithoutXml` this fixes the export name of every name (e.g. "a.xml.xml" becomes "a_output.xlsx_output.xlsx") |
| `Export.ExcelFilenameWithoutXml` | rittenadministratie-web/src/routes/rittenadministratie.py:222 | a name without an exact-case ".xml" comes back unchanged, with no suffix appended |
| `Export.UpperCaseNameKeptOnExport` | rittenadministratie-web/src/routes/rittenadministratie.py:104 | "TRIPS.XML" passes the case-insensitive upload check, but its export is still named "TRIPS.XML" |
| `Sessions.Accept` | rittenadministratie-web/src/routes/rittenadministratie.py:97-111 | an upload is accepted exactly when a file is given, its name is non-empty and ends in ".xml" in any case, and it decodes and parses; the data is the parse result. Otherwise the message is that of the first check that fails: no file, empty name, not ".xml", the decoder's message, or "XML parsing error: " and the parser's message |
| `Sessions.SessionStore.constructor` | rittenadministratie-web/src/routes/rittenadministratie.py:13 | the store starts empty |
| `Sessions.SessionStore.Upload` | rittenadministratie-web/src/routes/rittenadministratie.py:94-134 | a rejected upload answers 400 and changes nothing; an accepted one stores exactly one session under the fresh id, with `total_records == len(data)`, and leaves every other session as it was |
| `Sessions.SessionStore.GetData` | rittenadministratie-web/src/routes/rittenadministratie.py:137-181 | an unknown id gives 404; otherwise the answer is the requested page of the matches, their count, the page count and the session info; `per_page == 0` gives 500 |
| `Sessions.SessionStore.Download` | rittenadministratie-web/src/routes/rittenadministratie.py:184-234 | an unknown id gives 404; otherwise every record of the session, as many rows as `total_records`, in order, under the Dutch titles, on the sheet "Ritadministratie", named by the `.xml` replacement |
| `Sessions.SessionStore.ListSessions` | rittenadministratie-web/src/routes/rittenadministratie.py:237-248 | one summary per stored session, in insertion order, and every stored session is listed |
| `Sessions.SessionStore.Delete` | rittenadministratie-web/src/routes/rittenadministratie.py:251-257 | an unknown id gives 404 and no change; otherwise exactly that session is removed and the order of the rest is kept |
| `Sessions.DeletedSessionIsGone` | rittenadministratie-web/src/routes/rittenadministratie.py:251-257 | once a session is deleted, its data, its download and a second delete all answer 404 "Sessie niet gevonden" |

## Left out

- Flask routing, reading `request.files` and `request.args`, and JSON rendering. Request
  parameters are method arguments. `page` and `per_page` are `Option<int>`, where `None`
  stands for "absent or not an integer", so the default applies.
- XML lexing, namespace-prefix resolution and UTF-8 decoding are library behaviour. The
  upload's content is given as a decode failure, a syntax error or an element tree whose
  tags are already expanded names.
- `uuid.uuid4()` and `datetime.now()` are nondeterministic. They are the `freshId` and `now`
  parameters of `Upload`.
- The pandas DataFrame and the openpyxl bytes. The export is modelled as a sheet name,
  a header row and rows of field values, where a missing text (`None`) stands for an
  empty cell.
- The catch-all `except Exception` branches of `parse_xml_to_data` (lines 90-91), `upload_xml`
  (lines 133-134) and `download_excel` (lines 233-234). They fire only on failures inside
  the libraries above.
- PyBuiltins.Lower: folds only the ASCII letters A-Z; Python's `str.lower` also folds
  non-ASCII letters.
- PyBuiltins.Replace: requires a non-empty pattern. Python's `replace("", x)` inserts `x`
  between characters, but the only call passes ".xml".
- Concurrency: the dict has no locking, and requests are modelled one at a time.
- The React client (upload form, data viewer, view toggle) is presentation code that only
  calls these handlers.
