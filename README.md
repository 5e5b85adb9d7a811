# ntdsforensics: cell decoding, type resolution and query selection, in Dafny

ntdsforensics reads the Active Directory database (`ntds.dit`, an Extensible
Storage Engine file) and reports on users, groups, computers and their
timestamps. This project models the layer that turns the database's raw cells
and rows into typed directory facts, and proves properties of that model:

- **Cell decoders** (`DbRecords`, `Timestamps`, `DataTableRecords`). Each getter
  dispatches on the cell's storage variant:
  - 32-bit integers;
  - text;
  - binary hashes, rendered as lowercase hex;
  - security identifiers, parsed byte by byte into `S-rev-auth-sub…`;
  - FILETIME tick counts, converted to microseconds since 1601-01-01.

  `Null` decodes to "absent", and every other variant is an error. The
  attribute accessors of the newer layer read one attribute id each.
- **Schema anchor and type definitions** (`DataTableExt`, `DataTables`,
  `FirstMatchScan`):
  - the anchor is the first readable row whose secondary name is "Schema";
  - type definitions are the anchor's children, found by one scan that drains
    a set of requested names and keeps the first row per name.
- **Query selection** (`DataTableExt`, `DataTables`):
  - the rows the user listing and the timeline convert;
  - the search's growing column header, and its padded and escaped cells;
  - single-entry lookup by id or RID, and the terminal column widths;
  - the timeline's record sets and its per-type dispatch.
- **Security-descriptor side table** (`SdTables`): the id→blob map, where the
  last row wins, and the lookup that parses a blob.

Supporting modules:

- `Wrappers`: Option and Result.
- `Bytes`: the integer widths, and little- and big-endian readers with their
  encoders.
- `TextFormat`: decimal, hex, join and split, each with its round trip.
- `Values`: the cell variants.
- `Errors`: the error enum of the directory layer. Also the failures of the
  older getters and the panics: `expect`, `unwrap`, `unimplemented!` and an
  arithmetic overflow each end the run, and are modelled as `Failure.Panic`.

Conversions whose code is not part of this model are passed in as function
parameters. These are:

- `ObjectType::try_from(&str)`;
- `SecurityDescriptor::try_from`;
- the Person/Group/Computer and bodyfile conversions;
- the FILETIME wrappers' `from`;
- the u32 decoder;
- the regular-expression matcher.

Points where the code's behaviour is not what its declarations or the SID
format suggest. The model follows the code in each case:

- **Unused error variants.** `src/ntds/error.rs:26` and `:29` declare
  `MissingSchemaRecord` and `SchemaRecordHasNoChildren`, but no code path in
  the modelled files returns either of them.
  - The only use of `SchemaRecordHasNoChildren` is a "schema record has no
    children" check in `src/ntds/data_table.rs:70-76`, and that check is
    commented out. A schema record without children therefore yields an empty
    type map, and a requested type that no child defines is simply absent from
    the result. See `DataTables.NoChildrenNoTypes`.
  - A missing schema anchor in the older layer is a panic with "no schema
    record found" (`src/data_table_ext.rs:42`), not an error value. See
    `DataTableExt.NoSchemaRow`.
- **SID byte order.** Section 2.4.2.2 of MS-DTYP stores every sub-authority
  little-endian. The code reads the first n−1 sub-authorities little-endian
  (`src/dbrecord.rs:72-74`) and the last one big-endian
  (`src/dbrecord.rs:75`), and the model does the same.
  `DbRecords.SidStandardLayoutLastSwapped` and
  `DbRecords.SidStandardLayoutExample` show the effect on a blob in the
  standard layout: S-1-5-32-544 is printed as S-1-5-32-537001984.

## Model

| member | source | states |
|---|---|---|
| Bytes.U32ToLe | src/dbrecord.rs:73 | the four little-endian bytes of n read back as n (the encoder the sub-authority reader inverts) |
| Bytes.U32ToBe | src/dbrecord.rs:75 | the four big-endian bytes of n read back as n |
| Bytes.U48ToBe | src/dbrecord.rs:67 | the six big-endian bytes of a 48-bit authority read back as it |
| TextFormat.NatToDecimal | src/dbrecord.rs:79 | `{n}` formatting: non-empty, digits only, no leading zero |
| TextFormat.DecimalRoundTrip | src/dbrecord.rs:79 | the decimal text of n reads back as n |
| TextFormat.HexEncode | src/dbrecord.rs:45 | `hex::encode`: two characters per byte, all in [0-9a-f] |
| TextFormat.HexRoundTrip | src/dbrecord.rs:45 | the hex text of a byte string decodes back to it |
| TextFormat.SplitJoin | src/dbrecord.rs:77-79 | joining dash-free parts with "-" and splitting again gives the parts back |
| DbRecords.CellValue | src/dbrecord.rs:13 | a cell read succeeds exactly when the record has the column, and yields that cell; otherwise it fails with the unreadable-column error |
| DbRecords.I32Getter | src/dbrecord.rs:12-18 | Some(v) exactly for I32(v), None exactly for Null, an invalid-value error naming the field for every other variant, and the unreadable-column error when the column is missing |
| DbRecords.StrGetter | src/dbrecord.rs:26-33 | Text and LargeText both give Some(text), Null gives None, other variants are invalid-value errors, a missing column the unreadable-column error |
| DbRecords.BinGetter | src/dbrecord.rs:41-48 | Binary and LargeBinary give Some(lowercase hex of the bytes), Null gives None, other variants are errors, a missing column the unreadable-column error |
| DbRecords.BinGetterRoundTrip | src/dbrecord.rs:44-46 | the rendered hash has length 2·\|b\|, only [0-9a-f], and decodes back to the stored bytes |
| DbRecords.DateTimeGetter | src/dbrecord.rs:93-103 | Currency(v) gives the 1601 epoch plus v/10 microseconds truncated toward zero, Null gives None, other variants are errors, a missing column the unreadable-column error |
| DbRecords.DateTimeGetterEpoch | src/dbrecord.rs:97-102 | Currency(0) decodes to the epoch itself, Null to None and never to the epoch |
| DbRecords.DecodeSid | src/dbrecord.rs:64-81 | the cursor loop (n−1 little-endian reads, then one big-endian read) computes exactly the SID string the byte layout defines, including every end-of-data failure |
| DbRecords.SidGetter | src/dbrecord.rs:59-85 | the SID getter returns the decoded string for Binary/LargeBinary, None for Null, the unreadable-column error for a missing column, an error otherwise |
| DbRecords.SidGetterOf | src/dbrecord.rs:59-85 | None exactly for Null; a string only for the binary variants, and then the SID string of the bytes |
| DbRecords.SidStringShape | src/dbrecord.rs:64-81 | for count n ≥ 1 and at least 8+4n bytes: "S-" + revision + "-" + authority (bytes 2..8 big-endian, below 2^48, in decimal) + "-" + exactly n decimal sub-authorities joined by "-" |
| DbRecords.SidTruncation | src/dbrecord.rs:64-75 | decoding succeeds iff there are 8 header bytes, a count n ≥ 1 and 8+4n bytes; a shorter blob fails with end-of-data, never a partial string |
| DbRecords.SidIgnoresTrailingBytes | src/dbrecord.rs:64-75 | bytes beyond 8+4n do not change the result |
| DbRecords.SidHeader | src/dbrecord.rs:65-67 | revision, count and the big-endian 48-bit authority are read from bytes 0, 1 and 2..8 |
| DbRecords.SidBytesRoundTrip | src/dbrecord.rs:72-75 | a blob with the first n−1 sub-authorities little-endian and the last big-endian decodes to exactly the encoded SID |
| DbRecords.SidStandardLayoutLastSwapped | src/dbrecord.rs:72-75 | on an all-little-endian blob (MS-DTYP layout) every sub-authority but the last is right and the last comes out byte-swapped |
| DbRecords.SidStandardLayoutExample | src/dbrecord.rs:72-75 | the standard bytes of S-1-5-32-544 print as S-1-5-32-537001984 |
| DbRecords.ParseNumbersOfDecimals | src/dbrecord.rs:77-79 | the decimal texts of the sub-authorities read back as the sub-authorities |
| DbRecords.FormatSidParses | src/dbrecord.rs:77-81 | the printed SID string parses back to the SID |
| DbRecords.SidRoundTrip | src/dbrecord.rs:64-81 | encoding a SID in the decoder's layout, decoding and parsing the string gives the SID back |
| DbRecords.SidStartsWithS | src/dbrecord.rs:81 | every decoded SID string starts with "S-" |
| DbRecords.Get | src/dbrecord.rs:122-155 | each named getter reads its mapped column with its own kind of decoder. A missing column gives the read error, and a variant the kind does not accept gives an invalid-value error naming the field. I32 gives the integer, Text/LargeText the text, Binary/LargeBinary the lowercase hex (hash getters) or the SID string or SID error (SID getters), Currency the converted time. None exactly for Null; the two raw getters return the cell as is |
| Timestamps.BaseDateTimeTimestamp | src/win32_types/timestamp/mod.rs:14-21 | the base is 1601-01-01 00:00:00 UTC and its Unix timestamp is −11644473600 |
| Timestamps.TicksToDateTimeBounds | src/dbrecord.rs:97-100 | the tick count maps to the microseconds it truncates to: within one microsecond of ticks/10, toward zero |
| Timestamps.TicksToDateTimeMonotonic | src/dbrecord.rs:97-100 | later tick counts never give earlier times |
| Timestamps.FromValueOpt | src/win32_types/timestamp/mod.rs:32-39 | Currency(v) gives Some(from(v)), Null gives None, every other variant InvalidValueDetected carrying the value's text |
| DataTableRecords.Get | src/ntds/data_table_record.rs:58-60 | the stored cell for an attribute id, unchanged |
| DataTableRecords.GetByIndex | src/ntds/data_table_record.rs:61-63 | the stored cell at a column index, unchanged |
| DataTableRecords.FromValue | src/ntds/data_table_record.rs:28-33 | a required decode: the optional decoder's value, with absent turned into ValueIsMissing |
| DataTableRecords.Attribute | src/ntds/data_table_record.rs:27-34 | a required accessor: ValueIsMissing when the record lacks the attribute id, otherwise the required decode of the cell |
| DataTableRecords.AttributeOpt | src/ntds/data_table_record.rs:35-43 | an `_opt` accessor: ValueIsMissing (not None) when the attribute id is absent, otherwise the optional decode of the cell |
| DataTableRecords.RequiredAndOptional | src/ntds/data_table_record.rs:25-46 | both accessors agree except that a Null cell gives Ok(None) only through `_opt` and ValueIsMissing through the required one |
| DataTableRecords.I32FromValueOpt | src/ntds/data_table_record.rs:49 | the i32 decoder: I32 gives Some, Null gives None, others InvalidValueDetected |
| DataTableRecords.StringFromValueOpt | src/ntds/data_table_record.rs:54-55 | the string decoder: Text and LargeText give Some, Null gives None, others InvalidValueDetected |
| DataTableRecords.AccessorsReadTheirAttribute | src/ntds/data_table_record.rs:48-56 | each accessor depends only on its own attribute: object type id on AttObjectCategory, name on AttCommonName, name2 on AttRdn, link id on AttLinkId (decoded as u32) |
| FirstMatchScan.ScanFrom | src/data_table_ext.rs:59-86 | the drain-the-pending-set loop keeps its invariant: found keys were requested and map to their first row, pending keys have not been seen |
| FirstMatchScan.ScanAllOutcome | src/data_table_ext.rs:59-86 | a completed scan returns only requested keys, each with its first row, and every requested key some row carries |
| FirstMatchScan.ScanFailsOnlyOnFail | src/data_table_ext.rs:59-86 | with no failing row the scan succeeds: requested names that no row carries are absent, not an error |
| FirstMatchScan.ScanStopsEarly | src/data_table_ext.rs:81-83 | once every requested key is found, the rows after that point cannot change the result |
| FirstMatchScan.ScanErrAborts | src/data_table_ext.rs:59-84 | a failing scan reached a failing row first, before every requested key was found, and fails with that row's failure |
| FirstMatchScan.ScanAborts | src/data_table_ext.rs:59-84 | conversely, a first failing row reached before every requested key is found makes the scan fail with its failure |
| FirstMatchScan.FindOneFirst | src/data_table_ext.rs:49-52 | the single-name lookup gives the first row with that name, and None only when no row carries it |
| DataTableExt.FindSchemaRowFinds | src/data_table_ext.rs:31-42 | the search returns the anchor row iff one exists: readable, named exactly "Schema", with every earlier readable row having a readable name other than "Schema" |
| DataTableExt.SchemaRecordIdIsAnchor | src/data_table_ext.rs:30-46 | the schema record id is id iff the anchor row exists and its record id reads as Some(id) |
| DataTableExt.NoSchemaRow | src/data_table_ext.rs:42 | with every readable row named but none "Schema", resolution fails with "no schema record found" |
| DataTableExt.FindTypeRecords | src/data_table_ext.rs:54-87 | the loop that removes names from the pending set, inserts the row and breaks when the set is empty returns exactly the first-match scan of the anchor's children |
| DataTableExt.FindTypeRecord | src/data_table_ext.rs:49-52 | the one-name lookup is the single-key scan |
| DataTableExt.TypeScanFailure | src/data_table_ext.rs:59-84 | `find_type_records` fails iff the first readable row with an unreadable or null parent id, or the first child of the anchor with an unreadable or null name, comes before every requested name has been found; the failure is that row's unwrap panic or name error |
| DataTableExt.TypeRecordsAreFirstChildren | src/data_table_ext.rs:59-86 | every returned name was requested and maps to the first child of the anchor with that name; every requested name some child carries is returned, and the others are silently absent |
| DataTableExt.UnwrapAll | src/data_table_ext.rs:105 | the unwrapped conversion succeeds iff every row converts, giving each row's value in order |
| DataTableExt.UnwrapConcat | src/data_table_ext.rs:143-161 | the flattened unwrapped conversion succeeds iff every row converts |
| DataTableExt.UserRowsSelect | src/data_table_ext.rs:96-104 | a row is converted iff it is readable and its type id reads and equals the Person record's id compared as an Option |
| DataTableExt.ShowUsers | src/data_table_ext.rs:89-112 | errors of the Person lookup and of its record id propagate; with no Person definition the run panics; otherwise the users are the unwrapped conversions of exactly the rows whose type id equals the first Person definition's record id |
| DataTableExt.TypeRecordIds | src/data_table_ext.rs:123-134 | the id→name map succeeds iff every found definition has a readable, present record id; it then has exactly those ids as keys, each mapped to a definition carrying it; otherwise it panics with one of the two `expect` messages |
| DataTableExt.InvertsTypeRecordsUnique | src/data_table_ext.rs:123-134 | when the found definitions have distinct record ids, the inverted id→name map is unique, whatever the visiting order |
| DataTableExt.PersonTimelineRowsSelect | src/data_table_ext.rs:136-160 | a row yields timeline lines iff its type id reads, is non-null and maps to "Person": Computer rows and unknown types yield nothing |
| DataTableExt.ShowTimeline | src/data_table_ext.rs:118-166 | a failing Person/Computer scan is the result; an unreadable or missing record id of a found definition panics; otherwise the result is the unwrapped, flattened lines of the Person rows in table order, under a map that inverts the found definitions' record ids |
| DataTables.FindTypeRecords | src/ntds/data_table.rs:65-95 | the loop over the schema's children that drains the requested types and breaks when none is pending returns exactly the first-match scan; a name read error ends it |
| DataTables.FindTypeRecord | src/ntds/data_table.rs:57-63 | the one-type lookup is the single-key scan |
| DataTables.TypeRecordsAreFirstChildren | src/ntds/data_table.rs:77-92 | every returned type was requested and maps to the first child whose name parses as it; names that are no type are skipped |
| DataTables.NoChildrenNoTypes | src/ntds/data_table.rs:70-76 | a schema without children yields an empty map, not an error |
| DataTables.LookupEntryFinds | src/ntds/data_table.rs:143-146 | lookup by Id finds the first entry with that record id, by Rid the first entry with that RID, and nothing only when none exists |
| DataTables.ValueColumnWidth | src/ntds/data_table.rs:157-162 | the value column is cols−22 wide when the terminal is wider than 22 columns, else 0 |
| DataTables.ShowEntry | src/ntds/data_table.rs:142-172 | no match shows the message and succeeds; a match whose row reads back shows that record, with column widths (20, cols−22 or 0) exactly when the terminal size is known; a row read error is the result |
| DataTables.KeptRecordsSelect | src/ntds/data_table.rs:186-209 | a record is kept iff at least one of its attribute values matches |
| DataTables.SearchEntries | src/ntds/data_table.rs:174-210 | the header starts with DsRecordId, DsParentRecordId, AttCommonName, AttRdn, AttObjectCategory, has no duplicates, contains every column that matched in a kept record, and every added column matched in some kept record; the kept records are the matching ones in table order |
| DataTables.EscapeIsPerChar | src/ntds/data_table.rs:225-226 | the two replace passes escape each character independently: LF as "\n", CR as "\r" |
| DataTables.EscapeHasNoLineBreaks | src/ntds/data_table.rs:225-226 | no escaped cell contains a raw LF or CR |
| DataTables.EscapeKeepsPlainText | src/ntds/data_table.rs:225-226 | a value without line breaks is printed unchanged |
| DataTables.EscapeConflatesLineFeed | src/ntds/data_table.rs:225 | a line feed and a literal backslash-n print alike |
| DataTables.SearchRow | src/ntds/data_table.rs:218-227 | one cell per header column, "" for a missing attribute, the escaped value otherwise, and no raw LF or CR |
| DataTables.KnownTypes | src/ntds/data_table.rs:312-317 | the collected map sends each supported type's record id to a supported type with that id |
| DataTables.RecordLines | src/ntds/data_table.rs:320-340 | a present, supported type id gets that type's conversion; a null or unknown one the generic conversion; row and type-id read errors propagate |
| DataTables.TimelinePassAppend | src/ntds/data_table.rs:319-346 | a pass over a+b is the pass over a, continued over b only when a completed |
| DataTables.TimelinePassFailure | src/ntds/data_table.rs:325-346 | a pass fails iff some record fails, and then with the first failing record's error |
| DataTables.TimelineTypes | src/ntds/data_table.rs:355-367 | with `show_all_objects` exactly the ids of all type entries, otherwise exactly the supported types' ids |
| DataTables.DeletedRecordsMembers | src/ntds/data_table.rs:378-387 | the second pass covers exactly the children of the deleted-objects container and the records deleted from a container |
| DataTables.SetToSeq | src/ntds/data_table.rs:387-389 | the union is visited with each record once |
| DataTables.ShowTimeline | src/ntds/data_table.rs:349-394 | the output is the first pass over the selected types' entries; with `include_deleted` and no failure, followed by one pass over the deleted union without duplicates, whose failure panics |
| SdTables.DescriptorId | src/ntds/sd_table.rs:22-30 | the id is widened from I16, I32, I64 or Currency with its value kept; any other variant, or no value, ends the run |
| SdTables.DescriptorBlob | src/ntds/sd_table.rs:31-38 | the blob is copied byte for byte from Long, Binary or LargeBinary; anything else ends the run |
| SdTables.WideningKeepsValue | src/ntds/sd_table.rs:23-27 | the same id stored at different widths is the same key |
| SdTables.BuildDescriptorsOk | src/ntds/sd_table.rs:19-42 | the table builds iff every row decodes |
| SdTables.BuildDescriptorsLastWins | src/ntds/sd_table.rs:19-42 | the table has one entry per id some row carries, holding the blob of the last row with that id |
| SdTables.Descriptor | src/ntds/sd_table.rs:46-60 | None iff the id is not in the table, otherwise the parser's result on the blob, errors passed through unchanged |
| SdTables.DescriptorOfRows | src/ntds/sd_table.rs:46-52 | looking an id up in a built table parses the last matching row's blob, and finds nothing for an id no row carries |

## Left out

- Reading the database: the libesedb row stream and column-info mapping, and
  `cache::DataTable` with its metadata indices. Rows are a sequence in table
  order, with `None` for a row the reader fails to deliver. Each index query
  is a filter over the index entries in table order. Failure of
  `iter_records()` itself is not modelled.
- `children_of`: it is taken to yield the record of every child entry whose
  row reads back. `metadata()[ptr]` is taken to point at the pointer's own row.
- The `crate::value` decoders for i32 and String: this code is not part of the
  model. They are assumed to accept the same variants as the older getters,
  and `from_value` is assumed to be `from_value_opt` with absent turned into
  ValueIsMissing.
- `att_object_name2` and `att_object_type_id_opt`, which `src/ntds/data_table.rs`
  calls, are taken to be the `ds_object_name2` and `ds_object_type_id_opt`
  accessors.
- Output is left out: CSV, JSON and JSON-lines writing, `println!`, `term_table`
  rendering, progress bars and logging. This includes the base64 log of a
  descriptor that fails to parse.
  - A pass's printed lines are modelled as the returned sequence. Output
    written before a failure or panic is only modelled by
    `DataTables.TimelinePass`. Elsewhere a failing run returns only the error.
- The regular-expression engine: matching is a predicate parameter, and the
  header's attribute names are shown as their ids. The compile error that
  `search_entries` returns for an invalid pattern is not modelled.
- The terminal: `termsize::get` is a parameter.
- chrono: datetimes are integer microseconds since 1601. RFC 3339 formatting,
  deserialisation and the overflow panic of adding a duration are not modelled.
- HashMap and HashSet iteration order: it is left open. This affects:
  - the growth order of the search header;
  - the order in which the id→type maps are collected;
  - the order of the deleted records.

  The methods choose it with `:|`, and the contracts hold for every order.
- DataTables.ShowTimeline: the lines of each pass are a function of the
  records. Effects of the conversions other than their result are not
  modelled.
- `show_users`/`show_groups`/`show_computers` of the newer layer
  (`show_typed_objects`) are not modelled: their selection is one metadata
  lookup (`entries_of_type`) whose index is not shown, and the rest is output.
  Also not modelled: `show_type_names`, `show_tree`, `show_computers` of the
  older layer (a `todo!()`), the link table and the object tree.
- `src/main.rs` is not modelled: argument parsing, logger setup, the
  file-existence check and `process::exit`. Its call of `show_timeline` does not
  match the signature in `src/ntds/data_table.rs:349`, and the model follows
  the latter.
- Panic messages that embed a value's debug text use a fixed text. A SID count
  byte of 0 underflows `number_of_dashes - 1`; it is modelled as the
  overflow panic of a debug build, checked after the 8 header bytes are read.
- Error payloads that wrap foreign errors (`std::io::Error`, `uuid::Error`,
  `sddl::Error`, `TryFromIntError`) are carried as text.
- `InvalidValueDetected` has two fields in `src/ntds/error.rs` but is built
  with one in `src/win32_types/timestamp/mod.rs:38`. The single-text form is
  used.
