/**
 * The newer data-table layer over the cached table: type-definition lookup
 * among the schema's children, attribute search, single-entry lookup, and the
 * timeline export with its per-type dispatch.
 * The cache's metadata index is represented by its entries in table order;
 * each index query (`children_of`, `entries_of_types`, `entries_with_rid`, …)
 * is the corresponding filter over them.
 */
module DataTables {
  import opened Wrappers
  import opened Bytes
  import opened Values
  import opened Errors
  import opened DataTableRecords
  import opened FirstMatchScan

  datatype ObjectType = Person | Group | Computer

  /** Where a directory object lives: its record id and the row of the underlying table. */
  datatype RecordPointer = RecordPointer(dsRecordId: i32, esedbRow: nat)

  /** One entry of the metadata index the cache builds over the table. */
  datatype MetaEntry = MetaEntry(
    ptr: RecordPointer,
    parentId: i32,
    objectType: Option<i32>,
    rid: Option<u32>,
    deletedFromContainer: bool)

  /** The cached table: its index entries in table order, and the rows that read back as records. */
  datatype CachedTable = CachedTable(entries: seq<MetaEntry>, rows: map<nat, DataTableRecord>)

  /** The schema's type definitions: every type entry, and the entries of the supported types. */
  datatype Schema = Schema(allTypeEntries: set<RecordPointer>, supportedTypeEntries: map<ObjectType, RecordPointer>)

  predicate Distinct<T(==)>(s: seq<T>) {
    forall i, j :: 0 <= i < j < |s| ==> s[i] != s[j]
  }

  /** `data_table_record_from`: reading a row back; a row the table cannot deliver is an I/O error. */
  function RecordFrom(t: CachedTable, row: nat): Result<DataTableRecord, Failure> {
    if row in t.rows then Ok(t.rows[row]) else Err(Ntds(IoError("unable to read row")))
  }

  // ---------------------------------------------------------------------------------
  // Index queries

  /** The entries satisfying p, in table order. */
  function EntriesWhere(entries: seq<MetaEntry>, p: MetaEntry -> bool): (r: seq<MetaEntry>)
    ensures forall e :: e in r <==> e in entries && p(e)
    ensures |r| <= |entries|
  {
    if entries == [] then []
    else (if p(entries[0]) then [entries[0]] else []) + EntriesWhere(entries[1..], p)
  }

  function Pointers(entries: seq<MetaEntry>): (r: seq<RecordPointer>)
    ensures |r| == |entries| && forall i :: 0 <= i < |entries| ==> r[i] == entries[i].ptr
  {
    seq(|entries|, i requires 0 <= i < |entries| => entries[i].ptr)
  }

  /** The records of the given entries whose rows read back, in order. */
  function ReadableRecords(t: CachedTable, entries: seq<MetaEntry>): (r: seq<DataTableRecord>)
    ensures forall rec :: rec in r <==> exists e :: e in entries && e.ptr.esedbRow in t.rows && t.rows[e.ptr.esedbRow] == rec
  {
    if entries == [] then []
    else
      var row := entries[0].ptr.esedbRow;
      (if row in t.rows then [t.rows[row]] else []) + ReadableRecords(t, entries[1..])
  }

  /** `children_of`: the records whose parent is the given object. */
  function ChildrenOf(t: CachedTable, parent: RecordPointer): seq<DataTableRecord> {
    ReadableRecords(t, EntriesWhere(t.entries, (e: MetaEntry) => e.parentId == parent.dsRecordId))
  }

  /** `children_ptr_of`. */
  function ChildrenPtrOf(t: CachedTable, parent: RecordPointer): seq<RecordPointer> {
    Pointers(EntriesWhere(t.entries, (e: MetaEntry) => e.parentId == parent.dsRecordId))
  }

  /** `entries_of_types`: the objects whose type id is one of the given ids. */
  function EntriesOfTypes(t: CachedTable, types: set<i32>): seq<RecordPointer> {
    Pointers(EntriesWhere(t.entries, (e: MetaEntry) => e.objectType.Some? && e.objectType.value in types))
  }

  /** `entries_with_deleted_from_container_guid`. */
  function EntriesWithDeletedFromContainerGuid(t: CachedTable): seq<RecordPointer> {
    Pointers(EntriesWhere(t.entries, (e: MetaEntry) => e.deletedFromContainer))
  }

  /** The first entry satisfying p. */
  function FirstWhere(entries: seq<MetaEntry>, p: MetaEntry -> bool): (r: Option<MetaEntry>)
    ensures r.None? <==> forall e :: e in entries ==> !p(e)
    ensures r.Some? ==> exists j ::
      0 <= j < |entries| && entries[j] == r.value && p(r.value) && forall j' :: 0 <= j' < j ==> !p(entries[j'])
  {
    if entries == [] then None
    else if p(entries[0]) then Some(entries[0])
    else
      var r := FirstWhere(entries[1..], p);
      assert forall j' :: 1 <= j' < |entries| ==> entries[j'] == entries[1..][j' - 1];
      r
  }

  // ---------------------------------------------------------------------------------
  // find_type_records / find_type_record

  /** What one child of the schema contributes: its secondary name must read, and it counts only when that name is a type. */
  function TypeStep(rec: DataTableRecord, parseType: string -> Option<ObjectType>): Step<ObjectType, DataTableRecord> {
    match ObjectName2(rec)
    case Err(e) => Fail(Ntds(e))
    case Ok(name) => Candidate(parseType(name), rec)
  }

  function TypeSteps(children: seq<DataTableRecord>, parseType: string -> Option<ObjectType>): (steps: seq<Step<ObjectType, DataTableRecord>>)
    ensures |steps| == |children|
    ensures forall i :: 0 <= i < |children| ==> steps[i] == TypeStep(children[i], parseType)
  {
    seq(|children|, i requires 0 <= i < |children| => TypeStep(children[i], parseType))
  }

  /** `find_type_records`: one pass over the schema's children that drains the set of requested types. */
  method FindTypeRecords(t: CachedTable, schemaRecord: RecordPointer, types: set<ObjectType>, parseType: string -> Option<ObjectType>)
    returns (r: Result<map<ObjectType, DataTableRecord>, Failure>)
    ensures r == ScanAll(TypeSteps(ChildrenOf(t, schemaRecord), parseType), types)
  {
    var children := ChildrenOf(t, schemaRecord);
    ghost var steps := TypeSteps(children, parseType);
    var pending := types;
    var typeRecords: map<ObjectType, DataTableRecord> := map[];
    var i := 0;
    while i < |children|
      invariant i <= |children|
      invariant ScanAll(steps, types) == Scan(steps, i, pending, typeRecords)
    {
      var dbrecord := children[i];
      var name := ObjectName2(dbrecord);
      if name.Err? {
        return Err(Ntds(name.error));
      }
      var objectType := parseType(name.value);
      if objectType.Some? && objectType.value in pending {
        pending := pending - {objectType.value};
        typeRecords := typeRecords[objectType.value := dbrecord];
      }
      if pending == {} {
        return Ok(typeRecords);
      }
      i := i + 1;
    }
    r := Ok(typeRecords);
  }

  /** `find_type_record`. */
  method FindTypeRecord(t: CachedTable, schemaRecord: RecordPointer, objectType: ObjectType, parseType: string -> Option<ObjectType>)
    returns (r: Result<Option<DataTableRecord>, Failure>)
    ensures r == FindOne(TypeSteps(ChildrenOf(t, schemaRecord), parseType), objectType)
  {
    var records :- FindTypeRecords(t, schemaRecord, {objectType}, parseType);
    r := Ok(if objectType in records then Some(records[objectType]) else None);
  }

  /** Child j of the schema carries a secondary name that parses as type ot. */
  predicate DefinesType(children: seq<DataTableRecord>, parseType: string -> Option<ObjectType>, j: int, ot: ObjectType) {
    0 <= j < |children| && ObjectName2(children[j]).Ok? && parseType(ObjectName2(children[j]).value) == Some(ot)
  }

  /**
   * Every type `find_type_records` returns was requested, and its record is
   * the first child of the schema whose name parses as that type; every
   * requested type some child defines is returned.
   */
  lemma TypeRecordsAreFirstChildren(t: CachedTable, schemaRecord: RecordPointer, types: set<ObjectType>, parseType: string -> Option<ObjectType>)
    requires ScanAll(TypeSteps(ChildrenOf(t, schemaRecord), parseType), types).Ok?
    ensures var children := ChildrenOf(t, schemaRecord);
      var m := ScanAll(TypeSteps(children, parseType), types).value;
      && m.Keys <= types
      && (forall ot :: ot in m ==> exists j ::
            && DefinesType(children, parseType, j, ot) && children[j] == m[ot]
            && forall j' :: 0 <= j' < j ==> !DefinesType(children, parseType, j', ot))
      && (forall ot, j :: ot in types && DefinesType(children, parseType, j, ot) ==> ot in m)
  {
    var children := ChildrenOf(t, schemaRecord);
    var steps := TypeSteps(children, parseType);
    var m := ScanAll(steps, types).value;
    ScanAllOutcome(steps, types);
    assert forall j, ot :: IsCandidate(steps, j, ot) <==> DefinesType(children, parseType, j, ot);
  }

  /** With no children under the schema the result is empty rather than an error. */
  lemma NoChildrenNoTypes(t: CachedTable, schemaRecord: RecordPointer, types: set<ObjectType>, parseType: string -> Option<ObjectType>)
    requires ChildrenOf(t, schemaRecord) == []
    ensures ScanAll(TypeSteps(ChildrenOf(t, schemaRecord), parseType), types) == Ok(map[])
  {
  }

  // ---------------------------------------------------------------------------------
  // show_entry

  datatype EntryId = Id(id: i32) | Rid(rid: u32)

  /** The entry a lookup finds: by record id, or the first entry carrying the RID. */
  function LookupEntry(t: CachedTable, entryId: EntryId): Option<MetaEntry> {
    match entryId
    case Id(id) => FirstWhere(t.entries, (e: MetaEntry) => e.ptr.dsRecordId == id)
    case Rid(rid) => FirstWhere(t.entries, (e: MetaEntry) => e.rid == Some(rid))
  }

  /** The attribute column is 20 wide, and the value column takes what remains of the terminal after it and two separators. */
  const AttributeColumnWidth: u16 := 20

  function ValueColumnWidth(cols: u16): (w: u16)
    ensures cols > AttributeColumnWidth + 2 ==> w as int + AttributeColumnWidth as int + 2 == cols as int
    ensures cols <= AttributeColumnWidth + 2 ==> w == 0
  {
    if cols > AttributeColumnWidth + 2 then cols - (AttributeColumnWidth + 2) else 0
  }

  datatype EntryView = NoMatchingObject | EntryTable(record: DataTableRecord, columnWidths: Option<(u16, u16)>)

  /** `show_entry`: what is rendered, given the terminal width when one is known. */
  function ShowEntry(t: CachedTable, entryId: EntryId, terminalCols: Option<u16>): (r: Result<EntryView, Failure>)
    ensures r == Ok(NoMatchingObject) <==> LookupEntry(t, entryId).None?
    ensures r.Ok? && r.value.EntryTable? ==>
      && LookupEntry(t, entryId).Some?
      && RecordFrom(t, LookupEntry(t, entryId).value.ptr.esedbRow) == Ok(r.value.record)
      && (r.value.columnWidths.Some? <==> terminalCols.Some?)
    ensures LookupEntry(t, entryId).Some? && RecordFrom(t, LookupEntry(t, entryId).value.ptr.esedbRow).Ok? ==>
      r == Ok(EntryTable(RecordFrom(t, LookupEntry(t, entryId).value.ptr.esedbRow).value,
        if terminalCols.Some? then Some((AttributeColumnWidth, ValueColumnWidth(terminalCols.value))) else None))
    ensures LookupEntry(t, entryId).Some? && RecordFrom(t, LookupEntry(t, entryId).value.ptr.esedbRow).Err? ==>
      r == Err(RecordFrom(t, LookupEntry(t, entryId).value.ptr.esedbRow).error)
  {
    match LookupEntry(t, entryId)
    case None => Ok(NoMatchingObject)
    case Some(entry) =>
      var record :- RecordFrom(t, entry.ptr.esedbRow);
      Ok(EntryTable(record,
        if terminalCols.Some? then Some((AttributeColumnWidth, ValueColumnWidth(terminalCols.value))) else None))
  }

  /** Lookup by id finds the first entry with that record id; by RID the first entry with that RID; None only when there is none. */
  lemma LookupEntryFinds(t: CachedTable, entryId: EntryId)
    ensures LookupEntry(t, entryId).None? <==> forall e :: e in t.entries ==>
      if entryId.Id? then e.ptr.dsRecordId != entryId.id else e.rid != Some(entryId.rid)
    ensures LookupEntry(t, entryId).Some? ==> exists j ::
      && 0 <= j < |t.entries| && t.entries[j] == LookupEntry(t, entryId).value
      && (if entryId.Id? then t.entries[j].ptr.dsRecordId == entryId.id else t.entries[j].rid == Some(entryId.rid))
      && forall j' :: 0 <= j' < j ==>
           if entryId.Id? then t.entries[j'].ptr.dsRecordId != entryId.id else t.entries[j'].rid != Some(entryId.rid)
  {
  }

  // ---------------------------------------------------------------------------------
  // search_entries

  /** The displayed value of every attribute of one record. */
  type AttributeValues = map<NtdsAttributeId, string>

  /** The columns every search result starts with, in this order. */
  const SearchPrefix: seq<NtdsAttributeId> := [DsRecordId, DsParentRecordId, AttCommonName, AttRdn, AttObjectCategory]

  function MatchingColumns(rec: AttributeValues, isMatch: string -> bool): set<NtdsAttributeId> {
    set id | id in rec && isMatch(rec[id])
  }

  /** The records with at least one matching attribute value, in table order. */
  function KeptRecords(records: seq<AttributeValues>, isMatch: string -> bool): seq<AttributeValues> {
    if records == [] then []
    else
      var last := records[|records| - 1];
      KeptRecords(records[..|records| - 1], isMatch) + (if MatchingColumns(last, isMatch) != {} then [last] else [])
  }

  lemma {:induction false} KeptRecordsSelect(records: seq<AttributeValues>, isMatch: string -> bool, rec: AttributeValues)
    ensures rec in KeptRecords(records, isMatch) <==> rec in records && MatchingColumns(rec, isMatch) != {}
  {
    if records != [] {
      var init := records[..|records| - 1];
      KeptRecordsSelect(init, isMatch, rec);
      assert records == init + [records[|records| - 1]];
    }
  }

  /** `search_entries`: the header columns and the records to print, each row in table order. */
  method SearchEntries(records: seq<AttributeValues>, isMatch: string -> bool)
    returns (header: seq<NtdsAttributeId>, kept: seq<AttributeValues>)
    ensures |header| >= |SearchPrefix| && header[..|SearchPrefix|] == SearchPrefix
    ensures Distinct(header)
    ensures kept == KeptRecords(records, isMatch)
    ensures forall c :: c in header[|SearchPrefix|..] ==> exists rec :: rec in kept && c in MatchingColumns(rec, isMatch)
    ensures forall rec, c :: rec in kept && c in MatchingColumns(rec, isMatch) ==> c in header
  {
    header := SearchPrefix;
    kept := [];
    var i := 0;
    while i < |records|
      invariant i <= |records|
      invariant |header| >= |SearchPrefix| && header[..|SearchPrefix|] == SearchPrefix
      invariant Distinct(header)
      invariant kept == KeptRecords(records[..i], isMatch)
      invariant forall c :: c in header[|SearchPrefix|..] ==> exists rec :: rec in kept && c in MatchingColumns(rec, isMatch)
      invariant forall rec, c :: rec in kept && c in MatchingColumns(rec, isMatch) ==> c in header
    {
      var record := records[i];
      var matching := MatchingColumns(record, isMatch);
      if matching != {} {
        var rest := matching;
        while rest != {}
          invariant rest <= matching
          invariant |header| >= |SearchPrefix| && header[..|SearchPrefix|] == SearchPrefix
          invariant Distinct(header)
          invariant forall c :: c in header[|SearchPrefix|..] ==>
            c in matching || exists rec :: rec in kept && c in MatchingColumns(rec, isMatch)
          invariant forall rec, c :: rec in kept && c in MatchingColumns(rec, isMatch) ==> c in header
          invariant forall c :: c in matching - rest ==> c in header
          decreases rest
        {
          var id :| id in rest;
          if id !in header {
            header := header + [id];
          }
          rest := rest - {id};
        }
        kept := kept + [record];
      }
      assert records[..i + 1][..i] == records[..i];
      i := i + 1;
    }
    assert records[..i] == records;
  }

  /** `str::replace` of one character by a string. */
  function ReplaceChar(s: string, c: char, replacement: string): (r: string)
    ensures c !in replacement ==> c !in r
    ensures forall x :: x in r && x !in replacement ==> x in s && x != c
  {
    if s == [] then []
    else (if s[0] == c then replacement else [s[0]]) + ReplaceChar(s[1..], c, replacement)
  }

  /** A CSV cell: line feeds, then carriage returns, become their backslash spellings. */
  function Escape(s: string): string {
    ReplaceChar(ReplaceChar(s, '\n', "\\n"), '\r', "\\r")
  }

  /** The same escaping stated per character. */
  function EscapeChar(c: char): string {
    if c == '\n' then "\\n" else if c == '\r' then "\\r" else [c]
  }

  function EscapeEach(s: string): string {
    if s == [] then [] else EscapeChar(s[0]) + EscapeEach(s[1..])
  }

  lemma {:induction false} ReplaceCharAppend(a: string, b: string, c: char, replacement: string)
    ensures ReplaceChar(a + b, c, replacement) == ReplaceChar(a, c, replacement) + ReplaceChar(b, c, replacement)
  {
    if a != [] {
      assert (a + b)[1..] == a[1..] + b;
      ReplaceCharAppend(a[1..], b, c, replacement);
    } else {
      assert a + b == b;
    }
  }

  /** The two passes of replacement escape each character independently. */
  lemma {:induction false} EscapeIsPerChar(s: string)
    ensures Escape(s) == EscapeEach(s)
  {
    if s != [] {
      EscapeIsPerChar(s[1..]);
      var first := if s[0] == '\n' then "\\n" else [s[0]];
      assert ReplaceChar(s, '\n', "\\n") == first + ReplaceChar(s[1..], '\n', "\\n");
      ReplaceCharAppend(first, ReplaceChar(s[1..], '\n', "\\n"), '\r', "\\r");
      assert ReplaceChar(first, '\r', "\\r") == EscapeChar(s[0]) by {
        if s[0] == '\n' {
          assert first == ['\\'] + ['n'];
          ReplaceCharAppend(['\\'], ['n'], '\r', "\\r");
        } else {
          assert first == [s[0]] + [];
        }
      }
    }
  }

  /** No escaped cell contains a raw line feed or carriage return. */
  lemma EscapeHasNoLineBreaks(s: string)
    ensures '\n' !in Escape(s) && '\r' !in Escape(s)
  {
  }

  /** A value without line breaks is printed unchanged. */
  lemma {:induction false} EscapeKeepsPlainText(s: string)
    requires '\n' !in s && '\r' !in s
    ensures Escape(s) == s
  {
    EscapeIsPerChar(s);
    EscapeEachKeepsPlainText(s);
  }

  lemma {:induction false} EscapeEachKeepsPlainText(s: string)
    requires '\n' !in s && '\r' !in s
    ensures EscapeEach(s) == s
  {
    if s != [] {
      assert s[0] in s;
      assert forall x :: x in s[1..] ==> x in s;
      EscapeEachKeepsPlainText(s[1..]);
    }
  }

  /** The escaping is not reversible: a line feed and a literal backslash-n print alike. */
  lemma EscapeConflatesLineFeed()
    ensures Escape("\n") == Escape("\\n") == "\\n"
  {
  }

  /** One output row of the search: a cell per header column, empty for an attribute the record lacks. */
  function SearchRow(header: seq<NtdsAttributeId>, rec: AttributeValues): (row: seq<string>)
    ensures |row| == |header|
    ensures forall i :: 0 <= i < |header| ==> '\n' !in row[i] && '\r' !in row[i]
    ensures forall i :: 0 <= i < |header| ==> header[i] !in rec ==> row[i] == ""
    ensures forall i :: 0 <= i < |header| ==> header[i] in rec ==> row[i] == Escape(rec[header[i]])
  {
    forall s: string { EscapeHasNoLineBreaks(s); }
    seq(|header|, i requires 0 <= i < |header| => if header[i] in rec then Escape(rec[header[i]]) else "")
  }

  // ---------------------------------------------------------------------------------
  // show_timeline_for_records / show_timeline

  /** `known_types`: supported type record ids mapped back to their types. */
  predicate InvertsSupported(supported: map<ObjectType, RecordPointer>, known: map<i32, ObjectType>) {
    && (forall ot :: ot in supported ==> supported[ot].dsRecordId in known)
    && (forall id :: id in known ==> known[id] in supported && supported[known[id]].dsRecordId == id)
  }

  /** Collecting the inverted pairs into a map; pairs sharing an id overwrite each other in iteration order. */
  method KnownTypes(supported: map<ObjectType, RecordPointer>) returns (known: map<i32, ObjectType>)
    ensures InvertsSupported(supported, known)
  {
    known := map[];
    var rest := supported.Keys;
    while rest != {}
      invariant rest <= supported.Keys
      invariant forall ot :: ot in supported && ot !in rest ==> supported[ot].dsRecordId in known
      invariant forall id :: id in known ==> known[id] in supported && supported[known[id]].dsRecordId == id
      decreases rest
    {
      var ot :| ot in rest;
      known := known[supported[ot].dsRecordId := ot];
      rest := rest - {ot};
    }
  }

  /**
   * The lines of one record: a type id that reads, is present and is a
   * supported type gets that type's conversion; a null or unknown type id gets
   * the generic conversion.
   */
  function RecordLines<L>(
    t: CachedTable, ptr: RecordPointer, known: map<i32, ObjectType>,
    typed: (DataTableRecord, ObjectType) -> Result<seq<L>, Failure>,
    generic: DataTableRecord -> Result<seq<L>, Failure>): (r: Result<seq<L>, Failure>)
    ensures RecordFrom(t, ptr.esedbRow).Err? ==> r == Err(RecordFrom(t, ptr.esedbRow).error)
    ensures RecordFrom(t, ptr.esedbRow).Ok? ==>
      var rec := RecordFrom(t, ptr.esedbRow).value;
      var typeId := ObjectTypeIdOpt(rec);
      && (typeId.Err? ==> r == Err(Ntds(typeId.error)))
      && (typeId.Ok? && typeId.value.Some? && typeId.value.value in known ==> r == typed(rec, known[typeId.value.value]))
      && (typeId.Ok? && (typeId.value.None? || typeId.value.value !in known) ==> r == generic(rec))
  {
    var record :- RecordFrom(t, ptr.esedbRow);
    var objectType :- match ObjectTypeIdOpt(record) case Ok(v) => Ok(v) case Err(e) => Err(Ntds(e));
    if objectType.Some? && objectType.value in known then typed(record, known[objectType.value])
    else generic(record)
  }

  /** What a pass prints before it stops, and the failure that stopped it, if any. */
  datatype Pass<L> = Pass(lines: seq<L>, failure: Option<Failure>)

  /** `show_timeline_for_records`: print record by record; the first failure ends the pass. */
  function TimelinePass<L>(
    t: CachedTable, ptrs: seq<RecordPointer>, known: map<i32, ObjectType>,
    typed: (DataTableRecord, ObjectType) -> Result<seq<L>, Failure>,
    generic: DataTableRecord -> Result<seq<L>, Failure>): Pass<L>
  {
    if ptrs == [] then Pass([], None)
    else
      match RecordLines(t, ptrs[0], known, typed, generic)
      case Err(e) => Pass([], Some(e))
      case Ok(lines) =>
        var rest := TimelinePass(t, ptrs[1..], known, typed, generic);
        Pass(lines + rest.lines, rest.failure)
  }

  /** A pass over a + b is the pass over a, continued over b only if a completed. */
  lemma {:induction false} TimelinePassAppend<L>(
    t: CachedTable, a: seq<RecordPointer>, b: seq<RecordPointer>, known: map<i32, ObjectType>,
    typed: (DataTableRecord, ObjectType) -> Result<seq<L>, Failure>,
    generic: DataTableRecord -> Result<seq<L>, Failure>)
    ensures var pa := TimelinePass(t, a, known, typed, generic);
      var pb := TimelinePass(t, b, known, typed, generic);
      TimelinePass(t, a + b, known, typed, generic) ==
        if pa.failure.Some? then pa else Pass(pa.lines + pb.lines, pb.failure)
  {
    if a == [] {
      assert a + b == b;
    } else {
      var ab := a + b;
      assert ab[0] == a[0] && ab[1..] == a[1..] + b;
      TimelinePassAppend(t, a[1..], b, known, typed, generic);
      var head := RecordLines(t, a[0], known, typed, generic);
      if head.Ok? {
        var rest := TimelinePass(t, a[1..], known, typed, generic);
        assert TimelinePass(t, a, known, typed, generic) == Pass(head.value + rest.lines, rest.failure);
        assert TimelinePass(t, ab, known, typed, generic) ==
          Pass(head.value + TimelinePass(t, ab[1..], known, typed, generic).lines, TimelinePass(t, ab[1..], known, typed, generic).failure);
      }
    }
  }

  /** A pass fails exactly when some record fails, and then with the first record's failure. */
  lemma {:induction false} TimelinePassFailure<L>(
    t: CachedTable, ptrs: seq<RecordPointer>, known: map<i32, ObjectType>,
    typed: (DataTableRecord, ObjectType) -> Result<seq<L>, Failure>,
    generic: DataTableRecord -> Result<seq<L>, Failure>)
    ensures var p := TimelinePass(t, ptrs, known, typed, generic);
      && (p.failure.None? <==> forall i :: 0 <= i < |ptrs| ==> RecordLines(t, ptrs[i], known, typed, generic).Ok?)
      && (p.failure.Some? ==> exists k ::
            && 0 <= k < |ptrs|
            && RecordLines(t, ptrs[k], known, typed, generic) == Err(p.failure.value)
            && forall i :: 0 <= i < k ==> RecordLines(t, ptrs[i], known, typed, generic).Ok?)
  {
    if ptrs != [] {
      TimelinePassFailure(t, ptrs[1..], known, typed, generic);
      var p := TimelinePass(t, ptrs, known, typed, generic);
      if RecordLines(t, ptrs[0], known, typed, generic).Ok? && p.failure.Some? {
        var k :| 0 <= k < |ptrs[1..]|
            && RecordLines(t, ptrs[1..][k], known, typed, generic) == Err(p.failure.value)
            && forall i :: 0 <= i < k ==> RecordLines(t, ptrs[1..][i], known, typed, generic).Ok?;
        assert RecordLines(t, ptrs[k + 1], known, typed, generic) == Err(p.failure.value);
      }
      if p.failure.None? {
        forall i | 0 <= i < |ptrs| ensures RecordLines(t, ptrs[i], known, typed, generic).Ok? {
          if i > 0 { assert ptrs[i] == ptrs[1..][i - 1]; }
        }
      }
    }
  }

  /** The type ids whose entries the first pass visits. */
  function TimelineTypes(schema: Schema, showAllObjects: bool): (types: set<i32>)
    ensures showAllObjects ==> forall id :: id in types <==> exists p :: p in schema.allTypeEntries && p.dsRecordId == id
    ensures !showAllObjects ==> forall id :: id in types <==> exists ot :: ot in schema.supportedTypeEntries && schema.supportedTypeEntries[ot].dsRecordId == id
  {
    if showAllObjects then set p | p in schema.allTypeEntries :: p.dsRecordId
    else set ot | ot in schema.supportedTypeEntries :: schema.supportedTypeEntries[ot].dsRecordId
  }

  /** The records the second pass visits: children of the deleted-objects container, or marked as deleted from a container. */
  function DeletedRecords(t: CachedTable, deletedObjects: RecordPointer): set<RecordPointer> {
    (set p | p in ChildrenPtrOf(t, deletedObjects)) + (set p | p in EntriesWithDeletedFromContainerGuid(t))
  }

  lemma DeletedRecordsMembers(t: CachedTable, deletedObjects: RecordPointer, p: RecordPointer)
    ensures p in DeletedRecords(t, deletedObjects) <==> exists e ::
      e in t.entries && e.ptr == p && (e.parentId == deletedObjects.dsRecordId || e.deletedFromContainer)
  {
    var children := EntriesWhere(t.entries, (e: MetaEntry) => e.parentId == deletedObjects.dsRecordId);
    var marked := EntriesWhere(t.entries, (e: MetaEntry) => e.deletedFromContainer);
    assert forall q :: q in Pointers(children) <==> exists e :: e in children && e.ptr == q by {
      forall q | q in Pointers(children) ensures exists e :: e in children && e.ptr == q {
        var i :| 0 <= i < |children| && Pointers(children)[i] == q;
        assert children[i] in children;
      }
      forall q | exists e :: e in children && e.ptr == q ensures q in Pointers(children) {
        var e :| e in children && e.ptr == q;
        var i :| 0 <= i < |children| && children[i] == e;
        assert Pointers(children)[i] == q;
      }
    }
    assert forall q :: q in Pointers(marked) <==> exists e :: e in marked && e.ptr == q by {
      forall q | q in Pointers(marked) ensures exists e :: e in marked && e.ptr == q {
        var i :| 0 <= i < |marked| && Pointers(marked)[i] == q;
        assert marked[i] in marked;
      }
      forall q | exists e :: e in marked && e.ptr == q ensures q in Pointers(marked) {
        var e :| e in marked && e.ptr == q;
        var i :| 0 <= i < |marked| && marked[i] == e;
        assert Pointers(marked)[i] == q;
      }
    }
  }

  /** A hash set's iteration: every element once, in an order the model leaves open. */
  method SetToSeq(s: set<RecordPointer>) returns (order: seq<RecordPointer>)
    ensures Distinct(order)
    ensures forall p :: p in order <==> p in s
  {
    order := [];
    var rest := s;
    while rest != {}
      invariant rest <= s
      invariant Distinct(order)
      invariant forall p :: p in order <==> p in s && p !in rest
      decreases rest
    {
      var p :| p in rest;
      order := order + [p];
      rest := rest - {p};
    }
  }

  /** What `show_timeline` prints and returns, for a given known-type map and order of the deleted records. */
  function TimelineOutcome<L>(
    t: CachedTable, schema: Schema, showAllObjects: bool, includeDeleted: bool,
    known: map<i32, ObjectType>, deletedOrder: seq<RecordPointer>,
    typed: (DataTableRecord, ObjectType) -> Result<seq<L>, Failure>,
    generic: DataTableRecord -> Result<seq<L>, Failure>): (seq<L>, Result<(), Failure>)
  {
    var first := TimelinePass(t, EntriesOfTypes(t, TimelineTypes(schema, showAllObjects)), known, typed, generic);
    if first.failure.Some? then (first.lines, Err(first.failure.value))
    else if !includeDeleted then (first.lines, Ok(()))
    else
      var second := TimelinePass(t, deletedOrder, known, typed, generic);
      (first.lines + second.lines,
       if second.failure.Some? then Err(Panic("called `Result::unwrap()` on an `Err` value")) else Ok(()))
  }

  /**
   * `show_timeline`: a pass over the entries of the selected types and, when
   * deleted objects are included, a second pass over the union of the deleted
   * records with each record once; a failure in the second pass is unwrapped.
   */
  method ShowTimeline<L>(
    t: CachedTable, schema: Schema, deletedObjects: RecordPointer, showAllObjects: bool, includeDeleted: bool,
    typed: (DataTableRecord, ObjectType) -> Result<seq<L>, Failure>,
    generic: DataTableRecord -> Result<seq<L>, Failure>)
    returns (lines: seq<L>, r: Result<(), Failure>)
    ensures exists known, deletedOrder ::
      && InvertsSupported(schema.supportedTypeEntries, known)
      && Distinct(deletedOrder)
      && (forall p :: p in deletedOrder <==> p in DeletedRecords(t, deletedObjects))
      && (lines, r) == TimelineOutcome(t, schema, showAllObjects, includeDeleted, known, deletedOrder, typed, generic)
  {
    var known := KnownTypes(schema.supportedTypeEntries);
    var deletedOrder := SetToSeq(DeletedRecords(t, deletedObjects));
    var first := TimelinePass(t, EntriesOfTypes(t, TimelineTypes(schema, showAllObjects)), known, typed, generic);
    if first.failure.Some? {
      lines, r := first.lines, Err(first.failure.value);
    } else if !includeDeleted {
      lines, r := first.lines, Ok(());
    } else {
      var second := TimelinePass(t, deletedOrder, known, typed, generic);
      lines := first.lines + second.lines;
      r := if second.failure.Some? then Err(Panic("called `Result::unwrap()` on an `Err` value")) else Ok(());
    }
    assert (lines, r) == TimelineOutcome(t, schema, showAllObjects, includeDeleted, known, deletedOrder, typed, generic);
  }
}
