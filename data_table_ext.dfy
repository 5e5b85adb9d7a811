/**
 * The older data-table layer: locating the schema anchor row, resolving type
 * definitions among its children, and selecting the rows that the user
 * listing and the timeline export convert.
 * The table is a sequence of rows in table order; `None` is a row the reader
 * could not deliver, which every pipeline here skips.
 */
module DataTableExt {
  import opened Wrappers
  import opened Bytes
  import opened Values
  import opened Errors
  import opened DbRecords
  import opened FirstMatchScan

  type Rows = seq<Option<DbRecord>>

  function Name2(rec: DbRecord, mapping: ColumnInfoMapping): Result<Option<string>, Failure> {
    StrGetter(rec, mapping.columnOf(DsObjectName2Index), FieldName(DsObjectName2Index))
  }

  function RecordIdOf(rec: DbRecord, mapping: ColumnInfoMapping): Result<Option<i32>, Failure> {
    I32Getter(rec, mapping.columnOf(DsRecordIdIndex), FieldName(DsRecordIdIndex))
  }

  function ParentIdOf(rec: DbRecord, mapping: ColumnInfoMapping): Result<Option<i32>, Failure> {
    I32Getter(rec, mapping.columnOf(DsParentRecordIdIndex), FieldName(DsParentRecordIdIndex))
  }

  function TypeIdOf(rec: DbRecord, mapping: ColumnInfoMapping): Result<Option<i32>, Failure> {
    I32Getter(rec, mapping.columnOf(DsObjectTypeIdIndex), FieldName(DsObjectTypeIdIndex))
  }

  // ---------------------------------------------------------------------------------
  // The schema anchor

  /** The first readable row from i on whose secondary name is "Schema"; every row examined must have one. */
  function FindSchemaRow(rows: Rows, mapping: ColumnInfoMapping, i: nat): Result<DbRecord, Failure>
    requires i <= |rows|
    decreases |rows| - i
  {
    if i == |rows| then Err(Panic("no schema record found"))
    else if rows[i].None? then FindSchemaRow(rows, mapping, i + 1)
    else
      match Name2(rows[i].value, mapping)
      case Err(_) => Err(Panic("unable to read object_name2 attribute"))
      case Ok(None) => Err(Panic("missing object_name2 attribute"))
      case Ok(Some(name)) => if name == "Schema" then Ok(rows[i].value) else FindSchemaRow(rows, mapping, i + 1)
  }

  /** `get_schema_record_id`. */
  function SchemaRecordId(rows: Rows, mapping: ColumnInfoMapping): Result<i32, Failure> {
    var schemaRecord :- FindSchemaRow(rows, mapping, 0);
    var id :- RecordIdOf(schemaRecord, mapping);
    if id.None? then Err(Panic("Schema record has no record ID")) else Ok(id.value)
  }

  /** A readable row whose secondary name reads and is not "Schema": the search passes over it. */
  predicate PassedOver(row: Option<DbRecord>, mapping: ColumnInfoMapping) {
    row.Some? ==> (var n := Name2(row.value, mapping); n.Ok? && n.value.Some? && n.value.value != "Schema")
  }

  /** Row k is the anchor: readable, named exactly "Schema", and every readable row before it named otherwise. */
  predicate AnchorAt(rows: Rows, mapping: ColumnInfoMapping, k: int) {
    && 0 <= k < |rows|
    && rows[k].Some?
    && Name2(rows[k].value, mapping) == Ok(Some("Schema"))
    && forall j :: 0 <= j < k ==> PassedOver(rows[j], mapping)
  }

  lemma AnchorUnique(rows: Rows, mapping: ColumnInfoMapping, k1: int, k2: int)
    requires AnchorAt(rows, mapping, k1) && AnchorAt(rows, mapping, k2)
    ensures k1 == k2
  {
  }

  lemma {:induction false} FindSchemaRowFinds(rows: Rows, mapping: ColumnInfoMapping, i: nat)
    requires i <= |rows|
    requires forall j :: 0 <= j < i ==> PassedOver(rows[j], mapping)
    ensures FindSchemaRow(rows, mapping, i).Ok? <==> exists k :: i <= k && AnchorAt(rows, mapping, k)
    ensures forall k :: i <= k && AnchorAt(rows, mapping, k) ==> FindSchemaRow(rows, mapping, i) == Ok(rows[k].value)
    decreases |rows| - i
  {
    if i < |rows| {
      var n := if rows[i].Some? then Name2(rows[i].value, mapping) else Ok(None);
      if rows[i].None? || (n.Ok? && n.value.Some? && n.value.value != "Schema") {
        assert PassedOver(rows[i], mapping);
        FindSchemaRowFinds(rows, mapping, i + 1);
        forall k | i <= k && AnchorAt(rows, mapping, k)
          ensures i + 1 <= k
        {
          if k == i { assert false; }
        }
      } else if n == Ok(Some("Schema")) {
        assert AnchorAt(rows, mapping, i);
        forall k | i <= k && AnchorAt(rows, mapping, k)
          ensures k == i
        {
          AnchorUnique(rows, mapping, i, k);
        }
      } else {
        forall k | i <= k && AnchorAt(rows, mapping, k)
          ensures false
        {
          if k > i { assert false; }
        }
      }
    }
  }

  /**
   * The anchor id is the record id of the first readable row named exactly
   * "Schema", provided every readable row before it has a readable secondary
   * name and the anchor has a record id; in every other case resolution fails.
   */
  lemma SchemaRecordIdIsAnchor(rows: Rows, mapping: ColumnInfoMapping, id: i32)
    ensures SchemaRecordId(rows, mapping) == Ok(id) <==>
      exists k :: AnchorAt(rows, mapping, k) && RecordIdOf(rows[k].value, mapping) == Ok(Some(id))
  {
    FindSchemaRowFinds(rows, mapping, 0);
  }

  /** With no row named "Schema" and every readable row named, resolution fails with "no schema record found". */
  lemma {:induction false} NoSchemaRow(rows: Rows, mapping: ColumnInfoMapping, i: nat)
    requires i <= |rows|
    requires forall j :: i <= j < |rows| ==> PassedOver(rows[j], mapping)
    ensures FindSchemaRow(rows, mapping, i) == Err(Panic("no schema record found"))
    decreases |rows| - i
  {
    if i < |rows| {
      assert PassedOver(rows[i], mapping);
      NoSchemaRow(rows, mapping, i + 1);
    }
  }

  // ---------------------------------------------------------------------------------
  // Type definitions: children of the anchor, by secondary name

  /**
   * What one row contributes to `find_type_records`: unreadable rows and rows
   * of another parent are filtered out; the parent id must read and be present
   * (it is unwrapped), and a child's secondary name must read and be present.
   */
  function TypeStep(row: Option<DbRecord>, mapping: ColumnInfoMapping, schemaRecordId: i32): Step<string, DbRecord> {
    if row.None? then Skip
    else
      var rec := row.value;
      match ParentIdOf(rec, mapping)
      case Err(_) => Fail(Panic("called `Result::unwrap()` on an `Err` value"))
      case Ok(None) => Fail(Panic("called `Option::unwrap()` on a `None` value"))
      case Ok(Some(parent)) =>
        if parent != schemaRecordId then Skip
        else
          match Name2(rec, mapping)
          case Err(e) => Fail(e)
          case Ok(None) => Fail(Panic("missing object_name2 attribute"))
          case Ok(Some(name)) => Candidate(Some(name), rec)
  }

  function TypeSteps(rows: Rows, mapping: ColumnInfoMapping, schemaRecordId: i32): (steps: seq<Step<string, DbRecord>>)
    ensures |steps| == |rows|
    ensures forall i :: 0 <= i < |rows| ==> steps[i] == TypeStep(rows[i], mapping, schemaRecordId)
  {
    seq(|rows|, i requires 0 <= i < |rows| => TypeStep(rows[i], mapping, schemaRecordId))
  }

  /** `find_type_records`: one pass over the table that drains the set of requested names. */
  method FindTypeRecords(rows: Rows, mapping: ColumnInfoMapping, schemaRecordId: i32, typeNames: set<string>)
    returns (r: Result<map<string, DbRecord>, Failure>)
    ensures r == ScanAll(TypeSteps(rows, mapping, schemaRecordId), typeNames)
  {
    ghost var steps := TypeSteps(rows, mapping, schemaRecordId);
    var pending := typeNames;
    var typeRecords: map<string, DbRecord> := map[];
    var i := 0;
    while i < |rows|
      invariant i <= |rows|
      invariant ScanAll(steps, typeNames) == Scan(steps, i, pending, typeRecords)
    {
      if rows[i].Some? {
        var dbrecord := rows[i].value;
        var parent := ParentIdOf(dbrecord, mapping);
        if parent.Err? {
          return Err(Panic("called `Result::unwrap()` on an `Err` value"));
        }
        if parent.value.None? {
          return Err(Panic("called `Option::unwrap()` on a `None` value"));
        }
        if parent.value.value == schemaRecordId {
          var name2 :- Name2(dbrecord, mapping);
          if name2.None? {
            return Err(Panic("missing object_name2 attribute"));
          }
          var objectName2 := name2.value;
          if objectName2 in pending {
            pending := pending - {objectName2};
            typeRecords := typeRecords[objectName2 := dbrecord];
          }
          if pending == {} {
            return Ok(typeRecords);
          }
        }
      }
      i := i + 1;
    }
    r := Ok(typeRecords);
  }

  /**
   * Row j is readable and aborts `find_type_records` when reached: its parent
   * id is unreadable or null (both are unwrapped), or it is a child of the
   * anchor whose secondary name is unreadable or null.
   */
  predicate RowFails(rows: Rows, mapping: ColumnInfoMapping, schemaRecordId: i32, j: int) {
    && 0 <= j < |rows| && rows[j].Some?
    && (var parent := ParentIdOf(rows[j].value, mapping);
        || parent.Err? || parent.value.None?
        || (parent.value.value == schemaRecordId && (var name := Name2(rows[j].value, mapping); name.Err? || name.value.None?)))
  }

  /** Row j is a readable row whose parent id reads as the anchor's. */
  predicate ChildOfAnchor(rows: Rows, mapping: ColumnInfoMapping, schemaRecordId: i32, j: int) {
    0 <= j < |rows| && rows[j].Some? && ParentIdOf(rows[j].value, mapping) == Ok(Some(schemaRecordId))
  }

  /**
   * `find_type_records` aborts at row j: the first failing row, reached while
   * some requested name has no child row before it (with nothing requested,
   * before any child of the anchor).
   */
  ghost predicate TypeScanAbortsAt(rows: Rows, mapping: ColumnInfoMapping, schemaRecordId: i32, typeNames: set<string>, j: int) {
    && RowFails(rows, mapping, schemaRecordId, j)
    && (forall j' :: 0 <= j' < j ==> !RowFails(rows, mapping, schemaRecordId, j'))
    && (|| (exists name :: name in typeNames && forall j' :: 0 <= j' < j ==> !ChildNamed(rows, mapping, schemaRecordId, j', name))
        || (forall j' :: 0 <= j' < j ==> !ChildOfAnchor(rows, mapping, schemaRecordId, j')))
  }

  /**
   * `find_type_records` fails exactly when it reaches a failing row before it
   * has found every requested name, and then with that row's failure: rows
   * after the last requested definition are never examined.
   */
  lemma TypeScanFailure(rows: Rows, mapping: ColumnInfoMapping, schemaRecordId: i32, typeNames: set<string>)
    ensures ScanAll(TypeSteps(rows, mapping, schemaRecordId), typeNames).Err? <==>
      exists j :: TypeScanAbortsAt(rows, mapping, schemaRecordId, typeNames, j)
    ensures forall j :: TypeScanAbortsAt(rows, mapping, schemaRecordId, typeNames, j) ==>
      ScanAll(TypeSteps(rows, mapping, schemaRecordId), typeNames) == Err(TypeStep(rows[j], mapping, schemaRecordId).failure)
  {
    var steps := TypeSteps(rows, mapping, schemaRecordId);
    forall j', name | 0 <= j' < |rows|
      ensures IsCandidate(steps, j', name) <==> ChildNamed(rows, mapping, schemaRecordId, j', name)
    {
      CandidateIsChild(rows, mapping, schemaRecordId, j', name);
    }
    forall j' | 0 <= j' < |rows|
      ensures steps[j'].Fail? <==> RowFails(rows, mapping, schemaRecordId, j')
      ensures !steps[j'].Fail? ==> (steps[j'].Skip? <==> !ChildOfAnchor(rows, mapping, schemaRecordId, j'))
    {
    }
    forall j ensures TypeScanAbortsAt(rows, mapping, schemaRecordId, typeNames, j) <==> AbortsAt(steps, 0, typeNames, j) {
      if TypeScanAbortsAt(rows, mapping, schemaRecordId, typeNames, j) || AbortsAt(steps, 0, typeNames, j) {
        assert 0 <= j < |rows|;
        assert (forall j' :: 0 <= j' < j ==> !RowFails(rows, mapping, schemaRecordId, j')) <==>
          (forall j' :: 0 <= j' < j ==> !steps[j'].Fail?);
      }
    }
    if ScanAll(steps, typeNames).Err? {
      ScanErrAborts(steps, 0, typeNames, map[]);
    }
    forall j | TypeScanAbortsAt(rows, mapping, schemaRecordId, typeNames, j)
      ensures ScanAll(steps, typeNames) == Err(steps[j].failure)
    {
      ScanAborts(steps, 0, typeNames, map[], j);
    }
  }

  /** `find_type_record`: the type-definition row for one name, if any. */
  method FindTypeRecord(rows: Rows, mapping: ColumnInfoMapping, schemaRecordId: i32, typeName: string)
    returns (r: Result<Option<DbRecord>, Failure>)
    ensures r == FindOne(TypeSteps(rows, mapping, schemaRecordId), typeName)
  {
    var records :- FindTypeRecords(rows, mapping, schemaRecordId, {typeName});
    r := Ok(if typeName in records then Some(records[typeName]) else None);
  }

  /** Row j is a readable child of the anchor whose secondary name is `name`. */
  predicate ChildNamed(rows: Rows, mapping: ColumnInfoMapping, schemaRecordId: i32, j: int, name: string) {
    && 0 <= j < |rows| && rows[j].Some?
    && ParentIdOf(rows[j].value, mapping) == Ok(Some(schemaRecordId))
    && Name2(rows[j].value, mapping) == Ok(Some(name))
  }

  lemma CandidateIsChild(rows: Rows, mapping: ColumnInfoMapping, schemaRecordId: i32, j: int, name: string)
    ensures IsCandidate(TypeSteps(rows, mapping, schemaRecordId), j, name) <==> ChildNamed(rows, mapping, schemaRecordId, j, name)
  {
  }

  /**
   * Every name `find_type_records` returns was requested, and its row is the
   * first child of the anchor with that secondary name; every requested name
   * that some child carries is returned.
   */
  lemma TypeRecordsAreFirstChildren(rows: Rows, mapping: ColumnInfoMapping, schemaRecordId: i32, typeNames: set<string>)
    requires ScanAll(TypeSteps(rows, mapping, schemaRecordId), typeNames).Ok?
    ensures var m := ScanAll(TypeSteps(rows, mapping, schemaRecordId), typeNames).value;
      && m.Keys <= typeNames
      && (forall name :: name in m ==> exists j ::
            && ChildNamed(rows, mapping, schemaRecordId, j, name)
            && rows[j].value == m[name]
            && forall j' :: 0 <= j' < j ==> !ChildNamed(rows, mapping, schemaRecordId, j', name))
      && (forall name, j :: name in typeNames && ChildNamed(rows, mapping, schemaRecordId, j, name) ==> name in m)
  {
    var steps := TypeSteps(rows, mapping, schemaRecordId);
    var m := ScanAll(steps, typeNames).value;
    ScanAllOutcome(steps, typeNames);
    forall name | name in m
      ensures exists j ::
            && ChildNamed(rows, mapping, schemaRecordId, j, name)
            && rows[j].value == m[name]
            && forall j' :: 0 <= j' < j ==> !ChildNamed(rows, mapping, schemaRecordId, j', name)
    {
      var j :| IsFirstCandidate(steps, j, name) && m[name] == steps[j].item;
      forall j' | 0 <= j' < j ensures !ChildNamed(rows, mapping, schemaRecordId, j', name) {
        CandidateIsChild(rows, mapping, schemaRecordId, j', name);
      }
    }
    forall name, j | name in typeNames && ChildNamed(rows, mapping, schemaRecordId, j, name)
      ensures name in m
    {
      CandidateIsChild(rows, mapping, schemaRecordId, j, name);
    }
  }

  // ---------------------------------------------------------------------------------
  // Conversions that are unwrapped: the first failure ends the run

  /** `.map(|x| f(x).unwrap())`. */
  function UnwrapAll<X, Y>(xs: seq<X>, f: X -> Result<Y, Failure>): (r: Result<seq<Y>, Failure>)
    ensures r.Ok? <==> forall i :: 0 <= i < |xs| ==> f(xs[i]).Ok?
    ensures r.Ok? ==> |r.value| == |xs| && forall i :: 0 <= i < |xs| ==> r.value[i] == f(xs[i]).value
  {
    if xs == [] then Ok([])
    else if f(xs[0]).Err? then Err(Panic("called `Result::unwrap()` on an `Err` value"))
    else
      var rest :- UnwrapAll(xs[1..], f);
      Ok([f(xs[0]).value] + rest)
  }

  /** `.filter_map(|x| Some(f(x).unwrap())).flatten()`: the lines of every row, in row order. */
  function UnwrapConcat<X, L>(xs: seq<X>, f: X -> Result<seq<L>, Failure>): (r: Result<seq<L>, Failure>)
    ensures r.Ok? <==> forall i :: 0 <= i < |xs| ==> f(xs[i]).Ok?
  {
    if xs == [] then Ok([])
    else if f(xs[0]).Err? then Err(Panic("called `Result::unwrap()` on an `Err` value"))
    else
      var rest :- UnwrapConcat(xs[1..], f);
      Ok(f(xs[0]).value + rest)
  }

  // ---------------------------------------------------------------------------------
  // show_users

  /** The rows `show_users` converts: type id reads, and equals the Person record's id as an Option. */
  function UserRows(rows: Rows, mapping: ColumnInfoMapping, typeRecordId: Option<i32>): seq<DbRecord> {
    if rows == [] then []
    else
      var keep := rows[0].Some? && TypeIdOf(rows[0].value, mapping) == Ok(typeRecordId);
      (if keep then [rows[0].value] else []) + UserRows(rows[1..], mapping, typeRecordId)
  }

  /** A row is converted exactly when it is readable and its type id reads as the Person record's id. */
  lemma {:induction false} UserRowsSelect(rows: Rows, mapping: ColumnInfoMapping, typeRecordId: Option<i32>, rec: DbRecord)
    ensures rec in UserRows(rows, mapping, typeRecordId) <==>
      exists j :: 0 <= j < |rows| && rows[j] == Some(rec) && TypeIdOf(rec, mapping) == Ok(typeRecordId)
  {
    if rows != [] {
      UserRowsSelect(rows[1..], mapping, typeRecordId, rec);
      if rec in UserRows(rows[1..], mapping, typeRecordId) {
        var j :| 0 <= j < |rows[1..]| && rows[1..][j] == Some(rec) && TypeIdOf(rec, mapping) == Ok(typeRecordId);
        assert rows[j + 1] == Some(rec);
      }
      if exists j :: 0 <= j < |rows| && rows[j] == Some(rec) && TypeIdOf(rec, mapping) == Ok(typeRecordId) {
        var j :| 0 <= j < |rows| && rows[j] == Some(rec) && TypeIdOf(rec, mapping) == Ok(typeRecordId);
        if j > 0 { assert rows[1..][j - 1] == Some(rec); }
      }
    }
  }

  /** The Person definition `show_users` looks up. */
  function PersonLookup(rows: Rows, mapping: ColumnInfoMapping, schemaRecordId: i32): Result<Option<DbRecord>, Failure> {
    FindOne(TypeSteps(rows, mapping, schemaRecordId), "Person")
  }

  /** `show_users`: find the Person definition (its absence ends the run), then convert every row of its type. */
  method ShowUsers<P>(rows: Rows, mapping: ColumnInfoMapping, schemaRecordId: i32, toPerson: DbRecord -> Result<P, Failure>)
    returns (r: Result<seq<P>, Failure>)
    ensures r.Ok? ==> exists j ::
      && IsFirstCandidate(TypeSteps(rows, mapping, schemaRecordId), j, "Person")
      && RecordIdOf(rows[j].value, mapping).Ok?
      && r == UnwrapAll(UserRows(rows, mapping, RecordIdOf(rows[j].value, mapping).value), toPerson)
    ensures FindOne(TypeSteps(rows, mapping, schemaRecordId), "Person") == Ok(None) ==>
      r == Err(Panic("missing record for type 'Person'"))
    ensures PersonLookup(rows, mapping, schemaRecordId).Err? ==> r == Err(PersonLookup(rows, mapping, schemaRecordId).error)
    ensures (PersonLookup(rows, mapping, schemaRecordId).Ok? && PersonLookup(rows, mapping, schemaRecordId).value.Some? &&
             RecordIdOf(PersonLookup(rows, mapping, schemaRecordId).value.value, mapping).Err?) ==>
        r == Err(RecordIdOf(PersonLookup(rows, mapping, schemaRecordId).value.value, mapping).error)
    ensures (PersonLookup(rows, mapping, schemaRecordId).Ok? && PersonLookup(rows, mapping, schemaRecordId).value.Some? &&
             RecordIdOf(PersonLookup(rows, mapping, schemaRecordId).value.value, mapping).Ok?) ==>
        r == UnwrapAll(UserRows(rows, mapping, RecordIdOf(PersonLookup(rows, mapping, schemaRecordId).value.value, mapping).value), toPerson)
  {
    var typeRecord :- FindTypeRecord(rows, mapping, schemaRecordId, "Person");
    if typeRecord.None? {
      return Err(Panic("missing record for type 'Person'"));
    }
    FindOneFirst(TypeSteps(rows, mapping, schemaRecordId), "Person");
    var typeRecordId :- RecordIdOf(typeRecord.value, mapping);
    r := UnwrapAll(UserRows(rows, mapping, typeRecordId), toPerson);
  }

  // ---------------------------------------------------------------------------------
  // show_timeline

  /** Every found type record has a readable, present record id. */
  predicate AllIdsReadable(typeRecords: map<string, DbRecord>, mapping: ColumnInfoMapping) {
    forall name :: name in typeRecords ==>
      RecordIdOf(typeRecords[name], mapping).Ok? && RecordIdOf(typeRecords[name], mapping).value.Some?
  }

  /**
   * `ids` maps exactly the record ids of the found type records, each to a
   * name whose record has that id (when two records share an id, either
   * name may be kept).
   */
  predicate InvertsTypeRecords(typeRecords: map<string, DbRecord>, mapping: ColumnInfoMapping, ids: map<i32, string>) {
    && (forall id :: id in ids ==> ids[id] in typeRecords && RecordIdOf(typeRecords[ids[id]], mapping) == Ok(Some(id)))
    && (forall name :: name in typeRecords ==>
          RecordIdOf(typeRecords[name], mapping).Ok? && RecordIdOf(typeRecords[name], mapping).value.Some?
          && RecordIdOf(typeRecords[name], mapping).value.value in ids)
  }

  /** With distinct record ids the inverted map is unique. */
  lemma InvertsTypeRecordsUnique(typeRecords: map<string, DbRecord>, mapping: ColumnInfoMapping, ids1: map<i32, string>, ids2: map<i32, string>)
    requires forall n1, n2 :: n1 in typeRecords && n2 in typeRecords && n1 != n2 ==>
      RecordIdOf(typeRecords[n1], mapping) != RecordIdOf(typeRecords[n2], mapping)
    requires InvertsTypeRecords(typeRecords, mapping, ids1) && InvertsTypeRecords(typeRecords, mapping, ids2)
    ensures ids1 == ids2
  {
    forall id | id in ids1 ensures id in ids2 && ids1[id] == ids2[id] {
      var name := ids1[id];
      assert RecordIdOf(typeRecords[name], mapping).value.value in ids2;
    }
    forall id | id in ids2 ensures id in ids1 {
      var name := ids2[id];
      assert RecordIdOf(typeRecords[name], mapping).value.value in ids1;
    }
  }

  /**
   * `.map(|(name, rec)| (record id expected, name)).collect()` over the found
   * type records, visited in an unspecified order; a missing or unreadable
   * record id ends the run.
   */
  method TypeRecordIds(typeRecords: map<string, DbRecord>, mapping: ColumnInfoMapping)
    returns (r: Result<map<i32, string>, Failure>)
    ensures r.Ok? <==> AllIdsReadable(typeRecords, mapping)
    ensures r.Ok? ==> InvertsTypeRecords(typeRecords, mapping, r.value)
    ensures r.Err? ==> r.error == Panic("unable to read record id") || r.error == Panic("missing record id")
  {
    var ids: map<i32, string> := map[];
    var rest := typeRecords.Keys;
    while rest != {}
      invariant rest <= typeRecords.Keys
      invariant forall name :: name in typeRecords && name !in rest ==>
        RecordIdOf(typeRecords[name], mapping).Ok? && RecordIdOf(typeRecords[name], mapping).value.Some?
        && RecordIdOf(typeRecords[name], mapping).value.value in ids
      invariant forall id :: id in ids ==>
        ids[id] in typeRecords && ids[id] !in rest && RecordIdOf(typeRecords[ids[id]], mapping) == Ok(Some(id))
      decreases rest
    {
      var name :| name in rest;
      var id := RecordIdOf(typeRecords[name], mapping);
      if id.Err? {
        return Err(Panic("unable to read record id"));
      }
      if id.value.None? {
        return Err(Panic("missing record id"));
      }
      ids := ids[id.value.value := name];
      rest := rest - {name};
    }
    r := Ok(ids);
  }

  /** The rows the timeline converts: a readable row whose type id reads, is present, and names the Person definition. */
  function PersonTimelineRows(rows: Rows, mapping: ColumnInfoMapping, typeRecordIds: map<i32, string>): seq<DbRecord> {
    if rows == [] then []
    else
      var t := if rows[0].Some? then TypeIdOf(rows[0].value, mapping) else Ok(None);
      var keep := t.Ok? && t.value.Some? && t.value.value in typeRecordIds && typeRecordIds[t.value.value] == "Person";
      (if keep then [rows[0].value] else []) + PersonTimelineRows(rows[1..], mapping, typeRecordIds)
  }

  predicate IsPersonRow(rec: DbRecord, mapping: ColumnInfoMapping, typeRecordIds: map<i32, string>) {
    var t := TypeIdOf(rec, mapping);
    t.Ok? && t.value.Some? && t.value.value in typeRecordIds && typeRecordIds[t.value.value] == "Person"
  }

  /**
   * Exactly the rows of the Person type produce timeline lines: rows with a
   * null, unreadable or unknown type id, and Computer rows, produce nothing.
   */
  lemma {:induction false} PersonTimelineRowsSelect(rows: Rows, mapping: ColumnInfoMapping, typeRecordIds: map<i32, string>, rec: DbRecord)
    ensures rec in PersonTimelineRows(rows, mapping, typeRecordIds) <==>
      exists j :: 0 <= j < |rows| && rows[j] == Some(rec) && IsPersonRow(rec, mapping, typeRecordIds)
  {
    if rows != [] {
      PersonTimelineRowsSelect(rows[1..], mapping, typeRecordIds, rec);
      if rec in PersonTimelineRows(rows[1..], mapping, typeRecordIds) {
        var j :| 0 <= j < |rows[1..]| && rows[1..][j] == Some(rec) && IsPersonRow(rec, mapping, typeRecordIds);
        assert rows[j + 1] == Some(rec);
      }
      if exists j :: 0 <= j < |rows| && rows[j] == Some(rec) && IsPersonRow(rec, mapping, typeRecordIds) {
        var j :| 0 <= j < |rows| && rows[j] == Some(rec) && IsPersonRow(rec, mapping, typeRecordIds);
        if j > 0 { assert rows[1..][j - 1] == Some(rec); }
      }
    }
  }

  /** The Person and Computer definitions `show_timeline` looks up. */
  function TimelineScan(rows: Rows, mapping: ColumnInfoMapping, schemaRecordId: i32): Result<map<string, DbRecord>, Failure> {
    ScanAll(TypeSteps(rows, mapping, schemaRecordId), {"Person", "Computer"})
  }

  /**
   * `show_timeline`: resolve Person and Computer, invert their record ids,
   * then emit the lines of every Person row in table order.
   */
  method ShowTimeline<L>(rows: Rows, mapping: ColumnInfoMapping, schemaRecordId: i32, personLines: DbRecord -> Result<seq<L>, Failure>)
    returns (r: Result<seq<L>, Failure>)
    ensures TimelineScan(rows, mapping, schemaRecordId).Err? ==> r == Err(TimelineScan(rows, mapping, schemaRecordId).error)
    ensures TimelineScan(rows, mapping, schemaRecordId).Ok? && !AllIdsReadable(TimelineScan(rows, mapping, schemaRecordId).value, mapping) ==>
      r == Err(Panic("unable to read record id")) || r == Err(Panic("missing record id"))
    ensures TimelineScan(rows, mapping, schemaRecordId).Ok? && AllIdsReadable(TimelineScan(rows, mapping, schemaRecordId).value, mapping) ==>
      exists typeRecordIds: map<i32, string> ::
        && InvertsTypeRecords(TimelineScan(rows, mapping, schemaRecordId).value, mapping, typeRecordIds)
        && (forall id :: id in typeRecordIds ==> typeRecordIds[id] in {"Person", "Computer"})
        && r == UnwrapConcat(PersonTimelineRows(rows, mapping, typeRecordIds), personLines)
  {
    var typeRecords :- FindTypeRecords(rows, mapping, schemaRecordId, {"Person", "Computer"});
    TypeRecordsAreFirstChildren(rows, mapping, schemaRecordId, {"Person", "Computer"});
    var typeRecordIds :- TypeRecordIds(typeRecords, mapping);
    r := UnwrapConcat(PersonTimelineRows(rows, mapping, typeRecordIds), personLines);
  }
}
