/**
 * The typed view on one cached data-table record: required and optional
 * accessors that look an attribute up by its id and decode it.
 */
module DataTableRecords {
  import opened Wrappers
  import opened Bytes
  import opened Values
  import opened Errors
  import opened Timestamps

  /** Directory attribute ids; `Named` stands for every id the accessors below do not use. */
  datatype NtdsAttributeId =
    | DsRecordId | DsParentRecordId | DsRecordTime | DsAncestors
    | AttObjectCategory | AttCommonName | AttRdn | AttLinkId
    | Named(name: string)

  /** One cached record: its cells by attribute id and by column index. */
  datatype DataTableRecord = DataTableRecord(byId: map<NtdsAttributeId, Value>, byIndex: map<int, Value>)

  /** `get`: the stored cell for an attribute id, undecoded. */
  function Get(rec: DataTableRecord, id: NtdsAttributeId): (r: Option<Value>)
    ensures r.Some? <==> id in rec.byId
    ensures r.Some? ==> r.value == rec.byId[id]
  {
    if id in rec.byId then Some(rec.byId[id]) else None
  }

  /** `get_by_index`: the stored cell at a column index, undecoded. */
  function GetByIndex(rec: DataTableRecord, index: int): (r: Option<Value>)
    ensures r.Some? <==> index in rec.byIndex
    ensures r.Some? ==> r.value == rec.byIndex[index]
  {
    if index in rec.byIndex then Some(rec.byIndex[index]) else None
  }

  /** `from_value`: like `from_value_opt`, but an absent (null) value is `ValueIsMissing`. */
  function FromValue<T>(fromValueOpt: Value -> Result<Option<T>, Error>, v: Value): (r: Result<T, Error>)
    ensures r.Ok? <==> fromValueOpt(v).Ok? && fromValueOpt(v).value.Some?
    ensures r.Ok? ==> r.value == fromValueOpt(v).value.value
    ensures fromValueOpt(v) == Ok(None) ==> r == Err(ValueIsMissing)
  {
    var o :- fromValueOpt(v);
    if o.Some? then Ok(o.value) else Err(ValueIsMissing)
  }

  /** The required accessor generated for an attribute. */
  function Attribute<T>(rec: DataTableRecord, id: NtdsAttributeId, fromValueOpt: Value -> Result<Option<T>, Error>): (r: Result<T, Error>)
    ensures id !in rec.byId ==> r == Err(ValueIsMissing)
    ensures id in rec.byId ==> r == FromValue(fromValueOpt, rec.byId[id])
  {
    var v :- Get(rec, id).OkOr(ValueIsMissing);
    FromValue(fromValueOpt, v)
  }

  /** The `_opt` accessor generated for an attribute: a missing attribute id is still an error, not None. */
  function AttributeOpt<T>(rec: DataTableRecord, id: NtdsAttributeId, fromValueOpt: Value -> Result<Option<T>, Error>): (r: Result<Option<T>, Error>)
    ensures id !in rec.byId ==> r == Err(ValueIsMissing)
    ensures id in rec.byId ==> r == fromValueOpt(rec.byId[id])
  {
    var v :- Get(rec, id).OkOr(ValueIsMissing);
    fromValueOpt(v)
  }

  /**
   * The two accessors agree wherever the required one succeeds; a null cell is
   * Ok(None) for the `_opt` accessor and `ValueIsMissing` for the required one.
   */
  lemma RequiredAndOptional<T>(rec: DataTableRecord, id: NtdsAttributeId, fromValueOpt: Value -> Result<Option<T>, Error>)
    ensures forall x :: Attribute(rec, id, fromValueOpt) == Ok(x) <==> AttributeOpt(rec, id, fromValueOpt) == Ok(Some(x))
    ensures AttributeOpt(rec, id, fromValueOpt) == Ok(None) ==> Attribute(rec, id, fromValueOpt) == Err(ValueIsMissing)
    ensures AttributeOpt(rec, id, fromValueOpt).Err? ==> Attribute(rec, id, fromValueOpt) == AttributeOpt(rec, id, fromValueOpt).PropagateFailure()
  {
  }

  /** i32 cells: `I32` is decoded, null is absent, anything else is an invalid value. */
  function I32FromValueOpt(v: Value): (r: Result<Option<i32>, Error>)
    ensures r == Ok(None) <==> v.Null?
    ensures r.Ok? && r.value.Some? <==> v.I32?
    ensures v.I32? ==> r == Ok(Some(v.i))
    ensures r.Err? ==> r.error == InvalidValueDetected(ValueText(v))
  {
    match v
    case I32(i) => Ok(Some(i))
    case Null => Ok(None)
    case _ => Err(InvalidValueDetected(ValueText(v)))
  }

  /** String cells: short and large text alike. */
  function StringFromValueOpt(v: Value): (r: Result<Option<string>, Error>)
    ensures r == Ok(None) <==> v.Null?
    ensures r.Ok? && r.value.Some? <==> v.Text? || v.LargeText?
    ensures v.Text? ==> r == Ok(Some(v.text))
    ensures v.LargeText? ==> r == Ok(Some(v.largeText))
    ensures r.Err? ==> r.error == InvalidValueDetected(ValueText(v))
  {
    match v
    case Text(s) => Ok(Some(s))
    case LargeText(s) => Ok(Some(s))
    case Null => Ok(None)
    case _ => Err(InvalidValueDetected(ValueText(v)))
  }

  // The fixed accessor table. u32 and timestamp decoding is not part of this
  // model, so those two accessors take the decoding as a parameter.

  function RecordId(rec: DataTableRecord): Result<i32, Error> { Attribute(rec, DsRecordId, I32FromValueOpt) }
  function RecordIdOpt(rec: DataTableRecord): Result<Option<i32>, Error> { AttributeOpt(rec, DsRecordId, I32FromValueOpt) }
  function ParentRecordId(rec: DataTableRecord): Result<i32, Error> { Attribute(rec, DsParentRecordId, I32FromValueOpt) }
  function ParentRecordIdOpt(rec: DataTableRecord): Result<Option<i32>, Error> { AttributeOpt(rec, DsParentRecordId, I32FromValueOpt) }
  function RecordTime(rec: DataTableRecord, from: i64 -> UtcDateTime): Result<UtcDateTime, Error> {
    Attribute(rec, DsRecordTime, (v: Value) => FromValueOpt(v, from))
  }
  function RecordTimeOpt(rec: DataTableRecord, from: i64 -> UtcDateTime): Result<Option<UtcDateTime>, Error> {
    AttributeOpt(rec, DsRecordTime, (v: Value) => FromValueOpt(v, from))
  }
  function Ancestors(rec: DataTableRecord): Result<i32, Error> { Attribute(rec, DsAncestors, I32FromValueOpt) }
  function AncestorsOpt(rec: DataTableRecord): Result<Option<i32>, Error> { AttributeOpt(rec, DsAncestors, I32FromValueOpt) }
  function ObjectTypeId(rec: DataTableRecord): Result<i32, Error> { Attribute(rec, AttObjectCategory, I32FromValueOpt) }
  function ObjectTypeIdOpt(rec: DataTableRecord): Result<Option<i32>, Error> { AttributeOpt(rec, AttObjectCategory, I32FromValueOpt) }
  function ObjectName(rec: DataTableRecord): Result<string, Error> { Attribute(rec, AttCommonName, StringFromValueOpt) }
  function ObjectNameOpt(rec: DataTableRecord): Result<Option<string>, Error> { AttributeOpt(rec, AttCommonName, StringFromValueOpt) }
  function ObjectName2(rec: DataTableRecord): Result<string, Error> { Attribute(rec, AttRdn, StringFromValueOpt) }
  function ObjectName2Opt(rec: DataTableRecord): Result<Option<string>, Error> { AttributeOpt(rec, AttRdn, StringFromValueOpt) }
  function LinkId(rec: DataTableRecord, u32FromValueOpt: Value -> Result<Option<u32>, Error>): Result<u32, Error> {
    Attribute(rec, AttLinkId, u32FromValueOpt)
  }
  function LinkIdOpt(rec: DataTableRecord, u32FromValueOpt: Value -> Result<Option<u32>, Error>): Result<Option<u32>, Error> {
    AttributeOpt(rec, AttLinkId, u32FromValueOpt)
  }

  /**
   * Each accessor reads exactly its own attribute: two records that agree on
   * that attribute give the same result, whatever else they hold.
   */
  lemma AccessorsReadTheirAttribute(a: DataTableRecord, b: DataTableRecord, from: i64 -> UtcDateTime,
                                    u32FromValueOpt: Value -> Result<Option<u32>, Error>)
    ensures Get(a, DsRecordId) == Get(b, DsRecordId) ==> RecordId(a) == RecordId(b) && RecordIdOpt(a) == RecordIdOpt(b)
    ensures Get(a, DsParentRecordId) == Get(b, DsParentRecordId) ==>
      ParentRecordId(a) == ParentRecordId(b) && ParentRecordIdOpt(a) == ParentRecordIdOpt(b)
    ensures Get(a, DsRecordTime) == Get(b, DsRecordTime) ==>
      RecordTime(a, from) == RecordTime(b, from) && RecordTimeOpt(a, from) == RecordTimeOpt(b, from)
    ensures Get(a, DsAncestors) == Get(b, DsAncestors) ==> Ancestors(a) == Ancestors(b) && AncestorsOpt(a) == AncestorsOpt(b)
    ensures Get(a, AttObjectCategory) == Get(b, AttObjectCategory) ==>
      ObjectTypeId(a) == ObjectTypeId(b) && ObjectTypeIdOpt(a) == ObjectTypeIdOpt(b)
    ensures Get(a, AttCommonName) == Get(b, AttCommonName) ==> ObjectName(a) == ObjectName(b) && ObjectNameOpt(a) == ObjectNameOpt(b)
    ensures Get(a, AttRdn) == Get(b, AttRdn) ==> ObjectName2(a) == ObjectName2(b) && ObjectName2Opt(a) == ObjectName2Opt(b)
    ensures Get(a, AttLinkId) == Get(b, AttLinkId) ==>
      LinkId(a, u32FromValueOpt) == LinkId(b, u32FromValueOpt) && LinkIdOpt(a, u32FromValueOpt) == LinkIdOpt(b, u32FromValueOpt)
  {
  }
}
