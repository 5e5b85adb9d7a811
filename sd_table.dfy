/**
 * The security-descriptor side table: every row pairs a descriptor id with
 * the descriptor's bytes; objects refer to their descriptor by that id.
 */
module SdTables {
  import opened Wrappers
  import opened Bytes
  import opened Values
  import opened Errors

  /** The id and value cells of one row; None when the reader yields no value for the column. */
  datatype SdRow = SdRow(sdId: Option<Value>, sdValue: Option<Value>)

  /** The id cell widened to 64 bits; any other storage kind, or no value, ends the run. */
  function DescriptorId(cell: Option<Value>): (r: Result<i64, Failure>)
    ensures r.Ok? <==> cell.Some? && (cell.value.I16? || cell.value.I32? || cell.value.I64? || cell.value.Currency?)
    ensures r.Ok? ==> (
      || (cell.value.I16? && r.value == cell.value.s as int)
      || (cell.value.I32? && r.value == cell.value.i as int)
      || (cell.value.I64? && r.value == cell.value.l)
      || (cell.value.Currency? && r.value == cell.value.c))
  {
    match cell
    case None => Err(Panic("called `Option::unwrap()` on a `None` value"))
    case Some(v) =>
      match v
      case I16(x) => Ok(x as i64)
      case I32(x) => Ok(x as i64)
      case I64(x) => Ok(x)
      case Currency(x) => Ok(x)
      case _ => Err(Panic("not implemented: no support for " + ValueText(v) + " as sd_id"))
  }

  /** The value cell's bytes, copied unchanged from any of the three binary storage kinds. */
  function DescriptorBlob(cell: Option<Value>): (r: Result<seq<u8>, Failure>)
    ensures r.Ok? <==> cell.Some? && (cell.value.Long? || cell.value.Binary? || cell.value.LargeBinary?)
    ensures r.Ok? ==> (
      || (cell.value.Long? && r.value == cell.value.long)
      || (cell.value.Binary? && r.value == cell.value.bin)
      || (cell.value.LargeBinary? && r.value == cell.value.largeBin))
  {
    match cell
    case None => Err(Panic("called `Option::unwrap()` on a `None` value"))
    case Some(v) =>
      match v
      case Long(b) => Ok(b)
      case Binary(b) => Ok(b)
      case LargeBinary(b) => Ok(b)
      case _ => Err(Panic("not implemented: no support for " + ValueText(v) + " as sd_value"))
  }

  /** Equal ids of different storage widths are the same key. */
  lemma WideningKeepsValue(x: i16)
    ensures DescriptorId(Some(I16(x))) == DescriptorId(Some(I32(x as i32))) == DescriptorId(Some(I64(x as i64)))
    ensures DescriptorId(Some(Currency(x as i64))) == Ok(x as i64)
  {
  }

  function RowEntry(row: SdRow): Result<(i64, seq<u8>), Failure> {
    var id :- DescriptorId(row.sdId);
    var blob :- DescriptorBlob(row.sdValue);
    Ok((id, blob))
  }

  /** `SdTable::new`: the rows, in order, collected into a map; the first row that does not decode ends the run. */
  function BuildDescriptors(rows: seq<SdRow>): Result<map<i64, seq<u8>>, Failure> {
    if rows == [] then Ok(map[])
    else
      var descriptors :- BuildDescriptors(rows[..|rows| - 1]);
      var entry :- RowEntry(rows[|rows| - 1]);
      Ok(descriptors[entry.0 := entry.1])
  }

  /** Row i decodes and carries descriptor id `id`. */
  predicate HasId(rows: seq<SdRow>, i: int, id: i64) {
    0 <= i < |rows| && RowEntry(rows[i]).Ok? && RowEntry(rows[i]).value.0 == id
  }

  /** Row i is the last row carrying descriptor id `id`. */
  predicate LastRowWithId(rows: seq<SdRow>, i: int, id: i64) {
    HasId(rows, i, id) && forall j :: i < j < |rows| ==> !HasId(rows, j, id)
  }

  /** The table builds exactly when every row decodes. */
  lemma {:induction false} BuildDescriptorsOk(rows: seq<SdRow>)
    ensures BuildDescriptors(rows).Ok? <==> forall i :: 0 <= i < |rows| ==> RowEntry(rows[i]).Ok?
  {
    if rows != [] {
      var n := |rows| - 1;
      BuildDescriptorsOk(rows[..n]);
      assert forall i :: 0 <= i < n ==> rows[..n][i] == rows[i];
    }
  }

  /**
   * A built table holds one entry per distinct id, and the entry for an id
   * is the blob of the last row carrying it.
   */
  lemma {:induction false} BuildDescriptorsLastWins(rows: seq<SdRow>)
    requires BuildDescriptors(rows).Ok?
    ensures var m := BuildDescriptors(rows).value;
      && (forall id :: id in m <==> exists i :: HasId(rows, i, id))
      && (forall id :: id in m ==> exists i :: LastRowWithId(rows, i, id) && m[id] == RowEntry(rows[i]).value.1)
  {
    if rows != [] {
      var n := |rows| - 1;
      var init := rows[..n];
      BuildDescriptorsLastWins(init);
      var m := BuildDescriptors(rows).value;
      var m0 := BuildDescriptors(init).value;
      var entry := RowEntry(rows[n]).value;
      assert m == m0[entry.0 := entry.1];
      assert forall i, id :: 0 <= i < n ==> (HasId(init, i, id) <==> HasId(rows, i, id));
      forall id | id in m
        ensures exists i :: LastRowWithId(rows, i, id) && m[id] == RowEntry(rows[i]).value.1
      {
        if id == entry.0 {
          assert LastRowWithId(rows, n, id);
        } else {
          var i :| LastRowWithId(init, i, id) && m0[id] == RowEntry(init[i]).value.1;
          assert LastRowWithId(rows, i, id);
        }
      }
      forall id | exists i :: HasId(rows, i, id)
        ensures id in m
      {
        var i :| HasId(rows, i, id);
        if i < n { assert HasId(init, i, id); }
      }
    }
  }

  /** `descriptor`: look the id up and parse its blob; the parser's error is passed through unchanged. */
  function Descriptor<D>(descriptors: map<i64, seq<u8>>, id: i64, parse: seq<u8> -> Result<D, Error>): (r: Option<Result<D, Error>>)
    ensures r.None? <==> id !in descriptors
    ensures r.Some? ==> r.value == parse(descriptors[id])
  {
    if id in descriptors then Some(parse(descriptors[id])) else None
  }

  /** Looking up an id in a built table parses the blob of the last row with that id, and finds nothing for an id no row carries. */
  lemma DescriptorOfRows<D>(rows: seq<SdRow>, id: i64, parse: seq<u8> -> Result<D, Error>)
    requires BuildDescriptors(rows).Ok?
    ensures var r := Descriptor(BuildDescriptors(rows).value, id, parse);
      && (r.None? <==> forall i :: !HasId(rows, i, id))
      && (r.Some? ==> exists i :: LastRowWithId(rows, i, id) && r.value == parse(RowEntry(rows[i]).value.1))
  {
    BuildDescriptorsLastWins(rows);
  }
}
