/**
 * The typed getters of a raw data-table row: 32-bit integers, text, binary
 * hashes rendered as hex, security identifiers and FILETIME timestamps, each
 * reading one column whose id the column mapping supplies.
 */
module DbRecords {
  import opened Wrappers
  import opened Bytes
  import opened TextFormat
  import opened Values
  import opened Errors
  import opened Timestamps

  type ColumnId = int

  /** One row of the data table: the cells the reader can deliver, by column id. */
  datatype DbRecord = DbRecord(cells: map<ColumnId, Value>)

  /** `inner_record.value(id)`: the cell, or the reader's error for a column it cannot read. */
  function CellValue(rec: DbRecord, col: ColumnId): (r: Result<Value, Failure>)
    ensures r.Ok? <==> col in rec.cells
    ensures r.Ok? ==> r.value == rec.cells[col]
    ensures r.Err? ==> r.error == CellUnreadable(col)
  {
    if col in rec.cells then Ok(rec.cells[col]) else Err(CellUnreadable(col))
  }

  /** The error of a getter that found a variant it does not accept. */
  function Invalid(v: Value, field: string): Failure {
    InvalidValue(ValueText(v), field)
  }

  // ---------------------------------------------------------------------------------
  // The four pure getters

  /** `define_i32_getter!`: accepts `I32` only. */
  function I32Getter(rec: DbRecord, col: ColumnId, field: string): (r: Result<Option<i32>, Failure>)
    ensures col !in rec.cells ==> r == Err(CellUnreadable(col))
    ensures r == Ok(None) <==> CellValue(rec, col) == Ok(Null)
    ensures (r.Ok? && r.value.Some?) <==> (col in rec.cells && rec.cells[col].I32?)
    ensures r.Ok? && r.value.Some? ==> r.value.value == rec.cells[col].i
    ensures col in rec.cells && !rec.cells[col].I32? && !rec.cells[col].Null? ==>
      r == Err(Invalid(rec.cells[col], field))
  {
    var value :- CellValue(rec, col);
    match value
    case I32(v) => Ok(Some(v))
    case Null => Ok(None)
    case _ => Err(Invalid(value, field))
  }

  /** `define_str_getter!`: short and large text are accepted alike. */
  function StrGetter(rec: DbRecord, col: ColumnId, field: string): (r: Result<Option<string>, Failure>)
    ensures col !in rec.cells ==> r == Err(CellUnreadable(col))
    ensures r == Ok(None) <==> CellValue(rec, col) == Ok(Null)
    ensures (r.Ok? && r.value.Some?) <==> (col in rec.cells && (rec.cells[col].Text? || rec.cells[col].LargeText?))
    ensures col in rec.cells && rec.cells[col].Text? ==> r == Ok(Some(rec.cells[col].text))
    ensures col in rec.cells && rec.cells[col].LargeText? ==> r == Ok(Some(rec.cells[col].largeText))
    ensures col in rec.cells && !rec.cells[col].Text? && !rec.cells[col].LargeText? && !rec.cells[col].Null? ==>
      r == Err(Invalid(rec.cells[col], field))
  {
    var value :- CellValue(rec, col);
    match value
    case Text(v) => Ok(Some(v))
    case LargeText(v) => Ok(Some(v))
    case Null => Ok(None)
    case _ => Err(Invalid(value, field))
  }

  /** The bytes of a short or large binary cell. */
  function BinaryBytes(v: Value): seq<u8>
    requires v.Binary? || v.LargeBinary?
  {
    if v.Binary? then v.bin else v.largeBin
  }

  /** `define_bin_getter!`: binary cells rendered as lowercase hex. */
  function BinGetter(rec: DbRecord, col: ColumnId, field: string): (r: Result<Option<string>, Failure>)
    ensures col !in rec.cells ==> r == Err(CellUnreadable(col))
    ensures r == Ok(None) <==> CellValue(rec, col) == Ok(Null)
    ensures (r.Ok? && r.value.Some?) <==> (col in rec.cells && (rec.cells[col].Binary? || rec.cells[col].LargeBinary?))
    ensures r.Ok? && r.value.Some? ==> r.value.value == HexEncode(BinaryBytes(rec.cells[col]))
    ensures col in rec.cells && !rec.cells[col].Binary? && !rec.cells[col].LargeBinary? && !rec.cells[col].Null? ==>
      r == Err(Invalid(rec.cells[col], field))
  {
    var value :- CellValue(rec, col);
    match value
    case Binary(v) => Ok(Some(HexEncode(v)))
    case LargeBinary(v) => Ok(Some(HexEncode(v)))
    case Null => Ok(None)
    case _ => Err(Invalid(value, field))
  }

  /** A hash read by a binary getter has two lowercase hex digits per byte and decodes back to the cell. */
  lemma BinGetterRoundTrip(rec: DbRecord, col: ColumnId, field: string)
    requires col in rec.cells && (rec.cells[col].Binary? || rec.cells[col].LargeBinary?)
    ensures var r := BinGetter(rec, col, field);
      && r.Ok? && r.value.Some?
      && |r.value.value| == 2 * |BinaryBytes(rec.cells[col])|
      && (forall i :: 0 <= i < |r.value.value| ==> IsLowerHex(r.value.value[i]))
      && HexDecode(r.value.value) == BinaryBytes(rec.cells[col])
  {
    HexRoundTrip(BinaryBytes(rec.cells[col]));
  }

  /** `define_datetime_getter!`: a `Currency` tick count becomes an instant; null is absent. */
  function DateTimeGetter(rec: DbRecord, col: ColumnId, field: string): (r: Result<Option<UtcDateTime>, Failure>)
    ensures col !in rec.cells ==> r == Err(CellUnreadable(col))
    ensures r == Ok(None) <==> CellValue(rec, col) == Ok(Null)
    ensures (r.Ok? && r.value.Some?) <==> (col in rec.cells && rec.cells[col].Currency?)
    ensures r.Ok? && r.value.Some? ==> r.value.value == TicksToDateTime(rec.cells[col].c)
    ensures col in rec.cells && !rec.cells[col].Currency? && !rec.cells[col].Null? ==>
      r == Err(Invalid(rec.cells[col], field))
  {
    var value :- CellValue(rec, col);
    match value
    case Currency(v) => Ok(Some(TicksToDateTime(v)))
    case Null => Ok(None)
    case _ => Err(Invalid(value, field))
  }

  /** A zero tick count is the epoch itself; a null cell is absent, never the epoch. */
  lemma DateTimeGetterEpoch(rec: DbRecord, col: ColumnId, field: string)
    requires col in rec.cells && (rec.cells[col] == Currency(0) || rec.cells[col] == Null)
    ensures rec.cells[col] == Currency(0) ==> DateTimeGetter(rec, col, field) == Ok(Some(BaseDateTime))
    ensures rec.cells[col] == Null ==> DateTimeGetter(rec, col, field) == Ok(None)
  {
  }

  // ---------------------------------------------------------------------------------
  // Security identifiers

  /** The fields of a decoded security identifier. */
  datatype Sid = Sid(revision: u8, authority: u48, subAuthorities: seq<u32>)

  /** Offset of the k-th sub-authority in the blob. */
  function SubAuthorityOffset(k: nat): nat { 8 + 4 * k }

  /**
   * The k-th of n sub-authorities as the decoder reads it: the last one
   * big-endian, all others little-endian.
   */
  function SubAuthorityAt(val: seq<u8>, n: nat, k: nat): u32
    requires k < n && |val| >= SubAuthorityOffset(n)
  {
    var word := val[SubAuthorityOffset(k)..SubAuthorityOffset(k) + 4];
    if k < n - 1 then U32Le(word) else U32Be(word)
  }

  /**
   * What the decoder reads from a blob: revision (byte 0), sub-authority count
   * n (byte 1), a big-endian 48-bit authority (bytes 2..8), then n 32-bit
   * sub-authorities. A count of zero underflows `n - 1`.
   */
  function SidOf(val: seq<u8>): Result<Sid, Failure> {
    if |val| < 8 then Err(UnexpectedEof)
    else if val[1] == 0 then Err(Panic("attempt to subtract with overflow"))
    else if |val| < SubAuthorityOffset(val[1]) then Err(UnexpectedEof)
    else Ok(Sid(val[0], U48Be(val[2..8]), seq(val[1], k requires 0 <= k < val[1] => SubAuthorityAt(val, val[1], k))))
  }

  /** Each number in decimal, in order. */
  function Decimals(ns: seq<u32>): (r: seq<string>)
    ensures |r| == |ns|
    ensures forall i :: 0 <= i < |ns| ==> r[i] == NatToDecimal(ns[i])
  {
    if ns == [] then [] else [NatToDecimal(ns[0])] + Decimals(ns[1..])
  }

  /** The dash-separated pieces of the string form: "S", revision, authority, sub-authorities. */
  function SidParts(sid: Sid): (parts: seq<string>)
    ensures |parts| == 3 + |sid.subAuthorities|
    ensures forall i :: 0 <= i < |parts| ==> '-' !in parts[i]
  {
    var parts := ["S", NatToDecimal(sid.revision), NatToDecimal(sid.authority)] + Decimals(sid.subAuthorities);
    assert forall i :: 0 <= i < |parts| ==> i == 0 || AllDigits(parts[i]);
    parts
  }

  /** `format!("S-{revision}-{authority}-{numbers}")`, every number in decimal. */
  function FormatSid(sid: Sid): string {
    Join(SidParts(sid), '-')
  }

  /** The string the SID getter produces from a blob, or why it fails. */
  function SidString(val: seq<u8>): Result<string, Failure> {
    var sid :- SidOf(val);
    Ok(FormatSid(sid))
  }

  /**
   * The body of `define_sid_getter!` on a binary cell: a cursor advances read by
   * read, the first n-1 sub-authorities are pushed little-endian and the last
   * one big-endian, then everything is formatted.
   */
  method DecodeSid(val: seq<u8>) returns (r: Result<string, Failure>)
    ensures r == SidString(val)
  {
    var pos := 0;
    if |val| < pos + 1 { return Err(UnexpectedEof); }
    var revision := val[pos];
    pos := pos + 1;
    if |val| < pos + 1 { return Err(UnexpectedEof); }
    var numberOfDashes := val[pos];
    pos := pos + 1;
    if |val| < pos + 6 { return Err(UnexpectedEof); }
    var authority := U48Be(val[pos..pos + 6]);
    pos := pos + 6;
    if numberOfDashes == 0 {
      return Err(Panic("attempt to subtract with overflow"));
    }
    var numbers: seq<u32> := [];
    while |numbers| < numberOfDashes - 1
      invariant |numbers| <= numberOfDashes - 1
      invariant pos == SubAuthorityOffset(|numbers|) <= |val|
      invariant forall k :: 0 <= k < |numbers| ==>
        numbers[k] == U32Le(val[SubAuthorityOffset(k)..SubAuthorityOffset(k) + 4])
    {
      if |val| < pos + 4 { return Err(UnexpectedEof); }
      numbers := numbers + [U32Le(val[pos..pos + 4])];
      pos := pos + 4;
    }
    if |val| < pos + 4 { return Err(UnexpectedEof); }
    numbers := numbers + [U32Be(val[pos..pos + 4])];
    ghost var expected := seq(numberOfDashes, k requires 0 <= k < numberOfDashes => SubAuthorityAt(val, numberOfDashes, k));
    assert forall k :: 0 <= k < numberOfDashes ==> numbers[k] == expected[k];
    assert numbers == expected;
    var sid := Sid(revision, authority, numbers);
    assert SidOf(val) == Ok(sid);
    r := Ok(FormatSid(sid));
  }

  /** `define_sid_getter!`: binary cells are decoded as security identifiers. */
  method SidGetter(rec: DbRecord, col: ColumnId, field: string) returns (r: Result<Option<string>, Failure>)
    ensures col !in rec.cells ==> r == Err(CellUnreadable(col))
    ensures r == SidGetterOf(rec, col, field)
  {
    var value :- CellValue(rec, col);
    match value {
      case Binary(v) =>
        var s :- DecodeSid(v);
        r := Ok(Some(s));
      case LargeBinary(v) =>
        var s :- DecodeSid(v);
        r := Ok(Some(s));
      case Null =>
        r := Ok(None);
      case _ =>
        r := Err(Invalid(value, field));
    }
  }

  /** What the SID getter returns, for use by functions and lemmas. */
  function SidGetterOf(rec: DbRecord, col: ColumnId, field: string): (r: Result<Option<string>, Failure>)
    ensures col !in rec.cells ==> r == Err(CellUnreadable(col))
    ensures r == Ok(None) <==> CellValue(rec, col) == Ok(Null)
    ensures r.Ok? && r.value.Some? ==> col in rec.cells && (rec.cells[col].Binary? || rec.cells[col].LargeBinary?)
    ensures col in rec.cells && (rec.cells[col].Binary? || rec.cells[col].LargeBinary?) ==>
      r == (match SidString(BinaryBytes(rec.cells[col])) case Ok(s) => Ok(Some(s)) case Err(e) => Err(e))
  {
    var value :- CellValue(rec, col);
    match value
    case Binary(v) => var s :- SidString(v); Ok(Some(s))
    case LargeBinary(v) => var s :- SidString(v); Ok(Some(s))
    case Null => Ok(None)
    case _ => Err(Invalid(value, field))
  }

  /** A decoded identifier reads "S-rev-auth-sub1-...-subn" with exactly n sub-authorities. */
  lemma SidStringShape(val: seq<u8>)
    requires |val| >= 8 && val[1] >= 1 && |val| >= SubAuthorityOffset(val[1])
    ensures SidOf(val).Ok?
    ensures var sid := SidOf(val).value;
      && sid.revision == val[0]
      && sid.authority == U48Be(val[2..8]) < 0x1_0000_0000_0000
      && |sid.subAuthorities| == val[1]
      && SidString(val) == Ok("S-" + NatToDecimal(val[0]) + "-" + NatToDecimal(sid.authority) + "-" +
           Join(Decimals(sid.subAuthorities), '-'))
  {
    var sid := SidOf(val).value;
    var parts := SidParts(sid);
    JoinFront(parts, '-');
    JoinFront(parts[1..], '-');
    assert parts[1..][1..] == parts[2..];
    JoinFront(parts[2..], '-');
    assert parts[2..][1..] == parts[3..];
    assert parts[0] == "S" && parts[1] == NatToDecimal(val[0]) && parts[2] == NatToDecimal(sid.authority);
    calc {
      FormatSid(sid);
      parts[0] + "-" + (parts[1] + "-" + (parts[2] + "-" + Join(parts[3..], '-')));
      "S-" + NatToDecimal(val[0]) + "-" + NatToDecimal(sid.authority) + "-" + Join(parts[3..], '-');
    }
    assert parts[3..] == Decimals(sid.subAuthorities);
  }

  lemma JoinFront(parts: seq<string>, sep: char)
    requires |parts| >= 2
    ensures Join(parts, sep) == parts[0] + [sep] + Join(parts[1..], sep)
  {
  }

  /** A blob succeeds exactly when it holds the 8 header bytes, a non-zero count n and n full sub-authorities. */
  lemma SidTruncation(val: seq<u8>)
    ensures SidOf(val).Ok? <==> |val| >= 8 && val[1] >= 1 && |val| >= SubAuthorityOffset(val[1])
    ensures |val| >= 8 && val[1] >= 1 && |val| < SubAuthorityOffset(val[1]) ==> SidString(val) == Err(UnexpectedEof)
  {
  }

  /** Bytes beyond the last sub-authority are never read. */
  lemma SidIgnoresTrailingBytes(val: seq<u8>, extra: seq<u8>)
    requires SidOf(val).Ok?
    ensures SidOf(val + extra) == SidOf(val)
  {
    var n := val[1];
    var w := val + extra;
    assert w[2..8] == val[2..8];
    forall k | 0 <= k < n
      ensures SubAuthorityAt(w, n, k) == SubAuthorityAt(val, n, k)
    {
      assert w[SubAuthorityOffset(k)..SubAuthorityOffset(k) + 4] == val[SubAuthorityOffset(k)..SubAuthorityOffset(k) + 4];
    }
    assert seq(n, k requires 0 <= k < n => SubAuthorityAt(w, n, k)) == seq(n, k requires 0 <= k < n => SubAuthorityAt(val, n, k));
  }

  // ---------------------------------------------------------------------------------
  // Encoding, for the round trips

  /** Words concatenated little-endian. */
  function LeWords(ws: seq<u32>): (b: seq<u8>)
    ensures |b| == 4 * |ws|
  {
    if ws == [] then [] else U32ToLe(ws[0]) + LeWords(ws[1..])
  }

  lemma {:induction false} LeWordsAt(ws: seq<u32>, k: nat)
    requires k < |ws|
    ensures LeWords(ws)[4 * k..4 * k + 4] == U32ToLe(ws[k])
  {
    if k > 0 {
      LeWordsAt(ws[1..], k - 1);
      assert LeWords(ws)[4..] == LeWords(ws[1..]);
    }
  }

  /** The blob layout the decoder expects: all sub-authorities little-endian except the last, big-endian. */
  function EncodeSid(sid: Sid): (b: seq<u8>)
    requires 1 <= |sid.subAuthorities| < 0x100
  {
    var n := |sid.subAuthorities|;
    [sid.revision, n] + U48ToBe(sid.authority) + LeWords(sid.subAuthorities[..n - 1]) + U32ToBe(sid.subAuthorities[n - 1])
  }

  /** The standard binary layout of a SID: every sub-authority little-endian. */
  function EncodeSidStandard(sid: Sid): (b: seq<u8>)
    requires 1 <= |sid.subAuthorities| < 0x100
  {
    [sid.revision, |sid.subAuthorities|] + U48ToBe(sid.authority) + LeWords(sid.subAuthorities)
  }

  lemma SidHeader(val: seq<u8>, sid: Sid, body: seq<u8>)
    requires 1 <= |sid.subAuthorities| < 0x100
    requires val == [sid.revision, |sid.subAuthorities|] + U48ToBe(sid.authority) + body
    ensures |val| == 8 + |body| && val[0] == sid.revision && val[1] == |sid.subAuthorities|
    ensures U48Be(val[2..8]) == sid.authority
    ensures val[8..] == body
  {
  }

  /** Decoding a blob in the decoder's own layout gives back every field. */
  lemma {:induction false} SidBytesRoundTrip(sid: Sid)
    requires 1 <= |sid.subAuthorities| < 0x100
    ensures SidOf(EncodeSid(sid)) == Ok(sid)
  {
    var n := |sid.subAuthorities|;
    var body := LeWords(sid.subAuthorities[..n - 1]) + U32ToBe(sid.subAuthorities[n - 1]);
    var val := EncodeSid(sid);
    SidHeader(val, sid, body);
    var subs := seq(n, k requires 0 <= k < n => SubAuthorityAt(val, n, k));
    forall k | 0 <= k < n
      ensures subs[k] == sid.subAuthorities[k]
    {
      var word := val[SubAuthorityOffset(k)..SubAuthorityOffset(k) + 4];
      assert word == body[4 * k..4 * k + 4];
      if k < n - 1 {
        LeWordsAt(sid.subAuthorities[..n - 1], k);
        assert word == U32ToLe(sid.subAuthorities[k]);
      } else {
        assert word == U32ToBe(sid.subAuthorities[n - 1]);
      }
    }
    assert subs == sid.subAuthorities;
  }

  /**
   * On a blob in the standard layout the decoder returns every field unchanged
   * except the last sub-authority, whose bytes come out reversed.
   */
  lemma {:induction false} SidStandardLayoutLastSwapped(sid: Sid)
    requires 1 <= |sid.subAuthorities| < 0x100
    ensures var n := |sid.subAuthorities|;
      SidOf(EncodeSidStandard(sid)) ==
        Ok(Sid(sid.revision, sid.authority, sid.subAuthorities[n - 1 := ByteSwap32(sid.subAuthorities[n - 1])]))
  {
    var n := |sid.subAuthorities|;
    var body := LeWords(sid.subAuthorities);
    var val := EncodeSidStandard(sid);
    SidHeader(val, sid, body);
    var expected := sid.subAuthorities[n - 1 := ByteSwap32(sid.subAuthorities[n - 1])];
    var subs := seq(n, k requires 0 <= k < n => SubAuthorityAt(val, n, k));
    forall k | 0 <= k < n
      ensures subs[k] == expected[k]
    {
      assert val[SubAuthorityOffset(k)..SubAuthorityOffset(k) + 4] == body[4 * k..4 * k + 4];
      LeWordsAt(sid.subAuthorities, k);
    }
    assert subs == expected;
  }

  /** The built-in Administrators group, S-1-5-32-544, stored in the standard layout, comes out with its last number byte-swapped. */
  lemma SidStandardLayoutExample()
    ensures SidString(EncodeSidStandard(Sid(1, 5, [32, 544]))) == Ok(FormatSid(Sid(1, 5, [32, 537001984])))
  {
    SidStandardLayoutLastSwapped(Sid(1, 5, [32, 544]));
    assert ByteSwap32(544) == 537001984;
  }

  // ---------------------------------------------------------------------------------
  // Reading the string form back

  function ParseNumber(s: string, bound: nat): Option<nat> {
    if |s| >= 1 && AllDigits(s) && DecimalToNat(s) < bound then Some(DecimalToNat(s)) else None
  }

  /** Parses "S-rev-auth-sub1-...-subn" (n >= 1) back into its fields. */
  function ParseSid(s: string): Option<Sid> {
    var parts := Split(s, '-');
    if |parts| < 4 || parts[0] != "S" then None
    else
      var rev :- ParseNumber(parts[1], 0x100);
      var auth :- ParseNumber(parts[2], 0x1_0000_0000_0000);
      var subs :- ParseNumbers(parts[3..]);
      Some(Sid(rev, auth, subs))
  }

  function ParseNumbers(parts: seq<string>): (r: Option<seq<u32>>)
    ensures r.Some? ==> |r.value| == |parts|
  {
    if parts == [] then Some([])
    else
      var n :- ParseNumber(parts[0], 0x1_0000_0000);
      var rest :- ParseNumbers(parts[1..]);
      Some([n] + rest)
  }

  lemma {:induction false} ParseNumbersOfDecimals(ns: seq<u32>)
    ensures ParseNumbers(Decimals(ns)) == Some(ns)
  {
    if ns != [] {
      DecimalRoundTrip(ns[0]);
      ParseNumbersOfDecimals(ns[1..]);
      assert Decimals(ns)[1..] == Decimals(ns[1..]);
      assert [ns[0]] + ns[1..] == ns;
    }
  }

  /** The string form loses nothing: parsing it gives back the identifier. */
  lemma FormatSidParses(sid: Sid)
    requires |sid.subAuthorities| >= 1
    ensures ParseSid(FormatSid(sid)) == Some(sid)
  {
    var parts := SidParts(sid);
    SplitJoin(parts, '-');
    assert Split(FormatSid(sid), '-') == parts;
    DecimalRoundTrip(sid.revision);
    assert ParseNumber(parts[1], 0x100) == Some(sid.revision as nat);
    DecimalRoundTrip(sid.authority);
    assert ParseNumber(parts[2], 0x1_0000_0000_0000) == Some(sid.authority as nat);
    ParseNumbersOfDecimals(sid.subAuthorities);
    assert parts[3..] == Decimals(sid.subAuthorities);
    assert ParseNumbers(parts[3..]) == Some(sid.subAuthorities);
  }

  /** End to end: the string decoded from an encoded identifier parses back to the same fields. */
  lemma SidRoundTrip(sid: Sid)
    requires 1 <= |sid.subAuthorities| < 0x100
    ensures SidString(EncodeSid(sid)).Ok?
    ensures ParseSid(SidString(EncodeSid(sid)).value) == Some(sid)
  {
    SidBytesRoundTrip(sid);
    FormatSidParses(sid);
  }

  // ---------------------------------------------------------------------------------
  // The getter table of the row type

  /** The getters of a raw row, one per column the older layer reads. */
  datatype Getter =
    | DsRecordIdIndex | DsParentRecordIdIndex | DsRecordTimeIndex | DsAncestorsIndex
    | DsObjectTypeIdIndex | DsObjectNameIndex | DsObjectName2Index | DsSidIndex
    | DsSamAccountNameIndex | DsUserPrincipalNameIndex | DsSamAccountTypeIndex
    | DsUserAccountControlIndex | DsLastLogonIndex | DsLastLogonTimeStampIndex
    | DsAccountExpiresIndex | DsPasswordLastSetIndex | DsBadPwdTimeIndex | DsLogonCountIndex
    | DsBadPwdCountIndex | DsPrimaryGroupIdIndex | DsNthashIndex | DsLmhashIndex
    | DsNthashHistoryIndex | DsLmhashHistoryIndex | DsUnixPasswordIndex
    | DsAduserObjectsIndex | DsSupplementalCredentialsIndex

  /** Which macro defines a getter; `Raw` getters hand back the cell undecoded. */
  datatype GetterKind = I32Kind | StrKind | BinKind | SidKind | DateTimeKind | RawKind

  function KindOf(g: Getter): GetterKind {
    match g
    case DsRecordIdIndex | DsParentRecordIdIndex | DsObjectTypeIdIndex | DsSamAccountTypeIndex
       | DsUserAccountControlIndex | DsLogonCountIndex | DsBadPwdCountIndex | DsPrimaryGroupIdIndex => I32Kind
    case DsRecordTimeIndex | DsAncestorsIndex => RawKind
    case DsObjectNameIndex | DsObjectName2Index | DsSamAccountNameIndex | DsUserPrincipalNameIndex
       | DsUnixPasswordIndex => StrKind
    case DsSidIndex => SidKind
    case DsLastLogonIndex | DsLastLogonTimeStampIndex | DsAccountExpiresIndex | DsPasswordLastSetIndex
       | DsBadPwdTimeIndex => DateTimeKind
    case DsNthashIndex | DsLmhashIndex | DsNthashHistoryIndex | DsLmhashHistoryIndex
       | DsAduserObjectsIndex | DsSupplementalCredentialsIndex => BinKind
  }

  /** The getter's own name, which its "invalid value" message quotes. */
  function FieldName(g: Getter): string {
    match g
    case DsRecordIdIndex => "ds_record_id_index"
    case DsParentRecordIdIndex => "ds_parent_record_id_index"
    case DsRecordTimeIndex => "ds_record_time_index"
    case DsAncestorsIndex => "ds_ancestors_index"
    case DsObjectTypeIdIndex => "ds_object_type_id_index"
    case DsObjectNameIndex => "ds_object_name_index"
    case DsObjectName2Index => "ds_object_name2_index"
    case DsSidIndex => "ds_sidindex"
    case DsSamAccountNameIndex => "ds_samaccount_name_index"
    case DsUserPrincipalNameIndex => "ds_user_principal_name_index"
    case DsSamAccountTypeIndex => "ds_samaccount_type_index"
    case DsUserAccountControlIndex => "ds_user_account_control_index"
    case DsLastLogonIndex => "ds_last_logon_index"
    case DsLastLogonTimeStampIndex => "ds_last_logon_time_stamp_index"
    case DsAccountExpiresIndex => "ds_account_expires_index"
    case DsPasswordLastSetIndex => "ds_password_last_set_index"
    case DsBadPwdTimeIndex => "ds_bad_pwd_time_index"
    case DsLogonCountIndex => "ds_logon_count_index"
    case DsBadPwdCountIndex => "ds_bad_pwd_count_index"
    case DsPrimaryGroupIdIndex => "ds_primary_group_id_index"
    case DsNthashIndex => "ds_nthash_index"
    case DsLmhashIndex => "ds_lmhash_index"
    case DsNthashHistoryIndex => "ds_nthash_history_index"
    case DsLmhashHistoryIndex => "ds_lmhash_history_index"
    case DsUnixPasswordIndex => "ds_unix_password_index"
    case DsAduserObjectsIndex => "ds_aduser_objects_index"
    case DsSupplementalCredentialsIndex => "ds_supplemental_credentials_index"
  }

  /** The column id of each getter in the file at hand, resolved once by name. */
  datatype ColumnInfoMapping = ColumnInfoMapping(columnOf: Getter -> ColumnId)

  /** A decoded cell of any kind. */
  datatype Decoded = Int(i: i32) | Str(s: string) | Time(t: UtcDateTime) | Raw(v: Value)

  /** A decoded value has the shape its getter's kind promises. */
  predicate FitsKind(k: GetterKind, d: Decoded) {
    match k
    case I32Kind => d.Int?
    case StrKind => d.Str?
    case BinKind => d.Str? && |d.s| % 2 == 0 && forall i :: 0 <= i < |d.s| ==> IsLowerHex(d.s[i])
    case SidKind => d.Str? && |d.s| >= 2 && d.s[..2] == "S-"
    case DateTimeKind => d.Time?
    case RawKind => d.Raw?
  }

  /** The storage variants a kind of getter decodes (every other one is an "invalid value"). */
  predicate Accepts(k: GetterKind, v: Value) {
    match k
    case I32Kind => v.I32? || v.Null?
    case StrKind => v.Text? || v.LargeText? || v.Null?
    case BinKind | SidKind => v.Binary? || v.LargeBinary? || v.Null?
    case DateTimeKind => v.Currency? || v.Null?
    case RawKind => true
  }

  /** Reads one getter's column of a row through the decoder its kind selects. */
  function Get(rec: DbRecord, mapping: ColumnInfoMapping, g: Getter): (r: Result<Option<Decoded>, Failure>)
    ensures r.Ok? && r.value.Some? ==> FitsKind(KindOf(g), r.value.value)
    ensures CellValue(rec, mapping.columnOf(g)).Err? ==> r == Err(CellValue(rec, mapping.columnOf(g)).error)
    ensures CellValue(rec, mapping.columnOf(g)).Ok? && !Accepts(KindOf(g), CellValue(rec, mapping.columnOf(g)).value) ==>
      r == Err(Invalid(CellValue(rec, mapping.columnOf(g)).value, FieldName(g)))
    ensures KindOf(g) == I32Kind && CellValue(rec, mapping.columnOf(g)).Ok? && CellValue(rec, mapping.columnOf(g)).value.I32? ==>
      r == Ok(Some(Int(CellValue(rec, mapping.columnOf(g)).value.i)))
    ensures KindOf(g) == StrKind && CellValue(rec, mapping.columnOf(g)).Ok? && CellValue(rec, mapping.columnOf(g)).value.Text? ==>
      r == Ok(Some(Str(CellValue(rec, mapping.columnOf(g)).value.text)))
    ensures KindOf(g) == StrKind && CellValue(rec, mapping.columnOf(g)).Ok? && CellValue(rec, mapping.columnOf(g)).value.LargeText? ==>
      r == Ok(Some(Str(CellValue(rec, mapping.columnOf(g)).value.largeText)))
    ensures (KindOf(g) == BinKind && CellValue(rec, mapping.columnOf(g)).Ok? &&
             (CellValue(rec, mapping.columnOf(g)).value.Binary? || CellValue(rec, mapping.columnOf(g)).value.LargeBinary?)) ==>
      r == Ok(Some(Str(HexEncode(BinaryBytes(CellValue(rec, mapping.columnOf(g)).value)))))
    ensures (KindOf(g) == SidKind && CellValue(rec, mapping.columnOf(g)).Ok? &&
             (CellValue(rec, mapping.columnOf(g)).value.Binary? || CellValue(rec, mapping.columnOf(g)).value.LargeBinary?)) ==>
      r == (match SidString(BinaryBytes(CellValue(rec, mapping.columnOf(g)).value))
            case Ok(s) => Ok(Some(Str(s))) case Err(e) => Err(e))
    ensures KindOf(g) == DateTimeKind && CellValue(rec, mapping.columnOf(g)).Ok? && CellValue(rec, mapping.columnOf(g)).value.Currency? ==>
      r == Ok(Some(Time(TicksToDateTime(CellValue(rec, mapping.columnOf(g)).value.c))))
    ensures KindOf(g) != RawKind ==> (r == Ok(None) <==> CellValue(rec, mapping.columnOf(g)) == Ok(Null))
    ensures KindOf(g) == RawKind ==> r == (match CellValue(rec, mapping.columnOf(g))
                                           case Ok(v) => Ok(Some(Raw(v))) case Err(e) => Err(e))
    ensures r.Err? && CellValue(rec, mapping.columnOf(g)).Ok? && KindOf(g) != SidKind ==>
      r.error == Invalid(rec.cells[mapping.columnOf(g)], FieldName(g))
  {
    var col := mapping.columnOf(g);
    var field := FieldName(g);
    match KindOf(g)
    case I32Kind =>
      var v :- I32Getter(rec, col, field);
      Ok(if v.Some? then Some(Int(v.value)) else None)
    case StrKind =>
      var v :- StrGetter(rec, col, field);
      Ok(if v.Some? then Some(Str(v.value)) else None)
    case BinKind =>
      var v :- BinGetter(rec, col, field);
      Ok(if v.Some? then Some(Str(v.value)) else None)
    case SidKind =>
      var v :- SidGetterOf(rec, col, field);
      if v.Some? then
        SidStartsWithS(BinaryBytes(rec.cells[col]));
        Ok(Some(Str(v.value)))
      else Ok(None)
    case DateTimeKind =>
      var v :- DateTimeGetter(rec, col, field);
      Ok(if v.Some? then Some(Time(v.value)) else None)
    case RawKind =>
      var v :- CellValue(rec, col);
      Ok(Some(Raw(v)))
  }

  /** Every decoded identifier starts with "S-". */
  lemma SidStartsWithS(val: seq<u8>)
    requires SidString(val).Ok?
    ensures |SidString(val).value| >= 2 && SidString(val).value[..2] == "S-"
  {
  }
}
