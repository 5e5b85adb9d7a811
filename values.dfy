/**
 * A cell value as the database reader hands it over: one tagged variant per
 * storage kind of the Extensible Storage Engine.
 */
module Values {
  import opened Bytes
  import opened TextFormat

  datatype Value =
    | Null
    | Bool(b: bool)
    | U8(u: u8)
    | U16(w: u16)
    | U32(d: u32)
    | I16(s: i16)
    | I32(i: i32)
    | I64(l: i64)
    /** 64-bit signed count; Windows FILETIME columns are stored in this variant. */
    | Currency(c: i64)
    | Text(text: string)
    | LargeText(largeText: string)
    | Binary(bin: seq<u8>)
    | LargeBinary(largeBin: seq<u8>)
    | Long(long: seq<u8>)
    | Guid(guid: seq<u8>)
    /** Floating-point and the remaining storage kinds, which no decoder here accepts. */
    | Other(description: string)

  /** The value's text, as carried by an "invalid value" error. */
  function ValueText(v: Value): string {
    match v
    case Null => "Null"
    case Bool(b) => if b then "true" else "false"
    case U8(u) => NatToDecimal(u)
    case U16(w) => NatToDecimal(w)
    case U32(d) => NatToDecimal(d)
    case I16(s) => IntToDecimal(s)
    case I32(i) => IntToDecimal(i)
    case I64(l) => IntToDecimal(l)
    case Currency(c) => IntToDecimal(c)
    case Text(t) => t
    case LargeText(t) => t
    case Binary(b) => HexEncode(b)
    case LargeBinary(b) => HexEncode(b)
    case Long(b) => HexEncode(b)
    case Guid(b) => HexEncode(b)
    case Other(d) => d
  }
}
