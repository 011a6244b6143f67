/** The cell values of crates/red-core/src/lib.rs. */
module Values {
  import opened Bytes

  /** A double: its value and, when finite, the text Rust's `Display` gives it. */
  datatype Float = NaN | Infinite(negative: bool) | Finite(value: real, display: Text)

  datatype CappedCell = CappedCell(head: Text, len: nat, isBlob: bool)

  datatype Value =
    | Null
    | Integer(n: int)
    | Real(x: Float)
    | Str(s: Text)
    | Blob(bytes: Text)
    | Capped(cell: CappedCell)
}
