/** The record types of src/types/index.ts. */
module Types {

  /** The two kinds of QR payload. */
  datatype QRType = URL | Text

  /** One saved QR code as the dashboard lists it. `name` holds the field
      the source calls `label` (a reserved word in Dafny). The score is a
      whole number in the records the dashboard holds. */
  datatype QRRecord = QRRecord(name: string, content: string, qrType: QRType, folder: string, date: string, score: int)

  /** A value that may be absent, as `x ?? null` yields. */
  datatype Option<T> = None | Some(value: T)
}
