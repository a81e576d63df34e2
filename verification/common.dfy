/** Small helper types shared by every module of the model. */
module Common {

  /** A value that may be absent: a missing request field, an unset global, a failed read. */
  datatype Option<+T> = None | Some(value: T)

  /** The only content type the vault stores or serves. */
  const PdfType: string := "application/pdf"
}
