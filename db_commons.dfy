/** The column descriptor shared by every connector: the shape both
    connectors hand back as `columnTypes`. */
module DbCommons {

  /** The semantic type of a column (`EvidenceType.BOOLEAN` … `DATE`). */
  datatype EvidenceType = Boolean | Number | String | Date

  /** Whether a column's type was guessed (`"inferred"`) or read from the
      source's own metadata (`"precise"`). */
  datatype TypeFidelity = Inferred | Precise

  /** One column of a result: `{ name, evidenceType, typeFidelity }`. */
  datatype ColumnDefinition = ColumnDefinition(
    name: string,
    evidenceType: EvidenceType,
    typeFidelity: TypeFidelity)
}
