/** The enumerations that the dispatch tables and the plain-text codec switch on. */
module LawnStringsTypes {
  /** How a plain-text file is encoded. */
  datatype LawnStringsEncoding = UTF8_BOM | UTF16

  /** The text encoding the stream extensions are given. */
  datatype EncodingType = UTF8 | UTF16

  /** The five file formats a localisation table can be stored in. */
  datatype LawnStringsFormat = PlainText | JsonList | JsonMap | RtonList | RtonMap {
    /** List-shaped formats keep keys and values in alternating slots. */
    predicate IsListShaped() {
      this == JsonList || this == RtonList
    }
  }

  /** What a comparison reports. */
  datatype LawnStringsCompareMode = Added | Changed | FullDiff
}
