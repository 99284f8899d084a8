/** The per-file reducer state of `src/reducers/org.js`: the header sequence, the
    keyword sets and the selection/narrowing ids the editing actions consult. */
module OrgFiles {
  import opened Wrappers
  import opened OrgTypes

  datatype OrgFile = OrgFile(
    headers: seq<Header>,
    todoKeywordSets: seq<KeywordSet>,
    selectedHeaderId: Option<Id>,
    narrowedHeaderId: Option<Id>,
    selectedTableCellId: Option<Id>)

  /** `attributedStringToRawText` (the raw-text serialiser of parts) is not part of
      this model; the reducers receive it as a parameter. */
  type ToRaw = seq<Part> -> string

  /** A file as the reducers expect it: unique header ids and at least one keyword
      set (`parseOrg` always supplies one). */
  predicate WellFormed(file: OrgFile)
  {
    UniqueIds(file.headers) && |file.todoKeywordSets| > 0
  }
}
