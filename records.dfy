/**
 * The values the review front end passes around: a document as the
 * backend returns it, one classification entry of a document, and the
 * filter settings shared by the dashboard and its filter panel.
 */
module Records {

  datatype Option<+T> = None | Some(value: T)

  /** One (label, confidence) pair of a document (the source's `label` key is `name` here, since `label` is a Dafny keyword); scores are exact reals. */
  datatype Classification = Classification(name: string, score: real)

  type DocumentId = int

  /** A document record; `updatedAt` is an opaque timestamp. */
  datatype Document = Document(
    id: DocumentId,
    documentName: string,
    classifications: seq<Classification>,
    manuallyEdited: bool,
    updatedAt: int)

  /** The dashboard's filter settings (the source's `type` key is `labelType` here). */
  datatype Filters = Filters(
    labelType: string,
    minConfidence: real,
    maxConfidence: real,
    showLowConfidence: bool)

  /** The initial filters of the dashboard and the filters a reset restores. */
  const DefaultFilters: Filters := Filters("", 0.0, 1.0, false)
}
