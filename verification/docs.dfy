/** The two document rows the reconciliation code works on, and its result shapes. */
module Docs {
  import opened Graph

  /** A mirrored SharePoint file as the change reconciliation reads it. */
  datatype SharepointFile = SharepointFile(id: string, name: string, content: string, embedding: Vector)

  /** An uploaded document (the older flow): `updated` marks it as changed since its last run. */
  datatype Document = Document(id: string, title: string, text: string, embedding: Vector, updated: bool)

  /** `UpdatedResponse` / `SkippedResponse`: the verdict on one candidate document. */
  datatype UpdateResponse<D> =
    | Skipped(document: D)
    | Updated(document: D, newContent: string)

  /** One entry of a run's answer: the candidate and the diff of its proposed new content. */
  datatype DocumentUpdate<D> = DocumentUpdate(document: D, changes: string)
}
