/** The uploaded-document record shared by the upload controller, the
    ingestion job, the access controller and the upload page. */
module Documents {

  /** Processing state of a document; the upload sets `Processing` and the
      ingestion job sets one of the two terminal states. */
  datatype Status = Processing | Completed | Failed

  /** A row of the documents table: `docType` is the client-side file
      extension and `size` is in bytes. */
  datatype Document = Document(
    id: nat,
    userId: nat,
    name: string,
    path: string,
    docType: string,
    size: nat,
    status: Status,
    createdAt: int)

  /** The documents table together with the set of paths present on the
      storage disk and the next id the table assigns. */
  datatype DocStore = DocStore(docs: seq<Document>, files: set<string>, nextId: nat)
}
