/** The background job that hands an uploaded document to the ingestion
    service and records the outcome (ProcessRagDocument::handle). */
module Ingest {
  import opened Strings
  import Php
  import opened Documents

  /** The multipart request sent to the ingestion service: the owner's id as
      a string, the document's name as the source, and the file itself. */
  datatype IngestRequest = IngestRequest(uid: string, source: string, fileName: string, contents: string)

  datatype Outcome = Outcome(doc: Document, request: Option<IngestRequest>)

  /** One run of the job. `contents` is what the storage read returned
      (`None` for a missing file) and `responseOk` whether the service
      answered with a success status; a failed connection counts as an
      unsuccessful response. */
  function Handle(doc: Document, contents: Option<string>, responseOk: bool): (r: Outcome)
    ensures r.doc == doc.(status := r.doc.status)
    ensures r.doc.status == Completed || r.doc.status == Failed
    ensures r.doc.status == Completed <==> Php.Truthy(contents) && responseOk
    ensures r.request.Some? <==> Php.Truthy(contents)
    ensures r.request.Some? ==> (r.request.value.source == doc.name && r.request.value.fileName == doc.name
      && r.request.value.contents == contents.value)
  {
    if !Php.Truthy(contents) then Outcome(doc.(status := Failed), None)
    else
      var request := IngestRequest(NatToString(doc.userId), doc.name, doc.name, contents.value);
      Outcome(doc.(status := if responseOk then Completed else Failed), Some(request))
  }

  /** The service reads the owner back from the request: the `uid` field is
      the decimal form of the document's owner id. */
  lemma RequestNamesOwner(doc: Document, contents: Option<string>, responseOk: bool)
    requires Php.Truthy(contents)
    ensures var uid := Handle(doc, contents, responseOk).request.value.uid;
      (forall i :: 0 <= i < |uid| ==> '0' <= uid[i] <= '9') && DigitsValue(uid) == doc.userId
  {
    NatToStringRoundTrip(doc.userId);
  }
}
