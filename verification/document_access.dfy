/** The API-key protected document download (DocumentAccessController::show). */
module DocumentAccess {
  import opened Strings
  import Php
  import opened Lists
  import opened Documents

  datatype Response = NotFound | Forbidden | Serve(path: string)

  predicate HasId(d: Document, id: nat) {
    d.id == id
  }

  /** Looks the document up by id first; then denies access unless the
      configured secret is truthy and the `X-API-Key` header equals it
      exactly; otherwise serves the file at the document's stored path.
      `None` stands for a missing header or an unset secret. */
  function Show(docs: seq<Document>, id: nat, header: Option<string>, secret: Option<string>): (r: Response)
    ensures r.NotFound? <==> forall i :: 0 <= i < |docs| ==> !HasId(docs[i], id)
    ensures r.Forbidden? <==> ((exists i :: 0 <= i < |docs| && HasId(docs[i], id))
      && (!Php.Truthy(secret) || header != secret))
    ensures r.Serve? ==> (Php.Truthy(secret) && header == secret
      && exists i :: 0 <= i < |docs| && HasId(docs[i], id) && r.path == docs[i].path)
  {
    match FirstWhere(docs, (d: Document) => HasId(d, id), 0)
    case None => NotFound
    case Some(k) =>
      if !Php.Truthy(secret) || header != secret then Forbidden
      else Serve(docs[k].path)
  }

  /** Access is decided by the key alone: with a falsy secret nothing is
      ever served, and with a truthy one the correct header obtains any
      existing document, whoever owns it. */
  lemma KeyDecidesAccess(docs: seq<Document>, id: nat, header: Option<string>, secret: Option<string>, k: nat)
    ensures !Php.Truthy(secret) ==> !Show(docs, id, header, secret).Serve?
    ensures Php.Truthy(secret) && k < |docs| && docs[k].id == id ==> Show(docs, id, secret, secret).Serve?
  {
    if Php.Truthy(secret) && k < |docs| && docs[k].id == id {
      assert HasId(docs[k], id);
    }
  }

  /** With unique ids the served path is that of the document with the
      requested id. */
  lemma ServesRequestedDocument(docs: seq<Document>, k: nat, secret: Option<string>)
    requires k < |docs| && Php.Truthy(secret)
    requires forall i :: 0 <= i < |docs| && i != k ==> docs[i].id != docs[k].id
    ensures Show(docs, docs[k].id, secret, secret) == Serve(docs[k].path)
  {
    FirstWhereIs(docs, (d: Document) => HasId(d, docs[k].id), 0, k);
  }
}
