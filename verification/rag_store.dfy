/** The knowledge-base document controller (RagUploadController): the
    per-user storage directory, the listing with its statistics, the
    upload that records a document, and the authorised delete. */
module RagStore {
  import opened Strings
  import Php
  import Laravel
  import opened Lists
  import opened Sorting
  import opened Documents

  const RagRoot := "rag_files/"

  /** The directory of a user's documents, `rag_files/<id>`. */
  function UserBase(uid: nat): string {
    RagRoot + NatToString(uid)
  }

  /** The storage directory for documents of one type: the user's directory
      when the type is PHP-falsy ("" or "0"), otherwise a sub-directory
      named after the type. */
  function UserRagPath(uid: nat, docType: string): (r: string)
    ensures StartsWith(r, UserBase(uid))
    ensures r == UserBase(uid) <==> Php.EmptyString(docType)
    ensures !Php.EmptyString(docType) ==> r[|UserBase(uid)|..] == "/" + docType
  {
    var base := UserBase(uid);
    if Php.EmptyString(docType) then base else base + "/" + docType
  }

  /** The documents belonging to one user, in table order. */
  function UserDocuments(docs: seq<Document>, uid: nat): seq<Document> {
    Keep(docs, (d: Document) => d.userId == uid)
  }

  function CreatedKey(d: Document): Key {
    Key(d.createdAt, 0)
  }

  datatype Stats = Stats(totalDocuments: nat, totalStorage: nat)

  /** What the upload page is given: the user's documents, newest first, and
      the statistics computed over that list. */
  datatype Overview = Overview(documents: seq<Document>, stats: Stats)

  function Size(d: Document): nat {
    d.size
  }

  function Create(ds: DocStore, uid: nat): (r: Overview)
    ensures Descending(r.documents, CreatedKey)
    ensures forall d :: multiset(r.documents)[d] == if d.userId == uid then multiset(ds.docs)[d] else 0
  {
    KeepMultiset(ds.docs, (d: Document) => d.userId == uid);
    var documents := SortDesc(UserDocuments(ds.docs, uid), CreatedKey);
    Overview(documents, Stats(|documents|, Sum(documents, Size)))
  }

  /** The statistics do not depend on the ordering: they are the number of
      the user's documents and the sum of their sizes. */
  lemma StatsCountOwnDocuments(ds: DocStore, uid: nat)
    ensures var own := UserDocuments(ds.docs, uid);
      Create(ds, uid).stats == Stats(|own|, Sum(own, Size))
  {
    var own := UserDocuments(ds.docs, uid);
    var sorted := SortDesc(own, CreatedKey);
    SumPermutation(sorted, own, Size);
  }

  /** Validation of the upload: a file is present, the extension guessed
      from its contents is one of the accepted ones, the client's extension
      is not one of PHP's, and it is at most 10240 kilobytes. */
  const AcceptedExtensions: set<string> := {"txt", "pdf", "docx", "png", "jpg", "jpeg"}
  const MaxUploadBytes := 10240 * 1024

  /** Extensions the `mimes` rule refuses on the client's file name, unless
      "php" is itself among the accepted ones. */
  const PhpExtensions: set<string> := {"php", "php3", "php4", "php5", "php7", "php8", "phtml", "phar"}

  /** The `mimes` rule's guard against PHP uploads: the client extension,
      lower-cased and trimmed, is one of PHP's. */
  predicate PhpUploadBlocked(clientExt: string) {
    "php" !in AcceptedExtensions && Php.Trim(Php.ToLower(clientExt)) in PhpExtensions
  }

  /** An uploaded file: the client's name and extension, the extension
      guessed from its contents, its size in bytes, and the name the
      storage layer generates for it. */
  datatype UploadedFile = UploadedFile(clientName: string, clientExt: string, guessedExt: string, size: nat, hashName: string)

  predicate Acceptable(file: Option<UploadedFile>) {
    && file.Some?
    && !PhpUploadBlocked(file.value.clientExt)
    && file.value.guessedExt in AcceptedExtensions
    && file.value.size <= MaxUploadBytes
  }

  datatype StoreOutcome = ValidationFailed | Stored(ds: DocStore, doc: Document)

  /** Stores the file under the user's directory for its client-side
      extension and records it, with that extension as its type, as a
      document being processed. */
  function Store(ds: DocStore, uid: nat, file: Option<UploadedFile>, now: int): (r: StoreOutcome)
    ensures r.Stored? <==> Acceptable(file)
    ensures r.Stored? ==> (
      var f := file.value;
      && r.ds.docs == ds.docs + [r.doc]
      && r.ds.files == ds.files + {r.doc.path}
      && r.ds.nextId == ds.nextId + 1
      && r.doc == Document(ds.nextId, uid, f.clientName, UserRagPath(uid, f.clientExt) + "/" + f.hashName,
                           f.clientExt, f.size, Processing, now))
  {
    if !Acceptable(file) then ValidationFailed
    else
      var f := file.value;
      var doc := Document(ds.nextId, uid, f.clientName, UserRagPath(uid, f.clientExt) + "/" + f.hashName,
                          f.clientExt, f.size, Processing, now);
      Stored(DocStore(ds.docs + [doc], ds.files + {doc.path}, ds.nextId + 1), doc)
  }

  /** No stored document has a PHP extension as its type, in any letter
      case or with surrounding blanks, and a PHP client name is refused
      whatever its contents look like. */
  lemma StoreRefusesPhpExtension(ds: DocStore, uid: nat, file: Option<UploadedFile>, now: int)
    ensures var r := Store(ds, uid, file, now);
      && (r.Stored? ==> Php.Trim(Php.ToLower(r.doc.docType)) !in PhpExtensions)
      && (file.Some? && Php.Trim(Php.ToLower(file.value.clientExt)) in PhpExtensions ==> r == ValidationFailed)
  {
    assert "php" !in AcceptedExtensions;
    var r := Store(ds, uid, file, now);
    if r.Stored? {
      assert r.doc.docType == file.value.clientExt;
      assert !PhpUploadBlocked(file.value.clientExt);
    }
  }

  /** An upload appends the new document to the uploader's own list. */
  lemma StoreExtendsOwnList(ds: DocStore, uid: nat, file: Option<UploadedFile>, now: int, owner: nat)
    requires Acceptable(file)
    ensures var r := Store(ds, owner, file, now);
      UserDocuments(r.ds.docs, uid) == UserDocuments(ds.docs, uid) + (if owner == uid then [r.doc] else [])
  {
    var r := Store(ds, owner, file, now);
    KeepAppend(ds.docs, [r.doc], (d: Document) => d.userId == uid);
  }

  /** An upload adds one document to the uploader's statistics and its size
      to their storage total. */
  lemma StoreUpdatesStats(ds: DocStore, uid: nat, file: Option<UploadedFile>, now: int)
    requires Acceptable(file)
    ensures var before, after := Create(ds, uid).stats, Create(Store(ds, uid, file, now).ds, uid).stats;
      && after.totalDocuments == before.totalDocuments + 1
      && after.totalStorage == before.totalStorage + file.value.size
  {
    var r := Store(ds, uid, file, now);
    StoreExtendsOwnList(ds, uid, file, now, uid);
    StatsCountOwnDocuments(ds, uid);
    StatsCountOwnDocuments(r.ds, uid);
    SumAppend(UserDocuments(ds.docs, uid), [r.doc], Size);
  }

  /** Another user's upload leaves a user's statistics unchanged. */
  lemma StoreLeavesOthersStats(ds: DocStore, uid: nat, file: Option<UploadedFile>, now: int, other: nat)
    requires Acceptable(file) && other != uid
    ensures Create(Store(ds, other, file, now).ds, uid).stats == Create(ds, uid).stats
  {
    var r := Store(ds, other, file, now);
    StoreExtendsOwnList(ds, uid, file, now, other);
    var own := UserDocuments(ds.docs, uid);
    assert UserDocuments(r.ds.docs, uid) == own + [] == own;
    StatsCountOwnDocuments(ds, uid);
    StatsCountOwnDocuments(r.ds, uid);
  }

  /** A document that belongs to `uid` and is stored at `path`. */
  predicate OwnDocumentAt(d: Document, uid: nat, path: string) {
    d.userId == uid && d.path == path
  }

  datatype DestroyOutcome = Invalid | NotFound | Unauthorized | Deleted(ds: DocStore)

  /** Deletes the caller's document stored at `path`: the path must pass the
      `required` rule, the document is looked up among the caller's own
      documents only, and its stored path must begin with the caller's
      directory as a plain string prefix (no separator is required after
      the id). A permitted delete removes the file and the record. */
  function Destroy(ds: DocStore, uid: nat, path: Option<string>): (r: DestroyOutcome)
    ensures r.Invalid? <==> !Laravel.Required(path)
    ensures r.NotFound? <==> (Laravel.Required(path)
      && forall i :: 0 <= i < |ds.docs| ==> !OwnDocumentAt(ds.docs[i], uid, path.value))
    ensures r.Unauthorized? ==> !StartsWith(path.value, UserBase(uid))
    ensures r.Deleted? ==> StartsWith(path.value, UserBase(uid))
    ensures r.Deleted? ==> exists k :: (0 <= k < |ds.docs| && OwnDocumentAt(ds.docs[k], uid, path.value)
      && (forall j :: 0 <= j < k ==> !OwnDocumentAt(ds.docs[j], uid, path.value))
      && r.ds == DocStore(ds.docs[..k] + ds.docs[k + 1..], ds.files - {path.value}, ds.nextId))
  {
    if !Laravel.Required(path) then Invalid
    else
      match FirstWhere(ds.docs, (d: Document) => OwnDocumentAt(d, uid, path.value), 0)
      case None => NotFound
      case Some(k) =>
        if !StartsWith(ds.docs[k].path, UserBase(uid)) then Unauthorized
        else Deleted(DocStore(ds.docs[..k] + ds.docs[k + 1..], ds.files - {ds.docs[k].path}, ds.nextId))
  }

  /** Every document lies under its owner's directory. */
  predicate Owned(ds: DocStore) {
    forall i :: 0 <= i < |ds.docs| ==> StartsWith(ds.docs[i].path, UserBase(ds.docs[i].userId))
  }

  /** Every recorded document has its file on the disk. */
  predicate PathsStored(ds: DocStore) {
    forall i :: 0 <= i < |ds.docs| ==> ds.docs[i].path in ds.files
  }

  /** An upload keeps every document under its owner's directory. */
  lemma StorePreservesOwned(ds: DocStore, uid: nat, file: Option<UploadedFile>, now: int)
    requires Owned(ds)
    ensures Store(ds, uid, file, now).Stored? ==> Owned(Store(ds, uid, file, now).ds)
  {
    var r := Store(ds, uid, file, now);
    if r.Stored? {
      StoredPathOwned(uid, file.value.clientExt, file.value.hashName);
      forall i | 0 <= i < |r.ds.docs| ensures StartsWith(r.ds.docs[i].path, UserBase(r.ds.docs[i].userId)) {
        if i < |ds.docs| {
          assert r.ds.docs[i] == ds.docs[i];
        }
      }
    }
  }

  /** A delete keeps every remaining document under its owner's
      directory. */
  lemma DestroyPreservesOwned(ds: DocStore, uid: nat, path: Option<string>)
    requires Owned(ds)
    ensures Destroy(ds, uid, path).Deleted? ==> Owned(Destroy(ds, uid, path).ds)
  {
    var d := Destroy(ds, uid, path);
    if d.Deleted? {
      var k :| 0 <= k < |ds.docs| && d.ds == DocStore(ds.docs[..k] + ds.docs[k + 1..], ds.files - {path.value}, ds.nextId);
      OwnedRemoveAt(ds, k, d.ds.files);
    }
  }

  /** Removing one record keeps the others under their owners'
      directories. */
  lemma OwnedRemoveAt(ds: DocStore, k: nat, files: set<string>)
    requires Owned(ds) && k < |ds.docs|
    ensures Owned(DocStore(ds.docs[..k] + ds.docs[k + 1..], files, ds.nextId))
  {
    var rest := ds.docs[..k] + ds.docs[k + 1..];
    forall i | 0 <= i < |rest| ensures StartsWith(rest[i].path, UserBase(rest[i].userId)) {
      if i < k {
        assert rest[i] == ds.docs[i];
      } else {
        assert rest[i] == ds.docs[i + 1];
      }
    }
  }

  /** On a store whose documents all lie under their owners' directories,
      a delete is never refused as unauthorised. */
  lemma OwnedNeverUnauthorized(ds: DocStore, uid: nat, path: Option<string>)
    requires Owned(ds)
    ensures !Destroy(ds, uid, path).Unauthorized?
  {
  }

  /** A stored path lies under its uploader's directory. */
  lemma StoredPathOwned(uid: nat, docType: string, hashName: string)
    ensures StartsWith(UserRagPath(uid, docType) + "/" + hashName, UserBase(uid))
  {
    var base, dir := UserBase(uid), UserRagPath(uid, docType);
    assert (dir + "/" + hashName)[..|base|] == dir[..|base|];
  }

  /** A stored path passes the `required` rule: it starts with 'r'. */
  lemma StoredPathRequired(uid: nat, docType: string, hashName: string)
    ensures Laravel.Required(Some(UserRagPath(uid, docType) + "/" + hashName))
  {
    var path := UserRagPath(uid, docType) + "/" + hashName;
    assert path[0] == 'r' by {
      assert path[..|UserBase(uid)|] == UserBase(uid);
      assert UserBase(uid)[0] == RagRoot[0];
    }
    assert !Php.IsTrimChar(path[0]);
    Laravel.RequiredIff(Some(path));
  }

  /** Deleting a freshly uploaded document by its path undoes the upload:
      the same records and files remain, only the id counter has moved. */
  lemma StoreThenDestroy(ds: DocStore, uid: nat, file: Option<UploadedFile>, now: int)
    requires Acceptable(file) && PathsStored(ds)
    requires UserRagPath(uid, file.value.clientExt) + "/" + file.value.hashName !in ds.files
    ensures var r := Store(ds, uid, file, now);
      Destroy(r.ds, uid, Some(r.doc.path)) == Deleted(DocStore(ds.docs, ds.files, ds.nextId + 1))
  {
    var r := Store(ds, uid, file, now);
    var path := r.doc.path;
    StoredPathRequired(uid, file.value.clientExt, file.value.hashName);
    var n := |ds.docs|;
    assert FirstWhere(r.ds.docs, (d: Document) => OwnDocumentAt(d, uid, path), 0) == Some(n) by {
      forall j | 0 <= j < n ensures !OwnDocumentAt(r.ds.docs[j], uid, path) {
        assert r.ds.docs[j] == ds.docs[j];
      }
      FirstWhereIs(r.ds.docs, (d: Document) => OwnDocumentAt(d, uid, path), 0, n);
    }
    StoredPathOwned(uid, file.value.clientExt, file.value.hashName);
    assert r.ds.docs[..n] + r.ds.docs[n + 1..] == ds.docs;
    assert r.ds.files - {path} == ds.files;
  }

  /** The prefix test carries no separator: for every user id u >= 1 and
      digit d, the directory of user 10u+d begins with the directory of
      user u, so user u's check alone would admit user 10u+d's files. Only
      the preceding lookup among u's own documents keeps this harmless. */
  lemma PrefixWithoutSeparator(u: nat, d: nat, docType: string)
    requires 1 <= u && d < 10
    ensures StartsWith(UserRagPath(10 * u + d, docType), UserBase(u))
    ensures UserBase(10 * u + d) != UserBase(u)
  {
    var v := 10 * u + d;
    assert v / 10 == u && v % 10 == d;
    assert NatToString(v) == NatToString(u) + [DigitChar(d)];
    assert UserBase(v) == UserBase(u) + [DigitChar(d)];
    assert |UserBase(v)| == |UserBase(u)| + 1;
  }
}
