/** Document upload and the organization-scoped document lookups. */
module DocumentController {
  import opened Wrappers
  import opened Records
  import opened Listing
  import opened Store

  /** The file the upload middleware stored (`req.file`). */
  datatype UploadedFile = UploadedFile(originalName: string, filename: string)

  /**
   * Upload: without a file the request is refused with 400 and nothing is
   * written; otherwise one DRAFT document owned by the caller's organization
   * is created, titled by the request (by the original file name when the
   * title is absent) and pointing at `/uploads/<filename>`, and exactly one
   * DOCUMENT_UPLOADED row is appended for it.
   */
  method UploadDocument(db: EntityStore, caller: Caller, file: Option<UploadedFile>, title: Option<string>, now: Millis)
    returns (r: Response<Id>)
    requires db.Valid()
    modifies db
    ensures db.Valid()
    ensures file.None? ==> r == Fail(400) && unchanged(db)
    ensures file.Some? ==>
              && r == Ok(old(db.nextId))
              && r.value !in old(db.documents)
              && db.nextId == old(db.nextId) + 1
              && db.documents == old(db.documents)[r.value := Document(
                                    if title.Some? then title.value else file.value.originalName,
                                    "/uploads/" + file.value.filename,
                                    DocumentStatus.Draft,
                                    caller.organizationId,
                                    now)]
              && db.audit == old(db.audit) + [Row(r.value, DocumentUploaded, User(caller.userId), now)]
              && unchanged(db`envelopes, db`signers, db`signatures, db`fields)
  {
    if file.None? {
      return Fail(400);
    }
    var upload := file.value;
    var name := if title.Some? then title.value else upload.originalName;
    var id := db.nextId;
    db.nextId := db.nextId + 1;
    db.documents := db.documents[id := Document(name, "/uploads/" + upload.filename, DocumentStatus.Draft, caller.organizationId, now)];
    db.audit := db.audit + [Row(id, DocumentUploaded, User(caller.userId), now)];
    r := Ok(id);
  }

  /** `getDocument`: a document is visible only within its own organization; otherwise 404. */
  function GetDocument(db: EntityStore, caller: Caller, id: Id): (r: Response<Document>)
    reads db
    ensures r.Ok? <==> id in db.documents && db.documents[id].organizationId == caller.organizationId
    ensures r.Ok? ==> r.value == db.documents[id]
    ensures r.Fail? ==> r.status == 404
  {
    if id in db.documents && db.documents[id].organizationId == caller.organizationId then Ok(db.documents[id])
    else Fail(404)
  }

  /** An envelope of a listed document, with its `signers` included. */
  datatype IncludedRequest = IncludedRequest(id: Id, envelope: Envelope, signers: seq<(Id, Signer)>)

  /** A listed document with its `signingRequests` included. */
  datatype ListedDocument = ListedDocument(id: Id, document: Document, signingRequests: seq<IncludedRequest>)

  datatype DocumentList = DocumentList(count: nat, documents: seq<ListedDocument>)

  function CreatedAt(p: (Id, Document)): Millis {
    p.1.createdAt
  }

  /** The `(id, document)` rows of a listing, in its order. */
  function Heads(documents: seq<ListedDocument>): (r: seq<(Id, Document)>)
    ensures |r| == |documents|
    ensures forall i :: 0 <= i < |r| ==> r[i] == (documents[i].id, documents[i].document)
  {
    seq(|documents|, i requires 0 <= i < |documents| => (documents[i].id, documents[i].document))
  }

  /** `include: { signers: true }`: the signers of envelope `envelopeId`, each once. */
  function SignersOf(db: EntityStore, envelopeId: Id): (r: seq<(Id, Signer)>)
    reads db
    requires db.IdsIssued()
    ensures forall p :: p in r <==> p.0 in db.signers && db.signers[p.0] == p.1 && p.1.envelopeId == envelopeId
    ensures forall p :: multiset(r)[p] <= 1
  {
    RowsWhere(db.signers, db.nextId, (p: (Id, Signer)) => p.1.envelopeId == envelopeId)
  }

  /** Each envelope row with its signers, in the order given. */
  function WithSigners(db: EntityStore, rows: seq<(Id, Envelope)>): (r: seq<IncludedRequest>)
    reads db
    requires db.IdsIssued()
    ensures |r| == |rows|
    ensures forall i :: 0 <= i < |r| ==> r[i] == IncludedRequest(rows[i].0, rows[i].1, SignersOf(db, rows[i].0))
  {
    if rows == [] then []
    else [IncludedRequest(rows[0].0, rows[0].1, SignersOf(db, rows[0].0))] + WithSigners(db, rows[1..])
  }

  /** An entry is in `WithSigners(db, rows)` exactly when its row is in `rows` and it carries that envelope's signers. */
  lemma WithSignersMembers(db: EntityStore, rows: seq<(Id, Envelope)>)
    requires db.IdsIssued()
    ensures forall e :: e in WithSigners(db, rows) <==> (e.id, e.envelope) in rows && e.signers == SignersOf(db, e.id)
  {
    var r := WithSigners(db, rows);
    forall e: IncludedRequest | e in r
      ensures (e.id, e.envelope) in rows && e.signers == SignersOf(db, e.id)
    {
      var i :| 0 <= i < |r| && r[i] == e;
      assert rows[i] == (e.id, e.envelope);
    }
    forall e: IncludedRequest | (e.id, e.envelope) in rows && e.signers == SignersOf(db, e.id)
      ensures e in r
    {
      var i :| 0 <= i < |rows| && rows[i] == (e.id, e.envelope);
      assert r[i] == e;
    }
  }

  /**
   * `include: { signingRequests: { include: { signers: true } } }` for document
   * `documentId`: exactly the document's envelopes, each with exactly its
   * signers.
   */
  function IncludedRequests(db: EntityStore, documentId: Id): (r: seq<IncludedRequest>)
    reads db
    requires db.IdsIssued()
    ensures forall e :: e in r <==> && e.id in db.envelopes && db.envelopes[e.id] == e.envelope
                                    && e.envelope.documentId == documentId && e.signers == SignersOf(db, e.id)
  {
    var rows := RowsWhere(db.envelopes, db.nextId, (p: (Id, Envelope)) => p.1.documentId == documentId);
    var r := WithSigners(db, rows);
    WithSignersMembers(db, rows);
    r
  }

  /** Each listed document with its included envelopes, in the order given. */
  function WithRequests(db: EntityStore, rows: seq<(Id, Document)>): (r: seq<ListedDocument>)
    reads db
    requires db.IdsIssued()
    ensures Heads(r) == rows
    ensures forall d :: d in r ==> d.signingRequests == IncludedRequests(db, d.id)
  {
    if rows == [] then []
    else
      var rest := WithRequests(db, rows[1..]);
      var r := [ListedDocument(rows[0].0, rows[0].1, IncludedRequests(db, rows[0].0))] + rest;
      assert Heads(r) == [rows[0]] + Heads(rest);
      r
  }

  /**
   * `getAllDocuments`: 403 unless the caller's role is ADMIN; otherwise every
   * document of the caller's organization, each once, newest first, each
   * with its envelopes and their signers, and a count equal to the length
   * of the list.
   */
  function GetAllDocuments(db: EntityStore, caller: Caller): (r: Response<DocumentList>)
    reads db
    requires db.IdsIssued()
    ensures r.Fail? <==> caller.role != "ADMIN"
    ensures r.Fail? ==> r.status == 403
    ensures r.Ok? ==> r.value.count == |r.value.documents|
    ensures r.Ok? ==> forall p :: p in Heads(r.value.documents) <==>
                        p.0 in db.documents && db.documents[p.0] == p.1 && p.1.organizationId == caller.organizationId
    ensures r.Ok? ==> forall p :: multiset(Heads(r.value.documents))[p] <= 1
    ensures r.Ok? ==> NewestFirst(Heads(r.value.documents), CreatedAt)
    ensures r.Ok? ==> forall d :: d in r.value.documents ==> d.signingRequests == IncludedRequests(db, d.id)
  {
    if caller.role != "ADMIN" then Fail(403)
    else
      var owned := RowsWhere(db.documents, db.nextId, (p: (Id, Document)) => p.1.organizationId == caller.organizationId);
      var listed := SortNewestFirst(owned, CreatedAt);
      assert forall p :: p in listed <==> p in multiset(owned);
      var documents := WithRequests(db, listed);
      Ok(DocumentList(|documents|, documents))
  }
}
