/**
 * Envelope (signing request) handlers: create, send, read, resend an
 * invitation and revoke. Each request is one atomic step on the store.
 */
module EnvelopeController {
  import opened Wrappers
  import opened Records
  import opened Text
  import opened Listing
  import opened Lifecycle
  import opened Store

  /** One element of the request's `signers` array. */
  datatype SignerInput = SignerInput(name: Option<string>, email: Option<string>)

  /** The signer row created for one input: PENDING, `name || "Unknown"`, e-mail lower-cased. */
  function NewSigner(envelopeId: Id, s: SignerInput): (r: Signer)
    ensures r.envelopeId == envelopeId && r.status.Pending? && r.signatureType.None?
    ensures r.name == if s.name.None? || s.name.value == "" then "Unknown" else s.name.value
    ensures r.email.Some? <==> s.email.Some?
    ensures r.email.Some? ==> |r.email.value| == |s.email.value|
                              && forall i :: 0 <= i < |r.email.value| ==> !('A' <= r.email.value[i] <= 'Z')
  {
    Signer(envelopeId,
           if s.name.None? || s.name.value == "" then "Unknown" else s.name.value,
           if s.email.Some? then Some(Lower(s.email.value)) else None,
           SignerStatus.Pending,
           None)
  }

  /** The signer rows of a new envelope, on the consecutive fresh ids from `first`, in input order. */
  function NewSigners(envelopeId: Id, inputs: seq<SignerInput>, first: Id): (r: map<Id, Signer>)
    ensures forall k :: k in r <==> first <= k < first + |inputs|
    ensures forall k :: k in r ==> r[k] == NewSigner(envelopeId, inputs[k - first])
  {
    Numbered(seq(|inputs|, i requires 0 <= i < |inputs| => NewSigner(envelopeId, inputs[i])), first)
  }

  /**
   * `expiresAt ? new Date(expiresAt) : null`: a zero expiry is never stored,
   * the stored expiry is the requested one or null, and every non-zero
   * requested expiry is kept.
   */
  function StoredExpiry(expiresAt: Option<Millis>): (r: Option<Millis>)
    ensures r != Some(0) && (r.None? || r == expiresAt)
    ensures expiresAt.Some? && expiresAt.value != 0 ==> r == expiresAt
  {
    if expiresAt.Some? && expiresAt.value != 0 then expiresAt else None
  }

  predicate OwnsDocument(db: EntityStore, caller: Caller, documentId: Id)
    reads db
  {
    documentId in db.documents && db.documents[documentId].organizationId == caller.organizationId
  }

  /**
   * `createEnvelope`: 404 when the document is missing or owned by another
   * organization (checked first), 400 when `signers` is absent, not an array
   * or empty; in both cases nothing is written. Otherwise one PENDING envelope
   * with one PENDING signer per input is created, the document keeps its
   * status, and exactly one ENVELOPE_CREATED row is appended.
   */
  method CreateEnvelope(db: EntityStore, caller: Caller, documentId: Id, signers: Option<seq<SignerInput>>,
                        expiresAt: Option<Millis>, now: Millis)
    returns (r: Response<Id>)
    requires db.Valid()
    modifies db
    ensures db.Valid()
    ensures !old(OwnsDocument(db, caller, documentId)) ==> r == Fail(404) && unchanged(db)
    ensures old(OwnsDocument(db, caller, documentId)) && (signers.None? || signers.value == []) ==>
              r == Fail(400) && unchanged(db)
    ensures r.Ok? <==> old(OwnsDocument(db, caller, documentId)) && signers.Some? && signers.value != []
    ensures r.Ok? ==>
              && r.value == old(db.nextId)
              && db.nextId == old(db.nextId) + 1 + |signers.value|
              && db.envelopes == old(db.envelopes)[r.value := Envelope(documentId, EnvelopeStatus.Pending,
                                                                          StoredExpiry(expiresAt), now, now)]
              && db.audit == old(db.audit) + [Row(documentId, EnvelopeCreated, User(caller.userId), now)]
              && unchanged(db`documents, db`signatures, db`fields)
    ensures r.Ok? ==> db.signers == old(db.signers) + NewSigners(old(db.nextId), signers.value, old(db.nextId) + 1)
    ensures r.Ok? ==> r.value !in old(db.envelopes)
                      && forall k :: k in db.signers && db.signers[k].envelopeId == r.value ==>
                                       k !in old(db.signers) && db.signers[k].status.Pending?
  {
    if !OwnsDocument(db, caller, documentId) {
      return Fail(404);
    }
    if signers.None? || signers.value == [] {
      return Fail(400);
    }
    var id := AddEnvelope(db, caller, documentId, signers.value, StoredExpiry(expiresAt), now);
    r := Ok(id);
  }

  /** The writes of a successful `createEnvelope`: the envelope, its signers and the audit row. */
  method AddEnvelope(db: EntityStore, caller: Caller, documentId: Id, signers: seq<SignerInput>,
                     expiresAt: Option<Millis>, now: Millis)
    returns (id: Id)
    requires db.Valid()
    modifies db
    ensures db.Valid()
    ensures id == old(db.nextId)
    ensures db.nextId == old(db.nextId) + 1 + |signers|
    ensures db.envelopes == old(db.envelopes)[id := Envelope(documentId, EnvelopeStatus.Pending, expiresAt, now, now)]
    ensures db.signers == old(db.signers) + NewSigners(id, signers, id + 1)
    ensures db.audit == old(db.audit) + [Row(documentId, EnvelopeCreated, User(caller.userId), now)]
    ensures unchanged(db`documents, db`signatures, db`fields)
  {
    id := db.nextId;
    var created := NewSigners(id, signers, id + 1);
    var envelopes := db.envelopes[id := Envelope(documentId, EnvelopeStatus.Pending, expiresAt, now, now)];
    var all := db.signers + created;
    db.envelopes := envelopes;
    db.signers := all;
    db.nextId := id + 1 + |signers|;
    db.audit := db.audit + [Row(documentId, EnvelopeCreated, User(caller.userId), now)];
    assert db.IdsIssued();
    assert db.NothingExpired();
    assert db.SignersHaveEnvelopes();
    assert db.OneSignaturePerSigner();
    assert db.FieldsHaveSigners();
  }

  /**
   * `sendEnvelope`: 404 unless the envelope belongs to the caller's
   * organization, 400 unless it is PENDING (nothing written); otherwise the
   * document becomes SENT, the envelope IN_PROGRESS, and exactly one
   * ENVELOPE_SENT row is appended.
   */
  method SendEnvelope(db: EntityStore, caller: Caller, id: Id, now: Millis) returns (r: Response<EnvelopeStatus>)
    requires db.Valid()
    modifies db
    ensures db.Valid()
    ensures !old(db.EnvelopeInOrganization(id, caller.organizationId)) ==> r == Fail(404) && unchanged(db)
    ensures old(db.EnvelopeInOrganization(id, caller.organizationId)) && !old(db.envelopes[id].status.Pending?) ==>
              r == Fail(400) && unchanged(db)
    ensures old(db.EnvelopeInOrganization(id, caller.organizationId)) && old(db.envelopes[id].status.Pending?) ==>
              var e := old(db.envelopes[id]);
              && r == Ok(EnvelopeStatus.InProgress)
              && db.envelopes == old(db.envelopes)[id := e.(status := EnvelopeStatus.InProgress, updatedAt := now)]
              && db.documents == old(db.documents)[e.documentId := old(db.documents[e.documentId]).(status := DocumentStatus.Sent)]
              && db.audit == old(db.audit) + [Row(e.documentId, EnvelopeSent, User(caller.userId), now)]
              && unchanged(db`signers, db`signatures, db`fields, db`nextId)
  {
    if !db.EnvelopeInOrganization(id, caller.organizationId) {
      return Fail(404);
    }
    var e := db.envelopes[id];
    if !e.status.Pending? {
      return Fail(400);
    }
    db.documents := db.documents[e.documentId := db.documents[e.documentId].(status := DocumentStatus.Sent)];
    db.envelopes := db.envelopes[id := e.(status := EnvelopeStatus.InProgress, updatedAt := now)];
    db.audit := db.audit + [Row(e.documentId, EnvelopeSent, User(caller.userId), now)];
    r := Ok(EnvelopeStatus.InProgress);
  }

  datatype EnvelopeView = EnvelopeView(envelope: Envelope, document: Document, signers: seq<(Id, Signer)>,
                                       auditLogs: seq<AuditEntry>)

  function AuditCreatedAt(a: AuditEntry): Millis {
    a.createdAt
  }

  /**
   * `getEnvelope`: 404 for an unknown envelope or one whose document belongs
   * to another organization (a missing document makes the ownership test
   * throw: 500). Otherwise the envelope with its document, its signers and
   * exactly the document's audit rows, newest first.
   */
  function GetEnvelope(db: EntityStore, caller: Caller, id: Id): (r: Response<EnvelopeView>)
    reads db
    requires db.IdsIssued()
    ensures id !in db.envelopes ==> r == Fail(404)
    ensures id in db.envelopes && db.envelopes[id].documentId !in db.documents ==> r == Fail(500)
    ensures r.Ok? <==> db.EnvelopeInOrganization(id, caller.organizationId)
    ensures r.Fail? ==> r.status in {404, 500}
    ensures r.Ok? ==>
              var e := db.envelopes[id];
              && r.value.envelope == e
              && r.value.document == db.documents[e.documentId]
              && (forall p :: p in r.value.signers <==> p.0 in db.signers && db.signers[p.0] == p.1 && p.1.envelopeId == id)
              && (forall a :: multiset(r.value.auditLogs)[a] == if a.documentId == e.documentId then multiset(db.audit)[a] else 0)
              && NewestFirst(r.value.auditLogs, AuditCreatedAt)
  {
    if id !in db.envelopes then Fail(404)
    else
      var e := db.envelopes[id];
      if e.documentId !in db.documents then Fail(500)
      else if db.documents[e.documentId].organizationId != caller.organizationId then Fail(404)
      else
        var signers := RowsWhere(db.signers, db.nextId, (p: (Id, Signer)) => p.1.envelopeId == id);
        var trail := Where(db.audit, (a: AuditEntry) => a.documentId == e.documentId);
        Ok(EnvelopeView(e, db.documents[e.documentId], signers, SortNewestFirst(trail, AuditCreatedAt)))
  }

  /**
   * `resendInvitation` (envelope routes): 404 unless the signer belongs to the
   * caller's organization, 400 unless the signer is PENDING; otherwise no
   * status changes and exactly one INVITATION_RESENT row naming the signer.
   */
  method ResendInvitation(db: EntityStore, caller: Caller, signerId: Id, now: Millis) returns (r: Response<Option<string>>)
    requires db.Valid()
    modifies db
    ensures db.Valid()
    ensures !old(db.SignerInOrganization(signerId, caller.organizationId)) ==> r == Fail(404) && unchanged(db)
    ensures old(db.SignerInOrganization(signerId, caller.organizationId)) && !old(db.signers[signerId].status.Pending?) ==>
              r == Fail(400) && unchanged(db)
    ensures old(db.SignerInOrganization(signerId, caller.organizationId)) && old(db.signers[signerId].status.Pending?) ==>
              var s := old(db.signers[signerId]);
              && r == Ok(s.email)
              && db.audit == old(db.audit) + [Row(old(db.envelopes[s.envelopeId].documentId), InvitationResent, System("System"), now)
                                                .(signerId := Some(signerId))]
              && unchanged(db`documents, db`envelopes, db`signers, db`signatures, db`fields, db`nextId)
  {
    if !db.SignerInOrganization(signerId, caller.organizationId) {
      return Fail(404);
    }
    var s := db.signers[signerId];
    if !s.status.Pending? {
      return Fail(400);
    }
    var documentId := db.envelopes[s.envelopeId].documentId;
    db.audit := db.audit + [Row(documentId, InvitationResent, System("System"), now).(signerId := Some(signerId))];
    r := Ok(s.email);
  }

  /** The revoke guard: COMPLETED, REVOKED and EXPIRED envelopes cannot be revoked; every other status can. */
  predicate Revocable(status: EnvelopeStatus) {
    !(status.Completed? || status.Revoked? || status.Expired?)
  }

  /**
   * `req.body.reason || "No reason provided"`: the recorded reason is never
   * empty, and a non-empty reason from the request is recorded as given.
   */
  function RevocationReason(reason: Option<string>): (r: string)
    ensures r != []
    ensures reason.Some? && reason.value != [] ==> r == reason.value
    ensures r == "No reason provided" || (reason.Some? && r == reason.value)
  {
    if reason.None? || reason.value == "" then "No reason provided" else reason.value
  }

  /**
   * `revokeEnvelope`: 404 unless the envelope belongs to the caller's
   * organization, 400 when it is COMPLETED, REVOKED or EXPIRED; otherwise the
   * envelope, its document and every signer of the envelope (signed ones
   * included) become REVOKED and one ENVELOPE_REVOKED row with the reason is
   * appended.
   */
  method RevokeEnvelope(db: EntityStore, caller: Caller, id: Id, reason: Option<string>, now: Millis)
    returns (r: Response<EnvelopeStatus>)
    requires db.Valid()
    modifies db
    ensures db.Valid()
    ensures !old(db.EnvelopeInOrganization(id, caller.organizationId)) ==> r == Fail(404) && unchanged(db)
    ensures old(db.EnvelopeInOrganization(id, caller.organizationId)) && !Revocable(old(db.envelopes[id].status)) ==>
              r == Fail(400) && unchanged(db)
    ensures old(db.EnvelopeInOrganization(id, caller.organizationId)) && Revocable(old(db.envelopes[id].status)) ==>
              var e := old(db.envelopes[id]);
              && r == Ok(EnvelopeStatus.Revoked)
              && db.envelopes == old(db.envelopes)[id := e.(status := EnvelopeStatus.Revoked, updatedAt := now)]
              && db.documents == old(db.documents)[e.documentId := old(db.documents[e.documentId]).(status := DocumentStatus.Revoked)]
              && db.signers == RevokeSignersOf(old(db.signers), {id})
              && db.audit == old(db.audit) + [Row(e.documentId, EnvelopeRevoked, User(caller.userId), now)
                                                .(envelopeId := Some(id), reason := Some(RevocationReason(reason)))]
              && unchanged(db`signatures, db`fields, db`nextId)
  {
    if !db.EnvelopeInOrganization(id, caller.organizationId) {
      return Fail(404);
    }
    var e := db.envelopes[id];
    if !Revocable(e.status) {
      return Fail(400);
    }
    db.envelopes := db.envelopes[id := e.(status := EnvelopeStatus.Revoked, updatedAt := now)];
    db.documents := db.documents[e.documentId := db.documents[e.documentId].(status := DocumentStatus.Revoked)];
    db.signers := RevokeSignersOf(db.signers, {id});
    db.audit := db.audit + [Row(e.documentId, EnvelopeRevoked, User(caller.userId), now)
                              .(envelopeId := Some(id), reason := Some(RevocationReason(reason)))];
    r := Ok(EnvelopeStatus.Revoked);
  }
}
