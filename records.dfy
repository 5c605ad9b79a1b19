/**
 * The records of the entity store: documents, envelopes (signing requests),
 * signers, signatures, signature fields and audit-log rows, with the closed
 * status values the controllers and jobs write.
 */
module Records {
  import opened Wrappers

  /** Record identities; the store hands out fresh ones from a counter. */
  type Id = nat

  /** Timestamps in integer milliseconds (JavaScript `Date` values). */
  type Millis = int

  datatype DocumentStatus = Draft | Sent | Completed | Revoked | Archived

  /** Envelope statuses; `Expired` is named by the revoke guard but never written. */
  datatype EnvelopeStatus = Pending | InProgress | Completed | Declined | Revoked | Expired | Archived

  datatype SignerStatus = Pending | Signed | Declined | Revoked

  datatype Document = Document(
    title: string,
    fileUrl: string,
    status: DocumentStatus,
    organizationId: Id,
    createdAt: Millis)

  /** A signing request; `updatedAt` is refreshed by every write to the row. */
  datatype Envelope = Envelope(
    documentId: Id,
    status: EnvelopeStatus,
    expiresAt: Option<Millis>,
    createdAt: Millis,
    updatedAt: Millis)

  datatype Signer = Signer(
    envelopeId: Id,
    name: string,
    email: Option<string>,
    status: SignerStatus,
    signatureType: Option<string>)

  /** A signature row; `fileUrl` is the signed artifact produced before the transaction. */
  datatype Signature = Signature(signerId: Id, fileUrl: string)

  datatype SignatureField = SignatureField(
    signerId: Id,
    pageNumber: int,
    x: int,
    y: int,
    width: int,
    height: int,
    kind: string)

  datatype AuditAction =
    | DocumentUploaded
    | EnvelopeCreated
    | EnvelopeSent
    | InvitationResent
    | EnvelopeRevoked
    | DocumentSigned
    | EnvelopeAutoRevoked
    | DocumentArchived

  /** Who an audit row names in `performedBy`. */
  datatype Actor = User(userId: Id) | SignerEmail(email: Option<string>) | System(name: string)

  /**
   * An audit-log row. `envelopeId`, `signerId` and `reason` carry the parts
   * of the row's details (or its envelope column) that the writers set.
   */
  datatype AuditEntry = AuditEntry(
    documentId: Id,
    action: AuditAction,
    performedBy: Actor,
    envelopeId: Option<Id>,
    signerId: Option<Id>,
    reason: Option<string>,
    createdAt: Millis)

  /** An audit row with no details. */
  function Row(documentId: Id, action: AuditAction, performedBy: Actor, now: Millis): AuditEntry {
    AuditEntry(documentId, action, performedBy, None, None, None, now)
  }

  /** The authenticated caller (`req.user`). */
  datatype Caller = Caller(organizationId: Id, userId: Id, role: string)

  /**
   * The signing token of a signer request: absent, rejected by verification,
   * or verified with the signer id its payload names.
   */
  datatype Token = NoToken | BadToken | TokenFor(signerId: Id)
}
