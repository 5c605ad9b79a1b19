/**
 * The entity store every controller and job acts on: one table per record
 * kind, the append-only audit log, and the counter that stands for the
 * database's generation of fresh record ids.
 */
module Store {
  import opened Wrappers
  import opened Records

  class EntityStore {
    var documents: map<Id, Document>
    var envelopes: map<Id, Envelope>
    var signers: map<Id, Signer>
    var signatures: map<Id, Signature>
    var fields: map<Id, SignatureField>
    var audit: seq<AuditEntry>
    var nextId: Id

    /** Every id in use was issued by the counter, so `nextId` is always fresh. */
    ghost predicate IdsIssued()
      reads this
    {
      && (forall k :: k in documents ==> k < nextId)
      && (forall k :: k in envelopes ==> k < nextId)
      && (forall k :: k in signers ==> k < nextId)
      && (forall k :: k in signatures ==> k < nextId)
      && (forall k :: k in fields ==> k < nextId)
    }

    /** No operation writes the EXPIRED envelope status. */
    ghost predicate NothingExpired()
      reads this
    {
      forall k :: k in envelopes ==> !envelopes[k].status.Expired?
    }

    /**
     * Signing is one-shot: every signature belongs to an existing signer who
     * has left PENDING, and no signer has two signatures.
     */
    ghost predicate OneSignaturePerSigner()
      reads this
    {
      && (forall k :: k in signatures ==>
            signatures[k].signerId in signers && !signers[signatures[k].signerId].status.Pending?)
      && (forall k, l :: k in signatures && l in signatures && signatures[k].signerId == signatures[l].signerId ==> k == l)
    }

    /** Signers are created together with their envelope and neither is ever deleted. */
    ghost predicate SignersHaveEnvelopes()
      reads this
    {
      forall k :: k in signers ==> signers[k].envelopeId in envelopes
    }

    /** Every signature field was created for a signer that exists. */
    ghost predicate FieldsHaveSigners()
      reads this
    {
      forall k :: k in fields ==> fields[k].signerId in signers
    }

    ghost predicate Valid()
      reads this
    {
      IdsIssued() && NothingExpired() && SignersHaveEnvelopes() && OneSignaturePerSigner() && FieldsHaveSigners()
    }

    constructor ()
      ensures Valid()
      ensures documents == map[] && envelopes == map[] && signers == map[]
      ensures signatures == map[] && fields == map[] && audit == [] && nextId == 0
    {
      documents, envelopes, signers := map[], map[], map[];
      signatures, fields, audit, nextId := map[], map[], [], 0;
    }

    /** `findFirst({ where: { id, document: { organizationId } } })` on envelopes finds a row. */
    predicate EnvelopeInOrganization(id: Id, organizationId: Id)
      reads this
    {
      && id in envelopes
      && envelopes[id].documentId in documents
      && documents[envelopes[id].documentId].organizationId == organizationId
    }

    /** The signer lookup filtered by `signingRequest: { document: { organizationId } }` finds a row. */
    predicate SignerInOrganization(id: Id, organizationId: Id)
      reads this
    {
      id in signers && EnvelopeInOrganization(signers[id].envelopeId, organizationId)
    }
  }
}
