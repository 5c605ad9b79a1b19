/**
 * The pure part of the envelope lifecycle: the status aggregation run inside
 * the signing transaction, the bulk status rewrites (`updateMany`) shared by
 * revocation and the sweeps, and the selections of the two background jobs.
 */
module Lifecycle {
  import opened Wrappers
  import opened Records

  /** `allSigners.every(s => s.status === "SIGNED")` over the signers of one envelope. */
  predicate AllSigned(signers: map<Id, Signer>, envelopeId: Id) {
    forall k :: k in signers && signers[k].envelopeId == envelopeId ==> signers[k].status.Signed?
  }

  /** `allSigners.some(s => s.status === "DECLINED")` over the signers of one envelope. */
  predicate AnyDeclined(signers: map<Id, Signer>, envelopeId: Id) {
    exists k :: k in signers && signers[k].envelopeId == envelopeId && signers[k].status.Declined?
  }

  /** What the signing transaction does to the envelope (and document) after the signer update. */
  datatype Aggregate = CompleteBoth | DeclineEnvelope | KeepStatus

  function Recompute(signers: map<Id, Signer>, envelopeId: Id): Aggregate {
    if AllSigned(signers, envelopeId) then CompleteBoth
    else if AnyDeclined(signers, envelopeId) then DeclineEnvelope
    else KeepStatus
  }

  /** The signer table after `signerId` signs with `signatureType`. */
  function SignedBy(signers: map<Id, Signer>, signerId: Id, signatureType: string): (r: map<Id, Signer>)
    requires signerId in signers
  {
    signers[signerId := signers[signerId].(status := SignerStatus.Signed, signatureType := Some(signatureType))]
  }

  /**
   * The outcome of a signature, in terms of the table before it: the envelope
   * completes exactly when every other signer of the envelope has signed, it is
   * set DECLINED exactly when some signer of it has declined, and otherwise it
   * keeps its status.
   */
  lemma SignOutcome(signers: map<Id, Signer>, signerId: Id, signatureType: string)
    requires signerId in signers && signers[signerId].status.Pending?
    ensures Recompute(SignedBy(signers, signerId, signatureType), signers[signerId].envelopeId) == CompleteBoth
            <==> forall k :: k in signers && k != signerId && signers[k].envelopeId == signers[signerId].envelopeId
                             ==> signers[k].status.Signed?
    ensures Recompute(SignedBy(signers, signerId, signatureType), signers[signerId].envelopeId) == DeclineEnvelope
            <==> exists k :: k in signers && signers[k].envelopeId == signers[signerId].envelopeId && signers[k].status.Declined?
  {
    var envelopeId := signers[signerId].envelopeId;
    var after := SignedBy(signers, signerId, signatureType);
    var othersSigned := forall k :: k in signers && k != signerId && signers[k].envelopeId == envelopeId ==> signers[k].status.Signed?;
    var someDeclined := exists k :: k in signers && signers[k].envelopeId == envelopeId && signers[k].status.Declined?;
    if someDeclined {
      var k :| k in signers && signers[k].envelopeId == envelopeId && signers[k].status.Declined?;
      assert k != signerId && k in after && after[k] == signers[k];
      assert !AllSigned(after, envelopeId) && AnyDeclined(after, envelopeId);
    }
    if othersSigned {
      forall k | k in after && after[k].envelopeId == envelopeId
        ensures after[k].status.Signed?
      {
        if k != signerId {
          assert after[k] == signers[k];
        }
      }
      assert AllSigned(after, envelopeId);
    } else {
      var k :| k in signers && k != signerId && signers[k].envelopeId == envelopeId && !signers[k].status.Signed?;
      assert after[k] == signers[k];
      assert !AllSigned(after, envelopeId);
    }
  }

  /** `signer.updateMany({ where: { signingRequestId in envelopeIds }, data: { status: "REVOKED" } })`. */
  function RevokeSignersOf(signers: map<Id, Signer>, envelopeIds: set<Id>): (r: map<Id, Signer>)
    ensures r.Keys == signers.Keys
    ensures forall k :: k in signers ==>
              r[k] == if signers[k].envelopeId in envelopeIds then signers[k].(status := SignerStatus.Revoked) else signers[k]
  {
    map k | k in signers :: if signers[k].envelopeId in envelopeIds then signers[k].(status := SignerStatus.Revoked) else signers[k]
  }

  /** The envelopes `ids` rewritten to `status` at time `now` (which refreshes `updatedAt`). */
  function SetEnvelopes(envelopes: map<Id, Envelope>, ids: set<Id>, status: EnvelopeStatus, now: Millis): (r: map<Id, Envelope>)
    ensures r.Keys == envelopes.Keys
    ensures forall k :: k in envelopes ==>
              r[k] == if k in ids then envelopes[k].(status := status, updatedAt := now) else envelopes[k]
  {
    map k | k in envelopes :: if k in ids then envelopes[k].(status := status, updatedAt := now) else envelopes[k]
  }

  /** The documents `ids` rewritten to `status`. */
  function SetDocuments(documents: map<Id, Document>, ids: set<Id>, status: DocumentStatus): (r: map<Id, Document>)
    ensures r.Keys == documents.Keys
    ensures forall k :: k in documents ==>
              r[k] == if k in ids then documents[k].(status := status) else documents[k]
  {
    map k | k in documents :: if k in ids then documents[k].(status := status) else documents[k]
  }

  /** The documents the envelopes `ids` belong to. */
  function DocumentsOf(envelopes: map<Id, Envelope>, ids: set<Id>): (r: set<Id>)
    ensures forall d :: d in r <==> exists k :: k in ids && k in envelopes && envelopes[k].documentId == d
  {
    set k | k in ids && k in envelopes :: envelopes[k].documentId
  }

  /** Adding one envelope to the rewritten set is one more single-row update. */
  lemma SetEnvelopesStep(envelopes: map<Id, Envelope>, done: set<Id>, id: Id, status: EnvelopeStatus, now: Millis)
    requires id in envelopes
    ensures SetEnvelopes(envelopes, done + {id}, status, now)
         == SetEnvelopes(envelopes, done, status, now)[id := envelopes[id].(status := status, updatedAt := now)]
  {
  }

  lemma RevokeSignersStep(signers: map<Id, Signer>, done: set<Id>, id: Id)
    ensures RevokeSignersOf(signers, done + {id}) == RevokeSignersOf(RevokeSignersOf(signers, done), {id})
  {
  }

  lemma SetDocumentsStep(documents: map<Id, Document>, envelopes: map<Id, Envelope>, done: set<Id>, id: Id, status: DocumentStatus)
    requires id in envelopes && envelopes[id].documentId in documents
    ensures var d := envelopes[id].documentId;
              SetDocuments(documents, DocumentsOf(envelopes, done + {id}), status)
              == SetDocuments(documents, DocumentsOf(envelopes, done), status)[d := documents[d].(status := status)]
  {
    assert DocumentsOf(envelopes, done + {id}) == DocumentsOf(envelopes, done) + {envelopes[id].documentId};
  }

  /** The expiry sweep's `where`: `expiresAt <= now` and status PENDING or IN_PROGRESS. */
  predicate DueForRevocation(e: Envelope, now: Millis) {
    e.expiresAt.Some? && e.expiresAt.value <= now && (e.status.Pending? || e.status.InProgress?)
  }

  function ExpiredSelection(envelopes: map<Id, Envelope>, now: Millis): set<Id> {
    set k | k in envelopes && DueForRevocation(envelopes[k], now)
  }

  /** The retention window of the archival sweep: seven days. */
  const RetentionMillis: int := 7 * 24 * 60 * 60 * 1000

  /** The archival sweep's `where`: COMPLETED and `updatedAt` strictly before `now` minus the window. */
  predicate DueForArchive(e: Envelope, now: Millis) {
    e.status.Completed? && e.updatedAt < now - RetentionMillis
  }

  function ArchiveSelection(envelopes: map<Id, Envelope>, now: Millis): set<Id> {
    set k | k in envelopes && DueForArchive(envelopes[k], now)
  }

  /**
   * Revoking what the expiry sweep selects leaves nothing for it to select at
   * the same `now`: its second run is a no-op.
   */
  lemma RevocationEmptiesSelection(envelopes: map<Id, Envelope>, done: set<Id>, now: Millis)
    requires ExpiredSelection(envelopes, now) <= done
    ensures ExpiredSelection(SetEnvelopes(envelopes, done, EnvelopeStatus.Revoked, now), now) == {}
  {
    var after := SetEnvelopes(envelopes, done, EnvelopeStatus.Revoked, now);
    forall k | k in after
      ensures !DueForRevocation(after[k], now)
    {
      if k !in done {
        assert k !in ExpiredSelection(envelopes, now);
      }
    }
  }

  /** Archiving envelopes removes exactly them from the archival selection. */
  lemma ArchivingShrinksSelection(envelopes: map<Id, Envelope>, done: set<Id>, now: Millis)
    ensures ArchiveSelection(SetEnvelopes(envelopes, done, EnvelopeStatus.Archived, now), now)
         == ArchiveSelection(envelopes, now) - done
  {
  }
}
