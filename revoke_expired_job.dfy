/**
 * The expiry sweep: every envelope whose `expiresAt` has passed while it is
 * still PENDING or IN_PROGRESS is revoked together with its document and
 * signers, one transaction per envelope.
 */
module RevokeExpiredJob {
  import opened Wrappers
  import opened Records
  import opened Listing
  import opened Lifecycle
  import opened Store

  const AutoRevokeReason: string := "Envelope expired automatically"

  /** The ENVELOPE_AUTO_REVOKED row written for envelope `id`. */
  function AutoRevokedRow(envelopes: map<Id, Envelope>, id: Id, now: Millis): AuditEntry
    requires id in envelopes
  {
    Row(envelopes[id].documentId, EnvelopeAutoRevoked, System("System"), now)
      .(envelopeId := Some(id), reason := Some(AutoRevokeReason))
  }

  /** The `findMany` of the sweep: each selected envelope once, in ascending id order. */
  method ExpiredQueue(db: EntityStore, now: Millis) returns (queue: seq<Id>)
    requires db.IdsIssued()
    ensures forall k :: k in queue <==> k in db.envelopes && DueForRevocation(db.envelopes[k], now)
    ensures Distinct(queue)
  {
    queue := KeysWhere(db.envelopes, db.nextId, (e: Envelope) => DueForRevocation(e, now));
    AscendingDistinct(queue);
  }

  /**
   * `revokeExpiredEnvelopes`, with the clock reading `now` and the set of
   * envelopes whose transaction fails (`failing`) as inputs. The envelopes
   * are selected once, then processed in some order; a transaction also fails
   * when the envelope's document row is gone (the document update throws).
   * The first failure rolls back that envelope's transaction and ends the
   * sweep (`failedAt`); envelopes processed before it stay revoked.
   */
  method RevokeExpiredEnvelopes(db: EntityStore, now: Millis, failing: set<Id>)
    returns (revoked: seq<Id>, failedAt: Option<Id>)
    requires db.Valid()
    modifies db
    ensures db.Valid()
    ensures Distinct(revoked)
    ensures forall k :: k in revoked ==> k in old(ExpiredSelection(db.envelopes, now))
                                         && k !in failing && old(db.envelopes[k].documentId in db.documents)
    ensures failedAt.None? ==> forall k :: k in old(ExpiredSelection(db.envelopes, now)) ==> k in revoked
    ensures failedAt.Some? ==> && failedAt.value in old(ExpiredSelection(db.envelopes, now))
                               && failedAt.value !in revoked
                               && (failedAt.value in failing || old(db.envelopes[failedAt.value].documentId !in db.documents))
    ensures SweptTo(db, now, old(db.envelopes), old(db.documents), old(db.signers), old(db.audit),
                    revoked)
    ensures unchanged(db`signatures, db`fields, db`nextId)
    ensures failedAt.None? ==> ExpiredSelection(db.envelopes, now) == {}
  {
    var queue := ExpiredQueue(db, now);
    revoked, failedAt := RevokeQueue(db, queue, now, failing);
    if failedAt.Some? {
      assert queue[|revoked|] !in queue[..|revoked|];
    } else {
      RevocationEmptiesSelection(old(db.envelopes), Elements(revoked), now);
    }
  }

  /**
   * The sweep's loop over the selected envelopes `queue`, in order, up to the
   * first transaction that fails.
   */
  method RevokeQueue(db: EntityStore, queue: seq<Id>, now: Millis, failing: set<Id>)
    returns (revoked: seq<Id>, failedAt: Option<Id>)
    requires Distinct(queue) && forall k :: k in queue ==> k in db.envelopes
    modifies db
    ensures |revoked| <= |queue| && revoked == queue[..|revoked|]
    ensures forall k :: k in revoked ==> k !in failing && old(db.envelopes[k].documentId in db.documents)
    ensures failedAt.None? ==> revoked == queue
    ensures failedAt.Some? ==> && |revoked| < |queue| && failedAt.value == queue[|revoked|]
                               && (failedAt.value in failing || old(db.envelopes[failedAt.value].documentId !in db.documents))
    ensures SweptTo(db, now, old(db.envelopes), old(db.documents), old(db.signers), old(db.audit),
                    revoked)
    ensures unchanged(db`signatures, db`fields, db`nextId)
  {
    revoked, failedAt := [], None;
    ghost var envelopes0, documents0, signers0, audit0 := db.envelopes, db.documents, db.signers, db.audit;
    SweptNothing(db, now);
    var i := 0;
    while i < |queue|
      invariant 0 <= i <= |queue| && revoked == queue[..i]
      invariant forall k :: k in revoked ==> k !in failing && envelopes0[k].documentId in documents0
      invariant SweptTo(db, now, envelopes0, documents0, signers0, audit0, revoked)
      invariant unchanged(db`signatures, db`fields, db`nextId)
    {
      var id := queue[i];
      assert id !in revoked;
      var e := db.envelopes[id];
      assert e == envelopes0[id];
      if id in failing || e.documentId !in db.documents {
        failedAt := Some(id);
        break;
      }
      RevokeStep(db, id, now, envelopes0, documents0, signers0, audit0, revoked);
      PrefixStep(queue, i);
      revoked := revoked + [id];
      i := i + 1;
    }
  }

  /** The sweep state after the envelopes `revoked` have been processed, in that order. */
  ghost predicate SweptTo(db: EntityStore, now: Millis, envelopes0: map<Id, Envelope>, documents0: map<Id, Document>,
                          signers0: map<Id, Signer>, audit0: seq<AuditEntry>, revoked: seq<Id>)
    reads db
  {
    var done := Elements(revoked);
    && (forall k :: k in revoked ==> k in envelopes0)
    && db.envelopes == SetEnvelopes(envelopes0, done, EnvelopeStatus.Revoked, now)
    && db.documents == SetDocuments(documents0, DocumentsOf(envelopes0, done), DocumentStatus.Revoked)
    && db.signers == RevokeSignersOf(signers0, done)
    && |db.audit| == |audit0| + |revoked| && db.audit[..|audit0|] == audit0
    && (forall j :: 0 <= j < |revoked| ==> db.audit[|audit0| + j] == AutoRevokedRow(envelopes0, revoked[j], now))
  }

  /** Before the first envelope, the sweep has changed nothing. */
  lemma SweptNothing(db: EntityStore, now: Millis)
    ensures SweptTo(db, now, db.envelopes, db.documents, db.signers, db.audit, [])
  {
    assert Elements([]) == {};
    assert DocumentsOf(db.envelopes, {}) == {};
    assert SetDocuments(db.documents, {}, DocumentStatus.Revoked) == db.documents;
    assert SetEnvelopes(db.envelopes, {}, EnvelopeStatus.Revoked, now) == db.envelopes;
    assert RevokeSignersOf(db.signers, {}) == db.signers;
  }

  /** One iteration of the sweep: revoking `id` extends the bulk rewrites by that envelope. */
  method RevokeStep(db: EntityStore, id: Id, now: Millis, ghost envelopes0: map<Id, Envelope>,
                    ghost documents0: map<Id, Document>, ghost signers0: map<Id, Signer>, ghost audit0: seq<AuditEntry>,
                    ghost revoked: seq<Id>)
    requires SweptTo(db, now, envelopes0, documents0, signers0, audit0, revoked)
    requires id in envelopes0 && id !in revoked && envelopes0[id].documentId in documents0
    modifies db
    ensures SweptTo(db, now, envelopes0, documents0, signers0, audit0, revoked + [id])
    ensures unchanged(db`signatures, db`fields, db`nextId)
  {
    var done := Elements(revoked);
    assert Elements(revoked + [id]) == done + {id};
    var e := db.envelopes[id];
    assert e == envelopes0[id];
    SetEnvelopesStep(envelopes0, done, id, EnvelopeStatus.Revoked, now);
    SetDocumentsStep(documents0, envelopes0, done, id, DocumentStatus.Revoked);
    RevokeSignersStep(signers0, done, id);
    assert db.documents[e.documentId].(status := DocumentStatus.Revoked)
        == documents0[e.documentId].(status := DocumentStatus.Revoked);
    ghost var row := AutoRevokedRow(envelopes0, id, now);
    assert AutoRevokedRow(db.envelopes, id, now) == row;
    ghost var before := db.audit;
    RevokeOne(db, id, now);
    assert db.audit == before + [row];
  }

  /** The transaction for one selected envelope: envelope, document, signers and one audit row. */
  method RevokeOne(db: EntityStore, id: Id, now: Millis)
    requires id in db.envelopes && db.envelopes[id].documentId in db.documents
    modifies db
    ensures var e := old(db.envelopes[id]);
            && db.envelopes == old(db.envelopes)[id := e.(status := EnvelopeStatus.Revoked, updatedAt := now)]
            && db.documents == old(db.documents)[e.documentId := old(db.documents[e.documentId]).(status := DocumentStatus.Revoked)]
            && db.signers == RevokeSignersOf(old(db.signers), {id})
            && db.audit == old(db.audit) + [AutoRevokedRow(old(db.envelopes), id, now)]
            && unchanged(db`signatures, db`fields, db`nextId)
  {
    var e := db.envelopes[id];
    db.audit := db.audit + [AutoRevokedRow(db.envelopes, id, now)];
    db.envelopes := db.envelopes[id := e.(status := EnvelopeStatus.Revoked, updatedAt := now)];
    db.documents := db.documents[e.documentId := db.documents[e.documentId].(status := DocumentStatus.Revoked)];
    db.signers := RevokeSignersOf(db.signers, {id});
  }
}
