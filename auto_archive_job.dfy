/**
 * The archival sweep: every COMPLETED envelope last updated more than seven
 * days ago has its file moved to the archive folder, its document and itself
 * set to ARCHIVED, and a DOCUMENT_ARCHIVED row logged. There is no
 * transaction: a step that throws keeps the writes before it and ends the
 * whole sweep.
 */
module AutoArchiveJob {
  import opened Wrappers
  import opened Records
  import opened Listing
  import opened Lifecycle
  import opened Store

  /** The step of one envelope's archival that throws. */
  datatype ArchiveFault = MoveFails | DocumentWriteFails | EnvelopeWriteFails | AuditWriteFails

  /**
   * How many of the three writes (document, envelope, audit row) persist
   * when the archival of an envelope meets `fault`.
   */
  function WritesKept(fault: Option<ArchiveFault>): (n: nat)
    ensures n <= 3 && (n == 3 <==> fault.None?)
    ensures fault == Some(EnvelopeWriteFails) ==> n == 1
    ensures fault == Some(AuditWriteFails) ==> n == 2
    ensures fault == Some(MoveFails) || fault == Some(DocumentWriteFails) ==> n == 0
  {
    match fault
    case None => 3
    case Some(MoveFails) => 0
    case Some(DocumentWriteFails) => 0
    case Some(EnvelopeWriteFails) => 1
    case Some(AuditWriteFails) => 2
  }

  /** The DOCUMENT_ARCHIVED row written for envelope `id`. */
  function ArchivedRow(envelopes: map<Id, Envelope>, id: Id, now: Millis): AuditEntry
    requires id in envelopes
  {
    Row(envelopes[id].documentId, DocumentArchived, System("SYSTEM"), now).(envelopeId := Some(id))
  }

  /** The `findMany` of the sweep: each selected envelope once, in ascending id order. */
  method ArchiveQueue(db: EntityStore, now: Millis) returns (queue: seq<Id>)
    requires db.IdsIssued()
    ensures forall k :: k in queue <==> k in db.envelopes && DueForArchive(db.envelopes[k], now)
    ensures Distinct(queue)
  {
    queue := KeysWhere(db.envelopes, db.nextId, (e: Envelope) => DueForArchive(e, now));
    AscendingDistinct(queue);
  }

  /**
   * The envelopes whose write number `step` (1 document, 2 envelope, 3 audit
   * row) has happened: all of `archived`, and the failing envelope when its
   * fault came after that write.
   */
  function WrittenBy(archived: seq<Id>, failure: Option<(Id, ArchiveFault)>, step: nat): (r: set<Id>)
    ensures forall k :: k in r <==> k in archived || (failure.Some? && k == failure.value.0 && WritesKept(Some(failure.value.1)) >= step)
  {
    Elements(archived) + if failure.Some? && WritesKept(Some(failure.value.1)) >= step then {failure.value.0} else {}
  }

  /**
   * `autoArchiveCompleted`, with the clock reading `now` and the step at
   * which each envelope's archival throws (`faults`) as inputs. Envelopes
   * whose document is gone are skipped; the others are archived in order
   * until one throws, whose earlier writes stay.
   */
  method AutoArchiveCompleted(db: EntityStore, now: Millis, faults: map<Id, ArchiveFault>)
    returns (archived: seq<Id>, skipped: seq<Id>, failure: Option<(Id, ArchiveFault)>)
    requires db.Valid()
    modifies db
    ensures db.Valid()
    ensures Distinct(archived) && Distinct(skipped)
    ensures forall k :: k in archived ==> && k in old(ArchiveSelection(db.envelopes, now)) && k !in faults
                                          && old(db.envelopes[k].documentId in db.documents)
    ensures forall k :: k in skipped ==> && k in old(ArchiveSelection(db.envelopes, now))
                                         && old(db.envelopes[k].documentId !in db.documents)
    ensures failure.None? ==> forall k :: k in old(ArchiveSelection(db.envelopes, now)) ==> k in archived || k in skipped
    ensures failure.Some? ==> && failure.value.0 in old(ArchiveSelection(db.envelopes, now))
                              && failure.value.0 in faults && faults[failure.value.0] == failure.value.1
                              && old(db.envelopes[failure.value.0].documentId in db.documents)
                              && failure.value.0 !in archived && failure.value.0 !in skipped
    ensures ArchivedTo(db, now, old(db.envelopes), old(db.documents), old(db.audit),
                       WrittenBy(archived, failure, 1), WrittenBy(archived, failure, 2), archived)
    ensures unchanged(db`signers, db`signatures, db`fields, db`nextId)
    ensures failure.None? ==> ArchiveSelection(db.envelopes, now) == Elements(skipped)
  {
    var queue := ArchiveQueue(db, now);
    archived, skipped, failure := ArchiveEach(db, queue, now, faults);
    if failure.None? {
      ArchivingShrinksSelection(old(db.envelopes), WrittenBy(archived, failure, 2), now);
    }
  }

  /**
   * The sweep's loop over the selected envelopes `queue`, in order, up to the
   * first envelope whose archival throws.
   */
  method ArchiveEach(db: EntityStore, queue: seq<Id>, now: Millis, faults: map<Id, ArchiveFault>)
    returns (archived: seq<Id>, skipped: seq<Id>, failure: Option<(Id, ArchiveFault)>)
    requires Distinct(queue) && forall k :: k in queue ==> k in db.envelopes
    modifies db
    ensures Distinct(archived) && Distinct(skipped)
    ensures forall k :: k in archived ==> k in queue && k !in faults && old(db.envelopes[k].documentId in db.documents)
    ensures forall k :: k in skipped ==> k in queue && old(db.envelopes[k].documentId !in db.documents)
    ensures failure.None? ==> forall k :: k in queue ==> k in archived || k in skipped
    ensures failure.Some? ==> && failure.value.0 in queue
                              && failure.value.0 in faults && faults[failure.value.0] == failure.value.1
                              && old(db.envelopes[failure.value.0].documentId in db.documents)
                              && failure.value.0 !in archived && failure.value.0 !in skipped
    ensures ArchivedTo(db, now, old(db.envelopes), old(db.documents), old(db.audit),
                       WrittenBy(archived, failure, 1), WrittenBy(archived, failure, 2), archived)
    ensures unchanged(db`signers, db`signatures, db`fields, db`nextId)
  {
    archived, skipped, failure := [], [], None;
    ghost var envelopes0, documents0, audit0 := db.envelopes, db.documents, db.audit;
    ArchivedNothing(db, now);
    var i := 0;
    while i < |queue|
      invariant 0 <= i <= |queue|
      invariant Partitioned(queue, i, archived, skipped, faults, envelopes0, documents0)
      invariant failure.None?
      invariant ArchivedTo(db, now, envelopes0, documents0, audit0,
                           WrittenBy(archived, failure, 1), WrittenBy(archived, failure, 2), archived)
      invariant unchanged(db`signers, db`signatures, db`fields, db`nextId)
    {
      var id := queue[i];
      PartitionStep(queue, i, archived, skipped, faults, envelopes0, documents0);
      var e := db.envelopes[id];
      assert e == envelopes0[id];
      assert e.documentId in db.documents <==> e.documentId in documents0;
      if e.documentId !in db.documents {
        skipped := skipped + [id];
      } else {
        var fault := if id in faults then Some(faults[id]) else None;
        ArchiveStep(db, id, now, fault, envelopes0, documents0, audit0, archived);
        if fault.Some? {
          failure := Some((id, fault.value));
          break;
        }
        archived := archived + [id];
      }
      i := i + 1;
    }
  }

  /**
   * The first `n` envelopes of `queue` are split into those archived in full
   * (with a document and no fault) and those skipped (without a document),
   * each once.
   */
  ghost predicate Partitioned(queue: seq<Id>, n: nat, archived: seq<Id>, skipped: seq<Id>, faults: map<Id, ArchiveFault>,
                              envelopes0: map<Id, Envelope>, documents0: map<Id, Document>)
  {
    && n <= |queue|
    && Distinct(archived) && Distinct(skipped)
    && (forall k :: k in queue[..n] <==> k in archived || k in skipped)
    && (forall k :: k in archived ==> k in envelopes0 && k !in faults && envelopes0[k].documentId in documents0)
    && (forall k :: k in skipped ==> k in envelopes0 && envelopes0[k].documentId !in documents0)
  }

  /** Taking the next envelope of the queue extends the split on either side. */
  lemma PartitionStep(queue: seq<Id>, n: nat, archived: seq<Id>, skipped: seq<Id>, faults: map<Id, ArchiveFault>,
                      envelopes0: map<Id, Envelope>, documents0: map<Id, Document>)
    requires Distinct(queue) && n < |queue| && queue[n] in envelopes0
    requires Partitioned(queue, n, archived, skipped, faults, envelopes0, documents0)
    ensures var id := queue[n];
            && id !in archived && id !in skipped
            && (envelopes0[id].documentId !in documents0 ==>
                  Partitioned(queue, n + 1, archived, skipped + [id], faults, envelopes0, documents0))
            && (envelopes0[id].documentId in documents0 && id !in faults ==>
                  Partitioned(queue, n + 1, archived + [id], skipped, faults, envelopes0, documents0))
  {
    var id := queue[n];
    assert id !in queue[..n];
    PrefixStep(queue, n);
    AppendMembership(queue[..n], id);
    AppendMembership(archived, id);
    AppendMembership(skipped, id);
    assert (archived + [id])[..|archived|] == archived;
    assert (skipped + [id])[..|skipped|] == skipped;
  }

  /**
   * The sweep state after the documents of the envelopes `documentsFor`
   * and the envelopes `envelopesFor` have been archived and the rows for
   * `logged` written, in that order.
   */
  ghost predicate ArchivedTo(db: EntityStore, now: Millis, envelopes0: map<Id, Envelope>, documents0: map<Id, Document>,
                             audit0: seq<AuditEntry>, documentsFor: set<Id>, envelopesFor: set<Id>, logged: seq<Id>)
    reads db
  {
    && (forall k :: k in logged ==> k in envelopes0)
    && db.envelopes == SetEnvelopes(envelopes0, envelopesFor, EnvelopeStatus.Archived, now)
    && db.documents == SetDocuments(documents0, DocumentsOf(envelopes0, documentsFor), DocumentStatus.Archived)
    && |db.audit| == |audit0| + |logged| && db.audit[..|audit0|] == audit0
    && (forall j :: 0 <= j < |logged| ==> db.audit[|audit0| + j] == ArchivedRow(envelopes0, logged[j], now))
  }

  /** Before the first envelope, the sweep has changed nothing. */
  lemma ArchivedNothing(db: EntityStore, now: Millis)
    ensures ArchivedTo(db, now, db.envelopes, db.documents, db.audit, WrittenBy([], None, 1), WrittenBy([], None, 2), [])
  {
    assert WrittenBy([], None, 1) == {} && WrittenBy([], None, 2) == {};
    assert DocumentsOf(db.envelopes, {}) == {};
    assert SetDocuments(db.documents, {}, DocumentStatus.Archived) == db.documents;
    assert SetEnvelopes(db.envelopes, {}, EnvelopeStatus.Archived, now) == db.envelopes;
  }

  /** One iteration of the sweep: the writes of envelope `id` that persist extend the bulk rewrites. */
  method ArchiveStep(db: EntityStore, id: Id, now: Millis, fault: Option<ArchiveFault>,
                     ghost envelopes0: map<Id, Envelope>, ghost documents0: map<Id, Document>,
                     ghost audit0: seq<AuditEntry>, ghost archived: seq<Id>)
    requires ArchivedTo(db, now, envelopes0, documents0, audit0,
                        WrittenBy(archived, None, 1), WrittenBy(archived, None, 2), archived)
    requires id in envelopes0 && id !in archived && envelopes0[id].documentId in documents0
    modifies db
    ensures fault.None? ==> ArchivedTo(db, now, envelopes0, documents0, audit0, WrittenBy(archived + [id], None, 1),
                                       WrittenBy(archived + [id], None, 2), archived + [id])
    ensures fault.Some? ==> ArchivedTo(db, now, envelopes0, documents0, audit0, WrittenBy(archived, Some((id, fault.value)), 1),
                                       WrittenBy(archived, Some((id, fault.value)), 2), archived)
    ensures unchanged(db`signers, db`signatures, db`fields, db`nextId)
  {
    if fault.None? {
      ArchiveCommitted(db, id, now, envelopes0, documents0, audit0, archived);
    } else {
      ArchiveInterrupted(db, id, now, fault.value, envelopes0, documents0, audit0, archived);
    }
  }

  /** An envelope whose writes all persist joins the archived ones. */
  method ArchiveCommitted(db: EntityStore, id: Id, now: Millis,
                          ghost envelopes0: map<Id, Envelope>, ghost documents0: map<Id, Document>,
                          ghost audit0: seq<AuditEntry>, ghost archived: seq<Id>)
    requires ArchivedTo(db, now, envelopes0, documents0, audit0,
                        WrittenBy(archived, None, 1), WrittenBy(archived, None, 2), archived)
    requires id in envelopes0 && id !in archived && envelopes0[id].documentId in documents0
    modifies db
    ensures ArchivedTo(db, now, envelopes0, documents0, audit0, WrittenBy(archived + [id], None, 1),
                       WrittenBy(archived + [id], None, 2), archived + [id])
    ensures unchanged(db`signers, db`signatures, db`fields, db`nextId)
  {
    var done := Elements(archived);
    assert WrittenBy(archived, None, 1) == done && WrittenBy(archived, None, 2) == done;
    assert WrittenBy(archived + [id], None, 1) == done + {id} && WrittenBy(archived + [id], None, 2) == done + {id};
    var e := db.envelopes[id];
    assert e == envelopes0[id];
    SetEnvelopesStep(envelopes0, done, id, EnvelopeStatus.Archived, now);
    SetDocumentsStep(documents0, envelopes0, done, id, DocumentStatus.Archived);
    assert db.documents[e.documentId].(status := DocumentStatus.Archived)
        == documents0[e.documentId].(status := DocumentStatus.Archived);
    ghost var row := ArchivedRow(envelopes0, id, now);
    assert ArchivedRow(db.envelopes, id, now) == row;
    ghost var before := db.audit;
    ArchiveOne(db, id, now, None);
    assert db.audit == before + [row];
  }

  /** An envelope whose archival stops at `fault` keeps the writes made before it. */
  method ArchiveInterrupted(db: EntityStore, id: Id, now: Millis, fault: ArchiveFault,
                            ghost envelopes0: map<Id, Envelope>, ghost documents0: map<Id, Document>,
                            ghost audit0: seq<AuditEntry>, ghost archived: seq<Id>)
    requires ArchivedTo(db, now, envelopes0, documents0, audit0,
                        WrittenBy(archived, None, 1), WrittenBy(archived, None, 2), archived)
    requires id in envelopes0 && id !in archived && envelopes0[id].documentId in documents0
    modifies db
    ensures ArchivedTo(db, now, envelopes0, documents0, audit0, WrittenBy(archived, Some((id, fault)), 1),
                       WrittenBy(archived, Some((id, fault)), 2), archived)
    ensures unchanged(db`signers, db`signatures, db`fields, db`nextId)
  {
    var done := Elements(archived);
    var kept := WritesKept(Some(fault));
    assert WrittenBy(archived, None, 1) == done && WrittenBy(archived, None, 2) == done;
    assert WrittenBy(archived, Some((id, fault)), 1) == done + (if kept >= 1 then {id} else {});
    assert WrittenBy(archived, Some((id, fault)), 2) == done + (if kept >= 2 then {id} else {});
    var e := db.envelopes[id];
    assert e == envelopes0[id];
    SetEnvelopesStep(envelopes0, done, id, EnvelopeStatus.Archived, now);
    SetDocumentsStep(documents0, envelopes0, done, id, DocumentStatus.Archived);
    assert db.documents[e.documentId].(status := DocumentStatus.Archived)
        == documents0[e.documentId].(status := DocumentStatus.Archived);
    assert done + {} == done;
    ArchiveOne(db, id, now, Some(fault));
  }

  /**
   * The archival of one selected envelope: move its file, then archive the
   * document, the envelope and log the row, stopping at `fault`.
   */
  method ArchiveOne(db: EntityStore, id: Id, now: Millis, fault: Option<ArchiveFault>)
    requires id in db.envelopes && db.envelopes[id].documentId in db.documents
    modifies db
    ensures var e := old(db.envelopes[id]);
            && db.documents == (if WritesKept(fault) >= 1
                                then old(db.documents)[e.documentId := old(db.documents[e.documentId]).(status := DocumentStatus.Archived)]
                                else old(db.documents))
            && db.envelopes == (if WritesKept(fault) >= 2
                                then old(db.envelopes)[id := e.(status := EnvelopeStatus.Archived, updatedAt := now)]
                                else old(db.envelopes))
            && db.audit == (if WritesKept(fault) >= 3
                            then old(db.audit) + [ArchivedRow(old(db.envelopes), id, now)]
                            else old(db.audit))
    ensures unchanged(db`signers, db`signatures, db`fields, db`nextId)
  {
    var e := db.envelopes[id];
    if fault == Some(MoveFails) || fault == Some(DocumentWriteFails) {
      return;
    }
    db.documents := db.documents[e.documentId := db.documents[e.documentId].(status := DocumentStatus.Archived)];
    if fault == Some(EnvelopeWriteFails) {
      return;
    }
    var row := ArchivedRow(db.envelopes, id, now);
    db.envelopes := db.envelopes[id := e.(status := EnvelopeStatus.Archived, updatedAt := now)];
    if fault == Some(AuditWriteFails) {
      return;
    }
    db.audit := db.audit + [row];
  }
}
