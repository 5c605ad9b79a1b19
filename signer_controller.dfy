/**
 * Signer handlers: read a signer, sign (the status-aggregation transaction),
 * decline, resend an invitation; and the two output-path derivations of the
 * signing pipeline.
 */
module SignerController {
  import opened Wrappers
  import opened Records
  import opened Text
  import opened Listing
  import opened Lifecycle
  import opened Store

  datatype SignerView = SignerView(signer: Signer, envelope: Envelope, document: Document,
                                   fields: seq<(Id, SignatureField)>, signatures: seq<(Id, Signature)>)

  /**
   * `getSigner`: 404 unless the signer belongs to the caller's organization;
   * otherwise the signer with its envelope, document, fields and signature.
   */
  function GetSigner(db: EntityStore, caller: Caller, id: Id): (r: Response<SignerView>)
    reads db
    requires db.IdsIssued()
    ensures r.Fail? <==> !db.SignerInOrganization(id, caller.organizationId)
    ensures r.Fail? ==> r.status == 404
    ensures r.Ok? ==>
              var s := db.signers[id];
              && r.value.signer == s
              && r.value.envelope == db.envelopes[s.envelopeId]
              && r.value.document == db.documents[db.envelopes[s.envelopeId].documentId]
              && (forall p :: p in r.value.fields <==> p.0 in db.fields && db.fields[p.0] == p.1 && p.1.signerId == id)
              && (forall p :: p in r.value.signatures <==> p.0 in db.signatures && db.signatures[p.0] == p.1 && p.1.signerId == id)
  {
    if !db.SignerInOrganization(id, caller.organizationId) then Fail(404)
    else
      var s := db.signers[id];
      var e := db.envelopes[s.envelopeId];
      var fields := RowsWhere(db.fields, db.nextId, (p: (Id, SignatureField)) => p.1.signerId == id);
      var signatures := RowsWhere(db.signatures, db.nextId, (p: (Id, Signature)) => p.1.signerId == id);
      Ok(SignerView(s, e, db.documents[e.documentId], fields, signatures))
  }

  /** `signatureType = "CLICK"`: the default applies only when the field is absent. */
  function SignatureTypeOf(signatureType: Option<string>): string {
    if signatureType.None? then "CLICK" else signatureType.value
  }

  /** The envelope table after the aggregation step of the signing transaction. */
  function EnvelopesAfter(envelopes: map<Id, Envelope>, envelopeId: Id, outcome: Aggregate, now: Millis): map<Id, Envelope>
    requires envelopeId in envelopes
  {
    match outcome
    case CompleteBoth => envelopes[envelopeId := envelopes[envelopeId].(status := EnvelopeStatus.Completed, updatedAt := now)]
    case DeclineEnvelope => envelopes[envelopeId := envelopes[envelopeId].(status := EnvelopeStatus.Declined, updatedAt := now)]
    case KeepStatus => envelopes
  }

  /** Whether the signing request may reach the transaction. */
  predicate SignAccepted(db: EntityStore, token: Token, signerId: Id)
    reads db
  {
    && token == TokenFor(signerId)
    && signerId in db.signers
    && db.signers[signerId].status.Pending?
  }

  /**
   * `signDocument`. Before any write it rejects, in this order: no token
   * (401), a token that fails verification (500), a token for another signer
   * (403), an unknown signer (404), a signer that is not PENDING (400), a
   * signer whose document row is gone (500), and a failure of the PDF
   * pipeline (`signedFile` absent: 500). Otherwise one transaction creates the
   * signature, marks the signer SIGNED, completes the envelope and document
   * when every signer has signed or declines the envelope when some signer
   * has declined, and appends one DOCUMENT_SIGNED row. The envelope's own
   * status is never consulted.
   */
  method SignDocument(db: EntityStore, token: Token, signerId: Id, signatureType: Option<string>,
                      signedFile: Option<string>, now: Millis)
    returns (r: Response<string>)
    requires db.Valid()
    modifies db
    ensures db.Valid()
    ensures token.NoToken? ==> r == Fail(401)
    ensures token.BadToken? ==> r == Fail(500)
    ensures token.TokenFor? && token.signerId != signerId ==> r == Fail(403)
    ensures token == TokenFor(signerId) && signerId !in old(db.signers) ==> r == Fail(404)
    ensures token == TokenFor(signerId) && signerId in old(db.signers) && !old(db.signers[signerId].status.Pending?) ==>
              r == Fail(400)
    ensures r.Fail? ==> unchanged(db)
    ensures r.Ok? <==> old(SignAccepted(db, token, signerId))
                       && old(db.envelopes[db.signers[signerId].envelopeId].documentId in db.documents)
                       && signedFile.Some?
    ensures r.Ok? ==>
              var s := old(db.signers[signerId]);
              var e := old(db.envelopes[s.envelopeId]);
              var signed := SignedBy(old(db.signers), signerId, SignatureTypeOf(signatureType));
              var outcome := Recompute(signed, s.envelopeId);
              && r == Ok(signedFile.value)
              && db.nextId == old(db.nextId) + 1
              && db.signatures == old(db.signatures)[old(db.nextId) := Signature(signerId, signedFile.value)]
              && db.signers == signed
              && db.envelopes == EnvelopesAfter(old(db.envelopes), s.envelopeId, outcome, now)
              && db.documents == (if outcome == CompleteBoth
                                  then old(db.documents)[e.documentId := old(db.documents[e.documentId]).(status := DocumentStatus.Completed)]
                                  else old(db.documents))
              && db.audit == old(db.audit) + [Row(e.documentId, DocumentSigned, SignerEmail(s.email), now)]
              && unchanged(db`fields)
  {
    if token.NoToken? {
      return Fail(401);
    }
    if token.BadToken? {
      return Fail(500);
    }
    if token.signerId != signerId {
      return Fail(403);
    }
    if signerId !in db.signers {
      return Fail(404);
    }
    var s := db.signers[signerId];
    if !s.status.Pending? {
      return Fail(400);
    }
    var e := db.envelopes[s.envelopeId];
    if e.documentId !in db.documents || signedFile.None? {
      return Fail(500);
    }
    CommitSignature(db, signerId, SignatureTypeOf(signatureType), signedFile.value, now);
    r := Ok(signedFile.value);
  }

  /** The transaction of `signDocument`. */
  method CommitSignature(db: EntityStore, signerId: Id, signatureType: string, signedFile: string, now: Millis)
    requires db.Valid()
    requires signerId in db.signers && db.signers[signerId].status.Pending?
    requires db.envelopes[db.signers[signerId].envelopeId].documentId in db.documents
    modifies db
    ensures db.Valid()
    ensures var s := old(db.signers[signerId]);
            var e := old(db.envelopes[s.envelopeId]);
            var signed := SignedBy(old(db.signers), signerId, signatureType);
            var outcome := Recompute(signed, s.envelopeId);
            && db.nextId == old(db.nextId) + 1
            && db.signatures == old(db.signatures)[old(db.nextId) := Signature(signerId, signedFile)]
            && db.signers == signed
            && db.envelopes == EnvelopesAfter(old(db.envelopes), s.envelopeId, outcome, now)
            && db.documents == (if outcome == CompleteBoth
                                then old(db.documents)[e.documentId := old(db.documents[e.documentId]).(status := DocumentStatus.Completed)]
                                else old(db.documents))
            && db.audit == old(db.audit) + [Row(e.documentId, DocumentSigned, SignerEmail(s.email), now)]
            && unchanged(db`fields)
  {
    var s := db.signers[signerId];
    var e := db.envelopes[s.envelopeId];
    var id := db.nextId;
    db.signatures := db.signatures[id := Signature(signerId, signedFile)];
    db.nextId := id + 1;
    db.signers := SignedBy(db.signers, signerId, signatureType);
    var outcome := Recompute(db.signers, s.envelopeId);
    db.envelopes := EnvelopesAfter(db.envelopes, s.envelopeId, outcome, now);
    if outcome == CompleteBoth {
      db.documents := db.documents[e.documentId := db.documents[e.documentId].(status := DocumentStatus.Completed)];
    }
    db.audit := db.audit + [Row(e.documentId, DocumentSigned, SignerEmail(s.email), now)];
  }

  /**
   * `declineSignature`: a missing or unverifiable token throws (500), a token
   * for another signer gives 403, an unknown signer makes the update throw
   * (500). Otherwise only that signer becomes DECLINED, whatever its status
   * was; the envelope and document are not recomputed and no audit row is
   * written. The reason is only echoed back.
   */
  method DeclineSignature(db: EntityStore, token: Token, signerId: Id, reason: Option<string>)
    returns (r: Response<Option<string>>)
    requires db.Valid()
    modifies db
    ensures db.Valid()
    ensures token.NoToken? || token.BadToken? ==> r == Fail(500)
    ensures token.TokenFor? && token.signerId != signerId ==> r == Fail(403)
    ensures token == TokenFor(signerId) && signerId !in old(db.signers) ==> r == Fail(500)
    ensures r.Fail? ==> unchanged(db)
    ensures r.Ok? <==> token == TokenFor(signerId) && signerId in old(db.signers)
    ensures r.Ok? ==>
              && r == Ok(reason)
              && db.signers == old(db.signers)[signerId := old(db.signers[signerId]).(status := SignerStatus.Declined)]
              && unchanged(db`documents, db`envelopes, db`signatures, db`fields, db`audit, db`nextId)
  {
    if !token.TokenFor? {
      return Fail(500);
    }
    if token.signerId != signerId {
      return Fail(403);
    }
    if signerId !in db.signers {
      return Fail(500);
    }
    db.signers := db.signers[signerId := db.signers[signerId].(status := SignerStatus.Declined)];
    r := Ok(reason);
  }

  /**
   * `resendInvitation` of the signer controller, which no signer route wires
   * up (the routed resend is the envelope controller's): 404 unless the signer belongs to the
   * caller's organization. There is no PENDING guard: any such signer gets one
   * INVITATION_RESENT row performed by the caller, and no status changes.
   */
  method ResendInvitation(db: EntityStore, caller: Caller, signerId: Id, now: Millis) returns (r: Response<Option<string>>)
    requires db.Valid()
    modifies db
    ensures db.Valid()
    ensures !old(db.SignerInOrganization(signerId, caller.organizationId)) ==> r == Fail(404) && unchanged(db)
    ensures old(db.SignerInOrganization(signerId, caller.organizationId)) ==>
              var s := old(db.signers[signerId]);
              && r == Ok(s.email)
              && db.audit == old(db.audit) + [Row(old(db.envelopes[s.envelopeId].documentId), InvitationResent, User(caller.userId), now)]
              && unchanged(db`documents, db`envelopes, db`signers, db`signatures, db`fields, db`nextId)
  {
    if !db.SignerInOrganization(signerId, caller.organizationId) {
      return Fail(404);
    }
    var s := db.signers[signerId];
    db.audit := db.audit + [Row(db.envelopes[s.envelopeId].documentId, InvitationResent, User(caller.userId), now)];
    r := Ok(s.email);
  }

  /** The text `embedSignatureOnPdf` inserts before the first ".pdf". */
  function SignedMarker(stamp: nat): (r: string)
    ensures |r| > 8 && r[0] == '-' && forall i :: 0 <= i < |r| ==> r[i] != '.'
  {
    "-signed-" + Decimal(stamp)
  }

  /**
   * `filePath.replace(".pdf", "-signed-<stamp>.pdf")`: a string pattern, so
   * only the FIRST ".pdf" is rewritten (wherever it is), and a path without
   * ".pdf" comes back unchanged.
   */
  function SignedFilePath(path: string, stamp: nat): (r: string)
    ensures IndexOf(path, ".pdf").None? ==> r == path
    ensures IndexOf(path, ".pdf").Some? ==>
              var i := IndexOf(path, ".pdf").value;
              |r| == |path| + |SignedMarker(stamp)| && r[..i] == path[..i] && r[i + |SignedMarker(stamp)|..] == path[i..]
  {
    match IndexOf(path, ".pdf")
    case None => path
    case Some(i) => path[..i] + SignedMarker(stamp) + path[i..]
  }

  /**
   * The signed path still holds the original's first ".pdf", now right after
   * the marker, and nothing before it: the marker is inserted exactly in front
   * of that occurrence, and cutting it out again restores the path.
   */
  lemma SignedFilePathMarksFirstPdf(path: string, stamp: nat)
    requires IndexOf(path, ".pdf").Some?
    ensures var i := IndexOf(path, ".pdf").value;
            var r := SignedFilePath(path, stamp);
            && IndexOf(r, ".pdf") == Some(i + |SignedMarker(stamp)|)
            && r[i..i + |SignedMarker(stamp)|] == SignedMarker(stamp)
            && r[..i] + r[i + |SignedMarker(stamp)|..] == path
  {
    var i := IndexOf(path, ".pdf").value;
    var m := SignedMarker(stamp);
    var r := SignedFilePath(path, stamp);
    assert r == path[..i] + m + path[i..];
    assert OccursAt(r, ".pdf", i + |m|) by {
      assert r[i + |m|..] == path[i..];
    }
    NoPdfThroughMarker(path, m, i);
    assert r[..i] + r[i + |m|..] == path[..i] + path[i..];
    assert path[..i] + path[i..] == path;
  }

  /**
   * Inserting a dot-free marker that starts with '-' at `i`, where `path` has
   * no ".pdf" before `i`, creates no ".pdf" before the end of the marker.
   */
  lemma NoPdfThroughMarker(path: string, m: string, i: nat)
    requires i <= |path| && forall j :: 0 <= j < i ==> !OccursAt(path, ".pdf", j)
    requires |m| > 0 && m[0] == '-' && forall k :: 0 <= k < |m| ==> m[k] != '.'
    ensures forall j :: 0 <= j < i + |m| ==> !OccursAt(path[..i] + m + path[i..], ".pdf", j)
  {
    var r := path[..i] + m + path[i..];
    forall j | 0 <= j < i + |m|
      ensures !OccursAt(r, ".pdf", j)
    {
      if j < i && j + 4 <= i {
        assert r[j..j + 4] == path[j..j + 4];
        assert !OccursAt(path, ".pdf", j);
      } else if j < i {
        assert r[i] == m[0] == '-';
        if j + 4 <= |r| {
          assert r[j..j + 4][i - j] == r[i] != ".pdf"[i - j];
        }
      } else {
        assert r[j] == m[j - i] != '.';
        if j + 4 <= |r| {
          assert r[j..j + 4][0] == r[j] != ".pdf"[0];
        }
      }
    }
  }

  /** `/\.docx$/i`: the path ends in ".docx" in any letter case. */
  predicate EndsWithDocx(path: string) {
    |path| >= 5 && Lower(path[|path| - 5..]) == ".docx"
  }

  /**
   * `inputPath.replace(/\.docx$/i, ".pdf")`: a trailing ".docx" in any case
   * becomes ".pdf"; any other path is returned unchanged.
   */
  function ConvertedPdfPath(path: string): (r: string)
    ensures r != path <==> EndsWithDocx(path)
    ensures EndsWithDocx(path) ==> |r| == |path| - 1 && r[..|r| - 4] == path[..|path| - 5] && r[|r| - 4..] == ".pdf"
    ensures !EndsWithDocx(r)
  {
    if EndsWithDocx(path) then
      var r := path[..|path| - 5] + ".pdf";
      assert r[|r| - 4..] == ".pdf";
      assert |r| >= 5 ==> Lower(r[|r| - 5..])[4] == LowerChar(r[|r| - 1]) == 'f' != ".docx"[4];
      r
    else path
  }

  /** Converting twice is converting once. */
  lemma ConvertedPdfPathIdempotent(path: string)
    ensures ConvertedPdfPath(ConvertedPdfPath(path)) == ConvertedPdfPath(path)
  {
  }
}
