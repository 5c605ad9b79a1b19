/**
 * Signature-field handlers: the validating bulk create, the listing by
 * signing request, and the delete.
 */
module SignatureFieldController {
  import opened Wrappers
  import opened Records
  import opened Text
  import opened Listing
  import opened Store

  /** The field types a signature field may have. */
  const AllowedTypes: seq<string> := ["CLICK", "DRAW", "TYPE", "IMAGE", "INITIAL", "DATE", "SIGNATURE"]

  /**
   * `(f.type?.toUpperCase() || "SIGNATURE").trim()`: upper-cased first, then
   * trimmed, so only a missing or empty type takes the default; a blank one
   * trims to the empty string.
   */
  function NormalizeType(kind: Option<string>): (r: string)
    ensures kind.None? || kind.value == [] ==> r == "SIGNATURE"
    ensures r != [] ==> !IsJsWhitespace(r[0]) && !IsJsWhitespace(r[|r| - 1])
  {
    Trim(if kind.None? || Upper(kind.value) == [] then "SIGNATURE" else Upper(kind.value))
  }

  /** A type made only of whitespace passes the `||` default and is then rejected. */
  lemma BlankTypeRejected(kind: string)
    requires kind != [] && forall i :: 0 <= i < |kind| ==> IsJsWhitespace(kind[i])
    ensures NormalizeType(Some(kind)) == []
    ensures NormalizeType(Some(kind)) !in AllowedTypes
  {
    var upper := Upper(kind);
    forall i | 0 <= i < |upper|
      ensures IsJsWhitespace(upper[i])
    {
      assert upper[i] == UpperChar(kind[i]) == kind[i];
    }
    TrimBlank(upper);
  }

  /** Every allowed type is a non-empty word of upper-case ASCII letters. */
  lemma AllowedTypeLetters(kind: string)
    requires kind in AllowedTypes
    ensures kind != [] && forall i :: 0 <= i < |kind| ==> 'A' <= kind[i] <= 'Z'
  {
  }

  /** An allowed type is accepted in any letter case and with surrounding blanks. */
  lemma PaddedTypeAccepted(pad: string, kind: string, tail: string)
    requires kind in AllowedTypes
    requires forall i :: 0 <= i < |pad| ==> pad[i] == ' '
    requires forall i :: 0 <= i < |tail| ==> tail[i] == ' '
    ensures NormalizeType(Some(pad + Lower(kind) + tail)) == kind
  {
    AllowedTypeLetters(kind);
    PaddedWordNormalized(pad, kind, tail);
  }

  /** The same for any upper-case word: lower-casing is undone and the padding trimmed. */
  lemma PaddedWordNormalized(pad: string, word: string, tail: string)
    requires word != [] && forall i :: 0 <= i < |word| ==> 'A' <= word[i] <= 'Z'
    requires forall i :: 0 <= i < |pad| ==> pad[i] == ' '
    requires forall i :: 0 <= i < |tail| ==> tail[i] == ' '
    ensures NormalizeType(Some(pad + Lower(word) + tail)) == word
  {
    UpperUndoesLower(pad, word, tail);
    PaddingTrimmed(pad, word, tail);
  }

  lemma UpperUndoesLower(pad: string, word: string, tail: string)
    requires forall i :: 0 <= i < |word| ==> 'A' <= word[i] <= 'Z'
    requires forall i :: 0 <= i < |pad| ==> pad[i] == ' '
    requires forall i :: 0 <= i < |tail| ==> tail[i] == ' '
    ensures Upper(pad + Lower(word) + tail) == pad + word + tail
  {
    var s := pad + Lower(word) + tail;
    var padded := pad + word + tail;
    var upper := Upper(s);
    forall i | 0 <= i < |s|
      ensures upper[i] == padded[i]
    {
      if |pad| <= i < |pad| + |word| {
        assert s[i] == LowerChar(word[i - |pad|]);
      }
    }
  }

  lemma PaddingTrimmed(pad: string, word: string, tail: string)
    requires word != [] && forall i :: 0 <= i < |word| ==> 'A' <= word[i] <= 'Z'
    requires forall i :: 0 <= i < |pad| ==> pad[i] == ' '
    requires forall i :: 0 <= i < |tail| ==> tail[i] == ' '
    ensures Trim(pad + word + tail) == word
  {
    var padded := pad + word + tail;
    assert padded[|pad|..|pad| + |word|] == word;
    TrimExact(padded, |pad|, |pad| + |word|);
  }

  /** One element of the request's `fields` array; an absent member is `None`. */
  datatype FieldInput = FieldInput(
    pageNumber: Option<int>,
    x: Option<int>,
    y: Option<int>,
    width: Option<int>,
    height: Option<int>,
    signerId: Option<Id>,
    kind: Option<string>)

  /** A field passes when every coordinate is present (0 included), its signer exists and its type is allowed. */
  predicate Acceptable(signers: map<Id, Signer>, f: FieldInput) {
    && f.pageNumber.Some? && f.x.Some? && f.y.Some? && f.width.Some? && f.height.Some?
    && f.signerId.Some? && f.signerId.value in signers
    && NormalizeType(f.kind) in AllowedTypes
  }

  /** The row pushed into `data` for an acceptable field. */
  function Normalized(signers: map<Id, Signer>, f: FieldInput): SignatureField
    requires Acceptable(signers, f)
  {
    SignatureField(f.signerId.value, f.pageNumber.value, f.x.value, f.y.value, f.width.value, f.height.value,
                   NormalizeType(f.kind))
  }

  /** The rows of a request whose fields are all acceptable, in input order. */
  function NormalizedAll(signers: map<Id, Signer>, fields: seq<FieldInput>): (r: seq<SignatureField>)
    requires forall i :: 0 <= i < |fields| ==> Acceptable(signers, fields[i])
  {
    seq(|fields|, i requires 0 <= i < |fields| => Normalized(signers, fields[i]))
  }

  /**
   * The validation loop of `createSignatureFields`: the first unacceptable
   * field ends it with 400; otherwise the normalised rows, in input order.
   */
  method ValidateFields(db: EntityStore, fields: seq<FieldInput>) returns (r: Response<seq<SignatureField>>)
    ensures r.Ok? <==> forall i :: 0 <= i < |fields| ==> Acceptable(db.signers, fields[i])
    ensures r.Fail? ==> r.status == 400
    ensures r.Ok? ==> |r.value| == |fields|
                      && forall i :: 0 <= i < |fields| ==> r.value[i] == Normalized(db.signers, fields[i])
  {
    var data: seq<SignatureField> := [];
    for n := 0 to |fields|
      invariant |data| == n
      invariant forall i :: 0 <= i < n ==> Acceptable(db.signers, fields[i]) && data[i] == Normalized(db.signers, fields[i])
    {
      var f := fields[n];
      if f.pageNumber.None? || f.x.None? || f.y.None? || f.width.None? || f.height.None? || f.signerId.None? {
        return Fail(400);
      }
      if f.signerId.value !in db.signers {
        return Fail(400);
      }
      var kind := NormalizeType(f.kind);
      if kind !in AllowedTypes {
        return Fail(400);
      }
      data := data + [SignatureField(f.signerId.value, f.pageNumber.value, f.x.value, f.y.value, f.width.value,
                                     f.height.value, kind)];
    }
    r := Ok(data);
  }

  /**
   * `createSignatureFields`: 400 when `signingRequestId` or a non-empty
   * `fields` array is missing, or when any field fails validation, with
   * nothing stored; otherwise all fields are stored together, in input order,
   * and their number is reported. The request id is only checked for
   * presence: fields are tied to signers, not to the request.
   */
  method CreateSignatureFields(db: EntityStore, signingRequestId: Option<Id>, fields: Option<seq<FieldInput>>)
    returns (r: Response<nat>)
    requires db.Valid()
    modifies db
    ensures db.Valid()
    ensures r.Fail? ==> r.status == 400 && unchanged(db)
    ensures r.Ok? <==> && signingRequestId.Some? && fields.Some? && fields.value != []
                       && forall i :: 0 <= i < |fields.value| ==> Acceptable(old(db.signers), fields.value[i])
    ensures r.Ok? ==>
              && r.value == |fields.value|
              && db.nextId == old(db.nextId) + |fields.value|
              && db.fields == old(db.fields) + Numbered(NormalizedAll(old(db.signers), fields.value), old(db.nextId))
              && unchanged(db`documents, db`envelopes, db`signers, db`signatures, db`audit)
  {
    if signingRequestId.None? || fields.None? || fields.value == [] {
      return Fail(400);
    }
    var signers := db.signers;
    var checked := ValidateFields(db, fields.value);
    if checked.Fail? {
      return Fail(400);
    }
    assert checked.value == NormalizedAll(signers, fields.value);
    StoreFields(db, checked.value);
    r := Ok(|checked.value|);
  }

  /** The `createMany`: the rows get the next ids, in order. */
  method StoreFields(db: EntityStore, rows: seq<SignatureField>)
    requires db.Valid() && forall i :: 0 <= i < |rows| ==> rows[i].signerId in db.signers
    modifies db
    ensures db.Valid()
    ensures db.fields == old(db.fields) + Numbered(rows, old(db.nextId)) && db.nextId == old(db.nextId) + |rows|
    ensures unchanged(db`documents, db`envelopes, db`signers, db`signatures, db`audit)
  {
    var created := Numbered(rows, db.nextId);
    assert forall k :: k in created ==> created[k].signerId in db.signers;
    db.fields := db.fields + created;
    db.nextId := db.nextId + |rows|;
  }

  /**
   * `getSignatureFields`: 400 without a request id; otherwise exactly the
   * fields whose signer belongs to that signing request.
   */
  function GetSignatureFields(db: EntityStore, signingRequestId: Option<Id>): (r: Response<seq<(Id, SignatureField)>>)
    reads db
    requires db.IdsIssued()
    ensures r.Fail? <==> signingRequestId.None?
    ensures r.Fail? ==> r.status == 400
    ensures r.Ok? ==> forall p :: p in r.value <==>
                        && p.0 in db.fields && db.fields[p.0] == p.1
                        && p.1.signerId in db.signers && db.signers[p.1.signerId].envelopeId == signingRequestId.value
  {
    if signingRequestId.None? then Fail(400)
    else
      var id := signingRequestId.value;
      var signers := db.signers;
      var listed := RowsWhere(db.fields, db.nextId,
                              (p: (Id, SignatureField)) => p.1.signerId in signers && signers[p.1.signerId].envelopeId == id);
      Ok(listed)
  }

  /**
   * `deleteSignatureField`: 400 without an id, 404 for an unknown one;
   * otherwise exactly that field is removed.
   */
  method DeleteSignatureField(db: EntityStore, fieldId: Option<Id>) returns (r: Response<Id>)
    requires db.Valid()
    modifies db
    ensures db.Valid()
    ensures fieldId.None? ==> r == Fail(400) && unchanged(db)
    ensures fieldId.Some? && fieldId.value !in old(db.fields) ==> r == Fail(404) && unchanged(db)
    ensures fieldId.Some? && fieldId.value in old(db.fields) ==>
              && r == Ok(fieldId.value)
              && db.fields == old(db.fields) - {fieldId.value}
              && unchanged(db`documents, db`envelopes, db`signers, db`signatures, db`audit, db`nextId)
  {
    if fieldId.None? {
      return Fail(400);
    }
    if fieldId.value !in db.fields {
      return Fail(404);
    }
    db.fields := db.fields - {fieldId.value};
    r := Ok(fieldId.value);
  }
}
