# Document-signing API: envelope and signer lifecycle in Dafny

This project models the core of a multi-tenant document-signing API. An
organization uploads a document. It wraps the document in an envelope (a
signing request) that lists signers. It sends the envelope, and each signer
signs or declines. The envelope, and with it the document, then completes,
is declined, or is revoked by hand. Two background jobs run beside the
handlers: one revokes envelopes that have expired, the other archives
envelopes that were completed more than seven days ago. Every state change
appends a row to an audit log.

The database is one `EntityStore` object (module `Store`). It holds maps for
documents, envelopes, signers, signatures and signature fields, the audit log
as a sequence, and a counter that issues fresh ids. Its invariant `Valid()`
says four things:

- every id was issued by the counter;
- no envelope is EXPIRED, since nothing writes that status;
- every signer's envelope exists;
- every signature belongs to an existing, non-PENDING signer, no signer has
  two signatures, and every signature field belongs to an existing signer.

Each controller and job is a module of methods that change the store. Each
method states its whole new state (`ensures db.x == ...`), keeps `Valid()`,
and is tied to the specification functions and lemmas in `Lifecycle`.
Read-only handlers are functions that read the store.

The remaining modules are:

- `RateLimit`: the tenant-aware rate limiter. A per-organization ceiling is
  cached for five minutes in a class whose methods update the cache.
- `ErrorResponse`: the problem-details error body. It follows section 3.1 of
  RFC 7807, with a constructor, six factories, the database-error
  translation and `toJSON`. JavaScript values are a small `Value` datatype.
- `Text`: the JavaScript string operations the handlers use: `trim` over the
  ECMAScript white-space set, ASCII case mapping, `indexOf` and decimal
  rendering.
- `Listing`: the query shapes, meaning `findMany` with a filter,
  `createMany` numbering and `orderBy createdAt desc`.

## Model

| member | source | states |
|---|---|---|
| Lifecycle.SignOutcome | src/controllers/signer.controller.js:170-191 | after a PENDING signer signs, the envelope completes iff every other signer of that envelope has signed, and is declined iff some signer of it has declined |
| Lifecycle.RevokeSignersOf | src/controllers/envelope.controller.js:356-359 | exactly the signers of the given envelopes become REVOKED; every other signer and the key set are unchanged |
| Lifecycle.SetEnvelopes | src/jobs/revokeExpiredEnvelopes.job.js:36-39 | exactly the given envelopes take the new status and `updatedAt`; all others are unchanged |
| Lifecycle.SetDocuments | src/jobs/revokeExpiredEnvelopes.job.js:42-45 | exactly the given documents take the new status; all others are unchanged |
| Lifecycle.DocumentsOf | src/jobs/revokeExpiredEnvelopes.job.js:42-45 | a document is rewritten iff one of the given envelopes points at it |
| Lifecycle.RevocationEmptiesSelection | src/jobs/revokeExpiredEnvelopes.job.js:15-24 | once every selected envelope is revoked, the sweep selects nothing at the same instant, so a second run is a no-op |
| Lifecycle.ArchivingShrinksSelection | src/jobs/autoArchiveCompleted.job.js:12-22 | archiving envelopes removes exactly them from the archival selection |
| Listing.Rows | src/controllers/document.controller.js:106-114 | a table read lists exactly the stored rows, each once |
| Listing.RowsWhere | src/controllers/signatureField.controller.js:132-136 | `findMany({ where })` lists exactly the stored rows that satisfy the filter, each once |
| Listing.KeysWhere | src/jobs/revokeExpiredEnvelopes.job.js:15-24 | the selected ids are exactly the stored ids whose rows satisfy the filter, in strictly ascending order |
| Listing.Numbered | src/controllers/signatureField.controller.js:96-98 | `createMany` gives the i-th new row the id `first + i` and uses no other id |
| Listing.Where | src/controllers/envelope.controller.js:200-203 | a filter keeps every element that passes exactly as often as it occurs, and drops the rest |
| Listing.SortNewestFirst | src/controllers/document.controller.js:106-110 | `orderBy: { createdAt: "desc" }` is newest first and a permutation of its input |
| Listing.InsertNewestFirst | src/controllers/document.controller.js:106-110 | inserting into a newest-first list keeps it newest first and adds exactly that element |
| Listing.AscendingDistinct | src/jobs/revokeExpiredEnvelopes.job.js:15-24 | a strictly ascending selection names no envelope twice |
| DocumentController.UploadDocument | src/controllers/document.controller.js:7-57 | no file gives 400 and no write. Otherwise one DRAFT document of the caller's organization on a fresh id, titled by the request or else by the original file name, at `/uploads/<filename>`, plus exactly one DOCUMENT_UPLOADED row |
| DocumentController.GetDocument | src/controllers/document.controller.js:59-87 | the document is returned iff it exists in the caller's organization, otherwise 404 |
| DocumentController.GetAllDocuments | src/controllers/document.controller.js:92-129 | 403 iff the role is not ADMIN. Otherwise exactly the organization's documents, each once, newest first, each carrying exactly its envelopes with their signers, and `count` equal to the list length |
| DocumentController.SignersOf | src/controllers/document.controller.js:111 | the included `signers` of an envelope are exactly its signer rows, each once |
| DocumentController.IncludedRequests | src/controllers/document.controller.js:109-113 | the included `signingRequests` of a document are exactly its envelopes, each carrying exactly its signers |
| EnvelopeController.NewSigner | src/controllers/envelope.controller.js:35-39 | a new signer is PENDING on its envelope, named `name \|\| "Unknown"`, with its e-mail present iff given, of the same length and free of upper-case letters |
| EnvelopeController.NewSigners | src/controllers/envelope.controller.js:46-48 | the nested create makes one signer per input, on consecutive fresh ids, in input order |
| EnvelopeController.StoredExpiry | src/controllers/envelope.controller.js:45 | a zero expiry is never stored; the stored expiry is null or the requested one, and every non-zero requested expiry is kept |
| EnvelopeController.CreateEnvelope | src/controllers/envelope.controller.js:7-83 | 404 (ownership, checked first) or 400 (no signers) with no write. Otherwise success iff both pass: a fresh PENDING envelope with its new PENDING signers, one ENVELOPE_CREATED row, documents untouched, `Valid()` kept |
| EnvelopeController.AddEnvelope | src/controllers/envelope.controller.js:41-64 | the writes of a successful create: the envelope on `nextId`, its signers on the next ids, one audit row, and `Valid()` kept |
| EnvelopeController.SendEnvelope | src/controllers/envelope.controller.js:85-133 | 404 outside the organization and 400 unless PENDING, both with no write. Otherwise the document becomes SENT, the envelope IN_PROGRESS, and one ENVELOPE_SENT row is appended |
| EnvelopeController.GetEnvelope | src/controllers/envelope.controller.js:176-215 | 404 for an unknown or foreign envelope, 500 when its document row is missing. Otherwise the envelope, its document, exactly its signers, and exactly the document's audit rows, newest first |
| EnvelopeController.ResendInvitation | src/controllers/envelope.controller.js:220-308 | 404 outside the organization and 400 unless the signer is PENDING. Otherwise no status changes and one INVITATION_RESENT row by "System" naming the signer |
| EnvelopeController.RevocationReason | src/controllers/envelope.controller.js:370 | the recorded reason is never empty: it is the request's reason, kept whenever non-empty, or "No reason provided" |
| EnvelopeController.RevokeEnvelope | src/controllers/envelope.controller.js:313-389 | 404 outside the organization and 400 for COMPLETED, REVOKED or EXPIRED. Otherwise the envelope, its document and every signer of it become REVOKED, and one ENVELOPE_REVOKED row carries the reason |
| SignerController.GetSigner | src/controllers/signer.controller.js:88-108 | 404 iff the signer is not in the caller's organization. Otherwise the signer, its envelope, its document, exactly its fields and exactly its signatures |
| SignerController.SignDocument | src/controllers/signer.controller.js:113-211 | the guards give 401, 500, 403, 404, 400 and 500 in source order, with no write. Success iff the token names the signer, the signer is PENDING, its document exists and the file was produced; then it yields the transaction below |
| SignerController.CommitSignature | src/controllers/signer.controller.js:156-201 | one signature on a fresh id; the signer becomes SIGNED with its type; the envelope and document are recomputed by `Recompute`; one DOCUMENT_SIGNED row by the signer's e-mail; `Valid()` kept |
| SignerController.DeclineSignature | src/controllers/signer.controller.js:216-235 | a missing or bad token or an unknown signer gives 500, a foreign token 403. Otherwise only that signer becomes DECLINED, with no envelope recomputation and no audit row |
| SignerController.ResendInvitation | src/controllers/signer.controller.js:240-277 | exported but wired to no signer route (the routed resend is EnvelopeController.ResendInvitation). 404 outside the organization. Otherwise, with no PENDING guard, one INVITATION_RESENT row by the caller and no other change |
| SignerController.SignedMarker | src/controllers/signer.controller.js:80 | the inserted marker starts with '-' and contains no '.' |
| SignerController.SignedFilePath | src/controllers/signer.controller.js:80 | a path without ".pdf" is unchanged; otherwise the marker is inserted in front of the first ".pdf" and the rest is kept |
| SignerController.SignedFilePathMarksFirstPdf | src/controllers/signer.controller.js:80 | the first ".pdf" of the signed path is the original one, moved right past the marker, and cutting the marker out restores the path |
| SignerController.NoPdfThroughMarker | src/controllers/signer.controller.js:80 | inserting the marker creates no earlier ".pdf" |
| SignerController.ConvertedPdfPath | src/controllers/signer.controller.js:18 | the path changes iff it ends in ".docx" in any case; then that suffix becomes ".pdf", and the result never ends in ".docx" |
| SignerController.ConvertedPdfPathIdempotent | src/controllers/signer.controller.js:18 | converting a converted path changes nothing |
| SignatureFieldController.NormalizeType | src/controllers/signatureField.controller.js:72 | only a missing or empty type takes "SIGNATURE"; the result never starts or ends with white space |
| SignatureFieldController.BlankTypeRejected | src/controllers/signatureField.controller.js:72-73 | an all-blank type passes the default, trims to "" and is rejected |
| SignatureFieldController.AllowedTypeLetters | src/controllers/signatureField.controller.js:6-14 | every allowed type is a non-empty upper-case word |
| SignatureFieldController.PaddedTypeAccepted | src/controllers/signatureField.controller.js:72-73 | an allowed type written in lower case with blanks around it is accepted as that type |
| SignatureFieldController.PaddedWordNormalized | src/controllers/signatureField.controller.js:72 | the normalisation of a padded, lower-cased upper-case word is the word |
| SignatureFieldController.UpperUndoesLower | src/controllers/signatureField.controller.js:72 | upper-casing undoes lower-casing on upper-case letters and leaves the blanks |
| SignatureFieldController.PaddingTrimmed | src/controllers/signatureField.controller.js:72 | `trim` removes exactly the blanks around a word |
| SignatureFieldController.ValidateFields | src/controllers/signatureField.controller.js:38-93 | the loop succeeds iff every field is acceptable (all coordinates present, signer exists, type allowed); it then yields each field's normalised row in input order, and otherwise gives 400 |
| SignatureFieldController.CreateSignatureFields | src/controllers/signatureField.controller.js:19-113 | success iff a request id and a non-empty array are given and every field is acceptable. Then all rows are stored on fresh consecutive ids, in order, and their number is returned; otherwise 400 with nothing stored |
| SignatureFieldController.StoreFields | src/controllers/signatureField.controller.js:96-98 | the rows are added on the next ids, nothing else changes, and `Valid()` is kept |
| SignatureFieldController.GetSignatureFields | src/controllers/signatureField.controller.js:118-148 | 400 iff the request id is missing. Otherwise exactly the fields whose signer belongs to that request |
| SignatureFieldController.DeleteSignatureField | src/controllers/signatureField.controller.js:153-196 | 400 without an id and 404 for an unknown one, with no write. Otherwise exactly that field is removed |
| RevokeExpiredJob.ExpiredQueue | src/jobs/revokeExpiredEnvelopes.job.js:15-24 | the queue holds exactly the envelopes past expiry that are PENDING or IN_PROGRESS, each once |
| RevokeExpiredJob.RevokeExpiredEnvelopes | src/jobs/revokeExpiredEnvelopes.job.js:8-77 | the revoked envelopes are distinct, selected and committed. Without a failure the whole selection is revoked and none is left; a failure names a selected, unrevoked envelope whose transaction threw. The store equals the bulk rewrite of the revoked ones, with their audit rows in order, and keeps `Valid()` |
| RevokeExpiredJob.RevokeQueue | src/jobs/revokeExpiredEnvelopes.job.js:33-69 | the loop revokes a prefix of the queue and stops at the first failing transaction |
| RevokeExpiredJob.RevokeStep | src/jobs/revokeExpiredEnvelopes.job.js:34-66 | one committed transaction extends the sweep's bulk rewrite by one envelope and one audit row |
| RevokeExpiredJob.RevokeOne | src/jobs/revokeExpiredEnvelopes.job.js:34-66 | the transaction: the envelope and its document become REVOKED, every signer of it REVOKED, and one ENVELOPE_AUTO_REVOKED row with the reason |
| AutoArchiveJob.WritesKept | src/jobs/autoArchiveCompleted.job.js:46-71 | how many of the three writes persist when a step throws: none for the move or the document update, one for the envelope update, two for the audit insert, three with no fault |
| AutoArchiveJob.ArchiveQueue | src/jobs/autoArchiveCompleted.job.js:12-22 | the queue holds exactly the COMPLETED envelopes last updated more than seven days ago, each once |
| AutoArchiveJob.WrittenBy | src/jobs/autoArchiveCompleted.job.js:51-59 | a write has reached an envelope iff it was archived, or it is the failing one and its fault came after that write |
| AutoArchiveJob.AutoArchiveCompleted | src/jobs/autoArchiveCompleted.job.js:7-82 | archived and skipped envelopes are distinct and selected; skipped ones lack a document. Without a failure every selection is handled and only skipped ones remain selected; a failure names a selected envelope with a document, not handled, with the fault given. The store holds exactly the writes that persisted, with `Valid()` kept |
| AutoArchiveJob.ArchiveEach | src/jobs/autoArchiveCompleted.job.js:31-74 | the loop partitions a prefix of the queue into archived and skipped envelopes and stops at the first fault, keeping the writes made before it |
| AutoArchiveJob.PartitionStep | src/jobs/autoArchiveCompleted.job.js:31-33 | handling the next queued envelope extends the partition by exactly that envelope |
| AutoArchiveJob.ArchiveStep | src/jobs/autoArchiveCompleted.job.js:46-71 | one envelope's writes extend the sweep's rewrite; a fault keeps just the writes made before it |
| AutoArchiveJob.ArchiveCommitted | src/jobs/autoArchiveCompleted.job.js:51-71 | an envelope whose three writes persist joins the archived ones, with one DOCUMENT_ARCHIVED row |
| AutoArchiveJob.ArchiveInterrupted | src/jobs/autoArchiveCompleted.job.js:46-71 | an envelope whose archival throws keeps exactly the writes made before the fault |
| AutoArchiveJob.ArchiveOne | src/jobs/autoArchiveCompleted.job.js:46-71 | the file move, then the document, envelope and audit writes in that order, each persisting only when no earlier step threw |
| RateLimit.ConfiguredLimit | src/middleware/rateLimit.js:24 | the ceiling is never 0; it is 100 iff the tenant is missing or its limit is null, 0 or 100, and otherwise the tenant's own value |
| RateLimit.FreshEntryServed | src/middleware/rateLimit.js:14-16 | an entry younger than five minutes answers and nothing is written |
| RateLimit.MissRefreshes | src/middleware/rateLimit.js:18-30 | on a miss a successful lookup stores the ceiling stamped now; a failing lookup answers 100 and writes nothing |
| RateLimit.OtherEntriesKept | src/middleware/rateLimit.js:25 | only the queried organization's entry can change |
| RateLimit.RepeatWithinTtl | src/middleware/rateLimit.js:10-26 | within five minutes of a successful miss, a second call answers the same ceiling whatever its lookup would give |
| RateLimit.LimitNeverZero | src/middleware/rateLimit.js:24-25 | no answer is 0, and the cache never comes to hold a 0 ceiling |
| RateLimit.TenantLimitCache.constructor | src/middleware/rateLimit.js:7 | the cache starts empty and valid |
| RateLimit.TenantLimitCache.GetTenantLimit | src/middleware/rateLimit.js:10-31 | the answer and the new cache are those of `TenantLimit`, the answer is never 0, and the no-zero invariant is kept |
| RateLimit.TenantLimitCache.TenantRateLimiter | src/middleware/rateLimit.js:52-75 | a request without a user or with an API key gets no tenant ceiling and leaves the cache alone; any other gets `getTenantLimit` of its organization |
| ErrorResponse.Or | src/components/schemas/ErrorResponse.js:10 | `a \|\| b` is one of its operands, truthy exactly when either operand is, and the first one whenever that is truthy |
| ErrorResponse.Create | src/components/schemas/ErrorResponse.js:2-21 | the object holds the five standard members, `additional`'s properties (which win) and `message` iff `detail \|\| title` is defined; title, detail and instance pass through unless overridden |
| ErrorResponse.CreateDefaults | src/components/schemas/ErrorResponse.js:3-5 | only an absent `type` becomes "about:blank" and only an absent `status` becomes 500 |
| ErrorResponse.CreateMessage | src/components/schemas/ErrorResponse.js:10 | the message is `detail` when truthy, else `title`, and absent when both are undefined |
| ErrorResponse.StatusOf | src/components/schemas/ErrorResponse.js:47-111 | every factory status is a 4xx or 5xx code |
| ErrorResponse.FactoryFixesMembers | src/components/schemas/ErrorResponse.js:47-111 | each factory sets its own type URI, title and status unless `additional` overrides them, and different factories give different statuses |
| ErrorResponse.FirstTarget | src/components/schemas/ErrorResponse.js:118 | `meta?.target?.[0]` is the first target when `meta.target` is a non-empty array, and undefined when `meta` is not an object |
| ErrorResponse.PrismaErrorMapping | src/components/schemas/ErrorResponse.js:113-127 | "P2002" gives a 409 Conflict with `field` set to the first target and no `prismaCode`; any other code gives a 500 with `prismaCode` set and no `field` |
| ErrorResponse.ToJson | src/components/schemas/ErrorResponse.js:27-36 | the body holds the five standard members plus only the properties of `additionalProperties`; those properties keep their values and override a standard member of the same name, and the other standard members are read off the object |
| ErrorResponse.StandardPart | src/components/schemas/ErrorResponse.js:28-33 | the standard part has exactly the five members, each read off the object |
| ErrorResponse.JsonHasStandardMembersOnly | src/components/schemas/ErrorResponse.js:27-36 | a constructed error whose `additional` does not set `additionalProperties` serialises to exactly the five standard members |
| ErrorResponse.FactoryJson | src/components/schemas/ErrorResponse.js:27-36 | a factory-built body has exactly the five standard members, with the factory's status |
| ErrorResponse.ExtensionDropped | src/components/schemas/ErrorResponse.js:34 | an extension member passed to a factory never reaches the body |
| ErrorResponse.PrismaDetailsDropped | src/components/schemas/ErrorResponse.js:34 | as written, the body of a translated database error has neither `field` nor `prismaCode`, only the status 409 or 500 |
| ErrorResponse.ToJsonWithExtensions | src/components/schemas/ErrorResponse.js:27-36 | the corrected body holds the standard members and every enumerable own property except `message` |
| ErrorResponse.PrismaDetailsKept | src/components/schemas/ErrorResponse.js:113-127 | with the corrected body, a duplicate-key error carries `field` set to the first target and status 409, and any other database error carries `prismaCode` and status 500 |
| Text.Trim | src/controllers/signatureField.controller.js:72 | `trim` never leaves white space at either end |
| Text.TrimExact | src/controllers/signatureField.controller.js:72 | if only white space lies outside a slice whose ends are not white space, `trim` returns exactly that slice |
| Text.TrimBlank | src/controllers/signatureField.controller.js:72 | an all-white-space string trims to "" |
| Text.IndexOfFrom | src/controllers/signer.controller.js:80 | `indexOf` finds an occurrence with none before it, or reports that there is none |
| Text.Decimal | src/controllers/signer.controller.js:80 | `Date.now()` renders as a non-empty string of digits |

## Left out

- Transport and side effects are not modelled: JWT signing and verification, e-mail, PDF and DOCX rendering, reading and writing files, `console` output and IP addresses. A token is given as absent, rejected or naming a signer. The PDF pipeline of `signDocument` is given as its output path or as a failure. The archive job's file move is a possible fault.
- Clocks and scheduling: the current time is a parameter (`now`), and the cron wiring of the jobs is not part of this model.
- Concurrency: every request and every job transaction is one atomic step. Interleavings between requests are not modelled.
- Database failures are parameters. The revoke job's failing transactions are a set of envelope ids. The archive job's first failing step per envelope is a map. A handler's unexpected database error (its generic 500 branch) is not modelled beyond the cases the code itself provokes.
- Ids are natural numbers from a counter, not Prisma's generated strings.
- The jobs handle the selected envelopes in ascending id order. The database's `findMany` order is unspecified, so this is one admissible order.
- The revoke job reads the `signingRequest` table and the archive job the `envelope` table. Both are taken to be the same envelope table.
- `updatedAt` is refreshed by every write to an envelope, as Prisma's `@updatedAt` does. The schema file that would say so is not part of this model.
- Coordinates are integers; floating point and NaN are not modelled. A missing value and `null` are both `None`, and a non-string type (which would throw and give 500) is not modelled.
- Case mapping is ASCII only, with no Unicode case folding.
- `createSignatureFields` checks `signingRequestId` only for presence; the model does the same and ties fields to signers only.
- `performedById`, `ipAddress` and the free-form `details` of audit rows are not modelled, apart from the envelope id, signer id and reason. In the envelope routes' `resendInvitation` the caller's id is read as `userId`, which `req.user` does not carry, so that value is undefined. The model records the row as performed by "System" and leaves the undefined column out.
- The caller's `req.user.id` is `Caller.userId`.
- `basicRateLimiter` and the request counting of the `express-rate-limit` instances are library behaviour and are not part of this model. `TenantRateLimiter` returns the ceiling the limiter would be built with.
- `ErrorResponse.send` is Express output and is not modelled. The `stack` property of `Error` is not modelled either.
- `Object.assign` and object spread of a string or array `additional` would copy index keys. The model copies nothing from values that are not objects.
- `JSON.stringify` drops members whose value is undefined. The model keeps them as `Undefined`.
- RateLimit.RepeatWithinTtl: covers only a second call after a miss whose lookup succeeded. After a cache hit, the first entry's age decides instead.

## Findings

| source | as written | input that shows it | evidently intended | confidence | as-written member | corrected member |
|---|---|---|---|---|---|---|
| src/components/schemas/ErrorResponse.js:34 | `toJSON` spreads `this.additionalProperties`, which the constructor never sets; the extension members that `Object.assign(this, additional)` copied are left out of the body | `fromPrismaError({ code: "P2002", meta: { target: ["email"] } })` serialises without `field`, and any other code without `prismaCode` | the body carries the extension members (section 3.2 of RFC 7807), such as `field` and `prismaCode` | medium, not executed | ErrorResponse.PrismaDetailsDropped | ErrorResponse.PrismaDetailsKept |
