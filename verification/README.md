# Certadillo: what its state machines promise, proved

A Dafny model of the parts of Certadillo whose guarantees are about whole runs. One module
models one part; a module named `...Invariant` says what every step of it keeps, and one
named `...Runs` proves what holds over every run of it, as do `AuditDelivery`, `CmpTampering` and
`ApprovalReplay`; `AcmeControl`, `CmpAnswers` and `CrlRuns` prove what the requests in a run lead to.

| files | part |
|---|---|
| `AuditChain`, `AuditAppends` | the hash-chained audit trail, concurrent appends, anchors |
| `AuditShipping`, `AuditDelivery` | the at-least-once shipper and the receiver's offline check |
| `Seals` | integrity seals against an SQL writer |
| `Certificates`, `CertificateRuns`, `CrlRuns` | status, replacement, revocation, CRL and OCSP |
| `OfflineCrl` | CRLs of an offline root |
| `AcmeOrders`, `AcmeInvariant`, `AcmeRuns`, `AcmeControl` | ACME accounts, orders, authorizations, nonces |
| `CmpTransactions`, `CmpInvariant`, `CmpRuns`, `CmpAnswers`, `CmpTampering` | CMP secrets, transactions, confirmation, polling |
| `DualControl`, `DualControlInvariant`, `DualControlRuns` | approvals and what they set in motion |
| `ApprovalReplay` | approval rows put back as they were before the decision |
| `Bytes`, `Der`, `NamedBits`, `CertId` | codecs |
| `RenewalWindows` | renewal windows and campaigns against the expiry alerts |
| `AlertReconcile`, `AlertRuns` | alert states and notices |
| `CaHierarchy` | roots, subordinates, chains, leaves |
| `Served` | waiting for an endpoint to serve a new certificate |

Code that updates rows in place is a class or a loop over a local table, proved equal to a
function of the old state (`After...`, `Next`); the run theorems are about that function. In
`CmpTransactions` and `DualControl` the class holds a session beside the committed
database, so that rollback, and a commit in the middle of a handler, are explicit.

Conventions. SHA-256, HMAC and signatures are opaque functions; where a theorem needs
them to be injective, or never to produce the genesis marker, that is a hypothesis
(`CollisionFree`, `Unforgeable`, `DistinctMacs`, `Genuine`). One request is one step that commits or rolls back. What the
network, the directory, the policy engine, an upstream CA or a clock says is an input of the
step. A unique column is a commit that fails.

Where the code does not keep a promise on all inputs, the exact condition is proved:

- An approval whose effect raises stays pending, except an `issue_certificate` whose directory
  lookup fails or finds the account disabled: `_apply_logon_sid` commits the session, and with
  it the decision (`ApprovedWithoutEffectIff`, `RaisingLeavesItPendingIff`, `ApprovedWithoutEffect`).
- A seal covers the kind and the fields of a row, not its id. A row that verifies holds its own
  content exactly when no write put content there that was sealed for another row only
  (`RowHoldsItsOwnIff`), and a CMP transaction row has no seal. So a transaction can be handed a
  certificate granted under another approval, and two transactions the same one
  (`CopiedApprovalIsDelivered`, `RepointedTransactionIsDelivered`); it is its own exactly when the
  approved content polled was sealed for an approval that this very transaction asked for
  (`DeliveryIsOwnIff`, `OwnCertificateIff`). A one-time secret is one-time until SQL marks it
  unused (`SpentUnlessRewritten`, `RewrittenSecretEnrollsTwice`).
- A seal never expires. A decided approval can be decided, and issue, again exactly when its row
  was last put back undecided with a seal that fits (`DecidableAgainIff`, `ReplayedApprovalIssuesTwice`).
- Anchors and shipped records are MACed and checked under the current seal key alone; the previous
  key, which rows are still verified with, is not tried. After a rotation a genuine older anchor is
  refused, and a genuine copy passes exactly when every event first arrived sealed with the key
  that checks it (`AnchorPinsHistory`, `AnchorNeedsItsKey`, `ShippingRefinesTheChain`, `RotatedKeyRefusesTheCopy`).
- The audit trail names a revoked certificate by its bare serial. A certificate is reported revoked
  exactly when some certificate of that serial was revoked (`RevokedIffAudited`, `TwinIsReportedRevoked`).
- The CRL and OCSP look rows up by CA and serial. A revoked certificate stays revoked there
  exactly while some row has both; a dropped, moved or renumbered row is forgotten
  (`RevocationSurvivesSqlIff`, `RemovedRowIsForgotten`).
- `generate_crl` and `trusted_status` agree except without a seal key, when only the CRL follows
  the audit trail (`CrlListsExactlyTheRevoked`).
- A row verifies after a key rotation exactly if it is sealed under the new key or the one current
  before; without resealing, a second rotation breaks its seal (`RotationKeepsCurrentSeals`, `SealOutlivesOneRotation`).
- A tampered row cannot be laundered exactly once missing seals are refused (`NoLaunderingIff`).
- `_read_len` undoes `encode_len` exactly below 2^32 (`ReadEncodedLen`).
- The renewal window stays clear of every alert exactly when the certificate's validity is not
  empty (`NoAlertInDefaultWindowIff`).
- A chain keeps its path length limits exactly when its root's limit allows it; the import of an
  offline root does not look at that limit (`PathLengthsHoldIff`).
- A reopened alert whose severity changed is announced twice (`ReopenedWithNewSeverityRepeatsAtOnce`).

## Model

| member | source | states |
|---|---|---|
| AuditChain.HeadPinsHistory | src/certadillo/audit/log.py:25-38 | under a collision-free digest that never yields the genesis marker, two chains ending in the same hash hold the same events |
| AuditChain.HashesDistinct | src/certadillo/audit/log.py:25-38 | no two events of one chain share a hash, so a receiver may drop repeats by hash |
| AuditChain.VerifyChain | src/certadillo/audit/log.py:65-75 | valid exactly when the table is one linked chain; otherwise names the first event that breaks it; head, count and last id are those of the table |
| AuditChain.MakeAnchor | src/certadillo/audit/log.py:89-102 | an anchor comes out exactly for a non-empty intact chain, and it names that chain |
| AuditChain.AnchorProblems | src/certadillo/audit/log.py:142-152 | the mismatch list is empty exactly when every anchor agrees with the table |
| AuditChain.VerifyAgainstAnchors | src/certadillo/audit/log.py:136-153 | valid exactly when the chain is intact and every anchor agrees with it; lists every mismatch in order |
| AuditChain.AnchorPinsHistory | src/certadillo/audit/log.py:89-153 | a genuine anchor agrees with a later intact table if and only if that table begins with the anchored history and, where MACs are checked, the seal key is still the one the anchor was made with, if it was made with one |
| AuditChain.AnchorNeedsItsKey | src/certadillo/integrity.py:119-123 | checked under another seal key than its own, or without one, a genuine anchor is refused for its MAC whatever the table holds; under its own it never is |
| AuditChain.MacIsOptional | src/certadillo/integrity.py:119-123 | an anchor whose MAC is missing or empty is compared by its hash alone |
| AuditChain.AuditLog.Record | src/certadillo/audit/log.py:41-62 | appends one event linked to the head and keeps the chain intact |
| AuditAppends.AppendsNeverFork | src/certadillo/audit/log.py:41-62 | any interleaving of transactions that read a head, append, commit or roll back leaves one linked chain in the table |
| AuditAppends.CommitAppends | src/certadillo/audit/log.py:41-62 | a commit the unique column lets through extends the chain by exactly its rows, in order |
| AuditAppends.CommitSucceedsIff | src/certadillo/db.py:184-186 | a commit goes through if and only if nothing was committed since the transaction read the head for its first row; otherwise its rows are lost |
| AuditAppends.CommittedIsAppendOnly | src/certadillo/audit/log.py:41-62 | what is committed stays, in place, for the rest of the run |
| AuditShipping.VerifyRecords | src/certadillo/audit/shipping.py:137-168 | drops records whose hash was seen, and is valid if and only if every kept one recomputes, links to the one before it, and carries the MAC and the signature that are checked; reports the first fifty problems |
| AuditShipping.ProblemsSay | src/certadillo/audit/shipping.py:147-167 | for any records, the report names a problem for a record if and only if that record has it |
| AuditShipping.Sink.Ship | src/certadillo/audit/shipping.py:302-335 | batches from the cursor until one does not send: cursor, delivered records, count, failure counter and last error |
| AuditShipping.Sink.Send | src/certadillo/audit/shipping.py:316-331 | the cursor moves only when the whole batch arrived; a failed send may have delivered any prefix |
| AuditDelivery.StepKeeps | src/certadillo/audit/shipping.py:302-335 | every append, batch, failure, commit and rollback keeps the copy a prefix of the chain and the cursor within it, however old the rows a batch reads and whatever key it seals with; only a batch changes the copy, adding records under its key |
| AuditDelivery.ShippingRefinesTheChain | src/certadillo/audit/shipping.py:302-335 | over any run, each batch reading the table as of any earlier commit, and sealing with any key, the copy without repeats is a prefix of the chain and contains everything up to the cursor; it passes the receiver's check if and only if MACs are not checked or every event first arrived sealed with the key that checks it |
| AuditDelivery.RotatedKeyRefusesTheCopy | src/certadillo/audit/shipping.py:137-168 | the run that ships one event under one seal key: checked under another, the genuine copy is reported as not from this host |
| AuditDelivery.ForgedRecordIsRefused | src/certadillo/audit/shipping.py:161-162 | a record without a signature, or with one that does not check, is reported wherever it stands, however well it links |
| AuditDelivery.BatchIsBounded | src/certadillo/audit/shipping.py:302-315 | a batch sends at most five hundred events |
| AuditDelivery.HonestRunNeverBreaks | src/certadillo/audit/shipping.py:316-325 | the sender never reports a chain break on its own history, whatever commit it reads |
| AuditDelivery.RolledBackIsSentAgain | src/certadillo/audit/shipping.py:302-335 | at any point of a run, a pass that is committed moves the cursor over what it sent; one that is rolled back leaves it, the next pass sends the same again, and the copy without repeats ends up the same |
| AuditDelivery.ShipCatchesUp | src/certadillo/audit/shipping.py:302-335 | with enough batches and no failure the copy holds at least what every batch could see |
| AuditDelivery.RewriteStopsTheShipper | src/certadillo/audit/shipping.py:316-325 | after any rewrite into another valid chain the next batch is sent if and only if the events before it are exactly those already shipped |
| AuditDelivery.ValidCopyIsAChain | src/certadillo/audit/shipping.py:137-168 | a copy that passes the check from genesis is one linked chain |
| AuditDelivery.ValidCopiesAgree | src/certadillo/audit/shipping.py:137-168 | two copies that pass, under whatever keys, and end in the same hash hold the same events |
| Seals.Table.Insert | src/certadillo/integrity.py:184-200 | an inserted row is sealed under the current key and trusted; every other row keeps its seal and its verdict |
| Seals.Table.Update | src/certadillo/integrity.py:184-200 | an update reseals only a row whose stored state matched its seal; a trusted row stays trusted, an untrusted one keeps its seal |
| Seals.Table.ResealAll | src/certadillo/integrity.py:275-287 | reseals every intact row, leaves the others, and counts both |
| Seals.RotationKeepsVerdicts | src/certadillo/integrity.py:275-287 | at any point of a run, resealing everything and then dropping the previous key leaves every row its values and its verdict |
| Seals.RotationKeepsCurrentSeals | src/certadillo/integrity.py:126-153 | after a rotation a row verifies if and only if it is sealed under the new key or the one current before, or has no seal where none is asked for |
| Seals.SealOutlivesOneRotation | src/certadillo/integrity.py:126-153 | a row sealed under the current key still verifies after one rotation, and after a second one without resealing does not |
| Seals.StepKeeps | src/certadillo/integrity.py:145-200 | application writes, key rotation, resealing and SQL writes of any value with any seal already seen keep every known seal tied to values the application sealed |
| Seals.NoLaunderingIff | src/certadillo/integrity.py:145-200 | over all runs, a row that verifies holds values the application sealed for some row, each from a state it had sealed before, if and only if missing seals are refused |
| Seals.RowHoldsItsOwnIff | src/certadillo/integrity.py:126-153 | a row that verifies holds values sealed for that very row if and only if the last write to it did not put values there that were sealed for another row only |
| Seals.UnsealedRowIsTrusted | src/certadillo/integrity.py:145-153 | before enforcement, values planted without a seal are sealed by the next update |
| Certificates.Collect | src/certadillo/ca/authority.py:458-470 | one CRL entry per row a query finds, in row order |
| Certificates.CrlListsExactlyTheRevoked | src/certadillo/ca/authority.py:446-483 | a CRL lists no certificate twice, and lists exactly those whose trusted status is revoked if and only if it is not the case that sealing is off and a row contradicts the audit trail |
| Certificates.OcspAgreesWithCrl | src/certadillo/revocation/ocsp.py:54-74 | with a key, OCSP answers revoked for exactly the serials on the CRL, whatever was written to the rows |
| Certificates.Database.RequestCertificate | src/certadillo/services.py:666-671 | issues, and links the certificate being renewed to the new row |
| Certificates.Database.GenerateCrl | src/certadillo/ca/authority.py:446-483 | next number, and the revoked and suspect rows of this CA |
| Certificates.Database.Revoke | src/certadillo/services.py:706-739 | marks, publishes and records, or changes nothing and says why |
| CertificateRuns.StepKeeps | src/certadillo/services.py:526-530 | issue, renewal, approved and ACME replacement, scan, revocation and publication keep seals, audit and links consistent |
| CertificateRuns.RevokedIffAudited | src/certadillo/integrity.py:244-272 | in every application run every seal fits; a certificate is reported revoked if and only if some certificate of its serial was revoked, which is when the audit trail has the serial; the tamper scan reports its row if and only if it was another one that was revoked |
| CertificateRuns.TwinIsReportedRevoked | src/certadillo/integrity.py:234-252 | the run that revokes a certificate found elsewhere: a local one of the same serial is then reported revoked and flagged |
| CertificateRuns.NeverBackward | src/certadillo/services.py:666-739 | status only moves active, superseded, revoked; a written replacement link never changes |
| CertificateRuns.ReplacementChainsEnd | src/certadillo/services.py:698-704 | replacement links of certificates issued here lead to strictly newer rows, so following them ends |
| CertificateRuns.RevocationSurvivesSqlIff | src/certadillo/integrity.py:234-252 | after any SQL writes to the rows, a serial that was revoked is on a CA's next CRL, and with serials unique within each CA OCSP answers revoked for it, if and only if some row still has that serial and that CA; any row with the serial is trusted as revoked only |
| CertificateRuns.ListedIff | src/certadillo/ca/authority.py:458-470 | an audited serial is on the CRL of a CA if and only if one of the CA's rows has it |
| CertificateRuns.AnsweredRevokedIff | src/certadillo/revocation/ocsp.py:54-74 | and OCSP answers revoked for it then, and otherwise unknown |
| CertificateRuns.RemovedRowIsForgotten | src/certadillo/ca/authority.py:458-470 | dropping a revoked row, or writing another CA or serial in it, takes the serial off the CRL and makes OCSP answer unknown |
| CrlRuns.RevokesIff | src/certadillo/services.py:706-739 | a revocation goes through exactly for a certificate signed here under a known reason, an upstream one the upstream CA agrees to revoke, or a gateway one; then the row says so and the audit trail has the serial, and otherwise nothing changes |
| CrlRuns.RevokingPublishes | src/certadillo/services.py:706-739 | such a step on a certificate of a CA here puts it, with that reason, on the stored CRL of its CA, where it is for the rest of the run |
| CrlRuns.RevokedIsPublished | src/certadillo/services.py:735-736 | at every point of every run, each revoked certificate of a CA here is on the CRL last published for that CA, with the reason in its row |
| CrlRuns.NumberCountsPublications | src/certadillo/ca/authority.py:446-457 | the number of a stored CRL is how often the run published one for that CA, so each publication has a greater one |
| CrlRuns.ReasonsAreSealed | src/certadillo/ca/authority.py:471-476 | whatever SQL wrote to the rows, a reason on the next CRL stands in a revoked row whose seal fits |
| CrlRuns.OcspOverRuns | src/certadillo/revocation/ocsp.py:54-74 | over every run OCSP answers unknown without a row, revoked if some certificate of that serial was revoked, and otherwise good |
| CrlRuns.RenewalReplaces | src/certadillo/services.py:698-704 | a renewal goes through exactly for an active certificate issued here; the new one is as asked for, sealed, and takes its place for the rest of the run |
| CrlRuns.IssueReplacesActive | src/certadillo/services.py:666-671 | an issue that names a certificate to replace always issues, and replaces it exactly if it is still active |
| CrlRuns.ScanRetires | src/certadillo/services.py:910-925 | a scan supersedes exactly the discovered, active certificate whose endpoint now serves another one |
| OfflineCrl.NormalFindsPrinted | src/certadillo/ca/offline.py:316-324 | a serial typed with any leading zeros and capitals is found as the one printed |
| OfflineCrl.FoundIff | src/certadillo/ca/offline.py:316-324 | what the operator types finds a serial if and only if, apart from capitals and leading zeros, it is one that was signed |
| OfflineCrl.OfflineRoot.Revoke | src/certadillo/ca/offline.py:316-324 | records exactly a serial this root signed, with a known reason |
| OfflineCrl.OfflineRoot.SignCrl | src/certadillo/ca/offline.py:327-343 | the next number over everything revoked so far |
| OfflineCrl.OfflineCa.ImportCrl | src/certadillo/ca/offline.py:184-217 | accepts exactly a genuine, newer, current CRL, and otherwise changes nothing |
| OfflineCrl.AcceptedIff | src/certadillo/ca/offline.py:184-217 | over every run, a CRL that is handed in is accepted if and only if the root signed it, its number is above that of every one accepted before, and the time it promises the next one for has not come |
| OfflineCrl.SignedCrlIsComplete | src/certadillo/ca/offline.py:327-343 | at any point of a run a signed CRL takes the next number, is good for the days asked for, and has every revocation made before |
| OfflineCrl.RevocationReachesTheServer | src/certadillo/ca/offline.py:184-343 | a revocation made before a CRL was signed is, once that CRL is accepted, on the server's CRL for the rest of the run |
| OfflineCrl.ImportsNeverUnrevoke | src/certadillo/ca/offline.py:184-217 | whatever is reordered, replayed, lost or forged, accepted CRLs have strictly increasing numbers and entries that only grow |
| AcmeOrders.CloseAll | src/certadillo/enrollment/acme.py:249-264 | closes each given order and moves its authorizations, one row at a time, and touches nothing else |
| AcmeOrders.Server.NewOrder | src/certadillo/enrollment/acme.py:306-366 | the new order and its authorizations, or the refusal |
| AcmeOrders.Server.OwnLiveOrder | src/certadillo/enrollment/acme.py:369-378 | another account's order is not found; one past its time becomes invalid |
| AcmeOrders.Server.Challenge | src/certadillo/enrollment/acme.py:481-508 | a pending challenge is answered once: valid, and the order ready when it was the last one; or invalid, and the order with it |
| AcmeOrders.Server.DeactivateAuthz | src/certadillo/enrollment/acme.py:391-408 | a pending or valid authorization is given up and an open order closed |
| AcmeOrders.Server.Finalize | src/certadillo/enrollment/acme.py:512-552 | issues for a ready order whose names the request repeats; a policy refusal closes the order |
| AcmeOrders.Server.DeactivateAccount | src/certadillo/enrollment/acme.py:249-264 | the account, its open orders and their authorizations are closed together |
| AcmeOrders.Server.Housekeeping | src/certadillo/enrollment/acme.py:678-696 | stale orders expire with their pending authorizations, then long-invalid ones are dropped |
| AcmeRuns.ChallengeKeeps | src/certadillo/enrollment/acme.py:481-508 | answering a challenge keeps the order and authorization invariant |
| AcmeRuns.FinalizeKeeps | src/certadillo/enrollment/acme.py:512-552 | finalizing keeps it |
| AcmeRuns.HousekeepingKeeps | src/certadillo/enrollment/acme.py:678-696 | housekeeping keeps it |
| AcmeRuns.StepKeeps | src/certadillo/enrollment/acme.py:147-696 | every handler, nonce and housekeeping step keeps it, and orders and authorizations only move forward |
| AcmeRuns.OrderMatchesItsAuthorizations | src/certadillo/enrollment/acme.py:480-552 | pending: all pending or valid and one pending; ready: all valid; processing or valid: none pending; valid exactly with a certificate |
| AcmeRuns.FinalStatesStay | src/certadillo/enrollment/acme.py:481-552 | valid and invalid orders never change again, so marking an order invalid never hits a valid one |
| AcmeRuns.OneCertificatePerOrder | src/certadillo/enrollment/acme.py:512-552 | at most one certificate is issued per order, for the names and the account it was opened with |
| AcmeRuns.PendingAuthzOrder | src/certadillo/enrollment/acme.py:481-508 | an authorization still pending belongs to an order that is pending or invalid, never to a valid one |
| AcmeRuns.IssueNeedsEveryAuthorization | src/certadillo/enrollment/acme.py:512-552 | the step that issues is one by which the order's own account finalizes it in time, for exactly its names and an active app; it finds the order ready, the account active, and for every name of the certificate there is a valid authorization of that order for that name, for a wildcard one proved over DNS or covered by the app's scope |
| AcmeRuns.NonceAcceptedOnce | src/certadillo/enrollment/acme.py:147-182 | no nonce is accepted twice, and a request whose nonce is not accepted changes nothing |
| AcmeRuns.FreshNonceIsGood | src/certadillo/enrollment/acme.py:147-182 | the nonce an answer carries is new, and good for a request if and only if none has spent it since and the server has not forgotten it |
| AcmeRuns.DeactivatedAccountGetsNothing | src/certadillo/enrollment/acme.py:249-264 | nothing is issued to a deactivated account |
| AcmeRuns.OneOpenRenewal | src/certadillo/enrollment/acme.py:349-366 | at any time at most one open, unexpired order renews a certificate |
| AcmeControl.OrderOpensIff | src/certadillo/enrollment/acme.py:306-366 | an order opens if and only if there are names, policy allows them, and the certificate to renew, if one is named, can be renewed and is not being renewed; it is good for eight hours, with one authorization per name |
| AcmeControl.ProvableOver | src/certadillo/enrollment/acme.py:411-414 | any name can be proved over DNS, and any but a wildcard over HTTP |
| AcmeControl.ValidMeansProved | src/certadillo/enrollment/acme.py:481-508 | every valid authorization goes back to an earlier step of the run: an accepted answer by the account of its order to a pending challenge, that was right and of the kind recorded, or an order opened within the app's scope |
| AcmeControl.ProvedAnswerCounts | src/certadillo/enrollment/acme.py:490-503 | a right answer makes the authorization valid, and its order ready if and only if that was pending and all its other authorizations are valid |
| AcmeControl.FailedAnswerCloses | src/certadillo/enrollment/acme.py:490-503 | a wrong answer ends the authorization and the order, and nothing is issued for that order in the whole run |
| AcmeControl.GivingUpCloses | src/certadillo/enrollment/acme.py:391-405 | giving up an authorization ends it and an order not finalized yet, for which nothing is issued any more |
| AcmeControl.FinalizeEnds | src/certadillo/enrollment/acme.py:512-552 | it issues if and only if the order is the account's, ready, in time, repeated name for name, its app active, and the CA issues; each other outcome leaves the order as listed |
| AcmeControl.PolicyRefusalCloses | src/certadillo/enrollment/acme.py:539-543 | an order the policy refused while it was finalized never gets a certificate |
| AcmeControl.ForeignIsNotFound | src/certadillo/enrollment/acme.py:369-378 | what is not the account's is answered as not found, and nothing changes |
| AcmeControl.DeactivationCloses | src/certadillo/enrollment/acme.py:249-264 | deactivating an account ends exactly its orders under way and their live authorizations |
| AcmeControl.HousekeepingClears | src/certadillo/enrollment/acme.py:678-696 | exactly what is under way and overdue ends, exactly what is over and thirty days past its time is removed, and the rest stays |
| AcmeControl.IssuedNamesWereEarned | src/certadillo/enrollment/acme.py:481-552 | every name of every certificate goes back to a step at which the order's own account proved that name for this order, a wildcard over DNS, or opened the order within its scope |
| CmpTransactions.Endpoint.Handle | src/certadillo/enrollment/cmp.py:569-604 | a message is answered and committed as its handler says, and a handler that fails leaves the database as its last commit left it |
| CmpTransactions.Endpoint.HandleEnrollment | src/certadillo/enrollment/cmp.py:409-457 | certificate or approval, spent secret and transaction in one commit; an already known transaction id fails with nothing committed |
| CmpTransactions.Endpoint.Deliver | src/certadillo/enrollment/cmp.py:460-473 | the transaction gets its certificate and is confirmed or waits for confirmation |
| CmpTransactions.Endpoint.HandleCertConf | src/certadillo/enrollment/cmp.py:476-500 | accepted: confirmed; refused: rejected and revoked in the same commit; wrong hash: nothing |
| CmpTransactions.Endpoint.HandlePoll | src/certadillo/enrollment/cmp.py:503-522 | delivers only behind an approval row whose seal fits and whose content is granted; a tampered or refused one ends the transaction |
| CmpTransactions.Endpoint.Housekeeping | src/certadillo/enrollment/cmp.py:607-619 | marks unconfirmed transactions after fifteen minutes and drops secrets a week after they expire |
| CmpTransactions.MarkUnconfirmed | src/certadillo/enrollment/cmp.py:612-616 | exactly the unconfirmed transactions are marked |
| CmpRuns.EnrollKeeps | src/certadillo/enrollment/cmp.py:409-457 | enrollment keeps the protocol invariant, because a used secret only serves its own transaction and that id is taken |
| CmpRuns.StepKeeps | src/certadillo/enrollment/cmp.py:229-619 | every message, decision, SQL write to an approval with any seal already made, revocation and housekeeping step keeps the invariant |
| CmpRuns.OneEnrollmentPerSecret | src/certadillo/enrollment/cmp.py:229-247 | while SQL writes approvals only, two committed transactions never come from one secret |
| CmpRuns.EnrollmentSpendsItsSecret | src/certadillo/enrollment/cmp.py:229-247 | the step that enrolls with a secret finds it unused and unexpired and leaves it used |
| CmpRuns.RepeatedEnrollmentChangesNothing | src/certadillo/db.py:329 | from the step that starts a transaction to the end of the run, enrolling again under its id changes nothing |
| CmpRuns.TransactionsGoForward | src/certadillo/enrollment/cmp.py:460-522 | while SQL writes approvals only, a transaction's status only moves forward and its certificate, secret and approval never change |
| CmpRuns.DeliveredMeansApproved | src/certadillo/enrollment/cmp.py:503-522 | where missing seals are refused, a certificate delivered behind an approval was issued at a step of the run that granted some approval |
| CmpRuns.DeliveredMeansApprovedIff | src/certadillo/services.py:153-162 | that holds over every run if and only if missing seals are refused |
| CmpRuns.CopiedApprovalIsDelivered | src/certadillo/integrity.py:126-136 | the run that copies a granted approval's sealed columns and seal onto another row: both transactions deliver the one certificate, and the second approval was never granted |
| CmpRuns.RejectedByClientIsRevoked | src/certadillo/enrollment/cmp.py:491-497 | while SQL writes approvals only, a transaction the client rejected has its certificate revoked |
| CmpAnswers.ConfirmationDecides | src/certadillo/enrollment/cmp.py:476-500 | an authentic certConf on a waiting transaction: a first status that accepts under the right hash leaves it confirmed for the rest of the run and every certificate as it was; one that refuses, or no status, leaves it rejected and its certificate revoked for the rest of the run; a wrong hash or a failed revocation changes nothing |
| CmpAnswers.StatusHasItsStep | src/certadillo/enrollment/cmp.py:409-522 | every transaction in every run goes back to the step that gave it its status: confirmed to an accepting certConf or a delivery with implicit confirmation, rejected to a refusing certConf or a poll behind a refused or broken approval, expired to housekeeping |
| CmpAnswers.StartsIff | src/certadillo/enrollment/cmp.py:409-457 | a new transaction starts if and only if the message is authentic and a good request, and issuing neither fails nor is refused |
| CmpAnswers.UnconfirmedExpires | src/certadillo/enrollment/cmp.py:607-619 | housekeeping expires exactly the transactions that wait for a confirmation for more than nine hundred seconds |
| CmpAnswers.SpentSecretServesOne | src/certadillo/enrollment/cmp.py:229-247 | in every run, a secret that enrolled a transaction authenticates exactly messages of that transaction |
| CmpAnswers.FreshSecretUntilItExpires | src/certadillo/enrollment/cmp.py:229-247 | and one that enrolled nobody authenticates whoever has it, exactly until it expires |
| CmpAnswers.SecretsLastAWeek | src/certadillo/enrollment/cmp.py:617-619 | a secret goes exactly with a housekeeping more than a week after it expired |
| CmpAnswers.PollFollowsTheDecision | src/certadillo/enrollment/cmp.py:503-522 | from a decision on, until its row is touched again, a poll behind it is turned down if it refused, and answered with the very certificate it issued if it granted |
| CmpAnswers.PollWaits | src/certadillo/enrollment/cmp.py:508-510 | and before it the poll is told to wait |
| CmpTampering.StepKeeps | src/certadillo/enrollment/cmp.py:229-619 | with SQL also writing any row of the transactions and secrets, every step keeps what is known of decisions, approval rows and certificates |
| CmpTampering.OwnCertificateIff | src/certadillo/enrollment/cmp.py:460-522 | over a run with such writes, every certificate handed out belongs to the transaction it is handed to, and to no other, if and only if no poll reached an approved row whose content was not sealed for an approval its own transaction asked for |
| CmpTampering.DeliveryIsOwnIff | src/certadillo/enrollment/cmp.py:503-522 | the certificate in one answer is, for the rest of the run, one that its own transaction enrolled for or that was issued under an approval it asked for, if and only if the answer is not to such a poll |
| CmpTampering.PollsDeliverGranted | src/certadillo/enrollment/cmp.py:503-522 | where missing seals are refused, and whatever SQL wrote, a certificate a poll hands out was issued at an earlier step, where an approver granted some approval |
| CmpTampering.RepointedTransactionIsDelivered | src/certadillo/enrollment/cmp.py:503-507 | the run that points a waiting transaction at another's granted approval: both polls are answered with the one certificate, no approval row was written in SQL, and the second approval was never granted |
| CmpTampering.SpentUnlessRewritten | src/certadillo/enrollment/cmp.py:229-247 | a shared secret enrolls a second time only after SQL marked it unused in between |
| CmpTampering.RewrittenSecretEnrollsTwice | src/certadillo/enrollment/cmp.py:229-247 | the run in which it does |
| ApprovalReplay.DecidableAgainIff | src/certadillo/services.py:455-463 | after a decision, the approval can be decided again if and only if the last step since that touched its row was an SQL write of an undecided one whose seal fits |
| ApprovalReplay.ReplayedApprovalIssuesTwice | src/certadillo/integrity.py:23-26 | the run that restores a granted row as it was before the decision: one request, two certificates, with missing seals refused |
| DualControl.Platform.Onboard | src/certadillo/services.py:210-225 | an app waits for its approval, or is active when it needs none |
| DualControl.Platform.Decide | src/certadillo/services.py:455-485 | decision and effect in one commit, or a refusal that changes nothing |
| DualControl.Platform.Execute | src/certadillo/services.py:500-555 | the effect of each action; a failing directory lookup commits the decision before it raises |
| DualControl.Platform.RequestSignature | src/certadillo/codesign/service.py:85-115 | a release key's request waits for an approval, a test key's is signed at once |
| DualControl.Platform.SignNow | src/certadillo/codesign/service.py:118-149 | signs exactly a waiting request |
| DualControlRuns.StepKeeps | src/certadillo/services.py:448-555 | every request and decision keeps apps, signing requests, approvals and recorded effects consistent |
| DualControlRuns.DecidedAtMostOnce | src/certadillo/services.py:462-463 | a decided approval never changes again, and an effect it did not have then it never gets |
| DualControlRuns.OnboardingWaits | src/certadillo/services.py:209-225 | a step that onboards an app with approval leaves, for the rest of the run, an app that names an approval asked for at that step, by that person, for that app; the app is active if and only if a later step granted it |
| DualControlRuns.OnboardingWithoutApproval | src/certadillo/services.py:209-225 | a step that onboards without makes the app active for the rest of the run and asks nobody |
| DualControlRuns.AskingWaits | src/certadillo/services.py:448-453 | any other request stays as it was put, and is granted if and only if a later step grants it |
| DualControlRuns.ReleaseSignatureWaits | src/certadillo/codesign/service.py:85-115 | a request to sign with a release key names an approval of its own asked for by the same person, and holds a signature if and only if a later step granted that |
| DualControlRuns.TestSignatureIsImmediate | src/certadillo/codesign/service.py:85-115 | with a test key the signature is there at once, for good, or nothing is left of the request |
| DualControlRuns.DecidesIff | src/certadillo/services.py:455-519 | an undecided approval is decided by a call if and only if its row is intact, the caller neither asked for it nor got their credential from who did, and, to grant it, the app is in the state it was asked in, the requester's credential is live, and the effect does not raise, a failing directory lookup excepted |
| DualControlRuns.ReplySays | src/certadillo/services.py:455-485 | and what the caller is told |
| DualControlRuns.GrantsFitTheApp | src/certadillo/services.py:487-494 | over every run, nothing was granted for an app that was not active at that step, or, to be onboarded, not waiting any more |
| DualControlRuns.NoGrantAfterDeactivation | src/certadillo/services.py:495-497 | nothing is granted to a requester after their credential was switched off |
| DualControlRuns.CredentialLiveIff | src/certadillo/services.py:495-497 | a credential is live from the step that makes it until, and only until, one switches it off, and keeps its maker |
| DualControlRuns.MakerNeverServed | src/certadillo/services.py:466-468 | from the step that makes a credential on, its holder decides nothing its maker asked for |
| DualControlRuns.DecidedBySecondPerson | src/certadillo/services.py:455-498 | every decided approval was decided by one step whose actor was allowed to decide at that moment, with the effect in the same commit unless the directory lookup failed |
| DualControlRuns.NobodyApprovesTheirOwn | src/certadillo/services.py:464-468 | the requester never decides; effects only follow approval, each once |
| DualControlRuns.ApprovedWithoutEffect | src/certadillo/services.py:579-593 | a run in which an approval is granted, its effect fails, and it stays granted with nothing issued |
| DualControlRuns.ApprovedWithoutEffectIff | src/certadillo/services.py:500-519 | over every run, a granted approval lacks its effect if and only if the step that granted it was a certificate whose directory lookup failed |
| DualControlRuns.RaisingLeavesItPendingIff | src/certadillo/services.py:516-519 | as one call sees it: a decision that raises leaves the approval pending if and only if it is not such a lookup |
| DualControlRuns.ActiveOnlyWithApproval | src/certadillo/services.py:209-225 | an app that needed approval is active exactly when that approval was granted, rejected exactly when it was refused |
| DualControlRuns.ReleaseSignatureNeedsSecondPerson | src/certadillo/codesign/service.py:85-156 | a release request holds a signature exactly when its own approval was granted, by somebody else |
| Der.ReadEncodedLen | src/certadillo/crypto/der.py:11-26 | reading a length undoes encoding it for exactly the lengths below 2^32; larger ones are refused |
| Der.ReadLenRefuses | src/certadillo/crypto/der.py:17-26 | the indefinite form and lengths of more than four bytes are refused, and nothing else that is there |
| Der.InnerUndoesTlv | src/certadillo/enrollment/cmp.py:128-136 | dropping a tag gives the contents back; changing it gives the other element |
| Der.SplitSequence | src/certadillo/crypto/der.py:33-46 | the loop yields exactly the elements of the sequence, or the first error |
| Der.SplitOfTlv | src/certadillo/crypto/der.py:29-46 | splitting a sequence built from any elements returns them, for exactly the contents below 2^32 bytes |
| Der.ChildrenConserve | src/certadillo/crypto/der.py:33-46 | the children put together are the bytes they came from |
| Der.ReplacedSignatureSplits | src/certadillo/crypto/der.py:49-55 | the rebuilt structure has three children: the same signed part, the same algorithm, the new bit string |
| Der.ReplacesIff | src/certadillo/crypto/der.py:49-55 | the signature is replaced if and only if the structure splits into three and the first is the part that was signed |
| NamedBits.FailInfo | src/certadillo/enrollment/cmp.py:115-121 | the encoding holds exactly the given bits and its last counted bit is one of them |
| CertId.Base64UrlRoundTrip | src/certadillo/enrollment/ari.py:29-34 | decoding the unpadded encoding gives the bytes back, for every length |
| CertId.Base64UrlIsUrlSafe | src/certadillo/enrollment/ari.py:29-30 | the text holds letters, digits, minus and underscore only, four for every three bytes, rounded up |
| CertId.EitherAlphabet | src/certadillo/enrollment/ari.py:33-34 | decoding takes the standard alphabet as well |
| CertId.SerialBytesMinimal | src/certadillo/enrollment/ari.py:37-39 | the octets give the serial back, never look negative, and none shorter would do |
| CertId.CertIdRoundTrip | src/certadillo/enrollment/ari.py:42-56 | parsing a printed identifier gives both parts back, for exactly the non-empty key identifiers |
| CertId.ParseOfOctets | src/certadillo/enrollment/ari.py:48-56 | an identifier of any octets is refused exactly if a part is empty or the serial would be negative, and otherwise gives the octets and their number |
| RenewalWindows.RoundedToNearest | src/certadillo/enrollment/ari.py:72-78 | a scaled duration is the nearest whole microsecond, a tie going to the even one |
| RenewalWindows.DefaultWindowIsHalfToSixTenths | src/certadillo/enrollment/ari.py:72-78 | the default window runs from half to six tenths of the life, each to the nearest microsecond up to the last binary place of 0.6 |
| RenewalWindows.SuggestionFollowsTheCampaign | src/certadillo/enrollment/ari.py:81-94 | a revoked certificate's window is over; any other has its advice exactly if the campaign is active and it ends earlier, and the default window otherwise |
| RenewalWindows.DeadlineIsClamped | src/certadillo/enrollment/ari.py:146-155 | a deadline is the end named, five minutes before the certificate ends, or five minutes from now: the earlier of the first two, but never before the third |
| RenewalWindows.NoAlertInDefaultWindowIff | src/certadillo/alerting/evaluator.py:39-51 | no instant up to the end of the default window is in any alert level, whatever the thresholds, if and only if the validity is not empty |
| RenewalWindows.NoAlertInSuggestedWindow | src/certadillo/enrollment/ari.py:81-93 | nor is any up to the end of the suggested window of a certificate that is not revoked |
| RenewalWindows.Renewals.CreateCampaign | src/certadillo/enrollment/ari.py:127-169 | refuses what it should without a change, and otherwise advises each selected certificate |
| RenewalWindows.CampaignAdvisesEach | src/certadillo/enrollment/ari.py:146-163 | each covered certificate is advised once, from what stood there before; the others keep their advice |
| RenewalWindows.DeadlinesNeverMoveLater | src/certadillo/enrollment/ari.py:148-163 | over any run of campaigns, immediate ones among them, no certificate's deadline moves later or is lost |
| RenewalWindows.DeadlineIsTheMinimum | src/certadillo/enrollment/ari.py:148-163 | overlapping campaigns that are not immediate fold to the earliest of their own clamped deadlines |
| RenewalWindows.TableHoldsEveryFold | src/certadillo/enrollment/ari.py:127-169 | the advice table holds that fold for every certificate after any run of campaigns |
| AlertReconcile.Compare | src/certadillo/alerting/evaluator.py:316-338 | both passes: every row is what one cycle makes of it, and exactly the due notices are sent |
| AlertReconcile.Evaluator.Reconcile | src/certadillo/alerting/evaluator.py:310-338 | the same on the stored states, for the alerts that fire now |
| AlertRuns.TablesFollow | src/certadillo/alerting/evaluator.py:310-338 | fingerprints do not influence each other |
| AlertRuns.OpenAreTheFiring | src/certadillo/alerting/evaluator.py:316-338 | after every run the open states are exactly the fingerprints that fired in the last cycle, each dated from the cycle in which it began to fire |
| AlertRuns.ResolvedClosesOneEpisode | src/certadillo/alerting/evaluator.py:335-338 | each resolved notice closes one announced episode, and an alert is open exactly while its last notice is a firing one |
| AlertRuns.RepeatsAtTheInterval | src/certadillo/alerting/evaluator.py:327-333 | with constant severity a firing alert is sent again exactly when the repeat interval has passed |
| AlertRuns.NoticesKeepTheirDistance | src/certadillo/alerting/evaluator.py:327-333 | so within an episode notices are that far apart |
| AlertRuns.ChangedSeverityIsSentOnce | src/certadillo/alerting/evaluator.py:319-333 | an open alert that changes its severity is sent at once, and then again exactly when the new interval has passed |
| AlertRuns.RowShowsTheLastNotice | src/certadillo/alerting/evaluator.py:316-338 | the stored time of an open alert is that of its last notice |
| AlertRuns.ReopenedWithNewSeverityRepeatsAtOnce | src/certadillo/alerting/evaluator.py:319-326 | after reopening with another severity the next cycle sends again, however soon |
| CaHierarchy.Authority.CreateRoot | src/certadillo/ca/authority.py:158-186 | a root with path length one, or an error and no change |
| CaHierarchy.Authority.CreateSubordinate | src/certadillo/ca/authority.py:188-234 | path length below the parent's, end clamped to the parent's; refused under a parent that may not have one |
| CaHierarchy.Authority.ImportIssuing | src/certadillo/ca/offline.py:103-181 | an issuing CA that fits its offline root, with the root if it was unknown, or nothing |
| CaHierarchy.Authority.Chain | src/certadillo/ca/authority.py:335-341 | following parent links yields the whole chain and ends |
| CaHierarchy.Authority.DefaultIssuing | src/certadillo/ca/authority.py:77-82 | the newest issuing CA, if there is one |
| CaHierarchy.Authority.Issue | src/certadillo/ca/authority.py:350-361 | a leaf ends no later than its issuer |
| CaHierarchy.ChainsNest | src/certadillo/ca/authority.py:188-234 | every chain ends in a self-signed root, and no certificate outlives one above it; below a root made here none starts before it |
| CaHierarchy.PathLengthsHoldIff | src/certadillo/ca/authority.py:84-89 | a chain keeps every path length limit if and only if its root's own limit allows it, which a root made here does, with strictly decreasing limits |
| CaHierarchy.LeafNeverOutlives | src/certadillo/ca/authority.py:361 | a leaf ends by the validity it was asked for and outlives no CA above it, however the hierarchy grows; it is cut only to its issuer's end |
| CaHierarchy.RootAsAsked | src/certadillo/ca/authority.py:158-186 | a root made here lasts the years asked for and has room for one CA below |
| CaHierarchy.SubordinateIff | src/certadillo/ca/authority.py:188-234 | under a free name and a parent that has not ended, a subordinate is made exactly if that is a root made here; it issues leaves only, and lasts the years asked for or as long as the root |
| CaHierarchy.ImportIff | src/certadillo/ca/offline.py:103-181 | an import goes through exactly for a fitting pair under a free name, if a CA known by the root's name is that very root; the new CA is below it |
| CaHierarchy.NamesStayUnique | src/certadillo/ca/authority.py:158-234 | no two CAs ever share a name |
| CaHierarchy.IssuingAreTheSubordinates | src/certadillo/ca/authority.py:77-82 | a CA issues leaves exactly if it is not a root |
| Served.WaitUntilServed | src/certadillo/provisioning/validation.py:28-49 | true exactly when at least one confirmation is asked for and some window of that many consecutive probes within the budget all match; stops at the first |

## Left out

- Cryptography, ASN.1 libraries, HSM, Vault, LDAP, HTTP, DNS and sink transports: foreign calls; only their outcome and the bytes or records exchanged are modelled.
- The policy engine and folders: a policy decision is an input of the step that asks for it.
- Roles, credentials and the authorization checks before a handler runs, except the dual-control and account checks named above.
- Two handlers overlapping in one session, such as the thread in the ACME challenge handler: a handler is one step.
- Row ids are taken to come from a sequence and never to be reused; SQLite may reuse the id of a deleted last row.
- A certificate signed in a session that is then rolled back: it exists outside the database, but no answer carries it.
- Sealing of rows that existed before seals (`backfill`), and the marker file that turns enforcement on: enforcement is a setting here.
- AuditShipping.Sink.Ship: one sink; the loop over configured sinks, the lag report and the transports' own record limits are not modelled, and a sink that answers success is taken to hold every record.
- AuditShipping.VerifyRecords: says nothing about records whose hash repeats an earlier one, which the code skips unread.
- CertificateRuns.RevokedIffAudited: says that the tamper scan finds no certificate row; the scan also walks apps, approvals, principals, policy folders, targets and installations, whose rows are modelled by `Seals` in general and not one by one.
- CertificateRuns.NeverBackward: takes the backend of a row as fixed; the gateway may set it, once, on a certificate the inventory had already found.
- Certificates: replacement links of discovered certificates may point to an older row; `ReplacementChainsEnd` is about certificates issued here.
- DualControl.Platform.Decide: whether the approval row's seal fits is an input; the run theorems are about rows only the application writes. `Seals` says what an SQL writer can put in one, and `ApprovalReplay` what decisions that allows.
- DualControl.Platform.Execute: creating a CA, a trust anchor, a signing key or a policy change, issuing, and revoking a campaign's rest are recorded as carried out without their own content.
- CmpRuns.OneEnrollmentPerSecret: about runs in which SQL writes approval rows only, like everything `CmpRuns` says about transaction rows; `CmpTampering` has the writes to transactions and secrets, and speaks of the answers clients get.
- CmpTampering: SQL writes to the certificate rows themselves; `CertificateRuns` has those, without CMP.
- AuditDelivery.ShippingRefinesTheChain: one signing key for the whole run; the code makes one on first use and never replaces it.
- CmpRuns.DeliveredMeansApproved: about installations that refuse missing seals; `DeliveredMeansApprovedIff` says that it fails elsewhere.
- CmpTransactions: key derivation (`pbm_key`), message parsing, revocation requests and general messages; a bad message is one that does not verify or is not well formed.
- RenewalWindows.DeadlineIsTheMinimum: does not cover immediate campaigns, whose deadline lies in the past.
- AlertRuns.NoticesKeepTheirDistance: about constant severity, because the code repeats at once after a change.
- AlertReconcile: which conditions raise an alert, and routing to teams and channels.
- EST, SCEP, OIDC, SSH, AD CS templates and the gateway queue, inventory, reports, metrics, the command line and the user interface: mostly one branch each.
