/** What every step of the CMP endpoint keeps, and what it leaves behind for good. */
module CmpInvariant {
  import opened Prelude
  import opened CmpTransactions

  predicate IsCert(db: Db, c: nat, origin: Origin) {
    c in db.certs && db.certs[c].origin == origin
  }

  ghost predicate TxnOk(db: Db, x: Txid) {
    x in db.txns &&
    var t := db.txns[x];
    && (t.secret.Some? ==> t.secret.value < db.nextSecret)
    && (t.secret.Some? && t.secret.value in db.secrets ==> db.secrets[t.secret.value].used)
    && (t.approval.Some? ==> t.approval.value in db.asked && db.asked[t.approval.value].txid == Some(x))
    && (t.status == Pending ==> t.approval.Some? && t.cert.None?)
    && (t.status in {WaitingConf, Confirmed, Expired} ==> t.cert.Some?)
    && (t.cert.Some? ==>
          && t.cert.value in db.certs
          && (t.approval.None? ==> IsCert(db, t.cert.value, ForEnrollment(x)))
          && (t.approval.Some? && db.enforced ==> db.certs[t.cert.value].origin.ForApproval?)
          && (t.status == Rejected ==> db.certs[t.cert.value].revoked))
  }

  /** Everything an approver granted under this approval is a certificate issued for it. */
  ghost predicate AskedOk(db: Db, a: nat) {
    a in db.asked &&
    forall k :: k in db.asked[a].contents && k.verdict.Approved? && k.verdict.cert.Some? ==>
                  IsCert(db, k.verdict.cert.value, ForApproval(a))
  }

  /** Where missing seals are refused, a row whose seal fits holds content the application sealed. */
  ghost predicate RowOk(db: Db, a: nat) {
    a in db.approvals && (db.enforced && db.approvals[a].fits ==> Sealed(db, db.approvals[a].content))
  }

  ghost predicate OwnSecret(db: Db, x: Txid, y: Txid) {
    x in db.txns && y in db.txns && (db.txns[x].secret.Some? && db.txns[x].secret == db.txns[y].secret ==> x == y)
  }

  ghost predicate Inv(db: Db) {
    && (forall x {:trigger TxnOk(db, x)} :: x in db.txns ==> TxnOk(db, x))
    && (forall x, y {:trigger OwnSecret(db, x, y)} :: x in db.txns && y in db.txns ==> OwnSecret(db, x, y))
    && Core(db)
  }

  /** The part that does not depend on transactions or secrets. */
  ghost predicate Core(db: Db) { AllAskedOk(db) && AllRowsOk(db) && Bounded(db) }

  /** Ids are handed out in order. */
  ghost predicate Bounded(db: Db) {
    && (forall s :: s in db.secrets ==> s < db.nextSecret)
    && (forall a :: a in db.asked ==> a < db.nextApproval)
    && (forall a :: a in db.approvals ==> a < db.nextApproval)
    && (forall c :: c in db.certs ==> c < db.nextCert)
  }

  /** Pending, then delivered or rejected; delivered, then confirmed, rejected or expired. */
  predicate Forward(a: Status, b: Status) {
    match a
    case Pending => true
    case WaitingConf => b != Pending
    case _ => b == a
  }

  ghost predicate TxnKeeps(t: Txn, u: Txn) {
    && u.secret == t.secret && u.approval == t.approval && u.created == t.created
    && (t.cert.Some? ==> u.cert == t.cert)
    && Forward(t.status, u.status)
  }

  ghost predicate Keeps(db: Db, db': Db) {
    && db'.enforced == db.enforced
    && (forall x {:trigger db.txns[x]} :: x in db.txns ==> x in db'.txns && TxnKeeps(db.txns[x], db'.txns[x]))
    && (forall c {:trigger db.certs[c]} :: c in db.certs ==> c in db'.certs && db'.certs[c].origin == db.certs[c].origin
                                                             && (db.certs[c].revoked ==> db'.certs[c].revoked))
  }

  /** Certificates stay and stay revoked, and decisions stay recorded. */
  ghost predicate Lasts(db: Db, db': Db) {
    && db'.enforced == db.enforced
    && (forall c {:trigger db.certs[c]} :: c in db.certs ==> c in db'.certs && db'.certs[c].origin == db.certs[c].origin
                                                             && (db.certs[c].revoked ==> db'.certs[c].revoked))
    && (forall a {:trigger db.asked[a]} :: a in db.asked ==> a in db'.asked && db'.asked[a].txid == db.asked[a].txid
                                                             && db.asked[a].contents <= db'.asked[a].contents)
  }

  /** And spent secrets stay spent. */
  ghost predicate Grows(db: Db, db': Db) {
    && Lasts(db, db')
    && (forall s {:trigger db'.secrets[s]} :: s in db'.secrets && s < db.nextSecret ==>
                                                s in db.secrets && (db.secrets[s].used ==> db'.secrets[s].used))
    && db.nextSecret <= db'.nextSecret
  }

  ghost predicate AllAskedOk(db: Db) { forall a {:trigger AskedOk(db, a)} :: a in db.asked ==> AskedOk(db, a) }

  ghost predicate AllRowsOk(db: Db) { forall a {:trigger RowOk(db, a)} :: a in db.approvals ==> RowOk(db, a) }

  predicate SameOrExpired(t: Txn, u: Txn) {
    u == t || (t.status == WaitingConf && u == t.(status := Expired))
  }
}
