/** CMP enrollment with one-time secrets and confirmed delivery (enrollment/cmp.py). A
    message is handled in one database session: the handler changes the session's rows
    and commits, or it raises and everything since the last commit is rolled back. */
module CmpTransactions {
  import opened Prelude

  /** A transaction id is only ever compared, never taken apart. */
  type Txid = nat

  datatype Status = Pending | WaitingConf | Confirmed | Rejected | Expired

  datatype Secret = Secret(expires: int, used: bool)
  datatype Txn = Txn(secret: Option<nat>, cert: Option<nat>, approval: Option<nat>, status: Status, created: int)

  /** An approved request may have no certificate, when it asks for something else or a
      gateway issues it. */
  datatype Verdict = Undecided | Approved(cert: Option<nat>) | Refused

  /** The sealed fields of an approval row: what was asked for, by whom, and the decision.
      The row's id and the transaction behind it are not among them. */
  datatype Content = Content(request: nat, verdict: Verdict)

  /** `fits`: the stored seal verifies with this content. */
  datatype Row = Row(content: Content, fits: bool)

  /** The audit trail of an approval: the transaction that asked for it, if one did, and every
      content the application sealed for it. */
  datatype Asked = Asked(txid: Option<Txid>, contents: set<Content>)

  datatype Origin = ForEnrollment(txid: Txid) | ForApproval(approval: nat) | Elsewhere
  datatype Cert = Cert(revoked: bool, origin: Origin)

  /** `enforced`: a seal key is configured, and a missing seal does not verify. */
  datatype Db = Db(enforced: bool, secrets: map<nat, Secret>, txns: map<Txid, Txn>, approvals: map<nat, Row>, asked: map<nat, Asked>,
                   certs: map<nat, Cert>, nextSecret: nat, nextApproval: nat, nextCert: nat)

  function Start(enforced: bool): Db { Db(enforced, map[], map[], map[], map[], map[], 1, 1, 1) }

  datatype Credential = Mac(secret: nat) | Signature

  /** What asking the platform for a certificate comes to. */
  datatype Issuing = Issued | NeedsApproval | PolicyRefused | IssuingFails

  /** The first status of a certConf, if it has any. */
  datatype Confirmation = NoStatus | Status(hashMatches: bool, accepts: bool)

  datatype Body =
    | Enroll(isUpdate: bool, wellFormed: bool, request: nat, issuing: Issuing)
    | CertConf(confirmation: Confirmation, revocationFails: bool)
    | PollReq

  /** `verifies`: the MAC or signature over the message is good and its credential is for the path used. */
  datatype Message = Message(txid: Txid, credential: Credential, verifies: bool, implicitConfirm: bool, body: Body)

  datatype Reply = Certificate(id: nat) | Wait | NotGranted | Acknowledged | Error

  const MINUTE: int := 60
  const DAY: int := 24 * 60 * MINUTE

  // ------------------------------------------------------------ one message

  predicate Continuing(db: Db, txid: Txid, secret: nat) {
    txid in db.txns && db.txns[txid].secret == Some(secret)
  }

  /** A used or expired secret still authenticates the transaction it enrolled in. */
  predicate Authentic(db: Db, m: Message, now: int) {
    && m.verifies
    && match m.credential
       case Signature => true
       case Mac(s) => s in db.secrets && ((!db.secrets[s].used && now <= db.secrets[s].expires) || Continuing(db, m.txid, s))
  }

  /** All that a seal says: the application sealed this content, for some approval. */
  predicate Sealed(db: Db, content: Content) {
    exists b :: b in db.asked && content in db.asked[b].contents
  }

  predicate Intact(db: Db, approval: nat) {
    approval in db.approvals && db.approvals[approval].fits
  }

  function Spend(secrets: map<nat, Secret>, c: Credential): map<nat, Secret> {
    if c.Mac? && c.secret in secrets then secrets[c.secret := secrets[c.secret].(used := true)] else secrets
  }

  function SecretOf(c: Credential): Option<nat> {
    if c.Mac? then Some(c.secret) else None
  }

  function Delivered(implicitConfirm: bool): Status {
    if implicitConfirm then Confirmed else WaitingConf
  }

  function AfterEnroll(db: Db, m: Message, now: int): (Db, Reply)
    requires m.body.Enroll?
  {
    if (m.body.isUpdate && m.credential.Mac?) || !m.body.wellFormed then (db, Error)
    else match m.body.issuing
      case PolicyRefused => (db, NotGranted)
      case IssuingFails => (db, Error)
      case NeedsApproval =>
        if m.txid in db.txns then (db, Error)
        else
          var a := db.nextApproval;
          (db.(secrets := Spend(db.secrets, m.credential),
               txns := db.txns[m.txid := Txn(SecretOf(m.credential), None, Some(a), Pending, now)],
               approvals := db.approvals[a := Row(Content(m.body.request, Undecided), true)],
               asked := db.asked[a := Asked(Some(m.txid), {Content(m.body.request, Undecided)})],
               nextApproval := a + 1), Wait)
      case Issued =>
        if m.txid in db.txns then (db, Error)
        else
          var c := db.nextCert;
          (db.(secrets := Spend(db.secrets, m.credential),
               txns := db.txns[m.txid := Txn(SecretOf(m.credential), Some(c), None, Delivered(m.implicitConfirm), now)],
               certs := db.certs[c := Cert(false, ForEnrollment(m.txid))], nextCert := c + 1), Certificate(c))
  }

  function AfterCertConf(db: Db, m: Message): (Db, Reply)
    requires m.body.CertConf?
  {
    if m.txid !in db.txns || db.txns[m.txid].status != WaitingConf then (db, Error)
    else
      var txn := db.txns[m.txid];
      if txn.cert.None? || txn.cert.value !in db.certs then (db, Error)
      else match m.body.confirmation
        case Status(false, _) => (db, Error)
        case Status(true, true) => (db.(txns := db.txns[m.txid := txn.(status := Confirmed)]), Acknowledged)
        case _ =>
          if m.body.revocationFails then (db, Error)
          else (db.(txns := db.txns[m.txid := txn.(status := Rejected)],
                    certs := db.certs[txn.cert.value := db.certs[txn.cert.value].(revoked := true)]), Acknowledged)
  }

  function AfterPoll(db: Db, m: Message): (Db, Reply) {
    if m.txid !in db.txns || db.txns[m.txid].status != Pending || db.txns[m.txid].approval.None? then (db, Error)
    else
      var txn := db.txns[m.txid];
      var rejected := db.(txns := db.txns[m.txid := txn.(status := Rejected)]);
      if !Intact(db, txn.approval.value) then (rejected, Error)
      else match db.approvals[txn.approval.value].content.verdict
        case Undecided => (db, Wait)
        case Refused => (rejected, NotGranted)
        case Approved(None) => (db, Error)
        case Approved(Some(c)) =>
          if c !in db.certs then (db, Error)
          else (db.(txns := db.txns[m.txid := txn.(cert := Some(c), status := Delivered(m.implicitConfirm))]), Certificate(c))
  }

  function AfterMessage(db: Db, m: Message, now: int): (Db, Reply) {
    if !Authentic(db, m, now) then (db, Error)
    else match m.body
      case Enroll(_, _, _, _) => AfterEnroll(db, m, now)
      case CertConf(_, _) => AfterCertConf(db, m)
      case PollReq => AfterPoll(db, m)
  }

  // ------------------------------------------------------------ housekeeping

  predicate Unconfirmed(t: Txn, now: int) { t.status == WaitingConf && t.created < now - 15 * MINUTE }

  function Marked(txns: map<Txid, Txn>, now: int, todo: set<Txid>): map<Txid, Txn> {
    map x | x in txns :: if x !in todo && Unconfirmed(txns[x], now) then txns[x].(status := Expired) else txns[x]
  }

  function AfterHousekeeping(db: Db, now: int): Db {
    db.(txns := Marked(db.txns, now, {}),
        secrets := map s | s in db.secrets && now - 7 * DAY <= db.secrets[s].expires :: db.secrets[s])
  }

  lemma MarkOne(txns: map<Txid, Txn>, now: int, todo: set<Txid>, x: Txid)
    requires todo <= txns.Keys && x in todo
    ensures Marked(txns, now, todo - {x})
         == if Unconfirmed(txns[x], now) then Marked(txns, now, todo)[x := txns[x].(status := Expired)] else Marked(txns, now, todo)
  {}

  method MarkUnconfirmed(txns: map<Txid, Txn>, now: int) returns (out: map<Txid, Txn>)
    ensures out == Marked(txns, now, {})
  {
    out := txns;
    var todo := txns.Keys;
    assert Marked(txns, now, todo) == txns;
    while todo != {}
      invariant todo <= txns.Keys && out == Marked(txns, now, todo)
      decreases todo
    {
      var x :| x in todo;
      MarkOne(txns, now, todo, x);
      if Unconfirmed(txns[x], now) { out := out[x := txns[x].(status := Expired)]; }
      todo := todo - {x};
    }
  }

  // ------------------------------------------------------------ the session

  /** A database and the one session that works on it. */
  class Endpoint {
    var db: Db
    var work: Db

    constructor (enforced: bool)
      ensures db == work == Start(enforced)
    {
      db, work := Start(enforced), Start(enforced);
    }

    method Commit()
      modifies this`db
      ensures db == work
    {
      db := work;
    }

    method Rollback()
      modifies this`work
      ensures work == db
    {
      work := db;
    }

    /** Whatever the handler changed before it failed is gone. */
    method Handle(m: Message, now: int) returns (reply: Reply)
      requires work == db
      modifies this
      ensures work == db
      ensures (db, reply) == AfterMessage(old(db), m, now)
    {
      if !Authentic(work, m, now) { return Error; }
      match m.body {
        case Enroll(_, _, _, _) => reply := HandleEnrollment(m, now);
        case CertConf(_, _) => reply := HandleCertConf(m);
        case PollReq => reply := HandlePoll(m);
      }
      if reply == Error { Rollback(); }
    }

    method HandleEnrollment(m: Message, now: int) returns (reply: Reply)
      requires work == db && m.body.Enroll?
      modifies this
      ensures reply != Error ==> work == db
      ensures (db, reply) == AfterEnroll(old(db), m, now)
    {
      if m.body.isUpdate && m.credential.Mac? { return Error; }
      if !m.body.wellFormed { return Error; }
      match m.body.issuing {
        case PolicyRefused =>
          Commit();
          return NotGranted;
        case IssuingFails => return Error;
        case NeedsApproval =>
          var approval := RequestApproval(m);
          var ok := AddTransaction(m, Some(approval), now);
          if !ok { return Error; }
          Commit();
          return Wait;
        case Issued =>
          reply := IssueNow(m, now);
      }
    }

    method IssueNow(m: Message, now: int) returns (reply: Reply)
      requires work == db && m.body.Enroll?
      modifies this
      ensures m.txid in old(db).txns ==> reply == Error && db == old(db)
      ensures m.txid !in old(db).txns ==> work == db && reply == Certificate(old(db).nextCert)
      ensures m.txid !in old(db).txns ==>
                var c := old(db).nextCert;
                db == old(db).(secrets := Spend(old(db).secrets, m.credential), certs := old(db).certs[c := Cert(false, ForEnrollment(m.txid))],
                  txns := old(db).txns[m.txid := Txn(SecretOf(m.credential), Some(c), None, Delivered(m.implicitConfirm), now)],
                  nextCert := c + 1)
    {
      var cert := work.nextCert;
      work := work.(certs := work.certs[cert := Cert(false, ForEnrollment(m.txid))], nextCert := cert + 1);
      var ok := AddTransaction(m, None, now);
      if !ok { return Error; }
      reply := Deliver(m, cert);
      assert db.txns == old(db).txns[m.txid := db.txns[m.txid]];
    }

    method RequestApproval(m: Message) returns (id: nat)
      requires m.body.Enroll?
      modifies this`work
      ensures id == old(work).nextApproval
      ensures work == old(work).(approvals := old(work).approvals[id := Row(Content(m.body.request, Undecided), true)],
                                 asked := old(work).asked[id := Asked(Some(m.txid), {Content(m.body.request, Undecided)})],
                                 nextApproval := id + 1)
    {
      id := work.nextApproval;
      var content := Content(m.body.request, Undecided);
      work := work.(approvals := work.approvals[id := Row(content, true)], asked := work.asked[id := Asked(Some(m.txid), {content})],
                    nextApproval := id + 1);
    }

    /** Spends the secret, then adds the row; the unique constraint on the transaction id may refuse it. */
    method AddTransaction(m: Message, approval: Option<nat>, now: int) returns (ok: bool)
      modifies this`work
      ensures ok <==> m.txid !in old(work).txns
      ensures ok ==> work == old(work).(secrets := Spend(old(work).secrets, m.credential),
                       txns := old(work).txns[m.txid := Txn(SecretOf(m.credential), None, approval, Pending, now)])
    {
      if m.credential.Mac? && m.credential.secret in work.secrets {
        work := work.(secrets := work.secrets[m.credential.secret := work.secrets[m.credential.secret].(used := true)]);
      }
      if m.txid in work.txns { return false; }
      work := work.(txns := work.txns[m.txid := Txn(SecretOf(m.credential), None, approval, Pending, now)]);
      return true;
    }

    method Deliver(m: Message, cert: nat) returns (reply: Reply)
      requires m.txid in work.txns
      modifies this
      ensures work == db && reply == Certificate(cert)
      ensures db == old(work).(txns := old(work).txns[m.txid :=
                old(work).txns[m.txid].(cert := Some(cert), status := Delivered(m.implicitConfirm))])
    {
      var txn := work.txns[m.txid].(cert := Some(cert));
      txn := txn.(status := if m.implicitConfirm then Confirmed else WaitingConf);
      work := work.(txns := work.txns[m.txid := txn]);
      Commit();
      return Certificate(cert);
    }

    method HandleCertConf(m: Message) returns (reply: Reply)
      requires work == db && m.body.CertConf?
      modifies this
      ensures reply != Error ==> work == db
      ensures (db, reply) == AfterCertConf(old(db), m)
    {
      if m.txid !in work.txns || work.txns[m.txid].status != WaitingConf { return Error; }
      var txn := work.txns[m.txid];
      if txn.cert.None? || txn.cert.value !in work.certs { return Error; }
      var accepted := false;
      if m.body.confirmation.Status? {
        if !m.body.confirmation.hashMatches { return Error; }
        accepted := m.body.confirmation.accepts;
      }
      if accepted {
        work := work.(txns := work.txns[m.txid := txn.(status := Confirmed)]);
      } else {
        // a certificate nobody wants is revoked in the same commit
        work := work.(txns := work.txns[m.txid := txn.(status := Rejected)]);
        if m.body.revocationFails { return Error; }
        work := work.(certs := work.certs[txn.cert.value := work.certs[txn.cert.value].(revoked := true)]);
      }
      Commit();
      return Acknowledged;
    }

    method HandlePoll(m: Message) returns (reply: Reply)
      requires work == db
      modifies this
      ensures reply != Error ==> work == db
      ensures (db, reply) == AfterPoll(old(db), m)
    {
      if m.txid !in work.txns || work.txns[m.txid].status != Pending { return Error; }
      var txn := work.txns[m.txid];
      if txn.approval.None? { return Error; }
      if !Intact(work, txn.approval.value) {
        work := work.(txns := work.txns[m.txid := txn.(status := Rejected)]);
        Commit();
        return Error;
      }
      match work.approvals[txn.approval.value].content.verdict {
        case Undecided => return Wait;
        case Refused =>
          work := work.(txns := work.txns[m.txid := txn.(status := Rejected)]);
          Commit();
          return NotGranted;
        case Approved(None) => return Error;
        case Approved(Some(c)) =>
          if c !in work.certs { return Error; }
          reply := Deliver(m, c);
      }
    }

    method Housekeeping(now: int)
      requires work == db
      modifies this
      ensures work == db == AfterHousekeeping(old(db), now)
    {
      var txns := MarkUnconfirmed(work.txns, now);
      work := work.(txns := txns, secrets := map s | s in work.secrets && now - 7 * DAY <= work.secrets[s].expires :: work.secrets[s]);
      Commit();
    }
  }
}
