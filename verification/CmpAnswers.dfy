/** What the messages of a CMP client and the decisions of an approver lead to: every status a
    transaction is in goes back to the step that put it there, and a confirmation, a refusal
    and a poll have the consequences they were sent for. The steps are those of `CmpRuns`. */
module CmpAnswers {
  import opened Prelude
  import opened CmpTransactions
  import opened CmpInvariant
  import opened CmpRuns
  import ApprovalReplay

  // ------------------------------------------------------------ certConf

  /** The client takes the certificate: its first status accepts, under the right hash. */
  predicate TakesIt(c: Confirmation) { c.Status? && c.hashMatches && c.accepts }

  /** The client does not want it: no status at all, or a refusing one under the right hash. */
  predicate RefusesIt(c: Confirmation) { c.NoStatus? || (c.hashMatches && !c.accepts) }

  /** A good certConf for a transaction that waits for one. */
  predicate Confirms(db: Db, step: Step, x: Txid) {
    && step.Receive? && step.message.txid == x && step.message.body.CertConf? && Authentic(db, step.message, step.now)
    && x in db.txns && db.txns[x].status == WaitingConf && db.txns[x].cert.Some?
  }

  lemma ConfirmationStep(db: Db, step: Step, x: Txid)
    requires Inv(db) && Confirms(db, step, x)
    ensures var conf, t := step.message.body.confirmation, Next(db, step);
            && (TakesIt(conf) ==> x in t.txns && t.txns[x].status == Confirmed && t.certs == db.certs)
            && (RefusesIt(conf) && !step.message.body.revocationFails ==>
                  x in t.txns && t.txns[x].status == Rejected && t.txns[x].cert == db.txns[x].cert
                  && db.txns[x].cert.value in t.certs && t.certs[db.txns[x].cert.value].revoked)
            && (!TakesIt(conf) && (!RefusesIt(conf) || step.message.body.revocationFails) ==> t == db)
  {
    assert TxnOk(db, x);
  }

  /** Taken, the transaction stays confirmed and no certificate was touched. Refused, it stays
      rejected and its certificate stays revoked. A wrong hash, or a revocation that fails,
      leaves everything as it was. */
  lemma ConfirmationDecides(enforced: bool, steps: seq<Step>, n: nat, x: Txid)
    requires n < |steps| && Confirms(Run(enforced, steps[..n]), steps[n], x)
    ensures var db, t, later := Run(enforced, steps[..n]), Run(enforced, steps[..n + 1]), Run(enforced, steps);
            var conf, c := steps[n].message.body.confirmation, db.txns[x].cert.value;
            && x in later.txns
            && (TakesIt(conf) ==> later.txns[x].status == Confirmed && t.certs == db.certs)
            && (RefusesIt(conf) && !steps[n].message.body.revocationFails ==>
                  later.txns[x].status == Rejected && later.txns[x].cert == Some(c) && c in later.certs && later.certs[c].revoked)
            && (!TakesIt(conf) && (!RefusesIt(conf) || steps[n].message.body.revocationFails) ==> t == db)
  {
    hide Run, Next, Inv, Keeps, Authentic;
    RunKeeps(enforced, steps[..n]);
    ConfirmationStep(Run(enforced, steps[..n]), steps[n], x);
    assert steps[..n + 1] == steps[..n] + [steps[n]];
    RunSnoc(enforced, steps[..n], steps[n]);
    TransactionsGoForward(enforced, steps, n, x);
    if x in Run(enforced, steps[..n + 1]).txns { TransactionsGoForward(enforced, steps, n + 1, x); }
    if RefusesIt(steps[n].message.body.confirmation) && !steps[n].message.body.revocationFails {
      RejectedByClientIsRevoked(enforced, steps, x);
    }
  }

  // ------------------------------------------------------------ every status has its step

  /** A good message of this transaction. */
  predicate FromClient(db: Db, step: Step, x: Txid) {
    step.Receive? && step.message.txid == x && Authentic(db, step.message, step.now)
  }

  /** A request that can be looked at: well formed, and an update signed with the certificate it updates. */
  predicate GoodRequest(m: Message) {
    m.body.Enroll? && m.body.wellFormed && (m.body.isUpdate ==> m.credential == Signature)
  }

  /** A message that is answered with the certificate. */
  predicate Delivers(step: Step) {
    step.Receive? && (step.message.body.PollReq? || (GoodRequest(step.message) && step.message.body.issuing == Issued))
  }

  /** This step puts transaction `x` into the status it has in `t`. */
  predicate Explains(db: Db, step: Step, x: Txid, t: Txn) {
    match t.status
    case Pending =>
      FromClient(db, step, x) && GoodRequest(step.message) && step.message.body.issuing == NeedsApproval && t.created == step.now
    case WaitingConf => FromClient(db, step, x) && Delivers(step) && !step.message.implicitConfirm
    case Confirmed =>
      && FromClient(db, step, x)
      && if step.message.body.CertConf? then Confirms(db, step, x) && TakesIt(step.message.body.confirmation)
         else Delivers(step) && step.message.implicitConfirm
    case Rejected =>
      && FromClient(db, step, x)
      && if step.message.body.CertConf? then Confirms(db, step, x) && RefusesIt(step.message.body.confirmation)
         else step.message.body.PollReq? && PollTurnsDown(db, x)
    case Expired => step.Housekeeping? && t.created + 900 < step.now && x in db.txns && db.txns[x].status == WaitingConf
  }

  /** The approval row is gone or its seal broken, or it says no. */
  predicate PollTurnsDown(db: Db, x: Txid) {
    && x in db.txns && db.txns[x].status == Pending && db.txns[x].approval.Some?
    && var a := db.txns[x].approval.value;
       Intact(db, a) ==> db.approvals[a].content.verdict == Refused
  }

  lemma EnrollmentExplains(db: Db, m: Message, now: int, x: Txid)
    requires Authentic(db, m, now) && m.body.Enroll? && x in AfterEnroll(db, m, now).0.txns
    requires x !in db.txns || AfterEnroll(db, m, now).0.txns[x] != db.txns[x]
    ensures Explains(db, Receive(m, now), x, AfterEnroll(db, m, now).0.txns[x])
  {}

  lemma CertConfExplains(db: Db, m: Message, now: int, x: Txid)
    requires Authentic(db, m, now) && m.body.CertConf? && x in AfterCertConf(db, m).0.txns
    requires x !in db.txns || AfterCertConf(db, m).0.txns[x] != db.txns[x]
    ensures Explains(db, Receive(m, now), x, AfterCertConf(db, m).0.txns[x])
  {}

  lemma PollExplains(db: Db, m: Message, now: int, x: Txid)
    requires Authentic(db, m, now) && m.body.PollReq? && x in AfterPoll(db, m).0.txns
    requires x !in db.txns || AfterPoll(db, m).0.txns[x] != db.txns[x]
    ensures Explains(db, Receive(m, now), x, AfterPoll(db, m).0.txns[x])
  {}

  lemma StepExplains(db: Db, step: Step, x: Txid)
    requires x in Next(db, step).txns && (x !in db.txns || Next(db, step).txns[x] != db.txns[x])
    ensures Explains(db, step, x, Next(db, step).txns[x])
  {
    hide Explains, AfterEnroll, AfterCertConf, AfterPoll, Authentic;
    match step
    case Receive(m, now) =>
      match m.body {
        case Enroll(_, _, _, _) => EnrollmentExplains(db, m, now, x);
        case CertConf(_, _) => CertConfExplains(db, m, now, x);
        case PollReq => PollExplains(db, m, now, x);
      }
    case Housekeeping(now) => MarkingExplains(db, now, x);
    case _ =>
  }

  lemma MarkingExplains(db: Db, now: int, x: Txid)
    requires x in AfterHousekeeping(db, now).txns && (x !in db.txns || AfterHousekeeping(db, now).txns[x] != db.txns[x])
    ensures Explains(db, Housekeeping(now), x, AfterHousekeeping(db, now).txns[x])
  {}

  ghost predicate ExplainedAt(enforced: bool, steps: seq<Step>, n: nat, x: Txid, t: Txn) {
    n < |steps| && Explains(Run(enforced, steps[..n]), steps[n], x, t)
  }

  /** Confirmed means the client took the certificate, or asked not to have to; rejected, that it
      refused, or that its approval was refused or tampered with; expired, that fifteen minutes
      went by without a word. */
  lemma {:induction false} StatusHasItsStep(enforced: bool, steps: seq<Step>, x: Txid)
    requires x in Run(enforced, steps).txns
    ensures exists n: nat :: ExplainedAt(enforced, steps, n, x, Run(enforced, steps).txns[x])
  {
    hide Next, Explains;
    assert steps != [];
    var k := |steps| - 1;
    var init, t := steps[..k], Run(enforced, steps).txns[x];
    if x in Run(enforced, init).txns && Run(enforced, init).txns[x] == t {
      StatusHasItsStep(enforced, init, x);
      var n: nat :| ExplainedAt(enforced, init, n, x, t);
      assert init[..n] == steps[..n] && init[n] == steps[n];
      assert ExplainedAt(enforced, steps, n, x, t);
    } else {
      StepExplains(Run(enforced, init), steps[k], x);
      assert ExplainedAt(enforced, steps, k, x, t);
    }
  }

  /** A good request under a new id starts a transaction, unless policy or issuing stops it; nothing else does. */
  lemma StartsIff(db: Db, m: Message, now: int)
    requires m.txid !in db.txns
    ensures var (t, reply) := AfterMessage(db, m, now);
            && (m.txid in t.txns <==> Authentic(db, m, now) && GoodRequest(m) && (m.body.issuing == Issued || m.body.issuing == NeedsApproval))
            && (m.txid in t.txns ==>
                  && t.txns[m.txid].created == now && t.txns[m.txid].secret == (if m.credential.Mac? then Some(m.credential.secret) else None)
                  && reply == if m.body.issuing == Issued then Certificate(db.nextCert) else Wait)
            && (m.txid !in t.txns ==> t == db)
  {}

  /** After fifteen minutes without a confirmation, housekeeping marks the transaction, and no other. */
  lemma UnconfirmedExpires(db: Db, now: int, x: Txid)
    requires x in db.txns
    ensures var t := Next(db, Housekeeping(now));
            && x in t.txns
            && t.txns[x] == (if db.txns[x].status == WaitingConf && db.txns[x].created + 900 < now then db.txns[x].(status := Expired)
                             else db.txns[x])
  {}

  // ------------------------------------------------------------ one-time secrets

  /** A shared secret that enrolled a transaction lets in that one, for as long as it is kept, used
      and expired as it is, and no other. */
  lemma SpentSecretServesOne(enforced: bool, steps: seq<Step>, x: Txid, m: Message, now: int)
    requires var db := Run(enforced, steps);
             && x in db.txns && m.credential.Mac? && db.txns[x].secret == Some(m.credential.secret) && m.credential.secret in db.secrets
    ensures Authentic(Run(enforced, steps), m, now) <==> m.verifies && m.txid == x
  {
    RunKeeps(enforced, steps);
    var db := Run(enforced, steps);
    assert TxnOk(db, x);
    if m.txid in db.txns { assert OwnSecret(db, x, m.txid); }
  }

  /** One that enrolled nobody yet lets anybody in who has it, until it expires. */
  lemma FreshSecretUntilItExpires(enforced: bool, steps: seq<Step>, m: Message, now: int)
    requires var db := Run(enforced, steps);
             && m.credential.Mac? && m.credential.secret in db.secrets && !db.secrets[m.credential.secret].used
    ensures Authentic(Run(enforced, steps), m, now) <==> m.verifies && now <= Run(enforced, steps).secrets[m.credential.secret].expires
  {
    RunKeeps(enforced, steps);
    var db := Run(enforced, steps);
    if m.txid in db.txns { assert TxnOk(db, m.txid); }
  }

  /** Secrets are minted unused, and go only with housekeeping a week after they expired. */
  lemma SecretsLastAWeek(db: Db, step: Step, s: nat)
    requires s in db.secrets
    ensures s in Next(db, step).secrets <==> !(step.Housekeeping? && db.secrets[s].expires + 604_800 < step.now)
    ensures s in Next(db, step).secrets && Bounded(db) ==> Next(db, step).secrets[s].expires == db.secrets[s].expires
  {
    if step.Receive? { MessagesKeepSecrets(db, step.message, step.now, s); }
  }

  lemma MessagesKeepSecrets(db: Db, m: Message, now: int, s: nat)
    requires s in db.secrets
    ensures var t := AfterMessage(db, m, now).0; s in t.secrets && t.secrets[s].expires == db.secrets[s].expires
  {}

  // ------------------------------------------------------------ polling follows the decision

  /** At step `n` approval `a` was decided, and nothing touched its row since. */
  ghost predicate Stands(enforced: bool, steps: seq<Step>, n: nat, a: nat) {
    && ApprovalReplay.DecidesAt(enforced, steps, n, a)
    && forall k :: n < k < |steps| ==> !ApprovalReplay.Touches(steps[k], a)
  }

  /** What the step decided. */
  function Decision(db: Db, step: Step): Verdict {
    if step.Refuse? then Refused else if step.Grant? && step.byGateway then Approved(None) else Approved(Some(db.nextCert))
  }

  lemma {:induction false} DecisionStands(enforced: bool, steps: seq<Step>, n: nat, a: nat)
    requires Stands(enforced, steps, n, a)
    ensures Intact(Run(enforced, steps), a) && a < Run(enforced, steps).nextApproval
    ensures Run(enforced, steps).approvals[a].content.verdict == Decision(Run(enforced, steps[..n]), steps[n])
    ensures Decision(Run(enforced, steps[..n]), steps[n]) == Approved(Some(Run(enforced, steps[..n]).nextCert)) ==>
              IsCert(Run(enforced, steps), Run(enforced, steps[..n]).nextCert, ForApproval(a))
    decreases |steps|
  {
    hide Next, Inv, Keeps;
    var init, last := steps[..|steps| - 1], steps[|steps| - 1];
    RunKeeps(enforced, init);
    StepKeeps(Run(enforced, init), last);
    if n + 1 == |steps| {
      DecisionMade(Run(enforced, init), last, a);
    } else {
      assert init[..n] == steps[..n] && init[n] == steps[n];
      forall k | n < k < |init| ensures !ApprovalReplay.Touches(init[k], a) { assert init[k] == steps[k]; }
      DecisionStands(enforced, init, n, a);
      ApprovalReplay.OthersLeaveIt(Run(enforced, init), last, a);
      CertStays(Run(enforced, init), Run(enforced, steps), Run(enforced, steps[..n]).nextCert, ForApproval(a));
    }
  }

  lemma DecisionMade(db: Db, step: Step, a: nat)
    requires Inv(db) && ApprovalReplay.DecidesOn(step, a) && Decidable(db, a)
    ensures Intact(Next(db, step), a) && a < Next(db, step).nextApproval
    ensures Next(db, step).approvals[a].content.verdict == Decision(db, step)
    ensures Decision(db, step) == Approved(Some(db.nextCert)) ==> IsCert(Next(db, step), db.nextCert, ForApproval(a))
  {}

  lemma CertStays(db: Db, db': Db, c: nat, origin: Origin)
    requires Keeps(db, db')
    ensures IsCert(db, c, origin) ==> IsCert(db', c, origin)
  {
    if c in db.certs { assert db.certs[c].origin == db.certs[c].origin; }
  }

  /** This transaction waits for approval `a`, and polls. */
  predicate Polling(db: Db, step: Step, x: Txid, a: nat) {
    && FromClient(db, step, x) && step.message.body.PollReq?
    && x in db.txns && db.txns[x].status == Pending && db.txns[x].approval == Some(a)
  }

  /** As long as the row stands as the approver left it, the client that polls for it is turned
      down if the request was refused, and handed the very certificate the grant issued if it was granted. */
  lemma PollFollowsTheDecision(enforced: bool, steps: seq<Step>, n: nat, step: Step, x: Txid, a: nat)
    requires Stands(enforced, steps, n, a) && Polling(Run(enforced, steps), step, x, a)
    ensures var (t, reply) := AfterMessage(Run(enforced, steps), step.message, step.now);
            var c := Run(enforced, steps[..n]).nextCert;
            && x in t.txns
            && (steps[n].Refuse? ==> reply == NotGranted && t.txns[x].status == Rejected && t.txns[x].cert == Run(enforced, steps).txns[x].cert)
            && (steps[n] == Grant(a, false) ==> reply == Certificate(c) && t.txns[x].cert == Some(c) && IsCert(t, c, ForApproval(a)))
  {
    hide Run;
    DecisionStands(enforced, steps, n, a);
  }

  /** Before any decision the client is told to wait. */
  lemma PollWaits(db: Db, step: Step, x: Txid, a: nat)
    requires Polling(db, step, x, a) && Decidable(db, a)
    ensures AfterMessage(db, step.message, step.now) == (db, Wait)
  {}
}
