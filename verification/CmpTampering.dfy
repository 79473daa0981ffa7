/** Every run of the CMP endpoint in which SQL may also write the tables that carry no seal
    at all: any row of the transactions and of the secrets, at any time, beside the writes
    to approval rows of `CmpRuns`. What then still holds is said about the answers that
    clients get, not about rows anybody could have written. */
module CmpTampering {
  import opened Prelude
  import opened CmpTransactions
  import opened CmpInvariant
  import Runs = CmpRuns

  datatype Step =
    | App(step: Runs.Step)
    | SqlTxn(txid: Txid, row: Option<Txn>)
    | SqlSecret(secret: nat, write: Option<Secret>)

  function Next(db: Db, step: Step): Db {
    match step
    case App(s) => Runs.Next(db, s)
    case SqlTxn(x, None) => db.(txns := db.txns - {x})
    case SqlTxn(x, Some(t)) => db.(txns := db.txns[x := t])
    case SqlSecret(s, None) => db.(secrets := db.secrets - {s})
    case SqlSecret(s, Some(row)) =>
      db.(secrets := db.secrets[s := row], nextSecret := if s < db.nextSecret then db.nextSecret else s + 1)
  }

  function RowOf<K, V>(rows: map<K, V>, k: K): Option<V> { if k in rows then Some(rows[k]) else None }

  /** An SQL write leaves the one row it is about as the writer wants it, or without it, and no other row different. */
  lemma SqlWritesOneRow(db: Db, x: Txid, row: Option<Txn>, s: nat, write: Option<Secret>, y: Txid, r: nat)
    ensures RowOf(Next(db, SqlTxn(x, row)).txns, y) == if y == x then row else RowOf(db.txns, y)
    ensures Next(db, SqlTxn(x, row)).secrets == db.secrets
    ensures RowOf(Next(db, SqlSecret(s, write)).secrets, r) == if r == s then write else RowOf(db.secrets, r)
    ensures Next(db, SqlSecret(s, write)).txns == db.txns
  {}

  function Run(enforced: bool, steps: seq<Step>): Db {
    if steps == [] then Start(enforced) else Next(Run(enforced, steps[..|steps| - 1]), steps[|steps| - 1])
  }

  lemma RunSnoc(enforced: bool, steps: seq<Step>, step: Step)
    ensures Run(enforced, steps + [step]) == Next(Run(enforced, steps), step)
  {
    assert (steps + [step])[..|steps|] == steps;
  }

  // ------------------------------------------------------------ what every step keeps

  /** The unsealed tables say nothing about decisions or certificates. */
  lemma UnsealedKeep(db: Db, txns: map<Txid, Txn>, secrets: map<nat, Secret>, nextSecret: nat)
    requires Core(db) && forall s :: s in secrets ==> s < nextSecret
    ensures var db' := db.(txns := txns, secrets := secrets, nextSecret := nextSecret); Core(db') && Lasts(db, db')
  {
    var db' := db.(txns := txns, secrets := secrets, nextSecret := nextSecret);
    Runs.AskedStaysOk(db, db');
    Runs.RowsStayOk(db, db', {});
  }

  lemma CertKeeps(db: Db, c: nat, cert: Cert, nextCert: nat)
    requires Core(db) && c < nextCert && db.nextCert <= nextCert
    requires c in db.certs ==> cert.origin == db.certs[c].origin && (db.certs[c].revoked ==> cert.revoked)
    ensures var db' := db.(certs := db.certs[c := cert], nextCert := nextCert); Core(db') && Lasts(db, db')
  {
    var db' := db.(certs := db.certs[c := cert], nextCert := nextCert);
    Runs.AskedStaysOk(db, db');
    Runs.RowsStayOk(db, db', {});
  }

  lemma FreshApprovalKeeps(db: Db, txid: Option<Txid>, request: nat)
    requires Core(db)
    ensures var a, content := db.nextApproval, Content(request, Undecided);
            var db' := db.(approvals := db.approvals[a := Row(content, true)], asked := db.asked[a := Asked(txid, {content})],
                           nextApproval := a + 1);
            Core(db') && Lasts(db, db')
  {
    var a, content := db.nextApproval, Content(request, Undecided);
    var db' := db.(approvals := db.approvals[a := Row(content, true)], asked := db.asked[a := Asked(txid, {content})],
                   nextApproval := a + 1);
    hide AllAskedOk, AllRowsOk;
    Runs.FreshApprovalOk(db, db', a, txid, content);
  }

  lemma Known(db: Db, m: Message)
    requires Core(db)
    ensures forall s :: s in Spend(db.secrets, m.credential) ==> s < db.nextSecret
    ensures forall s :: s in db.secrets ==> s < db.nextSecret
  {}

  lemma EnrollKeeps(db: Db, m: Message, now: int)
    requires Core(db) && m.body.Enroll?
    ensures Core(AfterEnroll(db, m, now).0) && Lasts(db, AfterEnroll(db, m, now).0)
  {
    hide Core, Lasts;
    Known(db, m);
    Unchanged(db);
    var db' := AfterEnroll(db, m, now).0;
    var mid := db.(txns := db'.txns, secrets := Spend(db.secrets, m.credential), nextSecret := db.nextSecret);
    UnsealedKeep(db, db'.txns, Spend(db.secrets, m.credential), db.nextSecret);
    FreshApprovalKeeps(mid, Some(m.txid), m.body.request);
    NextCertKeeps(mid, m.txid);
    if db' != db { LastsTrans(db, mid, db'); }
  }

  lemma NextCertKeeps(db: Db, x: Txid)
    requires Core(db)
    ensures var db' := db.(certs := db.certs[db.nextCert := Cert(false, ForEnrollment(x))], nextCert := db.nextCert + 1);
            Core(db') && Lasts(db, db')
  {
    CertKeeps(db, db.nextCert, Cert(false, ForEnrollment(x)), db.nextCert + 1);
  }

  lemma CertConfKeeps(db: Db, m: Message)
    requires Core(db) && m.body.CertConf?
    ensures Core(AfterCertConf(db, m).0) && Lasts(db, AfterCertConf(db, m).0)
  {
    hide Core, Lasts;
    Known(db, m);
    Unchanged(db);
    var db' := AfterCertConf(db, m).0;
    if db' != db {
      var mid := db.(txns := db'.txns, secrets := db.secrets, nextSecret := db.nextSecret);
      UnsealedKeep(db, db'.txns, db.secrets, db.nextSecret);
      if db'.certs != db.certs {
        RevokedKeeps(mid, db.txns[m.txid].cert.value);
        LastsTrans(db, mid, db');
      }
    }
  }

  lemma RevokedKeeps(db: Db, c: nat)
    requires Core(db) && c in db.certs
    ensures var db' := db.(certs := db.certs[c := db.certs[c].(revoked := true)]); Core(db') && Lasts(db, db')
  {
    CertKeeps(db, c, db.certs[c].(revoked := true), db.nextCert);
  }

  lemma PollKeeps(db: Db, m: Message)
    requires Core(db)
    ensures Core(AfterPoll(db, m).0) && Lasts(db, AfterPoll(db, m).0)
  {
    hide Core, Lasts;
    Known(db, m);
    UnsealedKeep(db, AfterPoll(db, m).0.txns, db.secrets, db.nextSecret);
  }

  lemma MessageKeeps(db: Db, m: Message, now: int)
    requires Core(db)
    ensures Core(AfterMessage(db, m, now).0) && Lasts(db, AfterMessage(db, m, now).0)
  {
    hide Core, AfterEnroll, AfterCertConf, AfterPoll;
    if Authentic(db, m, now) {
      match m.body
      case Enroll(_, _, _, _) => EnrollKeeps(db, m, now);
      case CertConf(_, _) => CertConfKeeps(db, m);
      case PollReq => PollKeeps(db, m);
    }
  }

  lemma DecisionKeeps(db: Db, db': Db, a: nat, verdict: Verdict)
    requires Core(db) && a in db.approvals && db' == Runs.Decided(db, a, verdict).(certs := db'.certs, nextCert := db'.nextCert)
    requires verdict != Approved(Some(db.nextCert)) ==> db'.certs == db.certs && !(verdict.Approved? && verdict.cert.Some?)
    requires verdict == Approved(Some(db.nextCert)) ==> db'.certs == db.certs[db.nextCert := Cert(false, ForApproval(a))]
    requires db'.nextCert == (if verdict == Approved(Some(db.nextCert)) then db.nextCert + 1 else db.nextCert)
    ensures Core(db') && Lasts(db, db')
  {
    hide AllAskedOk, AllRowsOk, AskedOk, RowOk;
    Runs.DecisionOk(db, db', a, verdict);
  }

  lemma DroppedRowKeeps(db: Db, a: nat)
    requires Core(db)
    ensures Core(db.(approvals := db.approvals - {a})) && Lasts(db, db.(approvals := db.approvals - {a}))
  {
    Runs.AskedStaysOk(db, db.(approvals := db.approvals - {a}));
    Runs.RowsStayOk(db, db.(approvals := db.approvals - {a}), {});
  }

  lemma HousekeepingKeeps(db: Db, now: int)
    requires Core(db)
    ensures Core(AfterHousekeeping(db, now)) && Lasts(db, AfterHousekeeping(db, now))
  {
    UnsealedKeep(db, AfterHousekeeping(db, now).txns, AfterHousekeeping(db, now).secrets, db.nextSecret);
  }

  lemma MintKeeps(db: Db, expires: int)
    requires Core(db)
    ensures Core(Runs.Next(db, Runs.Mint(expires))) && Lasts(db, Runs.Next(db, Runs.Mint(expires)))
  {
    UnsealedKeep(db, db.txns, db.secrets[db.nextSecret := Secret(expires, false)], db.nextSecret + 1);
  }

  lemma AppKeeps(db: Db, step: Runs.Step)
    requires Core(db)
    ensures Core(Runs.Next(db, step)) && Lasts(db, Runs.Next(db, step))
  {
    hide Lasts, AfterMessage, Runs.Written, AfterHousekeeping, AllAskedOk, AllRowsOk;
    match step
    case Receive(m, now) => MessageKeeps(db, m, now);
    case Grant(a, byGateway) =>
      Unchanged(db);
      var verdict := if byGateway then Approved(None) else Approved(Some(db.nextCert));
      if Runs.Decidable(db, a) { DecisionKeeps(db, Runs.Next(db, step), a, verdict); }
    case Refuse(a) =>
      Unchanged(db);
      if Runs.Decidable(db, a) { DecisionKeeps(db, Runs.Next(db, step), a, Refused); }
    case AskElsewhere(request) => FreshApprovalKeeps(db, None, request);
    case SqlWrite(a, content, withSeal) => Runs.WrittenOk(db, a, content, withSeal);
    case Mint(expires) => MintKeeps(db, expires);
    case Housekeeping(now) => HousekeepingKeeps(db, now);
    case SqlDelete(a) => DroppedRowKeeps(db, a);
    case IssueElsewhere => CertKeeps(db, db.nextCert, Cert(false, Elsewhere), db.nextCert + 1);
    case RevokeCert(c) => if c in db.certs { RevokedKeeps(db, c); } else { Unchanged(db); }
  }

  /** Decisions and certificates do not depend on what anybody wrote to the unsealed tables. */
  lemma StepKeeps(db: Db, step: Step)
    requires Core(db)
    ensures Core(Next(db, step)) && Lasts(db, Next(db, step))
  {
    hide AllAskedOk, AllRowsOk, Lasts, Runs.Next;
    match step
    case App(s) => AppKeeps(db, s);
    case SqlTxn(x, row) => UnsealedKeep(db, Next(db, step).txns, db.secrets, db.nextSecret);
    case SqlSecret(s, row) => SecretsKeep(db, s, row);
  }

  lemma SecretsKeep(db: Db, s: nat, row: Option<Secret>)
    requires Core(db)
    ensures Core(Next(db, SqlSecret(s, row))) && Lasts(db, Next(db, SqlSecret(s, row)))
  {
    hide AllAskedOk, AllRowsOk, Lasts;
    UnsealedKeep(db, db.txns, Next(db, SqlSecret(s, row)).secrets, Next(db, SqlSecret(s, row)).nextSecret);
  }

  lemma {:induction false} RunKeeps(enforced: bool, steps: seq<Step>)
    ensures Core(Run(enforced, steps)) && Run(enforced, steps).enforced == enforced
  {
    if steps != [] {
      RunKeeps(enforced, steps[..|steps| - 1]);
      StepKeeps(Run(enforced, steps[..|steps| - 1]), steps[|steps| - 1]);
    }
  }

  lemma LastsTrans(s: Db, t: Db, w: Db)
    requires Lasts(s, t) && Lasts(t, w)
    ensures Lasts(s, w)
  {
    forall c {:trigger s.certs[c]} | c in s.certs
      ensures c in w.certs && w.certs[c].origin == s.certs[c].origin && (s.certs[c].revoked ==> w.certs[c].revoked)
    {
      assert t.certs[c].origin == s.certs[c].origin;
    }
    forall a {:trigger s.asked[a]} | a in s.asked
      ensures a in w.asked && w.asked[a].txid == s.asked[a].txid && s.asked[a].contents <= w.asked[a].contents
    {
      assert t.asked[a].txid == s.asked[a].txid;
    }
  }

  lemma {:induction false} LaterLasts(enforced: bool, steps: seq<Step>, n: nat)
    requires n <= |steps|
    ensures Lasts(Run(enforced, steps[..n]), Run(enforced, steps))
    decreases |steps|
  {
    hide Lasts, Core, Next;
    if n == |steps| {
      assert steps[..n] == steps;
      Unchanged(Run(enforced, steps));
    } else {
      var init := steps[..|steps| - 1];
      assert init[..n] == steps[..n];
      LaterLasts(enforced, init, n);
      RunKeeps(enforced, init);
      StepKeeps(Run(enforced, init), steps[|steps| - 1]);
      LastsTrans(Run(enforced, steps[..n]), Run(enforced, init), Run(enforced, steps));
    }
  }

  lemma Unchanged(db: Db)
    ensures Lasts(db, db)
  {}

  // ------------------------------------------------------------ whose certificate an answer carries

  /** A message of transaction `x` is answered with certificate `c`. */
  predicate Answers(db: Db, step: Step, x: Txid, c: nat) {
    && step.App? && step.step.Receive? && step.step.message.txid == x
    && AfterMessage(db, step.step.message, step.step.now).1 == Certificate(c)
  }

  ghost predicate AnswersAt(steps: seq<Step>, n: nat, x: Txid, c: nat) {
    n < |steps| && Answers(Run(true, steps[..n]), steps[n], x, c)
  }

  /** `x` enrolled for this very certificate, or for the approval it was issued under. */
  predicate IssuedFor(db: Db, c: nat, x: Txid) {
    c in db.certs &&
    match db.certs[c].origin
    case ForEnrollment(y) => y == x
    case ForApproval(b) => b in db.asked && db.asked[b].txid == Some(x)
    case Elsewhere => false
  }

  /** The application sealed this content for an approval that transaction `x` asked for. */
  predicate AskedBy(db: Db, x: Txid, content: Content) {
    exists b :: b in db.asked && db.asked[b].txid == Some(x) && content in db.asked[b].contents
  }

  /** This poll reaches an approved row whose content was not sealed for its own transaction:
      the row holds another approval's content, or the transaction names another approval. */
  predicate StrayPoll(db: Db, step: Step) {
    && step.App? && step.step.Receive? && step.step.message.body.PollReq?
    && Authentic(db, step.step.message, step.step.now)
    && step.step.message.txid in db.txns
    && db.txns[step.step.message.txid].status == Pending && db.txns[step.step.message.txid].approval.Some?
    && StrayRow(db, step.step.message.txid, db.txns[step.step.message.txid].approval.value)
  }

  predicate StrayRow(db: Db, x: Txid, a: nat) {
    && Intact(db, a)
    && db.approvals[a].content.verdict.Approved? && db.approvals[a].content.verdict.cert.Some?
    && db.approvals[a].content.verdict.cert.value in db.certs
    && !AskedBy(db, x, db.approvals[a].content)
  }

  /** An approval is the application's own doing in both respects: the row holds content sealed
      for it, and the transaction that names it asked for it. Then the poll is not stray. */
  lemma StrayMeansWritten(db: Db, x: Txid, a: nat)
    requires StrayRow(db, x, a)
    ensures a !in db.asked || db.approvals[a].content !in db.asked[a].contents || db.asked[a].txid != Some(x)
  {}

  /** What a certificate was issued for will not change any more. */
  predicate Settled(db: Db, c: nat) {
    c in db.certs && (db.certs[c].origin.ForApproval? ==> db.certs[c].origin.approval in db.asked)
  }

  lemma IssuedForStays(db: Db, later: Db, c: nat, x: Txid)
    requires Lasts(db, later) && Settled(db, c)
    ensures Settled(later, c) && (IssuedFor(later, c, x) <==> IssuedFor(db, c, x))
  {
    assert later.certs[c].origin == db.certs[c].origin;
    if db.certs[c].origin.ForApproval? {
      var b := db.certs[c].origin.approval;
      assert later.asked[b].txid == db.asked[b].txid;
    }
  }

  /** What a poll that delivers has looked at. */
  lemma PollAnswers(db: Db, m: Message, c: nat)
    requires AfterPoll(db, m).1 == Certificate(c)
    ensures m.txid in db.txns && db.txns[m.txid].status == Pending && db.txns[m.txid].approval.Some?
    ensures var a := db.txns[m.txid].approval.value;
            Intact(db, a) && db.approvals[a].content.verdict == Approved(Some(c)) && c in db.certs
    ensures AfterPoll(db, m).0.certs == db.certs && AfterPoll(db, m).0.asked == db.asked
  {}

  lemma PollIssues(db: Db, m: Message, now: int, c: nat)
    requires Core(db) && db.enforced && m.body.PollReq? && Authentic(db, m, now) && AfterPoll(db, m).1 == Certificate(c)
    ensures Settled(AfterPoll(db, m).0, c) && db.certs[c].origin.ForApproval?
    ensures IssuedFor(AfterPoll(db, m).0, c, m.txid) <==> !StrayPoll(db, App(Runs.Receive(m, now)))
  {
    hide AfterPoll, Authentic;
    PollAnswers(db, m, c);
    var content := db.approvals[db.txns[m.txid].approval.value].content;
    assert RowOk(db, db.txns[m.txid].approval.value);
    var b := Runs.SealedNamesItsApproval(db, content);
    if AskedBy(db, m.txid, content) {
      var d :| d in db.asked && db.asked[d].txid == Some(m.txid) && content in db.asked[d].contents;
      assert AskedOk(db, d);
    }
  }

  lemma EnrollmentIssues(db: Db, m: Message, now: int, c: nat)
    requires m.body.Enroll? && AfterEnroll(db, m, now).1 == Certificate(c)
    ensures c in AfterEnroll(db, m, now).0.certs && AfterEnroll(db, m, now).0.certs[c].origin == ForEnrollment(m.txid)
  {}

  lemma AnswerIssues(db: Db, step: Step, x: Txid, c: nat)
    requires Core(db) && db.enforced && Answers(db, step, x, c)
    ensures Settled(Next(db, step), c) && (IssuedFor(Next(db, step), c, x) <==> !StrayPoll(db, step))
    ensures step.step.message.body.PollReq? ==> Next(db, step).certs[c].origin.ForApproval?
  {
    hide AfterEnroll, AfterPoll, Core;
    var m := step.step.message;
    if m.body.Enroll? { EnrollmentIssues(db, m, step.step.now, c); }
    if m.body.PollReq? { PollIssues(db, m, step.step.now, c); PollAnswers(db, m, c); }
  }

  /** The certificate an answer carries is, for the rest of the run, one that its own
      transaction enrolled or asked for, exactly when the answer is not to a stray poll. */
  lemma DeliveryIsOwnIff(steps: seq<Step>, n: nat, x: Txid, c: nat)
    requires AnswersAt(steps, n, x, c)
    ensures Settled(Run(true, steps), c)
    ensures IssuedFor(Run(true, steps), c, x) <==> !StrayPoll(Run(true, steps[..n]), steps[n])
  {
    hide Run, Next, Core, Lasts, Answers, StrayPoll, IssuedFor, Settled;
    assert steps[..n + 1] == steps[..n] + [steps[n]];
    RunSnoc(true, steps[..n], steps[n]);
    RunKeeps(true, steps[..n]);
    AnswerIssues(Run(true, steps[..n]), steps[n], x, c);
    LaterLasts(true, steps, n + 1);
    IssuedForStays(Run(true, steps[..n + 1]), Run(true, steps), c, x);
  }

  /** Every answer carries a certificate of its own transaction. */
  ghost predicate AnswersAreOwn(steps: seq<Step>) {
    forall n: nat, x, c {:trigger AnswersAt(steps, n, x, c)} :: AnswersAt(steps, n, x, c) ==> IssuedFor(Run(true, steps), c, x)
  }

  /** No certificate is handed to two transactions. */
  ghost predicate OneTransactionEach(steps: seq<Step>) {
    forall n: nat, m: nat, x, y, c {:trigger AnswersAt(steps, n, x, c), AnswersAt(steps, m, y, c)} ::
      AnswersAt(steps, n, x, c) && AnswersAt(steps, m, y, c) ==> x == y
  }

  lemma StrayPollAnswers(db: Db, step: Step) returns (x: Txid, c: nat)
    requires StrayPoll(db, step)
    ensures Answers(db, step, x, c)
  {
    x := step.step.message.txid;
    c := db.approvals[db.txns[x].approval.value].content.verdict.cert.value;
  }

  /** Over a whole run, whatever SQL writes to approvals, transactions and secrets: every
      certificate handed out belongs to the transaction it is handed to, and to no other,
      exactly when no poll was stray. */
  lemma OwnCertificateIff(steps: seq<Step>)
    ensures AnswersAreOwn(steps) && OneTransactionEach(steps)
       <==> forall n :: 0 <= n < |steps| ==> !StrayPoll(Run(true, steps[..n]), steps[n])
  {
    hide Run, Answers, StrayPoll;
    if n :| 0 <= n < |steps| && StrayPoll(Run(true, steps[..n]), steps[n]) {
      var x, c := StrayPollAnswers(Run(true, steps[..n]), steps[n]);
      assert AnswersAt(steps, n, x, c);
      DeliveryIsOwnIff(steps, n, x, c);
    } else {
      forall n: nat, x, c {:trigger AnswersAt(steps, n, x, c)} | AnswersAt(steps, n, x, c) ensures IssuedFor(Run(true, steps), c, x) {
        DeliveryIsOwnIff(steps, n, x, c);
      }
    }
  }

  // ------------------------------------------------------------ every poll delivers what somebody granted

  /** At step `n` an approver granted approval `b`, which issued certificate `c`. */
  ghost predicate GrantedAt(steps: seq<Step>, n: nat, b: nat, c: nat) {
    && n < |steps| && steps[n] == App(Runs.Grant(b, false))
    && Runs.Decidable(Run(true, steps[..n]), b) && Run(true, steps[..n]).nextCert == c
  }

  lemma OnlyGrantingIssues(db: Db, step: Step, b: nat, c: nat)
    requires !IsCert(db, c, ForApproval(b)) && IsCert(Next(db, step), c, ForApproval(b))
    ensures step == App(Runs.Grant(b, false)) && Runs.Decidable(db, b) && db.nextCert == c
  {
    hide Runs.Next;
    if step.App? { Runs.OnlyGrantingIssues(db, step.step, b, c); }
  }

  lemma {:induction false} GrantedByAStep(steps: seq<Step>, b: nat, c: nat)
    requires IsCert(Run(true, steps), c, ForApproval(b))
    ensures exists n: nat :: GrantedAt(steps, n, b, c)
  {
    hide Next;
    assert steps != [];
    var k := |steps| - 1;
    var init := steps[..k];
    if IsCert(Run(true, init), c, ForApproval(b)) {
      GrantedByAStep(init, b, c);
      var n: nat :| GrantedAt(init, n, b, c);
      assert init[..n] == steps[..n] && init[n] == steps[n];
      assert GrantedAt(steps, n, b, c);
    } else {
      OnlyGrantingIssues(Run(true, init), steps[k], b, c);
      assert GrantedAt(steps, k, b, c);
    }
  }

  /** Whatever SQL wrote, a certificate that a poll hands out was issued earlier in the run, at
      a step at which an approver granted some approval. */
  lemma PollsDeliverGranted(steps: seq<Step>, n: nat, x: Txid, c: nat)
    requires AnswersAt(steps, n, x, c) && steps[n].step.message.body.PollReq?
    ensures exists k: nat, b: nat :: k < n && GrantedAt(steps, k, b, c)
  {
    hide Run, Core, StrayPoll, IssuedFor, Settled;
    var db := Run(true, steps[..n]);
    RunKeeps(true, steps[..n]);
    AnswerIssues(db, steps[n], x, c);
    PollAnswers(db, steps[n].step.message, c);
    var b := db.certs[c].origin.approval;
    GrantedByAStep(steps[..n], b, c);
    var k: nat :| GrantedAt(steps[..n], k, b, c);
    assert steps[..n][..k] == steps[..k] && steps[..n][k] == steps[k];
    assert k < n && GrantedAt(steps, k, b, c);
  }

  // ------------------------------------------------------------ a transaction that names another approval

  function Lifted(steps: seq<Runs.Step>): (r: seq<Step>)
    ensures |r| == |steps| && forall i :: 0 <= i < |r| ==> r[i] == App(steps[i])
  {
    seq(|steps|, i requires 0 <= i < |steps| => App(steps[i]))
  }

  lemma {:induction false} LiftedRun(enforced: bool, steps: seq<Runs.Step>)
    ensures Run(enforced, Lifted(steps)) == Runs.Run(enforced, steps)
  {
    if steps != [] {
      LiftedRun(enforced, steps[..|steps| - 1]);
      assert Lifted(steps)[..|steps| - 1] == Lifted(steps[..|steps| - 1]);
    }
  }

  /** Transactions `x` and `y` wait on approvals 1 and 2, and 1 is granted. SQL points `y` at it. */
  function Repointed(x: Txid, y: Txid, q: nat, r: nat): seq<Step> {
    Lifted(Runs.OneGranted(x, y, q, r)) + [SqlTxn(y, Some(Txn(None, None, Some(1), Pending, 0)))]
    + [App(Runs.Polls(x))] + [App(Runs.Polls(y))]
  }

  lemma PollStep(steps: seq<Step>, x: Txid, c: nat)
    requires var db := Run(true, steps);
             && x in db.txns && db.txns[x] == Txn(None, None, Some(1), Pending, 0) && Intact(db, 1)
             && db.approvals[1].content.verdict == Approved(Some(c)) && c in db.certs
    ensures Answers(Run(true, steps), App(Runs.Polls(x)), x, c)
    ensures Run(true, steps + [App(Runs.Polls(x))])
         == Run(true, steps).(txns := Run(true, steps).txns[x := Txn(None, Some(c), Some(1), WaitingConf, 0)])
  {
    RunSnoc(true, steps, App(Runs.Polls(x)));
  }

  /** Both are answered with certificate 1. Approval 2 was never granted, and every approval
      row only ever held what the application wrote there. */
  lemma RepointedTransactionIsDelivered(x: Txid, y: Txid, q: nat, r: nat)
    requires x != y
    ensures AnswersAt(Repointed(x, y, q, r), 4, x, 1) && AnswersAt(Repointed(x, y, q, r), 5, y, 1)
    ensures forall i, s :: 0 <= i < 6 && Repointed(x, y, q, r)[i] == App(s) ==>
                             !s.SqlWrite? && !s.SqlDelete? && (s.Grant? ==> s.approval == 1)
  {
    var granted := Lifted(Runs.OneGranted(x, y, q, r));
    LiftedRun(true, Runs.OneGranted(x, y, q, r));
    Runs.AfterOneGranted(x, y, q, r);
    var pointed := granted + [SqlTxn(y, Some(Txn(None, None, Some(1), Pending, 0)))];
    RunSnoc(true, granted, SqlTxn(y, Some(Txn(None, None, Some(1), Pending, 0))));
    PollStep(pointed, x, 1);
    PollStep(pointed + [App(Runs.Polls(x))], y, 1);
    var all := Repointed(x, y, q, r);
    assert |granted| == 3 && all[..4] == pointed && all[..5] == pointed + [App(Runs.Polls(x))];
  }

  // ------------------------------------------------------------ one-time secrets

  /** Step `n` starts a transaction under the shared secret `s`. */
  ghost predicate EnrollsAt(enforced: bool, steps: seq<Step>, n: nat, s: nat) {
    && n < |steps| && steps[n].App? && steps[n].step.Receive? && steps[n].step.message.credential == Mac(s)
    && steps[n].step.message.txid !in Run(enforced, steps[..n]).txns
    && steps[n].step.message.txid in Run(enforced, steps[..n + 1]).txns
  }

  /** SQL marks this secret unused. */
  predicate Unspends(step: Step, s: nat) {
    step.SqlSecret? && step.secret == s && step.write.Some? && !step.write.value.used
  }

  predicate Spent(db: Db, s: nat) {
    s < db.nextSecret && (s in db.secrets ==> db.secrets[s].used)
  }

  lemma EnrollingSpends(db: Db, m: Message, now: int, s: nat)
    requires Core(db) && m.credential == Mac(s) && m.txid !in db.txns && m.txid in AfterMessage(db, m, now).0.txns
    ensures !Spent(db, s) && Spent(AfterMessage(db, m, now).0, s)
  {
    Runs.OnlyEnrollingStarts(db, m, now, m.txid);
  }

  lemma SpentStays(db: Db, step: Step, s: nat)
    requires Core(db) && Spent(db, s) && !Unspends(step, s)
    ensures Spent(Next(db, step), s)
  {
    if step.App? { AppKeepsSpent(db, step.step, s); }
  }

  lemma AppKeepsSpent(db: Db, step: Runs.Step, s: nat)
    requires Spent(db, s)
    ensures Spent(Runs.Next(db, step), s)
  {}

  lemma {:induction false} SpentForLater(enforced: bool, steps: seq<Step>, n: nat, s: nat)
    requires n <= |steps| && Spent(Run(enforced, steps[..n]), s)
    requires forall k :: n <= k < |steps| ==> !Unspends(steps[k], s)
    ensures Spent(Run(enforced, steps), s)
    decreases |steps|
  {
    hide Next, Spent, Core;
    if n == |steps| {
      assert steps[..n] == steps;
    } else {
      var init := steps[..|steps| - 1];
      assert init[..n] == steps[..n];
      forall k | n <= k < |init| ensures !Unspends(init[k], s) { assert init[k] == steps[k]; }
      SpentForLater(enforced, init, n, s);
      RunKeeps(enforced, init);
      SpentStays(Run(enforced, init), steps[|steps| - 1], s);
    }
  }

  /** A shared secret enrolls a second time only after SQL marked it unused in between. */
  lemma SpentUnlessRewritten(enforced: bool, steps: seq<Step>, n: nat, m: nat, s: nat)
    requires n < m && EnrollsAt(enforced, steps, n, s) && EnrollsAt(enforced, steps, m, s)
    ensures exists k :: n < k < m && Unspends(steps[k], s)
  {
    hide Run, Next, Spent, Core;
    if forall k :: n < k < m ==> !Unspends(steps[k], s) {
      var before := steps[..m];
      RunKeeps(enforced, steps[..n]);
      RunKeeps(enforced, before);
      assert steps[..n + 1] == steps[..n] + [steps[n]] && steps[..m + 1] == before + [steps[m]];
      RunSnoc(enforced, steps[..n], steps[n]);
      RunSnoc(enforced, before, steps[m]);
      StartsAndSpends(Run(enforced, steps[..n]), steps[n], s);
      assert before[..n + 1] == steps[..n + 1];
      SpentForLater(enforced, before, n + 1, s);
      StartsAndSpends(Run(enforced, before), steps[m], s);
      assert false;
    }
  }

  lemma StartsAndSpends(db: Db, step: Step, s: nat)
    requires Core(db) && step.App? && step.step.Receive? && step.step.message.credential == Mac(s)
    requires step.step.message.txid !in db.txns && step.step.message.txid in Next(db, step).txns
    ensures !Spent(db, s) && Spent(Next(db, step), s)
  {
    hide AfterMessage, Spent, Core;
    EnrollingSpends(db, step.step.message, step.step.now, s);
  }

  function EnrollsUnder(s: nat, x: Txid): Step {
    App(Runs.Receive(Message(x, Mac(s), true, false, Enroll(false, true, 0, Issued)), 0))
  }

  /** One secret, two transactions, with the row of the secret rewritten in between. */
  function Respent(x: Txid, y: Txid): seq<Step> {
    [] + [App(Runs.Mint(0))] + [EnrollsUnder(1, x)] + [SqlSecret(1, Some(Secret(0, false)))] + [EnrollsUnder(1, y)]
  }

  lemma RewrittenSecretEnrollsTwice(enforced: bool, x: Txid, y: Txid)
    requires x != y
    ensures EnrollsAt(enforced, Respent(x, y), 1, 1) && EnrollsAt(enforced, Respent(x, y), 3, 1)
  {
    var all := Respent(x, y);
    var a: seq<Step> := [] + [App(Runs.Mint(0))];
    RunSnoc(enforced, [], App(Runs.Mint(0)));
    RunSnoc(enforced, a, EnrollsUnder(1, x));
    RunSnoc(enforced, a + [EnrollsUnder(1, x)], SqlSecret(1, Some(Secret(0, false))));
    RunSnoc(enforced, a + [EnrollsUnder(1, x)] + [SqlSecret(1, Some(Secret(0, false)))], EnrollsUnder(1, y));
    assert all[..1] == a && all[..2] == a + [EnrollsUnder(1, x)];
    assert all[..3] == a + [EnrollsUnder(1, x)] + [SqlSecret(1, Some(Secret(0, false)))] && all[..4] == all;
  }
}
