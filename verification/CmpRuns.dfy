/** Every run of the CMP endpoint: any messages, approvers deciding, other revocations,
    somebody rewriting or deleting approval rows in SQL, housekeeping at any time. */
module CmpRuns {
  import opened Prelude
  import opened CmpTransactions
  import opened CmpInvariant

  /** An SQL writer can put any content in any approval row, and any seal it has seen with it:
      `withSeal` picks one that fits the content, if the application ever made one. */
  datatype Step =
    | Mint(expires: int)
    | Receive(message: Message, now: int)
    | AskElsewhere(request: nat)
    | Grant(approval: nat, byGateway: bool)
    | Refuse(approval: nat)
    | SqlWrite(approval: nat, content: Content, withSeal: bool)
    | SqlDelete(approval: nat)
    | IssueElsewhere
    | RevokeCert(cert: nat)
    | Housekeeping(now: int)

  /** The approver's decision is sealed; granting issues the certificate in the same commit. */
  function Decided(db: Db, a: nat, verdict: Verdict): Db
    requires a in db.approvals
  {
    var content := db.approvals[a].content.(verdict := verdict);
    var before := if a in db.asked then db.asked[a] else Asked(None, {});
    db.(approvals := db.approvals[a := Row(content, true)],
        asked := db.asked[a := before.(contents := before.contents + {content})])
  }

  predicate Decidable(db: Db, a: nat) { Intact(db, a) && db.approvals[a].content.verdict == Undecided }

  function Granted(db: Db, a: nat): Db
    requires a in db.approvals
  {
    Decided(db, a, Approved(Some(db.nextCert)))
      .(certs := db.certs[db.nextCert := Cert(false, ForApproval(a))], nextCert := db.nextCert + 1)
  }

  /** What another front end, or another kind of request, asks for. */
  function AskedElsewhere(db: Db, request: nat): Db {
    var a, content := db.nextApproval, Content(request, Undecided);
    db.(approvals := db.approvals[a := Row(content, true)], asked := db.asked[a := Asked(None, {content})], nextApproval := a + 1)
  }

  /** Row ids are handed out above every row there is. */
  function Written(db: Db, a: nat, content: Content, withSeal: bool): Db {
    var fits := if withSeal then Sealed(db, content) else !db.enforced;
    db.(approvals := db.approvals[a := Row(content, fits)], nextApproval := if a < db.nextApproval then db.nextApproval else a + 1)
  }

  function Next(db: Db, step: Step): Db {
    match step
    case Mint(expires) =>
      db.(secrets := db.secrets[db.nextSecret := Secret(expires, false)], nextSecret := db.nextSecret + 1)
    case Receive(m, now) => AfterMessage(db, m, now).0
    case AskElsewhere(request) => AskedElsewhere(db, request)
    case Grant(a, byGateway) =>
      if !Decidable(db, a) then db else if byGateway then Decided(db, a, Approved(None)) else Granted(db, a)
    case Refuse(a) => if Decidable(db, a) then Decided(db, a, Refused) else db
    case SqlWrite(a, content, withSeal) => Written(db, a, content, withSeal)
    case SqlDelete(a) => db.(approvals := db.approvals - {a})
    case IssueElsewhere => db.(certs := db.certs[db.nextCert := Cert(false, Elsewhere)], nextCert := db.nextCert + 1)
    case RevokeCert(c) => if c in db.certs then db.(certs := db.certs[c := db.certs[c].(revoked := true)]) else db
    case Housekeeping(now) => AfterHousekeeping(db, now)
  }

  function Run(enforced: bool, steps: seq<Step>): Db {
    if steps == [] then Start(enforced) else Next(Run(enforced, steps[..|steps| - 1]), steps[|steps| - 1])
  }

  // ------------------------------------------------------------ every step keeps it

  lemma SealedGrows(db: Db, db': Db, content: Content)
    requires Lasts(db, db') && Sealed(db, content)
    ensures Sealed(db', content)
  {
    var b :| b in db.asked && content in db.asked[b].contents;
    assert b in db'.asked && content in db'.asked[b].contents;
  }

  /** A row stays as good as it was; a new or rewritten one has to be looked at. */
  lemma RowsStayOk(db: Db, db': Db, changed: set<nat>)
    requires Core(db) && Lasts(db, db')
    requires forall a :: a in db'.approvals && a !in changed ==> a in db.approvals && db'.approvals[a] == db.approvals[a]
    requires forall a :: a in changed && a in db'.approvals ==> RowOk(db', a)
    ensures AllRowsOk(db')
  {
    forall a {:trigger RowOk(db', a)} | a in db'.approvals ensures RowOk(db', a) {
      if a !in changed {
        assert RowOk(db, a);
        if db.enforced && db.approvals[a].fits { SealedGrows(db, db', db.approvals[a].content); }
      }
    }
  }

  lemma AskedStaysOk(db: Db, db': Db)
    requires Core(db) && db'.asked == db.asked && Lasts(db, db')
    ensures AllAskedOk(db')
  {
    forall a {:trigger AskedOk(db', a)} | a in db'.asked ensures AskedOk(db', a) {
      assert AskedOk(db, a);
    }
  }

  lemma SameTxnStaysOk(db: Db, db': Db, x: Txid)
    requires x in db.txns && x in db'.txns && TxnOk(db, x) && Grows(db, db')
    requires SameOrExpired(db.txns[x], db'.txns[x])
    ensures TxnOk(db', x)
  {}

  lemma SameTxnsKeep(db: Db, db': Db)
    requires Inv(db) && db'.txns.Keys == db.txns.Keys && forall x :: x in db.txns ==> SameOrExpired(db.txns[x], db'.txns[x])
    requires Grows(db, db') && Bounded(db') && AllAskedOk(db') && AllRowsOk(db')
    ensures Inv(db') && Keeps(db, db')
  {
    forall x {:trigger TxnOk(db', x)} | x in db'.txns ensures TxnOk(db', x) {
      assert TxnOk(db, x);
      SameTxnStaysOk(db, db', x);
    }
    forall x, y {:trigger OwnSecret(db', x, y)} | x in db'.txns && y in db'.txns ensures OwnSecret(db', x, y) {
      assert OwnSecret(db, x, y);
    }
  }

  /** Changing one transaction in place keeps everything about the others. */
  lemma UpdateKeeps(db: Db, db': Db, x: Txid)
    requires Inv(db) && x in db.txns && x in db'.txns && db'.txns == db.txns[x := db'.txns[x]]
    requires TxnKeeps(db.txns[x], db'.txns[x]) && TxnOk(db', x)
    requires Grows(db, db') && db'.certs.Keys == db.certs.Keys && db' == db.(txns := db'.txns, certs := db'.certs)
    ensures Inv(db') && Keeps(db, db')
  {
    forall y {:trigger TxnOk(db', y)} | y in db'.txns ensures TxnOk(db', y) {
      assert TxnOk(db, y);
      if y != x { SameTxnStaysOk(db, db', y); }
    }
    AskedStaysOk(db, db');
    RowsStayOk(db, db', {});
    forall y, z {:trigger OwnSecret(db', y, z)} | y in db'.txns && z in db'.txns ensures OwnSecret(db', y, z) {
      assert OwnSecret(db, y, z);
    }
  }

  /** A new transaction under a secret that no other transaction has. */
  lemma AddKeeps(db: Db, db': Db, x: Txid)
    requires Inv(db) && x !in db.txns && x in db'.txns && db'.txns == db.txns[x := db'.txns[x]]
    requires TxnOk(db', x) && Grows(db, db') && Bounded(db') && AllAskedOk(db') && AllRowsOk(db')
    requires db'.txns[x].secret.Some? ==> db'.txns[x].secret.value in db.secrets && !db.secrets[db'.txns[x].secret.value].used
    ensures Inv(db') && Keeps(db, db')
  {
    forall y {:trigger TxnOk(db', y)} | y in db'.txns ensures TxnOk(db', y) {
      if y != x {
        assert TxnOk(db, y);
        SameTxnStaysOk(db, db', y);
      }
    }
    forall y, z {:trigger OwnSecret(db', y, z)} | y in db'.txns && z in db'.txns ensures OwnSecret(db', y, z) {
      if y != x { assert TxnOk(db, y); }
      if z != x { assert TxnOk(db, z); }
      if y != x && z != x { assert OwnSecret(db, y, z); }
    }
  }

  lemma IssuedKeeps(db: Db, db': Db, m: Message, t: Txn)
    requires Inv(db) && m.txid !in db.txns
    requires m.credential.Mac? ==> m.credential.secret in db.secrets && !db.secrets[m.credential.secret].used
    requires t.secret == SecretOf(m.credential) && t.cert == Some(db.nextCert) && t.approval.None? && t.status in {WaitingConf, Confirmed}
    requires db' == db.(secrets := Spend(db.secrets, m.credential), txns := db.txns[m.txid := t],
                        certs := db.certs[db.nextCert := Cert(false, ForEnrollment(m.txid))], nextCert := db.nextCert + 1)
    ensures Inv(db') && Keeps(db, db')
  {
    AskedStaysOk(db, db');
    RowsStayOk(db, db', {});
    AddKeeps(db, db', m.txid);
  }

  /** A freshly asked approval: its own row, sealed undecided. */
  lemma FreshApprovalOk(db: Db, db': Db, a: nat, txid: Option<Txid>, content: Content)
    requires Core(db) && Lasts(db, db') && a == db.nextApproval && content.verdict == Undecided
    requires db'.approvals == db.approvals[a := Row(content, true)] && db'.asked == db.asked[a := Asked(txid, {content})]
    ensures AllAskedOk(db') && AllRowsOk(db')
  {
    forall b {:trigger AskedOk(db', b)} | b in db'.asked ensures AskedOk(db', b) {
      if b in db.asked { assert AskedOk(db, b); }
    }
    assert content in db'.asked[a].contents;
    RowsStayOk(db, db', {a});
  }

  lemma AskedForKeeps(db: Db, db': Db, m: Message, t: Txn)
    requires Inv(db) && m.body.Enroll? && m.txid !in db.txns
    requires m.credential.Mac? ==> m.credential.secret in db.secrets && !db.secrets[m.credential.secret].used
    requires t.secret == SecretOf(m.credential) && t.cert.None? && t.approval == Some(db.nextApproval) && t.status == Pending
    requires var content := Content(m.body.request, Undecided);
             db' == db.(secrets := Spend(db.secrets, m.credential), txns := db.txns[m.txid := t],
                        approvals := db.approvals[db.nextApproval := Row(content, true)],
                        asked := db.asked[db.nextApproval := Asked(Some(m.txid), {content})], nextApproval := db.nextApproval + 1)
    ensures Inv(db') && Keeps(db, db')
  {
    FreshApprovalOk(db, db', db.nextApproval, Some(m.txid), Content(m.body.request, Undecided));
    AddKeeps(db, db', m.txid);
  }

  lemma Unchanged(db: Db)
    ensures Keeps(db, db)
  {}

  /** Enrolling spends the secret: a second transaction under it would need the same
      transaction id, and that is taken. */
  lemma EnrollKeeps(db: Db, m: Message, now: int)
    requires Inv(db) && Authentic(db, m, now) && m.body.Enroll?
    ensures Inv(AfterEnroll(db, m, now).0) && Keeps(db, AfterEnroll(db, m, now).0)
  {
    hide Inv, Keeps;
    Unchanged(db);
    var db' := AfterEnroll(db, m, now).0;
    if db' != db {
      if m.body.issuing == Issued {
        IssuedKeeps(db, db', m, db'.txns[m.txid]);
      } else {
        AskedForKeeps(db, db', m, db'.txns[m.txid]);
      }
    }
  }

  lemma RejectKeeps(db: Db, db': Db, x: Txid)
    requires Inv(db) && x in db.txns && db.txns[x].status == WaitingConf && db.txns[x].cert.Some? && db.txns[x].cert.value in db.certs
    requires var c := db.txns[x].cert.value;
             db' == db.(txns := db.txns[x := db.txns[x].(status := Rejected)], certs := db.certs[c := db.certs[c].(revoked := true)])
    ensures Inv(db') && Keeps(db, db')
  {
    assert TxnOk(db, x);
    UpdateKeeps(db, db', x);
  }

  lemma MoveKeeps(db: Db, db': Db, x: Txid, t: Txn)
    requires Inv(db) && x in db.txns && db' == db.(txns := db.txns[x := t])
    requires TxnKeeps(db.txns[x], t) && TxnOk(db', x)
    ensures Inv(db') && Keeps(db, db')
  {
    UpdateKeeps(db, db', x);
  }

  lemma CertConfKeeps(db: Db, m: Message)
    requires Inv(db) && m.body.CertConf?
    ensures Inv(AfterCertConf(db, m).0) && Keeps(db, AfterCertConf(db, m).0)
  {
    var db' := AfterCertConf(db, m).0;
    if db' != db {
      assert TxnOk(db, m.txid);
      if db'.certs == db.certs && db'.txns[m.txid].status == Confirmed {
        MoveKeeps(db, db', m.txid, db'.txns[m.txid]);
      } else {
        RejectKeeps(db, db', m.txid);
      }
    }
  }

  /** Content that some approval was sealed with names a certificate issued for that approval. */
  lemma SealedNamesItsApproval(db: Db, content: Content) returns (b: nat)
    requires Core(db) && Sealed(db, content) && content.verdict.Approved? && content.verdict.cert.Some?
    ensures b in db.asked && content in db.asked[b].contents && IsCert(db, content.verdict.cert.value, ForApproval(b))
  {
    b :| b in db.asked && content in db.asked[b].contents;
    assert AskedOk(db, b);
  }

  lemma PollKeeps(db: Db, m: Message)
    requires Inv(db)
    ensures Inv(AfterPoll(db, m).0) && Keeps(db, AfterPoll(db, m).0)
  {
    var db' := AfterPoll(db, m).0;
    if db' != db {
      assert TxnOk(db, m.txid);
      var a := db.txns[m.txid].approval.value;
      if db'.txns[m.txid].cert.Some? && db.enforced {
        assert RowOk(db, a);
        var b := SealedNamesItsApproval(db, db.approvals[a].content);
      }
      MoveKeeps(db, db', m.txid, db'.txns[m.txid]);
    }
  }

  lemma HousekeepingKeeps(db: Db, now: int)
    requires Inv(db)
    ensures Inv(AfterHousekeeping(db, now)) && Keeps(db, AfterHousekeeping(db, now))
  {
    var db' := AfterHousekeeping(db, now);
    AskedStaysOk(db, db');
    RowsStayOk(db, db', {});
    SameTxnsKeep(db, db');
  }

  /** A decision seals the row's content with the verdict, and a grant names a fresh certificate. */
  lemma DecisionKeeps(db: Db, db': Db, a: nat, v: Verdict)
    requires Inv(db) && a in db.approvals && db' == Decided(db, a, v).(certs := db'.certs, nextCert := db'.nextCert)
    requires Grows(db, db') && Bounded(db')
    requires v.Approved? && v.cert.Some? ==> IsCert(db', v.cert.value, ForApproval(a))
    ensures Inv(db') && Keeps(db, db')
  {
    DecisionOk(db, db', a, v);
    SameTxnsKeep(db, db');
  }

  lemma DecisionOk(db: Db, db': Db, a: nat, v: Verdict)
    requires Core(db) && a in db.approvals && Lasts(db, db')
    requires db'.approvals == Decided(db, a, v).approvals && db'.asked == Decided(db, a, v).asked
    requires v.Approved? && v.cert.Some? ==> IsCert(db', v.cert.value, ForApproval(a))
    ensures AllAskedOk(db') && AllRowsOk(db')
  {
    forall b {:trigger AskedOk(db', b)} | b in db'.asked ensures AskedOk(db', b) {
      if b in db.asked { assert AskedOk(db, b); }
    }
    assert db'.approvals[a].content in db'.asked[a].contents;
    RowsStayOk(db, db', {a});
  }

  lemma GrantKeeps(db: Db, a: nat)
    requires Inv(db) && a in db.approvals
    ensures Inv(Granted(db, a)) && Keeps(db, Granted(db, a))
  {
    DecisionKeeps(db, Granted(db, a), a, Approved(Some(db.nextCert)));
  }

  lemma DecideKeeps(db: Db, step: Step)
    requires Inv(db) && (step.Grant? || step.Refuse?)
    ensures Inv(Next(db, step)) && Keeps(db, Next(db, step))
  {
    if Decidable(db, step.approval) {
      if step.Refuse? {
        DecisionKeeps(db, Next(db, step), step.approval, Refused);
      } else if step.byGateway {
        DecisionKeeps(db, Next(db, step), step.approval, Approved(None));
      } else {
        GrantKeeps(db, step.approval);
      }
    }
  }

  lemma AskElsewhereKeeps(db: Db, request: nat)
    requires Inv(db)
    ensures Inv(AskedElsewhere(db, request)) && Keeps(db, AskedElsewhere(db, request))
  {
    FreshApprovalOk(db, AskedElsewhere(db, request), db.nextApproval, None, Content(request, Undecided));
    SameTxnsKeep(db, AskedElsewhere(db, request));
  }

  lemma WriteKeeps(db: Db, a: nat, content: Content, withSeal: bool)
    requires Inv(db)
    ensures Inv(Written(db, a, content, withSeal)) && Keeps(db, Written(db, a, content, withSeal))
  {
    WrittenOk(db, a, content, withSeal);
    SameTxnsKeep(db, Written(db, a, content, withSeal));
  }

  lemma WrittenOk(db: Db, a: nat, content: Content, withSeal: bool)
    requires Core(db)
    ensures Core(Written(db, a, content, withSeal)) && Lasts(db, Written(db, a, content, withSeal))
  {
    var db' := Written(db, a, content, withSeal);
    AskedStaysOk(db, db');
    if Sealed(db, content) { SealedGrows(db, db', content); }
    RowsStayOk(db, db', {a});
  }

  lemma QuietKeeps(db: Db, db': Db)
    requires Inv(db) && db'.txns == db.txns && db'.asked == db.asked && Grows(db, db') && Bounded(db')
    requires forall a :: a in db'.approvals ==> a in db.approvals && db'.approvals[a] == db.approvals[a]
    ensures Inv(db') && Keeps(db, db')
  {
    AskedStaysOk(db, db');
    RowsStayOk(db, db', {});
    SameTxnsKeep(db, db');
  }

  lemma TablesKeep(db: Db, step: Step)
    requires Inv(db) && (step.Mint? || step.SqlDelete?)
    ensures Inv(Next(db, step)) && Keeps(db, Next(db, step))
  {
    QuietKeeps(db, Next(db, step));
  }

  lemma CertsKeep(db: Db, db': Db, c: nat)
    requires Inv(db) && c in db'.certs && db' == db.(certs := db.certs[c := db'.certs[c]], nextCert := db'.nextCert)
    requires c < db'.nextCert && db.nextCert <= db'.nextCert
    requires c in db.certs ==> db'.certs[c].origin == db.certs[c].origin && db'.certs[c].revoked
    ensures Inv(db') && Keeps(db, db')
  {
    QuietKeeps(db, db');
  }

  lemma MessageKeeps(db: Db, m: Message, now: int)
    requires Inv(db)
    ensures Inv(AfterMessage(db, m, now).0) && Keeps(db, AfterMessage(db, m, now).0)
  {
    if Authentic(db, m, now) {
      match m.body
      case Enroll(_, _, _, _) => EnrollKeeps(db, m, now);
      case CertConf(_, _) => CertConfKeeps(db, m);
      case PollReq => PollKeeps(db, m);
    }
  }

  lemma StepKeeps(db: Db, step: Step)
    requires Inv(db)
    ensures Inv(Next(db, step)) && Keeps(db, Next(db, step))
  {
    match step
    case Receive(m, now) => MessageKeeps(db, m, now);
    case Housekeeping(now) => HousekeepingKeeps(db, now);
    case Grant(_, _) => DecideKeeps(db, step);
    case Refuse(_) => DecideKeeps(db, step);
    case AskElsewhere(request) => AskElsewhereKeeps(db, request);
    case SqlWrite(a, content, withSeal) => WriteKeeps(db, a, content, withSeal);
    case IssueElsewhere => CertsKeep(db, Next(db, step), db.nextCert);
    case RevokeCert(c) => if c in db.certs { CertsKeep(db, Next(db, step), c); }
    case _ => TablesKeep(db, step);
  }

  lemma {:induction false} RunKeeps(enforced: bool, steps: seq<Step>)
    ensures Inv(Run(enforced, steps))
  {
    if steps != [] {
      RunKeeps(enforced, steps[..|steps| - 1]);
      StepKeeps(Run(enforced, steps[..|steps| - 1]), steps[|steps| - 1]);
    }
  }

  // ------------------------------------------------------------ what holds over every run

  lemma RunSnoc(enforced: bool, steps: seq<Step>, step: Step)
    ensures Run(enforced, steps + [step]) == Next(Run(enforced, steps), step)
  {
    assert (steps + [step])[..|steps|] == steps;
  }

  lemma KeepsTrans(s: Db, t: Db, w: Db)
    requires Keeps(s, t) && Keeps(t, w)
    ensures Keeps(s, w)
  {
    forall x {:trigger s.txns[x]} | x in s.txns ensures x in w.txns && TxnKeeps(s.txns[x], w.txns[x]) {
      assert TxnKeeps(s.txns[x], t.txns[x]) && TxnKeeps(t.txns[x], w.txns[x]);
    }
    forall c {:trigger s.certs[c]} | c in s.certs
      ensures c in w.certs && w.certs[c].origin == s.certs[c].origin && (s.certs[c].revoked ==> w.certs[c].revoked)
    {
      assert t.certs[c].origin == s.certs[c].origin;
    }
  }

  lemma {:induction false} LaterKeeps(enforced: bool, steps: seq<Step>, n: nat)
    requires n <= |steps|
    ensures Keeps(Run(enforced, steps[..n]), Run(enforced, steps))
    decreases |steps|
  {
    if n == |steps| {
      assert steps[..n] == steps;
    } else {
      var init := steps[..|steps| - 1];
      assert init[..n] == steps[..n];
      LaterKeeps(enforced, init, n);
      RunKeeps(enforced, init);
      StepKeeps(Run(enforced, init), steps[|steps| - 1]);
      KeepsTrans(Run(enforced, steps[..n]), Run(enforced, init), Run(enforced, steps));
    }
  }

  /** A shared secret enrolls at most once: two transactions never come from the same one,
      although a used secret goes on authenticating its own transaction. */
  lemma OneEnrollmentPerSecret(enforced: bool, steps: seq<Step>, x: Txid, y: Txid)
    requires x in Run(enforced, steps).txns && y in Run(enforced, steps).txns
    requires Run(enforced, steps).txns[x].secret.Some? && Run(enforced, steps).txns[x].secret == Run(enforced, steps).txns[y].secret
    ensures x == y
  {
    RunKeeps(enforced, steps);
    assert OwnSecret(Run(enforced, steps), x, y);
  }

  lemma OnlyEnrollingStarts(db: Db, m: Message, now: int, x: Txid)
    requires x !in db.txns && x in AfterMessage(db, m, now).0.txns
    ensures m.txid == x && Authentic(db, m, now) && m.body.Enroll?
    ensures AfterMessage(db, m, now).0.txns[x].secret == SecretOf(m.credential)
    ensures AfterMessage(db, m, now).0.secrets == Spend(db.secrets, m.credential)
  {
    if Authentic(db, m, now) && !m.body.Enroll? { OthersStartNothing(db, m, now); }
  }

  lemma OthersStartNothing(db: Db, m: Message, now: int)
    requires !m.body.Enroll?
    ensures AfterMessage(db, m, now).0.txns.Keys == db.txns.Keys
  {}

  /** The one step that starts a transaction under a secret finds it unused and unexpired, and spends it. */
  lemma EnrollmentSpendsItsSecret(enforced: bool, steps: seq<Step>, step: Step, x: Txid)
    requires x !in Run(enforced, steps).txns && x in Run(enforced, steps + [step]).txns
    requires Run(enforced, steps + [step]).txns[x].secret.Some?
    ensures var db, db' := Run(enforced, steps), Run(enforced, steps + [step]);
            var s := db'.txns[x].secret.value;
            && step.Receive? && step.message.txid == x && step.message.verifies
            && s in db.secrets && !db.secrets[s].used && step.now <= db.secrets[s].expires
            && s in db'.secrets && db'.secrets[s].used
  {
    RunSnoc(enforced, steps, step);
    OnlyEnrollingStarts(Run(enforced, steps), step.message, step.now, x);
  }

  /** A transaction goes only forward, and keeps the certificate it delivered. */
  lemma TransactionsGoForward(enforced: bool, steps: seq<Step>, n: nat, x: Txid)
    requires n <= |steps| && x in Run(enforced, steps[..n]).txns
    ensures x in Run(enforced, steps).txns && TxnKeeps(Run(enforced, steps[..n]).txns[x], Run(enforced, steps).txns[x])
  {
    LaterKeeps(enforced, steps, n);
    assert Run(enforced, steps[..n]).txns[x] == Run(enforced, steps[..n]).txns[x];
  }

  /** Once a transaction has started, enrolling again under its id changes nothing, whenever
      in the rest of the run that is tried. */
  lemma RepeatedEnrollmentChangesNothing(enforced: bool, steps: seq<Step>, n: nat, m: Message, now: int)
    requires n <= |steps| && m.body.Enroll? && m.txid in Run(enforced, steps[..n]).txns
    ensures Run(enforced, steps + [Receive(m, now)]) == Run(enforced, steps)
  {
    TransactionsGoForward(enforced, steps, n, m.txid);
    RunSnoc(enforced, steps, Receive(m, now));
  }

  /** What the client rejected does not stay valid. */
  lemma RejectedByClientIsRevoked(enforced: bool, steps: seq<Step>, x: Txid)
    requires x in Run(enforced, steps).txns
    requires Run(enforced, steps).txns[x].status == Rejected && Run(enforced, steps).txns[x].cert.Some?
    ensures var c := Run(enforced, steps).txns[x].cert.value; c in Run(enforced, steps).certs && Run(enforced, steps).certs[c].revoked
  {
    RunKeeps(enforced, steps);
    assert TxnOk(Run(enforced, steps), x);
  }

  // ------------------------------------------------------------ delivery behind an approval

  /** At step `n` an approver granted approval `b`, which issued certificate `c`. */
  ghost predicate GrantedAt(enforced: bool, steps: seq<Step>, n: nat, b: nat, c: nat) {
    n < |steps| && steps[n] == Grant(b, false) && Decidable(Run(enforced, steps[..n]), b) && Run(enforced, steps[..n]).nextCert == c
  }

  lemma OnlyGrantingIssues(db: Db, step: Step, b: nat, c: nat)
    requires !IsCert(db, c, ForApproval(b)) && IsCert(Next(db, step), c, ForApproval(b))
    ensures step == Grant(b, false) && Decidable(db, b) && db.nextCert == c
  {}

  lemma {:induction false} GrantedByAStep(enforced: bool, steps: seq<Step>, b: nat, c: nat)
    requires IsCert(Run(enforced, steps), c, ForApproval(b))
    ensures exists n: nat :: GrantedAt(enforced, steps, n, b, c)
  {
    assert steps != [];
    var k := |steps| - 1;
    var init := steps[..k];
    if IsCert(Run(enforced, init), c, ForApproval(b)) {
      GrantedByAStep(enforced, init, b, c);
      var n: nat :| GrantedAt(enforced, init, n, b, c);
      assert init[..n] == steps[..n] && init[n] == steps[n];
      assert GrantedAt(enforced, steps, n, b, c);
    } else {
      OnlyGrantingIssues(Run(enforced, init), steps[k], b, c);
      assert GrantedAt(enforced, steps, k, b, c);
    }
  }

  /** Where missing seals are refused, a certificate delivered behind an approval was issued
      by an approver granting some approval, whatever was written to the rows in between. */
  lemma DeliveredMeansApproved(steps: seq<Step>, x: Txid)
    requires x in Run(true, steps).txns && Run(true, steps).txns[x].approval.Some? && Run(true, steps).txns[x].cert.Some?
    ensures exists n: nat, b: nat :: GrantedAt(true, steps, n, b, Run(true, steps).txns[x].cert.value)
  {
    RunKeeps(true, steps);
    var db := Run(true, steps);
    SameSetting(true, steps);
    assert TxnOk(db, x);
    var c := db.txns[x].cert.value;
    var b := db.certs[c].origin.approval;
    GrantedByAStep(true, steps, b, c);
    var n: nat :| GrantedAt(true, steps, n, b, c);
    assert GrantedAt(true, steps, n, b, c);
  }

  lemma SameSetting(enforced: bool, steps: seq<Step>)
    ensures Run(enforced, steps).enforced == enforced
  {
    LaterKeeps(enforced, steps, 0);
  }

  function Asks(txid: Txid, request: nat): Step {
    Receive(Message(txid, Signature, true, false, Enroll(false, true, request, NeedsApproval)), 0)
  }

  function Polls(txid: Txid): Step {
    Receive(Message(txid, Signature, true, false, PollReq), 0)
  }

  lemma AskStep(enforced: bool, steps: seq<Step>, x: Txid, q: nat)
    requires x !in Run(enforced, steps).txns
    ensures var db, a, content := Run(enforced, steps), Run(enforced, steps).nextApproval, Content(q, Undecided);
            Run(enforced, steps + [Asks(x, q)])
            == db.(txns := db.txns[x := Txn(None, None, Some(a), Pending, 0)], approvals := db.approvals[a := Row(content, true)],
                   asked := db.asked[a := Asked(Some(x), {content})], nextApproval := a + 1)
  {
    RunSnoc(enforced, steps, Asks(x, q));
  }

  lemma PollStep(enforced: bool, steps: seq<Step>, x: Txid, a: nat, c: nat)
    requires x in Run(enforced, steps).txns && Run(enforced, steps).txns[x] == Txn(None, None, Some(a), Pending, 0)
    requires Intact(Run(enforced, steps), a) && c in Run(enforced, steps).certs
    requires Run(enforced, steps).approvals[a].content.verdict == Approved(Some(c))
    ensures var db := Run(enforced, steps);
            Run(enforced, steps + [Polls(x)]) == db.(txns := db.txns[x := Txn(None, Some(c), Some(a), WaitingConf, 0)])
  {
    RunSnoc(enforced, steps, Polls(x));
  }

  lemma WriteStep(enforced: bool, steps: seq<Step>, a: nat, content: Content, withSeal: bool)
    ensures Run(enforced, steps + [SqlWrite(a, content, withSeal)]) == Written(Run(enforced, steps), a, content, withSeal)
  {
    RunSnoc(enforced, steps, SqlWrite(a, content, withSeal));
  }

  lemma GrantStep(enforced: bool, steps: seq<Step>, a: nat)
    requires Decidable(Run(enforced, steps), a)
    ensures Run(enforced, steps + [Grant(a, false)]) == Granted(Run(enforced, steps), a)
  {
    RunSnoc(enforced, steps, Grant(a, false));
  }

  /** Somebody writes an approved row without a seal, naming a certificate issued for something else. */
  function Planted(x: Txid, q: nat): seq<Step> {
    [] + [IssueElsewhere] + [Asks(x, q)] + [SqlWrite(1, Content(q, Approved(Some(1))), false)] + [Polls(x)]
  }

  lemma UnsealedApprovalIsDelivered(x: Txid, q: nat)
    ensures var db := Run(false, Planted(x, q));
            && x in db.txns && db.txns[x].approval == Some(1) && db.txns[x].cert == Some(1)
            && 1 in db.certs && db.certs[1].origin == Elsewhere
  {
    var content := Content(q, Approved(Some(1)));
    RunSnoc(false, [], IssueElsewhere);
    AskStep(false, [] + [IssueElsewhere], x, q);
    WriteStep(false, [] + [IssueElsewhere] + [Asks(x, q)], 1, content, false);
    PollStep(false, [] + [IssueElsewhere] + [Asks(x, q)] + [SqlWrite(1, content, false)], x, 1, 1);
  }

  ghost predicate EveryDeliveryGranted(db: Db) {
    forall x :: x in db.txns && db.txns[x].approval.Some? && db.txns[x].cert.Some? ==>
                  db.txns[x].cert.value in db.certs && db.certs[db.txns[x].cert.value].origin.ForApproval?
  }

  /** That is so over every run exactly where missing seals are refused. */
  lemma DeliveredMeansApprovedIff(enforced: bool)
    ensures (forall steps :: EveryDeliveryGranted(Run(enforced, steps))) <==> enforced
  {
    if enforced {
      forall steps ensures EveryDeliveryGranted(Run(enforced, steps)) {
        RunKeeps(enforced, steps);
        SameSetting(enforced, steps);
        forall x | x in Run(enforced, steps).txns ensures TxnOk(Run(enforced, steps), x) {}
      }
    } else {
      UnsealedApprovalIsDelivered(1, 10);
      assert !EveryDeliveryGranted(Run(enforced, Planted(1, 10)));
    }
  }

  /** Two transactions `x` and `y` wait, on approvals 1 and 2. Only approval 1 is granted; its
      sealed columns and its seal are then copied onto row 2. */
  function Copied(x: Txid, y: Txid, q: nat, r: nat): seq<Step> {
    OneGranted(x, y, q, r) + [SqlWrite(2, Content(q, Approved(Some(1))), true)] + [Polls(x)] + [Polls(y)]
  }

  function OneGranted(x: Txid, y: Txid, q: nat, r: nat): seq<Step> {
    [] + [Asks(x, q)] + [Asks(y, r)] + [Grant(1, false)]
  }

  /** Both transactions deliver the one certificate, although nobody granted approval 2. */
  lemma CopiedApprovalIsDelivered(x: Txid, y: Txid, q: nat, r: nat)
    requires x != y
    ensures var db := Run(true, Copied(x, y, q, r));
            && x in db.txns && db.txns[x].approval == Some(1) && db.txns[x].cert == Some(1)
            && y in db.txns && db.txns[y].approval == Some(2) && db.txns[y].cert == Some(1)
    ensures forall i, byGateway :: 0 <= i < |Copied(x, y, q, r)| ==> Copied(x, y, q, r)[i] != Grant(2, byGateway)
  {
    var content, granted := Content(q, Approved(Some(1))), OneGranted(x, y, q, r);
    AfterOneGranted(x, y, q, r);
    assert Sealed(Run(true, granted), content);
    WriteStep(true, granted, 2, content, true);
    var written := granted + [SqlWrite(2, content, true)];
    PollStep(true, written, x, 1, 1);
    PollStep(true, written + [Polls(x)], y, 2, 1);
  }

  lemma AfterOneGranted(x: Txid, y: Txid, q: nat, r: nat)
    requires x != y
    ensures var d, content := Run(true, OneGranted(x, y, q, r)), Content(q, Approved(Some(1)));
            && x in d.txns && d.txns[x] == Txn(None, None, Some(1), Pending, 0)
            && y in d.txns && d.txns[y] == Txn(None, None, Some(2), Pending, 0)
            && 1 in d.approvals && d.approvals[1] == Row(content, true)
            && 1 in d.asked && content in d.asked[1].contents && 1 in d.certs
  {
    AskStep(true, [], x, q);
    AskStep(true, [] + [Asks(x, q)], y, r);
    GrantStep(true, [] + [Asks(x, q)] + [Asks(y, r)], 1);
  }
}
