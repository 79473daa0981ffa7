/** What every step of the approval machinery keeps, and what it leaves behind for good. */
module DualControlInvariant {
  import opened Prelude
  import opened DualControl

  ghost predicate ApprovalOk(db: Db, a: nat) {
    a in db.approvals &&
    var p := db.approvals[a];
    && (p.verdict == Undecided <==> p.decidedBy.None?)
    && (p.decidedBy.Some? ==> p.decidedBy.value != p.requestedBy)
    && (a in db.effects ==> p.verdict == Approved)
    && (!p.action.IssueCertificate? && p.verdict == Approved ==> a in db.effects)
    && match p.action
       case OnboardApp(app) =>
         app in db.apps && db.apps[app] == App(
           match p.verdict case Undecided => PendingApproval case Approved => Active case Refused => RejectedApp, Some(a))
       case CodeSign(r) =>
         r in db.requests && db.requests[r] == Request(true, p.requestedBy,
           (match p.verdict case Undecided => Waiting case Approved => Signed case Refused => RejectedRequest),
           p.verdict == Approved, Some(a))
       case _ => true
  }

  ghost predicate AppOk(db: Db, x: nat) {
    x in db.apps &&
    match db.apps[x].asked
    case None => db.apps[x].status == Active
    case Some(a) => a in db.approvals && db.approvals[a].action == OnboardApp(x)
  }

  ghost predicate RequestOk(db: Db, r: nat) {
    r in db.requests &&
    match db.requests[r].approval
    case None => !db.requests[r].release && db.requests[r].status == Signed && db.requests[r].signature
    case Some(a) => a in db.approvals && db.approvals[a].action == CodeSign(r)
  }

  ghost predicate Bounded(db: Db) {
    && (forall a :: a in db.approvals ==> a < db.nextId)
    && (forall x :: x in db.apps ==> x < db.nextId)
    && (forall r :: r in db.requests ==> r < db.nextId)
  }

  ghost predicate EffectsOnce(db: Db) {
    && (forall i :: 0 <= i < |db.effects| ==> db.effects[i] in db.approvals)
    && (forall i, j :: 0 <= i < j < |db.effects| ==> db.effects[i] != db.effects[j])
  }

  ghost predicate Inv(db: Db) {
    && (forall a {:trigger ApprovalOk(db, a)} :: a in db.approvals ==> ApprovalOk(db, a))
    && (forall x {:trigger AppOk(db, x)} :: x in db.apps ==> AppOk(db, x))
    && (forall r {:trigger RequestOk(db, r)} :: r in db.requests ==> RequestOk(db, r))
    && Bounded(db) && EffectsOnce(db)
  }

  /** Approvals are never reopened, never change hands, and never lose their effect; an app and a
      signing request keep the approval they wait for. */
  ghost predicate Keeps(db: Db, db': Db) {
    && db.effects <= db'.effects
    && (forall x {:trigger db.apps[x]} :: x in db.apps ==> x in db'.apps && db'.apps[x].asked == db.apps[x].asked)
    && (forall r {:trigger db.requests[r]} :: r in db.requests ==>
          r in db'.requests && db'.requests[r].approval == db.requests[r].approval
          && db'.requests[r].release == db.requests[r].release && db'.requests[r].requestedBy == db.requests[r].requestedBy)
    && forall a {:trigger db.approvals[a]} :: a in db.approvals ==>
         && a in db'.approvals
         && db'.approvals[a].action == db.approvals[a].action && db'.approvals[a].requestedBy == db.approvals[a].requestedBy
         && (db.approvals[a].verdict != Undecided ==> db'.approvals[a] == db.approvals[a] && (a in db'.effects ==> a in db.effects))
  }
}
