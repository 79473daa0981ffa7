/** Dual control (services.py, codesign/service.py): what one person asks for, another
    decides, and the decision and its effect are one commit. */
module DualControl {
  import opened Prelude

  datatype Action =
    | OnboardApp(app: nat)
    | IssueCertificate(app: nat)
    | CodeSign(request: nat)
    | ForApp(app: nat)   // a trust anchor or a signing key of an app
    | Other              // a CA, a policy change, the end of a renewal campaign

  datatype Verdict = Undecided | Approved | Refused
  datatype Approval = Approval(action: Action, requestedBy: string, verdict: Verdict, decidedBy: Option<string>)

  datatype AppStatus = PendingApproval | Active | RejectedApp
  /** `asked` is the approval that onboarding the app needed, if it needed one. */
  datatype App = App(status: AppStatus, asked: Option<nat>)

  datatype RequestStatus = Waiting | Signed | RejectedRequest
  datatype Request = Request(release: bool, requestedBy: string, status: RequestStatus, signature: bool, approval: Option<nat>)

  datatype Principal = Principal(createdBy: string, active: bool)

  /** `effects` is the audit trail's record of approved actions carried out, oldest first. */
  datatype Db = Db(principals: map<string, Principal>, apps: map<nat, App>, requests: map<nat, Request>,
                   approvals: map<nat, Approval>, effects: seq<nat>, nextId: nat)

  const EMPTY := Db(map[], map[], map[], map[], [], 1)

  /** How carrying out an approved action ends. `LookupFails`: the directory does not
      answer for the account named in a logon certificate, or says it is disabled; that
      refusal is committed on the spot. */
  datatype Outcome = Succeeds | Raises | LookupFails

  datatype Reply = Done | NotFound | Forbidden | AlreadyDecided | Failed

  // ------------------------------------------------------------ asking

  function AfterOnboard(db: Db, who: string, needsApproval: bool): Db {
    var app := db.nextId;
    if needsApproval then
      db.(apps := db.apps[app := App(PendingApproval, Some(app + 1))],
          approvals := db.approvals[app + 1 := Approval(OnboardApp(app), who, Undecided, None)], nextId := app + 2)
    else db.(apps := db.apps[app := App(Active, None)], nextId := app + 1)
  }

  function AfterAsk(db: Db, who: string, action: Action): Db {
    db.(approvals := db.approvals[db.nextId := Approval(action, who, Undecided, None)], nextId := db.nextId + 1)
  }

  /** A release key waits for an approval; a test key signs at once. */
  function AfterSigningRequest(db: Db, who: string, release: bool, outcome: Outcome): (Db, Reply) {
    var r := db.nextId;
    if release then
      (db.(requests := db.requests[r := Request(true, who, Waiting, false, Some(r + 1))],
           approvals := db.approvals[r + 1 := Approval(CodeSign(r), who, Undecided, None)], nextId := r + 2), Done)
    else if outcome != Succeeds then (db, Failed)
    else (db.(requests := db.requests[r := Request(false, who, Signed, true, None)], nextId := r + 1), Done)
  }

  // ------------------------------------------------------------ deciding

  predicate OwnRequest(db: Db, actor: string, a: Approval) {
    actor == a.requestedBy || (actor in db.principals && db.principals[actor].createdBy == a.requestedBy)
  }

  /** The world is still the one the request was made in. */
  predicate StillValid(db: Db, a: Approval) {
    && (match a.action
        case OnboardApp(app) => app in db.apps && db.apps[app].status == PendingApproval
        case IssueCertificate(app) => app in db.apps && db.apps[app].status == Active
        case ForApp(app) => app in db.apps && db.apps[app].status == Active
        case _ => true)
    && (a.requestedBy in db.principals ==> db.principals[a.requestedBy].active)
  }

  /** This actor may decide this way; `intact`: the row's seal verifies. */
  predicate MayDecide(db: Db, actor: string, id: nat, approve: bool, intact: bool) {
    && id in db.approvals && intact && db.approvals[id].verdict == Undecided
    && !OwnRequest(db, actor, db.approvals[id])
    && (approve ==> StillValid(db, db.approvals[id]))
  }

  predicate Signable(db: Db, request: nat) { request in db.requests && db.requests[request].status == Waiting }

  /** What an approved action changes, and whether it could be carried out at all. */
  function Effect(db: Db, id: nat): (r: Option<Db>)
    requires id in db.approvals
  {
    var done := db.(effects := db.effects + [id]);
    match db.approvals[id].action
    case OnboardApp(app) =>
      if app in db.apps then Some(done.(apps := db.apps[app := db.apps[app].(status := Active)])) else None
    case CodeSign(r) =>
      if Signable(db, r) then Some(done.(requests := db.requests[r := db.requests[r].(status := Signed, signature := true)])) else None
    case _ => Some(done)
  }

  function Undone(db: Db, id: nat): Db
    requires id in db.approvals
  {
    match db.approvals[id].action
    case OnboardApp(app) => if app in db.apps then db.(apps := db.apps[app := db.apps[app].(status := RejectedApp)]) else db
    case CodeSign(r) => if Signable(db, r) then db.(requests := db.requests[r := db.requests[r].(status := RejectedRequest)]) else db
    case _ => db
  }

  predicate CannotRaise(action: Action) { action.OnboardApp? }

  function AfterDecide(db: Db, actor: string, id: nat, approve: bool, intact: bool, outcome: Outcome): (Db, Reply) {
    if id !in db.approvals then (db, NotFound)
    else if !intact then (db, Forbidden)
    else
      var a := db.approvals[id];
      if a.verdict != Undecided then (db, AlreadyDecided)
      else if !MayDecide(db, actor, id, approve, intact) then (db, Forbidden)
      else
        var marked := db.(approvals := db.approvals[id := a.(verdict := if approve then Approved else Refused, decidedBy := Some(actor))]);
        if !approve then (Undone(marked, id), Done)
        else if a.action.IssueCertificate? && outcome == LookupFails then (marked, Failed)
        else if outcome != Succeeds && !CannotRaise(a.action) then (db, Failed)
        else match Effect(marked, id)
          case Some(done) => (done, Done)
          case None => (db, Failed)
  }

  // ------------------------------------------------------------ the session

  class Platform {
    var db: Db
    var work: Db

    constructor ()
      ensures db == work == EMPTY
    {
      db, work := EMPTY, EMPTY;
    }

    /** One API call: commit what it did, or roll back to the last commit. */
    method Close(reply: Reply)
      modifies this
      ensures db == work == if reply == Done then old(work) else old(db)
    {
      if reply == Done { db := work; } else { work := db; }
    }

    method Onboard(who: string, needsApproval: bool)
      requires work == db
      modifies this
      ensures db == work == AfterOnboard(old(db), who, needsApproval)
    {
      var app := work.nextId;
      work := work.(apps := work.apps[app := App(if needsApproval then PendingApproval else Active, None)], nextId := app + 1);
      if needsApproval {
        var approval := RequestApproval(who, OnboardApp(app));
        work := work.(apps := work.apps[app := work.apps[app].(asked := Some(approval))]);
        assert work.apps == db.apps[app := work.apps[app]];
      }
      Close(Done);
    }

    method RequestApproval(who: string, action: Action) returns (id: nat)
      modifies this`work
      ensures work == AfterAsk(old(work), who, action) && id == old(work).nextId
    {
      id := work.nextId;
      work := work.(approvals := work.approvals[id := Approval(action, who, Undecided, None)], nextId := id + 1);
    }

    method RequestSignature(who: string, release: bool, outcome: Outcome) returns (reply: Reply)
      requires work == db
      modifies this
      ensures work == db
      ensures (db, reply) == AfterSigningRequest(old(db), who, release, outcome)
    {
      var r := work.nextId;
      work := work.(requests := work.requests[r := Request(release, who, Waiting, false, None)], nextId := r + 1);
      if release {
        var approval := RequestApproval(who, CodeSign(r));
        work := work.(requests := work.requests[r := work.requests[r].(approval := Some(approval))]);
        reply := Done;
      } else {
        reply := SignNow(r, outcome);
      }
      assert reply == Done ==> work.requests == db.requests[r := work.requests[r]];
      Close(reply);
    }

    /** Signs a waiting request; a retired key or certificate raises. */
    method SignNow(r: nat, outcome: Outcome) returns (reply: Reply)
      modifies this`work
      ensures reply == (if Signable(old(work), r) && outcome == Succeeds then Done else Failed)
      ensures work == if reply == Done
                      then old(work).(requests := old(work).requests[r := old(work).requests[r].(status := Signed, signature := true)])
                      else old(work)
    {
      if !Signable(work, r) || outcome != Succeeds { return Failed; }
      work := work.(requests := work.requests[r := work.requests[r].(status := Signed, signature := true)]);
      return Done;
    }

    method Decide(actor: string, id: nat, approve: bool, intact: bool, outcome: Outcome) returns (reply: Reply)
      requires work == db
      modifies this
      ensures work == db
      ensures (db, reply) == AfterDecide(old(db), actor, id, approve, intact, outcome)
    {
      if id !in work.approvals { return NotFound; }
      if !intact { return Forbidden; }
      var a := work.approvals[id];
      if a.verdict != Undecided { return AlreadyDecided; }
      if a.requestedBy == actor { return Forbidden; }
      if actor in work.principals && work.principals[actor].createdBy == a.requestedBy { return Forbidden; }
      if approve && !StillValid(work, a) { return Forbidden; }
      work := work.(approvals := work.approvals[id := a.(verdict := if approve then Approved else Refused, decidedBy := Some(actor))]);
      if approve {
        reply := Execute(id, outcome);
      } else {
        TurnDown(id);
        reply := Done;
      }
      Close(reply);
    }

    method TurnDown(id: nat)
      requires id in work.approvals
      modifies this`work
      ensures work == Undone(old(work), id)
    {
      var action := work.approvals[id].action;
      if action.OnboardApp? && action.app in work.apps {
        work := work.(apps := work.apps[action.app := work.apps[action.app].(status := RejectedApp)]);
      } else if action.CodeSign? && Signable(work, action.request) {
        work := work.(requests := work.requests[action.request := work.requests[action.request].(status := RejectedRequest)]);
      }
    }

    /** The effect, in the session that already holds the decision. A failing directory
        lookup commits that session before it raises. */
    method Execute(id: nat, outcome: Outcome) returns (reply: Reply)
      requires id in work.approvals
      modifies this
      ensures reply == Done || reply == Failed
      ensures reply == Failed ==> work == old(work)
      ensures reply == Failed ==>
                db == if old(work).approvals[id].action.IssueCertificate? && outcome == LookupFails then old(work) else old(db)
      ensures var action := old(work).approvals[id].action;
              reply == Done <==> (outcome == Succeeds || CannotRaise(action)) && Effect(old(work), id).Some?
      ensures reply == Done ==> db == old(db) && Effect(old(work), id) == Some(work)
    {
      var action := work.approvals[id].action;
      match action {
        case OnboardApp(app) =>
          if app !in work.apps { return Failed; }
          work := work.(apps := work.apps[app := work.apps[app].(status := Active)]);
        case IssueCertificate(_) =>
          if outcome == LookupFails {
            db := work;
            return Failed;
          }
          if outcome == Raises { return Failed; }
        case CodeSign(r) =>
          reply := SignNow(r, outcome);
          if reply != Done { return; }
        case _ => if outcome != Succeeds { return Failed; }
      }
      work := work.(effects := work.effects + [id]);
      return Done;
    }
  }
}
