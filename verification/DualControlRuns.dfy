/** Every run of the approval machinery: anybody asking, anybody deciding, credentials
    made and switched off in between. */
module DualControlRuns {
  import opened Prelude
  import opened DualControl
  import opened DualControlInvariant

  datatype Step =
    | AddPrincipal(name: string, createdBy: string)
    | Deactivate(name: string)
    | Onboard(who: string, needsApproval: bool)
    | Ask(who: string, action: Action)
    | RequestSignature(who: string, release: bool, outcome: Outcome)
    | Decide(actor: string, id: nat, approve: bool, intact: bool, outcome: Outcome)

  /** Onboarding and signing ask through their own handlers. */
  function Next(db: Db, step: Step): Db {
    match step
    case AddPrincipal(name, createdBy) =>
      if name in db.principals then db else db.(principals := db.principals[name := Principal(createdBy, true)])
    case Deactivate(name) =>
      if name in db.principals then db.(principals := db.principals[name := db.principals[name].(active := false)]) else db
    case Onboard(who, needsApproval) => AfterOnboard(db, who, needsApproval)
    case Ask(who, action) => if action.OnboardApp? || action.CodeSign? then db else AfterAsk(db, who, action)
    case RequestSignature(who, release, outcome) => AfterSigningRequest(db, who, release, outcome).0
    case Decide(actor, id, approve, intact, outcome) => AfterDecide(db, actor, id, approve, intact, outcome).0
  }

  function Run(steps: seq<Step>): Db {
    if steps == [] then EMPTY else Next(Run(steps[..|steps| - 1]), steps[|steps| - 1])
  }

  // ------------------------------------------------------------ every step keeps it

  /** Nothing that was there changes; what is new is consistent. */
  lemma AddingKeeps(db: Db, db': Db)
    requires Inv(db) && db'.effects == db.effects && Bounded(db')
    requires forall a :: a in db.approvals ==> a in db'.approvals && db'.approvals[a] == db.approvals[a]
    requires forall x :: x in db.apps ==> x in db'.apps && db'.apps[x] == db.apps[x]
    requires forall r :: r in db.requests ==> r in db'.requests && db'.requests[r] == db.requests[r]
    requires forall a :: a in db'.approvals && a !in db.approvals ==> ApprovalOk(db', a)
    requires forall x :: x in db'.apps && x !in db.apps ==> AppOk(db', x)
    requires forall r :: r in db'.requests && r !in db.requests ==> RequestOk(db', r)
    ensures Inv(db') && Keeps(db, db')
  {
    forall a {:trigger ApprovalOk(db', a)} | a in db'.approvals ensures ApprovalOk(db', a) {
      if a in db.approvals { assert ApprovalOk(db, a); }
    }
    forall x {:trigger AppOk(db', x)} | x in db'.apps ensures AppOk(db', x) {
      if x in db.apps { assert AppOk(db, x); }
    }
    forall r {:trigger RequestOk(db', r)} | r in db'.requests ensures RequestOk(db', r) {
      if r in db.requests { assert RequestOk(db, r); }
    }
  }

  /** A decision changes its own approval, and of the apps and signing requests only the one it is about. */
  ghost predicate Decision(db: Db, db': Db, id: nat) {
    && id in db.approvals && id in db'.approvals && db.approvals[id].verdict == Undecided
    && db' == db.(approvals := db.approvals[id := db'.approvals[id]], apps := db'.apps, requests := db'.requests, effects := db'.effects)
    && db'.approvals[id].action == db.approvals[id].action && db'.approvals[id].requestedBy == db.approvals[id].requestedBy
    && (db'.effects == db.effects || db'.effects == db.effects + [id])
    && db'.apps.Keys == db.apps.Keys && db'.requests.Keys == db.requests.Keys
    && (forall x :: x in db.apps ==> db'.apps[x].asked == db.apps[x].asked)
    && (forall x :: x in db.apps && db.approvals[id].action != OnboardApp(x) ==> db'.apps[x] == db.apps[x])
    && (forall r :: r in db.requests ==> db'.requests[r].approval == db.requests[r].approval)
    && (forall r :: r in db.requests && db.approvals[id].action != CodeSign(r) ==> db'.requests[r] == db.requests[r])
  }

  lemma DecisionKeeps(db: Db, db': Db, id: nat)
    requires Inv(db) && Decision(db, db', id) && ApprovalOk(db', id)
    ensures Inv(db') && Keeps(db, db')
  {
    assert ApprovalOk(db, id);
    forall a {:trigger ApprovalOk(db', a)} | a in db'.approvals ensures ApprovalOk(db', a) {
      if a != id { assert ApprovalOk(db, a); }
    }
    forall x {:trigger AppOk(db', x)} | x in db'.apps ensures AppOk(db', x) {
      assert AppOk(db, x);
    }
    forall r {:trigger RequestOk(db', r)} | r in db'.requests ensures RequestOk(db', r) {
      assert RequestOk(db, r);
    }
  }

  lemma TurnedDownKeeps(db: Db, id: nat, actor: string)
    requires Inv(db) && id in db.approvals && db.approvals[id].verdict == Undecided && actor != db.approvals[id].requestedBy
    ensures var db' := Undone(db.(approvals := db.approvals[id := db.approvals[id].(verdict := Refused, decidedBy := Some(actor))]), id);
            Inv(db') && Keeps(db, db')
  {
    assert ApprovalOk(db, id);
    DecisionKeeps(db, Undone(db.(approvals := db.approvals[id := db.approvals[id].(verdict := Refused, decidedBy := Some(actor))]), id), id);
  }

  lemma CarriedOutKeeps(db: Db, id: nat, actor: string)
    requires Inv(db) && id in db.approvals && db.approvals[id].verdict == Undecided && actor != db.approvals[id].requestedBy
    ensures var r := Effect(db.(approvals := db.approvals[id := db.approvals[id].(verdict := Approved, decidedBy := Some(actor))]), id);
            r.Some? ==> Inv(r.value) && Keeps(db, r.value)
  {
    assert ApprovalOk(db, id);
    var r := Effect(db.(approvals := db.approvals[id := db.approvals[id].(verdict := Approved, decidedBy := Some(actor))]), id);
    if r.Some? { DecisionKeeps(db, r.value, id); }
  }

  lemma LookupFailedKeeps(db: Db, id: nat, actor: string)
    requires Inv(db) && id in db.approvals && db.approvals[id].verdict == Undecided && actor != db.approvals[id].requestedBy
    requires db.approvals[id].action.IssueCertificate?
    ensures var db' := db.(approvals := db.approvals[id := db.approvals[id].(verdict := Approved, decidedBy := Some(actor))]);
            Inv(db') && Keeps(db, db')
  {
    assert ApprovalOk(db, id);
    DecisionKeeps(db, db.(approvals := db.approvals[id := db.approvals[id].(verdict := Approved, decidedBy := Some(actor))]), id);
  }

  lemma DecideKeeps(db: Db, actor: string, id: nat, approve: bool, intact: bool, outcome: Outcome)
    requires Inv(db)
    ensures var db' := AfterDecide(db, actor, id, approve, intact, outcome).0; Inv(db') && Keeps(db, db')
  {
    if MayDecide(db, actor, id, approve, intact) {
      if !approve {
        TurnedDownKeeps(db, id, actor);
      } else if db.approvals[id].action.IssueCertificate? && outcome == LookupFails {
        LookupFailedKeeps(db, id, actor);
      } else {
        CarriedOutKeeps(db, id, actor);
      }
    }
  }

  lemma OnboardKeeps(db: Db, who: string, needsApproval: bool)
    requires Inv(db)
    ensures var db' := AfterOnboard(db, who, needsApproval); Inv(db') && Keeps(db, db')
  {
    AddingKeeps(db, AfterOnboard(db, who, needsApproval));
  }

  lemma SigningRequestKeeps(db: Db, who: string, release: bool, outcome: Outcome)
    requires Inv(db)
    ensures var db' := AfterSigningRequest(db, who, release, outcome).0; Inv(db') && Keeps(db, db')
  {
    AddingKeeps(db, AfterSigningRequest(db, who, release, outcome).0);
  }

  lemma PrincipalsKeep(db: Db, step: Step)
    requires Inv(db) && (step.AddPrincipal? || step.Deactivate? || step.Ask?)
    ensures Inv(Next(db, step)) && Keeps(db, Next(db, step))
  {
    AddingKeeps(db, Next(db, step));
  }

  lemma StepKeeps(db: Db, step: Step)
    requires Inv(db)
    ensures Inv(Next(db, step)) && Keeps(db, Next(db, step))
  {
    match step
    case Decide(actor, id, approve, intact, outcome) => DecideKeeps(db, actor, id, approve, intact, outcome);
    case Onboard(who, needsApproval) => OnboardKeeps(db, who, needsApproval);
    case RequestSignature(who, release, outcome) => SigningRequestKeeps(db, who, release, outcome);
    case _ => PrincipalsKeep(db, step);
  }

  lemma {:induction false} RunKeeps(steps: seq<Step>)
    ensures Inv(Run(steps))
  {
    if steps != [] {
      RunKeeps(steps[..|steps| - 1]);
      StepKeeps(Run(steps[..|steps| - 1]), steps[|steps| - 1]);
    }
  }

  // ------------------------------------------------------------ what holds over every run

  /** Once decided, an approval stays as it was decided, and its effect, if it was not
      carried out then, never is. */
  lemma {:induction false} DecidedAtMostOnce(steps: seq<Step>, n: nat, a: nat)
    requires n <= |steps| && a in Run(steps[..n]).approvals && Run(steps[..n]).approvals[a].verdict != Undecided
    ensures a in Run(steps).approvals && Run(steps).approvals[a] == Run(steps[..n]).approvals[a]
    ensures a in Run(steps).effects <==> a in Run(steps[..n]).effects
    decreases |steps|
  {
    if n == |steps| {
      assert steps[..n] == steps;
    } else {
      var init := steps[..|steps| - 1];
      assert init[..n] == steps[..n];
      DecidedAtMostOnce(init, n, a);
      RunKeeps(init);
      StepKeeps(Run(init), steps[|steps| - 1]);
    }
  }

  /** This step decided the approval: a second person, allowed to at that moment, and the
      effect in the same commit unless the directory lookup failed. */
  ghost predicate DecidingStep(before: Db, step: Step, after: Db, a: nat) {
    && step.Decide? && step.id == a
    && MayDecide(before, step.actor, a, step.approve, step.intact)
    && a in after.approvals
    && after.approvals[a] == before.approvals[a].(verdict := if step.approve then Approved else Refused, decidedBy := Some(step.actor))
    && (a in after.effects <==>
          step.approve && !(before.approvals[a].action.IssueCertificate? && step.outcome == LookupFails))
  }

  lemma DecisionFollowsTheRules(db: Db, step: Step, a: nat)
    requires Inv(db) && a in Next(db, step).approvals && Next(db, step).approvals[a].verdict != Undecided
    requires a in db.approvals ==> db.approvals[a].verdict == Undecided
    ensures DecidingStep(db, step, Next(db, step), a)
  {
    if step.Decide? {
      if a in db.approvals { assert ApprovalOk(db, a); }
    } else {
      OthersDecideNothing(db, step, a);
    }
  }

  lemma OthersDecideNothing(db: Db, step: Step, a: nat)
    requires !step.Decide? && a in Next(db, step).approvals && Next(db, step).approvals[a].verdict != Undecided
    ensures a in db.approvals && db.approvals[a].verdict != Undecided
  {}

  /** Step `n` decided the approval, which still reads as that step left it. */
  ghost predicate DecidedAt(steps: seq<Step>, n: nat, a: nat) {
    && n < |steps| && a in Run(steps).approvals
    && DecidingStep(Run(steps[..n]), steps[n], Run(steps[..n + 1]), a)
    && Run(steps).approvals[a] == Run(steps[..n + 1]).approvals[a]
    && (a in Run(steps).effects <==> a in Run(steps[..n + 1]).effects)
  }

  /** Every decided approval was decided by such a step: by a second person who was allowed
      to at that moment, with the effect in the same commit. */
  lemma {:induction false} DecidedBySecondPerson(steps: seq<Step>, a: nat)
    requires a in Run(steps).approvals && Run(steps).approvals[a].verdict != Undecided
    ensures exists n: nat :: DecidedAt(steps, n, a)
  {
    hide Next, Inv, DecidingStep;
    assert steps != [];
    var k := |steps| - 1;
    var init := steps[..k];
    RunKeeps(init);
    StepKeeps(Run(init), steps[k]);
    if a in Run(init).approvals && Run(init).approvals[a].verdict != Undecided {
      DecidedBySecondPerson(init, a);
      var n: nat :| DecidedAt(init, n, a);
      assert steps[..n] == init[..n] && steps[..n + 1] == init[..n + 1] && steps[n] == init[n];
      assert DecidedAt(steps, n, a);
    } else {
      DecisionFollowsTheRules(Run(init), steps[k], a);
      assert steps[..k + 1] == steps;
      assert DecidedAt(steps, k, a);
    }
  }

  /** The requester never decides, and no effect is carried out twice or without approval. */
  lemma NobodyApprovesTheirOwn(steps: seq<Step>, a: nat)
    requires a in Run(steps).approvals
    ensures Run(steps).approvals[a].decidedBy != Some(Run(steps).approvals[a].requestedBy)
    ensures a in Run(steps).effects ==> Run(steps).approvals[a].verdict == Approved
    ensures forall i, j :: 0 <= i < j < |Run(steps).effects| && Run(steps).effects[i] == a ==> Run(steps).effects[j] != a
  {
    RunKeeps(steps);
    assert ApprovalOk(Run(steps), a);
  }

  /** The exception: an approved logon certificate whose directory lookup fails stays approved
      with nothing issued, although the call raised. */
  lemma ApprovedWithoutEffect()
    ensures var steps := [Onboard("ann", false), Ask("app:web", IssueCertificate(1)), Decide("bob", 2, true, true, LookupFails)];
            var db := Run(steps);
            2 in db.approvals && db.approvals[2].verdict == Approved && 2 !in db.effects
  {
    var steps := [Onboard("ann", false), Ask("app:web", IssueCertificate(1)), Decide("bob", 2, true, true, LookupFails)];
    assert steps[..2][..1] == [Onboard("ann", false)] && steps[..1][..0] == [];
    assert Run(steps[..1]) == Next(EMPTY, Onboard("ann", false));
    assert Run(steps[..2]) == Next(Run(steps[..1]), steps[1]);
    assert Run(steps) == Next(Run(steps[..2]), steps[2]);
  }

  /** Step `n` granted a certificate whose directory lookup failed. */
  ghost predicate LookupFailedAt(steps: seq<Step>, n: nat, a: nat) {
    && DecidedAt(steps, n, a)
    && Run(steps[..n]).approvals[a].action.IssueCertificate? && steps[n].outcome == LookupFails
  }

  /** Over every run, a granted approval is without its effect exactly when the step that
      granted it was such a lookup. */
  lemma ApprovedWithoutEffectIff(steps: seq<Step>, a: nat)
    requires a in Run(steps).approvals && Run(steps).approvals[a].verdict == Approved
    ensures a !in Run(steps).effects <==> exists n: nat :: LookupFailedAt(steps, n, a)
  {
    hide Run, Next;
    DecidedBySecondPerson(steps, a);
    var n: nat :| DecidedAt(steps, n, a);
    if a !in Run(steps).effects { assert LookupFailedAt(steps, n, a); }
    forall k: nat | LookupFailedAt(steps, k, a) ensures a !in Run(steps).effects {
      assert DecidedAt(steps, k, a);
    }
  }

  /** As one call sees it: a call that raises leaves the approval pending exactly when it is not such a lookup. */
  lemma RaisingLeavesItPendingIff(db: Db, actor: string, id: nat, intact: bool, outcome: Outcome)
    requires Inv(db) && MayDecide(db, actor, id, true, intact)
    requires AfterDecide(db, actor, id, true, intact, outcome).1 != Done
    ensures AfterDecide(db, actor, id, true, intact, outcome).0 == db
       <==> !(db.approvals[id].action.IssueCertificate? && outcome == LookupFails)
  {
    var db' := AfterDecide(db, actor, id, true, intact, outcome).0;
    if db.approvals[id].action.IssueCertificate? && outcome == LookupFails {
      assert db'.approvals[id].verdict == Approved;
    }
  }

  // ------------------------------------------------------------ what asking leads to

  lemma KeepsTrans(s: Db, t: Db, w: Db)
    requires Keeps(s, t) && Keeps(t, w)
    ensures Keeps(s, w)
  {
    forall x {:trigger s.apps[x]} | x in s.apps ensures x in w.apps && w.apps[x].asked == s.apps[x].asked {
      assert t.apps[x].asked == s.apps[x].asked;
    }
    forall r {:trigger s.requests[r]} | r in s.requests
      ensures r in w.requests && w.requests[r].approval == s.requests[r].approval
      ensures w.requests[r].release == s.requests[r].release && w.requests[r].requestedBy == s.requests[r].requestedBy
    {
      assert t.requests[r].approval == s.requests[r].approval;
    }
    forall a {:trigger s.approvals[a]} | a in s.approvals
      ensures a in w.approvals && w.approvals[a].action == s.approvals[a].action && w.approvals[a].requestedBy == s.approvals[a].requestedBy
      ensures s.approvals[a].verdict != Undecided ==> w.approvals[a] == s.approvals[a] && (a in w.effects ==> a in s.effects)
    {
      assert t.approvals[a].action == s.approvals[a].action;
    }
  }

  lemma {:induction false} LaterKeeps(steps: seq<Step>, n: nat)
    requires n <= |steps|
    ensures Keeps(Run(steps[..n]), Run(steps))
    decreases |steps|
  {
    hide Next, Inv, Keeps;
    if n == |steps| {
      assert steps[..n] == steps;
      SameKeeps(Run(steps));
    } else {
      var init := steps[..|steps| - 1];
      assert init[..n] == steps[..n];
      LaterKeeps(init, n);
      RunKeeps(init);
      StepKeeps(Run(init), steps[|steps| - 1]);
      KeepsTrans(Run(steps[..n]), Run(init), Run(steps));
    }
  }

  lemma SameKeeps(db: Db)
    ensures Keeps(db, db)
  {}

  /** Approval `a` was asked for at step `n`, and is still about this, by this person. */
  ghost predicate AskedAt(steps: seq<Step>, n: nat, a: nat, action: Action, who: string) {
    && n < |steps| && a !in Run(steps[..n]).approvals && a in Run(steps).approvals
    && Run(steps).approvals[a].action == action && Run(steps).approvals[a].requestedBy == who
  }

  /** A later step granted `a`. */
  ghost predicate GrantedAfter(steps: seq<Step>, n: nat, a: nat) {
    exists m: nat :: n < m && DecidedAt(steps, m, a) && steps[m].approve
  }

  lemma GrantedIff(steps: seq<Step>, n: nat, a: nat)
    requires n < |steps| && a !in Run(steps[..n]).approvals && a in Run(steps[..n + 1]).approvals
    requires Run(steps[..n + 1]).approvals[a].verdict == Undecided && a in Run(steps).approvals
    ensures Run(steps).approvals[a].verdict == Approved <==> GrantedAfter(steps, n, a)
  {
    hide Run, Next;
    if Run(steps).approvals[a].verdict == Approved {
      DecidedBySecondPerson(steps, a);
      var m: nat :| DecidedAt(steps, m, a);
      DecidedLater(steps, n, m, a);
      assert n < m && DecidedAt(steps, m, a) && steps[m].approve;
    }
  }

  lemma DecidedLater(steps: seq<Step>, n: nat, m: nat, a: nat)
    requires n < |steps| && a !in Run(steps[..n]).approvals && Run(steps[..n + 1]).approvals.Keys >= {a}
    requires Run(steps[..n + 1]).approvals[a].verdict == Undecided && DecidedAt(steps, m, a)
    ensures n < m
  {
    if m < n {
      assert steps[..n][..m + 1] == steps[..m + 1];
      LaterKeeps(steps[..n], m + 1);
    }
  }

  /** Onboarding that needs approval leaves the app waiting for one of its own, asked for by
      the same person; the app is active exactly when a later step granted it. */
  lemma OnboardingWaits(steps: seq<Step>, n: nat, who: string)
    requires n < |steps| && steps[n] == Onboard(who, true)
    ensures var app, db := Run(steps[..n]).nextId, Run(steps);
            && app !in Run(steps[..n]).apps && app in db.apps && db.apps[app].asked.Some?
            && AskedAt(steps, n, db.apps[app].asked.value, OnboardApp(app), who)
            && (db.apps[app].status == Active <==> GrantedAfter(steps, n, db.apps[app].asked.value))
  {
    hide Next;
    var app, a := Run(steps[..n]).nextId, Run(steps[..n]).nextId + 1;
    RunKeeps(steps[..n]);
    AppWaits(Run(steps[..n]), who);
    assert steps[..n + 1][..n] == steps[..n];
    LaterKeeps(steps, n + 1);
    assert Run(steps[..n + 1]).apps[app].asked == Some(a);
    assert Run(steps[..n + 1]).approvals[a].action == OnboardApp(app);
    GrantedIff(steps, n, a);
    ActiveOnlyWithApproval(steps, app);
  }

  lemma AppWaits(db: Db, who: string)
    requires Inv(db)
    ensures var db', app := Next(db, Onboard(who, true)), db.nextId;
            && app !in db.apps && app in db'.apps && db'.apps[app] == App(PendingApproval, Some(app + 1))
            && app + 1 !in db.approvals && app + 1 in db'.approvals
            && db'.approvals[app + 1] == Approval(OnboardApp(app), who, Undecided, None)
  {}

  /** Onboarding that needs none makes the app active at once and for good, and asks nobody. */
  lemma OnboardingWithoutApproval(steps: seq<Step>, n: nat, who: string)
    requires n < |steps| && steps[n] == Onboard(who, false)
    ensures var app := Run(steps[..n]).nextId;
            && app !in Run(steps[..n]).apps && app in Run(steps).apps && Run(steps).apps[app] == App(Active, None)
            && Run(steps[..n + 1]).approvals == Run(steps[..n]).approvals
  {
    var app := Run(steps[..n]).nextId;
    RunKeeps(steps[..n]);
    assert steps[..n + 1][..n] == steps[..n];
    LaterKeeps(steps, n + 1);
    assert Run(steps[..n + 1]).apps[app].asked == None;
    ActiveOnlyWithApproval(steps, app);
  }

  /** Any other request waits, undecided, as it was put. */
  lemma AskingWaits(steps: seq<Step>, n: nat, who: string, action: Action)
    requires n < |steps| && steps[n] == Ask(who, action) && !action.OnboardApp? && !action.CodeSign?
    ensures var a := Run(steps[..n]).nextId;
            && AskedAt(steps, n, a, action, who)
            && (Run(steps).approvals[a].verdict == Approved <==> GrantedAfter(steps, n, a))
  {
    var a := Run(steps[..n]).nextId;
    RunKeeps(steps[..n]);
    assert steps[..n + 1][..n] == steps[..n];
    LaterKeeps(steps, n + 1);
    assert Run(steps[..n + 1]).approvals[a].action == action;
    GrantedIff(steps, n, a);
  }

  /** An app whose onboarding needed approval is active exactly when that approval was
      granted, rejected exactly when it was refused; one that needed none is active. */
  lemma ActiveOnlyWithApproval(steps: seq<Step>, app: nat)
    requires app in Run(steps).apps
    ensures var db := Run(steps);
            match db.apps[app].asked
            case None => db.apps[app].status == Active
            case Some(a) =>
              && a in db.approvals && db.approvals[a].action == OnboardApp(app)
              && (db.apps[app].status == Active <==> db.approvals[a].verdict == Approved)
              && (db.apps[app].status == RejectedApp <==> db.approvals[a].verdict == Refused)
              && (db.apps[app].status == Active <==> a in db.effects)
  {
    RunKeeps(steps);
    assert AppOk(Run(steps), app);
    if Run(steps).apps[app].asked.Some? { assert ApprovalOk(Run(steps), Run(steps).apps[app].asked.value); }
  }

  /** A signature with a release key is there exactly when a later step granted it, on an
      approval of its own asked for by the same person. */
  lemma ReleaseSignatureWaits(steps: seq<Step>, n: nat, who: string, outcome: Outcome)
    requires n < |steps| && steps[n] == RequestSignature(who, true, outcome)
    ensures var r, db := Run(steps[..n]).nextId, Run(steps);
            && r !in Run(steps[..n]).requests && r in db.requests && db.requests[r].release && db.requests[r].requestedBy == who
            && db.requests[r].approval.Some? && AskedAt(steps, n, db.requests[r].approval.value, CodeSign(r), who)
            && (db.requests[r].signature <==> GrantedAfter(steps, n, db.requests[r].approval.value))
  {
    hide Next;
    var r, a := Run(steps[..n]).nextId, Run(steps[..n]).nextId + 1;
    RunKeeps(steps[..n]);
    RequestWaits(Run(steps[..n]), who, outcome);
    assert steps[..n + 1][..n] == steps[..n];
    LaterKeeps(steps, n + 1);
    assert Run(steps[..n + 1]).requests[r].approval == Some(a);
    assert Run(steps[..n + 1]).approvals[a].action == CodeSign(r);
    GrantedIff(steps, n, a);
    ReleaseSignatureNeedsSecondPerson(steps, r);
  }

  lemma RequestWaits(db: Db, who: string, outcome: Outcome)
    requires Inv(db)
    ensures var db', r := Next(db, RequestSignature(who, true, outcome)), db.nextId;
            && r !in db.requests && r in db'.requests && db'.requests[r] == Request(true, who, Waiting, false, Some(r + 1))
            && r + 1 !in db.approvals && r + 1 in db'.approvals
            && db'.approvals[r + 1] == Approval(CodeSign(r), who, Undecided, None)
  {}

  /** With a test key the signature is there immediately and nobody is asked; if signing raises, nothing
      is left of the request. */
  lemma TestSignatureIsImmediate(steps: seq<Step>, n: nat, who: string, outcome: Outcome)
    requires n < |steps| && steps[n] == RequestSignature(who, false, outcome)
    ensures var r := Run(steps[..n]).nextId;
            if outcome == Succeeds then
              && r in Run(steps).requests && Run(steps).requests[r] == Request(false, who, Signed, true, None)
              && Run(steps[..n + 1]).approvals == Run(steps[..n]).approvals
            else Run(steps[..n + 1]) == Run(steps[..n])
  {
    var r := Run(steps[..n]).nextId;
    RunKeeps(steps[..n]);
    assert steps[..n + 1][..n] == steps[..n];
    LaterKeeps(steps, n + 1);
    if outcome == Succeeds {
      assert Run(steps[..n + 1]).requests[r].approval == None;
      RunKeeps(steps);
      assert RequestOk(Run(steps), r);
    }
  }

  // ------------------------------------------------------------ who may decide

  /** The app a request is about is in the state the request was made in. */
  predicate AppAsItWas(db: Db, action: Action) {
    match action
    case OnboardApp(app) => app in db.apps && db.apps[app].status == PendingApproval
    case IssueCertificate(app) => app in db.apps && db.apps[app].status == Active
    case ForApp(app) => app in db.apps && db.apps[app].status == Active
    case _ => true
  }

  /** A credential, once made, keeps its maker, and once switched off stays off. */
  lemma {:induction false} PrincipalsLast(steps: seq<Step>, n: nat, name: string)
    requires n <= |steps| && name in Run(steps[..n]).principals
    ensures name in Run(steps).principals && Run(steps).principals[name].createdBy == Run(steps[..n]).principals[name].createdBy
    ensures !Run(steps[..n]).principals[name].active ==> !Run(steps).principals[name].active
    decreases |steps|
  {
    hide Next;
    if n == |steps| {
      assert steps[..n] == steps;
    } else {
      var init := steps[..|steps| - 1];
      assert init[..n] == steps[..n];
      PrincipalsLast(init, n, name);
      PrincipalLasts(Run(init), steps[|steps| - 1], name);
    }
  }

  lemma PrincipalLasts(db: Db, step: Step, name: string)
    requires name in db.principals
    ensures var p := Next(db, step).principals;
            name in p && p[name].createdBy == db.principals[name].createdBy && (!db.principals[name].active ==> !p[name].active)
  {}

  /** A credential is live from the step that makes it until one switches it off. */
  lemma {:induction false} CredentialLiveIff(steps: seq<Step>, k: nat, name: string, maker: string)
    requires k < |steps| && steps[k] == AddPrincipal(name, maker) && name !in Run(steps[..k]).principals
    ensures name in Run(steps).principals && Run(steps).principals[name].createdBy == maker
    ensures Run(steps).principals[name].active <==> Deactivate(name) !in steps[k..]
    decreases |steps|
  {
    hide Next;
    var init, last := steps[..|steps| - 1], steps[|steps| - 1];
    if k == |init| {
      assert steps[..k] == init && steps[k..] == [last];
      CredentialStep(Run(init), last, name);
    } else {
      assert init[..k] == steps[..k] && init[k] == steps[k] && steps[k..] == init[k..] + [last];
      CredentialLiveIff(init, k, name, maker);
      CredentialStep(Run(init), last, name);
    }
  }

  lemma CredentialStep(db: Db, step: Step, name: string)
    ensures var p := Next(db, step).principals;
            && (name !in db.principals && step.AddPrincipal? && step.name == name ==> name in p && p[name] == Principal(step.createdBy, true))
            && (name in db.principals ==>
                  name in p && p[name] == if step == Deactivate(name) then db.principals[name].(active := false) else db.principals[name])
  {}

  /** Nobody decides what was asked for by the person who made their credential, from the
      step that made it to the end of the run. */
  lemma MakerNeverServed(steps: seq<Step>, k: nat, n: nat, name: string, maker: string, a: nat)
    requires k < n && n < |steps| && steps[k] == AddPrincipal(name, maker) && name !in Run(steps[..k]).principals
    requires DecidedAt(steps, n, a) && steps[n].actor == name
    ensures Run(steps).approvals[a].requestedBy != maker
  {
    assert steps[..k + 1][..k] == steps[..k] && steps[..n][..k + 1] == steps[..k + 1];
    PrincipalsLast(steps[..n], k + 1, name);
  }

  /** After the requester's credential was switched off nothing they asked for is granted. */
  lemma NoGrantAfterDeactivation(steps: seq<Step>, k: nat, n: nat, who: string, a: nat)
    requires k < n && n < |steps| && steps[k] == Deactivate(who) && who in Run(steps[..k]).principals
    requires DecidedAt(steps, n, a) && steps[n].approve
    ensures Run(steps).approvals[a].requestedBy != who
  {
    assert steps[..k + 1][..k] == steps[..k] && steps[..n][..k + 1] == steps[..k + 1];
    PrincipalsLast(steps[..n], k + 1, who);
  }

  /** Nothing is granted for an app that is not active, or, to be onboarded, no longer waiting. */
  lemma GrantsFitTheApp(steps: seq<Step>, n: nat, a: nat)
    requires DecidedAt(steps, n, a) && steps[n].approve
    ensures AppAsItWas(Run(steps[..n]), Run(steps).approvals[a].action)
  {}

  /** Onboarding cannot fail, and a failed directory lookup comes too late. */
  predicate Carries(action: Action, outcome: Outcome) {
    outcome == Succeeds || action.OnboardApp? || (action.IssueCertificate? && outcome == LookupFails)
  }

  /** Who may decide which way, whatever comes of it. */
  predicate Allowed(db: Db, p: Approval, actor: string, approve: bool) {
    && actor != p.requestedBy && !(actor in db.principals && db.principals[actor].createdBy == p.requestedBy)
    && (approve ==> AppAsItWas(db, p.action) && (p.requestedBy in db.principals ==> db.principals[p.requestedBy].active))
  }

  /** What the caller is told. Done: it is decided, and a grant carried out. Failed: it was
      allowed, and raised. */
  lemma ReplySays(db: Db, actor: string, id: nat, approve: bool, intact: bool, outcome: Outcome)
    requires Inv(db)
    ensures var (db', reply) := AfterDecide(db, actor, id, approve, intact, outcome);
            && (reply == NotFound <==> id !in db.approvals)
            && (id in db.approvals ==>
                  && (reply == AlreadyDecided <==> intact && db.approvals[id].verdict != Undecided)
                  && (reply == Done <==> id in db'.approvals && db'.approvals[id] != db.approvals[id] && (approve ==> id in db'.effects))
                  && (reply == Failed ==> intact && approve && Allowed(db, db.approvals[id], actor, approve) && outcome != Succeeds)
                  && (reply == Forbidden ==> !intact || !Allowed(db, db.approvals[id], actor, approve)))
  {
    if id in db.approvals { assert ApprovalOk(db, id); }
  }

  /** And apart from all that a decision goes through: whether this call decides depends on
      who calls, and for a grant on the app, the requester and the outcome. */
  lemma DecidesIff(db: Db, actor: string, id: nat, approve: bool, intact: bool, outcome: Outcome)
    requires Inv(db) && id in db.approvals && db.approvals[id].verdict == Undecided
    ensures var p, db' := db.approvals[id], Next(db, Decide(actor, id, approve, intact, outcome));
            id in db'.approvals
            && (db'.approvals[id].verdict == (if approve then Approved else Refused)
                <==> intact && Allowed(db, p, actor, approve) && (approve ==> Carries(p.action, outcome)))
  {
    assert ApprovalOk(db, id);
  }

  /** A release key's request holds a signature exactly when its own approval was granted,
      and then by somebody other than the one who asked for the signature. */
  lemma ReleaseSignatureNeedsSecondPerson(steps: seq<Step>, r: nat)
    requires r in Run(steps).requests && Run(steps).requests[r].release
    ensures var db := Run(steps); var q := db.requests[r];
            && q.approval.Some? && q.approval.value in db.approvals && db.approvals[q.approval.value].action == CodeSign(r)
            && (q.signature <==> db.approvals[q.approval.value].verdict == Approved)
            && (q.signature <==> q.approval.value in db.effects)
            && (q.signature ==> exists who :: db.approvals[q.approval.value].decidedBy == Some(who) && who != q.requestedBy)
  {
    RunKeeps(steps);
    var db := Run(steps);
    assert RequestOk(db, r);
    var a := db.requests[r].approval.value;
    assert ApprovalOk(db, a);
    if db.requests[r].signature { assert db.approvals[a].decidedBy == Some(db.approvals[a].decidedBy.value); }
  }
}
