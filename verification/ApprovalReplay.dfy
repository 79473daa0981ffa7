/** Dual control against somebody who puts old rows back in SQL. A seal keeps its value for
    good, so an approval row as it was before the decision can be restored, seal and all, and
    decided again. The approval table, its seals and its steps are those of `CmpRuns`. */
module ApprovalReplay {
  import opened Prelude
  import opened CmpTransactions
  import opened CmpInvariant
  import opened CmpRuns

  predicate DecidesOn(step: Step, a: nat) {
    (step.Grant? || step.Refuse?) && step.approval == a
  }

  /** Step `n` decides approval `a`. */
  ghost predicate DecidesAt(enforced: bool, steps: seq<Step>, n: nat, a: nat) {
    n < |steps| && DecidesOn(steps[n], a) && Decidable(Run(enforced, steps[..n]), a)
  }

  /** An undecided row whose seal fits: this write opens the approval. */
  predicate Opens(db: Db, step: Step, a: nat) {
    && step.SqlWrite? && step.approval == a && step.content.verdict == Undecided
    && (if step.withSeal then Sealed(db, step.content) else !db.enforced)
  }

  predicate Touches(step: Step, a: nat) {
    ((step.SqlWrite? || step.SqlDelete?) && step.approval == a) || DecidesOn(step, a)
  }

  /** Since step `n`, the last step that touched row `a` wrote an undecided row whose seal fits. */
  ghost predicate Reopened(enforced: bool, steps: seq<Step>, n: nat, a: nat) {
    n + 1 < |steps| &&
    var init, last := steps[..|steps| - 1], steps[|steps| - 1];
    if Touches(last, a) then Opens(Run(enforced, init), last, a) else Reopened(enforced, init, n, a)
  }

  lemma OthersLeaveIt(db: Db, step: Step, a: nat)
    requires a < db.nextApproval && !Touches(step, a)
    ensures (a in Next(db, step).approvals <==> a in db.approvals) && a < Next(db, step).nextApproval
    ensures a in db.approvals ==> Next(db, step).approvals[a] == db.approvals[a]
    ensures Next(db, step).enforced == db.enforced
  {
    if step.Receive? { MessagesLeaveIt(db, step.message, step.now, a); }
  }

  lemma MessagesLeaveIt(db: Db, m: Message, now: int, a: nat)
    requires a < db.nextApproval
    ensures var t := AfterMessage(db, m, now).0;
            && (a in t.approvals <==> a in db.approvals) && a < t.nextApproval && t.enforced == db.enforced
            && (a in db.approvals ==> t.approvals[a] == db.approvals[a])
  {}

  lemma TouchedIff(db: Db, step: Step, a: nat)
    requires Touches(step, a)
    ensures Decidable(Next(db, step), a) <==> Opens(db, step, a)
  {}

  lemma DecidableIsBounded(enforced: bool, steps: seq<Step>, a: nat)
    requires Decidable(Run(enforced, steps), a)
    ensures a < Run(enforced, steps).nextApproval
  {
    RunKeeps(enforced, steps);
  }

  /** A decided approval can be decided again exactly when the last that happened to its row
      since is an SQL write of an undecided one whose seal fits. */
  lemma {:induction false} DecidableAgainIff(enforced: bool, steps: seq<Step>, n: nat, a: nat)
    requires DecidesAt(enforced, steps, n, a)
    ensures a < Run(enforced, steps).nextApproval
    ensures Decidable(Run(enforced, steps), a) <==> Reopened(enforced, steps, n, a)
    decreases |steps|
  {
    hide Next, Decidable, Opens;
    var init, last := steps[..|steps| - 1], steps[|steps| - 1];
    if n + 1 == |steps| {
      DecidableIsBounded(enforced, init, a);
      DecidedRow(Run(enforced, init), last, a);
    } else {
      assert init[..n] == steps[..n] && init[n] == steps[n];
      DecidableAgainIff(enforced, init, n, a);
      if Touches(last, a) {
        TouchedIff(Run(enforced, init), last, a);
        StaysBounded(Run(enforced, init), last, a);
      } else {
        OthersLeaveIt(Run(enforced, init), last, a);
        SameRowSameVerdict(Run(enforced, init), Next(Run(enforced, init), last), a);
      }
    }
  }

  lemma DecidedRow(db: Db, step: Step, a: nat)
    requires DecidesOn(step, a) && Decidable(db, a) && a < db.nextApproval
    ensures !Decidable(Next(db, step), a) && a < Next(db, step).nextApproval
  {}

  lemma StaysBounded(db: Db, step: Step, a: nat)
    requires a < db.nextApproval && Touches(step, a)
    ensures a < Next(db, step).nextApproval
  {}

  lemma SameRowSameVerdict(db: Db, db': Db, a: nat)
    requires (a in db'.approvals <==> a in db.approvals) && (a in db.approvals ==> db'.approvals[a] == db.approvals[a])
    ensures Decidable(db', a) <==> Decidable(db, a)
  {}

  /** So a second decision of the same approval was made possible by such a write. */
  lemma DecidedTwiceMeansReopened(enforced: bool, steps: seq<Step>, n: nat, m: nat, a: nat)
    requires n < m && DecidesAt(enforced, steps, n, a) && DecidesAt(enforced, steps, m, a)
    ensures Reopened(enforced, steps[..m], n, a)
  {
    assert steps[..m][..n] == steps[..n] && steps[..m][n] == steps[n];
    DecidableAgainIff(enforced, steps[..m], n, a);
  }

  /** Asked once, granted, put back as it was before, granted again. */
  function Replayed(q: nat): seq<Step> {
    [] + [AskElsewhere(q)] + [Grant(1, false)] + [SqlWrite(1, Content(q, Undecided), true)] + [Grant(1, false)]
  }

  /** One request, two certificates, although missing seals are refused and every seal fits. */
  lemma ReplayedApprovalIssuesTwice(q: nat)
    ensures DecidesAt(true, Replayed(q), 1, 1) && DecidesAt(true, Replayed(q), 3, 1)
    ensures var db := Run(true, Replayed(q)); IsCert(db, 1, ForApproval(1)) && IsCert(db, 2, ForApproval(1))
  {
    var all := Replayed(q);
    var asked: seq<Step> := [] + [AskElsewhere(q)];
    var granted := asked + [Grant(1, false)];
    RunSnoc(true, [], AskElsewhere(q));
    GrantStep(true, asked, 1);
    assert Sealed(Run(true, granted), Content(q, Undecided)) by {
      assert Content(q, Undecided) in Run(true, granted).asked[1].contents;
    }
    WriteStep(true, granted, 1, Content(q, Undecided), true);
    GrantStep(true, granted + [SqlWrite(1, Content(q, Undecided), true)], 1);
    assert all[..1] == asked && all[..3] == granted + [SqlWrite(1, Content(q, Undecided), true)];
  }
}
