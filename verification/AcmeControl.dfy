/** What control over a name means in a run of the ACME server: which requests make an
    authorization valid, which end it, and that every name of every certificate issued goes
    back to one of them. */
module AcmeControl {
  import opened Prelude
  import opened AcmeOrders
  import opened AcmeInvariant
  import opened AcmeRuns

  /** A request that got past the nonce check, from an account that is not deactivated. */
  predicate Takes(w: World, step: Step) {
    && step.Post? && w.clock <= step.now && step.nonce in w.nonces
    && step.account in w.st.accounts && w.st.accounts[step.account]
  }

  /** The account answers a challenge of a pending authorization of an order of its own that has not expired. */
  predicate AnswersOwn(w: World, step: Step, a: nat) {
    && Takes(w, step) && step.request.Challenge? && step.request.authz == a
    && a in w.st.authzs && w.st.authzs[a].status == AuthzPending && Offers(w.st.authzs[a], step.request.challenge)
    && w.st.authzs[a].order in w.st.orders && w.st.orders[w.st.authzs[a].order].account == step.account
    && (step.now <= w.st.orders[w.st.authzs[a].order].expires || w.st.orders[w.st.authzs[a].order].status == Invalid)
  }

  /** And the answer fetched over HTTP or DNS was the right one. */
  predicate Proves(w: World, step: Step, a: nat) { AnswersOwn(w, step, a) && step.request.proved }

  /** A new order whose names are all within the scope the app was onboarded for. */
  predicate OpensInScope(w: World, step: Step, order: nat, name: Name) {
    && Takes(w, step) && step.request.NewOrder? && step.request.permitted && step.request.raScope
    && w.st.nextOrder == order && order in Next(w, step).st.orders && name in step.request.names
  }

  // ------------------------------------------------------------ how an authorization becomes valid

  /** The step made authorization `a` valid: by a proof, or by opening an order in scope. */
  predicate Validates(w: World, step: Step, a: nat, z: Authz) {
    || (Proves(w, step, a) && z.tried == Some(step.request.challenge)
        && z.order == w.st.authzs[a].order && z.name == w.st.authzs[a].name)
    || (OpensInScope(w, step, z.order, z.name) && z.tried == Some(RaScope))
  }

  lemma NewOrderValidates(w: World, step: Step, a: nat)
    requires WorldOk(w) && Takes(w, step) && step.request.NewOrder?
    requires var t := Next(w, step).st.authzs; a in t && t[a].status == AuthzValid && !(a in w.st.authzs && w.st.authzs[a] == t[a])
    ensures Validates(w, step, a, Next(w, step).st.authzs[a])
  {
    var r, s := step.request, w.st;
    var more := NewAuthzs(s.nextOrder, r.names, s.nextAuthz, r.raScope);
    assert a in more && Next(w, step).st.authzs[a] == more[a];
    assert r.names[a - s.nextAuthz] in r.names;
  }

  lemma ChallengeValidates(w: World, step: Step, a: nat)
    requires WorldOk(w) && Takes(w, step) && step.request.Challenge?
    requires var t := Next(w, step).st.authzs; a in t && t[a].status == AuthzValid && !(a in w.st.authzs && w.st.authzs[a] == t[a])
    ensures Validates(w, step, a, Next(w, step).st.authzs[a])
  {
    if a in w.st.authzs {
      assert AuthzOk(w.st, a);
      if w.st.authzs[a].status == AuthzPending { PendingAuthzOrder(w.st, w.clock, a); }
    }
  }

  lemma OthersValidateNothing(s: State, account: nat, r: Request, now: int, a: nat)
    requires !r.NewOrder? && !r.Challenge?
    requires a in Handle(s, account, r, now).authzs && Handle(s, account, r, now).authzs[a].status == AuthzValid
    ensures a in s.authzs && s.authzs[a] == Handle(s, account, r, now).authzs[a]
  {}

  lemma HousekeepingValidatesNothing(s: State, now: int, a: nat)
    requires a in AfterHousekeeping(s, now).authzs && AfterHousekeeping(s, now).authzs[a].status == AuthzValid
    ensures a in s.authzs && s.authzs[a] == AfterHousekeeping(s, now).authzs[a]
  {}

  lemma BecomesValid(w: World, step: Step, a: nat)
    requires WorldOk(w)
    requires var t := Next(w, step).st.authzs; a in t && t[a].status == AuthzValid && !(a in w.st.authzs && w.st.authzs[a] == t[a])
    ensures Validates(w, step, a, Next(w, step).st.authzs[a])
  {
    hide WorldOk, Handle, AfterHousekeeping, Validates;
    if step.Housekeeping? && w.clock <= step.now { HousekeepingValidatesNothing(w.st, step.now, a); }
    if Takes(w, step) {
      if step.request.NewOrder? {
        NewOrderValidates(w, step, a);
      } else if step.request.Challenge? {
        ChallengeValidates(w, step, a);
      } else {
        OthersValidateNothing(w.st, step.account, step.request, step.now, a);
      }
    }
  }

  ghost predicate ValidatedAt(steps: seq<Step>, n: nat, a: nat, z: Authz) {
    n < |steps| && Validates(Run(steps[..n]), steps[n], a, z)
  }

  /** A valid authorization goes back to the step that proved it, or to an order opened in scope. */
  lemma {:induction false} ValidMeansProved(steps: seq<Step>, a: nat)
    requires a in Run(steps).st.authzs && Run(steps).st.authzs[a].status == AuthzValid
    ensures exists n: nat :: ValidatedAt(steps, n, a, Run(steps).st.authzs[a])
  {
    hide Next, Validates;
    assert steps != [];
    var k := |steps| - 1;
    var init, z := steps[..k], Run(steps).st.authzs[a];
    if a in Run(init).st.authzs && Run(init).st.authzs[a] == z {
      ValidMeansProved(init, a);
      var n: nat :| ValidatedAt(init, n, a, z);
      assert init[..n] == steps[..n] && init[n] == steps[n];
      assert ValidatedAt(steps, n, a, z);
    } else {
      RunKeeps(init);
      BecomesValid(Run(init), steps[k], a);
      assert ValidatedAt(steps, k, a, z);
    }
  }

  // ------------------------------------------------------------ every certificate

  /** At step `n` the account of `e` earned this name for its order: it proved a challenge, for
      a wildcard over DNS, or opened the order in scope. */
  ghost predicate EarnedAt(steps: seq<Step>, n: nat, e: Issue, name: Name) {
    && n < |steps|
    && ((OpensInScope(Run(steps[..n]), steps[n], e.order, name) && steps[n].account == e.account)
        || ProvedFor(Run(steps[..n]), steps[n], e, name))
  }

  ghost predicate ProvedFor(w: World, step: Step, e: Issue, name: Name) {
    && step.Post? && step.request.Challenge? && Proves(w, step, step.request.authz)
    && w.st.authzs[step.request.authz].order == e.order && w.st.authzs[step.request.authz].name == name
    && step.account == e.account && (name.wildcard ==> step.request.challenge == Dns01)
  }

  lemma IssueEarned(steps: seq<Step>, step: Step, k: nat)
    requires Run(steps + [step]).st.issued != Run(steps).st.issued
    requires var e := Run(steps + [step]).st.issued[|Run(steps).st.issued|]; k < |e.names|
    ensures var e := Run(steps + [step]).st.issued[|Run(steps).st.issued|];
            exists n: nat :: EarnedAt(steps, n, e, e.names[k])
  {
    hide Run, Next, Validates, EarnedAt;
    IssueNeedsEveryAuthorization(steps, step);
    var s, e := Run(steps).st, Run(steps + [step]).st.issued[|Run(steps).st.issued|];
    assert Permitted(s, e.order, e.names[k]);
    var a: nat :| Permits(s, a, e.order, e.names[k]);
    ValidMeansProved(steps, a);
    var n: nat :| ValidatedAt(steps, n, a, s.authzs[a]);
    ValidatedForIssue(steps, step, n, a, s.authzs[a]);
  }

  lemma ValidatedForIssue(steps: seq<Step>, step: Step, n: nat, a: nat, z: Authz)
    requires Run(steps + [step]).st.issued != Run(steps).st.issued && ValidatedAt(steps, n, a, z)
    requires |Run(steps + [step]).st.issued| == |Run(steps).st.issued| + 1 && Run(steps).st.issued <= Run(steps + [step]).st.issued
    requires z.order == Run(steps + [step]).st.issued[|Run(steps).st.issued|].order && z.order in Run(steps).st.orders
    ensures EarnedAt(steps, n, Run(steps + [step]).st.issued[|Run(steps).st.issued|], z.name)
  {
    hide Run, Next, Validates, EarnedAt, WorldOk;
    var e := Run(steps + [step]).st.issued[|Run(steps).st.issued|];
    OwnerIsTheSame(steps, step, n, e.order);
    OwnerIsTheSame(steps, step, n + 1, e.order);
    RunKeeps(steps[..n]);
    NextOf(steps, n);
    if OpensInScope(Run(steps[..n]), steps[n], e.order, z.name) { OpenedBy(Run(steps[..n]), steps[n], e.order, z.name); }
    ValidatedIsEarned(steps, n, a, z, e, Run(steps).st.orders[e.order].account);
  }

  lemma NextOf(steps: seq<Step>, n: nat)
    requires n < |steps|
    ensures Run(steps[..n + 1]) == Next(Run(steps[..n]), steps[n])
  {
    assert steps[..n + 1][..n] == steps[..n];
  }

  lemma ValidatedIsEarned(steps: seq<Step>, n: nat, a: nat, z: Authz, e: Issue, owner: nat)
    requires ValidatedAt(steps, n, a, z) && WorldOk(Run(steps[..n])) && z.order == e.order && owner == e.account
    requires e.order in Run(steps[..n]).st.orders ==> Run(steps[..n]).st.orders[e.order].account == owner
    requires OpensInScope(Run(steps[..n]), steps[n], e.order, z.name) ==> steps[n].account == owner
    ensures EarnedAt(steps, n, e, z.name)
  {
    hide Run;
    if !OpensInScope(Run(steps[..n]), steps[n], z.order, z.name) { assert AuthzOk(Run(steps[..n]).st, a); }
  }

  lemma OpenedBy(w: World, step: Step, o: nat, name: Name)
    requires WorldOk(w) && OpensInScope(w, step, o, name)
    ensures o in Next(w, step).st.orders && Next(w, step).st.orders[o].account == step.account
  {
    assert o in w.st.orders ==> OrderOk(w.st, o);
  }

  /** The order is issued to the account that opened it. */
  lemma OwnerIsTheSame(steps: seq<Step>, step: Step, n: nat, o: nat)
    requires n <= |steps| && o in Run(steps).st.orders && Run(steps + [step]).st.issued != Run(steps).st.issued
    requires Run(steps + [step]).st.issued[..|Run(steps).st.issued|] == Run(steps).st.issued
    requires |Run(steps + [step]).st.issued| == |Run(steps).st.issued| + 1 && Run(steps + [step]).st.issued[|Run(steps).st.issued|].order == o
    ensures Run(steps + [step]).st.issued[|Run(steps).st.issued|].account == Run(steps).st.orders[o].account
    ensures o in Run(steps[..n]).st.orders ==> Run(steps[..n]).st.orders[o].account == Run(steps).st.orders[o].account
  {
    OneCertificatePerOrder(steps + [step], |Run(steps).st.issued|, |Run(steps).st.issued|);
    RunKeeps(steps);
    assert (steps + [step])[..|steps|] == steps;
    StepKeeps(Run(steps), step);
    assert OrderMoves(Run(steps).st, Run(steps + [step]).st, o);
    if o in Run(steps[..n]).st.orders { OwnerStays(steps, n, o); }
  }

  lemma {:induction false} OwnerStays(steps: seq<Step>, n: nat, o: nat)
    requires n <= |steps| && o in Run(steps[..n]).st.orders
    ensures o < Run(steps).st.nextOrder
    ensures o in Run(steps).st.orders ==> Run(steps).st.orders[o].account == Run(steps[..n]).st.orders[o].account
    decreases |steps|
  {
    hide Next, Inv;
    if n == |steps| {
      assert steps[..n] == steps;
      RunKeeps(steps);
      KnownIds(Run(steps), o);
    } else {
      var init := steps[..|steps| - 1];
      assert init[..n] == steps[..n];
      OwnerStays(init, n, o);
      RunKeeps(init);
      StepKeeps(Run(init), steps[|steps| - 1]);
      assert OrderMoves(Run(init).st, Run(steps).st, o);
    }
  }

  lemma KnownIds(w: World, o: nat)
    requires WorldOk(w) && o in w.st.orders
    ensures o < w.st.nextOrder
  {
    assert OrderOk(w.st, o);
  }

  /** Every name of every certificate was earned for its order, by its account, at a step of the run. */
  lemma {:induction false} IssuedNamesWereEarned(steps: seq<Step>, i: nat, k: nat)
    requires i < |Run(steps).st.issued| && k < |Run(steps).st.issued[i].names|
    ensures exists n: nat :: EarnedAt(steps, n, Run(steps).st.issued[i], Run(steps).st.issued[i].names[k])
  {
    hide Next;
    assert steps != [];
    var init, last := steps[..|steps| - 1], steps[|steps| - 1];
    assert steps == init + [last];
    RunKeeps(init);
    StepKeeps(Run(init), last);
    if i < |Run(init).st.issued| {
      IssuedNamesWereEarned(init, i, k);
      var n: nat :| EarnedAt(init, n, Run(steps).st.issued[i], Run(steps).st.issued[i].names[k]);
      assert init[..n] == steps[..n] && init[n] == steps[n];
      assert EarnedAt(steps, n, Run(steps).st.issued[i], Run(steps).st.issued[i].names[k]);
    } else {
      IssueNeedsEveryAuthorization(init, last);
      IssueEarned(init, last, k);
      var n: nat :| EarnedAt(init, n, Run(steps).st.issued[i], Run(steps).st.issued[i].names[k]);
      assert init[..n] == steps[..n] && init[n] == steps[n];
      assert EarnedAt(steps, n, Run(steps).st.issued[i], Run(steps).st.issued[i].names[k]);
    }
  }

  // ------------------------------------------------------------ opening orders

  /** Some order under way, and not yet expired, renews this certificate. */
  ghost predicate BeingRenewed(s: State, cert: nat, now: int) {
    exists o :: o in s.orders && s.orders[o].renews == Some(cert) && now < s.orders[o].expires
                && s.orders[o].status != Valid && s.orders[o].status != Invalid
  }

  /** One authorization for this name of the new order: valid at once within scope, pending otherwise. */
  ghost predicate AuthzFor(s: State, t: State, r: Request, k: nat)
    requires r.NewOrder? && k < |r.names|
  {
    && s.nextAuthz + k in t.authzs
    && var z := t.authzs[s.nextAuthz + k];
       z.order == s.nextOrder && z.name == r.names[k] && z.status == if r.raScope then AuthzValid else AuthzPending
  }

  /** There is a new order, the account's, for these names, good for eight hours. */
  ghost predicate Opens(s: State, t: State, account: nat, r: Request, now: int)
    requires r.NewOrder?
  {
    && s.nextOrder !in s.orders
    && t.orders == s.orders[s.nextOrder := Order(account, r.names, if r.raScope then Ready else Pending, now + 28_800, None, r.renews)]
    && forall k: nat :: k < |r.names| ==> AuthzFor(s, t, r, k)
  }

  /** A new order is opened exactly for at least one name, if policy allows them all and, when it
      is to renew a certificate, that can be renewed and is not being renewed already. It comes
      with an authorization for each name. */
  lemma OrderOpensIff(s: State, account: nat, r: Request, clock: int, now: int)
    requires Inv(s, clock) && r.NewOrder?
    ensures var t := Handle(s, account, r, now);
            if r.names != [] && r.permitted && (r.renews.Some? ==> r.renewable && !BeingRenewed(s, r.renews.value, now))
            then Opens(s, t, account, r, now)
            else t == s
  {
    FreshIds(s);
    if r.renews.Some? { RenewedIff(s, r.renews.value, now); }
    forall k: nat | k < |r.names| && r.names != [] && r.permitted && (r.renews.Some? ==> r.renewable && !BeingRenewed(s, r.renews.value, now))
      ensures AuthzFor(s, Handle(s, account, r, now), r, k)
    {
      AuthzComes(s, account, r, now, k);
    }
  }

  lemma AuthzComes(s: State, account: nat, r: Request, now: int, k: nat)
    requires r.NewOrder? && k < |r.names| && r.permitted
    requires r.renews.Some? ==> r.renewable && !BeingRenewed(s, r.renews.value, now)
    ensures AuthzFor(s, Handle(s, account, r, now), r, k)
  {
    if r.renews.Some? { RenewedIff(s, r.renews.value, now); }
    var more := NewAuthzs(s.nextOrder, r.names, s.nextAuthz, r.raScope);
    assert s.nextAuthz + k in more && more[s.nextAuthz + k] == NewAuthz(s.nextOrder, r.names[k], r.raScope);
  }

  lemma RenewedIff(s: State, cert: nat, now: int)
    ensures Replacing(s, cert, now) <==> BeingRenewed(s, cert, now)
  {}

  /** Over HTTP any name but a wildcard can be proved, over DNS every one. */
  lemma ProvableOver(a: Authz, c: Challenge)
    requires a.tried != Some(RaScope)
    ensures Offers(a, c) <==> match c case Http01 => !a.name.wildcard case Dns01 => true case RaScope => false
  {}

  /** Not yet issued for, and not over. */
  predicate UnderWay(s: State, o: nat) {
    o in s.orders && s.orders[o].status != Valid && s.orders[o].status != Invalid
  }

  /** An authorization that ends with its account, and one that ends with its order's time. */
  predicate GoesWith(s: State, a: nat, account: nat) {
    && a in s.authzs && UnderWay(s, s.authzs[a].order) && s.orders[s.authzs[a].order].account == account
    && (s.authzs[a].status == AuthzPending || s.authzs[a].status == AuthzValid)
  }

  predicate Lapses(s: State, a: nat, now: int) {
    && a in s.authzs && UnderWay(s, s.authzs[a].order) && s.orders[s.authzs[a].order].expires < now
    && s.authzs[a].status == AuthzPending
  }

  function Ended(o: Order, ends: bool): Order { if ends then o.(status := Invalid) else o }

  /** Deactivating an account closes it for good, ends its orders that are under way together with
      their live authorizations, and touches nothing else. */
  lemma DeactivationCloses(s: State, account: nat, o: nat, a: nat, now: int)
    ensures var t := Handle(s, account, DeactivateAccount, now);
            && t.accounts == s.accounts[account := false] && t.issued == s.issued
            && (o in s.orders ==> o in t.orders && t.orders[o] == Ended(s.orders[o], UnderWay(s, o) && s.orders[o].account == account))
            && (a in s.authzs ==> a in t.authzs)
            && (a in s.authzs && GoesWith(s, a, account) ==> t.authzs[a] == s.authzs[a].(status := AuthzDeactivated))
            && (a in s.authzs && !GoesWith(s, a, account) ==> t.authzs[a] == s.authzs[a])
  {}

  /** Housekeeping ends what is under way once it has expired, with the authorizations still
      pending, removes what is over thirty days after it expired, and leaves the rest alone. */
  lemma HousekeepingClears(s: State, now: int, o: nat, a: nat)
    ensures var t := AfterHousekeeping(s, now);
            && t.accounts == s.accounts && t.issued == s.issued
            && (o in s.orders && s.orders[o].expires < now - 2_592_000 && s.orders[o].status != Valid ==> o !in t.orders)
            && (o in s.orders && !(s.orders[o].expires < now - 2_592_000 && s.orders[o].status != Valid) ==>
                  o in t.orders && t.orders[o] == Ended(s.orders[o], UnderWay(s, o) && s.orders[o].expires < now))
            && (a in s.authzs && s.authzs[a].order in t.orders ==> a in t.authzs)
            && (a in s.authzs && a in t.authzs && Lapses(s, a, now) ==> t.authzs[a] == s.authzs[a].(status := AuthzExpired))
            && (a in s.authzs && a in t.authzs && !Lapses(s, a, now) ==> t.authzs[a] == s.authzs[a])
            && (a in s.authzs && s.authzs[a].order in s.orders && s.authzs[a].order !in t.orders ==> a !in t.authzs)
  {
    var u := ExpiredState(s, now);
    assert o in s.orders ==> o in u.orders;
    assert a in s.authzs ==> a in u.authzs && u.authzs[a].order == s.authzs[a].order;
  }

  /** An account that is deactivated has no order under way. */
  lemma NothingUnderWay(steps: seq<Step>, account: nat, o: nat)
    requires IsClosed(Run(steps).st, account) && o in Run(steps).st.orders && Run(steps).st.orders[o].account == account
    ensures Run(steps).st.orders[o].status == Valid || Run(steps).st.orders[o].status == Invalid
  {
    RunKeeps(steps);
    assert OrderOk(Run(steps).st, o);
  }

  // ------------------------------------------------------------ what an answer does

  /** A right answer makes the authorization valid, and the order ready once it was the last one missing. */
  lemma ProvedAnswerCounts(steps: seq<Step>, step: Step, a: nat)
    requires Proves(Run(steps), step, a)
    ensures var s, t := Run(steps).st, Run(steps + [step]).st;
            var o := s.authzs[a].order;
            && a in t.authzs && t.authzs[a].status == AuthzValid && t.authzs[a].tried == Some(step.request.challenge)
            && o in t.orders
            && (t.orders[o].status == Ready <==>
                  s.orders[o].status == Pending
                  && forall b :: b in s.authzs && s.authzs[b].order == o && b != a ==> s.authzs[b].status == AuthzValid)
            && (t.orders[o].status != Ready ==> t.orders[o] == s.orders[o])
  {
    assert (steps + [step])[..|steps|] == steps;
    var w := Run(steps);
    RunKeeps(steps);
    assert AuthzOk(w.st, a);
    PendingAuthzOrder(w.st, w.clock, a);
    RunKeeps(steps + [step]);
    var t, o := Run(steps + [step]).st, w.st.authzs[a].order;
    assert forall b :: b in w.st.authzs && b != a ==> b in t.authzs && t.authzs[b] == w.st.authzs[b];
  }

  /** The owner gives up a pending or valid authorization. */
  predicate GivesUp(w: World, step: Step, a: nat) {
    && Takes(w, step) && step.request == DeactivateAuthz(a)
    && a in w.st.authzs && (w.st.authzs[a].status == AuthzPending || w.st.authzs[a].status == AuthzValid)
    && w.st.authzs[a].order in w.st.orders && w.st.orders[w.st.authzs[a].order].account == step.account
  }

  /** Giving up an authorization ends it, and ends its order if that has not been finalized:
      nothing is issued for it any more. */
  lemma GivingUpCloses(steps: seq<Step>, n: nat, a: nat)
    requires n < |steps| && GivesUp(Run(steps[..n]), steps[n], a)
    ensures var s, t := Run(steps[..n]).st, Run(steps[..n + 1]).st;
            var o := s.authzs[a].order;
            && t.authzs == s.authzs[a := s.authzs[a].(status := AuthzDeactivated)]
            && o in t.orders && t.orders == s.orders[o := t.orders[o]]
            && (if s.orders[o].status == Pending || s.orders[o].status == Ready then t.orders[o].status == Invalid
                else t.orders[o] == s.orders[o])
            && (s.orders[o].status != Valid && s.orders[o].status != Processing ==>
                  forall i :: 0 <= i < |Run(steps).st.issued| ==> Run(steps).st.issued[i].order != o)
  {
    var w, o := Run(steps[..n]), Run(steps[..n]).st.authzs[a].order;
    assert steps[..n + 1][..n] == steps[..n];
    if w.st.orders[o].status != Valid && w.st.orders[o].status != Processing {
      FinalStatesStay(steps, n + 1, o);
      forall i | 0 <= i < |Run(steps).st.issued| ensures Run(steps).st.issued[i].order != o {
        OneCertificatePerOrder(steps, i, i);
      }
    }
  }

  /** And nothing happens to what is not one's own, or is over. */
  lemma NothingToGiveUp(w: World, step: Step, a: nat)
    requires Takes(w, step) && step.request == DeactivateAuthz(a) && !GivesUp(w, step, a)
    ensures Next(w, step).st == w.st
  {}

  /** A wrong answer ends the authorization and the order: nothing is issued for it in the whole run. */
  lemma FailedAnswerCloses(steps: seq<Step>, n: nat, a: nat)
    requires n < |steps| && AnswersOwn(Run(steps[..n]), steps[n], a) && !steps[n].request.proved
    ensures var t, o := Run(steps[..n + 1]).st, Run(steps[..n]).st.authzs[a].order;
            && a in t.authzs && t.authzs[a].status == AuthzInvalid && o in t.orders && t.orders[o].status == Invalid
            && (forall i :: 0 <= i < |Run(steps).st.issued| ==> Run(steps).st.issued[i].order != o)
  {
    var w, o := Run(steps[..n]), Run(steps[..n]).st.authzs[a].order;
    assert steps[..n + 1][..n] == steps[..n];
    RunKeeps(steps[..n]);
    assert AuthzOk(w.st, a);
    PendingAuthzOrder(w.st, w.clock, a);
    FinalStatesStay(steps, n + 1, o);
    forall i | 0 <= i < |Run(steps).st.issued| ensures Run(steps).st.issued[i].order != o {
      OneCertificatePerOrder(steps, i, i);
    }
  }

  // ------------------------------------------------------------ how finalizing ends

  predicate Mine(s: State, account: nat, o: nat) { o in s.orders && s.orders[o].account == account }

  /** What belongs to somebody else is answered as if it did not exist, and nothing changes. */
  lemma ForeignIsNotFound(s: State, account: nat, a: nat, c: Challenge, proved: bool, now: int)
    ensures AfterChallenge(s, account, a, c, proved, now).1 == NotFound
       <==> !(a in s.authzs && Offers(s.authzs[a], c) && Mine(s, account, s.authzs[a].order))
    ensures AfterDeactivateAuthz(s, account, a, now).1 == NotFound <==> !(a in s.authzs && Mine(s, account, s.authzs[a].order))
    ensures AfterChallenge(s, account, a, c, proved, now).1 == NotFound ==> AfterChallenge(s, account, a, c, proved, now).0 == s
    ensures AfterDeactivateAuthz(s, account, a, now).1 == NotFound ==> AfterDeactivateAuthz(s, account, a, now).0 == s
  {}

  /** A ready order in its time, for the names it was opened with, of an active app. */
  predicate Finalizable(s: State, account: nat, o: nat, csrNames: seq<Name>, appActive: bool, now: int) {
    && Mine(s, account, o) && s.orders[o].status == Ready && now <= s.orders[o].expires
    && csrNames == s.orders[o].names && appActive
  }

  predicate Overdue(s: State, account: nat, o: nat, now: int) {
    Mine(s, account, o) && UnderWay(s, o) && s.orders[o].expires < now
  }

  function FinalStatus(outcome: IssueOutcome): OrderStatus {
    match outcome
    case Issued(_) => Valid
    case PolicyRefused => Invalid
    case PolicyLost => Processing
    case NotOnTheSpot => Ready
    case IssueFailed => Ready
  }

  /** Finalizing issues if and only if the order can be finalized and the CA issues; the order then
      ends as issuing ended. An order past its time ends there; anything else changes nothing. */
  lemma FinalizeEnds(s: State, account: nat, o: nat, csrNames: seq<Name>, appActive: bool, outcome: IssueOutcome, now: int)
    ensures var (t, reply) := AfterFinalize(s, account, o, csrNames, appActive, outcome, now);
            var fit, late := Finalizable(s, account, o, csrNames, appActive, now), Overdue(s, account, o, now);
            && (reply == Done <==> fit && outcome.Issued?) && (reply == NotFound <==> !Mine(s, account, o)) && (reply == OrderExpired <==> late)
            && t.authzs == s.authzs && t.accounts == s.accounts
            && t.issued == (if reply == Done then s.issued + [Issue(o, account, outcome.cert, s.orders[o].names)] else s.issued)
            && (!fit && !late ==> t == s)
            && (fit || late ==> o in t.orders && t.orders == s.orders[o := t.orders[o]]
                                && t.orders[o].status == (if late then Invalid else FinalStatus(outcome))
                                && t.orders[o].cert == (if reply == Done then Some(outcome.cert) else s.orders[o].cert))
  {}

  /** An order the policy refused at the end stays refused: nothing is issued for it in the whole run. */
  lemma PolicyRefusalCloses(steps: seq<Step>, n: nat)
    requires n < |steps| && Takes(Run(steps[..n]), steps[n]) && steps[n].request.Finalize? && steps[n].request.outcome.PolicyRefused?
    requires var r := steps[n].request; Finalizable(Run(steps[..n]).st, steps[n].account, r.order, r.csrNames, r.appActive, steps[n].now)
    ensures forall i :: 0 <= i < |Run(steps).st.issued| ==> Run(steps).st.issued[i].order != steps[n].request.order
  {
    var o, r := steps[n].request.order, steps[n].request;
    FinalizeEnds(Run(steps[..n]).st, steps[n].account, o, r.csrNames, r.appActive, r.outcome, steps[n].now);
    NextOf(steps, n);
    FinalStatesStay(steps, n + 1, o);
    forall i | 0 <= i < |Run(steps).st.issued| ensures Run(steps).st.issued[i].order != o {
      OneCertificatePerOrder(steps, i, i);
    }
  }
}
