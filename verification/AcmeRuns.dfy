/** Every run of the ACME server: any clients, any challenge answers, any policy and
    issuing outcomes, housekeeping at any time. Refines the status diagrams of section
    7.1.6 of RFC 8555. */
module AcmeRuns {
  import opened Prelude
  import opened AcmeOrders
  import opened AcmeInvariant

  datatype Request =
    | NewOrder(names: seq<Name>, raScope: bool, permitted: bool, renews: Option<nat>, renewable: bool)
    | DeactivateAuthz(authz: nat)
    | Challenge(authz: nat, challenge: Challenge, proved: bool)
    | Finalize(order: nat, csrNames: seq<Name>, appActive: bool, outcome: IssueOutcome)
    | DeactivateAccount

  datatype World = World(st: State, nonces: set<nat>, nextNonce: nat, clock: int)

  datatype Step =
    | FreshNonce
    | NewAccount(account: nat)
    | Post(nonce: nat, account: nat, request: Request, now: int)
    | Housekeeping(now: int)
    | DropNonces(nonces: set<nat>)

  const START := World(State(map[], map[], map[], [], 1, 1), {}, 1, 0)

  function Handle(s: State, account: nat, r: Request, now: int): State {
    match r
    case NewOrder(names, raScope, permitted, renews, renewable) =>
      AfterNewOrder(s, account, names, raScope, permitted, renews, renewable, now).0
    case DeactivateAuthz(a) => AfterDeactivateAuthz(s, account, a, now).0
    case Challenge(a, c, proved) => AfterChallenge(s, account, a, c, proved, now).0
    case Finalize(o, csrNames, appActive, outcome) => AfterFinalize(s, account, o, csrNames, appActive, outcome, now).0
    case DeactivateAccount => AfterDeactivateAccount(s, account)
  }

  /** Checking a nonce spends it, whatever comes of the request; every answer carries a fresh one. */
  function Next(w: World, step: Step): World {
    match step
    case FreshNonce => w.(nonces := w.nonces + {w.nextNonce}, nextNonce := w.nextNonce + 1)
    case NewAccount(account) =>
      if account in w.st.accounts then w else w.(st := w.st.(accounts := w.st.accounts[account := true]))
    case Post(nonce, account, request, now) =>
      if now < w.clock then w
      else
        var v := w.(clock := now, nonces := w.nonces + {w.nextNonce}, nextNonce := w.nextNonce + 1);
        if nonce !in w.nonces then v
        else
          var u := v.(nonces := v.nonces - {nonce});
          if account !in w.st.accounts || !w.st.accounts[account] then u
          else u.(st := Handle(w.st, account, request, now))
    case Housekeeping(now) => if now < w.clock then w else w.(clock := now, st := AfterHousekeeping(w.st, now))
    case DropNonces(nonces) => w.(nonces := w.nonces - nonces)
  }

  function Run(steps: seq<Step>): World {
    if steps == [] then START else Next(Run(steps[..|steps| - 1]), steps[|steps| - 1])
  }

  lemma Stays(s: State, clock: int, now: int)
    requires Inv(s, clock) && clock <= now
    ensures Inv(s, now) && Moves(s, s)
  {
    RenewalsStay(s, s, clock, now);
  }

  lemma RenewalsStay(s: State, t: State, clock: int, now: int)
    requires RenewalsOk(s, clock) && clock <= now && t.orders.Keys <= s.orders.Keys
    requires forall o :: o in t.orders ==> t.orders[o].renews == s.orders[o].renews && t.orders[o].expires == s.orders[o].expires
    requires forall o :: o in t.orders && Open(t.orders[o].status) ==> Open(s.orders[o].status)
    ensures RenewalsOk(t, now)
  {
    forall o, p | o in t.orders && p in t.orders && SameRenewal(t, o, p) ensures !(Live(t, o, now) && Live(t, p, now)) {
      assert SameRenewal(s, o, p);
    }
  }

  lemma IssuesStay(s: State, t: State)
    requires IssuesOk(s) && t.issued == s.issued
    requires forall o :: o in s.orders && s.orders[o].cert.Some? ==> o in t.orders && t.orders[o] == s.orders[o]
    ensures IssuesOk(t)
  {
    forall i | 0 <= i < |t.issued| ensures IssueOk(t, i) { assert IssueOk(s, i); }
  }

  // ------------------------------------------------------------ handlers that touch one order

  /** `t` has another order `o`, and perhaps another version of one of its authorizations. */
  ghost predicate OneOrder(s: State, t: State, o: nat, a: nat) {
    && o in s.orders && o in t.orders && t.orders == s.orders[o := t.orders[o]]
    && (t.authzs == s.authzs || (a in s.authzs && a in t.authzs && s.authzs[a].order == o == t.authzs[a].order
                                 && t.authzs == s.authzs[a := t.authzs[a]]))
    && t.accounts == s.accounts && t.nextOrder == s.nextOrder && t.nextAuthz == s.nextAuthz
  }

  lemma SameAuthzs(s: State, t: State, o: nat, a: nat, p: nat)
    requires OneOrder(s, t, o, a) && p != o
    ensures NonePending(s, p) <==> NonePending(t, p)
    ensures PendingOrValid(s, p) <==> PendingOrValid(t, p)
    ensures AllValid(s.authzs, p) <==> AllValid(t.authzs, p)
  {
    assert forall b :: b in s.authzs && s.authzs[b].order == p ==> b in t.authzs && t.authzs[b] == s.authzs[b];
    assert forall b :: b in t.authzs && t.authzs[b].order == p ==> b in s.authzs && t.authzs[b] == s.authzs[b];
  }

  lemma OrdersStay(s: State, t: State, o: nat, a: nat)
    requires OrdersOk(s) && OneOrder(s, t, o, a) && OrderOk(t, o)
    ensures OrdersOk(t)
  {
    forall p | p in t.orders ensures OrderOk(t, p) {
      if p != o {
        assert OrderOk(s, p);
        SameAuthzs(s, t, o, a, p);
      }
    }
  }

  lemma AuthzsStay(s: State, t: State, o: nat, a: nat)
    requires AuthzsOk(s) && OneOrder(s, t, o, a) && (a in t.authzs && t.authzs != s.authzs ==> AuthzOk(t, a))
    ensures AuthzsOk(t)
  {
    forall b | b in t.authzs ensures AuthzOk(t, b) {
      if b != a || t.authzs == s.authzs { assert AuthzOk(s, b); }
    }
  }

  lemma OrderChanged(s: State, t: State, o: nat, a: nat, clock: int, now: int)
    requires Inv(s, clock) && clock <= now && OneOrder(s, t, o, a) && t.issued == s.issued
    requires t.orders[o] == s.orders[o].(status := t.orders[o].status)
    requires OrderMove(s.orders[o].status, t.orders[o].status) && (t.orders[o].status == Valid ==> s.orders[o].status == Valid)
    requires OrderOk(t, o)
    requires a in t.authzs && t.authzs != s.authzs ==> AuthzOk(t, a) && t.authzs[a].name == s.authzs[a].name
                                                       && AuthzMove(s.authzs[a].status, t.authzs[a].status)
    ensures Inv(t, now) && Moves(s, t)
  {
    OrdersStay(s, t, o, a);
    AuthzsStay(s, t, o, a);
    assert OrderOk(s, o);
    IssuesStay(s, t);
    RenewalsStay(s, t, clock, now);
  }

  lemma OwnOrderKeeps(s: State, account: nat, o: nat, live: bool, clock: int, now: int)
    requires Inv(s, clock) && clock <= now
    ensures var t := OwnOrder(s, account, o, live, now).0; Inv(t, now) && Moves(s, t)
  {
    var (t, reply) := OwnOrder(s, account, o, live, now);
    if reply == OrderExpired {
      assert OrderOk(s, o);
      OrderChanged(s, t, o, 0, clock, now);
    } else {
      Stays(s, clock, now);
    }
  }

  lemma DeactivateAuthzKeeps(s: State, account: nat, a: nat, clock: int, now: int)
    requires Inv(s, clock) && clock <= now
    ensures var t := AfterDeactivateAuthz(s, account, a, now).0; Inv(t, now) && Moves(s, t)
  {
    var (t, reply) := AfterDeactivateAuthz(s, account, a, now);
    if reply == Done {
      var o := s.authzs[a].order;
      assert OrderOk(s, o) && AuthzOk(s, a);
      assert t.orders[o].status != Invalid ==> NonePending(t, o);
      OrderChanged(s, t, o, a, clock, now);
    } else {
      Stays(s, clock, now);
    }
  }

  /** A pending authorization belongs to a pending or an invalid order, never to a ready,
      processing or valid one. So the handler's unconditional closing of the order after a
      failed challenge cannot invalidate a valid order. */
  lemma PendingAuthzOrder(s: State, clock: int, a: nat)
    requires Inv(s, clock) && a in s.authzs && s.authzs[a].status == AuthzPending
    ensures s.authzs[a].order in s.orders
    ensures s.orders[s.authzs[a].order].status == Pending || s.orders[s.authzs[a].order].status == Invalid
  {
    assert AuthzOk(s, a);
    assert OrderOk(s, s.authzs[a].order);
  }

  lemma AnsweredOrder(s: State, a: nat, c: Challenge, proved: bool, clock: int) returns (t: State)
    requires Inv(s, clock) && a in s.authzs && s.authzs[a].status == AuthzPending && Offers(s.authzs[a], c)
    ensures var o := s.authzs[a].order;
            var z := if proved then s.authzs[a].(status := AuthzValid, challenge := AuthzValid, tried := Some(c))
                     else s.authzs[a].(status := AuthzInvalid, challenge := AuthzInvalid, tried := Some(c));
            var authzs := s.authzs[a := z];
            && o in s.orders
            && t == s.(authzs := authzs,
                       orders := s.orders[o := if !proved then s.orders[o].(status := Invalid)
                                               else if AllValid(authzs, o) && s.orders[o].status == Pending then s.orders[o].(status := Ready)
                                               else s.orders[o]])
            && OneOrder(s, t, o, a) && OrderOk(t, o) && AuthzOk(t, a)
  {
    PendingAuthzOrder(s, clock, a);
    var o := s.authzs[a].order;
    assert OrderOk(s, o) && AuthzOk(s, a);
    var z := if proved then s.authzs[a].(status := AuthzValid, challenge := AuthzValid, tried := Some(c))
             else s.authzs[a].(status := AuthzInvalid, challenge := AuthzInvalid, tried := Some(c));
    var authzs := s.authzs[a := z];
    t := s.(authzs := authzs,
            orders := s.orders[o := if !proved then s.orders[o].(status := Invalid)
                                    else if AllValid(authzs, o) && s.orders[o].status == Pending then s.orders[o].(status := Ready)
                                    else s.orders[o]]);
    if t.orders[o].status == Pending {
      var b :| b in authzs && authzs[b].order == o && authzs[b].status != AuthzValid;
      assert b != a && authzs[b] == s.authzs[b];
      assert !NonePending(t, o);
    }
  }

  lemma ChallengeKeeps(s: State, account: nat, a: nat, c: Challenge, proved: bool, clock: int, now: int)
    requires Inv(s, clock) && clock <= now
    ensures var t := AfterChallenge(s, account, a, c, proved, now).0; Inv(t, now) && Moves(s, t)
  {
    Stays(s, clock, now);
    if a in s.authzs && Offers(s.authzs[a], c) {
      var o := s.authzs[a].order;
      OwnOrderKeeps(s, account, o, true, clock, now);
      if OwnOrder(s, account, o, true, now).1 == Done && s.authzs[a].challenge == AuthzPending && s.authzs[a].status == AuthzPending {
        var t := AnsweredOrder(s, a, c, proved, clock);
        PendingAuthzOrder(s, clock, a);
        OrderChanged(s, t, o, a, clock, now);
      }
    }
  }

  lemma IssueKeeps(s: State, account: nat, o: nat, cert: nat, clock: int, now: int)
    requires Inv(s, clock) && clock <= now
    requires o in s.orders && s.orders[o].status == Ready && s.orders[o].account == account
    ensures var t := s.(orders := s.orders[o := s.orders[o].(status := Valid, cert := Some(cert))],
                        issued := s.issued + [Issue(o, account, cert, s.orders[o].names)]);
            Inv(t, now) && Moves(s, t)
  {
    var t := s.(orders := s.orders[o := s.orders[o].(status := Valid, cert := Some(cert))],
                issued := s.issued + [Issue(o, account, cert, s.orders[o].names)]);
    assert OrderOk(s, o);
    OrdersStay(s, t, o, 0);
    AuthzsStay(s, t, o, 0);
    forall i | 0 <= i < |t.issued| ensures IssueOk(t, i) { assert i < |s.issued| ==> IssueOk(s, i); }
    forall i | 0 <= i < |s.issued| ensures s.issued[i].order != o { assert IssueOk(s, i); }
    RenewalsStay(s, t, clock, now);
  }

  lemma FinalizeKeeps(s: State, account: nat, o: nat, csrNames: seq<Name>, appActive: bool, outcome: IssueOutcome, clock: int, now: int)
    requires Inv(s, clock) && clock <= now
    ensures var t := AfterFinalize(s, account, o, csrNames, appActive, outcome, now).0; Inv(t, now) && Moves(s, t)
  {
    Stays(s, clock, now);
    OwnOrderKeeps(s, account, o, true, clock, now);
    var t := AfterFinalize(s, account, o, csrNames, appActive, outcome, now).0;
    if OwnOrder(s, account, o, true, now).1 == Done && t != s {
      assert OrderOk(s, o);
      if outcome.Issued? {
        IssueKeeps(s, account, o, outcome.cert, clock, now);
      } else {
        OrderChanged(s, t, o, 0, clock, now);
      }
    }
  }

  // ------------------------------------------------------------ handlers that touch many

  /** The authorizations of order `o` are the same in both states. */
  ghost predicate SameFor(s: State, t: State, o: nat) {
    && (forall a :: a in s.authzs && s.authzs[a].order == o ==> a in t.authzs && t.authzs[a] == s.authzs[a])
    && (forall a :: a in t.authzs && t.authzs[a].order == o ==> a in s.authzs && t.authzs[a] == s.authzs[a])
  }

  lemma OrderStays(s: State, t: State, o: nat)
    requires o in s.orders && o in t.orders && t.orders[o] == s.orders[o] && OrderOk(s, o) && SameFor(s, t, o)
    requires s.nextOrder <= t.nextOrder
    requires Open(s.orders[o].status) ==> s.orders[o].account in t.accounts && t.accounts[s.orders[o].account]
    ensures OrderOk(t, o)
  {}

  lemma AddOrder(s: State, o: Order, more: map<nat, Authz>, count: nat, t: State)
    requires OrdersOk(s) && AuthzsOk(s)
    requires t == s.(orders := s.orders[s.nextOrder := o], authzs := s.authzs + more,
                         nextOrder := s.nextOrder + 1, nextAuthz := s.nextAuthz + count)
    requires forall a :: a in more ==> s.nextAuthz <= a < s.nextAuthz + count && more[a].order == s.nextOrder && AuthzOk(t, a)
    requires OrderOk(t, s.nextOrder)
    ensures OrdersOk(t) && AuthzsOk(t)
  {
    forall a | a in s.authzs ensures a !in more && AuthzOk(t, a) { assert AuthzOk(s, a); }
    forall p | p in t.orders ensures OrderOk(t, p) {
      if p != s.nextOrder {
        assert OrderOk(s, p);
        assert SameFor(s, t, p);
        OrderStays(s, t, p);
      }
    }
  }

  lemma NewOrderKeeps(s: State, account: nat, r: Request, clock: int, now: int)
    requires Inv(s, clock) && clock <= now && r.NewOrder? && account in s.accounts && s.accounts[account]
    ensures Inv(Handle(s, account, r, now), now) && Moves(s, Handle(s, account, r, now))
  {
    hide Inv, Moves;
    Stays(s, clock, now);
    var (t, reply) := AfterNewOrder(s, account, r.names, r.raScope, r.permitted, r.renews, r.renewable, now);
    if reply == Done { AddedOrderKeeps(s, account, r, t, now); }
  }

  lemma AddedOrderKeeps(s: State, account: nat, r: Request, t: State, now: int)
    requires Inv(s, now) && r.NewOrder? && account in s.accounts && s.accounts[account]
    requires (t, Done) == AfterNewOrder(s, account, r.names, r.raScope, r.permitted, r.renews, r.renewable, now)
    ensures Inv(t, now) && Moves(s, t)
  {
    hide OrderOk, AuthzOk, IssueOk;
    FreshIds(s);
    FirstAuthz(s, r, t);
    AddOrder(s, t.orders[s.nextOrder], NewAuthzs(s.nextOrder, r.names, s.nextAuthz, r.raScope), |r.names|, t);
    IssuesStay(s, t);
    AddRenewal(s, t.orders[s.nextOrder], t, now);
  }

  lemma FreshIds(s: State)
    requires OrdersOk(s) && AuthzsOk(s)
    ensures forall o :: o in s.orders ==> o < s.nextOrder
    ensures forall a :: a in s.authzs ==> a < s.nextAuthz && s.authzs[a].order != s.nextOrder
  {
    forall o | o in s.orders ensures o < s.nextOrder { assert OrderOk(s, o); }
    forall a | a in s.authzs ensures a < s.nextAuthz && s.authzs[a].order != s.nextOrder { assert AuthzOk(s, a); }
  }

  /** The new order and its authorizations fit together. */
  lemma FirstAuthz(s: State, r: Request, t: State)
    requires r.NewOrder? && r.names != []
    requires forall a :: a in s.authzs ==> a < s.nextAuthz && s.authzs[a].order != s.nextOrder
    requires s.nextOrder in t.orders && t.orders[s.nextOrder].status == (if r.raScope then Ready else Pending)
    requires t.orders[s.nextOrder].cert.None? && t.nextOrder == s.nextOrder + 1 && t.nextAuthz == s.nextAuthz + |r.names|
    requires t.authzs == s.authzs + NewAuthzs(s.nextOrder, r.names, s.nextAuthz, r.raScope)
    requires t.orders[s.nextOrder].account in t.accounts && t.accounts[t.orders[s.nextOrder].account]
    ensures OrderOk(t, s.nextOrder)
    ensures forall a :: a in NewAuthzs(s.nextOrder, r.names, s.nextAuthz, r.raScope) ==> AuthzOk(t, a)
  {
    var more := NewAuthzs(s.nextOrder, r.names, s.nextAuthz, r.raScope);
    assert forall a :: a in t.authzs && t.authzs[a].order == s.nextOrder ==> a in more && t.authzs[a] == more[a];
    assert s.nextAuthz in more && t.authzs[s.nextAuthz] == more[s.nextAuthz];
  }

  lemma AddRenewal(s: State, o: Order, t: State, now: int)
    requires RenewalsOk(s, now) && s.nextOrder !in s.orders && t.orders == s.orders[s.nextOrder := o]
    requires o.renews.Some? ==> !Replacing(s, o.renews.value, now)
    ensures RenewalsOk(t, now)
  {
    forall p, q | p in t.orders && q in t.orders && SameRenewal(t, p, q) ensures !(Live(t, p, now) && Live(t, q, now)) {
      assert p != s.nextOrder && q != s.nextOrder ==> SameRenewal(s, p, q);
    }
  }

  lemma CloseKeepsOrders(s: State, which: set<nat>, from: set<AuthzStatus>, to: AuthzStatus, t: State)
    requires OrdersOk(s) && AuthzsOk(s)
    requires t == s.(orders := CloseOrders(s.orders, which), authzs := CloseAuthzs(s.authzs, which, from, to))
    requires forall o :: o in which ==> o in s.orders && Open(s.orders[o].status)
    requires to != AuthzPending && to != AuthzValid
    ensures OrdersOk(t) && AuthzsOk(t)
  {
    forall a | a in t.authzs ensures AuthzOk(t, a) { assert AuthzOk(s, a); }
    forall o | o in t.orders ensures OrderOk(t, o) {
      assert OrderOk(s, o);
      if o !in which {
        assert SameFor(s, t, o);
        OrderStays(s, t, o);
      }
    }
  }

  lemma CloseKeeps(s: State, which: set<nat>, from: set<AuthzStatus>, to: AuthzStatus, clock: int, now: int)
    requires Inv(s, clock) && clock <= now
    requires forall o :: o in which ==> o in s.orders && Open(s.orders[o].status)
    requires (from <= {AuthzPending, AuthzValid} && to == AuthzDeactivated) || (from == {AuthzPending} && to == AuthzExpired)
    ensures var t := s.(orders := CloseOrders(s.orders, which), authzs := CloseAuthzs(s.authzs, which, from, to));
            Inv(t, now) && Moves(s, t)
  {
    var t := s.(orders := CloseOrders(s.orders, which), authzs := CloseAuthzs(s.authzs, which, from, to));
    CloseKeepsOrders(s, which, from, to, t);
    forall o | o in s.orders && s.orders[o].cert.Some? ensures o !in which { assert OrderOk(s, o); }
    IssuesStay(s, t);
    RenewalsStay(s, t, clock, now);
  }

  lemma DeactivateAccountKeeps(s: State, account: nat, clock: int, now: int)
    requires Inv(s, clock) && clock <= now && account in s.accounts
    ensures Inv(AfterDeactivateAccount(s, account), now) && Moves(s, AfterDeactivateAccount(s, account))
  {
    var which := OpenOrdersOf(s, account);
    CloseKeeps(s, which, {AuthzPending, AuthzValid}, AuthzDeactivated, clock, now);
    var c := s.(orders := CloseOrders(s.orders, which), authzs := CloseAuthzs(s.authzs, which, {AuthzPending, AuthzValid}, AuthzDeactivated));
    forall o | o in c.orders && Open(c.orders[o].status)
      ensures c.orders[o].account in s.accounts && s.accounts[c.orders[o].account] && c.orders[o].account != account
    {
      assert OrderOk(c, o);
      assert o !in which;
    }
    AccountsChange(c, s.accounts[account := false], now);
    var t := AfterDeactivateAccount(s, account);
    forall o ensures OrderMoves(s, t, o) { assert OrderMoves(s, c, o); }
    forall a ensures AuthzMoves(s, t, a) { assert AuthzMoves(s, c, a); }
  }

  /** Accounts may come and go as long as the ones with open orders stay valid. */
  lemma AccountsChange(s: State, accounts: map<nat, bool>, now: int)
    requires Inv(s, now)
    requires forall o :: o in s.orders && Open(s.orders[o].status) ==> s.orders[o].account in accounts && accounts[s.orders[o].account]
    ensures Inv(s.(accounts := accounts), now)
  {
    var t := s.(accounts := accounts);
    forall o | o in t.orders ensures OrderOk(t, o) {
      assert OrderOk(s, o);
      OrderStays(s, t, o);
    }
    forall a | a in t.authzs ensures AuthzOk(t, a) { assert AuthzOk(s, a); }
    IssuesStay(s, t);
    RenewalsStay(s, t, now, now);
  }

  lemma PurgeKeeps(s: State, which: set<nat>, now: int)
    requires Inv(s, now) && forall o :: o in which ==> o in s.orders && s.orders[o].status == Invalid
    ensures Inv(Purged(s, which), now) && Moves(s, Purged(s, which))
  {
    var t := Purged(s, which);
    forall a | a in t.authzs ensures AuthzOk(t, a) { assert AuthzOk(s, a); }
    forall o | o in t.orders ensures OrderOk(t, o) {
      assert OrderOk(s, o);
      assert SameFor(s, t, o);
      OrderStays(s, t, o);
    }
    forall o | o in s.orders && s.orders[o].cert.Some? ensures o !in which { assert OrderOk(s, o); }
    IssuesStay(s, t);
    RenewalsStay(s, t, now, now);
  }

  lemma HousekeepingKeeps(s: State, clock: int, now: int)
    requires Inv(s, clock) && clock <= now
    ensures Inv(AfterHousekeeping(s, now), now) && Moves(s, AfterHousekeeping(s, now))
  {
    CloseKeeps(s, StaleOrders(s, now), {AuthzPending}, AuthzExpired, clock, now);
    var t := ExpiredState(s, now);
    PurgeKeeps(t, OldOrders(t, now), now);
    var u := AfterHousekeeping(s, now);
    forall o ensures OrderMoves(s, u, o) { assert OrderMoves(s, t, o) && OrderMoves(t, u, o); }
    forall a ensures AuthzMoves(s, u, a) { assert AuthzMoves(s, t, a) && AuthzMoves(t, u, a); }
  }

  // ------------------------------------------------------------ runs

  ghost predicate WorldOk(w: World) {
    && Inv(w.st, w.clock)
    && (forall n :: n in w.nonces ==> n < w.nextNonce)
  }

  lemma HandleKeeps(s: State, account: nat, r: Request, clock: int, now: int)
    requires Inv(s, clock) && clock <= now && account in s.accounts && s.accounts[account]
    ensures Inv(Handle(s, account, r, now), now) && Moves(s, Handle(s, account, r, now))
  {
    match r
    case NewOrder(_, _, _, _, _) => NewOrderKeeps(s, account, r, clock, now);
    case DeactivateAuthz(a) => DeactivateAuthzKeeps(s, account, a, clock, now);
    case Challenge(a, c, proved) => ChallengeKeeps(s, account, a, c, proved, clock, now);
    case Finalize(o, csrNames, appActive, outcome) => FinalizeKeeps(s, account, o, csrNames, appActive, outcome, clock, now);
    case DeactivateAccount => DeactivateAccountKeeps(s, account, clock, now);
  }

  lemma NewAccountKeeps(s: State, account: nat, clock: int)
    requires Inv(s, clock) && account !in s.accounts
    ensures Inv(s.(accounts := s.accounts[account := true]), clock) && Moves(s, s.(accounts := s.accounts[account := true]))
  {
    forall o | o in s.orders && Open(s.orders[o].status) ensures s.orders[o].account in s.accounts { assert OrderOk(s, o); }
    forall o | o in s.orders && Open(s.orders[o].status) ensures s.accounts[s.orders[o].account] { assert OrderOk(s, o); }
    AccountsChange(s, s.accounts[account := true], clock);
  }

  lemma StepKeeps(w: World, step: Step)
    requires WorldOk(w)
    ensures WorldOk(Next(w, step)) && Moves(w.st, Next(w, step).st)
  {
    hide Inv, Moves, Handle;
    Stays(w.st, w.clock, w.clock);
    match step
    case FreshNonce =>
    case NewAccount(account) => if account !in w.st.accounts { NewAccountKeeps(w.st, account, w.clock); }
    case Post(nonce, account, request, now) =>
      if w.clock <= now {
        Stays(w.st, w.clock, now);
        if account in w.st.accounts && w.st.accounts[account] { HandleKeeps(w.st, account, request, w.clock, now); }
      }
    case Housekeeping(now) => if w.clock <= now { HousekeepingKeeps(w.st, w.clock, now); }
    case DropNonces(_) =>
  }

  lemma {:induction false} RunKeeps(steps: seq<Step>)
    ensures WorldOk(Run(steps))
  {
    if steps != [] {
      RunKeeps(steps[..|steps| - 1]);
      StepKeeps(Run(steps[..|steps| - 1]), steps[|steps| - 1]);
    }
  }

  // ------------------------------------------------------------ what holds over every run

  /** The statuses of an order and of its authorizations always fit together. */
  lemma OrderMatchesItsAuthorizations(steps: seq<Step>, o: nat)
    requires o in Run(steps).st.orders
    ensures var s := Run(steps).st;
            var order := s.orders[o];
            && (order.status == Pending ==> !AllValid(s.authzs, o) && !NonePending(s, o) && PendingOrValid(s, o))
            && (order.status == Ready ==> AllValid(s.authzs, o))
            && (order.status == Processing || order.status == Valid ==> NonePending(s, o))
            && (order.status == Valid <==> order.cert.Some?)
  {
    RunKeeps(steps);
    assert OrderOk(Run(steps).st, o);
  }

  /** Valid and invalid are final: a valid order keeps its certificate for the rest of the
      run, an invalid one stays invalid until it is purged, and ids are not reused. */
  lemma {:induction false} FinalStatesStay(steps: seq<Step>, n: nat, o: nat)
    requires n <= |steps| && o in Run(steps[..n]).st.orders
    ensures var before, after := Run(steps[..n]).st, Run(steps).st;
            && o < after.nextOrder
            && (before.orders[o].status == Valid ==> o in after.orders && after.orders[o] == before.orders[o])
            && (before.orders[o].status == Invalid && o in after.orders ==> after.orders[o] == before.orders[o])
    decreases |steps|
  {
    RunKeeps(steps[..n]);
    assert OrderOk(Run(steps[..n]).st, o);
    if n == |steps| {
      assert steps[..n] == steps;
    } else {
      var init := steps[..|steps| - 1];
      assert init[..n] == steps[..n];
      FinalStatesStay(init, n, o);
      RunKeeps(init);
      StepKeeps(Run(init), steps[|steps| - 1]);
      assert OrderMoves(Run(init).st, Run(steps).st, o);
      assert o in Run(init).st.orders ==> OrderOk(Run(init).st, o);
      RunKeeps(steps);
      assert o in Run(steps).st.orders ==> OrderOk(Run(steps).st, o);
    }
  }

  /** At most one certificate per order, for the names the order was opened with. */
  lemma OneCertificatePerOrder(steps: seq<Step>, i: nat, j: nat)
    requires i < |Run(steps).st.issued| && j < |Run(steps).st.issued|
    ensures Run(steps).st.issued[i].order == Run(steps).st.issued[j].order ==> i == j
    ensures var s := Run(steps).st;
            var e := s.issued[i];
            && e.order in s.orders && s.orders[e.order].status == Valid && s.orders[e.order].cert == Some(e.cert)
            && s.orders[e.order].names == e.names && s.orders[e.order].account == e.account
  {
    RunKeeps(steps);
    assert IssueOk(Run(steps).st, i);
    assert OrderOk(Run(steps).st, Run(steps).st.issued[i].order);
  }

  /** Only finalizing a ready order adds to the issue log. */
  lemma HandleIssues(s: State, account: nat, r: Request, now: int)
    requires Handle(s, account, r, now).issued != s.issued
    ensures r.Finalize? && r.order in s.orders && s.orders[r.order].status == Ready && r.outcome.Issued?
    ensures Handle(s, account, r, now).issued == s.issued + [Issue(r.order, account, r.outcome.cert, r.csrNames)]
    ensures r.csrNames == s.orders[r.order].names && s.orders[r.order].account == account && now <= s.orders[r.order].expires && r.appActive
  {}

  lemma NamesStay(s: State, t: State)
    requires NamesOk(s) && NamesLast(s, t)
    requires forall o :: o in t.orders && o !in s.orders ==> AsksForAll(t, o)
    ensures NamesOk(t)
  {
    forall o {:trigger AsksForAll(t, o)} | o in t.orders ensures AsksForAll(t, o) {
      if o in s.orders {
        assert AsksForAll(s, o);
        forall k | 0 <= k < |t.orders[o].names| ensures Asks(t, o, t.orders[o].names[k]) {
          assert Asks(s, o, s.orders[o].names[k]);
        }
      }
    }
  }

  lemma NewOrderAsks(s: State, account: nat, r: Request, now: int)
    requires OrdersOk(s) && AuthzsOk(s) && NamesOk(s) && r.NewOrder?
    ensures NamesOk(Handle(s, account, r, now))
  {
    var (t, reply) := AfterNewOrder(s, account, r.names, r.raScope, r.permitted, r.renews, r.renewable, now);
    if reply == Done {
      FreshIds(s);
      var more := NewAuthzs(s.nextOrder, r.names, s.nextAuthz, r.raScope);
      forall k | 0 <= k < |r.names| ensures Asks(t, s.nextOrder, r.names[k]) {
        assert t.authzs[s.nextAuthz + k] == more[s.nextAuthz + k];
      }
      NamesStay(s, t);
    }
  }

  lemma SameRows(s: State, account: nat, r: Request, now: int)
    requires !r.NewOrder?
    ensures Handle(s, account, r, now).orders.Keys == s.orders.Keys && Handle(s, account, r, now).authzs.Keys == s.authzs.Keys
  {}

  lemma MovesKeepNames(s: State, t: State)
    requires Moves(s, t) && t.orders.Keys == s.orders.Keys && t.authzs.Keys == s.authzs.Keys
    ensures NamesLast(s, t)
  {
    forall o | o in s.orders ensures t.orders[o].names == s.orders[o].names { assert OrderMoves(s, t, o); }
    forall a | a in s.authzs ensures t.authzs[a].order == s.authzs[a].order && t.authzs[a].name == s.authzs[a].name {
      assert AuthzMoves(s, t, a);
    }
  }

  lemma HandleAsks(s: State, account: nat, r: Request, clock: int, now: int)
    requires Inv(s, clock) && clock <= now && account in s.accounts && s.accounts[account] && NamesOk(s)
    ensures NamesOk(Handle(s, account, r, now))
  {
    hide OrdersOk, AuthzsOk, IssuesOk, RenewalsOk, NamesOk, Moves, NamesLast, Handle;
    if r.NewOrder? {
      NewOrderAsks(s, account, r, now);
    } else {
      SameRows(s, account, r, now);
      HandleKeeps(s, account, r, clock, now);
      MovesKeepNames(s, Handle(s, account, r, now));
      NamesStay(s, Handle(s, account, r, now));
    }
  }

  lemma HousekeepingAsks(s: State, now: int)
    requires NamesOk(s)
    ensures NamesOk(AfterHousekeeping(s, now))
  {
    hide NamesOk;
    NamesStay(s, ExpiredState(s, now));
    NamesStay(ExpiredState(s, now), AfterHousekeeping(s, now));
  }

  lemma {:induction false} RunAsks(steps: seq<Step>)
    ensures NamesOk(Run(steps).st)
  {
    hide NamesOk, Handle, AfterHousekeeping;
    if steps == [] {
      assert NamesOk(START.st) by { NothingAsked(); }
    } else {
      var w, step := Run(steps[..|steps| - 1]), steps[|steps| - 1];
      RunAsks(steps[..|steps| - 1]);
      RunKeeps(steps[..|steps| - 1]);
      match step
      case Post(_, account, request, now) =>
        if w.clock <= now && account in w.st.accounts && w.st.accounts[account] { HandleAsks(w.st, account, request, w.clock, now); }
      case Housekeeping(now) => HousekeepingAsks(w.st, now);
      case _ => NamesStay(w.st, Run(steps).st);
    }
  }

  lemma NothingAsked()
    ensures NamesOk(START.st)
  {}

  /** Authorization `a` lets order `o` have this name: valid, and a wildcard over DNS or by scope. */
  ghost predicate Permits(s: State, a: nat, o: nat, name: Name) {
    && a in s.authzs && s.authzs[a].order == o && s.authzs[a].name == name && s.authzs[a].status == AuthzValid
    && (name.wildcard ==> ProvedByDns(s.authzs[a]))
  }

  /** What a world must look like for one of its issues to come about. */
  ghost predicate Authorized(s: State, e: Issue) {
    && e.order in s.orders && s.orders[e.order].status == Ready && AllValid(s.authzs, e.order)
    && e.account in s.accounts && s.accounts[e.account]
    && forall k :: 0 <= k < |e.names| ==> Permitted(s, e.order, e.names[k])
  }

  /** The request that asked for this certificate. */
  ghost predicate FinalizedBy(s: State, step: Step, e: Issue) {
    && step.Post? && step.request == Finalize(e.order, e.names, true, Issued(e.cert)) && step.account == e.account
    && e.order in s.orders && s.orders[e.order].account == e.account && s.orders[e.order].names == e.names
    && step.now <= s.orders[e.order].expires
  }

  ghost predicate Permitted(s: State, o: nat, name: Name) { exists a :: Permits(s, a, o, name) }

  lemma NamePermitted(s: State, o: nat, k: nat)
    requires NamesOk(s) && AuthzsOk(s) && o in s.orders && k < |s.orders[o].names| && AllValid(s.authzs, o)
    ensures Permitted(s, o, s.orders[o].names[k])
  {
    assert AsksForAll(s, o) && Asks(s, o, s.orders[o].names[k]);
    var a :| a in s.authzs && s.authzs[a].order == o && s.authzs[a].name == s.orders[o].names[k];
    assert AuthzOk(s, a);
    assert Permits(s, a, o, s.orders[o].names[k]);
  }

  /** A step that issues is the account finalizing its own order, not yet expired, with a CSR for
      exactly the order's names, for an active app. It finds the order ready and the account
      valid, and for every name of the certificate a valid authorization of this order for this
      name; for a wildcard, one proved over DNS or covered by the app's scope. */
  lemma IssueNeedsEveryAuthorization(steps: seq<Step>, step: Step)
    requires Run(steps + [step]).st.issued != Run(steps).st.issued
    ensures var s, t := Run(steps).st, Run(steps + [step]).st;
            && |t.issued| == |s.issued| + 1 && s.issued <= t.issued && Authorized(s, t.issued[|s.issued|])
            && FinalizedBy(s, step, t.issued[|s.issued|])
  {
    hide NamesOk, AuthzsOk, Handle;
    assert (steps + [step])[..|steps|] == steps;
    RunKeeps(steps);
    RunAsks(steps);
    var s := Run(steps).st;
    assert step.Post?;
    HandleIssues(s, step.account, step.request, step.now);
    assert OrderOk(s, step.request.order);
    forall k | 0 <= k < |s.orders[step.request.order].names|
      ensures Permitted(s, step.request.order, s.orders[step.request.order].names[k])
    {
      NamePermitted(s, step.request.order, k);
    }
  }

  // ------------------------------------------------------------ nonces

  /** Every answer hands out a nonce, that to a bad nonce as well. */
  predicate HandsOut(w: World, step: Step) {
    step.FreshNonce? || (step.Post? && w.clock <= step.now)
  }

  /** The step spends the nonce, or the server forgets it. */
  predicate Spends(w: World, step: Step, nonce: nat) {
    || (step.Post? && w.clock <= step.now && step.nonce == nonce)
    || (step.DropNonces? && nonce in step.nonces)
  }

  /** The request gets past the nonce check. */
  predicate Accepted(w: World, step: Step) {
    step.Post? && w.clock <= step.now && step.nonce in w.nonces
  }

  lemma NonceStep(w: World, step: Step, nonce: nat)
    requires WorldOk(w)
    ensures var v := Next(w, step);
            && w.nextNonce <= v.nextNonce
            && (nonce < w.nextNonce ==> (nonce in v.nonces <==> nonce in w.nonces && !Spends(w, step, nonce)))
            && (HandsOut(w, step) ==> w.nextNonce in v.nonces && w.nextNonce !in w.nonces && w.nextNonce < v.nextNonce)
  {}

  ghost predicate SpentBetween(steps: seq<Step>, n: nat, nonce: nat) {
    exists k {:trigger steps[k]} :: n <= k < |steps| && Spends(Run(steps[..k]), steps[k], nonce)
  }

  lemma SpentSnoc(steps: seq<Step>, n: nat, nonce: nat)
    requires n < |steps|
    ensures var init := steps[..|steps| - 1];
            SpentBetween(steps, n, nonce) <==> SpentBetween(init, n, nonce) || Spends(Run(init), steps[|steps| - 1], nonce)
  {
    var init := steps[..|steps| - 1];
    forall k | n <= k < |init| ensures init[..k] == steps[..k] && init[k] == steps[k] {}
    if k :| n <= k < |init| && Spends(Run(init[..k]), init[k], nonce) { assert Spends(Run(steps[..k]), steps[k], nonce); }
    if k :| n <= k < |steps| && Spends(Run(steps[..k]), steps[k], nonce) {
      assert k < |init| ==> Spends(Run(init[..k]), init[k], nonce);
    }
  }

  /** A nonce known at some point, or handed out then, is good for a request exactly as long as
      none has spent it and the server has not forgotten it. */
  lemma {:induction false} NonceGoodIff(steps: seq<Step>, n: nat, nonce: nat)
    requires n <= |steps| && nonce < Run(steps[..n]).nextNonce
    ensures nonce < Run(steps).nextNonce
    ensures nonce in Run(steps).nonces <==> nonce in Run(steps[..n]).nonces && !SpentBetween(steps, n, nonce)
    decreases |steps|
  {
    hide Next, WorldOk, Spends;
    if n == |steps| {
      assert steps[..n] == steps;
    } else {
      var init := steps[..|steps| - 1];
      assert init[..n] == steps[..n];
      NonceGoodIff(init, n, nonce);
      RunKeeps(init);
      NonceStep(Run(init), steps[|steps| - 1], nonce);
      SpentSnoc(steps, n, nonce);
    }
  }

  /** The nonce an answer carries is new, and good until it is spent. */
  lemma FreshNonceIsGood(steps: seq<Step>, n: nat)
    requires n < |steps| && HandsOut(Run(steps[..n]), steps[n])
    ensures var nonce := Run(steps[..n]).nextNonce;
            nonce !in Run(steps[..n]).nonces && (nonce in Run(steps).nonces <==> !SpentBetween(steps, n + 1, nonce))
  {
    hide Next, WorldOk;
    RunKeeps(steps[..n]);
    assert steps[..n + 1][..n] == steps[..n];
    NonceStep(Run(steps[..n]), steps[n], Run(steps[..n]).nextNonce);
    NonceGoodIff(steps, n + 1, Run(steps[..n]).nextNonce);
  }

  /** No nonce is accepted twice, and without one a request does nothing. */
  lemma NonceAcceptedOnce(steps: seq<Step>, n: nat, m: nat)
    requires n < m < |steps| && Accepted(Run(steps[..n]), steps[n]) && steps[m].Post?
    ensures Accepted(Run(steps[..m]), steps[m]) ==> steps[m].nonce != steps[n].nonce
    ensures !Accepted(Run(steps[..m]), steps[m]) ==> Run(steps[..m + 1]).st == Run(steps[..m]).st
  {
    var upTo, nonce := steps[..m], steps[n].nonce;
    assert upTo[..n] == steps[..n] && upTo[n] == steps[n] && steps[..m + 1][..m] == upTo;
    RunKeeps(steps[..n]);
    NonceGoodIff(upTo, n, nonce);
    assert Spends(Run(upTo[..n]), upTo[n], nonce);
  }

  predicate IsClosed(s: State, account: nat) { account in s.accounts && !s.accounts[account] }

  /** What `t` issued since `s` went to other accounts. */
  predicate OthersOnly(s: State, t: State, account: nat) {
    s.issued <= t.issued && forall i :: |s.issued| <= i < |t.issued| ==> t.issued[i].account != account
  }

  lemma HandleSkipsClosed(s: State, account: nat, r: Request, now: int, closed: nat)
    requires IsClosed(s, closed) && account != closed
    ensures IsClosed(Handle(s, account, r, now), closed) && OthersOnly(s, Handle(s, account, r, now), closed)
  {
    if Handle(s, account, r, now).issued != s.issued { HandleIssues(s, account, r, now); }
  }

  lemma StepSkipsClosed(w: World, step: Step, closed: nat)
    requires IsClosed(w.st, closed)
    ensures IsClosed(Next(w, step).st, closed) && OthersOnly(w.st, Next(w, step).st, closed)
  {
    hide Handle;
    if step.Post? && step.account in w.st.accounts && w.st.accounts[step.account] {
      HandleSkipsClosed(w.st, step.account, step.request, step.now, closed);
    }
  }

  /** Nothing is issued to an account once it is deactivated. */
  lemma {:induction false} DeactivatedAccountGetsNothing(steps: seq<Step>, n: nat, account: nat)
    requires n <= |steps| && IsClosed(Run(steps[..n]).st, account)
    ensures IsClosed(Run(steps).st, account) && OthersOnly(Run(steps[..n]).st, Run(steps).st, account)
    decreases |steps|
  {
    hide Next;
    if n == |steps| {
      assert steps[..n] == steps;
    } else {
      var init := steps[..|steps| - 1];
      assert init[..n] == steps[..n];
      DeactivatedAccountGetsNothing(init, n, account);
      StepSkipsClosed(Run(init), steps[|steps| - 1], account);
    }
  }

  /** At any time at most one order that is open and not yet expired renews a certificate. */
  lemma OneOpenRenewal(steps: seq<Step>, o: nat, p: nat)
    requires o in Run(steps).st.orders && p in Run(steps).st.orders && o != p
    requires Run(steps).st.orders[o].renews.Some? && Run(steps).st.orders[o].renews == Run(steps).st.orders[p].renews
    ensures !(Live(Run(steps).st, o, Run(steps).clock) && Live(Run(steps).st, p, Run(steps).clock))
  {
    RunKeeps(steps);
    assert SameRenewal(Run(steps).st, o, p);
  }
}
