/** What every step of the ACME server keeps about its orders, authorizations and issued
    certificates, and the moves a step may make. */
module AcmeInvariant {
  import opened Prelude
  import opened AcmeOrders

  /** Proved over DNS, or covered by the scope the app was onboarded for. */
  predicate ProvedByDns(a: Authz) { a.tried == Some(Dns01) || a.tried == Some(RaScope) }

  ghost predicate NonePending(s: State, o: nat) {
    forall a :: a in s.authzs && s.authzs[a].order == o ==> s.authzs[a].status != AuthzPending
  }

  ghost predicate PendingOrValid(s: State, o: nat) {
    forall a :: a in s.authzs && s.authzs[a].order == o ==> s.authzs[a].status in {AuthzPending, AuthzValid}
  }

  ghost predicate OrderOk(s: State, o: nat) {
    o in s.orders &&
    var order := s.orders[o];
    && o < s.nextOrder
    && (order.status == Valid <==> order.cert.Some?)
    && (Open(order.status) ==> order.account in s.accounts && s.accounts[order.account])
    && match order.status
       case Pending => PendingOrValid(s, o) && !NonePending(s, o)
       case Ready => AllValid(s.authzs, o)
       case Processing => NonePending(s, o)
       case Valid => NonePending(s, o)
       case Invalid => true
  }

  ghost predicate AuthzOk(s: State, a: nat) {
    a in s.authzs &&
    var z := s.authzs[a];
    && z.order in s.orders && a < s.nextAuthz
    && (z.status == AuthzPending ==> z.challenge == AuthzPending && z.tried != Some(RaScope))
    && (z.status == AuthzValid && z.name.wildcard ==> ProvedByDns(z))
  }

  ghost predicate IssueOk(s: State, i: nat) {
    i < |s.issued| &&
    var e := s.issued[i];
    && e.order in s.orders && s.orders[e.order].cert == Some(e.cert)
    && s.orders[e.order].account == e.account && s.orders[e.order].names == e.names
  }

  ghost predicate OrdersOk(s: State) { forall o {:trigger OrderOk(s, o)} :: o in s.orders ==> OrderOk(s, o) }

  ghost predicate AuthzsOk(s: State) { forall a {:trigger AuthzOk(s, a)} :: a in s.authzs ==> AuthzOk(s, a) }

  ghost predicate IssuesOk(s: State) {
    && (forall i {:trigger IssueOk(s, i)} :: 0 <= i < |s.issued| ==> IssueOk(s, i))
    && (forall i, j :: 0 <= i < j < |s.issued| ==> s.issued[i].order != s.issued[j].order)
  }

  ghost predicate Live(s: State, o: nat, clock: int) {
    o in s.orders &&
    Open(s.orders[o].status) && s.orders[o].expires > clock
  }

  ghost predicate SameRenewal(s: State, o: nat, p: nat) {
    o in s.orders && p in s.orders &&
    o != p && s.orders[o].renews.Some? && s.orders[o].renews == s.orders[p].renews
  }

  /** Two orders do not renew the same certificate at once. */
  ghost predicate RenewalsOk(s: State, clock: int) {
    forall o, p {:trigger SameRenewal(s, o, p)} :: o in s.orders && p in s.orders && SameRenewal(s, o, p)
      ==> !(Live(s, o, clock) && Live(s, p, clock))
  }

  ghost predicate Inv(s: State, clock: int) {
    OrdersOk(s) && AuthzsOk(s) && IssuesOk(s) && RenewalsOk(s, clock)
  }

  // ------------------------------------------------------------ one authorization per name

  /** Order `o` has an authorization for this name. */
  ghost predicate Asks(s: State, o: nat, name: Name) {
    exists a :: a in s.authzs && s.authzs[a].order == o && s.authzs[a].name == name
  }

  ghost predicate AsksForAll(s: State, o: nat) {
    o in s.orders && forall k :: 0 <= k < |s.orders[o].names| ==> Asks(s, o, s.orders[o].names[k])
  }

  /** As long as an order is there, each of its names has an authorization. */
  ghost predicate NamesOk(s: State) {
    forall o {:trigger AsksForAll(s, o)} :: o in s.orders ==> AsksForAll(s, o)
  }

  /** An order keeps its names, and its authorizations stay as long as it does. */
  ghost predicate NamesLast(s: State, t: State) {
    && (forall o :: o in s.orders && o in t.orders ==> t.orders[o].names == s.orders[o].names)
    && (forall a :: a in s.authzs && s.authzs[a].order in t.orders ==>
                      a in t.authzs && t.authzs[a].order == s.authzs[a].order && t.authzs[a].name == s.authzs[a].name)
  }

  // ------------------------------------------------------------ status diagrams

  predicate OrderMove(a: OrderStatus, b: OrderStatus) {
    || a == b
    || (a == Pending && (b == Ready || b == Invalid))
    || (a == Ready && (b == Processing || b == Valid || b == Invalid))
    || (a == Processing && b == Invalid)
  }

  predicate AuthzMove(a: AuthzStatus, b: AuthzStatus) {
    || a == b
    || a == AuthzPending
    || (a == AuthzValid && b == AuthzDeactivated)
  }

  /** A step follows the order diagram, changes nothing else about the order, never removes
      a valid one and never reuses an id. */
  ghost predicate OrderMoves(s: State, t: State, o: nat) {
    && (o in s.orders && o in t.orders ==>
          && OrderMove(s.orders[o].status, t.orders[o].status)
          && (s.orders[o].cert.Some? ==> t.orders[o].cert == s.orders[o].cert)
          && t.orders[o] == s.orders[o].(status := t.orders[o].status, cert := t.orders[o].cert))
    && (o in s.orders && o !in t.orders ==> s.orders[o].status != Valid)
    && (o in t.orders && o !in s.orders ==> o >= s.nextOrder)
  }

  ghost predicate AuthzMoves(s: State, t: State, a: nat) {
    a in s.authzs && a in t.authzs ==>
      AuthzMove(s.authzs[a].status, t.authzs[a].status) && t.authzs[a].order == s.authzs[a].order && t.authzs[a].name == s.authzs[a].name
  }

  ghost predicate Moves(s: State, t: State) {
    && (forall o {:trigger OrderMoves(s, t, o)} :: OrderMoves(s, t, o))
    && (forall a {:trigger AuthzMoves(s, t, a)} :: AuthzMoves(s, t, a))
    && s.nextOrder <= t.nextOrder
    && s.issued <= t.issued
    && (forall c :: c in s.accounts ==> c in t.accounts && (!s.accounts[c] ==> !t.accounts[c]))
  }
}
