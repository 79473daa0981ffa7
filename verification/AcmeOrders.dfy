/** ACME orders and authorizations (enrollment/acme.py). Each handler is one committed
    step on the order, authorization and account rows; what the network, the policy
    engine and the issuing CA answer comes from outside. Times are in seconds. */
module AcmeOrders {
  import opened Prelude

  datatype OrderStatus = Pending | Ready | Processing | Valid | Invalid
  datatype AuthzStatus = AuthzPending | AuthzValid | AuthzInvalid | AuthzDeactivated | AuthzExpired
  datatype Challenge = Http01 | Dns01 | RaScope

  /** A DNS identifier; for "*.x" the base is x. */
  datatype Name = Name(base: string, wildcard: bool)

  datatype Order = Order(account: nat, names: seq<Name>, status: OrderStatus, expires: int, cert: Option<nat>,
                         renews: Option<nat>)
  datatype Authz = Authz(order: nat, name: Name, status: AuthzStatus, challenge: AuthzStatus, tried: Option<Challenge>)

  /** One certificate issued for an order. */
  datatype Issue = Issue(order: nat, account: nat, cert: nat, names: seq<Name>)

  datatype State = State(accounts: map<nat, bool>, orders: map<nat, Order>, authzs: map<nat, Authz>,
                         issued: seq<Issue>, nextOrder: nat, nextAuthz: nat)

  datatype Reply = Done | NotFound | OrderExpired | OrderNotReady | BadCsr | Unauthorized | Rejected | AlreadyReplaced | Malformed | ServerError

  const HOUR: int := 3600
  const DAY: int := 24 * HOUR

  predicate Open(status: OrderStatus) { status == Pending || status == Ready || status == Processing }

  /** The challenges an authorization offers. */
  predicate Offers(a: Authz, c: Challenge) {
    if a.tried == Some(RaScope) then c == Http01
    else c == Dns01 || (c == Http01 && !a.name.wildcard)
  }

  predicate AllValid(authzs: map<nat, Authz>, order: nat) {
    forall a :: a in authzs && authzs[a].order == order ==> authzs[a].status == AuthzValid
  }

  // ------------------------------------------------------------ looking up one's order

  /** The order, if it is this account's; `live` also expires an order whose time has passed. */
  function OwnOrder(s: State, account: nat, order: nat, live: bool, now: int): (State, Reply) {
    if order !in s.orders || s.orders[order].account != account then (s, NotFound)
    else
      var o := s.orders[order];
      if live && o.status != Valid && o.status != Invalid && o.expires < now
      then (s.(orders := s.orders[order := o.(status := Invalid)]), OrderExpired)
      else (s, Done)
  }

  // ------------------------------------------------------------ handlers

  /** An order that is still replacing this certificate. */
  predicate Replacing(s: State, cert: nat, now: int) {
    exists o :: o in s.orders && s.orders[o].renews == Some(cert) && Open(s.orders[o].status) && s.orders[o].expires > now
  }

  function NewAuthz(order: nat, name: Name, raScope: bool): Authz {
    var status := if raScope then AuthzValid else AuthzPending;
    Authz(order, name, status, status, if raScope then Some(RaScope) else None)
  }

  /** One authorization per name, with consecutive ids. */
  function NewAuthzs(order: nat, names: seq<Name>, first: nat, raScope: bool): (r: map<nat, Authz>)
    ensures forall a: nat :: a in r <==> first <= a < first + |names|
    ensures forall a: nat :: a in r ==> r[a] == NewAuthz(order, names[a - first], raScope)
  {
    if names == [] then map[]
    else
      var n := |names| - 1;
      NewAuthzs(order, names[..n], first, raScope)[first + n := NewAuthz(order, names[n], raScope)]
  }

  /** `permitted`: the app is active and policy allows the names; `renewable`: the
      certificate to replace exists, belongs to the app and was not replaced yet. */
  function AfterNewOrder(s: State, account: nat, names: seq<Name>, raScope: bool, permitted: bool,
                         renews: Option<nat>, renewable: bool, now: int): (State, Reply) {
    if names == [] || !permitted then (s, Rejected)
    else if renews.Some? && !renewable then (s, Malformed)
    else if renews.Some? && Replacing(s, renews.value, now) then (s, AlreadyReplaced)
    else
      var o := Order(account, names, if raScope then Ready else Pending, now + 8 * HOUR, None, renews);
      (s.(orders := s.orders[s.nextOrder := o], authzs := s.authzs + NewAuthzs(s.nextOrder, names, s.nextAuthz, raScope),
          nextOrder := s.nextOrder + 1, nextAuthz := s.nextAuthz + |names|), Done)
  }

  /** The client gives up an authorization. */
  function AfterDeactivateAuthz(s: State, account: nat, authz: nat, now: int): (State, Reply) {
    if authz !in s.authzs then (s, NotFound)
    else
      var a := s.authzs[authz];
      var (t, reply) := OwnOrder(s, account, a.order, false, now);
      if reply != Done then (t, reply)
      else if a.status != AuthzPending && a.status != AuthzValid then (s, Malformed)
      else
        var o := s.orders[a.order];
        var o' := if o.status == Pending || o.status == Ready then o.(status := Invalid) else o;
        (s.(orders := s.orders[a.order := o'], authzs := s.authzs[authz := a.(status := AuthzDeactivated)]), Done)
  }

  /** `proved`: the answer fetched over HTTP or DNS matched the key authorization. */
  function AfterChallenge(s: State, account: nat, authz: nat, c: Challenge, proved: bool, now: int): (State, Reply) {
    if authz !in s.authzs || !Offers(s.authzs[authz], c) then (s, NotFound)
    else
      var a := s.authzs[authz];
      var (t, reply) := OwnOrder(s, account, a.order, true, now);
      if reply != Done then (t, reply)
      else if a.challenge != AuthzPending || a.status != AuthzPending then (s, Done)
      else
        var o := s.orders[a.order];
        if !proved then
          (s.(orders := s.orders[a.order := o.(status := Invalid)],
              authzs := s.authzs[authz := a.(status := AuthzInvalid, challenge := AuthzInvalid, tried := Some(c))]), Done)
        else
          var authzs := s.authzs[authz := a.(status := AuthzValid, challenge := AuthzValid, tried := Some(c))];
          var o' := if AllValid(authzs, a.order) && o.status == Pending then o.(status := Ready) else o;
          (s.(orders := s.orders[a.order := o'], authzs := authzs), Done)
  }

  /** How issuing ends: a certificate; a policy refusal (`PolicyLost`: the process stops
      after the refusal was committed and before the order was closed); an approval or a
      gateway job instead of a certificate; or an error. */
  datatype IssueOutcome = Issued(cert: nat) | PolicyRefused | PolicyLost | NotOnTheSpot | IssueFailed

  function AfterFinalize(s: State, account: nat, order: nat, csrNames: seq<Name>, appActive: bool, outcome: IssueOutcome,
                         now: int): (State, Reply) {
    var (t, reply) := OwnOrder(s, account, order, true, now);
    if reply != Done then (t, reply)
    else
      var o := s.orders[order];
      if o.status != Ready then (s, OrderNotReady)
      else if csrNames != o.names then (s, BadCsr)
      else if !appActive then (s, Unauthorized)
      else match outcome
        case Issued(cert) =>
          (s.(orders := s.orders[order := o.(status := Valid, cert := Some(cert))],
              issued := s.issued + [Issue(order, account, cert, csrNames)]), Done)
        case PolicyRefused => (s.(orders := s.orders[order := o.(status := Invalid)]), BadCsr)
        case PolicyLost => (s.(orders := s.orders[order := o.(status := Processing)]), ServerError)
        case NotOnTheSpot => (s, Unauthorized)
        case IssueFailed => (s, ServerError)
  }

  // ------------------------------------------------------------ closing many orders

  function CloseOrders(orders: map<nat, Order>, which: set<nat>): map<nat, Order> {
    map o | o in orders :: if o in which then orders[o].(status := Invalid) else orders[o]
  }

  function CloseAuthzs(authzs: map<nat, Authz>, which: set<nat>, from: set<AuthzStatus>, to: AuthzStatus): map<nat, Authz> {
    map a | a in authzs ::
      if authzs[a].order in which && authzs[a].status in from then authzs[a].(status := to) else authzs[a]
  }

  function OpenOrdersOf(s: State, account: nat): set<nat> {
    set o | o in s.orders && s.orders[o].account == account && Open(s.orders[o].status)
  }

  /** Closes the account together with its open orders and their authorizations. */
  function AfterDeactivateAccount(s: State, account: nat): State {
    var which := OpenOrdersOf(s, account);
    s.(accounts := s.accounts[account := false], orders := CloseOrders(s.orders, which),
       authzs := CloseAuthzs(s.authzs, which, {AuthzPending, AuthzValid}, AuthzDeactivated))
  }

  function StaleOrders(s: State, now: int): set<nat> {
    set o | o in s.orders && Open(s.orders[o].status) && s.orders[o].expires < now
  }

  function ExpiredState(s: State, now: int): State {
    var which := StaleOrders(s, now);
    s.(orders := CloseOrders(s.orders, which), authzs := CloseAuthzs(s.authzs, which, {AuthzPending}, AuthzExpired))
  }

  function OldOrders(s: State, now: int): set<nat> {
    set o | o in s.orders && s.orders[o].status == Invalid && s.orders[o].expires < now - 30 * DAY
  }

  function Purged(s: State, which: set<nat>): State {
    s.(orders := s.orders - which, authzs := map a | a in s.authzs && s.authzs[a].order !in which :: s.authzs[a])
  }

  /** Expire stale orders and their pending authorizations, then drop what has long been invalid. */
  function AfterHousekeeping(s: State, now: int): State {
    var t := ExpiredState(s, now);
    Purged(t, OldOrders(t, now))
  }

  /** Close the given orders one by one, and with each the authorizations that are in one of the `from` states. */
  method CloseAll(orders: map<nat, Order>, authzs: map<nat, Authz>, which: set<nat>, from: set<AuthzStatus>, to: AuthzStatus)
    returns (orders': map<nat, Order>, authzs': map<nat, Authz>)
    requires which <= orders.Keys && to !in from
    ensures orders' == CloseOrders(orders, which)
    ensures authzs' == CloseAuthzs(authzs, which, from, to)
  {
    orders', authzs' := orders, authzs;
    ghost var done: set<nat> := {};
    var todo := which;
    CloseNone(orders, authzs, from, to);
    while todo != {}
      invariant todo !! done && todo + done == which
      invariant orders' == CloseOrders(orders, done) && authzs' == CloseAuthzs(authzs, done, from, to)
      decreases todo
    {
      var o :| o in todo;
      CloseOneMore(orders, authzs, done, o, from, to);
      orders' := orders'[o := orders'[o].(status := Invalid)];
      authzs' := CloseAuthzsOf(authzs', o, from, to);
      todo, done := todo - {o}, done + {o};
    }
    assert done == which;
  }

  method CloseAuthzsOf(authzs: map<nat, Authz>, order: nat, from: set<AuthzStatus>, to: AuthzStatus) returns (out: map<nat, Authz>)
    ensures out == CloseAuthzs(authzs, {order}, from, to)
  {
    out := authzs;
    var todo := authzs.Keys;
    assert authzs == Partly(authzs, order, from, to, todo);
    while todo != {}
      invariant todo <= authzs.Keys && out == Partly(authzs, order, from, to, todo)
      decreases todo
    {
      var a :| a in todo;
      PartlyStep(authzs, order, from, to, todo, a);
      if authzs[a].order == order && authzs[a].status in from {
        out := out[a := authzs[a].(status := to)];
      }
      todo := todo - {a};
    }
    assert Partly(authzs, order, from, to, {}) == CloseAuthzs(authzs, {order}, from, to);
  }

  function Partly(authzs: map<nat, Authz>, order: nat, from: set<AuthzStatus>, to: AuthzStatus, todo: set<nat>): map<nat, Authz> {
    map a | a in authzs ::
      if a !in todo && authzs[a].order == order && authzs[a].status in from then authzs[a].(status := to) else authzs[a]
  }

  lemma PartlyStep(authzs: map<nat, Authz>, order: nat, from: set<AuthzStatus>, to: AuthzStatus, todo: set<nat>, a: nat)
    requires todo <= authzs.Keys && a in todo
    ensures Partly(authzs, order, from, to, todo - {a})
         == if authzs[a].order == order && authzs[a].status in from
            then Partly(authzs, order, from, to, todo)[a := authzs[a].(status := to)]
            else Partly(authzs, order, from, to, todo)
  {}

  lemma CloseNone(orders: map<nat, Order>, authzs: map<nat, Authz>, from: set<AuthzStatus>, to: AuthzStatus)
    ensures CloseOrders(orders, {}) == orders && CloseAuthzs(authzs, {}, from, to) == authzs
  {}

  lemma CloseOneMore(orders: map<nat, Order>, authzs: map<nat, Authz>, done: set<nat>, o: nat, from: set<AuthzStatus>, to: AuthzStatus)
    requires o in orders && o !in done && to !in from
    ensures CloseOrders(orders, done + {o}) == CloseOrders(orders, done)[o := CloseOrders(orders, done)[o].(status := Invalid)]
    ensures CloseAuthzs(authzs, done + {o}, from, to) == CloseAuthzs(CloseAuthzs(authzs, done, from, to), {o}, from, to)
  {}

  // ------------------------------------------------------------ the server

  class Server {
    var accounts: map<nat, bool>
    var orders: map<nat, Order>
    var authzs: map<nat, Authz>
    ghost var issued: seq<Issue>
    var nextOrder: nat
    var nextAuthz: nat

    ghost function St(): State
      reads this
    {
      State(accounts, orders, authzs, issued, nextOrder, nextAuthz)
    }

    constructor ()
      ensures St() == State(map[], map[], map[], [], 1, 1)
    {
      accounts, orders, authzs, issued, nextOrder, nextAuthz := map[], map[], map[], [], 1, 1;
    }

    method NewOrder(account: nat, names: seq<Name>, raScope: bool, permitted: bool, renews: Option<nat>, renewable: bool, now: int)
      returns (reply: Reply)
      modifies this
      ensures (St(), reply) == AfterNewOrder(old(St()), account, names, raScope, permitted, renews, renewable, now)
    {
      if names == [] || !permitted { return Rejected; }
      if renews.Some? {
        if !renewable { return Malformed; }
        if exists o :: o in orders && orders[o].renews == renews && Open(orders[o].status) && orders[o].expires > now {
          return AlreadyReplaced;
        }
      }
      var more := MakeAuthzs(nextOrder, names, nextAuthz, raScope);
      authzs, nextAuthz := authzs + more, nextAuthz + |names|;
      orders := orders[nextOrder := Order(account, names, if raScope then Ready else Pending, now + 8 * HOUR, None, renews)];
      nextOrder := nextOrder + 1;
      return Done;
    }

    method OwnLiveOrder(account: nat, order: nat, now: int) returns (reply: Reply)
      modifies this`orders
      ensures (St(), reply) == OwnOrder(old(St()), account, order, true, now)
    {
      if order !in orders || orders[order].account != account { return NotFound; }
      var o := orders[order];
      if o.status != Valid && o.status != Invalid && o.expires < now {
        orders := orders[order := o.(status := Invalid)];
        return OrderExpired;
      }
      return Done;
    }

    method Challenge(account: nat, authz: nat, c: Challenge, proved: bool, now: int) returns (reply: Reply)
      modifies this`orders, this`authzs
      ensures (St(), reply) == AfterChallenge(old(St()), account, authz, c, proved, now)
    {
      if authz !in authzs || !Offers(authzs[authz], c) { return NotFound; }
      var a := authzs[authz];
      reply := OwnLiveOrder(account, a.order, now);
      if reply != Done { return; }
      if a.challenge == AuthzPending && a.status == AuthzPending {
        a := a.(tried := Some(c));
        var o := orders[a.order];
        if proved {
          a := a.(status := AuthzValid, challenge := AuthzValid);
        } else {
          a := a.(status := AuthzInvalid, challenge := AuthzInvalid);
          o := o.(status := Invalid);
        }
        authzs := authzs[authz := a];
        if AllValid(authzs, a.order) && o.status == Pending {
          o := o.(status := Ready);
        }
        orders := orders[a.order := o];
      }
    }

    method DeactivateAuthz(account: nat, authz: nat, now: int) returns (reply: Reply)
      modifies this`orders, this`authzs
      ensures (St(), reply) == AfterDeactivateAuthz(old(St()), account, authz, now)
    {
      if authz !in authzs { return NotFound; }
      var a := authzs[authz];
      if a.order !in orders || orders[a.order].account != account { return NotFound; }
      if a.status != AuthzPending && a.status != AuthzValid { return Malformed; }
      authzs := authzs[authz := a.(status := AuthzDeactivated)];
      var o := orders[a.order];
      if o.status == Pending || o.status == Ready { o := o.(status := Invalid); }
      orders := orders[a.order := o];
      return Done;
    }

    method Finalize(account: nat, order: nat, csrNames: seq<Name>, appActive: bool, outcome: IssueOutcome, now: int)
      returns (reply: Reply)
      modifies this`orders, this`issued
      ensures (St(), reply) == AfterFinalize(old(St()), account, order, csrNames, appActive, outcome, now)
    {
      reply := OwnLiveOrder(account, order, now);
      if reply != Done { return; }
      var o := orders[order];
      if o.status != Ready { return OrderNotReady; }
      if csrNames != o.names { return BadCsr; }
      if !appActive { return Unauthorized; }
      match outcome {
        case Issued(cert) =>
          orders := orders[order := o.(status := Valid, cert := Some(cert))];
          issued := issued + [Issue(order, account, cert, csrNames)];
          return Done;
        case PolicyRefused =>
          orders := orders[order := o.(status := Invalid)];
          return BadCsr;
        case PolicyLost =>
          orders := orders[order := o.(status := Processing)];
          return ServerError;
        case NotOnTheSpot => return Unauthorized;
        case IssueFailed => return ServerError;
      }
    }

    method DeactivateAccount(account: nat)
      modifies this`accounts, this`orders, this`authzs
      ensures St() == AfterDeactivateAccount(old(St()), account)
    {
      accounts := accounts[account := false];
      var which := set o | o in orders && orders[o].account == account && Open(orders[o].status);
      orders, authzs := CloseAll(orders, authzs, which, {AuthzPending, AuthzValid}, AuthzDeactivated);
    }

    method Housekeeping(now: int)
      modifies this`orders, this`authzs
      ensures St() == AfterHousekeeping(old(St()), now)
    {
      var stale := set o | o in orders && Open(orders[o].status) && orders[o].expires < now;
      orders, authzs := CloseAll(orders, authzs, stale, {AuthzPending}, AuthzExpired);
      var ancient := set o | o in orders && orders[o].status == Invalid && orders[o].expires < now - 30 * DAY;
      orders, authzs := orders - ancient, map a | a in authzs && authzs[a].order !in ancient :: authzs[a];
    }
  }

  method MakeAuthzs(order: nat, names: seq<Name>, first: nat, raScope: bool) returns (out: map<nat, Authz>)
    ensures out == NewAuthzs(order, names, first, raScope)
  {
    out := map[];
    for i := 0 to |names|
      invariant out == NewAuthzs(order, names[..i], first, raScope)
    {
      assert names[..i + 1][..i] == names[..i];
      out := out[first + i := NewAuthz(order, names[i], raScope)];
    }
    assert names[..|names|] == names;
  }
}
