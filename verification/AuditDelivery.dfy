/** Whole runs of appending and shipping together: what the receiver holds, after any
    interleaving of concurrent appends, failed sends, crashes and cursor rollbacks, and
    what it can conclude when somebody rewrites the table. */
module AuditDelivery {
  import opened Prelude
  import opened AuditChain
  import opened AuditShipping
  import Appends = AuditAppends

  /** The audit table, the sink's committed cursor, any number of shipping sessions each
      with its own uncommitted cursor, and the receiver's copy. A batch may read the table as
      it was committed at any earlier time: its first `view` rows. It seals its records with
      the seal key its own process is configured with, so a run may span any rotation. */
  datatype World = World(audit: Appends.Table, cursor: Cursor, sessions: map<nat, Cursor>, received: seq<Record>)

  datatype Step =
    | Audit(step: Appends.Step)
    | Begin(session: nat)
    | Batch(session: nat, outcome: Outcome, view: nat, key: Option<Key>)
    | End(session: nat, commit: bool)

  datatype Setup = Setup(h: Digest, keys: Keys, instance: string)

  /** The keys of a process whose seal key is `key`. */
  function Under(u: Setup, key: Option<Key>): Keys {
    u.keys.(seal := key)
  }

  function Sealed(u: Setup, key: Option<Key>, evs: seq<Event>): seq<Record> {
    ToRecords(Under(u, key), u.instance, evs)
  }

  const START := World(Appends.EMPTY, Cursor(0, None), map[], [])

  function Next(u: Setup, w: World, step: Step): World {
    match step
    case Audit(a) => w.(audit := Appends.Next(u.h, w.audit, a))
    case Begin(n) => w.(sessions := w.sessions[n := w.cursor])
    case Batch(n, o, view, key) =>
      if n !in w.sessions then w
      else
        var p := ShipBatch(Under(u, key), u.instance, Take(w.audit.committed, view), w.sessions[n], w.received, o);
        w.(sessions := w.sessions[n := p.cursor], received := p.received)
    case End(n, commit) =>
      if n !in w.sessions then w
      else w.(cursor := if commit then w.sessions[n] else w.cursor, sessions := w.sessions - {n})
  }

  function Run(u: Setup, steps: seq<Step>): World {
    if steps == [] then START else Next(u, Run(u, steps[..|steps| - 1]), steps[|steps| - 1])
  }

  // ------------------------------------------------------------ invariant

  /** The cursor stands right after the first `n` rows. */
  ghost predicate At(c: Cursor, rows: seq<Event>, n: nat) {
    && n <= |rows|
    && c == if n == 0 then Cursor(0, None) else Cursor(rows[n - 1].id, Some(rows[n - 1].hash))
  }

  ghost predicate Covered(c: Cursor, rows: seq<Event>, m: nat) {
    exists n {:trigger At(c, rows, n)} :: 0 <= n <= m && At(c, rows, n)
  }

  /** A genuine record of an event, whatever seal key made its MAC. */
  ghost predicate Carries(u: Setup, r: Record, ev: Event) {
    r.ev == ev && r.instance == u.instance && r.sig == Some(u.keys.sign(ev, u.instance))
  }

  ghost predicate Copies(u: Setup, kept: seq<Record>, rows: seq<Event>) {
    |kept| == |rows| && forall i :: 0 <= i < |kept| ==> Carries(u, kept[i], rows[i])
  }

  /** The receiver's copy, with repeats dropped, is the first `m` events of the chain. */
  ghost predicate Holds(u: Setup, received: seq<Record>, rows: seq<Event>, m: nat) {
    m <= |rows| && Copies(u, Fresh(received), rows[..m])
  }

  /** From `m` to `n` events in the copy: the new ones were sealed with `key`. */
  ghost predicate Extended(u: Setup, key: Option<Key>, was: seq<Record>, received: seq<Record>, rows: seq<Event>, m: nat, n: nat) {
    && was <= received && m <= n <= |rows| && Holds(u, received, rows, n)
    && Fresh(received) == Fresh(was) + Sealed(u, key, rows[m..n])
  }

  ghost predicate Inv(u: Setup, w: World) {
    var m := |Fresh(w.received)|;
    && Appends.Inv(u.h, w.audit)
    && Holds(u, w.received, w.audit.committed, m)
    && Covered(w.cursor, w.audit.committed, m)
    && forall n :: n in w.sessions ==> Covered(w.sessions[n], w.audit.committed, m)
  }

  // ------------------------------------------------------------ the sender's query

  lemma {:induction false} AfterCursor(rows: seq<Event>, bound: nat, id: nat, n: nat)
    requires Ascending(rows) && Appends.IdsBelow(rows, bound) && n <= |rows|
    requires if n == 0 then id == 0 else id == rows[n - 1].id
    ensures After(rows, id) == rows[n..]
    decreases |rows|
  {
    if rows != [] {
      var init := rows[..|rows| - 1];
      if n == |rows| {
        NothingAfter(init, id);
      } else {
        AfterCursor(init, bound, id, n);
        var last := rows[|rows| - 1];
        assert last.id > id && After(rows, id) == After(init, id) + [last];
        assert rows[n..] == init[n..] + [last];
      }
    }
  }

  lemma {:induction false} NothingAfter(rows: seq<Event>, id: nat)
    requires forall i :: 0 <= i < |rows| ==> rows[i].id <= id
    ensures After(rows, id) == []
  {
    if rows != [] { NothingAfter(rows[..|rows| - 1], id); }
  }

  // ------------------------------------------------------------ repeats

  function Max(a: nat, b: nat): nat { if a <= b then b else a }

  lemma {:induction false} FreshKeepsHashes(records: seq<Record>, x: Hash)
    ensures Seen(Fresh(records), x) <==> Seen(records, x)
  {
    if records != [] {
      var before, r := records[..|records| - 1], records[|records| - 1];
      FreshKeepsHashes(before, x);
      SeenAppend(before, r);
      SeenAppend(Fresh(before), r);
      assert records == before + [r];
      if Seen(before, r.ev.hash) { assert Fresh(records) == Fresh(before); }
    }
  }

  lemma FreshAppend(records: seq<Record>, r: Record)
    ensures Fresh(records + [r]) == if Seen(Fresh(records), r.ev.hash) then Fresh(records) else Fresh(records) + [r]
  {
    assert (records + [r])[..|records|] == records;
    FreshKeepsHashes(records, r.ev.hash);
  }

  lemma HoldsOneMore(u: Setup, key: Option<Key>, received: seq<Record>, rows: seq<Event>, m: nat, i: nat)
    requires CollisionFree(u.h) && Linked(u.h, rows)
    requires Holds(u, received, rows, m) && i <= m && i < |rows|
    ensures Extended(u, key, received, received + [ToRecord(Under(u, key), u.instance, rows[i])], rows, m, if i < m then m else m + 1)
  {
    hide CollisionFree, Linked, Fresh, Seen, Copies;
    SeenInChain(u, Fresh(received), rows, m, i);
    FreshAppend(received, ToRecord(Under(u, key), u.instance, rows[i]));
    if i == m {
      assert rows[m..m + 1] == [rows[m]] && rows[..m + 1] == rows[..m] + [rows[m]];
      CopiesOneMore(u, key, Fresh(received), rows[..m], rows[m]);
    } else {
      assert rows[m..m] == [] && Fresh(received) + Sealed(u, key, rows[m..m]) == Fresh(received);
    }
  }

  lemma CopiesOneMore(u: Setup, key: Option<Key>, kept: seq<Record>, evs: seq<Event>, ev: Event)
    requires Copies(u, kept, evs)
    ensures Sealed(u, key, [ev]) == [ToRecord(Under(u, key), u.instance, ev)]
    ensures Copies(u, kept + [ToRecord(Under(u, key), u.instance, ev)], evs + [ev])
  {}

  /** Resending rows that were already delivered, then new ones, adds exactly the new ones. */
  lemma {:induction false} ResendAddsOnlyNew(u: Setup, key: Option<Key>, received: seq<Record>, rows: seq<Event>, m: nat, n: nat, e: nat)
    requires CollisionFree(u.h) && Linked(u.h, rows)
    requires Holds(u, received, rows, m) && n <= m && n <= e <= |rows|
    ensures Extended(u, key, received, received + Sealed(u, key, rows[n..e]), rows, m, Max(m, e))
    decreases e - n
  {
    hide CollisionFree, Linked, Fresh;
    if n == e {
      assert received + Sealed(u, key, rows[n..e]) == received && rows[m..m] == [];
      assert Fresh(received) == Fresh(received) + Sealed(u, key, rows[m..m]);
    } else {
      var before := received + Sealed(u, key, rows[n..e - 1]);
      ResendAddsOnlyNew(u, key, received, rows, m, n, e - 1);
      assert received + Sealed(u, key, rows[n..e]) == before + [ToRecord(Under(u, key), u.instance, rows[e - 1])];
      HoldsOneMore(u, key, before, rows, Max(m, e - 1), e - 1);
      ExtendedTwice(u, key, received, before, received + Sealed(u, key, rows[n..e]), rows, m, Max(m, e - 1), Max(m, e));
    }
  }

  lemma ExtendedTwice(u: Setup, key: Option<Key>, a: seq<Record>, b: seq<Record>, c: seq<Record>,
                      rows: seq<Event>, m: nat, n: nat, e: nat)
    requires Extended(u, key, a, b, rows, m, n) && Extended(u, key, b, c, rows, n, e)
    ensures Extended(u, key, a, c, rows, m, e)
  {
    hide Holds, Fresh, Sealed;
    assert rows[m..e] == rows[m..n] + rows[n..e];
    SealedAppend(u, key, rows[m..n], rows[n..e]);
  }

  lemma SealedAppend(u: Setup, key: Option<Key>, a: seq<Event>, b: seq<Event>)
    ensures Sealed(u, key, a + b) == Sealed(u, key, a) + Sealed(u, key, b)
  {}

  lemma SeenInChain(u: Setup, kept: seq<Record>, rows: seq<Event>, q: nat, i: nat)
    requires CollisionFree(u.h) && Linked(u.h, rows) && q <= |rows| && i < |rows| && Copies(u, kept, rows[..q])
    ensures Seen(kept, rows[i].hash) <==> i < q
  {
    if Seen(kept, rows[i].hash) {
      var j :| 0 <= j < |kept| && kept[j].ev.hash == rows[i].hash;
      HashesDistinct(u.h, rows, i, j);
    }
    if i < q { assert kept[i].ev.hash == rows[i].hash; }
  }

  lemma TakeRecords(u: Setup, key: Option<Key>, evs: seq<Event>, n: nat)
    ensures Take(Sealed(u, key, evs), n) == Sealed(u, key, Take(evs, n))
  {}

  // ------------------------------------------------------------ one step

  /** Where a batch from row `n` on ends, when it reads the first `v` rows. */
  function BatchEnd(v: nat, n: nat): (e: nat)
    ensures n <= e && (n < e ==> e <= v)
  {
    if v <= n then n else if v - n <= BATCH then v else n + BATCH
  }

  lemma TakeTail(rows: seq<Event>, n: nat, k: nat)
    requires n <= |rows|
    ensures Take(rows[n..], k) == rows[n..if |rows| - n <= k then |rows| else n + k]
  {}

  lemma TakeWindow(rows: seq<Event>, n: nat, e: nat, k: nat)
    requires n <= e <= |rows|
    ensures Take(rows[n..e], k) == rows[n..if k <= e - n then n + k else e]
  {}

  /** From a cursor inside the delivered history the query returns the next rows of the
      chain that it can see, and none if it does not see past the cursor. */
  lemma BatchRows(rows: seq<Event>, bound: nat, c: Cursor, n: nat, v: nat)
    requires Ascending(rows) && Appends.IdsBelow(rows, bound) && At(c, rows, n) && v <= |rows|
    ensures BatchEnd(v, n) <= |rows|
    ensures Take(After(rows[..v], c.lastId), BATCH) == rows[n..BatchEnd(v, n)]
  {
    var seen := rows[..v];
    if n <= v {
      AfterCursor(seen, bound, c.lastId, n);
      TakeTail(seen, n, BATCH);
      assert forall e :: n <= e <= v ==> seen[n..e] == rows[n..e];
    } else {
      NothingAfter(seen, c.lastId);
    }
  }

  /** How many rows of the chain have arrived once a batch ending at `e` was tried. */
  function Arrived(n: nat, e: nat, o: Outcome): nat {
    match o
    case FailedAfter(a) => if n + a <= e then n + a else e
    case Delivered => e
  }

  lemma NoBreakAt(u: Setup, rows: seq<Event>, c: Cursor, n: nat, e: nat)
    requires Linked(u.h, rows) && n < e <= |rows| && At(c, rows, n)
    ensures rows[n..e] != [] && (c.lastHash.Some? ==> rows[n..e][0].prev == c.lastHash.value)
    ensures rows[n..e][|rows[n..e]| - 1] == rows[e - 1]
  {
    assert LinkAt(u.h, rows, n);
  }

  lemma RowsDeliver(u: Setup, key: Option<Key>, rows: seq<Event>, c: Cursor, received: seq<Record>, m: nat, n: nat, e: nat, o: Outcome)
    requires CollisionFree(u.h) && Linked(u.h, rows)
    requires Holds(u, received, rows, m) && n <= m && n < e <= |rows| && At(c, rows, n)
    ensures var p := ShipRows(Under(u, key), u.instance, rows[n..e], c, received, o);
            && Extended(u, key, received, p.received, rows, m, Max(m, Arrived(n, e, o)))
            && p.status == (if o.Delivered? then Sent else SendFailed)
            && At(p.cursor, rows, if o.Delivered? then e else n)
            && p.sent == if o.Delivered? then e - n else 0
  {
    hide Linked, CollisionFree, Fresh, Holds;
    NoBreakAt(u, rows, c, n, e);
    ResendAddsOnlyNew(u, key, received, rows, m, n, Arrived(n, e, o));
    match o
    case FailedAfter(a) =>
      TakeRecords(u, key, rows[n..e], a);
      TakeWindow(rows, n, e, a);
    case Delivered =>
  }

  /** What one batch does from a cursor that stands inside the delivered history: the
      copy stays a prefix of the chain, the cursor stays inside it, and it never sees a break. */
  lemma BatchDelivers(u: Setup, key: Option<Key>, rows: seq<Event>, bound: nat, c: Cursor, received: seq<Record>,
                      m: nat, n: nat, v: nat, o: Outcome)
    requires CollisionFree(u.h) && Linked(u.h, rows) && Ascending(rows) && Appends.IdsBelow(rows, bound)
    requires Holds(u, received, rows, m) && n <= m && At(c, rows, n) && v <= |rows|
    ensures var p := ShipBatch(Under(u, key), u.instance, rows[..v], c, received, o);
            var e := BatchEnd(v, n);
            && Extended(u, key, received, p.received, rows, m, Max(m, Arrived(n, e, o)))
            && p.status == (if e == n then NothingToSend else if o.Delivered? then Sent else SendFailed)
            && At(p.cursor, rows, if o.Delivered? then e else n)
            && p.sent == if o.Delivered? then e - n else 0
  {
    BatchRows(rows, bound, c, n, v);
    if n < BatchEnd(v, n) {
      RowsDeliver(u, key, rows, c, received, m, n, BatchEnd(v, n), o);
    } else {
      assert Arrived(n, n, o) == n && rows[m..m] == [] && Fresh(received) == Fresh(received) + Sealed(u, key, rows[m..m]);
    }
  }

  lemma CoveredGrows(c: Cursor, rows: seq<Event>, rows': seq<Event>, m: nat, m': nat)
    requires Covered(c, rows, m) && m <= |rows| && rows <= rows' && m <= m'
    ensures Covered(c, rows', m')
  {
    var n :| 0 <= n <= m && At(c, rows, n);
    assert At(c, rows', n);
  }

  /** A batch adds records it sealed with its own key; nothing else touches the copy. */
  ghost predicate Grows(u: Setup, w: World, step: Step) {
    var w' := Next(u, w, step);
    var m, n := |Fresh(w.received)|, |Fresh(w'.received)|;
    if step.Batch? then
      && w.received <= w'.received && m <= n <= |w.audit.committed|
      && Fresh(w'.received) == Fresh(w.received) + Sealed(u, step.key, w.audit.committed[m..n])
    else w'.received == w.received
  }

  lemma BatchKeeps(u: Setup, w: World, s: nat, o: Outcome, view: nat, key: Option<Key>)
    requires CollisionFree(u.h) && Inv(u, w) && s in w.sessions
    ensures Inv(u, Next(u, w, Batch(s, o, view, key))) && Grows(u, w, Batch(s, o, view, key))
  {
    var w' := Next(u, w, Batch(s, o, view, key));
    var rows, m := w.audit.committed, |Fresh(w.received)|;
    var n :| 0 <= n <= m && At(w.sessions[s], rows, n);
    var v := if view <= |rows| then view else |rows|;
    assert Take(rows, view) == rows[..v];
    BatchDelivers(u, key, rows, w.audit.nextId, w.sessions[s], w.received, m, n, v, o);
    var m' := Max(m, Arrived(n, BatchEnd(v, n), o));
    assert |Fresh(w'.received)| == m';
    CoveredGrows(w.cursor, rows, rows, m, m');
    forall t | t in w'.sessions ensures Covered(w'.sessions[t], rows, m') {
      if t != s { CoveredGrows(w.sessions[t], rows, rows, m, m'); }
    }
  }

  lemma StepKeeps(u: Setup, w: World, step: Step)
    requires CollisionFree(u.h) && Inv(u, w)
    ensures Inv(u, Next(u, w, step)) && Grows(u, w, step)
  {
    var w' := Next(u, w, step);
    var rows, m := w.audit.committed, |Fresh(w.received)|;
    match step
    case Audit(a) =>
      Appends.StepKeeps(u.h, w.audit, a);
      assert w'.audit.committed[..m] == rows[..m];
      CoveredGrows(w.cursor, rows, w'.audit.committed, m, m);
      forall n | n in w.sessions ensures Covered(w.sessions[n], w'.audit.committed, m) {
        CoveredGrows(w.sessions[n], rows, w'.audit.committed, m, m);
      }
    case Begin(n) =>
    case Batch(s, o, view, key) =>
      if s in w.sessions { BatchKeeps(u, w, s, o, view, key); } else { assert rows[m..m] == []; }
    case End(n, commit) =>
  }

  lemma {:induction false} RunKeeps(u: Setup, steps: seq<Step>)
    requires CollisionFree(u.h)
    ensures Inv(u, Run(u, steps))
  {
    if steps == [] {
      assert At(START.cursor, [], 0);
    } else {
      RunKeeps(u, steps[..|steps| - 1]);
      StepKeeps(u, Run(u, steps[..|steps| - 1]), steps[|steps| - 1]);
    }
  }

  // ------------------------------------------------------------ what the receiver gets

  /** Every MAC of the copy was made with `key`. */
  ghost predicate MadeWith(u: Setup, key: Key, kept: seq<Record>) {
    forall i :: 0 <= i < |kept| ==> kept[i].mac == Some(u.keys.hmac(key, kept[i].ev, u.instance))
  }

  /** A copy of a chain passes the check exactly when every MAC was made with the key that checks it. */
  lemma {:induction false} CopyPassesIff(u: Setup, now: Option<Key>, c: Checks, kept: seq<Record>, rows: seq<Event>)
    requires Genuine(u.keys) && Linked(u.h, rows) && Copies(u, kept, rows)
    ensures Problems(u.h, Under(u, now), c, kept) == [] <==> (c.mac && now.Some? ==> MadeWith(u, now.value, kept))
  {
    if kept != [] {
      var n := |kept| - 1;
      LinkedPrefix(u.h, rows, n);
      CopyPassesIff(u, now, c, kept[..n], rows[..n]);
      assert LinkAt(u.h, rows, n) && Carries(u, kept[n], rows[n]);
      assert u.keys.checks(rows[n], u.instance, u.keys.sign(rows[n], u.instance));
      assert kept == kept[..n] + [kept[n]];
    }
  }

  /** Step `n` of the run is a batch that brings the receiver events it did not have. */
  ghost predicate DeliversNew(u: Setup, steps: seq<Step>, n: nat) {
    && n < |steps| && steps[n].Batch?
    && |Fresh(Run(u, steps[..n]).received)| < |Fresh(Run(u, steps[..n + 1]).received)|
  }

  /** Every event reached the receiver first in a batch of a process with this seal key. */
  ghost predicate SentUnder(u: Setup, steps: seq<Step>, key: Key) {
    forall n: nat {:trigger DeliversNew(u, steps, n)} :: DeliversNew(u, steps, n) ==> steps[n].key == Some(key)
  }

  lemma SentUnderSnoc(u: Setup, steps: seq<Step>, key: Key)
    requires steps != []
    ensures var n := |steps| - 1;
            SentUnder(u, steps, key) <==> SentUnder(u, steps[..n], key) && (DeliversNew(u, steps, n) ==> steps[n].key == Some(key))
  {
    var n := |steps| - 1;
    forall i: nat | i < n ensures DeliversNew(u, steps, i) <==> DeliversNew(u, steps[..n], i) {
      assert steps[..n][..i] == steps[..i] && steps[..n][..i + 1] == steps[..i + 1];
    }
  }

  lemma MadeWithMore(u: Setup, key: Key, kept: seq<Record>, made: Option<Key>, evs: seq<Event>)
    requires Genuine(u.keys)
    ensures MadeWith(u, key, kept + Sealed(u, made, evs)) <==> MadeWith(u, key, kept) && (evs != [] ==> made == Some(key))
  {
    var all, more := kept + Sealed(u, made, evs), Sealed(u, made, evs);
    if MadeWith(u, key, all) {
      forall i | 0 <= i < |kept| ensures kept[i].mac == Some(u.keys.hmac(key, kept[i].ev, u.instance)) { assert all[i] == kept[i]; }
      if evs != [] { assert all[|kept|] == more[0]; }
    }
  }

  lemma {:induction false} MadeWithIff(u: Setup, steps: seq<Step>, key: Key)
    requires CollisionFree(u.h) && Genuine(u.keys)
    ensures MadeWith(u, key, Fresh(Run(u, steps).received)) <==> SentUnder(u, steps, key)
  {
    hide CollisionFree, Genuine, Inv, Next, Fresh;
    if steps == [] {
      NothingYet(u, key);
    } else {
      var n := |steps| - 1;
      var w, step := Run(u, steps[..n]), steps[n];
      MadeWithIff(u, steps[..n], key);
      RunKeeps(u, steps[..n]);
      StepKeeps(u, w, step);
      SentUnderSnoc(u, steps, key);
      assert steps[..n + 1] == steps;
      if step.Batch? {
        MadeWithMore(u, key, Fresh(w.received), step.key, w.audit.committed[|Fresh(w.received)|..|Fresh(Next(u, w, step).received)|]);
      }
    }
  }

  lemma NothingYet(u: Setup, key: Key)
    ensures MadeWith(u, key, Fresh(START.received)) && SentUnder(u, [], key)
  {}

  /** The copy without repeats is a prefix of the chain that reaches the cursor. */
  ghost predicate Refines(u: Setup, w: World) {
    var rows, m := w.audit.committed, |Fresh(w.received)|;
    && Holds(u, w.received, rows, m)
    && forall i :: 0 <= i < |rows| && rows[i].id <= w.cursor.lastId ==> i < m
  }

  /** Shipping refines the chain. After any run, the receiver's copy with repeats dropped
      is a prefix of the audit chain from its first event, every record signed, and every
      event up to the committed cursor is in it. `VerifyRecords` finds nothing wrong with it
      exactly when it does not check MACs or every event first arrived sealed with its key. */
  lemma ShippingRefinesTheChain(u: Setup, now: Option<Key>, c: Checks, steps: seq<Step>)
    requires CollisionFree(u.h) && Genuine(u.keys)
    ensures Refines(u, Run(u, steps))
    ensures Problems(u.h, Under(u, now), c, Fresh(Run(u, steps).received)) == []
            <==> (c.mac && now.Some? ==> SentUnder(u, steps, now.value))
  {
    hide Next, Fresh, CollisionFree, Genuine, Problems;
    RunKeeps(u, steps);
    var w := Run(u, steps);
    var rows, m := w.audit.committed, |Fresh(w.received)|;
    LinkedPrefix(u.h, rows, m);
    CopyPassesIff(u, now, c, Fresh(w.received), rows[..m]);
    if now.Some? { MadeWithIff(u, steps, now.value); }
    var n :| 0 <= n <= m && At(w.cursor, rows, n);
  }

  /** An event shipped under one seal key, checked under another: the genuine copy of an
      unchanged table is reported as not from this host. */
  lemma RotatedKeyRefusesTheCopy(u: Setup, made: Option<Key>, now: Key, sig: bool, body: Body)
    requires CollisionFree(u.h) && Genuine(u.keys) && made != Some(now)
    ensures var steps := [Audit(Appends.Append(0, body, 0)), Audit(Appends.Commit(0)), Begin(0), Batch(0, Delivered, 1, made)];
            var ev := Event(1, body, GENESIS, u.h(GENESIS, body));
            && Run(u, steps).audit.committed == [ev] && Run(u, steps).received == Sealed(u, made, [ev])
            && Problems(u.h, Under(u, Some(now)), Checks(true, sig), Fresh(Run(u, steps).received)) == [(1, Problem.MacDoesNotVerify)]
  {
    hide *;
    var ev := Event(1, body, GENESIS, u.h(GENESIS, body));
    RunShips(u, made, body);
    OneRecord(u, made, now, sig, ev);
  }

  lemma RunShips(u: Setup, made: Option<Key>, body: Body)
    ensures var steps := [Audit(Appends.Append(0, body, 0)), Audit(Appends.Commit(0)), Begin(0), Batch(0, Delivered, 1, made)];
            var ev := Event(1, body, GENESIS, u.h(GENESIS, body));
            Run(u, steps).audit.committed == [ev] && Run(u, steps).received == Sealed(u, made, [ev])
  {
    hide Run, ShipBatch, Sealed;
    var ev := Event(1, body, GENESIS, u.h(GENESIS, body));
    RunAppends(u, body);
    ShipOne(u, made, ev);
    var appends := [Audit(Appends.Append(0, body, 0)), Audit(Appends.Commit(0))];
    RunSnoc(u, appends, Begin(0));
    RunSnoc(u, appends + [Begin(0)], Batch(0, Delivered, 1, made));
    assert appends + [Begin(0)] + [Batch(0, Delivered, 1, made)]
        == [Audit(Appends.Append(0, body, 0)), Audit(Appends.Commit(0)), Begin(0), Batch(0, Delivered, 1, made)];
  }

  lemma RunSnoc(u: Setup, steps: seq<Step>, step: Step)
    ensures Run(u, steps + [step]) == Next(u, Run(u, steps), step)
  {
    assert (steps + [step])[..|steps|] == steps;
  }

  lemma RunAppends(u: Setup, body: Body)
    ensures var ev := Event(1, body, GENESIS, u.h(GENESIS, body));
            Run(u, [Audit(Appends.Append(0, body, 0)), Audit(Appends.Commit(0))]) == START.(audit := Appends.Table([ev], map[], 2))
  {
    var ev := Event(1, body, GENESIS, u.h(GENESIS, body));
    var first: Step := Audit(Appends.Append(0, body, 0));
    RunSnoc(u, [], first);
    RunSnoc(u, [first], Audit(Appends.Commit(0)));
    assert [] + [first] == [first] && [first] + [Audit(Appends.Commit(0))] == [first, Audit(Appends.Commit(0))];
    AppendOne(u, ev);
    CommitOne(u, ev);
  }

  lemma AppendOne(u: Setup, ev: Event)
    requires ev == Event(1, ev.body, GENESIS, u.h(GENESIS, ev.body))
    ensures Appends.Next(u.h, Appends.EMPTY, Appends.Append(0, ev.body, 0)) == Appends.Table([], map[0 := Appends.Tx([ev], [0])], 2)
  {
    var none: seq<Event> := [];
    var seen: seq<nat> := [];
    assert none[..0] == none && none + [ev] == [ev] && seen + [0] == [0];
  }

  lemma CommitOne(u: Setup, ev: Event)
    ensures Appends.Next(u.h, Appends.Table([], map[0 := Appends.Tx([ev], [0])], 2), Appends.Commit(0)) == Appends.Table([ev], map[], 2)
  {
    var rows := [ev];
    assert rows[..0] == [] && rows[..|rows| - 1] == [];
    assert Appends.InsertAll([], []) == [] && Appends.InsertById([], ev) == rows;
    assert !Appends.Conflict([], rows);
    assert map[0 := Appends.Tx(rows, [0])] - {0} == map[];
  }

  lemma ShipOne(u: Setup, made: Option<Key>, ev: Event)
    requires ev.id == 1
    ensures var p := ShipBatch(Under(u, made), u.instance, Take([ev], 1), Cursor(0, None), [], Delivered);
            p.received == Sealed(u, made, [ev])
  {
    var rows := [ev];
    assert rows[..|rows| - 1] == [] && After(rows, 0) == [ev];
  }

  lemma OneRecord(u: Setup, made: Option<Key>, now: Key, sig: bool, ev: Event)
    requires Genuine(u.keys) && made != Some(now) && ev.hash == u.h(ev.prev, ev.body)
    ensures Problems(u.h, Under(u, Some(now)), Checks(true, sig), Fresh(Sealed(u, made, [ev]))) == [(ev.id, Problem.MacDoesNotVerify)]
  {
    var r := ToRecord(Under(u, made), u.instance, ev);
    assert Sealed(u, made, [ev]) == [r];
    assert [r] == [] + [r];
    FreshAppend([], r);
    OneMoreKept(u.h, Under(u, Some(now)), Checks(true, sig), [], r);
    RefusedRecord(u, made, now, sig, ev);
  }

  lemma RefusedRecord(u: Setup, made: Option<Key>, now: Key, sig: bool, ev: Event)
    requires Genuine(u.keys) && made != Some(now) && ev.hash == u.h(ev.prev, ev.body)
    ensures RecordProblems(u.h, Under(u, Some(now)), Checks(true, sig), ToRecord(Under(u, made), u.instance, ev), None)
         == [(ev.id, Problem.MacDoesNotVerify)]
  {
    assert u.keys.checks(ev, u.instance, u.keys.sign(ev, u.instance));
  }

  /** Whoever can write to the sink but holds no signing key: a record that recomputes and links,
      unsigned or with a signature that does not check, is refused, wherever it stands. */
  lemma ForgedRecordIsRefused(h: Digest, k: Keys, mac: bool, kept: seq<Record>, i: nat)
    requires i < |kept| && (kept[i].sig.Some? ==> !k.checks(kept[i].ev, kept[i].instance, kept[i].sig.value))
    ensures (kept[i].ev.id, SignatureDoesNotVerify) in Problems(h, k, Checks(mac, true), kept)
  {
    ProblemsSay(h, k, Checks(mac, true), kept, kept[i].ev.id, SignatureDoesNotVerify);
    assert Has(h, k, Checks(mac, true), kept, i, SignatureDoesNotVerify);
  }

  /** One pass of a shipping process: a session reads the cursor, sends a batch, and keeps or loses its progress. */
  function OnePass(n: nat, view: nat, key: Option<Key>, commit: bool): seq<Step> {
    [Begin(n), Batch(n, Delivered, view, key), End(n, commit)]
  }

  lemma PassRuns(u: Setup, steps: seq<Step>, n: nat, view: nat, key: Option<Key>, commit: bool)
    ensures var w := Run(u, steps);
            var p := ShipBatch(Under(u, key), u.instance, Take(w.audit.committed, view), w.cursor, w.received, Delivered);
            Run(u, steps + OnePass(n, view, key, commit)) ==
              w.(cursor := if commit then p.cursor else w.cursor, sessions := w.sessions - {n}, received := p.received)
  {
    hide Run, ShipBatch;
    RunSnoc(u, steps, Begin(n));
    RunSnoc(u, steps + [Begin(n)], Batch(n, Delivered, view, key));
    RunSnoc(u, steps + [Begin(n)] + [Batch(n, Delivered, view, key)], End(n, commit));
    assert steps + OnePass(n, view, key, commit) == steps + [Begin(n)] + [Batch(n, Delivered, view, key)] + [End(n, commit)];
    var w := Run(u, steps);
    var p := ShipBatch(Under(u, key), u.instance, Take(w.audit.committed, view), w.cursor, w.received, Delivered);
    assert w.sessions[n := w.cursor][n := p.cursor] - {n} == w.sessions - {n};
  }

  /** From the cursor of `w` to `c`: the rows of one batch of what the process could see. */
  ghost predicate MovesOn(w: World, c: Cursor, view: nat) {
    exists n :: 0 <= n && At(w.cursor, w.audit.committed, n) && At(c, w.audit.committed, BatchEnd(|Take(w.audit.committed, view)|, n))
  }

  /** At least once: a pass that is committed moves the cursor over the rows it sent. One that is rolled
      back leaves it, so they are sent again, and the receiver, who skips what it has, is where it was. */
  lemma RolledBackIsSentAgain(u: Setup, steps: seq<Step>, n: nat, view: nat, key: Option<Key>)
    requires CollisionFree(u.h)
    ensures var w, once, back := Run(u, steps), Run(u, steps + OnePass(n, view, key, true)), Run(u, steps + OnePass(n, view, key, false));
            var again := Run(u, steps + OnePass(n, view, key, false) + OnePass(n, view, key, true));
            && MovesOn(w, once.cursor, view) && back.cursor == w.cursor && again.cursor == once.cursor
            && back.received == once.received && |again.received| - |back.received| == |back.received| - |w.received|
            && Fresh(again.received) == Fresh(once.received)
            && n !in once.sessions && n !in back.sessions && n !in again.sessions
  {
    hide Run, Fresh, CollisionFree, ShipBatch, Inv, Next, MovesOn;
    PassRuns(u, steps, n, view, key, true);
    PassRuns(u, steps, n, view, key, false);
    PassRuns(u, steps + OnePass(n, view, key, false), n, view, key, true);
    RunKeeps(u, steps);
    SentTwice(u, Run(u, steps), view, key);
  }

  /** The same batch sent twice from one cursor. */
  lemma SentTwice(u: Setup, w: World, view: nat, key: Option<Key>)
    requires CollisionFree(u.h) && Inv(u, w)
    ensures var seen := Take(w.audit.committed, view);
            var p := ShipBatch(Under(u, key), u.instance, seen, w.cursor, w.received, Delivered);
            var q := ShipBatch(Under(u, key), u.instance, seen, w.cursor, p.received, Delivered);
            && MovesOn(w, p.cursor, view) && q.cursor == p.cursor && Fresh(q.received) == Fresh(p.received)
            && |q.received| - |p.received| == |p.received| - |w.received|
  {
    hide Fresh, CollisionFree, ShipBatch, Linked, Ascending, Copies;
    var rows, m := w.audit.committed, |Fresh(w.received)|;
    var k :| 0 <= k <= m && At(w.cursor, rows, k);
    var v := if view <= |rows| then view else |rows|;
    assert Take(rows, view) == rows[..v];
    var e := BatchEnd(v, k);
    BatchDelivers(u, key, rows, w.audit.nextId, w.cursor, w.received, m, k, v, Delivered);
    var p := ShipBatch(Under(u, key), u.instance, rows[..v], w.cursor, w.received, Delivered);
    BatchDelivers(u, key, rows, w.audit.nextId, w.cursor, p.received, Max(m, e), k, v, Delivered);
    BatchAdds(u, key, rows[..v], w.cursor, w.received);
    BatchAdds(u, key, rows[..v], w.cursor, p.received);
    assert rows[Max(m, e)..Max(m, e)] == [];
  }

  lemma BatchAdds(u: Setup, key: Option<Key>, view: seq<Event>, c: Cursor, received: seq<Record>)
    ensures var p := ShipBatch(Under(u, key), u.instance, view, c, received, Delivered);
            p.status != ChainBreak ==> |p.received| == |received| + |Take(After(view, c.lastId), BATCH)|
  {}

  /** The sender never mistakes its own history for a rewritten one, however old the rows it reads. */
  lemma HonestRunNeverBreaks(u: Setup, steps: seq<Step>, session: nat, o: Outcome, view: nat, key: Option<Key>)
    requires CollisionFree(u.h) && session in Run(u, steps).sessions
    ensures var w := Run(u, steps);
            ShipBatch(Under(u, key), u.instance, Take(w.audit.committed, view), w.sessions[session], w.received, o).status != ChainBreak
  {
    RunKeeps(u, steps);
    var w := Run(u, steps);
    var rows, m := w.audit.committed, |Fresh(w.received)|;
    var n :| 0 <= n <= m && At(w.sessions[session], rows, n);
    var v := if view <= |rows| then view else |rows|;
    assert Take(rows, view) == rows[..v];
    BatchDelivers(u, key, rows, w.audit.nextId, w.sessions[session], w.received, m, n, v, o);
  }

  /** A batch of the call sees at least the first `goal` rows, and arrives. */
  ghost predicate ReachesGoal(view: seq<Event>, o: Outcome, rows: seq<Event>, goal: nat) {
    goal <= |view| && view <= rows && o == Delivered
  }

  ghost predicate AllReach(views: seq<seq<Event>>, outcomes: seq<Outcome>, rows: seq<Event>, goal: nat) {
    && |views| == |outcomes|
    && forall i :: 0 <= i < |views| ==> ReachesGoal(views[i], outcomes[i], rows, goal)
  }

  /** A batch never sends more than five hundred events. */
  lemma BatchIsBounded(u: Setup, key: Option<Key>, view: seq<Event>, c: Cursor, received: seq<Record>, o: Outcome)
    ensures var p := ShipBatch(Under(u, key), u.instance, view, c, received, o);
            p.sent <= 500 && |p.received| <= |received| + 500
  {}

  /** One call of `Sink.Ship` with enough batches, none of which fails, brings the receiver
      everything that each batch could see, however differently far they could see. */
  lemma {:induction false} ShipCatchesUp(u: Setup, key: Option<Key>, rows: seq<Event>, bound: nat, views: seq<seq<Event>>,
                                         outcomes: seq<Outcome>, b: nat, p: Pass, m: nat, n: nat, goal: nat)
    requires CollisionFree(u.h) && Linked(u.h, rows) && Ascending(rows) && Appends.IdsBelow(rows, bound)
    requires AllReach(views, outcomes, rows, goal) && b <= |views|
    requires Holds(u, p.received, rows, m) && n <= m && At(p.cursor, rows, n)
    requires goal - n <= (|views| - b) * 500
    ensures var received := ShipFrom(Under(u, key), u.instance, views, outcomes, b, p).received;
            goal <= |Fresh(received)| && Holds(u, received, rows, |Fresh(received)|)
    decreases |views| - b
  {
    hide Linked, Ascending, CollisionFree, ShipBatch;
    if b < |views| {
      assert ReachesGoal(views[b], outcomes[b], rows, goal);
      var v := |views[b]|;
      assert views[b] == rows[..v];
      var q := ShipBatch(Under(u, key), u.instance, views[b], p.cursor, p.received, outcomes[b]);
      BatchDelivers(u, key, rows, bound, p.cursor, p.received, m, n, v, outcomes[b]);
      var e := BatchEnd(v, n);
      if n < e {
        assert goal - e <= (|views| - (b + 1)) * BATCH;
        ShipCatchesUp(u, key, rows, bound, views, outcomes, b + 1, q.(sent := p.sent + q.sent), Max(m, e), e, goal);
      }
    }
  }

  // ------------------------------------------------------------ rewritten tables

  /** After `shipped` went out, somebody replaces the table by any other valid chain. The
      next batch is sent exactly when the new chain still has the shipped events, in the
      same order, before the first row past the cursor. */
  lemma RewriteStopsTheShipper(u: Setup, key: Option<Key>, shipped: seq<Event>, c: Cursor, table: seq<Event>,
                               received: seq<Record>, o: Outcome)
    requires CollisionFree(u.h)
    requires shipped != [] && Linked(u.h, shipped) && At(c, shipped, |shipped|)
    requires Linked(u.h, table) && Ascending(table) && After(table, c.lastId) != []
    ensures var p := ShipBatch(Under(u, key), u.instance, table, c, received, o);
            var n := |table| - |After(table, c.lastId)|;
            && 0 <= n && After(table, c.lastId) == table[n..]
            && (p.status != ChainBreak <==> SameBodies(table[..n], shipped))
            && (p.status == ChainBreak ==> p.received == received)
  {
    var n := AfterIsSuffix(table, c.lastId);
    var first := table[n..][0];
    assert LinkAt(u.h, table, n);
    LinkedPrefix(u.h, table, n);
    if first.prev == HeadHash(shipped) {
      HeadPinsHistory(u.h, table[..n], shipped);
    }
  }

  lemma {:induction false} AfterIsSuffix(rows: seq<Event>, id: nat) returns (n: nat)
    requires Ascending(rows)
    ensures n <= |rows| && After(rows, id) == rows[n..]
  {
    n := 0;
    if rows != [] {
      var init := rows[..|rows| - 1];
      n := AfterIsSuffix(init, id);
      if rows[|rows| - 1].id > id {
        assert rows[n..] == init[n..] + [rows[|rows| - 1]];
      } else {
        NothingAfter(init, id);
        n := |rows|;
      }
    }
  }

  function Events(records: seq<Record>): (r: seq<Event>)
    ensures |r| == |records| && forall i :: 0 <= i < |r| ==> r[i] == records[i].ev
  {
    if records == [] then [] else Events(records[..|records| - 1]) + [records[|records| - 1].ev]
  }

  /** A copy that passes the check from the genesis marker on is one linked chain. */
  lemma {:induction false} ValidCopyIsAChain(h: Digest, k: Keys, c: Checks, kept: seq<Record>)
    requires Problems(h, k, c, kept) == []
    requires kept != [] ==> kept[0].ev.prev == GENESIS
    ensures Linked(h, Events(kept))
  {
    if kept != [] {
      var n := |kept| - 1;
      ValidCopyIsAChain(h, k, c, kept[..n]);
      assert RecordProblems(h, k, c, kept[n], LastHash(kept[..n])) == [];
      LinkedAppend(h, Events(kept[..n]), kept[n].ev);
    }
  }

  /** Whatever happened to the database or on the way, two copies that each pass some check
      from genesis, under whatever keys, and end in the same hash hold the same events: an edited, dropped,
      inserted or reordered record cannot hide behind the hash of an honest copy. */
  lemma ValidCopiesAgree(h: Digest, k: Keys, c: Checks, a: seq<Record>, l: Keys, d: Checks, b: seq<Record>)
    requires CollisionFree(h)
    requires Problems(h, k, c, a) == [] && Problems(h, l, d, b) == []
    requires a != [] && a[0].ev.prev == GENESIS && b != [] && b[0].ev.prev == GENESIS
    requires LastHash(a) == LastHash(b)
    ensures SameBodies(Events(a), Events(b))
  {
    ValidCopyIsAChain(h, k, c, a);
    ValidCopyIsAChain(h, l, d, b);
    HeadPinsHistory(h, Events(a), Events(b));
  }
}
