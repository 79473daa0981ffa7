/** Concurrent appends to the audit chain (audit/log.py `record`, db.py `AuditEvent.prev_hash`).

    Any number of transactions read a head, append one or more events, and then commit
    or roll back. Reads may be stale: each sees some prefix of the committed rows plus
    the transaction's own rows. The only guard is the unique column `prev_hash`, which
    makes a commit fail when one of its values is already taken. */
module AuditAppends {
  import opened AuditChain

  /** An open transaction: its rows, and how many committed rows were visible when each was added. */
  datatype Tx = Tx(rows: seq<Event>, seen: seq<nat>)

  datatype Table = Table(committed: seq<Event>, open: map<nat, Tx>, nextId: nat)

  datatype Step =
    | Append(tx: nat, body: Body, visible: nat)
    | Commit(tx: nat)
    | Rollback(tx: nat)

  const EMPTY := Table([], map[], 1)

  function TxOf(s: Table, t: nat): Tx {
    if t in s.open then s.open[t] else Tx([], [])
  }

  /** The hash of the visible row with the greatest id. */
  function VisibleHead(committed: seq<Event>, own: seq<Event>): Hash {
    if own == [] then HeadHash(committed)
    else if committed != [] && committed[|committed| - 1].id > own[|own| - 1].id then HeadHash(committed)
    else HeadHash(own)
  }

  /** Whether the unique column refuses these rows. */
  predicate Conflict(committed: seq<Event>, rows: seq<Event>) {
    exists i :: 0 <= i < |rows| && (Taken(committed, rows[i].prev) || Taken(rows[..i], rows[i].prev))
  }

  predicate Taken(rows: seq<Event>, prev: Hash) {
    exists j :: 0 <= j < |rows| && rows[j].prev == prev
  }

  /** Where a row lands when the table is read in id order. */
  function InsertById(rows: seq<Event>, ev: Event): seq<Event> {
    if rows == [] || rows[|rows| - 1].id < ev.id then rows + [ev]
    else InsertById(rows[..|rows| - 1], ev) + [rows[|rows| - 1]]
  }

  function InsertAll(rows: seq<Event>, more: seq<Event>): seq<Event> {
    if more == [] then rows else InsertById(InsertAll(rows, more[..|more| - 1]), more[|more| - 1])
  }

  function Next(h: Digest, s: Table, step: Step): Table {
    match step
    case Append(t, body, visible) =>
      var n := if visible <= |s.committed| then visible else |s.committed|;
      var tx := TxOf(s, t);
      var prev := VisibleHead(s.committed[..n], tx.rows);
      var ev := Event(s.nextId, body, prev, h(prev, body));
      s.(open := s.open[t := Tx(tx.rows + [ev], tx.seen + [n])], nextId := s.nextId + 1)
    case Commit(t) =>
      var rows := TxOf(s, t).rows;
      if Conflict(s.committed, rows) then s.(open := s.open - {t})
      else s.(committed := InsertAll(s.committed, rows), open := s.open - {t})
    case Rollback(t) => s.(open := s.open - {t})
  }

  function Run(h: Digest, s: Table, steps: seq<Step>): Table {
    if steps == [] then s else Next(h, Run(h, s, steps[..|steps| - 1]), steps[|steps| - 1])
  }

  // ------------------------------------------------------------ invariant

  ghost predicate IdsBelow(rows: seq<Event>, bound: nat) {
    forall i :: 0 <= i < |rows| ==> 0 < rows[i].id < bound
  }

  /** Row `i` links to the head its transaction saw when the row was added. */
  ghost predicate RowOk(h: Digest, committed: seq<Event>, tx: Tx, i: nat) {
    && i < |tx.rows| == |tx.seen|
    && tx.rows[i].hash == h(tx.rows[i].prev, tx.rows[i].body)
    && tx.seen[i] <= |committed|
    && tx.rows[i].prev == VisibleHead(committed[..tx.seen[i]], tx.rows[..i])
    && IdsBelow(committed[..tx.seen[i]], tx.rows[i].id)
  }

  ghost predicate TxOk(h: Digest, committed: seq<Event>, nextId: nat, tx: Tx) {
    && |tx.rows| == |tx.seen|
    && Ascending(tx.rows) && IdsBelow(tx.rows, nextId)
    && forall i {:trigger RowOk(h, committed, tx, i)} :: 0 <= i < |tx.rows| ==> RowOk(h, committed, tx, i)
  }

  ghost predicate Inv(h: Digest, s: Table) {
    && 0 < s.nextId
    && Linked(h, s.committed) && Ascending(s.committed) && IdsBelow(s.committed, s.nextId)
    && forall t :: t in s.open ==> TxOk(h, s.committed, s.nextId, s.open[t])
  }

  // ------------------------------------------------------------ proofs

  /** If the unique column lets a row through, only the first row can link to the
      committed table, and what it links to is the table's current head. */
  lemma LinksToHead(h: Digest, committed: seq<Event>, nextId: nat, tx: Tx, i: nat)
    requires Linked(h, committed) && TxOk(h, committed, nextId, tx) && !Conflict(committed, tx.rows)
    requires i < |tx.rows|
    ensures i == 0 ==> tx.rows[0].prev == HeadHash(committed) && IdsBelow(committed, tx.rows[0].id)
    ensures 0 < i ==> tx.rows[i].prev == tx.rows[i - 1].hash
  {
    assert RowOk(h, committed, tx, i) && RowOk(h, committed, tx, 0);
    SawEverything(h, committed, tx, 0);
    if 0 < i && tx.rows[i].prev != tx.rows[i - 1].hash {
      SawEverything(h, committed, tx, i);
    }
  }

  lemma SawEverything(h: Digest, committed: seq<Event>, tx: Tx, i: nat)
    requires Linked(h, committed) && !Conflict(committed, tx.rows)
    requires i < |tx.rows| == |tx.seen| && RowOk(h, committed, tx, i)
    requires i == 0 || tx.rows[i].prev != tx.rows[i - 1].hash
    ensures committed[..tx.seen[i]] == committed
  {
    var n := tx.seen[i];
    if n < |committed| {
      assert LinkAt(h, committed, n);
      assert Taken(committed, tx.rows[i].prev);
    }
  }

  /** Each row of a transaction that may commit follows what is there when it is inserted. */
  lemma RowFollows(h: Digest, committed: seq<Event>, nextId: nat, tx: Tx, m: nat, before: seq<Event>)
    requires Linked(h, committed) && Ascending(committed)
    requires TxOk(h, committed, nextId, tx) && !Conflict(committed, tx.rows)
    requires m < |tx.rows| && before == committed + tx.rows[..m]
    ensures tx.rows[m].prev == HeadHash(before) && tx.rows[m].hash == h(tx.rows[m].prev, tx.rows[m].body)
    ensures forall j :: 0 <= j < |before| ==> before[j].id < tx.rows[m].id
  {
    LinksToHead(h, committed, nextId, tx, 0);
    LinksToHead(h, committed, nextId, tx, m);
    assert RowOk(h, committed, tx, m);
    if m == 0 { assert before == committed; }
  }

  lemma AppendInOrder(rows: seq<Event>, ev: Event)
    requires Ascending(rows) && forall j :: 0 <= j < |rows| ==> rows[j].id < ev.id
    ensures Ascending(rows + [ev]) && InsertById(rows, ev) == rows + [ev]
  {}

  lemma {:induction false} CommitAppends(h: Digest, committed: seq<Event>, nextId: nat, tx: Tx, n: nat)
    requires Linked(h, committed) && Ascending(committed)
    requires TxOk(h, committed, nextId, tx) && !Conflict(committed, tx.rows)
    requires n <= |tx.rows|
    ensures InsertAll(committed, tx.rows[..n]) == committed + tx.rows[..n]
    ensures Linked(h, committed + tx.rows[..n]) && Ascending(committed + tx.rows[..n])
  {
    if n == 0 {
      assert committed + tx.rows[..0] == committed;
    } else {
      var m := n - 1;
      var before := committed + tx.rows[..m];
      CommitAppends(h, committed, nextId, tx, m);
      RowFollows(h, committed, nextId, tx, m, before);
      assert tx.rows[..n][..m] == tx.rows[..m];
      assert committed + tx.rows[..n] == before + [tx.rows[m]];
      LinkedAppend(h, before, tx.rows[m]);
      AppendInOrder(before, tx.rows[m]);
    }
  }

  lemma TxSurvivesCommit(h: Digest, c: seq<Event>, more: seq<Event>, nextId: nat, tx: Tx)
    requires TxOk(h, c, nextId, tx)
    ensures TxOk(h, c + more, nextId, tx)
  {
    forall i | 0 <= i < |tx.rows| ensures RowOk(h, c + more, tx, i) {
      assert RowOk(h, c, tx, i);
      assert (c + more)[..tx.seen[i]] == c[..tx.seen[i]];
    }
  }

  lemma TxSurvivesAppend(h: Digest, c: seq<Event>, nextId: nat, tx: Tx)
    requires TxOk(h, c, nextId, tx)
    ensures TxOk(h, c, nextId + 1, tx)
  {
    forall i | 0 <= i < |tx.rows| ensures RowOk(h, c, tx, i) {}
  }

  lemma TxGrows(h: Digest, s: Table, t: nat, body: Body, n: nat)
    requires Inv(h, s) && n <= |s.committed|
    ensures var tx := TxOf(s, t);
            var prev := VisibleHead(s.committed[..n], tx.rows);
            TxOk(h, s.committed, s.nextId + 1, Tx(tx.rows + [Event(s.nextId, body, prev, h(prev, body))], tx.seen + [n]))
  {
    var tx := TxOf(s, t);
    var prev := VisibleHead(s.committed[..n], tx.rows);
    var tx' := Tx(tx.rows + [Event(s.nextId, body, prev, h(prev, body))], tx.seen + [n]);
    forall i | 0 <= i < |tx'.rows| ensures RowOk(h, s.committed, tx', i) {
      assert i < |tx.rows| ==> RowOk(h, s.committed, tx, i);
      assert tx'.rows[..i] == tx.rows[..i];
    }
  }

  /** One step keeps the invariant, and only ever appends to what is committed. */
  lemma StepKeeps(h: Digest, s: Table, step: Step)
    requires Inv(h, s)
    ensures Inv(h, Next(h, s, step))
    ensures s.committed <= Next(h, s, step).committed
  {
    var s' := Next(h, s, step);
    match step
    case Append(t, body, visible) =>
      TxGrows(h, s, t, body, if visible <= |s.committed| then visible else |s.committed|);
      forall u | u in s'.open ensures TxOk(h, s'.committed, s'.nextId, s'.open[u]) {
        if u != t { TxSurvivesAppend(h, s.committed, s.nextId, s.open[u]); }
      }
    case Commit(t) =>
      var tx := TxOf(s, t);
      if !Conflict(s.committed, tx.rows) {
        assert TxOk(h, s.committed, s.nextId, tx);
        CommitAppends(h, s.committed, s.nextId, tx, |tx.rows|);
        assert tx.rows[..|tx.rows|] == tx.rows;
        forall u | u in s'.open ensures TxOk(h, s'.committed, s'.nextId, s'.open[u]) {
          TxSurvivesCommit(h, s.committed, tx.rows, s.nextId, s.open[u]);
        }
      }
    case Rollback(t) =>
  }

  /** Concurrent appends never fork: after any interleaving, the committed table read in
      id order is one linked chain, so `VerifyChain` accepts it. */
  lemma {:induction false} AppendsNeverFork(h: Digest, steps: seq<Step>)
    ensures Inv(h, Run(h, EMPTY, steps))
    ensures Linked(h, Run(h, EMPTY, steps).committed) && Ascending(Run(h, EMPTY, steps).committed)
  {
    if steps != [] {
      AppendsNeverFork(h, steps[..|steps| - 1]);
      StepKeeps(h, Run(h, EMPTY, steps[..|steps| - 1]), steps[|steps| - 1]);
    }
  }

  /** When the commit goes through: exactly when nobody committed anything after the
      transaction read the head for its first row. Otherwise its rows are lost; either way it is over. */
  lemma CommitSucceedsIff(h: Digest, s: Table, t: nat)
    requires CollisionFree(h) && Inv(h, s) && t in s.open && s.open[t].rows != []
    ensures Next(h, s, Commit(t))
         == s.(committed := if s.open[t].seen[0] == |s.committed| then s.committed + s.open[t].rows else s.committed, open := s.open - {t})
    ensures !Conflict(s.committed, s.open[t].rows) <==> s.open[t].seen[0] == |s.committed|
  {
    var tx := s.open[t];
    assert RowOk(h, s.committed, tx, 0);
    if !Conflict(s.committed, tx.rows) {
      SawEverything(h, s.committed, tx, 0);
      CommitAppends(h, s.committed, s.nextId, tx, |tx.rows|);
      assert tx.rows[..|tx.rows|] == tx.rows;
    }
    if tx.seen[0] == |s.committed| {
      UndisturbedLinks(h, s.committed, s.nextId, tx, |tx.rows|);
      assert tx.rows[..|tx.rows|] == tx.rows;
      LinkedMeansNoConflict(h, s.committed, tx.rows);
    }
  }

  lemma {:induction false} UndisturbedLinks(h: Digest, c: seq<Event>, nextId: nat, tx: Tx, n: nat)
    requires Linked(h, c) && TxOk(h, c, nextId, tx) && n <= |tx.rows|
    requires tx.rows != [] && tx.seen[0] == |c|
    ensures Linked(h, c + tx.rows[..n])
  {
    if n == 0 {
      assert c + tx.rows[..0] == c;
    } else {
      UndisturbedLinks(h, c, nextId, tx, n - 1);
      assert RowOk(h, c, tx, 0) && RowOk(h, c, tx, n - 1);
      assert c[..|c|] == c;
      var before := c + tx.rows[..n - 1];
      assert HeadHash(before) == tx.rows[n - 1].prev;
      assert c + tx.rows[..n] == before + [tx.rows[n - 1]];
      LinkedAppend(h, before, tx.rows[n - 1]);
    }
  }

  lemma LinkedMeansNoConflict(h: Digest, c: seq<Event>, rows: seq<Event>)
    requires CollisionFree(h) && Linked(h, c + rows)
    ensures !Conflict(c, rows)
  {
    var all := c + rows;
    forall i | 0 <= i < |rows|
      ensures !Taken(c, rows[i].prev) && !Taken(rows[..i], rows[i].prev)
    {
      forall j | 0 <= j < |c| + i ensures all[j].prev != rows[i].prev {
        var k := |c| + i;
        assert LinkAt(h, all, j) && LinkAt(h, all, k);
        LinkedPrefix(h, all, j);
        LinkedPrefix(h, all, k);
        if all[j].prev == all[k].prev {
          HeadPinsHistory(h, all[..j], all[..k]);
        }
      }
      forall j | 0 <= j < |c| ensures c[j].prev != rows[i].prev { assert all[j] == c[j]; }
      forall j | 0 <= j < i ensures rows[j].prev != rows[i].prev { assert all[|c| + j] == rows[j]; }
    }
  }

  /** What was committed stays, in place: later steps only extend the chain, with greater ids. */
  lemma {:induction false} CommittedIsAppendOnly(h: Digest, steps: seq<Step>, n: nat)
    requires n <= |steps|
    ensures Run(h, EMPTY, steps[..n]).committed <= Run(h, EMPTY, steps).committed
    decreases |steps| - n
  {
    if n == |steps| {
      assert steps[..n] == steps;
    } else {
      AppendsNeverFork(h, steps[..n]);
      assert steps[..n + 1][..n] == steps[..n];
      StepKeeps(h, Run(h, EMPTY, steps[..n]), steps[n]);
      CommittedIsAppendOnly(h, steps, n + 1);
    }
  }
}
