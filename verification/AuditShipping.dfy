/** Shipping the audit chain off the host (audit/shipping.py): an at-least-once sender
    with one cursor per sink, and the offline check a receiver runs on its copy. */
module AuditShipping {
  import opened Prelude
  import opened AuditChain

  const BATCH: nat := 500

  // ------------------------------------------------------------ records

  datatype Record = Record(ev: Event, instance: string, mac: Option<string>, sig: Option<string>)

  /** A process's seal key, if it has one, the HMAC of a record's fields under a seal key, and
      the Ed25519 signature over them. */
  datatype Keys = Keys(seal: Option<Key>, hmac: (Key, Event, string) -> string, sign: (Event, string) -> string,
                       checks: (Event, string, string) -> bool)

  /** Genuine signatures check; different seal keys never make the same HMAC, and none is empty. */
  ghost predicate Genuine(k: Keys) {
    && (forall e, i :: k.checks(e, i, k.sign(e, i)))
    && (forall a, b, e, i :: k.hmac(a, e, i) == k.hmac(b, e, i) ==> a == b)
    && (forall a, e, i :: k.hmac(a, e, i) != "")
  }

  function Mac(k: Keys, ev: Event, instance: string): Option<string> {
    match k.seal
    case None => None
    case Some(key) => Some(k.hmac(key, ev, instance))
  }

  function ToRecord(k: Keys, instance: string, ev: Event): Record {
    Record(ev, instance, Mac(k, ev, instance), Some(k.sign(ev, instance)))
  }

  function ToRecords(k: Keys, instance: string, evs: seq<Event>): seq<Record> {
    seq(|evs|, i requires 0 <= i < |evs| => ToRecord(k, instance, evs[i]))
  }

  // ------------------------------------------------------------ the receiver's check

  datatype Problem = HashDoesNotRecompute | Gap | MacDoesNotVerify | SignatureDoesNotVerify

  datatype Checks = Checks(mac: bool, sig: bool)

  /** What is wrong with one record, given the hash of the one before it. MACs are checked
      under the current seal key only, and not at all without one. */
  function RecordProblems(h: Digest, k: Keys, c: Checks, rec: Record, prev: Option<Hash>): seq<(nat, Problem)> {
    (if h(rec.ev.prev, rec.ev.body) != rec.ev.hash then [(rec.ev.id, HashDoesNotRecompute)] else [])
    + (if prev.Some? && rec.ev.prev != prev.value then [(rec.ev.id, Gap)] else [])
    + (if c.mac && k.seal.Some? && (rec.mac.None? || rec.mac.value == "" || Mac(k, rec.ev, rec.instance) != rec.mac)
       then [(rec.ev.id, Problem.MacDoesNotVerify)] else [])
    + (if c.sig && !(rec.sig.Some? && k.checks(rec.ev, rec.instance, rec.sig.value))
       then [(rec.ev.id, SignatureDoesNotVerify)] else [])
  }

  /** The records left when a hash already seen is skipped. */
  function Fresh(records: seq<Record>): seq<Record> {
    if records == [] then []
    else
      var before, r := records[..|records| - 1], records[|records| - 1];
      Fresh(before) + if Seen(before, r.ev.hash) then [] else [r]
  }

  predicate Seen(records: seq<Record>, hash: Hash) {
    exists i :: 0 <= i < |records| && records[i].ev.hash == hash
  }

  function LastHash(records: seq<Record>): Option<Hash> {
    if records == [] then None else Some(records[|records| - 1].ev.hash)
  }

  function Problems(h: Digest, k: Keys, c: Checks, kept: seq<Record>): seq<(nat, Problem)> {
    if kept == [] then []
    else
      var before := kept[..|kept| - 1];
      Problems(h, k, c, before) + RecordProblems(h, k, c, kept[|kept| - 1], LastHash(before))
  }

  /** What each problem means for the `i`th record that was kept. */
  ghost predicate Has(h: Digest, k: Keys, c: Checks, kept: seq<Record>, i: int, p: Problem) {
    0 <= i < |kept| &&
    var r := kept[i];
    match p
    case HashDoesNotRecompute => r.ev.hash != h(r.ev.prev, r.ev.body)
    case Gap => i > 0 && r.ev.prev != kept[i - 1].ev.hash
    case MacDoesNotVerify => c.mac && exists key :: k.seal == Some(key) && (r.mac != Some(k.hmac(key, r.ev, r.instance)) || r.mac == Some(""))
    case SignatureDoesNotVerify => c.sig && !(exists sig :: r.sig == Some(sig) && k.checks(r.ev, r.instance, sig))
  }

  /** Nothing is wrong with any record: each recomputes, links to the one before it, and carries
      the MAC and the signature that are checked. */
  ghost predicate AllGood(h: Digest, k: Keys, c: Checks, kept: seq<Record>) {
    forall i, p {:trigger Has(h, k, c, kept, i, p)} :: !Has(h, k, c, kept, i, p)
  }

  /** A record with this id has this problem. */
  ghost predicate SomeHas(h: Digest, k: Keys, c: Checks, kept: seq<Record>, id: nat, p: Problem) {
    exists i {:trigger Has(h, k, c, kept, i, p)} :: Has(h, k, c, kept, i, p) && kept[i].ev.id == id
  }

  lemma OneRecordSays(h: Digest, k: Keys, c: Checks, kept: seq<Record>, id: nat, p: Problem)
    requires kept != []
    ensures var n := |kept| - 1;
            (id, p) in RecordProblems(h, k, c, kept[n], LastHash(kept[..n])) <==> Has(h, k, c, kept, n, p) && kept[n].ev.id == id
  {}

  lemma EarlierSay(h: Digest, k: Keys, c: Checks, kept: seq<Record>, id: nat, p: Problem)
    requires kept != []
    ensures var n := |kept| - 1;
            SomeHas(h, k, c, kept, id, p) <==> SomeHas(h, k, c, kept[..n], id, p) || (Has(h, k, c, kept, n, p) && kept[n].ev.id == id)
  {
    var n := |kept| - 1;
    forall i | 0 <= i < n ensures Has(h, k, c, kept, i, p) <==> Has(h, k, c, kept[..n], i, p) {}
  }

  /** The report names exactly what is wrong, record by record. */
  lemma {:induction false} ProblemsSay(h: Digest, k: Keys, c: Checks, kept: seq<Record>, id: nat, p: Problem)
    ensures (id, p) in Problems(h, k, c, kept) <==> SomeHas(h, k, c, kept, id, p)
  {
    if kept != [] {
      hide RecordProblems, SomeHas, Has;
      ProblemsSay(h, k, c, kept[..|kept| - 1], id, p);
      OneRecordSays(h, k, c, kept, id, p);
      EarlierSay(h, k, c, kept, id, p);
    }
  }

  lemma NoneIff(h: Digest, k: Keys, c: Checks, kept: seq<Record>)
    ensures Problems(h, k, c, kept) == [] <==> AllGood(h, k, c, kept)
  {
    hide Problems;
    if i, p :| Has(h, k, c, kept, i, p) {
      ProblemsSay(h, k, c, kept, kept[i].ev.id, p);
    }
    if Problems(h, k, c, kept) != [] {
      var (id, p) := Problems(h, k, c, kept)[0];
      assert (id, p) in Problems(h, k, c, kept);
      ProblemsSay(h, k, c, kept, id, p);
    }
  }

  datatype ExportReport = ExportReport(valid: bool, records: nat, problems: seq<(nat, Problem)>, fromGenesis: bool)

  /** The receiver's check, which needs nothing but the records and keys. */
  method VerifyRecords(h: Digest, k: Keys, c: Checks, records: seq<Record>) returns (r: ExportReport)
    ensures r.valid <==> AllGood(h, k, c, Fresh(records))
    ensures r.records == |Fresh(records)|
    ensures r.problems == Take(Problems(h, k, c, Fresh(records)), 50)
    ensures r.fromGenesis <==> records != [] && records[0].ev.prev == GENESIS
  {
    var problems: seq<(nat, Problem)> := [];
    var seen: set<Hash> := {};
    var prev: Option<Hash> := None;
    var n := 0;
    ghost var kept: seq<Record> := [];
    assert records[..0] == [];
    assert Knows(seen, []) && Fresh([]) == [] && Problems(h, k, c, []) == [] && LastHash([]) == None;
    hide Fresh, Seen, Knows, Problems, RecordProblems, LastHash, AllGood, SomeHas;
    for i := 0 to |records|
      invariant Knows(seen, records[..i])
      invariant kept == Fresh(records[..i])
      invariant n == |kept| && prev == LastHash(kept) && problems == Problems(h, k, c, kept)
    {
      var rec := records[i];
      OneMoreRecord(seen, records, i);
      if rec.ev.hash in seen { continue; }
      OneMoreKept(h, k, c, kept, rec);
      kept := kept + [rec];
      seen := seen + {rec.ev.hash};
      n := n + 1;
      problems := problems + RecordProblems(h, k, c, rec, prev);
      prev := Some(rec.ev.hash);
    }
    assert records[..|records|] == records;
    NoneIff(h, k, c, kept);
    r := ExportReport(problems == [], n, Take(problems, 50), records != [] && records[0].ev.prev == GENESIS);
  }

  /** The set holds exactly the hashes seen so far. */
  ghost predicate Knows(seen: set<Hash>, records: seq<Record>) {
    forall x :: x in seen <==> Seen(records, x)
  }

  lemma OneMoreRecord(seen: set<Hash>, records: seq<Record>, i: nat)
    requires i < |records| && Knows(seen, records[..i])
    ensures Fresh(records[..i + 1]) == if records[i].ev.hash in seen then Fresh(records[..i]) else Fresh(records[..i]) + [records[i]]
    ensures Knows(seen + {records[i].ev.hash}, records[..i + 1])
    ensures records[i].ev.hash in seen ==> seen + {records[i].ev.hash} == seen
  {
    assert records[..i + 1][..i] == records[..i];
    assert records[..i + 1] == records[..i] + [records[i]];
    SeenAppend(records[..i], records[i]);
  }

  lemma OneMoreKept(h: Digest, k: Keys, c: Checks, kept: seq<Record>, r: Record)
    ensures Problems(h, k, c, kept + [r]) == Problems(h, k, c, kept) + RecordProblems(h, k, c, r, LastHash(kept))
    ensures LastHash(kept + [r]) == Some(r.ev.hash)
  {
    assert (kept + [r])[..|kept|] == kept;
  }

  lemma SeenAppend(a: seq<Record>, r: Record)
    ensures forall x :: Seen(a + [r], x) <==> Seen(a, x) || r.ev.hash == x
  {
    forall x ensures Seen(a + [r], x) <==> Seen(a, x) || r.ev.hash == x {
      if Seen(a, x) {
        var i :| 0 <= i < |a| && a[i].ev.hash == x;
        assert (a + [r])[i].ev.hash == x;
      }
      assert (a + [r])[|a|] == r;
    }
  }

  // ------------------------------------------------------------ the sender

  datatype Cursor = Cursor(lastId: nat, lastHash: Option<Hash>)

  /** How one send ends: everything arrived, or it failed after some prefix of the batch. */
  datatype Outcome = Delivered | FailedAfter(arrived: nat)

  datatype Status = Sent | NothingToSend | ChainBreak | SendFailed

  /** One pass of the loop: the cursor, what the receiver holds, and how it ended. */
  datatype Pass = Pass(cursor: Cursor, received: seq<Record>, status: Status, sent: nat)

  /** The rows past an id, in id order. */
  function After(rows: seq<Event>, id: nat): seq<Event> {
    if rows == [] then []
    else After(rows[..|rows| - 1], id) + if rows[|rows| - 1].id > id then [rows[|rows| - 1]] else []
  }

  function Take<T>(s: seq<T>, n: nat): seq<T> {
    if |s| <= n then s else s[..n]
  }

  function ShipBatch(k: Keys, instance: string, table: seq<Event>, cur: Cursor, received: seq<Record>, o: Outcome): Pass {
    ShipRows(k, instance, Take(After(table, cur.lastId), BATCH), cur, received, o)
  }

  function ShipRows(k: Keys, instance: string, evs: seq<Event>, cur: Cursor, received: seq<Record>, o: Outcome): Pass {
    if evs == [] then Pass(cur, received, NothingToSend, 0)
    else if cur.lastHash.Some? && evs[0].prev != cur.lastHash.value then Pass(cur, received, ChainBreak, 0)
    else match o
      case FailedAfter(n) => Pass(cur, received + Take(ToRecords(k, instance, evs), n), SendFailed, 0)
      case Delivered => Pass(Cursor(evs[|evs| - 1].id, Some(evs[|evs| - 1].hash)),
                             received + ToRecords(k, instance, evs), Sent, |evs|)
  }

  /** Batches `b`, `b + 1`, ... until one does not send. The table each batch queries and
      how each send ends come from outside. */
  function ShipFrom(k: Keys, instance: string, views: seq<seq<Event>>, outcomes: seq<Outcome>, b: nat, p: Pass): Pass
    requires |views| == |outcomes|
    decreases |views| - b
  {
    if b >= |views| then p
    else
      var q := ShipBatch(k, instance, views[b], p.cursor, p.received, outcomes[b]);
      if q.status != Sent then q.(sent := p.sent)
      else ShipFrom(k, instance, views, outcomes, b + 1, q.(sent := p.sent + q.sent))
  }

  /** One sink: its cursor row, and the copy at the far end. */
  class Sink {
    const instance: string
    var cursor: Cursor
    var received: seq<Record>
    var failures: nat
    var lastError: Option<Status>

    constructor (inst: string)
      ensures cursor == Cursor(0, None) && received == [] && failures == 0 && lastError == None && instance == inst
    {
      instance, cursor, received, failures, lastError := inst, Cursor(0, None), [], 0, None;
    }

    /** Send what the sink has not seen yet, at most one batch per entry of `views`, with the
        keys of the process that does it. */
    method Ship(keys: Keys, views: seq<seq<Event>>, outcomes: seq<Outcome>) returns (sent: nat)
      requires |views| == |outcomes|
      modifies this
      ensures var p := ShipFrom(keys, instance, views, outcomes, 0, Pass(old(cursor), old(received), Sent, 0));
              && cursor == p.cursor && received == p.received && sent == p.sent
              && (if p.status == ChainBreak || p.status == SendFailed
                  then failures == old(failures) + 1 && lastError == Some(p.status)
                  else failures == 0 && lastError == None)
    {
      sent := 0;
      ghost var start := Pass(cursor, received, Sent, 0);
      var status := Sent;
      var b := 0;
      while b < |views| && status == Sent
        invariant 0 <= b <= |views| && failures == old(failures)
        invariant ShipFrom(keys, instance, views, outcomes, 0, start)
               == if status == Sent then ShipFrom(keys, instance, views, outcomes, b, Pass(cursor, received, Sent, sent))
                  else Pass(cursor, received, status, sent)
      {
        var evs := Take(After(views[b], cursor.lastId), BATCH);
        if evs == [] {
          status := NothingToSend;
        } else if cursor.lastHash.Some? && evs[0].prev != cursor.lastHash.value {
          status := ChainBreak;
        } else {
          status, sent := Send(keys, evs, outcomes[b], sent);
        }
        b := b + 1;
      }
      if status == Sent || status == NothingToSend {
        failures, lastError := 0, None;
      } else {
        failures, lastError := failures + 1, Some(status);
      }
    }

    /** Hand one batch to the far end, and move the cursor only when all of it arrived. */
    method Send(keys: Keys, evs: seq<Event>, outcome: Outcome, before: nat) returns (status: Status, sent: nat)
      requires evs != []
      modifies this`cursor, this`received
      ensures outcome.Delivered? ==> status == Sent && sent == before + |evs|
      ensures outcome.Delivered? ==> cursor == Cursor(evs[|evs| - 1].id, Some(evs[|evs| - 1].hash))
      ensures outcome.Delivered? ==> received == old(received) + ToRecords(keys, instance, evs)
      ensures outcome.FailedAfter? ==> status == SendFailed && sent == before && cursor == old(cursor)
      ensures outcome.FailedAfter? ==> received == old(received) + Take(ToRecords(keys, instance, evs), outcome.arrived)
    {
      var records := ToRecords(keys, instance, evs);
      if outcome.FailedAfter? {
        received := received + Take(records, outcome.arrived);
        return SendFailed, before;
      }
      received := received + records;
      cursor := Cursor(evs[|evs| - 1].id, Some(evs[|evs| - 1].hash));
      return Sent, before + |evs|;
    }
  }
}
