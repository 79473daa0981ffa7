/** The built-in alert evaluator (alerting/evaluator.py): what fires is compared with the
    stored alert states, and the differences are sent. Times are in seconds. */
module AlertReconcile {
  import opened Prelude

  datatype Severity = Critical | Warning | Info

  /** How long an alert that goes on firing stays quiet between two notices. */
  function Repeat(s: Severity): int {
    match s
    case Critical => 4 * 3600
    case Warning => 24 * 3600
    case Info => 7 * 24 * 3600
  }

  /** `summary` stands for everything shown that takes no part in a decision. */
  datatype Alert = Alert(fingerprint: string, severity: Severity, summary: string)
  datatype Row = Row(severity: Severity, summary: string, firstSeen: int, lastNotified: Option<int>, resolvedAt: Option<int>)
  datatype Notice = Notice(fingerprint: string, severity: Severity, summary: string, resolved: bool)

  function Find<V>(m: map<string, V>, key: string): Option<V> {
    if key in m then Some(m[key]) else None
  }

  predicate IsOpen(row: Option<Row>) { row.Some? && row.value.resolvedAt.None? }

  function LastHeard(row: Row): int {
    if row.lastNotified.Some? then row.lastNotified.value else row.firstSeen
  }

  predicate Due(row: Row, a: Alert, now: int) {
    row.severity != a.severity || now - LastHeard(row) >= Repeat(a.severity)
  }

  /** What one evaluation does to one fingerprint. */
  function Cycle(fp: string, row: Option<Row>, alert: Option<Alert>, now: int): (Option<Row>, Option<Notice>) {
    match alert
    case Some(a) =>
      var firing := Notice(fp, a.severity, a.summary, false);
      if row.None? then (Some(Row(a.severity, a.summary, now, Some(now), None)), Some(firing))
      else if !IsOpen(row) then (Some(row.value.(resolvedAt := None, firstSeen := now, lastNotified := Some(now))), Some(firing))
      else
        var seen := row.value.(summary := a.summary);
        if Due(row.value, a, now) then (Some(seen.(severity := a.severity, lastNotified := Some(now))), Some(firing))
        else (Some(seen), None)
    case None =>
      if IsOpen(row) then (Some(row.value.(resolvedAt := Some(now))), Some(Notice(fp, row.value.severity, row.value.summary, true)))
      else (row, None)
  }

  /** By fingerprint; of two alerts with the same one the later counts. */
  function Firing(alerts: seq<Alert>): (r: map<string, Alert>)
    ensures forall fp :: fp in r ==> r[fp].fingerprint == fp
  {
    if alerts == [] then map[]
    else Firing(alerts[..|alerts| - 1])[alerts[|alerts| - 1].fingerprint := alerts[|alerts| - 1]]
  }

  function RowAfter(states: map<string, Row>, firing: map<string, Alert>, now: int, fp: string): Option<Row> {
    Cycle(fp, Find(states, fp), Find(firing, fp), now).0
  }

  function NoticeFor(states: map<string, Row>, firing: map<string, Alert>, now: int, fp: string): Option<Notice> {
    Cycle(fp, Find(states, fp), Find(firing, fp), now).1
  }

  /** Every row is what the cycle makes of it. */
  ghost predicate Reconciled(before: map<string, Row>, after: map<string, Row>, firing: map<string, Alert>, now: int) {
    forall fp {:trigger Find(after, fp)} :: Find(after, fp) == RowAfter(before, firing, now, fp)
  }

  /** Exactly the notices due for these fingerprints, one each, in any order. */
  ghost predicate Sent(toSend: seq<Notice>, states: map<string, Row>, firing: map<string, Alert>, now: int, fps: set<string>) {
    && (forall i, j :: 0 <= i < j < |toSend| ==> toSend[i].fingerprint != toSend[j].fingerprint)
    && (forall n :: n in toSend ==> n.fingerprint in fps && NoticeFor(states, firing, now, n.fingerprint) == Some(n))
    && (forall fp {:trigger NoticeFor(states, firing, now, fp)} :: fp in fps && NoticeFor(states, firing, now, fp).Some? ==>
          NoticeFor(states, firing, now, fp).value in toSend)
  }

  class Evaluator {
    var states: map<string, Row>

    constructor ()
      ensures states == map[]
    {
      states := map[];
    }

    method Reconcile(alerts: seq<Alert>, now: int) returns (toSend: seq<Notice>)
      modifies this
      ensures Reconciled(old(states), states, Firing(alerts), now)
      ensures Sent(toSend, old(states), Firing(alerts), now, old(states).Keys + Firing(alerts).Keys)
    {
      var firing := ByFingerprint(alerts);
      states, toSend := Compare(states, firing, now);
    }
  }

  method ByFingerprint(alerts: seq<Alert>) returns (firing: map<string, Alert>)
    ensures firing == Firing(alerts)
  {
    firing := map[];
    for i := 0 to |alerts|
      invariant firing == Firing(alerts[..i])
    {
      assert alerts[..i + 1][..i] == alerts[..i];
      firing := firing[alerts[i].fingerprint := alerts[i]];
    }
    assert alerts[..|alerts|] == alerts;
  }

  lemma OneMoreNotice(toSend: seq<Notice>, more: seq<Notice>, states: map<string, Row>, firing: map<string, Alert>, now: int,
                      fps: set<string>, fp: string)
    requires Sent(toSend, states, firing, now, fps) && fp !in fps
    requires more == match NoticeFor(states, firing, now, fp) case None => [] case Some(n) => [n]
    ensures Sent(toSend + more, states, firing, now, fps + {fp})
  {}

  method Compare(known: map<string, Row>, firing: map<string, Alert>, now: int) returns (states: map<string, Row>, toSend: seq<Notice>)
    requires forall fp :: fp in firing ==> firing[fp].fingerprint == fp
    ensures Reconciled(known, states, firing, now)
    ensures Sent(toSend, known, firing, now, known.Keys + firing.Keys)
  {
    states, toSend := known, [];
    var todo := firing.Keys;
    while todo != {}
      invariant todo <= firing.Keys && firing.Keys - todo <= states.Keys <= known.Keys + firing.Keys
      invariant forall fp {:trigger Find(states, fp)} ::
                  Find(states, fp) == if fp in firing && fp !in todo then RowAfter(known, firing, now, fp) else Find(known, fp)
      invariant Sent(toSend, known, firing, now, firing.Keys - todo)
      decreases todo
    {
      var fp :| fp in todo;
      var a := firing[fp];
      assert Find(states, fp) == Find(known, fp);
      ghost var was := states;
      if fp !in states || states[fp].resolvedAt.Some? {
        var st := if fp in states then states[fp] else Row(a.severity, a.summary, now, None, None);
        states := states[fp := st.(resolvedAt := None, firstSeen := now, lastNotified := Some(now))];
        OneMoreNotice(toSend, [Notice(fp, a.severity, a.summary, false)], known, firing, now, firing.Keys - todo, fp);
        toSend := toSend + [Notice(fp, a.severity, a.summary, false)];
      } else {
        var st := states[fp].(summary := a.summary);
        if st.severity != a.severity || now - LastHeard(st) >= Repeat(a.severity) {
          st := st.(severity := a.severity, lastNotified := Some(now));
          OneMoreNotice(toSend, [Notice(fp, a.severity, a.summary, false)], known, firing, now, firing.Keys - todo, fp);
          toSend := toSend + [Notice(fp, a.severity, a.summary, false)];
        } else {
          OneMoreNotice(toSend, [], known, firing, now, firing.Keys - todo, fp);
          assert toSend + [] == toSend;
        }
        states := states[fp := st];
      }
      assert forall key {:trigger Find(states, key)} :: key != fp ==> Find(states, key) == Find(was, key);
      assert Find(states, fp) == RowAfter(known, firing, now, fp);
      assert firing.Keys - (todo - {fp}) == (firing.Keys - todo) + {fp};
      todo := todo - {fp};
    }
    assert firing.Keys - {} == firing.Keys;
    states, toSend := CloseQuiet(known, firing, now, states, toSend);
  }

  /** Whatever is open and no longer fires is resolved. */
  method CloseQuiet(known: map<string, Row>, firing: map<string, Alert>, now: int, states0: map<string, Row>, toSend0: seq<Notice>)
    returns (states: map<string, Row>, toSend: seq<Notice>)
    requires forall fp {:trigger Find(states0, fp)} ::
               Find(states0, fp) == if fp in firing then RowAfter(known, firing, now, fp) else Find(known, fp)
    requires Sent(toSend0, known, firing, now, firing.Keys)
    ensures Reconciled(known, states, firing, now)
    ensures Sent(toSend, known, firing, now, known.Keys + firing.Keys)
  {
    states, toSend := states0, toSend0;
    var todo := known.Keys - firing.Keys;
    assert firing.Keys + (known.Keys - firing.Keys - todo) == firing.Keys;
    while todo != {}
      invariant todo <= known.Keys - firing.Keys
      invariant forall fp {:trigger Find(states, fp)} ::
                  Find(states, fp) == if fp in todo then Find(known, fp) else RowAfter(known, firing, now, fp)
      invariant Sent(toSend, known, firing, now, firing.Keys + (known.Keys - firing.Keys - todo))
      decreases todo
    {
      var fp :| fp in todo;
      assert Find(states, fp) == Find(known, fp);
      ghost var was := states;
      ghost var done := firing.Keys + (known.Keys - firing.Keys - todo);
      var st := states[fp];
      if st.resolvedAt.None? {
        states := states[fp := st.(resolvedAt := Some(now))];
        OneMoreNotice(toSend, [Notice(fp, st.severity, st.summary, true)], known, firing, now, done, fp);
        toSend := toSend + [Notice(fp, st.severity, st.summary, true)];
      } else {
        OneMoreNotice(toSend, [], known, firing, now, done, fp);
        assert toSend + [] == toSend;
      }
      assert forall key {:trigger Find(states, key)} :: key != fp ==> Find(states, key) == Find(was, key);
      assert Find(states, fp) == RowAfter(known, firing, now, fp);
      assert firing.Keys + (known.Keys - firing.Keys - (todo - {fp})) == done + {fp};
      todo := todo - {fp};
    }
    assert firing.Keys + (known.Keys - firing.Keys - {}) == known.Keys + firing.Keys;
  }
}
