/** Any number of evaluation cycles, as one fingerprint sees them. */
module AlertRuns {
  import opened Prelude
  import opened AlertReconcile

  datatype Round = Round(alerts: seq<Alert>, now: int)

  /** The state tables the evaluator can reach: each cycle reconciles the one before. */
  ghost predicate IsRun(rounds: seq<Round>, tables: seq<map<string, Row>>) {
    && |tables| == |rounds| + 1 && tables[0] == map[]
    && forall n {:trigger rounds[n]} :: 0 <= n < |rounds| ==> Reconciled(tables[n], tables[n + 1], Firing(rounds[n].alerts), rounds[n].now)
  }

  datatype Entry = Entry(at: int, notice: Notice)

  /** One fingerprint's row, and every notice about it so far. */
  datatype Trace = Trace(row: Option<Row>, log: seq<Entry>)

  function Extended(t: Trace, fp: string, alert: Option<Alert>, now: int): Trace {
    var (row, notice) := Cycle(fp, t.row, alert, now);
    Trace(row, if notice.Some? then t.log + [Entry(now, notice.value)] else t.log)
  }

  function Follow(rounds: seq<Round>, fp: string): Trace {
    if rounds == [] then Trace(None, [])
    else
      var last := rounds[|rounds| - 1];
      Extended(Follow(rounds[..|rounds| - 1], fp), fp, Find(Firing(last.alerts), fp), last.now)
  }

  /** The table row of a fingerprint is what its own trace says: fingerprints do not influence each other. */
  lemma {:induction false} TablesFollow(rounds: seq<Round>, tables: seq<map<string, Row>>, fp: string)
    requires IsRun(rounds, tables)
    ensures Find(tables[|rounds|], fp) == Follow(rounds, fp).row
  {
    if rounds != [] {
      var k := |rounds| - 1;
      assert Reconciled(tables[k], tables[k + 1], Firing(rounds[k].alerts), rounds[k].now);
      assert forall n :: 0 <= n < k ==> rounds[..k][n] == rounds[n] && tables[..k + 1][n] == tables[n];
      TablesFollow(rounds[..k], tables[..k + 1], fp);
      assert Find(tables[k + 1], fp) == RowAfter(tables[k], Firing(rounds[k].alerts), rounds[k].now, fp);
    }
  }

  predicate Fires(r: Round, fp: string) { fp in Firing(r.alerts) }

  /** When the fingerprint, which fires in the last cycle, began to fire without a break. */
  function FiringSince(rounds: seq<Round>, fp: string): int
    requires rounds != [] && Fires(rounds[|rounds| - 1], fp)
  {
    var k := |rounds| - 1;
    if k > 0 && Fires(rounds[k - 1], fp) then FiringSince(rounds[..k], fp) else rounds[k].now
  }

  lemma {:induction false} OpenSinceItFires(rounds: seq<Round>, fp: string)
    ensures IsOpen(Follow(rounds, fp).row) <==> rounds != [] && Fires(rounds[|rounds| - 1], fp)
    ensures IsOpen(Follow(rounds, fp).row) ==> Follow(rounds, fp).row.value.firstSeen == FiringSince(rounds, fp)
  {
    if rounds != [] {
      var k := |rounds| - 1;
      OpenSinceItFires(rounds[..k], fp);
      assert k > 0 ==> rounds[..k][k - 1] == rounds[k - 1];
    }
  }

  /** After every run of cycles the open states are exactly the fingerprints that fired in
      the last one, and each is dated from the cycle in which it began to fire. */
  lemma OpenAreTheFiring(rounds: seq<Round>, tables: seq<map<string, Row>>, fp: string)
    requires IsRun(rounds, tables)
    ensures IsOpen(Find(tables[|rounds|], fp)) <==> rounds != [] && Fires(rounds[|rounds| - 1], fp)
    ensures IsOpen(Find(tables[|rounds|], fp)) ==> Find(tables[|rounds|], fp).value.firstSeen == FiringSince(rounds, fp)
  {
    TablesFollow(rounds, tables, fp);
    OpenSinceItFires(rounds, fp);
  }

  // ------------------------------------------------------------ episodes

  /** Entry `i` closes an episode: it is a resolved notice right after a firing one. */
  predicate Closes(log: seq<Entry>, i: int) {
    0 <= i < |log| && (log[i].notice.resolved ==> 0 < i && !log[i - 1].notice.resolved)
  }

  ghost predicate Episodes(log: seq<Entry>) {
    forall i {:trigger Closes(log, i)} :: 0 <= i < |log| ==> Closes(log, i)
  }

  predicate Announced(log: seq<Entry>) { log != [] && !log[|log| - 1].notice.resolved }

  lemma {:induction false} OneMoreEntry(log: seq<Entry>, e: Entry)
    requires Episodes(log) && (e.notice.resolved ==> Announced(log))
    ensures Episodes(log + [e])
  {
    forall i {:trigger Closes(log + [e], i)} | 0 <= i < |log + [e]| ensures Closes(log + [e], i) {
      if i < |log| { assert Closes(log, i); }
    }
  }

  ghost predicate InEpisodes(t: Trace, fp: string) {
    && Episodes(t.log)
    && (IsOpen(t.row) <==> Announced(t.log))
    && forall i :: 0 <= i < |t.log| ==> t.log[i].notice.fingerprint == fp
  }

  lemma CycleKeepsEpisodes(t: Trace, fp: string, alert: Option<Alert>, now: int)
    requires InEpisodes(t, fp)
    ensures InEpisodes(Extended(t, fp, alert, now), fp)
  {
    var notice := Cycle(fp, t.row, alert, now).1;
    if notice.Some? { OneMoreEntry(t.log, Entry(now, notice.value)); }
  }

  /** Every resolved notice closes exactly one episode, which was announced before: the first
      notice is a firing one, two resolved ones never follow each other, and at any moment
      the alert is open exactly when its last notice is a firing one. */
  lemma {:induction false} ResolvedClosesOneEpisode(rounds: seq<Round>, fp: string)
    ensures Episodes(Follow(rounds, fp).log)
    ensures IsOpen(Follow(rounds, fp).row) <==> Announced(Follow(rounds, fp).log)
    ensures forall i :: 0 <= i < |Follow(rounds, fp).log| ==> Follow(rounds, fp).log[i].notice.fingerprint == fp
  {
    if rounds != [] {
      var init, last := rounds[..|rounds| - 1], rounds[|rounds| - 1];
      ResolvedClosesOneEpisode(init, fp);
      CycleKeepsEpisodes(Follow(init, fp), fp, Find(Firing(last.alerts), fp), last.now);
    }
  }

  // ------------------------------------------------------------ throttling

  predicate Constant(rounds: seq<Round>, fp: string, s: Severity) {
    forall n {:trigger rounds[n]} :: 0 <= n < |rounds| && fp in Firing(rounds[n].alerts) ==> Firing(rounds[n].alerts)[fp].severity == s
  }

  /** The row of an open alert remembers when its last notice went out. */
  predicate Remembers(t: Trace, s: Severity) {
    && (t.row.Some? ==> t.row.value.severity == s)
    && (IsOpen(t.row) ==> t.log != [] && LastHeard(t.row.value) == t.log[|t.log| - 1].at)
  }

  lemma CycleRemembers(t: Trace, fp: string, alert: Option<Alert>, now: int, s: Severity)
    requires Remembers(t, s) && (alert.Some? ==> alert.value.severity == s)
    ensures Remembers(Extended(t, fp, alert, now), s)
  {}

  lemma {:induction false} RowRemembersLastNotice(rounds: seq<Round>, fp: string, s: Severity)
    requires Constant(rounds, fp, s)
    ensures Remembers(Follow(rounds, fp), s)
  {
    if rounds != [] {
      var k := |rounds| - 1;
      assert forall n :: 0 <= n < k ==> rounds[..k][n] == rounds[n];
      RowRemembersLastNotice(rounds[..k], fp, s);
      var alert := Find(Firing(rounds[k].alerts), fp);
      CycleRemembers(Follow(rounds[..k], fp), fp, alert, rounds[k].now, s);
    }
  }

  lemma CycleRepeats(t: Trace, fp: string, a: Alert, now: int, s: Severity)
    requires Remembers(t, s) && IsOpen(t.row) && a.severity == s
    ensures Extended(t, fp, Some(a), now).log
         == if now - t.log[|t.log| - 1].at >= Repeat(s) then t.log + [Entry(now, Notice(fp, s, a.summary, false))] else t.log
  {}

  /** How often an alert that goes on firing is repeated. */
  function Hours(s: Severity): int { match s case Critical => 4 case Warning => 24 case Info => 168 }

  /** While an alert of constant severity goes on firing, a cycle sends a notice exactly when
      the repeat interval has passed since the last one: never earlier, and at the first
      cycle on or after it. */
  lemma RepeatsAtTheInterval(rounds: seq<Round>, last: Round, fp: string, s: Severity)
    requires Constant(rounds + [last], fp, s) && fp in Firing(last.alerts) && IsOpen(Follow(rounds, fp).row)
    ensures var log, log' := Follow(rounds, fp).log, Follow(rounds + [last], fp).log;
            && log != []
            && log' == (if last.now - log[|log| - 1].at >= Hours(s) * 3600
                        then log + [Entry(last.now, Notice(fp, s, Firing(last.alerts)[fp].summary, false))] else log)
  {
    hide Cycle, Firing;
    var all := rounds + [last];
    assert all[..|rounds|] == rounds && all[|rounds|] == last;
    assert forall n :: 0 <= n < |rounds| ==> all[n] == rounds[n];
    RowRemembersLastNotice(rounds, fp, s);
    CycleRepeats(Follow(rounds, fp), fp, Firing(last.alerts)[fp], last.now, s);
  }

  /** Within an episode, notices of an alert of constant severity are a repeat interval apart. */
  lemma {:induction false} NoticesKeepTheirDistance(rounds: seq<Round>, fp: string, s: Severity, i: nat)
    requires Constant(rounds, fp, s) && i + 1 < |Follow(rounds, fp).log|
    requires !Follow(rounds, fp).log[i].notice.resolved && !Follow(rounds, fp).log[i + 1].notice.resolved
    ensures Follow(rounds, fp).log[i + 1].at - Follow(rounds, fp).log[i].at >= Hours(s) * 3600
  {
    var k := |rounds| - 1;
    var init := rounds[..k];
    assert init + [rounds[k]] == rounds;
    assert forall n :: 0 <= n < k ==> init[n] == rounds[n];
    ResolvedClosesOneEpisode(init, fp);
    if i + 1 < |Follow(init, fp).log| {
      NoticesKeepTheirDistance(init, fp, s, i);
    } else if fp in Firing(rounds[k].alerts) && IsOpen(Follow(init, fp).row) {
      RepeatsAtTheInterval(init, rounds[k], fp, s);
    }
  }

  /** An open alert that changes its severity is announced at once, and then again only when
      the interval of the new one has passed. */
  lemma ChangedSeverityIsSentOnce(rounds: seq<Round>, first: Round, second: Round, fp: string)
    requires IsOpen(Follow(rounds, fp).row) && fp in Firing(first.alerts) && fp in Firing(second.alerts)
    requires Firing(first.alerts)[fp].severity == Firing(second.alerts)[fp].severity != Follow(rounds, fp).row.value.severity
    ensures var log, s := Follow(rounds, fp).log, Firing(first.alerts)[fp].severity;
            && Follow(rounds + [first], fp).log == log + [Entry(first.now, Notice(fp, s, Firing(first.alerts)[fp].summary, false))]
            && |Follow(rounds + [first] + [second], fp).log| == |log| + if second.now - first.now >= Hours(s) * 3600 then 2 else 1
  {
    var one, two := rounds + [first], rounds + [first] + [second];
    assert one[..|rounds|] == rounds && two[..|one|] == one;
  }

  /** The row of an open alert shows the last notice: when it went out, and what its summary was
      then or has become since. */
  lemma {:induction false} RowShowsTheLastNotice(rounds: seq<Round>, fp: string)
    requires IsOpen(Follow(rounds, fp).row)
    ensures var t := Follow(rounds, fp); t.log != [] && t.row.value.lastNotified == Some(t.log[|t.log| - 1].at)
  {
    var init := rounds[..|rounds| - 1];
    if IsOpen(Follow(init, fp).row) { RowShowsTheLastNotice(init, fp); }
  }

  /** Not so across a change of severity while the alert was resolved: reopening keeps the old
      severity on the row, so the next cycle sends again however soon it comes. */
  lemma ReopenedWithNewSeverityRepeatsAtOnce(rounds: seq<Round>, first: Round, second: Round, fp: string)
    requires Follow(rounds, fp).row.Some? && !IsOpen(Follow(rounds, fp).row)
    requires fp in Firing(first.alerts) && fp in Firing(second.alerts)
    requires Firing(first.alerts)[fp].severity == Firing(second.alerts)[fp].severity != Follow(rounds, fp).row.value.severity
    ensures var log, log' := Follow(rounds, fp).log, Follow(rounds + [first] + [second], fp).log;
            |log'| == |log| + 2 && log'[|log|].at == first.now && log'[|log| + 1].at == second.now
  {
    var one, two := rounds + [first], rounds + [first] + [second];
    assert one[..|rounds|] == rounds && two[..|one|] == one;
    assert Follow(one, fp).row.value.severity == Follow(rounds, fp).row.value.severity;
  }
}
