/** When a client is told to renew (enrollment/ari.py), against when the platform would
    raise an alarm (alerting/evaluator.py). Instants and durations are whole
    microseconds; a duration divided or scaled is rounded half to even. */
module RenewalWindows {
  import opened Prelude

  const SECOND: int := 1_000_000
  const MINUTE: int := 60 * SECOND
  const HOUR: int := 60 * MINUTE
  const DAY: int := 24 * HOUR

  /** The binary fraction nearest to six tenths is 5404319552844595 over 2 to the 53rd. */
  const SIX_TENTHS: int := 5404319552844595
  const TWO_53: int := 9007199254740992

  /** a / b to the nearest integer, a tie to the even one. */
  function DivideAndRound(a: int, b: int): int
    requires b > 0
  {
    var q, r := a / b, a % b;
    if 2 * r > b || (2 * r == b && q % 2 == 1) then q + 1 else q
  }

  lemma RoundedToNearest(a: int, b: int)
    requires b > 0
    ensures -b <= 2 * (b * DivideAndRound(a, b) - a) <= b
    ensures 2 * (b * DivideAndRound(a, b) - a) == b || 2 * (b * DivideAndRound(a, b) - a) == -b ==> DivideAndRound(a, b) % 2 == 0
  {
    var q, r := a / b, a % b;
    var t := b * q;
    assert t + r == a && b * (q + 1) == t + b;
  }

  function Min(a: int, b: int): int { if a <= b then a else b }
  function Max(a: int, b: int): int { if a >= b then a else b }

  // ------------------------------------------------------------ alerts and windows

  datatype Level = Expired | Critical | Warning | Quiet

  function ExpiryState(notBefore: int, notAfter: int, criticalDays: int, warningDays: int, now: int): Level {
    var left, lifetime := notAfter - now, notAfter - notBefore;
    if left <= 0 then Expired
    else if left <= Min(criticalDays * DAY, DivideAndRound(lifetime, 10)) then Critical
    else if left <= Min(warningDays * DAY, DivideAndRound(lifetime, 3)) then Warning
    else Quiet
  }

  datatype Window = Window(start: int, end: int)

  function DefaultWindow(notBefore: int, notAfter: int): Window {
    var life := notAfter - notBefore;
    Window(notBefore + DivideAndRound(life, 2), notBefore + DivideAndRound(life * SIX_TENTHS, TWO_53))
  }

  /** Certificates carry their validity in whole seconds. */
  predicate WholeSeconds(t: int) { t % SECOND == 0 }

  lemma SixTenthsLeavesAThird(life: int)
    requires 0 < life && life % SECOND == 0
    ensures 0 < DivideAndRound(life, 10) <= DivideAndRound(life, 3) < life - DivideAndRound(life * SIX_TENTHS, TWO_53)
    ensures DivideAndRound(life, 2) <= DivideAndRound(life * SIX_TENTHS, TWO_53)
  {}

  lemma NoLifeNoMargin(life: int)
    requires life <= 0 && life % SECOND == 0
    ensures life <= DivideAndRound(life * SIX_TENTHS, TWO_53)
  {}

  ghost predicate QuietUntil(notBefore: int, notAfter: int, criticalDays: int, warningDays: int, end: int) {
    forall now :: now <= end ==> ExpiryState(notBefore, notAfter, criticalDays, warningDays, now) == Quiet
  }

  lemma MarginIsQuiet(notBefore: int, notAfter: int, criticalDays: int, warningDays: int, end: int)
    requires var life := notAfter - notBefore;
             0 < DivideAndRound(life, 10) <= DivideAndRound(life, 3) < notAfter - end
    ensures QuietUntil(notBefore, notAfter, criticalDays, warningDays, end)
  {}

  lemma SomeLifeIsQuiet(notBefore: int, notAfter: int, criticalDays: int, warningDays: int)
    requires WholeSeconds(notBefore) && WholeSeconds(notAfter) && notBefore < notAfter
    ensures QuietUntil(notBefore, notAfter, criticalDays, warningDays, DefaultWindow(notBefore, notAfter).end)
  {
    SixTenthsLeavesAThird(notAfter - notBefore);
    MarginIsQuiet(notBefore, notAfter, criticalDays, warningDays, DefaultWindow(notBefore, notAfter).end);
  }

  lemma NoLifeAlerts(notBefore: int, notAfter: int, criticalDays: int, warningDays: int)
    requires WholeSeconds(notBefore) && WholeSeconds(notAfter) && notAfter <= notBefore
    ensures ExpiryState(notBefore, notAfter, criticalDays, warningDays, DefaultWindow(notBefore, notAfter).end) == Expired
  {
    NoLifeNoMargin(notAfter - notBefore);
  }

  /** Whatever the configured thresholds, a client that renews by the end of the default
      window does so before any alert, exactly when the validity period is not empty. */
  lemma NoAlertInDefaultWindowIff(notBefore: int, notAfter: int, criticalDays: int, warningDays: int)
    requires WholeSeconds(notBefore) && WholeSeconds(notAfter)
    ensures QuietUntil(notBefore, notAfter, criticalDays, warningDays, DefaultWindow(notBefore, notAfter).end) <==> notBefore < notAfter
  {
    if notBefore < notAfter {
      SomeLifeIsQuiet(notBefore, notAfter, criticalDays, warningDays);
    } else {
      NoLifeAlerts(notBefore, notAfter, criticalDays, warningDays);
    }
  }

  lemma EarlierIsQuiet(notBefore: int, notAfter: int, criticalDays: int, warningDays: int, end: int, earlier: int)
    requires QuietUntil(notBefore, notAfter, criticalDays, warningDays, end) && earlier <= end
    ensures QuietUntil(notBefore, notAfter, criticalDays, warningDays, earlier)
  {}

  // ------------------------------------------------------------ campaigns

  datatype Campaign = Campaign(end: int, active: bool)
  datatype Advice = Advice(campaign: nat, window: Window)
  datatype Cert = Cert(id: nat, notAfter: int)

  /** The window to suggest for a certificate; that of a revoked one is over. */
  function SuggestedWindow(revoked: bool, notBefore: int, notAfter: int, advice: Option<Advice>, campaigns: map<nat, Campaign>,
                           now: int): Window {
    if revoked then Window(now - 2 * HOUR, now - HOUR)
    else
      var w := DefaultWindow(notBefore, notAfter);
      if advice.Some? && advice.value.campaign in campaigns && campaigns[advice.value.campaign].active
         && advice.value.window.end < w.end
      then advice.value.window else w
  }

  /** A campaign's advice only ever shortens the window, so it is as quiet. */
  lemma NoAlertInSuggestedWindow(notBefore: int, notAfter: int, advice: Option<Advice>, campaigns: map<nat, Campaign>,
                                 criticalDays: int, warningDays: int, asked: int)
    requires WholeSeconds(notBefore) && WholeSeconds(notAfter) && notBefore < notAfter
    ensures QuietUntil(notBefore, notAfter, criticalDays, warningDays,
                       SuggestedWindow(false, notBefore, notAfter, advice, campaigns, asked).end)
  {
    SomeLifeIsQuiet(notBefore, notAfter, criticalDays, warningDays);
    EarlierIsQuiet(notBefore, notAfter, criticalDays, warningDays, DefaultWindow(notBefore, notAfter).end,
                   SuggestedWindow(false, notBefore, notAfter, advice, campaigns, asked).end);
  }

  /** What is suggested. A revoked certificate is to be renewed at once: its window is over. Any
      other has the advice of a campaign that is still active, if that ends earlier, and
      otherwise from half to six tenths of its life. */
  lemma SuggestionFollowsTheCampaign(revoked: bool, notBefore: int, notAfter: int, advice: Advice, campaigns: map<nat, Campaign>, now: int)
    ensures var w := SuggestedWindow(revoked, notBefore, notAfter, Some(advice), campaigns, now);
            var standard := DefaultWindow(notBefore, notAfter);
            if revoked then w.start < w.end < now
            else if advice.campaign in campaigns && campaigns[advice.campaign].active && advice.window.end < standard.end
            then w == advice.window
            else w == standard
  {}

  /** The default window runs from half to six tenths of the life, each to the nearest microsecond
      but for the last place of the binary fraction. */
  lemma DefaultWindowIsHalfToSixTenths(notBefore: int, notAfter: int)
    requires notBefore <= notAfter
    ensures var w, life := DefaultWindow(notBefore, notAfter), notAfter - notBefore;
            && -1 <= 2 * (w.start - notBefore) - life <= 1
            && -(5 * TWO_53 + 2 * life) <= TWO_53 * (10 * (w.end - notBefore) - 6 * life) <= 5 * TWO_53
  {
    RoundedToNearest(notAfter - notBefore, 2);
    RoundedToNearest((notAfter - notBefore) * SIX_TENTHS, TWO_53);
  }

  /** One campaign as one of its certificates meets it. */
  datatype Call = Call(id: nat, now: int, hours: int, immediate: bool)

  predicate Allowed(hours: int) { 1 <= hours <= 24 * 30 }

  /** The deadline the campaign would set by itself: not after the certificate's end, and not before now. */
  function Deadline(call: Call, notAfter: int): int {
    Max(Min(call.now + call.hours * HOUR, notAfter - 5 * MINUTE), call.now + 5 * MINUTE)
  }

  function Advised(existing: Option<Advice>, call: Call, notAfter: int): Advice {
    if existing.Some? && existing.value.window.end <= call.now + call.hours * HOUR then existing.value
    else if call.immediate then Advice(call.id, Window(call.now - 2 * HOUR, call.now - HOUR))
    else Advice(call.id, Window(call.now, Deadline(call, notAfter)))
  }

  function Lookup(advice: map<nat, Advice>, cert: nat): Option<Advice> {
    if cert in advice then Some(advice[cert]) else None
  }

  predicate OneRowEach(certs: seq<Cert>) {
    forall i, j :: 0 <= i < j < |certs| ==> certs[i].id != certs[j].id
  }

  /** The advice table after a campaign over these certificates. */
  function AfterCampaign(advice: map<nat, Advice>, certs: seq<Cert>, call: Call): map<nat, Advice> {
    if certs == [] then advice
    else
      var n := |certs| - 1;
      var t := AfterCampaign(advice, certs[..n], call);
      t[certs[n].id := Advised(Lookup(t, certs[n].id), call, certs[n].notAfter)]
  }

  predicate Covers(certs: seq<Cert>, cert: nat) { exists i :: 0 <= i < |certs| && certs[i].id == cert }

  /** A campaign advises each certificate it covers once, by what stood there before, and leaves the others alone. */
  lemma {:induction false} CampaignAdvisesEach(advice: map<nat, Advice>, certs: seq<Cert>, call: Call, cert: nat)
    requires OneRowEach(certs)
    ensures !Covers(certs, cert) ==> Lookup(AfterCampaign(advice, certs, call), cert) == Lookup(advice, cert)
    ensures forall i :: 0 <= i < |certs| && certs[i].id == cert ==>
              Lookup(AfterCampaign(advice, certs, call), cert) == Some(Advised(Lookup(advice, cert), call, certs[i].notAfter))
  {
    if certs != [] {
      var n := |certs| - 1;
      CampaignAdvisesEach(advice, certs[..n], call, cert);
      assert forall i :: 0 <= i < n ==> certs[..n][i] == certs[i];
    }
  }

  class Renewals {
    var campaigns: map<nat, Campaign>
    var advice: map<nat, Advice>
    var nextCampaign: nat

    constructor ()
      ensures campaigns == map[] && advice == map[] && nextCampaign == 1
    {
      campaigns, advice, nextCampaign := map[], map[], 1;
    }

    /** `criteriaFit`: only known criteria, and at least one; `certs` are the active certificates they select. */
    method CreateCampaign(certs: seq<Cert>, criteriaFit: bool, hours: int, immediate: bool, now: int) returns (r: Option<nat>)
      requires OneRowEach(certs)
      modifies this
      ensures r == if criteriaFit && Allowed(hours) then Some(old(nextCampaign)) else None
      ensures r == None ==> advice == old(advice) && campaigns == old(campaigns) && nextCampaign == old(nextCampaign)
      ensures r != None ==> nextCampaign == old(nextCampaign) + 1
                            && campaigns == old(campaigns)[old(nextCampaign) := Campaign(now + hours * HOUR, true)]
                            && advice == AfterCampaign(old(advice), certs, Call(old(nextCampaign), now, hours, immediate))
    {
      if !criteriaFit || !(1 <= hours <= 24 * 30) { return None; }
      var id, windowEnd := nextCampaign, now + hours * HOUR;
      campaigns, nextCampaign := campaigns[id := Campaign(windowEnd, true)], id + 1;
      advice := AdviseAll(advice, certs, id, now, hours, immediate);
      return Some(id);
    }

    static method AdviseAll(before: map<nat, Advice>, certs: seq<Cert>, id: nat, now: int, hours: int, immediate: bool)
      returns (advice: map<nat, Advice>)
      ensures advice == AfterCampaign(before, certs, Call(id, now, hours, immediate))
    {
      advice := before;
      var windowEnd := now + hours * HOUR;
      for i := 0 to |certs|
        invariant advice == AfterCampaign(before, certs[..i], Call(id, now, hours, immediate))
      {
        var c := certs[i];
        assert certs[..i + 1][..i] == certs[..i];
        if c.id in advice && advice[c.id].window.end <= windowEnd {
          assert advice[c.id := advice[c.id]] == advice;
          continue;
        }
        // clamped to the end of the certificate
        var window := if immediate then Window(now - 2 * HOUR, now - HOUR)
                      else Window(now, Max(Min(windowEnd, c.notAfter - 5 * MINUTE), now + 5 * MINUTE));
        advice := advice[c.id := Advice(id, window)];
      }
      assert certs[..|certs|] == certs;
    }
  }

  /** The deadline of a campaign: the end it names, five minutes before the certificate ends if that
      is earlier, but in any case five minutes from now. */
  lemma DeadlineIsClamped(call: Call, notAfter: int)
    ensures var d, nominal, last, first := Deadline(call, notAfter), call.now + call.hours * 3_600_000_000, notAfter - 300_000_000,
                                           call.now + 300_000_000;
            && first <= d && (first < d ==> d <= nominal && d <= last) && (d == nominal || d == last || d == first)
  {}

  /** What a campaign advises where nothing earlier stands: to renew at once, with a window that is
      over, or from now to its deadline. */
  lemma AdviceOfACampaign(existing: Option<Advice>, call: Call, notAfter: int)
    requires existing.Some? ==> call.now + call.hours * 3_600_000_000 < existing.value.window.end
    ensures var a := Advised(existing, call, notAfter);
            && a.campaign == call.id
            && a.window == if call.immediate then Window(call.now - 7_200_000_000, call.now - 3_600_000_000)
                           else Window(call.now, Deadline(call, notAfter))
  {}

  // ------------------------------------------------------------ campaigns that overlap

  predicate InOrder(calls: seq<Call>) {
    && (forall i {:trigger calls[i]} :: 0 <= i < |calls| ==> Allowed(calls[i].hours))
    && (forall i, j :: 0 <= i < j < |calls| ==> calls[i].now <= calls[j].now)
  }

  /** What a certificate is told after the campaigns that covered it, in the order they were created. */
  function Standing(calls: seq<Call>, notAfter: int): (r: Option<Advice>)
    ensures r.Some? <==> calls != []
  {
    if calls == [] then None
    else Some(Advised(Standing(calls[..|calls| - 1], notAfter), calls[|calls| - 1], notAfter))
  }

  /** One more campaign never moves a certificate's deadline later. */
  lemma DeadlineNeverLater(existing: Advice, call: Call, notAfter: int)
    requires Allowed(call.hours)
    ensures Advised(Some(existing), call, notAfter).window.end <= existing.window.end
  {}

  predicate IsMinimum(m: int, calls: seq<Call>, notAfter: int) {
    && (exists i :: 0 <= i < |calls| && m == Deadline(calls[i], notAfter))
    && (forall i :: 0 <= i < |calls| ==> m <= Deadline(calls[i], notAfter))
  }

  /** One more campaign takes the earlier of the standing deadline and its own: if the
      standing one is within its nominal end, it is within its clamped end too. */
  lemma OneMoreDeadline(existing: Advice, earlier: Call, last: Call, notAfter: int)
    requires existing.window.end == Deadline(earlier, notAfter) && earlier.now <= last.now
    requires Allowed(last.hours) && !last.immediate
    ensures Advised(Some(existing), last, notAfter).window.end == Min(existing.window.end, Deadline(last, notAfter))
  {}

  lemma MinimumOfOneMore(m: int, init: seq<Call>, last: Call, notAfter: int)
    requires IsMinimum(m, init, notAfter)
    ensures IsMinimum(Min(m, Deadline(last, notAfter)), init + [last], notAfter)
  {
    var calls := init + [last];
    var k :| 0 <= k < |init| && m == Deadline(init[k], notAfter);
    assert calls[k] == init[k] && calls[|init|] == last;
  }

  /** Overlapping campaigns fold to the earliest of the deadlines each would set by itself,
      although a campaign whose nominal end is no earlier is skipped without looking at its clamped one. */
  lemma {:induction false} DeadlineIsTheMinimum(calls: seq<Call>, notAfter: int)
    requires calls != [] && InOrder(calls)
    requires forall i {:trigger calls[i]} :: 0 <= i < |calls| ==> !calls[i].immediate
    ensures IsMinimum(Standing(calls, notAfter).value.window.end, calls, notAfter)
  {
    var n := |calls| - 1;
    var init, last := calls[..n], calls[n];
    if n == 0 {
      assert Standing(init, notAfter) == None;
      assert Deadline(calls[0], notAfter) == Standing(calls, notAfter).value.window.end;
    } else {
      hide Deadline, Advised, Min;
      DeadlineIsTheMinimum(init, notAfter);
      var standing := Standing(init, notAfter).value;
      var k :| 0 <= k < n && standing.window.end == Deadline(init[k], notAfter);
      assert init[k] == calls[k];
      OneMoreDeadline(standing, init[k], last, notAfter);
      MinimumOfOneMore(standing.window.end, init, last, notAfter);
      assert calls == init + [last];
    }
  }

  // ------------------------------------------------------------ the table over a run of campaigns

  datatype Round = Round(call: Call, certs: seq<Cert>)

  function Table(rounds: seq<Round>): map<nat, Advice> {
    if rounds == [] then map[]
    else AfterCampaign(Table(rounds[..|rounds| - 1]), rounds[|rounds| - 1].certs, rounds[|rounds| - 1].call)
  }

  /** The campaigns that covered a certificate, in order. */
  function Covering(rounds: seq<Round>, cert: nat): seq<Call> {
    if rounds == [] then []
    else
      var last := rounds[|rounds| - 1];
      Covering(rounds[..|rounds| - 1], cert) + if Covers(last.certs, cert) then [last.call] else []
  }

  /** Every selection lists a certificate once, and its end never changes. */
  predicate Selection(r: Round, cert: nat, notAfter: int) {
    OneRowEach(r.certs) && forall i :: 0 <= i < |r.certs| && r.certs[i].id == cert ==> r.certs[i].notAfter == notAfter
  }

  /** What the advice table says of a certificate is the fold of the campaigns that covered
      it: the first of their deadlines if none is immediate, and nothing if there was none. */
  lemma {:induction false} TableHoldsEveryFold(rounds: seq<Round>, cert: nat, notAfter: int)
    requires forall i {:trigger rounds[i]} :: 0 <= i < |rounds| ==> Selection(rounds[i], cert, notAfter)
    ensures Lookup(Table(rounds), cert) == Standing(Covering(rounds, cert), notAfter)
  {
    if rounds != [] {
      var init, last := rounds[..|rounds| - 1], rounds[|rounds| - 1];
      assert Selection(rounds[|rounds| - 1], cert, notAfter);
      TableHoldsEveryFold(init, cert, notAfter);
      CampaignAdvisesEach(Table(init), last.certs, last.call, cert);
      var calls := Covering(rounds, cert);
      if Covers(last.certs, cert) {
        var i :| 0 <= i < |last.certs| && last.certs[i].id == cert;
        assert Selection(last, cert, notAfter) && last.certs[i].notAfter == notAfter;
        assert calls[..|calls| - 1] == Covering(init, cert) && calls[|calls| - 1] == last.call;
        assert Lookup(Table(rounds), cert) == Some(Advised(Lookup(Table(init), cert), last.call, notAfter));
      } else {
        assert calls == Covering(init, cert);
      }
    }
  }

  /** Over any run of campaigns, immediate ones among them, a deadline never moves later and
      no certificate loses its advice. */
  lemma {:induction false} DeadlinesNeverMoveLater(rounds: seq<Round>, n: nat, cert: nat)
    requires forall i {:trigger rounds[i]} :: 0 <= i < |rounds| ==> OneRowEach(rounds[i].certs) && Allowed(rounds[i].call.hours)
    requires n <= |rounds| && cert in Table(rounds[..n])
    ensures cert in Table(rounds) && Table(rounds)[cert].window.end <= Table(rounds[..n])[cert].window.end
    decreases |rounds|
  {
    if n == |rounds| {
      assert rounds[..n] == rounds;
    } else {
      var init, last := rounds[..|rounds| - 1], rounds[|rounds| - 1];
      assert init[..n] == rounds[..n];
      DeadlinesNeverMoveLater(init, n, cert);
      CampaignNeverMovesLater(Table(init), last, cert);
    }
  }

  lemma CampaignNeverMovesLater(advice: map<nat, Advice>, r: Round, cert: nat)
    requires OneRowEach(r.certs) && Allowed(r.call.hours) && cert in advice
    ensures var after := AfterCampaign(advice, r.certs, r.call);
            cert in after && after[cert].window.end <= advice[cert].window.end
  {
    CampaignAdvisesEach(advice, r.certs, r.call, cert);
    if i :| 0 <= i < |r.certs| && r.certs[i].id == cert {
      DeadlineNeverLater(advice[cert], r.call, r.certs[i].notAfter);
    }
  }
}
