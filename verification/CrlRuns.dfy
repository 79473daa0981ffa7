/** What revoking and replacing lead to over whole runs of the certificate tables: what the
    stored CRLs list, what OCSP answers, and which certificate took whose place. */
module CrlRuns {
  import opened Prelude
  import Seals
  import opened Certificates
  import opened CertificateRuns

  /** The CRL stored for the CA has an entry for this serial, with this reason. */
  ghost predicate Published(s: Store, ca: nat, serial: nat, reason: Reason) {
    ca in s.crls && exists k :: 0 <= k < |s.crls[ca].entries| && s.crls[ca].entries[k] == Entry(serial, reason)
  }

  /** Signed by a CA here, so that revoking it publishes a CRL. */
  predicate Ours(c: Cert) {
    c.row.values.backend == Local && c.row.values.ca.Some?
  }

  /** A revoked certificate of a CA here is on that CA's stored CRL, with the reason in its row. */
  ghost predicate Shown(s: Store, i: int) {
    0 <= i < |s.certs| && Ours(s.certs[i]) && StatusOf(s.certs[i]) == Revoked ==>
      && s.certs[i].row.values.reason.Some?
      && Published(s, s.certs[i].row.values.ca.value, s.certs[i].row.values.serial, s.certs[i].row.values.reason.value)
  }

  ghost predicate AllShown(s: Store) {
    forall i {:trigger Shown(s, i)} :: Shown(s, i)
  }

  lemma FreshCrlShows(u: Setup, s: Store, ca: nat, i: nat)
    requires i < |s.certs| && s.certs[i].row.values.ca == Some(ca) && StatusOf(s.certs[i]) == Revoked
    requires Verified(u, s.certs[i]) && s.certs[i].row.values.reason.Some?
    ensures Published(AfterCrl(u, s, ca), ca, s.certs[i].row.values.serial, s.certs[i].row.values.reason.value)
  {
    SelectFinds(s.certs, StatusRevoked(ca));
    var rows := CrlRows(u, s, ca);
    assert i in Select(s.certs, StatusRevoked(ca));
    var k :| 0 <= k < |Select(s.certs, StatusRevoked(ca))| && Select(s.certs, StatusRevoked(ca))[k] == i;
    assert rows[k] == i;
    assert AfterCrl(u, s, ca).crls[ca].entries[k] == EntryFor(u, s.certs[i]);
  }

  /** A certificate of ours that is revoked is left alone from then on. */
  ghost predicate RevokedStays(s: Store, t: Store) {
    forall i {:trigger s.certs[i]} :: 0 <= i < |s.certs| && i < |t.certs| && Ours(s.certs[i]) && StatusOf(s.certs[i]) == Revoked
      ==> t.certs[i].row.values == s.certs[i].row.values
  }

  /** Nothing became revoked, and no CRL changed. */
  lemma QuietShows(s: Store, t: Store)
    requires AllShown(s) && t.crls == s.crls && |s.certs| <= |t.certs| && RevokedStays(s, t)
    requires forall i :: 0 <= i < |t.certs| && Ours(t.certs[i]) && StatusOf(t.certs[i]) == Revoked
                         ==> i < |s.certs| && Ours(s.certs[i]) && StatusOf(s.certs[i]) == Revoked
    ensures AllShown(t)
  {
    forall i ensures Shown(t, i) { assert Shown(s, i); }
  }

  /** One CA's CRL was published anew. */
  lemma PublishShows(u: Setup, s: Store, ca: nat)
    requires forall i: nat {:trigger s.certs[i]} :: i < |s.certs| ==> Verified(u, s.certs[i])
    requires forall i: nat {:trigger s.certs[i]} :: i < |s.certs| && Ours(s.certs[i]) && StatusOf(s.certs[i]) == Revoked
                                                    ==> s.certs[i].row.values.reason.Some?
    requires forall i {:trigger Shown(s, i)} :: 0 <= i < |s.certs| && s.certs[i].row.values.ca != Some(ca) ==> Shown(s, i)
    ensures AllShown(AfterCrl(u, s, ca))
  {
    var t := AfterCrl(u, s, ca);
    forall i ensures Shown(t, i) {
      if 0 <= i < |s.certs| && Ours(s.certs[i]) && StatusOf(s.certs[i]) == Revoked {
        if s.certs[i].row.values.ca == Some(ca) { FreshCrlShows(u, s, ca, i); } else { assert Shown(s, i); }
      }
    }
  }

  lemma AddingShows(u: Setup, s: Store, f: Fields, previous: Option<nat>)
    requires AllShown(s) && f.status == Active && (previous.Some? ==> previous.value < |s.certs| && StatusOf(s.certs[previous.value]) == Active)
    ensures AllShown(AfterRequest(u, s, f, previous))
  {
    QuietShows(s, AfterRequest(u, s, f, previous));
  }

  lemma LinkingShows(u: Setup, s: Store, prev: nat, next: nat)
    requires AllShown(s) && prev < |s.certs| && StatusOf(s.certs[prev]) == Active
    ensures AllShown(AfterLink(u, s, prev, next))
  {
    QuietShows(s, AfterLink(u, s, prev, next));
  }

  lemma SealsFit(u: Setup, s: Store, i: nat)
    requires Inv(u, s) && i < |s.certs|
    ensures Verified(u, s.certs[i])
  {
    assert CertOk(u, s, i);
  }

  lemma MarkingFits(u: Setup, s: Store, i: nat, reason: Reason)
    requires Inv(u, s) && i < |s.certs|
    ensures var t := MarkRevoked(u, s, i, reason);
            && |t.certs| == |s.certs| && t.crls == s.crls && (forall j :: 0 <= j < |s.certs| && j != i ==> t.certs[j] == s.certs[j])
            && t.certs[i].row.values == s.certs[i].row.values.(status := Revoked, reason := Some(reason))
            && forall j: nat :: j < |t.certs| ==> Verified(u, t.certs[j])
  {
    forall j: nat | j < |s.certs| ensures Verified(u, s.certs[j]) { SealsFit(u, s, j); }
    assert CertOk(u, s, i);
  }

  lemma LocalRevokeShows(u: Setup, s: Store, i: nat, reason: Reason)
    requires Inv(u, s) && AllShown(s) && i < |s.certs| && Ours(s.certs[i])
    ensures var m := if StatusOf(s.certs[i]) == Revoked then s else MarkRevoked(u, s, i, reason);
            AllShown(AfterCrl(u, m, s.certs[i].row.values.ca.value))
  {
    hide Inv;
    var ca, m := s.certs[i].row.values.ca.value, if StatusOf(s.certs[i]) == Revoked then s else MarkRevoked(u, s, i, reason);
    MarkingFits(u, s, i, reason);
    forall j: nat | j < |s.certs| ensures Verified(u, s.certs[j]) { SealsFit(u, s, j); }
    forall j {:trigger Shown(m, j)} | 0 <= j < |m.certs| && m.certs[j].row.values.ca != Some(ca) ensures Shown(m, j) { assert Shown(s, j); }
    forall j: nat | j < |m.certs| && Ours(m.certs[j]) && StatusOf(m.certs[j]) == Revoked ensures m.certs[j].row.values.reason.Some? {
      assert Shown(s, j);
    }
    PublishShows(u, m, ca);
  }

  lemma ForeignRevokeShows(u: Setup, s: Store, i: nat, reason: Reason)
    requires Inv(u, s) && AllShown(s) && i < |s.certs| && s.certs[i].row.values.backend != Local
    ensures AllShown(MarkRevoked(u, s, i, reason))
  {
    hide Inv;
    MarkingFits(u, s, i, reason);
    QuietShows(s, MarkRevoked(u, s, i, reason));
  }

  lemma SameCrls(s: Store, revocations: seq<nat>)
    requires AllShown(s)
    ensures AllShown(s.(revocations := revocations))
  {
    forall i ensures Shown(s.(revocations := revocations), i) { assert Shown(s, i); }
  }

  lemma RevokeShows(u: Setup, s: Store, i: nat, reason: Reason, upstream: UpstreamAnswer)
    requires Inv(u, s) && AllShown(s) && AfterRevoke(u, s, i, reason, upstream).Ok?
    ensures AllShown(AfterRevoke(u, s, i, reason, upstream).value)
  {
    hide Inv, AllShown, AfterCrl, MarkRevoked;
    var f := s.certs[i].row.values;
    if f.backend == Local {
      LocalRevokeShows(u, s, i, reason);
      SameCrls(AfterCrl(u, if f.status == Revoked then s else MarkRevoked(u, s, i, reason), f.ca.value), s.revocations + [f.serial]);
    } else {
      ForeignRevokeShows(u, s, i, reason);
      SameCrls(MarkRevoked(u, s, i, reason), s.revocations + [f.serial]);
    }
    SameTrail(u, s, i, reason);
  }

  lemma SameTrail(u: Setup, s: Store, i: nat, reason: Reason)
    requires i < |s.certs|
    ensures MarkRevoked(u, s, i, reason).revocations == s.revocations
    ensures forall ca :: AfterCrl(u, s, ca).revocations == s.revocations
    ensures forall ca :: AfterCrl(u, MarkRevoked(u, s, i, reason), ca).revocations == s.revocations
  {}

  lemma PublishedShows(u: Setup, s: Store, ca: nat)
    requires Inv(u, s) && AllShown(s)
    ensures AllShown(AfterCrl(u, s, ca))
  {
    hide Inv;
    forall j: nat | j < |s.certs| ensures Verified(u, s.certs[j]) { SealsFit(u, s, j); }
    forall j: nat | j < |s.certs| && Ours(s.certs[j]) && StatusOf(s.certs[j]) == Revoked ensures s.certs[j].row.values.reason.Some? {
      assert Shown(s, j);
    }
    PublishShows(u, s, ca);
  }

  lemma StepShows(u: Setup, s: Store, step: Step)
    requires Inv(u, s) && AllShown(s)
    ensures AllShown(Next(u, s, step))
  {
    hide Inv, AllShown, AfterRequest, AfterRevoke, AfterLink, AfterCrl, SerialFree;
    match step
    case Issue(f, previous) =>
      if f.status == Active {
        AddingShows(u, s, f, None);
        if previous.Some? && previous.value < |s.certs| && StatusOf(s.certs[previous.value]) == Active { AddingShows(u, s, f, previous); }
      }
    case Renew(f, prev) => if f.status == Active && AfterRenew(u, s, f, prev).Ok? { AddingShows(u, s, f, Some(prev)); }
    case Ingest(f) => if f.status == Active { AddingShows(u, s, f, None); }
    case Retire(gone, current) =>
      if gone < |s.certs| && StatusOf(s.certs[gone]) == Active { LinkingShows(u, s, gone, current); }
    case Revoke(id, reason, upstream) => if AfterRevoke(u, s, id, reason, upstream).Ok? { RevokeShows(u, s, id, reason, upstream); }
    case Publish(ca) => PublishedShows(u, s, ca);
  }

  /** In every application run, every revoked certificate of a CA here is on the CRL last
      published for that CA, with the reason it was revoked for. */
  lemma {:induction false} RevokedIsPublished(u: Setup, steps: seq<Step>)
    requires u.cfg.key.Some?
    ensures AllShown(Run(u, steps))
  {
    hide Next, Inv, AllShown;
    if steps == [] {
      NothingYet();
    } else {
      RevokedIsPublished(u, steps[..|steps| - 1]);
      RunKeeps(u, steps[..|steps| - 1]);
      StepShows(u, Run(u, steps[..|steps| - 1]), steps[|steps| - 1]);
    }
  }

  lemma NothingYet()
    ensures AllShown(EMPTY)
  {}

  /** Whatever was written to the rows, a reason on the next CRL of a CA is one that stands in a
      revoked row with a seal that fits: SQL cannot put one there. */
  lemma ReasonsAreSealed(u: Setup, s: Store, ca: nat, k: nat)
    requires k < |NextCrl(u, s, ca).entries| && NextCrl(u, s, ca).entries[k].reason != Unspecified
    ensures var e := NextCrl(u, s, ca).entries[k];
            exists i :: 0 <= i < |s.certs| && s.certs[i].row.values.serial == e.serial && StatusOf(s.certs[i]) == Revoked
                        && s.certs[i].row.values.reason == Some(e.reason) && Verified(u, s.certs[i])
  {
    var i := CrlRows(u, s, ca)[k];
    assert NextCrl(u, s, ca).entries[k] == EntryFor(u, s.certs[i]);
  }

  /** OCSP over every application run: unknown without a row, revoked if some certificate of that
      serial was revoked, and otherwise good. */
  lemma OcspOverRuns(u: Setup, steps: seq<Step>, ca: nat, serial: nat)
    requires u.cfg.key.Some?
    ensures var s := Run(u, steps);
            Ocsp(u, s, ca, serial) ==
              Some(if !StillThere(s, ca, serial) then Unknown else if SomeRevoked(s, serial) then RevokedResponse else Good)
  {
    RunKeeps(u, steps);
    var s := Run(u, steps);
    var rows := Select(s.certs, Serial(ca, serial));
    SelectFinds(s.certs, Serial(ca, serial));
    AtMostOneRow(s.certs, ca, serial);
    if StillThere(s, ca, serial) {
      var i: nat :| i < |s.certs| && s.certs[i].row.values.serial == serial && s.certs[i].row.values.ca == Some(ca);
      assert i in rows;
      RevokedIffAudited(u, steps, i);
    } else {
      UnknownWhenGone(u, s, ca, serial);
    }
  }

  // ------------------------------------------------------------ from the step that revokes

  /** Who can be revoked here, and how: a certificate of a CA here for a known reason, an upstream
      one if the upstream CA agrees, one from the gateway always. */
  predicate Revocable(c: Cert, reason: Reason, upstream: UpstreamAnswer) {
    match c.row.values.backend
    case Local => !reason.NotAReason? && c.row.values.source == IssuedHere && c.row.values.ca.Some?
    case Upstream => upstream == Accepted
    case Adcs => true
  }

  /** Such a step records the revocation and marks the row; any other changes nothing. */
  lemma RevokesIff(u: Setup, s: Store, id: nat, reason: Reason, upstream: UpstreamAnswer)
    requires Inv(u, s)
    ensures var t := Next(u, s, Revoke(id, reason, upstream));
            if id < |s.certs| && Revocable(s.certs[id], reason, upstream) then
              && t.revocations == s.revocations + [s.certs[id].row.values.serial] && |t.certs| == |s.certs|
              && StatusOf(t.certs[id]) == Revoked
              && (StatusOf(s.certs[id]) != Revoked ==> t.certs[id].row.values.reason == Some(reason))
            else t == s
  {
    hide NextCrl;
    if id < |s.certs| { MarkingFits(u, s, id, reason); }
  }

  lemma {:induction false} OursStays(u: Setup, steps: seq<Step>, n: nat, i: nat)
    requires u.cfg.key.Some? && n <= |steps| && i < |Run(u, steps[..n]).certs|
    requires Ours(Run(u, steps[..n]).certs[i]) && StatusOf(Run(u, steps[..n]).certs[i]) == Revoked
    ensures i < |Run(u, steps).certs| && Run(u, steps).certs[i].row.values == Run(u, steps[..n]).certs[i].row.values
    decreases |steps|
  {
    hide Next, Inv;
    if n == |steps| {
      assert steps[..n] == steps;
    } else {
      var init := steps[..|steps| - 1];
      assert init[..n] == steps[..n];
      OursStays(u, init, n, i);
      RunKeeps(u, init);
      StepLeavesRevoked(u, Run(u, init), steps[|steps| - 1], i);
    }
  }

  lemma StepLeavesRevoked(u: Setup, s: Store, step: Step, i: nat)
    requires i < |s.certs| && Ours(s.certs[i]) && StatusOf(s.certs[i]) == Revoked
    ensures i < |Next(u, s, step).certs| && Next(u, s, step).certs[i].row.values == s.certs[i].row.values
  {
    hide NextCrl;
  }

  /** A revocation of a certificate of ours is published at once, with its reason, and is on
      every CRL of its CA from then on. */
  lemma RevokingPublishes(u: Setup, steps: seq<Step>, n: nat, reason: Reason, upstream: UpstreamAnswer, id: nat)
    requires u.cfg.key.Some? && n < |steps| && steps[n] == Revoke(id, reason, upstream)
    requires id < |Run(u, steps[..n]).certs|
    requires Ours(Run(u, steps[..n]).certs[id]) && Revocable(Run(u, steps[..n]).certs[id], reason, upstream)
    requires StatusOf(Run(u, steps[..n]).certs[id]) != Revoked
    ensures var f := Run(u, steps[..n]).certs[id].row.values; Published(Run(u, steps), f.ca.value, f.serial, reason)
  {
    hide Run, Next, Inv;
    RunKeeps(u, steps[..n]);
    RevokesIff(u, Run(u, steps[..n]), id, reason, upstream);
    assert steps[..n + 1] == steps[..n] + [steps[n]];
    RunSnoc(u, steps[..n], steps[n]);
    StepKeeps(u, Run(u, steps[..n]), steps[n]);
    OursStays(u, steps, n + 1, id);
    RevokedIsPublished(u, steps);
    assert Shown(Run(u, steps), id);
  }

  // ------------------------------------------------------------ replacing a certificate

  /** Row `next` is the certificate that was asked for, sealed, and row `prev` gave way to it. */
  ghost predicate Replaces(s: Store, prev: nat, next: nat) {
    && prev < next && next < |s.certs| && s.certs[prev].replacedBy == Some(next) && StatusOf(s.certs[prev]) != Active
  }

  /** A renewal goes through exactly for an active certificate issued here, and leaves the new
      certificate, as asked for, in its place for the rest of the run. */
  lemma RenewalReplaces(u: Setup, steps: seq<Step>, n: nat, f: Fields, prev: nat)
    requires u.cfg.key.Some? && n < |steps| && steps[n] == Renew(f, prev)
    requires f.status == Active && f.source == IssuedHere && SerialFree(Run(u, steps[..n]), f.ca, f.serial)
    ensures var s := Run(u, steps[..n]);
            if prev < |s.certs| && s.certs[prev].row.values.source == IssuedHere && StatusOf(s.certs[prev]) == Active then
              && Replaces(Run(u, steps), prev, |s.certs|) && |Run(u, steps[..n + 1]).certs| == |s.certs| + 1
              && Run(u, steps[..n + 1]).certs[|s.certs|] == Cert(Seals.Row(f, Seals.Compute(u.mac, u.cfg, f)), None)
            else Run(u, steps[..n + 1]) == s
  {
    assert steps[..n + 1][..n] == steps[..n];
    RunKeeps(u, steps[..n]);
    if prev < |Run(u, steps[..n]).certs| { assert CertOk(u, Run(u, steps[..n]), prev); }
    NeverBackward(u, steps, n + 1);
    var s, t := Run(u, steps[..n]), Run(u, steps[..n + 1]);
    if prev < |s.certs| && s.certs[prev].row.values.source == IssuedHere && StatusOf(s.certs[prev]) == Active {
      assert CertKeeps(t.certs[prev], Run(u, steps).certs[prev]);
    }
  }

  /** ACME and approved renewals issue in any case, and replace only a certificate that is still active. */
  lemma IssueReplacesActive(u: Setup, steps: seq<Step>, n: nat, f: Fields, previous: Option<nat>)
    requires u.cfg.key.Some? && n < |steps| && steps[n] == Issue(f, previous)
    requires f.status == Active && f.source == IssuedHere && SerialFree(Run(u, steps[..n]), f.ca, f.serial)
    ensures var s, t := Run(u, steps[..n]), Run(u, steps[..n + 1]);
            && |t.certs| == |s.certs| + 1 && t.certs[|s.certs|] == Cert(Seals.Row(f, Seals.Compute(u.mac, u.cfg, f)), None)
            && (if previous.Some? && previous.value < |s.certs| && StatusOf(s.certs[previous.value]) == Active
                then Replaces(Run(u, steps), previous.value, |s.certs|)
                else t.certs[..|s.certs|] == s.certs)
  {
    assert steps[..n + 1][..n] == steps[..n];
    RunKeeps(u, steps[..n]);
    NeverBackward(u, steps, n + 1);
    var s, t := Run(u, steps[..n]), Run(u, steps[..n + 1]);
    if previous.Some? && previous.value < |s.certs| && StatusOf(s.certs[previous.value]) == Active {
      assert CertOk(u, s, previous.value);
      assert CertKeeps(t.certs[previous.value], Run(u, steps).certs[previous.value]);
    }
  }

  /** A scan retires a discovered, active certificate whose place another one has taken, and no other. */
  lemma ScanRetires(u: Setup, s: Store, gone: nat, current: nat, i: nat)
    requires i < |s.certs|
    ensures var t := Next(u, s, Retire(gone, current));
            && |t.certs| == |s.certs|
            && if i == gone && gone != current && s.certs[i].row.values.source == Discovered && StatusOf(s.certs[i]) == Active
               then t.certs[i].replacedBy == Some(current) && t.certs[i].row.values == s.certs[i].row.values.(status := Superseded)
               else t.certs[i] == s.certs[i]
  {}

  // ------------------------------------------------------------ CRL numbers

  /** The step publishes a CRL of this CA. */
  predicate Publishes(s: Store, step: Step, ca: nat) {
    || step == Publish(ca)
    || (step.Revoke? && step.id < |s.certs| && s.certs[step.id].row.values.ca == Some(ca) && s.certs[step.id].row.values.backend == Local
        && Revocable(s.certs[step.id], step.reason, step.upstream))
  }

  function NumberOf(s: Store, ca: nat): nat { if ca in s.crls then s.crls[ca].number else 0 }

  /** Publishing takes the next number of that CA, and nothing else touches a stored CRL. */
  lemma NumbersStep(u: Setup, s: Store, step: Step, ca: nat)
    ensures var t := Next(u, s, step);
            if Publishes(s, step, ca) then ca in t.crls && NumberOf(t, ca) == NumberOf(s, ca) + 1
            else (ca in t.crls <==> ca in s.crls) && (ca in s.crls ==> t.crls[ca] == s.crls[ca])
  {
    hide CrlRows, Entries;
  }

  /** How often the run published a CRL of this CA. */
  ghost function Publications(u: Setup, steps: seq<Step>, ca: nat): nat {
    if steps == [] then 0
    else
      var init := steps[..|steps| - 1];
      Publications(u, init, ca) + if Publishes(Run(u, init), steps[|steps| - 1], ca) then 1 else 0
  }

  /** So a CA's CRL number is the count of its publications: no two CRLs share one, and a later one has the greater. */
  lemma {:induction false} NumberCountsPublications(u: Setup, steps: seq<Step>, ca: nat)
    ensures NumberOf(Run(u, steps), ca) == Publications(u, steps, ca)
    ensures ca in Run(u, steps).crls <==> Publications(u, steps, ca) > 0
  {
    hide Next, Publishes;
    if steps != [] {
      NumberCountsPublications(u, steps[..|steps| - 1], ca);
      NumbersStep(u, Run(u, steps[..|steps| - 1]), steps[|steps| - 1], ca);
    }
  }
}
