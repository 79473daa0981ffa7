/** Whole runs of the certificate tables: what every application operation keeps, and
    what still holds after somebody rewrites the rows in SQL. */
module CertificateRuns {
  import opened Prelude
  import opened Seals
  import opened Certificates

  datatype Step =
    | Issue(f: Fields, previous: Option<nat>)
    | Renew(f: Fields, prev: nat)
    | Ingest(f: Fields)
    | Retire(gone: nat, current: nat)
    | Revoke(id: nat, reason: Reason, upstream: UpstreamAnswer)
    | Publish(ca: nat)

  const EMPTY := Store([], [], map[])

  /** No certificate of this CA, if it is one of ours, has this serial. */
  ghost predicate SerialFree(s: Store, ca: Option<nat>, serial: nat) {
    forall i :: 0 <= i < |s.certs| && ca.Some? && s.certs[i].row.values.ca == ca ==> s.certs[i].row.values.serial != serial
  }

  /** A CA here draws its serials at random; a step in which it would repeat one of its own does
      not happen. Upstream CAs, gateways and the inventory bring certificates with any serial. */
  ghost function Next(u: Setup, s: Store, step: Step): Store {
    match step
    case Issue(f, previous) =>
      if SerialFree(s, f.ca, f.serial) && f.status == Active && f.source == IssuedHere then AfterReplacing(u, s, f, previous) else s
    case Renew(f, prev) =>
      if SerialFree(s, f.ca, f.serial) && f.status == Active && f.source == IssuedHere
      then match AfterRenew(u, s, f, prev) { case Ok(t) => t case Err(_) => s }
      else s
    case Ingest(f) =>
      if f.ca.None? && f.status == Active && f.source != IssuedHere then AfterRequest(u, s, f, None) else s
    case Retire(gone, current) => AfterRetire(u, s, gone, current)
    case Revoke(id, reason, upstream) => (match AfterRevoke(u, s, id, reason, upstream) case Ok(t) => t case Err(_) => s)
    case Publish(ca) => AfterCrl(u, s, ca)
  }

  ghost function Run(u: Setup, steps: seq<Step>): Store {
    if steps == [] then EMPTY else Next(u, Run(u, steps[..|steps| - 1]), steps[|steps| - 1])
  }

  // ------------------------------------------------------------ invariant

  /** Active, then superseded, then revoked; or straight to revoked. */
  predicate Forward(a: Status, b: Status) {
    match a
    case Active => true
    case Superseded => b != Active
    case Revoked => b == Revoked
  }

  ghost predicate CertOk(u: Setup, s: Store, i: nat) {
    i < |s.certs| &&
    var c := s.certs[i];
    var f := c.row.values;
    && c.row.seal == Compute(u.mac, u.cfg, f)
    && (f.status == Revoked ==> f.serial in s.revocations)
    && (f.status == Active ==> c.replacedBy.None?)
    && (f.source == IssuedHere && c.replacedBy.Some? ==> i < c.replacedBy.value < |s.certs|)
  }

  ghost predicate Inv(u: Setup, s: Store) {
    && u.cfg.key.Some?
    && SerialsUnique(s.certs)
    && (forall i {:trigger CertOk(u, s, i)} :: 0 <= i < |s.certs| ==> CertOk(u, s, i))
    && (forall x :: x in s.revocations ==> SomeRevoked(s, x))
  }

  /** Some certificate with this serial was revoked. */
  ghost predicate SomeRevoked(s: Store, serial: nat) {
    exists i :: 0 <= i < |s.certs| && s.certs[i].row.values.serial == serial && StatusOf(s.certs[i]) == Revoked
  }

  /** What every later state keeps of a certificate: its identity, its progress, and its replacement link. */
  ghost predicate CertKeeps(a: Cert, b: Cert) {
    && b.row.values == a.row.values.(status := b.row.values.status, reason := b.row.values.reason)
    && Forward(a.row.values.status, b.row.values.status)
    && (a.replacedBy.Some? ==> b.replacedBy == a.replacedBy)
  }

  ghost predicate Keeps(s: Store, t: Store) {
    && |s.certs| <= |t.certs|
    && s.revocations <= t.revocations
    && forall i :: 0 <= i < |s.certs| ==> CertKeeps(s.certs[i], t.certs[i])
  }

  /** One row changed its status and perhaps its link; nothing else moved. */
  lemma RowChanged(u: Setup, s: Store, t: Store, i: nat)
    requires Inv(u, s) && i < |s.certs| == |t.certs|
    requires t.certs == s.certs[i := t.certs[i]] && CertKeeps(s.certs[i], t.certs[i])
    requires s.revocations <= t.revocations
    requires forall x :: x in t.revocations <==> x in s.revocations || (x == s.certs[i].row.values.serial && StatusOf(t.certs[i]) == Revoked)
    requires CertOk(u, t, i)
    ensures Inv(u, t) && Keeps(s, t)
  {
    forall j | 0 <= j < |t.certs| ensures CertOk(u, t, j) { assert CertOk(u, s, j); }
    forall x | x in t.revocations ensures SomeRevoked(t, x) {
      if x in s.revocations {
        assert SomeRevoked(s, x);
        var j :| 0 <= j < |s.certs| && s.certs[j].row.values.serial == x && StatusOf(s.certs[j]) == Revoked;
        assert t.certs[j].row.values.serial == x && StatusOf(t.certs[j]) == Revoked;
      } else {
        assert t.certs[i].row.values.serial == x;
      }
    }
  }

  lemma RowAdded(u: Setup, s: Store, f: Fields)
    requires Inv(u, s) && SerialFree(s, f.ca, f.serial) && f.status == Active
    ensures Inv(u, AfterRequest(u, s, f, None)) && Keeps(s, AfterRequest(u, s, f, None))
  {
    var t := AfterRequest(u, s, f, None);
    forall j | 0 <= j < |t.certs| ensures CertOk(u, t, j) { assert j < |s.certs| ==> CertOk(u, s, j); }
    forall x | x in t.revocations ensures SomeRevoked(t, x) {
      assert SomeRevoked(s, x);
      var j :| 0 <= j < |s.certs| && s.certs[j].row.values.serial == x && StatusOf(s.certs[j]) == Revoked;
      assert t.certs[j] == s.certs[j];
    }
  }

  lemma Linked(u: Setup, s: Store, prev: nat, next: nat)
    requires Inv(u, s) && prev < |s.certs| && StatusOf(s.certs[prev]) == Active
    requires s.certs[prev].row.values.source == IssuedHere ==> prev < next < |s.certs|
    ensures Inv(u, AfterLink(u, s, prev, next)) && Keeps(s, AfterLink(u, s, prev, next))
  {
    assert CertOk(u, s, prev);
    RowChanged(u, s, AfterLink(u, s, prev, next), prev);
  }

  lemma Replaced(u: Setup, s: Store, f: Fields, prev: nat)
    requires Inv(u, s) && SerialFree(s, f.ca, f.serial) && f.status == Active
    requires prev < |s.certs| && StatusOf(s.certs[prev]) == Active
    ensures Inv(u, AfterRequest(u, s, f, Some(prev))) && Keeps(s, AfterRequest(u, s, f, Some(prev)))
  {
    RowAdded(u, s, f);
    Linked(u, AfterRequest(u, s, f, None), prev, |s.certs|);
  }

  lemma RevokeKeeps(u: Setup, s: Store, i: nat, reason: Reason, upstream: UpstreamAnswer)
    requires Inv(u, s) && AfterRevoke(u, s, i, reason, upstream).Ok?
    ensures Inv(u, AfterRevoke(u, s, i, reason, upstream).value)
    ensures Keeps(s, AfterRevoke(u, s, i, reason, upstream).value)
  {
    hide NextCrl;
    var t := AfterRevoke(u, s, i, reason, upstream).value;
    if StatusOf(s.certs[i]) == Revoked && t.certs == s.certs {
      assert CertOk(u, s, i);
      RowChanged(u, s, t, i);
    } else {
      MarkKeeps(u, s, i, reason, t.crls);
    }
  }

  lemma MarkKeeps(u: Setup, s: Store, i: nat, reason: Reason, crls: map<nat, Crl>)
    requires Inv(u, s) && i < |s.certs|
    ensures var t := MarkRevoked(u, s, i, reason).(revocations := s.revocations + [s.certs[i].row.values.serial], crls := crls);
            Inv(u, t) && Keeps(s, t)
  {
    assert CertOk(u, s, i);
    RowChanged(u, s, MarkRevoked(u, s, i, reason).(revocations := s.revocations + [s.certs[i].row.values.serial], crls := crls), i);
  }

  lemma Unchanged(s: Store)
    ensures Keeps(s, s)
  {}

  lemma NoCaIsFree(s: Store, serial: nat)
    ensures SerialFree(s, None, serial)
  {}

  lemma PublishKeeps(u: Setup, s: Store, ca: nat)
    requires Inv(u, s)
    ensures Inv(u, AfterCrl(u, s, ca)) && Keeps(s, AfterCrl(u, s, ca))
  {
    hide NextCrl;
    var t := AfterCrl(u, s, ca);
    forall j | 0 <= j < |t.certs| ensures CertOk(u, t, j) { assert CertOk(u, s, j); }
    forall x | x in t.revocations ensures SomeRevoked(t, x) { assert SomeRevoked(s, x); }
  }

  lemma StepKeeps(u: Setup, s: Store, step: Step)
    requires Inv(u, s)
    ensures Inv(u, Next(u, s, step)) && Keeps(s, Next(u, s, step))
  {
    hide Inv, Keeps, SerialFree, AfterRequest, AfterRevoke, AfterLink, AfterCrl;
    Unchanged(s);
    match step
    case Issue(f, previous) =>
      if SerialFree(s, f.ca, f.serial) && f.status == Active {
        RowAdded(u, s, f);
        if previous.Some? && previous.value < |s.certs| && StatusOf(s.certs[previous.value]) == Active {
          Replaced(u, s, f, previous.value);
        }
      }
    case Renew(f, prev) =>
      if SerialFree(s, f.ca, f.serial) && f.status == Active && AfterRenew(u, s, f, prev).Ok? { Replaced(u, s, f, prev); }
    case Ingest(f) =>
      if f.ca.None? && f.status == Active {
        NoCaIsFree(s, f.serial);
        RowAdded(u, s, f);
      }
    case Retire(gone, current) =>
      if gone < |s.certs| && s.certs[gone].row.values.source == Discovered && StatusOf(s.certs[gone]) == Active && gone != current {
        Linked(u, s, gone, current);
      }
    case Revoke(id, reason, upstream) =>
      if AfterRevoke(u, s, id, reason, upstream).Ok? { RevokeKeeps(u, s, id, reason, upstream); }
    case Publish(ca) => PublishKeeps(u, s, ca);
  }

  lemma {:induction false} RunKeeps(u: Setup, steps: seq<Step>)
    requires u.cfg.key.Some?
    ensures Inv(u, Run(u, steps))
  {
    if steps != [] {
      RunKeeps(u, steps[..|steps| - 1]);
      StepKeeps(u, Run(u, steps[..|steps| - 1]), steps[|steps| - 1]);
    }
  }

  // ------------------------------------------------------------ over whole runs

  /** The rows and links `scan` would report: a broken seal, or a revocation the row does not show. */
  ghost predicate Flagged(u: Setup, s: Store, i: nat) {
    i < |s.certs| && (
      || !Verified(u, s.certs[i])
      || (StatusOf(s.certs[i]) != Revoked && s.certs[i].row.values.serial in s.revocations))
  }

  /** In every application-only run every seal fits, and a certificate is reported revoked
      exactly when the audit trail has the revocation of its serial, which is exactly when
      some certificate with that serial was revoked. The trail knows the bare serial only, so
      the row says so too, and the scan leaves it alone, unless it is the other's twin. */
  lemma RevokedIffAudited(u: Setup, steps: seq<Step>, i: nat)
    requires u.cfg.key.Some? && i < |Run(u, steps).certs|
    ensures var s := Run(u, steps);
            var serial := s.certs[i].row.values.serial;
            && Verified(u, s.certs[i])
            && (TrustedStatus(u, s.revocations, s.certs[i]) == Revoked <==> serial in s.revocations)
            && (serial in s.revocations <==> SomeRevoked(s, serial))
            && (Flagged(u, s, i) <==> StatusOf(s.certs[i]) != Revoked && SomeRevoked(s, serial))
  {
    RunKeeps(u, steps);
    var s := Run(u, steps);
    assert CertOk(u, s, i);
    if SomeRevoked(s, s.certs[i].row.values.serial) {
      var j: nat :| j < |s.certs| && s.certs[j].row.values.serial == s.certs[i].row.values.serial && StatusOf(s.certs[j]) == Revoked;
      assert CertOk(u, s, j);
    }
  }

  /** A local certificate and one the inventory found at an upstream CA, of the same serial. */
  function Twins(f: Fields, g: Fields, reason: Reason): seq<Step> {
    [] + [Issue(f, None)] + [Ingest(g)] + [Revoke(1, reason, Accepted)]
  }

  /** Revoking the one that was found has the local one reported revoked, and flagged. */
  lemma TwinIsReportedRevoked(u: Setup, f: Fields, g: Fields, reason: Reason)
    requires u.cfg.key.Some? && f.serial == g.serial && f.status == g.status == Active
    requires f.source == IssuedHere && g.source != IssuedHere && g.ca.None? && g.backend == Upstream
    ensures var s := Run(u, Twins(f, g, reason));
            && |s.certs| == 2 && s.certs[0].row.values == f
            && TrustedStatus(u, s.revocations, s.certs[0]) == Revoked && Flagged(u, s, 0)
  {
    var issued: seq<Step> := [] + [Issue(f, None)];
    RunSnoc(u, [], Issue(f, None));
    RunSnoc(u, issued, Ingest(g));
    RunSnoc(u, issued + [Ingest(g)], Revoke(1, reason, Accepted));
    var s := Run(u, Twins(f, g, reason));
    assert StatusOf(s.certs[1]) == Revoked && s.certs[1].row.values.serial == f.serial;
    RevokedIffAudited(u, Twins(f, g, reason), 0);
  }

  lemma RunSnoc(u: Setup, steps: seq<Step>, step: Step)
    ensures Run(u, steps + [step]) == Next(u, Run(u, steps), step)
  {
    assert (steps + [step])[..|steps|] == steps;
  }

  lemma KeepsTrans(s: Store, t: Store, w: Store)
    requires Keeps(s, t) && Keeps(t, w)
    ensures Keeps(s, w)
  {
    forall i | 0 <= i < |s.certs| ensures CertKeeps(s.certs[i], w.certs[i]) {
      assert CertKeeps(s.certs[i], t.certs[i]) && CertKeeps(t.certs[i], w.certs[i]);
    }
  }

  /** From any point of a run to its end: no certificate is un-revoked or reactivated, its
      identity never changes, and a replacement link, once written, stays. */
  lemma {:induction false} NeverBackward(u: Setup, steps: seq<Step>, n: nat)
    requires u.cfg.key.Some? && n <= |steps|
    ensures Keeps(Run(u, steps[..n]), Run(u, steps))
    decreases |steps| - n
  {
    if n == |steps| {
      assert steps[..n] == steps;
    } else {
      RunKeeps(u, steps[..n]);
      assert steps[..n + 1][..n] == steps[..n];
      StepKeeps(u, Run(u, steps[..n]), steps[n]);
      NeverBackward(u, steps, n + 1);
      KeepsTrans(Run(u, steps[..n]), Run(u, steps[..n + 1]), Run(u, steps));
    }
  }

  /** The `k`th certificate of the path was issued here and gave way to the next one. */
  ghost predicate GaveWay(s: Store, path: seq<nat>, k: int) {
    0 <= k < |path| - 1 && path[k] < |s.certs| &&
    s.certs[path[k]].row.values.source == IssuedHere && s.certs[path[k]].replacedBy == Some(path[k + 1])
  }

  /** A walk along replacement links of certificates issued here. */
  ghost predicate ReplacementPath(s: Store, path: seq<nat>) {
    && (forall k :: 0 <= k < |path| ==> path[k] < |s.certs|)
    && forall k {:trigger GaveWay(s, path, k)} :: 0 <= k < |path| - 1 ==> GaveWay(s, path, k)
  }

  lemma {:induction false} PathAscends(u: Setup, s: Store, path: seq<nat>)
    requires Inv(u, s) && ReplacementPath(s, path)
    ensures forall j, k :: 0 <= j < k < |path| ==> path[j] < path[k]
    ensures path != [] ==> |path| <= path[|path| - 1] + 1
    decreases |path|
  {
    if |path| > 1 {
      var n := |path| - 1;
      var init := path[..n];
      forall k {:trigger GaveWay(s, init, k)} | 0 <= k < |init| - 1 ensures GaveWay(s, init, k) {
        assert GaveWay(s, path, k);
      }
      PathAscends(u, s, init);
      assert GaveWay(s, path, n - 1);
      assert CertOk(u, s, path[n - 1]);
    }
  }

  /** Every link leads to a strictly newer certificate, so no walk repeats one and every
      walk ends after at most as many steps as there are certificates. */
  lemma ReplacementChainsEnd(u: Setup, steps: seq<Step>, path: seq<nat>)
    requires u.cfg.key.Some? && ReplacementPath(Run(u, steps), path)
    ensures forall j, k :: 0 <= j < k < |path| ==> path[j] < path[k]
    ensures |path| <= |Run(u, steps).certs|
  {
    RunKeeps(u, steps);
    PathAscends(u, Run(u, steps), path);
  }

  // ------------------------------------------------------------ rewritten rows

  /** Some row has this serial and this issuing CA. */
  ghost predicate StillThere(s: Store, ca: nat, serial: nat) {
    exists i :: 0 <= i < |s.certs| && s.certs[i].row.values.serial == serial && s.certs[i].row.values.ca == Some(ca)
  }

  ghost predicate Listed(crl: Crl, serial: nat) {
    exists k :: 0 <= k < |crl.entries| && crl.entries[k].serial == serial
  }

  /** The CRL is built from the rows of its CA: an audited serial is on it exactly when one of them still has it. */
  lemma ListedIff(u: Setup, s: Store, ca: nat, serial: nat)
    requires u.cfg.key.Some? && serial in s.revocations
    ensures Listed(NextCrl(u, s, ca), serial) <==> StillThere(s, ca, serial)
  {
    CrlListsExactlyTheRevoked(u, s, ca);
    var rows, entries := CrlRows(u, s, ca), NextCrl(u, s, ca).entries;
    if StillThere(s, ca, serial) {
      var i: nat :| i < |s.certs| && s.certs[i].row.values.serial == serial && s.certs[i].row.values.ca == Some(ca);
      assert TrustedRevoked(u, s, ca, i) && i in rows;
      var k :| 0 <= k < |rows| && rows[k] == i;
      assert entries[k].serial == serial;
    }
    if Listed(NextCrl(u, s, ca), serial) {
      var k :| 0 <= k < |entries| && entries[k].serial == serial;
      assert rows[k] in rows && TrustedRevoked(u, s, ca, rows[k]);
    }
  }

  /** So does OCSP answer, and otherwise it does not know the certificate. */
  lemma AnsweredRevokedIff(u: Setup, s: Store, ca: nat, serial: nat)
    requires u.cfg.key.Some? && SerialsUnique(s.certs) && serial in s.revocations
    ensures Ocsp(u, s, ca, serial) == (if StillThere(s, ca, serial) then Some(RevokedResponse) else Some(Unknown))
  {
    if StillThere(s, ca, serial) {
      CrlListsExactlyTheRevoked(u, s, ca);
      OcspAgreesWithCrl(u, s, ca, serial);
      var i: nat :| i < |s.certs| && s.certs[i].row.values.serial == serial && s.certs[i].row.values.ca == Some(ca);
      assert TrustedRevoked(u, s, ca, i) && i in CrlRows(u, s, ca);
    } else {
      UnknownWhenGone(u, s, ca, serial);
    }
  }

  lemma UnknownWhenGone(u: Setup, s: Store, ca: nat, serial: nat)
    requires !StillThere(s, ca, serial)
    ensures Ocsp(u, s, ca, serial) == Some(Unknown)
  {
    NothingFound(s.certs, Serial(ca, serial));
  }

  lemma {:induction false} NothingFound(certs: seq<Cert>, q: Query)
    requires forall i :: 0 <= i < |certs| ==> !Hits(q, certs[i])
    ensures Select(certs, q) == []
  {
    if certs != [] { NothingFound(certs[..|certs| - 1], q); }
  }

  /** What an SQL writer can and cannot take back. After an application run, put anything in
      any row, restore any old copy, drop rows or add some; the audit trail still has the
      events. A serial that was revoked is on the CRL of a CA, and OCSP answers revoked for
      it, exactly when some row still has that serial and that CA. Any row with the serial is
      trusted as revoked only, and a row trusted otherwise carries a valid seal. */
  lemma RevocationSurvivesSqlIff(u: Setup, steps: seq<Step>, tampered: Store, ca: nat, serial: nat)
    requires u.cfg.key.Some? && WasRevoked(u, steps, serial)
    requires Run(u, steps).revocations <= tampered.revocations
    ensures Listed(NextCrl(u, tampered, ca), serial) <==> StillThere(tampered, ca, serial)
    ensures SerialsUnique(tampered.certs) ==>
              Ocsp(u, tampered, ca, serial) == (if StillThere(tampered, ca, serial) then Some(RevokedResponse) else Some(Unknown))
    ensures forall c :: c in tampered.certs && c.row.values.serial == serial ==> TrustedStatus(u, tampered.revocations, c) == Revoked
    ensures forall c :: c in tampered.certs && TrustedStatus(u, tampered.revocations, c) != Revoked ==>
                          Verified(u, c) && !WasRevoked(u, steps, c.row.values.serial)
  {
    RevokedIsAudited(u, steps, tampered, serial);
    ListedIff(u, tampered, ca, serial);
    if SerialsUnique(tampered.certs) { AnsweredRevokedIff(u, tampered, ca, serial); }
    forall c | c in tampered.certs && TrustedStatus(u, tampered.revocations, c) != Revoked
      ensures Verified(u, c) && !WasRevoked(u, steps, c.row.values.serial)
    {
      if WasRevoked(u, steps, c.row.values.serial) { RevokedIsAudited(u, steps, tampered, c.row.values.serial); }
    }
  }

  /** At some point of the run a certificate with this serial was revoked. */
  ghost predicate WasRevoked(u: Setup, steps: seq<Step>, serial: nat) {
    exists n, j :: 0 <= n <= |steps| && 0 <= j < |Run(u, steps[..n]).certs|
                   && Run(u, steps[..n]).certs[j].row.values.serial == serial
                   && StatusOf(Run(u, steps[..n]).certs[j]) == Revoked
  }

  lemma RevokedIsAudited(u: Setup, steps: seq<Step>, tampered: Store, serial: nat)
    requires u.cfg.key.Some? && WasRevoked(u, steps, serial)
    requires Run(u, steps).revocations <= tampered.revocations
    ensures serial in tampered.revocations
  {
    var n, j :| 0 <= n <= |steps| && 0 <= j < |Run(u, steps[..n]).certs|
             && Run(u, steps[..n]).certs[j].row.values.serial == serial
             && StatusOf(Run(u, steps[..n]).certs[j]) == Revoked;
    RevokedIffAudited(u, steps[..n], j);
    NeverBackward(u, steps, n);
  }

  /** The SQL writes that make a revoked row stop counting for its CA. */
  datatype Removal = Drop | Move(ca: Option<nat>) | Renumber(serial: nat)

  function Without(s: Store, i: nat, r: Removal): Store
    requires i < |s.certs|
  {
    var c := s.certs[i];
    match r
    case Drop => s.(certs := s.certs[..i] + s.certs[i + 1..])
    case Move(ca) => s.(certs := s.certs[i := c.(row := c.row.(values := c.row.values.(ca := ca)))])
    case Renumber(serial) => s.(certs := s.certs[i := c.(row := c.row.(values := c.row.values.(serial := serial)))])
  }

  /** Dropping a revoked row, or writing another CA or another serial in it, takes its serial
      off the next CRL of its CA, and OCSP no longer knows it. */
  lemma RemovedRowIsForgotten(u: Setup, steps: seq<Step>, i: nat, ca: nat, r: Removal)
    requires u.cfg.key.Some? && i < |Run(u, steps).certs| && StatusOf(Run(u, steps).certs[i]) == Revoked
    requires Run(u, steps).certs[i].row.values.ca == Some(ca)
    requires r.Move? ==> r.ca != Some(ca)
    requires r.Renumber? ==> r.serial != Run(u, steps).certs[i].row.values.serial
    ensures var s, serial := Run(u, steps), Run(u, steps).certs[i].row.values.serial;
            && Listed(NextCrl(u, s, ca), serial) && Ocsp(u, s, ca, serial) == Some(RevokedResponse)
            && !Listed(NextCrl(u, Without(s, i, r), ca), serial) && Ocsp(u, Without(s, i, r), ca, serial) == Some(Unknown)
  {
    RunKeeps(u, steps);
    var s := Run(u, steps);
    var serial, t := s.certs[i].row.values.serial, Without(s, i, r);
    RevokedIffAudited(u, steps, i);
    assert StillThere(s, ca, serial);
    ListedIff(u, s, ca, serial);
    AnsweredRevokedIff(u, s, ca, serial);
    GoneFrom(s, i, ca, r);
    ListedIff(u, t, ca, serial);
    UnknownWhenGone(u, t, ca, serial);
  }

  lemma GoneFrom(s: Store, i: nat, ca: nat, r: Removal)
    requires SerialsUnique(s.certs) && i < |s.certs| && s.certs[i].row.values.ca == Some(ca)
    requires r.Move? ==> r.ca != Some(ca)
    requires r.Renumber? ==> r.serial != s.certs[i].row.values.serial
    ensures !StillThere(Without(s, i, r), ca, s.certs[i].row.values.serial)
  {
    var t := Without(s, i, r);
    forall j | 0 <= j < |t.certs| && t.certs[j].row.values.ca == Some(ca)
      ensures t.certs[j].row.values.serial != s.certs[i].row.values.serial
    {
      if r.Drop? { assert t.certs[j] == if j < i then s.certs[j] else s.certs[j + 1]; }
    }
  }
}
