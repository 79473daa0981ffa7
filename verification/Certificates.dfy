/** Issued certificates from issue to revocation (services.py, ca/authority.py,
    integrity.py `trusted_status`, revocation/ocsp.py): status, replacement links, the
    audit trail's record of revocations, the CRL and OCSP.

    A row's id is its position in `certs`; rows are never deleted. */
module Certificates {
  import opened Prelude
  import opened Seals

  datatype Status = Active | Superseded | Revoked
  datatype Source = IssuedHere | Discovered | Imported
  datatype Backend = Local | Adcs | Upstream

  /** The reasons of the REASONS table, and whatever else a caller may pass. */
  datatype Reason =
    | Unspecified | KeyCompromise | CaCompromise | AffiliationChanged | SupersededReason
    | CessationOfOperation | CertificateHold | PrivilegeWithdrawn
    | NotAReason(text: string)

  /** The sealed fields of a certificate row. */
  datatype Fields = Fields(fingerprint: nat, serial: nat, ca: Option<nat>, app: Option<nat>, status: Status,
                           reason: Option<Reason>, source: Source, backend: Backend)

  datatype Cert = Cert(row: Row<Fields>, replacedBy: Option<nat>)

  datatype Entry = Entry(serial: nat, reason: Reason)
  datatype Crl = Crl(number: nat, entries: seq<Entry>)

  /** `revocations` are the targets of the audit trail's certificate.revoke events. */
  datatype Store = Store(certs: seq<Cert>, revocations: seq<nat>, crls: map<nat, Crl>)

  type FieldMac = (Key, Fields) -> Seal
  datatype Setup = Setup(mac: FieldMac, cfg: Config)

  // ------------------------------------------------------------ what is reported

  function Verified(u: Setup, c: Cert): bool { Verify(u.mac, u.cfg, c.row) }

  function StatusOf(c: Cert): Status { c.row.values.status }

  /** What a relying party is told about a row: fail closed. */
  function TrustedStatus(u: Setup, revocations: seq<nat>, c: Cert): Status {
    if !Verified(u, c) then Revoked
    else if StatusOf(c) != Revoked && u.cfg.key.Some? && c.row.values.serial in revocations then Revoked
    else StatusOf(c)
  }

  /** The three queries on the certificate table. */
  datatype Query =
    | StatusRevoked(ca: nat)
    | Suspect(u: Setup, revocations: seq<nat>, ca: nat)
    | Serial(ca: nat, serial: nat)

  /** `Suspect` finds rows whose status is not revoked, but whose seal is broken or whose
      revocation is in the audit trail. */
  predicate Hits(q: Query, c: Cert) {
    var f := c.row.values;
    match q
    case StatusRevoked(ca) => f.ca == Some(ca) && f.status == Revoked
    case Suspect(u, revocations, ca) => f.ca == Some(ca) && f.status != Revoked && (!Verified(u, c) || f.serial in revocations)
    case Serial(ca, serial) => f.ca == Some(ca) && f.serial == serial
  }

  function EntryFor(u: Setup, c: Cert): Entry {
    var ok := StatusOf(c) == Revoked && Verified(u, c);
    Entry(c.row.values.serial, if ok && c.row.values.reason.Some? then c.row.values.reason.value else Unspecified)
  }

  /** The positions of the rows a query finds, in order. */
  function Select(certs: seq<Cert>, q: Query): (r: seq<nat>)
    ensures forall k :: 0 <= k < |r| ==> r[k] < |certs|
  {
    if certs == [] then []
    else
      var n := |certs| - 1;
      Select(certs[..n], q) + if Hits(q, certs[n]) then [n] else []
  }

  lemma {:induction false} SelectFinds(certs: seq<Cert>, q: Query)
    ensures forall i: nat :: i in Select(certs, q) <==> i < |certs| && Hits(q, certs[i])
    ensures forall i, j :: 0 <= i < j < |Select(certs, q)| ==> Select(certs, q)[i] < Select(certs, q)[j]
  {
    if certs != [] {
      SelectFinds(certs[..|certs| - 1], q);
    }
  }

  /** The rows a CRL of `ca` lists, in the order it lists them. */
  function CrlRows(u: Setup, s: Store, ca: nat): (r: seq<nat>)
    ensures forall k :: 0 <= k < |r| ==> r[k] < |s.certs|
  {
    Select(s.certs, StatusRevoked(ca)) + Select(s.certs, Suspect(u, s.revocations, ca))
  }

  function Entries(u: Setup, certs: seq<Cert>, rows: seq<nat>): seq<Entry>
    requires forall k :: 0 <= k < |rows| ==> rows[k] < |certs|
  {
    seq(|rows|, k requires 0 <= k < |rows| => EntryFor(u, certs[rows[k]]))
  }

  /** One entry per row the query finds. */
  method Collect(u: Setup, certs: seq<Cert>, q: Query) returns (entries: seq<Entry>)
    ensures entries == Entries(u, certs, Select(certs, q))
  {
    entries := [];
    for i := 0 to |certs|
      invariant entries == Entries(u, certs, Select(certs[..i], q))
    {
      assert certs[..i + 1][..i] == certs[..i];
      if Hits(q, certs[i]) { entries := entries + [EntryFor(u, certs[i])]; }
    }
    assert certs[..|certs|] == certs;
  }

  datatype OcspStatus = Good | RevokedResponse | Unknown

  /** None when the lookup finds more than one row, which the responder treats as an error. */
  function Ocsp(u: Setup, s: Store, ca: nat, serial: nat): Option<OcspStatus> {
    var rows := Select(s.certs, Serial(ca, serial));
    if rows == [] then Some(Unknown)
    else if |rows| > 1 then None
    else
      var c := s.certs[rows[0]];
      if StatusOf(c) != Revoked && TrustedStatus(u, s.revocations, c) == Revoked then Some(RevokedResponse)
      else if StatusOf(c) == Revoked then Some(RevokedResponse)
      else Some(Good)
  }

  // ------------------------------------------------------------ CRL and OCSP agree

  /** Sealing is off and a row contradicts the audit trail: the CRL still trusts the trail, `TrustedStatus` does not. */
  ghost predicate KeylessDisagreement(u: Setup, s: Store, ca: nat) {
    && u.cfg.key.None?
    && exists i :: 0 <= i < |s.certs| && s.certs[i].row.values.ca == Some(ca)
                   && StatusOf(s.certs[i]) != Revoked && s.certs[i].row.values.serial in s.revocations
  }

  ghost predicate TrustedRevoked(u: Setup, s: Store, ca: nat, i: nat) {
    i < |s.certs| && s.certs[i].row.values.ca == Some(ca) && TrustedStatus(u, s.revocations, s.certs[i]) == Revoked
  }

  /** Whatever anybody wrote to the rows, the CRL of `ca` lists no certificate twice. It
      lists exactly the ones whose trusted status is revoked, unless sealing is off and
      a row contradicts the audit trail. */
  lemma CrlListsExactlyTheRevoked(u: Setup, s: Store, ca: nat)
    ensures var rows := CrlRows(u, s, ca); forall j, k :: 0 <= j < k < |rows| ==> rows[j] != rows[k]
    ensures (forall i: nat :: i in CrlRows(u, s, ca) <==> TrustedRevoked(u, s, ca, i)) <==> !KeylessDisagreement(u, s, ca)
  {
    var revoked, suspect := StatusRevoked(ca), Suspect(u, s.revocations, ca);
    SelectFinds(s.certs, revoked);
    SelectFinds(s.certs, suspect);
    var rows, m := CrlRows(u, s, ca), |Select(s.certs, revoked)|;
    forall j, k | 0 <= j < k < |rows| ensures rows[j] != rows[k] {
      if j < m <= k {
        assert rows[j] in Select(s.certs, revoked) && rows[k] in Select(s.certs, suspect);
      }
    }
    forall i: nat ensures i in rows <==> i < |s.certs| && (Hits(revoked, s.certs[i]) || Hits(suspect, s.certs[i])) {
      assert i in rows <==> i in Select(s.certs, revoked) || i in Select(s.certs, suspect);
    }
    if KeylessDisagreement(u, s, ca) {
      var i :| 0 <= i < |s.certs| && s.certs[i].row.values.ca == Some(ca)
            && StatusOf(s.certs[i]) != Revoked && s.certs[i].row.values.serial in s.revocations;
      assert i in rows && !TrustedRevoked(u, s, ca, i);
    }
  }

  /** No CA has two certificates of one serial. Certificates from elsewhere, which have no CA
      here, may carry any. */
  ghost predicate SerialsUnique(certs: seq<Cert>) {
    forall i, j :: 0 <= i < j < |certs| && certs[i].row.values.ca.Some? && certs[i].row.values.ca == certs[j].row.values.ca
                   ==> certs[i].row.values.serial != certs[j].row.values.serial
  }

  lemma {:induction false} AtMostOneRow(certs: seq<Cert>, ca: nat, serial: nat)
    requires SerialsUnique(certs)
    ensures |Select(certs, Serial(ca, serial))| <= 1
  {
    if certs != [] {
      var init := certs[..|certs| - 1];
      AtMostOneRow(init, ca, serial);
      SelectFinds(init, Serial(ca, serial));
      var rows := Select(init, Serial(ca, serial));
      assert rows != [] ==> rows[0] in rows;
    }
  }

  /** OCSP answers revoked exactly for the serials the CRL lists, however the rows were tampered with. */
  lemma OcspAgreesWithCrl(u: Setup, s: Store, ca: nat, serial: nat)
    requires SerialsUnique(s.certs) && u.cfg.key.Some?
    ensures Ocsp(u, s, ca, serial) == Some(RevokedResponse)
       <==> exists i: nat :: i in CrlRows(u, s, ca) && s.certs[i].row.values.serial == serial
  {
    var rows := Select(s.certs, Serial(ca, serial));
    SelectFinds(s.certs, Serial(ca, serial));
    CrlListsExactlyTheRevoked(u, s, ca);
    if rows == [] {
      forall i: nat | i in CrlRows(u, s, ca) ensures s.certs[i].row.values.serial != serial {
        assert TrustedRevoked(u, s, ca, i) && !Hits(Serial(ca, serial), s.certs[i]);
      }
    } else {
      assert rows[0] in rows;
      AtMostOneRow(s.certs, ca, serial);
      if TrustedRevoked(u, s, ca, rows[0]) { assert rows[0] in CrlRows(u, s, ca); }
      forall i: nat | i in CrlRows(u, s, ca) && s.certs[i].row.values.serial == serial ensures i == rows[0] {
        assert TrustedRevoked(u, s, ca, i);
      }
    }
  }

  // ------------------------------------------------------------ the application's operations

  datatype Error = NotFound | NotActive(status: Status) | NotIssuedHere | UnknownReason | NotConfigured | BackendFailed | NoCa

  predicate KnownReason(r: Reason) { !r.NotAReason? }

  /** Add a freshly signed certificate. */
  function Issue(u: Setup, s: Store, f: Fields): Store {
    s.(certs := s.certs + [Cert(Row(f, Compute(u.mac, u.cfg, f)), None)])
  }

  function SetFields(u: Setup, s: Store, i: nat, f: Fields): Store
    requires i < |s.certs|
  {
    s.(certs := s.certs[i := s.certs[i].(row := Updated(u.mac, u.cfg, s.certs[i].row, f))])
  }

  function AfterLink(u: Setup, s: Store, prev: nat, next: nat): Store
    requires prev < |s.certs|
  {
    var f := s.certs[prev].row.values.(status := Superseded);
    var t := SetFields(u, s, prev, f);
    t.(certs := t.certs[prev := t.certs[prev].(replacedBy := Some(next))])
  }

  /** Issue, and mark the certificate being renewed as replaced. The caller has checked `previous`. */
  function AfterRequest(u: Setup, s: Store, f: Fields, previous: Option<nat>): Store
    requires previous.Some? ==> previous.value < |s.certs|
  {
    var t := Issue(u, s, f);
    if previous.Some? then AfterLink(u, t, previous.value, |s.certs|) else t
  }

  /** REST renewal refuses a certificate that is not active or was not issued here. */
  function AfterRenew(u: Setup, s: Store, f: Fields, prev: nat): Result<Store, Error> {
    if prev >= |s.certs| || s.certs[prev].row.values.source != IssuedHere then Err(NotFound)
    else if StatusOf(s.certs[prev]) != Active then Err(NotActive(StatusOf(s.certs[prev])))
    else Ok(AfterRequest(u, s, f, Some(prev)))
  }

  /** ACME finalize and approved renewals issue in any case, and link only an active certificate. */
  function AfterReplacing(u: Setup, s: Store, f: Fields, prev: Option<nat>): Store {
    if prev.Some? && prev.value < |s.certs| && StatusOf(s.certs[prev.value]) == Active
    then AfterRequest(u, s, f, prev)
    else AfterRequest(u, s, f, None)
  }

  /** A scan found another certificate at a discovered certificate's endpoint. */
  function AfterRetire(u: Setup, s: Store, gone: nat, current: nat): Store {
    if gone < |s.certs| && s.certs[gone].row.values.source == Discovered && StatusOf(s.certs[gone]) == Active && gone != current
    then AfterLink(u, s, gone, current)
    else s
  }

  function NextCrl(u: Setup, s: Store, ca: nat): Crl {
    Crl(if ca in s.crls then s.crls[ca].number + 1 else 1, Entries(u, s.certs, CrlRows(u, s, ca)))
  }

  function AfterCrl(u: Setup, s: Store, ca: nat): Store {
    s.(crls := s.crls[ca := NextCrl(u, s, ca)])
  }

  function MarkRevoked(u: Setup, s: Store, i: nat, reason: Reason): Store
    requires i < |s.certs|
  {
    SetFields(u, s, i, s.certs[i].row.values.(status := Revoked, reason := Some(reason)))
  }

  /** How the upstream CA, if any, takes the revocation. */
  datatype UpstreamAnswer = Accepted | Refused | Missing

  /** Revoke one certificate, publish the CRL for a local one, and record it in the audit trail. */
  function AfterRevoke(u: Setup, s: Store, i: nat, reason: Reason, upstream: UpstreamAnswer): Result<Store, Error> {
    if i >= |s.certs| then Err(NotFound)
    else
      var f := s.certs[i].row.values;
      var marked: Result<Store, Error> :=
        match f.backend
        case Adcs => Ok(MarkRevoked(u, s, i, reason))
        case Upstream =>
          (match upstream
           case Missing => Err(NotConfigured)
           case Refused => Err(BackendFailed)
           case Accepted => Ok(MarkRevoked(u, s, i, reason)))
        case Local =>
          if !KnownReason(reason) then Err(UnknownReason)
          else if f.source != IssuedHere then Err(NotIssuedHere)
          else if f.ca.None? then Err(NoCa)
          else Ok(AfterCrl(u, if f.status == Revoked then s else MarkRevoked(u, s, i, reason), f.ca.value));
      match marked
      case Err(e) => Err(e)
      case Ok(t) => Ok(t.(revocations := t.revocations + [f.serial]))
  }

  /** The certificate tables, changed in place by the operations above. */
  class Database {
    const u: Setup
    var certs: seq<Cert>
    var revocations: seq<nat>
    var crls: map<nat, Crl>

    constructor (setup: Setup)
      ensures u == setup && State() == Store([], [], map[])
    {
      u, certs, revocations, crls := setup, [], [], map[];
    }

    function State(): Store
      reads this
    {
      Store(certs, revocations, crls)
    }

    method RequestCertificate(f: Fields, previous: Option<nat>) returns (id: nat)
      requires previous.Some? ==> previous.value < |certs|
      modifies this`certs
      ensures id == |old(certs)| && State() == AfterRequest(u, old(State()), f, previous)
    {
      id := |certs|;
      certs := certs + [Cert(Row(f, Compute(u.mac, u.cfg, f)), None)];
      if previous.Some? {
        var p := certs[previous.value];
        var row := Updated(u.mac, u.cfg, p.row, p.row.values.(status := Superseded));
        certs := certs[previous.value := Cert(row, Some(id))];
      }
    }

    method GenerateCrl(ca: nat)
      modifies this`crls
      ensures State() == AfterCrl(u, old(State()), ca)
    {
      var entries := Collect(u, certs, StatusRevoked(ca));
      var suspect := Collect(u, certs, Suspect(u, revocations, ca));
      entries := entries + suspect;
      var number := if ca in crls then crls[ca].number + 1 else 1;
      assert NextCrl(u, State(), ca) == Crl(number, entries);
      crls := crls[ca := Crl(number, entries)];
    }

    method Revoke(i: nat, reason: Reason, upstream: UpstreamAnswer) returns (error: Option<Error>)
      modifies this
      ensures var r := AfterRevoke(u, old(State()), i, reason, upstream);
              match r
              case Err(e) => error == Some(e) && State() == old(State())
              case Ok(t) => error == None && State() == t
    {
      if i >= |certs| { return Some(NotFound); }
      var f := certs[i].row.values;
      if f.backend == Upstream && upstream == Missing { return Some(NotConfigured); }
      if f.backend == Upstream && upstream == Refused { return Some(BackendFailed); }
      if f.backend == Local && !KnownReason(reason) { return Some(UnknownReason); }
      if f.backend == Local && f.source != IssuedHere { return Some(NotIssuedHere); }
      if f.backend == Local && f.ca == None { return Some(NoCa); }
      if f.backend != Local || f.status != Revoked {
        var row := Updated(u.mac, u.cfg, certs[i].row, f.(status := Revoked, reason := Some(reason)));
        certs := certs[i := certs[i].(row := row)];
      }
      if f.backend == Local { GenerateCrl(f.ca.value); }
      revocations := revocations + [f.serial];
      return None;
    }
  }
}
