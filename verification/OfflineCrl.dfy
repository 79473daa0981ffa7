/** The offline root's revocation list (ca/offline.py): an air-gapped directory that only
    appends to its logs and counts its CRLs, and a server that imports what it is handed. */
module OfflineCrl {
  import opened Prelude

  const DAY: int := 24 * 3600

  datatype Reason = Unspecified | KeyCompromise | CaCompromise | Superseded | CessationOfOperation | Other(name: string)

  datatype Revoked = Revoked(serial: string, reason: Reason)

  /** A signed CRL: number, nextUpdate and entries. `genuine` says that it names the root
      and its signature verifies, which only the root's key can bring about. */
  datatype Crl = Crl(number: nat, nextUpdate: int, entries: seq<Revoked>, genuine: bool)

  datatype Error = NotSigned | BadReason | BadSignature | NotNewer | PastNextUpdate

  // ------------------------------------------------------------ serial numbers as text

  function Lower(s: string): (r: string)
    ensures |r| == |s|
  {
    seq(|s|, i requires 0 <= i < |s| => if 'A' <= s[i] <= 'Z' then (s[i] as int + 32) as char else s[i])
  }

  function StripZeros(s: string): (r: string)
    ensures r != [] ==> r[0] != '0'
    ensures |r| <= |s| && s[|s| - |r|..] == r
    ensures forall i :: 0 <= i < |s| - |r| ==> s[i] == '0'
  {
    if s != [] && s[0] == '0' then StripZeros(s[1..]) else s
  }

  function Normal(s: string): string {
    var t := StripZeros(Lower(s));
    if t == "" then "0" else t
  }

  /** A serial as the signing log writes it: lower-case hexadecimal, no leading zero, not zero. */
  predicate Printed(s: string) {
    s != "" && s[0] != '0' && forall i :: 0 <= i < |s| ==> !('A' <= s[i] <= 'Z')
  }

  /** However many zeros and capitals the operator types, the serial found is the one meant. */
  lemma NormalFindsPrinted(s: string, zeros: nat, typed: string)
    requires Printed(s) && |typed| == zeros + |s|
    requires (forall i :: 0 <= i < zeros ==> typed[i] == '0') && Lower(typed[zeros..]) == s
    ensures Normal(typed) == s
  {
    var t := Lower(typed);
    assert t[zeros..] == Lower(typed[zeros..]);
    assert forall i :: 0 <= i < zeros ==> t[i] == '0';
    StripsLeadingZeros(t, zeros, s);
  }

  lemma {:induction false} StripsLeadingZeros(t: string, zeros: nat, s: string)
    requires |t| == zeros + |s| && t[zeros..] == s && s != "" && s[0] != '0' && forall i :: 0 <= i < zeros ==> t[i] == '0'
    ensures StripZeros(t) == s
  {
    if zeros > 0 { StripsLeadingZeros(t[1..], zeros - 1, s); }
  }

  // ------------------------------------------------------------ the air-gapped directory

  predicate Knows(signed: seq<string>, normal: string) {
    exists i :: 0 <= i < |signed| && StripZeros(signed[i]) == normal
  }

  /** The operator may type capitals and leading zeros. */
  predicate SameSerial(printed: string, typed: string) {
    && |printed| <= |typed|
    && (forall i :: 0 <= i < |typed| - |printed| ==> typed[i] == '0')
    && forall i {:trigger printed[i]} :: 0 <= i < |printed| ==> SameDigit(printed[i], typed[|typed| - |printed| + i])
  }

  predicate SameDigit(c: char, typed: char) {
    typed == c || ('A' <= typed <= 'Z' && typed as int - 'A' as int == c as int - 'a' as int)
  }

  lemma SameMeansLower(s: string, typed: string)
    requires Printed(s)
    ensures SameSerial(s, typed) <==>
              |s| <= |typed| && (forall i :: 0 <= i < |typed| - |s| ==> typed[i] == '0') && Lower(typed[|typed| - |s|..]) == s
  {
    if |s| <= |typed| {
      var tail := typed[|typed| - |s|..];
      if Lower(tail) == s {
        forall i | 0 <= i < |s| ensures SameDigit(s[i], typed[|typed| - |s| + i]) {
          assert Lower(tail)[i] == s[i] && tail[i] == typed[|typed| - |s| + i];
        }
      }
      if SameSerial(s, typed) {
        forall i | 0 <= i < |s| ensures Lower(tail)[i] == s[i] { assert SameDigit(s[i], typed[|typed| - |s| + i]); }
      }
    }
  }

  lemma StrippedTail(t: string)
    ensures var r := StripZeros(t); |r| <= |t| && t[|t| - |r|..] == r && forall i :: 0 <= i < |t| - |r| ==> t[i] == '0'
  {}

  lemma NormalIsStripped(s: string, typed: string)
    requires Printed(s) && Normal(typed) == s && s != "0"
    ensures |s| <= |typed| && (forall i :: 0 <= i < |typed| - |s| ==> typed[i] == '0') && Lower(typed[|typed| - |s|..]) == s
  {
    var low := Lower(typed);
    StrippedTail(low);
    assert low[|low| - |s|..] == s;
    forall k | 0 <= k < |typed| - |s| ensures typed[k] == '0' { assert low[k] == '0'; }
    assert Lower(typed[|typed| - |s|..]) == low[|low| - |s|..];
  }

  /** A printed serial is the one meant exactly if, but for capitals and leading zeros, it was typed. */
  lemma MeantIff(s: string, typed: string)
    requires Printed(s)
    ensures StripZeros(s) == Normal(typed) <==> SameSerial(s, typed)
  {
    hide SameSerial, Normal;
    SameMeansLower(s, typed);
    if SameSerial(s, typed) { NormalFindsPrinted(s, |typed| - |s|, typed); }
    if s == Normal(typed) { NormalIsStripped(s, typed); }
  }

  /** A serial is found exactly if it is, apart from capitals and leading zeros, one that was signed. */
  lemma FoundIff(signed: seq<string>, typed: string)
    requires forall i {:trigger signed[i]} :: 0 <= i < |signed| ==> Printed(signed[i])
    ensures Knows(signed, Normal(typed)) <==> exists i :: 0 <= i < |signed| && SameSerial(signed[i], typed)
  {
    hide SameSerial, Normal, StripZeros;
    forall i | 0 <= i < |signed| ensures StripZeros(signed[i]) == Normal(typed) <==> SameSerial(signed[i], typed) {
      MeantIff(signed[i], typed);
    }
  }

  class OfflineRoot {
    var signed: seq<string>
    var revoked: seq<Revoked>
    var crlNumber: nat

    constructor ()
      ensures signed == [] && revoked == [] && crlNumber == 0
    {
      signed, revoked, crlNumber := [], [], 0;
    }

    method Sign(serial: string)
      modifies this`signed
      ensures signed == old(signed) + [serial]
    {
      signed := signed + [serial];
    }

    method Revoke(serial: string, reason: Reason) returns (error: Option<Error>)
      modifies this`revoked
      ensures error == None <==> Knows(signed, Normal(serial)) && !reason.Other?
      ensures revoked == if error == None then old(revoked) + [Revoked(Normal(serial), reason)] else old(revoked)
    {
      hide Knows, Normal;
      if !Knows(signed, Normal(serial)) { return Some(NotSigned); }
      if reason.Other? { return Some(BadReason); }
      revoked := revoked + [Revoked(Normal(serial), reason)];
      return None;
    }

    method SignCrl(now: int, days: nat) returns (crl: Crl)
      modifies this`crlNumber
      ensures crlNumber == old(crlNumber) + 1
      ensures crl == Crl(crlNumber, now + days * DAY, revoked, true)
    {
      crlNumber := crlNumber + 1;
      crl := Crl(crlNumber, now + days * DAY, revoked, true);
    }
  }

  // ------------------------------------------------------------ the server

  /** Why a CRL is turned away. */
  function ImportError(current: nat, crl: Crl, now: int): Option<Error> {
    if !crl.genuine then Some(BadSignature)
    else if crl.number <= current then Some(NotNewer)
    else if crl.nextUpdate <= now then Some(PastNextUpdate)
    else None
  }

  class OfflineCa {
    var crlNumber: nat
    var crl: Option<Crl>

    constructor ()
      ensures crlNumber == 0 && crl == None
    {
      crlNumber, crl := 0, None;
    }

    method ImportCrl(data: Crl, now: int) returns (error: Option<Error>)
      modifies this
      ensures error == ImportError(old(crlNumber), data, now)
      ensures error == None ==> crl == Some(data) && crlNumber == data.number
      ensures error != None ==> crl == old(crl) && crlNumber == old(crlNumber)
    {
      if !data.genuine { return Some(BadSignature); }
      if data.number <= crlNumber { return Some(NotNewer); }
      if data.nextUpdate <= now { return Some(PastNextUpdate); }
      crlNumber, crl := data.number, Some(data);
      return None;
    }
  }

  // ------------------------------------------------------------ runs

  /** The directory, every CRL it ever signed, and what the server accepted, in order. */
  datatype World = World(revoked: seq<Revoked>, crls: seq<Crl>, accepted: seq<Crl>)

  /** `Import` hands the server any CRL at any time: old, repeated, out of order, or forged. */
  datatype Step =
    | Revoke(entry: Revoked)
    | SignCrl(now: int, days: nat)
    | Import(crl: Crl, now: int)

  function Current(w: World): nat {
    if w.accepted == [] then 0 else w.accepted[|w.accepted| - 1].number
  }

  /** A CRL nobody signed with the root's key is not genuine. */
  function Next(w: World, step: Step): World {
    match step
    case Revoke(entry) => w.(revoked := w.revoked + [entry])
    case SignCrl(now, days) => w.(crls := w.crls + [Crl(|w.crls| + 1, now + days * DAY, w.revoked, true)])
    case Import(crl, now) =>
      var handed := if crl in w.crls then crl else crl.(genuine := false);
      if ImportError(Current(w), handed, now).None? then w.(accepted := w.accepted + [handed]) else w
  }

  function Run(steps: seq<Step>): World {
    if steps == [] then World([], [], []) else Next(Run(steps[..|steps| - 1]), steps[|steps| - 1])
  }

  ghost predicate Inv(w: World) {
    && (forall i :: 0 <= i < |w.crls| ==> w.crls[i].number == i + 1 && w.crls[i].genuine && w.crls[i].entries <= w.revoked)
    && (forall i, j :: 0 <= i < j < |w.crls| ==> w.crls[i].entries <= w.crls[j].entries)
    && (forall i :: 0 <= i < |w.accepted| ==> w.accepted[i] in w.crls)
    && (forall i, j :: 0 <= i < j < |w.accepted| ==> w.accepted[i].number < w.accepted[j].number)
  }

  lemma RevokeKeeps(w: World, entry: Revoked)
    requires Inv(w)
    ensures Inv(Next(w, Revoke(entry)))
  {}

  lemma SignKeeps(w: World, now: int, days: nat)
    requires Inv(w)
    ensures Inv(Next(w, SignCrl(now, days)))
  {
    var w' := Next(w, SignCrl(now, days));
    forall i | 0 <= i < |w'.accepted| ensures w'.accepted[i] in w'.crls {
      assert w.accepted[i] in w.crls;
    }
  }

  lemma ImportKeeps(w: World, crl: Crl, now: int)
    requires Inv(w)
    ensures Inv(Next(w, Import(crl, now)))
  {
    var w' := Next(w, Import(crl, now));
    if w' != w {
      assert w'.accepted == w.accepted + [crl] && crl in w.crls;
      forall i, j | 0 <= i < j < |w'.accepted| ensures w'.accepted[i].number < w'.accepted[j].number {
        if j == |w.accepted| { assert w.accepted[i].number <= Current(w); }
      }
    }
  }

  lemma {:induction false} RunKeeps(steps: seq<Step>)
    ensures Inv(Run(steps))
  {
    hide Inv;
    if steps == [] {
      NothingYet();
    } else {
      RunKeeps(steps[..|steps| - 1]);
      var w := Run(steps[..|steps| - 1]);
      match steps[|steps| - 1]
      case Revoke(entry) => RevokeKeeps(w, entry);
      case SignCrl(now, days) => SignKeeps(w, now, days);
      case Import(crl, now) => ImportKeeps(w, crl, now);
    }
  }

  lemma NothingYet()
    ensures Inv(World([], [], []))
  {}

  /** An imported CRL never un-revokes. Whatever the ceremony did and however its CRLs were
      reordered, replayed, lost or forged, the ones the server accepted have strictly
      increasing numbers, and each one's entries begin with all entries of those before. */
  lemma ImportsNeverUnrevoke(steps: seq<Step>, i: nat, j: nat)
    requires i < j < |Run(steps).accepted|
    ensures Run(steps).accepted[i].number < Run(steps).accepted[j].number
    ensures Run(steps).accepted[i].entries <= Run(steps).accepted[j].entries
    ensures forall e :: e in Run(steps).accepted[i].entries ==> e in Run(steps).accepted[j].entries
  {
    RunKeeps(steps);
    var w := Run(steps);
    assert w.accepted[i] in w.crls && w.accepted[j] in w.crls;
    var m :| 0 <= m < |w.crls| && w.crls[m] == w.accepted[i];
    var n :| 0 <= n < |w.crls| && w.crls[n] == w.accepted[j];
    assert m < n;
    forall e | e in w.accepted[i].entries ensures e in w.accepted[j].entries {
      var k :| 0 <= k < |w.accepted[i].entries| && w.accepted[i].entries[k] == e;
      assert w.accepted[j].entries[k] == e;
    }
  }

  /** Whether a CRL that is handed in is accepted: it must be one the root signed, newer than
      every one accepted before, and at this moment not past the time the next one was promised for. */
  lemma AcceptedIff(steps: seq<Step>, crl: Crl, now: int)
    ensures var w, t := Run(steps), Run(steps + [Import(crl, now)]);
            if crl in w.crls && (forall i :: 0 <= i < |w.accepted| ==> w.accepted[i].number < crl.number) && now < crl.nextUpdate
            then t.accepted == w.accepted + [crl] else t.accepted == w.accepted
  {
    hide Inv, Current;
    assert (steps + [Import(crl, now)])[..|steps|] == steps;
    RunKeeps(steps);
    if crl in Run(steps).crls {
      SignedIsGenuine(Run(steps), crl);
      NewerThanAll(Run(steps), crl.number);
    }
  }

  lemma NewerThanAll(w: World, number: nat)
    requires Inv(w) && number > 0
    ensures Current(w) < number <==> forall i :: 0 <= i < |w.accepted| ==> w.accepted[i].number < number
  {}

  lemma SignedIsGenuine(w: World, crl: Crl)
    requires Inv(w) && crl in w.crls
    ensures crl.genuine && crl.number > 0
  {}

  lemma {:induction false} EverythingRevoked(steps: seq<Step>, k: nat)
    requires k < |steps| && steps[k].Revoke?
    ensures steps[k].entry in Run(steps).revoked
  {
    if k < |steps| - 1 { EverythingRevoked(steps[..|steps| - 1], k); }
  }

  /** A CRL takes the next number, is good for the days asked for, and lists everything revoked so far. */
  lemma SignedCrlIsComplete(steps: seq<Step>, now: int, days: nat, k: nat)
    requires k < |steps| && steps[k].Revoke?
    ensures var w, t := Run(steps), Run(steps + [SignCrl(now, days)]);
            && |t.crls| == |w.crls| + 1 && w.crls <= t.crls
            && var crl := t.crls[|w.crls|];
               crl.number == |t.crls| && crl.nextUpdate == now + days * 86_400 && steps[k].entry in crl.entries
  {
    assert (steps + [SignCrl(now, days)])[..|steps|] == steps;
    EverythingRevoked(steps, k);
  }

  /** From the ceremony to the server: revoked before a CRL was signed, and that CRL accepted,
      an entry is on the server's CRL and on every one it accepts later. */
  lemma RevocationReachesTheServer(steps: seq<Step>, k: nat, m: nat, i: nat, j: nat)
    requires k < m && m < |steps| && steps[k].Revoke? && steps[m].SignCrl?
    requires i <= j && j < |Run(steps).accepted|
    requires |Run(steps[..m]).crls| < |Run(steps[..m + 1]).crls|
    requires Run(steps).accepted[i] == Run(steps[..m + 1]).crls[|Run(steps[..m]).crls|]
    ensures steps[k].entry in Run(steps).accepted[j].entries
  {
    assert steps[..m + 1] == steps[..m] + [SignCrl(steps[m].now, steps[m].days)];
    SignedCrlIsComplete(steps[..m], steps[m].now, steps[m].days, k);
    if i < j { ImportsNeverUnrevoke(steps, i, j); }
  }
}
