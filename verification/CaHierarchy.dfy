/** The CA hierarchy (ca/authority.py, ca/offline.py): roots and subordinates made here,
    issuing CAs signed by an offline root, and the chain above a leaf. Times are in seconds. */
module CaHierarchy {
  import opened Prelude

  const MINUTE: int := 60
  const YEAR: int := 365 * 24 * 60 * MINUTE

  datatype Cert = Cert(serial: nat, selfSigned: bool, pathLength: Option<nat>, notBefore: int, notAfter: int)

  /** `parent` is the position of another CA; `imported`: signed, or brought, by a ceremony. */
  datatype Ca = Ca(name: string, parent: Option<nat>, cert: Cert, imported: bool, isRoot: bool)

  /** This server holds the key, as it does for all but an imported root. */
  predicate Online(ca: Ca) { !(ca.imported && ca.isRoot) }

  datatype Error = NameTaken | NoSuchCa | CannotHaveSubCas | KeyOffline | BadValidity | NotTheRoot | DifferentRoot | Unfit

  predicate Taken(cas: seq<Ca>, name: string) { exists i :: 0 <= i < |cas| && cas[i].name == name }

  function Min(a: int, b: int): int { if a <= b then a else b }

  function AfterCreateRoot(cas: seq<Ca>, name: string, years: int, serial: nat, now: int): Result<seq<Ca>, Error> {
    var cert := Cert(serial, true, Some(1), now - 5 * MINUTE, now + years * YEAR);
    if cert.notAfter < cert.notBefore then Err(BadValidity)
    else if Taken(cas, name) then Err(NameTaken)
    else Ok(cas + [Ca(name, None, cert, false, true)])
  }

  /** The path length a new subordinate gets under this parent. */
  function PathLengthUnder(parent: Option<nat>, wanted: nat): nat
    requires parent != Some(0)
  {
    if parent.Some? && parent.value - 1 < wanted then parent.value - 1 else wanted
  }

  function AfterCreateSubordinate(cas: seq<Ca>, parent: nat, name: string, years: int, pathLength: nat, serial: nat, now: int)
    : Result<seq<Ca>, Error>
  {
    if parent >= |cas| then Err(NoSuchCa)
    else if cas[parent].cert.pathLength == Some(0) then Err(CannotHaveSubCas)
    else if !Online(cas[parent]) then Err(KeyOffline)
    else
      var p := cas[parent].cert;
      var cert := Cert(serial, false, Some(PathLengthUnder(p.pathLength, pathLength)), now - 5 * MINUTE, Min(now + years * YEAR, p.notAfter));
      if cert.notAfter < cert.notBefore then Err(BadValidity)
      else if Taken(cas, name) then Err(NameTaken)
      else Ok(cas + [Ca(name, Some(parent), cert, false, false)])
  }

  predicate InForce(c: Cert, now: int) { c.notBefore <= now <= c.notAfter }

  /** The first row with this name; names are unique. */
  function Named(cas: seq<Ca>, name: string): (r: Option<nat>)
    ensures r.Some? ==> r.value < |cas| && cas[r.value].name == name
    ensures r.None? <==> !Taken(cas, name)
  {
    if cas == [] then None
    else
      var init := Named(cas[..|cas| - 1], name);
      if init.Some? then init
      else if cas[|cas| - 1].name == name then Some(|cas| - 1) else None
  }

  /** `fit`: both are CA certificates, the signatures verify, and the new one carries the
      ceremony's key and the required name constraints. */
  function AfterImport(cas: seq<Ca>, name: string, cert: Cert, rootName: string, root: Cert, fit: bool, now: int): Result<seq<Ca>, Error> {
    if !root.selfSigned || !InForce(root, now) then Err(NotTheRoot)
    else if !fit || cert.selfSigned || !InForce(cert, now) || cert.pathLength != Some(0) || root.notAfter < cert.notAfter then Err(Unfit)
    else if Taken(cas, name) then Err(NameTaken)
    else match Named(cas, rootName)
      case Some(r) =>
        if cas[r].cert != root then Err(DifferentRoot) else Ok(cas + [Ca(name, Some(r), cert, true, false)])
      case None =>
        if name == rootName then Err(NameTaken)
        else Ok(cas + [Ca(rootName, None, root, true, true), Ca(name, Some(|cas|), cert, true, false)])
  }

  // ------------------------------------------------------------ chains

  predicate RootedAt(cas: seq<Ca>, i: nat) {
    && i < |cas|
    && (cas[i].isRoot <==> cas[i].parent.None?)
    && (cas[i].parent.Some? ==> cas[i].parent.value < i)
  }

  /** Parents come first. */
  predicate Rooted(cas: seq<Ca>) {
    forall i {:trigger RootedAt(cas, i)} :: 0 <= i < |cas| ==> RootedAt(cas, i)
  }

  /** The certificates from a CA up to its root. */
  function ChainOf(cas: seq<Ca>, ca: nat): seq<Cert>
    requires Rooted(cas) && ca < |cas|
    decreases ca
  {
    assert RootedAt(cas, ca);
    if cas[ca].parent.None? then [cas[ca].cert] else [cas[ca].cert] + ChainOf(cas, cas[ca].parent.value)
  }

  function ChainFrom(cas: seq<Ca>, node: Option<nat>): seq<Cert>
    requires Rooted(cas) && (node.Some? ==> node.value < |cas|)
  {
    if node.Some? then ChainOf(cas, node.value) else []
  }

  lemma Associate(out: seq<Cert>, c: Cert, above: seq<Cert>)
    ensures out + ([c] + above) == out + [c] + above
    ensures [c] + [] == [c]
  {}

  lemma Climb(cas: seq<Ca>, out: seq<Cert>, ca: nat)
    requires Rooted(cas) && ca < |cas|
    ensures cas[ca].parent.Some? ==> cas[ca].parent.value < ca
    ensures out + ChainOf(cas, ca) == out + [cas[ca].cert] + ChainFrom(cas, cas[ca].parent)
  {
    assert RootedAt(cas, ca);
    Associate(out, cas[ca].cert, ChainFrom(cas, cas[ca].parent));
  }

  /** Issues leaf certificates: not a root, and nothing may come below it. */
  predicate Issuing(ca: Ca) { !ca.isRoot && ca.cert.pathLength == Some(0) }

  /** A leaf's validity, from the policy's lifetime and the issuing certificate. */
  function LeafNotAfter(issuer: Cert, validity: int, now: int): int { Min(now + validity, issuer.notAfter) }

  class Authority {
    var cas: seq<Ca>

    constructor ()
      ensures cas == []
    {
      cas := [];
    }

    method Add(ca: Ca) returns (ok: bool)
      modifies this
      ensures ok == !Taken(old(cas), ca.name)
      ensures cas == if ok then old(cas) + [ca] else old(cas)
    {
      // the unique constraint on the name
      if exists i :: 0 <= i < |cas| && cas[i].name == ca.name { return false; }
      cas := cas + [ca];
      return true;
    }

    method CreateRoot(name: string, years: int, serial: nat, now: int) returns (error: Option<Error>)
      modifies this
      ensures match AfterCreateRoot(old(cas), name, years, serial, now)
              case Ok(t) => error == None && cas == t
              case Err(e) => error == Some(e) && cas == old(cas)
    {
      var cert := Cert(serial, true, Some(1), now - 5 * MINUTE, now + years * YEAR);
      if cert.notAfter < cert.notBefore { return Some(BadValidity); }
      var ok := Add(Ca(name, None, cert, false, true));
      return if ok then None else Some(NameTaken);
    }

    method CreateSubordinate(parent: nat, name: string, years: int, pathLength: nat, serial: nat, now: int)
      returns (error: Option<Error>)
      modifies this
      ensures match AfterCreateSubordinate(old(cas), parent, name, years, pathLength, serial, now)
              case Ok(t) => error == None && cas == t
              case Err(e) => error == Some(e) && cas == old(cas)
    {
      if parent >= |cas| { return Some(NoSuchCa); }
      var p := cas[parent].cert;
      if p.pathLength == Some(0) { return Some(CannotHaveSubCas); }
      var length := pathLength;
      if p.pathLength.Some? && p.pathLength.value - 1 < length { length := p.pathLength.value - 1; }
      if !Online(cas[parent]) { return Some(KeyOffline); }
      var notAfter := now + years * YEAR;
      if p.notAfter < notAfter { notAfter := p.notAfter; }
      if notAfter < now - 5 * MINUTE { return Some(BadValidity); }
      var ok := Add(Ca(name, Some(parent), Cert(serial, false, Some(length), now - 5 * MINUTE, notAfter), false, false));
      return if ok then None else Some(NameTaken);
    }

    /** Either the issuing CA, with its root if that was unknown, or nothing. */
    method ImportIssuing(name: string, cert: Cert, rootName: string, root: Cert, fit: bool, now: int) returns (error: Option<Error>)
      modifies this
      ensures match AfterImport(old(cas), name, cert, rootName, root, fit, now)
              case Ok(t) => error == None && cas == t
              case Err(e) => error == Some(e) && cas == old(cas)
    {
      if !root.selfSigned || !InForce(root, now) { return Some(NotTheRoot); }
      if !fit || cert.selfSigned || !InForce(cert, now) { return Some(Unfit); }
      if cert.pathLength != Some(0) || cert.notAfter > root.notAfter { return Some(Unfit); }
      if exists i :: 0 <= i < |cas| && cas[i].name == name { return Some(NameTaken); }
      var committed, row := cas, Named(cas, rootName);
      if row.Some? {
        if cas[row.value].cert != root { return Some(DifferentRoot); }
      } else {
        row := Some(|cas|);
        cas := cas + [Ca(rootName, None, root, true, true)];
        assert name == rootName ==> cas[|committed|].name == name;
      }
      var ok := Add(Ca(name, row, cert, true, false));
      if !ok {
        cas := committed;
        return Some(NameTaken);
      }
      assert [Ca(rootName, None, root, true, true)] + [Ca(name, row, cert, true, false)]
          == [Ca(rootName, None, root, true, true), Ca(name, row, cert, true, false)];
      return None;
    }

    /** The certificates from a CA up, following parent links until there is none. */
    method Chain(ca: nat) returns (out: seq<Cert>)
      requires Rooted(cas) && ca < |cas|
      ensures out == ChainOf(cas, ca)
    {
      out := [];
      var node: Option<nat> := Some(ca);
      assert [] + ChainFrom(cas, node) == ChainOf(cas, ca);
      while node.Some?
        invariant node.Some? ==> node.value < |cas|
        invariant out + ChainFrom(cas, node) == ChainOf(cas, ca)
        decreases if node.Some? then node.value + 1 else 0
      {
        Climb(cas, out, node.value);
        out := out + [cas[node.value].cert];
        node := cas[node.value].parent;
      }
      assert out + [] == out;
    }

    /** The newest issuing CA. */
    method DefaultIssuing() returns (r: Option<nat>)
      ensures match r
              case Some(i) => i < |cas| && Issuing(cas[i]) && forall j :: i < j < |cas| ==> !Issuing(cas[j])
              case None => forall j :: 0 <= j < |cas| ==> !Issuing(cas[j])
    {
      for i := |cas| downto 0
        invariant forall j :: i <= j < |cas| ==> !Issuing(cas[j])
      {
        if !cas[i].isRoot && cas[i].cert.pathLength == Some(0) { return Some(i); }
      }
      return None;
    }

    /** The issuer, by default the newest issuing CA, and the end of a leaf issued now. */
    method Issue(ca: Option<nat>, validity: int, now: int) returns (r: Option<(nat, int)>)
      requires ca.Some? ==> ca.value < |cas|
      ensures r.Some? ==> r.value.0 < |cas| && (ca.Some? ==> r.value.0 == ca.value) && (ca.None? ==> Issuing(cas[r.value.0]))
      ensures r.Some? ==> r.value.1 == LeafNotAfter(cas[r.value.0].cert, validity, now)
      ensures r.None? <==> ca.None? && forall j :: 0 <= j < |cas| ==> !Issuing(cas[j])
    {
      var issuer := ca;
      if issuer.None? {
        issuer := DefaultIssuing();
        if issuer.None? { return None; }
      }
      var notAfter := now + validity;
      if cas[issuer.value].cert.notAfter < notAfter { notAfter := cas[issuer.value].cert.notAfter; }
      return Some((issuer.value, notAfter));
    }
  }

  // ------------------------------------------------------------ runs

  datatype Step =
    | CreateRoot(name: string, years: int, serial: nat)
    | CreateSubordinate(parent: nat, name: string, years: int, pathLength: nat, serial: nat)
    | Import(name: string, cert: Cert, rootName: string, root: Cert, fit: bool)

  datatype World = World(cas: seq<Ca>, clock: int)

  function Applied(cas: seq<Ca>, step: Step, now: int): Result<seq<Ca>, Error> {
    match step
    case CreateRoot(name, years, serial) => AfterCreateRoot(cas, name, years, serial, now)
    case CreateSubordinate(parent, name, years, pathLength, serial) => AfterCreateSubordinate(cas, parent, name, years, pathLength, serial, now)
    case Import(name, cert, rootName, root, fit) => AfterImport(cas, name, cert, rootName, root, fit, now)
  }

  function Next(w: World, step: Step, now: int): World {
    if now < w.clock then w
    else match Applied(w.cas, step, now)
      case Ok(cas) => World(cas, now)
      case Err(_) => w.(clock := now)
  }

  function Run(steps: seq<(Step, int)>): World {
    if steps == [] then World([], 0)
    else Next(Run(steps[..|steps| - 1]), steps[|steps| - 1].0, steps[|steps| - 1].1)
  }

  ghost predicate CaOk(w: World, i: nat) {
    i < |w.cas| &&
    var ca := w.cas[i];
    && (ca.isRoot <==> ca.parent.None?) && (ca.isRoot <==> ca.cert.selfSigned)
    && (!ca.imported ==> ca.cert.notBefore <= w.clock - 5 * MINUTE)
    && match ca.parent
       case None => !ca.imported ==> ca.cert.pathLength == Some(1)
       case Some(p) => p < i && Below(ca, w.cas[p])
  }

  /** How a CA relates to the one above it, which is always a root. */
  predicate Below(ca: Ca, parent: Ca) {
    && parent.isRoot && ca.cert.pathLength == Some(0) && ca.cert.notAfter <= parent.cert.notAfter
    && (!ca.imported ==> !parent.imported && parent.cert.notBefore <= ca.cert.notBefore)
  }

  ghost predicate Inv(w: World) {
    forall i {:trigger CaOk(w, i)} :: 0 <= i < |w.cas| ==> CaOk(w, i)
  }

  lemma StepKeeps(w: World, step: Step, now: int)
    requires Inv(w)
    ensures Inv(Next(w, step, now)) && w.cas <= Next(w, step, now).cas
  {
    var t := Next(w, step, now);
    forall i {:trigger CaOk(t, i)} | 0 <= i < |t.cas| ensures CaOk(t, i) {
      if i < |w.cas| { assert CaOk(w, i); }
      if step.CreateSubordinate? && step.parent < |w.cas| { assert CaOk(w, step.parent); }
      if step.Import? && Named(w.cas, step.rootName).Some? { assert CaOk(w, Named(w.cas, step.rootName).value); }
    }
  }

  lemma {:induction false} RunKeeps(steps: seq<(Step, int)>)
    ensures Inv(Run(steps))
  {
    if steps != [] {
      RunKeeps(steps[..|steps| - 1]);
      StepKeeps(Run(steps[..|steps| - 1]), steps[|steps| - 1].0, steps[|steps| - 1].1);
    }
  }

  lemma RunRooted(steps: seq<(Step, int)>)
    ensures Rooted(Run(steps).cas)
  {
    RunKeeps(steps);
    var w := Run(steps);
    forall i {:trigger RootedAt(w.cas, i)} | 0 <= i < |w.cas| ensures RootedAt(w.cas, i) {
      assert CaOk(w, i);
    }
  }

  // ------------------------------------------------------------ what holds over every run

  /** Every chain ends, in a self-signed root, after at most two certificates; no certificate
      in it outlives one above it, and below a root made here none starts before it. */
  lemma ChainsNest(steps: seq<(Step, int)>, ca: nat)
    requires ca < |Run(steps).cas|
    ensures Rooted(Run(steps).cas)
    ensures var chain := ChainOf(Run(steps).cas, ca);
            && 1 <= |chain| <= 2 && chain[0] == Run(steps).cas[ca].cert && chain[|chain| - 1].selfSigned
            && (forall k, l :: 0 <= k <= l < |chain| ==> chain[k].notAfter <= chain[l].notAfter)
            && (!Run(steps).cas[ca].imported ==>
                  forall k, l :: 0 <= k <= l < |chain| ==> chain[l].notBefore <= chain[k].notBefore)
  {
    RunKeeps(steps);
    RunRooted(steps);
    var w := Run(steps);
    assert CaOk(w, ca);
    if w.cas[ca].parent.Some? {
      var p := w.cas[ca].parent.value;
      assert CaOk(w, p);
      assert ChainOf(w.cas, ca) == [w.cas[ca].cert, w.cas[p].cert];
    }
  }

  /** Position `k` of a chain has `k` CA certificates below it; its own limit must allow that
      (section 4.2.1.9 of RFC 5280). */
  predicate PathLengthsAllow(chain: seq<Cert>) {
    forall k :: 0 <= k < |chain| && chain[k].pathLength.Some? ==> k <= chain[k].pathLength.value
  }

  /** Every certificate of the chain has a limit, and upwards the limits strictly grow. */
  predicate PathLengthsGrow(chain: seq<Cert>) {
    && (forall k :: 0 <= k < |chain| ==> chain[k].pathLength.Some?)
    && (forall k, l :: 0 <= k < l < |chain| ==> chain[k].pathLength.value < chain[l].pathLength.value)
  }

  /** A chain keeps every path length limit exactly when its root's own limit allows the
      chain; that of a root made here does, and below it the limits strictly decrease. */
  lemma PathLengthsHoldIff(steps: seq<(Step, int)>, ca: nat)
    requires ca < |Run(steps).cas|
    ensures Rooted(Run(steps).cas)
    ensures var chain := ChainOf(Run(steps).cas, ca); var root := chain[|chain| - 1];
            && (PathLengthsAllow(chain) <==> root.pathLength.None? || |chain| - 1 <= root.pathLength.value)
            && (!Run(steps).cas[ca].imported ==> PathLengthsAllow(chain) && PathLengthsGrow(chain))
  {
    ChainsNest(steps, ca);
    RunKeeps(steps);
    var w := Run(steps);
    assert CaOk(w, ca);
    if w.cas[ca].parent.Some? {
      var p := w.cas[ca].parent.value;
      assert CaOk(w, p);
      assert ChainOf(w.cas, ca) == [w.cas[ca].cert, w.cas[p].cert];
    }
  }

  /** A leaf never outlives any CA above it, however the hierarchy grows after it was issued,
      nor the lifetime the policy gave it, and is cut no shorter than one of them demands. */
  lemma LeafNeverOutlives(steps: seq<(Step, int)>, later: seq<(Step, int)>, ca: nat, validity: int, now: int)
    requires steps <= later && ca < |Run(steps).cas|
    ensures ca < |Run(later).cas| && Rooted(Run(later).cas)
    ensures LeafNotAfter(Run(steps).cas[ca].cert, validity, now) <= now + validity
    ensures LeafNotAfter(Run(steps).cas[ca].cert, validity, now) < now + validity ==>
              LeafNotAfter(Run(steps).cas[ca].cert, validity, now) == ChainOf(Run(later).cas, ca)[0].notAfter
    ensures forall c :: c in ChainOf(Run(later).cas, ca) ==> LeafNotAfter(Run(steps).cas[ca].cert, validity, now) <= c.notAfter
  {
    CasOnlyGrow(steps, later);
    ChainsNest(later, ca);
    var chain := ChainOf(Run(later).cas, ca);
    assert chain[0] == Run(steps).cas[ca].cert;
    forall c | c in chain ensures LeafNotAfter(Run(steps).cas[ca].cert, validity, now) <= c.notAfter {
      var k :| 0 <= k < |chain| && chain[k] == c;
      assert chain[0].notAfter <= chain[k].notAfter;
    }
  }

  /** A root made here lasts the years asked for, with room for one CA below. */
  lemma RootAsAsked(steps: seq<(Step, int)>, name: string, years: int, serial: nat, now: int)
    requires var w := Run(steps); w.clock <= now && !Taken(w.cas, name) && 0 <= years
    ensures var cas := Run(steps).cas;
            && Run(steps + [(CreateRoot(name, years, serial), now)]).cas[..|cas|] == cas
            && |Run(steps + [(CreateRoot(name, years, serial), now)]).cas| == |cas| + 1
            && var ca := Run(steps + [(CreateRoot(name, years, serial), now)]).cas[|cas|];
               && ca.name == name && ca.isRoot && ca.parent == None && !ca.imported && ca.cert.serial == serial && ca.cert.selfSigned
               && ca.cert.notBefore == now - 300 && ca.cert.notAfter == now + years * 31_536_000 && ca.cert.pathLength == Some(1)
  {
    assert (steps + [(CreateRoot(name, years, serial), now)])[..|steps|] == steps;
  }

  /** The new CA issues leaves only, is named as asked, and lasts the years asked for or as long as its parent. */
  predicate Subordinate(cas: seq<Ca>, t: seq<Ca>, parent: nat, name: string, years: int, serial: nat, now: int) {
    var asked, last := now + years * 31_536_000, |cas|;
    && |t| == last + 1 && t[..last] == cas && parent < last
    && t[last].name == name && t[last].parent == Some(parent) && !t[last].isRoot && !t[last].imported
    && t[last].cert.serial == serial && t[last].cert.pathLength == Some(0) && t[last].cert.notBefore == now - 300
    && t[last].cert.notAfter == if asked <= cas[parent].cert.notAfter then asked else cas[parent].cert.notAfter
  }

  /** A subordinate is made under a root made here. A root brought by a ceremony, and a CA that
      is not a root, get none. */
  lemma SubordinateIff(steps: seq<(Step, int)>, parent: nat, name: string, years: int, wanted: nat, serial: nat, now: int)
    requires var w := Run(steps); w.clock <= now && !Taken(w.cas, name) && 0 <= years
    requires parent < |Run(steps).cas| && now <= Run(steps).cas[parent].cert.notAfter
    ensures var cas, t := Run(steps).cas, Run(steps + [(CreateSubordinate(parent, name, years, wanted, serial), now)]).cas;
            if cas[parent].isRoot && !cas[parent].imported then Subordinate(cas, t, parent, name, years, serial, now) else t == cas
  {
    hide AfterCreateSubordinate, Taken, Subordinate, Inv;
    assert (steps + [(CreateSubordinate(parent, name, years, wanted, serial), now)])[..|steps|] == steps;
    RunKeeps(steps);
    SubordinateDecides(Run(steps), parent, name, years, wanted, serial, now);
  }

  lemma SubordinateDecides(w: World, parent: nat, name: string, years: int, wanted: nat, serial: nat, now: int)
    requires Inv(w) && !Taken(w.cas, name) && 0 <= years && parent < |w.cas| && now <= w.cas[parent].cert.notAfter
    ensures var r := AfterCreateSubordinate(w.cas, parent, name, years, wanted, serial, now);
            && (r.Ok? <==> w.cas[parent].isRoot && !w.cas[parent].imported)
            && (r.Ok? ==> Subordinate(w.cas, r.value, parent, name, years, serial, now))
  {
    assert CaOk(w, parent);
  }

  ghost predicate NamesUnique(cas: seq<Ca>) {
    forall i, j :: 0 <= i < j < |cas| ==> cas[i].name != cas[j].name
  }

  lemma StepKeepsNames(cas: seq<Ca>, step: Step, now: int)
    requires NamesUnique(cas) && Applied(cas, step, now).Ok?
    ensures NamesUnique(Applied(cas, step, now).value)
  {}

  /** No two CAs share a name. */
  lemma {:induction false} NamesStayUnique(steps: seq<(Step, int)>)
    ensures NamesUnique(Run(steps).cas)
  {
    if steps != [] {
      hide NamesUnique, Applied;
      NamesStayUnique(steps[..|steps| - 1]);
      var (step, now) := steps[|steps| - 1];
      if Applied(Run(steps[..|steps| - 1]).cas, step, now).Ok? { StepKeepsNames(Run(steps[..|steps| - 1]).cas, step, now); }
    } else {
      assert NamesUnique([]);
    }
  }

  /** What a ceremony must bring: a root in force, and below it a fitting issuing CA, in force,
      which signs leaves only and does not outlive the root. */
  predicate Brings(cert: Cert, root: Cert, fit: bool, now: int) {
    && root.selfSigned && root.notBefore <= now && now <= root.notAfter
    && fit && !cert.selfSigned && cert.notBefore <= now && now <= cert.notAfter
    && cert.pathLength == Some(0) && cert.notAfter <= root.notAfter
  }

  /** A CA known by the root's name is this very root, or the two names differ. */
  ghost predicate RootFits(cas: seq<Ca>, name: string, rootName: string, root: Cert) {
    if Taken(cas, rootName) then exists r :: 0 <= r < |cas| && cas[r].name == rootName && cas[r].cert == root
    else name != rootName
  }

  /** The new CA is there, below its root, and neither has its key here at hand to sign CAs with;
      a root not known before comes with it. */
  ghost predicate Imported(cas: seq<Ca>, t: seq<Ca>, name: string, cert: Cert, rootName: string, root: Cert) {
    var last := |t| - 1;
    && |t| == |cas| + (if Taken(cas, rootName) then 1 else 2) && t[..|cas|] == cas
    && (!Taken(cas, rootName) ==> t[|cas|] == Ca(rootName, None, root, true, true))
    && t[last].name == name && t[last].cert == cert && t[last].imported && !t[last].isRoot
    && t[last].parent.Some? && t[last].parent.value < last
    && t[t[last].parent.value].name == rootName && t[t[last].parent.value].cert == root
  }

  /** An import goes through exactly with that, under a free name, if the root fits what is known of it. */
  lemma ImportIff(steps: seq<(Step, int)>, name: string, cert: Cert, rootName: string, root: Cert, fit: bool, now: int)
    requires Run(steps).clock <= now
    ensures var cas, t := Run(steps).cas, Run(steps + [(Import(name, cert, rootName, root, fit), now)]).cas;
            if Brings(cert, root, fit, now) && !Taken(cas, name) && RootFits(cas, name, rootName, root)
            then Imported(cas, t, name, cert, rootName, root)
            else t == cas
  {
    hide AfterImport, Brings, Taken, RootFits, Imported, NamesUnique;
    assert (steps + [(Import(name, cert, rootName, root, fit), now)])[..|steps|] == steps;
    NamesStayUnique(steps);
    ImportDecides(Run(steps).cas, name, cert, rootName, root, fit, now);
  }

  lemma ImportDecides(cas: seq<Ca>, name: string, cert: Cert, rootName: string, root: Cert, fit: bool, now: int)
    requires NamesUnique(cas)
    ensures var r := AfterImport(cas, name, cert, rootName, root, fit, now);
            && (r.Ok? <==> Brings(cert, root, fit, now) && !Taken(cas, name) && RootFits(cas, name, rootName, root))
            && (r.Ok? ==> Imported(cas, r.value, name, cert, rootName, root))
  {}

  /** Every CA that is not a root issues leaves, so the newest of them is the default. */
  lemma IssuingAreTheSubordinates(steps: seq<(Step, int)>, i: nat)
    requires i < |Run(steps).cas|
    ensures Issuing(Run(steps).cas[i]) <==> Run(steps).cas[i].parent.Some?
  {
    RunKeeps(steps);
    assert CaOk(Run(steps), i);
  }

  lemma {:induction false} CasOnlyGrow(steps: seq<(Step, int)>, later: seq<(Step, int)>)
    requires steps <= later
    ensures Run(steps).cas <= Run(later).cas
    decreases |later|
  {
    if |steps| == |later| {
      assert steps == later;
    } else {
      var init := later[..|later| - 1];
      CasOnlyGrow(steps, init);
      RunKeeps(init);
      StepKeeps(Run(init), later[|later| - 1].0, later[|later| - 1].1);
    }
  }
}
