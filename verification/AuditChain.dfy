/** The tamper-evident audit trail (audit/log.py): a hash chain over the rows of
    one table, read in id order, and the anchors that pin its head off the host.

    SHA-256 over (previous hash + canonical body) is an opaque function `Digest`.
    Lemmas that need collision resistance take it as the hypothesis `CollisionFree`. */
module AuditChain {
  import opened Prelude

  /** 64 hexadecimal digits, read as a number. Unbounded, so that a collision-free digest can exist. */
  datatype Hash = Hex(digits: nat)

  datatype Body = Body(ts: int, actor: string, action: string, target: string, details: map<string, string>)
  datatype Event = Event(id: nat, body: Body, prev: Hash, hash: Hash)
  type Digest = (Hash, Body) -> Hash

  /** Sixty-four zeros. */
  const GENESIS: Hash := Hex(0)

  /** No two different (previous hash, body) pairs share a digest, and none yields the genesis marker. */
  ghost predicate CollisionFree(h: Digest) {
    && (forall p, b, q, c :: h(p, b) == h(q, c) ==> p == q && b == c)
    && (forall p, b :: h(p, b) != GENESIS)
  }

  /** The hash a new event would link to after `evs`. */
  function HeadHash(evs: seq<Event>): Hash {
    if evs == [] then GENESIS else evs[|evs| - 1].hash
  }

  /** Event `i` links to the one before it and its hash recomputes from its fields. */
  ghost predicate LinkAt(h: Digest, evs: seq<Event>, i: nat) {
    i < |evs| &&
    evs[i].prev == HeadHash(evs[..i]) && evs[i].hash == h(evs[i].prev, evs[i].body)
  }

  ghost predicate Linked(h: Digest, evs: seq<Event>) {
    forall i {:trigger LinkAt(h, evs, i)} :: 0 <= i < |evs| ==> LinkAt(h, evs, i)
  }

  /** Rows as a query ordered by the primary key returns them. */
  ghost predicate Ascending(evs: seq<Event>) {
    forall i, j :: 0 <= i < j < |evs| ==> evs[i].id < evs[j].id
  }

  ghost predicate SameBodies(a: seq<Event>, b: seq<Event>) {
    |a| == |b| && forall i :: 0 <= i < |a| ==> a[i].body == b[i].body && a[i].hash == b[i].hash && a[i].prev == b[i].prev
  }

  lemma LinkedPrefix(h: Digest, evs: seq<Event>, n: nat)
    requires Linked(h, evs) && n <= |evs|
    ensures Linked(h, evs[..n])
  {
    forall i | 0 <= i < n ensures LinkAt(h, evs[..n], i) {
      assert LinkAt(h, evs, i);
      assert evs[..n][..i] == evs[..i];
    }
  }

  lemma LinkedAppend(h: Digest, evs: seq<Event>, ev: Event)
    ensures Linked(h, evs + [ev]) <==> Linked(h, evs) && ev.prev == HeadHash(evs) && ev.hash == h(ev.prev, ev.body)
  {
    var all := evs + [ev];
    assert all[..|evs|] == evs;
    if Linked(h, all) {
      LinkedPrefix(h, all, |evs|);
      assert LinkAt(h, all, |evs|);
    }
    if Linked(h, evs) && ev.prev == HeadHash(evs) && ev.hash == h(ev.prev, ev.body) {
      forall i | 0 <= i < |all| ensures LinkAt(h, all, i) {
        assert all[..i] == evs[..i];
        assert i < |evs| ==> LinkAt(h, evs, i);
      }
    }
  }

  lemma DigestInjective(h: Digest, p: Hash, b: Body, q: Hash, c: Body)
    requires CollisionFree(h) && h(p, b) == h(q, c)
    ensures p == q && b == c
  {}

  /** The head hash pins the whole history: two chains that end in the same hash hold the same events. */
  lemma {:induction false} HeadPinsHistory(h: Digest, a: seq<Event>, b: seq<Event>)
    requires CollisionFree(h) && Linked(h, a) && Linked(h, b)
    requires HeadHash(a) == HeadHash(b)
    ensures SameBodies(a, b)
    decreases |a|
  {
    var m, n := |a| - 1, |b| - 1;
    assert a != [] ==> LinkAt(h, a, m);
    assert b != [] ==> LinkAt(h, b, n);
    if a != [] && b != [] {
      DigestInjective(h, a[m].prev, a[m].body, b[n].prev, b[n].body);
      LinkedPrefix(h, a, m);
      LinkedPrefix(h, b, n);
      HeadPinsHistory(h, a[..m], b[..n]);
      SameBodiesAppend(a[..m], a[m], b[..n], b[n]);
      assert a == a[..m] + [a[m]] && b == b[..n] + [b[n]];
    }
  }

  lemma SameBodiesAppend(a: seq<Event>, x: Event, b: seq<Event>, y: Event)
    requires SameBodies(a, b) && x.body == y.body && x.hash == y.hash && x.prev == y.prev
    ensures SameBodies(a + [x], b + [y])
  {}

  /** Events of one chain never share a hash, so a receiver may recognise a repeat by its hash alone. */
  lemma HashesDistinct(h: Digest, evs: seq<Event>, i: nat, j: nat)
    requires CollisionFree(h) && Linked(h, evs)
    requires i < |evs| && j < |evs| && evs[i].hash == evs[j].hash
    ensures i == j
  {
    LinkedPrefix(h, evs, i + 1);
    LinkedPrefix(h, evs, j + 1);
    HeadPinsHistory(h, evs[..i + 1], evs[..j + 1]);
  }

  // ------------------------------------------------------------ verification

  datatype ChainReport =
    | Valid(events: nat, head: Hash, headId: Option<nat>)
    | Broken(events: nat, brokenAt: nat)

  /** Walk the table in id order. A break is reported at the first event that fails. */
  method VerifyChain(h: Digest, rows: seq<Event>) returns (r: ChainReport)
    ensures r.Valid? <==> Linked(h, rows)
    ensures r.Valid? ==> r.events == |rows| && r.head == HeadHash(rows)
    ensures r.Valid? ==> r.headId == if rows == [] then None else Some(rows[|rows| - 1].id)
    ensures r.Broken? ==> 0 < r.events <= |rows| && r.brokenAt == rows[r.events - 1].id
    ensures r.Broken? ==> Linked(h, rows[..r.events - 1]) && !Linked(h, rows[..r.events])
  {
    var prev := GENESIS;
    var n := 0;
    var lastId := None;
    while n < |rows|
      invariant 0 <= n <= |rows|
      invariant Linked(h, rows[..n]) && prev == HeadHash(rows[..n])
      invariant lastId == if n == 0 then None else Some(rows[n - 1].id)
    {
      var ev := rows[n];
      assert rows[..n + 1] == rows[..n] + [ev];
      LinkedAppend(h, rows[..n], ev);
      n := n + 1;
      if ev.prev != prev || ev.hash != h(prev, ev.body) {
        if Linked(h, rows) { LinkedPrefix(h, rows, n); }
        return Broken(n, ev.id);
      }
      prev := ev.hash;
      lastId := Some(ev.id);
    }
    assert rows[..n] == rows;
    return Valid(n, prev, lastId);
  }

  // ------------------------------------------------------------ anchors

  datatype Anchor = Anchor(eventId: nat, hash: Hash, events: nat, anchoredAt: string, instance: string, mac: Option<string>)
  datatype Mismatch = MacDoesNotVerify | EventGone | HashDiffers

  /** HMAC over the anchor's fields. */
  type AnchorMac = (Key, nat, Hash, nat, string, string) -> string

  /** Under the current seal key only: None without one, and a previous key is not tried. */
  function MacOf(mac: AnchorMac, key: Option<Key>, a: Anchor): Option<string> {
    match key
    case None => None
    case Some(k) => Some(mac(k, a.eventId, a.hash, a.events, a.anchoredAt, a.instance))
  }

  /** Different keys never make the same MAC, and a MAC is never empty. */
  ghost predicate DistinctMacs(mac: AnchorMac) {
    && (forall k, l, i, h, n, t, s :: mac(k, i, h, n, t, s) == mac(l, i, h, n, t, s) ==> k == l)
    && (forall k, i, h, n, t, s :: mac(k, i, h, n, t, s) != "")
  }

  /** Primary-key lookup. */
  function Find(rows: seq<Event>, id: nat): (r: Option<Event>)
    ensures r.Some? ==> r.value in rows && r.value.id == id
    ensures r.None? ==> forall ev :: ev in rows ==> ev.id != id
  {
    if rows == [] then None else if rows[0].id == id then Some(rows[0]) else Find(rows[1..], id)
  }

  function AnchorProblem(mac: AnchorMac, key: Option<Key>, rows: seq<Event>, a: Anchor, checkMac: bool): Option<Mismatch> {
    if checkMac && a.mac.Some? && a.mac.value != "" && MacOf(mac, key, a) != a.mac then Some(MacDoesNotVerify)
    else match Find(rows, a.eventId)
      case None => Some(EventGone)
      case Some(ev) => if ev.hash != a.hash then Some(HashDiffers) else None
  }

  /** The mismatches, in the order the anchors were given. */
  function AnchorProblems(mac: AnchorMac, key: Option<Key>, rows: seq<Event>, anchors: seq<Anchor>, checkMac: bool)
    : (r: seq<(nat, Mismatch)>)
    ensures r == [] <==> forall a :: a in anchors ==> AnchorProblem(mac, key, rows, a, checkMac).None?
  {
    if anchors == [] then []
    else
      var n := |anchors| - 1;
      var rest := AnchorProblems(mac, key, rows, anchors[..n], checkMac);
      assert anchors == anchors[..n] + [anchors[n]];
      match AnchorProblem(mac, key, rows, anchors[n], checkMac)
      case None => rest
      case Some(p) => rest + [(anchors[n].eventId, p)]
  }

  /** Refuses an empty chain, and a broken one, which an anchor would legitimize. */
  method MakeAnchor(h: Digest, mac: AnchorMac, key: Option<Key>, rows: seq<Event>, at: string, instance: string)
    returns (r: Option<Anchor>)
    ensures r.Some? <==> Linked(h, rows) && rows != []
    ensures r.Some? ==> AnchorOf(mac, key, rows, r.value)
  {
    var res := VerifyChain(h, rows);
    if res.Broken? || res.events == 0 { return None; }
    var a := Anchor(res.headId.value, res.head, res.events, at, instance, None);
    return Some(a.(mac := MacOf(mac, key, a)));
  }

  /** `a` is an anchor genuinely made from the chain `rows` under a seal key, or without one. */
  ghost predicate AnchorOf(mac: AnchorMac, key: Option<Key>, rows: seq<Event>, a: Anchor) {
    && rows != []
    && a.eventId == rows[|rows| - 1].id && a.hash == HeadHash(rows) && a.events == |rows|
    && a.mac == MacOf(mac, key, a)
  }

  /** An anchor without a MAC, or with an empty one, is compared by its hash alone, even where MACs are checked. */
  lemma MacIsOptional(mac: AnchorMac, key: Option<Key>, rows: seq<Event>, a: Anchor, checkMac: bool)
    requires a.mac == None || a.mac == Some("")
    ensures AnchorProblem(mac, key, rows, a, checkMac) == AnchorProblem(mac, key, rows, a, false)
    ensures AnchorProblem(mac, key, rows, a, checkMac).None? <==> exists ev :: Find(rows, a.eventId) == Some(ev) && ev.hash == a.hash
  {}

  method VerifyAgainstAnchors(h: Digest, mac: AnchorMac, key: Option<Key>, rows: seq<Event>, anchors: seq<Anchor>, checkMac: bool)
    returns (valid: bool, chainValid: bool, mismatches: seq<(nat, Mismatch)>)
    ensures chainValid <==> Linked(h, rows)
    ensures mismatches == AnchorProblems(mac, key, rows, anchors, checkMac)
    ensures valid <==> Linked(h, rows) && forall a :: a in anchors ==> AnchorProblem(mac, key, rows, a, checkMac).None?
  {
    var chain := VerifyChain(h, rows);
    mismatches := [];
    var i := 0;
    while i < |anchors|
      invariant 0 <= i <= |anchors|
      invariant mismatches == AnchorProblems(mac, key, rows, anchors[..i], checkMac)
    {
      var a := anchors[i];
      assert anchors[..i + 1][..i] == anchors[..i];
      i := i + 1;
      if checkMac && a.mac.Some? && a.mac.value != "" && MacOf(mac, key, a) != a.mac {
        mismatches := mismatches + [(a.eventId, MacDoesNotVerify)];
        continue;
      }
      var ev := Find(rows, a.eventId);
      if ev.None? {
        mismatches := mismatches + [(a.eventId, EventGone)];
      } else if ev.value.hash != a.hash {
        mismatches := mismatches + [(a.eventId, HashDiffers)];
      }
    }
    assert anchors[..i] == anchors;
    chainValid := chain.Valid?;
    valid := chainValid && mismatches == [];
  }

  /** The current table continues the anchored history: same events in the same
      order, and the row the anchor names is still the last of them. */
  ghost predicate Extends(rows: seq<Event>, anchored: seq<Event>) {
    && 0 < |anchored| <= |rows|
    && SameBodies(rows[..|anchored|], anchored)
    && rows[|anchored| - 1].id == anchored[|anchored| - 1].id
  }

  /** An anchor taken from an earlier chain verifies against a valid table exactly
      when that table still begins with the anchored history, whatever was appended
      or anchored in between, and, where MACs are checked, the seal key is still the one it
      was made with, if it was made with one. */
  lemma AnchorPinsHistory(h: Digest, mac: AnchorMac, made: Option<Key>, now: Option<Key>, anchored: seq<Event>, a: Anchor,
                          rows: seq<Event>, checkMac: bool)
    requires CollisionFree(h) && DistinctMacs(mac)
    requires Linked(h, anchored) && AnchorOf(mac, made, anchored, a)
    requires Linked(h, rows) && Ascending(rows)
    ensures AnchorProblem(mac, now, rows, a, checkMac).None? <==> Extends(rows, anchored) && (checkMac && made.Some? ==> now == made)
  {
    AnchorNeedsItsKey(mac, made, now, anchored, a, rows, checkMac);
    if checkMac && made.Some? && now != made { return; }
    var n := |anchored|;
    if AnchorProblem(mac, now, rows, a, checkMac).None? {
      var ev := Find(rows, a.eventId).value;
      var k :| 0 <= k < |rows| && rows[k] == ev;
      LinkedPrefix(h, rows, k + 1);
      HeadPinsHistory(h, rows[..k + 1], anchored);
    }
    if Extends(rows, anchored) {
      assert rows[..n][n - 1] == rows[n - 1];
      assert rows[n - 1] in rows;
      var ev := Find(rows, a.eventId).value;
      var k :| 0 <= k < |rows| && rows[k] == ev;
      assert k == n - 1;
    }
  }

  /** After a rotation of the seal key, or without it, a genuine anchor is refused for its
      MAC, whatever the table holds, the unchanged one included. */
  lemma AnchorNeedsItsKey(mac: AnchorMac, made: Option<Key>, now: Option<Key>, anchored: seq<Event>, a: Anchor,
                          rows: seq<Event>, checkMac: bool)
    requires DistinctMacs(mac) && AnchorOf(mac, made, anchored, a)
    ensures AnchorProblem(mac, now, rows, a, checkMac) == Some(MacDoesNotVerify) <==> checkMac && made.Some? && now != made
  {}

  // ------------------------------------------------------------ appending

  /** One writer's view of the table. */
  class AuditLog {
    const digest: Digest
    var rows: seq<Event>
    var nextId: nat

    ghost predicate Valid()
      reads this
    {
      Linked(digest, rows) && Ascending(rows) && forall ev :: ev in rows ==> ev.id < nextId
    }

    constructor (h: Digest)
      ensures Valid() && rows == [] && digest == h
    {
      digest := h;
      rows, nextId := [], 1;
    }

    /** Append one event linked to the current head. */
    method Record(body: Body) returns (ev: Event)
      requires Valid()
      modifies this
      ensures Valid() && rows == old(rows) + [ev] && ev.body == body && ev.id == old(nextId)
    {
      var prev := if rows == [] then GENESIS else rows[|rows| - 1].hash;
      ev := Event(nextId, body, prev, digest(prev, body));
      LinkedAppend(digest, rows, ev);
      rows := rows + [ev];
      nextId := nextId + 1;
    }
  }
}
