/** Integrity seals (integrity.py): an HMAC over the fields of a row that decide access,
    keyed outside the database. The application seals what it writes; an SQL writer can
    put any values in a row and any seal it has seen, but cannot compute a new one.

    `V` stands for a row's kind and covered fields, the HMAC is an opaque function. */
module Seals {
  import opened Prelude

  datatype Seal = Seal(hex: nat)
  datatype Config = Config(key: Option<Key>, previous: Option<Key>, enforce: bool)
  datatype Row<V> = Row(values: V, seal: Option<Seal>)

  ghost predicate Unforgeable<V(!new)>(mac: (Key, V) -> Seal) {
    forall k, v, l, w :: mac(k, v) == mac(l, w) ==> k == l && v == w
  }

  // ------------------------------------------------------------ verdicts

  /** Whether a seal fits the values, under the current or the previous key. */
  predicate Matches<V>(mac: (Key, V) -> Seal, cfg: Config, values: V, seal: Option<Seal>) {
    match seal
    case None => !cfg.enforce
    case Some(s) =>
      || (cfg.key.Some? && mac(cfg.key.value, values) == s)
      || (cfg.previous.Some? && mac(cfg.previous.value, values) == s)
  }

  /** Whether the row's stored state is trusted. Everything is when sealing is off. */
  predicate Verify<V>(mac: (Key, V) -> Seal, cfg: Config, row: Row<V>) {
    cfg.key.None? || Matches(mac, cfg, row.values, row.seal)
  }

  function Compute<V>(mac: (Key, V) -> Seal, cfg: Config, values: V): Option<Seal> {
    match cfg.key
    case None => None
    case Some(k) => Some(mac(k, values))
  }

  // ------------------------------------------------------------ the application's writes

  /** An update reseals a row only if it was intact as stored; a broken seal stays broken. */
  function Updated<V>(mac: (Key, V) -> Seal, cfg: Config, stored: Row<V>, values: V): Row<V> {
    if cfg.key.Some? && Matches(mac, cfg, stored.values, stored.seal) then Row(values, Compute(mac, cfg, values))
    else stored.(values := values)
  }

  /** After a key rotation: intact rows get a seal under the current key. */
  function Resealed<V>(mac: (Key, V) -> Seal, cfg: Config, row: Row<V>): Row<V> {
    if Matches(mac, cfg, row.values, row.seal) then row.(seal := Compute(mac, cfg, row.values)) else row
  }

  class Table<V(==)> {
    const mac: (Key, V) -> Seal
    const cfg: Config
    var rows: map<nat, Row<V>>

    constructor (m: (Key, V) -> Seal, c: Config)
      ensures mac == m && cfg == c && rows == map[]
    {
      mac, cfg, rows := m, c, map[];
    }

    /** The new row is trusted, and every other row keeps its values, its seal and its verdict. */
    method Insert(id: nat, values: V)
      modifies this
      ensures rows == old(rows)[id := Row(values, Compute(mac, cfg, values))]
      ensures Verify(mac, cfg, rows[id]) && rows[id].values == values
      ensures forall i :: i in old(rows) && i != id ==> i in rows && rows[i] == old(rows)[i]
    {
      rows := rows[id := Row(values, Compute(mac, cfg, values))];
    }

    /** An update of a trusted row leaves it trusted; nothing but a matching seal makes an untrusted one so. */
    method Update(id: nat, values: V)
      requires id in rows
      modifies this
      ensures rows == old(rows)[id := Updated(mac, cfg, old(rows)[id], values)]
      ensures Verify(mac, cfg, old(rows)[id]) ==> Verify(mac, cfg, rows[id])
      ensures !Verify(mac, cfg, old(rows)[id]) || cfg.key.None? ==> rows[id].seal == old(rows)[id].seal
    {
      var row := rows[id].(values := values);
      if cfg.key.Some? && Matches(mac, cfg, rows[id].values, rows[id].seal) {
        row := row.(seal := Compute(mac, cfg, values));
      }
      rows := rows[id := row];
    }

    method ResealAll() returns (done: nat, broken: nat)
      modifies this
      ensures rows == map id | id in old(rows) :: Resealed(mac, cfg, old(rows)[id])
      ensures done == |Intact(mac, cfg, old(rows))| && done + broken == |old(rows)|
      ensures cfg.key.Some? ==> forall id :: id in Intact(mac, cfg, old(rows)) <==> id in old(rows) && Verify(mac, cfg, old(rows)[id])
    {
      rows, done, broken := ResealRows(mac, cfg, rows);
    }
  }

  method ResealRows<V>(mac: (Key, V) -> Seal, cfg: Config, rows: map<nat, Row<V>>)
    returns (out: map<nat, Row<V>>, done: nat, broken: nat)
    ensures out == map id | id in rows :: Resealed(mac, cfg, rows[id])
    ensures done == |Intact(mac, cfg, rows)| && done + broken == |rows|
  {
    out, done, broken := rows, 0, 0;
    ghost var intact := Intact(mac, cfg, rows);
    var todo := rows.Keys;
    while todo != {}
      invariant todo <= rows.Keys && out == ResealedExcept(mac, cfg, rows, todo)
      invariant done == |intact - todo| && done + broken == |rows.Keys - todo|
      decreases todo
    {
      var id :| id in todo;
      OneLess(intact, todo, id);
      OneLess(rows.Keys, todo, id);
      ResealOne(mac, cfg, rows, todo, id);
      todo := todo - {id};
      var row := rows[id];
      if Matches(mac, cfg, row.values, row.seal) {
        out := out[id := row.(seal := Compute(mac, cfg, row.values))];
        done := done + 1;
      } else {
        broken := broken + 1;
      }
    }
    AllResealed(mac, cfg, rows);
  }

  lemma AllResealed<V>(mac: (Key, V) -> Seal, cfg: Config, rows: map<nat, Row<V>>)
    ensures ResealedExcept(mac, cfg, rows, {}) == map id | id in rows :: Resealed(mac, cfg, rows[id])
    ensures Intact(mac, cfg, rows) - {} == Intact(mac, cfg, rows) && |rows.Keys - {}| == |rows|
  {
    assert rows.Keys - {} == rows.Keys;
  }

  function ResealedExcept<V>(mac: (Key, V) -> Seal, cfg: Config, rows: map<nat, Row<V>>, todo: set<nat>): map<nat, Row<V>> {
    map id | id in rows :: if id in todo then rows[id] else Resealed(mac, cfg, rows[id])
  }

  lemma ResealOne<V>(mac: (Key, V) -> Seal, cfg: Config, rows: map<nat, Row<V>>, todo: set<nat>, id: nat)
    requires todo <= rows.Keys && id in todo
    ensures var out := ResealedExcept(mac, cfg, rows, todo);
            ResealedExcept(mac, cfg, rows, todo - {id})
            == if Matches(mac, cfg, rows[id].values, rows[id].seal)
               then out[id := rows[id].(seal := Compute(mac, cfg, rows[id].values))] else out
  {}

  lemma OneLess(s: set<nat>, todo: set<nat>, id: nat)
    requires id in todo
    ensures |s - (todo - {id})| == |s - todo| + if id in s then 1 else 0
  {
    assert s - (todo - {id}) == (s - todo) + if id in s then {id} else {};
  }

  /** The rows whose stored state is intact. */
  function Intact<V>(mac: (Key, V) -> Seal, cfg: Config, rows: map<nat, Row<V>>): set<nat> {
    set id | id in rows && Matches(mac, cfg, rows[id].values, rows[id].seal)
  }

  /** Resealing changes no verdict, and afterwards the previous key is not needed. */
  lemma ResealKeepsVerdicts<V>(mac: (Key, V) -> Seal, cfg: Config, row: Row<V>)
    requires cfg.key.Some?
    ensures Verify(mac, cfg, Resealed(mac, cfg, row)) <==> Verify(mac, cfg, row)
    ensures Verify(mac, cfg.(previous := None), Resealed(mac, cfg, row)) <==> Verify(mac, cfg, row)
    ensures Resealed(mac, cfg, row).values == row.values
    ensures Resealed(mac, cfg, Resealed(mac, cfg, row)) == Resealed(mac, cfg, row)
  {}

  // ------------------------------------------------------------ runs against an SQL writer

  /** Values the application sealed for a row, and the stored values it sealed them from. */
  datatype Sealing<V> = FromScratch(id: nat, values: V) | FromStored(id: nat, values: V, stored: V)

  /** The rows, every seal that was ever stored, and what the application sealed, in order. */
  datatype World<V> = World(cfg: Config, rows: map<nat, Row<V>>, seals: set<Seal>, log: seq<Sealing<V>>)

  datatype Step<V> =
    | Insert(id: nat, values: V)
    | Update(id: nat, values: V)
    | ResealAll
    | Rotate(key: Key)
    | DropPrevious
    | SqlWrite(id: nat, values: V, seal: Option<Seal>)
    | SqlDelete(id: nat)

  /** The keys this installation uses, now or ever: the ones the SQL writer does not have. */
  type Keyring = iset<Key>

  /** A seal the SQL writer can produce: one it has seen, or one that is no HMAC under our keys. */
  ghost predicate Writable<V(!new)>(mac: (Key, V) -> Seal, ours: Keyring, seen: set<Seal>, seal: Option<Seal>) {
    seal.Some? && seal.value !in seen ==> forall k, v :: k in ours ==> mac(k, v) != seal.value
  }

  function SealsOf<V>(rows: map<nat, Row<V>>): set<Seal> {
    set id | id in rows && rows[id].seal.Some? :: rows[id].seal.value
  }

  ghost function Next<V(!new)>(mac: (Key, V) -> Seal, ours: Keyring, w: World<V>, step: Step<V>): World<V>
    requires w.cfg.key.Some?
    ensures Next(mac, ours, w, step).cfg.key.Some?
  {
    match step
    case Insert(id, values) =>
      var rows := w.rows[id := Row(values, Compute(mac, w.cfg, values))];
      w.(rows := rows, seals := w.seals + SealsOf(rows), log := w.log + [FromScratch(id, values)])
    case Update(id, values) =>
      if id !in w.rows then w
      else
        var row := w.rows[id];
        var rows := w.rows[id := Updated(mac, w.cfg, row, values)];
        var log := if Matches(mac, w.cfg, row.values, row.seal) then w.log + [FromStored(id, values, row.values)] else w.log;
        w.(rows := rows, seals := w.seals + SealsOf(rows), log := log)
    case ResealAll =>
      var rows := map id | id in w.rows :: Resealed(mac, w.cfg, w.rows[id]);
      w.(rows := rows, seals := w.seals + SealsOf(rows))
    case Rotate(key) => if key in ours then w.(cfg := w.cfg.(key := Some(key), previous := w.cfg.key)) else w
    case DropPrevious => w.(cfg := w.cfg.(previous := None))
    case SqlWrite(id, values, seal) =>
      if !Writable(mac, ours, w.seals, seal) then w
      else
        var rows := w.rows[id := Row(values, seal)];
        w.(rows := rows, seals := w.seals + SealsOf(rows))
    case SqlDelete(id) => w.(rows := w.rows - {id})
  }

  ghost function Run<V(!new)>(mac: (Key, V) -> Seal, ours: Keyring, cfg: Config, steps: seq<Step<V>>): (w: World<V>)
    requires cfg.key.Some?
    ensures w.cfg.key.Some?
  {
    if steps == [] then World(cfg, map[], {}, [])
    else Next(mac, ours, Run(mac, ours, cfg, steps[..|steps| - 1]), steps[|steps| - 1])
  }

  ghost predicate SealedBy<V>(log: seq<Sealing<V>>, values: V) {
    exists i :: 0 <= i < |log| && log[i].values == values
  }

  /** Whatever the application sealed from a stored row was itself sealed before. */
  ghost predicate Grounded<V>(log: seq<Sealing<V>>) {
    forall i :: 0 <= i < |log| && log[i].FromStored? ==> SealedBy(log[..i], log[i].stored)
  }

  /** Every row that verifies holds values the application sealed, each from a state it had sealed before. */
  ghost predicate NothingLaundered<V(!new)>(mac: (Key, V) -> Seal, w: World<V>) {
    && (forall id :: id in w.rows && Verify(mac, w.cfg, w.rows[id]) ==> SealedBy(w.log, w.rows[id].values))
    && Grounded(w.log)
  }

  /** Every seal ever stored that is an HMAC under one of our keys is one of values the application sealed. */
  ghost predicate KnownSeals<V(!new)>(mac: (Key, V) -> Seal, ours: Keyring, seals: set<Seal>, log: seq<Sealing<V>>) {
    forall k, v {:trigger mac(k, v)} :: k in ours && mac(k, v) in seals ==> SealedBy(log, v)
  }

  /** A key is configured, and the configured keys are ours alone. */
  ghost predicate Installed(ours: Keyring, cfg: Config) {
    && cfg.key.Some? && cfg.key.value in ours
    && (cfg.previous.Some? ==> cfg.previous.value in ours)
  }

  ghost predicate Inv<V(!new)>(mac: (Key, V) -> Seal, ours: Keyring, w: World<V>) {
    && w.cfg.enforce && Installed(ours, w.cfg)
    && SealsOf(w.rows) <= w.seals && KnownSeals(mac, ours, w.seals, w.log) && Grounded(w.log)
  }

  lemma SealedMore<V>(log: seq<Sealing<V>>, s: Sealing<V>, values: V)
    ensures SealedBy(log + [s], values) <==> SealedBy(log, values) || s.values == values
  {
    if SealedBy(log, values) {
      var i :| 0 <= i < |log| && log[i].values == values;
      assert (log + [s])[i].values == values;
    }
    assert (log + [s])[|log|] == s;
  }

  lemma LogGrows<V>(log: seq<Sealing<V>>, s: Sealing<V>)
    requires Grounded(log) && (s.FromStored? ==> SealedBy(log, s.stored))
    ensures Grounded(log + [s])
  {
    var all := log + [s];
    forall i | 0 <= i < |all| && all[i].FromStored? ensures SealedBy(all[..i], all[i].stored) {
      assert all[..i] == log[..i];
      if i == |log| { assert log[..i] == log; } else { assert all[i] == log[i]; }
    }
  }

  lemma VerifiedWasSealed<V(!new)>(mac: (Key, V) -> Seal, ours: Keyring, w: World<V>, id: nat)
    requires Inv(mac, ours, w) && id in w.rows && Matches(mac, w.cfg, w.rows[id].values, w.rows[id].seal)
    ensures SealedBy(w.log, w.rows[id].values)
  {
    assert w.rows[id].seal.value in SealsOf(w.rows);
  }

  lemma StepKeeps<V(!new)>(mac: (Key, V) -> Seal, ours: Keyring, w: World<V>, step: Step<V>)
    requires Unforgeable(mac) && Inv(mac, ours, w)
    ensures Inv(mac, ours, Next(mac, ours, w, step))
  {
    var w' := Next(mac, ours, w, step);
    match step
    case Insert(id, values) =>
      LogGrows(w.log, FromScratch(id, values));
      forall k, v | k in ours && mac(k, v) in w'.seals ensures SealedBy(w'.log, v) {
        SealedMore(w.log, FromScratch(id, values), v);
      }
    case Update(id, values) =>
      if id in w.rows && Matches(mac, w.cfg, w.rows[id].values, w.rows[id].seal) {
        var s := FromStored(id, values, w.rows[id].values);
        VerifiedWasSealed(mac, ours, w, id);
        LogGrows(w.log, s);
        forall k, v | k in ours && mac(k, v) in w'.seals ensures SealedBy(w'.log, v) {
          SealedMore(w.log, s, v);
        }
      }
    case ResealAll =>
      forall k, v | k in ours && mac(k, v) in w'.seals ensures SealedBy(w'.log, v) {
        if mac(k, v) !in w.seals {
          var id :| id in w'.rows && w'.rows[id].seal == Some(mac(k, v));
          assert w.rows[id].seal != w'.rows[id].seal by {
            assert w.rows[id].seal.Some? ==> w.rows[id].seal.value in SealsOf(w.rows);
          }
          VerifiedWasSealed(mac, ours, w, id);
        }
      }
    case Rotate(_) =>
    case DropPrevious =>
    case SqlWrite(_, _, _) =>
    case SqlDelete(_) =>
  }

  lemma {:induction false} RunKeeps<V(!new)>(mac: (Key, V) -> Seal, ours: Keyring, cfg: Config, steps: seq<Step<V>>)
    requires Unforgeable(mac) && Installed(ours, cfg) && cfg.enforce
    ensures Inv(mac, ours, Run(mac, ours, cfg, steps))
  {
    if steps != [] {
      RunKeeps(mac, ours, cfg, steps[..|steps| - 1]);
      StepKeeps(mac, ours, Run(mac, ours, cfg, steps[..|steps| - 1]), steps[|steps| - 1]);
    }
  }

  /** No later write launders a tampered row, over every run of application and SQL
      writes, resealing and key rotation, exactly when missing seals are refused. */
  lemma NoLaunderingIff<V(!new)>(mac: (Key, V) -> Seal, ours: Keyring, cfg: Config, a: V, b: V)
    requires Unforgeable(mac) && Installed(ours, cfg) && a != b
    ensures cfg.enforce <==> forall steps :: NothingLaundered(mac, Run(mac, ours, cfg, steps))
  {
    if cfg.enforce {
      forall steps ensures NothingLaundered(mac, Run(mac, ours, cfg, steps)) {
        RunKeeps(mac, ours, cfg, steps);
        var w := Run(mac, ours, cfg, steps);
        forall id | id in w.rows && Verify(mac, w.cfg, w.rows[id]) ensures SealedBy(w.log, w.rows[id].values) {
          VerifiedWasSealed(mac, ours, w, id);
        }
      }
    } else {
      var steps := UnsealedRowIsTrusted(mac, ours, cfg, a, b);
      assert !NothingLaundered(mac, Run(mac, ours, cfg, steps));
    }
  }

  /** Before enforcement: values planted without a seal are accepted, and the next
      application update seals a row built on them. */
  lemma UnsealedRowIsTrusted<V(!new)>(mac: (Key, V) -> Seal, ours: Keyring, cfg: Config, a: V, b: V) returns (steps: seq<Step<V>>)
    requires Installed(ours, cfg) && !cfg.enforce && a != b
    ensures Run(mac, ours, cfg, steps).rows.Keys == {0}
    ensures steps == [Insert(0, a), SqlWrite(0, b, None), Update(0, a)]
    ensures var w := Run(mac, ours, cfg, steps); w.log == [FromScratch(0, a), FromStored(0, a, b)]
    ensures Verify(mac, cfg.(enforce := true), Run(mac, ours, cfg, steps).rows[0])
    ensures !NothingLaundered(mac, Run(mac, ours, cfg, steps))
  {
    steps := [Insert(0, a), SqlWrite(0, b, None), Update(0, a)];
    var start := World(cfg, map[], {}, []);
    assert Run(mac, ours, cfg, []) == start;
    assert [] + [Insert(0, a)] == [Insert(0, a)];
    assert [Insert(0, a)] + [SqlWrite(0, b, None)] == [Insert(0, a), SqlWrite(0, b, None)];
    assert steps == [Insert(0, a), SqlWrite(0, b, None)] + [Update(0, a)];
    RunSnoc(mac, ours, cfg, [], Insert(0, a));
    RunSnoc(mac, ours, cfg, [Insert(0, a)], SqlWrite(0, b, None));
    RunSnoc(mac, ours, cfg, [Insert(0, a), SqlWrite(0, b, None)], Update(0, a));
    var w := Run(mac, ours, cfg, steps);
    assert w.log == [FromScratch(0, a)] + [FromStored(0, a, b)];
    assert w.log[1].FromStored? && w.log[..1] == [FromScratch(0, a)];
  }

  lemma RunSnoc<V(!new)>(mac: (Key, V) -> Seal, ours: Keyring, cfg: Config, steps: seq<Step<V>>, step: Step<V>)
    requires cfg.key.Some?
    ensures Run(mac, ours, cfg, steps + [step]) == Next(mac, ours, Run(mac, ours, cfg, steps), step)
  {
    assert (steps + [step])[..|steps|] == steps;
  }

  /** Once a key rotation is finished, by resealing every row and dropping the previous key,
      every row has the verdict and the values it had before. */
  lemma RotationKeepsVerdicts<V(!new)>(mac: (Key, V) -> Seal, ours: Keyring, cfg: Config, steps: seq<Step<V>>, id: nat)
    requires cfg.key.Some?
    ensures var w, t := Run(mac, ours, cfg, steps), Run(mac, ours, cfg, steps + [ResealAll] + [DropPrevious]);
            && (id in w.rows <==> id in t.rows) && t.cfg == w.cfg.(previous := None)
            && (id in w.rows ==> t.rows[id].values == w.rows[id].values
                                 && (Verify(mac, t.cfg, t.rows[id]) <==> Verify(mac, w.cfg, w.rows[id])))
  {
    var w := Run(mac, ours, cfg, steps);
    RunSnoc(mac, ours, cfg, steps, ResealAll);
    RunSnoc(mac, ours, cfg, steps + [ResealAll], DropPrevious);
    if id in w.rows { ResealKeepsVerdicts(mac, w.cfg, w.rows[id]); }
  }

  /** What a rotation does to a row: it verifies exactly if it is sealed under the new key or the
      one that was current, or has no seal where none is asked for. */
  lemma RotationKeepsCurrentSeals<V(!new)>(mac: (Key, V) -> Seal, ours: Keyring, cfg: Config, steps: seq<Step<V>>, key: Key, id: nat)
    requires cfg.key.Some? && key in ours && id in Run(mac, ours, cfg, steps).rows
    ensures var w, t := Run(mac, ours, cfg, steps), Run(mac, ours, cfg, steps + [Rotate(key)]);
            var row := w.rows[id];
            && t.rows == w.rows && t.cfg.enforce == w.cfg.enforce
            && (Verify(mac, t.cfg, row) <==>
                  if row.seal.None? then !w.cfg.enforce
                  else row.seal == Some(mac(key, row.values)) || row.seal == Some(mac(w.cfg.key.value, row.values)))
  {
    RunSnoc(mac, ours, cfg, steps, Rotate(key));
  }

  /** A seal made under the current key outlives one rotation, and without resealing no second one. */
  lemma SealOutlivesOneRotation<V(!new)>(mac: (Key, V) -> Seal, ours: Keyring, cfg: Config, steps: seq<Step<V>>, id: nat, values: V,
                                         first: Key, second: Key)
    requires Unforgeable(mac) && cfg.key.Some? && first in ours && second in ours
    requires first != Run(mac, ours, cfg, steps).cfg.key.value && second != Run(mac, ours, cfg, steps).cfg.key.value
    ensures var sealed := steps + [Insert(id, values)];
            var once, twice := Run(mac, ours, cfg, sealed + [Rotate(first)]), Run(mac, ours, cfg, sealed + [Rotate(first)] + [Rotate(second)]);
            && id in once.rows && once.rows[id].values == values && Verify(mac, once.cfg, once.rows[id])
            && id in twice.rows && twice.rows[id] == once.rows[id] && !Verify(mac, twice.cfg, twice.rows[id])
  {
    hide Run, Next, Verify, Unforgeable;
    var sealed := steps + [Insert(id, values)];
    RunSnoc(mac, ours, cfg, steps, Insert(id, values));
    InsertSeals(mac, ours, Run(mac, ours, cfg, steps), id, values);
    RunSnoc(mac, ours, cfg, sealed, Rotate(first));
    RotateSets(mac, ours, Run(mac, ours, cfg, sealed), first);
    RotationKeepsCurrentSeals(mac, ours, cfg, sealed, first, id);
    RotationKeepsCurrentSeals(mac, ours, cfg, sealed + [Rotate(first)], second, id);
    DifferentSeals(mac, Run(mac, ours, cfg, steps).cfg.key.value, first, second, values);
  }

  lemma InsertSeals<V(!new)>(mac: (Key, V) -> Seal, ours: Keyring, w: World<V>, id: nat, values: V)
    requires w.cfg.key.Some?
    ensures var t := Next(mac, ours, w, Insert(id, values));
            t.cfg == w.cfg && id in t.rows && t.rows[id] == Row(values, Some(mac(w.cfg.key.value, values)))
  {}

  lemma RotateSets<V(!new)>(mac: (Key, V) -> Seal, ours: Keyring, w: World<V>, key: Key)
    requires w.cfg.key.Some? && key in ours
    ensures Next(mac, ours, w, Rotate(key)).cfg.key == Some(key)
  {}

  lemma DifferentSeals<V(!new)>(mac: (Key, V) -> Seal, made: Key, first: Key, second: Key, values: V)
    requires Unforgeable(mac) && first != made && second != made
    ensures mac(made, values) != mac(first, values) && mac(made, values) != mac(second, values)
  {}

  // ------------------------------------------------------------ whose content a row holds

  ghost predicate SealedFor<V>(log: seq<Sealing<V>>, id: nat, values: V) {
    exists i :: 0 <= i < |log| && log[i].id == id && log[i].values == values
  }

  /** The step writes row `id`, or removes it. Resealing leaves the values alone. */
  ghost predicate Writes<V(!new)>(mac: (Key, V) -> Seal, ours: Keyring, w: World<V>, step: Step<V>, id: nat) {
    match step
    case Insert(i, _) => i == id
    case Update(i, _) => i == id && id in w.rows
    case SqlWrite(i, _, seal) => i == id && Writable(mac, ours, w.seals, seal)
    case SqlDelete(i) => i == id
    case _ => false
  }

  /** The step puts values there that the application sealed for another row and not for this
      one: an SQL write, or an application update of a row whose seal was broken. */
  ghost predicate PutsForeign<V(!new)>(mac: (Key, V) -> Seal, ours: Keyring, w: World<V>, step: Step<V>, id: nat) {
    && Writes(mac, ours, w, step, id)
    && match step
       case SqlWrite(_, values, _) => SealedBy(w.log, values) && !SealedFor(w.log, id, values)
       case Update(_, values) =>
         !Matches(mac, w.cfg, w.rows[id].values, w.rows[id].seal) && SealedBy(w.log, values) && !SealedFor(w.log, id, values)
       case _ => false
  }

  /** The last write to the row put another row's sealed content there. */
  ghost predicate HoldsForeign<V(!new)>(mac: (Key, V) -> Seal, ours: Keyring, cfg: Config, steps: seq<Step<V>>, id: nat)
    requires cfg.key.Some?
  {
    steps != []
    && var init, step := steps[..|steps| - 1], steps[|steps| - 1];
       var w := Run(mac, ours, cfg, init);
       if Writes(mac, ours, w, step, id) then PutsForeign(mac, ours, w, step, id) else HoldsForeign(mac, ours, cfg, init, id)
  }

  lemma SealedForMore<V>(log: seq<Sealing<V>>, s: Sealing<V>, id: nat, values: V)
    ensures SealedFor(log + [s], id, values) <==> SealedFor(log, id, values) || (s.id == id && s.values == values)
  {
    if SealedFor(log, id, values) {
      var i :| 0 <= i < |log| && log[i].id == id && log[i].values == values;
      assert (log + [s])[i] == log[i];
    }
    assert (log + [s])[|log|] == s;
  }

  /** A step that does not write the row keeps its values and what was sealed for it. */
  lemma OthersKeepRow<V(!new)>(mac: (Key, V) -> Seal, ours: Keyring, w: World<V>, step: Step<V>, id: nat, values: V)
    requires w.cfg.key.Some? && !Writes(mac, ours, w, step, id)
    ensures id in w.rows <==> id in Next(mac, ours, w, step).rows
    ensures id in w.rows ==> Next(mac, ours, w, step).rows[id].values == w.rows[id].values
    ensures SealedFor(Next(mac, ours, w, step).log, id, values) <==> SealedFor(w.log, id, values)
  {
    var log := Next(mac, ours, w, step).log;
    if log != w.log {
      SealedForMore(w.log, log[|w.log|], id, values);
      assert log == w.log + [log[|w.log|]];
    }
  }

  lemma {:induction false} ForeignIsNotSealedFor<V(!new)>(mac: (Key, V) -> Seal, ours: Keyring, cfg: Config, steps: seq<Step<V>>, id: nat)
    requires cfg.key.Some? && HoldsForeign(mac, ours, cfg, steps, id)
    ensures var w := Run(mac, ours, cfg, steps); id in w.rows && !SealedFor(w.log, id, w.rows[id].values)
  {
    var init, step := steps[..|steps| - 1], steps[|steps| - 1];
    var w := Run(mac, ours, cfg, init);
    if !Writes(mac, ours, w, step, id) {
      ForeignIsNotSealedFor(mac, ours, cfg, init, id);
      OthersKeepRow(mac, ours, w, step, id, w.rows[id].values);
    }
  }

  /** The row's seal is an HMAC of its values under one of our keys. */
  ghost predicate Fits<V>(mac: (Key, V) -> Seal, ours: Keyring, row: Row<V>) {
    exists k :: k in ours && row.seal == Some(mac(k, row.values))
  }

  /** Right after a write a fitting row holds what was sealed for it, or another row's content. */
  lemma WrittenRow<V(!new)>(mac: (Key, V) -> Seal, ours: Keyring, w: World<V>, step: Step<V>, id: nat)
    requires Inv(mac, ours, w) && Writes(mac, ours, w, step, id)
    requires id in Next(mac, ours, w, step).rows && Fits(mac, ours, Next(mac, ours, w, step).rows[id])
    ensures var t := Next(mac, ours, w, step);
            SealedFor(t.log, id, t.rows[id].values) || PutsForeign(mac, ours, w, step, id)
  {
    var t := Next(mac, ours, w, step);
    match step
    case Insert(_, values) => SealedForMore(w.log, FromScratch(id, values), id, values);
    case Update(_, values) =>
      if Matches(mac, w.cfg, w.rows[id].values, w.rows[id].seal) {
        SealedForMore(w.log, FromStored(id, values, w.rows[id].values), id, values);
      } else {
        assert w.rows[id].seal.value in SealsOf(w.rows);
      }
    case SqlWrite(_, _, _) =>
    case SqlDelete(_) =>
  }

  lemma UnwrittenFits<V(!new)>(mac: (Key, V) -> Seal, ours: Keyring, w: World<V>, step: Step<V>, id: nat)
    requires Inv(mac, ours, w) && !Writes(mac, ours, w, step, id)
    requires id in Next(mac, ours, w, step).rows && Fits(mac, ours, Next(mac, ours, w, step).rows[id])
    ensures id in w.rows && Fits(mac, ours, w.rows[id])
  {
    var t := Next(mac, ours, w, step);
    if t.rows[id] != w.rows[id] {
      assert step == ResealAll && Matches(mac, w.cfg, w.rows[id].values, w.rows[id].seal);
    }
  }

  lemma {:induction false} FittingRow<V(!new)>(mac: (Key, V) -> Seal, ours: Keyring, cfg: Config, steps: seq<Step<V>>, id: nat)
    requires Unforgeable(mac) && Installed(ours, cfg) && cfg.enforce
    requires id in Run(mac, ours, cfg, steps).rows && Fits(mac, ours, Run(mac, ours, cfg, steps).rows[id])
    ensures var w := Run(mac, ours, cfg, steps);
            SealedFor(w.log, id, w.rows[id].values) || HoldsForeign(mac, ours, cfg, steps, id)
  {
    var init, step := steps[..|steps| - 1], steps[|steps| - 1];
    var w := Run(mac, ours, cfg, init);
    RunKeeps(mac, ours, cfg, init);
    if Writes(mac, ours, w, step, id) {
      WrittenRow(mac, ours, w, step, id);
    } else {
      UnwrittenFits(mac, ours, w, step, id);
      FittingRow(mac, ours, cfg, init, id);
      OthersKeepRow(mac, ours, w, step, id, w.rows[id].values);
    }
  }

  /** A seal covers the kind and the fields of a row, not its id. So a row that verifies holds
      values sealed for that row exactly when the last write to it did not put values there
      that were sealed for another row only. */
  lemma RowHoldsItsOwnIff<V(!new)>(mac: (Key, V) -> Seal, ours: Keyring, cfg: Config, steps: seq<Step<V>>, id: nat)
    requires Unforgeable(mac) && Installed(ours, cfg) && cfg.enforce
    requires id in Run(mac, ours, cfg, steps).rows
    requires Verify(mac, Run(mac, ours, cfg, steps).cfg, Run(mac, ours, cfg, steps).rows[id])
    ensures var w := Run(mac, ours, cfg, steps);
            SealedFor(w.log, id, w.rows[id].values) <==> !HoldsForeign(mac, ours, cfg, steps, id)
  {
    RunKeeps(mac, ours, cfg, steps);
    var w := Run(mac, ours, cfg, steps);
    assert Fits(mac, ours, w.rows[id]) by {
      var k := if w.rows[id].seal == Some(mac(w.cfg.key.value, w.rows[id].values)) then w.cfg.key.value else w.cfg.previous.value;
      assert k in ours && w.rows[id].seal == Some(mac(k, w.rows[id].values));
    }
    FittingRow(mac, ours, cfg, steps, id);
    if HoldsForeign(mac, ours, cfg, steps, id) { ForeignIsNotSealedFor(mac, ours, cfg, steps, id); }
  }
}
