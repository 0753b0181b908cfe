/**
 The checks table and how persisting a canary brings its rows in line with its spec.

 Rows are never removed, only marked as deleted. Which writes fail is arbitrary: a check that cannot be
 persisted is reported and the rest goes on.
 */
module CheckTable {
  import opened Common

  type Uuid = nat
  const NIL: Uuid := 0

  /** A check in a canary's spec; `details` stands for its definition. */
  datatype Config = Config(name: string, kind: string, description: string, details: string)

  datatype Key = Key(canary: Uuid, kind: string, name: string, agent: Uuid)

  datatype Row = Row(key: Key, transformed: bool, description: string, details: string, deletedAt: Option<int>)

  type Rows = map<Uuid, Row>

  /** A check without a name goes by its description. */
  function EffectiveName(config: Config): string {
    if config.name != "" then config.name else config.description
  }

  /** A description that serves as the name is not kept as a description too. */
  function EffectiveDescription(config: Config): string {
    if config.name != "" then config.description else ""
  }

  function KeyOf(canary: Uuid, config: Config): Key {
    Key(canary, config.kind, EffectiveName(config), NIL)
  }

  ghost predicate Valid(rows: Rows) {
    && NIL !in rows
    && forall a, b {:trigger rows[a].key, rows[b].key} :: a in rows && b in rows && rows[a].key == rows[b].key ==>
         a == b
  }

  /** A row that is neither deleted nor the product of a transformation. */
  predicate IsPlain(r: Row, canary: Uuid) {
    r.key.canary == canary && !r.transformed && r.deletedAt.None?
  }

  /** What the canary's spec governs: the keys of its plain rows. */
  function PlainKeys(rows: Rows, canary: Uuid): set<Key> {
    set id | id in rows && IsPlain(rows[id], canary) :: rows[id].key
  }

  function TransformedKeys(rows: Rows): set<Key> {
    set id | id in rows && rows[id].transformed :: rows[id].key
  }

  /** The keys of the checks that could be persisted. */
  function PersistedKeys(canary: Uuid, configs: seq<Config>, fails: nat -> bool): set<Key> {
    set i | 0 <= i < |configs| && !fails(i) :: KeyOf(canary, configs[i])
  }

  // ---------------------------------------------------------------- what persisting a list of checks means

  /** Check `i` is the last one that was persisted under its key. */
  ghost predicate IsLast(configs: seq<Config>, canary: Uuid, fails: nat -> bool, i: nat) {
    && i < |configs| && !fails(i)
    && forall j :: i < j < |configs| && !fails(j) ==> KeyOf(canary, configs[j]) != KeyOf(canary, configs[i])
  }

  /** `id` is the row of check `i`: live, under the check's key. */
  ghost predicate IsRowOf(rows: Rows, id: Uuid, canary: Uuid, config: Config) {
    id in rows && rows[id].key == KeyOf(canary, config) && rows[id].deletedAt.None?
  }

  ghost predicate SameIdentity(a: Row, b: Row) {
    a.key == b.key && a.transformed == b.transformed
  }

  /** Rows keep what identifies them, new rows are plain, and rows that got no check are as they were. */
  ghost predicate CarriesOver(before: Rows, after: Rows, ids: seq<Uuid>) {
    && (forall id :: id in before ==> id in after && SameIdentity(before[id], after[id]))
    && (forall id :: id in after && id !in before ==> !after[id].transformed)
    && (forall id :: id in after && id !in ids ==> id in before && before[id] == after[id])
  }

  /** Each check has the id of its live row, or none if it could not be persisted. */
  ghost predicate HasRow(rows: Rows, canary: Uuid, config: Config, failed: bool, id: Uuid) {
    if failed then id == NIL else IsRowOf(rows, id, canary, config)
  }

  ghost predicate HaveRows(rows: Rows, canary: Uuid, configs: seq<Config>, fails: nat -> bool, ids: seq<Uuid>) {
    |ids| == |configs| && forall i :: 0 <= i < |configs| ==> HasRow(rows, canary, configs[i], fails(i), ids[i])
  }

  /** Every row reads as the last check that was persisted to it. */
  ghost predicate DescribeLast(rows: Rows, canary: Uuid, configs: seq<Config>, fails: nat -> bool, ids: seq<Uuid>)
    requires |ids| == |configs|
  {
    forall i :: 0 <= i < |configs| && IsLast(configs, canary, fails, i) ==> Describes(rows, ids[i], configs[i])
  }

  /** `after` is what persisting the checks one by one makes of `before`, and `ids` are the ids they got. */
  ghost predicate Persisted(before: Rows, after: Rows, canary: Uuid, configs: seq<Config>, fails: nat -> bool,
                            ids: seq<Uuid>)
  {
    && Valid(after)
    && CarriesOver(before, after, ids)
    && HaveRows(after, canary, configs, fails, ids)
    && DescribeLast(after, canary, configs, fails, ids)
  }

  ghost predicate Describes(rows: Rows, id: Uuid, config: Config) {
    id in rows && rows[id].description == EffectiveDescription(config) && rows[id].details == config.details
  }

  /** The rows after deleting the plain rows among `ids`. */
  function Cleaned(rows: Rows, ids: seq<Uuid>, now: int): Rows {
    map id | id in rows :: if id in ids && !rows[id].transformed then rows[id].(deletedAt := Some(now)) else rows[id]
  }

  /** The ids of the canary's plain rows. */
  ghost predicate ListsPlain(ids: seq<Uuid>, rows: Rows, canary: Uuid) {
    forall id :: id in ids <==> id in rows && IsPlain(rows[id], canary)
  }

  /** One application of a canary's spec: what was asked, what failed, and what came of it step by step. */
  datatype Run = Run(
    canary: Uuid, configs: seq<Config>, fails: nat -> bool, deleteFails: bool, now: int,
    ids: seq<Uuid>, upserted: Rows, removed: seq<Uuid>)

  /** The run leads from `before` to `after`. */
  ghost predicate Took(before: Rows, after: Rows, run: Run) {
    && Persisted(before, run.upserted, run.canary, run.configs, run.fails, run.ids)
    && (forall id :: id in run.removed <==> id in before && IsPlain(before[id], run.canary) && id !in run.ids)
    && after == if run.deleteFails then run.upserted else Cleaned(run.upserted, run.removed, run.now)
  }

  // ---------------------------------------------------------------- the table

  class Table {
    var rows: Rows

    constructor ()
      ensures rows == map[]
    {
      rows := map[];
    }

    /** Insert, or update in place on a conflict of the key; either way the row is live afterwards. */
    method PersistCheck(canary: Uuid, config: Config, fails: bool) returns (id: Uuid)
      requires Valid(rows)
      modifies this
      ensures Valid(rows)
      ensures Wrote(old(rows), rows, canary, config, fails, id)
      ensures if fails then id == 0 && rows == old(rows) else WroteFields(old(rows), rows, canary, config, id)
    {
      if fails {
        return NIL;
      }
      var key := KeyOf(canary, config);
      if existing :| existing in rows && rows[existing].key == key {
        id := existing;
        var row := rows[id];
        var description := EffectiveDescription(config);
        rows := rows[id := row.(description := description, details := config.details, deletedAt := None)];
      } else {
        id := FreshId();
        rows := rows[id := Row(key, false, EffectiveDescription(config), config.details, None)];
      }
    }

    /** The database's generated ids are arbitrary ones not in use. */
    method FreshId() returns (id: Uuid)
      ensures id !in rows && id != NIL
    {
      ghost var unused := UnusedExists(rows.Keys);
      id :| id !in rows && id != NIL;
    }

    method SelectPlain(canary: Uuid) returns (ids: seq<Uuid>)
      ensures ListsPlain(ids, rows, canary)
    {
      ids := [];
      var rest := rows.Keys;
      while rest != {}
        invariant rest <= rows.Keys
        invariant forall id :: id in ids <==> id in rows && id !in rest && IsPlain(rows[id], canary)
      {
        var id :| id in rest;
        rest := rest - {id};
        if IsPlain(rows[id], canary) {
          ids := ids + [id];
        }
      }
    }

    method DeleteNonTransformedChecks(ids: seq<Uuid>, now: int)
      modifies this
      ensures rows == Cleaned(old(rows), ids, now)
    {
      rows := map id | id in rows ::
        if id in ids && !rows[id].transformed then rows[id].(deletedAt := Some(now)) else rows[id];
    }

    /**
     Brings the rows of a canary in line with its spec: upsert every check, then delete the plain rows that were
     there before and got no check. Nothing is done when those cannot be read, or the spec cannot be parsed.
     */
    method PersistCanaryModel(canary: Uuid, spec: Option<seq<Config>>, readFails: bool, fails: nat -> bool,
                              deleteFails: bool, now: int)
      returns (ok: bool, checks: map<string, Uuid>, ids: seq<Uuid>, ghost run: Run)
      requires Valid(rows)
      modifies this
      ensures ok <==> !readFails && spec.Some?
      ensures !ok ==> rows == old(rows)
      ensures ok ==>
        && Took(old(rows), rows, run) && run.canary == canary && run.configs == spec.value && run.fails == fails
        && run.ids == ids && run.deleteFails == deleteFails && run.now == now && checks == IdsByName(spec.value, ids)
        && NamesIds(spec.value, ids, checks)
      ensures ok && !deleteFails ==> Reconciled(old(rows), rows, canary, spec.value, fails, ids, now)
    {
      ok, checks, ids, run := ApplySpec(canary, spec, readFails, fails, deleteFails, now);
      if ok {
        IdsAreNamed(spec.value, ids);
        if !deleteFails {
          ReconciledRows(old(rows), rows, run);
        }
      }
    }

    method ApplySpec(canary: Uuid, spec: Option<seq<Config>>, readFails: bool, fails: nat -> bool, deleteFails: bool,
                     now: int)
      returns (ok: bool, checks: map<string, Uuid>, ids: seq<Uuid>, ghost run: Run)
      requires Valid(rows)
      modifies this
      ensures ok <==> !readFails && spec.Some?
      ensures !ok ==> rows == old(rows)
      ensures ok ==>
        && Took(old(rows), rows, run) && run.canary == canary && run.configs == spec.value && run.fails == fails
        && run.ids == ids && run.deleteFails == deleteFails && run.now == now && checks == IdsByName(spec.value, ids)
    {
      ok, checks, ids := false, map[], [];
      run := Run(canary, [], fails, deleteFails, now, [], rows, []);
      if readFails {
        return;
      }
      var oldIds := SelectPlain(canary);
      if spec.None? {
        return;
      }
      checks, ids := UpsertAll(canary, spec.value, fails);
      ghost var upserted := rows;
      var toRemove := SetDifference(oldIds, ids);
      if |toRemove| > 0 && !deleteFails {
        DeleteNonTransformedChecks(toRemove, now);
      }
      assert |toRemove| == 0 ==> Cleaned(upserted, toRemove, now) == upserted;
      run := Run(canary, spec.value, fails, deleteFails, now, ids, upserted, toRemove);
      ok := true;
    }

    method UpsertAll(canary: Uuid, configs: seq<Config>, fails: nat -> bool)
      returns (checks: map<string, Uuid>, ids: seq<Uuid>)
      requires Valid(rows)
      modifies this
      ensures Persisted(old(rows), rows, canary, configs, fails, ids)
      ensures checks == IdsByName(configs, ids)
    {
      checks, ids := map[], [];
      for i := 0 to |configs|
        invariant Persisted(old(rows), rows, canary, configs[..i], fails, ids)
        invariant checks == IdsByName(configs[..i], ids)
      {
        ghost var before := rows;
        var id := PersistCheck(canary, configs[i], fails(i));
        PersistNext(old(rows), before, rows, canary, configs[..i], configs[i], fails, ids, id);
        TakeNext(configs, i);
        assert (ids + [id])[..i] == ids;
        ids := ids + [id];
        checks := checks[configs[i].name := id];
      }
      assert configs[..|configs|] == configs;
    }
  }

  /** The ids that the canary remembers: by the name in the spec, the last one winning. */
  function IdsByName(configs: seq<Config>, ids: seq<Uuid>): map<string, Uuid>
    requires |ids| == |configs|
  {
    if configs == [] then map[]
    else
      var last := |configs| - 1;
      IdsByName(configs[..last], ids[..last])[configs[last].name := ids[last]]
  }

  /** The write of one check: nothing on failure, and otherwise exactly the row of that check. */
  ghost predicate Wrote(before: Rows, after: Rows, canary: Uuid, config: Config, failed: bool, id: Uuid) {
    if failed then id == NIL && after == before
    else
      && IsRowOf(after, id, canary, config) && Describes(after, id, config)
      && after == before[id := after[id]]
      && if id in before then SameIdentity(before[id], after[id]) else !after[id].transformed
  }

  /**
   The check's row is live under the check's canary and type and its name, for which the description serves if it has
   none; it is the row that had this key if there was one, and all other rows are as they were.
   */
  ghost predicate WroteFields(before: Rows, after: Rows, canary: Uuid, config: Config, id: Uuid) {
    && id in after && id != 0
    && after[id].key == Key(canary, config.kind, if config.name != "" then config.name else config.description, 0)
    && after[id].description == (if config.name != "" then config.description else "")
    && after[id].details == config.details && after[id].deletedAt.None?
    && (forall other :: other in before && before[other].key == after[id].key ==> other == id)
    && after.Keys == before.Keys + {id}
    && (forall other :: other in before && other != id ==> after[other] == before[other])
    && after[id].transformed == (id in before && before[id].transformed)
  }

  lemma PersistNext(start: Rows, before: Rows, after: Rows, canary: Uuid, configs: seq<Config>, next: Config,
                    fails: nat -> bool, ids: seq<Uuid>, id: Uuid)
    requires Persisted(start, before, canary, configs, fails, ids) && Valid(after)
    requires Wrote(before, after, canary, next, fails(|configs|), id)
    ensures Persisted(start, after, canary, configs + [next], fails, ids + [id])
  {
    assert CarriesOver(start, after, ids + [id]);
    assert forall x :: IsRowOf(before, x, canary, next) ==> IsRowOf(after, x, canary, next);
    RowsStay(before, after, canary, configs, next, fails, ids, id);
    DescribeNext(before, after, canary, configs, next, fails, ids, id);
  }

  lemma RowsStay(before: Rows, after: Rows, canary: Uuid, configs: seq<Config>, next: Config,
                 fails: nat -> bool, ids: seq<Uuid>, id: Uuid)
    requires HaveRows(before, canary, configs, fails, ids)
    requires Wrote(before, after, canary, next, fails(|configs|), id)
    ensures HaveRows(after, canary, configs + [next], fails, ids + [id])
  {
  }

  lemma DescribeNext(before: Rows, after: Rows, canary: Uuid, configs: seq<Config>, next: Config,
                     fails: nat -> bool, ids: seq<Uuid>, id: Uuid)
    requires HaveRows(before, canary, configs, fails, ids) && DescribeLast(before, canary, configs, fails, ids)
    requires Wrote(before, after, canary, next, fails(|configs|), id)
    ensures DescribeLast(after, canary, configs + [next], fails, ids + [id])
  {
  }

  // ---------------------------------------------------------------- what the table looks like afterwards

  lemma RunKeepsValid(before: Rows, after: Rows, run: Run)
    requires Took(before, after, run)
    ensures Valid(after)
  {
  }

  /**
   From any table, the canary's plain rows end up under exactly the keys of the checks that could be persisted,
   except the keys that a transformed row has taken.
   */
  lemma PlainKeysExactly(before: Rows, after: Rows, run: Run)
    requires Valid(before) && Took(before, after, run) && !run.deleteFails
    ensures PlainKeys(after, run.canary) == PersistedKeys(run.canary, run.configs, run.fails) - TransformedKeys(before)
  {
    forall id | id in after && IsPlain(after[id], run.canary)
      ensures after[id].key in PersistedKeys(run.canary, run.configs, run.fails) - TransformedKeys(before)
    {
      PlainRowIsWanted(before, after, run, id);
    }
    forall key | key in PersistedKeys(run.canary, run.configs, run.fails) && key !in TransformedKeys(before)
      ensures key in PlainKeys(after, run.canary)
    {
      WantedKeyIsPlain(before, after, run, key);
    }
  }

  lemma PlainRowIsWanted(before: Rows, after: Rows, run: Run, id: Uuid)
    requires Valid(before) && Took(before, after, run) && !run.deleteFails
    requires id in after && IsPlain(after[id], run.canary)
    ensures after[id].key in PersistedKeys(run.canary, run.configs, run.fails)
    ensures after[id].key !in TransformedKeys(before)
  {
    assert id !in run.removed;
    assert id in run.ids;
    var i :| 0 <= i < |run.ids| && run.ids[i] == id;
    assert HasRow(run.upserted, run.canary, run.configs[i], run.fails(i), run.ids[i]);
    assert KeyOf(run.canary, run.configs[i]) in PersistedKeys(run.canary, run.configs, run.fails);
    forall other | other in before && before[other].transformed
      ensures before[other].key != after[id].key
    {
      assert other in after && SameIdentity(before[other], after[other]);
    }
  }

  lemma UntakenKeyIsPlain(rows: Rows, id: Uuid)
    requires id in rows && rows[id].key !in TransformedKeys(rows)
    ensures !rows[id].transformed
  {
  }

  lemma WantedKeyIsPlain(before: Rows, after: Rows, run: Run, key: Key)
    requires Took(before, after, run)
    requires key in PersistedKeys(run.canary, run.configs, run.fails) && key !in TransformedKeys(before)
    ensures key in PlainKeys(after, run.canary)
  {
    var i :| 0 <= i < |run.configs| && !run.fails(i) && KeyOf(run.canary, run.configs[i]) == key;
    var id := run.ids[i];
    assert HasRow(run.upserted, run.canary, run.configs[i], run.fails(i), id);
    assert id !in run.removed;
    if id in before {
      assert SameIdentity(before[id], run.upserted[id]);
      UntakenKeyIsPlain(before, id);
    }
    assert after[id] == run.upserted[id] && IsPlain(after[id], run.canary);
  }

  /**
   A plain row that was there is deleted exactly if no check of its key could be persisted, be it gone from the spec or
   not.
   */
  lemma DeletedExactly(before: Rows, after: Rows, run: Run, id: Uuid)
    requires Valid(before) && Took(before, after, run) && !run.deleteFails
    requires id in before && IsPlain(before[id], run.canary)
    ensures id in after
    ensures after[id].deletedAt.Some? <==> before[id].key !in PersistedKeys(run.canary, run.configs, run.fails)
  {
    assert SameIdentity(before[id], run.upserted[id]);
    if before[id].key in PersistedKeys(run.canary, run.configs, run.fails) {
      var i :| 0 <= i < |run.configs| && !run.fails(i) && KeyOf(run.canary, run.configs[i]) == before[id].key;
      assert HasRow(run.upserted, run.canary, run.configs[i], run.fails(i), run.ids[i]);
      assert SameIdentity(before[id], run.upserted[id]) && run.ids[i] == id;
    } else if after[id].deletedAt.None? {
      PlainRowIsWanted(before, after, run, id);
    }
  }

  /**
   A canary with one check, which is in the spec and has a row; when it cannot be persisted this time, the row is
   deleted.
   */
  lemma FailedCheckLosesRow(before: Rows, after: Rows, run: Run, id: Uuid, config: Config)
    requires id != NIL && before == map[id := Row(KeyOf(run.canary, config), false, "", config.details, None)]
    requires Took(before, after, run) && !run.deleteFails && run.configs == [config] && run.fails(0)
    ensures id in after && after[id].deletedAt.Some?
  {
    DeletedExactly(before, after, run, id);
  }

  /** With every write succeeding, the table mirrors the spec exactly if no transformed row shares a key with it. */
  lemma MirrorsSpec(before: Rows, after: Rows, run: Run)
    requires Valid(before) && Took(before, after, run) && !run.deleteFails && forall i :: !run.fails(i)
    ensures PlainKeys(after, run.canary) == (set c | c in run.configs :: KeyOf(run.canary, c))
       <==> forall c :: c in run.configs ==> KeyOf(run.canary, c) !in TransformedKeys(before)
  {
    PlainKeysExactly(before, after, run);
    AllPersisted(run);
    var wanted, taken := set c | c in run.configs :: KeyOf(run.canary, c), TransformedKeys(before);
    assert wanted - taken == wanted <==> wanted !! taken;
    assert forall c :: c in run.configs ==> KeyOf(run.canary, c) in wanted;
  }

  lemma AllPersisted(run: Run)
    requires forall i :: !run.fails(i)
    ensures PersistedKeys(run.canary, run.configs, run.fails) == set c | c in run.configs :: KeyOf(run.canary, c)
  {
  }

  // ---------------------------------------------------------------- the outcome in fields

  /** The check is stored under the key: the same canary and type, and its name, or its description if it has none. */
  ghost predicate StoredAs(key: Key, canary: Uuid, config: Config) {
    && key.canary == canary && key.kind == config.kind && key.agent == 0
    && key.name == if config.name != "" then config.name else config.description
  }

  /** Some check of the spec that could be persisted is stored under the key. */
  ghost predicate Wanted(key: Key, canary: Uuid, configs: seq<Config>, fails: nat -> bool) {
    exists i :: 0 <= i < |configs| && !fails(i) && StoredAs(key, canary, configs[i])
  }

  /**
   Every check that could be persisted has a live row. Of the canary's live rows that are not transformed, those stay
   live for which there is such a check, and the others are deleted now. Rows that got no check are otherwise as they
   were.
   */
  ghost predicate Reconciled(before: Rows, after: Rows, canary: Uuid, configs: seq<Config>, fails: nat -> bool,
                             ids: seq<Uuid>, now: int)
  {
    && |ids| == |configs|
    && (forall i :: 0 <= i < |configs| ==>
         if fails(i) then ids[i] == 0
         else ids[i] in after && after[ids[i]].deletedAt.None? && StoredAs(after[ids[i]].key, canary, configs[i]))
    && (forall id :: id in before && before[id].key.canary == canary && !before[id].transformed
                     && before[id].deletedAt.None? ==>
         && id in after && after[id].key == before[id].key
         && after[id].deletedAt == if Wanted(before[id].key, canary, configs, fails) then None else Some(now))
    && (forall id :: id in before && id !in ids
                     && (before[id].key.canary != canary || before[id].transformed || before[id].deletedAt.Some?) ==>
         id in after && after[id] == before[id])
    && (forall id :: id in after && id !in before ==> id in ids)
    && (forall i {:trigger ReadsAs(after, ids[i], configs[i])} ::
         0 <= i < |configs| && LastStored(after, canary, configs, fails, ids, i) ==> ReadsAs(after, ids[i], configs[i]))
  }

  /** No later check that could be persisted is stored under the same key. */
  ghost predicate LastStored(after: Rows, canary: Uuid, configs: seq<Config>, fails: nat -> bool, ids: seq<Uuid>,
                             i: nat)
    requires |ids| == |configs|
  {
    && i < |configs| && !fails(i) && ids[i] in after
    && forall j :: i < j < |configs| && !fails(j) ==> !StoredAs(after[ids[i]].key, canary, configs[j])
  }

  /** The row has the check's definition, and its description unless that serves as the name. */
  ghost predicate ReadsAs(after: Rows, id: Uuid, config: Config) {
    && id in after && after[id].details == config.details
    && after[id].description == if config.name != "" then config.description else ""
  }

  lemma LastReads(before: Rows, after: Rows, run: Run, i: nat)
    requires Valid(before) && Took(before, after, run) && !run.deleteFails && |run.ids| == |run.configs|
    requires i < |run.configs| && LastStored(after, run.canary, run.configs, run.fails, run.ids, i)
    ensures ReadsAs(after, run.ids[i], run.configs[i])
  {
    RowsGotten(before, after, run, i);
    assert HasRow(run.upserted, run.canary, run.configs[i], run.fails(i), run.ids[i]);
    forall j | i < j < |run.configs| && !run.fails(j)
      ensures KeyOf(run.canary, run.configs[j]) != KeyOf(run.canary, run.configs[i])
    {
      assert !StoredAs(after[run.ids[i]].key, run.canary, run.configs[j]);
    }
    assert IsLast(run.configs, run.canary, run.fails, i);
    assert Describes(run.upserted, run.ids[i], run.configs[i]);
    assert run.ids[i] !in run.removed;
  }

  lemma RowsGotten(before: Rows, after: Rows, run: Run, i: nat)
    requires Valid(before) && Took(before, after, run) && !run.deleteFails && i < |run.configs| && !run.fails(i)
    ensures run.ids[i] in after && after[run.ids[i]].deletedAt.None?
    ensures StoredAs(after[run.ids[i]].key, run.canary, run.configs[i])
  {
    assert HasRow(run.upserted, run.canary, run.configs[i], run.fails(i), run.ids[i]);
    assert run.ids[i] !in run.removed;
  }

  lemma PlainRowsReconciled(before: Rows, after: Rows, run: Run, id: Uuid)
    requires Valid(before) && Took(before, after, run) && !run.deleteFails
    requires id in before && IsPlain(before[id], run.canary)
    ensures id in after && after[id].key == before[id].key
    ensures after[id].deletedAt
         == if Wanted(before[id].key, run.canary, run.configs, run.fails) then None else Some(run.now)
  {
    DeletedExactly(before, after, run, id);
    assert SameIdentity(before[id], run.upserted[id]);
    var key := before[id].key;
    if Wanted(key, run.canary, run.configs, run.fails) {
      var i :| 0 <= i < |run.configs| && !run.fails(i) && StoredAs(key, run.canary, run.configs[i]);
      assert KeyOf(run.canary, run.configs[i]) == key;
    } else {
      assert key !in PersistedKeys(run.canary, run.configs, run.fails);
      assert run.upserted[id].deletedAt.None? || id in run.removed;
    }
  }

  lemma OthersReconciled(before: Rows, after: Rows, run: Run, id: Uuid)
    requires Took(before, after, run) && !run.deleteFails && id in before && id !in run.ids
    requires !IsPlain(before[id], run.canary)
    ensures id in after && after[id] == before[id]
  {
    assert SameIdentity(before[id], run.upserted[id]);
  }

  /** What applying a spec has done, read off the rows. */
  lemma ReconciledRows(before: Rows, after: Rows, run: Run)
    requires Valid(before) && Took(before, after, run) && !run.deleteFails
    ensures Reconciled(before, after, run.canary, run.configs, run.fails, run.ids, run.now)
  {
    forall i | 0 <= i < |run.configs|
      ensures if run.fails(i) then run.ids[i] == 0
              else run.ids[i] in after && after[run.ids[i]].deletedAt.None?
                   && StoredAs(after[run.ids[i]].key, run.canary, run.configs[i])
    {
      assert HasRow(run.upserted, run.canary, run.configs[i], run.fails(i), run.ids[i]);
      if !run.fails(i) {
        RowsGotten(before, after, run, i);
      }
    }
    forall i | 0 <= i < |run.configs| && LastStored(after, run.canary, run.configs, run.fails, run.ids, i)
      ensures ReadsAs(after, run.ids[i], run.configs[i])
    {
      LastReads(before, after, run, i);
    }
    forall id | id in before
      ensures IsPlain(before[id], run.canary) ==>
        && id in after && after[id].key == before[id].key
        && after[id].deletedAt
           == if Wanted(before[id].key, run.canary, run.configs, run.fails) then None else Some(run.now)
      ensures !IsPlain(before[id], run.canary) && id !in run.ids ==> id in after && after[id] == before[id]
    {
      if IsPlain(before[id], run.canary) {
        PlainRowsReconciled(before, after, run, id);
      } else if id !in run.ids {
        OthersReconciled(before, after, run, id);
      }
    }
  }

  /** The ids by the name in the spec, the last check of a name winning. */
  ghost predicate NamesIds(configs: seq<Config>, ids: seq<Uuid>, checks: map<string, Uuid>)
    requires |ids| == |configs|
  {
    && (forall name :: name in checks ==> exists i :: 0 <= i < |configs| && configs[i].name == name)
    && (forall i {:trigger LastNamed(configs, i)} :: 0 <= i < |configs| && LastNamed(configs, i) ==>
         configs[i].name in checks && checks[configs[i].name] == ids[i])
  }

  ghost predicate LastNamed(configs: seq<Config>, i: nat) {
    i < |configs| && forall j {:trigger configs[j]} :: i < j < |configs| ==> configs[j].name != configs[i].name
  }

  lemma {:induction false} IdsAreNamed(configs: seq<Config>, ids: seq<Uuid>)
    requires |ids| == |configs|
    ensures NamesIds(configs, ids, IdsByName(configs, ids))
  {
    if configs != [] {
      var last := |configs| - 1;
      IdsAreNamed(configs[..last], ids[..last]);
      forall name | name in IdsByName(configs, ids)
        ensures exists i :: 0 <= i < |configs| && configs[i].name == name
      {
        if name != configs[last].name {
          var i :| 0 <= i < last && configs[..last][i].name == name;
          assert configs[i].name == name;
        }
      }
      forall i {:trigger LastNamed(configs, i)} | 0 <= i < |configs| && LastNamed(configs, i)
        ensures configs[i].name in IdsByName(configs, ids) && IdsByName(configs, ids)[configs[i].name] == ids[i]
      {
        if i < last {
          LastInFront(configs, i);
        }
      }
    }
  }

  lemma LastInFront(configs: seq<Config>, i: nat)
    requires i < |configs| - 1 && LastNamed(configs, i)
    ensures LastNamed(configs[..|configs| - 1], i) && configs[|configs| - 1].name != configs[i].name
  {
    var front := configs[..|configs| - 1];
    forall j {:trigger front[j]} | i < j < |front|
      ensures front[j].name != front[i].name
    {
      assert front[j] == configs[j];
    }
  }

  // ---------------------------------------------------------------- applying the same spec again

  /** Applying the same spec a second time changes nothing at all, not even a timestamp. */
  lemma SecondRunChangesNothing(before: Rows, between: Rows, after: Rows, first: Run, second: Run)
    requires Valid(before) && Took(before, between, first) && Took(between, after, second)
    requires first.canary == second.canary && first.configs == second.configs
    requires (forall i :: !first.fails(i)) && (forall i :: !second.fails(i)) && !first.deleteFails
    ensures after == between
  {
    SameIdsAgain(before, between, after, first, second);
    NothingLeftToRemove(before, between, first, second);
    SameRowsAgain(before, between, after, first, second);
    NothingCleaned(second.upserted, second.removed, second.now);
  }

  lemma NothingCleaned(rows: Rows, ids: seq<Uuid>, now: int)
    requires forall id :: id !in ids
    ensures Cleaned(rows, ids, now) == rows
  {
  }

  lemma SameIdsAgain(before: Rows, between: Rows, after: Rows, first: Run, second: Run)
    requires Valid(before) && Took(before, between, first) && Took(between, after, second)
    requires first.canary == second.canary && first.configs == second.configs
    requires (forall i :: !first.fails(i)) && (forall i :: !second.fails(i))
    ensures first.ids == second.ids
  {
    forall i | 0 <= i < |first.configs|
      ensures first.ids[i] == second.ids[i]
    {
      SameIdAgain(before, between, after, first, second, i);
    }
  }

  lemma SameRowsAgain(before: Rows, between: Rows, after: Rows, first: Run, second: Run)
    requires Valid(before) && Took(before, between, first) && Took(between, after, second)
    requires first.canary == second.canary && first.configs == second.configs && first.ids == second.ids
    requires (forall i :: !first.fails(i)) && (forall i :: !second.fails(i))
    ensures second.upserted == between
  {
    forall id | id in second.upserted
      ensures id in between && second.upserted[id] == between[id]
    {
      if id in second.ids {
        var i :| 0 <= i < |second.ids| && second.ids[i] == id;
        SameRowAgain(before, between, after, first, second, i);
      }
    }
  }

  lemma SameIdAgain(before: Rows, between: Rows, after: Rows, first: Run, second: Run, i: nat)
    requires Valid(before) && Took(before, between, first) && Took(between, after, second)
    requires first.canary == second.canary && first.configs == second.configs && i < |first.configs|
    requires !first.fails(i) && !second.fails(i)
    ensures first.ids[i] == second.ids[i] && first.ids[i] in between && between[first.ids[i]].deletedAt.None?
  {
    assert HasRow(first.upserted, first.canary, first.configs[i], false, first.ids[i]);
    assert HasRow(second.upserted, second.canary, second.configs[i], false, second.ids[i]);
    assert first.ids[i] !in first.removed;
    assert SameIdentity(between[first.ids[i]], second.upserted[first.ids[i]]);
  }

  /** All plain rows have just been given a check. */
  lemma NothingLeftToRemove(before: Rows, between: Rows, first: Run, second: Run)
    requires Took(before, between, first) && !first.deleteFails && first.ids == second.ids
    requires first.canary == second.canary
    requires forall id :: id in second.removed <==>
      id in between && IsPlain(between[id], second.canary) && id !in second.ids
    ensures forall id :: id !in second.removed
  {
  }

  /** A row that got a check reads, after either run, as the last check under its key. */
  lemma SameRowAgain(before: Rows, between: Rows, after: Rows, first: Run, second: Run, i: nat)
    requires Valid(before) && Took(before, between, first) && Took(between, after, second)
    requires first.canary == second.canary && first.configs == second.configs && first.ids == second.ids
    requires i < |first.configs|
    requires (forall k :: !first.fails(k)) && (forall k :: !second.fails(k))
    ensures first.ids[i] in between && second.upserted[first.ids[i]] == between[first.ids[i]]
  {
    var last := LastUnderKey(first.configs, first.canary, first.fails, i);
    SameIdAgain(before, between, after, first, second, i);
    assert HasRow(first.upserted, first.canary, first.configs[i], false, first.ids[i]);
    assert HasRow(first.upserted, first.canary, first.configs[last], false, first.ids[last]);
    assert HasRow(second.upserted, second.canary, second.configs[i], false, second.ids[i]);
    assert first.ids[last] == first.ids[i] && first.ids[i] !in first.removed;
    assert IsLast(second.configs, second.canary, second.fails, last);
    assert Describes(first.upserted, first.ids[last], first.configs[last]);
    assert Describes(second.upserted, second.ids[last], second.configs[last]);
    assert SameIdentity(between[first.ids[i]], second.upserted[first.ids[i]]);
  }

  lemma {:induction false} LastUnderKey(configs: seq<Config>, canary: Uuid, fails: nat -> bool, i: nat)
    returns (last: nat)
    requires i < |configs| && !fails(i)
    ensures IsLast(configs, canary, fails, last) && KeyOf(canary, configs[last]) == KeyOf(canary, configs[i])
    decreases |configs| - i
  {
    if j :| i < j < |configs| && !fails(j) && KeyOf(canary, configs[j]) == KeyOf(canary, configs[i]) {
      last := LastUnderKey(configs, canary, fails, j);
    } else {
      last := i;
    }
  }

  // ---------------------------------------------------------------- over any history

  /** A sequence of tables, each made from the one before by applying some canary's spec, whatever failed. */
  ghost predicate IsHistory(tables: seq<Rows>, runs: seq<Run>) {
    && |tables| == |runs| + 1
    && Valid(tables[0])
    && forall k {:trigger runs[k]} :: 0 <= k < |runs| ==> Took(tables[k], tables[k + 1], runs[k])
  }

  /** Over any history, a key never moves to another id, and an id never to another key. */
  lemma IdsAreForever(tables: seq<Rows>, runs: seq<Run>, i: nat, j: nat, id: Uuid)
    requires IsHistory(tables, runs) && i <= j < |tables| && id in tables[i]
    ensures id in tables[j] && tables[j][id].key == tables[i][id].key
    ensures forall other :: other in tables[j] && tables[j][other].key == tables[i][id].key ==> other == id
  {
    RowStays(tables, runs, i, j, id);
    ValidThroughout(tables, runs, j);
  }

  lemma {:induction false} RowStays(tables: seq<Rows>, runs: seq<Run>, i: nat, j: nat, id: Uuid)
    requires IsHistory(tables, runs) && i <= j < |tables| && id in tables[i]
    ensures id in tables[j] && tables[j][id].key == tables[i][id].key
  {
    if i < j {
      RowStays(tables, runs, i, j - 1, id);
      LaterRow(tables, runs, j - 1, id);
    }
  }

  lemma LaterRow(tables: seq<Rows>, runs: seq<Run>, k: nat, id: Uuid)
    requires IsHistory(tables, runs) && k < |runs| && id in tables[k]
    ensures id in tables[k + 1] && tables[k + 1][id].key == tables[k][id].key
  {
    RunKeepsRow(tables[k], tables[k + 1], runs[k], id);
  }

  lemma RunKeepsRow(before: Rows, after: Rows, run: Run, id: Uuid)
    requires Took(before, after, run) && id in before
    ensures id in after && after[id].key == before[id].key
  {
    assert SameIdentity(before[id], run.upserted[id]);
  }

  lemma ValidThroughout(tables: seq<Rows>, runs: seq<Run>, j: nat)
    requires IsHistory(tables, runs) && j < |tables|
    ensures Valid(tables[j])
  {
    if j > 0 {
      RunKeepsValid(tables[j - 1], tables[j], runs[j - 1]);
    }
  }
}
