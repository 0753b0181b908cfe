/**
 Canaries with an agent selector: one derived canary per matched agent, reconciled with the canaries table by
 upserting a row for every agent and then deleting the derived rows of all other agents.
 */
module DerivedCanaries {
  import opened Common
  import opened Sequences

  type Uuid = nat

  /** Where a canary comes from; derived canaries carry the id of their parent. */
  datatype Source = AgentSelector(parent: Uuid) | OtherSource(text: string)

  /** The parts of a canary that a sync refreshes. */
  datatype Content = Content(spec: string, labels: string, annotations: string)

  datatype Canary = Canary(
    source: Source, agent: Uuid, name: string, namespace: string, content: Content, deletedAt: Option<int>)

  /** A canary with an agent selector; `content` is what its derived canaries get, the selector left out. */
  datatype Parent = Parent(id: Uuid, name: string, namespace: string, selector: seq<string>, content: Content)

  datatype Agent = Agent(id: Uuid, name: string)

  type Rows = map<Uuid, Canary>

  /** The live rows derived from a parent for an agent. */
  function LiveFor(rows: Rows, source: Source, agent: Uuid): set<Uuid> {
    set id | id in rows && rows[id].source == source && rows[id].agent == agent && rows[id].deletedAt.None?
  }

  function Derive(parent: Parent, agent: Uuid): Canary {
    Canary(AgentSelector(parent.id), agent, parent.name, parent.namespace, parent.content, None)
  }

  // ---------------------------------------------------------------- which agents are meant

  /** The selector's entries that are ids themselves, in order. */
  function ParsedIds(selector: seq<string>, parse: string -> Option<Uuid>): (ids: seq<Uuid>)
    ensures forall id :: id in ids <==> exists s :: s in selector && parse(s) == Some(id)
  {
    if selector == [] then []
    else
      var last := |selector| - 1;
      ParsedIds(selector[..last], parse) + match parse(selector[last]) case Some(id) => [id] case None => []
  }

  /** The ids of the agents whose name the selector matches, in order. */
  function MatchedIds(agents: seq<Agent>, matches: string -> bool): (ids: seq<Uuid>)
    ensures forall id :: id in ids <==> exists a :: a in agents && a.id == id && matches(a.name)
  {
    if agents == [] then []
    else
      var last := |agents| - 1;
      MatchedIds(agents[..last], matches) + if matches(agents[last].name) then [agents[last].id] else []
  }

  /** The agents of a parent, possibly with repetitions. */
  function ValidIds(parent: Parent, agents: seq<Agent>, matches: string -> bool,
                    parse: string -> Option<Uuid>): seq<Uuid>
  {
    ParsedIds(parent.selector, parse) + MatchedIds(agents, matches)
  }

  /**
   Which agents are meant, by position: for each entry of the selector that is an id that id, and after these for each
   agent whose name matches its id.
   */
  ghost predicate AgentsMeant(parent: Parent, agents: seq<Agent>, matches: string -> bool,
                              parse: string -> Option<Uuid>, ids: seq<Uuid>)
  {
    exists given: seq<Uuid>, named: seq<Uuid> ::
      && ids == given + named && Picked(EntryPicks(parent.selector, parse), given)
      && Picked(AgentPicks(agents, matches), named)
  }

  function EntryPicks(selector: seq<string>, parse: string -> Option<Uuid>): (picks: seq<Option<Uuid>>)
    ensures |picks| == |selector| && forall i :: 0 <= i < |selector| ==> picks[i] == parse(selector[i])
  {
    seq(|selector|, i requires 0 <= i < |selector| => parse(selector[i]))
  }

  function AgentPicks(agents: seq<Agent>, matches: string -> bool): (picks: seq<Option<Uuid>>)
    ensures |picks| == |agents|
    ensures forall i :: 0 <= i < |agents| ==> picks[i] == if matches(agents[i].name) then Some(agents[i].id) else None
  {
    seq(|agents|, i requires 0 <= i < |agents| => if matches(agents[i].name) then Some(agents[i].id) else None)
  }

  lemma {:induction false} ParsedPicked(selector: seq<string>, parse: string -> Option<Uuid>)
    ensures Picked(EntryPicks(selector, parse), ParsedIds(selector, parse))
  {
    if selector == [] {
      assert EntryPicks(selector, parse) == [];
      NothingPicked<Uuid>();
    } else {
      var last := |selector| - 1;
      ParsedPicked(selector[..last], parse);
      OneMorePicked(EntryPicks(selector[..last], parse), ParsedIds(selector[..last], parse), parse(selector[last]));
      assert EntryPicks(selector, parse) == EntryPicks(selector[..last], parse) + [parse(selector[last])];
    }
  }

  lemma {:induction false} MatchedPicked(agents: seq<Agent>, matches: string -> bool)
    ensures Picked(AgentPicks(agents, matches), MatchedIds(agents, matches))
  {
    if agents == [] {
      assert AgentPicks(agents, matches) == [];
      NothingPicked<Uuid>();
    } else {
      var last := |agents| - 1;
      var pick := if matches(agents[last].name) then Some(agents[last].id) else None;
      MatchedPicked(agents[..last], matches);
      OneMorePicked(AgentPicks(agents[..last], matches), MatchedIds(agents[..last], matches), pick);
      assert AgentPicks(agents, matches) == AgentPicks(agents[..last], matches) + [pick];
    }
  }

  lemma {:induction false} ValidIdsMeant(parent: Parent, agents: seq<Agent>, matches: string -> bool,
                                         parse: string -> Option<Uuid>)
    ensures AgentsMeant(parent, agents, matches, parse, ValidIds(parent, agents, matches, parse))
  {
    ParsedPicked(parent.selector, parse);
    MatchedPicked(agents, matches);
  }

  // ---------------------------------------------------------------- what upserting means

  /** Two versions of a row that differ in content only. */
  ghost predicate SameButContent(a: Canary, b: Canary) {
    b == a.(content := b.content)
  }

  /** One upsert: the live row of the agent is refreshed, or a new one is made if there is none. */
  ghost predicate Upserted(before: Rows, after: Rows, parent: Parent, agent: Uuid, id: Uuid) {
    var source := AgentSelector(parent.id);
    if LiveFor(before, source, agent) != {} then
      id in LiveFor(before, source, agent) && after == before[id := before[id].(content := parent.content)]
    else
      id !in before && after == before[id := Derive(parent, agent)]
  }

  /**
   The row is live, derived from the parent for the agent and has the parent's content. A row that was there keeps all
   else and was live; a new one has the parent's name and namespace, and there was no live one. No other row changes.
   */
  ghost predicate UpsertedFields(before: Rows, after: Rows, parent: Parent, agent: Uuid, id: Uuid) {
    && id in after && after.Keys == before.Keys + {id}
    && after[id].source == AgentSelector(parent.id) && after[id].agent == agent && after[id].deletedAt.None?
    && after[id].content == parent.content
    && (if id in before then after[id] == before[id].(content := parent.content)
        else
          && after[id].name == parent.name && after[id].namespace == parent.namespace
          && forall other ::
            other in before && before[other].source == AgentSelector(parent.id) && before[other].agent == agent ==>
              before[other].deletedAt.Some?)
    && (forall other :: other in before && other != id ==> after[other] == before[other])
  }

  /** Rows keep all but their content, and rows that were not chosen keep that too; new rows are derived ones. */
  ghost predicate CarriesOver(before: Rows, after: Rows, parent: Parent, chosen: seq<Uuid>) {
    && (forall id :: id in before ==> id in after && SameButContent(before[id], after[id]))
    && (forall id :: id in before && id !in chosen ==> after[id] == before[id])
    && (forall id :: id in after && id !in before ==> id in chosen && after[id] == Derive(parent, after[id].agent))
  }

  /** Every agent has its chosen row, live and with the parent's content. */
  ghost predicate ChosenRows(after: Rows, parent: Parent, agents: seq<Uuid>, chosen: seq<Uuid>) {
    && |chosen| == |agents|
    && forall i :: 0 <= i < |agents| ==>
      chosen[i] in LiveFor(after, AgentSelector(parent.id), agents[i]) && after[chosen[i]].content == parent.content
  }

  ghost predicate LiveRight(before: Rows, after: Rows, source: Source, agents: seq<Uuid>, a: Uuid) {
    if LiveFor(before, source, a) != {} then LiveFor(after, source, a) == LiveFor(before, source, a)
    else |LiveFor(after, source, a)| == if a in agents then 1 else 0
  }

  /** An agent that had live rows keeps exactly those; one that had none has one now if it was upserted. */
  ghost predicate LiveRowsRight(before: Rows, after: Rows, source: Source, agents: seq<Uuid>) {
    forall a :: LiveRight(before, after, source, agents, a)
  }

  ghost predicate AllUpserted(before: Rows, after: Rows, parent: Parent, agents: seq<Uuid>, chosen: seq<Uuid>) {
    && CarriesOver(before, after, parent, chosen)
    && ChosenRows(after, parent, agents, chosen)
    && LiveRowsRight(before, after, AgentSelector(parent.id), agents)
  }

  lemma UpsertedLive(before: Rows, after: Rows, parent: Parent, agent: Uuid, id: Uuid, a: Uuid)
    requires Upserted(before, after, parent, agent, id)
    ensures var source := AgentSelector(parent.id);
      LiveFor(after, source, a) == LiveFor(before, source, a) + if a == agent then {id} else {}
  {
  }

  lemma UpsertNext(start: Rows, before: Rows, after: Rows, parent: Parent, agents: seq<Uuid>, chosen: seq<Uuid>,
                   agent: Uuid, id: Uuid)
    requires AllUpserted(start, before, parent, agents, chosen)
    requires Upserted(before, after, parent, agent, id)
    ensures AllUpserted(start, after, parent, agents + [agent], chosen + [id])
  {
    var source := AgentSelector(parent.id);
    ChosenNext(before, after, parent, agents, chosen, agent, id);
    CarryNext(start, before, after, parent, chosen, agent, id);
    forall a
      ensures LiveRight(start, after, source, agents + [agent], a)
    {
      LiveNext(start, before, after, parent, agents, agent, id, a);
    }
  }

  lemma LiveNext(start: Rows, before: Rows, after: Rows, parent: Parent, agents: seq<Uuid>, agent: Uuid, id: Uuid,
                 a: Uuid)
    requires LiveRight(start, before, AgentSelector(parent.id), agents, a)
    requires Upserted(before, after, parent, agent, id)
    ensures LiveRight(start, after, AgentSelector(parent.id), agents + [agent], a)
  {
    var source := AgentSelector(parent.id);
    UpsertedLive(before, after, parent, agent, id, a);
    if a == agent && LiveFor(before, source, a) != {} {
      assert LiveFor(after, source, a) == LiveFor(before, source, a);
    }
  }

  lemma CarryNext(start: Rows, before: Rows, after: Rows, parent: Parent, chosen: seq<Uuid>, agent: Uuid, id: Uuid)
    requires CarriesOver(start, before, parent, chosen) && Upserted(before, after, parent, agent, id)
    ensures CarriesOver(start, after, parent, chosen + [id])
  {
  }

  lemma ChosenNext(before: Rows, after: Rows, parent: Parent, agents: seq<Uuid>, chosen: seq<Uuid>,
                   agent: Uuid, id: Uuid)
    requires ChosenRows(before, parent, agents, chosen)
    requires Upserted(before, after, parent, agent, id)
    ensures ChosenRows(after, parent, agents + [agent], chosen + [id])
  {
  }

  /** The rows after deleting the live derived rows of all agents but those to keep. */
  function Pruned(rows: Rows, source: Source, keep: seq<Uuid>, now: int): Rows {
    map id | id in rows ::
      if rows[id].source == source && rows[id].deletedAt.None? && rows[id].agent !in keep
        then rows[id].(deletedAt := Some(now))
      else rows[id]
  }

  /** Exactly the live rows of the source whose agent is not to be kept are marked as deleted now. */
  ghost predicate PrunedFields(before: Rows, after: Rows, source: Source, keep: seq<Uuid>, now: int) {
    && after.Keys == before.Keys
    && forall id :: id in before ==>
      if before[id].source == source && before[id].deletedAt == None && before[id].agent !in keep
        then after[id] == before[id].(deletedAt := Some(now))
      else after[id] == before[id]
  }

  // ---------------------------------------------------------------- the table

  class CanaryTable {
    var rows: Rows

    constructor ()
      ensures rows == map[]
    {
      rows := map[];
    }

    /** The database's generated ids are arbitrary ones not in use. */
    method FreshId() returns (id: Uuid)
      ensures id !in rows
    {
      ghost var unused := UnusedExists(rows.Keys);
      id :| id !in rows;
    }

    method UpsertDerivedCanary(parent: Parent, agent: Uuid, fails: bool) returns (ok: bool, ghost id: Uuid)
      modifies this
      ensures ok == !fails
      ensures !ok ==> rows == old(rows)
      ensures ok ==> Upserted(old(rows), rows, parent, agent, id) && UpsertedFields(old(rows), rows, parent, agent, id)
    {
      id := 0;
      if fails {
        return false, id;
      }
      var source := AgentSelector(parent.id);
      if existing :| existing in LiveFor(rows, source, agent) {
        rows := rows[existing := rows[existing].(content := parent.content)];
        id := existing;
      } else {
        var freshId := FreshId();
        rows := rows[freshId := Derive(parent, agent)];
        id := freshId;
      }
      ok := true;
    }

    /** With nothing to keep, the query has no agent clause and covers every derived row of the source. */
    method DeleteDerivedCanariesNotInList(source: Source, keep: seq<Uuid>, now: int, fails: bool) returns (ok: bool)
      modifies this
      ensures ok == !fails
      ensures rows == if ok then Pruned(old(rows), source, keep, now) else old(rows)
      ensures ok ==> PrunedFields(old(rows), rows, source, keep, now)
    {
      if fails {
        return false;
      }
      if |keep| > 0 {
        rows := map id | id in rows ::
          if rows[id].source == source && rows[id].deletedAt.None? && rows[id].agent !in keep
            then rows[id].(deletedAt := Some(now))
          else rows[id];
      } else {
        rows := map id | id in rows ::
          if rows[id].source == source && rows[id].deletedAt.None? then rows[id].(deletedAt := Some(now)) else rows[id];
      }
      ok := true;
    }

    /**
     One sync of a parent. On success every valid agent has been upserted and the rest pruned; on failure nothing
     has been deleted. A parent without a selector is left alone, and so are its derived rows.
     */
    method SyncAgentSelectorCanary(parent: Parent, agents: Option<seq<Agent>>, matches: string -> bool,
                                   parse: string -> Option<Uuid>, now: int, upsertFails: nat -> bool, deleteFails: bool)
      returns (ok: bool, ghost valid: seq<Uuid>, ghost chosen: seq<Uuid>, ghost upserted: Rows)
      modifies this
      ensures parent.selector == [] ==> ok && rows == old(rows)
      ensures parent.selector != [] && agents.None? ==> !ok && rows == old(rows)
      ensures parent.selector != [] && agents.Some? ==>
        && valid <= ValidIds(parent, agents.value, matches, parse)
        && AllUpserted(old(rows), upserted, parent, valid, chosen)
        && (!ok ==> rows == upserted)
        && (ok ==> rows == Pruned(upserted, AgentSelector(parent.id), valid, now))
      ensures ok <==>
        || parent.selector == []
        || (agents.Some? && !deleteFails && valid == ValidIds(parent, agents.value, matches, parse))
      ensures (forall k :: !upsertFails(k)) && parent.selector != [] && agents.Some?
        ==> valid == ValidIds(parent, agents.value, matches, parse)
      ensures ok && parent.selector != [] ==>
        && agents.Some? && AgentsMeant(parent, agents.value, matches, parse, valid)
        && PrunedFields(upserted, rows, AgentSelector(parent.id), valid, now)
    {
      valid, chosen, upserted := [], [], rows;
      if |parent.selector| == 0 {
        return true, valid, chosen, upserted;
      }
      if agents.None? {
        return false, valid, chosen, upserted;
      }
      var validIds := ValidAgentIds(parent, agents.value, matches, parse);
      ok, valid, chosen := UpsertAll(parent, validIds, upsertFails);
      upserted := rows;
      if ok {
        ok := DeleteDerivedCanariesNotInList(AgentSelector(parent.id), validIds, now, deleteFails);
      }
    }

    /** Upserts one agent after the other, up to the first failure. */
    method UpsertAll(parent: Parent, agents: seq<Uuid>, fails: nat -> bool)
      returns (ok: bool, ghost done: seq<Uuid>, ghost chosen: seq<Uuid>)
      modifies this
      ensures ok <==> forall k :: 0 <= k < |agents| ==> !fails(k)
      ensures done <= agents && (ok <==> done == agents)
      ensures AllUpserted(old(rows), rows, parent, done, chosen)
    {
      ok, done, chosen := true, [], [];
      for i := 0 to |agents|
        invariant ok && done == agents[..i]
        invariant AllUpserted(old(rows), rows, parent, done, chosen)
        invariant forall k :: 0 <= k < i ==> !fails(k)
      {
        ghost var before := rows;
        ghost var id;
        ok, id := UpsertDerivedCanary(parent, agents[i], fails(i));
        if !ok {
          return;
        }
        UpsertNext(old(rows), before, rows, parent, done, chosen, agents[i], id);
        done, chosen := done + [agents[i]], chosen + [id];
      }
    }
  }

  method ValidAgentIds(parent: Parent, agents: seq<Agent>, matches: string -> bool, parse: string -> Option<Uuid>)
    returns (ids: seq<Uuid>)
    ensures ids == ValidIds(parent, agents, matches, parse) && AgentsMeant(parent, agents, matches, parse, ids)
  {
    var selector := parent.selector;
    ids := [];
    for i := 0 to |selector|
      invariant ids == ParsedIds(selector[..i], parse)
    {
      assert selector[..i + 1][..i] == selector[..i];
      var id := parse(selector[i]);
      if id.Some? {
        ids := ids + [id.value];
      }
    }
    assert selector[..|selector|] == selector;
    for i := 0 to |agents|
      invariant ids == ParsedIds(selector, parse) + MatchedIds(agents[..i], matches)
    {
      assert agents[..i + 1][..i] == agents[..i];
      if matches(agents[i].name) {
        ids := ids + [agents[i].id];
      }
    }
    assert agents[..|agents|] == agents;
    ValidIdsMeant(parent, agents, matches, parse);
  }

  // ---------------------------------------------------------------- what a successful sync achieves

  /** A successful sync: the agents upserted, the rows they got, and the rows before pruning. */
  datatype Sync = Sync(parent: Parent, agents: seq<Uuid>, chosen: seq<Uuid>, upserted: Rows, now: int)

  ghost predicate Took(before: Rows, after: Rows, sync: Sync) {
    && AllUpserted(before, sync.upserted, sync.parent, sync.agents, sync.chosen)
    && after == Pruned(sync.upserted, AgentSelector(sync.parent.id), sync.agents, sync.now)
  }

  lemma PrunedLive(rows: Rows, source: Source, keep: seq<Uuid>, now: int, a: Uuid)
    ensures LiveFor(Pruned(rows, source, keep, now), source, a) == if a in keep then LiveFor(rows, source, a) else {}
  {
  }

  /**
   Whatever was there before, an agent that is not meant has no live row left, and one that is meant has one at least.
   */
  lemma LiveExactly(before: Rows, after: Rows, sync: Sync, a: Uuid)
    requires Took(before, after, sync)
    ensures var source := AgentSelector(sync.parent.id);
      && (a !in sync.agents ==> LiveFor(after, source, a) == {})
      && (a in sync.agents && LiveFor(before, source, a) == {} ==> |LiveFor(after, source, a)| == 1)
      && (a in sync.agents && LiveFor(before, source, a) != {} ==>
           LiveFor(after, source, a) == LiveFor(before, source, a))
  {
    var source := AgentSelector(sync.parent.id);
    PrunedLive(sync.upserted, source, sync.agents, sync.now, a);
    assert LiveRight(before, sync.upserted, source, sync.agents, a);
  }

  ghost predicate AtMostOneEach(rows: Rows, source: Source, agents: seq<Uuid>) {
    forall a :: a in agents ==> |LiveFor(rows, source, a)| <= 1
  }

  ghost predicate ExactlyOneEach(rows: Rows, source: Source, agents: seq<Uuid>) {
    && (forall a :: a in agents ==> |LiveFor(rows, source, a)| == 1)
    && (forall a :: a !in agents ==> LiveFor(rows, source, a) == {})
  }

  /**
   A successful sync leaves exactly one live row for every agent meant and none for any other, however often an
   agent is listed, exactly when the table did not already hold several for one of them.
   */
  lemma OneLiveRowPerAgent(before: Rows, after: Rows, sync: Sync)
    requires Took(before, after, sync)
    ensures var source := AgentSelector(sync.parent.id);
      ExactlyOneEach(after, source, sync.agents) <==> AtMostOneEach(before, source, sync.agents)
  {
    var source := AgentSelector(sync.parent.id);
    forall a
      ensures a !in sync.agents ==> LiveFor(after, source, a) == {}
      ensures a in sync.agents ==> (|LiveFor(after, source, a)| == 1 <==> |LiveFor(before, source, a)| <= 1)
    {
      LiveExactly(before, after, sync, a);
      if LiveFor(before, source, a) != {} {
        assert |LiveFor(before, source, a)| >= 1;
      }
    }
  }

  /** Rows of other sources are not touched, and none are added. */
  lemma OtherSourcesUntouched(before: Rows, after: Rows, sync: Sync, id: Uuid)
    requires Took(before, after, sync)
    ensures id in before && before[id].source != AgentSelector(sync.parent.id) ==>
      id in after && after[id] == before[id]
    ensures id in after && after[id].source != AgentSelector(sync.parent.id) ==> id in before && after[id] == before[id]
  {
  }

  /** Every live derived row has the parent's content, unless there were several for its agent. */
  lemma LiveRowsAreCurrent(before: Rows, after: Rows, sync: Sync, a: Uuid, id: Uuid)
    requires Took(before, after, sync)
    requires AtMostOneEach(before, AgentSelector(sync.parent.id), sync.agents)
    requires id in LiveFor(after, AgentSelector(sync.parent.id), a)
    ensures id in sync.chosen && after[id] == sync.upserted[id] && after[id].content == sync.parent.content
  {
    var source := AgentSelector(sync.parent.id);
    LiveExactly(before, after, sync, a);
    PrunedLive(sync.upserted, source, sync.agents, sync.now, a);
    var i :| 0 <= i < |sync.agents| && sync.agents[i] == a;
    assert sync.chosen[i] in LiveFor(sync.upserted, source, a);
    OneLiveRowPerAgent(before, after, sync);
    OnlyMember(LiveFor(after, source, a), sync.chosen[i], id);
  }

  lemma OnlyMember<T>(s: set<T>, a: T, b: T)
    requires |s| == 1 && a in s && b in s
    ensures a == b
  {
    assert |s - {a}| == 0;
  }

  /** Syncing again for the same agents changes nothing at all. */
  lemma SecondSyncChangesNothing(before: Rows, between: Rows, after: Rows, first: Sync, second: Sync)
    requires Took(before, between, first) && Took(between, after, second)
    requires first.parent == second.parent && first.agents == second.agents
    requires AtMostOneEach(before, AgentSelector(first.parent.id), first.agents)
    ensures after == between
  {
    OneLiveRowPerAgent(before, between, first);
    UpsertsChangeNothing(before, between, after, first, second);
    PrunesNothing(before, between, first, second.now);
  }

  lemma UpsertsChangeNothing(before: Rows, between: Rows, after: Rows, first: Sync, second: Sync)
    requires Took(before, between, first) && Took(between, after, second)
    requires first.parent == second.parent && first.agents == second.agents
    requires AtMostOneEach(before, AgentSelector(first.parent.id), first.agents)
    requires ExactlyOneEach(between, AgentSelector(first.parent.id), first.agents)
    ensures second.upserted == between
  {
    forall id | id in second.upserted
      ensures id in between && second.upserted[id] == between[id]
    {
      if id in second.chosen {
        ChosenAgain(before, between, after, first, second, id);
      }
    }
  }

  lemma ChosenAgain(before: Rows, between: Rows, after: Rows, first: Sync, second: Sync, id: Uuid)
    requires Took(before, between, first) && Took(between, after, second)
    requires first.parent == second.parent && first.agents == second.agents && id in second.chosen
    requires AtMostOneEach(before, AgentSelector(first.parent.id), first.agents)
    requires ExactlyOneEach(between, AgentSelector(first.parent.id), first.agents)
    ensures id in between && id in second.upserted && second.upserted[id] == between[id]
  {
    var source := AgentSelector(first.parent.id);
    var i :| 0 <= i < |second.chosen| && second.chosen[i] == id;
    var a := second.agents[i];
    assert id in LiveFor(second.upserted, source, a);
    assert LiveRight(between, second.upserted, source, second.agents, a);
    assert |LiveFor(between, source, a)| == 1;
    LiveRowsAreCurrent(before, between, first, a, id);
    assert SameButContent(between[id], second.upserted[id]);
  }

  lemma PrunesNothing(before: Rows, between: Rows, first: Sync, now: int)
    requires Took(before, between, first)
    ensures Pruned(between, AgentSelector(first.parent.id), first.agents, now) == between
  {
  }
}
