/**
 The index in which parent lookups are resolved: external ids, and keys made of name, type and namespace.
 */
module ParentReferences {
  import opened Common
  import opened Components
  import opened Walks

  type ParentRefs = map<string, Component>

  function GenParentKey(name: string, kind: string, namespace: string): string {
    "parent.key/" + name + "/" + kind + "/" + namespace
  }

  /** The external id decides when there is one; otherwise name, type and namespace together. */
  function LookupKey(lookup: ParentLookup): string {
    if lookup.externalId != "" then lookup.externalId else GenParentKey(lookup.name, lookup.kind, lookup.namespace)
  }

  function LookupParent(refs: ParentRefs, lookup: ParentLookup): Option<Component> {
    var key := LookupKey(lookup);
    if key in refs then Some(refs[key]) else None
  }

  /** The component is entered under the key, by its name or by its external id. */
  predicate AnswersTo(c: Component, key: string) {
    key == GenParentKey(c.name, c.kind, c.namespace) || (c.externalId != "" && key == c.externalId)
  }

  /** Of the listed components that answer to the key, the last. */
  ghost function LastNamed(order: seq<Component>, key: string): Option<Component> {
    if order == [] then None
    else if AnswersTo(order[|order| - 1], key) then Some(order[|order| - 1])
    else LastNamed(order[..|order| - 1], key)
  }

  ghost predicate IsLast(order: seq<Component>, key: string, i: nat)
    requires i < |order|
  {
    AnswersTo(order[i], key) && forall j :: i < j < |order| ==> !AnswersTo(order[j], key)
  }

  lemma {:induction false} LastNamedIs(order: seq<Component>, key: string)
    ensures LastNamed(order, key).None? <==> forall i :: 0 <= i < |order| ==> !AnswersTo(order[i], key)
    ensures LastNamed(order, key).Some? ==>
      exists i | 0 <= i < |order| :: order[i] == LastNamed(order, key).value && IsLast(order, key, i)
  {
    if order != [] {
      var k := |order| - 1;
      LastNamedIs(order[..k], key);
      assert forall i :: 0 <= i < k ==> order[..k][i] == order[i];
      if AnswersTo(order[k], key) {
        assert IsLast(order, key, k);
      } else if LastNamed(order[..k], key).Some? {
        var i :| 0 <= i < k && order[i] == LastNamed(order[..k], key).value && IsLast(order[..k], key, i);
        assert IsLast(order, key, i);
      }
    }
  }

  lemma {:induction false} LastNamedJoins(a: seq<Component>, b: seq<Component>, key: string)
    ensures LastNamed(a + b, key) == if LastNamed(b, key).Some? then LastNamed(b, key) else LastNamed(a, key)
  {
    if b == [] {
      assert a + b == a;
    } else {
      var k := |b| - 1;
      assert (a + b)[..|a + b| - 1] == a + b[..k];
      LastNamedJoins(a, b[..k], key);
    }
  }

  /** The index after the listed components were entered into it one after the other. */
  ghost predicate Entered(refs: ParentRefs, refs': ParentRefs, order: seq<Component>) {
    forall key :: Entry(refs', key) == if LastNamed(order, key).Some? then LastNamed(order, key) else Entry(refs, key)
  }

  ghost function Entry(refs: ParentRefs, key: string): Option<Component> {
    if key in refs then Some(refs[key]) else None
  }

  lemma EnteredJoins(refs: ParentRefs, refs1: ParentRefs, refs2: ParentRefs, a: seq<Component>, b: seq<Component>)
    requires Entered(refs, refs1, a) && Entered(refs1, refs2, b)
    ensures Entered(refs, refs2, a + b)
  {
    forall key
      ensures Entry(refs2, key) == if LastNamed(a + b, key).Some? then LastNamed(a + b, key) else Entry(refs, key)
    {
      LastNamedJoins(a, b, key);
    }
  }

  /** A component and everything below it is entered, in the order of the listing of its tree. */
  method PopulateParentRefMap(c: Component, refs: ParentRefs, ghost u: set<Component>, ghost rank: map<Component, nat>)
    returns (refs': ParentRefs)
    requires Ranked(u, rank) && c in u
    ensures Entered(refs, refs', TreeOrder(c, u, rank))
    decreases rank[c]
  {
    refs' := refs[GenParentKey(c.name, c.kind, c.namespace) := c];
    if c.externalId != "" {
      refs' := refs'[c.externalId := c];
    }
    ghost var order := [c];
    assert Entered(refs, refs', order) by {
      assert order[..0] == [];
    }
    var list := c.components;
    for i := 0 to |list|
      invariant order == [c] + Preorder(list[..i], u, rank, rank[c])
      invariant Entered(refs, refs', order)
    {
      PreorderSnoc(list, i, u, rank, rank[c]);
      var before := refs';
      refs' := PopulateParentRefMap(list[i], refs', u, rank);
      EnteredJoins(refs, before, refs', order, TreeOrder(list[i], u, rank));
      order := order + TreeOrder(list[i], u, rank);
    }
    assert list[..|list|] == list;
  }

  /** In the index of one listing a lookup finds the last component listed that answers to its key. */
  lemma LookupFindsLast(refs: ParentRefs, order: seq<Component>, lookup: ParentLookup)
    requires Entered(map[], refs, order)
    ensures LookupParent(refs, lookup) == LastNamed(order, LookupKey(lookup))
    ensures refs.Values <= ToSet(order)
  {
    assert Entry(map[], LookupKey(lookup)) == None;
    forall key | key in refs
      ensures refs[key] in order
    {
      assert Entry(refs, key) == Some(refs[key]) && Entry(map[], key) == None;
      LastNamedIs(order, key);
    }
  }

  // ---------------------------------------------------------------- what a lookup resolves to, in fields

  lemma FirstPart(a: string, b: string, a': string, b': string)
    requires '/' !in a && '/' !in a' && a + "/" + b == a' + "/" + b'
    ensures a == a' && b == b'
  {
    var whole := a + "/" + b;
    assert whole[|a|] == '/' && whole[|a'|] == '/';
    assert forall i :: 0 <= i < |a| ==> whole[i] == a[i];
    assert forall i :: 0 <= i < |a'| ==> whole[i] == a'[i];
    assert whole[..|a|] == a && whole[..|a'|] == a';
    assert whole[|a| + 1..] == b && whole[|a'| + 1..] == b';
  }

  /** Where neither names nor types have a slash in them, keys tell all three parts apart. */
  lemma KeysTellApart(name: string, kind: string, namespace: string, name': string, kind': string, namespace': string)
    requires '/' !in name && '/' !in name' && '/' !in kind && '/' !in kind'
    ensures GenParentKey(name, kind, namespace) == GenParentKey(name', kind', namespace') <==>
      name == name' && kind == kind' && namespace == namespace'
  {
    var key, key' := GenParentKey(name, kind, namespace), GenParentKey(name', kind', namespace');
    KeyParts(name, kind, namespace);
    KeyParts(name', kind', namespace');
    if key == key' {
      FirstPart(name, kind + "/" + namespace, name', kind' + "/" + namespace');
      FirstPart(kind, namespace, kind', namespace');
    }
  }

  /** A slash in a name or a type can give different components the same key. */
  lemma SlashesBlur(namespace: string)
    ensures GenParentKey("db/primary", "Pod", namespace) == GenParentKey("db", "primary/Pod", namespace)
  {
    assert GenParentKey("db/primary", "Pod", namespace) == "parent.key/db/primary/Pod" + "/" + namespace;
    assert GenParentKey("db", "primary/Pod", namespace) == "parent.key/db/primary/Pod" + "/" + namespace;
  }

  lemma KeyParts(name: string, kind: string, namespace: string)
    ensures var key := GenParentKey(name, kind, namespace);
      |key| >= 11 && key[11..] == name + "/" + (kind + "/" + namespace)
  {
  }

  ghost predicate HasParts(c: Component, lookup: ParentLookup) {
    c.name == lookup.name && c.kind == lookup.kind && c.namespace == lookup.namespace
  }

  /** The target is the last listed component with the lookup's name, type and namespace, if there is one. */
  ghost predicate LastWithParts(order: seq<Component>, lookup: ParentLookup, target: Option<Component>) {
    match target
    case None => forall c :: c in order ==> !HasParts(c, lookup)
    case Some(t) =>
      exists i :: 0 <= i < |order| && order[i] == t && HasParts(t, lookup)
                  && forall j :: i < j < |order| ==> !HasParts(order[j], lookup)
  }

  /** The target is the last listed component with this external id, if there is one. */
  ghost predicate LastWithId(order: seq<Component>, id: string, target: Option<Component>) {
    match target
    case None => forall c :: c in order ==> c.externalId != id
    case Some(t) =>
      exists i :: 0 <= i < |order| && order[i] == t && t.externalId == id
                  && forall j :: i < j < |order| ==> order[j].externalId != id
  }

  ghost predicate NoSlashes(order: seq<Component>, lookup: ParentLookup) {
    && '/' !in lookup.name && '/' !in lookup.kind
    && forall c :: c in order ==> '/' !in c.name && '/' !in c.kind
  }

  /**
   Without an external id a lookup names the last component with its name, type and namespace, unless slashes blur the
   parts or an external id happens to read like its key. With one it names the last component with that external id,
   unless that reads like the key of a component.
   */
  ghost predicate ResolvesTo(order: seq<Component>, lookup: ParentLookup, target: Option<Component>) {
    && (lookup.externalId == "" && NoSlashes(order, lookup)
        && (forall c :: c in order ==>
             c.externalId != "parent.key/" + lookup.name + "/" + lookup.kind + "/" + lookup.namespace) ==>
          LastWithParts(order, lookup, target))
    && (lookup.externalId != ""
        && (forall c :: c in order ==>
             lookup.externalId != "parent.key/" + c.name + "/" + c.kind + "/" + c.namespace) ==>
          LastWithId(order, lookup.externalId, target))
  }

  lemma PartsAnswer(order: seq<Component>, lookup: ParentLookup, c: Component)
    requires lookup.externalId == "" && NoSlashes(order, lookup) && c in order
    requires c.externalId != GenParentKey(lookup.name, lookup.kind, lookup.namespace)
    ensures AnswersTo(c, LookupKey(lookup)) <==> HasParts(c, lookup)
  {
    KeysTellApart(c.name, c.kind, c.namespace, lookup.name, lookup.kind, lookup.namespace);
  }

  lemma IdAnswers(lookup: ParentLookup, c: Component)
    requires lookup.externalId != "" && lookup.externalId != GenParentKey(c.name, c.kind, c.namespace)
    ensures AnswersTo(c, LookupKey(lookup)) <==> c.externalId == lookup.externalId
  {
  }

  /** What the last answer to a lookup's key is, without the key. */
  lemma LookupInFields(order: seq<Component>, lookup: ParentLookup)
    ensures ResolvesTo(order, lookup, LastNamed(order, LookupKey(lookup)))
  {
    var target := LastNamed(order, LookupKey(lookup));
    LastNamedIs(order, LookupKey(lookup));
    if lookup.externalId == "" && NoSlashes(order, lookup)
       && forall c :: c in order ==> c.externalId != GenParentKey(lookup.name, lookup.kind, lookup.namespace)
    {
      forall c | c in order
        ensures AnswersTo(c, LookupKey(lookup)) <==> HasParts(c, lookup)
      {
        PartsAnswer(order, lookup, c);
      }
      assert LastWithParts(order, lookup, target);
    }
    if lookup.externalId != ""
       && forall c :: c in order ==> lookup.externalId != GenParentKey(c.name, c.kind, c.namespace)
    {
      forall c | c in order
        ensures AnswersTo(c, LookupKey(lookup)) <==> c.externalId == lookup.externalId
      {
        IdAnswers(lookup, c);
      }
      assert LastWithId(order, lookup.externalId, target);
    }
  }
}
