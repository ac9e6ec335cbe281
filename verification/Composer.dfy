/**
 The blueprint composer: entities, executor schemas, rules, actions and monitor hooks of
 several blueprints merged into one, under a conflict strategy.
 */
module Composer {
  import opened OrderedTable

  datatype Strategy = LAST_WINS | FIRST_WINS | MERGE | FAIL

  /** `definition` stands for the attributes of a field, rule, action, hook or schema besides its identifier. */
  datatype Field = Field(name: string, definition: string)

  datatype Entity = Entity(name: string, fields: seq<Field>, primaryKey: string, indexes: seq<string>,
                           constraints: set<string>, description: string)

  datatype Schema = Schema(executor: string, definition: string)

  datatype Rule = Rule(ruleId: string, definition: string)

  datatype Action = Action(templateId: string, definition: string)

  datatype Hook = Hook(monitorId: string, definition: string)

  datatype Blueprint = Blueprint(entities: seq<Entity>, schemas: seq<Schema>, rules: seq<Rule>, actions: seq<Action>,
    hooks: seq<Hook>)

  datatype Result<+T> = Ok(value: T) | Err(conflict: string)

  // ----- the combining operations -----

  function First<V>(a: V, b: V): V {
    a
  }

  function Last<V>(a: V, b: V): V {
    b
  }

  function FieldKey(f: Field): string {
    f.name
  }

  function EntityKey(e: Entity): string {
    e.name
  }

  function SchemaKey(s: Schema): string {
    s.executor
  }

  function RuleKey(r: Rule): string {
    r.ruleId
  }

  function ActionKey(a: Action): string {
    a.templateId
  }

  function HookKey(h: Hook): string {
    h.monitorId
  }

  /**
   The MERGE branch: fields by name with the later one winning, the first primary key, all indexes and
   constraints.
   */
  function MergeEntity(existing: Entity, later: Entity): Entity {
    Entity(existing.name, Fold(FieldKey, Last<Field>, existing.fields + later.fields), existing.primaryKey,
           existing.indexes + later.indexes, existing.constraints + later.constraints,
           if later.description != "" then later.description else existing.description)
  }

  /** How a conflict between two entities is resolved; FAIL never resolves one. */
  function EntityCombine(s: Strategy): (Entity, Entity) -> Entity {
    match s
    case FIRST_WINS => First<Entity>
    case MERGE => MergeEntity
    case LAST_WINS => Last<Entity>
    case FAIL => Last<Entity>
  }

  /** Actions and hooks: every strategy but FIRST_WINS lets the later one win. */
  function PlainCombine<V>(s: Strategy): (V, V) -> V {
    if s == FIRST_WINS then First<V> else Last<V>
  }

  // ----- the loops -----

  /** `dict[key] = value` on a list kept in insertion order; the resolved value for a key that is there already. */
  method Store<V>(table: seq<V>, key: V -> string, combine: (V, V) -> V, v: V) returns (r: seq<V>, met: bool)
    ensures r == Put(table, key, combine, v)
    ensures met <==> IndexOf(table, key, key(v)) < |table|
  {
    var i := 0;
    while i < |table| && key(table[i]) != key(v)
      invariant i <= |table| && forall j | 0 <= j < i :: key(table[j]) != key(v)
    {
      i := i + 1;
    }
    met := i < |table|;
    if met {
      IndexIs(table, key, key(v), i);
      r := table[i := combine(table[i], v)];
    } else {
      r := table + [v];
    }
  }

  method MergeFields(existing: seq<Field>, later: seq<Field>) returns (fields: seq<Field>)
    ensures fields == Fold(FieldKey, Last<Field>, existing + later)
  {
    fields := [];
    var all := existing + later;
    for i := 0 to |all|
      invariant fields == Fold(FieldKey, Last<Field>, all[..i])
    {
      assert all[..i + 1][..i] == all[..i];
      var met;
      fields, met := Store(fields, FieldKey, Last<Field>, all[i]);
    }
    assert all[..|all|] == all;
  }

  lemma FoldNext<V>(key: V -> string, combine: (V, V) -> V, before: seq<V>, v: V)
    ensures Fold(key, combine, before + [v]) == Put(Fold(key, combine, before), key, combine, v)
    ensures var t := Fold(key, combine, before);
            Conflicts(key, combine, before + [v]) == Conflicts(key, combine, before)
              + if IndexOf(t, key, key(v)) < |t| then 1 else 0
  {
    assert (before + [v])[..|before|] == before;
  }

  lemma FlatNext<V>(lists: seq<seq<V>>, b: nat)
    requires b < |lists|
    ensures Flat(lists[..b + 1]) == Flat(lists[..b]) + lists[b]
  {
    assert lists[..b + 1][..b] == lists[..b];
  }

  /** The inner loop: one blueprint's items into the table, counting the keys met again. */
  method Absorb<V>(key: V -> string, combine: (V, V) -> V, items: seq<V>, table0: seq<V>, conflicts0: nat,
                   ghost before: seq<V>)
    returns (table: seq<V>, conflicts: nat)
    requires table0 == Fold(key, combine, before) && conflicts0 == Conflicts(key, combine, before)
    ensures table == Fold(key, combine, before + items) && conflicts == Conflicts(key, combine, before + items)
  {
    hide Fold, Conflicts, Put, IndexOf;
    table, conflicts := table0, conflicts0;
    assert before + items[..0] == before;
    for i := 0 to |items|
      invariant table == Fold(key, combine, before + items[..i])
      invariant conflicts == Conflicts(key, combine, before + items[..i])
    {
      FoldNext(key, combine, before + items[..i], items[i]);
      assert before + items[..i] + [items[i]] == before + items[..i + 1];
      var met;
      table, met := Store(table, key, combine, items[i]);
      if met {
        conflicts := conflicts + 1;
      }
    }
    assert items[..|items|] == items;
  }

  /** The shared double loop of executor schemas, actions and hooks. */
  method Collect<V>(key: V -> string, combine: (V, V) -> V, lists: seq<seq<V>>) returns (table: seq<V>, conflicts: nat)
    ensures table == Fold(key, combine, Flat(lists))
    ensures conflicts == Conflicts(key, combine, Flat(lists))
  {
    table, conflicts := [], 0;
    for b := 0 to |lists|
      invariant table == Fold(key, combine, Flat(lists[..b]))
      invariant conflicts == Conflicts(key, combine, Flat(lists[..b]))
    {
      FlatNext(lists, b);
      table, conflicts := Absorb(key, combine, lists[b], table, conflicts, Flat(lists[..b]));
    }
    assert lists[..|lists|] == lists;
  }

  /** The inner loop of the rules: appends those whose id was not seen before. */
  method AbsorbRules(items: seq<Rule>, rules0: seq<Rule>, seenIds0: set<string>, ghost before: seq<Rule>)
    returns (rules: seq<Rule>, seenIds: set<string>)
    requires rules0 == Fold(RuleKey, First<Rule>, before) && DistinctKeys(rules0, RuleKey)
             && seenIds0 == KeySet(rules0, RuleKey)
    ensures rules == Fold(RuleKey, First<Rule>, before + items) && DistinctKeys(rules, RuleKey)
            && seenIds == KeySet(rules, RuleKey)
  {
    hide Fold, Conflicts, KeySet, DistinctKeys, Put, IndexOf;
    rules, seenIds := rules0, seenIds0;
    assert before + items[..0] == before;
    for i := 0 to |items|
      invariant rules == Fold(RuleKey, First<Rule>, before + items[..i])
      invariant seenIds == KeySet(rules, RuleKey) && DistinctKeys(rules, RuleKey)
    {
      FoldNext(RuleKey, First<Rule>, before + items[..i], items[i]);
      assert before + items[..i] + [items[i]] == before + items[..i + 1];
      FirstPut(rules, items[i]);
      if items[i].ruleId !in seenIds {
        rules := rules + [items[i]];
        seenIds := seenIds + {items[i].ruleId};
      } else {
        assert seenIds == seenIds + {items[i].ruleId};
      }
    }
    assert items[..|items|] == items;
  }

  method ComposeRules(lists: seq<seq<Rule>>) returns (rules: seq<Rule>)
    ensures rules == Fold(RuleKey, First<Rule>, Flat(lists))
  {
    var seenIds: set<string> := {};
    rules := [];
    for b := 0 to |lists|
      invariant rules == Fold(RuleKey, First<Rule>, Flat(lists[..b]))
      invariant seenIds == KeySet(rules, RuleKey) && DistinctKeys(rules, RuleKey)
    {
      FlatNext(lists, b);
      rules, seenIds := AbsorbRules(lists[b], rules, seenIds, Flat(lists[..b]));
    }
    assert lists[..|lists|] == lists;
  }

  lemma FirstPut(rules: seq<Rule>, r: Rule)
    requires DistinctKeys(rules, RuleKey)
    ensures Put(rules, RuleKey, First<Rule>, r) == if r.ruleId in KeySet(rules, RuleKey) then rules else rules + [r]
    ensures KeySet(Put(rules, RuleKey, First<Rule>, r), RuleKey) == KeySet(rules, RuleKey) + {r.ruleId}
    ensures DistinctKeys(Put(rules, RuleKey, First<Rule>, r), RuleKey)
  {
    PutFacts(rules, RuleKey, First<Rule>, r);
  }

  /** An earlier entity has the same name. */
  ghost predicate Repeats(all: seq<Entity>, i: nat)
    requires i < |all|
  {
    exists j :: 0 <= j < i && all[j].name == all[i].name
  }

  /** The name of the first entity that repeats one. */
  ghost predicate IsFirstConflict(all: seq<Entity>, name: string) {
    exists i :: 0 <= i < |all| && all[i].name == name && Repeats(all, i) && forall j | 0 <= j < i :: !Repeats(all, j)
  }

  ghost predicate DistinctNames(all: seq<Entity>) {
    forall i, j | 0 <= i < j < |all| :: all[i].name != all[j].name
  }

  lemma {:induction false} ConflictFree(s: Strategy, all: seq<Entity>)
    ensures Conflicts(EntityKey, EntityCombine(s), all) == 0 <==> DistinctNames(all)
    ensures DistinctNames(all) ==> Fold(EntityKey, EntityCombine(s), all) == all
  {
    if all != [] {
      var front, last := all[..|all| - 1], all[|all| - 1];
      ConflictFree(s, front);
      assert all == front + [last];
      FoldNext(EntityKey, EntityCombine(s), front, last);
      hide Fold, Conflicts, EntityCombine, IndexOf;
      OneMoreName(front, last);
    }
  }

  lemma OneMoreName(front: seq<Entity>, last: Entity)
    ensures DistinctNames(front + [last])
            <==> DistinctNames(front) && IndexOf(front, EntityKey, EntityKey(last)) == |front|
  {
    var i, all := IndexOf(front, EntityKey, EntityKey(last)), front + [last];
    if i < |front| { assert all[i].name == all[|front|].name; }
    if DistinctNames(all) {
      forall j, k | 0 <= j < k < |front| ensures front[j].name != front[k].name { assert all[j].name != all[k].name; }
    }
  }

  lemma ConflictFound(s: Strategy, front: seq<Entity>, e: Entity, later: seq<Entity>)
    requires Conflicts(EntityKey, EntityCombine(s), front) == 0
    requires var t := Fold(EntityKey, EntityCombine(s), front); IndexOf(t, EntityKey, e.name) < |t|
    ensures IsFirstConflict(front + [e] + later, e.name)
  {
    ConflictFree(s, front);
    hide Fold, Conflicts, IndexOf;
    var all := front + [e];
    assert all[|front|].name == e.name && all[IndexOf(front, EntityKey, e.name)].name == e.name;
    assert Repeats(all, |front|);
    LaterIgnored(all, later, e.name);
  }

  lemma LaterIgnored(all: seq<Entity>, later: seq<Entity>, name: string)
    requires IsFirstConflict(all, name)
    ensures IsFirstConflict(all + later, name)
  {
    var i :| 0 <= i < |all| && all[i].name == name && Repeats(all, i) && forall j | 0 <= j < i :: !Repeats(all, j);
    var j :| 0 <= j < i && all[j].name == all[i].name;
    assert (all + later)[j].name == (all + later)[i].name;
    assert Repeats(all + later, i);
    forall j | 0 <= j < i ensures !Repeats(all + later, j) { assert !Repeats(all, j); }
  }

  /** The inner loop of the entities; under FAIL the first name met again raises. */
  method AbsorbEntities(s: Strategy, items: seq<Entity>, table0: seq<Entity>, conflicts0: nat,
                        ghost before: seq<Entity>)
    returns (r: Result<seq<Entity>>, conflicts: nat)
    requires table0 == Fold(EntityKey, EntityCombine(s), before)
             && conflicts0 == Conflicts(EntityKey, EntityCombine(s), before)
    requires s == FAIL ==> conflicts0 == 0
    ensures r.Err? <==> s == FAIL && Conflicts(EntityKey, EntityCombine(s), before + items) > 0
    ensures r.Err? ==> IsFirstConflict(before + items, r.conflict)
    ensures r.Ok? ==> r.value == Fold(EntityKey, EntityCombine(s), before + items)
    ensures r.Ok? ==> conflicts == Conflicts(EntityKey, EntityCombine(s), before + items)
  {
    hide Fold, Conflicts, Put, IndexOf, EntityCombine;
    var table := table0;
    conflicts := conflicts0;
    assert before + items[..0] == before;
    for i := 0 to |items|
      invariant table == Fold(EntityKey, EntityCombine(s), before + items[..i])
      invariant conflicts == Conflicts(EntityKey, EntityCombine(s), before + items[..i])
      invariant s == FAIL ==> conflicts == 0
    {
      FoldNext(EntityKey, EntityCombine(s), before + items[..i], items[i]);
      assert before + items[..i] + [items[i]] == before + items[..i + 1];
      var met;
      table, met := Store(table, EntityKey, EntityCombine(s), items[i]);
      if met {
        conflicts := conflicts + 1;
        if s == FAIL {
          ConflictsGrow(EntityKey, EntityCombine(s), before + items[..i + 1], items[i + 1..]);
          assert before + items[..i + 1] + items[i + 1..] == before + items;
          ConflictFound(s, before + items[..i], items[i], items[i + 1..]);
          return Err(items[i].name), conflicts;
        }
      }
    }
    assert items[..|items|] == items;
    r := Ok(table);
  }

  method ComposeDbSchema(s: Strategy, lists: seq<seq<Entity>>) returns (r: Result<seq<Entity>>, conflicts: nat)
    ensures r.Err? <==> s == FAIL && Conflicts(EntityKey, EntityCombine(s), Flat(lists)) > 0
    ensures r.Err? ==> IsFirstConflict(Flat(lists), r.conflict)
    ensures r.Ok? ==> r.value == Fold(EntityKey, EntityCombine(s), Flat(lists))
    ensures r.Ok? ==> conflicts == Conflicts(EntityKey, EntityCombine(s), Flat(lists))
  {
    var table: seq<Entity> := [];
    conflicts := 0;
    for b := 0 to |lists|
      invariant table == Fold(EntityKey, EntityCombine(s), Flat(lists[..b]))
      invariant conflicts == Conflicts(EntityKey, EntityCombine(s), Flat(lists[..b]))
      invariant s == FAIL ==> conflicts == 0
    {
      FlatNext(lists, b);
      r, conflicts := AbsorbEntities(s, lists[b], table, conflicts, Flat(lists[..b]));
      if r.Err? {
        FlatSplit(lists, b + 1);
        LaterIgnored(Flat(lists[..b + 1]), Flat(lists[b + 1..]), r.conflict);
        ConflictsGrow(EntityKey, EntityCombine(s), Flat(lists[..b + 1]), Flat(lists[b + 1..]));
        return;
      }
      table := r.value;
    }
    assert lists[..|lists|] == lists;
    r := Ok(table);
  }

  lemma {:induction false} ConflictsGrow<V>(key: V -> string, combine: (V, V) -> V, a: seq<V>, b: seq<V>)
    ensures Conflicts(key, combine, a) <= Conflicts(key, combine, a + b)
  {
    if b == [] {
      assert a + b == a;
    } else {
      ConflictsGrow(key, combine, a, b[..|b| - 1]);
      assert (a + b)[..|a + b| - 1] == a + b[..|b| - 1];
    }
  }

  lemma {:induction false} FlatSplit<V>(lists: seq<seq<V>>, b: nat)
    requires b <= |lists|
    ensures Flat(lists) == Flat(lists[..b]) + Flat(lists[b..])
  {
    if b == |lists| {
      assert lists[..b] == lists;
    } else {
      FlatSplit(lists[..|lists| - 1], b);
      assert lists[..|lists| - 1][..b] == lists[..b];
      assert lists[b..][..|lists| - b - 1] == lists[..|lists| - 1][b..];
    }
  }

  // ----- the composition -----

  datatype Outcome = Nothing | Conflict(entity: string) | Composed(blueprint: Blueprint, conflicts: nat)

  function EntitiesOf(b: Blueprint): seq<Entity> {
    b.entities
  }

  function SchemasOf(b: Blueprint): seq<Schema> {
    b.schemas
  }

  function RulesOf(b: Blueprint): seq<Rule> {
    b.rules
  }

  function ActionsOf(b: Blueprint): seq<Action> {
    b.actions
  }

  function HooksOf(b: Blueprint): seq<Hook> {
    b.hooks
  }

  /** One component of every blueprint. */
  function Parts<V>(part: Blueprint -> seq<V>, bps: seq<Blueprint>): (r: seq<seq<V>>)
    ensures |r| == |bps| && forall i | 0 <= i < |bps| :: r[i] == part(bps[i])
  {
    seq(|bps|, i requires 0 <= i < |bps| => part(bps[i]))
  }

  ghost function ComposedBlueprint(s: Strategy, bps: seq<Blueprint>): Blueprint {
    Blueprint(Fold(EntityKey, EntityCombine(s), Flat(Parts(EntitiesOf, bps))),
              Fold(SchemaKey, Last<Schema>, Flat(Parts(SchemasOf, bps))),
              Fold(RuleKey, First<Rule>, Flat(Parts(RulesOf, bps))),
              Fold(ActionKey, PlainCombine<Action>(s), Flat(Parts(ActionsOf, bps))),
              Fold(HookKey, PlainCombine<Hook>(s), Flat(Parts(HooksOf, bps))))
  }

  ghost function EntityConflicts(s: Strategy, bps: seq<Blueprint>): nat {
    Conflicts(EntityKey, EntityCombine(s), Flat(Parts(EntitiesOf, bps)))
  }

  ghost function AllConflicts(s: Strategy, bps: seq<Blueprint>): nat {
    EntityConflicts(s, bps) + Conflicts(ActionKey, PlainCombine<Action>(s), Flat(Parts(ActionsOf, bps)))
                            + Conflicts(HookKey, PlainCombine<Hook>(s), Flat(Parts(HooksOf, bps)))
  }

  ghost predicate Composes(s: Strategy, bps: seq<Blueprint>) {
    s != FAIL || EntityConflicts(s, bps) == 0
  }

  /** No blueprints give no composition; under FAIL an entity conflict raises. */
  method Compose(s: Strategy, bps: seq<Blueprint>) returns (r: Outcome)
    ensures r == Nothing <==> bps == []
    ensures bps != [] ==> (r.Conflict? <==> !Composes(s, bps))
    ensures r.Conflict? ==> IsFirstConflict(Flat(Parts(EntitiesOf, bps)), r.entity)
    ensures r.Composed? ==> r == Composed(ComposedBlueprint(s, bps), AllConflicts(s, bps))
  {
    hide Fold, Conflicts, Flat;
    if bps == [] {
      return Nothing;
    }
    var entities, conflicts := ComposeDbSchema(s, Parts(EntitiesOf, bps));
    if entities.Err? {
      return Conflict(entities.conflict);
    }
    var schemas, _ := Collect(SchemaKey, Last<Schema>, Parts(SchemasOf, bps));
    var rules := ComposeRules(Parts(RulesOf, bps));
    var actions, actionConflicts := Collect(ActionKey, PlainCombine<Action>(s), Parts(ActionsOf, bps));
    var hooks, hookConflicts := Collect(HookKey, PlainCombine<Hook>(s), Parts(HooksOf, bps));
    r := Composed(Blueprint(entities.value, schemas, rules, actions, hooks),
      conflicts + actionConflicts + hookConflicts);
  }

  // ----- composition does not depend on grouping -----

  lemma MergeFieldsAssociate(a: seq<Field>, b: seq<Field>, c: seq<Field>)
    ensures Fold(FieldKey, Last<Field>, Fold(FieldKey, Last<Field>, a + b) + c)
         == Fold(FieldKey, Last<Field>, a + Fold(FieldKey, Last<Field>, b + c))
  {
    hide FoldFrom, Put, KeySet;
    var ab, bc := Fold(FieldKey, Last<Field>, a + b), Fold(FieldKey, Last<Field>, b + c);
    FoldConcat([], FieldKey, Last<Field>, ab, c);
    FoldOfFold([], FieldKey, Last<Field>, a + b);
    FoldConcat([], FieldKey, Last<Field>, a + b, c);
    FoldConcat([], FieldKey, Last<Field>, a, bc);
    FoldFromFacts([], FieldKey, Last<Field>, a);
    FoldOfFold(Fold(FieldKey, Last<Field>, a), FieldKey, Last<Field>, b + c);
    FoldConcat([], FieldKey, Last<Field>, a, b + c);
    assert a + b + c == a + (b + c);
  }

  /**
   Resolving conflicts is associative under every strategy, the merge of fields, indexes, constraints
   and descriptions included.
   */
  lemma CombineIsAssociative(s: Strategy)
    ensures Associative(EntityCombine(s)) && KeepsKey(EntityKey, EntityCombine(s))
  {
    forall a: Entity, b: Entity, c: Entity
      ensures MergeEntity(MergeEntity(a, b), c) == MergeEntity(a, MergeEntity(b, c)) {
      MergeFieldsAssociate(a.fields, b.fields, c.fields);
      assert a.indexes + b.indexes + c.indexes == a.indexes + (b.indexes + c.indexes);
    }
  }

  ghost function ComposeEach(s: Strategy, groups: seq<seq<Blueprint>>): (r: seq<Blueprint>)
    ensures |r| == |groups| && forall i | 0 <= i < |groups| :: r[i] == ComposedBlueprint(s, groups[i])
  {
    seq(|groups|, i requires 0 <= i < |groups| => ComposedBlueprint(s, groups[i]))
  }

  lemma PlainIsAssociative(s: Strategy)
    ensures Associative(Last<Schema>) && KeepsKey(SchemaKey, Last<Schema>)
    ensures Associative(First<Rule>) && KeepsKey(RuleKey, First<Rule>)
    ensures Associative(PlainCombine<Action>(s)) && KeepsKey(ActionKey, PlainCombine<Action>(s))
    ensures Associative(PlainCombine<Hook>(s)) && KeepsKey(HookKey, PlainCombine<Hook>(s))
  {
  }

  /** One component of each group, its blueprints' lists joined. */
  function GroupParts<V>(part: Blueprint -> seq<V>, groups: seq<seq<Blueprint>>): (r: seq<seq<V>>)
    ensures |r| == |groups| && forall i | 0 <= i < |groups| :: r[i] == Flat(Parts(part, groups[i]))
  {
    seq(|groups|, i requires 0 <= i < |groups| => Flat(Parts(part, groups[i])))
  }

  lemma {:induction false} PartsOfFlat<V>(part: Blueprint -> seq<V>, groups: seq<seq<Blueprint>>)
    ensures Flat(Parts(part, Flat(groups))) == Flat(GroupParts(part, groups))
  {
    if groups != [] {
      var front, last := groups[..|groups| - 1], groups[|groups| - 1];
      PartsOfFlat(part, front);
      assert GroupParts(part, groups)[..|groups| - 1] == GroupParts(part, front);
      assert Parts(part, Flat(groups)) == Parts(part, Flat(front)) + Parts(part, last);
      FlatOfConcat(Parts(part, Flat(front)), Parts(part, last));
    }
  }

  lemma FlatPush<V>(lists: seq<seq<V>>, last: seq<V>)
    ensures Flat(lists + [last]) == Flat(lists) + last
  {
    assert (lists + [last])[..|lists|] == lists;
  }

  lemma {:induction false} FlatOfConcat<V>(a: seq<seq<V>>, b: seq<seq<V>>)
    ensures Flat(a + b) == Flat(a) + Flat(b)
  {
    assert Flat<V>([]) == [];
    hide Flat;
    if b == [] {
      assert a + b == a;
    } else {
      var front, last := b[..|b| - 1], b[|b| - 1];
      FlatOfConcat(a, front);
      FlatPush(a + front, last);
      FlatPush(front, last);
      assert a + b == a + front + [last] && b == front + [last];
      assert Flat(a) + Flat(front) + last == Flat(a) + (Flat(front) + last);
    }
  }

  function SumOf<V>(key: V -> string, combine: (V, V) -> V, part: Blueprint -> seq<V>,
                    groups: seq<seq<Blueprint>>): nat {
    TotalConflicts(key, combine, GroupParts(part, groups))
  }

  /** One component: composing the composed groups is composing the flat list, and the conflicts add up. */
  lemma PartGrouping<V(!new)>(key: V -> string, combine: (V, V) -> V, part: Blueprint -> seq<V>,
                              groups: seq<seq<Blueprint>>, composed: seq<Blueprint>)
    requires Associative(combine) && KeepsKey(key, combine)
    requires |composed| == |groups|
    requires forall i | 0 <= i < |groups| :: part(composed[i]) == Fold(key, combine, Flat(Parts(part, groups[i])))
    ensures Fold(key, combine, Flat(Parts(part, composed))) == Fold(key, combine, Flat(Parts(part, Flat(groups))))
    ensures SumOf(key, combine, part, groups) + Conflicts(key, combine, Flat(Parts(part, composed)))
         == Conflicts(key, combine, Flat(Parts(part, Flat(groups))))
  {
    hide Fold, Conflicts, TotalConflicts, Flat, Associative, KeepsKey;
    var gs := GroupParts(part, groups);
    assert Parts(part, composed) == FoldEach(key, combine, gs);
    PartsOfFlat(part, groups);
    GroupingIrrelevant(key, combine, gs);
    ConflictsAddUp(key, combine, gs);
  }

  /** The conflicts resolved inside the groups. */
  ghost function GroupConflicts(s: Strategy, groups: seq<seq<Blueprint>>): nat {
    if groups == [] then 0 else GroupConflicts(s, groups[..|groups| - 1]) + AllConflicts(s, groups[|groups| - 1])
  }

  lemma SumStep<V>(key: V -> string, combine: (V, V) -> V, part: Blueprint -> seq<V>, groups: seq<seq<Blueprint>>)
    ensures groups == [] ==> SumOf(key, combine, part, groups) == 0
    ensures groups != [] ==> var front, last := groups[..|groups| - 1], groups[|groups| - 1];
            SumOf(key, combine, part, groups) == SumOf(key, combine, part, front)
              + Conflicts(key, combine, Flat(Parts(part, last)))
  {
    if groups != [] {
      assert GroupParts(part, groups)[..|groups| - 1] == GroupParts(part, groups[..|groups| - 1]);
    }
  }

  lemma {:induction false} GroupConflictsByPart(s: Strategy, groups: seq<seq<Blueprint>>)
    ensures GroupConflicts(s, groups) == SumOf(EntityKey, EntityCombine(s), EntitiesOf, groups)
                                       + SumOf(ActionKey, PlainCombine<Action>(s), ActionsOf, groups)
                                       + SumOf(HookKey, PlainCombine<Hook>(s), HooksOf, groups)
  {
    hide Conflicts, Flat, TotalConflicts;
    SumStep(EntityKey, EntityCombine(s), EntitiesOf, groups);
    SumStep(ActionKey, PlainCombine<Action>(s), ActionsOf, groups);
    SumStep(HookKey, PlainCombine<Hook>(s), HooksOf, groups);
    hide SumOf;
    if groups != [] {
      GroupConflictsByPart(s, groups[..|groups| - 1]);
    }
  }

  /**
   Under every strategy: composing composed groups gives the same entities, schemas, rules,
   actions and hooks, in the same order, as composing the flat list, and the conflicts
   resolved inside the groups and between them add up to those of the flat list.
   */
  lemma CompositionIgnoresGrouping(s: Strategy, groups: seq<seq<Blueprint>>)
    ensures ComposedBlueprint(s, ComposeEach(s, groups)) == ComposedBlueprint(s, Flat(groups))
    ensures GroupConflicts(s, groups) + AllConflicts(s, ComposeEach(s, groups)) == AllConflicts(s, Flat(groups))
  {
    hide Fold, Conflicts, Flat, Associative, KeepsKey, SumOf;
    CombineIsAssociative(s);
    PlainIsAssociative(s);
    var composed := ComposeEach(s, groups);
    PartGrouping(EntityKey, EntityCombine(s), EntitiesOf, groups, composed);
    PartGrouping(SchemaKey, Last<Schema>, SchemasOf, groups, composed);
    PartGrouping(RuleKey, First<Rule>, RulesOf, groups, composed);
    PartGrouping(ActionKey, PlainCombine<Action>(s), ActionsOf, groups, composed);
    PartGrouping(HookKey, PlainCombine<Hook>(s), HooksOf, groups, composed);
    GroupConflictsByPart(s, groups);
  }

  /** FAIL raises for the flat list exactly when it raises inside some group or between the composed groups. */
  lemma FailIgnoresGrouping(groups: seq<seq<Blueprint>>)
    ensures Composes(FAIL, Flat(groups)) <==>
            (forall i | 0 <= i < |groups| :: Composes(FAIL, groups[i])) && Composes(FAIL, ComposeEach(FAIL, groups))
  {
    hide Fold, Flat, Associative, KeepsKey, Conflicts;
    CombineIsAssociative(FAIL);
    PartGrouping(EntityKey, EntityCombine(FAIL), EntitiesOf, groups, ComposeEach(FAIL, groups));
    NoGroupConflicts(groups);
  }

  lemma {:induction false} NoGroupConflicts(groups: seq<seq<Blueprint>>)
    ensures SumOf(EntityKey, EntityCombine(FAIL), EntitiesOf, groups) == 0
       <==> forall i | 0 <= i < |groups| :: Composes(FAIL, groups[i])
  {
    hide Conflicts, Flat, TotalConflicts;
    SumStep(EntityKey, EntityCombine(FAIL), EntitiesOf, groups);
    hide SumOf;
    if groups != [] {
      var front := groups[..|groups| - 1];
      NoGroupConflicts(front);
      assert forall i | 0 <= i < |front| :: groups[i] == front[i];
    }
  }

  /** Entity conflicts are total occurrences minus distinct names, whatever the strategy. */
  lemma EntityConflictCount(s: Strategy, bps: seq<Blueprint>)
    ensures var all := Flat(Parts(EntitiesOf, bps));
            EntityConflicts(s, bps) == |all| - |set i | 0 <= i < |all| :: all[i].name|
  {
    CombineIsAssociative(s);
    var all := Flat(Parts(EntitiesOf, bps));
    ConflictCount(EntityKey, EntityCombine(s), all);
    assert KeySet(all, EntityKey) == set i | 0 <= i < |all| :: all[i].name;
  }
}
