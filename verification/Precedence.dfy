/**
 Which definition wins: what a composition holds for each name, read off the definitions as
 they occur in the blueprints, one after another.
 */
module Precedence {
  import opened OrderedTable
  import opened Composer

  const ENTITY_NAME: Entity -> string := (e: Entity) => e.name
  const FIELD_NAME: Field -> string := (f: Field) => f.name
  const EXECUTOR: Schema -> string := (s: Schema) => s.executor
  const RULE_ID: Rule -> string := (r: Rule) => r.ruleId
  const TEMPLATE_ID: Action -> string := (a: Action) => a.templateId
  const MONITOR_ID: Hook -> string := (h: Hook) => h.monitorId

  /** What the blueprints define, in order of occurrence. */
  function Listed<V>(part: Blueprint -> seq<V>, bps: seq<Blueprint>): seq<V> {
    if bps == [] then [] else part(bps[0]) + Listed(part, bps[1..])
  }

  /** For each key, in order of first occurrence, its first definition. */
  ghost predicate KeepsFirst<V>(key: V -> string, all: seq<V>, kept: seq<V>) {
    var ks := FirstOccurrences(key, all);
    && |kept| == |ks|
    && forall i | 0 <= i < |ks| :: var occ := Occurrences(key, all, ks[i]); occ != [] && kept[i] == occ[0]
  }

  /** For each key, in order of first occurrence, its last definition. */
  ghost predicate KeepsLast<V>(key: V -> string, all: seq<V>, kept: seq<V>) {
    var ks := FirstOccurrences(key, all);
    && |kept| == |ks|
    && forall i | 0 <= i < |ks| :: var occ := Occurrences(key, all, ks[i]); occ != [] && kept[i] == occ[|occ| - 1]
  }

  /** For each name, in order of first occurrence, the merge of its definitions. */
  ghost predicate KeepsMerged(all: seq<Entity>, kept: seq<Entity>) {
    var ks := FirstOccurrences(ENTITY_NAME, all);
    && |kept| == |ks|
    && forall i | 0 <= i < |ks| :: IsMerged(Occurrences(ENTITY_NAME, all, ks[i]), kept[i])
  }

  function AllFields(occ: seq<Entity>): seq<Field> {
    if occ == [] then [] else AllFields(occ[..|occ| - 1]) + occ[|occ| - 1].fields
  }

  function AllIndexes(occ: seq<Entity>): seq<string> {
    if occ == [] then [] else AllIndexes(occ[..|occ| - 1]) + occ[|occ| - 1].indexes
  }

  /** The last description that is not empty. */
  ghost predicate IsLastDescription(occ: seq<Entity>, description: string) {
    if forall i | 0 <= i < |occ| :: occ[i].description == "" then description == ""
    else exists i :: 0 <= i < |occ| && occ[i].description == description != ""
                     && forall j | i < j < |occ| :: occ[j].description == ""
  }

  /**
   A name defined once keeps its definition. Otherwise: the first definition's primary key, all
   indexes in order, the constraints of all, the last description, and for each field name in
   order of first occurrence its last definition.
   */
  ghost predicate IsMerged(occ: seq<Entity>, e: Entity) {
    && occ != []
    && if |occ| == 1 then e == occ[0]
       else
         && e.name == occ[0].name && e.primaryKey == occ[0].primaryKey
         && e.indexes == AllIndexes(occ)
         && (forall c :: c in e.constraints <==> exists i :: 0 <= i < |occ| && c in occ[i].constraints)
         && IsLastDescription(occ, e.description)
         && KeepsLast(FIELD_NAME, AllFields(occ), e.fields)
  }

  // ----- keys and lists -----

  lemma {:induction false} SameKeys<V(!new)>(a: V -> string, b: V -> string, all: seq<V>)
    requires forall v :: a(v) == b(v)
    ensures FirstOccurrences(a, all) == FirstOccurrences(b, all)
    ensures forall k :: Occurrences(a, all, k) == Occurrences(b, all, k)
  {
    if all != [] { SameKeys(a, b, all[..|all| - 1]); }
  }

  lemma {:induction false} ListedIsFlat<V>(part: Blueprint -> seq<V>, other: Blueprint -> seq<V>, bps: seq<Blueprint>)
    requires forall b :: part(b) == other(b)
    ensures Listed(part, bps) == Flat(Parts(other, bps))
  {
    if bps != [] {
      ListedIsFlat(part, other, bps[1..]);
      FlatSplit(Parts(other, bps), 1);
      assert Parts(other, bps)[1..] == Parts(other, bps[1..]);
      assert Parts(other, bps)[..1] == [part(bps[0])];
      assert [part(bps[0])][..0] == [];
      assert Flat([part(bps[0])]) == part(bps[0]);
    }
  }

  // ----- first and last -----

  lemma {:induction false} ReduceFirst<V>(occ: seq<V>)
    requires occ != []
    ensures Reduce(First<V>, occ) == occ[0]
  {
    if |occ| > 1 { ReduceFirst(occ[..|occ| - 1]); }
  }

  lemma FoldKeepsFirst<V(!new)>(key: V -> string, named: V -> string, all: seq<V>)
    requires forall v :: key(v) == named(v)
    ensures KeepsFirst(named, all, Fold(key, First<V>, all))
  {
    FoldMeaning(key, First<V>, all);
    SameKeys(key, named, all);
    hide Fold, FirstOccurrences, Occurrences;
    var ks := FirstOccurrences(key, all);
    forall i | 0 <= i < |ks| ensures Fold(key, First<V>, all)[i] == Occurrences(key, all, ks[i])[0] {
      ReduceFirst(Occurrences(key, all, ks[i]));
    }
  }

  lemma FoldKeepsLast<V(!new)>(key: V -> string, named: V -> string, all: seq<V>)
    requires forall v :: key(v) == named(v)
    ensures KeepsLast(named, all, Fold(key, Last<V>, all))
  {
    FoldMeaning(key, Last<V>, all);
    SameKeys(key, named, all);
  }

  // ----- the merge -----

  /** The merge of several definitions, with its fields as one fold. */
  lemma {:induction false} ReduceMerges(occ: seq<Entity>)
    requires |occ| >= 2
    ensures var e := Reduce(MergeEntity, occ);
            && e.name == occ[0].name && e.primaryKey == occ[0].primaryKey
            && e.indexes == AllIndexes(occ)
            && (forall c :: c in e.constraints <==> exists i :: 0 <= i < |occ| && c in occ[i].constraints)
            && e.fields == Fold(FieldKey, Last<Field>, AllFields(occ))
  {
    var n := |occ| - 1;
    var front, last := occ[..n], occ[n];
    var m := Reduce(MergeEntity, front);
    hide Fold;
    if n == 1 {
      assert front[..0] == [];
      assert AllFields(front) == front[0].fields && AllIndexes(front) == front[0].indexes;
    } else {
      ReduceMerges(front);
      FieldsRefolded(AllFields(front), last.fields);
    }
    MergedConstraints(occ, m, Reduce(MergeEntity, occ));
  }

  lemma FieldsRefolded(a: seq<Field>, b: seq<Field>)
    ensures Fold(FieldKey, Last<Field>, Fold(FieldKey, Last<Field>, a) + b) == Fold(FieldKey, Last<Field>, a + b)
  {
    hide FoldFrom, Put, KeySet;
    FoldConcat([], FieldKey, Last<Field>, Fold(FieldKey, Last<Field>, a), b);
    FoldOfFold([], FieldKey, Last<Field>, a);
    FoldConcat([], FieldKey, Last<Field>, a, b);
  }

  lemma MergedConstraints(occ: seq<Entity>, m: Entity, e: Entity)
    requires |occ| >= 2 && e.constraints == m.constraints + occ[|occ| - 1].constraints
    requires var front := occ[..|occ| - 1];
             if |occ| == 2 then m == front[0]
             else forall c :: c in m.constraints <==> exists i :: 0 <= i < |front| && c in front[i].constraints
    ensures forall c :: c in e.constraints <==> exists i :: 0 <= i < |occ| && c in occ[i].constraints
  {
    forall c ensures c in e.constraints <==> exists i :: 0 <= i < |occ| && c in occ[i].constraints {
      if c in m.constraints {
        var i :| 0 <= i < |occ| - 1 && c in occ[..|occ| - 1][i].constraints;
        assert c in occ[i].constraints;
      }
      if i :| 0 <= i < |occ| - 1 && c in occ[i].constraints { assert c in occ[..|occ| - 1][i].constraints; }
    }
  }

  lemma {:induction false} ReduceDescribes(occ: seq<Entity>)
    requires occ != []
    ensures IsLastDescription(occ, Reduce(MergeEntity, occ).description)
  {
    if |occ| > 1 {
      var front, last := occ[..|occ| - 1], occ[|occ| - 1];
      ReduceDescribes(front);
      if last.description == "" && Reduce(MergeEntity, front).description != "" {
        var i :| 0 <= i < |front| && front[i].description == Reduce(MergeEntity, front).description
                 && forall j | i < j < |front| :: front[j].description == "";
        assert occ[i].description != "" && forall j | i < j < |occ| :: occ[j].description == "";
      }
    }
  }

  lemma ReduceIsMerged(occ: seq<Entity>)
    requires occ != []
    ensures IsMerged(occ, Reduce(MergeEntity, occ))
  {
    if |occ| > 1 {
      ReduceMerges(occ);
      ReduceDescribes(occ);
      FoldKeepsLast(FieldKey, FIELD_NAME, AllFields(occ));
    }
  }

  lemma FoldKeepsMerged(all: seq<Entity>)
    ensures KeepsMerged(all, Fold(EntityKey, MergeEntity, all))
  {
    CombineIsAssociative(MERGE);
    FoldMeaning(EntityKey, MergeEntity, all);
    SameKeys(EntityKey, ENTITY_NAME, all);
    hide Fold, FirstOccurrences, Occurrences, IsMerged;
    var ks := FirstOccurrences(EntityKey, all);
    forall i | 0 <= i < |ks|
      ensures IsMerged(Occurrences(EntityKey, all, ks[i]), Fold(EntityKey, MergeEntity, all)[i]) {
      ReduceIsMerged(Occurrences(EntityKey, all, ks[i]));
    }
  }

  // ----- the composition -----

  /** The entities of a composition, under each strategy. */
  lemma EntitiesByOccurrence(s: Strategy, bps: seq<Blueprint>)
    ensures var all, kept := Listed((b: Blueprint) => b.entities, bps), ComposedBlueprint(s, bps).entities;
            && (s == FIRST_WINS ==> KeepsFirst(ENTITY_NAME, all, kept))
            && (s == LAST_WINS ==> KeepsLast(ENTITY_NAME, all, kept))
            && (s == MERGE ==> KeepsMerged(all, kept))
            && (Composes(s, bps) <==> s != FAIL || DistinctNames(all))
            && (s == FAIL && DistinctNames(all) ==> kept == all)
  {
    var all := Listed((b: Blueprint) => b.entities, bps);
    ListedIsFlat((b: Blueprint) => b.entities, EntitiesOf, bps);
    ConflictFree(s, all);
    hide Flat, Fold, Conflicts, KeepsFirst, KeepsLast, KeepsMerged, DistinctNames;
    match s
    case FIRST_WINS => FoldKeepsFirst(EntityKey, ENTITY_NAME, all);
    case LAST_WINS => FoldKeepsLast(EntityKey, ENTITY_NAME, all);
    case MERGE => FoldKeepsMerged(all);
    case FAIL =>
  }

  /**
   The other components: the last schema of each executor, the first rule of each id, and of
   actions and hooks the first under FIRST_WINS and the last under every other strategy.
   */
  lemma PartsByOccurrence(s: Strategy, bps: seq<Blueprint>)
    ensures var b := ComposedBlueprint(s, bps);
            var actions, hooks := Listed((b: Blueprint) => b.actions, bps), Listed((b: Blueprint) => b.hooks, bps);
            && KeepsLast(EXECUTOR, Listed((b: Blueprint) => b.schemas, bps), b.schemas)
            && KeepsFirst(RULE_ID, Listed((b: Blueprint) => b.rules, bps), b.rules)
            && (if s == FIRST_WINS then KeepsFirst(TEMPLATE_ID, actions, b.actions)
                && KeepsFirst(MONITOR_ID, hooks, b.hooks)
                else KeepsLast(TEMPLATE_ID, actions, b.actions) && KeepsLast(MONITOR_ID, hooks, b.hooks))
  {
    var schemas, rules := Listed((b: Blueprint) => b.schemas, bps), Listed((b: Blueprint) => b.rules, bps);
    var actions, hooks := Listed((b: Blueprint) => b.actions, bps), Listed((b: Blueprint) => b.hooks, bps);
    ListedIsFlat((b: Blueprint) => b.schemas, SchemasOf, bps);
    ListedIsFlat((b: Blueprint) => b.rules, RulesOf, bps);
    ListedIsFlat((b: Blueprint) => b.actions, ActionsOf, bps);
    ListedIsFlat((b: Blueprint) => b.hooks, HooksOf, bps);
    hide Flat, Fold, KeepsFirst, KeepsLast;
    FoldKeepsLast(SchemaKey, EXECUTOR, schemas);
    FoldKeepsFirst(RuleKey, RULE_ID, rules);
    if s == FIRST_WINS {
      FoldKeepsFirst(ActionKey, TEMPLATE_ID, actions);
      FoldKeepsFirst(HookKey, MONITOR_ID, hooks);
    } else {
      FoldKeepsLast(ActionKey, TEMPLATE_ID, actions);
      FoldKeepsLast(HookKey, MONITOR_ID, hooks);
    }
  }

  lemma ConflictsAreRepeats<V(!new)>(key: V -> string, named: V -> string, combine: (V, V) -> V, all: seq<V>)
    requires KeepsKey(key, combine) && forall v :: key(v) == named(v)
    ensures Conflicts(key, combine, all) == |all| - |KeySet(all, named)|
  {
    ConflictCount(key, combine, all);
    assert KeySet(all, key) == KeySet(all, named);
  }

  /** Conflicts are definitions minus distinct names, of entities, actions and hooks together. */
  lemma ConflictsByOccurrence(s: Strategy, bps: seq<Blueprint>)
    ensures var entities, actions, hooks := Listed((b: Blueprint) => b.entities, bps),
                  Listed((b: Blueprint) => b.actions, bps), Listed((b: Blueprint) => b.hooks, bps);
            AllConflicts(s, bps) == |entities| - |KeySet(entities, ENTITY_NAME)|
                                    + |actions| - |KeySet(actions, TEMPLATE_ID)|
                                    + |hooks| - |KeySet(hooks, MONITOR_ID)|
  {
    ListedIsFlat((b: Blueprint) => b.entities, EntitiesOf, bps);
    ListedIsFlat((b: Blueprint) => b.actions, ActionsOf, bps);
    ListedIsFlat((b: Blueprint) => b.hooks, HooksOf, bps);
    CombineIsAssociative(s);
    PlainIsAssociative(s);
    hide Conflicts, Flat, Fold, KeySet, KeepsKey, Associative;
    ConflictsAreRepeats(EntityKey, ENTITY_NAME, EntityCombine(s), Listed((b: Blueprint) => b.entities, bps));
    ConflictsAreRepeats(ActionKey, TEMPLATE_ID, PlainCombine<Action>(s), Listed((b: Blueprint) => b.actions, bps));
    ConflictsAreRepeats(HookKey, MONITOR_ID, PlainCombine<Hook>(s), Listed((b: Blueprint) => b.hooks, bps));
  }
}
