/** The condition registry of core/Behavior.py (make_conditions):
    required-field check, default merge, forced behaviour class, and the
    fixed-shape registration request handed to the persistence layer. */
module ConditionRegistry {
  import opened Wrappers

  /** A value stored in a condition dictionary. */
  datatype Value = Int(i: int) | Real(r: real) | Text(s: string)

  /** A caller-owned condition dictionary. make_conditions updates it in
      place, so it is an object whose `fields` the registry reassigns. */
  class Condition {
    var fields: map<string, Value>

    constructor (fields: map<string, Value>)
      ensures this.fields == fields
    {
      this.fields := fields;
    }
  }

  /** The class attributes of Behavior. */
  const CondTables: seq<string> := ["Reward"]
  const RequiredFields: seq<string> := ["reward_amount", "port_id"]
  const DefaultKey: map<string, Value> := map["reward_type" := Text("water"), "conf_version" := Int(1)]
  const BehaviorClassKey: string := "behavior_class"

  /** The request returned on success; `conditions` is the caller's own list. */
  datatype Request = Request(conditions: seq<Condition>, conditionTables: seq<string>,
                             schema: string, hsh: string)

  /** The failed assertion, with the position of the condition that lacked a field. */
  datatype MissingField = MissingField(index: nat)

  predicate HasRequired(fields: map<string, Value>) {
    forall f :: f in RequiredFields ==> f in fields
  }

  /** `cond.update({**defaults, **cond, 'behavior_class': cls})`: the merged
      dictionary is built first and then written over the caller's own.
      Its precedence rules are stated by EnrichPrecedence. */
  function Enrich(defaults: map<string, Value>, cond: map<string, Value>, cls: string): map<string, Value>
  {
    var merged := (defaults + cond)[BehaviorClassKey := Text(cls)];
    cond + merged
  }

  /** Enrichment with Behavior's own defaults and first condition table. */
  function EnrichCondition(cond: map<string, Value>): map<string, Value>
  {
    Enrich(DefaultKey, cond, CondTables[0])
  }

  /** Defaults go underneath, the caller's values win, and the behaviour
      class is forced; no other key appears. */
  lemma EnrichPrecedence(defaults: map<string, Value>, cond: map<string, Value>, cls: string)
    ensures var r := Enrich(defaults, cond, cls);
      && r.Keys == defaults.Keys + cond.Keys + {BehaviorClassKey}
      && r[BehaviorClassKey] == Text(cls)
      && (forall k :: k in cond && k != BehaviorClassKey ==> r[k] == cond[k])
      && (forall k :: k in defaults && k !in cond && k != BehaviorClassKey ==> r[k] == defaults[k])
  {
  }

  /** With Behavior's constants: `reward_type` defaults to 'water' and
      `conf_version` to 1 unless the caller supplied them, and
      `behavior_class` is always 'Reward'. */
  lemma EnrichConditionDefaults(cond: map<string, Value>)
    ensures var r := EnrichCondition(cond);
      && r.Keys == cond.Keys + {"reward_type", "conf_version", BehaviorClassKey}
      && r["reward_type"] == (if "reward_type" in cond then cond["reward_type"] else Text("water"))
      && r["conf_version"] == (if "conf_version" in cond then cond["conf_version"] else Int(1))
      && r[BehaviorClassKey] == Text("Reward")
      && (forall k :: k in cond && k != BehaviorClassKey ==> r[k] == cond[k])
  {
    EnrichPrecedence(DefaultKey, cond, CondTables[0]);
  }

  /** Enriching an already enriched dictionary changes nothing. */
  lemma EnrichIdempotent(defaults: map<string, Value>, cond: map<string, Value>, cls: string)
    ensures Enrich(defaults, Enrich(defaults, cond, cls), cls) == Enrich(defaults, cond, cls)
  {
    var once := Enrich(defaults, cond, cls);
    var twice := Enrich(defaults, once, cls);
    EnrichPrecedence(defaults, cond, cls);
    EnrichPrecedence(defaults, once, cls);
    assert twice.Keys == once.Keys;
    forall k | k in once
      ensures twice[k] == once[k]
    {
    }
  }

  /** Enrichment neither adds nor removes a required field. */
  lemma EnrichKeepsRequired(cond: map<string, Value>)
    ensures HasRequired(EnrichCondition(cond)) <==> HasRequired(cond)
  {
    EnrichConditionDefaults(cond);
    assert RequiredFields == ["reward_amount", "port_id"];
  }

  /** make_conditions: each condition is checked and then enriched in place,
      in list order; the first condition lacking a required field stops the
      loop after the earlier ones have already been enriched. */
  method MakeConditions(conditions: seq<Condition>) returns (r: Result<Request, MissingField>)
    modifies set c | c in conditions
    ensures r.Success? <==> forall i :: 0 <= i < |conditions| ==> HasRequired(old(conditions[i].fields))
    ensures r.Success? ==> r.value == Request(conditions, ["BehCondition", "Reward"], "behavior", "beh_hash")
    ensures r.Success? ==> forall c :: c in conditions ==> c.fields == EnrichCondition(old(c.fields))
    ensures r.Failure? ==>
      var k := r.error.index;
      && k < |conditions|
      && !HasRequired(old(conditions[k].fields))
      && (forall i :: 0 <= i < k ==> HasRequired(old(conditions[i].fields)))
      && (forall c :: c in conditions[..k] ==> c.fields == EnrichCondition(old(c.fields)))
      && (forall c :: c in conditions[k..] && c !in conditions[..k] ==> c.fields == old(c.fields))
  {
    var i := 0;
    while i < |conditions|
      invariant 0 <= i <= |conditions|
      invariant forall j :: 0 <= j < i ==> HasRequired(old(conditions[j].fields))
      invariant forall c :: c in conditions[..i] ==> c.fields == EnrichCondition(old(c.fields))
      invariant forall c :: c in conditions[i..] && c !in conditions[..i] ==> c.fields == old(c.fields)
    {
      var cond := conditions[i];
      ghost var before := old(cond.fields);
      ghost var seen := cond in conditions[..i];
      assert seen ==> cond.fields == EnrichCondition(before);
      assert !seen ==> cond.fields == before;
      assert HasRequired(cond.fields) <==> HasRequired(before) by {
        EnrichKeepsRequired(before);
      }
      if !HasRequired(cond.fields) {
        return Failure(MissingField(i));
      }
      // A list may hold the same dictionary twice; its second visit is a no-op.
      var updated := Enrich(DefaultKey, cond.fields, CondTables[0]);
      assert updated == EnrichCondition(before) by {
        if seen {
          EnrichIdempotent(DefaultKey, before, CondTables[0]);
        }
      }
      cond.fields := updated;
      assert conditions[..i + 1] == conditions[..i] + [cond];
      i := i + 1;
    }
    assert conditions[..i] == conditions;
    r := Success(Request(conditions, ["BehCondition"] + CondTables, "behavior", "beh_hash"));
  }
}
