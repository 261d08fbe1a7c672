/** Matched protobuf rules grouped by schema, so that each schema decodes a message once. */
module SchemaGroups {
  import opened Wrappers
  import opened Rules
  import opened EngineModel

  datatype SchemaRuleGroup = SchemaRuleGroup(schema: string, ruleIndexes: seq<nat>)

  predicate InSchema(rules: Slots, i: nat, schema: string) {
    Live(rules, i) && rules[i].value.binding == ProtobufBinding(schema)
  }

  /** The matched live rules of one schema, in match order. */
  function OfSchema(rules: Slots, matched: seq<nat>, schema: string): seq<nat> {
    if matched == [] then []
    else
      var n := |matched| - 1;
      OfSchema(rules, matched[..n], schema) + if InSchema(rules, matched[n], schema) then [matched[n]] else []
  }

  /** One nonempty group for each schema that occurs, holding exactly the matched live rules of that schema. */
  ghost predicate GroupsOf(rules: Slots, matched: seq<nat>, groups: seq<SchemaRuleGroup>) {
    && (forall g, h :: 0 <= g < h < |groups| ==> groups[g].schema != groups[h].schema)
    && (forall g :: 0 <= g < |groups| ==>
          groups[g].ruleIndexes != [] && groups[g].ruleIndexes == OfSchema(rules, matched, groups[g].schema))
    && (forall schema :: OfSchema(rules, matched, schema) != [] ==>
        exists g :: 0 <= g < |groups| && groups[g].schema == schema)
  }

  method BuildSchemaRuleGroups(rules: Slots, matched: seq<nat>) returns (groups: seq<SchemaRuleGroup>)
    ensures GroupsOf(rules, matched, groups)
  {
    var bySchema := CollectBySchema(rules, matched);
    groups := ListGroups(bySchema);
    assert forall g :: 0 <= g < |groups| ==> groups[g].schema in bySchema;
  }

  method CollectBySchema(rules: Slots, matched: seq<nat>) returns (bySchema: map<string, seq<nat>>)
    ensures forall s :: s in bySchema <==> OfSchema(rules, matched, s) != []
    ensures forall s :: s in bySchema ==> bySchema[s] == OfSchema(rules, matched, s)
  {
    bySchema := map[];
    for k := 0 to |matched|
      invariant forall s :: s in bySchema <==> OfSchema(rules, matched[..k], s) != []
      invariant forall s :: s in bySchema ==> bySchema[s] == OfSchema(rules, matched[..k], s)
    {
      var i := matched[k];
      forall s ensures OfSchema(rules, matched[..k + 1], s) ==
                       OfSchema(rules, matched[..k], s) + if InSchema(rules, i, s) then [i] else [] {
        assert matched[..k + 1][..k] == matched[..k];
      }
      if Live(rules, i) && rules[i].value.binding.ProtobufBinding? {
        var schema := rules[i].value.binding.schema;
        var group := if schema in bySchema then bySchema[schema] else [];
        bySchema := bySchema[schema := group + [i]];
      }
    }
    assert matched[..|matched|] == matched;
  }

  /** The entries of the map as groups, in some order. */
  method ListGroups(bySchema: map<string, seq<nat>>) returns (groups: seq<SchemaRuleGroup>)
    ensures forall g, h :: 0 <= g < h < |groups| ==> groups[g].schema != groups[h].schema
    ensures forall g :: 0 <= g < |groups| ==>
              groups[g].schema in bySchema && groups[g].ruleIndexes == bySchema[groups[g].schema]
    ensures forall s :: s in bySchema ==> exists g :: 0 <= g < |groups| && groups[g].schema == s
  {
    groups := [];
    var remaining := bySchema.Keys;
    while remaining != {}
      invariant remaining <= bySchema.Keys
      invariant forall g, h :: 0 <= g < h < |groups| ==> groups[g].schema != groups[h].schema
      invariant forall g :: 0 <= g < |groups| ==>
                  groups[g].schema in bySchema && groups[g].schema !in remaining &&
                  groups[g].ruleIndexes == bySchema[groups[g].schema]
      invariant forall s :: s in bySchema && s !in remaining ==> exists g :: 0 <= g < |groups| && groups[g].schema == s
      decreases remaining
    {
      var schema :| schema in remaining;
      ghost var before := groups;
      groups := groups + [SchemaRuleGroup(schema, bySchema[schema])];
      remaining := remaining - {schema};
      assert groups[|before|].schema == schema;
      forall s | s in bySchema && s !in remaining && s != schema
        ensures exists g :: 0 <= g < |groups| && groups[g].schema == s
      {
        var g :| 0 <= g < |before| && before[g].schema == s;
        assert groups[g].schema == s;
      }
    }
  }

  lemma {:induction false} OfSchemaHolds(rules: Slots, matched: seq<nat>, schema: string, i: nat)
    ensures i in OfSchema(rules, matched, schema) <==> i in matched && InSchema(rules, i, schema)
  {
    if matched != [] {
      OfSchemaHolds(rules, matched[..|matched| - 1], schema, i);
      assert matched == matched[..|matched| - 1] + [matched[|matched| - 1]];
    }
  }

  lemma {:induction false} OfSchemaDistinct(rules: Slots, matched: seq<nat>, schema: string)
    requires NoDuplicates(matched)
    ensures NoDuplicates(OfSchema(rules, matched, schema))
  {
    if matched != [] {
      var n := |matched| - 1;
      OfSchemaDistinct(rules, matched[..n], schema);
      OfSchemaHolds(rules, matched[..n], schema, matched[n]);
      assert matched[n] !in matched[..n];
    }
  }

  /** The groups partition the matched live protobuf rules: each is in the group of its own schema and in no other. */
  lemma GroupsPartition(rules: Slots, matched: seq<nat>, groups: seq<SchemaRuleGroup>, i: nat, schema: string)
    requires GroupsOf(rules, matched, groups) && i in matched && InSchema(rules, i, schema)
    ensures exists g :: 0 <= g < |groups| && groups[g].schema == schema && i in groups[g].ruleIndexes
    ensures forall g :: 0 <= g < |groups| && i in groups[g].ruleIndexes ==> groups[g].schema == schema
  {
    OfSchemaHolds(rules, matched, schema, i);
    var g :| 0 <= g < |groups| && groups[g].schema == schema;
    forall h | 0 <= h < |groups| && i in groups[h].ruleIndexes ensures groups[h].schema == schema {
      OfSchemaHolds(rules, matched, groups[h].schema, i);
    }
  }
}
