/** Concrete definitions on which the engine may surprise its user. */
module EngineExamples {
  import opened Wrappers
  import opened Topics
  import opened Text
  import opened Expressions
  import opened Evaluation
  import opened Rules
  import opened EngineModel
  import opened EngineSpec

  function SmallSelect(text: string): SelectSpec {
    if text == "field" then SelectColumns([SelectedColumn(Identifier("x"), "x")]) else SelectAll
  }

  /** Every topic is asked for; the text "field" selects the payload field x, any other text the whole message. All
      texts have the same hash, no payload is JSON. */
  function SmallLibrary(): Library {
    Library(r => Some(r),
            text => Ok(ParsedRule("#", SmallSelect(text), None)),
            text => "id", payload => None, value => Some([]), (schema, payload) => Err(SchemaError))
  }

  function Definition(expression: string): RuleDefinition {
    RuleDefinition(expression, [], None)
  }

  lemma AllTopicsMatch(topic: string)
    ensures FilterMatches("#", topic)
  {
    SplitFree("#", '/');
    assert FitsUpTo(Split("#", '/'), Split(topic, '/'), 0);
  }

  /** Over a payload that is no object, the rule that takes the whole message means that message alone, and nothing
      beside the rule that reads a field. */
  lemma PayloadWithheld(message: Message)
    ensures var t := Table([Some(Definition("field")), Some(Definition("whole"))], map[]);
            && MeaningOf(SmallLibrary(), JsonDecoder, Alone(t, 1), 0, message) == Some(Ok(Some(message)))
            && MeaningOf(SmallLibrary(), JsonDecoder, t, 1, message) == None
  {
    var lib, t := SmallLibrary(), Table([Some(Definition("field")), Some(Definition("whole"))], map[]);
    AllTopicsMatch(message.topic);
    var exprs := RuleExprs(SelectColumns([SelectedColumn(Identifier("x"), "x")]), None);
    assert exprs == [Identifier("x")] && "x" in Mentions(exprs[0]);
    AllMentionsHolds(exprs, 0);
    assert Asked(lib, t, 0, message.topic) && ReadsPayload(lib, Definition("field"));
    assert !ReadsPayload(lib, Definition("whole"));
    AnsweredAlone(lib, JsonDecoder, t, 1, message);
    assert forall j: nat :: Asked(lib, Alone(t, 1), j, message.topic) ==> j == 0;
  }

  /** After a second definition with the same hash, no run removes the first. */
  lemma TwinStays(commands: seq<Command>)
    ensures var lib := SmallLibrary();
            var t := After(lib, JsonDecoder, EMPTY_TABLE, [Add(Definition("field")), Add(Definition("whole"))]);
            Occupied(After(lib, JsonDecoder, t, commands), 0)
  {
    var lib, first, second := SmallLibrary(), Add(Definition("field")), Add(Definition("whole"));
    assert [first, second][..1] == [first] && [first][..0] == [];
    var one := After(lib, JsonDecoder, EMPTY_TABLE, [first]);
    assert RuleExprs(SelectColumns([SelectedColumn(Identifier("x"), "x")]), None) == [Identifier("x")];
    assert Refusal(lib, JsonDecoder, Definition("field")).None? && Refusal(lib, JsonDecoder, Definition("whole")).None?;
    assert After(lib, JsonDecoder, EMPTY_TABLE, []) == EMPTY_TABLE;
    assert one == Next(lib, JsonDecoder, EMPTY_TABLE, first);
    assert one.slots == [Some(Definition("field"))] && one.ids == map["id" := 0];
    var t := After(lib, JsonDecoder, EMPTY_TABLE, [first, second]);
    assert t == Next(lib, JsonDecoder, one, second);
    assert t.slots == [Some(Definition("field")), Some(Definition("whole"))] && t.ids == map["id" := 1];
    RemovableIff(lib, JsonDecoder, t, 0);
  }
}
