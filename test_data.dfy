/**
 * `get_scenario_notes` of utils/test_data.py over an already parsed JSON
 * value: the `notes` of entry `scenario_index` of the top-level `scenarios`
 * list, with an empty list for every shape that does not fit.
 */
module TestData {
  import opened Wrappers

  /** A parsed JSON value. */
  datatype Json =
    | JNull
    | JBool(b: bool)
    | JNumber(n: real)
    | JString(s: string)
    | JArray(items: seq<Json>)
    | JObject(fields: map<string, Json>)

  /** The empty JSON list `[]`. */
  const EmptyList: Json := JArray([])

  /** `d.get(key, default)` on a JSON object. */
  function Get(fields: map<string, Json>, key: string, default: Json): Json {
    if key in fields then fields[key] else default
  }

  /**
   * `get_scenario_notes(filename, scenario_index)` once the file has been read
   * into `data`, in the order of its checks.
   */
  function ScenarioNotes(data: Json, scenarioIndex: int): (notes: Json)
    ensures !data.JObject? ==> notes == EmptyList
    ensures data.JObject? && "scenarios" !in data.fields ==> notes == EmptyList
    ensures data.JObject? && "scenarios" in data.fields && !data.fields["scenarios"].JArray? ==>
              notes == EmptyList
    ensures data.JObject? && "scenarios" in data.fields && data.fields["scenarios"].JArray? ==>
              (scenarioIndex < 0 || scenarioIndex >= |data.fields["scenarios"].items|) ==> notes == EmptyList
  {
    var scenarios := if data.JObject? then Get(data.fields, "scenarios", EmptyList) else EmptyList;
    if !scenarios.JArray? then EmptyList
    else if scenarioIndex < 0 || scenarioIndex >= |scenarios.items| then EmptyList
    else
      var entry := scenarios.items[scenarioIndex];
      if entry.JObject? then Get(entry.fields, "notes", EmptyList) else EmptyList
  }

  /** Entry `i` of the `scenarios` list of `data`, when there is one. */
  function ScenarioEntry(data: Json, i: int): Option<Json> {
    if data.JObject? && "scenarios" in data.fields && data.fields["scenarios"].JArray? &&
       0 <= i < |data.fields["scenarios"].items|
    then Some(data.fields["scenarios"].items[i])
    else None
  }

  /**
   * The result depends on the selected entry alone: without one, or with one
   * that is not an object, it is `[]`; for an object entry it is its `notes`
   * value as stored, or `[]` when the entry has none.
   */
  lemma ScenarioNotesOfEntry(data: Json, i: int)
    ensures ScenarioEntry(data, i).None? ==> ScenarioNotes(data, i) == EmptyList
    ensures ScenarioEntry(data, i).Some? && !ScenarioEntry(data, i).value.JObject? ==>
              ScenarioNotes(data, i) == EmptyList
    ensures ScenarioEntry(data, i).Some? && ScenarioEntry(data, i).value.JObject? ==>
              var fields := ScenarioEntry(data, i).value.fields;
              ScenarioNotes(data, i) == (if "notes" in fields then fields["notes"] else EmptyList)
  {
  }

  /** Other scenarios and other top-level keys do not matter. */
  lemma ScenarioNotesLocal(data: Json, other: Json, i: int)
    requires ScenarioEntry(data, i) == ScenarioEntry(other, i)
    ensures ScenarioNotes(data, i) == ScenarioNotes(other, i)
  {
    ScenarioNotesOfEntry(data, i);
    ScenarioNotesOfEntry(other, i);
  }

  /** Changing one scenario leaves the notes of every other scenario as they were. */
  lemma UpdateOtherScenario(fields: map<string, Json>, items: seq<Json>, j: int, entry: Json, i: int)
    requires "scenarios" in fields && fields["scenarios"] == JArray(items)
    requires 0 <= j < |items| && i != j
    ensures ScenarioNotes(JObject(fields["scenarios" := JArray(items[j := entry])]), i) ==
            ScenarioNotes(JObject(fields), i)
  {
    var changed := JObject(fields["scenarios" := JArray(items[j := entry])]);
    assert ScenarioEntry(changed, i) == ScenarioEntry(JObject(fields), i);
    ScenarioNotesLocal(changed, JObject(fields), i);
  }

  /** A well-formed file: the notes of its second scenario, and `[]` one past its end. */
  lemma ExampleTwoScenarios(first: seq<Json>, second: seq<Json>)
    ensures var data := JObject(map["scenarios" := JArray([JObject(map["notes" := JArray(first)]),
                                                          JObject(map["notes" := JArray(second)])])]);
            ScenarioNotes(data, 1) == JArray(second) && ScenarioNotes(data, 2) == EmptyList &&
            ScenarioNotes(data, -1) == EmptyList
  {
  }
}
