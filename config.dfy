/**
 * Validating and merging the user's task file (src/config/config.ts): shape checks over the
 * loaded value, the merge with the built-in tool table, and the steps after loading.
 */
module UserConfig {
  import opened Wrappers
  import opened Text
  import opened Failures

  /** The values a loaded configuration can hold. */
  datatype JsValue =
    | JUndefined
    | JNull
    | JBool(b: bool)
    | JNumber(n: int)
    | JString(s: string)
    | JArray(items: seq<JsValue>)
    | JObject(props: map<string, JsValue>)

  /** `value[key]` on an object: the own property, or `undefined`. */
  function Prop(value: JsValue, key: string): (r: JsValue)
    requires value.JObject?
    ensures key !in value.props ==> r == JUndefined
  {
    if key in value.props then value.props[key] else JUndefined
  }

  /** `isRecord`: an object that is neither `null` nor an array. */
  predicate IsRecord(value: JsValue)
  {
    value.JObject?
  }

  /** `isNonEmptyString`: a string whose trimmed text is not empty. */
  predicate IsNonEmptyString(value: JsValue)
  {
    value.JString? && |Trim(value.s)| > 0
  }

  /** `isOptionalString`: `undefined` or a non-empty string. */
  predicate IsOptionalString(value: JsValue)
  {
    value == JUndefined || IsNonEmptyString(value)
  }

  /** `isUserTaskConfig`: a record with a non-empty `tool` and `command` and optional loose and fix commands. */
  predicate IsUserTaskConfig(value: JsValue)
  {
    IsRecord(value) &&
    IsNonEmptyString(Prop(value, "tool")) &&
    IsNonEmptyString(Prop(value, "command")) &&
    IsOptionalString(Prop(value, "looseCommand")) &&
    IsOptionalString(Prop(value, "fixCommand"))
  }

  /** `isUserFileConfig`: a record whose `tasks` is an array of task configurations. */
  predicate IsUserFileConfig(value: JsValue)
  {
    IsRecord(value) && Prop(value, "tasks").JArray? &&
    forall i :: 0 <= i < |Prop(value, "tasks").items| ==> IsUserTaskConfig(Prop(value, "tasks").items[i])
  }

  /** A validated user task. */
  datatype UserTask = UserTask(tool: string, command: string, looseCommand: Option<string>, fixCommand: Option<string>)

  function OptionalString(value: JsValue): Option<string>
  {
    if value.JString? then Some(value.s) else None
  }

  /** `value[key]` on any value: the own property of an object, else `undefined`. */
  function Field(value: JsValue, key: string): JsValue
  {
    if value.JObject? then Prop(value, key) else JUndefined
  }

  /** The user task an entry describes: its `tool` and `command` texts and its optional commands. */
  function AsUserTask(value: JsValue): UserTask
  {
    UserTask(OptionalString(Field(value, "tool")).GetOr(""), OptionalString(Field(value, "command")).GetOr(""),
      OptionalString(Field(value, "looseCommand")), OptionalString(Field(value, "fixCommand")))
  }

  /**
   * A valid entry gives a task whose tool and command have a character other than whitespace,
   * whose optional commands are present exactly when the entry sets them, and are then non-blank.
   */
  lemma AsUserTaskValid(value: JsValue)
    requires IsUserTaskConfig(value)
    ensures var r := AsUserTask(value);
      |Trim(r.tool)| > 0 && |Trim(r.command)| > 0 &&
      r.tool == Prop(value, "tool").s && r.command == Prop(value, "command").s &&
      (r.looseCommand.None? <==> Prop(value, "looseCommand") == JUndefined) &&
      (r.fixCommand.None? <==> Prop(value, "fixCommand") == JUndefined) &&
      (r.looseCommand.Some? ==> |Trim(r.looseCommand.value)| > 0) &&
      (r.fixCommand.Some? ==> |Trim(r.fixCommand.value)| > 0)
  {
  }

  /** A built-in tool: its label (`title`), its name and its output parser. */
  datatype ToolConfig = ToolConfig(title: string, tool: string, parse: string -> Option<ParsedFailure>)

  /** A task ready to run. */
  datatype TaskConfig = TaskConfig(
    title: string, tool: string, command: string,
    looseCommand: Option<string>, fixCommand: Option<string>,
    parse: string -> Option<ParsedFailure>)

  /** `DEFAULT_TASKS`: the built-in tools by name; of two with one name, the later is kept. */
  function DefaultTable(defaults: seq<ToolConfig>): map<string, ToolConfig>
  {
    if defaults == [] then map[]
    else
      var last := defaults[|defaults| - 1];
      DefaultTable(defaults[..|defaults| - 1])[last.tool := last]
  }

  /** The error `mergeTaskConfig` throws for a tool without a default. */
  function UnknownTool(tool: string): string
  {
    "Unknown tool \"" + tool + "\" found in .is-it-ready.config"
  }

  /** `mergeTaskConfig`: label, tool and parser from the default, the commands from the user. */
  function MergeTaskConfig(table: map<string, ToolConfig>, user: UserTask): (r: Result<TaskConfig>)
    ensures r.Err? <==> user.tool !in table
  {
    if user.tool !in table then Err(UnknownTool(user.tool))
    else
      var base := table[user.tool];
      Ok(TaskConfig(base.title, base.tool, user.command, user.looseCommand, user.fixCommand, base.parse))
  }

  const InvalidConfig := "Invalid is-it-ready config: expected { tasks: [{ tool, command }] }"

  /** `!exportedConfig`: the values JavaScript treats as false. */
  predicate IsFalsy(value: JsValue)
  {
    value == JUndefined || value == JNull || value == JBool(false) || value == JNumber(0) || value == JString("")
  }

  /**
   * Only the five falsy values count as nothing exported: an empty object, an empty array, `true`,
   * a non-zero number and a non-empty string, even a blank one, all go on to the shape check.
   */
  lemma TruthyValues(props: map<string, JsValue>, items: seq<JsValue>, n: int, s: string)
    ensures !IsFalsy(JObject(props)) && !IsFalsy(JArray(items)) && !IsFalsy(JBool(true))
    ensures n != 0 ==> !IsFalsy(JNumber(n))
    ensures s != "" ==> !IsFalsy(JString(s))
    ensures IsFalsy(JUndefined) && IsFalsy(JNull)
  {
  }

  /** The `map` over the task entries: the merged configurations, or the first entry's error. */
  function MergeAll(table: map<string, ToolConfig>, entries: seq<JsValue>): (r: Result<seq<TaskConfig>>)
    ensures r.Ok? ==> |r.value| == |entries|
  {
    if entries == [] then Ok([])
    else
      var first :- MergeTaskConfig(table, AsUserTask(entries[0]));
      var rest :- MergeAll(table, entries[1..]);
      Ok([first] + rest)
  }

  /**
   * `loadUserConfig` after the file was loaded: `None` when nothing was exported, an error when
   * the shape is invalid or a tool unknown, else one task per entry.
   */
  function LoadUserConfig(table: map<string, ToolConfig>, exported: JsValue): Result<Option<seq<TaskConfig>>>
  {
    if IsFalsy(exported) then Ok(None)
    else if !IsUserFileConfig(exported) then Err(InvalidConfig)
    else
      var tasks :- MergeAll(table, Prop(exported, "tasks").items);
      Ok(Some(tasks))
  }

  /** A non-empty string is a string with a character other than whitespace. */
  lemma NonEmptyStringIff(value: JsValue)
    ensures IsNonEmptyString(value) <==> value.JString? && exists k :: 0 <= k < |value.s| && !IsSpace(value.s[k])
  {
    if value.JString? {
      TrimShape(value.s);
    }
  }

  /** Absent passes as an optional string, the empty string does not, and neither does any other kind of value. */
  lemma OptionalStringCases(value: JsValue)
    ensures IsOptionalString(JUndefined)
    ensures !IsOptionalString(JString(""))
    ensures !value.JString? && value != JUndefined ==> !IsOptionalString(value)
  {
    TrimUnchanged("");
  }

  /** Arrays and `null` are not records. */
  lemma RecordCases(items: seq<JsValue>)
    ensures !IsRecord(JArray(items)) && !IsRecord(JNull) && !IsRecord(JUndefined)
    ensures IsRecord(JObject(map[]))
  {
  }

  /** `{ tasks: {} }` is rejected, and so is a file whose `tasks` holds an invalid entry. */
  lemma FileConfigRejects(entries: seq<JsValue>, i: nat)
    requires i < |entries| && !IsUserTaskConfig(entries[i])
    ensures !IsUserFileConfig(JObject(map["tasks" := JObject(map[])]))
    ensures !IsUserFileConfig(JObject(map["tasks" := JArray(entries)]))
  {
    var v := JObject(map["tasks" := JArray(entries)]);
    assert Prop(v, "tasks") == JArray(entries);
  }

  /** A file with an array of valid entries is accepted. */
  lemma FileConfigAccepts(entries: seq<JsValue>)
    requires forall i :: 0 <= i < |entries| ==> IsUserTaskConfig(entries[i])
    ensures IsUserFileConfig(JObject(map["tasks" := JArray(entries)]))
  {
    var v := JObject(map["tasks" := JArray(entries)]);
    assert Prop(v, "tasks") == JArray(entries);
  }

  /** A tool without a default fails with the "Unknown tool" error. */
  lemma MergeUnknown(table: map<string, ToolConfig>, user: UserTask)
    requires user.tool !in table
    ensures MergeTaskConfig(table, user) == Err(UnknownTool(user.tool))
  {
  }

  /** Label, tool and parser come from the default, and command, loose and fix command from the user. */
  lemma MergeKnown(table: map<string, ToolConfig>, user: UserTask)
    requires user.tool in table
    ensures var r := MergeTaskConfig(table, user);
      r.Ok? &&
      r.value.title == table[user.tool].title && r.value.tool == table[user.tool].tool &&
      r.value.parse == table[user.tool].parse &&
      r.value.command == user.command && r.value.looseCommand == user.looseCommand &&
      r.value.fixCommand == user.fixCommand
  {
  }

  /** A name is in the table exactly when some default has it. */
  lemma {:induction false} DefaultTableHas(defaults: seq<ToolConfig>, tool: string)
    ensures tool in DefaultTable(defaults) <==> exists i :: 0 <= i < |defaults| && defaults[i].tool == tool
  {
    if defaults != [] {
      var init := defaults[..|defaults| - 1];
      DefaultTableHas(init, tool);
      assert forall i :: 0 <= i < |init| ==> init[i] == defaults[i];
    }
  }

  /** `defaults[i]` is the last default with the name `tool`. */
  predicate LastNamed(defaults: seq<ToolConfig>, tool: string, i: int)
  {
    0 <= i < |defaults| && defaults[i].tool == tool && forall j :: i < j < |defaults| ==> defaults[j].tool != tool
  }

  /** A name in the table maps to the last default that has it. */
  lemma {:induction false} DefaultTableLast(defaults: seq<ToolConfig>, tool: string)
    requires tool in DefaultTable(defaults)
    ensures exists i :: LastNamed(defaults, tool, i) && defaults[i] == DefaultTable(defaults)[tool]
  {
    var n := |defaults| - 1;
    var init := defaults[..n];
    var last := defaults[n];
    if last.tool == tool {
      assert DefaultTable(defaults)[tool] == last;
      assert LastNamed(defaults, tool, n);
    } else {
      assert tool in DefaultTable(init);
      DefaultTableLast(init, tool);
      var i :| LastNamed(init, tool, i) && init[i] == DefaultTable(init)[tool];
      assert defaults[i] == init[i];
      assert DefaultTable(defaults)[tool] == DefaultTable(init)[tool];
      forall j | i < j < |defaults|
        ensures defaults[j].tool != tool
      {
        if j < n {
          assert defaults[j] == init[j];
        }
      }
      assert LastNamed(defaults, tool, i);
    }
  }

  /** The merged tasks are the entries' merges, one per entry and in order, exactly when every tool is known. */
  lemma {:induction false} MergeAllOrder(table: map<string, ToolConfig>, entries: seq<JsValue>)
    ensures MergeAll(table, entries).Ok? <==> forall i :: 0 <= i < |entries| ==> AsUserTask(entries[i]).tool in table
    ensures MergeAll(table, entries).Ok? ==>
      forall i :: 0 <= i < |entries| ==> Ok(MergeAll(table, entries).value[i]) == MergeTaskConfig(table, AsUserTask(entries[i]))
  {
    if entries != [] {
      var rest := entries[1..];
      MergeAllOrder(table, rest);
      assert forall i :: 0 <= i < |rest| ==> rest[i] == entries[i + 1];
      var head := MergeTaskConfig(table, AsUserTask(entries[0]));
      if head.Ok? && MergeAll(table, rest).Ok? {
        var all := MergeAll(table, entries).value;
        assert all == [head.value] + MergeAll(table, rest).value;
        assert forall i :: 1 <= i < |entries| ==> all[i] == MergeAll(table, rest).value[i - 1];
      }
    }
  }

  /** The first entry with an unknown tool gives the whole load's error. */
  lemma {:induction false} MergeAllFirstError(table: map<string, ToolConfig>, entries: seq<JsValue>)
    ensures MergeAll(table, entries).Err? ==>
      exists i :: FirstUnknown(table, entries, i) && MergeAll(table, entries).error == UnknownTool(AsUserTask(entries[i]).tool)
  {
    if entries != [] {
      var rest := entries[1..];
      var head := MergeTaskConfig(table, AsUserTask(entries[0]));
      if head.Err? {
        assert FirstUnknown(table, entries, 0);
      } else if MergeAll(table, rest).Err? {
        MergeAllFirstError(table, rest);
        var i :| FirstUnknown(table, rest, i) && MergeAll(table, rest).error == UnknownTool(AsUserTask(rest[i]).tool);
        assert entries[i + 1] == rest[i];
        assert MergeAll(table, entries).error == UnknownTool(AsUserTask(entries[i + 1]).tool);
        forall j | 1 <= j < i + 1
          ensures AsUserTask(entries[j]).tool in table
        {
          assert entries[j] == rest[j - 1];
        }
        assert FirstUnknown(table, entries, i + 1);
      }
    }
  }

  /** `entries[i]` names the first tool missing from the table. */
  predicate FirstUnknown(table: map<string, ToolConfig>, entries: seq<JsValue>, i: int)
  {
    0 <= i < |entries| && AsUserTask(entries[i]).tool !in table &&
    forall j :: 0 <= j < i ==> AsUserTask(entries[j]).tool in table
  }

  /**
   * Nothing exported gives no tasks; an invalid shape gives the "Invalid is-it-ready config"
   * error; a valid file gives one task per entry exactly when every tool is known.
   */
  lemma LoadUserConfigCases(table: map<string, ToolConfig>, exported: JsValue)
    ensures IsFalsy(exported) ==> LoadUserConfig(table, exported) == Ok(None)
    ensures !IsFalsy(exported) && !IsUserFileConfig(exported) ==> LoadUserConfig(table, exported) == Err(InvalidConfig)
    ensures !IsFalsy(exported) && IsUserFileConfig(exported) ==>
      var entries := Prop(exported, "tasks").items;
      (LoadUserConfig(table, exported).Ok? <==> forall i :: 0 <= i < |entries| ==> AsUserTask(entries[i]).tool in table) &&
      (LoadUserConfig(table, exported).Ok? ==>
        LoadUserConfig(table, exported).value.Some? && |LoadUserConfig(table, exported).value.value| == |entries|)
  {
    if !IsFalsy(exported) && IsUserFileConfig(exported) {
      MergeAllOrder(table, Prop(exported, "tasks").items);
    }
  }
}
