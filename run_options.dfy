/** The command-line parsing of src/runOptions/runOptions.ts. */
module RunOptionsParser {
  import opened Wrappers
  import opened Text

  /** The run options `getRunOptions` returns. */
  datatype RunOptions = RunOptions(isSilentMode: bool, isFixMode: bool, isWatchMode: bool, configPath: Option<string>)

  /** The flags before any argument is read. */
  const Defaults := RunOptions(false, false, false, None)

  /** What printing the help or the version text stops on; both end the process with code 0. */
  datatype Shown = HelpText | VersionText

  /** How parsing ends: with the options, by printing and exiting, or by throwing. */
  datatype Outcome = Options(options: RunOptions) | Exit(shown: Shown, code: nat) | Failed(message: string)

  const MissingValue := "Missing value for --config"
  const MultipleConfigs := "Multiple configs provided"

  function UnknownOption(arg: string): string
  {
    "Unknown option: " + arg
  }

  predicate IsHelp(arg: string)
  {
    arg == "--help" || arg == "-h"
  }

  predicate IsVersion(arg: string)
  {
    arg == "--version" || arg == "-v"
  }

  const ConfigEq := "--config="

  /**
   * `arg.split("=", 2)[1]` for an argument starting with "--config=": the whole text after the
   * first "=" up to the next "=", or to the end when there is none.
   */
  function InlineValue(arg: string): (v: string)
    requires StartsWith(arg, ConfigEq)
    ensures '=' !in v && StartsWith(arg[|ConfigEq|..], v)
    ensures |ConfigEq| + |v| == |arg| || arg[|ConfigEq| + |v|] == '='
    ensures var parts := SplitOn(arg, '='); |parts| >= 2 && v == parts[1]
  {
    var tail := arg[|ConfigEq|..];
    var k := IndexOf(tail, '=');
    assert forall j :: 0 <= j < k ==> tail[..k][j] == tail[j];
    InlineSplit(arg);
    assert SplitOn(tail, '=')[0] == tail[..k];
    tail[..k]
  }

  /** Splitting an argument that starts with "--config=" at "=" gives "--config", then the pieces after it. */
  lemma InlineSplit(arg: string)
    requires StartsWith(arg, ConfigEq)
    ensures SplitOn(arg, '=') == ["--config"] + SplitOn(arg[|ConfigEq|..], '=')
  {
    var head := arg[..|ConfigEq|];
    assert head == ConfigEq;
    assert IndexOf(arg, '=') == 8 by {
      assert arg[8] == head[8] == '=';
      forall j | 0 <= j < 8
        ensures arg[j] != '='
      {
        assert arg[j] == head[j] == ConfigEq[j];
      }
    }
    assert arg[..8] == head[..8] == "--config";
  }

  /** `!value || value.startsWith("-")` for `args[index + 1]`, where undefined is a missing argument. */
  predicate MissingNext(args: seq<string>, index: nat)
  {
    index + 1 >= |args| || args[index + 1] == "" || StartsWith(args[index + 1], "-")
  }

  /** What one turn of the loop does: go on after `skip` arguments with new options, or stop. */
  datatype Step = Next(skip: nat, st: RunOptions) | Stop(outcome: Outcome)

  /** One turn of the loop on `args[index]`, which may read the argument after it. */
  function StepAt(args: seq<string>, index: nat, st: RunOptions): (r: Step)
    requires index < |args|
    ensures r.Next? ==> r.skip > 0
  {
    var arg := args[index];
    if IsHelp(arg) then Stop(Exit(HelpText, 0))
    else if IsVersion(arg) then Stop(Exit(VersionText, 0))
    else if arg == "--config" then
      if MissingNext(args, index) then Stop(Failed(MissingValue))
      else if st.configPath.Some? then Stop(Failed(MultipleConfigs))
      else Next(2, st.(configPath := Some(args[index + 1])))
    else if StartsWith(arg, ConfigEq) then
      var value := InlineValue(arg);
      if value == "" then Stop(Failed(MissingValue)) else Next(1, st.(configPath := Some(value)))
    else if arg == "--silent" then Next(1, st.(isSilentMode := true))
    else if arg == "--fix" then Next(1, st.(isFixMode := true))
    else if arg == "--watch" then Next(1, st.(isWatchMode := true))
    else Stop(Failed(UnknownOption(arg)))
  }

  /** The loop from `index` on, with the options read so far. */
  function ParseFrom(args: seq<string>, index: nat, st: RunOptions): Outcome
    decreases |args| - index
  {
    if index >= |args| then Options(st)
    else match StepAt(args, index, st)
      case Stop(outcome) => outcome
      case Next(skip, st') => ParseFrom(args, index + skip, st')
  }

  /** `getRunOptions` on the arguments after the program name, as a value. */
  function ParseArgs(args: seq<string>): Outcome
  {
    ParseFrom(args, 0, Defaults)
  }

  /** `getRunOptions`: the loop over the arguments, stopping at help, version or an error. */
  method GetRunOptions(args: seq<string>) returns (r: Outcome)
    ensures r == ParseArgs(args)
  {
    var isSilentMode, isFixMode, isWatchMode := false, false, false;
    var configPath: Option<string> := None;
    var index := 0;
    while index < |args|
      invariant index <= |args| + 1
      invariant ParseFrom(args, index, RunOptions(isSilentMode, isFixMode, isWatchMode, configPath)) == ParseArgs(args)
      decreases |args| - index
    {
      var arg := args[index];
      if arg == "--help" || arg == "-h" {
        return Exit(HelpText, 0);
      } else if arg == "--version" || arg == "-v" {
        return Exit(VersionText, 0);
      } else if arg == "--config" {
        if index + 1 >= |args| || args[index + 1] == "" || StartsWith(args[index + 1], "-") {
          return Failed(MissingValue);
        }
        if configPath.Some? {
          return Failed(MultipleConfigs);
        }
        configPath := Some(args[index + 1]);
        index := index + 1;
      } else if StartsWith(arg, ConfigEq) {
        var value := InlineValue(arg);
        if value == "" {
          return Failed(MissingValue);
        }
        configPath := Some(value);
      } else if arg == "--silent" {
        isSilentMode := true;
      } else if arg == "--fix" {
        isFixMode := true;
      } else if arg == "--watch" {
        isWatchMode := true;
      } else {
        return Failed(UnknownOption(arg));
      }
      index := index + 1;
    }
    return Options(RunOptions(isSilentMode, isFixMode, isWatchMode, configPath));
  }

  /** With no arguments every flag is off and there is no config path. */
  lemma NoArguments()
    ensures ParseArgs([]) == Options(RunOptions(false, false, false, None))
  {
  }

  /** A help or version argument ends parsing with code 0, whatever follows it. */
  lemma ExitWins(args: seq<string>, index: nat, st: RunOptions)
    requires index < |args| && (IsHelp(args[index]) || IsVersion(args[index]))
    ensures ParseFrom(args, index, st) == Exit(if IsHelp(args[index]) then HelpText else VersionText, 0)
  {
  }

  /** The flag arguments, which only switch a mode on. */
  predicate IsFlag(arg: string)
  {
    arg == "--silent" || arg == "--fix" || arg == "--watch"
  }

  /** The options after reading flag arguments. */
  function SetFlags(flags: seq<string>, st: RunOptions): RunOptions
  {
    if flags == [] then st
    else
      var f := flags[0];
      var st' := if f == "--silent" then st.(isSilentMode := true) else if f == "--fix" then st.(isFixMode := true) else st.(isWatchMode := true);
      SetFlags(flags[1..], st')
  }

  /** Flag arguments only switch modes on and go on with the next argument. */
  lemma {:induction false} FlagsThen(flags: seq<string>, rest: seq<string>, st: RunOptions)
    requires forall k :: 0 <= k < |flags| ==> IsFlag(flags[k])
    ensures ParseFrom(flags + rest, 0, st) == ParseFrom(rest, 0, SetFlags(flags, st))
    decreases |flags|
  {
    if flags != [] {
      var args := flags + rest;
      assert args[1..] == flags[1..] + rest;
      var f := flags[0];
      var st' := if f == "--silent" then st.(isSilentMode := true) else if f == "--fix" then st.(isFixMode := true) else st.(isWatchMode := true);
      assert args[0] == f;
      assert StepAt(args, 0, st) == Next(1, st');
      ShiftFrom(args, 1, st');
      FlagsThen(flags[1..], rest, st');
    } else {
      assert flags + rest == rest;
    }
  }

  /** Parsing from index `d` reads the same as parsing the arguments with the first `d` dropped. */
  lemma ShiftFrom(args: seq<string>, d: nat, st: RunOptions)
    requires d <= |args|
    ensures ParseFrom(args, d, st) == ParseFrom(args[d..], 0, st)
  {
    ShiftAt(args, d, 0, st);
  }

  /** A turn of the loop reads only the argument at its index and the one after it. */
  lemma StepShift(args: seq<string>, d: nat, i: nat, st: RunOptions)
    requires d + i < |args|
    ensures StepAt(args, d + i, st) == StepAt(args[d..], i, st)
  {
    var rest := args[d..];
    assert args[d + i] == rest[i];
    assert MissingNext(args, d + i) == MissingNext(rest, i) by {
      if i + 1 < |rest| {
        assert args[d + i + 1] == rest[i + 1];
      }
    }
  }

  lemma {:induction false} ShiftAt(args: seq<string>, d: nat, i: nat, st: RunOptions)
    requires d <= |args|
    ensures ParseFrom(args, d + i, st) == ParseFrom(args[d..], i, st)
    decreases |args| - d - i
  {
    if d + i < |args| {
      StepShift(args, d, i, st);
      match StepAt(args, d + i, st)
      case Stop(_) =>
      case Next(skip, st') => ShiftAt(args, d, i + skip, st');
    }
  }

  /** Repeating a flag changes nothing. */
  lemma FlagRepeat(flag: string, rest: seq<string>, st: RunOptions)
    requires IsFlag(flag)
    ensures ParseFrom([flag, flag] + rest, 0, st) == ParseFrom([flag] + rest, 0, st)
  {
    FlagsThen([flag, flag], rest, st);
    FlagsThen([flag], rest, st);
    assert [flag, flag][1..] == [flag];
  }

  /** "--config" needs a next argument that is present, non-empty and not an option. */
  lemma ConfigMissing(args: seq<string>, index: nat, st: RunOptions)
    requires index < |args| && args[index] == "--config" && MissingNext(args, index)
    ensures ParseFrom(args, index, st) == Failed(MissingValue)
  {
  }

  /** A second "--config V" after a path is set fails; otherwise it sets the path and skips the value. */
  lemma ConfigSeparate(args: seq<string>, index: nat, st: RunOptions)
    requires index < |args| && args[index] == "--config" && !MissingNext(args, index)
    ensures st.configPath.Some? ==> ParseFrom(args, index, st) == Failed(MultipleConfigs)
    ensures st.configPath.None? ==> ParseFrom(args, index, st) == ParseFrom(args, index + 2, st.(configPath := Some(args[index + 1])))
  {
  }

  /** "--config=V" takes V up to any second "=", fails on an empty V, and overrides an earlier path. */
  lemma ConfigInline(v: string, rest: seq<string>, st: RunOptions)
    requires '=' !in v
    ensures v == "" ==> ParseFrom([ConfigEq + v] + rest, 0, st) == Failed(MissingValue)
    ensures v != "" ==> ParseFrom([ConfigEq + v] + rest, 0, st) == ParseFrom(rest, 0, st.(configPath := Some(v)))
  {
    var arg := ConfigEq + v;
    assert ([arg] + rest)[0] == arg;
    assert arg[2] == 'c';
    assert !IsHelp(arg) && !IsVersion(arg);
    assert StartsWith(arg, ConfigEq);
    assert arg[|ConfigEq|..] == v;
    assert IndexOf(v, '=') == |v|;
    assert v[..|v|] == v;
    assert arg != "--config";
    ShiftFrom([arg] + rest, 1, st.(configPath := Some(v)));
    assert ([arg] + rest)[1..] == rest;
  }

  /** "--config=V=W…" keeps only V, the text before the second "=". */
  lemma ConfigInlineSecondEq(v: string, w: string, rest: seq<string>, st: RunOptions)
    requires '=' !in v
    ensures v == "" ==> ParseFrom([ConfigEq + v + "=" + w] + rest, 0, st) == Failed(MissingValue)
    ensures v != "" ==> ParseFrom([ConfigEq + v + "=" + w] + rest, 0, st) == ParseFrom(rest, 0, st.(configPath := Some(v)))
  {
    var arg := ConfigEq + v + "=" + w;
    assert ([arg] + rest)[0] == arg;
    assert arg[2] == 'c';
    assert !IsHelp(arg) && !IsVersion(arg);
    assert StartsWith(arg, ConfigEq) by {
      assert arg[..|ConfigEq|] == ConfigEq;
    }
    assert arg != "--config";
    assert InlineValue(arg) == v by {
      var tail := v + "=" + w;
      assert arg[|ConfigEq|..] == tail;
      assert IndexOf(tail, '=') == |v| by {
        assert tail[|v|] == '=';
        assert forall j :: 0 <= j < |v| ==> tail[j] == v[j];
      }
      assert tail[..|v|] == v;
    }
    ShiftFrom([arg] + rest, 1, st.(configPath := Some(v)));
    assert ([arg] + rest)[1..] == rest;
  }

  /** The argument "--config=a=b" alone sets the config path to "a". */
  lemma ConfigInlineExample()
    ensures ParseArgs(["--config=a=b"]) == Options(Defaults.(configPath := Some("a")))
  {
    assert "--config=a=b" == ConfigEq + "a" + "=" + "b";
    ConfigInlineSecondEq("a", "b", [], Defaults);
  }

  /** Any other argument fails with its text in the message. */
  lemma UnknownArgument(args: seq<string>, index: nat, st: RunOptions)
    requires index < |args|
    requires var a := args[index]; !IsHelp(a) && !IsVersion(a) && a != "--config" && !StartsWith(a, ConfigEq) && !IsFlag(a)
    ensures ParseFrom(args, index, st) == Failed(UnknownOption(args[index]))
  {
  }

  /** Whatever the arguments, a successful parse never holds an empty config path. */
  lemma {:induction false} ConfigPathNonEmpty(args: seq<string>, index: nat, st: RunOptions)
    requires st.configPath.Some? ==> st.configPath.value != ""
    ensures var r := ParseFrom(args, index, st); r.Options? && r.options.configPath.Some? ==> r.options.configPath.value != ""
    decreases |args| - index
  {
    if index < |args| {
      var arg := args[index];
      if arg == "--config" {
        if !MissingNext(args, index) && st.configPath.None? {
          ConfigPathNonEmpty(args, index + 2, st.(configPath := Some(args[index + 1])));
        }
      } else if StartsWith(arg, ConfigEq) {
        var value := InlineValue(arg);
        if value != "" {
          ConfigPathNonEmpty(args, index + 1, st.(configPath := Some(value)));
        }
      } else if arg == "--silent" {
        ConfigPathNonEmpty(args, index + 1, st.(isSilentMode := true));
      } else if arg == "--fix" {
        ConfigPathNonEmpty(args, index + 1, st.(isFixMode := true));
      } else if arg == "--watch" {
        ConfigPathNonEmpty(args, index + 1, st.(isWatchMode := true));
      }
    }
  }
}
