/** The command and label helpers of src/helpers/helpers.ts. */
module Helpers {
  import opened Wrappers
  import opened Text
  import opened Scan

  /** `decorateLabel`: an asterisk marks a step that runs in loose mode. */
  function DecorateLabel(name: string, supportsLoose: bool, isLooseMode: bool): string
  {
    if isLooseMode && supportsLoose then name + "*" else name
  }

  /** The asterisk is added exactly when the run is in loose mode and the step supports it, and nothing else changes. */
  lemma DecorateLabelCases(name: string, supportsLoose: bool, isLooseMode: bool)
    ensures DecorateLabel(name, supportsLoose, isLooseMode) == name + "*" <==> isLooseMode && supportsLoose
    ensures !(isLooseMode && supportsLoose) ==> DecorateLabel(name, supportsLoose, isLooseMode) == name
  {
    if !(isLooseMode && supportsLoose) {
      assert |name + "*"| != |name|;
    }
  }

  /** A JavaScript truthiness test of an optional command: present and not "". */
  predicate Present(command: Option<string>)
  {
    command.Some? && command.value != ""
  }

  /** `selectCommand`: the fix command in fix mode, else the loose command in loose mode, else the base command. */
  function SelectCommand(base: string, loose: Option<string>, fix: Option<string>, isFixMode: bool, isLooseMode: bool): string
  {
    if isFixMode && Present(fix) then fix.value
    else if isLooseMode && Present(loose) then loose.value
    else base
  }

  /** The priority of the three commands: fix beats loose, and loose beats base. */
  lemma SelectCommandPriority(base: string, loose: Option<string>, fix: Option<string>, isFixMode: bool, isLooseMode: bool)
    ensures isFixMode && Present(fix) ==> SelectCommand(base, loose, fix, isFixMode, isLooseMode) == fix.value
    ensures !(isFixMode && Present(fix)) && isLooseMode && Present(loose) ==>
      SelectCommand(base, loose, fix, isFixMode, isLooseMode) == loose.value
    ensures !(isFixMode && Present(fix)) && !(isLooseMode && Present(loose)) ==>
      SelectCommand(base, loose, fix, isFixMode, isLooseMode) == base
  {
  }

  /** An empty fix or loose command is treated as if it were not configured. */
  lemma SelectCommandEmptyAbsent(base: string, loose: Option<string>, fix: Option<string>, isFixMode: bool, isLooseMode: bool)
    ensures SelectCommand(base, loose, Some(""), isFixMode, isLooseMode) == SelectCommand(base, loose, None, isFixMode, isLooseMode)
    ensures SelectCommand(base, Some(""), fix, isFixMode, isLooseMode) == SelectCommand(base, None, fix, isFixMode, isLooseMode)
  {
  }

  /** `/^npm\b/`: the word "npm" at the start. */
  predicate StartsWithNpm(t: string)
  {
    StartsWith(t, "npm") && (|t| == 3 || !IsWordChar(t[3]))
  }

  /** `/npm\s+run\b/` at the start of `t`: the rest after "run". */
  function RunAt(t: string): Option<string>
  {
    var a :- Lit(t, "npm");
    var b :- Ws1(a);
    var c :- Lit(b, "run");
    if c == [] || !IsWordChar(c[0]) then Some(c) else None
  }

  /** `t.replace(/npm\s+run\b/, "npm run --silent")`: only the leftmost match is replaced. */
  function ReplaceRun(t: string): string
  {
    match RunAt(t)
    case Some(rest) => "npm run --silent" + rest
    case None => if t == [] then [] else [t[0]] + ReplaceRun(t[1..])
  }

  /** `addSilentFlag` */
  function AddSilentFlag(command: string): string
  {
    if !StartsWithNpm(Trim(command)) then command
    else if Contains(command, "--silent") then command
    else ReplaceRun(command)
  }

  lemma {:induction false} ContainsAt(a: string, p: string, b: string)
    ensures Contains(a + p + b, p)
    decreases |a|
  {
    if a == [] {
      assert (a + p + b)[..|p|] == p;
    } else {
      assert (a + p + b)[1..] == a[1..] + p + b;
      ContainsAt(a[1..], p, b);
    }
  }

  /** The replacement either changes nothing or leaves "--silent" in the command. */
  lemma {:induction false} ReplaceRunMarks(t: string)
    ensures ReplaceRun(t) == t || Contains(ReplaceRun(t), "--silent")
    decreases |t|
  {
    match RunAt(t)
    case Some(rest) =>
      assert "npm run --silent" + rest == "npm run " + "--silent" + rest;
      ContainsAt("npm run ", "--silent", rest);
    case None =>
      if t != [] {
        ReplaceRunMarks(t[1..]);
        var r := ReplaceRun(t[1..]);
        if r == t[1..] {
          assert [t[0]] + r == t;
        } else {
          assert ([t[0]] + r)[1..] == r;
        }
      }
  }

  /** Adding the flag twice is adding it once: the result holds "--silent" or is the command itself. */
  lemma AddSilentFlagIdempotent(command: string)
    ensures AddSilentFlag(AddSilentFlag(command)) == AddSilentFlag(command)
  {
    ReplaceRunMarks(command);
  }

  /** A command that is not an npm invocation, or already has "--silent", is left alone. */
  lemma AddSilentFlagUnchanged(command: string)
    requires !StartsWithNpm(Trim(command)) || Contains(command, "--silent")
    ensures AddSilentFlag(command) == command
  {
  }

  /** A command without any "npm run" comes back unchanged, such as "npm audit". */
  lemma {:induction false} ReplaceRunNone(t: string)
    requires forall k :: 0 <= k <= |t| ==> RunAt(t[k..]).None?
    ensures ReplaceRun(t) == t
    decreases |t|
  {
    assert t[0..] == t;
    if t != [] {
      forall k | 0 <= k <= |t[1..]|
        ensures RunAt(t[1..][k..]).None?
      {
        assert t[1..][k..] == t[k + 1..];
      }
      ReplaceRunNone(t[1..]);
    }
  }

  /** Trimming keeps the head of a string that starts with a non-space, up to any later non-space. */
  lemma TrimKeepsHead(t: string, k: nat)
    requires k < |t| && !IsSpace(t[0]) && !IsSpace(t[k])
    ensures |Trim(t)| > k && Trim(t)[..k + 1] == t[..k + 1]
  {
    assert TrimStart(t) == t;
    TrimEndPrefix(t);
  }

  /** The text "npm run" and what follows it. */
  function RunText(rest: string): string
  {
    "npm" + (" " + ("run" + rest))
  }

  lemma RunTextIsNpm(rest: string)
    ensures StartsWithNpm(Trim(RunText(rest)))
  {
    var c := RunText(rest);
    assert c[..7] == "npm run";
    TrimKeepsHead(c, 6);
    var t := Trim(c);
    assert t[..7] == "npm run";
    assert t[..3] == "npm";
    assert t[3] == ' ';
  }

  lemma RunAtText(rest: string)
    requires rest == [] || !IsWordChar(rest[0])
    ensures RunAt(RunText(rest)) == Some(rest)
  {
    LitOf("npm", " " + ("run" + rest));
    Ws1Of(" ", "run" + rest);
    LitOf("run", rest);
  }

  /** "npm run" and what follows it: the flag goes right after "run" and the rest is kept as it was. */
  lemma AddSilentFlagRun(rest: string)
    requires rest == [] || !IsWordChar(rest[0])
    requires !Contains(RunText(rest), "--silent")
    ensures AddSilentFlag(RunText(rest)) == "npm run --silent" + rest
  {
    RunTextIsNpm(rest);
    RunAtText(rest);
  }

  /** The escape character that starts an ANSI sequence. */
  const Esc: char := '\U{1B}'

  /** First index in `t` of an `m` or a line terminator, or |t|. */
  function StopIndex(t: string): (k: nat)
    ensures k <= |t|
    ensures forall j :: 0 <= j < k ==> t[j] != 'm' && !IsLineTerminator(t[j])
    ensures k < |t| ==> t[k] == 'm' || IsLineTerminator(t[k])
  {
    if t == [] then 0 else if t[0] == 'm' || IsLineTerminator(t[0]) then 0 else 1 + StopIndex(t[1..])
  }

  /**
   * `/\u001b\[.*?m/` at the start of `t`: the lazy `.*?` stops at the first `m`, and fails at a
   * line terminator, which `.` does not match.
   */
  function EscapeAt(t: string): (r: Option<string>)
    ensures r.Some? ==> |r.value| < |t|
  {
    if |t| >= 2 && t[0] == Esc && t[1] == '[' then
      var k := StopIndex(t[2..]);
      if k < |t| - 2 && t[2 + k] == 'm' then Some(t[2 + k + 1..]) else None
    else None
  }

  /** `stripAnsi`: every match of the global pattern removed, scanning on after each one. */
  function StripAnsi(t: string): string
    decreases |t|
  {
    match EscapeAt(t)
    case Some(rest) => StripAnsi(rest)
    case None => if t == [] then [] else [t[0]] + StripAnsi(t[1..])
  }

  /** Stripping never lengthens the text. */
  lemma {:induction false} StripAnsiShorter(t: string)
    ensures |StripAnsi(t)| <= |t|
    decreases |t|
  {
    match EscapeAt(t)
    case Some(rest) => StripAnsiShorter(rest);
    case None => if t != [] { StripAnsiShorter(t[1..]); }
  }

  /** Text without an escape character is unchanged. */
  lemma {:induction false} StripAnsiPlain(t: string)
    requires Esc !in t
    ensures StripAnsi(t) == t
    decreases |t|
  {
    if t != [] {
      assert t[0] != Esc;
      StripAnsiPlain(t[1..]);
    }
  }

  /** An escape-free prefix is kept and scanning goes on after it. */
  lemma {:induction false} StripAnsiPrefix(a: string, b: string)
    requires Esc !in a
    ensures StripAnsi(a + b) == a + StripAnsi(b)
    decreases |a|
  {
    if a != [] {
      assert (a + b)[0] == a[0] != Esc;
      assert (a + b)[1..] == a[1..] + b;
      StripAnsiPrefix(a[1..], b);
    } else {
      assert a + b == b;
    }
  }

  /** One SGR sequence `ESC [ p m`, with no `m` or line end inside. */
  function Sgr(p: string): string
  {
    [Esc] + ("[" + (p + ("m" + [])))
  }

  /** An SGR sequence is removed whole, whatever follows it. */
  lemma StripAnsiSgr(a: string, p: string, b: string)
    requires Esc !in a
    requires forall j :: 0 <= j < |p| ==> p[j] != 'm' && !IsLineTerminator(p[j])
    ensures StripAnsi(a + (Sgr(p) + b)) == a + StripAnsi(b)
  {
    var t := Sgr(p) + b;
    assert StripAnsi(t) == StripAnsi(b) by {
      var u := p + ("m" + b);
      assert t == [Esc] + ("[" + u);
      assert t[2..] == u;
      assert StopIndex(u) == |p| by {
        assert u[|p|] == 'm';
        assert forall j :: 0 <= j < |p| ==> u[j] == p[j];
      }
      assert t[2 + |p| + 1..] == b;
      assert EscapeAt(t) == Some(b);
    }
    StripAnsiPrefix(a, t);
  }

  /** Text wrapped in an opening and a closing sequence comes back whole when the sequences are removed. */
  lemma StripAnsiWrapped(p: string, text: string, q: string)
    requires Esc !in text
    requires forall j :: 0 <= j < |p| ==> p[j] != 'm' && !IsLineTerminator(p[j])
    requires forall j :: 0 <= j < |q| ==> q[j] != 'm' && !IsLineTerminator(q[j])
    ensures StripAnsi(Sgr(p) + (text + Sgr(q))) == text
  {
    var closed := text + Sgr(q);
    assert StripAnsi(Sgr(p) + closed) == StripAnsi(closed) by {
      StripAnsiSgr([], p, closed);
      assert [] + (Sgr(p) + closed) == Sgr(p) + closed;
    }
    assert StripAnsi(closed) == text by {
      StripAnsiSgr(text, q, []);
      assert text + (Sgr(q) + []) == closed;
      assert StripAnsi([]) == [];
    }
  }

  /** Appending text that holds no stop character leaves the first stop where it was. */
  lemma {:induction false} StopIndexAppend(t: string, p: string)
    ensures StopIndex(t) < |t| ==> StopIndex(t + p) == StopIndex(t)
    ensures StopIndex(t) == |t| ==> StopIndex(t + p) == |t| + StopIndex(p)
    decreases |t|
  {
    if t == [] {
      assert t + p == p;
    } else {
      assert (t + p)[0] == t[0];
      assert (t + p)[1..] == t[1..] + p;
      StopIndexAppend(t[1..], p);
    }
  }

  /** A sequence matched at the start of `a` is matched the same way whatever follows `a`. */
  lemma EscapeAtAppend(a: string, b: string)
    requires EscapeAt(a).Some?
    ensures EscapeAt(a + b) == Some(EscapeAt(a).value + b)
  {
    var k := StopIndex(a[2..]);
    assert (a + b)[2..] == a[2..] + b;
    StopIndexAppend(a[2..], b);
    assert (a + b)[2 + k] == a[2 + k];
    assert (a + b)[2 + k + 1..] == a[2 + k + 1..] + b;
  }

  /** Text that can neither start, continue nor end a colour sequence. */
  predicate Inert(p: string)
  {
    forall j :: 0 <= j < |p| ==> p[j] != 'm' && !IsLineTerminator(p[j]) && p[j] != Esc && p[j] != '['
  }

  /** Inert text appended to any text comes through `stripAnsi` unchanged, after what is left of the text. */
  lemma {:induction false} StripAnsiAppend(v: string, p: string)
    requires Inert(p)
    ensures StripAnsi(v + p) == StripAnsi(v) + p
    decreases |v|
  {
    match EscapeAt(v)
    case Some(rest) =>
      EscapeAtAppend(v, p);
      StripAnsiAppend(rest, p);
    case None =>
      if v == [] {
        assert v + p == p;
        StripAnsiPlain(p);
      } else {
        assert EscapeAt(v + p).None? by {
          assert (v + p)[0] == v[0];
          if |v| >= 2 && v[0] == Esc && v[1] == '[' {
            assert (v + p)[1] == v[1];
            assert (v + p)[2..] == v[2..] + p;
            StopIndexAppend(v[2..], p);
            if StopIndex(v[2..]) < |v| - 2 {
              assert (v + p)[2 + StopIndex(v[2..])] == v[2 + StopIndex(v[2..])];
            } else {
              assert StopIndex(p) == |p|;
            }
          } else if |v| >= 2 {
            assert (v + p)[1] == v[1];
          }
        }
        assert (v + p)[1..] == v[1..] + p;
        StripAnsiAppend(v[1..], p);
      }
  }

  /** Every escape character of `t` starts a complete colour sequence. */
  predicate Closed(t: string)
    decreases |t|
  {
    match EscapeAt(t)
    case Some(rest) => Closed(rest)
    case None => t == [] || (t[0] != Esc && Closed(t[1..]))
  }

  /** A closed prefix is stripped on its own: no sequence runs on from it into what follows. */
  lemma {:induction false} StripAnsiClosed(a: string, b: string)
    requires Closed(a)
    ensures StripAnsi(a + b) == StripAnsi(a) + StripAnsi(b)
    decreases |a|
  {
    match EscapeAt(a)
    case Some(rest) =>
      EscapeAtAppend(a, b);
      StripAnsiClosed(rest, b);
    case None =>
      if a == [] {
        assert a + b == b;
      } else {
        assert (a + b)[0] == a[0];
        assert (a + b)[1..] == a[1..] + b;
        StripAnsiClosed(a[1..], b);
      }
  }

  lemma {:induction false} ClosedConcat(a: string, b: string)
    requires Closed(a) && Closed(b)
    ensures Closed(a + b)
    decreases |a|
  {
    match EscapeAt(a)
    case Some(rest) =>
      EscapeAtAppend(a, b);
      ClosedConcat(rest, b);
    case None =>
      if a == [] {
        assert a + b == b;
      } else {
        assert (a + b)[0] == a[0];
        assert (a + b)[1..] == a[1..] + b;
        ClosedConcat(a[1..], b);
      }
  }

  lemma {:induction false} ClosedPlain(t: string)
    requires Esc !in t
    ensures Closed(t)
    decreases |t|
  {
    if t != [] {
      assert t[0] != Esc;
      ClosedPlain(t[1..]);
    }
  }

  /** One SGR sequence is closed and strips to nothing. */
  lemma ClosedSgr(p: string)
    requires forall j :: 0 <= j < |p| ==> p[j] != 'm' && !IsLineTerminator(p[j])
    ensures Closed(Sgr(p)) && StripAnsi(Sgr(p)) == []
  {
    StripAnsiSgr([], p, []);
    assert [] + (Sgr(p) + []) == Sgr(p);
    var u := p + ("m" + []);
    assert Sgr(p)[2..] == u;
    assert StopIndex(u) == |p| by {
      assert u[|p|] == 'm';
      assert forall j :: 0 <= j < |p| ==> u[j] == p[j];
    }
    assert EscapeAt(Sgr(p)) == Some([]);
  }

  /** The message of the guard in `runCommand`. */
  const NoCommand := "No command configured for this step"

  /** What `runCommand` spawns: the trimmed command with the silent flag, or the error for a blank command. */
  function CommandToRun(command: string): Result<string>
  {
    var trimmed := Trim(command);
    if trimmed == [] then Err(NoCommand) else Ok(AddSilentFlag(trimmed))
  }

  /** A command is refused exactly when it is blank; otherwise its trimmed form is what gets the flag. */
  lemma CommandToRunCases(command: string)
    ensures CommandToRun(command).Err? <==> IsBlank(command)
    ensures CommandToRun(command).Err? ==> CommandToRun(command).error == NoCommand
    ensures CommandToRun(command).Ok? ==> CommandToRun(command).value == AddSilentFlag(Trim(command))
  {
    TrimShape(command);
  }

  /** `formatDuration` for null and for less than a second; `None` stands for the seconds branch. */
  function FormatDuration(durationMs: Option<nat>): Option<string>
  {
    match durationMs
    case None => Some("")
    case Some(d) => if d < 1000 then Some(NatToString(d) + " ms") else None
  }

  /** A missing duration prints nothing, and a duration under a second prints its digits, read back as d, and " ms". */
  lemma FormatDurationMs(d: nat)
    requires d < 1000
    ensures FormatDuration(None) == Some("")
    ensures FormatDuration(Some(d)).Some?
    ensures Digits1(FormatDuration(Some(d)).value) == Some(Num(NatToString(d), " ms"))
    ensures NumberOf(NatToString(d)) == d
  {
    NumberRoundTrip(d, " ms");
  }
}
