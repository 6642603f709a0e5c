/**
 * The loose-mode helpers of the older src/helpers.ts. Its `decorateLabel`, `runCommand` guard,
 * `addSilentFlag` and `stripAnsi` are the same as in the Helpers module and are not repeated.
 */
module LegacyHelpers {
  import opened Wrappers
  import opened Text
  import opened Scan

  const LooseTag := ":loose"

  /** The groups of `/^(npm\s+run\s+)(\S+)(.*)$/`, with the prefix held as its two gaps. */
  datatype NpmRun = NpmRun(gap1: string, gap2: string, script: string, suffix: string)
  {
    function Prefix(): string
    {
      "npm" + (gap1 + ("run" + gap2))
    }

    /** The same groups with ":loose" after the script. */
    function Tagged(): NpmRun
    {
      NpmRun(gap1, gap2, script + LooseTag, suffix)
    }
  }

  /** `.` does not match a line terminator, so `(.*)$` needs a suffix on one line. */
  predicate OneLine(s: string)
  {
    forall k :: 0 <= k < |s| ==> !IsLineTerminator(s[k])
  }

  /** The text a match of the npm-run pattern stands for. */
  function NpmRunText(m: NpmRun): string
  {
    "npm" + (m.gap1 + ("run" + (m.gap2 + (m.script + m.suffix))))
  }

  /** `\s+` as its own gap and the rest after it. */
  function Gap(t: string): (r: Option<(string, string)>)
    ensures r.Some? ==> r.value.0 != [] && IsBlank(r.value.0) && t == r.value.0 + r.value.1
    ensures r.Some? ==> r.value.1 == [] || !IsSpace(r.value.1[0])
  {
    var rest :- Ws1(t);
    TrimStartSuffix(t);
    assert t == t[..|t| - |rest|] + rest;
    Some((t[..|t| - |rest|], rest))
  }

  /**
   * `command.match(/^(npm\s+run\s+)(\S+)(.*)$/)`. The greedy `\S+` takes the whole token, and
   * no backtracking can help when the rest holds a line terminator, so then there is no match.
   */
  function NpmRunMatch(command: string): (r: Option<NpmRun>)
    ensures r.Some? ==> command == NpmRunText(r.value)
    ensures r.Some? ==> r.value.gap1 != [] && IsBlank(r.value.gap1) && r.value.gap2 != [] && IsBlank(r.value.gap2)
    ensures r.Some? ==> IsToken(r.value.script) && (r.value.suffix == [] || IsSpace(r.value.suffix[0])) && OneLine(r.value.suffix)
  {
    var a :- Lit(command, "npm");
    var g1 :- Gap(a);
    var c :- Lit(g1.1, "run");
    var g2 :- Gap(c);
    ScriptAt(g1.0, g2.0, g2.1)
  }

  function ScriptAt(gap1: string, gap2: string, t: string): (r: Option<NpmRun>)
    ensures r.Some? ==> t == r.value.script + r.value.suffix && r.value.gap1 == gap1 && r.value.gap2 == gap2
    ensures r.Some? ==> IsToken(r.value.script) && (r.value.suffix == [] || IsSpace(r.value.suffix[0])) && OneLine(r.value.suffix)
  {
    var tok :- TokenAt(t);
    if OneLine(tok.rest) then Some(NpmRun(gap1, gap2, tok.text, tok.rest)) else None
  }

  /** The first whitespace-free piece's length, or the whole string; `split(/\s+/)`. */
  function SplitWs(t: string): (r: seq<string>)
    ensures |r| > 0
    decreases |t|
  {
    var n := TokenLength(t);
    if n == |t| then [t]
    else
      var u := TrimStart(t[n..]);
      [t[..n]] + SplitWs(u)
  }

  /** `appendLooseSuffix` */
  function AppendLooseSuffix(command: string): string
  {
    match NpmRunMatch(command)
    case Some(m) =>
      if EndsWith(m.script, LooseTag) then command else NpmRunText(m.Tagged())
    case None => TagLastPart(command)
  }

  /** The other branch: ":loose" on the last whitespace-separated part, the parts joined by single spaces. */
  function TagLastPart(command: string): string
  {
    var parts := SplitWs(Trim(command));
    var last := parts[|parts| - 1];
    if EndsWith(last, LooseTag) then command else Join(parts[..|parts| - 1] + [last + LooseTag], " ")
  }

  /** The older `selectCommand`: the loose variant exactly when loose mode is on and the step supports it. */
  function SelectCommand(baseCommand: string, supportsLoose: bool, isLooseMode: bool): string
  {
    if isLooseMode && supportsLoose then AppendLooseSuffix(baseCommand) else baseCommand
  }

  lemma SelectCommandCases(baseCommand: string, supportsLoose: bool, isLooseMode: bool)
    ensures isLooseMode && supportsLoose ==> SelectCommand(baseCommand, supportsLoose, isLooseMode) == AppendLooseSuffix(baseCommand)
    ensures !(isLooseMode && supportsLoose) ==> SelectCommand(baseCommand, supportsLoose, isLooseMode) == baseCommand
  {
  }

  lemma GapOf(w: string, rest: string)
    requires w != [] && IsBlank(w)
    requires rest == [] || !IsSpace(rest[0])
    ensures Gap(w + rest) == Some((w, rest))
  {
    Ws1Of(w, rest);
    assert (w + rest)[..|w|] == w;
  }

  /** The npm-run pattern reads its groups back from the text they make up. */
  lemma NpmRunMatchText(m: NpmRun)
    requires m.gap1 != [] && IsBlank(m.gap1) && m.gap2 != [] && IsBlank(m.gap2)
    requires IsToken(m.script) && (m.suffix == [] || IsSpace(m.suffix[0])) && OneLine(m.suffix)
    ensures NpmRunMatch(NpmRunText(m)) == Some(m)
  {
    var d := m.script + m.suffix;
    var c := m.gap2 + d;
    var b := "run" + c;
    LitOf("npm", m.gap1 + b);
    GapOf(m.gap1, b);
    LitOf("run", c);
    assert d[0] == m.script[0];
    GapOf(m.gap2, d);
    TokenAtOf(m.script, m.suffix);
  }

  /** ":loose" has no whitespace, so a token with it appended is still a token. */
  lemma TokenConcat(a: string, b: string)
    requires IsToken(a)
    requires b == LooseTag
    ensures IsToken(a + b)
  {
    assert IsToken(LooseTag);
    assert forall k :: |a| <= k < |a + b| ==> (a + b)[k] == b[k - |a|];
  }

  /** The tagged text is the prefix group, the script, ":loose" and the suffix group. */
  lemma TaggedText(m: NpmRun)
    ensures NpmRunText(m.Tagged()) == m.Prefix() + m.script + LooseTag + m.suffix
  {
  }

  /** "npm run S rest" with S not ending in ":loose" becomes "npm run S:loose rest", gaps and rest kept. */
  lemma LooseNpmRun(m: NpmRun)
    requires m.gap1 != [] && IsBlank(m.gap1) && m.gap2 != [] && IsBlank(m.gap2)
    requires IsToken(m.script) && (m.suffix == [] || IsSpace(m.suffix[0])) && OneLine(m.suffix)
    ensures !EndsWith(m.script, LooseTag) ==> AppendLooseSuffix(NpmRunText(m)) == m.Prefix() + m.script + LooseTag + m.suffix
    ensures EndsWith(m.script, LooseTag) ==> AppendLooseSuffix(NpmRunText(m)) == NpmRunText(m)
  {
    NpmRunMatchText(m);
    TaggedText(m);
  }

  /** The script of "npm run S:loose …" ends in ":loose", so the npm-run branch adds the tag once only. */
  lemma LooseNpmRunIdempotent(command: string)
    requires NpmRunMatch(command).Some?
    ensures AppendLooseSuffix(AppendLooseSuffix(command)) == AppendLooseSuffix(command)
  {
    var m := NpmRunMatch(command).value;
    if !EndsWith(m.script, LooseTag) {
      var m' := m.Tagged();
      assert AppendLooseSuffix(command) == NpmRunText(m');
      assert m'.script[|m'.script| - |LooseTag|..] == LooseTag;
      TokenConcat(m.script, LooseTag);
      NpmRunMatchText(m');
      assert AppendLooseSuffix(NpmRunText(m')) == NpmRunText(m');
    }
  }

  /** Where the two gaps of an npm-run text lie: at index 3, and right after the "n" of "run". */
  lemma NpmRunShape(m: NpmRun)
    requires m.gap1 != [] && m.gap2 != [] && IsBlank(m.gap1) && IsBlank(m.gap2)
    ensures var t, j := NpmRunText(m), 6 + |m.gap1|;
      j < |t| && IsSpace(t[3]) && !IsSpace(t[j - 1]) && IsSpace(t[j])
  {
    var t, j := NpmRunText(m), 6 + |m.gap1|;
    var u := m.gap2 + (m.script + m.suffix);
    assert t == "npm" + (m.gap1 + ("run" + u));
    assert t[3] == m.gap1[0];
    assert t[j - 1] == 'n';
    assert t[j] == u[0] == m.gap2[0];
  }

  /** The gap-free first piece and the pieces of what follows the gap after it. */
  lemma {:induction false} SplitWsTokens(t: string)
    requires t != [] && !IsSpace(t[0]) && !IsSpace(t[|t| - 1])
    ensures forall k :: 0 <= k < |SplitWs(t)| ==> IsToken(SplitWs(t)[k])
    decreases |t|
  {
    var n := TokenLength(t);
    var head := t[..n];
    assert IsToken(head) by {
      assert n > 0;
      forall k | 0 <= k < |head|
        ensures !IsSpace(head[k])
      {
        assert head[k] == t[k];
      }
    }
    if n == |t| {
      assert head == t;
      assert SplitWs(t) == [t];
    } else {
      var s := t[n..];
      var u := TrimStart(s);
      TrimStartSuffix(s);
      assert s[|s| - 1] == t[|t| - 1];
      assert u != [];
      assert u[|u| - 1] == s[|s| - 1];
      SplitWsTokens(u);
      var rest := SplitWs(u);
      assert SplitWs(t) == [head] + rest;
      forall k | 0 <= k < |[head] + rest|
        ensures IsToken(([head] + rest)[k])
      {
        if k > 0 {
          assert ([head] + rest)[k] == rest[k - 1];
        }
      }
    }
  }

  /** A single token gets the tag appended, unless it already ends with it. */
  lemma LooseOneWord(a: string)
    requires IsToken(a)
    ensures AppendLooseSuffix(a) == if EndsWith(a, LooseTag) then a else a + LooseTag
  {
    if NpmRunMatch(a).Some? {
      NpmRunShape(NpmRunMatch(a).value);
    }
    TrimUnchanged(a);
    TokenLengthOf(a, []);
    assert a + [] == a;
  }

  lemma SplitWsTwo(a: string, w: string, b: string)
    requires IsToken(a) && IsToken(b) && w != [] && IsBlank(w)
    ensures SplitWs(a + (w + b)) == [a, b]
  {
    var t := a + (w + b);
    assert (w + b)[0] == w[0];
    TokenLengthOf(a, w + b);
    assert t[|a|..] == w + b;
    assert t[..|a|] == a;
    Ws1Of(w, b);
    TokenLengthOf(b, []);
    assert b + [] == b;
    assert SplitWs(b) == [b];
  }

  lemma TwoWordsNoRun(a: string, w: string, b: string)
    requires IsToken(a) && IsToken(b) && w != [] && IsBlank(w)
    ensures NpmRunMatch(a + (w + b)).None?
  {
    var t := a + (w + b);
    if NpmRunMatch(t).Some? {
      NpmRunShape(NpmRunMatch(t).value);
    }
    assert forall k :: 0 <= k < |a| ==> t[k] == a[k];
    assert forall k :: |a| <= k < |a| + |w| ==> t[k] == w[k - |a|];
    assert forall k :: |a| + |w| <= k < |t| ==> t[k] == b[k - |a| - |w|];
  }

  lemma TagLastPartTwo(t: string, a: string, b: string)
    requires SplitWs(Trim(t)) == [a, b]
    ensures TagLastPart(t) == if EndsWith(b, LooseTag) then t else a + " " + (b + LooseTag)
  {
    var q := [a, b][..1] + [b + LooseTag];
    assert q == [a, b + LooseTag];
    assert q[1..] == [b + LooseTag];
    assert Join(q, " ") == a + " " + (b + LooseTag);
  }

  /** Two tokens with any gap between them: the gap becomes one space and the tag goes on the last token. */
  lemma LooseTwoWords(a: string, w: string, b: string)
    requires IsToken(a) && IsToken(b) && w != [] && IsBlank(w)
    ensures AppendLooseSuffix(a + (w + b)) == if EndsWith(b, LooseTag) then a + (w + b) else a + " " + (b + LooseTag)
  {
    var t := a + (w + b);
    TwoWordsNoRun(a, w, b);
    assert t[|t| - 1] == b[|b| - 1];
    TrimUnchanged(t);
    SplitWsTwo(a, w, b);
    TagLastPartTwo(t, a, b);
  }

  /** An empty command becomes ":loose": "".split(/\s+/) is [""]. */
  lemma LooseEmpty()
    ensures AppendLooseSuffix("") == LooseTag
  {
    assert SplitWs("") == [""];
    assert Trim("") == "";
  }

  /** Tokens with whitespace gaps between them: tokens[0] + gaps[0] + tokens[1] + … */
  function Spread(tokens: seq<string>, gaps: seq<string>): string
    requires |tokens| == |gaps| + 1
  {
    if gaps == [] then tokens[0] else tokens[0] + (gaps[0] + Spread(tokens[1..], gaps[1..]))
  }

  /** Non-empty tokens and non-empty whitespace gaps, one gap fewer than tokens. */
  predicate SpreadWell(tokens: seq<string>, gaps: seq<string>)
  {
    |tokens| == |gaps| + 1
    && (forall k :: 0 <= k < |tokens| ==> IsToken(tokens[k]))
    && (forall k :: 0 <= k < |gaps| ==> gaps[k] != [] && IsBlank(gaps[k]))
  }

  lemma {:induction false} SpreadEnds(tokens: seq<string>, gaps: seq<string>)
    requires SpreadWell(tokens, gaps)
    ensures var t := Spread(tokens, gaps);
      t != [] && t[0] == tokens[0][0] && t[|t| - 1] == tokens[|tokens| - 1][|tokens[|tokens| - 1]| - 1]
    decreases |gaps|
  {
    var a := tokens[0];
    assert IsToken(a);
    if gaps != [] {
      var tl, gl := tokens[1..], gaps[1..];
      assert SpreadWell(tl, gl) by {
        assert forall k :: 0 <= k < |tl| ==> tl[k] == tokens[k + 1];
        assert forall k :: 0 <= k < |gl| ==> gl[k] == gaps[k + 1];
      }
      SpreadEnds(tl, gl);
      var r := Spread(tl, gl);
      var t := a + (gaps[0] + r);
      assert t[0] == a[0];
      assert t[|t| - 1] == r[|r| - 1];
      assert tl[|tl| - 1] == tokens[|tokens| - 1];
    }
  }

  /** `split(/\s+/)` gives back the tokens of a spread text, whatever its gaps. */
  lemma {:induction false} SplitWsSpread(tokens: seq<string>, gaps: seq<string>)
    requires SpreadWell(tokens, gaps)
    ensures SplitWs(Spread(tokens, gaps)) == tokens
    decreases |gaps|
  {
    var a := tokens[0];
    if gaps == [] {
      TokenLengthOf(a, []);
      assert a + [] == a;
      assert tokens == [a];
    } else {
      var w := gaps[0];
      var rest := Spread(tokens[1..], gaps[1..]);
      var t := a + (w + rest);
      assert SpreadWell(tokens[1..], gaps[1..]);
      SpreadEnds(tokens[1..], gaps[1..]);
      assert (w + rest)[0] == w[0];
      TokenLengthOf(a, w + rest);
      assert t[..|a|] == a && t[|a|..] == w + rest;
      Ws1Of(w, rest);
      SplitWsSpread(tokens[1..], gaps[1..]);
      assert tokens == [a] + tokens[1..];
    }
  }

  /** A token other than `word` followed by a gap or the end is not `word` and then `\s+`. */
  lemma WordThenGapFails(tok: string, rest: string, word: string)
    requires IsToken(tok) && tok != word && IsToken(word)
    requires rest == [] || IsSpace(rest[0])
    ensures var a := Lit(tok + rest, word); a.None? || Gap(a.value).None?
  {
    var t := tok + rest;
    if |tok| < |word| {
      assert |t| < |word| || t[|tok|] != word[|tok|];
    } else if |tok| == |word| {
      assert t[..|word|] == tok;
    } else {
      assert t[|word|] == tok[|word|];
    }
  }

  /** The npm-run pattern needs "npm", then "run", then a script; a spread text without them does not match. */
  lemma SpreadNoRun(tokens: seq<string>, gaps: seq<string>)
    requires SpreadWell(tokens, gaps)
    requires |tokens| < 3 || tokens[0] != "npm" || tokens[1] != "run"
    ensures NpmRunMatch(Spread(tokens, gaps)).None?
  {
    if tokens[0] != "npm" {
      var after0 := if gaps == [] then [] else gaps[0] + Spread(tokens[1..], gaps[1..]);
      assert Spread(tokens, gaps) == tokens[0] + after0;
      assert after0 == [] || IsSpace(after0[0]);
      WordThenGapFails(tokens[0], after0, "npm");
    } else if gaps != [] {
      NpmThenNoRun(tokens, gaps);
    } else {
      assert Spread(tokens, gaps) == "npm" + [];
      LitOf("npm", []);
    }
  }

  /** "npm" followed by a gap and a token other than "run", or by "run" alone. */
  lemma NpmThenNoRun(tokens: seq<string>, gaps: seq<string>)
    requires SpreadWell(tokens, gaps) && gaps != [] && tokens[0] == "npm"
    requires |tokens| < 3 || tokens[1] != "run"
    ensures NpmRunMatch(Spread(tokens, gaps)).None?
  {
    var rest := Spread(tokens[1..], gaps[1..]);
    assert SpreadWell(tokens[1..], gaps[1..]);
    assert Gap(gaps[0] + rest) == Some((gaps[0], rest)) by {
      SpreadEnds(tokens[1..], gaps[1..]);
      GapOf(gaps[0], rest);
    }
    LitOf("npm", gaps[0] + rest);
    RestNoRun(tokens[1..], gaps[1..]);
  }

  /** Text made of tokens that does not start with "run" and a gap cannot continue the npm-run form. */
  lemma RestNoRun(tokens: seq<string>, gaps: seq<string>)
    requires SpreadWell(tokens, gaps)
    requires |tokens| < 2 || tokens[0] != "run"
    ensures var c := Lit(Spread(tokens, gaps), "run"); c.None? || Gap(c.value).None?
  {
    var after := if gaps == [] then [] else gaps[0] + Spread(tokens[1..], gaps[1..]);
    assert Spread(tokens, gaps) == tokens[0] + after;
    assert after == [] || IsSpace(after[0]);
    if tokens[0] != "run" {
      WordThenGapFails(tokens[0], after, "run");
    } else {
      LitOf("run", []);
    }
  }

  /**
   * Outside the npm-run form, any number of tokens with any gaps: the gaps become single spaces
   * and ":loose" goes on the last token, unless that token already ends with it.
   */
  lemma LooseTokens(tokens: seq<string>, gaps: seq<string>)
    requires SpreadWell(tokens, gaps)
    requires NpmRunMatch(Spread(tokens, gaps)).None?
    ensures var command, last := Spread(tokens, gaps), tokens[|tokens| - 1];
      AppendLooseSuffix(command)
      == if EndsWith(last, LooseTag) then command else Join(tokens[..|tokens| - 1] + [last + LooseTag], " ")
  {
    var command := Spread(tokens, gaps);
    SpreadEnds(tokens, gaps);
    TrimUnchanged(command);
    SplitWsSpread(tokens, gaps);
  }

  /**
   * "npm run S" followed by a line break is not the npm-run form: `.` stops at a line
   * terminator, so the pattern fails and the command takes the whitespace branch.
   */
  lemma NpmRunLineBreak(tokens: seq<string>, gaps: seq<string>)
    requires SpreadWell(tokens, gaps) && |tokens| >= 4 && tokens[0] == "npm" && tokens[1] == "run"
    requires !OneLine(gaps[2])
    ensures NpmRunMatch(Spread(tokens, gaps)).None?
  {
    var r3 := Spread(tokens[3..], gaps[3..]);
    NpmRunPrefix(tokens, gaps);
    assert Spread(tokens[2..], gaps[2..]) == tokens[2] + (gaps[2] + r3);
    ScriptLineBreak(gaps[0], gaps[1], tokens[2], gaps[2], r3);
  }

  /** After "npm", a gap, "run" and a gap, the match is decided by what the script pattern finds. */
  lemma NpmRunPrefix(tokens: seq<string>, gaps: seq<string>)
    requires SpreadWell(tokens, gaps) && |tokens| >= 3 && tokens[0] == "npm" && tokens[1] == "run"
    ensures NpmRunMatch(Spread(tokens, gaps)) == ScriptAt(gaps[0], gaps[1], Spread(tokens[2..], gaps[2..]))
  {
    var r1, r2 := Spread(tokens[1..], gaps[1..]), Spread(tokens[2..], gaps[2..]);
    assert SpreadWell(tokens[1..], gaps[1..]) && SpreadWell(tokens[2..], gaps[2..]);
    SpreadEnds(tokens[2..], gaps[2..]);
    assert Spread(tokens, gaps) == "npm" + (gaps[0] + r1);
    assert r1 == "run" + (gaps[1] + r2);
    LitOf("npm", gaps[0] + r1);
    GapOf(gaps[0], r1);
    LitOf("run", gaps[1] + r2);
    GapOf(gaps[1], r2);
  }

  /** A script followed by a gap holding a line terminator leaves the pattern's `(.*)$` unmatched. */
  lemma ScriptLineBreak(g1: string, g2: string, script: string, gap: string, rest: string)
    requires IsToken(script) && gap != [] && IsBlank(gap) && !OneLine(gap)
    ensures ScriptAt(g1, g2, script + (gap + rest)).None?
  {
    assert IsSpace(gap[0]);
    TokenAtOf(script, gap + rest);
    var k :| 0 <= k < |gap| && IsLineTerminator(gap[k]);
    assert (gap + rest)[k] == gap[k];
  }

  /**
   * "npm run S", a gap holding a line break and more tokens: the whitespace branch applies, so the
   * gaps become single spaces and ":loose" goes on the last token rather than on the script.
   */
  lemma LooseAfterLineBreak(tokens: seq<string>, gaps: seq<string>)
    requires SpreadWell(tokens, gaps) && |tokens| >= 4 && tokens[0] == "npm" && tokens[1] == "run"
    requires !OneLine(gaps[2])
    ensures var command, last := Spread(tokens, gaps), tokens[|tokens| - 1];
      AppendLooseSuffix(command)
      == if EndsWith(last, LooseTag) then command else Join(tokens[..|tokens| - 1] + [last + LooseTag], " ")
  {
    NpmRunLineBreak(tokens, gaps);
    LooseTokens(tokens, gaps);
  }
}
