/** The Knip output parser (src/task/parsers/knip/parser.ts). */
module KnipParser {
  import opened Wrappers
  import opened Text
  import opened Scan
  import opened Failures

  /** `\((\d+)\)` at the start of `t`: the count and the rest. */
  function SectionAt(t: string): (r: Option<Num>)
    ensures r.Some? ==> |r.value.rest| < |t|
  {
    var a :- Lit(t, "(");
    var n :- Digits1(a);
    var b :- Lit(n.rest, ")");
    Some(Num(n.digits, b))
  }

  /**
   * The numbers of `output.matchAll(/\((\d+)\)/g)`, in order, for the text `t` from the current
   * position: each search resumes where the previous match ended, a match never being empty.
   */
  function SectionsOf(t: string): seq<nat>
    decreases |t|
  {
    match SectionAt(t)
    case Some(n) => [n.Value()] + SectionsOf(n.rest)
    case None => if t == [] then [] else SectionsOf(t[1..])
  }

  function Sections(s: string): seq<nat>
  {
    SectionsOf(s)
  }

  function Sum(values: seq<nat>): nat
  {
    if values == [] then 0 else Sum(values[..|values| - 1]) + values[|values| - 1]
  }

  /** `/(\d+)\s+issues?/i` at the start of `t`. */
  function IssuesAt(t: string): Option<nat>
  {
    var n :- CountWord(t, "issue");
    Some(n.Value())
  }

  /** The sum of the parenthesised counts, or, when that is 0, a positive "N issues" count, or 0. */
  function KnipTotal(output: string): nat
  {
    var sum := Sum(Sections(output));
    if sum > 0 then sum
    else
      var fallback := Search(output, IssuesAt);
      if fallback.Some? && fallback.value > 0 then fallback.value else 0
  }

  /** What `parseKnip` returns for a final total. */
  function KnipResult(total: nat): Option<ParsedFailure>
  {
    if total == 0 then None
    else Some(ParsedFailure("Failed - " + Counted(total, "issue"), Some(total), None))
  }

  /** `parseKnip` as a value, for the parser table. */
  function ParseKnipSpec(output: string): Option<ParsedFailure>
  {
    KnipResult(KnipTotal(output))
  }

  /** `parseKnip`: the loop over the section matches, then the fallback, then the verdict. */
  method ParseKnip(output: string) returns (r: Option<ParsedFailure>)
    ensures r == KnipResult(KnipTotal(output))
  {
    var sections := Sections(output);
    var total := 0;
    for i := 0 to |sections|
      invariant total == Sum(sections[..i])
    {
      var value := sections[i];
      assert sections[..i + 1][..i] == sections[..i];
      if value > 0 {
        total := total + value;
      }
    }
    assert sections[..|sections|] == sections;
    if total == 0 {
      var fallback := Search(output, IssuesAt);
      if fallback.Some? && fallback.value > 0 {
        total := fallback.value;
      }
    }
    if total == 0 {
      return None;
    }
    return Some(ParsedFailure("Failed - " + Counted(total, "issue"), Some(total), None));
  }

  lemma {:induction false} SumConcat(a: seq<nat>, b: seq<nat>)
    ensures Sum(a + b) == Sum(a) + Sum(b)
    decreases |b|
  {
    if b != [] {
      assert (a + b)[..|a + b| - 1] == a + b[..|b| - 1];
      SumConcat(a, b[..|b| - 1]);
    } else {
      assert a + b == a;
    }
  }

  /** A non-zero section sum is the total, and the "N issues" text is then never consulted. */
  lemma KnipSectionsFirst(output: string)
    ensures Sum(Sections(output)) > 0 ==> KnipTotal(output) == Sum(Sections(output))
    ensures Sum(Sections(output)) == 0 ==>
      KnipTotal(output) == (if Search(output, IssuesAt).Some? then Search(output, IssuesAt).value else 0)
  {
  }

  /** A zero total reports nothing; otherwise "Failed - T issue(s)" with T errors and no warnings. */
  lemma KnipVerdict(total: nat)
    ensures KnipResult(total).None? <==> total == 0
    ensures total > 0 ==> KnipResult(total).value == ParsedFailure("Failed - " + Counted(total, "issue"), Some(total), None)
  {
  }

  /** Text without a `(` holds no section: the matches of `p + rest` are those of `rest`. */
  lemma {:induction false} SectionsSkip(p: string, rest: string)
    requires '(' !in p
    ensures SectionsOf(p + rest) == SectionsOf(rest)
  {
    if p != [] {
      assert (p + rest)[0] == p[0];
      assert (p + rest)[1..] == p[1..] + rest;
      SectionsSkip(p[1..], rest);
    } else {
      assert p + rest == rest;
    }
  }

  /** How Knip prints a section heading's count. */
  function SectionText(n: nat, rest: string): string
  {
    "(" + (NatToString(n) + (")" + rest))
  }

  lemma {:induction false} SectionAtText(n: nat, rest: string)
    ensures SectionAt(SectionText(n, rest)) == Some(Num(NatToString(n), rest))
  {
    LitOf("(", NatToString(n) + (")" + rest));
    NumberRoundTrip(n, ")" + rest);
    LitOf(")", rest);
  }

  /** A heading "label (N)" contributes N, and scanning goes on right after it. */
  lemma {:induction false} SectionsOfText(p: string, n: nat, rest: string)
    requires '(' !in p
    ensures Sections(p + SectionText(n, rest)) == [n] + Sections(rest)
  {
    SectionsSkip(p, SectionText(n, rest));
    SectionAtText(n, rest);
    NumberOfNatToString(n);
  }

  /** Two headings "label (M)" and "label (N)" with nothing else in parentheses make a total of M + N issues. */
  lemma KnipTwoSections(m: nat, n: nat, p1: string, p2: string, rest: string)
    requires '(' !in p1 && '(' !in p2 && '(' !in rest && m + n > 0
    ensures KnipTotal(p1 + SectionText(m, p2 + SectionText(n, rest))) == m + n
    ensures ParseKnipSpec(p1 + SectionText(m, p2 + SectionText(n, rest))) ==
      Some(ParsedFailure("Failed - " + Counted(m + n, "issue"), Some(m + n), None))
  {
    NoSections(rest);
    SectionsOfText(p2, n, rest);
    SectionsOfText(p1, m, p2 + SectionText(n, rest));
    assert Sections(p1 + SectionText(m, p2 + SectionText(n, rest))) == [m, n];
    assert [m, n][..1] == [m] && [m][..0] == [];
    assert Sum([m, n]) == Sum([m]) + n;
    assert Sum([m]) == m;
  }

  /** The example "Unused files (2)" and "Unused dependencies (1)" on two lines: 3 issues. */
  lemma KnipUnusedFilesAndDependencies()
    ensures ParseKnipSpec("Unused files " + SectionText(2, "\nUnused dependencies " + SectionText(1, ""))) ==
      Some(ParsedFailure("Failed - 3 issues", Some(3), None))
  {
    KnipTwoSections(2, 1, "Unused files ", "\nUnused dependencies ", "");
    assert "Failed - " + Counted(3, "issue") == "Failed - 3 issues" by {
      assert NatToString(3) == "3";
      assert Noun(3, "issue") == "issues";
      assert Counted(3, "issue") == "3 issues";
    }
  }

  /** Text without a `(` has no section. */
  lemma NoSections(t: string)
    requires '(' !in t
    ensures Sections(t) == []
  {
    SectionsSkip(t, "");
    assert t + "" == t;
  }

  /** An "N issues" count can only start at a digit. */
  lemma IssuesAtDigit(u: string)
    ensures IssuesAt(u).Some? ==> u != [] && IsDigit(u[0])
  {
  }

  /**
   * Without sections, the first "N issue(s)" decides when N > 0, as long as no digit
   * comes before it.
   */
  lemma KnipIssuesFallback(before: string, n: nat, rest: string)
    requires '(' !in before && '(' !in rest && NoDigits(before) && NotS(rest) && n > 0
    ensures KnipTotal(before + (Counted(n, "issue") + rest)) == n
    ensures ParseKnipSpec(before + (Counted(n, "issue") + rest)) ==
      Some(ParsedFailure("Failed - " + Counted(n, "issue"), Some(n), None))
  {
    var c := Counted(n, "issue") + rest;
    var s := before + c;
    assert '(' !in Counted(n, "issue") by {
      NatToStringDigits(n);
      assert forall k :: 0 <= k < |NatToString(n)| ==> NatToString(n)[k] != '(';
    }
    assert '(' !in s;
    NoSections(s);
    assert IssuesAt(c) == Some(n) by {
      CountWordOf(n, "issue", rest);
      NumberOfNatToString(n);
    }
    forall j | 0 <= j < |before|
      ensures IssuesAt(s[j..]).None?
    {
      assert s[j..][0] == before[j];
      IssuesAtDigit(s[j..]);
    }
    assert s[|before|..] == c;
    SearchFirst(s, IssuesAt, |before|);
  }

  /** The example "Found 5 issues". */
  lemma KnipFoundFiveIssues()
    ensures ParseKnipSpec("Found " + Counted(5, "issue")) == Some(ParsedFailure("Failed - 5 issues", Some(5), None))
  {
    KnipIssuesFallback("Found ", 5, "");
    assert Counted(5, "issue") + "" == Counted(5, "issue");
    assert "Failed - " + Counted(5, "issue") == "Failed - 5 issues" by {
      assert NatToString(5) == "5";
      assert Noun(5, "issue") == "issues";
      assert Counted(5, "issue") == "5 issues";
    }
  }

  /** Output without parentheses and digits reports nothing, as for "All clean". */
  lemma KnipClean(output: string)
    requires '(' !in output && NoDigits(output)
    ensures ParseKnipSpec(output).None?
  {
    NoSections(output);
    forall k | 0 <= k <= |output|
      ensures IssuesAt(output[k..]).None?
    {
      if k < |output| {
        assert output[k..][0] == output[k];
      }
      IssuesAtDigit(output[k..]);
    }
    SearchSpec(output, IssuesAt);
  }
}
