# is-it-ready, modelled in Dafny

is-it-ready is a quality-gate runner for JavaScript and TypeScript projects. The sequential runner
runs a fixed list of checks one after another; the task-based runner starts the configured tasks
concurrently. The checks are the TypeScript compiler, ESLint, Prettier, markdownlint, CSpell, Knip,
Vitest, `npm audit` and `npm outdated`. It turns each tool's output into a verdict with error and
warning counts, and shows the progress in a Unicode table. A failure report and a process exit code
follow.

This project models the decision logic of that runner and proves what it promises:

- **Output parsers.** Each tool's classifier is modelled as a hand-written matcher that stands for its
  regular expression (modules `TypeScriptParser`, `VitestParser`, `KnipParser`, `CSpellParser`,
  `NpmAuditParser`, `EslintParser`, `PrettierParser`, `MarkdownLintParser`, `NpmOutdatedParser`).
  The matchers use ASCII case folding, JavaScript's `\s`, and digit runs read as natural numbers; the
  building blocks are in `Scan`. For each parser, lemmas parse the text the tool prints, on every path
  the parser takes (each summary pattern, each fallback, each error case), and get back the counts
  and the message. They also state which texts report no failure.
- **Parser registry** (`ParserRegistry`). This is a class over the module-level name-to-parser map,
  together with the proxy that exposes it.
- **Command helpers.**
  - `Helpers` covers:
    - command selection;
    - the `--silent` rewrite of `npm run`;
    - ANSI stripping;
    - label decoration;
    - the empty-command guard;
    - the millisecond branch of `formatDuration`.
  - `LegacyHelpers` covers the `:loose` suffix rewrite and the older command selection.
- **The runner of dist/index.js** (`SuiteRunner`). It is a class with:
  - the statuses, durations and failure records;
  - the error and warning totals;
  - step-by-step `updateStatus`/`recordIssueCounts`;
  - the overall row's icon and text;
  - the exit code.
- **Task execution and watching.**
  - `TaskExecution` covers the issue total and the render protocol of `runTasks`.
  - `TaskWatcher` covers the single-flight guard of the watch loop, its ignore list and its exit code.
- **Command-line options** (`RunOptionsParser`). This is the argument loop of `getRunOptions` with its
  error cases.
- **Configuration** (`UserConfig`). This covers the shape checks on the loaded value, the merge with
  the default tool table, and the steps after loading.
- **Rendering.**
  - `TableRenderer` covers borders, padded cells, column widths, the layout of the table with its
    bold header and footer rows, and the full-width code-point predicate. It includes the proof
    that every line of the table has the same display width. That proof covers coloured cells
    whose colour sequences are complete, at any colour level. It needs at least one body row:
    with no rows the body is one empty line, 0 cells wide, as in the source.
  - `Renderer` covers the failure headline, the lines of the failure report and the colouring of
    status messages.

`Text` provides the string operations of JavaScript that the code relies on. `Wrappers` provides
`Option` and `Result`.

The spawned process is not modelled. Its result (exit status, stdout, stderr) and the time each
command takes are inputs. Colour is modelled as a colour level passed in as a parameter. The set of
pictographic characters is also a parameter.

## Model

| member | source | states |
|---|---|---|
| CSpellParser.ParseCSpell | src/task/parsers/cspell/parser.ts:3-25 | `parseCSpell`, no contract of its own; CSpellRoundTrip reads the printed summary back after any text in which no match starts (nothing for 0 issues), CSpellTestLine and CSpellZeroTestLine read the tests' lines, and FilesTextCases states the file part of the message |
| CSpellParser.FilesTextCases | src/task/parsers/cspell/parser.ts:12-15 | the " in M file(s)" suffix appears exactly when a file count is present and positive, with "file" iff M = 1 |
| CSpellParser.FoundAtText | src/task/parsers/cspell/parser.ts:4 | the case-insensitive `issues?\s+found:` part accepts "Issues found:", as CSpell prints it, and the lower-case form, and leaves the rest |
| CSpellParser.InFilesAtText | src/task/parsers/cspell/parser.ts:4 | the optional `\s+in\s+(\d+)\s+files?` group captures the printed file count |
| CSpellParser.SummaryAtText | src/task/parsers/cspell/parser.ts:4 | the pattern, tried where the line "Issues found: N …" starts, matches it and captures both counts, the file count only when positive |
| CSpellParser.CountAtText | src/task/parsers/cspell/parser.ts:4 | the count part of the pattern reads back the printed issue count and file part |
| CSpellParser.CSpellRoundTrip | src/task/parsers/cspell/parser.ts:3-25 | after any text in which no match starts, such as "CSpell: Files checked: 59, ", the line "Issues found: N in M files" is the match found and is parsed to N errors with the files named for M > 0, and to no failure for N = 0 |
| CSpellParser.NoSummaryAt | src/task/parsers/cspell/parser.ts:4 | the pattern cannot match where the text does not start with "is" in either case |
| CSpellParser.SummaryAfter | src/task/parsers/cspell/parser.ts:4-5 | a summary at the start of a text is still the leftmost match after text in which every "i" is followed by something other than "s" |
| CSpellParser.CheckedNoIssueStart | src/task/parsers/cspell/parser.ts:4 | no match starts inside "CSpell: Files checked: 59, " |
| CSpellParser.CSpellTestLine | src/task/parsers/cspell/parser.ts:3-25 | "CSpell: Files checked: 59, Issues found: 5 in 3 files." gives "Failed - 5 issues in 3 files" with 5 errors |
| CSpellParser.ZeroSummaryAt | src/task/parsers/cspell/parser.ts:4 | "Issues found: 0", followed by anything but a digit, is a summary with 0 issues |
| CSpellParser.CSpellZeroTestLine | src/task/parsers/cspell/parser.ts:3-25 | "CSpell: Files checked: 59, Issues found: 0 in 0 files." reports nothing |
| EslintParser.ParseEslint | src/config/parsers/eslint/parser.ts:3-40 | a reported failure has a positive error count, or no error field and warnings; a reported warning count is positive |
| EslintParser.Verdict | src/config/parsers/eslint/parser.ts:12-39 | the verdict on one summary reports positive errors or warnings only |
| EslintParser.EslintWarningsOnly | src/config/parsers/eslint/parser.ts:20-27 | warnings without errors give "Failed - W warning(s)" with the warnings and no error field |
| EslintParser.EslintErrors | src/config/parsers/eslint/parser.ts:29-39 | a positive error count gives "Failed - E errors", with " and W warnings" when W > 0, E errors and the warnings only when positive |
| EslintParser.WarningsAtText | src/config/parsers/eslint/parser.ts:5 | the optional `,\s+(\d+)\s+warnings?` group captures the printed warning digits |
| EslintParser.OpenParenText | src/config/parsers/eslint/parser.ts:5 | the `\s+\(` step accepts " (" and leaves the rest |
| EslintParser.ProblemsAtText | src/config/parsers/eslint/parser.ts:5 | the `(\d+)\s+problems?\s+\(` prefix accepts the printed problem count |
| EslintParser.SummaryAtText | src/config/parsers/eslint/parser.ts:5 | the whole pattern matches the printed summary and captures the error and warning digits |
| EslintParser.EslintRoundTrip | src/config/parsers/eslint/parser.ts:4-14 | ESLint's printed summary is found by the leftmost search and its captured digits read back as the printed counts |
| EslintParser.EslintWarningsDefault | src/config/parsers/eslint/parser.ts:12 | without a warnings group the warning count reads "0" (the destructuring default) |
| EslintParser.EslintOneError | src/config/parsers/eslint/parser.ts:29-36 | one error and one warning still read "Failed - 1 errors and 1 warnings": both nouns are always plural |
| KnipParser.KnipTotal | src/task/parsers/knip/parser.ts:4-22 | the issue total of `parseKnip`, no contract of its own; SumConcat, SectionsOfText, KnipTwoSections and KnipIssuesFallback read it from printed text, and ParseKnip proves the loop computes it |
| KnipParser.SectionAt | src/task/parsers/knip/parser.ts:4 | a `\((\d+)\)` match consumes a prefix of the text and leaves a shorter rest |
| KnipParser.ParseKnip | src/task/parsers/knip/parser.ts:3-32 | the loop adds up the positive section counts, falls back to "N issues" when that sum is 0, and returns the verdict for the total |
| KnipParser.SumConcat | src/task/parsers/knip/parser.ts:7-12 | the running total over two runs of matches is the sum of both |
| KnipParser.KnipVerdict | src/task/parsers/knip/parser.ts:24-31 | a zero total reports nothing; otherwise "Failed - T issue(s)" with T errors and no warnings |
| KnipParser.SectionsSkip | src/task/parsers/knip/parser.ts:7 | text without a `(` adds no match to the global scan |
| KnipParser.SectionAtText | src/task/parsers/knip/parser.ts:4 | a printed "(N)" is matched and yields N |
| KnipParser.SectionsOfText | src/task/parsers/knip/parser.ts:7-12 | a heading "label (N)" contributes N and the scan resumes right after it |
| KnipParser.KnipTwoSections | src/task/parsers/knip/parser.ts:3-32 | two headings "label (M)" and "label (N)", with nothing else in parentheses and M + N > 0, make a total of M + N and "Failed - T issue(s)" with T = M + N errors |
| KnipParser.KnipUnusedFilesAndDependencies | src/task/parsers/knip/parser.ts:3-32 | the printed "Unused files (2)" and "Unused dependencies (1)" on two lines give "Failed - 3 issues" with 3 errors |
| KnipParser.KnipIssuesFallback | src/task/parsers/knip/parser.ts:14-31 | printed text with no "(N)" section and no digit before "N issue(s)", N > 0, is read through the fallback: a total of N and "Failed - N issue(s)" with N errors |
| KnipParser.KnipFoundFiveIssues | src/task/parsers/knip/parser.ts:14-31 | the printed "Found 5 issues" gives "Failed - 5 issues" with 5 errors |
| KnipParser.KnipClean | src/task/parsers/knip/parser.ts:7-26 | output with no parenthesis and no digit, such as "All clean", reports nothing |
| MarkdownLintParser.ParseMarkdownLint | src/config/parsers/markdownlint/parser.ts:3-21 | `parseMarkdownLint`, no contract of its own; MarkdownLintRoundTrip reads the printed summary back (N errors for N > 0, nothing for 0) and MarkdownLintEmpty covers empty output |
| MarkdownLintParser.SummaryAtText | src/config/parsers/markdownlint/parser.ts:6 | the pattern matches the printed "Summary: N error(s)" and yields N |
| MarkdownLintParser.CountAtText | src/config/parsers/markdownlint/parser.ts:6 | the `(\d+)\s*error\(s\)` part reads back the printed count |
| MarkdownLintParser.MarkdownLintRoundTrip | src/config/parsers/markdownlint/parser.ts:3-21 | the printed summary parses to N errors for N > 0 and to no failure for 0 |
| MarkdownLintParser.MarkdownLintEmpty | src/config/parsers/markdownlint/parser.ts:20 | empty output reports nothing |
| NpmAuditParser.ParseNpmAudit | src/task/parsers/npm-audit/parser.ts:3-39 | `parseNpmAudit`, with the exception as an error result, no contract of its own; NpmAuditRoundTrip, NpmAuditBareRoundTrip, NpmAuditNoBreakdown, NpmAuditNoneFound, NpmAuditZeroFallback, NpmErrMention, VulnMention and NpmAuditQuiet cover each branch from printed text |
| NpmAuditParser.BreakdownAt | src/task/parsers/npm-audit/parser.ts:5 | the `\(([^)]+)\)` group captures non-empty text without a `)` |
| NpmAuditParser.SplitCommas | src/task/parsers/npm-audit/parser.ts:15 | `split(/,\s*/)` always yields at least one piece |
| NpmAuditParser.TrimStartAll | src/task/parsers/npm-audit/parser.ts:15 | stripping the whitespace after each comma keeps the number of pieces |
| NpmAuditParser.BreakdownEntries | src/task/parsers/npm-audit/parser.ts:14-19 | the breakdown entries are non-empty, carry no outer whitespace, and are no more than the pieces |
| NpmAuditParser.TrimAfterTrimStart | src/task/parsers/npm-audit/parser.ts:15-18 | trimming a piece whose leading whitespace was already stripped gives the same as trimming the original |
| NpmAuditParser.TrimmedNonEmptyTrimStart | src/task/parsers/npm-audit/parser.ts:15-19 | the `\s*` of the separator changes no trimmed, non-empty entry |
| NpmAuditParser.BreakdownSplitOn | src/task/parsers/npm-audit/parser.ts:14-19 | the breakdown equals the trimmed non-empty pieces between plain commas |
| NpmAuditParser.BreakdownAtText | src/task/parsers/npm-audit/parser.ts:5 | a printed " (b)" with b free of `)` is captured as b |
| NpmAuditParser.VulnWordText | src/task/parsers/npm-audit/parser.ts:5 | the pattern for the word after the count accepts both "vulnerability" and "vulnerabilities" |
| NpmAuditParser.CoreAtText | src/task/parsers/npm-audit/parser.ts:5 | the count, word and breakdown parts read back the printed summary |
| NpmAuditParser.SummaryAtText | src/task/parsers/npm-audit/parser.ts:5 | the whole pattern, with the optional "found " prefix, matches the printed summary |
| NpmAuditParser.NpmAuditRoundTrip | src/task/parsers/npm-audit/parser.ts:3-28 | "found N vulnerabilities (b)" parses to N errors and b's breakdown whatever follows, so a later "0 vulnerabilities" is ignored |
| NpmAuditParser.NpmAuditBareRoundTrip | src/task/parsers/npm-audit/parser.ts:3-28 | the summary without the "found" prefix, "N vulnerabilities (b)", is read back whatever follows: nothing for 0, otherwise N errors and the breakdown of b |
| NpmAuditParser.NpmAuditNoBreakdown | src/task/parsers/npm-audit/parser.ts:5-15 | a printed "N vulnerabilities" with N > 0 and no parenthesised breakdown after it ends in the exception of `summary[2].split` on the missing group |
| NpmAuditParser.TwoEntryBreakdown | src/task/parsers/npm-audit/parser.ts:14-20 | a breakdown "p, q" of two trimmed entries without commas lists p and q and shows as " (p, q)" |
| NpmAuditParser.NpmAuditThirteen | src/task/parsers/npm-audit/parser.ts:3-28 | the printed "13 vulnerabilities (6 moderate, 7 high)", whatever follows it, gives "Failed - 13 vulnerabilities (6 moderate, 7 high)" with 13 errors |
| NpmAuditParser.NoSummaryWithoutDigits | src/task/parsers/npm-audit/parser.ts:5-30 | output without a digit has neither a summary nor a "0 vulnerabilities" match |
| NpmAuditParser.NpmErrMention | src/task/parsers/npm-audit/parser.ts:34-36 | output without a digit that mentions "npm ERR!" fails with "Failed - vulnerabilities detected" and 1 error |
| NpmAuditParser.VulnMention | src/task/parsers/npm-audit/parser.ts:34-36 | output without a digit that mentions "vulnerabilit" fails with "Failed - vulnerabilities detected" and 1 error |
| NpmAuditParser.NpmAuditQuiet | src/task/parsers/npm-audit/parser.ts:3-38 | output with no digit, no "!" and no "v" reports nothing and throws nothing |
| NpmAuditParser.NpmAuditZeroFallback | src/task/parsers/npm-audit/parser.ts:30-32 | "0 vulnerabilitie" not followed by "s" is no summary, and the zero check still makes it report nothing although it mentions vulnerabilities |
| NpmAuditParser.NpmAuditNoneFound | src/task/parsers/npm-audit/parser.ts:3-12 | the printed "found 0 vulnerabilities" reports nothing, whatever follows |
| NpmOutdatedParser.DropCRAll | src/config/parsers/npm-outdated/parser.ts:12 | dropping a trailing `\r` from each piece of `split("\n")` keeps the number of pieces |
| NpmOutdatedParser.FindIndex | src/config/parsers/npm-outdated/parser.ts:24-26 | the index is the first line satisfying the test, or the length when none does |
| NpmOutdatedParser.RowAt | src/config/parsers/npm-outdated/parser.ts:4 | a row match's package name is a non-empty prefix of the line |
| NpmOutdatedParser.Outdated | src/config/parsers/npm-outdated/parser.ts:29-52 | the `reduce` collects no more packages than lines |
| NpmOutdatedParser.CollectOutdated | src/config/parsers/npm-outdated/parser.ts:29-52 | the loop pushing each outdated package yields exactly the packages of the specification, in order |
| NpmOutdatedParser.ParseNpmOutdated | src/config/parsers/npm-outdated/parser.ts:6-64 | the blank check, line clean-up, header search and `reduce` give the specified verdict |
| NpmOutdatedParser.BlankOutput | src/config/parsers/npm-outdated/parser.ts:7-9 | whitespace-only output reports nothing |
| NpmOutdatedParser.DataLinesAfterHeader | src/config/parsers/npm-outdated/parser.ts:24-27 | with a header line at k (the first one), the data lines are those after it |
| NpmOutdatedParser.DataLinesWithoutHeader | src/config/parsers/npm-outdated/parser.ts:27 | without a header every line is a data line |
| NpmOutdatedParser.LinesTrimmed | src/config/parsers/npm-outdated/parser.ts:11-18 | every cleaned line is non-empty and has no outer whitespace |
| NpmOutdatedParser.OutdatedConcat | src/config/parsers/npm-outdated/parser.ts:29-52 | the `reduce` works line by line: the packages of two blocks of lines are those of each, in order |
| NpmOutdatedParser.LineIgnored | src/config/parsers/npm-outdated/parser.ts:29-52 | a line that reports nothing can be removed without changing the packages |
| NpmOutdatedParser.NpmLineIgnored | src/config/parsers/npm-outdated/parser.ts:31-37 | blank lines and lines starting with "npm" and whitespace are never counted |
| NpmOutdatedParser.CountedLine | src/config/parsers/npm-outdated/parser.ts:39-49 | a counted line matches the row pattern and its current and wanted columns differ |
| NpmOutdatedParser.VerdictCases | src/config/parsers/npm-outdated/parser.ts:54-63 | no packages report nothing; K packages give "Failed - K outdated package(s)" with K errors |
| NpmOutdatedParser.NextTokenOf | src/config/parsers/npm-outdated/parser.ts:4 | `\s+([^\s]+)` reads one whitespace-free column |
| NpmOutdatedParser.RowAtText | src/config/parsers/npm-outdated/parser.ts:4 | a printed four-column row reads back its package, current and wanted columns |
| NpmOutdatedParser.LinesOfJoin | src/config/parsers/npm-outdated/parser.ts:11-18 | printed lines that are non-empty, trimmed and free of line feeds, joined by "\n", are read back as exactly those lines |
| NpmOutdatedParser.HeaderLineIsHeader | src/config/parsers/npm-outdated/parser.ts:3 | npm's header "Package Current Wanted Latest" matches the header pattern, case aside |
| NpmOutdatedParser.PrintedLineRead | src/config/parsers/npm-outdated/parser.ts:29-49 | a printed row (package, current, wanted, latest, further columns) is a clean line, counted with its package exactly when current differs from wanted; a package named "npm" is excluded, since the notice test takes such a row for a notice |
| NpmOutdatedParser.OutdatedPrinted | src/config/parsers/npm-outdated/parser.ts:29-52 | over printed rows the `reduce` collects the packages whose current version differs from the wanted one, in order |
| NpmOutdatedParser.NpmOutdatedRoundTrip | src/config/parsers/npm-outdated/parser.ts:6-64 | for the header followed by any printed rows, the outdated packages are the rows whose current differs from wanted, in order, and the verdict counts them: nothing for none, else "Failed - K outdated package(s)" with K errors |
| NpmOutdatedParser.NpmOutdatedPinnedOnly | src/config/parsers/npm-outdated/parser.ts:24-63 | "Package Current Wanted Latest\nchalk 4.1.2 4.1.2 4.1.2" reports nothing, as the row's current equals its wanted version |
| NpmOutdatedParser.NoticeIgnored | src/config/parsers/npm-outdated/parser.ts:35-37 | a line "npm " + text is never counted and is not a header |
| NpmOutdatedParser.RowThenNotice | src/config/parsers/npm-outdated/parser.ts:11-63 | without a header, a printed row followed by an "npm …" notice gives the row's verdict alone |
| NpmOutdatedParser.NpmOutdatedHeaderless | src/config/parsers/npm-outdated/parser.ts:11-63 | the row "@scope/pkg 1.0.0 1.2.0 1.2.0 node_modules/@scope/pkg my-app" followed by "npm ERR! something happened" gives "Failed - 1 outdated package" with 1 error |
| NpmOutdatedParser.ChangedOne | src/config/parsers/npm-outdated/parser.ts:44-49 | a single row is reported exactly when its current version differs from the wanted one |
| PrettierParser.FormatCount | src/config/parsers/prettier/parser.ts:24-38 | the count's verdict always has a positive error count and no warnings |
| PrettierParser.ParsePrettier | src/config/parsers/prettier/parser.ts:3-22 | a reported failure always has positive errors and no warnings |
| PrettierParser.PrettierOrder | src/config/parsers/prettier/parser.ts:4-15 | the first of the three patterns found anywhere decides, whatever the later ones would find |
| PrettierParser.FirstOfThree | src/config/parsers/prettier/parser.ts:10-15 | the loop over three patterns returns the first one that matches |
| PrettierParser.FormatCountCases | src/config/parsers/prettier/parser.ts:27-37 | 0 gives "Failed" with one error; V > 0 gives "Failed - V file(s) with formatting issues" and V errors |
| PrettierParser.PrettierAboveFile | src/config/parsers/prettier/parser.ts:17-19 | the printed notice "Code style issues found in the above file", with no digit after it, gives "Failed - 1 file with formatting issues" and 1 error |
| PrettierParser.NotFormattedAtText | src/config/parsers/prettier/parser.ts:5 | the pattern after the file count accepts both "is not formatted" and "are not formatted", with any whitespace between the words |
| PrettierParser.NotFormattedCountText | src/config/parsers/prettier/parser.ts:5 | the first pattern reads back the printed file count |
| PrettierParser.PrettierRoundTrip | src/config/parsers/prettier/parser.ts:3-38 | "N file(s) are not formatted" is parsed back as N, whatever follows |
| PrettierParser.NoCountWithoutDigits | src/config/parsers/prettier/parser.ts:4-15 | output without a digit matches none of the three count patterns |
| PrettierParser.NoticeDecides | src/config/parsers/prettier/parser.ts:10-19 | when no count pattern matches, the "above file" notice gives one file with formatting issues |
| PrettierParser.SecondPatternDecides | src/config/parsers/prettier/parser.ts:10-15 | when the first pattern finds nothing, the second pattern's count decides |
| PrettierParser.ThirdPatternDecides | src/config/parsers/prettier/parser.ts:10-15 | when neither of the first two patterns finds anything, the third pattern's count decides |
| PrettierParser.StyleIssuesRoundTrip | src/config/parsers/prettier/parser.ts:6-15 | the printed "N file(s) with code style issues", with no digit after it, is read back as N |
| PrettierParser.FoundInRoundTrip | src/config/parsers/prettier/parser.ts:7-15 | the printed "Code style issues found in N file(s)" is read back as N when what follows neither continues the word nor holds a digit |
| TypeScriptParser.ErrorLineAt | src/task/parsers/typescript/parser.ts:25 | a captured file part is non-empty and starts with a non-space; ErrorLineAtText and ErrorLinePlural say which printed lines it reads |
| TypeScriptParser.ParseTypeCheck | src/task/parsers/typescript/parser.ts:3-58 | a reported failure always has positive errors and no warnings |
| TypeScriptParser.SummaryExtendsFallback | src/task/parsers/typescript/parser.ts:5-22 | where the summary pattern matches, the fallback pattern matches with the same count |
| TypeScriptParser.SummaryImpliesFallback | src/task/parsers/typescript/parser.ts:4-23 | a summary anywhere means the fallback is found, so the per-line count runs only without any "Found N error" text |
| TypeScriptParser.TypeCheckErrorLines | src/task/parsers/typescript/parser.ts:23-47 | without "Found N error" text, the errors are the error lines and the files their distinct names; no line means no failure |
| TypeScriptParser.ErrorLinesNamed | src/task/parsers/typescript/parser.ts:32-38 | every captured file part trims to a non-empty name, so `filter(Boolean)` drops nothing |
| TypeScriptParser.FileNamesBounds | src/task/parsers/typescript/parser.ts:32-39 | there are no more distinct files than lines, and at least one when a line has a name |
| TypeScriptParser.ErrorLineFiles | src/task/parsers/typescript/parser.ts:39-45 | the per-line verdict reports between 1 and the number of lines files |
| TypeScriptParser.TypeCheckThreeLinesTwoFiles | src/task/parsers/typescript/parser.ts:23-47 | the printed listing of three lines in src/a.ts, src/a.ts and src/b.ts gives "Failed - 3 errors in 2 files" with 3 errors |
| TypeScriptParser.FoundAtText | src/task/parsers/typescript/parser.ts:5 | `Found\s+(\d+)\s+errors?` reads back the printed error count |
| TypeScriptParser.InFilesAtText | src/task/parsers/typescript/parser.ts:5 | `\s+in\s+(\d+)\s+files?` reads back the printed file count |
| TypeScriptParser.SummaryAtText | src/task/parsers/typescript/parser.ts:5-22 | the printed summary matches both the summary and the fallback pattern, with the printed counts |
| TypeScriptParser.TypeCheckRoundTrip | src/task/parsers/typescript/parser.ts:3-58 | tsc's summary parses to E errors in F files for E > 0, and to no failure for "Found 0 errors" |
| TypeScriptParser.FallbackRoundTrip | src/task/parsers/typescript/parser.ts:22-57 | the printed "Found N error(s)" without "in F files" gives nothing for 0 and otherwise "Failed - N errors" with N errors |
| TypeScriptParser.CodeAtText | src/task/parsers/typescript/parser.ts:25 | `\s+error\s+TS\d+:` reads the printed " error TSn:" and leaves what follows the colon |
| TypeScriptParser.CodeAtPlural | src/task/parsers/typescript/parser.ts:25 | " errors TSn:" is not read: the pattern admits no plural |
| TypeScriptParser.ErrorLineAtText | src/task/parsers/typescript/parser.ts:25 | a printed line "file(l,c): error TSn:" is read and its file captured whole |
| TypeScriptParser.ErrorLinePlural | src/task/parsers/typescript/parser.ts:25 | a line that says "errors" in place of "error" is not an error line |
| TypeScriptParser.ListingLines | src/task/parsers/typescript/parser.ts:24-26 | from a line start, the global multi-line scan of a printed listing captures each line's file, in order |
| TypeScriptParser.TypeCheckListing | src/task/parsers/typescript/parser.ts:22-47 | a printed listing of error lines in which the "Found N error" pattern matches nowhere fails with one error per line, in as many files as the lines name; where it matches, the summary or fallback count decides instead (TypeCheckRoundTrip, FallbackRoundTrip) |
| TypeScriptParser.TypeCheckSharedFile | src/task/parsers/typescript/parser.ts:32-46 | a printed listing of three lines whose first two name the same file, with no "Found N error" text, gives "Failed - 3 errors in 2 files" |
| TypeScriptParser.ListingNoFallback | src/task/parsers/typescript/parser.ts:22 | a listing whose files and messages hold no "f" contains no "Found N error" text, so the error-line path is taken |
| VitestParser.ParseVitest | src/task/parsers/vitest/parser.ts:3-51 | a reported failure always has positive errors and no warnings |
| VitestParser.MessageBothCounts | src/task/parsers/vitest/parser.ts:38-45 | with both counts the message is "T test(s) failed in F file(s)" |
| VitestParser.MessageFilesOnly | src/task/parsers/vitest/parser.ts:38-45 | with only a file count the message body is empty |
| VitestParser.VitestOneFileTwoTests | src/task/parsers/vitest/parser.ts:16-50 | the printed summary "Test Files 1 failed" then "Tests 2 failed" gives 3 errors and "Failed - 2 tests failed in 1 file" |
| VitestParser.SuitesAtText | src/task/parsers/vitest/parser.ts:4 | the banner " Failed Suites N " is matched and yields N |
| VitestParser.VitestSuitesRoundTrip | src/task/parsers/vitest/parser.ts:3-14 | the printed failed-suite banner with N > 0 gives N errors |
| VitestParser.TestsAtText | src/task/parsers/vitest/parser.ts:17 | `Tests\s+(\d+)\s+failed` reads the printed test count |
| VitestParser.FilesAtText | src/task/parsers/vitest/parser.ts:16 | `Test Files\s+(\d+)\s+failed` reads the printed file count |
| VitestParser.VitestFilesTestsRoundTrip | src/task/parsers/vitest/parser.ts:16-50 | the printed summary "Test Files F failed" then "Tests T failed" gives nothing when both are 0, and otherwise F + T errors with "T test(s) failed in F file(s)" |
| VitestParser.VitestTestsRoundTrip | src/task/parsers/vitest/parser.ts:16-50 | the printed "Tests T failed" alone gives nothing for 0, and otherwise T errors with "T test(s) failed" |
| VitestParser.VitestNothingFailed | src/task/parsers/vitest/parser.ts:34-36 | the printed summary "Test Files 0 failed" then "Tests 0 failed" reports nothing |
| VitestParser.VitestFiveTests | src/task/parsers/vitest/parser.ts:16-50 | the printed "Tests 5 failed" gives "Failed - 5 tests failed" with 5 errors |
| VitestParser.FilesAtOnlyText | src/task/parsers/vitest/parser.ts:16 | `Test Files\s+(\d+)\s+failed` reads the printed file count back, whatever follows |
| VitestParser.NoTestsInFilesOnly | src/task/parsers/vitest/parser.ts:17 | "Test Files F failed" holds no match of `Tests\s+(\d+)\s+failed`, since its "Test" is followed by a space |
| VitestParser.VitestFileCount | src/task/parsers/vitest/parser.ts:19-50 | with no suite banner and no test count, a file count F gives F errors and the message "Failed - " for F > 0, and nothing for 0 |
| VitestParser.VitestFilesOnlyRoundTrip | src/task/parsers/vitest/parser.ts:16-50 | the printed "Test Files F failed" alone is read back: F > 0 fails with F errors and the bare message "Failed - ", 0 reports nothing |
| Helpers.DecorateLabel | src/helpers/helpers.ts:14-24 | `decorateLabel`, no contract of its own; DecorateLabelCases states when the asterisk is added |
| Helpers.SelectCommand | src/helpers/helpers.ts:35-50 | `selectCommand`, no contract of its own; SelectCommandPriority and SelectCommandEmptyAbsent state which command wins |
| Helpers.AddSilentFlag | src/helpers/helpers.ts:115-125 | `addSilentFlag`, no contract of its own; AddSilentFlagRun, AddSilentFlagUnchanged and AddSilentFlagIdempotent state the rewrite, when it leaves the command alone, and that it is idempotent |
| Helpers.StripAnsi | src/helpers/helpers.ts:134-136 | `stripAnsi`, no contract of its own; StripAnsiShorter, StripAnsiPlain, StripAnsiSgr, StripAnsiWrapped, StripAnsiAppend and StripAnsiClosed state what it removes and how it splits over concatenation |
| Helpers.CommandToRun | src/helpers/helpers.ts:67-73 | the empty-command guard of `runCommand`, no contract of its own; CommandToRunCases states it |
| Helpers.FormatDuration | src/helpers/helpers.ts:145-152 | `formatDuration`, no contract of its own; FormatDurationMs states the missing duration and the millisecond branch |
| Helpers.DecorateLabelCases | src/helpers/helpers.ts:14-24 | the asterisk is added exactly when the run is in loose mode and the step supports it; otherwise the label is unchanged |
| Helpers.SelectCommandPriority | src/helpers/helpers.ts:35-50 | a present fix command wins in fix mode, else a present loose command in loose mode, else the base command |
| Helpers.SelectCommandEmptyAbsent | src/helpers/helpers.ts:41-46 | an empty fix or loose command behaves as an absent one (JavaScript truthiness) |
| Helpers.ContainsAt | src/helpers/helpers.ts:120 | `includes` finds a piece placed anywhere in a string |
| Helpers.ReplaceRunMarks | src/helpers/helpers.ts:124 | replacing the first `npm\s+run\b` either changes nothing or leaves "--silent" in the command |
| Helpers.AddSilentFlagIdempotent | src/helpers/helpers.ts:115-125 | adding the flag to a command that went through `addSilentFlag` changes nothing more |
| Helpers.AddSilentFlagUnchanged | src/helpers/helpers.ts:116-122 | a command that is not an npm invocation, or already holds "--silent", is returned as it was |
| Helpers.ReplaceRunNone | src/helpers/helpers.ts:124 | a command with no `npm\s+run\b` anywhere, such as "npm audit", is unchanged by the replacement |
| Helpers.TrimKeepsHead | src/helpers/helpers.ts:116 | `trim` keeps a string's head up to any later non-space when the string starts with a non-space |
| Helpers.RunTextIsNpm | src/helpers/helpers.ts:116 | "npm run …" passes the `/^npm\b/` test |
| Helpers.RunAtText | src/helpers/helpers.ts:124 | `npm\s+run\b` matches "npm run" when no word character follows |
| Helpers.AddSilentFlagRun | src/helpers/helpers.ts:115-125 | "npm run" without "--silent" becomes "npm run --silent" followed by the rest, unchanged |
| Helpers.StopIndex | src/helpers/helpers.ts:135 | the lazy `.*?m` stops at the first `m` or line terminator |
| Helpers.EscapeAt | src/helpers/helpers.ts:135 | an escape-sequence match consumes at least one character |
| Helpers.StripAnsiShorter | src/helpers/helpers.ts:134-136 | stripping never lengthens the text |
| Helpers.StripAnsiPlain | src/helpers/helpers.ts:134-136 | text without an escape character is unchanged |
| Helpers.StripAnsiPrefix | src/helpers/helpers.ts:134-136 | an escape-free prefix is kept and the global scan goes on after it |
| Helpers.StripAnsiSgr | src/helpers/helpers.ts:135 | a colour sequence ESC [ p m is removed whole, whatever follows it |
| Helpers.StripAnsiWrapped | src/helpers/helpers.ts:134-136 | text between an opening and a closing colour sequence comes back exactly |
| Helpers.StripAnsiAppend | src/helpers/helpers.ts:134-136 | text that can neither start, continue nor end a colour sequence, such as padding spaces, passes through `stripAnsi` after what is left of the text before it |
| Helpers.StripAnsiClosed | src/helpers/helpers.ts:134-136 | a text whose escapes all start complete sequences is stripped on its own: nothing runs on into what follows |
| Helpers.ClosedConcat | src/helpers/helpers.ts:135 | two texts with complete sequences make one |
| Helpers.ClosedPlain | src/helpers/helpers.ts:135 | a text without escapes has complete sequences |
| Helpers.ClosedSgr | src/helpers/helpers.ts:135 | one SGR sequence is complete and strips to nothing |
| Helpers.CommandToRunCases | src/helpers/helpers.ts:67-73 | a blank command is refused with "No command configured for this step"; otherwise the trimmed command gets the silent flag |
| Helpers.FormatDurationMs | src/helpers/helpers.ts:145-152 | no duration prints "", and d under 1000 prints its digits, which read back as d, followed by " ms" |
| LegacyHelpers.SelectCommand | src/helpers.ts:33-43 | the older `selectCommand`, no contract of its own; SelectCommandCases states it |
| LegacyHelpers.AppendLooseSuffix | src/helpers.ts:52-74 | the `:loose` rewrite, no contract of its own; LooseNpmRun, LooseNpmRunIdempotent, LooseTokens (any number of tokens), LooseOneWord, LooseTwoWords and LooseEmpty state it for each shape of command |
| LegacyHelpers.Gap | src/helpers.ts:53 | a `\s+` gap is non-empty whitespace taken greedily, so what follows it starts with a non-space |
| LegacyHelpers.NpmRunMatch | src/helpers.ts:53 | a match of `/^(npm\s+run\s+)(\S+)(.*)$/` rebuilds the command from its groups; the script is a token and the suffix one line starting with whitespace or empty |
| LegacyHelpers.ScriptAt | src/helpers.ts:53 | the `(\S+)(.*)$` part splits the text into a whole token and a one-line suffix |
| LegacyHelpers.SplitWs | src/helpers.ts:62 | `split(/\s+/)` always yields at least one part |
| LegacyHelpers.SelectCommandCases | src/helpers.ts:33-43 | the older `selectCommand` appends the loose suffix exactly when loose mode is on and the step supports it |
| LegacyHelpers.GapOf | src/helpers.ts:53 | a gap of whitespace followed by a non-space is read back whole |
| LegacyHelpers.NpmRunMatchText | src/helpers.ts:53 | the npm-run pattern reads its groups back from the text they make up |
| LegacyHelpers.TokenConcat | src/helpers.ts:59 | a token with ":loose" appended is still a token |
| LegacyHelpers.TaggedText | src/helpers.ts:59 | the tagged command is the prefix group, the script, ":loose" and the suffix group |
| LegacyHelpers.LooseNpmRun | src/helpers.ts:53-60 | "npm run S rest" becomes "npm run S:loose rest" with the gaps and rest kept, and is unchanged when S already ends in ":loose" |
| LegacyHelpers.LooseNpmRunIdempotent | src/helpers.ts:53-60 | on an npm-run command, appending the loose suffix twice gives the same as once |
| LegacyHelpers.NpmRunShape | src/helpers.ts:53 | where the two whitespace gaps of an npm-run text lie |
| LegacyHelpers.SplitWsTokens | src/helpers.ts:62 | the parts of a trimmed command are all whitespace-free and non-empty |
| LegacyHelpers.LooseOneWord | src/helpers.ts:62-73 | a single word gets ":loose" appended unless it already ends with it |
| LegacyHelpers.SplitWsTwo | src/helpers.ts:62 | two tokens with any gap between them split into exactly those two tokens |
| LegacyHelpers.TwoWordsNoRun | src/helpers.ts:53 | two tokens are not an npm-run command |
| LegacyHelpers.TagLastPartTwo | src/helpers.ts:67-73 | with two parts, the last gets ":loose" and the parts are joined by one space, unless it already has the tag |
| LegacyHelpers.LooseTwoWords | src/helpers.ts:52-74 | two tokens with any gap: the gap becomes one space and the tag goes on the last token, unless it is already there |
| LegacyHelpers.SplitWsSpread | src/helpers.ts:62 | `split(/\s+/)` gives back the tokens of a command whatever whitespace separates them |
| LegacyHelpers.WordThenGapFails | src/helpers.ts:53 | a token other than "npm" (or "run") is not that word followed by whitespace |
| LegacyHelpers.SpreadNoRun | src/helpers.ts:53 | a command that does not start with the tokens "npm", "run" and a script does not match the npm-run pattern |
| LegacyHelpers.LooseTokens | src/helpers.ts:62-73 | any number of tokens with any gaps, whenever the npm-run pattern does not match: the gaps become single spaces and ":loose" goes on the last token, unless it already ends with it (then the command is unchanged) |
| LegacyHelpers.NpmRunLineBreak | src/helpers.ts:53 | "npm run S" followed by a gap holding a line terminator does not match the npm-run pattern, since `(.*)$` cannot cross a line break |
| LegacyHelpers.LooseAfterLineBreak | src/helpers.ts:53-73 | such a command takes the whitespace branch: its gaps become single spaces and ":loose" goes on its last token, not on the script |
| LegacyHelpers.LooseEmpty | src/helpers.ts:62-73 | an empty command becomes ":loose", since splitting "" gives one empty part |
| SuiteRunner.StepOutcome | dist/index.js:40-45 | a run step ends either in success or in failure, never pending or running |
| SuiteRunner.FailuresUpTo | dist/index.js:33-49 | the first n steps leave at most n failure records |
| SuiteRunner.TraceUpTo | dist/index.js:33-49 | the first n steps make exactly two status updates each |
| SuiteRunner.Finals | dist/index.js:33-49 | one final status per step run |
| SuiteRunner.Timed | dist/index.js:35-37 | one duration per step run |
| SuiteRunner.SuiteRun.constructor | dist/index.js:23-32 | every row starts pending with an empty message and no duration, nothing is counted, the suite is unfinished and the table has been rendered once |
| SuiteRunner.SuiteRun.UpdateStatus | dist/index.js:54-57 | only the given row's status changes, and the table is rendered once more |
| SuiteRunner.SuiteRun.RecordIssueCounts | dist/index.js:58-71 | the totals grow by the step's issue delta and nothing else changes |
| SuiteRunner.SuiteRun.RunStep | dist/index.js:33-49 | the row goes to running and then to its outcome, its duration is recorded, a failing step appends its label and output and adds its issues, and the table is rendered twice |
| SuiteRunner.SuiteRun.Run | dist/index.js:32-51 | after the pass every row holds its step's outcome and duration, the failures and totals are those of all steps in order, the suite is finished and the table was rendered 2N + 1 times |
| SuiteRunner.SuiteRun.ExitCode | dist/index.js:53 | the exit code is 1 exactly when some failure was recorded, else 0 |
| SuiteRunner.StepOutcomeCases | dist/index.js:40-45 | a step succeeds exactly when its command exits with 0 and its parser reports nothing; a failing step shows the parser's message, or the default text when there is no parse result |
| SuiteRunner.IssueDeltaCases | dist/index.js:58-71 | no parse result, or one with no errors and no warnings, counts one error; otherwise the reported counts are added; every failure adds at least one issue |
| SuiteRunner.WarningsOnly | dist/index.js:63-70 | a result with warnings and no errors adds its warnings and no error |
| SuiteRunner.IssuesIffFailures | dist/index.js:40-90 | after any number of steps there are issues exactly when a failure was recorded |
| SuiteRunner.FailuresOfFailing | dist/index.js:40-46 | there is no failure record exactly when every step passed |
| SuiteRunner.RanNext | dist/index.js:33-49 | one turn of the loop takes the state after i steps to the state after i + 1 steps |
| SuiteRunner.FinalsAt | dist/index.js:41-45 | row i holds step i's outcome |
| SuiteRunner.TimedAt | dist/index.js:37 | row i holds step i's duration |
| SuiteRunner.TraceOrder | dist/index.js:33-49 | row i is set running and then to its final state before row i + 1 is touched |
| SuiteRunner.OverallIcon | dist/index.js:91-95 | the overall icon is running until the suite finishes, then success exactly when there are no issues |
| SuiteRunner.BreakdownParts | dist/index.js:97-103 | one part for each positive count |
| SuiteRunner.BreakdownCases | dist/index.js:97-104 | the breakdown is empty without issues, names only the positive counts, and puts ", " between errors and warnings when both are present |
| SuiteRunner.PartsCount | dist/index.js:99-102 | each part begins with the decimal count, followed by a space and the noun, singular exactly for 1 |
| SuiteRunner.CountThenNoun | dist/index.js:99-108 | "N noun" reads back as the count N followed by " " and the noun |
| SuiteRunner.OverallDurationConcat | dist/index.js:96 | the overall duration of two runs of rows is the sum of theirs |
| SuiteRunner.OverallDurationPending | dist/index.js:96 | rows without a duration add up to 0 |
| SuiteRunner.Icon | dist/index.js:17-22 | the status glyphs; no contract of its own, IconsDistinct states them |
| SuiteRunner.IconsDistinct | dist/index.js:17-22 | each state has its own icon: two blanks while pending, one glyph otherwise |
| SuiteRunner.RowLabel | dist/index.js:84 | a row's first cell; no contract of its own, RowLabelReads states it |
| SuiteRunner.RowLabelReads | dist/index.js:84 | a row's first cell is the state's icon, a space and the step's label, so for one step it tells the states apart |
| SuiteRunner.OverallMessage | dist/index.js:108 | the overall row's text; no contract of its own, OverallMessageCases and the examples below state it |
| SuiteRunner.OverallMessageCases | dist/index.js:89-108 | the overall text begins with the number of errors and warnings together, read back from its digits, then " issue" (singular exactly for 1) or " issues", then the breakdown |
| SuiteRunner.OverallNoIssues | dist/index.js:89-108 | no errors and no warnings give "0 issues" |
| SuiteRunner.OverallOneError | dist/index.js:89-108 | one error gives "1 issue (1 error)" |
| SuiteRunner.OverallErrorsAndWarning | dist/index.js:89-108 | two errors and one warning give "3 issues (2 errors, 1 warning)" |
| SuiteRunner.RowMessage | dist/index.js:82 | a pending row shows no message and any other row its status message |
| SuiteRunner.CombinedCases | dist/index.js:38 | both outputs are kept, stdout first with one newline between, and an empty one is dropped |
| SuiteRunner.Combined | dist/index.js:38 | the joined and stripped output, no contract of its own; CombinedCases states which outputs it keeps and in what order |
| SuiteRunner.UpdateFirst | dist/index.js:55 | updating the first pending row appends to the finished rows |
| TaskExecution.TotalIssues | src/task/execute.ts:36-40 | the issue total of `runTasks`, no contract of its own; TotalIssuesConcat, TotalIssuesSplit and TotalIssuesZero state how it adds up |
| TaskExecution.TotalIssuesConcat | src/task/execute.ts:36-40 | no tasks give 0 issues, and the `reduce` over two lists put together is the sum of their totals |
| TaskExecution.SumsConcat | src/task/execute.ts:36-40 | the error and warning sums of two lists put together are the sums of each |
| TaskExecution.TotalIssuesSplit | src/task/execute.ts:36-40 | the total is all errors plus all warnings, whatever the order of the tasks |
| TaskExecution.TotalIssuesZero | src/task/execute.ts:36-40 | the total is 0 exactly when no task reports an error or a warning |
| TaskExecution.TotalIssuesExample | src/task/execute.ts:36-40 | tasks with (1, 0), (0, 2) and (3, 1) give 7 issues |
| TaskExecution.Executions | src/task/execute.ts:17-26 | the `map` calls `execute` once per task |
| TaskExecution.Renders | src/task/execute.ts:19-24 | one render per callback fired |
| TaskExecution.TaskRun.RenderTasks | src/task/execute.ts:14-23 | a render appends one render event of the list and the options |
| TaskExecution.TaskRun.RunTasks | src/task/execute.ts:13-28 | a run appends the first render, each task's `execute` in list order, then one render per callback |
| TaskExecution.RenderCountConcat | src/task/execute.ts:13-28 | render and `execute` counts of two traces put together add up |
| TaskExecution.ExecutionsCounts | src/task/execute.ts:17-26 | the `map` renders nothing itself and calls each of the first n tasks exactly once |
| TaskExecution.RendersCounts | src/task/execute.ts:19-24 | m callbacks give m renders and no `execute` call |
| TaskExecution.RunTraceCounts | src/task/execute.ts:13-28 | a run renders first, renders 1 + (number of callbacks) times, and calls each task's `execute` exactly once |
| TaskExecution.RunTraceRenders | src/task/execute.ts:14-23 | every render of a run is of the same task list with the same options |
| TaskExecution.ExecutionsAreCalls | src/task/execute.ts:17-26 | the `map` produces only `execute` calls |
| TaskExecution.RendersAgree | src/task/execute.ts:19-24 | every callback render is of the same list and options |
| TaskExecution.AllHooks | src/task/execute.ts:19-24 | each of n tasks firing its start and finish once makes 2n callbacks |
| TaskExecution.FullRunRenders | src/task/execute.ts:13-28 | when each of N tasks starts and finishes once, in any interleaving, the run renders 1 + 2N times |
| TaskWatcher.Step | src/task/watcher.ts:17-29 | one event of the single-flight guard, no contract of its own; StepSingleFlight, DroppedWhileRunning, SettledThenRerun and AnyKindReruns state it |
| TaskWatcher.Replay | src/task/watcher.ts:17-29 | a sequence of guard events, no contract of its own; ReplaySingleFlight, BurstDropped and OverlapScenario state it, and Watcher.Process follows it |
| TaskWatcher.IgnorePatternsCases | src/task/watcher.ts:39 | without a configured list the node_modules and .git trees are ignored; a configured list replaces them, so an empty one ignores nothing |
| TaskWatcher.IgnorePatterns | src/task/watcher.ts:39 | the `watchIgnore ??` default, no contract of its own; IgnorePatternsCases states it |
| TaskWatcher.ExitCode | src/task/watcher.ts:48-51 | the exit code is 1 exactly when the tasks hold any issue, else 0 |
| TaskWatcher.Watcher.constructor | src/task/watcher.ts:8 | the guard starts cleared, with no run started |
| TaskWatcher.Watcher.StartWatcher | src/task/watcher.ts:37-46 | the watcher is set up with the chosen ignore list and starts no run |
| TaskWatcher.Watcher.OnFileEvent | src/task/watcher.ts:17-23 | a file event while running is dropped; otherwise it sets the flag and starts one run |
| TaskWatcher.Watcher.OnRunSettled | src/task/watcher.ts:24-28 | the `finally` clears the flag whether the run resolved or threw |
| TaskWatcher.Watcher.Process | src/task/watcher.ts:17-29 | handling events one by one leaves the guard in the state the event replay specifies |
| TaskWatcher.DroppedWhileRunning | src/task/watcher.ts:18-20 | a file event during a run changes nothing: no queueing, no second run |
| TaskWatcher.AnyKindReruns | src/task/watcher.ts:44-46 | every kind of file event has the same effect, and when idle starts exactly one run |
| TaskWatcher.SettledThenRerun | src/task/watcher.ts:17-29 | after a run settles, normally or by a throw, the flag is clear and the next event starts exactly one run |
| TaskWatcher.StepSingleFlight | src/task/watcher.ts:17-29 | every event keeps at most one run in flight and never lowers the counts |
| TaskWatcher.ReplaySingleFlight | src/task/watcher.ts:17-29 | any sequence of events keeps at most one run in flight |
| TaskWatcher.BurstDropped | src/task/watcher.ts:18-20 | any burst of file events during a run leaves the state as it was |
| TaskWatcher.OverlapScenario | src/task/watcher.ts:17-29 | two events during one run start one run, and an event after it settles starts a second |
| RunOptionsParser.InlineValue | src/runOptions/runOptions.ts:46 | `arg.split("=", 2)[1]`: the second piece of splitting the argument at "=", which is the whole text after "--config=" up to the next "=" or the end |
| RunOptionsParser.StepAt | src/runOptions/runOptions.ts:22-63 | a turn of the loop that goes on always moves past at least one argument |
| RunOptionsParser.ParseArgs | src/runOptions/runOptions.ts:14-66 | the outcome of `getRunOptions` as a function of the arguments, no contract of its own; GetRunOptions is proved equal to it, and NoArguments, ExitWins, FlagsThen, ConfigMissing, ConfigSeparate, ConfigInline and UnknownArgument state its cases |
| RunOptionsParser.GetRunOptions | src/runOptions/runOptions.ts:14-66 | the loop over the arguments returns exactly the outcome of the specification: options, an exit with code 0, or the thrown message |
| RunOptionsParser.NoArguments | src/runOptions/runOptions.ts:17-20 | no arguments give every mode off and no config path |
| RunOptionsParser.ExitWins | src/runOptions/runOptions.ts:25-30 | "--help"/"-h" or "--version"/"-v" ends parsing with code 0, whatever follows it |
| RunOptionsParser.FlagsThen | src/runOptions/runOptions.ts:54-59 | "--silent", "--fix" and "--watch" only switch their mode on and parsing goes on with the next argument |
| RunOptionsParser.ShiftFrom | src/runOptions/runOptions.ts:22 | parsing from index d reads the same as parsing the arguments with the first d dropped |
| RunOptionsParser.StepShift | src/runOptions/runOptions.ts:23-32 | a turn reads only the argument at its index and the one after it |
| RunOptionsParser.ShiftAt | src/runOptions/runOptions.ts:22 | dropping a prefix of the arguments shifts every later index alike |
| RunOptionsParser.FlagRepeat | src/runOptions/runOptions.ts:54-59 | repeating a flag changes nothing |
| RunOptionsParser.ConfigMissing | src/runOptions/runOptions.ts:31-36 | "--config" without a present, non-empty value that does not start with "-" fails with "Missing value for --config" |
| RunOptionsParser.ConfigSeparate | src/runOptions/runOptions.ts:38-44 | a second "--config V" fails with "Multiple configs provided"; otherwise it sets the path and skips the value |
| RunOptionsParser.ConfigInline | src/runOptions/runOptions.ts:45-53 | "--config=V" fails on an empty V and otherwise sets the path, overriding an earlier one |
| RunOptionsParser.ConfigInlineSecondEq | src/runOptions/runOptions.ts:45-53 | "--config=V=W" keeps only V: it fails when V is empty and otherwise sets the path to V |
| RunOptionsParser.ConfigInlineExample | src/runOptions/runOptions.ts:45-53 | the single argument "--config=a=b" sets the config path to "a" |
| RunOptionsParser.UnknownArgument | src/runOptions/runOptions.ts:60-62 | any other argument fails with "Unknown option: " and its text |
| RunOptionsParser.ConfigPathNonEmpty | src/runOptions/runOptions.ts:34-52 | a successful parse never holds an empty config path |
| UserConfig.IsUserTaskConfig | src/config/config.ts:113-124 | `isUserTaskConfig`, no contract of its own; AsUserTaskValid, NonEmptyStringIff and OptionalStringCases state what it accepts |
| UserConfig.IsUserFileConfig | src/config/config.ts:132-140 | `isUserFileConfig`, no contract of its own; FileConfigRejects and FileConfigAccepts state both directions |
| UserConfig.LoadUserConfig | src/config/config.ts:174-195 | the steps of `loadUserConfig` after loading, no contract of its own; LoadUserConfigCases states them and MergeAll, MergeAllOrder and MergeAllFirstError the merge |
| UserConfig.Prop | src/config/config.ts:119-122 | reading a property an object does not have gives `undefined` |
| UserConfig.AsUserTaskValid | src/config/config.ts:113-124 | a valid entry gives a task whose tool and command hold a non-whitespace character, and whose optional commands are present exactly when set, and then non-blank |
| UserConfig.MergeTaskConfig | src/config/config.ts:149-166 | the merge fails exactly when the tool has no default |
| UserConfig.MergeAll | src/config/config.ts:189-192 | a successful `map` gives one task per entry |
| UserConfig.NonEmptyStringIff | src/config/config.ts:93-95 | a string is non-empty after `trim` exactly when it has a character other than whitespace |
| UserConfig.OptionalStringCases | src/config/config.ts:103-105 | `undefined` passes as an optional string; "" and every non-string value fail |
| UserConfig.RecordCases | src/config/config.ts:83-85 | arrays, `null` and `undefined` are not records; an object is |
| UserConfig.IsRecord | src/config/config.ts:83-85 | `isRecord`, no contract of its own; RecordCases states that arrays, `null` and `undefined` are not records and an object is |
| UserConfig.IsNonEmptyString | src/config/config.ts:93-95 | `isNonEmptyString`, no contract of its own; NonEmptyStringIff states it holds exactly for a string with a non-whitespace character |
| UserConfig.IsOptionalString | src/config/config.ts:103-105 | `isOptionalString`, no contract of its own; OptionalStringCases states that `undefined` passes and "" and non-strings fail |
| UserConfig.IsFalsy | src/config/config.ts:179 | `!exportedConfig`, no contract of its own; TruthyValues and LoadUserConfigCases state which values count as nothing exported |
| UserConfig.TruthyValues | src/config/config.ts:179-181 | only the falsy values stop the load early: objects and arrays, even empty ones, `true`, non-zero numbers and non-empty strings go on to the shape check, while `undefined` and `null` do not |
| UserConfig.DefaultTable | src/config/config.ts:13-17 | `DEFAULT_TASKS`, no contract of its own; DefaultTableHas and DefaultTableLast state which names it holds and which entry each maps to |
| UserConfig.FileConfigRejects | src/config/config.ts:132-140 | `{ tasks: {} }` is rejected, and so is a task array holding one invalid entry |
| UserConfig.FileConfigAccepts | src/config/config.ts:132-140 | a task array of valid entries is accepted |
| UserConfig.MergeUnknown | src/config/config.ts:150-156 | a tool without a default fails with `Unknown tool "T" found in .is-it-ready.config` |
| UserConfig.MergeKnown | src/config/config.ts:158-165 | label, tool and parser come from the default; command, loose and fix command from the user |
| UserConfig.DefaultTableHas | src/config/config.ts:13-17 | a tool name is in the default table exactly when some built-in task has it |
| UserConfig.DefaultTableLast | src/config/config.ts:13-17 | the table maps a name to the last built-in task with that name, as `new Map` keeps the later entry |
| UserConfig.MergeAllOrder | src/config/config.ts:189-192 | the mapped tasks exist exactly when every tool is known, and then are the entries' merges, one per entry and in order |
| UserConfig.MergeAllFirstError | src/config/config.ts:189-192 | a failing `map` fails with the error of the first entry whose tool is unknown |
| UserConfig.LoadUserConfigCases | src/config/config.ts:174-195 | nothing exported gives `null`; an invalid shape throws the "Invalid is-it-ready config" error; a valid file gives one task per entry exactly when every tool is known |
| ParserRegistry.Find | src/parsers/registry.ts:12-14 | the intended lookup finds a parser exactly for a registered name, and it is that name's parser |
| ParserRegistry.FindAsWritten | src/parsers/registry.ts:3-14 | `registry[name]` on a plain `{}`: an own entry exactly for a registered name, and an inherited member for an unregistered name of `Object.prototype` |
| ParserRegistry.Registry.Register | src/parsers/registry.ts:5-10 | registering sets the name's entry, the name then finds that parser, and every other name finds what it found before |
| ParserRegistry.RegisterThenFind | src/parsers/registry.ts:5-14 | after registering, the name finds the new parser and other names are unaffected |
| ParserRegistry.RegisterOverwrites | src/parsers/registry.ts:9 | registering a name again overwrites: the later parser is found |
| ParserRegistry.FindMissing | src/parsers/registry.ts:12-14 | a name never registered looks up as absent |
| ParserRegistry.ProxyGetAgrees | src/parsers/registry.ts:19-24 | `parserMap[k]` is `getParser(k)` for a string key and `undefined` for a symbol |
| ParserRegistry.OwnKeysExact | src/parsers/registry.ts:25-27 | the proxy's keys are exactly the names that find a parser |
| ParserRegistry.DescriptorIff | src/parsers/registry.ts:28-38 | a descriptor exists exactly for a registered string key and describes that name's parser as configurable, enumerable and writable |
| ParserRegistry.AsWrittenAgrees | src/parsers/registry.ts:12-38 | outside the names `Object.prototype` holds, the lookup and the descriptor trap as written agree with the own-entry ones |
| ParserRegistry.InheritedNameFound | src/parsers/registry.ts:3-29 | with "toString" unregistered, the lookup as written finds the inherited method and the trap describes a key that `ownKeys` does not list |
| ParserRegistry.ProxyGet | src/parsers/registry.ts:19-24 | the `get` trap, no contract of its own; ProxyGetAgrees states it is the lookup for strings and `undefined` for symbols |
| ParserRegistry.OwnKeys | src/parsers/registry.ts:25-27 | the `ownKeys` trap, no contract of its own; OwnKeysExact states it holds exactly the registered names |
| ParserRegistry.OwnDescriptor | src/parsers/registry.ts:28-38 | the `getOwnPropertyDescriptor` trap with `in` read as an own-key test, no contract of its own; DescriptorIff states it |
| ParserRegistry.OwnDescriptorAsWritten | src/parsers/registry.ts:28-38 | the same trap as written, no contract of its own; AsWrittenAgrees and InheritedNameFound state where it differs |
| ParserRegistry.Registry.Get | src/parsers/registry.ts:12-14 | `getParser`, no contract of its own; Registry.Register and RegisterThenFind state what it finds after each registration, FindMissing what it finds for a name never registered |
| ParserRegistry.Registry.MapGet | src/parsers/registry.ts:19-24 | `parserMap[key]` on the registry, no contract of its own; ProxyGetAgrees states it |
| ParserRegistry.Registry.Keys | src/parsers/registry.ts:25-27 | the proxy's keys on the registry, no contract of its own; OwnKeysExact states them |
| TableRenderer.IsFullWidthCodePoint | src/renderers/tableRenderer/index.ts:153-177 | `isFullWidthCodePoint`, no contract of its own; FullWidthCases states its ranges |
| TableRenderer.DisplayWidth | src/renderers/tableRenderer/index.ts:115-144 | `getDisplayWidth`, no contract of its own; DisplayWidthIs, DisplayWidthConcat, DisplayWidthPlain and DisplayWidthExamples state it |
| TableRenderer.PadCell | src/renderers/tableRenderer/index.ts:99-107 | `padCell`, no contract of its own; PadCellWidth and PadCellExamples state it |
| TableRenderer.RenderBorder | src/renderers/tableRenderer/index.ts:65-75 | `renderBorder`, no contract of its own; BorderWidth and BorderExamples state it |
| TableRenderer.RenderRow | src/renderers/tableRenderer/index.ts:84-90 | `renderRow`, no contract of its own; RowWidth and RowExample state it |
| TableRenderer.RenderTable | src/renderers/tableRenderer/index.ts:21-56 | `renderTable`, no contract of its own; TableLayout states its lines and TableAligned their equal display width |
| TableRenderer.CodePointWidth | src/renderers/tableRenderer/index.ts:135-143 | a code point takes 2 cells exactly when it is full width or pictographic, else 1 |
| TableRenderer.PaddedCells | src/renderers/tableRenderer/index.ts:85-87 | one padded cell per cell of the row |
| TableRenderer.Segments | src/renderers/tableRenderer/index.ts:70-72 | one horizontal run per column |
| TableRenderer.ColumnWidths | src/renderers/tableRenderer/index.ts:22-30 | one width per header |
| TableRenderer.RenderedRows | src/renderers/tableRenderer/index.ts:40-44 | one rendered line per row |
| TableRenderer.FullWidthCases | src/renderers/tableRenderer/index.ts:153-177 | `undefined` and 0 are not full width, nothing below U+1100 is, U+303F is not, U+1100 is, and nothing above U+3FFFD is |
| TableRenderer.WidthBounds | src/renderers/tableRenderer/index.ts:135-143 | a text takes between one and two cells per code point |
| TableRenderer.WidthOfNarrow | src/renderers/tableRenderer/index.ts:135-143 | a text of narrow code points takes one cell per code point |
| TableRenderer.WidthOfConcat | src/renderers/tableRenderer/index.ts:135-143 | the width of two texts put together is the sum of their widths |
| TableRenderer.DisplayWidthPlain | src/renderers/tableRenderer/index.ts:115-120 | text without colour sequences is measured as it stands |
| TableRenderer.DisplayWidthIs | src/renderers/tableRenderer/index.ts:115-144 | the display width is the width of the text once its colour sequences are stripped |
| TableRenderer.DisplayWidthConcat | src/renderers/tableRenderer/index.ts:115-144 | a text with complete sequences is measured apart from what follows it |
| TableRenderer.BoldWidth | src/renderers/tableRenderer/index.ts:35 | `chalk.bold` adds no display width and keeps the sequences complete |
| TableRenderer.DisplayWidthExamples | src/renderers/tableRenderer/index.ts:115-144 | "" is 0 wide, "abc" 3, and a pictograph such as "✅" 2 |
| TableRenderer.WidthOfRepeat | src/renderers/tableRenderer/index.ts:106 | n copies of a text are n times as wide |
| TableRenderer.DrawableWidths | src/renderers/tableRenderer/index.ts:89 | the space, "─" and the cell separators "│ ", " │", " │ " are 1, 1, 2, 2 and 3 cells wide |
| TableRenderer.BorderCharsWidths | src/renderers/tableRenderer/index.ts:6-10 | every corner and joint of a border is one cell wide, and each border is filled with "─" |
| TableRenderer.PadCellWidth | src/renderers/tableRenderer/index.ts:99-107 | a padded cell keeps the value as its prefix and adds only spaces; its display width is the larger of the value's display width and the column's, colour sequences included, and it keeps the value's sequences complete |
| TableRenderer.PadCellExamples | src/renderers/tableRenderer/index.ts:99-107 | "Hi" in a column of 4 gains two spaces; "Hello" in a column of 3 is unchanged |
| TableRenderer.FillExamples | src/renderers/tableRenderer/index.ts:71 | `"─".repeat(4)` and `"─".repeat(5)` |
| TableRenderer.BorderExamples | src/renderers/tableRenderer/index.ts:65-75 | widths [2, 3] give the top border "┌────┬─────┐" and [3, 2] the bottom border "└─────┴────┘" |
| TableRenderer.RowExample | src/renderers/tableRenderer/index.ts:84-90 | ["A", "B"] in columns of 3 and 2 render as "│ A   │ B  │" |
| TableRenderer.JoinWidth | src/renderers/tableRenderer/index.ts:74 | a `join` of texts with complete colour sequences and a plain separator has their display widths plus one separator between each two, and its sequences stay complete |
| TableRenderer.SumWidthPointwise | src/renderers/tableRenderer/index.ts:70-89 | texts each d cells wider on screen than their column add d cells per column to the total |
| TableRenderer.FillWidth | src/renderers/tableRenderer/index.ts:71 | n copies of "─" are n cells wide and carry no escape |
| TableRenderer.SegmentsWidth | src/renderers/tableRenderer/index.ts:70-72 | the runs of a border are as wide as the columns plus two cells of margin each, and are plain |
| TableRenderer.BorderWidth | src/renderers/tableRenderer/index.ts:65-75 | a border's display width is the columns' total, plus three cells per column, plus one |
| TableRenderer.RowWidth | src/renderers/tableRenderer/index.ts:84-107 | a row with one cell per column, each fitting its column on screen and with complete colour sequences (coloured cells included), is exactly as wide on screen as a border |
| TableRenderer.RowsWidthMax | src/renderers/tableRenderer/index.ts:25-27 | the widest cell of a column among the rows is no narrower than any of them and equal to one of them |
| TableRenderer.ColumnWidthIsMax | src/renderers/tableRenderer/index.ts:22-30 | a column is as wide as its widest cell among the header, the rows (a missing cell counting as "") and the footer |
| TableRenderer.JoinConcat | src/renderers/tableRenderer/index.ts:44-55 | joining two non-empty lists is joining each and putting the separator between |
| TableRenderer.Join3 | src/renderers/tableRenderer/index.ts:55 | joining three texts puts the separator between each two |
| TableRenderer.FooterJoin | src/renderers/tableRenderer/index.ts:45-55 | the footer section (separator and bold footer row) and the bottom border, each after a line break, are the footer lines joined |
| TableRenderer.TableLayout | src/renderers/tableRenderer/index.ts:21-56 | the table is its top border, the bold header row, the separator, the body rows (one empty line when there are none), the separator and the bold footer row when there is a footer, and its bottom border, one per line |
| TableRenderer.CellFits | src/renderers/tableRenderer/index.ts:22-30 | a cell of any row, or of the footer, fits its column |
| TableRenderer.TableRowWidth | src/renderers/tableRenderer/index.ts:22-56 | a row of the table or its footer, one cell per header and only complete colour sequences, is as wide on screen as a border |
| TableRenderer.FooterRowWidth | src/renderers/tableRenderer/index.ts:45-51 | the bold footer row, one cell per header with complete sequences, is as wide on screen as a border |
| TableRenderer.HeadersPlain | src/renderers/tableRenderer/index.ts:12 | the headers carry no colour sequence |
| TableRenderer.HeaderWidth | src/renderers/tableRenderer/index.ts:22-38 | the header row of bold `chalk.bold(header)` cells is as wide on screen as a border, at any colour level |
| TableRenderer.LineKinds | src/renderers/tableRenderer/index.ts:21-56 | every line of a table with rows is a border, the bold header row, a rendered body row or the bold footer row |
| TableRenderer.TableAligned | src/renderers/tableRenderer/index.ts:21-56 | in a table with at least one row, whose rows and footer have one cell per header with complete colour sequences, every line has the display width of the top border, at any colour level |
| Renderer.ColorStatusMessage | src/renderers/render.ts:199-209 | `colorStatusMessage`, no contract of its own; ColorStatusCases and ColorStatusClosed state it |
| Renderer.Headline | src/renderers/render.ts:218-246 | `formatFailureHeadline`, no contract of its own; HeadlineText, DetailCases and HeadlineStripped state it |
| Renderer.FailureLog | src/renderers/render.ts:254-274 | the lines `printFailureDetails` logs, no contract of its own; FailureLogCases, LogAt and PrintFailureDetails state them |
| Renderer.BreakdownParts | src/renderers/render.ts:219-233 | one part per count that is present: the errors, then the warnings |
| Renderer.Entries | src/renderers/render.ts:266-270 | the `forEach` logs two lines per failure |
| Renderer.PrintFailureDetails | src/renderers/render.ts:254-274 | the guard, the silent hint, "Details:", the `forEach` and the closing `console.log()` log exactly the specified lines |
| Renderer.ColorStatusCases | src/renderers/render.ts:199-209 | no message gives ""; only a failure's message is coloured, red; without colour or for other states it is unchanged; removing the colour sequences gives the message back |
| Renderer.PaintStripped | src/renderers/render.ts:205-229 | removing the colour sequences from a red or yellow text gives the text back |
| Renderer.StyleSequences | src/renderers/render.ts:205-243 | the opening and closing sequences of every style are complete and strip to nothing |
| Renderer.PaintClosed | src/renderers/render.ts:205-243 | painting keeps a text's sequences complete and strips to the text's own stripped form |
| Renderer.ColorStatusClosed | src/renderers/render.ts:199-209 | a coloured status message with complete sequences stays complete and strips to the message's own stripped form, so its table cell pads by its visible width |
| Renderer.DetailStripped | src/renderers/render.ts:219-238 | the headline detail at any colour level has complete sequences and strips to the detail printed without colour |
| Renderer.HeadlineStripped | src/renderers/render.ts:218-246 | at any colour level the headline strips to the same text as the headline without colour |
| Renderer.DetailCases | src/renderers/render.ts:219-238 | the counts are listed whenever present, zero included, errors before warnings and joined by ", "; with neither, the summary (even an empty one), else "See output" |
| Renderer.ZeroErrorsListed | src/renderers/render.ts:221-225 | zero errors are still listed, as "0 errors" |
| Renderer.DetailExample | src/renderers/render.ts:219-238 | two errors and one warning read "2 errors, 1 warning" |
| Renderer.HeadlineText | src/renderers/render.ts:240-245 | without colour the headline is "label - tool [command] (detail)" |
| Renderer.BodyCases | src/renderers/render.ts:269 | the body is the raw output, else the parsed output, else "(no output)", and is never empty |
| Renderer.Paint | src/renderers/render.ts:205-243 | a chalk style at a colour level, no contract of its own; PaintStripped, StyleSequences and PaintClosed state that it adds only complete sequences that strip away |
| Renderer.Detail | src/renderers/render.ts:219-238 | the text in the headline's parentheses, no contract of its own; DetailCases, ZeroErrorsListed, DetailExample and DetailStripped state it |
| Renderer.Body | src/renderers/render.ts:269 | `rawOutput \|\| output \|\| "(no output)"`, no contract of its own; BodyCases states it |
| Renderer.EachEntryLength | src/renderers/render.ts:266-270 | a `forEach` logging two lines per item logs twice as many lines as items |
| Renderer.EachEntryAt | src/renderers/render.ts:266-270 | item k's two lines sit at 2k and 2k + 1 |
| Renderer.EntriesAt | src/renderers/render.ts:266-270 | line 2k is failure k's headline after a line break, line 2k + 1 its body |
| Renderer.LogAt | src/renderers/render.ts:264-272 | outside silent mode the log is "Details:", the entries one place further on, then the closing empty line |
| Renderer.FailureLogCases | src/renderers/render.ts:254-274 | nothing is logged without failures; in silent mode only the hint; otherwise "Details:", each failure's headline and body in order, then an empty line |
| Renderer.BodyAt | src/renderers/render.ts:264-270 | failure k's body is log line 2k + 2 |
| Renderer.FallbackExample | src/renderers/render.ts:269 | two failures without raw output log the parsed output third and "(no output)" fifth |
| Text.NatToString | dist/index.js:99-108 | the decimal form of a count is never empty |
| Text.NatToStringDigits | dist/index.js:99-108 | the decimal form holds only digits and has no leading zero |
| Text.NumberOfNatToString | src/task/parsers/npm-audit/parser.ts:9 | reading back the decimal form of a count gives the count |
| Text.NatToStringInjective | dist/index.js:108 | two counts print alike only when they are equal |
| Text.TrimStart | src/helpers/helpers.ts:68 | only leading whitespace is dropped, and what is left does not start with whitespace |
| Text.TrimEnd | src/helpers/helpers.ts:68 | only trailing whitespace is dropped, and what is left does not end with whitespace |
| Text.TrimShape | src/config/config.ts:94 | the trimmed text is empty exactly when the text is all whitespace, and otherwise starts and ends with a non-space |
| Text.TrimUnchanged | src/helpers/helpers.ts:68 | a text without outer whitespace is left as it is |
| Text.TrimIdempotent | src/config/parsers/npm-outdated/parser.ts:14 | trimming twice is trimming once |
| Text.TrimmedNonEmptyTrimmed | src/config/parsers/npm-outdated/parser.ts:12-16 | the kept lines are non-empty and already trimmed |
| Text.TrimmedNonEmptyConcat | src/config/parsers/npm-outdated/parser.ts:12-16 | trimming and filtering two runs of lines is doing so to each |
| Text.NonEmptyImagesFrom | src/task/parsers/npm-audit/parser.ts:14-19 | each kept part is non-empty and the image of some input part |
| Text.NonEmptyImagesConcat | src/task/parsers/npm-audit/parser.ts:14-19 | mapping and filtering distributes over putting two lists together |
| Text.Repeat | src/renderers/tableRenderer/index.ts:106 | n copies of a one-character text are n characters, each that character |
| Text.IndexOf | src/runOptions/runOptions.ts:46 | the first occurrence of the character, or the length when there is none |
| Text.SplitOn | src/task/parsers/npm-audit/parser.ts:15 | at least one piece, none holding the separator |
| Text.JoinSplitOn | src/task/parsers/npm-audit/parser.ts:15 | splitting at a character and joining with it gives the text back |
| Text.SplitOnJoin | src/config/parsers/npm-outdated/parser.ts:12 | splitting at a character a join of parts free of it gives the parts back |
| Text.TrimmedNonEmptyClean | src/config/parsers/npm-outdated/parser.ts:13-18 | non-empty, already trimmed parts pass `.map(trim).filter(Boolean)` unchanged |
| Scan.SearchAfter | src/task/parsers/cspell/parser.ts:5 | `match` without the `g` flag still finds a match at the start of `s` when text is put in front of it in which the pattern matches nowhere |
| Scan.LitICaseOf | src/task/parsers/cspell/parser.ts:4 | a word equal to a literal up to ASCII case is matched by it, as the `i` flag does |

## Left out

**Running processes, time and concurrency**

- Process spawning, stream accumulation and the spawn environment of `runCommand` are not modelled. A command's result is an input, and only the empty-command guard is modelled.
- The clock is not modelled. Each step's duration is an input.
- `formatDuration` for a second or more is not modelled, because it formats a floating-point number with `toFixed(1)`. The model returns `None` for it.
- `Promise.all` in `runTasks` is not modelled. It is sequentialised: the first render, then each task's `execute`, then one render per start or finish callback. The interleaving of callbacks between tasks is abstracted to their number.
- `Task.execute` is not modelled, because src/task/task.ts is not part of this model. The classification loop follows dist/index.js instead.

**Process control, file access and output**

- Chokidar watching, signal handling and `process.exit` are not modelled. Only the guard state machine, the ignore list and the exit-code choice are kept.
- Console output, `console.clear` and the TTY check are not modelled. The model counts renders, and `printFailureDetails` returns the lines it would log.
- Loading the configuration file is not modelled: the cosmiconfig search, path resolution and ENOENT handling in `getConfig`. The model starts from the loaded value.
- `printHelp` and `printVersion` are not modelled, because they read files and the current year.

**Colour and display width**

- Chalk is reduced to a colour level and the SGR sequences of the styles used (red, yellow, blue underlined, bold). Terminal colour detection is not modelled.
- Renderer.Headline: chalk re-opens a style after each close code of the same kind inside the text it wraps, so the ", " between the red error count and the yellow warning count stays red. The model wraps the text once and does not re-open nested styles. At a colour level above 0 the headline's escape sequences therefore differ from chalk's. The text after `stripAnsi` is the same, which HeadlineStripped states.
- Renderer.Headline: chalk also closes and re-opens a style around each line break inside the text it wraps. A label, tool, command or detail holding a line break therefore gets different escape sequences from chalk's at a colour level above 0; its text after `stripAnsi` is the same.
- TableRenderer.RenderTable: chalk closes and re-opens a style around each line break inside a styled cell, and the model's bold does not. A header or footer cell holding a line break therefore gets different escape sequences from chalk's; its text after `stripAnsi` is the same.
- `Intl.Segmenter` grapheme segmentation is not modelled. Display width counts code points one by one, so a grapheme cluster of several code points counts each of them.
- `\p{Extended_Pictographic}` is a parameter, the set `pictographic`, because the Unicode property tables are not modelled.
- `Number()` is modelled only on digit runs, which are read as unbounded naturals. The case where `Number.isFinite` fails on a huge digit string is not modelled.
- Floats, `NaN` and non-integer numbers in the configuration are not modelled. Numbers in the JSON-like value are integers.
- Key order and `__proto__` in configuration objects are not modelled. Objects are maps, so insertion order is not kept.
- `Reflect.ownKeys` of the registry is modelled as the set of registered names. Its insertion order is not kept.

**Older revisions and compiled output**

- These files are not modelled, because they duplicate the modelled revision:
  - the copy of `renderTable` and its helpers in src/render.ts;
  - the second copy of `renderTable`, with `renderBorder`, `renderRow`, `padCell`, `getDisplayWidth` and `isFullWidthCodePoint`, in src/renderers/render.ts:24-189;
  - dist/parsers.js, dist/helpers.js and dist/render.js (dist/index.js is modelled);
  - the older parsers under src/parsers/ outside the registry.
- In src/helpers.ts, `decorateLabel`, `addSilentFlag`, `stripAnsi` and the `runCommand` guard are not repeated, because they are the same as in src/helpers/helpers.ts.

**Modelling choices and disagreements**

- NpmOutdatedParser.ParseNpmOutdated: a pinned package never yields `warnings`. This follows the code: the tests src/config/parsers/npm-outdated/parser.test.ts:15-23 and :47-59 expect warnings, but the code never sets them.
- RunOptionsParser.GetRunOptions: the result includes `isWatchMode`. This follows the code; src/runOptions/runOptions.test.ts:21-27 omits that field.
- SuiteRunner.FailureDetail keeps the combined output. The trimmed `output` of the source is its `Output()`.
- UserConfig.AsUserTask is defined on every value. It matters only where `isUserTaskConfig` holds, which `AsUserTaskValid` states.
- The default tool table `DEFAULT_TASKS` is a parameter of the merge. Its entries are configuration data.

## Findings

| source | as written | input that shows it | evidently intended | confidence | as-written member | corrected member |
|---|---|---|---|---|---|---|
| src/parsers/registry.ts:3-29 | `registry` is a plain `{}`, so `registry[name]` and `prop in registry` also see what `Object.prototype` holds | the tool name "toString" with no parser registered for it: `getParser` returns the inherited function, and the descriptor trap describes a key that `ownKeys` does not list | a name with no registered parser has no parser, as for any other unknown tool (an own-property check, or a registry object created without a prototype) | not executed | ParserRegistry.FindAsWritten, ParserRegistry.InheritedNameFound | ParserRegistry.Find, ParserRegistry.FindMissing |
