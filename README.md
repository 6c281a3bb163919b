# laravel-code-scans in Dafny

A model of the core of the PDERAS laravel-code-scans package, a PHPStan extension. The model covers two parts.

The first part is the three rules that flag banned constructs:
- `DisallowFunctionCallsRule` flags calls to configured function names, ignoring case. Its identifier is derived from the called name.
- `DisallowDebugHelpersRule` flags `dd` and `dump`.
- `DisallowExitLikeCallsRule` flags every `exit`/`die`.

The second part is the report formatter `FabledErrorFormat`:
- `formatErrors` files every error under its rule identifier, then regroups the rules by category.
- It writes one section per present category, in the fixed order Security, Reliability, Performance, General.
- Within a section, the rules are stable-sorted by descending item count.
- Each rule gets a table with a row per error, carrying an editor deep link.
- A four-category summary follows. The exit status is 0 or 1.
- `categorizeRule` is the first-match-wins classifier that gives each identifier its category, severity and label.

Modules:

- `Wrappers` holds `Option`.
- `PhpStrings` holds the PHP built-ins the code uses, over `string`: `strtolower`, `str_starts_with`, `strstr`, array `str_replace` and the `(string)` cast of an integer.
- `Diagnostics` holds the syntax nodes the rules see and the `RuleError` they return.
- `DisallowFunctionCalls`, `DisallowDebugHelpers` and `DisallowExitLikeCalls` hold the rules:
  - The first is a class. Its constructor loop builds the lower-cased lookup set.
  - The other two are pure functions.
- `RuleFindings` shows that whatever the rules report is classified as a Security error.
- `FabledCategorize` holds `categorizeRule`.
- `FabledGrouping` holds the specification of the by-rule table (`$by_rule`), the per-category groups, the totals and the stable sort.
- `FabledLink` holds the row cells built from a file and line: the displayed path, the line text and the `str_replace` deep link.
- `FabledReport` describes the report as a sequence of abstract report lines: heading, headline, category titles, rule headers, tables of rows, summary. It also proves what the report says.
- `FabledFormat` holds `formatErrors` as imperative methods, with the same loops as the PHP code. Each method is proved to produce exactly what `FabledReport` describes.

The comment at src/Formatters/FabledErrorFormat.php:25 says that in CI the auto-detected format is used and the custom formatting is skipped. The code at line 26 calls the CI formatter and then always goes on to write the styled report. The model follows the code and writes the styled report in every case.

## Model

| member | source | states |
|---|---|---|
| DisallowFunctionCalls.DisallowFunctionCallsRule.constructor | src/Stan/Rules/DisallowFunctionCallsRule.php:20-27 | the lookup set holds exactly the lower-cased configured names; names equal up to case collapse, so the set is never larger than the configuration |
| DisallowFunctionCalls.DisallowFunctionCallsRule.ProcessNode | src/Stan/Rules/DisallowFunctionCallsRule.php:29-57 | for a function-call node: at most one error, and one exactly when the target is a plain name whose lower-cased form is banned; the message is `Disallowed function <lower-cased name>() used.` and the identifier is `pderas.disallow.function.` followed by the name's suffix |
| DisallowFunctionCalls.StripNonIdChars | src/Stan/Rules/DisallowFunctionCallsRule.php:47 | keeps exactly the characters of `[A-Za-z0-9.]`, in their order: a single character survives exactly when it is one of them, and stripping distributes over concatenation (see `StripNonIdCharsAppend`); it never lengthens the name and leaves a name made only of such characters unchanged |
| DisallowFunctionCalls.StripNonIdCharsAppend | src/Stan/Rules/DisallowFunctionCallsRule.php:47 | stripping the concatenation of two names is the concatenation of stripping each, so the result is the subsequence of `[A-Za-z0-9.]` characters |
| DisallowFunctionCalls.StripJoinsParts | src/Stan/Rules/DisallowFunctionCallsRule.php:47 | a separator outside `[A-Za-z0-9.]` between two clean parts disappears and joins the parts (`shell_exec` becomes `shellexec`) |
| DisallowFunctionCalls.IdSuffix | src/Stan/Rules/DisallowFunctionCallsRule.php:47-50 | the suffix always matches `^[A-Za-z0-9](?:[A-Za-z0-9.]*[A-Za-z0-9])?$`; it is `function` when stripping leaves nothing or leaves a `.` at either end, and the stripped name otherwise; a name without capitals gives a suffix without capitals |
| DisallowFunctionCalls.SymbolOnlyNameFallsBack | src/Stan/Rules/DisallowFunctionCallsRule.php:47-51 | the name `@@@` gives the identifier `pderas.disallow.function.function` |
| DisallowFunctionCalls.FlaggedSuffixIsLowerCase | src/Stan/Rules/DisallowFunctionCallsRule.php:40-51 | the suffix of a flagged call holds only lower-case letters, digits and dots, and starts and ends with a letter or digit |
| DisallowFunctionCalls.MatchIgnoresCase | src/Stan/Rules/DisallowFunctionCallsRule.php:22-41 | a call is flagged exactly when some configured name equals the called name up to ASCII case |
| DisallowDebugHelpers.ProcessNode | src/Stan/Rules/DisallowDebugHelpersRule.php:18-48 | for a function-call node: at most one error, and one exactly when the plain name lower-cases to `dd` or `dump`; that error is `Disallowed debug helper <name>() used.` with identifier `pderas.disallow.debug` |
| DisallowDebugHelpers.DebugHelpersAnyCase | src/Stan/Rules/DisallowDebugHelpersRule.php:38-41 | `DD` and `Dump` are flagged, `ddd` is not |
| DisallowExitLikeCalls.ProcessNode | src/Stan/Rules/DisallowExitLikeCallsRule.php:16-31 | for an exit node, whatever its spelling or argument: exactly one error, `Disallowed exit/die usage.` with identifier `pderas.disallow.exit` |
| RuleFindings.BannedCallClassified | src/Formatters/FabledErrorFormat.php:138-141 | a flagged banned call is reported under Security, as an error, labelled `Banned function <suffix>()` |
| RuleFindings.RuleErrorsAreSecurityErrors | src/Formatters/FabledErrorFormat.php:138-147 | every error any of the three rules reports is classified Security with severity error |
| PhpStrings.ToLower | src/Stan/Rules/DisallowFunctionCallsRule.php:40 | `strtolower` keeps the length and maps each character to its ASCII lower case, leaving every other character alone |
| PhpStrings.ToLowerIdempotent | src/Stan/Rules/DisallowFunctionCallsRule.php:40 | `strtolower` leaves no upper-case letter, and applying it twice is the same as once |
| PhpStrings.Strstr | src/Formatters/FabledErrorFormat.php:108 | a found result is a suffix of the haystack that starts with the needle at its first occurrence; the result is absent exactly when the needle occurs nowhere |
| PhpStrings.StrReplaceThree | src/Formatters/FabledErrorFormat.php:110-114 | `str_replace` with three search/replace pairs applies the pairs one after the other, each to the result of the previous one |
| PhpStrings.ReplaceAllSkips | src/Formatters/FabledErrorFormat.php:110-114 | a leading part without the search string's first character passes through a replacement unchanged, and the rest is replaced as usual |
| PhpStrings.ReplaceAllAbsent | src/Formatters/FabledErrorFormat.php:110-114 | a subject missing some character of the search string is left unchanged |
| PhpStrings.DelimitedSkips | src/Formatters/FabledErrorFormat.php:110-114 | a `%`-delimited word other than the searched one passes through the replacement |
| PhpStrings.IntToString | src/Formatters/FabledErrorFormat.php:112 | the `(string)` cast of an integer is its decimal text: for `n >= 0` digits only, no leading zero except for 0 itself, with value `n`; for `n < 0` a `-` followed by the decimal text of `-n` |
| PhpStrings.NatToString | src/Formatters/FabledErrorFormat.php:112 | the decimal text of a line number is non-empty, all digits, and has no leading zero unless the number is 0 |
| PhpStrings.NatToStringRoundTrip | src/Formatters/FabledErrorFormat.php:112 | the decimal digits of a line number read back to that number |
| FabledLink.DisplayPathFindsApp | src/Formatters/FabledErrorFormat.php:108 | the displayed path is the part of the path from its first `app/` on, and it is empty exactly when the path holds no `app/` |
| FabledLink.FilePass | src/Formatters/FabledErrorFormat.php:110-114 | the `%file%` pass turns `%%file%%` into `%<file>%` |
| FabledLink.RelFilePass | src/Formatters/FabledErrorFormat.php:110-114 | for a path without `%` other than `relFile`, the `%relFile%` pass changes nothing, since the template holds no `%relFile%` |
| FabledLink.LinePass | src/Formatters/FabledErrorFormat.php:110-114 | for a path without `%` other than `line`, the `%line%` pass turns `%%line%%` into `%<line>%` and leaves the path alone |
| FabledLink.DeepLinkAsWritten | src/Formatters/FabledErrorFormat.php:110-114 | the link is `vscode://file/%<file>%:%<line>%`: the template's doubled `%` leave a stray `%` around each substituted value |
| FabledCategorize.Categorize | src/Formatters/FabledErrorFormat.php:136-165 | severity is error exactly for Security; Security is exactly the package's own identifiers; an unmatched identifier is General, a warning, labelled with itself |
| FabledCategorize.OwnRuleMeta | src/Formatters/FabledErrorFormat.php:142-147 | the exit/die identifier is a Security error labelled `Disallowed exit/die`; the debug identifier is a Security error labelled `Disallowed debug helper` |
| FabledCategorize.MissingTypePrefixes | src/Formatters/FabledErrorFormat.php:148-149 | an identifier starting with `missingType.` or `phpstan.missingType.` is a Reliability warning labelled `Missing type` |
| FabledCategorize.DeadCodePrefix | src/Formatters/FabledErrorFormat.php:151-152 | an identifier starting with `deadCode.` is a Reliability warning labelled `Dead code` |
| FabledCategorize.BannedFunctionMeta | src/Formatters/FabledErrorFormat.php:138-141 | `pderas.disallow.function.<fn>` is Security, error, `Banned function <fn>()` |
| FabledCategorize.DeprecatedUsagePrefixes | src/Formatters/FabledErrorFormat.php:154-158 | `deprecated.`, `property.`, `array.` and `arguments.` identifiers are all Reliability warnings labelled `Deprecated usage` |
| FabledCategorize.PerformancePrefix | src/Formatters/FabledErrorFormat.php:160-161 | `performance.` identifiers are Performance warnings labelled `Performance issue` |
| FabledCategorize.CategoryByRule | src/Formatters/FabledErrorFormat.php:136-165 | first match wins: Reliability, Performance and General each hold exactly the identifiers that no earlier rule of the chain claims |
| FabledGrouping.EntriesOrder | src/Formatters/FabledErrorFormat.php:43-64 | every file error is filed first, under its identifier or `phpstan.generic`; then every other error, under `phpstan.generic` with file `[generic]` and no line |
| FabledGrouping.GroupByWellFormed | src/Formatters/FabledErrorFormat.php:42-64 | each identifier of the table has one place in its order and one bucket, and nothing else has a bucket |
| FabledGrouping.GroupByKeys | src/Formatters/FabledErrorFormat.php:42-64 | the table has a bucket exactly for the identifiers that occur among the errors |
| FabledGrouping.GroupByItems | src/Formatters/FabledErrorFormat.php:42-64 | each bucket holds exactly the errors with its identifier, in arrival order |
| FabledGrouping.GroupByOrderGrows | src/Formatters/FabledErrorFormat.php:48 | filing more errors only appends to the order of identifiers, so each keeps its first-seen place |
| FabledGrouping.GroupBySize | src/Formatters/FabledErrorFormat.php:42-64 | the buckets together hold as many items as there are errors |
| FabledGrouping.RuleCountIsDistinctIds | src/Formatters/FabledErrorFormat.php:86 | the number of rules is the number of distinct identifiers among the errors |
| FabledGrouping.CategoryGroupsMembers | src/Formatters/FabledErrorFormat.php:66-76 | each rule filed under a category is a rule of the table, with its own items and classification, and belongs to that category |
| FabledGrouping.CategoryGroupsOnce | src/Formatters/FabledErrorFormat.php:66-76 | each rule of the table is filed exactly once under its own category and under no other; an identifier not in the table is filed nowhere |
| FabledGrouping.CategoryTotalCounts | src/Formatters/FabledErrorFormat.php:66-85 | the total kept for a category is the number of errors whose identifier falls in that category |
| FabledGrouping.IdCountSort | src/Formatters/FabledErrorFormat.php:97-100 | the sort by error count keeps each rule exactly as often as before |
| FabledGrouping.CategoryTotalsPartition | src/Formatters/FabledErrorFormat.php:66-85 | the four category totals add up to the number of items in the table |
| FabledGrouping.CategoryPresent | src/Formatters/FabledErrorFormat.php:66-91 | a category has rules exactly when some identifier of the table belongs to it |
| FabledGrouping.SortByCountSorted | src/Formatters/FabledErrorFormat.php:97-100 | after the sort, item counts never increase along the rules |
| FabledGrouping.SortByCountPermutes | src/Formatters/FabledErrorFormat.php:97-100 | the sort keeps exactly the same rules (as a multiset) |
| FabledGrouping.SortByCountStable | src/Formatters/FabledErrorFormat.php:97-100 | rules with equal item counts keep their relative order |
| FabledGrouping.SortByCountTotal | src/Formatters/FabledErrorFormat.php:97-100 | the sort neither gains nor loses an item |
| FabledReport.RowsAt | src/Formatters/FabledErrorFormat.php:107-115 | the k-th row is built from the k-th item, with a trailing newline unless it is the last |
| FabledReport.RowsContent | src/Formatters/FabledErrorFormat.php:107-115 | each row carries its item's line text and message, the displayed path, a link made from the item's path, displayed path and line text, and a newline after every message except the last |
| FabledReport.RowLink | src/Formatters/FabledErrorFormat.php:108-115 | a row's link opens `vscode://file/%<path>%:%<line>%` |
| FabledReport.RuleSectionsSnoc | src/Formatters/FabledErrorFormat.php:102-118 | writing one more rule appends its header and table to what was written |
| FabledReport.SectionsInOrder | src/Formatters/FabledErrorFormat.php:78-91 | the sections follow the order Security, Reliability, Performance, General |
| FabledReport.SectionHeadersByCount | src/Formatters/FabledErrorFormat.php:97-105 | every rule header of a section names a rule of that category, and their counts never increase |
| FabledReport.ReportForTitles | src/Formatters/FabledErrorFormat.php:88-95 | the section titles are exactly the non-empty categories, in the fixed order |
| FabledReport.ReportForRows | src/Formatters/FabledErrorFormat.php:85-117 | the tables together have as many rows as the headline counts issues |
| FabledReport.ReportForEnds | src/Formatters/FabledErrorFormat.php:38-128 | the report has at least five lines; the headline is the third, and the summary is the last |
| FabledReport.ReportEmptyIffNoErrors | src/Formatters/FabledErrorFormat.php:31-36 | only the all-clear line is written, and 0 returned, exactly when there is no error; any other status is 1 |
| FabledReport.ReportCategoryOrder | src/Formatters/FabledErrorFormat.php:78-95 | a section title appears exactly for each category some error belongs to, in the order Security, Reliability, Performance, General |
| FabledReport.ReportAccountsForEveryError | src/Formatters/FabledErrorFormat.php:85-128 | the table rows of the report, taken together, number exactly the errors; the headline counts every error and every distinct identifier; the summary is the last line and its four category counts add up to the number of errors |
| FabledReport.ReportSummaryCounts | src/Formatters/FabledErrorFormat.php:120-128 | the summary shows, for each of the four categories, the number of errors in it |
| FabledReport.SectionHeaderCount | src/Formatters/FabledErrorFormat.php:89-100 | a category's section has one header for each rule of that category and none for any other identifier |
| FabledReport.ReportForHeaderCount | src/Formatters/FabledErrorFormat.php:85-118 | the report of a table has exactly one header for each of its rules and none for any other identifier |
| FabledReport.ReportHeadersOnce | src/Formatters/FabledErrorFormat.php:85-118 | each identifier that occurs among the errors gets exactly one rule header, and no other identifier gets one |
| FabledReport.SectionAccurate | src/Formatters/FabledErrorFormat.php:89-118 | in a category's section, the title's total is that category's error count, and every rule header has the rule's own label and count and is followed by the table of exactly that rule's errors |
| FabledReport.ReportAccurate | src/Formatters/FabledErrorFormat.php:78-118 | every category title and every rule header of the report agrees with the errors: totals are the categories' counts, each header is followed by the table of exactly its rule's errors in their order |
| FabledFormat.FileUnder | src/Formatters/FabledErrorFormat.php:48-53 | filing an item under an identifier is the table's `Add` step: a new identifier is appended to the order with a one-item bucket, and a known one has the item appended |
| FabledFormat.BucketFileErrors | src/Formatters/FabledErrorFormat.php:43-54 | the first loop leaves the table of the file errors' entries |
| FabledFormat.FileGeneric | src/Formatters/FabledErrorFormat.php:56-64 | one pass of the second loop files the next other error |
| FabledFormat.BucketGenericErrors | src/Formatters/FabledErrorFormat.php:56-64 | the second loop completes the table of all entries |
| FabledFormat.BucketByRule | src/Formatters/FabledErrorFormat.php:42-64 | `$by_rule` is the table of all errors, in the order described by `EntriesOrder` |
| FabledFormat.BucketByCategory | src/Formatters/FabledErrorFormat.php:66-76 | `$by_category` has a key exactly for the non-empty categories, holding their rules in table order; each category total is its rules' item count, 0 when absent |
| FabledFormat.WriteRows | src/Formatters/FabledErrorFormat.php:106-116 | the rows built item by item are the rule's rows |
| FabledFormat.WriteRules | src/Formatters/FabledErrorFormat.php:102-118 | one header and one table per rule, in the given order |
| FabledFormat.WriteCategory | src/Formatters/FabledErrorFormat.php:93-118 | a blank line and the category title with its total, then the rules sorted by descending count |
| FabledFormat.WriteSection | src/Formatters/FabledErrorFormat.php:89-118 | an absent category writes nothing; a present one writes its section |
| FabledFormat.WriteSections | src/Formatters/FabledErrorFormat.php:88-119 | the sections of the categories in the fixed order |
| FabledFormat.WriteReport | src/Formatters/FabledErrorFormat.php:38-128 | blank, heading, headline, sections, blank, summary: the report of a non-empty table |
| FabledFormat.FormatErrors | src/Formatters/FabledErrorFormat.php:23-131 | the lines written are the report of the analysis result, and the status is 0 with no error and 1 otherwise |

## Left out

- The call to the CI-detected formatter (`FabledErrorFormat.php` line 26) is left out. It is an external formatter whose output the core does not own, and the model treats it as writing nothing.
- Terminal styling is left out: colours, `title`/`table` layout and `OutputFormatter::escape`. Report lines keep the content of each line and row, not its markup.
- PHPStan and PhpParser internals (`Node`, `Scope`, `RuleErrorBuilder`, `AnalysisResult`, `Output`) are replaced by small datatypes. The model's output is a returned sequence of report lines, not writes to an output object.
- `method_exists($e, 'getIdentifier')` (line 44) is taken to be true. A file error's identifier is an `Option`; null goes to `phpstan.generic`.
- The two regular expressions of `DisallowFunctionCallsRule` are modelled as character-class predicates, not as general PCRE.
- Strings are sequences of characters, not bytes. `strtolower` is ASCII-only lower-casing, as in PHP 8.
- `CodeScanCommand` and `LaravelCodeScansServiceProvider` (process spawning, configuration publishing, command registration) are not part of this model.
- DisallowFunctionCalls.DisallowFunctionCallsRule.ProcessNode, DisallowDebugHelpers.ProcessNode, DisallowExitLikeCalls.ProcessNode: these require a node of the kind the rule registers with `getNodeType`, because PHPStan dispatches only those nodes to a rule.
- FabledLink.DeepLinkAsWritten: the closed form of the link is stated only for paths without `%` that are not exactly `relFile` or `line`. For other paths, the second or third replacement pass can also rewrite part of the path. `DeepLink` itself models every path.
- FabledReport.RowLink: stated for the same paths as `DeepLinkAsWritten`.
- FabledReport.Row: a row keeps its link as the three values the template is filled with (`LinkArgs`), and `FabledLink.Url` renders them. The escaped `href` markup is not modelled.
- `uasort` is modelled as a stable insertion sort by descending item count. PHP 8's sort is stable, so the resulting order is the same.
