# Source code analyzer: verified model of the scan-and-aggregate core

This project models, in Dafny, the sequential logic of a Go tool that scans a
source tree and reports per-language and per-file line metrics. For each
configured language the tool:

1. enumerates the non-directory files whose extension equals the language's
   extension (`filesWithExtension`);
2. reads each file's lines and classifies them (`analyzeFile`): every line
   counts, a line that is non-empty after trimming tab, newline and space is a
   code line, and the comment pattern and the keyword pattern are matched
   against the trimmed code lines;
3. tags the result with the language and path (`processFile`) and sends it to
   a single aggregator (`resultProc`). The aggregator merges it into a map
   from language to `LanguageResult`: a file count, running totals, and a
   per-file copy of the counters.

Files and modules:

- `text.dfy` (`Text`): Go's `strings.Trim` with the cutset `"\t\n "` and
  `strings.Join`. `Split` is modelled as the inverse of `Join`.
- `util.dfy` (`Util`): walk entries, `filepath.Ext`, the extension filter and
  `convertArray`.
- `analyzer.dfy` (`Analyzer`): `FileResult`, line classification
  (`AnalyzeFile`), `ProcessFile`, `ProcessFiles` and the keyword pattern.
- `aggregation.dfy` (`Aggregation`): `LanguageResult`, the merge step
  (`Merged`, `ResultAggregator.Merge`), the receive loop
  (`ResultAggregator.ResultProc`) and the report invariants.

The regular-expression engine is not modelled. A compiled pattern is a
`Matcher` (`string -> nat`): the number of non-overlapping matches it finds in
one line. Compiling a pattern is a parameter from pattern text to `Matcher`.
File contents come from a parameter `readLines` (path to the file's lines, or
`None` when the file cannot be read). The directory walk is a sequence of
`(path, isDir)` entries in visit order.

## Behaviour a reader might not expect

The model follows the code in each case:

- The limit of 12 open files is not global. The code creates a separate
  12-slot semaphore for each language (analyzer.go:147). Concurrency is not
  modelled, so neither bound is stated.
- Paths are appended in walk order (util.go:58), and the model keeps that
  order (`Util.FilteredAppend`).
- Only tab, newline and space are trimmed (analyzer.go:230); other
  whitespace is not. A line that still holds a carriage return therefore
  counts as code (`Analyzer.CarriageReturnLineIsCode`). The line reader
  strips the `'\r'` of a CRLF line end, so such a line comes from a lone
  `'\r'` or from `"\r\r\n"`.
- `TotalFiles` equals the number of entries in `Files` only when every
  (language, path) pair reports once (`Aggregation.FoldConsistent`). The code
  does not guard against a repeated file name, and a repeat breaks the
  equality (`Aggregation.MergeDuplicateBreaksFileCount`).

## Model

| member | source | states |
|---|---|---|
| `Text.TrimLeft` | analyzer.go:230 | the result is a suffix of the input; every dropped character is tab, newline or space; the result is empty or starts outside that set |
| `Text.TrimRight` | analyzer.go:230 | the result is a prefix of the input; every dropped character is in the cutset; the result is empty or ends outside it |
| `Text.Trim` | analyzer.go:230 | the trimmed line is a slice of the line, and everything dropped before and after it is tab, newline or space; it is empty exactly when every character is in that set; otherwise both ends lie outside it |
| `Text.TrimBothEnds` | analyzer.go:230 | trimming the left end and then the right end drops only cutset characters, and leaves a slice that is empty exactly when the whole line is in the cutset |
| `Text.Split` | analyzer.go:156 | splitting at a character gives one more part than there are occurrences of it |
| `Text.Join` | analyzer.go:156 | `strings.Join`: no parts give the empty string, one part gives that part, and more parts give the parts with `sep` between neighbours, so the result starts with the first part and ends with the last; `Text.SplitJoin` is its round trip |
| `Text.SplitJoin` | analyzer.go:156 | joining at least one part with `c` and splitting at `c` gives back the same parts in the same order, provided no part contains `c` |
| `Analyzer.CodeLineCount` | analyzer.go:228-244 | the number of code lines never exceeds the number of lines |
| `Analyzer.MatchTotal` | analyzer.go:229-241 | a file with no code lines has no keyword or comment matches |
| `Analyzer.AnalyzeFile` | analyzer.go:218-247 | `Lines` is the number of lines, blank or not; `CodeLines` is the number of lines non-empty after trimming; `Keywords` and `Comments` are the matcher counts summed over trimmed code lines; language and file name stay empty |
| `Analyzer.ProcessFile` | analyzer.go:210-214 | the sent result is the analysis of the file's lines, tagged with the language and the file path |
| `Analyzer.KeywordsPattern` | analyzer.go:155-156 | the pattern is `\b(` followed by the keywords joined with the bar character, then `)\b` |
| `Analyzer.KeywordsPatternRoundTrip` | analyzer.go:155-156 | the alternatives of the keyword pattern are exactly the configured keywords, in configured order, when there is at least one keyword and no keyword contains the bar character |
| `Analyzer.ProcessFiles` | analyzer.go:140-173 | no results at all exactly when some file cannot be read; otherwise one result per file, in file order, each analyzed with the compiled comment pattern and the compiled keyword pattern built from the stringified keyword list |
| `Analyzer.ProcessEach` | analyzer.go:159-163 | given the two compiled matchers, no results at all exactly when some file cannot be read; otherwise one result per file, in file order, each the tagged analysis of that file's lines |
| `Analyzer.NextLine` | analyzer.go:228-241 | scanning one more line adds one code line and the matches of its trimmed form when it is non-empty after trimming, and nothing otherwise |
| `Analyzer.LinesAreCodeOrBlank` | analyzer.go:226-244 | `Lines == CodeLines + blank lines`, where a blank line holds only tabs, newlines and spaces |
| `Analyzer.MatchTotalAppend` | analyzer.go:229-242 | the match totals of consecutive stretches of a file add up |
| `Analyzer.MatchTotalSeesOnlyTrimmedCodeLines` | analyzer.go:230-241 | totals depend only on what the matchers return for the trimmed forms of the code lines; blank lines and untrimmed text are never matched |
| `Analyzer.CarriageReturnLineIsCode` | analyzer.go:230 | a blank line with a carriage return appended counts as code, because `'\r'` is not trimmed |
| `Analyzer.TrimOfUntrimmed` | analyzer.go:230 | a line with no cutset character at either end is its own trimmed form |
| `Analyzer.CodeBlankCode` | analyzer.go:229-244 | a file of code, blank, code has two code lines and the matches of its two code lines |
| `Analyzer.CodeBlank` | analyzer.go:229-244 | a file of code then blank has one code line and the matches of that line |
| `Analyzer.ExampleFileA` | analyzer.go:218-247 | `["let a = 1", "", "# note"]` has two code lines, matched on `"let a = 1"` and `"# note"` |
| `Analyzer.ExampleFileB` | analyzer.go:218-247 | `["if true", "  "]` has one code line, matched on `"if true"` |
| `Util.ExtBefore` | util.go:57 | the backward scan for `filepath.Ext` stops at the last `.` before any `/`, and finds nothing when a `/` or the start comes first |
| `Util.Ext` | util.go:57 | the extension is empty exactly when no `.` follows the last `/`; otherwise it is the suffix from the last such `.`, with no further `.` or `/` |
| `Util.FilesWithExtension` | util.go:52-64 | every returned path belongs to a non-directory entry whose extension equals `ext` exactly; every such entry's path is returned; the result is the filter of the walk in walk order |
| `Util.FilteredSound` | util.go:55-59 | every kept path comes from a non-directory entry whose extension equals `ext` |
| `Util.FilteredComplete` | util.go:55-62 | every non-directory entry whose extension equals `ext` is kept; the callback never returns an error, so no reported entry is skipped |
| `Util.FilteredAppend` | util.go:55-58 | paths are kept in visit order: filtering two consecutive stretches of a walk gives the first stretch's paths before the second's |
| `Util.FilteredDistinct` | util.go:55-62 | a walk that visits every path once yields no path twice |
| `Util.NoDuplicatesCount` | util.go:55-62 | in a list of paths without repeats every path occurs at most once |
| `Util.DuplicateCount` | util.go:55-62 | a path found at two positions of a list occurs at least twice in it |
| `Util.NoDuplicatesPermutation` | util.go:55-62 | any reordering of a list of paths without repeats has no repeats |
| `Util.ConvertArray` | util.go:67-73 | the output has the input's length, and element `i` is the string form of input element `i` |
| `Aggregation.Merged` | analyzer.go:61-81 | the language's entry is created on first sight with zero totals tagged with the language and no files; it then counts one more file, adds the four counters to its totals, and stores the counters under the file name, replacing any earlier entry; other languages are unchanged |
| `Aggregation.ResultAggregator.constructor` | analyzer.go:106 | the report starts empty |
| `Aggregation.ResultAggregator.Merge` | analyzer.go:61-81 | the report after one received result is the merge of that result into the report before |
| `Aggregation.ResultAggregator.ResultProc` | analyzer.go:60-82 | the report after the receive loop is the in-order merge of every received result |
| `Aggregation.FilesSumAt` | analyzer.go:77-81 | the sum of the per-file entries may be split at any file |
| `Aggregation.FilesSumInsert` | analyzer.go:77-81 | storing counters under a new file name adds them to the sum of the per-file entries |
| `Aggregation.MergePreservesConsistency` | analyzer.go:67-81 | merging a result under a file name new to its language keeps the report consistent: each language's totals are tagged with it, `TotalFiles` equals the number of entries in `Files`, and the totals are the sum over `Files` |
| `Aggregation.MergedEntryConsistent` | analyzer.go:67-81 | merging a result under a new file name into a consistent entry for its language keeps that entry consistent |
| `Aggregation.MergeDuplicateBreaksFileCount` | analyzer.go:67-81 | a repeated file name replaces the stored entry but counts one more file, so `TotalFiles` is one more than the number of entries in `Files` |
| `Aggregation.FilesOfMembers` | analyzer.go:77-81 | a name is among a language's file names exactly when some result of that language carries it |
| `Aggregation.FoldTotals` | analyzer.go:60-82 | no result is lost: a language is present exactly when some result carries it; its `TotalFiles` is the number of its results; its totals are the sum of their counters; its `Files` keys are their distinct names |
| `Aggregation.FoldConsistent` | analyzer.go:60-82 | when every (language, path) pair reports once, the final report is consistent: `TotalFiles` equals the number of entries in `Files` and the totals equal the sum over `Files` |
| `Aggregation.FoldKeepsEveryFile` | analyzer.go:76-81 | when every (language, path) pair reports once, each result's counters are stored under its language and path |
| `Aggregation.NamesForMatches` | analyzer.go:60-82 | the file names of a language's results, in arrival order, are as many as its results and are exactly its file names |
| `Aggregation.FoldLanguageConsistent` | analyzer.go:60-82 | when no file name of a language arrives twice, that language's entry is consistent, whatever other languages send and in whatever order |
| `Aggregation.LastNameIsFresh` | analyzer.go:60-82 | when no file name of a language arrives twice, the last result of that language brings a file name that the language's entry does not yet hold, so merging it keeps the entry's file list duplicate-free |
| `Aggregation.OneLanguageScan` | analyzer.go:119-122 | the walk visits each path once, and the language's results arrive one per matching file in any order, interleaved with other languages. Then the language has an entry exactly when some file matched, and that entry is consistent, counts exactly the matching files and holds exactly their paths |
| `Aggregation.TwoResultsOfOneLanguage` | analyzer.go:60-82 | two results of one language give one entry with two files and the sum of their counters |
| `Aggregation.ExampleResultA` | analyzer.go:218-247 | file A of the two-file example analyzes to 3 lines, 2 code lines, and the matches of `"let a = 1"` and `"# note"` |
| `Aggregation.ExampleResultB` | analyzer.go:218-247 | file B of the two-file example analyzes to 2 lines, 1 code line, and the matches of `"if true"` |
| `Aggregation.TwoFileExample` | analyzer.go:60-82 | with one comment match in `"# note"` and one keyword match in each of `"let a = 1"` and `"if true"`, the report for files A and B has `TotalFiles = 2`, `Lines = 5`, `CodeLines = 3`, `Comments = 1`, `Keywords = 2` |

## Left out

- Concurrency is not modelled: the goroutines, the `sync.WaitGroup`s, the unbuffered result channel and its close, and the per-language semaphore (analyzer.go:44-53, 105-132, 146-149, 161-172, 185-190). Only the sequential fold of the results is modelled, in the order they are received.
- `Analyzer.ProcessFiles` returns its results in file order. In the program they reach the aggregator in whatever order the goroutines finish. The aggregate statements hold for every arrival order. `Aggregation.FoldTotals` gives counts and sums. `Aggregation.OneLanguageScan` covers a language's results in any order, interleaved with other languages. No lemma relates two different orders of the same results report for report.
- File I/O is not modelled: `os.Open`, `bufio.Scanner` line splitting and `file.Close` (analyzer.go:192-208). A file's lines are an input. A read failure, which calls `log.Fatal` and ends the process, is modelled as `ProcessFiles` producing no results.
- The regular-expression library is not modelled: `regexp.MustCompile` and `FindAllStringIndex` (analyzer.go:152-157, 235, 239). Matchers are abstract counts, so whole-word keyword matching is not proved. What is proved is the pattern text.
- The directory walk itself is not modelled: the traversal, its order and its error reporting (util.go:55). When the walk cannot read an entry's metadata it passes a nil file info, and the callback's `f.IsDir()` (util.go:56) panics and ends the program. That case is not modelled. `os.Stat` in `check_file_exists` (util.go:33-38) is also left out. The walk is an input sequence.
- `Util.Ext` follows the Go library's `filepath.Ext` for `/` separators only. That library is not part of this model.
- `fmt.Sprint` in `convertArray` (util.go:70) is not modelled. It is an abstract `toString` parameter.
- Configuration, CLI and output are not modelled: `parseArgs`, `readConfiguration`, `outputResults`, `main`, and the untyped configuration assertions and panics in `analyzeCodeDirectory` (util.go:16-49, 76-92; analyzer.go:30-41, 89-103, 112-127). The same goes for the assertions `conf["comments"].(string)` and `conf["keywords"].([]interface{})` in `processFiles` (analyzer.go:152, 155), which panic when a key is missing or has the wrong type. `ProcessFiles` takes an already typed comment pattern and keyword list.
- Go's 64-bit `int` is modelled as an unbounded integer, so counter overflow is not modelled.
- The program keeps `*LanguageResult` and `*FileResult` pointers in its maps. These are modelled as values. Only the aggregator holds these pointers, so no aliasing can be observed.
