/**
 The result aggregation of analyzer.go (`resultProc`): every tagged file
 result is merged into a map from language to `LanguageResult`, which keeps
 the number of files seen, the running totals and a per-file copy of the
 counters. The channel the results arrive on is modelled as the sequence of
 results in the order they were received.
 */
module Aggregation {
  import opened Analyzer
  import Util

  /** The four counters of a `FileResult`, without its language and file name. */
  datatype Counters = Counters(lines: int, codeLines: int, comments: int, keywords: int)
  {
    function Plus(other: Counters): Counters {
      Counters(lines + other.lines, codeLines + other.codeLines,
               comments + other.comments, keywords + other.keywords)
    }
  }

  const NoCounts := Counters(0, 0, 0, 0)

  function CountsOf(r: FileResult): Counters {
    Counters(r.lines, r.codeLines, r.comments, r.keywords)
  }

  /** `LanguageResult`: the file count, the totals and the per-file results of one language. */
  datatype LanguageResult = LanguageResult(
    totalFiles: int,
    totalResults: FileResult,
    files: map<string, FileResult>)

  /** `AnalysisResults`: the report, from language name to that language's result. */
  type AnalysisResults = map<string, LanguageResult>

  /** The entry created on the first result of a language: no files, zero totals tagged with the language. */
  function NewLanguageResult(language: string): LanguageResult {
    LanguageResult(0, FileResult(language, "", 0, 0, 0, 0), map[])
  }

  /** The copy stored under a file's name: its four counters, with empty language and file name. */
  function StoredCopy(result: FileResult): FileResult {
    FileResult("", "", result.lines, result.codeLines, result.comments, result.keywords)
  }

  /**
   One step of `resultProc`: the entry of the result's language (created if
   absent) counts one more file, adds the result's counters to its totals and
   stores the result's counters under its file name, replacing any earlier
   entry for that name. Every other language is left as it was.
   */
  function Merged(results: AnalysisResults, result: FileResult): (merged: AnalysisResults)
    ensures merged.Keys == results.Keys + {result.language}
    ensures forall l :: l in results && l != result.language ==> merged[l] == results[l]
    ensures var before := if result.language in results then results[result.language]
                          else NewLanguageResult(result.language);
            var after := merged[result.language];
            && after.totalFiles == before.totalFiles + 1
            && CountsOf(after.totalResults) == CountsOf(before.totalResults).Plus(CountsOf(result))
            && after.totalResults.language == before.totalResults.language
            && after.totalResults.filename == before.totalResults.filename
            && after.files.Keys == before.files.Keys + {result.filename}
            && after.files[result.filename] == StoredCopy(result)
            && forall f :: f in before.files && f != result.filename ==> after.files[f] == before.files[f]
  {
    var langResult := if result.language in results then results[result.language]
                      else NewLanguageResult(result.language);
    results[result.language := MergedEntry(langResult, result)]
  }

  /** The language's entry after `result` is merged into it. */
  function MergedEntry(langResult: LanguageResult, result: FileResult): LanguageResult {
    var total := langResult.totalResults;
    LanguageResult(
      langResult.totalFiles + 1,
      total.(lines := total.lines + result.lines,
             comments := total.comments + result.comments,
             codeLines := total.codeLines + result.codeLines,
             keywords := total.keywords + result.keywords),
      langResult.files[result.filename := StoredCopy(result)])
  }

  /** `resultProc` over a whole stream: the results merged in the order received. */
  function Fold(results: AnalysisResults, stream: seq<FileResult>): AnalysisResults
  {
    if stream == [] then results
    else Merged(Fold(results, stream[..|stream| - 1]), stream[|stream| - 1])
  }

  /**
   The aggregator goroutine's state: the report it alone writes. `Merge` is
   the body of the receive loop, `ResultProc` the loop itself.
   */
  class ResultAggregator {
    var analysisResults: AnalysisResults

    constructor ()
      ensures analysisResults == map[]
    {
      analysisResults := map[];
    }

    method Merge(result: FileResult)
      modifies this
      ensures analysisResults == Merged(old(analysisResults), result)
    {
      if result.language !in analysisResults {
        analysisResults := analysisResults[result.language := NewLanguageResult(result.language)];
      }

      var langResult := analysisResults[result.language];
      langResult := langResult.(totalFiles := langResult.totalFiles + 1);

      var total := langResult.totalResults;
      total := total.(lines := total.lines + result.lines);
      total := total.(comments := total.comments + result.comments);
      total := total.(codeLines := total.codeLines + result.codeLines);
      total := total.(keywords := total.keywords + result.keywords);

      var perFile := FileResult("", "", result.lines, result.codeLines, result.comments, result.keywords);
      langResult := langResult.(totalResults := total, files := langResult.files[result.filename := perFile]);
      analysisResults := analysisResults[result.language := langResult];
    }

    method ResultProc(stream: seq<FileResult>)
      modifies this
      ensures analysisResults == Fold(old(analysisResults), stream)
    {
      for i := 0 to |stream|
        invariant analysisResults == Fold(old(analysisResults), stream[..i])
      {
        assert stream[..i + 1][..i] == stream[..i];
        Merge(stream[i]);
      }
      assert stream[..|stream|] == stream;
    }
  }

  /** Some key of a non-empty map. */
  ghost function AnyKey(files: map<string, FileResult>): (f: string)
    requires files != map[]
    ensures f in files
  {
    var f :| f in files; f
  }

  /** The pointwise sum of the counters of every per-file entry. */
  ghost function FilesSum(files: map<string, FileResult>): Counters
    decreases |files|
  {
    if files == map[] then NoCounts
    else
      var f := AnyKey(files);
      CountsOf(files[f]).Plus(FilesSum(files - {f}))
  }

  /** The sum may be split at any entry, not only the one `AnyKey` picks. */
  lemma {:induction false} FilesSumAt(files: map<string, FileResult>, f: string)
    requires f in files
    ensures FilesSum(files) == CountsOf(files[f]).Plus(FilesSum(files - {f}))
    decreases |files|
  {
    var g := AnyKey(files);
    if g != f {
      var rest := files - {g};
      FilesSumAt(rest, f);
      FilesSumAt(files - {f}, g);
      assert rest - {f} == (files - {f}) - {g};
    }
  }

  /** Adding an entry under a new name adds its counters to the sum. */
  lemma FilesSumInsert(files: map<string, FileResult>, f: string, r: FileResult)
    requires f !in files
    ensures FilesSum(files[f := r]) == CountsOf(r).Plus(FilesSum(files))
  {
    FilesSumAt(files[f := r], f);
    assert files[f := r] - {f} == files;
  }

  /**
   The invariant the report is meant to keep for a language: its totals are
   tagged with the language, it counts exactly the files it holds, and its
   totals are the sum of the per-file entries.
   */
  ghost predicate LanguageConsistent(language: string, langResult: LanguageResult) {
    && langResult.totalResults.language == language
    && langResult.totalResults.filename == ""
    && langResult.totalFiles == |langResult.files|
    && CountsOf(langResult.totalResults) == FilesSum(langResult.files)
  }

  ghost predicate Consistent(results: AnalysisResults) {
    forall l :: l in results ==> LanguageConsistent(l, results[l])
  }

  /** Merging a result under a file name its language has not seen keeps the report consistent. */
  lemma MergePreservesConsistency(results: AnalysisResults, result: FileResult)
    requires Consistent(results)
    requires result.language in results ==> result.filename !in results[result.language].files
    ensures Consistent(Merged(results, result))
  {
    var language := result.language;
    var before := if language in results then results[language] else NewLanguageResult(language);
    var merged := Merged(results, result);
    forall l | l in merged ensures LanguageConsistent(l, merged[l]) {
      if l == language {
        assert LanguageConsistent(language, before);
        MergedEntryConsistent(before, result);
        assert merged[language] == MergedEntry(before, result);
      } else {
        assert merged[l] == results[l];
      }
    }
  }

  /** Merging a result under a new file name into a consistent entry of its language keeps it consistent. */
  lemma MergedEntryConsistent(langResult: LanguageResult, result: FileResult)
    requires LanguageConsistent(result.language, langResult)
    requires result.filename !in langResult.files
    ensures LanguageConsistent(result.language, MergedEntry(langResult, result))
  {
    FilesSumInsert(langResult.files, result.filename, StoredCopy(result));
    assert CountsOf(StoredCopy(result)) == CountsOf(result);
  }

  /**
   A second result under a name the language already holds replaces the
   stored entry but still counts one more file, so the file count no longer
   matches the number of entries.
   */
  lemma MergeDuplicateBreaksFileCount(results: AnalysisResults, result: FileResult)
    requires Consistent(results)
    requires result.language in results && result.filename in results[result.language].files
    ensures var after := Merged(results, result)[result.language];
            after.totalFiles == |after.files| + 1
  {
    var before := results[result.language];
    assert before.files[result.filename := StoredCopy(result)].Keys == before.files.Keys;
  }

  /** How many results of the stream are tagged with `language`. */
  function CountFor(stream: seq<FileResult>, language: string): nat
  {
    if stream == [] then 0
    else CountFor(stream[..|stream| - 1], language) + (if stream[|stream| - 1].language == language then 1 else 0)
  }

  /** The summed counters of the results of the stream tagged with `language`. */
  function SumFor(stream: seq<FileResult>, language: string): Counters
  {
    if stream == [] then NoCounts
    else
      var last := stream[|stream| - 1];
      var sum := SumFor(stream[..|stream| - 1], language);
      if last.language == language then sum.Plus(CountsOf(last)) else sum
  }

  /** The file names of the results of the stream tagged with `language`. */
  function FilesOf(stream: seq<FileResult>, language: string): set<string>
  {
    if stream == [] then {}
    else
      var last := stream[|stream| - 1];
      FilesOf(stream[..|stream| - 1], language) + (if last.language == language then {last.filename} else {})
  }

  lemma {:induction false} FilesOfMembers(stream: seq<FileResult>, language: string, f: string)
    ensures f in FilesOf(stream, language) <==>
      exists i :: 0 <= i < |stream| && stream[i].language == language && stream[i].filename == f
  {
    if stream != [] {
      var init := stream[..|stream| - 1];
      FilesOfMembers(init, language, f);
      assert forall i :: 0 <= i < |init| ==> init[i] == stream[i];
    }
  }

  /**
   No result is lost, whether or not file names repeat: starting from an
   empty report, a language has an entry exactly when some result carries it,
   its file count is the number of its results, its totals are the sum of
   its results' counters and its per-file map has one key per distinct name.
   */
  lemma {:induction false} FoldTotals(stream: seq<FileResult>, language: string)
    ensures language in Fold(map[], stream) <==> CountFor(stream, language) > 0
    ensures CountFor(stream, language) == 0 ==>
      SumFor(stream, language) == NoCounts && FilesOf(stream, language) == {}
    ensures language in Fold(map[], stream) ==>
      var langResult := Fold(map[], stream)[language];
      && langResult.totalFiles == CountFor(stream, language)
      && CountsOf(langResult.totalResults) == SumFor(stream, language)
      && langResult.totalResults.language == language
      && langResult.files.Keys == FilesOf(stream, language)
  {
    if stream != [] {
      var init, last := stream[..|stream| - 1], stream[|stream| - 1];
      FoldTotals(init, language);
      var before := Fold(map[], init);
      assert Fold(map[], stream) == Merged(before, last);
      if last.language != language {
        assert CountFor(stream, language) == CountFor(init, language);
        assert SumFor(stream, language) == SumFor(init, language);
        assert FilesOf(stream, language) == FilesOf(init, language);
      } else {
        assert CountFor(stream, language) == CountFor(init, language) + 1;
        assert SumFor(stream, language) == SumFor(init, language).Plus(CountsOf(last));
        assert FilesOf(stream, language) == FilesOf(init, language) + {last.filename};
        if language !in before {
          assert Merged(before, last)[language].files.Keys == {last.filename};
        }
      }
    }
  }

  /** No two results of the stream have both the same language and the same file name. */
  predicate DistinctKeys(stream: seq<FileResult>) {
    forall i, j :: 0 <= i < j < |stream| && stream[i].language == stream[j].language ==>
      stream[i].filename != stream[j].filename
  }

  /**
   When every file of a language reports once, the report built from an
   empty one is consistent: each language counts exactly the files it holds
   and its totals are the sum of their entries.
   */
  lemma {:induction false} FoldConsistent(stream: seq<FileResult>)
    requires DistinctKeys(stream)
    ensures Consistent(Fold(map[], stream))
  {
    if stream != [] {
      var init, last := stream[..|stream| - 1], stream[|stream| - 1];
      assert DistinctKeys(init);
      FoldConsistent(init);
      FoldTotals(init, last.language);
      FilesOfMembers(init, last.language, last.filename);
      MergePreservesConsistency(Fold(map[], init), last);
    }
  }

  /**
   When every file of a language reports once, the report keeps each result's
   counters under its language and file name.
   */
  lemma {:induction false} FoldKeepsEveryFile(stream: seq<FileResult>)
    requires DistinctKeys(stream)
    ensures forall i :: 0 <= i < |stream| ==>
      && stream[i].language in Fold(map[], stream)
      && stream[i].filename in Fold(map[], stream)[stream[i].language].files
      && Fold(map[], stream)[stream[i].language].files[stream[i].filename] == StoredCopy(stream[i])
  {
    if stream != [] {
      var init, last := stream[..|stream| - 1], stream[|stream| - 1];
      assert DistinctKeys(init);
      FoldKeepsEveryFile(init);
      forall i | 0 <= i < |init|
        ensures stream[i].language in Fold(map[], stream)
        ensures stream[i].filename in Fold(map[], stream)[stream[i].language].files
        ensures Fold(map[], stream)[stream[i].language].files[stream[i].filename] == StoredCopy(stream[i])
      {
        assert init[i] == stream[i];
      }
    }
  }

  /** The file names of the results of the stream tagged with `language`, in arrival order. */
  function NamesFor(stream: seq<FileResult>, language: string): seq<string>
  {
    if stream == [] then []
    else
      var last := stream[|stream| - 1];
      NamesFor(stream[..|stream| - 1], language) + (if last.language == language then [last.filename] else [])
  }

  /** The arrival-order names of a language are as many as its results, and are its file names. */
  lemma {:induction false} NamesForMatches(stream: seq<FileResult>, language: string)
    ensures |NamesFor(stream, language)| == CountFor(stream, language)
    ensures forall f :: f in FilesOf(stream, language) <==> f in NamesFor(stream, language)
  {
    if stream != [] {
      NamesForMatches(stream[..|stream| - 1], language);
    }
  }

  /**
   When no file name of `language` arrives twice, that language's entry is
   consistent, whatever the other languages send and in whatever order.
   */
  lemma {:induction false} FoldLanguageConsistent(stream: seq<FileResult>, language: string)
    requires Util.NoDuplicates(NamesFor(stream, language))
    ensures language in Fold(map[], stream) ==> LanguageConsistent(language, Fold(map[], stream)[language])
  {
    if stream != [] {
      var init, last := stream[..|stream| - 1], stream[|stream| - 1];
      var names := NamesFor(init, language);
      assert Util.NoDuplicates(names) by {
        assert forall i :: 0 <= i < |names| ==> NamesFor(stream, language)[i] == names[i];
      }
      FoldLanguageConsistent(init, language);
      var before := Fold(map[], init);
      assert Fold(map[], stream) == Merged(before, last);
      if last.language == language {
        var entry := if language in before then before[language] else NewLanguageResult(language);
        assert LanguageConsistent(language, entry);
        LastNameIsFresh(stream, language);
        FoldTotals(init, language);
        MergedEntryConsistent(entry, last);
        assert Merged(before, last)[language] == MergedEntry(entry, last);
      }
    }
  }

  /** When no name of a language repeats, the last result of that language brings a name not seen before. */
  lemma LastNameIsFresh(stream: seq<FileResult>, language: string)
    requires stream != [] && stream[|stream| - 1].language == language
    requires Util.NoDuplicates(NamesFor(stream, language))
    ensures stream[|stream| - 1].filename !in FilesOf(stream[..|stream| - 1], language)
  {
    var init, last := stream[..|stream| - 1], stream[|stream| - 1];
    var names := NamesFor(init, language);
    var all := NamesFor(stream, language);
    NamesForMatches(init, language);
    assert all == names + [last.filename];
    forall i | 0 <= i < |names| ensures names[i] != last.filename {
      assert all[i] == names[i] && all[|names|] == last.filename;
    }
  }

  /**
   One language scanned end to end. The walk visits every path once, and the
   results of the language arrive one per matching file, in any order and
   interleaved with other languages' results. Then the language has an entry
   exactly when some file matched, and that entry is consistent, counts
   exactly the matching files and holds exactly their paths.
   */
  lemma OneLanguageScan(walk: seq<Util.WalkEntry>, ext: string, language: string,
                        stream: seq<FileResult>)
    requires Util.DistinctPaths(walk)
    requires multiset(NamesFor(stream, language)) == multiset(Util.Filtered(walk, ext))
    ensures language in Fold(map[], stream) <==> Util.Filtered(walk, ext) != []
    ensures language in Fold(map[], stream) ==>
      var langResult := Fold(map[], stream)[language];
      && LanguageConsistent(language, langResult)
      && langResult.totalFiles == |Util.Filtered(walk, ext)|
      && forall f :: f in langResult.files <==> f in Util.Filtered(walk, ext)
  {
    var names, files := NamesFor(stream, language), Util.Filtered(walk, ext);
    Util.FilteredDistinct(walk, ext);
    Util.NoDuplicatesPermutation(names, files);
    FoldLanguageConsistent(stream, language);
    FoldTotals(stream, language);
    NamesForMatches(stream, language);
    assert |names| == |multiset(names)| == |multiset(files)| == |files|;
    assert forall f :: f in names <==> f in files by {
      forall f ensures f in names <==> f in files {
        assert f in names <==> f in multiset(names);
        assert f in files <==> f in multiset(files);
      }
    }
  }

  /** Two results of one language merged into an empty report. */
  lemma TwoResultsOfOneLanguage(a: FileResult, b: FileResult)
    requires a.language == b.language
    ensures var report := Fold(map[], [a, b]);
            && report.Keys == {a.language}
            && report[a.language].totalFiles == 2
            && CountsOf(report[a.language].totalResults) == CountsOf(a).Plus(CountsOf(b))
  {
    assert [a, b][..1] == [a] && [a][..0] == [];
    assert Fold(map[], [a]) == Merged(map[], a);
    assert Fold(map[], [a, b]) == Merged(Merged(map[], a), b);
  }

  /** File A of the two-file example, analyzed: 3 lines, 2 code lines, and the matches of its two code lines. */
  lemma ExampleResultA(comment: Matcher, keyword: Matcher)
    ensures CountsOf(FileMetrics("x", "A", ["let a = 1", "", "# note"], comment, keyword))
         == Counters(3, 2, comment("let a = 1") + comment("# note"), keyword("let a = 1") + keyword("# note"))
  {
    ExampleFileA(comment);
    ExampleFileA(keyword);
  }

  /** File B of the two-file example, analyzed: 2 lines, 1 code line, and the matches of that line. */
  lemma ExampleResultB(comment: Matcher, keyword: Matcher)
    ensures CountsOf(FileMetrics("x", "B", ["if true", "  "], comment, keyword))
         == Counters(2, 1, comment("if true"), keyword("if true"))
  {
    ExampleFileB(comment);
    ExampleFileB(keyword);
  }

  /**
   The two-file example: for a language "x" with files A
   ["let a = 1", "", "# note"] and B ["if true", "  "], and matchers that find
   one comment in "# note" and one keyword in each of "let a = 1" and
   "if true", the report counts 2 files, 5 lines, 3 code lines, 1 comment and
   2 keywords.
   */
  lemma TwoFileExample(comment: Matcher, keyword: Matcher, a: FileResult, b: FileResult)
    requires comment("let a = 1") == 0 && comment("# note") == 1 && comment("if true") == 0
    requires keyword("let a = 1") == 1 && keyword("# note") == 0 && keyword("if true") == 1
    requires a == FileMetrics("x", "A", ["let a = 1", "", "# note"], comment, keyword)
    requires b == FileMetrics("x", "B", ["if true", "  "], comment, keyword)
    ensures Fold(map[], [a, b]).Keys == {"x"}
    ensures Fold(map[], [a, b])["x"].totalFiles == 2
    ensures CountsOf(Fold(map[], [a, b])["x"].totalResults) == Counters(5, 3, 1, 2)
  {
    ExampleResultA(comment, keyword);
    ExampleResultB(comment, keyword);
    TwoResultsOfOneLanguage(a, b);
  }
}
