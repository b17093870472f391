/**
 The per-file line classification of analyzer.go: counting lines and code
 lines, summing comment and keyword matches over trimmed code lines, tagging
 a file's result with its language and path, and building the keyword
 pattern from the configured keyword list.

 The regular-expression engine is not part of this model: a compiled pattern
 is a `Matcher`, the number of non-overlapping matches it finds in a line,
 and compiling is a parameter `compile` from pattern text to `Matcher`.
 */
module Analyzer {
  import opened Text
  import Util

  datatype Option<T> = None | Some(value: T)

  /**
   `FileResult`: the language and path of a file and its four counters. Go's
   `int` is modelled as an unbounded integer.
   */
  datatype FileResult = FileResult(
    language: string,
    filename: string,
    lines: int,
    codeLines: int,
    comments: int,
    keywords: int)

  /** A compiled pattern: how many non-overlapping matches it finds in a line. */
  type Matcher = string -> nat

  /** A line counts as code when it is non-empty after trimming tab, newline and space. */
  predicate IsCodeLine(line: string) {
    Trim(line) != []
  }

  /** The number of code lines among `lines`. */
  function CodeLineCount(lines: seq<string>): (n: nat)
    ensures n <= |lines|
  {
    if lines == [] then 0
    else CodeLineCount(lines[..|lines| - 1]) + (if IsCodeLine(lines[|lines| - 1]) then 1 else 0)
  }

  /** The number of lines made only of tabs, newlines and spaces (the empty line included). */
  function BlankLineCount(lines: seq<string>): nat
  {
    if lines == [] then 0
    else BlankLineCount(lines[..|lines| - 1]) + (if AllCutset(lines[|lines| - 1]) then 1 else 0)
  }

  /**
   The sum of `m` over the trimmed forms of the code lines; blank lines add
   nothing and `m` never sees an untrimmed line.
   */
  function MatchTotal(lines: seq<string>, m: Matcher): (n: nat)
    ensures CodeLineCount(lines) == 0 ==> n == 0
  {
    if lines == [] then 0
    else
      var line := Trim(lines[|lines| - 1]);
      MatchTotal(lines[..|lines| - 1], m) + (if |line| > 0 then m(line) else 0)
  }

  /** The result a file with these lines yields once tagged with `language` and `filename`. */
  function FileMetrics(language: string, filename: string, lines: seq<string>,
                       commentRegex: Matcher, keywordsRegex: Matcher): FileResult
  {
    FileResult(language, filename, |lines|, CodeLineCount(lines),
               MatchTotal(lines, commentRegex), MatchTotal(lines, keywordsRegex))
  }

  /**
   `analyzeFile`: counts every line, and for every line that is non-empty
   after trimming counts a code line and adds the keyword and comment matches
   found in the trimmed line. The language and file name stay empty.
   */
  method AnalyzeFile(lines: seq<string>, commentRegex: Matcher, keywordsRegex: Matcher)
    returns (result: FileResult)
    ensures result.language == "" && result.filename == ""
    ensures result.lines == |lines|
    ensures result.codeLines == CodeLineCount(lines)
    ensures result.keywords == MatchTotal(lines, keywordsRegex)
    ensures result.comments == MatchTotal(lines, commentRegex)
  {
    result := FileResult("", "", 0, 0, 0, 0);
    result := result.(lines := result.lines + |lines|);

    var numberOfCodeLines := 0;
    for i := 0 to |lines|
      invariant numberOfCodeLines == CodeLineCount(lines[..i])
      invariant result.language == "" && result.filename == ""
      invariant result.lines == |lines| && result.codeLines == 0
      invariant result.keywords == MatchTotal(lines[..i], keywordsRegex)
      invariant result.comments == MatchTotal(lines[..i], commentRegex)
    {
      NextLine(lines, i, keywordsRegex);
      NextLine(lines, i, commentRegex);
      var line := Trim(lines[i]);
      if |line| > 0 {
        numberOfCodeLines := numberOfCodeLines + 1;
        result := result.(keywords := result.keywords + keywordsRegex(line));
        result := result.(comments := result.comments + commentRegex(line));
      }
    }
    assert lines[..|lines|] == lines;

    result := result.(codeLines := result.codeLines + numberOfCodeLines);
  }

  /** Extending the scanned prefix of a file by its next line. */
  lemma NextLine(lines: seq<string>, i: nat, m: Matcher)
    requires i < |lines|
    ensures CodeLineCount(lines[..i + 1]) == CodeLineCount(lines[..i]) + (if |Trim(lines[i])| > 0 then 1 else 0)
    ensures MatchTotal(lines[..i + 1], m) == MatchTotal(lines[..i], m) + (if |Trim(lines[i])| > 0 then m(Trim(lines[i])) else 0)
  {
    assert lines[..i + 1][..i] == lines[..i];
  }

  /**
   `processFile` once the file's lines are read: the analysis of the lines,
   tagged with the language and the file's path.
   */
  method ProcessFile(lang: string, fileName: string, lines: seq<string>,
                     commentRegex: Matcher, keywordsRegex: Matcher)
    returns (resultFile: FileResult)
    ensures resultFile == FileMetrics(lang, fileName, lines, commentRegex, keywordsRegex)
  {
    resultFile := AnalyzeFile(lines, commentRegex, keywordsRegex);
    resultFile := resultFile.(language := lang, filename := fileName);
  }

  /** The keyword pattern: the keywords as alternatives between word boundaries. */
  function KeywordsPattern(keywords: seq<string>): (p: string)
    ensures |p| == |Join(keywords, "|")| + 6
    ensures p[..3] == "\\b(" && p[|p| - 3..] == ")\\b"
  {
    "\\b(" + Join(keywords, "|") + ")\\b"
  }

  /** Reads the alternatives back out of a pattern of the form `\b(a|b|...)\b`. */
  function Alternatives(pattern: string): Option<seq<string>>
  {
    if |pattern| >= 6 && pattern[..3] == "\\b(" && pattern[|pattern| - 3..] == ")\\b"
    then Some(Split(pattern[3..|pattern| - 3], '|'))
    else None
  }

  /**
   The keyword pattern keeps every keyword, in the configured order: its
   alternatives are exactly the keywords, provided there is at least one and
   none contains the '|' that separates them.
   */
  lemma KeywordsPatternRoundTrip(keywords: seq<string>)
    requires |keywords| >= 1
    requires forall i :: 0 <= i < |keywords| ==> '|' !in keywords[i]
    ensures Alternatives(KeywordsPattern(keywords)) == Some(keywords)
  {
    var p := KeywordsPattern(keywords);
    assert p[3..|p| - 3] == Join(keywords, "|");
    SplitJoin(keywords, '|');
  }

  /**
   `processFiles` without its goroutines: compiles the comment pattern and
   the keyword pattern built from the stringified keyword list, then
   processes the files one after another. A file that cannot be read ends the
   scan (`log.Fatal`), so no results are produced at all.
   */
  method ProcessFiles<V>(lang: string, files: seq<string>,
                         readLines: string -> Option<seq<string>>,
                         commentPattern: string, keywordValues: seq<V>,
                         toString: V -> string, compile: string -> Matcher)
    returns (results: Option<seq<FileResult>>)
    ensures results.None? <==> exists i :: 0 <= i < |files| && readLines(files[i]).None?
    ensures results.Some? ==>
      && |results.value| == |files|
      && forall i :: 0 <= i < |files| ==>
           results.value[i] == FileMetrics(lang, files[i], readLines(files[i]).value,
                                           compile(commentPattern),
                                           compile(KeywordsPattern(Util.Stringified(keywordValues, toString))))
  {
    var commentRegex := compile(commentPattern);
    var keywords := Util.ConvertArray(keywordValues, toString);
    assert keywords == Util.Stringified(keywordValues, toString);
    var keywordsStr := KeywordsPattern(keywords);
    var keywordsRegex := compile(keywordsStr);
    results := ProcessEach(lang, files, readLines, commentRegex, keywordsRegex);
  }

  /**
   The loop of `processFiles` that hands every file to `processFile`, run
   one file after another. The first file that cannot be read ends the scan.
   */
  method ProcessEach(lang: string, files: seq<string>,
                     readLines: string -> Option<seq<string>>,
                     commentRegex: Matcher, keywordsRegex: Matcher)
    returns (results: Option<seq<FileResult>>)
    ensures results.None? <==> exists i :: 0 <= i < |files| && readLines(files[i]).None?
    ensures results.Some? ==>
      && |results.value| == |files|
      && forall i :: 0 <= i < |files| ==>
           results.value[i] == FileMetrics(lang, files[i], readLines(files[i]).value, commentRegex, keywordsRegex)
  {
    var done: seq<FileResult> := [];
    for i := 0 to |files|
      invariant |done| == i
      invariant forall k :: 0 <= k < i ==>
        && readLines(files[k]).Some?
        && done[k] == FileMetrics(lang, files[k], readLines(files[k]).value, commentRegex, keywordsRegex)
    {
      var fileName := files[i];
      match readLines(fileName)
      case None =>
        assert readLines(files[i]).None?;
        return None;
      case Some(lines) =>
        var resultFile := ProcessFile(lang, fileName, lines, commentRegex, keywordsRegex);
        ghost var before := done;
        done := done + [resultFile];
        forall k | 0 <= k <= i
          ensures readLines(files[k]).Some?
          ensures done[k] == FileMetrics(lang, files[k], readLines(files[k]).value, commentRegex, keywordsRegex)
        {
          if k < i {
            assert done[k] == before[k];
          } else {
            assert done[k] == resultFile && readLines(files[k]).value == lines;
          }
        }
    }
    results := Some(done);
  }

  /** Every line is either a code line or a blank one, never both. */
  lemma {:induction false} LinesAreCodeOrBlank(lines: seq<string>)
    ensures CodeLineCount(lines) + BlankLineCount(lines) == |lines|
  {
    if lines != [] {
      LinesAreCodeOrBlank(lines[..|lines| - 1]);
    }
  }

  /** The match totals of consecutive stretches of a file add up. */
  lemma {:induction false} MatchTotalAppend(a: seq<string>, b: seq<string>, m: Matcher)
    ensures MatchTotal(a + b, m) == MatchTotal(a, m) + MatchTotal(b, m)
  {
    if b == [] {
      assert a + b == a;
    } else {
      MatchTotalAppend(a, b[..|b| - 1], m);
      assert (a + b)[..|a + b| - 1] == a + b[..|b| - 1];
      assert (a + b)[|a + b| - 1] == b[|b| - 1];
    }
  }

  /**
   The matchers only ever see trimmed code lines: two matchers that agree on
   the trimmed form of every code line give the same total.
   */
  lemma {:induction false} MatchTotalSeesOnlyTrimmedCodeLines(lines: seq<string>, m1: Matcher, m2: Matcher)
    requires forall i :: 0 <= i < |lines| && IsCodeLine(lines[i]) ==> m1(Trim(lines[i])) == m2(Trim(lines[i]))
    ensures MatchTotal(lines, m1) == MatchTotal(lines, m2)
  {
    if lines != [] {
      MatchTotalSeesOnlyTrimmedCodeLines(lines[..|lines| - 1], m1, m2);
    }
  }

  /** A line that starts and ends outside the cutset is its own trimmed form. */
  lemma TrimOfUntrimmed(line: string)
    requires line != [] && !InCutset(line[0]) && !InCutset(line[|line| - 1])
    ensures Trim(line) == line
  {
    assert TrimLeft(line) == line;
  }

  /**
   Only tab, newline and space are trimmed: a line that still holds a carriage
   return counts as code. The line reader strips the '\r' of a CRLF line end,
   so such a line comes from a lone '\r' or from "\r\r\n".
   */
  lemma CarriageReturnLineIsCode(line: string)
    requires AllCutset(line)
    ensures IsCodeLine(line + "\r")
    ensures !IsCodeLine(line)
  {
    assert !AllCutset(line + "\r") by {
      assert (line + "\r")[|line|] == '\r';
    }
  }

  /** A line with no cutset character at either end is a code line, matched as it is. */
  predicate Untrimmed(line: string) {
    line != [] && !InCutset(line[0]) && !InCutset(line[|line| - 1])
  }

  /** A file of a code line, a blank line and a code line. */
  lemma CodeBlankCode(x: string, y: string, z: string, m: Matcher)
    requires Untrimmed(x) && AllCutset(y) && Untrimmed(z)
    ensures CodeLineCount([x, y, z]) == 2
    ensures MatchTotal([x, y, z], m) == m(x) + m(z)
  {
    TrimOfUntrimmed(x);
    TrimOfUntrimmed(z);
    assert [x, y, z][..2] == [x, y];
    assert [x, y][..1] == [x];
    assert [x][..0] == [];
    assert CodeLineCount([x]) == 1 && MatchTotal([x], m) == m(x);
    assert CodeLineCount([x, y]) == 1 && MatchTotal([x, y], m) == m(x);
  }

  /** A file of a code line followed by a blank line. */
  lemma CodeBlank(x: string, y: string, m: Matcher)
    requires Untrimmed(x) && AllCutset(y)
    ensures CodeLineCount([x, y]) == 1
    ensures MatchTotal([x, y], m) == m(x)
  {
    TrimOfUntrimmed(x);
    assert [x, y][..1] == [x];
    assert [x][..0] == [];
  }

  /**
   File A of the two-file example, ["let a = 1", "", "# note"]: two
   code lines, and each matcher is applied to "let a = 1" and "# note" only.
   */
  lemma ExampleFileA(m: Matcher)
    ensures CodeLineCount(["let a = 1", "", "# note"]) == 2
    ensures MatchTotal(["let a = 1", "", "# note"], m) == m("let a = 1") + m("# note")
  {
    CodeBlankCode("let a = 1", "", "# note", m);
  }

  /**
   File B of the two-file example, ["if true", "  "]: one code line,
   and each matcher is applied to "if true" only.
   */
  lemma ExampleFileB(m: Matcher)
    ensures CodeLineCount(["if true", "  "]) == 1
    ensures MatchTotal(["if true", "  "], m) == m("if true")
  {
    CodeBlank("if true", "  ", m);
  }
}
