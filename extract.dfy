/**
  The extraction entry points of src/extract_comments.ts: the grammar path
  (processJavaOrPython), the routing between it and the regular-expression fallback
  (extractComments), the language of a file (getLanguageByExtension), the text
  normalisation of readFileContent and the id pass of processFile.
*/
module Extract {
  import opened Wrappers
  import opened Text
  import Comments
  import Cleaner
  import Segmenter
  import Offsets
  import Position
  import SyntaxTree
  import RegexFallback

  /** One capture of the grammar query: the node and its extent in the text (character
      offsets, end exclusive) and in rows. */
  datatype Capture = Capture(node: nat, startIndex: nat, endIndex: nat, startRow: nat, endRow: nat)

  /** What the grammar library gives back for a text: the tree and the captures of the
      language's query, or a failure (an exception from the parser or the query). */
  datatype ParseOutcome = Parsed(tree: seq<SyntaxTree.Node>, captures: seq<Capture>) | GrammarFailure

  predicate ValidCapture(content: string, tree: seq<SyntaxTree.Node>, c: Capture) {
    c.node < |tree| && c.startIndex <= c.endIndex <= |content|
  }

  /** The library's guarantee: a well-formed tree whose captures lie inside the text. */
  predicate WellFormedParse(content: string, parse: ParseOutcome) {
    parse.Parsed? ==>
      SyntaxTree.ValidTree(parse.tree)
      && forall k :: 0 <= k < |parse.captures| ==> ValidCapture(content, parse.tree, parse.captures[k])
  }

  // ---------------------------------------------------------------- grammar path

  /** The record for one paragraph of a capture. */
  function GrammarRecord(language: string, paragraph: string, className: string, level: string,
                         position: Position.ParagraphPosition): Comments.CommentInfo {
    Comments.CommentInfo(0, language, paragraph, className, "", level, [""], position.lineNumber, position.indexes, "")
  }

  /** The records of the paragraphs of one capture, in order, each with its position. */
  function ParagraphRecords(language: string, paragraphs: seq<string>, className: string, level: string,
                            positions: seq<Position.ParagraphPosition>): (r: seq<Comments.CommentInfo>)
    requires |positions| == |paragraphs|
    ensures |r| == |paragraphs|
    ensures forall k :: 0 <= k < |r| ==> r[k].id == 0 && r[k].relativePath == "" && r[k].lastCommitDate == ""
  {
    seq(|paragraphs|, k requires 0 <= k < |paragraphs| =>
      GrammarRecord(language, paragraphs[k], className, level, positions[k]))
  }

  /** The records of one capture: its text cleaned and split into paragraphs, each with
      the capture's class name and level. */
  function CaptureRecords(content: string, language: string, tree: seq<SyntaxTree.Node>, c: Capture)
    : (r: seq<Comments.CommentInfo>)
    requires SyntaxTree.ValidTree(tree) && ValidCapture(content, tree, c)
    ensures forall k :: 0 <= k < |r| ==> r[k].id == 0 && r[k].relativePath == "" && r[k].lastCommitDate == ""
  {
    var nodeText := content[c.startIndex..c.endIndex];
    var paragraphs := Segmenter.Paragraphs(Cleaner.CleanCommentMarkers(nodeText, language), language);
    ParagraphRecords(language, paragraphs, SyntaxTree.ClassNameOf(tree, c.node, language),
                     SyntaxTree.LevelName(SyntaxTree.Level(tree, c.node, language)),
                     Position.Positions(nodeText, paragraphs, c.startRow,
                                        Offsets.GlobalToPosition(c.startIndex, Offsets.LineStarts(content)), content, c.endRow))
  }

  /** processJavaOrPython as a value: the records of the captures, in capture order. */
  function GrammarRecords(content: string, language: string, tree: seq<SyntaxTree.Node>, captures: seq<Capture>)
    : (r: seq<Comments.CommentInfo>)
    requires SyntaxTree.ValidTree(tree)
    requires forall k :: 0 <= k < |captures| ==> ValidCapture(content, tree, captures[k])
    ensures forall k :: 0 <= k < |r| ==> r[k].id == 0 && r[k].relativePath == "" && r[k].lastCommitDate == ""
    decreases |captures|
  {
    if captures == [] then []
    else
      var n := |captures| - 1;
      GrammarRecords(content, language, tree, captures[..n]) + CaptureRecords(content, language, tree, captures[n])
  }

  /** processJavaOrPython: the offset table, then each capture in turn. */
  method ProcessJavaOrPython(fileContent: string, language: string, tree: seq<SyntaxTree.Node>, captures: seq<Capture>)
    returns (comments: seq<Comments.CommentInfo>)
    requires SyntaxTree.ValidTree(tree)
    requires forall k :: 0 <= k < |captures| ==> ValidCapture(fileContent, tree, captures[k])
    ensures comments == GrammarRecords(fileContent, language, tree, captures)
  {
    var lineOffsets := Offsets.BuildLineOffsets(fileContent);
    comments := [];
    for index := 0 to |captures|
      invariant comments == GrammarRecords(fileContent, language, tree, captures[..index])
    {
      var records := CaptureComments(fileContent, language, tree, lineOffsets, captures[index]);
      GrammarRecordsSnoc(fileContent, language, tree, captures, index);
      comments := comments + records;
    }
    assert captures[..|captures|] == captures;
  }

  /** One more capture appends its records. */
  lemma GrammarRecordsSnoc(content: string, language: string, tree: seq<SyntaxTree.Node>, captures: seq<Capture>,
                           index: nat)
    requires SyntaxTree.ValidTree(tree)
    requires forall k :: 0 <= k < |captures| ==> ValidCapture(content, tree, captures[k])
    requires index < |captures|
    ensures GrammarRecords(content, language, tree, captures[..index + 1])
            == GrammarRecords(content, language, tree, captures[..index]) + CaptureRecords(content, language, tree, captures[index])
  {
    assert captures[..index + 1][..index] == captures[..index];
  }

  /** The body of the `forEach` over the captures. */
  method CaptureComments(fileContent: string, language: string, tree: seq<SyntaxTree.Node>,
                         lineOffsets: seq<int>, c: Capture) returns (records: seq<Comments.CommentInfo>)
    requires SyntaxTree.ValidTree(tree) && ValidCapture(fileContent, tree, c)
    requires lineOffsets == Offsets.LineStarts(fileContent)
    ensures records == CaptureRecords(fileContent, language, tree, c)
  {
    var originalStartPos := Offsets.GlobalToPosition(c.startIndex, lineOffsets);
    var classNode := SyntaxTree.FindNearestClass(tree, c.node);
    var className := if classNode.Some? then SyntaxTree.ExtractClassName(tree, classNode.value, language) else "";
    assert className == SyntaxTree.ClassNameOf(tree, c.node, language);
    var level := SyntaxTree.DetermineCommentLevel(tree, c.node, language);
    var nodeText := fileContent[c.startIndex..c.endIndex];
    var cleanedText := Cleaner.CleanCommentMarkers(nodeText, language);
    var paragraphs := Segmenter.SplitIntoParagraphs(cleanedText, language);
    ghost var positions := Position.Positions(nodeText, paragraphs, c.startRow, originalStartPos, fileContent, c.endRow);
    PositionsArePlaced(nodeText, paragraphs, c.startRow, originalStartPos, fileContent, c.endRow);
    records := PlaceParagraphs(fileContent, language, nodeText, paragraphs, className, SyntaxTree.LevelName(level),
                               c.startRow, originalStartPos, c.endRow, positions);
  }

  /** `positions` are what calculateParagraphPosition gives for the paragraphs. */
  predicate PlacedBy(positions: seq<Position.ParagraphPosition>, nodeText: string, paragraphs: seq<string>,
                     startRow: int, startColumn: int, fileContent: string, endRow: int)
  {
    |positions| == |paragraphs|
    && forall k {:trigger Position.PositionOf(nodeText, paragraphs[k], startRow, startColumn, fileContent, endRow)} ::
         0 <= k < |paragraphs| ==>
         positions[k] == Position.PositionOf(nodeText, paragraphs[k], startRow, startColumn, fileContent, endRow)
  }

  lemma PositionsArePlaced(nodeText: string, paragraphs: seq<string>, startRow: int, startColumn: int,
                           fileContent: string, endRow: int)
    ensures PlacedBy(Position.Positions(nodeText, paragraphs, startRow, startColumn, fileContent, endRow),
                     nodeText, paragraphs, startRow, startColumn, fileContent, endRow)
  {
  }

  /** The loop over the paragraphs of one capture: each paragraph placed and recorded. */
  method PlaceParagraphs(fileContent: string, language: string, nodeText: string, paragraphs: seq<string>,
                         className: string, level: string, startRow: int, startColumn: int, endRow: int,
                         ghost positions: seq<Position.ParagraphPosition>)
    returns (records: seq<Comments.CommentInfo>)
    requires PlacedBy(positions, nodeText, paragraphs, startRow, startColumn, fileContent, endRow)
    ensures records == ParagraphRecords(language, paragraphs, className, level, positions)
  {
    records := [];
    for j := 0 to |paragraphs|
      invariant |records| == j
      invariant forall k :: 0 <= k < j ==> records[k] == GrammarRecord(language, paragraphs[k], className, level, positions[k])
    {
      var record := RecordParagraph(fileContent, language, nodeText, paragraphs, j, className, level,
                                    startRow, startColumn, endRow, positions);
      records := records + [record];
    }
  }

  /** The body of the loop over the paragraphs: paragraph `j` placed and recorded. */
  method RecordParagraph(fileContent: string, language: string, nodeText: string, paragraphs: seq<string>, j: nat,
                         className: string, level: string, startRow: int, startColumn: int, endRow: int,
                         ghost positions: seq<Position.ParagraphPosition>)
    returns (record: Comments.CommentInfo)
    requires j < |paragraphs|
    requires PlacedBy(positions, nodeText, paragraphs, startRow, startColumn, fileContent, endRow)
    ensures record == GrammarRecord(language, paragraphs[j], className, level, positions[j])
  {
    var position := Position.CalculateParagraphPosition(nodeText, paragraphs[j], startRow, startColumn,
                                                        fileContent, endRow);
    record := GrammarRecord(language, paragraphs[j], className, level, position);
  }

  // ---------------------------------------------------------------- routing

  /** Texts longer than this many characters skip the grammar. */
  const MaxFileSize: nat := 1024 * 1024

  /** extractComments as a value. */
  function ExtractCommentsOf(fileContent: string, language: string, parse: ParseOutcome)
    : (r: seq<Comments.CommentInfo>)
    requires WellFormedParse(fileContent, parse)
    ensures language != "java" && language != "python" && language != "pharo" ==> r == []
    ensures |fileContent| <= MaxFileSize && (language == "java" || language == "python") && parse.Parsed? ==>
              r == GrammarRecords(fileContent, language, parse.tree, parse.captures)
  {
    if |fileContent| > MaxFileSize then RegexFallback.Fallback(fileContent, language)
    else if language == "java" || language == "python" then
      match parse
      case Parsed(tree, captures) => GrammarRecords(fileContent, language, tree, captures)
      case GrammarFailure => RegexFallback.Fallback(fileContent, language)
    else if language == "pharo" then RegexFallback.Fallback(fileContent, language)
    else []
  }

  /** extractComments: the size check, the grammar path for Java and Python with the
      fallback on failure, the fallback for Pharo, nothing otherwise. */
  method ExtractComments(fileContent: string, language: string, parse: ParseOutcome)
    returns (comments: seq<Comments.CommentInfo>)
    requires WellFormedParse(fileContent, parse)
    ensures comments == ExtractCommentsOf(fileContent, language, parse)
  {
    if |fileContent| > MaxFileSize {
      comments := RegexFallback.FallbackToRegexComments(fileContent, language);
      return;
    }
    if language == "java" || language == "python" {
      match parse
      case Parsed(tree, captures) =>
        comments := ProcessJavaOrPython(fileContent, language, tree, captures);
      case GrammarFailure =>
        comments := RegexFallback.FallbackToRegexComments(fileContent, language);
    } else if language == "pharo" {
      comments := RegexFallback.FallbackToRegexComments(fileContent, language);
    } else {
      comments := [];
    }
  }

  /** Which path a text takes: the fallback when it is too large, for Pharo and when the
      grammar fails; nothing for a language without a path. */
  lemma ExtractRouting(fileContent: string, language: string, parse: ParseOutcome)
    requires WellFormedParse(fileContent, parse)
    ensures |fileContent| > MaxFileSize ==> ExtractCommentsOf(fileContent, language, parse) == RegexFallback.Fallback(fileContent, language)
    ensures language == "pharo" ==> ExtractCommentsOf(fileContent, language, parse) == RegexFallback.Fallback(fileContent, language)
    ensures (language == "java" || language == "python") && parse.GrammarFailure?
            ==> ExtractCommentsOf(fileContent, language, parse) == RegexFallback.Fallback(fileContent, language)
    ensures language != "java" && language != "python" && language != "pharo"
            ==> ExtractCommentsOf(fileContent, language, parse) == []
  {
    if language != "java" && language != "python" && language != "pharo" && |fileContent| > MaxFileSize {
      RegexFallback.UnknownLanguageGivesNothing(fileContent, language);
    }
  }

  // ---------------------------------------------------------------- grammar records

  /** What every record of the grammar path holds: id 0, the language, a trimmed
      non-empty paragraph, no path, the single empty type, no commit date, one of the
      four level names, and rows and columns that are not negative. */
  predicate IsGrammarRecord(c: Comments.CommentInfo, language: string) {
    c.id == 0 && c.language == language && c.content != [] && IsTrimmed(c.content)
    && c.relativePath == "" && c.types == [""] && c.lastCommitDate == ""
    && c.level in ["class", "method", "inline", "module"]
    && c.lineNumber.0 >= 0 && c.lineNumber.1 >= 0 && c.index.0 >= 0 && c.index.1 >= 0
  }

  /** A position whose rows and columns are not negative. */
  predicate NonNegative(p: Position.ParagraphPosition) {
    p.lineNumber.0 >= 0 && p.lineNumber.1 >= 0 && p.indexes.0 >= 0 && p.indexes.1 >= 0
  }

  lemma ParagraphRecordsShape(language: string, paragraphs: seq<string>, className: string, level: string,
                              positions: seq<Position.ParagraphPosition>)
    requires |positions| == |paragraphs|
    requires forall k :: 0 <= k < |paragraphs| ==> paragraphs[k] != [] && IsTrimmed(paragraphs[k])
    requires forall k :: 0 <= k < |positions| ==> NonNegative(positions[k])
    requires level in ["class", "method", "inline", "module"]
    ensures forall c :: c in ParagraphRecords(language, paragraphs, className, level, positions)
              ==> IsGrammarRecord(c, language)
  {
    var r := ParagraphRecords(language, paragraphs, className, level, positions);
    forall k | 0 <= k < |r| ensures IsGrammarRecord(r[k], language) {
      assert NonNegative(positions[k]);
    }
  }

  /** Every position calculateParagraphPosition gives has rows and columns that are not
      negative. */
  lemma PositionsNonNegative(nodeText: string, paragraphs: seq<string>, startRow: int, startColumn: int,
                             content: string, endRow: int)
    ensures forall k :: 0 <= k < |paragraphs| ==>
              NonNegative(Position.Positions(nodeText, paragraphs, startRow, startColumn, content, endRow)[k])
  {
    forall k | 0 <= k < |paragraphs|
      ensures NonNegative(Position.Positions(nodeText, paragraphs, startRow, startColumn, content, endRow)[k])
    {
      Position.PositionBounds(nodeText, paragraphs[k], startRow, startColumn, content, endRow);
    }
  }

  lemma CaptureRecordsShape(content: string, language: string, tree: seq<SyntaxTree.Node>, c: Capture)
    requires SyntaxTree.ValidTree(tree) && ValidCapture(content, tree, c)
    ensures forall r :: r in CaptureRecords(content, language, tree, c) ==> IsGrammarRecord(r, language)
  {
    var nodeText := content[c.startIndex..c.endIndex];
    var cleaned := Cleaner.CleanCommentMarkers(nodeText, language);
    var paragraphs := Segmenter.Paragraphs(cleaned, language);
    var column := Offsets.GlobalToPosition(c.startIndex, Offsets.LineStarts(content));
    Segmenter.ParagraphsAreTrimmed(cleaned, language);
    PositionsNonNegative(nodeText, paragraphs, c.startRow, column, content, c.endRow);
    ParagraphRecordsShape(language, paragraphs, SyntaxTree.ClassNameOf(tree, c.node, language),
                          SyntaxTree.LevelName(SyntaxTree.Level(tree, c.node, language)),
                          Position.Positions(nodeText, paragraphs, c.startRow, column, content, c.endRow));
  }

  /** Every record of the grammar path has the fixed fields above. */
  lemma {:induction false} GrammarRecordsShape(content: string, language: string, tree: seq<SyntaxTree.Node>,
                                               captures: seq<Capture>)
    requires SyntaxTree.ValidTree(tree)
    requires forall k :: 0 <= k < |captures| ==> ValidCapture(content, tree, captures[k])
    ensures forall r :: r in GrammarRecords(content, language, tree, captures) ==> IsGrammarRecord(r, language)
    decreases |captures|
  {
    if captures != [] {
      var n := |captures| - 1;
      GrammarRecordsShape(content, language, tree, captures[..n]);
      CaptureRecordsShape(content, language, tree, captures[n]);
    }
  }

  /** The class search knows only the Java kind: in a tree without a node of that kind
      (a Python tree) every capture's class name is ''. */
  lemma NoJavaClassNoClassName(tree: seq<SyntaxTree.Node>, i: nat, language: string)
    requires SyntaxTree.ValidTree(tree) && i < |tree|
    requires forall k :: 0 <= k < |tree| ==> tree[k].kind != "class_declaration"
    ensures SyntaxTree.ClassNameOf(tree, i, language) == ""
  {
  }

  // ---------------------------------------------------------------- file language

  /** The index of the last `c` in `s`, or -1. */
  function LastIndexOf(s: string, c: char): (r: int)
    ensures -1 <= r < |s|
    ensures r >= 0 ==> s[r] == c && forall k :: r < k < |s| ==> s[k] != c
    ensures r == -1 ==> forall k :: 0 <= k < |s| ==> s[k] != c
    decreases |s|
  {
    if s == [] then -1
    else if s[|s| - 1] == c then |s| - 1
    else LastIndexOf(s[..|s| - 1], c)
  }

  /** The last segment of a path, after trailing slashes are dropped. */
  function BaseName(path: string): string {
    var trimmed := Cleaner.DropTrailing('/', path);
    trimmed[LastIndexOf(trimmed, '/') + 1..]
  }

  /** `path.extname` (POSIX): from the last dot of the base name to its end; '' when the
      base name has no dot, starts with its only dot (or its last dot), or is `..`. */
  function ExtName(path: string): (r: string)
    ensures r == [] || (r[0] == '.' && '/' !in r)
  {
    var base := BaseName(path);
    var dot := LastIndexOf(base, '.');
    if dot <= 0 || base == ".." then [] else base[dot..]
  }

  /** getLanguageByExtension: the language of the three known extensions. */
  function GetLanguageByExtension(filePath: string): (r: Option<string>)
    ensures r.Some? ==> r.value in ["python", "java", "pharo"]
  {
    var ext := ExtName(filePath);
    if ext == ".py" then Some("python")
    else if ext == ".java" then Some("java")
    else if ext == ".st" then Some("pharo")
    else None
  }

  /** A file has a known extension exactly when its base name ends with it and has
      something before it. */
  lemma ExtNameIsSuffix(path: string, ext: string)
    requires ext in [".py", ".java", ".st"]
    ensures ExtName(path) == ext <==> |BaseName(path)| > |ext| && EndsWith(BaseName(path), ext)
  {
    var base := BaseName(path);
    var dot := LastIndexOf(base, '.');
    if |base| > |ext| && EndsWith(base, ext) {
      var d := |base| - |ext|;
      assert base[d] == '.';
      assert forall k :: d < k < |base| ==> base[k] == ext[k - d];
      assert dot == d;
      assert base[dot..] == ext;
    }
    if ExtName(path) == ext {
      assert base[dot..] == ext;
      assert base[|base| - |ext|..] == ext;
    }
  }

  // ---------------------------------------------------------------- file text

  const ByteOrderMark: char := 0xFEFF as char

  /** `.replace(/\r\n?/g, '\n')` on the text from index `i` on: every CRLF pair and every
      lone CR becomes LF. */
  function NormalizeFrom(s: string, i: nat): (r: string)
    requires i <= |s|
    ensures '\r' !in r
    decreases |s| - i
  {
    if i == |s| then []
    else if s[i] == '\r' then
      if i + 1 < |s| && s[i + 1] == '\n' then "\n" + NormalizeFrom(s, i + 2)
      else "\n" + NormalizeFrom(s, i + 1)
    else [s[i]] + NormalizeFrom(s, i + 1)
  }

  /** `.replace(/\r\n?/g, '\n')`. */
  function NormalizeNewlines(s: string): (r: string)
    ensures '\r' !in r
  {
    NormalizeFrom(s, 0)
  }

  /** The normalisation of readFileContent: one leading byte order mark dropped, then
      line breaks unified. */
  function NormalizeContent(content: string): (r: string)
    ensures '\r' !in r
  {
    var noBom := if |content| > 0 && content[0] == ByteOrderMark then content[1..] else content;
    NormalizeNewlines(noBom)
  }

  /** What follows a prefix is normalised as if the prefix were not there. */
  lemma NormalizeShift(a: string, rest: string, j: nat)
    requires j <= |rest|
    ensures NormalizeFrom(a + rest, |a| + j) == NormalizeFrom(rest, j)
  {
    assert (a + rest)[|a| + j..] == rest[j..];
    NormalizeSameSuffix(a + rest, rest, |a| + j, j);
  }

  /** The normalisation from an index depends only on the text from that index on. */
  lemma {:induction false} NormalizeSameSuffix(s: string, t: string, i: nat, j: nat)
    requires i <= |s| && j <= |t| && s[i..] == t[j..]
    ensures NormalizeFrom(s, i) == NormalizeFrom(t, j)
    decreases |s| - i
  {
    if i < |s| {
      assert s[i] == s[i..][0] == t[j..][0] == t[j];
      assert s[i + 1..] == s[i..][1..] == t[j..][1..] == t[j + 1..];
      if s[i] == '\r' && i + 1 < |s| && s[i + 1] == '\n' {
        assert s[i + 1] == s[i + 1..][0] == t[j + 1..][0] == t[j + 1];
        assert s[i + 2..] == s[i + 1..][1..] == t[j + 1..][1..] == t[j + 2..];
        NormalizeSameSuffix(s, t, i + 2, j + 2);
      } else {
        NormalizeSameSuffix(s, t, i + 1, j + 1);
      }
    }
  }

  /** From index `i` of a prefix without carriage return, the prefix is kept as it is. */
  lemma {:induction false} NormalizePlainFrom(a: string, rest: string, i: nat)
    requires i <= |a| && forall k :: i <= k < |a| ==> a[k] != '\r'
    ensures NormalizeFrom(a + rest, i) == a[i..] + NormalizeFrom(rest, 0)
    decreases |a| - i
  {
    if i == |a| {
      NormalizeShift(a, rest, 0);
    } else {
      NormalizePlainFrom(a, rest, i + 1);
      NormalizeStepPlain(a + rest, i);
      ConsSlice(a, i, NormalizeFrom(rest, 0));
    }
  }

  /** A character other than a carriage return is copied. */
  lemma NormalizeStepPlain(s: string, i: nat)
    requires i < |s| && s[i] != '\r'
    ensures NormalizeFrom(s, i) == [s[i]] + NormalizeFrom(s, i + 1)
  {
  }

  lemma ConsSlice(a: string, i: nat, tail: string)
    requires i < |a|
    ensures [a[i]] + (a[i + 1..] + tail) == a[i..] + tail
  {
    assert a[i..] == [a[i]] + a[i + 1..];
  }

  /** Text without a carriage return passes through unchanged, whatever follows it. */
  lemma NormalizeKeepsPlainPrefix(a: string, rest: string)
    requires '\r' !in a
    ensures NormalizeNewlines(a + rest) == a + NormalizeNewlines(rest)
  {
    forall k | 0 <= k < |a| ensures a[k] != '\r' {
      assert a[k] in a;
    }
    NormalizePlainFrom(a, rest, 0);
    assert a[0..] == a;
  }

  /** Text without a carriage return is left as it is. */
  lemma NormalizePlain(s: string)
    requires '\r' !in s
    ensures NormalizeNewlines(s) == s
  {
    NormalizeKeepsPlainPrefix(s, []);
    assert s + [] == s;
  }

  /** Normalising twice is normalising once. */
  lemma NormalizeNewlinesIdempotent(s: string)
    ensures NormalizeNewlines(NormalizeNewlines(s)) == NormalizeNewlines(s)
  {
    NormalizePlain(NormalizeNewlines(s));
  }

  /** A CRLF pair becomes one line feed and what lies before it is kept. */
  lemma NormalizeCrLf(a: string, b: string)
    requires '\r' !in a
    ensures NormalizeNewlines(a + "\r\n" + b) == a + "\n" + NormalizeNewlines(b)
  {
    assert a + "\r\n" + b == a + ("\r\n" + b);
    NormalizeKeepsPlainPrefix(a, "\r\n" + b);
    NormalizeShift("\r\n", b, 0);
  }

  /** A carriage return not followed by a line feed becomes one line feed and what lies
      before it is kept. */
  lemma NormalizeLoneCr(a: string, b: string)
    requires '\r' !in a
    requires b == [] || b[0] != '\n'
    ensures NormalizeNewlines(a + "\r" + b) == a + "\n" + NormalizeNewlines(b)
  {
    assert a + "\r" + b == a + ("\r" + b);
    NormalizeKeepsPlainPrefix(a, "\r" + b);
    NormalizeShift("\r", b, 0);
  }

  // ---------------------------------------------------------------- ids

  /** The effect of `setId(id++)`, `setRelativePath` and `setLastCommitDate(filePath)` on
      one file's records. */
  function Numbered(comments: seq<Comments.CommentInfo>, firstId: int, relativePath: string,
                    filePath: string, blame: Comments.Blame)
    : (r: seq<Comments.CommentInfo>)
    ensures |r| == |comments|
    ensures forall k :: 0 <= k < |r| ==>
              r[k] == Comments.Dated(comments[k].(id := firstId + k, relativePath := relativePath), filePath, blame)
    ensures forall k :: 0 <= k < |r| ==>
              r[k].id == firstId + k && r[k].relativePath == relativePath
              && r[k].(id := comments[k].id, relativePath := comments[k].relativePath,
                       lastCommitDate := comments[k].lastCommitDate) == comments[k]
    ensures forall k :: 0 <= k < |r| && comments[k].lastCommitDate == "" ==>
              r[k].lastCommitDate == Comments.DateOrEmpty(blame(filePath, comments[k].lineNumber.0 + 1))
  {
    seq(|comments|, k requires 0 <= k < |comments| =>
      Comments.Dated(comments[k].(id := firstId + k, relativePath := relativePath), filePath, blame))
  }

  /** The id pass over one file's records, in order, from the running counter. */
  method NumberComments(comments: seq<Comments.CommentInfo>, id: int, relativePath: string,
                        filePath: string, blame: Comments.Blame)
    returns (numbered: seq<Comments.CommentInfo>, nextId: int)
    ensures numbered == Numbered(comments, id, relativePath, filePath, blame)
    ensures nextId == id + |comments|
  {
    numbered := [];
    nextId := id;
    for k := 0 to |comments|
      invariant nextId == id + k
      invariant numbered == Numbered(comments[..k], id, relativePath, filePath, blame)
    {
      numbered := numbered + [Comments.Dated(comments[k].(id := nextId, relativePath := relativePath), filePath, blame)];
      nextId := nextId + 1;
    }
    assert comments[..|comments|] == comments;
  }

  /** `filePath.replace(workspaceRoot, '')`: the first occurrence of the root removed. */
  function RelativePath(filePath: string, workspaceRoot: string): (r: string)
    ensures StartsWith(filePath, workspaceRoot) ==> r == filePath[|workspaceRoot|..]
    ensures !Contains(filePath, workspaceRoot) ==> r == filePath
  {
    var i := IndexOf(filePath, workspaceRoot);
    if i >= 0 then filePath[..i] + filePath[i + |workspaceRoot|..] else filePath
  }

  /** A file of the workspace as processFile sees it: its path, its text as read (before
      normalisation) and what the grammar library gives for the normalised text. */
  datatype SourceFile = SourceFile(path: string, text: string, parse: ParseOutcome)

  predicate WellFormedFile(f: SourceFile) {
    WellFormedParse(NormalizeContent(f.text), f.parse)
  }

  /** The records of one file before numbering, or None when the file is skipped (empty
      text or no known language). */
  function FileComments(f: SourceFile): Option<seq<Comments.CommentInfo>>
    requires WellFormedFile(f)
  {
    var content := NormalizeContent(f.text);
    if content == [] then None
    else match GetLanguageByExtension(f.path)
      case None => None
      case Some(language) => Some(ExtractCommentsOf(content, language, f.parse))
  }

  /** All records of the entries, in entry order. */
  function Flatten(entries: seq<(string, seq<Comments.CommentInfo>)>): seq<Comments.CommentInfo>
    decreases |entries|
  {
    if entries == [] then []
    else Flatten(entries[..|entries| - 1]) + entries[|entries| - 1].1
  }

  /** What processFile learns of each file before numbering: its path, and its records
      or None when it is skipped. */
  type Outcome = (string, Option<seq<Comments.CommentInfo>>)

  /** The outcomes of the files, in the order the workspace lists them. */
  function Outcomes(files: seq<SourceFile>): (r: seq<Outcome>)
    requires forall k :: 0 <= k < |files| ==> WellFormedFile(files[k])
    ensures |r| == |files|
  {
    seq(|files|, k requires 0 <= k < |files| => (files[k].path, FileComments(files[k])))
  }

  /** The entry of one file: none when the file is skipped, otherwise its path and its
      records numbered from `nextId` and given the relative path. */
  function FileEntry(outcome: Outcome, workspaceRoot: string, blame: Comments.Blame, nextId: int)
    : (r: seq<(string, seq<Comments.CommentInfo>)>)
    ensures |r| <= 1 && (r == [] <==> outcome.1.None?)
  {
    match outcome.1
    case None => []
    case Some(comments) =>
      [(outcome.0, Numbered(comments, nextId, RelativePath(outcome.0, workspaceRoot), outcome.0, blame))]
  }

  /** The numbering of processFile: one entry per file that is not skipped, keyed by the
      file's path, its records numbered from the running id, given the relative path and
      dated. */
  function Numbering(outcomes: seq<Outcome>, workspaceRoot: string, blame: Comments.Blame, firstId: int)
    : (r: seq<(string, seq<Comments.CommentInfo>)>)
    ensures forall e, k :: e in r && 0 <= k < |e.1| ==> e.1[k].relativePath == RelativePath(e.0, workspaceRoot)
    decreases |outcomes|
  {
    if outcomes == [] then []
    else
      var n := |outcomes| - 1;
      var before := Numbering(outcomes[..n], workspaceRoot, blame, firstId);
      before + FileEntry(outcomes[n], workspaceRoot, blame, firstId + |Flatten(before)|)
  }

  /** `outcomes` are the outcomes of the files, in the order the workspace lists them. */
  predicate OutcomesOf(outcomes: seq<Outcome>, files: seq<SourceFile>) {
    |outcomes| == |files|
    && (forall k :: 0 <= k < |files| ==> WellFormedFile(files[k]))
    && forall k {:trigger FileComments(files[k])} :: 0 <= k < |files| ==>
         outcomes[k] == (files[k].path, FileComments(files[k]))
  }

  lemma OutcomesAreOf(files: seq<SourceFile>)
    requires forall k :: 0 <= k < |files| ==> WellFormedFile(files[k])
    ensures OutcomesOf(Outcomes(files), files)
  {
  }

  /** processFile: reads, routes and numbers each file in turn, with one counter for the
      whole workspace starting at 0, and dates each record with `blame`. `outcomes` names
      what each file gives before numbering. */
  method ProcessFile(files: seq<SourceFile>, workspaceRoot: string, blame: Comments.Blame, ghost outcomes: seq<Outcome>)
    returns (comments: seq<(string, seq<Comments.CommentInfo>)>)
    requires OutcomesOf(outcomes, files)
    ensures comments == Numbering(outcomes, workspaceRoot, blame, 0)
  {
    comments := [];
    var id := 0;
    for i := 0 to |files|
      invariant comments == Numbering(outcomes[..i], workspaceRoot, blame, 0)
      invariant id == |Flatten(comments)|
    {
      comments, id := ProcessOneFile(files, workspaceRoot, blame, outcomes, i, comments, id);
    }
    assert outcomes[..|files|] == outcomes;
  }

  /** The numbering of the first `i + 1` files: that of the first `i`, then the entry of
      file `i` numbered after all records so far. */
  lemma NumberingNext(outcomes: seq<Outcome>, workspaceRoot: string, blame: Comments.Blame, i: nat)
    requires i < |outcomes|
    ensures Numbering(outcomes[..i + 1], workspaceRoot, blame, 0)
            == Numbering(outcomes[..i], workspaceRoot, blame, 0)
               + FileEntry(outcomes[i], workspaceRoot, blame, |Flatten(Numbering(outcomes[..i], workspaceRoot, blame, 0))|)
  {
    assert outcomes[..i + 1][..i] == outcomes[..i];
  }

  /** One turn of the file loop: file `i` is read, routed and, unless skipped, numbered
      from the running id, dated and stored under its path. */
  method ProcessOneFile(files: seq<SourceFile>, workspaceRoot: string, blame: Comments.Blame,
                        ghost outcomes: seq<Outcome>, i: nat,
                        comments: seq<(string, seq<Comments.CommentInfo>)>, id: int)
    returns (comments': seq<(string, seq<Comments.CommentInfo>)>, id': int)
    requires i < |files| && OutcomesOf(outcomes, files)
    requires comments == Numbering(outcomes[..i], workspaceRoot, blame, 0) && id == |Flatten(comments)|
    ensures comments' == Numbering(outcomes[..i + 1], workspaceRoot, blame, 0) && id' == |Flatten(comments')|
  {
    var f := files[i];
    var relativePath := RelativePath(f.path, workspaceRoot);
    var current := ReadAndExtract(files, i, outcomes);
    if current.None? {
      NumberingSkips(outcomes, workspaceRoot, blame, i);
      return comments, id;
    }
    var numbered, nextId := NumberComments(current.value, id, relativePath, f.path, blame);
    NumberingAppends(outcomes, workspaceRoot, blame, i, comments, numbered);
    comments' := comments + [(f.path, numbered)];
    id' := nextId;
  }

  /** A skipped file adds no entry. */
  lemma NumberingSkips(outcomes: seq<Outcome>, workspaceRoot: string, blame: Comments.Blame, i: nat)
    requires i < |outcomes| && outcomes[i].1.None?
    ensures Numbering(outcomes[..i + 1], workspaceRoot, blame, 0) == Numbering(outcomes[..i], workspaceRoot, blame, 0)
  {
    NumberingNext(outcomes, workspaceRoot, blame, i);
  }

  /** A file that is not skipped adds its numbered records as one entry. */
  lemma NumberingAppends(outcomes: seq<Outcome>, workspaceRoot: string, blame: Comments.Blame, i: nat,
                         comments: seq<(string, seq<Comments.CommentInfo>)>, numbered: seq<Comments.CommentInfo>)
    requires i < |outcomes| && outcomes[i].1.Some?
    requires comments == Numbering(outcomes[..i], workspaceRoot, blame, 0)
    requires numbered == Numbered(outcomes[i].1.value, |Flatten(comments)|, RelativePath(outcomes[i].0, workspaceRoot),
                                  outcomes[i].0, blame)
    ensures comments + [(outcomes[i].0, numbered)] == Numbering(outcomes[..i + 1], workspaceRoot, blame, 0)
    ensures |Flatten(comments + [(outcomes[i].0, numbered)])| == |Flatten(comments)| + |outcomes[i].1.value|
  {
    NumberingNext(outcomes, workspaceRoot, blame, i);
    FlattenSnoc(comments, (outcomes[i].0, numbered));
  }

  /** The reading and routing of file `i`: nothing when its text is empty or its
      extension unknown, otherwise what extractComments gives for its normalised text. */
  method ReadAndExtract(files: seq<SourceFile>, i: nat, ghost outcomes: seq<Outcome>)
    returns (current: Option<seq<Comments.CommentInfo>>)
    requires i < |files| && OutcomesOf(outcomes, files)
    ensures outcomes[i] == (files[i].path, current)
  {
    var f := files[i];
    assert outcomes[i] == (f.path, FileComments(f));
    var content := NormalizeContent(f.text);
    if content == [] {
      return None;
    }
    var lang := GetLanguageByExtension(f.path);
    if lang.None? {
      return None;
    }
    var records := ExtractComments(content, lang.value, f.parse);
    current := Some(records);
  }

  lemma FlattenSnoc(entries: seq<(string, seq<Comments.CommentInfo>)>, e: (string, seq<Comments.CommentInfo>))
    ensures Flatten(entries + [e]) == Flatten(entries) + e.1
  {
    assert (entries + [e])[..|entries|] == entries;
  }

  /** Appending at most one entry appends its records. */
  lemma FlattenAppend(before: seq<(string, seq<Comments.CommentInfo>)>, entry: seq<(string, seq<Comments.CommentInfo>)>)
    requires |entry| <= 1
    ensures Flatten(before + entry) == Flatten(before) + (if entry == [] then [] else entry[0].1)
  {
    if entry != [] {
      assert entry == [entry[0]];
      FlattenSnoc(before, entry[0]);
    } else {
      assert before + entry == before;
    }
  }

  /** The entry the numbering adds for the last outcome. */
  function LastEntry(outcomes: seq<Outcome>, workspaceRoot: string, blame: Comments.Blame, firstId: int): (r: seq<(string, seq<Comments.CommentInfo>)>)
    requires outcomes != []
    ensures |r| <= 1
  {
    var n := |outcomes| - 1;
    FileEntry(outcomes[n], workspaceRoot, blame, firstId + |Flatten(Numbering(outcomes[..n], workspaceRoot, blame, firstId))|)
  }

  /** One step of the numbering adds the records of the file's entry, if any, at the end. */
  lemma NumberingStep(outcomes: seq<Outcome>, workspaceRoot: string, blame: Comments.Blame, firstId: int)
    requires outcomes != []
    ensures Numbering(outcomes, workspaceRoot, blame, firstId)
            == Numbering(outcomes[..|outcomes| - 1], workspaceRoot, blame, firstId) + LastEntry(outcomes, workspaceRoot, blame, firstId)
    ensures Flatten(Numbering(outcomes, workspaceRoot, blame, firstId))
            == Flatten(Numbering(outcomes[..|outcomes| - 1], workspaceRoot, blame, firstId))
               + (if LastEntry(outcomes, workspaceRoot, blame, firstId) == [] then [] else LastEntry(outcomes, workspaceRoot, blame, firstId)[0].1)
  {
    FlattenAppend(Numbering(outcomes[..|outcomes| - 1], workspaceRoot, blame, firstId), LastEntry(outcomes, workspaceRoot, blame, firstId));
  }

  /** The ids of the workspace run from the first id, in file order and record order,
      without gap or repeat: the `k`-th record of all files has id `firstId + k`. */
  lemma {:induction false} NumberingIdsAreConsecutive(outcomes: seq<Outcome>, workspaceRoot: string, blame: Comments.Blame, firstId: int)
    ensures forall k :: 0 <= k < |Flatten(Numbering(outcomes, workspaceRoot, blame, firstId))| ==>
              Flatten(Numbering(outcomes, workspaceRoot, blame, firstId))[k].id == firstId + k
    decreases |outcomes|
  {
    if outcomes != [] {
      NumberingIdsAreConsecutive(outcomes[..|outcomes| - 1], workspaceRoot, blame, firstId);
      NumberingStep(outcomes, workspaceRoot, blame, firstId);
    }
  }

  /** Hence two records of the workspace never share an id. */
  lemma NumberingIdsDistinct(outcomes: seq<Outcome>, workspaceRoot: string, blame: Comments.Blame, firstId: int, k: nat, l: nat)
    requires k < l < |Flatten(Numbering(outcomes, workspaceRoot, blame, firstId))|
    ensures Flatten(Numbering(outcomes, workspaceRoot, blame, firstId))[k].id
            != Flatten(Numbering(outcomes, workspaceRoot, blame, firstId))[l].id
  {
    NumberingIdsAreConsecutive(outcomes, workspaceRoot, blame, firstId);
  }

  /** `records` are the records of `outcome` with an id of their own, the relative path
      of its file and the commit date the lookup gives for that file. */
  predicate NumberedFrom(outcome: Outcome, workspaceRoot: string, blame: Comments.Blame, records: seq<Comments.CommentInfo>) {
    outcome.1.Some? && |records| == |outcome.1.value|
    && forall k :: 0 <= k < |records| ==>
         records[k] == Comments.Dated(outcome.1.value[k].(id := records[k].id, relativePath := RelativePath(outcome.0, workspaceRoot)),
                                      outcome.0, blame)
  }

  /** Each entry belongs to a file that was not skipped, and each of its records carries
      that file's relative path and commit date; every other field is what
      extractComments gave. */
  lemma {:induction false} NumberingEntriesFromFiles(outcomes: seq<Outcome>, workspaceRoot: string, blame: Comments.Blame, firstId: int)
    ensures forall e :: e in Numbering(outcomes, workspaceRoot, blame, firstId) ==>
              exists i :: 0 <= i < |outcomes| && outcomes[i].0 == e.0 && NumberedFrom(outcomes[i], workspaceRoot, blame, e.1)
    decreases |outcomes|
  {
    if outcomes != [] {
      var n := |outcomes| - 1;
      NumberingEntriesFromFiles(outcomes[..n], workspaceRoot, blame, firstId);
      NumberingStep(outcomes, workspaceRoot, blame, firstId);
      var before := Numbering(outcomes[..n], workspaceRoot, blame, firstId);
      var entry := LastEntry(outcomes, workspaceRoot, blame, firstId);
      forall e | e in Numbering(outcomes, workspaceRoot, blame, firstId)
        ensures exists i :: 0 <= i < |outcomes| && outcomes[i].0 == e.0 && NumberedFrom(outcomes[i], workspaceRoot, blame, e.1)
      {
        if e in before {
          var i :| 0 <= i < n && outcomes[..n][i].0 == e.0 && NumberedFrom(outcomes[..n][i], workspaceRoot, blame, e.1);
          assert outcomes[i] == outcomes[..n][i];
        } else {
          assert e == entry[0];
          assert NumberedFrom(outcomes[n], workspaceRoot, blame, e.1);
        }
      }
    }
  }

  /** Every file that was not skipped has an entry under its path. */
  lemma NumberingCoversFiles(outcomes: seq<Outcome>, workspaceRoot: string, blame: Comments.Blame, firstId: int)
    ensures forall i :: 0 <= i < |outcomes| && outcomes[i].1.Some? ==>
              exists e :: e in Numbering(outcomes, workspaceRoot, blame, firstId) && e.0 == outcomes[i].0
                && NumberedFrom(outcomes[i], workspaceRoot, blame, e.1)
  {
    forall i | 0 <= i < |outcomes| && outcomes[i].1.Some?
      ensures exists e :: e in Numbering(outcomes, workspaceRoot, blame, firstId) && e.0 == outcomes[i].0
                && NumberedFrom(outcomes[i], workspaceRoot, blame, e.1)
    {
      EntryOfFile(outcomes, workspaceRoot, blame, firstId, i);
    }
  }

  /** The entry of file `i`, when it was not skipped. */
  lemma {:induction false} EntryOfFile(outcomes: seq<Outcome>, workspaceRoot: string, blame: Comments.Blame, firstId: int, i: nat)
    requires i < |outcomes| && outcomes[i].1.Some?
    ensures exists e :: e in Numbering(outcomes, workspaceRoot, blame, firstId) && e.0 == outcomes[i].0
              && NumberedFrom(outcomes[i], workspaceRoot, blame, e.1)
    decreases |outcomes|
  {
    var n := |outcomes| - 1;
    if i < n {
      EntryOfFile(outcomes[..n], workspaceRoot, blame, firstId, i);
      assert outcomes[..n][i] == outcomes[i];
      var e :| e in Numbering(outcomes[..n], workspaceRoot, blame, firstId) && e.0 == outcomes[i].0
               && NumberedFrom(outcomes[i], workspaceRoot, blame, e.1);
      EarlierEntryKept(outcomes, workspaceRoot, blame, firstId, e);
      assert e in Numbering(outcomes, workspaceRoot, blame, firstId) && e.0 == outcomes[i].0
             && NumberedFrom(outcomes[i], workspaceRoot, blame, e.1);
    } else {
      LastEntryNumbered(outcomes, workspaceRoot, blame, firstId);
      var e := LastEntry(outcomes, workspaceRoot, blame, firstId)[0];
      assert e in Numbering(outcomes, workspaceRoot, blame, firstId) && e.0 == outcomes[i].0
             && NumberedFrom(outcomes[i], workspaceRoot, blame, e.1);
    }
  }

  /** The entries for the files before the last one are kept. */
  lemma EarlierEntryKept(outcomes: seq<Outcome>, workspaceRoot: string, blame: Comments.Blame, firstId: int,
                         e: (string, seq<Comments.CommentInfo>))
    requires outcomes != [] && e in Numbering(outcomes[..|outcomes| - 1], workspaceRoot, blame, firstId)
    ensures e in Numbering(outcomes, workspaceRoot, blame, firstId)
  {
    NumberingStep(outcomes, workspaceRoot, blame, firstId);
  }

  /** The entry added for a last file that was not skipped holds its records, numbered. */
  lemma LastEntryNumbered(outcomes: seq<Outcome>, workspaceRoot: string, blame: Comments.Blame, firstId: int)
    requires outcomes != [] && outcomes[|outcomes| - 1].1.Some?
    ensures |LastEntry(outcomes, workspaceRoot, blame, firstId)| == 1
    ensures LastEntry(outcomes, workspaceRoot, blame, firstId)[0].0 == outcomes[|outcomes| - 1].0
    ensures NumberedFrom(outcomes[|outcomes| - 1], workspaceRoot, blame, LastEntry(outcomes, workspaceRoot, blame, firstId)[0].1)
    ensures LastEntry(outcomes, workspaceRoot, blame, firstId)[0] in Numbering(outcomes, workspaceRoot, blame, firstId)
  {
    NumberingStep(outcomes, workspaceRoot, blame, firstId);
  }
}
