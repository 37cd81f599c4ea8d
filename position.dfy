/**
  Position recovery (calculateParagraphPosition in src/extract_comments.ts): the rows
  and columns in the file of one paragraph of a comment. The comment is cleaned with
  the Java rules whatever its language, as the source does.
*/
module Position {
  import opened Text
  import Cleaner

  /** Rows `[start, end]` and columns `[start, end]` of a paragraph. */
  datatype ParagraphPosition = ParagraphPosition(lineNumber: (int, int), indexes: (int, int))

  function Max0(x: int): int {
    if x < 0 then 0 else x
  }

  function Min(x: int, y: int): int {
    if x < y then x else y
  }

  /** The lines after the first all match: each non-blank trimmed paragraph line occurs in
      the trimmed comment line at the same distance from row `i`, as far as the comment
      goes. */
  predicate RestMatches(commentLines: seq<string>, paragraphLines: seq<string>, i: nat) {
    forall j :: 1 <= j < |paragraphLines| && i + j < |commentLines| ==> LineMatches(commentLines, paragraphLines, i, j)
  }

  /** Paragraph line `j` is blank once trimmed, or occurs in the trimmed comment row
      `i + j`. */
  predicate LineMatches(commentLines: seq<string>, paragraphLines: seq<string>, i: nat, j: nat)
    requires j < |paragraphLines| && i + j < |commentLines|
  {
    Trim(paragraphLines[j]) == [] || Contains(Trim(commentLines[i + j]), Trim(paragraphLines[j]))
  }

  /** Row `i` is an exact match (first tier): not blank, holding the trimmed first
      paragraph line, and the following lines match. */
  predicate ExactAt(commentLines: seq<string>, paragraphLines: seq<string>, i: nat)
    requires i < |commentLines| && |paragraphLines| >= 1
  {
    Trim(commentLines[i]) != [] && Trim(paragraphLines[0]) != []
    && Contains(commentLines[i], Trim(paragraphLines[0]))
    && RestMatches(commentLines, paragraphLines, i)
  }

  /** The row tests of the first tier: entry `i` says whether row `i` is an exact match. */
  function ExactRows(commentLines: seq<string>, paragraphLines: seq<string>): seq<bool>
    requires |paragraphLines| >= 1
  {
    seq(|commentLines|, i requires 0 <= i < |commentLines| => ExactAt(commentLines, paragraphLines, i))
  }

  /** The row tests of the second tier: entry `i` says whether row `i` holds `first`. */
  function HoldingRows(commentLines: seq<string>, first: string): seq<bool> {
    seq(|commentLines|, i requires 0 <= i < |commentLines| => Contains(commentLines[i], first))
  }

  /** The first index at or after `from` whose test passes, or -1: the first row a tier's
      search stops at. */
  function FirstTrue(tests: seq<bool>, from: nat): (r: int)
    ensures r == -1 || from <= r < |tests|
    decreases |tests| - from
  {
    if from >= |tests| then -1
    else if tests[from] then from
    else FirstTrue(tests, from + 1)
  }

  /** The index found passes its test and every index before it fails; -1 means every
      test fails. */
  lemma {:induction false} FirstTrueIsFirst(tests: seq<bool>, from: nat)
    ensures var r := FirstTrue(tests, from);
            (r == -1 || tests[r])
            && (r == -1 ==> forall i :: from <= i < |tests| ==> !tests[i])
            && (r >= 0 ==> forall i :: from <= i < r ==> !tests[i])
    decreases |tests| - from
  {
    if from < |tests| && !tests[from] {
      FirstTrueIsFirst(tests, from + 1);
    }
  }

  /** One step of a tier's search. */
  lemma FirstTrueStep(tests: seq<bool>, i: nat)
    requires i < |tests|
    ensures FirstTrue(tests, i) == if tests[i] then i else FirstTrue(tests, i + 1)
  {
  }

  /** The rows of the paragraph inside the cleaned comment, by the three tiers: an exact
      multi-line match, else the first row holding the first line (the end clipped to
      the comment), else row 0. */
  function RowsInComment(commentLines: seq<string>, paragraphLines: seq<string>): (r: (int, int))
    requires |commentLines| >= 1 && |paragraphLines| >= 1
    ensures 0 <= r.0 <= r.1
    ensures r.0 == 0 || r.0 < |commentLines|
  {
    Tiers(FirstTrue(ExactRows(commentLines, paragraphLines), 0), FirstHoldingRow(commentLines, paragraphLines),
          |commentLines|, |paragraphLines|)
  }

  /** The second tier's row: the first row holding the trimmed first paragraph line, or
      -1 when there is none or that line is blank. */
  function FirstHoldingRow(commentLines: seq<string>, paragraphLines: seq<string>): int
    requires |paragraphLines| >= 1
  {
    var first := Trim(paragraphLines[0]);
    if first != [] then FirstTrue(HoldingRows(commentLines, first), 0) else -1
  }

  /** The rows chosen from the first two tiers' rows (each -1 when it found none). */
  function Tiers(exact: int, holding: int, commentCount: int, paragraphCount: int): (int, int) {
    if exact >= 0 then (exact, exact + paragraphCount - 1)
    else if holding >= 0 then (holding, Min(holding + paragraphCount - 1, commentCount - 1))
    else (0, paragraphCount - 1)
  }

  /** The column at which `part` starts in line `row` of the file, if the row exists,
      `part` is not empty and occurs there. */
  function FoundColumn(fileLines: seq<string>, row: int, part: string): (r: int)
    ensures r == -1 || (0 <= row < |fileLines| && part != [] && r >= 0 && OccursAt(fileLines[row], part, r)
                        && r == IndexOf(fileLines[row], part))
  {
    if 0 <= row < |fileLines| && part != [] then IndexOf(fileLines[row], part) else -1
  }

  /** The start column: where the trimmed first line occurs in the start row, else the
      comment's own column. */
  function StartColumn(fileLines: seq<string>, row: int, first: string, originalStartIndex: int): (r: int)
    ensures r == originalStartIndex || (0 <= row < |fileLines| && 0 <= r && OccursAt(fileLines[row], first, r))
  {
    var found := FoundColumn(fileLines, row, first);
    if found >= 0 then found else originalStartIndex
  }

  /** The end column: just after the trimmed last line in the end row, else the comment's
      column plus the paragraph's length. */
  function EndColumn(fileLines: seq<string>, row: int, last: string, fallback: int): (r: int)
    ensures r == fallback || (0 <= row < |fileLines| && |last| <= r && OccursAt(fileLines[row], last, r - |last|))
  {
    var found := FoundColumn(fileLines, row, last);
    if found >= 0 then found + |last| else fallback
  }

  /** calculateParagraphPosition as a value. */
  function PositionOf(originalComment: string, paragraph: string, originalStartLine: int,
                      originalStartIndex: int, fileContent: string, originalEndLine: int): (r: ParagraphPosition)
    ensures r.lineNumber.0 >= 0 && r.lineNumber.1 >= 0 && r.indexes.0 >= 0 && r.indexes.1 >= 0
    ensures originalEndLine >= 0 ==> r.lineNumber.1 <= originalEndLine
  {
    var paragraphLines := Split(paragraph);
    Place(Split(fileContent), paragraphLines,
          RowsInComment(Split(Cleaner.CleanCommentMarkers(originalComment, "java")), paragraphLines),
          originalStartLine, originalStartIndex, originalEndLine, |paragraph|)
  }

  /** The positions of the paragraphs of one comment, in order. */
  function Positions(originalComment: string, paragraphs: seq<string>, originalStartLine: int,
                     originalStartIndex: int, fileContent: string, originalEndLine: int)
    : (r: seq<ParagraphPosition>)
    ensures |r| == |paragraphs|
  {
    seq(|paragraphs|, k requires 0 <= k < |paragraphs| =>
      PositionOf(originalComment, paragraphs[k], originalStartLine, originalStartIndex, fileContent, originalEndLine))
  }

  /** The position of a paragraph whose rows inside the comment are `rows`. */
  function Place(lines: seq<string>, paragraphLines: seq<string>, rows: (int, int), originalStartLine: int,
                 originalStartIndex: int, originalEndLine: int, paragraphLength: int): (r: ParagraphPosition)
    requires |paragraphLines| >= 1
    ensures r.lineNumber.0 >= 0 && r.lineNumber.1 >= 0 && r.indexes.0 >= 0 && r.indexes.1 >= 0
    ensures originalEndLine >= 0 ==> r.lineNumber.1 <= originalEndLine
  {
    var actualStartLine := originalStartLine + rows.0;
    var actualEndLine := Min(originalStartLine + rows.1, originalEndLine);
    var startCharIndex := StartColumn(lines, actualStartLine, Trim(paragraphLines[0]), originalStartIndex);
    var endCharIndex := EndColumn(lines, actualEndLine, Trim(paragraphLines[|paragraphLines| - 1]),
                                  originalStartIndex + paragraphLength);
    ParagraphPosition((Max0(actualStartLine), Max0(actualEndLine)), (Max0(startCharIndex), Max0(endCharIndex)))
  }

  /** calculateParagraphPosition: the rows by the tier loops, then the columns. */
  method CalculateParagraphPosition(originalComment: string, paragraph: string, originalStartLine: int,
                                    originalStartIndex: int, fileContent: string, originalEndLine: int)
    returns (position: ParagraphPosition)
    ensures position == PositionOf(originalComment, paragraph, originalStartLine, originalStartIndex,
                                   fileContent, originalEndLine)
  {
    var lines := Split(fileContent);
    var cleanedComment := Cleaner.CleanCommentMarkers(originalComment, "java");
    var cleanedCommentLines := Split(cleanedComment);
    var paragraphLines := Split(paragraph);
    var paragraphStartLineInComment, paragraphEndLineInComment := FindRowsInComment(cleanedCommentLines, paragraphLines);

    position := PlaceParagraph(lines, paragraphLines, paragraphStartLineInComment, paragraphEndLineInComment,
                               originalStartLine, originalStartIndex, originalEndLine, |paragraph|);
  }

  /** The second half of calculateParagraphPosition: from the rows inside the comment to
      rows and columns in the file. */
  method PlaceParagraph(lines: seq<string>, paragraphLines: seq<string>,
                        paragraphStartLineInComment: int, paragraphEndLineInComment: int,
                        originalStartLine: int, originalStartIndex: int, originalEndLine: int,
                        paragraphLength: int) returns (position: ParagraphPosition)
    requires |paragraphLines| >= 1
    ensures position == Place(lines, paragraphLines, (paragraphStartLineInComment, paragraphEndLineInComment),
                              originalStartLine, originalStartIndex, originalEndLine, paragraphLength)
  {
    var actualStartLine := originalStartLine + paragraphStartLineInComment;
    var actualEndLine := Min(originalStartLine + paragraphEndLineInComment, originalEndLine);

    var startCharIndex := StartCharIndex(lines, actualStartLine, paragraphLines, originalStartIndex);
    var endCharIndex := EndCharIndex(lines, actualEndLine, paragraphLines, originalStartIndex + paragraphLength);
    position := ParagraphPosition((Max0(actualStartLine), Max0(actualEndLine)),
                                  (Max0(startCharIndex), Max0(endCharIndex)));
  }

  /** The start column search: the first occurrence of the trimmed first paragraph line
      in the start row, if the row exists. */
  method StartCharIndex(lines: seq<string>, actualStartLine: int, paragraphLines: seq<string>,
                        originalStartIndex: int) returns (startCharIndex: int)
    requires |paragraphLines| >= 1
    ensures startCharIndex == StartColumn(lines, actualStartLine, Trim(paragraphLines[0]), originalStartIndex)
  {
    startCharIndex := originalStartIndex;
    if actualStartLine < |lines| && actualStartLine >= 0 {
      var lineContent := lines[actualStartLine];
      var firstParagraphLine := Trim(paragraphLines[0]);
      if firstParagraphLine != [] {
        var index := IndexOf(lineContent, firstParagraphLine);
        if index >= 0 {
          startCharIndex := index;
        }
      }
    }
  }

  /** The end column search: just after the first occurrence of the trimmed last
      paragraph line in the end row, if the row exists. */
  method EndCharIndex(lines: seq<string>, actualEndLine: int, paragraphLines: seq<string>,
                      fallback: int) returns (endCharIndex: int)
    requires |paragraphLines| >= 1
    ensures endCharIndex == EndColumn(lines, actualEndLine, Trim(paragraphLines[|paragraphLines| - 1]), fallback)
  {
    endCharIndex := fallback;
    if actualEndLine < |lines| && actualEndLine >= 0 {
      var lineContent := lines[actualEndLine];
      var lastParagraphLine := Trim(paragraphLines[|paragraphLines| - 1]);
      if lastParagraphLine != [] {
        var index := IndexOf(lineContent, lastParagraphLine);
        if index >= 0 {
          endCharIndex := index + |lastParagraphLine|;
        }
      }
    }
  }

  /** The row search of calculateParagraphPosition: the three tiers in turn. */
  method FindRowsInComment(cleanedCommentLines: seq<string>, paragraphLines: seq<string>)
    returns (paragraphStartLineInComment: int, paragraphEndLineInComment: int)
    requires |cleanedCommentLines| >= 1 && |paragraphLines| >= 1
    ensures (paragraphStartLineInComment, paragraphEndLineInComment) == RowsInComment(cleanedCommentLines, paragraphLines)
  {
    paragraphStartLineInComment := -1;
    paragraphEndLineInComment := -1;

    ghost var holding := FirstHoldingRow(cleanedCommentLines, paragraphLines);

    // first tier: an exact multi-line match
    var exact := ExactMatchRow(cleanedCommentLines, paragraphLines);
    if exact >= 0 {
      paragraphStartLineInComment := exact;
      paragraphEndLineInComment := exact + |paragraphLines| - 1;
    }

    // second tier: the first row holding the first line
    if paragraphStartLineInComment == -1 {
      var k := SecondTierRow(cleanedCommentLines, paragraphLines);
      if k >= 0 {
        paragraphStartLineInComment := k;
        paragraphEndLineInComment := Min(k + |paragraphLines| - 1, |cleanedCommentLines| - 1);
      }
    }

    // third tier: row 0
    if paragraphStartLineInComment == -1 {
      paragraphStartLineInComment := 0;
      paragraphEndLineInComment := |paragraphLines| - 1;
    }
    assert (paragraphStartLineInComment, paragraphEndLineInComment)
        == Tiers(exact, holding, |cleanedCommentLines|, |paragraphLines|);
  }

  /** The second tier: the row holding the trimmed first paragraph line, when that line
      is not blank. */
  method SecondTierRow(cleanedCommentLines: seq<string>, paragraphLines: seq<string>) returns (row: int)
    requires |paragraphLines| >= 1
    ensures row == FirstHoldingRow(cleanedCommentLines, paragraphLines)
  {
    row := -1;
    var firstLine := Trim(paragraphLines[0]);
    if firstLine != [] {
      row := HoldingRow(cleanedCommentLines, firstLine);
    }
  }

  /** The second-tier loop: the first row holding `firstLine`, or -1. */
  method HoldingRow(cleanedCommentLines: seq<string>, firstLine: string) returns (row: int)
    ensures row == FirstTrue(HoldingRows(cleanedCommentLines, firstLine), 0)
  {
    ghost var holding := HoldingRows(cleanedCommentLines, firstLine);
    row := -1;
    var k := 0;
    while k < |cleanedCommentLines|
      invariant 0 <= k <= |cleanedCommentLines|
      invariant FirstTrue(holding, 0) == FirstTrue(holding, k)
      decreases |cleanedCommentLines| - k
    {
      FirstTrueStep(holding, k);
      assert holding[k] == Contains(cleanedCommentLines[k], firstLine);
      if Contains(cleanedCommentLines[k], firstLine) {
        row := k;
        break;
      }
      k := k + 1;
    }
  }

  /** The first-tier loop: the first row that is an exact match, or -1. */
  method ExactMatchRow(cleanedCommentLines: seq<string>, paragraphLines: seq<string>) returns (row: int)
    requires |paragraphLines| >= 1
    ensures row == FirstTrue(ExactRows(cleanedCommentLines, paragraphLines), 0)
  {
    ghost var tests := ExactRows(cleanedCommentLines, paragraphLines);
    row := -1;
    var i := 0;
    while i < |cleanedCommentLines|
      invariant 0 <= i <= |cleanedCommentLines|
      invariant FirstTrue(tests, 0) == FirstTrue(tests, i)
      decreases |cleanedCommentLines| - i
    {
      FirstTrueStep(tests, i);
      var exact := IsExactRow(cleanedCommentLines, paragraphLines, i);
      assert exact == tests[i];
      if exact {
        row := i;
        break;
      }
      i := i + 1;
    }
  }

  /** The body of the first-tier loop for row `i`: blank rows are skipped, then the
      first paragraph line must occur in the row and the following lines must match. */
  method IsExactRow(cleanedCommentLines: seq<string>, paragraphLines: seq<string>, i: nat) returns (exact: bool)
    requires i < |cleanedCommentLines| && |paragraphLines| >= 1
    ensures exact == ExactAt(cleanedCommentLines, paragraphLines, i)
  {
    exact := false;
    if Trim(cleanedCommentLines[i]) == [] {
      return;
    }
    var firstParagraphLine := Trim(paragraphLines[0]);
    if firstParagraphLine != [] && Contains(cleanedCommentLines[i], firstParagraphLine) {
      exact := AllFollowingMatch(cleanedCommentLines, paragraphLines, i);
    }
  }

  /** The inner loop of the first tier: checks the following lines, stopping at the
      first mismatch. */
  method AllFollowingMatch(commentLines: seq<string>, paragraphLines: seq<string>, i: nat) returns (allMatch: bool)
    requires i < |commentLines| && |paragraphLines| >= 1
    ensures allMatch == RestMatches(commentLines, paragraphLines, i)
  {
    allMatch := true;
    var j := 1;
    while j < |paragraphLines| && i + j < |commentLines|
      invariant 1 <= j
      invariant forall j' :: 1 <= j' < j && j' < |paragraphLines| && i + j' < |commentLines| ==>
                  LineMatches(commentLines, paragraphLines, i, j')
      decreases |paragraphLines| - j
    {
      var paragraphLine := Trim(paragraphLines[j]);
      var commentLine := Trim(commentLines[i + j]);
      assert LineMatches(commentLines, paragraphLines, i, j) <==> paragraphLine == [] || Contains(commentLine, paragraphLine);
      if paragraphLine != [] && !Contains(commentLine, paragraphLine) {
        allMatch := false;
        break;
      }
      j := j + 1;
    }
  }

  // ---------------------------------------------------------------- properties

  /** Rows and columns are never negative, and the end row never passes the comment's
      last row when that row is not negative. */
  lemma PositionBounds(originalComment: string, paragraph: string, originalStartLine: int,
                       originalStartIndex: int, fileContent: string, originalEndLine: int)
    ensures var p := PositionOf(originalComment, paragraph, originalStartLine, originalStartIndex,
                                fileContent, originalEndLine);
            p.lineNumber.0 >= 0 && p.lineNumber.1 >= 0 && p.indexes.0 >= 0 && p.indexes.1 >= 0
            && (originalEndLine >= 0 ==> p.lineNumber.1 <= originalEndLine)
  {
    var paragraphLines := Split(paragraph);
    var rows := RowsInComment(Split(Cleaner.CleanCommentMarkers(originalComment, "java")), paragraphLines);
    PlaceBounds(Split(fileContent), paragraphLines, rows, originalStartLine, originalStartIndex,
                originalEndLine, |paragraph|);
  }

  /** Whatever the rows, the placed position is not negative and its end row is clipped to
      the comment's last row. */
  lemma PlaceBounds(lines: seq<string>, paragraphLines: seq<string>, rows: (int, int), originalStartLine: int,
                    originalStartIndex: int, originalEndLine: int, paragraphLength: int)
    requires |paragraphLines| >= 1
    ensures var p := Place(lines, paragraphLines, rows, originalStartLine, originalStartIndex,
                           originalEndLine, paragraphLength);
            p.lineNumber.0 >= 0 && p.lineNumber.1 >= 0 && p.indexes.0 >= 0 && p.indexes.1 >= 0
            && (originalEndLine >= 0 ==> p.lineNumber.1 <= originalEndLine)
  {
  }

  /** When the comment text spans exactly its rows `originalStartLine..originalEndLine`,
      the paragraph's rows lie inside them and start before they end. */
  lemma RowsInsideComment(originalComment: string, paragraph: string, originalStartLine: int,
                          originalStartIndex: int, fileContent: string, originalEndLine: int)
    requires 0 <= originalStartLine
    requires |Split(originalComment)| == originalEndLine - originalStartLine + 1
    ensures var p := PositionOf(originalComment, paragraph, originalStartLine, originalStartIndex,
                                fileContent, originalEndLine);
            originalStartLine <= p.lineNumber.0 <= p.lineNumber.1 <= originalEndLine
  {
    Cleaner.JavaCleaningKeepsLineCount(originalComment);
    var commentLines := Split(Cleaner.CleanCommentMarkers(originalComment, "java"));
    var paragraphLines := Split(paragraph);
    var rows := RowsInComment(commentLines, paragraphLines);
    PlacedRows(Split(fileContent), paragraphLines, rows, originalStartLine, originalStartIndex,
               originalEndLine, |paragraph|);
  }

  /** Rows found inside a comment of `originalEndLine - originalStartLine + 1` rows stay
      between its first and its last row. */
  lemma PlacedRows(lines: seq<string>, paragraphLines: seq<string>, rows: (int, int), originalStartLine: int,
                   originalStartIndex: int, originalEndLine: int, paragraphLength: int)
    requires |paragraphLines| >= 1
    requires 0 <= originalStartLine && 0 <= rows.0 <= rows.1 && originalStartLine + rows.0 <= originalEndLine
    ensures var p := Place(lines, paragraphLines, rows, originalStartLine, originalStartIndex,
                           originalEndLine, paragraphLength);
            originalStartLine <= p.lineNumber.0 <= p.lineNumber.1 <= originalEndLine
  {
  }

  /** The start column is where the trimmed first paragraph line first occurs in the
      start row of the file, and falls back to the comment's own column otherwise. */
  lemma StartColumnFoundOrFallBack(lines: seq<string>, row: int, first: string, originalStartIndex: int)
    ensures var c := StartColumn(lines, row, first, originalStartIndex);
            if 0 <= row < |lines| && first != [] && Contains(lines[row], first)
            then c >= 0 && OccursAt(lines[row], first, c) && forall i :: 0 <= i < c ==> !OccursAt(lines[row], first, i)
            else c == originalStartIndex
  {
  }

  /** The end column is just after the first occurrence of the trimmed last paragraph line
      in the end row, and falls back to the given column otherwise. */
  lemma EndColumnFoundOrFallBack(lines: seq<string>, row: int, last: string, fallback: int)
    ensures var c := EndColumn(lines, row, last, fallback);
            if 0 <= row < |lines| && last != [] && Contains(lines[row], last)
            then c >= |last| && OccursAt(lines[row], last, c - |last|)
                 && forall i :: 0 <= i < c - |last| ==> !OccursAt(lines[row], last, i)
            else c == fallback
  {
  }
}
