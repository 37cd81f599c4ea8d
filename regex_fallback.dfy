/**
  The regular-expression fallback (fallbackToRegexComments in src/extract_comments.ts).
  Each of the three global patterns is written out as a scanner that says whether a
  match starts at a position and where it ends; `regex.exec` is the search for the
  leftmost such position from `lastIndex` on.
*/
module RegexFallback {
  import opened Wrappers
  import opened Text
  import Cleaner
  import Segmenter
  import Comments

  /** The end of `.*` from `p`: the first line terminator at or after `p`, or the end. */
  function LineEnd(s: string, p: nat): (r: nat)
    requires p <= |s|
    ensures p <= r <= |s|
    ensures r == |s| || IsLineTerminator(s[r])
    ensures forall q :: p <= q < r ==> !IsLineTerminator(s[q])
    decreases |s| - p
  {
    if p == |s| then p
    else if IsLineTerminator(s[p]) then p
    else LineEnd(s, p + 1)
  }

  /** `/\*[\s\S]*?\*\/|\/\/.*` at `p`: a block comment up to the first closing marker
      after its opening one, else a line comment up to the end of the line. The end is
      exclusive. */
  function JavaMatchAt(s: string, p: nat): (r: Option<nat>)
    requires p < |s|
    ensures r.Some? ==> p < r.value <= |s|
    ensures r.Some? && OccursAt(s, "/*", p) ==>
              p + 4 <= r.value && OccursAt(s, "*/", r.value - 2)
              && forall q :: p + 2 <= q < r.value - 2 ==> !OccursAt(s, "*/", q)
    ensures r.Some? && !OccursAt(s, "/*", p) ==> OccursAt(s, "//", p) && r.value == LineEnd(s, p + 2)
    ensures r.None? ==> !OccursAt(s, "//", p)
                        && (OccursAt(s, "/*", p) ==> forall q :: p + 2 <= q ==> !OccursAt(s, "*/", q))
  {
    var close := if OccursAt(s, "/*", p) then IndexOfFrom(s, "*/", p + 2) else -1;
    if close >= 0 then Some(close + 2)
    else if OccursAt(s, "//", p) then Some(LineEnd(s, p + 2))
    else None
  }

  /** `#.*|'''[\s\S]*?'''|"""[\s\S]*?"""` at `p`. */
  function PythonMatchAt(s: string, p: nat): (r: Option<nat>)
    requires p < |s|
    ensures r.Some? ==> p < r.value <= |s|
    ensures s[p] == '#' ==> r == Some(LineEnd(s, p + 1))
    ensures r.Some? && s[p] != '#' ==>
              p + 3 <= |s| &&
              var quotes := s[p..p + 3];
              (quotes == "'''" || quotes == "\"\"\"")
              && p + 6 <= r.value && OccursAt(s, quotes, r.value - 3)
              && forall q :: p + 3 <= q < r.value - 3 ==> !OccursAt(s, quotes, q)
  {
    if s[p] == '#' then Some(LineEnd(s, p + 1))
    else
      var single := if OccursAt(s, "'''", p) then IndexOfFrom(s, "'''", p + 3) else -1;
      if single >= 0 then Some(single + 3)
      else
        var double := if OccursAt(s, "\"\"\"", p) then IndexOfFrom(s, "\"\"\"", p + 3) else -1;
        if double >= 0 then Some(double + 3) else None
  }

  /** `"[^"]*"` at `p`: from a double quote to the next one. */
  function PharoMatchAt(s: string, p: nat): (r: Option<nat>)
    requires p < |s|
    ensures r.Some? ==> p + 2 <= r.value <= |s| && s[p] == '"' && s[r.value - 1] == '"'
                        && forall q :: p < q < r.value - 1 ==> s[q] != '"'
    ensures r.None? ==> s[p] != '"' || forall q :: p < q < |s| ==> s[q] != '"'
  {
    if s[p] == '"' then
      var close := IndexOfFrom(s, "\"", p + 1);
      if close >= 0 then
        assert s[close..close + 1][0] == s[close];
        assert forall q :: p < q < close ==> s[q] != '"' by {
          forall q | p < q < close ensures s[q] != '"' {
            assert !OccursAt(s, "\"", q);
            assert s[q..q + 1] == [s[q]];
          }
        }
        Some(close + 1)
      else
        assert forall q :: p < q < |s| ==> s[q] != '"' by {
          forall q | p < q < |s| ensures s[q] != '"' {
            assert !OccursAt(s, "\"", q);
            assert s[q..q + 1] == [s[q]];
          }
        }
        None
    else None
  }

  /** The match of the language's pattern that starts at `p`, if any; languages without
      a pattern match nowhere. */
  function MatchAt(s: string, language: string, p: nat): (r: Option<nat>)
    requires p < |s|
    ensures r.Some? ==> p < r.value <= |s|
  {
    if language == "java" then JavaMatchAt(s, p)
    else if language == "python" then PythonMatchAt(s, p)
    else if language == "pharo" then PharoMatchAt(s, p)
    else None
  }

  /** `regex.exec` from `lastIndex = from`: the leftmost match at or after `from`, as
      (start, exclusive end). */
  function NextMatch(s: string, language: string, from: nat): (r: Option<(nat, nat)>)
    requires from <= |s|
    ensures r.Some? ==> from <= r.value.0 < r.value.1 <= |s| && MatchAt(s, language, r.value.0) == Some(r.value.1)
    decreases |s| - from
  {
    if from == |s| then None
    else
      match MatchAt(s, language, from)
      case Some(e) => Some((from, e))
      case None => NextMatch(s, language, from + 1)
  }

  /** No match starts between `from` and the one found; none is found only when no
      match starts anywhere from `from` on. */
  lemma {:induction false} NextMatchIsLeftmost(s: string, language: string, from: nat)
    requires from <= |s|
    ensures var r := NextMatch(s, language, from);
            forall q :: from <= q < |s| && (r.None? || q < r.value.0) ==> MatchAt(s, language, q).None?
    decreases |s| - from
  {
    if from < |s| && MatchAt(s, language, from).None? {
      NextMatchIsLeftmost(s, language, from + 1);
      var r := NextMatch(s, language, from);
      assert r == NextMatch(s, language, from + 1);
      forall q | from <= q < |s| && (r.None? || q < r.value.0) ensures MatchAt(s, language, q).None? {
        if q == from {
        } else {
          assert from + 1 <= q;
        }
      }
    }
  }

  // ---------------------------------------------------------------- rows and columns

  /** The table the source builds from the lines: 0, then after each line its length
      plus one for the line feed. */
  function LineStartOffsets(lines: seq<string>): (r: seq<int>)
    ensures |r| == |lines| + 1 && r[0] == 0
    decreases |lines|
  {
    if lines == [] then [0]
    else
      var init := LineStartOffsets(lines[..|lines| - 1]);
      init + [init[|init| - 1] + |lines[|lines| - 1]| + 1]
  }

  /** Each entry is the one before plus the length of the line between them plus one. */
  lemma {:induction false} LineStartOffsetsStep(lines: seq<string>, k: nat)
    requires k < |lines|
    ensures LineStartOffsets(lines)[k + 1] == LineStartOffsets(lines)[k] + |lines[k]| + 1
    decreases |lines|
  {
    var n := |lines| - 1;
    if k < n {
      LineStartOffsetsStep(lines[..n], k);
      assert lines[..n][k] == lines[k];
    }
  }

  /** The row of offset `i`: the number of line feeds before it. It is an index of the
      offset table of the whole text. */
  lemma RowInTable(s: string, i: nat)
    requires i <= |s|
    ensures Count('\n', s[..i]) < |LineStartOffsets(Split(s))|
  {
    CountSlice('\n', s, 0, i);
    assert s[0..i] == s[..i];
    SplitLength(s);
  }

  /** One record of the fallback. */
  function FallbackRecord(language: string, paragraph: string, rows: (int, int), columns: (int, int)): Comments.CommentInfo {
    Comments.CommentInfo(0, language, paragraph, "", "", "inline", [""], rows, columns, "")
  }

  /** The records for the paragraphs of one match, in order. */
  function Records(paragraphs: seq<string>, language: string, rows: (int, int), columns: (int, int)): (r: seq<Comments.CommentInfo>)
    ensures |r| == |paragraphs|
    ensures forall k :: 0 <= k < |r| ==> r[k] == FallbackRecord(language, paragraphs[k], rows, columns)
    decreases |paragraphs|
  {
    if paragraphs == [] then []
    else
      var n := |paragraphs| - 1;
      Records(paragraphs[..n], language, rows, columns) + [FallbackRecord(language, paragraphs[n], rows, columns)]
  }

  /** The paragraphs of one match's text: its markers removed, then split. */
  function MatchParagraphs(text: string, language: string): (r: seq<string>)
    ensures forall k :: 0 <= k < |r| ==> r[k] != [] && IsTrimmed(r[k])
  {
    Segmenter.ParagraphsAreTrimmed(Cleaner.CleanCommentMarkers(text, language), language);
    Segmenter.Paragraphs(Cleaner.CleanCommentMarkers(text, language), language)
  }

  /** The rows of a match: the line feeds before its first and before its last
      character. */
  function MatchRows(s: string, a: nat, b: nat): (r: (int, int))
    requires a < b <= |s|
    ensures 0 <= r.0 <= r.1
  {
    CountPrefixMonotone('\n', s, a, b - 1);
    (Count('\n', s[..a]), Count('\n', s[..b - 1]))
  }

  /** The columns of a match's first and last character. */
  function MatchColumns(s: string, a: nat, b: nat): (int, int)
    requires a < b <= |s|
  {
    (Column(s, a), Column(s, b - 1))
  }

  /** The records of the match `s[a..b]`: one per paragraph of its cleaned text, all with
      the rows of its first and last character and the columns of those characters. */
  function MatchRecords(s: string, language: string, a: nat, b: nat): (r: seq<Comments.CommentInfo>)
    requires a < b <= |s|
    ensures forall c :: c in r ==> IsFallbackRecord(c, language) && c.lineNumber == MatchRows(s, a, b)
  {
    RecordsShape(MatchParagraphs(s[a..b], language), language, MatchRows(s, a, b), MatchColumns(s, a, b));
    Records(MatchParagraphs(s[a..b], language), language, MatchRows(s, a, b), MatchColumns(s, a, b))
  }

  function Column(s: string, i: nat): int
    requires i <= |s|
  {
    RowInTable(s, i);
    i - LineStartOffsets(Split(s))[Count('\n', s[..i])]
  }

  /** The records of every match from `from` on, in the order the matches are found. */
  function FallbackFrom(s: string, language: string, from: nat): seq<Comments.CommentInfo>
    requires from <= |s|
    decreases |s| - from
  {
    match NextMatch(s, language, from)
    case None => []
    case Some((a, b)) => MatchRecords(s, language, a, b) + FallbackFrom(s, language, b)
  }

  /** fallbackToRegexComments as a value. */
  function Fallback(s: string, language: string): (r: seq<Comments.CommentInfo>)
    ensures language != "java" && language != "python" && language != "pharo" ==> r == []
  {
    if language == "java" || language == "python" || language == "pharo" then FallbackFrom(s, language, 0)
    else []
  }

  /** fallbackToRegexComments: the offset table, then one `exec` after another, each
      match's paragraphs pushed in order. */
  method FallbackToRegexComments(fileContent: string, language: string) returns (comments: seq<Comments.CommentInfo>)
    ensures comments == Fallback(fileContent, language)
  {
    comments := [];
    var lines := Split(fileContent);
    var lineStartOffsets := BuildLineStartOffsets(lines);

    if !(language == "java" || language == "python" || language == "pharo") {
      return comments;
    }

    var lastIndex: nat := 0;
    while true
      invariant lastIndex <= |fileContent|
      invariant FallbackFrom(fileContent, language, 0) == comments + FallbackFrom(fileContent, language, lastIndex)
      decreases |fileContent| - lastIndex
    {
      var found := NextMatch(fileContent, language, lastIndex);
      if found.None? {
        assert FallbackFrom(fileContent, language, lastIndex) == [];
        assert comments + [] == comments;
        break;
      }
      var startIndex := found.value.0;
      var endIndex := found.value.1 - 1;
      var fullMatch := fileContent[startIndex..found.value.1];
      var records := MatchRecordsOf(fileContent, language, lineStartOffsets, startIndex, found.value.1, fullMatch);
      var rest := FallbackFrom(fileContent, language, found.value.1);
      assert FallbackFrom(fileContent, language, lastIndex) == records + rest;
      AppendAssociates(comments, records, rest);
      comments := comments + records;
      lastIndex := found.value.1;
    }
  }

  lemma AppendAssociates(a: seq<Comments.CommentInfo>, b: seq<Comments.CommentInfo>, c: seq<Comments.CommentInfo>)
    ensures a + (b + c) == (a + b) + c
  {
  }

  /** The loop that builds the offset table from the lines. */
  method BuildLineStartOffsets(lines: seq<string>) returns (lineStartOffsets: seq<int>)
    ensures lineStartOffsets == LineStartOffsets(lines)
  {
    lineStartOffsets := [0];
    var currentOffset := 0;
    for i := 0 to |lines|
      invariant lineStartOffsets == LineStartOffsets(lines[..i])
      invariant currentOffset == lineStartOffsets[|lineStartOffsets| - 1]
    {
      assert lines[..i + 1][..i] == lines[..i];
      currentOffset := currentOffset + |lines[i]| + 1;
      lineStartOffsets := lineStartOffsets + [currentOffset];
    }
    assert lines[..|lines|] == lines;
  }

  /** The body of one `exec` round: rows by splitting the text before the match, columns
      by the offset table, then one record per paragraph. */
  method MatchRecordsOf(fileContent: string, language: string, lineStartOffsets: seq<int>,
                        startIndex: nat, lastIndex: nat, fullMatch: string)
    returns (records: seq<Comments.CommentInfo>)
    requires startIndex < lastIndex <= |fileContent| && fullMatch == fileContent[startIndex..lastIndex]
    requires lineStartOffsets == LineStartOffsets(Split(fileContent))
    ensures records == MatchRecords(fileContent, language, startIndex, lastIndex)
  {
    var rows, columns := PlaceMatch(fileContent, lineStartOffsets, startIndex, lastIndex);
    var cleanedText := Cleaner.CleanCommentMarkers(fullMatch, language);
    var paragraphs := Segmenter.SplitIntoParagraphs(cleanedText, language);
    assert paragraphs == MatchParagraphs(fullMatch, language);
    records := [];
    for j := 0 to |paragraphs|
      invariant records == Records(paragraphs[..j], language, rows, columns)
    {
      assert paragraphs[..j + 1][..j] == paragraphs[..j];
      records := records + [FallbackRecord(language, paragraphs[j], rows, columns)];
    }
    assert paragraphs[..|paragraphs|] == paragraphs;
  }

  /** The rows and columns of a match, from the line counts of the text before its first
      and its last character and the table of line starts. */
  method PlaceMatch(fileContent: string, lineStartOffsets: seq<int>, startIndex: nat, lastIndex: nat)
    returns (rows: (int, int), columns: (int, int))
    requires startIndex < lastIndex <= |fileContent|
    requires lineStartOffsets == LineStartOffsets(Split(fileContent))
    ensures rows == MatchRows(fileContent, startIndex, lastIndex)
    ensures columns == MatchColumns(fileContent, startIndex, lastIndex)
  {
    var endIndex := lastIndex - 1;
    SplitLength(fileContent[..startIndex]);
    SplitLength(fileContent[..endIndex]);
    var startLine := |Split(fileContent[..startIndex])| - 1;
    var endLine := |Split(fileContent[..endIndex])| - 1;
    RowInTable(fileContent, startIndex);
    RowInTable(fileContent, endIndex);
    var startLineOffset := startIndex - lineStartOffsets[startLine];
    var endLineOffset := endIndex - lineStartOffsets[endLine];
    assert startLineOffset == Column(fileContent, startIndex);
    assert endLineOffset == Column(fileContent, endIndex);
    rows := (startLine, endLine);
    columns := (startLineOffset, endLineOffset);
  }


  // ---------------------------------------------------------------- properties

  /** What every fallback record holds: id 0, the language, a trimmed non-empty
      paragraph, no class name, no path, the inline level, the single empty type, no
      commit date, and a start row not after the end row. */
  predicate IsFallbackRecord(c: Comments.CommentInfo, language: string) {
    c.id == 0 && c.language == language && c.content != [] && IsTrimmed(c.content)
    && c.className == "" && c.relativePath == "" && c.level == "inline" && c.types == [""]
    && c.lastCommitDate == "" && 0 <= c.lineNumber.0 <= c.lineNumber.1
  }

  lemma RecordsShape(paragraphs: seq<string>, language: string, rows: (int, int), columns: (int, int))
    requires forall k :: 0 <= k < |paragraphs| ==> paragraphs[k] != [] && IsTrimmed(paragraphs[k])
    requires 0 <= rows.0 <= rows.1
    ensures forall c :: c in Records(paragraphs, language, rows, columns) ==> IsFallbackRecord(c, language)
  {
  }

  /** Every record of the fallback has the fallback's fixed fields and ordered rows. */
  lemma {:induction false} FallbackRecordsShape(s: string, language: string, from: nat)
    requires from <= |s|
    ensures forall c :: c in FallbackFrom(s, language, from) ==> IsFallbackRecord(c, language)
    decreases |s| - from
  {
    match NextMatch(s, language, from)
    case None =>
    case Some((a, b)) =>
      FallbackRecordsShape(s, language, b);
  }

  /** A language without a pattern gives no records, whatever the text. */
  lemma UnknownLanguageGivesNothing(s: string, language: string)
    requires language != "java" && language != "python" && language != "pharo"
    ensures Fallback(s, language) == []
  {
  }

  /** The paragraphs of one match all carry the same rows: those of the match's first
      and last character. */
  lemma OneMatchSharesRows(s: string, language: string, a: nat, b: nat, i: nat, j: nat)
    requires a < b <= |s|
    requires i < |MatchRecords(s, language, a, b)| && j < |MatchRecords(s, language, a, b)|
    ensures MatchRecords(s, language, a, b)[i].lineNumber == MatchRecords(s, language, a, b)[j].lineNumber
    ensures MatchRecords(s, language, a, b)[i].index == MatchRecords(s, language, a, b)[j].index
  {
  }
}
