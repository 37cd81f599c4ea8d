/**
  Comment-marker cleaning (cleanCommentMarkers in src/extract_comments.ts). Each regular
  expression replacement of the source is written out as a scanner over the line; the
  comments name the pattern it stands for.
*/
module Cleaner {
  import opened Text

  /** Drops the run of `c` at the start of `s`. */
  function DropLeading(c: char, s: string): (r: string)
    ensures SuffixOf(r, s)
    ensures r == [] || r[0] != c
    decreases |s|
  {
    if |s| > 0 && s[0] == c then
      var r := DropLeading(c, s[1..]);
      assert s[1..][|s| - 1 - |r|..] == s[|s| - |r|..];
      r
    else s
  }

  /** Drops the run of `c` at the end of `s`. */
  function DropTrailing(c: char, s: string): (r: string)
    ensures PrefixOf(r, s)
    ensures r == [] || r[|r| - 1] != c
    decreases |s|
  {
    if |s| > 0 && s[|s| - 1] == c then
      var r := DropTrailing(c, s[..|s| - 1]);
      assert s[..|s| - 1][..|r|] == s[..|r|];
      r
    else s
  }

  /** `\s?`: drops one whitespace character at the start, if there is one. */
  function DropOneSpace(s: string): (r: string)
    ensures SuffixOf(r, s)
  {
    if |s| > 0 && IsSpace(s[0]) then s[1..] else s
  }

  /** `line.replace(/^\s*\/\*+\s*\/, '')`: the opening marker of a block comment. */
  function StripBlockOpening(line: string): (r: string)
    ensures SuffixOf(r, line)
  {
    var t := TrimStart(line);
    if |t| >= 2 && t[0] == '/' && t[1] == '*' then
      var d := DropLeading('*', t[1..]);
      var r := TrimStart(d);
      SuffixTransitive(d, t[1..], t);
      SuffixTransitive(r, d, t);
      SuffixTransitive(r, t, line);
      r
    else line
  }

  /** `line.replace(/\s*\*+\/\s*$/, '')`: the closing marker of a block comment. The
      leftmost match starts at the whitespace before the run of stars that precedes
      the last non-blank character '/'. */
  function StripBlockClosing(line: string): (r: string)
    ensures PrefixOf(r, line)
  {
    var t := TrimEnd(line);
    if |t| >= 2 && t[|t| - 1] == '/' && t[|t| - 2] == '*' then
      var d := DropTrailing('*', t[..|t| - 1]);
      var r := TrimEnd(d);
      PrefixTransitive(d, t[..|t| - 1], t);
      PrefixTransitive(r, d, t);
      PrefixTransitive(r, t, line);
      r
    else line
  }

  /** `line.replace(/^\s*\*\s?/, '')`: the star that continues a block comment. */
  function StripLeadingStar(line: string): (r: string)
    ensures SuffixOf(r, line)
  {
    var t := TrimStart(line);
    if |t| >= 1 && t[0] == '*' then
      var r := DropOneSpace(t[1..]);
      SuffixTransitive(r, t[1..], t);
      SuffixTransitive(r, t, line);
      r
    else line
  }

  /** `line.replace(/^\s*MARKER\s?/, '')` for a literal marker such as `//` or `#`. */
  function StripLineMarker(line: string, marker: string): (r: string)
    ensures SuffixOf(r, line)
  {
    var t := TrimStart(line);
    if StartsWith(t, marker) then
      var r := DropOneSpace(t[|marker|..]);
      SuffixTransitive(r, t[|marker|..], t);
      SuffixTransitive(r, t, line);
      r
    else line
  }

  /** Line `k` of a Java block comment after cleaning: the opening marker comes off the
      first line, the closing marker off the last (after the opening one when both are
      the same line), then the continuation star off every line. */
  function JavaBlockLine(lines: seq<string>, k: nat): (r: string)
    requires k < |lines|
    ensures IsLine(lines[k]) ==> IsLine(r)
  {
    var line := lines[k];
    var afterOpen := if k == 0 then StripBlockOpening(line) else line;
    var closed := if k == |lines| - 1 then StripBlockClosing(afterOpen) else afterOpen;
    StrippersKeepLine(line);
    StrippersKeepLine(afterOpen);
    StrippersKeepLine(closed);
    StripLeadingStar(closed)
  }

  /** The lines of a Java block comment after cleaning, one for one. */
  function JavaBlockLines(lines: seq<string>): (r: seq<string>)
    ensures |r| == |lines|
    ensures forall k :: 0 <= k < |lines| ==> r[k] == JavaBlockLine(lines, k)
  {
    seq(|lines|, k requires 0 <= k < |lines| => JavaBlockLine(lines, k))
  }

  /** The strippers cut pieces out of one line: no line feed appears. */
  lemma StrippersKeepLine(line: string)
    ensures IsLine(line) ==> IsLine(StripBlockOpening(line))
    ensures IsLine(line) ==> IsLine(StripBlockClosing(line))
    ensures IsLine(line) ==> IsLine(StripLeadingStar(line))
    ensures forall m :: IsLine(line) ==> IsLine(StripLineMarker(line, m))
  {
  }

  /** The lines of comments written with a line marker, each line cleaned on its own. */
  function LineMarkerLines(lines: seq<string>, marker: string): (r: seq<string>)
    ensures |r| == |lines|
    ensures forall k :: 0 <= k < |r| ==> r[k] == StripLineMarker(lines[k], marker)
  {
    seq(|lines|, k requires 0 <= k < |lines| => StripLineMarker(lines[k], marker))
  }

  predicate IsQuote(c: char) {
    c == '"' || c == '\'' || c == '`'
  }

  /** `text.replace(/^['"`]{3}\s*\/, '').replace(/\s*['"`]{3}$/, '')`. */
  function StripTripleQuotes(text: string): string {
    DropClosingQuotes(DropOpeningQuotes(text))
  }

  /** `replace(/^['"`]{3}\s*\/, '')`: three leading quotes and the blanks after them. */
  function DropOpeningQuotes(text: string): string {
    if |text| >= 3 && IsQuote(text[0]) && IsQuote(text[1]) && IsQuote(text[2]) then TrimStart(text[3..]) else text
  }

  /** `replace(/\s*['"`]{3}$/, '')`: three trailing quotes and the blanks before them. */
  function DropClosingQuotes(s: string): string {
    var n := |s|;
    if n >= 3 && IsQuote(s[n - 1]) && IsQuote(s[n - 2]) && IsQuote(s[n - 3]) then TrimEnd(s[..n - 3]) else s
  }

  /** `text.replace(/^"\s*\/, '').replace(/\s*"$/, '')`. */
  function StripDoubleQuotes(text: string): string {
    var afterOpen := if |text| >= 1 && text[0] == '"' then TrimStart(text[1..]) else text;
    var n := |afterOpen|;
    if n >= 1 && afterOpen[n - 1] == '"' then TrimEnd(afterOpen[..n - 1]) else afterOpen
  }

  /** The Java branch: a block comment when the trimmed text starts with slash-star,
      otherwise `//` comments. */
  function JavaLines(text: string): (r: seq<string>)
    ensures |r| == |Split(text)|
    ensures forall k :: 0 <= k < |r| ==> IsLine(r[k])
  {
    var lines := Split(text);
    if StartsWith(Trim(text), "/*") then
      BlockLinesAreLines(lines);
      JavaBlockLines(lines)
    else
      MarkerLinesAreLines(lines, "//");
      LineMarkerLines(lines, "//")
  }

  lemma BlockLinesAreLines(lines: seq<string>)
    requires forall k :: 0 <= k < |lines| ==> IsLine(lines[k])
    ensures forall k :: 0 <= k < |lines| ==> IsLine(JavaBlockLines(lines)[k])
  {
    var r := JavaBlockLines(lines);
    forall k | 0 <= k < |lines| ensures IsLine(r[k]) {
      assert r[k] == JavaBlockLine(lines, k);
    }
  }

  lemma MarkerLinesAreLines(lines: seq<string>, marker: string)
    requires forall k :: 0 <= k < |lines| ==> IsLine(lines[k])
    ensures forall k :: 0 <= k < |lines| ==> IsLine(LineMarkerLines(lines, marker)[k])
  {
    var r := LineMarkerLines(lines, marker);
    forall k | 0 <= k < |lines| ensures IsLine(r[k]) {
      assert r[k] == StripLineMarker(lines[k], marker);
      StrippersKeepLine(lines[k]);
    }
  }

  /** cleanCommentMarkers(text, language). */
  function CleanCommentMarkers(text: string, language: string): (r: string)
    ensures IsTrimmed(r)
    ensures language != "java" && language != "python" && language != "pharo" ==> r == Trim(text)
  {
    if language == "java" then
      Trim(Join(JavaLines(text)))
    else if language == "python" then
      if StartsWith(Trim(text), "\"\"\"") || StartsWith(Trim(text), "'''") then
        Trim(StripTripleQuotes(text))
      else
        Trim(Join(LineMarkerLines(Split(text), "#")))
    else if language == "pharo" then
      Trim(StripDoubleQuotes(text))
    else
      Trim(text)
  }

  /** Java cleaning never adds lines: the cleaned text has at most as many lines as the
      raw comment (the line-by-line strippers keep the count and trimming can only drop
      leading and trailing blank lines). */
  lemma JavaCleaningKeepsLineCount(text: string)
    ensures |Split(CleanCommentMarkers(text, "java"))| <= |Split(text)|
  {
    var lines := JavaLines(text);
    var j := Join(lines);
    var t := TrimStart(j);
    var r := TrimEnd(t);
    assert CleanCommentMarkers(text, "java") == r;
    CountJoin(lines);
    SplitLength(text);
    SplitLength(r);
    CountSuffixOf('\n', t, j);
    CountPrefixOf('\n', r, t);
  }

  /** A Pharo comment `"m"` cleans to its trimmed body, whatever the body holds: only
      the first and the last quote are markers. */
  lemma PharoCommentBody(m: string)
    ensures CleanCommentMarkers("\"" + m + "\"", "pharo") == Trim(m)
  {
    var s := "\"" + m + "\"";
    PharoCleaning(s);
    StripQuotedBody(m);
    TrimAfterOneSide(m);
  }

  lemma PharoCleaning(text: string)
    ensures CleanCommentMarkers(text, "pharo") == Trim(StripDoubleQuotes(text))
  {
  }

  /** Stripping the quotes around `m` leaves `m` trimmed. */
  lemma StripQuotedBody(m: string)
    ensures StripDoubleQuotes("\"" + m + "\"") == Trim(m)
  {
    var s := "\"" + m + "\"";
    assert s[0] == '"' && s[1..] == m + "\"";
    var afterOpen := TrimStart(m + "\"");
    TrimEmptyIffBlank(m);
    if Blank(m) {
      BlankTrimStartAppend(m, "\"");
      assert afterOpen == "\"";
    } else {
      TrimStartAppend(m, "\"");
      assert afterOpen[..|afterOpen| - 1] == TrimStart(m);
    }
  }

  lemma BlankTrimStartAppend(a: string, b: string)
    requires Blank(a)
    requires |b| > 0 && !IsSpace(b[0])
    ensures TrimStart(a + b) == b
  {
    SkipSpacesAt(a + b, 0, |a|);
    assert (a + b)[|a|..] == b;
  }

  /** A one-line `// text` comment cleans to its trimmed text. */
  lemma JavaLineCommentBody(rest: string)
    requires IsLine(rest)
    ensures CleanCommentMarkers("//" + rest, "java") == Trim(rest)
  {
    var s := "//" + rest;
    MarkerStripped(rest, "//");
    NotBlockOpening(rest);
    OneLineCleaning(s, "java", "//");
    DropOneSpaceTrim(rest);
  }

  /** A one-line `# text` comment cleans to its trimmed text. */
  lemma PythonLineCommentBody(rest: string)
    requires IsLine(rest)
    ensures CleanCommentMarkers("#" + rest, "python") == Trim(rest)
  {
    var s := "#" + rest;
    MarkerStripped(rest, "#");
    NotDocstring(rest);
    OneLineCleaning(s, "python", "#");
    DropOneSpaceTrim(rest);
  }

  lemma NotBlockOpening(rest: string)
    ensures !StartsWith(Trim("//" + rest), "/*")
  {
    var s := "//" + rest;
    TrimKeepsFirst(s);
    TrimEndKeeps(s, 1);
  }

  lemma NotDocstring(rest: string)
    ensures !StartsWith(Trim("#" + rest), "\"\"\"") && !StartsWith(Trim("#" + rest), "'''")
  {
    var s := "#" + rest;
    assert s[0] == '#';
    TrimmedFirstBlocks(s, "\"\"\"");
    TrimmedFirstBlocks(s, "'''");
  }

  /** A text whose first character is not blank keeps it first once trimmed, so it starts
      with no prefix that begins with another character. */
  lemma TrimmedFirstBlocks(s: string, prefix: string)
    requires |s| > 0 && !IsSpace(s[0]) && |prefix| > 0 && prefix[0] != s[0]
    ensures !StartsWith(Trim(s), prefix)
  {
    TrimKeepsFirst(s);
    assert |prefix| <= |Trim(s)| ==> Trim(s)[..|prefix|][0] == Trim(s)[0];
  }

  /** A marker that starts the line comes off with at most one space after it. */
  lemma MarkerStripped(rest: string, marker: string)
    requires |marker| > 0 && !IsSpace(marker[0])
    ensures StripLineMarker(marker + rest, marker) == DropOneSpace(rest)
  {
    var s := marker + rest;
    TrimKeepsFirst(s);
    assert StartsWith(s, marker);
    assert s[|marker|..] == rest;
  }

  /** A single line that is not a block comment or docstring is cleaned by its
      line marker alone. */
  lemma OneLineCleaning(s: string, language: string, marker: string)
    requires IsLine(s)
    requires (language == "java" && marker == "//" && !StartsWith(Trim(s), "/*"))
          || (language == "python" && marker == "#" && !StartsWith(Trim(s), "\"\"\"") && !StartsWith(Trim(s), "'''"))
    ensures CleanCommentMarkers(s, language) == Trim(StripLineMarker(s, marker))
  {
    SplitOfLine(s);
    assert LineMarkerLines(Split(s), marker) == [StripLineMarker(s, marker)];
  }

  lemma DropOneSpaceTrim(s: string)
    ensures Trim(DropOneSpace(s)) == Trim(s)
  {
    if |s| > 0 && IsSpace(s[0]) {
      TrimStartDropFirst(s);
    }
  }

  // ------------------------------------------------- block comments and docstrings

  /** A run of `c` at the start comes off, and nothing after it. */
  lemma {:induction false} DropLeadingRun(c: char, run: string, rest: string)
    requires forall k :: 0 <= k < |run| ==> run[k] == c
    requires rest == [] || rest[0] != c
    ensures DropLeading(c, run + rest) == rest
    decreases |run|
  {
    if run == [] {
      assert run + rest == rest;
    } else {
      assert (run + rest)[1..] == run[1..] + rest;
      DropLeadingRun(c, run[1..], rest);
    }
  }

  /** A run of `c` at the end comes off, and nothing before it. */
  lemma {:induction false} DropTrailingRun(c: char, body: string, run: string)
    requires forall k :: 0 <= k < |run| ==> run[k] == c
    requires body == [] || body[|body| - 1] != c
    ensures DropTrailing(c, body + run) == body
    decreases |run|
  {
    if run == [] {
      assert body + run == body;
    } else {
      var n := |run| - 1;
      assert (body + run)[..|body + run| - 1] == body + run[..n];
      DropTrailingRun(c, body, run[..n]);
    }
  }

  /** Trimming the start of `a + b` where `b` starts with a non-blank character. */
  lemma TrimStartBeforeMark(a: string, b: string)
    requires |b| > 0 && !IsSpace(b[0])
    ensures TrimStart(a + b) == TrimStart(a) + b
  {
    if Blank(a) {
      BlankTrimStartAppend(a, b);
      BlankTrimsToNothing(a);
    } else {
      TrimStartAppend(a, b);
    }
  }

  /** Blanks after a non-blank last character come off at the end. */
  lemma BlankTrimEndAppend(a: string, b: string)
    requires |a| > 0 && !IsSpace(a[|a| - 1]) && Blank(b)
    ensures TrimEnd(a + b) == a
  {
    assert (a + b)[|a|..] == b;
    assert (a + b)[|a| - 1] == a[|a| - 1];
    TrimEndBefore(a + b, |a|);
    assert (a + b)[..|a|] == a;
  }

  /** The opener `\s*\/\*+\s*` comes off exactly: blanks, a slash, the run of stars and
      the blanks after it. */
  lemma BlockOpeningStripped(ws: string, stars: string, rest: string)
    requires Blank(ws) && |stars| > 0 && forall k :: 0 <= k < |stars| ==> stars[k] == '*'
    requires rest == [] || rest[0] != '*'
    ensures StripBlockOpening(ws + "/" + stars + rest) == TrimStart(rest)
  {
    var t := "/" + stars + rest;
    assert ws + "/" + stars + rest == ws + t;
    BlankTrimStartAppend(ws, t);
    assert t[1..] == stars + rest;
    assert t[0] == '/' && t[1] == stars[0] == '*';
    DropLeadingRun('*', stars, rest);
    OpeningOfTrimmed(ws + t, t, rest);
  }

  /** The opener's branch, once the trimmed line and what the stars leave are known. */
  lemma OpeningOfTrimmed(line: string, t: string, rest: string)
    requires TrimStart(line) == t && |t| >= 2 && t[0] == '/' && t[1] == '*'
    requires DropLeading('*', t[1..]) == rest
    ensures StripBlockOpening(line) == TrimStart(rest)
  {
  }

  /** The closer `\s*\*+\/\s*$` comes off exactly: the run of stars, the slash, the blanks
      after them, and the blanks before the stars. */
  lemma BlockClosingStripped(body: string, stars: string, ws: string)
    requires Blank(ws) && |stars| > 0 && forall k :: 0 <= k < |stars| ==> stars[k] == '*'
    requires body == [] || body[|body| - 1] != '*'
    ensures StripBlockClosing(body + stars + "/" + ws) == TrimEnd(body)
  {
    var t := body + stars + "/";
    assert body + stars + "/" + ws == t + ws;
    BlankTrimEndAppend(t, ws);
    assert t[..|t| - 1] == body + stars;
    assert t[|t| - 2] == stars[|stars| - 1];
    DropTrailingRun('*', body, stars);
  }

  /** The continuation star `\s*\*\s?` comes off with the blanks before it and at most
      one blank after it. */
  lemma LeadingStarStripped(ws: string, rest: string)
    requires Blank(ws)
    ensures StripLeadingStar(ws + "*" + rest) == DropOneSpace(rest)
  {
    var t := "*" + rest;
    assert ws + "*" + rest == ws + t;
    BlankTrimStartAppend(ws, t);
    assert t[1..] == rest;
  }

  /** A one-line block comment cleans to its trimmed body, when the body is not empty and
      its trimmed form neither starts nor ends with a star (those stars would belong to
      the markers). */
  lemma JavaBlockCommentBody(m: string)
    requires IsLine(m) && m != []
    requires Trim(m) == [] || (Trim(m)[0] != '*' && Trim(m)[|Trim(m)| - 1] != '*')
    ensures CleanCommentMarkers("/*" + m + "*/", "java") == Trim(m)
  {
    var text := "/*" + m + "*/";
    BlockLineIsWhole(m);
    OpenedBlockLine(m);
    ClosedBlockLine(m);
    TrimmedKeepsNoStar(m);
    JavaOneLineBlock(text, Trim(m));
    TrimAfterOneSide(m);
  }

  /** The one-line block comment is one line and takes the block branch. */
  lemma BlockLineIsWhole(m: string)
    requires IsLine(m)
    ensures Split("/*" + m + "*/") == ["/*" + m + "*/"]
    ensures StartsWith(Trim("/*" + m + "*/"), "/*")
  {
    var text := "/*" + m + "*/";
    SplitOfLine(text);
    TrimKeepsFirst(text);
    BlankTrimEndAppend(text, "");
    assert text + "" == text;
  }

  /** The opener comes off the one-line block comment, leaving the body's start trimmed. */
  lemma OpenedBlockLine(m: string)
    requires m != [] && (Trim(m) == [] || Trim(m)[0] != '*')
    ensures StripBlockOpening("/*" + m + "*/") == TrimStart(m) + "*/"
  {
    var rest := m + "*/";
    OpenerOff(m, rest);
    TrimStartBeforeMark(m, "*/");
  }

  /** The slash and the star come off, leaving the body and the closer. */
  lemma OpenerOff(m: string, rest: string)
    requires m != [] && (Trim(m) == [] || Trim(m)[0] != '*') && rest == m + "*/"
    ensures StripBlockOpening("/*" + m + "*/") == TrimStart(rest)
  {
    FirstNotStar(m);
    assert rest[0] == m[0];
    SlashStarThen(m, rest);
    BlockOpeningStripped("", "*", rest);
  }

  lemma SlashStarThen(m: string, rest: string)
    requires rest == m + "*/"
    ensures "/*" + m + "*/" == "" + "/" + "*" + rest
  {
  }

  /** A body whose trimmed form does not start with a star does not start with one. */
  lemma FirstNotStar(m: string)
    requires m != [] && (Trim(m) == [] || Trim(m)[0] != '*')
    ensures m[0] != '*'
  {
    if !IsSpace(m[0]) {
      TrimKeepsFirst(m);
    }
  }

  /** The closer comes off what the opener left, leaving the trimmed body. */
  lemma ClosedBlockLine(m: string)
    requires Trim(m) == [] || Trim(m)[|Trim(m)| - 1] != '*'
    ensures StripBlockClosing(TrimStart(m) + "*/") == Trim(m)
  {
    var t := TrimStart(m);
    if t != [] && !IsSpace(t[|t| - 1]) {
      BlankTrimEndAppend(t, "");
      assert t + "" == t;
    }
    assert TrimStart(m) + "*/" == t + "*" + "/" + "";
    BlockClosingStripped(t, "*", "");
  }

  /** A trimmed body that does not start with a star keeps no continuation star. */
  lemma TrimmedKeepsNoStar(m: string)
    requires Trim(m) == [] || Trim(m)[0] != '*'
    ensures StripLeadingStar(Trim(m)) == Trim(m)
  {
    var t := Trim(m);
    if t != [] {
      TrimKeepsFirst(t);
    }
  }

  /** A one-line block comment cleans to its one cleaned line, trimmed. */
  lemma JavaOneLineBlock(text: string, cleaned: string)
    requires Split(text) == [text] && StartsWith(Trim(text), "/*")
    requires JavaBlockLine([text], 0) == cleaned
    ensures CleanCommentMarkers(text, "java") == Trim(cleaned)
  {
    OneBlockLine(text, cleaned);
    JavaCleaning(text, [cleaned]);
  }

  lemma OneBlockLine(text: string, cleaned: string)
    requires Split(text) == [text] && StartsWith(Trim(text), "/*")
    requires JavaBlockLine([text], 0) == cleaned
    ensures JavaLines(text) == [cleaned]
  {
    var lines := JavaBlockLines([text]);
    assert lines[0] == cleaned;
  }

  lemma JavaCleaning(text: string, lines: seq<string>)
    requires JavaLines(text) == lines && |lines| == 1
    ensures CleanCommentMarkers(text, "java") == Trim(lines[0])
  {
  }

  /** The empty block comment leaves its last slash: the opener's run of stars takes the
      closer's star, and what remains has no closer. */
  lemma EmptyBlockCommentLeavesSlash()
    ensures CleanCommentMarkers("/**/", "java") == "/"
  {
    var slash := "/";
    var text := "/*" + [] + "*/";
    BlockLineIsWhole([]);
    SlashStarsSlash(text, slash);
    BlockOpeningStripped([], "**", slash);
    SlashStaysPut(slash);
    JavaOneLineBlock(text, slash);
  }

  lemma SlashStarsSlash(text: string, slash: string)
    requires text == "/*" + [] + "*/" && slash == "/"
    ensures text == [] + "/" + "**" + slash && text == "/**/"
  {
  }

  /** A lone slash is neither opener, closer, star nor blank. */
  lemma SlashStaysPut(slash: string)
    requires slash == "/"
    ensures TrimStart(slash) == slash && StripBlockClosing(slash) == slash
    ensures StripLeadingStar(slash) == slash && Trim(slash) == slash
  {
    TrimKeepsFirst(slash);
    BlankTrimEndAppend(slash, []);
    assert slash + [] == slash;
  }

  /** A Python docstring cleans to its trimmed body, whatever the body holds. */
  lemma PythonDocstringBody(m: string)
    ensures CleanCommentMarkers("\"\"\"" + m + "\"\"\"", "python") == Trim(m)
  {
    var q := "\"\"\"";
    var text := q + m + q;
    DocstringStartsQuoted(m, q, text);
    DocstringCleaning(text, q);
    TripleQuotesOff(m, q, text);
    TrimAfterOneSide(m);
  }

  /** The docstring, trimmed, still starts with its quotes. */
  lemma DocstringStartsQuoted(m: string, q: string, text: string)
    requires q == "\"\"\"" && text == q + m + q
    ensures StartsWith(Trim(text), q)
  {
    TrimKeepsFirst(text);
    BlankTrimEndAppend(text, []);
    assert text + [] == text;
  }

  /** The docstring branch of the Python cleaning. */
  lemma DocstringCleaning(text: string, q: string)
    requires q == "\"\"\"" && StartsWith(Trim(text), q)
    ensures CleanCommentMarkers(text, "python") == Trim(StripTripleQuotes(text))
  {
  }

  /** The opening and the closing triple quotes come off, the body trimmed. */
  lemma TripleQuotesOff(m: string, q: string, text: string)
    requires q == "\"\"\"" && text == q + m + q
    ensures StripTripleQuotes(text) == Trim(m)
  {
    OpeningQuotesOff(m, q, text);
    ClosingQuotesOff(TrimStart(m), q, TrimStart(m) + q);
  }

  /** The opening quotes come off with the blanks that start the body. */
  lemma OpeningQuotesOff(m: string, q: string, text: string)
    requires q == "\"\"\"" && text == q + m + q
    ensures DropOpeningQuotes(text) == TrimStart(m) + q
  {
    assert text[3..] == m + q;
    assert IsQuote(text[0]) && IsQuote(text[1]) && IsQuote(text[2]);
    TrimStartBeforeMark(m, q);
  }

  /** The closing quotes come off with the blanks that end the body. */
  lemma ClosingQuotesOff(body: string, q: string, s: string)
    requires q == "\"\"\"" && s == body + q
    ensures DropClosingQuotes(s) == TrimEnd(body)
  {
    var n := |s|;
    assert s[..n - 3] == body;
    assert IsQuote(s[n - 1]) && IsQuote(s[n - 2]) && IsQuote(s[n - 3]);
  }
}
