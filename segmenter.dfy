/**
  Paragraph segmentation of a cleaned comment (isHtmlTagLine and splitIntoParagraphs in
  src/extract_comments.ts). Blank lines separate paragraphs in every language; in Java a
  line that holds nothing but one HTML tag does too. The loop of the source is the method
  `SplitIntoParagraphs`; `ScanLines` is the state the loop has reached after a prefix of
  the lines, and `Paragraphs` the value the method returns.
*/
module Segmenter {
  import opened Text

  // ---------------------------------------------------------------- HTML tag lines

  /** Where the tag name starts: after `<`, and after `/` too for a closing tag. */
  function TagNameStart(t: string): nat
    requires |t| >= 2
  {
    if t[1] == '/' then 2 else 1
  }

  /** `/^<\/?[a-zA-Z][^>]*>$/` on a whole string: `<`, an optional `/`, a letter, any
      run without `>`, and a final `>`. */
  predicate IsTagShape(t: string) {
    |t| >= 3 && t[0] == '<' && t[|t| - 1] == '>'
    && TagNameStart(t) < |t| - 1
    && IsAsciiLetter(t[TagNameStart(t)])
    && '>' !in t[TagNameStart(t) + 1..|t| - 1]
  }

  /** isHtmlTagLine: the trimmed line is one HTML tag and nothing else. */
  predicate IsHtmlTagLine(line: string)
    ensures IsHtmlTagLine(line) ==> |Trim(line)| >= 3 && Trim(line)[0] == '<' && Trim(line)[|Trim(line)| - 1] == '>'
  {
    IsTagShape(Trim(line))
  }

  /** The tag written out from its parts. */
  function Tag(closing: bool, letter: char, rest: string): string {
    "<" + (if closing then "/" else "") + [letter] + rest + ">"
  }

  /** Every tag built from a letter and a run without `>` has the shape. */
  lemma TagIsTagShape(closing: bool, letter: char, rest: string)
    requires IsAsciiLetter(letter) && '>' !in rest
    ensures IsTagShape(Tag(closing, letter, rest))
  {
    var t := Tag(closing, letter, rest);
    var k := if closing then 2 else 1;
    assert t[1] == (if closing then '/' else letter);
    assert TagNameStart(t) == k;
    assert t[k] == letter;
    assert t[k + 1..|t| - 1] == rest;
  }

  /** And every string of the shape is such a tag: the two lemmas together say that
      the scanner accepts exactly the language of the regular expression. */
  lemma TagShapeIsTag(t: string)
    requires IsTagShape(t)
    ensures t == Tag(t[1] == '/', t[TagNameStart(t)], t[TagNameStart(t) + 1..|t| - 1])
  {
    var k := TagNameStart(t);
    var closing := t[1] == '/';
    if closing {
      assert t == [t[0]] + [t[1]] + [t[k]] + t[k + 1..|t| - 1] + [t[|t| - 1]];
    } else {
      assert t == [t[0]] + [t[k]] + t[k + 1..|t| - 1] + [t[|t| - 1]];
    }
  }

  /** A tag followed by text is not a tag line: `<p>Returns</p>` stays in its paragraph. */
  lemma TagWithTextIsNoTagLine()
    ensures !IsTagShape("<p>Returns</p>")
  {
    var t := "<p>Returns</p>";
    assert TagNameStart(t) == 1;
    assert t[TagNameStart(t) + 1..|t| - 1][0] == '>';
  }

  // ---------------------------------------------------------------- segmentation

  predicate IsSegmentedLanguage(language: string) {
    language == "java" || language == "python" || language == "pharo"
  }

  /** The lines that end the current paragraph: blank lines (trimming leaves nothing),
      and in Java tag lines (isHtmlTagLine trims once more, so testing the trimmed
      line is testing the line; `ActionOfLine` shows the loop's tests agree). */
  predicate IsBoundary(line: string, language: string) {
    Blank(line) || (language == "java" && IsHtmlTagLine(line))
  }

  /** The loop state: the paragraphs pushed so far and the lines of the open one. */
  datatype Scan = Scan(paragraphs: seq<string>, current: seq<string>)

  /** Closing the open paragraph, if there is one: its lines joined and trimmed. */
  function Flush(s: Scan): (r: Scan)
    ensures r.current == []
    ensures |s.current| > 0 ==> r.paragraphs == s.paragraphs + [Trim(Join(s.current))]
    ensures |s.current| == 0 ==> r == s
  {
    if |s.current| > 0 then Scan(s.paragraphs + [Trim(Join(s.current))], []) else s
  }

  /** What one iteration of the loop does with a line: a language other than Java,
      Python and Pharo takes neither branch, so its lines are dropped; a boundary
      closes the open paragraph; any other line joins it. */
  datatype Action = Drop | Close | Add(line: string)

  function ActionOf(line: string, language: string): Action {
    if !IsSegmentedLanguage(language) then Drop
    else if IsBoundary(line, language) then Close
    else Add(line)
  }

  /** The action taken on each line, in order. */
  function Actions(lines: seq<string>, language: string): seq<Action>
    decreases |lines|
  {
    if lines == [] then [] else [ActionOf(lines[0], language)] + Actions(lines[1..], language)
  }

  /** One iteration of the loop on the state. */
  function Apply(s: Scan, a: Action): Scan {
    match a
    case Drop => s
    case Close => Flush(s)
    case Add(line) => Scan(s.paragraphs, s.current + [line])
  }

  /** The state reached from `s` after the actions `acts`. */
  function ScanFrom(s: Scan, acts: seq<Action>): Scan
    decreases |acts|
  {
    if acts == [] then s else ScanFrom(Apply(s, acts[0]), acts[1..])
  }

  /** The state after the loop has seen `lines`. */
  function ScanLines(lines: seq<string>, language: string): Scan {
    ScanFrom(Scan([], []), Actions(lines, language))
  }

  /** The actions on two runs of lines are the actions on each, one after the other. */
  lemma {:induction false} ActionsAppend(a: seq<string>, b: seq<string>, language: string)
    ensures Actions(a + b, language) == Actions(a, language) + Actions(b, language)
    decreases |a|
  {
    if a == [] {
      assert a + b == b;
    } else {
      assert (a + b)[0] == a[0] && (a + b)[1..] == a[1..] + b;
      ActionsAppend(a[1..], b, language);
    }
  }

  /** The branch the loop takes on a line, language by language. */
  lemma ActionOfLine(line: string, language: string)
    ensures language == "java" ==>
              ActionOf(line, language) == if Trim(line) == [] || IsHtmlTagLine(Trim(line)) then Close else Add(line)
    ensures language == "python" || language == "pharo" ==>
              ActionOf(line, language) == if Trim(line) == [] then Close else Add(line)
    ensures !IsSegmentedLanguage(language) ==> ActionOf(line, language) == Drop
  {
    TrimEmptyIffBlank(line);
    TrimAfterOneSide(line);
  }

  /** The actions on one line. */
  lemma ActionsOfLine(line: string, language: string)
    ensures Actions([line], language) == [ActionOf(line, language)]
  {
    assert [line][1..] == [];
  }

  /** Taking two runs of actions one after the other is taking them together. */
  lemma {:induction false} ScanAppend(s: Scan, a: seq<Action>, b: seq<Action>)
    ensures ScanFrom(s, a + b) == ScanFrom(ScanFrom(s, a), b)
    decreases |a|
  {
    if a == [] {
      assert a + b == b;
    } else {
      assert (a + b)[0] == a[0] && (a + b)[1..] == a[1..] + b;
      ScanAppend(Apply(s, a[0]), a[1..], b);
    }
  }

  /** The first action is the first step. */
  lemma ScanCons(s: Scan, a: Action, rest: seq<Action>)
    ensures ScanFrom(s, [a] + rest) == ScanFrom(Apply(s, a), rest)
  {
    assert ([a] + rest)[1..] == rest;
  }

  /** One more action is one more step. */
  lemma ScanSnoc(s: Scan, a: seq<Action>, x: Action)
    ensures ScanFrom(s, a + [x]) == Apply(ScanFrom(s, a), x)
  {
    ScanAppend(s, a, [x]);
    assert [x][1..] == [];
  }

  /** `paragraphs.filter(p => p.length > 0)`. */
  function NonEmpty(ps: seq<string>): (r: seq<string>)
    ensures forall k :: 0 <= k < |r| ==> r[k] != [] && r[k] in ps
    ensures (forall k :: 0 <= k < |ps| ==> ps[k] != []) ==> r == ps
    decreases |ps|
  {
    if ps == [] then []
    else if ps[|ps| - 1] == [] then NonEmpty(ps[..|ps| - 1])
    else NonEmpty(ps[..|ps| - 1]) + [ps[|ps| - 1]]
  }

  /** splitIntoParagraphs as a value. */
  function Paragraphs(cleanedText: string, language: string): (r: seq<string>)
    ensures forall k :: 0 <= k < |r| ==> r[k] != []
  {
    NonEmpty(Flush(ScanLines(Split(cleanedText), language)).paragraphs)
  }

  /** splitIntoParagraphs. */
  method SplitIntoParagraphs(cleanedText: string, language: string) returns (result: seq<string>)
    ensures result == Paragraphs(cleanedText, language)
  {
    var lines := Split(cleanedText);
    var paragraphs: seq<string> := [];
    var currentParagraph: seq<string> := [];
    for i := 0 to |lines|
      invariant Scan(paragraphs, currentParagraph) == ScanLines(lines[..i], language)
    {
      assert lines[..i + 1] == lines[..i] + [lines[i]];
      ActionsAppend(lines[..i], [lines[i]], language);
      ActionsOfLine(lines[i], language);
      ScanSnoc(Scan([], []), Actions(lines[..i], language), ActionOf(lines[i], language));
      var line := lines[i];
      var trimmedLine := Trim(line);
      ActionOfLine(line, language);
      if language == "java" {
        if trimmedLine == [] || IsHtmlTagLine(trimmedLine) {
          if |currentParagraph| > 0 {
            var paragraph := Trim(Join(currentParagraph));
            paragraphs := paragraphs + [paragraph];
            currentParagraph := [];
          }
        } else {
          currentParagraph := currentParagraph + [line];
        }
      } else if language == "python" || language == "pharo" {
        if trimmedLine == [] {
          if |currentParagraph| > 0 {
            paragraphs := paragraphs + [Trim(Join(currentParagraph))];
            currentParagraph := [];
          }
        } else {
          currentParagraph := currentParagraph + [line];
        }
      }
    }
    assert lines[..|lines|] == lines;
    if |currentParagraph| > 0 {
      var paragraph := Trim(Join(currentParagraph));
      paragraphs := paragraphs + [paragraph];
    }
    result := NonEmpty(paragraphs);
  }

  // ---------------------------------------------------------------- properties

  /** Every paragraph is non-empty and trimmed. */
  lemma ParagraphsAreTrimmed(cleanedText: string, language: string)
    ensures forall k :: 0 <= k < |Paragraphs(cleanedText, language)| ==>
              Paragraphs(cleanedText, language)[k] != [] && IsTrimmed(Paragraphs(cleanedText, language)[k])
  {
    ScanKeepsTrimmed(Scan([], []), Actions(Split(cleanedText), language));
  }

  predicate AllTrimmed(ps: seq<string>) {
    forall k :: 0 <= k < |ps| ==> IsTrimmed(ps[k])
  }

  /** Every paragraph the loop pushes is trimmed. */
  lemma {:induction false} ScanKeepsTrimmed(s: Scan, acts: seq<Action>)
    requires AllTrimmed(s.paragraphs)
    ensures AllTrimmed(ScanFrom(s, acts).paragraphs)
    ensures AllTrimmed(Flush(ScanFrom(s, acts)).paragraphs)
    decreases |acts|
  {
    if acts != [] {
      ScanKeepsTrimmed(Apply(s, acts[0]), acts[1..]);
    }
  }

  /** A language other than Java, Python and Pharo yields no paragraph at all. */
  lemma {:induction false} UnknownLanguageHasNoParagraphs(cleanedText: string, language: string)
    requires !IsSegmentedLanguage(language)
    ensures Paragraphs(cleanedText, language) == []
  {
    NothingScanned(Scan([], []), Split(cleanedText), language);
  }

  lemma {:induction false} NothingScanned(s: Scan, lines: seq<string>, language: string)
    requires !IsSegmentedLanguage(language)
    ensures ScanFrom(s, Actions(lines, language)) == s
    decreases |lines|
  {
    if lines != [] {
      var acts := Actions(lines, language);
      assert acts[0] == Drop && acts[1..] == Actions(lines[1..], language);
      NothingScanned(s, lines[1..], language);
    }
  }

  /** A paragraph: a non-empty run of lines that are not boundaries. */
  predicate IsBody(g: seq<string>, language: string) {
    |g| > 0 && BodyLines(g, language)
  }

  /** Every line of `g` is a line and no boundary. */
  predicate BodyLines(g: seq<string>, language: string) {
    forall k :: 0 <= k < |g| ==> IsLine(g[k]) && !IsBoundary(g[k], language)
  }

  lemma BodyLinesSnoc(g: seq<string>, line: string, language: string)
    requires BodyLines(g, language) && IsLine(line) && !IsBoundary(line, language)
    ensures BodyLines(g + [line], language)
  {
    var h := g + [line];
    forall k | 0 <= k < |h| ensures IsLine(h[k]) && !IsBoundary(h[k], language) {
      if k < |g| {
        assert h[k] == g[k];
      } else {
        assert h[k] == line;
      }
    }
  }

  /** Paragraph bodies laid out one after the other with one blank line between two. */
  function Separated(groups: seq<seq<string>>): seq<string>
    decreases |groups|
  {
    if |groups| == 0 then []
    else if |groups| == 1 then groups[0]
    else Separated(groups[..|groups| - 1]) + [""] + groups[|groups| - 1]
  }

  /** Each paragraph body, joined and trimmed. */
  function JoinedBodies(groups: seq<seq<string>>): seq<string> {
    seq(|groups|, k requires 0 <= k < |groups| => Trim(Join(groups[k])))
  }

  /** Each line of `g` joins the open paragraph. */
  function Adds(g: seq<string>): seq<Action>
    decreases |g|
  {
    if g == [] then [] else [Add(g[0])] + Adds(g[1..])
  }

  /** On lines none of which is a boundary, every action adds the line. */
  lemma {:induction false} BodyActions(g: seq<string>, language: string)
    requires IsSegmentedLanguage(language)
    requires forall k :: 0 <= k < |g| ==> !IsBoundary(g[k], language)
    ensures Actions(g, language) == Adds(g)
    decreases |g|
  {
    if g != [] {
      LineJoins(g[0], language);
      assert forall k :: 0 <= k < |g[1..]| ==> g[1..][k] == g[k + 1];
      BodyActions(g[1..], language);
    }
  }

  /** A line that is no boundary joins the open paragraph. */
  lemma LineJoins(line: string, language: string)
    requires IsSegmentedLanguage(language) && !IsBoundary(line, language)
    ensures ActionOf(line, language) == Add(line)
  {
  }

  /** Adding lines appends them all to the open paragraph. */
  lemma {:induction false} ScanAdds(s: Scan, g: seq<string>)
    ensures ScanFrom(s, Adds(g)) == Scan(s.paragraphs, s.current + g)
    decreases |g|
  {
    if g == [] {
      assert s.current + g == s.current;
    } else {
      ScanCons(s, Add(g[0]), Adds(g[1..]));
      ScanAdds(Scan(s.paragraphs, s.current + [g[0]]), g[1..]);
      assert s.current + [g[0]] + g[1..] == s.current + g;
    }
  }

  /** A blank line closes the open paragraph. */
  lemma BlankLineCloses(language: string)
    requires IsSegmentedLanguage(language)
    ensures Actions([""], language) == [Close]
  {
    ActionsOfLine("", language);
    BlankIsBoundary(language);
  }

  lemma BlankIsBoundary(language: string)
    requires IsSegmentedLanguage(language)
    ensures ActionOf("", language) == Close
  {
  }

  /** A non-empty run of lines that the loop adds one by one. */
  predicate AddsAll(g: seq<string>, language: string) {
    |g| > 0 && Actions(g, language) == Adds(g)
  }

  /** The actions the loop takes on separated bodies: each body's lines are added and
      the blank line between two bodies closes the first. */
  function SeparatedActions(groups: seq<seq<string>>): seq<Action>
    decreases |groups|
  {
    if |groups| == 0 then []
    else if |groups| == 1 then Adds(groups[0])
    else SeparatedActions(groups[..|groups| - 1]) + [Close] + Adds(groups[|groups| - 1])
  }

  /** Those are indeed the actions taken on the lines of separated bodies. */
  lemma {:induction false} ActionsOfSeparated(groups: seq<seq<string>>, language: string)
    requires IsSegmentedLanguage(language)
    requires forall k :: 0 <= k < |groups| ==> AddsAll(groups[k], language)
    ensures Actions(Separated(groups), language) == SeparatedActions(groups)
    decreases |groups|
  {
    var n := |groups| - 1;
    if n > 0 {
      var init := groups[..n];
      assert forall k :: 0 <= k < |init| ==> init[k] == groups[k];
      ActionsOfSeparated(init, language);
      var before := Separated(init);
      assert AddsAll(groups[n], language);
      ActionsAppend(before + [""], groups[n], language);
      ActionsAppend(before, [""], language);
      BlankLineCloses(language);
    } else if n == 0 {
      assert AddsAll(groups[0], language);
    }
  }

  /** Taking those actions leaves all bodies but the last pushed and the last open. */
  lemma {:induction false} ScanSeparatedActions(groups: seq<seq<string>>)
    requires |groups| >= 1
    requires forall k :: 0 <= k < |groups| ==> |groups[k]| > 0
    ensures ScanFrom(Scan([], []), SeparatedActions(groups))
            == Scan(JoinedBodies(groups[..|groups| - 1]), groups[|groups| - 1])
    decreases |groups|
  {
    var n := |groups| - 1;
    var empty := Scan([], []);
    if n == 0 {
      ScanAdds(empty, groups[0]);
      assert [] + groups[0] == groups[0];
      assert JoinedBodies(groups[..0]) == [];
    } else {
      var init := groups[..n];
      assert forall k :: 0 <= k < |init| ==> |init[k]| > 0;
      ScanSeparatedActions(init);
      var before := SeparatedActions(init);
      ScanAppend(empty, before + [Close], Adds(groups[n]));
      ScanSnoc(empty, before, Close);
      assert init[..n - 1] == groups[..n - 1] && init[n - 1] == groups[n - 1];
      ClosedAfterSeparated(groups, ScanFrom(empty, before));
      ScanAdds(Scan(JoinedBodies(groups[..n]), []), groups[n]);
      assert [] + groups[n] == groups[n];
    }
  }

  /** Closing the last body but one pushes every body before the last. */
  lemma ClosedAfterSeparated(groups: seq<seq<string>>, s: Scan)
    requires |groups| >= 2 && |groups[|groups| - 2]| > 0
    requires s == Scan(JoinedBodies(groups[..|groups| - 2]), groups[|groups| - 2])
    ensures Apply(s, Close) == Scan(JoinedBodies(groups[..|groups| - 1]), [])
  {
    var n := |groups| - 1;
    JoinedBodiesSnoc(groups[..n]);
    assert groups[..n][..n - 1] == groups[..n - 1];
  }

  /** A body joined and trimmed is never empty: its first line is not blank. */
  lemma BodyIsNotBlank(g: seq<string>, language: string)
    requires IsBody(g, language)
    ensures Trim(Join(g)) != []
  {
    assert !IsBoundary(g[0], language);
    JoinNotBlank(g);
    TrimEmptyIffBlank(Join(g));
  }

  /** Lines whose first is not blank join into a text that is not blank. */
  lemma JoinNotBlank(g: seq<string>)
    requires |g| >= 1 && !Blank(g[0])
    ensures !Blank(Join(g))
  {
    var k :| 0 <= k < |g[0]| && !IsSpace(g[0][k]);
    if |g| > 1 {
      JoinCons(g[0], g[1..]);
      assert [g[0]] + g[1..] == g;
      assert Join(g)[k] == g[0][k];
    } else {
      assert Join(g) == g[0];
    }
  }

  /** Joining a first line before at least one more. */
  lemma JoinCons(x: string, rest: seq<string>)
    requires |rest| >= 1
    ensures Join([x] + rest) == x + ("\n" + Join(rest))
  {
    var l := [x] + rest;
    assert l[0] == x && l[1..] == rest;
    var j := Join(rest);
    assert x + "\n" + j == x + ("\n" + j);
  }

  /** Round trip: paragraph bodies written out with blank lines between them are split
      back into exactly those paragraphs, each joined and trimmed. */
  lemma SeparatedBodiesRoundTrip(groups: seq<seq<string>>, language: string)
    requires IsSegmentedLanguage(language)
    requires |groups| >= 1
    requires forall k :: 0 <= k < |groups| ==> IsBody(groups[k], language)
    ensures Paragraphs(Join(Separated(groups)), language) == JoinedBodies(groups)
  {
    var lines := Separated(groups);
    SeparatedAreLines(groups, language);
    SplitJoin(lines);
    forall k | 0 <= k < |groups| ensures AddsAll(groups[k], language) {
      BodyActions(groups[k], language);
    }
    ActionsOfSeparated(groups, language);
    ScanSeparatedActions(groups);
    JoinedBodiesSnoc(groups);
    BodiesAreNotBlank(groups, language);
  }

  lemma JoinedBodiesSnoc(groups: seq<seq<string>>)
    requires |groups| >= 1
    ensures JoinedBodies(groups)
            == JoinedBodies(groups[..|groups| - 1]) + [Trim(Join(groups[|groups| - 1]))]
  {
    var n := |groups| - 1;
    var a := JoinedBodies(groups);
    var b := JoinedBodies(groups[..n]) + [Trim(Join(groups[n]))];
    forall k | 0 <= k < |a| ensures a[k] == b[k] {
      if k < n {
        assert groups[..n][k] == groups[k];
      }
    }
  }

  lemma BodiesAreNotBlank(groups: seq<seq<string>>, language: string)
    requires forall k :: 0 <= k < |groups| ==> IsBody(groups[k], language)
    ensures forall k :: 0 <= k < |groups| ==> JoinedBodies(groups)[k] != []
  {
    forall k | 0 <= k < |groups| ensures JoinedBodies(groups)[k] != [] {
      BodyIsNotBlank(groups[k], language);
    }
  }

  lemma {:induction false} SeparatedAreLines(groups: seq<seq<string>>, language: string)
    requires |groups| >= 1
    requires forall k :: 0 <= k < |groups| ==> IsBody(groups[k], language)
    ensures |Separated(groups)| >= 1
    ensures forall k :: 0 <= k < |Separated(groups)| ==> IsLine(Separated(groups)[k])
    decreases |groups|
  {
    if |groups| > 1 {
      SeparatedAreLines(groups[..|groups| - 1], language);
    }
  }

  /** No line of the paragraph is a boundary. */
  predicate HasNoBoundaryLine(p: string, language: string) {
    forall k :: 0 <= k < |Split(p)| ==> !IsBoundary(Split(p)[k], language)
  }

  /** The lines of a body after joining and trimming: the first line loses its leading
      whitespace and the last its trailing whitespace. */
  function TrimmedLines(g: seq<string>): (r: seq<string>)
    requires |g| >= 1
    ensures |r| == |g|
  {
    if |g| == 1 then [Trim(g[0])]
    else [TrimStart(g[0])] + g[1..|g| - 1] + [TrimEnd(g[|g| - 1])]
  }

  lemma TrimJoinLines(g: seq<string>)
    requires |g| >= 1 && !Blank(g[0]) && !Blank(g[|g| - 1])
    ensures Trim(Join(g)) == Join(TrimmedLines(g))
  {
    var n := |g|;
    if n > 1 {
      TrimStartJoin(g);
      var h := [TrimStart(g[0])] + g[1..];
      assert Trim(Join(g)) == TrimEnd(Join(h));
      assert h[n - 1] == g[n - 1];
      TrimEndJoin(h);
      var t := h[..n - 1] + [TrimEnd(g[n - 1])];
      assert Trim(Join(g)) == Join(t);
      assert TrimmedLines(g) == [TrimStart(g[0])] + g[1..n - 1] + [TrimEnd(g[n - 1])];
      assert h[..n - 1] == [TrimStart(g[0])] + g[1..n - 1];
      assert t == TrimmedLines(g);
    } else {
      assert Join(g) == g[0];
      assert Join(TrimmedLines(g)) == Trim(g[0]);
    }
  }

  /** Trimming the start of joined lines trims the start of the first line. */
  lemma TrimStartJoin(g: seq<string>)
    requires |g| > 1 && !Blank(g[0])
    ensures TrimStart(Join(g)) == Join([TrimStart(g[0])] + g[1..])
  {
    var rest := "\n" + Join(g[1..]);
    JoinCons(g[0], g[1..]);
    assert [g[0]] + g[1..] == g;
    TrimStartAppend(g[0], rest);
    JoinCons(TrimStart(g[0]), g[1..]);
  }

  /** Trimming the end of joined lines trims the end of the last line. */
  lemma TrimEndJoin(h: seq<string>)
    requires |h| > 1 && !Blank(h[|h| - 1])
    ensures TrimEnd(Join(h)) == Join(h[..|h| - 1] + [TrimEnd(h[|h| - 1])])
  {
    var n := |h|;
    assert h == h[..n - 1] + [h[n - 1]];
    JoinSnoc(h[..n - 1], h[n - 1]);
    TrimEndAppend(Join(h[..n - 1]) + "\n", h[n - 1]);
    JoinSnoc(h[..n - 1], TrimEnd(h[n - 1]));
  }

  /** The trimmed lines of a body are still lines and still no boundaries. */
  lemma TrimmedLinesOfBody(g: seq<string>, language: string)
    requires IsBody(g, language)
    ensures forall k :: 0 <= k < |g| ==> IsLine(TrimmedLines(g)[k]) && !IsBoundary(TrimmedLines(g)[k], language)
  {
    var t := TrimmedLines(g);
    var n := |g|;
    forall k | 0 <= k < n ensures IsLine(t[k]) && !IsBoundary(t[k], language) {
      TrimmedLineOf(g[k], language);
      TrimmedLineAt(g, k);
    }
  }

  lemma TrimmedLineAt(g: seq<string>, k: nat)
    requires k < |g|
    ensures TrimmedLines(g)[k] == if |g| == 1 then Trim(g[k])
                                  else if k == 0 then TrimStart(g[k])
                                  else if k == |g| - 1 then TrimEnd(g[k])
                                  else g[k]
  {
    var n := |g|;
    if n > 1 {
      var mid := g[1..n - 1];
      var first := [TrimStart(g[0])];
      assert TrimmedLines(g) == first + mid + [TrimEnd(g[n - 1])];
      if 0 < k < n - 1 {
        assert (first + mid)[k] == mid[k - 1];
      }
    }
  }

  lemma TrimmedLineOf(line: string, language: string)
    requires IsLine(line) && !IsBoundary(line, language)
    ensures IsLine(Trim(line)) && !IsBoundary(Trim(line), language)
    ensures IsLine(TrimStart(line)) && !IsBoundary(TrimStart(line), language)
    ensures IsLine(TrimEnd(line)) && !IsBoundary(TrimEnd(line), language)
  {
    TrimKeepsLine(line);
    SameBoundary(line, language);
  }

  /** Trimming either side of a line does not change whether it is a boundary. */
  lemma SameBoundary(line: string, language: string)
    ensures IsBoundary(TrimStart(line), language) == IsBoundary(line, language)
    ensures IsBoundary(TrimEnd(line), language) == IsBoundary(line, language)
    ensures IsBoundary(Trim(line), language) == IsBoundary(line, language)
  {
    TrimAfterOneSide(line);
    TrimEmptyIffBlank(line);
    TrimEmptyIffBlank(TrimStart(line));
    TrimEmptyIffBlank(TrimEnd(line));
    TrimEmptyIffBlank(Trim(line));
  }

  /** A body joined and trimmed holds no boundary line. */
  lemma BodyHasNoBoundaryLine(g: seq<string>, language: string)
    requires IsBody(g, language)
    ensures HasNoBoundaryLine(Trim(Join(g)), language)
  {
    TrimEmptyIffBlank(g[0]);
    TrimEmptyIffBlank(g[|g| - 1]);
    TrimJoinLines(g);
    TrimmedLinesOfBody(g, language);
    SplitJoin(TrimmedLines(g));
  }

  /** What the loop keeps: the open paragraph is a run of non-boundary lines and no
      pushed paragraph holds a boundary line. */
  predicate HoldsBodies(s: Scan, language: string) {
    BodyLines(s.current, language) && NoneHasBoundaryLine(s.paragraphs, language)
  }

  predicate NoneHasBoundaryLine(ps: seq<string>, language: string) {
    forall k :: 0 <= k < |ps| ==> HasNoBoundaryLine(ps[k], language)
  }

  lemma NoneHasBoundaryLineSnoc(ps: seq<string>, p: string, language: string)
    requires NoneHasBoundaryLine(ps, language) && HasNoBoundaryLine(p, language)
    ensures NoneHasBoundaryLine(ps + [p], language)
  {
    var qs := ps + [p];
    forall k | 0 <= k < |qs| ensures HasNoBoundaryLine(qs[k], language) {
      if k < |ps| {
        assert qs[k] == ps[k];
      }
    }
  }

  /** An action that adds a line adds a line that is no boundary. */
  predicate AddsBodyLine(a: Action, language: string) {
    a.Add? ==> IsLine(a.line) && !IsBoundary(a.line, language)
  }

  lemma {:induction false} ScanKeepsBodies(s: Scan, lines: seq<string>, language: string)
    requires HoldsBodies(s, language)
    requires forall k :: 0 <= k < |lines| ==> IsLine(lines[k])
    ensures HoldsBodies(ScanFrom(s, Actions(lines, language)), language)
    decreases |lines|
  {
    if lines != [] {
      var a := ActionOf(lines[0], language);
      LineActionAddsBodyLine(lines[0], language);
      ApplyKeepsBodies(s, a, language);
      ScanCons(s, a, Actions(lines[1..], language));
      assert forall k :: 0 <= k < |lines[1..]| ==> lines[1..][k] == lines[k + 1];
      ScanKeepsBodies(Apply(s, a), lines[1..], language);
    }
  }

  lemma LineActionAddsBodyLine(line: string, language: string)
    requires IsLine(line)
    ensures AddsBodyLine(ActionOf(line, language), language)
  {
  }

  /** One step keeps the open paragraph a run of non-boundary lines and every pushed
      paragraph free of boundary lines. */
  lemma ApplyKeepsBodies(s: Scan, a: Action, language: string)
    requires HoldsBodies(s, language) && AddsBodyLine(a, language)
    ensures HoldsBodies(Apply(s, a), language)
  {
    match a
    case Drop =>
    case Close =>
      if |s.current| > 0 {
        BodyHasNoBoundaryLine(s.current, language);
        NoneHasBoundaryLineSnoc(s.paragraphs, Trim(Join(s.current)), language);
      }
      assert BodyLines([], language);
    case Add(line) =>
      BodyLinesSnoc(s.current, line, language);
  }

  /** No paragraph holds a blank line, nor in Java a tag line: those lines only
      separate paragraphs. */
  lemma ParagraphsHoldNoBoundary(cleanedText: string, language: string)
    ensures forall k :: 0 <= k < |Paragraphs(cleanedText, language)| ==>
              HasNoBoundaryLine(Paragraphs(cleanedText, language)[k], language)
  {
    var lines := Split(cleanedText);
    ScanKeepsBodies(Scan([], []), lines, language);
    var s := ScanLines(lines, language);
    if |s.current| > 0 {
      BodyHasNoBoundaryLine(s.current, language);
    }
  }
}
