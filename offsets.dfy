/**
  Line offsets and columns (buildLineOffsets and globalToPosition in
  src/extract_comments.ts). Offsets count characters.
*/
module Offsets {
  import opened Text

  /** The offsets at which the lines of `content` start: 0, and one past every line
      feed, in order. */
  function LineStarts(content: string): (r: seq<int>)
    ensures |r| >= 1 && r[0] == 0
    decreases |content|
  {
    if content == [] then [0]
    else
      var n := |content| - 1;
      LineStarts(content[..n]) + (if content[n] == '\n' then [n + 1] else [])
  }

  /** buildLineOffsets: walks the content once, counting characters and recording the
      offset after each line feed. */
  method BuildLineOffsets(content: string) returns (lineOffsets: seq<int>)
    ensures lineOffsets == LineStarts(content)
  {
    lineOffsets := [0];
    var currentOffset := 0;
    for i := 0 to |content|
      invariant currentOffset == i
      invariant lineOffsets == LineStarts(content[..i])
    {
      assert content[..i + 1][..i] == content[..i];
      if content[i] == '\n' {
        currentOffset := currentOffset + 1;
        lineOffsets := lineOffsets + [currentOffset];
      } else {
        currentOffset := currentOffset + 1;
      }
    }
    assert content[..|content|] == content;
  }

  predicate StrictlyIncreasing(r: seq<int>) {
    forall i, j :: 0 <= i < j < |r| ==> r[i] < r[j]
  }

  /** The line starts increase strictly and stay within the text. */
  lemma {:induction false} LineStartsIncrease(content: string)
    ensures StrictlyIncreasing(LineStarts(content))
    ensures forall k :: 0 <= k < |LineStarts(content)| ==> LineStarts(content)[k] <= |content|
    decreases |content|
  {
    if content != [] {
      var n := |content| - 1;
      LineStartsIncrease(content[..n]);
    }
  }

  /** There is one line more than there are line feeds. */
  lemma {:induction false} LineStartsCount(content: string)
    ensures |LineStarts(content)| == Count('\n', content) + 1
    decreases |content|
  {
    if content != [] {
      var n := |content| - 1;
      LineStartsCount(content[..n]);
      assert content == content[..n] + [content[n]];
      CountAppend('\n', content[..n], [content[n]]);
    }
  }

  /** Every line but the first starts just after a line feed. */
  lemma {:induction false} LineStartsFollowLineFeeds(content: string)
    ensures forall k :: 0 < k < |LineStarts(content)| ==>
              0 < LineStarts(content)[k] <= |content| && content[LineStarts(content)[k] - 1] == '\n'
    decreases |content|
  {
    if content != [] {
      var n := |content| - 1;
      var init := content[..n];
      LineStartsFollowLineFeeds(init);
      var r := LineStarts(content);
      forall k | 0 < k < |r| ensures 0 < r[k] <= |content| && content[r[k] - 1] == '\n' {
        if k < |LineStarts(init)| {
          assert content[r[k] - 1] == init[r[k] - 1];
        }
      }
    }
  }

  /** Every line feed is followed by the start of a line. */
  lemma {:induction false} LineFeedsStartLines(content: string)
    ensures forall j :: 0 <= j < |content| && content[j] == '\n' ==> j + 1 in LineStarts(content)
    decreases |content|
  {
    if content != [] {
      var n := |content| - 1;
      var init := content[..n];
      LineFeedsStartLines(init);
      forall j | 0 <= j < |content| && content[j] == '\n' ensures j + 1 in LineStarts(content) {
        if j < n {
          assert init[j] == content[j];
        }
      }
    }
  }

  /** The test findIndex applies: line `idx` starts at or before `g` and the next line,
      if any, starts after it. */
  predicate IsLineOf(lineOffsets: seq<int>, idx: nat, g: int)
    requires idx < |lineOffsets|
  {
    lineOffsets[idx] <= g && (idx == |lineOffsets| - 1 || lineOffsets[idx + 1] > g)
  }

  /** `lineOffsets.findIndex(...)` from index `from` on: the first line that passes the
      test, or -1. */
  function FindLine(lineOffsets: seq<int>, g: int, from: nat): (r: int)
    ensures r == -1 || (from <= r < |lineOffsets| && IsLineOf(lineOffsets, r, g))
    ensures r == -1 ==> forall idx :: from <= idx < |lineOffsets| ==> !IsLineOf(lineOffsets, idx, g)
    ensures r != -1 ==> forall idx :: from <= idx < r ==> !IsLineOf(lineOffsets, idx, g)
    decreases |lineOffsets| - from
  {
    if from >= |lineOffsets| then -1
    else if IsLineOf(lineOffsets, from, g) then from
    else FindLine(lineOffsets, g, from + 1)
  }

  /** globalToPosition: the column of offset `g`, measured from the start of its line;
      line 0 when no line passes the test. */
  function GlobalToPosition(g: int, lineOffsets: seq<int>): (r: int)
    requires |lineOffsets| >= 1
    ensures g - r in lineOffsets
    ensures lineOffsets[0] <= g ==> 0 <= r
  {
    var found := FindLine(lineOffsets, g, 0);
    var line := if found == -1 then 0 else found;
    g - lineOffsets[line]
  }

  /** On increasing offsets, the line found is the last one starting at or before `g`;
      an offset before the first line is measured from line 0. */
  lemma GlobalToPositionIsFromLastStart(g: int, lineOffsets: seq<int>)
    requires |lineOffsets| >= 1 && StrictlyIncreasing(lineOffsets)
    ensures g < lineOffsets[0] ==> GlobalToPosition(g, lineOffsets) == g - lineOffsets[0]
    ensures forall idx :: 0 <= idx < |lineOffsets| && lineOffsets[idx] <= g
              && (forall later :: idx < later < |lineOffsets| ==> lineOffsets[later] > g)
              ==> GlobalToPosition(g, lineOffsets) == g - lineOffsets[idx]
  {
    forall idx | 0 <= idx < |lineOffsets| && lineOffsets[idx] <= g
                 && (forall later :: idx < later < |lineOffsets| ==> lineOffsets[later] > g)
      ensures GlobalToPosition(g, lineOffsets) == g - lineOffsets[idx]
    {
      assert IsLineOf(lineOffsets, idx, g);
      var found := FindLine(lineOffsets, g, 0);
      if found != idx {
        assert found < idx;
        assert lineOffsets[found + 1] <= lineOffsets[idx];
      }
    }
  }

  /** On the offsets of a text, the column of a position inside the text is its
      distance from the nearest line feed before it (or from the start): the characters
      between hold no line feed. */
  lemma ColumnOfPosition(content: string, g: int)
    requires 0 <= g <= |content|
    ensures var c := GlobalToPosition(g, LineStarts(content));
            0 <= c <= g && '\n' !in content[g - c..g] && (c == g || content[g - c - 1] == '\n')
  {
    var start := LineStartOf(content, g);
    ColumnFromStart(content, g, start);
  }

  /** The start of the line that globalToPosition measures from: 0 or just after a line
      feed, at or before `g`, with no line feed up to `g`. */
  lemma LineStartOf(content: string, g: int) returns (start: int)
    requires 0 <= g <= |content|
    ensures GlobalToPosition(g, LineStarts(content)) == g - start
    ensures 0 <= start <= g && (start == 0 || content[start - 1] == '\n') && '\n' !in content[start..g]
  {
    var r := LineStarts(content);
    SomeLineFound(content, g);
    var found := FindLine(r, g, 0);
    StartOfLine(content, found);
    NoLineFeedInLine(content, found, g);
    start := r[found];
  }

  /** Measured from a line start with no line feed up to `g`, the column reaches back to
      that line feed or to the start of the text. */
  lemma ColumnFromStart(content: string, g: int, start: int)
    requires 0 <= start <= g <= |content|
    requires start == 0 || content[start - 1] == '\n'
    requires '\n' !in content[start..g]
    ensures var c := g - start;
            0 <= c <= g && '\n' !in content[g - c..g] && (c == g || content[g - c - 1] == '\n')
  {
  }

  /** A line starts at 0 or just after a line feed. */
  lemma StartOfLine(content: string, k: nat)
    requires k < |LineStarts(content)|
    ensures k == 0 ==> LineStarts(content)[k] == 0
    ensures k > 0 ==> 0 < LineStarts(content)[k] <= |content| && content[LineStarts(content)[k] - 1] == '\n'
  {
    LineStartsFollowLineFeeds(content);
  }

  /** Every position after the start of the text lies on some line: the search never comes
      back empty. */
  lemma SomeLineFound(content: string, g: int)
    requires 0 <= g
    ensures FindLine(LineStarts(content), g, 0) != -1
  {
    LastStartAtOrBefore(LineStarts(content), g, 0);
  }

  /** Between the start of the line that passes the test and `g` there is no line feed. */
  lemma NoLineFeedInLine(content: string, found: nat, g: int)
    requires found < |LineStarts(content)| && g <= |content|
    requires IsLineOf(LineStarts(content), found, g)
    ensures 0 <= LineStarts(content)[found]
    ensures '\n' !in content[LineStarts(content)[found]..g]
  {
    var r := LineStarts(content);
    LineStartsIncrease(content);
    LineFeedsStartLines(content);
    assert found == 0 || r[0] < r[found];
    var start := r[found];
    NoStartInsideLine(r, found, g);
    forall j | start <= j < g ensures content[j] != '\n' {
      assert content[j] == '\n' ==> j + 1 in r;
    }
  }

  /** On increasing offsets, no line starts strictly after the one that passes the test
      and at or before `g`. */
  lemma NoStartInsideLine(r: seq<int>, found: nat, g: int)
    requires found < |r| && StrictlyIncreasing(r) && IsLineOf(r, found, g)
    ensures forall x :: x in r ==> x <= r[found] || x > g
  {
    forall x | x in r ensures x <= r[found] || x > g {
      var k :| 0 <= k < |r| && r[k] == x;
      if found < k {
        assert r[found + 1] <= r[k];
      }
    }
  }

  /** Some line from `from` on passes the test when line `from` starts at or before `g`. */
  lemma {:induction false} LastStartAtOrBefore(r: seq<int>, g: int, from: nat)
    requires from < |r| && r[from] <= g
    ensures exists idx :: from <= idx < |r| && IsLineOf(r, idx, g)
    decreases |r| - from
  {
    if !IsLineOf(r, from, g) {
      LastStartAtOrBefore(r, g, from + 1);
    }
  }
}
