/**
  The tree items of the comment view (src/entity/CommentNode.ts): the label of a comment
  node (icon, abbreviated tags, preview of the text), the update of its tags, and the
  context value of a file node.
*/
module CommentNodes {
  import opened Text
  import opened Comments
  import Color

  /** The abbreviation of one tag: its first three characters, upper-cased. */
  function Segment(tag: string): (r: string)
    ensures |r| <= 3 && |r| <= |tag|
  {
    Upper(Take(tag, 3))
  }

  /** Segments joined by a bar between each two neighbours. */
  function JoinBars(segments: seq<string>): (r: string)
    ensures segments != [] ==> |segments[0]| <= |r| && r[..|segments[0]|] == segments[0]
    ensures segments != [] ==> |segments[|segments| - 1]| <= |r|
                               && r[|r| - |segments[|segments| - 1]|..] == segments[|segments| - 1]
    decreases |segments|
  {
    if segments == [] then ""
    else if |segments| == 1 then segments[0]
    else JoinBars(segments[..|segments| - 1]) + "|" + segments[|segments| - 1]
  }

  /** The segments of the tags, in order. */
  function Segments(tags: seq<string>): (r: seq<string>)
    ensures |r| == |tags|
    ensures forall k :: 0 <= k < |tags| ==> r[k] == Segment(tags[k])
  {
    seq(|tags|, k requires 0 <= k < |tags| => Segment(tags[k]))
  }

  /** What the loop has built after `i` segments: each segment, followed by a bar unless
      it is the last one. */
  function Barred(segments: seq<string>, i: nat): string
    requires i <= |segments|
    decreases i
  {
    if i == 0 then ""
    else Barred(segments, i - 1) + segments[i - 1] + (if i - 1 < |segments| - 1 then "|" else "")
  }

  /** The abbreviation loop of the constructor and of updateCommentType. */
  method BuildAbbreviation(tags: seq<string>) returns (abbreviation: string)
    ensures abbreviation == JoinBars(Segments(tags))
  {
    abbreviation := "";
    for i := 0 to |tags|
      invariant abbreviation == Barred(Segments(tags), i)
    {
      abbreviation := abbreviation + Upper(Take(tags[i], 3));
      if i < |tags| - 1 {
        abbreviation := abbreviation + "|";
      }
    }
    BarredIsJoin(Segments(tags));
  }

  /** The loop's text for all the segments is the segments joined by bars. */
  lemma BarredIsJoin(segments: seq<string>)
    ensures Barred(segments, |segments|) == JoinBars(segments)
  {
    if segments != [] {
      var n := |segments| - 1;
      PrefixIsJoin(segments, n);
      if n == 0 {
        assert Barred(segments, 1) == segments[0];
      }
    }
  }

  /** Before the last segment, the loop's text is the join of the first segments plus a
      bar (nothing when no segment is done yet). */
  lemma {:induction false} PrefixIsJoin(segments: seq<string>, i: nat)
    requires i < |segments|
    ensures Barred(segments, i) == if i == 0 then "" else JoinBars(segments[..i]) + "|"
    decreases i
  {
    if i > 0 {
      PrefixIsJoin(segments, i - 1);
      assert segments[..i][..i - 1] == segments[..i - 1];
      assert segments[..i][i - 1] == segments[i - 1];
    }
  }

  /** The bars of the joined text: one between each two segments, plus those inside the
      segments. */
  lemma {:induction false} JoinBarsCount(segments: seq<string>)
    ensures |segments| > 0 ==> Count('|', JoinBars(segments)) == |segments| - 1 + SegmentBars(segments)
    ensures segments == [] ==> JoinBars(segments) == ""
    decreases |segments|
  {
    if |segments| > 1 {
      var n := |segments| - 1;
      var init := segments[..n];
      JoinBarsCount(init);
      CountAppend('|', JoinBars(init), "|");
      CountAppend('|', JoinBars(init) + "|", segments[n]);
      assert segments[..n][..n - 1] == segments[..n - 1] by {
        assert init[..n - 1] == segments[..n - 1];
      }
      SegmentBarsSnoc(segments);
    } else if |segments| == 1 {
      assert segments[..0] == [];
    }
  }

  /** The bars inside the segments. */
  function SegmentBars(segments: seq<string>): nat
    decreases |segments|
  {
    if segments == [] then 0 else SegmentBars(segments[..|segments| - 1]) + Count('|', segments[|segments| - 1])
  }

  lemma SegmentBarsSnoc(segments: seq<string>)
    requires segments != []
    ensures SegmentBars(segments) == SegmentBars(segments[..|segments| - 1]) + Count('|', segments[|segments| - 1])
  {
  }

  /** With tags whose first three characters hold no bar, the abbreviation of `n` tags
      holds `n - 1` bars: one segment per tag. */
  lemma AbbreviationBars(tags: seq<string>)
    requires forall k :: 0 <= k < |tags| ==> '|' !in Segment(tags[k])
    ensures |tags| > 0 ==> Count('|', JoinBars(Segments(tags))) == |tags| - 1
    ensures tags == [] ==> JoinBars(Segments(tags)) == ""
  {
    JoinBarsCount(Segments(tags));
    NoSegmentBars(Segments(tags));
  }

  lemma {:induction false} NoSegmentBars(segments: seq<string>)
    requires forall k :: 0 <= k < |segments| ==> '|' !in segments[k]
    ensures SegmentBars(segments) == 0
    decreases |segments|
  {
    if segments != [] {
      var n := |segments| - 1;
      assert forall k :: 0 <= k < n ==> segments[..n][k] == segments[k];
      NoSegmentBars(segments[..n]);
    }
  }

  /** The preview: the first 50 characters, and "..." exactly when the text is longer. */
  function Preview(content: string): (r: string)
    ensures |content| <= 50 ==> r == content
    ensures |content| > 50 ==> r == content[..50] + "..."
    ensures |r| <= 53
  {
    Take(content, 50) + (if |content| > 50 then "..." else "")
  }

  /** `${icon} ${abbreviation}: ${contentPreview}`. */
  function Label(icon: string, abbreviation: string, preview: string): (r: string)
    ensures |r| == |icon| + |abbreviation| + |preview| + 3
    ensures r[..|icon|] == icon && r[|r| - |preview|..] == preview
  {
    icon + " " + abbreviation + ": " + preview
  }

  /** The label of a comment: the icons of its tags, their abbreviation, the preview. */
  function LabelOf(c: CommentInfo): (r: string)
    ensures |c.types| <= |r| && r[..|c.types|] == Color.Icons(c.language, c.types)
    ensures |Preview(c.content)| <= |r| && r[|r| - |Preview(c.content)|..] == Preview(c.content)
  {
    Label(Color.Icons(c.language, c.types), JoinBars(Segments(c.types)), Preview(c.content))
  }

  /** A comment in the tree view. */
  class CommentNode {
    var comment: CommentInfo
    var labelText: string
    var language: string
    var contextValue: string

    /** The label is built from the comment's tags and text; the context value ends as
        'commentItem' (the value set first is overwritten). */
    constructor (comment: CommentInfo)
      ensures this.comment == comment && language == comment.language
      ensures labelText == LabelOf(comment)
      ensures contextValue == "commentItem"
    {
      var icon := Color.GetIconForType(comment.language, comment.types);
      var abbreviation := BuildAbbreviation(comment.types);
      var contentPreview := Preview(comment.content);
      this.comment := comment;
      this.labelText := Label(icon, abbreviation, contentPreview);
      this.contextValue := "commentItem.manualType";
      this.language := comment.language;
      this.contextValue := "commentItem";
    }

    /** The tags are replaced, but the label is built before that from the tags held so
        far: after an update the label shows the previous tags. */
    method UpdateCommentType(newType: seq<string>)
      modifies this
      ensures comment == old(comment).(types := newType)
      ensures labelText == LabelOf(old(comment))
      ensures language == old(language) && contextValue == old(contextValue)
    {
      var icon := Color.GetIconForType(comment.language, comment.types);
      var abbreviation := BuildAbbreviation(comment.types);
      var contentPreview := Preview(comment.content);
      var newLabel := Label(icon, abbreviation, contentPreview);
      comment := comment.(types := newType);
      labelText := newLabel;
    }
  }

  /** The context value of a file node: a directory, or a file with or without comments. */
  function FileContextValue(isDirectory: bool, hasComments: bool): (r: string)
    ensures r == "directoryNode" <==> isDirectory
    ensures r == "fileWithComments" <==> !isDirectory && hasComments
    ensures r == "fileWithoutComments" <==> !isDirectory && !hasComments
  {
    if isDirectory then "directoryNode"
    else if hasComments then "fileWithComments"
    else "fileWithoutComments"
  }

  /** A file or directory in the tree view. */
  class FileNode {
    const filePath: string
    var hasComments: bool
    const isDirectory: bool
    var contextValue: string

    constructor (filePath: string, hasComments: bool, isDirectory: bool)
      ensures this.filePath == filePath && this.hasComments == hasComments && this.isDirectory == isDirectory
      ensures contextValue == FileContextValue(isDirectory, hasComments)
    {
      this.filePath := filePath;
      this.hasComments := hasComments;
      this.isDirectory := isDirectory;
      this.contextValue := FileContextValue(isDirectory, hasComments);
    }
  }
}
