/**
  The merge of a new extraction with the stored comments (separateCommentsByContent in
  src/utils.ts) and the language of a file name (getLanguageByFilename). The merge is
  keyed by the comment text: a new comment whose text some old comment had takes that
  old comment's tags and level, every other new comment goes back to the classifier.
*/
module Reconcile {
  import opened Wrappers
  import opened Text
  import opened Comments

  // ---------------------------------------------------------------- file language

  /** getLanguageByFilename: the language of a file by its suffix, checked in the order
      `.java`, `.py`, `.st`; any other name is an error. */
  function GetLanguageByFilename(filename: string): (r: Result<string, string>)
    ensures r.Success? <==> EndsWith(filename, ".java") || EndsWith(filename, ".py") || EndsWith(filename, ".st")
    ensures r.Failure? ==> r.error == "Error type of file"
  {
    if EndsWith(filename, ".java") then Success("java")
    else if EndsWith(filename, ".py") then Success("python")
    else if EndsWith(filename, ".st") then Success("pharo")
    else Failure("Error type of file")
  }

  /** A string ending with a suffix ends with the suffix's last character. */
  lemma EndsWithLast(s: string, suffix: string)
    requires |suffix| > 0 && EndsWith(s, suffix)
    ensures s[|s| - 1] == suffix[|suffix| - 1]
  {
    assert s[|s| - |suffix|..][|suffix| - 1] == s[|s| - 1];
  }

  /** A name made of any stem and one of the three suffixes gets that suffix's language:
      no suffix hides another, since they end in different characters. */
  lemma LanguageOfSuffix(stem: string)
    ensures GetLanguageByFilename(stem + ".java") == Success("java")
    ensures GetLanguageByFilename(stem + ".py") == Success("python")
    ensures GetLanguageByFilename(stem + ".st") == Success("pharo")
  {
    var j, p, t := stem + ".java", stem + ".py", stem + ".st";
    assert j[|j| - 5..] == ".java";
    assert p[|p| - 3..] == ".py";
    assert t[|t| - 3..] == ".st";
    if EndsWith(p, ".java") {
      EndsWithLast(p, ".java");
      EndsWithLast(p, ".py");
      assert false;
    }
    if EndsWith(t, ".java") {
      EndsWithLast(t, ".java");
      EndsWithLast(t, ".st");
      assert false;
    }
    if EndsWith(t, ".py") {
      EndsWithLast(t, ".py");
      EndsWithLast(t, ".st");
      assert false;
    }
  }

  // ---------------------------------------------------------------- the merge

  /** What the map keeps for one text: the tags and the level of an old comment. */
  type Classification = (seq<string>, string)

  /** The map after `set` for each old comment in turn: a later comment with the same
      text overwrites an earlier one. */
  function ClassificationOf(oldComments: seq<CommentInfo>): (r: map<string, Classification>)
    ensures forall k :: 0 <= k < |oldComments| ==> oldComments[k].content in r
    decreases |oldComments|
  {
    if oldComments == [] then map[]
    else
      var n := |oldComments| - 1;
      ClassificationOf(oldComments[..n])[oldComments[n].content := (oldComments[n].types, oldComments[n].level)]
  }

  /** `{...newComment, type, level}`: the new comment with the kept tags and level. */
  function Preserve(c: CommentInfo, kept: Classification): CommentInfo {
    c.(types := kept.0, level := kept.1)
  }

  /** The `preserved` list: the new comments whose text the map knows, in order, each
      with the kept tags and level. */
  function Preserved(m: map<string, Classification>, newComments: seq<CommentInfo>): (r: seq<CommentInfo>)
    ensures |r| <= |newComments|
    ensures forall k :: 0 <= k < |r| ==> r[k].content in m && (r[k].types, r[k].level) == m[r[k].content]
    decreases |newComments|
  {
    if newComments == [] then []
    else
      var n := |newComments| - 1;
      var c := newComments[n];
      Preserved(m, newComments[..n]) + (if c.content in m then [Preserve(c, m[c.content])] else [])
  }

  /** The `toReclassify` list: the new comments whose text the map does not know, in
      order and unchanged. */
  function ToReclassify(m: map<string, Classification>, newComments: seq<CommentInfo>): (r: seq<CommentInfo>)
    ensures |r| <= |newComments|
    ensures forall k :: 0 <= k < |r| ==> r[k].content !in m && r[k] in newComments
    decreases |newComments|
  {
    if newComments == [] then []
    else
      var n := |newComments| - 1;
      var c := newComments[n];
      ToReclassify(m, newComments[..n]) + (if c.content in m then [] else [c])
  }

  /** separateCommentsByContent: one pass over the old comments to fill the map, one
      pass over the new comments to sort them into the two lists. */
  method SeparateCommentsByContent(oldComments: seq<CommentInfo>, newComments: seq<CommentInfo>)
    returns (preserved: seq<CommentInfo>, toReclassify: seq<CommentInfo>)
    ensures preserved == Preserved(ClassificationOf(oldComments), newComments)
    ensures toReclassify == ToReclassify(ClassificationOf(oldComments), newComments)
  {
    var contentToClassification: map<string, Classification> := map[];
    for i := 0 to |oldComments|
      invariant contentToClassification == ClassificationOf(oldComments[..i])
    {
      assert oldComments[..i + 1][..i] == oldComments[..i];
      var comment := oldComments[i];
      contentToClassification := contentToClassification[comment.content := (comment.types, comment.level)];
    }
    assert oldComments[..|oldComments|] == oldComments;

    preserved := [];
    toReclassify := [];
    for i := 0 to |newComments|
      invariant preserved == Preserved(contentToClassification, newComments[..i])
      invariant toReclassify == ToReclassify(contentToClassification, newComments[..i])
    {
      assert newComments[..i + 1][..i] == newComments[..i];
      var newComment := newComments[i];
      if newComment.content in contentToClassification {
        var existing := contentToClassification[newComment.content];
        preserved := preserved + [newComment.(types := existing.0, level := existing.1)];
      } else {
        toReclassify := toReclassify + [newComment];
      }
    }
    assert newComments[..|newComments|] == newComments;
  }

  // ---------------------------------------------------------------- the map

  /** The map knows exactly the texts of the old comments. */
  lemma {:induction false} ClassificationKeys(oldComments: seq<CommentInfo>)
    ensures forall k :: 0 <= k < |oldComments| ==> oldComments[k].content in ClassificationOf(oldComments)
    ensures forall t :: t in ClassificationOf(oldComments) ==>
              exists k :: 0 <= k < |oldComments| && oldComments[k].content == t
    decreases |oldComments|
  {
    if oldComments != [] {
      var n := |oldComments| - 1;
      var init := oldComments[..n];
      ClassificationKeys(init);
      forall k | 0 <= k < n ensures oldComments[k].content in ClassificationOf(oldComments) {
        assert init[k] == oldComments[k];
      }
      forall t | t in ClassificationOf(oldComments)
        ensures exists k :: 0 <= k < |oldComments| && oldComments[k].content == t
      {
        if t != oldComments[n].content {
          var k :| 0 <= k < n && init[k].content == t;
          assert oldComments[k] == init[k];
        }
      }
    }
  }

  /** The last old comment with a given text decides what the map keeps for it. */
  lemma {:induction false} LastOldCommentWins(oldComments: seq<CommentInfo>, k: nat)
    requires k < |oldComments|
    requires forall j :: k < j < |oldComments| ==> oldComments[j].content != oldComments[k].content
    ensures oldComments[k].content in ClassificationOf(oldComments)
    ensures ClassificationOf(oldComments)[oldComments[k].content] == (oldComments[k].types, oldComments[k].level)
    decreases |oldComments|
  {
    var n := |oldComments| - 1;
    if k < n {
      var init := oldComments[..n];
      assert init[k] == oldComments[k];
      LastOldCommentWins(init, k);
    }
  }

  // ---------------------------------------------------------------- the two lists

  /** The positions of the new comments whose text is known to the map (`known`) or not
      (`!known`), in increasing order. */
  ghost function Positions(m: map<string, Classification>, newComments: seq<CommentInfo>, known: bool): seq<nat>
    decreases |newComments|
  {
    if newComments == [] then []
    else
      var n := |newComments| - 1;
      Positions(m, newComments[..n], known) + (if (newComments[n].content in m) == known then [n] else [])
  }

  /** The positions are increasing indices of the new comments, and a new comment is
      listed exactly when the map's knowledge of its text is `known`. */
  lemma PositionsSelect(m: map<string, Classification>, newComments: seq<CommentInfo>, known: bool)
    ensures forall j :: 0 <= j < |Positions(m, newComments, known)| ==> Positions(m, newComments, known)[j] < |newComments|
    ensures forall i, j :: 0 <= i < j < |Positions(m, newComments, known)| ==>
              Positions(m, newComments, known)[i] < Positions(m, newComments, known)[j]
    ensures forall k :: 0 <= k < |newComments| ==>
              (k in Positions(m, newComments, known) <==> (newComments[k].content in m) == known)
  {
    PositionsIncrease(m, newComments, known);
    PositionsMembership(m, newComments, known);
  }

  lemma {:induction false} PositionsIncrease(m: map<string, Classification>, newComments: seq<CommentInfo>, known: bool)
    ensures forall j :: 0 <= j < |Positions(m, newComments, known)| ==> Positions(m, newComments, known)[j] < |newComments|
    ensures forall i, j :: 0 <= i < j < |Positions(m, newComments, known)| ==>
              Positions(m, newComments, known)[i] < Positions(m, newComments, known)[j]
    decreases |newComments|
  {
    if newComments != [] {
      PositionsIncrease(m, newComments[..|newComments| - 1], known);
    }
  }

  lemma {:induction false} PositionsMembership(m: map<string, Classification>, newComments: seq<CommentInfo>, known: bool)
    ensures forall j :: 0 <= j < |Positions(m, newComments, known)| ==> Positions(m, newComments, known)[j] < |newComments|
    ensures forall k :: 0 <= k < |newComments| ==>
              (k in Positions(m, newComments, known) <==> (newComments[k].content in m) == known)
    decreases |newComments|
  {
    if newComments != [] {
      var n := |newComments| - 1;
      var init := newComments[..n];
      PositionsMembership(m, init, known);
      forall k | 0 <= k < n
        ensures k in Positions(m, newComments, known) <==> (newComments[k].content in m) == known
      {
        assert init[k] == newComments[k];
      }
    }
  }

  /** Every new comment is listed once: the known and the unknown positions together
      number the new comments. */
  lemma {:induction false} PositionsPartition(m: map<string, Classification>, newComments: seq<CommentInfo>)
    ensures |Positions(m, newComments, true)| + |Positions(m, newComments, false)| == |newComments|
    decreases |newComments|
  {
    if newComments != [] {
      PositionsPartition(m, newComments[..|newComments| - 1]);
    }
  }

  /** `preserved` holds, in order, the new comments at the known positions with the kept
      tags and level; every other field comes from the new comment. */
  lemma {:induction false} PreservedAtPositions(m: map<string, Classification>, newComments: seq<CommentInfo>)
    ensures |Preserved(m, newComments)| == |Positions(m, newComments, true)|
    ensures forall j :: 0 <= j < |Preserved(m, newComments)| ==>
              var k := Positions(m, newComments, true)[j];
              k < |newComments| && newComments[k].content in m
              && Preserved(m, newComments)[j] == Preserve(newComments[k], m[newComments[k].content])
    decreases |newComments|
  {
    if newComments != [] {
      var n := |newComments| - 1;
      var init := newComments[..n];
      PreservedAtPositions(m, init);
      PositionsIncrease(m, init, true);
      var p := Positions(m, init, true);
      forall j | 0 <= j < |p| ensures init[p[j]] == newComments[p[j]] {
      }
    }
  }

  /** `toReclassify` holds, in order and unchanged, the new comments at the unknown
      positions. */
  lemma {:induction false} ToReclassifyAtPositions(m: map<string, Classification>, newComments: seq<CommentInfo>)
    ensures |ToReclassify(m, newComments)| == |Positions(m, newComments, false)|
    ensures forall j :: 0 <= j < |ToReclassify(m, newComments)| ==>
              var k := Positions(m, newComments, false)[j];
              k < |newComments| && newComments[k].content !in m
              && ToReclassify(m, newComments)[j] == newComments[k]
    decreases |newComments|
  {
    if newComments != [] {
      var n := |newComments| - 1;
      var init := newComments[..n];
      ToReclassifyAtPositions(m, init);
      PositionsIncrease(m, init, false);
      var p := Positions(m, init, false);
      forall j | 0 <= j < |p| ensures init[p[j]] == newComments[p[j]] {
      }
    }
  }

  /** The two lists together are as long as the new comments. */
  lemma SeparationCounts(oldComments: seq<CommentInfo>, newComments: seq<CommentInfo>)
    ensures |Preserved(ClassificationOf(oldComments), newComments)|
            + |ToReclassify(ClassificationOf(oldComments), newComments)| == |newComments|
  {
    var m := ClassificationOf(oldComments);
    PreservedAtPositions(m, newComments);
    ToReclassifyAtPositions(m, newComments);
    PositionsPartition(m, newComments);
  }

  /** Reconciling a list with itself sends nothing back to the classifier and keeps every
      comment, in order, with its text. */
  lemma SelfSeparation(comments: seq<CommentInfo>)
    ensures ToReclassify(ClassificationOf(comments), comments) == []
    ensures |Preserved(ClassificationOf(comments), comments)| == |comments|
    ensures forall k :: 0 <= k < |comments| ==>
              Preserved(ClassificationOf(comments), comments)[k].content == comments[k].content
  {
    var m := ClassificationOf(comments);
    ClassificationKeys(comments);
    AllKnown(m, comments);
    PreservedAtPositions(m, comments);
  }

  /** When the map knows every text, nothing is sent back and every position is known. */
  lemma {:induction false} AllKnown(m: map<string, Classification>, newComments: seq<CommentInfo>)
    requires forall k :: 0 <= k < |newComments| ==> newComments[k].content in m
    ensures ToReclassify(m, newComments) == []
    ensures |Positions(m, newComments, true)| == |newComments|
    ensures forall k :: 0 <= k < |newComments| ==> Positions(m, newComments, true)[k] == k
    decreases |newComments|
  {
    if newComments != [] {
      var n := |newComments| - 1;
      assert forall k :: 0 <= k < n ==> newComments[..n][k] == newComments[k];
      AllKnown(m, newComments[..n]);
    }
  }
}
