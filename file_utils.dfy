/**
  The in-memory kernels of src/utils/fileUtils.ts: updateCommentInJson (find a comment
  by id and merge updates into it) and updateCommentTypeInFile (find the comment of a
  file whose rows hold a line and give it new tags). The store is the parsed JSON
  object: its entries, file path and comments, in key order.
*/
module FileUtils {
  import opened Wrappers
  import opened Comments

  /** The parsed store: one entry per file, in the order `for..in` visits the keys. */
  type CommentsData = seq<(string, seq<CommentInfo>)>

  /** `updates`: the fields the caller sets; an absent field keeps the comment's value. */
  datatype Updates = Updates(
    id: Option<int>,
    language: Option<string>,
    content: Option<string>,
    className: Option<string>,
    relativePath: Option<string>,
    level: Option<string>,
    types: Option<seq<string>>,
    lineNumber: Option<(int, int)>,
    index: Option<(int, int)>,
    lastCommitDate: Option<string>)

  function Pick<T>(update: Option<T>, current: T): T {
    if update.Some? then update.value else current
  }

  /** One field after a spread merge: the update's value when it gives one, else the
      value held before. */
  predicate Overrides<T(==)>(update: Option<T>, before: T, after: T) {
    if update.Some? then after == update.value else after == before
  }

  /** `{ ...comment, ...updates }`: every field the updates set overrides the comment's. */
  function Merge(c: CommentInfo, u: Updates): (r: CommentInfo)
    ensures Overrides(u.id, c.id, r.id) && Overrides(u.language, c.language, r.language)
    ensures Overrides(u.content, c.content, r.content) && Overrides(u.className, c.className, r.className)
    ensures Overrides(u.relativePath, c.relativePath, r.relativePath) && Overrides(u.level, c.level, r.level)
    ensures Overrides(u.types, c.types, r.types) && Overrides(u.lineNumber, c.lineNumber, r.lineNumber)
    ensures Overrides(u.index, c.index, r.index) && Overrides(u.lastCommitDate, c.lastCommitDate, r.lastCommitDate)
  {
    CommentInfo(Pick(u.id, c.id), Pick(u.language, c.language), Pick(u.content, c.content),
                Pick(u.className, c.className), Pick(u.relativePath, c.relativePath), Pick(u.level, c.level),
                Pick(u.types, c.types), Pick(u.lineNumber, c.lineNumber), Pick(u.index, c.index),
                Pick(u.lastCommitDate, c.lastCommitDate))
  }

  /** No updates leave a comment as it is. */
  lemma MergeNothing(c: CommentInfo)
    ensures Merge(c, Updates(None, None, None, None, None, None, None, None, None, None)) == c
  {
  }

  /** Merging the same updates twice is merging them once. */
  lemma MergeIdempotent(c: CommentInfo, u: Updates)
    ensures Merge(Merge(c, u), u) == Merge(c, u)
  {
  }

  predicate HasId(comments: seq<CommentInfo>, id: int) {
    exists k :: 0 <= k < |comments| && comments[k].id == id
  }

  /** `comments.findIndex(c => c.id === id)` from position `from` on. */
  function FindIndexById(comments: seq<CommentInfo>, id: int, from: nat): (r: int)
    requires from <= |comments|
    ensures r == -1 || (from <= r < |comments| && comments[r].id == id)
    ensures r == -1 <==> forall k :: from <= k < |comments| ==> comments[k].id != id
    ensures r != -1 ==> forall k :: from <= k < r ==> comments[k].id != id
    decreases |comments| - from
  {
    if from == |comments| then -1
    else if comments[from].id == id then from
    else FindIndexById(comments, id, from + 1)
  }

  /** The store with comment `k` of file `i` replaced. */
  function ReplaceComment(data: CommentsData, i: nat, k: nat, c: CommentInfo): (r: CommentsData)
    requires i < |data| && k < |data[i].1|
    ensures |r| == |data| && r[i].0 == data[i].0 && |r[i].1| == |data[i].1| && r[i].1[k] == c
    ensures forall j :: 0 <= j < |data| && j != i ==> r[j] == data[j]
    ensures forall l :: 0 <= l < |data[i].1| && l != k ==> r[i].1[l] == data[i].1[l]
  {
    data[i := (data[i].0, data[i].1[k := c])]
  }

  /** The first file, in key order, holding a comment with the id. */
  function FirstFileWithId(data: CommentsData, id: int, from: nat): (r: int)
    requires from <= |data|
    ensures r == -1 || (from <= r < |data| && HasId(data[r].1, id))
    ensures r == -1 <==> forall j :: from <= j < |data| ==> !HasId(data[j].1, id)
    ensures r != -1 ==> forall j :: from <= j < r ==> !HasId(data[j].1, id)
    decreases |data| - from
  {
    if from == |data| then -1
    else if FindIndexById(data[from].1, id, 0) != -1 then from
    else FirstFileWithId(data, id, from + 1)
  }

  /** updateCommentInJson on the parsed store: the first comment with the id, scanning
      files in key order and comments in list order, gets the updates; when no comment
      has the id the update fails. */
  function UpdateById(data: CommentsData, commentId: int, updates: Updates): (r: Result<CommentsData, string>)
    ensures r.Failure? <==> forall j :: 0 <= j < |data| ==> !HasId(data[j].1, commentId)
    ensures r.Failure? ==> r.error == "Comment not found in JSON"
  {
    var i := FirstFileWithId(data, commentId, 0);
    if i == -1 then Failure("Comment not found in JSON")
    else
      var k := FindIndexById(data[i].1, commentId, 0);
      Success(ReplaceComment(data, i, k, Merge(data[i].1[k], updates)))
  }

  /** The loop of updateCommentInJson: for each file in key order, `findIndex` by id; the
      first hit is merged with the updates and the loop ends. */
  method UpdateCommentInJson(data: CommentsData, commentId: int, updates: Updates)
    returns (result: Result<CommentsData, string>)
    ensures result == UpdateById(data, commentId, updates)
  {
    for i := 0 to |data|
      invariant FirstFileWithId(data, commentId, 0) == FirstFileWithId(data, commentId, i)
    {
      var comments := data[i].1;
      var commentIndex := FindIndexById(comments, commentId, 0);
      if commentIndex != -1 {
        var updated := comments[commentIndex := Merge(comments[commentIndex], updates)];
        return Success(data[i := (data[i].0, updated)]);
      }
    }
    return Failure("Comment not found in JSON");
  }

  /** A successful update changes exactly one comment: the first with the id, which no
      earlier file and no earlier comment of its file holds; every other comment and
      every file path stays as it was. */
  lemma UpdateByIdChangesFirstOnly(data: CommentsData, commentId: int, updates: Updates)
    requires UpdateById(data, commentId, updates).Success?
    ensures var r := UpdateById(data, commentId, updates).value;
            exists i, k :: 0 <= i < |data| && 0 <= k < |data[i].1|
              && data[i].1[k].id == commentId
              && (forall j :: 0 <= j < i ==> !HasId(data[j].1, commentId))
              && (forall l :: 0 <= l < k ==> data[i].1[l].id != commentId)
              && r == ReplaceComment(data, i, k, Merge(data[i].1[k], updates))
  {
    var i := FirstFileWithId(data, commentId, 0);
    var k := FindIndexById(data[i].1, commentId, 0);
    assert 0 <= i < |data| && 0 <= k < |data[i].1|
              && data[i].1[k].id == commentId
              && (forall j :: 0 <= j < i ==> !HasId(data[j].1, commentId))
              && (forall l :: 0 <= l < k ==> data[i].1[l].id != commentId);
  }

  // ---------------------------------------------------------------- update by line

  /** `lineNumber[0] <= line && lineNumber[1] >= line`. */
  predicate Holds(c: CommentInfo, line: int)
    ensures Holds(c, line) ==> c.lineNumber.0 <= c.lineNumber.1
  {
    c.lineNumber.0 <= line <= c.lineNumber.1
  }

  /** `comments.find(...)` for the rows test, as an index from `from` on, or -1. */
  function FindHolding(comments: seq<CommentInfo>, line: int, from: nat): (r: int)
    requires from <= |comments|
    ensures r == -1 || (from <= r < |comments| && Holds(comments[r], line))
    ensures r == -1 <==> forall k :: from <= k < |comments| ==> !Holds(comments[k], line)
    ensures r != -1 ==> forall k :: from <= k < r ==> !Holds(comments[k], line)
    decreases |comments| - from
  {
    if from == |comments| then -1
    else if Holds(comments[from], line) then from
    else FindHolding(comments, line, from + 1)
  }

  /** `commentsData[filePath]`: the entry of the file, as an index, or -1 when the store
      has no such key. */
  function EntryOf(data: CommentsData, filePath: string, from: nat): (r: int)
    requires from <= |data|
    ensures r == -1 || (from <= r < |data| && data[r].0 == filePath)
    ensures r == -1 <==> forall j :: from <= j < |data| ==> data[j].0 != filePath
    decreases |data| - from
  {
    if from == |data| then -1
    else if data[from].0 == filePath then from
    else EntryOf(data, filePath, from + 1)
  }

  /** updateCommentTypeInFile on the parsed store: the first comment of the file whose
      rows hold the line gets the new tags, and the store is written; when the file has
      no entry or no comment holds the line nothing changes and nothing is written.
      The result is the new store and whether it is written. */
  function UpdateTypeAtLine(data: CommentsData, filePath: string, lineNumber: int, newType: seq<string>)
    : (r: (CommentsData, bool))
    ensures !r.1 ==> r.0 == data
  {
    var i := EntryOf(data, filePath, 0);
    if i == -1 then (data, false)
    else
      var k := FindHolding(data[i].1, lineNumber, 0);
      if k == -1 then (data, false)
      else (ReplaceComment(data, i, k, data[i].1[k].(types := newType)), true)
  }

  /** The store is written exactly when the file has an entry and one of its comments
      holds the line; then that comment, the first to hold it, is the only one changed,
      and only its tags. */
  lemma UpdateTypeAtLineSpec(data: CommentsData, filePath: string, lineNumber: int, newType: seq<string>)
    ensures var r := UpdateTypeAtLine(data, filePath, lineNumber, newType);
            var i := EntryOf(data, filePath, 0);
            r.1 <==> i != -1 && exists k :: 0 <= k < |data[i].1| && Holds(data[i].1[k], lineNumber)
    ensures var r := UpdateTypeAtLine(data, filePath, lineNumber, newType);
            r.1 ==> exists i, k :: 0 <= i < |data| && data[i].0 == filePath && 0 <= k < |data[i].1|
                      && Holds(data[i].1[k], lineNumber)
                      && (forall l :: 0 <= l < k ==> !Holds(data[i].1[l], lineNumber))
                      && r.0 == ReplaceComment(data, i, k, data[i].1[k].(types := newType))
  {
    var r := UpdateTypeAtLine(data, filePath, lineNumber, newType);
    var i := EntryOf(data, filePath, 0);
    if i != -1 {
      var k := FindHolding(data[i].1, lineNumber, 0);
      if k != -1 {
        assert 0 <= i < |data| && data[i].0 == filePath && 0 <= k < |data[i].1|
                      && Holds(data[i].1[k], lineNumber)
                      && (forall l :: 0 <= l < k ==> !Holds(data[i].1[l], lineNumber))
                      && r.0 == ReplaceComment(data, i, k, data[i].1[k].(types := newType));
      }
    }
  }
}
