/**
  The comment record (src/entity/Comment.ts). `CommentInfo` is the plain value that
  the extraction pipeline produces and that the JSON store holds; `Comment` is the
  class whose setters change one field in place.
*/
module Comments {
  import opened Wrappers

  /** One comment record. The source's field `type` is called `types` here
      (`type` is a Dafny keyword); it is the ordered list of classification tags. */
  datatype CommentInfo = CommentInfo(
    id: int,
    language: string,
    content: string,
    className: string,
    relativePath: string,
    level: string,
    types: seq<string>,
    lineNumber: (int, int),
    index: (int, int),
    lastCommitDate: string)

  /** What the version-control lookup for one line gives back: a date, nothing (null),
      or a failure (the promise rejects). */
  datatype BlameResult = Found(date: string) | NotFound | LookupFailed

  /** `date || ''` for a lookup, with '' for a failure. */
  function DateOrEmpty(b: BlameResult): (r: string)
    ensures b.Found? ==> r == b.date
    ensures !b.Found? ==> r == ""
  {
    match b
    case Found(d) => d
    case NotFound => ""
    case LookupFailed => ""
  }

  /** The version-control lookup: the date of a line (1-based) of a file. */
  type Blame = (string, int) -> BlameResult

  /** What `setLastCommitDate(filePath)` does to a record: a date already set stays;
      otherwise the date of the record's first line (1-based), '' when the lookup gives
      nothing or fails. */
  function Dated(c: CommentInfo, filePath: string, blame: Blame): (r: CommentInfo)
    ensures r.(lastCommitDate := c.lastCommitDate) == c
    ensures c.lastCommitDate != "" ==> r == c
    ensures c.lastCommitDate == "" ==> r.lastCommitDate == DateOrEmpty(blame(filePath, c.lineNumber.0 + 1))
  {
    if c.lastCommitDate != "" then c
    else c.(lastCommitDate := DateOrEmpty(blame(filePath, c.lineNumber.0 + 1)))
  }

  /** Setting the date a second time changes nothing: the lookup either stored a date,
      which is then kept, or stored '', which the same lookup gives again. */
  lemma DatedIdempotent(c: CommentInfo, filePath: string, blame: Blame)
    ensures Dated(Dated(c, filePath, blame), filePath, blame) == Dated(c, filePath, blame)
  {
  }

  class Comment {
    var id: int
    var language: string
    var content: string
    var className: string
    var relativePath: string
    var level: string
    var types: seq<string>
    var lineNumber: (int, int)
    var index: (int, int)
    var lastCommitDate: string

    /** The record this object currently holds. */
    function Info(): CommentInfo
      reads this
    {
      CommentInfo(id, language, content, className, relativePath, level, types, lineNumber, index, lastCommitDate)
    }

    /** Every argument lands in the field of the same name; an absent or empty
        commit date becomes ''. */
    constructor (id: int, language: string, content: string, className: string, relativePath: string,
                 level: string, types: seq<string>, lineNumber: (int, int), index: (int, int),
                 lastCommitDate: Option<string>)
      ensures Info() == CommentInfo(id, language, content, className, relativePath, level, types,
                                    lineNumber, index, if lastCommitDate.Some? then lastCommitDate.value else "")
      ensures lastCommitDate.None? || lastCommitDate == Some("") ==> this.lastCommitDate == ""
    {
      this.id := id;
      this.language := language;
      this.content := content;
      this.className := className;
      this.relativePath := relativePath;
      this.level := level;
      this.types := types;
      this.lineNumber := lineNumber;
      this.index := index;
      this.lastCommitDate := match lastCommitDate case Some(d) => d case None => "";
    }

    /** `lastCommitDate || ''`: a string in every case, '' when unset. */
    function GetLastCommitDate(): (d: string)
      reads this
      ensures lastCommitDate == "" ==> d == ""
      ensures lastCommitDate != "" ==> d == lastCommitDate
    {
      if lastCommitDate != "" then lastCommitDate else ""
    }

    /** Looks up the commit date of the comment's first line (1-based) unless a date
        is already set; a missing or failed lookup stores ''. The lookup itself is the
        parameter `blame`, applied to the file path and line number. */
    method SetLastCommitDate(filePath: string, blame: Blame)
      modifies this
      ensures Info() == Dated(old(Info()), filePath, blame)
      ensures old(lastCommitDate) != "" ==> Info() == old(Info())
      ensures old(lastCommitDate) == "" ==>
                Info() == old(Info()).(lastCommitDate := DateOrEmpty(blame(filePath, old(lineNumber).0 + 1)))
    {
      if lastCommitDate != "" {
        return;
      }
      var date := blame(filePath, lineNumber.0 + 1);
      lastCommitDate := DateOrEmpty(date);
    }

    method SetId(id: int)
      modifies this
      ensures Info() == old(Info()).(id := id)
    {
      this.id := id;
    }

    method SetLanguage(language: string)
      modifies this
      ensures Info() == old(Info()).(language := language)
    {
      this.language := language;
    }

    /** `setConetent` in the source. */
    method SetContent(content: string)
      modifies this
      ensures Info() == old(Info()).(content := content)
    {
      this.content := content;
    }

    method SetClassName(className: string)
      modifies this
      ensures Info() == old(Info()).(className := className)
    {
      this.className := className;
    }

    method SetRelativePath(relativePath: string)
      modifies this
      ensures Info() == old(Info()).(relativePath := relativePath)
    {
      this.relativePath := relativePath;
    }

    method SetLevel(level: string)
      modifies this
      ensures Info() == old(Info()).(level := level)
    {
      this.level := level;
    }

    method SetType(types: seq<string>)
      modifies this
      ensures Info() == old(Info()).(types := types)
    {
      this.types := types;
    }

    method SetLineNumber(lineNumber: (int, int))
      modifies this
      ensures Info() == old(Info()).(lineNumber := lineNumber)
    {
      this.lineNumber := lineNumber;
    }

    method SetIndex(index: (int, int))
      modifies this
      ensures Info() == old(Info()).(index := index)
    {
      this.index := index;
    }
  }
}
