/**
  The pure helpers of src/extension.ts: the tag choices of a language (getCommentTypes),
  the comment-line test (isCommentLine), and what the change-type-at-cursor command
  computes before it asks the user: the tags of the comment under the cursor and the
  language of the edited file.
*/
module Extension {
  import opened Wrappers
  import opened Text
  import opened Comments
  import opened FileUtils
  import Reconcile
  import Color

  // ---------------------------------------------------------------- getCommentTypes

  /** The tag tables: each tag with the codicon shown beside it, in declaration order. */
  const JavaTypes: seq<(string, string)> := [
    ("summary", "symbol-class"), ("ownership", "symbol-field"), ("expand", "symbol-constant"),
    ("usage", "symbol-variable"), ("pointer", "symbol-key"), ("deprecation", "warning"),
    ("rational", "symbol-enum")]

  const PythonTypes: seq<(string, string)> := [
    ("usage", "symbol-variable"), ("parameters", "symbol-key"), ("developmentNotes", "info"),
    ("expand", "symbol-constant"), ("summary", "symbol-class")]

  const PharoTypes: seq<(string, string)> := [
    ("key implementation points", "symbol-enum"), ("example", "symbol-field"),
    ("responsibilities", "symbol-class"), ("class references", "symbol-key"),
    ("intent", "symbol-class"), ("key messages", "warning"), ("collaborators", "info")]

  /** The table of a language already lower-cased; none for any other language. */
  function TypeTable(language: string): Option<seq<(string, string)>> {
    if language == "java" then Some(JavaTypes)
    else if language == "python" then Some(PythonTypes)
    else if language == "pharo" then Some(PharoTypes)
    else None
  }

  /** One choice of the picker. */
  datatype CommentType = CommentType(caption: string, value: string)

  /** `value.charAt(0).toUpperCase() + value.slice(1)`. */
  function Capitalized(s: string): (r: string)
    ensures |r| == |s|
  {
    if s == [] then "" else [UpperChar(s[0])] + s[1..]
  }

  /** The codicon prefix of a label, `$(icon) `. */
  function IconPrefix(icon: string): string {
    "$(" + icon + ") "
  }

  /** The choice for a table entry: the capitalised tag behind its codicon, and the tag
      lower-cased as the value. */
  function Choice(entry: (string, string)): CommentType {
    CommentType(IconPrefix(entry.1) + Capitalized(entry.0), Lower(entry.0))
  }

  /** getCommentTypes: the language is matched case-insensitively; the choices follow the
      table's order, and an unknown language has none. */
  function GetCommentTypes(language: string): (r: seq<CommentType>)
    ensures TypeTable(Lower(language)).None? ==> r == []
    ensures TypeTable(Lower(language)).Some? ==> |r| == |TypeTable(Lower(language)).value|
  {
    match TypeTable(Lower(language))
    case None => []
    case Some(table) => seq(|table|, k requires 0 <= k < |table| => Choice(table[k]))
  }

  /** Seven choices for Java, five for Python, seven for Pharo, none for the rest. */
  lemma CommentTypesCount(language: string)
    ensures Lower(language) == "java" ==> |GetCommentTypes(language)| == 7
    ensures Lower(language) == "python" ==> |GetCommentTypes(language)| == 5
    ensures Lower(language) == "pharo" ==> |GetCommentTypes(language)| == 7
    ensures Lower(language) != "java" && Lower(language) != "python" && Lower(language) != "pharo"
            ==> GetCommentTypes(language) == []
  {
  }

  lemma LowerOfUpperChar(c: char)
    ensures LowerChar(UpperChar(c)) == LowerChar(c)
  {
  }

  /** Lower-casing forgets any upper-casing done before. */
  lemma LowerOfUpper(s: string)
    ensures Lower(Upper(s)) == Lower(s)
  {
    forall k | 0 <= k < |s| ensures Lower(Upper(s))[k] == Lower(s)[k] {
      LowerOfUpperChar(s[k]);
    }
  }

  /** The choices do not depend on the case of the language: "JAVA", "Java" and "java"
      give the same list. */
  lemma CommentTypesIgnoreCase(language: string)
    ensures GetCommentTypes(Upper(language)) == GetCommentTypes(language)
    ensures GetCommentTypes(Lower(language)) == GetCommentTypes(language)
  {
    LowerOfUpper(language);
    LowerIdempotent(language);
  }

  lemma LowerIdempotent(s: string)
    ensures Lower(Lower(s)) == Lower(s)
  {
    forall k | 0 <= k < |s| ensures Lower(Lower(s))[k] == Lower(s)[k] {
    }
  }

  /** What a choice shows after its codicon is, up to case, the value it stands for. */
  lemma ChoiceShowsValue(entry: (string, string))
    ensures StartsWith(Choice(entry).caption, IconPrefix(entry.1))
    ensures Lower(Choice(entry).caption[|IconPrefix(entry.1)|..]) == Choice(entry).value
  {
    var p := IconPrefix(entry.1);
    var shown := Choice(entry).caption[|p|..];
    assert shown == Capitalized(entry.0);
    assert Choice(entry).caption[..|p|] == p;
    forall k | 0 <= k < |entry.0| ensures Lower(shown)[k] == Lower(entry.0)[k] {
      if k == 0 {
        LowerOfUpperChar(entry.0[0]);
      }
    }
  }

  /** Every choice of a known language shows its value behind the codicon of its entry. */
  lemma CommentTypesShowValues(language: string, k: nat)
    requires k < |GetCommentTypes(language)|
    ensures TypeTable(Lower(language)).Some?
    ensures var entry := TypeTable(Lower(language)).value[k];
            GetCommentTypes(language)[k] == Choice(entry)
            && Lower(GetCommentTypes(language)[k].caption[|IconPrefix(entry.1)|..]) == GetCommentTypes(language)[k].value
  {
    ChoiceShowsValue(TypeTable(Lower(language)).value[k]);
  }

  /** A tag already in lower case is its own value. */
  lemma LowerOfLowercase(s: string)
    requires forall k :: 0 <= k < |s| ==> !('A' <= s[k] <= 'Z')
    ensures Lower(s) == s
  {
  }

  /** The values the picker offers for Java are tags the Java colour table knows. */
  lemma JavaValuesAreColorTags()
    ensures forall k :: 0 <= k < |JavaTypes| ==> Lower(JavaTypes[k].0) in Color.JavaColor
  {
    forall k | 0 <= k < |JavaTypes| ensures Lower(JavaTypes[k].0) in Color.JavaColor {
      LowerOfLowercase(JavaTypes[k].0);
    }
  }

  /** The values the picker offers for Pharo are tags the Pharo colour table knows. */
  lemma PharoValuesAreColorTags()
    ensures forall k :: 0 <= k < |PharoTypes| ==> Lower(PharoTypes[k].0) in Color.PharoColor
  {
    forall k | 0 <= k < |PharoTypes| ensures Lower(PharoTypes[k].0) in Color.PharoColor {
      LowerOfLowercase(PharoTypes[k].0);
    }
  }

  /** All Python values but one are tags the Python colour table knows: the choice
      "developmentNotes" yields "developmentnotes", while the colour table says
      "development notes". */
  lemma PythonValuesAndColorTags()
    ensures forall k :: 0 <= k < |PythonTypes| && k != 2 ==> Lower(PythonTypes[k].0) in Color.PythonColor
    ensures Lower(PythonTypes[2].0) == "developmentnotes" && "developmentnotes" !in Color.PythonColor
  {
    forall k | 0 <= k < |PythonTypes| && k != 2 ensures Lower(PythonTypes[k].0) in Color.PythonColor {
      LowerOfLowercase(PythonTypes[k].0);
    }
    DevelopmentNotesValue();
  }

  lemma DevelopmentNotesValue()
    ensures Lower(PythonTypes[2].0) == "developmentnotes"
  {
    var d := PythonTypes[2].0;
    assert d == "developmentNotes";
    forall k | 0 <= k < |d| ensures Lower(d)[k] == "developmentnotes"[k] {
    }
  }

  // ---------------------------------------------------------------- isCommentLine

  /** isCommentLine: the trimmed line opens a comment of the language — a line comment or
      a block comment opener in Java, `#` or `"""` in Python, and in Pharo it both starts and ends with a quote. */
  function IsCommentLine(text: string, languageId: string): (r: bool)
    ensures r ==> Trim(text) != []
    ensures languageId != "java" && languageId != "python" && languageId != "pharo" ==> !r
  {
    var trimmed := Trim(text);
    if languageId == "java" then StartsWith(trimmed, "//") || StartsWith(trimmed, "/*")
    else if languageId == "python" then StartsWith(trimmed, "#") || StartsWith(trimmed, "\"\"\"")
    else if languageId == "pharo" then StartsWith(trimmed, "\"") && EndsWith(trimmed, "\"")
    else false
  }

  /** Whitespace before the first character goes unseen by trimStart. */
  lemma {:induction false} TrimStartBlankPrefix(indent: string, text: string)
    requires Blank(indent)
    ensures TrimStart(indent + text) == TrimStart(text)
    decreases |indent|
  {
    if indent != [] {
      assert (indent + text)[1..] == indent[1..] + text;
      assert Blank(indent[1..]) by {
        forall k | 0 <= k < |indent[1..]| ensures IsSpace(indent[1..][k]) {
          assert indent[1..][k] == indent[k + 1];
        }
      }
      TrimStartBlankPrefix(indent[1..], text);
      assert IsSpace((indent + text)[0]) by {
        assert (indent + text)[0] == indent[0];
      }
      TrimStartDropFirst(indent + text);
    } else {
      assert indent + text == text;
    }
  }

  /** The test does not depend on the line's indentation. */
  lemma IsCommentLineIgnoresIndent(indent: string, text: string, languageId: string)
    requires Blank(indent)
    ensures IsCommentLine(indent + text, languageId) == IsCommentLine(text, languageId)
  {
    TrimStartBlankPrefix(indent, text);
    assert Trim(indent + text) == Trim(text);
  }

  // ---------------------------------------------------------------- the comment under the cursor

  /** Among the first `n` comments, the last whose rows hold the line, or -1. */
  function LastHolding(comments: seq<CommentInfo>, line: int, n: nat): (r: int)
    requires n <= |comments|
    ensures r == -1 || (0 <= r < n && Holds(comments[r], line))
    ensures r == -1 <==> forall k :: 0 <= k < n ==> !Holds(comments[k], line)
    ensures r != -1 ==> forall k :: r < k < n ==> !Holds(comments[k], line)
    decreases n
  {
    if n == 0 then -1
    else if Holds(comments[n - 1], line) then n - 1
    else LastHolding(comments, line, n - 1)
  }

  /** The tags the picker starts from: those of the last comment of the file holding the
      cursor line, none when the file has no entry or no comment holds the line. */
  function ExistingTypes(data: CommentsData, filePath: string, line: int): (r: seq<string>)
    ensures EntryOf(data, filePath, 0) == -1 ==> r == []
    ensures EntryOf(data, filePath, 0) != -1
            && (forall k :: 0 <= k < |data[EntryOf(data, filePath, 0)].1| ==> !Holds(data[EntryOf(data, filePath, 0)].1[k], line))
            ==> r == []
    ensures r != [] ==>
              (EntryOf(data, filePath, 0) != -1
               && exists k :: 0 <= k < |data[EntryOf(data, filePath, 0)].1|
                    && Holds(data[EntryOf(data, filePath, 0)].1[k], line) && data[EntryOf(data, filePath, 0)].1[k].types == r)
  {
    var i := EntryOf(data, filePath, 0);
    if i == -1 then []
    else
      var k := LastHolding(data[i].1, line, |data[i].1|);
      if k == -1 then [] else data[i].1[k].types
  }

  /** The `forEach` of changeTypeAtCursor: each comment holding the line overwrites the
      tags found so far. */
  method LookupExistingTypes(data: CommentsData, filePath: string, line: int) returns (existingTypes: seq<string>)
    ensures existingTypes == ExistingTypes(data, filePath, line)
  {
    existingTypes := [];
    var i := EntryOf(data, filePath, 0);
    if i != -1 {
      var comments := data[i].1;
      for j := 0 to |comments|
        invariant var k := LastHolding(comments, line, j);
                  existingTypes == if k == -1 then [] else comments[k].types
      {
        if Holds(comments[j], line) {
          existingTypes := comments[j].types;
        }
      }
    }
  }

  /** When a single comment of the file holds the cursor line, the tags the picker starts
      from are those of the comment that updateCommentTypeInFile then rewrites. */
  lemma LookupMatchesUpdate(comments: seq<CommentInfo>, line: int)
    requires forall a, b :: 0 <= a < b < |comments| ==> !(Holds(comments[a], line) && Holds(comments[b], line))
    ensures LastHolding(comments, line, |comments|) == FindHolding(comments, line, 0)
  {
  }

  /** With two comments holding the line, the picker starts from the tags of the last one
      while the update rewrites the first. */
  lemma LookupAndUpdateDisagreeOnOverlap()
    ensures var a := CommentInfo(1, "java", "a", "", "", "", ["summary"], (1, 5), (0, 0), "");
            var b := CommentInfo(2, "java", "b", "", "", "", ["usage"], (3, 4), (0, 0), "");
            LastHolding([a, b], 3, 2) == 1 && FindHolding([a, b], 3, 0) == 0
  {
  }

  // ---------------------------------------------------------------- language of the edited file

  /** The language the command derives from the file name, as written: the name must end
      in "java", "python" or "st", so a Python file ("….py") gets no language. */
  function EditorLanguageAsWritten(fileName: string): (r: string)
    ensures r == "" <==> !EndsWith(fileName, "java") && !EndsWith(fileName, "python") && !EndsWith(fileName, "st")
  {
    if EndsWith(fileName, "java") then "java"
    else if EndsWith(fileName, "python") then "python"
    else if EndsWith(fileName, "st") then "pharo"
    else ""
  }

  /** A Python source file gets no language, hence no choices in the picker. */
  lemma PythonFileGetsNoChoices(stem: string)
    ensures EditorLanguageAsWritten(stem + ".py") == ""
    ensures GetCommentTypes(EditorLanguageAsWritten(stem + ".py")) == []
  {
    var p := stem + ".py";
    assert p[|p| - 3..] == ".py";
    Reconcile.EndsWithLast(p, ".py");
    if EndsWith(p, "java") { Reconcile.EndsWithLast(p, "java"); }
    if EndsWith(p, "python") { Reconcile.EndsWithLast(p, "python"); }
    if EndsWith(p, "st") { Reconcile.EndsWithLast(p, "st"); }
    assert Lower("") == "";
  }

  /** The language of the edited file by its extension, as getLanguageByFilename gives it;
      no language for any other file. */
  function EditorLanguage(fileName: string): (r: string)
    ensures r == "" <==> Reconcile.GetLanguageByFilename(fileName).Failure?
  {
    match Reconcile.GetLanguageByFilename(fileName)
    case Success(language) => language
    case Failure(_) => ""
  }

  /** Java, Python and Pharo files each get their own choices. */
  lemma EditorLanguageChoices(stem: string)
    ensures |GetCommentTypes(EditorLanguage(stem + ".java"))| == 7
    ensures |GetCommentTypes(EditorLanguage(stem + ".py"))| == 5
    ensures |GetCommentTypes(EditorLanguage(stem + ".st"))| == 7
  {
    Reconcile.LanguageOfSuffix(stem);
    LowerOfLowercase("java");
    LowerOfLowercase("python");
    LowerOfLowercase("pharo");
  }

  /** One item of the picker: the choice, and whether it starts selected. */
  datatype PickItem = PickItem(caption: string, description: string, picked: bool)

  /** The items the command offers for the file under the cursor: the choices of the file's
      language, each selected when the comment under the cursor already has that tag. */
  function CursorPickItems(data: CommentsData, filePath: string, line: int): (r: seq<PickItem>)
    ensures |r| == |GetCommentTypes(EditorLanguage(filePath))|
    ensures forall k :: 0 <= k < |r| ==>
              r[k].caption == GetCommentTypes(EditorLanguage(filePath))[k].caption
              && r[k].description == GetCommentTypes(EditorLanguage(filePath))[k].value
              && (r[k].picked <==> r[k].description in ExistingTypes(data, filePath, line))
  {
    var choices := GetCommentTypes(EditorLanguage(filePath));
    var existing := ExistingTypes(data, filePath, line);
    seq(|choices|, k requires 0 <= k < |choices| =>
      PickItem(choices[k].caption, choices[k].value, choices[k].value in existing))
  }
}
