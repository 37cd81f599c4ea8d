# ClassiCode comment pipeline in Dafny

ClassiCode is a VS Code extension that classifies source-code comments (Java, Python and
Pharo) by the kind of information they carry. This project models the core of its
TypeScript implementation and proves properties of the model:

- **Extraction** (`src/extract_comments.ts`):
  - cleaning of comment markers;
  - splitting of a comment into paragraphs, where Java also splits on HTML tag lines;
  - line offsets and the column of a global index;
  - placing each paragraph back in the file;
  - the comment level (class, method, inline, module) and the enclosing class, decided over a syntax tree;
  - the regular-expression fallback, modelled as hand-written scanners;
  - the routing between the grammar and the fallback;
  - the language by file extension;
  - content normalisation;
  - the id numbering and commit dating done by `processFile`.
- **Comment records** (`src/entity/Comment.ts`): the `CommentInfo` record, and the `Comment` class whose setters change one field in place.
- **Reclassification** (`src/utils.ts`): the language of a file name, and the separation of a new extraction into comments whose text was already classified and comments to send back to the classifier.
- **Store updates** (`src/utils/fileUtils.ts`): the update of a comment by id, and the update of the tags of the comment covering an editor line. Both work on the parsed store.
- **Presentation** (`src/ui/color.ts`, `src/entity/CommentNode.ts`, `src/extension.ts`):
  - the colour and emoji tables;
  - the label of a comment in the tree view (icons, abbreviation, preview);
  - the context values of the tree nodes;
  - the choices of the tag picker;
  - the comment-line test;
  - what the change-type-at-cursor command computes before it asks the user.

Modules follow the source files:

- `Text` holds the JavaScript string primitives the code relies on: `trim`, `split('\n')`/`join`, `indexOf`, `startsWith` and `endsWith`.
- `Cleaner`, `Segmenter`, `Offsets`, `Position`, `SyntaxTree`, `RegexFallback` and `Extract` cover `extract_comments.ts`.
- `Comments` covers `Comment.ts`.
- `Reconcile` covers `utils.ts`.
- `FileUtils` covers `fileUtils.ts`.
- `Color` covers `color.ts`.
- `CommentNodes` covers `CommentNode.ts`.
- `Extension` covers `extension.ts`.

Every loop of the source is a method proved equal to a specification function. Examples are `BuildLineOffsets`, `SplitIntoParagraphs`, `CalculateParagraphPosition`, `FallbackToRegexComments`, `ProcessFile`, `SeparateCommentsByContent`, `UpdateCommentInJson`, `GetIconForType`, `BuildAbbreviation` and `LookupExistingTypes`. The properties of the source are then proved about those functions.

Some inputs come from outside the core:

- The syntax tree and query captures come from the tree-sitter parser. They are given to the model as a parse outcome: a tree stored as an array of nodes with parent and sibling links, plus captures, or a grammar failure.
- The `git blame` lookup of a comment's commit date is a function parameter.
- The parsed JSON store is a sequence of (file path, comments) entries, in the order `for..in` visits its keys.

## Model

| member | source | states |
|---|---|---|
| Cleaner.CleanCommentMarkers | src/extract_comments.ts:158-198 | the cleaned text is trimmed; a language other than java, python or pharo gives the trimmed text |
| Cleaner.StripBlockOpening | src/extract_comments.ts:166 | removing the block opener from the first line keeps a suffix of the line |
| Cleaner.StripBlockClosing | src/extract_comments.ts:170 | removing the block closer from the last line keeps a prefix of the line |
| Cleaner.StripLeadingStar | src/extract_comments.ts:173 | removing the leading star of a middle line keeps a suffix of the line |
| Cleaner.StripLineMarker | src/extract_comments.ts:176 | removing the line-comment marker keeps a suffix of the line |
| Cleaner.JavaBlockLines | src/extract_comments.ts:165-173 | block cleaning keeps one line per line, the first and last treated for the opener and closer |
| Cleaner.LineMarkerLines | src/extract_comments.ts:190 | marker cleaning keeps one line per line, each with its marker removed |
| Cleaner.JavaLines | src/extract_comments.ts:160-177 | Java cleaning keeps as many lines as the comment has, none holding a line feed |
| Cleaner.StrippersKeepLine | src/extract_comments.ts:166-176 | no stripping step introduces a line feed |
| Cleaner.JavaCleaningKeepsLineCount | src/extract_comments.ts:159-179 | Java cleaning never adds lines |
| Cleaner.PharoCleaning | src/extract_comments.ts:193-195 | Pharo cleaning drops one opening and one closing quote with their inner whitespace, then trims |
| Cleaner.PharoCommentBody | src/extract_comments.ts:195 | a quoted Pharo comment cleans to its trimmed body |
| Cleaner.StripQuotedBody | src/extract_comments.ts:195 | stripping the quotes of `"m"` leaves the trimmed `m` |
| Cleaner.JavaLineCommentBody | src/extract_comments.ts:174-179 | a one-line `//` comment cleans to its trimmed body |
| Cleaner.PythonLineCommentBody | src/extract_comments.ts:188-191 | a one-line `#` comment cleans to its trimmed body |
| Cleaner.NotBlockOpening | src/extract_comments.ts:163 | a `//` comment never takes the block branch |
| Cleaner.NotDocstring | src/extract_comments.ts:184 | a `#` comment never takes the docstring branch |
| Cleaner.MarkerStripped | src/extract_comments.ts:176 | a line starting with its marker loses exactly the marker and one optional space |
| Cleaner.OneLineCleaning | src/extract_comments.ts:158-192 | a one-line Java or Python line comment cleans to its marker-stripped line, trimmed |
| Cleaner.DropOneSpaceTrim | src/extract_comments.ts:176 | the optional space after the marker makes no difference once trimmed |
| Cleaner.BlockOpeningStripped | src/extract_comments.ts:166 | on a first line of blanks, `/`, one or more stars and a rest not starting with a star, exactly those and the blanks after them come off |
| Cleaner.BlockClosingStripped | src/extract_comments.ts:170 | on a last line of a body not ending in a star, one or more stars, `/` and blanks, exactly the closer and the blanks before it come off |
| Cleaner.LeadingStarStripped | src/extract_comments.ts:173 | on a line of blanks, a star and a rest, exactly the blanks, the star and one following whitespace character come off |
| Cleaner.JavaBlockCommentBody | src/extract_comments.ts:159-179 | a one-line `/*m*/` cleans to the trimmed `m`, for a non-empty `m` whose trimmed text neither starts nor ends with a star (the `\*+` of the patterns would take those too) |
| Cleaner.EmptyBlockCommentLeavesSlash | src/extract_comments.ts:163-179 | `/**/` cleans to `/`: the opener's `\*+` takes both stars, so the closer no longer matches |
| Cleaner.PythonDocstringBody | src/extract_comments.ts:184-187 | a docstring `"""m"""` cleans to the trimmed `m`, for every `m` |
| Segmenter.IsHtmlTagLine | src/extract_comments.ts:201-205 | a tag line, trimmed, has at least three characters, starts with `<` and ends with `>` |
| Segmenter.TagIsTagShape | src/extract_comments.ts:201-205 | every opening or closing tag whose name starts with a letter and holds no `>` is an HTML tag line |
| Segmenter.TagShapeIsTag | src/extract_comments.ts:204 | every HTML tag line is such a tag: the converse |
| Segmenter.TagWithTextIsNoTagLine | src/extract_comments.ts:204 | a tag line with text, `<p>Returns</p>`, is not an HTML tag line |
| Segmenter.ActionOfLine | src/extract_comments.ts:213-241 | Java closes the paragraph on a blank or tag line; Python and Pharo on a blank line; other lines join; other languages drop every line |
| Segmenter.Flush | src/extract_comments.ts:222-226 | closing a non-empty paragraph appends its joined, trimmed lines; closing an empty one changes nothing |
| Segmenter.NonEmpty | src/extract_comments.ts:252 | filtering keeps only non-empty paragraphs of the list, and keeps a list without empty ones as it is |
| Segmenter.Paragraphs | src/extract_comments.ts:208-254 | no paragraph is empty |
| Segmenter.SplitIntoParagraphs | src/extract_comments.ts:208-254 | the loop computes the paragraphs of the specification |
| Segmenter.ParagraphsAreTrimmed | src/extract_comments.ts:208-254 | every paragraph is non-empty and trimmed |
| Segmenter.ParagraphsHoldNoBoundary | src/extract_comments.ts:208-254 | no line of a paragraph is a boundary line of the language |
| Segmenter.UnknownLanguageHasNoParagraphs | src/extract_comments.ts:213-254 | a language other than java, python or pharo yields no paragraph |
| Segmenter.SeparatedBodiesRoundTrip | src/extract_comments.ts:208-254 | bodies of non-boundary lines joined with blank lines between them split back into the bodies, each joined and trimmed |
| Segmenter.ScanAppend | src/extract_comments.ts:213-242 | scanning two runs of lines is scanning the first and then the second |
| Offsets.LineStarts | src/extract_comments.ts:123-135 | the first line starts at offset 0 |
| Offsets.BuildLineOffsets | src/extract_comments.ts:123-135 | the loop computes the line starts |
| Offsets.LineStartsIncrease | src/extract_comments.ts:123-135 | line starts begin at 0, increase strictly and never pass the end of the text |
| Offsets.LineStartsCount | src/extract_comments.ts:123-135 | there is one line start more than there are line feeds |
| Offsets.LineStartsFollowLineFeeds | src/extract_comments.ts:126-130 | every line start but the first comes just after a line feed |
| Offsets.LineFeedsStartLines | src/extract_comments.ts:126-130 | the position after every line feed is a line start |
| Offsets.FindLine | src/extract_comments.ts:138-141 | `findIndex`: the first line whose start is at or before the index and whose next start is after it |
| Offsets.GlobalToPosition | src/extract_comments.ts:137-144 | the index minus the column is a line start; the column is not negative once the index is at or past the first line start |
| Offsets.GlobalToPositionIsFromLastStart | src/extract_comments.ts:137-144 | the column is measured from the last line start at or before the index |
| Offsets.ColumnOfPosition | src/extract_comments.ts:137-144 | the column counts back to the previous line feed, or to the start of the file |
| Position.PositionOf | src/extract_comments.ts:257-359 | rows and columns are never negative, and the end row never passes the comment's last row |
| Position.Place | src/extract_comments.ts:324-358 | the placement's rows and columns are never negative, and its end row never passes the comment's last row |
| Position.StartColumn | src/extract_comments.ts:329-342 | the start column is the comment's start column, or a column of an existing row where the paragraph's first line occurs |
| Position.EndColumn | src/extract_comments.ts:344-353 | the end column is the fallback, or lies just past an occurrence of the paragraph's last line on an existing row |
| Position.CalculateParagraphPosition | src/extract_comments.ts:257-359 | the method computes the position of the specification |
| Position.FindRowsInComment | src/extract_comments.ts:275-322 | the rows of the paragraph in the cleaned comment: exact match, else first-line match, else the default |
| Position.ExactMatchRow | src/extract_comments.ts:279-302 | the first row where the paragraph's first line and all following lines match |
| Position.IsExactRow | src/extract_comments.ts:280-301 | whether a row is an exact match |
| Position.AllFollowingMatch | src/extract_comments.ts:286-294 | the inner loop checks each following line until the first mismatch |
| Position.SecondTierRow | src/extract_comments.ts:305-316 | the first row holding the paragraph's trimmed first line, when that line is not empty |
| Position.HoldingRow | src/extract_comments.ts:308-314 | the first row containing a text |
| Position.FirstTrueIsFirst | src/extract_comments.ts:279-314 | the row a search returns satisfies its test and no earlier row does; -1 means none does |
| Position.RowsInComment | src/extract_comments.ts:275-322 | the rows found are ordered, start at 0 or within the comment |
| Position.PlaceParagraph | src/extract_comments.ts:324-358 | the method computes the placement of the specification: file rows offset from the comment's start row, columns found on those rows, all clamped at 0 |
| Position.StartCharIndex | src/extract_comments.ts:329-342 | the method computes the start column of the specification: where the paragraph's trimmed first line occurs on its row, else the comment's start column |
| Position.EndCharIndex | src/extract_comments.ts:344-353 | the method computes the end column of the specification: just past where the paragraph's trimmed last line occurs on its row, else the fallback |
| Position.StartColumnFoundOrFallBack | src/extract_comments.ts:333-342 | the start column is the first occurrence of the first paragraph line on its row, else the comment's start column |
| Position.EndColumnFoundOrFallBack | src/extract_comments.ts:344-353 | the end column is just past the first occurrence of the last paragraph line on its row, else the fallback |
| Position.PositionBounds | src/extract_comments.ts:355-358 | rows and columns are never negative, and the end row never passes the comment's last row |
| Position.RowsInsideComment | src/extract_comments.ts:324-326 | the paragraph's rows lie within the comment's rows when the comment's lines match its rows |
| Position.Positions | src/extract_comments.ts:392-400 | one position per paragraph |
| SyntaxTree.Ancestry | src/extract_comments.ts:44-53 | the parent chain starts at the node and climbs to lower indices |
| SyntaxTree.NearestOfKinds | src/extract_comments.ts:44-53 | what is found is the node or above it, and has one of the kinds |
| SyntaxTree.FindNearestParentOfTypes | src/extract_comments.ts:44-53 | the loop returns the nearest node of the kinds on the chain from the node up |
| SyntaxTree.NearestNoneIff | src/extract_comments.ts:44-53 | nothing is found exactly when no node on the chain has one of the kinds |
| SyntaxTree.NearestIsFirstOnAncestry | src/extract_comments.ts:44-53 | what is found is on the chain, and no node before it there has one of the kinds |
| SyntaxTree.NearestClass | src/extract_comments.ts:112-121 | a class found is a class declaration strictly above the node |
| SyntaxTree.FindNearestClass | src/extract_comments.ts:112-121 | the loop returns the nearest class declaration strictly above the node |
| SyntaxTree.NearestClassIsClosestAbove | src/extract_comments.ts:112-121 | no class is found exactly when none is above; a class found is the first above on the chain |
| SyntaxTree.ClassSearchFromParent | src/extract_comments.ts:113-119 | the search starts at the parent: the node itself is never its own class |
| SyntaxTree.ExtractClassName | src/extract_comments.ts:146-155 | the name field for Java and Python, empty otherwise or when there is no name |
| SyntaxTree.ClassNameOf | src/extract_comments.ts:378-379 | no enclosing class gives an empty class name |
| SyntaxTree.SkipComments | src/extract_comments.ts:102-105 | skipping preceding comment siblings stops at a sibling that is not a comment |
| SyntaxTree.SkipCommentsNoneIff | src/extract_comments.ts:102-106 | the skip runs off the start exactly when every preceding sibling is a comment |
| SyntaxTree.Level | src/extract_comments.ts:55-110 | a level other than inline goes only to a Java block comment or a Python string |
| SyntaxTree.DetermineCommentLevel | src/extract_comments.ts:55-110 | the method computes the level of the specification |
| SyntaxTree.InlineUnlessDocumentation | src/extract_comments.ts:55-110 | only Java block comments and Python strings get a level other than inline; only Python strings are module level |
| SyntaxTree.JavaBlockByEnclosing | src/extract_comments.ts:57-68 | a Java block comment inside a method or class takes the level of the nearest one |
| SyntaxTree.JavaBlockByNextSibling | src/extract_comments.ts:70-76 | outside any, the next sibling's kind decides, and otherwise the comment is inline |
| SyntaxTree.PythonDocstringLevel | src/extract_comments.ts:83-87 | a string three levels below a function or class definition is a method or class docstring |
| SyntaxTree.PythonStringByEnclosing | src/extract_comments.ts:89-99 | a Python string that is no definition's docstring but lies inside a definition takes the level of the nearest one: class for a class, method for a function |
| SyntaxTree.PythonModuleLevel | src/extract_comments.ts:89-106 | outside definitions, a string is module level exactly when only comments precede it, and inline otherwise |
| RegexFallback.LineEnd | src/extract_comments.ts:467 | `.*` stops at the first line terminator or the end |
| RegexFallback.JavaMatchAt | src/extract_comments.ts:467 | a Java match at a position: a block comment up to the first closer, or a line comment to the line end |
| RegexFallback.PythonMatchAt | src/extract_comments.ts:470 | a Python match: a `#` comment to the line end, or a triple-quoted string up to the first closing triple quote of the same kind |
| RegexFallback.PharoMatchAt | src/extract_comments.ts:473 | a Pharo match: a quote up to the next quote |
| RegexFallback.MatchAt | src/extract_comments.ts:465-474 | a match at a position is non-empty and ends within the text |
| RegexFallback.NextMatch | src/extract_comments.ts:479 | the next match starts at or after the search position and is a match there |
| RegexFallback.NextMatchIsLeftmost | src/extract_comments.ts:479 | no match starts between the search position and the match found |
| RegexFallback.LineStartOffsets | src/extract_comments.ts:454-461 | one start more than there are lines, the first at 0 |
| RegexFallback.BuildLineStartOffsets | src/extract_comments.ts:454-461 | the loop computes the line start table |
| RegexFallback.LineStartOffsetsStep | src/extract_comments.ts:458-460 | each start is the previous start plus the line's length plus one |
| RegexFallback.RowInTable | src/extract_comments.ts:485-490 | the row of any index is a row of the table |
| RegexFallback.MatchRows | src/extract_comments.ts:485-486 | the rows of a match are ordered and non-negative |
| RegexFallback.MatchParagraphs | src/extract_comments.ts:493-494 | the paragraphs of a match are non-empty and trimmed |
| RegexFallback.Records | src/extract_comments.ts:497-509 | one record per paragraph, each the fallback record of that paragraph |
| RegexFallback.MatchRecords | src/extract_comments.ts:480-509 | every record of a match is a fallback record carrying the match's rows |
| RegexFallback.Fallback | src/extract_comments.ts:450-519 | another language yields no record |
| RegexFallback.FallbackToRegexComments | src/extract_comments.ts:450-519 | the loop computes the records of the specification |
| RegexFallback.MatchRecordsOf | src/extract_comments.ts:480-509 | one iteration computes the records of one match |
| RegexFallback.PlaceMatch | src/extract_comments.ts:481-490 | the rows and columns of a match |
| RegexFallback.FallbackRecordsShape | src/extract_comments.ts:450-519 | every fallback record has id 0, the language, no class and no path, inline level, tag `[""]`, trimmed non-empty content and ordered rows |
| RegexFallback.UnknownLanguageGivesNothing | src/extract_comments.ts:476 | another language yields no record |
| RegexFallback.OneMatchSharesRows | src/extract_comments.ts:497-509 | all paragraphs of one match share the match's rows and columns |
| Extract.GrammarRecords | src/extract_comments.ts:361-417 | grammar records carry id 0, no relative path and no commit date: those are set later by the file loop |
| Extract.ProcessJavaOrPython | src/extract_comments.ts:361-424 | the capture loop computes the grammar records of the specification |
| Extract.GrammarRecordsSnoc | src/extract_comments.ts:375-415 | the records of one more capture are appended at the end |
| Extract.CaptureRecords | src/extract_comments.ts:375-415 | the records of one capture carry id 0, no relative path and no commit date |
| Extract.ParagraphRecords | src/extract_comments.ts:392-414 | one record per paragraph, each with id 0, no relative path and no commit date |
| Extract.CaptureComments | src/extract_comments.ts:375-415 | the records of one capture |
| Extract.PlaceParagraphs | src/extract_comments.ts:392-414 | the records of the paragraphs of one capture, in order |
| Extract.RecordParagraph | src/extract_comments.ts:393-413 | the record of one paragraph at its position |
| Extract.ExtractCommentsOf | src/extract_comments.ts:427-448 | another language gives no record; a Java or Python file within the size limit whose parse succeeded gives its grammar records |
| Extract.ExtractComments | src/extract_comments.ts:427-448 | the routing method computes the records of the specification |
| Extract.ExtractRouting | src/extract_comments.ts:427-448 | files over 1 MiB, Pharo and grammar failures go to the fallback; other languages give nothing |
| Extract.GrammarRecordsShape | src/extract_comments.ts:361-417 | every grammar record has id 0, the language, no path, tag `[""]`, a known level, trimmed non-empty content and non-negative positions |
| Extract.CaptureRecordsShape | src/extract_comments.ts:375-415 | the same for the records of one capture |
| Extract.PositionsNonNegative | src/extract_comments.ts:355-358 | every computed paragraph position is non-negative |
| Extract.NoJavaClassNoClassName | src/extract_comments.ts:378-379 | a tree without class declarations gives every comment an empty class name |
| Extract.ExtName | src/extract_comments.ts:609 | the extension is empty or starts with a dot and holds no separator |
| Extract.GetLanguageByExtension | src/extract_comments.ts:603-609 | a language found is python, java or pharo |
| Extract.ExtNameIsSuffix | src/extract_comments.ts:603-609 | a file has extension `.py`, `.java` or `.st` exactly when its base name ends with it and is longer |
| Extract.NormalizeContent | src/extract_comments.ts:521-531 | the normalised content holds no carriage return |
| Extract.NormalizeNewlines | src/extract_comments.ts:528 | no carriage return is left |
| Extract.NormalizeNewlinesIdempotent | src/extract_comments.ts:528 | normalising twice is normalising once |
| Extract.NormalizeCrLf | src/extract_comments.ts:528 | a CR LF pair becomes one line feed |
| Extract.NormalizeLoneCr | src/extract_comments.ts:528 | a lone CR becomes a line feed |
| Extract.NormalizePlain | src/extract_comments.ts:528 | text without carriage returns is unchanged |
| Extract.Numbered | src/extract_comments.ts:584-588 | record `k` gets id `firstId + k`, the relative path and, when it has none, the blame date of its first line; nothing else changes |
| Extract.NumberComments | src/extract_comments.ts:584-588 | the loop numbers and dates the records and returns the next free id |
| Extract.RelativePath | src/extract_comments.ts:574 | the path with the workspace root removed when it starts with it, unchanged when it does not contain it |
| Extract.FileEntry | src/extract_comments.ts:577-590 | a skipped file has no entry, any other exactly one |
| Extract.Numbering | src/extract_comments.ts:572-590 | every record of every entry carries the relative path of its file |
| Extract.ProcessFile | src/extract_comments.ts:564-601 | the file loop computes the numbering of the specification, ids from 0, each record dated by the blame lookup |
| Extract.ProcessOneFile | src/extract_comments.ts:573-593 | one pass of the file loop extends the numbering by that file and keeps the id one past the last record |
| Extract.Outcomes | src/extract_comments.ts:572-582 | one read-and-extract outcome per file |
| Extract.ReadAndExtract | src/extract_comments.ts:576-582 | reading and extracting one file gives the outcome the file loop's specification expects for it |
| Extract.NumberingIdsAreConsecutive | src/extract_comments.ts:570-588 | ids run from the first id in file and record order, with no gap or repeat |
| Extract.NumberingIdsDistinct | src/extract_comments.ts:585 | no two records share an id |
| Extract.NumberingEntriesFromFiles | src/extract_comments.ts:572-590 | every entry is some file's records, numbered and with that file's relative path |
| Extract.NumberingCoversFiles | src/extract_comments.ts:572-590 | every file that is not skipped has its entry |
| Extract.LastEntryNumbered | src/extract_comments.ts:590 | the last file's entry holds its records numbered and is in the store |
| Comments.Comment.constructor | src/entity/Comment.ts:41-63 | every field is set from its argument; a missing or empty commit date becomes empty |
| Comments.Comment.GetLastCommitDate | src/entity/Comment.ts:66-68 | the commit date, empty when unset |
| Comments.DateOrEmpty | src/entity/Comment.ts:73-79 | a found date is kept; no result or a failure gives the empty date |
| Comments.Dated | src/entity/Comment.ts:70-80 | only the commit date can change; a set date is kept, an unset one becomes the blame date of the first line or empty |
| Comments.DatedIdempotent | src/entity/Comment.ts:71 | dating twice is dating once |
| Comments.Comment.SetLastCommitDate | src/entity/Comment.ts:70-80 | a date already set is kept; otherwise the blame date of the first line, or empty on no result or a failure |
| Comments.Comment.SetId | src/entity/Comment.ts:102-104 | only the id changes |
| Comments.Comment.SetLanguage | src/entity/Comment.ts:110-112 | only the language changes |
| Comments.Comment.SetContent | src/entity/Comment.ts:118-120 | only the content changes |
| Comments.Comment.SetClassName | src/entity/Comment.ts:126-128 | only the class name changes |
| Comments.Comment.SetRelativePath | src/entity/Comment.ts:134-136 | only the relative path changes |
| Comments.Comment.SetLevel | src/entity/Comment.ts:142-144 | only the level changes |
| Comments.Comment.SetType | src/entity/Comment.ts:150-152 | only the tags change |
| Comments.Comment.SetLineNumber | src/entity/Comment.ts:158-160 | only the rows change |
| Comments.Comment.SetIndex | src/entity/Comment.ts:166-168 | only the columns change |
| Reconcile.GetLanguageByFilename | src/utils.ts:31-42 | success exactly for names ending in `.java`, `.py` or `.st`; otherwise the error "Error type of file" |
| Reconcile.LanguageOfSuffix | src/utils.ts:31-42 | each suffix gets its language whatever the stem |
| Reconcile.SeparateCommentsByContent | src/utils.ts:45-79 | the two loops compute the preserved and the to-reclassify lists of the specification |
| Reconcile.ClassificationOf | src/utils.ts:54-59 | every old comment's text is a key |
| Reconcile.Preserved | src/utils.ts:64-72 | no more comments than the new ones, each with a known text and that text's tags and level |
| Reconcile.ToReclassify | src/utils.ts:64-75 | no more comments than the new ones, each a new comment whose text is unknown |
| Reconcile.ClassificationKeys | src/utils.ts:54-59 | the map is keyed by exactly the old comments' texts |
| Reconcile.LastOldCommentWins | src/utils.ts:54-59 | for a text held by several old comments, the last one's tags and level are kept |
| Reconcile.PositionsSelect | src/utils.ts:64-76 | each list takes the new comments, in order, whose text is known or unknown |
| Reconcile.PositionsPartition | src/utils.ts:64-76 | every new comment goes to exactly one of the two lists |
| Reconcile.PreservedAtPositions | src/utils.ts:68-72 | a preserved comment is the new comment with the old tags and level and every other field its own |
| Reconcile.ToReclassifyAtPositions | src/utils.ts:73-75 | a comment to reclassify is the new comment unchanged |
| Reconcile.SeparationCounts | src/utils.ts:64-76 | the two lists together are as long as the new comments |
| Reconcile.SelfSeparation | src/utils.ts:45-79 | separating comments against themselves reclassifies none and preserves every one, each at its place with its text |
| Reconcile.AllKnown | src/utils.ts:64-76 | when every new text is known, nothing is reclassified and all are preserved in order |
| FileUtils.Merge | src/utils/fileUtils.ts:42 | every field given in the updates takes the update's value, every other field keeps its own |
| FileUtils.MergeNothing | src/utils/fileUtils.ts:42 | empty updates leave the comment as it is |
| FileUtils.MergeIdempotent | src/utils/fileUtils.ts:42 | merging the same updates twice is merging them once |
| FileUtils.FindIndexById | src/utils/fileUtils.ts:39 | `findIndex`: the first comment with the id, -1 when none |
| FileUtils.ReplaceComment | src/utils/fileUtils.ts:42 | one comment is replaced and nothing else changes |
| FileUtils.FirstFileWithId | src/utils/fileUtils.ts:37-46 | the first file in key order holding the id, -1 when none |
| FileUtils.UpdateById | src/utils/fileUtils.ts:32-53 | fails exactly when no file holds the id, with "Comment not found in JSON" |
| FileUtils.UpdateCommentInJson | src/utils/fileUtils.ts:37-48 | the loop computes the update of the specification |
| FileUtils.UpdateByIdChangesFirstOnly | src/utils/fileUtils.ts:37-45 | a successful update merges the updates into the first comment with the id and changes nothing else |
| FileUtils.Holds | src/utils/fileUtils.ts:66 | a comment holding a line has ordered rows |
| FileUtils.FindHolding | src/utils/fileUtils.ts:65-67 | `find`: the first comment whose rows hold the line, -1 when none |
| FileUtils.EntryOf | src/utils/fileUtils.ts:63 | the entry of the file, -1 when the store has none |
| FileUtils.UpdateTypeAtLine | src/utils/fileUtils.ts:55-83 | when nothing is written the store is unchanged |
| FileUtils.UpdateTypeAtLineSpec | src/utils/fileUtils.ts:63-79 | written exactly when the file has an entry and a comment holds the line; then only the first such comment's tags change |
| Color.GetColorForType | src/ui/color.ts:43-50 | the table's colour for a known (language, tag), gray `#C0C0C0` otherwise |
| Color.IconOf | src/ui/color.ts:90 | the icon of a tag is one character |
| Color.GetIconForType | src/ui/color.ts:81-93 | the loop appends the icon of each tag in order |
| Color.Icons | src/ui/color.ts:81-93 | one icon per tag |
| Color.IconsPerTag | src/ui/color.ts:88-92 | one icon per tag, the `k`-th being the `k`-th tag's; no tags, no icons |
| Color.TablesShareTags | src/ui/color.ts:15-79 | for every language the colour and emoji tables know the same tags |
| Color.JavaTablesAgree | src/ui/color.ts:15-61 | every Java emoji is the circle of its tag's colour |
| Color.PythonTablesAgree | src/ui/color.ts:24-69 | every Python emoji is the circle of its tag's colour |
| Color.PharoTablesAgree | src/ui/color.ts:32-79 | every Pharo emoji is the circle of its tag's colour |
| Color.IconMatchesColor | src/ui/color.ts:43-93 | a known tag's icon is the circle of its colour; an unknown tag is gray with a white circle |
| CommentNodes.Segment | src/entity/CommentNode.ts:13 | a tag's abbreviation has at most three characters |
| CommentNodes.BuildAbbreviation | src/entity/CommentNode.ts:11-17 | the loop joins the tags' segments with a bar between each two |
| CommentNodes.BarredIsJoin | src/entity/CommentNode.ts:12-17 | the loop's text after all tags is the segments joined by bars |
| CommentNodes.JoinBars | src/entity/CommentNode.ts:12-17 | the joined text starts with the first segment and ends with the last |
| CommentNodes.JoinBarsCount | src/entity/CommentNode.ts:14-16 | `n` segments joined hold `n - 1` bars plus those inside the segments |
| CommentNodes.AbbreviationBars | src/entity/CommentNode.ts:11-17 | for tags whose segments hold no bar, `n` tags give `n - 1` bars, and no tags give the empty text |
| CommentNodes.Preview | src/entity/CommentNode.ts:18 | the text itself up to 50 characters, otherwise its first 50 followed by "..." |
| CommentNodes.Label | src/entity/CommentNode.ts:19 | the label is the icons, the abbreviation and the preview with three separators, starting with the icons and ending with the preview |
| CommentNodes.LabelOf | src/entity/CommentNode.ts:9-19 | the label of a comment starts with its tags' icons and ends with the preview of its text |
| CommentNodes.CommentNode.constructor | src/entity/CommentNode.ts:9-34 | the label is icons, abbreviation and preview; the final context value is "commentItem" |
| CommentNodes.CommentNode.UpdateCommentType | src/entity/CommentNode.ts:44-59 | the tags become the new ones, while the label is built from the tags held before |
| CommentNodes.FileContextValue | src/entity/CommentNode.ts:112-118 | "directoryNode" exactly for directories, then "fileWithComments" or "fileWithoutComments" by whether the file has comments |
| CommentNodes.FileNode.constructor | src/entity/CommentNode.ts:99-110 | the context value is computed from the node's flags |
| Extension.GetCommentTypes | src/extension.ts:18-62 | no choices for an unknown language, otherwise one per table entry |
| Extension.CommentTypesCount | src/extension.ts:22-54 | 7 choices for Java, 5 for Python, 7 for Pharo, none for any other language |
| Extension.CommentTypesIgnoreCase | src/extension.ts:21 | the language matches whatever its case |
| Extension.ChoiceShowsValue | src/extension.ts:58-61 | a label is `$(icon) ` followed by a text whose lower case is the value |
| Extension.CommentTypesShowValues | src/extension.ts:58-61 | each choice comes from its table entry, and its label shows its value |
| Extension.JavaValuesAreColorTags | src/extension.ts:22-31 | every Java value is a tag of the Java colour table |
| Extension.PharoValuesAreColorTags | src/extension.ts:42-51 | every Pharo value is a tag of the Pharo colour table |
| Extension.PythonValuesAndColorTags | src/extension.ts:33-40 | every Python value but "developmentnotes" is a tag of the Python colour table, which says "development notes" |
| Extension.IsCommentLine | src/extension.ts:536-548 | a comment line is never blank; any other language has none |
| Extension.IsCommentLineIgnoresIndent | src/extension.ts:537 | indentation does not change the answer |
| Extension.LastHolding | src/extension.ts:495-499 | the last comment whose rows hold the line, -1 when none |
| Extension.ExistingTypes | src/extension.ts:495-500 | no tags when the file has no entry or no comment holds the line; tags found are those of a comment of the file holding the line |
| Extension.LookupExistingTypes | src/extension.ts:493-501 | the loop keeps the tags of the last comment holding the line, none when the file has no entry or no comment holds it |
| Extension.LookupMatchesUpdate | src/extension.ts:493-501 | with one comment holding the line, the picker starts from the tags of the comment the update rewrites |
| Extension.LookupAndUpdateDisagreeOnOverlap | src/extension.ts:495-499 | with two comments holding the line, the picker starts from the last and the update rewrites the first |
| Extension.EditorLanguageAsWritten | src/extension.ts:503-510 | no language exactly when the name ends in none of "java", "python", "st" |
| Extension.PythonFileGetsNoChoices | src/extension.ts:503-512 | a `.py` file gets no language and no choices |
| Extension.EditorLanguage | src/utils.ts:31-42 | no language exactly when the name has none of the three extensions |
| Extension.EditorLanguageChoices | src/extension.ts:503-512 | Java, Python and Pharo files get 7, 5 and 7 choices |
| Extension.CursorPickItems | src/extension.ts:493-517 | corrected: with the file language taken from the extension, one item per choice, picked exactly when the comment under the cursor has that tag |

## Findings

| source | as written | input that shows it | evidently intended | confidence | as-written member | corrected member |
|---|---|---|---|---|---|---|
| src/extension.ts:503-510 | the file language is chosen by `endsWith("java")`, `endsWith("python")`, `endsWith("st")` | a file named `main.py` gets language '' and the picker offers no tag | a `.py` file is Python, as `getLanguageByFilename` (src/utils.ts:31-42) decides | high, not executed | Extension.PythonFileGetsNoChoices | Extension.EditorLanguageChoices |

`Extension.EditorLanguageAsWritten` models the test as written. `Extension.EditorLanguage` takes the language from `Reconcile.GetLanguageByFilename`, and `Extension.CursorPickItems` uses it.

## Left out

- The tree-sitter parser, its queries and its parse timeout (`createParser`, `QUERIES`, src/extract_comments.ts:9-42,362-373) are a foreign library. The tree and the captures are an input, and a parse error is the `GrammarFailure` outcome.
- Regular-expression semantics are not modelled as such. Each pattern of the source is replaced by a hand-written scanner or stripper that uses the whitespace set of JavaScript `\s` and `trim`.
- File-system access is left out as I/O: `getAllFiles`, `readFileSync`, `getWorkspaceRoot`, the JSON reads and writes of `fileUtils.ts` and `getComments`. Files are given as (path, text, parse) triples. The store is a sequence of entries. `updateCommentTypeInFile` returns the new store with a flag saying whether it is written.
- `fetchGitCommitDate` (src/entity/Comment.ts:82-96) runs `git blame` as a child process and converts dates. The lookup is a function parameter.
- `postData` and the classifier service (network), and the commands, progress, status bar and QuickPick wiring of `activate` in src/extension.ts, are left out. Only the computations named above are modelled.
- `FileTreeProvider.ts` and `highlight.ts` (tree and decoration plumbing of the editor) are not part of this model.
- `CommentNode` tooltip, `formatDate` and command (src/entity/CommentNode.ts:23-31,61-93) depend on the clock and locale formatting. `FileNode`'s label and description come from `path.basename`/`dirname`, with a collapsible state. `EmptyCommentNode` is a fixed text.
- CommentNodes.CommentNode: the node holds a copy of the comment record. In the source it holds a reference shared with the in-memory store, so `updateCommentType` also changes the store; that aliasing is not captured.
- Strings are sequences of Unicode code points. JavaScript measures `length`, `substring` and the 1 MiB limit in UTF-16 units. These differ for characters outside the Basic Multilingual Plane, such as the emoji circles, which count 2 in JavaScript and 1 here.
- Text.Upper: case mapping is ASCII-only, while `toUpperCase` and `toLowerCase` also map non-ASCII letters. The language names and table tags compared here are ASCII.
- Color.GetColorForType / Color.IconOf / Color.GetIconForType: the tables are plain maps; both `colorMap[language]?.[element]` (src/ui/color.ts:43-50) and `iconMap[language]?.[element]` (src/ui/color.ts:90) are lookups in object literals. A tag such as "constructor" would find an inherited property of a JavaScript object literal, and that lookup is not modelled.
- The `try`/`catch` around the regex fallback, which returns `[]` on an exception, is not modelled, because the scanners cannot fail. Logging and error messages are left out. The error results of `getLanguageByFilename` and `updateCommentInJson` are modelled as `Failure` values.
- The order of `for..in` over the store's keys is taken as the given order of the entries.
- `Promise.all` over the per-comment callbacks of `processFile` is not modelled as concurrency. Ids are assigned in array order, which is what the synchronous part of each callback does.
