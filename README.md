# Search and jump — a Dafny model

This project models the search command of a VS Code extension, `jumpSearchExtension.searchAndJump`, and the search history it keeps. The command works in seven steps:

1. It asks for a search term.
2. It asks for the workspace folders to search.
3. It asks for a file type.
4. It saves the term to a bounded, most-recent-first history.
5. It lists the matching files under each chosen folder.
6. It runs the term, as a case-insensitive global regular expression, over every line of every file, building one result record per match. Each record holds the matched text, the relative path, the 1-based line number, the trimmed line and a preview with every match wrapped in `**`.
7. It shows the results in a picker and jumps to the one chosen.

Modules, following the two source files:

| module | models |
|---|---|
| `History` (history.dfy) | `src/utils/history.ts`. The update rule `AddTerm` and the storage slot as a class `HistoryStore`. |
| `Scope` (scope.dfy) | The file types, the include glob, the chosen folders and the folder loop that collects files. |
| `Matching` (matching.dfy) | The successive matches of the compiled pattern on one line, the emphasised preview, and a concrete matcher for literal patterns. |
| `Scanner` (scanner.dfy) | The nested file / line / match loops and the record built for each match. |
| `JsText` (jstext.dfy) | `String.prototype.trim` and the decimal rendering of line numbers. |
| `SearchAndJump` (searchandjump.dfy) | The whole command: every early return, the history write, the scan, the picker and the jump. |
| `Editor`, `Options`, `Sequences` | VS Code values (Uri, Position, Range, WorkspaceFolder), Option, and sequence helpers. |

The editor and the user enter as parameters:

- `Workspace` holds what the command reads from VS Code: the workspace folders, the root path, `findFiles`, the lines of each document, `path.relative` and `new RegExp(term, 'gi')`.
- `Answers` holds what the user answers to each prompt.

`SearchAndJump.SearchAndJump` is proved to end in `SearchAndJump.Expected(ws, ans)` and to write the history exactly when the prompts are answered.

## Model

| member | source | states |
|---|---|---|
| History.Without | src/utils/history.ts:10 | The filtered list holds exactly the old entries other than the term, and is shorter by the number of copies of the term. |
| History.AddTerm | src/utils/history.ts:5-10 | The new list has 1 to MAX_HISTORY (20) entries, starts with the term, holds no other copy of it, and every entry is the term or an old entry. |
| History.Cap | src/utils/history.ts:10 | `slice(0, MAX_HISTORY)`: the first min(n, 20) entries of the list, in order. |
| History.AddTermKeepsNewest | src/utils/history.ts:10 | The old entries that survive the cap are the first ones of the filtered list, which is most-recent-first. The oldest entries are the ones dropped. |
| History.AddTermOnce | src/utils/history.ts:10 | The term occurs exactly once in the new list. |
| History.AddTermKeepsOrder | src/utils/history.ts:10 | The entries after the first are a subsequence of the old list: the filter keeps their order. |
| History.WithoutIsSubsequence | src/utils/history.ts:10 | `filter` keeps the relative order of the entries it keeps. |
| History.AddTermKeepsAllWhenRoom | src/utils/history.ts:5-10 | While the list has room, no entry other than the term's old copies is dropped. |
| History.AddTermLength | src/utils/history.ts:5-10 | The new length is min(1 + old length - copies of the term, 20). |
| History.AddPresentTermKeepsLength | src/utils/history.ts:10 | Re-searching a term already in a duplicate-free history moves it to the front without growing the list. |
| History.AddAbsentTermLength | src/utils/history.ts:5-10 | A new term grows the list by one, up to 20. |
| History.WithoutNoDuplicates | src/utils/history.ts:10 | Filtering a duplicate-free list keeps it duplicate-free. |
| History.AddTermNoDuplicates | src/utils/history.ts:10 | A duplicate-free history stays duplicate-free. |
| History.AddTermIdempotent | src/utils/history.ts:10 | Searching the same term twice in a row leaves the history as one search does. |
| History.AddAll | src/utils/history.ts:7-11 | Definition, no ensures: the history after searching each term in turn, one AddTerm per search. AddAllInvariant, AddAllLast and AddAllRecent carry its properties. |
| History.AddAllInvariant | src/utils/history.ts:5-11 | After any sequence of searches, the history is duplicate-free, at most 20 long, starts with the latest term, and equals Recent: most-recent-first throughout. |
| History.NewestFirst | src/utils/history.ts:10 | Definition, no ensures: every search newest first, then the older history. Used by Recent. |
| History.Dedup | src/utils/history.ts:10 | The list with each repeat after its first occurrence dropped: duplicate-free, with the same entries. |
| History.Recent | src/utils/history.ts:5-10 | Reference definition, no ensures: the most recent search of each term, newest first, then the older entries, at most 20. AddAllRecent and AddAllInvariant state that the history equals it. |
| History.AddAllLast | src/utils/history.ts:7-11 | Searching terms in turn ends with an AddTerm of the last term on the history left by the others. |
| History.CapWithout | src/utils/history.ts:10 | On a duplicate-free list, filtering out the term and then capping keeps the same first 20 entries whether or not the list was capped before. |
| History.AddAllRecent | src/utils/history.ts:5-11 | Searching any terms in turn from a valid history gives exactly Recent: each term once, at its latest search, newest first, the oldest dropped beyond 20. |
| History.HistoryStore.constructor | src/utils/history.ts:14-16 | A fresh store has nothing under the key, so it reads as the empty history, which is valid. |
| History.HistoryStore.GetSearchHistory | src/utils/history.ts:14-16 | The stored list, or [] when nothing is stored under the key. |
| History.HistoryStore.AddSearchToHistory | src/utils/history.ts:7-12 | The slot becomes AddTerm of the previous list (default []), which starts with the term and is at most 20 long. A valid store stays valid. |
| Scope.IncludeGlob | src/commands/searchAndJump.ts:47 | The glob is `**/*` for `.*`, and otherwise `**/*` followed by the type. |
| Scope.FileTypesNonEmpty | src/commands/searchAndJump.ts:36-41 | No offered file type is empty, so a picked type always passes the `!selectedType` test. |
| Scope.FileTypes | src/commands/searchAndJump.ts:36 | Definition (a constant): the ten offered types, `.*` first, in the source's order. FileTypesNonEmpty and SearchAndJump.OfferedTypePasses carry its properties. |
| Scope.SelectedFolders | src/commands/searchAndJump.ts:48 | A workspace folder is kept, as many times as it occurs, exactly when its name was picked. |
| Scope.SelectedFoldersInOrder | src/commands/searchAndJump.ts:48 | The kept folders are a subsequence of the workspace folders. |
| Scope.FilesOf | src/commands/searchAndJump.ts:50-56 | Definition, no ensures: the folders' listings concatenated in folder order. FilesOfAppend, FilesOfCount, FilesOfEmpty and CollectFiles carry its properties. |
| Scope.FilesOfAppend | src/commands/searchAndJump.ts:50-56 | The files of more folders extend the files of fewer, folder by folder. |
| Scope.FilesOfCount | src/commands/searchAndJump.ts:50-56 | A file occurs as often as the chosen folders' listings name it in total; nothing is merged. |
| Scope.FilesOfEmpty | src/commands/searchAndJump.ts:50-58 | No file is collected exactly when every chosen folder lists nothing. |
| Scope.CollectFiles | src/commands/searchAndJump.ts:50-56 | The loop's `uris` is the concatenation of the folders' listings in folder order. |
| JsText.TrimIsMaximalSlice | src/commands/searchAndJump.ts:93 | `trim()` gives a contiguous slice of the line. Only white space is cut on either side, and the slice neither starts nor ends with white space. |
| JsText.TrimIdempotent | src/commands/searchAndJump.ts:93 | Trimming twice is trimming once. |
| JsText.Trim | src/commands/searchAndJump.ts:93 | Definition, no ensures: leading, then trailing white space removed. TrimIsMaximalSlice and TrimIdempotent carry its properties. |
| JsText.Decimal | src/commands/searchAndJump.ts:91-92 | The decimal text of a number is non-empty and all digits. |
| JsText.DecimalRoundTrip | src/commands/searchAndJump.ts:91-92 | Reading back the decimal text gives the number. |
| JsText.DecimalInjective | src/commands/searchAndJump.ts:91-92 | Different line numbers have different texts. |
| Matching.Exec | src/commands/searchAndJump.ts:80 | A match found from lastIndex starts at or after it and ends inside the line. There is none once lastIndex is past the end. |
| Matching.Advance | src/commands/searchAndJump.ts:85-88 | The next search starts past the match's start and not before its end. |
| Matching.HitsFrom | src/commands/searchAndJump.ts:79-80 | The matches visited on a line lie inside it, each ending before the next starts. |
| Matching.HitsFromCount | src/commands/searchAndJump.ts:80 | The loop visits at most one match more than the line has characters, and at most one per character when no match is empty. |
| Matching.EmphasizeLength | src/commands/searchAndJump.ts:85-88 | Wrapping matches adds exactly four characters per match. |
| Matching.EmphasizeWraps | src/commands/searchAndJump.ts:85-88 | Each match appears in the output framed by `**` on both sides. |
| Matching.EmphasizeKeeps | src/commands/searchAndJump.ts:85-88 | A character outside every match is copied, shifted by four per earlier match. |
| Matching.Emphasize | src/commands/searchAndJump.ts:85-88 | Definition, no ensures: the text between matches copied, each match wrapped in `**`. EmphasizeLength, EmphasizeWraps and EmphasizeKeeps carry its properties. |
| Matching.Preview | src/commands/searchAndJump.ts:85-88 | Definition, no ensures: the line with every match of the pattern emphasised. PreviewLength, PreviewWraps and PreviewKeeps fix it completely. |
| Matching.PreviewLength | src/commands/searchAndJump.ts:85-88 | The preview is the line plus four characters per match. |
| Matching.PreviewWraps | src/commands/searchAndJump.ts:85-88 | In the preview, the i-th match's text sits between `**` and `**`. |
| Matching.PreviewKeeps | src/commands/searchAndJump.ts:85-88 | In the preview, characters outside matches are kept in place, after the shift. |
| Matching.FindFrom | src/commands/searchAndJump.ts:73 | For a literal pattern under the `i` flag, the leftmost case-insensitive occurrence at or after the position, or None when there is none. |
| Matching.LiteralSearch | src/commands/searchAndJump.ts:73-80 | For a pattern with no special characters, the match found from lastIndex is the leftmost case-insensitive occurrence at or after it, as long as the pattern. Its ensures keep it inside the line. |
| Matching.Literal | src/commands/searchAndJump.ts:73 | Definition, no ensures: `new RegExp(term, 'gi')` for such a pattern, as a Matcher. LiteralApply, FooBarFooHits and FooBarFooPreview carry its properties. |
| Matching.FooBarFooHits | src/commands/searchAndJump.ts:78-80 | "foo" on "foo bar foo" is matched at [0,3) and [8,11). |
| Matching.FooBarFooPreview | src/commands/searchAndJump.ts:85-88 | The preview of that line is "**foo** bar **foo**". |
| Matching.ExecRun | src/commands/searchAndJump.ts:79-80 | The loop as written, with lastIndex left at the end of an empty match, cut off after `fuel` rounds. |
| Matching.EmptyMatchRepeats | src/commands/searchAndJump.ts:80 | Once exec returns an empty match, the loop as written returns that match on every round. |
| Matching.XStarNeverStops | src/commands/searchAndJump.ts:73-80 | For the pattern `x*` on "ab", the loop as written runs for any number of rounds. |
| Matching.ExecRunAgrees | src/commands/searchAndJump.ts:80 | When the pattern never matches empty on the line, the loop as written visits exactly HitsFrom's matches. |
| Scanner.MakeRecord | src/commands/searchAndJump.ts:81-97 | The record points at the match's range on its line. The description is exactly "Line " + Decimal(line + 1): digits with no leading zero, whose value is the 1-based line number. The label is the matched text, the arrow, the relative path, ":" and that number. The detail is the trimmed line and the preview is the emphasised line. |
| Scanner.Label | src/commands/searchAndJump.ts:91 | Definition, no ensures: the matched text, the arrow, the relative path, ":" and the line number. MakeRecord states the label it gives. |
| Scanner.LineRecords | src/commands/searchAndJump.ts:80-98 | One record per match of the line. |
| Scanner.LineRecordsAt | src/commands/searchAndJump.ts:80-98 | The i-th record of a line is built from its i-th match. |
| Scanner.LineRecordsOrdered | src/commands/searchAndJump.ts:80-83 | A line's records are on that line and in order of position. |
| Scanner.FileRecordsOrdered | src/commands/searchAndJump.ts:77-98 | A file's records are on its lines and ordered by line, then by position. |
| Scanner.FileRecordsEmpty | src/commands/searchAndJump.ts:77-98 | A file yields no record exactly when no line has a match. |
| Scanner.FileRecordsLast | src/commands/searchAndJump.ts:77-98 | Adding a line adds no record exactly when that line has no match. |
| Scanner.FileRecords | src/commands/searchAndJump.ts:77-99 | Definition, no ensures: the records of the first n lines, line by line. FileRecordsOrdered, FileRecordsEmpty, FileRecordsAtMatches and ScanFile carry its properties. |
| Scanner.AllRecords | src/commands/searchAndJump.ts:75-100 | Definition, no ensures: the records of every file in the listed order. AllRecordsAppend, AllRecordsEmpty, AllRecordsAtMatches and ScanFiles carry its properties. |
| Scanner.FileRecordsAtMatches | src/commands/searchAndJump.ts:77-83 | Every record of a file lies on one of its lines, over exactly the range of a match the scan visits on that line. |
| Scanner.AllRecordsAppend | src/commands/searchAndJump.ts:75-100 | The results of more files extend the results of fewer, file by file in the listed order. |
| Scanner.AllRecordsEmpty | src/commands/searchAndJump.ts:75-102 | No result exactly when no line of any file has a match. |
| Scanner.AllRecordsAtMatches | src/commands/searchAndJump.ts:75-97 | Every result names a searched file and lies over exactly the range of a match on one of its lines. |
| Scanner.LineRecordsStep | src/commands/searchAndJump.ts:80-97 | One round of the match loop pushes the match's record and moves on to the next search position. |
| Scanner.ScanLine | src/commands/searchAndJump.ts:78-98 | The match loop pushes exactly the records of the line's matches, in order. After each match it searches on from `Advance`, one character past an empty match, where the source's exec stays at the match's end (see Findings). |
| Scanner.ScanFile | src/commands/searchAndJump.ts:76-99 | The line loop pushes the records of every line in order. |
| Scanner.ScanFiles | src/commands/searchAndJump.ts:75-100 | The file loop's results are the records of every file in the listed order. |
| SearchAndJump.Term | src/commands/searchAndJump.ts:12-17 | The term is the one passed in if any, otherwise the one typed. A dismissed input box counts as empty. |
| SearchAndJump.Proceeds | src/commands/searchAndJump.ts:17-41 | Definition, no ensures: the four gates passed. The term is non-empty (line 17), a workspace is open (21), at least one folder is picked (33) and a type is picked (41). SavedExactlyPastPrompts, SearchAndJump and OfferedTypePasses carry its properties. |
| SearchAndJump.OfferedTypePasses | src/commands/searchAndJump.ts:36-41 | A type taken from the offered list passes the `!selectedType` gate, so with a term, a workspace and some folders the run gets past every prompt. |
| SearchAndJump.FilesFor | src/commands/searchAndJump.ts:47-56 | Definition, no ensures: the files listed by the chosen folders for the glob of the chosen type. NothingListed, NoFilesExactly and JumpLandsOnAMatch carry its properties. |
| SearchAndJump.NoWorkspaceWarning | src/commands/searchAndJump.ts:22 | Definition (a constant): the text "No workspace is open!". |
| SearchAndJump.ToItem | src/commands/searchAndJump.ts:109-115 | Definition, no ensures: a picker entry with the record's label, description, uri and range, and its preview as the detail. Items states it is applied to every result in order. |
| SearchAndJump.RelPath | src/commands/searchAndJump.ts:91 | Definition, no ensures: `path.relative` from the root path, or from "" when there is none, to the file's path. Both are kept opaque. |
| SearchAndJump.JoinComma | src/commands/searchAndJump.ts:59 | Definition, no ensures: an array in a template string, its elements joined by ",". |
| SearchAndJump.NoFilesWarning | src/commands/searchAndJump.ts:59 | Definition, no ensures: the "No files found" text with the folder names and the type. NoFilesExactly states when it is shown. |
| SearchAndJump.NoMatchesInfo | src/commands/searchAndJump.ts:103 | Definition, no ensures: the "No matches found" text with the term. NoMatchesExactly states when it is shown. |
| SearchAndJump.Placeholder | src/commands/searchAndJump.ts:117 | Definition, no ensures: "Found", the number of results in decimal, "matches for" and the quoted term. |
| SearchAndJump.JumpTo | src/commands/searchAndJump.ts:123-127 | Definition, no ensures: no jump when the picker is dismissed, otherwise the chosen entry's file and range. JumpLandsOnAMatch states where it lands. |
| SearchAndJump.Expected | src/commands/searchAndJump.ts:10-129 | Reference definition of one run, no ensures: each prompt's early return in order, then Searched. SearchAndJump is proved to end in it, and SavedExactlyPastPrompts, NoFilesExactly, NoMatchesExactly and JumpLandsOnAMatch state its properties. |
| SearchAndJump.Items | src/commands/searchAndJump.ts:108-115 | One picker entry per result, in order, with the preview shown as the detail. |
| SearchAndJump.Searched | src/commands/searchAndJump.ts:47-105 | Past the prompts, the run ends with no files, a rejected pattern, no matches or a list. It is "no files" exactly when no file was collected. |
| SearchAndJump.Reported | src/commands/searchAndJump.ts:102-120 | "No matches" exactly when there is no result, and a list exactly when there is one. |
| SearchAndJump.SavedExactlyPastPrompts | src/commands/searchAndJump.ts:17-44 | The run gets past all prompts, and so saves the term, exactly when it ends after the history write (no files, rejected pattern, no matches or list). |
| SearchAndJump.NoFilesExactly | src/commands/searchAndJump.ts:58-61 | The "No files found" warning is shown exactly when no file is collected. |
| SearchAndJump.NothingListed | src/commands/searchAndJump.ts:47-58 | No file is collected exactly when every chosen folder lists nothing for the glob. |
| SearchAndJump.NoMatchesExactly | src/commands/searchAndJump.ts:73-105 | Once files are found and the pattern compiles, "No matches found" is shown exactly when no line of any file has a match. |
| SearchAndJump.JumpLandsOnAMatch | src/commands/searchAndJump.ts:108-128 | The jump goes to an entry of the list, in a searched file, on one of its lines, and selects exactly the range of a match the scan found on that line, which lies inside the line. |
| SearchAndJump.SearchAndJump | src/commands/searchAndJump.ts:10-129 | The run ends in Expected(ws, ans). The history gets AddTerm(old history, term) exactly when the prompts are answered and is otherwise untouched. A bounded, duplicate-free history stays so. |

## Left out

- The VS Code user interface: prompts, pickers, messages, opening and showing documents, selection and reveal. Prompts are answers in `Answers`. A message is the outcome carrying its text. The jump is a `Jump` value.
- `path.relative` and `vscode.workspace.rootPath` are opaque parameters. The model passes `rootPath || ''` as the source does.
- `findFiles` is an opaque parameter returning the files of one folder. Its default exclusions and its order are not modelled.
- The regular-expression engine is not modelled. A compiled pattern is any `Matcher` that returns a match starting at or after lastIndex and ending inside the line. It need not be the leftmost one, so every result holds for any engine that keeps to this. `Literal` is a concrete matcher for patterns with no special characters. Its case folding covers ASCII letters only, while JavaScript's `i` flag folds all of Unicode.
- `new RegExp` throwing on an invalid pattern (line 73) is the outcome `PatternRejected`. In the source, this rejects the command's promise with no message. The model follows the code: the pattern is compiled after the files are listed and after the history is written, not before enumeration.
- The same regex object is used for every line and file (line 73). A failed `exec` resets lastIndex to 0, so each line's search starts at 0. The model starts every line at 0 for this reason.
- `openTextDocument` failing (lines 76 and 124) is not modelled. `open` is total and gives a document's lines, already split. Line terminators are not modelled.
- Strings are sequences of `char`. The character offsets of UTF-16 surrogate pairs are not modelled.
- Matching.HitsFrom: models the search loop with the corrected step past an empty match (see Findings), not the source's non-terminating loop. That loop is `Matching.ExecRun`, which carries a fuel bound.
- Command registration and disposal (lines 7-9 and 130-133), the history view, the other commands and the webview are not part of this model.
- Result caps, cancellation, progress reporting and de-duplication of files reachable from two folders do not exist in this code, so the model has none. `Scope.FilesOfCount` states that duplicates are kept.
- History.HistoryStore.AddSearchToHistory: `globalState.update` is not awaited. The write is modelled as immediate, and concurrent runs are not modelled.

## Findings

| source | as written | input that shows it | evidently intended | confidence | as-written member | corrected member |
|---|---|---|---|---|---|---|
| src/commands/searchAndJump.ts:80 | `while ((match = regex.exec(lineText)) !== null)` with the `g` flag. An empty match leaves lastIndex where it is, so the next `exec` returns the same empty match forever. | The search term `x*` on any line, e.g. "ab": the first match is empty at 0, and the loop pushes records without end. | Step one character past an empty match, as `String.prototype.replace` (used for the preview at line 85) and `matchAll` do. The loop then visits each match once and stops after at most one round more than the line has characters. | high, not executed | Matching.XStarNeverStops | Matching.HitsFromCount |
