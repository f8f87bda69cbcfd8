/**
 * The `jumpSearchExtension.searchAndJump` command (src/commands/searchAndJump.ts): ask for
 * a term, the folders and a file type, save the term to the history, list the files, scan
 * every line for the pattern, list the matches and jump to the chosen one.
 *
 * The editor and the user are parameters: `Workspace` holds what the command reads from
 * VS Code, `Answers` what the user answers to each prompt.
 */
module SearchAndJump {
  import opened Options
  import opened Editor
  import opened JsText
  import opened History
  import opened Scope
  import opened Matching
  import opened Scanner

  /** One entry shown in the result picker (`results.map(...)`): the record's preview
      becomes the entry's detail line. */
  datatype Item = Item(labelText: string, description: string, detail: string, uri: Uri, range: Range)

  /** The result picker: the index of the chosen entry, or None when dismissed. */
  type Picker = p: seq<Item> -> Option<nat> | forall items :: p(items).Some? ==> p(items).value < |items|
    witness items => None

  /** What the command reads from the editor. `folders` is None when no workspace is open;
      `compile` is `new RegExp(text, 'gi')`, None when it throws. */
  datatype Workspace = Workspace(
    folders: Option<seq<WorkspaceFolder>>,
    rootPath: Option<string>,
    findFiles: (WorkspaceFolder, string) -> seq<Uri>,
    open: Uri -> seq<string>,
    relative: (string, string) -> string,
    compile: string -> Option<Matcher>)

  /** The user's answers: the term passed by the caller (e.g. from the history view), the
      term typed in the input box, the folder names and the file type picked (None when a
      prompt is dismissed), and the choice in the result picker. */
  datatype Answers = Answers(
    provided: Option<string>,
    typed: Option<string>,
    folderNames: Option<seq<string>>,
    fileType: Option<string>,
    pick: Picker)

  /** Where the editor ends up: the file opened and the selection set and revealed. */
  datatype Jump = Jump(uri: Uri, selection: Range)

  /** How one run of the command ends. */
  datatype Outcome =
    | Dismissed                                            // a prompt dismissed or left empty
    | NoWorkspace(warning: string)
    | NoFiles(warning: string)
    | PatternRejected                                      // `new RegExp` threw
    | NoMatches(info: string)
    | Listed(items: seq<Item>, placeholder: string, jump: Option<Jump>)

  /** `providedTerm ?? await showInputBox(...)`, with an absent answer read as "" (both fail `!searchText`). */
  function Term(ans: Answers): (t: string)
    ensures ans.provided.Some? ==> t == ans.provided.value
    ensures ans.provided.None? && ans.typed.Some? ==> t == ans.typed.value
    ensures ans.provided.None? && ans.typed.None? ==> t == ""
  {
    match ans.provided
    case Some(t) => t
    case None => match ans.typed { case Some(t) => t case None => "" }
  }

  /** The command gets past every prompt: a non-empty term, an open workspace, at least one
      folder and a file type. */
  predicate Proceeds(ws: Workspace, ans: Answers) {
    && Term(ans) != ""
    && ws.folders.Some?
    && ans.folderNames.Some? && ans.folderNames.value != []
    && ans.fileType.Some? && ans.fileType.value != ""
  }

  /** A file type picked from the offered list always passes the `!selectedType` gate, so
      with a term, an open workspace and some folders, the command gets past every prompt. */
  lemma OfferedTypePasses(ws: Workspace, ans: Answers)
    requires Term(ans) != "" && ws.folders.Some? && ans.folderNames.Some? && ans.folderNames.value != []
    requires ans.fileType.Some? && ans.fileType.value in FileTypes
    ensures Proceeds(ws, ans)
  {
    FileTypesNonEmpty();
  }

  /** `path.relative(vscode.workspace.rootPath || '', uri.fsPath)` */
  function RelPath(ws: Workspace): Uri -> string {
    (u: Uri) => ws.relative(if ws.rootPath.Some? then ws.rootPath.value else "", u.fsPath)
  }

  /** The files searched once the prompts are answered. */
  function FilesFor(ws: Workspace, ans: Answers): seq<Uri>
    requires Proceeds(ws, ans)
  {
    FilesOf(ws.findFiles, IncludeGlob(ans.fileType.value), SelectedFolders(ws.folders.value, ans.folderNames.value))
  }

  /** A JavaScript array in a template string: its elements joined by ",". */
  function JoinComma(names: seq<string>): string {
    if names == [] then ""
    else if |names| == 1 then names[0]
    else names[0] + "," + JoinComma(names[1..])
  }

  const NoWorkspaceWarning: string := "No workspace is open!"

  function NoFilesWarning(names: seq<string>, fileType: string): string {
    "No files found in selected folders \" " + JoinComma(names) + " \" with extension \" " + fileType + " \""
  }

  function NoMatchesInfo(term: string): string {
    "No matches found for \" " + term + " \""
  }

  function Placeholder(count: nat, term: string): string {
    "Found " + Decimal(count) + " matches for \"" + term + "\""
  }

  function ToItem(r: Record): Item {
    Item(r.labelText, r.description, r.preview, r.uri, r.range)
  }

  function Items(results: seq<Record>): (items: seq<Item>)
    ensures |items| == |results|
    ensures forall i :: 0 <= i < |items| ==> items[i] == ToItem(results[i])
  {
    seq(|results|, i requires 0 <= i < |results| => ToItem(results[i]))
  }

  /** The jump for the picker's answer: the chosen entry's file and range. */
  function JumpTo(items: seq<Item>, choice: Option<nat>): Option<Jump>
    requires choice.Some? ==> choice.value < |items|
  {
    match choice
    case None => None
    case Some(i) => Some(Jump(items[i].uri, items[i].range))
  }

  /** The outcome of one run, step by step as the command goes. */
  function Expected(ws: Workspace, ans: Answers): Outcome {
    if Term(ans) == "" then Dismissed
    else if ws.folders.None? then NoWorkspace(NoWorkspaceWarning)
    else if ans.folderNames.None? || ans.folderNames.value == [] then Dismissed
    else if ans.fileType.None? || ans.fileType.value == "" then Dismissed
    else Searched(ws, ans)
  }

  /** The outcome once the prompts are answered: list the files, compile the pattern, scan. */
  function Searched(ws: Workspace, ans: Answers): (o: Outcome)
    requires Proceeds(ws, ans)
    ensures o.NoFiles? || o.PatternRejected? || o.NoMatches? || o.Listed?
    ensures o.NoFiles? <==> FilesFor(ws, ans) == []
  {
    var uris := FilesFor(ws, ans);
    if uris == [] then NoFiles(NoFilesWarning(ans.folderNames.value, ans.fileType.value))
    else
      match ws.compile(Term(ans))
      case None => PatternRejected
      case Some(m) => Reported(ans, Term(ans), AllRecords(m, ws.open, RelPath(ws), uris))
  }

  /** The outcome of a scan that produced `results`. */
  function Reported(ans: Answers, term: string, results: seq<Record>): (o: Outcome)
    ensures o.NoMatches? <==> results == []
    ensures o.Listed? <==> results != []
  {
    if results == [] then NoMatches(NoMatchesInfo(term))
    else
      var items := Items(results);
      Listed(items, Placeholder(|results|, term), JumpTo(items, ans.pick(items)))
  }

  /** The term is saved to the history exactly when the command gets past its prompts,
      whatever the search then finds. */
  lemma SavedExactlyPastPrompts(ws: Workspace, ans: Answers)
    ensures var o := Expected(ws, ans);
      Proceeds(ws, ans) <==> (o.NoFiles? || o.PatternRejected? || o.NoMatches? || o.Listed?)
  {
    if Proceeds(ws, ans) {
      assert Expected(ws, ans) == Searched(ws, ans);
    }
  }

  /** "No files found" exactly when the chosen folders list no file of the chosen type. */
  lemma NoFilesExactly(ws: Workspace, ans: Answers)
    requires Proceeds(ws, ans)
    ensures Expected(ws, ans).NoFiles? <==> FilesFor(ws, ans) == []
  {
    assert Expected(ws, ans) == Searched(ws, ans);
  }

  /** The chosen folders list no file exactly when each of them lists nothing for the type. */
  lemma NothingListed(ws: Workspace, ans: Answers)
    requires Proceeds(ws, ans)
    ensures FilesFor(ws, ans) == []
      <==> NoneListed(ws.findFiles, IncludeGlob(ans.fileType.value), SelectedFolders(ws.folders.value, ans.folderNames.value))
  {
    var glob, chosen := IncludeGlob(ans.fileType.value), SelectedFolders(ws.folders.value, ans.folderNames.value);
    assert FilesFor(ws, ans) == FilesOf(ws.findFiles, glob, chosen);
    FilesOfEmpty(ws.findFiles, glob, chosen);
  }

  /** Once files are found and the pattern compiles, "no matches" exactly when no line of
      any found file has a match. */
  lemma NoMatchesExactly(ws: Workspace, ans: Answers, m: Matcher)
    requires Proceeds(ws, ans) && FilesFor(ws, ans) != [] && ws.compile(Term(ans)) == Some(m)
    ensures var uris := FilesFor(ws, ans);
      Expected(ws, ans).NoMatches?
      <==> forall f, l :: 0 <= f < |uris| && 0 <= l < |ws.open(uris[f])| ==> HitsFrom(m, ws.open(uris[f])[l], 0) == []
  {
    AllRecordsEmpty(m, ws.open, RelPath(ws), FilesFor(ws, ans));
  }

  /** The jump lands on an entry of the list, in one of the searched files, on one of its
      lines, over exactly the characters of a match the scan found on that line. */
  lemma JumpLandsOnAMatch(ws: Workspace, ans: Answers)
    requires Expected(ws, ans).Listed? && Expected(ws, ans).jump.Some?
    ensures Proceeds(ws, ans) && ws.compile(Term(ans)).Some?
    ensures var o, m := Expected(ws, ans), ws.compile(Term(ans)).value;
      var j := o.jump.value;
      var l := j.selection.start.line;
      && (exists i :: 0 <= i < |o.items| && o.items[i].uri == j.uri && o.items[i].range == j.selection)
      && j.uri in FilesFor(ws, ans)
      && l < |ws.open(j.uri)|
      && (exists h :: h in HitsFrom(m, ws.open(j.uri)[l], 0) && j.selection == Range(Position(l, h.start), Position(l, h.End())))
      && j.selection.start.character <= j.selection.end.character <= |ws.open(j.uri)[l]|
  {
    var uris := FilesFor(ws, ans);
    var m := ws.compile(Term(ans)).value;
    var results := AllRecords(m, ws.open, RelPath(ws), uris);
    var items := Items(results);
    var i := ans.pick(items).value;
    AllRecordsAtMatches(m, ws.open, RelPath(ws), uris);
    assert results[i] in results;
    var r := results[i];
    var line := ws.open(r.uri)[r.range.start.line];
    var h :| h in HitsFrom(m, line, 0)
      && r.range == Range(Position(r.range.start.line, h.start), Position(r.range.start.line, h.End()));
    var k :| 0 <= k < |HitsFrom(m, line, 0)| && HitsFrom(m, line, 0)[k] == h;
  }

  /** The command. The history is written once the prompts are answered and before the
      search, so a search that then finds nothing is still remembered. */
  method SearchAndJump(store: HistoryStore, ws: Workspace, ans: Answers) returns (outcome: Outcome)
    modifies store
    ensures outcome == Expected(ws, ans)
    ensures Proceeds(ws, ans) ==> store.slot == Some(AddTerm(old(store.GetSearchHistory()), Term(ans)))
    ensures !Proceeds(ws, ans) ==> store.slot == old(store.slot)
    ensures old(store.Valid()) ==> store.Valid()
  {
    // 1. the term
    var searchText := Term(ans);
    if searchText == "" {
      return Dismissed;
    }
    // 2. the folders
    if ws.folders.None? {
      return NoWorkspace(NoWorkspaceWarning);
    }
    var workspaceFolders := ws.folders.value;
    if ans.folderNames.None? || ans.folderNames.value == [] {
      return Dismissed;
    }
    var selectedFolders := ans.folderNames.value;
    // 3. the file type
    if ans.fileType.None? || ans.fileType.value == "" {
      return Dismissed;
    }
    var selectedType := ans.fileType.value;
    store.AddSearchToHistory(searchText);
    // 4. the files
    var includePattern := IncludeGlob(selectedType);
    var selectedFolderUris := SelectedFolders(workspaceFolders, selectedFolders);
    var uris := CollectFiles(ws.findFiles, includePattern, selectedFolderUris);
    if uris == [] {
      return NoFiles(NoFilesWarning(selectedFolders, selectedType));
    }
    // 5. the search
    var compiled := ws.compile(searchText);
    if compiled.None? {
      return PatternRejected;
    }
    var results := ScanFiles(compiled.value, ws.open, RelPath(ws), uris);
    if results == [] {
      return NoMatches(NoMatchesInfo(searchText));
    }
    // 6. and 7. the result picker and the jump
    var items := Items(results);
    var selected := ans.pick(items);
    outcome := Listed(items, Placeholder(|results|, searchText), JumpTo(items, selected));
  }
}
