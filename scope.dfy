/**
 * Where the search command looks (src/commands/searchAndJump.ts:36-56): the file types on
 * offer, the include glob built from the chosen one, the chosen workspace folders and the
 * files listed under them.
 */
module Scope {
  import opened Editor
  import opened Sequences

  /** The file types offered by the type picker; ".*" stands for every file. */
  const FileTypes: seq<string> := [".*", ".ts", ".js", ".java", ".py", ".cpp", ".c", ".json", ".txt", ".md"]

  const AllFiles: string := "**/*"

  /** The include glob for a chosen file type. */
  function IncludeGlob(fileType: string): (glob: string)
    ensures |AllFiles| <= |glob| && glob[..|AllFiles|] == AllFiles
    ensures fileType == ".*" ==> glob == AllFiles
    ensures fileType != ".*" ==> glob[|AllFiles|..] == fileType
  {
    if fileType == ".*" then AllFiles else AllFiles + fileType
  }

  /** Every offered type is non-empty, so the type picker never answers with an empty string. */
  lemma FileTypesNonEmpty()
    ensures forall t :: t in FileTypes ==> t != ""
  {
  }

  /** `workspaceFolders.filter(f => selectedFolders.includes(f.name))` */
  function SelectedFolders(folders: seq<WorkspaceFolder>, names: seq<string>): (r: seq<WorkspaceFolder>)
    ensures forall f :: multiset(r)[f] == if f.name in names then multiset(folders)[f] else 0
  {
    if folders == [] then []
    else
      assert folders == [folders[0]] + folders[1..];
      var rest := SelectedFolders(folders[1..], names);
      if folders[0].name in names then [folders[0]] + rest else rest
  }

  /** The chosen folders keep their workspace order. */
  lemma {:induction false} SelectedFoldersInOrder(folders: seq<WorkspaceFolder>, names: seq<string>)
    ensures IsSubsequence(SelectedFolders(folders, names), folders)
  {
    if folders != [] {
      var rest := SelectedFolders(folders[1..], names);
      SelectedFoldersInOrder(folders[1..], names);
      if folders[0].name in names {
        assert SelectedFolders(folders, names)[1..] == rest;
      } else {
        SubsequenceOfTail(rest, folders);
      }
    }
  }

  /** The files listed under each folder (`findFiles(new RelativePattern(folder, glob))`),
      concatenated in folder order. */
  function FilesOf(findFiles: (WorkspaceFolder, string) -> seq<Uri>, glob: string, folders: seq<WorkspaceFolder>): seq<Uri>
  {
    ConcatMap(folder => findFiles(folder, glob), folders)
  }

  /** The listing of more folders extends the listing of fewer: files come folder by folder. */
  lemma FilesOfAppend(findFiles: (WorkspaceFolder, string) -> seq<Uri>, glob: string,
                      a: seq<WorkspaceFolder>, b: seq<WorkspaceFolder>)
    ensures FilesOf(findFiles, glob, a + b) == FilesOf(findFiles, glob, a) + FilesOf(findFiles, glob, b)
  {
    ConcatMapAppend(folder => findFiles(folder, glob), a, b);
  }

  /** The total number of times the folders' listings name `u`. */
  function CountAcross(findFiles: (WorkspaceFolder, string) -> seq<Uri>, glob: string,
                       folders: seq<WorkspaceFolder>, u: Uri): nat
  {
    if folders == [] then 0
    else CountAcross(findFiles, glob, folders[..|folders| - 1], u) + multiset(findFiles(folders[|folders| - 1], glob))[u]
  }

  /** A file is listed exactly as often as the chosen folders list it: nothing is merged. */
  lemma {:induction false} FilesOfCount(findFiles: (WorkspaceFolder, string) -> seq<Uri>, glob: string,
                                         folders: seq<WorkspaceFolder>, u: Uri)
    ensures multiset(FilesOf(findFiles, glob, folders))[u] == CountAcross(findFiles, glob, folders, u)
    decreases |folders|
  {
    if folders != [] {
      FilesOfCount(findFiles, glob, folders[..|folders| - 1], u);
    }
  }

  /** Every folder's listing for `glob` is empty. */
  predicate NoneListed(findFiles: (WorkspaceFolder, string) -> seq<Uri>, glob: string, folders: seq<WorkspaceFolder>) {
    forall i :: 0 <= i < |folders| ==> findFiles(folders[i], glob) == []
  }

  /** No file is found exactly when every chosen folder's listing is empty. */
  lemma FilesOfEmpty(findFiles: (WorkspaceFolder, string) -> seq<Uri>, glob: string, folders: seq<WorkspaceFolder>)
    ensures FilesOf(findFiles, glob, folders) == [] <==> NoneListed(findFiles, glob, folders)
  {
    ConcatMapEmpty(folder => findFiles(folder, glob), folders);
  }

  /** The folder loop: `uris.push(...folderUris)` for each chosen folder in turn. */
  method CollectFiles(findFiles: (WorkspaceFolder, string) -> seq<Uri>, glob: string, folders: seq<WorkspaceFolder>)
    returns (uris: seq<Uri>)
    ensures uris == FilesOf(findFiles, glob, folders)
  {
    uris := [];
    for i := 0 to |folders|
      invariant uris == FilesOf(findFiles, glob, folders[..i])
    {
      var folderUris := findFiles(folders[i], glob);
      assert folders[..i + 1][..i] == folders[..i];
      uris := uris + folderUris;
    }
    assert folders[..|folders|] == folders;
  }
}
