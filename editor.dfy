/** The editor's value types that the search command builds or receives. */
module Editor {
  /** A file location; only its file-system path is used. */
  datatype Uri = Uri(fsPath: string)

  /** An open workspace root. */
  datatype WorkspaceFolder = WorkspaceFolder(name: string, uri: Uri)

  /** A 0-based line and character offset in a document. */
  datatype Position = Position(line: nat, character: nat)

  datatype Range = Range(start: Position, end: Position)
}
