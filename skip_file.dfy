/** The toggle-skipping-file command: which file or source the debug adapter
    is asked to start or stop skipping, and whether it is asked at all. */
module SkipFile {
  import opened Wrappers

  /** The command's argument: a file path, the reference number of a source
      the adapter generated, or nothing (the command palette passes none). */
  datatype Target =
    | NoArgument
    | FilePath(path: string)
    | SourceReference(reference: int)

  /** JavaScript truthiness of the argument. */
  predicate TargetTruthy(t: Target)
  {
    match t
    case NoArgument => false
    case FilePath(p) => p != ""
    case SourceReference(n) => n != 0
  }

  /** The payload of the request: `{ path }` or `{ sourceReference }`. */
  datatype SkipFileArgs =
    | PathArgs(path: string)
    | SourceReferenceArgs(sourceReference: int)

  /** A custom request sent to the active debug session. */
  datatype Request = Request(command: string, args: SkipFileArgs)

  const ToggleCommand: string := "toggleSkipFileStatus"

  /** `toggleSkippingFile(path)`. `activeEditorFile` is the file name of the
      document in the active editor, `None` when no editor is active;
      `sessionActive` says whether there is an active debug session. The
      result is the one request sent to it, if any. */
  method ToggleSkippingFile(target: Target, activeEditorFile: Option<string>, sessionActive: bool)
    returns (sent: Option<Request>)
    ensures sent.Some? <==>
      sessionActive && (TargetTruthy(target) || (activeEditorFile.Some? && activeEditorFile.value != ""))
    ensures sent.Some? ==> sent.value.command == ToggleCommand
    ensures sent.Some? && target.FilePath? && TargetTruthy(target) ==> sent.value.args == PathArgs(target.path)
    ensures sent.Some? && target.SourceReference? && TargetTruthy(target) ==>
      sent.value.args == SourceReferenceArgs(target.reference)
    ensures sent.Some? && !TargetTruthy(target) ==> sent.value.args == PathArgs(activeEditorFile.value)
  {
    var path := target;
    if !TargetTruthy(path) {
      path := match activeEditorFile
        case None => NoArgument
        case Some(fileName) => FilePath(fileName);
    }
    sent := None;
    if TargetTruthy(path) && sessionActive {
      var args := match path
        case FilePath(p) => PathArgs(p)
        case SourceReference(n) => SourceReferenceArgs(n)
        case NoArgument => PathArgs("");
      sent := Some(Request(ToggleCommand, args));
    }
  }
}
