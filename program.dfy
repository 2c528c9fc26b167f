/** How the extension picks the program to debug from the workspace's
    `package.json`: its `main` field, otherwise the last word of its
    `npm start` script, otherwise nothing. */
module Program {
  import opened Wrappers
  import opened Strings
  import opened JsValues

  /** What reading and parsing `package.json` under the workspace root gave.
      `Unreadable` stands for every way the read or the parse throws (no
      file, no permission, not JSON, a `null` document). `Parsed` holds the
      values of `main`, `scripts` and `scripts.start` as the parsed document
      has them (`Undefined` where a field is missing); `start` is only looked
      at when `scripts` is truthy. */
  datatype Manifest =
    | Unreadable
    | Parsed(main: JsValue, scripts: JsValue, start: JsValue)

  /** The exceptions that escape the configuration command. */
  datatype ProvideError =
      /** `path.join` is given an undefined workspace root outside the `try`. */
    | NoWorkspaceRoot
      /** A truthy `main` that is not a string reaches `path.isAbsolute`. */
    | ProgramNotString

  /** `s.split(' ').pop()`: the part of `s` after its last space, all of `s`
      when it has none. It is a suffix of `s` without a space, and it is
      either all of `s` or preceded by a space; these three facts determine
      it. */
  function LastPiece(s: string): (r: string)
    ensures |r| <= |s| && r == s[|s| - |r|..]
    ensures ' ' !in r
    ensures |r| < |s| ==> s[|s| - |r| - 1] == ' '
  {
    var pieces := Split(s, ' ');
    SplitLastPiece(s, ' ');
    pieces[|pieces| - 1]
  }

  /** The words before the last space do not matter. */
  lemma LastPieceAfterLastSpace(a: string, b: string)
    requires ' ' !in b
    ensures LastPiece(a + " " + b) == b
  {
    var s := a + " " + b;
    var r := LastPiece(s);
    if |r| < |b| {
      assert false;
    } else if |r| > |b| {
      SpaceInSuffix(s, r, |a|);
      assert false;
    }
  }

  /** A position of `s` inside its suffix `r` is a position of `r`. */
  lemma SpaceInSuffix(s: string, r: string, i: nat)
    requires |r| <= |s| && r == s[|s| - |r|..]
    requires |s| - |r| <= i < |s| && s[i] == ' '
    ensures ' ' in r
  {
    assert r[i - (|s| - |r|)] == s[i];
  }

  /** A command without a space is its own last piece. */
  lemma LastPieceWithoutSpace(s: string)
    requires ' ' !in s
    ensures LastPiece(s) == s
  {
    var r := LastPiece(s);
    if |r| < |s| {
      assert false;
    }
  }

  /** A command that ends in a space names no program. */
  lemma LastPieceOfTrailingSpace(a: string)
    ensures LastPiece(a + " ") == ""
  {
    LastPieceAfterLastSpace(a, "");
    assert a + " " + "" == a + " ";
  }

  /** The program named by a parsed manifest, as the `try` block leaves
      `program`. */
  function ManifestProgram(m: Manifest): JsValue
  {
    match m
    case Unreadable => Str("")
    case Parsed(main, scripts, start) =>
      if Truthy(main) then main
      else if Truthy(scripts) && start.Str? then Str(LastPiece(start.s))
      else Str("")
  }

  /** What `getProgram()` returns: the workspace root is needed before
      anything is read, and a missing one is an exception, not an empty
      program. */
  function ProgramOf(root: Option<string>, manifest: Manifest): (r: Result<JsValue, ProvideError>)
    ensures r.Success? <==> root.Some?
    ensures r.Failure? ==> r.error == NoWorkspaceRoot
    ensures r.Success? ==> Truthy(r.value) || r.value == Str("")
  {
    if root.None? then Failure(NoWorkspaceRoot)
    else Success(ManifestProgram(manifest))
  }

  /** `getProgram()` as written: `program` starts empty and each branch of
      the `try` may overwrite it. */
  method GetProgram(root: Option<string>, manifest: Manifest) returns (r: Result<JsValue, ProvideError>)
    ensures r == ProgramOf(root, manifest)
  {
    if root.None? {
      return Failure(NoWorkspaceRoot);
    }
    var program := Str("");
    match manifest {
      case Unreadable =>
      case Parsed(main, scripts, start) =>
        if Truthy(main) {
          program := main;
        } else if Truthy(scripts) && start.Str? {
          program := Str(LastPiece(start.s));
        }
    }
    return Success(program);
  }

  /** The order in which the manifest is consulted: a truthy `main` as it
      is; otherwise, when there is a `scripts` object whose `start` is a
      string, the last piece of that command; otherwise the empty string. */
  lemma ProgramResolutionOrder(root: string, m: Manifest)
    requires m.Parsed?
    ensures Truthy(m.main) ==> ProgramOf(Some(root), m) == Success(m.main)
    ensures !Truthy(m.main) && Truthy(m.scripts) && m.start.Str? ==>
      ProgramOf(Some(root), m) == Success(Str(LastPiece(m.start.s)))
    ensures !Truthy(m.main) && !(Truthy(m.scripts) && m.start.Str?) ==>
      ProgramOf(Some(root), m) == Success(Str(""))
  {
  }

  /** A `start` script that is a number, an array or anything else but a
      string is ignored, whatever `scripts` is. */
  lemma NonStringStartIgnored(root: string, main: JsValue, scripts: JsValue, start: JsValue)
    requires !Truthy(main) && !start.Str?
    ensures ProgramOf(Some(root), Parsed(main, scripts, start)) == Success(Str(""))
  {
  }

  /** Whatever goes wrong reading or parsing the manifest is swallowed: the
      program is empty and the call does not fail. */
  lemma FailedManifestYieldsEmpty(root: string)
    ensures ProgramOf(Some(root), Unreadable) == Success(Str(""))
  {
  }

  /** A `node <file>` start script names the file, and a start script
      whose last word is a flag names the flag: only the last word is taken,
      whatever it is. */
  lemma StartScriptNamesLastWord(root: string, command: string, word: string)
    requires ' ' !in word
    ensures ProgramOf(Some(root), Parsed(Undefined, Compound, Str(command + " " + word)))
      == Success(Str(word))
  {
    LastPieceAfterLastSpace(command, word);
  }

  /** A start script ending in a space names the empty program, even when a
      `main` of `null` is present. */
  lemma StartScriptEndingInSpace(root: string, command: string)
    ensures ProgramOf(Some(root), Parsed(Null, Compound, Str(command + " "))) == Success(Str(""))
  {
    LastPieceOfTrailingSpace(command);
  }

  /** The workspace-relative form of a program path. */
  const WorkspaceFolder: string := "${workspaceFolder}"

  /** `path.isAbsolute(p) ? p : path.join('${workspaceFolder}', p)`, with the
      platform's path functions as parameters. */
  function ResolveProgram(p: string, isAbsolute: string -> bool, join: (string, string) -> string): string
  {
    if isAbsolute(p) then p else join(WorkspaceFolder, p)
  }
}
