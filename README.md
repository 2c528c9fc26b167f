# A verified model of the node-debug2 extension's configuration and skip-file commands

This project models `src/extension.ts`, the one source file of a VS Code
debugger extension. The file has three parts.

- **Entry-point resolution** (`getProgram`). It reads the workspace's
  `package.json` and picks the program to debug:
  - a truthy `main` field;
  - otherwise the last space-separated word of a string `scripts.start`;
  - otherwise the empty string.
- **Initial configurations** (`provideInitialConfigurations`). The source
  keeps a module-level array of two launch records.
  - The command rewrites `program` in the records that have a truthy one.
  - When a TypeScript or CoffeeScript document is open, it adds
    `outFiles: []` to every record.
  - It serialises the records with a tab indent and comments out a first
    `processId` property, if any.
  - It indents every line by one more tab, trims the result and wraps it in
    a fixed seven-line launch document.
- **Skip-file toggling** (`toggleSkippingFile`). It falls back to the active
  editor's file when its argument is falsy. It then sends at most one
  `toggleSkipFileStatus` request to the active debug session, with a `{path}`
  or a `{sourceReference}` payload.

## Modules

| file | module | contents |
|---|---|---|
| `wrappers.dfy` | `Wrappers` | `Option`, `Result` |
| `strings.dfy` | `Strings` | JavaScript `split`, `join`, `indexOf`, first-occurrence `replace` and `trim` |
| `js_values.dfy` | `JsValues` | JavaScript values and truthiness; objects as ordered property lists with property assignment |
| `json_text.dfy` | `JsonText` | `JSON.stringify(records, null, '\t')` for flat records, line by line, with the string-literal escape and its inverse |
| `massage.dfy` | `TextMassage` | the replace / indent / trim chain applied to the serialised text |
| `program.dfy` | `Program` | the manifest, `getProgram`, program path resolution |
| `configurations.dfy` | `Configurations` | the template; the two passes, as a function and as methods of a class over an array; the launch document |
| `skip_file.dfy` | `SkipFile` | the skip-file request decision |

## How the model reads the code

- **Shared state.** The template is one module-level array whose records
  are updated in place by every run. It is never rebuilt. The model follows
  the code: `ConfigurationProvider` holds the records in an `array` that
  every call rewrites.
  - `StateCarriesOver` shows the consequence. Once a manifest has named an
    absolute program, a later call whose manifest cannot be read still
    reports that program, not the template's `${file}`.
  - A reading of the code as "a fresh template per call" would not predict
    this.
  - Running twice with the same inputs still gives the same text
    (`SynthesizeIdempotent`).
- **Exceptions.**
  - `path.join(vscode.workspace.rootPath, ...)` is outside the `try`, so an
    absent workspace root is an exception (`NoWorkspaceRoot`), not an empty
    program.
  - A truthy `main` that is not a string (a number, an object) is returned
    by `getProgram`, and then makes `path.isAbsolute` throw
    (`ProgramNotString`). This happens before either pass, so the records
    are untouched.
- **Reassignments without a loop.** `getProgram` reassigns the local
  `program`, and `toggleSkippingFile` reassigns its parameter. Both are
  methods (`Program.GetProgram`, `SkipFile.ToggleSkippingFile`) with the same
  reassignments.
  - `GetProgram` is proved equal to the function `ProgramOf`, which the
    specification of the configuration command uses.
- **Property assignment.** For a key that is not an array index,
  `config['x'] = v` keeps an existing property in its place and appends a
  new one at the end (`Put`). This is why
  `outFiles` is always the last key (`SynthesizeKeys`).

## Model

| member | source | states |
|---|---|---|
| `Strings.Split` | src/extension.ts:79 | `split` on one character gives at least one piece, and no piece holds the separator |
| `Strings.SplitCount` | src/extension.ts:55 | a split gives one piece more than the text has separators |
| `Strings.JoinSplit` | src/extension.ts:55 | joining the pieces of a split with the same separator gives the text back |
| `Strings.SplitJoin` | src/extension.ts:55 | splitting a join of separator-free lines gives the lines back |
| `Strings.SplitLastPiece` | src/extension.ts:79 | the last piece of a split is the suffix after the last separator, or the whole text when there is none |
| `Strings.Join` | src/extension.ts:55 | `join` on one character; `JoinSplit` and `SplitJoin` state that it is the inverse of `Split` both ways |
| `Strings.IndexOf` | src/extension.ts:54 | `indexOf` finds an occurrence with none before it, and reports none exactly when the pattern occurs nowhere |
| `Strings.ReplaceFirst` | src/extension.ts:54 | `replace` with a string pattern: the first occurrence is replaced; `ReplaceFirstWithoutMatch` and `ReplaceFirstOnlyFirst` state what it computes |
| `Strings.ReplaceFirstWithoutMatch` | src/extension.ts:54 | `replace` with a string pattern leaves a text without the pattern unchanged |
| `Strings.ReplaceFirstOnlyFirst` | src/extension.ts:54 | only the first occurrence is replaced, and everything after it is kept verbatim even if it holds the pattern again |
| `Strings.Trim` | src/extension.ts:55 | `trim` never lengthens the text and leaves no whitespace at either end |
| `Strings.TrimKeepsMiddle` | src/extension.ts:55 | what `trim` keeps is a contiguous middle of the text with only whitespace before and after it |
| `JsValues.Truthy` | src/extension.ts:37 | JavaScript truthiness of `if (v)`; `ProgramOf`, `ProgramResolutionOrder` and `WithProgramGet` state its effect on lines 37, 40, 76 and 78 |
| `JsValues.Keys` | src/extension.ts:40-41 | the keys of an object in property order |
| `JsValues.Get` | src/extension.ts:40 | reading a missing key gives `undefined`; reading a present key gives the value of the property with that key |
| `JsValues.Put` | src/extension.ts:41 | assignment to a key that is not an array index keeps the key order and appends a new key at the end; every property is the assigned one or an old one |
| `JsValues.GetPut` | src/extension.ts:41 | after an assignment the key reads the new value and every other key reads as before |
| `JsValues.PutNewKeyAppends` | src/extension.ts:49 | assigning a key the object does not have appends exactly that property |
| `JsValues.PutKeepsKeysUnique` | src/extension.ts:41 | assignment never creates a second property with the same key |
| `JsValues.PutIdempotent` | src/extension.ts:41 | assigning the same value twice is assigning it once |
| `JsValues.PutExistingCommutes` | src/extension.ts:41 | overwriting an existing property commutes with an assignment to another key |
| `JsonText.EscapeChar` | src/extension.ts:54 | a plain character is written as itself; any other is written as a backslash escape; no control character is written raw |
| `JsonText.Quote` | src/extension.ts:54 | a string literal is quoted at both ends and holds no control character |
| `JsonText.UnquoteQuote` | src/extension.ts:54 | reading a written string literal back gives the original string |
| `JsonText.DecimalValueNatText` | src/extension.ts:54 | reading a written non-negative integer back gives the integer |
| `JsonText.ValueText` | src/extension.ts:54 | no written value holds a line feed |
| `JsonText.PropertyLine` | src/extension.ts:54 | one property line of the tab-indented serialisation; `PropertyLineNotProcessId` states that it opens a `processId` property only for such a key |
| `JsonText.ObjectLines` | src/extension.ts:54 | the lines of one record; `ObjectLinesNotProcessId` states that none opens a `processId` property when the record has no such key |
| `JsonText.ArrayLines` | src/extension.ts:54 | the lines of the serialised array; `ArrayLinesAreSingle` and `ArrayLinesBracketed` state that they hold no line feed and open with `[` and close with `]` |
| `JsonText.Stringify` | src/extension.ts:54 | `JSON.stringify(records, null, '\t')`; `StringifyLines` and `StringifyHasNoProcessId` state its lines and that the `processId` pattern does not occur |
| `JsonText.StringifyLines` | src/extension.ts:54 | the serialised text splits on line feeds exactly into the serialiser's lines |
| `JsonText.ArrayLinesBracketed` | src/extension.ts:54 | the serialised array's first line opens with `[` and its last line closes with `]` |
| `JsonText.StringifyHasNoProcessId` | src/extension.ts:54 | records with no key starting with `processId` serialise to a text with no `,\n\t\t"processId` in it |
| `TextMassage.IndentIsTabAfterNewlines` | src/extension.ts:55 | indenting line by line puts a tab in front of the text and after each line feed, and changes nothing else |
| `TextMassage.IndentKeepsLines` | src/extension.ts:55 | indenting keeps the number of lines, and each line is the original with exactly one tab in front |
| `TextMassage.TrimTabbed` | src/extension.ts:55 | trimming a tab-prefixed text with visible ends removes just that tab |
| `TextMassage.MassageOfBracketedText` | src/extension.ts:54-55 | for a text with visible ends and no `processId` line, the massage is exactly a tab after every line feed: the tab indentation adds in front of the first line is trimmed away again |
| `TextMassage.MassagedBracketedLines` | src/extension.ts:54-55 | for such a text, the massage keeps the first line as it is and gives every later line exactly one more tab |
| `TextMassage.PrefixEach` | src/extension.ts:55 | `map(line => '\t' + line)`; `IndentKeepsLines` states that every line gains exactly one tab |
| `TextMassage.Indent` | src/extension.ts:55 | `split('\n').map(...).join('\n')`; `IndentIsTabAfterNewlines` and `IndentKeepsLines` state what it computes |
| `TextMassage.Massage` | src/extension.ts:54-55 | replace, indent, trim; `MassageOfBracketedText`, `MassagedBracketedLines` and `Configurations.MassagedLines` state what it computes for the serialised records |
| `Program.LastPiece` | src/extension.ts:79 | `split(' ').pop()` is a space-free suffix that is either the whole command or preceded by a space |
| `Program.LastPieceAfterLastSpace` | src/extension.ts:79 | the words before the last space do not matter |
| `Program.LastPieceWithoutSpace` | src/extension.ts:79 | a command without a space is its own last piece |
| `Program.LastPieceOfTrailingSpace` | src/extension.ts:79 | a command ending in a space yields the empty string |
| `Program.ProgramOf` | src/extension.ts:68-84 | the result is an exception exactly when the workspace root is absent; otherwise it is truthy or exactly `""` |
| `Program.GetProgram` | src/extension.ts:68-84 | the imperative `getProgram`, with `program` reassigned across branches, returns `ProgramOf` |
| `Program.ManifestProgram` | src/extension.ts:73-81 | the value the `try` block leaves in `program`; `ProgramResolutionOrder`, `NonStringStartIgnored` and `FailedManifestYieldsEmpty` state it case by case |
| `Program.ResolveProgram` | src/extension.ts:38 | `path.isAbsolute(p) ? p : path.join('${workspaceFolder}', p)`; `Configurations.ProgramToWrite` and `Configurations.ProgramStored` state its effect |
| `Program.ProgramResolutionOrder` | src/extension.ts:76-80 | a truthy `main` is returned verbatim; otherwise a string `scripts.start` under truthy `scripts` yields its last piece; otherwise `""` |
| `Program.NonStringStartIgnored` | src/extension.ts:78 | a non-string `scripts.start` is ignored |
| `Program.FailedManifestYieldsEmpty` | src/extension.ts:73-81 | any failure to read or parse the manifest yields `""` and no exception |
| `Program.StartScriptNamesLastWord` | src/extension.ts:79 | `<command> <word>` names `<word>`, a trailing flag included |
| `Program.StartScriptEndingInSpace` | src/extension.ts:79 | a start script ending in a space names the empty program |
| `Configurations.InitialConfigurationsWellFormed` | src/extension.ts:11-24 | the template's values can be serialised, its keys are unique per record, and none starts with `processId` |
| `Configurations.LaunchTemplate` | src/extension.ts:12-17 | the launch record; `LaunchTemplateProgram` states its `program` is `${file}` |
| `Configurations.AttachTemplate` | src/extension.ts:18-23 | the attach record; `AttachRecordUnchanged` states what a run from the template does to it |
| `Configurations.InitialConfigurations` | src/extension.ts:11-24 | the two-record template; `InitialConfigurationsWellFormed` states that it is well formed |
| `Configurations.LaunchTemplateProgram` | src/extension.ts:16 | the launch record's `program` is `${file}` |
| `Configurations.WithProgram` | src/extension.ts:40-42 | one step of the first `forEach`; `WithProgramGet` and `WithProgramIdempotent` state what it computes |
| `Configurations.ProgramPass` | src/extension.ts:39-43 | the first `forEach` over all records; `ProgramPassKeepsWellFormed` and `ConfigurationProvider.RewritePrograms` state what it computes |
| `Configurations.WithOutFiles` | src/extension.ts:49 | one step of the second `forEach`; `WithOutFilesGet` states what it computes |
| `Configurations.OutFilesPass` | src/extension.ts:48-50 | the second `forEach` over all records; `OutFilesPassKeepsWellFormed` and `ConfigurationProvider.AddOutFiles` state what it computes |
| `Configurations.HasSourceMappedDocument` | src/extension.ts:47 | some open document is TypeScript or CoffeeScript; `SynthesizeGet` and `SynthesizeKeys` state that exactly then `outFiles` is set |
| `Configurations.ProgramToWrite` | src/extension.ts:37-38 | nothing is written for a falsy program; an absolute program is written verbatim and a relative one joined under `${workspaceFolder}` |
| `Configurations.Synthesize` | src/extension.ts:34-50 | a run fails exactly when the root is absent (`NoWorkspaceRoot`) or the program is truthy but not a string (`ProgramNotString`); otherwise it keeps the number of records |
| `Configurations.WithProgramGet` | src/extension.ts:40-41 | one step of the first pass changes only `program`, and only where it was truthy |
| `Configurations.WithOutFilesGet` | src/extension.ts:49 | one step of the second pass changes only `outFiles`, which becomes `[]` |
| `Configurations.SynthesizeGet` | src/extension.ts:37-50 | after a run, `outFiles` is `[]` where a TypeScript or CoffeeScript document is open; `program` is the resolved program where it was truthy and the manifest names one; every other property keeps its value |
| `Configurations.IdentityFieldsKept` | src/extension.ts:37-50 | `name`, `type` and `request` are never modified |
| `Configurations.ProgramStored` | src/extension.ts:37-42 | a record with a truthy program receives the absolute program verbatim, or the relative one joined under `${workspaceFolder}` |
| `Configurations.SynthesizeKeys` | src/extension.ts:39-50 | keys keep their order, and `outFiles` is appended at the end where it was missing |
| `Configurations.EmptyProgramChangesNothing` | src/extension.ts:37-50 | with an empty program and no TypeScript or CoffeeScript document, no record changes |
| `Configurations.AttachRecordUnchanged` | src/extension.ts:18-23 | a run from the template leaves the attach record, which has no `program`, as it was or extends it by `outFiles: []` alone |
| `Configurations.RecordWithoutProgramKept` | src/extension.ts:39-50 | in any state, a run leaves a record without a truthy `program` as it was, or only sets its `outFiles` to `[]` |
| `Configurations.PutKeepsWellFormed` | src/extension.ts:41 | assigning a serialisable value to a key that does not start with `processId` keeps a record well formed |
| `Configurations.ProgramPassKeepsWellFormed` | src/extension.ts:39-43 | the first pass keeps the records well formed |
| `Configurations.OutFilesPassKeepsWellFormed` | src/extension.ts:48-50 | the second pass keeps the records well formed |
| `Configurations.SynthesizeKeepsWellFormed` | src/extension.ts:37-50 | a successful run keeps the records well formed |
| `Configurations.WithProgramIdempotent` | src/extension.ts:39-43 | the first pass does nothing more the second time |
| `Configurations.WithProgramAfterOutFiles` | src/extension.ts:39-50 | adding `outFiles` does not change which records the first pass rewrites, and the two writes commute |
| `Configurations.SynthesizeIdempotent` | src/extension.ts:37-50 | a second run with the same inputs leaves the records as the first left them, so repeated calls return the same text |
| `Configurations.StateCarriesOver` | src/extension.ts:11-43 | the records persist between calls: a program written by one call is still reported by a later call whose manifest is unreadable |
| `Configurations.ProcessIdRewriteIsNoOp` | src/extension.ts:54 | records without a `processId` key pass through the `processId` rewrite unchanged |
| `Configurations.StringifyBracketed` | src/extension.ts:54 | the serialised text opens with `[` and closes with `]` |
| `Configurations.MassagedLines` | src/extension.ts:54-55 | the massaged text's lines are the serialised lines, the first unchanged and every later one with one more tab |
| `Configurations.WrappedLines` | src/extension.ts:57-65 | joining separator-free lines around a text puts the text's first line after the key and keeps its other lines |
| `Configurations.HeaderSingleLines` | src/extension.ts:58-62 | no fixed header line holds a line feed |
| `Configurations.DocumentLines` | src/extension.ts:57-64 | the seven lines of the returned document (the fixed `Header` lines, the configurations line, `}`); `DocumentSplit` and `DocumentFrame` state them |
| `Configurations.Document` | src/extension.ts:57-65 | their `join('\n')`; `DocumentSplit` states that it splits back into those lines |
| `Configurations.ConfigurationText` | src/extension.ts:53-65 | the text the command returns; `ConfigurationTextLines` and `ConfigurationTextFrame` state it line by line |
| `Configurations.DocumentSplit` | src/extension.ts:57-65 | the document is the five header lines, the configurations key with the first massaged line, the other massaged lines, and `}` |
| `Configurations.ConfigurationTextLines` | src/extension.ts:53-65 | the returned text, line by line: the header, `"configurations": ` with the serialised array's first line, its other lines each with one more tab, and `}` |
| `Configurations.ConfigurationTextFrame` | src/extension.ts:57-65 | the document opens with `{`, has the version on line 5 and `"configurations": [` on line 6, closes with `}`, and has six lines more than the serialised array |
| `Configurations.DocumentFrame` | src/extension.ts:57-65 | the fixed frame of the document around any massaged lines |
| `Configurations.ConfigurationProvider.constructor` | src/extension.ts:11-24 | the records start as the two-record template, well formed |
| `Configurations.ConfigurationProvider.RewritePrograms` | src/extension.ts:39-43 | the `forEach` loop leaves the array equal to the first pass over its old contents, and keeps it well formed |
| `Configurations.ConfigurationProvider.AddOutFiles` | src/extension.ts:48-50 | the `forEach` loop leaves the array equal to the second pass over its old contents, and keeps it well formed |
| `Configurations.ConfigurationProvider.ProvideInitialConfigurations` | src/extension.ts:34-66 | on success the array holds the synthesized records and the result is their document; on an exception the array is unchanged and the error is returned |
| `SkipFile.ToggleSkippingFile` | src/extension.ts:86-96 | a request is sent exactly when a session is active and the argument, or else the active editor's file name, is truthy; it is always `toggleSkipFileStatus`, and its payload is `{path}` for a path, `{sourceReference}` for a number, and the editor's file for a falsy argument |
| `SkipFile.TargetTruthy` | src/extension.ts:87 | truthiness of the argument at lines 87 and 92; `ToggleSkippingFile` states its effect |

## Left out

- `activate` and `deactivate` (src/extension.ts:26-32) only register the two commands with the host. Command registration is host plumbing with nothing to prove.
- The VS Code host API is modelled as plain inputs and outputs:
  - `workspace.rootPath` is an `Option<string>`.
  - `workspace.textDocuments` is the sequence of their language ids.
  - `window.activeTextEditor` is the optional file name of its document.
  - `debug.activeDebugSession` is a flag.
  - `customRequest` is the returned request value. Its promise is ignored, as the source ignores it.
- `fs.readFileSync` and `JSON.parse` (src/extension.ts:74-75) are I/O and a foreign parser.
  - The manifest is given already parsed, as the values of `main`, `scripts` and `scripts.start`.
  - `Unreadable` stands for every way reading or parsing throws.
- General `JSON.stringify` is not modelled. Only the shape the records can take is serialised: flat objects whose values are `null`, booleans, integers, strings or `[]`.
  - Fractional numbers, exponent forms from 1e21 up, `NaN`, `Infinity` and `-0` are outside the model.
  - Strings holding lone surrogates are outside the model. A `main` with the escape `\ud800` gives one after `JSON.parse`, and `JSON.stringify` writes it back as `\ud800`; a Dafny `char` is a Unicode scalar value and cannot hold it.
- Keys that are array indices (`"0"`, `"5"`) are not modelled: JavaScript lists them first, in ascending order, whatever the order of assignment. `Put` and `Stringify` keep insertion order, which is the order for every key the records hold or are assigned (`name`, `type`, `request`, `program`, `port`, `outFiles`).
- `path.isAbsolute` and `path.join` are uninterpreted function parameters, because their results depend on the platform. An absolute path passes through unchanged and a relative one is given to `join`.
- Array element aliasing: the two records are held by value in the array's slots. The source's records are objects that nothing else references, so no update through another reference exists to be modelled.
- `SkipFile.ToggleSkippingFile`: a numeric argument is an integer. `NaN` (falsy) and fractional source references are not modelled.
- The `vscode-chrome-debug-core` library and what the debug adapter does with the request are outside this file. Only the payload shape is modelled.
