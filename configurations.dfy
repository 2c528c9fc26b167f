/** The initial launch configurations the extension offers: the module-level
    template of two records, the two passes that rewrite it in place, and the
    launch document built from its serialised form. */
module Configurations {
  import opened Wrappers
  import opened Strings
  import opened JsValues
  import opened JsonText
  import opened TextMassage
  import opened Program

  /* ---------------------------------------------------------------------- */
  /* the template                                                           */
  /* ---------------------------------------------------------------------- */

  /** The record that launches the file in the active editor. */
  function LaunchTemplate(): JsObject
  {
    [ Property("name", Str("Launch Program")),
      Property("type", Str("bazis2")),
      Property("request", Str("launch")),
      Property("program", Str("${file}")) ]
  }

  /** The record that attaches to a process listening on the inspector port. */
  function AttachTemplate(): JsObject
  {
    [ Property("name", Str("Attach to Process")),
      Property("type", Str("bazis2")),
      Property("request", Str("attach")),
      Property("port", Number(9229)) ]
  }

  function InitialConfigurations(): seq<JsObject>
  {
    [LaunchTemplate(), AttachTemplate()]
  }

  /** What every state of the records satisfies: each value can be
      serialised, no key opens with `processId`, and no key appears twice in
      a record. */
  predicate WellFormed(rs: seq<JsObject>)
  {
    PrintableObjects(rs) && NoProcessIdKey(rs) &&
    forall i :: 0 <= i < |rs| ==> UniqueKeys(rs[i])
  }

  lemma InitialConfigurationsWellFormed()
    ensures WellFormed(InitialConfigurations())
  {
  }

  /* ---------------------------------------------------------------------- */
  /* the two passes                                                          */
  /* ---------------------------------------------------------------------- */

  /** One step of the first `forEach`: a record whose `program` is truthy
      gets the new program, any other record is left alone. */
  function WithProgram(o: JsObject, program: string): JsObject
  {
    if Truthy(Get(o, "program")) then Put(o, "program", Str(program)) else o
  }

  /** One step of the second `forEach`: `outFiles` becomes `[]`. */
  function WithOutFiles(o: JsObject): JsObject
  {
    Put(o, "outFiles", EmptyArray)
  }

  function ProgramPass(rs: seq<JsObject>, program: string): (r: seq<JsObject>)
    ensures |r| == |rs|
  {
    seq(|rs|, i requires 0 <= i < |rs| => WithProgram(rs[i], program))
  }

  function OutFilesPass(rs: seq<JsObject>): (r: seq<JsObject>)
    ensures |r| == |rs|
  {
    seq(|rs|, i requires 0 <= i < |rs| => WithOutFiles(rs[i]))
  }

  /** Some open document is TypeScript or CoffeeScript source. */
  predicate HasSourceMappedDocument(languageIds: seq<string>)
  {
    exists i :: 0 <= i < |languageIds| && (languageIds[i] == "typescript" || languageIds[i] == "coffeescript")
  }

  /** The string the first pass writes, if it runs at all: nothing for a
      falsy program, the program itself when it is absolute, and the program
      joined under `${workspaceFolder}` otherwise. */
  function ProgramToWrite(program: JsValue, isAbsolute: string -> bool, join: (string, string) -> string): (w: Option<string>)
    requires !Truthy(program) || program.Str?
    ensures w.None? <==> !Truthy(program)
    ensures w.Some? && isAbsolute(program.s) ==> w.value == program.s
    ensures w.Some? && !isAbsolute(program.s) ==> w.value == join(WorkspaceFolder, program.s)
  {
    if Truthy(program) then Some(ResolveProgram(program.s, isAbsolute, join)) else None
  }

  /** What one run of the command does to the records, or the exception it
      ends with. The platform's `path.isAbsolute` and `path.join` are
      parameters. */
  function Synthesize(rs: seq<JsObject>, root: Option<string>, manifest: Manifest, languageIds: seq<string>,
                      isAbsolute: string -> bool, join: (string, string) -> string): (r: Result<seq<JsObject>, ProvideError>)
    ensures r.Failure? <==> root.None? || (Truthy(ManifestProgram(manifest)) && !ManifestProgram(manifest).Str?)
    ensures r.Failure? && root.None? ==> r.error == NoWorkspaceRoot
    ensures r.Failure? && root.Some? ==> r.error == ProgramNotString
    ensures r.Success? ==> |r.value| == |rs|
  {
    match ProgramOf(root, manifest)
    case Failure(e) => Failure(e)
    case Success(program) =>
      if Truthy(program) && !program.Str? then Failure(ProgramNotString)
      else
        var rewritten := match ProgramToWrite(program, isAbsolute, join)
          case None => rs
          case Some(p) => ProgramPass(rs, p);
        Success(if HasSourceMappedDocument(languageIds) then OutFilesPass(rewritten) else rewritten)
  }

  /* ---------------------------------------------------------------------- */
  /* the launch document                                                    */
  /* ---------------------------------------------------------------------- */

  /** The three comment lines of the document. Each is written as a few
      shorter literals so that the verifier can read them character by
      character. */
  const IntelliSenseComment: string :=
    "\t// Use IntelliSense to find out " + "which attributes exist " + "for node debugging"
  const HoverComment: string :=
    "\t// Use hover for the " + "description of the existing " + "attributes"
  const FurtherInformationComment: string :=
    "\t// For further information " + "visit https://go.microsoft.com" + "/fwlink/?linkid=830387"

  /** The five fixed lines in front of the configurations. */
  const Header: seq<string> := [
    "{",
    IntelliSenseComment,
    HoverComment,
    FurtherInformationComment,
    "\t\"version\": \"0.2.0\","
  ]

  const ConfigurationsKey: string := "\t\"configurations\": "

  /** The seven lines of the document before they are joined. */
  function DocumentLines(massaged: string): seq<string>
  {
    Header + [ConfigurationsKey + massaged, "}"]
  }

  function Document(massaged: string): string
  {
    Join(DocumentLines(massaged), '\n')
  }

  /** The text the command returns for the records as they stand. */
  function ConfigurationText(rs: seq<JsObject>): string
    requires PrintableObjects(rs)
  {
    Document(Massage(Stringify(rs)))
  }

  /* ---------------------------------------------------------------------- */
  /* the records                                                             */
  /* ---------------------------------------------------------------------- */

  /** The first pass touches only `program`, and only where it was truthy. */
  lemma WithProgramGet(o: JsObject, program: string, k: string)
    ensures Get(WithProgram(o, program), k) ==
      if k == "program" && Truthy(Get(o, "program")) then Str(program) else Get(o, k)
  {
    if Truthy(Get(o, "program")) {
      GetPut(o, "program", Str(program), k);
    }
  }

  /** The second pass touches only `outFiles`. */
  lemma WithOutFilesGet(o: JsObject, k: string)
    ensures Get(WithOutFiles(o), k) == if k == "outFiles" then EmptyArray else Get(o, k)
  {
    GetPut(o, "outFiles", EmptyArray, k);
  }

  /** Which property of which record a successful run changes, and to what:
      `outFiles` is `[]` everywhere when a TypeScript or CoffeeScript document
      is open; `program` takes the resolved program where it was truthy and
      the manifest names a program; every other property keeps its value. */
  lemma {:induction false} SynthesizeGet(rs: seq<JsObject>, root: Option<string>, manifest: Manifest, languageIds: seq<string>,
                                         isAbsolute: string -> bool, join: (string, string) -> string, i: nat, k: string)
    requires Synthesize(rs, root, manifest, languageIds, isAbsolute, join).Success?
    requires i < |rs|
    ensures var after := Synthesize(rs, root, manifest, languageIds, isAbsolute, join).value;
      var w := ProgramToWrite(ManifestProgram(manifest), isAbsolute, join);
      Get(after[i], k) ==
        if k == "outFiles" && HasSourceMappedDocument(languageIds) then EmptyArray
        else if k == "program" && w.Some? && Truthy(Get(rs[i], "program")) then Str(w.value)
        else Get(rs[i], k)
  {
    var program := ManifestProgram(manifest);
    var w := ProgramToWrite(program, isAbsolute, join);
    var rewritten := if w.Some? then ProgramPass(rs, w.value) else rs;
    if w.Some? {
      WithProgramGet(rs[i], w.value, k);
    }
    if HasSourceMappedDocument(languageIds) {
      WithOutFilesGet(rewritten[i], k);
    }
  }

  /** `name`, `type` and `request` are never modified. */
  lemma IdentityFieldsKept(rs: seq<JsObject>, root: Option<string>, manifest: Manifest, languageIds: seq<string>,
                           isAbsolute: string -> bool, join: (string, string) -> string, i: nat)
    requires Synthesize(rs, root, manifest, languageIds, isAbsolute, join).Success?
    requires i < |rs|
    ensures var after := Synthesize(rs, root, manifest, languageIds, isAbsolute, join).value;
      Get(after[i], "name") == Get(rs[i], "name") &&
      Get(after[i], "type") == Get(rs[i], "type") &&
      Get(after[i], "request") == Get(rs[i], "request")
  {
    SynthesizeGet(rs, root, manifest, languageIds, isAbsolute, join, i, "name");
    SynthesizeGet(rs, root, manifest, languageIds, isAbsolute, join, i, "type");
    SynthesizeGet(rs, root, manifest, languageIds, isAbsolute, join, i, "request");
  }

  /** An absolute program from the manifest is stored verbatim in every
      record that had a truthy program; a relative one is stored joined under
      `${workspaceFolder}`. */
  lemma ProgramStored(rs: seq<JsObject>, root: string, manifest: Manifest, languageIds: seq<string>,
                      isAbsolute: string -> bool, join: (string, string) -> string, i: nat)
    requires ManifestProgram(manifest).Str? && ManifestProgram(manifest).s != ""
    requires i < |rs| && Truthy(Get(rs[i], "program"))
    ensures var r := Synthesize(rs, Some(root), manifest, languageIds, isAbsolute, join);
      var p := ManifestProgram(manifest).s;
      r.Success? &&
      Get(r.value[i], "program") == Str(if isAbsolute(p) then p else join(WorkspaceFolder, p))
  {
    SynthesizeGet(rs, Some(root), manifest, languageIds, isAbsolute, join, i, "program");
  }

  /** Keys keep their order; `outFiles` is added after all others where it
      was missing. */
  lemma {:induction false} SynthesizeKeys(rs: seq<JsObject>, root: Option<string>, manifest: Manifest, languageIds: seq<string>,
                                          isAbsolute: string -> bool, join: (string, string) -> string, i: nat)
    requires Synthesize(rs, root, manifest, languageIds, isAbsolute, join).Success?
    requires i < |rs|
    ensures var after := Synthesize(rs, root, manifest, languageIds, isAbsolute, join).value;
      Keys(after[i]) ==
        if HasSourceMappedDocument(languageIds) && "outFiles" !in Keys(rs[i]) then Keys(rs[i]) + ["outFiles"]
        else Keys(rs[i])
  {
    var w := ProgramToWrite(ManifestProgram(manifest), isAbsolute, join);
    var rewritten := if w.Some? then ProgramPass(rs, w.value) else rs;
    if w.Some? && Truthy(Get(rs[i], "program")) {
      assert "program" in Keys(rs[i]);
    }
    assert Keys(rewritten[i]) == Keys(rs[i]);
  }

  /** An empty program and no TypeScript or CoffeeScript document: nothing
      changes, whatever state the records were left in. */
  lemma EmptyProgramChangesNothing(rs: seq<JsObject>, root: string, manifest: Manifest, languageIds: seq<string>,
                                   isAbsolute: string -> bool, join: (string, string) -> string)
    requires !Truthy(ManifestProgram(manifest)) && !HasSourceMappedDocument(languageIds)
    ensures Synthesize(rs, Some(root), manifest, languageIds, isAbsolute, join) == Success(rs)
  {
  }

  /** The attach record has no `program`, so it only ever gains `outFiles`. */
  lemma AttachRecordUnchanged(root: string, manifest: Manifest, languageIds: seq<string>,
                              isAbsolute: string -> bool, join: (string, string) -> string)
    requires !Truthy(ManifestProgram(manifest)) || ManifestProgram(manifest).Str?
    ensures var r := Synthesize(InitialConfigurations(), Some(root), manifest, languageIds, isAbsolute, join);
      r.Success? &&
      r.value[1] == if HasSourceMappedDocument(languageIds)
                    then AttachTemplate() + [Property("outFiles", EmptyArray)]
                    else AttachTemplate()
  {
    var w := ProgramToWrite(ManifestProgram(manifest), isAbsolute, join);
    var rewritten := if w.Some? then ProgramPass(InitialConfigurations(), w.value) else InitialConfigurations();
    AttachTemplateKeys();
    assert rewritten[1] == AttachTemplate() by {
      if w.Some? {
        assert WithProgram(AttachTemplate(), w.value) == AttachTemplate();
      }
    }
    if HasSourceMappedDocument(languageIds) {
      PutNewKeyAppends(AttachTemplate(), "outFiles", EmptyArray);
      assert OutFilesPass(rewritten)[1] == WithOutFiles(AttachTemplate());
    }
  }

  /** In any state, a record without a truthy `program` is left as it is by a
      run, or only has `outFiles` set to `[]`. */
  lemma RecordWithoutProgramKept(rs: seq<JsObject>, root: Option<string>, manifest: Manifest, languageIds: seq<string>,
                                 isAbsolute: string -> bool, join: (string, string) -> string, i: nat)
    requires Synthesize(rs, root, manifest, languageIds, isAbsolute, join).Success?
    requires i < |rs| && !Truthy(Get(rs[i], "program"))
    ensures var after := Synthesize(rs, root, manifest, languageIds, isAbsolute, join).value;
      after[i] == if HasSourceMappedDocument(languageIds) then WithOutFiles(rs[i]) else rs[i]
  {
    var w := ProgramToWrite(ManifestProgram(manifest), isAbsolute, join);
    var rewritten := if w.Some? then ProgramPass(rs, w.value) else rs;
    assert rewritten[i] == rs[i];
  }

  lemma AttachTemplateKeys()
    ensures "program" !in Keys(AttachTemplate()) && "outFiles" !in Keys(AttachTemplate())
  {
    assert Keys(AttachTemplate()) == ["name", "type", "request", "port"];
  }

  /* ---------------------------------------------------------------------- */
  /* the state the records are kept in                                       */
  /* ---------------------------------------------------------------------- */

  /** Assignment keeps a record well formed as long as the key does not open
      with `processId` and the value can be serialised. */
  lemma PutKeepsWellFormed(o: JsObject, key: string, v: JsValue)
    requires PrintableObject(o) && NoProcessIdKeyIn(o) && UniqueKeys(o)
    requires Printable(v) && !("processId" <= key)
    ensures var r := Put(o, key, v);
      PrintableObject(r) && NoProcessIdKeyIn(r) && UniqueKeys(r)
  {
    PutKeepsKeysUnique(o, key, v);
    var r := Put(o, key, v);
    forall i | 0 <= i < |r| ensures Printable(r[i].value) && !("processId" <= r[i].key) {
      if r[i] != Property(key, v) {
        var j :| 0 <= j < |o| && o[j] == r[i];
      }
    }
  }

  /** A run never breaks what every state of the records satisfies. */
  lemma SynthesizeKeepsWellFormed(rs: seq<JsObject>, root: Option<string>, manifest: Manifest, languageIds: seq<string>,
                                  isAbsolute: string -> bool, join: (string, string) -> string)
    requires WellFormed(rs)
    requires Synthesize(rs, root, manifest, languageIds, isAbsolute, join).Success?
    ensures WellFormed(Synthesize(rs, root, manifest, languageIds, isAbsolute, join).value)
  {
    var w := ProgramToWrite(ManifestProgram(manifest), isAbsolute, join);
    var rewritten := if w.Some? then ProgramPass(rs, w.value) else rs;
    if w.Some? {
      ProgramPassKeepsWellFormed(rs, w.value);
    }
    if HasSourceMappedDocument(languageIds) {
      OutFilesPassKeepsWellFormed(rewritten);
    }
  }

  lemma ProgramPassKeepsWellFormed(rs: seq<JsObject>, program: string)
    requires WellFormed(rs)
    ensures WellFormed(ProgramPass(rs, program))
  {
    forall i | 0 <= i < |rs|
      ensures var o := ProgramPass(rs, program)[i];
        PrintableObject(o) && NoProcessIdKeyIn(o) && UniqueKeys(o)
    {
      if Truthy(Get(rs[i], "program")) {
        PutKeepsWellFormed(rs[i], "program", Str(program));
      }
    }
  }

  lemma OutFilesPassKeepsWellFormed(rs: seq<JsObject>)
    requires WellFormed(rs)
    ensures WellFormed(OutFilesPass(rs))
  {
    forall i | 0 <= i < |rs|
      ensures var o := OutFilesPass(rs)[i];
        PrintableObject(o) && NoProcessIdKeyIn(o) && UniqueKeys(o)
    {
      PutKeepsWellFormed(rs[i], "outFiles", EmptyArray);
    }
  }

  /** Each pass does nothing the second time. */
  lemma WithProgramIdempotent(o: JsObject, program: string)
    ensures WithProgram(WithProgram(o, program), program) == WithProgram(o, program)
  {
    if Truthy(Get(o, "program")) {
      PutIdempotent(o, "program", Str(program));
      GetPut(o, "program", Str(program), "program");
    }
  }

  /** Adding `outFiles` does not change which records the first pass picks,
      and the two assignments commute. */
  lemma WithProgramAfterOutFiles(o: JsObject, program: string)
    ensures WithProgram(WithOutFiles(o), program) == WithOutFiles(WithProgram(o, program))
  {
    GetPut(o, "outFiles", EmptyArray, "program");
    if Truthy(Get(o, "program")) {
      PutExistingCommutes(o, "program", Str(program), "outFiles", EmptyArray);
    }
  }

  /** Running again with the same inputs changes nothing more, so repeated
      calls return the same text. */
  lemma {:induction false} SynthesizeIdempotent(rs: seq<JsObject>, root: Option<string>, manifest: Manifest, languageIds: seq<string>,
                                                isAbsolute: string -> bool, join: (string, string) -> string)
    requires Synthesize(rs, root, manifest, languageIds, isAbsolute, join).Success?
    ensures var once := Synthesize(rs, root, manifest, languageIds, isAbsolute, join).value;
      Synthesize(once, root, manifest, languageIds, isAbsolute, join) == Success(once)
  {
    var once := Synthesize(rs, root, manifest, languageIds, isAbsolute, join).value;
    var w := ProgramToWrite(ManifestProgram(manifest), isAbsolute, join);
    var rewritten := if w.Some? then ProgramPass(rs, w.value) else rs;
    var outFiles := HasSourceMappedDocument(languageIds);
    var twice := Synthesize(once, root, manifest, languageIds, isAbsolute, join).value;
    assert |twice| == |once|;
    forall i | 0 <= i < |once| ensures twice[i] == once[i] {
      var o := rs[i];
      if w.Some? {
        var p := w.value;
        WithProgramIdempotent(o, p);
        if outFiles {
          WithProgramAfterOutFiles(WithProgram(o, p), p);
          PutIdempotent(WithProgram(o, p), "outFiles", EmptyArray);
          assert once[i] == WithOutFiles(WithProgram(o, p));
          assert twice[i] == WithOutFiles(WithProgram(once[i], p));
        } else {
          assert once[i] == WithProgram(o, p);
          assert twice[i] == WithProgram(once[i], p);
        }
      } else if outFiles {
        PutIdempotent(o, "outFiles", EmptyArray);
        assert once[i] == WithOutFiles(o);
        assert twice[i] == WithOutFiles(once[i]);
      }
    }
    assert twice == once;
  }

  /** The records are kept between runs: once a manifest has named an
      absolute program, a later run in a workspace whose manifest cannot be
      read still reports that program rather than the template's
      `${file}`. */
  lemma StateCarriesOver(root: string, program: string, isAbsolute: string -> bool, join: (string, string) -> string)
    requires program != "" && isAbsolute(program)
    ensures var first := Synthesize(InitialConfigurations(), Some(root), Parsed(Str(program), Undefined, Undefined), [], isAbsolute, join);
      first.Success? &&
      var second := Synthesize(first.value, Some(root), Unreadable, [], isAbsolute, join);
      second == first &&
      Get(second.value[0], "program") == Str(program) &&
      Get(InitialConfigurations()[0], "program") == Str("${file}")
  {
    var m := Parsed(Str(program), Undefined, Undefined);
    assert ManifestProgram(m) == Str(program);
    var first := Synthesize(InitialConfigurations(), Some(root), m, [], isAbsolute, join);
    LaunchTemplateProgram();
    ProgramStored(InitialConfigurations(), root, m, [], isAbsolute, join, 0);
    EmptyProgramChangesNothing(first.value, root, Unreadable, [], isAbsolute, join);
  }

  lemma LaunchTemplateProgram()
    ensures Get(InitialConfigurations()[0], "program") == Str("${file}")
  {
    assert InitialConfigurations()[0] == LaunchTemplate();
    assert Keys(LaunchTemplate()) == ["name", "type", "request", "program"];
  }

  /* ---------------------------------------------------------------------- */
  /* the text                                                                */
  /* ---------------------------------------------------------------------- */

  /** The `processId` rewrite never fires on records that have no such key:
      the serialised text goes through it unchanged. */
  lemma ProcessIdRewriteIsNoOp(rs: seq<JsObject>)
    requires PrintableObjects(rs) && NoProcessIdKey(rs)
    ensures ReplaceFirst(Stringify(rs), ProcessIdPattern, ProcessIdCommented) == Stringify(rs)
  {
    StringifyHasNoProcessId(rs);
    assert ProcessIdPattern == ",\n" + ProcessIdLineStart;
    ReplaceFirstWithoutMatch(Stringify(rs), ProcessIdPattern, ProcessIdCommented);
  }

  /** The serialised text opens with `[` and closes with `]`. */
  lemma StringifyBracketed(rs: seq<JsObject>)
    requires PrintableObjects(rs)
    ensures var t := Stringify(rs);
      |t| > 0 && t[0] == '[' && t[|t| - 1] == ']'
  {
    var lines := ArrayLines(rs);
    ArrayLinesBracketed(rs);
    JoinFirstChar(lines, '\n');
    JoinLastChar(lines, '\n');
  }

  /** The massaged text, line by line: the serialised lines, the first as it
      was and every other with one more tab. */
  lemma MassagedLines(rs: seq<JsObject>)
    requires PrintableObjects(rs) && NoProcessIdKey(rs)
    ensures var lines := ArrayLines(rs);
      Split(Massage(Stringify(rs)), '\n') == [lines[0]] + PrefixEach(lines[1..], "\t")
  {
    var t := Stringify(rs);
    StringifyBracketed(rs);
    StringifyHasNoProcessId(rs);
    assert ProcessIdPattern == ",\n" + ProcessIdLineStart;
    StringifyLines(rs);
    MassagedBracketedLines(t);
  }

  /** Lines without line feeds around a text put its first line after a
      key and its other lines after that, as they are. */
  lemma WrappedLines(head: seq<string>, key: string, text: string, close: string)
    requires |head| >= 1 && SingleLines(head) && '\n' !in key && '\n' !in close
    ensures var m := Split(text, '\n');
      Split(Join(head + [key + text, close], '\n'), '\n') == head + [key + m[0]] + m[1..] + [close]
  {
    var x := key + text;
    JoinAppend(head, x, '\n');
    JoinAppend(head + [x], close, '\n');
    assert head + [x, close] == head + [x] + [close];
    var h := Join(head, '\n');
    assert Join(head + [x, close], '\n') == h + ['\n'] + (x + ['\n'] + close);
    SplitAroundSeparator(h, x + ['\n'] + close, '\n');
    SplitAroundSeparator(x, close, '\n');
    SplitJoin(head, '\n');
    SplitWithoutSeparator(close, '\n');
    SplitWithPrefix(key, text, '\n');
  }

  lemma NoLineFeedInPieces(a: string, b: string, c: string)
    requires '\n' !in a && '\n' !in b && '\n' !in c
    ensures '\n' !in a + b + c
  {
  }

  lemma IntelliSenseCommentSingle()
    ensures '\n' !in IntelliSenseComment
  {
    NoLineFeedInPieces("\t// Use IntelliSense to find out ", "which attributes exist ", "for node debugging");
  }

  lemma HoverCommentSingle()
    ensures '\n' !in HoverComment
  {
    NoLineFeedInPieces("\t// Use hover for the ", "description of the existing ", "attributes");
  }

  lemma FurtherInformationCommentSingle()
    ensures '\n' !in FurtherInformationComment
  {
    NoLineFeedInPieces("\t// For further information ", "visit https://go.microsoft.com", "/fwlink/?linkid=830387");
  }

  lemma HeaderSingleLines()
    ensures SingleLines(Header) && '\n' !in ConfigurationsKey
  {
    IntelliSenseCommentSingle();
    HoverCommentSingle();
    FurtherInformationCommentSingle();
  }

  /** The document, line by line: the five header lines, the configurations
      key followed by the first line of the massaged text, its other lines,
      and the closing brace. */
  lemma DocumentSplit(massaged: string)
    ensures var m := Split(massaged, '\n');
      Split(Document(massaged), '\n') == Header + [ConfigurationsKey + m[0]] + m[1..] + ["}"]
  {
    HeaderSingleLines();
    WrappedLines(Header, ConfigurationsKey, massaged, "}");
  }

  /** The returned text, line by line: exactly the header, the serialised
      array massaged into place after the configurations key, and the
      closing brace. */
  lemma ConfigurationTextLines(rs: seq<JsObject>)
    requires PrintableObjects(rs) && NoProcessIdKey(rs)
    ensures var lines := ArrayLines(rs);
      Split(ConfigurationText(rs), '\n') ==
        Header + [ConfigurationsKey + lines[0]] + PrefixEach(lines[1..], "\t") + ["}"]
  {
    var massaged := Massage(Stringify(rs));
    MassagedLines(rs);
    DocumentSplit(massaged);
    var lines := ArrayLines(rs);
    assert Split(massaged, '\n')[1..] == PrefixEach(lines[1..], "\t");
  }

  /** The document opens with `{`, has the version on its fifth line, the
      configurations key on its sixth, and closes with `}`. */
  lemma ConfigurationTextFrame(rs: seq<JsObject>)
    requires PrintableObjects(rs) && NoProcessIdKey(rs)
    ensures var d := Split(ConfigurationText(rs), '\n');
      |d| == 6 + |ArrayLines(rs)| &&
      d[0] == "{" && d[4] == "\t\"version\": \"0.2.0\"," &&
      ConfigurationsKey + "[" <= d[5] && d[|d| - 1] == "}"
  {
    ConfigurationTextLines(rs);
    ArrayLinesBracketed(rs);
    var lines := ArrayLines(rs);
    DocumentFrame(lines[0], PrefixEach(lines[1..], "\t"));
  }

  /** The fixed frame around any configurations line and continuation
      lines. */
  lemma DocumentFrame(first: string, tail: seq<string>)
    requires |first| > 0 && first[0] == '['
    ensures var d := Header + [ConfigurationsKey + first] + tail + ["}"];
      |d| == 7 + |tail| &&
      d[0] == "{" && d[4] == "\t\"version\": \"0.2.0\"," &&
      ConfigurationsKey + "[" <= d[5] && d[|d| - 1] == "}"
  {
    assert first == "[" + first[1..];
  }

  /* ---------------------------------------------------------------------- */
  /* the module-level template as an object updated in place                */
  /* ---------------------------------------------------------------------- */

  /** The extension's `initialConfigurations` array. Its two records are
      updated in place by every run and never rebuilt. */
  class ConfigurationProvider {
    const configs: array<JsObject>

    ghost predicate Valid()
      reads configs
    {
      WellFormed(configs[..])
    }

    /** The state when the extension module is loaded. */
    constructor ()
      ensures Valid() && fresh(configs)
      ensures configs[..] == InitialConfigurations()
    {
      var a := new JsObject[2];
      a[0], a[1] := LaunchTemplate(), AttachTemplate();
      configs := a;
      new;
      assert configs[..] == InitialConfigurations();
      InitialConfigurationsWellFormed();
    }

    /** `initialConfigurations.forEach(config => { if (config['program'])
        config['program'] = program; })`. */
    method RewritePrograms(program: string)
      requires Valid()
      modifies configs
      ensures configs[..] == ProgramPass(old(configs[..]), program)
      ensures Valid()
    {
      ghost var before := configs[..];
      for i := 0 to configs.Length
        invariant forall j :: 0 <= j < i ==> configs[j] == WithProgram(before[j], program)
        invariant forall j :: i <= j < configs.Length ==> configs[j] == before[j]
      {
        if Truthy(Get(configs[i], "program")) {
          configs[i] := Put(configs[i], "program", Str(program));
        }
      }
      assert configs[..] == ProgramPass(before, program);
      ProgramPassKeepsWellFormed(before, program);
    }

    /** `initialConfigurations.forEach(config => { config['outFiles'] = []; })`. */
    method AddOutFiles()
      requires Valid()
      modifies configs
      ensures configs[..] == OutFilesPass(old(configs[..]))
      ensures Valid()
    {
      ghost var before := configs[..];
      for i := 0 to configs.Length
        invariant forall j :: 0 <= j < i ==> configs[j] == WithOutFiles(before[j])
        invariant forall j :: i <= j < configs.Length ==> configs[j] == before[j]
      {
        configs[i] := WithOutFiles(configs[i]);
      }
      assert configs[..] == OutFilesPass(before);
      OutFilesPassKeepsWellFormed(before);
    }

    /** `provideInitialConfigurations()`: rewrite the records as the
        manifest and the open documents say, then return the document for
        them. An exception leaves the records as they were. */
    method ProvideInitialConfigurations(root: Option<string>, manifest: Manifest, languageIds: seq<string>,
                                        isAbsolute: string -> bool, join: (string, string) -> string)
      returns (r: Result<string, ProvideError>)
      requires Valid()
      modifies configs
      ensures Valid()
      ensures match Synthesize(old(configs[..]), root, manifest, languageIds, isAbsolute, join)
        case Success(rs) => configs[..] == rs && r == Success(ConfigurationText(rs))
        case Failure(e) => configs[..] == old(configs[..]) && r == Failure(e)
    {
      var got := GetProgram(root, manifest);
      if got.Failure? {
        return Failure(got.error);
      }
      var program := got.value;
      if Truthy(program) {
        if !program.Str? {
          return Failure(ProgramNotString);
        }
        RewritePrograms(ResolveProgram(program.s, isAbsolute, join));
      }
      if HasSourceMappedDocument(languageIds) {
        AddOutFiles();
      }
      r := Success(ConfigurationText(configs[..]));
    }
  }
}
