/** The rewrite the extension applies to the serialised configurations before
    placing them in the launch document: comment out the first
    `"processId` property, indent every line by one more tab, trim. */
module TextMassage {
  import opened Strings

  /** The text searched for: a comma ending one property line and the start
      of a `processId` property on the next. */
  const ProcessIdPattern: string := ",\n\t\t\"processId"

  /** What replaces it: the comma dropped and the property behind `//`. */
  const ProcessIdCommented: string := "\n\t\t//\"processId"

  /** `lines.map(line => prefix + line)`. */
  function PrefixEach(lines: seq<string>, prefix: string): seq<string>
  {
    seq(|lines|, i requires 0 <= i < |lines| => prefix + lines[i])
  }

  /** `text.split('\n').map(line => '\t' + line).join('\n')`. */
  function Indent(text: string): string
  {
    Join(PrefixEach(Split(text, '\n'), "\t"), '\n')
  }

  /** The whole massage: replace, indent, trim. */
  function Massage(json: string): string
  {
    Trim(Indent(ReplaceFirst(json, ProcessIdPattern, ProcessIdCommented)))
  }

  /** A reference description of the indentation character by character: a
      tab after every line feed (the tab in front of the first line is added
      separately). */
  function TabAfterNewlines(text: string): string
  {
    if |text| == 0 then ""
    else (if text[0] == '\n' then "\n\t" else [text[0]]) + TabAfterNewlines(text[1..])
  }

  lemma {:induction false} TabAfterNewlinesConcat(a: string, b: string)
    ensures TabAfterNewlines(a + b) == TabAfterNewlines(a) + TabAfterNewlines(b)
    decreases |a|
  {
    if |a| > 0 {
      TabAfterNewlinesConcat(a[1..], b);
      assert (a + b)[0] == a[0];
      assert (a + b)[1..] == a[1..] + b;
      var head := if a[0] == '\n' then "\n\t" else [a[0]];
      assert TabAfterNewlines(a + b) == head + TabAfterNewlines(a[1..] + b);
      assert TabAfterNewlines(a) == head + TabAfterNewlines(a[1..]);
      assert head + (TabAfterNewlines(a[1..]) + TabAfterNewlines(b))
          == (head + TabAfterNewlines(a[1..])) + TabAfterNewlines(b);
    } else {
      assert a + b == b;
    }
  }

  lemma PrefixEachCons(line: string, rest: seq<string>, prefix: string)
    ensures PrefixEach([line] + rest, prefix) == [prefix + line] + PrefixEach(rest, prefix)
  {
  }

  /** Indenting line by line is the same as a tab in front of the text and a
      tab after each of its line feeds. */
  lemma {:induction false} IndentIsTabAfterNewlines(text: string)
    ensures Indent(text) == "\t" + TabAfterNewlines(text)
    decreases |text|
  {
    if |text| > 0 {
      var t := text[1..];
      IndentIsTabAfterNewlines(t);
      assert text == [text[0]] + t;
      if text[0] == '\n' {
        IndentOfNewline(t);
      } else {
        IndentOfChar(text[0], t);
        assert ("\t" + TabAfterNewlines(t))[1..] == TabAfterNewlines(t);
      }
    }
  }

  /** A leading line feed: an empty first line, indented to a lone tab. */
  lemma IndentOfNewline(t: string)
    ensures Indent(['\n'] + t) == "\t\n" + Indent(t)
  {
    var r := Split(t, '\n');
    assert (['\n'] + t)[1..] == t;
    assert Split(['\n'] + t, '\n') == [""] + r;
    PrefixEachCons("", r, "\t");
  }

  /** A leading character other than a line feed joins the first line. */
  lemma IndentOfChar(c: char, t: string)
    requires c != '\n'
    ensures |Indent(t)| > 0 && Indent(t)[0] == '\t'
    ensures Indent([c] + t) == "\t" + ([c] + Indent(t)[1..])
  {
    var r := Split(t, '\n');
    var tail := PrefixEach(r[1..], "\t");
    assert ([c] + t)[1..] == t;
    assert r == [r[0]] + r[1..];
    PrefixEachCons(r[0], r[1..], "\t");
    assert Split([c] + t, '\n') == [[c] + r[0]] + r[1..];
    PrefixEachCons([c] + r[0], r[1..], "\t");
    assert "\t" + ([c] + r[0]) == ("\t" + [c]) + r[0];
    JoinFirstConcat("\t" + [c], r[0], tail, '\n');
    JoinFirstConcat("\t", r[0], tail, '\n');
    var j := Join([r[0]] + tail, '\n');
    assert Indent(t) == "\t" + j;
    assert ("\t" + j)[1..] == j;
    assert ("\t" + [c]) + j == "\t" + ([c] + j);
  }

  /** Indentation keeps the number of lines, and each line is the original
      line with exactly one tab in front. */
  lemma IndentKeepsLines(text: string)
    ensures Split(Indent(text), '\n') == PrefixEach(Split(text, '\n'), "\t")
  {
    var lines := PrefixEach(Split(text, '\n'), "\t");
    forall i | 0 <= i < |lines| ensures '\n' !in lines[i] {
      assert lines[i] == "\t" + Split(text, '\n')[i];
    }
    SplitJoin(lines, '\n');
  }

  lemma TrimTabbed(x: string)
    requires |x| > 0 && !IsJsWhitespace(x[0]) && !IsJsWhitespace(x[|x| - 1])
    ensures Trim("\t" + x) == x
  {
    assert TrimStart("\t" + x) == TrimStart(("\t" + x)[1..]);
    assert ("\t" + x)[1..] == x;
  }

  /** The tabbed text starts with the text's first character when that is no
      line feed. */
  lemma TabAfterNewlinesFirst(text: string)
    requires |text| > 0 && text[0] != '\n'
    ensures |TabAfterNewlines(text)| > 0 && TabAfterNewlines(text)[0] == text[0]
  {
    assert TabAfterNewlines(text) == [text[0]] + TabAfterNewlines(text[1..]);
  }

  /** The tabbed text ends with the text's last character when that is no
      line feed. */
  lemma TabAfterNewlinesLast(text: string)
    requires |text| > 0 && text[|text| - 1] != '\n'
    ensures var x := TabAfterNewlines(text);
      |x| > 0 && x[|x| - 1] == text[|text| - 1]
  {
    var n := |text|;
    var c := text[n - 1];
    TabAfterNewlinesConcat(text[..n - 1], [c]);
    assert text[..n - 1] + [c] == text;
    assert TabAfterNewlines([c]) == [c] + TabAfterNewlines([c][1..]);
    assert [c][1..] == [];
  }

  /** Indenting a text that starts and ends with a visible character and then
      trimming it removes exactly the tab in front of the first line. */
  lemma TrimIndentOfBracketedText(text: string)
    requires |text| > 0 && !IsJsWhitespace(text[0]) && !IsJsWhitespace(text[|text| - 1])
    ensures Trim(Indent(text)) == TabAfterNewlines(text)
  {
    IndentIsTabAfterNewlines(text);
    TabAfterNewlinesFirst(text);
    TabAfterNewlinesLast(text);
    TrimTabbed(TabAfterNewlines(text));
  }

  /** The lines of the tabbed text: the first as it was, every later one with
      one tab more. */
  lemma TabAfterNewlinesLines(text: string)
    ensures var lines := Split(text, '\n');
      Split(TabAfterNewlines(text), '\n') == [lines[0]] + PrefixEach(lines[1..], "\t")
  {
    IndentIsTabAfterNewlines(text);
    IndentKeepsLines(text);
    var x := TabAfterNewlines(text);
    var lines := Split(text, '\n');
    var sx := Split(x, '\n');
    assert ("\t" + x)[0] == '\t' && ("\t" + x)[1..] == x;
    assert Split("\t" + x, '\n') == [['\t'] + sx[0]] + sx[1..];
    PrefixEachCons(lines[0], lines[1..], "\t");
    assert lines == [lines[0]] + lines[1..];
    assert sx == [sx[0]] + sx[1..];
  }

  /** The massage of a text that starts and ends with a visible character and
      has nothing to comment out: the tab in front of the first line is trimmed
      away again, and what is left is a tab after every line feed. */
  lemma MassageOfBracketedText(text: string)
    requires |text| > 0 && !IsJsWhitespace(text[0]) && !IsJsWhitespace(text[|text| - 1])
    requires forall j: nat :: !OccursAt(text, ProcessIdPattern, j)
    ensures Massage(text) == TabAfterNewlines(text)
  {
    ReplaceFirstWithoutMatch(text, ProcessIdPattern, ProcessIdCommented);
    TrimIndentOfBracketedText(text);
  }

  /** Line by line, the same massage keeps the first line as it was and gives
      every later line exactly one more leading tab. */
  lemma MassagedBracketedLines(text: string)
    requires |text| > 0 && !IsJsWhitespace(text[0]) && !IsJsWhitespace(text[|text| - 1])
    requires forall j: nat :: !OccursAt(text, ProcessIdPattern, j)
    ensures var lines := Split(text, '\n');
      Split(Massage(text), '\n') == [lines[0]] + PrefixEach(lines[1..], "\t")
  {
    MassageOfBracketedText(text);
    TabAfterNewlinesLines(text);
  }
}
