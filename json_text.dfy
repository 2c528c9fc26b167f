/** `JSON.stringify(records, null, '\t')` for the shape the extension
    serialises: an array of flat objects whose values are `null`, booleans,
    integers, strings or empty arrays. The text is described line by line;
    the lines are then joined with line feeds, as the indenting serialiser
    writes them. */
module JsonText {
  import opened Wrappers
  import opened Strings
  import opened JsValues

  /* ---------------------------------------------------------------------- */
  /* string literals                                                         */
  /* ---------------------------------------------------------------------- */

  /** A character the serialiser writes as itself inside a string literal. */
  predicate Plain(c: char)
  {
    c != '"' && c != '\\' && c >= ' '
  }

  function HexDigit(d: nat): (c: char)
    requires d < 16
    ensures HexValue(c) == Some(d)
  {
    "0123456789abcdef"[d]
  }

  /** The value of a hexadecimal digit, either case. */
  function HexValue(c: char): Option<nat>
  {
    if '0' <= c <= '9' then Some(c as nat - '0' as nat)
    else if 'a' <= c <= 'f' then Some(c as nat - 'a' as nat + 10)
    else if 'A' <= c <= 'F' then Some(c as nat - 'A' as nat + 10)
    else None
  }

  /** How the serialiser writes one character inside a string literal: the
      quote and the backslash escaped by a backslash, the five control
      characters with a short form by that form, every other control character
      as a `\u00XX` escape with lower-case hex digits, anything else as is. */
  function EscapeChar(c: char): (e: string)
    ensures Plain(c) ==> e == [c]
    ensures !Plain(c) ==> |e| >= 2 && e[0] == '\\'
    ensures forall i :: 0 <= i < |e| ==> e[i] >= ' '
  {
    if c == '"' then "\\\""
    else if c == '\\' then "\\\\"
    else if c == '\U{8}' then "\\b"
    else if c == '\U{C}' then "\\f"
    else if c == '\n' then "\\n"
    else if c == '\r' then "\\r"
    else if c == '\t' then "\\t"
    else if c < ' ' then "\\u00" + [HexDigit(c as nat / 16), HexDigit(c as nat % 16)]
    else [c]
  }

  /** The escaped body of a string literal. It holds no raw control
      character, so a serialised string never spans two lines. */
  function Escape(s: string): (e: string)
    ensures forall i :: 0 <= i < |e| ==> e[i] >= ' '
  {
    if |s| == 0 then "" else EscapeChar(s[0]) + Escape(s[1..])
  }

  /** A string literal: the escaped text between double quotes. */
  function Quote(s: string): (q: string)
    ensures |q| >= 2 && q[0] == '"' && q[|q| - 1] == '"'
    ensures forall i :: 0 <= i < |q| ==> q[i] >= ' '
  {
    "\"" + Escape(s) + "\""
  }

  /** Reads the body of a JSON string literal back: raw quotes and raw control
      characters are refused, `\"`, `\\`, `\/`, `\b`, `\f`, `\n`, `\r`, `\t`
      and `\uXXXX` are decoded. A `\u` escape of a UTF-16 surrogate is refused:
      the strings here hold whole Unicode scalar values. */
  function Unescape(s: string): (r: Option<string>)
    decreases |s|
  {
    if |s| == 0 then Some("")
    else if s[0] == '"' || s[0] < ' ' then None
    else if s[0] != '\\' then Prepend(s[0], Unescape(s[1..]))
    else if |s| < 2 then None
    else if s[1] == 'u' then
      if |s| < 6 then None
      else
        match HexQuad(s[2..6])
        case None => None
        case Some(n) =>
          if 0xD800 <= n < 0xE000 then None
          else Prepend(n as char, Unescape(s[6..]))
    else
      match ShortEscape(s[1])
      case None => None
      case Some(c) => Prepend(c, Unescape(s[2..]))
  }

  /** The character a two-character escape `\x` stands for, if it is one. */
  function ShortEscape(x: char): Option<char>
  {
    if x == '"' then Some('"')
    else if x == '\\' then Some('\\')
    else if x == '/' then Some('/')
    else if x == 'b' then Some('\U{8}')
    else if x == 'f' then Some('\U{C}')
    else if x == 'n' then Some('\n')
    else if x == 'r' then Some('\r')
    else if x == 't' then Some('\t')
    else None
  }

  /** The value of four hexadecimal digits. */
  function HexQuad(h: string): (r: Option<nat>)
    requires |h| == 4
    ensures r.Some? ==> r.value < 0x1_0000
  {
    match (HexValue(h[0]), HexValue(h[1]), HexValue(h[2]), HexValue(h[3]))
    case (Some(a), Some(b), Some(c), Some(d)) =>
      if a < 16 && b < 16 && c < 16 && d < 16 then Some(((a * 16 + b) * 16 + c) * 16 + d) else None
    case _ => None
  }

  function Prepend(c: char, r: Option<string>): Option<string>
  {
    match r
    case None => None
    case Some(t) => Some([c] + t)
  }

  /** Reads a whole JSON string literal back. */
  function Unquote(q: string): Option<string>
  {
    if |q| >= 2 && q[0] == '"' && q[|q| - 1] == '"' then Unescape(q[1..|q| - 1]) else None
  }

  /** Decoding one escaped character in front of more text. */
  lemma UnescapeEscapeChar(c: char, rest: string)
    ensures Unescape(EscapeChar(c) + rest) == Prepend(c, Unescape(rest))
  {
    var s := EscapeChar(c) + rest;
    if Plain(c) {
      assert s == [c] + rest;
      assert s[1..] == rest;
    } else if c == '"' || c == '\\' || c == '\U{8}' || c == '\U{C}' || c == '\n' || c == '\r' || c == '\t' {
      UnescapeShortEscape(c, rest);
    } else {
      UnescapeUnicodeEscape(c, rest);
    }
  }

  lemma UnescapeShortEscape(c: char, rest: string)
    requires c == '"' || c == '\\' || c == '\U{8}' || c == '\U{C}' || c == '\n' || c == '\r' || c == '\t'
    ensures Unescape(EscapeChar(c) + rest) == Prepend(c, Unescape(rest))
  {
    var e := EscapeChar(c);
    var s := e + rest;
    assert |e| == 2 && e[0] == '\\' && e[1] != 'u';
    assert s[0] == '\\' && s[1] == e[1];
    assert ShortEscape(e[1]) == Some(c);
    assert s[2..] == rest;
  }

  lemma UnescapeUnicodeEscape(c: char, rest: string)
    requires c < ' ' && c != '\U{8}' && c != '\U{C}' && c != '\n' && c != '\r' && c != '\t'
    ensures Unescape(EscapeChar(c) + rest) == Prepend(c, Unescape(rest))
  {
    var e := EscapeChar(c);
    var s := e + rest;
    var hi, lo := c as nat / 16, c as nat % 16;
    assert e == ['\\', 'u', '0', '0', HexDigit(hi), HexDigit(lo)];
    assert s[2..6] == ['0', '0', HexDigit(hi), HexDigit(lo)];
    assert HexQuad(s[2..6]) == Some(c as nat);
    assert (c as nat) as char == c;
    assert s[6..] == rest;
  }

  /** Decoding undoes the escaping. */
  lemma {:induction false} UnescapeEscape(s: string)
    ensures Unescape(Escape(s)) == Some(s)
    decreases |s|
  {
    if |s| > 0 {
      UnescapeEscape(s[1..]);
      UnescapeEscapeChar(s[0], Escape(s[1..]));
      assert [s[0]] + s[1..] == s;
    }
  }

  /** Every string survives being written as a literal and read back. */
  lemma UnquoteQuote(s: string)
    ensures Unquote(Quote(s)) == Some(s)
  {
    var q := Quote(s);
    assert q[1..|q| - 1] == Escape(s);
    UnescapeEscape(s);
  }

  /** If a text free of backslashes and quotes begins an escaped string
      followed by its closing quote, it begins the string itself. */
  lemma {:induction false} EscapedPrefix(k: string, w: string, rest: string)
    requires forall j :: 0 <= j < |w| ==> Plain(w[j])
    requires w <= Escape(k) + "\"" + rest
    ensures w <= k
    decreases |k|
  {
    if |w| > 0 {
      var text := Escape(k) + "\"" + rest;
      if |k| == 0 {
        assert false;
      } else {
        var tail := Escape(k[1..]) + "\"" + rest;
        var e := EscapeChar(k[0]);
        assert text == e + tail;
        FirstOfPrefix(w, text);
        if Plain(k[0]) {
          PrefixOfCons(k[0], w, tail);
          EscapedPrefix(k[1..], w[1..], rest);
          ConsKeepsPrefix(k[0], w, k);
        } else {
          assert false;
        }
      }
    }
  }

  lemma FirstOfPrefix(w: string, text: string)
    requires |w| > 0 && w <= text
    ensures w[0] == text[0]
  {
  }

  lemma PrefixOfCons(c: char, w: string, t: string)
    requires |w| > 0 && w <= [c] + t
    ensures w[1..] <= t
  {
    assert w[1..] == ([c] + t)[1..|w|];
  }

  lemma ConsKeepsPrefix(c: char, w: string, k: string)
    requires |w| > 0 && |k| > 0 && w[0] == c && k[0] == c && w[1..] <= k[1..]
    ensures w <= k
  {
    assert w == [c] + w[1..];
    assert k == [c] + k[1..];
  }

  /* ---------------------------------------------------------------------- */
  /* numbers and values                                                      */
  /* ---------------------------------------------------------------------- */

  function DigitChar(d: nat): char
    requires d < 10
  {
    ('0' as int + d) as char
  }

  /** The decimal digits of a natural number, without leading zeros. */
  function NatText(n: nat): (t: string)
    ensures |t| >= 1 && (t[0] == '0' ==> n == 0)
    ensures forall i :: 0 <= i < |t| ==> '0' <= t[i] <= '9'
  {
    if n < 10 then [DigitChar(n)] else NatText(n / 10) + [DigitChar(n % 10)]
  }

  /** The number a string of decimal digits denotes. */
  function DecimalValue(t: string): nat
    requires forall i :: 0 <= i < |t| ==> '0' <= t[i] <= '9'
  {
    if |t| == 0 then 0
    else DecimalValue(t[..|t| - 1]) * 10 + (t[|t| - 1] as nat - '0' as nat)
  }

  /** Reading the digits back gives the number. */
  lemma {:induction false} DecimalValueNatText(n: nat)
    ensures DecimalValue(NatText(n)) == n
  {
    if n >= 10 {
      DecimalValueNatText(n / 10);
      var t := NatText(n);
      assert t[..|t| - 1] == NatText(n / 10);
      assert t[|t| - 1] as nat - '0' as nat == n % 10;
    }
  }

  /** How an integer is written: its digits, after a minus sign when it is
      negative. */
  function NumberText(n: int): string
  {
    if n < 0 then "-" + NatText(-n) else NatText(n)
  }

  /** The values the serialiser is applied to here: `undefined` (which it
      would leave out) and objects or non-empty arrays never occur. */
  predicate Printable(v: JsValue)
  {
    !v.Undefined? && !v.Compound?
  }

  predicate PrintableObject(o: JsObject)
  {
    forall i :: 0 <= i < |o| ==> Printable(o[i].value)
  }

  predicate PrintableObjects(os: seq<JsObject>)
  {
    forall i :: 0 <= i < |os| ==> PrintableObject(os[i])
  }

  /** How one value is written. */
  function ValueText(v: JsValue): (t: string)
    requires Printable(v)
    ensures '\n' !in t
  {
    QuoteIsSingleLine(if v.Str? then v.s else "");
    match v
    case Null => "null"
    case Bool(b) => if b then "true" else "false"
    case Number(n) => NumberText(n)
    case Str(s) => Quote(s)
    case EmptyArray => "[]"
  }

  /* ---------------------------------------------------------------------- */
  /* the indented layout                                                     */
  /* ---------------------------------------------------------------------- */

  function Comma(last: bool): string
  {
    if last then "" else ","
  }

  /** A property at nesting depth two: two tabs, the quoted key, a colon and a
      space, the value, and a comma unless it is the last property. */
  function PropertyLine(p: Property, last: bool): string
    requires Printable(p.value)
  {
    "\t\t" + Quote(p.key) + ": " + ValueText(p.value) + Comma(last)
  }

  function PropertyLines(o: JsObject): (lines: seq<string>)
    requires PrintableObject(o)
    ensures |lines| == |o|
  {
    seq(|o|, i requires 0 <= i < |o| => PropertyLine(o[i], i == |o| - 1))
  }

  /** An object as an array element at depth one: `{}` when it has no
      properties, otherwise an opening brace line, its property lines and a
      closing brace line; a comma follows unless it is the last element. */
  function ObjectLines(o: JsObject, last: bool): seq<string>
    requires PrintableObject(o)
  {
    if |o| == 0 then ["\t{}" + Comma(last)]
    else ["\t{"] + PropertyLines(o) + ["\t}" + Comma(last)]
  }

  function ElementLines(os: seq<JsObject>): seq<string>
    requires PrintableObjects(os)
  {
    if |os| == 0 then [] else ObjectLines(os[0], |os| == 1) + ElementLines(os[1..])
  }

  /** The lines of the serialised array: `[]` when it is empty, otherwise a
      bracket line, the element lines and a closing bracket line. */
  function ArrayLines(os: seq<JsObject>): (lines: seq<string>)
    requires PrintableObjects(os)
    ensures |lines| >= 1
  {
    if |os| == 0 then ["[]"] else ["["] + ElementLines(os) + ["]"]
  }

  /** `JSON.stringify(os, null, '\t')` for records whose keys are not array
      indices, so that properties are written in insertion order. */
  function Stringify(os: seq<JsObject>): string
    requires PrintableObjects(os)
  {
    Join(ArrayLines(os), '\n')
  }

  /* ---------------------------------------------------------------------- */
  /* properties of the layout                                                */
  /* ---------------------------------------------------------------------- */

  /** No line holds a line feed. */
  predicate SingleLines(lines: seq<string>)
  {
    forall k :: 0 <= k < |lines| ==> '\n' !in lines[k]
  }

  lemma QuoteIsSingleLine(s: string)
    ensures '\n' !in Quote(s)
  {
  }

  lemma PropertyLineIsSingle(p: Property, last: bool)
    requires Printable(p.value)
    ensures '\n' !in PropertyLine(p, last)
  {
    QuoteIsSingleLine(p.key);
  }

  lemma ObjectLinesAreSingle(o: JsObject, last: bool)
    requires PrintableObject(o)
    ensures SingleLines(ObjectLines(o, last))
  {
    var props := PropertyLines(o);
    forall i | 0 <= i < |o| ensures '\n' !in props[i] {
      PropertyLineIsSingle(o[i], i == |o| - 1);
    }
    if |o| > 0 {
      var lines := ObjectLines(o, last);
      forall k | 0 <= k < |lines| ensures '\n' !in lines[k] {
        if 0 < k < |lines| - 1 {
          assert lines[k] == props[k - 1];
        }
      }
    }
  }

  lemma {:induction false} ElementLinesAreSingle(os: seq<JsObject>)
    requires PrintableObjects(os)
    ensures SingleLines(ElementLines(os))
    decreases |os|
  {
    if |os| > 0 {
      ElementLinesAreSingle(os[1..]);
      ObjectLinesAreSingle(os[0], |os| == 1);
      var head := ObjectLines(os[0], |os| == 1);
      var rest := ElementLines(os[1..]);
      forall k | 0 <= k < |head + rest| ensures '\n' !in (head + rest)[k] {
        if k < |head| {
          assert (head + rest)[k] == head[k];
        } else {
          assert (head + rest)[k] == rest[k - |head|];
        }
      }
    }
  }

  lemma ArrayLinesAreSingle(os: seq<JsObject>)
    requires PrintableObjects(os)
    ensures SingleLines(ArrayLines(os))
  {
    if |os| > 0 {
      ElementLinesAreSingle(os);
      var body := ElementLines(os);
      var lines := ArrayLines(os);
      forall k | 0 <= k < |lines| ensures '\n' !in lines[k] {
        if 0 < k < |lines| - 1 {
          assert lines[k] == body[k - 1];
        }
      }
    }
  }

  /** The serialised text has exactly the lines of the layout. */
  lemma StringifyLines(os: seq<JsObject>)
    requires PrintableObjects(os)
    ensures Split(Stringify(os), '\n') == ArrayLines(os)
  {
    ArrayLinesAreSingle(os);
    SplitJoin(ArrayLines(os), '\n');
  }

  /** The first property line begins with the opening bracket and the last
      one ends with the closing bracket. */
  lemma ArrayLinesBracketed(os: seq<JsObject>)
    requires PrintableObjects(os)
    ensures ArrayLines(os)[0] != [] && ArrayLines(os)[0][0] == '['
    ensures var lines := ArrayLines(os); var last := lines[|lines| - 1];
      last != [] && last[|last| - 1] == ']'
  {
  }

  /** The two-tab indentation and key quote that open the line of a property
      whose key starts with `processId`. */
  const ProcessIdLineStart: string := "\t\t\"processId"

  /** No key of the object starts with `processId`. */
  predicate NoProcessIdKeyIn(o: JsObject)
  {
    forall j :: 0 <= j < |o| ==> !("processId" <= o[j].key)
  }

  predicate NoProcessIdKey(os: seq<JsObject>)
  {
    forall i :: 0 <= i < |os| ==> NoProcessIdKeyIn(os[i])
  }

  /** No line opens a property whose key starts with `processId`. */
  predicate NoProcessIdLine(lines: seq<string>)
  {
    forall k :: 0 <= k < |lines| ==> !(ProcessIdLineStart <= lines[k])
  }

  lemma CommonPrefix(a: string, b: string, x: string)
    requires a + b <= a + x
    ensures b <= x
  {
    assert b == (a + b)[|a|..];
    assert x == (a + x)[|a|..];
    assert (a + b)[|a|..] == (a + x)[|a|..|a| + |b|];
  }

  lemma PropertyLineShape(p: Property, last: bool)
    requires Printable(p.value)
    ensures PropertyLine(p, last) == "\t\t\"" + (Escape(p.key) + "\"" + (": " + ValueText(p.value) + Comma(last)))
  {
  }

  lemma OpeningOfProcessIdLine()
    ensures ProcessIdLineStart == "\t\t\"" + "processId"
  {
  }

  lemma ProcessIdIsPlain()
    ensures forall j :: 0 <= j < |"processId"| ==> Plain("processId"[j])
  {
  }

  lemma PropertyLineNotProcessId(p: Property, last: bool)
    requires Printable(p.value)
    requires !("processId" <= p.key)
    ensures !(ProcessIdLineStart <= PropertyLine(p, last))
  {
    var rest := ": " + ValueText(p.value) + Comma(last);
    var opening := "\t\t\"";
    var x := Escape(p.key) + "\"" + rest;
    PropertyLineShape(p, last);
    OpeningOfProcessIdLine();
    if ProcessIdLineStart <= PropertyLine(p, last) {
      CommonPrefix(opening, "processId", x);
      ProcessIdIsPlain();
      EscapedPrefix(p.key, "processId", rest);
      assert false;
    }
  }

  lemma ObjectLinesNotProcessId(o: JsObject, last: bool)
    requires PrintableObject(o) && NoProcessIdKeyIn(o)
    ensures NoProcessIdLine(ObjectLines(o, last))
  {
    if |o| > 0 {
      var props := PropertyLines(o);
      forall i | 0 <= i < |props| ensures !(ProcessIdLineStart <= props[i]) {
        PropertyLineNotProcessId(o[i], i == |o| - 1);
      }
      BracedLines(props, last);
    }
  }

  /** The brace lines around the property lines open no property. */
  lemma BracedLines(props: seq<string>, last: bool)
    requires NoProcessIdLine(props)
    ensures NoProcessIdLine(["\t{"] + props + ["\t}" + Comma(last)])
  {
    var lines := ["\t{"] + props + ["\t}" + Comma(last)];
    forall k | 0 <= k < |lines| ensures !(ProcessIdLineStart <= lines[k]) {
      if k == 0 {
        assert lines[k] == "\t{";
      } else if k == |lines| - 1 {
        assert lines[k] == "\t}" + Comma(last);
      } else {
        assert lines[k] == props[k - 1];
      }
    }
  }

  lemma {:induction false} ElementLinesNotProcessId(os: seq<JsObject>)
    requires PrintableObjects(os) && NoProcessIdKey(os)
    ensures NoProcessIdLine(ElementLines(os))
    decreases |os|
  {
    if |os| > 0 {
      assert NoProcessIdKey(os[1..]) by {
        forall i | 0 <= i < |os[1..]| ensures NoProcessIdKeyIn(os[1..][i]) {
          assert os[1..][i] == os[i + 1];
        }
      }
      ElementLinesNotProcessId(os[1..]);
      ObjectLinesNotProcessId(os[0], |os| == 1);
      var head := ObjectLines(os[0], |os| == 1);
      var rest := ElementLines(os[1..]);
      forall k | 0 <= k < |head + rest| ensures !(ProcessIdLineStart <= (head + rest)[k]) {
        if k < |head| {
          assert (head + rest)[k] == head[k];
        } else {
          assert (head + rest)[k] == rest[k - |head|];
        }
      }
    }
  }

  /** No line of the layout after the first opens a `processId` property. */
  lemma LineOfArray(os: seq<JsObject>, k: nat)
    requires PrintableObjects(os) && NoProcessIdKey(os)
    requires 1 <= k < |ArrayLines(os)|
    ensures !(ProcessIdLineStart <= ArrayLines(os)[k])
  {
    if |os| == 0 {
      assert false;
    } else {
      ElementLinesNotProcessId(os);
      BracketedLine(ElementLines(os), k);
    }
  }

  /** Bracketing lines adds no `processId` property line. */
  lemma BracketedLine(e: seq<string>, k: nat)
    requires NoProcessIdLine(e)
    requires 1 <= k < |e| + 2
    ensures !(ProcessIdLineStart <= (["["] + e + ["]"])[k])
  {
    var lines := ["["] + e + ["]"];
    if k <= |e| {
      assert lines[k] == e[k - 1];
    } else {
      assert lines[k] == "]";
    }
  }

  /** The text `,\n\t\t"processId` occurs in a serialisation only where a
      property line opens with a key starting with `processId`. */
  lemma StringifyHasNoProcessId(os: seq<JsObject>)
    requires PrintableObjects(os) && NoProcessIdKey(os)
    ensures forall j: nat :: !OccursAt(Stringify(os), ",\n" + ProcessIdLineStart, j)
  {
    var lines := ArrayLines(os);
    ArrayLinesAreSingle(os);
    forall k | 1 <= k < |lines| ensures !(ProcessIdLineStart <= lines[k]) {
      LineOfArray(os, k);
    }
    forall j: nat ensures !OccursAt(Stringify(os), ",\n" + ProcessIdLineStart, j) {
      NoProcessIdAfterBreak(lines, j);
    }
  }

  /** In a join of single lines, a comma, a line break and the opening of a
      `processId` property can only meet where a later line opens one. */
  lemma NoProcessIdAfterBreak(lines: seq<string>, j: nat)
    requires SingleLines(lines)
    requires forall k :: 1 <= k < |lines| ==> !(ProcessIdLineStart <= lines[k])
    ensures !OccursAt(Join(lines, '\n'), ",\n" + ProcessIdLineStart, j)
  {
    if OccursAt(Join(lines, '\n'), ",\n" + ProcessIdLineStart, j) {
      assert ",\n" + ProcessIdLineStart == [',', '\n'] + ProcessIdLineStart;
      forall k, m | 0 <= k < |lines| && 0 <= m < |lines[k]| ensures lines[k][m] != '\n' {
        assert '\n' !in lines[k];
      }
      ProcessIdLineStartIsSingle();
      OccurrenceAtLineBreak(lines, '\n', ',', ProcessIdLineStart, j);
      assert false;
    }
  }

  lemma ProcessIdLineStartIsSingle()
    ensures forall m :: 0 <= m < |ProcessIdLineStart| ==> ProcessIdLineStart[m] != '\n'
  {
    assert '\n' !in ProcessIdLineStart;
  }
}
