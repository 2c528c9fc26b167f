/** The JavaScript string operations the extension relies on, for the
    one-character separators and literal patterns it passes them:
    `split`, `Array.prototype.join`, `indexOf`, `replace` with a string
    pattern, and `trim`. */
module Strings {
  import opened Wrappers

  /* ---------------------------------------------------------------------- */
  /* split / join                                                            */
  /* ---------------------------------------------------------------------- */

  /** `s.split(sep)` for a one-character separator: the pieces between the
      separators, in order. There is always at least one piece, and there is
      one piece more than there are separators. */
  function Split(s: string, sep: char): (pieces: seq<string>)
    ensures |pieces| >= 1
    ensures forall i :: 0 <= i < |pieces| ==> sep !in pieces[i]
    decreases |s|
  {
    if |s| == 0 then [""]
    else if s[0] == sep then [""] + Split(s[1..], sep)
    else
      var rest := Split(s[1..], sep);
      [[s[0]] + rest[0]] + rest[1..]
  }

  /** `parts.join(sep)` for a one-character separator. */
  function Join(parts: seq<string>, sep: char): string
  {
    if |parts| == 0 then ""
    else if |parts| == 1 then parts[0]
    else parts[0] + [sep] + Join(parts[1..], sep)
  }

  /** There is one piece more than there are separators. */
  lemma {:induction false} SplitCount(s: string, sep: char)
    ensures |Split(s, sep)| == multiset(s)[sep] + 1
    decreases |s|
  {
    if |s| > 0 {
      SplitCount(s[1..], sep);
      assert s == [s[0]] + s[1..];
      assert multiset(s) == multiset([s[0]]) + multiset(s[1..]);
    }
  }

  /** Joining the pieces of a split gives back the original string. */
  lemma {:induction false} JoinSplit(s: string, sep: char)
    ensures Join(Split(s, sep), sep) == s
    decreases |s|
  {
    if |s| > 0 {
      JoinSplit(s[1..], sep);
      var rest := Split(s[1..], sep);
      assert s == [s[0]] + s[1..];
      if s[0] == sep {
        assert Split(s, sep) == [""] + rest;
        assert ([""] + rest)[1..] == rest;
        assert Join(Split(s, sep), sep) == "" + [sep] + Join(rest, sep);
      } else {
        var pieces := [[s[0]] + rest[0]] + rest[1..];
        assert Split(s, sep) == pieces;
        assert rest == [rest[0]] + rest[1..];
        JoinFirstConcat([s[0]], rest[0], rest[1..], sep);
      }
    }
  }

  /** A string without the separator splits into itself alone. */
  lemma {:induction false} SplitWithoutSeparator(s: string, sep: char)
    requires sep !in s
    ensures Split(s, sep) == [s]
    decreases |s|
  {
    if |s| > 0 {
      assert sep !in s[1..] by {
        forall k | 0 <= k < |s[1..]| ensures s[1..][k] != sep { assert s[1..][k] == s[k + 1]; }
      }
      SplitWithoutSeparator(s[1..], sep);
      assert [s[0]] + s[1..] == s;
    }
  }

  /** A separator in the middle of a string splits it into the pieces of
      either side. */
  lemma {:induction false} SplitAroundSeparator(a: string, b: string, sep: char)
    ensures Split(a + [sep] + b, sep) == Split(a, sep) + Split(b, sep)
    decreases |a|
  {
    var s := a + [sep] + b;
    if |a| == 0 {
      assert s[1..] == b;
    } else {
      assert s[0] == a[0] && s[1..] == a[1..] + [sep] + b;
      SplitAroundSeparator(a[1..], b, sep);
      var left := Split(a[1..], sep);
      if a[0] == sep {
        ConsAppend("", left, Split(b, sep));
      } else {
        ReplaceHeadAppend([a[0]] + left[0], left, Split(b, sep));
      }
    }
  }

  lemma ConsAppend<T>(x: T, l: seq<T>, m: seq<T>)
    ensures [x] + (l + m) == ([x] + l) + m
  {
  }

  /** Replacing the head of a non-empty list commutes with appending. */
  lemma ReplaceHeadAppend<T>(x: T, l: seq<T>, m: seq<T>)
    requires |l| >= 1
    ensures [x] + (l + m)[1..] == ([x] + l[1..]) + m
  {
    assert (l + m)[1..] == l[1..] + m;
  }

  /** Splitting a join of separator-free pieces gives the pieces back. */
  lemma {:induction false} SplitJoin(parts: seq<string>, sep: char)
    requires |parts| >= 1
    requires forall i :: 0 <= i < |parts| ==> sep !in parts[i]
    ensures Split(Join(parts, sep), sep) == parts
    decreases |parts|
  {
    SplitWithoutSeparator(parts[0], sep);
    if |parts| > 1 {
      SplitJoin(parts[1..], sep);
      SplitAroundSeparator(parts[0], Join(parts[1..], sep), sep);
      assert parts == [parts[0]] + parts[1..];
    }
  }

  /** Joining with a first piece that is itself a concatenation. */
  lemma JoinFirstConcat(x: string, y: string, rest: seq<string>, sep: char)
    ensures Join([x + y] + rest, sep) == x + Join([y] + rest, sep)
  {
    if |rest| > 0 {
      assert ([x + y] + rest)[1..] == rest;
      assert ([y] + rest)[1..] == rest;
    }
  }

  /** Joining with one more piece at the end puts a separator and that piece
      after the join of the others. */
  lemma {:induction false} JoinAppend(parts: seq<string>, x: string, sep: char)
    requires |parts| >= 1
    ensures Join(parts + [x], sep) == Join(parts, sep) + [sep] + x
    decreases |parts|
  {
    if |parts| > 1 {
      JoinAppend(parts[1..], x, sep);
      assert (parts + [x])[1..] == parts[1..] + [x];
    } else {
      assert (parts + [x])[1..] == [x];
    }
  }

  /** A separator-free prefix only lengthens the first piece. */
  lemma {:induction false} SplitWithPrefix(k: string, s: string, sep: char)
    requires sep !in k
    ensures var pieces := Split(s, sep);
      Split(k + s, sep) == [k + pieces[0]] + pieces[1..]
    decreases |k|
  {
    if |k| > 0 {
      assert sep !in k[1..] by {
        forall j | 0 <= j < |k[1..]| ensures k[1..][j] != sep { assert k[1..][j] == k[j + 1]; }
      }
      SplitWithPrefix(k[1..], s, sep);
      assert (k + s)[0] == k[0] && (k + s)[1..] == k[1..] + s;
      assert [k[0]] + (k[1..] + Split(s, sep)[0]) == k + Split(s, sep)[0];
    } else {
      assert k + s == s && k + Split(s, sep)[0] == Split(s, sep)[0];
      assert Split(s, sep) == [Split(s, sep)[0]] + Split(s, sep)[1..];
    }
  }

  /** The first character of a join is that of its first piece. */
  lemma JoinFirstChar(parts: seq<string>, sep: char)
    requires |parts| >= 1 && |parts[0]| > 0
    ensures |Join(parts, sep)| > 0 && Join(parts, sep)[0] == parts[0][0]
  {
  }

  /** The last character of a join is that of its last piece. */
  lemma {:induction false} JoinLastChar(parts: seq<string>, sep: char)
    requires |parts| >= 1 && |parts[|parts| - 1]| > 0
    ensures var j := Join(parts, sep); var last := parts[|parts| - 1];
      |j| > 0 && j[|j| - 1] == last[|last| - 1]
    decreases |parts|
  {
    if |parts| > 1 {
      JoinLastChar(parts[1..], sep);
      assert parts[1..][|parts[1..]| - 1] == parts[|parts| - 1];
    }
  }

  /** Every piece of a split is a separator-bounded part of the string; in
      particular the last piece is the part after the last separator. */
  lemma {:induction false} SplitLastPiece(s: string, sep: char)
    ensures var pieces := Split(s, sep);
      var last := pieces[|pieces| - 1];
      |last| <= |s| && last == s[|s| - |last|..] &&
      (|last| < |s| ==> s[|s| - |last| - 1] == sep) &&
      (|pieces| > 1 ==> |last| < |s|)
    decreases |s|
  {
    if |s| > 0 {
      SplitLastPiece(s[1..], sep);
      var rest := Split(s[1..], sep);
      var last := rest[|rest| - 1];
      if s[0] == sep {
        assert Split(s, sep) == [""] + rest;
        assert Split(s, sep)[|Split(s, sep)| - 1] == last;
      } else if |rest| > 1 {
        assert Split(s, sep) == [[s[0]] + rest[0]] + rest[1..];
        assert Split(s, sep)[|Split(s, sep)| - 1] == last;
      } else {
        JoinSplit(s[1..], sep);
        assert Split(s, sep) == [[s[0]] + rest[0]];
        assert last == s[1..];
      }
    }
  }

  /* ---------------------------------------------------------------------- */
  /* indexOf / replace                                                      */
  /* ---------------------------------------------------------------------- */

  /** `pat` occurs in `s` at position `i`. */
  predicate OccursAt(s: string, pat: string, i: nat)
  {
    i + |pat| <= |s| && s[i..i + |pat|] == pat
  }

  /** The first position at or after `from` where `pat` occurs, if any. */
  function IndexOfFrom(s: string, pat: string, from: nat): (r: Option<nat>)
    requires from <= |s|
    ensures r.Some? ==> from <= r.value && OccursAt(s, pat, r.value)
    ensures r.Some? ==> forall j: nat :: from <= j < r.value ==> !OccursAt(s, pat, j)
    ensures r.None? ==> forall j: nat :: from <= j ==> !OccursAt(s, pat, j)
    decreases |s| - from
  {
    if OccursAt(s, pat, from) then Some(from)
    else if from == |s| then None
    else IndexOfFrom(s, pat, from + 1)
  }

  /** `s.indexOf(pat)`, with `None` for the source's -1. */
  function IndexOf(s: string, pat: string): (r: Option<nat>)
    ensures r.Some? ==> OccursAt(s, pat, r.value)
    ensures r.Some? ==> forall j: nat :: j < r.value ==> !OccursAt(s, pat, j)
    ensures r.None? <==> forall j: nat :: !OccursAt(s, pat, j)
  {
    IndexOfFrom(s, pat, 0)
  }

  /** `s.replace(pat, rep)` with a string pattern whose replacement holds no
      `$` pattern: only the first occurrence is replaced. */
  function ReplaceFirst(s: string, pat: string, rep: string): string
  {
    match IndexOf(s, pat)
    case None => s
    case Some(i) => s[..i] + rep + s[i + |pat|..]
  }

  /** With no occurrence of the pattern the text is unchanged. */
  lemma ReplaceFirstWithoutMatch(s: string, pat: string, rep: string)
    requires forall j: nat :: !OccursAt(s, pat, j)
    ensures ReplaceFirst(s, pat, rep) == s
  {
  }

  /** When `a + pat + b` has its first occurrence of `pat` right after `a`,
      only that occurrence is replaced: `b` is kept verbatim, whatever further
      occurrences of `pat` it holds. */
  lemma ReplaceFirstOnlyFirst(a: string, pat: string, b: string, rep: string)
    requires forall j: nat :: j < |a| ==> !OccursAt(a + pat + b, pat, j)
    ensures ReplaceFirst(a + pat + b, pat, rep) == a + rep + b
  {
    var s := a + pat + b;
    assert s[|a|..|a| + |pat|] == pat;
    assert OccursAt(s, pat, |a|);
    assert IndexOf(s, pat) == Some(|a|);
    assert s[..|a|] == a;
    assert s[|a| + |pat|..] == b;
  }

  /** A prefix of a join that reaches past the first piece holds the
      separator right after it. */
  lemma SeparatorAfterFirstPiece(t: string, parts: seq<string>, sep: char)
    requires |parts| > 1 && |t| > |parts[0]|
    requires |t| <= |Join(parts, sep)| && Join(parts, sep)[..|t|] == t
    ensures t[|parts[0]|] == sep
  {
    assert t[|parts[0]|] == Join(parts, sep)[|parts[0]|];
  }

  /** A separator-free prefix of a join lies within the first piece. */
  lemma PrefixOfJoin(t: string, parts: seq<string>, sep: char)
    requires |parts| >= 1
    requires forall j :: 0 <= j < |t| ==> t[j] != sep
    requires |t| <= |Join(parts, sep)| && Join(parts, sep)[..|t|] == t
    ensures |t| <= |parts[0]| && parts[0][..|t|] == t
  {
    var text := Join(parts, sep);
    var m := |parts[0]|;
    if |parts| > 1 && |t| > m {
      SeparatorAfterFirstPiece(t, parts, sep);
      assert false;
    }
  }

  /** An occurrence, in a join of separator-free lines, of a pattern made of a
      character, the separator and a separator-free tail, sits at a line break:
      the tail begins one of the lines after the first. */
  lemma {:induction false} OccurrenceAtLineBreak(lines: seq<string>, sep: char, c: char, tail: string, i: nat)
    requires forall k, j :: 0 <= k < |lines| && 0 <= j < |lines[k]| ==> lines[k][j] != sep
    requires forall j :: 0 <= j < |tail| ==> tail[j] != sep
    requires c != sep
    requires OccursAt(Join(lines, sep), [c, sep] + tail, i)
    ensures exists k :: 1 <= k < |lines| && tail <= lines[k]
    decreases |lines|
  {
    var text := Join(lines, sep);
    var pat := [c, sep] + tail;
    assert text[i] == c by { assert text[i..i + |pat|][0] == pat[0]; }
    assert text[i + 1] == sep by { assert text[i..i + |pat|][1] == pat[1]; }
    assert text[i + 2..i + |pat|] == tail by {
      assert text[i + 2..i + |pat|] == text[i..i + |pat|][2..];
      assert pat[2..] == tail;
    }
    if |lines| <= 1 {
      assert false;
    } else {
      var rest := Join(lines[1..], sep);
      var n := |lines[0]|;
      assert text == lines[0] + [sep] + rest;
      if i + 1 < n {
        assert false;
      } else if i == n {
        assert false;
      } else if i + 1 == n {
        assert text[n + 1..] == rest;
        assert |tail| <= |rest| && rest[..|tail|] == tail;
        PrefixOfJoin(tail, lines[1..], sep);
        assert tail <= lines[1];
      } else {
        assert text[n + 1..] == rest;
        assert rest[i - n - 1..i - n - 1 + |pat|] == text[i..i + |pat|];
        assert OccursAt(rest, pat, i - n - 1);
        OccurrenceAtLineBreak(lines[1..], sep, c, tail, i - n - 1);
        var k :| 1 <= k < |lines[1..]| && tail <= lines[1..][k];
        assert lines[1..][k] == lines[k + 1];
      }
    }
  }

  /* ---------------------------------------------------------------------- */
  /* trim                                                                    */
  /* ---------------------------------------------------------------------- */

  /** The characters `String.prototype.trim` removes: ECMAScript's WhiteSpace
      (tab, vertical tab, form feed, space, no-break space, byte order mark and
      the space separators of Unicode category Zs) and LineTerminator (line
      feed, carriage return, line and paragraph separators). */
  predicate IsJsWhitespace(c: char)
  {
    c == '\t' || c == '\n' || c == '\U{000B}' || c == '\U{000C}' || c == '\r' ||
    c == ' ' || c == '\U{00A0}' || c == '\U{1680}' || ('\U{2000}' <= c <= '\U{200A}') ||
    c == '\U{2028}' || c == '\U{2029}' || c == '\U{202F}' || c == '\U{205F}' ||
    c == '\U{3000}' || c == '\U{FEFF}'
  }

  predicate AllWhitespace(s: string)
  {
    forall i :: 0 <= i < |s| ==> IsJsWhitespace(s[i])
  }

  lemma AllWhitespaceConcat(x: string, y: string)
    requires AllWhitespace(x) && AllWhitespace(y)
    ensures AllWhitespace(x + y)
  {
    forall k | 0 <= k < |x + y| ensures IsJsWhitespace((x + y)[k]) {
      if k < |x| {
        assert (x + y)[k] == x[k];
      } else {
        assert (x + y)[k] == y[k - |x|];
      }
    }
  }

  /** `s` without its leading whitespace. */
  function TrimStart(s: string): (r: string)
    ensures |r| <= |s| && r == s[|s| - |r|..]
    ensures AllWhitespace(s[..|s| - |r|])
    ensures r == [] || !IsJsWhitespace(r[0])
    decreases |s|
  {
    if |s| > 0 && IsJsWhitespace(s[0]) then
      var r := TrimStart(s[1..]);
      assert s[1..][|s| - 1 - |r|..] == s[|s| - |r|..];
      assert s[..|s| - |r|] == [s[0]] + s[1..][..|s| - 1 - |r|];
      AllWhitespaceConcat([s[0]], s[1..][..|s| - 1 - |r|]);
      r
    else
      assert s[..0] == [];
      s
  }

  /** `s` without its trailing whitespace. */
  function TrimEnd(s: string): (r: string)
    ensures |r| <= |s| && r == s[..|r|]
    ensures AllWhitespace(s[|r|..])
    ensures r == [] || !IsJsWhitespace(r[|r| - 1])
    decreases |s|
  {
    if |s| > 0 && IsJsWhitespace(s[|s| - 1]) then
      var r := TrimEnd(s[..|s| - 1]);
      assert s[..|s| - 1][..|r|] == s[..|r|];
      assert s[|r|..] == s[..|s| - 1][|r|..] + [s[|s| - 1]];
      AllWhitespaceConcat(s[..|s| - 1][|r|..], [s[|s| - 1]]);
      r
    else
      assert s[|s|..] == [];
      s
  }

  /** `s.trim()`: whitespace removed from both ends, so that neither end of
      the result is whitespace. */
  function Trim(s: string): (r: string)
    ensures |r| <= |s|
    ensures r == [] || (!IsJsWhitespace(r[0]) && !IsJsWhitespace(r[|r| - 1]))
  {
    var t := TrimStart(s);
    var r := TrimEnd(t);
    assert r == [] || r[0] == t[0];
    r
  }

  /** `r` sits at offset `i` of `s` with only whitespace before and after it. */
  predicate MiddleAt(s: string, r: string, i: nat)
  {
    i + |r| <= |s| && s[i..i + |r|] == r && AllWhitespace(s[..i]) && AllWhitespace(s[i + |r|..])
  }

  /** `trim` removes only whitespace, and only at the ends: the result is a
      contiguous middle of `s` with nothing but whitespace around it. */
  lemma TrimKeepsMiddle(s: string)
    ensures exists i: nat :: MiddleAt(s, Trim(s), i)
  {
    var t := TrimStart(s);
    var r := TrimEnd(t);
    var i := |s| - |t|;
    assert Trim(s) == r;
    assert s[i..] == t;
    assert s[i..i + |r|] == t[..|r|];
    assert s[..i] == s[..|s| - |t|];
    assert s[i + |r|..] == t[|r|..];
    assert MiddleAt(s, r, i);
  }
}
