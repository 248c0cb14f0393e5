/**
 The single-key dotenv reader and writer.

 A file is its text, or nothing when it does not exist; the atomic rename makes a write
 one step.  Text is read with Python's universal newlines and split with splitlines().
 */
module Dotenv {
  import opened Wrappers
  import opened Text

  /** The characters str.splitlines() breaks at. */
  predicate IsBreak(c: char) {
    var u := c as int;
    0x0A <= u <= 0x0D || 0x1C <= u <= 0x1E || u == 0x85 || u == 0x2028 || u == 0x2029
  }

  lemma BreakChars(c: char)
    ensures IsBreak(c) <==> c in {'\n', '\U{0B}', '\U{0C}', '\r', '\U{1C}', '\U{1D}', '\U{1E}', '\U{85}', '\U{2028}', '\U{2029}'}
  {
  }

  predicate OneLine(s: string) {
    forall i :: 0 <= i < |s| ==> !IsBreak(s[i])
  }

  // ---------- strings ----------

  /** Index of the first `c`, or the length. */
  function Find(s: string, c: char): (i: nat)
    ensures i <= |s| && (i < |s| ==> s[i] == c) && forall j :: 0 <= j < i ==> s[j] != c
  {
    if s == "" || s[0] == c then 0 else Find(s[1..], c) + 1
  }

  /** partition("=")[0] and [2] */
  function Before(s: string): string {
    s[..Find(s, '=')]
  }

  function Behind(s: string): string {
    var i := Find(s, '=');
    if i < |s| then s[i + 1..] else ""
  }

  predicate IsQuote(c: char) {
    c == '"' || c == '\''
  }

  predicate Wrapped(s: string) {
    |s| >= 2 && s[0] == s[|s| - 1] && IsQuote(s[0])
  }

  /** Text mode reading: "\r\n" and "\r" become "\n". */
  function Universal(s: string): string {
    if s == "" then ""
    else if s[0] == '\r' then "\n" + Universal(if |s| > 1 && s[1] == '\n' then s[2..] else s[1..])
    else [s[0]] + Universal(s[1..])
  }

  function FirstBreak(s: string): (i: nat)
    ensures i <= |s| && (i < |s| ==> IsBreak(s[i])) && forall j :: 0 <= j < i ==> !IsBreak(s[j])
  {
    if s == "" || IsBreak(s[0]) then 0 else FirstBreak(s[1..]) + 1
  }

  /** splitlines(); the text has no "\r" left, so every break is one character. */
  function SplitLines(s: string): (lines: seq<string>)
    ensures forall i :: 0 <= i < |lines| ==> OneLine(lines[i])
    decreases |s|
  {
    if s == "" then [] else
      var i := FirstBreak(s);
      if i == |s| then [s] else [s[..i]] + SplitLines(s[i + 1..])
  }

  /** "\n".join(lines) + "\n" */
  function JoinLines(lines: seq<string>): string {
    if |lines| == 0 then "\n"
    else if |lines| == 1 then lines[0] + "\n"
    else lines[0] + "\n" + JoinLines(lines[1..])
  }

  type File = Option<string>

  function LinesOf(file: File): seq<string> {
    if file.None? then [] else SplitLines(Universal(file.value))
  }

  // ---------- reading ----------

  /** A line the reader considers at all: not blank, not a comment, with an "=". */
  predicate Assigns(line: string) {
    var s := Strip(line);
    s != "" && s[0] != '#' && '=' in s
  }

  function NameOf(line: string): string {
    Strip(Before(Strip(line)))
  }

  function ValueOf(line: string): string {
    var v := Strip(Behind(Strip(line)));
    if Wrapped(v) then v[1..|v| - 1] else v
  }

  predicate Defines(line: string, key: string) {
    Assigns(line) && NameOf(line) == key
  }

  /** The value on the first line that defines `key`. */
  function ReadLines(lines: seq<string>, key: string): Option<string> {
    if lines == [] then None
    else if Defines(lines[0], key) then Some(ValueOf(lines[0]))
    else ReadLines(lines[1..], key)
  }

  predicate FirstDefines(lines: seq<string>, i: int, key: string) {
    0 <= i < |lines| && Defines(lines[i], key) && forall j :: 0 <= j < i ==> !Defines(lines[j], key)
  }

  /** The first line that defines the key decides. */
  lemma {:induction false} ReadIsFirst(lines: seq<string>, key: string)
    ensures ReadLines(lines, key) == None <==> forall i :: 0 <= i < |lines| ==> !Defines(lines[i], key)
    ensures forall i :: FirstDefines(lines, i, key) ==> ReadLines(lines, key) == Some(ValueOf(lines[i]))
  {
    hide Defines, ValueOf;
    if lines != [] {
      var rest := lines[1..];
      ReadIsFirst(rest, key);
      assert forall i :: 0 <= i < |rest| ==> rest[i] == lines[i + 1];
      forall i | FirstDefines(lines, i, key)
        ensures ReadLines(lines, key) == Some(ValueOf(lines[i]))
      {
        if i > 0 {
          assert FirstDefines(rest, i - 1, key);
        }
      }
    }
  }

  method ReadDotenvValue(file: File, key: string) returns (value: Option<string>)
    ensures value == ReadLines(LinesOf(file), key)
  {
    if file.None? {
      return None;
    }
    var lines := SplitLines(Universal(file.value));
    var i := 0;
    while i < |lines|
      invariant 0 <= i <= |lines|
      invariant ReadLines(lines, key) == ReadLines(lines[i..], key)
    {
      var line := lines[i];
      assert lines[i..][0] == line && lines[i..][1..] == lines[i + 1..];
      i := i + 1;
      var stripped := Strip(line);
      if stripped == "" || stripped[0] == '#' || '=' !in stripped {
        continue;
      }
      if Strip(Before(stripped)) != key {
        continue;
      }
      var v := Strip(Behind(stripped));
      if |v| >= 2 && v[0] == v[|v| - 1] && IsQuote(v[0]) {
        v := v[1..|v| - 1];
      }
      return Some(v);
    }
    value := None;
  }

  // ---------- writing ----------

  function Quote(value: string): string {
    if value != "" && value[0] == value[|value| - 1] && IsQuote(value[0]) then value
    else "'" + value + "'"
  }

  function NewLine(key: string, value: string): string {
    key + "=" + Quote(value)
  }

  /** Replace the first line named `key`, or append. */
  function SetLine(lines: seq<string>, key: string, line: string): seq<string> {
    if lines == [] then [line]
    else if NameOf(lines[0]) == key then [line] + lines[1..]
    else [lines[0]] + SetLine(lines[1..], key, line)
  }

  function Written(file: File, key: string, value: string): File {
    Some(JoinLines(SetLine(LinesOf(file), key, NewLine(key, value))))
  }

  method WriteDotenvValue(file: File, key: string, value: string) returns (written: File)
    ensures written == Written(file, key, value)
  {
    hide NameOf, Quote, LinesOf, JoinLines, SetLine;
    var newLine := NewLine(key, value);
    var lines := LinesOf(file);
    ghost var p := FirstNamed(lines, key);
    var replaced, out := false, [];
    var i := 0;
    while i < |lines|
      invariant 0 <= i <= |lines| && |out| == i
      invariant replaced <==> p < i
      invariant forall j :: 0 <= j < i ==> out[j] == if j == p then newLine else lines[j]
    {
      var line := lines[i];
      if NameOf(line) == key && !replaced {
        out := out + [newLine];
        replaced := true;
      } else {
        out := out + [line];
      }
      i := i + 1;
    }
    if !replaced {
      assert out == lines;
      out := out + [newLine];
      assert lines[..p] + [newLine] + [] == out;
    } else {
      assert out == lines[..p] + [newLine] + lines[p + 1..];
    }
    SetChangesOneLine(lines, key, newLine);
    written := Some(JoinLines(out));
  }

  // ---------- laws of the strings ----------

  function ReadValue(file: File, key: string): Option<string> {
    ReadLines(LinesOf(file), key)
  }

  /** A key the reader can find: trimmed, on one line, without "=", not a comment. */
  predicate WellFormed(key: string) {
    Strip(key) == key && OneLine(key) && '=' !in key && (key != "" ==> key[0] != '#')
  }

  lemma StripKeepsOneLine(s: string)
    requires OneLine(s)
    ensures OneLine(Strip(s)) && OneLine(Before(s)) && OneLine(Behind(s))
  {
    var a, b := StripIsTrim(s);
  }

  lemma ValueIsOneLine(line: string)
    requires OneLine(line)
    ensures OneLine(ValueOf(line))
  {
    StripKeepsOneLine(line);
    StripKeepsOneLine(Strip(line));
    StripKeepsOneLine(Behind(Strip(line)));
  }

  lemma {:induction false} FindFirst(s: string, t: string, c: char)
    requires c !in s
    ensures Find(s + [c] + t, c) == |s|
  {
    if s != "" {
      assert (s + [c] + t)[1..] == s[1..] + [c] + t;
      FindFirst(s[1..], t, c);
    }
  }

  lemma QuoteEdges(value: string)
    ensures var q := Quote(value); q != "" && IsQuote(q[0]) && IsQuote(q[|q| - 1]) && Strip(q) == q
  {
    TrimmedStays(Quote(value));
  }

  lemma NewLineParts(key: string, value: string)
    requires WellFormed(key)
    ensures var line := NewLine(key, value);
      Strip(line) == line && Before(line) == key && Behind(line) == Quote(value) && line[0] != '#' && '=' in line
  {
    var quoted, line := Quote(value), NewLine(key, value);
    QuoteEdges(value);
    assert line == key + ['='] + quoted;
    assert line[|line| - 1] == quoted[|quoted| - 1] && line[|key|] == '=';
    var a, b := StripIsTrim(key);
    if key != "" {
      assert a == 0 && b == |key| && line[0] == key[0];
    }
    TrimmedStays(line);
    FindFirst(key, quoted, '=');
  }

  lemma UnquoteExactly(value: string)
    ensures var q := Quote(value); (if Wrapped(q) then q[1..|q| - 1] else q) == value <==> !Wrapped(value)
  {
    var q := Quote(value);
    if !(value != "" && value[0] == value[|value| - 1] && IsQuote(value[0])) {
      assert q[1..|q| - 1] == value;
    }
  }

  /** The line written for a well-formed key is read back under that key, and its value comes back
      exactly when it was not itself wrapped in quotes. */
  lemma NewLineReads(key: string, value: string)
    requires WellFormed(key)
    ensures Defines(NewLine(key, value), key)
    ensures ValueOf(NewLine(key, value)) == value <==> !Wrapped(value)
    ensures OneLine(value) ==> OneLine(NewLine(key, value))
  {
    NewLineParts(key, value);
    QuoteEdges(value);
    UnquoteExactly(value);
    assert OneLine(value) ==> OneLine(Quote(value));
    hide Strip, Before, Behind, Quote, Wrapped;
  }

  /** A line as a person may write it, with space around the key and the value: it defines the key, and a value in
      matching single or double quotes is read without them, any other as it is. */
  lemma HandWrittenLine(a: string, key: string, b: string, c: string, v: string, d: string)
    requires Blank(a) && Blank(b) && Blank(c) && Blank(d)
    requires WellFormed(key) && key != "" && (v != "" ==> !IsSpace(v[0]) && !IsSpace(v[|v| - 1]))
    ensures var line := a + (key + b + "=" + c + v) + d;
      && Defines(line, key) && NameOf(line) == key
      && ValueOf(line) ==
           if |v| >= 2 && v[0] == v[|v| - 1] && (v[0] == '"' || v[0] == '\'') then v[1..|v| - 1] else v
  {
    HandWrittenParts(a, key, b, c, v, d);
    hide Strip, Before, Behind, WellFormed, IsSpace, Blank;
    var line := a + (key + b + "=" + c + v) + d;
    assert NameOf(line) == Strip(key + b) && Strip(Behind(Strip(line))) == Strip(c + v);
    StripSpaces("", key, b);
    StripSpaces(c, v, "");
    assert "" + key + b == key + b && c + v + "" == c + v;
  }

  lemma HandWrittenParts(a: string, key: string, b: string, c: string, v: string, d: string)
    requires Blank(a) && Blank(b) && Blank(c) && Blank(d)
    requires WellFormed(key) && key != "" && (v != "" ==> !IsSpace(v[0]) && !IsSpace(v[|v| - 1]))
    ensures !IsSpace(key[0]) && !IsSpace(key[|key| - 1]) && Blank("") && key[0] != '#'
    ensures var t := Strip(a + (key + b + "=" + c + v) + d);
      && t != "" && t[0] == key[0] && '=' in t && Before(t) == key + b
      && Strip(Behind(t)) == Strip(c + v)
  {
    var i, j := StripIsTrim(key);
    assert i == 0 && j == |key|;
    assert '=' !in key + b by {
      assert !IsSpace('=');
    }
    var rest := if v == "" then "" else c + v;
    var core := key + b + "=" + rest;
    assert core == (key + b) + ['='] + rest;
    assert core[|key + b|] == '=';
    if v == "" {
      assert a + (key + b + "=" + c + v) + d == a + core + (c + d);
      StripSpaces(a, core, c + d);
      StripSpaces("", "", "");
      StripSpaces(c, "", "");
      assert "" + "" + "" == "" && c + "" + "" == c + v;
    } else {
      assert key + b + "=" + c + v == core;
      assert core[|core| - 1] == v[|v| - 1];
      StripSpaces(a, core, d);
    }
    FindFirst(key + b, rest, '=');
  }

  /** Blank lines, comments and lines without "=" define nothing; the name of a line without "=" is all of it. */
  lemma OtherLine(a: string, t: string, d: string, key: string)
    requires Blank(a) && Blank(d) && (t != "" ==> !IsSpace(t[0]) && !IsSpace(t[|t| - 1]))
    ensures t == "" || t[0] == '#' || '=' !in t ==> !Defines(a + t + d, key)
    ensures '=' !in t ==> NameOf(a + t + d) == t
  {
    StripSpaces(a, t, d);
    if '=' !in t {
      assert Before(t) == t;
      StripSpaces("", t, "");
      assert "" + t + "" == t;
    }
  }

  /** A written line: the value in single quotes, unless it starts and ends with the same quote already. */
  lemma NewLineIs(key: string, value: string)
    ensures NewLine(key, value) ==
      if value != "" && value[0] == value[|value| - 1] && (value[0] == '"' || value[0] == '\'') then key + "=" + value
      else key + "=" + ("'" + value + "'")
  {
  }

  // ---------- laws of the lines ----------

  /** Index of the first line named `key`, or the number of lines. */
  function FirstNamed(lines: seq<string>, key: string): (p: nat)
    ensures p <= |lines| && (p < |lines| ==> NameOf(lines[p]) == key)
    ensures forall i :: 0 <= i < p ==> NameOf(lines[i]) != key
  {
    if lines == [] || NameOf(lines[0]) == key then 0 else FirstNamed(lines[1..], key) + 1
  }

  /** The lines behind it. */
  function After(lines: seq<string>, key: string): seq<string> {
    var p := FirstNamed(lines, key);
    if p < |lines| then lines[p + 1..] else []
  }

  lemma Concat3<T>(a: seq<T>, b: seq<T>, c: seq<T>, d: seq<T>)
    ensures a + (b + c + d) == (a + b) + c + d
  {
  }

  lemma NamedLater(lines: seq<string>, key: string)
    requires lines != [] && NameOf(lines[0]) != key
    ensures lines[..FirstNamed(lines, key)] == [lines[0]] + lines[1..][..FirstNamed(lines[1..], key)]
    ensures After(lines, key) == After(lines[1..], key)
  {
    hide NameOf;
    var q := FirstNamed(lines[1..], key);
    assert FirstNamed(lines, key) == q + 1;
    hide FirstNamed;
    assert q < |lines[1..]| ==> lines[q + 2..] == lines[1..][q + 1..];
  }

  /** Only the first line named `key` changes; without one, the new line goes last. */
  lemma {:induction false} SetChangesOneLine(lines: seq<string>, key: string, line: string)
    ensures SetLine(lines, key, line) == lines[..FirstNamed(lines, key)] + [line] + After(lines, key)
  {
    hide NameOf;
    if lines != [] && NameOf(lines[0]) != key {
      hide FirstNamed, After;
      var rest := lines[1..];
      SetChangesOneLine(rest, key, line);
      NamedLater(lines, key);
      Concat3([lines[0]], rest[..FirstNamed(rest, key)], [line], After(rest, key));
    }
  }

  lemma {:induction false} UniversalIsIdentity(s: string)
    requires '\r' !in s
    ensures Universal(s) == s
  {
    if s != "" {
      UniversalIsIdentity(s[1..]);
    }
  }

  lemma {:induction false} UniversalConcat(s: string, t: string)
    requires s == "" || s[|s| - 1] != '\r'
    ensures Universal(s + t) == Universal(s) + Universal(t)
    decreases |s|
  {
    if s == "" {
      assert s + t == t;
    } else {
      var n := if s[0] == '\r' && |s| > 1 && s[1] == '\n' then 2 else 1;
      assert (s + t)[n..] == s[n..] + t;
      UniversalConcat(s[n..], t);
    }
  }

  /** The three line ends read the same. */
  lemma LineEndsRead(a: string, b: string)
    requires a == "" || a[|a| - 1] != '\r'
    ensures LinesOf(Some(a + "\r\n" + b)) == LinesOf(Some(a + "\n" + b))
    ensures b == "" || b[0] != '\n' ==> LinesOf(Some(a + "\r" + b)) == LinesOf(Some(a + "\n" + b))
  {
    hide SplitLines;
    assert ("\r\n" + b)[2..] == b && ("\r" + b)[1..] == b && ("\n" + b)[1..] == b;
    UniversalConcat(a, "\r\n" + b);
    UniversalConcat(a, "\r" + b);
    UniversalConcat(a, "\n" + b);
    assert a + "\r\n" + b == a + ("\r\n" + b) && a + "\r" + b == a + ("\r" + b) && a + "\n" + b == a + ("\n" + b);
  }

  lemma {:induction false} UniversalEnds(s: string)
    requires s != ""
    ensures Universal(s) != "" && (s[|s| - 1] == '\n' ==> Universal(s)[|Universal(s)| - 1] == '\n')
    decreases |s|
  {
    var n := if s[0] == '\r' && |s| > 1 && s[1] == '\n' then 2 else 1;
    if n < |s| {
      UniversalEnds(s[n..]);
    }
  }

  lemma {:induction false} BreakIn(s: string, t: string)
    requires FirstBreak(s) < |s|
    ensures FirstBreak(s + t) == FirstBreak(s)
  {
    if !IsBreak(s[0]) {
      assert (s + t)[1..] == s[1..] + t;
      BreakIn(s[1..], t);
    }
  }

  lemma SplitStep(s: string)
    ensures s != "" && FirstBreak(s) < |s| ==> SplitLines(s) == [s[..FirstBreak(s)]] + SplitLines(s[FirstBreak(s) + 1..])
    ensures s != "" && FirstBreak(s) == |s| ==> SplitLines(s) == [s]
    ensures SplitLines("") == []
  {
    hide FirstBreak, IsBreak, OneLine;
  }

  /** Text that ends with a line break can be split apart from what follows it. */
  lemma {:induction false} SplitConcat(s: string, t: string)
    requires s == "" || IsBreak(s[|s| - 1])
    ensures SplitLines(s + t) == SplitLines(s) + SplitLines(t)
    decreases |s|
  {
    hide SplitLines, FirstBreak, IsBreak;
    SplitStep(s);
    if s == "" {
      assert s + t == t;
    } else {
      var i := FirstBreak(s);
      assert i < |s|;
      BreakIn(s, t);
      SplitStep(s + t);
      assert (s + t)[..i] == s[..i] && (s + t)[i + 1..] == s[i + 1..] + t;
      SplitConcat(s[i + 1..], t);
    }
  }

  /** The lines that come back when `text` is written as one line of a file. */
  function Pieces(text: string): seq<string> {
    SplitLines(Universal(text + "\n"))
  }

  lemma OneLineIsOnePiece(text: string)
    requires OneLine(text)
    ensures Pieces(text) == [text]
  {
    var s := text + "\n";
    assert '\r' !in s by {
      assert IsBreak('\r') && forall i :: 0 <= i < |text| ==> !IsBreak(text[i]);
    }
    UniversalIsIdentity(s);
    FirstBreakAt(text, "\n");
    assert s[|text| + 1..] == "" && s[..|text|] == text;
    hide SplitLines, Universal, FirstBreak;
    SplitStep(s);
  }

  lemma PiecesConcat(text: string, more: string)
    ensures Pieces(text + "\n" + more) == Pieces(text) + Pieces(more)
  {
    hide SplitLines, Universal;
    var s, t := text + "\n", more + "\n";
    assert text + "\n" + more + "\n" == s + t;
    UniversalConcat(s, t);
    UniversalEnds(s);
    SplitConcat(Universal(s), Universal(t));
  }

  function AllPieces(lines: seq<string>): seq<string> {
    if lines == [] then [] else Pieces(lines[0]) + AllPieces(lines[1..])
  }

  lemma {:induction false} AllPiecesConcat(lines: seq<string>, more: seq<string>)
    ensures AllPieces(lines + more) == AllPieces(lines) + AllPieces(more)
  {
    hide Pieces;
    if lines == [] {
      assert lines + more == more;
    } else {
      assert (lines + more)[1..] == lines[1..] + more;
      AllPiecesConcat(lines[1..], more);
    }
  }

  lemma {:induction false} OneLinesArePieces(lines: seq<string>)
    requires forall i :: 0 <= i < |lines| ==> OneLine(lines[i])
    ensures AllPieces(lines) == lines
  {
    hide Pieces, OneLine;
    if lines != [] {
      OneLineIsOnePiece(lines[0]);
      OneLinesArePieces(lines[1..]);
    }
  }

  /** What comes back when any lines are joined and read. */
  lemma {:induction false} SplitJoinAny(lines: seq<string>)
    requires lines != []
    ensures SplitLines(Universal(JoinLines(lines))) == AllPieces(lines)
  {
    hide SplitLines, Universal;
    if |lines| > 1 {
      var first, rest := lines[0] + "\n", JoinLines(lines[1..]);
      UniversalConcat(first, rest);
      UniversalEnds(first);
      SplitConcat(Universal(first), Universal(rest));
      SplitJoinAny(lines[1..]);
    } else {
      assert AllPieces(lines[1..]) == [];
    }
  }

  /** Joining one-line strings and reading them back is the identity. */
  lemma SplitJoin(lines: seq<string>)
    requires lines != [] && forall i :: 0 <= i < |lines| ==> OneLine(lines[i])
    ensures SplitLines(Universal(JoinLines(lines))) == lines
  {
    SplitJoinAny(lines);
    OneLinesArePieces(lines);
  }

  // ---------- a value with line breaks ----------

  lemma {:induction false} StripRightKeeps(s: string, t: string)
    requires t != "" && !IsSpace(t[0])
    ensures StripRight(s + t) == s + StripRight(t) && StripRight(t) != "" && StripRight(t)[0] == t[0]
    decreases |t|
  {
    if IsSpace(t[|t| - 1]) {
      assert |t| > 1 && (s + t)[..|s + t| - 1] == s + t[..|t| - 1];
      StripRightKeeps(s, t[..|t| - 1]);
    }
  }

  /** The beginning of the written line already defines the key. */
  lemma StartDefines(key: string, t: string)
    requires WellFormed(key) && t != "" && IsQuote(t[0])
    ensures Defines(key + "=" + t, key)
  {
    var line := key + "=" + t;
    var a, b := StripIsTrim(key);
    assert !IsSpace(line[0]) && StripLeft(line) == line;
    StripRightKeeps(key + "=", t);
    var rest := StripRight(t);
    assert Strip(line) == key + ['='] + rest;
    FindFirst(key, rest, '=');
    assert Before(Strip(line)) == key;
    assert Strip(line)[|key|] == '=';
  }

  lemma UniversalHead(s: string)
    requires s != ""
    ensures Universal(s) != "" && Universal(s)[0] == if s[0] == '\r' then '\n' else s[0]
  {
  }

  lemma FirstBreakAt(s: string, t: string)
    requires OneLine(s) && t != "" && IsBreak(t[0])
    ensures FirstBreak(s + t) == |s|
  {
    var i := FirstBreak(s + t);
    hide IsBreak, FirstBreak;
    assert (s + t)[|s|] == t[0];
    assert forall j :: 0 <= j < |s| ==> (s + t)[j] == s[j];
  }

  lemma NoReturn(s: string)
    requires OneLine(s)
    ensures '\r' !in s
  {
    assert IsBreak('\r');
  }

  /** Universal newlines keep the text up to its first break, and that a break is there. */
  lemma FirstPiece(s: string, t: string)
    requires OneLine(s) && t != "" && IsBreak(t[0])
    ensures FirstBreak(s + t) == |s| && Universal(s + t) == s + Universal(t) && FirstBreak(Universal(s + t)) == |s|
  {
    FirstBreakAt(s, t);
    NoReturn(s);
    UniversalHead(t);
    assert IsBreak('\n');
    hide Universal, IsBreak, FirstBreak, OneLine;
    UniversalConcat(s, t);
    UniversalIsIdentity(s);
    FirstBreakAt(s, Universal(t));
  }

  /** However many lines a written value makes, the first of them defines the key; the value stays on that line
      exactly when it has no line break. */
  lemma WrittenPieces(key: string, value: string)
    requires WellFormed(key)
    ensures var pieces := Pieces(NewLine(key, value));
      && pieces != [] && Defines(pieces[0], key) && (forall i :: 0 <= i < |pieces| ==> OneLine(pieces[i]))
      && (|pieces| == 1 <==> OneLine(value))
      && (OneLine(value) ==> pieces == [NewLine(key, value)])
  {
    var line := NewLine(key, value);
    if OneLine(value) {
      NewLineReads(key, value);
      OneLineIsOnePiece(line);
    } else {
      BrokenPieces(key, value);
    }
  }

  lemma BrokenPieces(key: string, value: string)
    requires WellFormed(key) && !OneLine(value)
    ensures var pieces := Pieces(NewLine(key, value)); |pieces| > 1 && Defines(pieces[0], key)
  {
    hide WellFormed, Defines, Strip, Universal, SplitLines, FirstBreak;
    var line, quoted, head := NewLine(key, value), Quote(value), key + "=";
    QuoteEdges(value);
    assert OneLine(head) && line == head + quoted by {
      KeyStart(key);
    }
    var s := line + "\n";
    BreakBefore(head, value);
    var i := FirstBreak(s);
    assert s[..i] + s[i..] == s;
    FirstPiece(s[..i], s[i..]);
    var u := Universal(s);
    MoreThanBreak(s[i..]);
    SplitStep(u);
    SplitStep(u[i + 1..]);
    assert u[..i] == s[..i] && s[..i] == head + quoted[..i - |head|];
    StartDefines(key, quoted[..i - |head|]);
  }

  lemma KeyStart(key: string)
    requires WellFormed(key)
    ensures OneLine(key + "=")
  {
  }

  /** The first break of a broken value lies strictly inside its quotes. */
  lemma BreakBefore(head: string, value: string)
    requires OneLine(head) && !OneLine(value)
    ensures var line := head + Quote(value); |head| < FirstBreak(line + "\n") < |line| - 1
  {
    var quoted := Quote(value);
    var line := head + quoted;
    QuoteEdges(value);
    var j :| 0 <= j < |value| && IsBreak(value[j]);
    assert exists k :: 0 < k < |quoted| - 1 && IsBreak(quoted[k]) by {
      if quoted == value {
        assert IsBreak(quoted[j]);
      } else {
        assert IsBreak(quoted[j + 1]);
      }
    }
    var k :| 0 < k < |quoted| - 1 && IsBreak(quoted[k]);
    assert IsBreak((line + "\n")[|head| + k]);
    var i := FirstBreak(line + "\n");
    assert i <= |head| + k;
    assert i >= |head| by {
      assert forall m :: 0 <= m < |head| ==> (line + "\n")[m] == head[m];
    }
    assert (line + "\n")[|head|] == quoted[0];
  }

  /** A break with more text behind it, the last of it not a break's other half. */
  lemma MoreThanBreak(s: string)
    requires |s| >= 2 && IsBreak(s[0]) && s[|s| - 1] == '\n' && !IsBreak(s[|s| - 2])
    ensures |Universal(s)| > 1
  {
    var n := if s[0] == '\r' && s[1] == '\n' then 2 else 1;
    if n < |s| {
      UniversalEnds(s[n..]);
    }
  }

  // ---------- laws of the file ----------

  /** The file after a write, line by line, for any value: the lines the value makes take the place of the first
      line named by the key, or go last, and every other line stays as it was, in its place. */
  lemma WrittenLines(file: File, key: string, value: string)
    ensures var lines := LinesOf(file);
      LinesOf(Written(file, key, value)) == lines[..FirstNamed(lines, key)] + Pieces(NewLine(key, value)) + After(lines, key)
  {
    var lines, line := LinesOf(file), NewLine(key, value);
    var before, after := lines[..FirstNamed(lines, key)], After(lines, key);
    assert LinesOf(Written(file, key, value)) == SplitLines(Universal(JoinLines(SetLine(lines, key, line))));
    hide NewLine, NameOf, FirstNamed, SetLine, SplitLines, Universal, JoinLines, After, LinesOf, OneLine;
    SetChangesOneLine(lines, key, line);
    AfterIsWithin(lines, key);
    SplitJoinAny(before + [line] + after);
    hide Pieces, AllPieces;
    AllPiecesConcat(before + [line], after);
    AllPiecesConcat(before, [line]);
    OnePieceOnly(line);
    OneLinesArePieces(before);
    OneLinesArePieces(after);
  }

  lemma AfterIsWithin(lines: seq<string>, key: string)
    ensures forall i :: 0 <= i < |After(lines, key)| ==> After(lines, key)[i] == lines[FirstNamed(lines, key) + 1 + i]
  {
    hide NameOf;
  }

  lemma OnePieceOnly(line: string)
    ensures AllPieces([line]) == Pieces(line)
  {
    hide Pieces;
    assert [line][1..] == [] && AllPieces([]) == [];
  }

  lemma {:induction false} ReadConcat(lines: seq<string>, more: seq<string>, key: string)
    ensures ReadLines(lines + more, key) == if ReadLines(lines, key).Some? then ReadLines(lines, key) else ReadLines(more, key)
  {
    hide Defines, ValueOf;
    if lines == [] {
      assert lines + more == more;
    } else {
      assert (lines + more)[1..] == lines[1..] + more;
      ReadConcat(lines[1..], more, key);
    }
  }

  lemma {:induction false} NotNamedNotRead(lines: seq<string>, key: string)
    requires forall i :: 0 <= i < |lines| ==> NameOf(lines[i]) != key
    ensures ReadLines(lines, key).None?
  {
    hide NameOf, Assigns, ValueOf;
    if lines != [] {
      NotNamedNotRead(lines[1..], key);
    }
  }

  /** What the key reads as after a write: what the first line of the value says. */
  lemma ReadWritten(file: File, key: string, value: string)
    requires WellFormed(key)
    ensures var pieces := Pieces(NewLine(key, value));
      pieces != [] && OneLine(pieces[0]) && ReadValue(Written(file, key, value), key) == Some(ValueOf(pieces[0]))
  {
    hide NewLine, Pieces, LinesOf, Written, ValueOf, WellFormed, Assigns, NameOf, OneLine;
    var lines, pieces := LinesOf(file), Pieces(NewLine(key, value));
    var before := lines[..FirstNamed(lines, key)];
    WrittenLines(file, key, value);
    WrittenPieces(key, value);
    NotNamedNotRead(before, key);
    ReadConcat(before, pieces, key);
    ReadConcat(before + pieces, After(lines, key), key);
  }

  /** Reading after writing gives the value back if and only if it has no line break and is not itself
      wrapped in matching quotes. */
  lemma RoundTripExactly(file: File, key: string, value: string)
    requires WellFormed(key)
    ensures ReadValue(Written(file, key, value), key) == Some(value) <==> OneLine(value) && !Wrapped(value)
  {
    hide NewLine, Pieces, WellFormed, Wrapped, ValueOf, Written, ReadValue;
    ReadWritten(file, key, value);
    ValueIsOneLine(Pieces(NewLine(key, value))[0]);
    WrittenPieces(key, value);
    NewLineReads(key, value);
  }

  /** Values that do not come back: one already in quotes loses them, and one with a line break is cut. */
  lemma QuotesAreLost(file: File, key: string, v: string)
    requires WellFormed(key) && OneLine(v)
    ensures ReadValue(Written(file, key, "'" + v + "'"), key) == Some(v)
    ensures ReadValue(Written(file, key, v + "\n"), key) != Some(v + "\n")
  {
    var value, line := "'" + v + "'", NewLine(key, "'" + v + "'");
    assert OneLine(value) && Quote(value) == value && value[1..|value| - 1] == v;
    assert !OneLine(v + "\n") by {
      assert IsBreak((v + "\n")[|v|]);
    }
    NewLineParts(key, value);
    QuoteEdges(value);
    assert ValueOf(line) == v;
    hide NewLine, Pieces, WellFormed, Wrapped, ValueOf, Written, ReadValue, OneLine;
    ReadWritten(file, key, value);
    WrittenPieces(key, value);
    RoundTripExactly(file, key, v + "\n");
  }

  /** When a write leaves the reading of another key alone: an earlier line defines that key, or the further lines
      of the value do not define it, or they say what the lines behind them say. */
  lemma OtherKeysExactly(file: File, key: string, value: string, other: string)
    requires WellFormed(key) && other != key
    ensures var lines := LinesOf(file);
      var extra := Pieces(NewLine(key, value))[1..];
      ReadValue(Written(file, key, value), other) == ReadValue(file, other) <==>
      || ReadLines(lines[..FirstNamed(lines, key)], other).Some?
      || ReadLines(extra, other).None?
      || ReadLines(extra, other) == ReadLines(After(lines, key), other)
  {
    hide NewLine, Pieces, LinesOf, Written, ValueOf, WellFormed, Assigns, NameOf, OneLine;
    var lines, pieces := LinesOf(file), Pieces(NewLine(key, value));
    var p := FirstNamed(lines, key);
    WrittenLines(file, key, value);
    WrittenPieces(key, value);
    ReadConcat(lines[..p], pieces, other);
    ReadConcat(lines[..p] + pieces, After(lines, key), other);
    ReadConcat([pieces[0]], pieces[1..], other);
    assert pieces == [pieces[0]] + pieces[1..];
    ReadOne(pieces[0], other);
    ReadConcat(lines[..p], lines[p..], other);
    assert lines == lines[..p] + lines[p..];
    if p < |lines| {
      ReadConcat([lines[p]], lines[p + 1..], other);
      assert lines[p..] == [lines[p]] + lines[p + 1..];
      ReadOne(lines[p], other);
    }
  }

  lemma ReadOne(line: string, key: string)
    ensures ReadLines([line], key) == if Defines(line, key) then Some(ValueOf(line)) else None
  {
    hide Defines, ValueOf;
    assert [line][1..] == [] && ReadLines([], key) == None;
  }

  /** A write of a value without line breaks changes no other key. */
  lemma OtherKeysUntouched(file: File, key: string, value: string, other: string)
    requires WellFormed(key) && OneLine(value) && other != key
    ensures ReadValue(Written(file, key, value), other) == ReadValue(file, other)
  {
    hide NewLine, Pieces, LinesOf, Written, ReadValue, NameOf;
    OtherKeysExactly(file, key, value, other);
    WrittenPieces(key, value);
    assert ReadLines([], other) == None;
  }

  function Smuggling(other: string, v: string): string {
    "x\n" + NewLine(other, v) + "\ny"
  }

  lemma Regrouped(head: string, q: string, x: string, n: string, line: string, y: string)
    ensures head + (q + (x + n + line + n + y) + q) == (head + q + x) + n + (line + n + (y + q))
  {
  }

  lemma SmugglingText(key: string, other: string, v: string)
    ensures NewLine(key, Smuggling(other, v)) == (key + "=" + "'" + "x") + "\n" + (NewLine(other, v) + "\n" + ("y" + "'"))
  {
    var line := NewLine(other, v);
    assert Quote(Smuggling(other, v)) == "'" + ("x" + "\n" + line + "\n" + "y") + "'" by {
      assert Smuggling(other, v)[0] == 'x';
    }
    hide Quote;
    Regrouped(key + "=", "'", "x", "\n", line, "y");
  }

  lemma SmugglingPieces(key: string, other: string, v: string)
    requires OneLine(key) && OneLine(NewLine(other, v))
    ensures Pieces(NewLine(key, Smuggling(other, v))) == [key + "=" + "'" + "x", NewLine(other, v), "y" + "'"]
  {
    var first, line, last := key + "=" + "'" + "x", NewLine(other, v), "y" + "'";
    assert OneLine(first) && OneLine(last);
    SmugglingText(key, other, v);
    hide NewLine, Smuggling, Pieces, OneLine;
    PiecesConcat(first, line + "\n" + last);
    PiecesConcat(line, last);
    OneLineIsOnePiece(first);
    OneLineIsOnePiece(line);
    OneLineIsOnePiece(last);
  }

  /** In a new file, a value with a further line that defines another key sets that key. */
  lemma BrokenValueSetsAnotherKey(key: string, other: string, v: string)
    requires WellFormed(key) && WellFormed(other) && other != key && OneLine(v)
    ensures ReadValue(None, other) == None
    ensures ReadValue(Written(None, key, Smuggling(other, v)), other) == Some(ValueOf(NewLine(other, v)))
  {
    var line, value := NewLine(other, v), Smuggling(other, v);
    assert OneLine(key);
    hide Assigns, NameOf, ValueOf, OneLine, NewLine, WellFormed, Pieces, Written, Smuggling;
    NewLineReads(other, v);
    SmugglingPieces(key, other, v);
    WrittenPieces(key, value);
    WrittenLines(None, key, value);
    var first, last := key + "=" + "'" + "x", "y" + "'";
    assert LinesOf(Written(None, key, value)) == [first] + ([line] + [last]);
    ReadConcat([first], [line] + [last], other);
    ReadConcat([line], [last], other);
    ReadOne(first, other);
    ReadOne(line, other);
  }

  // ---------- writing twice ----------

  function TextSize(lines: seq<string>): nat {
    if lines == [] then 0 else |lines[0]| + 1 + TextSize(lines[1..])
  }

  lemma {:induction false} JoinSize(lines: seq<string>)
    requires lines != []
    ensures |JoinLines(lines)| == TextSize(lines)
  {
    if |lines| > 1 {
      JoinSize(lines[1..]);
    }
  }

  lemma {:induction false} SizeConcat(lines: seq<string>, more: seq<string>)
    ensures TextSize(lines + more) == TextSize(lines) + TextSize(more)
  {
    if lines == [] {
      assert lines + more == more;
    } else {
      assert (lines + more)[1..] == lines[1..] + more;
      SizeConcat(lines[1..], more);
    }
  }

  lemma LeftBehind(before: seq<string>, extra: seq<string>, after: seq<string>)
    requires before != []
    ensures JoinLines(before + extra + after) == JoinLines(before + after) <==> extra == []
  {
    hide JoinLines;
    JoinSize(before + extra + after);
    JoinSize(before + after);
    SizeConcat(before + extra, after);
    SizeConcat(before, extra);
    SizeConcat(before, after);
    if extra == [] {
      assert before + extra == before;
    }
  }

  lemma FirstNamedIs(before: seq<string>, named: string, after: seq<string>, key: string)
    requires NameOf(named) == key && forall i :: 0 <= i < |before| ==> NameOf(before[i]) != key
    ensures var all := before + [named] + after;
      all[..FirstNamed(all, key)] == before && After(all, key) == after
  {
    hide NameOf;
    var all, p := before + [named] + after, FirstNamed(before + [named] + after, key);
    assert all[|before|] == named && forall i :: 0 <= i < |before| ==> all[i] == before[i];
    assert p == |before|;
  }

  /** Setting a key again drops only the first of the lines an earlier value made. */
  lemma SetAgain(before: seq<string>, pieces: seq<string>, after: seq<string>, key: string, line: string)
    requires pieces != [] && NameOf(pieces[0]) == key && forall i :: 0 <= i < |before| ==> NameOf(before[i]) != key
    ensures SetLine(before + pieces + after, key, line) == before + [line] + pieces[1..] + after
  {
    hide NameOf, SetLine, FirstNamed, After;
    var rest := pieces[1..] + after;
    assert before + pieces + after == before + [pieces[0]] + rest;
    FirstNamedIs(before, pieces[0], rest, key);
    SetChangesOneLine(before + [pieces[0]] + rest, key, line);
  }

  /** Writing twice is writing the last value if and only if the first value had no line break: the further lines
      of a broken value stay behind. */
  lemma LastWriteWinsExactly(file: File, key: string, first: string, second: string)
    requires WellFormed(key)
    ensures Written(Written(file, key, first), key, second) == Written(file, key, second) <==> OneLine(first)
  {
    hide NameOf, NewLine, Pieces, LinesOf, WellFormed, Assigns, OneLine, JoinLines, FirstNamed, SetLine, After;
    var lines, pieces, line := LinesOf(file), Pieces(NewLine(key, first)), NewLine(key, second);
    var before, after := lines[..FirstNamed(lines, key)], After(lines, key);
    WrittenLines(file, key, first);
    WrittenPieces(key, first);
    SetAgain(before, pieces, after, key, line);
    SetChangesOneLine(lines, key, line);
    LeftBehind(before + [line], pieces[1..], after);
  }

  /** A first value on two lines leaves its second line behind. */
  lemma SecondLineStays(file: File, key: string, v: string, second: string)
    requires WellFormed(key)
    ensures Written(Written(file, key, v + "\n"), key, second) != Written(file, key, second)
  {
    assert !OneLine(v + "\n") by {
      assert IsBreak((v + "\n")[|v|]);
    }
    LastWriteWinsExactly(file, key, v + "\n", second);
  }
}
