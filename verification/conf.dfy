/**
 The configuration file parser of guacd (guacamole-server/src/guacd/conf-parse.c): the
 outcome of one attempt at a line, and why such an attempt depends on that line alone.

 Functions take the whole buffer and a position in it; a negative result is a parse error.
 */
module ConfGrammar {
  import opened Wrappers

  const MAX_NAME_LENGTH := 255
  const MAX_VALUE_LENGTH := 8191

  // ----- Characters -----

  predicate IsBlank(c: char) {
    c == ' ' || c == '\t'
  }

  predicate IsEol(c: char) {
    c == '\r' || c == '\n'
  }

  predicate IsNameChar(c: char) {
    'a' <= c <= 'z' || 'A' <= c <= 'Z' || '0' <= c <= '9' || c == '_'
  }

  predicate IsValueChar(c: char) {
    c != '#' && c != '"' && !IsEol(c) && !IsBlank(c)
  }

  predicate IsCommentChar(c: char) {
    !IsEol(c)
  }

  /** First position from `i` on whose character is not of the kind. */
  function Skip(b: string, i: nat, kind: char -> bool): (j: nat)
    requires i <= |b|
    ensures i <= j <= |b|
    decreases |b| - i
  {
    if i == |b| || !kind(b[i]) then i else Skip(b, i + 1, kind)
  }

  // ----- One attempt at a line -----

  /** A parameter setting that the configuration has taken. */
  datatype Setting = Setting(section: string, name: string, value: string)

  /** Result of an attempt: position reached or -1, the section then current, and what was set. */
  datatype Attempt = Attempt(end: int, section: string, setting: Option<Setting>)

  /** A value and the position after it, or -1. */
  datatype Value = Value(end: int, text: string)

  /** `guacd_parse_value` */
  function ParseValue(b: string, i: nat): Value
    requires i <= |b|
  {
    var j := Skip(b, i, IsValueChar);
    if j == i || j - i > MAX_VALUE_LENGTH then Value(-1, "") else Value(j, b[i..j])
  }

  /** The loop over a value quoted at `start`; it never looks at the last character of the buffer. */
  function ScanQuoted(b: string, start: nat, i: nat, escaped: bool, text: string): (v: Value)
    requires start < i < |b|
    ensures v.end == -1 || i <= v.end < |b|
    decreases |b| - i
  {
    if i == |b| - 1 || (!escaped && (b[i] == '"' || IsEol(b[i]))) then Value(i, text)
    else if i + 1 - start > MAX_VALUE_LENGTH then Value(-1, "")
    else if !escaped && b[i] == '\\' then ScanQuoted(b, start, i + 1, true, text)
    else ScanQuoted(b, start, i + 1, false, text + [b[i]])
  }

  /** `guacd_parse_quoted_value`, where there is a quote. */
  function ParseQuoted(b: string, i: nat): (v: Value)
    requires i < |b|
    ensures v.end == -1 || i < v.end <= |b|
  {
    if i + 1 == |b| then Value(-1, "")
    else
      var v := ScanQuoted(b, i, i + 1, false, "");
      if v.end >= 0 && b[v.end] == '"' then Value(v.end + 1, v.text) else Value(-1, "")
  }

  function ParseAnyValue(b: string, i: nat): (v: Value)
    requires i <= |b|
    ensures v.end == -1 || i < v.end <= |b|
  {
    if i < |b| && b[i] == '"' then ParseQuoted(b, i) else ParseValue(b, i)
  }

  /** The part of a parameter before its value: name, '=', and the blanks around it. */
  datatype Head = Missing | Malformed | Head(name: string, start: nat)

  function ParseHead(b: string, i: nat): (h: Head)
    requires i <= |b|
    ensures h.Head? ==> h.name != "" && i < h.start <= |b|
  {
    var n := Skip(b, i, IsNameChar);
    if n - i > MAX_NAME_LENGTH then Malformed
    else if n == i then Missing
    else
      var equals := Skip(b, n, IsBlank);
      if equals == |b| || b[equals] != '=' then Malformed else Head(b[i..n], Skip(b, equals + 1, IsBlank))
  }

  /** `guacd_parse_parameter`; `accepts` is whether the callback takes the setting. */
  function ParseParameter(b: string, i: nat, section: string, accepts: Setting -> bool): (a: Attempt)
    requires i <= |b|
    ensures a.end == -1 || i <= a.end <= |b|
  {
    match ParseHead(b, i)
    case Missing => Attempt(i, section, None)
    case Malformed => Attempt(-1, section, None)
    case Head(name, start) =>
      var value := ParseAnyValue(b, start);
      var setting := Setting(section, name, value.text);
      if section == "" || value.end < 0 || !accepts(setting) then Attempt(-1, section, None)
      else Attempt(value.end, section, Some(setting))
  }

  /** `guacd_parse_section`, at a bracket; a name is made current even if the bracket is then not closed. */
  function ParseSection(b: string, i: nat, section: string): (a: Attempt)
    requires i < |b|
    ensures a.end == -1 || i < a.end <= |b|
  {
    var n := Skip(b, i + 1, IsNameChar);
    if n - (i + 1) > MAX_NAME_LENGTH || n == i + 1 then Attempt(-1, section, None)
    else if n == |b| || b[n] != ']' then Attempt(-1, b[i + 1..n], None)
    else Attempt(n + 1, b[i + 1..n], None)
  }

  /** `guacd_parse_declaration`; a line may also declare nothing. */
  function ParseDeclaration(b: string, i: nat, section: string, accepts: Setting -> bool): (a: Attempt)
    requires i <= |b|
    ensures a.end == -1 || i <= a.end <= |b|
  {
    if i < |b| && b[i] == '[' then ParseSection(b, i, section) else ParseParameter(b, i, section, accepts)
  }

  /** `guacd_parse_line_end`: blanks, perhaps a comment, and one end-of-line character. */
  function ParseLineEnd(b: string, i: nat): (end: int)
    requires i <= |b|
    ensures end == -1 || i < end <= |b|
  {
    var blank := Skip(b, i, IsBlank);
    var eol := if blank < |b| && b[blank] == '#' then Skip(b, blank + 1, IsCommentChar) else blank;
    if eol == |b| || !IsEol(b[eol]) then -1 else eol + 1
  }

  /** `guacd_parse_line` */
  function ParseLine(b: string, section: string, accepts: Setting -> bool): (a: Attempt)
    ensures a.end == -1 || 0 < a.end <= |b|
  {
    var d := ParseDeclaration(b, Skip(b, 0, IsBlank), section, accepts);
    if d.end < 0 then d else d.(end := ParseLineEnd(b, d.end))
  }

  // ----- A line that parses depends on its own characters only -----

  /** Two buffers have the same first `n` characters. */
  predicate Agree(b: string, c: string, n: nat) {
    n <= |b| && n <= |c| && forall k :: 0 <= k < n ==> b[k] == c[k]
  }

  lemma {:induction false} SkipLocal(b: string, c: string, n: nat, i: nat, kind: char -> bool)
    requires Agree(b, c, n) && i <= |b| && Skip(b, i, kind) < n
    ensures Skip(c, i, kind) == Skip(b, i, kind)
    decreases n - i
  {
    if kind(b[i]) {
      SkipLocal(b, c, n, i + 1, kind);
    }
  }

  lemma {:induction false} ScanLocal(b: string, c: string, n: nat, start: nat, i: nat, escaped: bool, text: string)
    requires Agree(b, c, n) && start < i < |b|
    requires 0 <= ScanQuoted(b, start, i, escaped, text).end < n - 1
    ensures ScanQuoted(c, start, i, escaped, text) == ScanQuoted(b, start, i, escaped, text)
    decreases |b| - i
  {
    if escaped || !(b[i] == '"' || IsEol(b[i])) {
      if !escaped && b[i] == '\\' {
        ScanLocal(b, c, n, start, i + 1, true, text);
      } else {
        ScanLocal(b, c, n, start, i + 1, false, text + [b[i]]);
      }
    }
  }

  lemma {:induction false} ValueLocal(b: string, c: string, n: nat, i: nat)
    requires Agree(b, c, n) && i <= |b| && 0 <= ParseAnyValue(b, i).end < n
    ensures ParseAnyValue(c, i) == ParseAnyValue(b, i)
  {
    if b[i] == '"' {
      ScanLocal(b, c, n, i, i + 1, false, "");
    } else {
      SkipLocal(b, c, n, i, IsValueChar);
      var j := Skip(b, i, IsValueChar);
      assert b[i..j] == c[i..j];
    }
  }

  lemma {:induction false} HeadLocal(b: string, c: string, n: nat, i: nat)
    requires Agree(b, c, n) && i < n && !ParseHead(b, i).Malformed?
    requires ParseHead(b, i).Head? ==> ParseHead(b, i).start < n
    ensures ParseHead(c, i) == ParseHead(b, i)
  {
    var k := Skip(b, i, IsNameChar);
    SkipLocal(b, c, n, i, IsNameChar);
    if k > i {
      SkipLocal(b, c, n, k, IsBlank);
      SkipLocal(b, c, n, Skip(b, k, IsBlank) + 1, IsBlank);
      assert b[i..k] == c[i..k];
    }
  }

  lemma {:induction false} DeclarationLocal(b: string, c: string, n: nat, i: nat, section: string, accepts: Setting -> bool)
    requires Agree(b, c, n) && i < n && 0 <= ParseDeclaration(b, i, section, accepts).end < n
    ensures ParseDeclaration(c, i, section, accepts) == ParseDeclaration(b, i, section, accepts)
  {
    if b[i] == '[' {
      SkipLocal(b, c, n, i + 1, IsNameChar);
      var k := Skip(b, i + 1, IsNameChar);
      assert b[i + 1..k] == c[i + 1..k];
    } else {
      HeadLocal(b, c, n, i);
      if ParseHead(b, i).Head? {
        ValueLocal(b, c, n, ParseHead(b, i).start);
      }
    }
  }

  lemma {:induction false} LineEndLocal(b: string, c: string, n: nat, i: nat)
    requires Agree(b, c, n) && i < n && 0 < ParseLineEnd(b, i) <= n
    ensures ParseLineEnd(c, i) == ParseLineEnd(b, i)
  {
    SkipLocal(b, c, n, i, IsBlank);
    var blank := Skip(b, i, IsBlank);
    if b[blank] == '#' {
      SkipLocal(b, c, n, blank + 1, IsCommentChar);
    }
  }

  /** An attempt that succeeds is repeated by every buffer that starts with the same line. */
  lemma {:induction false} LineLocal(b: string, c: string, section: string, accepts: Setting -> bool)
    requires ParseLine(b, section, accepts).end > 0
    requires Agree(b, c, ParseLine(b, section, accepts).end)
    ensures ParseLine(c, section, accepts) == ParseLine(b, section, accepts)
  {
    var n := ParseLine(b, section, accepts).end;
    var blank := Skip(b, 0, IsBlank);
    SkipLocal(b, c, n, 0, IsBlank);
    DeclarationLocal(b, c, n, blank, section, accepts);
    LineEndLocal(b, c, n, ParseDeclaration(b, blank, section, accepts).end);
  }
}
