/**
 What the configuration parser accepts, said of the text: a grammar of lines with their
 meaning, which the parser follows in both directions, and what a file of such lines sets.
 */
module ConfText {
  import opened Wrappers
  import opened ConfGrammar
  import opened ConfFile

  predicate AllOf(s: string, kind: char -> bool) {
    forall k :: 0 <= k < |s| ==> kind(s[k])
  }

  /** The character classes, by their members and codes. */
  lemma Characters(c: char)
    ensures IsBlank(c) <==> c in " \t"
    ensures IsEol(c) <==> c in "\r\n"
    ensures IsValueChar(c) <==> c !in "#\"\r\n \t"
    ensures IsNameChar(c) <==> 48 <= c as int <= 57 || 65 <= c as int <= 90 || c as int == 95 || 97 <= c as int <= 122
  {
  }

  // ----- Written forms -----

  /** What a quoted text means: a backslash stands for the character after it. */
  function Unescape(raw: string): Option<string> {
    if raw == "" then Some("")
    else if raw[0] == '\\' then
      if |raw| == 1 then None
      else match Unescape(raw[2..]) case None => None case Some(v) => Some([raw[1]] + v)
    else if raw[0] == '"' || IsEol(raw[0]) then None
    else match Unescape(raw[1..]) case None => None case Some(v) => Some([raw[0]] + v)
  }

  /** A way to write any text between quotes. */
  function Escape(v: string): string {
    if v == "" then ""
    else (if v[0] in "\\\"\r\n" then ['\\', v[0]] else [v[0]]) + Escape(v[1..])
  }

  /** Every text can be quoted, and is read back as it was. */
  lemma {:induction false} EscapeRoundTrip(v: string)
    ensures Unescape(Escape(v)) == Some(v)
  {
    if v != "" {
      EscapeRoundTrip(v[1..]);
      var e := Escape(v);
      if v[0] in "\\\"\r\n" {
        assert e[2..] == Escape(v[1..]);
      } else {
        assert e[1..] == Escape(v[1..]);
      }
      assert [v[0]] + v[1..] == v;
    }
  }

  datatype Written = Plain(text: string) | Quoted(raw: string)

  predicate Writes(w: Written, v: string) {
    match w
    case Plain(text) => text == v && v != "" && AllOf(v, IsValueChar) && |v| <= MAX_VALUE_LENGTH
    case Quoted(raw) => Unescape(raw) == Some(v) && |raw| < MAX_VALUE_LENGTH
  }

  function TextOf(w: Written): string {
    match w
    case Plain(text) => text
    case Quoted(raw) => "\"" + (raw + "\"")
  }

  predicate IsName(name: string) {
    name != "" && AllOf(name, IsNameChar) && |name| <= MAX_NAME_LENGTH
  }

  datatype Declaration =
    | Nothing
    | Header(name: string)
    | Parameter(name: string, before: string, after: string, written: Written, value: string)

  predicate IsDeclaration(d: Declaration) {
    match d
    case Nothing => true
    case Header(name) => IsName(name)
    case Parameter(name, before, after, written, value) =>
      IsName(name) && AllOf(before, IsBlank) && AllOf(after, IsBlank) && Writes(written, value)
  }

  function DeclarationText(d: Declaration): string {
    match d
    case Nothing => ""
    case Header(name) => "[" + (name + "]")
    case Parameter(name, before, after, written, _) => name + (before + ("=" + (after + TextOf(written))))
  }

  /** A line: indentation, a declaration, blanks, perhaps a comment, and its end. */
  datatype Line = Line(indent: string, declaration: Declaration, trail: string, comment: string, eol: char)

  predicate IsEnd(trail: string, comment: string, eol: char) {
    && AllOf(trail, IsBlank) && IsEol(eol)
    && (comment == "" || (comment[0] == '#' && AllOf(comment, IsCommentChar)))
  }

  predicate IsLine(l: Line) {
    && AllOf(l.indent, IsBlank) && IsDeclaration(l.declaration) && IsEnd(l.trail, l.comment, l.eol)
    && (l.declaration.Nothing? ==> l.trail == "")
  }

  function EndText(trail: string, comment: string, eol: char): string {
    trail + (comment + [eol])
  }

  function LineText(l: Line): string {
    l.indent + (DeclarationText(l.declaration) + EndText(l.trail, l.comment, l.eol))
  }

  /** What a line does in a section: the attempt it amounts to, `end` characters long. */
  function Effect(d: Declaration, section: string, accepts: Setting -> bool, end: nat): Attempt {
    match d
    case Nothing => Attempt(end, section, None)
    case Header(name) => Attempt(end, name, None)
    case Parameter(name, _, _, _, value) =>
      var setting := Setting(section, name, value);
      if section != "" && accepts(setting) then Attempt(end, section, Some(setting)) else Attempt(-1, section, None)
  }

  // ----- Reading what was written -----

  /** The buffer has `s` at position `i`. */
  predicate Has(b: string, i: nat, s: string) {
    i + |s| <= |b| && b[i..i + |s|] == s
  }

  lemma HasParts(b: string, i: nat, s: string, t: string)
    requires Has(b, i, s + t)
    ensures Has(b, i, s) && Has(b, i + |s|, t)
  {
    assert b[i..i + |s|] == b[i..i + |s + t|][..|s|];
    assert b[i + |s|..i + |s| + |t|] == b[i..i + |s + t|][|s|..];
  }

  lemma HasChar(b: string, i: nat, s: string, k: nat)
    requires Has(b, i, s) && k < |s|
    ensures b[i + k] == s[k]
  {
    assert b[i + k] == b[i..i + |s|][k];
  }

  lemma {:induction false} SkipTo(b: string, i: nat, j: nat, kind: char -> bool)
    requires i <= j <= |b| && (forall k :: i <= k < j ==> kind(b[k])) && (j == |b| || !kind(b[j]))
    ensures Skip(b, i, kind) == j
    decreases j - i
  {
    if i < j {
      SkipTo(b, i + 1, j, kind);
    }
  }

  lemma {:induction false} SkipOver(b: string, i: nat, s: string, kind: char -> bool)
    requires Has(b, i, s) && AllOf(s, kind) && (i + |s| == |b| || !kind(b[i + |s|]))
    ensures Skip(b, i, kind) == i + |s|
  {
    forall k | i <= k < i + |s| ensures kind(b[k]) {
      HasChar(b, i, s, k - i);
    }
    SkipTo(b, i, i + |s|, kind);
  }

  /** The end of a line is read as written; its first character belongs to no name and no value. */
  lemma {:induction false} EndIsRead(b: string, i: nat, trail: string, comment: string, eol: char)
    requires IsEnd(trail, comment, eol) && Has(b, i, EndText(trail, comment, eol))
    ensures ParseLineEnd(b, i) == i + |EndText(trail, comment, eol)|
    ensures i < |b| && (IsBlank(b[i]) || b[i] == '#' || IsEol(b[i]))
    ensures trail == "" ==> !IsBlank(b[i])
  {
    HasParts(b, i, trail, comment + [eol]);
    var j := i + |trail|;
    HasParts(b, j, comment, [eol]);
    HasChar(b, j + |comment|, [eol], 0);
    if trail != "" {
      HasChar(b, i, trail, 0);
    }
    if comment != "" {
      HasChar(b, j, comment, 0);
      SkipOverRest(b, j, comment);
    }
    assert b[j] == if comment == "" then eol else '#';
    SkipOver(b, i, trail, IsBlank);
  }

  lemma {:induction false} SkipOverRest(b: string, j: nat, comment: string)
    requires comment != "" && Has(b, j, comment) && AllOf(comment, IsCommentChar)
    requires j + |comment| < |b| && IsEol(b[j + |comment|])
    ensures Skip(b, j + 1, IsCommentChar) == j + |comment|
  {
    assert comment == [comment[0]] + comment[1..];
    HasParts(b, j, [comment[0]], comment[1..]);
    SkipOver(b, j + 1, comment[1..], IsCommentChar);
  }

  lemma ScanPlain(b: string, start: nat, i: nat, text: string)
    requires start < i < |b| - 1 && i + 1 - start <= MAX_VALUE_LENGTH
    requires b[i] != '\\' && b[i] != '"' && !IsEol(b[i])
    ensures ScanQuoted(b, start, i, false, text) == ScanQuoted(b, start, i + 1, false, text + [b[i]])
  {
  }

  lemma ScanEscaped(b: string, start: nat, i: nat, text: string)
    requires start < i < |b| - 2 && i + 2 - start <= MAX_VALUE_LENGTH && b[i] == '\\'
    ensures ScanQuoted(b, start, i, false, text) == ScanQuoted(b, start, i + 2, false, text + [b[i + 1]])
  {
    assert ScanQuoted(b, start, i, false, text) == ScanQuoted(b, start, i + 1, true, text);
  }

  lemma HasRest(b: string, i: nat, s: string, k: nat)
    requires Has(b, i, s) && k <= |s|
    ensures Has(b, i + k, s[k..])
  {
    assert s[..k] + s[k..] == s;
    HasParts(b, i, s[..k], s[k..]);
  }

  lemma {:induction false} QuotedIsRead(b: string, start: nat, i: nat, raw: string, v: string, text: string)
    requires start < i && Has(b, i, raw) && i + |raw| < |b| && b[i + |raw|] == '"' && Unescape(raw) == Some(v)
    requires i - start + |raw| <= MAX_VALUE_LENGTH
    ensures ScanQuoted(b, start, i, false, text) == Value(i + |raw|, text + v)
    decreases |raw|
  {
    if raw == "" {
      assert text + v == text;
    } else {
      HasChar(b, i, raw, 0);
      if raw[0] == '\\' {
        HasChar(b, i, raw, 1);
        HasRest(b, i, raw, 2);
        ScanEscaped(b, start, i, text);
        QuotedIsRead(b, start, i + 2, raw[2..], v[1..], text + [raw[1]]);
        assert text + [raw[1]] + v[1..] == text + v;
      } else {
        HasRest(b, i, raw, 1);
        ScanPlain(b, start, i, text);
        QuotedIsRead(b, start, i + 1, raw[1..], v[1..], text + [raw[0]]);
        assert text + [raw[0]] + v[1..] == text + v;
      }
    }
  }

  lemma {:induction false} QuotedValueIsRead(b: string, i: nat, raw: string, v: string)
    requires Writes(Quoted(raw), v) && Has(b, i, "\"" + (raw + "\""))
    ensures ParseAnyValue(b, i) == Value(i + |raw| + 2, v) && b[i] == '"'
  {
    HasParts(b, i, "\"", raw + "\"");
    HasChar(b, i, "\"", 0);
    HasParts(b, i + 1, raw, "\"");
    HasChar(b, i + 1 + |raw|, "\"", 0);
    QuotedIsRead(b, i, i + 1, raw, v, "");
    assert "" + v == v;
  }

  lemma {:induction false} PlainValueIsRead(b: string, i: nat, text: string)
    requires Writes(Plain(text), text) && Has(b, i, text)
    requires i + |text| == |b| || !IsValueChar(b[i + |text|])
    ensures ParseAnyValue(b, i) == Value(i + |text|, text) && IsValueChar(b[i])
  {
    HasChar(b, i, text, 0);
    SkipOver(b, i, text, IsValueChar);
  }

  lemma {:induction false} ValueIsRead(b: string, i: nat, w: Written, v: string)
    requires Writes(w, v) && Has(b, i, TextOf(w))
    requires w.Plain? ==> i + |TextOf(w)| == |b| || !IsValueChar(b[i + |TextOf(w)|])
    ensures ParseAnyValue(b, i) == Value(i + |TextOf(w)|, v)
    ensures i < |b| && !IsBlank(b[i])
  {
    match w {
      case Plain(text) => PlainValueIsRead(b, i, text);
      case Quoted(raw) => QuotedValueIsRead(b, i, raw, v);
    }
  }

  /** The parts of a parameter before its value, each at its place. */
  predicate HeadAt(b: string, i: nat, name: string, before: string, after: string) {
    && IsName(name) && AllOf(before, IsBlank) && AllOf(after, IsBlank)
    && Has(b, i, name) && Has(b, i + |name|, before) && Has(b, i + |name| + |before|, "=")
    && Has(b, i + |name| + |before| + 1, after)
  }

  lemma {:induction false} EqualsIsRead(b: string, m: nat, before: string, after: string)
    requires AllOf(before, IsBlank) && AllOf(after, IsBlank)
    requires Has(b, m, before) && Has(b, m + |before|, "=") && Has(b, m + |before| + 1, after)
    requires var n := m + |before| + 1 + |after|; n == |b| || !IsBlank(b[n])
    ensures Skip(b, m, IsBlank) == m + |before| < |b| && b[m + |before|] == '='
    ensures Skip(b, m + |before| + 1, IsBlank) == m + |before| + 1 + |after|
    ensures b[m] == '=' || IsBlank(b[m])
  {
    var e := m + |before|;
    HasChar(b, e, "=", 0);
    if before != "" {
      HasChar(b, m, before, 0);
    }
    SkipOver(b, m, before, IsBlank);
    SkipOver(b, e + 1, after, IsBlank);
  }

  lemma {:induction false} HeadIsRead(b: string, i: nat, name: string, before: string, after: string)
    requires HeadAt(b, i, name, before, after)
    requires var n := i + |name| + |before| + 1 + |after|; n == |b| || !IsBlank(b[n])
    ensures ParseHead(b, i) == Head(name, i + |name| + |before| + 1 + |after|)
    ensures i < |b| && b[i] != '[' && !IsBlank(b[i])
  {
    EqualsIsRead(b, i + |name|, before, after);
    HasChar(b, i, name, 0);
    SkipOver(b, i, name, IsNameChar);
  }

  /** A parameter, part by part. */
  lemma {:induction false} ParameterParts(b: string, i: nat, name: string, before: string, after: string, text: string)
    requires IsName(name) && AllOf(before, IsBlank) && AllOf(after, IsBlank)
    ensures Has(b, i, name + (before + ("=" + (after + text)))) <==>
              HeadAt(b, i, name, before, after) && Has(b, i + |name| + |before| + 1 + |after|, text)
  {
    var last := after + text;
    var rest := "=" + last;
    var most := before + rest;
    Parts(b, i + |name| + |before| + 1, after, text);
    Parts(b, i + |name| + |before|, "=", last);
    Parts(b, i + |name|, before, rest);
    Parts(b, i, name, most);
  }

  lemma Parts(b: string, i: nat, s: string, t: string)
    ensures Has(b, i, s + t) <==> Has(b, i, s) && Has(b, i + |s|, t)
  {
    if Has(b, i, s + t) {
      HasParts(b, i, s, t);
    }
    if Has(b, i, s) && Has(b, i + |s|, t) {
      JoinParts(b, i, s, t);
    }
  }

  lemma {:induction false} ParameterIsRead(b: string, i: nat, d: Declaration, section: string, accepts: Setting -> bool)
    requires d.Parameter? && IsDeclaration(d) && Has(b, i, DeclarationText(d))
    requires var n := i + |DeclarationText(d)|; n < |b| && !IsValueChar(b[n])
    ensures ParseParameter(b, i, section, accepts) == Effect(d, section, accepts, i + |DeclarationText(d)|)
    ensures i < |b| && b[i] != '[' && !IsBlank(b[i])
  {
    var text := TextOf(d.written);
    ParameterParts(b, i, d.name, d.before, d.after, text);
    var start := i + |d.name| + |d.before| + 1 + |d.after|;
    assert i + |DeclarationText(d)| == start + |text|;
    ValueIsRead(b, start, d.written, d.value);
    HeadIsRead(b, i, d.name, d.before, d.after);
  }

  lemma {:induction false} HeaderIsRead(b: string, i: nat, name: string, section: string)
    requires IsName(name) && Has(b, i, "[" + (name + "]"))
    ensures ParseSection(b, i, section) == Attempt(i + |name| + 2, name, None) && b[i] == '['
  {
    HasParts(b, i, "[", name + "]");
    HasChar(b, i, "[", 0);
    HasParts(b, i + 1, name, "]");
    HasChar(b, i + 1 + |name|, "]", 0);
    SkipOver(b, i + 1, name, IsNameChar);
  }

  /** A declaration that is followed by the end of a line is read as written. */
  lemma {:induction false} DeclarationIsRead(b: string, i: nat, d: Declaration, section: string, accepts: Setting -> bool)
    requires IsDeclaration(d) && Has(b, i, DeclarationText(d))
    requires
      var n := i + |DeclarationText(d)|;
      n < |b| && (IsBlank(b[n]) || b[n] == '#' || IsEol(b[n])) && (d.Nothing? ==> !IsBlank(b[n]))
    ensures ParseDeclaration(b, i, section, accepts) == Effect(d, section, accepts, i + |DeclarationText(d)|)
    ensures i < |b| && !IsBlank(b[i])
  {
    match d {
      case Nothing =>
      case Header(name) => HeaderIsRead(b, i, name, section);
      case Parameter(_, _, _, _, _) => ParameterIsRead(b, i, d, section, accepts);
    }
  }

  /** Completeness: a line written by the grammar has the effect the grammar says, whatever follows it. */
  lemma {:induction false} LineIsRead(b: string, l: Line, section: string, accepts: Setting -> bool)
    requires IsLine(l) && Has(b, 0, LineText(l))
    ensures ParseLine(b, section, accepts) == Effect(l.declaration, section, accepts, |LineText(l)|)
  {
    var d, end := DeclarationText(l.declaration), EndText(l.trail, l.comment, l.eol);
    HasParts(b, 0, l.indent, d + end);
    var i := |l.indent|;
    HasParts(b, i, d, end);
    EndIsRead(b, i + |d|, l.trail, l.comment, l.eol);
    DeclarationIsRead(b, i, l.declaration, section, accepts);
    SkipOver(b, 0, l.indent, IsBlank);
  }

  // ----- What was read had been written -----

  lemma JoinParts(b: string, i: nat, s: string, t: string)
    requires Has(b, i, s) && Has(b, i + |s|, t)
    ensures Has(b, i, s + t)
  {
    assert b[i..i + |s + t|] == b[i..i + |s|] + b[i + |s|..i + |s| + |t|];
  }

  lemma {:induction false} SkipRun(b: string, i: nat, kind: char -> bool)
    requires i <= |b|
    ensures
      var j := Skip(b, i, kind);
      (forall k :: i <= k < j ==> kind(b[k])) && (j == |b| || !kind(b[j])) && AllOf(b[i..j], kind) && Has(b, i, b[i..j])
    decreases |b| - i
  {
    if i < |b| && kind(b[i]) {
      SkipRun(b, i + 1, kind);
    }
  }

  lemma {:induction false} RunOf(b: string, i: nat, kind: char -> bool) returns (s: string)
    requires i <= |b|
    ensures AllOf(s, kind) && Has(b, i, s) && Skip(b, i, kind) == i + |s|
    ensures i + |s| == |b| || !kind(b[i + |s|])
  {
    SkipRun(b, i, kind);
    s := b[i..Skip(b, i, kind)];
  }

  lemma {:induction false} CommentWasWritten(b: string, j: nat) returns (comment: string)
    requires j < |b|
    ensures comment == "" || (comment[0] == '#' && AllOf(comment, IsCommentChar))
    ensures Has(b, j, comment)
    ensures j + |comment| == if b[j] == '#' then Skip(b, j + 1, IsCommentChar) else j
  {
    comment := "";
    if b[j] == '#' {
      var s := RunOf(b, j + 1, IsCommentChar);
      comment := "#" + s;
      JoinParts(b, j, "#", s);
    }
  }

  lemma {:induction false} EndWasWritten(b: string, i: nat) returns (trail: string, comment: string, eol: char)
    requires i <= |b| && ParseLineEnd(b, i) >= 0
    ensures IsEnd(trail, comment, eol) && Has(b, i, EndText(trail, comment, eol))
    ensures ParseLineEnd(b, i) == i + |EndText(trail, comment, eol)|
    ensures i < |b| && (!IsBlank(b[i]) ==> trail == "")
  {
    trail := RunOf(b, i, IsBlank);
    var j := i + |trail|;
    if trail != "" {
      HasChar(b, i, trail, 0);
    }
    comment := CommentWasWritten(b, j);
    eol := b[j + |comment|];
    JoinParts(b, j, comment, [eol]);
    JoinParts(b, i, trail, comment + [eol]);
  }

  /** Where the loop does not stop, the limit has not been reached and it goes on after the next character. */
  lemma ScanGoesOn(b: string, start: nat, i: nat, text: string)
    requires start < i < |b|
    requires var r := ScanQuoted(b, start, i, false, text); i < r.end < |b| - 1
    ensures i + 1 - start <= MAX_VALUE_LENGTH && b[i] != '"' && !IsEol(b[i])
    ensures b[i] == '\\' ==> i < |b| - 2 && i + 2 - start <= MAX_VALUE_LENGTH
  {
    if b[i] == '\\' {
      assert ScanQuoted(b, start, i, false, text) == ScanQuoted(b, start, i + 1, true, text);
    }
  }

  lemma {:induction false} QuotedWasWritten(b: string, start: nat, i: nat, text: string) returns (raw: string, v: string)
    requires start < i < |b|
    requires var r := ScanQuoted(b, start, i, false, text); 0 <= r.end < |b| - 1 && b[r.end] == '"'
    ensures
      var r := ScanQuoted(b, start, i, false, text);
      && Has(b, i, raw) && i + |raw| == r.end && Unescape(raw) == Some(v) && r.text == text + v
      && (raw != "" ==> r.end - start <= MAX_VALUE_LENGTH)
    decreases |b| - i
  {
    if ScanQuoted(b, start, i, false, text).end == i {
      raw, v := "", "";
    } else {
      ScanGoesOn(b, start, i, text);
      if b[i] == '\\' {
        ScanEscaped(b, start, i, text);
        var rest, more := QuotedWasWritten(b, start, i + 2, text + [b[i + 1]]);
        raw, v := WrittenMore(b, i, ['\\', b[i + 1]], text, rest, more);
      } else {
        ScanPlain(b, start, i, text);
        var rest, more := QuotedWasWritten(b, start, i + 1, text + [b[i]]);
        raw, v := WrittenMore(b, i, [b[i]], text, rest, more);
      }
    }
  }

  lemma WrittenMore(b: string, i: nat, s: string, text: string, rest: string, more: string) returns (raw: string, v: string)
    requires i + |s| <= |b| && Has(b, i + |s|, rest) && Unescape(rest) == Some(more)
    requires |s| == 1 || (|s| == 2 && s[0] == '\\')
    requires (forall k :: 0 <= k < |s| ==> s[k] == b[i + k])
    requires |s| == 1 ==> s[0] != '\\' && s[0] != '"' && !IsEol(s[0])
    ensures raw == s + rest && Has(b, i, raw) && Unescape(raw) == Some(v)
    ensures text + v == text + [s[|s| - 1]] + more
  {
    var c := s[|s| - 1];
    raw, v := s + rest, [c] + more;
    UnescapeMore(c, rest, more);
    assert s == if |s| == 1 then [c] else ['\\', c];
    JoinParts(b, i, s, rest);
  }

  lemma UnescapeMore(c: char, rest: string, more: string)
    requires Unescape(rest) == Some(more)
    ensures Unescape(['\\', c] + rest) == Some([c] + more)
    ensures c != '\\' && c != '"' && !IsEol(c) ==> Unescape([c] + rest) == Some([c] + more)
  {
    assert (['\\', c] + rest)[2..] == rest && ([c] + rest)[1..] == rest;
  }

  lemma {:induction false} ValueWasWritten(b: string, i: nat) returns (w: Written)
    requires i <= |b| && 0 <= ParseAnyValue(b, i).end < |b|
    ensures
      var r := ParseAnyValue(b, i);
      Writes(w, r.text) && Has(b, i, TextOf(w)) && i + |TextOf(w)| == r.end
  {
    if b[i] == '"' {
      var raw, v := QuotedWasWritten(b, i, i + 1, "");
      assert "" + v == v;
      w := Quoted(raw);
      JoinParts(b, i + 1, raw, "\"");
      JoinParts(b, i, "\"", raw + "\"");
    } else {
      SkipRun(b, i, IsValueChar);
      w := Plain(b[i..Skip(b, i, IsValueChar)]);
    }
  }

  lemma {:induction false} HeadWasWritten(b: string, i: nat) returns (before: string, after: string)
    requires i <= |b| && ParseHead(b, i).Head?
    ensures
      var h := ParseHead(b, i);
      HeadAt(b, i, h.name, before, after) && h.start == i + |h.name| + |before| + 1 + |after|
  {
    var name := RunOf(b, i, IsNameChar);
    var n := i + |name|;
    before := RunOf(b, n, IsBlank);
    var e := n + |before|;
    after := RunOf(b, e + 1, IsBlank);
    assert ParseHead(b, i).name == name;
    assert b[e..e + 1] == "=";
  }

  lemma {:induction false} HeaderWasWritten(b: string, i: nat, section: string) returns (name: string)
    requires i < |b| && b[i] == '[' && ParseSection(b, i, section).end >= 0
    ensures IsName(name) && Has(b, i, "[" + (name + "]")) && ParseSection(b, i, section).end == i + |name| + 2
  {
    name := RunOf(b, i + 1, IsNameChar);
    JoinParts(b, i + 1, name, "]");
    JoinParts(b, i, "[", name + "]");
  }

  lemma {:induction false} ParameterWasWritten(b: string, i: nat, section: string, accepts: Setting -> bool)
    returns (d: Declaration)
    requires i <= |b| && ParseHead(b, i).Head? && 0 <= ParseParameter(b, i, section, accepts).end < |b|
    ensures IsDeclaration(d) && Has(b, i, DeclarationText(d))
    ensures ParseParameter(b, i, section, accepts).end == i + |DeclarationText(d)|
  {
    var h := ParseHead(b, i);
    var before, after := HeadWasWritten(b, i);
    var w := ValueWasWritten(b, h.start);
    ParameterParts(b, i, h.name, before, after, TextOf(w));
    d := Parameter(h.name, before, after, w, ParseAnyValue(b, h.start).text);
  }

  lemma {:induction false} DeclarationWasWritten(b: string, i: nat, section: string, accepts: Setting -> bool)
    returns (d: Declaration)
    requires i <= |b| && 0 <= ParseDeclaration(b, i, section, accepts).end < |b|
    ensures IsDeclaration(d) && Has(b, i, DeclarationText(d))
    ensures ParseDeclaration(b, i, section, accepts).end == i + |DeclarationText(d)|
  {
    if i < |b| && b[i] == '[' {
      var name := HeaderWasWritten(b, i, section);
      d := Header(name);
    } else if ParseHead(b, i).Missing? {
      d := Nothing;
    } else {
      d := ParameterWasWritten(b, i, section, accepts);
    }
  }

  /** Soundness: whatever line the parser accepts is written by the grammar. */
  lemma {:induction false} ReadIsLine(b: string, section: string, accepts: Setting -> bool) returns (l: Line)
    requires ParseLine(b, section, accepts).end >= 0
    ensures IsLine(l) && Has(b, 0, LineText(l)) && |LineText(l)| == ParseLine(b, section, accepts).end
  {
    var i := Skip(b, 0, IsBlank);
    SkipRun(b, 0, IsBlank);
    var end := ParseDeclaration(b, i, section, accepts).end;
    var trail, comment, eol := EndWasWritten(b, end);
    var d := DeclarationWasWritten(b, i, section, accepts);
    l := Line(b[..i], d, trail, comment, eol);
    JoinParts(b, i, DeclarationText(d), EndText(trail, comment, eol));
    JoinParts(b, 0, b[..i], DeclarationText(d) + EndText(trail, comment, eol));
  }

  // ----- Whole files -----

  function FileText(lines: seq<Line>): string {
    if lines == [] then "" else LineText(lines[0]) + FileText(lines[1..])
  }

  /** The settings of a file, each with the section that is then current. */
  function Declared(lines: seq<Line>, section: string): seq<Setting> {
    if lines == [] then []
    else
      match lines[0].declaration
      case Nothing => Declared(lines[1..], section)
      case Header(name) => Declared(lines[1..], name)
      case Parameter(name, _, _, _, value) => [Setting(section, name, value)] + Declared(lines[1..], section)
  }

  predicate AllTaken(settings: seq<Setting>, ssl: bool) {
    forall k :: 0 <= k < |settings| ==> Takes(ssl, settings[k])
  }

  function AssignAll(c: Config, settings: seq<Setting>): Config
    decreases |settings|
  {
    if settings == [] then c else AssignAll(Assign(c, settings[0]), settings[1..])
  }

  /** A file written line by line is accepted exactly if each setting is known, and makes the settings in order. */
  lemma {:induction false} FileIsRead(lines: seq<Line>, section: string, c: Config, ssl: bool)
    requires forall k :: 0 <= k < |lines| ==> IsLine(lines[k])
    ensures
      var settings := Declared(lines, section);
      ParseAll(FileText(lines), section, c, ssl) == if AllTaken(settings, ssl) then Some(AssignAll(c, settings)) else None
    decreases |lines|
  {
    if lines != [] {
      var l, rest, file := lines[0], lines[1..], FileText(lines);
      assert file[..|LineText(l)|] == LineText(l) && file[|LineText(l)|..] == FileText(rest);
      LineIsRead(file, l, section, Accepts(ssl));
      var a := Effect(l.declaration, section, Accepts(ssl), |LineText(l)|);
      FileIsRead(rest, a.section, Settle(c, a.setting), ssl);
      if l.declaration.Parameter? {
        var first, others := Setting(section, l.declaration.name, l.declaration.value), Declared(rest, section);
        FirstTaken(first, others, ssl);
        assert ([first] + others)[1..] == others;
      }
    }
  }

  lemma FirstTaken(first: Setting, others: seq<Setting>, ssl: bool)
    ensures AllTaken([first] + others, ssl) <==> Takes(ssl, first) && AllTaken(others, ssl)
  {
    var all := [first] + others;
    if AllTaken(all, ssl) {
      assert Takes(ssl, all[0]);
      forall k | 0 <= k < |others| ensures Takes(ssl, others[k]) {
        assert others[k] == all[k + 1];
      }
    }
  }

  lemma OneMoreLine(l: Line, rest: seq<Line>, section: string)
    ensures FileText([l] + rest) == LineText(l) + FileText(rest)
    ensures l.declaration.Nothing? ==> Declared([l] + rest, section) == Declared(rest, section)
    ensures l.declaration.Header? ==> Declared([l] + rest, section) == Declared(rest, l.declaration.name)
    ensures l.declaration.Parameter? ==>
              Declared([l] + rest, section) ==
              [Setting(section, l.declaration.name, l.declaration.value)] + Declared(rest, section)
  {
    assert ([l] + rest)[1..] == rest;
  }

  lemma FirstLine(file: string, section: string, ssl: bool) returns (l: Line, rest: string)
    requires ParseLine(file, section, Accepts(ssl)).end >= 0
    ensures IsLine(l) && file == LineText(l) + rest && rest == file[ParseLine(file, section, Accepts(ssl)).end..]
  {
    l := ReadIsLine(file, section, Accepts(ssl));
    HasFront(file, LineText(l));
    rest := file[|LineText(l)|..];
  }

  lemma HasFront(b: string, s: string)
    requires Has(b, 0, s)
    ensures b == s + b[|s|..]
  {
    assert b[0..|s|] == b[..|s|];
  }

  ghost predicate IsFile(file: string, lines: seq<Line>) {
    file == FileText(lines) && forall k :: 0 <= k < |lines| ==> IsLine(lines[k])
  }

  lemma OneMoreWritten(l: Line, rest: string, lines: seq<Line>)
    requires IsLine(l) && IsFile(rest, lines)
    ensures IsFile(LineText(l) + rest, [l] + lines)
  {
    OneMoreLine(l, lines, "");
  }

  /** And no other file is accepted. */
  lemma {:induction false} ReadIsFile(file: string, section: string, c: Config, ssl: bool) returns (lines: seq<Line>)
    requires ParseAll(file, section, c, ssl).Some?
    ensures IsFile(file, lines)
    decreases |file|
  {
    lines := [];
    if file != "" {
      var l, rest := FirstLine(file, section, ssl);
      var a := ParseLine(file, section, Accepts(ssl));
      var others := ReadIsFile(rest, a.section, Settle(c, a.setting), ssl);
      OneMoreWritten(l, rest, others);
      lines := [l] + others;
    }
  }

  // ----- Which parameter sets what -----

  function Keys(ssl: bool): seq<(string, string)> {
    [("server", "bind_host"), ("server", "bind_port"), ("daemon", "pid_file"), ("daemon", "log_level")] +
    if ssl then [("ssl", "server_certificate"), ("ssl", "server_key")] else []
  }

  /** The parameters that are known, and the values that a log level can have. */
  lemma KnownParameters(s: Setting, ssl: bool)
    ensures Takes(ssl, s) <==>
              && (s.section, s.name) in Keys(ssl)
              && (s.name == "log_level" ==> s.value in ["trace", "debug", "info", "warning", "error"])
  {
  }

  /** The last value given for a parameter. */
  function Last(settings: seq<Setting>, section: string, name: string): Option<string> {
    if settings == [] then None
    else
      var later := Last(settings[1..], section, name);
      if later.Some? then later
      else if settings[0].section == section && settings[0].name == name then Some(settings[0].value)
      else None
  }

  function Or(value: Option<string>, otherwise: Option<string>): Option<string> {
    if value.Some? then value else otherwise
  }

  ghost predicate LevelIs(level: LogLevel, name: Option<string>, otherwise: LogLevel) {
    && (name == None ==> level == otherwise)
    && (name == Some("trace") ==> level == Trace)
    && (name == Some("debug") ==> level == Debug)
    && (name == Some("info") ==> level == Info)
    && (name == Some("warning") ==> level == Warning)
    && (name == Some("error") ==> level == Error)
  }

  /** Every field of the configuration has the last value given for its parameter, or is as it was. */
  ghost predicate Configured(d: Config, settings: seq<Setting>, c: Config) {
    && d.bindHost == Or(Last(settings, "server", "bind_host"), c.bindHost)
    && d.bindPort == Or(Last(settings, "server", "bind_port"), c.bindPort)
    && d.pidfile == Or(Last(settings, "daemon", "pid_file"), c.pidfile)
    && d.certFile == Or(Last(settings, "ssl", "server_certificate"), c.certFile)
    && d.keyFile == Or(Last(settings, "ssl", "server_key"), c.keyFile)
    && LevelIs(d.maxLogLevel, Last(settings, "daemon", "log_level"), c.maxLogLevel)
  }

  lemma {:induction false} LastValueCounts(c: Config, settings: seq<Setting>, ssl: bool)
    requires AllTaken(settings, ssl)
    ensures Configured(AssignAll(c, settings), settings, c)
    decreases |settings|
  {
    if settings != [] {
      var first, rest := settings[0], settings[1..];
      assert Takes(ssl, first);
      LastValueCounts(Assign(c, first), rest, ssl);
    }
  }

  /** A file is accepted exactly if it is written by the grammar with known parameters, and sets each to its last value. */
  lemma {:induction false} FileMeaning(lines: seq<Line>, section: string, c: Config, ssl: bool)
    requires forall k :: 0 <= k < |lines| ==> IsLine(lines[k])
    ensures
      var settings, parsed := Declared(lines, section), ParseAll(FileText(lines), section, c, ssl);
      && (parsed.Some? <==> AllTaken(settings, ssl))
      && (parsed.Some? ==> Configured(parsed.value, settings, c))
  {
    FileIsRead(lines, section, c, ssl);
    if AllTaken(Declared(lines, section), ssl) {
      LastValueCounts(c, Declared(lines, section), ssl);
    }
  }

  /** The smallest such file: a header line and a parameter line. */
  function OneSetting(section: string, name: string, w: Written): string {
    "[" + section + "]\n" + name + " = " + TextOf(w) + "\n"
  }

  lemma {:induction false} OneSettingIsRead(section: string, name: string, w: Written, v: string, was: string, c: Config, ssl: bool)
    requires IsName(section) && IsName(name) && Writes(w, v)
    ensures
      var s := Setting(section, name, v);
      ParseAll(OneSetting(section, name, w), was, c, ssl) == if Takes(ssl, s) then Some(Assign(c, s)) else None
  {
    var header := Line("", Header(section), "", "", '\n');
    var parameter := Line("", Parameter(name, " ", " ", w, v), "", "", '\n');
    assert LineText(header) == "[" + section + "]\n";
    assert LineText(parameter) == name + " = " + TextOf(w) + "\n";
    var last, lines := [parameter] + [], [header] + ([parameter] + []);
    OneMoreLine(parameter, [], section);
    OneMoreLine(header, last, was);
    assert FileText(lines) == OneSetting(section, name, w);
    FileIsRead(lines, was, c, ssl);
    var s := Setting(section, name, v);
    assert Declared(lines, was) == [s] + [];
    FirstTaken(s, [], ssl);
    assert ([s] + [])[1..] == [];
  }

  lemma ParameterNames()
    ensures IsName("server") && IsName("daemon") && IsName("ssl")
    ensures IsName("bind_host") && IsName("bind_port") && IsName("pid_file") && IsName("log_level")
    ensures IsName("server_certificate") && IsName("server_key")
  {
  }

  /** Each parameter sets the field that it names, whatever value of whatever spelling it is given. */
  lemma {:induction false} ServerParameters(w: Written, v: string, was: string, c: Config, ssl: bool)
    requires Writes(w, v)
    ensures ParseAll(OneSetting("server", "bind_host", w), was, c, ssl) == Some(c.(bindHost := Some(v)))
    ensures ParseAll(OneSetting("server", "bind_port", w), was, c, ssl) == Some(c.(bindPort := Some(v)))
  {
    ParameterNames();
    OneSettingIsRead("server", "bind_host", w, v, was, c, ssl);
    OneSettingIsRead("server", "bind_port", w, v, was, c, ssl);
  }

  lemma {:induction false} DaemonParameters(w: Written, v: string, was: string, c: Config, ssl: bool)
    requires Writes(w, v)
    ensures ParseAll(OneSetting("daemon", "pid_file", w), was, c, ssl) == Some(c.(pidfile := Some(v)))
    ensures ParseAll(OneSetting("daemon", "log_level", w), was, c, ssl) ==
            match v
            case "trace" => Some(c.(maxLogLevel := Trace))
            case "debug" => Some(c.(maxLogLevel := Debug))
            case "info" => Some(c.(maxLogLevel := Info))
            case "warning" => Some(c.(maxLogLevel := Warning))
            case "error" => Some(c.(maxLogLevel := Error))
            case _ => None
  {
    ParameterNames();
    OneSettingIsRead("daemon", "pid_file", w, v, was, c, ssl);
    OneSettingIsRead("daemon", "log_level", w, v, was, c, ssl);
  }

  lemma {:induction false} SslParameters(w: Written, v: string, was: string, c: Config, ssl: bool)
    requires Writes(w, v)
    ensures ParseAll(OneSetting("ssl", "server_certificate", w), was, c, ssl) ==
            if ssl then Some(c.(certFile := Some(v))) else None
    ensures ParseAll(OneSetting("ssl", "server_key", w), was, c, ssl) == if ssl then Some(c.(keyFile := Some(v))) else None
  {
    ParameterNames();
    OneSettingIsRead("ssl", "server_certificate", w, v, was, c, ssl);
    OneSettingIsRead("ssl", "server_key", w, v, was, c, ssl);
  }
}
