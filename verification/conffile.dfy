/**
 Reading the configuration file of guacd in chunks (guacamole-server/src/guacd/conf-file.c):
 attempts are made on whatever has arrived, settings of unfinished lines included, and the
 outcome is the same as for the file as a whole.
 */
module ConfFile {
  import opened Wrappers
  import opened ConfGrammar

  datatype LogLevel = Error | Warning | Info | Debug | Trace

  /** The part of `guacd_config` that the file can set. */
  datatype Config = Config(bindHost: Option<string>, bindPort: Option<string>, pidfile: Option<string>,
                           maxLogLevel: LogLevel, certFile: Option<string>, keyFile: Option<string>)

  /** `guacd_parse_log_level` */
  function ParseLogLevel(name: string): Option<LogLevel> {
    match name
    case "info" => Some(Info)
    case "error" => Some(Error)
    case "warning" => Some(Warning)
    case "debug" => Some(Debug)
    case "trace" => Some(Trace)
    case _ => None
  }

  /** Whether `guacd_conf_callback` takes a setting; `ssl` is whether SSL support is compiled in. */
  predicate Takes(ssl: bool, s: Setting) {
    || (s.section == "server" && (s.name == "bind_host" || s.name == "bind_port"))
    || (s.section == "daemon" && (s.name == "pid_file" || (s.name == "log_level" && ParseLogLevel(s.value).Some?)))
    || (ssl && s.section == "ssl" && (s.name == "server_certificate" || s.name == "server_key"))
  }

  function Accepts(ssl: bool): Setting -> bool {
    s => Takes(ssl, s)
  }

  /** The configuration after a setting that the callback takes. */
  function Assign(c: Config, s: Setting): Config {
    if s.section == "server" then
      if s.name == "bind_host" then c.(bindHost := Some(s.value)) else c.(bindPort := Some(s.value))
    else if s.section == "daemon" then
      if s.name == "pid_file" then c.(pidfile := Some(s.value))
      else match ParseLogLevel(s.value) case Some(level) => c.(maxLogLevel := level) case None => c
    else if s.name == "server_certificate" then c.(certFile := Some(s.value)) else c.(keyFile := Some(s.value))
  }

  function Settle(c: Config, s: Option<Setting>): Config {
    match s case None => c case Some(setting) => Assign(c, setting)
  }

  // ----- The file as a whole -----

  /** The configuration a file gives, line after line; `None` if some line does not parse. */
  function ParseAll(file: string, section: string, c: Config, ssl: bool): Option<Config>
    decreases |file|
  {
    if file == "" then Some(c)
    else
      var a := ParseLine(file, section, Accepts(ssl));
      if a.end < 0 then None else ParseAll(file[a.end..], a.section, Settle(c, a.setting), ssl)
  }

  /** Every line up to the first error has at most `size` characters, with its end of line. */
  predicate LinesFit(file: string, section: string, size: nat, ssl: bool)
    decreases |file|
  {
    file == "" ||
    var a := ParseLine(file, section, Accepts(ssl));
    a.end < 0 || (a.end <= size && LinesFit(file[a.end..], a.section, size, ssl))
  }

  // ----- Attempts on part of a line do no harm -----

  /** An attempt changes the current section only at a bracket. */
  lemma {:induction false} SectionChangesAtBracket(b: string, section: string, accepts: Setting -> bool)
    requires ParseLine(b, section, accepts).section != section
    ensures var blank := Skip(b, 0, IsBlank);
            blank < |b| && b[blank] == '['
  {
  }

  /** At a bracket the previous section does not matter. */
  lemma {:induction false} BracketForgetsSection(b: string, s1: string, s2: string, accepts: Setting -> bool)
    requires var blank := Skip(b, 0, IsBlank); blank < |b| && b[blank] == '['
    ensures ParseLine(b, s1, accepts).end == ParseLine(b, s2, accepts).end
    ensures ParseLine(b, s1, accepts).end > 0 ==> ParseLine(b, s1, accepts) == ParseLine(b, s2, accepts)
  {
  }

  /** A setting made from part of a line is made again, to the same parameter, by the whole line. */
  lemma {:induction false} SettingIsRepeated(b: string, c: string, section: string, accepts: Setting -> bool)
    requires Agree(b, c, |b|)
    requires ParseLine(b, section, accepts).setting.Some? && ParseLine(c, section, accepts).end > 0
    ensures var part, whole := ParseLine(b, section, accepts).setting, ParseLine(c, section, accepts).setting;
            && whole.Some? && whole.value.section == part.value.section && whole.value.name == part.value.name
            && accepts(part.value) && accepts(whole.value)
  {
    var blank := Skip(b, 0, IsBlank);
    SettingHasHead(b, blank, section, accepts);
    SkipLocal(b, c, |b|, 0, IsBlank);
    HeadLocal(b, c, |b|, blank);
  }

  lemma {:induction false} SettingHasHead(b: string, i: nat, section: string, accepts: Setting -> bool)
    requires i <= |b| && ParseDeclaration(b, i, section, accepts).setting.Some?
    ensures i < |b| && b[i] != '[' && ParseHead(b, i).Head? && ParseHead(b, i).start < |b|
  {
  }

  /**
   An attempt on a prefix, whatever it did, leaves a state from which the whole line has the
   same outcome.
   */
  lemma {:induction false} AttemptIsAbsorbed(b: string, c: string, section: string, conf: Config, ssl: bool)
    requires Agree(b, c, |b|)
    ensures var tried := ParseLine(b, section, Accepts(ssl));
            var direct, later := ParseLine(c, section, Accepts(ssl)), ParseLine(c, tried.section, Accepts(ssl));
            && later.end == direct.end
            && (direct.end > 0 ==>
                  later == direct && Settle(Settle(conf, tried.setting), later.setting) == Settle(conf, direct.setting))
  {
    var tried := ParseLine(b, section, Accepts(ssl));
    if tried.section != section {
      SectionChangesAtBracket(b, section, Accepts(ssl));
      SkipLocal(b, c, |b|, 0, IsBlank);
      BracketForgetsSection(c, section, tried.section, Accepts(ssl));
    }
    if ParseLine(c, section, Accepts(ssl)).end > 0 && tried.setting.Some? {
      SettingIsRepeated(b, c, section, Accepts(ssl));
    }
  }

  /** Nor does it change what the rest of the file amounts to. */
  lemma {:induction false} AttemptKeepsOutcome(b: string, rest: string, section: string, conf: Config, ssl: bool, size: nat)
    requires Agree(b, rest, |b|) && b != ""
    ensures var tried := ParseLine(b, section, Accepts(ssl));
            && ParseAll(rest, tried.section, Settle(conf, tried.setting), ssl) == ParseAll(rest, section, conf, ssl)
            && LinesFit(rest, tried.section, size, ssl) == LinesFit(rest, section, size, ssl)
  {
    AttemptIsAbsorbed(b, rest, section, conf, ssl);
  }

  /** A line that parses in the buffer is the next line of the file. */
  lemma {:induction false} LineKeepsOutcome(b: string, rest: string, section: string, conf: Config, ssl: bool, size: nat)
    requires Agree(b, rest, |b|) && |b| <= size && ParseLine(b, section, Accepts(ssl)).end > 0
    ensures var a := ParseLine(b, section, Accepts(ssl));
            && ParseAll(rest, section, conf, ssl) == ParseAll(rest[a.end..], a.section, Settle(conf, a.setting), ssl)
            && LinesFit(rest, section, size, ssl) == LinesFit(rest[a.end..], a.section, size, ssl)
  {
    LineLocal(b, rest, section, Accepts(ssl));
  }

  /** If a full buffer does not parse, then the file has an error there or a line that is too long. */
  lemma {:induction false} FullBufferDecides(b: string, rest: string, section: string, conf: Config, ssl: bool, size: nat)
    requires Agree(b, rest, |b|) && |b| == size > 0 && ParseLine(b, section, Accepts(ssl)).end < 0
    ensures ParseAll(rest, section, conf, ssl).None? || !LinesFit(rest, section, size, ssl)
  {
    var a := ParseLine(rest, section, Accepts(ssl));
    if 0 < a.end <= size {
      LineLocal(rest, b, section, Accepts(ssl));
    }
  }

  // ----- The parser as it runs -----

  /** Advances over characters of one kind. */
  method SkipWhile(b: string, i: nat, kind: char -> bool) returns (j: nat)
    requires i <= |b|
    ensures j == Skip(b, i, kind)
  {
    j := i;
    while j < |b| && kind(b[j])
      invariant i <= j <= |b| && Skip(b, i, kind) == Skip(b, j, kind)
    {
      j := j + 1;
    }
  }

  /** `guacd_parse_quoted_value` */
  method ReadQuoted(b: string, i: nat) returns (v: Value)
    requires i < |b|
    ensures v == ParseQuoted(b, i)
  {
    if i + 1 == |b| {
      return Value(-1, "");
    }
    var escaped, text, j := false, "", i + 1;
    while j < |b| - 1
      invariant i < j < |b|
      invariant ScanQuoted(b, i, j, escaped, text) == ScanQuoted(b, i, i + 1, false, "")
    {
      var c := b[j];
      if !escaped {
        if c == '"' || IsEol(c) {
          break;
        } else if c == '\\' {
          escaped := true;
        } else {
          text := text + [c];
        }
      } else {
        escaped := false;
        text := text + [c];
      }
      j := j + 1;
      if j - i > MAX_VALUE_LENGTH {
        return Value(-1, "");
      }
    }
    v := if b[j] == '"' then Value(j + 1, text) else Value(-1, "");
  }

  /** A quoted value, or else `guacd_parse_value`. */
  method ReadValue(b: string, i: nat) returns (v: Value)
    requires i <= |b|
    ensures v == ParseAnyValue(b, i)
  {
    if i < |b| && b[i] == '"' {
      v := ReadQuoted(b, i);
    } else {
      var j := SkipWhile(b, i, IsValueChar);
      v := if j == i || j - i > MAX_VALUE_LENGTH then Value(-1, "") else Value(j, b[i..j]);
    }
  }

  /** The name, the '=' sign and the blanks around it. */
  method ReadHead(b: string, i: nat) returns (h: Head)
    requires i <= |b|
    ensures h == ParseHead(b, i)
  {
    var n := SkipWhile(b, i, IsNameChar);
    if n - i > MAX_NAME_LENGTH {
      return Malformed;
    }
    if n == i {
      return Missing;
    }
    var equals := SkipWhile(b, n, IsBlank);
    if equals == |b| || b[equals] != '=' {
      return Malformed;
    }
    var start := SkipWhile(b, equals + 1, IsBlank);
    return Head(b[i..n], start);
  }

  /** `guacd_parse_line_end` */
  method ReadLineEnd(b: string, i: nat) returns (end: int)
    requires i <= |b|
    ensures end == ParseLineEnd(b, i)
  {
    var eol := SkipWhile(b, i, IsBlank);
    if eol < |b| && b[eol] == '#' {
      eol := SkipWhile(b, eol + 1, IsCommentChar);
    }
    end := if eol == |b| || !IsEol(b[eol]) then -1 else eol + 1;
  }

  /** The parser's global section and the configuration its callback writes to. */
  class Reader {
    const ssl: bool
    var section: string
    var config: Config

    constructor (ssl: bool, config: Config)
      ensures this.ssl == ssl && this.section == "" && this.config == config
    {
      this.ssl, this.section, this.config := ssl, "", config;
    }

    /** `guacd_conf_callback` */
    method Callback(s: Setting) returns (taken: bool)
      modifies this`config
      ensures taken == Takes(ssl, s)
      ensures config == if taken then Assign(old(config), s) else old(config)
    {
      taken := false;
      if s.section == "server" {
        if s.name == "bind_host" {
          config := config.(bindHost := Some(s.value));
          taken := true;
        } else if s.name == "bind_port" {
          config := config.(bindPort := Some(s.value));
          taken := true;
        }
      } else if s.section == "daemon" {
        if s.name == "pid_file" {
          config := config.(pidfile := Some(s.value));
          taken := true;
        } else if s.name == "log_level" {
          match ParseLogLevel(s.value) {
            case None =>
            case Some(level) =>
              config := config.(maxLogLevel := level);
              taken := true;
          }
        }
      } else if s.section == "ssl" && ssl {
        if s.name == "server_certificate" {
          config := config.(certFile := Some(s.value));
          taken := true;
        } else if s.name == "server_key" {
          config := config.(keyFile := Some(s.value));
          taken := true;
        }
      }
    }

    /** `guacd_parse_parameter`: the callback is invoked before the end of the line is known to be well-formed. */
    method ReadParameter(b: string, i: nat) returns (end: int)
      requires i <= |b|
      modifies this`config
      ensures var a := ParseParameter(b, i, section, Accepts(ssl));
              end == a.end && config == Settle(old(config), a.setting)
    {
      var head := ReadHead(b, i);
      match head {
        case Missing => return i;
        case Malformed => return -1;
        case Head(name, start) =>
          if section == "" {
            return -1;
          }
          var value := ReadValue(b, start);
          if value.end < 0 {
            return -1;
          }
          var taken := Callback(Setting(section, name, value.text));
          return if taken then value.end else -1;
      }
    }

    /** `guacd_parse_section` */
    method ReadSection(b: string, i: nat) returns (end: int)
      requires i < |b|
      modifies this`section
      ensures var a := ParseSection(b, i, old(section));
              end == a.end && section == a.section
    {
      var n := SkipWhile(b, i + 1, IsNameChar);
      if n - (i + 1) > MAX_NAME_LENGTH || n == i + 1 {
        return -1;
      }
      section := b[i + 1..n];
      return if n == |b| || b[n] != ']' then -1 else n + 1;
    }

    /** `guacd_parse_declaration` */
    method ReadDeclaration(b: string, i: nat) returns (end: int)
      requires i <= |b|
      modifies this`section, this`config
      ensures var a := ParseDeclaration(b, i, old(section), Accepts(ssl));
              end == a.end && section == a.section && config == Settle(old(config), a.setting)
    {
      if i < |b| && b[i] == '[' {
        end := ReadSection(b, i);
      } else {
        end := ReadParameter(b, i);
      }
    }

    /** `guacd_parse_line`: position after the line, or -1; either way its effects remain. */
    method ReadLine(b: string) returns (end: int)
      modifies this`section, this`config
      ensures var a := ParseLine(b, old(section), Accepts(ssl));
              end == a.end && section == a.section && config == Settle(old(config), a.setting)
    {
      var i := SkipWhile(b, 0, IsBlank);
      end := ReadDeclaration(b, i);
      if end >= 0 {
        end := ReadLineEnd(b, end);
      }
    }

    /** What the remaining text amounts to from the current state on: a configuration, and whether lines fit. */
    ghost function Outcome(rest: string, size: nat): (Option<Config>, bool)
      reads this
    {
      (ParseAll(rest, section, config, ssl), LinesFit(rest, section, size, ssl))
    }

    /** One attempt at the front of the buffer; it advances by a line or leaves the outcome as it was. */
    method AttemptLine(line: string, size: nat, ghost rest: string) returns (parsed: int)
      requires Agree(line, rest, |line|) && 0 < |line| <= size
      modifies this`section, this`config
      ensures parsed == -1 || 0 < parsed <= |line|
      ensures parsed < 0 ==>
                && ParseLine(line, section, Accepts(ssl)).end < 0
                && Outcome(rest, size) == old(Outcome(rest, size))
      ensures parsed > 0 ==> Outcome(rest[parsed..], size) == old(Outcome(rest, size))
    {
      ghost var was, conf := section, config;
      parsed := ReadLine(line);
      if parsed < 0 {
        AttemptKeepsOutcome(line, rest, was, conf, ssl, size);
        AttemptIsAbsorbed(line, line, was, conf, ssl);
      } else {
        LineKeepsOutcome(line, rest, was, conf, ssl, size);
      }
    }

    /** The inner loop of `guacd_conf_parse_file`: takes complete lines off the buffer until an attempt fails. */
    method ReadLines(text: string, size: nat, ghost rest: string) returns (start: nat, parsed: int, ghost left: string)
      requires Agree(text, rest, |text|) && |text| <= size
      modifies this`section, this`config
      ensures start <= |text| && parsed <= 0 && (parsed == 0 <==> start == |text|)
      ensures parsed < 0 ==> ParseLine(text[start..], section, Accepts(ssl)).end < 0
      ensures left == rest[start..] && Outcome(left, size) == old(Outcome(rest, size))
    {
      start, parsed, left := 0, 0, rest;
      while start < |text|
        invariant start <= |text| && left == rest[start..]
        invariant Outcome(left, size) == old(Outcome(rest, size))
      {
        parsed := AttemptLine(text[start..], size, left);
        if parsed < 0 {
          return;
        }
        left := left[parsed..];
        start := start + parsed;
      }
      parsed := 0;
    }

    /** The unread part of the buffer, the text it starts, and the result of the last attempt on it. */
    ghost predicate Buffered(buffer: array<char>, length: nat, rest: string, parsed: int)
      reads this, buffer
    {
      && length <= buffer.Length && Agree(buffer[..length], rest, length)
      && parsed <= 0 && (parsed == 0 <==> length == 0)
      && (parsed < 0 ==> ParseLine(buffer[..length], section, Accepts(ssl)).end < 0)
    }

    /** Parses what the buffer holds and moves the unread part to its front. */
    method ParseBuffer(buffer: array<char>, length0: nat, ghost rest0: string)
      returns (length: nat, parsed: int, ghost rest: string)
      requires length0 <= buffer.Length && Agree(buffer[..length0], rest0, length0)
      modifies this`section, this`config, buffer
      ensures length <= length0 && rest == rest0[length0 - length..] && Buffered(buffer, length, rest, parsed)
      ensures Outcome(rest, buffer.Length) == old(Outcome(rest0, buffer.Length))
    {
      var text := buffer[..length0];
      var start;
      start, parsed, rest := ReadLines(text, buffer.Length, rest0);
      Shift(buffer, start, length0);
      length := length0 - start;
      assert buffer[..length] == text[start..];
    }

    /** One read and what can be parsed after it. */
    method ReadChunk(buffer: array<char>, length0: nat, file: string, position: nat, chunk: nat, ghost rest0: string)
      returns (length: nat, parsed: int, ghost rest: string)
      requires length0 + chunk <= buffer.Length && position + chunk <= |file|
      requires Ahead(rest0, length0, file, position) && Agree(buffer[..length0], rest0, length0)
      modifies this`section, this`config, buffer
      ensures Ahead(rest, length, file, position + chunk) && Buffered(buffer, length, rest, parsed)
      ensures Outcome(rest, buffer.Length) == old(Outcome(rest0, buffer.Length))
    {
      Receive(buffer, length0, file, position, chunk, rest0);
      length, parsed, rest := ParseBuffer(buffer, length0 + chunk, rest0);
      AheadAfter(rest0, length0, file, position, chunk, length);
    }

    /**
     `guacd_conf_parse_file`, where the k-th read delivers at most `sizes(k)` characters: however
     the file is cut into chunks, it is accepted exactly when it parses as a whole and each of
     its lines fits the buffer, and then it gives the same configuration.
     */
    method ParseFile(file: string, sizes: nat -> nat, bufferSize: nat) returns (ok: bool)
      requires bufferSize > 0
      modifies this`section, this`config
      ensures ok <==> ParseAll(file, old(section), old(config), ssl).Some? && LinesFit(file, old(section), bufferSize, ssl)
      ensures ok ==> ParseAll(file, old(section), old(config), ssl) == Some(config)
    {
      var buffer := new char[bufferSize];
      var length, position, round, parsed := 0, 0, 0, 0;
      ghost var rest := file;
      while length < bufferSize && position < |file|
        invariant 0 <= length && 0 <= position <= |file| && Ahead(rest, length, file, position)
        invariant Buffered(buffer, length, rest, parsed)
        invariant Outcome(rest, bufferSize) == old(Outcome(file, bufferSize))
        decreases |file| - position
      {
        var chunk := Delivered(sizes(round), bufferSize - length, |file| - position);
        length, parsed, rest := ReadChunk(buffer, length, file, position, chunk, rest);
        position, round := position + chunk, round + 1;
      }
      ok := parsed >= 0;
      assert |rest[length..]| == |file[position..]|;
      AtEnd(buffer[..length], rest, section, config, ssl, bufferSize, parsed);
    }
  }

  /** How the outer loop ends: at the end of the file, or with a buffer that is full and does not parse. */
  lemma {:induction false} AtEnd(b: string, rest: string, section: string, conf: Config, ssl: bool, size: nat, parsed: int)
    requires Agree(b, rest, |b|) && (|b| == |rest| || |b| == size > 0)
    requires if parsed < 0 then b != "" && ParseLine(b, section, Accepts(ssl)).end < 0 else b == ""
    ensures parsed < 0 ==> ParseAll(rest, section, conf, ssl).None? || !LinesFit(rest, section, size, ssl)
    ensures parsed >= 0 ==> ParseAll(rest, section, conf, ssl) == Some(conf) && LinesFit(rest, section, size, ssl)
  {
    if parsed < 0 {
      if |b| == |rest| {
        assert b == rest;
      } else {
        FullBufferDecides(b, rest, section, conf, ssl, size);
      }
    }
  }

  /** The text to come is what the buffer holds and then what is still in the file. */
  predicate Ahead(rest: string, length: nat, file: string, position: nat) {
    length <= |rest| && position <= |file| && rest[length..] == file[position..]
  }

  lemma AheadAfter(rest: string, length0: nat, file: string, position: nat, chunk: nat, length: nat)
    requires Ahead(rest, length0, file, position) && position + chunk <= |file| && length <= length0 + chunk
    ensures length0 + chunk <= |rest| && Ahead(rest[length0 + chunk - length..], length, file, position + chunk)
  {
    assert |rest[length0..]| == |file[position..]|;
    assert rest[length0 + chunk - length..][length..] == rest[length0 + chunk..] == rest[length0..][chunk..];
    assert file[position + chunk..] == file[position..][chunk..];
  }

  /** `read` into the free part of the buffer. */
  method Receive(buffer: array<char>, length: nat, file: string, position: nat, chunk: nat, ghost rest: string)
    requires length + chunk <= buffer.Length && position + chunk <= |file|
    requires Ahead(rest, length, file, position) && Agree(buffer[..length], rest, length)
    modifies buffer
    ensures Agree(buffer[..length + chunk], rest, length + chunk)
  {
    ghost var before := buffer[..length];
    forall k | 0 <= k < chunk {
      buffer[length + k] := file[position + k];
    }
    assert buffer[..length] == before;
    forall k | 0 <= k < length + chunk ensures buffer[..length + chunk][k] == rest[k] {
      if k < length {
        assert before[k] == rest[k];
      } else {
        assert rest[k] == rest[length..][k - length];
      }
    }
  }

  /** Size of one read: at least one character while there is room and data. */
  function Delivered(size: nat, room: nat, available: nat): (n: nat)
    requires room > 0 && available > 0
    ensures 1 <= n <= room && n <= available
  {
    var most := if room < available then room else available;
    if size == 0 then 1 else if size < most then size else most
  }

  /** `memmove` of the unread part to the front. */
  method Shift(buffer: array<char>, start: nat, length: nat)
    requires start <= length <= buffer.Length
    modifies buffer
    ensures buffer[..length - start] == old(buffer[start..length])
  {
    var k := 0;
    while k < length - start
      invariant 0 <= k <= length - start
      invariant forall m :: 0 <= m < k ==> buffer[m] == old(buffer[start + m])
      invariant forall m :: start + k <= m < length ==> buffer[m] == old(buffer[m])
    {
      buffer[k] := buffer[start + k];
      k := k + 1;
    }
  }
}
