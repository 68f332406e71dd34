/**
 Paths of the SFTP file system (guacamole-server/src/common-ssh/sftp.c): normalisation of
 what the client sends, and its translation below the exposed root directory.

 Strings stand for NUL-terminated C strings without their terminator.
 */
module SftpPaths {
  import opened Wrappers

  /** Sizes of the path buffer and of the component stack; at least room for "/" and its terminator. */
  datatype Limits = Limits(maxPath: nat, maxDepth: nat) {
    predicate Valid() { maxPath >= 2 }
  }

  const NUL: char := '\0'

  predicate IsSeparator(c: char) {
    c == '/' || c == '\\'
  }

  lemma Separators(c: char)
    ensures IsSeparator(c) <==> c in "/\\"
  {
  }

  // ----- What a path means -----

  /** One more character: it ends the last piece or extends it. */
  function Push(pieces: seq<string>, c: char): (more: seq<string>)
    requires pieces != []
    ensures more != []
  {
    if IsSeparator(c) then pieces + [""]
    else pieces[..|pieces| - 1] + [pieces[|pieces| - 1] + [c]]
  }

  /** The pieces between separators; a path with n separators has n + 1 pieces. */
  function Split(s: string): (pieces: seq<string>)
    ensures pieces != []
  {
    if s == "" then [""] else Push(Split(s[..|s| - 1]), s[|s| - 1])
  }

  /** The effect of one piece on the stack of directory names. */
  function Step(stack: seq<string>, piece: string, maxDepth: nat): Option<seq<string>> {
    if piece == ".." then Some(if stack == [] then [] else stack[..|stack| - 1])
    else if piece == "." || piece == "" then Some(stack)
    else if |stack| >= maxDepth then None
    else Some(stack + [piece])
  }

  /** The directory names left after all pieces, or `None` if the stack ran full. */
  function Reduce(pieces: seq<string>, maxDepth: nat): Option<seq<string>> {
    if pieces == [] then Some([])
    else
      match Reduce(pieces[..|pieces| - 1], maxDepth)
      case None => None
      case Some(stack) => Step(stack, pieces[|pieces| - 1], maxDepth)
  }

  function Join(names: seq<string>): string {
    if names == [] then ""
    else if |names| == 1 then names[0]
    else Join(names[..|names| - 1]) + "/" + names[|names| - 1]
  }

  /** `guac_common_ssh_sftp_normalize_path` */
  function Normalize(path: string, limits: Limits): Option<string> {
    if path == "" || !IsSeparator(path[0]) || |path| >= limits.maxPath then None
    else
      match Reduce(Split(path[1..]), limits.maxDepth)
      case None => None
      case Some(names) => Some("/" + Join(names))
  }

  /** A name that normalisation may leave in a path. */
  predicate PlainName(name: string) {
    name != "" && name != "." && name != ".." && forall k :: 0 <= k < |name| ==> !IsSeparator(name[k])
  }

  predicate PlainNames(names: seq<string>) {
    forall k :: 0 <= k < |names| ==> PlainName(names[k])
  }

  /** The directory names of a path: its pieces that are not empty. */
  function Names(path: string): seq<string> {
    NonEmpty(Split(path))
  }

  function NonEmpty(pieces: seq<string>): seq<string> {
    if pieces == [] then []
    else NonEmpty(pieces[..|pieces| - 1]) + if pieces[|pieces| - 1] == "" then [] else [pieces[|pieces| - 1]]
  }

  // ----- Splitting and joining -----

  lemma {:induction false} PushConcat(a: seq<string>, b: seq<string>, c: char)
    requires b != []
    ensures Push(a + b, c) == a + Push(b, c)
  {
  }

  lemma {:induction false} SplitConcat(a: string, separator: char, b: string)
    requires IsSeparator(separator)
    ensures Split(a + [separator] + b) == Split(a) + Split(b)
  {
    var s := a + [separator] + b;
    if b == "" {
      assert s[..|s| - 1] == a;
      assert Split(s) == Push(Split(a), separator);
    } else {
      var n := |b| - 1;
      SplitConcat(a, separator, b[..n]);
      assert s[..|s| - 1] == a + [separator] + b[..n];
      assert Split(s) == Push(Split(a) + Split(b[..n]), b[n]);
      PushConcat(Split(a), Split(b[..n]), b[n]);
    }
  }

  lemma {:induction false} SplitPlain(s: string)
    requires forall k :: 0 <= k < |s| ==> !IsSeparator(s[k])
    ensures Split(s) == [s]
  {
    if s != "" {
      SplitPlain(s[..|s| - 1]);
      assert s[..|s| - 1] + [s[|s| - 1]] == s;
    }
  }

  /** No piece contains a separator. */
  lemma {:induction false} PiecesArePlain(s: string)
    ensures forall k, m :: 0 <= k < |Split(s)| && 0 <= m < |Split(s)[k]| ==> !IsSeparator(Split(s)[k][m])
  {
    if s != "" {
      PiecesArePlain(s[..|s| - 1]);
    }
  }

  lemma SplitOneMore(path: string, name: string)
    requires PlainName(name)
    ensures Split(path + "/" + name) == Split(path) + [name]
  {
    SplitPlain(name);
    SplitConcat(path, '/', name);
  }

  lemma {:induction false} SplitJoin(names: seq<string>)
    requires PlainNames(names)
    ensures Split(Join(names)) == if names == [] then [""] else names
  {
    if |names| == 1 {
      SplitPlain(names[0]);
      assert names == [names[0]];
    } else if |names| > 1 {
      var n := |names| - 1;
      SplitJoin(names[..n]);
      SplitOneMore(Join(names[..n]), names[n]);
      assert Split(Join(names)) == names[..n] + [names[n]];
    }
  }

  lemma {:induction false} NonEmptyConcat(a: seq<string>, b: seq<string>)
    ensures NonEmpty(a + b) == NonEmpty(a) + NonEmpty(b)
  {
    if b == [] {
      assert a + b == a;
    } else {
      var n := |b| - 1;
      NonEmptyConcat(a, b[..n]);
      assert (a + b)[..|a| + n] == a + b[..n];
    }
  }

  lemma {:induction false} NonEmptyPlain(names: seq<string>)
    requires PlainNames(names)
    ensures NonEmpty(names) == names
  {
    if names != [] {
      NonEmptyPlain(names[..|names| - 1]);
    }
  }

  /** The names of a joined path are the names it was joined from. */
  lemma {:induction false} NamesOfJoin(names: seq<string>)
    requires PlainNames(names)
    ensures NonEmpty(Split(Join(names))) == names
  {
    SplitJoin(names);
    if names == [] {
      assert NonEmpty([""]) == [];
    } else {
      NonEmptyPlain(names);
    }
  }

  lemma {:induction false} NamesOfAbsolute(names: seq<string>)
    requires PlainNames(names)
    ensures Names("/" + Join(names)) == names
  {
    SplitConcat("", '/', Join(names));
    assert "" + "/" + Join(names) == "/" + Join(names);
    NonEmptyConcat([""], Split(Join(names)));
    assert NonEmpty([""]) == [];
    NamesOfJoin(names);
  }

  // ----- Reduction -----

  /** Characters of some names, each with a separator. */
  function Cost(names: seq<string>): nat {
    if names == [] then 0 else Cost(names[..|names| - 1]) + |names[|names| - 1]| + 1
  }

  lemma {:induction false} CostOfSplit(s: string)
    ensures Cost(Split(s)) == |s| + 1
  {
    if s == "" {
      assert Cost([""]) == 1;
    } else {
      var n := |s| - 1;
      CostOfSplit(s[..n]);
      var before, all := Split(s[..n]), Split(s);
      if IsSeparator(s[n]) {
        assert all[..|all| - 1] == before;
      } else {
        assert all[..|all| - 1] == before[..|before| - 1];
      }
    }
  }

  lemma {:induction false} CostOfJoin(names: seq<string>)
    ensures |Join(names)| + 1 == if names == [] then 1 else Cost(names)
  {
    if |names| > 1 {
      CostOfJoin(names[..|names| - 1]);
    } else if |names| == 1 {
      assert names[..0] == [];
    }
  }

  /** What reduction leaves: plain names, within the depth, and no more characters than it was given. */
  lemma {:induction false} ReduceLeaves(pieces: seq<string>, maxDepth: nat)
    requires Reduce(pieces, maxDepth).Some?
    requires forall k, m :: 0 <= k < |pieces| && 0 <= m < |pieces[k]| ==> !IsSeparator(pieces[k][m])
    ensures var names := Reduce(pieces, maxDepth).value;
            PlainNames(names) && |names| <= maxDepth && Cost(names) <= Cost(pieces)
  {
    if pieces != [] {
      var n := |pieces| - 1;
      ReduceLeaves(pieces[..n], maxDepth);
      var before, names := Reduce(pieces[..n], maxDepth).value, Reduce(pieces, maxDepth).value;
      if |names| == |before| + 1 {
        assert names[..|names| - 1] == before;
      }
    }
  }

  /** Plain names reduce to themselves. */
  lemma {:induction false} ReducePlain(names: seq<string>, maxDepth: nat)
    requires PlainNames(names) && |names| <= maxDepth
    ensures Reduce(names, maxDepth) == Some(names)
  {
    if names != [] {
      var n := |names| - 1;
      ReducePlain(names[..n], maxDepth);
      assert names[..n] + [names[n]] == names;
    }
  }

  // ----- Main results -----

  /**
   A normalised path consists of plain names only, is never longer than what it was made
   from, and is left alone when it is normalised again.
   */
  lemma {:induction false} NormalizeIsNormal(path: string, limits: Limits)
    requires limits.Valid() && Normalize(path, limits).Some?
    ensures var full := Normalize(path, limits).value;
            && PlainNames(Names(full)) && full == "/" + Join(Names(full))
            && Reduce(Split(path[1..]), limits.maxDepth) == Some(Names(full))
            && '\\' !in full
            && |full| <= |path| < limits.maxPath
            && Normalize(full, limits) == Some(full)
  {
    var rest := path[1..];
    var names := Reduce(Split(rest), limits.maxDepth).value;
    PiecesArePlain(rest);
    ReduceLeaves(Split(rest), limits.maxDepth);
    CostOfSplit(rest);
    CostOfJoin(names);
    NamesOfAbsolute(names);
    NoBackslash(names);
    var full := "/" + Join(names);
    assert full[1..] == Join(names);
    SplitJoin(names);
    if names == [] {
      assert Reduce([""], limits.maxDepth) == Some([]) by {
        assert [""][..0] == [];
      }
    } else {
      ReducePlain(names, limits.maxDepth);
    }
  }

  lemma {:induction false} NoBackslash(names: seq<string>)
    requires PlainNames(names)
    ensures '\\' !in Join(names)
  {
    if |names| > 1 {
      NoBackslash(names[..|names| - 1]);
    }
    if names != [] {
      assert PlainName(names[|names| - 1]);
    }
  }

  // ----- Laws of normalisation -----

  function Parent(names: seq<string>): seq<string> {
    if names == [] then [] else names[..|names| - 1]
  }

  predicate NoSeparator(piece: string) {
    forall k :: 0 <= k < |piece| ==> !IsSeparator(piece[k])
  }

  /**
   A path and one more component, after either separator: a name is added if the depth
   allows, ".." leads to the parent, "." and nothing at all change nothing. With the paths of
   one component these laws determine every normalised path.
   */
  lemma {:induction false} OneMoreComponent(path: string, separator: char, piece: string, limits: Limits)
    requires limits.Valid() && Normalize(path, limits).Some? && IsSeparator(separator) && NoSeparator(piece)
    requires |path| + 1 + |piece| < limits.maxPath
    ensures
      var names, longer := Names(Normalize(path, limits).value), Normalize(path + [separator] + piece, limits);
      && (piece == ".." ==> longer == Some("/" + Join(Parent(names))))
      && (piece == "." || piece == "" ==> longer == Normalize(path, limits))
      && (PlainName(piece) ==> longer == if |names| < limits.maxDepth then Some("/" + Join(names + [piece])) else None)
  {
    NormalizeIsNormal(path, limits);
    SplitsOff(path, separator, piece);
    ReduceMore(Split(path[1..]), piece, limits.maxDepth);
  }

  lemma {:induction false} SplitsOff(path: string, separator: char, piece: string)
    requires path != "" && IsSeparator(separator) && NoSeparator(piece)
    ensures
      var longer := path + [separator] + piece;
      longer != "" && longer[0] == path[0] && |longer| == |path| + 1 + |piece| && Split(longer[1..]) == Split(path[1..]) + [piece]
  {
    var longer := path + [separator] + piece;
    assert longer[1..] == path[1..] + [separator] + piece;
    SplitConcat(path[1..], separator, piece);
    SplitPlain(piece);
  }

  lemma {:induction false} ReduceMore(pieces: seq<string>, piece: string, maxDepth: nat)
    requires Reduce(pieces, maxDepth).Some?
    ensures
      var names, more := Reduce(pieces, maxDepth).value, Reduce(pieces + [piece], maxDepth);
      && (piece == ".." ==> more == Some(Parent(names)))
      && (piece == "." || piece == "" ==> more == Some(names))
      && (PlainName(piece) ==> more == if |names| < maxDepth then Some(names + [piece]) else None)
  {
    assert (pieces + [piece])[..|pieces|] == pieces;
  }

  /** Paths of one component. */
  lemma {:induction false} FirstComponent(separator: char, piece: string, limits: Limits)
    requires limits.Valid() && IsSeparator(separator) && NoSeparator(piece) && 1 + |piece| < limits.maxPath
    ensures
      var path := Normalize([separator] + piece, limits);
      && (piece == ".." || piece == "." || piece == "" ==> path == Some("/"))
      && (PlainName(piece) ==> path == if 0 < limits.maxDepth then Some("/" + piece) else None)
  {
    assert ([separator] + piece)[1..] == piece;
    SplitPlain(piece);
    ReduceFirst(piece, limits.maxDepth);
  }

  lemma ReduceFirst(piece: string, maxDepth: nat)
    ensures
      var names := Reduce([piece], maxDepth);
      && (piece == ".." || piece == "." || piece == "" ==> names == Some([]))
      && (PlainName(piece) ==> names == if 0 < maxDepth then Some([piece]) else None)
    ensures "/" + Join([]) == "/" && Join([piece]) == piece
  {
    assert [piece][..0] == [] && [] + [piece] == [piece];
  }

  /** Going into a directory and back out again leads to where one was. */
  lemma {:induction false} ThereAndBack(path: string, into: char, name: string, back: char, limits: Limits)
    requires limits.Valid() && Normalize(path, limits).Some? && PlainName(name) && IsSeparator(into) && IsSeparator(back)
    requires |path| + |name| + 4 < limits.maxPath && |Names(Normalize(path, limits).value)| < limits.maxDepth
    ensures
      var inner := path + [into] + name;
      Normalize(inner + [back] + "..", limits) == Normalize(path, limits)
  {
    var names := Names(Normalize(path, limits).value);
    NormalizeIsNormal(path, limits);
    OneMoreComponent(path, into, name, limits);
    NamesOneMore(names, name);
    OneMoreComponent(path + [into] + name, back, "..", limits);
  }

  lemma NamesOneMore(names: seq<string>, name: string)
    requires PlainNames(names) && PlainName(name)
    ensures Names("/" + Join(names + [name])) == names + [name] && Parent(names + [name]) == names
  {
    var more := names + [name];
    assert forall k :: 0 <= k < |more| ==> PlainName(more[k]);
    NamesOfAbsolute(more);
    assert more[..|names|] == names;
  }

  /** How many directories are open after some pieces, counting without a limit. */
  function Level(pieces: seq<string>): nat {
    if pieces == [] then 0
    else
      var before, piece := Level(pieces[..|pieces| - 1]), pieces[|pieces| - 1];
      if piece == "." || piece == "" then before
      else if piece == ".." then if before == 0 then 0 else before - 1
      else before + 1
  }

  /** At some point more directories are open than allowed. */
  ghost predicate TooDeep(pieces: seq<string>, maxDepth: nat) {
    exists k :: 0 <= k <= |pieces| && Level(pieces[..k]) > maxDepth
  }

  lemma {:induction false} ReduceLevel(pieces: seq<string>, maxDepth: nat)
    ensures Reduce(pieces, maxDepth).None? <==> TooDeep(pieces, maxDepth)
    ensures Reduce(pieces, maxDepth).Some? ==> |Reduce(pieces, maxDepth).value| == Level(pieces)
  {
    assert pieces[..|pieces|] == pieces;
    if pieces != [] {
      var n := |pieces| - 1;
      var front := pieces[..n];
      ReduceLevel(front, maxDepth);
      assert forall k :: 0 <= k <= n ==> front[..k] == pieces[..k];
    }
  }

  /** Normalisation fails exactly for relative paths, for long ones, and where more directories are open than allowed. */
  lemma {:induction false} NormalizeFails(path: string, limits: Limits)
    ensures Normalize(path, limits).None? <==>
              || path == "" || !IsSeparator(path[0]) || |path| >= limits.maxPath
              || TooDeep(Split(path[1..]), limits.maxDepth)
  {
    if path != "" {
      ReduceLevel(Split(path[1..]), limits.maxDepth);
    }
  }

  // ----- Translation below the root -----

  function SkipSlashes(s: string): string {
    if s != "" && s[0] == '/' then SkipSlashes(s[1..]) else s
  }

  /** `guac_ssh_append_path` */
  function Append(a: string, b: string, limits: Limits): Option<string> {
    var full := (if a == "" || a[|a| - 1] != '/' then a + "/" else a) + SkipSlashes(b);
    if |a| >= limits.maxPath || |full| >= limits.maxPath then None else Some(full)
  }

  /** `guac_common_ssh_sftp_translate_name` */
  function Translate(root: string, name: string, limits: Limits): Option<string> {
    match Normalize(name, limits)
    case None => None
    case Some(normalized) => Append(root, normalized, limits)
  }

  /**
   Whatever name a client sends, the path it is translated to starts with the root and its
   names are the root's followed by the names of the normalised name: none of them leads
   back up.
   */
  lemma {:induction false} TranslationStaysBelowRoot(configured: string, name: string, limits: Limits)
    requires limits.Valid() && Normalize(configured, limits).Some?
    ensures var root := Normalize(configured, limits).value;
            Translate(root, name, limits).Some? ==>
              var full := Translate(root, name, limits).value;
              && Normalize(name, limits).Some?
              && Names(full) == Names(root) + Names(Normalize(name, limits).value)
              && PlainNames(Names(full)) && root <= full
  {
    var root := Normalize(configured, limits).value;
    if Translate(root, name, limits).Some? {
      NormalizeIsNormal(configured, limits);
      NormalizeIsNormal(name, limits);
      AppendBelow(Names(root), Names(Normalize(name, limits).value), limits);
    }
  }

  /** A name is translated exactly if it can be normalised and the joined path fits, separator included. */
  lemma {:induction false} TranslationSucceeds(configured: string, name: string, limits: Limits)
    requires limits.Valid() && Normalize(configured, limits).Some?
    ensures var root, inner := Normalize(configured, limits).value, Normalize(name, limits);
            Translate(root, name, limits) ==
            if inner.None? then None
            else
              var full := (if root == "/" then "" else root) + inner.value;
              if |full| < limits.maxPath then Some(full) else None
  {
    var root := Normalize(configured, limits).value;
    NormalizeIsNormal(configured, limits);
    if Normalize(name, limits).Some? {
      NormalizeIsNormal(name, limits);
      AppendExactly(root, Names(root), Normalize(name, limits).value, Names(Normalize(name, limits).value), limits);
    }
  }

  lemma {:induction false} AppendExactly(root: string, above: seq<string>, inner: string, below: seq<string>, limits: Limits)
    requires PlainNames(above) && PlainNames(below) && root == "/" + Join(above) && inner == "/" + Join(below)
    requires |root| < limits.maxPath && |inner| < limits.maxPath
    ensures Append(root, inner, limits) ==
            var full := (if root == "/" then "" else root) + inner;
            if |full| < limits.maxPath then Some(full) else None
  {
    SkipsOneSlash(below);
    if above == [] {
      assert root == "/" && "" + inner == inner;
    } else {
      JoinEnd(above);
      assert root[|root| - 1] == Join(above)[|Join(above)| - 1];
      assert root + "/" + Join(below) == root + inner;
    }
  }

  lemma {:induction false} AppendBelow(above: seq<string>, below: seq<string>, limits: Limits)
    requires PlainNames(above) && PlainNames(below)
    requires Append("/" + Join(above), "/" + Join(below), limits).Some?
    ensures var root := "/" + Join(above);
            var full := Append(root, "/" + Join(below), limits).value;
            Names(full) == above + below && PlainNames(above + below) && root <= full
  {
    SkipsOneSlash(below);
    if above == [] {
      assert "/" + Join(above) == "/";
      NamesOfAbsolute(below);
      assert above + below == below;
    } else {
      JoinEnd(above);
      assert "/" + Join(above) + "/" + Join(below) == "/" + (Join(above) + "/" + Join(below));
      NamesBelow(above, below);
    }
  }

  lemma {:induction false} NamesBelow(above: seq<string>, below: seq<string>)
    requires PlainNames(above) && PlainNames(below)
    ensures Names("/" + (Join(above) + "/" + Join(below))) == above + below
  {
    var inner := Join(above) + "/" + Join(below);
    assert "" + "/" + inner == "/" + inner;
    SplitConcat("", '/', inner);
    SplitConcat(Join(above), '/', Join(below));
    NonEmptyConcat([""], Split(inner));
    NonEmptyConcat(Split(Join(above)), Split(Join(below)));
    NamesOfJoin(above);
    NamesOfJoin(below);
    assert NonEmpty([""]) == [];
  }

  /** A joined path of plain names neither starts nor ends with a slash. */
  lemma {:induction false} JoinEnd(names: seq<string>)
    requires PlainNames(names) && names != []
    ensures Join(names) != "" && Join(names)[0] != '/' && Join(names)[|Join(names)| - 1] != '/'
  {
    assert PlainName(names[|names| - 1]);
    if |names| > 1 {
      JoinEnd(names[..|names| - 1]);
    }
  }

  lemma {:induction false} SkipsOneSlash(names: seq<string>)
    requires PlainNames(names)
    ensures SkipSlashes("/" + Join(names)) == Join(names)
  {
    assert ("/" + Join(names))[1..] == Join(names);
    if names != [] {
      JoinEnd(names);
    }
  }

  // ----- The loops -----

  /** Memory at `p` holds `name` and its terminator. */
  ghost predicate Points(memory: array<char>, p: nat, name: string)
    reads memory
  {
    && p + |name| < memory.Length && memory[p + |name|] == NUL
    && forall k :: 0 <= k < |name| ==> memory[p + k] == name[k] != NUL
  }

  /** Reads the C string that starts at `p`. */
  method ReadString(memory: array<char>, p: nat, ghost name: string) returns (s: string)
    requires Points(memory, p, name)
    ensures s == name
  {
    s := "";
    while memory[p + |s|] != NUL
      invariant |s| <= |name| && s == name[..|s|]
      invariant |s| < |name| ==> memory[p + |s|] == name[|s|] != NUL
      decreases |name| - |s|
    {
      s := s + [memory[p + |s|]];
    }
  }

  lemma {:induction false} ReduceNoneStays(pieces: seq<string>, k: nat, maxDepth: nat)
    requires k <= |pieces| && Reduce(pieces[..k], maxDepth).None?
    ensures Reduce(pieces, maxDepth).None?
    decreases |pieces| - k
  {
    if k == |pieces| {
      assert pieces[..k] == pieces;
    } else {
      assert pieces[..k + 1][..k] == pieces[..k];
      ReduceNoneStays(pieces, k + 1, maxDepth);
    }
  }

  /** Pieces that a separator has ended stay as they are. */
  lemma {:induction false} SplitPrefix(s: string, i: nat)
    requires i <= |s| && (i == |s| || IsSeparator(s[i]))
    ensures Split(s[..i]) <= Split(s)
  {
    if i == |s| {
      assert s[..i] == s;
    } else {
      assert s == s[..i] + [s[i]] + s[i + 1..];
      SplitConcat(s[..i], s[i], s[i + 1..]);
    }
  }

  /** The pieces of the first `i` characters, all but the last one carried out. */
  ghost predicate Progress(rest: string, i: nat, start: nat, names: seq<string>, maxDepth: nat) {
    if i <= |rest| then
      var pieces := Split(rest[..i]);
      start <= i && pieces[|pieces| - 1] == rest[start..i] && Reduce(pieces[..|pieces| - 1], maxDepth) == Some(names)
    else
      Reduce(Split(rest), maxDepth) == Some(names)
  }

  /** Carrying out the piece that ends at `i`. */
  lemma {:induction false} PieceEnds(rest: string, i: nat, start: nat, names: seq<string>, maxDepth: nat)
    requires i <= |rest| && (i < |rest| ==> IsSeparator(rest[i])) && Progress(rest, i, start, names, maxDepth)
    ensures match Step(names, rest[start..i], maxDepth)
            case None => Reduce(Split(rest), maxDepth).None?
            case Some(next) => Progress(rest, i + 1, i + 1, next, maxDepth)
  {
    var pieces := Split(rest[..i]);
    SplitPrefix(rest, i);
    assert Reduce(pieces, maxDepth) == Step(names, rest[start..i], maxDepth);
    if Step(names, rest[start..i], maxDepth).None? {
      assert Split(rest)[..|pieces|] == pieces;
      ReduceNoneStays(Split(rest), |pieces|, maxDepth);
    } else if i < |rest| {
      assert rest[..i + 1][..i] == rest[..i];
      assert Split(rest[..i + 1]) == pieces + [""];
      assert (pieces + [""])[..|pieces|] == pieces;
    } else {
      assert rest[..i] == rest;
    }
  }

  /** An ordinary character extends the current piece. */
  lemma {:induction false} PieceGrows(rest: string, i: nat, start: nat, names: seq<string>, maxDepth: nat)
    requires i < |rest| && !IsSeparator(rest[i]) && Progress(rest, i, start, names, maxDepth)
    ensures Progress(rest, i + 1, start, names, maxDepth)
  {
    assert rest[..i + 1][..i] == rest[..i];
    assert rest[start..i + 1] == rest[start..i] + [rest[i]];
  }

  /** Memory once `i` characters are read: the rest untouched, the kept names terminated before `start`. */
  ghost predicate Holds(scratch: array<char>, stack: array<nat>, rest: string, i: nat, start: nat, names: seq<string>)
    reads scratch, stack
  {
    && |rest| < scratch.Length && start <= i <= |rest| + 1 && |names| <= stack.Length
    && (forall k :: start <= k < |rest| ==> scratch[k] == rest[k])
    && (i <= |rest| ==> scratch[|rest|] == NUL)
    && (forall d :: 0 <= d < |names| ==> stack[d] + |names[d]| < start && Points(scratch, stack[d], names[d]))
  }

  /** Ends the piece at position `i` and carries out what it means for the stack. */
  method EndPiece(scratch: array<char>, stack: array<nat>, depth0: nat, i: nat, start: nat,
                  ghost rest: string, ghost names: seq<string>)
    returns (ok: bool, depth: nat)
    requires NUL !in rest && i <= |rest|
    requires Holds(scratch, stack, rest, i, start, names) && depth0 == |names|
    modifies scratch, stack
    ensures match Step(names, rest[start..i], stack.Length)
            case None => !ok
            case Some(next) => ok && depth == |next| && Holds(scratch, stack, rest, i + 1, i + 1, next)
  {
    scratch[i] := NUL;
    assert Points(scratch, start, rest[start..i]);
    var component := ReadString(scratch, start, rest[start..i]);
    ok, depth := true, depth0;
    if component == ".." {
      if depth > 0 {
        depth := depth - 1;
      }
    } else if component != "." && component != "" {
      if depth >= stack.Length {
        return false, depth;
      }
      stack[depth] := start;
      depth := depth + 1;
    }
  }

  /** One character of the normalisation loop. */
  method Advance(scratch: array<char>, stack: array<nat>, depth0: nat, i: nat, start0: nat,
                 ghost rest: string, ghost names0: seq<string>)
    returns (ok: bool, depth: nat, start: nat, ghost names: seq<string>)
    requires NUL !in rest && i <= |rest|
    requires Holds(scratch, stack, rest, i, start0, names0) && depth0 == |names0|
    requires Progress(rest, i, start0, names0, stack.Length)
    modifies scratch, stack
    ensures !ok ==> Reduce(Split(rest), stack.Length).None?
    ensures ok ==> Holds(scratch, stack, rest, i + 1, start, names) && depth == |names|
    ensures ok ==> Progress(rest, i + 1, start, names, stack.Length)
  {
    ok, depth, start, names := true, depth0, start0, names0;
    var c := scratch[i];
    if IsSeparator(c) || c == NUL {
      PieceEnds(rest, i, start, names, stack.Length);
      ok, depth := EndPiece(scratch, stack, depth, i, start, rest, names);
      if ok {
        names := Step(names, rest[start..i], stack.Length).value;
        start := i + 1;
      }
    } else {
      PieceGrows(rest, i, start, names, stack.Length);
    }
  }

  /** Appends to a buffer of `n` bytes: what does not fit before the terminator is cut off. */
  method AppendBounded(buffer: string, more: string, n: nat) returns (longer: string)
    requires n > 0 && |buffer| < n
    ensures |longer| < n
    ensures |buffer| + |more| < n ==> longer == buffer + more
  {
    longer := buffer + more;
    if |longer| >= n {
      longer := longer[..n - 1];
    }
  }

  /** `guac_strljoin` over the kept components. */
  method JoinNames(scratch: array<char>, stack: array<nat>, depth: nat, n: nat, ghost names: seq<string>) returns (s: string)
    requires n > 0 && depth == |names| <= stack.Length
    requires forall d :: 0 <= d < |names| ==> Points(scratch, stack[d], names[d])
    ensures |Join(names)| < n ==> s == Join(names)
  {
    s := "";
    var k := 0;
    while k < depth
      invariant 0 <= k <= depth && |s| < n
      invariant |Join(names)| < n ==> s == Join(names[..k])
    {
      assert names[..k + 1][..k] == names[..k];
      JoinGrows(names, k + 1);
      if k > 0 {
        s := AppendBounded(s, "/", n);
      }
      var component := ReadString(scratch, stack[k], names[k]);
      s := AppendBounded(s, component, n);
      k := k + 1;
    }
    assert names[..k] == names;
  }

  lemma {:induction false} JoinGrows(names: seq<string>, k: nat)
    requires k <= |names|
    ensures |Join(names[..k])| <= |Join(names)|
    decreases |names| - k
  {
    if k == |names| {
      assert names[..k] == names;
    } else {
      JoinGrows(names, k + 1);
      assert names[..k + 1][..k] == names[..k];
    }
  }

  /** The normalisation loop. */
  method ReduceComponents(scratch: array<char>, stack: array<nat>, length: nat, ghost rest: string)
    returns (ok: bool, depth: nat, ghost names: seq<string>)
    requires length == |rest| < scratch.Length && NUL !in rest && Holds(scratch, stack, rest, 0, 0, [])
    modifies scratch, stack
    ensures ok <==> Reduce(Split(rest), stack.Length).Some?
    ensures ok ==> Reduce(Split(rest), stack.Length) == Some(names) && depth == |names| <= stack.Length
    ensures ok ==> forall d :: 0 <= d < |names| ==> Points(scratch, stack[d], names[d])
  {
    ok, depth, names := true, 0, [];
    var start, i := 0, 0;
    while i <= length
      invariant Holds(scratch, stack, rest, i, start, names) && depth == |names|
      invariant Progress(rest, i, start, names, stack.Length)
    {
      ok, depth, start, names := Advance(scratch, stack, depth, i, start, rest, names);
      if !ok {
        return;
      }
      i := i + 1;
    }
    ok := true;
  }

  /** `guac_common_ssh_sftp_normalize_path`: cuts a scratch copy in place and never truncates its result. */
  method NormalizePath(path: string, limits: Limits) returns (ok: bool, fullpath: string)
    requires limits.Valid() && NUL !in path
    ensures ok <==> Normalize(path, limits).Some?
    ensures ok ==> fullpath == Normalize(path, limits).value
  {
    fullpath := "";
    if path == "" || !IsSeparator(path[0]) {
      return false, "";
    }
    ghost var rest := path[1..];
    var length := |path| - 1;
    var scratch := new char[limits.maxPath - 1](_ => NUL);
    if length >= scratch.Length {
      return false, "";
    }
    forall k | 0 <= k < length {
      scratch[k] := path[k + 1];
    }
    var stack := new nat[limits.maxDepth];
    var depth;
    ghost var names;
    ok, depth, names := ReduceComponents(scratch, stack, length, rest);
    if !ok {
      return;
    }
    NormalizedNames(path, limits, names);
    var joined := JoinNames(scratch, stack, depth, limits.maxPath - 1, names);
    return true, "/" + joined;
  }

  lemma {:induction false} NormalizedNames(path: string, limits: Limits, names: seq<string>)
    requires limits.Valid() && path != "" && IsSeparator(path[0]) && |path| < limits.maxPath
    requires Reduce(Split(path[1..]), limits.maxDepth) == Some(names)
    ensures Normalize(path, limits) == Some("/" + Join(names)) && |Join(names)| < limits.maxPath - 1
  {
    NormalizeIsNormal(path, limits);
  }

  /** `guac_ssh_append_path` */
  method AppendPath(a: string, b: string, limits: Limits) returns (ok: bool, fullpath: string)
    requires limits.Valid()
    ensures ok <==> Append(a, b, limits).Some?
    ensures ok ==> fullpath == Append(a, b, limits).value
  {
    fullpath := a;
    if |a| >= limits.maxPath {
      return false, "";
    }
    var length := |a|;
    if length == 0 || a[length - 1] != '/' {
      fullpath := AppendBounded(fullpath, "/", limits.maxPath);
      length := length + 1;
    }
    var rest := b;
    while rest != "" && rest[0] == '/'
      invariant SkipSlashes(rest) == SkipSlashes(b)
      decreases |rest|
    {
      rest := rest[1..];
    }
    fullpath := AppendBounded(fullpath, rest, limits.maxPath);
    length := length + |rest|;
    return length < limits.maxPath, fullpath;
  }

  /** `guac_common_ssh_sftp_translate_name` */
  method TranslateName(root: string, name: string, limits: Limits) returns (ok: bool, fullpath: string)
    requires limits.Valid() && NUL !in name
    ensures ok <==> Translate(root, name, limits).Some?
    ensures ok ==> fullpath == Translate(root, name, limits).value
  {
    var normalized;
    ok, normalized := NormalizePath(name, limits);
    fullpath := "";
    if ok {
      ok, fullpath := AppendPath(root, normalized, limits);
    }
  }
}
