/**
 * The shell's parser as functions of the input string and a cursor
 * (user/sh.c).  Words are spans of the input, as the pointer pairs of the
 * original are.
 */
module Shell {
  const MAXARGS: nat := 10

  predicate IsSpace(c: char) { c == ' ' || c == '\t' || c == '\r' || c == '\n' || c == '\U{0B}' }

  predicate IsSymbol(c: char) { c == '<' || c == '|' || c == '>' || c == '&' || c == ';' || c == '(' || c == ')' }

  predicate IsWordChar(c: char) { !IsSpace(c) && !IsSymbol(c) && c != '\0' }

  /** A C string: its terminator lies just past the end. */
  predicate NoNul(s: string) { forall i | 0 <= i < |s| :: s[i] != '\0' }

  /** The character at i, NUL at the end. */
  function CharAt(s: string, i: nat): (c: char)
  {
    if i < |s| then s[i] else '\0'
  }

  function SkipSpace(s: string, i: nat): (j: nat)
    requires i <= |s|
    ensures i <= j <= |s| && (j < |s| ==> !IsSpace(s[j]))
    ensures i < |s| && !IsSpace(s[i]) ==> j == i
    decreases |s| - i
  {
    if i < |s| && IsSpace(s[i]) then SkipSpace(s, i + 1) else i
  }

  /** The end of the word that starts at i. */
  function WordEnd(s: string, i: nat): (j: nat)
    requires i <= |s|
    ensures i <= j <= |s| && (j < |s| ==> IsSpace(s[j]) || IsSymbol(s[j]))
    ensures forall k | i <= k < j :: !IsSpace(s[k]) && !IsSymbol(s[k])
    decreases |s| - i
  {
    if i < |s| && !IsSpace(s[i]) && !IsSymbol(s[i]) then WordEnd(s, i + 1) else i
  }

  /** A token: its kind ('a' for a word, '+' for >>, NUL at the end), its span and where the next one starts. */
  datatype Token = Token(kind: char, q: nat, eq: nat, next: nat)

  function TokenAt(s: string, i: nat): (t: Token)
    requires i <= |s|
    ensures i <= t.q <= t.eq <= t.next <= |s|
    ensures t.q < |s| ==> t.q < t.eq
  {
    var q := SkipSpace(s, i);
    var c := CharAt(s, q);
    var kind := if q == |s| then '\0' else if c == '>' && CharAt(s, q + 1) == '>' then '+'
                else if IsSymbol(c) then c else 'a';
    var eq := if q == |s| then q else if kind == '+' then q + 2 else if IsSymbol(c) then q + 1 else WordEnd(s, q);
    Token(kind, q, eq, SkipSpace(s, eq))
  }

  /** A word is a maximal run of word characters. */
  ghost predicate IsWord(s: string, q: nat, eq: nat)
  {
    && q < eq <= |s|
    && (forall k | q <= k < eq :: IsWordChar(s[k]))
    && (eq < |s| ==> !IsWordChar(s[eq]))
  }

  lemma TokenWord(s: string, i: nat)
    requires i <= |s| && NoNul(s) && TokenAt(s, i).kind == 'a'
    ensures IsWord(s, TokenAt(s, i).q, TokenAt(s, i).eq)
  {
  }

  /** Does one of toks come next? */
  predicate Next(s: string, i: nat, toks: string)
    requires i <= |s|
  {
    var j := SkipSpace(s, i);
    j < |s| && s[j] in toks
  }

  /** A parsed command over words of type W. */
  datatype Cmd<W> =
    | Exec(args: seq<W>)
    | Redir(cmd: Cmd<W>, file: W, mode: nat, fd: nat)
    | Pipe(left: Cmd<W>, right: Cmd<W>)
    | List(left: Cmd<W>, right: Cmd<W>)
    | Back(cmd: Cmd<W>)

  datatype Span = Span(q: nat, eq: nat)

  datatype Redirection<W> = Redirection(file: W, mode: nat, fd: nat)

  /** A command with redirections around it, the first one innermost. */
  function Wrap<W>(cmd: Cmd<W>, redirs: seq<Redirection<W>>): (c: Cmd<W>)
  {
    if redirs == [] then cmd
    else var last := redirs[|redirs| - 1];
      Redir(Wrap(cmd, redirs[..|redirs| - 1]), last.file, last.mode, last.fd)
  }

  datatype Parsed = Ok(cmd: Cmd<Span>, next: nat) | Panic

  datatype Redirs = Found(list: seq<Redirection<Span>>, next: nat) | NoFile

  const O_RDONLY: nat := 0
  const O_WRONLY_CREATE: nat := 0x201
  const O_WRONLY_CREATE_TRUNC: nat := 0x601

  /** The open mode and descriptor of a redirection token. */
  function RedirectionOf<W>(kind: char, file: W): (r: Redirection<W>)
  {
    if kind == '<' then Redirection(file, O_RDONLY, 0)
    else if kind == '>' then Redirection(file, O_WRONLY_CREATE_TRUNC, 1)
    else Redirection(file, O_WRONLY_CREATE, 1)
  }

  ghost predicate WordsOf(s: string, c: Cmd<Span>)
  {
    match c
    case Exec(args) => |args| < MAXARGS && forall k | 0 <= k < |args| :: IsWord(s, args[k].q, args[k].eq)
    case Redir(d, file, _, _) => WordsOf(s, d) && IsWord(s, file.q, file.eq)
    case Pipe(l, r) => WordsOf(s, l) && WordsOf(s, r)
    case List(l, r) => WordsOf(s, l) && WordsOf(s, r)
    case Back(d) => WordsOf(s, d)
  }

  /** parseredirs */
  function ParseRedirs(s: string, i: nat): (r: Redirs)
    requires i <= |s| && NoNul(s)
    ensures r.Found? ==> i <= r.next <= |s|
    ensures r.Found? ==> forall k | 0 <= k < |r.list| :: IsWord(s, r.list[k].file.q, r.list[k].file.eq)
    decreases |s| - i
  {
    if !Next(s, i, "<>") then Found([], SkipSpace(s, i))
    else
      var tok := TokenAt(s, i);
      var word := TokenAt(s, tok.next);
      if word.kind != 'a' then NoFile
      else
        TokenWord(s, tok.next);
        match ParseRedirs(s, word.next)
        case NoFile => NoFile
        case Found(list, next) => Found([RedirectionOf(tok.kind, Span(word.q, word.eq))] + list, next)
  }

  ghost predicate RedirWords(s: string, list: seq<Redirection<Span>>)
  {
    forall k | 0 <= k < |list| :: IsWord(s, list[k].file.q, list[k].file.eq)
  }

  lemma {:induction false} WrapWords(s: string, cmd: Cmd<Span>, list: seq<Redirection<Span>>)
    requires WordsOf(s, cmd) && RedirWords(s, list)
    ensures WordsOf(s, Wrap(cmd, list))
  {
    if list != [] {
      WrapWords(s, cmd, list[..|list| - 1]);
    }
  }

  ghost predicate ArgWords(s: string, args: seq<Span>)
  {
    |args| < MAXARGS && forall k | 0 <= k < |args| :: IsWord(s, args[k].q, args[k].eq)
  }

  ghost predicate GoodResult(s: string, i: nat, r: Parsed)
  {
    r.Ok? ==> i <= r.next <= |s| && WordsOf(s, r.cmd)
  }

  /** The loop of parseexec, with the words and redirections found so far. */
  function ExecLoop(s: string, i: nat, args: seq<Span>, redirs: seq<Redirection<Span>>): (r: Parsed)
    requires i <= |s| && NoNul(s) && ArgWords(s, args) && RedirWords(s, redirs)
    ensures GoodResult(s, i, r)
    decreases |s| - i
  {
    WrapWords(s, Exec(args), redirs);
    if Next(s, i, "|)&;") then Ok(Wrap(Exec(args), redirs), SkipSpace(s, i))
    else
      var tok := TokenAt(s, i);
      if tok.kind == '\0' then Ok(Wrap(Exec(args), redirs), tok.next)
      else if tok.kind != 'a' then Panic
      else if |args| + 1 >= MAXARGS then Panic
      else
        TokenWord(s, i);
        match ParseRedirs(s, tok.next)
        case NoFile => Panic
        case Found(list, next) => ExecLoop(s, next, args + [Span(tok.q, tok.eq)], redirs + list)
  }

  /** parseexec */
  function ParseExec(s: string, i: nat): (r: Parsed)
    requires i <= |s| && NoNul(s)
    ensures GoodResult(s, i, r)
    decreases |s| - i, 2
  {
    if Next(s, i, "(") then ParseBlock(s, i)
    else
      match ParseRedirs(s, i)
      case NoFile => Panic
      case Found(list, next) => ExecLoop(s, next, [], list)
  }

  /** parseblock */
  function ParseBlock(s: string, i: nat): (r: Parsed)
    requires i <= |s| && NoNul(s)
    ensures GoodResult(s, i, r)
    decreases |s| - i, 1
  {
    if !Next(s, i, "(") then Panic
    else
      match ParseLine(s, TokenAt(s, i).next)
      case Panic => Panic
      case Ok(c, j) =>
        if !Next(s, j, ")") then Panic
        else
          match ParseRedirs(s, TokenAt(s, j).next)
          case NoFile => Panic
          case Found(list, next) =>
            WrapWords(s, c, list);
            Ok(Wrap(c, list), next)
  }

  /** parsepipe */
  function ParsePipe(s: string, i: nat): (r: Parsed)
    requires i <= |s| && NoNul(s)
    ensures GoodResult(s, i, r)
    decreases |s| - i, 3
  {
    match ParseExec(s, i)
    case Panic => Panic
    case Ok(c, j) =>
      if !Next(s, j, "|") then Ok(c, SkipSpace(s, j))
      else
        match ParsePipe(s, TokenAt(s, j).next)
        case Panic => Panic
        case Ok(d, k) => Ok(Pipe(c, d), k)
  }

  /** The & loop of parseline. */
  function BackLoop(s: string, i: nat, c: Cmd<Span>): (r: (Cmd<Span>, nat))
    requires i <= |s| && WordsOf(s, c)
    ensures i <= r.1 <= |s| && WordsOf(s, r.0)
    decreases |s| - i
  {
    if Next(s, i, "&") then BackLoop(s, TokenAt(s, i).next, Back(c)) else (c, SkipSpace(s, i))
  }

  /** parseline */
  function ParseLine(s: string, i: nat): (r: Parsed)
    requires i <= |s| && NoNul(s)
    ensures GoodResult(s, i, r)
    decreases |s| - i, 4
  {
    match ParsePipe(s, i)
    case Panic => Panic
    case Ok(c, j) =>
      var (d, k) := BackLoop(s, j, c);
      if !Next(s, k, ";") then Ok(d, SkipSpace(s, k))
      else
        match ParseLine(s, TokenAt(s, k).next)
        case Panic => Panic
        case Ok(e, m) => Ok(List(d, e), m)
  }

  /** parsecmd, before nulterminate */
  function ParseCmd(s: string): (r: Parsed)
    requires NoNul(s)
    ensures r.Ok? ==> WordsOf(s, r.cmd)
  {
    match ParseLine(s, 0)
    case Panic => Panic
    case Ok(c, j) => if SkipSpace(s, j) != |s| then Panic else Ok(c, |s|)
  }
}
