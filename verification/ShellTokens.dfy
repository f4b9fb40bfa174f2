/**
 * The tokens of a text, a parser on tokens, and the proof that the parser of
 * user/sh.c sees nothing of its input but the tokens.
 */
module ShellTokens {
  import opened Shell

  /** The text of a span. */
  function Text(s: string, sp: Span): (w: string)
  {
    if sp.q <= sp.eq <= |s| then s[sp.q..sp.eq] else ""
  }

  function Texts(s: string, args: seq<Span>): (ws: seq<string>)
    ensures |ws| == |args| && forall k | 0 <= k < |args| :: ws[k] == Text(s, args[k])
  {
    seq(|args|, k requires 0 <= k < |args| => Text(s, args[k]))
  }

  function RedirTexts(s: string, list: seq<Redirection<Span>>): (rs: seq<Redirection<string>>)
    ensures |rs| == |list|
    ensures forall k | 0 <= k < |list| :: rs[k] == Redirection(Text(s, list[k].file), list[k].mode, list[k].fd)
  {
    seq(|list|, k requires 0 <= k < |list| => Redirection(Text(s, list[k].file), list[k].mode, list[k].fd))
  }

  /** The command with its words as strings. */
  function Strings(s: string, c: Cmd<Span>): (t: Cmd<string>)
  {
    match c
    case Exec(args) => Exec(Texts(s, args))
    case Redir(d, file, mode, fd) => Redir(Strings(s, d), Text(s, file), mode, fd)
    case Pipe(l, r) => Pipe(Strings(s, l), Strings(s, r))
    case List(l, r) => List(Strings(s, l), Strings(s, r))
    case Back(d) => Back(Strings(s, d))
  }

  /** A word, or one of < | > & ; ( ) and >>, which is '+'. */
  datatype Tok = Word(w: string) | Op(c: char)

  function TokOf(s: string, t: Token): (k: Tok)
  {
    if t.kind == 'a' then Word(Text(s, Span(t.q, t.eq))) else Op(t.kind)
  }

  /** The tokens from position i on. */
  function Lex(s: string, i: nat): (toks: seq<Tok>)
    requires i <= |s|
    decreases |s| - i
  {
    if SkipSpace(s, i) == |s| then [] else [TokOf(s, TokenAt(s, i))] + Lex(s, TokenAt(s, i).next)
  }

  /** One of the characters of ops, or >> along with >, comes next. */
  predicate Starts(toks: seq<Tok>, ops: string)
  {
    toks != [] && toks[0].Op? && (toks[0].c in ops || (toks[0].c == '+' && '>' in ops))
  }

  lemma LexNext(s: string, i: nat, ops: string)
    requires i <= |s| && forall c | c in ops :: IsSymbol(c)
    ensures Next(s, i, ops) <==> Starts(Lex(s, i), ops)
    ensures Lex(s, SkipSpace(s, i)) == Lex(s, i)
  {
    var j := SkipSpace(s, i);
    if j < |s| {
      var t := TokenAt(s, i);
      assert TokenAt(s, j) == t;
      assert Lex(s, i)[0] == TokOf(s, t);
    }
  }

  /** The first token, and the rest. */
  lemma LexStep(s: string, i: nat)
    requires i <= |s| && Lex(s, i) != []
    ensures var t := TokenAt(s, i);
      && t.kind != '\0' && t.next <= |s| && Lex(s, i)[0] == TokOf(s, t) && Lex(s, i)[1..] == Lex(s, t.next)
      && |s| - t.next < |s| - i
  {
    var t := TokenAt(s, i);
    assert Lex(s, i) == [TokOf(s, t)] + Lex(s, t.next);
  }

  // ---- the parser on tokens ----

  datatype TParsed = TOk(cmd: Cmd<string>, rest: seq<Tok>) | TPanic

  datatype TRedirs = TFound(list: seq<Redirection<string>>, rest: seq<Tok>) | TNoFile

  function TokRedirs(toks: seq<Tok>): (r: TRedirs)
    ensures r.TFound? ==> |r.rest| <= |toks|
    decreases |toks|
  {
    if !Starts(toks, "<>") then TFound([], toks)
    else if |toks| < 2 || !toks[1].Word? then TNoFile
    else
      match TokRedirs(toks[2..])
      case TNoFile => TNoFile
      case TFound(list, rest) => TFound([RedirectionOf(toks[0].c, toks[1].w)] + list, rest)
  }

  function TokLoop(toks: seq<Tok>, args: seq<string>, redirs: seq<Redirection<string>>): (r: TParsed)
    ensures r.TOk? ==> |r.rest| <= |toks|
    decreases |toks|
  {
    if toks == [] || Starts(toks, "|)&;") then TOk(Wrap(Exec(args), redirs), toks)
    else if !toks[0].Word? || |args| + 1 >= MAXARGS then TPanic
    else
      match TokRedirs(toks[1..])
      case TNoFile => TPanic
      case TFound(list, rest) => TokLoop(rest, args + [toks[0].w], redirs + list)
  }

  function TokExec(toks: seq<Tok>): (r: TParsed)
    ensures r.TOk? ==> |r.rest| <= |toks|
    decreases |toks|, 1
  {
    if Starts(toks, "(") then
      match TokLine(toks[1..])
      case TPanic => TPanic
      case TOk(c, rest) =>
        if !Starts(rest, ")") then TPanic
        else
          (match TokRedirs(rest[1..])
           case TNoFile => TPanic
           case TFound(list, more) => TOk(Wrap(c, list), more))
    else
      match TokRedirs(toks)
      case TNoFile => TPanic
      case TFound(list, rest) => TokLoop(rest, [], list)
  }

  function TokPipe(toks: seq<Tok>): (r: TParsed)
    ensures r.TOk? ==> |r.rest| <= |toks|
    decreases |toks|, 2
  {
    match TokExec(toks)
    case TPanic => TPanic
    case TOk(c, rest) =>
      if !Starts(rest, "|") then TOk(c, rest)
      else
        match TokPipe(rest[1..])
        case TPanic => TPanic
        case TOk(d, more) => TOk(Pipe(c, d), more)
  }

  function TokBack(toks: seq<Tok>, c: Cmd<string>): (r: (Cmd<string>, seq<Tok>))
    ensures |r.1| <= |toks|
    decreases |toks|
  {
    if Starts(toks, "&") then TokBack(toks[1..], Back(c)) else (c, toks)
  }

  function TokLine(toks: seq<Tok>): (r: TParsed)
    ensures r.TOk? ==> |r.rest| <= |toks|
    decreases |toks|, 3
  {
    match TokPipe(toks)
    case TPanic => TPanic
    case TOk(c, rest) =>
      var (d, more) := TokBack(rest, c);
      if !Starts(more, ";") then TOk(d, more)
      else
        match TokLine(more[1..])
        case TPanic => TPanic
        case TOk(e, end) => TOk(List(d, e), end)
  }

  // ---- the text's parser does the same ----

  /** The two parsers agree: both panic, or they find the same command and leave the same tokens. */
  ghost predicate Same(s: string, r: Parsed, t: TParsed)
  {
    match r
    case Panic => t.TPanic?
    case Ok(c, j) => j <= |s| && t == TOk(Strings(s, c), Lex(s, j))
  }

  ghost predicate SameRedirs(s: string, r: Redirs, t: TRedirs)
  {
    match r
    case NoFile => t.TNoFile?
    case Found(list, j) => j <= |s| && t == TFound(RedirTexts(s, list), Lex(s, j))
  }

  lemma {:induction false} StringsWrap(s: string, c: Cmd<Span>, list: seq<Redirection<Span>>)
    ensures Strings(s, Wrap(c, list)) == Wrap(Strings(s, c), RedirTexts(s, list))
  {
    if list != [] {
      StringsWrap(s, c, list[..|list| - 1]);
      assert RedirTexts(s, list)[..|list| - 1] == RedirTexts(s, list[..|list| - 1]);
    }
  }

  /** What follows the symbol that comes next. */
  lemma LexAfter(s: string, i: nat, ops: string)
    requires i <= |s| && (forall c | c in ops :: IsSymbol(c)) && Next(s, i, ops)
    ensures var t := TokenAt(s, i);
      && Starts(Lex(s, i), ops) && Lex(s, i)[0] == Op(t.kind) && i < t.next <= |s|
      && Lex(s, t.next) == Lex(s, i)[1..]
  {
    LexNext(s, i, ops);
    LexStep(s, i);
  }

  /** At the end of the text there is no token. */
  lemma LexEnd(s: string, i: nat)
    requires i <= |s|
    ensures Lex(s, i) == [] <==> TokenAt(s, i).kind == '\0' || SkipSpace(s, i) == |s|
    ensures Lex(s, i) == [] ==> TokenAt(s, i).kind == '\0' && Lex(s, TokenAt(s, i).next) == []
  {
  }

  lemma RedirTextsCons(s: string, r: Redirection<Span>, list: seq<Redirection<Span>>)
    ensures RedirTexts(s, [r] + list) == [Redirection(Text(s, r.file), r.mode, r.fd)] + RedirTexts(s, list)
  {
  }

  lemma {:induction false} RedirsSame(s: string, i: nat)
    requires i <= |s| && NoNul(s)
    ensures SameRedirs(s, ParseRedirs(s, i), TokRedirs(Lex(s, i)))
    decreases |s| - i
  {
    hide IsWord;
    hide TokenAt;
    hide Lex;
    hide Next;
    hide NoNul;
    hide Starts;
    hide Text;
    LexNext(s, i, "<>");
    if Next(s, i, "<>") {
      LexAfter(s, i, "<>");
      var tok := TokenAt(s, i);
      var word := TokenAt(s, tok.next);
      var toks := Lex(s, i);
      if Lex(s, tok.next) == [] {
        LexEnd(s, tok.next);
      } else {
        LexStep(s, tok.next);
        assert toks[1] == Lex(s, tok.next)[0] && toks[2..] == Lex(s, tok.next)[1..];
        if word.kind == 'a' {
          RedirsSame(s, word.next);
          var rest := ParseRedirs(s, word.next);
          if rest.Found? {
            RedirTextsCons(s, RedirectionOf(tok.kind, Span(word.q, word.eq)), rest.list);
          }
        }
      }
    }
  }

  lemma TextsAppend(s: string, args: seq<Span>, a: Span)
    ensures Texts(s, args + [a]) == Texts(s, args) + [Text(s, a)]
  {
  }

  lemma RedirTextsAppend(s: string, list: seq<Redirection<Span>>, more: seq<Redirection<Span>>)
    ensures RedirTexts(s, list + more) == RedirTexts(s, list) + RedirTexts(s, more)
  {
  }

  /** The word that comes next, and what follows it. */
  lemma LexWord(s: string, i: nat)
    requires i <= |s| && NoNul(s) && Lex(s, i) != [] && Lex(s, i)[0].Word?
    ensures var t := TokenAt(s, i);
      && t.kind == 'a' && i < t.next && IsWord(s, t.q, t.eq) && Lex(s, i)[0].w == Text(s, Span(t.q, t.eq))
      && Lex(s, i)[1..] == Lex(s, t.next)
  {
    LexStep(s, i);
    TokenWord(s, i);
  }

  lemma {:induction false} LoopSame(s: string, i: nat, args: seq<Span>, redirs: seq<Redirection<Span>>)
    requires i <= |s| && NoNul(s) && ArgWords(s, args) && RedirWords(s, redirs)
    ensures Same(s, ExecLoop(s, i, args, redirs), TokLoop(Lex(s, i), Texts(s, args), RedirTexts(s, redirs)))
    decreases |s| - i
  {
    hide IsWord;
    hide TokenAt;
    hide Lex;
    hide Next;
    hide NoNul;
    hide Starts;
    hide Text;
    hide Wrap;
    hide WordsOf;
    hide ParseRedirs;
    hide TokRedirs;
    LexNext(s, i, "|)&;");
    StringsWrap(s, Exec(args), redirs);
    var toks := Lex(s, i);
    if toks == [] {
      LexEnd(s, i);
      NoStart("|)&;");
    } else if !Next(s, i, "|)&;") {
      LexStep(s, i);
      var tok := TokenAt(s, i);
      if tok.kind == 'a' && |args| + 1 < MAXARGS {
        LexWord(s, i);
        RedirsSame(s, tok.next);
        var found := ParseRedirs(s, tok.next);
        if found.Found? {
          TextsAppend(s, args, Span(tok.q, tok.eq));
          RedirTextsAppend(s, redirs, found.list);
          LoopSame(s, found.next, args + [Span(tok.q, tok.eq)], redirs + found.list);
        }
      }
    }
  }

  lemma NoStart(ops: string)
    ensures !Starts([], ops)
  {
  }

  lemma {:induction false} ExecSame(s: string, i: nat)
    requires i <= |s| && NoNul(s)
    ensures Same(s, ParseExec(s, i), TokExec(Lex(s, i)))
    decreases |s| - i, 1
  {
    hide IsWord;
    hide TokenAt;
    hide Lex;
    hide Next;
    hide NoNul;
    hide Starts;
    hide Text;
    hide Wrap;
    hide WordsOf;
    hide ParseRedirs;
    hide TokRedirs;
    hide ExecLoop;
    hide TokLoop;
    hide ParseLine;
    hide TokLine;
    LexNext(s, i, "(");
    if Next(s, i, "(") {
      LexAfter(s, i, "(");
      var n := TokenAt(s, i).next;
      LineSame(s, n);
      var r := ParseLine(s, n);
      if r.Ok? {
        LexNext(s, r.next, ")");
        if Next(s, r.next, ")") {
          LexAfter(s, r.next, ")");
          var m := TokenAt(s, r.next).next;
          RedirsSame(s, m);
          if ParseRedirs(s, m).Found? {
            StringsWrap(s, r.cmd, ParseRedirs(s, m).list);
          }
        }
      }
    } else {
      RedirsSame(s, i);
      var found := ParseRedirs(s, i);
      if found.Found? {
        LoopSame(s, found.next, [], found.list);
        assert Texts(s, []) == [];
      }
    }
  }

  lemma {:induction false} PipeSame(s: string, i: nat)
    requires i <= |s| && NoNul(s)
    ensures Same(s, ParsePipe(s, i), TokPipe(Lex(s, i)))
    decreases |s| - i, 2
  {
    hide IsWord;
    hide TokenAt;
    hide Lex;
    hide Next;
    hide NoNul;
    hide Starts;
    hide Texts;
    hide WordsOf;
    hide ParseExec;
    hide TokExec;
    ExecSame(s, i);
    var r := ParseExec(s, i);
    if r.Ok? {
      LexNext(s, r.next, "|");
      if Next(s, r.next, "|") {
        LexAfter(s, r.next, "|");
        PipeSame(s, TokenAt(s, r.next).next);
      }
    }
  }

  lemma {:induction false} BackSame(s: string, i: nat, c: Cmd<Span>)
    requires i <= |s| && WordsOf(s, c)
    ensures var r := BackLoop(s, i, c);
      r.1 <= |s| && TokBack(Lex(s, i), Strings(s, c)) == (Strings(s, r.0), Lex(s, r.1))
    decreases |s| - i
  {
    hide IsWord;
    hide TokenAt;
    hide Lex;
    hide Next;
    hide Starts;
    hide Texts;
    LexNext(s, i, "&");
    if Next(s, i, "&") {
      LexAfter(s, i, "&");
      BackSame(s, TokenAt(s, i).next, Back(c));
    }
  }

  lemma {:induction false} LineSame(s: string, i: nat)
    requires i <= |s| && NoNul(s)
    ensures Same(s, ParseLine(s, i), TokLine(Lex(s, i)))
    decreases |s| - i, 3
  {
    hide IsWord;
    hide TokenAt;
    hide Lex;
    hide Next;
    hide NoNul;
    hide Starts;
    hide Texts;
    hide WordsOf;
    hide ParsePipe;
    hide TokPipe;
    hide BackLoop;
    hide TokBack;
    PipeSame(s, i);
    var r := ParsePipe(s, i);
    if r.Ok? {
      BackSame(s, r.next, r.cmd);
      var (d, k) := BackLoop(s, r.next, r.cmd);
      LexNext(s, k, ";");
      if Next(s, k, ";") {
        LexAfter(s, k, ";");
        LineSame(s, TokenAt(s, k).next);
      }
    }
  }

  /** What parsecmd makes of a text is fixed by its tokens: all of them have to be one line. */
  lemma ParseTokens(s: string)
    requires NoNul(s)
    ensures match TokLine(Lex(s, 0))
      case TPanic => ParseCmd(s).Panic?
      case TOk(t, rest) =>
        if rest == [] then ParseCmd(s).Ok? && Strings(s, ParseCmd(s).cmd) == t else ParseCmd(s).Panic?
  {
    hide TokenAt;
    hide NoNul;
    hide WordsOf;
    hide ParseLine;
    hide TokLine;
    LineSame(s, 0);
  }
}
