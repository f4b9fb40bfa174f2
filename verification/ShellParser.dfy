/**
 * The shell's parser as it is written, with its cursor and its loops, proved
 * to compute the functions of Shell; and nulterminate, which ends every word
 * in place.
 */
module ShellParser {
  import opened Shell
  import opened ShellTokens
  import opened ShellSyntax
  import opened ShellGrammar

  lemma SkipTwice(s: string, i: nat, toks: string)
    requires i <= |s|
    ensures var j := SkipSpace(s, i);
      SkipSpace(s, j) == j && TokenAt(s, j) == TokenAt(s, i) && Next(s, j, toks) == Next(s, i, toks)
  {
  }

  /** peek: moves the cursor past white space. */
  method Peek(s: string, ps: nat, toks: string) returns (found: bool, ps': nat)
    requires ps <= |s|
    ensures ps' == SkipSpace(s, ps) && found == Next(s, ps, toks)
    ensures TokenAt(s, ps') == TokenAt(s, ps)
    ensures AllBlank(s[ps..ps']) && (ps' < |s| ==> s[ps'] !in Blanks)
  {
    ps' := ps;
    while ps' < |s| && IsSpace(s[ps'])
      invariant ps <= ps' <= |s| && SkipSpace(s, ps') == SkipSpace(s, ps)
    {
      ps' := ps' + 1;
    }
    SkipTwice(s, ps, toks);
    found := ps' < |s| && s[ps'] in toks;
    Skipped(s, ps);
    if ps' < |s| {
      Chars(s[ps']);
    }
  }

  /** gettoken */
  method GetToken(s: string, ps: nat) returns (kind: char, q: nat, eq: nat, ps': nat)
    requires ps <= |s|
    ensures Token(kind, q, eq, ps') == TokenAt(s, ps)
    ensures AllBlank(s[ps..q]) && AllBlank(s[eq..ps']) && (ps' < |s| ==> s[ps'] !in Blanks)
    ensures q == |s| ==> kind == '\0' && Lex(s, ps) == []
    ensures q < |s| ==> Lex(s, ps) == [TokOf(s, TokenAt(s, ps))] + Lex(s, ps')
    ensures NoNul(s) && q < |s| ==> LegalTok(TokOf(s, TokenAt(s, ps))) && Spelling(TokOf(s, TokenAt(s, ps))) == s[q..eq]
  {
    var c := ps;
    while c < |s| && IsSpace(s[c])
      invariant ps <= c <= |s| && SkipSpace(s, c) == SkipSpace(s, ps)
    {
      c := c + 1;
    }
    q := c;
    kind := CharAt(s, c);
    if c == |s| {
    } else if s[c] == '>' {
      c := c + 1;
      if CharAt(s, c) == '>' {
        kind := '+';
        c := c + 1;
      }
    } else if IsSymbol(s[c]) {
      c := c + 1;
    } else {
      kind := 'a';
      while c < |s| && !IsSpace(s[c]) && !IsSymbol(s[c])
        invariant q <= c <= |s| && WordEnd(s, c) == WordEnd(s, q)
      {
        c := c + 1;
      }
    }
    eq := c;
    while c < |s| && IsSpace(s[c])
      invariant eq <= c <= |s| && SkipSpace(s, c) == SkipSpace(s, eq)
    {
      c := c + 1;
    }
    ps' := c;
    TokenText(s, ps);
  }

  /** A token and the blanks around it, in the characters of the text. */
  lemma TokenText(s: string, i: nat)
    requires i <= |s|
    ensures var t := TokenAt(s, i);
      && AllBlank(s[i..t.q]) && AllBlank(s[t.eq..t.next]) && (t.next < |s| ==> s[t.next] !in Blanks)
      && (NoNul(s) && t.q < |s| ==> LegalTok(TokOf(s, t)) && Spelling(TokOf(s, t)) == s[t.q..t.eq])
  {
    var t := TokenAt(s, i);
    Skipped(s, i);
    Skipped(s, t.eq);
    if t.next < |s| {
      Chars(s[t.next]);
    }
    if NoNul(s) && t.q < |s| {
      FoundToken(s, i);
    }
  }

  /** parseredirs; the redirections are returned rather than wrapped around the command. */
  method ParseRedirections(s: string, i: nat) returns (r: Redirs)
    requires i <= |s| && NoNul(s)
    ensures r == ParseRedirs(s, i)
  {
    hide TokenAt;
    hide Next;
    hide IsWord;
    hide NoNul;
    var list: seq<Redirection<Span>> := [];
    var found, j := Peek(s, i, "<>");
    SkipTwice(s, i, "<>");
    RedirsSkip(s, i);
    while found
      invariant j <= |s| && found == Next(s, j, "<>") && SkipSpace(s, j) == j
      invariant Prefixed(list, ParseRedirs(s, j)) == ParseRedirs(s, i)
      decreases |s| - j
    {
      NextToken(s, j, "<>");
      var kind, q, eq, n := GetToken(s, j);
      var kind', q', eq', m := GetToken(s, n);
      if kind' != 'a' {
        return NoFile;
      }
      PrefixedMore(list, RedirectionOf(kind, Span(q', eq')), ParseRedirs(s, m));
      list := list + [RedirectionOf(kind, Span(q', eq'))];
      found, j := Peek(s, m, "<>");
      SkipTwice(s, m, "<>");
      RedirsSkip(s, m);
    }
    r := Found(list, j);
  }

  ghost function Prefixed(list: seq<Redirection<Span>>, r: Redirs): Redirs
  {
    match r
    case NoFile => NoFile
    case Found(more, next) => Found(list + more, next)
  }

  lemma PrefixedMore(list: seq<Redirection<Span>>, x: Redirection<Span>, r: Redirs)
    ensures Prefixed(list, Prefixed([x], r)) == Prefixed(list + [x], r)
  {
    if r.Found? {
      assert list + ([x] + r.list) == list + [x] + r.list;
    }
  }

  lemma NextToken(s: string, j: nat, toks: string)
    requires j <= |s| && Next(s, j, toks)
    ensures TokenAt(s, j).next > j
  {
  }

  lemma RedirsSkip(s: string, i: nat)
    requires i <= |s| && NoNul(s)
    ensures ParseRedirs(s, SkipSpace(s, i)) == ParseRedirs(s, i)
  {
    SkipTwice(s, i, "<>");
  }

  lemma LoopSkip(s: string, i: nat, args: seq<Span>, redirs: seq<Redirection<Span>>)
    requires i <= |s| && NoNul(s) && ArgWords(s, args) && RedirWords(s, redirs)
    ensures ExecLoop(s, SkipSpace(s, i), args, redirs) == ExecLoop(s, i, args, redirs)
  {
    SkipTwice(s, i, "|)&;");
    hide TokenAt;
    hide Next;
    hide IsWord;
    hide Wrap;
    hide NoNul;
  }

  /** What one round of the loop of parseexec comes to. */
  lemma LoopStep(s: string, j: nat, args: seq<Span>, redirs: seq<Redirection<Span>>)
    requires j <= |s| && NoNul(s) && ArgWords(s, args) && RedirWords(s, redirs) && !Next(s, j, "|)&;")
    ensures var t := TokenAt(s, j);
      if t.kind == '\0' then ExecLoop(s, j, args, redirs) == Ok(Wrap(Exec(args), redirs), t.next)
      else if t.kind != 'a' || |args| + 1 >= MAXARGS then ExecLoop(s, j, args, redirs) == Panic
      else ParseRedirs(s, t.next).NoFile? ==> ExecLoop(s, j, args, redirs) == Panic
    ensures var t := TokenAt(s, j);
      t.kind == 'a' && |args| + 1 < MAXARGS && ParseRedirs(s, t.next).Found? ==>
        && t.next > j
        && ArgWords(s, args + [Span(t.q, t.eq)]) && RedirWords(s, redirs + ParseRedirs(s, t.next).list)
        && ExecLoop(s, j, args, redirs)
           == ExecLoop(s, ParseRedirs(s, t.next).next, args + [Span(t.q, t.eq)], redirs + ParseRedirs(s, t.next).list)
  {
    if TokenAt(s, j).kind == 'a' {
      TokenWord(s, j);
      assert TokenAt(s, j).next > j;
    }
    hide TokenAt;
    hide Next;
    hide IsWord;
    hide Wrap;
    hide NoNul;
    hide ParseRedirs;
  }

  /** parseexec */
  method ParseSimple(s: string, i: nat) returns (r: Parsed)
    requires i <= |s| && NoNul(s)
    ensures r == ParseExec(s, i)
    decreases |s| - i, 2
  {
    hide TokenAt;
    hide Next;
    hide IsWord;
    hide NoNul;
    hide ExecLoop;
    hide Wrap;
    var block, j := Peek(s, i, "(");
    if block {
      r := ParseParens(s, i);
      return;
    }
    RedirsSkip(s, i);
    var first := ParseRedirections(s, j);
    if first.NoFile? {
      return Panic;
    }
    var args: seq<Span>, redirs := [], first.list;
    var stop;
    stop, j := Peek(s, first.next, "|)&;");
    LoopSkip(s, first.next, args, redirs);
    SkipTwice(s, first.next, "|)&;");
    while !stop
      invariant j <= |s| && stop == Next(s, j, "|)&;") && SkipSpace(s, j) == j
      invariant ArgWords(s, args) && RedirWords(s, redirs)
      invariant ExecLoop(s, j, args, redirs) == ParseExec(s, i)
      decreases |s| - j
    {
      LoopStep(s, j, args, redirs);
      var kind, q, eq, n := GetToken(s, j);
      if kind == '\0' {
        return Ok(Wrap(Exec(args), redirs), n);
      }
      if kind != 'a' {
        return Panic;
      }
      if |args| + 1 >= MAXARGS {
        return Panic;
      }
      args := args + [Span(q, eq)];
      var more := ParseRedirections(s, n);
      if more.NoFile? {
        return Panic;
      }
      redirs := redirs + more.list;
      stop, j := Peek(s, more.next, "|)&;");
      LoopSkip(s, more.next, args, redirs);
      SkipTwice(s, more.next, "|)&;");
    }
    LoopStop(s, j, args, redirs);
    r := Ok(Wrap(Exec(args), redirs), j);
  }

  lemma LoopStop(s: string, j: nat, args: seq<Span>, redirs: seq<Redirection<Span>>)
    requires j <= |s| && NoNul(s) && ArgWords(s, args) && RedirWords(s, redirs) && Next(s, j, "|)&;")
    requires SkipSpace(s, j) == j
    ensures ExecLoop(s, j, args, redirs) == Ok(Wrap(Exec(args), redirs), j)
  {
  }

  /** parseblock */
  method ParseParens(s: string, i: nat) returns (r: Parsed)
    requires i <= |s| && NoNul(s)
    ensures r == ParseBlock(s, i)
    decreases |s| - i, 1
  {
    hide TokenAt;
    hide Next;
    hide IsWord;
    hide NoNul;
    hide ParseLine;
    hide ParseRedirs;
    hide Wrap;
    var open, j := Peek(s, i, "(");
    if !open {
      return Panic;
    }
    NextToken(s, i, "(");
    var kind, q, eq, n := GetToken(s, j);
    r := ParseList(s, n);
    if r.Panic? {
      return;
    }
    var close, k := Peek(s, r.next, ")");
    if !close {
      return Panic;
    }
    kind, q, eq, n := GetToken(s, k);
    var redirs := ParseRedirections(s, n);
    if redirs.NoFile? {
      return Panic;
    }
    r := Ok(Wrap(r.cmd, redirs.list), redirs.next);
  }

  /** parsepipe */
  method ParsePipeline(s: string, i: nat) returns (r: Parsed)
    requires i <= |s| && NoNul(s)
    ensures r == ParsePipe(s, i)
    decreases |s| - i, 3
  {
    hide TokenAt;
    hide Next;
    hide IsWord;
    hide NoNul;
    hide ParseExec;
    r := ParseSimple(s, i);
    if r.Panic? {
      return;
    }
    var bar, j := Peek(s, r.next, "|");
    if !bar {
      return Ok(r.cmd, j);
    }
    NextToken(s, r.next, "|");
    var kind, q, eq, n := GetToken(s, j);
    var right := ParsePipeline(s, n);
    if right.Panic? {
      return Panic;
    }
    r := Ok(Pipe(r.cmd, right.cmd), right.next);
  }

  /** parseline */
  method ParseList(s: string, i: nat) returns (r: Parsed)
    requires i <= |s| && NoNul(s)
    ensures r == ParseLine(s, i)
    decreases |s| - i, 4
  {
    hide TokenAt;
    hide Next;
    hide IsWord;
    hide NoNul;
    hide ParsePipe;
    r := ParsePipeline(s, i);
    if r.Panic? {
      return;
    }
    var cmd := r.cmd;
    var amp, j := Peek(s, r.next, "&");
    SkipTwice(s, r.next, "&");
    BackSkip(s, r.next, cmd);
    while amp
      invariant j <= |s| && amp == Next(s, j, "&") && SkipSpace(s, j) == j && i <= j
      invariant WordsOf(s, cmd) && BackLoop(s, j, cmd) == BackLoop(s, r.next, r.cmd)
      decreases |s| - j
    {
      NextToken(s, j, "&");
      var kind, q, eq, n := GetToken(s, j);
      cmd := Back(cmd);
      amp, j := Peek(s, n, "&");
      SkipTwice(s, n, "&");
      BackSkip(s, n, cmd);
    }
    var semi, k := Peek(s, j, ";");
    if !semi {
      return Ok(cmd, k);
    }
    NextToken(s, j, ";");
    var kind, q, eq, n := GetToken(s, k);
    var rest := ParseList(s, n);
    if rest.Panic? {
      return Panic;
    }
    r := Ok(List(cmd, rest.cmd), rest.next);
  }

  lemma BackSkip(s: string, i: nat, c: Cmd<Span>)
    requires i <= |s| && WordsOf(s, c)
    ensures BackLoop(s, SkipSpace(s, i), c) == BackLoop(s, i, c)
  {
    SkipTwice(s, i, "&");
    hide TokenAt;
    hide Next;
    hide IsWord;
  }

  /** Position i is the end of a word of c. */
  ghost predicate IsEnd(c: Cmd<Span>, i: nat)
  {
    match c
    case Exec(args) => exists k :: 0 <= k < |args| && args[k].eq == i
    case Redir(d, file, _, _) => IsEnd(d, i) || file.eq == i
    case Pipe(l, r) => IsEnd(l, i) || IsEnd(r, i)
    case List(l, r) => IsEnd(l, i) || IsEnd(r, i)
    case Back(d) => IsEnd(d, i)
  }

  /** nulterminate */
  method NulTerminate(buf: array<char>, s: string, cmd: Cmd<Span>)
    requires WordsOf(s, cmd) && buf.Length == |s| + 1
    modifies buf
    ensures forall i: nat | i < buf.Length :: buf[i] == if IsEnd(cmd, i) then '\0' else old(buf[i])
  {
    hide IsWordChar;
    match cmd
    case Exec(args) =>
      var k := 0;
      while k < |args|
        invariant 0 <= k <= |args|
        invariant forall i: nat | i < buf.Length ::
          buf[i] == if exists m :: 0 <= m < k && args[m].eq == i then '\0' else old(buf[i])
      {
        buf[args[k].eq] := '\0';
        k := k + 1;
      }
    case Redir(d, file, _, _) =>
      NulTerminate(buf, s, d);
      buf[file.eq] := '\0';
    case Pipe(l, r) =>
      NulTerminate(buf, s, l);
      NulTerminate(buf, s, r);
    case List(l, r) =>
      NulTerminate(buf, s, l);
      NulTerminate(buf, s, r);
    case Back(d) =>
      NulTerminate(buf, s, d);
  }

  /** The C string that starts at q. */
  function CString(b: seq<char>, q: nat): (w: string)
    decreases |b| - q
  {
    if q < |b| && b[q] != '\0' then [b[q]] + CString(b, q + 1) else ""
  }

  function CStrings(b: seq<char>, args: seq<Span>): (ws: seq<string>)
    ensures |ws| == |args| && forall k | 0 <= k < |args| :: ws[k] == CString(b, args[k].q)
  {
    seq(|args|, k requires 0 <= k < |args| => CString(b, args[k].q))
  }

  /** The command as runcmd sees it: only the start of each word is used. */
  function InPlace(b: seq<char>, c: Cmd<Span>): (t: Cmd<string>)
  {
    match c
    case Exec(args) => Exec(CStrings(b, args))
    case Redir(d, file, mode, fd) => Redir(InPlace(b, d), CString(b, file.q), mode, fd)
    case Pipe(l, r) => Pipe(InPlace(b, l), InPlace(b, r))
    case List(l, r) => List(InPlace(b, l), InPlace(b, r))
    case Back(d) => Back(InPlace(b, d))
  }

  /** b is the input after nulterminate of the whole command. */
  ghost predicate Ended(s: string, b: seq<char>, whole: Cmd<Span>)
  {
    && |b| == |s| + 1
    && forall i: nat {:trigger b[i]} | i <= |s| :: b[i] == if IsEnd(whole, i) then '\0' else CharAt(s, i)
  }

  lemma {:induction false} EndsOutside(s: string, c: Cmd<Span>, i: nat)
    requires WordsOf(s, c) && IsEnd(c, i) && i < |s|
    ensures !IsWordChar(s[i])
  {
    hide IsWordChar;
    match c
    case Exec(args) =>
      var k :| 0 <= k < |args| && args[k].eq == i;
      assert IsWord(s, args[k].q, args[k].eq);
    case Redir(d, file, _, _) =>
      if IsEnd(d, i) { EndsOutside(s, d, i); }
    case Pipe(l, r) =>
      if IsEnd(l, i) { EndsOutside(s, l, i); } else { EndsOutside(s, r, i); }
    case List(l, r) =>
      if IsEnd(l, i) { EndsOutside(s, l, i); } else { EndsOutside(s, r, i); }
    case Back(d) => EndsOutside(s, d, i);
  }

  /** No character of a word is overwritten, and its end is. */
  lemma WordSurvives(s: string, b: seq<char>, whole: Cmd<Span>, w: Span)
    requires Ended(s, b, whole) && WordsOf(s, whole) && IsWord(s, w.q, w.eq) && IsEnd(whole, w.eq)
    ensures CString(b, w.q) == Text(s, w)
  {
    forall k | w.q <= k < w.eq
      ensures b[k] == s[k] != '\0'
    {
      assert IsWordChar(s[k]);
      if IsEnd(whole, k) {
        EndsOutside(s, whole, k);
      }
    }
    assert b[w.eq] == '\0';
    CStringIs(b, w.q, w.eq);
    assert b[w.q..w.eq] == s[w.q..w.eq];
  }

  lemma {:induction false} CStringIs(b: seq<char>, q: nat, eq: nat)
    requires q <= eq < |b| && b[eq] == '\0' && forall k | q <= k < eq :: b[k] != '\0'
    ensures CString(b, q) == b[q..eq]
    decreases eq - q
  {
    if q < eq {
      CStringIs(b, q + 1, eq);
    }
  }

  /** After nulterminate every word of the command is the C string at its start. */
  lemma {:induction false} WordsSurvive(s: string, b: seq<char>, whole: Cmd<Span>, c: Cmd<Span>)
    requires Ended(s, b, whole) && WordsOf(s, whole) && WordsOf(s, c)
    requires forall i: nat | IsEnd(c, i) :: IsEnd(whole, i)
    ensures InPlace(b, c) == Strings(s, c)
  {
    hide Ended;
    hide IsWord;
    hide CString;
    hide Text;
    match c
    case Exec(args) =>
      forall k | 0 <= k < |args|
        ensures CStrings(b, args)[k] == Texts(s, args)[k]
      {
        assert IsEnd(c, args[k].eq);
        WordSurvives(s, b, whole, args[k]);
      }
    case Redir(d, file, _, _) =>
      assert IsEnd(c, file.eq);
      WordSurvives(s, b, whole, file);
      WordsSurvive(s, b, whole, d);
    case Pipe(l, r) =>
      WordsSurvive(s, b, whole, l);
      WordsSurvive(s, b, whole, r);
    case List(l, r) =>
      WordsSurvive(s, b, whole, l);
      WordsSurvive(s, b, whole, r);
    case Back(d) =>
      WordsSurvive(s, b, whole, d);
  }

  /** parsecmd: the text is refused unless it writes a command down, and that command is the one left in place. */
  method ParseCommand(buf: array<char>) returns (panic: bool, cmd: Cmd<Span>)
    requires buf.Length > 0 && buf[buf.Length - 1] == '\0' && NoNul(buf[..buf.Length - 1])
    modifies buf
    ensures panic <==> ParseCmd(old(buf[..buf.Length - 1])).Panic?
    ensures panic ==> buf[..] == old(buf[..]) && Untyped(old(buf[..buf.Length - 1]))
    ensures !panic ==> ParseCmd(old(buf[..buf.Length - 1])).cmd == cmd
    ensures !panic ==> Typed(old(buf[..buf.Length - 1]), InPlace(buf[..], cmd))
  {
    hide WordsOf;
    hide ParseLine;
    hide NoNul;
    hide Typed;
    var s := buf[..buf.Length - 1];
    forall t
      ensures Typed(s, t) <==> ParseCmd(s).Ok? && Strings(s, ParseCmd(s).cmd) == t
    {
      ReadIffTyped(s, t);
    }
    cmd := Exec([]);
    var r := ParseList(s, 0);
    if r.Panic? {
      return true, cmd;
    }
    var found, j := Peek(s, r.next, "");
    if j != |s| {
      return true, cmd;
    }
    cmd := r.cmd;
    panic := false;
    NulTerminate(buf, s, cmd);
    assert Ended(s, buf[..], cmd);
    WordsSurvive(s, buf[..], cmd, cmd);
  }

  /** What the shell makes of a written command. */
  ghost function Reparsed(x: Writing, gaps: seq<string>): (c: Cmd<Span>)
    requires Legal(x, 3) && Separated(Toks(x), gaps)
  {
    WritingIsRead(x, gaps);
    ParseCmd(Spell(Toks(x), gaps)).cmd
  }

  /** A command written in any way, with any blanks, and given to the shell is what the shell runs. */
  lemma CommandRoundTrip(x: Writing, gaps: seq<string>, b: seq<char>)
    requires Legal(x, 3) && Separated(Toks(x), gaps) && Ended(Spell(Toks(x), gaps), b, Reparsed(x, gaps))
    ensures InPlace(b, Reparsed(x, gaps)) == Tree(x)
  {
    hide Ended;
    hide ParseCmd;
    hide WordsOf;
    WritingIsRead(x, gaps);
    WordsSurvive(Spell(Toks(x), gaps), b, Reparsed(x, gaps), Reparsed(x, gaps));
  }
}
