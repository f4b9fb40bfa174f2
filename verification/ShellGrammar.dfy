/**
 * The ways to write a command down: words and redirections in any order,
 * parentheses, pipes, background and lists.  The parser of user/sh.c accepts
 * exactly the texts that write a command down, and reads that command.
 */
module ShellGrammar {
  import opened Shell
  import opened ShellTokens
  import opened ShellSyntax

  /** One piece of a simple command. */
  datatype Item = Arg(w: string) | To(r: Redirection<string>)

  /** A command as it is written. */
  datatype Writing =
    | Simple(items: seq<Item>)
    | Block(inner: Writing, redirs: seq<Redirection<string>>)
    | Piped(left: Writing, right: Writing)
    | Amp(cmd: Writing)
    | Then(left: Writing, right: Writing)

  // ---- the tokens of a writing ----

  function Mark(r: Redirection<string>): (t: Tok)
  {
    Op(if r.fd == 0 then '<' else if r.mode == O_WRONLY_CREATE_TRUNC then '>' else '+')
  }

  predicate IsMark(c: char) { c == '<' || c == '>' || c == '+' }

  function RedirToks(rs: seq<Redirection<string>>): (toks: seq<Tok>)
  {
    if rs == [] then [] else [Mark(rs[0]), Word(rs[0].file)] + RedirToks(rs[1..])
  }

  function PieceToks(item: Item): (toks: seq<Tok>)
  {
    match item
    case Arg(w) => [Word(w)]
    case To(r) => [Mark(r), Word(r.file)]
  }

  function ItemToks(items: seq<Item>): (toks: seq<Tok>)
  {
    if items == [] then [] else PieceToks(items[0]) + ItemToks(items[1..])
  }

  function Toks(x: Writing): (toks: seq<Tok>)
  {
    match x
    case Simple(items) => ItemToks(items)
    case Block(y, rs) => [Op('(')] + Toks(y) + [Op(')')] + RedirToks(rs)
    case Piped(l, r) => Toks(l) + [Op('|')] + Toks(r)
    case Amp(y) => Toks(y) + [Op('&')]
    case Then(l, r) => Toks(l) + [Op(';')] + Toks(r)
  }

  // ---- the command of a writing ----

  function Args(items: seq<Item>): (ws: seq<string>)
  {
    if items == [] then [] else (if items[0].Arg? then [items[0].w] else []) + Args(items[1..])
  }

  function Redirections(items: seq<Item>): (rs: seq<Redirection<string>>)
  {
    if items == [] then [] else (if items[0].To? then [items[0].r] else []) + Redirections(items[1..])
  }

  function Tree(x: Writing): (t: Cmd<string>)
  {
    match x
    case Simple(items) => Wrap(Exec(Args(items)), Redirections(items))
    case Block(y, rs) => Wrap(Tree(y), rs)
    case Piped(l, r) => Pipe(Tree(l), Tree(r))
    case Amp(y) => Back(Tree(y))
    case Then(l, r) => List(Tree(l), Tree(r))
  }

  // ---- what may be written ----

  predicate LegalRedir(r: Redirection<string>)
  {
    && LegalWord(r.file)
    && ((r.mode == O_RDONLY && r.fd == 0) || (r.fd == 1 && r.mode in {O_WRONLY_CREATE, O_WRONLY_CREATE_TRUNC}))
  }

  predicate LegalRedirs(rs: seq<Redirection<string>>)
  {
    forall k | 0 <= k < |rs| :: LegalRedir(rs[k])
  }

  predicate LegalItems(items: seq<Item>)
  {
    forall k | 0 <= k < |items| :: if items[k].Arg? then LegalWord(items[k].w) else LegalRedir(items[k].r)
  }

  /** Parentheses stand where they must: level 0 is a simple command or a block, 1 a pipe, 2 with &, 3 a line. */
  predicate Legal(x: Writing, level: nat)
  {
    match x
    case Simple(items) => LegalItems(items) && |Args(items)| < MAXARGS
    case Block(y, rs) => Legal(y, 3) && LegalRedirs(rs)
    case Piped(l, r) => level >= 1 && Legal(l, 0) && Legal(r, 1)
    case Amp(y) => level >= 2 && Legal(y, 2)
    case Then(l, r) => level >= 3 && Legal(l, 2) && Legal(r, 3)
  }

  /** The tokens that follow cannot be part of the writing. */
  predicate Closed(x: Writing, rest: seq<Tok>)
  {
    rest == [] ||
    match x
    case Simple(_) => Starts(rest, "|)&;")
    case Block(_, _) => !Starts(rest, "<>")
    case Piped(_, r) => Closed(r, rest) && !Starts(rest, "|")
    case Amp(_) => !Starts(rest, "&")
    case Then(_, r) => Closed(r, rest)
  }

  /** The line as a whole cannot go on with these tokens. */
  predicate LineEnds(x: Writing, rest: seq<Tok>)
  {
    Closed(x, rest) && !Starts(rest, "|") && !Starts(rest, "&") && !Starts(rest, ";")
  }

  // ---- every writing is read ----

  lemma MarkOf(r: Redirection<string>)
    requires LegalRedir(r)
    ensures Mark(r).Op? && IsMark(Mark(r).c) && RedirectionOf(Mark(r).c, r.file) == r
    ensures forall rest: seq<Tok> :: Starts([Mark(r)] + rest, "<>")
  {
  }

  lemma OneRedir(r: Redirection<string>, rest: seq<Tok>)
    requires LegalRedir(r)
    ensures TokRedirs([Mark(r), Word(r.file)] + rest)
         == match TokRedirs(rest) case TNoFile => TNoFile case TFound(list, more) => TFound([r] + list, more)
  {
    hide LegalRedir;
    hide Mark;
    hide Starts;
    MarkOf(r);
    var toks := [Mark(r), Word(r.file)] + rest;
    assert toks == [Mark(r)] + ([Word(r.file)] + rest);
    assert toks[2..] == rest;
  }

  lemma NoRedirs(rest: seq<Tok>)
    requires !Starts(rest, "<>")
    ensures TokRedirs(rest) == TFound([], rest)
  {
  }

  lemma {:induction false} RedirsRead(rs: seq<Redirection<string>>, rest: seq<Tok>)
    requires LegalRedirs(rs) && !Starts(rest, "<>")
    ensures TokRedirs(RedirToks(rs) + rest) == TFound(rs, rest)
  {
    hide LegalRedir;
    hide Mark;
    hide Starts;
    hide TokRedirs;
    if rs == [] {
      NoRedirs(rest);
      assert RedirToks(rs) + rest == rest;
    } else {
      RedirsRead(rs[1..], rest);
      OneRedir(rs[0], RedirToks(rs[1..]) + rest);
      assert RedirToks(rs) + rest == [Mark(rs[0]), Word(rs[0].file)] + (RedirToks(rs[1..]) + rest);
    }
  }

  lemma OneWord(w: string, rest: seq<Tok>, args: seq<string>, redirs: seq<Redirection<string>>)
    requires |args| + 1 < MAXARGS
    ensures TokRedirs([Word(w)] + rest) == TFound([], [Word(w)] + rest)
    ensures var r := TokRedirs(rest);
      TokLoop([Word(w)] + rest, args, redirs)
      == if r.TFound? then TokLoop(r.rest, args + [w], redirs + r.list) else TPanic
  {
    assert ([Word(w)] + rest)[1..] == rest;
  }

  lemma Assoc<T>(a: seq<T>, b: seq<T>, c: seq<T>)
    ensures a + (b + c) == a + b + c
  {
  }

  /** Words and redirections in any order. */
  lemma {:induction false} ItemsRead(items: seq<Item>, args: seq<string>, redirs: seq<Redirection<string>>,
                                     rest: seq<Tok>)
    requires LegalItems(items) && |args| + |Args(items)| < MAXARGS && (rest == [] || Starts(rest, "|)&;"))
    ensures var r := TokRedirs(ItemToks(items) + rest);
      && r.TFound?
      && TokLoop(r.rest, args, redirs + r.list)
         == TOk(Wrap(Exec(args + Args(items)), redirs + Redirections(items)), rest)
    decreases |items|
  {
    hide LegalRedir;
    hide LegalWord;
    hide Mark;
    hide TokRedirs;
    hide Wrap;
    if items == [] {
      assert ItemToks(items) + rest == rest;
      NoRedirs(rest);
      assert redirs + [] == redirs && args + [] == args;
    } else {
      hide TokLoop;
      hide Starts;
      var more := ItemToks(items[1..]) + rest;
      match items[0]
      case To(x) =>
        Assoc([Mark(x), Word(x.file)], ItemToks(items[1..]), rest);
        OneRedir(x, more);
        ItemsRead(items[1..], args, redirs + [x], rest);
        Assoc(redirs, [x], TokRedirs(more).list);
        Assoc(redirs, [x], Redirections(items[1..]));
        assert Args(items) == Args(items[1..]);
      case Arg(w) =>
        Assoc([Word(w)], ItemToks(items[1..]), rest);
        OneWord(w, more, args, redirs);
        ItemsRead(items[1..], args + [w], redirs, rest);
        Assoc(args, [w], Args(items[1..]));
        assert redirs + [] == redirs;
        assert Redirections(items) == Redirections(items[1..]);
    }
  }

  /** A simple command or a block. */
  lemma {:induction false} ExecRead(x: Writing, rest: seq<Tok>)
    requires Legal(x, 0) && Closed(x, rest)
    ensures TokExec(Toks(x) + rest) == TOk(Tree(x), rest)
    decreases x, 0
  {
    hide TokRedirs;
    hide TokLoop;
    hide TokLine;
    hide Wrap;
    match x
    case Simple(items) =>
      ItemsRead(items, [], [], rest);
      NotParen(items, rest);
      var r := TokRedirs(Toks(x) + rest);
      assert [] + r.list == r.list && [] + Args(items) == Args(items);
      assert [] + Redirections(items) == Redirections(items);
    case Block(y, rs) =>
      var tail := RedirToks(rs) + rest;
      var inner := [Op(')')] + tail;
      assert Toks(x) + rest == [Op('(')] + (Toks(y) + inner);
      assert ([Op('(')] + (Toks(y) + inner))[1..] == Toks(y) + inner;
      CloseEnds(y, tail);
      LineRead(y, inner);
      assert inner[1..] == tail;
      RedirsRead(rs, rest);
  }

  lemma NotParen(items: seq<Item>, rest: seq<Tok>)
    requires rest == [] || Starts(rest, "|)&;")
    ensures !Starts(ItemToks(items) + rest, "(")
  {
    if items == [] {
      assert ItemToks(items) + rest == rest;
    }
  }

  lemma {:induction false} CloseEnds(y: Writing, tail: seq<Tok>)
    ensures LineEnds(y, [Op(')')] + tail)
  {
    if y.Piped? || y.Then? {
      CloseEnds(y.right, tail);
    }
  }

  lemma {:induction false} PipeRead(x: Writing, rest: seq<Tok>)
    requires Legal(x, 1) && Closed(x, rest) && !Starts(rest, "|")
    ensures TokPipe(Toks(x) + rest) == TOk(Tree(x), rest)
    decreases x, 1
  {
    hide TokExec;
    if x.Piped? {
      var more := [Op('|')] + (Toks(x.right) + rest);
      assert Toks(x) + rest == Toks(x.left) + more;
      BarCloses(x.left, Toks(x.right) + rest);
      ExecRead(x.left, more);
      assert more[1..] == Toks(x.right) + rest;
      PipeRead(x.right, rest);
    } else {
      ExecRead(x, rest);
    }
  }

  lemma BarCloses(y: Writing, rest: seq<Tok>)
    requires Legal(y, 0)
    ensures Closed(y, [Op('|')] + rest) && Starts([Op('|')] + rest, "|")
  {
  }

  /** After the pipe, the & signs. */
  lemma {:induction false} BackRead(x: Writing, rest: seq<Tok>)
    requires Legal(x, 2) && (x.Amp? || (Closed(x, rest) && !Starts(rest, "|")))
    ensures var r := TokPipe(Toks(x) + rest);
      r.TOk? && TokBack(r.rest, r.cmd) == TokBack(rest, Tree(x))
    decreases x, 2
  {
    hide TokPipe;
    if x.Amp? {
      var more := [Op('&')] + rest;
      assert Toks(x) + rest == Toks(x.cmd) + more;
      if !x.cmd.Amp? {
        AmpCloses(x.cmd, rest);
      }
      BackRead(x.cmd, more);
      assert more[1..] == rest;
    } else {
      PipeRead(x, rest);
    }
  }

  lemma AmpCloses(y: Writing, rest: seq<Tok>)
    requires Legal(y, 2) && !y.Amp?
    ensures Closed(y, [Op('&')] + rest) && !Starts([Op('&')] + rest, "|")
  {
    if y.Piped? {
      AmpCloses(y.right, rest);
    }
  }

  lemma {:induction false} LineRead(x: Writing, rest: seq<Tok>)
    requires Legal(x, 3) && LineEnds(x, rest)
    ensures TokLine(Toks(x) + rest) == TOk(Tree(x), rest)
    decreases x, 3
  {
    hide TokPipe;
    if x.Then? {
      var tail := Toks(x.right) + rest;
      var more := [Op(';')] + tail;
      assert Toks(x) + rest == Toks(x.left) + more;
      if !x.left.Amp? {
        SemiCloses(x.left, tail);
      }
      BackRead(x.left, more);
      assert more[1..] == tail;
      LineRead(x.right, rest);
    } else {
      BackRead(x, rest);
    }
  }

  lemma SemiCloses(y: Writing, rest: seq<Tok>)
    requires Legal(y, 2) && !y.Amp?
    ensures Closed(y, [Op(';')] + rest) && !Starts([Op(';')] + rest, "|")
  {
    if y.Piped? {
      SemiCloses(y.right, rest);
    }
  }

  // ---- whatever is read was written ----

  lemma OpOf(c: char, file: string)
    requires IsMark(c) && LegalWord(file)
    ensures LegalRedir(RedirectionOf(c, file)) && Mark(RedirectionOf(c, file)) == Op(c)
    ensures RedirectionOf(c, file).file == file
  {
  }

  lemma RedirTaken(toks: seq<Tok>)
    requires LegalToks(toks) && TokRedirs(toks).TFound? && Starts(toks, "<>")
    ensures |toks| >= 2 && toks[0].Op? && IsMark(toks[0].c) && toks[1].Word? && LegalWord(toks[1].w)
    ensures var r := TokRedirs(toks[2..]);
      r.TFound? && TokRedirs(toks) == TFound([RedirectionOf(toks[0].c, toks[1].w)] + r.list, r.rest)
    ensures LegalToks(toks[2..]) && toks == [toks[0], toks[1]] + toks[2..]
  {
    RedirMark(toks);
    hide LegalWord;
    hide RedirectionOf;
    hide Starts;
    hide IsMark;
    assert LegalTok(toks[1]);
    Pair(toks);
  }

  lemma Pair(toks: seq<Tok>)
    requires |toks| >= 2
    ensures toks == [toks[0], toks[1]] + toks[2..]
  {
  }

  lemma RedirMark(toks: seq<Tok>)
    requires Starts(toks, "<>")
    ensures IsMark(toks[0].c)
  {
  }

  lemma RedirToksCons(x: Redirection<string>, rs: seq<Redirection<string>>)
    ensures RedirToks([x] + rs) == [Mark(x), Word(x.file)] + RedirToks(rs)
  {
    assert ([x] + rs)[1..] == rs;
  }

  lemma {:induction false} RedirsWritten(toks: seq<Tok>)
    requires LegalToks(toks) && TokRedirs(toks).TFound?
    ensures var r := TokRedirs(toks);
      toks == RedirToks(r.list) + r.rest && LegalRedirs(r.list) && LegalToks(r.rest)
    decreases |toks|
  {
    if !Starts(toks, "<>") {
      NoRedirs(toks);
    } else {
      hide LegalRedir;
      hide LegalToks;
      hide RedirToks;
      hide TokRedirs;
      hide Starts;
      hide Mark;
      RedirTaken(toks);
      RedirsWritten(toks[2..]);
      OpOf(toks[0].c, toks[1].w);
      var r := TokRedirs(toks[2..]);
      RedirToksCons(RedirectionOf(toks[0].c, toks[1].w), r.list);
      Assoc([toks[0], toks[1]], RedirToks(r.list), r.rest);
    }
  }

  /** Redirections as pieces of a simple command. */
  function Tos(rs: seq<Redirection<string>>): (items: seq<Item>)
  {
    if rs == [] then [] else [To(rs[0])] + Tos(rs[1..])
  }

  lemma {:induction false} TosAre(rs: seq<Redirection<string>>)
    ensures ItemToks(Tos(rs)) == RedirToks(rs) && Args(Tos(rs)) == [] && Redirections(Tos(rs)) == rs
    ensures LegalRedirs(rs) ==> LegalItems(Tos(rs))
  {
    hide LegalRedir;
    hide LegalWord;
    hide Mark;
    if rs != [] {
      TosAre(rs[1..]);
      assert Tos(rs)[1..] == Tos(rs[1..]);
    }
  }

  lemma {:induction false} ItemsJoin(a: seq<Item>, b: seq<Item>)
    ensures ItemToks(a + b) == ItemToks(a) + ItemToks(b)
    ensures Args(a + b) == Args(a) + Args(b)
    ensures Redirections(a + b) == Redirections(a) + Redirections(b)
  {
    if a == [] {
      assert a + b == b;
    } else {
      hide PieceToks;
      assert (a + b)[1..] == a[1..] + b;
      ItemsJoin(a[1..], b);
      Assoc(PieceToks(a[0]), ItemToks(a[1..]), ItemToks(b));
      Assoc(if a[0].Arg? then [a[0].w] else [], Args(a[1..]), Args(b));
      Assoc(if a[0].To? then [a[0].r] else [], Redirections(a[1..]), Redirections(b));
    }
  }

  lemma ItemsLegal(a: seq<Item>, b: seq<Item>)
    requires LegalItems(a) && LegalItems(b)
    ensures LegalItems(a + b)
  {
  }

  lemma OneArg(w: string, rs: seq<Redirection<string>>, more: seq<Item>) returns (items: seq<Item>)
    requires LegalWord(w) && LegalRedirs(rs) && LegalItems(more)
    ensures LegalItems(items) && ItemToks(items) == [Word(w)] + (RedirToks(rs) + ItemToks(more))
    ensures Args(items) == [w] + Args(more) && Redirections(items) == rs + Redirections(more)
  {
    hide LegalRedir;
    hide LegalWord;
    hide Mark;
    TosAre(rs);
    ItemsJoin(Tos(rs), more);
    items := [Arg(w)] + (Tos(rs) + more);
    assert items[1..] == Tos(rs) + more;
  }

  lemma LoopJoin(toks: seq<Tok>, redirs: seq<Tok>, more: seq<Tok>, items: seq<Tok>, rest: seq<Tok>)
    requires toks != [] && toks[1..] == redirs + more && more == items + rest
    ensures toks == [toks[0]] + (redirs + items) + rest
  {
    assert toks == [toks[0]] + (redirs + (items + rest));
  }

  lemma {:induction false} LoopWritten(toks: seq<Tok>, args: seq<string>, redirs: seq<Redirection<string>>)
    returns (items: seq<Item>)
    requires LegalToks(toks) && |args| < MAXARGS && TokLoop(toks, args, redirs).TOk?
    ensures var r := TokLoop(toks, args, redirs);
      && LegalItems(items) && |args| + |Args(items)| < MAXARGS && LegalToks(r.rest)
      && toks == ItemToks(items) + r.rest
      && r.cmd == Wrap(Exec(args + Args(items)), redirs + Redirections(items))
    decreases |toks|
  {
    hide LegalRedir;
    hide LegalWord;
    hide Mark;
    hide Wrap;
    hide TokRedirs;
    if toks == [] || Starts(toks, "|)&;") {
      items := [];
      assert redirs + [] == redirs && args + [] == args;
    } else {
      hide RedirToks;
      hide ItemToks;
      hide Args;
      hide Redirections;
      hide Starts;
      var w := toks[0].w;
      assert LegalTok(toks[0]) && LegalToks(toks[1..]);
      hide LegalToks;
      hide LegalItems;
      hide LegalRedirs;
      RedirsWritten(toks[1..]);
      var f := TokRedirs(toks[1..]);
      var more := LoopWritten(f.rest, args + [w], redirs + f.list);
      var rest := TokLoop(toks, args, redirs).rest;
      items := OneArg(w, f.list, more);
      LoopJoin(toks, RedirToks(f.list), f.rest, ItemToks(more), rest);
      Assoc(args, [w], Args(more));
      Assoc(redirs, f.list, Redirections(more));
    }
  }

  /** What a reading of the tokens comes to: a writing, and the tokens after it. */
  ghost predicate Written(toks: seq<Tok>, r: TParsed, x: Writing, level: nat)
  {
    r.TOk? && Legal(x, level) && toks == Toks(x) + r.rest && r.cmd == Tree(x) && LegalToks(r.rest)
  }

  lemma SimpleWritten(toks: seq<Tok>) returns (x: Writing)
    requires LegalToks(toks) && TokExec(toks).TOk? && !Starts(toks, "(")
    ensures Written(toks, TokExec(toks), x, 0)
  {
    hide LegalItems;
    hide LegalToks;
    hide LegalRedirs;
    hide RedirToks;
    hide ItemToks;
    hide TokLoop;
    hide TokRedirs;
    hide Starts;
    hide Wrap;
    hide Args;
    hide Redirections;
    RedirsWritten(toks);
    var f := TokRedirs(toks);
    var items := LoopWritten(f.rest, [], f.list);
    TosAre(f.list);
    ItemsJoin(Tos(f.list), items);
    ItemsLegal(Tos(f.list), items);
    x := Simple(Tos(f.list) + items);
    Assoc(RedirToks(f.list), ItemToks(items), TokExec(toks).rest);
    assert [] + Args(items) == Args(items);
  }

  lemma {:induction false} ExecWritten(toks: seq<Tok>) returns (x: Writing)
    requires LegalToks(toks) && TokExec(toks).TOk?
    ensures Written(toks, TokExec(toks), x, 0)
    decreases |toks|, 0
  {
    if Starts(toks, "(") {
      hide LegalRedir;
      hide LegalTok;
      hide RedirToks;
      hide TokRedirs;
      hide TokLine;
      hide Wrap;
      var y := LineWritten(toks[1..]);
      var r := TokLine(toks[1..]);
      RedirsWritten(r.rest[1..]);
      var f := TokRedirs(r.rest[1..]);
      x := Block(y, f.list);
      BlockToks(toks, Toks(y), r.rest, RedirToks(f.list), f.rest);
    } else {
      x := SimpleWritten(toks);
    }
  }

  lemma BlockToks(toks: seq<Tok>, inner: seq<Tok>, rest: seq<Tok>, redirs: seq<Tok>, more: seq<Tok>)
    requires toks != [] && rest != [] && toks[1..] == inner + rest && rest[1..] == redirs + more
    ensures toks == [toks[0]] + inner + [rest[0]] + redirs + more
  {
    assert toks == [toks[0]] + (inner + ([rest[0]] + (redirs + more)));
  }

  lemma {:induction false} PipeWritten(toks: seq<Tok>) returns (x: Writing)
    requires LegalToks(toks) && TokPipe(toks).TOk?
    ensures Written(toks, TokPipe(toks), x, 1)
    decreases |toks|, 1
  {
    hide TokExec;
    hide LegalTok;
    x := ExecWritten(toks);
    var r := TokExec(toks);
    if Starts(r.rest, "|") {
      var y := PipeWritten(r.rest[1..]);
      JoinToks(toks, Toks(x), r.rest, Toks(y), TokPipe(toks).rest);
      x := Piped(x, y);
    }
  }

  lemma JoinToks(toks: seq<Tok>, left: seq<Tok>, rest: seq<Tok>, right: seq<Tok>, more: seq<Tok>)
    requires rest != [] && toks == left + rest && rest[1..] == right + more
    ensures toks == left + [rest[0]] + right + more
  {
    assert toks == left + ([rest[0]] + (right + more));
  }

  lemma AmpLegal(y: Writing)
    ensures Legal(y, 2) ==> Legal(Amp(y), 2)
  {
  }

  lemma {:induction false} BackWritten(toks: seq<Tok>, y: Writing) returns (x: Writing)
    requires LegalToks(toks) && Legal(y, 2)
    ensures var r := TokBack(toks, Tree(y));
      Legal(x, 2) && r.0 == Tree(x) && Toks(y) + toks == Toks(x) + r.1 && LegalToks(r.1)
    decreases |toks|
  {
    hide LegalTok;
    x := y;
    if Starts(toks, "&") {
      hide Legal;
      AmpLegal(y);
      x := BackWritten(toks[1..], Amp(y));
      assert toks == [Op('&')] + toks[1..];
      Assoc(Toks(y), [Op('&')], toks[1..]);
    }
  }

  lemma {:induction false} LineWritten(toks: seq<Tok>) returns (x: Writing)
    requires LegalToks(toks) && TokLine(toks).TOk?
    ensures Written(toks, TokLine(toks), x, 3)
    decreases |toks|, 3
  {
    hide TokPipe;
    hide TokBack;
    hide LegalTok;
    x := PipeWritten(toks);
    var r := TokPipe(toks);
    x := BackWritten(r.rest, x);
    var b := TokBack(r.rest, r.cmd);
    if Starts(b.1, ";") {
      var y := LineWritten(b.1[1..]);
      JoinToks(toks, Toks(x), b.1, Toks(y), TokLine(toks).rest);
      x := Then(x, y);
    }
  }

  // ---- every command can be written ----

  predicate LegalTree(t: Cmd<string>)
  {
    match t
    case Exec(args) => |args| < MAXARGS && forall k | 0 <= k < |args| :: LegalWord(args[k])
    case Redir(d, file, mode, fd) => LegalTree(d) && LegalRedir(Redirection(file, mode, fd))
    case Pipe(l, r) => LegalTree(l) && LegalTree(r)
    case List(l, r) => LegalTree(l) && LegalTree(r)
    case Back(d) => LegalTree(d)
  }

  /** The command inside all redirections. */
  function Base(t: Cmd<string>): (b: Cmd<string>)
    ensures !b.Redir? && (t.Redir? ==> b < t) && (!t.Redir? ==> b == t)
    ensures LegalTree(t) ==> LegalTree(b)
  {
    match t
    case Redir(d, _, _, _) => Base(d)
    case _ => t
  }

  /** The redirections around it, the innermost first. */
  function Layers(t: Cmd<string>): (rs: seq<Redirection<string>>)
    ensures Wrap(Base(t), rs) == t
    ensures LegalTree(t) ==> LegalRedirs(rs)
  {
    match t
    case Redir(d, file, mode, fd) =>
      var rs := Layers(d) + [Redirection(file, mode, fd)];
      assert rs[..|rs| - 1] == Layers(d);
      rs
    case _ => []
  }

  function Words(args: seq<string>): (items: seq<Item>)
    ensures Args(items) == args && Redirections(items) == []
    ensures (forall k | 0 <= k < |args| :: LegalWord(args[k])) ==> LegalItems(items)
  {
    if args == [] then []
    else
      var items := [Arg(args[0])] + Words(args[1..]);
      assert items[1..] == Words(args[1..]);
      items
  }

  lemma SimpleWriting(args: seq<string>, rs: seq<Redirection<string>>)
    requires |args| < MAXARGS && (forall k | 0 <= k < |args| :: LegalWord(args[k])) && LegalRedirs(rs)
    ensures var x := Simple(Words(args) + Tos(rs)); Legal(x, 0) && Tree(x) == Wrap(Exec(args), rs)
  {
    hide LegalItems;
    hide LegalWord;
    hide LegalRedirs;
    hide Wrap;
    hide Args;
    hide Redirections;
    TosAre(rs);
    ItemsJoin(Words(args), Tos(rs));
    ItemsLegal(Words(args), Tos(rs));
    assert args + [] == args && [] + rs == rs;
  }

  function WriteExec(t: Cmd<string>): (x: Writing)
    requires LegalTree(t)
    ensures Legal(x, 0) && Tree(x) == t
    decreases t, if t.Exec? || t.Redir? then 0 else 4
  {
    var b := Base(t);
    if b.Exec? then SimpleWriting(b.args, Layers(t)); Simple(Words(b.args) + Tos(Layers(t)))
    else Block(WriteLine(b), Layers(t))
  }

  function WritePipe(t: Cmd<string>): (x: Writing)
    requires LegalTree(t)
    ensures Legal(x, 1) && Tree(x) == t
    decreases t, if t.Pipe? || t.Exec? || t.Redir? then 1 else 5
  {
    if t.Pipe? then Piped(WriteExec(t.left), WritePipe(t.right)) else WriteExec(t)
  }

  function WriteBack(t: Cmd<string>): (x: Writing)
    requires LegalTree(t)
    ensures Legal(x, 2) && Tree(x) == t
    decreases t, if t.List? then 6 else 2
  {
    if t.Back? then Amp(WriteBack(t.cmd)) else WritePipe(t)
  }

  /** Every legal command can be written. */
  function WriteLine(t: Cmd<string>): (x: Writing)
    requires LegalTree(t)
    ensures Legal(x, 3) && Tree(x) == t
    decreases t, 3
  {
    if t.List? then Then(WriteBack(t.left), WriteLine(t.right)) else WriteBack(t)
  }

  // ---- texts and commands ----

  lemma {:induction false} LegalRedirToks(rs: seq<Redirection<string>>)
    requires LegalRedirs(rs)
    ensures LegalToks(RedirToks(rs))
  {
    if rs != [] {
      LegalRedirToks(rs[1..]);
      LegalMark(rs[0]);
    }
  }

  lemma LegalMark(r: Redirection<string>)
    requires LegalRedir(r)
    ensures LegalTok(Mark(r)) && LegalTok(Word(r.file))
  {
    assert Symbols[0] == '<' && Symbols[2] == '>';
  }

  lemma {:induction false} LegalItemToks(items: seq<Item>)
    requires LegalItems(items)
    ensures LegalToks(ItemToks(items))
  {
    hide LegalWord;
    hide LegalRedir;
    hide Mark;
    if items != [] {
      LegalItemToks(items[1..]);
      match items[0]
      case Arg(w) => assert LegalTok(Word(w));
      case To(r) => LegalMark(r);
    }
  }

  lemma {:induction false} LegalWriting(x: Writing, level: nat)
    requires Legal(x, level)
    ensures LegalToks(Toks(x))
  {
    assert Symbols[1] == '|' && Symbols[3] == '&' && Symbols[4] == ';' && Symbols[5] == '(' && Symbols[6] == ')';
    match x
    case Simple(items) => LegalItemToks(items);
    case Block(y, rs) => LegalWriting(y, 3); LegalRedirToks(rs);
    case Piped(l, r) => LegalWriting(l, 0); LegalWriting(r, 1);
    case Amp(y) => LegalWriting(y, 2);
    case Then(l, r) => LegalWriting(l, 2); LegalWriting(r, 3);
  }

  lemma {:induction false} SpelledClean(toks: seq<Tok>, gaps: seq<string>)
    requires LegalToks(toks) && Separated(toks, gaps)
    ensures NoNul(Spell(toks, gaps))
    decreases |toks|
  {
    assert '\0' !in Blanks;
    assert AllBlank(gaps[0]);
    if toks != [] {
      AfterFirst(toks, gaps);
      SpelledClean(toks[1..], gaps[1..]);
      assert LegalTok(toks[0]);
      assert '\0' !in Symbols;
    }
  }

  /** Whatever blanks are set between its tokens, a written command is the one the shell reads. */
  lemma WritingIsRead(x: Writing, gaps: seq<string>)
    requires Legal(x, 3) && Separated(Toks(x), gaps)
    ensures var s := Spell(Toks(x), gaps);
      NoNul(s) && ParseCmd(s).Ok? && Strings(s, ParseCmd(s).cmd) == Tree(x)
  {
    hide Legal;
    hide TokLine;
    hide ParseCmd;
    hide Separated;
    hide Spell;
    hide LegalToks;
    SpelledSize(Toks(x), gaps);
    var s := Spell(Toks(x), gaps);
    LegalWriting(x, 3);
    SpelledClean(Toks(x), gaps);
    assert s[0..] == s;
    SpelledTokens(s, 0, Toks(x), gaps);
    NothingLeft(x);
    LineRead(x, []);
    assert Toks(x) + [] == Toks(x);
    ParseTokens(s);
  }

  lemma NothingLeft(x: Writing)
    ensures LineEnds(x, [])
  {
  }

  /** Whatever the shell reads was written in one of these ways. */
  lemma OnlyWritingsAreRead(s: string) returns (x: Writing, gaps: seq<string>)
    requires NoNul(s) && ParseCmd(s).Ok?
    ensures Legal(x, 3) && Separated(Toks(x), gaps) && s == Spell(Toks(x), gaps)
    ensures Strings(s, ParseCmd(s).cmd) == Tree(x)
  {
    hide Legal;
    hide TokLine;
    hide ParseCmd;
    hide Separated;
    hide Spell;
    hide NoNul;
    gaps := TextIsSpelled(s, 0);
    ParseTokens(s);
    x := LineWritten(Lex(s, 0));
    assert Toks(x) + [] == Toks(x);
    assert s[0..] == s;
  }

  /** The text writes the command down, with some blanks between the tokens. */
  ghost predicate Typed(s: string, t: Cmd<string>)
  {
    exists x: Writing, gaps: seq<string> ::
      Legal(x, 3) && Tree(x) == t && Separated(Toks(x), gaps) && s == Spell(Toks(x), gaps)
  }

  ghost predicate Untyped(s: string)
  {
    forall t :: !Typed(s, t)
  }

  /** The shell reads the text as this command if and only if the text writes it down. */
  lemma ReadIffTyped(s: string, t: Cmd<string>)
    requires NoNul(s)
    ensures Typed(s, t) <==> ParseCmd(s).Ok? && Strings(s, ParseCmd(s).cmd) == t
  {
    hide Legal;
    hide ParseCmd;
    hide Spell;
    hide NoNul;
    if Typed(s, t) {
      var x: Writing, gaps: seq<string> :|
        Legal(x, 3) && Tree(x) == t && Separated(Toks(x), gaps) && s == Spell(Toks(x), gaps);
      WritingIsRead(x, gaps);
    }
    if ParseCmd(s).Ok? && Strings(s, ParseCmd(s).cmd) == t {
      var x, gaps := OnlyWritingsAreRead(s);
    }
  }

  /** A complete line with more after it is refused. */
  lemma LeftoverPanics(x: Writing, more: seq<Tok>, gaps: seq<string>)
    requires Legal(x, 3) && more != [] && LegalToks(more) && LineEnds(x, more) && Separated(Toks(x) + more, gaps)
    ensures var s := Spell(Toks(x) + more, gaps); NoNul(s) && ParseCmd(s).Panic?
  {
    hide Legal;
    hide TokLine;
    hide ParseCmd;
    hide Separated;
    hide Spell;
    SpelledSize(Toks(x) + more, gaps);
    var s := Spell(Toks(x) + more, gaps);
    LegalWriting(x, 3);
    SpelledClean(Toks(x) + more, gaps);
    assert s[0..] == s;
    SpelledTokens(s, 0, Toks(x) + more, gaps);
    LineRead(x, more);
    ParseTokens(s);
  }

  /** After & only another &, a ; or a ) may come. */
  lemma WordAfterAmpPanics(y: Writing, w: string, more: seq<Tok>, gaps: seq<string>)
    requires Legal(y, 2) && LegalWord(w) && LegalToks(more)
    requires Separated(Toks(Amp(y)) + ([Word(w)] + more), gaps)
    ensures var s := Spell(Toks(Amp(y)) + ([Word(w)] + more), gaps); NoNul(s) && ParseCmd(s).Panic?
  {
    LeftoverPanics(Amp(y), [Word(w)] + more, gaps);
  }

  /** No text can be read in two ways. */
  lemma Unambiguous(x: Writing, y: Writing)
    requires Legal(x, 3) && Legal(y, 3) && Toks(x) == Toks(y)
    ensures Tree(x) == Tree(y)
  {
    NothingLeft(x);
    NothingLeft(y);
    LineRead(x, []);
    LineRead(y, []);
  }

  /** Every legal command, written with the parentheses it needs and any blanks, is read back. */
  lemma RoundTrip(t: Cmd<string>, gaps: seq<string>)
    requires LegalTree(t) && Separated(Toks(WriteLine(t)), gaps)
    ensures var s := Spell(Toks(WriteLine(t)), gaps);
      NoNul(s) && ParseCmd(s).Ok? && Strings(s, ParseCmd(s).cmd) == t
  {
    WritingIsRead(WriteLine(t), gaps);
  }

  lemma SpellThree(a: Tok, b: Tok, c: Tok, g: string, h: string, i: string, j: string)
    ensures Spell([a, b, c], [g, h, i, j])
         == g + Spelling(a) + (h + Spelling(b) + (i + Spelling(c) + j))
  {
    hide Spelling;
    assert [c][1..] == [] && [i, j][1..] == [j];
    assert Spell([c], [i, j]) == i + Spelling(c) + j;
    assert [b, c][1..] == [c] && [h, i, j][1..] == [i, j];
    assert Spell([b, c], [h, i, j]) == h + Spelling(b) + (i + Spelling(c) + j);
    assert [a, b, c][1..] == [b, c] && [g, h, i, j][1..] == [h, i, j];
  }

  lemma OneWordWriting(w: string)
    requires LegalWord(w)
    ensures var y := Simple([Arg(w)]); Legal(y, 2) && Toks(y) == [Word(w)]
  {
    hide LegalWord;
    assert [Arg(w)][1..] == [];
    assert Args([Arg(w)]) == [w] + Args([]);
    assert ItemToks([Arg(w)]) == [Word(w)] + ItemToks([]);
  }

  /** For one, the line "a & b". */
  lemma AmpThenWord()
    ensures var s := "a & b\n"; NoNul(s) && ParseCmd(s).Panic?
  {
    hide ParseCmd;
    hide Legal;
    hide LegalTok;
    hide Spell;
    var y := Simple([Arg("a")]);
    var toks := [Word("a"), Op('&'), Word("b")];
    var gaps := ["", " ", " ", "\n"];
    assert LegalWord("a") && LegalWord("b");
    OneWordWriting("a");
    assert Toks(Amp(y)) + ([Word("b")] + []) == toks;
    assert Separated(toks, gaps) by {
      assert Blanks[0] == ' ' && Blanks[3] == '\n';
    }
    SpellThree(toks[0], toks[1], toks[2], "", " ", " ", "\n");
    assert Spell(toks, gaps) == "a & b\n";
    WordAfterAmpPanics(y, "b", [], gaps);
  }
}
