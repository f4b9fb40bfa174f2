/**
 * The ways to set tokens down as text, with any blanks between them, and the
 * proof that the tokens the shell finds in a text are the ones it spells
 * (user/sh.c).
 */
module ShellSyntax {
  import opened Shell
  import opened ShellTokens

  // ---- texts ----

  const Blanks: string := " \t\r\n\U{0B}"
  const Symbols: string := "<|>&;()"

  predicate AllBlank(g: string)
  {
    forall k | 0 <= k < |g| :: g[k] in Blanks
  }

  predicate LegalChar(c: char)
  {
    c !in Blanks && c !in Symbols && c != '\0'
  }

  predicate LegalWord(w: string)
  {
    w != "" && forall k | 0 <= k < |w| :: LegalChar(w[k])
  }

  predicate LegalTok(t: Tok)
  {
    match t
    case Word(w) => LegalWord(w)
    case Op(c) => c in Symbols || c == '+'
  }

  predicate LegalToks(toks: seq<Tok>)
  {
    forall k | 0 <= k < |toks| :: LegalTok(toks[k])
  }

  function Spelling(t: Tok): (w: string)
  {
    match t
    case Word(w) => w
    case Op(c) => if c == '+' then ">>" else [c]
  }

  /** Tokens t and u need nothing between them. */
  predicate MayTouch(t: Tok, u: Tok)
  {
    !(t.Word? && u.Word?) && !(t == Op('>') && (u == Op('>') || u == Op('+')))
  }

  /** gaps[k] stands before token k, and the last one at the end. */
  ghost predicate Separated(toks: seq<Tok>, gaps: seq<string>)
  {
    && |gaps| == |toks| + 1
    && (forall k | 0 <= k < |gaps| :: AllBlank(gaps[k]))
    && (forall k | 0 < k < |toks| :: gaps[k] == "" ==> MayTouch(toks[k - 1], toks[k]))
  }

  function Spell(toks: seq<Tok>, gaps: seq<string>): (s: string)
    requires |gaps| == |toks| + 1
  {
    if toks == [] then gaps[0] else gaps[0] + Spelling(toks[0]) + Spell(toks[1..], gaps[1..])
  }

  lemma Chars(c: char)
    ensures IsSpace(c) <==> c in Blanks
    ensures IsSymbol(c) <==> c in Symbols
    ensures IsWordChar(c) <==> LegalChar(c)
  {
    assert Blanks[0] == ' ' && Blanks[1] == '\t' && Blanks[2] == '\r' && Blanks[3] == '\n' && Blanks[4] == '\U{0B}';
    assert Symbols[0] == '<' && Symbols[1] == '|' && Symbols[2] == '>' && Symbols[3] == '&' && Symbols[4] == ';';
    assert Symbols[5] == '(' && Symbols[6] == ')';
  }

  lemma {:induction false} SkipGap(s: string, i: nat, j: nat)
    requires i <= j <= |s| && AllBlank(s[i..j]) && (j < |s| ==> s[j] !in Blanks)
    ensures SkipSpace(s, i) == j
    decreases j - i
  {
    if i < j {
      assert s[i..j][0] == s[i];
      Chars(s[i]);
      assert s[i + 1..j] == s[i..j][1..];
      SkipGap(s, i + 1, j);
    } else if j < |s| {
      Chars(s[j]);
    }
  }

  lemma {:induction false} EndOfWord(s: string, i: nat, j: nat)
    requires i <= j <= |s| && (forall k | i <= k < j :: LegalChar(s[k]))
    requires j < |s| ==> s[j] in Blanks || s[j] in Symbols
    ensures WordEnd(s, i) == j
    decreases j - i
  {
    hide LegalChar;
    if i < |s| {
      Chars(s[i]);
    }
    if i < j {
      EndOfWord(s, i + 1, j);
    }
  }

  /** No token starts with a blank, and only > and >> with >. */
  lemma FirstChar(t: Tok)
    requires LegalTok(t)
    ensures var w := Spelling(t); w != "" && w[0] !in Blanks && (w[0] == '>' <==> t == Op('>') || t == Op('+'))
    ensures t.Op? ==> Spelling(t)[0] in Symbols && |Spelling(t)| == if t.c == '+' then 2 else 1
  {
    Chars(Spelling(t)[0]);
    Chars('>');
    if t.Word? {
      assert LegalChar(t.w[0]);
    } else {
      Chars(t.c);
    }
  }

  /** What stands after the first token. */
  lemma AfterFirst(toks: seq<Tok>, gaps: seq<string>)
    requires toks != [] && LegalToks(toks) && Separated(toks, gaps)
    ensures var u := Spell(toks[1..], gaps[1..]);
      && Separated(toks[1..], gaps[1..])
      && (u != "" && toks[0].Word? ==> u[0] in Blanks || u[0] in Symbols)
      && (u != "" && toks[0] == Op('>') ==> u[0] != '>')
  {
    var rest, more := toks[1..], gaps[1..];
    assert forall k | 0 <= k < |more| :: more[k] == gaps[k + 1];
    assert forall k | 0 < k < |rest| :: rest[k - 1] == toks[k] && rest[k] == toks[k + 1];
    var u := Spell(rest, more);
    if u != "" {
      if more[0] != "" {
        assert u[0] == more[0][0];
        assert AllBlank(gaps[1]);
        Chars(u[0]);
      } else {
        assert MayTouch(toks[0], toks[1]);
        FirstChar(toks[1]);
        assert u[0] == Spelling(toks[1])[0];
      }
    }
  }

  /** The token that stands at q. */
  lemma FirstToken(s: string, i: nat, q: nat, t: Tok, eq: nat)
    requires i <= q <= eq <= |s| && AllBlank(s[i..q]) && LegalTok(t) && s[q..eq] == Spelling(t)
    requires t.Word? && eq < |s| ==> s[eq] in Blanks || s[eq] in Symbols
    requires t == Op('>') && eq < |s| ==> s[eq] != '>'
    ensures SkipSpace(s, i) == q < |s| && TokenAt(s, i).eq == eq && TokOf(s, TokenAt(s, i)) == t
  {
    FirstChar(t);
    assert s[q] == Spelling(t)[0];
    SkipGap(s, i, q);
    Chars(s[q]);
    Chars('>');
    if t.Word? {
      forall k | q <= k < eq
        ensures LegalChar(s[k])
      {
        assert s[k] == t.w[k - q];
      }
      EndOfWord(s, q, eq);
      assert LegalChar(s[q]);
      assert !IsSymbol(s[q]);
    } else if t.c == '+' {
      assert s[q + 1] == Spelling(t)[1];
    }
  }

  /** White space before a token does not matter. */
  lemma LexSkip(s: string, i: nat)
    requires i <= |s|
    ensures Lex(s, SkipSpace(s, i)) == Lex(s, i)
  {
    LexNext(s, i, "");
  }

  lemma Slices(s: string, i: nat, a: string, b: string, c: string)
    requires i <= |s| && s[i..] == a + b + c
    ensures i + |a| + |b| <= |s| && s[i..i + |a|] == a && s[i + |a|..i + |a| + |b|] == b && s[i + |a| + |b|..] == c
  {
    assert s[i..i + |a|] == s[i..][..|a|];
    assert s[i + |a|..i + |a| + |b|] == s[i..][|a|..|a| + |b|];
    assert s[i + |a| + |b|..] == s[i..][|a| + |b|..];
  }

  /** The token at the front of a text, and where the rest of it starts. */
  lemma FirstSpelled(s: string, i: nat, toks: seq<Tok>, gaps: seq<string>) returns (eq: nat)
    requires LegalToks(toks) && Separated(toks, gaps) && toks != [] && i <= |s| && s[i..] == Spell(toks, gaps)
    ensures LegalToks(toks[1..]) && Separated(toks[1..], gaps[1..])
    ensures i <= eq <= |s| && s[eq..] == Spell(toks[1..], gaps[1..])
    ensures Lex(s, i) == [toks[0]] + Lex(s, eq)
  {
    hide LegalTok;
    hide TokOf;
    hide TokenAt;
    hide MayTouch;
    hide Spelling;
    AfterFirst(toks, gaps);
    Slices(s, i, gaps[0], Spelling(toks[0]), Spell(toks[1..], gaps[1..]));
    eq := i + |gaps[0]| + |Spelling(toks[0])|;
    FirstToken(s, i, i + |gaps[0]|, toks[0], eq);
    LexSkip(s, eq);
    NextIsSkip(s, i);
  }

  /** However tokens are set down, they are the tokens the shell finds. */
  lemma {:induction false} SpelledTokens(s: string, i: nat, toks: seq<Tok>, gaps: seq<string>)
    requires LegalToks(toks) && Separated(toks, gaps) && i <= |s| && s[i..] == Spell(toks, gaps)
    ensures Lex(s, i) == toks
    decreases |toks|
  {
    if toks == [] {
      assert s[i..|s|] == s[i..];
      SkipGap(s, i, |s|);
    } else {
      hide LegalToks;
      hide Separated;
      hide Lex;
      hide Spell;
      var eq := FirstSpelled(s, i, toks, gaps);
      SpelledTokens(s, eq, toks[1..], gaps[1..]);
    }
  }

  lemma NextIsSkip(s: string, i: nat)
    requires i <= |s|
    ensures TokenAt(s, i).next == SkipSpace(s, TokenAt(s, i).eq)
  {
  }

  lemma {:induction false} Skipped(s: string, i: nat)
    requires i <= |s|
    ensures AllBlank(s[i..SkipSpace(s, i)])
    decreases |s| - i
  {
    if i < |s| && IsSpace(s[i]) {
      Skipped(s, i + 1);
      Chars(s[i]);
      assert s[i..SkipSpace(s, i)] == [s[i]] + s[i + 1..SkipSpace(s, i + 1)];
    }
  }

  /** A token found is a legal one, and it is spelled where it was found. */
  lemma FoundToken(s: string, i: nat)
    requires i <= |s| && NoNul(s) && SkipSpace(s, i) < |s|
    ensures var t := TokenAt(s, i);
      && t.q == SkipSpace(s, i) && LegalTok(TokOf(s, t)) && Spelling(TokOf(s, t)) == s[t.q..t.eq]
  {
    var t := TokenAt(s, i);
    Chars(s[t.q]);
    if t.kind == 'a' {
      TokenWord(s, i);
      forall k | t.q <= k < t.eq
        ensures LegalChar(s[k])
      {
        Chars(s[k]);
      }
    }
  }

  /** Two tokens found side by side are ones that may stand so. */
  lemma FoundTouching(s: string, i: nat)
    requires i <= |s| && SkipSpace(s, i) < |s|
    requires TokenAt(s, i).eq < |s| && !IsSpace(s[TokenAt(s, i).eq])
    ensures MayTouch(TokOf(s, TokenAt(s, i)), TokOf(s, TokenAt(s, TokenAt(s, i).eq)))
  {
  }

  lemma SpellOneMore(t: Tok, g: string, toks: seq<Tok>, gaps: seq<string>)
    requires LegalTok(t) && LegalToks(toks) && AllBlank(g) && Separated(toks, gaps)
    requires toks != [] && gaps[0] == "" ==> MayTouch(t, toks[0])
    ensures LegalToks([t] + toks) && Separated([t] + toks, [g] + gaps)
    ensures Spell([t] + toks, [g] + gaps) == g + Spelling(t) + Spell(toks, gaps)
  {
    hide LegalTok;
    hide MayTouch;
    hide AllBlank;
    hide Spelling;
    assert ([t] + toks)[1..] == toks && ([g] + gaps)[1..] == gaps;
  }

  /** Every text is its tokens set down. */
  lemma {:induction false} TextIsSpelled(s: string, i: nat) returns (gaps: seq<string>)
    requires i <= |s| && NoNul(s)
    ensures LegalToks(Lex(s, i)) && Separated(Lex(s, i), gaps) && s[i..] == Spell(Lex(s, i), gaps)
    ensures gaps[0] == s[i..SkipSpace(s, i)]
    decreases |s| - i
  {
    hide TokenAt;
    hide TokOf;
    hide LegalTok;
    hide MayTouch;
    hide Spelling;
    hide AllBlank;
    hide NoNul;
    Skipped(s, i);
    if SkipSpace(s, i) == |s| {
      gaps := [s[i..]];
      assert s[i..] == s[i..|s|];
    } else {
      hide LegalToks;
      hide Separated;
      hide Spell;
      FoundToken(s, i);
      NextIsSkip(s, i);
      var t := TokenAt(s, i);
      LexSkip(s, t.eq);
      var more := TextIsSpelled(s, t.eq);
      SpelledSize(Lex(s, t.eq), more);
      if more[0] == "" && Lex(s, t.eq) != [] {
        FoundTouching(s, i);
      }
      gaps := [s[i..t.q]] + more;
      SpellOneMore(TokOf(s, t), s[i..t.q], Lex(s, t.eq), more);
      Cut(s, i, t.q, t.eq);
    }
  }

  lemma Cut(s: string, i: nat, a: nat, b: nat)
    requires i <= a <= b <= |s|
    ensures s[i..] == s[i..a] + s[a..b] + s[b..]
  {
  }

  lemma SpelledSize(toks: seq<Tok>, gaps: seq<string>)
    requires Separated(toks, gaps)
    ensures |gaps| == |toks| + 1
  {
  }
}
