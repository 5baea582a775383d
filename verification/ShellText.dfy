/** What spacing means to the shell (user/sh.c): nothing, beyond keeping words apart.  The characters
    are written out here, as gettoken's strings have them. */
module ShellText {
  import opened Shell
  import opened ShellPrint
  import opened Options

  predicate Blank(c: char) { c in " \t\r\n\U{0B}" }
  predicate Sign(c: char) { c in "<|>&;()" }

  predicate Blanks(s: string) { forall i :: 0 <= i < |s| ==> Blank(s[i]) }

  lemma Characters(c: char)
    ensures White(c) <==> Blank(c)
    ensures Symbol(c) <==> Sign(c)
    ensures WordChar(c) <==> !Blank(c) && !Sign(c) && c != '\0'
  {
    assert " \t\r\n\U{0B}" == [' ', '\t', '\r', '\n', '\U{0B}'];
    assert "<|>&;()" == ['<', '|', '>', '&', ';', '(', ')'];
  }

  // ----- The tokens of a text -----

  function Lex(s: string): seq<Token>
    requires Plain(s)
    decreases |s|
  {
    var l := Gettoken(s);
    TokenPlain(s);
    if l.tok.End? then [] else [l.tok] + Lex(l.rest)
  }

  predicate Same(s: string, u: string) { Plain(s) && Plain(u) && Lex(s) == Lex(u) }

  lemma SameToken(s: string, u: string)
    requires Same(s, u)
    ensures Gettoken(s).tok == Gettoken(u).tok
    ensures !Gettoken(s).tok.End? ==> Same(Gettoken(s).rest, Gettoken(u).rest)
  {
    TokenPlain(s);
    TokenPlain(u);
    if !Gettoken(s).tok.End? {
      assert Lex(s)[0] == Gettoken(s).tok && Lex(s)[1..] == Lex(Gettoken(s).rest);
      assert Lex(u)[0] == Gettoken(u).tok && Lex(u)[1..] == Lex(Gettoken(u).rest);
    }
  }

  lemma SameSkip(s: string)
    requires Plain(s)
    ensures Same(s, Skip(s))
  {
    SkipPlain(s);
    SkipIdem(s);
  }

  predicate Peeks(tok: Token, toks: string) {
    match tok
    case End => false
    case Sym(c) => c in toks
    case AppendSym => '>' in toks
    case Word(_) => false
  }

  lemma PeekToken(s: string, toks: string)
    requires forall c :: c in toks ==> Symbol(c)
    ensures Peek(s, toks) == Peeks(Gettoken(s).tok, toks)
  {
  }

  lemma SamePeek(s: string, u: string, toks: string)
    requires Same(s, u) && forall c :: c in toks ==> Symbol(c)
    ensures Peek(s, toks) == Peek(u, toks)
  {
    SameToken(s, u);
    PeekToken(s, toks);
    PeekToken(u, toks);
  }

  // ----- Parsing depends on the tokens alone -----

  predicate SameResult<T(==)>(a: Result<T>, b: Result<T>) {
    (a.Ok? <==> b.Ok?) && (a.Ok? ==> a.value == b.value && Same(a.rest, b.rest))
  }

  lemma SameOneRedir(s: string, u: string)
    requires Same(s, u)
    ensures SameResult(OneRedir(s), OneRedir(u))
  {
    SameToken(s, u);
    TokenPlain(s);
    TokenPlain(u);
    if Gettoken(s).tok.End? { EndStays(s); EndStays(u); } else { SameToken(Gettoken(s).rest, Gettoken(u).rest); }
  }

  /** Past the end there is nothing. */
  lemma EndStays(s: string)
    requires Plain(s) && Gettoken(s).tok.End?
    ensures Skip(s) == "" && Gettoken(s).rest == "" && Gettoken(Gettoken(s).rest).tok.End?
  {
    SkipPlain(s);
  }

  lemma {:induction false} SameRedirs(rs: seq<Redirection<string>>, s: string, u: string)
    requires Same(s, u)
    ensures SameResult(Redirs(rs, s), Redirs(rs, u))
    decreases |s|
  {
    SamePeek(s, u, "<>");
    SameSkip(s);
    SameSkip(u);
    SameOneRedir(s, u);
    var a, b := OneRedir(s), OneRedir(u);
    if Peek(s, "<>") && a.Ok? { SameRedirs(rs + [a.value], a.rest, b.rest); }
  }

  lemma SameOneArg(rs: seq<Redirection<string>>, s: string, u: string)
    requires Same(s, u)
    ensures SameResult(OneArg(rs, s), OneArg(rs, u))
  {
    SameToken(s, u);
    TokenPlain(s);
    TokenPlain(u);
    if Gettoken(s).tok.Word? { SameRedirs(rs, Gettoken(s).rest, Gettoken(u).rest); }
  }

  lemma {:induction false} SameArgs(argv: seq<string>, rs: seq<Redirection<string>>, s: string, u: string)
    requires Same(s, u)
    ensures SameResult(Args(argv, rs, s), Args(argv, rs, u))
    decreases |s|
  {
    SamePeek(s, u, "|)&;");
    SameToken(s, u);
    SameSkip(s);
    SameSkip(u);
    SameOneArg(rs, s, u);
    var a, b := OneArg(rs, s), OneArg(rs, u);
    if !ArgsEnd(s) && a.Ok? && |argv| + 1 < MAXARGS { SameArgs(argv + [a.value.text], a.value.redirs, a.rest, b.rest); }
  }

  lemma {:induction false} SameExec(s: string, u: string)
    requires Same(s, u)
    ensures SameResult(ParseExec(s), ParseExec(u))
    decreases |s|, 1
  {
    SamePeek(s, u, "(");
    if Peek(s, "(") {
      SameBlock(s, u);
    } else {
      SameRedirs([], s, u);
      var a, b := Redirs([], s), Redirs([], u);
      if a.Ok? { SameArgs([], a.value, a.rest, b.rest); }
    }
  }

  lemma {:induction false} SameBlock(s: string, u: string)
    requires Same(s, u) && Peek(s, "(") && Peek(u, "(")
    ensures SameResult(ParseBlock(s), ParseBlock(u))
    decreases |s|, 0
  {
    TokenPlain(s);
    TokenPlain(u);
    PeekToken(s, "(");
    SameToken(s, u);
    SameLine(Gettoken(s).rest, Gettoken(u).rest);
    var a, b := ParseLine(Gettoken(s).rest), ParseLine(Gettoken(u).rest);
    if a.Ok? {
      SamePeek(a.rest, b.rest, ")");
      if Peek(a.rest, ")") {
        PeekToken(a.rest, ")");
        TokenPlain(a.rest);
        TokenPlain(b.rest);
        SameToken(a.rest, b.rest);
        SameRedirs([], Gettoken(a.rest).rest, Gettoken(b.rest).rest);
      }
    }
  }

  lemma {:induction false} SamePipe(s: string, u: string)
    requires Same(s, u)
    ensures SameResult(ParsePipe(s), ParsePipe(u))
    decreases |s|, 2
  {
    SameExec(s, u);
    var a, b := ParseExec(s), ParseExec(u);
    if a.Ok? {
      SamePeek(a.rest, b.rest, "|");
      SameSkip(a.rest);
      SameSkip(b.rest);
      if Peek(a.rest, "|") {
        PeekToken(a.rest, "|");
        TokenPlain(a.rest);
        TokenPlain(b.rest);
        SameToken(a.rest, b.rest);
        SamePipe(Gettoken(a.rest).rest, Gettoken(b.rest).rest);
      }
    }
  }

  lemma {:induction false} SameBacks(c: Cmd<string>, s: string, u: string)
    requires Same(s, u)
    ensures SameResult(Backs(c, s), Backs(c, u))
    decreases |s|
  {
    SamePeek(s, u, "&");
    SameSkip(s);
    SameSkip(u);
    if Peek(s, "&") {
      PeekToken(s, "&");
      TokenPlain(s);
      TokenPlain(u);
      SameToken(s, u);
      SameBacks(Back(c), Gettoken(s).rest, Gettoken(u).rest);
    }
  }

  lemma {:induction false} SameLine(s: string, u: string)
    requires Same(s, u)
    ensures SameResult(ParseLine(s), ParseLine(u))
    decreases |s|, 3
  {
    SamePipe(s, u);
    var p, q := ParsePipe(s), ParsePipe(u);
    if p.Ok? {
      SameBacks(p.value, p.rest, q.rest);
      var a, b := Backs(p.value, p.rest), Backs(q.value, q.rest);
      SamePeek(a.rest, b.rest, ";");
      if Peek(a.rest, ";") {
        PeekToken(a.rest, ";");
        TokenPlain(a.rest);
        TokenPlain(b.rest);
        SameToken(a.rest, b.rest);
        SameLine(Gettoken(a.rest).rest, Gettoken(b.rest).rest);
      }
    }
  }

  lemma NothingLeft(s: string)
    requires Plain(s)
    ensures Skip(s) == "" <==> Lex(s) == []
  {
    SkipPlain(s);
  }

  /** Two texts with the same tokens are the same command, or both are syntax errors. */
  lemma SameCommand(s: string, u: string)
    requires Same(s, u)
    ensures ParseCmd(s) == ParseCmd(u)
  {
    SameLine(s, u);
    var a, b := ParseLine(s), ParseLine(u);
    if a.Ok? {
      NothingLeft(a.rest);
      NothingLeft(b.rest);
    }
  }

  // ----- Spacing -----

  /** A token as it is typed. */
  function Spell(t: Token): string {
    match t
    case End => ""
    case Sym(c) => [c]
    case AppendSym => ">>"
    case Word(w) => w
  }

  predicate IsWord(w: string) { w != "" && forall i :: 0 <= i < |w| ==> !Blank(w[i]) && !Sign(w[i]) && w[i] != '\0' }

  predicate IsToken(t: Token) {
    match t
    case End => false
    case Sym(c) => Sign(c)
    case AppendSym => true
    case Word(w) => IsWord(w)
  }

  /** Two tokens that would run together without a blank between them. */
  predicate Sticky(a: Token, b: Token) {
    (a.Word? && b.Word?) || (a == Sym('>') && (b == Sym('>') || b == AppendSym))
  }

  /** gaps[k] goes before token k and the last gap after all of them: any blanks, and at least one where
      the tokens would run together. */
  predicate Spaced(ts: seq<Token>, gaps: seq<string>) {
    && |gaps| == |ts| + 1 && (forall k :: 0 <= k < |gaps| ==> Blanks(gaps[k]))
    && forall k :: 0 < k < |ts| && Sticky(ts[k - 1], ts[k]) ==> gaps[k] != ""
  }

  /** The tokens typed with those gaps. */
  function Typed(ts: seq<Token>, gaps: seq<string>): string
    requires |gaps| == |ts| + 1
  {
    if ts == [] then gaps[0] else gaps[0] + (Spell(ts[0]) + Typed(ts[1..], gaps[1..]))
  }

  lemma {:induction false} SkipGap(g: string, s: string)
    requires Blanks(g)
    ensures Skip(g + s) == Skip(s)
  {
    if g == "" {
      assert g + s == s;
    } else {
      Characters(g[0]);
      assert (g + s)[1..] == g[1..] + s;
      SkipGap(g[1..], s);
    }
  }

  lemma LexGap(g: string, s: string)
    requires Blanks(g) && Plain(s)
    ensures Plain(g + s) && Same(g + s, s)
  {
    SkipGap(g, s);
    assert Plain(g);
    SameSkip(s);
    SameSkip(g + s);
  }

  /** A text that continues no word and no ">". */
  predicate Breaks(t: Token, s: string) {
    s != "" ==> (t.Word? ==> Blank(s[0]) || Sign(s[0])) && (t == Sym('>') ==> s[0] != '>')
  }

  lemma {:induction false} WordEnds(w: string, s: string)
    requires (forall i :: 0 <= i < |w| ==> WordChar(w[i])) && (s == "" || !WordChar(s[0]))
    ensures WordLen(w + s) == |w|
  {
    if w != "" {
      assert (w + s)[1..] == w[1..] + s;
      WordEnds(w[1..], s);
    } else {
      assert w + s == s;
    }
  }

  lemma TokenRead(t: Token, s: string)
    requires IsToken(t) && Plain(s) && Breaks(t, s)
    ensures Plain(Spell(t) + s) && Gettoken(Spell(t) + s) == Lexed(t, Skip(s))
  {
    var u := Spell(t) + s;
    if s != "" { Characters(s[0]); }
    match t
    case Sym(c) =>
      Characters(c);
      assert u[0] == c && u[1..] == s;
      if s != "" { assert u[1] == s[0]; }
    case AppendSym => assert u[0] == '>' && u[1] == '>' && u[2..] == s;
    case Word(w) =>
      forall i | 0 <= i < |w| ensures WordChar(w[i]) { Characters(w[i]); }
      WordEnds(w, s);
      assert u[0] == w[0] && u[..|w|] == w && u[|w|..] == s;
  }

  lemma TypedBreaks(t: Token, ts: seq<Token>, gaps: seq<string>)
    requires IsToken(t) && (forall k :: 0 <= k < |ts| ==> IsToken(ts[k]))
    requires |gaps| == |ts| + 1 && (forall k :: 0 <= k < |gaps| ==> Blanks(gaps[k]))
    requires ts != [] && Sticky(t, ts[0]) ==> gaps[0] != ""
    ensures Breaks(t, Typed(ts, gaps))
  {
    var s := Typed(ts, gaps);
    if gaps[0] != "" {
      assert s[0] == gaps[0][0] && Blank(s[0]);
    } else if ts != [] {
      var rest := Spell(ts[0]) + Typed(ts[1..], gaps[1..]);
      assert s == rest && s[0] == Spell(ts[0])[0];
    }
  }

  /** Typing tokens with any spacing and reading them gives the tokens. */
  lemma {:induction false} TypedRead(ts: seq<Token>, gaps: seq<string>)
    requires Spaced(ts, gaps) && forall k :: 0 <= k < |ts| ==> IsToken(ts[k])
    ensures Plain(Typed(ts, gaps)) && Lex(Typed(ts, gaps)) == ts
  {
    if ts == [] {
      assert gaps[0] + "" == gaps[0];
      LexGap(gaps[0], "");
    } else {
      var rest, more := ts[1..], gaps[1..];
      TypedRead(rest, more);
      TypedBreaks(ts[0], rest, more);
      var s := Typed(rest, more);
      TokenRead(ts[0], s);
      LexGap(gaps[0], Spell(ts[0]) + s);
      SameSkip(s);
      assert ts == [ts[0]] + rest;
    }
  }

  /** What the tokens of a text are. */
  lemma {:induction false} LexTokens(s: string)
    requires Plain(s)
    ensures forall k :: 0 <= k < |Lex(s)| ==> IsToken(Lex(s)[k])
    decreases |s|
  {
    var l := Gettoken(s);
    TokenPlain(s);
    if !l.tok.End? {
      LexTokens(l.rest);
      FirstToken(s);
    }
  }

  lemma FirstToken(s: string)
    requires Plain(s) && !Gettoken(s).tok.End?
    ensures IsToken(Gettoken(s).tok)
  {
    var t := Skip(s);
    SkipPlain(s);
    Characters(t[0]);
    forall i | 0 <= i < WordLen(t) ensures !Blank(t[i]) && !Sign(t[i]) && t[i] != '\0' { Characters(t[i]); }
  }

  /** The same tokens typed with any other spacing are the same command. */
  lemma SpacingDoesNotMatter(s: string, gaps: seq<string>)
    requires Plain(s) && Spaced(Lex(s), gaps)
    ensures Plain(Typed(Lex(s), gaps)) && ParseCmd(Typed(Lex(s), gaps)) == ParseCmd(s)
  {
    LexTokens(s);
    TypedRead(Lex(s), gaps);
    SameCommand(Typed(Lex(s), gaps), s);
  }

  /** Blanks before and behind a text change nothing: a command as it is typed ends with a newline. */
  lemma Padded(g: string, s: string, h: string)
    requires Blanks(g) && Plain(s) && Blanks(h)
    ensures Plain(g + s + h) && ParseCmd(g + s + h) == ParseCmd(s)
  {
    LexTail(s, h);
    LexGap(g, s + h);
    assert g + s + h == g + (s + h);
    SameCommand(g + s + h, s);
  }

  lemma {:induction false} LexTail(s: string, h: string)
    requires Plain(s) && Blanks(h)
    ensures Plain(s + h) && Same(s + h, s)
    decreases |s|
  {
    assert Plain(h);
    SkipTail(s, h);
    var t := Skip(s);
    SkipPlain(s);
    if t == "" {
      assert h + "" == h;
      SkipGap(h, "");
    } else {
      TokenPlain(s);
      TokenTail(s, h);
      LexTail(Gettoken(s).rest, h);
      SameSkip(Gettoken(s).rest + h);
    }
  }

  lemma {:induction false} SkipTail(s: string, h: string)
    requires Blanks(h)
    ensures Skip(s + h) == if Skip(s) == "" then Skip(h) else Skip(s) + h
  {
    if s == "" {
      assert s + h == h;
    } else if White(s[0]) {
      assert (s + h)[1..] == s[1..] + h;
      SkipTail(s[1..], h);
    }
  }

  lemma TokenTail(s: string, h: string)
    requires Plain(s) && Blanks(h) && Skip(s) != ""
    ensures Gettoken(s + h) == Lexed(Gettoken(s).tok, Skip(Gettoken(s).rest + h))
  {
    var t := Skip(s);
    SkipPlain(s);
    SkipTail(s, h);
    SkipIdem(s);
    SkipIdem(s + h);
    if h != "" { Characters(h[0]); }
    if Symbol(t[0]) { SignTail(t, h); } else { WordTokenTail(t, h); }
  }

  lemma SignTail(t: string, h: string)
    requires t != "" && Symbol(t[0]) && (h != "" ==> White(h[0])) && Blanks(h)
    ensures Gettoken(t + h) == Lexed(Gettoken(t).tok, Skip(Gettoken(t).rest + h))
  {
    var u := t + h;
    assert u[0] == t[0] && u[1..] == t[1..] + h;
    SkipTwice(t[1..], h);
    if |t| > 1 {
      assert u[1] == t[1] && u[2..] == t[2..] + h;
      SkipTwice(t[2..], h);
    }
  }

  lemma WordTokenTail(t: string, h: string)
    requires t != "" && WordChar(t[0]) && (h != "" ==> White(h[0])) && Blanks(h)
    ensures Gettoken(t + h) == Lexed(Gettoken(t).tok, Skip(Gettoken(t).rest + h))
  {
    var u, n := t + h, WordLen(t);
    WordTail(t, h);
    assert u[0] == t[0] && u[..n] == t[..n] && u[n..] == t[n..] + h;
    SkipTwice(t[n..], h);
  }

  lemma SkipTwice(r: string, h: string)
    requires Blanks(h)
    ensures Skip(Skip(r) + h) == Skip(r + h)
  {
    SkipTail(r, h);
    SkipTail(Skip(r), h);
    SkipIdem(r);
    assert "" + h == h;
  }

  lemma {:induction false} WordTail(t: string, h: string)
    requires h == "" || !WordChar(h[0])
    ensures WordLen(t + h) == WordLen(t)
  {
    if t == "" {
      assert t + h == h;
    } else if WordChar(t[0]) {
      assert (t + h)[1..] == t[1..] + h;
      WordTail(t[1..], h);
    }
  }

  /** A printed command typed with any spacing, blanks around it and a newline behind it included. */
  lemma TypedCommand(t: Cmd<string>, gaps: seq<string>)
    requires Printable(t) && Spaced(Lex(Print(t, "")), gaps)
    ensures Plain(Typed(Lex(Print(t, "")), gaps)) && ParseCmd(Typed(Lex(Print(t, "")), gaps)) == Ok(t, "")
    ensures Plain(Print(t, "") + "\n") && ParseCmd(Print(t, "") + "\n") == Ok(t, "")
  {
    RoundTrip(t);
    SpacingDoesNotMatter(Print(t, ""), gaps);
    Padded("", Print(t, ""), "\n");
    assert "" + Print(t, "") + "\n" == Print(t, "") + "\n";
  }

  /** A user means t by this text: its tokens, with any spacing. */
  ghost predicate Means(text: string, t: Cmd<string>) {
    Printable(t) && exists gaps :: Spaced(Lex(Print(t, "")), gaps) && text == Typed(Lex(Print(t, "")), gaps)
  }

  /** What a text is taken for is what its writer meant, whatever that was. */
  ghost predicate Understood(text: string, got: Option<Cmd<string>>) { forall t :: Means(text, t) ==> got == Some(t) }

  lemma MeansOne(text: string, t: Cmd<string>)
    requires Means(text, t)
    ensures Plain(text) && ParseCmd(text) == Ok(t, "")
  {
    var gaps :| Spaced(Lex(Print(t, "")), gaps) && text == Typed(Lex(Print(t, "")), gaps);
    TypedCommand(t, gaps);
  }

  // ----- How many words -----

  lemma {:induction false} TooManyArgs(argv: seq<string>, ws: seq<string>)
    requires |argv| < 10 <= |argv| + |ws| && forall i :: 0 <= i < |ws| ==> GoodWord(ws[i])
    ensures Plain(PutWords(ws, "")) && Args(argv, [], PutWords(ws, "")).Err?
    decreases ws
  {
    var k := PutWords(ws[1..], "");
    ReadWord(ws[0], k);
    if |argv| + 1 < 10 {
      RedirsAtWord([], ws[1], PutWords(ws[2..], ""));
      assert ws[1..][0] == ws[1] && ws[1..][1..] == ws[2..];
      ArgStep(argv, [], ws[0], k);
      TooManyArgs(argv + [ws[0]], ws[1..]);
    }
  }

  /** A simple command has at most nine words: with ten or more the parser panics, and with fewer it
      reads them all. */
  lemma WordsIff(ws: seq<string>)
    requires forall i :: 0 <= i < |ws| ==> GoodWord(ws[i])
    ensures Plain(PutWords(ws, ""))
    ensures ParseCmd(PutWords(ws, "")) == if |ws| < 10 then Ok(Exec(ws), "") else Err
  {
    if |ws| < 10 {
      assert Printable(Exec(ws)) && Print(Exec(ws), "") == PutWords(ws, "");
      RoundTrip(Exec(ws));
    } else {
      ExecFails(ws);
      ErrorsStay(PutWords(ws, ""));
    }
  }

  lemma ExecFails(ws: seq<string>)
    requires |ws| >= 10 && forall i :: 0 <= i < |ws| ==> GoodWord(ws[i])
    ensures Plain(PutWords(ws, "")) && ParseExec(PutWords(ws, "")).Err?
  {
    var k := PutWords(ws[1..], "");
    ReadWord(ws[0], k);
    RedirsAtWord([], ws[0], k);
    TooManyArgs([], ws);
  }

  lemma ErrorsStay(s: string)
    requires Plain(s) && ParseExec(s).Err?
    ensures ParseCmd(s).Err?
  {
    assert ParsePipe(s).Err?;
    assert ParseLine(s).Err?;
  }
}
