/** A printer for the commands of user/sh.c that puts parentheses only where the grammar needs
    them, and the round trip through the parser.  Every function prints a thing followed by the
    text k. */
module ShellPrint {
  import opened Shell

  predicate GoodWord(w: string) { w != "" && forall i :: 0 <= i < |w| ==> WordChar(w[i]) }

  /** Trees with word arguments, at most nine each. */
  predicate Printable(t: Cmd<string>) {
    match t
    case Exec(argv) => |argv| < 10 && forall i :: 0 <= i < |argv| ==> GoodWord(argv[i])
    case Redir(c, f, _) => GoodWord(f) && Printable(c)
    case Pipe(l, r) => Printable(l) && Printable(r)
    case List(l, r) => Printable(l) && Printable(r)
    case Back(c) => Printable(c)
  }

  function Put(c: char, k: string): (r: string)
    ensures Plain(k) && c != '\0' ==> Plain(r)
  {
    [c, ' '] + k
  }

  function PutWord(w: string, k: string): (r: string)
    ensures GoodWord(w) && Plain(k) ==> Plain(r)
  {
    w + ([' '] + k)
  }

  function PutWords(ws: seq<string>, k: string): (r: string)
    ensures Plain(k) && (forall i :: 0 <= i < |ws| ==> GoodWord(ws[i])) ==> Plain(r)
  {
    if ws == [] then k else PutWord(ws[0], PutWords(ws[1..], k))
  }

  function PutMode(m: Mode, k: string): (r: string)
    ensures Plain(k) ==> Plain(r)
  {
    match m
    case In => Put('<', k)
    case Out => Put('>', k)
    case Append => ['>', '>', ' '] + k
  }

  function PutRedir(f: string, m: Mode, k: string): (r: string)
    ensures Plain(k) && GoodWord(f) ==> Plain(r)
  {
    PutMode(m, PutWord(f, k))
  }

  function Level(t: Cmd<string>): nat {
    match t
    case List(_, _) => 0
    case Back(_) => 1
    case Pipe(_, _) => 2
    case _ => 3
  }

  function Print(t: Cmd<string>, k: string): (r: string)
    ensures Printable(t) && Plain(k) ==> Plain(r)
    decreases t, 0
  {
    match t
    case Exec(argv) => PutWords(argv, k)
    case Redir(c, f, m) => PrintAt(c, 3, PutRedir(f, m, k))
    case Pipe(l, r) => PrintAt(l, 3, Put('|', PrintAt(r, 2, k)))
    case Back(c) => PrintAt(c, 1, Put('&', k))
    case List(l, r) => PrintAt(l, 1, Put(';', Print(r, k)))
  }

  /** Parentheses exactly when t binds too loosely for its place. */
  function PrintAt(t: Cmd<string>, level: nat, k: string): (r: string)
    ensures Printable(t) && Plain(k) ==> Plain(r)
    decreases t, 1
  {
    if Level(t) >= level then Print(t, k) else Put('(', Print(t, Put(')', k)))
  }

  // ----- Reading back tokens -----

  lemma ReadSym(c: char, k: string)
    requires Symbol(c) && c != '>'
    ensures Gettoken(Put(c, k)) == Lexed(Sym(c), Skip(k)) && Skip(Put(c, k)) == Put(c, k)
    ensures forall toks :: Peek(Put(c, k), toks) == (c in toks)
  {
    var s := Put(c, k);
    assert s[0] == c && s[1..] == [' '] + k && ([' '] + k)[1..] == k;
  }

  lemma {:induction false} WordLenOf(w: string, k: string)
    requires forall i :: 0 <= i < |w| ==> WordChar(w[i])
    ensures WordLen(w + ([' '] + k)) == |w|
  {
    var s := w + ([' '] + k);
    if w != "" {
      assert s[1..] == w[1..] + ([' '] + k);
      WordLenOf(w[1..], k);
    }
  }

  lemma ReadWord(w: string, k: string)
    requires GoodWord(w)
    ensures Gettoken(PutWord(w, k)) == Lexed(Word(w), Skip(k)) && Skip(PutWord(w, k)) == PutWord(w, k)
    ensures !Peek(PutWord(w, k), "(") && !Peek(PutWord(w, k), "<>") && !Peek(PutWord(w, k), "|)&;")
  {
    var s := PutWord(w, k);
    WordLenOf(w, k);
    assert s[0] == w[0] && s[..|w|] == w && s[|w|..] == [' '] + k && ([' '] + k)[1..] == k;
  }

  lemma ReadMode(m: Mode, k: string)
    requires k == "" || k[0] != '>'
    ensures Gettoken(PutMode(m, k)).rest == Skip(k) && ModeOf(Gettoken(PutMode(m, k)).tok) == m
    ensures Peek(PutMode(m, k), "<>") && !Peek(PutMode(m, k), "(") && !Peek(PutMode(m, k), "|)&;")
  {
    var s := PutMode(m, k);
    match m
    case In => ReadSym('<', k);
    case Out => assert s[1..] == [' '] + k && ([' '] + k)[1..] == k;
    case Append => assert s[2..] == [' '] + k && ([' '] + k)[1..] == k;
  }

  // ----- Redirections and arguments -----

  predicate GoodRedirs(rs: seq<Redirection<string>>) { forall i :: 0 <= i < |rs| ==> GoodWord(rs[i].file) }

  function PutRedirs(rs: seq<Redirection<string>>, k: string): (r: string)
    ensures Plain(k) && GoodRedirs(rs) ==> Plain(r)
  {
    if rs == [] then k else PutRedir(rs[0].file, rs[0].mode, PutRedirs(rs[1..], k))
  }

  /** What follows is the end or one of toks. */
  predicate Stop(k: string, toks: string) { Skip(k) == "" || Skip(k)[0] in toks }

  lemma Regroup<T>(a: seq<T>, b: seq<T>)
    requires b != []
    ensures a + [b[0]] + b[1..] == a + b
  {
  }

  lemma RedirStep(got: seq<Redirection<string>>, f: string, m: Mode, k: string)
    requires GoodWord(f) && Plain(k)
    ensures Redirs(got, PutRedir(f, m, k)) == Redirs(got + [Redirection(f, m)], k)
  {
    ReadMode(m, PutWord(f, k));
    ReadWord(f, k);
    RedirsSkip(got + [Redirection(f, m)], k);
  }

  lemma {:induction false} ReadRedirs(got: seq<Redirection<string>>, rs: seq<Redirection<string>>, k: string)
    requires GoodRedirs(rs) && Plain(k) && Stop(k, "|)&;")
    ensures Redirs(got, PutRedirs(rs, k)) == Ok(got + rs, Skip(k))
    decreases rs
  {
    if rs == [] {
      assert got + rs == got;
    } else {
      Regroup(got, rs);
      RedirStep(got, rs[0].file, rs[0].mode, PutRedirs(rs[1..], k));
      ReadRedirs(got + [rs[0]], rs[1..], k);
    }
  }

  /** Once the redirections are read, parseexec stops. */
  lemma ArgsStop(argv: seq<string>, rs: seq<Redirection<string>>, k: string)
    requires Plain(k) && Stop(k, "|)&;")
    ensures Args(argv, rs, k) == Ok(Wrap(Exec(argv), rs), Skip(k))
  {
  }

  /** A word is not the start of a redirection. */
  lemma RedirsAtWord(rs: seq<Redirection<string>>, w: string, k: string)
    requires GoodWord(w) && Plain(k)
    ensures Redirs(rs, PutWord(w, k)) == Ok(rs, PutWord(w, k))
  {
    ReadWord(w, k);
  }

  lemma ArgStep(argv: seq<string>, rs: seq<Redirection<string>>, w: string, k: string)
    requires GoodWord(w) && Plain(k) && |argv| + 1 < MAXARGS && Redirs(rs, k).Ok?
    ensures Args(argv, rs, PutWord(w, k)) == Args(argv + [w], Redirs(rs, k).value, Redirs(rs, k).rest)
  {
    ReadWord(w, k);
    RedirsSkip(rs, k);
  }

  lemma {:induction false} ReadArgs(argv: seq<string>, ws: seq<string>, rs: seq<Redirection<string>>, k: string)
    requires ws != [] && |argv| + |ws| < MAXARGS && (forall i :: 0 <= i < |ws| ==> GoodWord(ws[i]))
    requires GoodRedirs(rs) && Plain(k) && Stop(k, "|)&;")
    ensures Args(argv, [], PutWords(ws, PutRedirs(rs, k))) == Ok(Wrap(Exec(argv + ws), rs), Skip(k))
    decreases ws
  {
    Regroup(argv, ws);
    if ws[1..] == [] {
      assert argv + [ws[0]] == argv + ws;
      assert PutWords(ws, PutRedirs(rs, k)) == PutWord(ws[0], PutRedirs(rs, k));
      LastArg(argv, ws[0], rs, k);
    } else {
      var rest := ws[1..];
      RedirsAtWord([], rest[0], PutWords(rest[1..], PutRedirs(rs, k)));
      ArgStep(argv, [], ws[0], PutWords(rest, PutRedirs(rs, k)));
      ReadArgs(argv + [ws[0]], rest, rs, k);
    }
  }

  lemma LastArg(argv: seq<string>, w: string, rs: seq<Redirection<string>>, k: string)
    requires |argv| + 1 < MAXARGS && GoodWord(w) && GoodRedirs(rs) && Plain(k) && Stop(k, "|)&;")
    ensures Args(argv, [], PutWord(w, PutRedirs(rs, k))) == Ok(Wrap(Exec(argv + [w]), rs), Skip(k))
  {
    ReadRedirs([], rs, k);
    assert [] + rs == rs;
    ArgStep(argv, [], w, PutRedirs(rs, k));
    SkipIdem(k);
    SkipPlain(k);
    ArgsStop(argv + [w], rs, Skip(k));
  }

  lemma ReadExec(argv: seq<string>, rs: seq<Redirection<string>>, k: string)
    requires Printable(Exec(argv)) && GoodRedirs(rs) && Plain(k) && Stop(k, "|)&;")
    ensures ParseExec(PutWords(argv, PutRedirs(rs, k))) == Ok(Wrap(Exec(argv), rs), Skip(k))
  {
    if argv == [] {
      ReadRedirs([], rs, k);
      assert [] + rs == rs;
      NoBlock(rs, k);
      SkipIdem(k);
      SkipPlain(k);
      ArgsStop([], rs, Skip(k));
    } else {
      var k1 := PutWords(argv[1..], PutRedirs(rs, k));
      ReadWord(argv[0], k1);
      RedirsAtWord([], argv[0], k1);
      ReadArgs([], argv, rs, k);
      assert [] + argv == argv;
    }
  }

  lemma NoBlock(rs: seq<Redirection<string>>, k: string)
    requires GoodRedirs(rs) && Stop(k, "|)&;")
    ensures !Peek(PutRedirs(rs, k), "(")
  {
    if rs != [] { ReadMode(rs[0].mode, PutWord(rs[0].file, PutRedirs(rs[1..], k))); }
  }

  lemma {:induction false} WrapCons(c: Cmd<string>, r: Redirection<string>, rs: seq<Redirection<string>>)
    ensures Wrap(c, [r] + rs) == Wrap(Redir(c, r.file, r.mode), rs)
    decreases rs
  {
    var all := [r] + rs;
    if rs == [] {
      assert all[..0] == [];
    } else {
      assert all[..|all| - 1] == [r] + rs[..|rs| - 1];
      WrapCons(c, r, rs[..|rs| - 1]);
    }
  }

  // ----- The grammar, level by level -----

  /** A bare command of the lowest level, with redirections rs still to come. */
  lemma {:induction false} ExecBare(t: Cmd<string>, rs: seq<Redirection<string>>, k: string)
    requires Printable(t) && Level(t) == 3 && GoodRedirs(rs) && Plain(k) && Stop(k, "|)&;")
    ensures ParseExec(Print(t, PutRedirs(rs, k))) == Ok(Wrap(t, rs), Skip(k))
    decreases t, 0
  {
    match t
    case Exec(argv) => ReadExec(argv, rs, k);
    case Redir(c, f, m) =>
      var all := [Redirection(f, m)] + rs;
      assert all[1..] == rs;
      ExecAt(c, all, k);
      WrapCons(c, Redirection(f, m), rs);
  }

  lemma {:induction false} PipeBare(t: Cmd<string>, k: string)
    requires Printable(t) && Level(t) >= 2 && Plain(k) && Stop(k, ")&;")
    ensures ParsePipe(Print(t, k)) == Ok(t, Skip(k))
    decreases t, 1
  {
    SkipIdem(k);
    if t.Pipe? {
      var k1 := PrintAt(t.right, 2, k);
      ReadSym('|', k1);
      ExecAt(t.left, [], Put('|', k1));
      PipeSkip(k1);
      PipeAt(t.right, k);
    } else {
      ExecBare(t, [], k);
    }
  }

  /** parsepipe and the loop over "&". */
  function ParseBg(s: string): Result<Cmd<string>>
    requires Plain(s)
  {
    var p := ParsePipe(s);
    if p.Err? then Err else Backs(p.value, p.rest)
  }

  lemma {:induction false} BgBare(t: Cmd<string>, k: string)
    requires Printable(t) && Level(t) >= 1 && Plain(k) && Stop(k, ")&;")
    ensures ParseBg(Print(t, k)) == Backs(t, k)
    decreases t, 2
  {
    if t.Back? {
      ReadSym('&', k);
      BgAt(t.cmd, Put('&', k));
      BacksSkip(t, k);
    } else {
      PipeBare(t, k);
      BacksSkip(t, k);
    }
  }

  lemma {:induction false} LineRead(t: Cmd<string>, k: string)
    requires Printable(t) && Plain(k) && Stop(k, ")")
    ensures ParseLine(Print(t, k)) == Ok(t, Skip(k))
    decreases t, 3
  {
    if t.List? {
      var k1 := Print(t.right, k);
      ReadSym(';', k1);
      BgAt(t.left, Put(';', k1));
      LineSkip(k1);
      LineRead(t.right, k);
    } else {
      BgBare(t, k);
      SkipIdem(k);
    }
  }

  lemma {:induction false} ExecAt(t: Cmd<string>, rs: seq<Redirection<string>>, k: string)
    requires Printable(t) && GoodRedirs(rs) && Plain(k) && Stop(k, "|)&;")
    ensures ParseExec(PrintAt(t, 3, PutRedirs(rs, k))) == Ok(Wrap(t, rs), Skip(k))
    decreases t, 4
  {
    if Level(t) == 3 {
      ExecBare(t, rs, k);
    } else {
      var k1 := PutRedirs(rs, k);
      var k2 := Print(t, Put(')', k1));
      ReadSym('(', k2);
      ReadSym(')', k1);
      LineSkip(k2);
      LineRead(t, Put(')', k1));
      RedirsSkip([], k1);
      ReadRedirs([], rs, k);
      assert [] + rs == rs;
    }
  }

  lemma {:induction false} PipeAt(t: Cmd<string>, k: string)
    requires Printable(t) && Plain(k) && Stop(k, ")&;")
    ensures ParsePipe(PrintAt(t, 2, k)) == Ok(t, Skip(k))
    decreases t, 5
  {
    if Level(t) >= 2 {
      PipeBare(t, k);
    } else {
      ExecAt(t, [], k);
      SkipIdem(k);
    }
  }

  lemma {:induction false} BgAt(t: Cmd<string>, k: string)
    requires Printable(t) && Plain(k) && Stop(k, ")&;")
    ensures ParseBg(PrintAt(t, 1, k)) == Backs(t, k)
    decreases t, 6
  {
    if Level(t) >= 1 {
      BgBare(t, k);
    } else {
      ExecAt(t, [], k);
      SkipIdem(k);
      BacksSkip(t, k);
    }
  }

  /** Printing any command with word arguments and parsing the text gives the command back. */
  lemma RoundTrip(t: Cmd<string>)
    requires Printable(t)
    ensures Plain(Print(t, "")) && ParseCmd(Print(t, "")) == Ok(t, "")
  {
    LineRead(t, "");
  }

  /** Different commands have different texts. */
  lemma PrintInjective(t: Cmd<string>, u: Cmd<string>)
    requires Printable(t) && Printable(u) && Print(t, "") == Print(u, "")
    ensures t == u
  {
    RoundTrip(t);
    RoundTrip(u);
  }
}
