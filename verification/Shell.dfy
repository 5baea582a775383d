/** user/sh.c: the command language.  Parsing is described on the text that remains, as the
    parser's pointer *ps leaves it; a panic is Err. */
module Shell {
  const MAXARGS := 10
  const VTAB: char := '\U{0B}'

  predicate White(c: char) { c == ' ' || c == '\t' || c == '\r' || c == '\n' || c == VTAB }
  predicate Symbol(c: char) { c == '<' || c == '|' || c == '>' || c == '&' || c == ';' || c == '(' || c == ')' }
  predicate WordChar(c: char) { !White(c) && !Symbol(c) && c != '\0' }

  /** O_RDONLY on fd 0; O_WRONLY|O_CREATE|O_TRUNC on fd 1; O_WRONLY|O_CREATE on fd 1. */
  datatype Mode = In | Out | Append

  /** A command tree whose words are of type T: text, or places in the input. */
  datatype Cmd<T> =
    | Exec(argv: seq<T>)
    | Redir(cmd: Cmd<T>, file: T, mode: Mode)
    | Pipe(left: Cmd<T>, right: Cmd<T>)
    | List(left: Cmd<T>, right: Cmd<T>)
    | Back(cmd: Cmd<T>)

  // ----- Tokens -----

  function Skip(s: string): (r: string)
    ensures |r| <= |s| && (r != "" ==> !White(r[0]))
  {
    if s != "" && White(s[0]) then Skip(s[1..]) else s
  }

  function WordLen(s: string): (n: nat)
    ensures n <= |s| && (forall i :: 0 <= i < n ==> WordChar(s[i])) && (n < |s| ==> !WordChar(s[n]))
  {
    if s == "" || !WordChar(s[0]) then 0 else 1 + WordLen(s[1..])
  }

  datatype Token = End | Sym(c: char) | AppendSym | Word(text: string)
  datatype Lexed = Lexed(tok: Token, rest: string)

  /** gettoken: leading and trailing blanks go with the token. */
  function Gettoken(s: string): (l: Lexed)
    ensures |l.rest| <= |s|
    ensures !l.tok.End? && (forall i :: 0 <= i < |s| ==> s[i] != '\0') ==> |l.rest| < |s|
  {
    var t := Skip(s);
    if t == "" || t[0] == '\0' then Lexed(End, t)
    else if t[0] == '>' then
      if |t| > 1 && t[1] == '>' then Lexed(AppendSym, Skip(t[2..])) else Lexed(Sym('>'), Skip(t[1..]))
    else if Symbol(t[0]) then Lexed(Sym(t[0]), Skip(t[1..]))
    else Lexed(Word(t[..WordLen(t)]), Skip(t[WordLen(t)..]))
  }

  predicate Peek(s: string, toks: string) {
    var t := Skip(s);
    t != "" && t[0] != '\0' && t[0] in toks
  }

  // ----- The parser -----

  datatype Result<T> = Ok(value: T, rest: string) | Err

  datatype Redirection<T> = Redirection(file: T, mode: Mode)

  function Wrap<T>(c: Cmd<T>, rs: seq<Redirection<T>>): Cmd<T> {
    if rs == [] then c else Redir(Wrap(c, rs[..|rs| - 1]), rs[|rs| - 1].file, rs[|rs| - 1].mode)
  }

  function ModeOf(tok: Token): Mode { if tok == Sym('<') then In else if tok == Sym('>') then Out else Append }

  /** A C string holds no NUL. */
  predicate Plain(s: string) { forall i :: 0 <= i < |s| ==> s[i] != '\0' }

  lemma SkipPlain(s: string)
    requires Plain(s)
    ensures Plain(Skip(s))
  {
    if s != "" && White(s[0]) { SkipPlain(s[1..]); }
  }

  lemma TokenPlain(s: string)
    requires Plain(s)
    ensures Plain(Gettoken(s).rest)
  {
    var t := Skip(s);
    SkipPlain(s);
    if t != "" {
      SkipPlain(t[1..]);
      if |t| > 1 { SkipPlain(t[2..]); }
      SkipPlain(t[WordLen(t)..]);
    }
  }

  /** One round of parseredirs: an arrow and its file. */
  function OneRedir(s: string): (r: Result<Redirection<string>>)
    requires Plain(s)
    ensures r.Ok? ==> Plain(r.rest) && |r.rest| < |s|
  {
    var l := Gettoken(s);
    TokenPlain(s);
    var f := Gettoken(l.rest);
    TokenPlain(l.rest);
    if !f.tok.Word? then Err else Ok(Redirection(f.tok.text, ModeOf(l.tok)), f.rest)
  }

  /** parseredirs: the redirections to add to those already read. */
  function Redirs(rs: seq<Redirection<string>>, s: string): (r: Result<seq<Redirection<string>>>)
    requires Plain(s)
    ensures r.Ok? ==> Plain(r.rest) && |r.rest| <= |s|
    decreases |s|
  {
    SkipPlain(s);
    if !Peek(s, "<>") then Ok(rs, Skip(s))
    else
      var one := OneRedir(s);
      if one.Err? then Err else Redirs(rs + [one.value], one.rest)
  }

  /** No more arguments follow. */
  predicate ArgsEnd(s: string) { Peek(s, "|)&;") || Gettoken(s).tok.End? }

  datatype Arg = Arg(text: string, redirs: seq<Redirection<string>>)

  /** One round of parseexec's loop: a word and the redirections behind it. */
  function OneArg(rs: seq<Redirection<string>>, s: string): (r: Result<Arg>)
    requires Plain(s)
    ensures r.Ok? ==> Plain(r.rest) && |r.rest| < |s|
  {
    var l := Gettoken(s);
    TokenPlain(s);
    if !l.tok.Word? then Err
    else
      var more := Redirs(rs, l.rest);
      if more.Err? then Err else Ok(Arg(l.tok.text, more.value), more.rest)
  }

  /** The rest of parseexec once it has seen that no block follows. */
  function Args(argv: seq<string>, rs: seq<Redirection<string>>, s: string): (r: Result<Cmd<string>>)
    requires Plain(s)
    ensures r.Ok? ==> Plain(r.rest) && |r.rest| <= |s|
    decreases |s|
  {
    SkipPlain(s);
    if ArgsEnd(s) then Ok(Wrap(Exec(argv), rs), Skip(s))
    else
      var one := OneArg(rs, s);
      if one.Err? || |argv| + 1 >= MAXARGS then Err else Args(argv + [one.value.text], one.value.redirs, one.rest)
  }

  function ParseExec(s: string): (r: Result<Cmd<string>>)
    requires Plain(s)
    ensures r.Ok? ==> Plain(r.rest) && |r.rest| <= |s|
    decreases |s|, 1
  {
    if Peek(s, "(") then ParseBlock(s)
    else
      var rs := Redirs([], s);
      if rs.Err? then Err else Args([], rs.value, rs.rest)
  }

  function ParseBlock(s: string): (r: Result<Cmd<string>>)
    requires Plain(s) && Peek(s, "(")
    ensures r.Ok? ==> Plain(r.rest) && |r.rest| <= |s|
    decreases |s|, 0
  {
    TokenPlain(s);
    var line := ParseLine(Gettoken(s).rest);
    if line.Err? || !Peek(line.rest, ")") then Err
    else
      TokenPlain(line.rest);
      var rs := Redirs([], Gettoken(line.rest).rest);
      if rs.Err? then Err else Ok(Wrap(line.value, rs.value), rs.rest)
  }

  function ParsePipe(s: string): (r: Result<Cmd<string>>)
    requires Plain(s)
    ensures r.Ok? ==> Plain(r.rest) && |r.rest| <= |s|
    decreases |s|, 2
  {
    var e := ParseExec(s);
    if e.Err? then Err
    else if Peek(e.rest, "|") then
      TokenPlain(e.rest);
      var p := ParsePipe(Gettoken(e.rest).rest);
      if p.Err? then Err else Ok(Pipe(e.value, p.value), p.rest)
    else SkipPlain(e.rest); Ok(e.value, Skip(e.rest))
  }

  /** parseline's loop over "&". */
  function Backs(c: Cmd<string>, s: string): (r: Result<Cmd<string>>)
    requires Plain(s)
    ensures r.Ok? && Plain(r.rest) && |r.rest| <= |s|
    decreases |s|
  {
    SkipPlain(s);
    if !Peek(s, "&") then Ok(c, Skip(s)) else TokenPlain(s); Backs(Back(c), Gettoken(s).rest)
  }

  function ParseLine(s: string): (r: Result<Cmd<string>>)
    requires Plain(s)
    ensures r.Ok? ==> Plain(r.rest) && |r.rest| <= |s|
    decreases |s|, 3
  {
    var p := ParsePipe(s);
    if p.Err? then Err
    else
      var b := Backs(p.value, p.rest);
      if Peek(b.rest, ";") then
        TokenPlain(b.rest);
        var l := ParseLine(Gettoken(b.rest).rest);
        if l.Err? then Err else Ok(List(b.value, l.value), l.rest)
      else b
  }

  function ParseCmd(s: string): (r: Result<Cmd<string>>)
    requires Plain(s)
  {
    var l := ParseLine(s);
    if l.Err? || Skip(l.rest) != "" then Err else Ok(l.value, "")
  }

  // ----- Leading blanks do not matter -----

  lemma SkipIdem(s: string)
    ensures Skip(Skip(s)) == Skip(s)
    ensures Gettoken(Skip(s)) == Gettoken(s)
    ensures forall toks :: Peek(Skip(s), toks) == Peek(s, toks)
  {
  }

  lemma RedirsSkip(rs: seq<Redirection<string>>, s: string)
    requires Plain(s)
    ensures Plain(Skip(s)) && Redirs(rs, Skip(s)) == Redirs(rs, s)
  {
    SkipPlain(s);
    SkipIdem(s);
  }

  lemma ExecSkip(s: string)
    requires Plain(s)
    ensures Plain(Skip(s)) && ParseExec(Skip(s)) == ParseExec(s)
  {
    SkipPlain(s);
    SkipIdem(s);
    RedirsSkip([], s);
  }

  lemma PipeSkip(s: string)
    requires Plain(s)
    ensures Plain(Skip(s)) && ParsePipe(Skip(s)) == ParsePipe(s)
  {
    ExecSkip(s);
  }

  lemma BacksSkip(c: Cmd<string>, s: string)
    requires Plain(s)
    ensures Plain(Skip(s)) && Backs(c, Skip(s)) == Backs(c, s)
  {
    SkipPlain(s);
    SkipIdem(s);
  }

  lemma LineSkip(s: string)
    requires Plain(s)
    ensures Plain(Skip(s)) && ParseLine(Skip(s)) == ParseLine(s)
  {
    PipeSkip(s);
  }
}
