/** user/sh.c: the parser on the input buffer.  A position plays *ps; words are places in the
    buffer, as argv/eargv and file/efile are.  None is a panic. */
module ShellParser {
  import opened Shell
  import opened ShellText
  import opened Options

  datatype Span = Span(start: nat, end: nat)

  /** A maximal run of word characters. */
  ghost predicate GoodSpan(buf: string, w: Span) {
    && w.start < w.end <= |buf| && (forall i :: w.start <= i < w.end ==> WordChar(buf[i]))
    && (w.end < |buf| ==> !WordChar(buf[w.end]))
  }

  function Cut(buf: string, w: Span): string { if w.start <= w.end <= |buf| then buf[w.start..w.end] else "" }

  function CutAll(buf: string, ws: seq<Span>): (r: seq<string>)
    ensures |r| == |ws|
  {
    if ws == [] then [] else CutAll(buf, ws[..|ws| - 1]) + [Cut(buf, ws[|ws| - 1])]
  }

  function Text(buf: string, c: Cmd<Span>): Cmd<string> {
    match c
    case Exec(argv) => Exec(CutAll(buf, argv))
    case Redir(d, f, m) => Redir(Text(buf, d), Cut(buf, f), m)
    case Pipe(l, r) => Pipe(Text(buf, l), Text(buf, r))
    case List(l, r) => List(Text(buf, l), Text(buf, r))
    case Back(d) => Back(Text(buf, d))
  }

  function TextRedirs(buf: string, rs: seq<Redirection<Span>>): (r: seq<Redirection<string>>)
    ensures |r| == |rs|
  {
    if rs == [] then []
    else TextRedirs(buf, rs[..|rs| - 1]) + [Redirection(Cut(buf, rs[|rs| - 1].file), rs[|rs| - 1].mode)]
  }

  ghost predicate GoodSpans(buf: string, c: Cmd<Span>) {
    match c
    case Exec(argv) => forall i :: 0 <= i < |argv| ==> GoodSpan(buf, argv[i])
    case Redir(d, f, _) => GoodSpans(buf, d) && GoodSpan(buf, f)
    case Pipe(l, r) => GoodSpans(buf, l) && GoodSpans(buf, r)
    case List(l, r) => GoodSpans(buf, l) && GoodSpans(buf, r)
    case Back(d) => GoodSpans(buf, d)
  }

  ghost predicate GoodRedirs(buf: string, rs: seq<Redirection<Span>>) {
    forall i :: 0 <= i < |rs| ==> GoodSpan(buf, rs[i].file)
  }

  lemma {:induction false} WrapText(buf: string, c: Cmd<Span>, rs: seq<Redirection<Span>>)
    requires GoodSpans(buf, c) && GoodRedirs(buf, rs)
    ensures Text(buf, Wrap(c, rs)) == Wrap(Text(buf, c), TextRedirs(buf, rs)) && GoodSpans(buf, Wrap(c, rs))
    decreases rs
  {
    if rs != [] {
      var t := TextRedirs(buf, rs);
      assert t[..|t| - 1] == TextRedirs(buf, rs[..|rs| - 1]);
      WrapText(buf, c, rs[..|rs| - 1]);
    }
  }

  lemma CutAllSnoc(buf: string, ws: seq<Span>, w: Span)
    ensures CutAll(buf, ws + [w]) == CutAll(buf, ws) + [Cut(buf, w)]
  {
    assert (ws + [w])[..|ws|] == ws;
  }

  lemma TextRedirsSnoc(buf: string, rs: seq<Redirection<Span>>, f: Span, m: Mode)
    ensures TextRedirs(buf, rs + [Redirection(f, m)]) == TextRedirs(buf, rs) + [Redirection(Cut(buf, f), m)]
  {
    assert (rs + [Redirection(f, m)])[..|rs|] == rs;
  }

  // ----- Tokens -----

  /** gettoken's return value. */
  function Code(t: Token): char {
    match t
    case End => '\0'
    case Sym(c) => c
    case AppendSym => '+'
    case Word(_) => 'a'
  }

  lemma {:induction false} SkipAt(buf: string, i: nat, j: nat)
    requires i <= j <= |buf| && (forall k :: i <= k < j ==> White(buf[k])) && (j < |buf| ==> !White(buf[j]))
    ensures Skip(buf[i..]) == buf[j..]
    decreases j - i
  {
    if i < j {
      assert buf[i..][1..] == buf[i + 1..];
      SkipAt(buf, i + 1, j);
    }
  }

  method SkipBlanks(buf: string, pos: nat) returns (s: nat)
    requires pos <= |buf|
    ensures pos <= s <= |buf| && buf[s..] == Skip(buf[pos..])
    ensures (forall k :: pos <= k < s ==> White(buf[k])) && (s < |buf| ==> !White(buf[s]))
  {
    s := pos;
    while s < |buf| && White(buf[s])
      invariant pos <= s <= |buf| && forall k :: pos <= k < s ==> White(buf[k])
    {
      s := s + 1;
    }
    SkipAt(buf, pos, s);
  }

  lemma {:induction false} WordLenAt(buf: string, i: nat, j: nat)
    requires i <= j <= |buf| && (forall k :: i <= k < j ==> WordChar(buf[k])) && (j < |buf| ==> !WordChar(buf[j]))
    ensures WordLen(buf[i..]) == j - i
    decreases j - i
  {
    if i < j {
      assert buf[i..][1..] == buf[i + 1..];
      WordLenAt(buf, i + 1, j);
    }
  }

  method ScanWord(buf: string, pos: nat) returns (s: nat)
    requires pos <= |buf| && Plain(buf)
    ensures pos <= s <= |buf| && WordLen(buf[pos..]) == s - pos
    ensures (forall k :: pos <= k < s ==> WordChar(buf[k])) && (s < |buf| ==> !WordChar(buf[s]))
  {
    s := pos;
    while s < |buf| && !White(buf[s]) && !Symbol(buf[s])
      invariant pos <= s <= |buf| && forall k :: pos <= k < s ==> WordChar(buf[k])
    {
      s := s + 1;
    }
    WordLenAt(buf, pos, s);
  }

  /** gettoken, character by character: blanks, the token at w, blanks.  A word ends exactly at a blank, a
      sign or the end. */
  ghost predicate TokenAtPlace(buf: string, pos: nat, ret: char, w: Span, next: nat) {
    && pos <= w.start <= w.end <= next <= |buf|
    && (forall k :: pos <= k < w.start ==> Blank(buf[k])) && (w.start < |buf| ==> !Blank(buf[w.start]))
    && (forall k :: w.end <= k < next ==> Blank(buf[k])) && (next < |buf| ==> !Blank(buf[next]))
    && if w.start == |buf| then ret == '\0'
       else if buf[w.start] == '>' && w.start + 1 < |buf| && buf[w.start + 1] == '>' then
         ret == '+' && w.end == w.start + 2
       else if Sign(buf[w.start]) then ret == buf[w.start] && w.end == w.start + 1
       else
         && ret == 'a' && w.start < w.end && (forall k :: w.start <= k < w.end ==> !Blank(buf[k]) && !Sign(buf[k]))
         && (w.end < |buf| ==> Blank(buf[w.end]) || Sign(buf[w.end]))
  }

  lemma AllCharacters(buf: string)
    ensures forall k :: 0 <= k < |buf| ==> (White(buf[k]) <==> Blank(buf[k])) && (Symbol(buf[k]) <==> Sign(buf[k]))
    ensures forall k :: 0 <= k < |buf| ==> (WordChar(buf[k]) <==> !Blank(buf[k]) && !Sign(buf[k]) && buf[k] != '\0')
  {
    forall k | 0 <= k < |buf|
      ensures (White(buf[k]) <==> Blank(buf[k])) && (Symbol(buf[k]) <==> Sign(buf[k]))
      ensures WordChar(buf[k]) <==> !Blank(buf[k]) && !Sign(buf[k]) && buf[k] != '\0'
    {
      Characters(buf[k]);
    }
  }

  /** The token at pos, its place, and the position after it and the blanks behind it. */
  method Token(buf: string, pos: nat) returns (ret: char, w: Span, next: nat)
    requires pos <= |buf| && Plain(buf)
    ensures TokenAtPlace(buf, pos, ret, w, next)
    ensures pos <= next <= |buf| && (ret != '\0' ==> pos < next)
    ensures var l := Gettoken(buf[pos..]);
      && ret == Code(l.tok) && buf[next..] == l.rest
      && (l.tok.Word? <==> ret == 'a') && (ret == 'a' ==> GoodSpan(buf, w) && Cut(buf, w) == l.tok.text)
  {
    var s := SkipBlanks(buf, pos);
    if s == |buf| {
      AllCharacters(buf);
      return '\0', Span(s, s), s;
    }
    var e;
    ret, e := ScanToken(buf, s);
    w := Span(s, e);
    next := SkipBlanks(buf, e);
    TokenPlace(buf, pos, ret, w, next);
    TokenAt(buf, pos, s, e, next);
  }

  /** What gettoken finds at q, and where it ends. */
  ghost predicate Scanned(buf: string, q: nat, s: nat, ret: char) {
    && q < s <= |buf|
    && if buf[q] == '>' then
         var two := q + 1 < |buf| && buf[q + 1] == '>';
         s == q + (if two then 2 else 1) && ret == if two then '+' else '>'
       else if Symbol(buf[q]) then s == q + 1 && ret == buf[q]
       else
         && ret == 'a' && WordLen(buf[q..]) == s - q
         && (forall k :: q <= k < s ==> WordChar(buf[k])) && (s < |buf| ==> !WordChar(buf[s]))
  }

  /** gettoken's switch. */
  method ScanToken(buf: string, q: nat) returns (ret: char, s: nat)
    requires q < |buf| && Plain(buf) && !White(buf[q])
    ensures Scanned(buf, q, s, ret)
  {
    s := q;
    ret := buf[s];
    if buf[s] == '>' {
      s := s + 1;
      if s < |buf| && buf[s] == '>' {
        ret := '+';
        s := s + 1;
      }
    } else if Symbol(buf[s]) {
      s := s + 1;
    } else {
      ret := 'a';
      s := ScanWord(buf, s);
    }
  }

  lemma TokenPlace(buf: string, pos: nat, ret: char, w: Span, next: nat)
    requires pos <= w.start < w.end <= next <= |buf| && Plain(buf) && Scanned(buf, w.start, w.end, ret)
    requires (forall k :: pos <= k < w.start ==> White(buf[k])) && !White(buf[w.start])
    requires (forall k :: w.end <= k < next ==> White(buf[k])) && (next < |buf| ==> !White(buf[next]))
    ensures TokenAtPlace(buf, pos, ret, w, next)
  {
    AllCharacters(buf);
  }

  /** What gettoken's cases come to. */
  lemma TokenAt(buf: string, pos: nat, q: nat, s: nat, next: nat)
    requires pos <= q < s <= next <= |buf| && Plain(buf) && buf[q..] == Skip(buf[pos..])
    requires buf[next..] == Skip(buf[s..]) && !White(buf[q])
    requires if buf[q] == '>' then s == q + (if q + 1 < |buf| && buf[q + 1] == '>' then 2 else 1)
             else if Symbol(buf[q]) then s == q + 1
             else WordLen(buf[q..]) == s - q
    ensures var l := Gettoken(buf[pos..]);
      && l.rest == buf[next..]
      && l.tok == if buf[q] == '>' then (if s == q + 2 then AppendSym else Sym('>'))
                  else if Symbol(buf[q]) then Sym(buf[q])
                  else Word(buf[q..s])
  {
    var t := buf[q..];
    SkipIdem(buf[pos..]);
    assert t[0] == buf[q] && t[s - q..] == buf[s..] && t[..s - q] == buf[q..s];
    if buf[q] == '>' {
      if q + 1 < |buf| { assert t[1] == buf[q + 1]; }
      ArrowRead(t, s - q);
    } else if Symbol(buf[q]) {
      assert Gettoken(t) == Lexed(Sym(t[0]), Skip(t[1..]));
    } else {
      assert Gettoken(t) == Lexed(Word(t[..s - q]), Skip(t[s - q..]));
    }
  }

  lemma ArrowRead(t: string, n: nat)
    requires t != "" && t[0] == '>' && n == if |t| > 1 && t[1] == '>' then 2 else 1
    ensures Gettoken(t) == Lexed(if n == 2 then AppendSym else Sym('>'), Skip(t[n..]))
  {
  }

  method PeekAt(buf: string, pos: nat, toks: string) returns (b: bool, next: nat)
    requires pos <= |buf| && Plain(buf)
    ensures pos <= next <= |buf| && buf[next..] == Skip(buf[pos..]) && b == Peek(buf[pos..], toks)
    ensures (forall k :: pos <= k < next ==> Blank(buf[k])) && (next < |buf| ==> !Blank(buf[next]))
    ensures b <==> next < |buf| && buf[next] in toks
  {
    AllCharacters(buf);
    next := SkipBlanks(buf, pos);
    b := next < |buf| && buf[next] in toks;
  }

  // ----- The parse functions -----

  datatype Parsed = Parsed(cmd: Cmd<Span>, next: nat)

  /** A parse at pos agrees with what the specification makes of the rest of the buffer. */
  ghost predicate Agrees(buf: string, pos: nat, r: Option<Parsed>, spec: Result<Cmd<string>>) {
    match r
    case None => spec.Err?
    case Some(p) =>
      && pos <= p.next <= |buf| && spec.Ok? && Text(buf, p.cmd) == spec.value && buf[p.next..] == spec.rest
      && GoodSpans(buf, p.cmd)
  }

  lemma SuffixPlain(buf: string, pos: nat)
    requires Plain(buf) && pos <= |buf|
    ensures Plain(buf[pos..])
  {
  }

  /** One redirection of parseredirs. */
  method ParseRedir(buf: string, pos: nat) returns (ok: bool, r: Redirection<Span>, next: nat)
    requires Plain(buf) && pos <= |buf| && Peek(buf[pos..], "<>")
    ensures pos < next <= |buf| && Plain(buf[pos..])
    ensures ok <==> OneRedir(buf[pos..]).Ok?
    ensures ok ==> OneRedir(buf[pos..]) == Ok(Redirection(Cut(buf, r.file), r.mode), buf[next..])
    ensures ok ==> GoodSpan(buf, r.file)
  {
    SuffixPlain(buf, pos);
    ArrowToken(buf[pos..]);
    var tok, w, mid := Token(buf, pos);
    var ret;
    ret, w, next := Token(buf, mid);
    ok := ret == 'a';
    r := Redirection(w, CodeMode(tok));
  }

  function CodeMode(c: char): Mode { if c == '<' then In else if c == '>' then Out else Append }

  lemma ArrowToken(s: string)
    requires Peek(s, "<>")
    ensures Code(Gettoken(s).tok) != '\0' && CodeMode(Code(Gettoken(s).tok)) == ModeOf(Gettoken(s).tok)
  {
  }

  /** parseredirs adds to the redirections rs. */
  method ParseRedirs(buf: string, pos: nat, rs: seq<Redirection<Span>>)
    returns (ok: bool, all: seq<Redirection<Span>>, next: nat)
    requires Plain(buf) && pos <= |buf| && GoodRedirs(buf, rs)
    ensures pos <= next <= |buf| && Plain(buf[pos..])
    ensures ok <==> Redirs(TextRedirs(buf, rs), buf[pos..]).Ok?
    ensures ok ==> Redirs(TextRedirs(buf, rs), buf[pos..]) == Ok(TextRedirs(buf, all), buf[next..])
    ensures ok ==> GoodRedirs(buf, all)
  {
    all := rs;
    SuffixPlain(buf, pos);
    var more;
    more, next := PeekAt(buf, pos, "<>");
    RedirsSkip(TextRedirs(buf, rs), buf[pos..]);
    SkipIdem(buf[pos..]);
    while more
      invariant pos <= next <= |buf| && GoodRedirs(buf, all) && Plain(buf[next..])
      invariant more == Peek(buf[next..], "<>") && Skip(buf[next..]) == buf[next..]
      invariant Redirs(TextRedirs(buf, rs), buf[pos..]) == Redirs(TextRedirs(buf, all), buf[next..])
      decreases |buf| - next
    {
      var r, at;
      ok, r, at := ParseRedir(buf, next);
      if !ok { return false, all, at; }
      TextRedirsSnoc(buf, all, r.file, r.mode);
      all := all + [r];
      SuffixPlain(buf, at);
      more, next := PeekAt(buf, at, "<>");
      RedirsSkip(TextRedirs(buf, all), buf[at..]);
      SkipIdem(buf[at..]);
    }
    ok := true;
  }

  ghost predicate GoodArgs(buf: string, argv: seq<Span>) { forall i :: 0 <= i < |argv| ==> GoodSpan(buf, argv[i]) }

  /** One argument and the redirections behind it; end tells that none follows. */
  method ParseArg(buf: string, pos: nat, rs: seq<Redirection<Span>>)
    returns (end: bool, ok: bool, w: Span, all: seq<Redirection<Span>>, next: nat)
    requires Plain(buf) && pos <= |buf| && GoodRedirs(buf, rs)
    ensures Plain(buf[pos..]) && pos <= next <= |buf| && end == ArgsEnd(buf[pos..])
    ensures end ==> buf[next..] == Skip(buf[pos..])
    ensures !end ==> (ok <==> OneArg(TextRedirs(buf, rs), buf[pos..]).Ok?)
    ensures !end && ok ==>
      OneArg(TextRedirs(buf, rs), buf[pos..]) == Ok(Arg(Cut(buf, w), TextRedirs(buf, all)), buf[next..])
    ensures !end && ok ==> pos < next && GoodSpan(buf, w) && GoodRedirs(buf, all)
  {
    SuffixPlain(buf, pos);
    w, all, ok := Span(0, 0), rs, false;
    end, next := PeekAt(buf, pos, "|)&;");
    if end { return; }
    SkipIdem(buf[pos..]);
    var tok, after;
    tok, w, after := Token(buf, next);
    if tok == '\0' { return true, true, w, rs, next; }
    if tok != 'a' { return false, false, w, rs, next; }
    ok, all, next := ParseRedirs(buf, after, rs);
  }

  /** parseexec's loop over the arguments. */
  method ParseArgs(buf: string, pos: nat, rs: seq<Redirection<Span>>) returns (r: Option<Parsed>)
    requires Plain(buf) && pos <= |buf| && GoodRedirs(buf, rs)
    ensures Plain(buf[pos..]) && Agrees(buf, pos, r, Args([], TextRedirs(buf, rs), buf[pos..]))
  {
    SuffixPlain(buf, pos);
    var argv, all, next := [], rs, pos;
    while true
      invariant pos <= next <= |buf| && GoodRedirs(buf, all) && GoodArgs(buf, argv) && Plain(buf[next..])
      invariant |argv| < MAXARGS
      invariant Args([], TextRedirs(buf, rs), buf[pos..]) == Args(CutAll(buf, argv), TextRedirs(buf, all), buf[next..])
      decreases |buf| - next
    {
      var end, ok, w, more, at := ParseArg(buf, next, all);
      if end {
        WrapText(buf, Exec(argv), all);
        return Some(Parsed(Wrap(Exec(argv), all), at));
      }
      CutAllSnoc(buf, argv, w);
      argv := argv + [w];
      if !ok || |argv| >= MAXARGS { return None; }
      all, next := more, at;
      SuffixPlain(buf, next);
    }
  }

  method ParseExecAt(buf: string, pos: nat) returns (r: Option<Parsed>)
    requires Plain(buf) && pos <= |buf|
    ensures Plain(buf[pos..]) && Agrees(buf, pos, r, ParseExec(buf[pos..]))
    decreases |buf| - pos, 1
  {
    SuffixPlain(buf, pos);
    var block, at := PeekAt(buf, pos, "(");
    ExecSkip(buf[pos..]);
    SkipIdem(buf[pos..]);
    if block {
      r := ParseBlockAt(buf, at);
      return;
    }
    var ok, rs, next := ParseRedirs(buf, at, []);
    if !ok { return None; }
    r := ParseArgs(buf, next, rs);
  }

  method ParseBlockAt(buf: string, pos: nat) returns (r: Option<Parsed>)
    requires Plain(buf) && pos <= |buf| && Plain(buf[pos..]) && Peek(buf[pos..], "(")
    ensures Agrees(buf, pos, r, ParseBlock(buf[pos..]))
    decreases |buf| - pos, 0
  {
    var tok, w, next := Token(buf, pos);
    var line := ParseLineAt(buf, next);
    if line.None? { return None; }
    var closed, at := PeekAt(buf, line.value.next, ")");
    if !closed { return None; }
    SuffixPlain(buf, line.value.next);
    SkipIdem(buf[line.value.next..]);
    tok, w, next := Token(buf, at);
    SuffixPlain(buf, next);
    var ok, rs;
    ok, rs, next := ParseRedirs(buf, next, []);
    if !ok { return None; }
    WrapText(buf, line.value.cmd, rs);
    r := Some(Parsed(Wrap(line.value.cmd, rs), next));
  }

  method ParsePipeAt(buf: string, pos: nat) returns (r: Option<Parsed>)
    requires Plain(buf) && pos <= |buf|
    ensures Plain(buf[pos..]) && Agrees(buf, pos, r, ParsePipe(buf[pos..]))
    decreases |buf| - pos, 2
  {
    SuffixPlain(buf, pos);
    r := ParseExecAt(buf, pos);
    if r.None? { return; }
    var more, at := PeekAt(buf, r.value.next, "|");
    SuffixPlain(buf, r.value.next);
    SkipIdem(buf[r.value.next..]);
    if !more { return Some(r.value.(next := at)); }
    var tok, w, next := Token(buf, at);
    SuffixPlain(buf, next);
    var p := ParsePipeAt(buf, next);
    if p.None? { return None; }
    r := Some(Parsed(Pipe(r.value.cmd, p.value.cmd), p.value.next));
  }

  /** parseline's loop over "&". */
  method ParseBacks(buf: string, c: Cmd<Span>, pos: nat) returns (d: Cmd<Span>, next: nat)
    requires Plain(buf) && pos <= |buf| && GoodSpans(buf, c)
    ensures Plain(buf[pos..]) && Agrees(buf, pos, Some(Parsed(d, next)), Backs(Text(buf, c), buf[pos..]))
  {
    SuffixPlain(buf, pos);
    d := c;
    var more;
    more, next := PeekAt(buf, pos, "&");
    BacksSkip(Text(buf, c), buf[pos..]);
    SkipIdem(buf[pos..]);
    while more
      invariant pos <= next <= |buf| && Plain(buf[next..]) && GoodSpans(buf, d)
      invariant more == Peek(buf[next..], "&") && Skip(buf[next..]) == buf[next..]
      invariant Backs(Text(buf, c), buf[pos..]) == Backs(Text(buf, d), buf[next..])
      decreases |buf| - next
    {
      var tok, w, at := Token(buf, next);
      d := Back(d);
      SuffixPlain(buf, at);
      more, next := PeekAt(buf, at, "&");
      BacksSkip(Text(buf, d), buf[at..]);
      SkipIdem(buf[at..]);
    }
  }

  method ParseLineAt(buf: string, pos: nat) returns (r: Option<Parsed>)
    requires Plain(buf) && pos <= |buf|
    ensures Plain(buf[pos..]) && Agrees(buf, pos, r, ParseLine(buf[pos..]))
    decreases |buf| - pos, 3
  {
    SuffixPlain(buf, pos);
    r := ParsePipeAt(buf, pos);
    if r.None? { return; }
    var c, at := ParseBacks(buf, r.value.cmd, r.value.next);
    SuffixPlain(buf, at);
    var more, semi := PeekAt(buf, at, ";");
    SkipIdem(buf[at..]);
    BacksRest(Text(buf, r.value.cmd), buf[r.value.next..]);
    if !more { return Some(Parsed(c, at)); }
    var tok, w, next := Token(buf, semi);
    SuffixPlain(buf, next);
    var l := ParseLineAt(buf, next);
    if l.None? { return None; }
    r := Some(Parsed(List(c, l.value.cmd), l.value.next));
  }

  lemma {:induction false} BacksRest(c: Cmd<string>, s: string)
    requires Plain(s)
    ensures Skip(Backs(c, s).rest) == Backs(c, s).rest
    decreases |s|
  {
    SkipIdem(s);
    if Peek(s, "&") {
      TokenPlain(s);
      BacksRest(Back(c), Gettoken(s).rest);
    }
  }

  /** parsecmd up to nulterminate: the command whose words are places in the buffer. */
  method Parse(buf: string) returns (r: Option<Cmd<Span>>)
    requires Plain(buf)
    ensures r.None? <==> ParseCmd(buf).Err?
    ensures r.Some? ==> ParseCmd(buf) == Ok(Text(buf, r.value), "") && GoodSpans(buf, r.value)
  {
    assert buf[0..] == buf;
    var l := ParseLineAt(buf, 0);
    if l.None? { return None; }
    var b, end := PeekAt(buf, l.value.next, "");
    if end != |buf| { return None; }
    r := Some(l.value.cmd);
  }

  // ----- nulterminate -----

  /** The C string that starts at i. */
  function CString(s: seq<char>, i: nat): string
    decreases |s| - i
  {
    if i < |s| && s[i] != '\0' then [s[i]] + CString(s, i + 1) else ""
  }

  function CStrings(s: seq<char>, ws: seq<Span>): (r: seq<string>)
    ensures |r| == |ws|
  {
    if ws == [] then [] else CStrings(s, ws[..|ws| - 1]) + [CString(s, ws[|ws| - 1].start)]
  }

  /** The command as runcmd sees it: every word the C string at its place. */
  function CText(s: seq<char>, c: Cmd<Span>): Cmd<string> {
    match c
    case Exec(argv) => Exec(CStrings(s, argv))
    case Redir(d, f, m) => Redir(CText(s, d), CString(s, f.start), m)
    case Pipe(l, r) => Pipe(CText(s, l), CText(s, r))
    case List(l, r) => List(CText(s, l), CText(s, r))
    case Back(d) => Back(CText(s, d))
  }

  /** Word characters are untouched, and what is NUL in s is NUL in t. */
  ghost predicate Keeps(buf: string, s: seq<char>, t: seq<char>) {
    && |s| == |t| == |buf| + 1
    && (forall i :: 0 <= i < |buf| && WordChar(buf[i]) ==> t[i] == buf[i])
    && (forall i :: 0 <= i < |s| && s[i] == '\0' ==> t[i] == '\0')
  }

  /** Every word of c ends in a NUL. */
  ghost predicate Ended(s: seq<char>, c: Cmd<Span>) {
    match c
    case Exec(argv) => forall i :: 0 <= i < |argv| ==> argv[i].end < |s| && s[argv[i].end] == '\0'
    case Redir(d, f, _) => Ended(s, d) && f.end < |s| && s[f.end] == '\0'
    case Pipe(l, r) => Ended(s, l) && Ended(s, r)
    case List(l, r) => Ended(s, l) && Ended(s, r)
    case Back(d) => Ended(s, d)
  }

  lemma {:induction false} EndedStays(buf: string, s: seq<char>, t: seq<char>, c: Cmd<Span>)
    requires Keeps(buf, s, t) && Ended(s, c)
    ensures Ended(t, c)
    decreases c
  {
    match c
    case Exec(_) =>
    case Redir(d, _, _) => EndedStays(buf, s, t, d);
    case Pipe(l, r) => EndedStays(buf, s, t, l); EndedStays(buf, s, t, r);
    case List(l, r) => EndedStays(buf, s, t, l); EndedStays(buf, s, t, r);
    case Back(d) => EndedStays(buf, s, t, d);
  }

  lemma {:induction false} CStringIs(buf: string, s: seq<char>, i: nat, e: nat)
    requires |s| == |buf| + 1 && i <= e <= |buf| && s[e] == '\0'
    requires forall k :: i <= k < e ==> WordChar(buf[k]) && s[k] == buf[k]
    ensures CString(s, i) == buf[i..e]
    decreases e - i
  {
    if i < e {
      CStringIs(buf, s, i + 1, e);
      assert buf[i..e] == [buf[i]] + buf[i + 1..e];
    }
  }

  lemma WordIs(buf: string, s: seq<char>, w: Span)
    requires Keeps(buf, s, s) && GoodSpan(buf, w) && s[w.end] == '\0'
    ensures CString(s, w.start) == Cut(buf, w)
  {
    CStringIs(buf, s, w.start, w.end);
  }

  lemma {:induction false} WordsAre(buf: string, s: seq<char>, ws: seq<Span>)
    requires Keeps(buf, s, s) && forall i :: 0 <= i < |ws| ==> GoodSpan(buf, ws[i]) && s[ws[i].end] == '\0'
    ensures CStrings(s, ws) == CutAll(buf, ws)
    decreases ws
  {
    if ws != [] {
      WordsAre(buf, s, ws[..|ws| - 1]);
      WordIs(buf, s, ws[|ws| - 1]);
    }
  }

  lemma {:induction false} TextIs(buf: string, s: seq<char>, c: Cmd<Span>)
    requires Keeps(buf, s, s) && GoodSpans(buf, c) && Ended(s, c)
    ensures CText(s, c) == Text(buf, c)
    decreases c
  {
    match c
    case Exec(argv) => WordsAre(buf, s, argv);
    case Redir(d, f, _) => TextIs(buf, s, d); WordIs(buf, s, f);
    case Pipe(l, r) => TextIs(buf, s, l); TextIs(buf, s, r);
    case List(l, r) => TextIs(buf, s, l); TextIs(buf, s, r);
    case Back(d) => TextIs(buf, s, d);
  }

  /** Write a NUL behind every word. */
  method Nulterminate(a: array<char>, c: Cmd<Span>, ghost buf: string)
    requires Keeps(buf, a[..], a[..]) && GoodSpans(buf, c)
    modifies a
    ensures Keeps(buf, old(a[..]), a[..]) && Ended(a[..], c)
    decreases c
  {
    match c
    case Exec(argv) =>
      var i := 0;
      while i < |argv|
        invariant i <= |argv| && Keeps(buf, old(a[..]), a[..])
        invariant forall j :: 0 <= j < i ==> a[argv[j].end] == '\0'
      {
        a[argv[i].end] := '\0';
        i := i + 1;
      }
    case Redir(d, f, _) =>
      Nulterminate(a, d, buf);
      ghost var mid := a[..];
      a[f.end] := '\0';
      EndedStays(buf, mid, a[..], d);
    case Pipe(l, r) =>
      Nulterminate(a, l, buf);
      ghost var mid := a[..];
      Nulterminate(a, r, buf);
      EndedStays(buf, mid, a[..], l);
    case List(l, r) =>
      Nulterminate(a, l, buf);
      ghost var mid := a[..];
      Nulterminate(a, r, buf);
      EndedStays(buf, mid, a[..], l);
    case Back(d) => Nulterminate(a, d, buf);
  }

  /** parsecmd on a NUL-terminated buffer: a syntax error, or the command of the text, every word
      of which is now a C string equal to its token. */
  method ParseCommand(a: array<char>) returns (r: Option<Cmd<Span>>)
    requires a.Length > 0 && a[a.Length - 1] == '\0' && Plain(a[..a.Length - 1])
    modifies a
    ensures r.None? <==> ParseCmd(old(a[..a.Length - 1])).Err?
    ensures r.None? ==> a[..] == old(a[..])
    ensures r.Some? ==> ParseCmd(old(a[..a.Length - 1])) == Ok(CText(a[..], r.value), "")
    ensures Understood(old(a[..a.Length - 1]), if r.Some? then Some(CText(a[..], r.value)) else None)
  {
    var buf := a[..a.Length - 1];
    forall t | Means(buf, t) ensures ParseCmd(buf) == Ok(t, "") { MeansOne(buf, t); }
    r := Parse(buf);
    if r.Some? {
      Nulterminate(a, r.value, buf);
      TextIs(buf, a[..], r.value);
    }
  }
}
