/** The shell's language as a grammar (user/sh.c): a tree of what was typed, redundant parentheses and
    the places of redirections included, the tokens it consists of, and the command it stands for.  The
    parser accepts exactly the texts that have such a tree, and gives its command. */
module ShellGrammar {
  import opened Shell
  import opened ShellText

  type Arrow = Redirection<string>

  /** A word and the redirections behind it. */
  datatype Item = Item(word: string, arrows: seq<Arrow>)

  datatype Simple = Block(line: Line, arrows: seq<Arrow>) | Words(first: seq<Arrow>, items: seq<Item>)
  datatype Pipeline = One(cmd: Simple) | Piped(cmd: Simple, rest: Pipeline)
  datatype Line = Last(pipe: Pipeline, amps: nat) | Then(pipe: Pipeline, amps: nat, rest: Line)

  // ----- What is typed -----

  function ArrowToken(m: Mode): Token {
    match m
    case In => Sym('<')
    case Out => Sym('>')
    case Append => AppendSym
  }

  // Each is followed by the tokens k.

  function ArrowTokens(arrows: seq<Arrow>, k: seq<Token>): seq<Token> {
    if arrows == [] then k
    else [ArrowToken(arrows[0].mode)] + ([Word(arrows[0].file)] + ArrowTokens(arrows[1..], k))
  }

  function ItemTokens(items: seq<Item>, k: seq<Token>): seq<Token> {
    if items == [] then k else [Word(items[0].word)] + ArrowTokens(items[0].arrows, ItemTokens(items[1..], k))
  }

  function SimpleTokens(c: Simple, k: seq<Token>): seq<Token> {
    match c
    case Block(l, arrows) => [Sym('(')] + LineTokens(l, [Sym(')')] + ArrowTokens(arrows, k))
    case Words(first, items) => ArrowTokens(first, ItemTokens(items, k))
  }

  function PipeTokens(p: Pipeline, k: seq<Token>): seq<Token> {
    match p
    case One(c) => SimpleTokens(c, k)
    case Piped(c, rest) => SimpleTokens(c, [Sym('|')] + PipeTokens(rest, k))
  }

  function Amps(n: nat, k: seq<Token>): seq<Token> { if n == 0 then k else [Sym('&')] + Amps(n - 1, k) }

  function LineTokens(l: Line, k: seq<Token>): seq<Token> {
    match l
    case Last(p, n) => PipeTokens(p, Amps(n, k))
    case Then(p, n, rest) => PipeTokens(p, Amps(n, [Sym(';')] + LineTokens(rest, k)))
  }

  // ----- What it means -----

  /** The first redirection is the innermost. */
  function Redirected(c: Cmd<string>, arrows: seq<Arrow>): Cmd<string>
    decreases |arrows|
  {
    if arrows == [] then c else Redirected(Redir(c, arrows[0].file, arrows[0].mode), arrows[1..])
  }

  function WordsOf(items: seq<Item>): (ws: seq<string>)
    ensures |ws| == |items|
  {
    if items == [] then [] else [items[0].word] + WordsOf(items[1..])
  }

  function ArrowsOf(items: seq<Item>): seq<Arrow> {
    if items == [] then [] else items[0].arrows + ArrowsOf(items[1..])
  }

  function Simply(c: Simple): Cmd<string> {
    match c
    case Block(l, arrows) => Redirected(Meaning(l), arrows)
    case Words(first, items) => Redirected(Exec(WordsOf(items)), first + ArrowsOf(items))
  }

  function Piping(p: Pipeline): Cmd<string> {
    match p
    case One(c) => Simply(c)
    case Piped(c, rest) => Pipe(Simply(c), Piping(rest))
  }

  function Backed(c: Cmd<string>, n: nat): Cmd<string> { if n == 0 then c else Back(Backed(c, n - 1)) }

  function Meaning(l: Line): Cmd<string> {
    match l
    case Last(p, n) => Backed(Piping(p), n)
    case Then(p, n, rest) => List(Backed(Piping(p), n), Meaning(rest))
  }

  /** No simple command has more than nine words. */
  predicate SimpleFits(c: Simple) {
    match c
    case Block(l, _) => Fits(l)
    case Words(_, items) => |items| <= 9
  }

  predicate PipeFits(p: Pipeline) {
    match p
    case One(c) => SimpleFits(c)
    case Piped(c, rest) => SimpleFits(c) && PipeFits(rest)
  }

  predicate Fits(l: Line) {
    match l
    case Last(p, _) => PipeFits(p)
    case Then(p, _, rest) => PipeFits(p) && Fits(rest)
  }

  // ----- Tokens one by one -----

  lemma LexHead(s: string)
    requires Plain(s)
    ensures Plain(Gettoken(s).rest) && (Gettoken(s).tok.End? <==> Lex(s) == [])
    ensures !Gettoken(s).tok.End? ==> Lex(s) == [Gettoken(s).tok] + Lex(Gettoken(s).rest)
  {
    TokenPlain(s);
  }

  lemma LexNext(s: string, t: Token, ts: seq<Token>)
    requires Plain(s) && Lex(s) == [t] + ts
    ensures Gettoken(s).tok == t && Plain(Gettoken(s).rest) && Lex(Gettoken(s).rest) == ts && !t.End?
  {
    LexHead(s);
    assert Lex(s)[0] == t && Lex(s)[1..] == ts;
  }

  /** The next token is one of the signs in toks. */
  predicate Starts(ts: seq<Token>, toks: string) { ts != [] && Peeks(ts[0], toks) }

  lemma PeekLex(s: string, toks: string)
    requires Plain(s) && forall c :: c in toks ==> Symbol(c)
    ensures Peek(s, toks) == Starts(Lex(s), toks)
  {
    LexHead(s);
    PeekToken(s, toks);
  }

  lemma SkipLex(s: string)
    requires Plain(s)
    ensures Plain(Skip(s)) && Lex(Skip(s)) == Lex(s)
  {
    SameSkip(s);
  }

  lemma {:induction false} WrapIs(c: Cmd<string>, arrows: seq<Arrow>)
    ensures Redirected(c, arrows) == Wrap(c, arrows)
    decreases |arrows|
  {
    if arrows != [] {
      WrapIs(Redir(c, arrows[0].file, arrows[0].mode), arrows[1..]);
      WrapFirst(c, arrows);
    }
  }

  lemma {:induction false} WrapFirst(c: Cmd<string>, arrows: seq<Arrow>)
    requires arrows != []
    ensures Wrap(c, arrows) == Wrap(Redir(c, arrows[0].file, arrows[0].mode), arrows[1..])
    decreases |arrows|
  {
    var n := |arrows| - 1;
    if n > 0 {
      WrapFirst(c, arrows[..n]);
      assert arrows[..n][1..] == arrows[1..][..n - 1];
    }
  }

  lemma AddWord(argv: seq<string>, rs: seq<Arrow>, items: seq<Item>)
    requires items != []
    ensures argv + [items[0].word] + WordsOf(items[1..]) == argv + WordsOf(items)
    ensures rs + items[0].arrows + ArrowsOf(items[1..]) == rs + ArrowsOf(items)
  {
    Regroup(argv, [items[0].word], WordsOf(items[1..]));
    Regroup(rs, items[0].arrows, ArrowsOf(items[1..]));
  }

  lemma Regroup<T>(a: seq<T>, b: seq<T>, c: seq<T>)
    ensures a + b + c == a + (b + c)
  {
  }

  // ----- What is accepted has a tree -----

  lemma {:induction false} SoundArrows(rs: seq<Arrow>, s: string) returns (arrows: seq<Arrow>)
    requires Plain(s) && Redirs(rs, s).Ok?
    ensures Redirs(rs, s).value == rs + arrows && Lex(s) == ArrowTokens(arrows, Lex(Redirs(rs, s).rest))
    decreases |s|
  {
    PeekLex(s, "<>");
    if !Peek(s, "<>") {
      SkipLex(s);
      arrows := [];
    } else {
      var one := OneRedir(s);
      OneArrow(s);
      var more := SoundArrows(rs + [one.value], one.rest);
      arrows := [one.value] + more;
      AddArrow(rs, one.value, more, Lex(Redirs(rs, s).rest));
    }
  }

  lemma AddArrow(rs: seq<Arrow>, a: Arrow, more: seq<Arrow>, k: seq<Token>)
    ensures rs + [a] + more == rs + ([a] + more)
    ensures ArrowTokens([a] + more, k) == [ArrowToken(a.mode)] + ([Word(a.file)] + ArrowTokens(more, k))
  {
    assert ([a] + more)[1..] == more;
  }

  lemma OneArrow(s: string)
    requires Plain(s) && Starts(Lex(s), "<>") && OneRedir(s).Ok?
    ensures var one := OneRedir(s);
      Lex(s) == [ArrowToken(one.value.mode)] + ([Word(one.value.file)] + Lex(one.rest))
  {
    LexHead(s);
    LexHead(Gettoken(s).rest);
    assert "<>" == ['<', '>'];
  }

  lemma {:induction false} SoundArgs(argv: seq<string>, rs: seq<Arrow>, s: string) returns (items: seq<Item>)
    requires Plain(s) && Args(argv, rs, s).Ok?
    ensures Args(argv, rs, s).value == Wrap(Exec(argv + WordsOf(items)), rs + ArrowsOf(items))
    ensures Lex(s) == ItemTokens(items, Lex(Args(argv, rs, s).rest))
    ensures |argv| < 10 ==> |argv| + |items| < 10
    decreases |s|
  {
    if ArgsEnd(s) {
      SkipLex(s);
      items := [];
      assert argv + [] == argv && rs + [] == rs;
    } else {
      var one := OneArg(rs, s);
      LexHead(s);
      var arrows := SoundArrows(rs, Gettoken(s).rest);
      var more := SoundArgs(argv + [one.value.text], one.value.redirs, one.rest);
      items := [Item(one.value.text, arrows)] + more;
      assert items[1..] == more;
      AddWord(argv, rs, items);
    }
  }

  lemma {:induction false} SoundSimple(s: string) returns (c: Simple)
    requires Plain(s) && ParseExec(s).Ok?
    ensures SimpleFits(c) && ParseExec(s).value == Simply(c) && Lex(s) == SimpleTokens(c, Lex(ParseExec(s).rest))
    decreases |s|, 1
  {
    if Peek(s, "(") {
      c := SoundBlock(s);
    } else {
      c := SoundWords(s);
    }
  }

  lemma SoundWords(s: string) returns (c: Simple)
    requires Plain(s) && !Peek(s, "(") && ParseExec(s).Ok?
    ensures SimpleFits(c) && ParseExec(s).value == Simply(c) && Lex(s) == SimpleTokens(c, Lex(ParseExec(s).rest))
  {
    var rs := Redirs([], s);
    var first := SoundArrows([], s);
    assert [] + first == first;
    var items := SoundArgs([], first, rs.rest);
    assert [] + WordsOf(items) == WordsOf(items);
    c := Words(first, items);
    WrapIs(Exec(WordsOf(items)), first + ArrowsOf(items));
  }

  lemma {:induction false} SoundBlock(s: string) returns (c: Simple)
    requires Plain(s) && Peek(s, "(") && ParseBlock(s).Ok?
    ensures SimpleFits(c) && ParseBlock(s).value == Simply(c) && Lex(s) == SimpleTokens(c, Lex(ParseBlock(s).rest))
    decreases |s|, 0
  {
    OneSign(s, '(');
    var inner := Gettoken(s).rest;
    var line := ParseLine(inner);
    var l := SoundLine(inner);
    OneSign(line.rest, ')');
    var arrows := SoundArrows([], Gettoken(line.rest).rest);
    assert [] + arrows == arrows;
    WrapIs(line.value, arrows);
    c := Block(l, arrows);
  }

  lemma OneSign(s: string, c: char)
    requires Plain(s) && Peek(s, [c]) && Symbol(c) && c != '>'
    ensures Plain(Gettoken(s).rest) && |Gettoken(s).rest| < |s| && Lex(s) == [Sym(c)] + Lex(Gettoken(s).rest)
  {
    PeekLex(s, [c]);
    LexHead(s);
  }

  lemma {:induction false} SoundPipe(s: string) returns (p: Pipeline)
    requires Plain(s) && ParsePipe(s).Ok?
    ensures PipeFits(p) && ParsePipe(s).value == Piping(p) && Lex(s) == PipeTokens(p, Lex(ParsePipe(s).rest))
    decreases |s|, 2
  {
    var e := ParseExec(s);
    var c := SoundSimple(s);
    if Peek(e.rest, "|") {
      OneSign(e.rest, '|');
      var rest := SoundPipe(Gettoken(e.rest).rest);
      p := Piped(c, rest);
    } else {
      SkipLex(e.rest);
      p := One(c);
    }
  }

  lemma {:induction false} SoundBacks(c: Cmd<string>, s: string) returns (n: nat)
    requires Plain(s)
    ensures Backs(c, s).value == Backed(c, n) && Lex(s) == Amps(n, Lex(Backs(c, s).rest))
    decreases |s|
  {
    if !Peek(s, "&") {
      SkipLex(s);
      n := 0;
    } else {
      OneSign(s, '&');
      var m := SoundBacks(Back(c), Gettoken(s).rest);
      BackedShift(c, m);
      n := m + 1;
    }
  }

  lemma {:induction false} BackedShift(c: Cmd<string>, n: nat)
    ensures Backed(Back(c), n) == Backed(c, n + 1)
  {
    if n > 0 { BackedShift(c, n - 1); }
  }

  lemma {:induction false} SoundLine(s: string) returns (l: Line)
    requires Plain(s) && ParseLine(s).Ok?
    ensures Fits(l) && ParseLine(s).value == Meaning(l) && Lex(s) == LineTokens(l, Lex(ParseLine(s).rest))
    decreases |s|, 3
  {
    var p := ParsePipe(s);
    var pipe := SoundPipe(s);
    var b := Backs(p.value, p.rest);
    var n := SoundBacks(p.value, p.rest);
    if Peek(b.rest, ";") {
      OneSign(b.rest, ';');
      var rest := SoundLine(Gettoken(b.rest).rest);
      l := Then(pipe, n, rest);
    } else {
      l := Last(pipe, n);
    }
  }

  // ----- What has a tree is accepted -----

  lemma {:induction false} ReadsArrows(rs: seq<Arrow>, arrows: seq<Arrow>, s: string, k: seq<Token>)
    requires Plain(s) && Lex(s) == ArrowTokens(arrows, k) && !Starts(k, "<>")
    ensures var r := Redirs(rs, s); r.Ok? && r.value == rs + arrows && Lex(r.rest) == k
    decreases |arrows|
  {
    PeekLex(s, "<>");
    if arrows == [] {
      SkipLex(s);
      assert rs + [] == rs;
    } else {
      ReadsArrow(s, arrows[0], ArrowTokens(arrows[1..], k));
      ReadsArrows(rs + [arrows[0]], arrows[1..], OneRedir(s).rest, k);
      Regroup(rs, [arrows[0]], arrows[1..]);
      assert [arrows[0]] + arrows[1..] == arrows;
    }
  }

  lemma ReadsArrow(s: string, a: Arrow, k: seq<Token>)
    requires Plain(s) && Lex(s) == [ArrowToken(a.mode)] + ([Word(a.file)] + k)
    ensures Starts(Lex(s), "<>") && OneRedir(s).Ok? && OneRedir(s).value == a && Lex(OneRedir(s).rest) == k
  {
    assert "<>" == ['<', '>'];
    LexNext(s, ArrowToken(a.mode), [Word(a.file)] + k);
    LexNext(Gettoken(s).rest, Word(a.file), k);
  }

  /** The tokens k end a simple command. */
  predicate Ends(k: seq<Token>) { k == [] || Starts(k, "|)&;") }

  lemma ItemsStart(items: seq<Item>, k: seq<Token>)
    requires Ends(k)
    ensures !Starts(ItemTokens(items, k), "<>") && !Starts(ItemTokens(items, k), "(")
    ensures items != [] ==> ItemTokens(items, k) != [] && ItemTokens(items, k)[0].Word?
  {
    assert "|)&;" == ['|', ')', '&', ';'] && "<>" == ['<', '>'] && "(" == ['('];
  }

  lemma {:induction false} ReadsArgs(argv: seq<string>, rs: seq<Arrow>, items: seq<Item>, s: string, k: seq<Token>)
    requires Plain(s) && Lex(s) == ItemTokens(items, k) && Ends(k) && |argv| + |items| < 10
    ensures var r := Args(argv, rs, s);
      r.Ok? && r.value == Wrap(Exec(argv + WordsOf(items)), rs + ArrowsOf(items)) && Lex(r.rest) == k
    decreases |items|
  {
    LexHead(s);
    PeekLex(s, "|)&;");
    ItemsStart(items, k);
    if items == [] {
      SkipLex(s);
      assert argv + [] == argv && rs + [] == rs;
    } else {
      ReadsItem(rs, items[0], s, ItemTokens(items[1..], k));
      ItemsStart(items[1..], k);
      var one := OneArg(rs, s);
      ReadsArgs(argv + [items[0].word], rs + items[0].arrows, items[1..], one.rest, k);
      AddWord(argv, rs, items);
    }
  }

  lemma ReadsItem(rs: seq<Arrow>, i: Item, s: string, k: seq<Token>)
    requires Plain(s) && Lex(s) == [Word(i.word)] + ArrowTokens(i.arrows, k) && !Starts(k, "<>")
    ensures var one := OneArg(rs, s);
      one.Ok? && one.value == Arg(i.word, rs + i.arrows) && Lex(one.rest) == k
  {
    LexNext(s, Word(i.word), ArrowTokens(i.arrows, k));
    ReadsArrows(rs, i.arrows, Gettoken(s).rest, k);
  }

  lemma ReadsSign(s: string, c: char, k: seq<Token>)
    requires Plain(s) && Lex(s) == [Sym(c)] + k && Symbol(c)
    ensures Peek(s, [c]) && Plain(Gettoken(s).rest) && Lex(Gettoken(s).rest) == k
  {
    LexNext(s, Sym(c), k);
    PeekLex(s, [c]);
  }

  lemma WordsStart(first: seq<Arrow>, items: seq<Item>, k: seq<Token>)
    requires Ends(k)
    ensures !Starts(ArrowTokens(first, ItemTokens(items, k)), "(")
  {
    ItemsStart(items, k);
    assert "(" == ['('];
  }

  lemma ReadsWords(first: seq<Arrow>, items: seq<Item>, s: string, k: seq<Token>)
    requires Plain(s) && Lex(s) == SimpleTokens(Words(first, items), k) && Ends(k) && |items| <= 9
    ensures var r := ParseExec(s); r.Ok? && r.value == Simply(Words(first, items)) && Lex(r.rest) == k
  {
    WordsStart(first, items, k);
    PeekLex(s, "(");
    ItemsStart(items, k);
    ReadsArrows([], first, s, ItemTokens(items, k));
    assert [] + first == first;
    ReadsArgs([], first, items, Redirs([], s).rest, k);
    assert [] + WordsOf(items) == WordsOf(items);
    WrapIs(Exec(WordsOf(items)), first + ArrowsOf(items));
  }

  lemma {:induction false} ReadsSimple(c: Simple, s: string, k: seq<Token>)
    requires Plain(s) && Lex(s) == SimpleTokens(c, k) && Ends(k) && SimpleFits(c)
    ensures var r := ParseExec(s); r.Ok? && r.value == Simply(c) && Lex(r.rest) == k
    decreases c
  {
    match c
    case Block(l, arrows) =>
      var k1 := ArrowTokens(arrows, k);
      ReadsSign(s, '(', LineTokens(l, [Sym(')')] + k1));
      var inner := Gettoken(s).rest;
      ReadsLine(l, inner, [Sym(')')] + k1);
      var line := ParseLine(inner);
      ReadsSign(line.rest, ')', k1);
      ItemsStart([], k);
      ReadsArrows([], arrows, Gettoken(line.rest).rest, k);
      assert [] + arrows == arrows;
      WrapIs(Meaning(l), arrows);
    case Words(first, items) => ReadsWords(first, items, s, k);
  }

  lemma {:induction false} ReadsPipe(p: Pipeline, s: string, k: seq<Token>)
    requires Plain(s) && Lex(s) == PipeTokens(p, k) && (k == [] || Starts(k, ")&;")) && PipeFits(p)
    ensures var r := ParsePipe(s); r.Ok? && r.value == Piping(p) && Lex(r.rest) == k
    decreases p
  {
    assert "|)&;" == ['|', ')', '&', ';'] && ")&;" == [')', '&', ';'] && "|" == ['|'];
    match p
    case One(c) =>
      ReadsSimple(c, s, k);
      PeekLex(ParseExec(s).rest, "|");
      SkipLex(ParseExec(s).rest);
    case Piped(c, rest) =>
      ReadsSimple(c, s, [Sym('|')] + PipeTokens(rest, k));
      ReadsSign(ParseExec(s).rest, '|', PipeTokens(rest, k));
      ReadsPipe(rest, Gettoken(ParseExec(s).rest).rest, k);
  }

  lemma {:induction false} ReadsBacks(c: Cmd<string>, n: nat, s: string, k: seq<Token>)
    requires Plain(s) && Lex(s) == Amps(n, k) && !Starts(k, "&")
    ensures Backs(c, s).value == Backed(c, n) && Lex(Backs(c, s).rest) == k
    decreases n
  {
    if n == 0 {
      PeekLex(s, "&");
      SkipLex(s);
    } else {
      ReadsSign(s, '&', Amps(n - 1, k));
      ReadsBacks(Back(c), n - 1, Gettoken(s).rest, k);
      BackedShift(c, n - 1);
    }
  }

  lemma AmpsStart(n: nat, k: seq<Token>)
    requires k == [] || Starts(k, ");")
    ensures Amps(n, k) == [] || Starts(Amps(n, k), ")&;")
    ensures !Starts(k, "&")
  {
    assert ")&;" == [')', '&', ';'] && ");" == [')', ';'] && "&" == ['&'];
  }

  lemma {:induction false} ReadsLine(l: Line, s: string, k: seq<Token>)
    requires Plain(s) && Lex(s) == LineTokens(l, k) && (k == [] || Starts(k, ")")) && Fits(l)
    ensures var r := ParseLine(s); r.Ok? && r.value == Meaning(l) && Lex(r.rest) == k
    decreases l
  {
    assert ");" == [')', ';'] && ")" == [')'] && ";" == [';'];
    match l
    case Last(p, n) =>
      AmpsStart(n, k);
      ReadsPipe(p, s, Amps(n, k));
      ReadsBacks(Piping(p), n, ParsePipe(s).rest, k);
      PeekLex(Backs(Piping(p), ParsePipe(s).rest).rest, ";");
    case Then(p, n, rest) =>
      var k1 := [Sym(';')] + LineTokens(rest, k);
      AmpsStart(n, k1);
      ReadsPipe(p, s, Amps(n, k1));
      ReadsBacks(Piping(p), n, ParsePipe(s).rest, k1);
      var b := Backs(Piping(p), ParsePipe(s).rest);
      ReadsSign(b.rest, ';', LineTokens(rest, k));
      ReadsLine(rest, Gettoken(b.rest).rest, k);
  }

  // ----- The language -----

  predicate HasTree(s: string, l: Line)
    requires Plain(s)
  {
    Fits(l) && Lex(s) == LineTokens(l, [])
  }

  /** The parser gives t for exactly the texts that have a tree that means t. */
  lemma AcceptsIff(s: string, t: Cmd<string>)
    requires Plain(s)
    ensures ParseCmd(s) == Ok(t, "") <==> exists l :: HasTree(s, l) && Meaning(l) == t
  {
    if ParseCmd(s) == Ok(t, "") {
      var l := SoundLine(s);
      NothingLeft(ParseLine(s).rest);
      assert HasTree(s, l);
    }
    if exists l :: HasTree(s, l) && Meaning(l) == t {
      var l :| HasTree(s, l) && Meaning(l) == t;
      ReadsLine(l, s, []);
      NothingLeft(ParseLine(s).rest);
    }
  }

  /** It panics exactly on the texts that have none. */
  lemma RefusesIff(s: string)
    requires Plain(s)
    ensures ParseCmd(s).Err? <==> forall l :: !HasTree(s, l)
  {
    if ParseCmd(s).Ok? {
      AcceptsIff(s, ParseCmd(s).value);
    } else {
      forall l ensures !HasTree(s, l) { AcceptsIff(s, Meaning(l)); }
    }
  }
}
