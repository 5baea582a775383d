/** user/grep.c: the matcher, and what a pattern means without reference to how it is matched. */
module Grep {
  // ----- What a pattern means -----

  datatype Item = Atom(c: char) | Star(c: char) | AtEnd

  /** A pattern after its leading "^": "$" is an anchor only as the last character. */
  function Items(re: string): seq<Item> {
    if re == "" then []
    else if |re| >= 2 && re[1] == '*' then [Star(re[0])] + Items(re[2..])
    else if re == "$" then [AtEnd]
    else [Atom(re[0])] + Items(re[1..])
  }

  predicate Fits(c: char, x: char) { c == '.' || c == x }

  /** The strings an item stands for; last tells that the text ends there. */
  predicate Piece(item: Item, p: string, last: bool) {
    match item
    case Atom(c) => |p| == 1 && Fits(c, p[0])
    case Star(c) => forall k :: 0 <= k < |p| ==> Fits(c, p[k])
    case AtEnd => p == "" && last
  }

  function Concat(ps: seq<string>): string { if ps == [] then "" else ps[0] + Concat(ps[1..]) }

  /** u is made of one piece for each item. */
  ghost predicate Denotes(items: seq<Item>, u: string, last: bool) {
    exists ps: seq<string> :: MadeOf(items, ps, u, last)
  }

  ghost predicate MadeOf(items: seq<Item>, ps: seq<string>, u: string, last: bool) {
    |ps| == |items| && Concat(ps) == u && forall k :: 0 <= k < |items| ==> Piece(items[k], ps[k], last)
  }

  /** Some prefix of text is in the meaning. */
  ghost predicate Begins(items: seq<Item>, text: string) {
    exists j :: 0 <= j <= |text| && Denotes(items, text[..j], j == |text|)
  }

  // ----- The matcher -----

  predicate MatchHere(re: string, text: string)
    decreases |re|, |text|, 0
  {
    if re == "" then true
    else if |re| >= 2 && re[1] == '*' then MatchStar(re[0], re[2..], text)
    else if re == "$" then text == ""
    else text != "" && Fits(re[0], text[0]) && MatchHere(re[1..], text[1..])
  }

  predicate MatchStar(c: char, re: string, text: string)
    decreases |re|, |text|, 1
  {
    MatchHere(re, text) || (text != "" && Fits(c, text[0]) && MatchStar(c, re, text[1..]))
  }

  // ----- The matcher finds exactly the meaning -----

  lemma MakeFirst(item: Item, items: seq<Item>, p: string, u: string, last: bool)
    requires Piece(item, p, last) && Denotes(items, u, last)
    ensures Denotes([item] + items, p + u, last)
  {
    var ps :| MadeOf(items, ps, u, last);
    assert ([p] + ps)[1..] == ps;
    assert MadeOf([item] + items, [p] + ps, p + u, last);
  }

  lemma SplitFirst(item: Item, items: seq<Item>, u: string, last: bool) returns (p: string, v: string)
    requires Denotes([item] + items, u, last)
    ensures u == p + v && Piece(item, p, last) && Denotes(items, v, last)
  {
    var all := [item] + items;
    var ps :| MadeOf(all, ps, u, last);
    p, v := ps[0], Concat(ps[1..]);
    assert all[1..] == items;
    forall k | 0 <= k < |items| ensures Piece(items[k], ps[1..][k], last) { assert Piece(all[k + 1], ps[k + 1], last); }
    assert Piece(all[0], ps[0], last);
    assert MadeOf(items, ps[1..], v, last);
  }

  /** A first piece p of text, with the rest beginning as items do. */
  lemma BeginsFirst(item: Item, items: seq<Item>, text: string, n: nat)
    requires n <= |text| && item != AtEnd && Piece(item, text[..n], false) && Begins(items, text[n..])
    ensures Begins([item] + items, text)
  {
    var rest := text[n..];
    var j :| 0 <= j <= |rest| && Denotes(items, rest[..j], j == |rest|);
    MakeFirst(item, items, text[..n], rest[..j], j == |rest|);
    assert text[..n] + rest[..j] == text[..n + j];
    assert Denotes([item] + items, text[..n + j], n + j == |text|);
  }

  lemma BeginsSplit(item: Item, items: seq<Item>, text: string) returns (n: nat)
    requires Begins([item] + items, text) && item != AtEnd
    ensures n <= |text| && Piece(item, text[..n], false) && Begins(items, text[n..])
  {
    var j :| 0 <= j <= |text| && Denotes([item] + items, text[..j], j == |text|);
    var p, v := SplitFirst(item, items, text[..j], j == |text|);
    n := |p|;
    assert text[..j][..n] == p && text[..j][n..] == v;
    assert text[..n] == p && text[n..][..j - n] == v;
    assert Denotes(items, text[n..][..j - n], j - n == |text[n..]|);
  }

  lemma {:induction false} StarIff(c: char, re: string, text: string)
    ensures MatchStar(c, re, text) <==> Begins([Star(c)] + Items(re), text)
    decreases |re|, |text|, 1
  {
    var items := [Star(c)] + Items(re);
    HereIff(re, text);
    if text != "" { StarIff(c, re, text[1..]); }
    if MatchStar(c, re, text) {
      if MatchHere(re, text) {
        assert text[0..] == text;
        BeginsFirst(Star(c), Items(re), text, 0);
      } else {
        var n := BeginsSplit(Star(c), Items(re), text[1..]);
        StarLonger(c, text, n);
        assert text[1..][n..] == text[n + 1..];
        BeginsFirst(Star(c), Items(re), text, n + 1);
      }
    }
    if Begins(items, text) {
      var n := BeginsSplit(Star(c), Items(re), text);
      if n == 0 {
        assert text[0..] == text;
      } else {
        assert text[..n][0] == text[0];
        StarShorter(c, text, n);
        assert text[1..][n - 1..] == text[n..];
        BeginsFirst(Star(c), Items(re), text[1..], n - 1);
      }
    }
  }

  lemma StarLonger(c: char, text: string, n: nat)
    requires n + 1 <= |text| && Fits(c, text[0]) && Piece(Star(c), text[1..][..n], false)
    ensures Piece(Star(c), text[..n + 1], false)
  {
    var t := text[..n + 1];
    forall k | 0 <= k < |t| ensures Fits(c, t[k]) {
      if k > 0 { assert t[k] == text[1..][..n][k - 1]; }
    }
  }

  lemma StarShorter(c: char, text: string, n: nat)
    requires 0 < n <= |text| && Piece(Star(c), text[..n], false)
    ensures Piece(Star(c), text[1..][..n - 1], false)
  {
    var t := text[1..][..n - 1];
    forall k | 0 <= k < |t| ensures Fits(c, t[k]) { assert t[k] == text[..n][k + 1]; }
  }

  lemma EmptyBegins(text: string)
    ensures Begins([], text)
  {
    assert MadeOf([], [], "", 0 == |text|);
    assert text[..0] == "" && Denotes([], text[..0], 0 == |text|);
  }

  lemma EndBegins(text: string)
    ensures Begins([AtEnd], text) <==> text == ""
  {
    var items := [AtEnd];
    if text == "" {
      assert MadeOf(items, [""], "", true) by { assert Concat([""]) == "" + Concat([""][1..]); }
      assert Denotes(items, text[..0], 0 == |text|);
    }
    if Begins(items, text) {
      var j :| 0 <= j <= |text| && Denotes(items, text[..j], j == |text|);
      assert items == [AtEnd] + [];
      var p, v := SplitFirst(AtEnd, [], text[..j], j == |text|);
      var ps :| MadeOf([], ps, v, j == |text|);
    }
  }

  lemma {:induction false} HereIff(re: string, text: string)
    ensures MatchHere(re, text) <==> Begins(Items(re), text)
    decreases |re|, |text|, 0
  {
    if re == "" {
      EmptyBegins(text);
    } else if |re| >= 2 && re[1] == '*' {
      StarIff(re[0], re[2..], text);
    } else if re == "$" {
      EndBegins(text);
    } else {
      if text != "" { HereIff(re[1..], text[1..]); }
      if MatchHere(re, text) { BeginsFirst(Atom(re[0]), Items(re[1..]), text, 1); }
      if Begins(Items(re), text) {
        var n := BeginsSplit(Atom(re[0]), Items(re[1..]), text);
        assert n == 1;
      }
    }
  }

  /** What match decides: some position, only the first after "^", begins the meaning. */
  ghost predicate Found(re: string, text: string) {
    if re != "" && re[0] == '^' then Begins(Items(re[1..]), text)
    else exists i :: 0 <= i <= |text| && Begins(Items(re), text[i..])
  }

  // ----- The loops -----

  /** matchstar's loop. */
  method Matchstar(c: char, re: string, text: string) returns (b: bool)
    ensures b == MatchStar(c, re, text)
    decreases |re|, |text|, 1
  {
    var i := 0;
    assert text[0..] == text;
    while true
      invariant 0 <= i <= |text| && MatchStar(c, re, text) == MatchStar(c, re, text[i..])
      decreases |text| - i
    {
      b := Matchhere(re, text[i..]);
      if b { return; }
      if i == |text| || !Fits(c, text[i]) { return false; }
      assert text[i..][1..] == text[i + 1..];
      i := i + 1;
    }
  }

  method Matchhere(re: string, text: string) returns (b: bool)
    ensures b == MatchHere(re, text)
    decreases |re|, |text|, 0
  {
    if re == "" { return true; }
    if |re| >= 2 && re[1] == '*' {
      b := Matchstar(re[0], re[2..], text);
      return;
    }
    if re == "$" { return text == ""; }
    if text != "" && (re[0] == '.' || re[0] == text[0]) {
      b := Matchhere(re[1..], text[1..]);
      return;
    }
    return false;
  }

  /** match: 1 exactly when the pattern is found, the empty suffix included. */
  method Match(re: string, text: string) returns (b: bool)
    ensures b <==> Found(re, text)
  {
    if re != "" && re[0] == '^' {
      b := Matchhere(re[1..], text);
      HereIff(re[1..], text);
      return;
    }
    var i := 0;
    while true
      invariant 0 <= i <= |text| && forall k :: 0 <= k < i ==> !Begins(Items(re), text[k..])
      decreases |text| - i
    {
      b := Matchhere(re, text[i..]);
      HereIff(re, text[i..]);
      if b { return; }
      if i == |text| { return false; }
      i := i + 1;
    }
  }
}
