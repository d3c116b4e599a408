/** The concrete syntax of the little language: what function 'parse' of gcl.c accepts. */
module Syntax {
  import opened Values
  import opened Machine

  /** What the tokenizer returns: a symbol with its characters, a parenthesis, or anything else (a number,
      a bad character, the end of the input). */
  datatype Token = Symbol(chars: string) | LParen | RParen | Other

  /** Recursive descent: an expression from the front of the tokens, and the tokens that are left. */
  function Parse(ts: seq<Token>): (r: Result<(Val, seq<Token>)>)
    ensures r.Success? ==> |r.value.1| < |ts|
    decreases |ts|
  {
    if ts == [] then Failure(SymbolOrParenExpected)
    else
      match ts[0]
      case Symbol(chars) => Success((Atom(chars), ts[1..]))
      case LParen =>
        var (head, rest1) :- Parse(ts[1..]);
        var (tail, rest2) :- Parse(rest1);
        if rest2 != [] && rest2[0] == RParen then Success((Cons(head, tail), rest2[1..])) else Failure(MissingParen)
      case _ => Failure(SymbolOrParenExpected)
  }

  function Print(e: Val): seq<Token>
    requires IsExpr(e)
  {
    match e
    case Atom(chars) => [Symbol(chars)]
    case Cons(head, tail) => [LParen] + Print(head) + Print(tail) + [RParen]
  }

  /** Parsing what was printed gives back the expression and whatever followed it. */
  lemma {:induction false} ParsePrinted(e: Val, rest: seq<Token>)
    requires IsExpr(e)
    ensures Parse(Print(e) + rest) == Success((e, rest))
    decreases e
  {
    hide Parse;
    var ts := Print(e) + rest;
    match e
    case Atom(_) =>
      ParseSymbol(ts);
      assert ts[1..] == rest;
    case Cons(head, tail) =>
      var after := [RParen] + rest;
      ParsePrinted(head, Print(tail) + after);
      ParsePrinted(tail, after);
      assert ts[1..] == Print(head) + (Print(tail) + after);
      ParsePair(ts, head, Print(tail) + after, tail, after);
      assert after[1..] == rest;
  }

  lemma ParseSymbol(ts: seq<Token>)
    requires ts != [] && ts[0].Symbol?
    ensures Parse(ts) == Success((Atom(ts[0].chars), ts[1..]))
  {
  }

  lemma ParsePair(ts: seq<Token>, head: Val, rest1: seq<Token>, tail: Val, rest2: seq<Token>)
    requires ts != [] && ts[0] == LParen && Parse(ts[1..]) == Success((head, rest1))
    requires Parse(rest1) == Success((tail, rest2)) && rest2 != [] && rest2[0] == RParen
    ensures Parse(ts) == Success((Cons(head, tail), rest2[1..]))
  {
  }

  /** Whatever parses is an expression, and exactly its printed form was consumed. */
  lemma {:induction false} ParsedIsPrinted(ts: seq<Token>)
    requires Parse(ts).Success?
    ensures IsExpr(Parse(ts).value.0) && ts == Print(Parse(ts).value.0) + Parse(ts).value.1
    decreases |ts|
  {
    if ts[0] == LParen {
      var (head, rest1) := Parse(ts[1..]).value;
      ParsedIsPrinted(ts[1..]);
      var (tail, rest2) := Parse(rest1).value;
      ParsedIsPrinted(rest1);
      PairTokens(ts, Print(head), rest1, Print(tail), rest2);
    } else {
      assert ts == [ts[0]] + ts[1..];
    }
  }

  lemma PairTokens(ts: seq<Token>, head: seq<Token>, rest1: seq<Token>, tail: seq<Token>, rest2: seq<Token>)
    requires ts != [] && ts[0] == LParen && ts[1..] == head + rest1 && rest1 == tail + rest2
    requires rest2 != [] && rest2[0] == RParen
    ensures ts == ([LParen] + head + tail + [RParen]) + rest2[1..]
  {
    assert ts == [LParen] + ts[1..] && rest2 == [RParen] + rest2[1..];
  }

  lemma {:induction false} ParseErrors(ts: seq<Token>)
    ensures Parse(ts).Failure? ==> Parse(ts).error in {SymbolOrParenExpected, MissingParen}
    decreases |ts|
  {
    if ts != [] && ts[0] == LParen {
      ParseErrors(ts[1..]);
      if Parse(ts[1..]).Success? {
        ParseErrors(Parse(ts[1..]).value.1);
      }
    }
  }

  /** Parsing and printing are inverse to each other. */
  lemma ParseIffPrint(ts: seq<Token>, e: Val, rest: seq<Token>)
    ensures Parse(ts) == Success((e, rest)) <==> IsExpr(e) && ts == Print(e) + rest
  {
    if Parse(ts) == Success((e, rest)) {
      ParsedIsPrinted(ts);
    }
    if IsExpr(e) && ts == Print(e) + rest {
      ParsePrinted(e, rest);
    }
  }

  /** A pair that has been opened and not yet closed: its head is awaited, or known and its tail awaited. */
  datatype Pending = AwaitHead | AwaitTail(head: Val)

  /** What remains to be done for the pairs that are open, innermost first, once the result of parsing the
      current subexpression is known. */
  function Resume(open: seq<Pending>, r: Result<(Val, seq<Token>)>): Result<(Val, seq<Token>)>
    decreases |open|, if open != [] && open[0].AwaitHead? then 1 else 0
  {
    if open == [] || r.Failure? then r
    else
      var (v, ts) := r.value;
      match open[0]
      case AwaitHead =>
        var open' := [AwaitTail(v)] + open[1..];
        assert open'[0] == AwaitTail(v);
        Resume(open', Parse(ts))
      case AwaitTail(head) =>
        if ts != [] && ts[0] == RParen then Resume(open[1..], Success((Cons(head, v), ts[1..])))
        else Failure(MissingParen)
  }

  /** Opening a pair, as the iterative parser does it, is what recursive descent does. */
  lemma {:induction false} ResumeOpened(open: seq<Pending>, ts: seq<Token>)
    requires ts != [] && ts[0] == LParen
    ensures Resume([AwaitHead] + open, Parse(ts[1..])) == Resume(open, Parse(ts))
  {
    var r := Parse(ts[1..]);
    assert ([AwaitHead] + open)[1..] == open;
    if r.Success? {
      var (v, ts1) := r.value;
      assert ([AwaitTail(v)] + open)[1..] == open;
    }
  }

  /** What the parse of the remaining tokens is, by the first of them. */
  lemma ParseToken(pending: seq<Pending>, ts: seq<Token>)
    ensures ts == [] ==> Resume(pending, Parse(ts)) == Failure(SymbolOrParenExpected)
    ensures ts != [] && ts[0].Symbol? ==>
              Resume(pending, Parse(ts)) == Resume(pending, Success((Atom(ts[0].chars), ts[1..])))
    ensures ts != [] && ts[0] == LParen ==>
              Resume(pending, Parse(ts)) == Resume([AwaitHead] + pending, Parse(ts[1..]))
    ensures ts != [] && !ts[0].Symbol? && ts[0] != LParen ==>
              Resume(pending, Parse(ts)) == Failure(SymbolOrParenExpected)
  {
    if ts != [] && ts[0] == LParen {
      ResumeOpened(pending, ts);
    }
  }
}
