/** The input of the two interpreters. What the tokenizer does with characters is not part of this model. */
module Tokens {
  import opened Syntax

  /** The tokens of the input, one after the other; behind the end every token is 'Other'. */
  class Tokenizer {
    const tokens: seq<Token>
    var pos: nat

    constructor (tokens: seq<Token>)
      ensures Valid() && Rest() == tokens
    {
      this.tokens, pos := tokens, 0;
    }

    ghost predicate Valid()
      reads this
    {
      pos <= |tokens|
    }

    ghost function Rest(): seq<Token>
      reads this
      requires Valid()
    {
      tokens[pos..]
    }

    method Next() returns (t: Token)
      requires Valid()
      modifies this
      ensures Valid()
      ensures old(Rest()) == [] ==> t == Other && Rest() == []
      ensures old(Rest()) != [] ==> t == old(Rest())[0] && Rest() == old(Rest())[1..]
    {
      if pos == |tokens| {
        return Other;
      }
      t := tokens[pos];
      pos := pos + 1;
    }
  }
}
