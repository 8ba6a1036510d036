// The lexer as the splitter sees it: a finite list of tokens, then EOF for ever.
module Tokens {

  // Only the kinds the splitter branches on have a name of their own.
  datatype Kind =
    | Invalid
    | Eof
    | Scol
    | Div
    | Star
    | Create
    | Trigger
    | Temp
    | Temporary
    | Begin
    | Case
    | End
    | Other(code: nat)

  // start and stop are inclusive character positions in the source text.
  datatype Token = Token(kind: Kind, channel: nat, start: nat, stop: int)

  const DEFAULT_CHANNEL := 0

  function EofToken(size: nat): Token {
    Token(Eof, DEFAULT_CHANNEL, size, size - 1)
  }

  // What a lexer promises about the tokens of a text of the given size: non-empty spans inside
  // the text, each one after the span before it.
  ghost predicate LexerOutput(tokens: seq<Token>, size: nat) {
    tokens == []
    || (&& tokens[0].kind != Eof
        && tokens[0].start <= tokens[0].stop < size
        && (|tokens| > 1 ==> tokens[0].stop < tokens[1].start)
        && LexerOutput(tokens[1..], size))
  }

  lemma {:induction false} TokenAt(tokens: seq<Token>, size: nat, i: nat)
    requires LexerOutput(tokens, size) && i < |tokens|
    ensures tokens[i].kind != Eof && tokens[i].start <= tokens[i].stop < size
    ensures LexerOutput(tokens[i..], size)
  {
    if i == 0 {
      assert tokens[0..] == tokens;
    } else {
      TokenAt(tokens[1..], size, i - 1);
      assert tokens[1..][i - 1..] == tokens[i..];
    }
  }

  // Spans do not overlap and come in order.
  lemma {:induction false} TokensInOrder(tokens: seq<Token>, size: nat, i: nat, j: nat)
    requires LexerOutput(tokens, size) && i <= j < |tokens|
    ensures tokens[i].start <= tokens[j].start && tokens[i].stop <= tokens[j].stop
    ensures tokens[i].start <= tokens[j].stop < size
    ensures i < j ==> tokens[i].stop < tokens[j].start
    decreases j
  {
    TokenAt(tokens, size, j);
    if i < j {
      TokensInOrder(tokens, size, i, j - 1);
      TokenAt(tokens, size, j - 1);
      assert tokens[j - 1..][1] == tokens[j];
    }
  }

  lemma DropIsLexerOutput(tokens: seq<Token>, n: nat, size: nat)
    requires LexerOutput(tokens, size) && n <= |tokens|
    ensures LexerOutput(tokens[n..], size)
  {
    if n < |tokens| {
      TokenAt(tokens, size, n);
    }
  }

  lemma {:induction false} TakeIsLexerOutput(tokens: seq<Token>, n: nat, size: nat)
    requires LexerOutput(tokens, size) && n <= |tokens|
    ensures LexerOutput(tokens[..n], size)
  {
    if n > 0 {
      TakeIsLexerOutput(tokens[1..], n - 1, size);
      assert tokens[..n][1..] == tokens[1..][..n - 1];
    }
  }

  // The tokens of the default channel, in order.
  function Visible(tokens: seq<Token>): seq<Token> {
    if tokens == [] then []
    else if tokens[0].channel == DEFAULT_CHANNEL then [tokens[0]] + Visible(tokens[1..])
    else Visible(tokens[1..])
  }

  // Element i of the endless stream that starts with the given tokens.
  function At(tokens: seq<Token>, i: nat, size: nat): Token {
    if i < |tokens| then tokens[i] else EofToken(size)
  }

  lemma {:induction false} VisibleStartsAfter(tokens: seq<Token>, size: nat, p: int)
    requires LexerOutput(tokens, size) && (tokens != [] ==> p < tokens[0].start)
    ensures Visible(tokens) != [] ==> p < Visible(tokens)[0].start
  {
    if tokens != [] {
      VisibleStartsAfter(tokens[1..], size, p);
    }
  }

  // Dropping hidden tokens keeps what the lexer promises.
  lemma {:induction false} VisibleIsLexerOutput(tokens: seq<Token>, size: nat)
    requires LexerOutput(tokens, size)
    ensures LexerOutput(Visible(tokens), size)
  {
    if tokens != [] {
      VisibleIsLexerOutput(tokens[1..], size);
      VisibleStartsAfter(tokens[1..], size, tokens[0].stop);
    }
  }

  class TokenSource {
    const input: string
    const tokens: seq<Token>
    var pos: nat

    ghost predicate Valid()
      reads this
    {
      pos <= |tokens| && LexerOutput(tokens, |input|)
    }

    constructor (input: string, tokens: seq<Token>)
      requires LexerOutput(tokens, |input|)
      ensures Valid() && pos == 0
      ensures this.input == input && this.tokens == tokens
    {
      this.input := input;
      this.tokens := tokens;
      pos := 0;
    }

    method NextToken() returns (token: Token)
      requires Valid()
      modifies this
      ensures Valid()
      ensures token == At(tokens, old(pos), |input|)
      ensures pos == if old(pos) < |tokens| then old(pos) + 1 else old(pos)
    {
      if pos < |tokens| {
        token := tokens[pos];
        pos := pos + 1;
      } else {
        token := EofToken(|input|);
      }
    }

    // The text between two character positions, both included.
    function GetText(start: int, stop: int): string
      requires 0 <= start <= stop < |input|
    {
      input[start..stop + 1]
    }
  }
}
