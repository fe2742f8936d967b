/**
 * The parser of the wmlang front end (src/parser.rs) as far as it exists:
 * construction and the two-slot lookahead shift over an owned lexer.
 */
module Parsing {
  import opened Options
  import opened Tokens
  import opened Lexing
  import opened LexerProperties

  class Parser {
    const lexer: Lexer
    var currentToken: Option<Token>
    var peekToken: Option<Token>

    ghost predicate Valid()
      reads this, lexer
    {
      lexer.Valid()
    }

    /** Takes over the lexer without reading from it: both slots start empty. */
    constructor (lexer: Lexer)
      requires lexer.Valid()
      ensures this.lexer == lexer && Valid()
      ensures currentToken == None && peekToken == None
    {
      this.lexer := lexer;
      currentToken := None;
      peekToken := None;
    }

    /** Shifts the lookahead token into the current slot and reads exactly one
        new token from the lexer into the lookahead slot. */
    method NextToken()
      requires Valid()
      modifies this, lexer
      ensures Valid()
      ensures currentToken == old(peekToken)
      ensures peekToken.Some?
      ensures (peekToken.value, lexer.position) == Scan(lexer.input, old(lexer.position))
    {
      currentToken := peekToken;
      var tok := lexer.NextToken();
      peekToken := Some(tok);
    }
  }

  /** A parser over a fresh lexer holds the input's first two tokens after two
      shifts, the first in the current slot: construction read nothing. */
  method TwoShiftsFromFresh(input: Bytes) returns (parser: Parser)
    ensures parser.Valid() && parser.lexer.input == input
    ensures parser.currentToken == Some(Scan(input, 0).0)
    ensures parser.peekToken == Some(Scan(input, Scan(input, 0).1).0)
  {
    var lexer := new Lexer(input);
    parser := new Parser(lexer);
    parser.NextToken();
    parser.NextToken();
  }

  /** Once the lexer is past the end of its input, a shift puts Eof in the
      lookahead slot and the next one puts Eof in both slots. */
  method ShiftPastEnd(parser: Parser)
    requires parser.Valid() && parser.lexer.position >= |parser.lexer.input|
    modifies parser, parser.lexer
    ensures parser.Valid()
    ensures parser.currentToken == Some(Token(Eof, "\0"))
    ensures parser.peekToken == Some(Token(Eof, "\0"))
  {
    ScanPastEnd(parser.lexer.input, parser.lexer.position);
    parser.NextToken();
    parser.NextToken();
  }
}
