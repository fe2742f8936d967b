/**
 * The syntax tree of the wmlang front end (src/ast.rs). The source's trait
 * objects become closed datatypes: the only statement kind is the let
 * statement and the only expression kind is the identifier. Every node
 * reports the literal of its leading token.
 */
module Ast {
  import opened Tokens
  import opened Lexing
  import opened LexerProperties

  datatype Identifier = Identifier(token: Token, value: string) {
    function TokenLiteral(): string {
      token.literal
    }
  }

  datatype Expression = IdentifierExpression(identifier: Identifier) {
    function TokenLiteral(): string {
      identifier.TokenLiteral()
    }
  }

  datatype Statement = LetStatement(token: Token, name: Identifier, value: Expression) {
    function TokenLiteral(): string {
      token.literal
    }
  }

  /** The root: the ordered top-level statements. */
  datatype Program = Program(statements: seq<Statement>) {
    function TokenLiteral(): string {
      if statements == [] then "" else statements[0].TokenLiteral()
    }
  }

  /** A program reports the leading token of its first statement, and the
      empty string when it has none. */
  lemma ProgramTokenLiteral(program: Program)
    ensures program.statements == [] ==> program.TokenLiteral() == ""
    ensures program.statements != [] ==> program.TokenLiteral() == program.statements[0].token.literal
  {
  }

  /** A program whose first statement is led by a Let token the lexer produced
      reports "let": the lexer spells keyword tokens exactly as the keyword. */
  lemma LexedLetProgramLiteral(s: string, p: nat, name: Identifier, value: Expression, rest: seq<Statement>)
    requires Scan(s, p).0.ttype == Let
    ensures Program([LetStatement(Scan(s, p).0, name, value)] + rest).TokenLiteral() == "let"
  {
  }

  /** An identifier node built from a lexed Ident token reports a non-empty
      run of letters that is no keyword. */
  lemma LexedIdentifierLiteral(s: string, p: nat)
    requires Scan(s, p).0.ttype == Ident
    ensures var t := Scan(s, p).0; var literal := Identifier(t, t.literal).TokenLiteral();
      && literal != []
      && (forall k | 0 <= k < |literal| :: IsLetter(literal[k]))
      && literal !in {"let", "fn", "true", "false", "if", "else", "return"}
  {
    var t := Scan(s, p).0;
    ScanConsumesLiteral(s, p);
    ScanIdentifier(s, p);
    LookupIdentExact(t.literal);
  }
}
