# wmlang front end: lexer, tokens, syntax tree and lookahead shift

This project models the front end of the wmlang language implementation as it
exists in the code: the token model, the byte-cursor lexer, the syntax-tree
node types with their `token_literal` accessors, and the parser's two-slot
lookahead shift. It proves what the lexer promises about every input.

- `Tokens` (token.rs): the closed `TokenType` enumeration, the `Token` record
  (its datatype constructor is `Token::new`, which stores both fields as
  given), the keyword table in the source's order, and `lookup_ident` as an
  in-order scan of that table with an early return.
- `Lexing` (lexer.rs): the class `Lexer` with the fields `position`,
  `readPos` and `ch` over a constant input, and methods `ReadChar`,
  `PeekChar`, `ReadIdentifier`, `ReadNumber`, `SkipWhitespace` and
  `NextToken` that follow the source statement by statement, and the
  character-class predicates `IsDigit`, `IsLetter` and `IsWhitespace`. The methods are
  proved against two pure functions: `Run(s, i, p)`, the maximal run of
  characters satisfying `p` from index `i`, and `Scan(s, p)`, the token one
  `next_token` call returns from cursor position `p` together with the
  position it leaves the cursor at.
- `LexerProperties`: lemmas about `Scan` and about `Tokenize(s, p)`, the
  token stream up to and including the first Eof token, plus `LexToEof`, the
  read-eval-print loop's token loop without its printing.
- `Ast` (ast.rs): `Program`, `LetStatement`, `Identifier` as closed
  datatypes (the source's trait objects admit no other kinds) and their
  `TokenLiteral` functions.
- `Parsing` (parser.rs): the class `Parser`, which holds the `Lexer` it was
  given (exclusive ownership is not modelled), with the constructor and
  `NextToken`.

The model follows the code, which departs from a conventional front end of
this kind in three places:
- `Parser::new` does not prime the lookahead: both slots stay empty until
  `next_token` is called (parser.rs:15-22).
- Eof is returned "forever after" only once the cursor is past the end of
  the input. An embedded NUL byte also yields an Eof token with literal
  "\0", and lexing continues after it (`ScanEofIffSentinel`).
- `parse_program` is `todo!()`, so there is no statement grammar, no
  expression parsing and no diagnostics list to model.

## Model

| member | source | states |
|---|---|---|
| `Tokens.LookupIn` | src/token.rs:56-63 | the table scan returns Ident or a kind that the table pairs with exactly that string |
| `Tokens.LookupIdent` | src/token.rs:56-63 | keyword resolution never yields Eof, Illegal, Int or an operator or delimiter kind: only Ident or one of the seven keyword kinds |
| `Tokens.KeywordsDistinct` | src/token.rs:36-44 | the keyword strings of the table are pairwise distinct |
| `Tokens.LookupInFindsEntry` | src/token.rs:57-61 | with distinct keys, a string that is a key resolves to the kind paired with it |
| `Tokens.LookupInMissing` | src/token.rs:57-62 | a string that is no key resolves to Ident |
| `Tokens.LookupOrderIndependent` | src/token.rs:36-44 | any reordering of a table with distinct keys resolves every string to the same kind, so the scan order does not matter |
| `Tokens.LookupIdentExact` | src/token.rs:56-63 | a string resolves to keyword kind k if and only if it is k's spelling; it resolves to Ident if and only if it is none of "let", "fn", "true", "false", "if", "else", "return" |
| `Tokens.LookupIdentExamples` | src/token.rs:58-62 | "let", "fn", "return" resolve to their keywords; "letx", "Let", "x" and "" resolve to Ident (exact, case-sensitive) |
| `Lexing.IsDigit` | src/lexer.rs:155-157 | no contract: the body is the source expression (a byte from '0' to '9'); its properties are in `Lexing.ClassesDisjoint` |
| `Lexing.IsLetter` | src/lexer.rs:159-161 | no contract: the body is the source expression (ASCII letters and '_'); its properties are in `Lexing.ClassesDisjoint` |
| `Lexing.IsWhitespace` | src/lexer.rs:163-165 | no contract: the body is the source expression (space, tab, newline, carriage return); its properties are in `Lexing.ClassesDisjoint` |
| `Lexing.Scan` | src/lexer.rs:42-128 | no contract: the function form of one `next_token` call (token and new cursor position), which `Lexing.Lexer.NextToken` is proved equal to and which the `LexerProperties` lemmas are stated about |
| `Lexing.ClassesDisjoint` | src/lexer.rs:155-165 | letters, digits and whitespace are disjoint classes and none contains the NUL sentinel |
| `Lexing.RunIsMaximalSlice` | src/lexer.rs:130-146 | a run is the input slice at its start, all of it in the class, and the byte after it is not (maximal munch) |
| `Lexing.Lexer.constructor` | src/lexer.rs:12-21 | a new lexer is at position 0 with the cursor invariant established (`ch` is the first byte or NUL) |
| `Lexing.Lexer.ReadChar` | src/lexer.rs:23-32 | the cursor moves one byte: position becomes the old next position, the next position grows by one, `ch` is the byte there or NUL past the end; the input is constant |
| `Lexing.Lexer.PeekChar` | src/lexer.rs:34-40 | returns the byte at the next position, or NUL past the end, and changes nothing |
| `Lexing.Lexer.ReadIdentifier` | src/lexer.rs:130-137 | returns the maximal letter run at the cursor and leaves the cursor just after it |
| `Lexing.Lexer.ReadNumber` | src/lexer.rs:139-146 | returns the maximal digit run at the cursor and leaves the cursor just after it |
| `Lexing.Lexer.SkipWhitespace` | src/lexer.rs:148-152 | moves the cursor over exactly the maximal whitespace run |
| `Lexing.Lexer.NextToken` | src/lexer.rs:42-128 | returns the token `Scan` gives for the old position and leaves the cursor where `Scan` says, keeping the cursor invariant |
| `LexerProperties.ScanConsumesLiteral` | src/lexer.rs:42-128 | one call skips only whitespace, then consumes exactly its token's literal: non-empty, free of whitespace, equal to the consumed input slice; past the end the token is Eof "\0" |
| `LexerProperties.ScanEofIffSentinel` | src/lexer.rs:107-108 | the token is Eof exactly when the byte at the token start is the NUL sentinel (end of input or an embedded NUL); any other token strictly advances the cursor and stays within the input |
| `LexerProperties.ScanPastEnd` | src/lexer.rs:24-25 | past the end of the input every call returns Eof "\0", and so does the call after it |
| `LexerProperties.ScanTwoCharOperators` | src/lexer.rs:47-74 | Equal exactly for "==" at the token start, Assign exactly for "=" not followed by "=", NotEqual exactly for "!=", Bang exactly for "!" not followed by "="; two bytes or one consumed accordingly |
| `LexerProperties.ScanIdentifier` | src/lexer.rs:112-115 | the token is Ident or a keyword exactly when the token start is a letter; then its literal is the maximal letter run and its kind is the keyword lookup of it |
| `LexerProperties.ScanNumber` | src/lexer.rs:116-119 | the token is Int exactly when the token start is a digit; then its literal is the maximal digit run, verbatim |
| `LexerProperties.ScanIllegal` | src/lexer.rs:120-123 | the token is Illegal exactly for a byte that is no operator, delimiter, letter, digit or NUL; its literal is that one byte and one byte is consumed |
| `LexerProperties.ScanFixedSpelling` | src/lexer.rs:45-109 | every token whose kind has a fixed spelling (operators, delimiters, keywords, Eof) carries exactly that spelling |
| `LexerProperties.TokenizeEndsAtEof` | src/lexer.rs:42-128 | calling `next_token` from any position reaches Eof: the stream is finite, ends in Eof and holds no earlier Eof |
| `LexerProperties.TokenizeCoversInput` | src/lexer.rs:44-127 | for an input without NUL bytes, the literals of the stream spell the rest of the input with its whitespace removed, followed by the "\0" of Eof |
| `LexerProperties.TokenizeIdentThenNumber` | src/lexer.rs:112-119 | "x1" lexes to Ident "x", Int "1", Eof |
| `LexerProperties.TokenizeNumberThenIdent` | src/lexer.rs:116-119 | "12a" lexes to Int "12", Ident "a", Eof |
| `LexerProperties.ScanOperatorExamples` | src/lexer.rs:47-74 | "==" is one Equal token, "=" alone or before ";" is Assign, " != " is one NotEqual token, "!" alone is Bang |
| `LexerProperties.TokenizeBang` | src/lexer.rs:64-74 | "!x" lexes to Bang "!", Ident "x", Eof |
| `LexerProperties.LexToEof` | src/repl.rs:51-60 | calling `next_token` until Eof collects exactly the `Tokenize` stream of the lexer's input from its position |
| `Ast.Identifier.TokenLiteral` | src/ast.rs:47-50 | no contract: the body is the source expression (the token's literal); see `Ast.LexedIdentifierLiteral` |
| `Ast.Expression.TokenLiteral` | src/ast.rs:47-53 | no contract: the only expression kind is the identifier, so it reports the identifier's literal |
| `Ast.Statement.TokenLiteral` | src/ast.rs:33-36 | no contract: the body is the source expression (the let token's literal); see `Ast.LexedLetProgramLiteral` |
| `Ast.Program.TokenLiteral` | src/ast.rs:16-23 | no contract: the body is the source expression (the first statement's literal, or ""); see `Ast.ProgramTokenLiteral` |
| `Ast.ProgramTokenLiteral` | src/ast.rs:16-23 | a program reports "" when it has no statements and its first statement's token literal otherwise |
| `Ast.LexedLetProgramLiteral` | src/ast.rs:33-36 | a program led by a let statement whose token came from the lexer reports "let" |
| `Ast.LexedIdentifierLiteral` | src/ast.rs:47-50 | an identifier node on a lexed Ident token reports a non-empty letter run that is no keyword |
| `Parsing.Parser.constructor` | src/parser.rs:15-22 | the parser owns the given lexer, both lookahead slots are empty, and the lexer is not advanced |
| `Parsing.Parser.NextToken` | src/parser.rs:24-27 | the current slot takes the old lookahead, and the lookahead holds the token of exactly one lexer `next_token` call |
| `Parsing.TwoShiftsFromFresh` | src/parser.rs:15-27 | after construction and two shifts, the current slot holds the input's first token and the lookahead its second |
| `Parsing.ShiftPastEnd` | src/parser.rs:24-27 | once the lexer is past the end, one shift puts Eof in the lookahead and the next puts Eof in both slots |

## Left out

- src/repl.rs: reading stdin, printing, `help`/`exit` and `process::exit` are I/O; only its token loop is modelled, as `LexToEof`.
- `Parser::parse_program` is `todo!()` in the source; there is no statement grammar, expression parsing or diagnostics list to model.
- The `Rc<RefCell<Lexer>>` around the parser's lexer: the parser holds a reference to the lexer it was given, and that the parser is its only owner is not modelled; runtime borrow checking does not change behaviour.
- The input is modelled as its byte string, each byte a `char` at most `'\U{FF}'`; UTF-8 decoding and `String` allocation are not modelled.
- `Lexing.Lexer.ReadChar`: positions are unbounded naturals; the source's `usize` cursor overflows after 2^64 calls past the end of the input (panics in debug builds, wraps in release builds), which is not modelled.
- The derived `Debug`, `Clone` and `PartialEq` implementations of `TokenType`: datatype equality stands for `PartialEq` and values are copied freely.
- `Parsing.Parser.NextToken`: the source clones `peek_token` (src/parser.rs:25), but `Token` derives no `Clone` (src/token.rs:46-49), so read as written parser.rs would not type-check; the model copies the token as if `Token` were `Clone`, which is evidently intended. This is a claim from reading the text; nothing was compiled.
