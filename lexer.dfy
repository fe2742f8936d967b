/**
 * The lexer of the wmlang front end (src/lexer.rs): a byte cursor over an
 * immutable input that hands out one token per call.
 *
 * The class `Lexer` follows the source step by step. Its methods are proved
 * against two pure functions: `Run`, the maximal run of characters of one
 * class, and `Scan`, which gives the token a call to `next_token` returns and
 * the position it leaves the cursor at. The lemmas after the class state what
 * the lexer promises in terms of `Scan`.
 */
module Lexing {
  import opened Options
  import opened Tokens

  /** The input is the byte string of the source text, each byte read as a char. */
  type Bytes = s: string | forall i | 0 <= i < |s| :: s[i] <= '\U{FF}'

  /** The byte at `i`, or the NUL sentinel past the end of the input. */
  function CharAt(s: string, i: nat): char {
    if i < |s| then s[i] else '\0'
  }

  predicate IsDigit(c: char) {
    '0' <= c <= '9'
  }

  predicate IsLetter(c: char) {
    ('a' <= c <= 'z') || ('A' <= c <= 'Z') || c == '_'
  }

  predicate IsWhitespace(c: char) {
    c == ' ' || c == '\t' || c == '\n' || c == '\r'
  }

  /** The three character classes the lexer loops over are disjoint, and none
      of them holds the NUL sentinel, so every loop over them stops at the end
      of the input. */
  lemma ClassesDisjoint(c: char)
    ensures !(IsLetter(c) && IsDigit(c))
    ensures !(IsLetter(c) && IsWhitespace(c))
    ensures !(IsDigit(c) && IsWhitespace(c))
    ensures !IsLetter('\0') && !IsDigit('\0') && !IsWhitespace('\0')
  {
  }

  /** The longest run of characters satisfying `p` that starts at index `i`. */
  function Run(s: string, i: nat, p: char -> bool): string
    decreases |s| - i
  {
    if i < |s| && p(s[i]) then [s[i]] + Run(s, i + 1, p) else []
  }

  /** `Run` is maximal munch: it is the slice of the input at `i`, every
      character of it satisfies `p`, and the character after it does not. */
  lemma {:induction false} RunIsMaximalSlice(s: string, i: nat, p: char -> bool)
    ensures var r := Run(s, i, p);
      && (r == [] || (i + |r| <= |s| && r == s[i..i + |r|]))
      && (forall k | 0 <= k < |r| :: p(r[k]))
      && (i + |r| < |s| ==> !p(s[i + |r|]))
    decreases |s| - i
  {
    if i < |s| && p(s[i]) {
      RunIsMaximalSlice(s, i + 1, p);
      var r' := Run(s, i + 1, p);
      assert Run(s, i, p) == [s[i]] + r';
      if r' != [] {
        assert s[i..i + 1 + |r'|] == [s[i]] + s[i + 1..i + 1 + |r'|];
      }
    }
  }

  /** Where the token scanned from `p` starts: after the whitespace at `p`. */
  function TokenStart(s: string, p: nat): nat {
    p + |Run(s, p, IsWhitespace)|
  }

  /** The kind of a one-character operator or delimiter. */
  function SingleCharKind(c: char): Option<TokenType> {
    match c
    case '+' => Some(Plus)
    case '-' => Some(Minus)
    case '*' => Some(Asterisk)
    case '/' => Some(Slash)
    case '<' => Some(LThan)
    case '>' => Some(GThan)
    case ',' => Some(Comma)
    case ';' => Some(Semicolon)
    case '(' => Some(LParen)
    case ')' => Some(RParen)
    case '{' => Some(LBrace)
    case '}' => Some(RBrace)
    case _ => None
  }

  /** The token that `next_token` returns when the cursor is at `p`, paired
      with the position it leaves the cursor at. */
  function Scan(s: string, p: nat): (Token, nat) {
    var q := TokenStart(s, p);
    var c := CharAt(s, q);
    if c == '=' then
      if CharAt(s, q + 1) == '=' then (Token(Equal, "=="), q + 2) else (Token(Assign, "="), q + 1)
    else if c == '!' then
      if CharAt(s, q + 1) == '=' then (Token(NotEqual, "!="), q + 2) else (Token(Bang, "!"), q + 1)
    else if SingleCharKind(c).Some? then
      (Token(SingleCharKind(c).value, [c]), q + 1)
    else if c == '\0' then
      (Token(Eof, "\0"), q + 1)
    else if IsLetter(c) then
      var ident := Run(s, q, IsLetter);
      (Token(LookupIdent(ident), ident), q + |ident|)
    else if IsDigit(c) then
      var number := Run(s, q, IsDigit);
      (Token(Int, number), q + |number|)
    else
      (Token(Illegal, [c]), q + 1)
  }

  class Lexer {
    const input: Bytes
    var position: nat
    var readPos: nat
    var ch: char

    /** The cursor invariant: the next position is one past the current one
        and `ch` is the byte at the current position (NUL past the end). */
    ghost predicate Valid()
      reads this
    {
      readPos == position + 1 && ch == CharAt(input, position)
    }

    constructor (input: Bytes)
      ensures this.input == input
      ensures Valid() && position == 0
    {
      this.input := input;
      position, readPos, ch := 0, 0, '\0';
      new;
      ReadChar();
    }

    /** Advances the cursor one byte. */
    method ReadChar()
      modifies this
      ensures Valid()
      ensures position == old(readPos) && readPos == old(readPos) + 1
      ensures ch == CharAt(input, old(readPos))
    {
      if readPos >= |input| {
        ch := '\0';
      } else {
        ch := input[readPos];
      }
      position := readPos;
      readPos := readPos + 1;
    }

    /** One byte of lookahead; changes nothing. */
    method PeekChar() returns (c: char)
      ensures c == CharAt(input, readPos)
    {
      if readPos >= |input| {
        return '\0';
      } else {
        return input[readPos];
      }
    }

    method ReadIdentifier() returns (ident: string)
      requires Valid()
      modifies this
      ensures Valid()
      ensures ident == Run(input, old(position), IsLetter)
      ensures position == old(position) + |ident|
    {
      ident := "";
      while IsLetter(ch)
        invariant Valid()
        invariant position == old(position) + |ident|
        invariant ident + Run(input, position, IsLetter) == Run(input, old(position), IsLetter)
        decreases |input| - position
      {
        ident := ident + [ch];
        ReadChar();
      }
    }

    method ReadNumber() returns (number: string)
      requires Valid()
      modifies this
      ensures Valid()
      ensures number == Run(input, old(position), IsDigit)
      ensures position == old(position) + |number|
    {
      number := "";
      while IsDigit(ch)
        invariant Valid()
        invariant position == old(position) + |number|
        invariant number + Run(input, position, IsDigit) == Run(input, old(position), IsDigit)
        decreases |input| - position
      {
        number := number + [ch];
        ReadChar();
      }
    }

    method SkipWhitespace()
      requires Valid()
      modifies this
      ensures Valid()
      ensures position == TokenStart(input, old(position))
    {
      while IsWhitespace(ch)
        invariant Valid()
        invariant old(position) <= position
        invariant position - old(position) + |Run(input, position, IsWhitespace)|
                  == |Run(input, old(position), IsWhitespace)|
        decreases |input| - position
      {
        ReadChar();
      }
    }

    /** Skips whitespace and returns the next token. Total: every byte gives
        some token, and past the end of the input the token is Eof. */
    method NextToken() returns (tok: Token)
      requires Valid()
      modifies this
      ensures Valid()
      ensures (tok, position) == Scan(input, old(position))
    {
      SkipWhitespace();
      ghost var scanned := Scan(input, old(position));
      match ch {
        case '=' =>
          var next := PeekChar();
          if next == '=' {
            var literal := [ch];
            ReadChar();
            literal := literal + [ch];
            tok := Token(Equal, literal);
          } else {
            tok := Token(Assign, [ch]);
          }
        case '+' => tok := Token(Plus, [ch]);
        case '-' => tok := Token(Minus, [ch]);
        case '!' =>
          var next := PeekChar();
          if next == '=' {
            var literal := [ch];
            ReadChar();
            literal := literal + [ch];
            tok := Token(NotEqual, literal);
          } else {
            tok := Token(Bang, [ch]);
          }
        case '*' => tok := Token(Asterisk, [ch]);
        case '/' => tok := Token(Slash, [ch]);
        case '<' => tok := Token(LThan, [ch]);
        case '>' => tok := Token(GThan, [ch]);
        case ',' => tok := Token(Comma, [ch]);
        case ';' => tok := Token(Semicolon, [ch]);
        case '(' => tok := Token(LParen, [ch]);
        case ')' => tok := Token(RParen, [ch]);
        case '{' => tok := Token(LBrace, [ch]);
        case '}' => tok := Token(RBrace, [ch]);
        case '\0' => tok := Token(Eof, [ch]);
        case _ =>
          assert SingleCharKind(ch).None? && ch != '=' && ch != '!' && ch != '\0';
          if IsLetter(ch) {
            var literal := ReadIdentifier();
            return Token(LookupIdent(literal), literal);
          } else if IsDigit(ch) {
            var literal := ReadNumber();
            return Token(Int, literal);
          } else {
            tok := Token(Illegal, [ch]);
          }
      }
      assert tok == scanned.0 && scanned.1 == readPos;
      ReadChar();
    }
  }
}
