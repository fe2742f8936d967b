/**
 * The token model of the wmlang front end (src/token.rs): the closed set of
 * token kinds, the token record, and keyword resolution by exact lookup in a
 * fixed table.
 */
module Tokens {
  import opened Options

  datatype TokenType =
    | Eof | Illegal
      // identifiers and literals
    | Ident | Int
      // operators
    | Assign | Plus | Minus | Bang | Asterisk | Slash | LThan | GThan | Equal | NotEqual
      // delimiters
    | Comma | Semicolon | LParen | RParen | LBrace | RBrace
      // keywords
    | Let | Function | True | False | If | Else | Return
  {
    predicate IsKeyword() {
      this in {Let, Function, True, False, If, Else, Return}
    }
  }

  /** A token is immutable: its kind and the exact source text it was read from.
      `Token::new` is the datatype constructor, which keeps both fields as given. */
  datatype Token = Token(ttype: TokenType, literal: string)

  type KeywordTable = seq<(string, TokenType)>

  /** The keyword table, in the source's order. */
  const Keywords: KeywordTable := [
    ("let", Let),
    ("fn", Function),
    ("true", True),
    ("false", False),
    ("if", If),
    ("else", Else),
    ("return", Return)
  ]

  /** The literal every token of kind `k` carries, for the kinds whose literal is
      fixed; None for Illegal, Ident and Int, whose literal is source text. */
  function Spelling(k: TokenType): Option<string> {
    match k
    case Eof => Some("\0")
    case Illegal => None
    case Ident => None
    case Int => None
    case Assign => Some("=")
    case Plus => Some("+")
    case Minus => Some("-")
    case Bang => Some("!")
    case Asterisk => Some("*")
    case Slash => Some("/")
    case LThan => Some("<")
    case GThan => Some(">")
    case Equal => Some("==")
    case NotEqual => Some("!=")
    case Comma => Some(",")
    case Semicolon => Some(";")
    case LParen => Some("(")
    case RParen => Some(")")
    case LBrace => Some("{")
    case RBrace => Some("}")
    case Let => Some("let")
    case Function => Some("fn")
    case True => Some("true")
    case False => Some("false")
    case If => Some("if")
    case Else => Some("else")
    case Return => Some("return")
  }

  predicate DistinctKeys(table: KeywordTable) {
    forall i, j | 0 <= i < j < |table| :: table[i].0 != table[j].0
  }

  /** Scans `table` in order and returns the kind of the first entry whose
      keyword equals `ident` exactly, or Ident when there is none. */
  function LookupIn(table: KeywordTable, ident: string): (k: TokenType)
    ensures k == Ident || (ident, k) in table
  {
    if table == [] then Ident
    else if ident == table[0].0 then table[0].1
    else LookupIn(table[1..], ident)
  }

  /** `Token::lookup_ident`: the kind of an identifier-shaped run. */
  function LookupIdent(ident: string): (k: TokenType)
    ensures k == Ident || k.IsKeyword()
  {
    LookupIn(Keywords, ident)
  }

  lemma KeywordsDistinct()
    ensures DistinctKeys(Keywords)
  {
  }

  /** With distinct keys, the entry for `ident` is what the scan finds. */
  lemma {:induction false} LookupInFindsEntry(table: KeywordTable, ident: string, k: TokenType)
    requires DistinctKeys(table)
    requires (ident, k) in table
    ensures LookupIn(table, ident) == k
  {
    if table[0] != (ident, k) {
      assert ident != table[0].0 by {
        var j :| 0 <= j < |table| && table[j] == (ident, k);
      }
      assert (ident, k) in table[1..] by {
        var j :| 0 <= j < |table| && table[j] == (ident, k);
        assert table[1..][j - 1] == (ident, k);
      }
      LookupInFindsEntry(table[1..], ident, k);
    }
  }

  /** A string that is no key of the table resolves to Ident. */
  lemma LookupInMissing(table: KeywordTable, ident: string)
    requires forall i | 0 <= i < |table| :: table[i].0 != ident
    ensures LookupIn(table, ident) == Ident
  {
  }

  /** The scan order of a table with distinct keys does not matter: any
      reordering of it resolves every string to the same kind. */
  lemma LookupOrderIndependent(t1: KeywordTable, t2: KeywordTable, ident: string)
    requires DistinctKeys(t1) && DistinctKeys(t2)
    requires multiset(t1) == multiset(t2)
    ensures LookupIn(t1, ident) == LookupIn(t2, ident)
  {
    var k := LookupIn(t1, ident);
    if k != Ident {
      assert (ident, k) in multiset(t2);
      LookupInFindsEntry(t2, ident, k);
    } else if i :| 0 <= i < |t2| && t2[i].0 == ident {
      assert t2[i] in multiset(t1);
      LookupInFindsEntry(t1, ident, t2[i].1);
      LookupInFindsEntry(t2, ident, t2[i].1);
    } else {
      LookupInMissing(t2, ident);
    }
  }

  /** Keyword resolution is exact: a string resolves to keyword kind `k` if and
      only if it is `k`'s spelling; every other string resolves to Ident. */
  lemma LookupIdentExact(s: string)
    ensures LookupIdent(s) != Ident ==> Spelling(LookupIdent(s)) == Some(s)
    ensures forall k: TokenType | k.IsKeyword() && Spelling(k) == Some(s) :: LookupIdent(s) == k
    ensures LookupIdent(s) == Ident <==> s !in {"let", "fn", "true", "false", "if", "else", "return"}
  {
  }

  /** The examples of exact, case-sensitive matching. */
  lemma LookupIdentExamples()
    ensures LookupIdent("let") == Let && LookupIdent("fn") == Function
    ensures LookupIdent("return") == Return
    ensures LookupIdent("letx") == Ident && LookupIdent("Let") == Ident
    ensures LookupIdent("x") == Ident && LookupIdent("") == Ident
  {
    LookupIdentExact("let");
    LookupIdentExact("fn");
    LookupIdentExact("return");
    LookupIdentExact("letx");
    LookupIdentExact("Let");
    LookupIdentExact("x");
    LookupIdentExact("");
  }
}
