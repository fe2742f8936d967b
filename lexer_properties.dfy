/**
 * What the lexer promises, stated about `Scan` (one call of `next_token`) and
 * about `Tokenize` (the calls up to and including the first Eof token).
 */
module LexerProperties {
  import opened Options
  import opened Tokens
  import opened Lexing

  /** Every character of `w` is whitespace. */
  predicate AllWhitespace(w: string) {
    forall k | 0 <= k < |w| :: IsWhitespace(w[k])
  }

  /** No character of `w` is whitespace. */
  predicate NoWhitespace(w: string) {
    forall k | 0 <= k < |w| :: !IsWhitespace(w[k])
  }

  /** One call consumes the whitespace at `p` and then exactly its token's
      literal: the literal is never empty, never holds whitespace, and inside
      the input it is the slice the call consumed. */
  lemma ScanConsumesLiteral(s: string, p: nat)
    ensures var (t, n) := Scan(s, p); var q := TokenStart(s, p);
      && p <= q
      && (forall k | p <= k < q :: k < |s| && IsWhitespace(s[k]))
      && n == q + |t.literal| && t.literal != []
      && NoWhitespace(t.literal)
      && (q < |s| ==> n <= |s| && t.literal == s[q..n])
      && (q >= |s| ==> t == Token(Eof, "\0"))
  {
    var (t, n) := Scan(s, p);
    var q := TokenStart(s, p);
    RunIsMaximalSlice(s, p, IsWhitespace);
    var ws := Run(s, p, IsWhitespace);
    forall k | p <= k < q
      ensures k < |s| && IsWhitespace(s[k])
    {
      assert s[k] == ws[k - p];
    }
    var c := CharAt(s, q);
    assert q < |s| ==> !IsWhitespace(c);
    if IsLetter(c) && c != '\0' {
      RunIsMaximalSlice(s, q, IsLetter);
      ClassesDisjoint(c);
      forall k | 0 <= k < |t.literal| ensures !IsWhitespace(t.literal[k]) {
        ClassesDisjoint(t.literal[k]);
      }
    } else if IsDigit(c) {
      RunIsMaximalSlice(s, q, IsDigit);
      forall k | 0 <= k < |t.literal| ensures !IsWhitespace(t.literal[k]) {
        ClassesDisjoint(t.literal[k]);
      }
    }
  }

  /** The token is Eof exactly when the cursor, after whitespace, is at the
      NUL sentinel: past the end of the input or at an embedded NUL byte.
      Every other token moves the cursor forward and stays within the input. */
  lemma ScanEofIffSentinel(s: string, p: nat)
    ensures var (t, n) := Scan(s, p);
      && (t.ttype == Eof <==> CharAt(s, TokenStart(s, p)) == '\0')
      && (t.ttype != Eof ==> p < n <= |s|)
  {
    ScanConsumesLiteral(s, p);
    var (t, n) := Scan(s, p);
    var c := CharAt(s, TokenStart(s, p));
    if IsLetter(c) {
      assert t.ttype == LookupIdent(t.literal);
    }
  }

  /** Once the cursor is past the end of the input, every call returns Eof
      with literal "\0", and the call after it does too. */
  lemma ScanPastEnd(s: string, p: nat)
    requires p >= |s|
    ensures Scan(s, p) == (Token(Eof, "\0"), p + 1)
    ensures Scan(s, Scan(s, p).1) == (Token(Eof, "\0"), p + 2)
  {
  }

  /** `==` and `!=` are read with one byte of lookahead: the two-character
      kind when the second byte is `=`, the one-character kind otherwise. */
  lemma ScanTwoCharOperators(s: string, p: nat)
    ensures var (t, n) := Scan(s, p); var q := TokenStart(s, p);
      && (t.ttype == Equal <==> q + 1 < |s| && s[q..q + 2] == "==")
      && (t.ttype == Assign <==> q < |s| && s[q] == '=' && CharAt(s, q + 1) != '=')
      && (t.ttype == NotEqual <==> q + 1 < |s| && s[q..q + 2] == "!=")
      && (t.ttype == Bang <==> q < |s| && s[q] == '!' && CharAt(s, q + 1) != '=')
      && (t.ttype in {Equal, NotEqual} ==> n == q + 2)
      && (t.ttype in {Assign, Bang} ==> n == q + 1)
  {
    ScanConsumesLiteral(s, p);
    var (t, n) := Scan(s, p);
    var q := TokenStart(s, p);
    var c := CharAt(s, q);
    if IsLetter(c) {
      assert t.ttype == LookupIdent(t.literal);
    }
    if q + 1 < |s| && s[q..q + 2] == "==" {
      assert s[q] == '=' && s[q + 1] == '=';
    }
    if q + 1 < |s| && s[q..q + 2] == "!=" {
      assert s[q] == '!' && s[q + 1] == '=';
    }
  }

  /** An identifier token is the maximal run of letters and underscores at the
      token start, and its kind is the keyword lookup of that run. */
  lemma ScanIdentifier(s: string, p: nat)
    ensures var (t, n) := Scan(s, p); var q := TokenStart(s, p);
      && ((t.ttype == Ident || t.ttype.IsKeyword()) <==> IsLetter(CharAt(s, q)))
      && (IsLetter(CharAt(s, q)) ==>
            && t.ttype == LookupIdent(t.literal)
            && (forall k | 0 <= k < |t.literal| :: IsLetter(t.literal[k]))
            && (n < |s| ==> !IsLetter(s[n])))
  {
    ScanConsumesLiteral(s, p);
    var q := TokenStart(s, p);
    RunIsMaximalSlice(s, q, IsLetter);
  }

  /** A number token is the maximal run of decimal digits at the token start,
      kept verbatim. */
  lemma ScanNumber(s: string, p: nat)
    ensures var (t, n) := Scan(s, p); var q := TokenStart(s, p);
      && (t.ttype == Int <==> IsDigit(CharAt(s, q)))
      && (IsDigit(CharAt(s, q)) ==>
            && (forall k | 0 <= k < |t.literal| :: IsDigit(t.literal[k]))
            && (n < |s| ==> !IsDigit(s[n])))
  {
    ScanConsumesLiteral(s, p);
    var (t, n) := Scan(s, p);
    var q := TokenStart(s, p);
    RunIsMaximalSlice(s, q, IsDigit);
    if IsLetter(CharAt(s, q)) {
      assert t.ttype == LookupIdent(t.literal);
    }
  }

  /** Any other byte that is not whitespace or NUL is Illegal, carried as its
      own one-character literal, and exactly that byte is consumed. */
  lemma ScanIllegal(s: string, p: nat)
    ensures var (t, n) := Scan(s, p); var q := TokenStart(s, p); var c := CharAt(s, q);
      && (t.ttype == Illegal <==>
            c != '\0' && c != '=' && c != '!' && SingleCharKind(c).None? && !IsLetter(c) && !IsDigit(c))
      && (t.ttype == Illegal ==> q < |s| && t.literal == [s[q]] && n == q + 1)
  {
  }

  /** A token whose kind has a fixed spelling carries exactly that spelling;
      in particular a keyword token is spelled as the keyword. */
  lemma ScanFixedSpelling(s: string, p: nat)
    ensures var t := Scan(s, p).0;
      Spelling(t.ttype).Some? ==> t.literal == Spelling(t.ttype).value
  {
    var t := Scan(s, p).0;
    if IsLetter(CharAt(s, TokenStart(s, p))) {
      LookupIdentExact(t.literal);
    }
  }

  /** The tokens `next_token` hands out from position `p` up to and including
      the first Eof token. */
  function Tokenize(s: string, p: nat): seq<Token>
    decreases |s| - p
  {
    ScanEofIffSentinel(s, p);
    var (t, n) := Scan(s, p);
    if t.ttype == Eof then [t] else [t] + Tokenize(s, n)
  }

  /** Lexing reaches Eof: the stream is non-empty, its last token is Eof and
      no earlier token is. */
  lemma {:induction false} TokenizeEndsAtEof(s: string, p: nat)
    ensures var ts := Tokenize(s, p);
      && ts != [] && ts[|ts| - 1].ttype == Eof
      && (forall k | 0 <= k < |ts| - 1 :: ts[k].ttype != Eof)
    decreases |s| - p
  {
    ScanEofIffSentinel(s, p);
    var (t, n) := Scan(s, p);
    if t.ttype != Eof {
      TokenizeEndsAtEof(s, n);
      var rest := Tokenize(s, n);
      assert Tokenize(s, p) == [t] + rest;
    }
  }

  /** The input with its whitespace removed. */
  function Squeeze(w: string): string {
    if w == [] then [] else (if IsWhitespace(w[0]) then [] else [w[0]]) + Squeeze(w[1..])
  }

  lemma {:induction false} SqueezeAppend(a: string, b: string)
    ensures Squeeze(a + b) == Squeeze(a) + Squeeze(b)
  {
    if a == [] {
      assert a + b == b;
    } else {
      assert (a + b)[0] == a[0] && (a + b)[1..] == a[1..] + b;
      SqueezeAppend(a[1..], b);
    }
  }

  lemma {:induction false} SqueezeAllWhitespace(w: string)
    requires AllWhitespace(w)
    ensures Squeeze(w) == []
  {
    if w != [] {
      SqueezeAllWhitespace(w[1..]);
    }
  }

  lemma {:induction false} SqueezeNoWhitespace(w: string)
    requires NoWhitespace(w)
    ensures Squeeze(w) == w
  {
    if w != [] {
      SqueezeNoWhitespace(w[1..]);
    }
  }

  /** All literals of a token sequence, in order. */
  function Literals(ts: seq<Token>): string {
    if ts == [] then [] else ts[0].literal + Literals(ts[1..])
  }

  /** For an input without NUL bytes, lexing from a position inside the input
      hands out literals that spell the rest of the input with its whitespace
      removed, followed by the "\0" of the final Eof token: whitespace is
      never part of a token and every other byte is in exactly one. */
  lemma {:induction false} TokenizeCoversInput(s: string, p: nat)
    requires p <= |s|
    requires forall k | 0 <= k < |s| :: s[k] != '\0'
    ensures Literals(Tokenize(s, p)) == Squeeze(s[p..]) + "\0"
    decreases |s| - p
  {
    ScanConsumesLiteral(s, p);
    ScanEofIffSentinel(s, p);
    var (t, n) := Scan(s, p);
    var q := TokenStart(s, p);
    var ts := Tokenize(s, p);
    if t.ttype == Eof {
      assert q >= |s|;
      assert AllWhitespace(s[p..]);
      SqueezeAllWhitespace(s[p..]);
      assert ts == [t];
      assert Literals(ts) == t.literal + Literals([]);
    } else {
      assert s[p..] == s[p..q] + (s[q..n] + s[n..]);
      assert AllWhitespace(s[p..q]);
      SqueezeAllWhitespace(s[p..q]);
      SqueezeNoWhitespace(s[q..n]);
      SqueezeAppend(s[p..q], s[q..n] + s[n..]);
      SqueezeAppend(s[q..n], s[n..]);
      TokenizeCoversInput(s, n);
      assert ts == [t] + Tokenize(s, n);
      assert Literals(ts) == t.literal + Literals(Tokenize(s, n));
    }
  }

  /** A digit ends an identifier: "x1" is Ident "x", then Int "1". */
  lemma TokenizeIdentThenNumber()
    ensures Tokenize("x1", 0) == [Token(Ident, "x"), Token(Int, "1"), Token(Eof, "\0")]
  {
    LookupIdentExact("x");
    assert Run("x1", 0, IsLetter) == "x";
    assert Scan("x1", 0) == (Token(Ident, "x"), 1);
    assert Run("x1", 1, IsDigit) == "1";
    assert Scan("x1", 1) == (Token(Int, "1"), 2);
    assert Scan("x1", 2) == (Token(Eof, "\0"), 3);
  }

  /** A letter ends a number: "12a" is Int "12", then Ident "a". */
  lemma TokenizeNumberThenIdent()
    ensures Tokenize("12a", 0) == [Token(Int, "12"), Token(Ident, "a"), Token(Eof, "\0")]
  {
    LookupIdentExact("a");
    assert Run("12a", 1, IsDigit) == "2";
    assert Run("12a", 0, IsDigit) == "12";
    assert Scan("12a", 0) == (Token(Int, "12"), 2);
    assert Run("12a", 2, IsLetter) == "a";
    assert Scan("12a", 2) == (Token(Ident, "a"), 3);
    assert Scan("12a", 3) == (Token(Eof, "\0"), 4);
  }

  /** "==" is one Equal token, "=" before anything else an Assign; likewise
      "!=" and "!". */
  lemma ScanOperatorExamples()
    ensures Scan("==", 0) == (Token(Equal, "=="), 2)
    ensures Scan("=;", 0) == (Token(Assign, "="), 1)
    ensures Scan("=", 0) == (Token(Assign, "="), 1)
    ensures Scan(" != ", 0) == (Token(NotEqual, "!="), 3)
    ensures Scan("!", 0) == (Token(Bang, "!"), 1)
  {
  }

  /** "!x" has a lone Bang: the byte after `!` is not `=`. */
  lemma TokenizeBang()
    ensures Tokenize("!x", 0) == [Token(Bang, "!"), Token(Ident, "x"), Token(Eof, "\0")]
  {
    LookupIdentExact("x");
    assert Scan("!x", 0) == (Token(Bang, "!"), 1);
    assert Run("!x", 1, IsLetter) == "x";
    assert Scan("!x", 1) == (Token(Ident, "x"), 2);
    assert Scan("!x", 2) == (Token(Eof, "\0"), 3);
  }

  /** The loop of the read-eval-print loop without its printing: call
      `next_token` until it returns Eof, collecting the tokens. */
  method LexToEof(lexer: Lexer) returns (tokens: seq<Token>)
    requires lexer.Valid()
    modifies lexer
    ensures lexer.Valid()
    ensures tokens == Tokenize(lexer.input, old(lexer.position))
  {
    tokens := [];
    var done := false;
    while !done
      invariant lexer.Valid()
      invariant done ==> tokens == Tokenize(lexer.input, old(lexer.position))
      invariant !done ==> tokens + Tokenize(lexer.input, lexer.position) == Tokenize(lexer.input, old(lexer.position))
      decreases !done, |lexer.input| - lexer.position
    {
      ghost var before := lexer.position;
      var tok := lexer.NextToken();
      ScanEofIffSentinel(lexer.input, before);
      tokens := tokens + [tok];
      done := tok.ttype == Eof;
    }
  }
}
