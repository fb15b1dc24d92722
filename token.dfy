/**
 * The Monkey token catalogue: the token kinds, the token value and the
 * keyword table consulted by LookupIdent (src/monkey/token/token.go).
 */
module Token {

  /** A token kind is a plain string, as the kind constants are. */
  type TokenType = string

  /** A token: its kind and the exact text it was scanned from. */
  datatype Token = Token(tokenType: TokenType, literal: string)

  /** The zero value of a token: empty kind, empty text. */
  const Blank: Token := Token("", "")

  const Illegal: TokenType := "ILLEGAL"
  const Eof: TokenType := "EOF"

  // identifiers and literals
  const Ident: TokenType := "IDENT"
  const Int: TokenType := "INT"

  // operators
  const Assign: TokenType := "="
  const Plus: TokenType := "+"

  // delimiters
  const Comma: TokenType := ","
  const Semicolon: TokenType := ";"
  const LParen: TokenType := "("
  const RParen: TokenType := ")"
  const LBrace: TokenType := "{"
  const RBrace: TokenType := "}"

  // keywords
  const Function: TokenType := "FUNCTION"
  const Let: TokenType := "LET"

  /** Every kind constant of the catalogue, in declaration order. */
  const AllKinds: seq<TokenType> :=
    [Illegal, Eof, Ident, Int, Assign, Plus, Comma, Semicolon,
     LParen, RParen, LBrace, RBrace, Function, Let]

  /** The operator and delimiter kinds: each is spelled as the one character it denotes. */
  const SingleCharKinds: seq<TokenType> :=
    [Assign, Plus, Comma, Semicolon, LParen, RParen, LBrace, RBrace]

  /** The fixed keyword table; nothing ever adds to it or removes from it. */
  const Keywords: map<string, TokenType> := map["fn" := Function, "let" := Let]

  /**
   * The kind of an identifier spelling: the keyword kind when the spelling is
   * a key of the table, otherwise IDENT. Total: every string has a kind.
   */
  function LookupIdent(ident: string): (t: TokenType)
    ensures t == Function <==> ident == "fn"
    ensures t == Let <==> ident == "let"
    ensures t == Ident <==> ident != "fn" && ident != "let"
    ensures t in {Ident, Function, Let}
  {
    if ident in Keywords then Keywords[ident] else Ident
  }

  /** The keyword table holds exactly the two spellings "fn" and "let". */
  lemma KeywordTable()
    ensures Keywords.Keys == {"fn", "let"}
    ensures |Keywords| == 2
    ensures Keywords["fn"] == Function && Keywords["let"] == Let
  {
    assert "fn" != "let";
  }

  /** Spellings that resemble a keyword but are not one resolve to IDENT. */
  lemma NearMissesAreIdentifiers()
    ensures LookupIdent("fnx") == Ident
    ensures LookupIdent("Let") == Ident
    ensures LookupIdent("FN") == Ident
    ensures LookupIdent("le") == Ident
    ensures LookupIdent("") == Ident
  {
  }

  /** No two kind constants of the catalogue are the same string. */
  lemma KindsDistinct()
    ensures forall i, j :: 0 <= i < j < |AllKinds| ==> AllKinds[i] != AllKinds[j]
  {
  }

  /** Each operator and delimiter kind is a one-character string, and no other kind is. */
  lemma SingleCharKindsAreCharacters()
    ensures forall k :: k in SingleCharKinds <==> k in AllKinds && |k| == 1
  {
  }
}
