/**
 * The Monkey lexer as it stands (src/monkey/lexer/lexer.go): a byte cursor
 * over an immutable input that recognises eight one-character tokens and
 * end of input, and yields the zero token for every other byte.
 */
module Lexer {
  import opened Token

  /** One byte of the input; the lexer is byte-oriented, not rune-oriented. */
  newtype byte = x: int | 0 <= x < 0x100

  /** The byte readChar loads for index i: the input byte, or the NUL sentinel 0 past the end. */
  function ByteAt(input: seq<byte>, i: nat): byte
  {
    if i < |input| then input[i] else 0
  }

  /** The end-of-input token. */
  const EofToken: Token := Token(Eof, "")

  /** The one-character text of a byte (bytes below 0x80 are their ASCII character). */
  function ByteString(ch: byte): (s: string)
    ensures |s| == 1 && s[0] as int == ch as int
  {
    [ch as int as char]
  }

  /** A token of the given kind whose text is the single byte ch. */
  function NewToken(tokenType: TokenType, ch: byte): (t: Token)
    ensures t.tokenType == tokenType
    ensures |t.literal| == 1 && t.literal[0] as int == ch as int
  {
    Token(tokenType, ByteString(ch))
  }

  /**
   * The token NextToken returns when ch is the byte under the cursor:
   * the eight operator and delimiter bytes give their kind, the sentinel 0
   * gives EOF, and every other byte gives the zero token.
   */
  function Classify(ch: byte): (t: Token)
    // the sentinel, and only the sentinel, ends the input
    ensures ch == 0 <==> t == EofToken
    // for every other byte the text equals the kind: both are the byte itself
    // for the eight recognised characters, both are empty otherwise
    ensures ch != 0 ==> t.literal == t.tokenType
    ensures ch != 0 ==> t.literal == ByteString(ch) || t == Blank
  {
    if ch == '=' as byte then NewToken(Assign, ch)
    else if ch == ';' as byte then NewToken(Semicolon, ch)
    else if ch == '(' as byte then NewToken(LParen, ch)
    else if ch == ')' as byte then NewToken(RParen, ch)
    else if ch == ',' as byte then NewToken(Comma, ch)
    else if ch == '+' as byte then NewToken(Plus, ch)
    else if ch == '{' as byte then NewToken(LBrace, ch)
    else if ch == '}' as byte then NewToken(RBrace, ch)
    else if ch == 0 then Blank.(literal := "", tokenType := Eof)
    else Blank
  }

  /**
   * Classify against the token catalogue: a one-character kind is produced
   * exactly for the byte that spells it, with that byte as its text; every
   * other non-zero byte yields the zero token, never ILLEGAL.
   */
  lemma ClassifyAgreesWithCatalogue(ch: byte)
    ensures Classify(ch).tokenType in SingleCharKinds <==> ByteString(ch) in SingleCharKinds
    ensures Classify(ch).tokenType in SingleCharKinds ==> Classify(ch) == Token(ByteString(ch), ByteString(ch))
    ensures ch != 0 && ByteString(ch) !in SingleCharKinds ==> Classify(ch) == Blank
    ensures Classify(ch).tokenType != Illegal
  {
  }

  /** The token returned by the k-th call of NextToken (counting from 0) on a lexer over input. */
  function TokenAt(input: seq<byte>, k: nat): Token
  {
    Classify(ByteAt(input, k))
  }

  /** The tokens returned by the first n calls of NextToken, in order. */
  function Scan(input: seq<byte>, n: nat): (ts: seq<Token>)
    ensures |ts| == n
  {
    if n == 0 then [] else Scan(input, n - 1) + [TokenAt(input, n - 1)]
  }

  /** The per-byte classification of a byte string: one token per byte, in order. */
  function ClassifyEach(s: seq<byte>): (ts: seq<Token>)
    ensures |ts| == |s|
    ensures forall i :: 0 <= i < |s| ==> ts[i] == Classify(s[i])
  {
    if s == [] then [] else [Classify(s[0])] + ClassifyEach(s[1..])
  }

  /** m end-of-input tokens. */
  function Eofs(m: nat): (ts: seq<Token>)
    ensures |ts| == m
    ensures forall i :: 0 <= i < m ==> ts[i] == EofToken
  {
    seq(m, _ => EofToken)
  }

  /**
   * The lexer state. `input` never changes; `position` indexes the byte under
   * examination, `readPosition` the next byte to load, and `ch` holds the byte
   * at `position` (the sentinel 0 past the end). The ghost `emitted` records
   * the tokens returned so far, for stating what a caller observes.
   */
  class Lexer {
    const input: seq<byte>
    var position: nat
    var readPosition: nat
    var ch: byte
    ghost var emitted: seq<Token>

    /** The state invariant kept from construction on. */
    ghost predicate Valid()
      reads this
    {
      && readPosition == position + 1
      && ch == ByteAt(input, position)
      && emitted == Scan(input, position)
    }

    /** New: a zero-initialised lexer followed by one readChar, which loads the first byte. */
    constructor (input: seq<byte>)
      ensures this.input == input
      ensures position == 0 && readPosition == 1
      ensures |input| > 0 ==> ch == input[0]
      ensures |input| == 0 ==> ch == 0
      ensures emitted == []
      ensures Valid()
    {
      this.input := input;
      position, readPosition, ch := 0, 0, 0;
      emitted := [];
      new;
      ReadChar();
    }

    /**
     * readChar: load the byte at readPosition (0 once the input is exhausted)
     * and move the cursor there. It needs no invariant beforehand and
     * establishes readPosition == position + 1 from any state.
     */
    method ReadChar()
      modifies this`position, this`readPosition, this`ch
      ensures old(readPosition) >= |input| ==> ch == 0
      ensures old(readPosition) < |input| ==> ch == input[old(readPosition)]
      ensures ch == ByteAt(input, position)
      ensures position == old(readPosition)
      ensures readPosition == position + 1
      ensures old(readPosition) == old(position) + 1 ==> position == old(position) + 1
    {
      if readPosition >= |input| {
        ch := 0;
      } else {
        ch := input[readPosition];
      }
      position := readPosition;
      readPosition := readPosition + 1;
    }

    /**
     * NextToken: classify the byte under the cursor, then advance by exactly
     * one byte in every branch, end of input included.
     */
    method NextToken() returns (tok: Token)
      requires Valid()
      modifies this`position, this`readPosition, this`ch, this`emitted
      ensures Valid()
      ensures tok == Classify(old(ch))
      ensures tok == TokenAt(input, old(position))
      ensures position == old(position) + 1
      ensures emitted == old(emitted) + [tok]
      // exhaustion is absorbing: past the end every call returns EOF and the sentinel stays
      ensures old(position) >= |input| ==> tok == EofToken && ch == 0
    {
      tok := Blank;
      if ch == '=' as byte {
        tok := NewToken(Assign, ch);
      } else if ch == ';' as byte {
        tok := NewToken(Semicolon, ch);
      } else if ch == '(' as byte {
        tok := NewToken(LParen, ch);
      } else if ch == ')' as byte {
        tok := NewToken(RParen, ch);
      } else if ch == ',' as byte {
        tok := NewToken(Comma, ch);
      } else if ch == '+' as byte {
        tok := NewToken(Plus, ch);
      } else if ch == '{' as byte {
        tok := NewToken(LBrace, ch);
      } else if ch == '}' as byte {
        tok := NewToken(RBrace, ch);
      } else if ch == 0 {
        tok := tok.(literal := "");
        tok := tok.(tokenType := Eof);
      }
      ReadChar();
      emitted := emitted + [tok];
    }
  }

  /** The k-th call returns the classification of the k-th byte, for every k below n. */
  lemma {:induction false} ScanAt(input: seq<byte>, n: nat, k: nat)
    requires k < n
    ensures Scan(input, n)[k] == TokenAt(input, k)
  {
    if k < n - 1 {
      ScanAt(input, n - 1, k);
    }
  }

  /** Earlier calls are not affected by later ones: the first n tokens prefix the first n + m. */
  lemma {:induction false} ScanPrefix(input: seq<byte>, n: nat, m: nat)
    ensures Scan(input, n) == Scan(input, n + m)[..n]
  {
    forall k | 0 <= k < n
      ensures Scan(input, n)[k] == Scan(input, n + m)[k]
    {
      ScanAt(input, n, k);
      ScanAt(input, n + m, k);
    }
  }

  /**
   * The observable behaviour of the lexer: the token sequence is the per-byte
   * classification of the input, followed by EOF on every later call.
   */
  lemma ScanShape(input: seq<byte>, n: nat)
    ensures n <= |input| ==> Scan(input, n) == ClassifyEach(input[..n])
    ensures n >= |input| ==> Scan(input, n) == ClassifyEach(input) + Eofs(n - |input|)
  {
    var expected := if n <= |input| then ClassifyEach(input[..n])
                    else ClassifyEach(input) + Eofs(n - |input|);
    forall k | 0 <= k < n
      ensures Scan(input, n)[k] == expected[k]
    {
      ScanAt(input, n, k);
    }
    assert Scan(input, n) == expected;
  }

  /** Once the input is exhausted every further call returns EOF. */
  lemma {:induction false} ScanPastEnd(input: seq<byte>, n: nat, m: nat)
    requires n >= |input|
    ensures Scan(input, n + m) == Scan(input, n) + Eofs(m)
  {
    if m > 0 {
      ScanPastEnd(input, n, m - 1);
      assert Eofs(m) == Eofs(m - 1) + [EofToken];
    }
  }

  /** A NUL byte inside the input cannot be told apart from the end of input. */
  lemma NulIsEndOfInput(input: seq<byte>, k: nat)
    requires k < |input| && input[k] == 0
    ensures TokenAt(input, k) == TokenAt(input, |input|) == EofToken
  {
  }

  /** Whitespace, letters, digits, '!', '-' and '@' all yield the zero token. */
  lemma UnrecognisedBytesAreBlank(ch: byte)
    requires ch as int in {' ' as int, '\t' as int, '\n' as int, '\r' as int,
                           '!' as int, '-' as int, '@' as int}
          || 'a' as int <= ch as int <= 'z' as int
          || 'A' as int <= ch as int <= 'Z' as int
          || '0' as int <= ch as int <= '9' as int
    ensures Classify(ch) == Blank
  {
  }

  /** The bytes of an ASCII string, as a Go string literal stores them. */
  function Ascii(s: string): (b: seq<byte>)
    requires forall i :: 0 <= i < |s| ==> s[i] as int < 0x80
    ensures |b| == |s|
    ensures forall i :: 0 <= i < |s| ==> b[i] as int == s[i] as int
  {
    seq(|s|, i requires 0 <= i < |s| => s[i] as int as byte)
  }

  /** The first n calls return expected when expected[k] is the k-th byte's token for every k below n. */
  lemma ScanThrough(input: seq<byte>, n: nat, expected: seq<Token>)
    requires |expected| == n
    requires forall k :: 0 <= k < n ==> expected[k] == TokenAt(input, k)
    ensures Scan(input, n) == expected
  {
    forall k | 0 <= k < n
      ensures Scan(input, n)[k] == expected[k]
    {
      ScanAt(input, n, k);
    }
  }

  /** Empty input yields EOF on the first call and on every call after it. */
  lemma EmptyInputScan(n: nat)
    ensures Scan([], n) == Eofs(n)
  {
    ScanShape([], n);
  }

  /** All eight recognised characters, then EOF. */
  lemma DelimitersScan()
    ensures Scan(Ascii("=+(){},;"), 9)
         == [Token(Assign, "="), Token(Plus, "+"), Token(LParen, "("), Token(RParen, ")"),
             Token(LBrace, "{"), Token(RBrace, "}"), Token(Comma, ","), Token(Semicolon, ";"),
             EofToken]
  {
    var input := Ascii("=+(){},;");
    ScanThrough(input, 9, [Token(Assign, "="), Token(Plus, "+"), Token(LParen, "("), Token(RParen, ")"),
                        Token(LBrace, "{"), Token(RBrace, "}"), Token(Comma, ","), Token(Semicolon, ";"),
                        EofToken]);
  }

  /**
   * A Monkey statement: letters, digits and spaces produce zero tokens, one
   * per byte, since the lexer neither skips whitespace nor scans words or numbers.
   */
  lemma LetStatementScan()
    ensures Scan(Ascii("let five = 5;"), 14)
         == [Blank, Blank, Blank, Blank, Blank, Blank, Blank, Blank, Blank,
             Token(Assign, "="), Blank, Blank, Token(Semicolon, ";"), EofToken]
  {
    var input := Ascii("let five = 5;");
    ScanThrough(input, 14, [Blank, Blank, Blank, Blank, Blank, Blank, Blank, Blank, Blank,
                        Token(Assign, "="), Blank, Blank, Token(Semicolon, ";"), EofToken]);
  }

  /** A caller polling a lexer over "+" sees PLUS, then EOF on every later call. */
  method PollPastEnd()
  {
    var l := new Lexer(Ascii("+"));
    var t0 := l.NextToken();
    assert t0 == Token(Plus, "+");
    var t1 := l.NextToken();
    var t2 := l.NextToken();
    assert t1 == t2 == EofToken;
    assert l.emitted == [Token(Plus, "+"), EofToken, EofToken];
  }
}
