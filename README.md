# Monkey lexer, as it stands

A Dafny model of the lexer of the Monkey language at this stage of the
repository. It has two parts:

- **Token catalogue** (`token.dfy`, module `Token`). This holds the token-kind
  string constants and the `Token` value (kind plus literal text). It also holds
  the fixed two-entry keyword table and `LookupIdent`, which gives `FUNCTION`
  for `"fn"`, `LET` for `"let"` and `IDENT` for every other spelling.
- **Lexer** (`lexer.dfy`, module `Lexer`). This is a class with the three
  fields the Go struct updates in place: `position`, `readPosition` and `ch`.
  They sit over an immutable byte input, modelled as a `const` field.
  - `ReadChar` loads the next byte, or the NUL sentinel 0 once the input is
    exhausted, and moves the cursor.
  - `NextToken` classifies the current byte. It recognises only
    `= ; ( ) , + { }` and the sentinel, which gives EOF. Every other byte gives
    the zero token `{"", ""}`. It then advances by exactly one byte in every
    branch.

The pure function `Classify` is the per-byte classification that `NextToken`
is proved against. `Scan(input, n)` is the sequence of tokens returned by the
first `n` calls. The lemmas show that this sequence is the per-byte
classification of the input followed by EOF forever. The class invariant
`Valid()` states three things:

- `readPosition == position + 1`;
- `ch` is the byte at `position`, or 0 past the end;
- the ghost field `emitted` (the tokens returned so far) equals
  `Scan(input, position)`.

At this stage the lexer does not skip whitespace, scan identifiers or
integers, emit `ILLEGAL`, or recognise `! - / * < >`: none of these is in
`src/monkey/lexer/lexer.go`. Its EOF branch advances like every other branch.
`NextToken` never calls `LookupIdent`. Letters, digits, whitespace, `!`, `-`
and `@` each yield the zero token, one per byte. `LetStatementScan` shows the
result on `"let five = 5;"`.

## Model

| member | source | states |
|---|---|---|
| `Token.LookupIdent` | src/monkey/token/token.go:43-48 | total; the result is `FUNCTION` exactly for `"fn"`, `LET` exactly for `"let"`, `IDENT` exactly for every other spelling, and always one of those three |
| `Token.KeywordTable` | src/monkey/token/token.go:35-38 | the keyword table has exactly the two keys `"fn"` and `"let"`, mapped to `FUNCTION` and `LET` |
| `Token.NearMissesAreIdentifiers` | src/monkey/token/token.go:43-47 | near-misses `"fnx"`, `"Let"`, `"FN"`, `"le"` and the empty string resolve to `IDENT` |
| `Token.KindsDistinct` | src/monkey/token/token.go:10-33 | the fourteen kind constants are pairwise distinct strings |
| `Token.SingleCharKindsAreCharacters` | src/monkey/token/token.go:18-28 | the operator and delimiter kinds are exactly the kind constants that are one-character strings |
| `Lexer.NewToken` | src/monkey/lexer/lexer.go:67-70 | the token has the given kind and a one-character literal whose code is the byte. That literal is the helper `ByteString`, Go's `string(ch)` at line 69 |
| `Lexer.Classify` | src/monkey/lexer/lexer.go:39-61 | the sentinel 0, and only it, gives `{EOF, ""}`; for any other byte the literal equals the kind, and is either the byte's own one-character text or the zero token's empty string |
| `Lexer.ClassifyAgreesWithCatalogue` | src/monkey/lexer/lexer.go:41-61 | a one-character kind is produced exactly for the byte that spells it, with that byte as its literal; every other non-zero byte gives the zero token; `ILLEGAL` is never produced |
| `Lexer.UnrecognisedBytesAreBlank` | src/monkey/lexer/lexer.go:39-61 | whitespace, letters, digits, `!`, `-` and `@` give the zero token `{"", ""}` |
| `Lexer.Lexer.constructor` | src/monkey/lexer/lexer.go:13-17 | after `New(input)`: `position == 0`, `readPosition == 1`, `ch` is the first byte (0 for empty input), nothing emitted, invariant established |
| `Lexer.Lexer.ReadChar` | src/monkey/lexer/lexer.go:22-35 | from any state: `ch` is the byte at the old `readPosition` (0 at or past the end), `position` takes the old `readPosition`, `readPosition == position + 1`; under the invariant `position` grows by exactly one; `input` is a constant. The byte loaded for an index is the helper `ByteAt`, the branch at lines 24-31 |
| `Lexer.Lexer.NextToken` | src/monkey/lexer/lexer.go:38-65 | keeps the invariant; returns `Classify` of the byte under the cursor, which is the token of byte `position` of the input; advances `position` by exactly one; appends the token to what was emitted; past the end returns EOF and `ch` stays 0 |
| `Lexer.Scan` | src/monkey/lexer/lexer.go:38-65 | `n` successive calls return exactly `n` tokens |
| `Lexer.ScanAt` | src/monkey/lexer/lexer.go:41-62 | the k-th call returns the classification of byte k of the input (or of the sentinel past the end) |
| `Lexer.ScanPrefix` | src/monkey/lexer/lexer.go:38-65 | later calls do not change earlier tokens: the first `n` tokens are a prefix of the first `n + m` |
| `Lexer.ScanShape` | src/monkey/lexer/lexer.go:22-65 | the token sequence is the per-byte classification of the input, followed by one EOF for every call past its end |
| `Lexer.ScanPastEnd` | src/monkey/lexer/lexer.go:24-62 | once `n` calls have consumed the input, the next `m` calls return `m` EOF tokens |
| `Lexer.NulIsEndOfInput` | src/monkey/lexer/lexer.go:24-60 | a NUL byte inside the input gives the same EOF token as the end of input |
| `Lexer.EmptyInputScan` | src/monkey/lexer/lexer.go:13-62 | on empty input every call, the first included, returns EOF |
| `Lexer.DelimitersScan` | src/monkey/lexer/lexer.go:41-62 | `"=+(){},;"` scans to the eight matching tokens followed by EOF |
| `Lexer.LetStatementScan` | src/monkey/lexer/lexer.go:39-62 | `"let five = 5;"` scans to one zero token per letter, digit and space, with `ASSIGN` and `SEMICOLON` at their bytes, then EOF |

## Left out

- Whitespace skipping, identifier and integer scanning, `ILLEGAL` emission and the operators `! - / * < >` are not modelled. They are not in the lexer's code.
- `ILLEGAL` and `INT` are declared as kind constants but never produced, so they appear only in the catalogue lemmas.
- Unicode is not modelled: the lexer reads single bytes. The input is a `seq<byte>`. Scenario inputs are ASCII strings converted byte for byte, as a Go string literal stores them.
- `Lexer.NewToken`: the literal is a one-character Dafny string whose code is the byte, not Go's UTF-8 bytes of `string(ch)`. The two agree for every byte below 0x80, and `NewToken` is only applied to such bytes.
- `position` and `readPosition` are unbounded naturals. In Go they are `int`, and `readPosition` grows by one on every call, including calls past the end. After about 2^63 calls (2^31 where `int` is 32 bits), whatever the input length, it wraps negative. The test at `src/monkey/lexer/lexer.go:24` then fails, and the next `readChar` panics on `l.input[l.readPosition]`. This wrap-around is not modelled. EOF on every later call (`Lexer.ScanPastEnd`, the last ensures of `Lexer.Lexer.NextToken`) therefore holds in the model only, not for Go beyond that many calls.
- The Go map runtime is not modelled. The keyword table is a constant Dafny `map` that nothing can update.
- The ghost field `emitted` and the method `PollPastEnd`, a client that polls past the end, do not exist in the source. They only state what a caller observes.
- Only lexers built by `New` are modelled. `NextToken` requires the invariant that `New` establishes. A zero-value `Lexer` built outside the package is not modelled. On it the first `NextToken` returns EOF and leaves `position` at 0.
