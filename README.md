# chc, the identifier case converter, in Dafny

chc converts identifiers between five naming conventions: snake_case,
UPPER_CASE, camelCase, PascalCase and lisp-case. For each word it

1. classifies the word's current convention (`determineCase`),
2. splits it into lower-case tokens according to that convention
   (`tokenize`): snake_case words on `_`, UPPER_CASE words lower-cased and
   split on `_`, lisp-case words lower-cased and split on `-`, and camelCase
   and PascalCase words by a scan that starts a new token at every upper-case
   letter not preceded by another upper-case letter, and
3. joins the tokens in the requested convention (`toSnake`, `toUpper`,
   `toCamel`, `toPascal`, `toLisp`, with `title` capitalising a token),
   the convention being chosen by a case-insensitive option (`ChangeCase`).

The project has four modules:

- `strings.dfy`, module `Strings`: the parts of Go's `strings` and `unicode`
  packages the converter uses, on ASCII text: case tests, `ToLower`,
  `ToUpper`, `Split` and `Join` with a one-character separator, and the
  concatenation a `strings.Builder` produces, with their algebra (split and
  join undo each other, lower-casing forgets upper-casing, and so on).
- `chc.dfy`, module `Chc`: the converter itself. Each operation is a function
  of the word. The three loops of the program are methods proved equal to those
  functions: `ScanCamel` for the scan of `tokenize`, and `WriteCamel` and
  `WritePascal` for the builder loops of `toCamel` and `toPascal`.
  `Tokenize`, `ToCamel` and `ToPascal` are the program's functions with those loops.
- `chc_properties.dfy`, module `ChcProperties`: properties that relate
  several operations: what each renderer's output is classified as,
  idempotence, and round trips (tokenizing a rendering gives the tokens back).
- `chc_examples.dfy`, module `ChcExamples`: the repository's test vectors
  stated about the model, plus two inputs that pin down edge behaviour.

Two behaviours of the code are worth knowing:

- Acronyms. The scan places no boundary before a capital that follows
  another capital, so `HTTPServer` is the single token `httpserver`
  (`ChcExamples.AcronymStaysOneToken`).
- Empty tokens. `strings.Split` gives empty pieces for doubled, leading or
  trailing separators, so split tokens may be empty: `foo__bar` has the
  tokens `foo`, `` and `bar`. The model's `Split` does the same. Only the
  scan's tokens are always non-empty (`Chc.ScannedTokensRejoin`).

## Model

| member | source | states |
|---|---|---|
| `Chc.DetermineCase` | main.go:89-103 | A word is lisp-case exactly when it has a hyphen. It is snake_case exactly when it has no hyphen and no upper-case letter. It is UPPER_CASE exactly when it has no hyphen and no lower-case letter but does have an upper-case one. Otherwise it is camelCase or PascalCase, depending on whether its first character is lower-case. |
| `Chc.MixedCaseWordIsLong` | main.go:99-102 | A word classified camelCase or PascalCase has at least two characters. So the first-character test never sees an empty word, and the scan's one-rune shortcut is never taken for a classified word. |
| `Chc.ScanCamel` | main.go:116-130 | The scan loop returns exactly the tokens `CamelSplit(word)` defines, including the single unchanged token for words shorter than two runes. |
| `Chc.SegmentsConcat` | main.go:122-129 | After reading n runes, the scan's tokens concatenate to the first n runes of the word, lower-cased. |
| `Chc.SegmentsCuts` | main.go:123-126 | After reading n runes, a token starts at offset k >= 1 exactly when rune k is upper-case and rune k-1 is not. |
| `Chc.SegmentsTokens` | main.go:124-129 | Every token the scan holds is non-empty, has no upper-case letter, and uses only characters of the lower-cased word. |
| `Chc.CamelSplitCorrect` | main.go:116-130 | For a word of at least two runes, the scan's tokens are non-empty lower-case pieces that concatenate to the lower-cased word and are cut exactly at the boundaries. |
| `Chc.Tokens` | main.go:106-131 | tokenize always yields at least one token, and no token has an upper-case letter or a hyphen. |
| `Chc.Tokenize` | main.go:106-131 | tokenize as the program runs it, with the scan loop, returns exactly `Tokens(word)`. |
| `Chc.SplitTokensRejoin` | main.go:107-114 | For snake_case, UPPER_CASE and lisp-case words, joining the tokens with the separator they were split on gives the lower-cased word back. |
| `Chc.ScannedTokensRejoin` | main.go:116-130 | For camelCase and PascalCase words, the tokens are non-empty, concatenate to the lower-cased word, and are cut exactly where an upper-case letter follows a character that is not upper-case. |
| `Chc.Title` | main.go:175-180 | title keeps the length. It returns strings shorter than two characters unchanged. Otherwise it upper-cases only the first character and keeps the rest. Either way the letters are unchanged up to case. |
| `Chc.Segments` | main.go:122-129 | After reading n runes the scan holds at least one and at most n tokens. |
| `Chc.CamelSplit` | main.go:116-130 | The scan yields at least one token and, for a non-empty word, no more tokens than it has runes; for a word of at least two runes the tokens concatenate to the lower-cased word. |
| `Chc.SnakeCase` | main.go:134-136 | toSnake's output has no upper-case letter and no hyphen. |
| `Chc.UpperCase` | main.go:139-141 | toUpper's output has no lower-case letter and lower-cases to toSnake's output. |
| `Chc.LispCase` | main.go:170-172 | toLisp's output has no upper-case letter, and splitting it on `-` gives back the tokens of the word. |
| `Chc.PascalJoin` | main.go:161-167 | toPascal's output has the length of the concatenated tokens. |
| `Chc.PascalJoinLetters` | main.go:161-167 | toPascal's output has the same letters as the concatenated tokens, up to case. |
| `Chc.CamelJoin` | main.go:144-158 | toCamel's output has the length of the concatenated tokens. |
| `Chc.CamelJoinLetters` | main.go:144-158 | toCamel's output starts with the first token unchanged and has the letters of the concatenated tokens up to case. |
| `Chc.WriteCamel` | main.go:146-157 | The builder part of toCamel returns "" for no tokens and the only token for one. Otherwise it returns the first token followed by every later token title-cased. |
| `Chc.WritePascal` | main.go:162-166 | The builder loop of toPascal writes every token title-cased, in order, with no separator. |
| `Chc.ToCamel` | main.go:144-158 | toCamel (tokenize, then the builder) computes the camelCase rendering of the word. |
| `Chc.ToPascal` | main.go:161-167 | toPascal (tokenize, then the builder) computes the PascalCase rendering of the word. |
| `Chc.CamelCase` | main.go:144-158 | toCamel's output, lower-cased, is the word's tokens written one after the other. |
| `Chc.PascalCase` | main.go:161-167 | toPascal's output, lower-cased, is the word's tokens written one after the other. |
| `Chc.OptionCase` | main.go:73-86 | A lower-cased option names UPPER_CASE, lisp-case, camelCase or PascalCase exactly when it is that convention's one-letter abbreviation or full name. Every other option, including "s" and "snake", names snake_case. |
| `Chc.Render` | main.go:74-85 | Rendering in a convention gives: for snake_case, no upper-case letter and no hyphen; for UPPER_CASE, no lower-case letter and toSnake's output once lower-cased; for lisp-case, no upper-case letter and the tokens back when split on `-`; for camelCase and PascalCase, the tokens written one after the other once lower-cased. |
| `Chc.ChangeCase` | main.go:72-87 | The option, lower-cased, selects the renderer: s/snake gives toSnake, u/upper toUpper, c/camel toCamel, p/pascal toPascal, l/lisp toLisp, and every other option toSnake. |
| `ChcProperties.SnakeCaseIsSnake` | main.go:134-136 | toSnake's output has no upper-case letter and no hyphen, so it is classified snake_case. |
| `ChcProperties.SnakeCaseFixesSnakeWords` | main.go:134-136 | toSnake leaves a snake_case word unchanged. |
| `ChcProperties.SnakeCaseIdempotent` | main.go:134-136 | Applying toSnake twice is the same as applying it once. |
| `ChcProperties.UpperCaseIsUpperSnake` | main.go:139-141 | toUpper's output has no lower-case letter, and lower-casing it gives toSnake's output. |
| `ChcProperties.UpperCaseFixesUpperWords` | main.go:139-141 | toUpper leaves an UPPER_CASE word unchanged. |
| `ChcProperties.UpperCaseIdempotent` | main.go:139-141 | Applying toUpper twice is the same as applying it once. |
| `ChcProperties.LispCaseOfHyphenated` | main.go:170-172 | toLisp of a word with a hyphen is the word lower-cased. |
| `ChcProperties.MixedCaseRenderKeepsLetters` | main.go:144-167 | For camelCase and PascalCase words, toCamel and toPascal keep the word's letters and change only their case. |
| `ChcProperties.SnakeRoundTrip` | main.go:134-136 | Tokenizing the snake_case rendering of tokens gives the tokens back, when they are non-empty in number, lower-case and free of `_` and `-`. |
| `ChcProperties.LispRoundTrip` | main.go:170-172 | Under the same conditions, tokenizing the lisp-case rendering gives the tokens back. |
| `ChcProperties.UpperRoundTrip` | main.go:139-141 | Under the same conditions, tokenizing the UPPER_CASE rendering gives the tokens back. |
| `ChcProperties.RenderedTokensRoundTrip` | main.go:133-172 | If no token of a word holds `_`, re-tokenizing the word's snake_case, lisp-case or UPPER_CASE rendering gives the word's own tokens. |
| `ChcProperties.SegmentsOfConcat` | main.go:122-129 | The scan cuts a concatenation of scannable segments exactly between the segments and lower-cases each one. Scannable segments are non-empty; each after the first opens with a capital; they have no other capitals, except possibly the word's first character; and none but the last ends with a capital. |
| `ChcProperties.PascalRoundTrip` | main.go:161-167 | Tokenizing the PascalCase rendering of tokens made of at least two lower-case letters gives the tokens back. |
| `ChcProperties.CamelRoundTrip` | main.go:144-158 | Tokenizing the camelCase rendering gives the tokens back when the first token is non-empty and made of lower-case letters and every later one is made of at least two lower-case letters. |
| `ChcProperties.ChangeCaseIgnoresOptionCase` | main.go:73 | The option is matched case-insensitively: upper-casing or lower-casing it does not change the result. |
| `ChcProperties.ChangeCaseOutput` | main.go:72-87 | u/upper gives exactly toUpper's output, which has no lower-case letters and lower-cases to toSnake's output. l/lisp gives exactly toLisp's output, lower-case, whose hyphen-separated pieces are the tokens. c/camel gives exactly toCamel's output and p/pascal exactly toPascal's, each lower-casing to the tokens written one after the other. Every option other than the eight u/l/c/p spellings gives exactly toSnake's output, which is classified snake_case. The snake and upper results are fixed points of converting again with the same option. |
| `ChcExamples.DetermineCaseExamples` | main_test.go:15-21 | The classifier's test vectors. |
| `ChcExamples.TokensExamples` | main_test.go:37-43 | The tokenizer's test vectors. |
| `ChcExamples.SnakeCaseExamples` | main_test.go:60-65 | The toSnake test vectors. |
| `ChcExamples.UpperCaseExamples` | main_test.go:82-87 | The toUpper test vectors. |
| `ChcExamples.CamelCaseExamples` | main_test.go:104-109 | The toCamel test vectors. |
| `ChcExamples.PascalCaseExamples` | main_test.go:126-131 | The toPascal test vectors. |
| `ChcExamples.LispCaseExamples` | main_test.go:148-153 | The toLisp test vectors. |
| `ChcExamples.ChangeCaseExamples` | main_test.go:171-180 | The ChangeCase test vectors, one for each of the ten option spellings. |
| `ChcExamples.AcronymStaysOneToken` | main.go:122-127 | `HTTPServer` is classified PascalCase and tokenizes as the single token `httpserver`. |
| `ChcExamples.OneLetterTokenNotCapitalised` | main.go:175-178 | `a_b` has the tokens `a` and `b`. Since title leaves a one-letter token unchanged, both its PascalCase and its camelCase rendering are `ab`. |
| `Strings.IsUpper` | main.go:124 | unicode.IsUpper holds of the upper-case ASCII letters, and no character it holds of is lower-case. |
| `Strings.IsLower` | main.go:99 | unicode.IsLower holds of the lower-case ASCII letters, and no character it holds of is upper-case. |
| `Strings.LowerChar` | main.go:93 | The per-character mapping of strings.ToLower: its result is never upper-case, an upper-case letter becomes a lower-case one, and every other character is unchanged. |
| `Strings.UpperChar` | main.go:96 | The per-character mapping of strings.ToUpper: its result is never lower-case, a lower-case letter becomes an upper-case one, and every other character is unchanged. |
| `Strings.ToLower` | main.go:93 | strings.ToLower keeps the length and lower-cases each character on its own. |
| `Strings.ToUpper` | main.go:96 | strings.ToUpper keeps the length and upper-cases each character on its own. |
| `Strings.Join` | main.go:135 | strings.Join of at least one piece is as long as the pieces together plus one separator between each two. |
| `Strings.Split` | main.go:109 | strings.Split with a one-character separator yields at least one piece, and no piece contains the separator. |
| `Strings.JoinSplit` | main.go:109 | Joining the pieces of a split with the same separator gives the split string back. |
| `Strings.SplitJoin` | main.go:135 | Splitting a join of at least one separator-free piece gives the pieces back. |
| `Strings.LowerFixedIff` | main.go:93 | A string equals its lower-case form exactly when it has no upper-case letter. |
| `Strings.UpperFixedIff` | main.go:96 | A string equals its upper-case form exactly when it has no lower-case letter. |
| `Strings.LowerOfUpper` | main.go:140 | Lower-casing after upper-casing gives the lower-case form of the original string. |

## Left out

- `Process`, `main` and `printHelp`: reading words from standard input or the
  command line, detecting a terminal, parsing the `-c` flag, printing usage
  and writing results are I/O around the converter. `ChangeCase` is the
  entry point of the model.
- Unicode case rules: `unicode.IsUpper`, `unicode.IsLower`,
  `strings.ToLower` and `strings.ToUpper` are modelled on ASCII letters only.
  Every other character counts as neither upper- nor lower-case and is left
  unchanged.
- Bytes versus runes: `determineCase` tests the first byte (main.go:99),
  `title` upper-cases the first byte and measures the length in bytes
  (main.go:176, 179), and `tokenize` scans runes. On ASCII text these coincide, so the model has one character
  type.
- The string values of the constants `SNAKE` … `LISP` (main.go:28-34)
  become the constructors of the datatype `Chc.Case`. Only their identity
  matters to the program.
- `strings.Builder` is modelled as string concatenation.
- toCamel's zero-token branch (main.go:147-148) cannot be reached from a
  word, because tokenize always yields at least one token (`Chc.Tokens`).
  `Chc.WriteCamel` still handles it, since it takes any token sequence.
- The scan's branch for words shorter than two runes (main.go:117-119) is
  kept in `Chc.CamelSplit` and `Chc.ScanCamel`. Under ASCII classification
  no classified word reaches it (`Chc.MixedCaseWordIsLong`).
- ChcProperties.LispRoundTrip: a token holding `_` is excluded. A one-token
  lisp rendering is classified snake_case and would be split on `_`.
- ChcProperties.PascalRoundTrip: a one-letter token is excluded because
  title does not capitalise it, so it merges with the token before it
  (`ChcExamples.OneLetterTokenNotCapitalised`).
