# Lexer and string interner of a small language front end

This project models the lexical front end of the language: the lexer that
turns a stream of characters into tokens (`src/lexer/lexer.rs`) and the
string interner that gives every distinct identifier text one shared
allocation (`src/utils/interned_string.rs`), together with the token and
error declarations they use (`src/lexer/token.rs`, `src/lexer/error.rs`).

- `Tokens.Token` is the seven-variant token type. It is generic in the
  identifier's text, so the lexer produces `Token<InternedString>` while the
  reference scanner produces `Token<string>`.
- `Errors.Error` has the single variant `UnexpectedEOF`.
- `InternedStrings` models an `Arc<str>` as an `Allocation` object. Object
  identity stands for the allocation's address. `InternedString` wraps an
  allocation. The process-wide `StringStorage` becomes an explicit `Registry`
  object whose `strings` map the methods update in place. Its invariant is
  that every key maps to an allocation holding exactly that key.
- `Lexing.Lexer` is the lexer as a class. The character iterator and its
  one-character lookahead become the whole input `input` and a cursor `pos`.
  The lookahead is `input[pos]` when `pos < |input|`. Every method except
  `Collect`, which is the driver's `for` loop over the lexer, mirrors one
  Rust method and loops where the Rust method loops.
- `LexerSpec` is a pure reference scanner over the whole input:
  - `SkipEnd` is where whitespace and comment skipping stops;
  - `IdentEnd` is where an identifier ends;
  - `Scan` is one token;
  - `Tokenize` is the token sequence the iterator yields.
  The class's methods are proved to compute exactly these.
  Lemmas then state what the scanner promises:
  - skipping, and when it reaches the end;
  - comments;
  - identifier runs;
  - token lexability;
  - the token count bound.
- `LexerLocality` proves that scanning is local. Text before the cursor does
  not matter, and a newline ends every token and comment, so text is scanned
  line by line.
- `LexerRoundTrip` prints tokens back as text (`Unparse`). It proves that
  scanning the printed text gives the tokens back.
- `LexerExamples` states and proves the reference scanner's output on
  concrete inputs, including the demonstration text of `src/main.rs`.

Only whitespace ends an identifier (`src/lexer/lexer.rs:57`). `(`, `)` and
`#` that directly follow identifier text are part of the identifier. So
`(foo)` scans to `LParen` followed by `Identifier("foo)")`, and the
demonstration line `:= c (+ a b)` ends with `Identifier("b)")` and yields no
`RParen` (`LexerExamples.ApplicationLine`, `LexerExamples.DemoInput`).

## Model

| member | source | states |
|---|---|---|
| InternedStrings.Allocation.constructor | src/utils/interned_string.rs:23 | a new allocation holds exactly the given text |
| InternedStrings.HandleOrderIsTotal | src/utils/interned_string.rs:11-12 | the derived equality and order of handles compare texts: exactly one of equal, less, greater holds, and less is transitive |
| InternedStrings.Equal | src/utils/interned_string.rs:11 | the derived `PartialEq`/`Eq` compares texts; handles on one allocation are always equal |
| InternedStrings.Less | src/utils/interned_string.rs:11 | the derived `PartialOrd`/`Ord` orders handles by text; a handle that is less than another is never equal to it |
| InternedStrings.LexLess | src/utils/interned_string.rs:11 | the lexicographic order of texts that `str` comparison uses; it is irreflexive: a text that is less than another differs from it |
| InternedStrings.LexLessTransitive | src/utils/interned_string.rs:11 | the derived `str` order is transitive |
| InternedStrings.LexLessTotal | src/utils/interned_string.rs:11 | any two distinct texts are ordered one way or the other |
| InternedStrings.CanonicalInjective | src/utils/interned_string.rs:22-25 | in a registry where each key maps to an allocation holding that key, distinct keys map to distinct allocations, and equal allocations mean equal keys |
| InternedStrings.EqualIffSameAllocation | src/utils/interned_string.rs:11-12 | two handles held by the registry are equal by text exactly when they share one allocation |
| InternedStrings.InternedIntoProperties | src/utils/interned_string.rs:15-28 | interning keeps the registry canonical; it only grows; the keys become the old keys plus the text; re-interning the same text returns the identical handle and changes nothing |
| InternedStrings.GrowsTransitive | src/utils/interned_string.rs:9 | a registry that grew twice grew from the first state to the last (used for each round of `Collect`) |
| InternedStrings.Registry.constructor | src/utils/interned_string.rs:47 | the registry starts empty and canonical |
| InternedStrings.Registry.FromStr | src/utils/interned_string.rs:15-28 | the handle's text is the input; a present key returns the existing allocation and leaves the registry unchanged; an absent key adds exactly one entry, to a fresh allocation; the registry stays canonical |
| InternedStrings.Registry.FromString | src/utils/interned_string.rs:30-43 | the same contract as `FromStr`: the owned and borrowed entry points have the same effect |
| InternedStrings.InternTwice | src/utils/interned_string.rs:54-64 | interning one text through `From<&str>` and then `From<String>` hands out the very same allocation; the registry gains at most that one entry |
| LexerSpec.IsWhitespace | src/lexer/lexer.rs:47 | `char::is_whitespace`: space, tab, carriage return and newline are whitespace, and no whitespace character is `#` or starts a delimiter or operator |
| LexerSpec.Tokenize | src/lexer/lexer.rs:103-113 | (reference definition, no contract of its own) the token sequence the iterator yields from a cursor; `Next`, `Collect`, `TokenCountBound`, `NoTokensIffBlank`, `TokenizeLexable` and `UnparseRoundTrip` state its properties |
| LexerSpec.SkipEnd | src/lexer/lexer.rs:40-52 | skipping stops within the input, at the end or at a character that is neither whitespace nor `#` |
| LexerSpec.LineEnd | src/lexer/lexer.rs:44-46 | the first newline at or after a position, or the end of the input |
| LexerSpec.IdentEnd | src/lexer/lexer.rs:56-59 | an identifier ends within the input, at or after its start |
| LexerSpec.Scan | src/lexer/lexer.rs:66-100 | one token ends within the input and consumes at least one character unless the lookahead is whitespace |
| LexerSpec.SkipEndStaysIff | src/lexer/lexer.rs:42-48 | skipping stays put exactly when the lookahead is absent or significant |
| LexerSpec.InCommentSkipsLine | src/lexer/lexer.rs:44-46 | inside a comment everything through the next newline is skipped; with no newline left, skipping runs to the end |
| LexerSpec.CommentSkipsLine | src/lexer/lexer.rs:44-46 | a `#` suppresses every character through the next newline, whatever the comment flag was |
| LexerSpec.SkipWhitespaceRun | src/lexer/lexer.rs:47 | a run of whitespace outside a comment is skipped as a whole |
| LexerSpec.LineEndOfRun | src/lexer/lexer.rs:45 | a newline-free stretch ending in a newline or the end of input is what `LineEnd` finds |
| LexerSpec.SkipToEndIffBlank | src/lexer/lexer.rs:40-52 | skipping reaches the end of the input exactly when only whitespace and comments remain |
| LexerSpec.IdentEndIsRunEnd | src/lexer/lexer.rs:56-62 | an identifier holds no whitespace and stops exactly at whitespace or the end of the input |
| LexerSpec.IdentEndOfRun | src/lexer/lexer.rs:56-62 | a whitespace-free stretch ended by whitespace or the end is exactly what `IdentEnd` finds |
| LexerSpec.ScanSpellsConsumed | src/lexer/lexer.rs:74-98 | every token spells exactly the characters it consumed, so each operator consumes one or two characters as its spelling says |
| LexerSpec.ScanIdentifierRun | src/lexer/lexer.rs:98 | a character that starts no delimiter or operator begins a non-empty identifier that is the maximal whitespace-free run, absorbing `(`, `)` and `#` |
| LexerSpec.ScanLexable | src/lexer/lexer.rs:74-98 | at a significant character the scanner yields a lexable token |
| LexerSpec.TokenizeAtSignificant | src/lexer/lexer.rs:106-112 | at a significant lookahead the sequence is the scanned token followed by the tokens after it |
| LexerSpec.TokenizeSkipsWhitespace | src/lexer/lexer.rs:47 | whitespace outside a comment contributes no token |
| LexerSpec.TokenCountBound | src/lexer/lexer.rs:66-113 | there are at most as many tokens as characters left |
| LexerSpec.NoTokensIffBlank | src/lexer/lexer.rs:106-110 | the token sequence is empty exactly when only whitespace and comments remain |
| LexerSpec.TokenizeLexable | src/lexer/lexer.rs:66-113 | every token the scanner yields is lexable |
| LexerLocality.TokenizeShift | src/lexer/lexer.rs:103-113 | the tokens from a position depend only on the text from that position on |
| LexerLocality.TokenizeAppend | src/lexer/lexer.rs:44-47 | text ending in a newline scans to the same tokens alone as in front of any other text |
| LexerRoundTrip.UnparseStep | src/lexer/lexer.rs:74-98 | a lexable token followed by a space scans back to itself, ahead of the tokens of whatever follows |
| LexerRoundTrip.UnparseRoundTrip | src/lexer/lexer.rs:66-113 | scanning the printed form of lexable tokens gives the tokens back |
| LexerRoundTrip.RescanIsIdentity | src/lexer/lexer.rs:66-113 | printing what the scanner found and scanning it again finds the same tokens |
| Lexing.Lexer.constructor | src/lexer/lexer.rs:14-22 | the lookahead starts at the first character of the input |
| Lexing.Lexer.Peek | src/lexer/lexer.rs:28-30 | the lookahead is present exactly before the end of the input and is the character under the cursor |
| Lexing.Lexer.IsDone | src/lexer/lexer.rs:24-26 | the lexer is done exactly at the end of the input |
| Lexing.Lexer.PeekOrEof | src/lexer/lexer.rs:32-34 | `UnexpectedEOF` exactly at the end of the input, the lookahead otherwise |
| Lexing.Lexer.Consume | src/lexer/lexer.rs:36-38 | requires a lookahead; returns it and advances by exactly one character |
| Lexing.Lexer.SkipWhitespace | src/lexer/lexer.rs:40-52 | the cursor moves to `SkipEnd`; afterwards the input is exhausted or the lookahead is neither whitespace nor `#` |
| Lexing.Lexer.ReadIdentifier | src/lexer/lexer.rs:54-64 | the cursor moves to `IdentEnd`; the handle's text is exactly the consumed characters, interned in the registry |
| Lexing.Lexer.NextToken | src/lexer/lexer.rs:66-100 | `UnexpectedEOF` exactly at the end of the input, with nothing consumed; otherwise the token and the new cursor are `Scan`'s, and only an identifier touches the registry, by interning its text |
| Lexing.Lexer.Next | src/lexer/lexer.rs:103-113 | `None` exactly when only whitespace and comments remain, and then the cursor is at the end so every later call is `None` too; a yielded item is never an error; the yielded token followed by the remaining sequence is `Tokenize` from the old cursor |
| Lexing.Lexer.Collect | src/main.rs:18-20 | draining the iterator, as the driver's `for` loop does, yields exactly `Tokenize` of the input; the registry keeps every old entry and its keys become exactly the old keys plus the identifier texts yielded; every identifier holds the registry's allocation for its text |
| LexerExamples.EmptyInput | src/lexer/lexer.rs:106-110 | the empty input yields no token |
| LexerExamples.CommentOnly | src/lexer/lexer.rs:44-46 | a comment without a final newline yields no token |
| LexerExamples.NestedParentheses | src/lexer/lexer.rs:75-76 | `(()(()))` yields the eight parentheses in order |
| LexerExamples.TwoCharacterOperators | src/lexer/lexer.rs:77-97 | `:=->=>` yields `Assign`, `ThinArrow`, `ThickArrow` |
| LexerExamples.LoneOperators | src/lexer/lexer.rs:77-97 | `: - =` yields `Colon`, `Identifier("-")`, `Identifier("=")` |
| LexerExamples.HyphenThenIdentifier | src/lexer/lexer.rs:84-90 | `-x` yields `Identifier("-")` and then `Identifier("x")` |
| LexerExamples.ParenthesisAbsorbed | src/lexer/lexer.rs:56-62 | `(foo)` yields `LParen` and `Identifier("foo)")` |
| LexerExamples.BlankLine | src/main.rs:8 | the demonstration's line of spaces yields nothing |
| LexerExamples.CommentLine | src/main.rs:9 | the demonstration's comment line yields nothing |
| LexerExamples.FirstAssignLine | src/main.rs:10 | leading spaces are skipped, then `:=`, `a`, `1` |
| LexerExamples.SecondAssignLine | src/main.rs:11 | `:= b 2` yields `Assign`, `b`, `2` |
| LexerExamples.ApplicationLine | src/main.rs:12 | `:= c (+ a b)` yields `Assign`, `c`, `LParen`, `+`, `a`, `b)` |
| LexerExamples.UnicodeLine | src/main.rs:13 | `∈ c ℕ` yields three identifiers; characters outside ASCII are identifier content |
| LexerExamples.DemoInput | src/main.rs:7-16 | the whole demonstration text yields its fifteen tokens, ending in `b)`, `∈`, `c`, `ℕ` |

## Left out

- The `Mutex` and `lazy_static` global behind `get_strings`, and the panic when `try_lock` fails. The registry is an explicit object that the caller passes around, used by one thread.
- `Arc` reference counts. Only allocation identity is modelled, as object identity.
- The `Debug` and `Display` implementations. They only format text.
- The demonstration driver in `src/main.rs`: logger set-up and printing each token. Only its input text is modelled, in `LexerExamples`.
- The generic `IntoIterator` character source. The model takes the whole input as a sequence with a cursor. A source that yields characters lazily, or never ends, is not modelled.
- `InternedStrings.Registry.FromString`: the move of the owned `String` into the map is not modelled. Dafny strings are values, so the owned and borrowed entry points coincide.
- `char::is_whitespace` is written out as the Unicode White_Space character list. The model does not follow later changes to the Unicode tables.
- `InternedStrings.Less`: code-point order stands for the byte order of `str` comparison. The two orders agree for UTF-8 text.
