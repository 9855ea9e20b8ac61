/** The reference scanner: the lexer of src/lexer/lexer.rs restated as pure
    functions over the whole input `s` and a cursor `i` (the lookahead is
    `s[i]` when `i < |s|`). The imperative `Lexing.Lexer` is proved to agree
    with these functions. */
module LexerSpec {
  import opened Tokens

  /** `char::is_whitespace`: the characters with the Unicode White_Space property. */
  predicate IsWhitespace(c: char): (b: bool)
    ensures c == ' ' || c == '\t' || c == '\n' || c == '\r' ==> b
    ensures b ==> c != '#' && c !in "():-="
  {
    || ('\t' <= c <= '\r')
    || c == ' '
    || c == '\U{0085}'
    || c == '\U{00A0}'
    || c == '\U{1680}'
    || ('\U{2000}' <= c <= '\U{200A}')
    || c == '\U{2028}'
    || c == '\U{2029}'
    || c == '\U{202F}'
    || c == '\U{205F}'
    || c == '\U{3000}'
  }

  /** A character at which whitespace-and-comment skipping stops. */
  predicate Significant(c: char) {
    c != '#' && !IsWhitespace(c)
  }

  /** Where `skip_whitespace` stops when started at `i` with the comment flag
      `inComment`: `#` turns the flag on, `\n` turns it off, and every other
      character is skipped while the flag is on or when it is whitespace. */
  function SkipEnd(s: seq<char>, i: nat, inComment: bool): (j: nat)
    requires i <= |s|
    ensures i <= j <= |s|
    ensures j < |s| ==> Significant(s[j])
    decreases |s| - i
  {
    if i == |s| then i
    else if s[i] == '#' then SkipEnd(s, i + 1, true)
    else if s[i] == '\n' then SkipEnd(s, i + 1, false)
    else if inComment then SkipEnd(s, i + 1, true)
    else if IsWhitespace(s[i]) then SkipEnd(s, i + 1, false)
    else i
  }

  /** The index of the first `\n` at or after `i`, or `|s|` if there is none. */
  function LineEnd(s: seq<char>, i: nat): (j: nat)
    requires i <= |s|
    ensures i <= j <= |s|
    ensures j < |s| ==> s[j] == '\n'
    ensures forall k :: i <= k < j ==> s[k] != '\n'
    decreases |s| - i
  {
    if i == |s| || s[i] == '\n' then i else LineEnd(s, i + 1)
  }

  /** Text that holds no token: a run of whitespace characters and comments,
      a comment being `#` up to and including the next `\n`, or up to the end. */
  predicate Blank(s: seq<char>, i: nat)
    requires i <= |s|
    decreases |s| - i
  {
    || i == |s|
    || (IsWhitespace(s[i]) && Blank(s, i + 1))
    || (s[i] == '#' && (LineEnd(s, i) == |s| || Blank(s, LineEnd(s, i) + 1)))
  }

  /** Where `read_identifier` stops: the first whitespace at or after `i`, or the end. */
  function IdentEnd(s: seq<char>, i: nat): (j: nat)
    requires i <= |s|
    ensures i <= j <= |s|
    decreases |s| - i
  {
    if i == |s| || IsWhitespace(s[i]) then i else IdentEnd(s, i + 1)
  }

  /** One token and the index just past the characters it consumed. */
  datatype Step = Step(token: Token<string>, end: nat)

  /** `next_token` with the lookahead at `s[i]`. */
  function Scan(s: seq<char>, i: nat): (r: Step)
    requires i < |s|
    ensures i <= r.end <= |s|
    ensures !IsWhitespace(s[i]) ==> i < r.end
  {
    match s[i]
    case '(' => Step(LParen, i + 1)
    case ')' => Step(RParen, i + 1)
    case ':' => if i + 1 < |s| && s[i + 1] == '=' then Step(Assign, i + 2) else Step(Colon, i + 1)
    case '-' => if i + 1 < |s| && s[i + 1] == '>' then Step(ThinArrow, i + 2) else Step(Identifier("-"), i + 1)
    case '=' => if i + 1 < |s| && s[i + 1] == '>' then Step(ThickArrow, i + 2) else Step(Identifier("="), i + 1)
    case _ => var j := IdentEnd(s, i); Step(Identifier(s[i..j]), j)
  }

  /** The whole token sequence the iterator yields from cursor `i`: skip, stop
      at the end, otherwise scan one token and continue after it. */
  function Tokenize(s: seq<char>, i: nat): seq<Token<string>>
    requires i <= |s|
    decreases |s| - i
  {
    var j := SkipEnd(s, i, false);
    if j == |s| then [] else
      var step := Scan(s, j);
      [step.token] + Tokenize(s, step.end)
  }

  /** The source text of a token. */
  function Spell(t: Token<string>): string {
    match t
    case LParen => "("
    case RParen => ")"
    case Colon => ":"
    case ThinArrow => "->"
    case ThickArrow => "=>"
    case Assign => ":="
    case Identifier(x) => x
  }

  /** A token that the scanner can produce: an identifier is non-empty, holds
      no whitespace and is either a lone `-` or `=`, or starts with a
      character that begins no other token and no comment. */
  predicate Lexable(t: Token<string>) {
    match t
    case Identifier(x) =>
      && x != []
      && (forall k :: 0 <= k < |x| ==> !IsWhitespace(x[k]))
      && (x == "-" || x == "=" || (x[0] != '#' && x[0] !in "():-="))
    case _ => true
  }

  // ---------------------------------------------------------------------
  // Skipping whitespace and comments

  /** Skipping stops at once exactly when the lookahead is significant or absent. */
  lemma SkipEndStaysIff(s: seq<char>, i: nat)
    requires i <= |s|
    ensures SkipEnd(s, i, false) == i <==> i == |s| || Significant(s[i])
  {
  }

  /** Inside a comment everything up to and including the next `\n` is
      skipped; with no `\n` left, skipping runs to the end of the input. */
  lemma {:induction false} InCommentSkipsLine(s: seq<char>, i: nat)
    requires i <= |s|
    ensures SkipEnd(s, i, true) ==
      if LineEnd(s, i) == |s| then |s| else SkipEnd(s, LineEnd(s, i) + 1, false)
    decreases |s| - i
  {
    if i < |s| && s[i] != '\n' {
      InCommentSkipsLine(s, i + 1);
    }
  }

  /** A `#` suppresses every character through the next `\n`, whatever the comment flag. */
  lemma CommentSkipsLine(s: seq<char>, i: nat, inComment: bool)
    requires i < |s| && s[i] == '#'
    ensures SkipEnd(s, i, inComment) ==
      if LineEnd(s, i) == |s| then |s| else SkipEnd(s, LineEnd(s, i) + 1, false)
  {
    InCommentSkipsLine(s, i + 1);
  }

  /** A run of whitespace outside a comment is skipped as a whole. */
  lemma {:induction false} SkipWhitespaceRun(s: seq<char>, i: nat, k: nat)
    requires i <= k <= |s|
    requires forall m :: i <= m < k ==> IsWhitespace(s[m])
    ensures SkipEnd(s, i, false) == SkipEnd(s, k, false)
    decreases k - i
  {
    if i < k {
      SkipWhitespaceRun(s, i + 1, k);
    }
  }

  /** A stretch free of `\n` followed by `\n` or the end is what `LineEnd` finds. */
  lemma {:induction false} LineEndOfRun(s: seq<char>, i: nat, j: nat)
    requires i <= j <= |s|
    requires forall k :: i <= k < j ==> s[k] != '\n'
    requires j == |s| || s[j] == '\n'
    ensures LineEnd(s, i) == j
    decreases j - i
  {
    if i < j {
      LineEndOfRun(s, i + 1, j);
    }
  }

  /** Skipping reaches the end of the input exactly when only whitespace and comments remain. */
  lemma {:induction false} SkipToEndIffBlank(s: seq<char>, i: nat)
    requires i <= |s|
    ensures SkipEnd(s, i, false) == |s| <==> Blank(s, i)
    decreases |s| - i
  {
    if i < |s| {
      if s[i] == '#' {
        CommentSkipsLine(s, i, false);
        if LineEnd(s, i) < |s| {
          SkipToEndIffBlank(s, LineEnd(s, i) + 1);
        }
      } else if IsWhitespace(s[i]) {
        SkipToEndIffBlank(s, i + 1);
      }
    }
  }

  // ---------------------------------------------------------------------
  // Identifiers

  /** An identifier run is maximal: it holds no whitespace and stops exactly
      at whitespace or at the end of the input. */
  lemma {:induction false} IdentEndIsRunEnd(s: seq<char>, i: nat)
    requires i <= |s|
    ensures var j := IdentEnd(s, i);
      && (forall k :: i <= k < j ==> !IsWhitespace(s[k]))
      && (j == |s| || IsWhitespace(s[j]))
    decreases |s| - i
  {
    if i < |s| && !IsWhitespace(s[i]) {
      IdentEndIsRunEnd(s, i + 1);
    }
  }

  /** Conversely, a whitespace-free stretch ended by whitespace or the end is what `IdentEnd` finds. */
  lemma {:induction false} IdentEndOfRun(s: seq<char>, i: nat, j: nat)
    requires i <= j <= |s|
    requires forall k :: i <= k < j ==> !IsWhitespace(s[k])
    requires j == |s| || IsWhitespace(s[j])
    ensures IdentEnd(s, i) == j
    decreases j - i
  {
    if i < j {
      IdentEndOfRun(s, i + 1, j);
    }
  }

  // ---------------------------------------------------------------------
  // Single tokens

  /** Every token spells exactly the characters it consumed. */
  lemma ScanSpellsConsumed(s: seq<char>, i: nat)
    requires i < |s|
    ensures Spell(Scan(s, i).token) == s[i..Scan(s, i).end]
  {
  }

  /** A character that starts no delimiter or operator begins an identifier
      that is the maximal whitespace-free run from it; `(`, `)` and `#` are
      absorbed into the run. */
  lemma ScanIdentifierRun(s: seq<char>, i: nat)
    requires i < |s| && !IsWhitespace(s[i]) && s[i] !in "():-="
    ensures var r := Scan(s, i);
      && r.token == Identifier(s[i..r.end])
      && |s[i..r.end]| > 0
      && (forall k :: i <= k < r.end ==> !IsWhitespace(s[k]))
      && (r.end == |s| || IsWhitespace(s[r.end]))
  {
    IdentEndIsRunEnd(s, i);
  }

  /** At a significant character the scanner yields a lexable token. */
  lemma ScanLexable(s: seq<char>, i: nat)
    requires i < |s| && Significant(s[i])
    ensures Lexable(Scan(s, i).token)
  {
    if s[i] !in "():-=" {
      ScanIdentifierRun(s, i);
      var x := s[i..Scan(s, i).end];
      assert x[0] == s[i];
      forall k | 0 <= k < |x| ensures !IsWhitespace(x[k]) {
        assert x[k] == s[i + k];
      }
    }
  }

  // ---------------------------------------------------------------------
  // The token sequence

  /** At a significant character the sequence is the token scanned there
      followed by the tokens after it. */
  lemma TokenizeAtSignificant(s: seq<char>, i: nat)
    requires i < |s| && Significant(s[i])
    ensures Tokenize(s, i) == [Scan(s, i).token] + Tokenize(s, Scan(s, i).end)
  {
  }

  /** Whitespace outside a comment contributes nothing to the sequence. */
  lemma TokenizeSkipsWhitespace(s: seq<char>, i: nat)
    requires i < |s| && IsWhitespace(s[i])
    ensures Tokenize(s, i) == Tokenize(s, i + 1)
  {
    assert SkipEnd(s, i, false) == SkipEnd(s, i + 1, false);
  }

  /** Each token consumes at least one character, so there are at most as
      many tokens as characters left. */
  lemma {:induction false} TokenCountBound(s: seq<char>, i: nat)
    requires i <= |s|
    ensures |Tokenize(s, i)| <= |s| - i
    decreases |s| - i
  {
    var j := SkipEnd(s, i, false);
    if j < |s| {
      TokenCountBound(s, Scan(s, j).end);
    }
  }

  /** The iterator ends at once exactly when only whitespace and comments remain. */
  lemma NoTokensIffBlank(s: seq<char>, i: nat)
    requires i <= |s|
    ensures Tokenize(s, i) == [] <==> Blank(s, i)
  {
    SkipToEndIffBlank(s, i);
  }

  /** Every token in the sequence is lexable. */
  lemma {:induction false} TokenizeLexable(s: seq<char>, i: nat)
    requires i <= |s|
    ensures forall t :: t in Tokenize(s, i) ==> Lexable(t)
    decreases |s| - i
  {
    var j := SkipEnd(s, i, false);
    if j < |s| {
      ScanLexable(s, j);
      TokenizeLexable(s, Scan(s, j).end);
    }
  }
}
