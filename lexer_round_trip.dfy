/** Printing tokens back as source text and scanning that text again gives
    the same tokens: `Tokenize` inverts `Unparse` on every sequence of
    lexable tokens, and so on everything `Tokenize` produces. */
module LexerRoundTrip {
  import opened Tokens
  import opened LexerSpec
  import opened LexerLocality

  /** Source text for a token sequence: each token's spelling followed by one space. */
  function Unparse(ts: seq<Token<string>>): string {
    if ts == [] then [] else Spell(ts[0]) + " " + Unparse(ts[1..])
  }

  // ---------------------------------------------------------------------
  // One token followed by a space

  /** A lexable token, spelled and followed by a space, scans back to itself
      and consumes exactly its spelling. */
  lemma ScanSpelled(t: Token<string>, w: seq<char>)
    requires Lexable(t)
    requires |Spell(t)| < |w| && w[..|Spell(t)|] == Spell(t) && w[|Spell(t)|] == ' '
    ensures Significant(w[0])
    ensures Scan(w, 0) == Step(t, |Spell(t)|)
  {
    var x := Spell(t);
    assert w[0] == x[0];
    if t.Identifier? && x != "-" && x != "=" {
      forall k | 0 <= k < |x| ensures !IsWhitespace(w[k]) {
        assert w[k] == x[k];
      }
      IdentEndOfRun(w, 0, |x|);
    } else if |x| == 2 {
      assert w[1] == x[1];
    }
  }

  /** A token that ends just before whitespace is followed by the tokens of
      the text after that whitespace. */
  lemma TokenThenRest(w: seq<char>, t: Token<string>, n: nat, rest: seq<char>)
    requires 0 < |w| && Significant(w[0]) && Scan(w, 0) == Step(t, n)
    requires n < |w| && IsWhitespace(w[n]) && SuffixAt(w, n + 1, rest)
    ensures Tokenize(w, 0) == [t] + Tokenize(rest, 0)
  {
    TokenizeAtSignificant(w, 0);
    var after := Tokenize(w, n);
    TokenizeSkipsWhitespace(w, n);
    TokenizeShift(w, n + 1, rest, 0);
    assert after == Tokenize(rest, 0);
  }

  /** A lexable token, spelled and followed by a space, scans to itself
      ahead of whatever the rest of the text scans to. */
  lemma UnparseStep(t: Token<string>, rest: seq<char>)
    requires Lexable(t)
    ensures Tokenize(Spell(t) + " " + rest, 0) == [t] + Tokenize(rest, 0)
  {
    var w := Spell(t) + " " + rest;
    var n := |Spell(t)|;
    assert w[..n] == Spell(t) && w[n] == ' ';
    ScanSpelled(t, w);
    assert SuffixAt(w, n + 1, rest);
    TokenThenRest(w, t, n, rest);
  }

  // ---------------------------------------------------------------------
  // The round trip

  /** Scanning the printed form of lexable tokens gives the tokens back. */
  lemma {:induction false} UnparseRoundTrip(ts: seq<Token<string>>)
    requires forall t :: t in ts ==> Lexable(t)
    ensures Tokenize(Unparse(ts), 0) == ts
  {
    if ts != [] {
      var rest := Unparse(ts[1..]);
      assert Unparse(ts) == Spell(ts[0]) + " " + rest;
      UnparseStep(ts[0], rest);
      UnparseRoundTrip(ts[1..]);
      assert ts == [ts[0]] + ts[1..];
    }
  }

  /** Printing what the scanner found and scanning it again finds the same tokens. */
  lemma RescanIsIdentity(s: seq<char>)
    ensures Tokenize(Unparse(Tokenize(s, 0)), 0) == Tokenize(s, 0)
  {
    TokenizeLexable(s, 0);
    UnparseRoundTrip(Tokenize(s, 0));
  }
}
