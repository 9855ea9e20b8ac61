/** Scanning is local: what precedes the cursor does not matter, and a
    newline ends every token and every comment, so text that ends in a
    newline is scanned on its own, whatever follows it. */
module LexerLocality {
  import opened Tokens
  import opened LexerSpec

  /** `w` from index `d` on holds exactly the characters of `q`. */
  ghost predicate SuffixAt(w: seq<char>, d: nat, q: seq<char>) {
    |w| == d + |q| && forall k :: 0 <= k < |q| ==> w[d + k] == q[k]
  }

  /** `w` starts with the characters of `p`, and `p` ends in a newline. */
  ghost predicate LinePrefix(w: seq<char>, p: seq<char>) {
    EndsLine(p) && |p| <= |w| && forall k :: 0 <= k < |p| ==> w[k] == p[k]
  }

  /** Non-empty text whose last character is a newline. */
  predicate EndsLine(s: seq<char>) {
    0 < |s| && s[|s| - 1] == '\n'
  }

  // ---------------------------------------------------------------------
  // Text before the cursor does not matter

  /** Skipping from the same place in `q` and in `w` stops at the same place. */
  lemma {:induction false} SkipEndShift(w: seq<char>, d: nat, q: seq<char>, i: nat, inComment: bool)
    requires SuffixAt(w, d, q) && i <= |q|
    ensures SkipEnd(w, d + i, inComment) == d + SkipEnd(q, i, inComment)
    decreases |q| - i
  {
    if i < |q| {
      assert w[d + i] == q[i];
      SkipEndShift(w, d, q, i + 1, true);
      SkipEndShift(w, d, q, i + 1, false);
    }
  }

  /** An identifier read from the same place in `q` and in `w` ends at the same place. */
  lemma {:induction false} IdentEndShift(w: seq<char>, d: nat, q: seq<char>, i: nat)
    requires SuffixAt(w, d, q) && i <= |q|
    ensures IdentEnd(w, d + i) == d + IdentEnd(q, i)
    decreases |q| - i
  {
    if i < |q| {
      assert w[d + i] == q[i];
      IdentEndShift(w, d, q, i + 1);
    }
  }

  /** Scanning from the same place in `q` and in `w` yields the same token. */
  lemma ScanShift(w: seq<char>, d: nat, q: seq<char>, i: nat)
    requires SuffixAt(w, d, q) && i < |q|
    ensures Scan(w, d + i) == Step(Scan(q, i).token, d + Scan(q, i).end)
  {
    assert w[d + i] == q[i];
    if i + 1 < |q| {
      assert w[d + i + 1] == q[i + 1];
    }
    IdentEndShift(w, d, q, i);
    var j := IdentEnd(q, i);
    assert w[d + i..d + j] == q[i..j];
  }

  /** The tokens from a place in `q` are the tokens from the same place in `w`. */
  lemma {:induction false} TokenizeShift(w: seq<char>, d: nat, q: seq<char>, i: nat)
    requires SuffixAt(w, d, q) && i <= |q|
    ensures Tokenize(w, d + i) == Tokenize(q, i)
    decreases |q| - i
  {
    SkipEndShift(w, d, q, i, false);
    var j := SkipEnd(q, i, false);
    if j < |q| {
      ScanShift(w, d, q, j);
      TokenizeShift(w, d, q, Scan(q, j).end);
    }
  }

  // ---------------------------------------------------------------------
  // Text after a newline does not matter

  /** Skipping inside the line `p` is not affected by what follows `p`; skipping
      past its final newline continues at the start of what follows. */
  lemma {:induction false} SkipEndAppend(w: seq<char>, p: seq<char>, i: nat, inComment: bool)
    requires LinePrefix(w, p) && i < |p|
    ensures SkipEnd(w, i, inComment) ==
      if SkipEnd(p, i, inComment) < |p| then SkipEnd(p, i, inComment) else SkipEnd(w, |p|, false)
    decreases |p| - i
  {
    assert w[i] == p[i];
    if i + 1 < |p| {
      SkipEndAppend(w, p, i + 1, true);
      SkipEndAppend(w, p, i + 1, false);
    }
  }

  /** An identifier read inside the line `p` ends inside `p`. */
  lemma {:induction false} IdentEndAppend(w: seq<char>, p: seq<char>, i: nat)
    requires LinePrefix(w, p) && i < |p|
    ensures IdentEnd(w, i) == IdentEnd(p, i)
    decreases |p| - i
  {
    assert w[i] == p[i];
    if i + 1 < |p| {
      IdentEndAppend(w, p, i + 1);
    }
  }

  /** A token scanned inside the line `p` does not depend on what follows `p`. */
  lemma ScanAppend(w: seq<char>, p: seq<char>, i: nat)
    requires LinePrefix(w, p) && i < |p|
    ensures Scan(w, i) == Scan(p, i)
  {
    assert w[i] == p[i];
    if i + 1 < |p| {
      assert w[i + 1] == p[i + 1];
    }
    IdentEndAppend(w, p, i);
    var j := IdentEnd(p, i);
    assert w[i..j] == p[i..j];
  }

  /** The tokens of `w` from inside `p` are those of `p`, then those after `p`. */
  lemma {:induction false} TokenizeAppendFrom(w: seq<char>, p: seq<char>, i: nat)
    requires LinePrefix(w, p) && i <= |p|
    ensures Tokenize(w, i) == Tokenize(p, i) + Tokenize(w, |p|)
    decreases |p| - i
  {
    if i < |p| {
      SkipEndAppend(w, p, i, false);
      var j := SkipEnd(p, i, false);
      if j < |p| {
        ScanAppend(w, p, j);
        TokenizeAppendFrom(w, p, Scan(p, j).end);
      }
    }
  }

  /** Text ending in a newline scans to the same tokens on its own as in
      front of any other text. */
  lemma TokenizeAppend(p: seq<char>, q: seq<char>)
    requires EndsLine(p)
    ensures Tokenize(p + q, 0) == Tokenize(p, 0) + Tokenize(q, 0)
  {
    TokenizeAppendFrom(p + q, p, 0);
    TokenizeShift(p + q, |p|, q, 0);
  }
}
