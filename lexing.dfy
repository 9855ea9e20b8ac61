/** The lexer of src/lexer/lexer.rs as a class with a cursor.

    The character iterator plus its one-character lookahead `next` become the
    whole input `input` and an index `pos`: the lookahead is `input[pos]` when
    `pos < |input|` and absent otherwise, and advancing the iterator is
    incrementing `pos`. Identifier text is interned in the `Registry` the
    lexer is given. Every method is proved against the reference scanner of
    `LexerSpec`. */
module Lexing {
  import opened Wrappers
  import opened Errors
  import opened Tokens
  import opened InternedStrings
  import opened LexerSpec

  /** The token with its identifier's handle replaced by the handle's text. */
  function Erase(t: Token<InternedString>): Token<string> {
    match t
    case LParen => LParen
    case RParen => RParen
    case Colon => Colon
    case ThinArrow => ThinArrow
    case ThickArrow => ThickArrow
    case Assign => Assign
    case Identifier(h) => Identifier(h.Text())
  }

  function EraseAll(ts: seq<Token<InternedString>>): seq<Token<string>> {
    seq(|ts|, k requires 0 <= k < |ts| => Erase(ts[k]))
  }

  /** How producing token `t` changed the registry: an identifier interned its
      text, any other token left the registry alone. */
  ghost predicate Recorded(before: map<string, Allocation>, after: map<string, Allocation>, t: Token<InternedString>) {
    if t.Identifier? then InternedInto(before, after, t.text) else after == before
  }

  /** Every identifier in `ts` holds the registry's canonical allocation for its text. */
  ghost predicate AllCanonical(m: map<string, Allocation>, ts: seq<Token<InternedString>>) {
    forall k :: 0 <= k < |ts| && ts[k].Identifier? ==>
      ts[k].text.Text() in m && m[ts[k].text.Text()] == ts[k].text.alloc
  }

  /** The texts of the identifiers in `ts`. */
  ghost function IdentifierTexts(ts: seq<Token<InternedString>>): set<string> {
    set k | 0 <= k < |ts| && ts[k].Identifier? :: ts[k].text.Text()
  }

  /** One round of draining the iterator keeps the drain's invariant: the
      tokens so far followed by what is left to scan are the whole sequence,
      the registry has grown by exactly the identifier texts so far, and every
      identifier so far is canonical. */
  lemma CollectStep(m: map<string, Allocation>, m0: map<string, Allocation>, m1: map<string, Allocation>,
                    ts: seq<Token<InternedString>>, t: Token<InternedString>,
                    all: seq<Token<string>>, left: seq<Token<string>>, rest: seq<Token<string>>)
    requires Grows(m, m0) && m0.Keys == m.Keys + IdentifierTexts(ts)
    requires AllCanonical(m0, ts) && Recorded(m0, m1, t)
    requires EraseAll(ts) + left == all && left == [Erase(t)] + rest
    ensures Grows(m, m1) && m1.Keys == m.Keys + IdentifierTexts(ts + [t])
    ensures AllCanonical(m1, ts + [t])
    ensures EraseAll(ts + [t]) + rest == all
  {
    assert Grows(m0, m1);
    GrowsTransitive(m, m0, m1);
    var added := if t.Identifier? then {t.text.Text()} else {};
    assert m1.Keys == m0.Keys + added;
    assert IdentifierTexts(ts + [t]) == IdentifierTexts(ts) + added by {
      var us := ts + [t];
      forall x | x in IdentifierTexts(us) ensures x in IdentifierTexts(ts) + added {
        var k :| 0 <= k < |us| && us[k].Identifier? && us[k].text.Text() == x;
        if k < |ts| {
          assert ts[k] == us[k];
        }
      }
      forall x | x in IdentifierTexts(ts) ensures x in IdentifierTexts(us) {
        var k :| 0 <= k < |ts| && ts[k].Identifier? && ts[k].text.Text() == x;
        assert us[k] == ts[k];
      }
      if t.Identifier? {
        assert us[|ts|] == t;
      }
    }
    assert EraseAll(ts + [t]) == EraseAll(ts) + [Erase(t)];
  }

  class Lexer {
    const input: seq<char>
    var pos: nat
    const registry: Registry

    ghost predicate Valid()
      reads this, registry
    {
      pos <= |input| && registry.Valid()
    }

    /** `Lexer::new`: the lookahead starts at the first character, if any. */
    constructor (input: seq<char>, registry: Registry)
      requires registry.Valid()
      ensures Valid()
      ensures this.input == input && this.registry == registry && pos == 0
    {
      this.input := input;
      this.registry := registry;
      pos := 0;
    }

    /** `peek`: the lookahead character, absent once the input is exhausted. */
    function Peek(): (c: Option<char>)
      reads this
      requires pos <= |input|
      ensures c.Some? <==> pos < |input|
      ensures c.Some? ==> c.value == input[pos]
    {
      if pos < |input| then Some(input[pos]) else None
    }

    /** `is_done`: no lookahead is left. */
    function IsDone(): (b: bool)
      reads this
      requires pos <= |input|
      ensures b <==> pos == |input|
    {
      Peek().None?
    }

    /** `peek_or_eof`: the lookahead, or `UnexpectedEOF` when there is none. */
    function PeekOrEof(): (r: Result<char, Error>)
      reads this
      requires pos <= |input|
      ensures r.Err? <==> pos == |input|
      ensures r.Err? ==> r.error == UnexpectedEOF
      ensures r.Ok? ==> r.value == input[pos]
    {
      match Peek()
      case Some(c) => Ok(c)
      case None => Err(UnexpectedEOF)
    }

    /** `consume`: hand back the lookahead and advance by one character.
        The source panics when there is no lookahead, so callers must ensure one. */
    method Consume() returns (c: char)
      requires Valid() && pos < |input|
      modifies this`pos
      ensures Valid()
      ensures c == input[old(pos)] && pos == old(pos) + 1
    {
      c := input[pos];
      pos := pos + 1;
    }

    /** `skip_whitespace`: skip whitespace and `#` comments; afterwards the
        input is exhausted or the lookahead is significant. */
    method SkipWhitespace()
      requires Valid()
      modifies this`pos
      ensures Valid()
      ensures pos == SkipEnd(input, old(pos), false)
      ensures pos == |input| || Significant(input[pos])
    {
      var inComment := false;
      while !IsDone()
        invariant Valid() && old(pos) <= pos
        invariant SkipEnd(input, pos, inComment) == SkipEnd(input, old(pos), false)
        decreases |input| - pos
      {
        var c := Peek().value;
        if c == '#' {
          inComment := true;
        } else if c == '\n' {
          inComment := false;
        } else if inComment {
        } else if IsWhitespace(c) {
        } else {
          break;
        }
        var _ := Consume();
      }
    }

    /** `read_identifier`: collect characters up to the next whitespace or the
        end of the input, then intern the collected text. */
    method ReadIdentifier() returns (name: InternedString)
      requires Valid()
      modifies this`pos, registry
      ensures Valid()
      ensures pos == IdentEnd(input, old(pos))
      ensures name.Text() == input[old(pos)..pos]
      ensures InternedInto(old(registry.strings), registry.strings, name)
    {
      var s := "";
      while !IsDone()
        invariant Valid() && old(pos) <= pos
        invariant s == input[old(pos)..pos]
        invariant IdentEnd(input, pos) == IdentEnd(input, old(pos))
        invariant registry.strings == old(registry.strings)
        decreases |input| - pos
      {
        var c := Peek().value;
        if IsWhitespace(c) {
          break;
        }
        s := s + [c];
        var _ := Consume();
      }
      name := registry.FromString(s);
    }

    /** `next_token`: classify the lookahead. Two-character operators win when
        the second character matches; a lone `-` or `=` is an identifier. */
    method NextToken() returns (r: Result<Token<InternedString>, Error>)
      requires Valid()
      modifies this`pos, registry
      ensures Valid()
      ensures r.Err? <==> old(pos) == |input|
      ensures r.Err? ==> r.error == UnexpectedEOF && pos == old(pos) && registry.strings == old(registry.strings)
      ensures r.Ok? ==> old(pos) < |input| && Erase(r.value) == Scan(input, old(pos)).token
      ensures r.Ok? ==> pos == Scan(input, old(pos)).end
      ensures r.Ok? ==> Recorded(old(registry.strings), registry.strings, r.value)
    {
      var peeked := PeekOrEof();
      if peeked.Err? {
        return Err(peeked.error);
      }
      match peeked.value
      case '(' =>
        var _ := Consume();
        return Ok(LParen);
      case ')' =>
        var _ := Consume();
        return Ok(RParen);
      case ':' =>
        var _ := Consume();
        if Peek() == Some('=') {
          var _ := Consume();
          return Ok(Assign);
        }
        return Ok(Colon);
      case '-' =>
        var _ := Consume();
        if Peek() == Some('>') {
          var _ := Consume();
          return Ok(ThinArrow);
        }
        var minus := registry.FromStr("-");
        return Ok(Identifier(minus));
      case '=' =>
        var _ := Consume();
        if Peek() == Some('>') {
          var _ := Consume();
          return Ok(ThickArrow);
        }
        var equals := registry.FromStr("=");
        return Ok(Identifier(equals));
      case _ =>
        var name := ReadIdentifier();
        return Ok(Identifier(name));
    }

    /** `Iterator::next`: skip, end the sequence for good when nothing is
        left, otherwise yield the next token, which is never an error. */
    method Next() returns (r: Option<Result<Token<InternedString>, Error>>)
      requires Valid()
      modifies this`pos, registry
      ensures Valid()
      ensures r.None? <==> Blank(input, old(pos))
      ensures r.None? ==> pos == |input| && registry.strings == old(registry.strings)
      ensures old(pos) == |input| ==> r.None?
      ensures r.Some? ==> r.value.Ok? && old(pos) < pos
      ensures r.Some? ==> Recorded(old(registry.strings), registry.strings, r.value.value)
      ensures Tokenize(input, old(pos)) ==
        if r.None? then [] else [Erase(r.value.value)] + Tokenize(input, pos)
    {
      SkipToEndIffBlank(input, pos);
      SkipWhitespace();
      if IsDone() {
        return None;
      }
      var t := NextToken();
      return Some(t);
    }

    /** Drive the iterator to its end, as the `for` loop of src/main.rs does:
        the tokens are those of the reference scanner, the registry gains
        exactly the identifier texts, and every identifier holds the
        canonical allocation for its text. */
    method Collect() returns (ts: seq<Token<InternedString>>)
      requires Valid()
      modifies this`pos, registry
      ensures Valid() && pos == |input|
      ensures EraseAll(ts) == Tokenize(input, old(pos))
      ensures Grows(old(registry.strings), registry.strings)
      ensures registry.strings.Keys == old(registry.strings).Keys + IdentifierTexts(ts)
      ensures AllCanonical(registry.strings, ts)
    {
      ts := [];
      while true
        invariant Valid() && old(pos) <= pos
        invariant EraseAll(ts) + Tokenize(input, pos) == Tokenize(input, old(pos))
        invariant Grows(old(registry.strings), registry.strings)
        invariant registry.strings.Keys == old(registry.strings).Keys + IdentifierTexts(ts)
        invariant AllCanonical(registry.strings, ts)
        decreases |input| - pos
      {
        ghost var before, at := registry.strings, pos;
        var r := Next();
        if r.None? {
          break;
        }
        var t := r.value.value;
        CollectStep(old(registry.strings), before, registry.strings, ts, t,
                    Tokenize(input, old(pos)), Tokenize(input, at), Tokenize(input, pos));
        ts := ts + [t];
      }
    }
  }
}
