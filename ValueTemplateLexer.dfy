/**
 * The XSLT attribute value template lexer: in its default state it splits
 * literal text into contents, escaped braces and block delimiters; an
 * opening brace pushes the expression state, whose tokens come from the
 * XPath lexer.
 */
module ValueTemplateLexer {
  import opened Wrappers

  datatype TokenType = EscapedCharacter | BlockOpen | BlockClose | ValueContents

  const DefaultState: int := 0
  const ExpressionState: int := 32

  predicate IsBrace(c: char) {
    c == '{' || c == '}'
  }

  /** The end of the literal contents starting at `j`: the next brace or the end of the buffer. */
  function ContentsEnd(text: seq<char>, j: nat): (r: nat)
    requires j <= |text|
    ensures j <= r <= |text|
    ensures forall k :: j <= k < r ==> !IsBrace(text[k])
    ensures r < |text| ==> IsBrace(text[r])
    decreases |text| - j
  {
    if j == |text| || IsBrace(text[j]) then j else ContentsEnd(text, j + 1)
  }

  /** The token starting at `i` in the default state and where it ends; None at the end of the buffer. */
  function NextToken(text: seq<char>, i: nat): (r: Option<(TokenType, nat)>)
    requires i <= |text|
    ensures r.None? <==> i == |text|
    ensures r.Some? ==> i < r.value.1 <= |text|
    ensures r.Some? && r.value.0 == EscapedCharacter ==>
      text[i..r.value.1] == "{{" || text[i..r.value.1] == "}}"
    ensures r.Some? && r.value.0 == BlockOpen ==>
      text[i..r.value.1] == "{" && (r.value.1 == |text| || text[r.value.1] != '{')
    ensures r.Some? && r.value.0 == BlockClose ==>
      text[i..r.value.1] == "}" && (r.value.1 == |text| || text[r.value.1] != '}')
    ensures r.Some? && r.value.0 == ValueContents ==>
      (forall k :: i <= k < r.value.1 ==> !IsBrace(text[k])) && (r.value.1 == |text| || IsBrace(text[r.value.1]))
  {
    if i == |text| then None
    else if text[i] == '{' then
      if i + 1 < |text| && text[i + 1] == '{' then Some((EscapedCharacter, i + 2)) else Some((BlockOpen, i + 1))
    else if text[i] == '}' then
      if i + 1 < |text| && text[i + 1] == '}' then Some((EscapedCharacter, i + 2)) else Some((BlockClose, i + 1))
    else Some((ValueContents, ContentsEnd(text, i)))
  }

  datatype Token = Token(tokenType: TokenType, start: nat, end: nat)

  /**
   * The tokens of the default state from `i`: up to the end of the buffer,
   * or up to and including an opening brace, after which the XPath lexer
   * takes over.
   */
  function DefaultTokens(text: seq<char>, i: nat): seq<Token>
    requires i <= |text|
    decreases |text| - i
  {
    match NextToken(text, i)
    case None => []
    case Some((t, end)) =>
      if t == BlockOpen then [Token(t, i, end)] else [Token(t, i, end)] + DefaultTokens(text, end)
  }

  /** A token other than an opening brace is followed by the tokens from its end. */
  lemma DefaultTokensStep(text: seq<char>, i: nat, t: TokenType, end: nat)
    requires i <= |text| && NextToken(text, i) == Some((t, end)) && t != BlockOpen
    ensures DefaultTokens(text, i) == [Token(t, i, end)] + DefaultTokens(text, end)
  {
  }

  /** An opening brace is the last default-state token. */
  lemma DefaultTokensOpen(text: seq<char>, i: nat, end: nat)
    requires i <= |text| && NextToken(text, i) == Some((BlockOpen, end))
    ensures DefaultTokens(text, i) == [Token(BlockOpen, i, end)]
  {
  }

  /** No tokens where there is no next token. */
  lemma DefaultTokensNone(text: seq<char>, i: nat)
    requires i <= |text| && NextToken(text, i).None?
    ensures DefaultTokens(text, i) == []
  {
  }

  /** No tokens at the end of the buffer. */
  lemma DefaultTokensEnd(text: seq<char>)
    ensures DefaultTokens(text, |text|) == []
  {
  }

  /** Where the tokens stop: the last token's end, or `i` when there are none. */
  function StopsAt(tokens: seq<Token>, i: nat): nat {
    if |tokens| == 0 then i else tokens[|tokens| - 1].end
  }

  /** Whether every token lies within the text. */
  predicate Within(text: seq<char>, tokens: seq<Token>) {
    forall k :: 0 <= k < |tokens| ==> tokens[k].start <= tokens[k].end <= |text|
  }

  /** The text the tokens cover, token after token. */
  function Spelled(text: seq<char>, tokens: seq<Token>): seq<char>
    requires Within(text, tokens)
  {
    if |tokens| == 0 then [] else text[tokens[0].start..tokens[0].end] + Spelled(text, tokens[1..])
  }

  /** The default-state tokens lie within the text and start where the previous one ended. */
  lemma {:induction false} DefaultTokensInText(text: seq<char>, i: nat)
    requires i <= |text|
    ensures forall k :: 0 <= k < |DefaultTokens(text, i)| ==>
      i <= DefaultTokens(text, i)[k].start < DefaultTokens(text, i)[k].end <= |text|
    ensures |DefaultTokens(text, i)| > 0 ==> DefaultTokens(text, i)[0].start == i
    ensures forall k :: 0 < k < |DefaultTokens(text, i)| ==>
      DefaultTokens(text, i)[k].start == DefaultTokens(text, i)[k - 1].end
    decreases |text| - i
  {
    match NextToken(text, i)
    case None =>
    case Some((t, end)) =>
      if t != BlockOpen {
        DefaultTokensInText(text, end);
        var rest := DefaultTokens(text, end);
        assert DefaultTokens(text, i) == [Token(t, i, end)] + rest;
      }
  }

  /**
   * The default-state tokens tile the text without gaps: spelled out they
   * give back the text they cover.
   */
  lemma {:induction false} DefaultTokensSpellText(text: seq<char>, i: nat)
    requires i <= |text|
    ensures Within(text, DefaultTokens(text, i))
    ensures i <= StopsAt(DefaultTokens(text, i), i) <= |text|
    ensures Spelled(text, DefaultTokens(text, i)) == text[i..StopsAt(DefaultTokens(text, i), i)]
    decreases |text| - i
  {
    hide DefaultTokens;
    DefaultTokensInText(text, i);
    var tokens := DefaultTokens(text, i);
    var next := NextToken(text, i);
    if next.Some? {
      var end := next.value.1;
      if next.value.0 != BlockOpen {
        DefaultTokensSpellText(text, end);
        var rest := DefaultTokens(text, end);
        DefaultTokensStep(text, i, next.value.0, end);
        assert tokens[1..] == rest;
        var stop := StopsAt(rest, end);
        assert StopsAt(tokens, i) == stop;
        assert Spelled(text, tokens) == text[i..end] + Spelled(text, rest);
        assert text[i..stop] == text[i..end] + text[end..stop];
      } else {
        DefaultTokensOpen(text, i, end);
        assert tokens[1..] == [];
      }
    } else {
      DefaultTokensNone(text, i);
    }
  }

  /**
   * The tokens run to the end of the buffer unless the last one is an
   * opening brace, and no other token is one.
   */
  lemma {:induction false} DefaultTokensStopAtBlockOpen(text: seq<char>, i: nat)
    requires i <= |text|
    ensures StopsAt(DefaultTokens(text, i), i) == |text| ||
      DefaultTokens(text, i)[|DefaultTokens(text, i)| - 1].tokenType == BlockOpen
    ensures forall k :: 0 <= k < |DefaultTokens(text, i)| - 1 ==> DefaultTokens(text, i)[k].tokenType != BlockOpen
    decreases |text| - i
  {
    var tokens := DefaultTokens(text, i);
    match NextToken(text, i)
    case None =>
    case Some((t, end)) =>
      if t != BlockOpen {
        DefaultTokensStopAtBlockOpen(text, end);
        var rest := DefaultTokens(text, end);
        assert tokens == [Token(t, i, end)] + rest;
        forall k | 0 < k < |tokens| - 1 ensures tokens[k].tokenType != BlockOpen {
          assert tokens[k] == rest[k - 1];
        }
      }
  }

  /** The contents from `j` end at `e` when `e` is the first brace or the end of the buffer. */
  lemma {:induction false} ContentsEndAt(text: seq<char>, j: nat, e: nat)
    requires j <= e <= |text|
    requires forall k :: j <= k < e ==> !IsBrace(text[k])
    requires e == |text| || IsBrace(text[e])
    ensures ContentsEnd(text, j) == e
    decreases e - j
  {
    if j < e {
      ContentsEndAt(text, j + 1, e);
    }
  }

  /** The lexer of one value template, with its token range, token type and state stack. */
  class Lexer {
    const buffer: seq<char>
    var tokenStart: nat
    var tokenEnd: nat
    var tokenType: Option<TokenType>
    var states: seq<int>

    constructor(buffer: seq<char>)
      ensures this.buffer == buffer && tokenStart == tokenEnd == 0 && tokenType.None? && states == []
    {
      this.buffer := buffer;
      tokenStart, tokenEnd := 0, 0;
      tokenType := None;
      states := [];
    }

    /**
     * `stateDefault`: lex the token at the start of the range. A lone `{`
     * pushes the expression state; everything else leaves the stack alone.
     */
    method StateDefault()
      requires tokenStart == tokenEnd <= |buffer|
      modifies this
      ensures tokenStart == old(tokenStart) && tokenEnd <= |buffer|
      ensures NextToken(buffer, tokenStart).None? ==> tokenType.None? && tokenEnd == tokenStart
      ensures NextToken(buffer, tokenStart).Some? ==>
        tokenType == Some(NextToken(buffer, tokenStart).value.0) && tokenEnd == NextToken(buffer, tokenStart).value.1
      ensures states == old(states) + (if tokenType == Some(BlockOpen) then [ExpressionState] else [])
    {
      if tokenEnd == |buffer| {
        tokenType := None;
      } else if buffer[tokenEnd] == '{' {
        tokenEnd := tokenEnd + 1;
        if tokenEnd < |buffer| && buffer[tokenEnd] == '{' {
          tokenEnd := tokenEnd + 1;
          tokenType := Some(EscapedCharacter);
        } else {
          tokenType := Some(BlockOpen);
          states := states + [ExpressionState];
        }
      } else if buffer[tokenEnd] == '}' {
        tokenEnd := tokenEnd + 1;
        if tokenEnd < |buffer| && buffer[tokenEnd] == '}' {
          tokenEnd := tokenEnd + 1;
          tokenType := Some(EscapedCharacter);
        } else {
          tokenType := Some(BlockClose);
        }
      } else {
        while tokenEnd < |buffer| && !IsBrace(buffer[tokenEnd])
          invariant tokenStart == old(tokenStart) <= tokenEnd <= |buffer|
          invariant ContentsEnd(buffer, tokenEnd) == ContentsEnd(buffer, tokenStart)
          invariant states == old(states) && tokenType == old(tokenType)
          decreases |buffer| - tokenEnd
        {
          tokenEnd := tokenEnd + 1;
        }
        tokenType := Some(ValueContents);
      }
    }

    /**
     * `advance(state)`: a new token starts where the last one ended; the
     * default state is lexed here, every other state by the XPath lexer,
     * which is reported as `delegated` with the lexer state left as it was.
     */
    method Advance(state: int) returns (delegated: bool)
      requires tokenEnd <= |buffer|
      modifies this
      ensures delegated <==> state != DefaultState
      ensures !delegated ==> tokenStart == old(tokenEnd)
      ensures !delegated && NextToken(buffer, tokenStart).Some? ==>
        tokenType == Some(NextToken(buffer, tokenStart).value.0) && tokenEnd == NextToken(buffer, tokenStart).value.1
      ensures !delegated && NextToken(buffer, tokenStart).None? ==> tokenType.None?
      ensures !delegated ==> states == old(states) + (if tokenType == Some(BlockOpen) then [ExpressionState] else [])
      ensures delegated ==> tokenStart == old(tokenStart) && tokenEnd == old(tokenEnd) && tokenType == old(tokenType) && states == old(states)
    {
      if state != DefaultState {
        return true;
      }
      tokenStart := tokenEnd;
      StateDefault();
      return false;
    }
  }

  /** The text of the escaped-braces example. */
  const EscapedText := "Lorem {{ipsum}} dolor."

  /** The escaped-braces example from its second escape. */
  lemma EscapedBracesTail()
    ensures DefaultTokens(EscapedText, 13) == [Token(EscapedCharacter, 13, 15), Token(ValueContents, 15, 22)]
  {
    hide DefaultTokens;
    ContentsEndAt(EscapedText, 15, 22);
    DefaultTokensStep(EscapedText, 15, ValueContents, 22);
    DefaultTokensStep(EscapedText, 13, EscapedCharacter, 15);
    DefaultTokensEnd(EscapedText);
  }

  /** The escaped-braces example from its first escape to its second. */
  lemma EscapedBracesMiddle()
    ensures DefaultTokens(EscapedText, 6) == [Token(EscapedCharacter, 6, 8), Token(ValueContents, 8, 13)] + DefaultTokens(EscapedText, 13)
  {
    hide DefaultTokens;
    ContentsEndAt(EscapedText, 8, 13);
    DefaultTokensStep(EscapedText, 8, ValueContents, 13);
    DefaultTokensStep(EscapedText, 6, EscapedCharacter, 8);
  }

  /** Escaped braces and text around them come out as contents and escapes, each in one token. */
  lemma EscapedBraces()
    ensures DefaultTokens("Lorem {{ipsum}} dolor.", 0) == [
      Token(ValueContents, 0, 6), Token(EscapedCharacter, 6, 8), Token(ValueContents, 8, 13),
      Token(EscapedCharacter, 13, 15), Token(ValueContents, 15, 22)]
  {
    hide DefaultTokens;
    ContentsEndAt(EscapedText, 0, 6);
    DefaultTokensStep(EscapedText, 0, ValueContents, 6);
    EscapedBracesMiddle();
    EscapedBracesTail();
  }

  /** An opening brace ends the default-state tokens: the expression after it is not lexed here. */
  lemma EnclosedExpressionStops()
    ensures DefaultTokens("One {2} Three", 0) == [Token(ValueContents, 0, 4), Token(BlockOpen, 4, 5)]
  {
    ContentsEndAt("One {2} Three", 0, 4);
  }
}
