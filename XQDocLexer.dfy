/**
 * The xqDoc comment lexer: the text of an XQuery comment is split into
 * contents, line trims, `@tag` names, `@param` variables, nested XML tags
 * and entity references, driven by a stack of lexer states.
 *
 * The per-state functions below are the specification; the `Lexer` class
 * runs the same states step by step on a token range and is proved to
 * agree with them.
 */
module XQDocLexer {
  import opened Wrappers
  import opened CharacterClasses

  datatype TokenType =
    | XQDocCommentMarker | Contents | Trim | WhiteSpace | TagMarker | Tag
    | TAuthor | TDeprecated | TError | TParam | TReturn | TSee | TSince | TVersion
    | VariableIndicator | NCName
    | OpenXmlTag | CloseXmlTag | EndXmlTag | SelfClosingXmlTag | XmlTag | XmlEqual
    | XmlAttributeValueStart | XmlAttributeValueContents | XmlAttributeValueEnd | XmlElementContents | Invalid
    | PredefinedEntityReference | CharacterReference | EmptyEntityReference | PartialEntityReference

  const StateDefault: int := 0
  const StateContents: int := 1
  const StateTaggedContents: int := 2
  const StateElemConstructor: int := 3
  const StateElemContents: int := 4
  const StateElemConstructorClosing: int := 5
  const StateAttributeValueQuote: int := 6
  const StateAttributeValueApos: int := 7
  const StateTrim: int := 8
  const StateParamTagContentsStart: int := 9
  const StateParamTagVarName: int := 10
  const StateXQueryContents: int := 11
  const StateXQueryContentsTrim: int := 12

  /** The known `@tag` names and their token types; every other name is a `Tag`. */
  const TagNames: map<string, TokenType> := map[
    "author" := TAuthor, "deprecated" := TDeprecated, "error" := TError, "param" := TParam,
    "return" := TReturn, "see" := TSee, "since" := TSince, "version" := TVersion]

  function TagName(name: string): (r: TokenType)
    ensures r == TParam <==> name == "param"
    ensures r == Tag <==> name !in {"author", "deprecated", "error", "param", "return", "see", "since", "version"}
  {
    if name in TagNames then TagNames[name] else Tag
  }

  /** The current state: the top of the stack, the default state when it is empty. */
  function Top(stack: seq<int>): int {
    if |stack| == 0 then StateDefault else stack[|stack| - 1]
  }

  /** The stack without its top; popping an empty stack leaves it empty. */
  function Pop(stack: seq<int>): seq<int> {
    if |stack| == 0 then [] else stack[..|stack| - 1]
  }

  /** Whether the code point at `j` is `c`; there is none at the end of the buffer. */
  predicate At(text: seq<char>, j: nat, c: char) {
    j < |text| && text[j] == c
  }

  /** The end of the run of characters satisfying `p` from `j`. */
  function Run(text: seq<char>, j: nat, p: char -> bool): (r: nat)
    requires j <= |text|
    ensures j <= r <= |text|
    ensures forall k :: j <= k < r ==> p(text[k])
    ensures r < |text| ==> !p(text[r])
    decreases |text| - j
  {
    if j == |text| || !p(text[j]) then j else Run(text, j + 1, p)
  }

  predicate IsNewline(c: char) { c == '\n' || c == '\r' }
  predicate IsSpaceOrTab(c: char) { c == ' ' || c == '\t' }
  predicate IsXmlSpace(c: char) { c == ' ' || c == '\t' || c == '\r' || c == '\n' }
  predicate IsNameStartOrDigit(c: char) { ClassOf(c) == NameStartChar || ClassOf(c) == Digit }
  predicate IsNCNameChar(c: char) { ClassOf(c) in {NameStartChar, Digit, Dot, HyphenMinus, NameChar} }
  predicate IsWhitespaceClass(c: char) { ClassOf(c) == Whitespace }
  predicate ContinuesContents(c: char) { !IsNewline(c) && c != '<' && c != '&' }
  predicate ContinuesElemContents(c: char) { c != '<' && c != '&' }
  predicate ContinuesXQueryContents(c: char) { !IsNewline(c) }

  /** The outcome of lexing one token: its type (None at the end), where it ends, and the new state stack. */
  datatype Lexed = Lexed(tokenType: Option<TokenType>, end: nat, stack: seq<int>)

  /**
   * Whether a lexed token stays within the text and consumes at least one
   * character exactly when it has a type.
   */
  predicate Progress(text: seq<char>, i: nat, l: Lexed) {
    i <= l.end <= |text| && (l.tokenType.Some? <==> l.end > i)
  }

  /** `matchEntityReference`: the type and end of the reference starting with `&` at `i`. */
  function EntityReference(text: seq<char>, i: nat): (r: (TokenType, nat))
    requires i < |text|
    ensures i < r.1 <= |text|
  {
    var j := i + 1;
    if j < |text| && ClassOf(text[j]) == NameStartChar then NamedReferenceAfterStart(text, j + 1)
    else if j < |text| && ClassOf(text[j]) == Hash then CharacterReferenceAfterHash(text, j + 1)
    else if j < |text| && ClassOf(text[j]) == Semicolon then (EmptyEntityReference, j + 1)
    else (PartialEntityReference, j)
  }

  /** The rest of a `&name;` reference whose first name character ends just before `n`. */
  function NamedReferenceAfterStart(text: seq<char>, n: nat): (r: (TokenType, nat))
    requires n <= |text|
    ensures n <= r.1 <= |text|
  {
    var k := Run(text, n, IsNameStartOrDigit);
    if k < |text| && ClassOf(text[k]) == Semicolon then (PredefinedEntityReference, k + 1) else (PartialEntityReference, k)
  }

  /** The rest of a `&#` reference whose `#` ends just before `h`: decimal, or hexadecimal after `x`. */
  function CharacterReferenceAfterHash(text: seq<char>, h: nat): (r: (TokenType, nat))
    requires h <= |text|
    ensures h <= r.1 <= |text|
  {
    if At(text, h, 'x') then
      if h + 1 < |text| && IsHexDigit(text[h + 1]) then
        var k := Run(text, h + 1, IsHexDigit);
        if At(text, k, ';') then (CharacterReference, k + 1) else (PartialEntityReference, k)
      else if At(text, h + 1, ';') then (EmptyEntityReference, h + 2)
      else (PartialEntityReference, h + 1)
    else if h < |text| && IsDigit(text[h]) then
      var k := Run(text, h, IsDigit);
      if At(text, k, ';') then (CharacterReference, k + 1) else (PartialEntityReference, k)
    else if At(text, h, ';') then (EmptyEntityReference, h + 1)
    else (PartialEntityReference, h)
  }

  /** The line-trim token from the line break at `i`: the break, spaces and tabs, then at most one `:`. */
  function NewlineTrim(text: seq<char>, i: nat, stack: seq<int>): (r: Lexed)
    requires i < |text| && IsNewline(text[i])
    ensures r.tokenType == Some(Trim) && i < r.end <= |text| && r.stack == stack
  {
    var j := if text[i] == '\r' && At(text, i + 1, '\n') then i + 2 else i + 1;
    var k := Run(text, j, IsSpaceOrTab);
    Lexed(Some(Trim), if At(text, k, ':') then k + 1 else k, stack)
  }

  /** `stateContents`. */
  function ContentsState(text: seq<char>, i: nat, stack: seq<int>): (r: Lexed)
    requires i <= |text|
    ensures Progress(text, i, r)
  {
    if i == |text| then Lexed(None, i, stack)
    else if text[i] == '<' then Lexed(Some(OpenXmlTag), i + 1, stack + [StateElemConstructor])
    else if IsNewline(text[i]) then NewlineTrim(text, i, stack + [StateTrim])
    else if text[i] == '&' then
      var (t, e) := EntityReference(text, i);
      Lexed(Some(t), e, stack)
    else
      var e := Run(text, i, ContinuesContents);
      Lexed(Some(Contents), e, if e < |text| && IsNewline(text[e]) then stack + [StateTrim] else stack)
  }

  /** `stateXQueryContents`: the contents of a plain XQuery comment, line by line. */
  function XQueryContentsState(text: seq<char>, i: nat, stack: seq<int>): (r: Lexed)
    requires i <= |text|
    ensures Progress(text, i, r)
  {
    if i == |text| then Lexed(None, i, stack)
    else if IsNewline(text[i]) then NewlineTrim(text, i, stack + [StateXQueryContentsTrim])
    else
      var e := Run(text, i, ContinuesXQueryContents);
      Lexed(Some(Contents), e, if e < |text| then stack + [StateXQueryContentsTrim] else stack)
  }

  /**
   * `stateTrim`: None when the source pops the trim state and lexes the
   * token again in the state below.
   */
  function TrimState(text: seq<char>, i: nat, stack: seq<int>, state: int): (r: Option<Lexed>)
    requires i <= |text|
    ensures r.Some? ==> Progress(text, i, r.value)
    ensures r.None? <==> i < |text| && !IsSpaceOrTab(text[i]) && !IsNewline(text[i]) && (text[i] != '@' || state != StateTrim)
  {
    if i == |text| then Some(Lexed(None, i, stack))
    else if IsSpaceOrTab(text[i]) then Some(Lexed(Some(WhiteSpace), Run(text, i, IsSpaceOrTab), stack))
    else if IsNewline(text[i]) then Some(NewlineTrim(text, i, stack))
    else if text[i] == '@' && state == StateTrim then Some(Lexed(Some(TagMarker), i + 1, Pop(stack) + [StateTaggedContents]))
    else None
  }

  /** `stateDefault`: a leading `~` marks an xqDoc comment; anything else is a plain comment. */
  function DefaultState(text: seq<char>, i: nat, stack: seq<int>): (r: Lexed)
    requires i <= |text|
    ensures Progress(text, i, r)
  {
    if i == |text| then Lexed(None, i, stack)
    else if text[i] == '~' then Lexed(Some(XQDocCommentMarker), i + 1, stack + [StateContents, StateTrim])
    else
      match TrimState(text, i, stack + [StateXQueryContents, StateXQueryContentsTrim], StateXQueryContentsTrim)
      case Some(l) => l
      case None => XQueryContentsState(text, i, stack + [StateXQueryContents])
  }

  /** `stateTaggedContents`: the name after `@`, typed by `TagNames`. */
  function TaggedContentsState(text: seq<char>, i: nat, stack: seq<int>): (r: Lexed)
    requires i <= |text|
    ensures Progress(text, i, r)
    ensures i < |text| && IsAlphaNumeric(text[i]) ==>
      r.tokenType == Some(TagName(text[i..r.end])) &&
      (forall k :: i <= k < r.end ==> IsAlphaNumeric(text[k])) && (r.end < |text| ==> !IsAlphaNumeric(text[r.end])) &&
      r.stack == if text[i..r.end] == "param" then Pop(stack) + [StateParamTagContentsStart] else stack
    ensures i < |text| && IsSpaceOrTab(text[i]) ==>
      r.tokenType == Some(WhiteSpace) && r.stack == Pop(stack) &&
      (forall k :: i <= k < r.end ==> IsSpaceOrTab(text[k])) && (r.end < |text| ==> !IsSpaceOrTab(text[r.end]))
  {
    if i < |text| && IsAlphaNumeric(text[i]) then
      var e := Run(text, i, IsAlphaNumeric);
      var t := TagName(text[i..e]);
      Lexed(Some(t), e, if t == TParam then Pop(stack) + [StateParamTagContentsStart] else stack)
    else if i < |text| && IsSpaceOrTab(text[i]) then
      Lexed(Some(WhiteSpace), Run(text, i, IsSpaceOrTab), Pop(stack))
    else ContentsState(text, i, Pop(stack))
  }

  /** `stateParamTagContentsStart`: whitespace, then `$` starts the parameter's name. */
  function ParamTagContentsStartState(text: seq<char>, i: nat, stack: seq<int>): (r: Lexed)
    requires i <= |text|
    ensures Progress(text, i, r)
    ensures At(text, i, '$') ==> r == Lexed(Some(VariableIndicator), i + 1, Pop(stack) + [StateParamTagVarName])
    ensures i < |text| && IsSpaceOrTab(text[i]) ==>
      r.tokenType == Some(WhiteSpace) && r.stack == stack &&
      (forall k :: i <= k < r.end ==> IsSpaceOrTab(text[k])) && (r.end < |text| ==> !IsSpaceOrTab(text[r.end]))
  {
    if i < |text| && IsSpaceOrTab(text[i]) then Lexed(Some(WhiteSpace), Run(text, i, IsSpaceOrTab), stack)
    else if At(text, i, '$') then Lexed(Some(VariableIndicator), i + 1, Pop(stack) + [StateParamTagVarName])
    else ContentsState(text, i, Pop(stack))
  }

  /** `stateParamTagVarName`: the parameter's NCName, ended by whitespace. */
  function ParamTagVarNameState(text: seq<char>, i: nat, stack: seq<int>): (r: Lexed)
    requires i <= |text|
    ensures Progress(text, i, r)
    ensures i < |text| && ClassOf(text[i]) == NameStartChar ==>
      r.tokenType == Some(NCName) && r.stack == stack &&
      (forall k :: i < k < r.end ==> IsNCNameChar(text[k])) && (r.end < |text| ==> !IsNCNameChar(text[r.end]))
    ensures i < |text| && ClassOf(text[i]) == Whitespace ==>
      r.tokenType == Some(WhiteSpace) && r.stack == Pop(stack) &&
      (forall k :: i <= k < r.end ==> IsWhitespaceClass(text[k])) && (r.end < |text| ==> !IsWhitespaceClass(text[r.end]))
  {
    if i < |text| && ClassOf(text[i]) == Whitespace then
      Lexed(Some(WhiteSpace), Run(text, i + 1, IsWhitespaceClass), Pop(stack))
    else if i < |text| && ClassOf(text[i]) == NameStartChar then
      Lexed(Some(NCName), Run(text, i + 1, IsNCNameChar), stack)
    else ContentsState(text, i, Pop(stack))
  }

  /** `stateElemConstructor`: inside an opening (`state` 3) or closing (`state` 5) XML tag. */
  function ElemConstructorState(text: seq<char>, i: nat, stack: seq<int>, state: int): (r: Lexed)
    requires i <= |text|
    ensures Progress(text, i, r)
    ensures r.tokenType == Some(XmlTag) <==> i < |text| && IsAlphaNumeric(text[i])
    ensures r.tokenType == Some(XmlTag) ==>
      r.stack == stack && (forall k :: i <= k < r.end ==> IsAlphaNumeric(text[k])) &&
      (r.end < |text| ==> !IsAlphaNumeric(text[r.end]))
    ensures r.tokenType == Some(Invalid) <==>
      i < |text| && !IsAlphaNumeric(text[i]) && !IsXmlSpace(text[i]) && text[i] !in {'=', '"', '\'', '>'} &&
      !(text[i] == '/' && At(text, i + 1, '>'))
    ensures r.tokenType == Some(Invalid) ==> r.end == i + 1 && r.stack == stack
  {
    if i == |text| then Lexed(None, i, stack)
    else if IsAlphaNumeric(text[i]) then Lexed(Some(XmlTag), Run(text, i, IsAlphaNumeric), stack)
    else if IsXmlSpace(text[i]) then Lexed(Some(WhiteSpace), Run(text, i, IsXmlSpace), stack)
    else if text[i] == '=' then Lexed(Some(XmlEqual), i + 1, stack)
    else if text[i] == '"' then Lexed(Some(XmlAttributeValueStart), i + 1, stack + [StateAttributeValueQuote])
    else if text[i] == '\'' then Lexed(Some(XmlAttributeValueStart), i + 1, stack + [StateAttributeValueApos])
    else if text[i] == '/' then
      if At(text, i + 1, '>') then Lexed(Some(SelfClosingXmlTag), i + 2, Pop(stack))
      else Lexed(Some(Invalid), i + 1, stack)
    else if text[i] == '>' then
      Lexed(Some(EndXmlTag), i + 1, if state == StateElemConstructor then Pop(stack) + [StateElemContents] else Pop(stack))
    else Lexed(Some(Invalid), i + 1, stack)
  }

  /** `stateElemContents`: the contents of an XML element, up to a tag or a reference. */
  function ElemContentsState(text: seq<char>, i: nat, stack: seq<int>): (r: Lexed)
    requires i <= |text|
    ensures Progress(text, i, r)
  {
    if i == |text| then Lexed(None, i, stack)
    else if text[i] == '<' then
      if At(text, i + 1, '/') then Lexed(Some(CloseXmlTag), i + 2, Pop(stack) + [StateElemConstructorClosing])
      else Lexed(Some(OpenXmlTag), i + 1, stack + [StateElemConstructor])
    else if text[i] == '&' then
      var (t, e) := EntityReference(text, i);
      Lexed(Some(t), e, stack)
    else Lexed(Some(XmlElementContents), Run(text, i + 1, ContinuesElemContents), stack)
  }

  /** `stateAttributeValue`: an attribute value up to its closing quote. */
  function AttributeValueState(text: seq<char>, i: nat, stack: seq<int>, endChar: char): (r: Lexed)
    requires i <= |text|
    ensures Progress(text, i, r)
  {
    if i == |text| then Lexed(None, i, stack)
    else if text[i] == endChar then Lexed(Some(XmlAttributeValueEnd), i + 1, Pop(stack))
    else Lexed(Some(XmlAttributeValueContents), Run(text, i, c => c != endChar), stack)
  }

  /** The states `advance` knows. */
  predicate IsState(state: int) {
    StateDefault <= state <= StateXQueryContentsTrim
  }

  /**
   * `advance(state)` on the state at the top of the stack: the token at
   * `i`, or the number of a state the lexer does not know.
   */
  function Dispatch(text: seq<char>, i: nat, stack: seq<int>): (r: Result<Lexed, int>)
    requires i <= |text|
    ensures r.Ok? ==> Progress(text, i, r.value)
    ensures r.Err? ==> !IsState(r.error)
    ensures !IsState(Top(stack)) ==> r == Err(Top(stack))
    decreases |stack|
  {
    var state := Top(stack);
    if state == StateDefault then Ok(DefaultState(text, i, stack))
    else if state == StateContents then Ok(ContentsState(text, i, stack))
    else if state == StateTaggedContents then Ok(TaggedContentsState(text, i, stack))
    else if state == StateElemConstructor || state == StateElemConstructorClosing then Ok(ElemConstructorState(text, i, stack, state))
    else if state == StateElemContents then Ok(ElemContentsState(text, i, stack))
    else if state == StateAttributeValueQuote then Ok(AttributeValueState(text, i, stack, '"'))
    else if state == StateAttributeValueApos then Ok(AttributeValueState(text, i, stack, '\''))
    else if state == StateTrim || state == StateXQueryContentsTrim then
      match TrimState(text, i, stack, state)
      case Some(l) => Ok(l)
      case None => Dispatch(text, i, Pop(stack))
    else if state == StateParamTagContentsStart then Ok(ParamTagContentsStartState(text, i, stack))
    else if state == StateParamTagVarName then Ok(ParamTagVarNameState(text, i, stack))
    else if state == StateXQueryContents then Ok(XQueryContentsState(text, i, stack))
    else Err(state)
  }

  /** A stack of known states never makes `advance` fail. */
  lemma {:induction false} KnownStatesLex(text: seq<char>, i: nat, stack: seq<int>)
    requires i <= |text|
    requires forall k :: 0 <= k < |stack| ==> IsState(stack[k])
    ensures Dispatch(text, i, stack).Ok?
    decreases |stack|
  {
    var state := Top(stack);
    if (state == StateTrim || state == StateXQueryContentsTrim) && TrimState(text, i, stack, state).None? {
      KnownStatesLex(text, i, Pop(stack));
    }
  }

  /** At the end of the buffer every state gives a null token type and consumes nothing. */
  lemma EndOfBufferIsNull(text: seq<char>, stack: seq<int>)
    requires Dispatch(text, |text|, stack).Ok?
    ensures Dispatch(text, |text|, stack).value.tokenType.None?
    ensures Dispatch(text, |text|, stack).value.end == |text|
  {
  }

  /** A reference `&` then a name start character is a named reference, complete exactly when it ends with `;`. */
  lemma NamedReferenceKinds(text: seq<char>, i: nat)
    requires i + 1 < |text| && text[i] == '&' && ClassOf(text[i + 1]) == NameStartChar
    ensures var (t, e) := NamedReferenceAfterStart(text, i + 2);
      (t == PredefinedEntityReference || t == PartialEntityReference) &&
      text[i..e] != "&;" && text[i..e] != "&#;" && text[i..e] != "&#x;"
    ensures var (t, e) := NamedReferenceAfterStart(text, i + 2);
      t == PredefinedEntityReference ==>
        i + 3 <= e && IsNameStart(text[i + 1]) && text[e - 1] == ';' &&
        forall k :: i + 2 <= k < e - 1 ==> IsNameStartOrDigit(text[k])
    ensures var (t, e) := NamedReferenceAfterStart(text, i + 2);
      t == PartialEntityReference ==> e == |text| || text[e] != ';'
    ensures var (t, e) := NamedReferenceAfterStart(text, i + 2);
      t != PartialEntityReference <==> text[e - 1] == ';'
  {
    var (t, e) := NamedReferenceAfterStart(text, i + 2);
    assert text[i..e] != "&;" && text[i..e] != "&#;" && text[i..e] != "&#x;" by {
      assert text[i..e][1] == text[i + 1];
    }
  }

  /**
   * Entity references: `&name;` is predefined, `&#digits;` and `&#xhex;`
   * are character references, `&;`, `&#;` and `&#x;` are empty, and a
   * partial reference stops before a character that does not continue it,
   * so it never ends at a `;`.
   */
  lemma EntityReferenceKinds(text: seq<char>, i: nat)
    requires i < |text| && text[i] == '&'
    ensures var (t, e) := EntityReference(text, i);
      t == PredefinedEntityReference ==>
        i + 3 <= e && IsNameStart(text[i + 1]) && text[e - 1] == ';' &&
        forall k :: i + 2 <= k < e - 1 ==> IsNameStartOrDigit(text[k])
    ensures var (t, e) := EntityReference(text, i);
      t == CharacterReference ==>
        text[i + 1] == '#' && text[e - 1] == ';' &&
        ((i + 5 <= e && text[i + 2] == 'x' && forall k :: i + 3 <= k < e - 1 ==> IsHexDigit(text[k])) ||
         (i + 4 <= e && forall k :: i + 2 <= k < e - 1 ==> IsDigit(text[k])))
    ensures var (t, e) := EntityReference(text, i);
      t == EmptyEntityReference <==> text[i..e] == "&;" || text[i..e] == "&#;" || text[i..e] == "&#x;"
    ensures var (t, e) := EntityReference(text, i);
      t == PartialEntityReference ==> e == |text| || text[e] != ';'
    ensures var (t, e) := EntityReference(text, i);
      t != PartialEntityReference <==> text[e - 1] == ';'
  {
    hide NamedReferenceAfterStart, CharacterReferenceAfterHash;
    var (t, e) := EntityReference(text, i);
    var j := i + 1;
    if j < |text| && ClassOf(text[j]) == NameStartChar {
      NamedReferenceKinds(text, i);
    } else if j < |text| && ClassOf(text[j]) == Hash {
      CharacterReferenceKinds(text, i);
    } else if j < |text| && ClassOf(text[j]) == Semicolon {
      assert text[i..e] == "&;";
    }
  }

  /** What `CharacterReferenceKinds` states of the reference `text[i..e]` of kind `t` starting `&#` at `i`. */
  ghost predicate CharacterReferenceShape(text: seq<char>, i: nat, t: TokenType, e: nat)
    requires i + 1 < |text| && i + 2 <= e <= |text|
  {
    (t == CharacterReference ==>
      text[e - 1] == ';' &&
      ((i + 5 <= e && text[i + 2] == 'x' && forall k :: i + 3 <= k < e - 1 ==> IsHexDigit(text[k])) ||
       (i + 4 <= e && forall k :: i + 2 <= k < e - 1 ==> IsDigit(text[k])))) &&
    (t == EmptyEntityReference <==> text[i..e] == "&#;" || text[i..e] == "&#x;") &&
    t != PredefinedEntityReference && text[i..e] != "&;" &&
    (t == PartialEntityReference ==> e == |text| || text[e] != ';') &&
    (t != PartialEntityReference <==> text[e - 1] == ';')
  }

  /** `CharacterReferenceKinds` for a hexadecimal reference `&#x`. */
  lemma HexReferenceKinds(text: seq<char>, i: nat)
    requires i + 1 < |text| && text[i] == '&' && text[i + 1] == '#' && At(text, i + 2, 'x')
    ensures var (t, e) := CharacterReferenceAfterHash(text, i + 2);
      CharacterReferenceShape(text, i, t, e)
  {
    var (t, e) := CharacterReferenceAfterHash(text, i + 2);
    var h := i + 2;
    assert text[i..e] != "&;" by {
      assert |text[i..e]| >= 2 && text[i..e][1] == '#';
    }
    if h + 1 < |text| && IsHexDigit(text[h + 1]) {
      assert text[i..e] != "&#;" && text[i..e] != "&#x;" by {
        assert |text[i..e]| >= 4 && text[i..e][3] == text[h + 1];
      }
    } else if At(text, h + 1, ';') {
      assert text[i..e] == "&#x;";
    } else {
      assert text[i..e] != "&#;" && text[i..e] != "&#x;" by {
        assert |text[i..e]| == 3;
      }
    }
  }

  /** `CharacterReferenceKinds` for a reference `&#` not followed by `x`. */
  lemma DecimalReferenceKinds(text: seq<char>, i: nat)
    requires i + 1 < |text| && text[i] == '&' && text[i + 1] == '#' && !At(text, i + 2, 'x')
    ensures var (t, e) := CharacterReferenceAfterHash(text, i + 2);
      CharacterReferenceShape(text, i, t, e)
  {
    var (t, e) := CharacterReferenceAfterHash(text, i + 2);
    var h := i + 2;
    assert text[i..e] != "&;" by {
      assert |text[i..e]| >= 2 && text[i..e][1] == '#';
    }
    if h < |text| && IsDigit(text[h]) {
      assert text[i..e] != "&#;" && text[i..e] != "&#x;" by {
        assert |text[i..e]| >= 3 && text[i..e][2] == text[h];
      }
    } else if At(text, h, ';') {
      assert text[i..e] == "&#;";
    } else {
      assert text[i..e] != "&#;" && text[i..e] != "&#x;" by {
        assert |text[i..e]| == 2;
      }
    }
  }

  /** `EntityReferenceKinds` for a reference that starts `&#`. */
  lemma CharacterReferenceKinds(text: seq<char>, i: nat)
    requires i + 1 < |text| && text[i] == '&' && text[i + 1] == '#'
    ensures var (t, e) := CharacterReferenceAfterHash(text, i + 2);
      t == CharacterReference ==>
        text[e - 1] == ';' &&
        ((i + 5 <= e && text[i + 2] == 'x' && forall k :: i + 3 <= k < e - 1 ==> IsHexDigit(text[k])) ||
         (i + 4 <= e && forall k :: i + 2 <= k < e - 1 ==> IsDigit(text[k])))
    ensures var (t, e) := CharacterReferenceAfterHash(text, i + 2);
      t == EmptyEntityReference <==> text[i..e] == "&#;" || text[i..e] == "&#x;"
    ensures var (t, e) := CharacterReferenceAfterHash(text, i + 2);
      t != PredefinedEntityReference && text[i..e] != "&;"
    ensures var (t, e) := CharacterReferenceAfterHash(text, i + 2);
      t == PartialEntityReference ==> e == |text| || text[e] != ';'
    ensures var (t, e) := CharacterReferenceAfterHash(text, i + 2);
      t != PartialEntityReference <==> text[e - 1] == ';'
  {
    hide CharacterReferenceAfterHash;
    if At(text, i + 2, 'x') {
      HexReferenceKinds(text, i);
    } else {
      DecimalReferenceKinds(text, i);
    }
  }

  /** A reference is partial up to the first character that cannot continue it. */
  lemma PartialStopsBeforeMismatch()
    ensures EntityReference("&abc!", 0) == (PartialEntityReference, 4)
    ensures EntityReference("&amp;", 0) == (PredefinedEntityReference, 5)
    ensures EntityReference("&#x;", 0) == (EmptyEntityReference, 4)
  {
    assert Run("&abc!", 2, IsNameStartOrDigit) == 4;
    assert Run("&amp;", 2, IsNameStartOrDigit) == 4;
  }

  /**
   * A line trim is one line break (CR, LF or CR LF) followed by spaces and
   * tabs and at most one `:`, and takes all of them.
   */
  lemma TrimShape(text: seq<char>, i: nat, stack: seq<int>)
    requires i < |text| && IsNewline(text[i])
    ensures var e := NewlineTrim(text, i, stack).end;
      forall k :: i < k < e ==>
        IsSpaceOrTab(text[k]) || (k == i + 1 && text[i] == '\r' && text[k] == '\n') || (k == e - 1 && text[k] == ':')
    ensures var e := NewlineTrim(text, i, stack).end;
      e < |text| && text[e - 1] != ':' ==>
        !IsSpaceOrTab(text[e]) && text[e] != ':' && !(e == i + 1 && text[i] == '\r' && text[e] == '\n')
  {
  }

  /** `@` after a line trim is a tag marker in an xqDoc comment, and plain contents in any other comment. */
  lemma TagMarkerOnlyInXQDoc(text: seq<char>, i: nat, below: seq<int>)
    requires i < |text| && text[i] == '@'
    ensures Dispatch(text, i, below + [StateContents, StateTrim])
         == Ok(Lexed(Some(TagMarker), i + 1, below + [StateContents, StateTaggedContents]))
    ensures Dispatch(text, i, below + [StateXQueryContents, StateXQueryContentsTrim]).Ok?
    ensures Dispatch(text, i, below + [StateXQueryContents, StateXQueryContentsTrim]).value.tokenType == Some(Contents)
  {
    assert Pop(below + [StateContents, StateTrim]) == below + [StateContents];
    assert below + [StateContents] + [StateTaggedContents] == below + [StateContents, StateTaggedContents];
    assert Pop(below + [StateXQueryContents, StateXQueryContentsTrim]) == below + [StateXQueryContents];
  }

  /** A leading `~` starts an xqDoc comment, whose contents follow a line trim. */
  lemma CommentMarker(text: seq<char>)
    requires |text| > 0 && text[0] == '~'
    ensures Dispatch(text, 0, [StateDefault]) == Ok(Lexed(Some(XQDocCommentMarker), 1, [StateDefault, StateContents, StateTrim]))
  {
    hide ContentsState, XQueryContentsState, TrimState, TaggedContentsState, ParamTagContentsStartState,
      ParamTagVarNameState, ElemConstructorState, ElemContentsState, AttributeValueState;
    assert Top([StateDefault]) == StateDefault;
    assert DefaultState(text, 0, [StateDefault]) == Lexed(Some(XQDocCommentMarker), 1, [StateDefault] + [StateContents, StateTrim]);
    assert [StateDefault] + [StateContents, StateTrim] == [StateDefault, StateContents, StateTrim];
  }

  /** `>` ends an opening tag and enters the element's contents; it ends a closing tag by popping alone. */
  lemma TagClosing(text: seq<char>, i: nat, below: seq<int>)
    requires i < |text| && text[i] == '>'
    ensures Dispatch(text, i, below + [StateElemConstructor]) == Ok(Lexed(Some(EndXmlTag), i + 1, below + [StateElemContents]))
    ensures Dispatch(text, i, below + [StateElemConstructorClosing]) == Ok(Lexed(Some(EndXmlTag), i + 1, below))
  {
    assert Pop(below + [StateElemConstructor]) == below;
    assert Pop(below + [StateElemConstructorClosing]) == below;
  }

  /** `/>` ends an empty element's tag with a two-character token and leaves the tag's state. */
  lemma SelfClosingTag(text: seq<char>, i: nat, below: seq<int>, state: int)
    requires state == StateElemConstructor || state == StateElemConstructorClosing
    requires i + 1 < |text| && text[i] == '/' && text[i + 1] == '>'
    ensures Dispatch(text, i, below + [state]) == Ok(Lexed(Some(SelfClosingXmlTag), i + 2, below))
  {
    assert Top(below + [state]) == state;
    assert Pop(below + [state]) == below;
  }

  /**
   * Inside a tag, a `/` not followed by `>`, or any character that cannot
   * start a tag token, is a one-character invalid token that keeps the state.
   */
  lemma InvalidInTag(text: seq<char>, i: nat, below: seq<int>, state: int)
    requires state == StateElemConstructor || state == StateElemConstructorClosing
    requires i < |text| && !IsAlphaNumeric(text[i]) && !IsXmlSpace(text[i])
    requires text[i] != '=' && text[i] != '"' && text[i] != '\'' && text[i] != '>'
    requires text[i] == '/' ==> !At(text, i + 1, '>')
    ensures Dispatch(text, i, below + [state]) == Ok(Lexed(Some(Invalid), i + 1, below + [state]))
  {
    assert Top(below + [state]) == state;
  }

  /** After `@param`, `$name` is a variable indicator and an NCName. */
  lemma ParamTag()
    ensures Dispatch(ParamText, 0, [StateContents, StateTaggedContents])
         == Ok(Lexed(Some(TParam), 5, [StateContents, StateParamTagContentsStart]))
    ensures Dispatch(ParamText, 5, [StateContents, StateParamTagContentsStart])
         == Ok(Lexed(Some(WhiteSpace), 6, [StateContents, StateParamTagContentsStart]))
    ensures Dispatch(ParamText, 6, [StateContents, StateParamTagContentsStart])
         == Ok(Lexed(Some(VariableIndicator), 7, [StateContents, StateParamTagVarName]))
    ensures Dispatch(ParamText, 7, [StateContents, StateParamTagVarName])
         == Ok(Lexed(Some(NCName), 8, [StateContents, StateParamTagVarName]))
  {
    ParamTagName();
    ParamTagSpace();
    ParamTagVariable();
  }

  /** The text of the `@param` example, after the `@`. */
  const ParamText := "param $x"

  lemma ParamTagName()
    ensures Dispatch(ParamText, 0, [StateContents, StateTaggedContents])
         == Ok(Lexed(Some(TParam), 5, [StateContents, StateParamTagContentsStart]))
  {
    assert Run(ParamText, 0, IsAlphaNumeric) == 5;
    assert ParamText[0..5] == "param";
    assert Pop([StateContents, StateTaggedContents]) + [StateParamTagContentsStart] == [StateContents, StateParamTagContentsStart];
  }

  lemma ParamTagSpace()
    ensures Dispatch(ParamText, 5, [StateContents, StateParamTagContentsStart])
         == Ok(Lexed(Some(WhiteSpace), 6, [StateContents, StateParamTagContentsStart]))
  {
    assert Run(ParamText, 5, IsSpaceOrTab) == 6;
  }

  lemma ParamTagVariable()
    ensures Dispatch(ParamText, 6, [StateContents, StateParamTagContentsStart])
         == Ok(Lexed(Some(VariableIndicator), 7, [StateContents, StateParamTagVarName]))
    ensures Dispatch(ParamText, 7, [StateContents, StateParamTagVarName])
         == Ok(Lexed(Some(NCName), 8, [StateContents, StateParamTagVarName]))
  {
    assert Pop([StateContents, StateParamTagContentsStart]) + [StateParamTagVarName] == [StateContents, StateParamTagVarName];
    assert IsNameStart(ParamText[7]);
  }

  /** The end of a maximal run is where `Run` stops. */
  lemma {:induction false} RunIs(text: seq<char>, j: nat, e: nat, p: char -> bool)
    requires j <= e <= |text|
    requires forall k :: j <= k < e ==> p(text[k])
    requires e < |text| ==> !p(text[e])
    ensures Run(text, j, p) == e
    decreases e - j
  {
    if j < e {
      RunIs(text, j + 1, e, p);
    }
  }

  /**
   * After `@`, a whole alphanumeric name is one token typed by `TagNames`
   * (`Tag` for an unknown name); `param` alone moves on to its parameter.
   */
  lemma TagNameTyped(text: seq<char>, i: nat, e: nat, below: seq<int>)
    requires i < e <= |text|
    requires forall k :: i <= k < e ==> IsAlphaNumeric(text[k])
    requires e < |text| ==> !IsAlphaNumeric(text[e])
    ensures Dispatch(text, i, below + [StateTaggedContents]) == Ok(Lexed(Some(TagName(text[i..e])), e,
      if text[i..e] == "param" then below + [StateParamTagContentsStart] else below + [StateTaggedContents]))
  {
    RunIs(text, i, e, IsAlphaNumeric);
    assert Top(below + [StateTaggedContents]) == StateTaggedContents;
    assert Pop(below + [StateTaggedContents]) == below;
  }

  /** After `@param` and its white space, `$` is a variable indicator that moves on to the name. */
  lemma DollarAfterParam(text: seq<char>, i: nat, below: seq<int>)
    requires i < |text| && text[i] == '$'
    ensures Dispatch(text, i, below + [StateParamTagContentsStart])
         == Ok(Lexed(Some(VariableIndicator), i + 1, below + [StateParamTagVarName]))
  {
    assert Top(below + [StateParamTagContentsStart]) == StateParamTagContentsStart;
    assert Pop(below + [StateParamTagContentsStart]) == below;
  }

  /** After `$`, a whole NCName is one NCName token and the state is kept. */
  lemma NCNameAfterDollar(text: seq<char>, i: nat, e: nat, below: seq<int>)
    requires i < e <= |text| && ClassOf(text[i]) == NameStartChar
    requires forall k :: i < k < e ==> IsNCNameChar(text[k])
    requires e < |text| ==> !IsNCNameChar(text[e])
    ensures Dispatch(text, i, below + [StateParamTagVarName]) == Ok(Lexed(Some(NCName), e, below + [StateParamTagVarName]))
  {
    RunIs(text, i + 1, e, IsNCNameChar);
    assert Top(below + [StateParamTagVarName]) == StateParamTagVarName;
  }

  /** The lexer: its buffer, the current token range and type, and the state stack. */
  class Lexer {
    const buffer: seq<char>
    var tokenStart: nat
    var tokenEnd: nat
    var tokenType: Option<TokenType>
    var stack: seq<int>

    /** The token just lexed and the stack after it. */
    function Outcome(): Lexed
      reads this
    {
      Lexed(tokenType, tokenEnd, stack)
    }

    /** `start`: lexing begins at the start of the buffer in `initialState`. */
    constructor(buffer: seq<char>, initialState: int)
      ensures this.buffer == buffer && tokenStart == tokenEnd == 0 && tokenType.None? && stack == [initialState]
    {
      this.buffer := buffer;
      tokenStart, tokenEnd := 0, 0;
      tokenType := None;
      stack := [initialState];
    }

    /** Extends the token over the run of code points satisfying `p`. */
    method MatchWhile(p: char -> bool)
      requires tokenEnd <= |buffer|
      modifies this
      ensures tokenEnd == Run(buffer, old(tokenEnd), p)
      ensures tokenStart == old(tokenStart) && tokenType == old(tokenType) && stack == old(stack)
    {
      while tokenEnd < |buffer| && p(buffer[tokenEnd])
        invariant old(tokenEnd) <= tokenEnd <= |buffer|
        invariant Run(buffer, tokenEnd, p) == Run(buffer, old(tokenEnd), p)
        invariant tokenStart == old(tokenStart) && tokenType == old(tokenType) && stack == old(stack)
        decreases |buffer| - tokenEnd
      {
        tokenEnd := tokenEnd + 1;
      }
    }

    /** The rest of a `&name;` reference after its first name character. */
    method MatchNamedReference()
      requires tokenEnd <= |buffer|
      modifies this
      ensures (tokenType, tokenEnd) == (Some(NamedReferenceAfterStart(buffer, old(tokenEnd)).0), NamedReferenceAfterStart(buffer, old(tokenEnd)).1)
      ensures tokenStart == old(tokenStart) && stack == old(stack)
    {
      MatchWhile(IsNameStartOrDigit);
      if tokenEnd < |buffer| && ClassOf(buffer[tokenEnd]) == Semicolon {
        tokenEnd := tokenEnd + 1;
        tokenType := Some(PredefinedEntityReference);
      } else {
        tokenType := Some(PartialEntityReference);
      }
    }

    method MatchEntityReference()
      requires tokenEnd < |buffer| && buffer[tokenEnd] == '&'
      modifies this
      ensures (tokenType, tokenEnd) == (Some(EntityReference(buffer, old(tokenEnd)).0), EntityReference(buffer, old(tokenEnd)).1)
      ensures tokenStart == old(tokenStart) && stack == old(stack)
    {
      hide NamedReferenceAfterStart, CharacterReferenceAfterHash;
      tokenEnd := tokenEnd + 1;
      if tokenEnd < |buffer| && ClassOf(buffer[tokenEnd]) == NameStartChar {
        tokenEnd := tokenEnd + 1;
        MatchNamedReference();
      } else if tokenEnd < |buffer| && ClassOf(buffer[tokenEnd]) == Hash {
        tokenEnd := tokenEnd + 1;
        MatchCharacterReference();
      } else if tokenEnd < |buffer| && ClassOf(buffer[tokenEnd]) == Semicolon {
        tokenEnd := tokenEnd + 1;
        tokenType := Some(EmptyEntityReference);
      } else {
        tokenType := Some(PartialEntityReference);
      }
    }

    method MatchCharacterReference()
      requires tokenEnd <= |buffer|
      modifies this
      ensures (tokenType, tokenEnd) == (Some(CharacterReferenceAfterHash(buffer, old(tokenEnd)).0), CharacterReferenceAfterHash(buffer, old(tokenEnd)).1)
      ensures tokenStart == old(tokenStart) && stack == old(stack)
    {
      if At(buffer, tokenEnd, 'x') {
        tokenEnd := tokenEnd + 1;
        if tokenEnd < |buffer| && IsHexDigit(buffer[tokenEnd]) {
          MatchWhile(IsHexDigit);
          if At(buffer, tokenEnd, ';') {
            tokenEnd := tokenEnd + 1;
            tokenType := Some(CharacterReference);
          } else {
            tokenType := Some(PartialEntityReference);
          }
        } else if At(buffer, tokenEnd, ';') {
          tokenEnd := tokenEnd + 1;
          tokenType := Some(EmptyEntityReference);
        } else {
          tokenType := Some(PartialEntityReference);
        }
      } else if tokenEnd < |buffer| && IsDigit(buffer[tokenEnd]) {
        MatchWhile(IsDigit);
        if At(buffer, tokenEnd, ';') {
          tokenEnd := tokenEnd + 1;
          tokenType := Some(CharacterReference);
        } else {
          tokenType := Some(PartialEntityReference);
        }
      } else if At(buffer, tokenEnd, ';') {
        tokenEnd := tokenEnd + 1;
        tokenType := Some(EmptyEntityReference);
      } else {
        tokenType := Some(PartialEntityReference);
      }
    }

    method MatchNewlineTrim()
      requires tokenEnd < |buffer| && IsNewline(buffer[tokenEnd])
      modifies this
      ensures Outcome() == NewlineTrim(buffer, old(tokenEnd), old(stack))
      ensures tokenStart == old(tokenStart)
    {
      var c := buffer[tokenEnd];
      tokenEnd := tokenEnd + 1;
      if c == '\r' && At(buffer, tokenEnd, '\n') {
        tokenEnd := tokenEnd + 1;
      }
      MatchWhile(IsSpaceOrTab);
      if At(buffer, tokenEnd, ':') {
        tokenEnd := tokenEnd + 1;
      }
      tokenType := Some(Trim);
    }

    method LexContents()
      requires tokenEnd <= |buffer|
      modifies this
      ensures Outcome() == ContentsState(buffer, old(tokenEnd), old(stack))
      ensures tokenStart == old(tokenStart)
    {
      if tokenEnd == |buffer| {
        tokenType := None;
      } else if buffer[tokenEnd] == '<' {
        tokenEnd := tokenEnd + 1;
        tokenType := Some(OpenXmlTag);
        stack := stack + [StateElemConstructor];
      } else if IsNewline(buffer[tokenEnd]) {
        stack := stack + [StateTrim];
        MatchNewlineTrim();
      } else if buffer[tokenEnd] == '&' {
        MatchEntityReference();
      } else {
        MatchWhile(ContinuesContents);
        if tokenEnd < |buffer| && IsNewline(buffer[tokenEnd]) {
          stack := stack + [StateTrim];
        }
        tokenType := Some(Contents);
      }
    }

    method LexXQueryContents()
      requires tokenEnd <= |buffer|
      modifies this
      ensures Outcome() == XQueryContentsState(buffer, old(tokenEnd), old(stack))
      ensures tokenStart == old(tokenStart)
    {
      if tokenEnd == |buffer| {
        tokenType := None;
      } else if IsNewline(buffer[tokenEnd]) {
        stack := stack + [StateXQueryContentsTrim];
        MatchNewlineTrim();
      } else {
        MatchWhile(ContinuesXQueryContents);
        if tokenEnd < |buffer| {
          stack := stack + [StateXQueryContentsTrim];
        }
        tokenType := Some(Contents);
      }
    }

    /**
     * `stateTrim`; `reenter` when the trim state has been popped and the
     * token is to be lexed again in the state below, as `advance()` does.
     */
    method LexTrim(state: int) returns (reenter: bool)
      requires tokenEnd <= |buffer|
      modifies this
      ensures reenter <==> TrimState(buffer, old(tokenEnd), old(stack), state).None?
      ensures !reenter ==> Outcome() == TrimState(buffer, old(tokenEnd), old(stack), state).value
      ensures reenter ==> tokenEnd == old(tokenEnd) && stack == Pop(old(stack))
      ensures tokenStart == old(tokenStart)
    {
      if tokenEnd == |buffer| {
        tokenType := None;
        return false;
      } else if IsSpaceOrTab(buffer[tokenEnd]) {
        MatchWhile(IsSpaceOrTab);
        tokenType := Some(WhiteSpace);
        return false;
      } else if IsNewline(buffer[tokenEnd]) {
        MatchNewlineTrim();
        return false;
      } else if buffer[tokenEnd] == '@' && state == StateTrim {
        tokenEnd := tokenEnd + 1;
        tokenType := Some(TagMarker);
        stack := Pop(stack) + [StateTaggedContents];
        return false;
      }
      stack := Pop(stack);
      return true;
    }

    method LexDefault()
      requires tokenEnd <= |buffer|
      modifies this
      ensures Outcome() == DefaultState(buffer, old(tokenEnd), old(stack))
      ensures tokenStart == old(tokenStart)
    {
      if tokenEnd == |buffer| {
        tokenType := None;
      } else if buffer[tokenEnd] == '~' {
        tokenEnd := tokenEnd + 1;
        tokenType := Some(XQDocCommentMarker);
        stack := stack + [StateContents];
        stack := stack + [StateTrim];
        assert stack == old(stack) + [StateContents, StateTrim];
      } else {
        stack := stack + [StateXQueryContents];
        stack := stack + [StateXQueryContentsTrim];
        assert stack == old(stack) + [StateXQueryContents, StateXQueryContentsTrim];
        assert Pop(stack) == old(stack) + [StateXQueryContents];
        var reenter := LexTrim(StateXQueryContentsTrim);
        if reenter {
          LexXQueryContents();
        }
      }
    }

    method LexTaggedContents()
      requires tokenEnd <= |buffer|
      modifies this
      ensures Outcome() == TaggedContentsState(buffer, old(tokenEnd), old(stack))
      ensures tokenStart == old(tokenStart)
    {
      if tokenEnd < |buffer| && IsAlphaNumeric(buffer[tokenEnd]) {
        var start := tokenEnd;
        MatchWhile(IsAlphaNumeric);
        tokenType := Some(TagName(buffer[start..tokenEnd]));
        if tokenType == Some(TParam) {
          stack := Pop(stack);
          stack := stack + [StateParamTagContentsStart];
        }
      } else if tokenEnd < |buffer| && IsSpaceOrTab(buffer[tokenEnd]) {
        MatchWhile(IsSpaceOrTab);
        tokenType := Some(WhiteSpace);
        stack := Pop(stack);
      } else {
        stack := Pop(stack);
        LexContents();
      }
    }

    method LexParamTagContentsStart()
      requires tokenEnd <= |buffer|
      modifies this
      ensures Outcome() == ParamTagContentsStartState(buffer, old(tokenEnd), old(stack))
      ensures tokenStart == old(tokenStart)
    {
      if tokenEnd < |buffer| && IsSpaceOrTab(buffer[tokenEnd]) {
        MatchWhile(IsSpaceOrTab);
        tokenType := Some(WhiteSpace);
      } else if At(buffer, tokenEnd, '$') {
        tokenEnd := tokenEnd + 1;
        tokenType := Some(VariableIndicator);
        stack := Pop(stack);
        stack := stack + [StateParamTagVarName];
      } else {
        stack := Pop(stack);
        LexContents();
      }
    }

    method LexParamTagVarName()
      requires tokenEnd <= |buffer|
      modifies this
      ensures Outcome() == ParamTagVarNameState(buffer, old(tokenEnd), old(stack))
      ensures tokenStart == old(tokenStart)
    {
      if tokenEnd < |buffer| && ClassOf(buffer[tokenEnd]) == Whitespace {
        tokenEnd := tokenEnd + 1;
        MatchWhile(IsWhitespaceClass);
        tokenType := Some(WhiteSpace);
        stack := Pop(stack);
      } else if tokenEnd < |buffer| && ClassOf(buffer[tokenEnd]) == NameStartChar {
        tokenEnd := tokenEnd + 1;
        MatchWhile(IsNCNameChar);
        tokenType := Some(NCName);
      } else {
        stack := Pop(stack);
        LexContents();
      }
    }

    method LexElemConstructor(state: int)
      requires tokenEnd <= |buffer|
      modifies this
      ensures Outcome() == ElemConstructorState(buffer, old(tokenEnd), old(stack), state)
      ensures tokenStart == old(tokenStart)
    {
      if tokenEnd == |buffer| {
        tokenType := None;
      } else if IsAlphaNumeric(buffer[tokenEnd]) {
        MatchWhile(IsAlphaNumeric);
        tokenType := Some(XmlTag);
      } else if IsXmlSpace(buffer[tokenEnd]) {
        MatchWhile(IsXmlSpace);
        tokenType := Some(WhiteSpace);
      } else if buffer[tokenEnd] == '=' {
        tokenEnd := tokenEnd + 1;
        tokenType := Some(XmlEqual);
      } else if buffer[tokenEnd] == '"' {
        tokenEnd := tokenEnd + 1;
        tokenType := Some(XmlAttributeValueStart);
        stack := stack + [StateAttributeValueQuote];
      } else if buffer[tokenEnd] == '\'' {
        tokenEnd := tokenEnd + 1;
        tokenType := Some(XmlAttributeValueStart);
        stack := stack + [StateAttributeValueApos];
      } else if buffer[tokenEnd] == '/' {
        tokenEnd := tokenEnd + 1;
        if At(buffer, tokenEnd, '>') {
          tokenEnd := tokenEnd + 1;
          tokenType := Some(SelfClosingXmlTag);
          stack := Pop(stack);
        } else {
          tokenType := Some(Invalid);
        }
      } else if buffer[tokenEnd] == '>' {
        tokenEnd := tokenEnd + 1;
        tokenType := Some(EndXmlTag);
        stack := Pop(stack);
        if state == StateElemConstructor {
          stack := stack + [StateElemContents];
        }
      } else {
        tokenEnd := tokenEnd + 1;
        tokenType := Some(Invalid);
      }
    }

    method LexElemContents()
      requires tokenEnd <= |buffer|
      modifies this
      ensures Outcome() == ElemContentsState(buffer, old(tokenEnd), old(stack))
      ensures tokenStart == old(tokenStart)
    {
      if tokenEnd == |buffer| {
        tokenType := None;
      } else if buffer[tokenEnd] == '<' {
        tokenEnd := tokenEnd + 1;
        if At(buffer, tokenEnd, '/') {
          tokenEnd := tokenEnd + 1;
          tokenType := Some(CloseXmlTag);
          stack := Pop(stack);
          stack := stack + [StateElemConstructorClosing];
        } else {
          tokenType := Some(OpenXmlTag);
          stack := stack + [StateElemConstructor];
        }
      } else if buffer[tokenEnd] == '&' {
        MatchEntityReference();
      } else {
        tokenEnd := tokenEnd + 1;
        MatchWhile(ContinuesElemContents);
        tokenType := Some(XmlElementContents);
      }
    }

    method LexAttributeValue(endChar: char)
      requires tokenEnd <= |buffer|
      modifies this
      ensures Outcome() == AttributeValueState(buffer, old(tokenEnd), old(stack), endChar)
      ensures tokenStart == old(tokenStart)
    {
      if tokenEnd == |buffer| {
        tokenType := None;
      } else if buffer[tokenEnd] == endChar {
        tokenEnd := tokenEnd + 1;
        tokenType := Some(XmlAttributeValueEnd);
        stack := Pop(stack);
      } else {
        MatchWhile(c => c != endChar);
        tokenType := Some(XmlAttributeValueContents);
      }
    }

    /**
     * `advance(state)` on the state at the top of the stack, lexing again
     * after every trim state that gives the token up; an unknown state is
     * the `AssertionError` "Invalid state: N", reported as `Err(N)`.
     */
    method AdvanceState() returns (r: Result<(), int>)
      requires tokenEnd <= |buffer|
      modifies this
      ensures Dispatch(buffer, old(tokenEnd), old(stack)).Ok? ==>
        r.Ok? && Outcome() == Dispatch(buffer, old(tokenEnd), old(stack)).value
      ensures Dispatch(buffer, old(tokenEnd), old(stack)).Err? ==>
        r == Err(Dispatch(buffer, old(tokenEnd), old(stack)).error)
      ensures tokenStart == old(tokenStart)
    {
      while true
        invariant tokenEnd == old(tokenEnd) && tokenStart == old(tokenStart)
        invariant Dispatch(buffer, tokenEnd, stack) == Dispatch(buffer, old(tokenEnd), old(stack))
        decreases |stack|
      {
        var state := Top(stack);
        if state == StateDefault {
          LexDefault();
          return Ok(());
        } else if state == StateContents {
          LexContents();
          return Ok(());
        } else if state == StateTaggedContents {
          LexTaggedContents();
          return Ok(());
        } else if state == StateElemConstructor || state == StateElemConstructorClosing {
          LexElemConstructor(state);
          return Ok(());
        } else if state == StateElemContents {
          LexElemContents();
          return Ok(());
        } else if state == StateAttributeValueQuote {
          LexAttributeValue('"');
          return Ok(());
        } else if state == StateAttributeValueApos {
          LexAttributeValue('\'');
          return Ok(());
        } else if state == StateTrim || state == StateXQueryContentsTrim {
          var reenter := LexTrim(state);
          if !reenter {
            return Ok(());
          }
        } else if state == StateParamTagContentsStart {
          LexParamTagContentsStart();
          return Ok(());
        } else if state == StateParamTagVarName {
          LexParamTagVarName();
          return Ok(());
        } else if state == StateXQueryContents {
          LexXQueryContents();
          return Ok(());
        } else {
          return Err(state);
        }
      }
    }

    /** `advance()`: the next token starts where the last one ended. */
    method Advance() returns (r: Result<(), int>)
      requires tokenEnd <= |buffer|
      modifies this
      ensures tokenStart == old(tokenEnd)
      ensures Dispatch(buffer, old(tokenEnd), old(stack)).Ok? ==>
        r.Ok? && Outcome() == Dispatch(buffer, old(tokenEnd), old(stack)).value
      ensures Dispatch(buffer, old(tokenEnd), old(stack)).Err? ==>
        r == Err(Dispatch(buffer, old(tokenEnd), old(stack)).error)
    {
      tokenStart := tokenEnd;
      r := AdvanceState();
    }
  }
}
