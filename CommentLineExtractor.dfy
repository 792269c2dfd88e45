/**
 * The xqDoc comment line extractor: it walks the tokens of one comment and
 * returns its description lines one at a time, skipping the line trims
 * and the blank lines at the start of the comment.
 *
 * The extractor's lexer is represented by the token stream it produces
 * (`XQDocLexer` models the lexer itself): `pos` is the index of the
 * current token, and the end of the stream has no token type.
 */
module CommentLineExtractor {
  import opened Wrappers
  import opened XQDocLexer

  /** One lexer token: its type and its range in the comment. */
  datatype Token = Token(kind: TokenType, start: nat, end: nat)

  /** A range of the comment, `[start, end)`. */
  datatype Range = Range(start: nat, end: nat)

  /** A description line: its text and where it lies in the comment. */
  datatype Line = Line(text: string, range: Range)

  /** Tokens are non-empty, lie within the comment and follow each other in order. */
  predicate ValidTokens(comment: string, tokens: seq<Token>) {
    (forall k :: 0 <= k < |tokens| ==> tokens[k].start < tokens[k].end <= |comment|) &&
    (forall j, k :: 0 <= j < k < |tokens| ==> tokens[j].end <= tokens[k].start)
  }

  /** The type of the token at `p`; None at the end of the stream. */
  function Kind(tokens: seq<Token>, p: nat): Option<TokenType> {
    if p < |tokens| then Some(tokens[p].kind) else None
  }

  /** `DESCRIPTION_LINE_TOKENS`: contents, white space, XML markup and entity references. */
  predicate IsDescriptionToken(t: TokenType) {
    t in {Contents, WhiteSpace, OpenXmlTag, EndXmlTag, CloseXmlTag, SelfClosingXmlTag, XmlTag, XmlEqual,
          XmlAttributeValueStart, XmlAttributeValueContents, XmlAttributeValueEnd, XmlElementContents,
          CharacterReference, PredefinedEntityReference, PartialEntityReference, EmptyEntityReference}
  }

  /** One pass of the skipping loop in `next`: at most one TRIM, then at most one WHITE_SPACE. */
  function SkipOnce(tokens: seq<Token>, p: nat): (r: nat)
    requires p <= |tokens|
    ensures p <= r <= |tokens| && r <= p + 2
    ensures r == p ==> Kind(tokens, p) != Some(Trim) && Kind(tokens, p) != Some(WhiteSpace)
  {
    var q := if Kind(tokens, p) == Some(Trim) then p + 1 else p;
    if Kind(tokens, q) == Some(WhiteSpace) then q + 1 else q
  }

  /** The skipping loop of `next`: it repeats while at a TRIM at the start of the comment. */
  function SkipTrivia(tokens: seq<Token>, p: nat, startOfComment: bool): (r: nat)
    requires p <= |tokens|
    ensures p <= r <= |tokens|
    decreases |tokens| - p
  {
    var q := SkipOnce(tokens, p);
    if Kind(tokens, q) == Some(Trim) && startOfComment then SkipTrivia(tokens, q, startOfComment) else q
  }

  /** The first token from `p` on that is not part of a description line. */
  function DescriptionEnd(tokens: seq<Token>, p: nat): (r: nat)
    requires p <= |tokens|
    ensures p <= r <= |tokens|
    decreases |tokens| - p
  {
    if p < |tokens| && IsDescriptionToken(tokens[p].kind) then DescriptionEnd(tokens, p + 1) else p
  }

  /**
   * `next`: the line found from token `p` (None when there is none) and
   * the token the lexer stops at.
   */
  function NextLine(comment: string, tokens: seq<Token>, p: nat, startOfComment: bool): (r: (Option<Line>, nat))
    requires ValidTokens(comment, tokens) && p <= |tokens|
    ensures p <= r.1 <= |tokens|
  {
    var q := SkipTrivia(tokens, p, startOfComment);
    if Kind(tokens, q) == Some(Contents) then
      var e := DescriptionEnd(tokens, q);
      assert e > q;
      var start, end := tokens[q].start, tokens[e - 1].end;
      assert start <= end by {
        if q < e - 1 {
          assert tokens[q].end <= tokens[e - 1].start;
        }
      }
      (Some(Line(comment[start..end], Range(start, end))), e)
    else if Kind(tokens, q) == Some(Trim) then
      (Some(Line("", Range(tokens[q].start, tokens[q].start))), q + 1)
    else
      (None, q)
  }

  /** `XQDocCommentLineExtractor`: the comment, its tokens, and the line last found. */
  class Extractor {
    const comment: string
    const tokens: seq<Token>
    const isXQDoc: bool
    var pos: nat
    var startOfComment: bool
    var text: Option<string>
    var textRange: Option<Range>

    predicate Valid()
      reads this
    {
      ValidTokens(comment, tokens) && pos <= |tokens|
    }

    /** `init`: a comment is xqDoc when its first token is the `~` marker, which is then consumed. */
    constructor(comment: string, tokens: seq<Token>)
      requires ValidTokens(comment, tokens)
      ensures Valid() && this.comment == comment && this.tokens == tokens
      ensures isXQDoc <==> Kind(tokens, 0) == Some(XQDocCommentMarker)
      ensures pos == (if isXQDoc then 1 else 0)
      ensures startOfComment && text.None? && textRange.None?
    {
      this.comment := comment;
      this.tokens := tokens;
      isXQDoc := Kind(tokens, 0) == Some(XQDocCommentMarker);
      pos := if Kind(tokens, 0) == Some(XQDocCommentMarker) then 1 else 0;
      startOfComment := true;
      text := None;
      textRange := None;
    }

    /** `next`: moves to the next description line; false, with no text or range, when there is none. */
    method Next() returns (r: bool)
      requires Valid()
      modifies this
      ensures Valid() && !startOfComment
      ensures r == NextLine(comment, tokens, old(pos), old(startOfComment)).0.Some?
      ensures pos == NextLine(comment, tokens, old(pos), old(startOfComment)).1
      ensures r ==> text == Some(NextLine(comment, tokens, old(pos), old(startOfComment)).0.value.text)
      ensures r ==> textRange == Some(NextLine(comment, tokens, old(pos), old(startOfComment)).0.value.range)
      ensures !r ==> text.None? && textRange.None?
    {
      SkipLeadingTrivia();
      startOfComment := false;
      var kind := Kind(tokens, pos);
      if kind == Some(Contents) {
        ParseDescriptionLine();
        r := true;
      } else if kind == Some(Trim) {
        ParseEmptyDescriptionLine();
        r := true;
      } else {
        text := None;
        textRange := None;
        r := false;
      }
    }

    /** The skipping loop of `next`: TRIM and WHITE_SPACE tokens, past every blank line at the start of the comment. */
    method SkipLeadingTrivia()
      requires Valid()
      modifies this
      ensures Valid() && pos == SkipTrivia(tokens, old(pos), startOfComment)
      ensures startOfComment == old(startOfComment) && text == old(text) && textRange == old(textRange)
    {
      while true
        invariant pos <= |tokens|
        invariant SkipOnce(tokens, pos) <= |tokens|
        invariant SkipTrivia(tokens, pos, startOfComment) == SkipTrivia(tokens, old(pos), old(startOfComment))
        invariant startOfComment == old(startOfComment) && text == old(text) && textRange == old(textRange)
        decreases |tokens| - pos
      {
        var before := pos;
        if Kind(tokens, pos) == Some(Trim) {
          pos := pos + 1;
        }
        if Kind(tokens, pos) == Some(WhiteSpace) {
          pos := pos + 1;
        }
        assert pos == SkipOnce(tokens, before);
        if !(Kind(tokens, pos) == Some(Trim) && startOfComment) {
          break;
        }
      }
    }

    /** `parseEmptyDescriptionLine`: an empty line at the start of the TRIM token, which is consumed. */
    method ParseEmptyDescriptionLine()
      requires Valid() && Kind(tokens, pos) == Some(Trim)
      modifies this
      ensures Valid() && startOfComment == old(startOfComment) && pos == old(pos) + 1
      ensures text == Some("") && textRange == Some(Range(tokens[old(pos)].start, tokens[old(pos)].start))
    {
      text := Some("");
      textRange := Some(Range(tokens[pos].start, tokens[pos].start));
      pos := pos + 1;
    }

    /** `parseDescriptionLine`: the line runs from the CONTENTS token over every description-line token after it. */
    method ParseDescriptionLine()
      requires Valid() && Kind(tokens, pos) == Some(Contents)
      modifies this
      ensures Valid() && startOfComment == old(startOfComment)
      ensures pos == DescriptionEnd(tokens, old(pos))
      ensures textRange == Some(Range(tokens[old(pos)].start, tokens[pos - 1].end))
      ensures text == Some(comment[tokens[old(pos)].start..tokens[pos - 1].end])
    {
      var start := tokens[pos].start;
      var end := tokens[pos].end;
      ghost var first := pos;
      while pos < |tokens| && IsDescriptionToken(tokens[pos].kind)
        invariant first < pos || (pos == first && end == tokens[first].end)
        invariant first <= pos <= |tokens|
        invariant first < pos ==> end == tokens[pos - 1].end
        invariant DescriptionEnd(tokens, pos) == DescriptionEnd(tokens, first)
        invariant startOfComment == old(startOfComment)
        decreases |tokens| - pos
      {
        end := tokens[pos].end;
        pos := pos + 1;
      }
      assert first < pos;
      assert start <= end by {
        if first < pos - 1 {
          assert tokens[first].end <= tokens[pos - 1].start;
        }
      }
      text := Some(comment[start..end]);
      textRange := Some(Range(start, end));
    }
  }

  /** The text of every line is the part of the comment its range covers. */
  lemma LineIsCommentText(comment: string, tokens: seq<Token>, p: nat, startOfComment: bool)
    requires ValidTokens(comment, tokens) && p <= |tokens|
    ensures var (line, _) := NextLine(comment, tokens, p, startOfComment);
      line.Some? ==>
        line.value.range.start <= line.value.range.end <= |comment| &&
        line.value.text == comment[line.value.range.start..line.value.range.end]
  {
    var q := SkipTrivia(tokens, p, startOfComment);
    if Kind(tokens, q) == Some(Contents) {
      var e := DescriptionEnd(tokens, q);
      assert tokens[q].start <= tokens[e - 1].end by {
        if q < e - 1 {
          assert tokens[q].end <= tokens[e - 1].start;
        }
      }
    }
  }

  /** Every token from `p` up to `DescriptionEnd` belongs to a description line, and the one there does not. */
  lemma {:induction false} DescriptionEndStops(tokens: seq<Token>, p: nat)
    requires p <= |tokens|
    ensures forall k :: p <= k < DescriptionEnd(tokens, p) ==> IsDescriptionToken(tokens[k].kind)
    ensures DescriptionEnd(tokens, p) < |tokens| ==> !IsDescriptionToken(tokens[DescriptionEnd(tokens, p)].kind)
    decreases |tokens| - p
  {
    if p < |tokens| && IsDescriptionToken(tokens[p].kind) {
      DescriptionEndStops(tokens, p + 1);
    }
  }

  /**
   * A description line starts at a CONTENTS token and spans exactly the
   * description-line tokens that follow it, so it never takes in a line
   * trim, a tag marker or a tag name.
   */
  lemma ContentLineSpansDescriptionTokens(comment: string, tokens: seq<Token>, p: nat, startOfComment: bool)
    requires ValidTokens(comment, tokens) && p <= |tokens|
    requires Kind(tokens, SkipTrivia(tokens, p, startOfComment)) == Some(Contents)
    ensures var q := SkipTrivia(tokens, p, startOfComment);
      var (line, e) := NextLine(comment, tokens, p, startOfComment);
      q < e && line.Some? && line.value.range == Range(tokens[q].start, tokens[e - 1].end) &&
      (forall k :: q <= k < e ==> IsDescriptionToken(tokens[k].kind)) &&
      (forall k :: q <= k < e ==> tokens[k].kind !in {Trim, TagMarker, Tag, XQDocCommentMarker})
    ensures var (_, e) := NextLine(comment, tokens, p, startOfComment);
      e < |tokens| ==> !IsDescriptionToken(tokens[e].kind)
  {
    var q := SkipTrivia(tokens, p, startOfComment);
    DescriptionEndStops(tokens, q);
  }

  /** After the skipping loop at the start of a comment the lexer is never at a TRIM. */
  lemma {:induction false} StartSkipsBlankLines(tokens: seq<Token>, p: nat)
    requires p <= |tokens|
    ensures Kind(tokens, SkipTrivia(tokens, p, true)) != Some(Trim)
    decreases |tokens| - p
  {
    var q := SkipOnce(tokens, p);
    if Kind(tokens, q) == Some(Trim) {
      StartSkipsBlankLines(tokens, q);
    }
  }

  /**
   * At the start of a comment every line found has text: the blank lines
   * before the first description line give no empty lines.
   */
  lemma FirstLineIsNotBlank(comment: string, tokens: seq<Token>, p: nat)
    requires ValidTokens(comment, tokens) && p <= |tokens|
    ensures var (line, _) := NextLine(comment, tokens, p, true);
      line.Some? ==> |line.value.text| > 0
  {
    StartSkipsBlankLines(tokens, p);
    LineIsCommentText(comment, tokens, p, true);
    var q := SkipTrivia(tokens, p, true);
    if Kind(tokens, q) == Some(Contents) {
      var e := DescriptionEnd(tokens, q);
      assert tokens[q].start < tokens[q].end <= tokens[e - 1].end by {
        if q < e - 1 {
          assert tokens[q].end <= tokens[e - 1].start;
        }
      }
    }
  }

  /** After the start of a comment, `next` skips at most one TRIM and one WHITE_SPACE. */
  lemma LaterLinesSkipOneTrim(tokens: seq<Token>, p: nat)
    requires p <= |tokens|
    ensures SkipTrivia(tokens, p, false) == SkipOnce(tokens, p) <= p + 2
  {
  }

  /** A TRIM left after skipping is an empty line at the start of that TRIM token. */
  lemma TrimIsEmptyLine(comment: string, tokens: seq<Token>, p: nat)
    requires ValidTokens(comment, tokens) && p <= |tokens|
    requires Kind(tokens, SkipOnce(tokens, p)) == Some(Trim)
    ensures var q := SkipOnce(tokens, p);
      NextLine(comment, tokens, p, false) == (Some(Line("", Range(tokens[q].start, tokens[q].start))), q + 1)
  {
  }

  /**
   * `next` finds a line exactly when the skipping stops at a CONTENTS or a
   * TRIM token, and always moves past a line it finds.
   */
  lemma NextLineFoundIff(comment: string, tokens: seq<Token>, p: nat, startOfComment: bool)
    requires ValidTokens(comment, tokens) && p <= |tokens|
    ensures var q := SkipTrivia(tokens, p, startOfComment);
      NextLine(comment, tokens, p, startOfComment).0.Some? <==> Kind(tokens, q) in {Some(Contents), Some(Trim)}
    ensures var (line, e) := NextLine(comment, tokens, p, startOfComment);
      line.Some? ==> p < e
  {
  }
}
