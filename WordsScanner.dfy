/**
 * The XPath find-usages words scanner: it splits the text of every lexer
 * token into word occurrences and hands them, one at a time, to a processor
 * that may stop the scan.
 *
 * The lexer is a sequence of tokens, the character classifier a function,
 * and the processor the sequence of answers it gives to the occurrences it
 * is handed, in order.
 */
module WordsScanner {
  /** The classes of `CharacterClass` the scanner tells apart. */
  datatype CharClass = NameStartChar | NameChar | Digit | Dot | HyphenMinus | OtherChar

  /** The token sets the scanner tells apart. */
  datatype TokenKind = Comment | StringLiteral | NumericLiteral | OtherToken

  datatype Token = Token(kind: TokenKind, start: nat, end: nat)

  /** `WordOccurrence.Kind`. */
  datatype WordKind = Code | Comments | Literals

  /** A word occurrence: the text range `[start, end)` and its kind. */
  datatype Occurrence = Occurrence(start: nat, end: nat, kind: WordKind)

  /** Whether a character of this class continues a word. */
  predicate InWord(c: CharClass) {
    c != OtherChar
  }

  /** The end of the run of word characters starting at `j`. */
  function RunEnd(text: seq<char>, classify: char -> CharClass, j: nat, end: nat): (r: nat)
    requires end <= |text|
    ensures j <= end ==> j <= r <= end
    ensures j > end ==> r == j
    ensures forall k :: j <= k < r ==> InWord(classify(text[k]))
    ensures r < end ==> !InWord(classify(text[r]))
    decreases end - j
  {
    if j >= end || !InWord(classify(text[j])) then j else RunEnd(text, classify, j + 1, end)
  }

  /**
   * The words of `text[i..end]`: each starts at a name-start character and
   * runs through the word characters after it; everything else is skipped.
   */
  function Scan(text: seq<char>, classify: char -> CharClass, i: nat, end: nat, kind: WordKind): seq<Occurrence>
    requires end <= |text|
    decreases end - i
  {
    if i >= end then []
    else if classify(text[i]) != NameStartChar then Scan(text, classify, i + 1, end, kind)
    else
      var e := RunEnd(text, classify, i + 1, end);
      [Occurrence(i, e, kind)] + Scan(text, classify, e, end, kind)
  }

  /** Whether `o` is a whole word of `text[i..end]`. */
  predicate IsWord(text: seq<char>, classify: char -> CharClass, i: nat, end: nat, o: Occurrence)
    requires end <= |text|
  {
    i <= o.start < o.end <= end &&
    classify(text[o.start]) == NameStartChar &&
    (forall k :: o.start <= k < o.end ==> InWord(classify(text[k]))) &&
    (o.end < end ==> !InWord(classify(text[o.end])))
  }

  /** Every occurrence is a whole word of the range starting at a name-start character. */
  lemma {:induction false} ScanFindsWords(text: seq<char>, classify: char -> CharClass, i: nat, end: nat, kind: WordKind)
    requires end <= |text|
    ensures forall o :: o in Scan(text, classify, i, end, kind) ==> IsWord(text, classify, i, end, o) && o.kind == kind
    decreases end - i
  {
    if i < end {
      if classify(text[i]) != NameStartChar {
        ScanFindsWords(text, classify, i + 1, end, kind);
      } else {
        var e := RunEnd(text, classify, i + 1, end);
        ScanFindsWords(text, classify, e, end, kind);
      }
    }
  }

  /** The words come in text order and do not overlap. */
  lemma {:induction false} ScanOrdered(text: seq<char>, classify: char -> CharClass, i: nat, end: nat, kind: WordKind)
    requires end <= |text|
    ensures forall j, k :: 0 <= j < k < |Scan(text, classify, i, end, kind)| ==>
      Scan(text, classify, i, end, kind)[j].end <= Scan(text, classify, i, end, kind)[k].start
    decreases end - i
  {
    hide Scan;
    if i >= end {
      ScanEnds(text, classify, i, end, kind);
    } else {
      if classify(text[i]) != NameStartChar {
        ScanSkips(text, classify, i, end, kind);
        ScanOrdered(text, classify, i + 1, end, kind);
      } else {
        var e := RunEnd(text, classify, i + 1, end);
        ScanOrdered(text, classify, e, end, kind);
        ScanFindsWords(text, classify, e, end, kind);
        ScanStartsWord(text, classify, i, end, kind);
        var rest := Scan(text, classify, e, end, kind);
        var all := Scan(text, classify, i, end, kind);
        forall j, k | 0 <= j < k < |all|
          ensures all[j].end <= all[k].start
        {
          if j == 0 {
            assert all[k] == rest[k - 1];
            assert rest[k - 1] in rest;
          } else {
            assert all[j] == rest[j - 1] && all[k] == rest[k - 1];
          }
        }
      }
    }
  }

  /** Every name-start character of the range lies inside one of the words. */
  lemma {:induction false} ScanCoversNameStarts(text: seq<char>, classify: char -> CharClass, i: nat, end: nat, kind: WordKind)
    requires end <= |text|
    ensures forall p :: i <= p < end && classify(text[p]) == NameStartChar ==>
      exists o :: o in Scan(text, classify, i, end, kind) && o.start <= p < o.end
    decreases end - i
  {
    if i < end {
      if classify(text[i]) != NameStartChar {
        ScanCoversNameStarts(text, classify, i + 1, end, kind);
      } else {
        var e := RunEnd(text, classify, i + 1, end);
        ScanCoversNameStarts(text, classify, e, end, kind);
        var rest := Scan(text, classify, e, end, kind);
        var all := Scan(text, classify, i, end, kind);
        assert all == [Occurrence(i, e, kind)] + rest;
        forall p | i <= p < end && classify(text[p]) == NameStartChar
          ensures exists o :: o in all && o.start <= p < o.end
        {
          if p < e {
            assert Occurrence(i, e, kind) in all;
          } else {
            var o :| o in rest && o.start <= p < o.end;
            assert o in all;
          }
        }
      }
    }
  }

  lemma ScanSkips(text: seq<char>, classify: char -> CharClass, i: nat, end: nat, kind: WordKind)
    requires end <= |text| && i < end && classify(text[i]) != NameStartChar
    ensures Scan(text, classify, i, end, kind) == Scan(text, classify, i + 1, end, kind)
  {
  }

  lemma ScanStartsWord(text: seq<char>, classify: char -> CharClass, i: nat, end: nat, kind: WordKind)
    requires end <= |text| && i < end && classify(text[i]) == NameStartChar
    ensures Scan(text, classify, i, end, kind)
      == [Occurrence(i, RunEnd(text, classify, i + 1, end), kind)] + Scan(text, classify, RunEnd(text, classify, i + 1, end), end, kind)
  {
  }

  lemma ScanEnds(text: seq<char>, classify: char -> CharClass, i: nat, end: nat, kind: WordKind)
    requires end <= |text| && i >= end
    ensures Scan(text, classify, i, end, kind) == []
  {
  }

  lemma RunContinues(text: seq<char>, classify: char -> CharClass, j: nat, end: nat)
    requires end <= |text| && j < end && InWord(classify(text[j]))
    ensures RunEnd(text, classify, j, end) == RunEnd(text, classify, j + 1, end)
  {
  }

  /** The answer the processor gives to the `n`-th occurrence it is handed. */
  function Answer(answers: seq<bool>, n: nat): bool {
    n >= |answers| || answers[n]
  }

  /**
   * Hands the occurrences to the processor in order after the `done` ones,
   * stopping at the first it refuses; the result says whether it accepted
   * all of them, and what it has been handed.
   */
  function Feed(done: seq<Occurrence>, occurrences: seq<Occurrence>, answers: seq<bool>): (bool, seq<Occurrence>)
    decreases |occurrences|
  {
    if |occurrences| == 0 then (true, done)
    else
      var handed := done + [occurrences[0]];
      if !Answer(answers, |done|) then (false, handed)
      else Feed(handed, occurrences[1..], answers)
  }

  /**
   * The processor is handed a prefix of the occurrences, the whole of them
   * exactly when it refuses none, and otherwise up to the first refused one.
   */
  lemma {:induction false} FeedStopsAtRefusal(done: seq<Occurrence>, occurrences: seq<Occurrence>, answers: seq<bool>)
    ensures var (ok, handed) := Feed(done, occurrences, answers);
      exists n :: 0 <= n <= |occurrences| && handed == done + occurrences[..n] &&
        (forall k :: |done| <= k < |done| + n - 1 ==> Answer(answers, k)) &&
        (ok <==> n == |occurrences| && forall k :: |done| <= k < |handed| ==> Answer(answers, k)) &&
        (!ok ==> n > 0 && !Answer(answers, |handed| - 1))
    decreases |occurrences|
  {
    hide Feed;
    if |occurrences| > 0 {
      var handed := done + [occurrences[0]];
      FeedOne(done, occurrences[0], occurrences[1..], answers);
      assert [occurrences[0]] + occurrences[1..] == occurrences;
      if !Answer(answers, |done|) {
        assert handed == done + occurrences[..1];
      } else {
        FeedStopsAtRefusal(handed, occurrences[1..], answers);
        var (ok, all) := Feed(handed, occurrences[1..], answers);
        var n :| 0 <= n <= |occurrences[1..]| && all == handed + occurrences[1..][..n] &&
          (forall k :: |handed| <= k < |handed| + n - 1 ==> Answer(answers, k)) &&
          (ok <==> n == |occurrences[1..]| && forall k :: |handed| <= k < |all| ==> Answer(answers, k)) &&
          (!ok ==> n > 0 && !Answer(answers, |all| - 1));
        assert all == done + occurrences[..n + 1];
      }
    } else {
      FeedNothing(done, answers);
      assert done + occurrences[..0] == done;
    }
  }

  /** Nothing to hand over: the processor accepted everything. */
  lemma FeedNothing(done: seq<Occurrence>, answers: seq<bool>)
    ensures Feed(done, [], answers) == (true, done)
  {
  }

  /** Handing over one occurrence, then the rest if it was accepted. */
  lemma FeedOne(done: seq<Occurrence>, o: Occurrence, rest: seq<Occurrence>, answers: seq<bool>)
    ensures Feed(done, [o] + rest, answers)
      == if !Answer(answers, |done|) then (false, done + [o]) else Feed(done + [o], rest, answers)
  {
    assert ([o] + rest)[1..] == rest;
  }

  /** Feeding two runs of occurrences is feeding the first and, if all were accepted, then the second. */
  lemma {:induction false} FeedAppend(done: seq<Occurrence>, a: seq<Occurrence>, b: seq<Occurrence>, answers: seq<bool>)
    ensures Feed(done, a + b, answers) ==
      (if Feed(done, a, answers).0 then Feed(Feed(done, a, answers).1, b, answers) else Feed(done, a, answers))
    decreases |a|
  {
    if |a| == 0 {
      assert a + b == b;
    } else {
      assert (a + b)[1..] == a[1..] + b;
      FeedAppend(done + [a[0]], a[1..], b, answers);
    }
  }

  /** The occurrences a token yields: numeric literals are one whole code occurrence. */
  function TokenOccurrences(text: seq<char>, classify: char -> CharClass, t: Token): seq<Occurrence>
    requires t.start <= t.end <= |text|
  {
    match t.kind
    case Comment => Scan(text, classify, t.start, t.end, Comments)
    case StringLiteral => Scan(text, classify, t.start, t.end, Literals)
    case NumericLiteral => [Occurrence(t.start, t.end, Code)]
    case OtherToken => Scan(text, classify, t.start, t.end, Code)
  }

  predicate ValidTokens(text: seq<char>, tokens: seq<Token>) {
    forall k :: 0 <= k < |tokens| ==> tokens[k].start <= tokens[k].end <= |text|
  }

  /** The occurrences of all the tokens, in order. */
  function AllOccurrences(text: seq<char>, classify: char -> CharClass, tokens: seq<Token>): seq<Occurrence>
    requires ValidTokens(text, tokens)
    decreases |tokens|
  {
    if |tokens| == 0 then []
    else TokenOccurrences(text, classify, tokens[0]) + AllOccurrences(text, classify, tokens[1..])
  }

  lemma AllOccurrencesStep(text: seq<char>, classify: char -> CharClass, tokens: seq<Token>, i: nat)
    requires ValidTokens(text, tokens) && i < |tokens|
    ensures AllOccurrences(text, classify, tokens[i..])
      == TokenOccurrences(text, classify, tokens[i]) + AllOccurrences(text, classify, tokens[i + 1..])
  {
    assert tokens[i..][1..] == tokens[i + 1..];
  }

  lemma AllOccurrencesEnd(text: seq<char>, classify: char -> CharClass, tokens: seq<Token>)
    requires ValidTokens(text, tokens)
    ensures AllOccurrences(text, classify, tokens[|tokens|..]) == []
  {
  }

  /** `XPathWordsScanner` with its code point range `mRange`. */
  class Scanner {
    var rangeStart: nat
    var rangeEnd: nat
    var bufferEnd: nat

    constructor()
      ensures rangeStart == rangeEnd == bufferEnd == 0
    {
      rangeStart, rangeEnd, bufferEnd := 0, 0, 0;
    }

    /**
     * `processToken`: scan the range for words of the given kind, handing
     * each to the processor after the `done` ones; stops, returning false,
     * when the processor refuses one.
     */
    method ProcessToken(text: seq<char>, classify: char -> CharClass, kind: WordKind,
                        answers: seq<bool>, done: seq<Occurrence>) returns (ok: bool, handed: seq<Occurrence>)
      requires rangeStart == rangeEnd <= bufferEnd <= |text|
      modifies this
      ensures bufferEnd == old(bufferEnd) && rangeStart <= rangeEnd <= bufferEnd
      ensures (ok, handed) == Feed(done, Scan(text, classify, old(rangeEnd), bufferEnd, kind), answers)
      ensures ok ==> rangeEnd == bufferEnd
    {
      ghost var start := rangeEnd;
      hide Feed, Scan, RunEnd;
      var inWord := false;
      var wordStart: nat, pos: nat, end: nat := rangeStart, rangeEnd, bufferEnd;
      handed := done;
      while true
        invariant wordStart <= pos <= end == bufferEnd <= |text|
        invariant !inWord ==>
          Feed(done, Scan(text, classify, start, end, kind), answers)
            == Feed(handed, Scan(text, classify, pos, end, kind), answers)
        invariant inWord ==> wordStart < pos && classify(text[wordStart]) == NameStartChar
        invariant inWord ==> RunEnd(text, classify, wordStart + 1, end) == RunEnd(text, classify, pos, end)
        invariant inWord ==>
          Feed(done, Scan(text, classify, start, end, kind), answers)
            == Feed(handed, [Occurrence(wordStart, RunEnd(text, classify, pos, end), kind)]
                            + Scan(text, classify, RunEnd(text, classify, pos, end), end, kind), answers)
        invariant rangeStart == old(rangeStart) && rangeEnd == old(rangeEnd)
        decreases end - pos
      {
        if pos >= end {
          rangeStart, rangeEnd := wordStart, pos;
          ScanEnds(text, classify, pos, end, kind);
          if inWord {
            var o := Occurrence(wordStart, pos, kind);
            FeedOne(handed, o, [], answers);
            FeedNothing(handed + [o], answers);
            ok := Answer(answers, |handed|);
            handed := handed + [o];
            return;
          }
          FeedNothing(handed, answers);
          return true, handed;
        }
        var c := classify(text[pos]);
        if c == NameStartChar {
          if !inWord {
            ScanStartsWord(text, classify, pos, end, kind);
            inWord := true;
            wordStart := pos;
          } else {
            RunContinues(text, classify, pos, end);
          }
        } else if c == OtherChar {
          if inWord {
            var o := Occurrence(wordStart, pos, kind);
            FeedOne(handed, o, Scan(text, classify, pos, end, kind), answers);
            if !Answer(answers, |handed|) {
              rangeStart, rangeEnd := wordStart, pos;
              return false, handed + [o];
            }
            handed := handed + [o];
            inWord := false;
          }
          ScanSkips(text, classify, pos, end, kind);
        } else if inWord {
          RunContinues(text, classify, pos, end);
        } else {
          ScanSkips(text, classify, pos, end, kind);
        }
        pos := pos + 1;
      }
    }

    /** One pass of the loop of `processWordsEx`: the token's occurrences, handed to the processor after the `done` ones. */
    method ProcessTokenWords(text: seq<char>, classify: char -> CharClass, t: Token, answers: seq<bool>, done: seq<Occurrence>)
      returns (ok: bool, handed: seq<Occurrence>)
      requires t.start <= t.end <= |text|
      modifies this
      ensures (ok, handed) == Feed(done, TokenOccurrences(text, classify, t), answers)
    {
      rangeStart, rangeEnd, bufferEnd := t.start, t.start, t.end;
      match t.kind {
        case Comment =>
          ok, handed := ProcessToken(text, classify, Comments, answers, done);
        case StringLiteral =>
          ok, handed := ProcessToken(text, classify, Literals, answers, done);
        case NumericLiteral =>
          var o := Occurrence(t.start, t.end, Code);
          FeedOne(done, o, [], answers);
          FeedNothing(done + [o], answers);
          assert [o] + [] == [o];
          ok := Answer(answers, |done|);
          handed := done + [o];
        case OtherToken =>
          ok, handed := ProcessToken(text, classify, Code, answers, done);
      }
    }

    /**
     * `processWordsEx`: the occurrences of every token, handed to the
     * processor in order until it refuses one.
     */
    method ProcessWordsEx(text: seq<char>, tokens: seq<Token>, classify: char -> CharClass, answers: seq<bool>)
      returns (handed: seq<Occurrence>)
      requires ValidTokens(text, tokens)
      modifies this
      ensures handed == Feed([], AllOccurrences(text, classify, tokens), answers).1
    {
      hide Feed, AllOccurrences;
      handed := [];
      var i := 0;
      assert tokens[0..] == tokens;
      while i < |tokens|
        invariant 0 <= i <= |tokens|
        invariant Feed([], AllOccurrences(text, classify, tokens), answers)
          == Feed(handed, AllOccurrences(text, classify, tokens[i..]), answers)
      {
        var t := tokens[i];
        AllOccurrencesStep(text, classify, tokens, i);
        FeedAppend(handed, TokenOccurrences(text, classify, t), AllOccurrences(text, classify, tokens[i + 1..]), answers);
        var ok;
        ok, handed := ProcessTokenWords(text, classify, t, answers, handed);
        if !ok {
          return;
        }
        i := i + 1;
      }
      AllOccurrencesEnd(text, classify, tokens);
      FeedNothing(handed, answers);
    }
  }

}
