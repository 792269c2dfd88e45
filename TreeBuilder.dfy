/**
 * The IDE tree builder the parsers drive: a token sequence with a cursor
 * and an arena of markers. A marker is opened at the current token and
 * later completed as a node, completed as an error node, dropped, or
 * rolled back to (which also restores the cursor).
 *
 * A marker is completed (or dropped, or rolled back to) only when every
 * marker opened after it has been closed: the open markers form a stack,
 * kept here as the ghost stack `open` of their indices.
 *
 * Comment tokens are hidden by the builder and never appear in the token
 * sequence; white space is not, and the parsers skip it themselves.
 */
module TreeBuilder {
  import opened Wrappers

  datatype MarkerState<E, M> =
    | Open
    | Completed(end: nat, kind: E)
    | Failed(end: nat, message: M)
    | Dropped

  /** A marker: the token it was opened at and what became of it. */
  datatype Marker<E, M> = Marker(start: nat, state: MarkerState<E, M>)

  /** No marker from index `n` on is still open. */
  predicate ClosedFrom<E, M>(markers: seq<Marker<E, M>>, n: nat) {
    forall k :: n <= k < |markers| ==> !markers[k].state.Open?
  }

  /** Closing the marker a rule opened first replaces it in place, ahead of the markers opened after it. */
  lemma Closes<E, M>(markers0: seq<Marker<E, M>>, first: Marker<E, M>, inner: seq<Marker<E, M>>, closed: Marker<E, M>)
    ensures (markers0 + [first] + inner)[|markers0| := closed] == markers0 + ([closed] + inner)
  {
    var s := (markers0 + [first] + inner)[|markers0| := closed];
    assert forall k | 0 <= k < |s| :: s[k] == (markers0 + ([closed] + inner))[k];
  }

  /** Appending markers in two steps appends them in one. */
  lemma Appended<E, M>(markers0: seq<Marker<E, M>>, a: seq<Marker<E, M>>, b: seq<Marker<E, M>>)
    ensures markers0 + a + b == markers0 + (a + b)
  {
  }

  /** The indices of the open markers, the last opened on top. */
  datatype Stack = Bottom | Push(below: Stack, top: nat)

  class Builder<T(==), E, M> {
    const tokens: seq<T>
    var pos: nat
    var markers: seq<Marker<E, M>>
    ghost var open: Stack

    predicate Valid()
      reads this
    {
      pos <= |tokens|
    }

    /** `getTokenType`: None at the end of the tokens. */
    function TokenType(): Option<T>
      reads this
    {
      if pos < |tokens| then Some(tokens[pos]) else None
    }

    constructor(tokens: seq<T>)
      ensures Valid() && this.tokens == tokens && pos == 0 && markers == [] && open == Bottom
    {
      this.tokens := tokens;
      pos := 0;
      markers := [];
      open := Bottom;
    }

    /** `advanceLexer`: moves to the next token; at the end it does nothing. */
    method AdvanceLexer()
      requires Valid()
      modifies this
      ensures Valid() && markers == old(markers) && open == old(open)
      ensures pos == if old(pos) < |tokens| then old(pos) + 1 else old(pos)
    {
      if pos < |tokens| {
        pos := pos + 1;
      }
    }

    /** `mark`: opens a marker at the current token. */
    method Mark() returns (m: nat)
      requires Valid()
      modifies this
      ensures Valid() && pos == old(pos)
      ensures m == |old(markers)| && markers == old(markers) + [Marker(pos, Open)]
      ensures open == Push(old(open), m)
    {
      m := |markers|;
      markers := markers + [Marker(pos, Open)];
      open := Push(open, m);
    }

    /**
     * `done`: completes an open marker as a node ending at the current
     * token; every marker opened after it must already be closed. The
     * ghost parameters place the marker: `below` were opened before it,
     * `start` is its token, and `inner` were opened after it.
     */
    method Done(m: nat, kind: E, ghost below: seq<Marker<E, M>>, ghost start: nat, ghost inner: seq<Marker<E, M>>)
      requires Valid() && markers == below + [Marker(start, Open)] + inner && m == |below| && open.Push? && open.top == m
      modifies this
      ensures Valid() && pos == old(pos) && open == old(open).below
      ensures markers == below + ([Marker(start, Completed(pos, kind))] + inner)
    {
      Closes(below, Marker(start, Open), inner, Marker(start, Completed(pos, kind)));
      markers := markers[m := Marker(markers[m].start, Completed(pos, kind))];
      open := open.below;
    }

    /** `error` on a marker: completes it as an error node carrying `message`; placed as for `Done`. */
    method MarkerError(m: nat, message: M, ghost below: seq<Marker<E, M>>, ghost start: nat, ghost inner: seq<Marker<E, M>>)
      requires Valid() && markers == below + [Marker(start, Open)] + inner && m == |below| && open.Push? && open.top == m
      modifies this
      ensures Valid() && pos == old(pos) && open == old(open).below
      ensures markers == below + ([Marker(start, Failed(pos, message))] + inner)
    {
      Closes(below, Marker(start, Open), inner, Marker(start, Failed(pos, message)));
      markers := markers[m := Marker(markers[m].start, Failed(pos, message))];
      open := open.below;
    }

    /** `drop`: the marker builds no node; placed as for `Done`. */
    method Drop(m: nat, ghost below: seq<Marker<E, M>>, ghost start: nat, ghost inner: seq<Marker<E, M>>)
      requires Valid() && markers == below + [Marker(start, Open)] + inner && m == |below| && open.Push? && open.top == m
      modifies this
      ensures Valid() && pos == old(pos) && open == old(open).below
      ensures markers == below + ([Marker(start, Dropped)] + inner)
    {
      Closes(below, Marker(start, Open), inner, Marker(start, Dropped));
      markers := markers[m := Marker(markers[m].start, Dropped)];
      open := open.below;
    }

    /**
     * `rollbackTo`: the cursor returns to the marker, which was opened at
     * or before it, and the marker is discarded with every marker after it.
     */
    method RollbackTo(m: nat)
      requires Valid() && m < |markers| && markers[m].state.Open? && markers[m].start <= pos && open.Push? && open.top == m
      modifies this
      ensures Valid() && open == old(open).below
      ensures pos == old(markers)[m].start && markers == old(markers)[..m]
    {
      pos := markers[m].start;
      markers := markers[..m];
      open := open.below;
    }

    /** `builder.error`: an empty error node at the current token. */
    method Error(message: M)
      requires Valid()
      modifies this
      ensures Valid() && pos == old(pos)
      ensures markers == old(markers) + [Marker(pos, Failed(pos, message))] && open == old(open)
    {
      markers := markers + [Marker(pos, Failed(pos, message))];
    }

    /** `matchTokenType`: consumes the token when it is `t`. */
    method MatchTokenType(t: T) returns (r: bool)
      requires Valid()
      modifies this
      ensures Valid() && markers == old(markers) && open == old(open)
      ensures r <==> old(TokenType()) == Some(t)
      ensures pos == if r then old(pos) + 1 else old(pos)
    {
      r := TokenType() == Some(t);
      if r {
        pos := pos + 1;
      }
    }

    /** `matchTokenTypeWithMarker`: on `t`, opens a marker there and consumes the token. */
    method MatchTokenTypeWithMarker(t: T) returns (m: Option<nat>)
      requires Valid()
      modifies this
      ensures Valid()
      ensures m.Some? <==> old(TokenType()) == Some(t)
      ensures m.Some? ==>
        m.value == |old(markers)| && markers == old(markers) + [Marker(old(pos), Open)] && pos == old(pos) + 1 &&
        open == Push(old(open), m.value)
      ensures m.None? ==> markers == old(markers) && pos == old(pos) && open == old(open)
    {
      if TokenType() == Some(t) {
        var n := Mark();
        AdvanceLexer();
        m := Some(n);
      } else {
        m := None;
      }
    }

    /** `errorOnTokenType`: on `t`, consumes the token as an error node carrying `message`. */
    method ErrorOnTokenType(t: T, message: M) returns (r: bool)
      requires Valid()
      modifies this
      ensures Valid() && open == old(open)
      ensures r <==> old(TokenType()) == Some(t)
      ensures r ==> pos == old(pos) + 1 && markers == old(markers) + [Marker(old(pos), Failed(pos, message))]
      ensures !r ==> markers == old(markers) && pos == old(pos)
    {
      if TokenType() == Some(t) {
        ghost var below := markers;
        var m := Mark();
        AdvanceLexer();
        MarkerError(m, message, below, old(pos), []);
        r := true;
      } else {
        r := false;
      }
    }
  }
}
