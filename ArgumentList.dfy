/**
 * Binding the arguments of a function call to the parameters of the function
 * it resolves to, including arrow calls and a variadic last parameter.
 */
module ArgumentList {
  import opened Wrappers

  /** A child of an argument list; the number tells nodes apart. */
  datatype Child = Expression(id: nat) | ArgumentPlaceholder(id: nat) | Punctuation(id: nat)

  datatype Param = Param(name: string)

  /** The call an argument list belongs to; `declaration` is None when the function does not resolve. */
  datatype Parent =
    | NotACall
    | FunctionCall(declaration: Option<seq<Param>>)
      /** `source => f(…)`: the arrow's source expression is the first argument. */
    | ArrowFunctionCall(declaration: Option<seq<Param>>, sourceExpression: Child)

  /** A parameter and the arguments bound to it. */
  datatype Binding = Binding(param: Param, args: seq<Child>)

  predicate IsArgument(c: Child) {
    c.Expression? || c.ArgumentPlaceholder?
  }

  /** `arguments`: the expression and placeholder children, in order. */
  function Arguments(children: seq<Child>): (r: seq<Child>)
    ensures forall c :: c in r <==> c in children && IsArgument(c)
    ensures |r| <= |children|
  {
    if |children| == 0 then []
    else if IsArgument(children[0]) then [children[0]] + Arguments(children[1..])
    else Arguments(children[1..])
  }

  /** The arguments of a concatenation are the arguments of each part, in order: the filter keeps child order. */
  lemma {:induction false} ArgumentsAppend(a: seq<Child>, b: seq<Child>)
    ensures Arguments(a + b) == Arguments(a) + Arguments(b)
  {
    if |a| > 0 {
      assert (a + b)[1..] == a[1..] + b;
      ArgumentsAppend(a[1..], b);
    } else {
      assert a + b == b;
    }
  }

  /** A single child is its own argument list when it is an argument, and contributes nothing otherwise. */
  lemma ArgumentsOne(c: Child)
    ensures Arguments([c]) == if IsArgument(c) then [c] else []
  {
    assert [c][1..] == [];
  }

  function Min(a: int, b: int): int { if a <= b then a else b }

  /**
   * The bindings of `params` to `args`, described in one piece: the arrow
   * source for the first parameter, then one argument for each middle
   * parameter while arguments last, then all remaining arguments for the last
   * parameter.
   */
  function Expected(params: seq<Param>, args: seq<Child>, arrow: Option<Child>): seq<Binding> {
    var n := |params|;
    if n == 0 then []
    else if arrow.Some? && n == 1 then [Binding(params[0], [arrow.value])]
    else
      var off := if arrow.Some? then 1 else 0;
      var k := Min(n - 1 - off, |args|);
      (if arrow.Some? then [Binding(params[0], [arrow.value])] else [])
      + seq(k, j requires 0 <= j < k => Binding(params[off + j], [args[j]]))
      + [Binding(params[n - 1], args[k..])]
  }

  /** The bindings made for the first `i` parameters, none of them the last one. */
  function Partial(params: seq<Param>, args: seq<Child>, arrow: Option<Child>, i: nat): seq<Binding>
    requires i < |params|
  {
    var off := if arrow.Some? then 1 else 0;
    var k := if i <= off then 0 else Min(i - off, |args|);
    (if arrow.Some? && i >= 1 then [Binding(params[0], [arrow.value])] else [])
    + seq(k, j requires 0 <= j < k => Binding(params[off + j], [args[j]]))
  }

  /** The position of the argument iterator before parameter `i`. */
  function NextArgument(args: seq<Child>, arrow: Option<Child>, i: nat): nat {
    var off := if arrow.Some? then 1 else 0;
    if i <= off then 0 else Min(i - off, |args|)
  }

  /** The arrow source bound to the first parameter. */
  lemma ArrowSourceBound(params: seq<Param>, args: seq<Child>, arrow: Option<Child>)
    requires arrow.Some? && |params| > 0
    ensures |params| == 1 ==> [Binding(params[0], [arrow.value])] == Expected(params, args, arrow)
    ensures |params| > 1 ==> [Binding(params[0], [arrow.value])] == Partial(params, args, arrow, 1)
  {
    if |params| > 1 {
      assert |Partial(params, args, arrow, 1)| == 1;
    }
  }

  /** A middle parameter takes the next argument, or nothing once the arguments have run out. */
  lemma MiddleBound(params: seq<Param>, args: seq<Child>, arrow: Option<Child>, i: nat)
    requires (if arrow.Some? then 1 else 0) <= i < |params| - 1
    ensures var next := NextArgument(args, arrow, i);
      next < |args| ==> Partial(params, args, arrow, i) + [Binding(params[i], [args[next]])] == Partial(params, args, arrow, i + 1)
    ensures NextArgument(args, arrow, i) >= |args| ==> Partial(params, args, arrow, i) == Partial(params, args, arrow, i + 1)
    ensures NextArgument(args, arrow, i + 1) == Min(NextArgument(args, arrow, i) + 1, |args|)
  {
    var off := if arrow.Some? then 1 else 0;
    var head: seq<Binding> := if arrow.Some? && i >= 1 then [Binding(params[0], [arrow.value])] else [];
    var next := NextArgument(args, arrow, i);
    assert next == Min(i - off, |args|);
    var s := seq(next, j requires 0 <= j < next => Binding(params[off + j], [args[j]]));
    assert Partial(params, args, arrow, i) == head + s;
    if next < |args| {
      var s' := seq(next + 1, j requires 0 <= j < next + 1 => Binding(params[off + j], [args[j]]));
      assert s' == s + [Binding(params[i], [args[next]])];
      assert Partial(params, args, arrow, i + 1) == head + s';
    } else {
      assert Partial(params, args, arrow, i + 1) == head + s;
    }
  }

  /** The last parameter takes every argument left. */
  lemma LastBound(params: seq<Param>, args: seq<Child>, arrow: Option<Child>)
    requires |params| > 0 && !(arrow.Some? && |params| == 1)
    ensures var n := |params|;
      Partial(params, args, arrow, n - 1) + [Binding(params[n - 1], args[NextArgument(args, arrow, n - 1)..])] == Expected(params, args, arrow)
  {
    var n := |params|;
    var off := if arrow.Some? then 1 else 0;
    assert NextArgument(args, arrow, n - 1) == Min(n - 1 - off, |args|);
  }

  /**
   * `bindings`: walks the parameters with an iterator over the arguments,
   * binding each parameter in turn, and dropping middle parameters once the
   * arguments run out.
   */
  method Bindings(parent: Parent, children: seq<Child>) returns (r: seq<Binding>)
    ensures parent.NotACall? || parent.declaration.None? ==> r == []
    ensures parent.FunctionCall? && parent.declaration.Some? ==>
      r == Expected(parent.declaration.value, Arguments(children), None)
    ensures parent.ArrowFunctionCall? && parent.declaration.Some? ==>
      r == Expected(parent.declaration.value, Arguments(children), Some(parent.sourceExpression))
  {
    if parent.NotACall? || parent.declaration.None? {
      return [];
    }
    var arrow := if parent.ArrowFunctionCall? then Some(parent.sourceExpression) else None;
    var args := Arguments(children);
    var params := parent.declaration.value;
    hide Partial, Expected;
    var n := |params|;
    var next := 0;
    var i := 0;
    r := [];
    while i < n
      invariant 0 <= i <= n
      invariant i < n ==> next == NextArgument(args, arrow, i) && r == Partial(params, args, arrow, i)
      invariant i == n ==> r == Expected(params, args, arrow)
    {
      if i == 0 && arrow.Some? {
        ArrowSourceBound(params, args, arrow);
        r := r + [Binding(params[i], [arrow.value])];
      } else if i == n - 1 {
        LastBound(params, args, arrow);
        r := r + [Binding(params[i], args[next..])];
        next := |args|;
      } else if next < |args| {
        MiddleBound(params, args, arrow, i);
        r := r + [Binding(params[i], [args[next]])];
        next := next + 1;
      } else {
        MiddleBound(params, args, arrow, i);
      }
      i := i + 1;
    }
  }

  /** The arguments bound to parameters other than an arrow's first one. */
  function BoundArguments(bs: seq<Binding>): seq<Child> {
    if |bs| == 0 then [] else bs[0].args + BoundArguments(bs[1..])
  }

  lemma {:induction false} BoundArgumentsAppend(a: seq<Binding>, b: seq<Binding>)
    ensures BoundArguments(a + b) == BoundArguments(a) + BoundArguments(b)
  {
    if |a| > 0 {
      assert (a + b)[1..] == a[1..] + b;
      BoundArgumentsAppend(a[1..], b);
    } else {
      assert a + b == b;
    }
  }

  lemma {:induction false} OneEachBindsPrefix(params: seq<Param>, args: seq<Child>, off: nat, k: nat)
    requires off + k <= |params| && k <= |args|
    ensures BoundArguments(seq(k, j requires 0 <= j < k => Binding(params[off + j], [args[j]]))) == args[..k]
  {
    var s := seq(k, j requires 0 <= j < k => Binding(params[off + j], [args[j]]));
    if k > 0 {
      var s' := seq(k - 1, j requires 0 <= j < k - 1 => Binding(params[off + j], [args[j]]));
      assert s == s' + [s[k - 1]];
      BoundArgumentsAppend(s', [s[k - 1]]);
      OneEachBindsPrefix(params, args, off, k - 1);
      assert args[..k] == args[..k - 1] + [args[k - 1]];
    }
  }

  /**
   * Unless the arrow source takes the only parameter, every argument is bound
   * exactly once, in order: the middle parameters take a prefix and the last
   * parameter the rest.
   */
  lemma EveryArgumentBoundOnce(params: seq<Param>, args: seq<Child>)
    requires |params| > 0
    ensures BoundArguments(Expected(params, args, None)) == args
  {
    var n := |params|;
    var k := Min(n - 1, |args|);
    var middle := seq(k, j requires 0 <= j < k => Binding(params[j], [args[j]]));
    var last := [Binding(params[n - 1], args[k..])];
    assert Expected(params, args, None) == middle + last by {
      assert [] + middle == middle;
    }
    BoundArgumentsAppend(middle, last);
    OneEachBindsPrefix(params, args, 0, k);
    assert BoundArguments(last) == args[k..] + BoundArguments(last[1..]);
    assert last[1..] == [] && BoundArguments(last[1..]) == [];
    assert middle == seq(k, j requires 0 <= j < k => Binding(params[0 + j], [args[j]]));
    assert BoundArguments(middle + last) == args[..k] + args[k..];
    assert args[..k] + args[k..] == args;
  }

  /** In an arrow call the source expression takes the first parameter, and the remaining arguments are bound in order after it. */
  lemma ArrowSourceFirst(params: seq<Param>, args: seq<Child>, source: Child)
    requires |params| > 0
    ensures Expected(params, args, Some(source))[0] == Binding(params[0], [source])
    ensures |params| > 1 ==> BoundArguments(Expected(params, args, Some(source))) == [source] + args
  {
    var n := |params|;
    if n > 1 {
      var k := Min(n - 2, |args|);
      var middle := seq(k, j requires 0 <= j < k => Binding(params[1 + j], [args[j]]));
      var e := Expected(params, args, Some(source));
      assert e == [Binding(params[0], [source])] + (middle + [Binding(params[n - 1], args[k..])]);
      BoundArgumentsAppend([Binding(params[0], [source])], middle + [Binding(params[n - 1], args[k..])]);
      BoundArgumentsAppend(middle, [Binding(params[n - 1], args[k..])]);
      OneEachBindsPrefix(params, args, 1, k);
      assert BoundArguments([Binding(params[n - 1], args[k..])]) == args[k..] + [];
      assert BoundArguments([Binding(params[0], [source])]) == [source] + [];
      assert args[..k] + args[k..] == args;
    }
  }

  /**
   * The last parameter is always bound (to all remaining arguments, maybe
   * none), and a middle parameter is dropped exactly when the arguments have
   * run out before it: one binding per parameter less the dropped ones.
   */
  lemma LastBoundMiddleDropped(params: seq<Param>, args: seq<Child>, arrow: Option<Child>)
    requires |params| > 0
    ensures var e := Expected(params, args, arrow);
      |e| > 0 && e[|e| - 1].param == params[|params| - 1]
    ensures var off := if arrow.Some? then 1 else 0;
      |params| > off ==>
        |Expected(params, args, arrow)| == off + Min(|params| - 1 - off, |args|) + 1
  {
  }
}
