/** Parsed JSON values and the explicit-stack nesting-depth guard (services/limits.py). */
module Limits {

  /** A parsed JSON value.  An object keeps its keys and values as parallel sequences. */
  datatype Json =
    | Text(text: string)
    | Scalar
    | Array(items: seq<Json>)
    | Object(keys: seq<string>, values: seq<Json>)

  predicate IsContainer(v: Json) {
    v.Array? || v.Object?
  }

  function Children(v: Json): seq<Json> {
    match v
    case Array(items) => items
    case Object(_, values) => values
    case _ => []
  }

  /** Container nesting: a scalar has depth 0, `{"a": 1}` depth 1, `{"a": {"b": 1}}` depth 2. */
  function Depth(v: Json): (d: nat)
    ensures d == 0 <==> !IsContainer(v)
    decreases v, 1
  {
    match v
    case Array(items) => 1 + MaxDepth(items)
    case Object(_, values) => 1 + MaxDepth(values)
    case _ => 0
  }

  function MaxDepth(vs: seq<Json>): nat
    decreases vs, 0
  {
    if vs == [] then 0
    else
      var d, rest := Depth(vs[0]), MaxDepth(vs[1..]);
      if d >= rest then d else rest
  }

  /** Number of nodes, the measure by which the explicit-stack walk terminates. */
  function Size(v: Json): (n: nat)
    ensures n >= 1
    decreases v, 1
  {
    match v
    case Array(items) => 1 + SizeAll(items)
    case Object(_, values) => 1 + SizeAll(values)
    case _ => 1
  }

  function SizeAll(vs: seq<Json>): nat
    decreases vs, 0
  {
    if vs == [] then 0 else Size(vs[0]) + SizeAll(vs[1..])
  }

  lemma {:induction false} MaxDepthIsLeastBound(vs: seq<Json>, bound: int)
    requires bound >= 0
    ensures MaxDepth(vs) <= bound <==> forall i :: 0 <= i < |vs| ==> Depth(vs[i]) <= bound
  {
    if vs != [] {
      MaxDepthIsLeastBound(vs[1..], bound);
      assert forall i :: 0 <= i < |vs[1..]| ==> vs[1..][i] == vs[i + 1];
      assert vs == [vs[0]] + vs[1..];
    }
  }

  /** One pending visit: a node and the depth at which it sits. */
  datatype Visit = Visit(node: Json, depth: nat)

  ghost predicate Fits(v: Visit, maxDepth: int) {
    IsContainer(v.node) ==> v.depth - 1 + Depth(v.node) <= maxDepth
  }

  ghost predicate AllFit(stack: seq<Visit>, maxDepth: int) {
    forall i :: 0 <= i < |stack| ==> Fits(stack[i], maxDepth)
  }

  ghost function StackSize(stack: seq<Visit>): nat {
    if stack == [] then 0 else StackSize(stack[..|stack| - 1]) + Size(stack[|stack| - 1].node)
  }

  /** The walk's `(child, depth + 1) for child in children`. */
  function Visits(vs: seq<Json>, depth: nat): (r: seq<Visit>)
    ensures |r| == |vs|
    ensures forall i :: 0 <= i < |vs| ==> r[i] == Visit(vs[i], depth)
  {
    seq(|vs|, i requires 0 <= i < |vs| => Visit(vs[i], depth))
  }

  lemma {:induction false} StackSizeExtend(stack: seq<Visit>, vs: seq<Json>, depth: nat)
    ensures StackSize(stack + Visits(vs, depth)) == StackSize(stack) + SizeAll(vs)
    decreases |vs|
  {
    if vs == [] {
      assert stack + Visits(vs, depth) == stack;
    } else {
      var first := stack + [Visit(vs[0], depth)];
      assert stack + Visits(vs, depth) == first + Visits(vs[1..], depth);
      assert first[..|first| - 1] == stack;
      StackSizeExtend(first, vs[1..], depth);
    }
  }

  /** A container fits exactly when it is not too deep itself and all its children fit one level down. */
  lemma FitsUnfolds(v: Visit, maxDepth: int)
    requires v.depth >= 1 && IsContainer(v.node)
    ensures Fits(v, maxDepth) <==> v.depth <= maxDepth && AllFit(Visits(Children(v.node), v.depth + 1), maxDepth)
  {
    var kids := Children(v.node);
    var visits := Visits(kids, v.depth + 1);
    if v.depth <= maxDepth {
      MaxDepthIsLeastBound(kids, maxDepth - v.depth);
      assert forall i :: 0 <= i < |kids| ==> (Fits(visits[i], maxDepth) <==> Depth(kids[i]) <= maxDepth - v.depth);
    }
  }

  lemma AllFitAppend(a: seq<Visit>, b: seq<Visit>, maxDepth: int)
    ensures AllFit(a + b, maxDepth) <==> AllFit(a, maxDepth) && AllFit(b, maxDepth)
  {
    assert forall i :: 0 <= i < |a| ==> (a + b)[i] == a[i];
    assert forall i :: 0 <= i < |b| ==> (a + b)[|a| + i] == b[i];
  }

  /** Popping the top node and pushing its children keeps the question asked of the whole stack,
      as long as the node itself is not too deep; a node that is too deep answers it. */
  lemma VisitTop(rest: seq<Visit>, top: Visit, maxDepth: int)
    requires top.depth >= 1
    ensures AllFit(rest + [top], maxDepth) <==> AllFit(rest, maxDepth) && Fits(top, maxDepth)
    ensures StackSize(rest + [top]) == StackSize(rest) + Size(top.node)
    ensures !IsContainer(top.node) ==> Fits(top, maxDepth)
    ensures IsContainer(top.node) && top.depth > maxDepth ==> !Fits(top, maxDepth)
    ensures IsContainer(top.node) && top.depth <= maxDepth ==>
              var stack := rest + Visits(Children(top.node), top.depth + 1);
              && (AllFit(stack, maxDepth) <==> AllFit(rest + [top], maxDepth))
              && StackSize(stack) < StackSize(rest + [top])
  {
    AllFitAppend(rest, [top], maxDepth);
    assert (rest + [top])[..|rest|] == rest;
    assert AllFit([top], maxDepth) <==> Fits([top][0], maxDepth);
    if IsContainer(top.node) {
      FitsUnfolds(top, maxDepth);
      AllFitAppend(rest, Visits(Children(top.node), top.depth + 1), maxDepth);
      StackSizeExtend(rest, Children(top.node), top.depth + 1);
    }
  }

  /** The guard: an explicit stack instead of recursion.  It terminates on every value and accepts
      exactly the values whose recursive container depth is at most `maxDepth`. */
  method CheckDepth(value: Json, maxDepth: int) returns (accepted: bool)
    ensures accepted <==> !IsContainer(value) || Depth(value) <= maxDepth
  {
    var stack := [Visit(value, 1)];
    assert AllFit(stack, maxDepth) <==> Fits(stack[0], maxDepth);
    while stack != []
      invariant forall i :: 0 <= i < |stack| ==> stack[i].depth >= 1
      invariant AllFit(stack, maxDepth) <==> Fits(Visit(value, 1), maxDepth)
      decreases StackSize(stack)
    {
      var top, rest := stack[|stack| - 1], stack[..|stack| - 1];
      assert stack == rest + [top];
      VisitTop(rest, top, maxDepth);
      if !IsContainer(top.node) {
        stack := rest;
      } else if top.depth > maxDepth {
        return false;
      } else {
        stack := rest + Visits(Children(top.node), top.depth + 1);
      }
    }
    return true;
  }
}
