/** The walk of a call trace with an explicit stack. */
module TraceWalk {
  import opened Outcomes

  /** A node of a call trace; a missing or falsy error is the empty string. */
  datatype Trace = Trace(error: string, calls: seq<Trace>)

  /** The error-carrying nodes of a tree, children before their parent, left to right. */
  function Postorder(t: Trace): (nodes: seq<Trace>)
    decreases t, 0
  {
    PostorderAll(t.calls) + if t.error != "" then [t] else []
  }

  function PostorderAll(ts: seq<Trace>): (nodes: seq<Trace>)
    decreases ts, 1
  {
    if ts == [] then [] else Postorder(ts[0]) + PostorderAll(ts[1..])
  }

  function Size(t: Trace): (size: nat)
    decreases t, 0
  {
    1 + SizeAll(t.calls)
  }

  function SizeAll(ts: seq<Trace>): (size: nat)
    decreases ts, 1
  {
    if ts == [] then 0 else Size(ts[0]) + SizeAll(ts[1..])
  }

  /** The error of the first node, or `otherwise`. */
  function FirstError(nodes: seq<Trace>, otherwise: Option<string>): (error: Option<string>) {
    if nodes == [] then otherwise else Some(nodes[0].error)
  }

  lemma {:induction false} PostorderConcat(a: seq<Trace>, b: seq<Trace>)
    ensures PostorderAll(a + b) == PostorderAll(a) + PostorderAll(b)
  {
    if a == [] {
      assert a + b == b;
    } else {
      PostorderConcat(a[1..], b);
      assert (a + b)[1..] == a[1..] + b;
      Regroup(Postorder(a[0]), PostorderAll(a[1..]), PostorderAll(b));
    }
  }

  lemma Regroup(x: seq<Trace>, y: seq<Trace>, z: seq<Trace>)
    ensures x + (y + z) == (x + y) + z
  {
  }

  lemma {:induction false} SizeConcat(a: seq<Trace>, b: seq<Trace>)
    ensures SizeAll(a + b) == SizeAll(a) + SizeAll(b)
  {
    if a == [] {
      assert a + b == b;
    } else {
      SizeConcat(a[1..], b);
      assert (a + b)[1..] == a[1..] + b;
    }
  }

  /** Replacing the last tree of the stack by its children moves its error to the front
      of what is still to come, and makes the stack smaller. */
  lemma PopKeepsFirst(rest: seq<Trace>, node: Trace, deepest: Option<string>)
    ensures FirstError(PostorderAll(rest + [node]), deepest)
         == FirstError(PostorderAll(rest + node.calls), if node.error != "" then Some(node.error) else deepest)
    ensures SizeAll(rest + node.calls) < SizeAll(rest + [node])
  {
    PostorderConcat(rest, [node]);
    PostorderConcat(rest, node.calls);
    SizeConcat(rest, [node]);
    SizeConcat(rest, node.calls);
    Regroup(PostorderAll(rest), PostorderAll(node.calls), if node.error != "" then [node] else []);
    assert PostorderAll([node]) == Postorder(node) + PostorderAll([]);
    assert SizeAll([node]) == Size(node) + SizeAll([]);
  }

  /** `_deepest_trace_error`: the error of the first error-carrying node in left-to-right
      postorder, and nothing exactly when no node carries one. */
  method DeepestTraceError(trace: Option<Trace>) returns (deepest: Option<string>)
    ensures trace.None? ==> deepest == None
    ensures trace.Some? && Postorder(trace.value) == [] ==> deepest == None
    ensures trace.Some? && Postorder(trace.value) != [] ==> deepest == Some(Postorder(trace.value)[0].error)
  {
    deepest := None;
    if trace.None? {
      return;
    }
    var stack := [trace.value];
    assert PostorderAll(stack) == Postorder(trace.value) + PostorderAll([]);
    while stack != []
      invariant FirstError(PostorderAll(stack), deepest) == FirstError(Postorder(trace.value), None)
      decreases SizeAll(stack)
    {
      var rest, node := stack[..|stack| - 1], stack[|stack| - 1];
      assert stack == rest + [node];
      PopKeepsFirst(rest, node, deepest);
      if node.error != "" {
        deepest := Some(node.error);
      }
      stack := rest + node.calls;
    }
  }

  /** A node anywhere below `t`, or `t` itself. */
  ghost predicate Within(n: Trace, t: Trace)
    decreases t
  {
    n == t || exists i :: 0 <= i < |t.calls| && Within(n, t.calls[i])
  }

  /** The chosen node lies in the tree, carries an error, and nothing below it does. */
  lemma {:induction false} FirstIsInnermost(t: Trace)
    requires Postorder(t) != []
    ensures Within(Postorder(t)[0], t)
    ensures Postorder(t)[0].error != ""
    ensures forall m :: Within(m, Postorder(t)[0]) && m != Postorder(t)[0] ==> m.error == ""
    decreases t
  {
    if PostorderAll(t.calls) == [] {
      forall m | Within(m, t) && m != t ensures m.error == "" {
        NoErrorBelow(t, m);
      }
    } else {
      var i := FirstChild(t.calls);
      FirstIsInnermost(t.calls[i]);
    }
  }

  /** It is the leftmost such node: it lies below the first child that holds any error. */
  lemma ChosenIsLeftmost(t: Trace) returns (i: nat)
    requires Postorder(t) != [] && Postorder(t)[0] != t
    ensures i < |t.calls| && Postorder(t.calls[i]) != [] && Postorder(t)[0] == Postorder(t.calls[i])[0]
    ensures Within(Postorder(t)[0], t.calls[i])
    ensures forall j, m :: 0 <= j < i && Within(m, t.calls[j]) ==> m.error == ""
  {
    i := FirstChild(t.calls);
    FirstIsInnermost(t.calls[i]);
    forall j, m | 0 <= j < i && Within(m, t.calls[j]) ensures m.error == "" {
      NothingChosenMeansNoError(t.calls[j]);
    }
  }

  lemma {:induction false} FirstChild(ts: seq<Trace>) returns (i: nat)
    requires PostorderAll(ts) != []
    ensures i < |ts| && Postorder(ts[i]) != [] && Postorder(ts[i])[0] == PostorderAll(ts)[0]
    ensures forall j :: 0 <= j < i ==> Postorder(ts[j]) == []
  {
    if Postorder(ts[0]) != [] {
      i := 0;
    } else {
      var j := FirstChild(ts[1..]);
      i := j + 1;
    }
  }

  lemma {:induction false} NoErrorBelow(t: Trace, m: Trace)
    requires PostorderAll(t.calls) == [] && Within(m, t) && m != t
    ensures m.error == ""
    decreases t
  {
    var i :| 0 <= i < |t.calls| && Within(m, t.calls[i]);
    EachEmpty(t.calls, i);
    if m != t.calls[i] {
      NoErrorBelow(t.calls[i], m);
    }
  }

  lemma {:induction false} EachEmpty(ts: seq<Trace>, i: nat)
    requires PostorderAll(ts) == [] && i < |ts|
    ensures Postorder(ts[i]) == []
  {
    if i == 0 {
    } else {
      EachEmpty(ts[1..], i - 1);
    }
  }

  /** No node of the tree carries an error exactly when there is none to choose. */
  lemma {:induction false} NothingChosenMeansNoError(t: Trace)
    ensures Postorder(t) == [] <==> forall m :: Within(m, t) ==> m.error == ""
  {
    if Postorder(t) == [] {
      forall m | Within(m, t) ensures m.error == "" {
        if m != t {
          NoErrorBelow(t, m);
        }
      }
    } else {
      FirstIsInnermost(t);
    }
  }
}
